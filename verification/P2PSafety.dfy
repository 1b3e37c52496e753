/** What every run of networked rounds keeps, whatever the transport loses. */
module P2PSafety {
  import opened Wrappers
  import opened Sequences
  import opened Strings
  import opened LedgerState
  import opened ExecutionEngine
  import opened StateManagement
  import opened Nodes
  import opened Consensus
  import opened Voting
  import opened Network
  import opened NodeHealth
  import opened P2PNetwork

  // ------------------------------------------------------------------
  // Runs
  // ------------------------------------------------------------------

  predicate Fits(s: P2PState, inputs: seq<RoundInput>) {
    forall k :: 0 <= k < |inputs| ==> |inputs[k].deliveries| == |s.replicas|
  }

  lemma FitsPrefix(s: P2PState, inputs: seq<RoundInput>, n: nat)
    requires Fits(s, inputs) && n <= |inputs|
    ensures Fits(s, inputs[..n])
    ensures n < |inputs| ==> |inputs[n].deliveries| == |s.replicas|
  {
  }

  ghost function RunRounds(cfg: Config, keys: map<string, nat>, s: P2PState, inputs: seq<RoundInput>): (end: P2PState)
    requires Fits(s, inputs)
    ensures |end.replicas| == |s.replicas|
  {
    if inputs == [] then s
    else
      var n := |inputs| - 1;
      RoundStep(cfg, keys, RunRounds(cfg, keys, s, inputs[..n]), inputs[n])
  }

  /** One more round. */
  lemma {:induction false} RunNext(cfg: Config, keys: map<string, nat>, s: P2PState, all: seq<RoundInput>, past: seq<RoundInput>, input: RoundInput)
    requires Fits(s, all) && all == past + [input]
    ensures Fits(s, past) && |input.deliveries| == |s.replicas|
    ensures RunRounds(cfg, keys, s, all) == RoundStep(cfg, keys, RunRounds(cfg, keys, s, past), input)
  {
    assert all[..|past|] == past && all[|past|] == input;
  }

  predicate DistinctServers(rs: seq<Replica>) {
    && (forall i, j :: 0 <= i < j < |rs| ==> rs[i].id != rs[j].id)
    && (forall i :: 0 <= i < |rs| ==> rs[i].key.Some?)
  }

  /** A network as constructed: fresh health records, no history. */
  predicate Initial(s: P2PState, servers: seq<Replica>) {
    && s.replicas == servers && DistinctServers(servers)
    && (forall r :: r in servers ==> Lookup(s.health, r.id) == FRESH)
    && s.history == [] && (s.events.Some? ==> s.events.value == [])
  }

  lemma {:induction false} ServersStay(cfg: Config, keys: map<string, nat>, s: P2PState, inputs: seq<RoundInput>)
    requires Fits(s, inputs)
    ensures SameRoster(RunRounds(cfg, keys, s, inputs).replicas, s.replicas)
    decreases |inputs|
  {
    if inputs != [] {
      hide RoundStep;
      var n := |inputs| - 1;
      ServersStay(cfg, keys, s, inputs[..n]);
      RosterNext(cfg, keys, RunRounds(cfg, keys, s, inputs[..n]), inputs[n], s.replicas, RunRounds(cfg, keys, s, inputs));
    }
  }

  lemma RosterNext(cfg: Config, keys: map<string, nat>, s: P2PState, input: RoundInput, rs: seq<Replica>, end: P2PState)
    requires |input.deliveries| == |s.replicas| && SameRoster(s.replicas, rs)
    requires end == RoundStep(cfg, keys, s, input)
    ensures SameRoster(end.replicas, rs)
  {
    RoundKeepsServers(cfg, keys, s, input);
  }

  lemma RoundKeepsServers(cfg: Config, keys: map<string, nat>, s: P2PState, input: RoundInput)
    requires |input.deliveries| == |s.replicas|
    ensures SameRoster(RoundStep(cfg, keys, s, input).replicas, s.replicas)
  {
    var moved := RoundStep(cfg, keys, s, input).replicas;
    forall i | 0 <= i < |moved|
      ensures moved[i].id == s.replicas[i].id && moved[i].malicious == s.replicas[i].malicious && moved[i].key == s.replicas[i].key
    {
      ReplicaEffect(cfg, keys, s, input, i);
    }
  }

  // ------------------------------------------------------------------
  // One round: contacts, answers and health
  // ------------------------------------------------------------------

  /** What a round was for one server. */
  datatype Fate = Skipped | Answered | Failed

  function FateOf(health: map<string, Health>, tx: Transaction, l: Link): Fate {
    if IsExcluded(health, l.server.id) then Skipped
    else if l.delivery.Delivered? && Execute(l.server.managed.state, tx).Ok? then Answered
    else Failed
  }

  predicate DistinctLinks(links: seq<Link>) {
    forall i, j :: 0 <= i < j < |links| ==> links[i].server.id != links[j].server.id
  }

  predicate DistinctContacts(cs: seq<Contact>) {
    forall i, j :: 0 <= i < j < |cs| ==> cs[i].id != cs[j].id
  }

  /** Contacts are the participating links. */
  lemma GatherMembers(h: Hashing, health: map<string, Health>, links: seq<Link>, tx: Transaction)
    ensures
      var cs := Gather(h, health, links, tx);
      && (forall c :: c in cs ==> exists l :: l in links && !IsExcluded(health, l.server.id) && c == ContactOf(h, tx)(l))
      && (forall l :: l in links && !IsExcluded(health, l.server.id) ==> ContactOf(h, tx)(l) in cs)
  {
    MapMember(ContactOf(h, tx), Filter(Participating(health), links));
  }

  /** One contact per server. */
  lemma {:induction false} GatherDistinct(h: Hashing, health: map<string, Health>, links: seq<Link>, tx: Transaction)
    requires DistinctLinks(links)
    ensures DistinctContacts(Gather(h, health, links, tx))
    decreases |links|
  {
    if links != [] {
      GatherDistinct(h, health, links[1..], tx);
      GatherMembers(h, health, links[1..], tx);
      var rest := Gather(h, health, links[1..], tx);
      forall c | c in rest ensures c.id != links[0].server.id {
        var l :| l in links[1..] && !IsExcluded(health, l.server.id) && c == ContactOf(h, tx)(l);
        var k :| 0 <= k < |links[1..]| && links[1..][k] == l;
        assert links[k + 1] == l;
      }
      PrependDistinct(ContactOf(h, tx)(links[0]), rest);
    }
  }

  lemma PrependDistinct(c: Contact, rest: seq<Contact>)
    requires DistinctContacts(rest) && forall d :: d in rest ==> d.id != c.id
    ensures DistinctContacts([c] + rest)
  {
    var cs := [c] + rest;
    forall i, j | 0 <= i < j < |cs| ensures cs[i].id != cs[j].id {
      assert cs[j] == rest[j - 1] && rest[j - 1] in rest;
      if i > 0 { assert cs[i] == rest[i - 1]; }
    }
  }

  lemma {:induction false} NoteOthers(health: map<string, Health>, cs: seq<Contact>, now: int, id: string)
    requires forall c :: c in cs ==> c.id != id
    ensures Lookup(NoteAll(health, cs, now), id) == Lookup(health, id)
    decreases |cs|
  {
    if cs != [] {
      var n := |cs| - 1;
      assert cs[n] in cs;
      NoteOthers(health, cs[..n], now, id);
    }
  }

  lemma {:induction false} NoteContact(health: map<string, Health>, cs: seq<Contact>, now: int, c: Contact)
    requires DistinctContacts(cs) && c in cs
    ensures Lookup(NoteAll(health, cs, now), c.id) == Lookup(Note(health, c, now), c.id)
    decreases |cs|
  {
    var n := |cs| - 1;
    if cs[n] == c {
      NoteOthers(health, cs[..n], now, c.id);
    } else {
      assert c in cs[..n];
      var k :| 0 <= k < n && cs[k] == c;
      NoteContact(health, cs[..n], now, c);
    }
  }

  /** A server's health moves by its own fate alone. */
  lemma {:induction false} HealthByFate(h: Hashing, health: map<string, Health>, links: seq<Link>, tx: Transaction, now: int, i: nat)
    requires DistinctLinks(links) && i < |links|
    ensures
      var l := links[i];
      var x := Lookup(health, l.server.id);
      Lookup(NoteAll(Register(health, links), Gather(h, health, links, tx), now), l.server.id) ==
      match FateOf(health, tx, l)
      case Skipped => x
      case Answered => OnSuccess(x, l.delivery.latency, now)
      case Failed => OnFailure(x, now)
  {
    var l := links[i];
    var cs := Gather(h, health, links, tx);
    GatherDistinct(h, health, links, tx);
    GatherMembers(h, health, links, tx);
    RegisterKeeps(health, links, l.server.id);
    if IsExcluded(health, l.server.id) {
      forall c | c in cs ensures c.id != l.server.id {
        var m :| m in links && !IsExcluded(health, m.server.id) && c == ContactOf(h, tx)(m);
      }
      NoteOthers(Register(health, links), cs, now, l.server.id);
    } else {
      assert l in links;
      NoteContact(Register(health, links), cs, now, ContactOf(h, tx)(l));
    }
  }

  lemma LinksDistinct(servers: seq<Replica>, deliveries: seq<Delivery>)
    requires DistinctServers(servers) && |servers| == |deliveries|
    ensures DistinctLinks(Links(servers, deliveries))
  {
  }

  /** Answers carry distinct ids when contacts do. */
  lemma {:induction false} AnswersFacts(cs: seq<Contact>)
    requires DistinctContacts(cs)
    requires forall c :: c in cs && c.response.Answer? ==> c.response.result.nodeId == c.id
    ensures DistinctIds(Answers(cs))
    ensures forall r :: r in Answers(cs) ==> exists c :: c in cs && c.response.Answer? && c.response.result == r
    decreases |cs|
  {
    if cs != [] {
      var n := |cs| - 1;
      AnswersFacts(cs[..n]);
      assert cs[n] in cs;
      forall r | r in Answers(cs[..n]) ensures r.nodeId != cs[n].id {
        var c :| c in cs[..n] && c.response.Answer? && c.response.result == r;
      }
    }
  }

  // ------------------------------------------------------------------
  // Exclusion
  // ------------------------------------------------------------------

  ghost function FateIn(s: P2PState, input: RoundInput, i: nat): Fate
    requires |input.deliveries| == |s.replicas| && i < |s.replicas|
  {
    FateOf(s.health, input.tx, Link(s.replicas[i], input.deliveries[i]))
  }

  /** What one round does to the state and the health record of one server. */
  lemma RoundEffect(cfg: Config, keys: map<string, nat>, s: P2PState, input: RoundInput, i: nat)
    requires DistinctServers(s.replicas) && |input.deliveries| == |s.replicas| && i < |s.replicas|
    ensures
      var next := RoundStep(cfg, keys, s, input);
      var x := Lookup(s.health, s.replicas[i].id);
      Lookup(next.health, s.replicas[i].id) ==
      match FateIn(s, input, i)
      case Skipped => x
      case Answered => OnSuccess(x, input.deliveries[i].latency, input.now)
      case Failed => OnFailure(x, input.now)
  {
    LinksDistinct(s.replicas, input.deliveries);
    HealthByFate(cfg.hashing, s.health, Links(s.replicas, input.deliveries), input.tx, input.now, i);
  }

  lemma ReplicaEffect(cfg: Config, keys: map<string, nat>, s: P2PState, input: RoundInput, i: nat)
    requires |input.deliveries| == |s.replicas| && i < |s.replicas|
    ensures
      RoundStep(cfg, keys, s, input).replicas[i] ==
      if FateIn(s, input, i).Skipped? || input.deliveries[i].LostBefore? then s.replicas[i]
      else ReplicaStep(cfg.hashing, s.replicas[i], input.tx)
  {
  }

  /** The fates of server `i`, round by round. */
  ghost function Column(cfg: Config, keys: map<string, nat>, s: P2PState, inputs: seq<RoundInput>, i: nat): (col: seq<Fate>)
    requires Fits(s, inputs) && i < |s.replicas|
    ensures |col| == |inputs|
    ensures forall k {:trigger col[k]} :: 0 <= k < |inputs| ==> col[k] == FateIn(RunRounds(cfg, keys, s, inputs[..k]), inputs[k], i)
  {
    seq(|inputs|, k requires 0 <= k < |inputs| => FateIn(RunRounds(cfg, keys, s, inputs[..k]), inputs[k], i))
  }

  /** A shorter run has a shorter column. */
  lemma ColumnPrefix(cfg: Config, keys: map<string, nat>, s: P2PState, inputs: seq<RoundInput>, i: nat, k: nat)
    requires Fits(s, inputs) && i < |s.replicas| && k <= |inputs|
    ensures Column(cfg, keys, s, inputs[..k], i) == Column(cfg, keys, s, inputs, i)[..k]
  {
    hide RunRounds, FateIn;
    var short, long := Column(cfg, keys, s, inputs[..k], i), Column(cfg, keys, s, inputs, i);
    forall j | 0 <= j < k ensures short[j] == long[j] {
      assert inputs[..k][..j] == inputs[..j];
    }
  }

  lemma {:induction false} ColumnNext(cfg: Config, keys: map<string, nat>, s: P2PState, inputs: seq<RoundInput>, i: nat, n: nat)
    requires Fits(s, inputs) && i < |s.replicas| && |inputs| == n + 1
    ensures Column(cfg, keys, s, inputs, i)
         == Column(cfg, keys, s, inputs[..n], i) + [FateIn(RunRounds(cfg, keys, s, inputs[..n]), inputs[n], i)]
  {
    ColumnPrefix(cfg, keys, s, inputs, i, n);
    SplitLast(Column(cfg, keys, s, inputs, i), n);
  }

  predicate FailedFiveFrom(col: seq<Fate>, j: nat) {
    j + 5 <= |col| && forall r :: j <= r < j + 5 ==> col[r] == Failed
  }

  /** Five consecutive rounds in which the server was contacted and failed. */
  ghost predicate FiveFailures(col: seq<Fate>) {
    exists j: nat :: FailedFiveFrom(col, j)
  }

  function TrailingFailures(col: seq<Fate>): nat {
    if col == [] || col[|col| - 1] != Failed then 0 else 1 + TrailingFailures(col[..|col| - 1])
  }

  lemma {:induction false} TrailingExactly(col: seq<Fate>, m: nat)
    ensures m <= TrailingFailures(col) <==> m <= |col| && forall r :: |col| - m <= r < |col| ==> col[r] == Failed
    decreases m
  {
    if m > 0 && col != [] && col[|col| - 1] == Failed {
      var n := |col| - 1;
      TrailingExactly(col[..n], m - 1);
      assert forall r :: 0 <= r < n ==> col[..n][r] == col[r];
      if m <= |col| && forall r :: n - (m - 1) <= r < n ==> col[..n][r] == Failed {
        assert forall r :: |col| - m <= r < n ==> col[r] == col[..n][r];
      }
    } else if m > 0 && col != [] {
      assert |col| - m <= |col| - 1;
    }
  }

  /** A health record reflects the fates so far. */
  ghost predicate Tracks(col: seq<Fate>, x: Health) {
    if x.state.Excluded? then FiveFailures(col)
    else !FiveFailures(col) && x.consecutiveFailures == TrailingFailures(col) < 5
  }

  lemma {:induction false} FiveFailuresStep(col: seq<Fate>, fate: Fate)
    ensures FiveFailures(col + [fate]) <==> FiveFailures(col) || TrailingFailures(col + [fate]) >= 5
  {
    var next := col + [fate];
    TrailingExactly(next, 5);
    if FiveFailures(col) {
      var j: nat :| FailedFiveFrom(col, j);
      assert FailedFiveFrom(next, j);
    }
    if TrailingFailures(next) >= 5 {
      assert FailedFiveFrom(next, |next| - 5);
    }
    if FiveFailures(next) {
      var j: nat :| FailedFiveFrom(next, j);
      if j + 5 <= |col| {
        assert forall r :: 0 <= r < |col| ==> next[r] == col[r];
        assert FailedFiveFrom(col, j);
      }
    }
  }

  lemma TracksStep(col: seq<Fate>, x: Health, fate: Fate, latency: int, now: int)
    requires Tracks(col, x) && (fate.Skipped? <==> x.state.Excluded?)
    ensures Tracks(col + [fate], match fate case Skipped => x case Answered => OnSuccess(x, latency, now) case Failed => OnFailure(x, now))
  {
    FiveFailuresStep(col, fate);
    assert (col + [fate])[..|col|] == col;
  }

  /** Health records follow the fates over any run. */
  lemma {:induction false} HealthTracksFates(cfg: Config, keys: map<string, nat>, s: P2PState, inputs: seq<RoundInput>, i: nat)
    requires Initial(s, s.replicas) && Fits(s, inputs) && i < |s.replicas|
    ensures Tracks(Column(cfg, keys, s, inputs, i), Lookup(RunRounds(cfg, keys, s, inputs).health, s.replicas[i].id))
    decreases |inputs|
  {
    if inputs == [] {
      assert s.replicas[i] in s.replicas;
    } else {
      var n := |inputs| - 1;
      var mid := RunRounds(cfg, keys, s, inputs[..n]);
      HealthTracksFates(cfg, keys, s, inputs[..n], i);
      RosterOfRun(cfg, keys, s, inputs[..n], i);
      ColumnNext(cfg, keys, s, inputs, i, n);
      TracksNext(cfg, keys, mid, inputs[n], i, s.replicas[i].id, Column(cfg, keys, s, inputs[..n], i),
                 Column(cfg, keys, s, inputs, i), RunRounds(cfg, keys, s, inputs));
    }
  }

  lemma TracksNext(cfg: Config, keys: map<string, nat>, s: P2PState, input: RoundInput, i: nat, id: string,
                   col: seq<Fate>, next: seq<Fate>, end: P2PState)
    requires DistinctServers(s.replicas) && |input.deliveries| == |s.replicas| && i < |s.replicas| && s.replicas[i].id == id
    requires Tracks(col, Lookup(s.health, id))
    requires next == col + [FateIn(s, input, i)] && end == RoundStep(cfg, keys, s, input)
    ensures Tracks(next, Lookup(end.health, id))
  {
    TracksRound(cfg, keys, s, input, i, col);
  }

  lemma {:induction false} RosterOfRun(cfg: Config, keys: map<string, nat>, s: P2PState, inputs: seq<RoundInput>, i: nat)
    requires DistinctServers(s.replicas) && Fits(s, inputs) && i < |s.replicas|
    ensures DistinctServers(RunRounds(cfg, keys, s, inputs).replicas)
    ensures RunRounds(cfg, keys, s, inputs).replicas[i].id == s.replicas[i].id
  {
    ServersStay(cfg, keys, s, inputs);
  }

  lemma TracksRound(cfg: Config, keys: map<string, nat>, s: P2PState, input: RoundInput, i: nat, col: seq<Fate>)
    requires DistinctServers(s.replicas) && |input.deliveries| == |s.replicas| && i < |s.replicas|
    requires Tracks(col, Lookup(s.health, s.replicas[i].id))
    ensures Tracks(col + [FateIn(s, input, i)], Lookup(RoundStep(cfg, keys, s, input).health, s.replicas[i].id))
  {
    RoundEffect(cfg, keys, s, input, i);
    TracksStep(col, Lookup(s.health, s.replicas[i].id), FateIn(s, input, i),
               if input.deliveries[i].Delivered? then input.deliveries[i].latency else 0, input.now);
  }

  lemma {:induction false} ExcludedExactly(cfg: Config, keys: map<string, nat>, s: P2PState, inputs: seq<RoundInput>, i: nat)
    requires Initial(s, s.replicas) && Fits(s, inputs) && i < |s.replicas|
    ensures IsExcluded(RunRounds(cfg, keys, s, inputs).health, s.replicas[i].id) <==> FiveFailures(Column(cfg, keys, s, inputs, i))
  {
    HealthTracksFates(cfg, keys, s, inputs, i);
  }

  /** A server is skipped exactly when it was contacted and failed in five consecutive earlier rounds. */
  lemma {:induction false} SkippedExactly(cfg: Config, keys: map<string, nat>, s: P2PState, inputs: seq<RoundInput>, input: RoundInput, i: nat)
    requires Initial(s, s.replicas) && Fits(s, inputs) && |input.deliveries| == |s.replicas| && i < |s.replicas|
    ensures FateIn(RunRounds(cfg, keys, s, inputs), input, i).Skipped? <==> FiveFailures(Column(cfg, keys, s, inputs, i))
  {
    ExcludedExactly(cfg, keys, s, inputs, i);
    ServersStay(cfg, keys, s, inputs);
  }

  /** Server `i` is excluded and stands as `r`. */
  predicate Frozen(s: P2PState, i: nat, r: Replica) {
    i < |s.replicas| && s.replicas[i] == r && IsExcluded(s.health, r.id)
  }

  lemma StaysFrozen(cfg: Config, keys: map<string, nat>, s: P2PState, input: RoundInput, i: nat, r: Replica)
    requires DistinctServers(s.replicas) && |input.deliveries| == |s.replicas| && Frozen(s, i, r)
    ensures Frozen(RoundStep(cfg, keys, s, input), i, r)
  {
    RoundEffect(cfg, keys, s, input, i);
    ReplicaEffect(cfg, keys, s, input, i);
  }

  /** An excluded server is excluded after any further rounds, with its state frozen. */
  lemma {:induction false} FrozenForever(cfg: Config, keys: map<string, nat>, s: P2PState, inputs: seq<RoundInput>, i: nat, r: Replica)
    requires DistinctServers(s.replicas) && Fits(s, inputs) && Frozen(s, i, r)
    ensures Frozen(RunRounds(cfg, keys, s, inputs), i, r)
    decreases |inputs|
  {
    hide *;
    if inputs == [] {
      FrozenStart(cfg, keys, s, inputs, i, r);
    } else {
      FitsPrefix(s, inputs, |inputs| - 1);
      FrozenForever(cfg, keys, s, inputs[..|inputs| - 1], i, r);
      FrozenNext(cfg, keys, s, inputs, |inputs| - 1, i, r);
    }
  }

  lemma {:induction false} FrozenStart(cfg: Config, keys: map<string, nat>, s: P2PState, inputs: seq<RoundInput>, i: nat, r: Replica)
    requires Fits(s, inputs) && Frozen(s, i, r) && inputs == []
    ensures Frozen(RunRounds(cfg, keys, s, inputs), i, r)
  {
  }

  lemma {:induction false} FrozenNext(cfg: Config, keys: map<string, nat>, s: P2PState, inputs: seq<RoundInput>, n: nat, i: nat, r: Replica)
    requires DistinctServers(s.replicas) && Fits(s, inputs) && |inputs| == n + 1
    requires Frozen(RunRounds(cfg, keys, s, inputs[..n]), i, r)
    ensures Frozen(RunRounds(cfg, keys, s, inputs), i, r)
  {
    hide RunRounds, RoundStep, DistinctServers;
    SplitLast(inputs, n);
    RunNext(cfg, keys, s, inputs, inputs[..n], inputs[n]);
    RosterOfRun(cfg, keys, s, inputs[..n], i);
    StaysFrozen(cfg, keys, RunRounds(cfg, keys, s, inputs[..n]), inputs[n], i, r);
  }

  function WithFate(health: map<string, Health>, tx: Transaction, fate: Fate): Link -> bool {
    (l: Link) => FateOf(health, tx, l) == fate
  }

  const IS_ANSWER: Contact -> bool := (c: Contact) => c.response.Answer?

  /** Skipped, answering and failed servers are the roster; answers and exceptions are those of the contacts. */
  lemma {:induction false} RoundAccounts(h: Hashing, health: map<string, Health>, links: seq<Link>, tx: Transaction)
    ensures
      var (skipped, answered, failed) :=
        (|Filter(WithFate(health, tx, Skipped), links)|, |Filter(WithFate(health, tx, Answered), links)|,
         |Filter(WithFate(health, tx, Failed), links)|);
      var contacts := Gather(h, health, links, tx);
      && skipped + answered + failed == |links|
      && answered == |Answers(contacts)|
      && failed == |contacts| - |Answers(contacts)|
  {
    SkippedOrContacted(h, health, links, tx);
    AnsweredLinks(h, health, links, tx);
    AnswersCounted(Gather(h, health, links, tx));
    FatesCover(health, links, tx);
  }

  lemma {:induction false} FatesCover(health: map<string, Health>, links: seq<Link>, tx: Transaction)
    ensures |Filter(WithFate(health, tx, Skipped), links)| + |Filter(WithFate(health, tx, Answered), links)|
          + |Filter(WithFate(health, tx, Failed), links)| == |links|
  {
    if links != [] {
      FatesCover(health, links[1..], tx);
    }
  }

  lemma {:induction false} SkippedOrContacted(h: Hashing, health: map<string, Health>, links: seq<Link>, tx: Transaction)
    ensures |Filter(WithFate(health, tx, Skipped), links)| + |Gather(h, health, links, tx)| == |links|
  {
    if links != [] {
      SkippedOrContacted(h, health, links[1..], tx);
    }
  }

  lemma {:induction false} AnsweredLinks(h: Hashing, health: map<string, Health>, links: seq<Link>, tx: Transaction)
    ensures |Filter(WithFate(health, tx, Answered), links)| == |Filter(IS_ANSWER, Gather(h, health, links, tx))|
  {
    if links != [] {
      AnsweredLinks(h, health, links[1..], tx);
    }
  }

  lemma {:induction false} AnswersCounted(cs: seq<Contact>)
    ensures |Answers(cs)| == |Filter(IS_ANSWER, cs)|
    decreases |cs|
  {
    if cs != [] {
      var n := |cs| - 1;
      AnswersCounted(cs[..n]);
      assert cs == cs[..n] + [cs[n]];
      FilterAppend(IS_ANSWER, cs[..n], cs[n]);
    }
  }

  /** What a server that answers reports: its state after the transaction. */
  function ReportAfter(h: Hashing, tx: Transaction): Link -> NodeResult {
    (l: Link) => Report(h, ReplicaStep(h, l.server, tx))
  }

  /** The answers are the reports of the answering servers, in roster order. */
  lemma {:induction false} AnswersExactly(h: Hashing, health: map<string, Health>, links: seq<Link>, tx: Transaction)
    ensures Answers(Gather(h, health, links, tx)) == Map(ReportAfter(h, tx), Filter(WithFate(health, tx, Answered), links))
    decreases |links|
  {
    hide *;
    if links == [] {
      NoAnswers(h, health, links, tx);
    } else {
      var n := |links| - 1;
      AnswersExactly(h, health, links[..n], tx);
      SplitLast(links, n);
      AnswersNext(h, health, links[..n], tx, links[n]);
      ReportsNext(h, health, links[..n], tx, links[n]);
    }
  }

  lemma {:induction false} NoAnswers(h: Hashing, health: map<string, Health>, links: seq<Link>, tx: Transaction)
    requires links == []
    ensures Answers(Gather(h, health, links, tx)) == Map(ReportAfter(h, tx), Filter(WithFate(health, tx, Answered), links))
  {
  }

  lemma AnswersNext(h: Hashing, health: map<string, Health>, links: seq<Link>, tx: Transaction, l: Link)
    ensures Answers(Gather(h, health, links + [l], tx))
         == Answers(Gather(h, health, links, tx)) + (if FateOf(health, tx, l).Answered? then [ReportAfter(h, tx)(l)] else [])
  {
    hide Gather, Answers, Execute, ReplicaStep, Report;
    var cs := Gather(h, health, links, tx);
    GatherAppend(h, health, links, tx, l);
    if IsExcluded(health, l.server.id) {
      assert cs + [] == cs;
    } else {
      AnswersAppend(cs, ContactOf(h, tx)(l));
    }
  }

  lemma {:induction false} ReportsNext(h: Hashing, health: map<string, Health>, links: seq<Link>, tx: Transaction, l: Link)
    ensures Map(ReportAfter(h, tx), Filter(WithFate(health, tx, Answered), links + [l]))
         == Map(ReportAfter(h, tx), Filter(WithFate(health, tx, Answered), links))
          + (if FateOf(health, tx, l).Answered? then [ReportAfter(h, tx)(l)] else [])
  {
    hide FateOf, Execute, ReplicaStep, Report;
    FilterAppend(WithFate(health, tx, Answered), links, l);
    MapConcat(ReportAfter(h, tx), Filter(WithFate(health, tx, Answered), links),
              if FateOf(health, tx, l).Answered? then [l] else []);
  }

  lemma GatherAppend(h: Hashing, health: map<string, Health>, links: seq<Link>, tx: Transaction, l: Link)
    ensures Gather(h, health, links + [l], tx)
         == Gather(h, health, links, tx) + (if IsExcluded(health, l.server.id) then [] else [ContactOf(h, tx)(l)])
  {
    hide Execute, ReplicaStep, Report;
    FilterAppend(Participating(health), links, l);
    MapConcat(ContactOf(h, tx), Filter(Participating(health), links), if IsExcluded(health, l.server.id) then [] else [l]);
  }

  lemma {:induction false} AnswersAppend(cs: seq<Contact>, c: Contact)
    ensures Answers(cs + [c]) == Answers(cs) + (if c.response.Answer? then [c.response.result] else [])
  {
    assert (cs + [c])[..|cs|] == cs;
  }

  /** After a round exactly the servers are known to the registry in addition. */
  lemma RegisteredExactly(cfg: Config, keys: map<string, nat>, s: P2PState, input: RoundInput)
    requires |input.deliveries| == |s.replicas|
    ensures RoundStep(cfg, keys, s, input).health.Keys == s.health.Keys + ServerIds(s.replicas)
  {
    hide Decide, Execute;
    var links := Links(s.replicas, input.deliveries);
    RegisterKeys(s.health, links);
    NoteKeys(Register(s.health, links), Gather(cfg.hashing, s.health, links, input.tx), input.now);
    GatherMembers(cfg.hashing, s.health, links, input.tx);
    LinkIds(s.replicas, links);
  }

  lemma LinkIds(rs: seq<Replica>, links: seq<Link>)
    requires |links| == |rs| && forall i :: 0 <= i < |links| ==> links[i].server == rs[i]
    ensures (set l | l in links :: l.server.id) == ServerIds(rs)
  {
    forall id | id in ServerIds(rs) ensures id in (set l | l in links :: l.server.id) {
      var r :| r in rs && r.id == id;
      var i :| 0 <= i < |rs| && rs[i] == r;
      assert links[i] in links;
    }
  }

  lemma {:induction false} RegisterKeys(health: map<string, Health>, links: seq<Link>)
    ensures Register(health, links).Keys == health.Keys + set l | l in links :: l.server.id
    decreases |links|
  {
    if links != [] {
      var n := |links| - 1;
      RegisterKeys(health, links[..n]);
      SplitLast(links, n);
      assert (set l | l in links :: l.server.id) == (set l | l in links[..n] :: l.server.id) + {links[n].server.id};
    }
  }

  lemma {:induction false} NoteKeys(health: map<string, Health>, cs: seq<Contact>, now: int)
    ensures NoteAll(health, cs, now).Keys == health.Keys + set c | c in cs :: c.id
    decreases |cs|
  {
    if cs != [] {
      var n := |cs| - 1;
      NoteKeys(health, cs[..n], now);
      SplitLast(cs, n);
      assert (set c | c in cs :: c.id) == (set c | c in cs[..n] :: c.id) + {cs[n].id};
    }
  }

  // ------------------------------------------------------------------
  // Replica states
  // ------------------------------------------------------------------

  /** The transactions that reached server `i`: contacted, and the request not lost on the way. */
  ghost function Reached(cfg: Config, keys: map<string, nat>, s: P2PState, inputs: seq<RoundInput>, i: nat): seq<Transaction>
    requires Fits(s, inputs) && i < |s.replicas|
  {
    if inputs == [] then []
    else
      var n := |inputs| - 1;
      var mid := RunRounds(cfg, keys, s, inputs[..n]);
      Reached(cfg, keys, s, inputs[..n], i)
      + if FateIn(mid, inputs[n], i).Skipped? || inputs[n].deliveries[i].LostBefore? then [] else [inputs[n].tx]
  }

  lemma {:induction false} ApplyLast(h: Hashing, m: Managed, txs: seq<Transaction>, tx: Transaction)
    ensures ApplyAll(h, m, txs + [tx]) == Apply(h, ApplyAll(h, m, txs), tx)
    decreases |txs|
  {
    if txs == [] {
      assert [tx][1..] == [];
    } else {
      assert (txs + [tx])[1..] == txs[1..] + [tx];
      ApplyLast(h, Apply(h, m, txs[0]), txs[1..], tx);
    }
  }

  lemma {:induction false} ReachedStep(cfg: Config, keys: map<string, nat>, s: P2PState, input: RoundInput, i: nat, start: Managed, txs: seq<Transaction>)
    requires |input.deliveries| == |s.replicas| && i < |s.replicas|
    requires s.replicas[i].managed == ApplyAll(cfg.hashing, start, txs)
    ensures
      RoundStep(cfg, keys, s, input).replicas[i].managed ==
      ApplyAll(cfg.hashing, start, txs + if FateIn(s, input, i).Skipped? || input.deliveries[i].LostBefore? then [] else [input.tx])
  {
    ReplicaEffect(cfg, keys, s, input, i);
    ApplyLast(cfg.hashing, start, txs, input.tx);
    assert txs + [] == txs;
  }

  /** Each server holds the engine's run over exactly the transactions that reached it. */
  lemma {:induction false} StateIsWhatReached(cfg: Config, keys: map<string, nat>, s: P2PState, inputs: seq<RoundInput>, i: nat)
    requires Fits(s, inputs) && i < |s.replicas|
    ensures RunRounds(cfg, keys, s, inputs).replicas[i].managed
         == ApplyAll(cfg.hashing, s.replicas[i].managed, Reached(cfg, keys, s, inputs, i))
    decreases |inputs|
  {
    if inputs != [] {
      var n := |inputs| - 1;
      StateIsWhatReached(cfg, keys, s, inputs[..n], i);
      ReachedStep(cfg, keys, RunRounds(cfg, keys, s, inputs[..n]), inputs[n], i,
                  s.replicas[i].managed, Reached(cfg, keys, s, inputs[..n], i));
    }
  }

  /** Servers that start equal and were reached by the same transactions hold equal states and traces. */
  lemma {:induction false} ReachedAlikeAgree(cfg: Config, keys: map<string, nat>, s: P2PState, inputs: seq<RoundInput>, i: nat, j: nat)
    requires Fits(s, inputs) && i < |s.replicas| && j < |s.replicas|
    requires s.replicas[i].managed == s.replicas[j].managed
    requires Reached(cfg, keys, s, inputs, i) == Reached(cfg, keys, s, inputs, j)
    ensures RunRounds(cfg, keys, s, inputs).replicas[i].managed == RunRounds(cfg, keys, s, inputs).replicas[j].managed
  {
    StateIsWhatReached(cfg, keys, s, inputs, i);
    StateIsWhatReached(cfg, keys, s, inputs, j);
  }

  // ------------------------------------------------------------------
  // Faults tolerated by a round
  // ------------------------------------------------------------------

  /** A correct answer: delivered by an honest, contacted server standing at `m`. */
  function Correct(health: map<string, Health>, m: Managed): Link -> bool {
    (l: Link) => !IsExcluded(health, l.server.id) && l.delivery.Delivered? && !l.server.malicious && l.server.managed == m
  }

  function AnswersWith(hash: string): Contact -> bool {
    (c: Contact) => c.response.Answer? && c.response.result.stateHash == hash
  }

  lemma {:induction false} AnswersVote(cs: seq<Contact>, hash: string)
    ensures |Filter(VotingFor(hash), Answers(cs))| == |Filter(AnswersWith(hash), cs)|
    decreases |cs|
  {
    if cs != [] {
      var n := |cs| - 1;
      AnswersVote(cs[..n], hash);
      assert cs == cs[..n] + [cs[n]];
      FilterAppend(AnswersWith(hash), cs[..n], cs[n]);
      if cs[n].response.Answer? {
        assert Answers(cs) == Answers(cs[..n]) + [cs[n].response.result];
        FilterAppend(VotingFor(hash), Answers(cs[..n]), cs[n].response.result);
      } else {
        assert Answers(cs) == Answers(cs[..n]);
      }
    }
  }

  lemma {:induction false} CorrectServersVote(h: Hashing, health: map<string, Health>, links: seq<Link>, tx: Transaction, m: Managed)
    requires Execute(m.state, tx).Ok?
    ensures |Filter(Correct(health, m), links)|
         <= |Filter(AnswersWith(StateHash(h, Step(m.state, tx))), Gather(h, health, links, tx))|
  {
    if links != [] {
      CorrectServersVote(h, health, links[1..], tx, m);
    }
  }

  lemma {:induction false} CorrectAnswered(cs: seq<Contact>, hash: string)
    ensures |Filter(AnswersWith(hash), cs)| <= |Answers(cs)|
    decreases |cs|
  {
    if cs != [] {
      var n := |cs| - 1;
      CorrectAnswered(cs[..n], hash);
      assert cs == cs[..n] + [cs[n]];
      FilterAppend(AnswersWith(hash), cs[..n], cs[n]);
    }
  }

  /** All but floor(n(1-t)) servers are contacted, answer, are honest and stand at `m`. */
  predicate EnoughCorrect(t: Threshold, s: P2PState, input: RoundInput, m: Managed)
    requires |input.deliveries| == |s.replicas|
  {
    |s.replicas| - |Filter(Correct(s.health, m), Links(s.replicas, input.deliveries))| <= Tolerated(|s.replicas|, t)
  }

  /** The round's last entry agrees on `hash` with consensus. */
  predicate EndsAgreed(history: seq<HistoryEntry>, hash: string) {
    && history != [] && history[|history| - 1].outcome.agreedHash == Some(hash)
    && history[|history| - 1].outcome.consensusReached
  }

  /**
    A networked round with at most floor(n(1-t)) servers excluded, lost, lying
    or out of date agrees on the true hash of the new state with consensus, if
    it is recorded; and it is recorded if no more than the others are required.
   */
  lemma {:induction false} RoundTolerates(cfg: Config, servers: seq<Replica>, s: P2PState, input: RoundInput, m: Managed)
    requires DistinctServers(servers) && SameRoster(s.replicas, servers) && |input.deliveries| == |servers| > 0
    requires cfg.threshold.den < 2 * cfg.threshold.num && cfg.threshold.num <= cfg.threshold.den
    requires Execute(m.state, input.tx).Ok? && EnoughCorrect(cfg.threshold, s, input, m)
    ensures
      var next := RoundStep(cfg, KeysOf(servers), s, input);
      && (|next.history| == |s.history| || EndsAgreed(next.history, StateHash(cfg.hashing, Step(m.state, input.tx))))
      && (cfg.minResponses <= |servers| - Tolerated(|servers|, cfg.threshold) ==> |next.history| == |s.history| + 1)
  {
    hide Decide, Gather, Correct, Execute, Step, KeysOf, Tolerated, Register, NoteAll, Accepts, Count;
    var results := Answers(Gather(cfg.hashing, s.health, Links(s.replicas, input.deliveries), input.tx));
    var truth := StateHash(cfg.hashing, Step(m.state, input.tx));
    AnswersVerify(cfg, servers, s, input);
    MostAnswerTruly(cfg, s, input, m);
    DecidesTruly(results, KeysOf(servers), cfg.threshold, |servers|, truth);
  }

  /** The correct answers of a round. */
  lemma MostAnswerTruly(cfg: Config, s: P2PState, input: RoundInput, m: Managed)
    requires |input.deliveries| == |s.replicas|
    requires Execute(m.state, input.tx).Ok? && EnoughCorrect(cfg.threshold, s, input, m)
    ensures
      var results := Answers(Gather(cfg.hashing, s.health, Links(s.replicas, input.deliveries), input.tx));
      var (n, silent) := (|s.replicas|, Tolerated(|s.replicas|, cfg.threshold));
      && n - |Filter(VotingFor(StateHash(cfg.hashing, Step(m.state, input.tx))), results)| <= silent
      && n - silent <= |results| <= n
  {
    hide Correct, Execute, Step, Tolerated;
    var links := Links(s.replicas, input.deliveries);
    var cs := Gather(cfg.hashing, s.health, links, input.tx);
    var truth := StateHash(cfg.hashing, Step(m.state, input.tx));
    AnswersVote(cs, truth);
    CorrectAnswered(cs, truth);
    CorrectServersVote(cfg.hashing, s.health, links, input.tx, m);
  }

  lemma {:induction false} DecidesTruly(results: seq<NodeResult>, keys: map<string, nat>, t: Threshold, n: nat, hash: string)
    requires 0 < n && |results| <= n && t.den < 2 * t.num && t.num <= t.den
    requires forall r :: r in results ==> Accepts(keys, r)
    requires n - |Filter(VotingFor(hash), results)| <= Tolerated(n, t)
    ensures Decide(results, keys, t).agreedHash == Some(hash) && Decide(results, keys, t).consensusReached
  {
    hide Decide, Tolerated;
    FilterAll(Accepting(keys), results);
    FaultsTolerated(results, keys, t, n, hash);
  }

  // ------------------------------------------------------------------
  // History, audit and quorums
  // ------------------------------------------------------------------

  function ServerIds(rs: seq<Replica>): set<string> {
    set r | r in rs :: r.id
  }

  lemma {:induction false} KeyOfServer(servers: seq<Replica>, i: nat)
    requires DistinctServers(servers) && i < |servers|
    ensures servers[i].id in KeysOf(servers) && Some(KeysOf(servers)[servers[i].id]) == servers[i].key
    decreases |servers|
  {
    var n := |servers| - 1;
    if i < n {
      KeyOfServer(servers[..n], i);
    }
  }

  /** A recorded round: enough distinct, verified answers of known servers, decided by the vote. */
  ghost predicate GoodRound(cfg: Config, servers: seq<Replica>, e: HistoryEntry) {
    && DistinctIds(e.results)
    && (forall r :: r in e.results ==> r.nodeId in ServerIds(servers) && Accepts(KeysOf(servers), r))
    && |e.results| >= cfg.minResponses
    && e.outcome == Decide(e.results, KeysOf(servers), cfg.threshold)
  }

  lemma {:induction false} AnswersVerify(cfg: Config, servers: seq<Replica>, s: P2PState, input: RoundInput)
    requires DistinctServers(servers) && SameRoster(s.replicas, servers) && |input.deliveries| == |servers|
    ensures
      var results := Answers(Gather(cfg.hashing, s.health, Links(s.replicas, input.deliveries), input.tx));
      DistinctIds(results) && forall r :: r in results ==> r.nodeId in ServerIds(servers) && Accepts(KeysOf(servers), r)
  {
    var links := Links(s.replicas, input.deliveries);
    var cs := Gather(cfg.hashing, s.health, links, input.tx);
    LinksDistinct(s.replicas, input.deliveries);
    GatherDistinct(cfg.hashing, s.health, links, input.tx);
    forall c | c in cs && c.response.Answer?
      ensures c.response.result.nodeId == c.id && c.id in ServerIds(servers) && Accepts(KeysOf(servers), c.response.result)
    {
      ContactVerifies(cfg, servers, s, input, c);
    }
    AnswersFacts(cs);
    forall r | r in Answers(cs) ensures r.nodeId in ServerIds(servers) && Accepts(KeysOf(servers), r) {
      var c :| c in cs && c.response.Answer? && c.response.result == r;
    }
  }

  lemma {:induction false} ContactVerifies(cfg: Config, servers: seq<Replica>, s: P2PState, input: RoundInput, c: Contact)
    requires DistinctServers(servers) && SameRoster(s.replicas, servers) && |input.deliveries| == |servers|
    requires c in Gather(cfg.hashing, s.health, Links(s.replicas, input.deliveries), input.tx) && c.response.Answer?
    ensures c.response.result.nodeId == c.id && c.id in ServerIds(servers) && Accepts(KeysOf(servers), c.response.result)
  {
    hide KeysOf, ServerIds, Accepts, Gather, ContactOf, DistinctServers;
    var links := Links(s.replicas, input.deliveries);
    GatherMembers(cfg.hashing, s.health, links, input.tx);
    var l :| l in links && !IsExcluded(s.health, l.server.id) && c == ContactOf(cfg.hashing, input.tx)(l);
    var i :| 0 <= i < |links| && links[i] == l;
    ServerVerifies(cfg.hashing, servers, s.replicas, i, input.deliveries[i], input.tx);
  }

  lemma {:induction false} ServerVerifies(h: Hashing, servers: seq<Replica>, rs: seq<Replica>, i: nat, delivery: Delivery, tx: Transaction)
    requires DistinctServers(servers) && SameRoster(rs, servers) && i < |servers|
    requires ContactOf(h, tx)(Link(rs[i], delivery)).response.Answer?
    ensures
      var c := ContactOf(h, tx)(Link(rs[i], delivery));
      c.response.result.nodeId == c.id && c.id in ServerIds(servers) && Accepts(KeysOf(servers), c.response.result)
  {
    hide KeysOf, Execute, Apply;
    KeyOfServer(servers, i);
    assert servers[i] in servers;
  }

  /** History and audit log stay in step, raised rounds included, and every recorded round is good. */
  ghost predicate InStep(cfg: Config, servers: seq<Replica>, s: P2PState) {
    && (forall k :: 0 <= k < |s.history| ==> GoodRound(cfg, servers, s.history[k]))
    && (s.events.Some? ==> AuditMatches(s.events.value, s.history))
  }

  lemma {:induction false} InStepConclude(cfg: Config, servers: seq<Replica>, s: P2PState, now: int, tx: Transaction, contacts: seq<Contact>)
    requires InStep(cfg, servers, s)
    requires DistinctIds(Answers(contacts))
    requires forall r :: r in Answers(contacts) ==> r.nodeId in ServerIds(servers) && Accepts(KeysOf(servers), r)
    ensures InStep(cfg, servers, ConcludeRound(cfg, KeysOf(servers), s, now, tx, contacts))
  {
    var results := Answers(contacts);
    var e := HistoryEntry(tx, results, Decide(results, KeysOf(servers), cfg.threshold));
    if |results| >= cfg.minResponses {
      GoodRounds(cfg, servers, s.history, e);
      if s.events.Some? {
        AuditMatchesNext(s.events.value, s.history, now, e);
      }
    }
  }

  lemma GoodRounds(cfg: Config, servers: seq<Replica>, history: seq<HistoryEntry>, e: HistoryEntry)
    requires GoodRound(cfg, servers, e) && forall k :: 0 <= k < |history| ==> GoodRound(cfg, servers, history[k])
    ensures forall k :: 0 <= k < |history + [e]| ==> GoodRound(cfg, servers, (history + [e])[k])
  {
  }

  lemma {:induction false} InStepNext(cfg: Config, servers: seq<Replica>, s: P2PState, input: RoundInput)
    requires DistinctServers(servers) && SameRoster(s.replicas, servers) && |input.deliveries| == |servers|
    requires InStep(cfg, servers, s)
    ensures InStep(cfg, servers, RoundStep(cfg, KeysOf(servers), s, input))
  {
    var links := Links(s.replicas, input.deliveries);
    AnswersVerify(cfg, servers, s, input);
    InStepConclude(cfg, servers,
                   s.(replicas := Map(Advance(cfg.hashing, s.health, input.tx), links), health := Register(s.health, links)),
                   input.now, input.tx, Gather(cfg.hashing, s.health, links, input.tx));
  }

  lemma {:induction false} LogsInStep(cfg: Config, s: P2PState, inputs: seq<RoundInput>)
    requires Initial(s, s.replicas) && Fits(s, inputs)
    ensures InStep(cfg, s.replicas, RunRounds(cfg, KeysOf(s.replicas), s, inputs))
    decreases |inputs|
  {
    if inputs == [] {
      InitiallyInStep(cfg, s);
    } else {
      var n := |inputs| - 1;
      LogsInStep(cfg, s, inputs[..n]);
      ServersStay(cfg, KeysOf(s.replicas), s, inputs[..n]);
      InStepRound(cfg, s, inputs, n);
    }
  }

  lemma InitiallyInStep(cfg: Config, s: P2PState)
    requires Initial(s, s.replicas)
    ensures InStep(cfg, s.replicas, s)
  {
  }

  lemma {:induction false} InStepRound(cfg: Config, s: P2PState, inputs: seq<RoundInput>, n: nat)
    requires DistinctServers(s.replicas) && Fits(s, inputs) && |inputs| == n + 1
    requires SameRoster(RunRounds(cfg, KeysOf(s.replicas), s, inputs[..n]).replicas, s.replicas)
    requires InStep(cfg, s.replicas, RunRounds(cfg, KeysOf(s.replicas), s, inputs[..n]))
    ensures InStep(cfg, s.replicas, RunRounds(cfg, KeysOf(s.replicas), s, inputs))
  {
    InStepNext(cfg, s.replicas, RunRounds(cfg, KeysOf(s.replicas), s, inputs[..n]), inputs[n]);
  }

  lemma {:induction false} RosterSize(rs: seq<Replica>)
    requires DistinctServers(rs)
    ensures |ServerIds(rs)| == |rs|
    decreases |rs|
  {
    if rs != [] {
      var n := |rs| - 1;
      RosterSize(rs[..n]);
      assert rs == rs[..n] + [rs[n]];
      assert forall r :: r in rs[..n] ==> r.id != rs[n].id;
      assert ServerIds(rs) == ServerIds(rs[..n]) + {rs[n].id};
    } else {
      assert ServerIds(rs) == {};
    }
  }

  lemma IdsInRoster(servers: seq<Replica>, results: seq<NodeResult>)
    requires forall r :: r in results ==> r.nodeId in ServerIds(servers)
    ensures Elements(Ids(results)) <= ServerIds(servers)
  {
    forall id | id in Ids(results) ensures id in ServerIds(servers) {
      IdListed(results, id);
    }
  }

  /**
    Quorum intersection over any run: with `min_responses` at least the
    threshold's share of the roster, any two recorded rounds that reached
    consensus have n(2t^2 - 1) honest nodes in common.
   */
  lemma {:induction false} RecordedQuorumsIntersect(cfg: Config, s: P2PState, inputs: seq<RoundInput>, a: nat, b: nat)
    requires Initial(s, s.replicas) && Fits(s, inputs)
    requires cfg.threshold.num >= 0 && cfg.minResponses >= CeilShare(|s.replicas|, cfg.threshold)
    requires
      var history := RunRounds(cfg, KeysOf(s.replicas), s, inputs).history;
      a < |history| && b < |history| && history[a].outcome.consensusReached && history[b].outcome.consensusReached
    ensures
      var history := RunRounds(cfg, KeysOf(s.replicas), s, inputs).history;
      var common := Elements(history[a].outcome.honestNodes) * Elements(history[b].outcome.honestNodes);
      SharesAtLeast(|common|, |s.replicas|, cfg.threshold.num * cfg.threshold.num, cfg.threshold.den * cfg.threshold.den)
  {
    LogsInStep(cfg, s, inputs);
    var history := RunRounds(cfg, KeysOf(s.replicas), s, inputs).history;
    GoodRoundsIntersect(cfg, s.replicas, history[a], history[b]);
  }

  lemma GoodRoundsIntersect(cfg: Config, servers: seq<Replica>, x: HistoryEntry, y: HistoryEntry)
    requires DistinctServers(servers) && GoodRound(cfg, servers, x) && GoodRound(cfg, servers, y)
    requires cfg.threshold.num >= 0 && cfg.minResponses >= CeilShare(|servers|, cfg.threshold)
    requires x.outcome.consensusReached && y.outcome.consensusReached
    ensures
      var common := Elements(x.outcome.honestNodes) * Elements(y.outcome.honestNodes);
      SharesAtLeast(|common|, |servers|, cfg.threshold.num * cfg.threshold.num, cfg.threshold.den * cfg.threshold.den)
  {
    RosterSize(servers);
    IdsInRoster(servers, x.results);
    IdsInRoster(servers, y.results);
    EnoughResponses(cfg, |servers|, |x.results|);
    EnoughResponses(cfg, |servers|, |y.results|);
    QuorumIntersection(ServerIds(servers), x.results, y.results, KeysOf(servers), cfg.threshold);
  }

  lemma EnoughResponses(cfg: Config, n: nat, v: nat)
    requires v >= cfg.minResponses >= CeilShare(n, cfg.threshold)
    ensures MeetsShare(v, n, cfg.threshold)
  {
    CeilExact(n, cfg.threshold, v);
  }

  lemma ResultsInRoster(cfg: Config, servers: seq<Replica>, e: HistoryEntry)
    requires DistinctServers(servers) && GoodRound(cfg, servers, e)
    ensures |e.results| <= |servers|
  {
    RosterSize(servers);
    IdsInRoster(servers, e.results);
    DistinctSize(Ids(e.results));
    Subset(Elements(Ids(e.results)), ServerIds(servers));
  }

  /**
    Over any run: when at least `m` responses are required and the threshold
    asks for as many votes of `m` answers as of the roster, every recorded round
    reaches consensus exactly if the agreed hash has its share of the whole
    roster, silent and excluded servers counted.
   */
  lemma {:induction false} RecordedVerdictIsRosterVerdict(cfg: Config, s: P2PState, inputs: seq<RoundInput>, m: nat, a: nat)
    requires Initial(s, s.replicas) && Fits(s, inputs)
    requires 0 < m <= cfg.minResponses && 0 < cfg.threshold.num <= cfg.threshold.den
    requires CeilShare(m, cfg.threshold) == CeilShare(|s.replicas|, cfg.threshold)
    requires a < |RunRounds(cfg, KeysOf(s.replicas), s, inputs).history|
    ensures
      var outcome := RunRounds(cfg, KeysOf(s.replicas), s, inputs).history[a].outcome;
      outcome.consensusReached <==> RosterVerdict(outcome, |s.replicas|)
  {
    LogsInStep(cfg, s, inputs);
    RoundVerdictIsRosterVerdict(cfg, s.replicas, RunRounds(cfg, KeysOf(s.replicas), s, inputs).history[a], m);
  }

  lemma RoundVerdictIsRosterVerdict(cfg: Config, servers: seq<Replica>, e: HistoryEntry, m: nat)
    requires DistinctServers(servers) && GoodRound(cfg, servers, e)
    requires 0 < m <= cfg.minResponses && 0 < cfg.threshold.num <= cfg.threshold.den
    requires CeilShare(m, cfg.threshold) == CeilShare(|servers|, cfg.threshold)
    ensures e.outcome.consensusReached <==> RosterVerdict(e.outcome, |servers|)
  {
    ResultsInRoster(cfg, servers, e);
    CeilGrows(m, |e.results|, cfg.threshold);
    CeilGrows(|e.results|, |servers|, cfg.threshold);
    VerdictsAgreeExactly(|e.results|, |servers|, cfg.threshold);
  }
}
