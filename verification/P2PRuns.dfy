/** Whole runs of the networked broadcast: when it falls silent, and when it tells the truth. */
module P2PRuns {
  import opened Wrappers
  import opened Sequences
  import opened LedgerState
  import opened ExecutionEngine
  import opened StateManagement
  import opened Nodes
  import opened Consensus
  import opened Voting
  import opened Audit
  import opened Network
  import opened NodeHealth
  import opened P2PNetwork
  import opened P2PSafety

  // ------------------------------------------------------------------
  // Prefixes of runs
  // ------------------------------------------------------------------

  /** Five failures once are five failures for ever. */
  lemma FiveFailuresStay(col: seq<Fate>, k: nat)
    requires k <= |col| && FiveFailures(col[..k])
    ensures FiveFailures(col)
  {
    var j: nat :| FailedFiveFrom(col[..k], j);
    assert FailedFiveFrom(col, j) by {
      assert forall r :: j <= r < j + 5 ==> col[r] == col[..k][r];
    }
  }

  /** A server skipped in some round had five failures by then. */
  lemma SkippedHadFive(cfg: Config, keys: map<string, nat>, s: P2PState, inputs: seq<RoundInput>, i: nat, k: nat)
    requires Initial(s, s.replicas) && Fits(s, inputs) && i < |s.replicas| && k < |inputs|
    requires Column(cfg, keys, s, inputs, i)[k].Skipped?
    ensures FiveFailures(Column(cfg, keys, s, inputs, i))
  {
    SkippedExactly(cfg, keys, s, inputs[..k], inputs[k], i);
    ColumnPrefix(cfg, keys, s, inputs, i, k);
    FiveFailuresStay(Column(cfg, keys, s, inputs, i), k);
  }

  lemma ConcatLast<T>(a: seq<T>, b: seq<T>, n: nat)
    requires |b| == n + 1
    ensures a + b == (a + b[..n]) + [b[n]]
  {
  }

  // ------------------------------------------------------------------
  // Silence
  // ------------------------------------------------------------------

  predicate Refuses(r: Replica, input: RoundInput) {
    Execute(r.managed.state, input.tx).Err?
  }

  /** Every server's state refuses each of the transactions. */
  predicate AllRefuse(rs: seq<Replica>, inputs: seq<RoundInput>) {
    forall i, k {:trigger Refuses(rs[i], inputs[k])} :: 0 <= i < |rs| && 0 <= k < |inputs| ==> Refuses(rs[i], inputs[k])
  }

  lemma PrefixRefused(rs: seq<Replica>, inputs: seq<RoundInput>, n: nat)
    requires AllRefuse(rs, inputs) && n <= |inputs|
    ensures AllRefuse(rs, inputs[..n])
  {
    forall i, k | 0 <= i < |rs| && 0 <= k < n ensures Refuses(rs[i], inputs[..n][k]) {
      assert Refuses(rs[i], inputs[k]);
    }
  }

  /** Refused transactions leave the servers as they are. */
  lemma {:induction false} RefusalsChangeNothing(cfg: Config, keys: map<string, nat>, s: P2PState, inputs: seq<RoundInput>, more: seq<RoundInput>)
    requires Fits(s, inputs + more) && Fits(s, inputs) && AllRefuse(RunRounds(cfg, keys, s, inputs).replicas, more)
    ensures RunRounds(cfg, keys, s, inputs + more).replicas == RunRounds(cfg, keys, s, inputs).replicas
    decreases |more|
  {
    if more == [] {
      assert inputs + more == inputs;
    } else {
      var n := |more| - 1;
      var past := inputs + more[..n];
      ConcatLast(inputs, more, n);
      RunNext(cfg, keys, s, inputs + more, past, more[n]);
      PrefixRefused(RunRounds(cfg, keys, s, inputs).replicas, more, n);
      RefusalsChangeNothing(cfg, keys, s, inputs, more[..n]);
      assert forall i :: 0 <= i < |s.replicas| ==> Refuses(RunRounds(cfg, keys, s, inputs).replicas[i], more[n]);
      RefusedRound(cfg, keys, RunRounds(cfg, keys, s, past), more[n], RunRounds(cfg, keys, s, inputs + more));
    }
  }

  lemma RefusedRound(cfg: Config, keys: map<string, nat>, s: P2PState, input: RoundInput, end: P2PState)
    requires |input.deliveries| == |s.replicas| && end == RoundStep(cfg, keys, s, input)
    requires forall i {:trigger Refuses(s.replicas[i], input)} :: 0 <= i < |s.replicas| ==> Refuses(s.replicas[i], input)
    ensures end.replicas == s.replicas
  {
    forall i | 0 <= i < |s.replicas| ensures end.replicas[i] == s.replicas[i] {
      assert Refuses(s.replicas[i], input);
      ReplicaEffect(cfg, keys, s, input, i);
    }
  }

  predicate Unanswered(col: seq<Fate>, r: nat) {
    r < |col| && !col[r].Answered?
  }

  /** In a round that every server refuses, a server is skipped or fails. */
  lemma {:induction false} RefusedFate(cfg: Config, keys: map<string, nat>, s: P2PState, inputs: seq<RoundInput>, more: seq<RoundInput>, i: nat, k: nat)
    requires Fits(s, inputs) && Fits(s, inputs + more) && AllRefuse(RunRounds(cfg, keys, s, inputs).replicas, more)
    requires i < |s.replicas| && k < |more|
    ensures Unanswered(Column(cfg, keys, s, inputs + more, i), |inputs| + k)
  {
    ConcatPrefix(inputs, more, k);
    PrefixRefused(RunRounds(cfg, keys, s, inputs).replicas, more, k);
    RefusalsChangeNothing(cfg, keys, s, inputs, more[..k]);
    assert Refuses(RunRounds(cfg, keys, s, inputs).replicas[i], more[k]);
    RefuserDoesNotAnswer(RunRounds(cfg, keys, s, inputs + more[..k]), more[k], i);
  }

  lemma RefuserDoesNotAnswer(s: P2PState, input: RoundInput, i: nat)
    requires |input.deliveries| == |s.replicas| && i < |s.replicas| && Refuses(s.replicas[i], input)
    ensures !FateIn(s, input, i).Answered?
  {
  }

  /** Five rounds in a row without an answer from a server. */
  predicate UnansweredFrom(col: seq<Fate>, a: nat) {
    forall r :: a <= r < a + 5 ==> Unanswered(col, r)
  }

  lemma UnansweredSkipsOrFails(col: seq<Fate>, a: nat) returns (k: nat)
    requires UnansweredFrom(col, a)
    ensures FiveFailures(col) || (k < |col| && col[k].Skipped?)
  {
    k := a;
    while k < a + 5
      invariant a <= k <= a + 5
      invariant forall r :: a <= r < k ==> r < |col| && col[r] == Failed
    {
      assert Unanswered(col, k);
      if col[k].Skipped? {
        return;
      }
      k := k + 1;
    }
    assert Unanswered(col, a + 5 - 1);
    assert FailedFiveFrom(col, a);
  }

  lemma ConcatPrefix<T>(a: seq<T>, b: seq<T>, k: nat)
    requires k <= |b|
    ensures (a + b)[..|a| + k] == a + b[..k]
    ensures k < |b| ==> (a + b)[|a| + k] == b[k]
  {
  }

  lemma {:induction false} RefusalsFail(cfg: Config, keys: map<string, nat>, s: P2PState, inputs: seq<RoundInput>, more: seq<RoundInput>, i: nat)
    requires Fits(s, inputs) && Fits(s, inputs + more) && i < |s.replicas|
    requires |more| >= 5 && AllRefuse(RunRounds(cfg, keys, s, inputs).replicas, more)
    ensures UnansweredFrom(Column(cfg, keys, s, inputs + more, i), |inputs|)
  {
    hide Column, RunRounds, Unanswered, AllRefuse;
    forall r | |inputs| <= r < |inputs| + 5
      ensures Unanswered(Column(cfg, keys, s, inputs + more, i), r)
    {
      RefusedFate(cfg, keys, s, inputs, more, i, r - |inputs|);
    }
  }

  /** A server without an answer in five rounds in a row has failed in five, then or before. */
  lemma UnansweredHadFive(cfg: Config, keys: map<string, nat>, s: P2PState, inputs: seq<RoundInput>, i: nat, a: nat)
    requires Initial(s, s.replicas) && Fits(s, inputs) && i < |s.replicas|
    requires UnansweredFrom(Column(cfg, keys, s, inputs, i), a)
    ensures FiveFailures(Column(cfg, keys, s, inputs, i))
  {
    var k := UnansweredSkipsOrFails(Column(cfg, keys, s, inputs, i), a);
    if !FiveFailures(Column(cfg, keys, s, inputs, i)) {
      SkippedHadFive(cfg, keys, s, inputs, i, k);
    }
  }

  /**
    Five transactions in a row that every server refuses exclude every server,
    whenever they come and whatever the transport does.
   */
  lemma {:induction false} RefusalsExclude(cfg: Config, keys: map<string, nat>, s: P2PState, inputs: seq<RoundInput>, more: seq<RoundInput>, i: nat)
    requires Initial(s, s.replicas) && Fits(s, inputs) && Fits(s, inputs + more) && i < |s.replicas|
    requires |more| >= 5 && AllRefuse(RunRounds(cfg, keys, s, inputs).replicas, more)
    ensures IsExcluded(RunRounds(cfg, keys, s, inputs + more).health, s.replicas[i].id)
    ensures FiveFailures(Column(cfg, keys, s, inputs + more, i))
  {
    RefusalsFail(cfg, keys, s, inputs, more, i);
    UnansweredHadFive(cfg, keys, s, inputs + more, i, |inputs|);
    ExcludedExactly(cfg, keys, s, inputs + more, i);
  }

  /** Every server has failed in five consecutive rounds in which it was contacted. */
  ghost predicate Silenced(cfg: Config, keys: map<string, nat>, s: P2PState, inputs: seq<RoundInput>)
    requires Fits(s, inputs)
  {
    forall i :: 0 <= i < |s.replicas| ==> FiveFailures(Column(cfg, keys, s, inputs, i))
  }

  /** The servers the next round contacts. */
  ghost function Contacted(cfg: Config, s: P2PState, input: RoundInput): seq<Contact>
    requires |input.deliveries| == |s.replicas|
  {
    Gather(cfg.hashing, s.health, Links(s.replicas, input.deliveries), input.tx)
  }

  lemma NobodyContacted(cfg: Config, s: P2PState, input: RoundInput)
    requires |input.deliveries| == |s.replicas|
    ensures Contacted(cfg, s, input) == [] <==> forall i :: 0 <= i < |s.replicas| ==> FateIn(s, input, i).Skipped?
  {
    var links := Links(s.replicas, input.deliveries);
    GatherMembers(cfg.hashing, s.health, links, input.tx);
    if Contacted(cfg, s, input) == [] {
      forall i | 0 <= i < |s.replicas| ensures FateIn(s, input, i).Skipped? {
        assert links[i] in links;
      }
    } else {
      var c := Contacted(cfg, s, input)[0];
      assert c in Contacted(cfg, s, input);
      var l :| l in links && !IsExcluded(s.health, l.server.id) && c == ContactOf(cfg.hashing, input.tx)(l);
      var i :| 0 <= i < |links| && links[i] == l;
      assert !FateIn(s, input, i).Skipped?;
    }
  }

  /** After any run the next broadcast contacts nobody exactly when every server has had five consecutive failures. */
  lemma {:induction false} SilencedExactly(cfg: Config, keys: map<string, nat>, s: P2PState, inputs: seq<RoundInput>, input: RoundInput)
    requires Initial(s, s.replicas) && Fits(s, inputs) && |input.deliveries| == |s.replicas|
    ensures Contacted(cfg, RunRounds(cfg, keys, s, inputs), input) == [] <==> Silenced(cfg, keys, s, inputs)
  {
    hide RunRounds, FateIn, FiveFailures, Column, Contacted, Initial;
    NobodyContacted(cfg, RunRounds(cfg, keys, s, inputs), input);
    forall i | 0 <= i < |s.replicas|
      ensures FateIn(RunRounds(cfg, keys, s, inputs), input, i).Skipped? <==> FiveFailures(Column(cfg, keys, s, inputs, i))
    {
      SkippedExactly(cfg, keys, s, inputs, input, i);
    }
  }

  lemma SilencedStays(cfg: Config, keys: map<string, nat>, s: P2PState, inputs: seq<RoundInput>, k: nat)
    requires Fits(s, inputs) && k <= |inputs| && Silenced(cfg, keys, s, inputs[..k])
    ensures Silenced(cfg, keys, s, inputs)
  {
    forall i | 0 <= i < |s.replicas| ensures FiveFailures(Column(cfg, keys, s, inputs, i)) {
      ColumnPrefix(cfg, keys, s, inputs, i, k);
      FiveFailuresStay(Column(cfg, keys, s, inputs, i), k);
    }
  }

  lemma SilentRound(cfg: Config, keys: map<string, nat>, s: P2PState, input: RoundInput, end: P2PState)
    requires |input.deliveries| == |s.replicas| && end == RoundStep(cfg, keys, s, input)
    requires Contacted(cfg, s, input) == [] && cfg.minResponses >= 1
    ensures end.history == s.history && end.events == s.events && end.replicas == s.replicas
  {
    NobodyContacted(cfg, s, input);
    forall i | 0 <= i < |s.replicas| ensures end.replicas[i] == s.replicas[i] {
      ReplicaEffect(cfg, keys, s, input, i);
    }
  }

  /** A silenced network stays silenced: no broadcast is ever answered, recorded or executed again. */
  lemma {:induction false} SilencedForever(cfg: Config, keys: map<string, nat>, s: P2PState, inputs: seq<RoundInput>, more: seq<RoundInput>)
    requires Initial(s, s.replicas) && Fits(s, inputs) && Fits(s, inputs + more)
    requires Silenced(cfg, keys, s, inputs) && cfg.minResponses >= 1
    ensures
      var (before, after) := (RunRounds(cfg, keys, s, inputs), RunRounds(cfg, keys, s, inputs + more));
      after.history == before.history && after.events == before.events && after.replicas == before.replicas
    ensures Silenced(cfg, keys, s, inputs + more)
    decreases |more|
  {
    ConcatPrefix(inputs, more, 0);
    assert inputs + more[..0] == inputs;
    SilencedStays(cfg, keys, s, inputs + more, |inputs|);
    if more == [] {
      assert inputs + more == inputs;
    } else {
      var n := |more| - 1;
      var past := inputs + more[..n];
      ConcatLast(inputs, more, n);
      RunNext(cfg, keys, s, inputs + more, past, more[n]);
      SilencedForever(cfg, keys, s, inputs, more[..n]);
      SilencedExactly(cfg, keys, s, past, more[n]);
      SilentRound(cfg, keys, RunRounds(cfg, keys, s, past), more[n], RunRounds(cfg, keys, s, inputs + more));
    }
  }

  // ------------------------------------------------------------------
  // What the logs hold
  // ------------------------------------------------------------------

  /** The reports of the servers that answer the next round. */
  ghost function Heard(cfg: Config, s: P2PState, input: RoundInput): seq<NodeResult>
    requires |input.deliveries| == |s.replicas|
  {
    Map(ReportAfter(cfg.hashing, input.tx),
        Filter(WithFate(s.health, input.tx, Answered), Links(s.replicas, input.deliveries)))
  }

  /** A round with enough answers adds them to history and audit log at its time; any other adds nothing. */
  lemma RoundLogs(cfg: Config, keys: map<string, nat>, s: P2PState, input: RoundInput)
    requires |input.deliveries| == |s.replicas|
    ensures
      var (next, heard) := (RoundStep(cfg, keys, s, input), Heard(cfg, s, input));
      && (next.events.Some? <==> s.events.Some?)
      && if |heard| >= cfg.minResponses then
           && |next.history| == |s.history| + 1 && s.history <= next.history
           && next.history[|s.history|].tx == input.tx && next.history[|s.history|].results == heard
           && (s.events.Some? ==> TimesOf(next.events.value) == TimesOf(s.events.value) + [input.now])
         else next.history == s.history && next.events == s.events
  {
    hide Decide, Gather, MakeEvent;
    AnswersExactly(cfg.hashing, s.health, Links(s.replicas, input.deliveries), input.tx);
    if s.events.Some? {
      var heard := Heard(cfg, s, input);
      RecordedTime(s.events.value, input.now, input.tx, heard, Decide(heard, keys, cfg.threshold));
    }
  }

  /** The rounds of a run that had enough answers. */
  ghost function RecordedRounds(cfg: Config, keys: map<string, nat>, s: P2PState, inputs: seq<RoundInput>): seq<RoundInput>
    requires Fits(s, inputs)
  {
    if inputs == [] then []
    else
      var n := |inputs| - 1;
      RecordedRounds(cfg, keys, s, inputs[..n])
      + if |Heard(cfg, RunRounds(cfg, keys, s, inputs[..n]), inputs[n])| >= cfg.minResponses then [inputs[n]] else []
  }

  function RoundNows(inputs: seq<RoundInput>): seq<int> {
    if inputs == [] then [] else RoundNows(inputs[..|inputs| - 1]) + [inputs[|inputs| - 1].now]
  }

  lemma {:induction false} RoundNowsNext(past: seq<RoundInput>, input: RoundInput)
    ensures RoundNows(past + [input]) == RoundNows(past) + [input.now]
  {
    assert (past + [input])[..|past|] == past;
  }

  /** History and audit log list `done`, the audit log with its times; there is a log or not as before. */
  ghost predicate LogsList(s: P2PState, audited: bool, done: seq<RoundInput>) {
    && HistoryTxs(s.history) == RoundTxs(done)
    && (s.events.Some? <==> audited)
    && (audited ==> TimesOf(s.events.value) == RoundNows(done))
  }

  /** Over any run, history and audit log list exactly the rounds that had enough answers. */
  lemma {:induction false} LogsListRecorded(cfg: Config, keys: map<string, nat>, s: P2PState, inputs: seq<RoundInput>)
    requires s.history == [] && (s.events.Some? ==> s.events.value == []) && Fits(s, inputs)
    ensures LogsList(RunRounds(cfg, keys, s, inputs), s.events.Some?, RecordedRounds(cfg, keys, s, inputs))
    decreases |inputs|
  {
    hide *;
    if inputs == [] {
      LogsListNothing(cfg, keys, s, inputs);
    } else {
      var n := |inputs| - 1;
      FitsPrefix(s, inputs, n);
      LogsListRecorded(cfg, keys, s, inputs[..n]);
      SplitLast(inputs, n);
      RunNext(cfg, keys, s, inputs, inputs[..n], inputs[n]);
      LogsListNext(cfg, keys, RunRounds(cfg, keys, s, inputs[..n]), inputs[n], s.events.Some?,
                   RecordedRounds(cfg, keys, s, inputs[..n]));
      RecordedNext(cfg, keys, s, inputs, n);
    }
  }

  lemma {:induction false} LogsListNothing(cfg: Config, keys: map<string, nat>, s: P2PState, inputs: seq<RoundInput>)
    requires s.history == [] && (s.events.Some? ==> s.events.value == []) && Fits(s, inputs) && inputs == []
    ensures LogsList(RunRounds(cfg, keys, s, inputs), s.events.Some?, RecordedRounds(cfg, keys, s, inputs))
  {
  }

  lemma {:induction false} RecordedNext(cfg: Config, keys: map<string, nat>, s: P2PState, inputs: seq<RoundInput>, n: nat)
    requires Fits(s, inputs) && |inputs| == n + 1
    ensures RecordedRounds(cfg, keys, s, inputs) == RecordedRounds(cfg, keys, s, inputs[..n])
      + if |Heard(cfg, RunRounds(cfg, keys, s, inputs[..n]), inputs[n])| >= cfg.minResponses then [inputs[n]] else []
  {
    hide Heard, RoundStep;
  }

  lemma LogsListNext(cfg: Config, keys: map<string, nat>, s: P2PState, input: RoundInput, audited: bool, done: seq<RoundInput>)
    requires |input.deliveries| == |s.replicas| && LogsList(s, audited, done)
    ensures LogsList(RoundStep(cfg, keys, s, input), audited,
                     done + if |Heard(cfg, s, input)| >= cfg.minResponses then [input] else [])
  {
    hide RoundStep, Heard;
    var next := RoundStep(cfg, keys, s, input);
    RoundLogs(cfg, keys, s, input);
    RoundTxsNext(done, input);
    RoundNowsNext(done, input);
    assert done + [] == done;
    if |Heard(cfg, s, input)| >= cfg.minResponses {
      assert next.history[..|s.history|] == s.history;
    }
  }

  // ------------------------------------------------------------------
  // Truth over whole runs
  // ------------------------------------------------------------------

  /** The transactions broadcast. */
  function RoundTxs(inputs: seq<RoundInput>): seq<Transaction> {
    if inputs == [] then [] else RoundTxs(inputs[..|inputs| - 1]) + [inputs[|inputs| - 1].tx]
  }

  /** No request to server `i` was lost on the way to it. */
  predicate NeverLostBefore(inputs: seq<RoundInput>, i: nat) {
    forall k :: 0 <= k < |inputs| ==> i < |inputs[k].deliveries| && !inputs[k].deliveries[i].LostBefore?
  }

  /** In the round after `past`, server `i` is honest, up to date and heard. */
  ghost predicate Sound(cfg: Config, keys: map<string, nat>, s: P2PState, past: seq<RoundInput>, input: RoundInput, i: nat)
    requires Fits(s, past) && |input.deliveries| == |s.replicas|
  {
    && i < |s.replicas| && !s.replicas[i].malicious
    && NeverLostBefore(past, i) && input.deliveries[i].Delivered?
    && !FiveFailures(Column(cfg, keys, s, past, i))
  }

  /** A server that is not excluded and lost no request was reached by every transaction. */
  lemma {:induction false} ReachedByAll(cfg: Config, keys: map<string, nat>, s: P2PState, past: seq<RoundInput>, i: nat)
    requires Initial(s, s.replicas) && Fits(s, past) && i < |s.replicas|
    requires NeverLostBefore(past, i) && !FiveFailures(Column(cfg, keys, s, past, i))
    ensures P2PSafety.Reached(cfg, keys, s, past, i) == RoundTxs(past)
    decreases |past|
  {
    hide *;
    if past == [] {
      ReachedByNone(cfg, keys, s, past, i);
    } else {
      FitsPrefix(s, past, |past| - 1);
      UpToDateBefore(cfg, keys, s, past, i, |past| - 1);
      ReachedByAll(cfg, keys, s, past[..|past| - 1], i);
      ReachedByAllNext(cfg, keys, s, past, i, |past| - 1);
    }
  }

  lemma UpToDateBefore(cfg: Config, keys: map<string, nat>, s: P2PState, past: seq<RoundInput>, i: nat, n: nat)
    requires Fits(s, past) && i < |s.replicas| && |past| == n + 1
    requires NeverLostBefore(past, i) && !FiveFailures(Column(cfg, keys, s, past, i))
    ensures NeverLostBefore(past[..n], i) && !FiveFailures(Column(cfg, keys, s, past[..n], i))
    ensures !past[n].deliveries[i].LostBefore?
  {
    NotFiveBefore(cfg, keys, s, past, i, n);
  }

  lemma {:induction false} ReachedByNone(cfg: Config, keys: map<string, nat>, s: P2PState, past: seq<RoundInput>, i: nat)
    requires Fits(s, past) && i < |s.replicas| && past == []
    ensures P2PSafety.Reached(cfg, keys, s, past, i) == RoundTxs(past)
  {
  }

  lemma {:induction false} ReachedByAllNext(cfg: Config, keys: map<string, nat>, s: P2PState, past: seq<RoundInput>, i: nat, n: nat)
    requires Initial(s, s.replicas) && Fits(s, past) && i < |s.replicas| && |past| == n + 1
    requires !past[n].deliveries[i].LostBefore? && !FiveFailures(Column(cfg, keys, s, past[..n], i))
    requires P2PSafety.Reached(cfg, keys, s, past[..n], i) == RoundTxs(past[..n])
    ensures P2PSafety.Reached(cfg, keys, s, past, i) == RoundTxs(past)
  {
    SkippedExactly(cfg, keys, s, past[..n], past[n], i);
    ReachedNext(cfg, keys, s, past, i, n);
  }

  lemma NotFiveBefore(cfg: Config, keys: map<string, nat>, s: P2PState, past: seq<RoundInput>, i: nat, n: nat)
    requires Fits(s, past) && i < |s.replicas| && n <= |past| && !FiveFailures(Column(cfg, keys, s, past, i))
    ensures !FiveFailures(Column(cfg, keys, s, past[..n], i))
  {
    ColumnPrefix(cfg, keys, s, past, i, n);
    if FiveFailures(Column(cfg, keys, s, past[..n], i)) {
      FiveFailuresStay(Column(cfg, keys, s, past, i), n);
    }
  }

  lemma {:induction false} ReachedNext(cfg: Config, keys: map<string, nat>, s: P2PState, past: seq<RoundInput>, i: nat, n: nat)
    requires Fits(s, past) && i < |s.replicas| && |past| == n + 1
    requires !FateIn(RunRounds(cfg, keys, s, past[..n]), past[n], i).Skipped? && !past[n].deliveries[i].LostBefore?
    ensures P2PSafety.Reached(cfg, keys, s, past, i) == P2PSafety.Reached(cfg, keys, s, past[..n], i) + [past[n].tx]
  {
  }

  /** A sound server stands where the engine stands after all transactions. */
  lemma {:induction false} SoundStands(cfg: Config, keys: map<string, nat>, s: P2PState, origin: Managed, past: seq<RoundInput>, input: RoundInput, i: nat)
    requires Initial(s, s.replicas) && Fits(s, past) && |input.deliveries| == |s.replicas|
    requires i < |s.replicas| && s.replicas[i].managed == origin && Sound(cfg, keys, s, past, input, i)
    ensures
      var mid := RunRounds(cfg, keys, s, past);
      Correct(mid.health, ApplyAll(cfg.hashing, origin, RoundTxs(past)))(Link(mid.replicas[i], input.deliveries[i]))
  {
    ReachedByAll(cfg, keys, s, past, i);
    StateIsWhatReached(cfg, keys, s, past, i);
    ExcludedExactly(cfg, keys, s, past, i);
    ServersStay(cfg, keys, s, past);
  }

  function Indices(n: nat): (r: seq<nat>)
    ensures |r| == n && forall k :: 0 <= k < n ==> r[k] == k
  {
    seq(n, k requires 0 <= k => k)
  }

  /** Picking links by a property of their index. */
  lemma {:induction false} PickedLinks(p: nat -> bool, q: Link -> bool, links: seq<Link>)
    requires forall k :: 0 <= k < |links| && p(k) ==> q(links[k])
    ensures |Filter(p, Indices(|links|))| <= |Filter(q, links)|
    decreases |links|
  {
    if links != [] {
      var n := |links| - 1;
      PickedLinks(p, q, links[..n]);
      assert links == links[..n] + [links[n]] && Indices(|links|) == Indices(n) + [n];
      FilterAppend<nat>(p, Indices(n), n);
      FilterAppend(q, links[..n], links[n]);
    }
  }

  ghost function SoundAt(cfg: Config, keys: map<string, nat>, s: P2PState, past: seq<RoundInput>, input: RoundInput): nat -> bool
    requires Fits(s, past) && |input.deliveries| == |s.replicas|
  {
    (i: nat) => Sound(cfg, keys, s, past, input, i)
  }

  /** At most floor(n(1-t)) servers are not sound in the round after `past`. */
  ghost predicate FewFaults(cfg: Config, keys: map<string, nat>, s: P2PState, past: seq<RoundInput>, input: RoundInput)
    requires Fits(s, past) && |input.deliveries| == |s.replicas|
  {
    |s.replicas| - |Filter(SoundAt(cfg, keys, s, past, input), Indices(|s.replicas|))| <= Tolerated(|s.replicas|, cfg.threshold)
  }

  predicate AllStandAt(rs: seq<Replica>, m: Managed) {
    forall i :: 0 <= i < |rs| ==> rs[i].managed == m
  }

  lemma {:induction false} SoundAreCorrect(cfg: Config, keys: map<string, nat>, s: P2PState, origin: Managed, past: seq<RoundInput>, input: RoundInput)
    requires Initial(s, s.replicas) && AllStandAt(s.replicas, origin) && Fits(s, past) && |input.deliveries| == |s.replicas|
    requires FewFaults(cfg, keys, s, past, input)
    ensures EnoughCorrect(cfg.threshold, RunRounds(cfg, keys, s, past), input, ApplyAll(cfg.hashing, origin, RoundTxs(past)))
  {
    var mid := RunRounds(cfg, keys, s, past);
    var m := ApplyAll(cfg.hashing, origin, RoundTxs(past));
    var links := Links(mid.replicas, input.deliveries);
    forall k | 0 <= k < |links| && Sound(cfg, keys, s, past, input, k) ensures Correct(mid.health, m)(links[k]) {
      SoundStands(cfg, keys, s, origin, past, input, k);
    }
    PickedLinks(SoundAt(cfg, keys, s, past, input), Correct(mid.health, m), links);
  }

  /** Servers at a state that refuses the transaction do not answer. */
  lemma {:induction false} RefusersSilent(h: Hashing, health: map<string, Health>, links: seq<Link>, tx: Transaction, m: Managed)
    requires Execute(m.state, tx).Err?
    ensures |Filter(Correct(health, m), links)| + |Filter(IS_ANSWER, Gather(h, health, links, tx))| <= |links|
  {
    if links != [] {
      RefusersSilent(h, health, links[1..], tx, m);
    }
  }

  /** A refused transaction is not recorded when more answers are required than faults are tolerated. */
  lemma RefusedUnrecorded(cfg: Config, keys: map<string, nat>, s: P2PState, input: RoundInput, m: Managed)
    requires |input.deliveries| == |s.replicas| && Execute(m.state, input.tx).Err?
    requires EnoughCorrect(cfg.threshold, s, input, m) && cfg.minResponses > Tolerated(|s.replicas|, cfg.threshold)
    ensures RoundStep(cfg, keys, s, input).history == s.history
  {
    var links := Links(s.replicas, input.deliveries);
    RefusersSilent(cfg.hashing, s.health, links, input.tx, m);
    AnswersCounted(Gather(cfg.hashing, s.health, links, input.tx));
  }

  /**
    One round of a run that started aligned: if at most floor(n(1-t)) servers
    are unsound now and the engine accepts the transaction after those before
    it, the round, if recorded, agrees with consensus on the true hash.
   */
  lemma {:induction false} RoundTellsTruth(cfg: Config, s: P2PState, origin: State, past: seq<RoundInput>, input: RoundInput)
    requires Initial(s, s.replicas) && AllStandAt(s.replicas, Managed(origin, [])) && s.replicas != []
    requires cfg.threshold.den < 2 * cfg.threshold.num && cfg.threshold.num <= cfg.threshold.den
    requires Fits(s, past) && |input.deliveries| == |s.replicas| && FewFaults(cfg, KeysOf(s.replicas), s, past, input)
    requires Execute(Run(origin, RoundTxs(past)), input.tx).Ok?
    ensures
      var before := RunRounds(cfg, KeysOf(s.replicas), s, past).history;
      var after := RunRounds(cfg, KeysOf(s.replicas), s, past + [input]).history;
      && (|after| == |before| || EndsAgreed(after, StateHash(cfg.hashing, Run(origin, RoundTxs(past + [input])))))
      && (cfg.minResponses <= |s.replicas| - Tolerated(|s.replicas|, cfg.threshold) ==> |after| == |before| + 1)
  {
    hide RoundStep, RunRounds, ApplyAll, Execute, Run;
    var keys := KeysOf(s.replicas);
    var m := ApplyAll(cfg.hashing, Managed(origin, []), RoundTxs(past));
    StandsAtRun(cfg.hashing, origin, RoundTxs(past));
    NextTruth(origin, past, input);
    SoundAreCorrect(cfg, keys, s, Managed(origin, []), past, input);
    ServersStay(cfg, keys, s, past);
    RunNext(cfg, keys, s, past + [input], past, input);
    ToleratesOnce(cfg, keys, s.replicas, RunRounds(cfg, keys, s, past), input, m, RunRounds(cfg, keys, s, past + [input]));
  }

  lemma {:induction false} StandsAtRun(h: Hashing, origin: State, txs: seq<Transaction>)
    ensures ApplyAll(h, Managed(origin, []), txs).state == Run(origin, txs)
  {
    TraceSoundness(h, origin, txs);
  }

  lemma {:induction false} NextTruth(origin: State, past: seq<RoundInput>, input: RoundInput)
    ensures Run(origin, RoundTxs(past + [input])) == Step(Run(origin, RoundTxs(past)), input.tx)
  {
    RoundTxsNext(past, input);
    RunAppend(origin, RoundTxs(past), input.tx);
  }

  lemma {:induction false} ToleratesOnce(cfg: Config, keys: map<string, nat>, servers: seq<Replica>, s: P2PState, input: RoundInput, m: Managed, end: P2PState)
    requires DistinctServers(servers) && SameRoster(s.replicas, servers) && |input.deliveries| == |servers| > 0
    requires keys == KeysOf(servers) && end == RoundStep(cfg, keys, s, input)
    requires cfg.threshold.den < 2 * cfg.threshold.num && cfg.threshold.num <= cfg.threshold.den
    requires Execute(m.state, input.tx).Ok? && EnoughCorrect(cfg.threshold, s, input, m)
    ensures |end.history| == |s.history| || EndsAgreed(end.history, StateHash(cfg.hashing, Step(m.state, input.tx)))
    ensures cfg.minResponses <= |servers| - Tolerated(|servers|, cfg.threshold) ==> |end.history| == |s.history| + 1
  {
    RoundTolerates(cfg, servers, s, input, m);
  }

  lemma {:induction false} RoundTxsNext(past: seq<RoundInput>, input: RoundInput)
    ensures RoundTxs(past + [input]) == RoundTxs(past) + [input.tx]
  {
    assert (past + [input])[..|past|] == past;
  }

  /** Rounds match trace entries: same transaction, the entry's true hash agreed, with consensus. */
  predicate Truthful(history: seq<HistoryEntry>, trace: seq<TraceEntry>) {
    |history| == |trace| && forall k :: 0 <= k < |trace| ==> AgreesWith(history[k], trace[k])
  }

  predicate AgreesWith(round: HistoryEntry, entry: TraceEntry) {
    round.tx == entry.tx && round.outcome.agreedHash == Some(entry.newHash) && round.outcome.consensusReached
  }

  lemma TruthfulNext(history: seq<HistoryEntry>, trace: seq<TraceEntry>, after: seq<HistoryEntry>, entry: TraceEntry)
    requires Truthful(history, trace) && |after| == |history| + 1 && history <= after
    requires AgreesWith(after[|history|], entry)
    ensures Truthful(after, trace + [entry])
  {
    forall k | 0 <= k < |trace + [entry]| ensures AgreesWith(after[k], (trace + [entry])[k]) {
      if k < |trace| { assert after[k] == history[k] && AgreesWith(history[k], trace[k]); }
    }
  }

  lemma RoundAppends(cfg: Config, keys: map<string, nat>, s: P2PState, input: RoundInput)
    requires |input.deliveries| == |s.replicas|
    ensures
      var after := RoundStep(cfg, keys, s, input).history;
      s.history <= after && |after| <= |s.history| + 1
      && (|after| == |s.history| + 1 ==> after[|s.history|].tx == input.tx)
  {
  }

  /** Each round, given those before it, has few faults. */
  ghost predicate FewFaultsAlways(cfg: Config, keys: map<string, nat>, s: P2PState, inputs: seq<RoundInput>)
    requires Fits(s, inputs)
  {
    forall k :: 0 <= k < |inputs| ==> FewFaults(cfg, keys, s, inputs[..k], inputs[k])
  }

  /** The required number of responses lies above the faults tolerated and within the others. */
  predicate RequiresMajority(cfg: Config, n: nat) {
    Tolerated(n, cfg.threshold) < cfg.minResponses <= n - Tolerated(n, cfg.threshold)
  }

  lemma {:induction false} TruthfulStep(cfg: Config, s: P2PState, keys: map<string, nat>, servers: seq<Replica>, input: RoundInput, m: Managed, end: P2PState)
    requires DistinctServers(servers) && SameRoster(s.replicas, servers) && |input.deliveries| == |servers| > 0
    requires keys == KeysOf(servers) && end == RoundStep(cfg, keys, s, input)
    requires cfg.threshold.den < 2 * cfg.threshold.num && cfg.threshold.num <= cfg.threshold.den
    requires EnoughCorrect(cfg.threshold, s, input, m) && RequiresMajority(cfg, |servers|)
    requires Truthful(s.history, m.trace)
    ensures Truthful(end.history, Apply(cfg.hashing, m, input.tx).trace)
  {
    RoundAppends(cfg, keys, s, input);
    if Execute(m.state, input.tx).Ok? {
      RoundTolerates(cfg, servers, s, input, m);
      TruthfulNext(s.history, m.trace, end.history, Entry(cfg.hashing, m.state, input.tx));
    } else {
      RefusedUnrecorded(cfg, keys, s, input, m);
    }
  }

  lemma {:induction false} TruthfulRun(cfg: Config, s: P2PState, origin: Managed, inputs: seq<RoundInput>)
    requires Initial(s, s.replicas) && AllStandAt(s.replicas, origin) && origin.trace == [] && s.replicas != []
    requires cfg.threshold.den < 2 * cfg.threshold.num && cfg.threshold.num <= cfg.threshold.den
    requires Fits(s, inputs) && RequiresMajority(cfg, |s.replicas|)
    requires FewFaultsAlways(cfg, KeysOf(s.replicas), s, inputs)
    ensures Truthful(RunRounds(cfg, KeysOf(s.replicas), s, inputs).history, ApplyAll(cfg.hashing, origin, RoundTxs(inputs)).trace)
    decreases |inputs|
  {
    hide *;
    if inputs == [] {
      TruthfulStart(cfg, s, origin, inputs);
    } else {
      FitsPrefix(s, inputs, |inputs| - 1);
      FewFaultsBefore(cfg, KeysOf(s.replicas), s, inputs, |inputs| - 1);
      TruthfulRun(cfg, s, origin, inputs[..|inputs| - 1]);
      TruthfulRound(cfg, s, origin, inputs, |inputs| - 1);
    }
  }

  lemma {:induction false} TruthfulStart(cfg: Config, s: P2PState, origin: Managed, inputs: seq<RoundInput>)
    requires Initial(s, s.replicas) && origin.trace == [] && inputs == []
    ensures Fits(s, inputs)
    ensures Truthful(RunRounds(cfg, KeysOf(s.replicas), s, inputs).history, ApplyAll(cfg.hashing, origin, RoundTxs(inputs)).trace)
  {
  }

  lemma {:induction false} TruthfulRound(cfg: Config, s: P2PState, origin: Managed, inputs: seq<RoundInput>, n: nat)
    requires Initial(s, s.replicas) && AllStandAt(s.replicas, origin) && s.replicas != []
    requires cfg.threshold.den < 2 * cfg.threshold.num && cfg.threshold.num <= cfg.threshold.den
    requires |inputs| == n + 1 && Fits(s, inputs) && RequiresMajority(cfg, |s.replicas|)
    requires FewFaultsAlways(cfg, KeysOf(s.replicas), s, inputs)
    requires Truthful(RunRounds(cfg, KeysOf(s.replicas), s, inputs[..n]).history,
                      ApplyAll(cfg.hashing, origin, RoundTxs(inputs[..n])).trace)
    ensures Truthful(RunRounds(cfg, KeysOf(s.replicas), s, inputs).history, ApplyAll(cfg.hashing, origin, RoundTxs(inputs)).trace)
  {
    hide FewFaults, RunRounds, RoundStep, Truthful, ApplyAll, Apply, EnoughCorrect, Execute, Step, KeysOf, RequiresMajority, AllStandAt, RoundTxs;
    var keys := KeysOf(s.replicas);
    var (past, input) := (inputs[..n], inputs[n]);
    SplitLast(inputs, n);
    SoundAreCorrect(cfg, keys, s, origin, past, input);
    ServersStay(cfg, keys, s, past);
    RunNext(cfg, keys, s, inputs, past, input);
    RoundTxsNext(past, input);
    ApplyLast(cfg.hashing, origin, RoundTxs(past), input.tx);
    TruthfulStep(cfg, RunRounds(cfg, keys, s, past), keys, s.replicas, input,
                 ApplyAll(cfg.hashing, origin, RoundTxs(past)), RunRounds(cfg, keys, s, inputs));
  }

  lemma FewFaultsBefore(cfg: Config, keys: map<string, nat>, s: P2PState, inputs: seq<RoundInput>, n: nat)
    requires Fits(s, inputs) && n <= |inputs| && FewFaultsAlways(cfg, keys, s, inputs)
    ensures FewFaultsAlways(cfg, keys, s, inputs[..n])
  {
    forall k | 0 <= k < n ensures FewFaults(cfg, keys, s, inputs[..n][..k], inputs[..n][k]) {
      assert inputs[..n][..k] == inputs[..k];
    }
  }

  /**
    Whole-run truth of the networked broadcast.  Servers start equal; in every
    round at most floor(n(1-t)) of them are malicious, excluded, unheard, or
    have ever missed a request; more answers are required than that, and no
    more than the rest.  Then history and audit log list exactly the accepted
    transactions, and every round agrees with consensus on the true hash.
   */
  lemma {:induction false} NetworkedRunSafety(cfg: Config, s: P2PState, origin: State, inputs: seq<RoundInput>)
    requires Initial(s, s.replicas) && AllStandAt(s.replicas, Managed(origin, [])) && s.replicas != []
    requires cfg.threshold.den < 2 * cfg.threshold.num && cfg.threshold.num <= cfg.threshold.den
    requires Fits(s, inputs) && RequiresMajority(cfg, |s.replicas|)
    requires FewFaultsAlways(cfg, KeysOf(s.replicas), s, inputs)
    ensures
      var end := RunRounds(cfg, KeysOf(s.replicas), s, inputs);
      var m := ApplyAll(cfg.hashing, Managed(origin, []), RoundTxs(inputs));
      && Truthful(end.history, m.trace)
      && m.state == Run(origin, RoundTxs(inputs))
      && HistoryTxs(end.history) == Traced(m.trace) == Accepted(origin, RoundTxs(inputs))
      && Faithful(cfg.hashing, origin, m.trace, m.state)
      && (end.events.Some? ==> AuditMatches(end.events.value, end.history))
  {
    TruthfulRun(cfg, s, Managed(origin, []), inputs);
    TraceSoundness(cfg.hashing, origin, RoundTxs(inputs));
    LogsInStep(cfg, s, inputs);
    TruthfulTxs(RunRounds(cfg, KeysOf(s.replicas), s, inputs).history,
                ApplyAll(cfg.hashing, Managed(origin, []), RoundTxs(inputs)).trace);
  }

  lemma {:induction false} TruthfulTxs(history: seq<HistoryEntry>, trace: seq<TraceEntry>)
    requires Truthful(history, trace)
    ensures HistoryTxs(history) == Traced(trace)
    decreases |history|
  {
    if history != [] {
      var n := |history| - 1;
      assert Truthful(history[..n], trace[..n]) by {
        assert forall k :: 0 <= k < n ==> AgreesWith(history[k], trace[k]);
      }
      TruthfulTxs(history[..n], trace[..n]);
      assert AgreesWith(history[n], trace[n]) && trace == trace[..n] + [trace[n]];
      TracedAppend(trace[..n], trace[n]);
    }
  }
}
