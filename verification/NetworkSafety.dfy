/** Safety of the in-process network over whole runs, with malicious nodes. */
module NetworkSafety {
  import opened Wrappers
  import opened Sequences
  import opened Strings
  import opened LedgerState
  import opened ExecutionEngine
  import opened Merkle
  import opened StateManagement
  import opened Nodes
  import opened Consensus
  import opened Voting
  import opened Audit
  import opened Network

  // ------------------------------------------------------------------
  // Rosters
  // ------------------------------------------------------------------

  /** All nodes hold the same state and trace. */
  predicate Aligned(rs: seq<Replica>, m: Managed) {
    forall i :: 0 <= i < |rs| ==> rs[i].managed == m
  }

  /** All of `n` nodes hash in the same way. */
  ghost predicate Uniform(hs: seq<Hashing>, h: Hashing, n: nat) {
    |hs| == n && forall i :: 0 <= i < n ==> hs[i] == h
  }

  /** No keys registered, or every node signs with its registered key. */
  predicate AllSign(keys: map<string, nat>, rs: seq<Replica>) {
    keys == map[] || forall i :: 0 <= i < |rs| ==> rs[i].id in keys && rs[i].key == Some(keys[rs[i].id])
  }

  function IdsWhere(rs: seq<Replica>, malicious: bool): seq<string> {
    if rs == [] then []
    else if rs[0].malicious == malicious then [rs[0].id] + IdsWhere(rs[1..], malicious)
    else IdsWhere(rs[1..], malicious)
  }

  function HonestIds(rs: seq<Replica>): seq<string> {
    IdsWhere(rs, false)
  }

  function MaliciousIds(rs: seq<Replica>): seq<string> {
    IdsWhere(rs, true)
  }

  lemma {:induction false} RosterIds(rs: seq<Replica>, qs: seq<Replica>, malicious: bool)
    requires SameRoster(rs, qs)
    ensures IdsWhere(rs, malicious) == IdsWhere(qs, malicious)
  {
    if rs != [] {
      RosterIds(rs[1..], qs[1..], malicious);
    }
  }

  // ------------------------------------------------------------------
  // One round
  // ------------------------------------------------------------------

  /** A broadcast over aligned nodes is all-or-nothing. */
  lemma {:induction false} AllOrNothing(hs: seq<Hashing>, h: Hashing, rs: seq<Replica>, m: Managed, tx: Transaction)
    requires Aligned(rs, m) && rs != [] && Uniform(hs, h, |rs|)
    ensures
      var s := ExecuteAll(hs, rs, tx);
      && Aligned(s.replicas, Apply(h, m, tx)) && SameRoster(s.replicas, rs)
      && (s.completed <==> Execute(m.state, tx).Ok?)
      && (s.completed ==> s.results == Reports(h, s.replicas))
    decreases |rs|
  {
    var s := ExecuteAll(hs, rs, tx);
    if Execute(m.state, tx).Ok? {
      if |rs| > 1 {
        AllOrNothing(hs[1..], h, rs[1..], m, tx);
        assert s.replicas[1..] == ExecuteAll(hs[1..], rs[1..], tx).replicas;
      } else {
        assert ExecuteAll(hs[1..], rs[1..], tx) == Sweep([], [], true);
      }
    }
  }

  function Reports(h: Hashing, rs: seq<Replica>): seq<NodeResult> {
    if rs == [] then [] else [Report(h, rs[0])] + Reports(h, rs[1..])
  }

  lemma {:induction false} ReportsVerify(h: Hashing, rs: seq<Replica>, keys: map<string, nat>)
    requires AllSign(keys, rs)
    ensures Verified(keys, Reports(h, rs)) == Reports(h, rs)
    ensures InvalidIds(keys, Reports(h, rs)) == []
    ensures |Reports(h, rs)| == |rs|
    ensures Ids(Reports(h, rs)) == Map((r: Replica) => r.id, rs)
  {
    if rs != [] {
      ReportsVerify(h, rs[1..], keys);
    }
  }

  /** Honest nodes report the true hash, malicious ones the corrupted hash, and nobody anything else. */
  lemma {:induction false} ReportedVotes(h: Hashing, rs: seq<Replica>, m: Managed, g: string)
    requires Aligned(rs, m)
    ensures
      var truth := StateHash(h, m.state);
      Ids(Filter(VotingFor(g), Reports(h, rs))) ==
      if g == truth then HonestIds(rs) else if g == CorruptHash(truth) then MaliciousIds(rs) else []
    ensures g == StateHash(h, m.state) ==> Ids(Filter(VotingAgainst(g), Reports(h, rs))) == MaliciousIds(rs)
  {
    CorruptHashIsNoDigest(StateHash(h, m.state));
    if rs != [] {
      ReportedVotes(h, rs[1..], m, g);
    }
  }

  /** Honest nodes outnumber the malicious ones, or tie and the true hash sorts first: its 57th digit is a decimal one. */
  predicate TruthWins(rs: seq<Replica>, truth: Digest) {
    var (good, bad) := (|HonestIds(rs)|, |MaliciousIds(rs)|);
    good > bad || (good == bad && good > 0 && truth[56] <= '9')
  }

  /** The true hash is agreed exactly if it wins; then the lists are the honest and the malicious nodes, and 51 percent reach consensus. */
  predicate VerdictOn(rs: seq<Replica>, cr: ConsensusResult, truth: Digest) {
    && (cr.agreedHash == Some(truth) <==> TruthWins(rs, truth))
    && (TruthWins(rs, truth) ==>
          && cr.honestNodes == HonestIds(rs)
          && cr.faultyNodes == MaliciousIds(rs)
          && (cr.consensusReached <==> 100 * |HonestIds(rs)| >= 51 * |rs|))
  }

  lemma VerdictOnSame(rs: seq<Replica>, qs: seq<Replica>, cr: ConsensusResult, truth: Digest)
    requires SameRoster(qs, rs) && VerdictOn(qs, cr, truth)
    ensures VerdictOn(rs, cr, truth)
  {
    RosterIds(qs, rs, true);
    RosterIds(qs, rs, false);
  }

  /** The verdict on the reports of aligned nodes, exactly. */
  lemma {:induction false} RoundVerdict(h: Hashing, rs: seq<Replica>, m: Managed, keys: map<string, nat>)
    requires rs != [] && Aligned(rs, m) && AllSign(keys, rs)
    ensures
      VerdictOn(rs, Decide(Reports(h, rs), keys, DEFAULT_QUORUM_THRESHOLD), StateHash(h, m.state))
  {
    var truth := StateHash(h, m.state);
    var results := Reports(h, rs);
    ReportsVerify(h, rs, keys);
    VoteSizes(h, rs, m, keys);
    TruthWinsExactly(h, rs, m, keys);
    WinnerExact(results, keys, DEFAULT_QUORUM_THRESHOLD, truth);
    QuorumExact(results, keys, DEFAULT_QUORUM_THRESHOLD);
    ReportedVotes(h, rs, m, truth);
  }

  lemma {:induction false} VoteSizes(h: Hashing, rs: seq<Replica>, m: Managed, keys: map<string, nat>)
    requires Aligned(rs, m) && AllSign(keys, rs)
    ensures
      var truth := StateHash(h, m.state);
      && Count(keys, Reports(h, rs), truth) == |HonestIds(rs)|
      && Count(keys, Reports(h, rs), CorruptHash(truth)) == |MaliciousIds(rs)|
      && forall g :: g != truth && g != CorruptHash(truth) ==> Count(keys, Reports(h, rs), g) == 0
  {
    var truth := StateHash(h, m.state);
    CorruptHashIsNoDigest(truth);
    ReportsVerify(h, rs, keys);
    ReportedVotes(h, rs, m, truth);
    ReportedVotes(h, rs, m, CorruptHash(truth));
    forall g | g != truth && g != CorruptHash(truth) ensures Count(keys, Reports(h, rs), g) == 0 {
      ReportedVotes(h, rs, m, g);
    }
  }

  lemma {:induction false} TruthWinsExactly(h: Hashing, rs: seq<Replica>, m: Managed, keys: map<string, nat>)
    requires Aligned(rs, m) && AllSign(keys, rs)
    ensures Wins(keys, Reports(h, rs), StateHash(h, m.state)) <==> TruthWins(rs, StateHash(h, m.state))
  {
    var truth := StateHash(h, m.state);
    VoteSizes(h, rs, m, keys);
    CorruptHashOrder(truth);
    LexTotal(truth, truth);
    var results := Reports(h, rs);
    assert Wins(keys, results, truth) ==> Count(keys, results, CorruptHash(truth)) <= Count(keys, results, truth);
  }

  // ------------------------------------------------------------------
  // Whole runs
  // ------------------------------------------------------------------

  datatype Input = Input(now: int, tx: Transaction)

  function Txs(inputs: seq<Input>): seq<Transaction> {
    if inputs == [] then [] else [inputs[0].tx] + Txs(inputs[1..])
  }

  ghost function NetworkRun(hs: seq<Hashing>, keys: map<string, nat>, s: NetState, inputs: seq<Input>): NetState
    requires |hs| == |s.replicas|
    decreases |inputs|
  {
    if inputs == [] then s
    else NetworkRun(hs, keys, BroadcastStep(hs, keys, s, inputs[0].now, inputs[0].tx), inputs[1..])
  }

  /** Every node answered, in order: honest ones with the true hash, malicious ones with it defaced. */
  predicate AllAnswered(rs: seq<Replica>, results: seq<NodeResult>, truth: Digest) {
    |results| == |rs| && forall i :: 0 <= i < |rs| ==>
      && results[i].nodeId == rs[i].id
      && results[i].stateHash == (if rs[i].malicious then truth[..56] + "DEADBEEF" else truth)
      && (results[i].signature.Some? <==> rs[i].key.Some?)
  }

  lemma {:induction false} ReportsAnswer(h: Hashing, rs: seq<Replica>, qs: seq<Replica>, m: Managed)
    requires SameRoster(qs, rs) && Aligned(qs, m)
    ensures AllAnswered(rs, Reports(h, qs), StateHash(h, m.state))
  {
    if rs != [] {
      ReportsAnswer(h, rs[1..], qs[1..], m);
    }
  }

  /** A round of the history told the truth about a trace entry of the honest nodes. */
  predicate SafeRound(rs: seq<Replica>, round: HistoryEntry, entry: TraceEntry) {
    && round.tx == entry.tx
    && AllAnswered(rs, round.results, entry.newHash)
    && VerdictOn(rs, round.outcome, entry.newHash)
  }

  /** Nodes agree, and rounds match their common trace one to one. */
  ghost predicate Safe(rs: seq<Replica>, s: NetState, m: Managed) {
    && SameRoster(s.replicas, rs) && Aligned(s.replicas, m)
    && |s.history| == |m.trace|
    && (forall k :: 0 <= k < |m.trace| ==> SafeRound(rs, s.history[k], m.trace[k]))
  }

  lemma SameRosterSigns(keys: map<string, nat>, rs: seq<Replica>, qs: seq<Replica>)
    requires SameRoster(qs, rs) && AllSign(keys, rs)
    ensures AllSign(keys, qs)
  {
  }

  /** The verdict in terms of the original roster. */
  lemma {:induction false} VerdictForRoster(h: Hashing, rs: seq<Replica>, qs: seq<Replica>, m: Managed, keys: map<string, nat>, tx: Transaction)
    requires rs != [] && SameRoster(qs, rs) && AllSign(keys, rs) && Aligned(qs, Apply(h, m, tx)) && Execute(m.state, tx).Ok?
    ensures SafeRound(rs, HistoryEntry(tx, Reports(h, qs), Decide(Reports(h, qs), keys, DEFAULT_QUORUM_THRESHOLD)), Entry(h, m.state, tx))
  {
    ReportsAnswer(h, rs, qs, Apply(h, m, tx));
    SameRosterSigns(keys, rs, qs);
    RoundVerdict(h, qs, Apply(h, m, tx), keys);
    hide AllAnswered, VerdictOn, Decide, Reports, AllSign, IdsWhere, Aligned, Execute;
    VerdictOnSame(rs, qs, Decide(Reports(h, qs), keys, DEFAULT_QUORUM_THRESHOLD), StateHash(h, Step(m.state, tx)));
  }

  /** One more round for both history and trace. */
  lemma SafeHistoryNext(rs: seq<Replica>, history: seq<HistoryEntry>, trace: seq<TraceEntry>, round: HistoryEntry, entry: TraceEntry)
    requires |history| == |trace| && SafeRound(rs, round, entry)
    requires forall k :: 0 <= k < |trace| ==> SafeRound(rs, history[k], trace[k])
    ensures forall k :: 0 <= k < |trace + [entry]| ==> SafeRound(rs, (history + [round])[k], (trace + [entry])[k])
  {
  }

  /** The network after a round whose verdict is sound is safe again. */
  lemma SafeNext(rs: seq<Replica>, s: NetState, m: Managed, qs: seq<Replica>, round: HistoryEntry, entry: TraceEntry,
                 after: State, events: Option<seq<AuditEvent>>)
    requires Safe(rs, s, m) && SafeRound(rs, round, entry)
    requires SameRoster(qs, rs) && Aligned(qs, Managed(after, m.trace + [entry]))
    ensures Safe(rs, NetState(qs, s.history + [round], events), Managed(after, m.trace + [entry]))
  {
    SafeHistoryNext(rs, s.history, m.trace, round, entry);
  }

  lemma {:induction false} SafeVote(h: Hashing, keys: map<string, nat>, rs: seq<Replica>, s: NetState, m: Managed, now: int, tx: Transaction, qs: seq<Replica>)
    requires rs != [] && AllSign(keys, rs) && Safe(rs, s, m) && Execute(m.state, tx).Ok?
    requires SameRoster(qs, rs) && Aligned(qs, Apply(h, m, tx))
    ensures Safe(rs, Voted(Sweep(qs, Reports(h, qs), true), keys, s, now, tx), Apply(h, m, tx))
  {
    hide Decide, SafeRound, Execute, Reports, MakeEvent, Recorded;
    var results := Reports(h, qs);
    var round := HistoryEntry(tx, results, Decide(results, keys, DEFAULT_QUORUM_THRESHOLD));
    VerdictForRoster(h, rs, qs, m, keys, tx);
    SafeNext(rs, s, m, qs, round, Entry(h, m.state, tx), Step(m.state, tx),
             Voted(Sweep(qs, results, true), keys, s, now, tx).events);
  }

  lemma SafeAccepted(hs: seq<Hashing>, h: Hashing, keys: map<string, nat>, rs: seq<Replica>, s: NetState, m: Managed, now: int, tx: Transaction)
    requires rs != [] && AllSign(keys, rs) && Safe(rs, s, m) && Uniform(hs, h, |rs|) && Execute(m.state, tx).Ok?
    ensures Safe(rs, BroadcastStep(hs, keys, s, now, tx), Apply(h, m, tx))
  {
    AllOrNothing(hs, h, s.replicas, m, tx);
    var sweep := ExecuteAll(hs, s.replicas, tx);
    assert sweep == Sweep(sweep.replicas, Reports(h, sweep.replicas), true);
    SafeVote(h, keys, rs, s, m, now, tx, sweep.replicas);
  }

  lemma SafeStep(hs: seq<Hashing>, h: Hashing, keys: map<string, nat>, rs: seq<Replica>, s: NetState, m: Managed, now: int, tx: Transaction)
    requires rs != [] && AllSign(keys, rs) && Safe(rs, s, m) && Uniform(hs, h, |rs|)
    ensures Safe(rs, BroadcastStep(hs, keys, s, now, tx), Apply(h, m, tx))
  {
    if Execute(m.state, tx).Ok? {
      SafeAccepted(hs, h, keys, rs, s, m, now, tx);
    } else {
      AllOrNothing(hs, h, s.replicas, m, tx);
    }
  }

  lemma {:induction false} SafeRun(hs: seq<Hashing>, h: Hashing, keys: map<string, nat>, rs: seq<Replica>, s: NetState, m: Managed, inputs: seq<Input>)
    requires rs != [] && AllSign(keys, rs) && Safe(rs, s, m) && Uniform(hs, h, |rs|)
    ensures Safe(rs, NetworkRun(hs, keys, s, inputs), ApplyAll(h, m, Txs(inputs)))
    decreases |inputs|
  {
    if inputs != [] {
      SafeStep(hs, h, keys, rs, s, m, inputs[0].now, inputs[0].tx);
      SafeRun(hs, h, keys, rs, BroadcastStep(hs, keys, s, inputs[0].now, inputs[0].tx), Apply(h, m, inputs[0].tx), inputs[1..]);
      assert Txs(inputs)[1..] == Txs(inputs[1..]);
    }
  }

  ghost function Fresh(rs: seq<Replica>, audited: bool): NetState {
    NetState(rs, [], if audited then Some([]) else None)
  }

  /**
    Whole-run safety.  Nodes that start equal and hash alike stay equal: each
    holds the engine's state for the submitted transactions.  The history lists
    exactly the accepted transactions, and round k agrees on the true hash of the
    state after the first k+1 of them exactly when the truth wins the vote.
   */
  lemma {:induction false} WholeRunSafety(hs: seq<Hashing>, h: Hashing, keys: map<string, nat>, rs: seq<Replica>, origin: State, inputs: seq<Input>, audited: bool)
    requires rs != [] && AllSign(keys, rs) && Aligned(rs, Managed(origin, [])) && Uniform(hs, h, |rs|)
    ensures
      var end := NetworkRun(hs, keys, Fresh(rs, audited), inputs);
      var m := ApplyAll(h, Managed(origin, []), Txs(inputs));
      && Safe(rs, end, m)
      && m.state == Run(origin, Txs(inputs))
      && Traced(m.trace) == Accepted(origin, Txs(inputs))
      && Faithful(h, origin, m.trace, m.state)
      && Lists(end, m.state, AcceptedInputs(origin, inputs), audited)
  {
    MixedRunSafety(hs, keys, rs, origin, inputs, audited);
    SafeRun(hs, h, keys, rs, Fresh(rs, audited), Managed(origin, []), inputs);
    TraceSoundness(h, origin, Txs(inputs));
  }

  // ------------------------------------------------------------------
  // Nodes that hash in different ways
  // ------------------------------------------------------------------

  predicate SameStates(rs: seq<Replica>, st: State) {
    forall i :: 0 <= i < |rs| ==> rs[i].managed.state == st
  }

  lemma {:induction false} StatesMoveTogether(hs: seq<Hashing>, rs: seq<Replica>, st: State, tx: Transaction)
    requires SameStates(rs, st) && rs != [] && |hs| == |rs|
    ensures
      var s := ExecuteAll(hs, rs, tx);
      SameStates(s.replicas, Step(st, tx)) && (s.completed <==> Execute(st, tx).Ok?)
    decreases |rs|
  {
    if |rs| > 1 {
      StatesMoveTogether(hs[1..], rs[1..], st, tx);
    } else {
      assert rs[1..] == [];
    }
  }

  function Nows(inputs: seq<Input>): seq<int> {
    if inputs == [] then [] else [inputs[0].now] + Nows(inputs[1..])
  }

  /** The inputs whose transactions the engine accepts. */
  function AcceptedInputs(st: State, inputs: seq<Input>): seq<Input>
    decreases |inputs|
  {
    if inputs == [] then []
    else (if Execute(st, inputs[0].tx).Ok? then [inputs[0]] else []) + AcceptedInputs(Step(st, inputs[0].tx), inputs[1..])
  }

  lemma {:induction false} AcceptedTxs(st: State, inputs: seq<Input>)
    ensures Txs(AcceptedInputs(st, inputs)) == Accepted(st, Txs(inputs))
    decreases |inputs|
  {
    hide Execute, Step;
    if inputs != [] {
      var rest := AcceptedInputs(Step(st, inputs[0].tx), inputs[1..]);
      AcceptedTxs(Step(st, inputs[0].tx), inputs[1..]);
      assert Txs(inputs)[1..] == Txs(inputs[1..]);
      assert ([inputs[0]] + rest)[1..] == rest && [] + rest == rest;
      assert [] + Accepted(Step(st, inputs[0].tx), Txs(inputs[1..])) == Accepted(Step(st, inputs[0].tx), Txs(inputs[1..]));
    }
  }

  /** States equal `st`, history lists the inputs `done`, and an attached audit log records that history at their times. */
  ghost predicate Lists(s: NetState, st: State, done: seq<Input>, audited: bool) {
    && SameStates(s.replicas, st) && HistoryTxs(s.history) == Txs(done)
    && (s.events.Some? <==> audited)
    && (audited ==> AuditMatches(s.events.value, s.history) && TimesOf(s.events.value) == Nows(done))
  }

  lemma {:induction false} InputsAppend(done: seq<Input>, input: Input)
    ensures Txs(done + [input]) == Txs(done) + [input.tx] && Nows(done + [input]) == Nows(done) + [input.now]
  {
    if done != [] {
      InputsAppend(done[1..], input);
      assert (done + [input])[1..] == done[1..] + [input];
    }
  }

  lemma ListsStep(hs: seq<Hashing>, keys: map<string, nat>, s: NetState, st: State, done: seq<Input>, audited: bool, input: Input)
    requires Lists(s, st, done, audited) && s.replicas != [] && |hs| == |s.replicas|
    ensures Lists(BroadcastStep(hs, keys, s, input.now, input.tx), Step(st, input.tx),
                  done + (if Execute(st, input.tx).Ok? then [input] else []), audited)
  {
    hide Voted, ExecuteAll, Execute, AuditMatches;
    StatesMoveTogether(hs, s.replicas, st, input.tx);
    VotedLists(ExecuteAll(hs, s.replicas, input.tx), keys, s, input.now, input.tx);
    InputsAppend(done, input);
    assert done + [] == done;
  }

  /** What a round adds to history and audit log. */
  lemma VotedLists(sweep: Sweep, keys: map<string, nat>, s: NetState, now: int, tx: Transaction)
    requires s.events.Some? ==> AuditMatches(s.events.value, s.history)
    ensures
      var next := Voted(sweep, keys, s, now, tx);
      && next.replicas == sweep.replicas && next.events.Some? == s.events.Some?
      && HistoryTxs(next.history) == HistoryTxs(s.history) + (if sweep.completed then [tx] else [])
      && (s.events.Some? ==>
            && AuditMatches(next.events.value, next.history)
            && TimesOf(next.events.value) == TimesOf(s.events.value) + (if sweep.completed then [now] else []))
  {
    hide Decide, MakeEvent, AuditMatches;
    var cr := Decide(sweep.results, keys, DEFAULT_QUORUM_THRESHOLD);
    if sweep.completed {
      var e := HistoryEntry(tx, sweep.results, cr);
      assert (s.history + [e])[..|s.history|] == s.history;
      if s.events.Some? {
        RecordedTime(s.events.value, now, tx, sweep.results, cr);
        AuditMatchesNext(s.events.value, s.history, now, e);
      }
    } else {
      assert HistoryTxs(s.history) + [] == HistoryTxs(s.history);
      if s.events.Some? {
        assert TimesOf(s.events.value) + [] == TimesOf(s.events.value);
      }
    }
  }

  lemma {:induction false} ListsRun(hs: seq<Hashing>, keys: map<string, nat>, s: NetState, st: State, done: seq<Input>, audited: bool, inputs: seq<Input>)
    requires Lists(s, st, done, audited) && s.replicas != [] && |hs| == |s.replicas|
    ensures Lists(NetworkRun(hs, keys, s, inputs), Run(st, Txs(inputs)), done + AcceptedInputs(st, inputs), audited)
    decreases |inputs|
  {
    hide Lists, Execute, Step, BroadcastStep;
    if inputs == [] {
      assert done + [] == done;
    } else {
      var now := if Execute(st, inputs[0].tx).Ok? then [inputs[0]] else [];
      StepKeepsSize(hs, keys, s, inputs[0]);
      ListsStep(hs, keys, s, st, done, audited, inputs[0]);
      ListsRun(hs, keys, BroadcastStep(hs, keys, s, inputs[0].now, inputs[0].tx), Step(st, inputs[0].tx), done + now, audited, inputs[1..]);
      assert Txs(inputs)[1..] == Txs(inputs[1..]);
      Regroup(done, now, AcceptedInputs(Step(st, inputs[0].tx), inputs[1..]));
    }
  }

  lemma StepKeepsSize(hs: seq<Hashing>, keys: map<string, nat>, s: NetState, input: Input)
    requires |hs| == |s.replicas|
    ensures |BroadcastStep(hs, keys, s, input.now, input.tx).replicas| == |s.replicas|
  {
    hide ExecuteAll, Decide;
  }

  lemma Regroup<T>(a: seq<T>, b: seq<T>, c: seq<T>)
    ensures (a + b) + c == a + (b + c)
  {
  }

  /**
    Even nodes that hash in different ways hold the engine's state after any
    run, and history and audit log list exactly the accepted transactions, in
    order, the audit log with the times at which they were submitted.
   */
  lemma {:induction false} MixedRunSafety(hs: seq<Hashing>, keys: map<string, nat>, rs: seq<Replica>, origin: State, inputs: seq<Input>, audited: bool)
    requires rs != [] && SameStates(rs, origin) && |hs| == |rs|
    ensures Lists(NetworkRun(hs, keys, Fresh(rs, audited), inputs), Run(origin, Txs(inputs)), AcceptedInputs(origin, inputs), audited)
    ensures Txs(AcceptedInputs(origin, inputs)) == Accepted(origin, Txs(inputs))
  {
    AcceptedTxs(origin, inputs);
    ListsRun(hs, keys, Fresh(rs, audited), origin, [], audited, inputs);
    assert [] + AcceptedInputs(origin, inputs) == AcceptedInputs(origin, inputs);
  }
}
