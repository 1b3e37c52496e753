/** The in-process network: every node executes, then the results are put to the vote. */
module Network {
  import opened Wrappers
  import opened LedgerState
  import opened ExecutionEngine
  import opened StateManagement
  import opened Nodes
  import opened Consensus
  import opened Audit

  datatype HistoryEntry = HistoryEntry(tx: Transaction, results: seq<NodeResult>, outcome: ConsensusResult)

  /** The transactions of a history. */
  function HistoryTxs(history: seq<HistoryEntry>): (txs: seq<Transaction>)
    ensures |txs| == |history|
  {
    if history == [] then [] else HistoryTxs(history[..|history| - 1]) + [history[|history| - 1].tx]
  }

  /** The network as a value; `events` is the attached audit log, if any. */
  datatype NetState = NetState(replicas: seq<Replica>, history: seq<HistoryEntry>, events: Option<seq<AuditEvent>>)

  /** Nodes after the loop over them, their results, and whether no node raised. */
  datatype Sweep = Sweep(replicas: seq<Replica>, results: seq<NodeResult>, completed: bool)

  /** Nodes execute one after the other, each hashing in its own way; the first refusal raises out of the loop. */
  function ExecuteAll(hs: seq<Hashing>, replicas: seq<Replica>, tx: Transaction): (s: Sweep)
    requires |hs| == |replicas|
    ensures |s.replicas| == |replicas|
  {
    if replicas == [] then Sweep([], [], true)
    else if Execute(replicas[0].managed.state, tx).Err? then Sweep(replicas, [], false)
    else
      var first := ReplicaStep(hs[0], replicas[0], tx);
      var rest := ExecuteAll(hs[1..], replicas[1..], tx);
      Sweep([first] + rest.replicas, [Report(hs[0], first)] + rest.results, rest.completed)
  }

  ghost function BroadcastStep(hs: seq<Hashing>, keys: map<string, nat>, s: NetState, now: int, tx: Transaction): NetState
    requires |hs| == |s.replicas|
  {
    Voted(ExecuteAll(hs, s.replicas, tx), keys, s, now, tx)
  }

  /** After the loop: nothing if a node raised, else the vote and the two logs. */
  ghost function Voted(sweep: Sweep, keys: map<string, nat>, s: NetState, now: int, tx: Transaction): NetState {
    if !sweep.completed then s.(replicas := sweep.replicas)
    else
      var cr := Decide(sweep.results, keys, DEFAULT_QUORUM_THRESHOLD);
      NetState(sweep.replicas, s.history + [HistoryEntry(tx, sweep.results, cr)],
               if s.events.None? then None else Some(Recorded(s.events.value, now, tx, sweep.results, cr)))
  }

  /** The event is the audit record of the round. */
  predicate Audits(e: AuditEvent, roundId: int, round: HistoryEntry) {
    e == MakeEvent(roundId, e.timestamp, round.tx, round.results, round.outcome)
  }

  /** One event per recorded round, in order. */
  predicate AuditMatches(events: seq<AuditEvent>, history: seq<HistoryEntry>) {
    |events| == |history| && forall k :: 0 <= k < |history| ==> Audits(events[k], k + 1, history[k])
  }

  lemma AuditMatchesNext(events: seq<AuditEvent>, history: seq<HistoryEntry>, now: int, e: HistoryEntry)
    requires AuditMatches(events, history)
    ensures AuditMatches(Recorded(events, now, e.tx, e.results, e.outcome), history + [e])
  {
    var next := Recorded(events, now, e.tx, e.results, e.outcome);
    assert Audits(next[|events|], |events| + 1, e);
    forall k | 0 <= k < |history| ensures Audits(next[k], k + 1, history[k]) {
      assert Audits(events[k], k + 1, history[k]);
    }
  }

  /** What the loop over the nodes has done when it stands before node `k`. */
  predicate Reached(hs: seq<Hashing>, before: seq<Replica>, tx: Transaction, k: nat, after: seq<Replica>, results: seq<NodeResult>) {
    && k <= |before| == |after| == |hs| && |results| == k
    && (forall j :: 0 <= j < k ==> Execute(before[j].managed.state, tx).Ok?)
    && (forall j :: 0 <= j < k ==> after[j] == ReplicaStep(hs[j], before[j], tx))
    && (forall j :: 0 <= j < k ==> results[j] == Report(hs[j], after[j]))
    && (forall j :: k <= j < |before| ==> after[j] == before[j])
  }

  lemma ReachedNext(hs: seq<Hashing>, before: seq<Replica>, tx: Transaction, k: nat, after: seq<Replica>, results: seq<NodeResult>)
    requires Reached(hs, before, tx, k, after, results) && k < |before|
    requires Execute(before[k].managed.state, tx).Ok?
    ensures
      var moved := ReplicaStep(hs[k], before[k], tx);
      Reached(hs, before, tx, k + 1, after[k := moved], results + [Report(hs[k], moved)])
  {
  }

  lemma ReachedTail(hs: seq<Hashing>, before: seq<Replica>, tx: Transaction, k: nat, after: seq<Replica>, results: seq<NodeResult>)
    requires Reached(hs, before, tx, k, after, results) && k > 0
    ensures Reached(hs[1..], before[1..], tx, k - 1, after[1..], results[1..])
  {
  }

  /** Where the loop stops, its nodes and results are those of the specification. */
  lemma {:induction false} ReachedEnd(hs: seq<Hashing>, before: seq<Replica>, tx: Transaction, k: nat, after: seq<Replica>, results: seq<NodeResult>)
    requires Reached(hs, before, tx, k, after, results)
    requires k < |before| ==> Execute(before[k].managed.state, tx).Err?
    ensures ExecuteAll(hs, before, tx) == Sweep(after, results, k == |before|)
    decreases k
  {
    hide Execute, ReplicaStep, Report;
    if k > 0 {
      ReachedTail(hs, before, tx, k, after, results);
      ReachedEnd(hs[1..], before[1..], tx, k - 1, after[1..], results[1..]);
      assert after == [after[0]] + after[1..] && results == [results[0]] + results[1..];
    } else {
      assert after == before;
    }
  }

  // ------------------------------------------------------------------
  // Implementation
  // ------------------------------------------------------------------

  class Network {
    const publicKeys: map<string, nat>
    const audit: AuditLog?
    const nodes: seq<Node>
    var history: seq<HistoryEntry>

    ghost function Managers(): set<StateManager>
    {
      set i | 0 <= i < |nodes| :: nodes[i].manager
    }

    /** Nodes are separate objects. */
    ghost predicate Valid()
    {
      forall i, j :: 0 <= i < j < |nodes| ==> nodes[i].manager != nodes[j].manager
    }

    /** Each node's own way of hashing. */
    function Hashings(): (hs: seq<Hashing>)
      ensures |hs| == |nodes| && forall i :: 0 <= i < |nodes| ==> hs[i] == nodes[i].manager.hashing
    {
      seq(|nodes|, i requires 0 <= i < |nodes| => nodes[i].manager.hashing)
    }

    ghost function Replicas(): (rs: seq<Replica>)
      reads Managers()
      ensures |rs| == |nodes|
      ensures forall i :: 0 <= i < |nodes| ==> nodes[i].manager in Managers() && rs[i] == nodes[i].View()
    {
      seq(|nodes|, i requires 0 <= i < |nodes| reads Managers() =>
        assert nodes[i].manager in Managers();
        nodes[i].View())
    }

    ghost function View(): NetState
      reads this, Managers(), audit
    {
      NetState(Replicas(), history, Events())
    }

    constructor (nodes: seq<Node>, publicKeys: map<string, nat>, audit: AuditLog?)
      requires forall i, j :: 0 <= i < j < |nodes| ==> nodes[i].manager != nodes[j].manager
      ensures Valid() && this.nodes == nodes && history == []
      ensures this.publicKeys == publicKeys && this.audit == audit
    {
      this.nodes := nodes;
      this.publicKeys := publicKeys;
      this.audit := audit;
      history := [];
    }

    /** One node executes; the others are separate objects. */
    method ExecuteAt(i: nat, tx: Transaction) returns (r: Result<NodeResult, Rejection>)
      requires Valid() && i < |nodes|
      modifies Managers()
      ensures Replicas() == old(Replicas())[i := ReplicaStep(Hashings()[i], old(Replicas())[i], tx)]
      ensures r.Ok? == Execute(old(Replicas())[i].managed.state, tx).Ok?
      ensures r.Ok? ==> r.value == Report(Hashings()[i], Replicas()[i])
    {
      assert nodes[i].manager in Managers();
      var done := nodes[i].ExecuteTransaction(tx);
      r := if done.Ok? then Ok(done.value.result) else Err(done.error);
    }

    /** Runs the nodes in order and collects their results, stopping at the first refusal. */
    method Collect(tx: Transaction) returns (results: seq<NodeResult>, completed: bool)
      requires Valid()
      modifies Managers()
      ensures Sweep(Replicas(), results, completed) == ExecuteAll(Hashings(), old(Replicas()), tx)
    {
      ghost var before := Replicas();
      results := [];
      for i := 0 to |nodes|
        invariant Reached(Hashings(), before, tx, i, Replicas(), results)
      {
        ghost var prior := Replicas();
        var r := ExecuteAt(i, tx);
        if r.Err? {
          assert Replicas() == prior;
          ReachedEnd(Hashings(), before, tx, i, prior, results);
          return results, false;
        }
        ReachedNext(Hashings(), before, tx, i, prior, results);
        results := results + [r.value];
      }
      completed := true;
      ReachedEnd(Hashings(), before, tx, |nodes|, Replicas(), results);
    }

    ghost function Events(): Option<seq<AuditEvent>>
      reads audit
    {
      if audit == null then None else Some(audit.events)
    }

    /** The vote over collected results, appended to history and audit log. */
    method Conclude(now: int, tx: Transaction, results: seq<NodeResult>) returns (entry: HistoryEntry)
      modifies this, audit, if audit == null then null else audit.store
      ensures entry == HistoryEntry(tx, results, Decide(results, publicKeys, DEFAULT_QUORUM_THRESHOLD))
      ensures history == old(history) + [entry]
      ensures Events() == if audit == null then None else Some(Recorded(old(audit.events), now, tx, results, entry.outcome))
    {
      var cr := RunConsensus(results, publicKeys, DEFAULT_QUORUM_THRESHOLD);
      entry := HistoryEntry(tx, results, cr);
      history := history + [entry];
      if audit != null {
        var _ := audit.Record(now, tx, results, cr);
      }
    }

    /** The same, seen as a step of the whole network. */
    method Vote(now: int, tx: Transaction, results: seq<NodeResult>) returns (entry: HistoryEntry)
      modifies this, audit, if audit == null then null else audit.store
      ensures View() == Voted(Sweep(old(Replicas()), results, true), publicKeys, old(View()), now, tx)
      ensures history == old(history) + [entry]
    {
      ghost var replicas := Replicas();
      entry := Conclude(now, tx, results);
      assert Replicas() == replicas;
    }

    /** `broadcast`; `None` when a node refused the transaction and the error went through. */
    method Broadcast(now: int, tx: Transaction) returns (round: Option<HistoryEntry>)
      requires Valid()
      modifies this, Managers(), audit, if audit == null then null else audit.store
      ensures View() == BroadcastStep(Hashings(), publicKeys, old(View()), now, tx)
      ensures history == old(history) + if round.Some? then [round.value] else []
    {
      ghost var events := Events();
      var results, completed := Collect(tx);
      assert Events() == events;
      if !completed {
        return None;
      }
      var entry := Vote(now, tx, results);
      round := Some(entry);
    }
  }
}
