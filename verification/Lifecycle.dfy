/** The lifecycle of a transaction record. */
module Lifecycle {
  import opened Wrappers

  datatype TxState = Initiated | Executing | Proposed | ConsensusPending | Finalized | BilledState | Replicated

  datatype TransactionRecord = TransactionRecord(
    txId: string,
    tenantId: string,
    state: TxState,
    nodeCount: int,
    consensusReached: bool,
    faultCount: int,
    durationMs: int,
    billedAmount: int,
    createdAt: int,
    finalizedAt: Option<int>)

  datatype LifecycleError = InvalidTransition

  /** `_VALID_TRANSITIONS` */
  function ValidTransitions(s: TxState): set<TxState> {
    match s
    case Initiated => {Executing}
    case Executing => {Proposed}
    case Proposed => {ConsensusPending}
    case ConsensusPending => {Finalized}
    case Finalized => {BilledState}
    case BilledState => {Replicated}
    case Replicated => {}
  }

  function NewRecord(tenantId: string, txId: string, nodeCount: int, now: int): TransactionRecord {
    TransactionRecord(txId, tenantId, Initiated, nodeCount, false, 0, 0, 0, now, None)
  }

  /** A new record in the new state; finalizing stamps time and duration (milliseconds). */
  function Moved(r: TransactionRecord, s: TxState, now: int): TransactionRecord {
    if s.Finalized?
    then r.(state := s, finalizedAt := Some(now), durationMs := if now - r.createdAt > 0 then now - r.createdAt else 0)
    else r.(state := s)
  }

  function Transition(r: TransactionRecord, s: TxState, now: int): Result<TransactionRecord, LifecycleError> {
    if s !in ValidTransitions(r.state) then Err(InvalidTransition) else Ok(Moved(r, s, now))
  }

  /** Position in the lifecycle. */
  function Stage(s: TxState): nat {
    match s
    case Initiated => 0
    case Executing => 1
    case Proposed => 2
    case ConsensusPending => 3
    case Finalized => 4
    case BilledState => 5
    case Replicated => 6
  }

  datatype Request = Request(state: TxState, now: int)

  /** Requested transitions one after the other; an invalid one raises and changes nothing. */
  function Requested(r: TransactionRecord, requests: seq<Request>): TransactionRecord
    decreases |requests|
  {
    if requests == [] then r
    else
      var t := Transition(r, requests[0].state, requests[0].now);
      Requested(if t.Ok? then t.value else r, requests[1..])
  }

  function Granted(r: TransactionRecord, requests: seq<Request>): nat
    decreases |requests|
  {
    if requests == [] then 0
    else
      var t := Transition(r, requests[0].state, requests[0].now);
      if t.Ok? then 1 + Granted(t.value, requests[1..]) else Granted(r, requests[1..])
  }

  /** The record is stamped exactly from FINALIZED on. */
  predicate Stamped(r: TransactionRecord) {
    (r.finalizedAt.Some? <==> Stage(r.state) >= Stage(Finalized)) && r.durationMs >= 0
  }

  /**
    Whatever is requested, a record moves along the one lifecycle, one stage
    per granted request, never back, keeping its identity and its outcome.
   */
  lemma {:induction false} LifecycleIsLinear(r: TransactionRecord, requests: seq<Request>)
    requires Stamped(r)
    ensures
      var end := Requested(r, requests);
      && Stage(end.state) == Stage(r.state) + Granted(r, requests)
      && Stamped(end)
      && (r.finalizedAt.Some? ==> end.finalizedAt == r.finalizedAt && end.durationMs == r.durationMs)
      && end.txId == r.txId && end.tenantId == r.tenantId && end.createdAt == r.createdAt
      && end.nodeCount == r.nodeCount && end.consensusReached == r.consensusReached
      && end.faultCount == r.faultCount && end.billedAmount == r.billedAmount
    decreases |requests|
  {
    if requests != [] {
      var t := Transition(r, requests[0].state, requests[0].now);
      LifecycleIsLinear(if t.Ok? then t.value else r, requests[1..]);
    }
  }

  /** The stamps of a finalized record are those of the request that finalized it. */
  lemma {:induction false} StampsOfFinalization(r: TransactionRecord, requests: seq<Request>)
    requires Stamped(r) && r.finalizedAt.None?
    ensures
      var end := Requested(r, requests);
      end.finalizedAt.Some? ==>
        && (exists k :: 0 <= k < |requests| && requests[k] == Request(Finalized, end.finalizedAt.value))
        && end.durationMs == (if end.finalizedAt.value > r.createdAt then end.finalizedAt.value - r.createdAt else 0)
    decreases |requests|
  {
    if requests != [] {
      var t := Transition(r, requests[0].state, requests[0].now);
      var next := if t.Ok? then t.value else r;
      var end := Requested(r, requests);
      if next.finalizedAt.Some? {
        LifecycleIsLinear(next, requests[1..]);
        assert requests[0] == Request(Finalized, end.finalizedAt.value);
      } else {
        StampsOfFinalization(next, requests[1..]);
        if end.finalizedAt.Some? {
          var k :| 0 <= k < |requests[1..]| && requests[1..][k] == Request(Finalized, end.finalizedAt.value);
          assert requests[k + 1] == requests[1..][k];
        }
      }
    }
  }

  /** A request is granted exactly when it names the next stage. */
  lemma GrantedExactly(r: TransactionRecord, s: TxState, now: int)
    ensures Transition(r, s, now).Ok? <==> Stage(s) == Stage(r.state) + 1
    ensures Transition(r, s, now).Ok? <==>
      (r.state, s) in {(Initiated, Executing), (Executing, Proposed), (Proposed, ConsensusPending),
                       (ConsensusPending, Finalized), (Finalized, BilledState), (BilledState, Replicated)}
  {
  }
}
