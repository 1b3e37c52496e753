/**
  Submitting transactions: lifecycle records, audit log, billing and event
  topics, fed by requests that suspend at the broadcast and may overlap.
 */
module Api {
  import opened Wrappers
  import opened LedgerState
  import opened Nodes
  import opened Consensus
  import opened Audit
  import opened Network
  import opened P2PNetwork
  import opened Stream
  import opened Billing
  import opened Lifecycle

  /** A request waiting for its broadcast: its transaction and its record. */
  datatype Suspended = Suspended(tx: Transaction, rec: TransactionRecord)

  /** A successful response: the audit event and the final record. */
  datatype TxResponse = TxResponse(event: AuditEvent, rec: TransactionRecord)

  /** Full logs of the two topics. */
  datatype Topics = Topics(transactions: seq<AuditEvent>, faults: seq<AuditEvent>)

  datatype ApiState = ApiState(
    net: P2PState,
    store: map<string, TransactionRecord>,
    suspended: map<string, Suspended>,
    books: Option<Books>,
    topics: Option<Topics>,
    responses: map<string, TxResponse>)

  /** Clock, billing period and tier at the moment the broadcast returns. */
  datatype Moment = Moment(now: int, period: string, tier: Tier)

  // ------------------------------------------------------------------
  // Specification: the two halves of a request
  // ------------------------------------------------------------------

  /** The record as stored when the request suspends. */
  function PendingRecord(txId: string, nodeCount: int, now: int): TransactionRecord {
    NewRecord("", txId, nodeCount, now).(state := ConsensusPending)
  }

  function BeginStep(s: ApiState, txId: string, tx: Transaction, now: int): ApiState {
    var rec := PendingRecord(txId, |s.net.replicas|, now);
    s.(store := s.store[txId := rec], suspended := s.suspended[txId := Suspended(tx, rec)])
  }

  /** The record of a round that was recorded, billed and replicated. */
  function FinalRecord(rec: TransactionRecord, results: seq<NodeResult>, cr: ConsensusResult, now: int, billed: int): TransactionRecord {
    rec.(state := Replicated,
         consensusReached := cr.consensusReached,
         faultCount := |cr.faultyNodes|,
         nodeCount := |results| + |cr.faultyNodes|,
         finalizedAt := Some(now),
         durationMs := Max(0, now - rec.createdAt),
         billedAmount := billed)
  }

  function ChargeFor(rec: TransactionRecord, results: seq<NodeResult>, cr: ConsensusResult, m: Moment): Charge {
    Charge(rec.tenantId, rec.txId, m.period, m.tier, |results| + |cr.faultyNodes|, cr.consensusReached, m.now)
  }

  function PublishRound(t: Topics, e: AuditEvent): Topics {
    Topics(t.transactions + [e], if e.HasFault() then t.faults + [e] else t.faults)
  }

  /** The rest of a request once its round is in history: finalize, bill, replicate, publish, respond. */
  function SettleStep(s: ApiState, req: Suspended, round: HistoryEntry, event: AuditEvent, m: Moment): ApiState {
    var charge := ChargeFor(req.rec, round.results, round.outcome, m);
    var billed := if s.books.Some? then ComputeBilledAmount(charge.nodeCount, m.tier) else req.rec.billedAmount;
    var rec := FinalRecord(req.rec, round.results, round.outcome, m.now, billed);
    s.(store := s.store[req.rec.txId := rec],
       books := if s.books.Some? then Some(BookCharge(s.books.value, charge)) else None,
       topics := if s.topics.Some? then Some(PublishRound(s.topics.value, event)) else None,
       responses := s.responses[req.rec.txId := TxResponse(event, rec)])
  }

  /** The broadcast returns: the network's logs move and the request leaves its await point. */
  ghost function ReturnStep(cfg: Config, keys: map<string, nat>, s: ApiState, txId: string, contacts: seq<Contact>, now: int): ApiState
    requires txId in s.suspended
  {
    s.(net := ConcludeRound(cfg, keys, s.net, now, s.suspended[txId].tx, contacts), suspended := s.suspended - {txId})
  }

  /** Too few answers, or none at all, end the request with status 422. */
  predicate Ends422(cfg: Config, contacts: seq<Contact>) {
    |Answers(contacts)| < cfg.minResponses || Answers(contacts) == []
  }

  /** The second half of a request. */
  ghost function FinishStep(cfg: Config, keys: map<string, nat>, s: ApiState, txId: string, contacts: seq<Contact>, m: Moment): ApiState
    requires txId in s.suspended && s.net.events.Some?
  {
    var t := ReturnStep(cfg, keys, s, txId, contacts, m.now);
    if Ends422(cfg, contacts) then t
    else SettleStep(t, s.suspended[txId], t.net.history[|t.net.history| - 1], t.net.events.value[|t.net.events.value| - 1], m)
  }

  // ------------------------------------------------------------------
  // Implementation
  // ------------------------------------------------------------------

  class Gateway {
    const network: P2PNetwork
    const audit: AuditLog
    const tracker: BillingTracker?
    const bus: EventBus?<AuditEvent>
    var txStore: map<string, TransactionRecord>
    /** Requests at their await point. */
    var suspended: map<string, Suspended>
    var responses: map<string, TxResponse>

    ghost predicate Valid()
      reads bus
    {
      network.audit == audit && (bus != null ==> bus.Valid())
    }

    ghost function Books(): Option<Books>
      reads if tracker == null then {} else {tracker.mem, tracker.ledger, tracker.sla}
    {
      if tracker == null then None else Some(tracker.View())
    }

    ghost function TopicLogs(): Option<Topics>
      reads bus
      requires Valid()
    {
      if bus == null then None else Some(Topics(bus.log[TransactionsTopic], bus.log[FaultsTopic]))
    }

    ghost function View(): ApiState
      reads this, network, network.registry, network.audit, bus
      reads if tracker == null then {} else {tracker.mem, tracker.ledger, tracker.sla}
      requires Valid()
    {
      ApiState(network.View(), txStore, suspended, Books(), TopicLogs(), responses)
    }

    constructor (network: P2PNetwork, audit: AuditLog, tracker: BillingTracker?, bus: EventBus?<AuditEvent>)
      requires network.audit == audit && (bus != null ==> bus.Valid())
      ensures Valid() && this.network == network && this.audit == audit && this.tracker == tracker && this.bus == bus
      ensures txStore == map[] && suspended == map[] && responses == map[]
    {
      this.network := network;
      this.audit := audit;
      this.tracker := tracker;
      this.bus := bus;
      txStore, suspended, responses := map[], map[], map[];
    }

    method SaveTxRecord(rec: TransactionRecord)
      modifies this`txStore
      ensures txStore == old(txStore)[rec.txId := rec]
    {
      txStore := txStore[rec.txId := rec];
    }

    /** `transition`, asked only for the next stage, does not raise. */
    static method Step(rec: TransactionRecord, s: TxState, now: int) returns (next: TransactionRecord)
      requires Stage(s) == Stage(rec.state) + 1
      ensures next == Moved(rec, s, now)
    {
      GrantedExactly(rec, s, now);
      next := Transition(rec, s, now).value;
    }

    /** Advances a record and stores it. */
    method Advance(rec: TransactionRecord, s: TxState, now: int) returns (next: TransactionRecord)
      requires Stage(s) == Stage(rec.state) + 1
      modifies this`txStore
      ensures next == Moved(rec, s, now)
      ensures txStore == old(txStore)[rec.txId := next]
    {
      next := Step(rec, s, now);
      SaveTxRecord(next);
    }

    /** INITIATED to CONSENSUS_PENDING, each stage stored. */
    method Open(txId: string, nodeCount: int, now: int) returns (rec: TransactionRecord)
      modifies this`txStore
      ensures rec == PendingRecord(txId, nodeCount, now)
      ensures txStore == old(txStore)[txId := rec]
    {
      rec := NewRecord("", txId, nodeCount, now);
      SaveTxRecord(rec);
      rec := Advance(rec, Executing, now);
      rec := Advance(rec, Proposed, now);
      rec := Advance(rec, ConsensusPending, now);
    }

    /** `submit_transaction` up to `await net.broadcast(tx)`; `txId` is the fresh UUID. */
    method BeginSubmit(txId: string, tx: Transaction, now: int)
      requires Valid()
      modifies this
      ensures View() == BeginStep(old(View()), txId, tx, now)
    {
      var rec := Open(txId, |network.replicas|, now);
      suspended := suspended[txId := Suspended(tx, rec)];
    }

    /** Bills the record's round, if billing is initialised. */
    method Bill(rec: TransactionRecord, m: Moment) returns (billed: TransactionRecord)
      modifies if tracker == null then {} else {tracker.mem, tracker.ledger, tracker.sla}
      ensures
        var charge := Charge(rec.tenantId, rec.txId, m.period, m.tier, rec.nodeCount, rec.consensusReached, m.now);
        Books() == if tracker == null then None else Some(BookCharge(old(Books()).value, charge))
      ensures billed == if tracker == null then rec else rec.(billedAmount := ComputeBilledAmount(rec.nodeCount, m.tier))
    {
      billed := rec;
      if tracker != null {
        var amount := tracker.RecordRound(rec.tenantId, rec.txId, rec.nodeCount, rec.consensusReached, m.period, m.tier, m.now);
        billed := rec.(billedAmount := amount);
      }
    }

    /** FINALIZED, BILLED and REPLICATED, each stage stored, with billing in between. */
    method FinalizeAndBill(req: Suspended, round: HistoryEntry, m: Moment) returns (rec: TransactionRecord)
      requires req.rec.state.ConsensusPending?
      modifies this`txStore
      modifies if tracker == null then {} else {tracker.mem, tracker.ledger, tracker.sla}
      ensures
        var charge := ChargeFor(req.rec, round.results, round.outcome, m);
        && Books() == (if tracker == null then None else Some(BookCharge(old(Books()).value, charge)))
        && rec == FinalRecord(req.rec, round.results, round.outcome, m.now,
                              if tracker == null then req.rec.billedAmount else ComputeBilledAmount(charge.nodeCount, m.tier))
      ensures txStore == old(txStore)[req.rec.txId := rec]
    {
      hide BookCharge, ComputeBilledAmount;
      rec := req.rec.(
        consensusReached := round.outcome.consensusReached,
        faultCount := |round.outcome.faultyNodes|,
        nodeCount := |round.results| + |round.outcome.faultyNodes|);
      rec := Advance(rec, Finalized, m.now);
      rec := Step(rec, BilledState, m.now);
      rec := Bill(rec, m);
      rec := Replicate(rec, m.now);
    }

    /** The billed record and then the replicated one are stored. */
    method Replicate(billed: TransactionRecord, now: int) returns (rec: TransactionRecord)
      requires billed.state.BilledState?
      modifies this`txStore
      ensures rec == billed.(state := Replicated)
      ensures txStore == old(txStore)[billed.txId := rec]
    {
      SaveTxRecord(billed);
      rec := Advance(billed, Replicated, now);
    }

    /** Lifecycle, billing and response after a recorded round. */
    method Respond(req: Suspended, round: HistoryEntry, event: AuditEvent, m: Moment)
      requires Valid() && req.rec.state.ConsensusPending?
      modifies this`txStore, this`responses
      modifies if tracker == null then {} else {tracker.mem, tracker.ledger, tracker.sla}
      ensures View() == SettleStep(old(View()), req, round, event, m).(topics := old(TopicLogs()))
    {
      hide BookCharge;
      ghost var net, topics := network.View(), TopicLogs();
      var rec := FinalizeAndBill(req, round, m);
      assert network.View() == net && TopicLogs() == topics;
      responses := responses[rec.txId := TxResponse(event, rec)];
    }

    method PublishEvent(event: AuditEvent)
      requires Valid()
      modifies bus
      ensures Valid()
      ensures View() == old(View()).(topics := if bus == null then None else Some(PublishRound(old(TopicLogs()).value, event)))
    {
      if bus == null {
        return;
      }
      var _ := bus.Publish(TransactionsTopic, event);
      if event.HasFault() {
        var _ := bus.Publish(FaultsTopic, event);
      }
    }

    /** The same, and the event goes to the topics. */
    method Settle(req: Suspended, round: HistoryEntry, event: AuditEvent, m: Moment)
      requires Valid() && req.rec.state.ConsensusPending?
      modifies this`txStore, this`responses, bus
      modifies if tracker == null then {} else {tracker.mem, tracker.ledger, tracker.sla}
      ensures Valid()
      ensures View() == SettleStep(old(View()), req, round, event, m)
    {
      Respond(req, round, event, m);
      PublishEvent(event);
    }

    /** The return from `await net.broadcast(tx)`; `None` is the status 422. */
    method Resume(txId: string, contacts: seq<Contact>, now: int) returns (round: Option<HistoryEntry>)
      requires Valid() && txId in suspended
      modifies this`suspended, network, network.registry, audit, audit.store
      ensures Valid()
      ensures View() == ReturnStep(network.config, network.publicKeys, old(View()), txId, contacts, now)
      ensures round.None? <==> Ends422(network.config, contacts)
      ensures round.Some? ==>
                && network.history != [] && round.value == network.history[|network.history| - 1]
                && audit.events != []
    {
      ghost var books, topics := Books(), TopicLogs();
      var tx := suspended[txId].tx;
      suspended := suspended - {txId};
      round := network.Conclude(now, tx, contacts);
      assert Books() == books && TopicLogs() == topics;
      assert network.Events() == Some(audit.events);
      if round.Some? && round.value.results == [] {
        round := None;
      }
    }

    /** `submit_transaction` from the return of the broadcast on. */
    method FinishSubmit(txId: string, contacts: seq<Contact>, m: Moment)
      requires Valid() && txId in suspended && suspended[txId].rec.state.ConsensusPending?
      modifies this, network, network.registry, audit, audit.store, bus
      modifies if tracker == null then {} else {tracker.mem, tracker.ledger, tracker.sla}
      ensures Valid()
      ensures View() == FinishStep(network.config, network.publicKeys, old(View()), txId, contacts, m)
    {
      hide ConcludeRound, SettleStep, Ends422;
      ghost var s := View();
      var req := suspended[txId];
      var round := Resume(txId, contacts, m.now);
      ghost var t := View();
      assert t == ReturnStep(network.config, network.publicKeys, s, txId, contacts, m.now);
      if round.None? {
        return;
      }
      var event := audit.GetEvent(|audit.events|);
      assert round.value == t.net.history[|t.net.history| - 1];
      assert event.value == t.net.events.value[|t.net.events.value| - 1];
      Settle(req, round.value, event.value, m);
    }
  }
}
