/**
  Records, audit log, ledger and topics agree under every interleaving of
  requests at their await points.
 */
module ApiSafety {
  import opened Wrappers
  import opened Sequences
  import opened LedgerState
  import opened Nodes
  import opened Consensus
  import opened Audit
  import opened Network
  import opened P2PNetwork
  import opened Billing
  import opened Lifecycle
  import opened Api

  /** A request starts, or the broadcast of a suspended one returns with whatever came back. */
  datatype ApiOp =
    | Begin(txId: string, tx: Transaction, now: int)
    | Finish(txId: string, contacts: seq<Contact>, moment: Moment)

  /** UUIDs are fresh, and only suspended requests resume; anything else is no step. */
  ghost function ApiStep(cfg: Config, keys: map<string, nat>, s: ApiState, op: ApiOp): ApiState
    requires s.net.events.Some?
  {
    match op
    case Begin(txId, tx, now) => if txId in s.store then s else BeginStep(s, txId, tx, now)
    case Finish(txId, contacts, m) => if txId in s.suspended then FinishStep(cfg, keys, s, txId, contacts, m) else s
  }

  ghost function ApiRun(cfg: Config, keys: map<string, nat>, s: ApiState, ops: seq<ApiOp>): (end: ApiState)
    requires s.net.events.Some?
    ensures end.net.events.Some?
    decreases |ops|
  {
    if ops == [] then s else ApiRun(cfg, keys, ApiStep(cfg, keys, s, ops[0]), ops[1..])
  }

  // ------------------------------------------------------------------
  // What the logs say about each other
  // ------------------------------------------------------------------

  const HAS_VOTES: AuditEvent -> bool := (e: AuditEvent) => e.votes != []

  /** A ledger entry bills the round of an audit event. */
  predicate BillsRound(entry: LedgerEntry, e: AuditEvent) {
    && entry.tenantId == ""
    && entry.consensusReached == e.consensusReached
    && entry.nodeRoundCount == |e.votes| + |e.faultyNodes|
  }

  /** A ledger entry is the bill of a replicated record. */
  predicate BillsRecord(entry: LedgerEntry, store: map<string, TransactionRecord>) {
    && entry.txId in store
    && var rec := store[entry.txId];
       && rec.state.Replicated? && rec.billedAmount == entry.billedAmount
       && rec.nodeCount == entry.nodeRoundCount && rec.consensusReached == entry.consensusReached
  }

  predicate HasBill(entries: seq<LedgerEntry>, txId: string) {
    exists k :: 0 <= k < |entries| && entries[k].txId == txId
  }

  /** Records stand at their await point or at the end; suspended requests own theirs. */
  predicate RecordsSettled(s: ApiState) {
    && (forall id :: id in s.store ==> s.store[id].txId == id && s.store[id].tenantId == "")
    && (forall id :: id in s.store ==> s.store[id].state in {ConsensusPending, Replicated})
    && (forall id :: id in s.suspended ==> id in s.store && s.store[id] == s.suspended[id].rec && s.store[id].state == ConsensusPending)
  }

  /** Ledger entries and replicated records correspond one to one. */
  predicate LedgerMatchesRecords(s: ApiState) {
    s.books.Some? ==>
      var entries := s.books.value.entries;
      && (forall k :: 0 <= k < |entries| ==> BillsRecord(entries[k], s.store))
      && (forall j, k :: 0 <= j < k < |entries| ==> entries[j].txId != entries[k].txId)
      && (forall id :: id in s.store && s.store[id].state == Replicated ==> HasBill(entries, id))
  }

  /** Ledger entries and published events correspond in order. */
  predicate LedgerMatchesAudit(s: ApiState) {
    s.net.events.Some? && s.books.Some? ==>
      var (entries, rounds) := (s.books.value.entries, Filter(HAS_VOTES, s.net.events.value));
      |entries| == |rounds| && forall k :: 0 <= k < |entries| ==> BillsRound(entries[k], rounds[k])
  }

  /** Topics carry the audited rounds that had votes, and of those the ones with a fault. */
  predicate TopicsMatchAudit(s: ApiState) {
    s.net.events.Some? && s.topics.Some? ==>
      && s.topics.value.transactions == Filter(HAS_VOTES, s.net.events.value)
      && s.topics.value.faults == Filter(FAULTY, s.topics.value.transactions)
  }

  /** A final record reports the outcome of the event. */
  predicate ReportsEvent(rec: TransactionRecord, e: AuditEvent) {
    && rec.state == Replicated && rec.finalizedAt == Some(e.timestamp)
    && rec.consensusReached == e.consensusReached
    && rec.faultCount == |e.faultyNodes|
    && rec.nodeCount == |e.votes| + |e.faultyNodes|
  }

  /** Each response carries the audited event it waited for, and its stored record reports it. */
  predicate ResponsesMatch(s: ApiState) {
    forall id :: id in s.responses ==>
      && id in s.store && s.store[id] == s.responses[id].rec
      && ReportsEvent(s.responses[id].rec, s.responses[id].event)
      && s.net.events.Some? && s.responses[id].event in s.net.events.value
  }

  predicate Consistent(s: ApiState) {
    && s.net.events.Some?
    && RecordsSettled(s)
    && LedgerMatchesRecords(s)
    && LedgerMatchesAudit(s)
    && TopicsMatchAudit(s)
    && ResponsesMatch(s)
  }

  // ------------------------------------------------------------------
  // Steps
  // ------------------------------------------------------------------

  lemma BeginKeeps(s: ApiState, txId: string, tx: Transaction, now: int)
    requires Consistent(s) && txId !in s.store
    ensures Consistent(BeginStep(s, txId, tx, now))
  {
    var t := BeginStep(s, txId, tx, now);
    if s.books.Some? {
      var entries := s.books.value.entries;
      forall k | 0 <= k < |entries| ensures BillsRecord(entries[k], t.store) {
        assert BillsRecord(entries[k], s.store);
      }
    }
  }

  /** What the network's logs gain when a broadcast returns. */
  lemma {:induction false} RoundAdds(cfg: Config, keys: map<string, nat>, net: P2PState, now: int, tx: Transaction, contacts: seq<Contact>)
    requires net.events.Some?
    ensures
      var next := ConcludeRound(cfg, keys, net, now, tx, contacts);
      var results := Answers(contacts);
      if |results| < cfg.minResponses then next.events == net.events && next.history == net.history
      else
        var cr := Decide(results, keys, cfg.threshold);
        var e := MakeEvent(|net.events.value| + 1, now, tx, results, cr);
        && next.events == Some(net.events.value + [e]) && next.history == net.history + [HistoryEntry(tx, results, cr)]
        && |e.votes| == |results| && e.transaction == tx && e.timestamp == now
        && Filter(HAS_VOTES, next.events.value) == Filter(HAS_VOTES, net.events.value) + (if results == [] then [] else [e])
  {
    var results := Answers(contacts);
    if |results| >= cfg.minResponses {
      var e := MakeEvent(|net.events.value| + 1, now, tx, results, Decide(results, keys, cfg.threshold));
      FilterAppend(HAS_VOTES, net.events.value, e);
    }
  }

  lemma ReturnKeeps422(cfg: Config, keys: map<string, nat>, s: ApiState, txId: string, contacts: seq<Contact>, now: int)
    requires Consistent(s) && txId in s.suspended && Ends422(cfg, contacts)
    ensures Consistent(ReturnStep(cfg, keys, s, txId, contacts, now))
  {
    RoundAdds(cfg, keys, s.net, now, s.suspended[txId].tx, contacts);
    var t := ReturnStep(cfg, keys, s, txId, contacts, now);
    assert Filter(HAS_VOTES, t.net.events.value) == Filter(HAS_VOTES, s.net.events.value);
  }

  lemma SettleLedger(s: ApiState, t: ApiState, req: Suspended, charge: Charge, rec: TransactionRecord)
    requires LedgerMatchesRecords(s) && s.books.Some?
    requires req.rec.txId in s.store && s.store[req.rec.txId].state == ConsensusPending
    requires charge.txId == req.rec.txId == rec.txId && rec.state == Replicated
    requires rec.nodeCount == charge.nodeCount && rec.consensusReached == charge.reached
    requires rec.billedAmount == ComputeBilledAmount(charge.nodeCount, charge.tier)
    requires t.books == Some(BookCharge(s.books.value, charge)) && t.store == s.store[rec.txId := rec]
    ensures LedgerMatchesRecords(t)
  {
    var before, after := s.books.value.entries, t.books.value.entries;
    var n := |before|;
    assert after[n].txId == rec.txId;
    forall k | 0 <= k < n ensures BillsRecord(after[k], t.store) && after[k].txId != rec.txId {
      assert after[k] == before[k] && BillsRecord(before[k], s.store);
    }
    forall id | id in t.store && t.store[id].state == Replicated ensures HasBill(after, id) {
      if id != rec.txId {
        var k :| 0 <= k < |before| && before[k].txId == id;
        assert after[k].txId == id;
      }
    }
  }

  lemma PublishKeepsFaults(t: Topics, e: AuditEvent)
    requires t.faults == Filter(FAULTY, t.transactions)
    ensures PublishRound(t, e).faults == Filter(FAULTY, PublishRound(t, e).transactions)
  {
    FilterAppend(FAULTY, t.transactions, e);
  }

  /** A settled request: the published event is the one of its own round. */
  lemma SettleKeeps(s: ApiState, net: P2PState, req: Suspended, round: HistoryEntry, event: AuditEvent, m: Moment)
    requires Consistent(s) && req.rec.txId in s.suspended && s.suspended[req.rec.txId] == req
    requires net.events == Some(s.net.events.value + [event])
    requires Filter(HAS_VOTES, net.events.value) == Filter(HAS_VOTES, s.net.events.value) + [event]
    requires |event.votes| == |round.results| && event.faultyNodes == round.outcome.faultyNodes
    requires event.consensusReached == round.outcome.consensusReached && event.timestamp == m.now
    ensures Consistent(SettleStep(s.(net := net, suspended := s.suspended - {req.rec.txId}), req, round, event, m))
  {
    var id := req.rec.txId;
    var mid := s.(net := net, suspended := s.suspended - {id});
    var t := SettleStep(mid, req, round, event, m);
    var charge := ChargeFor(req.rec, round.results, round.outcome, m);
    SettleRecords(s, t, req);
    if s.books.Some? {
      SettleLedger(s, t, req, charge, t.store[id]);
      SettleAudit(s, t, charge, event);
    }
    if s.topics.Some? {
      PublishKeepsFaults(s.topics.value, event);
    }
    SettleResponses(s, t, req, event);
  }

  lemma SettleRecords(s: ApiState, t: ApiState, req: Suspended)
    requires RecordsSettled(s) && req.rec.txId in s.suspended && s.suspended[req.rec.txId] == req
    requires t.suspended == s.suspended - {req.rec.txId}
    requires req.rec.txId in t.store && t.store == s.store[req.rec.txId := t.store[req.rec.txId]]
    requires t.store[req.rec.txId].state == Replicated && t.store[req.rec.txId].txId == req.rec.txId
    requires t.store[req.rec.txId].tenantId == req.rec.tenantId
    ensures RecordsSettled(t)
  {
  }

  lemma SettleAudit(s: ApiState, t: ApiState, charge: Charge, event: AuditEvent)
    requires LedgerMatchesAudit(s) && s.net.events.Some? && t.net.events.Some? && s.books.Some?
    requires t.books == Some(BookCharge(s.books.value, charge))
    requires Filter(HAS_VOTES, t.net.events.value) == Filter(HAS_VOTES, s.net.events.value) + [event]
    requires charge.tenant == "" && charge.reached == event.consensusReached
    requires charge.nodeCount == |event.votes| + |event.faultyNodes|
    ensures LedgerMatchesAudit(t)
  {
  }

  lemma SettleResponses(s: ApiState, t: ApiState, req: Suspended, event: AuditEvent)
    requires ResponsesMatch(s) && s.net.events.Some? && RecordsSettled(s)
    requires req.rec.txId in s.suspended && s.suspended[req.rec.txId] == req
    requires t.net.events == Some(s.net.events.value + [event])
    requires req.rec.txId in t.store && t.store == s.store[req.rec.txId := t.store[req.rec.txId]]
    requires ReportsEvent(t.store[req.rec.txId], event)
    requires t.responses == s.responses[req.rec.txId := TxResponse(event, t.store[req.rec.txId])]
    ensures ResponsesMatch(t)
  {
    assert t.net.events.value[|s.net.events.value|] == event;
  }

  lemma SettledKeeps(cfg: Config, keys: map<string, nat>, s: ApiState, txId: string, contacts: seq<Contact>, m: Moment)
    requires Consistent(s) && txId in s.suspended && !Ends422(cfg, contacts)
    ensures Consistent(FinishStep(cfg, keys, s, txId, contacts, m))
  {
    var req := s.suspended[txId];
    RoundAdds(cfg, keys, s.net, m.now, req.tx, contacts);
    var net := ConcludeRound(cfg, keys, s.net, m.now, req.tx, contacts);
    assert req.rec.txId == txId;
    SettleKeeps(s, net, req, net.history[|net.history| - 1], net.events.value[|net.events.value| - 1], m);
  }

  lemma FinishKeeps(cfg: Config, keys: map<string, nat>, s: ApiState, txId: string, contacts: seq<Contact>, m: Moment)
    requires Consistent(s) && txId in s.suspended
    ensures Consistent(FinishStep(cfg, keys, s, txId, contacts, m))
  {
    if Ends422(cfg, contacts) {
      ReturnKeeps422(cfg, keys, s, txId, contacts, m.now);
    } else {
      SettledKeeps(cfg, keys, s, txId, contacts, m);
    }
  }

  /** Who is answered when a broadcast returns, and about which transaction. */
  lemma FinishAnswers(cfg: Config, keys: map<string, nat>, s: ApiState, txId: string, contacts: seq<Contact>, m: Moment)
    requires s.net.events.Some? && txId in s.suspended && s.suspended[txId].rec.txId == txId
    ensures
      var t := FinishStep(cfg, keys, s, txId, contacts, m);
      if Ends422(cfg, contacts) then t.responses == s.responses else
      txId in t.responses && t.responses == s.responses[txId := t.responses[txId]]
      && t.responses[txId].event.transaction == s.suspended[txId].tx
  {
    RoundAdds(cfg, keys, s.net, m.now, s.suspended[txId].tx, contacts);
  }

  lemma FinishClears(cfg: Config, keys: map<string, nat>, s: ApiState, txId: string, contacts: seq<Contact>, m: Moment)
    requires s.net.events.Some? && txId in s.suspended && s.suspended[txId].rec.txId == txId && txId in s.store
    requires s.store[txId] == s.suspended[txId].rec
    ensures FinishStep(cfg, keys, s, txId, contacts, m).suspended == s.suspended - {txId}
    ensures FinishStep(cfg, keys, s, txId, contacts, m).store.Keys == s.store.Keys
    ensures forall id :: id in s.store ==>
              FinishStep(cfg, keys, s, txId, contacts, m).store[id].createdAt == s.store[id].createdAt
  {
  }

  // ------------------------------------------------------------------
  // Whole runs
  // ------------------------------------------------------------------

  lemma StepConsistent(cfg: Config, keys: map<string, nat>, s: ApiState, op: ApiOp)
    requires Consistent(s)
    ensures Consistent(ApiStep(cfg, keys, s, op))
  {
    match op {
      case Begin(txId, tx, now) => if txId !in s.store { BeginKeeps(s, txId, tx, now); }
      case Finish(txId, contacts, m) => if txId in s.suspended { FinishKeeps(cfg, keys, s, txId, contacts, m); }
    }
  }

  lemma {:induction false} AlwaysConsistent(cfg: Config, keys: map<string, nat>, s: ApiState, ops: seq<ApiOp>)
    requires Consistent(s)
    ensures Consistent(ApiRun(cfg, keys, s, ops))
    decreases |ops|
  {
    if ops != [] {
      StepConsistent(cfg, keys, s, ops[0]);
      AlwaysConsistent(cfg, keys, ApiStep(cfg, keys, s, ops[0]), ops[1..]);
    }
  }

  /** What a request was begun with, and when. */
  datatype Submission = Submission(tx: Transaction, now: int)

  function Submitted(ops: seq<ApiOp>, txId: string): Option<Submission> {
    if ops == [] then None
    else if ops[0].Begin? && ops[0].txId == txId then Some(Submission(ops[0].tx, ops[0].now))
    else Submitted(ops[1..], txId)
  }

  /** Records, suspended and answered requests are about what was first submitted under their id. */
  predicate AboutOwn(s: ApiState, about: map<string, Submission>) {
    && about.Keys == s.store.Keys
    && (forall id :: id in s.store ==> s.store[id].createdAt == about[id].now)
    && (forall id :: id in s.suspended ==> id in about && s.suspended[id].tx == about[id].tx)
    && (forall id :: id in s.responses ==> id in about && s.responses[id].event.transaction == about[id].tx)
  }

  ghost function About(about: map<string, Submission>, op: ApiOp): map<string, Submission> {
    if op.Begin? && op.txId !in about then about[op.txId := Submission(op.tx, op.now)] else about
  }

  ghost function AboutAll(about: map<string, Submission>, ops: seq<ApiOp>): map<string, Submission>
    decreases |ops|
  {
    if ops == [] then about else AboutAll(About(about, ops[0]), ops[1..])
  }

  lemma {:induction false} AboutIsSubmitted(about: map<string, Submission>, ops: seq<ApiOp>, txId: string)
    ensures txId in AboutAll(about, ops) ==>
              Some(AboutAll(about, ops)[txId]) == if txId in about then Some(about[txId]) else Submitted(ops, txId)
    decreases |ops|
  {
    if ops != [] {
      AboutIsSubmitted(About(about, ops[0]), ops[1..], txId);
    }
  }

  lemma OwnFinish(s: ApiState, t: ApiState, about: map<string, Submission>, txId: string)
    requires AboutOwn(s, about) && txId in s.suspended && txId in s.store
    requires t.suspended == s.suspended - {txId} && t.store.Keys == s.store.Keys
    requires forall id :: id in s.store ==> t.store[id].createdAt == s.store[id].createdAt
    requires
      || t.responses == s.responses
      || (txId in t.responses && t.responses == s.responses[txId := t.responses[txId]]
          && t.responses[txId].event.transaction == s.suspended[txId].tx)
    ensures AboutOwn(t, about)
  {
  }

  lemma OwnStep(cfg: Config, keys: map<string, nat>, s: ApiState, about: map<string, Submission>, op: ApiOp)
    requires Consistent(s) && AboutOwn(s, about)
    ensures AboutOwn(ApiStep(cfg, keys, s, op), About(about, op))
  {
    if op.Finish? && op.txId in s.suspended {
      assert op.txId in s.store && s.suspended[op.txId].rec.txId == op.txId;
      FinishAnswers(cfg, keys, s, op.txId, op.contacts, op.moment);
      FinishClears(cfg, keys, s, op.txId, op.contacts, op.moment);
      OwnFinish(s, FinishStep(cfg, keys, s, op.txId, op.contacts, op.moment), about, op.txId);
    }
  }

  lemma {:induction false} OwnRun(cfg: Config, keys: map<string, nat>, s: ApiState, about: map<string, Submission>, ops: seq<ApiOp>)
    requires Consistent(s) && AboutOwn(s, about)
    ensures AboutOwn(ApiRun(cfg, keys, s, ops), AboutAll(about, ops))
    decreases |ops|
  {
    if ops != [] {
      OwnStep(cfg, keys, s, about, ops[0]);
      AlwaysConsistent(cfg, keys, s, [ops[0]]);
      assert ApiRun(cfg, keys, s, [ops[0]]) == ApiStep(cfg, keys, s, ops[0]);
      OwnRun(cfg, keys, ApiStep(cfg, keys, s, ops[0]), About(about, ops[0]), ops[1..]);
    }
  }

  /** Fresh logs, with billing and topics initialised or not. */
  predicate FreshStart(s: ApiState) {
    && s.net.history == [] && s.net.events == Some([])
    && s.store == map[] && s.suspended == map[] && s.responses == map[]
    && (s.books.Some? ==> s.books.value == NO_BOOKS)
    && (s.topics.Some? ==> s.topics.value == Topics([], []))
  }

  /**
    Under any interleaving from fresh logs: the logs are consistent, and each
    answered request got the event of the transaction it submitted.
   */
  lemma {:induction false} CrossLogAgreement(cfg: Config, keys: map<string, nat>, s: ApiState, ops: seq<ApiOp>)
    requires FreshStart(s)
    ensures
      var end := ApiRun(cfg, keys, s, ops);
      && Consistent(end)
      && (forall id :: id in end.responses ==>
            Submitted(ops, id).Some? && end.responses[id].event.transaction == Submitted(ops, id).value.tx)
      && (forall id :: id in end.store ==>
            Submitted(ops, id).Some? && end.store[id].createdAt == Submitted(ops, id).value.now)
  {
    assert Consistent(s);
    AlwaysConsistent(cfg, keys, s, ops);
    OwnRun(cfg, keys, s, map[], ops);
    var end := ApiRun(cfg, keys, s, ops);
    forall id | id in end.store || id in end.responses
      ensures Submitted(ops, id) == Some(AboutAll(map[], ops)[id])
    {
      AboutIsSubmitted(map[], ops, id);
    }
  }

  // ------------------------------------------------------------------
  // What a run files, as a function of its operations alone
  // ------------------------------------------------------------------

  /** A request whose broadcast returned with enough answers: its transaction, the answers and the moment. */
  datatype Filing = Filing(txId: string, tx: Transaction, results: seq<NodeResult>, moment: Moment)

  /** Which requests were begun, which of them wait, and what was filed, in order. */
  datatype Desk = Desk(begun: set<string>, waiting: map<string, Transaction>, filed: seq<Filing>)

  const EMPTY_DESK := Desk({}, map[], [])

  /** What a returning broadcast files for its request. */
  function FiledFor(cfg: Config, txId: string, tx: Transaction, contacts: seq<Contact>, m: Moment): seq<Filing> {
    var results := Answers(contacts);
    if results != [] && |results| >= cfg.minResponses then [Filing(txId, tx, results, m)] else []
  }

  function DeskStep(cfg: Config, d: Desk, op: ApiOp): Desk {
    match op
    case Begin(txId, tx, _) =>
      if txId in d.begun then d else d.(begun := d.begun + {txId}, waiting := d.waiting[txId := tx])
    case Finish(txId, contacts, m) =>
      if txId in d.waiting
      then Desk(d.begun, d.waiting - {txId}, d.filed + FiledFor(cfg, txId, d.waiting[txId], contacts, m))
      else d
  }

  function DeskRun(cfg: Config, d: Desk, ops: seq<ApiOp>): Desk
    decreases |ops|
  {
    if ops == [] then d else DeskRun(cfg, DeskStep(cfg, d, ops[0]), ops[1..])
  }

  function FiledIds(filed: seq<Filing>): set<string> {
    set f | f in filed :: f.txId
  }

  /** The audited rounds in which somebody answered. */
  function VotedRounds(s: ApiState): seq<AuditEvent>
    requires s.net.events.Some?
  {
    Filter(HAS_VOTES, s.net.events.value)
  }

  /** The ledger entry of a filing: its request, period and time, at the price of the tier in force. */
  predicate EntryFiled(e: LedgerEntry, f: Filing) {
    && e.txId == f.txId && e.period == f.moment.period && e.recordedAt == f.moment.now
    && e.billedAmount == e.nodeRoundCount * PricePerRmae(f.moment.tier)
  }

  /** The record of a filing: finalized at its moment, with the time since its creation. */
  predicate RecordFiled(rec: TransactionRecord, f: Filing) {
    && rec.state == Replicated && rec.finalizedAt == Some(f.moment.now)
    && rec.durationMs == (if f.moment.now > rec.createdAt then f.moment.now - rec.createdAt else 0)
  }

  /** The audit event of a filing: the vote on its answers. */
  ghost predicate EventFiled(cfg: Config, keys: map<string, nat>, e: AuditEvent, f: Filing) {
    e == MakeEvent(e.roundId, f.moment.now, f.tx, f.results, Decide(f.results, keys, cfg.threshold))
  }

  /** A record at its await point shows nothing of an outcome yet. */
  predicate Untouched(rec: TransactionRecord, nodeCount: nat) {
    rec == TransactionRecord(rec.txId, "", ConsensusPending, nodeCount, false, 0, 0, 0, rec.createdAt, None)
  }

  /** The requests the gateway knows, those that wait, and those that were answered. */
  predicate RequestsKept(s: ApiState, d: Desk) {
    && s.store.Keys == d.begun
    && s.suspended.Keys == d.waiting.Keys
    && (forall id :: id in d.waiting ==> s.suspended[id].tx == d.waiting[id])
    && s.responses.Keys == FiledIds(d.filed)
  }

  /** One ledger entry per filing, in order. */
  predicate LedgerFiled(s: ApiState, filed: seq<Filing>) {
    s.books.Some? ==>
      && |s.books.value.entries| == |filed|
      && forall k :: 0 <= k < |filed| ==> EntryFiled(s.books.value.entries[k], filed[k])
  }

  /** One round with answers per filing, in order, and each request was answered with its own. */
  ghost predicate EventsFiled(cfg: Config, keys: map<string, nat>, s: ApiState, filed: seq<Filing>) {
    s.net.events.Some? &&
    var rounds := VotedRounds(s);
    && |rounds| == |filed|
    && forall k :: 0 <= k < |filed| ==>
         && EventFiled(cfg, keys, rounds[k], filed[k])
         && filed[k].txId in s.responses && s.responses[filed[k].txId].event == rounds[k]
  }

  /** Filed requests have their final records; the records of the others show no outcome. */
  predicate RecordsFiled(s: ApiState, filed: seq<Filing>) {
    && (forall k :: 0 <= k < |filed| ==>
          && filed[k].txId in s.store && filed[k].txId !in s.suspended
          && RecordFiled(s.store[filed[k].txId], filed[k])
          && (s.books.None? ==> s.store[filed[k].txId].billedAmount == 0))
    && (forall id :: id in s.suspended ==> Untouched(s.suspended[id].rec, |s.net.replicas|))
    && (forall id :: id in s.store && id !in FiledIds(filed) ==> Untouched(s.store[id], |s.net.replicas|))
  }

  ghost predicate Filed(cfg: Config, keys: map<string, nat>, s: ApiState, d: Desk) {
    && RequestsKept(s, d)
    && LedgerFiled(s, d.filed)
    && EventsFiled(cfg, keys, s, d.filed)
    && RecordsFiled(s, d.filed)
  }

  lemma BeginFiles(cfg: Config, keys: map<string, nat>, s: ApiState, d: Desk, txId: string, tx: Transaction, now: int)
    requires Filed(cfg, keys, s, d) && txId !in s.store
    ensures Filed(cfg, keys, BeginStep(s, txId, tx, now), DeskStep(cfg, d, Begin(txId, tx, now)))
  {
    hide RecordsFiled, RequestsKept, EntryFiled, EventFiled, Filter;
    BeginRequests(cfg, s, d, txId, tx, now);
    BeginRecords(s, d.filed, txId, tx, now);
  }

  lemma BeginRequests(cfg: Config, s: ApiState, d: Desk, txId: string, tx: Transaction, now: int)
    requires RequestsKept(s, d) && txId !in s.store
    ensures RequestsKept(BeginStep(s, txId, tx, now), DeskStep(cfg, d, Begin(txId, tx, now)))
  {
    hide FiledIds;
  }

  lemma BeginRecords(s: ApiState, filed: seq<Filing>, txId: string, tx: Transaction, now: int)
    requires RecordsFiled(s, filed) && txId !in s.store
    ensures RecordsFiled(BeginStep(s, txId, tx, now), filed)
  {
    hide RecordFiled, FiledIds;
    var t := BeginStep(s, txId, tx, now);
    forall k | 0 <= k < |filed|
      ensures filed[k].txId in t.store && filed[k].txId !in t.suspended && t.store[filed[k].txId] == s.store[filed[k].txId]
    {
    }
  }

  lemma FiledIdsIn(filed: seq<Filing>)
    ensures forall k :: 0 <= k < |filed| ==> filed[k].txId in FiledIds(filed)
    ensures forall id :: id in FiledIds(filed) ==> exists k :: 0 <= k < |filed| && filed[k].txId == id
  {
    forall id | id in FiledIds(filed) ensures exists k :: 0 <= k < |filed| && filed[k].txId == id {
      var f :| f in filed && f.txId == id;
      var k :| 0 <= k < |filed| && filed[k] == f;
    }
  }

  lemma FiledIdsNext(filed: seq<Filing>, f: Filing)
    ensures FiledIds(filed + [f]) == FiledIds(filed) + {f.txId}
  {
    FiledIdsIn(filed);
    FiledIdsIn(filed + [f]);
    forall id | id in FiledIds(filed) ensures id in FiledIds(filed + [f]) {
      var k :| 0 <= k < |filed| && filed[k].txId == id;
      assert (filed + [f])[k] == filed[k];
    }
    assert (filed + [f])[|filed|] == f;
  }

  /** What a request that ends with status 422 leaves. */
  lemma UnsettledEffect(cfg: Config, keys: map<string, nat>, s: ApiState, txId: string, contacts: seq<Contact>, m: Moment)
    requires s.net.events.Some? && txId in s.suspended && Ends422(cfg, contacts)
    ensures
      var t := FinishStep(cfg, keys, s, txId, contacts, m);
      && t.suspended == s.suspended - {txId} && t.store == s.store && t.responses == s.responses && t.books == s.books
      && t.net.replicas == s.net.replicas && t.net.events.Some? && VotedRounds(t) == VotedRounds(s)
  {
    hide Decide, NoteAll, Answers, MakeEvent, Filter;
    RoundAdds(cfg, keys, s.net, m.now, s.suspended[txId].tx, contacts);
  }

  lemma UnsettledFiles(cfg: Config, keys: map<string, nat>, s: ApiState, d: Desk, txId: string, contacts: seq<Contact>, m: Moment)
    requires s.net.events.Some? && Filed(cfg, keys, s, d) && txId in s.suspended && Ends422(cfg, contacts)
    ensures Filed(cfg, keys, FinishStep(cfg, keys, s, txId, contacts, m), DeskStep(cfg, d, Finish(txId, contacts, m)))
  {
    hide EntryFiled, RecordFiled, EventFiled, FiledIds, VotedRounds, FinishStep, Answers;
    UnsettledEffect(cfg, keys, s, txId, contacts, m);
    assert d.filed + FiledFor(cfg, txId, d.waiting[txId], contacts, m) == d.filed;
  }

  /** What a settled request leaves in store, ledger, audit log and answers. */
  predicate Settled(s: ApiState, t: ApiState, f: Filing) {
    && s.net.events.Some? && t.net.events.Some?
    && t.suspended == s.suspended - {f.txId} && t.net.replicas == s.net.replicas
    && f.txId in t.store && t.store == s.store[f.txId := t.store[f.txId]]
    && RecordFiled(t.store[f.txId], f) && (s.books.None? ==> t.store[f.txId].billedAmount == 0)
    && t.books.Some? == s.books.Some?
    && (s.books.Some? ==>
          && |t.books.value.entries| == |s.books.value.entries| + 1 && s.books.value.entries <= t.books.value.entries
          && EntryFiled(t.books.value.entries[|s.books.value.entries|], f))
    && f.txId in t.responses && t.responses == s.responses[f.txId := t.responses[f.txId]]
    && VotedRounds(t) == VotedRounds(s) + [t.responses[f.txId].event]
  }

  lemma EventNumber(roundId: int, now: int, tx: Transaction, results: seq<NodeResult>, cr: ConsensusResult)
    ensures MakeEvent(roundId, now, tx, results, cr).roundId == roundId
  {
  }

  lemma {:induction false} SettledEffect(cfg: Config, keys: map<string, nat>, s: ApiState, txId: string, contacts: seq<Contact>, m: Moment)
    requires s.net.events.Some? && txId in s.suspended && !Ends422(cfg, contacts)
    requires s.suspended[txId].rec.txId == txId && Untouched(s.suspended[txId].rec, |s.net.replicas|)
    ensures
      var t := FinishStep(cfg, keys, s, txId, contacts, m);
      var f := Filing(txId, s.suspended[txId].tx, Answers(contacts), m);
      && Settled(s, t, f)
      && EventFiled(cfg, keys, t.responses[txId].event, f)
  {
    hide Decide, NoteAll, Answers, MakeEvent, Filter;
    RoundAdds(cfg, keys, s.net, m.now, s.suspended[txId].tx, contacts);
    EventNumber(|s.net.events.value| + 1, m.now, s.suspended[txId].tx, Answers(contacts), Decide(Answers(contacts), keys, cfg.threshold));
  }

  lemma SettledFiles(cfg: Config, keys: map<string, nat>, s: ApiState, d: Desk, txId: string, contacts: seq<Contact>, m: Moment)
    requires s.net.events.Some? && RecordsSettled(s) && Filed(cfg, keys, s, d) && txId in s.suspended && !Ends422(cfg, contacts)
    ensures Filed(cfg, keys, FinishStep(cfg, keys, s, txId, contacts, m), DeskStep(cfg, d, Finish(txId, contacts, m)))
  {
    hide LedgerFiled, EventsFiled, Settled, EventFiled, FinishStep, Answers;
    assert s.suspended[txId].rec.txId == txId;
    SettledEffect(cfg, keys, s, txId, contacts, m);
    var f := Filing(txId, s.suspended[txId].tx, Answers(contacts), m);
    FiledNext(cfg, keys, s, FinishStep(cfg, keys, s, txId, contacts, m), d, f);
  }

  lemma FiledNext(cfg: Config, keys: map<string, nat>, s: ApiState, t: ApiState, d: Desk, f: Filing)
    requires Filed(cfg, keys, s, d) && f.txId in s.suspended && f.txId in s.store && Settled(s, t, f)
    requires EventFiled(cfg, keys, t.responses[f.txId].event, f)
    ensures Filed(cfg, keys, t, Desk(d.begun, d.waiting - {f.txId}, d.filed + [f]))
  {
    hide LedgerFiled, EventsFiled, RecordsFiled, EventFiled;
    RequestsNext(s, t, d, f);
    LedgerNext(s, t, d.filed, f);
    EventsNext(cfg, keys, s, t, d.filed, f);
    RecordsNext(s, t, d.filed, f);
  }

  lemma RequestsNext(s: ApiState, t: ApiState, d: Desk, f: Filing)
    requires RequestsKept(s, d) && f.txId in s.suspended && f.txId in s.store && Settled(s, t, f)
    ensures RequestsKept(t, Desk(d.begun, d.waiting - {f.txId}, d.filed + [f]))
  {
    hide EntryFiled, RecordFiled, Filter, FiledIds;
    FiledIdsNext(d.filed, f);
    assert t.suspended.Keys == s.suspended.Keys - {f.txId};
    assert (d.waiting - {f.txId}).Keys == d.waiting.Keys - {f.txId};
  }

  lemma LedgerNext(s: ApiState, t: ApiState, filed: seq<Filing>, f: Filing)
    requires LedgerFiled(s, filed) && Settled(s, t, f)
    ensures LedgerFiled(t, filed + [f])
  {
    hide EntryFiled, RecordFiled, Filter;
    var all := filed + [f];
    forall k | 0 <= k < |all| && s.books.Some? ensures EntryFiled(t.books.value.entries[k], all[k]) {
      if k < |filed| {
        assert t.books.value.entries[k] == s.books.value.entries[k] && all[k] == filed[k];
      }
    }
  }

  lemma EventsNext(cfg: Config, keys: map<string, nat>, s: ApiState, t: ApiState, filed: seq<Filing>, f: Filing)
    requires EventsFiled(cfg, keys, s, filed) && RecordsFiled(s, filed) && f.txId in s.suspended && Settled(s, t, f)
    requires EventFiled(cfg, keys, t.responses[f.txId].event, f)
    ensures EventsFiled(cfg, keys, t, filed + [f])
  {
    hide EntryFiled, RecordFiled, EventFiled, Filter;
    var all, rounds := filed + [f], VotedRounds(t);
    forall k | 0 <= k < |all|
      ensures EventFiled(cfg, keys, rounds[k], all[k])
      ensures all[k].txId in t.responses && t.responses[all[k].txId].event == rounds[k]
    {
      if k < |filed| { assert all[k] == filed[k] && rounds[k] == VotedRounds(s)[k]; }
    }
  }

  lemma RecordsNext(s: ApiState, t: ApiState, filed: seq<Filing>, f: Filing)
    requires RecordsFiled(s, filed) && f.txId in s.suspended && Settled(s, t, f)
    ensures RecordsFiled(t, filed + [f])
  {
    hide EntryFiled, RecordFiled, Filter, FiledIds;
    var all := filed + [f];
    FiledIdsNext(filed, f);
    forall k | 0 <= k < |all|
      ensures all[k].txId in t.store && all[k].txId !in t.suspended && RecordFiled(t.store[all[k].txId], all[k])
      ensures s.books.None? ==> t.store[all[k].txId].billedAmount == 0
    {
      if k < |filed| { assert all[k] == filed[k]; }
    }
  }

  lemma StepFiles(cfg: Config, keys: map<string, nat>, s: ApiState, d: Desk, op: ApiOp)
    requires Consistent(s) && Filed(cfg, keys, s, d)
    ensures Filed(cfg, keys, ApiStep(cfg, keys, s, op), DeskStep(cfg, d, op))
  {
    hide LedgerFiled, EventsFiled, RecordsFiled, LedgerMatchesRecords, LedgerMatchesAudit, TopicsMatchAudit, ResponsesMatch;
    hide FinishStep, BeginStep, Ends422, FiledFor;
    match op {
      case Begin(txId, tx, now) => if txId !in s.store { BeginFiles(cfg, keys, s, d, txId, tx, now); }
      case Finish(txId, contacts, m) =>
        if txId in s.suspended {
          if Ends422(cfg, contacts) {
            UnsettledFiles(cfg, keys, s, d, txId, contacts, m);
          } else {
            SettledFiles(cfg, keys, s, d, txId, contacts, m);
          }
        }
    }
  }

  lemma {:induction false} RunFiles(cfg: Config, keys: map<string, nat>, s: ApiState, d: Desk, ops: seq<ApiOp>)
    requires Consistent(s) && Filed(cfg, keys, s, d)
    ensures Filed(cfg, keys, ApiRun(cfg, keys, s, ops), DeskRun(cfg, d, ops))
    decreases |ops|
  {
    hide Filed, ApiStep, DeskStep;
    if ops != [] {
      StepFiles(cfg, keys, s, d, ops[0]);
      StepConsistent(cfg, keys, s, ops[0]);
      RunFiles(cfg, keys, ApiStep(cfg, keys, s, ops[0]), DeskStep(cfg, d, ops[0]), ops[1..]);
    }
  }

  /**
    Under any interleaving from fresh logs, the requests that are known, wait
    and were answered, the rounds with answers, the ledger and the final
    records are those that the operations alone tell: each settled request has
    the vote on its own answers, its own event as response, and one entry, in
    order of settling, for the period and at the price and time of its moment.
   */
  lemma {:induction false} EverySettlementFiled(cfg: Config, keys: map<string, nat>, s: ApiState, ops: seq<ApiOp>)
    requires FreshStart(s)
    ensures Filed(cfg, keys, ApiRun(cfg, keys, s, ops), DeskRun(cfg, EMPTY_DESK, ops))
  {
    assert Consistent(s);
    RunFiles(cfg, keys, s, EMPTY_DESK, ops);
  }

  /** The transactions topic is the audit log exactly when no audited round was without votes. */
  lemma TopicByVotes(s: ApiState)
    requires Consistent(s) && s.topics.Some?
    ensures s.topics.value.transactions == s.net.events.value <==> forall e :: e in s.net.events.value ==> e.votes != []
  {
    var events := s.net.events.value;
    if forall e :: e in events ==> e.votes != [] {
      FilterAll(HAS_VOTES, events);
    }
  }

  predicate AllHaveVotes(s: ApiState) {
    s.net.events.Some? && forall e :: e in s.net.events.value ==> e.votes != []
  }

  lemma StepGivesVotes(cfg: Config, keys: map<string, nat>, s: ApiState, op: ApiOp)
    requires cfg.minResponses >= 1 && AllHaveVotes(s)
    ensures AllHaveVotes(ApiStep(cfg, keys, s, op))
  {
    if op.Finish? && op.txId in s.suspended {
      RoundAdds(cfg, keys, s.net, op.moment.now, s.suspended[op.txId].tx, op.contacts);
    }
  }

  /** With at least one response required, every audited round has votes ... */
  lemma {:induction false} RequiredResponsesGiveVotes(cfg: Config, keys: map<string, nat>, s: ApiState, ops: seq<ApiOp>)
    requires cfg.minResponses >= 1 && AllHaveVotes(s)
    ensures AllHaveVotes(ApiRun(cfg, keys, s, ops))
    decreases |ops|
  {
    if ops != [] {
      StepGivesVotes(cfg, keys, s, ops[0]);
      RequiredResponsesGiveVotes(cfg, keys, ApiStep(cfg, keys, s, ops[0]), ops[1..]);
    }
  }

  /** ... so topic, audit log and ledger are in lockstep. */
  lemma {:induction false} TopicEqualsAudit(cfg: Config, keys: map<string, nat>, s: ApiState, ops: seq<ApiOp>)
    requires FreshStart(s) && cfg.minResponses >= 1 && s.topics.Some? && s.books.Some?
    ensures
      var end := ApiRun(cfg, keys, s, ops);
      && end.topics.Some? && end.books.Some?
      && end.topics.value.transactions == end.net.events.value
      && end.topics.value.faults == Filter(FAULTY, end.net.events.value)
      && |end.books.value.entries| == |end.net.events.value|
  {
    CrossLogAgreement(cfg, keys, s, ops);
    RequiredResponsesGiveVotes(cfg, keys, s, ops);
    StaysInitialised(cfg, keys, s, ops);
    var end := ApiRun(cfg, keys, s, ops);
    TopicByVotes(end);
  }

  lemma StepStaysInitialised(cfg: Config, keys: map<string, nat>, s: ApiState, op: ApiOp)
    requires s.net.events.Some?
    ensures ApiStep(cfg, keys, s, op).topics.Some? == s.topics.Some?
    ensures ApiStep(cfg, keys, s, op).books.Some? == s.books.Some?
  {
  }

  lemma {:induction false} StaysInitialised(cfg: Config, keys: map<string, nat>, s: ApiState, ops: seq<ApiOp>)
    requires s.net.events.Some?
    ensures ApiRun(cfg, keys, s, ops).topics.Some? == s.topics.Some?
    ensures ApiRun(cfg, keys, s, ops).books.Some? == s.books.Some?
    decreases |ops|
  {
    if ops != [] {
      StepStaysInitialised(cfg, keys, s, ops[0]);
      StaysInitialised(cfg, keys, ApiStep(cfg, keys, s, ops[0]), ops[1..]);
    }
  }

  /** With no response required, one unanswered request is audited but neither published nor billed. */
  lemma {:induction false} UnansweredRoundIsOnlyAudited(cfg: Config, keys: map<string, nat>, s: ApiState, tx: Transaction, m: Moment)
    requires FreshStart(s) && cfg.minResponses <= 0
    ensures
      var end := ApiRun(cfg, keys, s, [Begin("a", tx, 0), Finish("a", [], m)]);
      && |end.net.events.value| == 1 && end.topics == s.topics && end.books == s.books
      && "a" in end.store && end.store["a"].state == ConsensusPending
  {
    var ops := [Begin("a", tx, 0), Finish("a", [], m)];
    var mid := ApiStep(cfg, keys, s, ops[0]);
    assert ops[1..] == [ops[1]] && ops[1..][1..] == [];
    RoundAdds(cfg, keys, mid.net, m.now, tx, []);
    assert ApiRun(cfg, keys, s, ops) == ApiRun(cfg, keys, mid, ops[1..]) == ApiStep(cfg, keys, mid, ops[1]);
  }

  ghost predicate TopicIsAudit(s: ApiState) {
    s.topics.Some? && s.net.events.Some? && s.topics.value.transactions == s.net.events.value
  }

  /** From fresh logs topic and audit log stay equal under every interleaving exactly when a response is required. */
  lemma TopicEqualsAuditExactly(cfg: Config, keys: map<string, nat>, s: ApiState)
    requires FreshStart(s) && s.topics.Some?
    ensures (forall ops :: TopicIsAudit(ApiRun(cfg, keys, s, ops))) <==> cfg.minResponses >= 1
  {
    hide ApiRun, Consistent;
    if cfg.minResponses >= 1 {
      forall ops ensures TopicIsAudit(ApiRun(cfg, keys, s, ops)) {
        CrossLogAgreement(cfg, keys, s, ops);
        RequiredResponsesGiveVotes(cfg, keys, s, ops);
        StaysInitialised(cfg, keys, s, ops);
        TopicByVotes(ApiRun(cfg, keys, s, ops));
      }
    } else {
      var tx := Transaction(Unregistered, None, None, NoAmount, None, None, None, None, false, None, None);
      var m := Moment(0, "", Basic);
      UnansweredRoundIsOnlyAudited(cfg, keys, s, tx, m);
      assert !TopicIsAudit(ApiRun(cfg, keys, s, [Begin("a", tx, 0), Finish("a", [], m)]));
    }
  }
}
