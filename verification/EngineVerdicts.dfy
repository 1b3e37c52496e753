/** Which transactions the engine accepts, and why it refuses the others: for every state, every run and every transaction. */
module EngineVerdicts {
  import opened Wrappers
  import opened LedgerState
  import opened SupplyChain
  import opened ExecutionEngine
  import opened EngineRuns

  predicate MovesTokens(k: Kind) {
    k in {Transfer, Mint, Burn}
  }

  /** The fields each transaction type cannot do without. */
  predicate FieldsPresent(tx: Transaction) {
    match tx.kind
    case Transfer => tx.sender.Some? && tx.recipient.Some? && !tx.amount.NoAmount?
    case Mint => tx.recipient.Some? && !tx.amount.NoAmount?
    case Burn => tx.sender.Some? && !tx.amount.NoAmount?
    case Ship => tx.productId.Some? && tx.destination.Some? && tx.shipper.Some?
    case Receive => tx.productId.Some? && tx.receiver.Some?
    case Inspect => tx.productId.Some? && tx.checkName.Some?
    case Quarantine => tx.productId.Some? && tx.reason.Some?
    case Release => tx.productId.Some?
    case Unregistered => true
  }

  /** The accounts that must exist beforehand. */
  function AccountsNeeded(tx: Transaction): set<Option<string>> {
    match tx.kind
    case Transfer => {tx.sender, tx.recipient}
    case Burn => {tx.sender}
    case _ => {}
  }

  /** The statuses in which a product may be moved, inspected or held. */
  function StatusesAllowed(k: Kind): set<Status> {
    match k
    case Ship => {Manufactured, AtCustoms, Delivered}
    case Receive => {InTransit}
    case Quarantine => {Manufactured, InTransit, AtCustoms, Delivered}
    case Release => {Quarantined}
    case _ => {Manufactured, InTransit, AtCustoms, Quarantined, Delivered}
  }

  /** Why a token transaction with all its fields is refused, if it is. */
  function TokenRefusal(st: State, tx: Transaction): Option<Rejection> {
    if !tx.amount.Amount? then Some(UnreadableAmount)
    else if tx.amount.n <= 0 then Some(NotPositive)
    else if st.balances.None? then Some(NoBalances)
    else if exists a :: a in AccountsNeeded(tx) && (a.None? || a.value !in Balances(st)) then Some(UnknownAccount)
    else if tx.kind.Mint? || tx.sender.None? then None
    else if BalanceOf(st, tx.sender.value) < tx.amount.n then Some(InsufficientFunds)
    else None
  }

  /** Why a product transaction with all its fields is refused, if it is. */
  function ProductRefusal(st: State, tx: Transaction): Option<Rejection> {
    if tx.productId.None? || tx.productId.value !in Products(st) then Some(UnknownProduct)
    else if Products(st)[tx.productId.value].status !in StatusesAllowed(tx.kind) then Some(WrongStatus)
    else None
  }

  /** Why a transaction is refused, if it is. */
  function Refusal(st: State, tx: Transaction): Option<Rejection> {
    if tx.kind.Unregistered? then Some(UnknownType)
    else if !FieldsPresent(tx) then Some(MissingField)
    else if MovesTokens(tx.kind) then TokenRefusal(st, tx)
    else ProductRefusal(st, tx)
  }

  lemma TokenRefusalExactly(st: State, tx: Transaction)
    requires MovesTokens(tx.kind) && FieldsPresent(tx)
    ensures var r := Execute(st, tx); if r.Ok? then TokenRefusal(st, tx) == None else TokenRefusal(st, tx) == Some(r.error)
  {
    if tx.kind.Transfer? {
      assert tx.sender in AccountsNeeded(tx) && tx.recipient in AccountsNeeded(tx);
    } else if tx.kind.Burn? {
      assert tx.sender in AccountsNeeded(tx);
    }
  }

  /** For every state and transaction: accepted exactly if there is no reason to refuse it, and refused for that reason. */
  lemma RefusalExactly(st: State, tx: Transaction)
    ensures var r := Execute(st, tx); if r.Ok? then Refusal(st, tx) == None else Refusal(st, tx) == Some(r.error)
  {
    if MovesTokens(tx.kind) && FieldsPresent(tx) {
      TokenRefusalExactly(st, tx);
    } else if !tx.kind.Unregistered? && FieldsPresent(tx) {
      ProductRefusalExactly(st, tx);
    }
  }

  lemma EveryStatus(s: Status)
    ensures s in StatusesAllowed(Inspect)
  {
    match s
    case Manufactured =>
    case InTransit =>
    case AtCustoms =>
    case Quarantined =>
    case Delivered =>
  }

  lemma ProductRefusalExactly(st: State, tx: Transaction)
    requires !MovesTokens(tx.kind) && !tx.kind.Unregistered? && FieldsPresent(tx)
    ensures var r := Execute(st, tx); if r.Ok? then ProductRefusal(st, tx) == None else ProductRefusal(st, tx) == Some(r.error)
  {
    hide AddCheck;
    if tx.productId.value in Products(st) {
      var status := Products(st)[tx.productId.value].status;
      match tx.kind
      case Ship => assert status in StatusesAllowed(Ship) <==> !status.InTransit? && !status.Quarantined?;
      case Receive => assert status in StatusesAllowed(Receive) <==> status.InTransit?;
      case Inspect => EveryStatus(status);
      case Quarantine => assert status in StatusesAllowed(Quarantine) <==> !status.Quarantined?;
      case Release => assert status in StatusesAllowed(Release) <==> status.Quarantined?;
    }
  }

  /** The custody counts of a product that is found as it is. */
  function StartCustody(p: Product): Custody {
    match p.status
    case InTransit => Custody(1, 0, 0, 0, 0)
    case Quarantined => Custody(0, 0, 0, 1, 0)
    case _ => NO_CUSTODY
  }

  /** What a token transaction needs, in terms of the start of a run and what was accepted since. */
  predicate Covered(st: State, acc: seq<Transaction>, tx: Transaction) {
    && tx.amount.Amount? && tx.amount.n > 0 && st.balances.Some?
    && (forall a :: a in AccountsNeeded(tx) ==> a.Some? && a.value in Balances(st).Keys + Minted(acc))
    && (!tx.kind.Mint? ==>
          tx.sender.Some? && BalanceOf(st, tx.sender.value) + NetFlow(acc, tx.sender.value) >= tx.amount.n)
  }

  /** What a product transaction needs, in terms of the start of a run and the custody counts since. */
  predicate Movable(st: State, txs: seq<Transaction>, tx: Transaction) {
    && tx.productId.Some? && tx.productId.value in Products(st)
    && var id := tx.productId.value;
       MoveAllowed(CustodyOf(StartCustody(Products(st)[id]), st, txs, id), tx)
  }

  lemma {:induction false} TokenVerdictExactly(st: State, txs: seq<Transaction>, tx: Transaction)
    requires MovesTokens(tx.kind) && FieldsPresent(tx)
    ensures Execute(Run(st, txs), tx).Ok? <==> Covered(st, Accepted(st, txs), tx)
  {
    ShapeOfRun(st, txs);
    if tx.amount.Amount? && st.balances.Some? {
      TokenVerdict(st, txs, tx);
      var open := Balances(st).Keys + Minted(Accepted(st, txs));
      AccountsNeededIn(tx, open);
    }
  }

  lemma AccountsNeededIn(tx: Transaction, open: set<string>)
    requires MovesTokens(tx.kind) && FieldsPresent(tx)
    ensures (forall a :: a in AccountsNeeded(tx) ==> a.Some? && a.value in open) <==>
            && (tx.kind.Transfer? ==> tx.recipient.value in open)
            && (!tx.kind.Mint? ==> tx.sender.value in open)
  {
    if tx.kind.Transfer? {
      assert tx.sender in AccountsNeeded(tx) && tx.recipient in AccountsNeeded(tx);
    } else if tx.kind.Burn? {
      assert tx.sender in AccountsNeeded(tx);
    }
  }

  lemma {:induction false} MoveVerdictExactly(st: State, txs: seq<Transaction>, tx: Transaction)
    requires !MovesTokens(tx.kind) && !tx.kind.Unregistered? && FieldsPresent(tx)
    ensures Execute(Run(st, txs), tx).Ok? <==> Movable(st, txs, tx)
  {
    var id := tx.productId.value;
    ShapeOfRun(st, txs);
    if id in Products(st) {
      var start := StartCustody(Products(st)[id]);
      CustodyPlaced(start, st, txs, id);
      BalancedDecides(CustodyOf(start, st, txs, id), Run(st, txs), tx);
    } else {
      RefusalExactly(Run(st, txs), tx);
    }
  }

  /**
    After any run from any state, a transaction is accepted exactly if its type
    is registered, the fields of that type are there, and the accepted history
    covers it: amount, accounts and balance for tokens, existence and custody
    for products.
   */
  lemma {:induction false} RunVerdict(st: State, txs: seq<Transaction>, tx: Transaction)
    ensures Execute(Run(st, txs), tx).Ok? <==>
      && !tx.kind.Unregistered?
      && FieldsPresent(tx)
      && if MovesTokens(tx.kind) then Covered(st, Accepted(st, txs), tx) else Movable(st, txs, tx)
  {
    RefusalExactly(Run(st, txs), tx);
    if !tx.kind.Unregistered? && FieldsPresent(tx) {
      if MovesTokens(tx.kind) {
        TokenVerdictExactly(st, txs, tx);
      } else {
        MoveVerdictExactly(st, txs, tx);
      }
    }
  }
}
