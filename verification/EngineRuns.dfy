/** What every run of transactions does to accounts and products. */
module EngineRuns {
  import opened Wrappers
  import opened Sequences
  import opened Strings
  import opened LedgerState
  import opened SupplyChain
  import opened ExecutionEngine

  /** How the accepted transactions of a run start. */
  lemma {:induction false} AcceptedFirst(st: State, txs: seq<Transaction>)
    requires txs != []
    ensures
      var acc, rest := Accepted(st, txs), Accepted(Step(st, txs[0]), txs[1..]);
      if Execute(st, txs[0]).Ok? then acc != [] && acc[0] == txs[0] && acc[1..] == rest else acc == rest
  {
  }

  // ------------------------------------------------------------------
  // Token accounts
  // ------------------------------------------------------------------

  predicate Credits(tx: Transaction, account: string) {
    tx.kind in {Transfer, Mint} && tx.recipient == Some(account)
  }

  predicate Debits(tx: Transaction, account: string) {
    tx.kind in {Transfer, Burn} && tx.sender == Some(account)
  }

  function Units(tx: Transaction): int {
    if tx.amount.Amount? then tx.amount.n else 0
  }

  /** What the transactions bring to an account, less what they take from it. */
  function NetFlow(txs: seq<Transaction>, account: string): int {
    if txs == [] then 0 else
    var gain := if Credits(txs[0], account) then Units(txs[0]) else 0;
    var loss := if Debits(txs[0], account) then Units(txs[0]) else 0;
    gain - loss + NetFlow(txs[1..], account)
  }

  function BalanceOf(st: State, account: string): int {
    if account in Balances(st) then Balances(st)[account] else 0
  }

  /** Accounts that mints create. */
  function Minted(txs: seq<Transaction>): set<string> {
    set tx | tx in txs && tx.kind.Mint? && tx.recipient.Some? :: tx.recipient.value
  }

  lemma MintedCons(txs: seq<Transaction>)
    requires txs != []
    ensures Minted(txs) == Minted([txs[0]]) + Minted(txs[1..])
  {
    assert txs == [txs[0]] + txs[1..];
  }

  lemma {:induction false} FlowStep(st: State, tx: Transaction, account: string)
    ensures BalanceOf(Step(st, tx), account)
         == BalanceOf(st, account) + if Execute(st, tx).Ok? then NetFlow([tx], account) else 0
  {
  }

  lemma {:induction false} FlowCons(txs: seq<Transaction>, account: string)
    requires txs != []
    ensures NetFlow(txs, account) == NetFlow([txs[0]], account) + NetFlow(txs[1..], account)
  {
  }

  /** Every account ends at its start plus its accepted credits minus its accepted debits. */
  lemma {:induction false} AccountLedger(st: State, txs: seq<Transaction>, account: string)
    ensures BalanceOf(Run(st, txs), account) == BalanceOf(st, account) + NetFlow(Accepted(st, txs), account)
    decreases |txs|
  {
    if txs != [] {
      hide Execute, Step, NetFlow, BalanceOf;
      AcceptedFirst(st, txs);
      AccountLedger(Step(st, txs[0]), txs[1..], account);
      FlowStep(st, txs[0], account);
      if Execute(st, txs[0]).Ok? {
        FlowCons(Accepted(st, txs), account);
      }
    }
  }

  /** No account disappears, and only mints open new ones. */
  lemma {:induction false} AccountsOfRun(st: State, txs: seq<Transaction>)
    ensures Balances(Run(st, txs)).Keys == Balances(st).Keys + Minted(Accepted(st, txs))
    decreases |txs|
  {
    if txs != [] {
      var tx, rest := txs[0], Accepted(Step(st, txs[0]), txs[1..]);
      AccountsOfRun(Step(st, tx), txs[1..]);
      AcceptedFirst(st, txs);
      if Execute(st, tx).Ok? {
        MintedCons(Accepted(st, txs));
        assert Minted([tx]) == if tx.kind.Mint? then {tx.recipient.value} else {} by {
          assert tx in [tx];
        }
      }
    }
  }

  ghost function TotalSupply(st: State): int {
    Sum(Balances(st))
  }

  function Supplied(txs: seq<Transaction>): int {
    if txs == [] then 0 else
    var change := match txs[0].kind case Mint => Units(txs[0]) case Burn => -Units(txs[0]) case _ => 0;
    change + Supplied(txs[1..])
  }

  lemma SupplyStep(st: State, tx: Transaction)
    requires Execute(st, tx).Ok?
    ensures TotalSupply(Step(st, tx)) == TotalSupply(st) + Supplied([tx])
  {
    var b := Balances(st);
    match tx.kind {
      case Transfer =>
        var (s, r) := (tx.sender.value, tx.recipient.value);
        var debited := b[s := b[s] - tx.amount.n];
        SumUpdate(b, s, b[s] - tx.amount.n);
        SumUpdate(debited, r, debited[r] + tx.amount.n);
      case Mint =>
        var r := tx.recipient.value;
        SumUpdate(b, r, (if r in b then b[r] else 0) + tx.amount.n);
      case Burn =>
        SumUpdate(b, tx.sender.value, b[tx.sender.value] - tx.amount.n);
      case _ =>
    }
  }

  /** Supply only moves by accepted mints and burns, self-transfers included. */
  lemma {:induction false} Conservation(st: State, txs: seq<Transaction>)
    ensures TotalSupply(Run(st, txs)) == TotalSupply(st) + Supplied(Accepted(st, txs))
    decreases |txs|
  {
    if txs != [] {
      AcceptedFirst(st, txs);
      Conservation(Step(st, txs[0]), txs[1..]);
      if Execute(st, txs[0]).Ok? {
        SupplyStep(st, txs[0]);
      }
    }
  }

  predicate NonNegative(st: State) {
    forall a | a in Balances(st) :: Balances(st)[a] >= 0
  }

  lemma {:induction false} NoOverdraft(st: State, txs: seq<Transaction>)
    requires NonNegative(st)
    ensures NonNegative(Run(st, txs))
    decreases |txs|
  {
    if txs != [] {
      var st' := Step(st, txs[0]);
      forall a | a in Balances(st') ensures Balances(st')[a] >= 0 {
        assert a in Balances(st) ==> Balances(st)[a] >= 0;
      }
      NoOverdraft(Step(st, txs[0]), txs[1..]);
    }
  }

  predicate WellFormedToken(tx: Transaction) {
    && tx.kind in {Transfer, Mint, Burn}
    && tx.amount.Amount?
    && (tx.kind != Mint ==> tx.sender.Some?)
    && (tx.kind != Burn ==> tx.recipient.Some?)
  }

  /** After any run, acceptance of a token transaction is decided by the accepted history. */
  lemma {:induction false} TokenVerdict(st: State, txs: seq<Transaction>, tx: Transaction)
    requires WellFormedToken(tx) && st.balances.Some?
    ensures
      var acc := Accepted(st, txs);
      var open := st.balances.value.Keys + Minted(acc);
      Execute(Run(st, txs), tx).Ok? <==>
        && tx.amount.n > 0
        && (tx.kind.Transfer? ==> tx.recipient.value in open)
        && (!tx.kind.Mint? ==> tx.sender.value in open)
        && (!tx.kind.Mint? ==> BalanceOf(st, tx.sender.value) + NetFlow(acc, tx.sender.value) >= tx.amount.n)
  {
    AccountsOfRun(st, txs);
    ShapeOfRun(st, txs);
    if !tx.kind.Mint? {
      AccountLedger(st, txs, tx.sender.value);
    }
  }

  // ------------------------------------------------------------------
  // Products
  // ------------------------------------------------------------------

  /** Top-level keys and the set of products never change. */
  lemma {:induction false} ShapeOfRun(st: State, txs: seq<Transaction>)
    ensures Run(st, txs).balances.Some? == st.balances.Some?
    ensures Run(st, txs).products.Some? == st.products.Some?
    ensures Products(Run(st, txs)).Keys == Products(st).Keys
    decreases |txs|
  {
    if txs != [] {
      ShapeOfRun(Step(st, txs[0]), txs[1..]);
    }
  }

  /** The value written by the last transaction that writes one, else `d`. */
  function Latest<V>(writes: Transaction -> Option<V>, txs: seq<Transaction>, d: V): V
    decreases |txs|
  {
    if txs == [] then d
    else Latest(writes, txs[1..], if writes(txs[0]).Some? then writes(txs[0]).value else d)
  }

  predicate About(tx: Transaction, id: string) {
    tx.productId == Some(id)
  }

  function LocationWrite(id: string): Transaction -> Option<string> {
    (tx: Transaction) => if tx.kind.Ship? && About(tx, id) then tx.destination else None
  }

  function OwnerWrite(id: string): Transaction -> Option<string> {
    (tx: Transaction) =>
      if tx.kind.Ship? && About(tx, id) then tx.shipper
      else if tx.kind.Receive? && About(tx, id) then tx.receiver
      else None
  }

  function StatusWrite(id: string): Transaction -> Option<Status> {
    (tx: Transaction) =>
      if !About(tx, id) then None
      else match tx.kind
           case Ship => Some(InTransit)
           case Receive => Some(if tx.atCustoms then AtCustoms else Delivered)
           case Quarantine => Some(Quarantined)
           case Release => Some(AtCustoms)
           case _ => None
  }

  function ReasonWrite(id: string): Transaction -> Option<Option<string>> {
    (tx: Transaction) =>
      if !About(tx, id) then None
      else match tx.kind
           case Quarantine => Some(tx.reason)
           case Release => Some(None)
           case _ => None
  }

  function Written<V>(w: Option<V>, d: V): V {
    if w.Some? then w.value else d
  }

  lemma PlaceStep(st: State, tx: Transaction, id: string)
    requires id in Products(st) && Execute(st, tx).Ok?
    ensures id in Products(Step(st, tx))
    ensures
      var p, q := Products(st)[id], Products(Step(st, tx))[id];
      && q.location == Written(LocationWrite(id)(tx), p.location)
      && q.owner == Written(OwnerWrite(id)(tx), p.owner)
  {
    hide AddCheck;
    match tx.kind {
      case Ship =>
      case Receive =>
      case _ =>
    }
  }

  lemma StatusStep(st: State, tx: Transaction, id: string)
    requires id in Products(st) && Execute(st, tx).Ok?
    ensures id in Products(Step(st, tx))
    ensures
      var p, q := Products(st)[id], Products(Step(st, tx))[id];
      && q.status == Written(StatusWrite(id)(tx), p.status)
      && q.quarantineReason == Written(ReasonWrite(id)(tx), p.quarantineReason)
  {
  }

  /** Each field of a product is what the last accepted transaction writing that field wrote. */
  lemma {:induction false} Provenance(st: State, txs: seq<Transaction>, id: string)
    requires id in Products(st)
    ensures id in Products(Run(st, txs))
    ensures
      var p, q, acc := Products(st)[id], Products(Run(st, txs))[id], Accepted(st, txs);
      && q.location == Latest(LocationWrite(id), acc, p.location)
      && q.owner == Latest(OwnerWrite(id), acc, p.owner)
      && q.status == Latest(StatusWrite(id), acc, p.status)
      && q.quarantineReason == Latest(ReasonWrite(id), acc, p.quarantineReason)
    decreases |txs|
  {
    if txs != [] {
      if Execute(st, txs[0]).Ok? {
        PlaceStep(st, txs[0], id);
        StatusStep(st, txs[0], id);
      }
      AcceptedFirst(st, txs);
      Provenance(Step(st, txs[0]), txs[1..], id);
    }
  }

  /** Names in the inspections of a product. */
  function Inspected(txs: seq<Transaction>, id: string): set<string> {
    set tx | tx in txs && tx.kind.Inspect? && About(tx, id) && tx.checkName.Some? :: tx.checkName.value
  }

  function CheckList(p: Product): seq<string> {
    if p.checks.Some? then p.checks.value else []
  }

  /** `checks`, empty when absent, is the sorted listing of its names. */
  predicate CanonicalChecks(p: Product) {
    CheckList(p) == SortedListing(Elements(CheckList(p)))
  }

  lemma AddCheckCanonical(p: Product, name: string)
    requires CanonicalChecks(p)
    ensures AddCheck(p.checks, name) == SortedListing(Elements(CheckList(p)) + {name})
  {
    var known := CheckList(p);
    if name in known {
      assert Elements(known) + {name} == Elements(known);
    } else {
      SortedInsert(known, name);
    }
  }

  lemma {:induction false} ListingElements(s: set<string>)
    ensures Elements(SortedListing(s)) == s
  {
  }

  lemma InspectedCons(txs: seq<Transaction>, id: string)
    requires txs != []
    ensures Inspected(txs, id) == Inspected([txs[0]], id) + Inspected(txs[1..], id)
  {
    assert txs == [txs[0]] + txs[1..];
  }

  lemma ChecksEffect(st: State, tx: Transaction, id: string)
    requires id in Products(st) && Execute(st, tx).Ok?
    ensures id in Products(Step(st, tx))
    ensures
      Products(Step(st, tx))[id].checks ==
      if tx.kind.Inspect? && About(tx, id) && tx.checkName.Some?
      then Some(AddCheck(Products(st)[id].checks, tx.checkName.value))
      else Products(st)[id].checks
  {
    hide AddCheck;
    match tx.kind {
      case Inspect =>
      case _ =>
    }
  }

  lemma ChecksStep(st: State, tx: Transaction, id: string)
    requires id in Products(st) && CanonicalChecks(Products(st)[id]) && Execute(st, tx).Ok?
    ensures id in Products(Step(st, tx))
    ensures
      var p, q := Products(st)[id], Products(Step(st, tx))[id];
      && CheckList(q) == SortedListing(Elements(CheckList(p)) + Inspected([tx], id))
      && CanonicalChecks(q)
      && (q.checks.Some? <==> p.checks.Some? || Inspected([tx], id) != {})
  {
    InspectedOne(tx, id);
    ChecksEffect(st, tx, id);
    ChecksWritten(Products(st)[id], Products(Step(st, tx))[id], tx, id);
  }

  lemma ChecksWritten(p: Product, q: Product, tx: Transaction, id: string)
    requires CanonicalChecks(p)
    requires q.checks == if tx.kind.Inspect? && About(tx, id) && tx.checkName.Some?
                         then Some(AddCheck(p.checks, tx.checkName.value)) else p.checks
    ensures CheckList(q) == SortedListing(Elements(CheckList(p)) + Inspected([tx], id))
    ensures CanonicalChecks(q)
  {
    var names := Elements(CheckList(p));
    InspectedOne(tx, id);
    if tx.kind.Inspect? && About(tx, id) && tx.checkName.Some? {
      AddCheckCanonical(p, tx.checkName.value);
    } else {
      assert names + {} == names;
    }
    ListingElements(names + Inspected([tx], id));
  }

  lemma InspectedOne(tx: Transaction, id: string)
    ensures Inspected([tx], id) == if tx.kind.Inspect? && About(tx, id) && tx.checkName.Some? then {tx.checkName.value} else {}
  {
    assert tx in [tx];
  }

  /** Whatever the order and repetition of inspections, the list is their sorted set of names. */
  lemma {:induction false} ChecksCanonical(st: State, txs: seq<Transaction>, id: string)
    requires id in Products(st) && CanonicalChecks(Products(st)[id])
    ensures id in Products(Run(st, txs))
    ensures
      var p, q := Products(st)[id], Products(Run(st, txs))[id];
      && CanonicalChecks(q)
      && CheckList(q) == SortedListing(Elements(CheckList(p)) + Inspected(Accepted(st, txs), id))
      && (q.checks.Some? <==> p.checks.Some? || Inspected(Accepted(st, txs), id) != {})
    decreases |txs|
  {
    var names := Elements(CheckList(Products(st)[id]));
    if txs == [] {
      assert names + Inspected([], id) == names;
    } else {
      var tx := txs[0];
      if Execute(st, tx).Ok? {
        ChecksStep(st, tx, id);
        InspectedCons(Accepted(st, txs), id);
        ListingElements(names + Inspected([tx], id));
        assert names + Inspected([tx], id) + Inspected(Accepted(Step(st, tx), txs[1..]), id) == names + Inspected(Accepted(st, txs), id);
      }
      AcceptedFirst(st, txs);
      ChecksCanonical(Step(st, tx), txs[1..], id);
    }
  }

  // ------------------------------------------------------------------
  // Custody
  // ------------------------------------------------------------------

  /** Counts of accepted movements of one product. */
  datatype Custody = Custody(ships: nat, receives: nat, transitQuarantines: nat, quarantines: nat, releases: nat)

  const NO_CUSTODY := Custody(0, 0, 0, 0, 0)

  function CustodyStep(c: Custody, st: State, tx: Transaction, id: string): Custody {
    if !About(tx, id) || Execute(st, tx).Err? then c
    else match tx.kind
         case Ship => c.(ships := c.ships + 1)
         case Receive => c.(receives := c.receives + 1)
         case Quarantine => c.(
           quarantines := c.quarantines + 1,
           transitQuarantines := c.transitQuarantines + (if Products(st)[id].status.InTransit? then 1 else 0))
         case Release => c.(releases := c.releases + 1)
         case _ => c
  }

  function CustodyOf(c: Custody, st: State, txs: seq<Transaction>, id: string): Custody
    decreases |txs|
  {
    if txs == [] then c
    else CustodyOf(CustodyStep(c, st, txs[0], id), Step(st, txs[0]), txs[1..], id)
  }

  /** The counts say where the product is. */
  predicate Placed(c: Custody, p: Product) {
    && c.ships - c.receives - c.transitQuarantines == (if p.status.InTransit? then 1 else 0)
    && c.quarantines - c.releases == (if p.status.Quarantined? then 1 else 0)
  }

  /** And there is a quarantine reason exactly in quarantine. */
  predicate Balanced(c: Custody, p: Product) {
    Placed(c, p) && (p.quarantineReason.Some? <==> p.status.Quarantined?)
  }

  lemma {:induction false} CustodyPlaced(c: Custody, st: State, txs: seq<Transaction>, id: string)
    requires id in Products(st) && Placed(c, Products(st)[id])
    ensures id in Products(Run(st, txs))
    ensures Placed(CustodyOf(c, st, txs, id), Products(Run(st, txs))[id])
    decreases |txs|
  {
    if txs != [] {
      CustodyPlaced(CustodyStep(c, st, txs[0], id), Step(st, txs[0]), txs[1..], id);
    }
  }

  lemma {:induction false} CustodyBalanced(c: Custody, st: State, txs: seq<Transaction>, id: string)
    requires id in Products(st) && Balanced(c, Products(st)[id])
    ensures id in Products(Run(st, txs))
    ensures Balanced(CustodyOf(c, st, txs, id), Products(Run(st, txs))[id])
    decreases |txs|
  {
    if txs != [] {
      CustodyBalanced(CustodyStep(c, st, txs[0], id), Step(st, txs[0]), txs[1..], id);
    }
  }

  /** Custody accounting and canonical checks of one product, from the initial state on. */
  lemma {:induction false} ProductRun(ids: seq<string>, txs: seq<Transaction>, id: string)
    requires id in ids
    ensures
      var st := MakeInitialState(ids);
      var end := Products(Run(st, txs));
      && id in end
      && Balanced(CustodyOf(NO_CUSTODY, st, txs, id), end[id])
      && end[id].checks == Some(SortedListing(Inspected(Accepted(st, txs), id)))
  {
    FreshProduct(ids, id);
    FreshProductRun(MakeInitialState(ids), txs, id);
  }

  lemma {:induction false} FreshProductRun(st: State, txs: seq<Transaction>, id: string)
    requires id in Products(st) && Products(st)[id] == FRESH_PRODUCT
    ensures id in Products(Run(st, txs))
    ensures Balanced(CustodyOf(NO_CUSTODY, st, txs, id), Products(Run(st, txs))[id])
    ensures Products(Run(st, txs))[id].checks == Some(SortedListing(Inspected(Accepted(st, txs), id)))
  {
    CustodyBalanced(NO_CUSTODY, st, txs, id);
    FreshCanonical();
    ChecksCanonical(st, txs, id);
  }

  lemma FreshCanonical()
    ensures CanonicalChecks(FRESH_PRODUCT)
    ensures forall names :: Elements(CheckList(FRESH_PRODUCT)) + names == names
  {
    assert Elements([]) == {};
  }

  lemma FreshProduct(ids: seq<string>, id: string)
    requires id in ids
    ensures id in Products(MakeInitialState(ids)) && Products(MakeInitialState(ids))[id] == FRESH_PRODUCT
  {
  }

  /** From the initial state on, each field of a product is what was last written, else what a fresh product shows. */
  lemma {:induction false} InitialProvenance(ids: seq<string>, txs: seq<Transaction>, id: string)
    requires id in ids
    ensures
      var st := MakeInitialState(ids);
      var (end, acc) := (Products(Run(st, txs)), Accepted(st, txs));
      && st.balances.None? && Products(st).Keys == Elements(ids)
      && id in end
      && end[id].location == Latest(LocationWrite(id), acc, "factory")
      && end[id].owner == Latest(OwnerWrite(id), acc, "manufacturer")
      && end[id].status == Latest(StatusWrite(id), acc, Manufactured)
      && end[id].quarantineReason == Latest(ReasonWrite(id), acc, None)
      && end[id].checks == Some(SortedListing(Inspected(acc, id)))
  {
    hide Run, Accepted, Latest, Inspected, CustodyOf, SortedListing;
    FreshProduct(ids, id);
    Provenance(MakeInitialState(ids), txs, id);
    ProductRun(ids, txs, id);
    assert Products(MakeInitialState(ids)).Keys == Elements(ids);
  }

  /** The products of a run are the ones it started with. */
  lemma {:induction false} ProductSetFixed(ids: seq<string>, txs: seq<Transaction>)
    ensures Products(Run(MakeInitialState(ids), txs)).Keys == Elements(ids)
  {
    ShapeOfRun(MakeInitialState(ids), txs);
  }

  predicate WellFormedMove(tx: Transaction) {
    && tx.productId.Some?
    && match tx.kind
       case Ship => tx.destination.Some? && tx.shipper.Some?
       case Receive => tx.receiver.Some?
       case Inspect => tx.checkName.Some?
       case Quarantine => tx.reason.Some?
       case Release => true
       case _ => false
  }

  predicate MoveAllowed(c: Custody, tx: Transaction) {
    var moving := c.ships > c.receives + c.transitQuarantines;
    var held := c.quarantines > c.releases;
    match tx.kind
    case Ship => !moving && !held
    case Receive => moving
    case Quarantine => !held
    case Release => held
    case _ => true
  }

  lemma BalancedDecides(c: Custody, st: State, tx: Transaction)
    requires WellFormedMove(tx) && tx.productId.value in Products(st)
    requires Placed(c, Products(st)[tx.productId.value])
    ensures Execute(st, tx).Ok? <==> MoveAllowed(c, tx)
  {
  }

  /** After any run, acceptance of a supply-chain transaction is decided by the custody counts. */
  lemma {:induction false} MoveVerdict(ids: seq<string>, txs: seq<Transaction>, tx: Transaction)
    requires WellFormedMove(tx) && tx.productId.value in ids
    ensures
      var st := MakeInitialState(ids);
      Execute(Run(st, txs), tx).Ok? <==> MoveAllowed(CustodyOf(NO_CUSTODY, st, txs, tx.productId.value), tx)
  {
    ProductRun(ids, txs, tx.productId.value);
    BalancedDecides(CustodyOf(NO_CUSTODY, MakeInitialState(ids), txs, tx.productId.value), Run(MakeInitialState(ids), txs), tx);
  }
}
