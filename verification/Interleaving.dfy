/**
  Runs only depend on each product's own transactions and on the token
  transactions: how those sub-sequences are interleaved does not matter.
 */
module Interleaving {
  import opened Wrappers
  import opened LedgerState
  import opened ExecutionEngine
  import opened EngineRuns

  /** The part of the state a transaction works on. */
  datatype Lane = TokenLane | ProductLane(id: string) | NoLane

  function LaneOf(tx: Transaction): Lane {
    if tx.kind in {Transfer, Mint, Burn} then TokenLane
    else if tx.kind.Unregistered? || tx.productId.None? then NoLane
    else ProductLane(tx.productId.value)
  }

  /** What a state shows of one lane. */
  datatype Cell = Tokens(balances: Option<map<string, int>>) | Item(product: Option<Product>) | Nothing

  function View(st: State, lane: Lane): Cell {
    match lane
    case TokenLane => Tokens(st.balances)
    case ProductLane(id) => Item(if id in Products(st) then Some(Products(st)[id]) else None)
    case NoLane => Nothing
  }

  /** The sub-sequence of one lane. */
  function InLane(txs: seq<Transaction>, lane: Lane): seq<Transaction> {
    if txs == [] then []
    else if LaneOf(txs[0]) == lane then [txs[0]] + InLane(txs[1..], lane)
    else InLane(txs[1..], lane)
  }

  /** The verdicts of one lane's transactions within a whole run. */
  function LaneVerdicts(st: State, txs: seq<Transaction>, lane: Lane): seq<bool>
    decreases |txs|
  {
    if txs == [] then [] else
    var own := if LaneOf(txs[0]) == lane then [Execute(st, txs[0]).Ok?] else [];
    own + LaneVerdicts(Step(st, txs[0]), txs[1..], lane)
  }

  /** A transaction sees only its own lane. */
  lemma LaneDecides(s: State, t: State, tx: Transaction)
    requires View(s, LaneOf(tx)) == View(t, LaneOf(tx))
    ensures Execute(s, tx).Ok? == Execute(t, tx).Ok?
    ensures View(Step(s, tx), LaneOf(tx)) == View(Step(t, tx), LaneOf(tx))
  {
  }

  /** A transaction touches only its own lane. */
  lemma LaneFrame(s: State, tx: Transaction, lane: Lane)
    requires lane != LaneOf(tx)
    ensures View(Step(s, tx), lane) == View(s, lane)
  {
  }

  /** A lane evolves as if its own transactions were the only ones. */
  lemma {:induction false} LaneAlone(s: State, t: State, txs: seq<Transaction>, lane: Lane)
    requires View(s, lane) == View(t, lane)
    ensures View(Run(s, txs), lane) == View(Run(t, InLane(txs, lane)), lane)
    ensures LaneVerdicts(s, txs, lane) == Verdicts(t, InLane(txs, lane))
    decreases |txs|
  {
    if txs != [] {
      var tx := txs[0];
      if LaneOf(tx) == lane {
        LaneDecides(s, t, tx);
        LaneAlone(Step(s, tx), Step(t, tx), txs[1..], lane);
        assert InLane(txs, lane)[0] == tx && InLane(txs, lane)[1..] == InLane(txs[1..], lane);
      } else {
        LaneFrame(s, tx, lane);
        LaneAlone(Step(s, tx), t, txs[1..], lane);
      }
    }
  }

  /** The lanes together are the whole state. */
  lemma ViewsDetermineState(s: State, t: State)
    requires forall lane :: lane != NoLane ==> View(s, lane) == View(t, lane)
    requires s.products.Some? == t.products.Some?
    ensures s == t
  {
    assert View(s, TokenLane) == View(t, TokenLane);
    forall id ensures id in Products(s) <==> id in Products(t)
      ensures id in Products(s) && id in Products(t) ==> Products(s)[id] == Products(t)[id]
    {
      assert View(s, ProductLane(id)) == View(t, ProductLane(id));
    }
    assert Products(s) == Products(t);
  }

  /** A transaction of no registered type, or about no product, is always refused. */
  lemma {:induction false} NoLaneRefused(s: State, txs: seq<Transaction>)
    ensures forall v :: v in LaneVerdicts(s, txs, NoLane) ==> !v
    decreases |txs|
  {
    if txs != [] {
      NoLaneRefused(Step(s, txs[0]), txs[1..]);
    }
  }

  /**
    Two sequences with the same sub-sequence for every product and for the
    tokens end in the same state and give each of these transactions the same
    verdict; all others, wherever they stand, are refused.
   */
  lemma {:induction false} InterleavingIndependence(st: State, txs: seq<Transaction>, uxs: seq<Transaction>)
    requires forall lane :: lane != NoLane ==> InLane(txs, lane) == InLane(uxs, lane)
    ensures Run(st, txs) == Run(st, uxs)
    ensures forall lane :: lane != NoLane ==> LaneVerdicts(st, txs, lane) == LaneVerdicts(st, uxs, lane)
    ensures forall v :: v in LaneVerdicts(st, txs, NoLane) || v in LaneVerdicts(st, uxs, NoLane) ==> !v
  {
    forall lane | lane != NoLane
      ensures View(Run(st, txs), lane) == View(Run(st, uxs), lane)
      ensures LaneVerdicts(st, txs, lane) == LaneVerdicts(st, uxs, lane)
    {
      LaneAlone(st, st, txs, lane);
      LaneAlone(st, st, uxs, lane);
    }
    NoLaneRefused(st, txs);
    NoLaneRefused(st, uxs);
    ShapeOfRun(st, txs);
    ShapeOfRun(st, uxs);
    ViewsDetermineState(Run(st, txs), Run(st, uxs));
  }
}
