/** The five supply-chain handlers and the initial state. */
module SupplyChain {
  import opened Wrappers
  import opened LedgerState
  import opened Strings

  function PutProduct(st: State, id: string, p: Product): State
    requires st.products.Some?
  {
    st.(products := Some(st.products.value[id := p]))
  }

  function HandleShip(st: State, tx: Transaction): Outcome {
    if tx.productId.None? || tx.destination.None? || tx.shipper.None? then Err(MissingField)
    else if tx.productId.value !in Products(st) then Err(UnknownProduct)
    else
      var id := tx.productId.value;
      var p := Products(st)[id];
      if p.status in {InTransit, Quarantined} then Err(WrongStatus)
      else Ok(PutProduct(st, id, p.(status := InTransit, location := tx.destination.value, owner := tx.shipper.value)))
  }

  function HandleReceive(st: State, tx: Transaction): Outcome {
    if tx.productId.None? || tx.receiver.None? then Err(MissingField)
    else if tx.productId.value !in Products(st) then Err(UnknownProduct)
    else
      var id := tx.productId.value;
      var p := Products(st)[id];
      if p.status != InTransit then Err(WrongStatus)
      else Ok(PutProduct(st, id, p.(status := if tx.atCustoms then AtCustoms else Delivered, owner := tx.receiver.value)))
  }

  /** Appends an unseen check name and sorts; an absent list starts empty. */
  function AddCheck(checks: Option<seq<string>>, name: string): seq<string> {
    var known := if checks.Some? then checks.value else [];
    if name in known then known else Sort(known + [name])
  }

  function HandleInspect(st: State, tx: Transaction): Outcome {
    if tx.productId.None? || tx.checkName.None? then Err(MissingField)
    else if tx.productId.value !in Products(st) then Err(UnknownProduct)
    else
      var id := tx.productId.value;
      var p := Products(st)[id];
      Ok(PutProduct(st, id, p.(checks := Some(AddCheck(p.checks, tx.checkName.value)))))
  }

  function HandleQuarantine(st: State, tx: Transaction): Outcome {
    if tx.productId.None? || tx.reason.None? then Err(MissingField)
    else if tx.productId.value !in Products(st) then Err(UnknownProduct)
    else
      var id := tx.productId.value;
      var p := Products(st)[id];
      if p.status == Quarantined then Err(WrongStatus)
      else Ok(PutProduct(st, id, p.(status := Quarantined, quarantineReason := Some(tx.reason.value))))
  }

  function HandleRelease(st: State, tx: Transaction): Outcome {
    if tx.productId.None? then Err(MissingField)
    else if tx.productId.value !in Products(st) then Err(UnknownProduct)
    else
      var id := tx.productId.value;
      var p := Products(st)[id];
      if p.status != Quarantined then Err(WrongStatus)
      else Ok(PutProduct(st, id, p.(status := AtCustoms, quarantineReason := None)))
  }

  const FRESH_PRODUCT := Product(Manufactured, "factory", "manufacturer", Some([]), None)

  function MakeInitialState(productIds: seq<string>): State {
    State(None, Some(map id | id in productIds :: FRESH_PRODUCT))
  }
}
