/** World state and transactions, as the nodes exchange and store them. */
module LedgerState {
  import opened Wrappers

  datatype Status = Manufactured | InTransit | AtCustoms | Quarantined | Delivered

  /** A product record; `checks` and `quarantineReason` are keys that may be absent. */
  datatype Product = Product(
    status: Status,
    location: string,
    owner: string,
    checks: Option<seq<string>>,
    quarantineReason: Option<string>)

  /** The two top-level keys of a state; either may be absent. */
  datatype State = State(balances: Option<map<string, int>>, products: Option<map<string, Product>>)

  /** The registered transaction types; `Unregistered` is a missing type or any other name. */
  datatype Kind = Transfer | Mint | Burn | Ship | Receive | Inspect | Quarantine | Release | Unregistered

  /** What `int(tx["amount"])` meets: no field, a value it refuses, or an integer. */
  datatype Amount = NoAmount | BadAmount | Amount(n: int)

  /** A transaction dictionary: every field the handlers read, each possibly missing. */
  datatype Transaction = Transaction(
    kind: Kind,
    sender: Option<string>,
    recipient: Option<string>,
    amount: Amount,
    productId: Option<string>,
    destination: Option<string>,
    shipper: Option<string>,
    receiver: Option<string>,
    atCustoms: bool,
    checkName: Option<string>,
    reason: Option<string>)

  /** Why a transaction is refused (`ValueError` or `KeyError` in the engine). */
  datatype Rejection =
    | UnknownType
    | MissingField
    | UnreadableAmount
    | NotPositive
    | NoBalances
    | UnknownAccount
    | InsufficientFunds
    | UnknownProduct
    | WrongStatus

  type Outcome = Result<State, Rejection>

  /** `state.get("balances", {})` */
  function Balances(st: State): map<string, int> {
    if st.balances.Some? then st.balances.value else map[]
  }

  /** `state.get("products", {})` */
  function Products(st: State): map<string, Product> {
    if st.products.Some? then st.products.value else map[]
  }
}
