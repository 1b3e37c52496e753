/** The token handlers, the dispatch over all eight handlers, and runs of transactions. */
module ExecutionEngine {
  import opened Wrappers
  import opened LedgerState
  import opened SupplyChain

  function HandleTransfer(st: State, tx: Transaction): Outcome {
    if tx.sender.None? || tx.recipient.None? || tx.amount.NoAmount? then Err(MissingField)
    else if tx.amount.BadAmount? then Err(UnreadableAmount)
    else if tx.amount.n <= 0 then Err(NotPositive)
    else if st.balances.None? then Err(NoBalances)
    else
      var b := st.balances.value;
      var (s, r, n) := (tx.sender.value, tx.recipient.value, tx.amount.n);
      if s !in b || r !in b then Err(UnknownAccount)
      else if b[s] < n then Err(InsufficientFunds)
      else
        var debited := b[s := b[s] - n];
        Ok(st.(balances := Some(debited[r := debited[r] + n])))
  }

  function HandleMint(st: State, tx: Transaction): Outcome {
    if tx.recipient.None? || tx.amount.NoAmount? then Err(MissingField)
    else if tx.amount.BadAmount? then Err(UnreadableAmount)
    else if tx.amount.n <= 0 then Err(NotPositive)
    else if st.balances.None? then Err(NoBalances)
    else
      var b := st.balances.value;
      var r := tx.recipient.value;
      Ok(st.(balances := Some(b[r := (if r in b then b[r] else 0) + tx.amount.n])))
  }

  function HandleBurn(st: State, tx: Transaction): Outcome {
    if tx.sender.None? || tx.amount.NoAmount? then Err(MissingField)
    else if tx.amount.BadAmount? then Err(UnreadableAmount)
    else if tx.amount.n <= 0 then Err(NotPositive)
    else if st.balances.None? then Err(NoBalances)
    else
      var b := st.balances.value;
      var s := tx.sender.value;
      if s !in b then Err(UnknownAccount)
      else if b[s] < tx.amount.n then Err(InsufficientFunds)
      else Ok(st.(balances := Some(b[s := b[s] - tx.amount.n])))
  }

  function Execute(st: State, tx: Transaction): Outcome {
    match tx.kind
    case Transfer => HandleTransfer(st, tx)
    case Mint => HandleMint(st, tx)
    case Burn => HandleBurn(st, tx)
    case Ship => HandleShip(st, tx)
    case Receive => HandleReceive(st, tx)
    case Inspect => HandleInspect(st, tx)
    case Quarantine => HandleQuarantine(st, tx)
    case Release => HandleRelease(st, tx)
    case Unregistered => Err(UnknownType)
  }

  // ------------------------------------------------------------------
  // Runs
  // ------------------------------------------------------------------

  /** A rejected transaction leaves the state alone. */
  function Step(st: State, tx: Transaction): State {
    var r := Execute(st, tx);
    if r.Ok? then r.value else st
  }

  function Run(st: State, txs: seq<Transaction>): State
    decreases |txs|
  {
    if txs == [] then st else Run(Step(st, txs[0]), txs[1..])
  }

  function Verdicts(st: State, txs: seq<Transaction>): (v: seq<bool>)
    ensures |v| == |txs|
    decreases |txs|
  {
    if txs == [] then [] else [Execute(st, txs[0]).Ok?] + Verdicts(Step(st, txs[0]), txs[1..])
  }

  /** The transactions of a run that were accepted, in order. */
  function Accepted(st: State, txs: seq<Transaction>): seq<Transaction>
    decreases |txs|
  {
    if txs == [] then []
    else (if Execute(st, txs[0]).Ok? then [txs[0]] else []) + Accepted(Step(st, txs[0]), txs[1..])
  }

  lemma {:induction false} RunAppend(st: State, txs: seq<Transaction>, tx: Transaction)
    ensures Run(st, txs + [tx]) == Step(Run(st, txs), tx)
    decreases |txs|
  {
    if txs == [] {
      assert ([tx])[1..] == [];
    } else {
      assert (txs + [tx])[1..] == txs[1..] + [tx];
      RunAppend(Step(st, txs[0]), txs[1..], tx);
    }
  }
}
