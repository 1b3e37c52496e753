/** A node's state with its execution trace, and what the trace is good for. */
module StateManagement {
  import opened Wrappers
  import opened Sequences
  import opened LedgerState
  import opened Strings
  import opened ExecutionEngine
  import opened CanonicalJson
  import opened EngineRuns
  import opened Merkle

  /** How a manager hashes states; a parameter of everything built on it. */
  datatype Hashing = Hashing(hash: State -> Digest)

  function StateHash(h: Hashing, st: State): Digest {
    h.hash(st)
  }

  /** `compute_state_hash`: the Merkle root over accounts, or the hash of the canonical JSON text. */
  function ComputedHash(sha: HashFn, useMerkle: bool, st: State): Digest {
    if useMerkle then MerkleHash(sha, Balances(st)) else sha(CanonicalText(st))
  }

  /** The hashing a node is configured with. */
  function ConfiguredHashing(sha: HashFn, useMerkle: bool): Hashing {
    Hashing((st: State) => ComputedHash(sha, useMerkle, st))
  }

  /** The strings hashed for a state. */
  function StateStrings(sha: HashFn, useMerkle: bool, st: State): set<string> {
    if useMerkle then HashedStrings(sha, Balances(st)) else {CanonicalText(st)}
  }

  /**
    Unless two hashed strings collide, the state hash commits to the whole
    state; in Merkle mode it commits to the balances, and to nothing else.
   */
  lemma StateHashBinds(sha: HashFn, useMerkle: bool, s: State, t: State)
    requires NoCollision(sha, StateStrings(sha, useMerkle, s), StateStrings(sha, useMerkle, t))
    ensures
      var h := ConfiguredHashing(sha, useMerkle);
      StateHash(h, s) == StateHash(h, t) <==> if useMerkle then Balances(s) == Balances(t) else s == t
  {
    if useMerkle {
      MerkleBinding(sha, Balances(s), Balances(t));
    } else {
      hide CanonicalText;
      if CanonicalText(s) == CanonicalText(t) {
        CanonicalTextInjective(s, t);
      }
    }
  }

  /** In the default mode the state hash is that of a text which reads as the state. */
  lemma FlatHashReads(sha: HashFn, st: State) returns (text: string)
    ensures StateHash(ConfiguredHashing(sha, false), st) == sha(text) && ReadCanonical(text) == Some(st)
  {
    hide CanonicalText, ReadCanonical;
    text := CanonicalText(st);
    CanonicalReadsBack(st);
  }

  /** In Merkle mode it is the root over texts which read as the sorted accounts with their balances. */
  lemma MerkleHashReads(sha: HashFn, st: State, levels: seq<seq<string>>) returns (texts: seq<string>)
    requires IsMerkleTree(sha, Map(sha, LeafStrings(Balances(st))), levels)
    ensures IsMerkleTree(sha, Map(sha, texts), levels)
    ensures StateHash(ConfiguredHashing(sha, true), st) == levels[|levels| - 1][0]
    ensures |texts| == |SortedListing(Balances(st).Keys)|
    ensures forall i :: 0 <= i < |texts| ==>
              var a := SortedListing(Balances(st).Keys)[i];
              a in Balances(st) && ReadLeaf(texts[i]) == Some((a, Balances(st)[a]))
  {
    texts := LeafStrings(Balances(st));
    LeavesReadBack(Balances(st));
    MerkleHashExactly(sha, Balances(st), levels);
  }

  // ------------------------------------------------------------------
  // Diffs
  // ------------------------------------------------------------------

  type BalanceDiff = map<string, (int, int)>

  function Diff(before: State, after: State): BalanceDiff {
    map a | a in Balances(before).Keys + Balances(after).Keys && BalanceOf(before, a) != BalanceOf(after, a)
      :: (BalanceOf(before, a), BalanceOf(after, a))
  }

  /** `diff` holds the entries of `full` for the first `i` accounts. */
  predicate PartOf(full: BalanceDiff, accounts: seq<string>, i: nat, diff: BalanceDiff) {
    && i <= |accounts|
    && (forall a :: a in diff ==> a in full && diff[a] == full[a])
    && (forall k :: 0 <= k < i && accounts[k] in full ==> accounts[k] in diff)
  }

  lemma PartIsAll(full: BalanceDiff, accounts: seq<string>, diff: BalanceDiff)
    requires PartOf(full, accounts, |accounts|, diff) && forall a :: a in full ==> a in accounts
    ensures diff == full
  {
    forall a | a in full ensures a in diff {
      assert a in accounts;
    }
    assert diff.Keys == full.Keys;
  }

  /** The loop of `_compute_diff` over a list of accounts. */
  method DiffOver(before: State, after: State, accounts: seq<string>) returns (diff: BalanceDiff)
    requires forall k :: 0 <= k < |accounts| ==> accounts[k] in Balances(before).Keys + Balances(after).Keys
    ensures PartOf(Diff(before, after), accounts, |accounts|, diff)
  {
    diff := map[];
    for i := 0 to |accounts|
      invariant PartOf(Diff(before, after), accounts, i, diff)
    {
      var a := accounts[i];
      var oldVal := BalanceOf(before, a);
      var newVal := BalanceOf(after, a);
      if oldVal != newVal {
        diff := diff[a := (oldVal, newVal)];
      }
    }
  }

  /** `_compute_diff`: visits the accounts of both states in sorted order. */
  method ComputeDiff(before: State, after: State) returns (diff: BalanceDiff)
    ensures diff == Diff(before, after)
  {
    var accounts := SortedListing(Balances(before).Keys + Balances(after).Keys);
    assert forall k :: 0 <= k < |accounts| ==> accounts[k] in accounts;
    diff := DiffOver(before, after, accounts);
    PartIsAll(Diff(before, after), accounts, diff);
  }

  // ------------------------------------------------------------------
  // Trace
  // ------------------------------------------------------------------

  datatype TraceEntry = TraceEntry(tx: Transaction, oldHash: Digest, newHash: Digest, diff: BalanceDiff)

  function Entry(h: Hashing, before: State, tx: Transaction): TraceEntry {
    var after := Step(before, tx);
    TraceEntry(tx, StateHash(h, before), StateHash(h, after), Diff(before, after))
  }

  /** State and trace, as a value. */
  datatype Managed = Managed(state: State, trace: seq<TraceEntry>)

  function Apply(h: Hashing, m: Managed, tx: Transaction): Managed {
    if Execute(m.state, tx).Ok? then Managed(Step(m.state, tx), m.trace + [Entry(h, m.state, tx)]) else m
  }

  class StateManager {
    const hashing: Hashing
    var state: State
    var trace: seq<TraceEntry>

    function View(): Managed
      reads this
    {
      Managed(state, trace)
    }

    constructor (hashing: Hashing, initial: State)
      ensures this.hashing == hashing && View() == Managed(initial, [])
    {
      this.hashing := hashing;
      state := initial;
      trace := [];
    }

    /** A refused transaction raises before the state or the trace is touched. */
    method ApplyTransaction(tx: Transaction) returns (r: Outcome)
      modifies this
      ensures r == Execute(old(state), tx)
      ensures View() == Apply(hashing, old(View()), tx)
    {
      var oldState := state;
      var oldHash := ComputeStateHash();
      r := Execute(state, tx);
      if r.Err? {
        return;
      }
      state := r.value;
      var newHash := ComputeStateHash();
      var diff := ComputeDiff(oldState, r.value);
      trace := trace + [TraceEntry(tx, oldHash, newHash, diff)];
    }

    method ComputeStateHash() returns (d: Digest)
      ensures d == StateHash(hashing, state)
    {
      d := StateHash(hashing, state);
    }
  }

  // ------------------------------------------------------------------
  // Whole runs
  // ------------------------------------------------------------------

  function ApplyAll(h: Hashing, m: Managed, txs: seq<Transaction>): Managed
    decreases |txs|
  {
    if txs == [] then m else ApplyAll(h, Apply(h, m, txs[0]), txs[1..])
  }

  /** The transactions of a trace. */
  function Traced(trace: seq<TraceEntry>): (txs: seq<Transaction>)
    ensures |txs| == |trace|
  {
    if trace == [] then [] else [trace[0].tx] + Traced(trace[1..])
  }

  /** The trace is what executing its own transactions from `origin` to `end` records. */
  ghost predicate Faithful(h: Hashing, origin: State, trace: seq<TraceEntry>, end: State)
    decreases |trace|
  {
    if trace == [] then origin == end
    else
      && Execute(origin, trace[0].tx).Ok?
      && trace[0] == Entry(h, origin, trace[0].tx)
      && Faithful(h, Step(origin, trace[0].tx), trace[1..], end)
  }

  lemma {:induction false} TracedAppend(trace: seq<TraceEntry>, e: TraceEntry)
    ensures Traced(trace + [e]) == Traced(trace) + [e.tx]
  {
    if trace != [] {
      assert (trace + [e])[1..] == trace[1..] + [e];
      TracedAppend(trace[1..], e);
    } else {
      assert [e][1..] == [];
    }
  }

  lemma {:induction false} FaithfulAppend(h: Hashing, origin: State, trace: seq<TraceEntry>, mid: State, tx: Transaction)
    requires Faithful(h, origin, trace, mid) && Execute(mid, tx).Ok?
    ensures Faithful(h, origin, trace + [Entry(h, mid, tx)], Step(mid, tx))
    decreases |trace|
  {
    var all := trace + [Entry(h, mid, tx)];
    if trace == [] {
      assert all[1..] == [];
    } else {
      assert all[0] == trace[0] && all[1..] == trace[1..] + [Entry(h, mid, tx)];
      FaithfulAppend(h, Step(origin, trace[0].tx), trace[1..], mid, tx);
    }
  }

  /** Any run keeps the trace faithful, ends in the engine's state and traces what was accepted. */
  lemma {:induction false} TraceOfRun(h: Hashing, origin: State, m: Managed, txs: seq<Transaction>)
    requires Faithful(h, origin, m.trace, m.state)
    ensures
      var end := ApplyAll(h, m, txs);
      && Faithful(h, origin, end.trace, end.state)
      && end.state == Run(m.state, txs)
      && Traced(end.trace) == Traced(m.trace) + Accepted(m.state, txs)
    decreases |txs|
  {
    if txs != [] {
      ApplyTraces(h, origin, m, txs[0]);
      TraceOfRun(h, origin, Apply(h, m, txs[0]), txs[1..]);
      AcceptedSplit(Traced(m.trace), m.state, txs);
    }
  }

  lemma {:induction false} ApplyTraces(h: Hashing, origin: State, m: Managed, tx: Transaction)
    requires Faithful(h, origin, m.trace, m.state)
    ensures
      var next := Apply(h, m, tx);
      && Faithful(h, origin, next.trace, next.state) && next.state == Step(m.state, tx)
      && Traced(next.trace) == Traced(m.trace) + (if Execute(m.state, tx).Ok? then [tx] else [])
  {
    if Execute(m.state, tx).Ok? {
      FaithfulAppend(h, origin, m.trace, m.state, tx);
      TracedAppend(m.trace, Entry(h, m.state, tx));
    }
  }

  lemma {:induction false} AcceptedSplit(before: seq<Transaction>, st: State, txs: seq<Transaction>)
    requires txs != []
    ensures before + (if Execute(st, txs[0]).Ok? then [txs[0]] else []) + Accepted(Step(st, txs[0]), txs[1..])
         == before + Accepted(st, txs)
  {
    hide Execute, Step;
  }

  /** Replaying the traced transactions reproduces the state, none of them refused. */
  lemma {:induction false} Replay(h: Hashing, origin: State, trace: seq<TraceEntry>, end: State)
    requires Faithful(h, origin, trace, end)
    ensures Run(origin, Traced(trace)) == end
    ensures Accepted(origin, Traced(trace)) == Traced(trace)
    decreases |trace|
  {
    if trace != [] {
      var txs := Traced(trace);
      assert txs[0] == trace[0].tx && txs[1..] == Traced(trace[1..]);
      Replay(h, Step(origin, trace[0].tx), trace[1..], end);
    }
  }

  /** Hashes chain from the hash of the origin to the hash of the current state. */
  lemma {:induction false} HashChain(h: Hashing, origin: State, trace: seq<TraceEntry>, end: State)
    requires Faithful(h, origin, trace, end)
    ensures trace == [] ==> StateHash(h, origin) == StateHash(h, end)
    ensures trace != [] ==> trace[0].oldHash == StateHash(h, origin) && trace[|trace| - 1].newHash == StateHash(h, end)
    ensures forall i :: 0 <= i < |trace| - 1 ==> trace[i].newHash == trace[i + 1].oldHash
    decreases |trace|
  {
    if trace != [] {
      var rest := trace[1..];
      HashChain(h, Step(origin, trace[0].tx), rest, end);
      forall i | 0 <= i < |trace| - 1 ensures trace[i].newHash == trace[i + 1].oldHash {
        assert trace[i + 1] == rest[i];
        if i > 0 { assert trace[i] == rest[i - 1]; }
      }
    }
  }

  /** Entry `i` carries its transaction and the true hashes of the states before and after it. */
  lemma {:induction false} EntryHashes(h: Hashing, origin: State, trace: seq<TraceEntry>, end: State, i: nat)
    requires Faithful(h, origin, trace, end) && i < |trace|
    ensures
      var before := Run(origin, Traced(trace[..i]));
      trace[i].oldHash == StateHash(h, before) && trace[i].newHash == StateHash(h, Step(before, trace[i].tx))
    decreases |trace|
  {
    if i > 0 {
      EntryHashes(h, Step(origin, trace[0].tx), trace[1..], end, i - 1);
      assert trace[..i][1..] == trace[1..][..i - 1];
      assert Traced(trace[..i]) == [trace[0].tx] + Traced(trace[1..][..i - 1]);
      assert Traced(trace[..i])[1..] == Traced(trace[1..][..i - 1]);
    } else {
      assert Traced(trace[..i]) == [];
    }
  }

  /** The balance of an account after applying diffs one after the other. */
  function Patched(balance: int, trace: seq<TraceEntry>, account: string): int
    decreases |trace|
  {
    if trace == [] then balance
    else Patched(if account in trace[0].diff then trace[0].diff[account].1 else balance, trace[1..], account)
  }

  /** The diffs alone turn the balances of the origin into the current ones. */
  lemma {:induction false} DiffsReplay(h: Hashing, origin: State, trace: seq<TraceEntry>, end: State, account: string)
    requires Faithful(h, origin, trace, end)
    ensures Patched(BalanceOf(origin, account), trace, account) == BalanceOf(end, account)
    decreases |trace|
  {
    if trace != [] {
      DiffsReplay(h, Step(origin, trace[0].tx), trace[1..], end, account);
    }
  }

  /** A diff lists an account only with its true, different balances before and after. */
  lemma {:induction false} DiffsListOnlyChanges(h: Hashing, origin: State, trace: seq<TraceEntry>, end: State, i: nat)
    requires Faithful(h, origin, trace, end) && i < |trace|
    ensures
      var before := Run(origin, Traced(trace[..i]));
      forall a :: a in trace[i].diff ==>
        && trace[i].diff[a] == (BalanceOf(before, a), BalanceOf(Step(before, trace[i].tx), a))
        && trace[i].diff[a].0 != trace[i].diff[a].1
    decreases |trace|
  {
    if i > 0 {
      DiffsListOnlyChanges(h, Step(origin, trace[0].tx), trace[1..], end, i - 1);
      assert trace[..i][1..] == trace[1..][..i - 1];
      assert Traced(trace[..i]) == [trace[0].tx] + Traced(trace[1..][..i - 1]);
      assert Traced(trace[..i])[1..] == Traced(trace[1..][..i - 1]);
    } else {
      assert Traced(trace[..i]) == [];
    }
  }

  /** Trace soundness for a fresh manager after any list of transactions. */
  lemma {:induction false} TraceSoundness(h: Hashing, origin: State, txs: seq<Transaction>)
    ensures
      var end := ApplyAll(h, Managed(origin, []), txs);
      && end.state == Run(origin, txs)
      && Traced(end.trace) == Accepted(origin, txs)
      && Faithful(h, origin, end.trace, end.state)
      && Run(origin, Accepted(origin, txs)) == end.state
  {
    TraceOfRun(h, origin, Managed(origin, []), txs);
    var end := ApplyAll(h, Managed(origin, []), txs);
    Replay(h, origin, end.trace, end.state);
  }
}
