/** A network participant: executes, hashes, possibly lies, possibly signs. */
module Nodes {
  import opened Wrappers
  import opened LedgerState
  import opened Strings
  import opened ExecutionEngine
  import opened Merkle
  import opened StateManagement

  /**
    Signatures as symbolic terms: a key's signature of a message, or any other
    text.  A key and its public half share one name.
   */
  datatype Signature = Sig(key: nat, message: string) | Forged(text: string)

  function ResultMessage(nodeId: string, stateHash: string): string {
    nodeId + ":" + stateHash
  }

  predicate VerifyResult(nodeId: string, stateHash: string, signature: Signature, publicKey: nat) {
    signature == Sig(publicKey, ResultMessage(nodeId, stateHash))
  }

  datatype NodeResult = NodeResult(nodeId: string, stateHash: string, signature: Option<Signature>)

  /** `true_hash[:-8] + "DEADBEEF"` */
  function CorruptHash(h: Digest): string {
    h[..56] + "DEADBEEF"
  }

  /** A corrupted hash is no digest at all, and different digests stay comparable only by their first 56 digits. */
  lemma CorruptHashIsNoDigest(h: Digest)
    ensures !IsDigest(CorruptHash(h)) && CorruptHash(h) != h
    ensures |CorruptHash(h)| == 64 && CorruptHash(h)[..56] == h[..56] && CorruptHash(h)[56..] == "DEADBEEF"
  {
    assert !IsHexDigit(CorruptHash(h)[56]);
  }

  /** A digest sorts before its corruption exactly if its 57th digit is a decimal one, capitals lying between digits and small letters. */
  lemma {:induction false} CorruptHashOrder(h: Digest)
    ensures LexLe(h, CorruptHash(h)) <==> h[56] <= '9'
  {
    var c := CorruptHash(h);
    CorruptHashIsNoDigest(h);
    LexMeans(h, c);
    assert c[56] == "DEADBEEF"[0] == 'D' && IsHexDigit(h[56]);
    assert forall i :: 0 <= i < 56 ==> h[i] == c[i];
    if k: nat :| FirstSmaller(h, c, k) {
      forall i | 0 <= i < k ensures h[i] == c[i] {
        assert h[..k][i] == c[..k][i];
      }
    }
    if h[56] <= '9' {
      assert FirstSmaller(h, c, 56);
    }
  }

  /** A digest and its corruption contain no colon. */
  lemma HashesColonFree(h: Digest)
    ensures ':' !in h && ':' !in CorruptHash(h)
  {
    forall i | 0 <= i < 64 ensures CorruptHash(h)[i] != ':' {
      assert CorruptHash(h)[i] == if i < 56 then h[i] else "DEADBEEF"[i - 56];
    }
  }

  /** A signature verifies exactly for the key that made it and for a text that reads as this node and this hash. */
  lemma SignatureCovers(nodeId: string, stateHash: string, signature: Signature, publicKey: nat)
    requires ':' !in stateHash
    ensures VerifyResult(nodeId, stateHash, signature, publicKey) <==>
      && signature.Sig? && signature.key == publicKey
      && SplitAtLastColon(signature.message) == Some((nodeId, stateHash))
  {
    LastColon(nodeId, stateHash);
    if signature.Sig? {
      SplitMeans(signature.message);
    }
  }

  /** So a signature made for one node and hash is good for no other. */
  lemma SignatureIsForOne(i: string, g: string, k: nat, j: string, h: string, m: nat)
    requires ':' !in g && ':' !in h
    ensures VerifyResult(j, h, Sig(k, ResultMessage(i, g)), m) <==> i == j && g == h && k == m
  {
    SignatureCovers(j, h, Sig(k, ResultMessage(i, g)), m);
    LastColon(i, g);
  }

  /** A node as a value. */
  datatype Replica = Replica(id: string, malicious: bool, key: Option<nat>, managed: Managed)

  /** Same identities, faults and keys, whatever the states. */
  predicate SameRoster(rs: seq<Replica>, qs: seq<Replica>) {
    |rs| == |qs| && forall i :: 0 <= i < |rs| ==>
      rs[i].id == qs[i].id && rs[i].malicious == qs[i].malicious && rs[i].key == qs[i].key
  }

  function ReplicaStep(h: Hashing, r: Replica, tx: Transaction): Replica {
    r.(managed := Apply(h, r.managed, tx))
  }

  function ReportedHash(malicious: bool, trueHash: Digest): string {
    if malicious then CorruptHash(trueHash) else trueHash
  }

  /** What a node in its new state reports. */
  function Report(h: Hashing, r: Replica): NodeResult {
    var hash := ReportedHash(r.malicious, StateHash(h, r.managed.state));
    NodeResult(r.id, hash, if r.key.Some? then Some(Sig(r.key.value, ResultMessage(r.id, hash))) else None)
  }

  /** A report names its node, tells the truth unless the node is malicious, and is signed for exactly what it says, with the node's key if it has one. */
  lemma ReportExactly(h: Hashing, r: Replica, id: string, hash: string, publicKey: nat)
    requires ':' !in hash
    ensures
      var (report, truth) := (Report(h, r), StateHash(h, r.managed.state));
      && report.nodeId == r.id
      && report.stateHash == (if r.malicious then truth[..56] + "DEADBEEF" else truth)
      && (report.signature.Some? <==> r.key.Some?)
      && (report.signature.Some? ==>
            (VerifyResult(id, hash, report.signature.value, publicKey) <==>
              id == r.id && hash == report.stateHash && r.key == Some(publicKey)))
  {
    var report := Report(h, r);
    HashesColonFree(StateHash(h, r.managed.state));
    if r.key.Some? {
      SignatureIsForOne(r.id, report.stateHash, r.key.value, id, hash, publicKey);
    }
  }

  /** What executing a transaction returns: the result put to the vote, the new state and its trace entry. */
  datatype Execution = Execution(result: NodeResult, resultState: State, traceEntry: TraceEntry)

  class Node {
    const nodeId: string
    const malicious: bool
    const signingKey: Option<nat>
    const manager: StateManager

    constructor (nodeId: string, hashing: Hashing, initial: State, malicious: bool, signingKey: Option<nat>)
      ensures fresh(manager) && manager.hashing == hashing
      ensures View() == Replica(nodeId, malicious, signingKey, Managed(initial, []))
    {
      this.nodeId := nodeId;
      this.malicious := malicious;
      this.signingKey := signingKey;
      manager := new StateManager(hashing, initial);
    }

    function View(): Replica
      reads manager
    {
      Replica(nodeId, malicious, signingKey, manager.View())
    }

    /** A malicious node keeps the correct state and lies about its hash. */
    method ExecuteTransaction(tx: Transaction) returns (r: Result<Execution, Rejection>)
      modifies manager
      ensures View() == ReplicaStep(manager.hashing, old(View()), tx)
      ensures r.Ok? == Execute(old(manager.state), tx).Ok?
      ensures r.Ok? ==>
                && r.value.result == Report(manager.hashing, View())
                && r.value.resultState == manager.state
                && manager.trace == old(manager.trace) + [r.value.traceEntry]
    {
      var outcome := manager.ApplyTransaction(tx);
      if outcome.Err? {
        return Err(outcome.error);
      }
      var trueHash := manager.ComputeStateHash();
      var reported: string := trueHash;
      if malicious {
        reported := CorruptHash(trueHash);
      }
      var signature: Option<Signature> := None;
      if signingKey.Some? {
        signature := Some(Sig(signingKey.value, ResultMessage(nodeId, reported)));
      }
      var entry := manager.trace[|manager.trace| - 1];
      r := Ok(Execution(NodeResult(nodeId, reported, signature), outcome.value, entry));
    }
  }
}
