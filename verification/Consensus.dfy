/** One voting round: signature filter, plurality vote with tie-break, quorum fraction. */
module Consensus {
  import opened Wrappers
  import opened Sequences
  import opened Strings
  import opened Nodes

  /** A fraction; the code's floating-point threshold taken as the rational it stands for. */
  datatype Ratio = Ratio(num: int, den: int)
  type Threshold = t: Ratio | t.den > 0 witness Ratio(51, 100)

  const DEFAULT_QUORUM_THRESHOLD: Threshold := Ratio(51, 100)

  datatype ConsensusResult = ConsensusResult(
    agreedHash: Option<string>,
    voteCounts: map<string, nat>,
    honestNodes: seq<string>,
    faultyNodes: seq<string>,
    invalidSigNodes: seq<string>,
    totalNodes: nat,
    consensusReached: bool,
    threshold: Threshold)

  // ------------------------------------------------------------------
  // Specification
  // ------------------------------------------------------------------

  /** With no keys registered nothing is verified; otherwise a known key must have signed. */
  predicate Accepts(keys: map<string, nat>, r: NodeResult) {
    keys == map[] ||
    (r.nodeId in keys && r.signature.Some? && VerifyResult(r.nodeId, r.stateHash, r.signature.value, keys[r.nodeId]))
  }

  function Accepting(keys: map<string, nat>): NodeResult -> bool {
    (r: NodeResult) => Accepts(keys, r)
  }

  function Refusing(keys: map<string, nat>): NodeResult -> bool {
    (r: NodeResult) => !Accepts(keys, r)
  }

  function VotingFor(hash: string): NodeResult -> bool {
    (r: NodeResult) => r.stateHash == hash
  }

  function VotingAgainst(hash: string): NodeResult -> bool {
    (r: NodeResult) => r.stateHash != hash
  }

  const NODE_ID: NodeResult -> string := (r: NodeResult) => r.nodeId
  const STATE_HASH: NodeResult -> string := (r: NodeResult) => r.stateHash

  function Ids(rs: seq<NodeResult>): seq<string> {
    Map(NODE_ID, rs)
  }

  function Verified(keys: map<string, nat>, rs: seq<NodeResult>): seq<NodeResult> {
    Filter(Accepting(keys), rs)
  }

  function InvalidIds(keys: map<string, nat>, rs: seq<NodeResult>): seq<string> {
    Ids(Filter(Refusing(keys), rs))
  }

  function Votes(rs: seq<NodeResult>): map<string, nat> {
    Tally(Map(STATE_HASH, rs))
  }

  /** Hashes with the most votes. */
  function Leaders(votes: map<string, nat>): set<string> {
    set h | h in votes && forall g | g in votes :: votes[g] <= votes[h]
  }

  lemma {:induction false} LeaderExists(votes: map<string, nat>, hs: set<string>) returns (h: string)
    requires hs != {} && hs <= votes.Keys
    ensures h in hs && forall g | g in hs :: votes[g] <= votes[h]
    decreases hs
  {
    h :| h in hs;
    if hs != {h} {
      var g := LeaderExists(votes, hs - {h});
      h := if votes[g] <= votes[h] then h else g;
    }
  }

  /** `_select_winner`: most votes, ties to the lexicographically smallest hash. */
  function SelectWinner(votes: map<string, nat>): (h: string)
    requires votes != map[]
    ensures h in votes && forall g | g in votes :: votes[g] < votes[h] || (votes[g] == votes[h] && LexLe(h, g))
  {
    assert Leaders(votes) != {} by {
      var x :| x in votes;
      var h := LeaderExists(votes, votes.Keys);
      assert h in Leaders(votes);
    }
    var least := LeastOf(Leaders(votes));
    assert forall g | g in votes && votes[g] == votes[least] :: g in Leaders(votes);
    least
  }

  /** `ConsensusResult.__init__`: the quorum is over the counted votes. */
  ghost function Outcome(agreed: Option<string>, votes: map<string, nat>, honest: seq<string>,
                         faulty: seq<string>, invalid: seq<string>, t: Threshold): ConsensusResult
  {
    var total := Sum(Widen(votes));
    var agreeing := if agreed.Some? && agreed.value in votes then votes[agreed.value] else 0;
    ConsensusResult(agreed, votes, honest, faulty, invalid, |honest| + |faulty|,
                    agreed.Some? && total > 0 && agreeing * t.den >= t.num * total, t)
  }

  ghost function Decide(results: seq<NodeResult>, keys: map<string, nat>, t: Threshold): ConsensusResult {
    var verified := Verified(keys, results);
    var invalid := InvalidIds(keys, results);
    if verified == [] then Outcome(None, map[], [], Ids(results), invalid, t)
    else
      var votes := Votes(verified);
      VotesNotEmpty(verified);
      var h := SelectWinner(votes);
      Outcome(Some(h), votes, Ids(Filter(VotingFor(h), verified)),
              Ids(Filter(VotingAgainst(h), verified)) + invalid, invalid, t)
  }

  lemma VotesNotEmpty(rs: seq<NodeResult>)
    requires rs != []
    ensures Votes(rs) != map[]
  {
    var hs := Map(STATE_HASH, rs);
    assert hs[0] in hs;
    assert hs[0] in Votes(rs);
  }

  // ------------------------------------------------------------------
  // Implementation
  // ------------------------------------------------------------------

  /** `sum(vote_counts.values())` */
  method SumValues(m: map<string, nat>) returns (total: nat)
    ensures total == Sum(Widen(m))
  {
    total := 0;
    var rest := m.Keys;
    while rest != {}
      invariant rest <= m.Keys
      invariant total + SumOver(Widen(m), rest) == Sum(Widen(m))
      decreases rest
    {
      var k :| k in rest;
      SumOverPull(Widen(m), rest, k);
      total := total + m[k];
      rest := rest - {k};
    }
  }

  method NewConsensusResult(agreed: Option<string>, votes: map<string, nat>, honest: seq<string>,
                            faulty: seq<string>, invalid: seq<string>, t: Threshold)
    returns (cr: ConsensusResult)
    ensures cr == Outcome(agreed, votes, honest, faulty, invalid, t)
  {
    var total := SumValues(votes);
    var reached := false;
    if agreed.Some? && total > 0 {
      var agreeing := if agreed.value in votes then votes[agreed.value] else 0;
      reached := agreeing * t.den >= t.num * total;
    }
    cr := ConsensusResult(agreed, votes, honest, faulty, invalid, |honest| + |faulty|, reached, t);
  }

  lemma VerifyOne(keys: map<string, nat>, rs: seq<NodeResult>, r: NodeResult)
    ensures Verified(keys, rs + [r]) == Verified(keys, rs) + (if Accepts(keys, r) then [r] else [])
    ensures InvalidIds(keys, rs + [r]) == InvalidIds(keys, rs) + (if Accepts(keys, r) then [] else [r.nodeId])
  {
    FilterAppend(Accepting(keys), rs, r);
    FilterAppend(Refusing(keys), rs, r);
    MapConcat(NODE_ID, Filter(Refusing(keys), rs), [r]);
  }

  /** Step 1: results without a key, without a signature or with a wrong one are set aside. */
  method VerifySignatures(results: seq<NodeResult>, keys: map<string, nat>)
    returns (verified: seq<NodeResult>, invalid: seq<string>)
    ensures verified == Verified(keys, results) && invalid == InvalidIds(keys, results)
  {
    verified, invalid := [], [];
    if keys == map[] {
      verified := results;
      FilterAll(Accepting(keys), results);
      FilterNone(Refusing(keys), results);
      return;
    }
    for i := 0 to |results|
      invariant verified == Verified(keys, results[..i]) && invalid == InvalidIds(keys, results[..i])
    {
      var r := results[i];
      assert results[..i + 1] == results[..i] + [r];
      VerifyOne(keys, results[..i], r);
      if r.nodeId !in keys {
        invalid := invalid + [r.nodeId];
        continue;
      }
      if r.signature.None? || !VerifyResult(r.nodeId, r.stateHash, r.signature.value, keys[r.nodeId]) {
        invalid := invalid + [r.nodeId];
        continue;
      }
      verified := verified + [r];
    }
    assert results[..|results|] == results;
  }

  method RunConsensus(results: seq<NodeResult>, keys: map<string, nat>, t: Threshold) returns (cr: ConsensusResult)
    ensures cr == Decide(results, keys, t)
  {
    if results == [] {
      cr := NewConsensusResult(None, map[], [], [], [], t);
      return;
    }
    var verified, invalid := VerifySignatures(results, keys);
    if verified == [] {
      cr := NewConsensusResult(None, map[], [], Ids(results), invalid, t);
      return;
    }
    var votes := Votes(verified);
    VotesNotEmpty(verified);
    var h := SelectWinner(votes);
    var honest := Ids(Filter(VotingFor(h), verified));
    var hashFaulty := Ids(Filter(VotingAgainst(h), verified));
    cr := NewConsensusResult(Some(h), votes, honest, hashFaulty + invalid, invalid, t);
  }
}
