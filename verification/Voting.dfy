/** What a voting round guarantees, whatever the results it is given. */
module Voting {
  import opened Wrappers
  import opened Sequences
  import opened Strings
  import opened Nodes
  import opened Consensus

  // ------------------------------------------------------------------
  // Counting
  // ------------------------------------------------------------------

  /** Verified votes for a hash. */
  function Count(keys: map<string, nat>, results: seq<NodeResult>, hash: string): nat {
    |Filter(VotingFor(hash), Verified(keys, results))|
  }

  lemma {:induction false} HashCount(rs: seq<NodeResult>, hash: string)
    ensures multiset(Map(STATE_HASH, rs))[hash] == |Filter(VotingFor(hash), rs)|
  {
    if rs != [] {
      HashCount(rs[1..], hash);
      assert Map(STATE_HASH, rs) == [rs[0].stateHash] + Map(STATE_HASH, rs[1..]);
    }
  }

  lemma {:induction false} VotesCount(rs: seq<NodeResult>, hash: string)
    ensures hash in Votes(rs) <==> |Filter(VotingFor(hash), rs)| > 0
    ensures hash in Votes(rs) ==> Votes(rs)[hash] == |Filter(VotingFor(hash), rs)|
  {
    HashCount(rs, hash);
    var hs := Map(STATE_HASH, rs);
    assert hash in hs <==> multiset(hs)[hash] > 0;
  }

  lemma {:induction false} TwoHashes(rs: seq<NodeResult>, g: string, h: string)
    requires g != h
    ensures |Filter(VotingFor(g), rs)| + |Filter(VotingFor(h), rs)| <= |rs|
  {
    if rs != [] {
      TwoHashes(rs[1..], g, h);
    }
  }

  /** Most verified votes, and lexicographically least among those with most. */
  ghost predicate Wins(keys: map<string, nat>, results: seq<NodeResult>, h: string) {
    && Count(keys, results, h) > 0
    && forall g :: Count(keys, results, g) <= Count(keys, results, h)
         && (Count(keys, results, g) == Count(keys, results, h) ==> LexLe(h, g))
  }

  lemma {:induction false} WinnerWins(rs: seq<NodeResult>, g: string)
    requires rs != [] && Votes(rs) != map[]
    ensures
      var h := SelectWinner(Votes(rs));
      var (m, n) := (|Filter(VotingFor(g), rs)|, |Filter(VotingFor(h), rs)|);
      0 < n && m <= n && (m == n ==> LexLe(h, g))
  {
    var votes := Votes(rs);
    var h := SelectWinner(votes);
    VotesCount(rs, h);
    VotesCount(rs, g);
    assert IsLeast(h, Leaders(votes));
    if g in votes && votes[g] == votes[h] {
      assert g in Leaders(votes);
    }
  }

  lemma SelectedWins(results: seq<NodeResult>, keys: map<string, nat>)
    requires Verified(keys, results) != [] && Votes(Verified(keys, results)) != map[]
    ensures Wins(keys, results, SelectWinner(Votes(Verified(keys, results))))
  {
    var rs := Verified(keys, results);
    var w := SelectWinner(Votes(rs));
    WinnerWins(rs, w);
    forall g
      ensures Count(keys, results, g) <= Count(keys, results, w)
      ensures Count(keys, results, g) == Count(keys, results, w) ==> LexLe(w, g)
    {
      WinnerWins(rs, g);
    }
  }

  lemma OneWinner(results: seq<NodeResult>, keys: map<string, nat>, g: string, h: string)
    requires Wins(keys, results, g) && Wins(keys, results, h)
    ensures g == h
  {
    assert Count(keys, results, g) <= Count(keys, results, h) <= Count(keys, results, g);
    LexTotal(g, h);
  }

  /** The agreed hash is exactly the winner; there is none exactly when nothing verifies. */
  lemma WinnerExact(results: seq<NodeResult>, keys: map<string, nat>, t: Threshold, h: string)
    ensures Decide(results, keys, t).agreedHash == Some(h) <==> Wins(keys, results, h)
    ensures Decide(results, keys, t).agreedHash == None <==> Verified(keys, results) == []
  {
    var rs := Verified(keys, results);
    if rs != [] {
      VotesNotEmpty(rs);
      SelectedWins(results, keys);
      if Wins(keys, results, h) {
        OneWinner(results, keys, h, SelectWinner(Votes(rs)));
      }
    }
  }

  /** The quorum is reached exactly when the winner's share of the verified votes meets the threshold. */
  lemma QuorumExact(results: seq<NodeResult>, keys: map<string, nat>, t: Threshold)
    ensures
      var cr := Decide(results, keys, t);
      cr.consensusReached <==>
        && cr.agreedHash.Some?
        && Count(keys, results, cr.agreedHash.value) * t.den >= t.num * |Verified(keys, results)|
    ensures Decide(results, keys, t).threshold == t
  {
    var rs := Verified(keys, results);
    if rs != [] {
      VotesNotEmpty(rs);
      var h := SelectWinner(Votes(rs));
      VotesCount(rs, h);
      TallySum(Map(STATE_HASH, rs));
    }
  }

  /** Reported counts are the verified counts, and the winner's count is the number of honest nodes. */
  lemma ReportedCounts(results: seq<NodeResult>, keys: map<string, nat>, t: Threshold)
    ensures
      var cr := Decide(results, keys, t);
      && (forall g :: g in cr.voteCounts <==> Count(keys, results, g) > 0)
      && (forall g :: g in cr.voteCounts ==> cr.voteCounts[g] == Count(keys, results, g))
      && (cr.agreedHash.Some? ==> |cr.honestNodes| == Count(keys, results, cr.agreedHash.value))
  {
    var cr := Decide(results, keys, t);
    forall g
      ensures g in cr.voteCounts <==> Count(keys, results, g) > 0
      ensures g in cr.voteCounts ==> cr.voteCounts[g] == Count(keys, results, g)
    {
      VotesCount(Verified(keys, results), g);
    }
  }

  // ------------------------------------------------------------------
  // Partition and order independence
  // ------------------------------------------------------------------

  lemma {:induction false} IdsSplit(p: NodeResult -> bool, q: NodeResult -> bool, rs: seq<NodeResult>)
    requires forall r :: p(r) == !q(r)
    ensures multiset(Ids(Filter(p, rs))) + multiset(Ids(Filter(q, rs))) == multiset(Ids(rs))
  {
    FilterSplit(p, q, rs);
    MapPermutation(NODE_ID, Filter(p, rs) + Filter(q, rs), rs);
    MapConcat(NODE_ID, Filter(p, rs), Filter(q, rs));
  }

  /** In every branch the honest and faulty lists together are the nodes that answered. */
  lemma Partition(results: seq<NodeResult>, keys: map<string, nat>, t: Threshold)
    ensures
      var cr := Decide(results, keys, t);
      && multiset(cr.honestNodes) + multiset(cr.faultyNodes) == multiset(Ids(results))
      && multiset(cr.invalidSigNodes) <= multiset(cr.faultyNodes)
      && cr.totalNodes == |results|
  {
    var rs := Verified(keys, results);
    IdsSplit(Accepting(keys), Refusing(keys), results);
    FilterSplit(Accepting(keys), Refusing(keys), results);
    if rs == [] {
      assert multiset(InvalidIds(keys, results)) == multiset(Ids(results)) by {
        assert Ids(rs) == [];
      }
    } else {
      VotesNotEmpty(rs);
      VotersSplit(rs, SelectWinner(Votes(rs)), InvalidIds(keys, results));
    }
  }

  lemma {:induction false} VotersSplit(rs: seq<NodeResult>, h: string, invalid: seq<string>)
    ensures
      var (honest, faulty) := (Ids(Filter(VotingFor(h), rs)), Ids(Filter(VotingAgainst(h), rs)) + invalid);
      && multiset(honest) + multiset(faulty) == multiset(Ids(rs)) + multiset(invalid)
      && multiset(invalid) <= multiset(faulty)
      && |honest| + |faulty| == |rs| + |invalid|
  {
    IdsSplit(VotingFor(h), VotingAgainst(h), rs);
    FilterSplit(VotingFor(h), VotingAgainst(h), rs);
  }

  lemma {:induction false} IdsPermutation(p: NodeResult -> bool, rs: seq<NodeResult>, qs: seq<NodeResult>)
    requires multiset(rs) == multiset(qs)
    ensures multiset(Filter(p, rs)) == multiset(Filter(p, qs))
    ensures multiset(Ids(Filter(p, rs))) == multiset(Ids(Filter(p, qs)))
  {
    FilterPermutation(p, rs, qs);
    MapPermutation(NODE_ID, Filter(p, rs), Filter(p, qs));
  }

  /** The order in which results arrive does not matter. */
  lemma OrderIndependence(results: seq<NodeResult>, others: seq<NodeResult>, keys: map<string, nat>, t: Threshold)
    requires multiset(results) == multiset(others)
    ensures
      var (a, b) := (Decide(results, keys, t), Decide(others, keys, t));
      && a.agreedHash == b.agreedHash
      && a.voteCounts == b.voteCounts
      && a.consensusReached == b.consensusReached
      && multiset(a.honestNodes) == multiset(b.honestNodes)
      && multiset(a.faultyNodes) == multiset(b.faultyNodes)
      && multiset(a.invalidSigNodes) == multiset(b.invalidSigNodes)
  {
    var (rs, qs) := (Verified(keys, results), Verified(keys, others));
    IdsPermutation(Accepting(keys), results, others);
    IdsPermutation(Refusing(keys), results, others);
    MapPermutation(NODE_ID, results, others);
    assert |rs| == |multiset(rs)| == |multiset(qs)| == |qs|;
    if rs != [] {
      MapPermutation(STATE_HASH, rs, qs);
      TallyPermutation(Map(STATE_HASH, rs), Map(STATE_HASH, qs));
      VotesNotEmpty(rs);
      var h := SelectWinner(Votes(rs));
      IdsPermutation(VotingFor(h), rs, qs);
      IdsPermutation(VotingAgainst(h), rs, qs);
    }
  }

  // ------------------------------------------------------------------
  // Who is flagged
  // ------------------------------------------------------------------

  predicate DistinctIds(rs: seq<NodeResult>) {
    forall i, j :: 0 <= i < j < |rs| ==> rs[i].nodeId != rs[j].nodeId
  }

  lemma IdListed(rs: seq<NodeResult>, id: string)
    ensures id in Ids(rs) <==> exists r :: r in rs && r.nodeId == id
  {
    if id in Ids(rs) {
      var i :| 0 <= i < |rs| && Ids(rs)[i] == id;
      assert rs[i] in rs;
    }
    if r :| r in rs && r.nodeId == id {
      var i :| 0 <= i < |rs| && rs[i] == r;
      assert Ids(rs)[i] == id;
    }
  }

  /** With distinct ids, a node is honest exactly if its signature is accepted and its hash agreed; else faulty. */
  lemma FlaggedExactly(results: seq<NodeResult>, keys: map<string, nat>, t: Threshold, r: NodeResult)
    requires DistinctIds(results) && r in results
    ensures
      var cr := Decide(results, keys, t);
      && (r.nodeId in cr.honestNodes <==> Accepts(keys, r) && cr.agreedHash == Some(r.stateHash))
      && (r.nodeId in cr.faultyNodes <==> !(Accepts(keys, r) && cr.agreedHash == Some(r.stateHash)))
      && (r.nodeId in cr.invalidSigNodes <==> !Accepts(keys, r))
  {
    var rs := Verified(keys, results);
    OnlyOne(results, r);
    IdListed(results, r.nodeId);
    IdListed(Filter(Refusing(keys), results), r.nodeId);
    if rs != [] {
      VotesNotEmpty(rs);
      var h := SelectWinner(Votes(rs));
      IdListed(Filter(VotingFor(h), rs), r.nodeId);
      IdListed(Filter(VotingAgainst(h), rs), r.nodeId);
    }
  }

  lemma OnlyOne(results: seq<NodeResult>, r: NodeResult)
    requires DistinctIds(results) && r in results
    ensures forall s :: s in results && s.nodeId == r.nodeId ==> s == r
  {
    var i :| 0 <= i < |results| && results[i] == r;
    forall s | s in results && s.nodeId == r.nodeId ensures s == r {
      var j :| 0 <= j < |results| && results[j] == s;
    }
  }

  // ------------------------------------------------------------------
  // What a signature is good for
  // ------------------------------------------------------------------

  /** A result counts if no keys are registered, or if its node's key signed a text that reads as this node and this hash. */
  lemma AcceptsExactly(keys: map<string, nat>, r: NodeResult)
    requires ':' !in r.stateHash
    ensures Accepts(keys, r) <==>
      || keys == map[]
      || (r.nodeId in keys && r.signature.Some? && r.signature.value.Sig? && r.signature.value.key == keys[r.nodeId]
          && SplitAtLastColon(r.signature.value.message) == Some((r.nodeId, r.stateHash)))
  {
    if r.nodeId in keys && r.signature.Some? {
      SignatureCovers(r.nodeId, r.stateHash, r.signature.value, keys[r.nodeId]);
    }
  }

  /** A result that carries a signature made for another node or another hash is set aside and counts for nothing. */
  lemma MisappliedSignature(a: seq<NodeResult>, r: NodeResult, b: seq<NodeResult>, keys: map<string, nat>, t: Threshold,
                            i: string, g: string, k: nat)
    requires keys != map[] && ':' !in r.stateHash && ':' !in g
    requires r.signature == Some(Sig(k, ResultMessage(i, g))) && (i != r.nodeId || g != r.stateHash)
    ensures
      var (cr, without) := (Decide(a + [r] + b, keys, t), Decide(a + b, keys, t));
      && r.nodeId in cr.invalidSigNodes && r.nodeId in cr.faultyNodes
      && cr.agreedHash == without.agreedHash && cr.voteCounts == without.voteCounts
      && cr.consensusReached == without.consensusReached && cr.honestNodes == without.honestNodes
  {
    if r.nodeId in keys {
      SignatureIsForOne(i, g, k, r.nodeId, r.stateHash, keys[r.nodeId]);
    }
    RefusedResult(a, r, b, keys, t);
  }

  lemma RefusedResult(a: seq<NodeResult>, r: NodeResult, b: seq<NodeResult>, keys: map<string, nat>, t: Threshold)
    requires !Accepts(keys, r)
    ensures
      var (cr, without) := (Decide(a + [r] + b, keys, t), Decide(a + b, keys, t));
      && r.nodeId in cr.invalidSigNodes && r.nodeId in cr.faultyNodes
      && cr.agreedHash == without.agreedHash && cr.voteCounts == without.voteCounts
      && cr.consensusReached == without.consensusReached && cr.honestNodes == without.honestNodes
  {
    var results := a + [r] + b;
    FilterConcat(Accepting(keys), a + [r], b);
    FilterAppend(Accepting(keys), a, r);
    FilterConcat(Accepting(keys), a, b);
    assert Verified(keys, a) + [] == Verified(keys, a);
    assert r in results && r in Filter(Refusing(keys), results);
    IdListed(Filter(Refusing(keys), results), r.nodeId);
    IdListed(results, r.nodeId);
  }

  // ------------------------------------------------------------------
  // Fault bound
  // ------------------------------------------------------------------

  /** floor(n * (1 - t)) */
  function Tolerated(n: nat, t: Threshold): int {
    n * (t.den - t.num) / t.den
  }

  lemma FloorExact(n: nat, t: Threshold, c: int)
    ensures n - c <= Tolerated(n, t) <==> c * t.den >= n * t.num
  {
    var q := t.den;
    var x := n * (q - t.num);
    assert x == q * (x / q) + x % q;
    assert x == n * q - n * t.num;
    if n - c <= x / q {
      assert q * (n - c) <= q * (x / q);
    } else {
      assert q * (n - c) >= q * (x / q + 1);
    }
  }

  /** A strict majority of a roster beats every other hash. */
  lemma MajorityWins(results: seq<NodeResult>, keys: map<string, nat>, h: string)
    requires 2 * Count(keys, results, h) > |results|
    ensures Wins(keys, results, h)
  {
    LexTotal(h, h);
    forall g
      ensures Count(keys, results, g) <= Count(keys, results, h)
      ensures Count(keys, results, g) == Count(keys, results, h) ==> LexLe(h, g)
    {
      if g != h {
        TwoHashes(Verified(keys, results), g, h);
      }
    }
  }

  lemma ScaledLess(a: int, b: int, q: int)
    requires a <= b && q >= 0
    ensures a * q <= b * q && q * a <= q * b
  {
  }

  lemma ShareIsMajority(c: int, n: int, t: Threshold)
    requires c * t.den >= n * t.num && t.den < 2 * t.num && n > 0
    ensures 2 * c > n
  {
    ScaledLess(t.den + 1, 2 * t.num, n);
    assert n * (2 * t.num) == 2 * (n * t.num) && n * (t.den + 1) == n * t.den + n;
    assert 2 * c * t.den == 2 * (c * t.den);
    if 2 * c <= n {
      ScaledLess(2 * c, n, t.den);
    }
  }

  lemma ShareCovers(c: int, v: int, n: int, t: Threshold)
    requires c * t.den >= n * t.num && v <= n && t.num >= 0
    ensures c * t.den >= t.num * v
  {
    ScaledLess(v, n, t.num);
  }

  /**
    Up to floor(n(1-t)) of n nodes may be silent, badly signed or wrong: the
    hash of the others is still agreed and consensus is reached.
   */
  lemma FaultsTolerated(results: seq<NodeResult>, keys: map<string, nat>, t: Threshold, n: nat, h: string)
    requires 0 < n && |results| <= n && t.den < 2 * t.num && t.num <= t.den
    requires n - Count(keys, results, h) <= Tolerated(n, t)
    ensures Decide(results, keys, t).agreedHash == Some(h)
    ensures Decide(results, keys, t).consensusReached
  {
    var c := Count(keys, results, h);
    FloorExact(n, t, c);
    ShareIsMajority(c, n, t);
    ShareCovers(c, |Verified(keys, results)|, n, t);
    MajorityWins(results, keys, h);
    WinnerExact(results, keys, t, h);
    QuorumExact(results, keys, t);
  }

  /** Within the bound, no node that signed and computed correctly is flagged. */
  lemma CorrectNotFlagged(results: seq<NodeResult>, keys: map<string, nat>, t: Threshold, n: nat, h: string)
    requires 0 < n && |results| <= n && t.den < 2 * t.num && t.num <= t.den
    requires n - Count(keys, results, h) <= Tolerated(n, t)
    requires DistinctIds(results)
    ensures forall r :: r in results && Accepts(keys, r) && r.stateHash == h ==>
                          r.nodeId !in Decide(results, keys, t).faultyNodes
  {
    FaultsTolerated(results, keys, t, n, h);
    forall r | r in results && Accepts(keys, r) && r.stateHash == h
      ensures r.nodeId !in Decide(results, keys, t).faultyNodes
    {
      FlaggedExactly(results, keys, t, r);
    }
  }

  /** The bound is exact: with every node answering and verifying, one fault more and the hash is not agreed with consensus. */
  lemma FaultBoundExact(results: seq<NodeResult>, keys: map<string, nat>, t: Threshold, h: string)
    requires results != [] && t.den < 2 * t.num && t.num <= t.den
    requires forall r :: r in results ==> Accepts(keys, r)
    ensures
      var cr := Decide(results, keys, t);
      (cr.agreedHash == Some(h) && cr.consensusReached) <==> |results| - Count(keys, results, h) <= Tolerated(|results|, t)
  {
    var n, c := |results|, Count(keys, results, h);
    FilterAll(Accepting(keys), results);
    if n - c <= Tolerated(n, t) {
      FaultsTolerated(results, keys, t, n, h);
    } else {
      FloorExact(n, t, c);
      QuorumExact(results, keys, t);
    }
  }

  /**
    At the default threshold the bound is not floor(n/2) - 1: of 200 verified
    answers, 99 wrong ones already prevent consensus on the hash of the other 101.
   */
  lemma NinetyNineOf200AreTooMany(results: seq<NodeResult>, keys: map<string, nat>, h: string)
    requires |results| == 200 && forall r :: r in results ==> Accepts(keys, r)
    requires Count(keys, results, h) == 101
    ensures 200 / 2 - 1 == 99 && Tolerated(200, DEFAULT_QUORUM_THRESHOLD) == 98
    ensures
      var cr := Decide(results, keys, DEFAULT_QUORUM_THRESHOLD);
      !(cr.agreedHash == Some(h) && cr.consensusReached)
  {
    FaultBoundExact(results, keys, DEFAULT_QUORUM_THRESHOLD, h);
  }

  ghost predicate AllAccepted(keys: map<string, nat>, results: seq<NodeResult>) {
    forall r :: r in results ==> Accepts(keys, r)
  }

  ghost predicate AgreedOn(h: string, results: seq<NodeResult>, keys: map<string, nat>, t: Threshold) {
    Decide(results, keys, t).agreedHash == Some(h) && Decide(results, keys, t).consensusReached
  }

  /** All nodes answered and verified, at most `f` of them with another hash. */
  ghost predicate FaultsUpTo(f: int, h: string, results: seq<NodeResult>, keys: map<string, nat>) {
    DistinctIds(results) && AllAccepted(keys, results) && |results| - Count(keys, results, h) <= f
  }

  /** Any `n` nodes that all answer and verify stand `f` wrong answers. */
  ghost predicate Stands(n: nat, f: int, t: Threshold) {
    forall results, keys, h :: |results| == n && FaultsUpTo(f, h, results, keys) ==> AgreedOn(h, results, keys, t)
  }

  lemma AgreedWithin(f: int, h: string, results: seq<NodeResult>, keys: map<string, nat>, t: Threshold)
    requires results != [] && t.den < 2 * t.num && t.num <= t.den
    requires FaultsUpTo(f, h, results, keys) && f <= Tolerated(|results|, t)
    ensures AgreedOn(h, results, keys, t)
  {
    FaultBoundExact(results, keys, t, h);
  }

  lemma NotAgreedBeyond(n: nat, f: nat, t: Threshold) returns (results: seq<NodeResult>)
    requires f < n && t.den < 2 * t.num && t.num <= t.den && f > Tolerated(n, t)
    ensures |results| == n && FaultsUpTo(f, "", results, map[]) && !AgreedOn("", results, map[], t)
  {
    hide AgreedOn, Tolerated, AllAccepted, Count;
    results := Ballots(n - f, n);
    BallotsFor(n - f, n);
    NotAgreed("", results, map[], t);
  }

  lemma NotAgreed(h: string, results: seq<NodeResult>, keys: map<string, nat>, t: Threshold)
    requires results != [] && t.den < 2 * t.num && t.num <= t.den
    requires AllAccepted(keys, results) && |results| - Count(keys, results, h) > Tolerated(|results|, t)
    ensures !AgreedOn(h, results, keys, t)
  {
    FaultBoundExact(results, keys, t, h);
  }

  /** `n` answering nodes stand `f` faults exactly up to floor(n(1-t)). */
  lemma StandsExactly(n: nat, f: nat, t: Threshold)
    requires f < n && t.den < 2 * t.num && t.num <= t.den
    ensures Stands(n, f, t) <==> f <= Tolerated(n, t)
  {
    if f <= Tolerated(n, t) {
      forall results, keys, h | |results| == n && FaultsUpTo(f, h, results, keys) ensures AgreedOn(h, results, keys, t) {
        AgreedWithin(f, h, results, keys, t);
      }
    } else {
      var results := NotAgreedBeyond(n, f, t);
    }
  }

  /** The documented floor(n/2) - 1 holds exactly for rosters up to 100 and odd ones up to 149. */
  lemma DocumentedBoundExactly(n: nat)
    requires n >= 2
    ensures Stands(n, n / 2 - 1, DEFAULT_QUORUM_THRESHOLD) <==> n <= 100 || (n % 2 == 1 && n <= 149)
  {
    hide Stands;
    StandsExactly(n, n / 2 - 1, DEFAULT_QUORUM_THRESHOLD);
  }

  // ------------------------------------------------------------------
  // Denominators: verified answers or the whole roster
  // ------------------------------------------------------------------

  /** `c` of `n` is at least the threshold's share. */
  predicate MeetsShare(c: int, n: int, t: Threshold) {
    c * t.den >= t.num * n
  }

  /** `math.ceil(n * quorum_threshold)` */
  function CeilShare(n: nat, t: Threshold): int {
    (n * t.num + t.den - 1) / t.den
  }

  lemma CeilExact(n: nat, t: Threshold, c: int)
    ensures c >= CeilShare(n, t) <==> MeetsShare(c, n, t)
  {
    var q := t.den;
    var x := n * t.num + q - 1;
    assert x == q * (x / q) + x % q;
    if c >= x / q {
      ScaledLess(x / q, c, q);
    } else {
      ScaledLess(c, x / q - 1, q);
      assert q * (x / q - 1) == q * (x / q) - q;
    }
  }

  lemma CeilGrows(v: nat, n: nat, t: Threshold)
    requires v <= n && t.num >= 0
    ensures CeilShare(v, t) <= CeilShare(n, t)
  {
    CeilExact(n, t, CeilShare(n, t));
    CeilExact(v, t, CeilShare(n, t));
    ScaledLess(v, n, t.num);
  }

  lemma CeilBounds(n: nat, t: Threshold)
    requires n > 0 && 0 < t.num <= t.den
    ensures 1 <= CeilShare(n, t) <= n
  {
    CeilExact(n, t, n);
    CeilExact(n, t, 0);
    ScaledLess(t.num, t.den, n);
    ScaledLess(1, n, t.num);
  }

  /** A number of votes out of `v` answers has a share of `v` exactly when it has one of `n`, if and only if the ceilings agree. */
  lemma DenominatorsAgree(v: nat, n: nat, t: Threshold)
    requires 0 < v <= n && 0 < t.num <= t.den
    ensures (forall c: nat | c <= v :: MeetsShare(c, v, t) <==> MeetsShare(c, n, t)) <==> CeilShare(v, t) == CeilShare(n, t)
  {
    forall c: nat ensures MeetsShare(c, v, t) <==> c >= CeilShare(v, t)
      ensures MeetsShare(c, n, t) <==> c >= CeilShare(n, t)
    {
      CeilExact(v, t, c);
      CeilExact(n, t, c);
    }
    CeilBounds(v, t);
    CeilGrows(v, n, t);
    var c: nat := CeilShare(v, t);
    assert MeetsShare(c, v, t);
  }

  /** The verdict as the comments have it: the agreed hash has the threshold's share of all `n` nodes. */
  ghost predicate RosterVerdict(cr: ConsensusResult, n: nat) {
    cr.agreedHash.Some? && MeetsShare(|cr.honestNodes|, n, cr.threshold)
  }

  lemma VerdictByShare(results: seq<NodeResult>, keys: map<string, nat>, t: Threshold)
    requires AllAccepted(keys, results)
    ensures
      var cr := Decide(results, keys, t);
      cr.consensusReached <==> RosterVerdict(cr, |results|)
  {
    FilterAll(Accepting(keys), results);
    QuorumExact(results, keys, t);
    ReportedCounts(results, keys, t);
  }

  /** The verdict over `v` verified answers is the one over the roster. */
  ghost predicate VerdictsAgree(v: nat, n: nat, t: Threshold) {
    forall results, keys :: |results| == v && DistinctIds(results) && AllAccepted(keys, results) ==>
      (Decide(results, keys, t).consensusReached <==> RosterVerdict(Decide(results, keys, t), n))
  }

  lemma HonestAmongResults(results: seq<NodeResult>, keys: map<string, nat>, t: Threshold)
    ensures |Decide(results, keys, t).honestNodes| <= |results|
  {
    Partition(results, keys, t);
  }

  /**
    Counting silent and excluded nodes in the denominator makes no difference
    exactly when the threshold asks for as many votes of the answers as of the roster.
   */
  lemma VerdictsAgreeExactly(v: nat, n: nat, t: Threshold)
    requires 0 < v <= n && 0 < t.num <= t.den
    ensures VerdictsAgree(v, n, t) <==> CeilShare(v, t) == CeilShare(n, t)
  {
    if CeilShare(v, t) == CeilShare(n, t) {
      DenominatorsAgree(v, n, t);
      forall results, keys | |results| == v && AllAccepted(keys, results)
        ensures Decide(results, keys, t).consensusReached <==> RosterVerdict(Decide(results, keys, t), n)
      {
        VerdictByShare(results, keys, t);
        HonestAmongResults(results, keys, t);
      }
    }
    if VerdictsAgree(v, n, t) {
      CeilBounds(v, t);
      CeilGrows(v, n, t);
      var c := CeilShare(v, t);
      CeilExact(v, t, c);
      CeilExact(n, t, c);
      BallotsFor(c, v);
      BallotsVerdict(c, v, t);
    }
  }

  // Ballots that tell the two denominators apart: `c` nodes vote alike, the others each for themselves.

  function Name(i: nat): (s: string)
    ensures |s| == i
  {
    seq(i, _ => 'a')
  }

  function Ballots(c: nat, v: nat): (rs: seq<NodeResult>)
    requires 0 < c <= v
    ensures |rs| == v
  {
    seq(v, i requires 0 <= i => NodeResult(Name(i), if i < c then "" else Name(i), None))
  }

  lemma {:induction false} BallotCount(c: nat, v: nat, h: string)
    requires 0 < c <= v
    ensures |Filter(VotingFor(""), Ballots(c, v))| == c
    ensures h != "" ==> |Filter(VotingFor(h), Ballots(c, v))| <= if |h| < v then 1 else 0
    decreases v
  {
    var rs := Ballots(c, v);
    if v == c {
      FilterAll(VotingFor(""), rs);
      if h != "" {
        FilterNone(VotingFor(h), rs);
      }
    } else {
      BallotCount(c, v - 1, h);
      assert rs == Ballots(c, v - 1) + [rs[v - 1]];
      FilterAppend(VotingFor(""), Ballots(c, v - 1), rs[v - 1]);
      FilterAppend(VotingFor(h), Ballots(c, v - 1), rs[v - 1]);
    }
  }

  lemma BallotsFor(c: nat, v: nat)
    requires 0 < c <= v
    ensures DistinctIds(Ballots(c, v)) && AllAccepted(map[], Ballots(c, v))
    ensures Count(map[], Ballots(c, v), "") == c
  {
    FilterAll(Accepting(map[]), Ballots(c, v));
    BallotCount(c, v, "");
  }

  /** Whichever hash wins the ballots, it has `c` votes. */
  lemma BallotsVerdict(c: nat, v: nat, t: Threshold)
    requires 0 < c <= v
    ensures
      var cr := Decide(Ballots(c, v), map[], t);
      && cr.agreedHash.Some? && |cr.honestNodes| == c
      && (cr.consensusReached <==> MeetsShare(c, v, t))
  {
    var rs := Ballots(c, v);
    var cr := Decide(rs, map[], t);
    BallotsFor(c, v);
    FilterAll(Accepting(map[]), rs);
    WinnerExact(rs, map[], t, "");
    var h := cr.agreedHash.value;
    WinnerExact(rs, map[], t, h);
    BallotCount(c, v, h);
    ReportedCounts(rs, map[], t);
    VerdictByShare(rs, map[], t);
  }

  /** The fraction is over verified answers: one of them alone is agreed, and reaches consensus exactly if the threshold is at most one. */
  lemma LoneAnswerDecides(r: NodeResult, keys: map<string, nat>, t: Threshold)
    requires Accepts(keys, r)
    ensures Decide([r], keys, t).agreedHash == Some(r.stateHash)
    ensures Decide([r], keys, t).consensusReached <==> t.num <= t.den
  {
    FilterAll(Accepting(keys), [r]);
    FilterAll(VotingFor(r.stateHash), [r]);
    MajorityWins([r], keys, r.stateHash);
    WinnerExact([r], keys, t, r.stateHash);
    QuorumExact([r], keys, t);
  }

  // ------------------------------------------------------------------
  // Quorum intersection
  // ------------------------------------------------------------------

  lemma {:induction false} DistinctSize(xs: seq<string>)
    requires forall i, j :: 0 <= i < j < |xs| ==> xs[i] != xs[j]
    ensures |Elements(xs)| == |xs|
    decreases |xs|
  {
    if xs != [] {
      var n := |xs| - 1;
      DistinctSize(xs[..n]);
      assert xs[n] !in xs[..n];
      assert Elements(xs) == Elements(xs[..n]) + {xs[n]};
    }
  }

  lemma {:induction false} FilterDistinct(p: NodeResult -> bool, rs: seq<NodeResult>)
    requires DistinctIds(rs)
    ensures DistinctIds(Filter(p, rs))
  {
    if rs != [] {
      FilterDistinct(p, rs[1..]);
      forall r | r in Filter(p, rs[1..]) ensures r.nodeId != rs[0].nodeId {
        var i :| 0 <= i < |rs[1..]| && rs[1..][i] == r;
        assert rs[i + 1] == r;
      }
    }
  }

  /** The honest set of a round that reached consensus is a t-fraction of the verified results. */
  lemma HonestSetSize(results: seq<NodeResult>, keys: map<string, nat>, t: Threshold)
    requires DistinctIds(results) && Decide(results, keys, t).consensusReached
    requires forall r :: r in results ==> Accepts(keys, r)
    ensures |Elements(Decide(results, keys, t).honestNodes)| * t.den >= t.num * |results|
    ensures Elements(Decide(results, keys, t).honestNodes) <= Elements(Ids(results))
  {
    var cr := Decide(results, keys, t);
    QuorumExact(results, keys, t);
    FilterAll(Accepting(keys), results);
    var h := cr.agreedHash.value;
    FilterDistinct(VotingFor(h), results);
    DistinctSize(cr.honestNodes);
    forall id | id in cr.honestNodes ensures id in Ids(results) {
      IdListed(Filter(VotingFor(h), results), id);
      IdListed(results, id);
    }
  }

  lemma ProductBound(a: int, b: int, n: int, p: int, q: int)
    requires a * q >= p * b && b * q >= p * n && p >= 0 && q >= 0
    ensures a * (q * q) >= p * p * n
  {
    ScaledLess(p * b, a * q, q);
    ScaledLess(p * n, b * q, p);
    assert p * b * q == p * (b * q) && p * (p * n) == p * p * n && a * q * q == a * (q * q);
  }

  lemma Overlap(a: set<string>, b: set<string>, roster: set<string>)
    requires a <= roster && b <= roster
    ensures |a * b| >= |a| + |b| - |roster|
  {
    assert |a + b| == |a| + |b| - |a * b|;
    Subset(a + b, roster);
  }

  lemma Subset(a: set<string>, b: set<string>)
    requires a <= b
    ensures |a| <= |b|
  {
    assert b == a + (b - a);
  }

  /** With enough of n nodes answering, the honest set is a t^2-fraction of n. */
  lemma HonestShare(results: seq<NodeResult>, keys: map<string, nat>, t: Threshold, n: nat)
    requires DistinctIds(results) && Decide(results, keys, t).consensusReached
    requires forall r :: r in results ==> Accepts(keys, r)
    requires |results| * t.den >= t.num * n && t.num >= 0
    ensures |Elements(Decide(results, keys, t).honestNodes)| * (t.den * t.den) >= t.num * t.num * n
    ensures Elements(Decide(results, keys, t).honestNodes) <= Elements(Ids(results))
  {
    HonestSetSize(results, keys, t);
    ProductBound(|Elements(Decide(results, keys, t).honestNodes)|, |results|, n, t.num, t.den);
  }

  /** `common` is at least n(2t^2 - 1), for t^2 = s/r. */
  predicate SharesAtLeast(common: int, n: int, s: int, r: int) {
    common * r >= n * (2 * s - r)
  }

  /** Any two rounds that reach consensus with enough answers share n(2t^2 - 1) honest nodes. */
  lemma QuorumIntersection(roster: set<string>, first: seq<NodeResult>, second: seq<NodeResult>, keys: map<string, nat>, t: Threshold)
    requires DistinctIds(first) && DistinctIds(second) && t.num >= 0
    requires Elements(Ids(first)) <= roster && Elements(Ids(second)) <= roster
    requires forall r :: r in first ==> Accepts(keys, r)
    requires forall r :: r in second ==> Accepts(keys, r)
    requires |first| * t.den >= t.num * |roster| && |second| * t.den >= t.num * |roster|
    requires Decide(first, keys, t).consensusReached && Decide(second, keys, t).consensusReached
    ensures
      var common := Elements(Decide(first, keys, t).honestNodes) * Elements(Decide(second, keys, t).honestNodes);
      SharesAtLeast(|common|, |roster|, t.num * t.num, t.den * t.den)
  {
    ScaledLess(0, t.den, t.den);
    HonestShare(first, keys, t, |roster|);
    HonestShare(second, keys, t, |roster|);
    SharesOverlap(Elements(Decide(first, keys, t).honestNodes), Elements(Decide(second, keys, t).honestNodes),
                  roster, t.num * t.num, t.den * t.den);
  }

  lemma SharesOverlap(a: set<string>, b: set<string>, roster: set<string>, s: int, r: int)
    requires a <= roster && b <= roster
    requires r >= 0
    requires |a| * r >= s * |roster| && |b| * r >= s * |roster|
    ensures SharesAtLeast(|a * b|, |roster|, s, r)
  {
    Overlap(a, b, roster);
    CommonShare(|a|, |b|, |a * b|, |roster|, s, r);
  }

  /** When 2t^2 exceeds one and the roster is not empty, that is at least one node. */
  lemma SharesSomeone(common: int, n: int, s: int, r: int)
    requires SharesAtLeast(common, n, s, r) && 2 * s > r > 0 && n > 0
    ensures common > 0
  {
    ScaledLess(1, n, 2 * s - r);
    if common <= 0 {
      ScaledLess(common, 0, r);
    }
  }

  lemma CommonShare(a: int, b: int, c: int, n: int, s: int, r: int)
    requires a * r >= s * n && b * r >= s * n && c >= a + b - n && r >= 0
    ensures c * r >= n * (2 * s - r)
  {
    ScaledLess(a + b - n, c, r);
    assert (a + b - n) * r == a * r + b * r - n * r;
    assert n * (2 * s - r) == 2 * (s * n) - n * r;
  }
}
