/**
  The Merkle tree over account balances, and why its root commits to them.

  SHA-256 is a parameter `sha`: any function from strings to 64 lowercase
  hexadecimal characters.  Nothing assumes it injective.  Statements speak of
  the finite set of strings that a computation actually hashes.
 */
module Merkle {
  import opened Wrappers
  import opened Sequences
  import opened Strings

  predicate IsHexDigit(c: char) {
    '0' <= c <= '9' || 'a' <= c <= 'f'
  }

  predicate IsDigest(s: string) {
    |s| == 64 && forall i :: 0 <= i < 64 ==> IsHexDigit(s[i])
  }

  type Digest = s: string | IsDigest(s)
    witness seq(64, _ => '0')

  type HashFn = string -> Digest

  // ------------------------------------------------------------------
  // Building the tree
  // ------------------------------------------------------------------

  /** The right child of parent `i`; a missing one is replaced by the left child. */
  function RightChild(n: nat, i: nat): nat {
    if 2 * i + 1 < n then 2 * i + 1 else 2 * i
  }

  /** The strings hashed to obtain the level above `level`. */
  function Pairs(level: seq<string>): (r: seq<string>)
    ensures |r| == (|level| + 1) / 2
  {
    seq((|level| + 1) / 2, i requires 0 <= i < (|level| + 1) / 2 => level[2 * i] + level[RightChild(|level|, i)])
  }

  function LevelAbove(sha: HashFn, level: seq<string>): seq<string> {
    Map(sha, Pairs(level))
  }

  function Levels(sha: HashFn, level: seq<string>): (levels: seq<seq<string>>)
    requires level != []
    ensures levels != [] && |levels[|levels| - 1]| == 1
    decreases |level|
  {
    if |level| == 1 then [level] else [level] + Levels(sha, LevelAbove(sha, level))
  }

  function Tree(sha: HashFn, leaves: seq<string>): (levels: seq<seq<string>>)
    ensures levels != [] && |levels[|levels| - 1]| == 1
  {
    if leaves == [] then [[sha("")]] else Levels(sha, leaves)
  }

  function Root(sha: HashFn, leaves: seq<string>): string {
    var tree := Tree(sha, leaves);
    tree[|tree| - 1][0]
  }

  lemma PairAt(level: seq<string>, k: nat)
    requires 2 * k < |level|
    ensures k < |Pairs(level)|
    ensures Pairs(level)[k] == level[2 * k] + if 2 * k + 1 < |level| then level[2 * k + 1] else level[2 * k]
  {
  }

  /** One pass over a level: hash neighbours together, duplicating an odd last node. */
  method HashNeighbours(sha: HashFn, level: seq<string>) returns (next: seq<string>)
    ensures next == LevelAbove(sha, level)
  {
    next := [];
    var i := 0;
    while i < |level|
      invariant i == 2 * |next| && i <= |level| + 1
      invariant forall k :: 0 <= k < |next| ==> next[k] == sha(Pairs(level)[k])
    {
      var left := level[i];
      var right := if i + 1 < |level| then level[i + 1] else left;
      var combined := sha(left + right);
      PairAt(level, |next|);
      next := next + [combined];
      i := i + 2;
    }
  }

  lemma {:induction false} LevelsNext(sha: HashFn, levels: seq<seq<string>>, level: seq<string>)
    requires |level| > 1 && levels != [] && levels[|levels| - 1] == level
    ensures levels[..|levels| - 1] + Levels(sha, level)
         == (levels + [LevelAbove(sha, level)])[..|levels|] + Levels(sha, LevelAbove(sha, level))
  {
    MoveOver(levels, LevelAbove(sha, level), Levels(sha, LevelAbove(sha, level)));
  }

  lemma MoveOver<T>(a: seq<T>, x: T, b: seq<T>)
    requires a != []
    ensures a[..|a| - 1] + ([a[|a| - 1]] + b) == (a + [x])[..|a|] + b
  {
  }

  /** `build_merkle_tree`: level by level, from the leaves to the root. */
  method BuildMerkleTree(sha: HashFn, leaves: seq<string>) returns (levels: seq<seq<string>>)
    ensures levels == Tree(sha, leaves)
  {
    if leaves == [] {
      return [[sha("")]];
    }
    var level := leaves;
    levels := [level];
    while |level| > 1
      invariant level != [] && levels != []
      invariant Levels(sha, leaves) == levels[..|levels| - 1] + Levels(sha, level)
      invariant levels[|levels| - 1] == level
      decreases |level|
    {
      var next := HashNeighbours(sha, level);
      LevelsNext(sha, levels, level);
      level := next;
      levels := levels + [level];
    }
    assert levels == levels[..|levels| - 1] + [level];
  }

  /** Levels of a Merkle tree: leaves first (the hash of "" if there are none), each node the hash of its two children, one node last. */
  predicate IsMerkleTree(sha: HashFn, leaves: seq<string>, levels: seq<seq<string>>) {
    && levels != [] && levels[0] == (if leaves == [] then [sha("")] else leaves) && |levels[|levels| - 1]| == 1
    && (forall k :: 0 <= k < |levels| - 1 ==> |levels[k]| > 1 && IsParentLevel(sha, levels[k], levels[k + 1]))
  }

  /** Node `i` above hashes nodes 2i and 2i+1 below, or node 2i twice if it is the odd last one. */
  predicate IsParentLevel(sha: HashFn, below: seq<string>, above: seq<string>) {
    && 2 * |above| - 1 <= |below| <= 2 * |above|
    && (forall i :: 0 <= i < |above| ==>
          above[i] == sha(below[2 * i] + if 2 * i + 1 < |below| then below[2 * i + 1] else below[2 * i]))
  }

  lemma ParentLevelExact(sha: HashFn, below: seq<string>, above: seq<string>)
    ensures IsParentLevel(sha, below, above) <==> above == LevelAbove(sha, below)
  {
  }

  /** There is exactly one Merkle tree over given leaves, and it is the one built. */
  lemma {:induction false} TreeExact(sha: HashFn, leaves: seq<string>, levels: seq<seq<string>>)
    ensures IsMerkleTree(sha, leaves, levels) <==> levels == Tree(sha, leaves)
    decreases |leaves|
  {
    if |leaves| > 1 {
      TallerTree(sha, leaves, levels);
      TreeExact(sha, LevelAbove(sha, leaves), Tree(sha, leaves)[1..]);
      if IsMerkleTree(sha, leaves, levels) {
        TreeExact(sha, LevelAbove(sha, leaves), levels[1..]);
      }
    } else if IsMerkleTree(sha, leaves, levels) {
      assert |levels| == 1;
    }
  }

  /** A tree over two leaves or more is a tree over the level above them, on top of them. */
  lemma TallerTree(sha: HashFn, leaves: seq<string>, levels: seq<seq<string>>)
    requires |leaves| > 1
    ensures Tree(sha, leaves) == [leaves] + Tree(sha, LevelAbove(sha, leaves))
    ensures IsMerkleTree(sha, leaves, levels) <==>
      levels != [] && levels[0] == leaves && IsMerkleTree(sha, LevelAbove(sha, leaves), levels[1..])
  {
    if IsMerkleTree(sha, leaves, levels) {
      DropLevel(sha, leaves, levels);
      ParentLevelExact(sha, leaves, levels[1]);
    }
    if levels != [] && levels[0] == leaves && IsMerkleTree(sha, LevelAbove(sha, leaves), levels[1..]) {
      PrependLevel(sha, leaves, levels);
    }
  }

  lemma PrependLevel(sha: HashFn, leaves: seq<string>, levels: seq<seq<string>>)
    requires |leaves| > 1 && |levels| > 1 && levels[0] == leaves
    requires IsMerkleTree(sha, LevelAbove(sha, leaves), levels[1..])
    ensures IsMerkleTree(sha, leaves, levels)
  {
    assert LevelAbove(sha, leaves) != [];
    ParentLevelExact(sha, leaves, levels[1]);
    hide LevelAbove, IsParentLevel;
    var rest := levels[1..];
    forall k | 0 <= k < |levels| - 1 ensures |levels[k]| > 1 && IsParentLevel(sha, levels[k], levels[k + 1]) {
      if k > 0 { assert levels[k] == rest[k - 1] && levels[k + 1] == rest[k]; }
    }
  }

  lemma DropLevel(sha: HashFn, leaves: seq<string>, levels: seq<seq<string>>)
    requires |leaves| > 1 && IsMerkleTree(sha, leaves, levels)
    ensures |levels| > 1 && IsMerkleTree(sha, levels[1], levels[1..])
  {
    var rest := levels[1..];
    forall k | 0 <= k < |rest| - 1 ensures |rest[k]| > 1 && IsParentLevel(sha, rest[k], rest[k + 1]) {
      assert levels[k + 1] == rest[k] && levels[k + 2] == rest[k + 1];
    }
  }

  // ------------------------------------------------------------------
  // The state hash
  // ------------------------------------------------------------------

  /** The string hashed for one account. */
  function Leaf(account: string, balance: int): string {
    account + ":" + IntString(balance)
  }

  function LeafStrings(balances: map<string, int>): (leaves: seq<string>)
    ensures |leaves| == |SortedListing(balances.Keys)|
  {
    var accounts := SortedListing(balances.Keys);
    seq(|accounts|, i requires 0 <= i < |accounts| =>
      assert accounts[i] in balances.Keys;
      Leaf(accounts[i], balances[accounts[i]]))
  }

  function MerkleHash(sha: HashFn, balances: map<string, int>): (h: Digest) {
    RootIsDigest(sha, LeafStrings(balances));
    Root(sha, Map(sha, LeafStrings(balances)))
  }

  // ------------------------------------------------------------------
  // Working on the hashed strings instead of the hashes
  // ------------------------------------------------------------------

  /** The hashed strings one level up from the level whose nodes hash `pre`. */
  function Above(sha: HashFn, pre: seq<string>): (r: seq<string>)
    ensures |r| == (|pre| + 1) / 2
  {
    Pairs(Map(sha, pre))
  }

  /** The string whose hash is the root of the tree over the hashes of `pre`. */
  function Top(sha: HashFn, pre: seq<string>): string
    requires pre != []
    decreases |pre|
  {
    if |pre| == 1 then pre[0] else Top(sha, Above(sha, pre))
  }

  lemma {:induction false} RootIsTop(sha: HashFn, pre: seq<string>)
    requires pre != []
    ensures Root(sha, Map(sha, pre)) == sha(Top(sha, pre))
    decreases |pre|
  {
    if |pre| > 1 {
      RootIsTop(sha, Above(sha, pre));
    }
  }

  lemma {:induction false} RootIsDigest(sha: HashFn, pre: seq<string>)
    ensures IsDigest(Root(sha, Map(sha, pre)))
  {
    if pre != [] {
      RootIsTop(sha, pre);
    }
  }

  /** Every string hashed while hashing `pre` and building the tree above it. */
  function Hashed(sha: HashFn, pre: seq<string>): set<string>
    decreases |pre|
  {
    (set x | x in pre) +
    (if pre == [] then {""} else if |pre| == 1 then {} else Hashed(sha, Above(sha, pre)))
  }

  predicate NoCollision(sha: HashFn, a: set<string>, b: set<string>) {
    forall x, y | x in a && y in b :: sha(x) == sha(y) ==> x == y
  }

  function Height(n: nat): nat
    requires n > 0
  {
    if n == 1 then 0 else 1 + Height((n + 1) / 2)
  }

  /** The leaf that stands at place `k` once every odd level is padded with its last node. */
  function Source(n: nat, k: nat): (j: nat)
    requires n > 0
    ensures j < n && (k < n ==> j == k)
    decreases n
  {
    if n == 1 then 0
    else
      var i := Source((n + 1) / 2, k / 2);
      if k % 2 == 0 then 2 * i else RightChild(n, i)
  }

  function TwoTo(h: nat): (n: nat)
    ensures n > 0
  {
    if h == 0 then 1 else 2 * TwoTo(h - 1)
  }

  /** The leaves as a full binary tree has them: every odd level padded with its last node. */
  function FullLevel(leaves: seq<string>): (full: seq<string>)
    ensures leaves != [] ==> |full| == TwoTo(Height(|leaves|))
    ensures leaves != [] ==> forall k :: 0 <= k < |full| ==> full[k] == leaves[Source(|leaves|, k)]
    ensures leaves == [] ==> full == []
  {
    if leaves == [] then []
    else seq(TwoTo(Height(|leaves|)), k requires 0 <= k => leaves[Source(|leaves|, k)])
  }

  lemma {:induction false} FullIsLonger(n: nat)
    requires n > 0
    ensures n <= TwoTo(Height(n))
  {
    if n > 1 {
      FullIsLonger((n + 1) / 2);
    }
  }

  /** Padding only adds at the end. */
  lemma FullExtends(leaves: seq<string>)
    ensures leaves <= FullLevel(leaves)
  {
    if leaves != [] {
      FullIsLonger(|leaves|);
    }
  }

  /** Place `k` of the padded level above hashes places 2k and 2k+1 of the padded level. */
  lemma FullPairs(sha: HashFn, pre: seq<string>, k: nat)
    requires |pre| > 1 && k < |FullLevel(Above(sha, pre))|
    ensures 2 * k + 1 < |FullLevel(pre)|
    ensures FullLevel(Above(sha, pre))[k] == sha(FullLevel(pre)[2 * k]) + sha(FullLevel(pre)[2 * k + 1])
  {
    var n := |pre|;
    assert Height(n) == 1 + Height(|Above(sha, pre)|);
    assert (2 * k) / 2 == k && (2 * k + 1) / 2 == k;
    var i := Source((n + 1) / 2, k);
    assert FullLevel(Above(sha, pre))[k] == Above(sha, pre)[i] == sha(pre[2 * i]) + sha(pre[RightChild(n, i)]);
    assert Source(n, 2 * k) == 2 * i && Source(n, 2 * k + 1) == RightChild(n, i);
  }

  lemma {:induction false} TwoToGrows(g: nat, h: nat)
    requires g < h
    ensures TwoTo(g) < TwoTo(h)
  {
    if g < h - 1 {
      TwoToGrows(g, h - 1);
    }
  }

  lemma {:induction false} EqualFullHeights(p: seq<string>, q: seq<string>)
    requires p != [] && q != [] && |FullLevel(p)| == |FullLevel(q)|
    ensures Height(|p|) == Height(|q|)
  {
    if Height(|p|) < Height(|q|) {
      TwoToGrows(Height(|p|), Height(|q|));
    } else if Height(|q|) < Height(|p|) {
      TwoToGrows(Height(|q|), Height(|p|));
    }
  }

  /** Equal padded levels have equal roots, whatever the hash function. */
  lemma {:induction false} EqualFullEqualTop(sha: HashFn, p: seq<string>, q: seq<string>)
    requires p != [] && q != [] && FullLevel(p) == FullLevel(q)
    ensures Top(sha, p) == Top(sha, q)
    decreases |p|
  {
    EqualFullHeights(p, q);
    if |p| == 1 {
      FullExtends(p);
      FullExtends(q);
    } else {
      var up, uq := Above(sha, p), Above(sha, q);
      forall k | 0 <= k < |FullLevel(up)| ensures FullLevel(up)[k] == FullLevel(uq)[k] {
        FullPairs(sha, p, k);
        FullPairs(sha, q, k);
      }
      EqualFullEqualTop(sha, up, uq);
    }
  }

  /** Equal padded levels above mean equal hashes below. */
  lemma FullHashesBelow(sha: HashFn, p: seq<string>, q: seq<string>, k: nat)
    requires |p| > 1 && |q| > 1 && FullLevel(Above(sha, p)) == FullLevel(Above(sha, q))
    requires k < |FullLevel(Above(sha, p))|
    ensures 2 * k + 1 < |FullLevel(p)| && 2 * k + 1 < |FullLevel(q)|
    ensures sha(FullLevel(p)[2 * k]) == sha(FullLevel(q)[2 * k])
    ensures sha(FullLevel(p)[2 * k + 1]) == sha(FullLevel(q)[2 * k + 1])
  {
    FullPairs(sha, p, k);
    FullPairs(sha, q, k);
    SplitDigests(sha(FullLevel(p)[2 * k]), sha(FullLevel(p)[2 * k + 1]),
                 sha(FullLevel(q)[2 * k]), sha(FullLevel(q)[2 * k + 1]));
  }

  lemma FullDoubles(sha: HashFn, pre: seq<string>)
    requires |pre| > 1
    ensures |FullLevel(pre)| == 2 * |FullLevel(Above(sha, pre))|
  {
    hide FullLevel, Above, Source;
    assert Height(|pre|) == 1 + Height((|pre| + 1) / 2);
    assert TwoTo(Height(|pre|)) == 2 * TwoTo(Height(|pre|) - 1);
  }

  lemma FullMembers(leaves: seq<string>)
    ensures forall k :: 0 <= k < |FullLevel(leaves)| ==> FullLevel(leaves)[k] in leaves
  {
  }

  /** Equal padded levels above are equal padded levels below, unless hashes collide. */
  lemma EqualFullBelow(sha: HashFn, p: seq<string>, q: seq<string>)
    requires |p| > 1 && |q| > 1 && FullLevel(Above(sha, p)) == FullLevel(Above(sha, q))
    requires NoCollision(sha, set x | x in p, set x | x in q)
    ensures FullLevel(p) == FullLevel(q)
  {
    hide FullLevel, Above, Height, TwoTo, Source, Pairs;
    FullDoubles(sha, p);
    FullDoubles(sha, q);
    FullMembers(p);
    FullMembers(q);
    forall k | 0 <= k < |FullLevel(p)| ensures FullLevel(p)[k] == FullLevel(q)[k] {
      FullHashesBelow(sha, p, q, k / 2);
      assert k == k / 2 * 2 || k == k / 2 * 2 + 1;
    }
  }

  lemma SplitDigests(a: Digest, b: Digest, c: Digest, d: Digest)
    requires a + b == c + d
    ensures a == c && b == d
  {
    assert a == (a + b)[..64] && c == (c + d)[..64];
    assert b == (a + b)[64..] && d == (c + d)[64..];
  }

  /** Equal roots of equally high trees, with no collision, mean equal padded leaves. */
  lemma {:induction false} SameHeight(sha: HashFn, p: seq<string>, q: seq<string>)
    requires p != [] && q != [] && Height(|p|) == Height(|q|)
    requires sha(Top(sha, p)) == sha(Top(sha, q))
    requires NoCollision(sha, Hashed(sha, p), Hashed(sha, q))
    ensures FullLevel(p) == FullLevel(q)
    decreases |p|
  {
    if |p| == 1 {
      assert p[0] in Hashed(sha, p) && q[0] in Hashed(sha, q);
    } else {
      SameHeight(sha, Above(sha, p), Above(sha, q));
      EqualFullBelow(sha, p, q);
    }
  }

  /** A tree contains a tree of each smaller height, over colon-free strings. */
  lemma {:induction false} Climb(sha: HashFn, pre: seq<string>, h: nat) returns (up: seq<string>)
    requires pre != [] && h < Height(|pre|)
    ensures up != [] && Height(|up|) == h && Top(sha, up) == Top(sha, pre)
    ensures Hashed(sha, up) <= Hashed(sha, pre)
    ensures forall x :: x in up ==> |x| == 128 && ':' !in x
    decreases |pre|
  {
    up := Above(sha, pre);
    if Height(|up|) > h {
      up := Climb(sha, up, h);
    } else {
      forall i | 0 <= i < |up| ensures |up[i]| == 128 && ':' !in up[i] {
        var a: string, b: string := sha(pre[2 * i]), sha(pre[RightChild(|pre|, i)]);
        assert up[i] == a + b;
        assert forall k :: 0 <= k < 128 ==> IsHexDigit(up[i][k]);
      }
    }
  }

  lemma {:induction false} TopIsHashed(sha: HashFn, pre: seq<string>)
    requires pre != []
    ensures Top(sha, pre) in Hashed(sha, pre)
    decreases |pre|
  {
    if |pre| > 1 {
      TopIsHashed(sha, Above(sha, pre));
    }
  }

  /** The string under the root of a non-empty tree of colon-carrying leaves is not empty. */
  lemma {:induction false} TopNotEmpty(sha: HashFn, pre: seq<string>)
    requires pre != [] && forall x :: x in pre ==> ':' in x
    ensures Top(sha, pre) != ""
  {
    if |pre| == 1 {
      assert ':' in pre[0];
    } else {
      var up := Climb(sha, pre, 0);
      assert up[0] == Top(sha, up);
    }
  }

  lemma EqualFullSameFirst(p: seq<string>, q: seq<string>)
    requires p != [] && q != [] && FullLevel(p) == FullLevel(q)
    ensures p[0] == q[0] && p[0] in p && q[0] in q
  {
    FullExtends(p);
    FullExtends(q);
  }

  /** Without a collision, trees of different heights over colon-carrying leaves have different roots. */
  lemma {:induction false} HigherDiffers(sha: HashFn, p: seq<string>, q: seq<string>)
    requires p != [] && q != [] && (forall x :: x in p ==> ':' in x)
    requires Height(|p|) < Height(|q|)
    requires NoCollision(sha, Hashed(sha, p), Hashed(sha, q))
    ensures sha(Top(sha, p)) != sha(Top(sha, q))
  {
    if sha(Top(sha, p)) == sha(Top(sha, q)) {
      var up := Climb(sha, q, Height(|p|));
      SameHeight(sha, p, up);
      EqualFullSameFirst(p, up);
      assert false;
    }
  }

  /**
    Exactly when two lists of leaves have the same root: unless two strings
    that were actually hashed collide, the roots are equal exactly if the lists
    are once every odd level is padded.  Leaves carry a colon, as those of
    accounts do; the empty list is covered.
   */
  lemma {:induction false} EqualRootsExactly(sha: HashFn, p: seq<string>, q: seq<string>)
    requires forall x :: x in p ==> ':' in x
    requires forall x :: x in q ==> ':' in x
    requires NoCollision(sha, Hashed(sha, p), Hashed(sha, q))
    ensures Root(sha, Map(sha, p)) == Root(sha, Map(sha, q)) <==> FullLevel(p) == FullLevel(q)
  {
    if p != [] { RootIsTop(sha, p); TopIsHashed(sha, p); TopNotEmpty(sha, p); FullExtends(p); }
    if q != [] { RootIsTop(sha, q); TopIsHashed(sha, q); TopNotEmpty(sha, q); FullExtends(q); }
    if p == [] || q == [] {
      assert p == [] ==> "" in Hashed(sha, p);
      assert q == [] ==> "" in Hashed(sha, q);
    } else {
      if FullLevel(p) == FullLevel(q) {
        EqualFullEqualTop(sha, p, q);
      }
      if sha(Top(sha, p)) == sha(Top(sha, q)) {
        EqualTopsEqualFull(sha, p, q);
      }
    }
  }

  lemma {:induction false} EqualTopsEqualFull(sha: HashFn, p: seq<string>, q: seq<string>)
    requires p != [] && q != []
    requires forall x :: x in p ==> ':' in x
    requires forall x :: x in q ==> ':' in x
    requires sha(Top(sha, p)) == sha(Top(sha, q))
    requires NoCollision(sha, Hashed(sha, p), Hashed(sha, q))
    ensures FullLevel(p) == FullLevel(q)
  {
    if Height(|p|) < Height(|q|) {
      HigherDiffers(sha, p, q);
    } else if Height(|q|) < Height(|p|) {
      HigherDiffers(sha, q, p);
    } else {
      SameHeight(sha, p, q);
    }
  }

  predicate DuplicateFree(xs: seq<string>) {
    forall i, j :: 0 <= i < j < |xs| ==> xs[i] != xs[j]
  }

  /** Padding hides nothing in duplicate-free lists. */
  lemma FullDeterminesDistinct(p: seq<string>, q: seq<string>)
    requires DuplicateFree(p) && DuplicateFree(q) && FullLevel(p) == FullLevel(q)
    ensures p == q
  {
    FullExtends(p);
    FullExtends(q);
    if |p| < |q| {
      PadIsOld(p, |p|);
    } else if |q| < |p| {
      PadIsOld(q, |q|);
    }
  }

  /** What padding adds is one of the leaves. */
  lemma PadIsOld(leaves: seq<string>, k: nat)
    requires |leaves| <= k < |FullLevel(leaves)|
    ensures exists j :: 0 <= j < |leaves| && FullLevel(leaves)[k] == leaves[j]
  {
    assert FullLevel(leaves)[k] == leaves[Source(|leaves|, k)];
  }

  // ------------------------------------------------------------------
  // Binding
  // ------------------------------------------------------------------

  lemma LeafAt(balances: map<string, int>, i: nat)
    requires i < |LeafStrings(balances)|
    ensures var a := SortedListing(balances.Keys)[i];
            a in balances && LeafStrings(balances)[i] == Leaf(a, balances[a])
    ensures ':' in LeafStrings(balances)[i]
  {
    var a := SortedListing(balances.Keys)[i];
    assert a in balances.Keys;
    assert Leaf(a, balances[a])[|a|] == ':';
  }

  /** Reads a leaf text: the account before the last colon, the balance in decimal after it. */
  function ReadLeaf(s: string): Option<(string, int)> {
    var parts := SplitAtLastColon(s);
    if parts.None? then None
    else
      var balance := ReadInt(parts.value.1);
      if balance.None? then None else Some((parts.value.0, balance.value))
  }

  lemma LeafReadsBack(account: string, balance: int)
    ensures ReadLeaf(Leaf(account, balance)) == Some((account, balance))
  {
    LastColon(account, IntString(balance));
    IntReadsBack(balance);
  }

  lemma LeafInjective(a: string, m: int, b: string, n: int)
    requires Leaf(a, m) == Leaf(b, n)
    ensures a == b && m == n
  {
    LeafReadsBack(a, m);
    LeafReadsBack(b, n);
  }

  /** The hashed leaves are the accounts in sorted order, each with its balance. */
  lemma LeavesReadBack(balances: map<string, int>)
    ensures |LeafStrings(balances)| == |SortedListing(balances.Keys)|
    ensures forall i :: 0 <= i < |LeafStrings(balances)| ==>
              var a := SortedListing(balances.Keys)[i];
              a in balances && ReadLeaf(LeafStrings(balances)[i]) == Some((a, balances[a]))
  {
    forall i | 0 <= i < |LeafStrings(balances)|
      ensures
        var a := SortedListing(balances.Keys)[i];
        a in balances && ReadLeaf(LeafStrings(balances)[i]) == Some((a, balances[a]))
    {
      LeafAt(balances, i);
      var a := SortedListing(balances.Keys)[i];
      LeafReadsBack(a, balances[a]);
    }
  }

  /** The state hash is the single last node of the Merkle tree over the hashed leaf texts. */
  lemma MerkleHashExactly(sha: HashFn, balances: map<string, int>, levels: seq<seq<string>>)
    requires IsMerkleTree(sha, Map(sha, LeafStrings(balances)), levels)
    ensures MerkleHash(sha, balances) == levels[|levels| - 1][0]
  {
    TreeExact(sha, Map(sha, LeafStrings(balances)), levels);
  }

  /** No leaf string of a balance map occurs twice. */
  lemma LeavesDistinct(balances: map<string, int>, i: nat, j: nat)
    requires i < j < |LeafStrings(balances)|
    ensures LeafStrings(balances)[i] != LeafStrings(balances)[j]
  {
    var accounts := SortedListing(balances.Keys);
    assert accounts[i] != accounts[j];
    LeafAt(balances, i);
    LeafAt(balances, j);
    if LeafStrings(balances)[i] == LeafStrings(balances)[j] {
      LeafInjective(accounts[i], balances[accounts[i]], accounts[j], balances[accounts[j]]);
    }
  }

  lemma LeavesDuplicateFree(balances: map<string, int>)
    ensures DuplicateFree(LeafStrings(balances))
  {
    var p := LeafStrings(balances);
    forall i, j | 0 <= i < j < |p| ensures p[i] != p[j] {
      LeavesDistinct(balances, i, j);
    }
  }

  lemma LeavesHaveColons(balances: map<string, int>)
    ensures forall x :: x in LeafStrings(balances) ==> ':' in x
  {
    var p := LeafStrings(balances);
    forall x | x in p ensures ':' in x {
      var i :| 0 <= i < |p| && p[i] == x;
      LeafAt(balances, i);
    }
  }

  lemma LeavesDetermineBalances(m: map<string, int>, n: map<string, int>)
    requires LeafStrings(m) == LeafStrings(n)
    ensures m == n
  {
    LeavesInclude(m, n);
    LeavesInclude(n, m);
  }

  lemma LeavesInclude(m: map<string, int>, n: map<string, int>)
    requires LeafStrings(m) == LeafStrings(n)
    ensures forall a :: a in m ==> a in n && n[a] == m[a]
  {
    forall a | a in m ensures a in n && n[a] == m[a] {
      assert a in SortedListing(m.Keys);
      var i :| 0 <= i < |SortedListing(m.Keys)| && SortedListing(m.Keys)[i] == a;
      LeafAt(m, i);
      LeafAt(n, i);
      var b := SortedListing(n.Keys)[i];
      LeafInjective(a, m[a], b, n[b]);
    }
  }

  function HashedStrings(sha: HashFn, balances: map<string, int>): set<string> {
    Hashed(sha, LeafStrings(balances))
  }

  /**
    The Merkle hash is binding: unless two strings that were actually hashed
    collide, equal hashes mean equal balance maps, whatever their sizes.
   */
  lemma MerkleBinding(sha: HashFn, m: map<string, int>, n: map<string, int>)
    requires NoCollision(sha, HashedStrings(sha, m), HashedStrings(sha, n))
    ensures MerkleHash(sha, m) == MerkleHash(sha, n) <==> m == n
  {
    if MerkleHash(sha, m) == MerkleHash(sha, n) {
      LeavesHaveColons(m);
      LeavesHaveColons(n);
      EqualRootsExactly(sha, LeafStrings(m), LeafStrings(n));
      LeavesDuplicateFree(m);
      LeavesDuplicateFree(n);
      FullDeterminesDistinct(LeafStrings(m), LeafStrings(n));
      LeavesDetermineBalances(m, n);
    }
  }

  /** Two different balance maps with one hash hand over a collision among the hashed strings. */
  lemma MerkleCollision(sha: HashFn, m: map<string, int>, n: map<string, int>) returns (x: string, y: string)
    requires m != n && MerkleHash(sha, m) == MerkleHash(sha, n)
    ensures x in HashedStrings(sha, m) && y in HashedStrings(sha, n)
    ensures x != y && sha(x) == sha(y)
  {
    if NoCollision(sha, HashedStrings(sha, m), HashedStrings(sha, n)) {
      MerkleBinding(sha, m, n);
    }
    x, y :| x in HashedStrings(sha, m) && y in HashedStrings(sha, n) && sha(x) == sha(y) && x != y;
  }

  /**
    On arbitrary leaf lists the root is not binding, for any hash function:
    the duplicated last leaf of an odd level can also be written out.
   */
  lemma RootNotInjectiveOnLeafLists(sha: HashFn, a: string, b: string, c: string)
    ensures Root(sha, [a, b, c]) == Root(sha, [a, b, c, c])
  {
    var p, q := [a, b, c], [a, b, c, c];
    assert Pairs(p) == [a + b, c + c] == Pairs(q);
    assert Levels(sha, p) == [p] + Levels(sha, LevelAbove(sha, p));
    assert Levels(sha, q) == [q] + Levels(sha, LevelAbove(sha, q));
  }
}
