/**
  Filtering, mapping and counting over sequences: the list comprehensions,
  counters and `sum(d.values())` expressions of the Python code.
 */
module Sequences {

  function Filter<T>(p: T -> bool, s: seq<T>): (r: seq<T>)
    ensures forall x :: x in r ==> x in s && p(x)
    ensures forall x :: x in s && p(x) ==> x in r
    ensures |r| <= |s|
  {
    if s == [] then []
    else if p(s[0]) then [s[0]] + Filter(p, s[1..])
    else Filter(p, s[1..])
  }

  function Map<T, U>(f: T -> U, s: seq<T>): (r: seq<U>)
    ensures |r| == |s|
    ensures forall i :: 0 <= i < |s| ==> r[i] == f(s[i])
  {
    if s == [] then [] else [f(s[0])] + Map(f, s[1..])
  }

  /** A non-empty sequence is all but its last element, and that element. */
  lemma SplitLast<T>(s: seq<T>, n: nat)
    requires |s| == n + 1
    ensures s == s[..n] + [s[n]]
  {
  }

  lemma {:induction false} FilterConcat<T>(p: T -> bool, s: seq<T>, t: seq<T>)
    ensures Filter(p, s + t) == Filter(p, s) + Filter(p, t)
  {
    if s == [] {
      assert s + t == t;
    } else {
      assert (s + t)[1..] == s[1..] + t;
      FilterConcat(p, s[1..], t);
    }
  }

  lemma {:induction false} FilterAppend<T>(p: T -> bool, s: seq<T>, x: T)
    ensures Filter(p, s + [x]) == Filter(p, s) + (if p(x) then [x] else [])
  {
    FilterConcat(p, s, [x]);
  }

  lemma {:induction false} FilterAll<T>(p: T -> bool, s: seq<T>)
    requires forall x :: x in s ==> p(x)
    ensures Filter(p, s) == s
  {
    if s != [] {
      FilterAll(p, s[1..]);
    }
  }

  lemma {:induction false} FilterNone<T>(p: T -> bool, s: seq<T>)
    requires forall x :: x in s ==> !p(x)
    ensures Filter(p, s) == []
  {
    if s != [] {
      FilterNone(p, s[1..]);
    }
  }

  lemma {:induction false} FilterMapped<T, U>(f: T -> U, p: U -> bool, q: T -> bool, s: seq<T>)
    requires forall x :: x in s ==> p(f(x)) == q(x)
    ensures Filter(p, Map(f, s)) == Map(f, Filter(q, s))
  {
    if s != [] {
      FilterMapped(f, p, q, s[1..]);
    }
  }

  lemma {:induction false} FilterSame<T>(p: T -> bool, q: T -> bool, s: seq<T>)
    requires forall x :: x in s ==> p(x) == q(x)
    ensures Filter(p, s) == Filter(q, s)
  {
    if s != [] {
      FilterSame(p, q, s[1..]);
    }
  }

  /** Filtering twice is filtering for both. */
  lemma {:induction false} FilterTwice<T>(p: T -> bool, q: T -> bool, both: T -> bool, s: seq<T>)
    requires forall x :: x in s ==> both(x) == (p(x) && q(x))
    ensures Filter(q, Filter(p, s)) == Filter(both, s)
  {
    if s != [] {
      FilterTwice(p, q, both, s[1..]);
    }
  }

  lemma {:induction false} MapTwice<T, U, V>(f: T -> U, g: U -> V, both: T -> V, s: seq<T>)
    requires forall x :: both(x) == g(f(x))
    ensures Map(g, Map(f, s)) == Map(both, s)
  {
    if s != [] {
      MapTwice(f, g, both, s[1..]);
    }
  }

  /** Filtering loses nothing: what is kept and what is dropped add up. */
  lemma {:induction false} FilterSplit<T>(p: T -> bool, q: T -> bool, s: seq<T>)
    requires forall x :: x in s ==> p(x) == !q(x)
    ensures multiset(Filter(p, s)) + multiset(Filter(q, s)) == multiset(s)
    ensures |Filter(p, s)| + |Filter(q, s)| == |s|
  {
    if s != [] {
      assert s == [s[0]] + s[1..];
      FilterSplit(p, q, s[1..]);
    }
  }

  lemma {:induction false} MapConcat<T, U>(f: T -> U, s: seq<T>, t: seq<T>)
    ensures Map(f, s + t) == Map(f, s) + Map(f, t)
  {
    if s == [] {
      assert s + t == t;
    } else {
      assert (s + t)[1..] == s[1..] + t;
      MapConcat(f, s[1..], t);
    }
  }

  lemma {:induction false} MapMember<T, U>(f: T -> U, s: seq<T>)
    ensures forall y :: y in s ==> f(y) in Map(f, s)
    ensures forall x :: x in Map(f, s) ==> exists y :: y in s && f(y) == x
  {
    forall y | y in s ensures f(y) in Map(f, s) {
      var i :| 0 <= i < |s| && s[i] == y;
      assert Map(f, s)[i] == f(y);
    }
    forall x | x in Map(f, s) ensures exists y :: y in s && f(y) == x {
      var i :| 0 <= i < |s| && Map(f, s)[i] == x;
      assert s[i] in s && f(s[i]) == x;
    }
  }

  lemma {:induction false} MapSame<T, U>(f: T -> U, g: T -> U, s: seq<T>)
    requires forall i :: 0 <= i < |s| ==> f(s[i]) == g(s[i])
    ensures Map(f, s) == Map(g, s)
  {
  }

  /** A permutation holds the same first element somewhere, and the rest around it. */
  lemma PullFront<T>(s: seq<T>, t: seq<T>) returns (l: seq<T>, r: seq<T>)
    requires multiset(s) == multiset(t) && s != []
    ensures t == l + ([s[0]] + r)
    ensures multiset(s[1..]) == multiset(l + r)
  {
    assert s[0] in multiset(s);
    var i := PositionOf(s[0], t);
    l, r := t[..i], t[i + 1..];
    SplitAt(t, i);
    SplitAt(s, 0);
    assert s[..0] == [] && [] + ([s[0]] + s[1..]) == [s[0]] + s[1..];
    DropOne(s, s[0], s[1..], t, l, r);
  }

  lemma PositionOf<T>(x: T, t: seq<T>) returns (i: nat)
    requires x in multiset(t)
    ensures i < |t| && t[i] == x
  {
    i :| 0 <= i < |t| && t[i] == x;
  }

  lemma SplitAt<T>(t: seq<T>, i: nat)
    requires i < |t|
    ensures t == t[..i] + ([t[i]] + t[i + 1..])
  {
  }

  lemma DropOne<T>(s: seq<T>, x: T, rest: seq<T>, t: seq<T>, l: seq<T>, r: seq<T>)
    requires s == [x] + rest && t == l + ([x] + r) && multiset(s) == multiset(t)
    ensures multiset(rest) == multiset(l + r)
  {
    assert multiset(s) == multiset{x} + multiset(rest);
    assert multiset(t) == multiset{x} + (multiset(l) + multiset(r));
    assert multiset(rest) == multiset(s) - multiset{x};
    assert multiset(l + r) == multiset(t) - multiset{x};
  }

  lemma {:induction false} FilterPermutation<T>(p: T -> bool, s: seq<T>, t: seq<T>)
    requires multiset(s) == multiset(t)
    ensures multiset(Filter(p, s)) == multiset(Filter(p, t))
    decreases |s|
  {
    if s == [] {
      assert |multiset(t)| == 0;
    } else {
      var l, r := PullFront(s, t);
      FilterPermutation(p, s[1..], l + r);
      FilterConcat(p, l, r);
      FilterConcat(p, l, [s[0]] + r);
      FilterConcat(p, [s[0]], r);
      FilterConcat(p, [s[0]], s[1..]);
      assert s == [s[0]] + s[1..];
    }
  }

  lemma {:induction false} MapPermutation<T, U>(f: T -> U, s: seq<T>, t: seq<T>)
    requires multiset(s) == multiset(t)
    ensures multiset(Map(f, s)) == multiset(Map(f, t))
    decreases |s|
  {
    if s == [] {
      assert |multiset(t)| == 0;
    } else {
      var l, r := PullFront(s, t);
      MapPermutation(f, s[1..], l + r);
      MapConcat(f, l, r);
      MapConcat(f, l, [s[0]] + r);
      MapConcat(f, [s[0]], r);
    }
  }

  // ------------------------------------------------------------------
  // Counters
  // ------------------------------------------------------------------

  /** `Counter(s)`: how often each element occurs. */
  function Tally<T(==)>(s: seq<T>): (m: map<T, nat>)
    ensures m.Keys == set x | x in s
    ensures forall x :: x in m ==> m[x] == multiset(s)[x] && m[x] > 0
  {
    map x | x in s :: multiset(s)[x]
  }

  /** `counts[x] = counts.get(x, 0) + 1` */
  function Bump<T(==)>(m: map<T, nat>, x: T): map<T, nat> {
    m[x := (if x in m then m[x] else 0) + 1]
  }

  lemma TallyAppend<T>(s: seq<T>, x: T)
    ensures Tally(s + [x]) == Bump(Tally(s), x)
  {
    assert multiset(s + [x]) == multiset(s) + multiset{x};
    assert x in s <==> multiset(s)[x] > 0;
    forall y | y in Tally(s + [x]) ensures y in Bump(Tally(s), x) && Tally(s + [x])[y] == Bump(Tally(s), x)[y] {
      assert y in s + [x];
    }
    forall y | y in Bump(Tally(s), x) ensures y in Tally(s + [x]) {
      assert y in s + [x];
    }
  }

  lemma TallyPermutation<T>(s: seq<T>, t: seq<T>)
    requires multiset(s) == multiset(t)
    ensures Tally(s) == Tally(t)
  {
    forall x ensures x in s <==> x in t {
      assert x in s <==> x in multiset(s);
      assert x in t <==> x in multiset(t);
    }
    assert Tally(s).Keys == Tally(t).Keys;
  }

  /** `sum(m.values())` over the keys `ks`, in any order. */
  ghost function SumOver<K>(m: map<K, int>, ks: set<K>): int
    requires ks <= m.Keys
    decreases ks
  {
    if ks == {} then 0 else
    var k :| k in ks;
    m[k] + SumOver(m, ks - {k})
  }

  ghost function Sum<K>(m: map<K, int>): int {
    SumOver(m, m.Keys)
  }

  lemma {:induction false} SumOverPull<K>(m: map<K, int>, ks: set<K>, k: K)
    requires ks <= m.Keys && k in ks
    ensures SumOver(m, ks) == m[k] + SumOver(m, ks - {k})
    decreases ks
  {
    var j :| j in ks && SumOver(m, ks) == m[j] + SumOver(m, ks - {j});
    if j != k {
      SumOverPull(m, ks - {j}, k);
      SumOverPull(m, ks - {k}, j);
      assert ks - {j} - {k} == ks - {k} - {j};
    }
  }

  lemma {:induction false} SumOverAgree<K>(m: map<K, int>, n: map<K, int>, ks: set<K>)
    requires ks <= m.Keys && ks <= n.Keys
    requires forall k :: k in ks ==> m[k] == n[k]
    ensures SumOver(m, ks) == SumOver(n, ks)
    decreases ks
  {
    if ks != {} {
      var k :| k in ks;
      SumOverPull(m, ks, k);
      SumOverPull(n, ks, k);
      SumOverAgree(m, n, ks - {k});
    }
  }

  /** Writing one entry moves the sum by the change of that entry. */
  lemma SumUpdate<K>(m: map<K, int>, k: K, v: int)
    ensures Sum(m[k := v]) == Sum(m) - (if k in m then m[k] else 0) + v
  {
    var n := m[k := v];
    SumOverPull(n, n.Keys, k);
    SumOverAgree(m, n, m.Keys - {k});
    assert n.Keys - {k} == m.Keys - {k};
    if k in m {
      SumOverPull(m, m.Keys, k);
    } else {
      assert m.Keys - {k} == m.Keys;
    }
  }

  function Widen<K>(m: map<K, nat>): (w: map<K, int>)
    ensures w == m
  {
    map k | k in m :: m[k]
  }

  /** A counter's values add up to the number of things counted. */
  lemma {:induction false} TallySum<T>(s: seq<T>)
    ensures Sum(Widen(Tally(s))) == |s|
    decreases |s|
  {
    if s == [] {
      assert Tally(s).Keys == {};
    } else {
      var n := |s| - 1;
      assert s == s[..n] + [s[n]];
      TallyAppend(s[..n], s[n]);
      TallySum(s[..n]);
      var m := Widen(Tally(s[..n]));
      SumUpdate(m, s[n], (if s[n] in m then m[s[n]] else 0) + 1);
    }
  }
}
