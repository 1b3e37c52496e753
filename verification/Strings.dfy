/**
  Strings as Python orders, sorts and prints them: lexicographic comparison by
  code point, `sorted` over distinct strings, `list.sort`, and `str(int)`.
 */
module Strings {
  import opened Wrappers

  // ------------------------------------------------------------------
  // Order
  // ------------------------------------------------------------------

  predicate LexLe(a: string, b: string) {
    a == [] || (b != [] && (a[0] < b[0] || (a[0] == b[0] && LexLe(a[1..], b[1..]))))
  }

  predicate LexLt(a: string, b: string) {
    LexLe(a, b) && a != b
  }

  /** Equal before place `k`, and there the smaller code point. */
  predicate FirstSmaller(a: string, b: string, k: nat) {
    k < |a| && k < |b| && a[..k] == b[..k] && a[k] as int < b[k] as int
  }

  /** What the order means: a prefix, or the smaller code point at the first difference. */
  lemma {:induction false} LexMeans(a: string, b: string)
    ensures LexLe(a, b) <==> a <= b || exists k: nat :: FirstSmaller(a, b, k)
    decreases |a|
  {
    if a != [] && b != [] && a[0] == b[0] {
      LexMeans(a[1..], b[1..]);
      if a[1..] <= b[1..] {
        assert a == [a[0]] + a[1..] && b == [b[0]] + b[1..];
      }
      if k: nat :| FirstSmaller(a[1..], b[1..], k) {
        assert a[..k + 1] == [a[0]] + a[1..][..k] && b[..k + 1] == [b[0]] + b[1..][..k];
        assert FirstSmaller(a, b, k + 1);
      }
      if k: nat :| FirstSmaller(a, b, k) {
        assert k > 0 && a[1..][..k - 1] == a[..k][1..] && b[1..][..k - 1] == b[..k][1..];
        assert FirstSmaller(a[1..], b[1..], k - 1);
      }
      if a <= b {
        assert a[1..] == b[..|a|][1..] == b[1..][..|a| - 1];
      }
    } else if a != [] && b != [] {
      if a[0] < b[0] {
        assert a[..0] == b[..0];
        assert FirstSmaller(a, b, 0);
      }
      if k: nat :| FirstSmaller(a, b, k) {
        assert k > 0 ==> a[..k][0] == b[..k][0];
      }
      assert !(a <= b);
    }
  }

  lemma {:induction false} LexTotal(a: string, b: string)
    ensures LexLe(a, b) || LexLe(b, a)
    ensures LexLe(a, b) && LexLe(b, a) ==> a == b
  {
    if a != [] && b != [] && a[0] == b[0] {
      LexTotal(a[1..], b[1..]);
      assert a == [a[0]] + a[1..] && b == [b[0]] + b[1..];
    }
  }

  lemma {:induction false} LexTrans(a: string, b: string, c: string)
    requires LexLe(a, b) && LexLe(b, c)
    ensures LexLe(a, c)
  {
    if a != [] && a[0] == b[0] == c[0] {
      LexTrans(a[1..], b[1..], c[1..]);
    }
  }

  lemma {:induction false} LexLtTrans(a: string, b: string, c: string)
    requires LexLt(a, b) && LexLe(b, c)
    ensures LexLt(a, c)
  {
    LexTrans(a, b, c);
    LexTotal(a, b);
  }

  // ------------------------------------------------------------------
  // Least element and sorted listing of a set
  // ------------------------------------------------------------------

  predicate IsLeast(x: string, s: set<string>) {
    x in s && forall y | y in s :: LexLe(x, y)
  }

  lemma LeastExists(s: set<string>) returns (x: string)
    requires s != {}
    ensures IsLeast(x, s)
  {
    x :| x in s;
    if s != {x} {
      var rest := s - {x};
      var y := LeastExists(rest);
      LexTotal(x, y);
      forall z | z in s ensures LexLe(if LexLe(x, y) then x else y, z) {
        LexTotal(x, x);
        if z != x && LexLe(x, y) {
          LexTrans(x, y, z);
        }
      }
      x := if LexLe(x, y) then x else y;
    } else {
      LexTotal(x, x);
    }
  }

  lemma LeastUnique(x: string, y: string, s: set<string>)
    requires IsLeast(x, s) && IsLeast(y, s)
    ensures x == y
  {
    LexTotal(x, y);
  }

  /** `min(s)` */
  function LeastOf(s: set<string>): (x: string)
    requires s != {}
    ensures IsLeast(x, s)
  {
    assert exists x :: IsLeast(x, s) by { var x := LeastExists(s); }
    assert forall x, y | IsLeast(x, s) && IsLeast(y, s) :: x == y by {
      forall x, y | IsLeast(x, s) && IsLeast(y, s) ensures x == y { LeastUnique(x, y, s); }
    }
    var x :| x in s && IsLeast(x, s);
    x
  }

  function Elements(r: seq<string>): set<string> {
    set x | x in r
  }

  predicate StrictlySorted(r: seq<string>) {
    forall i, j :: 0 <= i < j < |r| ==> LexLt(r[i], r[j])
  }

  /** `sorted(s)` for a set of keys. */
  function SortedListing(s: set<string>): (r: seq<string>)
    ensures StrictlySorted(r)
    ensures forall x :: x in r <==> x in s
    decreases s
  {
    if s == {} then [] else
    var x := LeastOf(s);
    [x] + SortedListing(s - {x})
  }

  /** There is only one strictly sorted way to list a set. */
  lemma {:induction false} ListingUnique(r: seq<string>, s: set<string>)
    requires StrictlySorted(r) && forall x :: x in r <==> x in s
    ensures r == SortedListing(s)
    decreases |r|
  {
    if r == [] {
      assert s == {};
    } else {
      var t := s - {r[0]};
      assert r[0] in s;
      forall y | y in s ensures LexLe(r[0], y) {
        LexTotal(r[0], r[0]);
        var i :| 0 <= i < |r| && r[i] == y;
      }
      LeastUnique(r[0], LeastOf(s), s);
      ListingUnique(r[1..], t);
      assert r == [r[0]] + r[1..];
    }
  }

  // ------------------------------------------------------------------
  // list.sort
  // ------------------------------------------------------------------

  function Insert(x: string, r: seq<string>): (t: seq<string>)
    ensures multiset(t) == multiset(r) + multiset{x}
  {
    if r == [] then [x]
    else if LexLe(x, r[0]) then [x] + r
    else
      assert r == [r[0]] + r[1..];
      [r[0]] + Insert(x, r[1..])
  }

  /** `r.sort()`: a permutation of `r`. */
  function Sort(r: seq<string>): (t: seq<string>)
    ensures multiset(t) == multiset(r)
  {
    if r == [] then [] else
      assert r == [r[0]] + r[1..];
      Insert(r[0], Sort(r[1..]))
  }

  lemma {:induction false} InsertStrict(x: string, r: seq<string>)
    requires StrictlySorted(r) && x !in r
    ensures StrictlySorted(Insert(x, r))
  {
    if r != [] {
      LexTotal(x, r[0]);
      if LexLe(x, r[0]) {
        forall i | 0 <= i < |r| ensures LexLt(x, r[i]) {
          if i > 0 { LexLtTrans(x, r[0], r[i]); }
        }
      } else {
        InsertStrict(x, r[1..]);
        var t := Insert(x, r[1..]);
        forall y | y in t ensures LexLt(r[0], y) {
          assert y in multiset(t);
        }
      }
    }
  }

  /** Sorting a list without repetitions lists its set of elements. */
  lemma {:induction false} SortStrict(r: seq<string>)
    requires forall i, j :: 0 <= i < j < |r| ==> r[i] != r[j]
    ensures Sort(r) == SortedListing(Elements(r))
  {
    SortStrictlySorted(r);
    forall x ensures x in Sort(r) <==> x in r {
      assert x in Sort(r) <==> x in multiset(Sort(r));
    }
    ListingUnique(Sort(r), Elements(r));
  }

  lemma AppendDistinct(r: seq<string>, x: string)
    requires StrictlySorted(r) && x !in r
    ensures forall i, j :: 0 <= i < j < |r + [x]| ==> (r + [x])[i] != (r + [x])[j]
  {
    var t := r + [x];
    forall i, j | 0 <= i < j < |t| ensures t[i] != t[j] {
      assert t[i] == r[i];
      if j < |r| { assert LexLt(r[i], r[j]); }
    }
  }

  /** Adding an unseen name to a sorted listing and sorting lists the larger set. */
  lemma {:induction false} SortedInsert(r: seq<string>, x: string)
    requires r == SortedListing(Elements(r)) && x !in r
    ensures Sort(r + [x]) == SortedListing(Elements(r) + {x})
  {
    AppendDistinct(r, x);
    ElementsAppend(r, x);
    SortStrict(r + [x]);
  }

  lemma ElementsAppend(r: seq<string>, x: string)
    ensures Elements(r + [x]) == Elements(r) + {x}
  {
  }

  lemma {:induction false} SortStrictlySorted(r: seq<string>)
    requires forall i, j :: 0 <= i < j < |r| ==> r[i] != r[j]
    ensures StrictlySorted(Sort(r))
  {
    if r != [] {
      SortStrictlySorted(r[1..]);
      assert r[0] !in r[1..];
      assert r[0] !in multiset(Sort(r[1..]));
      InsertStrict(r[0], Sort(r[1..]));
    }
  }

  // ------------------------------------------------------------------
  // str(int)
  // ------------------------------------------------------------------

  function DigitChar(d: nat): char
    requires d < 10
  {
    (48 + d) as char
  }

  function NatString(n: nat): (s: string)
    ensures s != []
    ensures forall c :: c in s ==> '0' <= c <= '9'
  {
    if n < 10 then [DigitChar(n)] else NatString(n / 10) + [DigitChar(n % 10)]
  }

  function IntString(i: int): (s: string)
    ensures ':' !in s && s != [] && (s[0] == '-' <==> i < 0)
  {
    if i < 0 then "-" + NatString(-i) else
      assert NatString(i)[0] in NatString(i);
      NatString(i)
  }

  function DigitValue(c: char): int {
    c as int - '0' as int
  }

  /** The number a row of decimal digits stands for. */
  function NatValue(s: string): int {
    if s == [] then 0 else 10 * NatValue(s[..|s| - 1]) + DigitValue(s[|s| - 1])
  }

  /** Decimal digits without a needless leading zero. */
  predicate Decimal(s: string) {
    s != [] && (forall c :: c in s ==> '0' <= c <= '9') && (|s| > 1 ==> s[0] != '0')
  }

  /** Reads a decimal number, and nothing but the one way to write it. */
  function ReadInt(s: string): Option<int> {
    if Decimal(s) then Some(NatValue(s))
    else if s != [] && s[0] == '-' && Decimal(s[1..]) && s[1] != '0' then Some(-NatValue(s[1..]))
    else None
  }

  lemma {:induction false} NatReadsBack(n: nat)
    ensures Decimal(NatString(n)) && NatValue(NatString(n)) == n
    ensures n > 0 ==> NatString(n)[0] != '0'
  {
    var s := NatString(n);
    if n >= 10 {
      NatReadsBack(n / 10);
      assert s[..|s| - 1] == NatString(n / 10) && s[|s| - 1] == DigitChar(n % 10);
    } else {
      assert s[..0] == [];
    }
  }

  /** `str(i)` is decimal, '-' exactly for negatives, and reads back as `i`. */
  lemma IntReadsBack(i: int)
    ensures ReadInt(IntString(i)) == Some(i)
  {
    hide NatString, NatValue;
    if i < 0 {
      NatReadsBack(-i);
      assert IntString(i)[1..] == NatString(-i) && IntString(i)[0] == '-';
      assert IntString(i)[0] in IntString(i);
    } else {
      NatReadsBack(i);
    }
  }

  /** The text before the last colon and the text after it, if there is one. */
  function SplitAtLastColon(s: string): Option<(string, string)> {
    if s == [] then None
    else if s[|s| - 1] == ':' then Some((s[..|s| - 1], []))
    else
      var front := SplitAtLastColon(s[..|s| - 1]);
      if front.None? then None else Some((front.value.0, front.value.1 + [s[|s| - 1]]))
  }

  lemma {:induction false} SplitMeans(s: string)
    ensures
      var parts := SplitAtLastColon(s);
      parts.Some? ==> s == parts.value.0 + ":" + parts.value.1 && ':' !in parts.value.1
  {
    if s != [] {
      SplitMeans(s[..|s| - 1]);
      assert s == s[..|s| - 1] + [s[|s| - 1]];
    }
  }

  /** The text after the last colon is unambiguous when it contains no colon. */
  lemma {:induction false} LastColon(a: string, t: string)
    requires ':' !in t
    ensures SplitAtLastColon(a + ":" + t) == Some((a, t))
    decreases |t|
  {
    var s := a + ":" + t;
    if t == [] {
      assert s[..|s| - 1] == a && s[|s| - 1] == ':';
    } else {
      var n := |t| - 1;
      assert s[..|s| - 1] == a + ":" + t[..n] && s[|s| - 1] == t[n];
      LastColon(a, t[..n]);
      assert t == t[..n] + [t[n]];
    }
  }
}
