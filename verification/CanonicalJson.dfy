/**
  The canonical JSON text of a state: keys sorted, no spaces, everything outside
  printable ASCII escaped.  Different states have different texts.
 */
module CanonicalJson {
  import opened Wrappers
  import opened Strings
  import opened LedgerState

  datatype Json = Num(n: int) | Str(s: string) | Arr(items: Items) | Obj(fields: Fields)
  datatype Items = NoItems | Item(head: Json, tail: Items)
  datatype Fields = NoFields | Field(key: string, value: Json, rest: Fields)

  // ------------------------------------------------------------------
  // Strings
  // ------------------------------------------------------------------

  function HexDigit(d: nat): char
    requires d < 16
  {
    if d < 10 then (48 + d) as char else (87 + d) as char
  }

  /** `\uXXXX` */
  function Unit(n: nat): (s: string)
    requires n < 0x10000
    ensures |s| == 6 && s[0] == '\\' && s[1] == 'u'
  {
    ['\\', 'u', HexDigit(n / 16 / 16 / 16), HexDigit(n / 16 / 16 % 16), HexDigit(n / 16 % 16), HexDigit(n % 16)]
  }

  /** The letter after the backslash, for characters with a short escape. */
  function ShortEscape(c: char): Option<char> {
    if c == '"' then Some('"')
    else if c == '\\' then Some('\\')
    else if c == '\n' then Some('n')
    else if c == '\r' then Some('r')
    else if c == '\t' then Some('t')
    else if c as int == 12 then Some('f')
    else if c as int == 8 then Some('b')
    else None
  }

  /** One character inside a JSON string; characters beyond the 16-bit range become surrogate pairs. */
  function EscapeChar(c: char): (s: string)
    ensures s != [] && s[0] != '"'
  {
    if ShortEscape(c).Some? then ['\\', ShortEscape(c).value]
    else if ' ' <= c <= '~' then [c]
    else if c as int < 0x10000 then Unit(c as int)
    else
      var n := c as int - 0x10000;
      Unit(0xD800 + n / 1024) + Unit(0xDC00 + n % 1024)
  }

  function Escape(s: string): string {
    if s == [] then [] else EscapeChar(s[0]) + Escape(s[1..])
  }

  function Quote(s: string): string {
    "\"" + Escape(s) + "\""
  }

  // ------------------------------------------------------------------
  // Reading strings
  // ------------------------------------------------------------------

  /** What is read from the front of a text, and the rest of the text. */
  type Reading<T> = Option<(T, string)>

  function HexValue(c: char): Option<nat> {
    if '0' <= c <= '9' then Some(c as int - '0' as int)
    else if 'a' <= c <= 'f' then Some(10 + (c as int - 'a' as int))
    else None
  }

  /** Reads `u` and four lowercase hexadecimal digits. */
  function ReadUnit(s: string): (r: Reading<nat>)
    ensures r.Some? ==> r.value.0 < 0x10000 && |s| >= 5 && r.value.1 == s[5..]
  {
    if |s| < 5 || s[0] != 'u' then None
    else
      var (a, b, c, d) := (HexValue(s[1]), HexValue(s[2]), HexValue(s[3]), HexValue(s[4]));
      if a.None? || b.None? || c.None? || d.None? then None
      else Some((((a.value * 16 + b.value) * 16 + c.value) * 16 + d.value, s[5..]))
  }

  /** The characters with a short escape, by the letter after the backslash. */
  function Unescape(c: char): Option<char> {
    match c
    case '"' => Some(34 as char)
    case '\\' => Some(92 as char)
    case 'b' => Some(8 as char)
    case 't' => Some(9 as char)
    case 'n' => Some(10 as char)
    case 'f' => Some(12 as char)
    case 'r' => Some(13 as char)
    case _ => None
  }

  /** Characters that can only be written by code units: outside printable ASCII, with no short escape. */
  predicate NeedsUnit(n: nat) {
    (n < 0xD800 && (n < 32 || n > 126) && n !in {8, 9, 10, 12, 13}) || 0xE000 <= n < 0x10000
  }

  /** Reads one character inside a string, if it is written in the one canonical way. */
  function ReadChar(s: string): (r: Reading<char>)
    ensures r.Some? ==> |r.value.1| < |s|
  {
    if s == [] || s[0] == '"' then None
    else if s[0] != '\\' then
      if 32 <= s[0] as int <= 126 then Some((s[0], s[1..])) else None
    else if |s| > 1 && Unescape(s[1]).Some? then Some((Unescape(s[1]).value, s[2..]))
    else
      var unit := ReadUnit(s[1..]);
      if unit.None? then None else ReadUnits(unit.value.0, unit.value.1)
  }

  /** The character of a code unit, or of it and a second one if it is the first of a surrogate pair. */
  function ReadUnits(n: nat, s: string): (r: Reading<char>)
    requires n < 0x10000
    ensures r.Some? ==> |r.value.1| <= |s|
  {
    if NeedsUnit(n) then Some((n as char, s))
    else if !(0xD800 <= n < 0xDC00) || s == [] || s[0] != '\\' then None
    else
      var low := ReadUnit(s[1..]);
      if low.None? || !(0xDC00 <= low.value.0 < 0xE000) then None
      else Some(((0x10000 + (n - 0xD800) * 0x400 + (low.value.0 - 0xDC00)) as char, low.value.1))
  }

  /** Reads a string up to and including its closing quote. */
  function ReadText(s: string): (r: Reading<string>)
    ensures r.Some? ==> |r.value.1| < |s|
    decreases |s|
  {
    if s == [] then None
    else if s[0] == '"' then Some(([], s[1..]))
    else
      var first := ReadChar(s);
      if first.None? then None
      else
        var more := ReadText(first.value.1);
        if more.None? then None else Some(([first.value.0] + more.value.0, more.value.1))
  }

  lemma HexReadsBack(d: nat)
    requires d < 16
    ensures HexValue(HexDigit(d)) == Some(d)
  {
  }

  lemma HexSum(n: nat)
    ensures ((n / 16 / 16 / 16 * 16 + n / 16 / 16 % 16) * 16 + n / 16 % 16) * 16 + n % 16 == n
  {
  }

  lemma UnitReadsBack(n: nat, u: string)
    requires n < 0x10000
    ensures (Unit(n) + u)[0] == '\\' && ReadUnit((Unit(n) + u)[1..]) == Some((n, u))
  {
    HexReadsBack(n / 16 / 16 / 16);
    HexReadsBack(n / 16 / 16 % 16);
    HexReadsBack(n / 16 % 16);
    HexReadsBack(n % 16);
    HexSum(n);
    var s := (Unit(n) + u)[1..];
    assert s[0] == 'u' && s[1] == Unit(n)[2] && s[2] == Unit(n)[3] && s[3] == Unit(n)[4] && s[4] == Unit(n)[5];
    assert s[5..] == u;
  }

  lemma CharReadsBack(c: char, u: string)
    ensures ReadChar(EscapeChar(c) + u) == Some((c, u))
  {
    var s := EscapeChar(c) + u;
    if ShortEscape(c).Some? {
      assert s[0] == '\\' && s[1] == ShortEscape(c).value && s[2..] == u;
    } else if ' ' <= c <= '~' {
      assert s[0] == c && s[1..] == u;
    } else {
      UnitsReadBack(c, u);
    }
  }

  lemma UnitsReadBack(c: char, u: string)
    requires ShortEscape(c).None? && !(' ' <= c <= '~')
    ensures ReadChar(EscapeChar(c) + u) == Some((c, u))
  {
    hide Unit, ReadUnit;
    if c as int < 0x10000 {
      UnitReadsBack(c as int, u);
      assert Unescape('u').None? && (EscapeChar(c) + u)[1] == Unit(c as int)[1];
    } else {
      var n := c as int - 0x10000;
      var tail := Unit(0xDC00 + n % 1024) + u;
      PairTail(c, u);
      UnitReadsBack(0xD800 + n / 1024, tail);
      UnitReadsBack(0xDC00 + n % 1024, u);
      assert Unescape('u').None? && (Unit(0xD800 + n / 1024) + tail)[1] == 'u';
    }
  }

  lemma PairTail(c: char, u: string)
    requires c as int >= 0x10000
    ensures
      var n := c as int - 0x10000;
      EscapeChar(c) + u == Unit(0xD800 + n / 1024) + (Unit(0xDC00 + n % 1024) + u)
  {
    hide Unit;
  }

  /** An escaped string is read back up to its closing quote, whatever follows. */
  lemma {:induction false} TextReadsBack(s: string, u: string)
    ensures ReadText(Escape(s) + ("\"" + u)) == Some((s, u))
  {
    hide EscapeChar, ReadChar;
    if s == [] {
      assert Escape(s) + ("\"" + u) == "\"" + u;
      assert ("\"" + u)[1..] == u;
    } else {
      var tail := Escape(s[1..]) + ("\"" + u);
      assert Escape(s) + ("\"" + u) == EscapeChar(s[0]) + tail;
      assert (EscapeChar(s[0]) + tail)[0] == EscapeChar(s[0])[0];
      CharReadsBack(s[0], tail);
      TextReadsBack(s[1..], u);
      assert [s[0]] + s[1..] == s;
    }
  }

  // ------------------------------------------------------------------
  // Values
  // ------------------------------------------------------------------

  /** `json.dumps(obj, separators=(",", ":"))` for fields in order. */
  function Dump(j: Json): (s: string)
    ensures s != [] && s[0] !in {',', ']', '}'}
    ensures (j.Str? <==> s[0] == '"') && (j.Arr? <==> s[0] == '[') && (j.Obj? <==> s[0] == '{')
  {
    match j
    case Num(n) =>
      NumStart(n);
      IntString(n)
    case Str(s) => Quote(s)
    case Arr(items) => "[" + DumpItems(items) + "]"
    case Obj(fields) => "{" + DumpFields(fields) + "}"
  }

  function DumpItems(items: Items): string {
    match items
    case NoItems => ""
    case Item(head, tail) => Dump(head) + if tail.NoItems? then "" else "," + DumpItems(tail)
  }

  function DumpFields(fields: Fields): string {
    match fields
    case NoFields => ""
    case Field(key, value, rest) =>
      Quote(key) + ":" + Dump(value) + if rest.NoFields? then "" else "," + DumpFields(rest)
  }

  predicate Numeric(c: char) {
    c == '-' || '0' <= c <= '9'
  }

  lemma NumStart(n: int)
    ensures forall c :: c in IntString(n) ==> Numeric(c)
    ensures IntString(n) != [] && Numeric(IntString(n)[0])
  {
    assert IntString(n)[0] in IntString(n);
    if n < 0 {
      assert IntString(n) == "-" + NatString(-n);
    }
  }

  // ------------------------------------------------------------------
  // Reading values
  // ------------------------------------------------------------------

  /** The number of leading characters that belong to a number. */
  function NumberLength(s: string): (n: nat)
    ensures n <= |s|
  {
    if s == [] || !Numeric(s[0]) then 0 else 1 + NumberLength(s[1..])
  }

  function ReadNum(s: string): (r: Reading<Json>)
    ensures r.Some? ==> |r.value.1| < |s|
  {
    var n := NumberLength(s);
    var i := ReadInt(s[..n]);
    if i.None? || n == 0 then None else Some((Num(i.value), s[n..]))
  }

  function ReadStr(s: string): (r: Reading<Json>)
    ensures r.Some? ==> |r.value.1| < |s|
  {
    var text := ReadText(s);
    if text.None? then None else Some((Str(text.value.0), text.value.1))
  }

  /** Reads a value without spaces, every part of it written in the one canonical way. */
  function ReadValue(s: string): (r: Reading<Json>)
    ensures r.Some? ==> |r.value.1| < |s|
    decreases |s|, 0
  {
    if s == [] then None
    else if s[0] == '"' then ReadStr(s[1..])
    else if s[0] == '[' then
      var items := ReadItems(s[1..]);
      if items.None? then None else Some((Arr(items.value.0), items.value.1))
    else if s[0] == '{' then
      var fields := ReadFields(s[1..]);
      if fields.None? then None else Some((Obj(fields.value.0), fields.value.1))
    else ReadNum(s)
  }

  /** Reads the items of an array and its closing bracket. */
  function ReadItems(s: string): (r: Reading<Items>)
    ensures r.Some? ==> |r.value.1| < |s|
    decreases |s|, 2
  {
    if s != [] && s[0] == ']' then Some((NoItems, s[1..])) else ReadSomeItems(s)
  }

  function ReadSomeItems(s: string): (r: Reading<Items>)
    ensures r.Some? ==> |r.value.1| < |s|
    decreases |s|, 1
  {
    var head := ReadValue(s);
    if head.None? || head.value.1 == [] then None
    else
      var t := head.value.1;
      if t[0] == ']' then Some((Item(head.value.0, NoItems), t[1..]))
      else if t[0] != ',' then None
      else
        var tail := ReadSomeItems(t[1..]);
        if tail.None? then None else Some((Item(head.value.0, tail.value.0), tail.value.1))
  }

  /** Reads the fields of an object and its closing brace. */
  function ReadFields(s: string): (r: Reading<Fields>)
    ensures r.Some? ==> |r.value.1| < |s|
    decreases |s|, 2
  {
    if s != [] && s[0] == '}' then Some((NoFields, s[1..])) else ReadSomeFields(s)
  }

  function ReadKey(s: string): (r: Reading<string>)
    ensures r.Some? ==> |r.value.1| < |s|
  {
    if s == [] || s[0] != '"' then None
    else
      var key := ReadText(s[1..]);
      if key.None? || key.value.1 == [] || key.value.1[0] != ':' then None
      else Some((key.value.0, key.value.1[1..]))
  }

  function ReadSomeFields(s: string): (r: Reading<Fields>)
    ensures r.Some? ==> |r.value.1| < |s|
    decreases |s|, 1
  {
    var key := ReadKey(s);
    if key.None? then None
    else
      var value := ReadValue(key.value.1);
      if value.None? || value.value.1 == [] then None
      else
        var t := value.value.1;
        if t[0] == '}' then Some((Field(key.value.0, value.value.0, NoFields), t[1..]))
        else if t[0] != ',' then None
        else
          var rest := ReadSomeFields(t[1..]);
          if rest.None? then None else Some((Field(key.value.0, value.value.0, rest.value.0), rest.value.1))
  }

  /** What may follow a value. */
  predicate Follows(u: string) {
    u == [] || u[0] in {',', ']', '}'}
  }

  lemma {:induction false} NumberEnds(a: string, u: string)
    requires (forall c :: c in a ==> Numeric(c)) && Follows(u)
    ensures NumberLength(a + u) == |a|
  {
    if a == [] {
      assert a + u == u;
    } else {
      assert (a + u)[1..] == a[1..] + u;
      NumberEnds(a[1..], u);
    }
  }

  lemma NumReadsBack(n: int, u: string)
    requires Follows(u)
    ensures ReadNum(IntString(n) + u) == Some((Num(n), u))
  {
    hide IntString, ReadInt;
    NumStart(n);
    IntReadsBack(n);
    NumberEnds(IntString(n), u);
    var s := IntString(n) + u;
    assert s[..|IntString(n)|] == IntString(n) && s[|IntString(n)|..] == u;
  }

  lemma StrReadsBack(s: string, u: string)
    ensures (Quote(s) + u)[0] == '"' && ReadText((Quote(s) + u)[1..]) == Some((s, u))
  {
    hide Escape, ReadText;
    TextReadsBack(s, u);
    assert (Quote(s) + u)[1..] == Escape(s) + ("\"" + u);
  }

  /** Every value is read back from its text, whatever may follow it. */
  lemma {:induction false} ValueReadsBack(j: Json, u: string)
    requires Follows(u)
    ensures ReadValue(Dump(j) + u) == Some((j, u))
    decreases j, 1
  {
    hide ReadNum, ReadText, ReadItems, ReadFields, IntString, Quote, DumpItems, DumpFields;
    var s := Dump(j) + u;
    assert s[0] == Dump(j)[0];
    match j {
      case Num(n) =>
        NumStart(n);
        NumReadsBack(n, u);
      case Str(t) => StrReadsBack(t, u);
      case Arr(items) =>
        assert s[1..] == DumpItems(items) + ("]" + u);
        ItemsReadBack(items, u);
      case Obj(fields) =>
        assert s[1..] == DumpFields(fields) + ("}" + u);
        FieldsReadBack(fields, u);
    }
  }

  /** The text after the first item. */
  function AfterItem(tail: Items, u: string): (r: string)
    ensures r != [] && Follows(r) && (tail.NoItems? <==> r[0] == ']')
    ensures tail.NoItems? ==> r[1..] == u
    ensures !tail.NoItems? ==> r[0] == ',' && r[1..] == DumpItems(tail) + ("]" + u)
  {
    if tail.NoItems? then "]" + u else "," + (DumpItems(tail) + ("]" + u))
  }

  lemma {:induction false} FirstItem(items: Items, u: string)
    requires items.Item?
    ensures DumpItems(items) + ("]" + u) == Dump(items.head) + AfterItem(items.tail, u)
  {
    hide Dump;
    var tail := if items.tail.NoItems? then "" else "," + DumpItems(items.tail);
    assert tail + ("]" + u) == AfterItem(items.tail, u);
  }

  lemma {:induction false} ItemsReadBack(items: Items, u: string)
    ensures ReadItems(DumpItems(items) + ("]" + u)) == Some((items, u))
    decreases items, 1
  {
    hide ReadSomeItems, Dump;
    if items.NoItems? {
      assert DumpItems(items) + ("]" + u) == "]" + u;
      assert ("]" + u)[1..] == u;
    } else {
      FirstItem(items, u);
      assert (Dump(items.head) + AfterItem(items.tail, u))[0] == Dump(items.head)[0];
      SomeItemsReadBack(items, u);
    }
  }

  lemma {:induction false} SomeItemsReadBack(items: Items, u: string)
    requires items.Item?
    ensures ReadSomeItems(DumpItems(items) + ("]" + u)) == Some((items, u))
    decreases items, 0
  {
    hide ReadValue, Dump, DumpItems, AfterItem;
    FirstItem(items, u);
    ValueReadsBack(items.head, AfterItem(items.tail, u));
    if items.tail.Item? {
      SomeItemsReadBack(items.tail, u);
    }
  }

  /** The text after the first field's value. */
  function AfterField(rest: Fields, u: string): (r: string)
    ensures r != [] && Follows(r) && (rest.NoFields? <==> r[0] == '}')
    ensures rest.NoFields? ==> r[1..] == u
    ensures !rest.NoFields? ==> r[0] == ',' && r[1..] == DumpFields(rest) + ("}" + u)
  {
    if rest.NoFields? then "}" + u else "," + (DumpFields(rest) + ("}" + u))
  }

  lemma {:induction false} FirstField(fields: Fields, u: string)
    requires fields.Field?
    ensures DumpFields(fields) + ("}" + u) ==
            Quote(fields.key) + (":" + (Dump(fields.value) + AfterField(fields.rest, u)))
  {
    hide Quote, Dump;
    var tail := if fields.rest.NoFields? then "" else "," + DumpFields(fields.rest);
    assert tail + ("}" + u) == AfterField(fields.rest, u);
    Regroup(Quote(fields.key), ":", Dump(fields.value), tail, "}" + u);
  }

  lemma Regroup(a: string, b: string, c: string, d: string, e: string)
    ensures (a + b + c + d) + e == a + (b + (c + (d + e)))
  {
  }

  lemma {:induction false} FieldsReadBack(fields: Fields, u: string)
    ensures ReadFields(DumpFields(fields) + ("}" + u)) == Some((fields, u))
    decreases fields, 1
  {
    hide ReadSomeFields, Quote, Dump;
    if fields.NoFields? {
      assert DumpFields(fields) + ("}" + u) == "}" + u;
      assert ("}" + u)[1..] == u;
    } else {
      FirstField(fields, u);
      StrReadsBack(fields.key, ":" + (Dump(fields.value) + AfterField(fields.rest, u)));
      SomeFieldsReadBack(fields, u);
    }
  }

  lemma KeyReadsBack(key: string, t: string)
    ensures ReadKey(Quote(key) + (":" + t)) == Some((key, t))
  {
    hide Quote, ReadText;
    StrReadsBack(key, ":" + t);
    assert (":" + t)[1..] == t;
  }

  lemma {:induction false} SomeFieldsReadBack(fields: Fields, u: string)
    requires fields.Field?
    ensures ReadSomeFields(DumpFields(fields) + ("}" + u)) == Some((fields, u))
    decreases fields, 0
  {
    hide ReadValue, ReadKey, Dump, Quote, DumpFields, AfterField;
    FirstField(fields, u);
    KeyReadsBack(fields.key, Dump(fields.value) + AfterField(fields.rest, u));
    ValueReadsBack(fields.value, AfterField(fields.rest, u));
    if fields.rest.Field? {
      SomeFieldsReadBack(fields.rest, u);
    }
  }

  lemma {:induction false} DumpReadsBack(j: Json)
    ensures ReadValue(Dump(j)) == Some((j, []))
  {
    assert Dump(j) + [] == Dump(j);
    ValueReadsBack(j, []);
  }

  // ------------------------------------------------------------------
  // States
  // ------------------------------------------------------------------

  /** The fields of a dictionary under `sort_keys=True`. */
  function FromMap(m: map<string, Json>): Fields {
    FromListing(SortedListing(m.Keys), m)
  }

  function FromListing(keys: seq<string>, m: map<string, Json>): Fields
    requires forall k :: k in keys ==> k in m
  {
    if keys == [] then NoFields else Field(keys[0], m[keys[0]], FromListing(keys[1..], m))
  }

  function FromList(names: seq<string>): Items {
    if names == [] then NoItems else Item(Str(names[0]), FromList(names[1..]))
  }

  function StatusName(s: Status): string {
    match s
    case Manufactured => "manufactured"
    case InTransit => "in_transit"
    case AtCustoms => "at_customs"
    case Quarantined => "quarantined"
    case Delivered => "delivered"
  }

  function ProductJson(p: Product): Json {
    var always := map["status" := Str(StatusName(p.status)), "location" := Str(p.location), "owner" := Str(p.owner)];
    var checks := if p.checks.Some? then map["checks" := Arr(FromList(p.checks.value))] else map[];
    var reason := if p.quarantineReason.Some? then map["quarantine_reason" := Str(p.quarantineReason.value)] else map[];
    Obj(FromMap(always + checks + reason))
  }

  function BalancesJson(b: map<string, int>): Json {
    Obj(FromMap(map a | a in b :: Num(b[a])))
  }

  function ProductsJson(ps: map<string, Product>): Json {
    Obj(FromMap(map id | id in ps :: ProductJson(ps[id])))
  }

  function StateJson(st: State): Json {
    var balances := if st.balances.Some? then map["balances" := BalancesJson(st.balances.value)] else map[];
    var products := if st.products.Some? then map["products" := ProductsJson(st.products.value)] else map[];
    Obj(FromMap(balances + products))
  }

  /** `_canonical_json` */
  function CanonicalText(st: State): string {
    Dump(StateJson(st))
  }

  // ------------------------------------------------------------------
  // Reading states
  // ------------------------------------------------------------------

  function Lookup(fields: Fields, key: string): Option<Json> {
    if fields.NoFields? then None
    else if fields.key == key then Some(fields.value)
    else Lookup(fields.rest, key)
  }

  /** Keys in strictly ascending order. */
  predicate Ascending(fields: Fields) {
    fields.NoFields? || fields.rest.NoFields? || (LexLt(fields.key, fields.rest.key) && Ascending(fields.rest))
  }

  predicate OnlyKeys(fields: Fields, allowed: set<string>) {
    fields.NoFields? || (fields.key in allowed && OnlyKeys(fields.rest, allowed))
  }

  /** An object with sorted keys, none but the allowed ones. */
  predicate ObjectOf(j: Json, allowed: set<string>) {
    j.Obj? && Ascending(j.fields) && OnlyKeys(j.fields, allowed)
  }

  function ReadStatus(s: string): Option<Status> {
    if s == "manufactured" then Some(Manufactured)
    else if s == "in_transit" then Some(InTransit)
    else if s == "at_customs" then Some(AtCustoms)
    else if s == "quarantined" then Some(Quarantined)
    else if s == "delivered" then Some(Delivered)
    else None
  }

  function ReadNames(items: Items): Option<seq<string>> {
    if items.NoItems? then Some([])
    else
      var names := ReadNames(items.tail);
      if names.None? || !items.head.Str? then None else Some([items.head.s] + names.value)
  }

  predicate IsString(j: Option<Json>) {
    j.Some? && j.value.Str?
  }

  function ReadProduct(j: Json): Option<Product> {
    if !ObjectOf(j, {"status", "location", "owner", "checks", "quarantine_reason"}) then None
    else
      var (status, location, owner) := (Lookup(j.fields, "status"), Lookup(j.fields, "location"), Lookup(j.fields, "owner"));
      var (checks, reason) := (Lookup(j.fields, "checks"), Lookup(j.fields, "quarantine_reason"));
      if !IsString(status) || ReadStatus(status.value.s).None? || !IsString(location) || !IsString(owner) then None
      else if checks.Some? && (!checks.value.Arr? || ReadNames(checks.value.items).None?) then None
      else if reason.Some? && !reason.value.Str? then None
      else Some(Product(
        ReadStatus(status.value.s).value, location.value.s, owner.value.s,
        if checks.Some? then ReadNames(checks.value.items) else None,
        if reason.Some? then Some(reason.value.s) else None))
  }

  function ReadBalances(fields: Fields): Option<map<string, int>> {
    if fields.NoFields? then Some(map[])
    else
      var rest := ReadBalances(fields.rest);
      if rest.None? || !fields.value.Num? then None else Some(rest.value[fields.key := fields.value.n])
  }

  function ReadProducts(fields: Fields): Option<map<string, Product>> {
    if fields.NoFields? then Some(map[])
    else
      var (rest, p) := (ReadProducts(fields.rest), ReadProduct(fields.value));
      if rest.None? || p.None? then None else Some(rest.value[fields.key := p.value])
  }

  /** A state object: `balances` and `products`, each of which may be absent. */
  function ReadState(j: Json): Option<State> {
    if !ObjectOf(j, {"balances", "products"}) then None
    else
      var (b, p) := (Lookup(j.fields, "balances"), Lookup(j.fields, "products"));
      if b.Some? && (!b.value.Obj? || !Ascending(b.value.fields) || ReadBalances(b.value.fields).None?) then None
      else if p.Some? && (!p.value.Obj? || !Ascending(p.value.fields) || ReadProducts(p.value.fields).None?) then None
      else Some(State(
        if b.Some? then ReadBalances(b.value.fields) else None,
        if p.Some? then ReadProducts(p.value.fields) else None))
  }

  /** Reads a whole text as a state: sorted keys, no spaces, the one canonical spelling of everything. */
  function ReadCanonical(text: string): Option<State> {
    var r := ReadValue(text);
    if r.None? || r.value.1 != [] then None else ReadState(r.value.0)
  }

  lemma {:induction false} ListingFields(keys: seq<string>, m: map<string, Json>, key: string, allowed: set<string>)
    requires (forall k :: k in keys ==> k in m && k in allowed) && StrictlySorted(keys)
    ensures Lookup(FromListing(keys, m), key) == if key in keys then Some(m[key]) else None
    ensures Ascending(FromListing(keys, m)) && OnlyKeys(FromListing(keys, m), allowed)
  {
    if keys != [] {
      ListingFields(keys[1..], m, key, allowed);
      if |keys| > 1 {
        assert LexLt(keys[0], keys[1]);
      }
      assert key in keys <==> key == keys[0] || key in keys[1..];
    }
  }

  lemma {:induction false} MapFields(m: map<string, Json>, key: string, allowed: set<string>)
    requires m.Keys <= allowed
    ensures Lookup(FromMap(m), key) == if key in m then Some(m[key]) else None
    ensures ObjectOf(Obj(FromMap(m)), allowed)
  {
    ListingFields(SortedListing(m.Keys), m, key, allowed);
  }

  lemma {:induction false} NamesReadBack(names: seq<string>)
    ensures ReadNames(FromList(names)) == Some(names)
  {
    if names != [] {
      NamesReadBack(names[1..]);
      assert [names[0]] + names[1..] == names;
    }
  }

  lemma StatusReadsBack(s: Status)
    ensures ReadStatus(StatusName(s)) == Some(s)
  {
    assert |"manufactured"| == 12 && |"in_transit"| == 10 && |"at_customs"| == 10 && |"quarantined"| == 11 && |"delivered"| == 9;
    assert "in_transit"[0] != "at_customs"[0];
  }

  const PRODUCT_KEYS := {"status", "location", "owner", "checks", "quarantine_reason"}

  lemma ProductFields(p: Product) returns (m: map<string, Json>)
    ensures ProductJson(p) == Obj(FromMap(m)) && m.Keys <= PRODUCT_KEYS
    ensures "status" in m && m["status"] == Str(StatusName(p.status))
    ensures "location" in m && m["location"] == Str(p.location)
    ensures "owner" in m && m["owner"] == Str(p.owner)
    ensures ("checks" in m <==> p.checks.Some?) && ("checks" in m ==> m["checks"] == Arr(FromList(p.checks.value)))
    ensures "quarantine_reason" in m <==> p.quarantineReason.Some?
    ensures "quarantine_reason" in m ==> m["quarantine_reason"] == Str(p.quarantineReason.value)
  {
    hide FromMap, FromList, StatusName;
    var always := map["status" := Str(StatusName(p.status)), "location" := Str(p.location), "owner" := Str(p.owner)];
    var checks := if p.checks.Some? then map["checks" := Arr(FromList(p.checks.value))] else map[];
    var reason := if p.quarantineReason.Some? then map["quarantine_reason" := Str(p.quarantineReason.value)] else map[];
    m := always + checks + reason;
    assert always.Keys <= PRODUCT_KEYS && checks.Keys <= PRODUCT_KEYS && reason.Keys <= PRODUCT_KEYS;
    assert m.Keys == always.Keys + checks.Keys + reason.Keys;
  }

  lemma ProductReadsBack(p: Product)
    ensures ReadProduct(ProductJson(p)) == Some(p)
  {
    hide ProductJson, FromMap, Lookup, ObjectOf, FromList, ReadNames, ReadStatus, StatusName;
    var m := ProductFields(p);
    MapFields(m, "status", PRODUCT_KEYS);
    MapFields(m, "location", PRODUCT_KEYS);
    MapFields(m, "owner", PRODUCT_KEYS);
    MapFields(m, "checks", PRODUCT_KEYS);
    MapFields(m, "quarantine_reason", PRODUCT_KEYS);
    StatusReadsBack(p.status);
    if p.checks.Some? {
      NamesReadBack(p.checks.value);
    }
  }

  lemma {:induction false} BalancesListing(keys: seq<string>, m: map<string, Json>, b: map<string, int>)
    requires forall k :: k in keys ==> k in m && k in b && m[k] == Num(b[k])
    ensures ReadBalances(FromListing(keys, m)) == Some(map k | k in keys :: b[k])
  {
    var all := map k | k in keys :: b[k];
    if keys == [] {
      assert all.Keys == {};
    } else {
      BalancesListing(keys[1..], m, b);
      assert all == (map k | k in keys[1..] :: b[k])[keys[0] := b[keys[0]]];
    }
  }

  lemma BalancesReadBack(b: map<string, int>)
    ensures BalancesJson(b).Obj? && Ascending(BalancesJson(b).fields)
    ensures ReadBalances(BalancesJson(b).fields) == Some(b)
  {
    hide FromListing, ReadBalances, Ascending, OnlyKeys, Lookup;
    var m := map a | a in b :: Num(b[a]);
    var keys := SortedListing(m.Keys);
    assert m.Keys == b.Keys;
    assert forall k :: k in keys <==> k in m.Keys;
    ListingFields(keys, m, "", m.Keys);
    BalancesListing(keys, m, b);
    assert (map k | k in keys :: b[k]) == b;
  }

  lemma {:induction false} ProductsListing(keys: seq<string>, m: map<string, Json>, ps: map<string, Product>)
    requires forall k :: k in keys ==> k in m && k in ps && m[k] == ProductJson(ps[k])
    ensures ReadProducts(FromListing(keys, m)) == Some(map k | k in keys :: ps[k])
  {
    hide ProductJson, ReadProduct;
    var all := map k | k in keys :: ps[k];
    if keys == [] {
      assert all.Keys == {};
    } else {
      ProductsListing(keys[1..], m, ps);
      ProductReadsBack(ps[keys[0]]);
      assert all == (map k | k in keys[1..] :: ps[k])[keys[0] := ps[keys[0]]];
    }
  }

  lemma ProductsReadBack(ps: map<string, Product>)
    ensures ProductsJson(ps).Obj? && Ascending(ProductsJson(ps).fields)
    ensures ReadProducts(ProductsJson(ps).fields) == Some(ps)
  {
    hide FromListing, ReadProducts, Ascending, OnlyKeys, Lookup, ProductJson;
    var m := map id | id in ps :: ProductJson(ps[id]);
    var keys := SortedListing(m.Keys);
    assert m.Keys == ps.Keys;
    assert forall k :: k in keys <==> k in m.Keys;
    ListingFields(keys, m, "", m.Keys);
    ProductsListing(keys, m, ps);
    assert (map k | k in keys :: ps[k]) == ps;
  }

  const STATE_KEYS := {"balances", "products"}

  lemma StateFields(st: State) returns (m: map<string, Json>)
    ensures StateJson(st) == Obj(FromMap(m)) && m.Keys <= STATE_KEYS
    ensures ("balances" in m <==> st.balances.Some?) && ("balances" in m ==> m["balances"] == BalancesJson(st.balances.value))
    ensures ("products" in m <==> st.products.Some?) && ("products" in m ==> m["products"] == ProductsJson(st.products.value))
  {
    hide BalancesJson, ProductsJson, FromMap;
    var balances := if st.balances.Some? then map["balances" := BalancesJson(st.balances.value)] else map[];
    var products := if st.products.Some? then map["products" := ProductsJson(st.products.value)] else map[];
    assert "balances"[0] != "products"[0];
    m := balances + products;
  }

  lemma StateReadsBack(st: State)
    ensures ReadState(StateJson(st)) == Some(st)
  {
    hide StateJson, BalancesJson, ProductsJson, FromMap, Lookup, ObjectOf, ReadBalances, ReadProducts, Ascending;
    var m := StateFields(st);
    MapFields(m, "balances", STATE_KEYS);
    MapFields(m, "products", STATE_KEYS);
    if st.balances.Some? {
      BalancesReadBack(st.balances.value);
    }
    if st.products.Some? {
      ProductsReadBack(st.products.value);
    }
  }

  /** The canonical text of a state is read back as that state. */
  lemma CanonicalReadsBack(st: State)
    ensures ReadCanonical(CanonicalText(st)) == Some(st)
  {
    hide StateJson, Dump, ReadValue, ReadState;
    DumpReadsBack(StateJson(st));
    StateReadsBack(st);
  }

  /** Different states have different canonical texts. */
  lemma CanonicalTextInjective(s: State, t: State)
    requires CanonicalText(s) == CanonicalText(t)
    ensures s == t
  {
    hide CanonicalText, ReadCanonical;
    CanonicalReadsBack(s);
    CanonicalReadsBack(t);
  }
}
