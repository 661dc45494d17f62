/** `json.dumps(..., sort_keys=True)` with `ensure_ascii`, and `json.loads` on what it prints
    (RFC 8259, sections 4 to 7). */
module Json {
  import opened Wrappers
  import opened Texts
  import opened Sorting

  // ---------------------------------------------------------------- values

  predicate IsDigit(c: char) { '0' <= c <= '9' }

  predicate AllDigits(s: string) { forall i :: 0 <= i < |s| ==> IsDigit(s[i]) }

  /** The characters of numbers, of exponents and of NaN and Infinity. */
  predicate IsNumberChar(c: char) {
    IsDigit(c) || c == '+' || c == '-' || c == '.' || c == 'e' || c == 'N' || c == 'a' ||
    c == 'I' || c == 'n' || c == 'f' || c == 'i' || c == 't' || c == 'y'
  }

  predicate StartsNumber(c: char) { IsDigit(c) || c == '-' || c == 'N' || c == 'I' }

  predicate IsIntText(s: string) {
    |s| > 0 && (AllDigits(s) || (s[0] == '-' && |s| > 1 && AllDigits(s[1..])))
  }

  predicate IsFloatText(s: string) {
    |s| > 0 && StartsNumber(s[0]) && (forall i :: 0 <= i < |s| ==> IsNumberChar(s[i])) && !IsIntText(s)
  }

  /** A float stands for its `float.__repr__`, which Python reads back to the same float. */
  type FloatText = s: string | IsFloatText(s) witness "NaN"

  /** A JSON tree; the fields of an object are listed in the order of the dictionary. */
  datatype Json =
    | Null
    | Bool(b: bool)
    | Int(n: int)
    | Float(repr: FloatText)
    | Str(t: Text)
    | Arr(items: seq<Json>)
    | Obj(fields: seq<Field>)

  datatype Field = Field(key: Text, value: Json)

  function FieldKey(f: Field): Key { f.key }

  // ---------------------------------------------------------------- printing

  function HexDigit(d: int): char
    requires 0 <= d < 16
  {
    if d < 10 then ('0' as int + d) as char else ('a' as int + d - 10) as char
  }

  /** Code points beyond the first plane are written as two escapes. */
  function Units(t: Text): (us: Text)
    ensures forall i :: 0 <= i < |us| ==> us[i] < 0x10000
  {
    if t == [] then []
    else if t[0] < 0x10000 then [t[0]] + Units(t[1..])
    else [0xD800 + (t[0] - 0x10000) / 0x400, 0xDC00 + (t[0] - 0x10000) % 0x400] + Units(t[1..])
  }

  function EscapeUnit(u: int): string
    requires 0 <= u < 0x10000
  {
    if u == 0x22 then "\\\""
    else if u == 0x5C then "\\\\"
    else if u == 0x0A then "\\n"
    else if u == 0x0D then "\\r"
    else if u == 0x09 then "\\t"
    else if u == 0x0C then "\\f"
    else if u == 0x08 then "\\b"
    else if 0x20 <= u <= 0x7E then [u as char]
    else ['\\', 'u', HexDigit(u / 0x1000), HexDigit(u / 0x100 % 0x10), HexDigit(u / 0x10 % 0x10), HexDigit(u % 0x10)]
  }

  function Escape(us: Text): string
    requires forall i :: 0 <= i < |us| ==> us[i] < 0x10000
  {
    if us == [] then "" else EscapeUnit(us[0]) + Escape(us[1..])
  }

  function Quote(t: Text): string { ['"'] + Escape(Units(t)) + ['"'] }

  function NatText(n: nat): (s: string)
    ensures |s| > 0 && AllDigits(s)
  {
    if n < 10 then [('0' as int + n) as char] else NatText(n / 10) + [('0' as int + n % 10) as char]
  }

  function IntText(n: int): string { if n < 0 then ['-'] + NatText(-n) else NatText(n) }

  /** `spaced` tells the default separators ", " and ": " from the compact ones. */
  function Print(j: Json, spaced: bool): string
    decreases j, 1
  {
    match j
    case Null => "null"
    case Bool(b) => if b then "true" else "false"
    case Int(n) => IntText(n)
    case Float(repr) => repr
    case Str(t) => Quote(t)
    case Arr(items) =>
      if items == [] then "[]" else ['['] + Print(items[0], spaced) + PrintItems(items[1..], spaced)
    case Obj(fields) =>
      if fields == [] then "{}" else ['{'] + PrintField(fields[0], spaced) + PrintFields(fields[1..], spaced)
  }

  function Comma(spaced: bool): string { if spaced then ", " else "," }

  function Colon(spaced: bool): string { if spaced then ": " else ":" }

  function PrintItems(items: seq<Json>, spaced: bool): string
    decreases items, 0
  {
    if items == [] then "]"
    else Comma(spaced) + Print(items[0], spaced) + PrintItems(items[1..], spaced)
  }

  function PrintField(f: Field, spaced: bool): string
    decreases f, 2
  {
    Quote(f.key) + Colon(spaced) + Print(f.value, spaced)
  }

  function PrintFields(fields: seq<Field>, spaced: bool): string
    decreases fields, 0
  {
    if fields == [] then "}"
    else Comma(spaced) + PrintField(fields[0], spaced) + PrintFields(fields[1..], spaced)
  }

  /** Every object's fields in the order of their keys. */
  function SortTree(j: Json): Json
    decreases j, 1
  {
    match j
    case Arr(items) => Arr(SortItems(items))
    case Obj(fields) => Obj(Sort(SortValues(fields), FieldKey))
    case _ => j
  }

  function SortItems(items: seq<Json>): (r: seq<Json>)
    ensures |r| == |items|
    ensures forall i :: 0 <= i < |r| ==> r[i] == SortTree(items[i])
    decreases items, 0
  {
    if items == [] then [] else [SortTree(items[0])] + SortItems(items[1..])
  }

  function SortField(f: Field): Field
    decreases f, 2
  {
    Field(f.key, SortTree(f.value))
  }

  function SortValues(fields: seq<Field>): (r: seq<Field>)
    ensures |r| == |fields|
    ensures forall i :: 0 <= i < |r| ==> r[i] == SortField(fields[i])
    decreases fields, 0
  {
    if fields == [] then [] else [SortField(fields[0])] + SortValues(fields[1..])
  }

  /** `json.dumps(j, sort_keys=True)`. */
  function Dumps(j: Json, spaced: bool): string { Print(SortTree(j), spaced) }

  // ---------------------------------------------------------------- parsing

  function SkipSpace(s: string): (r: string)
    ensures |r| <= |s|
  {
    if s != "" && (s[0] == ' ' || s[0] == '\t' || s[0] == '\n' || s[0] == '\r') then SkipSpace(s[1..]) else s
  }

  function HexValue(c: char): (r: Option<int>)
    ensures r.Some? ==> 0 <= r.value < 16
  {
    if IsDigit(c) then Some(c as int - '0' as int)
    else if 'a' <= c <= 'f' then Some(c as int - 'a' as int + 10)
    else if 'A' <= c <= 'F' then Some(c as int - 'A' as int + 10)
    else None
  }

  function FourHex(a: char, b: char, c: char, d: char): (r: Option<CodePoint>) {
    var w :- HexValue(a);
    var x :- HexValue(b);
    var y :- HexValue(c);
    var z :- HexValue(d);
    Some(((w * 16 + x) * 16 + y) * 16 + z)
  }

  function SimpleEscape(c: char): Option<CodePoint> {
    if c == '"' || c == '\\' || c == '/' then Some(c as int)
    else if c == 'n' then Some(0x0A)
    else if c == 'r' then Some(0x0D)
    else if c == 't' then Some(0x09)
    else if c == 'f' then Some(0x0C)
    else if c == 'b' then Some(0x08)
    else None
  }

  /** The characters up to the closing quote, surrogate escapes not yet combined. */
  function ScanUnits(s: string): (r: Option<(Text, string)>)
    ensures r.Some? ==> |r.value.1| < |s|
    decreases |s|
  {
    if s == "" then None
    else if s[0] == '"' then Some(([], s[1..]))
    else if s[0] == '\\' then
      if |s| < 2 then None
      else if s[1] == 'u' then
        if |s| < 6 then None
        else
          var u :- FourHex(s[2], s[3], s[4], s[5]);
          var (us, rest) :- ScanUnits(s[6..]);
          Some(([u] + us, rest))
      else
        var u :- SimpleEscape(s[1]);
        var (us, rest) :- ScanUnits(s[2..]);
        Some(([u] + us, rest))
    else if s[0] < ' ' then None
    else
      var (us, rest) :- ScanUnits(s[1..]);
      Some(([s[0] as int] + us, rest))
  }

  function ParseText(s: string): (r: Option<(Text, string)>)
    ensures r.Some? ==> |r.value.1| < |s|
  {
    var (us, rest) :- ScanUnits(s);
    Some((Fuse(us), rest))
  }

  function NumberLength(s: string): (n: nat)
    ensures n <= |s|
  {
    if s != "" && IsNumberChar(s[0]) then 1 + NumberLength(s[1..]) else 0
  }

  function NatValue(s: string): nat
    requires AllDigits(s)
  {
    if s == "" then 0 else NatValue(s[..|s| - 1]) * 10 + (s[|s| - 1] as int - '0' as int)
  }

  function NumberValue(s: string): Option<Json> {
    if IsIntText(s) then Some(Int(if s[0] == '-' then 0 - NatValue(s[1..]) else NatValue(s)))
    else if IsFloatText(s) then Some(Float(s))
    else None
  }

  function Literal(s: string, word: string, j: Json): (r: Option<(Json, string)>)
    requires |word| > 0
    ensures r.Some? ==> |r.value.1| < |s|
  {
    if word <= s then Some((j, s[|word|..])) else None
  }

  function ParseValue(s: string): (r: Option<(Json, string)>)
    ensures r.Some? ==> |r.value.1| < |s|
    decreases |s|, 1
  {
    if s == "" then None
    else if s[0] == '"' then
      var (t, rest) :- ParseText(s[1..]);
      Some((Str(t), rest))
    else if s[0] == '[' then
      var u := SkipSpace(s[1..]);
      if u != "" && u[0] == ']' then Some((Arr([]), u[1..]))
      else
        var (v, more) :- ParseValue(u);
        var (vs, rest) :- ParseItems(more);
        Some((Arr([v] + vs), rest))
    else if s[0] == '{' then
      var u := SkipSpace(s[1..]);
      if u != "" && u[0] == '}' then Some((Obj([]), u[1..]))
      else
        var (f, more) :- ParseField(u);
        var (fs, rest) :- ParseFields(more);
        Some((Obj([f] + fs), rest))
    else if StartsNumber(s[0]) then
      var n := NumberLength(s);
      assert n > 0;
      var v :- NumberValue(s[..n]);
      Some((v, s[n..]))
    else if s[0] == 'n' then Literal(s, "null", Null)
    else if s[0] == 't' then Literal(s, "true", Bool(true))
    else Literal(s, "false", Bool(false))
  }

  function ParseItems(s: string): (r: Option<(seq<Json>, string)>)
    ensures r.Some? ==> |r.value.1| < |s|
    decreases |s|, 0
  {
    var u := SkipSpace(s);
    if u == "" then None
    else if u[0] == ']' then Some(([], u[1..]))
    else if u[0] == ',' then
      var (v, more) :- ParseValue(SkipSpace(u[1..]));
      var (vs, rest) :- ParseItems(more);
      Some(([v] + vs, rest))
    else None
  }

  function ParseField(s: string): (r: Option<(Field, string)>)
    ensures r.Some? ==> |r.value.1| < |s|
    decreases |s|, 0
  {
    if s == "" || s[0] != '"' then None
    else
      var (key, more) :- ParseText(s[1..]);
      var u := SkipSpace(more);
      if u == "" || u[0] != ':' then None
      else
        var (v, rest) :- ParseValue(SkipSpace(u[1..]));
        Some((Field(key, v), rest))
  }

  function ParseFields(s: string): (r: Option<(seq<Field>, string)>)
    ensures r.Some? ==> |r.value.1| < |s|
    decreases |s|, 0
  {
    var u := SkipSpace(s);
    if u == "" then None
    else if u[0] == '}' then Some(([], u[1..]))
    else if u[0] == ',' then
      var (f, more) :- ParseField(SkipSpace(u[1..]));
      var (fs, rest) :- ParseFields(more);
      Some(([f] + fs, rest))
    else None
  }

  /** `dict(pairs)`: a repeated key keeps its first place and takes the last value. */
  function Put(d: seq<Field>, f: Field): seq<Field> {
    if d == [] then [f] else if d[0].key == f.key then [f] + d[1..] else [d[0]] + Put(d[1..], f)
  }

  function DictOf(fields: seq<Field>): seq<Field> {
    if fields == [] then [] else Put(DictOf(fields[..|fields| - 1]), fields[|fields| - 1])
  }

  function DictTree(j: Json): Json
    decreases j, 1
  {
    match j
    case Arr(items) => Arr(DictItems(items))
    case Obj(fields) => Obj(DictOf(DictValues(fields)))
    case _ => j
  }

  function DictItems(items: seq<Json>): (r: seq<Json>)
    ensures |r| == |items|
    ensures forall i :: 0 <= i < |r| ==> r[i] == DictTree(items[i])
    decreases items, 0
  {
    if items == [] then [] else [DictTree(items[0])] + DictItems(items[1..])
  }

  function DictField(f: Field): Field
    decreases f, 2
  {
    Field(f.key, DictTree(f.value))
  }

  function DictValues(fields: seq<Field>): (r: seq<Field>)
    ensures |r| == |fields|
    ensures forall i :: 0 <= i < |r| ==> r[i] == DictField(fields[i])
    decreases fields, 0
  {
    if fields == [] then [] else [DictField(fields[0])] + DictValues(fields[1..])
  }

  /** `json.loads`. */
  function Loads(s: string): Option<Json> {
    var (j, rest) :- ParseValue(SkipSpace(s));
    if SkipSpace(rest) == "" then Some(DictTree(j)) else None
  }

  // ---------------------------------------------------------------- the text layer

  /** What the reader turns every text of the tree into. */
  function FuseTree(j: Json): Json
    decreases j, 1
  {
    match j
    case Str(t) => Str(Fuse(t))
    case Arr(items) => Arr(FuseItems(items))
    case Obj(fields) => Obj(FuseFields(fields))
    case _ => j
  }

  function FuseItems(items: seq<Json>): (r: seq<Json>)
    ensures |r| == |items|
    ensures forall i :: 0 <= i < |r| ==> r[i] == FuseTree(items[i])
    decreases items, 0
  {
    if items == [] then [] else [FuseTree(items[0])] + FuseItems(items[1..])
  }

  function FuseField(f: Field): Field
    decreases f, 2
  {
    Field(Fuse(f.key), FuseTree(f.value))
  }

  function FuseFields(fields: seq<Field>): (r: seq<Field>)
    ensures |r| == |fields|
    ensures forall i :: 0 <= i < |r| ==> r[i] == FuseField(fields[i])
    decreases fields, 0
  {
    if fields == [] then [] else [FuseField(fields[0])] + FuseFields(fields[1..])
  }

  lemma {:induction false} FuseUnits(t: Text)
    ensures Fuse(Units(t)) == Fuse(t)
  {
    if t != [] {
      var us, vs := Units(t), Units(t[1..]);
      FuseUnits(t[1..]);
      if t[0] >= 0x10000 {
        assert us[2..] == vs;
        assert Combine(us[0], us[1]) == t[0];
        assert |t| >= 2 ==> Fuse(t) == [t[0]] + Fuse(t[1..]);
      } else if |t| >= 2 {
        assert us[1..] == vs && us[0] == t[0];
        assert vs[0] == t[1] || IsHigh(vs[0]);
        if IsHigh(t[0]) && IsLow(t[1]) {
          FuseUnits(t[2..]);
          assert t[1..][1..] == t[2..];
          assert vs[1..] == Units(t[2..]);
          assert us[2..] == vs[1..];
        }
      }
    }
  }

  lemma HexRoundTrip(u: int)
    requires 0 <= u < 0x10000
    ensures FourHex(HexDigit(u / 0x1000), HexDigit(u / 0x100 % 0x10), HexDigit(u / 0x10 % 0x10), HexDigit(u % 0x10))
         == Some(u)
  {
    Nibble(u / 0x1000);
    Nibble(u / 0x100 % 0x10);
    Nibble(u / 0x10 % 0x10);
    Nibble(u % 0x10);
    Nibbles(u);
  }

  lemma Nibble(d: int)
    requires 0 <= d < 16
    ensures HexValue(HexDigit(d)) == Some(d)
  {
  }

  lemma Nibbles(u: int)
    requires 0 <= u < 0x10000
    ensures ((u / 0x1000 * 16 + u / 0x100 % 0x10) * 16 + u / 0x10 % 0x10) * 16 + u % 0x10 == u
  {
    assert u / 0x100 % 0x10 == u / 0x100 - 16 * (u / 0x1000);
    assert u / 0x10 % 0x10 == u / 0x10 - 16 * (u / 0x100);
  }

  /** One escaped unit is read back as that unit. */
  lemma ScanUnit(u: CodePoint, more: string, us: Text, rest: string)
    requires u < 0x10000
    requires ScanUnits(more) == Some((us, rest))
    ensures ScanUnits(EscapeUnit(u) + more) == Some(([u] + us, rest))
  {
    var e := EscapeUnit(u);
    var s := e + more;
    assert s[|e|..] == more;
    assert s[0] == e[0];
    if |e| == 6 {
      ScanUnicodeEscape(u, more, us, rest);
    } else if |e| == 2 {
      assert s[1] == e[1];
      assert SimpleEscape(e[1]) == Some(u);
    } else {
      assert s[0] as int == u;
    }
  }

  lemma ScanUnicodeEscape(u: CodePoint, more: string, us: Text, rest: string)
    requires u < 0x10000
    requires ScanUnits(more) == Some((us, rest))
    requires |EscapeUnit(u)| == 6
    ensures ScanUnits(EscapeUnit(u) + more) == Some(([u] + us, rest))
  {
    var e := EscapeUnit(u);
    var s := e + more;
    assert s[0] == '\\' && s[1] == 'u' && s[2] == e[2] && s[3] == e[3] && s[4] == e[4] && s[5] == e[5];
    assert s[6..] == more;
    assert FourHex(s[2], s[3], s[4], s[5]) == Some(u) by { HexRoundTrip(u); }
  }

  lemma ScanQuote(rest: string)
    ensures ScanUnits(['"'] + rest) == Some(([], rest))
  {
    assert (['"'] + rest)[1..] == rest;
  }

  lemma Reassociate(a: string, b: string, c: string, d: string)
    ensures a + b + c + d == a + (b + c + d) == a + (b + (c + d))
  {
  }

  lemma {:induction false} ScanEscaped(us: Text, rest: string)
    requires forall i :: 0 <= i < |us| ==> us[i] < 0x10000
    ensures ScanUnits(Escape(us) + ['"'] + rest) == Some((us, rest))
  {
    if us == [] {
      ScanQuote(rest);
      assert Escape(us) + ['"'] + rest == ['"'] + rest;
    } else {
      ScanEscaped(us[1..], rest);
      ScanUnit(us[0], Escape(us[1..]) + ['"'] + rest, us[1..], rest);
      Reassociate(EscapeUnit(us[0]), Escape(us[1..]), ['"'], rest);
      assert us == [us[0]] + us[1..];
    }
  }

  /** Reading a printed string gives the string with its surrogate pairs fused. */
  lemma ParseQuoted(t: Text, rest: string)
    ensures Quote(t) + rest == ['"'] + (Escape(Units(t)) + ['"'] + rest)
    ensures ParseText(Escape(Units(t)) + ['"'] + rest) == Some((Fuse(t), rest))
  {
    Reassociate(['"'], Escape(Units(t)), ['"'], rest);
    QuotedRead(t, rest);
  }

  lemma QuotedRead(t: Text, rest: string)
    ensures ParseText(Escape(Units(t)) + ['"'] + rest) == Some((Fuse(t), rest))
  {
    ScanEscaped(Units(t), rest);
    FuseUnits(t);
  }
}
