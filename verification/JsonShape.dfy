/** What JSON text looks like: joined lists, quoted texts, decimal numbers. */
module JsonShape {
  import opened Wrappers
  import opened Texts
  import opened PyStrings
  import opened Json
  import opened JsonReading

  // ---------------------------------------------------------------- lists and objects as joined texts

  function Separator(spaced: bool): string { if spaced then ", " else "," }

  function PrintAll(items: seq<Json>, spaced: bool): (r: seq<string>)
    ensures |r| == |items| && forall i :: 0 <= i < |r| ==> r[i] == Print(items[i], spaced)
  {
    seq(|items|, i requires 0 <= i < |items| => Print(items[i], spaced))
  }

  /** `"key":value`, with a space behind the colon or none. */
  function Entry(f: Field, spaced: bool): string { Quote(f.key) + ((if spaced then ": " else ":") + Print(f.value, spaced)) }

  function Entries(fields: seq<Field>, spaced: bool): (r: seq<string>)
    ensures |r| == |fields| && forall i :: 0 <= i < |r| ==> r[i] == Entry(fields[i], spaced)
  {
    seq(|fields|, i requires 0 <= i < |fields| => Entry(fields[i], spaced))
  }

  lemma JoinedFront(parts: seq<string>, p: string, more: seq<string>, sep: string)
    requires parts == [p] + more && more != []
    ensures Joined(parts, sep) == p + (sep + Joined(more, sep))
  {
    assert parts[1..] == more;
  }

  lemma Regroup(a: string, b: string, c: string, d: string)
    ensures a + (b + c) + d == a + (b + (c + d))
    ensures (a + b) + c == a + (b + c)
  {
  }

  lemma NextItem(items: seq<Json>, spaced: bool)
    requires items != []
    ensures PrintItems(items, spaced) == Separator(spaced) + (Print(items[0], spaced) + PrintItems(items[1..], spaced))
  {
    Regroup(Separator(spaced), Print(items[0], spaced), PrintItems(items[1..], spaced), "");
  }

  lemma {:induction false} ItemsJoined(items: seq<Json>, spaced: bool)
    requires items != []
    ensures Print(items[0], spaced) + PrintItems(items[1..], spaced) == Joined(PrintAll(items, spaced), Separator(spaced)) + "]"
  {
    var parts, sep := PrintAll(items, spaced), Separator(spaced);
    if |items| > 1 {
      var rest := items[1..];
      ItemsJoined(rest, spaced);
      assert parts == [parts[0]] + PrintAll(rest, spaced);
      JoinedFront(parts, parts[0], PrintAll(rest, spaced), sep);
      NextItem(rest, spaced);
      Regroup(parts[0], sep, Joined(PrintAll(rest, spaced), sep), "]");
    }
  }

  lemma NextField(fields: seq<Field>, spaced: bool)
    requires fields != []
    ensures PrintFields(fields, spaced) == Separator(spaced) + (PrintField(fields[0], spaced) + PrintFields(fields[1..], spaced))
  {
    Regroup(Separator(spaced), PrintField(fields[0], spaced), PrintFields(fields[1..], spaced), "");
  }

  lemma {:induction false} FieldsJoined(fields: seq<Field>, spaced: bool)
    requires fields != []
    ensures PrintField(fields[0], spaced) + PrintFields(fields[1..], spaced) == Joined(Entries(fields, spaced), Separator(spaced)) + "}"
  {
    var parts, sep := Entries(fields, spaced), Separator(spaced);
    EntryPrinted(fields[0], spaced);
    if |fields| > 1 {
      var rest := fields[1..];
      FieldsJoined(rest, spaced);
      assert parts == [parts[0]] + Entries(rest, spaced);
      JoinedFront(parts, parts[0], Entries(rest, spaced), sep);
      NextField(rest, spaced);
      Regroup(parts[0], sep, Joined(Entries(rest, spaced), sep), "}");
    }
  }

  lemma EntryPrinted(f: Field, spaced: bool)
    ensures PrintField(f, spaced) == Entry(f, spaced)
  {
  }

  /** A list prints as its items joined by commas; the default separators have spaces. */
  lemma ListJoined(items: seq<Json>, spaced: bool)
    ensures Print(Arr(items), spaced) == "[" + (Joined(PrintAll(items, spaced), if spaced then ", " else ",") + "]")
  {
    if items != [] {
      ItemsJoined(items, spaced);
      Regroup("[", Print(items[0], spaced), PrintItems(items[1..], spaced), "");
    }
  }

  /** An object prints as its entries joined by commas. */
  lemma ObjectJoined(fields: seq<Field>, spaced: bool)
    ensures Print(Obj(fields), spaced) == "{" + (Joined(Entries(fields, spaced), if spaced then ", " else ",") + "}")
  {
    if fields != [] {
      FieldsJoined(fields, spaced);
      Regroup("{", PrintField(fields[0], spaced), PrintFields(fields[1..], spaced), "");
    }
  }

  // ---------------------------------------------------------------- quoting

  /** Printable ASCII without the two characters that are escaped. */
  predicate Unescaped(s: string) { forall i :: 0 <= i < |s| ==> ' ' <= s[i] <= '~' && s[i] != '"' && s[i] != '\\' }

  lemma {:induction false} PlainUnits(s: string, t: Text)
    requires Unescaped(s) && t == Lit(s)
    ensures Units(t) == t && Escape(Units(t)) == s
  {
    if s != "" {
      LitTail(s);
      PlainUnits(s[1..], t[1..]);
      UnitStep(t);
      PlainUnit(s[0]);
      assert t == [t[0]] + t[1..] && s == [s[0]] + s[1..];
    }
  }

  lemma LitTail(s: string)
    requires s != ""
    ensures Lit(s)[0] == s[0] as int && Lit(s)[1..] == Lit(s[1..])
  {
  }

  lemma PlainUnit(c: char)
    requires ' ' <= c <= '~' && c != '"' && c != '\\'
    ensures EscapeUnit(c as int) == [c]
  {
  }

  lemma UnitStep(t: Text)
    requires t != [] && t[0] < 0x10000
    ensures Units(t) == [t[0]] + Units(t[1..])
    ensures Escape(Units(t)) == EscapeUnit(t[0]) + Escape(Units(t[1..]))
  {
    var us := Units(t);
    assert us[1..] == Units(t[1..]);
  }

  /** Such a text is quoted as it is. */
  lemma QuotePlain(s: string)
    requires Unescaped(s)
    ensures Quote(Lit(s)) == "\"" + s + "\""
  {
    PlainUnits(s, Lit(s));
  }

  lemma EscapedWith(u: CodePoint, e: string)
    requires u < 0x10000 && EscapeUnit(u) == e
    ensures WrittenAs(u, e)
  {
    UnitStep([u]);
    assert [u][1..] == [] && Units([]) == [] && Escape([]) == "";
    assert e + "" == e;
  }

  /** A text of one character is quoted with this between the quotes. */
  ghost predicate WrittenAs(c: CodePoint, e: string) { Quote([c]) == "\"" + e + "\"" }

  /** The seven short escapes. */
  lemma ShortEscapes()
    ensures WrittenAs(0x22, "\\\"") && WrittenAs(0x5C, "\\\\") && WrittenAs(0x0A, "\\n") && WrittenAs(0x0D, "\\r")
    ensures WrittenAs(0x09, "\\t") && WrittenAs(0x0C, "\\f") && WrittenAs(0x08, "\\b")
  {
    EscapedWith(0x22, "\\\"");
    EscapedWith(0x5C, "\\\\");
    EscapedWith(0x0A, "\\n");
    EscapedWith(0x0D, "\\r");
    EscapedWith(0x09, "\\t");
    EscapedWith(0x0C, "\\f");
    EscapedWith(0x08, "\\b");
  }

  /** Everything else outside printable ASCII is written in lower-case hexadecimal, beyond the first plane as a pair. */
  lemma CodeEscapes()
    ensures WrittenAs(0x7F, "\\u007f") && WrittenAs(0xABCD, "\\uabcd") && WrittenAs(0x1F600, "\\ud83d\\ude00")
  {
    EscapedWith(0x7F, "\\u007f");
    EscapedWith(0xABCD, "\\uabcd");
    PairEscaped();
  }

  lemma PairEscaped()
    ensures WrittenAs(0x1F600, "\\ud83d\\ude00")
  {
    PairUnits();
    PairEscape(Units([0x1F600]), 0xD83D, 0xDE00);
    assert EscapeUnit(0xD83D) == "\\ud83d" && EscapeUnit(0xDE00) == "\\ude00";
  }

  lemma PairUnits()
    ensures Units([0x1F600]) == [0xD83D, 0xDE00]
  {
    var t: Text := [0x1F600];
    assert t[1..] == [] && Units([]) == [];
  }

  lemma PairEscape(us: Text, u: CodePoint, v: CodePoint)
    requires us == [u, v] && u < 0x10000 && v < 0x10000
    ensures Escape(us) == EscapeUnit(u) + EscapeUnit(v)
  {
    assert us[1..] == [v] && [v][1..] == [];
    assert Escape([]) == "" && Escape([v]) == EscapeUnit(v) + Escape([v][1..]);
  }

  /** Whole numbers are written in decimal: the sign, and digits without a needless zero in front. */
  lemma DecimalText(n: int)
    ensures var t := IntText(n);
            var digits := if n < 0 then t[1..] else t;
            && NumberValue(t) == Some(Int(n))
            && (n < 0 <==> t[0] == '-') && AllDigits(digits) && digits != "" && (digits[0] == '0' ==> digits == "0")
  {
    IntTextShape(n);
    NoNeedlessZero(if n < 0 then -n else n);
  }

  lemma {:induction false} NoNeedlessZero(n: nat)
    ensures NatText(n)[0] == '0' ==> n == 0
  {
    if n >= 10 { NoNeedlessZero(n / 10); }
  }

  /** Between tokens the reader passes over blanks, tabs and the two line characters, and nothing else. */
  lemma {:induction false} SpacesSkipped(s: string) returns (k: nat)
    ensures k <= |s| && SkipSpace(s) == s[k..]
    ensures forall i :: 0 <= i < k ==> s[i] in {' ', '\t', '\n', '\r'}
    ensures k < |s| ==> s[k] !in {' ', '\t', '\n', '\r'}
  {
    k := 0;
    if s != "" && s[0] in {' ', '\t', '\n', '\r'} {
      k := SpacesSkipped(s[1..]);
      k := k + 1;
    }
  }

  /** Hexadecimal digits are read in either case; upper case is 32 below lower case. */
  lemma HexRead(d: nat)
    requires d < 16
    ensures HexValue(HexDigit(d)) == Some(d)
    ensures d >= 10 ==> HexValue((HexDigit(d) as int - 32) as char) == Some(d)
  {
  }

  /** The eight short escapes are read; the slash needs none when it is written. */
  lemma EscapesRead(c: char)
    ensures SimpleEscape(c).Some? <==> c in {'"', '\\', '/', 'b', 'f', 'n', 'r', 't'}
    ensures c in {'"', '\\', '/'} ==> SimpleEscape(c) == Some(c as int)
  {
  }

  /** A text is read as a whole number exactly if it is digits, at least one, with or without a minus in front. */
  lemma IntegerForms(s: string)
    ensures IsIntText(s) <==> exists d :: d != "" && AllDigits(d) && (s == d || s == ['-'] + d)
  {
    if |s| > 1 && s[0] == '-' { assert s == ['-'] + s[1..]; }
    if d :| d != "" && AllDigits(d) && s == ['-'] + d { assert s[1..] == d; }
  }

  /** The ways a float is written: with a point, and with an exponent of either sign. */
  lemma FloatForms()
    ensures IsFloatText("0.5") && IsFloatText("1e+16") && IsFloatText("1e-07")
  {
    assert !IsDigit("0.5"[1]) && !IsDigit("1e+16"[1]) && !IsDigit("1e-07"[1]);
  }

  /** And the three that are no numbers in the grammar. */
  lemma FloatNames()
    ensures IsFloatText("NaN") && IsFloatText("Infinity") && IsFloatText("-Infinity")
  {
    assert !IsDigit("NaN"[0]) && !IsDigit("Infinity"[0]) && !IsDigit("-Infinity"[1..][0]);
  }
}
