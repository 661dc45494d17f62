/** The reader inverts the printer, up to surrogate pairs. */
module JsonReading {
  import opened Wrappers
  import opened Texts
  import opened Json

  // ---------------------------------------------------------------- numbers

  lemma {:induction false} NatRoundTrip(n: nat)
    ensures NatValue(NatText(n)) == n
  {
    if n >= 10 {
      NatRoundTrip(n / 10);
      assert NatText(n)[..|NatText(n)| - 1] == NatText(n / 10);
    }
  }

  lemma {:induction false} NumberEnds(text: string, rest: string)
    requires forall i :: 0 <= i < |text| ==> IsNumberChar(text[i])
    requires EndsNumber(rest)
    ensures NumberLength(text + rest) == |text|
  {
    if text == "" {
      assert text + rest == rest;
    } else {
      NumberEnds(text[1..], rest);
      assert (text + rest)[1..] == text[1..] + rest;
    }
  }

  /** A number that stands before this text ends there. */
  predicate EndsNumber(rest: string) { rest == "" || !IsNumberChar(rest[0]) }

  lemma IntTextShape(n: int)
    ensures IsIntText(IntText(n)) && StartsNumber(IntText(n)[0])
    ensures forall i :: 0 <= i < |IntText(n)| ==> IsNumberChar(IntText(n)[i])
    ensures NumberValue(IntText(n)) == Some(Int(n))
  {
    if n < 0 {
      NatRoundTrip(-n);
      assert IntText(n)[1..] == NatText(-n);
      assert !AllDigits(IntText(n)) by { assert !IsDigit(IntText(n)[0]); }
    } else {
      NatRoundTrip(n);
    }
  }

  lemma ParseNumber(text: string, rest: string, v: Json)
    requires |text| > 0 && StartsNumber(text[0])
    requires forall i :: 0 <= i < |text| ==> IsNumberChar(text[i])
    requires NumberValue(text) == Some(v)
    requires EndsNumber(rest)
    ensures ParseValue(text + rest) == Some((v, rest))
  {
    NumberEnds(text, rest);
    var s := text + rest;
    assert s[0] == text[0];
    assert s[..|text|] == text && s[|text|..] == rest;
  }

  // ---------------------------------------------------------------- the whole tree

  /** A printed value starts with none of the characters that close or separate. */
  lemma PrintStarts(j: Json, spaced: bool)
    ensures Print(j, spaced) != ""
    ensures Print(j, spaced)[0] != ' ' && Print(j, spaced)[0] != '\t' && Print(j, spaced)[0] != '\n'
    ensures Print(j, spaced)[0] != '\r' && Print(j, spaced)[0] != ']' && Print(j, spaced)[0] != '}'
  {
    match j
    case Int(n) => IntTextShape(n);
    case _ =>
  }

  lemma SkipToValue(j: Json, spaced: bool, rest: string)
    ensures SkipSpace(Print(j, spaced) + rest) == Print(j, spaced) + rest
    ensures SkipSpace([' '] + (Print(j, spaced) + rest)) == Print(j, spaced) + rest
    ensures (Print(j, spaced) + rest)[0] != ']'
  {
    PrintStarts(j, spaced);
    var s := Print(j, spaced) + rest;
    assert s[0] == Print(j, spaced)[0];
    assert ([' '] + s)[1..] == s;
  }

  /** Reading back what was printed gives the tree with its surrogate pairs fused. */
  lemma {:induction false} ParsePrinted(j: Json, spaced: bool, rest: string)
    requires EndsNumber(rest)
    ensures ParseValue(Print(j, spaced) + rest) == Some((FuseTree(j), rest))
    decreases j, 1
  {
    match j
    case Null => assert ("null" + rest)[4..] == rest;
    case Bool(b) => if b { assert ("true" + rest)[4..] == rest; } else { assert ("false" + rest)[5..] == rest; }
    case Int(n) =>
      IntTextShape(n);
      ParseNumber(IntText(n), rest, j);
    case Float(repr) => ParseNumber(repr, rest, j);
    case Str(t) => ParseString(t, rest);
    case Arr(items) => ParseArray(items, spaced, rest);
    case Obj(fields) => ParseObject(fields, spaced, rest);
  }

  lemma ParseString(t: Text, rest: string)
    ensures ParseValue(Quote(t) + rest) == Some((Str(Fuse(t)), rest))
  {
    ParseQuoted(t, rest);
    var tail := Escape(Units(t)) + ['"'] + rest;
    assert (['"'] + tail)[1..] == tail;
  }

  lemma ArrayStep(body: string, v: Json, tail: string, vs: seq<Json>, rest: string)
    requires SkipSpace(body) == body && body != "" && body[0] != ']'
    requires ParseValue(body) == Some((v, tail))
    requires ParseItems(tail) == Some((vs, rest))
    ensures ParseValue(['['] + body) == Some((Arr([v] + vs), rest))
  {
    assert (['['] + body)[1..] == body;
  }

  lemma EmptyArray(rest: string)
    ensures ParseValue("[]" + rest) == Some((Arr([]), rest))
  {
    assert ("[]" + rest)[1..] == "]" + rest;
    assert ("]" + rest)[1..] == rest;
  }

  lemma {:induction false} ParseArray(items: seq<Json>, spaced: bool, rest: string)
    requires EndsNumber(rest)
    ensures ParseValue(Print(Arr(items), spaced) + rest) == Some((FuseTree(Arr(items)), rest))
    decreases items, 3
  {
    if items == [] {
      EmptyArray(rest);
    } else {
      var tail := PrintItems(items[1..], spaced) + rest;
      var body := Print(items[0], spaced) + tail;
      SkipToValue(items[0], spaced, tail);
      PrintItemsEnds(items[1..], spaced, rest);
      ParsePrinted(items[0], spaced, tail);
      ParseItemsPrinted(items[1..], spaced, rest);
      ArrayStep(body, FuseTree(items[0]), tail, FuseItems(items[1..]), rest);
      Reassociate(['['], Print(items[0], spaced), PrintItems(items[1..], spaced), rest);
    }
  }

  lemma PrintItemsEnds(items: seq<Json>, spaced: bool, rest: string)
    ensures EndsNumber(PrintItems(items, spaced) + rest)
  {
    assert PrintItems(items, spaced)[0] == (PrintItems(items, spaced) + rest)[0];
  }

  lemma PrintFieldsEnds(fields: seq<Field>, spaced: bool, rest: string)
    ensures EndsNumber(PrintFields(fields, spaced) + rest)
  {
    assert PrintFields(fields, spaced)[0] == (PrintFields(fields, spaced) + rest)[0];
  }

  lemma ItemsStep(u: string, body: string, v: Json, tail: string, vs: seq<Json>, rest: string)
    requires SkipSpace(u) == body
    requires ParseValue(body) == Some((v, tail))
    requires ParseItems(tail) == Some((vs, rest))
    ensures ParseItems([','] + u) == Some(([v] + vs, rest))
  {
    assert ([','] + u)[1..] == u;
  }

  lemma CommaShape(spaced: bool, body: string)
    ensures Comma(spaced) + body == [','] + (if spaced then [' '] + body else body)
  {
  }

  lemma EndOfItems(rest: string)
    ensures ParseItems("]" + rest) == Some(([], rest))
  {
    assert ("]" + rest)[1..] == rest;
  }

  lemma {:induction false} ParseItemsPrinted(items: seq<Json>, spaced: bool, rest: string)
    ensures ParseItems(PrintItems(items, spaced) + rest) == Some((FuseItems(items), rest))
    decreases items, 2
  {
    if items == [] {
      EndOfItems(rest);
    } else {
      var tail := PrintItems(items[1..], spaced) + rest;
      var body := Print(items[0], spaced) + tail;
      SkipToValue(items[0], spaced, tail);
      PrintItemsEnds(items[1..], spaced, rest);
      ParsePrinted(items[0], spaced, tail);
      ParseItemsPrinted(items[1..], spaced, rest);
      ItemsStep(if spaced then [' '] + body else body, body, FuseTree(items[0]), tail, FuseItems(items[1..]), rest);
      Reassociate(Comma(spaced), Print(items[0], spaced), PrintItems(items[1..], spaced), rest);
      CommaShape(spaced, body);
    }
  }

  lemma ObjectStep(body: string, f: Field, tail: string, fs: seq<Field>, rest: string)
    requires body != "" && body[0] == '"'
    requires ParseField(body) == Some((f, tail))
    requires ParseFields(tail) == Some((fs, rest))
    ensures ParseValue(['{'] + body) == Some((Obj([f] + fs), rest))
  {
    assert (['{'] + body)[1..] == body;
  }

  lemma EmptyObject(rest: string)
    ensures ParseValue("{}" + rest) == Some((Obj([]), rest))
  {
    assert ("{}" + rest)[1..] == "}" + rest;
    assert ("}" + rest)[1..] == rest;
  }

  lemma {:induction false} ParseObject(fields: seq<Field>, spaced: bool, rest: string)
    requires EndsNumber(rest)
    ensures ParseValue(Print(Obj(fields), spaced) + rest) == Some((FuseTree(Obj(fields)), rest))
    decreases fields, 3
  {
    if fields == [] {
      EmptyObject(rest);
    } else {
      var tail := PrintFields(fields[1..], spaced) + rest;
      var body := PrintField(fields[0], spaced) + tail;
      PrintFieldsEnds(fields[1..], spaced, rest);
      ParseFieldPrinted(fields[0], spaced, tail);
      ParseFieldsPrinted(fields[1..], spaced, rest);
      ObjectStep(body, FuseField(fields[0]), tail, FuseFields(fields[1..]), rest);
      assert Print(Obj(fields), spaced) + rest == ['{'] + body by {
        Reassociate(['{'], PrintField(fields[0], spaced), PrintFields(fields[1..], spaced), rest);
      }
    }
  }

  lemma FieldStep(quoted: string, key: Text, more: string, value: string, v: Json, rest: string)
    requires ParseText(quoted) == Some((key, more))
    requires more != "" && more[0] == ':' && SkipSpace(more[1..]) == value
    requires ParseValue(value) == Some((v, rest))
    ensures ParseField(['"'] + quoted) == Some((Field(key, v), rest))
  {
    assert (['"'] + quoted)[1..] == quoted;
  }

  lemma {:induction false} ParseFieldPrinted(f: Field, spaced: bool, rest: string)
    requires EndsNumber(rest)
    ensures ParseField(PrintField(f, spaced) + rest) == Some((FuseField(f), rest))
    decreases f, 2
  {
    var value := Print(f.value, spaced) + rest;
    var more := Colon(spaced) + value;
    ParseQuoted(f.key, more);
    assert more[1..] == if spaced then [' '] + value else value;
    SkipToValue(f.value, spaced, rest);
    ParsePrinted(f.value, spaced, rest);
    FieldStep(Escape(Units(f.key)) + ['"'] + more, Fuse(f.key), more, value, FuseTree(f.value), rest);
    Reassociate(Quote(f.key), Colon(spaced), Print(f.value, spaced), rest);
    assert PrintField(f, spaced) + rest == Quote(f.key) + more;
  }

  lemma FieldsStep(u: string, body: string, f: Field, tail: string, fs: seq<Field>, rest: string)
    requires SkipSpace(u) == body
    requires ParseField(body) == Some((f, tail))
    requires ParseFields(tail) == Some((fs, rest))
    ensures ParseFields([','] + u) == Some(([f] + fs, rest))
  {
    assert ([','] + u)[1..] == u;
  }

  lemma EndOfFields(rest: string)
    ensures ParseFields("}" + rest) == Some(([], rest))
  {
    assert ("}" + rest)[1..] == rest;
  }

  lemma SkipToQuote(body: string)
    requires body != "" && body[0] == '"'
    ensures SkipSpace(body) == body && SkipSpace([' '] + body) == body
  {
    assert ([' '] + body)[1..] == body;
  }

  lemma {:induction false} ParseFieldsPrinted(fields: seq<Field>, spaced: bool, rest: string)
    ensures ParseFields(PrintFields(fields, spaced) + rest) == Some((FuseFields(fields), rest))
    decreases fields, 2
  {
    if fields == [] {
      EndOfFields(rest);
    } else {
      var tail := PrintFields(fields[1..], spaced) + rest;
      var body := PrintField(fields[0], spaced) + tail;
      SkipToQuote(body);
      PrintFieldsEnds(fields[1..], spaced, rest);
      ParseFieldPrinted(fields[0], spaced, tail);
      ParseFieldsPrinted(fields[1..], spaced, rest);
      FieldsStep(if spaced then [' '] + body else body, body, FuseField(fields[0]), tail, FuseFields(fields[1..]), rest);
      Reassociate(Comma(spaced), PrintField(fields[0], spaced), PrintFields(fields[1..], spaced), rest);
      CommaShape(spaced, body);
    }
  }

  // ---------------------------------------------------------------- fused trees print the same

  lemma {:induction false} UnitsOfFused(t: Text)
    ensures Units(Fuse(t)) == Units(t)
  {
    if |t| >= 2 {
      if IsHigh(t[0]) && IsLow(t[1]) {
        UnitsOfFused(t[2..]);
        var c := Combine(t[0], t[1]);
        assert Fuse(t)[1..] == Fuse(t[2..]);
        assert t[1..][1..] == t[2..];
        assert Units(t[1..]) == [t[1]] + Units(t[2..]);
        CombineSplits(t[0], t[1]);
      } else {
        UnitsOfFused(t[1..]);
        assert Fuse(t)[1..] == Fuse(t[1..]);
      }
    }
  }

  lemma CombineSplits(high: int, low: int)
    requires IsHigh(high) && IsLow(low)
    ensures 0xD800 + (Combine(high, low) - 0x10000) / 0x400 == high
    ensures 0xDC00 + (Combine(high, low) - 0x10000) % 0x400 == low
  {
  }

  lemma {:induction false} PrintFused(j: Json, spaced: bool)
    ensures Print(FuseTree(j), spaced) == Print(j, spaced)
    decreases j, 1
  {
    match j
    case Str(t) => UnitsOfFused(t);
    case Arr(items) =>
      if items != [] {
        PrintFused(items[0], spaced);
        PrintFusedItems(items[1..], spaced);
        assert FuseItems(items)[1..] == FuseItems(items[1..]);
      }
    case Obj(fields) =>
      if fields != [] {
        PrintFusedField(fields[0], spaced);
        PrintFusedFields(fields[1..], spaced);
        assert FuseFields(fields)[1..] == FuseFields(fields[1..]);
      }
    case _ =>
  }

  lemma {:induction false} PrintFusedItems(items: seq<Json>, spaced: bool)
    ensures PrintItems(FuseItems(items), spaced) == PrintItems(items, spaced)
    decreases items, 0
  {
    if items != [] {
      PrintFused(items[0], spaced);
      PrintFusedItems(items[1..], spaced);
      assert FuseItems(items)[1..] == FuseItems(items[1..]);
    }
  }

  lemma {:induction false} PrintFusedField(f: Field, spaced: bool)
    ensures PrintField(FuseField(f), spaced) == PrintField(f, spaced)
    decreases f, 2
  {
    UnitsOfFused(f.key);
    PrintFused(f.value, spaced);
  }

  lemma {:induction false} PrintFusedFields(fields: seq<Field>, spaced: bool)
    ensures PrintFields(FuseFields(fields), spaced) == PrintFields(fields, spaced)
    decreases fields, 0
  {
    if fields != [] {
      PrintFusedField(fields[0], spaced);
      PrintFusedFields(fields[1..], spaced);
      assert FuseFields(fields)[1..] == FuseFields(fields[1..]);
    }
  }

  /** Two trees print the same text exactly when they agree once surrogate pairs are fused. */
  lemma PrintedEqualIff(a: Json, b: Json, spaced: bool)
    ensures Print(a, spaced) == Print(b, spaced) <==> FuseTree(a) == FuseTree(b)
  {
    ParsePrinted(a, spaced, "");
    ParsePrinted(b, spaced, "");
    PrintFused(a, spaced);
    PrintFused(b, spaced);
    assert Print(a, spaced) + "" == Print(a, spaced);
    assert Print(b, spaced) + "" == Print(b, spaced);
  }

  /** `json.loads` of printed text: the fused tree, each object read as a dictionary. */
  lemma LoadsPrinted(j: Json, spaced: bool)
    ensures Loads(Print(j, spaced)) == Some(DictTree(FuseTree(j)))
  {
    ParsePrinted(j, spaced, "");
    SkipToValue(j, spaced, "");
    assert Print(j, spaced) + "" == Print(j, spaced);
  }
}
