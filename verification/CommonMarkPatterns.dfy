/** The sanitizer's scanners are its regular expressions. */
module CommonMarkPatterns {
  import opened Wrappers
  import opened PyStrings
  import opened Patterns
  import opened CommonMark

  // ---------------------------------------------------------------- the expressions of the source

  /** `\x1b\[[0-?]*[ -/]*[@-~]` */
  const FINAL: Pattern := One(Within([('@', '~')]))
  const MIDDLE: Pattern := Then(Many(Within([(' ', '/')])), FINAL)
  const PARAMETERS: Pattern := Then(Many(Within([('0', '?')])), MIDDLE)
  const CSI: Pattern := Then(Is('\U{1B}'), Then(Is('['), PARAMETERS))

  /** `\x1b\][^\x07]*(?:\x07|\x1b\\)` */
  const STOP: Pattern := Either(Is('\U{07}'), Then(Is('\U{1B}'), Is('\\')))
  const TITLE: Pattern := Then(Many(Outside([('\U{07}', '\U{07}')])), STOP)
  const OSC: Pattern := Then(Is('\U{1B}'), Then(Is(']'), TITLE))

  /** `\x1b.` */
  const ESCAPED: Pattern := Then(Is('\U{1B}'), One(Outside([('\n', '\n')])))

  const ANSI: Pattern := Either(CSI, Either(OSC, ESCAPED))

  /** `[\x00-\x08\x0b\x0c\x0e-\x1f\x7f]` */
  const CONTROL: Class :=
    Within([('\U{00}', '\U{08}'), ('\U{0B}', '\U{0B}'), ('\U{0C}', '\U{0C}'), ('\U{0E}', '\U{1F}'), ('\U{7F}', '\U{7F}')])

  /** `</?[A-Za-z][^>\n]*>` */
  const CLOSE: Pattern := Then(Many(Outside([('>', '>'), ('\n', '\n')])), Is('>'))
  const NAMED: Pattern := Then(One(Within([('A', 'Z'), ('a', 'z')])), CLOSE)
  const TAG: Pattern := Then(Is('<'), Then(Either(Is('/'), Nothing), NAMED))

  /** `\]\([^)]+\)` */
  const REST: Pattern := Then(Many(Outside([(')', ')')])), Is(')'))
  const TARGET: Pattern := Then(One(Outside([(')', ')')])), REST)
  const LINK: Pattern := Then(Is(']'), Then(Is('('), TARGET))

  /** "```|~~~" */
  const FENCE: Pattern := Either(Literal("```"), Literal("~~~"))

  // ---------------------------------------------------------------- two classes

  lemma HasTwo(a: (char, char), b: (char, char), c: char)
    ensures Has(Within([a, b]), c) <==> a.0 <= c <= a.1 || b.0 <= c <= b.1
    ensures Has(Outside([a, b]), c) <==> !(a.0 <= c <= a.1 || b.0 <= c <= b.1)
  {
    var r := [a, b];
    assert r[0] == a && r[1] == b;
    assert InRange(r, c) <==> a.0 <= c <= a.1 || b.0 <= c <= b.1;
  }

  lemma HasRange(a: char, b: char, c: char)
    ensures Has(Within([(a, b)]), c) <==> a <= c <= b
  {
    var r := [(a, b)];
    assert r[0] == (a, b);
    assert InRange(r, c) <==> a <= c <= b;
  }

  /** The control characters of the source are those that are removed. */
  lemma ControlIs(c: char)
    ensures IsControl(c) <==> Has(CONTROL, c)
  {
    var r := CONTROL.ranges;
    assert r[0] == ('\U{00}', '\U{08}') && r[1] == ('\U{0B}', '\U{0B}') && r[2] == ('\U{0C}', '\U{0C}')
        && r[3] == ('\U{0E}', '\U{1F}') && r[4] == ('\U{7F}', '\U{7F}');
    if IsControl(c) {
      var i := if c <= '\U{08}' then 0 else if c == '\U{0B}' then 1 else if c == '\U{0C}' then 2 else if c <= '\U{1F}' then 3 else 4;
      assert r[i].0 <= c <= r[i].1;
    }
  }

  // ---------------------------------------------------------------- tags

  lemma {:induction false} ClosingEnds(s: string, i: nat)
    requires i <= |s|
    ensures Ends(CLOSE, s, i) ==
      if ClosingLength(s[i..]) > 0 then [i + ClosingLength(s[i..])] else []
    decreases |s| - i
  {
    var k := Outside([('>', '>'), ('\n', '\n')]);
    EndsIs('>', s, i);
    if i < |s| { HasTwo(('>', '>'), ('\n', '\n'), s[i]); }
    if i == |s| || s[i] == '\n' || s[i] == '>' {
      ManyStop(k, Is('>'), s, i);
    } else {
      ManyStep(k, Is('>'), s, i);
      ClosingEnds(s, i + 1);
      assert s[i..][1..] == s[i + 1..];
    }
  }

  lemma NameEnds(s: string, i: nat, rest: Pattern)
    requires i <= |s|
    ensures Ends(Then(One(Within([('A', 'Z'), ('a', 'z')])), rest), s, i) ==
      if i < |s| && IsLetter(s[i]) then Ends(rest, s, i + 1) else []
  {
    var letter := One(Within([('A', 'Z'), ('a', 'z')]));
    EndsOne(letter.k, s, i);
    if i < |s| { HasTwo(('A', 'Z'), ('a', 'z'), s[i]); }
    if i < |s| && IsLetter(s[i]) { EndsThen(letter, rest, s, i, i + 1); } else { NoEndsThen(letter, rest, s, i); }
  }

  lemma SlashEnds(s: string, i: nat, rest: Pattern)
    requires i <= |s|
    ensures Ends(Then(Either(Is('/'), Nothing), rest), s, i) ==
      (if i < |s| && s[i] == '/' then Ends(rest, s, i + 1) else []) + Ends(rest, s, i)
  {
    EndsIs('/', s, i);
    if i < |s| && s[i] == '/' {
      assert Ends(Either(Is('/'), Nothing), s, i) == [i + 1] + [i];
      TwoStarts(rest, s, i, i + 1, i);
    } else {
      assert Ends(Either(Is('/'), Nothing), s, i) == [] + [i] == [i];
      EndsThen(Either(Is('/'), Nothing), rest, s, i, i);
    }
  }

  lemma TwoStarts(q: Pattern, s: string, i: nat, a: nat, b: nat)
    requires i <= a <= |s| && i <= b <= |s|
    ensures EndsAfter(q, s, i, [a] + [b]) == Ends(q, s, a) + Ends(q, s, b)
  {
    EndsAfterStep(q, s, i, [a] + [b], [b]);
    EndsAfterOne(q, s, i, b);
  }

  /** The end of a letter at i and what closes it. */
  function NamedLength(s: string, i: nat): nat {
    if i < |s| && IsLetter(s[i]) && ClosingLength(s[i + 1..]) > 0 then i + 1 + ClosingLength(s[i + 1..]) else 0
  }

  lemma NamedEnds(s: string, i: nat)
    requires i <= |s|
    ensures Ends(NAMED, s, i) == if NamedLength(s, i) > 0 then [NamedLength(s, i)] else []
  {
    NameEnds(s, i, CLOSE);
    if i < |s| && IsLetter(s[i]) { LetterClosed(s, i, ClosingLength(s[i + 1..])); }
  }

  lemma LetterClosed(s: string, i: nat, n: nat)
    requires i < |s| && IsLetter(s[i]) && n == ClosingLength(s[i + 1..])
    ensures Ends(CLOSE, s, i + 1) == if NamedLength(s, i) > 0 then [NamedLength(s, i)] else []
    ensures NamedLength(s, i) == if n > 0 then i + 1 + n else 0
  {
    ClosingEnds(s, i + 1);
  }

  lemma TagLengthIs(s: string)
    ensures TagLength(s) ==
      if s == "" || s[0] != '<' then 0 else if |s| >= 2 && s[1] == '/' then NamedLength(s, 2) else NamedLength(s, 1)
  {
  }

  lemma TagEnds(s: string)
    requires s != "" && s[0] == '<'
    ensures Ends(TAG, s, 0) == (if |s| >= 2 && s[1] == '/' then Ends(NAMED, s, 2) else []) + Ends(NAMED, s, 1)
  {
    EndsIsThen('<', Then(Either(Is('/'), Nothing), NAMED), s, 0);
    SlashEnds(s, 1, NAMED);
  }

  /** The tag scanner finds what the tag expression matches. */
  lemma TagIsPattern(s: string)
    ensures TagLength(s) == MatchLength(TAG, s)
  {
    TagLengthIs(s);
    if s != "" && s[0] == '<' {
      TagEnds(s);
      NamedEnds(s, 1);
      if |s| >= 2 { NamedEnds(s, 2); }
    } else {
      EndsIsThen('<', Then(Either(Is('/'), Nothing), NAMED), s, 0);
    }
  }

  // ---------------------------------------------------------------- links

  lemma {:induction false} TargetEnds(s: string, i: nat)
    requires i <= |s|
    ensures Ends(REST, s, i) ==
      if FindFrom(s, ')', i) < |s| then [FindFrom(s, ')', i) + 1] else []
    decreases |s| - i
  {
    var k := Outside([(')', ')')]);
    EndsIs(')', s, i);
    if i < |s| { HasOne(')', s[i]); }
    if i == |s| || s[i] == ')' {
      ManyStop(k, Is(')'), s, i);
    } else {
      ManyStep(k, Is(')'), s, i);
      TargetEnds(s, i + 1);
    }
  }

  /** `[^)]+\)` from place i on. */
  lemma SomeTargetEnds(s: string, i: nat)
    requires i <= |s|
    ensures Ends(TARGET, s, i) ==
      if i < FindFrom(s, ')', i) < |s| then [FindFrom(s, ')', i) + 1] else []
  {
    var k := Outside([(')', ')')]);
    EndsOne(k, s, i);
    if i < |s| { HasOne(')', s[i]); }
    if i < |s| && s[i] != ')' {
      EndsThen(One(k), REST, s, i, i + 1);
      TargetEnds(s, i + 1);
    } else {
      NoEndsThen(One(k), REST, s, i);
    }
  }

  /** The link scanner finds what the link expression matches. */
  lemma LinkIsPattern(s: string)
    ensures LinkLength(s) == MatchLength(LINK, s)
  {
    EndsTwo(']', '(', TARGET, s);
    if |s| >= 2 { SomeTargetEnds(s, 2); }
  }

  // ---------------------------------------------------------------- fences

  lemma ThreeEnds(c: char, w: string, s: string)
    requires w == [c, c, c]
    ensures Ends(Literal(w), s, 0) == if |s| >= 3 && s[0] == s[1] == s[2] == c then [3] else []
  {
    assert w[1..] == [c, c] && w[1..][1..] == [c];
    EndsIsThen(c, Literal(w[1..]), s, 0);
    if |s| >= 1 { EndsIsThen(c, Literal(w[1..][1..]), s, 1); }
    if |s| >= 2 { EndsIs(c, s, 2); }
  }

  /** A line starts a fence exactly if the fence expression matches it, three characters long. */
  lemma FenceIsPattern(s: string)
    ensures MatchLength(FENCE, s) == if StartsFence(s) then 3 else 0
  {
    ThreeEnds('`', "```", s);
    ThreeEnds('~', "~~~", s);
  }

  // ---------------------------------------------------------------- terminal sequences

  /** The longest run of characters from a to b that starts at i ends at n. */
  ghost predicate RunTo(a: char, b: char, s: string, i: nat, n: nat) {
    i <= n <= |s| && (forall e :: i <= e < n ==> a <= s[e] <= b) && (n < |s| ==> !(a <= s[n] <= b))
  }

  lemma RunEnds(a: char, b: char, q: Pattern, s: string, i: nat, n: nat)
    requires RunTo(a, b, s, i, n) && forall e :: i <= e < n ==> Ends(q, s, e) == []
    ensures Ends(Then(Many(Within([(a, b)])), q), s, i) == Ends(q, s, n)
  {
    var k := Within([(a, b)]);
    forall e | i <= e < |s| ensures Has(k, s[e]) <==> a <= s[e] <= b { HasRange(a, b, s[e]); }
    ManyToEnd(k, q, s, i, n);
  }

  predicate IsFinal(s: string, j: nat) { j < |s| && '@' <= s[j] <= '~' }

  lemma FinalEnds(s: string, i: nat)
    requires i <= |s|
    ensures Ends(FINAL, s, i) == if IsFinal(s, i) then [i + 1] else []
  {
    EndsOne(Within([('@', '~')]), s, i);
    if i < |s| { HasRange('@', '~', s[i]); }
  }

  lemma MiddleEnds(s: string, i: nat, j: nat)
    requires RunTo(' ', '/', s, i, j)
    ensures Ends(MIDDLE, s, i) == if IsFinal(s, j) then [j + 1] else []
  {
    forall e | i <= e < j ensures Ends(FINAL, s, e) == [] { FinalEnds(s, e); }
    RunEnds(' ', '/', FINAL, s, i, j);
    FinalEnds(s, j);
  }

  lemma CsiRuns(s: string) returns (i: nat, j: nat)
    requires |s| >= 2
    ensures RunTo('0', '?', s, 2, i) && RunTo(' ', '/', s, i, j)
    ensures CsiLength(s) == if IsFinal(s, j) then j + 1 else 0
  {
    i := 2 + Span(s[2..], (c: char) => '0' <= c <= '?');
    j := i + Span(s[i..], (c: char) => ' ' <= c <= '/');
  }

  lemma CsiEnds(s: string)
    requires |s| >= 2
    ensures Ends(PARAMETERS, s, 2) == if CsiLength(s) > 0 then [CsiLength(s)] else []
  {
    var i, j := CsiRuns(s);
    forall e | 2 <= e < i ensures Ends(MIDDLE, s, e) == [] { MiddleEnds(s, e, e); }
    RunEnds('0', '?', MIDDLE, s, 2, i);
    MiddleEnds(s, i, j);
  }

  predicate TerminatorAt(s: string, i: nat) { i + 1 < |s| && s[i] == ESC && s[i + 1] == '\\' }

  lemma {:induction false} LastTerminatorFront(s: string)
    requires s != ""
    ensures LastTerminator(s) ==
      if LastTerminator(s[1..]) > 0 then 1 + LastTerminator(s[1..]) else if TerminatorAt(s, 0) then 2 else 0
  {
    if |s| >= 3 && !(s[|s| - 2] == ESC && s[|s| - 1] == '\\') {
      LastTerminatorFront(s[..|s| - 1]);
      assert s[..|s| - 1][1..] == s[1..][..|s| - 2];
    }
  }

  lemma StopEnds(s: string, i: nat)
    requires i <= |s|
    ensures Ends(STOP, s, i) ==
      if i < |s| && s[i] == BEL then [i + 1] else if TerminatorAt(s, i) then [i + 2] else []
  {
    EndsIs('\U{07}', s, i);
    EndsIsThen('\U{1B}', Is('\\'), s, i);
    if i < |s| { EndsIs('\\', s, i + 1); }
  }

  /** What the string-terminated form matches from place i on: up to the first bell, else to the last terminator. */
  function StringEnd(s: string, i: nat): nat
    requires i <= |s|
  {
    if FindFrom(s, BEL, i) < |s| then FindFrom(s, BEL, i) + 1
    else if LastTerminator(s[i..]) > 0 then i + LastTerminator(s[i..])
    else 0
  }

  lemma {:induction false} StringEnds(s: string, i: nat)
    requires i <= |s|
    ensures var ends := Ends(TITLE, s, i);
            if StringEnd(s, i) > 0 then ends != [] && ends[0] == StringEnd(s, i) else ends == []
    decreases |s| - i
  {
    TitleStep(s, i);
    StringEndStep(s, i);
    StopEnds(s, i);
    if i < |s| && s[i] != BEL { StringEnds(s, i + 1); }
  }

  lemma TitleStep(s: string, i: nat)
    requires i <= |s|
    ensures Ends(TITLE, s, i) == (if i < |s| && s[i] != BEL then Ends(TITLE, s, i + 1) else []) + Ends(STOP, s, i)
  {
    EndsManyThen(Outside([('\U{07}', '\U{07}')]), STOP, s, i);
    if i < |s| { HasOne('\U{07}', s[i]); }
  }

  lemma StringEndStep(s: string, i: nat)
    requires i <= |s|
    ensures StringEnd(s, i) ==
      if i < |s| && s[i] == BEL then i + 1
      else if i < |s| && StringEnd(s, i + 1) > 0 then StringEnd(s, i + 1)
      else if TerminatorAt(s, i) then i + 2
      else 0
  {
    if i < |s| && s[i] != BEL {
      LastTerminatorFront(s[i..]);
      assert s[i..][1..] == s[i + 1..];
    }
  }

  lemma OscIs(s: string)
    requires |s| >= 2
    ensures OscLength(s) == StringEnd(s, 2)
  {
    FindFromIs(s, BEL, 2, 2 + Find(s[2..], BEL));
  }

  lemma CsiSequence(s: string)
    requires |s| >= 2
    ensures Ends(CSI, s, 0) == if s[0] == ESC && s[1] == '[' && CsiLength(s) > 0 then [CsiLength(s)] else []
  {
    EndsTwo('\U{1B}', '[', PARAMETERS, s);
    CsiEnds(s);
  }

  lemma OscSequence(s: string)
    requires |s| >= 2
    ensures var ends := Ends(OSC, s, 0);
            if s[0] == ESC && s[1] == ']' && OscLength(s) > 0 then ends != [] && ends[0] == OscLength(s) else ends == []
  {
    EndsTwo('\U{1B}', ']', TITLE, s);
    OscIs(s);
    StringEnds(s, 2);
  }

  lemma EscapedPair(s: string)
    requires |s| >= 2
    ensures Ends(ESCAPED, s, 0) == if s[0] == ESC && s[1] != '\n' then [2] else []
  {
    EndsIsThen('\U{1B}', One(Outside([('\n', '\n')])), s, 0);
    EndsOne(Outside([('\n', '\n')]), s, 1);
    HasOne('\n', s[1]);
  }

  lemma ShortHasNone(s: string)
    requires |s| < 2
    ensures Ends(CSI, s, 0) == [] && Ends(OSC, s, 0) == [] && Ends(ESCAPED, s, 0) == []
  {
    EndsTwo('\U{1B}', '[', PARAMETERS, s);
    EndsTwo('\U{1B}', ']', TITLE, s);
    EndsIsThen('\U{1B}', ESCAPED.second, s, 0);
    if |s| == 1 { EndsOne(Outside([('\n', '\n')]), s, 1); }
  }

  /** The terminal-sequence scanner finds what the expression matches, backtracking included. */
  lemma AnsiIsPattern(s: string)
    ensures AnsiLength(s) == MatchLength(ANSI, s)
  {
    if |s| < 2 {
      ShortHasNone(s);
    } else {
      CsiSequence(s);
      OscSequence(s);
      EscapedPair(s);
      assert Ends(ANSI, s, 0) == Ends(CSI, s, 0) + (Ends(OSC, s, 0) + Ends(ESCAPED, s, 0));
    }
  }
}
