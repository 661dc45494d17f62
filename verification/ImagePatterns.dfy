/** The image scanner is its regular expression. */
module ImagePatterns {
  import opened Wrappers
  import opened PyStrings
  import opened Patterns
  import opened CommonMarkPatterns
  import opened ImageMarkdown

  /** `!\[[^\]]*\]\(([^)]+)\)`: the opening, up to the target, and the target with its parenthesis. */
  const ALT: Class := Outside([(']', ']')])
  const OPENING: Pattern := Then(Is('!'), Then(Is('['), Then(Many(ALT), Then(Is(']'), Is('(')))))
  const IMAGE: Pattern := Then(Is('!'), Then(Is('['), Then(Many(ALT), Then(Is(']'), Then(Is('('), TARGET)))))

  /** A bracket and what follows it match nowhere but at a bracket, so the alternative text runs to the first one. */
  lemma AltEnds(q: Pattern, s: string)
    requires |s| >= 2
    ensures Ends(Then(Many(ALT), Then(Is(']'), q)), s, 2) ==
      if AltEnd(s) < |s| then Ends(q, s, AltEnd(s) + 1) else []
  {
    var p := AltEnd(s);
    forall e | 2 <= e < p ensures Ends(Then(Is(']'), q), s, e) == [] { EndsIsThen(']', q, s, e); }
    forall e | 2 <= e < |s| ensures Has(ALT, s[e]) <==> s[e] != ']' { HasOne(']', s[e]); }
    ManyToEnd(ALT, Then(Is(']'), q), s, 2, p);
    EndsIsThen(']', q, s, p);
  }

  lemma TargetBehind(s: string, i: nat)
    requires i <= |s|
    ensures Ends(Then(Is('('), TARGET), s, i) ==
      if i < |s| && s[i] == '(' && i + 1 < FindFrom(s, ')', i + 1) < |s| then [FindFrom(s, ')', i + 1) + 1] else []
  {
    EndsIsThen('(', TARGET, s, i);
    if i < |s| && s[i] == '(' { TargetFrom(s, i + 1, FindFrom(s, ')', i + 1)); }
  }

  lemma TargetFrom(s: string, i: nat, e: nat)
    requires i <= |s| && e == FindFrom(s, ')', i)
    ensures Ends(TARGET, s, i) == if i < e < |s| then [e + 1] else []
  {
    SomeTargetEnds(s, i);
  }

  /** The scanner finds an image exactly where the expression matches, of that length; its target starts where the
      opening ends, and its parenthesis ends the match. */
  lemma ImageIsPattern(s: string)
    ensures MatchLength(IMAGE, s) == if ImageAt(s).Some? then ImageAt(s).value.1 + 1 else 0
    ensures ImageAt(s).Some? ==> Ends(OPENING, s, 0) == [ImageAt(s).value.0]
  {
    EndsTwo('!', '[', Then(Many(ALT), Then(Is(']'), Then(Is('('), TARGET))), s);
    EndsTwo('!', '[', Then(Many(ALT), Then(Is(']'), Is('('))), s);
    if |s| >= 2 {
      AltEnds(Then(Is('('), TARGET), s);
      AltEnds(Is('('), s);
      var p := AltEnd(s);
      if p < |s| {
        TargetBehind(s, p + 1);
        EndsIs('(', s, p + 1);
      }
    }
  }
}
