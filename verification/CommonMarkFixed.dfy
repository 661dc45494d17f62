/** Exactly which texts the sanitizer leaves alone. */
module CommonMarkFixed {
  import opened PyStrings
  import opened CommonMark
  import opened CommonMarkTheorems
  import opened CommonMarkTags

  // ---------------------------------------------------------------- lines and back

  /** The newline is the only line break in the text. */
  predicate PlainBreaks(s: string) { forall c :: c in s && IsBreak(c) ==> c == '\n' }

  lemma SplitFirst(s: string, b: nat)
    requires b < |s| && s[b] == '\n' && forall k :: 0 <= k < b ==> !IsBreak(s[k])
    ensures SplitLines(s) == [s[..b]] + SplitLines(s[b + 1..])
  {
    BreakFromIs(s, 0, b);
    SplitAtBreak(s, b);
  }

  lemma SplitAtBreak(s: string, b: nat)
    requires b == BreakFrom(s, 0) < |s| && s[b] == '\n'
    ensures SplitLines(s) == [s[..b]] + SplitLines(s[b + 1..])
  {
  }

  lemma SplitLast(s: string)
    requires s != "" && forall c :: c in s ==> !IsBreak(c)
    ensures SplitLines(s) == [s]
  {
    forall k | 0 <= k < |s| ensures !IsBreak(s[k]) { assert s[k] in s; }
    BreakFromIs(s, 0, |s|);
  }

  lemma JoinCons(a: string, lines: seq<string>)
    requires lines != []
    ensures JoinLines([a] + lines) == a + (['\n'] + JoinLines(lines))
  {
    assert ([a] + lines)[1..] == lines;
  }

  /** Splitting and joining gives a text back that has plain breaks and does not end in one. */
  lemma {:induction false} SplitJoined(s: string)
    requires PlainBreaks(s) && (s != "" ==> s[|s| - 1] != '\n')
    ensures JoinLines(SplitLines(s)) == s
    ensures s != "" ==> SplitLines(s) != []
    decreases |s|
  {
    if s != "" {
      var b := Find(s, '\n');
      if b == |s| {
        assert forall c :: c in s ==> !IsBreak(c);
        SplitLast(s);
      } else {
        FirstLine(s, b);
        SplitJoined(s[b + 1..]);
        JoinCons(s[..b], SplitLines(s[b + 1..]));
      }
    }
  }

  lemma FirstLine(s: string, b: nat)
    requires PlainBreaks(s) && b < |s| && s[b] == '\n' && s[|s| - 1] != '\n' && forall k :: 0 <= k < b ==> s[k] != '\n'
    ensures SplitLines(s) == [s[..b]] + SplitLines(s[b + 1..])
    ensures s == s[..b] + (['\n'] + s[b + 1..])
    ensures s[b + 1..] != "" && PlainBreaks(s[b + 1..]) && s[b + 1..][|s| - b - 2] != '\n'
  {
    forall k | 0 <= k < b ensures !IsBreak(s[k]) { assert s[k] in s; }
    SplitFirst(s, b);
    TailBreaks(s, b + 1);
    Around(s, b);
  }

  lemma TailBreaks(s: string, n: nat)
    requires PlainBreaks(s) && n <= |s|
    ensures PlainBreaks(s[n..])
  {
    forall c | c in s[n..] && IsBreak(c) ensures c == '\n' { assert c in s; }
  }

  lemma Around(s: string, b: nat)
    requires b < |s| && s[b] == '\n'
    ensures s == s[..b] + (['\n'] + s[b + 1..])
  {
  }

  // ---------------------------------------------------------------- what the stages may bring in

  lemma {:induction false} JoinedBreaks(lines: seq<string>)
    requires forall k :: 0 <= k < |lines| ==> PlainBreaks(lines[k])
    ensures PlainBreaks(JoinLines(lines))
  {
    if |lines| > 1 { JoinedBreaks(lines[1..]); }
  }

  lemma StrippedBreaks(text: string)
    ensures PlainBreaks(StripOutsideFences(text))
  {
    var lines := SplitLines(text);
    SplitLinesFacts(text);
    forall k | 0 <= k < |lines| ensures PlainBreaks(StrippedLines(lines)[k]) {
      RemoveSubsequence(lines[k], TagLength);
    }
    JoinedBreaks(StrippedLines(lines));
  }

  lemma UnsafeHasNoBreak(w: string)
    requires w == "unsafe-link"
    ensures PlainBreaks(w)
  {
  }

  lemma CleanedBreaks(target: string, scheme: string -> string)
    requires PlainBreaks(target)
    ensures PlainBreaks(Link(CleanTarget(target, scheme)))
  {
    UnsafeHasNoBreak(UNSAFE_LINK);
    StripTrims(target);
  }

  lemma {:induction false} LinksBreaks(s: string, scheme: string -> string)
    requires PlainBreaks(s)
    ensures PlainBreaks(SanitizeLinks(s, scheme))
    decreases |s|
  {
    if s != "" {
      assert forall c :: c in s[LinkStepOf(s)..] ==> c in s;
      LinksBreaks(s[LinkStepOf(s)..], scheme);
      if LinkLength(s) > 0 {
        assert forall c :: c in s[2..LinkLength(s) - 1] ==> c in s;
        CleanedBreaks(s[2..LinkLength(s) - 1], scheme);
        LinkStep(s, scheme);
      } else {
        CharStep(s, scheme);
      }
    }
  }

  // ---------------------------------------------------------------- counting openers

  /** How many `<` the text has. */
  function Openers(s: string): nat { if s == "" then 0 else (if s[0] == '<' then 1 else 0) + Openers(s[1..]) }

  lemma {:induction false} OpenersAppend(a: string, b: string)
    ensures Openers(a + b) == Openers(a) + Openers(b)
  {
    if a == "" {
      assert a + b == b;
    } else {
      OpenersAppend(a[1..], b);
      assert (a + b)[1..] == a[1..] + b;
    }
  }

  lemma OpenersFrom(s: string, n: nat)
    requires n <= |s|
    ensures Openers(s) == Openers(s[..n]) + Openers(s[n..])
  {
    OpenersAppend(s[..n], s[n..]);
    assert s == s[..n] + s[n..];
  }

  lemma TagHasOpener(s: string)
    requires TagLength(s) > 0
    ensures Openers(s[..TagLength(s)]) > 0
  {
  }

  lemma {:induction false} TagsCost(s: string)
    ensures Openers(RemoveTags(s)) <= Openers(s)
    ensures RemoveTags(s) != s ==> Openers(RemoveTags(s)) < Openers(s)
    decreases |s|
  {
    if s != "" {
      var n := TagLength(s);
      if n > 0 {
        TagsCost(s[n..]);
        TagHasOpener(s);
        OpenersFrom(s, n);
      } else {
        TagsCost(s[1..]);
        RemoveTagsStep(s);
        assert s == [s[0]] + s[1..];
        OpenersAppend([s[0]], s[1..]);
        OpenersAppend([s[0]], RemoveTags(s[1..]));
      }
    }
  }

  lemma UnsafeHasNoOpener(w: string)
    requires w == "unsafe-link"
    ensures Openers(w) == 0
  {
    NoOpeners(w);
  }

  lemma {:induction false} NoOpeners(w: string)
    requires '<' !in w
    ensures Openers(w) == 0
  {
    if w != "" { NoOpeners(w[1..]); }
  }

  lemma StripCost(s: string)
    ensures Openers(Strip(s)) <= Openers(s)
  {
    var w, v := StripParts(s);
    OpenersAppend(w, Strip(s) + v);
    OpenersAppend(Strip(s), v);
  }

  lemma LinkCost(t: string, rest: string)
    ensures Openers(Link(t) + rest) == Openers(t) + Openers(rest)
  {
    OpenersAppend(Link(t), rest);
    OpenersAppend([']', '('] + t, [')']);
    OpenersAppend([']', '('], t);
    NoOpeners([']', '(']);
    NoOpeners([')']);
  }

  lemma CleanCost(target: string, scheme: string -> string)
    ensures Openers(CleanTarget(target, scheme)) <= Openers(target)
  {
    UnsafeHasNoOpener(UNSAFE_LINK);
    StripCost(target);
  }

  lemma {:induction false} LinksCost(s: string, scheme: string -> string)
    ensures Openers(SanitizeLinks(s, scheme)) <= Openers(s)
    decreases |s|
  {
    if s != "" {
      var rest := s[LinkStepOf(s)..];
      LinksCost(rest, scheme);
      if LinkLength(s) > 0 {
        var target := s[2..LinkLength(s) - 1];
        LinkShape(s);
        LinkStep(s, scheme);
        LinkCost(target, rest);
        LinkCost(CleanTarget(target, scheme), SanitizeLinks(rest, scheme));
        CleanCost(target, scheme);
      } else {
        CharStep(s, scheme);
        OpenersFrom(s, 1);
        OpenersAppend([s[0]], SanitizeLinks(rest, scheme));
        assert s[..1] == [s[0]];
      }
    }
  }

  lemma {:induction false} LinesCost(lines: seq<string>, kept: seq<string>)
    requires |kept| == |lines|
    requires forall k :: 0 <= k < |lines| ==> Openers(kept[k]) <= Openers(lines[k])
    ensures Openers(JoinLines(kept)) <= Openers(JoinLines(lines))
    ensures (exists k :: 0 <= k < |lines| && Openers(kept[k]) < Openers(lines[k])) ==>
      Openers(JoinLines(kept)) < Openers(JoinLines(lines))
  {
    if |lines| > 1 {
      LinesCost(lines[1..], kept[1..]);
      JoinedCost(lines);
      JoinedCost(kept);
      if k :| 0 <= k < |lines| && Openers(kept[k]) < Openers(lines[k]) {
        if k > 0 { assert Openers(kept[1..][k - 1]) < Openers(lines[1..][k - 1]); }
      }
    }
  }

  lemma JoinedCost(lines: seq<string>)
    requires |lines| > 1
    ensures Openers(JoinLines(lines)) == Openers(lines[0]) + Openers(JoinLines(lines[1..]))
  {
    var rest := JoinLines(lines[1..]);
    assert JoinLines(lines) == lines[0] + (['\n'] + rest);
    OpenersAppend(lines[0], ['\n'] + rest);
    OpenersAppend(['\n'], rest);
    NoOpeners(['\n']);
  }

  // ---------------------------------------------------------------- the fixed texts

  /** No line outside a fence has a tag. */
  ghost predicate TagFree(lines: seq<string>) {
    forall k :: 0 <= k < |lines| && !Fenced(lines, k) ==> !HasTag(lines[k])
  }

  ghost predicate AllSafe(s: string, scheme: string -> string) {
    forall t :: t in Targets(s) ==> SafeTarget(t, scheme)
  }

  lemma TagFreeKept(lines: seq<string>)
    requires TagFree(lines)
    ensures StrippedLines(lines) == lines
  {
    forall k | 0 <= k < |lines| ensures StrippedLines(lines)[k] == lines[k] {
      StrippedAt(lines, k);
      RemoveTagsFixes(lines[k]);
    }
  }

  /** A line loop that loses no opener changed no line. */
  lemma NothingLostTagFree(lines: seq<string>)
    requires Openers(JoinLines(StrippedLines(lines))) >= Openers(JoinLines(lines))
    ensures TagFree(lines)
  {
    var kept := StrippedLines(lines);
    forall k | 0 <= k < |lines| ensures Openers(kept[k]) <= Openers(lines[k]) {
      StrippedAt(lines, k);
      TagsCost(lines[k]);
    }
    LinesCost(lines, kept);
    forall k | 0 <= k < |lines| && !Fenced(lines, k) ensures !HasTag(lines[k]) {
      StrippedAt(lines, k);
      TagsCost(lines[k]);
      RemoveTagsFixes(lines[k]);
      assert !(Openers(kept[k]) < Openers(lines[k]));
    }
  }

  /** The texts that are fit to be shown as they are. */
  ghost predicate Fit(s: string, scheme: string -> string) {
    Trimmed(s) && AllShowable(s) && PlainBreaks(s) && TagFree(SplitLines(s)) && AllSafe(s, scheme)
  }

  lemma FitUnchanged(s: string, scheme: string -> string)
    requires Fit(s, scheme)
    ensures Sanitize(s, scheme) == s
  {
    ShownUnchanged(s);
    SplitJoined(s);
    TagFreeKept(SplitLines(s));
    SafeUnchanged(s, scheme);
    StripTrims(s);
  }

  lemma StagesCost(s: string, scheme: string -> string)
    ensures Openers(Strip(SanitizeLinks(StripOutsideFences(s), scheme))) <= Openers(StripOutsideFences(s))
  {
    LinksCost(StripOutsideFences(s), scheme);
    StripCost(SanitizeLinks(StripOutsideFences(s), scheme));
  }

  lemma SanitizedBreaks(s: string, scheme: string -> string)
    ensures PlainBreaks(Sanitize(s, scheme))
  {
    StrippedBreaks(Visible(s));
    LinksBreaks(StripOutsideFences(Visible(s)), scheme);
    StripTrims(SanitizeLinks(StripOutsideFences(Visible(s)), scheme));
  }

  lemma UnchangedFit(s: string, scheme: string -> string)
    requires scheme(UNSAFE_LINK) == "" && Sanitize(s, scheme) == s
    ensures Fit(s, scheme)
  {
    FinalShowable(s, scheme);
    FinalLinksSafe(s, scheme);
    SanitizedBreaks(s, scheme);
    StripTrims(SanitizeLinks(StripOutsideFences(Visible(s)), scheme));
    ShownUnchanged(s);
    SplitJoined(s);
    StagesCost(s, scheme);
    NothingLostTagFree(SplitLines(s));
  }

  /** Ordinary CommonMark is left intact, and nothing else is: the sanitizer changes a text exactly unless it is
      trimmed, shows no control character, breaks lines only at newlines, has no tag outside fences, and links
      only to safe targets. */
  lemma UnchangedIff(s: string, scheme: string -> string)
    requires scheme(UNSAFE_LINK) == ""
    ensures Sanitize(s, scheme) == s <==> Fit(s, scheme)
  {
    if Fit(s, scheme) { FitUnchanged(s, scheme); }
    if Sanitize(s, scheme) == s { UnchangedFit(s, scheme); }
  }

  /** Sanitizing twice is sanitizing once exactly when the first pass left no tag outside the fences of its result. */
  lemma SanitizeTwiceIff(source: string, scheme: string -> string)
    requires scheme(UNSAFE_LINK) == ""
    ensures var once := Sanitize(source, scheme);
            Sanitize(once, scheme) == once <==> TagFree(SplitLines(once))
  {
    UnchangedIff(Sanitize(source, scheme), scheme);
    FinalShowable(source, scheme);
    FinalLinksSafe(source, scheme);
    SanitizedBreaks(source, scheme);
    StripTrims(SanitizeLinks(StripOutsideFences(Visible(source)), scheme));
  }
}
