/** Where a tag in the final sanitized text can come from. */
module CommonMarkTags {
  import opened Wrappers
  import opened PyStrings
  import opened CommonMark
  import opened CommonMarkTheorems

  // ---------------------------------------------------------------- texts with no more tags than another

  /** Every tag and every end of a tag in x is matched by one in y. */
  ghost predicate Inner(x: string, y: string) {
    (HasTag(x) ==> HasTag(y)) && (ClosingLength(x) > 0 ==> ClosingLength(y) > 0)
  }

  /** Also behind a leftover `<` or `</`. */
  ghost predicate Below(x: string, y: string) {
    && Inner(x, y)
    && (TagLength(['<'] + x) > 0 ==> TagLength(['<'] + y) > 0)
    && (TagLength(['<', '/'] + x) > 0 ==> TagLength(['<', '/'] + y) > 0)
  }

  lemma NoOpener(c: char, x: string)
    requires c != '<'
    ensures TagLength([c] + x) == 0
  {
  }

  lemma BelowCons(c: char, x: string, y: string)
    requires Below(x, y)
    ensures Below([c] + x, [c] + y)
  {
    InnerCons(c, x, y);
    LeftCons(c, x, y);
  }

  lemma InnerCons(c: char, x: string, y: string)
    requires Below(x, y)
    ensures Inner([c] + x, [c] + y)
  {
    ClosingCons(c, x);
    ClosingCons(c, y);
    HasTagStep(c, x);
    HasTagStep(c, y);
    if c != '<' { NoOpener(c, x); }
  }

  lemma LeftCons(c: char, x: string, y: string)
    requires Below(x, y)
    ensures TagLength(['<'] + ([c] + x)) > 0 ==> TagLength(['<'] + ([c] + y)) > 0
    ensures TagLength(['<', '/'] + ([c] + x)) > 0 ==> TagLength(['<', '/'] + ([c] + y)) > 0
  {
    TagLengthOpened([c] + x);
    TagLengthOpened([c] + y);
    TagLengthSlashed([c] + x);
    TagLengthSlashed([c] + y);
    assert ([c] + x)[1..] == x && ([c] + y)[1..] == y;
  }

  lemma SplitHead(p: string, x: string)
    requires p != ""
    ensures p + x == [p[0]] + (p[1..] + x)
  {
  }

  lemma {:induction false} BelowPrefix(p: string, x: string, y: string)
    requires Below(x, y)
    ensures Below(p + x, p + y)
  {
    if p == "" {
      assert p + x == x && p + y == y;
    } else {
      BelowPrefix(p[1..], x, y);
      BelowCons(p[0], p[1..] + x, p[1..] + y);
      SplitHead(p, x);
      SplitHead(p, y);
    }
  }

  /** Behind a character that is neither an opener, a letter nor a slash, what is left of it does not matter. */
  lemma BelowBehind(c: char, x: string, y: string)
    requires Inner(x, y) && c != '<' && c != '/' && !IsLetter(c)
    ensures Below([c] + x, [c] + y)
  {
    ClosingCons(c, x);
    ClosingCons(c, y);
    HasTagStep(c, x);
    HasTagStep(c, y);
    NoOpener(c, x);
    TagLengthOpened([c] + x);
    TagLengthSlashed([c] + x);
  }

  lemma {:induction false} HasTagBehind(w: string, y: string)
    ensures HasTag(y) ==> HasTag(w + y)
  {
    if i :| 0 <= i < |y| && TagLength(y[i..]) > 0 {
      assert (w + y)[|w| + i..] == y[i..];
    }
  }

  lemma InnerInsert(w: string, x: string, y: string)
    requires Inner(x, y) && '\n' !in w
    ensures Inner(x, w + y)
  {
    HasTagBehind(w, y);
    if ClosingLength(y) > 0 {
      assert (w + y)[|w|..] == y;
      ClosingBefore(w + y, |w|);
    }
  }

  lemma {:induction false} InnerDrop(p: string, x: string, y: string)
    requires Inner(x, y) && '<' !in p && '>' !in p
    ensures Inner(p + x, y)
  {
    if p == "" {
      assert p + x == x;
    } else {
      InnerDrop(p[1..], x, y);
      assert p + x == [p[0]] + (p[1..] + x);
      ClosingCons(p[0], p[1..] + x);
      HasTagStep(p[0], p[1..] + x);
      NoOpener(p[0], p[1..] + x);
    }
  }

  // ---------------------------------------------------------------- one link

  lemma StripParts(t: string) returns (w: string, v: string)
    ensures t == w + (Strip(t) + v) && (forall c :: c in w ==> c in t) && forall c :: c in v ==> c in t
  {
    var l := LStrip(t);
    LStripFacts(t);
    w := t[..|t| - |l|];
    assert t == w + l;
    v := RStripTail(l);
  }

  lemma RStripTail(l: string) returns (v: string)
    ensures l == RStrip(l) + v && forall c :: c in v ==> c in l
  {
    RStripFacts(l);
    v := l[|RStrip(l)|..];
  }

  /** Cleaning a target that spans no lines brings no tag about. */
  lemma CleanedBelow(target: string, x: string, y: string, scheme: string -> string)
    requires Inner(x, y) && '\n' !in target
    ensures Inner(CleanTarget(target, scheme) + ([')'] + x), target + ([')'] + y))
  {
    if scheme(Strip(target)) in SAFE_SCHEMES {
      var w, v := StripParts(target);
      KeptBelow(w, Strip(target), v, target, x, y);
    } else {
      ReplacedBelow(UNSAFE_LINK, target, x, y);
    }
  }

  lemma KeptBelow(w: string, t: string, v: string, target: string, x: string, y: string)
    requires Inner(x, y) && '\n' !in w && '\n' !in v && target == w + (t + v)
    ensures Inner(t + ([')'] + x), target + ([')'] + y))
  {
    BelowBehind(')', x, y);
    InnerInsert(v, [')'] + x, [')'] + y);
    TailBelow(v, x, [')'] + y);
    BelowPrefix(t, [')'] + x, v + ([')'] + y));
    InnerInsert(w, t + ([')'] + x), t + (v + ([')'] + y)));
    Regroup(w, t, v, [')'] + y);
  }

  lemma Regroup(w: string, t: string, v: string, z: string)
    ensures (w + (t + v)) + z == w + (t + (v + z))
  {
  }

  lemma ReplacedBelow(safe: string, target: string, x: string, y: string)
    requires Inner(x, y) && '\n' !in target && safe == UNSAFE_LINK
    ensures Inner(safe + ([')'] + x), target + ([')'] + y))
  {
    BelowBehind(')', x, y);
    UnsafeHasNoTag(safe);
    InnerInsert(target, [')'] + x, [')'] + y);
    InnerDrop(safe, [')'] + x, target + ([')'] + y));
  }

  lemma UnsafeHasNoTag(w: string)
    requires w == "unsafe-link"
    ensures '<' !in w && '>' !in w
  {
  }

  lemma TailBelow(v: string, x: string, y: string)
    requires Inner([')'] + x, v + y)
    ensures Below([')'] + x, v + y)
  {
    TagLengthOpened([')'] + x);
    TagLengthSlashed([')'] + x);
  }

  // ---------------------------------------------------------------- the link stage

  ghost predicate SpansLines(targets: seq<string>) { exists t :: t in targets && '\n' in t }

  /** The link stage makes no tag unless a link target spans lines. */
  lemma {:induction false} LinksBelow(s: string, scheme: string -> string)
    requires !SpansLines(Targets(s))
    ensures Below(SanitizeLinks(s, scheme), s)
    decreases |s|
  {
    if s != "" {
      SpansLinesStep(s);
      LinksBelow(s[LinkStepOf(s)..], scheme);
      if LinkLength(s) > 0 {
        LinkHeadBelow(s, scheme);
      } else {
        CharStep(s, scheme);
        BelowCons(s[0], SanitizeLinks(s[1..], scheme), s[1..]);
        assert s == [s[0]] + s[1..];
      }
    } else {
      assert SanitizeLinks(s, scheme) == s;
    }
  }

  lemma SpansLinesStep(s: string)
    requires s != "" && !SpansLines(Targets(s))
    ensures !SpansLines(Targets(s[LinkStepOf(s)..]))
    ensures LinkLength(s) > 0 ==> '\n' !in s[2..LinkLength(s) - 1]
  {
    TargetsUnfold(s);
    if LinkLength(s) > 0 { LinkHeadFound(s); }
  }

  lemma LinkHeadBelow(s: string, scheme: string -> string)
    requires LinkLength(s) > 0 && '\n' !in s[2..LinkLength(s) - 1]
    requires Below(SanitizeLinks(s[LinkLength(s)..], scheme), s[LinkLength(s)..])
    ensures Below(SanitizeLinks(s, scheme), s)
  {
    var rest, target := s[LinkLength(s)..], s[2..LinkLength(s) - 1];
    LinkShape(s);
    LinkStep(s, scheme);
    CleanedBelow(target, SanitizeLinks(rest, scheme), rest, scheme);
    LinkBelow(CleanTarget(target, scheme), SanitizeLinks(rest, scheme), target, rest);
  }

  lemma LinkBelow(t: string, x: string, u: string, y: string)
    requires Inner(t + ([')'] + x), u + ([')'] + y))
    ensures Below(Link(t) + x, Link(u) + y)
  {
    BelowBehind('(', t + ([')'] + x), u + ([')'] + y));
    BelowCons(']', ['('] + (t + ([')'] + x)), ['('] + (u + ([')'] + y)));
    LinkParts(t, x);
    LinkParts(u, y);
  }

  lemma LinkParts(t: string, x: string)
    ensures Link(t) + x == [']'] + (['('] + (t + ([')'] + x)))
  {
  }

  // ---------------------------------------------------------------- joining lines and stripping

  lemma {:induction false} ClosingBeforeBreak(a: string, b: string)
    ensures ClosingLength(a + (['\n'] + b)) > 0 ==> ClosingLength(a) > 0
  {
    if a == "" {
      assert a + (['\n'] + b) == ['\n'] + b;
      ClosingCons('\n', b);
    } else {
      ClosingBeforeBreak(a[1..], b);
      assert a + (['\n'] + b) == [a[0]] + (a[1..] + (['\n'] + b)) && a == [a[0]] + a[1..];
      ClosingCons(a[0], a[1..] + (['\n'] + b));
      ClosingCons(a[0], a[1..]);
    }
  }

  /** A line break ends every tag that was begun before it. */
  lemma TagBeforeBreak(a: string, b: string)
    ensures TagLength(a + (['\n'] + b)) > 0 ==> TagLength(a) > 0
  {
    var s := a + (['\n'] + b);
    var k := OpeningLength(s);
    if TagLength(s) > 0 {
      assert k <= |a| by { assert forall i | 0 <= i < k :: s[i] != '\n'; assert s[|a|] == '\n'; }
      assert OpeningLength(a) == k;
      assert s[k..] == a[k..] + (['\n'] + b);
      ClosingBeforeBreak(a[k..], b);
    }
  }

  lemma {:induction false} TagAcrossBreak(a: string, b: string)
    ensures HasTag(a + (['\n'] + b)) ==> HasTag(a) || HasTag(b)
  {
    if a == "" {
      assert a + (['\n'] + b) == ['\n'] + b;
      HasTagStep('\n', b);
      NoOpener('\n', b);
    } else {
      TagAcrossBreak(a[1..], b);
      assert a + (['\n'] + b) == [a[0]] + (a[1..] + (['\n'] + b)) && a == [a[0]] + a[1..];
      HasTagStep(a[0], a[1..] + (['\n'] + b));
      HasTagStep(a[0], a[1..]);
      TagBeforeBreak(a, b);
    }
  }

  lemma {:induction false} TagOfSomeLine(lines: seq<string>) returns (k: nat)
    requires HasTag(JoinLines(lines))
    ensures k < |lines| && HasTag(lines[k])
  {
    if |lines| == 1 {
      k := 0;
    } else {
      var rest := JoinLines(lines[1..]);
      assert JoinLines(lines) == lines[0] + (['\n'] + rest);
      TagAcrossBreak(lines[0], rest);
      if HasTag(lines[0]) {
        k := 0;
      } else {
        var j := TagOfSomeLine(lines[1..]);
        k := j + 1;
      }
    }
  }

  lemma {:induction false} ClosingGrows(a: string, b: string)
    ensures ClosingLength(a) > 0 ==> ClosingLength(a + b) > 0
  {
    if a != "" {
      ClosingGrows(a[1..], b);
      assert a + b == [a[0]] + (a[1..] + b) && a == [a[0]] + a[1..];
      ClosingCons(a[0], a[1..] + b);
      ClosingCons(a[0], a[1..]);
    }
  }

  lemma TagGrows(a: string, b: string)
    ensures TagLength(a) > 0 ==> TagLength(a + b) > 0
  {
    var k := OpeningLength(a);
    if TagLength(a) > 0 {
      assert OpeningLength(a + b) == k;
      assert (a + b)[k..] == a[k..] + b;
      ClosingGrows(a[k..], b);
    }
  }

  lemma HasTagGrows(a: string, b: string)
    ensures HasTag(a) ==> HasTag(a + b)
  {
    if i :| 0 <= i < |a| && TagLength(a[i..]) > 0 {
      assert (a + b)[i..] == a[i..] + b;
      TagGrows(a[i..], b);
    }
  }

  lemma HasTagStripped(s: string)
    ensures HasTag(Strip(s)) ==> HasTag(s)
  {
    var w, v := StripParts(s);
    HasTagGrows(Strip(s), v);
    HasTagBehind(w, Strip(s) + v);
  }

  // ---------------------------------------------------------------- the whole pipeline

  /** Line k is a fence or stands inside one. */
  predicate Fenced(lines: seq<string>, k: nat)
    requires k < |lines|
  {
    MarkerOf(lines[k]).Some? || FenceAt(Markers(lines), k).Some?
  }

  /** A fenced line that has a tag. */
  ghost predicate FencedTag(lines: seq<string>) {
    exists k :: 0 <= k < |lines| && Fenced(lines, k) && HasTag(lines[k])
  }

  /** A line outside fences in which a removed tag was bridged. */
  ghost predicate BridgedTag(lines: seq<string>) {
    exists k :: 0 <= k < |lines| && !Fenced(lines, k) && Bridged(lines[k], "")
  }

  /** A tag of the final text comes from a fenced line that had it, from a line where a removed tag was bridged,
      or from a link target that spanned lines; there is no other way. */
  lemma FinalTagSources(source: string, scheme: string -> string)
    requires HasTag(Sanitize(source, scheme))
    ensures FencedTag(SplitLines(Visible(source))) || BridgedTag(SplitLines(Visible(source)))
         || SpansLines(Targets(StripOutsideFences(Visible(source))))
  {
    VisibleTagSources(Visible(source), scheme);
  }

  lemma VisibleTagSources(visible: string, scheme: string -> string)
    requires HasTag(Strip(SanitizeLinks(StripOutsideFences(visible), scheme)))
    ensures FencedTag(SplitLines(visible)) || BridgedTag(SplitLines(visible)) || SpansLines(Targets(StripOutsideFences(visible)))
  {
    HasTagStripped(SanitizeLinks(StripOutsideFences(visible), scheme));
    if !SpansLines(Targets(StripOutsideFences(visible))) {
      LinksBelow(StripOutsideFences(visible), scheme);
      StrippedTagSources(SplitLines(visible));
    }
  }

  lemma StrippedTagSources(lines: seq<string>)
    requires HasTag(JoinLines(StrippedLines(lines)))
    ensures FencedTag(lines) || BridgedTag(lines)
  {
    var k := TagOfSomeLine(StrippedLines(lines));
    StrippedAt(lines, k);
    TagsLeftIff(lines[k]);
    assert Fenced(lines, k) || Bridged(lines[k], "");
  }

  // ---------------------------------------------------------------- a tag out of two lines

  lemma {:induction false} NoEscapeNoChange(s: string)
    requires ESC !in s
    ensures Remove(s, AnsiLength) == s
  {
    if s != "" {
      NoEscapeNoChange(s[1..]);
      assert s == [s[0]] + s[1..];
    }
  }

  lemma {:induction false} NoControlNoChange(s: string)
    requires forall c :: c in s ==> !IsControl(c) && c != '\r'
    ensures RemoveControls(s) == s && ReplaceCrLf(s) == s && ReplaceCr(s) == s
  {
    if s != "" {
      NoControlNoChange(s[1..]);
      assert s == [s[0]] + s[1..];
    }
  }

  lemma ShownUnchanged(s: string)
    requires AllShowable(s)
    ensures Visible(s) == s
  {
    NoEscapeNoChange(s);
    NoControlNoChange(s);
  }

  lemma BreakFromIs(s: string, i: nat, r: nat)
    requires i <= r <= |s| && (r < |s| ==> IsBreak(s[r])) && forall k :: i <= k < r ==> !IsBreak(s[k])
    ensures BreakFrom(s, i) == r
  {
  }

  lemma TwoLines(a: string, b: string)
    requires b != "" && (forall c :: c in a ==> !IsBreak(c)) && forall c :: c in b ==> !IsBreak(c)
    ensures SplitLines(a + (['\n'] + b)) == [a, b]
  {
    var s := a + (['\n'] + b);
    forall k | 0 <= k < |a| ensures !IsBreak(s[k]) { assert s[k] in a; }
    forall k | 0 <= k < |b| ensures !IsBreak(b[k]) { assert b[k] in b; }
    BreakFromIs(s, 0, |a|);
    BreakFromIs(b, 0, |b|);
    assert s[..|a|] == a && s[|a| + 1..] == b;
    assert SplitLines(b) == [b];
  }

  lemma {:induction false} NoEndNoTag(s: string)
    requires '>' !in s
    ensures RemoveTags(s) == s
  {
    if s != "" {
      NoEndHere(s);
      NoEndNoTag(s[1..]);
      assert s == [s[0]] + s[1..];
    }
  }

  lemma NoEndHere(s: string)
    requires '>' !in s
    ensures TagLength(s) == 0
  {
    NoEndNoClosing(s[OpeningLength(s)..]);
  }

  lemma NoEndNoClosing(s: string)
    requires '>' !in s
    ensures ClosingLength(s) == 0
  {
  }

  lemma TwoPlainLines(a: string, b: string)
    requires MarkerOf(a) == None && MarkerOf(b) == None && RemoveTags(a) == a && RemoveTags(b) == b
    ensures JoinLines(StrippedLines([a, b])) == a + (['\n'] + b)
  {
    var lines := [a, b];
    FenceStep(Markers(lines), 0);
    StrippedAt(lines, 0);
    StrippedAt(lines, 1);
    assert StrippedLines(lines) == [a, b];
    assert [a, b][1..] == [b];
  }

  /** A line break inside a link target keeps `<a](` and `)>` apart; cleaning the target removes the break and
      leaves a tag, though no line had one and nothing was removed. */
  lemma BrokenTargetMakesTag(first: string, second: string, scheme: string -> string)
    requires first == ['<', 'a', ']', '('] && second == [')', '>'] && scheme("") == ""
    ensures var source := first + (['\n'] + second);
            && StripOutsideFences(Visible(source)) == source && !HasTag(source)
            && Sanitize(source, scheme) == first + second && HasTag(first + second)
  {
    BrokenUntouched(first, second);
    BreakCleaned(first, second, scheme);
    ReadyTag(first + second, second);
  }

  lemma BrokenUntouched(first: string, second: string)
    requires first == ['<', 'a', ']', '('] && second == [')', '>']
    ensures var source := first + (['\n'] + second);
            StripOutsideFences(Visible(source)) == source && !HasTag(source)
  {
    BrokenShown(first, second);
    BrokenLines(first, second);
    TwoPlainUntouched(first, second, first + (['\n'] + second));
  }

  lemma BrokenShown(first: string, second: string)
    requires first == ['<', 'a', ']', '('] && second == [')', '>']
    ensures Visible(first + (['\n'] + second)) == first + (['\n'] + second)
  {
    ShownUnchanged(first + (['\n'] + second));
  }

  lemma TwoPlainUntouched(a: string, b: string, s: string)
    requires s == a + (['\n'] + b) && Visible(s) == s && SplitLines(s) == [a, b]
    requires MarkerOf(a) == None && MarkerOf(b) == None && RemoveTags(a) == a && RemoveTags(b) == b
    ensures StripOutsideFences(Visible(s)) == s && !HasTag(s)
  {
    TwoPlainLines(a, b);
    NoTagInLines(a, b);
  }

  lemma BrokenLines(first: string, second: string)
    requires first == ['<', 'a', ']', '('] && second == [')', '>']
    ensures SplitLines(first + (['\n'] + second)) == [first, second]
    ensures RemoveTags(first) == first && RemoveTags(second) == second
    ensures MarkerOf(first) == None && MarkerOf(second) == None
  {
    TwoLines(first, second);
    NoEndNoTag(first);
    NoOpening(second);
  }

  lemma NoTagInLines(a: string, b: string)
    requires RemoveTags(a) == a && RemoveTags(b) == b
    ensures !HasTag(a + (['\n'] + b))
  {
    RemoveTagsFixes(a);
    RemoveTagsFixes(b);
    TagAcrossBreak(a, b);
  }

  lemma ReadyTag(s: string, end: string)
    requires end == [')', '>'] && s == ['<', 'a', ']', '('] + end
    ensures HasTag(s) && Strip(s) == s
  {
    ClosingBefore(end, 1);
    ClosingBefore([']', '('] + end, 2);
    assert s == ['<'] + (['a'] + ([']', '('] + end));
    TagLengthOpened(['a'] + ([']', '('] + end));
    HasTagFirst(s);
    WordTrimmed(s);
  }

  lemma BreakCleaned(first: string, second: string, scheme: string -> string)
    requires first == ['<', 'a', ']', '('] && second == [')', '>'] && scheme("") == ""
    ensures SanitizeLinks(first + (['\n'] + second), scheme) == first + second
  {
    var link := [']', '(', '\n', ')', '>'];
    BrokenLink(link, scheme);
    TwoCharsPassed(link, scheme);
    BrokenParts(first, second);
  }

  lemma BrokenParts(first: string, second: string)
    requires first == ['<', 'a', ']', '('] && second == [')', '>']
    ensures first + (['\n'] + second) == ['<', 'a'] + [']', '(', '\n', ')', '>']
    ensures first + second == ['<', 'a'] + [']', '(', ')', '>']
  {
  }

  lemma TwoCharsPassed(rest: string, scheme: string -> string)
    ensures SanitizeLinks(['<', 'a'] + rest, scheme) == ['<', 'a'] + SanitizeLinks(rest, scheme)
  {
    OneCharPassed('a', rest, scheme);
    OneCharPassed('<', ['a'] + rest, scheme);
    PairHead('<', 'a', rest);
    PairHead('<', 'a', SanitizeLinks(rest, scheme));
  }

  lemma PairHead(c: char, d: char, x: string)
    ensures [c, d] + x == [c] + ([d] + x)
  {
  }

  lemma OneCharPassed(c: char, rest: string, scheme: string -> string)
    requires c != ']'
    ensures SanitizeLinks([c] + rest, scheme) == [c] + SanitizeLinks(rest, scheme)
  {
    NoLinkHere([c] + rest);
    CharStep([c] + rest, scheme);
    assert ([c] + rest)[1..] == rest;
  }

  lemma BrokenLink(link: string, scheme: string -> string)
    requires link == [']', '(', '\n', ')', '>'] && scheme("") == ""
    ensures SanitizeLinks(link, scheme) == [']', '(', ')', '>']
  {
    FindFromIs(link, ')', 2, 3);
    LinkStep(link, scheme);
    StripTrims(['\n']);
    assert link[2..3] == ['\n'] && link[4..] == ['>'];
    NoParenNoChange(['>'], scheme);
  }
}
