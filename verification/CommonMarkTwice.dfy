/** When sanitizing a second time changes something: the condition on the source text. */
module CommonMarkTwice {
  import opened Wrappers
  import opened PyStrings
  import opened CommonMark
  import opened CommonMarkTheorems
  import opened CommonMarkTags
  import opened CommonMarkFixed

  /** A text without a line break of any kind. */
  predicate OneLine(s: string) { forall c :: c in s ==> !IsBreak(c) }

  ghost predicate AllOneLine(lines: seq<string>) { forall k :: 0 <= k < |lines| ==> OneLine(lines[k]) }

  // ---------------------------------------------------------------- the link stage, line by line

  function CleanLines(lines: seq<string>, scheme: string -> string): (r: seq<string>)
    ensures |r| == |lines| && forall k :: 0 <= k < |r| ==> r[k] == SanitizeLinks(lines[k], scheme)
  {
    seq(|lines|, k requires 0 <= k < |lines| => SanitizeLinks(lines[k], scheme))
  }

  /** A link at the start of a text that starts with the line a, if its target stays on the line. */
  lemma LinkOnLine(a: string, rest: string)
    requires a != "" && '\n' !in a
    requires LinkLength(a + (['\n'] + rest)) > 0 ==> '\n' !in (a + (['\n'] + rest))[2..LinkLength(a + (['\n'] + rest)) - 1]
    ensures LinkLength(a + (['\n'] + rest)) == LinkLength(a)
  {
    var s := a + (['\n'] + rest);
    if LinkLength(a) > 0 {
      LinkIs(s, LinkLength(a));
    } else if LinkLength(s) > 0 {
      BreakBehind(s, |a|);
      LinkIs(a, LinkLength(s));
    }
  }

  lemma BreakBehind(s: string, i: nat)
    requires LinkLength(s) > 0 && '\n' !in s[2..LinkLength(s) - 1] && i < |s| && s[i] == '\n'
    ensures i >= LinkLength(s)
  {
    var n := LinkLength(s);
    forall j | 2 <= j < n - 1 ensures s[j] != '\n' { assert s[2..n - 1][j - 2] == s[j]; }
  }

  lemma LinkIs(s: string, n: nat)
    requires 4 <= n <= |s| && s[0] == ']' && s[1] == '(' && s[n - 1] == ')' && forall k :: 2 <= k < n - 1 ==> s[k] != ')'
    ensures LinkLength(s) == n
  {
    FindFromIs(s, ')', 2, n - 1);
  }

  lemma LineTail(a: string, rest: string, n: nat)
    requires n <= |a|
    ensures (a + (['\n'] + rest))[n..] == a[n..] + (['\n'] + rest)
  {
  }

  /** While no target spans lines, the first line is cleaned by itself. */
  lemma {:induction false} LinksJoin(a: string, rest: string, scheme: string -> string)
    requires '\n' !in a && !SpansLines(Targets(a + (['\n'] + rest)))
    ensures SanitizeLinks(a + (['\n'] + rest), scheme) == SanitizeLinks(a, scheme) + (['\n'] + SanitizeLinks(rest, scheme))
    ensures !SpansLines(Targets(rest))
    decreases |a|
  {
    var s := a + (['\n'] + rest);
    SpansLinesStep(s);
    if a == "" {
      assert s == ['\n'] + rest;
      NoLinkHere(s);
      CharStep(s, scheme);
      assert s[1..] == rest;
    } else {
      LinkOnLine(a, rest);
      var n := LinkStepOf(a);
      LineTail(a, rest, n);
      LinksJoin(a[n..], rest, scheme);
      LinksStepJoin(a, s, n, rest, scheme);
    }
  }

  lemma LinksStepJoin(a: string, s: string, n: nat, rest: string, scheme: string -> string)
    requires a != "" && n == LinkStepOf(a) && s == a + (['\n'] + rest) && LinkLength(s) == LinkLength(a)
    requires SanitizeLinks(s[n..], scheme) == SanitizeLinks(a[n..], scheme) + (['\n'] + SanitizeLinks(rest, scheme))
    ensures SanitizeLinks(s, scheme) == SanitizeLinks(a, scheme) + (['\n'] + SanitizeLinks(rest, scheme))
  {
    var clean := SanitizeLinks(a[n..], scheme);
    if LinkLength(a) > 0 {
      LineTarget(a, s, rest, n);
      StepsAlike(a, s, n, Link(CleanTarget(a[2..n - 1], scheme)), clean, ['\n'] + SanitizeLinks(rest, scheme), scheme);
    } else {
      StepsAlike(a, s, n, [a[0]], clean, ['\n'] + SanitizeLinks(rest, scheme), scheme);
    }
  }

  /** Two texts that start with the same link or the same character, cleaned up to what follows it. */
  lemma StepsAlike(a: string, s: string, n: nat, head: string, clean: string, end: string, scheme: string -> string)
    requires a != "" && s != "" && LinkLength(s) == LinkLength(a) && n == LinkStepOf(a)
    requires head == if LinkLength(a) > 0 then Link(CleanTarget(a[2..n - 1], scheme)) else [a[0]]
    requires if LinkLength(a) > 0 then s[2..n - 1] == a[2..n - 1] else s[0] == a[0]
    requires SanitizeLinks(a[n..], scheme) == clean && SanitizeLinks(s[n..], scheme) == clean + end
    ensures SanitizeLinks(s, scheme) == SanitizeLinks(a, scheme) + end
  {
    HeadStep(a, n, head, clean, scheme);
    HeadStep(s, n, head, clean + end, scheme);
    Regrouped(head, clean, end);
  }

  lemma HeadStep(s: string, n: nat, head: string, clean: string, scheme: string -> string)
    requires s != "" && n == LinkStepOf(s) && SanitizeLinks(s[n..], scheme) == clean
    requires head == if LinkLength(s) > 0 then Link(CleanTarget(s[2..n - 1], scheme)) else [s[0]]
    ensures SanitizeLinks(s, scheme) == head + clean
  {
    if LinkLength(s) > 0 { HeadLink(s, n, s[2..n - 1], s[n..], scheme); } else { CharStep(s, scheme); }
  }

  lemma HeadLink(s: string, n: nat, target: string, rest: string, scheme: string -> string)
    requires n == LinkLength(s) > 0 && s[2..n - 1] == target && s[n..] == rest
    ensures SanitizeLinks(s, scheme) == Link(CleanTarget(target, scheme)) + SanitizeLinks(rest, scheme)
  {
    LinkStep(s, scheme);
  }

  lemma LineTarget(a: string, s: string, rest: string, n: nat)
    requires s == a + (['\n'] + rest) && 3 <= n <= |a|
    ensures s[2..n - 1] == a[2..n - 1]
  {
  }

  lemma Regrouped(x: string, y: string, z: string)
    ensures x + (y + z) == (x + y) + z
  {
  }

  lemma {:induction false} LinksByLine(lines: seq<string>, scheme: string -> string)
    requires AllOneLine(lines) && !SpansLines(Targets(JoinLines(lines)))
    ensures SanitizeLinks(JoinLines(lines), scheme) == JoinLines(CleanLines(lines, scheme))
  {
    if |lines| > 1 {
      JoinHead(lines);
      LinksJoin(lines[0], JoinLines(lines[1..]), scheme);
      LinksByLine(lines[1..], scheme);
      CleanHead(lines, scheme);
      JoinHead(CleanLines(lines, scheme));
    }
  }

  lemma JoinHead(lines: seq<string>)
    requires |lines| > 1
    ensures JoinLines(lines) == lines[0] + (['\n'] + JoinLines(lines[1..]))
  {
  }

  lemma CleanHead(lines: seq<string>, scheme: string -> string)
    requires lines != []
    ensures CleanLines(lines, scheme)[1..] == CleanLines(lines[1..], scheme)
  {
  }

  // ---------------------------------------------------------------- markers survive cleaning

  lemma FirstKept(s: string, scheme: string -> string)
    ensures s == "" <==> SanitizeLinks(s, scheme) == ""
    ensures s != "" ==> SanitizeLinks(s, scheme)[0] == s[0]
  {
    if s != "" {
      if LinkLength(s) > 0 { LinkStep(s, scheme); } else { CharStep(s, scheme); }
    }
  }

  lemma PlainStep(s: string, scheme: string -> string)
    requires s != "" && s[0] != ']'
    ensures SanitizeLinks(s, scheme) == [s[0]] + SanitizeLinks(s[1..], scheme)
  {
    NoLinkHere(s);
    CharStep(s, scheme);
  }

  /** Whether a text starts with three of one fence character shows in its cleaned form. */
  lemma FenceKept(s: string, c: char, scheme: string -> string)
    requires c != ']'
    ensures var r := SanitizeLinks(s, scheme);
            |r| >= 3 && r[0] == c && r[1] == c && r[2] == c <==> |s| >= 3 && s[0] == c && s[1] == c && s[2] == c
  {
    FirstKept(s, scheme);
    if s != "" && s[0] == c {
      PlainStep(s, scheme);
      FirstKept(s[1..], scheme);
      if |s| >= 2 && s[1] == c {
        PlainStep(s[1..], scheme);
        FirstKept(s[2..], scheme);
        assert s[1..][1..] == s[2..];
      }
    }
  }

  lemma UnspacedMarker(s: string, scheme: string -> string)
    requires s == "" || !IsSpace(s[0])
    ensures MarkerOf(SanitizeLinks(s, scheme)) == MarkerOf(s)
  {
    var r := SanitizeLinks(s, scheme);
    FirstKept(s, scheme);
    FenceKept(s, '`', scheme);
    FenceKept(s, '~', scheme);
    assert LStrip(s) == s && LStrip(r) == r;
    if StartsFence(s) { assert s[..3] == [s[0], s[0], s[0]] == r[..3]; }
  }

  lemma SpacedMarker(c: char, s: string)
    requires IsSpace(c)
    ensures MarkerOf([c] + s) == MarkerOf(s)
  {
    assert ([c] + s)[1..] == s;
  }

  lemma {:induction false} MarkerKept(s: string, scheme: string -> string)
    ensures MarkerOf(SanitizeLinks(s, scheme)) == MarkerOf(s)
  {
    if s != "" && IsSpace(s[0]) {
      PlainStep(s, scheme);
      MarkerKept(s[1..], scheme);
      SpacedMarker(s[0], s[1..]);
      SpacedMarker(s[0], SanitizeLinks(s[1..], scheme));
      assert s == [s[0]] + s[1..];
    } else {
      UnspacedMarker(s, scheme);
    }
  }

  lemma MarkersKept(lines: seq<string>, scheme: string -> string)
    ensures Markers(CleanLines(lines, scheme)) == Markers(lines)
  {
    forall k | 0 <= k < |lines| ensures Markers(CleanLines(lines, scheme))[k] == Markers(lines)[k] {
      MarkerKept(lines[k], scheme);
    }
  }

  // ---------------------------------------------------------------- the final strip, line by line

  lemma {:induction false} LStripTag(s: string)
    ensures HasTag(LStrip(s)) <==> HasTag(s)
  {
    if s != "" && IsSpace(s[0]) {
      LStripTag(s[1..]);
      NoOpener(s[0], s[1..]);
      HasTagStep(s[0], s[1..]);
      assert s == [s[0]] + s[1..];
    }
  }

  lemma {:induction false} ClosingBeforeSpace(a: string, c: char)
    requires IsSpace(c)
    ensures ClosingLength(a + [c]) > 0 <==> ClosingLength(a) > 0
  {
    if a == "" {
      assert a + [c] == [c] + "";
      ClosingCons(c, "");
    } else {
      ClosingBeforeSpace(a[1..], c);
      assert a + [c] == [a[0]] + (a[1..] + [c]) && a == [a[0]] + a[1..];
      ClosingCons(a[0], a[1..] + [c]);
      ClosingCons(a[0], a[1..]);
    }
  }

  lemma TagBeforeSpace(a: string, c: char)
    requires IsSpace(c)
    ensures TagLength(a + [c]) > 0 <==> TagLength(a) > 0
  {
    var k := OpeningLength(a + [c]);
    if k > 0 {
      assert k <= |a|;
      assert (a + [c])[k..] == a[k..] + [c];
      ClosingBeforeSpace(a[k..], c);
    }
    TagGrows(a, [c]);
  }

  lemma {:induction false} HasTagBeforeSpace(a: string, c: char)
    requires IsSpace(c)
    ensures HasTag(a + [c]) <==> HasTag(a)
  {
    if a == "" {
      assert a + [c] == [c] + "";
      HasTagStep(c, "");
      NoOpener(c, "");
    } else {
      HasTagBeforeSpace(a[1..], c);
      assert a + [c] == [a[0]] + (a[1..] + [c]) && a == [a[0]] + a[1..];
      HasTagStep(a[0], a[1..] + [c]);
      HasTagStep(a[0], a[1..]);
      TagBeforeSpace(a, c);
    }
  }

  lemma {:induction false} RStripTag(s: string)
    ensures HasTag(RStrip(s)) <==> HasTag(s)
  {
    if s != "" && IsSpace(s[|s| - 1]) {
      RStripTag(s[..|s| - 1]);
      HasTagBeforeSpace(s[..|s| - 1], s[|s| - 1]);
      assert s == s[..|s| - 1] + [s[|s| - 1]];
    }
  }

  lemma LStripTwice(s: string)
    ensures LStrip(LStrip(s)) == LStrip(s)
  {
    LStripFacts(s);
  }

  lemma {:induction false} LStripBehind(a: string, b: string)
    ensures LStrip(a + b) == if LStrip(a) == "" then LStrip(b) else LStrip(a) + b
  {
    if a == "" {
      assert a + b == b;
    } else {
      assert (a + b)[1..] == a[1..] + b && (a + b)[0] == a[0];
      if IsSpace(a[0]) { LStripBehind(a[1..], b); }
    }
  }

  lemma {:induction false} RStripBehind(a: string, b: string)
    ensures RStrip(a + b) == if RStrip(b) == "" then RStrip(a) else a + RStrip(b)
    decreases |b|
  {
    if b == "" {
      assert a + b == a;
    } else {
      var n := |b| - 1;
      assert (a + b)[..|a + b| - 1] == a + b[..n] && (a + b)[|a + b| - 1] == b[n];
      if IsSpace(b[n]) { RStripBehind(a, b[..n]); }
    }
  }

  lemma RStripKeepsMarker(s: string)
    ensures MarkerOf(RStrip(s)) == MarkerOf(s)
  {
    RStripFacts(s);
    var r := RStrip(s);
    assert s == r + s[|r|..];
    LStripBehind(r, s[|r|..]);
    LStripFacts(r);
    LStripFacts(s);
    if LStrip(r) == "" {
      BlankNoMarker(s, r);
    } else {
      LastKept(s, LStrip(s), r, LStrip(r));
    }
  }

  lemma BlankNoMarker(s: string, r: string)
    requires r == RStrip(s) && LStrip(r) == ""
    ensures MarkerOf(s) == None && MarkerOf(r) == None
  {
    RStripFacts(s);
    LStripFacts(r);
    assert r == "" by { assert r[..|r|] == r; }
    forall i | 0 <= i < |s| ensures IsSpace(s[i]) { assert s[0..][i] == s[i]; }
    AllSpaceStripped(s);
  }

  lemma {:induction false} AllSpaceStripped(s: string)
    requires AllSpace(s)
    ensures LStrip(s) == ""
  {
    if s != "" { AllSpaceStripped(s[1..]); }
  }

  /** A text and the same with white space behind it start with the same marker. */
  lemma LastKept(s: string, ls: string, r: string, lr: string)
    requires ls == LStrip(s) && lr == LStrip(r) && lr != "" && r == RStrip(s)
    requires exists w :: AllSpace(w) && ls == lr + w
    ensures MarkerOf(r) == MarkerOf(s)
  {
    var w :| AllSpace(w) && ls == lr + w;
    if |lr| >= 3 { assert ls[..3] == lr[..3]; }
  }

  lemma LStripKeepsMarker(s: string)
    ensures MarkerOf(LStrip(s)) == MarkerOf(s)
  {
    LStripTwice(s);
  }

  // ---------------------------------------------------------------- lists of lines

  /** The line may stand where this fence is open. */
  ghost predicate MayStand(line: string, open: Marker) { MarkerOf(line).Some? || open.Some? || !HasTag(line) }

  /** No line has a tag outside fences, when this fence is open at the start. */
  ghost predicate FreeFrom(lines: seq<string>, open: Marker)
    decreases lines
  {
    lines == [] || (MayStand(lines[0], open) && FreeFrom(lines[1..], Toggle(open, MarkerOf(lines[0]))))
  }

  ghost predicate StandFrom(lines: seq<string>, k: nat) {
    forall j :: k <= j < |lines| ==> MayStand(lines[j], FenceAt(Markers(lines), j))
  }

  lemma StandStep(lines: seq<string>, k: nat)
    requires k < |lines|
    ensures StandFrom(lines, k) <==> MayStand(lines[k], FenceAt(Markers(lines), k)) && StandFrom(lines, k + 1)
  {
  }

  lemma {:induction false} FreeFromIff(lines: seq<string>, k: nat)
    requires k <= |lines|
    ensures FreeFrom(lines[k..], FenceAt(Markers(lines), k)) <==> StandFrom(lines, k)
    decreases |lines| - k
  {
    if k < |lines| {
      FreeFromIff(lines, k + 1);
      FenceStep(Markers(lines), k);
      StandStep(lines, k);
      assert lines[k..][0] == lines[k] && lines[k..][1..] == lines[k + 1..];
    }
  }

  lemma TagFreeIff(lines: seq<string>)
    ensures TagFree(lines) <==> FreeFrom(lines, None)
  {
    FreeFromIff(lines, 0);
    assert lines[0..] == lines;
    if StandFrom(lines, 0) {
      forall k | 0 <= k < |lines| && !Fenced(lines, k) ensures !HasTag(lines[k]) {
        assert MayStand(lines[k], FenceAt(Markers(lines), k));
      }
    }
    if TagFree(lines) {
      forall k | 0 <= k < |lines| ensures MayStand(lines[k], FenceAt(Markers(lines), k)) {
        assert Fenced(lines, k) || !HasTag(lines[k]);
      }
    }
  }

  /** A first line with its like. */
  lemma FreeHead(a: string, b: string, x: seq<string>, open: Marker)
    requires MarkerOf(a) == MarkerOf(b) && (HasTag(a) <==> HasTag(b))
    ensures FreeFrom([a] + x, open) <==> FreeFrom([b] + x, open)
  {
    assert ([a] + x)[1..] == x && ([b] + x)[1..] == x;
  }

  lemma FreeCons(a: string, x: seq<string>, open: Marker)
    ensures FreeFrom([a] + x, open) <==> MayStand(a, open) && FreeFrom(x, Toggle(open, MarkerOf(a)))
  {
    assert ([a] + x)[1..] == x;
  }

  /** A last line with its like, which may be no line at all. */
  lemma {:induction false} FreeLast(x: seq<string>, a: string, y: seq<string>, open: Marker)
    requires forall o :: FreeFrom([a], o) <==> FreeFrom(y, o)
    ensures FreeFrom(x + [a], open) <==> FreeFrom(x + y, open)
    decreases x
  {
    if x == [] {
      assert x + [a] == [a] && x + y == y;
    } else {
      FreeLast(x[1..], a, y, Toggle(open, MarkerOf(x[0])));
      FreeCons(x[0], x[1..] + [a], open);
      FreeCons(x[0], x[1..] + y, open);
      assert x + [a] == [x[0]] + (x[1..] + [a]) && x + y == [x[0]] + (x[1..] + y);
    }
  }

  lemma FreeAlone(a: string, open: Marker)
    ensures FreeFrom([a], open) <==> MayStand(a, open)
  {
    assert [a][1..] == [];
  }

  lemma BlankPlain(s: string)
    requires AllSpace(s)
    ensures MarkerOf(s) == None && !HasTag(s) && LStrip(s) == "" && RStrip(s) == ""
  {
    AllSpaceStripped(s);
    LStripTag(s);
    RStripBlank(s);
  }

  lemma LStripEmpty(s: string)
    requires LStrip(s) == ""
    ensures AllSpace(s)
  {
    LStripFacts(s);
    assert s[..|s|] == s;
  }

  lemma RStripEmpty(s: string)
    requires RStrip(s) == ""
    ensures AllSpace(s)
  {
    RStripFacts(s);
    assert s[0..] == s;
  }

  lemma OneLineStripped(s: string)
    requires OneLine(s)
    ensures OneLine(LStrip(s)) && OneLine(RStrip(s))
  {
    LStripFacts(s);
    RStripFacts(s);
  }

  /** Stripping the front of joined lines drops blank lines and strips the first of the others. */
  lemma {:induction false} StripFront(x: seq<string>) returns (y: seq<string>)
    requires AllOneLine(x)
    ensures LStrip(JoinLines(x)) == JoinLines(y) && AllOneLine(y) && (FreeFrom(y, None) <==> FreeFrom(x, None))
    decreases |x|
  {
    if x == [] {
      y := [];
    } else {
      assert x == [x[0]] + x[1..];
      if AllSpace(x[0]) {
        BlankFirst(x[0], x[1..]);
        y := StripFront(x[1..]);
      } else {
        y := [LStrip(x[0])] + x[1..];
        StripFirst(x[0], x[1..]);
      }
    }
  }

  /** The first of several lines, stripped at its front. */
  lemma FrontOfJoin(a: string, x: seq<string>)
    requires x != []
    ensures LStrip(JoinLines([a] + x)) == if LStrip(a) == "" then LStrip(JoinLines(x)) else JoinLines([LStrip(a)] + x)
  {
    JoinCons(a, x);
    JoinCons(LStrip(a), x);
    LStripBehind(a, ['\n'] + JoinLines(x));
    LStripBehind(['\n'], JoinLines(x));
  }

  lemma BlankFirst(a: string, x: seq<string>)
    requires AllSpace(a)
    ensures LStrip(JoinLines([a] + x)) == LStrip(JoinLines(x))
    ensures FreeFrom(x, None) <==> FreeFrom([a] + x, None)
  {
    BlankPlain(a);
    FreeCons(a, x, None);
    if x == [] { assert [a] + x == [a]; } else { FrontOfJoin(a, x); }
  }

  lemma StripFirst(a: string, x: seq<string>)
    requires OneLine(a) && !AllSpace(a)
    ensures LStrip(JoinLines([a] + x)) == JoinLines([LStrip(a)] + x)
    ensures OneLine(LStrip(a))
    ensures FreeFrom([LStrip(a)] + x, None) <==> FreeFrom([a] + x, None)
  {
    if LStrip(a) == "" { LStripEmpty(a); }
    OneLineStripped(a);
    LStripTag(a);
    LStripKeepsMarker(a);
    FreeHead(a, LStrip(a), x, None);
    if x == [] { assert [a] + x == [a] && [LStrip(a)] + x == [LStrip(a)]; } else { FrontOfJoin(a, x); }
  }

  lemma {:induction false} JoinLast(x: seq<string>, a: string)
    requires x != []
    ensures JoinLines(x + [a]) == JoinLines(x) + (['\n'] + a)
  {
    JoinHead(x + [a]);
    if |x| == 1 {
      assert (x + [a])[1..] == [a];
    } else {
      assert (x + [a])[1..] == x[1..] + [a];
      JoinLast(x[1..], a);
      JoinHead(x);
      Regrouped(x[0], ['\n'] + JoinLines(x[1..]), ['\n'] + a);
      Regrouped(['\n'], JoinLines(x[1..]), ['\n'] + a);
    }
  }

  /** Likewise at the end; the last line that is left is not empty. */
  lemma {:induction false} StripEnd(x: seq<string>) returns (y: seq<string>)
    requires AllOneLine(x)
    ensures RStrip(JoinLines(x)) == JoinLines(y) && AllOneLine(y) && (FreeFrom(y, None) <==> FreeFrom(x, None))
    ensures y != [] ==> y[|y| - 1] != ""
    decreases |x|
  {
    if x == [] {
      y := [];
    } else {
      var n := |x| - 1;
      assert x == x[..n] + [x[n]];
      if AllSpace(x[n]) {
        BlankLast(x[..n], x[n]);
        y := StripEnd(x[..n]);
      } else {
        y := x[..n] + [RStrip(x[n])];
        StripLast(x[..n], x[n]);
      }
    }
  }

  /** The last of several lines, stripped at its end. */
  lemma EndOfJoin(x: seq<string>, a: string)
    requires x != []
    ensures RStrip(JoinLines(x + [a])) ==
      if RStrip(a) == "" then RStrip(JoinLines(x)) else JoinLines(x + [RStrip(a)])
  {
    JoinLast(x, a);
    JoinLast(x, RStrip(a));
    RStripBehind(['\n'], a);
    RStripBehind(JoinLines(x), ['\n'] + a);
  }

  lemma BlankLast(x: seq<string>, a: string)
    requires AllSpace(a)
    ensures RStrip(JoinLines(x + [a])) == RStrip(JoinLines(x))
    ensures FreeFrom(x, None) <==> FreeFrom(x + [a], None)
  {
    BlankPlain(a);
    forall o ensures FreeFrom([a], o) <==> FreeFrom([], o) { FreeAlone(a, o); }
    FreeLast(x, a, [], None);
    assert x + [] == x;
    if x == [] { assert x + [a] == [a]; } else { EndOfJoin(x, a); }
  }

  lemma StripLast(x: seq<string>, a: string)
    requires OneLine(a) && !AllSpace(a)
    ensures RStrip(JoinLines(x + [a])) == JoinLines(x + [RStrip(a)])
    ensures OneLine(RStrip(a)) && RStrip(a) != ""
    ensures FreeFrom(x + [RStrip(a)], None) <==> FreeFrom(x + [a], None)
  {
    if RStrip(a) == "" { RStripEmpty(a); }
    OneLineStripped(a);
    RStripTag(a);
    RStripKeepsMarker(a);
    forall o ensures FreeFrom([a], o) <==> FreeFrom([RStrip(a)], o) {
      FreeAlone(a, o);
      FreeAlone(RStrip(a), o);
    }
    FreeLast(x, a, [RStrip(a)], None);
    if x == [] { assert x + [a] == [a] && x + [RStrip(a)] == [RStrip(a)]; } else { EndOfJoin(x, a); }
  }

  /** Joined lines split into themselves. */
  lemma {:induction false} SplitOfJoin(x: seq<string>)
    requires AllOneLine(x) && (x != [] ==> x[|x| - 1] != "")
    ensures SplitLines(JoinLines(x)) == x
  {
    if |x| == 1 {
      SplitLast(x[0]);
    } else if |x| > 1 {
      JoinHead(x);
      SplitOfJoin(x[1..]);
      LineThenRest(x[0], JoinLines(x[1..]));
    }
  }

  lemma LineThenRest(a: string, rest: string)
    requires OneLine(a)
    ensures SplitLines(a + (['\n'] + rest)) == [a] + SplitLines(rest)
  {
    var s := a + (['\n'] + rest);
    forall k | 0 <= k < |a| ensures !IsBreak(s[k]) { assert s[k] in a; }
    SplitFirst(s, |a|);
    assert s[..|a|] == a && s[|a| + 1..] == rest;
  }

  /** Splitting the stripped text again: tags stand outside fences exactly if they did in the lines. */
  lemma StrippedTagFree(x: seq<string>)
    requires AllOneLine(x)
    ensures TagFree(SplitLines(Strip(JoinLines(x)))) <==> TagFree(x)
  {
    var y := StripFront(x);
    var z := StripEnd(y);
    SplitOfJoin(z);
    TagFreeIff(x);
    TagFreeIff(z);
  }

  // ---------------------------------------------------------------- the second pass

  lemma UnsafeOneLine(w: string)
    requires w == "unsafe-link"
    ensures OneLine(w)
  {
  }

  lemma {:induction false} CleanedOneLine(s: string, scheme: string -> string)
    requires OneLine(s)
    ensures OneLine(SanitizeLinks(s, scheme))
    decreases |s|
  {
    if s != "" {
      CleanedOneLine(s[LinkStepOf(s)..], scheme);
      if LinkLength(s) > 0 {
        UnsafeOneLine(UNSAFE_LINK);
        StripTrims(s[2..LinkLength(s) - 1]);
        LinkStep(s, scheme);
      } else {
        CharStep(s, scheme);
      }
    }
  }

  lemma SourceLines(text: string)
    ensures AllOneLine(SplitLines(text)) && AllOneLine(StrippedLines(SplitLines(text)))
  {
    var lines := SplitLines(text);
    SplitLinesFacts(text);
    forall k | 0 <= k < |lines| ensures OneLine(StrippedLines(lines)[k]) {
      StrippedAt(lines, k);
      RemoveSubsequence(lines[k], TagLength);
    }
  }

  /** A stripped line outside the fences that the stripped lines make has a tag once its links are cleaned. */
  ghost predicate CleanedTag(stripped: seq<string>, scheme: string -> string) {
    exists k :: 0 <= k < |stripped| && !Fenced(stripped, k) && HasTag(SanitizeLinks(stripped[k], scheme))
  }

  lemma CleanedTagIff(stripped: seq<string>, scheme: string -> string)
    ensures TagFree(CleanLines(stripped, scheme)) <==> !CleanedTag(stripped, scheme)
  {
    var clean := CleanLines(stripped, scheme);
    MarkersKept(stripped, scheme);
    forall k | 0 <= k < |stripped| ensures Fenced(clean, k) <==> Fenced(stripped, k) {
      assert Markers(clean)[k] == MarkerOf(clean[k]) && Markers(stripped)[k] == MarkerOf(stripped[k]);
    }
  }

  /** When no link target spans lines: sanitizing again changes nothing exactly if no line is left with a tag, each
      line taken by itself. */
  lemma TwiceByLineIff(source: string, scheme: string -> string)
    requires scheme(UNSAFE_LINK) == ""
    requires !SpansLines(Targets(StripOutsideFences(Visible(source))))
    ensures Sanitize(Sanitize(source, scheme), scheme) == Sanitize(source, scheme) <==>
      !CleanedTag(StrippedLines(SplitLines(Visible(source))), scheme)
  {
    var stripped := StrippedLines(SplitLines(Visible(source)));
    SanitizeTwiceIff(source, scheme);
    SourceLines(Visible(source));
    LinksByLine(stripped, scheme);
    forall k | 0 <= k < |stripped| ensures OneLine(CleanLines(stripped, scheme)[k]) { CleanedOneLine(stripped[k], scheme); }
    StrippedTagFree(CleanLines(stripped, scheme));
    CleanedTagIff(stripped, scheme);
  }

  // ---------------------------------------------------------------- conditions on the source lines

  /** A line outside fences starts with a fence once its tags are gone. */
  ghost predicate FenceMade(lines: seq<string>) {
    exists k :: 0 <= k < |lines| && !Fenced(lines, k) && MarkerOf(RemoveTags(lines[k])).Some?
  }

  lemma FencesKept(lines: seq<string>)
    requires !FenceMade(lines)
    ensures Markers(StrippedLines(lines)) == Markers(lines)
  {
    forall k | 0 <= k < |lines| ensures Markers(StrippedLines(lines))[k] == Markers(lines)[k] {
      StrippedAt(lines, k);
    }
  }

  lemma OneLineSpansNone(s: string)
    requires OneLine(s)
    ensures !SpansLines(Targets(s))
  {
    TargetsWithin(s);
  }

  lemma {:induction false} TargetsWithin(s: string)
    ensures forall t :: t in Targets(s) ==> forall c :: c in t ==> c in s
    decreases |s|
  {
    if s != "" {
      TargetsUnfold(s);
      TargetsWithin(s[LinkStepOf(s)..]);
    }
  }

  /** Sanitizing is idempotent on every source in which no removed tag is bridged, no tag hides a fence, and no link
      target spans lines. */
  lemma SanitizedOnce(source: string, scheme: string -> string)
    requires scheme(UNSAFE_LINK) == ""
    requires !BridgedTag(SplitLines(Visible(source))) && !FenceMade(SplitLines(Visible(source)))
    requires !SpansLines(Targets(StripOutsideFences(Visible(source))))
    ensures Sanitize(Sanitize(source, scheme), scheme) == Sanitize(source, scheme)
  {
    var lines := SplitLines(Visible(source));
    var stripped := StrippedLines(lines);
    TwiceByLineIff(source, scheme);
    SourceLines(Visible(source));
    FencesKept(lines);
    forall k | 0 <= k < |stripped| && !Fenced(stripped, k) ensures !HasTag(SanitizeLinks(stripped[k], scheme)) {
      assert Markers(stripped)[k] == MarkerOf(stripped[k]) && Markers(lines)[k] == MarkerOf(lines[k]);
      assert !Fenced(lines, k);
      StrippedAt(lines, k);
      TagsLeftIff(lines[k]);
      OneLineSpansNone(stripped[k]);
      LinksBelow(stripped[k], scheme);
    }
  }

  // ---------------------------------------------------------------- links that are kept

  /** Every link target has a safe scheme already: cleaning only trims. */
  ghost predicate AllKept(targets: seq<string>, scheme: string -> string) {
    forall t :: t in targets ==> scheme(Strip(t)) in SAFE_SCHEMES
  }

  lemma InnerSpace(w: string, x: string, y: string)
    requires Inner(x, y) && AllSpace(w)
    ensures Inner(w + x, y)
  {
    forall c | c in w ensures c != '<' && c != '>' { var i :| 0 <= i < |w| && w[i] == c; assert IsSpace(w[i]); }
    InnerDrop(w, x, y);
  }

  lemma SpaceParts(t: string) returns (w: string, v: string)
    ensures t == w + (Strip(t) + v) && AllSpace(w) && AllSpace(v)
  {
    var l := LStrip(t);
    LStripFacts(t);
    RStripFacts(l);
    w, v := t[..|t| - |l|], l[|Strip(t)|..];
    assert t == w + l && l == Strip(t) + v;
  }

  lemma SpaceBelow(v: string, x: string, y: string)
    requires Inner(x, y) && AllSpace(v)
    ensures Below(v + ([')'] + x), [')'] + y)
  {
    BelowBehind(')', x, y);
    InnerSpace(v, [')'] + x, [')'] + y);
    var z := v + ([')'] + x);
    assert z[0] == ')' || IsSpace(z[0]) by { if v != "" { assert z[0] == v[0]; } }
    TagLengthOpened(z);
    TagLengthSlashed(z);
  }

  /** Trimming a target takes no tag away. */
  lemma TrimmedAbove(w: string, t: string, v: string, target: string, x: string, y: string)
    requires Inner(y, x) && AllSpace(w) && AllSpace(v) && target == w + (t + v)
    ensures Inner(target + ([')'] + y), t + ([')'] + x))
  {
    SpaceBelow(v, y, x);
    BelowPrefix(t, v + ([')'] + y), [')'] + x);
    InnerSpace(w, t + (v + ([')'] + y)), t + ([')'] + x));
    Regroup(w, t, v, [')'] + y);
  }

  lemma {:induction false} LinksAbove(s: string, scheme: string -> string)
    requires AllKept(Targets(s), scheme)
    ensures Below(s, SanitizeLinks(s, scheme))
    decreases |s|
  {
    if s != "" {
      TargetsUnfold(s);
      LinksAbove(s[LinkStepOf(s)..], scheme);
      if LinkLength(s) > 0 {
        LinkHeadFound(s);
        LinkHeadAbove(s, scheme);
      } else {
        CharStep(s, scheme);
        BelowCons(s[0], s[1..], SanitizeLinks(s[1..], scheme));
        assert s == [s[0]] + s[1..];
      }
    } else {
      assert SanitizeLinks(s, scheme) == s;
    }
  }

  lemma LinkHeadAbove(s: string, scheme: string -> string)
    requires LinkLength(s) > 0 && scheme(Strip(s[2..LinkLength(s) - 1])) in SAFE_SCHEMES
    requires Below(s[LinkLength(s)..], SanitizeLinks(s[LinkLength(s)..], scheme))
    ensures Below(s, SanitizeLinks(s, scheme))
  {
    var rest, target := s[LinkLength(s)..], s[2..LinkLength(s) - 1];
    LinkShape(s);
    LinkStep(s, scheme);
    var w, v := SpaceParts(target);
    TrimmedAbove(w, Strip(target), v, target, SanitizeLinks(rest, scheme), rest);
    LinkBelow(target, rest, Strip(target), SanitizeLinks(rest, scheme));
  }

  /** The links of every stripped line have safe schemes already. */
  ghost predicate LinksKept(stripped: seq<string>, scheme: string -> string) {
    forall k :: 0 <= k < |stripped| ==> AllKept(Targets(stripped[k]), scheme)
  }

  /** Some line that the stripped lines leave outside fences keeps a tag: a fenced one that had it, or one in which a
      removed tag was bridged. */
  ghost predicate TagLeft(lines: seq<string>) {
    exists k :: 0 <= k < |lines| && !Fenced(StrippedLines(lines), k)
      && if Fenced(lines, k) then HasTag(lines[k]) else Bridged(lines[k], "")
  }

  /** When the links are all safe and on one line: sanitizing again changes nothing exactly if no line outside the new
      fences is left with a tag, as seen in the source. */
  lemma TwiceBySourceIff(source: string, scheme: string -> string)
    requires scheme(UNSAFE_LINK) == ""
    requires !SpansLines(Targets(StripOutsideFences(Visible(source))))
    requires LinksKept(StrippedLines(SplitLines(Visible(source))), scheme)
    ensures Sanitize(Sanitize(source, scheme), scheme) == Sanitize(source, scheme) <==> !TagLeft(SplitLines(Visible(source)))
  {
    var lines := SplitLines(Visible(source));
    TwiceByLineIff(source, scheme);
    SourceLines(Visible(source));
    forall k | 0 <= k < |lines|
      ensures HasTag(SanitizeLinks(StrippedLines(lines)[k], scheme))
        <==> if Fenced(lines, k) then HasTag(lines[k]) else Bridged(lines[k], "")
    {
      LineTagIff(lines, k, scheme);
    }
    TagLeftIff(lines, StrippedLines(lines), scheme);
  }

  lemma LineTagIff(lines: seq<string>, k: nat, scheme: string -> string)
    requires k < |lines| && OneLine(StrippedLines(lines)[k]) && AllKept(Targets(StrippedLines(lines)[k]), scheme)
    ensures HasTag(SanitizeLinks(StrippedLines(lines)[k], scheme))
      <==> if Fenced(lines, k) then HasTag(lines[k]) else Bridged(lines[k], "")
  {
    var x := StrippedLines(lines)[k];
    OneLineSpansNone(x);
    LinksBelow(x, scheme);
    LinksAbove(x, scheme);
    StrippedAt(lines, k);
    TagsLeftIff(lines[k]);
  }

  lemma TagLeftIff(lines: seq<string>, stripped: seq<string>, scheme: string -> string)
    requires stripped == StrippedLines(lines)
    requires forall k :: 0 <= k < |lines| ==>
      (HasTag(SanitizeLinks(stripped[k], scheme)) <==> if Fenced(lines, k) then HasTag(lines[k]) else Bridged(lines[k], ""))
    ensures CleanedTag(stripped, scheme) <==> TagLeft(lines)
  {
    if k :| 0 <= k < |stripped| && !Fenced(stripped, k) && HasTag(SanitizeLinks(stripped[k], scheme)) {
      assert if Fenced(lines, k) then HasTag(lines[k]) else Bridged(lines[k], "");
    }
    if k :| 0 <= k < |lines| && !Fenced(stripped, k) && if Fenced(lines, k) then HasTag(lines[k]) else Bridged(lines[k], "") {
      assert HasTag(SanitizeLinks(stripped[k], scheme));
    }
  }

  // ---------------------------------------------------------------- tags in the final text

  lemma {:induction false} LineTagShows(lines: seq<string>, k: nat)
    requires k < |lines| && HasTag(lines[k])
    ensures HasTag(JoinLines(lines))
  {
    if |lines| > 1 {
      JoinHead(lines);
      if k == 0 {
        HasTagGrows(lines[0], ['\n'] + JoinLines(lines[1..]));
      } else {
        LineTagShows(lines[1..], k - 1);
        HasTagBehind(['\n'], JoinLines(lines[1..]));
        HasTagBehind(lines[0], ['\n'] + JoinLines(lines[1..]));
      }
    }
  }

  /** When the links are all safe and on one line: the final text has a tag exactly if a fenced line had one or a
      removed one was bridged. */
  lemma FinalTagIff(source: string, scheme: string -> string)
    requires !SpansLines(Targets(StripOutsideFences(Visible(source))))
    requires LinksKept(StrippedLines(SplitLines(Visible(source))), scheme)
    ensures HasTag(Sanitize(source, scheme)) <==>
      FencedTag(SplitLines(Visible(source))) || BridgedTag(SplitLines(Visible(source)))
  {
    if HasTag(Sanitize(source, scheme)) { FinalTagSources(source, scheme); }
    LinksByLineOf(Visible(source), scheme);
    var lines := SplitLines(Visible(source));
    var clean := CleanLines(StrippedLines(lines), scheme);
    SourceLines(Visible(source));
    if k :| 0 <= k < |lines| && if Fenced(lines, k) then HasTag(lines[k]) else Bridged(lines[k], "") {
      LineTagIff(lines, k, scheme);
      LineTagShows(clean, k);
      TagSurvivesStrip(JoinLines(clean));
    }
  }

  /** When no link target spans lines, safe or not: the final text has a tag exactly if some stripped line has one once
      its own links are cleaned. */
  lemma FinalTagByLineIff(source: string, scheme: string -> string)
    requires !SpansLines(Targets(StripOutsideFences(Visible(source))))
    ensures var stripped := StrippedLines(SplitLines(Visible(source)));
            HasTag(Sanitize(source, scheme)) <==>
              exists k :: 0 <= k < |stripped| && HasTag(SanitizeLinks(stripped[k], scheme))
  {
    var stripped := StrippedLines(SplitLines(Visible(source)));
    var clean := CleanLines(stripped, scheme);
    LinksByLineOf(Visible(source), scheme);
    TagSurvivesStrip(JoinLines(clean));
    if HasTag(JoinLines(clean)) {
      var k := TagOfSomeLine(clean);
      assert HasTag(SanitizeLinks(stripped[k], scheme));
    }
    if k :| 0 <= k < |stripped| && HasTag(SanitizeLinks(stripped[k], scheme)) { LineTagShows(clean, k); }
  }

  lemma LinksByLineOf(text: string, scheme: string -> string)
    requires !SpansLines(Targets(StripOutsideFences(text)))
    ensures SanitizeLinks(StripOutsideFences(text), scheme) == JoinLines(CleanLines(StrippedLines(SplitLines(text)), scheme))
  {
    SourceLines(text);
    LinksByLine(StrippedLines(SplitLines(text)), scheme);
  }

  lemma TagSurvivesStrip(s: string)
    ensures HasTag(Strip(s)) <==> HasTag(s)
  {
    LStripTag(s);
    RStripTag(LStrip(s));
  }

  // ---------------------------------------------------------------- texts that change twice

  lemma {:induction false} NoParenNoTargets(s: string)
    requires ')' !in s
    ensures Targets(s) == []
  {
    if s != "" { NoParenNoTargets(s[1..]); }
  }

  lemma NoTargetsKept(s: string, scheme: string -> string)
    requires ')' !in s
    ensures AllKept(Targets(s), scheme)
  {
    NoParenNoTargets(s);
  }

  lemma FirstOpen(lines: seq<string>)
    requires lines != [] && MarkerOf(lines[0]) == None
    ensures !Fenced(lines, 0)
  {
  }

  /** `<<b>b>`: the first pass leaves a tag, the second removes it. */
  lemma BridgeTwice(s: string, c: char, scheme: string -> string)
    requires IsLetter(c) && s == ['<', '<', c, '>', c, '>'] && scheme(UNSAFE_LINK) == ""
    ensures Sanitize(Sanitize(s, scheme), scheme) != Sanitize(s, scheme)
  {
    BridgeLine(s, c);
    BridgeTags(s, c);
    BridgeShapes(s, ['<', c, '>'], c);
    OneBridged(s, ['<', c, '>'], scheme);
  }

  lemma BridgeShapes(s: string, left: string, c: char)
    requires IsLetter(c) && s == ['<', '<', c, '>', c, '>'] && left == ['<', c, '>']
    ensures MarkerOf(s) == None && MarkerOf(left) == None && ')' !in left
  {
  }

  lemma BridgeLine(s: string, c: char)
    requires IsLetter(c) && s == ['<', '<', c, '>', c, '>']
    ensures Visible(s) == s && SplitLines(s) == [s]
  {
    ShownUnchanged(s);
    SplitLast(s);
  }

  lemma BridgeTags(s: string, c: char)
    requires IsLetter(c) && s == ['<', '<', c, '>', c, '>']
    ensures RemoveTags(s) == ['<', c, '>'] && Bridged(s, "")
  {
    BridgeExample(s, c);
    TagsLeftIff(s);
  }

  lemma OneBridged(s: string, left: string, scheme: string -> string)
    requires scheme(UNSAFE_LINK) == "" && Visible(s) == s && SplitLines(s) == [s]
    requires RemoveTags(s) == left && MarkerOf(s) == None && MarkerOf(left) == None && ')' !in left && Bridged(s, "")
    ensures Sanitize(Sanitize(s, scheme), scheme) != Sanitize(s, scheme)
  {
    StrippedAt([s], 0);
    FirstOpen([s]);
    assert StrippedLines([s]) == [left];
    FirstOpen([left]);
    NoParenNoTargets(left);
    TwiceBySourceIff(s, scheme);
  }

  /** A line break inside a link target: cleaning joins the lines into a tag, the second pass removes it. */
  lemma BrokenTargetTwice(first: string, second: string, scheme: string -> string)
    requires first == ['<', 'a', ']', '('] && second == [')', '>']
    requires scheme("") == "" && scheme(UNSAFE_LINK) == ""
    ensures var source := first + (['\n'] + second);
            Sanitize(Sanitize(source, scheme), scheme) != Sanitize(source, scheme)
  {
    BrokenTargetMakesTag(first, second, scheme);
    BrokenShape(first + second);
    TaggedTwice(first + (['\n'] + second), first + second, scheme);
  }

  lemma BrokenShape(s: string)
    requires s == ['<', 'a', ']', '(', ')', '>']
    ensures OneLine(s) && MarkerOf(s) == None
  {
  }

  lemma TaggedTwice(source: string, once: string, scheme: string -> string)
    requires scheme(UNSAFE_LINK) == "" && Sanitize(source, scheme) == once
    requires OneLine(once) && HasTag(once) && once != "" && MarkerOf(once) == None
    ensures Sanitize(Sanitize(source, scheme), scheme) != Sanitize(source, scheme)
  {
    OneTagged(once);
    SanitizeTwiceIff(source, scheme);
  }

  lemma OneTagged(s: string)
    requires OneLine(s) && HasTag(s) && s != "" && MarkerOf(s) == None
    ensures !TagFree(SplitLines(s))
  {
    SplitLast(s);
    FirstOpen([s]);
  }

  /** A tag that hides a fence: in `<b>~~~`, `~~~`, `<b>` no removed tag is bridged and there is no link, yet the first
      pass uncovers a fence that turns the others around, and the second removes a tag that was fenced. */
  lemma HiddenFenceTwice(source: string, a: string, b: string, c: string, scheme: string -> string)
    requires a == ['<', 'b', '>', '~', '~', '~'] && b == ['~', '~', '~'] && c == ['<', 'b', '>']
    requires source == JoinLines([a, b, c]) && scheme(UNSAFE_LINK) == ""
    ensures SplitLines(Visible(source)) == [a, b, c] && !BridgedTag([a, b, c])
    ensures Targets(StripOutsideFences(Visible(source))) == []
    ensures Sanitize(Sanitize(source, scheme), scheme) != Sanitize(source, scheme)
  {
    HiddenLines(a, b, c);
    HiddenFacts(a, b, c);
    HiddenPlain(b, c);
    UnlinkedTwice(source, [a, b, c], [b, b, c], scheme);
  }

  lemma HiddenPlain(b: string, c: string)
    requires b == ['~', '~', '~'] && c == ['<', 'b', '>']
    ensures ')' !in b && ')' !in c
  {
  }

  lemma HiddenLines(a: string, b: string, c: string)
    requires a == ['<', 'b', '>', '~', '~', '~'] && b == ['~', '~', '~'] && c == ['<', 'b', '>']
    ensures Visible(JoinLines([a, b, c])) == JoinLines([a, b, c])
    ensures SplitLines(JoinLines([a, b, c])) == [a, b, c]
  {
    HiddenShown(a, b, c);
    SplitOfJoin([a, b, c]);
  }

  lemma HiddenFacts(a: string, b: string, c: string)
    requires a == ['<', 'b', '>', '~', '~', '~'] && b == ['~', '~', '~'] && c == ['<', 'b', '>']
    ensures StrippedLines([a, b, c]) == [b, b, c] && TagLeft([a, b, c]) && !BridgedTag([a, b, c])
  {
    HiddenTags(a, b, c);
    HiddenStripped(a, b, c);
    HiddenLeft(a, b, c);
  }

  lemma UnlinkedTwice(source: string, lines: seq<string>, stripped: seq<string>, scheme: string -> string)
    requires scheme(UNSAFE_LINK) == "" && Visible(source) == source
    requires SplitLines(source) == lines && StrippedLines(lines) == stripped && TagLeft(lines)
    requires forall k :: 0 <= k < |stripped| ==> ')' !in stripped[k]
    ensures Targets(StripOutsideFences(Visible(source))) == []
    ensures Sanitize(Sanitize(source, scheme), scheme) != Sanitize(source, scheme)
  {
    JoinPlain(stripped);
    NoParenNoTargets(JoinLines(stripped));
    forall k | 0 <= k < |stripped| ensures AllKept(Targets(stripped[k]), scheme) { NoTargetsKept(stripped[k], scheme); }
    TwiceBySourceIff(source, scheme);
  }

  lemma HiddenShown(a: string, b: string, c: string)
    requires a == ['<', 'b', '>', '~', '~', '~'] && b == ['~', '~', '~'] && c == ['<', 'b', '>']
    ensures Visible(JoinLines([a, b, c])) == JoinLines([a, b, c])
  {
    JoinCons(a, [b, c]);
    JoinCons(b, [c]);
    assert [a] + [b, c] == [a, b, c] && [b] + [c] == [b, c];
    ShownUnchanged(JoinLines([a, b, c]));
  }

  lemma {:induction false} JoinPlain(lines: seq<string>)
    requires forall k :: 0 <= k < |lines| ==> ')' !in lines[k]
    ensures ')' !in JoinLines(lines)
  {
    if |lines| > 1 {
      JoinPlain(lines[1..]);
      JoinHead(lines);
    }
  }

  lemma HiddenTags(a: string, b: string, c: string)
    requires a == ['<', 'b', '>', '~', '~', '~'] && b == ['~', '~', '~'] && c == ['<', 'b', '>']
    ensures RemoveTags(a) == b && !HasTag(b) && !Bridged(a, "") && HasTag(c)
    ensures MarkerOf(a) == None && MarkerOf(b) == Some(b) && MarkerOf(c) == None
  {
    SmallTag(c);
    SmallTagged(a, b);
    NoOpening(b);
    RemoveTagsFixes(b);
    TagsLeftIff(a);
    FenceMarker(b);
  }

  lemma FenceMarker(b: string)
    requires b == ['~', '~', '~']
    ensures MarkerOf(b) == Some(b)
  {
    assert LStrip(b) == b && b[..3] == b;
  }

  lemma SmallTag(c: string)
    requires c == ['<', 'b', '>']
    ensures HasTag(c)
  {
    ClosingCons('>', "");
    assert c[2..] == ['>'] + "";
    HasTagFirst(c);
  }

  lemma SmallTagged(a: string, b: string)
    requires a == ['<', 'b', '>'] + b && '<' !in b
    ensures RemoveTags(a) == b && TagLength(a) == 3
  {
    ClosingCons('>', b);
    assert a[2..] == ['>'] + b && a[3..] == b;
    RemoveTagsStep(a);
    NoOpening(b);
  }

  lemma HiddenStripped(a: string, b: string, c: string)
    requires RemoveTags(a) == b && MarkerOf(a) == None && MarkerOf(b) == Some(b) && MarkerOf(c) == None
    ensures StrippedLines([a, b, c]) == [b, b, c]
    ensures !Fenced([a, b, c], 0) && Fenced([a, b, c], 1) && Fenced([a, b, c], 2) && !Fenced([b, b, c], 2)
  {
    var lines := [a, b, c];
    ThreeFences(lines);
    ThreeFences([b, b, c]);
    StrippedAt(lines, 0);
    StrippedAt(lines, 1);
    StrippedAt(lines, 2);
  }

  lemma ThreeFences(lines: seq<string>)
    requires |lines| == 3
    ensures var ms := Markers(lines);
            && FenceAt(ms, 0) == None && FenceAt(ms, 1) == Toggle(None, MarkerOf(lines[0]))
            && FenceAt(ms, 2) == Toggle(Toggle(None, MarkerOf(lines[0])), MarkerOf(lines[1]))
  {
    FenceStep(Markers(lines), 0);
    FenceStep(Markers(lines), 1);
  }

  lemma HiddenLeft(a: string, b: string, c: string)
    requires StrippedLines([a, b, c]) == [b, b, c] && HasTag(c) && !Bridged(a, "")
    requires !Fenced([a, b, c], 0) && Fenced([a, b, c], 1) && Fenced([a, b, c], 2) && !Fenced([b, b, c], 2)
    ensures TagLeft([a, b, c]) && !BridgedTag([a, b, c])
  {
    assert [a, b, c][2] == c;
  }
}
