/** The image-markdown scanner, and what it finds in a text that another was appended to. */
module ImageMarkdown {
  import opened Wrappers
  import opened PyStrings

  // ---------------------------------------------------------------- the scanner

  /** The place of the first `]` behind `![`, the length of s when there is none. */
  function AltEnd(s: string): (p: nat)
    requires |s| >= 2
    ensures 2 <= p <= |s|
    ensures p < |s| ==> s[p] == ']'
    ensures forall k :: 2 <= k < p ==> s[k] != ']'
  {
    FindFrom(s, ']', 2)
  }

  /** The place of the first `)` behind `](` at p, the length of s when there is none. */
  function TargetEnd(s: string, p: nat): (e: nat)
    requires p + 2 <= |s|
    ensures p + 2 <= e <= |s|
    ensures e < |s| ==> s[e] == ')'
    ensures forall k :: p + 2 <= k < e ==> s[k] != ')'
  {
    FindFrom(s, ')', p + 2)
  }

  /** `!\[[^\]]*\]\(([^)]+)\)` at the start of s: where the target starts and ends. */
  function ImageAt(s: string): (r: Option<(nat, nat)>)
    ensures r.Some? ==> 4 <= r.value.0 < r.value.1 < |s|
  {
    if |s| < 2 || s[0] != '!' || s[1] != '[' then None
    else
      var p := AltEnd(s);
      if p + 2 > |s| || s[p + 1] != '(' then None
      else
        var e := TargetEnd(s, p);
        if e == p + 2 || e == |s| then None else Some((p + 2, e))
  }

  /** `extract_markdown_image_paths`. */
  function Paths(s: string): seq<string> {
    if s == "" then []
    else
      var m := ImageAt(s);
      if m.Some? then [Strip(s[m.value.0..m.value.1])] + Paths(s[m.value.1 + 1..]) else Paths(s[1..])
  }

  const SEPARATOR: string := ['\n', '\n']

  /** An image starts here whose text or whose target is never closed. */
  predicate Unclosed(s: string) {
    |s| >= 2 && s[0] == '!' && s[1] == '[' &&
    var p := AltEnd(s);
    p == |s| || (p + 2 <= |s| && s[p + 1] == '(' && TargetEnd(s, p) == |s|)
  }

  /** Behind its last complete image the text leaves an image open. */
  predicate Open(s: string)
    decreases |s|
  {
    s != "" &&
    var m := ImageAt(s);
    if m.Some? then Open(s[m.value.1 + 1..]) else Unclosed(s) || Open(s[1..])
  }

  // ---------------------------------------------------------------- concatenation

  lemma AltEndIs(s: string, p: nat)
    requires |s| >= 2 && 2 <= p <= |s| && (p < |s| ==> s[p] == ']') && forall k :: 2 <= k < p ==> s[k] != ']'
    ensures AltEnd(s) == p
  {
  }

  lemma TargetEndIs(s: string, p: nat, e: nat)
    requires p + 2 <= e <= |s| && (e < |s| ==> s[e] == ')') && forall k :: p + 2 <= k < e ==> s[k] != ')'
    ensures TargetEnd(s, p) == e
  {
  }

  /** What follows a blank line changes no image that is complete, and completes none that was not left open. */
  lemma ImageAtAppend(a: string, w: string)
    requires a != "" && !Unclosed(a)
    requires w != "" && w[0] == '\n'
    ensures ImageAt(a + w) == ImageAt(a)
  {
    var s := a + w;
    if |a| >= 2 && a[0] == '!' && a[1] == '[' {
      var p := AltEnd(a);
      AltEndIs(s, p);
      if p + 2 <= |a| && a[p + 1] == '(' {
        var e := TargetEnd(a, p);
        TargetEndIs(s, p, e);
      } else if p + 1 == |a| {
        assert s[p + 1] == '\n';
      }
    } else if |a| == 1 {
      assert s[1] == '\n';
    }
  }

  /** How far the scanner moves in one step, and what it yields. */
  function StepOf(s: string): (n: nat)
    requires s != ""
    ensures 1 <= n <= |s|
  {
    if ImageAt(s).Some? then ImageAt(s).value.1 + 1 else 1
  }

  function HeadOf(s: string): seq<string> {
    if ImageAt(s).Some? then [Strip(s[ImageAt(s).value.0..ImageAt(s).value.1])] else []
  }

  lemma PathsUnfold(s: string)
    requires s != ""
    ensures Paths(s) == HeadOf(s) + Paths(s[StepOf(s)..])
  {
  }

  lemma OpenUnfold(s: string)
    requires s != "" && !Unclosed(s)
    ensures Open(s) <==> Open(s[StepOf(s)..])
  {
  }

  lemma StepAppend(a: string, w: string)
    requires a != "" && !Unclosed(a)
    requires w != "" && w[0] == '\n'
    ensures StepOf(a + w) == StepOf(a) && HeadOf(a + w) == HeadOf(a)
  {
    ImageAtAppend(a, w);
    var m := ImageAt(a);
    if m.Some? { assert (a + w)[m.value.0..m.value.1] == a[m.value.0..m.value.1]; }
  }

  lemma DropAppend(a: string, w: string, n: nat)
    requires n <= |a|
    ensures (a + w)[n..] == a[n..] + w
  {
  }

  lemma PathsStep(a: string, w: string)
    requires a != "" && !Unclosed(a)
    requires w != "" && w[0] == '\n'
    ensures Paths(a + w) == HeadOf(a) + Paths(a[StepOf(a)..] + w)
  {
    StepAppend(a, w);
    PathsUnfold(a + w);
    DropAppend(a, w, StepOf(a));
  }

  // ---------------------------------------------------------------- what an open image does to an appended text

  /** What a text leaves open behind its last complete image: nothing, an alt text, or a target begun with this. */
  datatype Ending = Closed | AltLeft | TargetLeft(target: string)

  function EndingOf(s: string): Ending
    decreases |s|
  {
    if s == "" then Closed
    else
      var m := ImageAt(s);
      if m.Some? then EndingOf(s[m.value.1 + 1..])
      else if Unclosed(s) then (if AltEnd(s) == |s| then AltLeft else TargetLeft(s[AltEnd(s) + 2..]))
      else EndingOf(s[1..])
  }

  /** The paths of an appended text as the scanner finds them: an open alt text takes the first `]` for its own, an
      open target runs on to the first `)`. */
  function Tail(e: Ending, m: string): seq<string> {
    match e
    case Closed => Paths(m)
    case AltLeft => Paths(['!', '['] + m)
    case TargetLeft(t) =>
      var j := FindFrom(m, ')', 0);
      if j == |m| then [] else [Strip(t + (SEPARATOR + m[..j]))] + Paths(m[j + 1..])
  }

  lemma EndingUnfold(s: string)
    requires s != "" && !Unclosed(s)
    ensures EndingOf(s) == EndingOf(s[StepOf(s)..])
  {
  }

  lemma {:induction false} OpenEnding(s: string)
    ensures Open(s) <==> EndingOf(s) != Closed
    decreases |s|
  {
    if s != "" {
      if Unclosed(s) {
        UnclosedIsOpen(s);
      } else {
        OpenUnfold(s);
        EndingUnfold(s);
        OpenEnding(s[StepOf(s)..]);
      }
    }
  }

  /** The first `]` of m closes an alt text into an image: where its target starts and ends. */
  function AltClosedBy(m: string): (r: Option<(nat, nat)>)
    ensures r.Some? ==> 2 <= r.value.0 < r.value.1 < |m|
  {
    var b := FindFrom(m, ']', 0);
    if b + 2 > |m| || m[b + 1] != '(' then None
    else
      var e := TargetEnd(m, b);
      if e == b + 2 || e == |m| then None else Some((b + 2, e))
  }

  // The shapes below say position by position what the scanner's functions find.

  /** An image at the start of s, with its `]` at p and its `)` at e. */
  ghost predicate ImageShape(s: string, p: nat, e: nat) {
    && 2 <= p && p + 2 < e < |s| && s[0] == '!' && s[1] == '[' && s[p] == ']' && s[p + 1] == '(' && s[e] == ')'
    && (forall k :: 2 <= k < p ==> s[k] != ']') && (forall k :: p + 2 <= k < e ==> s[k] != ')')
  }

  /** An image at the start of u whose target, behind the `]` at p, nothing closes. */
  ghost predicate TargetShape(u: string, p: nat) {
    && 2 <= p && p + 2 <= |u| && u[0] == '!' && u[1] == '[' && u[p] == ']' && u[p + 1] == '('
    && (forall k :: 2 <= k < p ==> u[k] != ']') && (forall k :: p + 2 <= k < |u| ==> u[k] != ')')
  }

  /** An open alt text at the start of x: nothing closes it. */
  ghost predicate AltShape(x: string) { |x| >= 2 && x[0] == '!' && x[1] == '[' && forall k :: 0 <= k < |x| ==> x[k] != ']' }

  /** The first `]` of m, at b, is followed by a target up to e. */
  ghost predicate ClosesShape(m: string, b: nat, e: nat) {
    && b + 2 < e < |m| && m[b] == ']' && m[b + 1] == '(' && m[e] == ')'
    && (forall k :: 0 <= k < b ==> m[k] != ']') && (forall k :: b + 2 <= k < e ==> m[k] != ')')
  }

  lemma ShapedImage(s: string, p: nat, e: nat)
    requires ImageShape(s, p, e)
    ensures ImageAt(s) == Some((p + 2, e))
  {
    AltEndIs(s, p);
    TargetEndIs(s, p, e);
  }

  lemma ImageShaped(s: string)
    requires ImageAt(s).Some?
    ensures ImageShape(s, AltEnd(s), ImageAt(s).value.1) && ImageAt(s).value.0 == AltEnd(s) + 2
  {
  }

  lemma TargetShaped(u: string)
    requires Unclosed(u) && AltEnd(u) < |u|
    ensures TargetShape(u, AltEnd(u))
  {
  }

  lemma ClosesShaped(m: string)
    requires AltClosedBy(m).Some?
    ensures var (a, e) := AltClosedBy(m).value; ClosesShape(m, a - 2, e)
  {
  }

  /** The scanner takes an image, and goes on behind it. */
  lemma ImageTaken(s: string, p: nat, e: nat, target: string, rest: string)
    requires ImageShape(s, p, e) && s[p + 2..e] == target && s[e + 1..] == rest
    ensures Paths(s) == [Strip(target)] + Paths(rest)
  {
    ShapedImage(s, p, e);
    TakenAt(s, p + 2, e, target, rest);
  }

  lemma TakenAt(s: string, from: nat, to: nat, target: string, rest: string)
    requires ImageAt(s) == Some((from, to)) && from <= to < |s| && s[from..to] == target && s[to + 1..] == rest
    ensures Paths(s) == [Strip(target)] + Paths(rest)
  {
    PathsUnfold(s);
    HeadIs(s, from, to);
  }

  lemma HeadIs(s: string, from: nat, to: nat)
    requires ImageAt(s) == Some((from, to)) && from <= to < |s|
    ensures HeadOf(s) == [Strip(s[from..to])] && StepOf(s) == to + 1
  {
  }

  lemma Behind(x: string, m: string, a: nat, e: nat)
    requires a <= e < |m|
    ensures (x + m)[|x| + a..|x| + e] == m[a..e] && (x + m)[|x| + e + 1..] == m[e + 1..]
  {
  }

  lemma AltThenCloses(x: string, m: string, b: nat, e: nat)
    requires AltShape(x) && ClosesShape(m, b, e)
    ensures ImageShape(x + m, |x| + b, |x| + e)
  {
    var s := x + m;
    forall k | 0 <= k < |m| ensures s[|x| + k] == m[k] {}
    forall k | 0 <= k < |x| ensures s[k] == x[k] {}
    forall k | 2 <= k < |x| + b ensures s[k] != ']' { if k >= |x| { assert s[|x| + (k - |x|)] == m[k - |x|]; } }
    forall k | |x| + b + 2 <= k < |x| + e ensures s[k] != ')' { assert s[|x| + (k - |x|)] == m[k - |x|]; }
  }

  /** An open alt text takes the target that follows the first `]` behind it. */
  lemma AltTaken(x: string, m: string, b: nat, e: nat)
    requires AltShape(x) && ClosesShape(m, b, e)
    ensures Paths(x + m) == [Strip(m[b + 2..e])] + Paths(m[e + 1..])
  {
    AltThenCloses(x, m, b, e);
    Behind(x, m, b + 2, e);
    ImageTaken(x + m, |x| + b, |x| + e, m[b + 2..e], m[e + 1..]);
  }

  lemma OpenedTaken(m: string, b: nat, e: nat)
    requires ClosesShape(m, b, e)
    ensures Tail(AltLeft, m) == [Strip(m[b + 2..e])] + Paths(m[e + 1..])
  {
    AltTaken(['!', '['], m, b, e);
  }

  lemma AltEndBehind(x: string, m: string)
    requires AltShape(x)
    ensures AltEnd(x + m) == |x| + FindFrom(m, ']', 0)
  {
    var s, b := x + m, FindFrom(m, ']', 0);
    forall k | 2 <= k < |x| + b ensures s[k] != ']' {
      if k >= |x| { assert s[k] == m[k - |x|]; }
    }
    AltEndIs(s, |x| + b);
  }

  lemma TargetEndBehind(x: string, m: string, b: nat)
    requires b + 2 <= |m|
    ensures TargetEnd(x + m, |x| + b) == |x| + TargetEnd(m, b)
  {
    TargetEndIs(x + m, |x| + b, |x| + TargetEnd(m, b));
  }

  lemma AltNotClosed(x: string, m: string)
    requires AltShape(x) && AltClosedBy(m) == None
    ensures ImageAt(x + m) == None
  {
    var b := FindFrom(m, ']', 0);
    AltEndBehind(x, m);
    if b + 2 <= |m| {
      TargetEndBehind(x, m, b);
      assert (x + m)[|x| + b + 1] == m[b + 1];
    }
  }

  lemma NoImageHere(s: string, rest: string)
    requires s != "" && ImageAt(s) == None && s[1..] == rest
    ensures Paths(s) == Paths(rest)
  {
  }

  /** An alt text that the next text does not close into an image hides nothing of it. */
  lemma {:induction false} SkipAlt(x: string, m: string)
    requires (forall k :: 0 <= k < |x| ==> x[k] != ']') && AltClosedBy(m) == None
    requires x == "" || x[|x| - 1] != '!'
    ensures Paths(x + m) == Paths(m)
  {
    if x == "" {
      assert x + m == m;
    } else {
      if |x| >= 2 && x[0] == '!' && x[1] == '[' { AltNotClosed(x, m); }
      assert (x + m)[0] == x[0] && (|x| >= 2 ==> (x + m)[1] == x[1]);
      DropAppend(x, m, 1);
      NoImageHere(x + m, x[1..] + m);
      SkipAlt(x[1..], m);
    }
  }

  /** An alt text left open takes the first `]` of what follows for its own. */
  lemma AltTail(u: string, m: string)
    requires Unclosed(u) && AltEnd(u) == |u|
    ensures Paths(u + (SEPARATOR + m)) == Tail(AltLeft, m)
  {
    var x := u + SEPARATOR;
    assert u + (SEPARATOR + m) == x + m;
    AltShaped(u);
    AltBehind(x, m);
  }

  lemma AltShaped(u: string)
    requires Unclosed(u) && AltEnd(u) == |u|
    ensures AltShape(u + SEPARATOR)
  {
  }

  lemma AltBehind(x: string, m: string)
    requires AltShape(x) && x[|x| - 1] != '!'
    ensures Paths(x + m) == Tail(AltLeft, m)
  {
    if AltClosedBy(m).Some? {
      var (a, e) := AltClosedBy(m).value;
      ClosesShaped(m);
      AltTaken(x, m, a - 2, e);
      OpenedTaken(m, a - 2, e);
    } else {
      SkipAlt(x, m);
      SkipAlt(['!', '['], m);
    }
  }

  /** A target left open runs on to the first `)` of what follows. */
  lemma TargetTail(u: string, m: string)
    requires Unclosed(u) && AltEnd(u) < |u|
    ensures Paths(u + (SEPARATOR + m)) == Tail(TargetLeft(u[AltEnd(u) + 2..]), m)
  {
    TargetShaped(u);
    TargetTailAt(u, AltEnd(u), u[AltEnd(u) + 2..], m, FindFrom(m, ')', 0));
  }

  lemma TargetTailAt(u: string, p: nat, t: string, m: string, j: nat)
    requires TargetShape(u, p) && t == u[p + 2..] && j == FindFrom(m, ')', 0)
    ensures Paths(u + (SEPARATOR + m)) == Tail(TargetLeft(t), m)
  {
    if j < |m| {
      TargetTaken(u, m, p, j);
      TailClosed(t, m, j);
    } else {
      TargetNeverClosed(u + (SEPARATOR + m), u, p, m);
    }
  }

  lemma TailClosed(t: string, m: string, j: nat)
    requires j == FindFrom(m, ')', 0) < |m|
    ensures Tail(TargetLeft(t), m) == [Strip(t + (SEPARATOR + m[..j]))] + Paths(m[j + 1..])
  {
  }

  lemma TargetTaken(u: string, m: string, p: nat, j: nat)
    requires TargetShape(u, p) && j < |m| && m[j] == ')' && forall k :: 0 <= k < j ==> m[k] != ')'
    ensures Paths(u + (SEPARATOR + m)) == [Strip(u[p + 2..] + (SEPARATOR + m[..j]))] + Paths(m[j + 1..])
  {
    TargetCloses(u, m, p, j);
    TargetParts(u, m, p, j);
    ImageTaken(u + (SEPARATOR + m), p, |u| + 2 + j, u[p + 2..] + (SEPARATOR + m[..j]), m[j + 1..]);
  }

  lemma TargetCloses(u: string, m: string, p: nat, j: nat)
    requires TargetShape(u, p) && j < |m| && m[j] == ')' && forall k :: 0 <= k < j ==> m[k] != ')'
    ensures ImageShape(u + (SEPARATOR + m), p, |u| + 2 + j)
  {
    var s := u + (SEPARATOR + m);
    forall k | 0 <= k < |m| ensures s[|u| + 2 + k] == m[k] {}
    forall k | p + 2 <= k < |u| + 2 + j ensures s[k] != ')' {
      if k >= |u| + 2 { assert s[|u| + 2 + (k - |u| - 2)] == m[k - |u| - 2]; }
    }
  }

  lemma TargetParts(u: string, m: string, p: nat, j: nat)
    requires p + 2 <= |u| && j < |m|
    ensures (u + (SEPARATOR + m))[p + 2..|u| + 2 + j] == u[p + 2..] + (SEPARATOR + m[..j])
    ensures (u + (SEPARATOR + m))[|u| + 3 + j..] == m[j + 1..]
  {
  }

  lemma TargetNeverClosed(s: string, u: string, p: nat, m: string)
    requires TargetShape(u, p) && FindFrom(m, ')', 0) == |m| && s == u + (SEPARATOR + m)
    ensures Paths(s) == []
  {
    forall i, k | 0 <= i && i + 2 <= k < |s| && s[i] == ']' ensures s[k] != ')' {
      assert i >= p;
      if k >= |u| + 2 { assert s[k] == m[k - |u| - 2]; }
    }
    NoCloseNoPaths(s);
  }

  /** What the scanner finds in any text with any other appended behind a blank line: the paths of the first, then
      those of the second as the first's ending lets them through. */
  lemma {:induction false} ScanAppended(c: string, m: string)
    ensures Paths(c + (SEPARATOR + m)) == Paths(c) + Tail(EndingOf(c), m)
    decreases |c|
  {
    if c == "" {
      SeparatorSkipped(m);
      assert c + (SEPARATOR + m) == SEPARATOR + m;
    } else if Unclosed(c) {
      UnclosedHasNoPaths(c);
      UnclosedIsOpen(c);
      if AltEnd(c) == |c| { AltTail(c, m); } else { TargetTail(c, m); }
    } else {
      EndingUnfold(c);
      ScanAppended(c[StepOf(c)..], m);
      PathsStep(c, SEPARATOR + m);
      PathsUnfold(c);
    }
  }

  /** Scanning distributes over appending a text behind a blank line when no image is left open. */
  lemma ScanDistributes(a: string, b: string)
    requires !Open(a)
    ensures Paths(a + (SEPARATOR + b)) == Paths(a) + Paths(b)
  {
    ScanAppended(a, b);
    OpenEnding(a);
  }

  // ---------------------------------------------------------------- markdown that leads with an image

  /** The target of an image is left open. */
  predicate TargetOpen(s: string) { EndingOf(s).TargetLeft? }

  /** The text starts with an image whose alt text holds no `)`, as the tool's own markdown does. */
  predicate Leads(m: string) { ImageAt(m).Some? && forall k :: 0 <= k < AltEnd(m) ==> m[k] != ')' }

  lemma LeadingShape(m: string)
    requires Leads(m)
    ensures ImageShape(m, AltEnd(m), ImageAt(m).value.1) && ImageAt(m).value.0 == AltEnd(m) + 2
    ensures ClosesShape(m, AltEnd(m), ImageAt(m).value.1)
    ensures FindFrom(m, ')', 0) == ImageAt(m).value.1
    ensures AltClosedBy(m).Some?
  {
    var p, e := AltEnd(m), ImageAt(m).value.1;
    ImageShaped(m);
    FindFromIs(m, ']', 0, p);
    FindFromIs(m, ')', 0, e);
  }

  /** The text that an open target makes of the leading image. */
  function Swallowed(t: string, m: string): string
    requires ImageAt(m).Some?
  {
    Strip(t + (SEPARATOR + m[..ImageAt(m).value.1]))
  }

  function Leading(m: string): string
    requires ImageAt(m).Some?
  {
    Strip(m[ImageAt(m).value.0..ImageAt(m).value.1])
  }

  function AfterLeading(m: string): seq<string>
    requires ImageAt(m).Some?
  {
    Paths(m[ImageAt(m).value.1 + 1..])
  }

  lemma LeadingPaths(m: string)
    requires ImageAt(m).Some?
    ensures Paths(m) == [Leading(m)] + AfterLeading(m)
  {
    PathsUnfold(m);
  }

  /** An open alt text ends where the leading image's own would: the image is found all the same. */
  lemma LeadingBehindAlt(m: string)
    requires Leads(m)
    ensures Tail(AltLeft, m) == Paths(m)
  {
    LeadingShape(m);
    LeadingPaths(m);
    OpenedTaken(m, AltEnd(m), ImageAt(m).value.1);
  }

  /** An open target takes the leading image for its own text. */
  lemma LeadingBehindTarget(t: string, m: string)
    requires Leads(m)
    ensures Tail(TargetLeft(t), m) == [Swallowed(t, m)] + AfterLeading(m)
  {
    LeadingCloses(m);
    LeadingTail(t, m, ImageAt(m).value.1);
  }

  lemma LeadingTail(t: string, m: string, e: nat)
    requires ImageAt(m).Some? && ImageAt(m).value.1 == e && FindFrom(m, ')', 0) == e
    ensures Tail(TargetLeft(t), m) == [Swallowed(t, m)] + AfterLeading(m)
  {
    TailClosed(t, m, e);
  }

  lemma LeadingCloses(m: string)
    requires Leads(m)
    ensures FindFrom(m, ')', 0) == ImageAt(m).value.1
  {
    LeadingShape(m);
  }

  lemma SwallowedDiffers(t: string, m: string)
    requires ImageAt(m).Some?
    ensures |Swallowed(t, m)| > |Leading(m)|
  {
    var (a, e) := ImageAt(m).value;
    ImageShaped(m);
    LeadingSplit(t, m, a, e);
    SwallowedLonger(t + (SEPARATOR + m[..a]), m[a..e]);
  }

  lemma LeadingSplit(t: string, m: string, a: nat, e: nat)
    requires 1 <= a <= e <= |m| && m[a - 1] == '('
    ensures t + (SEPARATOR + m[..e]) == (t + (SEPARATOR + m[..a])) + m[a..e]
    ensures var x := t + (SEPARATOR + m[..a]); |x| >= 1 && x[|x| - 1] == '('
  {
    assert m[..e] == m[..a] + m[a..e];
  }

  /** Stripping keeps a character that is no white space and all that stands between it and the last such. */
  lemma SwallowedLonger(x: string, y: string)
    requires |x| >= 1 && !IsSpace(x[|x| - 1])
    ensures |Strip(x + y)| > |Strip(y)|
  {
    StripReach(x + y, |x| - 1);
    if Strip(y) != "" {
      var n := |y| - |LStrip(y)|;
      LStripFacts(y);
      RStripFacts(LStrip(y));
      var last := n + |Strip(y)| - 1;
      assert y[n..] == LStrip(y);
      assert !IsSpace(y[last]);
      assert (x + y)[|x| + last] == y[last];
      StripSpan(x + y, |x| - 1, |x| + last);
    }
  }

  lemma StripReach(s: string, i: nat)
    requires i < |s| && !IsSpace(s[i])
    ensures |Strip(s)| >= 1
  {
    StripSpan(s, i, i);
  }

  lemma StripSpan(s: string, i: nat, j: nat)
    requires i <= j < |s| && !IsSpace(s[i]) && !IsSpace(s[j])
    ensures |Strip(s)| >= j - i + 1
  {
    var n := |s| - |LStrip(s)|;
    LStripLeaves(s, i);
    LStripFacts(s);
    assert LStrip(s)[j - n] == s[j];
    RStripLeaves(LStrip(s), j - n);
  }

  lemma {:induction false} LStripLeaves(s: string, i: nat)
    requires i < |s| && !IsSpace(s[i])
    ensures |LStrip(s)| >= |s| - i
  {
    if IsSpace(s[0]) { LStripLeaves(s[1..], i - 1); }
  }

  lemma {:induction false} RStripLeaves(s: string, j: nat)
    requires j < |s| && !IsSpace(s[j])
    ensures |RStrip(s)| > j
  {
    if IsSpace(s[|s| - 1]) { RStripLeaves(s[..|s| - 1], j); }
  }

  /** A leading image appended to an answer is found exactly unless the answer leaves an image target open. */
  lemma LeadingDistributesIff(c: string, m: string)
    requires Leads(m)
    ensures Paths(c + (SEPARATOR + m)) == Paths(c) + Paths(m) <==> !TargetOpen(c)
  {
    ScanAppended(c, m);
    match EndingOf(c)
    case Closed =>
    case AltLeft => LeadingBehindAlt(m);
    case TargetLeft(t) =>
      LeadingBehindTarget(t, m);
      LeadingPaths(m);
      SwallowedDiffers(t, m);
      HeadsDiffer(Paths(c), Swallowed(t, m), Leading(m), AfterLeading(m));
  }

  lemma HeadsDiffer(p: seq<string>, x: string, y: string, q: seq<string>)
    requires x != y
    ensures p + ([x] + q) != p + ([y] + q)
  {
    assert (p + ([x] + q))[|p|] == x && (p + ([y] + q))[|p|] == y;
  }

  // ---------------------------------------------------------------- trailing white space

  lemma FindBehind(s: string, w: string, c: char, i: nat)
    requires i <= |s| && c !in w
    ensures FindFrom(s + w, c, i) == if FindFrom(s, c, i) < |s| then FindFrom(s, c, i) else |s + w|
  {
    var r := FindFrom(s, c, i);
    if r < |s| {
      FindFromIs(s + w, c, i, r);
    } else {
      forall k | i <= k < |s + w| ensures (s + w)[k] != c {
        if k >= |s| { assert (s + w)[k] == w[k - |s|]; }
      }
      FindFromIs(s + w, c, i, |s + w|);
    }
  }

  lemma SpaceIsPlain(w: string)
    requires AllSpace(w)
    ensures ']' !in w && ')' !in w && '(' !in w && '[' !in w
  {
    forall c | c in w ensures IsSpace(c) { var i :| 0 <= i < |w| && w[i] == c; }
  }

  lemma ImageAtSpace(s: string, w: string)
    requires s != "" && AllSpace(w)
    ensures ImageAt(s + w) == ImageAt(s)
  {
    SpaceIsPlain(w);
    if w != "" { FirstBehind(s, w); }
    if |s| >= 2 && s[0] == '!' && s[1] == '[' {
      AltEndSpace(s, w);
      if AltEnd(s) + 2 <= |s| && s[AltEnd(s) + 1] == '(' { TargetEndSpace(s, w, AltEnd(s)); }
    }
  }

  lemma FirstBehind(s: string, w: string)
    requires w != ""
    ensures (s + w)[|s|] in w
  {
    assert (s + w)[|s|] == w[0];
  }

  lemma AltEndSpace(s: string, w: string)
    requires |s| >= 2 && ']' !in w
    ensures AltEnd(s + w) == if AltEnd(s) < |s| then AltEnd(s) else |s + w|
  {
    FindBehind(s, w, ']', 2);
  }

  lemma TargetEndSpace(s: string, w: string, p: nat)
    requires p + 2 <= |s| && ')' !in w
    ensures TargetEnd(s + w, p) == if TargetEnd(s, p) < |s| then TargetEnd(s, p) else |s + w|
  {
    FindBehind(s, w, ')', p + 2);
  }

  lemma {:induction false} PathsDropSpace(s: string, w: string)
    requires AllSpace(w)
    ensures Paths(s + w) == Paths(s)
    decreases |s|
  {
    if s == "" {
      SpaceIsPlain(w);
      assert NoImageCloses(w);
      NoCloseNoPaths(w);
      assert s + w == w;
    } else {
      ImageAtSpace(s, w);
      PathsDropSpace(s[StepOf(s)..], w);
      PathsUnfold(s);
      PathsUnfold(s + w);
      DropAppend(s, w, StepOf(s));
      SameHead(s, w);
    }
  }

  lemma SameHead(s: string, w: string)
    requires s != "" && ImageAt(s + w) == ImageAt(s)
    ensures StepOf(s + w) == StepOf(s) && HeadOf(s + w) == HeadOf(s)
  {
    var m := ImageAt(s);
    if m.Some? { assert (s + w)[m.value.0..m.value.1] == s[m.value.0..m.value.1]; }
  }

  lemma PathsOfTrimmed(s: string)
    ensures Paths(RStrip(s)) == Paths(s)
  {
    RStripFacts(s);
    var r := RStrip(s);
    PathsDropSpace(r, s[|r|..]);
    assert s == r + s[|r|..];
  }

  // ---------------------------------------------------------------- distribution over every text

  lemma SeparatorSkipped(b: string)
    ensures Paths(SEPARATOR + b) == Paths(b)
  {
    var w := SEPARATOR + b;
    assert w[1..] == ['\n'] + b && w[1..][1..] == b;
    assert ImageAt(w) == None && ImageAt(w[1..]) == None;
  }

  lemma UnclosedIsOpen(a: string)
    ensures a != "" && Unclosed(a) ==> Open(a) && ImageAt(a) == None
  {
  }

  /** A `)` never stands two places or more behind a `]`. */
  ghost predicate NoImageCloses(s: string) {
    forall i, j :: 0 <= i && i + 2 <= j < |s| && s[i] == ']' ==> s[j] != ')'
  }

  lemma {:induction false} NoCloseNoPaths(s: string)
    requires NoImageCloses(s)
    ensures Paths(s) == []
  {
    if s != "" {
      assert NoImageCloses(s[1..]) by {
        forall i, j | 0 <= i && i + 2 <= j < |s[1..]| && s[1..][i] == ']' ensures s[1..][j] != ')' {
          assert s[i + 1] == ']';
        }
      }
      NoCloseNoPaths(s[1..]);
    }
  }

  lemma UnclosedHasNoPaths(a: string)
    requires Unclosed(a)
    ensures Paths(a) == []
  {
    var p := AltEnd(a);
    forall i, j | 0 <= i && i + 2 <= j < |a| && a[i] == ']' ensures a[j] != ')' {
      assert i >= p;
    }
    NoCloseNoPaths(a);
  }

  /** An image left open takes the first text that closes it as its own target. */
  lemma UnclosedWitness(a: string) returns (b: string)
    requires Unclosed(a)
    ensures Paths(b) == [] && |Paths(a + (SEPARATOR + b))| == 1
  {
    if AltEnd(a) == |a| {
      b := [']', '(', 'x', ')'];
      AltClosed(a, b);
    } else {
      b := [')'];
      TargetClosed(a, b);
    }
    ShortNoPaths(b);
  }

  lemma AltClosed(a: string, b: string)
    requires Unclosed(a) && AltEnd(a) == |a| && b == [']', '(', 'x', ')']
    ensures |Paths(a + (SEPARATOR + b))| == 1
  {
    var s := a + (SEPARATOR + b);
    AltEndIs(s, |a| + 2);
    TargetEndIs(s, |a| + 2, |a| + 5);
    LastImage(s, |a| + 4, |a| + 5);
  }

  lemma TargetClosed(a: string, b: string)
    requires Unclosed(a) && AltEnd(a) < |a| && b == [')']
    ensures |Paths(a + (SEPARATOR + b))| == 1
  {
    var s, p := a + (SEPARATOR + b), AltEnd(a);
    AltEndIs(s, p);
    TargetEndIs(s, p, |a| + 2);
    LastImage(s, p + 2, |a| + 2);
  }

  lemma LastImage(s: string, from: nat, to: nat)
    requires ImageAt(s) == Some((from, to)) && to + 1 == |s|
    ensures |Paths(s)| == 1
  {
    assert s[to + 1..] == "";
  }

  lemma ShortNoPaths(b: string)
    requires '!' !in b
    ensures Paths(b) == []
  {
    if b != "" { ShortNoPaths(b[1..]); }
  }

  lemma {:induction false} OpenWitness(a: string) returns (b: string)
    requires Open(a)
    ensures Paths(a + (SEPARATOR + b)) != Paths(a) + Paths(b)
    decreases |a|
  {
    if Unclosed(a) {
      b := UnclosedWitness(a);
      UnclosedHasNoPaths(a);
    } else {
      var n := StepOf(a);
      OpenUnfold(a);
      b := OpenWitness(a[n..]);
      PathsStep(a, SEPARATOR + b);
      PathsUnfold(a);
      CancelHead(HeadOf(a), Paths(a[n..] + (SEPARATOR + b)), Paths(a[n..]), Paths(b));
    }
  }

  lemma CancelHead(h: seq<string>, x: seq<string>, y: seq<string>, z: seq<string>)
    requires x != y + z
    ensures h + x != (h + y) + z
  {
    assert (h + x)[|h|..] == x && ((h + y) + z)[|h|..] == y + z;
  }

  /** Exactly the answers that leave no image open can have any markdown appended without
      disturbing the scan. */
  lemma ScanDistributesIff(a: string)
    ensures (forall b :: Paths(a + (SEPARATOR + b)) == Paths(a) + Paths(b)) <==> !Open(a)
  {
    if Open(a) {
      var b := OpenWitness(a);
    } else {
      forall b ensures Paths(a + (SEPARATOR + b)) == Paths(a) + Paths(b) { ScanDistributes(a, b); }
    }
  }
}
