/** The CommonMark sanitizer: every regular expression as a leftmost, non-overlapping scan. */
module CommonMark {
  import opened Wrappers
  import opened PyStrings

  const ESC: char := '\U{1B}'
  const BEL: char := '\U{07}'

  // ---------------------------------------------------------------- terminal sequences and controls

  /** The length of the run of characters of a class at the start of s. */
  function Span(s: string, inClass: char -> bool): (n: nat)
    ensures n <= |s|
    ensures forall k :: 0 <= k < n ==> inClass(s[k])
    ensures n < |s| ==> !inClass(s[n])
  {
    if s != "" && inClass(s[0]) then 1 + Span(s[1..], inClass) else 0
  }

  /** `\x1b\[[0-?]*[ -/]*[@-~]` after the first two characters. */
  function CsiLength(s: string): (n: nat)
    requires |s| >= 2
    ensures n <= |s|
  {
    var i := 2 + Span(s[2..], (c: char) => '0' <= c <= '?');
    var j := i + Span(s[i..], (c: char) => ' ' <= c <= '/');
    if j < |s| && '@' <= s[j] <= '~' then j + 1 else 0
  }

  /** The end of the last string terminator in s, or 0. */
  function LastTerminator(s: string): (n: nat)
    ensures n <= |s|
  {
    if |s| < 2 then 0
    else if s[|s| - 2] == ESC && s[|s| - 1] == '\\' then |s|
    else LastTerminator(s[..|s| - 1])
  }

  /** `\x1b\][^\x07]*(?:\x07|\x1b\\)`: up to the first bell, else to the last terminator. */
  function OscLength(s: string): (n: nat)
    requires |s| >= 2
    ensures n <= |s|
  {
    var bell := Find(s[2..], BEL);
    if 2 + bell < |s| then 2 + bell + 1
    else if LastTerminator(s[2..]) > 0 then 2 + LastTerminator(s[2..])
    else 0
  }

  function AnsiLength(s: string): (n: nat)
    ensures n <= |s|
  {
    if |s| < 2 || s[0] != ESC then 0
    else if s[1] == '[' && CsiLength(s) > 0 then CsiLength(s)
    else if s[1] == ']' && OscLength(s) > 0 then OscLength(s)
    else if s[1] != '\n' then 2
    else 0
  }

  /** `pattern.sub("", s)`, where `match` gives the length of the match at the start of a text. */
  function Remove(s: string, match_: string -> nat): string {
    if s == "" then ""
    else
      var n := match_(s);
      if 0 < n <= |s| then Remove(s[n..], match_) else [s[0]] + Remove(s[1..], match_)
  }

  predicate IsControl(c: char) {
    c <= '\U{08}' || c == '\U{0B}' || c == '\U{0C}' || '\U{0E}' <= c <= '\U{1F}' || c == '\U{7F}'
  }

  function RemoveControls(s: string): string {
    if s == "" then "" else (if IsControl(s[0]) then "" else [s[0]]) + RemoveControls(s[1..])
  }

  function ReplaceCrLf(s: string): string {
    if s == "" then ""
    else if |s| >= 2 && s[0] == '\r' && s[1] == '\n' then "\n" + ReplaceCrLf(s[2..])
    else [s[0]] + ReplaceCrLf(s[1..])
  }

  function ReplaceCr(s: string): string {
    if s == "" then "" else [if s[0] == '\r' then '\n' else s[0]] + ReplaceCr(s[1..])
  }

  // ---------------------------------------------------------------- tags

  predicate IsLetter(c: char) { 'A' <= c <= 'Z' || 'a' <= c <= 'z' }

  /** `</?[A-Za-z]` at the start of s. */
  function OpeningLength(s: string): (n: nat)
    ensures n <= |s|
  {
    if |s| >= 2 && s[0] == '<' && IsLetter(s[1]) then 2
    else if |s| >= 3 && s[0] == '<' && s[1] == '/' && IsLetter(s[2]) then 3
    else 0
  }

  /** `[^>\n]*>` at the start of s. */
  function ClosingLength(s: string): (n: nat)
    ensures n <= |s|
    ensures n > 0 ==> s[n - 1] == '>'
  {
    if s == "" || s[0] == '\n' then 0
    else if s[0] == '>' then 1
    else if ClosingLength(s[1..]) > 0 then 1 + ClosingLength(s[1..])
    else 0
  }

  /** `</?[A-Za-z][^>\n]*>` at the start of s. */
  function TagLength(s: string): (n: nat)
    ensures n <= |s|
  {
    var k := OpeningLength(s);
    if k > 0 && ClosingLength(s[k..]) > 0 then k + ClosingLength(s[k..]) else 0
  }

  function RemoveTags(s: string): string { Remove(s, TagLength) }

  /** The tag pattern matches somewhere in s. */
  ghost predicate HasTag(s: string) { exists i :: 0 <= i < |s| && TagLength(s[i..]) > 0 }

  // ---------------------------------------------------------------- lines and fences

  predicate IsBreak(c: char) {
    c == '\n' || c == '\r' || c == '\U{0B}' || c == '\U{0C}' || '\U{1C}' <= c <= '\U{1E}' || c == '\U{85}'
    || c == '\U{2028}' || c == '\U{2029}'
  }

  /** The first line break from place i on, the length of s when there is none. */
  function BreakFrom(s: string, i: nat): (r: nat)
    requires i <= |s|
    ensures i <= r <= |s|
    ensures r < |s| ==> IsBreak(s[r])
    ensures forall k :: i <= k < r ==> !IsBreak(s[k])
    decreases |s| - i
  {
    if i == |s| || IsBreak(s[i]) then i else BreakFrom(s, i + 1)
  }

  /** `str.splitlines`. */
  function SplitLines(s: string): seq<string> {
    if s == "" then []
    else
      var b := BreakFrom(s, 0);
      if b == |s| then [s]
      else
        var skip := if s[b] == '\r' && b + 1 < |s| && s[b + 1] == '\n' then 2 else 1;
        [s[..b]] + SplitLines(s[b + skip..])
  }

  /** `"\n".join(lines)`. */
  function JoinLines(lines: seq<string>): string {
    if lines == [] then "" else if |lines| == 1 then lines[0] else lines[0] + "\n" + JoinLines(lines[1..])
  }

  /** "```|~~~" at the start of s. */
  predicate StartsFence(s: string) {
    |s| >= 3 && (s[0] == s[1] == s[2] == '`' || s[0] == s[1] == s[2] == '~')
  }

  type Marker = Option<string>

  /** The three characters of a fence that the line starts with, indentation aside. */
  function MarkerOf(line: string): Marker {
    var s := LStrip(line);
    if StartsFence(s) then Some(s[..3]) else None
  }

  function Markers(lines: seq<string>): (r: seq<Marker>)
    ensures |r| == |lines| && forall k :: 0 <= k < |r| ==> r[k] == MarkerOf(lines[k])
  {
    seq(|lines|, k requires 0 <= k < |lines| => MarkerOf(lines[k]))
  }

  /** The fence that is open when line k is reached. */
  function FenceAt(ms: seq<Marker>, k: nat): Marker
    requires k <= |ms|
  {
    if k == 0 then None
    else Toggle(FenceAt(ms, k - 1), ms[k - 1])
  }

  /** The fence that is open after a line with marker m. */
  function Toggle(open: Marker, m: Marker): Marker {
    if m == None then open else if open == None then m else if m == open then None else open
  }

  /** A line with marker m, reached while the fence `open` is open. */
  function StrippedLine(line: string, m: Marker, open: Marker): string {
    if m.Some? || open.Some? then line else RemoveTags(line)
  }

  function StrippedLines(lines: seq<string>): (r: seq<string>)
    ensures |r| == |lines|
    ensures forall k {:trigger r[k]} :: 0 <= k < |r| ==> r[k] == StrippedLine(lines[k], Markers(lines)[k], FenceAt(Markers(lines), k))
  {
    var ms := Markers(lines);
    seq(|lines|, k requires 0 <= k < |lines| => StrippedLine(lines[k], ms[k], FenceAt(ms, k)))
  }

  function StripOutsideFences(text: string): string { JoinLines(StrippedLines(SplitLines(text))) }

  lemma StrippedAt(source: seq<string>, k: nat)
    requires k < |source|
    ensures StrippedLines(source)[k] == StrippedLine(source[k], MarkerOf(source[k]), FenceAt(Markers(source), k))
  {
  }

  lemma PrefixGrows(s: seq<string>, k: nat, x: string)
    requires k < |s| && s[k] == x
    ensures s[..k + 1] == s[..k] + [x]
  {
  }

  lemma FenceStep(ms: seq<Marker>, k: nat)
    requires k < |ms|
    ensures FenceAt(ms, k + 1) == Toggle(FenceAt(ms, k), ms[k])
  {
  }

  /** One round of the line loop: the output line and the two flags after it. */
  method StripOneLine(line: string, inFence: bool, fenceMarker: string)
    returns (out: string, inFence': bool, fenceMarker': string)
    ensures var m, open := MarkerOf(line), if inFence then Some(fenceMarker) else None;
            && out == StrippedLine(line, m, open)
            && Toggle(open, m) == if inFence' then Some(fenceMarker') else None
  {
    inFence', fenceMarker' := inFence, fenceMarker;
    var marker := MarkerOf(line);
    if marker.Some? {
      if !inFence {
        inFence', fenceMarker' := true, marker.value;
      } else if marker.value == fenceMarker {
        inFence', fenceMarker' := false, "";
      }
      out := line;
    } else {
      out := if inFence then line else RemoveTags(line);
    }
  }

  /** The line loop, with its two mutable flags. */
  method StripLines(source: seq<string>) returns (lines: seq<string>)
    ensures lines == StrippedLines(source)
  {
    ghost var wanted, ms := StrippedLines(source), Markers(source);
    lines := [];
    var inFence := false;
    var fenceMarker := "";
    for k := 0 to |source|
      invariant lines == wanted[..k]
      invariant FenceAt(ms, k) == if inFence then Some(fenceMarker) else None
    {
      var out: string;
      StrippedAt(source, k);
      FenceStep(ms, k);
      out, inFence, fenceMarker := StripOneLine(source[k], inFence, fenceMarker);
      PrefixGrows(wanted, k, out);
      lines := lines + [out];
    }
  }

  method StripHtmlOutsideCodeFences(text: string) returns (r: string)
    ensures r == StripOutsideFences(text)
  {
    var lines := StripLines(SplitLines(text));
    r := JoinLines(lines);
  }

  // ---------------------------------------------------------------- links

  const SAFE_SCHEMES: set<string> := {"", "http", "https", "file", "mailto", "capdep"}

  /** `\]\([^)]+\)` at the start of s. */
  function LinkLength(s: string): (n: nat)
    ensures n <= |s|
    ensures n > 0 ==> n >= 4 && s[0] == ']' && s[1] == '(' && s[n - 1] == ')'
  {
    if |s| < 2 || s[0] != ']' || s[1] != '(' then 0
    else
      var e := FindFrom(s, ')', 2);
      if 2 < e < |s| then e + 1 else 0
  }

  const UNSAFE_LINK: string := "unsafe-link"

  /** `scheme` gives the lower-case URL scheme of a target. */
  function CleanTarget(target: string, scheme: string -> string): string {
    var t := Strip(target);
    if scheme(t) in SAFE_SCHEMES then t else UNSAFE_LINK
  }

  function Link(target: string): string { [']', '('] + target + [')'] }

  function SanitizeLinks(s: string, scheme: string -> string): string {
    if s == "" then ""
    else
      var n := LinkLength(s);
      if n > 0 then Link(CleanTarget(s[2..n - 1], scheme)) + SanitizeLinks(s[n..], scheme)
      else [s[0]] + SanitizeLinks(s[1..], scheme)
  }

  /** The targets that the link scanner finds in s. */
  function Targets(s: string): seq<string> {
    if s == "" then []
    else
      var n := LinkLength(s);
      if n > 0 then [s[2..n - 1]] + Targets(s[n..]) else Targets(s[1..])
  }

  // ---------------------------------------------------------------- the pipeline

  function Visible(source: string): string {
    ReplaceCr(ReplaceCrLf(RemoveControls(Remove(source, AnsiLength))))
  }

  function Sanitize(source: string, scheme: string -> string): string {
    Strip(SanitizeLinks(StripOutsideFences(Visible(source)), scheme))
  }
}
