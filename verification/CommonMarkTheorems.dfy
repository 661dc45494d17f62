/** What the sanitizer's stages guarantee. */
module CommonMarkTheorems {
  import opened Wrappers
  import opened PyStrings
  import opened CommonMark

  // ---------------------------------------------------------------- removal in general

  lemma {:induction false} RemoveSubsequence(s: string, match_: string -> nat)
    ensures Subsequence(Remove(s, match_), s)
    ensures forall c :: c in Remove(s, match_) ==> c in s
  {
    if s != "" {
      var n := match_(s);
      if 0 < n <= |s| {
        RemoveSubsequence(s[n..], match_);
        SubsequenceLater(Remove(s[n..], match_), s, n);
      } else {
        RemoveSubsequence(s[1..], match_);
        assert Remove(s, match_)[1..] == Remove(s[1..], match_);
      }
    }
  }

  /** No escape sequence is left behind: removing them again changes nothing. */
  lemma {:induction false} AnsiRemovedOnce(s: string)
    ensures Remove(Remove(s, AnsiLength), AnsiLength) == Remove(s, AnsiLength)
  {
    if s != "" {
      var n := AnsiLength(s);
      if n > 0 {
        AnsiRemovedOnce(s[n..]);
      } else {
        AnsiRemovedOnce(s[1..]);
        var out, rest := Remove(s, AnsiLength), Remove(s[1..], AnsiLength);
        assert out == [s[0]] + rest && out[1..] == rest;
        if s[0] == ESC && |s| >= 2 {
          assert s[1] == '\n' && AnsiLength(s[1..]) == 0;
          assert rest[0] == '\n' && out[1] == '\n';
        }
        assert AnsiLength(out) == 0;
      }
    }
  }

  // ---------------------------------------------------------------- tags

  /** How much of an opening `<` or `</` the leftover text ends with, once c follows it. */
  function NextLeft(left: string, c: char): string {
    if c == '<' then "<" else if c == '/' && left == "<" then "</" else ""
  }

  /** The text behind the tags that stand directly at its start. */
  function SkipTags(s: string): (r: string)
    ensures |r| <= |s|
    decreases |s|
  {
    if TagLength(s) > 0 then SkipTags(s[TagLength(s)..]) else s
  }

  /** Some `>` on the first line belongs to no tag that is removed. */
  predicate Closes(s: string)
    decreases |s|
  {
    s != "" &&
    if TagLength(s) > 0 then Closes(s[TagLength(s)..]) else s[0] == '>' || (s[0] != '\n' && Closes(s[1..]))
  }

  /** Behind any tags stands a letter, and a leftover `>` behind that. */
  predicate CompletesName(s: string) {
    var t := SkipTags(s);
    t != "" && IsLetter(t[0]) && Closes(t[1..])
  }

  /** What follows a leftover `<` or `</`, tags aside, makes it a tag. */
  predicate Completes(left: string, s: string) {
    CompletesName(s) || (left == "<" && var t := SkipTags(s); t != "" && t[0] == '/' && CompletesName(t[1..]))
  }

  /** Some tag of s is removed directly behind a leftover `<` or `</`, and what follows the tag, other tags aside,
      makes the leftover a tag again. */
  predicate Bridged(s: string, left: string)
    decreases |s|
  {
    s != "" &&
    var n := TagLength(s);
    if n > 0 then (left != "" && Completes(left, s[n..])) || Bridged(s[n..], "")
    else Bridged(s[1..], NextLeft(left, s[0]))
  }

  lemma TagLengthOpened(x: string)
    ensures TagLength(['<'] + x) > 0 <==>
      (x != "" && IsLetter(x[0]) && ClosingLength(x[1..]) > 0) || (x != "" && x[0] == '/' && TagLength(['<', '/'] + x[1..]) > 0)
  {
    var s := ['<'] + x;
    if x != "" {
      assert s[1] == x[0] && s[2..] == x[1..];
      if x[0] == '/' {
        assert s == ['<', '/'] + x[1..];
      }
    }
  }

  lemma TagLengthSlashed(x: string)
    ensures TagLength(['<', '/'] + x) > 0 <==> x != "" && IsLetter(x[0]) && ClosingLength(x[1..]) > 0
  {
    var s := ['<', '/'] + x;
    if x != "" { assert s[2] == x[0] && s[3..] == x[1..]; }
  }

  lemma ClosingCons(c: char, x: string)
    ensures ClosingLength([c] + x) > 0 <==> c == '>' || (c != '\n' && ClosingLength(x) > 0)
  {
    assert ([c] + x)[1..] == x;
  }

  lemma {:induction false} SkipTagsSame(s: string)
    ensures RemoveTags(SkipTags(s)) == RemoveTags(s) && TagLength(SkipTags(s)) == 0
    decreases |s|
  {
    if TagLength(s) > 0 { SkipTagsSame(s[TagLength(s)..]); }
  }

  lemma RemoveTagsStep(s: string)
    requires s != ""
    ensures RemoveTags(s) ==
      if TagLength(s) > 0 then RemoveTags(s[TagLength(s)..]) else [s[0]] + RemoveTags(s[1..])
  {
  }

  lemma {:induction false} ClosesIff(s: string)
    ensures ClosingLength(RemoveTags(s)) > 0 <==> Closes(s)
    decreases |s|
  {
    if s != "" {
      RemoveTagsStep(s);
      if TagLength(s) > 0 {
        ClosesIff(s[TagLength(s)..]);
      } else {
        ClosesIff(s[1..]);
        ClosingCons(s[0], RemoveTags(s[1..]));
      }
    }
  }

  lemma NameCompletes(s: string)
    ensures TagLength(['<', '/'] + RemoveTags(s)) > 0 <==> CompletesName(s)
  {
    var t := SkipTags(s);
    SkipTagsSame(s);
    TagLengthSlashed(RemoveTags(t));
    if t != "" {
      RemoveTagsStep(t);
      ClosesIff(t[1..]);
      assert RemoveTags(t)[1..] == RemoveTags(t[1..]);
    }
  }

  lemma OpenerCompletes(s: string)
    ensures TagLength(['<'] + RemoveTags(s)) > 0 <==> Completes(['<'], s)
  {
    var t := SkipTags(s);
    SkipTagsSame(s);
    TagLengthOpened(RemoveTags(t));
    if t != "" {
      RemoveTagsStep(t);
      ClosesIff(t[1..]);
      NameCompletes(t[1..]);
      assert RemoveTags(t)[1..] == RemoveTags(t[1..]);
    }
  }

  lemma CompletesIff(left: string, s: string)
    requires left == "<" || left == "</"
    ensures TagLength(left + RemoveTags(s)) > 0 <==> Completes(left, s)
  {
    if left == "<" { OpenerCompletes(s); } else { NameCompletes(s); }
  }

  lemma {:induction false} ClosingSurvives(s: string)
    ensures ClosingLength(RemoveTags(s)) > 0 ==> ClosingLength(s) > 0
  {
    if s != "" {
      var n := TagLength(s);
      if n > 0 {
        var k := OpeningLength(s);
        assert ClosingLength(s[k..]) > 0;
        ClosingBefore(s, k);
      } else {
        ClosingSurvives(s[1..]);
        assert RemoveTags(s)[1..] == RemoveTags(s[1..]);
      }
    }
  }

  lemma {:induction false} ClosingBefore(s: string, k: nat)
    requires k <= |s| && ClosingLength(s[k..]) > 0
    requires forall i :: 0 <= i < k ==> s[i] != '\n'
    ensures ClosingLength(s) > 0
  {
    if k == 0 {
      assert s[0..] == s;
    } else {
      assert s[1..][k - 1..] == s[k..];
      ClosingBefore(s[1..], k - 1);
    }
  }

  lemma HasTagStep(c: char, t: string)
    ensures HasTag([c] + t) <==> TagLength([c] + t) > 0 || HasTag(t)
  {
    var s := [c] + t;
    if i :| 0 <= i < |s| && TagLength(s[i..]) > 0 {
      if i == 0 { assert s[0..] == s; } else { assert s[i..] == t[i - 1..]; }
    }
    if TagLength(s) > 0 { assert s[0..] == s; }
    if i :| 0 <= i < |t| && TagLength(t[i..]) > 0 { assert s[i + 1..] == t[i..]; }
  }

  lemma HasTagFirst(s: string)
    ensures TagLength(s) > 0 ==> HasTag(s)
  {
    assert s[0..] == s;
  }

  ghost predicate IsLeft(left: string) { left == "" || left == "<" || left == "</" }

  /** A leftover opening that is completed by the character that followed it in s was a tag of s already. */
  lemma ContiguousIsNoTag(left: string, s: string)
    requires IsLeft(left) && s != ""
    requires left != "" ==> TagLength(left + s) == 0
    requires TagLength(s) == 0
    requires NextLeft(left, s[0]) == ""
    ensures TagLength(left + RemoveTags(s)) == 0
  {
    var r := RemoveTags(s);
    var t := s[1..];
    ClosingSurvives(t);
    assert r == [s[0]] + RemoveTags(t);
    if left != "" && IsLetter(s[0]) {
      var k := |left| + 1;
      assert (left + s)[k..] == t && (left + r)[k..] == RemoveTags(t);
      assert (left + s)[|left|] == s[0] && (left + r)[|left|] == s[0];
    } else if left != "" {
      assert (left + r)[|left|] == s[0];
    }
  }

  lemma {:induction false} BridgedFrom(s: string, left: string)
    requires IsLeft(left)
    requires left != "" ==> TagLength(left + s) == 0
    ensures HasTag(RemoveTags(s)) || TagLength(left + RemoveTags(s)) > 0 <==> Bridged(s, left)
    decreases |s|
  {
    var r := RemoveTags(s);
    HasTagFirst(r);
    assert "" + r == r;
    if s != "" {
      var n := TagLength(s);
      if n > 0 {
        BridgedFrom(s[n..], "");
        if left != "" { CompletesIff(left, s[n..]); }
        assert "" + RemoveTags(s[n..]) == RemoveTags(s[n..]);
        HasTagFirst(RemoveTags(s[n..]));
      } else {
        BridgedStep(s, left);
      }
    } else {
      assert left + r == left;
    }
  }

  lemma {:induction false} BridgedStep(s: string, left: string)
    requires IsLeft(left) && s != "" && TagLength(s) == 0
    requires left != "" ==> TagLength(left + s) == 0
    ensures HasTag(RemoveTags(s)) || TagLength(left + RemoveTags(s)) > 0 <==> Bridged(s[1..], NextLeft(left, s[0]))
    decreases |s|, 0
  {
    var t, next := s[1..], NextLeft(left, s[0]);
    NextKept(s, left);
    BridgedFrom(t, next);
    assert RemoveTags(s) == [s[0]] + RemoveTags(t);
    HasTagStep(s[0], RemoveTags(t));
    HasTagFirst(RemoveTags(t));
    assert "" + RemoveTags(t) == RemoveTags(t);
  }

  /** Passing one leftover character: what can still become a tag from the left is what could before. */
  lemma NextKept(s: string, left: string)
    requires IsLeft(left) && s != "" && TagLength(s) == 0
    requires left != "" ==> TagLength(left + s) == 0
    ensures var next, t := NextLeft(left, s[0]), s[1..];
            && IsLeft(next)
            && (next != "" ==> TagLength(next + t) == 0)
            && (TagLength(left + RemoveTags(s)) > 0 || TagLength([s[0]] + RemoveTags(t)) > 0
                <==> next != "" && TagLength(next + RemoveTags(t)) > 0)
  {
    RemoveTagsStep(s);
    if s[0] == '<' {
      AngleAfterLeft(left, RemoveTags(s));
      assert s == "<" + s[1..];
    } else {
      NoTagHere(RemoveTags(s));
      if NextLeft(left, s[0]) == "</" {
        SlashAfterLeft(s, s[1..], left);
        SlashAfterLeft(RemoveTags(s), RemoveTags(s[1..]), left);
      } else {
        ContiguousIsNoTag(left, s);
      }
    }
  }

  lemma SlashAfterLeft(s: string, t: string, left: string)
    requires s == ['/'] + t && left == "<"
    ensures left + s == "</" + t
  {
  }

  lemma NoTagHere(r: string)
    requires r != "" && r[0] != '<'
    ensures TagLength(r) == 0
  {
  }

  /** Behind a leftover opening a `<` starts anew. */
  lemma AngleAfterLeft(left: string, r: string)
    requires IsLeft(left) && r != "" && r[0] == '<'
    ensures TagLength(left + r) > 0 ==> TagLength(r) > 0
  {
    if left == "" {
      assert left + r == r;
    } else {
      assert (left + r)[|left|] == '<';
    }
  }

  /** One pass leaves a tag exactly when a removed tag was bridged by leftovers around it. */
  lemma TagsLeftIff(line: string)
    ensures HasTag(RemoveTags(line)) <==> Bridged(line, "")
  {
    BridgedFrom(line, "");
    assert "" + RemoveTags(line) == RemoveTags(line);
    HasTagFirst(RemoveTags(line));
  }

  /** In particular none is left when no tag of the line stands directly behind a `<` or a `/`. */
  lemma {:induction false} NoAdjacentNoBridge(s: string, left: string)
    requires IsLeft(left)
    requires left != "" ==> TagLength(s) == 0
    requires forall i :: 0 < i < |s| && TagLength(s[i..]) > 0 ==> s[i - 1] != '<' && s[i - 1] != '/'
    ensures !Bridged(s, left)
    decreases |s|
  {
    if s != "" {
      var n := if TagLength(s) > 0 then TagLength(s) else 1;
      var t := s[n..];
      forall i | 0 < i < |t| && TagLength(t[i..]) > 0 ensures t[i - 1] != '<' && t[i - 1] != '/' {
        assert s[n + i..] == t[i..];
      }
      assert t == s[n..];
      NoAdjacentNoBridge(t, if TagLength(s) > 0 then "" else NextLeft(left, s[0]));
    }
  }

  /** The pass changes nothing exactly when there is nothing to remove. */
  lemma {:induction false} RemoveTagsFixes(s: string)
    ensures RemoveTags(s) == s <==> !HasTag(s)
    ensures |RemoveTags(s)| <= |s|
  {
    if s != "" {
      var n := TagLength(s);
      if n > 0 {
        RemoveTagsFixes(s[n..]);
        HasTagFirst(s);
      } else {
        RemoveTagsFixes(s[1..]);
        assert s == [s[0]] + s[1..];
        HasTagStep(s[0], s[1..]);
        assert RemoveTags(s)[1..] == RemoveTags(s[1..]);
      }
    }
  }

  /** Stripping twice is stripping once exactly when no removed tag was bridged. */
  lemma StripTwiceIff(line: string)
    ensures RemoveTags(RemoveTags(line)) == RemoveTags(line) <==> !Bridged(line, "")
  {
    TagsLeftIff(line);
    RemoveTagsFixes(RemoveTags(line));
  }

  /** `<<b>b>` and its like: the tag in the middle goes, and what stood around it is a tag. */
  lemma BridgeExample(s: string, c: char)
    requires IsLetter(c) && s == ['<', '<', c, '>', c, '>']
    ensures RemoveTags(s) == ['<', c, '>'] && HasTag(RemoveTags(s)) && RemoveTags(RemoveTags(s)) != RemoveTags(s)
  {
    var inner, tail, out := s[1..], s[4..], ['<', c, '>'];
    assert TagLength(s) == 0;
    assert inner[2..][0] == '>' && TagLength(inner) == 3 && inner[3..] == tail;
    NoOpening(tail);
    assert RemoveTags(inner) == tail;
    assert RemoveTags(s) == ['<'] + tail == out;
    assert out[2..][0] == '>' && TagLength(out) == 3;
    HasTagFirst(out);
    RemoveTagsFixes(out);
  }

  lemma {:induction false} NoOpening(s: string)
    requires '<' !in s
    ensures RemoveTags(s) == s
  {
    if s != "" {
      assert TagLength(s) == 0;
      NoOpening(s[1..]);
    }
  }

  // ---------------------------------------------------------------- fences

  /** Line i opened a fence with the marker, and no line between it and line k starts with the marker again. */
  ghost predicate OpenedAt(ms: seq<Marker>, i: nat, k: nat, marker: string)
    requires i < k <= |ms|
  {
    FenceAt(ms, i) == None && ms[i] == Some(marker) && forall j :: i < j < k ==> ms[j] != Some(marker)
  }

  /** A fence is open at line k exactly when some earlier line opened it and no line since starts with its marker. */
  lemma FenceAtIff(ms: seq<Marker>, k: nat, marker: string)
    requires k <= |ms|
    ensures FenceAt(ms, k) == Some(marker) <==> exists i: nat :: i < k && OpenedAt(ms, i, k, marker)
  {
    if FenceAt(ms, k) == Some(marker) { var i := FenceOpener(ms, k, marker); }
    if i: nat :| i < k && OpenedAt(ms, i, k, marker) { OpenerHolds(ms, i, k, marker); }
  }

  lemma {:induction false} FenceOpener(ms: seq<Marker>, k: nat, marker: string) returns (i: nat)
    requires k <= |ms| && FenceAt(ms, k) == Some(marker)
    ensures i < k && OpenedAt(ms, i, k, marker)
  {
    if FenceAt(ms, k - 1) == None {
      i := k - 1;
    } else {
      i := FenceOpener(ms, k - 1, marker);
    }
  }

  lemma {:induction false} OpenerHolds(ms: seq<Marker>, i: nat, k: nat, marker: string)
    requires i < k <= |ms| && OpenedAt(ms, i, k, marker)
    ensures FenceAt(ms, k) == Some(marker)
  {
    if i < k - 1 {
      OpenerHolds(ms, i, k - 1, marker);
      assert ms[k - 1] != Some(marker);
    }
  }

  /** Line by line: the count is kept, each line is a subsequence of the one it came from, every line from
      an opening fence to its closing one is kept, and outside fences a tag is left only over a bridge. */
  lemma StripLinesFacts(lines: seq<string>)
    ensures |StrippedLines(lines)| == |lines|
    ensures forall k :: 0 <= k < |lines| ==> Subsequence(StrippedLines(lines)[k], lines[k])
    ensures forall k :: 0 <= k < |lines| && Markers(lines)[k].Some? ==> StrippedLines(lines)[k] == lines[k]
    ensures forall i: nat, k: nat, m :: i < k < |lines| && OpenedAt(Markers(lines), i, k, m) ==> StrippedLines(lines)[k] == lines[k]
    ensures forall k :: 0 <= k < |lines| && FenceAt(Markers(lines), k) == None && Markers(lines)[k] == None ==>
      (HasTag(StrippedLines(lines)[k]) <==> Bridged(lines[k], ""))
  {
    var ms := Markers(lines);
    forall k | 0 <= k < |lines| ensures Subsequence(StrippedLines(lines)[k], lines[k]) {
      RemoveSubsequence(lines[k], TagLength);
      SubsequenceSelf(lines[k]);
    }
    forall i: nat, k: nat, m | i < k < |lines| && OpenedAt(ms, i, k, m) ensures StrippedLines(lines)[k] == lines[k] {
      FenceAtIff(ms, k, m);
    }
    forall k | 0 <= k < |lines| && FenceAt(ms, k) == None && ms[k] == None
      ensures HasTag(StrippedLines(lines)[k]) <==> Bridged(lines[k], "")
    {
      TagsLeftIff(lines[k]);
    }
  }

  // ---------------------------------------------------------------- links

  lemma UnsafeLinkFacts(w: string)
    requires w == "unsafe-link"
    ensures Trimmed(w) && ')' !in w && Strip(w) == w && AllShowable(w)
  {
    assert w[0] == 'u' && w[|w| - 1] == 'k';
    WordTrimmed(w);
    assert forall i :: 0 <= i < |w| ==> ' ' < w[i] < '\U{7F}' && w[i] != ')';
  }

  lemma WordTrimmed(w: string)
    requires w != "" && '!' <= w[0] <= '~' && '!' <= w[|w| - 1] <= '~'
    ensures Trimmed(w) && Strip(w) == w
  {
    StripTrims(w);
  }

  lemma CleanTargetFacts(target: string, scheme: string -> string)
    requires scheme(UNSAFE_LINK) == ""
    ensures var u := CleanTarget(target, scheme);
            && SafeTarget(u, scheme) && CleanTarget(u, scheme) == u
            && (')' !in target ==> ')' !in u)
            && (AllShowable(target) ==> AllShowable(u))
  {
    UnsafeLinkFacts(UNSAFE_LINK);
    StripTrims(target);
    if scheme(Strip(target)) in SAFE_SCHEMES {
      CleanSafe(Strip(target), scheme);
    } else {
      CleanSafe(UNSAFE_LINK, scheme);
    }
  }

  lemma CleanSafe(t: string, scheme: string -> string)
    requires SafeTarget(t, scheme)
    ensures CleanTarget(t, scheme) == t
  {
    StripTrims(t);
  }

  /** Whether a target may be left standing: it is trimmed, and relative or of one of five schemes. */
  ghost predicate SafeTarget(t: string, scheme: string -> string) {
    Trimmed(t) && scheme(t) in {"", "http", "https", "file", "mailto", "capdep"}
  }

  lemma LinkShape(s: string)
    requires LinkLength(s) > 0
    ensures var n := LinkLength(s);
            s[2..n - 1] != "" && ')' !in s[2..n - 1] && s == Link(s[2..n - 1]) + s[n..]
  {
  }

  lemma MakeLink(t: string, rest: string)
    requires ')' !in t
    ensures LinkLength(Link(t) + rest) == if t == "" then 0 else |t| + 3
    ensures (Link(t) + rest)[2..|t| + 2] == t && (Link(t) + rest)[|t| + 3..] == rest
  {
    var s := Link(t) + rest;
    forall k | 0 <= k < |t| ensures s[k + 2] == t[k] && t[k] != ')' { assert t[k] in t; }
    FindFromIs(s, ')', 2, |t| + 2);
  }

  lemma {:induction false} NoParenNoChange(s: string, scheme: string -> string)
    requires ')' !in s
    ensures SanitizeLinks(s, scheme) == s
  {
    if s != "" {
      assert LinkLength(s) == 0;
      NoParenNoChange(s[1..], scheme);
    }
  }

  /** Where the scanner finds no link it finds none after the rest has been rewritten. */
  lemma NoNewLink(s: string, scheme: string -> string)
    requires s != "" && LinkLength(s) == 0
    ensures LinkLength([s[0]] + SanitizeLinks(s[1..], scheme)) == 0
  {
    var t := s[1..];
    var out := [s[0]] + SanitizeLinks(t, scheme);
    if t != "" && s[0] == ']' {
      assert out[1] == SanitizeLinks(t, scheme)[0];
      if LinkLength(t) > 0 {
        LinkStep(t, scheme);
      } else {
        CharStep(t, scheme);
        if t[0] == '(' { NoLinkAfterOpening(s, out, SanitizeLinks(t[1..], scheme), scheme); }
      }
    }
  }

  lemma NoLinkAfterOpening(s: string, out: string, rest: string, scheme: string -> string)
    requires |s| >= 2 && s[0] == ']' && s[1] == '(' && LinkLength(s) == 0
    requires rest == SanitizeLinks(s[1..][1..], scheme) && out == [s[0]] + ([s[1]] + rest)
    ensures LinkLength(out) == 0
  {
    assert s[2..] == s[1..][1..] && out[2..] == rest;
    NoLinkIff(s);
    NoLinkIff(out);
    NoClosing(s[2..], scheme);
  }

  /** What stands behind a `](` when it is no link: a `)`, or nothing that closes it. */
  predicate ClosesNothing(u: string) { (u != "" && u[0] == ')') || ')' !in u }

  lemma NoLinkIff(s: string)
    requires |s| >= 2 && s[0] == ']' && s[1] == '('
    ensures LinkLength(s) == 0 <==> ClosesNothing(s[2..])
  {
    var u := s[2..];
    forall k | 2 <= k < |s| ensures s[k] == u[k - 2] {}
    if FindFrom(s, ')', 2) < |s| { assert s[FindFrom(s, ')', 2)] in u; }
    if k :| 0 <= k < |u| && u[k] == ')' { assert s[k + 2] == ')'; }
  }

  /** Rewriting keeps that so. */
  lemma NoClosing(u: string, scheme: string -> string)
    requires ClosesNothing(u)
    ensures ClosesNothing(SanitizeLinks(u, scheme))
  {
    if u != "" && u[0] == ')' {
      NoLinkHere(u);
      CharStep(u, scheme);
    } else {
      NoParenNoChange(u, scheme);
    }
  }

  lemma LinkStep(s: string, scheme: string -> string)
    requires LinkLength(s) > 0
    ensures var n := LinkLength(s);
            SanitizeLinks(s, scheme) == Link(CleanTarget(s[2..n - 1], scheme)) + SanitizeLinks(s[n..], scheme)
  {
  }

  lemma CharStep(s: string, scheme: string -> string)
    requires s != "" && LinkLength(s) == 0
    ensures SanitizeLinks(s, scheme) == [s[0]] + SanitizeLinks(s[1..], scheme)
  {
  }

  /** The link stage is idempotent, and leaves only safe targets for its own scanner to find. */
  lemma {:induction false} LinksSanitized(s: string, scheme: string -> string)
    requires scheme(UNSAFE_LINK) == ""
    ensures SanitizeLinks(SanitizeLinks(s, scheme), scheme) == SanitizeLinks(s, scheme)
    ensures forall t :: t in Targets(SanitizeLinks(s, scheme)) ==> SafeTarget(t, scheme)
  {
    if s != "" {
      var n := LinkLength(s);
      if n > 0 {
        LinksSanitized(s[n..], scheme);
        LinkShape(s);
        CleanTargetFacts(s[2..n - 1], scheme);
        OneLinkSanitized(CleanTarget(s[2..n - 1], scheme), SanitizeLinks(s[n..], scheme), scheme);
        LinkStep(s, scheme);
      } else {
        LinksSanitized(s[1..], scheme);
        NoNewLink(s, scheme);
        OneCharSanitized(s[0], SanitizeLinks(s[1..], scheme), scheme);
        CharStep(s, scheme);
      }
    }
  }

  lemma OneCharSanitized(c: char, rest: string, scheme: string -> string)
    requires LinkLength([c] + rest) == 0
    ensures SanitizeLinks([c] + rest, scheme) == [c] + SanitizeLinks(rest, scheme)
    ensures Targets([c] + rest) == Targets(rest)
  {
    assert ([c] + rest)[1..] == rest;
  }

  lemma OneLinkSanitized(u: string, rest: string, scheme: string -> string)
    requires ')' !in u && CleanTarget(u, scheme) == u && SafeTarget(u, scheme)
    requires SanitizeLinks(rest, scheme) == rest
    requires forall t :: t in Targets(rest) ==> SafeTarget(t, scheme)
    ensures SanitizeLinks(Link(u) + rest, scheme) == Link(u) + rest
    ensures forall t :: t in Targets(Link(u) + rest) ==> SafeTarget(t, scheme)
  {
    MakeLink(u, rest);
    if u == "" {
      EmptyLinkKept(u, rest, scheme);
    }
  }

  /** An emptied link is no link to the scanner. */
  lemma EmptyLinkKept(u: string, rest: string, scheme: string -> string)
    requires u == ""
    ensures SanitizeLinks(Link(u) + rest, scheme) == Link(u) + SanitizeLinks(rest, scheme)
    ensures Targets(Link(u) + rest) == Targets(rest)
  {
    ThreeChars(rest, u);
    ThreeChars(SanitizeLinks(rest, scheme), u);
    EmptyLinkPassed(rest, [')'] + rest, ['('] + ([')'] + rest), scheme);
  }

  lemma EmptyLinkPassed(rest: string, a: string, b: string, scheme: string -> string)
    requires a == [')'] + rest && b == ['('] + a
    ensures SanitizeLinks([']'] + b, scheme) == [']'] + (['('] + ([')'] + SanitizeLinks(rest, scheme)))
    ensures Targets([']'] + b) == Targets(rest)
  {
    NoLinkHere(a);
    NoLinkHere(b);
    NoEmptyLink([']'] + b);
    OneCharSanitized(')', rest, scheme);
    OneCharSanitized('(', a, scheme);
    OneCharSanitized(']', b, scheme);
  }

  lemma ThreeChars(rest: string, u: string)
    requires u == ""
    ensures [']'] + (['('] + ([')'] + rest)) == Link(u) + rest
  {
  }

  lemma NoLinkHere(s: string)
    requires s != "" && s[0] != ']'
    ensures LinkLength(s) == 0
  {
  }

  lemma NoEmptyLink(s: string)
    requires |s| >= 3 && s[2] == ')'
    ensures LinkLength(s) == 0
  {
  }

  // ---------------------------------------------------------------- the end of the pipeline

  lemma {:induction false} TargetsSkipSpace(s: string, k: nat)
    requires k <= |s| && AllSpace(s[..k])
    ensures Targets(s[k..]) == Targets(s)
  {
    if k == 0 {
      assert s[0..] == s;
    } else {
      assert s[0] == s[..k][0];
      assert s[1..][..k - 1] == s[..k][1..];
      TargetsSkipSpace(s[1..], k - 1);
      assert s[1..][k - 1..] == s[k..];
    }
  }

  /** How far the link scanner moves in one step, and what it yields. */
  function LinkStepOf(s: string): (n: nat)
    requires s != ""
    ensures 1 <= n <= |s|
  {
    if LinkLength(s) > 0 then LinkLength(s) else 1
  }

  function LinkHeadOf(s: string): seq<string>
    requires s != ""
  {
    if LinkLength(s) > 0 then [s[2..LinkLength(s) - 1]] else []
  }

  lemma TargetsUnfold(s: string)
    requires s != ""
    ensures Targets(s) == LinkHeadOf(s) + Targets(s[LinkStepOf(s)..])
  {
  }

  lemma StepDropSpace(s: string, w: string)
    requires AllSpace(w) && s != ""
    ensures LinkStepOf(s + w) == LinkStepOf(s) && LinkHeadOf(s + w) == LinkHeadOf(s)
    ensures (s + w)[LinkStepOf(s)..] == s[LinkStepOf(s)..] + w
  {
    LinkLengthDropSpace(s, w);
    var n := LinkLength(s);
    if n > 0 { assert (s + w)[2..n - 1] == s[2..n - 1]; }
  }

  lemma {:induction false} TargetsDropSpace(s: string, w: string)
    requires AllSpace(w)
    ensures Targets(s + w) == Targets(s)
    decreases |s|
  {
    if s == "" {
      OnlySpace(w);
      assert s + w == w;
    } else {
      StepDropSpace(s, w);
      TargetsDropSpace(s[LinkStepOf(s)..], w);
      TargetsUnfold(s);
      TargetsUnfold(s + w);
    }
  }

  lemma OnlySpace(w: string)
    requires AllSpace(w)
    ensures Targets(w) == []
  {
    assert w[..|w|] == w && w[|w|..] == "";
    TargetsSkipSpace(w, |w|);
  }

  lemma LinkLengthDropSpace(s: string, w: string)
    requires AllSpace(w) && s != ""
    ensures LinkLength(s + w) == LinkLength(s)
  {
    if |s| >= 2 && s[0] == ']' && s[1] == '(' {
      var e := FindFrom(s, ')', 2);
      if e < |s| {
        FindFromIs(s + w, ')', 2, e);
      } else {
        forall k | 2 <= k < |s + w| ensures (s + w)[k] != ')' {
          if k >= |s| { assert IsSpace(w[k - |s|]); }
        }
        FindFromIs(s + w, ')', 2, |s + w|);
      }
    } else if |s| == 1 && w != "" {
      assert (s + w)[1] == w[0] && IsSpace(w[0]);
    }
  }

  lemma TargetsOfStripped(s: string)
    ensures Targets(Strip(s)) == Targets(s)
  {
    var l := LStrip(s);
    LStripFacts(s);
    TargetsSkipSpace(s, |s| - |l|);
    TargetsOfRStripped(l);
  }

  lemma TargetsOfRStripped(l: string)
    ensures Targets(RStrip(l)) == Targets(l)
  {
    RStripFacts(l);
    var r := RStrip(l);
    TargetsDropSpace(r, l[|r|..]);
    assert l == r + l[|r|..];
  }

  /** Every link target that the scanner finds in the final text has a safe scheme; and running the
      link stage on the final text again would change nothing. */
  lemma FinalLinksSafe(source: string, scheme: string -> string)
    requires scheme(UNSAFE_LINK) == ""
    ensures forall t :: t in Targets(Sanitize(source, scheme)) ==> SafeTarget(t, scheme)
    ensures SanitizeLinks(Sanitize(source, scheme), scheme) == Sanitize(source, scheme)
  {
    var before := SanitizeLinks(StripOutsideFences(Visible(source)), scheme);
    LinksSanitized(StripOutsideFences(Visible(source)), scheme);
    TargetsOfStripped(before);
    SafeUnchanged(Strip(before), scheme);
  }

  /** The link stage leaves a text alone whose targets are all safe. */
  lemma {:induction false} SafeUnchanged(s: string, scheme: string -> string)
    requires forall t :: t in Targets(s) ==> SafeTarget(t, scheme)
    ensures SanitizeLinks(s, scheme) == s
    decreases |s|
  {
    if s != "" {
      TargetsUnfold(s);
      SafeUnchanged(s[LinkStepOf(s)..], scheme);
      if LinkLength(s) > 0 {
        LinkHeadFound(s);
        SafeLinkUnchanged(s, scheme);
      } else {
        CharStep(s, scheme);
      }
    }
  }

  lemma LinkHeadFound(s: string)
    requires LinkLength(s) > 0
    ensures s[2..LinkLength(s) - 1] in Targets(s)
  {
  }

  lemma SafeLinkUnchanged(s: string, scheme: string -> string)
    requires LinkLength(s) > 0 && SafeTarget(s[2..LinkLength(s) - 1], scheme)
    requires SanitizeLinks(s[LinkLength(s)..], scheme) == s[LinkLength(s)..]
    ensures SanitizeLinks(s, scheme) == s
  {
    LinkShape(s);
    CleanSafe(s[2..LinkLength(s) - 1], scheme);
    LinkStep(s, scheme);
  }

  // ---------------------------------------------------------------- control characters

  /** Tab and newline are the only control characters that may be shown. */
  predicate Showable(c: char) { (c >= ' ' || c == '\t' || c == '\n') && c != '\U{7F}' }

  predicate AllShowable(s: string) { forall c :: c in s ==> Showable(c) }

  lemma {:induction false} ControlsRemoved(s: string)
    ensures forall c :: c in RemoveControls(s) ==> Showable(c) || c == '\r'
  {
    if s != "" { ControlsRemoved(s[1..]); }
  }

  lemma {:induction false} CrLfReplaced(s: string)
    ensures forall c :: c in ReplaceCrLf(s) ==> c in s
  {
    if s != "" {
      if |s| >= 2 && s[0] == '\r' && s[1] == '\n' {
        CrLfReplaced(s[2..]);
      } else {
        CrLfReplaced(s[1..]);
      }
    }
  }

  lemma {:induction false} CrReplaced(s: string)
    ensures forall c :: c in ReplaceCr(s) ==> c != '\r' && (c in s || c == '\n')
  {
    if s != "" { CrReplaced(s[1..]); }
  }

  lemma {:induction false} JoinedShowable(lines: seq<string>)
    requires forall k :: 0 <= k < |lines| ==> AllShowable(lines[k])
    ensures AllShowable(JoinLines(lines))
  {
    if |lines| > 1 { JoinedShowable(lines[1..]); }
  }

  /** Lines are made of the text's characters, line breaks excepted. */
  lemma {:induction false} SplitLinesFacts(s: string)
    ensures forall k :: 0 <= k < |SplitLines(s)| ==> forall c :: c in SplitLines(s)[k] ==> c in s && !IsBreak(c)
    decreases |s|
  {
    if s != "" {
      var b := BreakFrom(s, 0);
      LineOf(s, b);
      if b < |s| {
        var skip := if s[b] == '\r' && b + 1 < |s| && s[b + 1] == '\n' then 2 else 1;
        SplitLinesFacts(s[b + skip..]);
        FirstOfLines(s, s[..b], SplitLines(s[b + skip..]), s[b + skip..]);
        assert SplitLines(s) == [s[..b]] + SplitLines(s[b + skip..]);
      }
    }
  }

  lemma LineOf(s: string, b: nat)
    requires b <= |s| && forall k :: 0 <= k < b ==> !IsBreak(s[k])
    ensures forall c :: c in s[..b] ==> c in s && !IsBreak(c)
  {
  }

  lemma FirstOfLines(s: string, first: string, lines: seq<string>, rest: string)
    requires forall c :: c in first ==> c in s && !IsBreak(c)
    requires forall c :: c in rest ==> c in s
    requires forall k :: 0 <= k < |lines| ==> forall c :: c in lines[k] ==> c in rest && !IsBreak(c)
    ensures var all := [first] + lines;
            forall k :: 0 <= k < |all| ==> forall c :: c in all[k] ==> c in s && !IsBreak(c)
  {
  }

  lemma StrippedShowable(text: string)
    requires AllShowable(text)
    ensures AllShowable(StripOutsideFences(text))
  {
    var lines := SplitLines(text);
    SplitLinesFacts(text);
    forall k | 0 <= k < |lines| ensures AllShowable(StrippedLines(lines)[k]) {
      RemoveSubsequence(lines[k], TagLength);
    }
    JoinedShowable(StrippedLines(lines));
  }

  lemma TargetShowable(target: string, scheme: string -> string)
    requires AllShowable(target)
    ensures AllShowable(Link(CleanTarget(target, scheme)))
  {
    UnsafeLinkFacts(UNSAFE_LINK);
    StripTrims(target);
  }

  lemma {:induction false} LinksShowable(s: string, scheme: string -> string)
    requires AllShowable(s)
    ensures AllShowable(SanitizeLinks(s, scheme))
  {
    if s != "" {
      var n := LinkLength(s);
      if n > 0 {
        LinksShowable(s[n..], scheme);
        TargetShowable(s[2..n - 1], scheme);
        assert AllShowable(s[n..]);
      } else {
        LinksShowable(s[1..], scheme);
      }
    }
  }

  /** The final text has no C0 control character but tab and newline, and no DEL. */
  lemma FinalShowable(source: string, scheme: string -> string)
    ensures AllShowable(Sanitize(source, scheme))
  {
    var shown := RemoveControls(Remove(source, AnsiLength));
    ControlsRemoved(Remove(source, AnsiLength));
    CrLfReplaced(shown);
    CrReplaced(ReplaceCrLf(shown));
    StrippedShowable(Visible(source));
    LinksShowable(StripOutsideFences(Visible(source)), scheme);
    StripTrims(SanitizeLinks(StripOutsideFences(Visible(source)), scheme));
  }
}
