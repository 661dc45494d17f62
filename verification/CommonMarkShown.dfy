/** What the sanitizer makes of links, terminal sequences and line endings, in the source's own characters. */
module CommonMarkShown {
  import opened PyStrings
  import opened CommonMark
  import opened CommonMarkTheorems

  // ---------------------------------------------------------------- links

  /** Somewhere in the text a target could begin: `](`. */
  predicate BeginsTarget(a: string) { exists k :: 0 <= k < |a| - 1 && a[k] == ']' && a[k + 1] == '(' }

  /** Any text, a link, and whatever follows: a target of one of the six schemes is kept, trimmed, every other one is
      replaced, and the rest is treated alike. */
  lemma {:induction false} LinkReplaced(a: string, target: string, rest: string, scheme: string -> string)
    requires !BeginsTarget(a) && target != "" && ')' !in target
    ensures SanitizeLinks(a + ([']', '('] + target + [')'] + rest), scheme) ==
      var t := Strip(target);
      var shown := if scheme(t) in {"", "http", "https", "file", "mailto", "capdep"} then t else "unsafe-link";
      a + ([']', '('] + shown + [')'] + SanitizeLinks(rest, scheme))
  {
    var link := Link(target) + rest;
    if a == "" {
      assert a + link == link;
      LinkInFront(target, rest, scheme);
    } else {
      Behind(a, link);
      NoTargetHere(a, link);
      CharStep(a + link, scheme);
      TailBegins(a);
      LinkReplaced(a[1..], target, rest, scheme);
      Behind(a, SanitizeLinks(link, scheme));
      LinkInFront(target, rest, scheme);
    }
  }

  lemma LinkInFront(target: string, rest: string, scheme: string -> string)
    requires target != "" && ')' !in target
    ensures SanitizeLinks(Link(target) + rest, scheme) ==
      var t := Strip(target);
      var shown := if scheme(t) in {"", "http", "https", "file", "mailto", "capdep"} then t else "unsafe-link";
      Link(shown) + SanitizeLinks(rest, scheme)
  {
    MakeLink(target, rest);
    LinkStep(Link(target) + rest, scheme);
  }

  lemma Behind(a: string, s: string)
    requires a != ""
    ensures (a + s)[0] == a[0] && (a + s)[1..] == a[1..] + s && [a[0]] + (a[1..] + s) == a + s
  {
  }

  lemma NoTargetHere(a: string, link: string)
    requires a != "" && !BeginsTarget(a) && link != "" && link[0] == ']'
    ensures LinkLength(a + link) == 0
  {
    var s := a + link;
    if |a| >= 2 {
      assert s[0] == a[0] && s[1] == a[0 + 1];
    } else {
      assert s[1] == link[0];
    }
  }

  lemma TailBegins(a: string)
    requires a != "" && !BeginsTarget(a)
    ensures !BeginsTarget(a[1..])
  {
    forall k | 0 <= k < |a[1..]| - 1 ensures !(a[1..][k] == ']' && a[1..][k + 1] == '(') {
      assert a[1..][k] == a[k + 1] && a[1..][k + 1] == a[(k + 1) + 1];
    }
  }

  /** Every target that the scanner finds in the final text is trimmed and has one of the six schemes. */
  lemma FinalSchemes(source: string, scheme: string -> string)
    requires scheme("unsafe-link") == ""
    ensures forall t :: t in Targets(Sanitize(source, scheme)) ==>
      Strip(t) == t && scheme(t) in {"", "http", "https", "file", "mailto", "capdep"}
  {
    FinalLinksSafe(source, scheme);
    forall t | t in Targets(Sanitize(source, scheme)) ensures Strip(t) == t { StripTrims(t); }
  }

  // ---------------------------------------------------------------- terminal sequences

  lemma RemoveChar(s: string)
    requires s != "" && s[0] != ESC
    ensures Remove(s, AnsiLength) == [s[0]] + Remove(s[1..], AnsiLength)
  {
  }

  lemma {:induction false} RemoveBehind(a: string, s: string)
    requires ESC !in a
    ensures Remove(a + s, AnsiLength) == a + Remove(s, AnsiLength)
  {
    if a == "" {
      assert a + s == s;
    } else {
      RemoveBehind(a[1..], s);
      Behind(a, s);
      Behind(a, Remove(s, AnsiLength));
      RemoveChar(a + s);
    }
  }

  /** A terminal sequence makes no difference, wherever the first one of a source stands: what is shown is what the
      source without it would show. */
  lemma SequenceInvisible(before: string, s: string, scheme: string -> string)
    requires '\U{1B}' !in before && AnsiLength(s) > 0
    ensures Sanitize(before + s, scheme) == Sanitize(before + s[AnsiLength(s)..], scheme)
  {
    var rest := s[AnsiLength(s)..];
    RemoveBehind(before, s);
    RemoveBehind(before, rest);
    assert Remove(s, AnsiLength) == Remove(rest, AnsiLength);
  }

  /** The control characters that are dropped: all of the first 32 but tab, newline and return, and DEL. */
  predicate Dropped(c: char) { (c < ' ' && c != '\t' && c != '\n' && c != '\r') || c == '\U{7F}' }

  lemma Regroup(a: string, b: string, c: string)
    ensures (a + b) + c == a + (b + c)
  {
  }

  lemma {:induction false} ControlsBehind(a: string, s: string)
    ensures RemoveControls(a + s) == RemoveControls(a) + RemoveControls(s)
  {
    if a == "" {
      assert a + s == s;
    } else {
      Behind(a, s);
      ControlsBehind(a[1..], s);
      ControlStep(a);
      ControlStep(a + s);
      Regroup([a[0]], RemoveControls(a[1..]), RemoveControls(s));
    }
  }

  lemma ControlStep(s: string)
    requires s != ""
    ensures RemoveControls(s) == if Dropped(s[0]) then RemoveControls(s[1..]) else [s[0]] + RemoveControls(s[1..])
  {
  }

  /** Nor does a control character, be it between others; an escape starts a sequence. */
  lemma ControlInvisible(before: string, c: char, rest: string, scheme: string -> string)
    requires '\U{1B}' !in before && Dropped(c) && c != '\U{1B}'
    ensures Sanitize(before + ([c] + rest), scheme) == Sanitize(before + rest, scheme)
  {
    var kept := Remove(rest, AnsiLength);
    RemoveBehind(before, [c] + rest);
    RemoveBehind(before, rest);
    RemoveChar([c] + rest);
    assert ([c] + rest)[1..] == rest && ([c] + kept)[1..] == kept;
    ControlsBehind(before, [c] + kept);
    ControlsBehind(before, kept);
    ControlStep([c] + kept);
  }

  // ---------------------------------------------------------------- line endings

  /** A line of plain text: no control character but the tab. */
  predicate PlainLine(line: string) { forall c :: c in line ==> c == '\t' || (' ' <= c && c != '\U{7F}') }

  lemma {:induction false} PlainRemoved(line: string, rest: string)
    requires PlainLine(line)
    ensures RemoveControls(line + rest) == line + RemoveControls(rest)
    ensures ReplaceCrLf(line + rest) == line + ReplaceCrLf(rest)
    ensures ReplaceCr(line + rest) == line + ReplaceCr(rest)
  {
    if line == "" {
      assert line + rest == rest;
    } else {
      Behind(line, rest);
      Behind(line, RemoveControls(rest));
      Behind(line, ReplaceCrLf(rest));
      Behind(line, ReplaceCr(rest));
      assert line[0] in line && forall c :: c in line[1..] ==> c in line;
      PlainRemoved(line[1..], rest);
      PlainChar(line + rest);
    }
  }

  lemma PlainChar(s: string)
    requires s != "" && (s[0] == '\t' || (' ' <= s[0] && s[0] != '\U{7F}'))
    ensures RemoveControls(s) == [s[0]] + RemoveControls(s[1..])
    ensures ReplaceCrLf(s) == [s[0]] + ReplaceCrLf(s[1..])
    ensures ReplaceCr(s) == [s[0]] + ReplaceCr(s[1..])
  {
  }

  lemma {:induction false} NoEscapeLeft(lines: seq<string>, sep: string)
    requires (forall k :: 0 <= k < |lines| ==> PlainLine(lines[k])) && ESC !in sep
    ensures ESC !in Joined(lines, sep)
  {
    if |lines| > 1 { NoEscapeLeft(lines[1..], sep); }
  }

  /** Dropping control characters keeps the two characters that end lines. */
  lemma {:induction false} ControlsKept(lines: seq<string>, sep: string)
    requires forall k :: 0 <= k < |lines| ==> PlainLine(lines[k])
    requires sep == "\n" || sep == "\r" || sep == "\r\n"
    ensures RemoveControls(Joined(lines, sep)) == Joined(lines, sep)
  {
    if |lines| == 1 {
      PlainRemoved(lines[0], "");
      assert lines[0] + "" == lines[0];
    } else if |lines| > 1 {
      var rest := Joined(lines[1..], sep);
      ControlsKept(lines[1..], sep);
      PlainRemoved(lines[0], sep + rest);
      EndingKept(sep, rest);
    }
  }

  lemma EndingKept(sep: string, rest: string)
    requires sep == "\n" || sep == "\r" || sep == "\r\n"
    ensures RemoveControls(sep + rest) == sep + RemoveControls(rest)
  {
    assert (sep + rest)[0] == sep[0];
    if |sep| == 1 {
      assert (sep + rest)[1..] == rest;
    } else {
      var tail := (sep + rest)[1..];
      assert tail[0] == '\n' && tail[1..] == rest;
      assert RemoveControls(tail) == [tail[0]] + RemoveControls(rest);
    }
  }

  lemma {:induction false} CrLfJoined(lines: seq<string>)
    requires forall k :: 0 <= k < |lines| ==> PlainLine(lines[k])
    ensures ReplaceCrLf(Joined(lines, "\r\n")) == Joined(lines, "\n")
  {
    if |lines| == 1 {
      PlainRemoved(lines[0], "");
      assert lines[0] + "" == lines[0];
    } else if |lines| > 1 {
      var rest := Joined(lines[1..], "\r\n");
      CrLfJoined(lines[1..]);
      PlainRemoved(lines[0], "\r\n" + rest);
      assert ("\r\n" + rest)[2..] == rest;
    }
  }

  lemma {:induction false} CrJoined(lines: seq<string>, sep: string)
    requires forall k :: 0 <= k < |lines| ==> PlainLine(lines[k])
    requires sep == "\n" || sep == "\r"
    ensures ReplaceCr(Joined(lines, sep)) == Joined(lines, "\n")
  {
    if |lines| == 1 {
      PlainRemoved(lines[0], "");
      assert lines[0] + "" == lines[0];
    } else if |lines| > 1 {
      var rest := Joined(lines[1..], sep);
      CrJoined(lines[1..], sep);
      PlainRemoved(lines[0], sep + rest);
      assert (sep + rest)[1..] == rest;
    }
  }

  lemma {:induction false} NoPairKept(s: string)
    requires '\r' !in s || '\n' !in s
    ensures ReplaceCrLf(s) == s
  {
    if s != "" {
      assert !(|s| >= 2 && s[0] == '\r' && s[1] == '\n');
      NoPairKept(s[1..]);
    }
  }

  lemma {:induction false} AbsentInLines(lines: seq<string>, sep: string, c: char)
    requires (forall k :: 0 <= k < |lines| ==> PlainLine(lines[k])) && (c == '\r' || c == '\n') && c !in sep
    ensures c !in Joined(lines, sep)
  {
    if |lines| > 1 { AbsentInLines(lines[1..], sep, c); }
  }

  /** What is shown of plain lines is those lines, whichever of the three line endings separates them; so all three
      give the same result. */
  lemma LineEndingsAlike(lines: seq<string>, sep: string, scheme: string -> string)
    requires forall k :: 0 <= k < |lines| ==> PlainLine(lines[k])
    requires sep == "\n" || sep == "\r" || sep == "\r\n"
    ensures Visible(Joined(lines, sep)) == JoinLines(lines)
    ensures Sanitize(Joined(lines, sep), scheme) == Sanitize(JoinLines(lines), scheme)
  {
    EndingsShown(lines, sep);
    EndingsShown(lines, "\n");
    JoinedLines(lines);
  }

  lemma {:induction false} JoinedLines(lines: seq<string>)
    ensures Joined(lines, "\n") == JoinLines(lines)
  {
    if |lines| > 1 {
      JoinedLines(lines[1..]);
      assert lines[0] + ("\n" + JoinLines(lines[1..])) == lines[0] + "\n" + JoinLines(lines[1..]);
    }
  }

  lemma EndingsShown(lines: seq<string>, sep: string)
    requires forall k :: 0 <= k < |lines| ==> PlainLine(lines[k])
    requires sep == "\n" || sep == "\r" || sep == "\r\n"
    ensures Visible(Joined(lines, sep)) == Joined(lines, "\n")
  {
    var s := Joined(lines, sep);
    NoEscapeLeft(lines, sep);
    RemoveBehind(s, "");
    assert s + "" == s;
    ControlsKept(lines, sep);
    if sep == "\r\n" {
      CrLfJoined(lines);
      CrJoined(lines, "\n");
    } else {
      AbsentInLines(lines, sep, if sep == "\n" then '\r' else '\n');
      NoPairKept(s);
      CrJoined(lines, sep);
    }
  }

  // ---------------------------------------------------------------- where lines break, and what is trimmed

  /** A character between two others ends a line exactly if it is one of these ten. */
  lemma BreaksLine(c: char)
    ensures SplitLines(['a', c, 'b']) == [['a'], ['b']] <==>
      c in {'\n', '\r', '\U{0B}', '\U{0C}', '\U{1C}', '\U{1D}', '\U{1E}', '\U{85}', '\U{2028}', '\U{2029}'}
  {
    var s := ['a', c, 'b'];
    if IsBreak(c) {
      assert BreakFrom(s, 1) == 1 && BreakFrom(s, 0) == 1;
      assert s[..1] == ['a'] && s[2..] == ['b'];
      assert BreakFrom(['b'], 1) == 1 && BreakFrom(['b'], 0) == 1;
    } else {
      assert BreakFrom(s, 3) == 3 && BreakFrom(s, 2) == 3 && BreakFrom(s, 1) == 3;
      assert SplitLines(s) == [s];
    }
  }

  /** A lone character is trimmed away exactly if it is one of these. */
  lemma TrimmedAway(c: char)
    ensures Strip([c]) == "" <==>
      c in {'\t', '\n', '\U{0B}', '\U{0C}', '\r', '\U{1C}', '\U{1D}', '\U{1E}', '\U{1F}', ' ', '\U{85}', '\U{A0}',
            '\U{1680}', '\U{2000}', '\U{2001}', '\U{2002}', '\U{2003}', '\U{2004}', '\U{2005}', '\U{2006}', '\U{2007}',
            '\U{2008}', '\U{2009}', '\U{200A}', '\U{2028}', '\U{2029}', '\U{202F}', '\U{205F}', '\U{3000}'}
  {
    StripTrims([c]);
    assert AllSpace([c]) <==> IsSpace(c) by { if AllSpace([c]) { assert [c][0] == c; } }
  }
}
