/** The Python string operations that the text scanners share. */
module PyStrings {
  import Texts

  predicate IsSpace(c: char) { Texts.IsSpace(c as int) }

  predicate AllSpace(s: string) { forall i :: 0 <= i < |s| ==> IsSpace(s[i]) }

  function LStrip(s: string): (r: string)
    ensures |r| <= |s|
  {
    if s != "" && IsSpace(s[0]) then LStrip(s[1..]) else s
  }

  function RStrip(s: string): (r: string)
    ensures |r| <= |s|
  {
    if s != "" && IsSpace(s[|s| - 1]) then RStrip(s[..|s| - 1]) else s
  }

  lemma {:induction false} LStripFacts(s: string)
    ensures var r := LStrip(s);
            && r == s[|s| - |r|..] && AllSpace(s[..|s| - |r|])
            && (r != "" ==> !IsSpace(r[0]))
  {
    if s != "" && IsSpace(s[0]) {
      LStripFacts(s[1..]);
      var n := |s| - |LStrip(s)|;
      assert s[..n] == [s[0]] + s[1..][..n - 1];
    }
  }

  lemma {:induction false} RStripFacts(s: string)
    ensures var r := RStrip(s);
            && r == s[..|r|] && AllSpace(s[|r|..])
            && (r != "" ==> !IsSpace(r[|r| - 1]))
  {
    if s != "" && IsSpace(s[|s| - 1]) {
      RStripFacts(s[..|s| - 1]);
      var n := |RStrip(s)|;
      assert s[n..] == s[..|s| - 1][n..] + [s[|s| - 1]];
    }
  }

  function Strip(s: string): string { RStrip(LStrip(s)) }

  /** A text without white space at its ends. */
  predicate Trimmed(s: string) { s == "" || (!IsSpace(s[0]) && !IsSpace(s[|s| - 1])) }

  lemma StripTrims(s: string)
    ensures Trimmed(Strip(s))
    ensures Trimmed(s) ==> Strip(s) == s
    ensures forall c :: c in Strip(s) ==> c in s
    ensures Strip(s) == "" <==> AllSpace(s)
  {
    StripOnce(s, LStrip(s));
    LStripBlank(s);
    RStripBlank(LStrip(s));
  }

  lemma StripOnce(s: string, l: string)
    requires l == LStrip(s)
    ensures Trimmed(RStrip(l)) && (Trimmed(s) ==> RStrip(l) == s) && forall c :: c in RStrip(l) ==> c in s
  {
    LStripFacts(s);
    RStripFacts(l);
    if RStrip(l) != "" { assert RStrip(l)[0] == l[0]; }
  }

  lemma {:induction false} LStripBlank(s: string)
    ensures LStrip(s) == "" <==> AllSpace(s)
    ensures AllSpace(LStrip(s)) ==> LStrip(s) == ""
  {
    if s != "" && IsSpace(s[0]) {
      LStripBlank(s[1..]);
      assert forall i | 1 <= i < |s| :: s[i] == s[1..][i - 1];
    }
  }

  lemma {:induction false} RStripBlank(s: string)
    ensures RStrip(s) == "" <==> AllSpace(s)
  {
    if s != "" && IsSpace(s[|s| - 1]) {
      RStripBlank(s[..|s| - 1]);
      assert forall i | 0 <= i < |s| - 1 :: s[i] == s[..|s| - 1][i];
    }
  }

  /** `sep.join(parts)`. */
  function Joined(parts: seq<string>, sep: string): string {
    if parts == [] then "" else if |parts| == 1 then parts[0] else parts[0] + (sep + Joined(parts[1..], sep))
  }

  predicate EndsWith(s: string, suffix: string) { |suffix| <= |s| && s[|s| - |suffix|..] == suffix }

  lemma EndsWithIff(s: string, suffix: string)
    ensures EndsWith(s, suffix) <==> exists front :: s == front + suffix
  {
    if EndsWith(s, suffix) { assert s == s[..|s| - |suffix|] + suffix; }
  }

  /** `s.find(c)`, the length of s when there is none. */
  function Find(s: string, c: char): (i: nat)
    ensures i <= |s|
    ensures i < |s| ==> s[i] == c
    ensures forall k :: 0 <= k < i ==> s[k] != c
  {
    if s == "" || s[0] == c then 0 else 1 + Find(s[1..], c)
  }

  /** The same from place i on; nothing is cut off the text. */
  function FindFrom(s: string, c: char, i: nat): (r: nat)
    requires i <= |s|
    ensures i <= r <= |s|
    ensures r < |s| ==> s[r] == c
    ensures forall k :: i <= k < r ==> s[k] != c
    decreases |s| - i
  {
    if i == |s| || s[i] == c then i else FindFrom(s, c, i + 1)
  }

  lemma FindFromIs(s: string, c: char, i: nat, r: nat)
    requires i <= r <= |s| && (r < |s| ==> s[r] == c) && forall k :: i <= k < r ==> s[k] != c
    ensures FindFrom(s, c, i) == r
  {
  }

  /** Some way of crossing out characters of b leaves a. */
  ghost predicate Subsequence(a: string, b: string) {
    a == "" || (b != "" && (Subsequence(a, b[1..]) || (a[0] == b[0] && Subsequence(a[1..], b[1..]))))
  }

  lemma {:induction false} SubsequenceSelf(a: string)
    ensures Subsequence(a, a)
  {
    if a != "" { SubsequenceSelf(a[1..]); }
  }

  lemma {:induction false} SubsequenceLater(a: string, b: string, n: nat)
    requires n <= |b| && Subsequence(a, b[n..])
    ensures Subsequence(a, b)
  {
    if n == 0 {
      assert b[0..] == b;
    } else {
      assert b[n..] == b[1..][n - 1..];
      SubsequenceLater(a, b[1..], n - 1);
    }
  }
}
