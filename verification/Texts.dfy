/** Python strings: sequences of code points, lone surrogates included. */
module Texts {

  type CodePoint = c: int | 0 <= c < 0x110000
  type Text = seq<CodePoint>

  /** A literal of the source, as a Python string. */
  function Lit(s: string): (t: Text)
    ensures |t| == |s|
    ensures forall i :: 0 <= i < |s| ==> t[i] == s[i] as int
  {
    seq(|s|, i requires 0 <= i < |s| => s[i] as int)
  }

  predicate IsHigh(c: int) { 0xD800 <= c < 0xDC00 }

  predicate IsLow(c: int) { 0xDC00 <= c < 0xE000 }

  /** The code point that a surrogate pair stands for. */
  function Combine(high: int, low: int): (c: CodePoint)
    requires IsHigh(high) && IsLow(low)
  {
    0x10000 + (high - 0xD800) * 0x400 + (low - 0xDC00)
  }

  /** The text with every high surrogate that is directly followed by a low one
      replaced, together with it, by the code point they stand for. */
  function Fuse(t: Text): Text {
    if |t| < 2 then t
    else if IsHigh(t[0]) && IsLow(t[1]) then [Combine(t[0], t[1])] + Fuse(t[2..])
    else [t[0]] + Fuse(t[1..])
  }

  /** A text in which no high surrogate is directly followed by a low one. */
  ghost predicate NoPair(t: Text) {
    forall i :: 0 <= i < |t| - 1 ==> !(IsHigh(t[i]) && IsLow(t[i + 1]))
  }

  lemma {:induction false} FuseIdentity(t: Text)
    ensures NoPair(t) ==> Fuse(t) == t
  {
    if |t| >= 2 && NoPair(t) {
      assert !(IsHigh(t[0]) && IsLow(t[0 + 1]));
      assert NoPair(t[1..]) by {
        forall i | 0 <= i < |t[1..]| - 1 ensures !(IsHigh(t[1..][i]) && IsLow(t[1..][i + 1])) {
          assert t[1..][i] == t[i + 1] && t[1..][i + 1] == t[(i + 1) + 1];
        }
      }
      FuseIdentity(t[1..]);
      assert t == [t[0]] + t[1..];
    }
  }

  lemma {:induction false} FuseLeavesNoPair(t: Text)
    ensures NoPair(Fuse(t))
    ensures t == [] <==> Fuse(t) == []
    ensures t != [] && IsLow(Fuse(t)[0]) ==> IsLow(t[0])
  {
    if |t| >= 2 {
      var k := if IsHigh(t[0]) && IsLow(t[1]) then 2 else 1;
      FuseLeavesNoPair(t[k..]);
      var r := Fuse(t[k..]);
      assert Fuse(t)[1..] == r;
      forall i | 0 <= i < |Fuse(t)| - 1 ensures !(IsHigh(Fuse(t)[i]) && IsLow(Fuse(t)[i + 1])) {
        if i > 0 {
          assert Fuse(t)[i] == r[i - 1] && Fuse(t)[i + 1] == r[(i - 1) + 1];
        }
      }
    }
  }

  lemma FuseIdempotent(t: Text)
    ensures Fuse(Fuse(t)) == Fuse(t)
  {
    FuseLeavesNoPair(t);
    FuseIdentity(Fuse(t));
  }

  /** A text is its own sort key. */
  function TextKey(t: Text): seq<int> { t }

  /** `str.isspace` on one character. */
  predicate IsSpace(c: CodePoint) {
    9 <= c <= 13 || 28 <= c <= 32 || c == 0x85 || c == 0xA0 || c == 0x1680 ||
    0x2000 <= c <= 0x200A || c == 0x2028 || c == 0x2029 || c == 0x202F || c == 0x205F || c == 0x3000
  }

  /** `not t.strip()`: the text is empty or all white space. */
  predicate IsBlank(t: Text) { forall c :: c in t ==> IsSpace(c) }

  lemma {:induction false} FuseBlank(t: Text)
    ensures IsBlank(Fuse(t)) <==> IsBlank(t)
  {
    if |t| >= 2 {
      var k := if IsHigh(t[0]) && IsLow(t[1]) then 2 else 1;
      FuseBlank(t[k..]);
      assert Fuse(t) == [Fuse(t)[0]] + Fuse(t[k..]);
      assert t == t[..k] + t[k..];
      if k == 2 {
        assert !IsSpace(t[0]) && t[0] in t;
        assert Fuse(t)[0] in Fuse(t);
      } else {
        assert t[0] == Fuse(t)[0];
      }
    }
  }
}
