/** Regular expressions as a backtracking engine tries them: the reference for every hand-written scanner. */
module Patterns {

  /** A class of characters: those in some range, or those in none. */
  datatype Class = Within(ranges: seq<(char, char)>) | Outside(ranges: seq<(char, char)>)

  predicate InRange(ranges: seq<(char, char)>, c: char) {
    exists i :: 0 <= i < |ranges| && ranges[i].0 <= c <= ranges[i].1
  }

  predicate Has(k: Class, c: char) {
    match k
    case Within(ranges) => InRange(ranges, c)
    case Outside(ranges) => !InRange(ranges, c)
  }

  /** `Many` is a greedy star over one class. */
  datatype Pattern =
    | One(k: Class)
    | Many(k: Class)
    | Then(first: Pattern, second: Pattern)
    | Either(first: Pattern, second: Pattern)
    | Nothing

  /** The ends of all matches that start at place i, in the order in which they are tried. */
  function Ends(p: Pattern, s: string, i: nat): (r: seq<nat>)
    requires i <= |s|
    ensures forall e :: e in r ==> i <= e <= |s|
    decreases p, |s| - i, 0
  {
    match p
    case Nothing => [i]
    case One(k) => if i < |s| && Has(k, s[i]) then [i + 1] else []
    case Many(k) => (if i < |s| && Has(k, s[i]) then Ends(p, s, i + 1) else []) + [i]
    case Then(first, second) => EndsAfter(second, s, i, Ends(first, s, i))
    case Either(first, second) => Ends(first, s, i) + Ends(second, s, i)
  }

  /** The ends of a pattern that starts at each of some places in turn. */
  function EndsAfter(p: Pattern, s: string, i: nat, starts: seq<nat>): (r: seq<nat>)
    requires i <= |s| && forall e :: e in starts ==> i <= e <= |s|
    ensures forall e :: e in r ==> i <= e <= |s|
    decreases p, |s| - i, |starts| + 1
  {
    if starts == [] then []
    else
      assert starts[0] in starts;
      assert forall e | e in starts[1..] :: e in starts;
      Ends(p, s, starts[0]) + EndsAfter(p, s, i, starts[1..])
  }

  /** `re.match`: the length of the first match at the start of s, 0 when there is none. No pattern here matches the
      empty text. */
  function MatchLength(p: Pattern, s: string): nat { if Ends(p, s, 0) == [] then 0 else Ends(p, s, 0)[0] }

  function Is(c: char): Pattern { One(Within([(c, c)])) }

  function Literal(w: string): Pattern {
    if w == "" then Nothing else if |w| == 1 then Is(w[0]) else Then(Is(w[0]), Literal(w[1..]))
  }

  // ---------------------------------------------------------------- how patterns match

  lemma EndsOne(k: Class, s: string, i: nat)
    requires i <= |s|
    ensures Ends(One(k), s, i) == if i < |s| && Has(k, s[i]) then [i + 1] else []
  {
  }

  lemma HasOne(c: char, d: char)
    ensures Has(Within([(c, c)]), d) <==> d == c
    ensures Has(Outside([(c, c)]), d) <==> d != c
  {
    assert InRange([(c, c)], d) <==> d == c by {
      if d == c { assert [(c, c)][0].0 <= d; }
    }
  }

  lemma EndsIs(c: char, s: string, i: nat)
    requires i <= |s|
    ensures Ends(Is(c), s, i) == if i < |s| && s[i] == c then [i + 1] else []
  {
    if i < |s| { HasOne(c, s[i]); }
  }

  /** After a first part that ends in one place only, the second part starts there. */
  lemma EndsThen(p: Pattern, q: Pattern, s: string, i: nat, e: nat)
    requires i <= e <= |s| && Ends(p, s, i) == [e]
    ensures Ends(Then(p, q), s, i) == Ends(q, s, e)
  {
    EndsAfterOne(q, s, i, e);
  }

  lemma NoEndsThen(p: Pattern, q: Pattern, s: string, i: nat)
    requires i <= |s| && Ends(p, s, i) == []
    ensures Ends(Then(p, q), s, i) == []
  {
  }

  lemma EndsIsThen(c: char, q: Pattern, s: string, i: nat)
    requires i <= |s|
    ensures Ends(Then(Is(c), q), s, i) == if i < |s| && s[i] == c then Ends(q, s, i + 1) else []
  {
    EndsIs(c, s, i);
    if i < |s| && s[i] == c { EndsThen(Is(c), q, s, i, i + 1); } else { NoEndsThen(Is(c), q, s, i); }
  }

  /** Two given characters, and what follows them. */
  lemma EndsTwo(c: char, d: char, q: Pattern, s: string)
    ensures Ends(Then(Is(c), Then(Is(d), q)), s, 0) == if |s| >= 2 && s[0] == c && s[1] == d then Ends(q, s, 2) else []
  {
    EndsIsThen(c, Then(Is(d), q), s, 0);
    if |s| >= 1 { EndsIsThen(d, q, s, 1); }
  }

  lemma EndsManyThen(k: Class, q: Pattern, s: string, i: nat)
    requires i <= |s|
    ensures Ends(Then(Many(k), q), s, i) ==
      (if i < |s| && Has(k, s[i]) then Ends(Then(Many(k), q), s, i + 1) else []) + Ends(q, s, i)
  {
    if i < |s| && Has(k, s[i]) {
      EndsAfterAppend(q, s, i, Ends(Many(k), s, i + 1), [i]);
      EndsAfterFrom(q, s, i, i + 1, Ends(Many(k), s, i + 1));
    }
    EndsAfterOne(q, s, i, i);
    assert [] + [i] == [i];
  }

  lemma EndsAfterStep(q: Pattern, s: string, i: nat, a: seq<nat>, rest: seq<nat>)
    requires a != [] && a[1..] == rest && i <= |s| && (forall e :: e in a ==> i <= e <= |s|) && forall e :: e in rest ==> i <= e <= |s|
    ensures i <= a[0] <= |s| && EndsAfter(q, s, i, a) == Ends(q, s, a[0]) + EndsAfter(q, s, i, rest)
  {
    assert a[0] in a;
  }

  lemma EndsAfterOne(q: Pattern, s: string, i: nat, e: nat)
    requires i <= e <= |s|
    ensures EndsAfter(q, s, i, [e]) == Ends(q, s, e)
  {
    EndsAfterStep(q, s, i, [e], []);
  }

  lemma Regroup(a: seq<nat>, b: seq<nat>, c: seq<nat>)
    ensures (a + b) + c == a + (b + c)
  {
  }

  lemma {:induction false} EndsAfterAppend(q: Pattern, s: string, i: nat, a: seq<nat>, b: seq<nat>)
    requires i <= |s| && (forall e :: e in a ==> i <= e <= |s|) && forall e :: e in b ==> i <= e <= |s|
    ensures EndsAfter(q, s, i, a + b) == EndsAfter(q, s, i, a) + EndsAfter(q, s, i, b)
  {
    if a == [] {
      assert a + b == b;
    } else {
      assert forall e | e in a[1..] :: e in a;
      EndsAfterAppend(q, s, i, a[1..], b);
      EndsAfterStep(q, s, i, a, a[1..]);
      EndsAfterStep(q, s, i, a + b, a[1..] + b);
      Regroup(Ends(q, s, a[0]), EndsAfter(q, s, i, a[1..]), EndsAfter(q, s, i, b));
    }
  }

  lemma {:induction false} EndsAfterFrom(q: Pattern, s: string, i: nat, j: nat, a: seq<nat>)
    requires i <= j <= |s| && forall e :: e in a ==> j <= e <= |s|
    ensures EndsAfter(q, s, i, a) == EndsAfter(q, s, j, a)
  {
    if a != [] {
      assert forall e | e in a[1..] :: e in a;
      EndsAfterFrom(q, s, i, j, a[1..]);
    }
  }

  /** A star whose continuation fails everywhere inside its run goes all the way: what follows starts at the run's end. */
  lemma {:induction false} ManyToEnd(k: Class, q: Pattern, s: string, i: nat, n: nat)
    requires i <= n <= |s| && (forall e :: i <= e < n ==> Has(k, s[e])) && (n < |s| ==> !Has(k, s[n]))
    requires forall e :: i <= e < n ==> Ends(q, s, e) == []
    ensures Ends(Then(Many(k), q), s, i) == Ends(q, s, n)
    decreases n - i
  {
    if i < n {
      ManyToEnd(k, q, s, i + 1, n);
      ManyStep(k, q, s, i);
    } else {
      ManyStop(k, q, s, i);
    }
  }

  lemma ManyStep(k: Class, q: Pattern, s: string, i: nat)
    requires i < |s| && Has(k, s[i]) && Ends(q, s, i) == []
    ensures Ends(Then(Many(k), q), s, i) == Ends(Then(Many(k), q), s, i + 1)
  {
    EndsManyThen(k, q, s, i);
  }

  lemma ManyStop(k: Class, q: Pattern, s: string, i: nat)
    requires i <= |s| && (i < |s| ==> !Has(k, s[i]))
    ensures Ends(Then(Many(k), q), s, i) == Ends(q, s, i)
  {
    EndsManyThen(k, q, s, i);
  }
}
