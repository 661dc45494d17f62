/** Python's `sorted(..., key=...)`: a stable insertion sort on lexicographic keys. */
module Sorting {

  /** Every sort key in the repository is a number, a string or a tuple of both;
      each is a finite sequence of integers compared lexicographically. */
  type Key = seq<int>

  predicate Less(a: Key, b: Key) {
    b != [] && (a == [] || a[0] < b[0] || (a[0] == b[0] && Less(a[1..], b[1..])))
  }

  lemma {:induction false} LessIrreflexive(a: Key)
    ensures !Less(a, a)
  {
    if a != [] { LessIrreflexive(a[1..]); }
  }

  lemma {:induction false} LessTransitive(a: Key, b: Key, c: Key)
    requires Less(a, b) && Less(b, c)
    ensures Less(a, c)
  {
    if a != [] && a[0] == b[0] == c[0] { LessTransitive(a[1..], b[1..], c[1..]); }
  }

  lemma {:induction false} LessTotal(a: Key, b: Key)
    ensures a == b || Less(a, b) || Less(b, a)
  {
    if a != [] && b != [] && a[0] == b[0] {
      LessTotal(a[1..], b[1..]);
      assert a == [a[0]] + a[1..] && b == [b[0]] + b[1..];
    }
  }

  lemma LessAsymmetric(a: Key, b: Key)
    requires Less(a, b)
    ensures !Less(b, a)
  {
    if Less(b, a) {
      LessTransitive(a, b, a);
      LessIrreflexive(a);
    }
  }

  /** If b is not below a and c is not below b, then c is not below a. */
  lemma NotLessTransitive(a: Key, b: Key, c: Key)
    requires !Less(b, a) && !Less(c, b)
    ensures !Less(c, a)
  {
    LessTotal(a, b);
    LessTotal(b, c);
    if a != b && b != c {
      LessTransitive(a, b, c);
      LessAsymmetric(a, c);
    }
  }

  /** The keys agree up to place k, where the first ends or has the lesser number. */
  ghost predicate LesserAt(a: Key, b: Key, k: nat) {
    k <= |a| && k < |b| && a[..k] == b[..k] && (k == |a| || a[k] < b[k])
  }

  lemma SameHead<T>(s: seq<T>, t: seq<T>, k: nat)
    requires 0 < k <= |s| && k <= |t| && s[..k] == t[..k]
    ensures s[0] == t[0]
  {
    assert s[..k][0] == t[..k][0];
  }

  /** Keys are compared at the first place where they differ. */
  lemma {:induction false} LessIff(a: Key, b: Key)
    ensures Less(a, b) <==> exists k: nat :: LesserAt(a, b, k)
  {
    if a == [] || b == [] || a[0] != b[0] {
      if b != [] { assert LesserAt(a, b, 0) <==> a == [] || a[0] < b[0]; }
      forall k: nat | LesserAt(a, b, k) ensures k == 0 {
        if k > 0 { SameHead(a, b, k); }
      }
    } else {
      LessIff(a[1..], b[1..]);
      if k: nat :| LesserAt(a[1..], b[1..], k) {
        assert a[..k + 1] == [a[0]] + a[1..][..k] && b[..k + 1] == [b[0]] + b[1..][..k];
        assert LesserAt(a, b, k + 1);
      }
      if k: nat :| LesserAt(a, b, k) {
        assert a[1..][..k - 1] == a[..k][1..] && b[1..][..k - 1] == b[..k][1..];
        assert LesserAt(a[1..], b[1..], k - 1);
      }
    }
  }

  function Insert<T>(x: T, s: seq<T>, key: T -> Key): seq<T> {
    if s == [] || !Less(key(s[0]), key(x)) then [x] + s else [s[0]] + Insert(x, s[1..], key)
  }

  function Sort<T>(s: seq<T>, key: T -> Key): seq<T> {
    if s == [] then [] else Insert(s[0], Sort(s[1..], key), key)
  }

  ghost predicate NoRepeats<T>(s: seq<T>) { forall i, j :: 0 <= i < j < |s| ==> s[i] != s[j] }

  /** Each value once, as a set that was built from the list holds it. */
  function Unique<T(==)>(s: seq<T>): seq<T> {
    if s == [] then []
    else if s[0] in s[1..] then Unique(s[1..])
    else [s[0]] + Unique(s[1..])
  }

  lemma {:induction false} UniqueFacts<T>(s: seq<T>)
    ensures forall x :: x in Unique(s) <==> x in s
    ensures NoRepeats(Unique(s)) && |Unique(s)| <= |s|
  {
    if s != [] {
      UniqueFacts(s[1..]);
      assert s == [s[0]] + s[1..];
    }
  }

  lemma {:induction false} UniqueFixes<T>(s: seq<T>)
    ensures NoRepeats(s) ==> Unique(s) == s
    ensures |Unique(s)| == |s| ==> NoRepeats(s)
  {
    if s != [] {
      UniqueFixes(s[1..]);
      UniqueFacts(s[1..]);
      assert s == [s[0]] + s[1..];
      if NoRepeats(s) {
        assert forall i | 0 <= i < |s[1..]| :: s[1..][i] == s[i + 1] != s[0];
        assert s[0] !in s[1..];
      }
    }
  }

  ghost predicate Sorted<T>(s: seq<T>, key: T -> Key) {
    forall i, j :: 0 <= i < j < |s| ==> !Less(key(s[j]), key(s[i]))
  }

  ghost predicate StrictlySorted<T>(s: seq<T>, key: T -> Key) {
    forall i, j :: 0 <= i < j < |s| ==> Less(key(s[i]), key(s[j]))
  }

  ghost predicate DistinctKeys<T>(s: seq<T>, key: T -> Key) {
    forall i, j :: 0 <= i < j < |s| ==> key(s[i]) != key(s[j])
  }

  lemma {:induction false} InsertPermutes<T>(x: T, s: seq<T>, key: T -> Key)
    ensures multiset(Insert(x, s, key)) == multiset{x} + multiset(s)
  {
    if s == [] || !Less(key(s[0]), key(x)) {
    } else {
      InsertPermutes(x, s[1..], key);
      assert s == [s[0]] + s[1..];
    }
  }

  lemma {:induction false} SortPermutes<T>(s: seq<T>, key: T -> Key)
    ensures multiset(Sort(s, key)) == multiset(s)
    ensures |Sort(s, key)| == |s|
    ensures forall x :: x in Sort(s, key) <==> x in s
  {
    if s != [] {
      SortPermutes(s[1..], key);
      InsertPermutes(s[0], Sort(s[1..], key), key);
      assert s == [s[0]] + s[1..];
    }
    assert |multiset(Sort(s, key))| == |multiset(s)|;
    forall x ensures x in Sort(s, key) <==> x in s {
      assert x in multiset(Sort(s, key)) <==> x in multiset(s);
    }
  }

  lemma {:induction false} InsertSorts<T>(x: T, s: seq<T>, key: T -> Key)
    requires Sorted(s, key)
    ensures Sorted(Insert(x, s, key), key)
  {
    if s == [] {
    } else if !Less(key(s[0]), key(x)) {
      var r := [x] + s;
      forall i, j | 0 <= i < j < |r| ensures !Less(key(r[j]), key(r[i])) {
        if i == 0 && j > 1 { NotLessTransitive(key(x), key(s[0]), key(s[j - 1])); }
      }
    } else {
      var t := Insert(x, s[1..], key);
      InsertSorts(x, s[1..], key);
      InsertPermutes(x, s[1..], key);
      var r := [s[0]] + t;
      forall i, j | 0 <= i < j < |r| ensures !Less(key(r[j]), key(r[i])) {
        if i == 0 {
          assert r[j] in multiset(t);
          if r[j] == x {
            LessAsymmetric(key(s[0]), key(x));
          } else {
            assert r[j] in multiset(s[1..]);
            var k :| 0 <= k < |s[1..]| && s[1..][k] == r[j];
            assert s[k + 1] == r[j];
          }
        }
      }
    }
  }

  lemma {:induction false} SortSorts<T>(s: seq<T>, key: T -> Key)
    ensures Sorted(Sort(s, key), key)
  {
    if s != [] {
      SortSorts(s[1..], key);
      InsertSorts(s[0], Sort(s[1..], key), key);
    }
  }

  /** Neighbours in order are enough. */
  lemma {:induction false} NeighboursSorted<T>(s: seq<T>, key: T -> Key)
    requires forall i :: 0 <= i < |s| - 1 ==> Less(key(s[i]), key(s[i + 1]))
    ensures StrictlySorted(s, key)
  {
    if |s| > 1 {
      var t := s[1..];
      forall i | 0 <= i < |t| - 1 ensures Less(key(t[i]), key(t[i + 1])) {
        assert t[i] == s[i + 1] && t[i + 1] == s[(i + 1) + 1];
      }
      NeighboursSorted(t, key);
      forall i, j | 0 <= i < j < |s| ensures Less(key(s[i]), key(s[j])) {
        if i > 0 {
          assert s[i] == t[i - 1] && s[j] == t[j - 1];
        } else if j > 1 {
          assert Less(key(s[0]), key(s[0 + 1])) && s[1] == t[0] && s[j] == t[j - 1];
          LessTransitive(key(s[0]), key(s[1]), key(s[j]));
        }
      }
    }
  }

  /** Sorting never creates equal keys. */
  lemma {:induction false} SortStrict<T>(s: seq<T>, key: T -> Key)
    requires DistinctKeys(s, key)
    ensures StrictlySorted(Sort(s, key), key)
  {
    if s != [] {
      var t := Sort(s[1..], key);
      SortStrict(s[1..], key);
      SortPermutes(s[1..], key);
      forall y | y in t ensures key(y) != key(s[0]) {
        assert y in multiset(t);
        var k :| 0 <= k < |s[1..]| && s[1..][k] == y;
        assert s[k + 1] == y;
      }
      InsertStrict(s[0], t, key);
    }
  }

  lemma {:induction false} InsertStrict<T>(x: T, s: seq<T>, key: T -> Key)
    requires StrictlySorted(s, key)
    requires forall y :: y in s ==> key(y) != key(x)
    ensures StrictlySorted(Insert(x, s, key), key)
  {
    if s == [] {
    } else if !Less(key(s[0]), key(x)) {
      LessTotal(key(s[0]), key(x));
      var r := [x] + s;
      forall i, j | 0 <= i < j < |r| ensures Less(key(r[i]), key(r[j])) {
        if i == 0 && j > 1 { LessTransitive(key(x), key(s[0]), key(s[j - 1])); }
      }
    } else {
      var t := Insert(x, s[1..], key);
      InsertStrict(x, s[1..], key);
      InsertPermutes(x, s[1..], key);
      var r := [s[0]] + t;
      forall i, j | 0 <= i < j < |r| ensures Less(key(r[i]), key(r[j])) {
        if i == 0 {
          assert r[j] in multiset(t);
          if r[j] != x {
            assert r[j] in multiset(s[1..]);
            var k :| 0 <= k < |s[1..]| && s[1..][k] == r[j];
            assert s[k + 1] == r[j];
          }
        }
      }
    }
  }

  lemma {:induction false} SortIdentity<T>(s: seq<T>, key: T -> Key)
    requires Sorted(s, key)
    ensures Sort(s, key) == s
  {
    if s != [] {
      SortIdentity(s[1..], key);
      if |s| > 1 { assert !Less(key(s[1]), key(s[0])); }
      assert s == [s[0]] + s[1..];
    }
  }

  lemma StrictlySortedIsSorted<T>(s: seq<T>, key: T -> Key)
    requires StrictlySorted(s, key)
    ensures Sorted(s, key)
    ensures DistinctKeys(s, key)
  {
    forall i, j | 0 <= i < j < |s| ensures !Less(key(s[j]), key(s[i])) && key(s[i]) != key(s[j]) {
      LessAsymmetric(key(s[i]), key(s[j]));
      LessIrreflexive(key(s[i]));
    }
  }

  /** A set of values has one strictly sorted listing. */
  lemma {:induction false} StrictlySortedUnique<T>(a: seq<T>, b: seq<T>, key: T -> Key)
    requires StrictlySorted(a, key) && StrictlySorted(b, key)
    requires forall x :: x in a <==> x in b
    ensures a == b
  {
    assert |a| > 0 ==> a[0] in b;
    assert |b| > 0 ==> b[0] in a;
    if a != [] && b != [] {
      HeadIsLeast(a, b, key);
      StrictlySortedIsSorted(a, key);
      StrictlySortedIsSorted(b, key);
      forall x ensures x in a[1..] <==> x in b[1..] {
        if x in a[1..] {
          var i :| 0 <= i < |a[1..]| && a[1..][i] == x;
          assert a[i + 1] == x && key(x) != key(a[0]);
          assert x in b;
        }
        if x in b[1..] {
          var i :| 0 <= i < |b[1..]| && b[1..][i] == x;
          assert b[i + 1] == x && key(x) != key(b[0]);
          assert x in a;
        }
      }
      StrictlySortedUnique(a[1..], b[1..], key);
      assert a == [a[0]] + a[1..] && b == [b[0]] + b[1..];
    }
  }

  lemma HeadIsLeast<T>(a: seq<T>, b: seq<T>, key: T -> Key)
    requires StrictlySorted(a, key) && StrictlySorted(b, key)
    requires forall x :: x in a <==> x in b
    requires a != [] && b != []
    ensures a[0] == b[0]
  {
    assert a[0] in b && b[0] in a;
    var i :| 0 <= i < |b| && b[i] == a[0];
    var j :| 0 <= j < |a| && a[j] == b[0];
    if i > 0 && j > 0 {
      assert Less(key(b[0]), key(b[i])) && Less(key(a[0]), key(a[j]));
      LessAsymmetric(key(b[0]), key(a[0]));
    }
  }
}
