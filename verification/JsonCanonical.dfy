/** What canonical JSON text identifies: the value, whatever order its dictionaries list their keys in. */
module JsonCanonical {
  import opened Texts
  import opened Sorting
  import opened Json
  import opened JsonReading

  // ---------------------------------------------------------------- dictionaries as finite maps

  /** A JSON value as Python compares it: dictionaries are unordered. */
  datatype Value =
    | VNull
    | VBool(b: bool)
    | VInt(n: int)
    | VFloat(repr: FloatText)
    | VStr(t: Text)
    | VArr(items: seq<Value>)
    | VObj(entries: map<Text, Value>)

  function Denote(j: Json): Value
    decreases j, 1
  {
    match j
    case Null => VNull
    case Bool(b) => VBool(b)
    case Int(n) => VInt(n)
    case Float(repr) => VFloat(repr)
    case Str(t) => VStr(t)
    case Arr(items) => VArr(DenoteItems(items))
    case Obj(fields) => VObj(DenoteFields(fields))
  }

  function DenoteItems(items: seq<Json>): (r: seq<Value>)
    ensures |r| == |items|
    ensures forall i :: 0 <= i < |r| ==> r[i] == Denote(items[i])
    decreases items, 0
  {
    if items == [] then [] else [Denote(items[0])] + DenoteItems(items[1..])
  }

  function DenoteField(f: Field): Value
    decreases f, 2
  {
    Denote(f.value)
  }

  function DenoteFields(fields: seq<Field>): map<Text, Value>
    decreases fields, 0
  {
    if fields == [] then map[] else DenoteFields(fields[1..])[fields[0].key := DenoteField(fields[0])]
  }

  /** No dictionary of the tree repeats a key. */
  ghost predicate WellFormed(j: Json) {
    match j
    case Arr(items) => forall i :: 0 <= i < |items| ==> WellFormed(items[i])
    case Obj(fields) =>
      DistinctKeys(fields, FieldKey) && forall i :: 0 <= i < |fields| ==> WellFormed(fields[i].value)
    case _ => true
  }

  /** Every dictionary of the tree lists its keys in strictly ascending order. */
  ghost predicate SortedTree(j: Json) {
    match j
    case Arr(items) => forall i :: 0 <= i < |items| ==> SortedTree(items[i])
    case Obj(fields) =>
      StrictlySorted(fields, FieldKey) && forall i :: 0 <= i < |fields| ==> SortedTree(fields[i].value)
    case _ => true
  }

  /** No text of the tree has a surrogate pair left to fuse. */
  ghost predicate FusedTree(j: Json) {
    match j
    case Str(t) => Fuse(t) == t
    case Arr(items) => forall i :: 0 <= i < |items| ==> FusedTree(items[i])
    case Obj(fields) =>
      forall i :: 0 <= i < |fields| ==> Fuse(fields[i].key) == fields[i].key && FusedTree(fields[i].value)
    case _ => true
  }

  lemma {:induction false} DenoteFieldsAt(fields: seq<Field>)
    requires DistinctKeys(fields, FieldKey)
    ensures forall k :: k in DenoteFields(fields) <==> exists i :: 0 <= i < |fields| && fields[i].key == k
    ensures forall i :: 0 <= i < |fields| ==> DenoteFields(fields)[fields[i].key] == Denote(fields[i].value)
  {
    if fields != [] {
      var rest := fields[1..];
      DenoteFieldsAt(rest);
      forall k ensures k in DenoteFields(fields) <==> exists i :: 0 <= i < |fields| && fields[i].key == k {
        if k in DenoteFields(rest) {
          var i :| 0 <= i < |rest| && rest[i].key == k;
          assert fields[i + 1].key == k;
        }
        if i :| 0 <= i < |fields| && fields[i].key == k {
          if i > 0 { assert rest[i - 1].key == k; }
        }
      }
      forall i | 0 <= i < |fields|
        ensures DenoteFields(fields)[fields[i].key] == Denote(fields[i].value)
      {
        if i > 0 {
          assert rest[i - 1] == fields[i];
          assert FieldKey(fields[0]) != FieldKey(fields[i]);
        }
      }
    }
  }

  /** Equal membership gives equal maps. */
  lemma DenoteSameMembers(a: seq<Field>, b: seq<Field>)
    requires DistinctKeys(a, FieldKey) && DistinctKeys(b, FieldKey)
    requires forall f :: f in a <==> f in b
    ensures DenoteFields(a) == DenoteFields(b)
  {
    DenoteFieldsAt(a);
    DenoteFieldsAt(b);
    var m, n := DenoteFields(a), DenoteFields(b);
    forall k | k in m ensures k in n && m[k] == n[k] {
      var i :| 0 <= i < |a| && a[i].key == k;
      assert a[i] in b;
      var j :| 0 <= j < |b| && b[j] == a[i];
    }
    forall k | k in n ensures k in m {
      var i :| 0 <= i < |b| && b[i].key == k;
      assert b[i] in a;
      var j :| 0 <= j < |a| && a[j] == b[i];
    }
  }

  // ---------------------------------------------------------------- sorting the tree

  lemma DistinctThroughMap(fields: seq<Field>, mapped: seq<Field>)
    requires |fields| == |mapped|
    requires forall i :: 0 <= i < |fields| ==> mapped[i].key == fields[i].key
    requires DistinctKeys(fields, FieldKey)
    ensures DistinctKeys(mapped, FieldKey)
  {
    forall i, j | 0 <= i < j < |mapped| ensures FieldKey(mapped[i]) != FieldKey(mapped[j]) {
      assert FieldKey(fields[i]) != FieldKey(fields[j]);
    }
  }

  lemma {:induction false} SortTreeSorts(j: Json)
    requires WellFormed(j)
    ensures SortedTree(SortTree(j))
    ensures Denote(SortTree(j)) == Denote(j)
  {
    match j
    case Arr(items) =>
      forall i | 0 <= i < |items|
        ensures SortedTree(SortTree(items[i])) && Denote(SortTree(items[i])) == Denote(items[i])
      {
        SortTreeSorts(items[i]);
      }
      assert DenoteItems(SortItems(items)) == DenoteItems(items);
    case Obj(fields) =>
      var values := SortValues(fields);
      forall i | 0 <= i < |fields|
        ensures SortedTree(values[i].value) && Denote(values[i].value) == Denote(fields[i].value)
      {
        SortTreeSorts(fields[i].value);
      }
      DistinctThroughMap(fields, values);
      SortStrict(values, FieldKey);
      SortPermutes(values, FieldKey);
      var sorted := Sort(values, FieldKey);
      forall i | 0 <= i < |sorted| ensures SortedTree(sorted[i].value) {
        assert sorted[i] in values;
      }
      StrictlySortedIsSorted(sorted, FieldKey);
      DenoteSameMembers(sorted, values);
      DenoteMapped(fields, values);
    case _ =>
  }

  lemma {:induction false} DenoteMapped(fields: seq<Field>, mapped: seq<Field>)
    requires |fields| == |mapped|
    requires forall i :: 0 <= i < |fields| ==>
      mapped[i].key == fields[i].key && Denote(mapped[i].value) == Denote(fields[i].value)
    ensures DenoteFields(mapped) == DenoteFields(fields)
  {
    if fields != [] {
      DenoteMapped(fields[1..], mapped[1..]);
      assert mapped[0].key == fields[0].key;
    }
  }

  function KeyList(fields: seq<Field>): (r: seq<Text>)
    ensures |r| == |fields|
    ensures forall i :: 0 <= i < |r| ==> r[i] == fields[i].key
  {
    seq(|fields|, i requires 0 <= i < |fields| => fields[i].key)
  }

  /** Two sorted lists over the same keys list them alike. */
  lemma SameKeys(a: seq<Field>, b: seq<Field>)
    requires StrictlySorted(a, FieldKey) && StrictlySorted(b, FieldKey)
    requires forall k :: k in KeyList(a) <==> k in KeyList(b)
    ensures KeyList(a) == KeyList(b)
  {
    forall i, j | 0 <= i < j < |a| ensures Less(TextKey(KeyList(a)[i]), TextKey(KeyList(a)[j])) {
      assert Less(FieldKey(a[i]), FieldKey(a[j]));
    }
    forall i, j | 0 <= i < j < |b| ensures Less(TextKey(KeyList(b)[i]), TextKey(KeyList(b)[j])) {
      assert Less(FieldKey(b[i]), FieldKey(b[j]));
    }
    StrictlySortedUnique(KeyList(a), KeyList(b), TextKey);
  }

  /** A sorted tree is determined by its value. */
  lemma {:induction false} SortedTreeUnique(a: Json, b: Json)
    requires SortedTree(a) && SortedTree(b)
    requires Denote(a) == Denote(b)
    ensures a == b
    decreases a
  {
    match a
    case Arr(items) =>
      forall i | 0 <= i < |items| ensures items[i] == b.items[i] {
        assert DenoteItems(items)[i] == DenoteItems(b.items)[i];
        SortedTreeUnique(items[i], b.items[i]);
      }
    case Obj(fields) =>
      var fs, gs := fields, b.fields;
      StrictlySortedIsSorted(fs, FieldKey);
      StrictlySortedIsSorted(gs, FieldKey);
      DenoteFieldsAt(fs);
      DenoteFieldsAt(gs);
      forall k ensures k in KeyList(fs) <==> k in KeyList(gs) {
        assert k in KeyList(fs) <==> k in DenoteFields(fs) by { InKeyList(fs, k); }
        assert k in KeyList(gs) <==> k in DenoteFields(gs) by { InKeyList(gs, k); }
      }
      SameKeys(fs, gs);
      assert |fs| == |KeyList(fs)| == |gs|;
      forall i | 0 <= i < |fs| ensures fs[i] == gs[i] {
        assert KeyList(fs)[i] == KeyList(gs)[i];
        assert DenoteFields(fs)[fs[i].key] == DenoteFields(gs)[gs[i].key];
        SortedTreeUnique(fs[i].value, gs[i].value);
      }
    case _ =>
  }

  lemma InKeyList(fields: seq<Field>, k: Text)
    ensures k in KeyList(fields) <==> exists i :: 0 <= i < |fields| && fields[i].key == k
  {
    if k in KeyList(fields) {
      var i :| 0 <= i < |KeyList(fields)| && KeyList(fields)[i] == k;
      assert fields[i].key == k;
    }
    if i :| 0 <= i < |fields| && fields[i].key == k {
      assert KeyList(fields)[i] == k;
    }
  }

  /** Insertion order is forgotten, and nothing else is. */
  lemma SortedEqualIff(a: Json, b: Json)
    requires WellFormed(a) && WellFormed(b)
    ensures SortTree(a) == SortTree(b) <==> Denote(a) == Denote(b)
  {
    SortTreeSorts(a);
    SortTreeSorts(b);
    if Denote(a) == Denote(b) { SortedTreeUnique(SortTree(a), SortTree(b)); }
  }

  // ---------------------------------------------------------------- fused trees

  lemma {:induction false} FuseTreeFuses(j: Json)
    ensures FusedTree(FuseTree(j))
  {
    match j
    case Str(t) => FuseIdempotent(t);
    case Arr(items) => forall i | 0 <= i < |items| ensures FusedTree(FuseItems(items)[i]) { FuseTreeFuses(items[i]); }
    case Obj(fields) =>
      forall i | 0 <= i < |fields|
        ensures Fuse(FuseFields(fields)[i].key) == FuseFields(fields)[i].key && FusedTree(FuseFields(fields)[i].value)
      {
        FuseIdempotent(fields[i].key);
        FuseTreeFuses(fields[i].value);
      }
    case _ =>
  }

  lemma {:induction false} FuseTreeIdentity(j: Json)
    requires FusedTree(j)
    ensures FuseTree(j) == j
  {
    match j
    case Arr(items) =>
      forall i | 0 <= i < |items| ensures FuseItems(items)[i] == items[i] { FuseTreeIdentity(items[i]); }
      assert FuseItems(items) == items;
    case Obj(fields) =>
      forall i | 0 <= i < |fields| ensures FuseFields(fields)[i] == fields[i] { FuseTreeIdentity(fields[i].value); }
      assert FuseFields(fields) == fields;
    case _ =>
  }

  lemma {:induction false} SortTreeFused(j: Json)
    requires FusedTree(j)
    ensures FusedTree(SortTree(j))
  {
    match j
    case Arr(items) => forall i | 0 <= i < |items| ensures FusedTree(SortItems(items)[i]) { SortTreeFused(items[i]); }
    case Obj(fields) =>
      var values := SortValues(fields);
      var sorted := Sort(values, FieldKey);
      SortPermutes(values, FieldKey);
      forall i | 0 <= i < |sorted| ensures Fuse(sorted[i].key) == sorted[i].key && FusedTree(sorted[i].value) {
        assert sorted[i] in values;
        var k :| 0 <= k < |values| && values[k] == sorted[i];
        SortTreeFused(fields[k].value);
      }
    case _ =>
  }

  lemma {:induction false} SortTreeIdentity(j: Json)
    requires SortedTree(j)
    ensures SortTree(j) == j
  {
    match j
    case Arr(items) =>
      forall i | 0 <= i < |items| ensures SortItems(items)[i] == items[i] { SortTreeIdentity(items[i]); }
      assert SortItems(items) == items;
    case Obj(fields) =>
      forall i | 0 <= i < |fields| ensures SortValues(fields)[i] == fields[i] { SortTreeIdentity(fields[i].value); }
      assert SortValues(fields) == fields;
      StrictlySortedIsSorted(fields, FieldKey);
      SortIdentity(fields, FieldKey);
    case _ =>
  }

  // ---------------------------------------------------------------- reading objects as dictionaries

  lemma {:induction false} PutFacts(d: seq<Field>, f: Field)
    requires DistinctKeys(d, FieldKey)
    ensures DistinctKeys(Put(d, f), FieldKey)
    ensures forall g :: g in Put(d, f) ==> g == f || g in d
  {
    if d != [] {
      PutFacts(d[1..], f);
      var r := Put(d, f);
      if d[0].key == f.key {
        forall i, j | 0 <= i < j < |r| ensures FieldKey(r[i]) != FieldKey(r[j]) {
          assert FieldKey(d[i]) != FieldKey(d[j]);
          assert FieldKey(r[i]) == FieldKey(d[i]) && FieldKey(r[j]) == FieldKey(d[j]);
        }
      } else {
        forall i, j | 0 <= i < j < |r| ensures FieldKey(r[i]) != FieldKey(r[j]) {
          if i == 0 {
            assert r[j] == Put(d[1..], f)[j - 1] && r[j] in Put(d[1..], f);
            if r[j] != f {
              var k :| 0 <= k < |d[1..]| && d[1..][k] == r[j];
              assert FieldKey(d[0]) != FieldKey(d[k + 1]);
            }
          }
        }
      }
    }
  }

  lemma {:induction false} DictOfFacts(fields: seq<Field>)
    ensures DistinctKeys(DictOf(fields), FieldKey)
    ensures forall g :: g in DictOf(fields) ==> g in fields
  {
    if fields != [] {
      DictOfFacts(fields[..|fields| - 1]);
      PutFacts(DictOf(fields[..|fields| - 1]), fields[|fields| - 1]);
    }
  }

  lemma {:induction false} PutFresh(d: seq<Field>, f: Field)
    requires forall i :: 0 <= i < |d| ==> d[i].key != f.key
    ensures Put(d, f) == d + [f]
  {
    if d != [] {
      PutFresh(d[1..], f);
      assert d == [d[0]] + d[1..];
    }
  }

  lemma {:induction false} DictOfIdentity(fields: seq<Field>)
    requires DistinctKeys(fields, FieldKey)
    ensures DictOf(fields) == fields
  {
    if fields != [] {
      var n := |fields| - 1;
      DictOfIdentity(fields[..n]);
      forall i | 0 <= i < n ensures fields[..n][i].key != fields[n].key {
        assert FieldKey(fields[i]) != FieldKey(fields[n]);
      }
      PutFresh(fields[..n], fields[n]);
      assert fields == fields[..n] + [fields[n]];
    }
  }

  lemma {:induction false} DictTreeWellFormed(j: Json)
    ensures WellFormed(DictTree(j))
  {
    match j
    case Arr(items) => forall i | 0 <= i < |items| ensures WellFormed(DictItems(items)[i]) { DictTreeWellFormed(items[i]); }
    case Obj(fields) =>
      var values := DictValues(fields);
      forall i | 0 <= i < |fields| ensures WellFormed(values[i].value) { DictTreeWellFormed(fields[i].value); }
      DictOfFacts(values);
      var d := DictOf(values);
      forall i | 0 <= i < |d| ensures WellFormed(d[i].value) {
        assert d[i] in values;
      }
    case _ =>
  }

  lemma {:induction false} DictTreeFused(j: Json)
    requires FusedTree(j)
    ensures FusedTree(DictTree(j))
  {
    match j
    case Arr(items) => forall i | 0 <= i < |items| ensures FusedTree(DictItems(items)[i]) { DictTreeFused(items[i]); }
    case Obj(fields) =>
      var values := DictValues(fields);
      forall i | 0 <= i < |fields| ensures FusedTree(values[i].value) && Fuse(values[i].key) == values[i].key {
        DictTreeFused(fields[i].value);
      }
      DictOfFacts(values);
      var d := DictOf(values);
      forall i | 0 <= i < |d| ensures Fuse(d[i].key) == d[i].key && FusedTree(d[i].value) {
        assert d[i] in values;
      }
    case _ =>
  }

  lemma {:induction false} DictTreeIdentity(j: Json)
    requires SortedTree(j)
    ensures DictTree(j) == j
  {
    match j
    case Arr(items) =>
      forall i | 0 <= i < |items| ensures DictItems(items)[i] == items[i] { DictTreeIdentity(items[i]); }
      assert DictItems(items) == items;
    case Obj(fields) =>
      forall i | 0 <= i < |fields| ensures DictValues(fields)[i] == fields[i] { DictTreeIdentity(fields[i].value); }
      assert DictValues(fields) == fields;
      StrictlySortedIsSorted(fields, FieldKey);
      DictOfIdentity(fields);
    case _ =>
  }

  // ---------------------------------------------------------------- main results

  /** Dictionary order never shows, and equal text means equal values up to surrogate pairs. */
  lemma DumpsEqualIff(a: Json, b: Json, spaced: bool)
    ensures Dumps(a, spaced) == Dumps(b, spaced) <==> FuseTree(SortTree(a)) == FuseTree(SortTree(b))
  {
    PrintedEqualIff(SortTree(a), SortTree(b), spaced);
  }

  /** On trees without surrogate pairs canonical text is the same exactly for the same value. */
  lemma DumpsIdentifiesValue(a: Json, b: Json, spaced: bool)
    requires WellFormed(a) && WellFormed(b)
    requires FusedTree(a) && FusedTree(b)
    ensures Dumps(a, spaced) == Dumps(b, spaced) <==> Denote(a) == Denote(b)
  {
    DumpsEqualIff(a, b, spaced);
    SortTreeFused(a);
    SortTreeFused(b);
    FuseTreeIdentity(SortTree(a));
    FuseTreeIdentity(SortTree(b));
    SortedEqualIff(a, b);
  }

  /** The keys of every dictionary, sorted and then fused, are still strictly ascending. */
  ghost predicate KeysStable(j: Json) { SortedTree(FuseTree(SortTree(j))) }

  /** The tree that `json.loads` gives for the text `json.dumps` wrote. */
  function Reloaded(j: Json): Json { DictTree(FuseTree(SortTree(j))) }

  /** Writing a reloaded tree again gives the same text exactly when its keys were stable. */
  lemma ReloadedPrintsSameIff(j: Json, spaced: bool)
    requires WellFormed(j)
    ensures Dumps(Reloaded(j), spaced) == Dumps(j, spaced) <==> KeysStable(j)
    ensures FuseTree(SortTree(Reloaded(j))) == FuseTree(SortTree(j)) <==> KeysStable(j)
  {
    var fused := FuseTree(SortTree(j));
    DumpsEqualIff(Reloaded(j), j, spaced);
    FuseTreeFuses(SortTree(j));
    DictTreeWellFormed(fused);
    DictTreeFused(fused);
    SortTreeFused(Reloaded(j));
    FuseTreeIdentity(SortTree(Reloaded(j)));
    SortTreeSorts(Reloaded(j));
    if KeysStable(j) {
      DictTreeIdentity(fused);
      SortTreeIdentity(fused);
    }
  }

  /** A key with a surrogate pair is what it takes to be unstable. */
  lemma {:induction false} FusedKeysAreStable(j: Json)
    requires WellFormed(j) && FusedTree(j)
    ensures KeysStable(j)
  {
    SortTreeFused(j);
    FuseTreeIdentity(SortTree(j));
    SortTreeSorts(j);
  }
}
