/** Looking keys up in objects that were written and read back. */
module JsonObjects {
  import opened Wrappers
  import opened Texts
  import opened Sorting
  import opened Json
  import opened JsonCanonical

  /** `d.get(key)`. */
  function Get(fields: seq<Field>, key: Text): Option<Json> {
    if fields == [] then None else if fields[0].key == key then Some(fields[0].value) else Get(fields[1..], key)
  }

  lemma {:induction false} GetIff(fields: seq<Field>, key: Text, value: Json)
    requires DistinctKeys(fields, FieldKey)
    ensures Get(fields, key) == Some(value) <==> Field(key, value) in fields
  {
    if fields != [] {
      assert forall i | 0 < i < |fields| :: FieldKey(fields[0]) != FieldKey(fields[i]);
      GetIff(fields[1..], key, value);
      assert fields == [fields[0]] + fields[1..];
    }
  }

  lemma GetAt(fields: seq<Field>, i: nat)
    requires DistinctKeys(fields, FieldKey) && i < |fields|
    ensures Get(fields, fields[i].key) == Some(fields[i].value)
  {
    GetIff(fields, fields[i].key, fields[i].value);
    assert fields[i] in fields;
  }

  lemma {:induction false} GetPut(d: seq<Field>, f: Field, key: Text)
    ensures Get(Put(d, f), key) == if key == f.key then Some(f.value) else Get(d, key)
  {
    if d != [] {
      GetPut(d[1..], f, key);
      assert forall g: Field, rest: seq<Field> :: ([g] + rest)[1..] == rest;
    }
  }

  /** Entry i is the last one under its key. */
  ghost predicate LastUnder(fields: seq<Field>, key: Text, i: nat) {
    i < |fields| && fields[i].key == key && forall j :: i < j < |fields| ==> fields[j].key != key
  }

  lemma {:induction false} GetLast(fields: seq<Field>, key: Text, i: nat)
    requires LastUnder(fields, key, i)
    ensures Get(DictOf(fields), key) == Some(fields[i].value)
  {
    var n := |fields| - 1;
    GetPut(DictOf(fields[..n]), fields[n], key);
    if i < n { GetLast(fields[..n], key, i); }
  }

  ghost predicate Lacks(fields: seq<Field>, key: Text) { forall i :: 0 <= i < |fields| ==> fields[i].key != key }

  lemma LacksNext(init: seq<Field>, f: Field, key: Text)
    ensures Lacks(init + [f], key) <==> Lacks(init, key) && f.key != key
  {
    if Lacks(init + [f], key) {
      forall i | 0 <= i < |init| ensures init[i].key != key { assert (init + [f])[i].key != key; }
      assert (init + [f])[|init|].key != key;
    }
  }

  lemma {:induction false} GetNone(fields: seq<Field>, key: Text)
    ensures Get(DictOf(fields), key).None? <==> Lacks(fields, key)
  {
    if fields != [] {
      var init, last := fields[..|fields| - 1], fields[|fields| - 1];
      assert fields == init + [last];
      GetNone(init, key);
      LacksNext(init, last, key);
      GetPut(DictOf(init), last, key);
    }
  }

  /** A dictionary made from a list of entries has the last value under each key, and no other key. */
  lemma GetDictOf(fields: seq<Field>, key: Text)
    ensures forall i: nat :: LastUnder(fields, key, i) ==> Get(DictOf(fields), key) == Some(fields[i].value)
    ensures Get(DictOf(fields), key).None? <==> forall i :: 0 <= i < |fields| ==> fields[i].key != key
  {
    forall i: nat | LastUnder(fields, key, i) ensures Get(DictOf(fields), key) == Some(fields[i].value) {
      GetLast(fields, key, i);
    }
    GetNone(fields, key);
  }

  ghost predicate PlainKeys(fields: seq<Field>) {
    DistinctKeys(fields, FieldKey) && forall i :: 0 <= i < |fields| ==> Fuse(fields[i].key) == fields[i].key
  }

  /** An object with plain keys keeps them through writing and reading; each value is reloaded. */
  lemma GetReloaded(fields: seq<Field>, i: nat)
    requires PlainKeys(fields) && i < |fields|
    ensures Reloaded(Obj(fields)).Obj?
    ensures Get(Reloaded(Obj(fields)).fields, fields[i].key) == Some(Reloaded(fields[i].value))
  {
    var values := SortValues(fields);
    var sorted := Sort(values, FieldKey);
    var read := DictValues(FuseFields(sorted));
    assert Reloaded(Obj(fields)) == Obj(DictOf(read));
    SortedPlain(fields);
    SortPermutes(values, FieldKey);
    assert values[i] in sorted;
    var p :| 0 <= p < |sorted| && sorted[p] == values[i];
    ReadPlain(sorted, p);
  }

  lemma SortedPlain(fields: seq<Field>)
    requires PlainKeys(fields)
    ensures PlainKeys(Sort(SortValues(fields), FieldKey))
  {
    var values := SortValues(fields);
    var sorted := Sort(values, FieldKey);
    DistinctThroughMap(fields, values);
    SortStrict(values, FieldKey);
    StrictlySortedIsSorted(sorted, FieldKey);
    SortPermutes(values, FieldKey);
    forall p | 0 <= p < |sorted| ensures Fuse(sorted[p].key) == sorted[p].key {
      assert sorted[p] in values;
    }
  }

  lemma ReadPlain(sorted: seq<Field>, p: nat)
    requires PlainKeys(sorted) && p < |sorted|
    ensures Get(DictOf(DictValues(FuseFields(sorted))), sorted[p].key) == Some(DictTree(FuseTree(sorted[p].value)))
  {
    var read := DictValues(FuseFields(sorted));
    DistinctThroughMap(sorted, read);
    DictOfIdentity(read);
    GetAt(read, p);
  }

  // ---------------------------------------------------------------- objects over the same keys

  type Pair = (Field, Field)

  function PairKey(z: Pair): Key { z.0.key }

  function Firsts(z: seq<Pair>): (r: seq<Field>)
    ensures |r| == |z| && forall i :: 0 <= i < |r| ==> r[i] == z[i].0
  {
    seq(|z|, i requires 0 <= i < |z| => z[i].0)
  }

  function Seconds(z: seq<Pair>): (r: seq<Field>)
    ensures |r| == |z| && forall i :: 0 <= i < |r| ==> r[i] == z[i].1
  {
    seq(|z|, i requires 0 <= i < |z| => z[i].1)
  }

  ghost predicate Alike(z: seq<Pair>) { forall i :: 0 <= i < |z| ==> z[i].0.key == z[i].1.key }

  lemma {:induction false} InsertPairs(x: Pair, z: seq<Pair>)
    requires x.0.key == x.1.key && Alike(z)
    ensures Firsts(Insert(x, z, PairKey)) == Insert(x.0, Firsts(z), FieldKey)
    ensures Seconds(Insert(x, z, PairKey)) == Insert(x.1, Seconds(z), FieldKey)
    ensures Alike(Insert(x, z, PairKey))
  {
    if z == [] {
      assert Firsts([x]) == [x.0] && Seconds([x]) == [x.1];
    } else {
      var fs, ss := Firsts(z), Seconds(z);
      assert FieldKey(fs[0]) == FieldKey(ss[0]) == PairKey(z[0]);
      if !Less(PairKey(z[0]), PairKey(x)) {
        assert Firsts([x] + z) == [x.0] + fs && Seconds([x] + z) == [x.1] + ss;
      } else {
        InsertPairs(x, z[1..]);
        PairsTail(z[0], Insert(x, z[1..], PairKey));
        assert fs[1..] == Firsts(z[1..]) && ss[1..] == Seconds(z[1..]);
      }
    }
  }

  lemma PairsTail(x: Pair, t: seq<Pair>)
    ensures Firsts([x] + t) == [x.0] + Firsts(t)
    ensures Seconds([x] + t) == [x.1] + Seconds(t)
  {
  }

  lemma {:induction false} SortPairs(z: seq<Pair>)
    requires Alike(z)
    ensures Firsts(Sort(z, PairKey)) == Sort(Firsts(z), FieldKey)
    ensures Seconds(Sort(z, PairKey)) == Sort(Seconds(z), FieldKey)
    ensures Alike(Sort(z, PairKey))
  {
    if z != [] {
      SortPairs(z[1..]);
      InsertPairs(z[0], Sort(z[1..], PairKey));
      assert Firsts(z)[1..] == Firsts(z[1..]) && Seconds(z)[1..] == Seconds(z[1..]);
    }
  }

  ghost predicate FusedAlike(z: seq<Pair>) {
    forall i :: 0 <= i < |z| ==> FuseTree(z[i].0.value) == FuseTree(z[i].1.value)
  }

  lemma FuseFieldsAlike(z: seq<Pair>)
    requires Alike(z)
    ensures FuseFields(Firsts(z)) == FuseFields(Seconds(z)) <==> FusedAlike(z)
  {
    if FuseFields(Firsts(z)) == FuseFields(Seconds(z)) {
      forall i | 0 <= i < |z| ensures FuseTree(z[i].0.value) == FuseTree(z[i].1.value) {
        assert FuseFields(Firsts(z))[i] == FuseFields(Seconds(z))[i];
      }
    }
    if FusedAlike(z) {
      forall i | 0 <= i < |z| ensures FuseFields(Firsts(z))[i] == FuseFields(Seconds(z))[i] {
        assert z[i].0.key == z[i].1.key;
      }
    }
  }

  lemma FusedAlikeSorted(z: seq<Pair>)
    ensures FusedAlike(Sort(z, PairKey)) <==> FusedAlike(z)
  {
    var s := Sort(z, PairKey);
    SortPermutes(z, PairKey);
    if FusedAlike(s) {
      forall i | 0 <= i < |z| ensures FuseTree(z[i].0.value) == FuseTree(z[i].1.value) {
        assert z[i] in s;
      }
    }
    if FusedAlike(z) {
      forall i | 0 <= i < |s| ensures FuseTree(s[i].0.value) == FuseTree(s[i].1.value) {
        assert s[i] in z;
      }
    }
  }

  /** Objects over the same keys print alike exactly when their values do, key by key. */
  lemma FieldwiseEqualIff(fs: seq<Field>, gs: seq<Field>)
    requires |fs| == |gs|
    requires forall i :: 0 <= i < |fs| ==> fs[i].key == gs[i].key
    ensures FuseTree(SortTree(Obj(fs))) == FuseTree(SortTree(Obj(gs))) <==>
      forall i :: 0 <= i < |fs| ==> FuseTree(SortTree(fs[i].value)) == FuseTree(SortTree(gs[i].value))
  {
    var z := Pairs(fs, gs);
    PairsSorted(fs, gs);
    FuseFieldsAlike(Sort(z, PairKey));
    FusedAlikeSorted(z);
    ObjectSorted(fs);
    ObjectSorted(gs);
    FusedAlikeValues(fs, gs, z);
  }

  function Pairs(fs: seq<Field>, gs: seq<Field>): (z: seq<Pair>)
    requires |fs| == |gs|
    ensures |z| == |fs| && forall i :: 0 <= i < |z| ==> z[i] == (SortField(fs[i]), SortField(gs[i]))
  {
    seq(|fs|, i requires 0 <= i < |fs| => (SortField(fs[i]), SortField(gs[i])))
  }

  lemma PairsSorted(fs: seq<Field>, gs: seq<Field>)
    requires |fs| == |gs|
    requires forall i :: 0 <= i < |fs| ==> fs[i].key == gs[i].key
    ensures var s := Sort(Pairs(fs, gs), PairKey);
            Firsts(s) == Sort(SortValues(fs), FieldKey) && Seconds(s) == Sort(SortValues(gs), FieldKey) && Alike(s)
  {
    var z := Pairs(fs, gs);
    assert Firsts(z) == SortValues(fs) && Seconds(z) == SortValues(gs);
    SortPairs(z);
  }

  lemma ObjectSorted(fs: seq<Field>)
    ensures FuseTree(SortTree(Obj(fs))) == Obj(FuseFields(Sort(SortValues(fs), FieldKey)))
  {
  }

  lemma FusedAlikeValues(fs: seq<Field>, gs: seq<Field>, z: seq<Pair>)
    requires |fs| == |gs| == |z|
    requires forall i :: 0 <= i < |z| ==> z[i] == (SortField(fs[i]), SortField(gs[i]))
    ensures FusedAlike(z) <==>
      forall i :: 0 <= i < |fs| ==> FuseTree(SortTree(fs[i].value)) == FuseTree(SortTree(gs[i].value))
  {
    if FusedAlike(z) {
      forall i | 0 <= i < |fs| ensures FuseTree(SortTree(fs[i].value)) == FuseTree(SortTree(gs[i].value)) {
        assert FuseTree(z[i].0.value) == FuseTree(z[i].1.value);
      }
    }
  }
}
