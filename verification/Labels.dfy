/** The propagating label state and its join. */
module Labels {
  import opened Texts
  import opened Sorting

  datatype Tier = NoneTier | Sensitive | Regulated | Restricted | Prohibited

  function TierRank(t: Tier): int {
    match t
    case NoneTier => 0
    case Sensitive => 1
    case Regulated => 2
    case Restricted => 3
    case Prohibited => 4
  }

  datatype Level = PrincipalDirect | SystemInternal | ExternalUntrusted

  datatype CategoryTag = CategoryTag(category: Text, tier: Tier, riskIds: seq<Text>, provenance: Text)

  /** The two frozen sets of a label state, each listed in some iteration order. */
  datatype LabelState = LabelState(a: seq<CategoryTag>, b: seq<Level>)

  function CategoryKey(t: CategoryTag): Key { t.category }

  // ---------------------------------------------------------------- sorted sets of texts

  /** `sorted(set(ts))`. */
  function SortedSet(ts: seq<Text>): seq<Text> { Sort(Unique(ts), TextKey) }

  lemma SortedSetFacts(ts: seq<Text>)
    ensures StrictlySorted(SortedSet(ts), TextKey)
    ensures forall t :: t in SortedSet(ts) <==> t in ts
  {
    UniqueFacts(ts);
    SortStrict(Unique(ts), TextKey);
    SortPermutes(Unique(ts), TextKey);
  }

  lemma SortedSetEqual(ts: seq<Text>, us: seq<Text>)
    requires forall t :: t in ts <==> t in us
    ensures SortedSet(ts) == SortedSet(us)
  {
    SortedSetFacts(ts);
    SortedSetFacts(us);
    StrictlySortedUnique(SortedSet(ts), SortedSet(us), TextKey);
  }

  // ---------------------------------------------------------------- composing the tags of one category

  /** The authority table: the rank of a provenance is its place. */
  function AuthorityTable(): (names: seq<string>)
    ensures |names| == 7
  {
    ["raise-only-inspector", "legacy-migration", "system-default", "source-declared", "curated-mcp", "operator-declared",
     "human-declared"]
  }

  /** The place of a provenance in a list of names, the length of the list when it is not there. */
  function PlaceOf(names: seq<string>, prov: Text): (r: nat)
    ensures r <= |names|
    ensures r < |names| ==> prov == Lit(names[r])
  {
    if names == [] || prov == Lit(names[0]) then 0 else 1 + PlaceOf(names[1..], prov)
  }

  const SYSTEM_DEFAULT_RANK: nat := 2

  /** A provenance that the table does not list ranks as `system-default`. */
  function Authority(prov: Text): int {
    var place := PlaceOf(AuthorityTable(), prov);
    if place < 7 then place else SYSTEM_DEFAULT_RANK
  }

  /** `max(tiers)`: of equal ranks the first. */
  function MaxTier(tags: seq<CategoryTag>): (t: Tier)
    requires tags != []
    ensures forall i :: 0 <= i < |tags| ==> TierRank(tags[i].tier) <= TierRank(t)
    ensures exists i :: 0 <= i < |tags| && tags[i].tier == t
  {
    var last := |tags| - 1;
    if last == 0 then tags[0].tier
    else
      var m := MaxTier(tags[..last]);
      if TierRank(tags[last].tier) > TierRank(m) then tags[last].tier else m
  }

  /** Of two provenances the one of higher authority, of equals the first. */
  function Better(p: Text, q: Text): Text { if Authority(q) > Authority(p) then q else p }

  /** `max(provenances, key=_authority)`: of equal authority the first. */
  function BestProvenance(tags: seq<CategoryTag>): Text
    requires tags != []
  {
    var last := |tags| - 1;
    if last == 0 then tags[0].provenance else Better(BestProvenance(tags[..last]), tags[last].provenance)
  }

  function Risks(tags: seq<CategoryTag>): seq<Text> {
    if tags == [] then [] else tags[0].riskIds + Risks(tags[1..])
  }

  function OfCategory(tags: seq<CategoryTag>, c: Text): (r: seq<CategoryTag>)
    ensures forall t :: t in r <==> t in tags && t.category == c
  {
    if tags == [] then []
    else if tags[0].category == c then [tags[0]] + OfCategory(tags[1..], c)
    else OfCategory(tags[1..], c)
  }

  function CategoryNames(tags: seq<CategoryTag>): (r: seq<Text>)
    ensures |r| == |tags| && forall i :: 0 <= i < |r| ==> r[i] == tags[i].category
  {
    seq(|tags|, i requires 0 <= i < |tags| => tags[i].category)
  }

  function Merge(c: Text, tags: seq<CategoryTag>): CategoryTag
    requires tags != []
  {
    CategoryTag(c, MaxTier(tags), SortedSet(Risks(tags)), BestProvenance(tags))
  }

  function Categories(tags: seq<CategoryTag>): seq<Text> { SortedSet(CategoryNames(tags)) }

  lemma CategoriesFacts(tags: seq<CategoryTag>)
    ensures StrictlySorted(Categories(tags), TextKey)
    ensures forall c :: c in Categories(tags) <==> OfCategory(tags, c) != []
  {
    SortedSetFacts(CategoryNames(tags));
    forall c ensures c in Categories(tags) <==> OfCategory(tags, c) != [] {
      if c in Categories(tags) {
        var i :| 0 <= i < |tags| && CategoryNames(tags)[i] == c;
        assert tags[i] in OfCategory(tags, c);
      }
      if OfCategory(tags, c) != [] {
        var t := OfCategory(tags, c)[0];
        assert t in OfCategory(tags, c);
        var i :| 0 <= i < |tags| && tags[i] == t;
        assert CategoryNames(tags)[i] == c;
      }
    }
  }

  /** One tag for each category, strictest tier, all risks, most authoritative provenance. */
  function Compose(tags: seq<CategoryTag>): (r: seq<CategoryTag>)
    ensures |r| == |Categories(tags)|
    ensures forall i :: 0 <= i < |r| ==>
      OfCategory(tags, Categories(tags)[i]) != [] && r[i] == Merge(Categories(tags)[i], OfCategory(tags, Categories(tags)[i]))
  {
    CategoriesFacts(tags);
    var cs := Categories(tags);
    assert forall i | 0 <= i < |cs| :: cs[i] in cs;
    seq(|cs|, i requires 0 <= i < |cs| => Merge(cs[i], OfCategory(tags, cs[i])))
  }

  /** The union of the levels, listed by value. */
  function LevelSet(b: seq<Level>): seq<Level> {
    (if ExternalUntrusted in b then [ExternalUntrusted] else [])
    + (if PrincipalDirect in b then [PrincipalDirect] else [])
    + (if SystemInternal in b then [SystemInternal] else [])
  }

  function Join(x: LabelState, y: LabelState): LabelState { LabelState(Compose(x.a + y.a), LevelSet(x.b + y.b)) }

  /** `label_dominates`: nothing of the right state is missing or lower in the left one. */
  ghost predicate Dominates(left: LabelState, right: LabelState) {
    && AllCovered(Compose(right.a), Compose(left.a))
    && (forall l :: l in right.b ==> l in left.b)
  }

  ghost predicate AllCovered(part: seq<CategoryTag>, whole: seq<CategoryTag>) {
    forall t :: t in part ==> Covered(t, whole)
  }

  ghost predicate Covered(t: CategoryTag, tags: seq<CategoryTag>) {
    exists u :: u in tags && u.category == t.category && TierRank(u.tier) >= TierRank(t.tier)
  }

  // ---------------------------------------------------------------- laws of the join

  lemma {:induction false} OfCategoryAppend(s: seq<CategoryTag>, t: seq<CategoryTag>, c: Text)
    ensures OfCategory(s + t, c) == OfCategory(s, c) + OfCategory(t, c)
  {
    if s == [] {
      assert s + t == t;
    } else {
      OfCategoryAppend(s[1..], t, c);
      assert (s + t)[1..] == s[1..] + t;
    }
  }

  lemma {:induction false} RisksIn(tags: seq<CategoryTag>)
    ensures forall r :: r in Risks(tags) <==> exists i :: 0 <= i < |tags| && r in tags[i].riskIds
  {
    if tags != [] {
      RisksIn(tags[1..]);
      forall r ensures r in Risks(tags) <==> exists i :: 0 <= i < |tags| && r in tags[i].riskIds {
        if r in Risks(tags[1..]) {
          var i :| 0 <= i < |tags[1..]| && r in tags[1..][i].riskIds;
          assert r in tags[i + 1].riskIds;
        }
        if i :| 0 <= i < |tags| && r in tags[i].riskIds {
          if i > 0 { assert r in tags[1..][i - 1].riskIds; }
        }
      }
    }
  }

  lemma BetterAssociates(p: Text, q: Text, r: Text)
    ensures Better(Better(p, q), r) == Better(p, Better(q, r))
  {
  }

  lemma BestLast(tags: seq<CategoryTag>, x: CategoryTag)
    requires tags != []
    ensures BestProvenance(tags + [x]) == Better(BestProvenance(tags), x.provenance)
  {
    assert (tags + [x])[..|tags|] == tags;
  }

  lemma BestSnoc(s: seq<CategoryTag>, init: seq<CategoryTag>, x: CategoryTag)
    requires s != [] && init != [] && BestProvenance(s + init) == Better(BestProvenance(s), BestProvenance(init))
    ensures BestProvenance(s + (init + [x])) == Better(BestProvenance(s), BestProvenance(init + [x]))
  {
    assert s + (init + [x]) == (s + init) + [x];
    BestLast(s + init, x);
    BestLast(init, x);
    BetterAssociates(BestProvenance(s), BestProvenance(init), x.provenance);
  }

  lemma {:induction false} BestAppend(s: seq<CategoryTag>, t: seq<CategoryTag>)
    requires s != [] && t != []
    ensures BestProvenance(s + t) == Better(BestProvenance(s), BestProvenance(t))
  {
    var n := |t| - 1;
    assert t == t[..n] + [t[n]];
    if n == 0 {
      assert t == [t[0]];
      BestLast(s, t[0]);
    } else {
      BestAppend(s, t[..n]);
      BestSnoc(s, t[..n], t[n]);
    }
  }

  /** A merged state lists each category once, in order. */
  lemma ComposeStrict(tags: seq<CategoryTag>)
    ensures StrictlySorted(Compose(tags), CategoryKey)
  {
    CategoriesFacts(tags);
    var cs, r := Categories(tags), Compose(tags);
    forall i, j | 0 <= i < j < |r| ensures Less(CategoryKey(r[i]), CategoryKey(r[j])) {
      assert Less(TextKey(cs[i]), TextKey(cs[j]));
    }
  }

  lemma {:induction false} OfCategoryEmpty(tags: seq<CategoryTag>, c: Text)
    requires forall i :: 0 <= i < |tags| ==> tags[i].category != c
    ensures OfCategory(tags, c) == []
  {
    if tags != [] {
      assert tags[0].category != c;
      OfCategoryEmpty(tags[1..], c);
    }
  }

  lemma {:induction false} OfCategoryUnique(tags: seq<CategoryTag>, i: nat)
    requires DistinctKeys(tags, CategoryKey) && i < |tags|
    ensures OfCategory(tags, tags[i].category) == [tags[i]]
  {
    assert forall k | 0 < k < |tags| :: CategoryKey(tags[0]) != CategoryKey(tags[k]);
    if i == 0 {
      OfCategoryEmpty(tags[1..], tags[0].category);
    } else {
      assert CategoryKey(tags[0]) != CategoryKey(tags[i]);
      OfCategoryUnique(tags[1..], i - 1);
    }
  }

  /** What a merged state holds for a category. */
  lemma ComposedCategory(tags: seq<CategoryTag>, c: Text)
    ensures OfCategory(Compose(tags), c) ==
      if OfCategory(tags, c) == [] then [] else [Merge(c, OfCategory(tags, c))]
  {
    var r := Compose(tags);
    CategoriesFacts(tags);
    if OfCategory(tags, c) != [] {
      var i :| 0 <= i < |Categories(tags)| && Categories(tags)[i] == c;
      ComposeStrict(tags);
      StrictlySortedIsSorted(r, CategoryKey);
      OfCategoryUnique(r, i);
    } else {
      forall i | 0 <= i < |r| ensures r[i].category != c {
        assert OfCategory(tags, Categories(tags)[i]) != [];
      }
      OfCategoryEmpty(r, c);
    }
  }

  lemma LoneMerge(t: CategoryTag)
    requires t.riskIds == []
    ensures Merge(t.category, [t]) == t
  {
    assert [t][1..] == [];
    assert Risks([t]) == [];
  }

  /** A tag that is alone in its category, without risks, is composed as itself. */
  lemma LoneTagComposed(tags: seq<CategoryTag>, t: CategoryTag)
    requires OfCategory(tags, t.category) == [t] && t.riskIds == []
    ensures t in Compose(tags)
  {
    ComposedCategory(tags, t.category);
    LoneMerge(t);
    LoneIn(OfCategory(Compose(tags), t.category), t);
  }

  lemma LoneIn(s: seq<CategoryTag>, t: CategoryTag)
    requires s == [t]
    ensures t in s
  {
  }

  /** Merging in what has been merged already changes nothing. */
  lemma MergeAbsorbs(c: Text, s: seq<CategoryTag>, w: seq<CategoryTag>)
    requires w != [] && s <= w
    ensures Merge(c, s + [Merge(c, w)]) == Merge(c, w)
  {
    RisksAbsorb(s, w, Merge(c, w));
    BestAbsorbs(s, w, Merge(c, w));
    TierAbsorbs(s, w, Merge(c, w));
  }

  lemma RisksAbsorb(s: seq<CategoryTag>, w: seq<CategoryTag>, m: CategoryTag)
    requires s <= w && m.riskIds == SortedSet(Risks(w))
    ensures SortedSet(Risks(s + [m])) == SortedSet(Risks(w))
  {
    var v := s + [m];
    RisksIn(v);
    RisksIn(w);
    SortedSetFacts(Risks(w));
    forall r ensures r in Risks(v) <==> r in Risks(w) {
      if i :| 0 <= i < |v| && r in v[i].riskIds {
        if i < |s| { assert r in w[i].riskIds; }
      }
      if r in Risks(w) { assert r in v[|s|].riskIds; }
    }
    SortedSetEqual(Risks(v), Risks(w));
  }

  lemma BestAbsorbs(s: seq<CategoryTag>, w: seq<CategoryTag>, m: CategoryTag)
    requires w != [] && s <= w && m.provenance == BestProvenance(w)
    ensures BestProvenance(s + [m]) == BestProvenance(w)
  {
    assert w == s + w[|s|..];
    if s == [] {
      assert s + [m] == [m];
    } else {
      BestAppend(s, [m]);
      if |s| < |w| {
        BestAppend(s, w[|s|..]);
      } else {
        assert w == s;
      }
    }
  }

  lemma TierAbsorbs(s: seq<CategoryTag>, w: seq<CategoryTag>, m: CategoryTag)
    requires w != [] && s <= w && m.tier == MaxTier(w)
    ensures MaxTier(s + [m]) == MaxTier(w)
  {
    var v := s + [m];
    assert v[|s|] == m;
    var i :| 0 <= i < |v| && v[i].tier == MaxTier(v);
    if i < |s| { assert v[i] == w[i]; }
    assert TierRank(MaxTier(v)) == TierRank(MaxTier(w));
  }

  lemma ComposeAbsorbs(s: seq<CategoryTag>, x: seq<CategoryTag>)
    ensures Compose(s + Compose(s + x)) == Compose(s + x)
  {
    var w := s + x;
    var v := s + Compose(w);
    CategoriesFacts(v);
    CategoriesFacts(w);
    forall c ensures OfCategory(v, c) == [] <==> OfCategory(w, c) == [] {
      OfCategoryAppend(s, Compose(w), c);
      OfCategoryAppend(s, x, c);
      ComposedCategory(w, c);
    }
    StrictlySortedUnique(Categories(v), Categories(w), TextKey);
    forall i | 0 <= i < |Categories(w)| ensures Compose(v)[i] == Compose(w)[i] {
      var c := Categories(w)[i];
      OfCategoryAppend(s, Compose(w), c);
      OfCategoryAppend(s, x, c);
      ComposedCategory(w, c);
      MergeAbsorbs(c, OfCategory(s, c), OfCategory(w, c));
      assert Categories(v)[i] == c;
    }
  }

  /** Joining the same source labels in again changes nothing. */
  lemma JoinAbsorbs(s: LabelState, x: LabelState)
    ensures Join(s, Join(s, x)) == Join(s, x)
  {
    ComposeAbsorbs(s.a, x.a);
  }

  lemma CategoryKept(part: seq<CategoryTag>, whole: seq<CategoryTag>, t: CategoryTag) returns (u: CategoryTag)
    requires forall g :: g in part ==> g in whole
    requires t in Compose(part)
    ensures u in Compose(whole) && u.category == t.category && TierRank(u.tier) >= TierRank(t.tier)
  {
    var i :| 0 <= i < |Compose(part)| && Compose(part)[i] == t;
    var tags := OfCategory(part, t.category);
    var k :| 0 <= k < |tags| && tags[k].tier == t.tier;
    assert tags[k] in tags;
    u := Covering(whole, tags[k]);
  }

  /** Some merged tag is at least as strict as a given one and carries all its risks. */
  lemma Covering(whole: seq<CategoryTag>, t: CategoryTag) returns (u: CategoryTag)
    requires t in whole
    ensures u in Compose(whole) && u.category == t.category && TierRank(u.tier) >= TierRank(t.tier)
    ensures forall r :: r in t.riskIds ==> r in u.riskIds
  {
    var tags := OfCategory(whole, t.category);
    assert t in tags;
    CategoriesFacts(whole);
    var j :| 0 <= j < |Categories(whole)| && Categories(whole)[j] == t.category;
    u := Compose(whole)[j];
    var n :| 0 <= n < |tags| && tags[n] == t;
    RisksIn(tags);
    SortedSetFacts(Risks(tags));
    assert forall r | r in t.riskIds :: r in tags[n].riskIds;
  }

  lemma ComposeIdempotent(tags: seq<CategoryTag>)
    ensures Compose(Compose(tags)) == Compose(tags)
  {
    ComposeAbsorbs([], tags);
    NothingInFront(tags);
    NothingInFront(Compose(tags));
  }

  lemma NothingInFront(tags: seq<CategoryTag>)
    ensures [] + tags == tags
  {
  }

  lemma PartCovered(part: seq<CategoryTag>, whole: seq<CategoryTag>)
    requires forall g :: g in part ==> g in whole
    ensures AllCovered(Compose(part), Compose(whole))
  {
    forall t | t in Compose(part) ensures Covered(t, Compose(whole)) {
      var u := CategoryKept(part, whole, t);
    }
  }

  lemma MergedDominates(a: seq<CategoryTag>, b: seq<Level>, right: LabelState)
    requires Compose(a) == a && AllCovered(Compose(right.a), a)
    requires forall l :: l in right.b ==> l in b
    ensures Dominates(LabelState(a, b), right)
  {
  }

  lemma LevelsKept(b: seq<Level>)
    ensures forall l :: l in LevelSet(b) <==> l in b
  {
    forall l ensures l in LevelSet(b) <==> l in b {
      match l
      case PrincipalDirect =>
      case SystemInternal =>
      case ExternalUntrusted =>
    }
  }

  lemma PartDominated(part: LabelState, whole: LabelState)
    requires forall g :: g in part.a ==> g in whole.a
    requires forall l :: l in part.b ==> l in whole.b
    ensures Dominates(LabelState(Compose(whole.a), LevelSet(whole.b)), part)
  {
    LevelsKept(whole.b);
    assert AllCovered(Compose(part.a), Compose(whole.a)) by { PartCovered(part.a, whole.a); }
    assert Compose(Compose(whole.a)) == Compose(whole.a) by { ComposeIdempotent(whole.a); }
    MergedDominates(Compose(whole.a), LevelSet(whole.b), part);
  }

  /** The join drops no category, lowers no tier and drops no provenance level of either side. */
  lemma JoinDominates(x: LabelState, y: LabelState)
    ensures Dominates(Join(x, y), x) && Dominates(Join(x, y), y)
  {
    var whole := LabelState(x.a + y.a, x.b + y.b);
    PartDominated(x, whole);
    PartDominated(y, whole);
  }
}
