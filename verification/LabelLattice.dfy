/** The label join as an algebra: associative, idempotent, a least upper bound, and commutative but for ties. */
module LabelLattice {
  import opened Texts
  import opened Sorting
  import opened Labels

  // ---------------------------------------------------------------- lists that merge alike

  /** Tags of one category that merge into the same tag, whatever else is merged with them. */
  ghost predicate Alike(s: seq<CategoryTag>, t: seq<CategoryTag>) {
    && (s == [] <==> t == [])
    && (s != [] ==> MaxTier(s) == MaxTier(t) && BestProvenance(s) == BestProvenance(t))
    && (forall r :: r in Risks(s) <==> r in Risks(t))
  }

  lemma MaxTierIs(tags: seq<CategoryTag>, t: Tier, i: nat)
    requires i < |tags| && tags[i].tier == t
    requires forall k :: 0 <= k < |tags| ==> TierRank(tags[k].tier) <= TierRank(t)
    ensures MaxTier(tags) == t
  {
    assert TierRank(MaxTier(tags)) == TierRank(t);
  }

  function Stricter(t: Tier, u: Tier): Tier { if TierRank(u) > TierRank(t) then u else t }

  lemma MaxTierAppend(s: seq<CategoryTag>, t: seq<CategoryTag>)
    requires s != [] && t != []
    ensures MaxTier(s + t) == Stricter(MaxTier(s), MaxTier(t))
  {
    var i :| 0 <= i < |s| && s[i].tier == MaxTier(s);
    var j :| 0 <= j < |t| && t[j].tier == MaxTier(t);
    if TierRank(MaxTier(t)) > TierRank(MaxTier(s)) {
      assert (s + t)[|s| + j] == t[j];
      MaxTierIs(s + t, MaxTier(t), |s| + j);
    } else {
      assert (s + t)[i] == s[i];
      MaxTierIs(s + t, MaxTier(s), i);
    }
  }

  lemma Associates<T>(s: seq<T>, t: seq<T>, u: seq<T>)
    ensures (s + t) + u == s + (t + u)
  {
  }

  lemma RisksStep(s: seq<CategoryTag>)
    requires s != []
    ensures Risks(s) == s[0].riskIds + Risks(s[1..])
  {
  }

  lemma RisksFront(u: seq<CategoryTag>, head: seq<Text>, tail: seq<CategoryTag>)
    requires u != [] && u[0].riskIds == head && u[1..] == tail
    ensures Risks(u) == head + Risks(tail)
  {
  }

  lemma AppendTail<T>(s: seq<T>, t: seq<T>)
    requires s != []
    ensures s + t != [] && (s + t)[0] == s[0] && (s + t)[1..] == s[1..] + t
  {
  }

  lemma {:induction false} RisksAppend(s: seq<CategoryTag>, t: seq<CategoryTag>)
    ensures Risks(s + t) == Risks(s) + Risks(t)
  {
    if s == [] {
      assert s + t == t;
    } else {
      RisksAppend(s[1..], t);
      RisksStep(s);
      AppendTail(s, t);
      RisksFront(s + t, s[0].riskIds, s[1..] + t);
      Associates(s[0].riskIds, Risks(s[1..]), Risks(t));
    }
  }

  lemma AlikeAppend(s: seq<CategoryTag>, s': seq<CategoryTag>, t: seq<CategoryTag>, t': seq<CategoryTag>)
    requires Alike(s, s') && Alike(t, t')
    ensures Alike(s + t, s' + t')
  {
    RisksAppend(s, t);
    RisksAppend(s', t');
    if s == [] {
      assert s + t == t && s' + t' == t';
    } else if t == [] {
      assert s + t == s && s' + t' == s';
    } else {
      MaxTierAppend(s, t);
      MaxTierAppend(s', t');
      BestAppend(s, t);
      BestAppend(s', t');
    }
  }

  lemma AlikeMerged(c: Text, s: seq<CategoryTag>)
    requires s != []
    ensures Alike([Merge(c, s)], s)
  {
    var m := Merge(c, s);
    MaxTierIs([m], m.tier, 0);
    assert Risks([m]) == m.riskIds + Risks([m][1..]) == m.riskIds;
    SortedSetFacts(Risks(s));
  }

  lemma AlikeMerge(c: Text, s: seq<CategoryTag>, t: seq<CategoryTag>)
    requires Alike(s, t) && s != []
    ensures Merge(c, s) == Merge(c, t)
  {
    SortedSetEqual(Risks(s), Risks(t));
  }

  lemma ComposeAlike(v: seq<CategoryTag>, w: seq<CategoryTag>)
    requires forall c :: Alike(OfCategory(v, c), OfCategory(w, c))
    ensures Compose(v) == Compose(w)
  {
    CategoriesFacts(v);
    CategoriesFacts(w);
    forall c ensures c in Categories(v) <==> c in Categories(w) {
      assert Alike(OfCategory(v, c), OfCategory(w, c));
    }
    StrictlySortedUnique(Categories(v), Categories(w), TextKey);
    forall i | 0 <= i < |Categories(w)| ensures Compose(v)[i] == Compose(w)[i] {
      var c := Categories(w)[i];
      AlikeMerge(c, OfCategory(v, c), OfCategory(w, c));
    }
  }

  lemma AlikeComposed(tags: seq<CategoryTag>, c: Text)
    ensures Alike(OfCategory(Compose(tags), c), OfCategory(tags, c))
  {
    ComposedCategory(tags, c);
    if OfCategory(tags, c) != [] { AlikeMerged(c, OfCategory(tags, c)); }
  }

  lemma ComposeParts(s: seq<CategoryTag>, t: seq<CategoryTag>)
    ensures Compose(Compose(s) + t) == Compose(s + t) == Compose(s + Compose(t))
  {
    forall c ensures Alike(OfCategory(Compose(s) + t, c), OfCategory(s + t, c)) {
      OfCategoryAppend(Compose(s), t, c);
      OfCategoryAppend(s, t, c);
      AlikeComposed(s, c);
      AlikeAppend(OfCategory(Compose(s), c), OfCategory(s, c), OfCategory(t, c), OfCategory(t, c));
    }
    ComposeAlike(Compose(s) + t, s + t);
    forall c ensures Alike(OfCategory(s + Compose(t), c), OfCategory(s + t, c)) {
      OfCategoryAppend(s, Compose(t), c);
      OfCategoryAppend(s, t, c);
      AlikeComposed(t, c);
      AlikeAppend(OfCategory(s, c), OfCategory(s, c), OfCategory(Compose(t), c), OfCategory(t, c));
    }
    ComposeAlike(s + Compose(t), s + t);
  }

  lemma LevelSetsEqual(b: seq<Level>, c: seq<Level>)
    requires forall l :: l in b <==> l in c
    ensures LevelSet(b) == LevelSet(c)
  {
  }

  // ---------------------------------------------------------------- the laws

  /** The composition of one state alone. */
  function Normalised(x: LabelState): LabelState { LabelState(Compose(x.a), LevelSet(x.b)) }

  lemma JoinAssociates(x: LabelState, y: LabelState, z: LabelState)
    ensures Join(Join(x, y), z) == Join(x, Join(y, z))
  {
    ComposeAssociates(x.a, y.a, z.a);
    LevelsAssociate(x.b, y.b, z.b);
  }

  lemma ComposeAssociates(s: seq<CategoryTag>, t: seq<CategoryTag>, u: seq<CategoryTag>)
    ensures Compose(Compose(s + t) + u) == Compose(s + Compose(t + u))
  {
    ComposeParts(s + t, u);
    ComposeParts(s, t + u);
    Associates(s, t, u);
  }

  lemma LevelsAssociate(b: seq<Level>, c: seq<Level>, d: seq<Level>)
    ensures LevelSet(LevelSet(b + c) + d) == LevelSet(b + LevelSet(c + d))
  {
    LevelsKept(b + c);
    LevelsKept(c + d);
    LevelSetsEqual(LevelSet(b + c) + d, b + LevelSet(c + d));
  }

  /** Joining a state with itself composes it; a composed state joined with itself stays as it is. */
  lemma JoinIdempotent(x: LabelState)
    ensures Join(x, x) == Normalised(x)
    ensures Join(Normalised(x), Normalised(x)) == Normalised(x)
  {
    TwiceComposed(x.a);
    LevelSetsEqual(x.b + x.b, x.b);
    ComposeIdempotent(x.a);
    TwiceComposed(Compose(x.a));
    LevelsKept(x.b);
    LevelSetsEqual(LevelSet(x.b) + LevelSet(x.b), x.b);
  }

  lemma TwiceComposed(s: seq<CategoryTag>)
    ensures Compose(s + s) == Compose(s)
  {
    forall c ensures Alike(OfCategory(s + s, c), OfCategory(s, c)) {
      var t := OfCategory(s, c);
      OfCategoryAppend(s, s, c);
      RisksAppend(t, t);
      if t != [] {
        MaxTierAppend(t, t);
        BestAppend(t, t);
      }
    }
    ComposeAlike(s + s, s);
  }

  /** The two sides name different provenances of equal authority, both highest on their side. */
  predicate Tied(s: seq<CategoryTag>, t: seq<CategoryTag>) {
    s != [] && t != []
    && Authority(BestProvenance(s)) == Authority(BestProvenance(t)) && BestProvenance(s) != BestProvenance(t)
  }

  predicate TiedAt(x: seq<CategoryTag>, y: seq<CategoryTag>, c: Text) { Tied(OfCategory(x, c), OfCategory(y, c)) }

  lemma AlikeSwap(s: seq<CategoryTag>, t: seq<CategoryTag>)
    requires !Tied(s, t)
    ensures Alike(s + t, t + s)
  {
    RisksAppend(s, t);
    RisksAppend(t, s);
    if s == [] || t == [] {
      assert s + t == t + s;
    } else {
      MaxTierAppend(s, t);
      MaxTierAppend(t, s);
      BestAppend(s, t);
      BestAppend(t, s);
      assert TierRank(MaxTier(s + t)) == TierRank(MaxTier(t + s));
    }
  }

  lemma SameComposedProvenance(v: seq<CategoryTag>, w: seq<CategoryTag>, c: Text)
    requires Compose(v) == Compose(w) && OfCategory(v, c) != [] && OfCategory(w, c) != []
    ensures BestProvenance(OfCategory(v, c)) == BestProvenance(OfCategory(w, c))
  {
    ComposedCategory(v, c);
    ComposedCategory(w, c);
    assert [Merge(c, OfCategory(v, c))][0] == [Merge(c, OfCategory(w, c))][0];
  }

  lemma ComposeSwapIff(s: seq<CategoryTag>, t: seq<CategoryTag>)
    ensures Compose(s + t) == Compose(t + s) <==> forall c :: !TiedAt(s, t, c)
  {
    if forall c :: !TiedAt(s, t, c) { UntiedSwap(s, t); }
    if c :| TiedAt(s, t, c) { TiedSwap(s, t, c); }
  }

  lemma UntiedSwap(s: seq<CategoryTag>, t: seq<CategoryTag>)
    requires forall c :: !TiedAt(s, t, c)
    ensures Compose(s + t) == Compose(t + s)
  {
    forall c ensures Alike(OfCategory(s + t, c), OfCategory(t + s, c)) {
      OfCategoryAppend(s, t, c);
      OfCategoryAppend(t, s, c);
      assert !TiedAt(s, t, c);
      AlikeSwap(OfCategory(s, c), OfCategory(t, c));
    }
    ComposeAlike(s + t, t + s);
  }

  lemma TiedSwap(s: seq<CategoryTag>, t: seq<CategoryTag>, c: Text)
    requires TiedAt(s, t, c)
    ensures Compose(s + t) != Compose(t + s)
  {
    OfCategoryAppend(s, t, c);
    OfCategoryAppend(t, s, c);
    BestAppend(OfCategory(s, c), OfCategory(t, c));
    BestAppend(OfCategory(t, c), OfCategory(s, c));
    if Compose(s + t) == Compose(t + s) { SameComposedProvenance(s + t, t + s, c); }
  }

  /** The join commutes exactly when no category is tied. */
  lemma JoinCommutesIff(x: LabelState, y: LabelState)
    ensures Join(x, y) == Join(y, x) <==> forall c :: !TiedAt(x.a, y.a, c)
  {
    ComposeSwapIff(x.a, y.a);
    LevelSetsEqual(x.b + y.b, y.b + x.b);
  }

  /** Two states that differ in two provenances the table does not list: the first side wins. */
  lemma UnlistedTie(category: Text, tier: Tier, p: Text, q: Text)
    requires Authority(p) == Authority(q) && p != q
    ensures var x := LabelState([CategoryTag(category, tier, [], p)], []);
            var y := LabelState([CategoryTag(category, tier, [], q)], []);
            Join(x, y) != Join(y, x)
  {
    var x := LabelState([CategoryTag(category, tier, [], p)], []);
    var y := LabelState([CategoryTag(category, tier, [], q)], []);
    assert x.a[0] == CategoryTag(category, tier, [], p) && y.a[0] == CategoryTag(category, tier, [], q);
    OfCategoryUnique(x.a, 0);
    OfCategoryUnique(y.a, 0);
    assert TiedAt(x.a, y.a, category);
    JoinCommutesIff(x, y);
  }

  // ---------------------------------------------------------------- the order of a set

  /** The same tags in any order: another iteration of the same frozen set. */
  ghost predicate Reordered(s: seq<CategoryTag>, t: seq<CategoryTag>) { multiset(s) == multiset(t) }

  ghost predicate IsTop(t: CategoryTag, tags: seq<CategoryTag>) {
    t in tags && forall u :: u in tags ==> Authority(u.provenance) <= Authority(t.provenance)
  }

  /** All tags of the highest authority name the same provenance. */
  ghost predicate OneTop(tags: seq<CategoryTag>) {
    forall t, u :: IsTop(t, tags) && IsTop(u, tags) ==> t.provenance == u.provenance
  }

  ghost predicate Undisputed(tags: seq<CategoryTag>) { forall c :: OneTop(OfCategory(tags, c)) }

  lemma {:induction false} BestIsTop(tags: seq<CategoryTag>) returns (t: CategoryTag)
    requires tags != []
    ensures IsTop(t, tags) && t.provenance == BestProvenance(tags)
  {
    var n := |tags| - 1;
    assert tags == tags[..n] + [tags[n]];
    if n == 0 {
      t := tags[0];
    } else {
      var best := BestIsTop(tags[..n]);
      t := if Authority(tags[n].provenance) > Authority(BestProvenance(tags[..n])) then tags[n] else best;
    }
  }

  /** Lists of one category with the same members and one top merge alike. */
  lemma SameMembersAlike(s: seq<CategoryTag>, t: seq<CategoryTag>)
    requires (forall x :: x in s <==> x in t) && OneTop(s)
    ensures Alike(s, t)
  {
    SameRisks(s, t);
    if t != [] { assert t[0] in t; }
    if s != [] {
      assert s[0] in t;
      var x := BestIsTop(s);
      var y := BestIsTop(t);
      assert IsTop(y, s);
      SameTier(s, t);
    }
  }

  lemma SameTier(s: seq<CategoryTag>, t: seq<CategoryTag>)
    requires s != [] && t != [] && forall x :: x in s <==> x in t
    ensures MaxTier(s) == MaxTier(t)
  {
    var i :| 0 <= i < |t| && t[i].tier == MaxTier(t);
    assert t[i] in s;
    var j :| 0 <= j < |s| && s[j] == t[i];
    forall k | 0 <= k < |s| ensures TierRank(s[k].tier) <= TierRank(MaxTier(t)) {
      assert s[k] in t;
      var n :| 0 <= n < |t| && t[n] == s[k];
    }
    MaxTierIs(s, MaxTier(t), j);
  }

  lemma SameRisks(s: seq<CategoryTag>, t: seq<CategoryTag>)
    requires forall x :: x in s <==> x in t
    ensures forall r :: r in Risks(s) <==> r in Risks(t)
  {
    RisksIn(s);
    RisksIn(t);
    forall r ensures r in Risks(s) <==> r in Risks(t) {
      if i :| 0 <= i < |s| && r in s[i].riskIds {
        assert s[i] in t;
        var j :| 0 <= j < |t| && t[j] == s[i];
      }
      if i :| 0 <= i < |t| && r in t[i].riskIds {
        assert t[i] in s;
        var j :| 0 <= j < |s| && s[j] == t[i];
      }
    }
  }

  lemma SameMembersCompose(s: seq<CategoryTag>, t: seq<CategoryTag>)
    requires (forall x :: x in s <==> x in t) && Undisputed(s)
    ensures Compose(s) == Compose(t)
  {
    forall c ensures Alike(OfCategory(s, c), OfCategory(t, c)) {
      assert OneTop(OfCategory(s, c));
      SameMembersAlike(OfCategory(s, c), OfCategory(t, c));
    }
    ComposeAlike(s, t);
  }

  lemma ReorderedMembers(s: seq<CategoryTag>, t: seq<CategoryTag>)
    requires Reordered(s, t)
    ensures forall x :: x in s <==> x in t
  {
    forall x ensures x in s <==> x in t { assert x in multiset(s) <==> x in multiset(t); }
  }

  /** A top tag that is listed first gives its category its provenance. */
  lemma TopFirst(t: CategoryTag, rest: seq<CategoryTag>)
    requires forall u :: u in OfCategory(rest, t.category) ==> Authority(u.provenance) <= Authority(t.provenance)
    ensures var same := OfCategory([t] + rest, t.category); same != [] && BestProvenance(same) == t.provenance
  {
    var others := OfCategory(rest, t.category);
    assert ([t] + rest)[1..] == rest;
    assert OfCategory([t] + rest, t.category) == [t] + others;
    if others == [] {
      assert [t] + others == [t];
    } else {
      var best := BestIsTop(others);
      BestAppend([t], others);
    }
  }

  /** Any member can be listed first. */
  lemma BroughtForward(tags: seq<CategoryTag>, t: CategoryTag) returns (rest: seq<CategoryTag>)
    requires t in tags
    ensures Reordered([t] + rest, tags)
  {
    var i :| 0 <= i < |tags| && tags[i] == t;
    rest := tags[..i] + tags[i + 1..];
    assert tags == tags[..i] + [t] + tags[i + 1..];
  }

  /** A category whose tops differ: its tag depends on which is listed first. */
  lemma TopDecides(tags: seq<CategoryTag>, t: CategoryTag)
    requires IsTop(t, OfCategory(tags, t.category))
    requires forall s :: Reordered(s, tags) ==> Compose(s) == Compose(tags)
    ensures BestProvenance(OfCategory(tags, t.category)) == t.provenance
  {
    var rest := BroughtForward(tags, t);
    var s := [t] + rest;
    ReorderedMembers(s, tags);
    forall u | u in OfCategory(rest, t.category) ensures Authority(u.provenance) <= Authority(t.provenance) {
      assert u in s;
      assert u in OfCategory(tags, t.category);
    }
    TopFirst(t, rest);
    SameComposedProvenance(s, tags, t.category);
  }

  /** What a state composes to is independent of the order its frozen set is iterated in exactly when in each category
      all tags of the highest authority name the same provenance. */
  lemma ComposeOrderIff(tags: seq<CategoryTag>)
    ensures (forall s :: Reordered(s, tags) ==> Compose(s) == Compose(tags)) <==> Undisputed(tags)
  {
    if Undisputed(tags) {
      forall s | Reordered(s, tags) ensures Compose(s) == Compose(tags) {
        ReorderedMembers(s, tags);
        SameMembersCompose(tags, s);
      }
    }
    if forall s :: Reordered(s, tags) ==> Compose(s) == Compose(tags) {
      forall c ensures OneTop(OfCategory(tags, c)) {
        var same := OfCategory(tags, c);
        forall t, u | IsTop(t, same) && IsTop(u, same) ensures t.provenance == u.provenance {
          TopDecides(tags, t);
          TopDecides(tags, u);
        }
      }
    }
  }

  /** Then a join is the same whatever order its two sets are iterated in and on whichever side they stand. */
  lemma JoinOrderFree(x: LabelState, y: LabelState, x': LabelState, y': LabelState)
    requires Undisputed(x.a + y.a)
    requires Reordered(x.a, x'.a) && Reordered(y.a, y'.a) && multiset(x.b) == multiset(x'.b) && multiset(y.b) == multiset(y'.b)
    ensures Join(x, y) == Join(x', y') == Join(y', x')
  {
    ReorderedMembers(x.a, x'.a);
    ReorderedMembers(y.a, y'.a);
    SameMembersCompose(x.a + y.a, x'.a + y'.a);
    SameMembersCompose(x.a + y.a, y'.a + x'.a);
    forall l ensures (l in x.b <==> l in x'.b) && (l in y.b <==> l in y'.b) {
      assert (l in multiset(x.b) <==> l in multiset(x'.b)) && (l in multiset(y.b) <==> l in multiset(y'.b));
    }
    LevelSetsEqual(x.b + y.b, x'.b + y'.b);
    LevelSetsEqual(x.b + y.b, y'.b + x'.b);
  }

  // ---------------------------------------------------------------- listed provenances

  /** One of the seven provenances the authority table lists. */
  predicate Declared(prov: Text) { PlaceOf(AuthorityTable(), prov) < 7 }

  lemma {:induction false} BestDeclared(tags: seq<CategoryTag>)
    requires tags != [] && forall t :: t in tags ==> Declared(t.provenance)
    ensures Declared(BestProvenance(tags))
  {
    var n := |tags| - 1;
    assert tags[n] in tags;
    if n > 0 { BestDeclared(tags[..n]); }
  }

  lemma AuthorityTells(p: Text, q: Text)
    requires Declared(p) && Declared(q) && Authority(p) == Authority(q)
    ensures p == q
  {
    var k := PlaceOf(AuthorityTable(), p);
    assert p == Lit(AuthorityTable()[k]) && q == Lit(AuthorityTable()[k]);
  }

  /** So it commutes on all states whose provenances the table lists. */
  lemma JoinCommutesDeclared(x: LabelState, y: LabelState)
    requires forall t :: t in x.a || t in y.a ==> Declared(t.provenance)
    ensures Join(x, y) == Join(y, x)
  {
    forall c ensures !TiedAt(x.a, y.a, c) {
      var s, t := OfCategory(x.a, c), OfCategory(y.a, c);
      if Tied(s, t) {
        BestDeclared(s);
        BestDeclared(t);
        AuthorityTells(BestProvenance(s), BestProvenance(t));
      }
    }
    JoinCommutesIff(x, y);
  }

  // ---------------------------------------------------------------- the least upper bound

  lemma CoveredIff(tags: seq<CategoryTag>, whole: seq<CategoryTag>)
    ensures AllCovered(Compose(tags), whole) <==> AllCovered(tags, whole)
  {
    if AllCovered(Compose(tags), whole) {
      forall t | t in tags ensures Covered(t, whole) {
        var u := Covering(tags, t);
        assert Covered(u, whole);
      }
    }
    if AllCovered(tags, whole) {
      forall t | t in Compose(tags) ensures Covered(t, whole) {
        var g := TierSource(tags, t);
        assert Covered(g, whole);
      }
    }
  }

  /** A composed tag has the tier of some tag that went into it. */
  lemma TierSource(tags: seq<CategoryTag>, t: CategoryTag) returns (g: CategoryTag)
    requires t in Compose(tags)
    ensures g in tags && g.category == t.category && g.tier == t.tier
  {
    var i :| 0 <= i < |Compose(tags)| && Compose(tags)[i] == t;
    var same := OfCategory(tags, t.category);
    var k :| 0 <= k < |same| && same[k].tier == t.tier;
    assert same[k] in same;
    g := same[k];
  }

  /** The join is the least upper bound: whatever dominates both sides dominates it, and conversely. */
  lemma JoinIsLeast(z: LabelState, x: LabelState, y: LabelState)
    ensures Dominates(z, Join(x, y)) <==> Dominates(z, x) && Dominates(z, y)
  {
    var whole := Compose(z.a);
    ComposeIdempotent(x.a + y.a);
    CoveredIff(x.a + y.a, whole);
    CoveredIff(x.a, whole);
    CoveredIff(y.a, whole);
    assert AllCovered(x.a + y.a, whole) <==> AllCovered(x.a, whole) && AllCovered(y.a, whole) by {
      assert forall t :: t in x.a + y.a <==> t in x.a || t in y.a;
    }
    LevelsKept(x.b + y.b);
    LevelsJoined(z.b, x.b, y.b);
  }

  lemma LevelsJoined(z: seq<Level>, x: seq<Level>, y: seq<Level>)
    ensures (forall l :: l in LevelSet(x + y) ==> l in z) <==> (forall l :: l in x ==> l in z) && (forall l :: l in y ==> l in z)
  {
    LevelsKept(x + y);
    assert forall l :: l in x + y <==> l in x || l in y;
  }
}
