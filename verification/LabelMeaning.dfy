/** What a join holds, in the names of the tiers and the provenances. */
module LabelMeaning {
  import opened Texts
  import opened Sorting
  import opened Labels
  import opened LabelLattice
  import opened ArtifactIdentity

  /** Some tag of category c on either side has that tier. */
  ghost predicate HasTier(x: LabelState, y: LabelState, c: Text, tier: Tier) {
    exists t :: (t in x.a || t in y.a) && t.category == c && t.tier == tier
  }

  lemma JoinedFrom(x: LabelState, y: LabelState, u: CategoryTag)
    requires u in Join(x, y).a
    ensures OfCategory(x.a + y.a, u.category) != [] && u == Merge(u.category, OfCategory(x.a + y.a, u.category))
  {
    var r := Compose(x.a + y.a);
    var i :| 0 <= i < |r| && r[i] == u;
  }

  /** The tier of a joined tag is the strictest one given: prohibited, else restricted, else regulated, else sensitive. */
  lemma JoinedTier(x: LabelState, y: LabelState, u: CategoryTag)
    requires u in Join(x, y).a
    ensures var c := u.category;
            var prohibited, restricted := HasTier(x, y, c, Prohibited), HasTier(x, y, c, Restricted);
            var regulated, sensitive := HasTier(x, y, c, Regulated), HasTier(x, y, c, Sensitive);
            && (u.tier == Prohibited <==> prohibited)
            && (u.tier == Restricted <==> restricted && !prohibited)
            && (u.tier == Regulated <==> regulated && !restricted && !prohibited)
            && (u.tier == Sensitive <==> sensitive && !regulated && !restricted && !prohibited)
            && (u.tier == NoneTier <==> HasTier(x, y, c, NoneTier) && !sensitive && !regulated && !restricted && !prohibited)
  {
    StrictestTier(x, y, u);
    OnlyStrictest(x, y, u.category, u.tier);
  }

  /** A tier that is there, and no stricter one is, is told by which ones are there. */
  lemma OnlyStrictest(x: LabelState, y: LabelState, c: Text, tier: Tier)
    requires HasTier(x, y, c, tier) && forall other :: HasTier(x, y, c, other) ==> TierRank(other) <= TierRank(tier)
    ensures tier == Prohibited <==> HasTier(x, y, c, Prohibited)
    ensures HasTier(x, y, c, Restricted) && !HasTier(x, y, c, Prohibited) <==> tier == Restricted
    ensures tier == Regulated <==> HasTier(x, y, c, Regulated) && !HasTier(x, y, c, Restricted) && !HasTier(x, y, c, Prohibited)
    ensures HasTier(x, y, c, Restricted) ==> TierRank(tier) >= 3
    ensures HasTier(x, y, c, Regulated) ==> TierRank(tier) >= 2
    ensures HasTier(x, y, c, Sensitive) ==> TierRank(tier) >= 1
  {
  }

  lemma StrictestTier(x: LabelState, y: LabelState, u: CategoryTag)
    requires u in Join(x, y).a
    ensures HasTier(x, y, u.category, u.tier)
    ensures forall tier :: HasTier(x, y, u.category, tier) ==> TierRank(tier) <= TierRank(u.tier)
  {
    JoinedFrom(x, y, u);
    TierOfMerge(OfCategory(x.a + y.a, u.category));
    assert forall t :: t in x.a + y.a <==> t in x.a || t in y.a;
  }

  lemma TierOfMerge(tags: seq<CategoryTag>)
    requires tags != []
    ensures exists t :: t in tags && t.tier == MaxTier(tags)
    ensures forall t :: t in tags ==> TierRank(t.tier) <= TierRank(MaxTier(tags))
  {
    var i :| 0 <= i < |tags| && tags[i].tier == MaxTier(tags);
    assert tags[i] in tags;
  }

  /** A category is in a join exactly if a side has it, with all the risks of its tags and no other. */
  lemma JoinedCategory(x: LabelState, y: LabelState, c: Text, risk: Text)
    ensures (exists u :: u in Join(x, y).a && u.category == c) <==> exists t :: (t in x.a || t in y.a) && t.category == c
    ensures (exists u :: u in Join(x, y).a && u.category == c && risk in u.riskIds) <==>
      exists t :: (t in x.a || t in y.a) && t.category == c && risk in t.riskIds
  {
    var all := x.a + y.a;
    var tags := OfCategory(all, c);
    RisksIn(tags);
    SortedSetFacts(Risks(tags));
    forall t | t in all && t.category == c
      ensures exists u :: u in Join(x, y).a && u.category == c && forall r :: r in t.riskIds ==> r in u.riskIds
    {
      var u := Covering(all, t);
    }
    forall u | u in Join(x, y).a && u.category == c ensures tags != [] && u.riskIds == SortedSet(Risks(tags)) {
      JoinedFrom(x, y, u);
    }
    if tags != [] { assert tags[0] in tags; }
    if u :| u in Join(x, y).a && u.category == c && risk in u.riskIds {
      var i :| 0 <= i < |tags| && risk in tags[i].riskIds;
      assert tags[i] in tags;
    }
  }

  /** The risks of a joined tag are listed once each, in the order of their code points. */
  lemma JoinedRisks(x: LabelState, y: LabelState, u: CategoryTag, i: nat, j: nat)
    requires u in Join(x, y).a && i < j < |u.riskIds|
    ensures exists k: nat :: LesserAt(u.riskIds[i], u.riskIds[j], k)
  {
    JoinedFrom(x, y, u);
    SortedSetFacts(Risks(OfCategory(x.a + y.a, u.category)));
    LessIff(TextKey(u.riskIds[i]), TextKey(u.riskIds[j]));
  }

  /** The authority of a provenance; the seven that the source lists, and one rank for all others. */
  function Standing(p: Text): int {
    if p == Lit("human-declared") then 6
    else if p == Lit("operator-declared") then 5
    else if p == Lit("curated-mcp") then 4
    else if p == Lit("source-declared") then 3
    else if p == Lit("legacy-migration") then 1
    else if p == Lit("raise-only-inspector") then 0
    else 2
  }

  lemma {:induction false} PlaceOfIs(names: seq<string>, k: nat)
    requires k < |names| && forall j :: 0 <= j < k ==> names[j] != names[k]
    ensures PlaceOf(names, Lit(names[k])) == k
  {
    if k > 0 {
      LitInjective(names[0], names[k]);
      PlaceOfIs(names[1..], k - 1);
    }
  }

  lemma TableShapes(i: nat)
    requires i < 7
    ensures Code(AuthorityTable()[i]) == [20 * 0x110000 + 114, 16 * 0x110000 + 108, 14 * 0x110000 + 115, 15 * 0x110000 + 115,
                                          11 * 0x110000 + 99, 17 * 0x110000 + 111, 14 * 0x110000 + 104][i]
  {
  }

  lemma ListedPlace(p: Text, k: nat)
    requires k < 7 && p == Lit(AuthorityTable()[k])
    ensures PlaceOf(AuthorityTable(), p) == k
  {
    forall j | 0 <= j < k ensures AuthorityTable()[j] != AuthorityTable()[k] {
      TableShapes(j);
      TableShapes(k);
    }
    PlaceOfIs(AuthorityTable(), k);
  }

  lemma StandingIs(p: Text)
    ensures Authority(p) == Standing(p)
  {
    var names := AuthorityTable();
    forall k | 0 <= k < 7 && p == Lit(names[k]) ensures PlaceOf(names, p) == k { ListedPlace(p, k); }
    assert names[0] == "raise-only-inspector" && names[1] == "legacy-migration" && names[2] == "system-default"
        && names[3] == "source-declared" && names[4] == "curated-mcp" && names[5] == "operator-declared"
        && names[6] == "human-declared";
  }

  /** Place i holds the first of the greatest numbers. */
  ghost predicate FirstGreatest(ranks: seq<int>, i: nat) {
    i < |ranks| && forall j :: 0 <= j < |ranks| ==> ranks[j] <= ranks[i] && (j < i ==> ranks[j] < ranks[i])
  }

  lemma BetterBy(p: Text, q: Text)
    ensures Better(p, q) == if Standing(q) > Standing(p) then q else p
  {
    StandingIs(p);
    StandingIs(q);
  }

  function Standings(tags: seq<CategoryTag>): (r: seq<int>)
    ensures |r| == |tags|
  {
    if tags == [] then [] else Standings(tags[..|tags| - 1]) + [Standing(tags[|tags| - 1].provenance)]
  }

  lemma {:induction false} StandingAt(tags: seq<CategoryTag>, i: nat)
    requires i < |tags|
    ensures Standings(tags)[i] == Standing(tags[i].provenance)
  {
    if i < |tags| - 1 { StandingAt(tags[..|tags| - 1], i); }
  }

  lemma NextGreatest(ranks: seq<int>, k: nat, r: int)
    requires FirstGreatest(ranks, k)
    ensures FirstGreatest(ranks + [r], if r > ranks[k] then |ranks| else k)
  {
  }

  lemma NextLeads(init: seq<CategoryTag>, x: CategoryTag, k: nat)
    requires k < |init| && init[k].provenance == BestProvenance(init)
    ensures BestProvenance(init + [x]) ==
      if Standing(x.provenance) > Standing(init[k].provenance) then x.provenance else init[k].provenance
  {
    BestLast(init, x);
    BetterBy(init[k].provenance, x.provenance);
  }

  lemma StandingsNext(init: seq<CategoryTag>, x: CategoryTag)
    ensures Standings(init + [x]) == Standings(init) + [Standing(x.provenance)]
  {
    assert (init + [x])[..|init|] == init;
  }

  lemma {:induction false} BestLeads(tags: seq<CategoryTag>) returns (i: nat)
    requires tags != []
    ensures FirstGreatest(Standings(tags), i) && tags[i].provenance == BestProvenance(tags)
  {
    var n := |tags| - 1;
    if n == 0 {
      i := 0;
    } else {
      var init, x := tags[..n], tags[n];
      assert tags == init + [x];
      var k := BestLeads(init);
      StandingAt(init, k);
      i := if Standing(x.provenance) > Standing(init[k].provenance) then n else k;
      NextGreatest(Standings(init), k, Standing(x.provenance));
      NextLeads(init, x, k);
      StandingsNext(init, x);
    }
  }

  /** Where the members of one category stand among all tags: in the same order. */
  lemma {:induction false} PlaceInAll(tags: seq<CategoryTag>, c: Text, i: nat) returns (k: nat)
    requires i < |OfCategory(tags, c)|
    ensures k < |tags| && tags[k] == OfCategory(tags, c)[i]
    ensures forall j :: 0 <= j < k && tags[j].category == c ==> tags[j] in OfCategory(tags, c)[..i]
  {
    var here := tags[0].category == c;
    if here && i == 0 {
      k := 0;
    } else {
      var m := PlaceInAll(tags[1..], c, if here then i - 1 else i);
      k := m + 1;
      PlaceShifts(tags, c, i, m);
    }
  }

  lemma PlaceShifts(tags: seq<CategoryTag>, c: Text, i: nat, m: nat)
    requires tags != [] && i < |OfCategory(tags, c)| && m < |tags[1..]| && (tags[0].category == c ==> i > 0)
    requires var n := if tags[0].category == c then i - 1 else i;
             forall j :: 0 <= j < m && tags[1..][j].category == c ==> tags[1..][j] in OfCategory(tags[1..], c)[..n]
    ensures forall j :: 0 <= j < m + 1 && tags[j].category == c ==> tags[j] in OfCategory(tags, c)[..i]
  {
    var rest, whole := OfCategory(tags[1..], c), OfCategory(tags, c);
    assert tags[0].category == c ==> whole[..i] == [tags[0]] + rest[..i - 1];
    forall j | 0 < j < m + 1 && tags[j].category == c ensures tags[j] in whole[..i] { assert tags[j] == tags[1..][j - 1]; }
  }

  /** Tag i is the first of its category with the highest standing. */
  ghost predicate LeadsAt(tags: seq<CategoryTag>, i: nat) {
    i < |tags| && forall j :: 0 <= j < |tags| && tags[j].category == tags[i].category ==>
      Standing(tags[j].provenance) <= Standing(tags[i].provenance)
      && (j < i ==> Standing(tags[j].provenance) < Standing(tags[i].provenance))
  }

  lemma LeaderInAll(all: seq<CategoryTag>, c: Text) returns (i: nat)
    requires OfCategory(all, c) != []
    ensures LeadsAt(all, i) && all[i].category == c && all[i].provenance == BestProvenance(OfCategory(all, c))
  {
    var tags := OfCategory(all, c);
    var n := BestLeads(tags);
    i := PlaceInAll(all, c, n);
    assert tags[n] in tags;
    forall j | 0 <= j < |all| && all[j].category == c
      ensures Standing(all[j].provenance) <= Standing(all[i].provenance)
      ensures j < i ==> Standing(all[j].provenance) < Standing(all[i].provenance)
    {
      assert all[j] in tags;
      assert j < i ==> all[j] in tags[..n];
      var h :| 0 <= h < |tags| && tags[h] == all[j] && (j < i ==> h < n);
      StandingAt(tags, h);
      StandingAt(tags, n);
    }
  }

  /** The provenance of a joined tag is that of the first tag with the highest standing, the left side listed first. */
  lemma JoinedProvenance(x: LabelState, y: LabelState, u: CategoryTag)
    requires u in Join(x, y).a
    ensures exists i: nat :: LeadsAt(x.a + y.a, i) && (x.a + y.a)[i].category == u.category
                             && (x.a + y.a)[i].provenance == u.provenance
  {
    JoinedFrom(x, y, u);
    var i := LeaderInAll(x.a + y.a, u.category);
  }

  /** A level is in a join exactly if a side has it. */
  lemma JoinedLevel(x: LabelState, y: LabelState, l: Level)
    ensures l in Join(x, y).b <==> l in x.b || l in y.b
  {
    LevelsKept(x.b + y.b);
  }
}
