/** Label states survive being written as JSON and read back. */
module LabelReading {
  import opened Wrappers
  import opened Texts
  import opened Sorting
  import opened Json
  import opened JsonCanonical
  import opened JsonObjects
  import opened Labels
  import opened Artifacts
  import opened ArtifactIdentity

  // ---------------------------------------------------------------- reloading

  lemma ReloadedText(t: Text)
    ensures Reloaded(Str(t)) == Str(Fuse(t))
  {
  }

  lemma ReloadedList(items: seq<Json>)
    ensures Reloaded(Arr(items)).Arr? && |Reloaded(Arr(items)).items| == |items|
    ensures forall i :: 0 <= i < |items| ==> Reloaded(Arr(items)).items[i] == Reloaded(items[i])
  {
  }

  ghost predicate PlainTexts(ts: seq<Text>) { forall i :: 0 <= i < |ts| ==> Fuse(ts[i]) == ts[i] }

  ghost predicate PlainTag(t: CategoryTag) {
    Fuse(t.category) == t.category && Fuse(t.provenance) == t.provenance && PlainTexts(t.riskIds)
  }

  ghost predicate PlainLabels(ls: LabelState) { forall i :: 0 <= i < |ls.a| ==> PlainTag(ls.a[i]) }

  function FuseTexts(ts: seq<Text>): (r: seq<Text>)
    ensures |r| == |ts| && forall i :: 0 <= i < |r| ==> r[i] == Fuse(ts[i])
  {
    seq(|ts|, i requires 0 <= i < |ts| => Fuse(ts[i]))
  }

  function FuseTag(t: CategoryTag): CategoryTag {
    CategoryTag(Fuse(t.category), t.tier, FuseTexts(t.riskIds), Fuse(t.provenance))
  }

  function FuseTags(tags: seq<CategoryTag>): (r: seq<CategoryTag>)
    ensures |r| == |tags| && forall i :: 0 <= i < |r| ==> r[i] == FuseTag(tags[i])
  {
    seq(|tags|, i requires 0 <= i < |tags| => FuseTag(tags[i]))
  }

  function FuseLabels(ls: LabelState): LabelState { LabelState(FuseTags(ls.a), ls.b) }

  lemma ReloadedTexts(ts: seq<Text>)
    ensures Reloaded(Arr(TextsJson(ts))) == Arr(TextsJson(FuseTexts(ts)))
  {
    ReloadedList(TextsJson(ts));
    forall i | 0 <= i < |ts| ensures Reloaded(Arr(TextsJson(ts))).items[i] == TextsJson(FuseTexts(ts))[i] {
      ReloadedText(ts[i]);
    }
  }

  lemma FuseTagPlain(t: CategoryTag)
    requires PlainTag(t)
    ensures FuseTag(t) == t
  {
    assert FuseTexts(t.riskIds) == t.riskIds;
  }

  lemma FuseTagTwice(t: CategoryTag)
    ensures FuseTag(FuseTag(t)) == FuseTag(t)
  {
    FuseIdempotent(t.category);
    FuseIdempotent(t.provenance);
    forall i | 0 <= i < |t.riskIds| ensures Fuse(FuseTexts(t.riskIds)[i]) == FuseTexts(t.riskIds)[i] {
      FuseIdempotent(t.riskIds[i]);
    }
    assert FuseTexts(FuseTexts(t.riskIds)) == FuseTexts(t.riskIds);
  }

  // ---------------------------------------------------------------- one tag, one level

  /** The object holds the parts of the tag. */
  ghost predicate HoldsTag(j: Json, t: CategoryTag) {
    && j.Obj?
    && Get(j.fields, Lit(TAG_KEYS[0])) == Some(Str(t.category))
    && Get(j.fields, Lit(TAG_KEYS[1])) == Some(Str(Lit(TierName(t.tier))))
    && Get(j.fields, Lit(TAG_KEYS[2])) == Some(Arr(TextsJson(t.riskIds)))
    && Get(j.fields, Lit(TAG_KEYS[3])) == Some(Str(t.provenance))
  }

  lemma TagRead(j: Json, t: CategoryTag, host: Host)
    requires HoldsTag(j, t)
    ensures TagFrom(j, host) == Ok(t)
  {
    TierRead(t.tier);
    assert StrsOf(TextsJson(t.riskIds), host) == t.riskIds;
  }

  lemma TagHeld(t: CategoryTag)
    ensures HoldsTag(Obj(TagFields(t)), t)
    ensures HoldsTag(Reloaded(Obj(TagFields(t))), FuseTag(t))
  {
    LabelKeysDistinct();
    var values := [Str(t.category), Str(Lit(TierName(t.tier))), Arr(TextsJson(t.riskIds)), Str(t.provenance)];
    forall i | 0 <= i < 4 ensures Get(TagFields(t), Lit(TAG_KEYS[i])) == Some(values[i]) {
      GetRecord(TAG_KEYS, values, i);
    }
    ReloadedTagHeld(t, values);
  }

  lemma ReloadedTagHeld(t: CategoryTag, values: seq<Json>)
    requires values == [Str(t.category), Str(Lit(TierName(t.tier))), Arr(TextsJson(t.riskIds)), Str(t.provenance)]
    ensures HoldsTag(Reloaded(Obj(TagFields(t))), FuseTag(t))
  {
    LabelKeysDistinct();
    var r := Reloaded(Obj(TagFields(t)));
    forall i | 0 <= i < 4 ensures r.Obj? && Get(r.fields, Lit(TAG_KEYS[i])) == Some(Reloaded(values[i])) {
      ReadRecord(TAG_KEYS, values, i);
    }
    LitPlain(TierName(t.tier));
    ReloadedTexts(t.riskIds);
    assert Get(r.fields, Lit(TAG_KEYS[0])) == Some(Reloaded(values[0]));
    assert Get(r.fields, Lit(TAG_KEYS[1])) == Some(Reloaded(values[1]));
    assert Get(r.fields, Lit(TAG_KEYS[2])) == Some(Reloaded(values[2]));
    assert Get(r.fields, Lit(TAG_KEYS[3])) == Some(Reloaded(values[3]));
  }

  ghost predicate HoldsLevel(j: Json, l: Level) {
    j.Obj? && Get(j.fields, Lit(LEVEL_KEYS[0])) == Some(Str(Lit(LevelName(l))))
  }

  lemma LevelHeld(l: Level)
    ensures HoldsLevel(Obj(LevelFields(l)), l)
    ensures HoldsLevel(Reloaded(Obj(LevelFields(l))), l)
  {
    LabelKeysDistinct();
    var values := [Str(Lit(LevelName(l)))];
    GetRecord(LEVEL_KEYS, values, 0);
    ReadRecord(LEVEL_KEYS, values, 0);
    LitPlain(LevelName(l));
  }

  // ---------------------------------------------------------------- the two lists

  lemma {:induction false} TagsRead(items: seq<Json>, tags: seq<CategoryTag>, host: Host)
    requires |items| == |tags| && forall i :: 0 <= i < |items| ==> HoldsTag(items[i], tags[i])
    ensures TagsFrom(items, host) == Ok(Unique(tags))
  {
    if items != [] {
      TagRead(items[0], tags[0], host);
      TagsRead(items[1..], tags[1..], host);
      UniqueFacts(tags[1..]);
    }
  }

  lemma {:induction false} LevelsRead(items: seq<Json>, levels: seq<Level>)
    requires |items| == |levels| && forall i :: 0 <= i < |items| ==> HoldsLevel(items[i], levels[i])
    requires forall i, j :: 0 <= i < j < |levels| ==> levels[i] != levels[j]
    ensures LevelsFrom(items) == Ok(levels)
  {
    if items != [] {
      LevelRead(levels[0]);
      LevelsRead(items[1..], levels[1..]);
      assert levels == [levels[0]] + levels[1..];
    }
  }

  /** The listing is that of a pair of sets: nothing is repeated. */
  ghost predicate IsSets(ls: LabelState) { NoRepeats(ls.a) && NoRepeats(ls.b) }

  /** The state as its own dictionary lists it. */
  function Listed(ls: LabelState): LabelState { LabelState(Sort(ls.a, CategoryKey), Sort(ls.b, LevelKey)) }

  lemma {:induction false} SortKeepsDistinct<T>(s: seq<T>, key: T -> Key)
    requires forall i, j :: 0 <= i < j < |s| ==> s[i] != s[j]
    ensures forall i, j :: 0 <= i < j < |Sort(s, key)| ==> Sort(s, key)[i] != Sort(s, key)[j]
  {
    SortPermutes(s, key);
    var r := Sort(s, key);
    forall i, j | 0 <= i < j < |r| ensures r[i] != r[j] {
      if r[i] == r[j] {
        OnceEach(s, r[i]);
        TwiceCounted(r, i, j);
      }
    }
  }

  lemma {:induction false} OnceEach<T>(s: seq<T>, x: T)
    requires forall i, j :: 0 <= i < j < |s| ==> s[i] != s[j]
    ensures multiset(s)[x] <= 1
  {
    if s != [] {
      OnceEach(s[1..], x);
      assert s == [s[0]] + s[1..];
      if s[0] == x {
        assert forall i | 0 <= i < |s[1..]| :: s[1..][i] == s[i + 1] != x;
        assert x !in s[1..];
      }
    }
  }

  lemma TwiceCounted<T>(s: seq<T>, i: nat, j: nat)
    requires i < j < |s| && s[i] == s[j]
    ensures multiset(s)[s[i]] >= 2
  {
    assert s == s[..i] + [s[i]] + s[i + 1..j] + [s[j]] + s[j + 1..];
  }

  ghost predicate HoldsLabels(j: Json, ls: LabelState) {
    && j.Obj?
    && (exists items :: Get(j.fields, Lit(LABEL_KEYS[0])) == Some(Arr(items)) && |items| == |ls.a|
          && forall i :: 0 <= i < |items| ==> HoldsTag(items[i], ls.a[i]))
    && (exists items :: Get(j.fields, Lit(LABEL_KEYS[1])) == Some(Arr(items)) && |items| == |ls.b|
          && forall i :: 0 <= i < |items| ==> HoldsLevel(items[i], ls.b[i]))
  }

  lemma ListRead(fields: seq<Field>, key: Text, items: seq<Json>)
    requires Get(fields, key) == Some(Arr(items))
    ensures ListOf(fields, key) == Ok(items)
  {
  }

  lemma LabelsFromLists(fields: seq<Field>, a: seq<Json>, b: seq<Json>, ls: LabelState, host: Host)
    requires ListOf(fields, Lit("a")) == Ok(a) && ListOf(fields, Lit("b")) == Ok(b)
    requires TagsFrom(a, host) == Ok(ls.a) && LevelsFrom(b) == Ok(ls.b)
    ensures LabelsFrom(Some(Obj(fields)), host) == Ok(ls)
  {
  }

  lemma LabelsRead(j: Json, ls: LabelState, host: Host)
    requires HoldsLabels(j, ls) && NoRepeats(ls.b)
    ensures LabelsFrom(Some(j), host) == Ok(LabelState(Unique(ls.a), ls.b))
  {
    var a :| Get(j.fields, Lit(LABEL_KEYS[0])) == Some(Arr(a)) && |a| == |ls.a|
      && forall i :: 0 <= i < |a| ==> HoldsTag(a[i], ls.a[i]);
    var b :| Get(j.fields, Lit(LABEL_KEYS[1])) == Some(Arr(b)) && |b| == |ls.b|
      && forall i :: 0 <= i < |b| ==> HoldsLevel(b[i], ls.b[i]);
    TagsRead(a, ls.a, host);
    LevelsRead(b, ls.b);
    ListRead(j.fields, Lit("a"), a);
    ListRead(j.fields, Lit("b"), b);
    LabelsFromLists(j.fields, a, b, LabelState(Unique(ls.a), ls.b), host);
  }

  lemma LabelsHeld(ls: LabelState)
    ensures HoldsLabels(Obj(LabelFields(ls)), Listed(ls))
  {
    LabelKeysDistinct();
    var tags, levels := Sort(ls.a, CategoryKey), Sort(ls.b, LevelKey);
    var values := [Arr(TagsJson(tags)), Arr(LevelsJson(levels))];
    GetRecord(LABEL_KEYS, values, 0);
    GetRecord(LABEL_KEYS, values, 1);
    forall i | 0 <= i < |tags| ensures HoldsTag(TagsJson(tags)[i], tags[i]) { TagHeld(tags[i]); }
    forall i | 0 <= i < |levels| ensures HoldsLevel(LevelsJson(levels)[i], levels[i]) { LevelHeld(levels[i]); }
  }

  lemma ReloadedLabelsHeld(ls: LabelState)
    ensures HoldsLabels(Reloaded(Obj(LabelFields(ls))), FuseLabels(Listed(ls)))
  {
    LabelKeysDistinct();
    var tags, levels := Sort(ls.a, CategoryKey), Sort(ls.b, LevelKey);
    var values := [Arr(TagsJson(tags)), Arr(LevelsJson(levels))];
    ReadRecord(LABEL_KEYS, values, 0);
    ReadRecord(LABEL_KEYS, values, 1);
    ReloadedTags(tags);
    ReloadedLevels(levels);
  }

  lemma ReloadedTags(tags: seq<CategoryTag>)
    ensures var r := Reloaded(Arr(TagsJson(tags)));
            r.Arr? && |r.items| == |tags| && forall i :: 0 <= i < |tags| ==> HoldsTag(r.items[i], FuseTags(tags)[i])
  {
    ReloadedList(TagsJson(tags));
    var items := Reloaded(Arr(TagsJson(tags))).items;
    forall i | 0 <= i < |tags| ensures HoldsTag(items[i], FuseTags(tags)[i]) { TagHeld(tags[i]); }
  }

  lemma ReloadedLevels(levels: seq<Level>)
    ensures var r := Reloaded(Arr(LevelsJson(levels)));
            r.Arr? && |r.items| == |levels| && forall i :: 0 <= i < |levels| ==> HoldsLevel(r.items[i], levels[i])
  {
    ReloadedList(LevelsJson(levels));
    var items := Reloaded(Arr(LevelsJson(levels))).items;
    forall i | 0 <= i < |levels| ensures HoldsLevel(items[i], levels[i]) { LevelHeld(levels[i]); }
  }

  /** The state that reading stored labels makes: every text fused, what became equal kept once. */
  function ReadLabels(ls: LabelState): LabelState {
    LabelState(Unique(FuseTags(Listed(ls).a)), Listed(ls).b)
  }

  /** `LabelState.from_dict` inverts `to_dict` in memory; through JSON text it gives the labels fused. */
  lemma LabelsRoundTrip(ls: LabelState, host: Host)
    requires IsSets(ls)
    ensures LabelsFrom(Some(Obj(LabelFields(ls))), host) == Ok(Listed(ls))
    ensures LabelsFrom(Some(Reloaded(Obj(LabelFields(ls)))), host) == Ok(ReadLabels(ls))
  {
    LabelsHeld(ls);
    ReloadedLabelsHeld(ls);
    SortKeepsDistinct(ls.a, CategoryKey);
    SortKeepsDistinct(ls.b, LevelKey);
    UniqueFixes(Listed(ls).a);
    LabelsRead(Obj(LabelFields(ls)), Listed(ls), host);
    LabelsRead(Reloaded(Obj(LabelFields(ls))), FuseLabels(Listed(ls)), host);
  }

  // ---------------------------------------------------------------- labels that reading does not disturb

  /** Fusing the texts of the written tags leaves them distinct and in the order they were written in. */
  ghost predicate TagsStable(fused: seq<CategoryTag>) { Sorted(fused, CategoryKey) && NoRepeats(fused) }

  ghost predicate LabelsStable(ls: LabelState) { TagsStable(FuseTags(Listed(ls).a)) }

  lemma SortedOnceIff(fused: seq<CategoryTag>)
    ensures Sort(Unique(fused), CategoryKey) == fused <==> TagsStable(fused)
  {
    UniqueFixes(fused);
    UniqueFacts(fused);
    SortPermutes(Unique(fused), CategoryKey);
    SortSorts(Unique(fused), CategoryKey);
    if TagsStable(fused) { SortIdentity(fused, CategoryKey); }
    if Sort(Unique(fused), CategoryKey) == fused {
      assert |multiset(Unique(fused))| == |multiset(fused)|;
    }
  }

  lemma FusedAlready(tags: seq<CategoryTag>, sub: seq<CategoryTag>)
    requires forall t :: t in sub ==> t in FuseTags(tags)
    ensures FuseTags(sub) == sub
  {
    forall i | 0 <= i < |sub| ensures FuseTag(sub[i]) == sub[i] {
      assert sub[i] in FuseTags(tags);
      var k :| 0 <= k < |tags| && FuseTags(tags)[k] == sub[i];
      FuseTagTwice(tags[k]);
    }
  }

  /** What reading makes of labels is written again as they were, fused, exactly when fusing left them stable. */
  lemma ReadLabelsStableIff(ls: LabelState)
    ensures FuseTags(Listed(ReadLabels(ls)).a) == FuseTags(Listed(ls).a) <==> LabelsStable(ls)
    ensures Listed(ReadLabels(ls)).b == Listed(ls).b
  {
    var fused := FuseTags(Listed(ls).a);
    UniqueFacts(fused);
    SortPermutes(Unique(fused), CategoryKey);
    FusedAlready(Listed(ls).a, Sort(Unique(fused), CategoryKey));
    SortedOnceIff(fused);
    SortSorts(ls.b, LevelKey);
    SortIdentity(Listed(ls).b, LevelKey);
  }

  /** Stable labels that were already listed are read fused, and labels without surrogate pairs as they were. */
  lemma StableRead(ls: LabelState)
    requires Listed(ls) == ls
    ensures LabelsStable(ls) ==> ReadLabels(ls) == FuseLabels(ls)
    ensures PlainLabels(ls) ==> FuseLabels(ls) == ls
    ensures PlainLabels(ls) && IsSets(ls) ==> LabelsStable(ls)
  {
    UniqueFixes(FuseTags(ls.a));
    if PlainLabels(ls) {
      forall i | 0 <= i < |ls.a| ensures FuseTags(ls.a)[i] == ls.a[i] { FuseTagPlain(ls.a[i]); }
      assert FuseTags(ls.a) == ls.a;
      SortSorts(ls.a, CategoryKey);
    }
  }

  /** Two joined tags that fuse into one are not stable. */
  lemma FusedAlikeUnstable(ls: LabelState, t: CategoryTag, u: CategoryTag)
    requires Listed(ls) == ls && t in ls.a && u in ls.a && t != u && FuseTag(t) == FuseTag(u)
    ensures !LabelsStable(ls)
  {
    var i :| 0 <= i < |ls.a| && ls.a[i] == t;
    var j :| 0 <= j < |ls.a| && ls.a[j] == u;
    RepeatFound(FuseTags(ls.a), i, j);
  }

  lemma RepeatFound<T>(s: seq<T>, i: nat, j: nat)
    requires i < |s| && j < |s| && i != j && s[i] == s[j]
    ensures !NoRepeats(s)
  {
  }

  // ---------------------------------------------------------------- joined labels

  lemma {:induction false} OfCategoryPlain(tags: seq<CategoryTag>, c: Text)
    requires forall i :: 0 <= i < |tags| ==> PlainTag(tags[i])
    ensures forall i :: 0 <= i < |OfCategory(tags, c)| ==> PlainTag(OfCategory(tags, c)[i])
  {
    forall i | 0 <= i < |OfCategory(tags, c)| ensures PlainTag(OfCategory(tags, c)[i]) {
      assert OfCategory(tags, c)[i] in OfCategory(tags, c);
    }
  }

  lemma {:induction false} BestPlain(tags: seq<CategoryTag>)
    requires tags != [] && forall i :: 0 <= i < |tags| ==> PlainTag(tags[i])
    ensures Fuse(BestProvenance(tags)) == BestProvenance(tags)
  {
    if |tags| > 1 { BestPlain(tags[..|tags| - 1]); }
  }

  lemma MergePlain(c: Text, tags: seq<CategoryTag>)
    requires tags != [] && Fuse(c) == c && forall i :: 0 <= i < |tags| ==> PlainTag(tags[i])
    ensures PlainTag(Merge(c, tags))
  {
    BestPlain(tags);
    RisksIn(tags);
    SortedSetFacts(Risks(tags));
    var rs := SortedSet(Risks(tags));
    forall i | 0 <= i < |rs| ensures Fuse(rs[i]) == rs[i] {
      assert rs[i] in rs && rs[i] in Risks(tags);
      var k :| 0 <= k < |tags| && rs[i] in tags[k].riskIds;
      assert PlainTag(tags[k]);
    }
  }

  /** Joined labels are sets listed in canonical order, and plain when both sides are. */
  lemma JoinedLabels(x: LabelState, y: LabelState)
    ensures IsSets(Join(x, y)) && Listed(Join(x, y)) == Join(x, y)
    ensures PlainLabels(x) && PlainLabels(y) ==> PlainLabels(Join(x, y))
  {
    var tags := x.a + y.a;
    ComposeStrict(tags);
    StrictListed(Compose(tags));
    LevelSetSorted(x.b + y.b);
    if PlainLabels(x) && PlainLabels(y) { ComposedPlain(tags); }
  }

  lemma StrictListed(tags: seq<CategoryTag>)
    requires StrictlySorted(tags, CategoryKey)
    ensures Sort(tags, CategoryKey) == tags && NoRepeats(tags)
  {
    StrictlySortedIsSorted(tags, CategoryKey);
    SortIdentity(tags, CategoryKey);
    forall i, j | 0 <= i < j < |tags| ensures tags[i] != tags[j] {
      assert CategoryKey(tags[i]) != CategoryKey(tags[j]);
    }
  }

  lemma ComposedPlain(tags: seq<CategoryTag>)
    requires forall i :: 0 <= i < |tags| ==> PlainTag(tags[i])
    ensures forall i :: 0 <= i < |Compose(tags)| ==> PlainTag(Compose(tags)[i])
  {
    forall i | 0 <= i < |Compose(tags)| ensures PlainTag(Compose(tags)[i]) {
      var c := Categories(tags)[i];
      var mine := OfCategory(tags, c);
      OfCategoryPlain(tags, c);
      assert mine[0] in mine && PlainTag(mine[0]);
      MergePlain(c, mine);
    }
  }

  lemma LevelOrder()
    ensures Less(LevelKey(ExternalUntrusted), LevelKey(PrincipalDirect))
    ensures Less(LevelKey(PrincipalDirect), LevelKey(SystemInternal))
    ensures Less(LevelKey(ExternalUntrusted), LevelKey(SystemInternal))
  {
    assert LevelKey(ExternalUntrusted)[0] == 'e' as int;
    assert LevelKey(PrincipalDirect)[0] == 'p' as int;
    assert LevelKey(SystemInternal)[0] == 's' as int;
  }

  /** A list of some of three values, in their order. */
  lemma SomeInOrder(e: seq<Level>, p: seq<Level>, s: seq<Level>)
    requires (e == [] || e == [ExternalUntrusted]) && (p == [] || p == [PrincipalDirect]) && (s == [] || s == [SystemInternal])
    ensures StrictlySorted(e + p + s, LevelKey)
  {
    LevelOrder();
    var all := e + p + s;
    forall i, j | 0 <= i < j < |all| ensures Less(LevelKey(all[i]), LevelKey(all[j])) {
      assert all[i].ExternalUntrusted? || (all[i].PrincipalDirect? && all[j].SystemInternal?);
      assert !all[j].ExternalUntrusted?;
    }
  }

  lemma LevelSetSorted(b: seq<Level>)
    ensures Sort(LevelSet(b), LevelKey) == LevelSet(b) && NoRepeats(LevelSet(b))
  {
    SomeInOrder(if ExternalUntrusted in b then [ExternalUntrusted] else [],
                if PrincipalDirect in b then [PrincipalDirect] else [],
                if SystemInternal in b then [SystemInternal] else []);
    StrictLevels(LevelSet(b));
  }

  lemma StrictLevels(b: seq<Level>)
    requires StrictlySorted(b, LevelKey)
    ensures Sort(b, LevelKey) == b && NoRepeats(b)
  {
    StrictlySortedIsSorted(b, LevelKey);
    SortIdentity(b, LevelKey);
    forall i, j | 0 <= i < j < |b| ensures b[i] != b[j] { LessIrreflexive(LevelKey(b[i])); }
  }
}
