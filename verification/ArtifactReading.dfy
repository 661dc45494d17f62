/** Artifacts survive being turned into dictionaries and text, and the digest says which ones. */
module ArtifactReading {
  import opened Wrappers
  import opened Texts
  import opened Sorting
  import opened Json
  import opened JsonReading
  import opened JsonCanonical
  import opened JsonObjects
  import opened Metadata
  import opened Labels
  import opened Artifacts
  import opened ArtifactIdentity
  import opened LabelReading

  // ---------------------------------------------------------------- reading one dictionary

  /** The dictionary has these values under the keys of a stored artifact. */
  ghost predicate Holds(data: seq<Field>, values: seq<Json>)
    requires |values| == |StoredKeys()|
  {
    forall i :: 0 <= i < |values| ==> Get(data, Lit(StoredKeys()[i])) == Some(values[i])
  }

  /** The values spell out r, the creation time included. */
  ghost predicate Spells(values: seq<Json>, r: TypedArtifact)
    requires |values| == |StoredKeys()|
  {
    && values[0] == Str(Lit(TypeName(r.kind))) && values[1] == Str(r.title) && values[2] == Str(r.content)
    && values[3] == Str(r.contentType) && values[4] == Str(r.target) && values[5] == Str(r.destination)
    && values[6] == Str(Lit(EffectName(r.effect))) && values[9] == Str(r.artifactId) && values[11] == Str(r.createdAt)
  }

  lemma TextRead(data: seq<Field>, values: seq<Json>, i: nat, key: string, t: Text, second: Text, default: Text, host: Host)
    requires |values| == |StoredKeys()| && Holds(data, values)
    requires i < |values| && StoredKeys()[i] == key && values[i] == Str(t)
    requires t != [] || (Lit(key) == second && default == [])
    ensures TextOr(data, Lit(key), second, default, host) == t
  {
  }

  lemma RawRead(data: seq<Field>, values: seq<Json>, r: TypedArtifact, host: Host)
    requires |values| == |StoredKeys()| && Holds(data, values) && Spells(values, r)
    requires Checked(r) == Ok(r)
    ensures RawOf(data, host) ==
      Raw(Lit(TypeName(r.kind)), Lit(EffectName(r.effect)), r.title, r.content, r.target, r.destination,
          r.contentType, r.createdAt, r.artifactId)
  {
    var empty: Text := [];
    NonBlank(r.destination);
    NonBlank(r.contentType);
    assert |TypeName(r.kind)| > 0 && |EffectName(r.effect)| > 0;
    TextRead(data, values, 0, "artifact_type", Lit(TypeName(r.kind)), Lit("type"), empty, host);
    TextRead(data, values, 6, "effect", Lit(EffectName(r.effect)), Lit("effect_class"), empty, host);
    TextRead(data, values, 1, "title", r.title, Lit("title"), empty, host);
    TextRead(data, values, 2, "content", r.content, Lit("content"), empty, host);
    TextRead(data, values, 4, "target", r.target, Lit("target"), empty, host);
    TextRead(data, values, 5, "destination_id", r.destination, Lit("target"), empty, host);
    TextRead(data, values, 3, "content_type", r.contentType, Lit("content_type"), Lit("text/plain"), host);
    TextRead(data, values, 9, "artifact_id", r.artifactId, Lit("artifact_id"), empty, host);
    TextRead(data, values, 11, "created_at", r.createdAt, Lit("created_at"), empty, host);
  }

  lemma RawAccepted(raw: Raw, r: TypedArtifact, m: Json, now: Text)
    requires raw == Raw(Lit(TypeName(r.kind)), Lit(EffectName(r.effect)), r.title, r.content, r.target, r.destination,
                        r.contentType, r.createdAt, r.artifactId)
    requires Checked(r) == Ok(r) && r.createdAt != []
    requires Truthy(m) || m == Obj([])
    requires m.Obj? ==> r.metadata == OfJson(m)
    ensures FromRaw(raw, Ok(r.labels), Some(m), now) == if m.Obj? then Ok(r) else Err(MetadataNotMapping)
  {
    TypeRead(r.kind);
    EffectRead(r.effect);
    assert |EffectName(r.effect)| > 0;
  }

  lemma FromDictReads(data: seq<Field>, values: seq<Json>, r: TypedArtifact, host: Host, now: Text)
    requires |values| == |StoredKeys()| && Holds(data, values) && Spells(values, r)
    requires LabelsFrom(Some(values[7]), host) == Ok(r.labels)
    requires Checked(r) == Ok(r) && r.createdAt != []
    requires Truthy(values[8]) || values[8] == Obj([])
    requires values[8].Obj? ==> r.metadata == OfJson(values[8])
    ensures FromDict(data, host, now) == if values[8].Obj? then Ok(r) else Err(MetadataNotMapping)
  {
    assert StoredKeys()[7] == "labels" && StoredKeys()[8] == "metadata";
    RawRead(data, values, r, host);
    RawAccepted(RawOf(data, host), r, values[8], now);
  }

  lemma NonBlank(t: Text)
    ensures !IsBlank(t) ==> t != []
  {
  }

  // ---------------------------------------------------------------- in memory

  /** What the constructor checks and the types promise; metadata is a dictionary. */
  ghost predicate Valid(a: TypedArtifact) {
    Checked(a) == Ok(a) && a.metadata.PDict? && IsSets(a.labels) && a.createdAt != []
  }

  /** The artifact that `from_dict(to_dict(a))` makes. */
  function Normal(a: TypedArtifact, host: Host): TypedArtifact {
    a.(labels := Listed(a.labels), metadata := OfJson(Jsonable(a.metadata, host.str)), artifactId := ShownId(a, host))
  }

  lemma StoredHeld(a: TypedArtifact, host: Host)
    ensures |StoredValues(a, host)| == |StoredKeys()|
    ensures Holds(ToDict(a, host), StoredValues(a, host))
  {
    StoredKeysDistinct();
    forall i | 0 <= i < |StoredKeys()|
      ensures Get(ToDict(a, host), Lit(StoredKeys()[i])) == Some(StoredValues(a, host)[i])
    {
      GetRecord(StoredKeys(), StoredValues(a, host), i);
    }
  }

  lemma StoredSpells(a: TypedArtifact, host: Host)
    ensures |StoredValues(a, host)| == |StoredKeys()|
    ensures Spells(StoredValues(a, host), a.(artifactId := ShownId(a, host)))
    ensures StoredValues(a, host)[7] == Obj(LabelFields(a.labels))
    ensures StoredValues(a, host)[8] == Jsonable(a.metadata, host.str)
  {
    AppendedAt(CanonicalValues(a, host), Str(ShownId(a, host)), Str(Digest(a, host)), Str(a.createdAt));
  }

  lemma AppendedAt(c: seq<Json>, x: Json, y: Json, z: Json)
    requires |c| == 9
    ensures var s := c + [x, y, z];
            && |s| == 12 && (forall i :: 0 <= i < 9 ==> s[i] == c[i]) && s[9] == x && s[10] == y && s[11] == z
  {
  }

  lemma SpellsOnlyTexts(values: seq<Json>, a: TypedArtifact, r: TypedArtifact)
    requires |values| == |StoredKeys()| && Spells(values, a)
    requires r == a.(labels := r.labels, metadata := r.metadata)
    ensures Spells(values, r)
  {
  }

  /** Dictionaries become objects; whatever cannot be serialised becomes a text. */
  lemma MetadataShape(v: PyValue, host: Host)
    requires v.PDict?
    ensures Serialisable(v) ==> Jsonable(v, host.str).Obj?
    ensures !Serialisable(v) ==> Jsonable(v, host.str) == Str(host.str(v))
  {
  }

  lemma NormalRead(a: TypedArtifact, host: Host, now: Text)
    requires Valid(a)
    requires host.str(a.metadata) != []
    ensures FromDict(ToDict(a, host), host, now) ==
      if Serialisable(a.metadata) then Ok(Normal(a, host)) else Err(MetadataNotMapping)
  {
    StoredHeld(a, host);
    NormalFits(a, host);
    MetadataShape(a.metadata, host);
    FromDictReads(ToDict(a, host), StoredValues(a, host), Normal(a, host), host, now);
  }

  lemma NormalFits(a: TypedArtifact, host: Host)
    requires Valid(a)
    ensures var values, n := StoredValues(a, host), Normal(a, host);
            && |values| == |StoredKeys()| && Spells(values, n) && Checked(n) == Ok(n)
            && LabelsFrom(Some(values[7]), host) == Ok(n.labels)
            && values[8] == Jsonable(a.metadata, host.str)
  {
    StoredSpells(a, host);
    SpellsOnlyTexts(StoredValues(a, host), a.(artifactId := ShownId(a, host)), Normal(a, host));
    LabelsRoundTrip(a.labels, host);
  }

  lemma ListedTwice(ls: LabelState)
    ensures Listed(Listed(ls)) == Listed(ls)
  {
    SortSorts(ls.a, CategoryKey);
    SortIdentity(Sort(ls.a, CategoryKey), CategoryKey);
    SortSorts(ls.b, LevelKey);
    SortIdentity(Sort(ls.b, LevelKey), LevelKey);
  }

  lemma NormalValues(a: TypedArtifact, host: Host)
    ensures CanonicalValues(Normal(a, host), host) == CanonicalValues(a, host)
  {
    JsonableIdempotent(a.metadata, host.str);
    ListedTwice(a.labels);
    assert LabelFields(Normal(a, host).labels) == LabelFields(a.labels);
  }

  /** In memory: reading needs serialisable metadata; then the round trip keeps the canonical text
      and the digest, and `to_dict` is a fixed point after it. */
  lemma DictRoundTrip(a: TypedArtifact, host: Host, now: Text)
    requires Valid(a)
    requires host.str(a.metadata) != []
    ensures FromDict(ToDict(a, host), host, now) ==
      if Serialisable(a.metadata) then Ok(Normal(a, host)) else Err(MetadataNotMapping)
    ensures CanonicalText(Normal(a, host), host) == CanonicalText(a, host)
    ensures Digest(Normal(a, host), host) == Digest(a, host)
    ensures ToDict(Normal(a, host), host) == ToDict(a, host)
  {
    NormalRead(a, host, now);
    NormalValues(a, host);
    if ShownId(a, host) == [] { assert Normal(a, host).artifactId == []; }
  }

  // ---------------------------------------------------------------- through JSON text

  /** The artifact that reading the stored text makes. */
  function ReadBack(a: TypedArtifact, host: Host): TypedArtifact {
    a.(title := Fuse(a.title),
       content := Fuse(a.content),
       contentType := Fuse(a.contentType),
       target := Fuse(a.target),
       destination := Fuse(a.destination),
       labels := ReadLabels(a.labels),
       metadata := OfJson(Reloaded(Jsonable(a.metadata, host.str))),
       artifactId := Fuse(ShownId(a, host)))
  }

  /** Also: the time stamp has no surrogate pair to lose; an ISO text is ASCII. */
  ghost predicate Storable(a: TypedArtifact) { Valid(a) && Fuse(a.createdAt) == a.createdAt }

  function ReloadedAll(values: seq<Json>): (r: seq<Json>)
    ensures |r| == |values| && forall i :: 0 <= i < |r| ==> r[i] == Reloaded(values[i])
  {
    seq(|values|, i requires 0 <= i < |values| => Reloaded(values[i]))
  }

  lemma ReloadedHeld(a: TypedArtifact, host: Host)
    ensures |StoredValues(a, host)| == |StoredKeys()|
    ensures Reloaded(Obj(ToDict(a, host))).Obj?
    ensures Holds(Reloaded(Obj(ToDict(a, host))).fields, ReloadedAll(StoredValues(a, host)))
  {
    StoredKeysDistinct();
    ReadRecord(StoredKeys(), StoredValues(a, host), 0);
    forall i | 0 <= i < |StoredKeys()|
      ensures Get(Reloaded(Obj(ToDict(a, host))).fields, Lit(StoredKeys()[i])) == Some(Reloaded(StoredValues(a, host)[i]))
    {
      ReadRecord(StoredKeys(), StoredValues(a, host), i);
    }
  }

  lemma ReloadedSpells(values: seq<Json>, a: TypedArtifact, r: TypedArtifact)
    requires |values| == |StoredKeys()| && Spells(values, a)
    requires r.kind == a.kind && r.effect == a.effect
    requires r.title == Fuse(a.title) && r.content == Fuse(a.content) && r.contentType == Fuse(a.contentType)
    requires r.target == Fuse(a.target) && r.destination == Fuse(a.destination)
    requires r.artifactId == Fuse(a.artifactId) && r.createdAt == Fuse(a.createdAt)
    ensures Spells(ReloadedAll(values), r)
  {
    LitPlain(TypeName(a.kind));
    LitPlain(EffectName(a.effect));
    ReloadedText(Lit(TypeName(a.kind)));
    ReloadedText(Lit(EffectName(a.effect)));
    ReloadedText(a.title);
    ReloadedText(a.content);
    ReloadedText(a.contentType);
    ReloadedText(a.target);
    ReloadedText(a.destination);
    ReloadedText(a.artifactId);
    ReloadedText(a.createdAt);
  }

  /** The stored text reads back exactly when the metadata was serialisable. */
  lemma TextRoundTrip(a: TypedArtifact, host: Host, now: Text)
    requires Storable(a)
    requires host.str(a.metadata) != []
    ensures Loads(Dumps(Obj(ToDict(a, host)), true)) == Some(Reloaded(Obj(ToDict(a, host))))
    ensures Reloaded(Obj(ToDict(a, host))).Obj?
    ensures FromDict(Reloaded(Obj(ToDict(a, host))).fields, host, now) ==
      if Serialisable(a.metadata) then Ok(ReadBack(a, host)) else Err(MetadataNotMapping)
  {
    LoadsPrinted(SortTree(Obj(ToDict(a, host))), true);
    ReloadedHeld(a, host);
    ReadBackAccepted(a, host, now);
  }

  lemma ReadBackAccepted(a: TypedArtifact, host: Host, now: Text)
    requires Storable(a)
    requires host.str(a.metadata) != []
    requires Reloaded(Obj(ToDict(a, host))).Obj?
    ensures FromDict(Reloaded(Obj(ToDict(a, host))).fields, host, now) ==
      if Serialisable(a.metadata) then Ok(ReadBack(a, host)) else Err(MetadataNotMapping)
  {
    var values, r := StoredValues(a, host), ReadBack(a, host);
    ReloadedHeld(a, host);
    StoredSpells(a, host);
    ReloadedSpells(values, a.(artifactId := ShownId(a, host)), r);
    LabelsRoundTrip(a.labels, host);
    ReadBackChecked(a, host);
    ReloadedMetadata(a.metadata, host);
    FromDictReads(Reloaded(Obj(ToDict(a, host))).fields, ReloadedAll(values), r, host, now);
  }

  lemma ReadBackChecked(a: TypedArtifact, host: Host)
    requires Checked(a) == Ok(a)
    ensures Checked(ReadBack(a, host)) == Ok(ReadBack(a, host))
  {
    FuseBlank(a.title);
    FuseBlank(a.destination);
    FuseBlank(a.contentType);
  }

  lemma ReloadedMetadata(v: PyValue, host: Host)
    requires v.PDict? && host.str(v) != []
    ensures Reloaded(Jsonable(v, host.str)).Obj? <==> Serialisable(v)
    ensures Truthy(Reloaded(Jsonable(v, host.str))) || Reloaded(Jsonable(v, host.str)) == Obj([])
  {
    MetadataShape(v, host);
    FuseLeavesNoPair(host.str(v));
  }

  // ---------------------------------------------------------------- what the canonical text identifies

  /** Everything an approval binds: the fields under review, surrogate pairs fused. */
  datatype Reviewed = Reviewed(
    kind: ArtifactType,
    title: Text,
    content: Text,
    contentType: Text,
    target: Text,
    destination: Text,
    effect: ArtifactEffect,
    tags: seq<CategoryTag>,
    levels: seq<Level>,
    metadata: Json
  )

  /** What printing shows of a tree. */
  function Shown(j: Json): Json { FuseTree(SortTree(j)) }

  function Review(a: TypedArtifact, host: Host): Reviewed {
    Reviewed(a.kind, Fuse(a.title), Fuse(a.content), Fuse(a.contentType), Fuse(a.target), Fuse(a.destination), a.effect,
             FuseTags(Listed(a.labels).a), Listed(a.labels).b, Shown(Jsonable(a.metadata, host.str)))
  }

  lemma ShownTexts(ts: seq<Text>, us: seq<Text>)
    ensures Shown(Arr(TextsJson(ts))) == Shown(Arr(TextsJson(us))) <==> FuseTexts(ts) == FuseTexts(us)
  {
    ShownLists(TextsJson(ts), TextsJson(us));
    if FuseTexts(ts) == FuseTexts(us) {
      assert |ts| == |FuseTexts(ts)| == |us|;
      forall i | 0 <= i < |ts| ensures Shown(TextsJson(ts)[i]) == Shown(TextsJson(us)[i]) {
        assert FuseTexts(ts)[i] == FuseTexts(us)[i];
      }
    }
    if |ts| == |us| && forall i :: 0 <= i < |ts| ==> Shown(TextsJson(ts)[i]) == Shown(TextsJson(us)[i]) {
      forall i | 0 <= i < |ts| ensures FuseTexts(ts)[i] == FuseTexts(us)[i] {
        assert Shown(TextsJson(ts)[i]) == Shown(TextsJson(us)[i]);
      }
    }
  }

  lemma ShownLists(xs: seq<Json>, ys: seq<Json>)
    ensures Shown(Arr(xs)) == Shown(Arr(ys)) <==> |xs| == |ys| && forall i :: 0 <= i < |xs| ==> Shown(xs[i]) == Shown(ys[i])
  {
    var fx, fy := FuseItems(SortItems(xs)), FuseItems(SortItems(ys));
    assert Shown(Arr(xs)) == Arr(fx) && Shown(Arr(ys)) == Arr(fy);
    if fx == fy {
      assert |xs| == |fx| == |fy| == |ys|;
      forall i | 0 <= i < |xs| ensures Shown(xs[i]) == Shown(ys[i]) {
        assert fx[i] == fy[i];
      }
    }
  }

  lemma ShownRecords(keys: seq<string>, xs: seq<Json>, ys: seq<Json>)
    requires |keys| == |xs| == |ys|
    ensures Shown(Obj(Record(keys, xs))) == Shown(Obj(Record(keys, ys))) <==>
      forall i :: 0 <= i < |keys| ==> Shown(xs[i]) == Shown(ys[i])
  {
    FieldwiseEqualIff(Record(keys, xs), Record(keys, ys));
    var fs, gs := Record(keys, xs), Record(keys, ys);
    assert forall i | 0 <= i < |keys| :: fs[i].value == xs[i] && gs[i].value == ys[i];
  }

  lemma TierNames(t: Tier, u: Tier)
    ensures Lit(TierName(t)) == Lit(TierName(u)) <==> t == u
    ensures Shown(Str(Lit(TierName(t)))) == Str(Lit(TierName(t)))
  {
    TierRead(t);
    TierRead(u);
    LitPlain(TierName(t));
  }

  lemma LevelNames(l: Level, m: Level)
    ensures Lit(LevelName(l)) == Lit(LevelName(m)) <==> l == m
    ensures Shown(Str(Lit(LevelName(l)))) == Str(Lit(LevelName(l)))
  {
    LevelRead(l);
    LevelRead(m);
    LitPlain(LevelName(l));
  }

  lemma ShownText(t: Text, u: Text)
    ensures Shown(Str(t)) == Shown(Str(u)) <==> Fuse(t) == Fuse(u)
  {
  }

  lemma AllFour(b: seq<bool>)
    requires |b| == 4
    ensures (forall i :: 0 <= i < 4 ==> b[i]) <==> b[0] && b[1] && b[2] && b[3]
  {
  }

  lemma AllNine(b: seq<bool>)
    requires |b| == 9
    ensures (forall i :: 0 <= i < 9 ==> b[i]) <==>
      b[0] && b[1] && b[2] && b[3] && b[4] && b[5] && b[6] && b[7] && b[8]
  {
  }

  /** Place by place, whether the two lists show the same. */
  ghost function SameShown(xs: seq<Json>, ys: seq<Json>): (b: seq<bool>)
    requires |xs| == |ys|
    ensures |b| == |xs| && forall i :: 0 <= i < |b| ==> (b[i] <==> Shown(xs[i]) == Shown(ys[i]))
  {
    seq(|xs|, i requires 0 <= i < |xs| => Shown(xs[i]) == Shown(ys[i]))
  }

  lemma RecordsAlike(keys: seq<string>, xs: seq<Json>, ys: seq<Json>)
    requires |keys| == |xs| == |ys|
    ensures Shown(Obj(Record(keys, xs))) == Shown(Obj(Record(keys, ys))) <==>
      forall i :: 0 <= i < |keys| ==> SameShown(xs, ys)[i]
  {
    ShownRecords(keys, xs, ys);
    var b := SameShown(xs, ys);
    if forall i :: 0 <= i < |keys| ==> b[i] {
      forall i | 0 <= i < |keys| ensures Shown(xs[i]) == Shown(ys[i]) { assert b[i]; }
    }
  }

  lemma ShownTag(t: CategoryTag, u: CategoryTag)
    ensures Shown(Obj(TagFields(t))) == Shown(Obj(TagFields(u))) <==> FuseTag(t) == FuseTag(u)
  {
    var xs := [Str(t.category), Str(Lit(TierName(t.tier))), Arr(TextsJson(t.riskIds)), Str(t.provenance)];
    var ys := [Str(u.category), Str(Lit(TierName(u.tier))), Arr(TextsJson(u.riskIds)), Str(u.provenance)];
    RecordsAlike(TAG_KEYS, xs, ys);
    AllFour(SameShown(xs, ys));
    ShownText(t.category, u.category);
    ShownText(t.provenance, u.provenance);
    TierNames(t.tier, u.tier);
    TierNames(u.tier, t.tier);
    ShownTexts(t.riskIds, u.riskIds);
  }

  lemma ShownLevel(l: Level, m: Level)
    ensures Shown(Obj(LevelFields(l))) == Shown(Obj(LevelFields(m))) <==> l == m
  {
    var xs, ys := [Str(Lit(LevelName(l)))], [Str(Lit(LevelName(m)))];
    ShownRecords(LEVEL_KEYS, xs, ys);
    LevelNames(l, m);
    LevelNames(m, l);
    assert (forall i :: 0 <= i < 1 ==> Shown(xs[i]) == Shown(ys[i])) <==> Shown(xs[0]) == Shown(ys[0]);
  }

  lemma ShownTags(ts: seq<CategoryTag>, us: seq<CategoryTag>)
    ensures Shown(Arr(TagsJson(ts))) == Shown(Arr(TagsJson(us))) <==> FuseTags(ts) == FuseTags(us)
  {
    ShownLists(TagsJson(ts), TagsJson(us));
    forall i | 0 <= i < |ts| && i < |us|
      ensures Shown(TagsJson(ts)[i]) == Shown(TagsJson(us)[i]) <==> FuseTag(ts[i]) == FuseTag(us[i])
    {
      ShownTag(ts[i], us[i]);
    }
    if FuseTags(ts) == FuseTags(us) {
      assert |ts| == |FuseTags(ts)| == |us|;
      forall i | 0 <= i < |ts| ensures Shown(TagsJson(ts)[i]) == Shown(TagsJson(us)[i]) {
        assert FuseTags(ts)[i] == FuseTags(us)[i];
      }
    }
  }

  lemma ShownLevels(ls: seq<Level>, ms: seq<Level>)
    ensures Shown(Arr(LevelsJson(ls))) == Shown(Arr(LevelsJson(ms))) <==> ls == ms
  {
    ShownLists(LevelsJson(ls), LevelsJson(ms));
    forall i | 0 <= i < |ls| && i < |ms|
      ensures Shown(LevelsJson(ls)[i]) == Shown(LevelsJson(ms)[i]) <==> ls[i] == ms[i]
    {
      ShownLevel(ls[i], ms[i]);
    }
  }

  lemma ShownLabels(x: LabelState, y: LabelState)
    ensures Shown(Obj(LabelFields(x))) == Shown(Obj(LabelFields(y))) <==>
      FuseTags(Listed(x).a) == FuseTags(Listed(y).a) && Listed(x).b == Listed(y).b
  {
    var xs := [Arr(TagsJson(Listed(x).a)), Arr(LevelsJson(Listed(x).b))];
    var ys := [Arr(TagsJson(Listed(y).a)), Arr(LevelsJson(Listed(y).b))];
    ShownRecords(LABEL_KEYS, xs, ys);
    ShownTags(Listed(x).a, Listed(y).a);
    ShownLevels(Listed(x).b, Listed(y).b);
    assert (forall i :: 0 <= i < 2 ==> Shown(xs[i]) == Shown(ys[i])) <==> (Shown(xs[0]) == Shown(ys[0]) && Shown(xs[1]) == Shown(ys[1]));
  }

  lemma ShownKind(t: ArtifactType, u: ArtifactType)
    ensures Shown(Str(Lit(TypeName(t)))) == Shown(Str(Lit(TypeName(u)))) <==> t == u
  {
    TypeRead(t);
    TypeRead(u);
    LitPlain(TypeName(t));
    LitPlain(TypeName(u));
  }

  lemma ShownEffect(t: ArtifactEffect, u: ArtifactEffect)
    ensures Shown(Str(Lit(EffectName(t)))) == Shown(Str(Lit(EffectName(u)))) <==> t == u
  {
    EffectRead(t);
    EffectRead(u);
    LitPlain(EffectName(t));
    LitPlain(EffectName(u));
  }

  /** Two artifacts have the same canonical text exactly when they agree on everything under review. */
  lemma CanonicalTextIff(a: TypedArtifact, b: TypedArtifact, host: Host)
    ensures CanonicalText(a, host) == CanonicalText(b, host) <==> Review(a, host) == Review(b, host)
  {
    DumpsEqualIff(Obj(CanonicalFields(a, host)), Obj(CanonicalFields(b, host)), false);
    var xs, ys := CanonicalValues(a, host), CanonicalValues(b, host);
    RecordsAlike(CanonicalKeys(), xs, ys);
    AllNine(SameShown(xs, ys));
    ValuesReviewed(a, b, host, SameShown(xs, ys));
  }

  /** Value by value, what the canonical dictionaries show is what the reviewed records hold. */
  lemma ValuesReviewed(a: TypedArtifact, b: TypedArtifact, host: Host, same: seq<bool>)
    requires same == SameShown(CanonicalValues(a, host), CanonicalValues(b, host))
    ensures same[0] && same[1] && same[2] && same[3] && same[4] && same[5] && same[6] && same[7] && same[8] <==>
      Review(a, host) == Review(b, host)
  {
    TextsListed(a, host);
    TextsListed(b, host);
    TextsReviewed(CanonicalValues(a, host), CanonicalValues(b, host), a, b);
    NamesReviewed(a, b, host, same);
    TreesReviewed(a, b, host, same);
  }

  /** The values list the artifact's five texts. */
  ghost predicate ListsTexts(values: seq<Json>, a: TypedArtifact) {
    && |values| == 9
    && values[1] == Str(a.title) && values[2] == Str(a.content) && values[3] == Str(a.contentType)
    && values[4] == Str(a.target) && values[5] == Str(a.destination)
  }

  lemma TextsListed(a: TypedArtifact, host: Host)
    ensures ListsTexts(CanonicalValues(a, host), a)
  {
  }

  lemma TextsReviewed(xs: seq<Json>, ys: seq<Json>, a: TypedArtifact, b: TypedArtifact)
    requires ListsTexts(xs, a) && ListsTexts(ys, b)
    ensures var same := SameShown(xs, ys);
            && (same[1] <==> Fuse(a.title) == Fuse(b.title))
            && (same[2] <==> Fuse(a.content) == Fuse(b.content))
            && (same[3] <==> Fuse(a.contentType) == Fuse(b.contentType))
            && (same[4] <==> Fuse(a.target) == Fuse(b.target))
            && (same[5] <==> Fuse(a.destination) == Fuse(b.destination))
  {
    TextAt(xs, ys, 1, a.title, b.title);
    TextAt(xs, ys, 2, a.content, b.content);
    TextAt(xs, ys, 3, a.contentType, b.contentType);
    TextAt(xs, ys, 4, a.target, b.target);
    TextAt(xs, ys, 5, a.destination, b.destination);
  }

  lemma TextAt(xs: seq<Json>, ys: seq<Json>, i: nat, t: Text, u: Text)
    requires i < |xs| == |ys| && xs[i] == Str(t) && ys[i] == Str(u)
    ensures SameShown(xs, ys)[i] <==> Fuse(t) == Fuse(u)
  {
    ShownText(t, u);
  }

  lemma NamesReviewed(a: TypedArtifact, b: TypedArtifact, host: Host, same: seq<bool>)
    requires same == SameShown(CanonicalValues(a, host), CanonicalValues(b, host))
    ensures same[0] <==> a.kind == b.kind
    ensures same[6] <==> a.effect == b.effect
  {
    ShownKind(a.kind, b.kind);
    ShownEffect(a.effect, b.effect);
  }

  lemma TreesReviewed(a: TypedArtifact, b: TypedArtifact, host: Host, same: seq<bool>)
    requires same == SameShown(CanonicalValues(a, host), CanonicalValues(b, host))
    ensures same[7] <==> FuseTags(Listed(a.labels).a) == FuseTags(Listed(b.labels).a) && Listed(a.labels).b == Listed(b.labels).b
    ensures same[8] <==> Shown(Jsonable(a.metadata, host.str)) == Shown(Jsonable(b.metadata, host.str))
  {
    ShownLabels(a.labels, b.labels);
  }

  // ---------------------------------------------------------------- main results on digests

  /** No two texts share a hash. */
  ghost predicate CollisionFree(sha: string -> Text) {
    forall x, y :: sha(x) == sha(y) ==> x == y
  }

  /** The digest binds exactly the fields under review: equal digests, equal reviewed artifact. */
  lemma DigestIff(a: TypedArtifact, b: TypedArtifact, host: Host)
    requires CollisionFree(host.sha)
    ensures Digest(a, host) == Digest(b, host) <==> Review(a, host) == Review(b, host)
  {
    CanonicalTextIff(a, b, host);
  }

  /** No surrogate pair anywhere in what is under review. */
  ghost predicate Plain(a: TypedArtifact, host: Host) {
    && Fuse(a.title) == a.title && Fuse(a.content) == a.content && Fuse(a.contentType) == a.contentType
    && Fuse(a.target) == a.target && Fuse(a.destination) == a.destination
    && PlainLabels(a.labels) && FusedTree(Jsonable(a.metadata, host.str))
  }

  /** Without surrogate pairs the digest is the identity of the artifact's own fields; dictionary order is irrelevant. */
  lemma PlainDigestIff(a: TypedArtifact, b: TypedArtifact, host: Host)
    requires CollisionFree(host.sha) && Plain(a, host) && Plain(b, host)
    ensures Digest(a, host) == Digest(b, host) <==>
      && a.kind == b.kind && a.title == b.title && a.content == b.content && a.contentType == b.contentType
      && a.target == b.target && a.destination == b.destination && a.effect == b.effect
      && Listed(a.labels) == Listed(b.labels)
      && Denote(Jsonable(a.metadata, host.str)) == Denote(Jsonable(b.metadata, host.str))
  {
    DigestIff(a, b, host);
    var m, n := Jsonable(a.metadata, host.str), Jsonable(b.metadata, host.str);
    JsonableWellFormed(a.metadata, host.str);
    JsonableWellFormed(b.metadata, host.str);
    DumpsEqualIff(m, n, false);
    DumpsIdentifiesValue(m, n, false);
    PlainListed(a.labels);
    PlainListed(b.labels);
  }

  lemma PlainListed(ls: LabelState)
    requires PlainLabels(ls)
    ensures FuseTags(Listed(ls).a) == Listed(ls).a
  {
    SortPermutes(ls.a, CategoryKey);
    var tags := Listed(ls).a;
    forall i | 0 <= i < |tags| ensures FuseTag(tags[i]) == tags[i] {
      assert tags[i] in ls.a;
      assert FuseTexts(tags[i].riskIds) == tags[i].riskIds;
    }
  }

  /** With surrogate pairs it is not: a pair of lone surrogates and the character they
      spell give different titles and one digest. */
  lemma PairsShareDigest(a: TypedArtifact, host: Host)
    ensures var split := a.(title := [0xD83D, 0xDE00]);
            var whole := a.(title := [0x1F600]);
            split.title != whole.title && Digest(split, host) == Digest(whole, host)
  {
    var split, whole: TypedArtifact := a.(title := [0xD83D, 0xDE00]), a.(title := [0x1F600]);
    assert Fuse(split.title) == whole.title by {
      assert split.title[2..] == [];
      assert Fuse(split.title) == [Combine(0xD83D, 0xDE00)] + Fuse(split.title[2..]);
    }
    CanonicalTextIff(split, whole, host);
  }

  /** What reading back changes shows in the digest exactly unless the metadata keys and the labels were stable. */
  lemma ReadBackDigestIff(a: TypedArtifact, host: Host)
    requires CollisionFree(host.sha) && Valid(a)
    ensures Digest(ReadBack(a, host), host) == Digest(a, host) <==>
      KeysStable(Jsonable(a.metadata, host.str)) && LabelsStable(a.labels)
  {
    var r := ReadBack(a, host);
    FuseIdempotent(a.title);
    FuseIdempotent(a.content);
    FuseIdempotent(a.contentType);
    FuseIdempotent(a.target);
    FuseIdempotent(a.destination);
    MetadataReadIff(a.metadata, host);
    ReadLabelsStableIff(a.labels);
    DigestIff(r, a, host);
  }

  lemma MetadataReadIff(v: PyValue, host: Host)
    ensures Shown(Jsonable(OfJson(Reloaded(Jsonable(v, host.str))), host.str)) == Shown(Jsonable(v, host.str))
      <==> KeysStable(Jsonable(v, host.str))
  {
    var m := Jsonable(v, host.str);
    JsonableWellFormed(v, host.str);
    DictTreeWellFormed(FuseTree(SortTree(m)));
    JsonableFixesJson(Reloaded(m), host.str);
    ReloadedPrintsSameIff(m, false);
  }
}
