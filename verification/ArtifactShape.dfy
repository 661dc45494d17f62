/** The exact text whose hash identifies an artifact. */
module ArtifactShape {
  import opened Wrappers
  import opened Texts
  import opened Sorting
  import opened PyStrings
  import opened Json
  import opened JsonShape
  import opened JsonCanonical
  import opened JsonObjects
  import opened Metadata
  import opened Labels
  import opened Artifacts
  import opened ArtifactIdentity

  // ---------------------------------------------------------------- records

  /** A literal is sorted before another that agrees with it up to place k and has a greater character there. */
  lemma LitLess(s: string, t: string, k: nat)
    requires k <= |s| && k < |t| && s[..k] == t[..k] && (k == |s| || s[k] < t[k])
    ensures Less(Lit(s), Lit(t))
  {
    assert Lit(s)[..k] == Lit(s[..k]) && Lit(t)[..k] == Lit(t[..k]);
    assert LesserAt(Lit(s), Lit(t), k);
    LessIff(Lit(s), Lit(t));
  }

  function Picked(values: seq<Json>, order: seq<nat>): (r: seq<Json>)
    requires forall i :: 0 <= i < |order| ==> order[i] < |values|
    ensures |r| == |order| && forall i :: 0 <= i < |r| ==> r[i] == SortTree(values[order[i]])
  {
    seq(|order|, i requires 0 <= i < |order| => SortTree(values[order[i]]))
  }

  /** The keys in another order, every one of them. */
  ghost predicate Reorders(keys: seq<string>, order: seq<nat>, sorted: seq<string>) {
    && |order| == |sorted| == |keys|
    && (forall i :: 0 <= i < |order| ==> order[i] < |keys| && sorted[i] == keys[order[i]])
    && (forall j: nat :: j < |keys| ==> j in order)
  }

  ghost predicate KeysSorted(sorted: seq<string>) {
    forall i :: 0 <= i < |sorted| - 1 ==> Less(Lit(sorted[i]), Lit(sorted[i + 1]))
  }

  /** Sorting a record lists it in the order of its keys. */
  lemma RecordSorted(keys: seq<string>, values: seq<Json>, order: seq<nat>, sorted: seq<string>)
    requires |values| == |keys| && DistinctCodes(keys) && Reorders(keys, order, sorted) && KeysSorted(sorted)
    ensures SortTree(Obj(Record(keys, values))) == Obj(Record(sorted, Picked(values, order)))
  {
    var fields, want := Record(keys, values), Record(sorted, Picked(values, order));
    var have := SortValues(fields);
    RecordPlain(keys, values);
    DistinctThroughMap(fields, have);
    SortStrict(have, FieldKey);
    SortPermutes(have, FieldKey);
    WantSorted(sorted, Picked(values, order));
    forall i | 0 <= i < |order| ensures want[i] == have[order[i]] { assert have[order[i]] == SortField(fields[order[i]]); }
    SameEntries(have, want, order);
    StrictlySortedUnique(Sort(have, FieldKey), want, FieldKey);
  }

  lemma WantSorted(sorted: seq<string>, values: seq<Json>)
    requires |sorted| == |values| && KeysSorted(sorted)
    ensures StrictlySorted(Record(sorted, values), FieldKey)
  {
    NeighboursSorted(Record(sorted, values), FieldKey);
  }

  lemma SameEntries(have: seq<Field>, want: seq<Field>, order: seq<nat>)
    requires |want| == |order| && forall i :: 0 <= i < |order| ==> order[i] < |have| && want[i] == have[order[i]]
    requires forall j: nat :: j < |have| ==> j in order
    ensures forall x :: x in have <==> x in want
  {
    forall x ensures x in have <==> x in want {
      if x in have {
        var j :| 0 <= j < |have| && have[j] == x;
        assert j in order;
        var i :| 0 <= i < |order| && order[i] == j;
        assert want[i] == x;
      }
    }
  }

  /** `"key":value`, compact. */
  function Part(key: string, value: string): string { "\"" + key + "\":" + value }

  function Parts(keys: seq<string>, values: seq<Json>): (r: seq<string>)
    requires |keys| == |values|
    ensures |r| == |keys| && forall i :: 0 <= i < |r| ==> r[i] == Part(keys[i], Print(values[i], false))
  {
    seq(|keys|, i requires 0 <= i < |keys| => Part(keys[i], Print(values[i], false)))
  }

  lemma RecordJoined(keys: seq<string>, values: seq<Json>)
    requires |keys| == |values| && forall i :: 0 <= i < |keys| ==> Unescaped(keys[i])
    ensures Print(Obj(Record(keys, values)), false) == "{" + (Joined(Parts(keys, values), ",") + "}")
  {
    var fields := Record(keys, values);
    ObjectJoined(fields, false);
    forall i | 0 <= i < |keys| ensures Entries(fields, false)[i] == Parts(keys, values)[i] { EntryIsPart(keys[i], values[i]); }
    assert Entries(fields, false) == Parts(keys, values);
  }

  lemma EntryIsPart(key: string, value: Json)
    requires Unescaped(key)
    ensures Entry(Field(Lit(key), value), false) == Part(key, Print(value, false))
  {
    QuotePlain(key);
    ColonAfter("\"" + key, Print(value, false));
  }

  lemma ColonAfter(a: string, b: string)
    ensures (a + "\"") + (":" + b) == a + "\":" + b
  {
    assert "\":" == "\"" + ":";
  }

  // ---------------------------------------------------------------- the canonical text

  const SORTED_KEYS: seq<string> :=
    ["artifact_type", "content", "content_type", "destination_id", "effect", "labels", "metadata", "target", "title"]

  lemma CanonicalKeysSorted()
    ensures KeysSorted(SORTED_KEYS)
  {
    LitLess("artifact_type", "content", 0);
    LitLess("content", "content_type", 7);
    LitLess("content_type", "destination_id", 0);
    LitLess("destination_id", "effect", 0);
    LitLess("effect", "labels", 0);
    LitLess("labels", "metadata", 0);
    LitLess("metadata", "target", 0);
    LitLess("target", "title", 1);
  }

  const TAG_SORTED: seq<string> := ["assignment_provenance", "category", "risk_ids", "tier"]

  lemma LabelKeysSorted()
    ensures KeysSorted(TAG_SORTED) && KeysSorted(["a", "b"]) && KeysSorted(["level"])
  {
    LitLess("assignment_provenance", "category", 0);
    LitLess("category", "risk_ids", 0);
    LitLess("risk_ids", "tier", 0);
    LitLess("a", "b", 0);
  }

  function Quotes(ts: seq<Text>): (r: seq<string>)
    ensures |r| == |ts| && forall i :: 0 <= i < |r| ==> r[i] == Quote(ts[i])
  {
    seq(|ts|, i requires 0 <= i < |ts| => Quote(ts[i]))
  }

  function Bracketed(items: seq<string>): string { "[" + (Joined(items, ",") + "]") }

  function Braced(parts: seq<string>): string { "{" + (Joined(parts, ",") + "}") }

  /** A tag, its keys in order. */
  function TagText(t: CategoryTag): string {
    Braced([Part("assignment_provenance", Quote(t.provenance)), Part("category", Quote(t.category)),
            Part("risk_ids", Bracketed(Quotes(t.riskIds))), Part("tier", Quote(Lit(TierName(t.tier))))])
  }

  function LevelText(l: Level): string { Braced([Part("level", Quote(Lit(LevelName(l))))]) }

  function TagTexts(tags: seq<CategoryTag>): (r: seq<string>)
    ensures |r| == |tags| && forall i :: 0 <= i < |r| ==> r[i] == TagText(tags[i])
  {
    seq(|tags|, i requires 0 <= i < |tags| => TagText(tags[i]))
  }

  function LevelTexts(levels: seq<Level>): (r: seq<string>)
    ensures |r| == |levels| && forall i :: 0 <= i < |r| ==> r[i] == LevelText(levels[i])
  {
    seq(|levels|, i requires 0 <= i < |levels| => LevelText(levels[i]))
  }

  /** The tags by category and the levels by name. */
  function LabelsText(ls: LabelState): string {
    Braced([Part("a", Bracketed(TagTexts(Sort(ls.a, CategoryKey)))), Part("b", Bracketed(LevelTexts(Sort(ls.b, LevelKey))))])
  }

  lemma TextsPrinted(ts: seq<Text>)
    ensures Dumps(Arr(TextsJson(ts)), false) == Bracketed(Quotes(ts))
  {
    var items := SortItems(TextsJson(ts));
    ListJoined(items, false);
    assert PrintAll(items, false) == Quotes(ts);
  }

  predicate AllUnescaped(keys: seq<string>) { forall i :: 0 <= i < |keys| ==> Unescaped(keys[i]) }

  /** A record whose keys are plain prints as its parts in the order of its keys. */
  lemma RecordPrinted(keys: seq<string>, values: seq<Json>, order: seq<nat>, sorted: seq<string>, parts: seq<string>)
    requires |values| == |keys| && DistinctCodes(keys) && Reorders(keys, order, sorted) && KeysSorted(sorted)
    requires AllUnescaped(sorted) && |parts| == |sorted|
    requires forall i :: 0 <= i < |parts| ==> parts[i] == Part(sorted[i], Dumps(values[order[i]], false))
    ensures Dumps(Obj(Record(keys, values)), false) == Braced(parts)
  {
    RecordSorted(keys, values, order, sorted);
    RecordJoined(sorted, Picked(values, order));
    assert Parts(sorted, Picked(values, order)) == parts;
  }

  const TAG_ORDER: seq<nat> := [3, 0, 2, 1]

  lemma TagsReordered()
    ensures Reorders(TAG_KEYS, TAG_ORDER, TAG_SORTED)
  {
    assert TAG_ORDER[0] == 3 && TAG_ORDER[1] == 0 && TAG_ORDER[2] == 2 && TAG_ORDER[3] == 1;
  }

  lemma TagParts(t: CategoryTag, values: seq<Json>, parts: seq<string>)
    requires values == [Str(t.category), Str(Lit(TierName(t.tier))), Arr(TextsJson(t.riskIds)), Str(t.provenance)]
    requires parts == [Part("assignment_provenance", Quote(t.provenance)), Part("category", Quote(t.category)),
                       Part("risk_ids", Bracketed(Quotes(t.riskIds))), Part("tier", Quote(Lit(TierName(t.tier))))]
    ensures forall i :: 0 <= i < 4 ==> parts[i] == Part(TAG_SORTED[i], Dumps(values[TAG_ORDER[i]], false))
  {
    TextsPrinted(t.riskIds);
  }

  lemma TagPrinted(t: CategoryTag)
    ensures Dumps(Obj(TagFields(t)), false) == TagText(t)
  {
    var values := [Str(t.category), Str(Lit(TierName(t.tier))), Arr(TextsJson(t.riskIds)), Str(t.provenance)];
    var parts := [Part("assignment_provenance", Quote(t.provenance)), Part("category", Quote(t.category)),
                  Part("risk_ids", Bracketed(Quotes(t.riskIds))), Part("tier", Quote(Lit(TierName(t.tier))))];
    LabelKeysDistinct();
    LabelKeysSorted();
    TagsReordered();
    KeysUnescaped();
    TagParts(t, values, parts);
    RecordPrinted(TAG_KEYS, values, TAG_ORDER, TAG_SORTED, parts);
  }

  lemma LevelPrinted(l: Level)
    ensures Dumps(Obj(LevelFields(l)), false) == LevelText(l)
  {
    LabelKeysDistinct();
    LabelKeysSorted();
    var order: seq<nat> := [0];
    assert order[0] == 0;
    RecordPrinted(LEVEL_KEYS, [Str(Lit(LevelName(l)))], order, ["level"], [Part("level", Quote(Lit(LevelName(l))))]);
  }

  lemma TagsPrinted(tags: seq<CategoryTag>)
    ensures Dumps(Arr(TagsJson(tags)), false) == Bracketed(TagTexts(tags))
  {
    var items := SortItems(TagsJson(tags));
    ListJoined(items, false);
    forall i | 0 <= i < |tags| ensures Print(items[i], false) == TagText(tags[i]) { TagPrinted(tags[i]); }
    assert PrintAll(items, false) == TagTexts(tags);
  }

  lemma LevelsPrinted(levels: seq<Level>)
    ensures Dumps(Arr(LevelsJson(levels)), false) == Bracketed(LevelTexts(levels))
  {
    var items := SortItems(LevelsJson(levels));
    ListJoined(items, false);
    forall i | 0 <= i < |levels| ensures Print(items[i], false) == LevelText(levels[i]) { LevelPrinted(levels[i]); }
    assert PrintAll(items, false) == LevelTexts(levels);
  }

  const LABEL_ORDER: seq<nat> := [0, 1]
  const LABEL_SORTED: seq<string> := ["a", "b"]

  lemma LabelsReordered()
    ensures Reorders(LABEL_KEYS, LABEL_ORDER, LABEL_SORTED)
  {
    assert LABEL_ORDER[0] == 0 && LABEL_ORDER[1] == 1;
  }

  lemma LabelsPrinted(ls: LabelState)
    ensures Dumps(Obj(LabelFields(ls)), false) == LabelsText(ls)
  {
    var tags, levels := Sort(ls.a, CategoryKey), Sort(ls.b, LevelKey);
    var values := [Arr(TagsJson(tags)), Arr(LevelsJson(levels))];
    var parts := [Part("a", Bracketed(TagTexts(tags))), Part("b", Bracketed(LevelTexts(levels)))];
    LabelKeysDistinct();
    LabelKeysSorted();
    LabelsReordered();
    KeysUnescaped();
    TagsPrinted(tags);
    LevelsPrinted(levels);
    TwoParts(values, parts, TagTexts(tags), LevelTexts(levels));
    RecordPrinted(LABEL_KEYS, values, LABEL_ORDER, LABEL_SORTED, parts);
  }

  lemma TwoParts(values: seq<Json>, parts: seq<string>, a: seq<string>, b: seq<string>)
    requires |values| == 2 && Dumps(values[0], false) == Bracketed(a) && Dumps(values[1], false) == Bracketed(b)
    requires parts == [Part("a", Bracketed(a)), Part("b", Bracketed(b))]
    ensures forall i :: 0 <= i < 2 ==> parts[i] == Part(LABEL_SORTED[i], Dumps(values[LABEL_ORDER[i]], false))
  {
  }

  const CANONICAL_ORDER: seq<nat> := [0, 2, 3, 5, 6, 7, 8, 4, 1]

  lemma CanonicalReordered()
    ensures Reorders(CanonicalKeys(), CANONICAL_ORDER, SORTED_KEYS)
  {
    var o := CANONICAL_ORDER;
    assert o[0] == 0 && o[1] == 2 && o[2] == 3 && o[3] == 5 && o[4] == 6 && o[5] == 7 && o[6] == 8 && o[7] == 4 && o[8] == 1;
  }

  /** Small letters and underscores. */
  predicate Simple(s: string) { forall i :: 0 <= i < |s| ==> 'a' <= s[i] <= 'z' || s[i] == '_' }

  lemma KeysUnescaped()
    ensures AllUnescaped(TAG_SORTED) && AllUnescaped(LABEL_SORTED)
  {
    assert Simple("assignment_provenance") && Simple("category") && Simple("risk_ids") && Simple("tier");
  }

  lemma FirstKeysUnescaped()
    ensures forall i :: 0 <= i < 3 ==> Unescaped(SORTED_KEYS[i])
  {
    assert Simple("artifact_type") && Simple("content") && Simple("content_type");
  }

  lemma MiddleKeysUnescaped()
    ensures forall i :: 3 <= i < 6 ==> Unescaped(SORTED_KEYS[i])
  {
    assert Simple("destination_id") && Simple("effect") && Simple("labels");
  }

  lemma LastKeysUnescaped()
    ensures forall i :: 6 <= i < 9 ==> Unescaped(SORTED_KEYS[i])
  {
    assert Simple("metadata") && Simple("target") && Simple("title");
  }

  lemma CanonicalUnescaped()
    ensures AllUnescaped(SORTED_KEYS)
  {
    FirstKeysUnescaped();
    MiddleKeysUnescaped();
    LastKeysUnescaped();
  }

  /** The parts of the canonical text in the order of its keys. */
  function CanonicalParts(a: TypedArtifact, host: Host): (r: seq<string>)
    ensures |r| == 9
  {
    [Part("artifact_type", Quote(Lit(TypeName(a.kind)))), Part("content", Quote(a.content)),
     Part("content_type", Quote(a.contentType)), Part("destination_id", Quote(a.destination)),
     Part("effect", Quote(Lit(EffectName(a.effect)))), Part("labels", LabelsText(a.labels)),
     Part("metadata", Dumps(Jsonable(a.metadata, host.str), false)), Part("target", Quote(a.target)), Part("title", Quote(a.title))]
  }

  lemma DumpsStr(t: Text)
    ensures Dumps(Str(t), false) == Quote(t)
  {
  }

  /** The values of the dictionary display, printed. */
  function ValueTexts(a: TypedArtifact, host: Host): (r: seq<string>)
    ensures |r| == 9
  {
    [Quote(Lit(TypeName(a.kind))), Quote(a.title), Quote(a.content), Quote(a.contentType), Quote(a.target),
     Quote(a.destination), Quote(Lit(EffectName(a.effect))), LabelsText(a.labels), Dumps(Jsonable(a.metadata, host.str), false)]
  }

  ghost predicate PrintsAs(values: seq<Json>, t: seq<string>) {
    |t| == |values| && forall i :: 0 <= i < |t| ==> Dumps(values[i], false) == t[i]
  }

  lemma OnePrinted(j: Json, t: string)
    requires Dumps(j, false) == t
    ensures PrintsAs([j], [t])
  {
  }

  lemma PrintedAppend(v: seq<Json>, t: seq<string>, w: seq<Json>, u: seq<string>)
    requires PrintsAs(v, t) && PrintsAs(w, u)
    ensures PrintsAs(v + w, t + u)
  {
  }

  function Strs(ts: seq<Text>): (r: seq<Json>)
    ensures |r| == |ts| && forall i :: 0 <= i < |r| ==> r[i] == Str(ts[i])
  {
    seq(|ts|, i requires 0 <= i < |ts| => Str(ts[i]))
  }

  lemma StrsPrinted(ts: seq<Text>)
    ensures PrintsAs(Strs(ts), Quotes(ts))
  {
    forall i | 0 <= i < |ts| ensures Dumps(Strs(ts)[i], false) == Quotes(ts)[i] { DumpsStr(ts[i]); }
  }

  lemma ValuesPrinted(a: TypedArtifact, host: Host)
    ensures PrintsAs(CanonicalValues(a, host), ValueTexts(a, host))
  {
    var kind, effect, labels, metadata :=
      Lit(TypeName(a.kind)), Lit(EffectName(a.effect)), Obj(LabelFields(a.labels)), Jsonable(a.metadata, host.str);
    var ts := [kind, a.title, a.content, a.contentType, a.target, a.destination, effect];
    StrsPrinted(ts);
    LabelsPrinted(a.labels);
    OnePrinted(labels, LabelsText(a.labels));
    OnePrinted(metadata, Dumps(metadata, false));
    PrintedAppend(Strs(ts), Quotes(ts), [labels], [LabelsText(a.labels)]);
    PrintedAppend(Strs(ts) + [labels], Quotes(ts) + [LabelsText(a.labels)], [metadata], [Dumps(metadata, false)]);
    SevenTexts(kind, a.title, a.content, a.contentType, a.target, a.destination, effect);
  }

  lemma SevenTexts(t: Text, u: Text, v: Text, w: Text, x: Text, y: Text, z: Text)
    ensures Strs([t, u, v, w, x, y, z]) == [Str(t), Str(u), Str(v), Str(w), Str(x), Str(y), Str(z)]
    ensures Quotes([t, u, v, w, x, y, z]) == [Quote(t), Quote(u), Quote(v), Quote(w), Quote(x), Quote(y), Quote(z)]
  {
  }

  lemma CanonicalKeysDistinct()
    ensures DistinctCodes(CanonicalKeys())
  {
    StoredKeysDistinct();
    assert forall i | 0 <= i < 9 :: CanonicalKeys()[i] == StoredKeys()[i];
  }

  lemma PartsInOrder(values: seq<Json>, t: seq<string>, parts: seq<string>)
    requires |values| == 9 && PrintsAs(values, t)
    requires parts == [Part("artifact_type", t[0]), Part("content", t[2]), Part("content_type", t[3]), Part("destination_id", t[5]),
                       Part("effect", t[6]), Part("labels", t[7]), Part("metadata", t[8]), Part("target", t[4]), Part("title", t[1])]
    ensures forall i :: 0 <= i < 9 ==> parts[i] == Part(SORTED_KEYS[i], Dumps(values[CANONICAL_ORDER[i]], false))
  {
    var o, k := CANONICAL_ORDER, SORTED_KEYS;
    assert o[0] == 0 && o[1] == 2 && o[2] == 3 && o[3] == 5 && o[4] == 6 && o[5] == 7 && o[6] == 8 && o[7] == 4 && o[8] == 1;
    assert k[0] == "artifact_type" && k[1] == "content" && k[2] == "content_type" && k[3] == "destination_id" && k[4] == "effect";
    assert k[5] == "labels" && k[6] == "metadata" && k[7] == "target" && k[8] == "title";
  }

  /** The canonical text, character by character: nine keys in order, no spaces, labels sorted, metadata normalised. */
  lemma CanonicalTextIs(a: TypedArtifact, host: Host)
    ensures CanonicalText(a, host) == Braced(CanonicalParts(a, host))
  {
    CanonicalKeysDistinct();
    CanonicalKeysSorted();
    CanonicalReordered();
    CanonicalUnescaped();
    ValuesPrinted(a, host);
    PartsInOrder(CanonicalValues(a, host), ValueTexts(a, host), CanonicalParts(a, host));
    RecordPrinted(CanonicalKeys(), CanonicalValues(a, host), CANONICAL_ORDER, SORTED_KEYS, CanonicalParts(a, host));
  }

  // ---------------------------------------------------------------- the stored dictionary

  lemma StoredAt(a: TypedArtifact, host: Host, key: string, i: nat)
    requires i < 12 && StoredKeys()[i] == key
    ensures Get(ToDict(a, host), Lit(key)) == Some(StoredValues(a, host)[i])
  {
    StoredKeysDistinct();
    GetRecord(StoredKeys(), StoredValues(a, host), i);
  }

  /** Beside the reviewed fields the stored dictionary has the hash of the canonical text, the creation time, and the
      artifact's name, which by default is the first sixteen characters of the hash. */
  lemma StoredNames(a: TypedArtifact, host: Host)
    ensures var d, digest := ToDict(a, host), host.sha(Braced(CanonicalParts(a, host)));
            && Get(d, Lit("sha256")) == Some(Str(digest))
            && Get(d, Lit("created_at")) == Some(Str(a.createdAt))
            && Get(d, Lit("artifact_id")) ==
                 Some(Str(if a.artifactId != [] then a.artifactId else if |digest| <= 16 then digest else digest[..16]))
  {
    CanonicalTextIs(a, host);
    StoredAt(a, host, "artifact_id", 9);
    StoredAt(a, host, "sha256", 10);
    StoredAt(a, host, "created_at", 11);
  }
}
