/** What `from_dict` takes from any dictionary, whoever wrote it: key by key, value by value. */
module ArtifactFields {
  import opened Wrappers
  import opened Texts
  import opened Sorting
  import opened Json
  import opened JsonObjects
  import opened Metadata
  import opened Labels
  import opened Artifacts
  import opened ArtifactIdentity

  // ---------------------------------------------------------------- texts under keys

  /** The JSON values that Python takes for false. */
  ghost predicate Falsy(j: Json) {
    || j == Null || j == Bool(false) || j == Int(0) || (j.Float? && (j.repr == "0.0" || j.repr == "-0.0"))
    || j == Str([]) || j == Arr([]) || j == Obj([])
  }

  ghost predicate Missing(data: seq<Field>, key: string) {
    var v := Get(data, Lit(key));
    v == None || Falsy(v.value)
  }

  /** Something stands under the key, and t is it as a text. */
  ghost predicate Says(data: seq<Field>, key: string, t: Text, host: Host) {
    var v := Get(data, Lit(key));
    !Missing(data, key) && (v.value == Str(t) || (!v.value.Str? && t == host.str(OfJson(v.value))))
  }

  /** The first key says t, or it is missing and the second does, or both are missing and t is the default. */
  ghost predicate Told(data: seq<Field>, first: string, second: string, default: Text, t: Text, host: Host) {
    || Says(data, first, t, host)
    || (Missing(data, first) && Says(data, second, t, host))
    || (Missing(data, first) && Missing(data, second) && t == default)
  }

  lemma ToldIff(data: seq<Field>, first: string, second: string, default: Text, t: Text, host: Host)
    ensures Told(data, first, second, default, t, host) <==> TextOr(data, Lit(first), Lit(second), default, host) == t
  {
    TruthyIff(data, first);
    TruthyIff(data, second);
  }

  lemma TruthyIff(data: seq<Field>, key: string)
    ensures var v := Get(data, Lit(key)); v.Some? ==> (Truthy(v.value) <==> !Falsy(v.value))
  {
  }

  // ---------------------------------------------------------------- labels

  /** The five tiers by the names they are stored under. */
  ghost predicate TierCalled(t: Text, tier: Tier) {
    || (t == Lit("none") && tier == NoneTier) || (t == Lit("sensitive") && tier == Sensitive)
    || (t == Lit("regulated") && tier == Regulated) || (t == Lit("restricted") && tier == Restricted)
    || (t == Lit("prohibited") && tier == Prohibited)
  }

  ghost predicate LevelCalled(t: Text, l: Level) {
    || (t == Lit("principal-direct") && l == PrincipalDirect) || (t == Lit("system-internal") && l == SystemInternal)
    || (t == Lit("external-untrusted") && l == ExternalUntrusted)
  }

  lemma {:induction false} MemberNamed<T>(all: seq<T>, name: T -> string, raw: Text)
    ensures Member(all, name, raw).Some? ==> raw == Lit(name(Member(all, name, raw).value))
    ensures Member(all, name, raw).None? ==> forall x :: x in all ==> raw != Lit(name(x))
  {
    if all != [] { MemberNamed(all[1..], name, raw); }
  }

  lemma TierCalledIff(t: Text, tier: Tier)
    ensures TierCalled(t, tier) <==> Member(TIERS, TierName, t) == Some(tier)
  {
    TierRead(tier);
    MemberNamed(TIERS, TierName, t);
    assert TierCalled(t, tier) <==> t == Lit(TierName(tier));
  }

  lemma LevelCalledIff(t: Text, l: Level)
    ensures LevelCalled(t, l) <==> Member(LEVELS, LevelName, t) == Some(l)
  {
    LevelRead(l);
    MemberNamed(LEVELS, LevelName, t);
    assert LevelCalled(t, l) <==> t == Lit(LevelName(l));
  }

  /** The texts in a list of values: those of a list, of the characters of a text, of the keys of a dictionary. */
  ghost predicate Spelled(j: Json, ts: seq<Text>, host: Host) {
    match j
    case Arr(items) =>
      |ts| == |items| && forall i :: 0 <= i < |ts| ==>
        items[i] == Str(ts[i]) || (!items[i].Str? && ts[i] == host.str(OfJson(items[i])))
    case Str(t) => |ts| == |t| && forall i :: 0 <= i < |ts| ==> ts[i] == [t[i]]
    case Obj(fields) => |ts| == |fields| && forall i :: 0 <= i < |ts| ==> ts[i] == fields[i].key
    case _ => false
  }

  lemma SpelledIff(j: Json, ts: seq<Text>, host: Host)
    ensures Spelled(j, ts, host) <==> Iterated(j).Some? && StrsOf(Iterated(j).value, host) == ts
  {
    if Spelled(j, ts, host) {
      assert forall i | 0 <= i < |ts| :: StrsOf(Iterated(j).value, host)[i] == ts[i];
    }
  }

  /** A dictionary says what a tag holds; without risks it has none, and without provenance the default one. */
  ghost predicate TellsTag(j: Json, t: CategoryTag, host: Host) {
    && j.Obj?
    && var category, tier := Get(j.fields, Lit("category")), Get(j.fields, Lit("tier"));
    && var risks, provenance := Get(j.fields, Lit("risk_ids")), Get(j.fields, Lit("assignment_provenance"));
    && category.Some? && (category.value == Str(t.category) || (!category.value.Str? && t.category == host.str(OfJson(category.value))))
    && tier.Some? && tier.value.Str? && TierCalled(tier.value.t, t.tier)
    && (if risks.None? then t.riskIds == [] else Spelled(risks.value, t.riskIds, host))
    && (if provenance.None? then t.provenance == Lit("system-default")
        else provenance.value == Str(t.provenance) || (!provenance.value.Str? && t.provenance == host.str(OfJson(provenance.value))))
  }

  /** Exactly which tag is read. */
  lemma TagIff(j: Json, t: CategoryTag, host: Host)
    ensures TagFrom(j, host) == Ok(t) <==> TellsTag(j, t, host)
  {
    if j.Obj? {
      var tier, risks := Get(j.fields, Lit("tier")), Get(j.fields, Lit("risk_ids"));
      if tier.Some? && tier.value.Str? { TierCalledIff(tier.value.t, t.tier); }
      if risks.Some? { SpelledIff(risks.value, t.riskIds, host); }
    }
  }

  /** Exactly which level is read. */
  lemma LevelIff(j: Json, l: Level)
    ensures LevelFrom(j) == Ok(l) <==>
      j.Obj? && exists t :: Get(j.fields, Lit("level")) == Some(Str(t)) && LevelCalled(t, l)
  {
    if j.Obj? {
      var level := Get(j.fields, Lit("level"));
      if level.Some? && level.value.Str? {
        forall k ensures LevelCalled(level.value.t, k) <==> Member(LEVELS, LevelName, level.value.t) == Some(k) {
          LevelCalledIff(level.value.t, k);
        }
      }
    }
  }

  /** The list under a key; a missing one is empty. */
  ghost predicate ListUnder(fields: seq<Field>, key: string, items: seq<Json>) {
    (Missing(fields, key) && items == []) || Get(fields, Lit(key)) == Some(Arr(items))
  }

  lemma ListIff(fields: seq<Field>, key: string, items: seq<Json>)
    ensures ListOf(fields, Lit(key)) == Ok(items) <==> ListUnder(fields, key, items)
  {
    TruthyIff(fields, key);
  }

  ghost predicate TellsTags(items: seq<Json>, tags: seq<CategoryTag>, host: Host) {
    |tags| == |items| && forall i :: 0 <= i < |items| ==> TellsTag(items[i], tags[i], host)
  }

  lemma {:induction false} TagsTaken(items: seq<Json>, tags: seq<CategoryTag>, host: Host)
    requires TellsTags(items, tags, host)
    ensures TagsFrom(items, host) == Ok(Unique(tags))
  {
    if items != [] {
      TagIff(items[0], tags[0], host);
      TagsTaken(items[1..], tags[1..], host);
      UniqueFacts(tags[1..]);
    }
  }

  lemma {:induction false} TagsSource(items: seq<Json>, host: Host) returns (tags: seq<CategoryTag>)
    requires TagsFrom(items, host).Ok?
    ensures TellsTags(items, tags, host) && TagsFrom(items, host).value == Unique(tags)
  {
    tags := [];
    if items != [] {
      var first := TagFrom(items[0], host).value;
      TagIff(items[0], first, host);
      var more := TagsSource(items[1..], host);
      OneMoreTag(items, first, more, host);
      tags := [first] + more;
    }
  }

  lemma TagsIff(items: seq<Json>, set_: seq<CategoryTag>, host: Host)
    ensures TagsFrom(items, host) == Ok(set_) <==> exists tags :: TellsTags(items, tags, host) && set_ == Unique(tags)
  {
    if TagsFrom(items, host).Ok? { var tags := TagsSource(items, host); }
    if tags :| TellsTags(items, tags, host) && set_ == Unique(tags) { TagsTaken(items, tags, host); }
  }

  lemma OneMoreTag(items: seq<Json>, first: CategoryTag, more: seq<CategoryTag>, host: Host)
    requires items != [] && TellsTag(items[0], first, host) && TellsTags(items[1..], more, host)
    ensures TellsTags(items, [first] + more, host)
    ensures Unique([first] + more) == if first in Unique(more) then Unique(more) else [first] + Unique(more)
  {
    assert ([first] + more)[1..] == more;
    UniqueFacts(more);
  }

  ghost predicate TellsLevels(items: seq<Json>, levels: seq<Level>) {
    |levels| == |items| && forall i :: 0 <= i < |items| ==>
      items[i].Obj? && exists t :: Get(items[i].fields, Lit("level")) == Some(Str(t)) && LevelCalled(t, levels[i])
  }

  lemma {:induction false} LevelsTaken(items: seq<Json>, levels: seq<Level>)
    requires TellsLevels(items, levels)
    ensures LevelsFrom(items) == Ok(Unique(levels))
  {
    if items != [] {
      LevelIff(items[0], levels[0]);
      LevelsTaken(items[1..], levels[1..]);
      UniqueFacts(levels[1..]);
    }
  }

  lemma {:induction false} LevelsSource(items: seq<Json>) returns (levels: seq<Level>)
    requires LevelsFrom(items).Ok?
    ensures TellsLevels(items, levels) && LevelsFrom(items).value == Unique(levels)
  {
    levels := [];
    if items != [] {
      var first := LevelFrom(items[0]).value;
      var more := LevelsSource(items[1..]);
      OneMoreLevel(items, first, more);
      levels := [first] + more;
    }
  }

  lemma LevelsIff(items: seq<Json>, set_: seq<Level>)
    ensures LevelsFrom(items) == Ok(set_) <==> exists levels :: TellsLevels(items, levels) && set_ == Unique(levels)
  {
    if LevelsFrom(items).Ok? { var levels := LevelsSource(items); }
    if levels :| TellsLevels(items, levels) && set_ == Unique(levels) { LevelsTaken(items, levels); }
  }

  lemma OneMoreLevel(items: seq<Json>, first: Level, more: seq<Level>)
    requires items != [] && LevelFrom(items[0]) == Ok(first) && TellsLevels(items[1..], more)
    ensures TellsLevels(items, [first] + more)
    ensures Unique([first] + more) == if first in Unique(more) then Unique(more) else [first] + Unique(more)
  {
    LevelIff(items[0], first);
    assert ([first] + more)[1..] == more;
    UniqueFacts(more);
  }

  /** What a label state is read from: nothing, or a dictionary with its two lists, each a set. */
  ghost predicate TellsLabels(j: Option<Json>, ls: LabelState, host: Host) {
    || ((j == None || j == Some(Null)) && ls == LabelState([], []))
    || (j.Some? && j.value.Obj?
        && (exists a, tags :: ListUnder(j.value.fields, "a", a) && TellsTags(a, tags, host) && ls.a == Unique(tags))
        && (exists b, levels :: ListUnder(j.value.fields, "b", b) && TellsLevels(b, levels) && ls.b == Unique(levels)))
  }

  lemma LabelsIff(j: Option<Json>, ls: LabelState, host: Host)
    ensures LabelsFrom(j, host) == Ok(ls) <==> TellsLabels(j, ls, host)
  {
    if j.Some? && j.value.Obj? {
      var fields := j.value.fields;
      forall a ensures ListOf(fields, Lit("a")) == Ok(a) <==> ListUnder(fields, "a", a) { ListIff(fields, "a", a); }
      forall b ensures ListOf(fields, Lit("b")) == Ok(b) <==> ListUnder(fields, "b", b) { ListIff(fields, "b", b); }
      forall a ensures TagsFrom(a, host) == Ok(ls.a) <==> exists tags :: TellsTags(a, tags, host) && ls.a == Unique(tags) {
        TagsIff(a, ls.a, host);
      }
      forall b ensures LevelsFrom(b) == Ok(ls.b) <==> exists levels :: TellsLevels(b, levels) && ls.b == Unique(levels) {
        LevelsIff(b, ls.b);
      }
    }
  }

  // ---------------------------------------------------------------- the whole artifact

  /** The ten types and the five effects by the names that clients write; no effect at all means review only. */
  ghost predicate KindCalled(t: Text, k: ArtifactType) {
    || (t == Lit("email_draft") && k == EmailDraft) || (t == Lit("diff") && k == Diff)
    || (t == Lit("calendar_event") && k == CalendarEvent) || (t == Lit("document") && k == Document)
    || (t == Lit("research") && k == Research) || (t == Lit("image") && k == Image) || (t == Lit("chart") && k == Chart)
    || (t == Lit("script") && k == Script) || (t == Lit("script_run") && k == ScriptRun)
    || (t == Lit("file_export") && k == FileExport)
  }

  ghost predicate EffectCalled(t: Text, e: ArtifactEffect) {
    || (t == [] && e == ReviewOnly)
    || (t == Lit("review_only") && e == ReviewOnly) || (t == Lit("create") && e == Create)
    || (t == Lit("modify") && e == Modify) || (t == Lit("send") && e == Send) || (t == Lit("delete") && e == Delete)
  }

  lemma KindCalledIff(t: Text, k: ArtifactType)
    ensures KindCalled(t, k) <==> Member(TYPES, TypeName, t) == Some(k)
  {
    TypeRead(k);
    MemberNamed(TYPES, TypeName, t);
    assert KindCalled(t, k) <==> t == Lit(TypeName(k));
  }

  lemma EffectCalledIff(t: Text, e: ArtifactEffect)
    ensures EffectCalled(t, e) <==>
      Member(EFFECTS, EffectName, if t == [] then Lit("review_only") else t) == Some(e)
  {
    var raw := if t == [] then Lit("review_only") else t;
    EffectRead(e);
    MemberNamed(EFFECTS, EffectName, raw);
    assert EffectCalled(t, e) <==> raw == Lit(EffectName(e)) by { EffectTexts(t, e); }
  }

  lemma EffectTexts(t: Text, e: ArtifactEffect)
    ensures EffectCalled(t, e) <==> (if t == [] then e == ReviewOnly else t == Lit(EffectName(e)))
    ensures Lit("review_only") == Lit(EffectName(e)) <==> e == ReviewOnly
  {
    LitInjective("review_only", EffectName(e));
  }

  ghost predicate TellsKind(data: seq<Field>, k: ArtifactType, host: Host) {
    exists t :: Told(data, "artifact_type", "type", [], t, host) && KindCalled(t, k)
  }

  ghost predicate TellsEffect(data: seq<Field>, e: ArtifactEffect, host: Host) {
    exists t :: Told(data, "effect", "effect_class", [], t, host) && EffectCalled(t, e)
  }

  ghost predicate TellsMetadata(data: seq<Field>, m: PyValue) {
    if Missing(data, "metadata") then m == PDict([])
    else Get(data, Lit("metadata")).value.Obj? && m == OfJson(Get(data, Lit("metadata")).value)
  }

  /** Some character of the text is no white space. */
  ghost predicate Shows(t: Text) { exists c :: c in t && !IsSpace(c) }

  /** Every field of the artifact is what the dictionary says, or what stands in for it. */
  ghost predicate TellsFields(data: seq<Field>, a: TypedArtifact, host: Host, now: Text) {
    && Told(data, "title", "title", [], a.title, host)
    && Told(data, "content", "content", [], a.content, host)
    && Told(data, "target", "target", [], a.target, host)
    && Told(data, "destination_id", "target", [], a.destination, host)
    && Told(data, "content_type", "content_type", Lit("text/plain"), a.contentType, host)
    && Told(data, "artifact_id", "artifact_id", [], a.artifactId, host)
    && TellsTime(data, a.createdAt, host, now)
  }

  ghost predicate TellsTime(data: seq<Field>, at: Text, host: Host, now: Text) {
    exists t :: Told(data, "created_at", "created_at", [], t, host) && at == if t == [] then now else t
  }

  lemma TimeTold(data: seq<Field>, at: Text, host: Host, now: Text)
    ensures var raw := RawOf(data, host).createdAt; TellsTime(data, at, host, now) <==> at == if raw == [] then now else raw
  {
    var raw := RawOf(data, host).createdAt;
    forall t ensures Told(data, "created_at", "created_at", [], t, host) <==> raw == t {
      ToldIff(data, "created_at", "created_at", [], t, host);
    }
    assert Told(data, "created_at", "created_at", [], raw, host);
  }

  ghost predicate Tells(data: seq<Field>, a: TypedArtifact, host: Host, now: Text) {
    && TellsKind(data, a.kind, host) && TellsEffect(data, a.effect, host)
    && TellsLabels(Get(data, Lit("labels")), a.labels, host) && TellsMetadata(data, a.metadata)
    && TellsFields(data, a, host, now)
    && Shows(a.title) && Shows(a.destination) && Shows(a.contentType)
  }

  lemma KindTold(data: seq<Field>, k: ArtifactType, host: Host)
    ensures TellsKind(data, k, host) <==> Member(TYPES, TypeName, RawOf(data, host).kind) == Some(k)
  {
    var raw := RawOf(data, host).kind;
    forall t ensures Told(data, "artifact_type", "type", [], t, host) <==> raw == t {
      ToldIff(data, "artifact_type", "type", [], t, host);
    }
    KindCalledIff(raw, k);
  }

  lemma EffectTold(data: seq<Field>, e: ArtifactEffect, host: Host)
    ensures var raw := RawOf(data, host).effect;
            TellsEffect(data, e, host) <==>
              Member(EFFECTS, EffectName, if raw == [] then Lit("review_only") else raw) == Some(e)
  {
    var raw := RawOf(data, host).effect;
    forall t ensures Told(data, "effect", "effect_class", [], t, host) <==> raw == t {
      ToldIff(data, "effect", "effect_class", [], t, host);
    }
    EffectCalledIff(raw, e);
  }

  lemma FieldsTold(data: seq<Field>, a: TypedArtifact, host: Host, now: Text)
    ensures var raw := RawOf(data, host);
            TellsFields(data, a, host, now) <==>
              a.title == raw.title && a.content == raw.content && a.target == raw.target && a.destination == raw.destination
              && a.contentType == raw.contentType && a.artifactId == raw.artifactId
              && a.createdAt == if raw.createdAt == [] then now else raw.createdAt
  {
    ToldIff(data, "title", "title", [], a.title, host);
    ToldIff(data, "content", "content", [], a.content, host);
    ToldIff(data, "target", "target", [], a.target, host);
    ToldIff(data, "destination_id", "target", [], a.destination, host);
    ToldIff(data, "content_type", "content_type", Lit("text/plain"), a.contentType, host);
    ToldIff(data, "artifact_id", "artifact_id", [], a.artifactId, host);
    TimeTold(data, a.createdAt, host, now);
  }

  lemma MetadataTold(data: seq<Field>, m: PyValue)
    ensures var given := Get(data, Lit("metadata"));
            var taken := if given.Some? && Truthy(given.value) then given.value else Obj([]);
            TellsMetadata(data, m) <==> taken.Obj? && m == OfJson(taken)
  {
    TruthyIff(data, "metadata");
    assert OfFields([]) == [];
  }

  /** What the checks let through, for any texts. */
  lemma AcceptedIff(raw: Raw, labelled: Result<LabelState, ArtifactError>, given: Option<Json>, now: Text, a: TypedArtifact)
    ensures var taken := if given.Some? && Truthy(given.value) then given.value else Obj([]);
            FromRaw(raw, labelled, given, now) == Ok(a) <==>
              Member(TYPES, TypeName, raw.kind) == Some(a.kind)
              && Member(EFFECTS, EffectName, if raw.effect == [] then Lit("review_only") else raw.effect) == Some(a.effect)
              && labelled == Ok(a.labels) && taken.Obj? && a.metadata == OfJson(taken)
              && a.title == raw.title && a.content == raw.content && a.target == raw.target && a.destination == raw.destination
              && a.contentType == raw.contentType && a.artifactId == raw.artifactId
              && (a.createdAt == if raw.createdAt == [] then now else raw.createdAt)
              && Shows(a.title) && Shows(a.destination) && Shows(a.contentType)
  {
  }

  /** Exactly which artifact any dictionary is read as. */
  lemma ReadIff(data: seq<Field>, a: TypedArtifact, host: Host, now: Text)
    ensures FromDict(data, host, now) == Ok(a) <==> Tells(data, a, host, now)
  {
    KindTold(data, a.kind, host);
    EffectTold(data, a.effect, host);
    LabelsIff(Get(data, Lit("labels")), a.labels, host);
    MetadataTold(data, a.metadata);
    FieldsTold(data, a, host, now);
    AcceptedIff(RawOf(data, host), LabelsFrom(Get(data, Lit("labels")), host), Get(data, Lit("metadata")), now, a);
  }

  /** What is left out of a dictionary that is read: no effect means review only, no destination the target, no content
      type plain text, no metadata none, no creation time now, and no artifact goes without a title. */
  lemma DefaultsTaken(data: seq<Field>, host: Host, now: Text)
    requires FromDict(data, host, now).Ok?
    ensures var a := FromDict(data, host, now).value;
            && (Missing(data, "effect") && Missing(data, "effect_class") ==> a.effect == ReviewOnly)
            && (Missing(data, "destination_id") ==> a.destination == a.target)
            && (Missing(data, "content_type") ==> a.contentType == Lit("text/plain"))
            && (Missing(data, "metadata") ==> a.metadata == PDict([]))
            && (Missing(data, "created_at") ==> a.createdAt == now)
            && !Missing(data, "title") && !(Missing(data, "artifact_type") && Missing(data, "type"))
  {
    var a := FromDict(data, host, now).value;
    ReadIff(data, a, host, now);
    KindNeeded(data, a.kind, host);
    EffectDefault(data, a.effect, host);
  }

  lemma KindNeeded(data: seq<Field>, k: ArtifactType, host: Host)
    requires TellsKind(data, k, host)
    ensures !(Missing(data, "artifact_type") && Missing(data, "type"))
  {
    assert !KindCalled([], k);
  }

  lemma EffectDefault(data: seq<Field>, e: ArtifactEffect, host: Host)
    requires TellsEffect(data, e, host)
    ensures Missing(data, "effect") && Missing(data, "effect_class") ==> e == ReviewOnly
  {
    assert EffectCalled([], e) ==> e == ReviewOnly;
  }

  lemma {:induction false} TagsErr(items: seq<Json>, host: Host)
    ensures TagsFrom(items, host).Err? ==> TagsFrom(items, host).error == MalformedLabels
  {
    if items != [] { TagsErr(items[1..], host); }
  }

  lemma {:induction false} LevelsErr(items: seq<Json>)
    ensures LevelsFrom(items).Err? ==> LevelsFrom(items).error == MalformedLabels
  {
    if items != [] { LevelsErr(items[1..]); }
  }

  lemma LabelsErr(j: Option<Json>, host: Host)
    ensures LabelsFrom(j, host).Err? ==> LabelsFrom(j, host).error == MalformedLabels
  {
    if j.Some? && j.value.Obj? {
      var a, b := ListOf(j.value.fields, Lit("a")), ListOf(j.value.fields, Lit("b"));
      if a.Ok? { TagsErr(a.value, host); }
      if b.Ok? { LevelsErr(b.value); }
    }
  }

  /** The dictionary says something under the key, or the default stands in, that shows nothing. */
  ghost predicate TellsBlank(data: seq<Field>, first: string, second: string, default: Text, host: Host) {
    exists t :: Told(data, first, second, default, t, host) && !Shows(t)
  }

  lemma BlankTold(data: seq<Field>, first: string, second: string, default: Text, host: Host)
    ensures TellsBlank(data, first, second, default, host) <==> IsBlank(TextOr(data, Lit(first), Lit(second), default, host))
  {
    var raw := TextOr(data, Lit(first), Lit(second), default, host);
    forall t ensures Told(data, first, second, default, t, host) <==> raw == t { ToldIff(data, first, second, default, t, host); }
    assert Told(data, first, second, default, raw, host);
  }

  ghost predicate KnownKind(data: seq<Field>, host: Host) { exists k :: TellsKind(data, k, host) }

  ghost predicate KnownEffect(data: seq<Field>, host: Host) { exists e :: TellsEffect(data, e, host) }

  ghost predicate GoodLabels(data: seq<Field>, host: Host) { exists ls :: TellsLabels(Get(data, Lit("labels")), ls, host) }

  ghost predicate GoodMetadata(data: seq<Field>) { exists m :: TellsMetadata(data, m) }

  /** Exactly when and with which error a dictionary is refused: the first thing wrong with it, in this order. */
  lemma RefusedIff(data: seq<Field>, host: Host, now: Text)
    ensures var r := FromDict(data, host, now);
            && (r.Err? && r.error.UnknownType? <==> !KnownKind(data, host))
            && (r.Err? && r.error.UnknownEffect? <==> KnownKind(data, host) && !KnownEffect(data, host))
            && var named := KnownKind(data, host) && KnownEffect(data, host);
            && (r == Err(MalformedLabels) <==> named && !GoodLabels(data, host))
            && var labelled := named && GoodLabels(data, host);
            && (r == Err(MetadataNotMapping) <==> labelled && !GoodMetadata(data))
            && var formed := labelled && GoodMetadata(data);
            && (r == Err(TitleRequired) <==> formed && TellsBlank(data, "title", "title", [], host))
            && (r == Err(DestinationRequired) <==>
                  formed && !TellsBlank(data, "title", "title", [], host)
                  && TellsBlank(data, "destination_id", "target", [], host))
            && (r == Err(ContentTypeRequired) <==>
                  formed && !TellsBlank(data, "title", "title", [], host)
                  && !TellsBlank(data, "destination_id", "target", [], host)
                  && TellsBlank(data, "content_type", "content_type", Lit("text/plain"), host))
  {
    KnownIff(data, host);
    GoodIff(data, host);
    BlankTold(data, "title", "title", [], host);
    BlankTold(data, "destination_id", "target", [], host);
    BlankTold(data, "content_type", "content_type", Lit("text/plain"), host);
    LabelsErr(Get(data, Lit("labels")), host);
  }

  lemma KnownIff(data: seq<Field>, host: Host)
    ensures var raw := RawOf(data, host);
            && (KnownKind(data, host) <==> Member(TYPES, TypeName, raw.kind).Some?)
            && (KnownEffect(data, host) <==>
                  Member(EFFECTS, EffectName, if raw.effect == [] then Lit("review_only") else raw.effect).Some?)
  {
    forall k ensures TellsKind(data, k, host) <==> Member(TYPES, TypeName, RawOf(data, host).kind) == Some(k) {
      KindTold(data, k, host);
    }
    var raw := RawOf(data, host).effect;
    forall e ensures TellsEffect(data, e, host) <==>
      Member(EFFECTS, EffectName, if raw == [] then Lit("review_only") else raw) == Some(e)
    {
      EffectTold(data, e, host);
    }
  }

  lemma GoodIff(data: seq<Field>, host: Host)
    ensures GoodLabels(data, host) <==> LabelsFrom(Get(data, Lit("labels")), host).Ok?
    ensures var given := Get(data, Lit("metadata"));
            GoodMetadata(data) <==> (given.Some? && Truthy(given.value) ==> given.value.Obj?)
  {
    forall ls ensures TellsLabels(Get(data, Lit("labels")), ls, host) <==> LabelsFrom(Get(data, Lit("labels")), host) == Ok(ls) {
      LabelsIff(Get(data, Lit("labels")), ls, host);
    }
    var given := Get(data, Lit("metadata"));
    var taken := if given.Some? && Truthy(given.value) then given.value else Obj([]);
    forall m ensures TellsMetadata(data, m) <==> taken.Obj? && m == OfJson(taken) { MetadataTold(data, m); }
    if taken.Obj? { assert TellsMetadata(data, OfJson(taken)); }
  }
}
