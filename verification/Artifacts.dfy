/** Review artifacts: canonical form, digest, and the dictionary they are stored as. */
module Artifacts {
  import opened Wrappers
  import opened Texts
  import opened Sorting
  import opened Json
  import opened JsonObjects
  import opened Metadata
  import opened Labels

  datatype ArtifactType =
    | EmailDraft | Diff | CalendarEvent | Document | Research | Image | Chart | Script | ScriptRun | FileExport

  datatype ArtifactEffect = ReviewOnly | Create | Modify | Send | Delete

  /** What the model takes from the host: SHA-256 in hexadecimal over ASCII text, and `str()`. */
  datatype Host = Host(sha: string -> Text, str: PyValue -> Text)

  datatype TypedArtifact = TypedArtifact(
    kind: ArtifactType,
    title: Text,
    content: Text,
    target: Text,
    destination: Text,
    effect: ArtifactEffect,
    contentType: Text,
    labels: LabelState,
    metadata: PyValue,
    createdAt: Text,
    artifactId: Text
  )

  datatype ArtifactError =
    | TitleRequired
    | DestinationRequired
    | ContentTypeRequired
    | UnknownType(raw: Text)
    | UnknownEffect(raw: Text)
    | MalformedLabels
    | MetadataNotMapping
    | SourceRequired
    | MalformedPayload
    | NotFound
    | DigestMismatch

  function TypeName(t: ArtifactType): string {
    match t
    case EmailDraft => "email_draft"
    case Diff => "diff"
    case CalendarEvent => "calendar_event"
    case Document => "document"
    case Research => "research"
    case Image => "image"
    case Chart => "chart"
    case Script => "script"
    case ScriptRun => "script_run"
    case FileExport => "file_export"
  }

  function EffectName(e: ArtifactEffect): string {
    match e
    case ReviewOnly => "review_only"
    case Create => "create"
    case Modify => "modify"
    case Send => "send"
    case Delete => "delete"
  }

  function TierName(t: Tier): string {
    match t
    case NoneTier => "none"
    case Sensitive => "sensitive"
    case Regulated => "regulated"
    case Restricted => "restricted"
    case Prohibited => "prohibited"
  }

  function LevelName(l: Level): string {
    match l
    case PrincipalDirect => "principal-direct"
    case SystemInternal => "system-internal"
    case ExternalUntrusted => "external-untrusted"
  }

  const TYPES: seq<ArtifactType> :=
    [EmailDraft, Diff, CalendarEvent, Document, Research, Image, Chart, Script, ScriptRun, FileExport]
  const EFFECTS: seq<ArtifactEffect> := [ReviewOnly, Create, Modify, Send, Delete]
  const TIERS: seq<Tier> := [NoneTier, Sensitive, Regulated, Restricted, Prohibited]
  const LEVELS: seq<Level> := [PrincipalDirect, SystemInternal, ExternalUntrusted]

  /** The member of an enumeration with a given value. */
  function Member<T>(all: seq<T>, name: T -> string, raw: Text): Option<T> {
    if all == [] then None
    else if Lit(name(all[0])) == raw then Some(all[0])
    else Member(all[1..], name, raw)
  }

  // ---------------------------------------------------------------- writing

  function LevelKey(l: Level): Key { Lit(LevelName(l)) }

  function TextsJson(ts: seq<Text>): (r: seq<Json>)
    ensures |r| == |ts| && forall i :: 0 <= i < |r| ==> r[i] == Str(ts[i])
  {
    seq(|ts|, i requires 0 <= i < |ts| => Str(ts[i]))
  }

  /** A dictionary display: these keys with these values. */
  function Record(keys: seq<string>, values: seq<Json>): (r: seq<Field>)
    requires |keys| == |values|
    ensures |r| == |keys|
    ensures forall i :: 0 <= i < |r| ==> r[i] == Field(Lit(keys[i]), values[i])
  {
    seq(|keys|, i requires 0 <= i < |keys| => Field(Lit(keys[i]), values[i]))
  }

  const TAG_KEYS: seq<string> := ["category", "tier", "risk_ids", "assignment_provenance"]
  const LEVEL_KEYS: seq<string> := ["level"]
  const LABEL_KEYS: seq<string> := ["a", "b"]
  function CanonicalKeys(): (r: seq<string>)
    ensures |r| == 9
  {
    ["artifact_type", "title", "content", "content_type", "target", "destination_id", "effect", "labels", "metadata"]
  }

  function StoredKeys(): (r: seq<string>)
    ensures |r| == 12
  {
    ["artifact_type", "title", "content", "content_type", "target", "destination_id", "effect", "labels", "metadata",
     "artifact_id", "sha256", "created_at"]
  }

  function TagFields(t: CategoryTag): seq<Field> {
    Record(TAG_KEYS, [Str(t.category), Str(Lit(TierName(t.tier))), Arr(TextsJson(t.riskIds)), Str(t.provenance)])
  }

  function TagsJson(tags: seq<CategoryTag>): (r: seq<Json>)
    ensures |r| == |tags| && forall i :: 0 <= i < |r| ==> r[i] == Obj(TagFields(tags[i]))
  {
    seq(|tags|, i requires 0 <= i < |tags| => Obj(TagFields(tags[i])))
  }

  function LevelFields(l: Level): seq<Field> { Record(LEVEL_KEYS, [Str(Lit(LevelName(l)))]) }

  function LevelsJson(ls: seq<Level>): (r: seq<Json>)
    ensures |r| == |ls| && forall i :: 0 <= i < |r| ==> r[i] == Obj(LevelFields(ls[i]))
  {
    seq(|ls|, i requires 0 <= i < |ls| => Obj(LevelFields(ls[i])))
  }

  function LabelFields(ls: LabelState): seq<Field> {
    Record(LABEL_KEYS, [Arr(TagsJson(Sort(ls.a, CategoryKey))), Arr(LevelsJson(Sort(ls.b, LevelKey)))])
  }

  function CanonicalValues(a: TypedArtifact, host: Host): seq<Json> {
    [Str(Lit(TypeName(a.kind))), Str(a.title), Str(a.content), Str(a.contentType), Str(a.target), Str(a.destination),
     Str(Lit(EffectName(a.effect))), Obj(LabelFields(a.labels)), Jsonable(a.metadata, host.str)]
  }

  function CanonicalFields(a: TypedArtifact, host: Host): seq<Field> {
    Record(CanonicalKeys(), CanonicalValues(a, host))
  }

  /** The compact sorted text whose hash identifies the artifact. */
  function CanonicalText(a: TypedArtifact, host: Host): string { Dumps(Obj(CanonicalFields(a, host)), false) }

  function Digest(a: TypedArtifact, host: Host): Text { host.sha(CanonicalText(a, host)) }

  function Prefix(t: Text, n: nat): Text { if |t| <= n then t else t[..n] }

  function ShownId(a: TypedArtifact, host: Host): Text {
    if a.artifactId != [] then a.artifactId else Prefix(Digest(a, host), 16)
  }

  function StoredValues(a: TypedArtifact, host: Host): seq<Json> {
    CanonicalValues(a, host) + [Str(ShownId(a, host)), Str(Digest(a, host)), Str(a.createdAt)]
  }

  function ToDict(a: TypedArtifact, host: Host): seq<Field> { Record(StoredKeys(), StoredValues(a, host)) }

  // ---------------------------------------------------------------- reading

  function StrOf(j: Json, host: Host): Text { if j.Str? then j.t else host.str(OfJson(j)) }

  predicate Truthy(j: Json) {
    match j
    case Null => false
    case Bool(b) => b
    case Int(n) => n != 0
    case Float(repr) => repr != "0.0" && repr != "-0.0"
    case Str(t) => t != []
    case Arr(items) => items != []
    case Obj(fields) => fields != []
  }

  /** `str(data.get(first) or data.get(second) or default)`. */
  function TextOr(data: seq<Field>, first: Text, second: Text, default: Text, host: Host): Text {
    var x, y := Get(data, first), Get(data, second);
    if x.Some? && Truthy(x.value) then StrOf(x.value, host)
    else if y.Some? && Truthy(y.value) then StrOf(y.value, host)
    else default
  }

  /** What a loop over the value goes through: the items of a list, the characters of a text, the keys of a dictionary. */
  function Iterated(j: Json): Option<seq<Json>> {
    match j
    case Arr(items) => Some(items)
    case Str(t) => Some(seq(|t|, i requires 0 <= i < |t| => Str([t[i]])))
    case Obj(fields) => Some(seq(|fields|, i requires 0 <= i < |fields| => Str(fields[i].key)))
    case _ => None
  }

  function TagFrom(j: Json, host: Host): Result<CategoryTag, ArtifactError> {
    if !j.Obj? then Err(MalformedLabels)
    else
      var category, tier, risks := Get(j.fields, Lit("category")), Get(j.fields, Lit("tier")), Get(j.fields, Lit("risk_ids"));
      var prov := Get(j.fields, Lit("assignment_provenance"));
      if category.None? || tier.None? || !tier.value.Str? then Err(MalformedLabels)
      else if Member(TIERS, TierName, tier.value.t).None? then Err(MalformedLabels)
      else if risks.Some? && Iterated(risks.value).None? then Err(MalformedLabels)
      else Ok(CategoryTag(
        StrOf(category.value, host),
        Member(TIERS, TierName, tier.value.t).value,
        if risks.None? then [] else StrsOf(Iterated(risks.value).value, host),
        if prov.None? then Lit("system-default") else StrOf(prov.value, host)))
  }

  function StrsOf(items: seq<Json>, host: Host): (r: seq<Text>)
    ensures |r| == |items| && forall i :: 0 <= i < |r| ==> r[i] == StrOf(items[i], host)
  {
    seq(|items|, i requires 0 <= i < |items| => StrOf(items[i], host))
  }

  function LevelFrom(j: Json): Result<Level, ArtifactError> {
    if !j.Obj? then Err(MalformedLabels)
    else
      var level := Get(j.fields, Lit("level"));
      if level.None? || !level.value.Str? then Err(MalformedLabels)
      else match Member(LEVELS, LevelName, level.value.t)
        case Some(l) => Ok(l)
        case None => Err(MalformedLabels)
  }

  /** Building a frozen set: repeats are dropped. */
  function TagsFrom(items: seq<Json>, host: Host): Result<seq<CategoryTag>, ArtifactError> {
    if items == [] then Ok([])
    else
      var first :- TagFrom(items[0], host);
      var rest :- TagsFrom(items[1..], host);
      Ok(if first in rest then rest else [first] + rest)
  }

  function LevelsFrom(items: seq<Json>): Result<seq<Level>, ArtifactError> {
    if items == [] then Ok([])
    else
      var first :- LevelFrom(items[0]);
      var rest :- LevelsFrom(items[1..]);
      Ok(if first in rest then rest else [first] + rest)
  }

  /** `d.get(key, [])`, where only a list is well formed. */
  function ListOf(fields: seq<Field>, key: Text): Result<seq<Json>, ArtifactError> {
    match Get(fields, key)
    case None => Ok([])
    case Some(j) => if !Truthy(j) then Ok([]) else if j.Arr? then Ok(j.items) else Err(MalformedLabels)
  }

  function LabelsFrom(j: Option<Json>, host: Host): Result<LabelState, ArtifactError> {
    if j == None || j == Some(Null) then Ok(LabelState([], []))
    else if !j.value.Obj? then Err(MalformedLabels)
    else
      var a :- ListOf(j.value.fields, Lit("a"));
      var b :- ListOf(j.value.fields, Lit("b"));
      var tags :- TagsFrom(a, host);
      var levels :- LevelsFrom(b);
      Ok(LabelState(tags, levels))
  }

  /** The checks every artifact passes when it is made. */
  function Checked(a: TypedArtifact): Result<TypedArtifact, ArtifactError> {
    if IsBlank(a.title) then Err(TitleRequired)
    else if IsBlank(a.destination) then Err(DestinationRequired)
    else if IsBlank(a.contentType) then Err(ContentTypeRequired)
    else Ok(a)
  }

  /** The texts `from_dict` takes out of a dictionary. */
  datatype Raw = Raw(kind: Text, effect: Text, title: Text, content: Text, target: Text, destination: Text,
                     contentType: Text, createdAt: Text, artifactId: Text)

  function RawOf(data: seq<Field>, host: Host): Raw {
    Raw(
      TextOr(data, Lit("artifact_type"), Lit("type"), [], host),
      TextOr(data, Lit("effect"), Lit("effect_class"), [], host),
      TextOr(data, Lit("title"), Lit("title"), [], host),
      TextOr(data, Lit("content"), Lit("content"), [], host),
      TextOr(data, Lit("target"), Lit("target"), [], host),
      TextOr(data, Lit("destination_id"), Lit("target"), [], host),
      TextOr(data, Lit("content_type"), Lit("content_type"), Lit("text/plain"), host),
      TextOr(data, Lit("created_at"), Lit("created_at"), [], host),
      TextOr(data, Lit("artifact_id"), Lit("artifact_id"), [], host))
  }

  /** `now` is the time that stands in for a missing creation time. */
  function FromDict(data: seq<Field>, host: Host, now: Text): Result<TypedArtifact, ArtifactError> {
    FromRaw(RawOf(data, host), LabelsFrom(Get(data, Lit("labels")), host), Get(data, Lit("metadata")), now)
  }

  /** The checks in the order the source makes them. */
  function FromRaw(raw: Raw, labelled: Result<LabelState, ArtifactError>, given: Option<Json>, now: Text)
    : Result<TypedArtifact, ArtifactError>
  {
    var kind := Member(TYPES, TypeName, raw.kind);
    var effect := Member(EFFECTS, EffectName, if raw.effect == [] then Lit("review_only") else raw.effect);
    if kind.None? then Err(UnknownType(raw.kind))
    else if effect.None? then Err(UnknownEffect(raw.effect))
    else
      var labels :- labelled;
      var metadata := if given.Some? && Truthy(given.value) then given.value else Obj([]);
      if !metadata.Obj? then Err(MetadataNotMapping)
      else Checked(TypedArtifact(
        kind.value, raw.title, raw.content, raw.target, raw.destination, effect.value, raw.contentType, labels,
        OfJson(metadata), if raw.createdAt == [] then now else raw.createdAt, raw.artifactId))
  }
}
