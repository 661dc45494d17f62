/** What an artifact's digest identifies, and when a stored artifact reads back. */
module ArtifactIdentity {
  import opened Wrappers
  import opened Texts
  import opened Json
  import opened JsonCanonical
  import opened JsonObjects
  import opened Labels
  import opened Artifacts

  // ---------------------------------------------------------------- keys

  lemma LitPlain(s: string)
    ensures Fuse(Lit(s)) == Lit(s)
  {
    FuseIdentity(Lit(s));
  }

  /** Length and first letter tell the source's dictionary keys apart. */
  function Code(s: string): int { if s == "" then 0 else |s| * 0x110000 + s[0] as int }

  ghost predicate DistinctCodes(keys: seq<string>) {
    forall i, j :: 0 <= i < j < |keys| ==> Code(keys[i]) != Code(keys[j])
  }

  /** Length and first letter of each stored key. */
  const STORED_SHAPES: seq<(int, char)> :=
    [(13, 'a'), (5, 't'), (7, 'c'), (12, 'c'), (6, 't'), (14, 'd'), (6, 'e'), (6, 'l'), (8, 'm'), (11, 'a'), (6, 's'), (10, 'c')]

  predicate HasShape(s: string, shape: (int, char)) { s != "" && |s| == shape.0 && s[0] == shape.1 }

  lemma StoredShapes(i: nat)
    requires i < 12
    ensures HasShape(StoredKeys()[i], STORED_SHAPES[i])
  {
  }

  lemma StoredKeysDistinct()
    ensures DistinctCodes(StoredKeys())
  {
    forall i, j | 0 <= i < j < 12 ensures Code(StoredKeys()[i]) != Code(StoredKeys()[j]) {
      StoredShapes(i);
      StoredShapes(j);
      ShapesDiffer(i, j);
      ShapesTell(StoredKeys()[i], StoredKeys()[j], STORED_SHAPES[i], STORED_SHAPES[j]);
    }
  }

  lemma ShapesDiffer(i: nat, j: nat)
    requires i < j < 12
    ensures STORED_SHAPES[i] != STORED_SHAPES[j]
  {
  }

  lemma ShapesTell(s: string, t: string, x: (int, char), y: (int, char))
    requires HasShape(s, x) && HasShape(t, y) && x != y
    ensures Code(s) != Code(t)
  {
  }

  lemma LabelKeysDistinct()
    ensures DistinctCodes(TAG_KEYS) && DistinctCodes(LABEL_KEYS) && DistinctCodes(LEVEL_KEYS)
  {
  }

  lemma RecordPlain(keys: seq<string>, values: seq<Json>)
    requires |keys| == |values| && DistinctCodes(keys)
    ensures PlainKeys(Record(keys, values))
  {
    var fields := Record(keys, values);
    forall i, j | 0 <= i < j < |fields| ensures FieldKey(fields[i]) != FieldKey(fields[j]) {
      LitInjective(keys[i], keys[j]);
      assert Code(keys[i]) != Code(keys[j]);
    }
    forall i | 0 <= i < |fields| ensures Fuse(fields[i].key) == fields[i].key {
      LitPlain(keys[i]);
    }
  }

  lemma LitInjective(s: string, t: string)
    ensures Lit(s) == Lit(t) ==> s == t
  {
    if Lit(s) == Lit(t) {
      forall i | 0 <= i < |s| ensures s[i] == t[i] {
        assert Lit(s)[i] == Lit(t)[i];
      }
    }
  }

  /** A record that was written and read back gives each value reloaded. */
  lemma ReadRecord(keys: seq<string>, values: seq<Json>, i: nat)
    requires |keys| == |values| && DistinctCodes(keys) && i < |keys|
    ensures Reloaded(Obj(Record(keys, values))).Obj?
    ensures Get(Reloaded(Obj(Record(keys, values))).fields, Lit(keys[i])) == Some(Reloaded(values[i]))
  {
    RecordPlain(keys, values);
    GetReloaded(Record(keys, values), i);
  }

  /** A record used as it is gives each value. */
  lemma GetRecord(keys: seq<string>, values: seq<Json>, i: nat)
    requires |keys| == |values| && DistinctCodes(keys) && i < |keys|
    ensures Get(Record(keys, values), Lit(keys[i])) == Some(values[i])
  {
    RecordPlain(keys, values);
    GetAt(Record(keys, values), i);
  }

  // ---------------------------------------------------------------- enumerations

  lemma {:induction false} MemberFinds<T>(all: seq<T>, name: T -> string, i: nat)
    requires i < |all|
    requires forall j :: 0 <= j < i ==> Code(name(all[j])) != Code(name(all[i]))
    ensures Member(all, name, Lit(name(all[i]))) == Some(all[i])
  {
    if i > 0 {
      assert Code(name(all[0])) != Code(name(all[i]));
      LitInjective(name(all[0]), name(all[i]));
      MemberFinds(all[1..], name, i - 1);
    }
  }

  function TypeIndex(t: ArtifactType): (i: nat) {
    match t
    case EmailDraft => 0
    case Diff => 1
    case CalendarEvent => 2
    case Document => 3
    case Research => 4
    case Image => 5
    case Chart => 6
    case Script => 7
    case ScriptRun => 8
    case FileExport => 9
  }

  lemma TypeListed(t: ArtifactType)
    ensures |TYPES| == 10 && TypeIndex(t) < |TYPES| && TYPES[TypeIndex(t)] == t
  {
  }

  lemma TypeCodesDistinct(t: ArtifactType, u: ArtifactType)
    ensures Code(TypeName(t)) == Code(TypeName(u)) ==> t == u
  {
  }

  lemma TypeRead(t: ArtifactType)
    ensures Member(TYPES, TypeName, Lit(TypeName(t))) == Some(t)
  {
    TypeListed(t);
    var i := TypeIndex(t);
    forall j | 0 <= j < i ensures Code(TypeName(TYPES[j])) != Code(TypeName(TYPES[i])) {
      TypeCodesDistinct(TYPES[j], t);
      assert TypeIndex(TYPES[j]) == j;
    }
    MemberFinds(TYPES, TypeName, i);
  }

  lemma EffectRead(e: ArtifactEffect)
    ensures Member(EFFECTS, EffectName, Lit(EffectName(e))) == Some(e)
  {
    var i := match e
      case ReviewOnly => 0
      case Create => 1
      case Modify => 2
      case Send => 3
      case Delete => 4;
    MemberFinds(EFFECTS, EffectName, i);
  }

  lemma TierRead(t: Tier)
    ensures Member(TIERS, TierName, Lit(TierName(t))) == Some(t)
  {
    var i := match t
      case NoneTier => 0
      case Sensitive => 1
      case Regulated => 2
      case Restricted => 3
      case Prohibited => 4;
    MemberFinds(TIERS, TierName, i);
  }

  lemma LevelRead(l: Level)
    ensures Member(LEVELS, LevelName, Lit(LevelName(l))) == Some(l)
  {
    var i := match l
      case PrincipalDirect => 0
      case SystemInternal => 1
      case ExternalUntrusted => 2;
    MemberFinds(LEVELS, LevelName, i);
  }
}
