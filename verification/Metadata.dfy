/** `_jsonable`: any metadata value becomes a JSON tree. */
module Metadata {
  import opened Texts
  import opened Json
  import opened JsonCanonical

  datatype PyKey =
    | KStr(t: Text)
    | KInt(n: int)
    | KFloat(repr: FloatText)
    | KBool(b: bool)
    | KNone
    | KOther(id: nat)

  /** Metadata values: finite trees over what JSON can write and opaque objects it cannot. */
  datatype PyValue =
    | PNone
    | PBool(b: bool)
    | PInt(n: int)
    | PFloat(repr: FloatText)
    | PStr(t: Text)
    | PList(items: seq<PyValue>)
    | PTuple(items: seq<PyValue>)
    | PDict(entries: seq<PyEntry>)
    | POther(id: nat)

  datatype PyEntry = PyEntry(key: PyKey, value: PyValue)

  /** Sorting the items of a dictionary compares its keys: texts with texts, numbers with numbers. */
  predicate KeysComparable(entries: seq<PyEntry>) {
    && (forall i :: 0 <= i < |entries| ==> !entries[i].key.KOther?)
    && (|entries| <= 1
        || (forall i :: 0 <= i < |entries| ==> entries[i].key.KStr?)
        || (forall i :: 0 <= i < |entries| ==> entries[i].key.KInt? || entries[i].key.KFloat? || entries[i].key.KBool?))
  }

  /** `json.dumps(v, sort_keys=True)` raises no TypeError. */
  predicate Serialisable(v: PyValue) {
    match v
    case POther(_) => false
    case PList(items) => forall i :: 0 <= i < |items| ==> Serialisable(items[i])
    case PTuple(items) => forall i :: 0 <= i < |items| ==> Serialisable(items[i])
    case PDict(entries) =>
      KeysComparable(entries) && forall i :: 0 <= i < |entries| ==> Serialisable(entries[i].value)
    case _ => true
  }

  /** `str(k)` for a key that JSON accepts. */
  function KeyText(k: PyKey): Text
    requires !k.KOther?
  {
    match k
    case KStr(t) => t
    case KInt(n) => Lit(IntText(n))
    case KFloat(repr) =>
      Lit(if repr == "NaN" then "nan" else if repr == "Infinity" then "inf" else if repr == "-Infinity" then "-inf" else repr)
    case KBool(b) => Lit(if b then "True" else "False")
    case KNone => Lit("None")
  }

  /** `str` is Python's `str()` of a whole value, used where serialising it fails. */
  function Jsonable(v: PyValue, str: PyValue -> Text): Json
    decreases v, 1
  {
    if !Serialisable(v) then Str(str(v))
    else match v
      case PNone => Null
      case PBool(b) => Bool(b)
      case PInt(n) => Int(n)
      case PFloat(repr) => Float(repr)
      case PStr(t) => Str(t)
      case PList(items) => Arr(JsonableItems(items, str))
      case PTuple(items) => Arr(JsonableItems(items, str))
      case PDict(entries) => Obj(DictOf(JsonableEntries(entries, str)))
  }

  function JsonableItems(items: seq<PyValue>, str: PyValue -> Text): (r: seq<Json>)
    ensures |r| == |items|
    ensures forall i :: 0 <= i < |r| ==> r[i] == Jsonable(items[i], str)
    decreases items, 0
  {
    if items == [] then [] else [Jsonable(items[0], str)] + JsonableItems(items[1..], str)
  }

  function JsonableEntry(e: PyEntry, str: PyValue -> Text): Field
    requires !e.key.KOther?
    decreases e, 2
  {
    Field(KeyText(e.key), Jsonable(e.value, str))
  }

  function JsonableEntries(entries: seq<PyEntry>, str: PyValue -> Text): (r: seq<Field>)
    requires forall i :: 0 <= i < |entries| ==> !entries[i].key.KOther?
    ensures |r| == |entries|
    ensures forall i :: 0 <= i < |r| ==> r[i] == JsonableEntry(entries[i], str)
    decreases entries, 0
  {
    if entries == [] then [] else [JsonableEntry(entries[0], str)] + JsonableEntries(entries[1..], str)
  }

  /** A JSON tree as a Python value. */
  function OfJson(j: Json): PyValue
    decreases j, 1
  {
    match j
    case Null => PNone
    case Bool(b) => PBool(b)
    case Int(n) => PInt(n)
    case Float(repr) => PFloat(repr)
    case Str(t) => PStr(t)
    case Arr(items) => PList(OfItems(items))
    case Obj(fields) => PDict(OfFields(fields))
  }

  function OfItems(items: seq<Json>): (r: seq<PyValue>)
    ensures |r| == |items|
    ensures forall i :: 0 <= i < |r| ==> r[i] == OfJson(items[i])
    decreases items, 0
  {
    if items == [] then [] else [OfJson(items[0])] + OfItems(items[1..])
  }

  function OfField(f: Field): PyEntry
    decreases f, 2
  {
    PyEntry(KStr(f.key), OfJson(f.value))
  }

  function OfFields(fields: seq<Field>): (r: seq<PyEntry>)
    ensures |r| == |fields|
    ensures forall i :: 0 <= i < |r| ==> r[i] == OfField(fields[i])
    decreases fields, 0
  {
    if fields == [] then [] else [OfField(fields[0])] + OfFields(fields[1..])
  }

  /** The result is always a tree that JSON can write, no dictionary of which repeats a key. */
  lemma {:induction false} JsonableWellFormed(v: PyValue, str: PyValue -> Text)
    ensures WellFormed(Jsonable(v, str))
    ensures Serialisable(OfJson(Jsonable(v, str)))
  {
    OfJsonSerialisable(Jsonable(v, str));
    if Serialisable(v) {
      match v
      case PList(items) =>
        forall i | 0 <= i < |items| ensures WellFormed(JsonableItems(items, str)[i]) { JsonableWellFormed(items[i], str); }
      case PTuple(items) =>
        forall i | 0 <= i < |items| ensures WellFormed(JsonableItems(items, str)[i]) { JsonableWellFormed(items[i], str); }
      case PDict(entries) =>
        var fields := JsonableEntries(entries, str);
        forall i | 0 <= i < |fields| ensures WellFormed(fields[i].value) { JsonableWellFormed(entries[i].value, str); }
        DictOfFacts(fields);
        forall i | 0 <= i < |DictOf(fields)| ensures WellFormed(DictOf(fields)[i].value) {
          assert DictOf(fields)[i] in fields;
        }
      case _ =>
    }
  }

  lemma {:induction false} OfJsonSerialisable(j: Json)
    ensures Serialisable(OfJson(j))
  {
    match j
    case Arr(items) => forall i | 0 <= i < |items| ensures Serialisable(OfItems(items)[i]) { OfJsonSerialisable(items[i]); }
    case Obj(fields) =>
      forall i | 0 <= i < |fields| ensures Serialisable(OfFields(fields)[i].value) { OfJsonSerialisable(fields[i].value); }
    case _ =>
  }

  /** A tree that is already JSON is left as it is. */
  lemma {:induction false} JsonableFixesJson(j: Json, str: PyValue -> Text)
    requires WellFormed(j)
    ensures Jsonable(OfJson(j), str) == j
  {
    OfJsonSerialisable(j);
    match j
    case Arr(items) =>
      forall i | 0 <= i < |items| ensures JsonableItems(OfItems(items), str)[i] == items[i] { JsonableFixesJson(items[i], str); }
      assert JsonableItems(OfItems(items), str) == items;
    case Obj(fields) =>
      var again := JsonableEntries(OfFields(fields), str);
      forall i | 0 <= i < |fields| ensures again[i] == fields[i] { JsonableFixesJson(fields[i].value, str); }
      assert again == fields;
      DictOfIdentity(fields);
    case _ =>
  }

  /** Normalising twice is normalising once. */
  lemma JsonableIdempotent(v: PyValue, str: PyValue -> Text)
    ensures Jsonable(OfJson(Jsonable(v, str)), str) == Jsonable(v, str)
  {
    JsonableWellFormed(v, str);
    JsonableFixesJson(Jsonable(v, str), str);
  }
}
