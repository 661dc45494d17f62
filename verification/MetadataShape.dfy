/** What each kind of metadata value becomes. */
module MetadataShape {
  import opened Wrappers
  import opened Texts
  import opened Json
  import opened JsonCanonical
  import opened JsonObjects
  import opened Metadata

  /** `str` of a key, by its kind. */
  ghost predicate KeyCalled(k: PyKey, t: Text) {
    || (k.KStr? && t == k.t)
    || (k.KInt? && t == Lit(IntText(k.n)))
    || (k.KFloat? && k.repr == "NaN" && t == Lit("nan")) || (k.KFloat? && k.repr == "Infinity" && t == Lit("inf"))
    || (k.KFloat? && k.repr == "-Infinity" && t == Lit("-inf"))
    || (k.KFloat? && k.repr !in {"NaN", "Infinity", "-Infinity"} && t == Lit(k.repr))
    || (k == KBool(true) && t == Lit("True")) || (k == KBool(false) && t == Lit("False")) || (k == KNone && t == Lit("None"))
  }

  lemma KeyCalledIff(k: PyKey, t: Text)
    requires !k.KOther?
    ensures KeyCalled(k, t) <==> t == KeyText(k)
  {
  }

  ghost predicate IsNumber(k: PyKey) { k.KInt? || k.KFloat? || k.KBool? }

  /** Both are texts or both are numbers. */
  ghost predicate Compare(k: PyKey, m: PyKey) { (k.KStr? && m.KStr?) || (IsNumber(k) && IsNumber(m)) }

  /** JSON writes a dictionary exactly if it accepts every key and any two of them compare. */
  lemma ComparableIff(entries: seq<PyEntry>)
    ensures KeysComparable(entries) <==>
      (forall i :: 0 <= i < |entries| ==> !entries[i].key.KOther?)
      && forall i, j :: 0 <= i < j < |entries| ==> Compare(entries[i].key, entries[j].key)
  {
    if |entries| > 1 && forall i, j :: 0 <= i < j < |entries| ==> Compare(entries[i].key, entries[j].key) {
      assert Compare(entries[0].key, entries[1].key);
      forall i | 0 <= i < |entries| ensures entries[i].key.KStr? <==> entries[0].key.KStr?
                                    ensures IsNumber(entries[i].key) <==> IsNumber(entries[0].key) {
        if i > 0 { assert Compare(entries[0].key, entries[i].key); }
      }
    }
  }

  /** A value that JSON cannot write becomes its text, whatever it is. Of the others a list and a tuple become the list of
      what their items become. */
  lemma ItemsBecome(items: seq<PyValue>, str: PyValue -> Text)
    ensures var v := PList(items);
            if forall i :: 0 <= i < |items| ==> Serialisable(items[i]) then
              Jsonable(v, str).Arr? && |Jsonable(v, str).items| == |items|
              && forall i :: 0 <= i < |items| ==> Jsonable(v, str).items[i] == Jsonable(items[i], str)
            else Jsonable(v, str) == Str(str(v))
    ensures var v := PTuple(items);
            if forall i :: 0 <= i < |items| ==> Serialisable(items[i]) then Jsonable(v, str) == Jsonable(PList(items), str)
            else Jsonable(v, str) == Str(str(v))
  {
  }

  /** A dictionary that JSON can write has under each key's text what the last value for it becomes; any other becomes
      its text. */
  lemma EntriesBecome(entries: seq<PyEntry>, i: nat, t: Text, str: PyValue -> Text)
    requires i < |entries| && KeyCalled(entries[i].key, t)
    requires forall j :: i < j < |entries| ==> !KeyCalled(entries[j].key, t)
    ensures var v := PDict(entries);
            if KeysComparable(entries) && forall k :: 0 <= k < |entries| ==> Serialisable(entries[k].value) then
              Jsonable(v, str).Obj? && Get(Jsonable(v, str).fields, t) == Some(Jsonable(entries[i].value, str))
            else Jsonable(v, str) == Str(str(v))
  {
    if Serialisable(PDict(entries)) {
      var fields := JsonableEntries(entries, str);
      forall k | 0 <= k < |entries| ensures KeyCalled(entries[k].key, t) <==> fields[k].key == t {
        KeyCalledIff(entries[k].key, t);
      }
      GetDictOf(fields, t);
      assert LastUnder(fields, t, i);
    }
  }

  /** The dictionary has no other keys. */
  lemma NoOtherKeys(entries: seq<PyEntry>, t: Text, str: PyValue -> Text)
    requires Serialisable(PDict(entries))
    ensures Get(Jsonable(PDict(entries), str).fields, t).Some? <==>
      exists i :: 0 <= i < |entries| && KeyCalled(entries[i].key, t)
  {
    var fields := JsonableEntries(entries, str);
    forall k | 0 <= k < |entries| ensures KeyCalled(entries[k].key, t) <==> fields[k].key == t {
      KeyCalledIff(entries[k].key, t);
    }
    GetDictOf(fields, t);
  }

  /** Plain values become themselves, anything else its text. */
  lemma PlainBecome(v: PyValue, str: PyValue -> Text)
    ensures match v
            case PNone => Jsonable(v, str) == Null
            case PBool(b) => Jsonable(v, str) == Bool(b)
            case PInt(n) => Jsonable(v, str) == Int(n)
            case PFloat(repr) => Jsonable(v, str) == Float(repr)
            case PStr(t) => Jsonable(v, str) == Str(t)
            case POther(_) => Jsonable(v, str) == Str(str(v))
            case _ => true
  {
  }
}
