/** The append-only table of saved artifacts. */
module ArtifactStore {
  import opened Wrappers
  import opened Texts
  import opened Sorting
  import opened Json
  import opened JsonCanonical
  import opened JsonObjects
  import opened Metadata
  import opened Labels
  import opened Artifacts
  import opened LabelReading
  import opened ArtifactReading

  datatype RowKey = RowKey(session: Text, task: Text, digest: Text)

  type Table = map<RowKey, string>

  datatype Request = Request(artifact: TypedArtifact, session: Text, task: Text, source: LabelState)

  // ---------------------------------------------------------------- specification

  /** The artifact with the source labels joined in. */
  function Frozen(q: Request): TypedArtifact { q.artifact.(labels := Join(q.source, q.artifact.labels)) }

  predicate Accepted(q: Request) { !IsBlank(q.session) && !IsBlank(q.task) }

  function KeyOf(q: Request, host: Host): RowKey { RowKey(q.session, q.task, Digest(Frozen(q), host)) }

  function Payload(a: TypedArtifact, host: Host): string { Dumps(Obj(ToDict(a, host)), true) }

  /** What one call of `save` asks of the table: nothing, or a row unless its key is taken. */
  datatype Insert = Skip | Row(key: RowKey, payload: string)

  function InsertOf(q: Request, host: Host): Insert {
    if !Accepted(q) then Skip else Row(KeyOf(q, host), Payload(Frozen(q), host))
  }

  /** INSERT OR IGNORE. */
  function Apply(t: Table, e: Insert): Table {
    if e.Skip? || e.key in t then t else t[e.key := e.payload]
  }

  function ApplyAll(t: Table, es: seq<Insert>): Table
    decreases es
  {
    if es == [] then t else ApplyAll(Apply(t, es[0]), es[1..])
  }

  function Saved(t: Table, q: Request, host: Host): Table { Apply(t, InsertOf(q, host)) }

  function Inserts(qs: seq<Request>, host: Host): (r: seq<Insert>)
    ensures |r| == |qs| && forall i :: 0 <= i < |r| ==> r[i] == InsertOf(qs[i], host)
  {
    seq(|qs|, i requires 0 <= i < |qs| => InsertOf(qs[i], host))
  }

  function Run(t: Table, qs: seq<Request>, host: Host): Table { ApplyAll(t, Inserts(qs, host)) }

  function Read(t: Table, k: RowKey, host: Host, now: Text): Result<TypedArtifact, ArtifactError> {
    if k !in t then Err(NotFound)
    else match Loads(t[k])
      case Some(Obj(fields)) =>
        var a :- FromDict(fields, host, now);
        if Digest(a, host) == k.digest then Ok(a) else Err(DigestMismatch)
      case _ => Err(MalformedPayload)
  }

  /** A save without a named session or task, blanks do not count, asks nothing of the table; every other one asks for its
      row. */
  lemma AskedIff(q: Request, host: Host)
    ensures InsertOf(q, host).Row? <==>
      (exists c :: c in q.session && !IsSpace(c)) && exists c :: c in q.task && !IsSpace(c)
    ensures InsertOf(q, host).Row? ==>
      InsertOf(q, host).key.session == q.session && InsertOf(q, host).key.task == q.task
  {
  }

  // ---------------------------------------------------------------- the store

  class Store {
    const host: Host
    var rows: Table

    constructor (host: Host)
      ensures this.host == host && rows == map[]
    {
      this.host := host;
      rows := map[];
    }

    method Save(artifact: TypedArtifact, session: Text, task: Text, source: LabelState)
      returns (r: Result<Text, ArtifactError>)
      modifies this
      ensures var q := Request(artifact, session, task, source);
              && rows == Saved(old(rows), q, host)
              && r == if Accepted(q) then Ok(KeyOf(q, host).digest) else Err(SourceRequired)
      ensures old(rows.Keys) <= rows.Keys && forall k :: k in old(rows) ==> rows[k] == old(rows)[k]
    {
      if IsBlank(session) || IsBlank(task) {
        return Err(SourceRequired);
      }
      var frozen := artifact.(labels := Join(source, artifact.labels));
      var digest := Digest(frozen, host);
      var payload := Dumps(Obj(ToDict(frozen, host)), true);
      var key := RowKey(session, task, digest);
      if key !in rows {
        rows := rows[key := payload];
      }
      r := Ok(digest);
    }

    method ReadInternal(session: Text, task: Text, digest: Text, now: Text)
      returns (r: Result<TypedArtifact, ArtifactError>)
      ensures r == Read(rows, RowKey(session, task, digest), host, now)
      ensures r.Ok? ==> Digest(r.value, host) == digest
    {
      var key := RowKey(session, task, digest);
      if key !in rows {
        return Err(NotFound);
      }
      var loaded := Loads(rows[key]);
      if loaded.None? || !loaded.value.Obj? {
        return Err(MalformedPayload);
      }
      var parsed := FromDict(loaded.value.fields, host, now);
      if parsed.Ok? && Digest(parsed.value, host) != digest {
        return Err(DigestMismatch);
      }
      r := parsed;
    }
  }

  // ---------------------------------------------------------------- runs

  /** What the types promise of a save: a valid artifact, and a text for its metadata. */
  ghost predicate Proper(q: Request, host: Host) { Storable(q.artifact) && host.str(q.artifact.metadata) != [] }

  /** The row was written by saving f. */
  ghost predicate WrittenBy(k: RowKey, payload: string, f: TypedArtifact, host: Host) {
    && Storable(f) && Listed(f.labels) == f.labels && host.str(f.metadata) != []
    && k.digest == Digest(f, host) && payload == Payload(f, host)
  }

  ghost predicate GenuineRow(k: RowKey, payload: string, host: Host) {
    exists f :: WrittenBy(k, payload, f, host)
  }

  ghost function Genuinely(host: Host): (RowKey, string) -> bool {
    (k: RowKey, payload: string) => GenuineRow(k, payload, host)
  }

  ghost predicate AllGood(t: Table, good: (RowKey, string) -> bool) { forall k :: k in t ==> good(k, t[k]) }

  ghost predicate Genuine(t: Table, host: Host) { AllGood(t, Genuinely(host)) }

  lemma FrozenStorable(q: Request, host: Host)
    requires Proper(q, host)
    ensures Storable(Frozen(q)) && Listed(Frozen(q).labels) == Frozen(q).labels
  {
    JoinedLabels(q.source, q.artifact.labels);
  }

  lemma InsertGenuine(q: Request, host: Host)
    requires Proper(q, host)
    ensures InsertOf(q, host).Row? ==> Genuinely(host)(InsertOf(q, host).key, InsertOf(q, host).payload)
  {
    FrozenStorable(q, host);
    if Accepted(q) {
      assert WrittenBy(KeyOf(q, host), Payload(Frozen(q), host), Frozen(q), host);
    }
  }

  ghost predicate GoodInserts(es: seq<Insert>, good: (RowKey, string) -> bool) {
    forall i :: 0 <= i < |es| && es[i].Row? ==> good(es[i].key, es[i].payload)
  }

  lemma InsertsGenuine(qs: seq<Request>, host: Host)
    requires forall i :: 0 <= i < |qs| ==> Proper(qs[i], host)
    ensures GoodInserts(Inserts(qs, host), Genuinely(host))
  {
    var es, good := Inserts(qs, host), Genuinely(host);
    forall i | 0 <= i < |es| && es[i].Row? ensures good(es[i].key, es[i].payload) {
      InsertGenuine(qs[i], host);
    }
  }

  /** Rows are only added, each by an insert of the run; none is changed or removed. */
  lemma {:induction false} ApplyAllKeeps(t: Table, es: seq<Insert>)
    ensures forall k :: k in t ==> k in ApplyAll(t, es) && ApplyAll(t, es)[k] == t[k]
    ensures forall k :: k in ApplyAll(t, es) && k !in t ==>
      exists i :: 0 <= i < |es| && es[i].Row? && es[i].key == k && es[i].payload == ApplyAll(t, es)[k]
    decreases es
  {
    if es != [] {
      var t' := Apply(t, es[0]);
      ApplyAllKeeps(t', es[1..]);
      var end := ApplyAll(t, es);
      forall k | k in end && k !in t
        ensures exists i :: 0 <= i < |es| && es[i].Row? && es[i].key == k && es[i].payload == end[k]
      {
        if k in t' {
          assert es[0].Row? && es[0].key == k && es[0].payload == end[k];
        } else {
          var i :| 0 <= i < |es[1..]| && es[1..][i].Row? && es[1..][i].key == k && es[1..][i].payload == end[k];
          assert es[i + 1] == es[1..][i];
        }
      }
    }
  }

  lemma ApplyAllGood(t: Table, es: seq<Insert>, good: (RowKey, string) -> bool)
    requires AllGood(t, good) && GoodInserts(es, good)
    ensures AllGood(ApplyAll(t, es), good)
  {
    ApplyAllKeeps(t, es);
    forall k | k in ApplyAll(t, es) ensures good(k, ApplyAll(t, es)[k]) {
      if k !in t {
        var i :| 0 <= i < |es| && es[i].Row? && es[i].key == k && es[i].payload == ApplyAll(t, es)[k];
      }
    }
  }

  /** A key that an insert asked for is taken, through every later insert, by a good row. */
  lemma TakenByGood(t: Table, e: Insert, later: seq<Insert>, good: (RowKey, string) -> bool)
    requires AllGood(t, good) && GoodInserts(later, good) && e.Row? && good(e.key, e.payload)
    ensures var end := ApplyAll(Apply(t, e), later); e.key in end && good(e.key, end[e.key])
  {
    ApplyAllKeeps(Apply(t, e), later);
  }

  /** Over every run rows are only added, never changed or removed; every row is genuine, and its key
      is the one some accepted save of the run returned. */
  lemma RunKeeps(t: Table, qs: seq<Request>, host: Host)
    requires Genuine(t, host) && forall i :: 0 <= i < |qs| ==> Proper(qs[i], host)
    ensures Genuine(Run(t, qs, host), host)
    ensures forall k :: k in t ==> k in Run(t, qs, host) && Run(t, qs, host)[k] == t[k]
    ensures forall k :: k in Run(t, qs, host) && k !in t ==>
      exists i :: 0 <= i < |qs| && Accepted(qs[i]) && k == KeyOf(qs[i], host)
  {
    var es := Inserts(qs, host);
    InsertsGenuine(qs, host);
    ApplyAllKeeps(t, es);
    ApplyAllGood(t, es, Genuinely(host));
    forall k | k in ApplyAll(t, es) && k !in t
      ensures exists i :: 0 <= i < |qs| && Accepted(qs[i]) && k == KeyOf(qs[i], host)
    {
      var i :| 0 <= i < |es| && es[i].Row? && es[i].key == k;
      InsertKey(qs[i], host);
    }
  }

  lemma InsertKey(q: Request, host: Host)
    ensures InsertOf(q, host).Row? ==> Accepted(q) && InsertOf(q, host).key == KeyOf(q, host)
  {
  }

  /** After a save and any later saves the key is taken, by a genuine row. */
  lemma KeyTaken(t: Table, q: Request, later: seq<Request>, host: Host)
    requires Genuine(t, host) && Proper(q, host) && Accepted(q)
    requires forall i :: 0 <= i < |later| ==> Proper(later[i], host)
    ensures var end := Run(Saved(t, q, host), later, host);
            KeyOf(q, host) in end && GenuineRow(KeyOf(q, host), end[KeyOf(q, host)], host)
  {
    InsertGenuine(q, host);
    InsertsGenuine(later, host);
    TakenByGood(t, InsertOf(q, host), Inserts(later, host), Genuinely(host));
  }

  /** A genuine row reads as its writer, read back; the digest check decides. */
  lemma ReadGenuine(t: Table, k: RowKey, f: TypedArtifact, host: Host, now: Text)
    requires CollisionFree(host.sha)
    requires k in t && WrittenBy(k, t[k], f, host)
    ensures Read(t, k, host, now) ==
      if !Serialisable(f.metadata) then Err(MetadataNotMapping)
      else if KeysStable(Jsonable(f.metadata, host.str)) && LabelsStable(f.labels) then Ok(ReadBack(f, host))
      else Err(DigestMismatch)
  {
    TextRoundTrip(f, host, now);
    ReadBackDigestIff(f, host);
    ReadRow(t, k, Reloaded(Obj(ToDict(f, host))).fields, host, now);
  }

  lemma ReadRow(t: Table, k: RowKey, fields: seq<Field>, host: Host, now: Text)
    requires k in t && Loads(t[k]) == Some(Obj(fields))
    ensures Read(t, k, host, now) ==
      match FromDict(fields, host, now)
      case Err(e) => Err(e)
      case Ok(a) => if Digest(a, host) == k.digest then Ok(a) else Err(DigestMismatch)
  {
  }

  /** What a saved artifact must meet to be read again; a caller can check it beforehand. */
  ghost predicate Readable(a: TypedArtifact, host: Host) {
    Serialisable(a.metadata) && KeysStable(Jsonable(a.metadata, host.str)) && LabelsStable(a.labels)
  }

  lemma SameReviewSameReadable(a: TypedArtifact, b: TypedArtifact, host: Host)
    requires a.metadata.PDict? && b.metadata.PDict?
    requires Review(a, host) == Review(b, host)
    ensures Serialisable(a.metadata) <==> Serialisable(b.metadata)
    ensures KeysStable(Jsonable(a.metadata, host.str)) <==> KeysStable(Jsonable(b.metadata, host.str))
    ensures LabelsStable(a.labels) <==> LabelsStable(b.labels)
  {
    MetadataShape(a.metadata, host);
    MetadataShape(b.metadata, host);
    ShownShape(Jsonable(a.metadata, host.str));
    ShownShape(Jsonable(b.metadata, host.str));
  }

  lemma ShownShape(j: Json)
    ensures FuseTree(SortTree(j)).Obj? <==> j.Obj?
  {
  }

  lemma ReadBackReview(f: TypedArtifact, host: Host)
    requires CollisionFree(host.sha) && Storable(f) && KeysStable(Jsonable(f.metadata, host.str)) && LabelsStable(f.labels)
    ensures Digest(ReadBack(f, host), host) == Digest(f, host)
    ensures Review(ReadBack(f, host), host) == Review(f, host)
  {
    ReadBackDigestIff(f, host);
    DigestIff(ReadBack(f, host), f, host);
  }

  /** Two artifacts with the same review are read with the same labels. */
  lemma SameReviewSameLabels(a: TypedArtifact, b: TypedArtifact, host: Host)
    requires Review(a, host) == Review(b, host)
    ensures ReadLabels(a.labels) == ReadLabels(b.labels)
  {
  }

  /** What reading the key of a save must give. */
  ghost predicate ReadsAs(got: Result<TypedArtifact, ArtifactError>, q: Request, host: Host) {
    && (got.Ok? <==> Readable(Frozen(q), host))
    && (got.Ok? ==> Digest(got.value, host) == KeyOf(q, host).digest)
    && (got.Ok? ==> Review(got.value, host) == Review(Frozen(q), host))
    && (got.Ok? ==> got.value.labels == FuseLabels(Join(q.source, q.artifact.labels)))
    && (got.Err? ==> got.error == if Serialisable(q.artifact.metadata) then DigestMismatch else MetadataNotMapping)
  }

  lemma GenuineReads(t: Table, q: Request, f: TypedArtifact, host: Host, now: Text)
    requires CollisionFree(host.sha) && Proper(q, host)
    requires KeyOf(q, host) in t && WrittenBy(KeyOf(q, host), t[KeyOf(q, host)], f, host)
    ensures ReadsAs(Read(t, KeyOf(q, host), host, now), q, host)
  {
    var a := Frozen(q);
    FrozenStorable(q, host);
    DigestIff(f, a, host);
    ReadGenuine(t, KeyOf(q, host), f, host, now);
    SameReviewSameReadable(f, a, host);
    SameReviewSameLabels(f, a, host);
    StableRead(a.labels);
    if Readable(f, host) { ReadBackReview(f, host); }
  }

  /** A digest that a save returned stays readable at its key through every later save, if and only if
      the saved artifact was readable; what is read has that digest, everything that was under
      review, and exactly the joined labels, surrogate pairs fused. */
  lemma SavedStaysReadable(t: Table, q: Request, later: seq<Request>, host: Host, now: Text)
    requires CollisionFree(host.sha) && Genuine(t, host)
    requires Proper(q, host) && Accepted(q) && forall i :: 0 <= i < |later| ==> Proper(later[i], host)
    ensures var frozen := q.artifact.(labels := Join(q.source, q.artifact.labels));
            var key := RowKey(q.session, q.task, Digest(frozen, host));
            ReadsAs(Read(Run(Saved(t, q, host), later, host), key, host, now), q, host)
  {
    var end := Run(Saved(t, q, host), later, host);
    KeyTaken(t, q, later, host);
    var f :| WrittenBy(KeyOf(q, host), end[KeyOf(q, host)], f, host);
    GenuineReads(end, q, f, host, now);
  }

  /** Saving content that is already there returns the same digest and leaves the table as it was. */
  lemma ResaveUnchanged(t: Table, q: Request, later: seq<Request>, again: Request, host: Host)
    requires Genuine(t, host) && Proper(q, host) && Accepted(q)
    requires forall i :: 0 <= i < |later| ==> Proper(later[i], host)
    requires again.session == q.session && again.task == q.task
    requires Review(Frozen(again), host) == Review(Frozen(q), host)
    ensures KeyOf(again, host) == KeyOf(q, host)
    ensures var end := Run(Saved(t, q, host), later, host); Saved(end, again, host) == end
  {
    KeyTaken(t, q, later, host);
    CanonicalTextIff(Frozen(again), Frozen(q), host);
    assert KeyOf(again, host) == KeyOf(q, host);
    TakenIgnored(Run(Saved(t, q, host), later, host), InsertOf(again, host));
  }

  lemma TakenIgnored(t: Table, e: Insert)
    requires e.Row? ==> e.key in t
    ensures Apply(t, e) == t
  {
  }

  /** Reading an artifact and saving what was read, from the same source, comes to the same key exactly when joining
      the source labels to the fused ones adds nothing to them; and then it changes nothing. */
  lemma ReadThenSaveIff(t: Table, q: Request, later: seq<Request>, host: Host, now: Text)
    requires CollisionFree(host.sha) && Genuine(t, host) && Proper(q, host) && Accepted(q)
    requires forall i :: 0 <= i < |later| ==> Proper(later[i], host)
    requires Readable(Frozen(q), host)
    ensures var end := Run(Saved(t, q, host), later, host);
            var got := Read(end, KeyOf(q, host), host, now);
            && got.Ok?
            && (KeyOf(q.(artifact := got.value), host) == KeyOf(q, host) <==> SourceAddsNothing(q))
            && (SourceAddsNothing(q) ==> Saved(end, q.(artifact := got.value), host) == end)
  {
    var end := Run(Saved(t, q, host), later, host);
    SavedStaysReadable(t, q, later, host, now);
    var got := Read(end, KeyOf(q, host), host, now);
    var again := q.(artifact := got.value);
    RejoinedReview(q, again, host);
    DigestIff(Frozen(again), Frozen(q), host);
    if SourceAddsNothing(q) { ResaveUnchanged(t, q, later, again, host); }
  }

  /** Joining the source labels to the joined labels, once fused, gives them back. */
  predicate SourceAddsNothing(q: Request) {
    var joined := Join(q.source, q.artifact.labels);
    FuseLabels(Join(q.source, FuseLabels(joined))) == FuseLabels(joined)
  }

  lemma RejoinedReview(q: Request, again: Request, host: Host)
    requires again == q.(artifact := again.artifact)
    requires Review(again.artifact, host) == Review(Frozen(q), host)
    requires again.artifact.labels == FuseLabels(Join(q.source, q.artifact.labels))
    ensures Review(Frozen(again), host) == Review(Frozen(q), host) <==> SourceAddsNothing(q)
  {
    JoinedLabels(q.source, q.artifact.labels);
    JoinedLabels(q.source, again.artifact.labels);
  }

  /** Labels without surrogate pairs meet the condition. */
  lemma PlainSourceAddsNothing(q: Request)
    requires PlainLabels(Join(q.source, q.artifact.labels))
    ensures SourceAddsNothing(q)
  {
    JoinedLabels(q.source, q.artifact.labels);
    StableRead(Join(q.source, q.artifact.labels));
    JoinAbsorbs(q.source, q.artifact.labels);
  }

  /** Over every run, a key that no accepted save of it returned reads as it did before: nothing is seen in another
      session or task, nor at a digest that was not returned. */
  lemma OnlyOwnKeys(t: Table, qs: seq<Request>, k: RowKey, host: Host, now: Text)
    requires forall i :: 0 <= i < |qs| && Accepted(qs[i]) ==> k != KeyOf(qs[i], host)
    ensures Read(Run(t, qs, host), k, host, now) == Read(t, k, host, now)
  {
    var es := Inserts(qs, host);
    forall i | 0 <= i < |es| && es[i].Row? ensures es[i].key != k { InsertKey(qs[i], host); }
    OtherRowsKept(t, es, k);
    ReadLooksUp(Run(t, qs, host), t, k, host, now);
  }

  lemma OtherRowsKept(t: Table, es: seq<Insert>, k: RowKey)
    requires forall i :: 0 <= i < |es| && es[i].Row? ==> es[i].key != k
    ensures k in ApplyAll(t, es) <==> k in t
    ensures k in t ==> ApplyAll(t, es)[k] == t[k]
  {
    ApplyAllKeeps(t, es);
  }

  lemma ReadLooksUp(t: Table, u: Table, k: RowKey, host: Host, now: Text)
    requires (k in t <==> k in u) && (k in t ==> t[k] == u[k])
    ensures Read(t, k, host, now) == Read(u, k, host, now)
  {
  }

  /** One dictionary with the key written as a surrogate pair and as the character itself saves
      without complaint and never reads back. */
  lemma UnstableKeysUnreadable(q: Request, host: Host, now: Text)
    requires CollisionFree(host.sha) && Proper(q, host) && Accepted(q)
    requires q.artifact.metadata == PDict([PyEntry(KStr([0xD83D, 0xDE00]), PNone), PyEntry(KStr([0x1F600]), PNone)])
    ensures Read(Saved(map[], q, host), KeyOf(q, host), host, now) == Err(DigestMismatch)
  {
    var split: Text, whole: Text := [0xD83D, 0xDE00], [0x1F600];
    var m := Jsonable(q.artifact.metadata, host.str);
    var fields := [Field(split, Null), Field(whole, Null)];
    assert m == Obj(fields) by { TwoKeys(split, whole, host); }
    SmileFused();
    SamePairSorted(split, whole);
    SavedStaysReadable(map[], q, [], host, now);
  }

  /** Metadata that JSON cannot write saves without complaint and never reads back. */
  lemma UnwritableUnreadable(q: Request, key: Text, id: nat, host: Host, now: Text)
    requires CollisionFree(host.sha) && Proper(q, host) && Accepted(q)
    requires q.artifact.metadata == PDict([PyEntry(KStr(key), POther(id))])
    ensures Read(Saved(map[], q, host), KeyOf(q, host), host, now) == Err(MetadataNotMapping)
  {
    assert !Serialisable(q.artifact.metadata) by { assert [PyEntry(KStr(key), POther(id))][0].value == POther(id); }
    SavedStaysReadable(map[], q, [], host, now);
  }

  /** Two label categories, one written as a surrogate pair and one as the character itself, save without complaint
      and never read back. */
  lemma FusedCategoriesUnreadable(q: Request, tier: Tier, prov: Text, host: Host, now: Text)
    requires CollisionFree(host.sha) && Proper(q, host) && Accepted(q) && Serialisable(q.artifact.metadata)
    requires q.source.a == []
    requires q.artifact.labels.a ==
      [CategoryTag([0xD83D, 0xDE00], tier, [], prov), CategoryTag([0x1F600], tier, [], prov)]
    ensures Read(Saved(map[], q, host), KeyOf(q, host), host, now) == Err(DigestMismatch)
  {
    TwoTagsUnstable(q.source, q.artifact.labels, tier, prov);
    SavedStaysReadable(map[], q, [], host, now);
  }

  lemma TwoTagsUnstable(source: LabelState, labels: LabelState, tier: Tier, prov: Text)
    requires source.a == []
    requires labels.a == [CategoryTag([0xD83D, 0xDE00], tier, [], prov), CategoryTag([0x1F600], tier, [], prov)]
    ensures !LabelsStable(Join(source, labels))
  {
    var tags := labels.a;
    TwoCategories(tags, tier, prov);
    NothingInFront(tags);
    LoneTagComposed(tags, tags[0]);
    LoneTagComposed(tags, tags[1]);
    JoinedLabels(source, labels);
    FusedAlikeUnstable(Join(source, labels), tags[0], tags[1]);
  }

  lemma TwoCategories(tags: seq<CategoryTag>, tier: Tier, prov: Text)
    requires tags == [CategoryTag([0xD83D, 0xDE00], tier, [], prov), CategoryTag([0x1F600], tier, [], prov)]
    ensures OfCategory(tags, tags[0].category) == [tags[0]] && OfCategory(tags, tags[1].category) == [tags[1]]
    ensures tags[0] != tags[1] && FuseTag(tags[0]) == FuseTag(tags[1])
  {
    assert tags[0].category[0] != tags[1].category[0];
    OfCategoryUnique(tags, 0);
    OfCategoryUnique(tags, 1);
    SmileFused();
  }

  /** The pair and the character it spells. */
  lemma SmileFused()
    ensures var split: Text, whole: Text := [0xD83D, 0xDE00], [0x1F600]; Fuse(split) == whole == Fuse(whole) && split != whole
  {
    var split: Text, whole: Text := [0xD83D, 0xDE00], [0x1F600];
    assert split[2..] == [];
    assert Fuse(split) == [Combine(0xD83D, 0xDE00)] + Fuse(split[2..]);
    assert split[0] != whole[0];
  }

  lemma TwoKeys(x: Text, y: Text, host: Host)
    requires x != y
    ensures Jsonable(PDict([PyEntry(KStr(x), PNone), PyEntry(KStr(y), PNone)]), host.str)
         == Obj([Field(x, Null), Field(y, Null)])
  {
    var entries := [PyEntry(KStr(x), PNone), PyEntry(KStr(y), PNone)];
    assert Serialisable(PDict(entries));
    var fields := JsonableEntries(entries, host.str);
    assert fields[0] == JsonableEntry(entries[0], host.str) == Field(x, Null);
    assert fields[1] == JsonableEntry(entries[1], host.str) == Field(y, Null);
    forall i, j | 0 <= i < j < 2 ensures FieldKey(fields[i]) != FieldKey(fields[j]) {
      assert i == 0 && j == 1;
    }
    DictOfIdentity(fields);
    assert fields == [Field(x, Null), Field(y, Null)];
  }

  lemma SamePairSorted(x: Text, y: Text)
    requires Fuse(x) == Fuse(y)
    ensures !KeysStable(Obj([Field(x, Null), Field(y, Null)]))
  {
    var fields := [Field(x, Null), Field(y, Null)];
    ObjectSorted(fields);
    SortPermutes(SortValues(fields), FieldKey);
    OneKeyUnsorted(Sort(SortValues(fields), FieldKey), SortValues(fields), Fuse(x));
  }

  lemma OneKeyUnsorted(sorted: seq<Field>, fields: seq<Field>, key: Text)
    requires |sorted| == 2 && forall f :: f in sorted ==> f in fields
    requires forall f :: f in fields ==> Fuse(f.key) == key
    ensures !SortedTree(Obj(FuseFields(sorted)))
  {
    assert sorted[0] in sorted && sorted[1] in sorted;
    EqualKeysUnsorted(FuseFields(sorted));
  }

  lemma EqualKeysUnsorted(fields: seq<Field>)
    requires |fields| == 2 && fields[0].key == fields[1].key
    ensures !SortedTree(Obj(fields))
  {
    LessIrreflexive(fields[0].key);
    assert FieldKey(fields[0]) == FieldKey(fields[1]);
  }
}
