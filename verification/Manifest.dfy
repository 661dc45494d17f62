/** The length-framed byte stream that a source tree is hashed as. */
module Manifest {
  import opened Wrappers
  import opened Sorting

  type Byte = b: int | 0 <= b < 256
  type Bytes = seq<Byte>

  // ---------------------------------------------------------------- framing

  function Power(k: nat): nat { if k == 0 then 1 else 256 * Power(k - 1) }

  /** `n.to_bytes(k, "big")`. */
  function BigEndian(n: nat, k: nat): (r: Bytes)
    ensures |r| == k
  {
    if k == 0 then [] else BigEndian(n / 256, k - 1) + [n % 256]
  }

  function Value(bs: Bytes): nat {
    if bs == [] then 0 else Value(bs[..|bs| - 1]) * 256 + bs[|bs| - 1]
  }

  /** What a length must be below to be written at all. */
  ghost predicate Framable(data: Bytes) { |data| < Power(8) }

  function Frame(data: Bytes): Bytes { BigEndian(|data|, 8) + data }

  datatype Item = Item(name: Bytes, data: Bytes)

  function Stream(items: seq<Item>): Bytes {
    if items == [] then [] else Frame(items[0].name) + Frame(items[0].data) + Stream(items[1..])
  }

  /** The first frame of a stream and what follows it. */
  function TakeFrame(s: Bytes): (r: Option<(Bytes, Bytes)>)
    ensures r.Some? ==> |r.value.1| < |s|
  {
    if |s| < 8 then None
    else
      var n := Value(s[..8]);
      if |s| < 8 + n then None else Some((s[8..8 + n], s[8 + n..]))
  }

  function Decode(s: Bytes): Option<seq<Item>>
    decreases |s|
  {
    if s == [] then Some([])
    else
      var (name, more) :- TakeFrame(s);
      var (data, rest) :- TakeFrame(more);
      var items :- Decode(rest);
      Some([Item(name, data)] + items)
  }

  lemma {:induction false} ValueOfBigEndian(n: nat, k: nat)
    requires n < Power(k)
    ensures Value(BigEndian(n, k)) == n
  {
    if k > 0 {
      ValueOfBigEndian(n / 256, k - 1);
      assert BigEndian(n, k)[..k - 1] == BigEndian(n / 256, k - 1);
    }
  }

  lemma {:induction false} BigEndianOfValue(bs: Bytes)
    ensures Value(bs) < Power(|bs|)
    ensures BigEndian(Value(bs), |bs|) == bs
  {
    if bs != [] {
      var init, last := bs[..|bs| - 1], bs[|bs| - 1];
      BigEndianOfValue(init);
      assert Value(bs) / 256 == Value(init) && Value(bs) % 256 == last;
      assert bs == init + [last];
    }
  }

  lemma TakeFrameOfFrame(data: Bytes, rest: Bytes)
    requires Framable(data)
    ensures TakeFrame(Frame(data) + rest) == Some((data, rest))
  {
    ValueOfBigEndian(|data|, 8);
    var s := Frame(data) + rest;
    assert s[..8] == BigEndian(|data|, 8);
    assert s[8..8 + |data|] == data && s[8 + |data|..] == rest;
  }

  lemma FrameOfTakeFrame(s: Bytes)
    requires TakeFrame(s).Some?
    ensures s == Frame(TakeFrame(s).value.0) + TakeFrame(s).value.1
    ensures Framable(TakeFrame(s).value.0)
  {
    BigEndianOfValue(s[..8]);
  }

  ghost predicate AllFramable(items: seq<Item>) {
    forall i :: 0 <= i < |items| ==> Framable(items[i].name) && Framable(items[i].data)
  }

  lemma StreamCons(x: Item, items: seq<Item>)
    ensures Stream([x] + items) == Frame(x.name) + (Frame(x.data) + Stream(items))
  {
    assert ([x] + items)[1..] == items;
  }

  lemma DecodeStep(s: Bytes, x: Item, more: Bytes, rest: Bytes, items: seq<Item>)
    requires TakeFrame(s) == Some((x.name, more)) && TakeFrame(more) == Some((x.data, rest)) && Decode(rest) == Some(items)
    ensures Decode(s) == Some([x] + items)
  {
  }

  /** The decoder inverts the framing. */
  lemma {:induction false} DecodeStream(items: seq<Item>)
    requires AllFramable(items)
    ensures Decode(Stream(items)) == Some(items)
  {
    if items != [] {
      var rest := Stream(items[1..]);
      var more := Frame(items[0].data) + rest;
      assert items == [items[0]] + items[1..];
      StreamCons(items[0], items[1..]);
      TakeFrameOfFrame(items[0].name, more);
      TakeFrameOfFrame(items[0].data, rest);
      DecodeStream(items[1..]);
      DecodeStep(Stream(items), items[0], more, rest, items[1..]);
    }
  }

  lemma DecodeCons(s: Bytes)
    requires s != [] && Decode(s).Some?
    ensures TakeFrame(s).Some? && TakeFrame(TakeFrame(s).value.1).Some?
    ensures var first := TakeFrame(s).value;
            var second := TakeFrame(first.1).value;
            Decode(second.1).Some? && Decode(s).value == [Item(first.0, second.0)] + Decode(second.1).value
  {
  }

  /** And the framing inverts the decoder: no other bytes decode to the same items. */
  lemma {:induction false} StreamDecoded(s: Bytes)
    requires Decode(s).Some?
    ensures AllFramable(Decode(s).value) && Stream(Decode(s).value) == s
    decreases |s|
  {
    if s != [] {
      DecodeCons(s);
      var first := TakeFrame(s).value;
      var second := TakeFrame(first.1).value;
      FrameOfTakeFrame(s);
      FrameOfTakeFrame(first.1);
      StreamDecoded(second.1);
      StreamCons(Item(first.0, second.0), Decode(second.1).value);
    }
  }

  // ---------------------------------------------------------------- file trees

  /** A path relative to the root, part by part. */
  type Path = seq<Bytes>

  const SLASH: Byte := 0x2F

  /** Parts are non-empty and hold no separator. */
  ghost predicate IsPath(p: Path) {
    p != [] && forall i :: 0 <= i < |p| ==> SLASH !in p[i]
  }

  /** `as_posix().encode()`. */
  function Name(p: Path): Bytes {
    if p == [] then [] else if |p| == 1 then p[0] else p[0] + [SLASH] + Name(p[1..])
  }

  /** Paths are ordered part by part: a separator below every byte gives the same order. */
  function PathKey(p: Path): Key {
    if p == [] then [] else if |p| == 1 then p[0] else p[0] + [-1] + PathKey(p[1..])
  }

  /** The two texts a path can be written as, by separator. */
  function Join(p: seq<seq<int>>, sep: int): seq<int> {
    if p == [] then [] else if |p| == 1 then p[0] else p[0] + [sep] + Join(p[1..], sep)
  }

  lemma {:induction false} JoinedForms(p: Path)
    ensures Name(p) == Join(p, 0x2F) && PathKey(p) == Join(p, -1)
  {
    if |p| > 1 { JoinedForms(p[1..]); }
  }

  lemma {:induction false} JoinInjective(p: seq<seq<int>>, q: seq<seq<int>>, sep: int)
    requires p != [] && q != [] && Join(p, sep) == Join(q, sep)
    requires forall i :: 0 <= i < |p| ==> sep !in p[i]
    requires forall i :: 0 <= i < |q| ==> sep !in q[i]
    ensures p == q
  {
    var s := Join(p, sep);
    FirstPart(p, sep);
    FirstPart(q, sep);
    if |p[0]| == |q[0]| {
      assert p[0] == s[..|p[0]|] == q[0];
      if |p| > 1 {
        assert Join(p[1..], sep) == s[|p[0]| + 1..] == Join(q[1..], sep);
        JoinInjective(p[1..], q[1..], sep);
        assert p == [p[0]] + p[1..] && q == [q[0]] + q[1..];
      }
    }
  }

  /** The first part ends where the text ends, or where the first separator stands. */
  lemma FirstPart(p: seq<seq<int>>, sep: int)
    requires p != [] && forall i :: 0 <= i < |p| ==> sep !in p[i]
    ensures |p[0]| <= |Join(p, sep)| && Join(p, sep)[..|p[0]|] == p[0]
    ensures |p| == 1 <==> |Join(p, sep)| == |p[0]|
    ensures |p| > 1 ==> Join(p, sep)[|p[0]|] == sep && Join(p, sep)[|p[0]| + 1..] == Join(p[1..], sep)
    ensures forall k :: 0 <= k < |p[0]| ==> Join(p, sep)[k] != sep
  {
    if |p| > 1 {
      var s := Join(p, sep);
      assert s == p[0] + [sep] + Join(p[1..], sep);
    }
    assert forall k | 0 <= k < |p[0]| :: p[0][k] in p[0];
  }

  /** What a directory walk finds; an escaping entry is a symbolic link or resolves outside the root. */
  datatype Kind = Directory | Escaping | File(data: Bytes)

  datatype Entry = Entry(path: Path, kind: Kind)

  function EntryKey(e: Entry): Key { PathKey(e.path) }

  datatype Error = SymbolicLink

  /** `fed` is what the running digest was fed; each listed file is hashed by its own data. */
  datatype Snapshot = Unknown | Observed(fed: Bytes, files: seq<Item>)

  const BUILD: Bytes := [0x2E, 0x62, 0x75, 0x69, 0x6C, 0x64]

  predicate Skipped(e: Entry, excludeBuild: bool) { (excludeBuild && BUILD in e.path) || e.kind.Directory? }

  function Kept(es: seq<Entry>, excludeBuild: bool): seq<Entry> {
    if es == [] then []
    else (if Skipped(es[0], excludeBuild) then [] else [es[0]]) + Kept(es[1..], excludeBuild)
  }

  ghost predicate AllFiles(es: seq<Entry>) { forall i :: 0 <= i < |es| ==> es[i].kind.File? }

  function ItemOf(e: Entry): Item
    requires e.kind.File?
  {
    Item(Name(e.path), e.kind.data)
  }

  function Items(es: seq<Entry>): (r: seq<Item>)
    requires AllFiles(es)
    ensures |r| == |es| && forall i :: 0 <= i < |r| ==> r[i] == ItemOf(es[i])
  {
    seq(|es|, i requires 0 <= i < |es| => ItemOf(es[i]))
  }

  lemma {:induction false} KeptAppend(es: seq<Entry>, e: Entry, excludeBuild: bool)
    ensures Kept(es + [e], excludeBuild) == Kept(es, excludeBuild) + if Skipped(e, excludeBuild) then [] else [e]
  {
    if es == [] {
      assert es + [e] == [e];
    } else {
      KeptAppend(es[1..], e, excludeBuild);
      assert (es + [e])[1..] == es[1..] + [e];
    }
  }

  lemma {:induction false} StreamAppend(items: seq<Item>, x: Item)
    ensures Stream(items + [x]) == Stream(items) + (Frame(x.name) + Frame(x.data))
  {
    if items == [] {
      assert items + [x] == [x] + [];
      StreamCons(x, []);
    } else {
      var last := Frame(x.name) + Frame(x.data);
      StreamAppend(items[1..], x);
      assert items + [x] == [items[0]] + (items[1..] + [x]) && items == [items[0]] + items[1..];
      StreamCons(items[0], items[1..] + [x]);
      StreamCons(items[0], items[1..]);
      Regroup(Frame(items[0].name), Frame(items[0].data), Stream(items[1..]), last);
    }
  }

  lemma Regroup(a: Bytes, b: Bytes, c: Bytes, d: Bytes)
    ensures a + (b + (c + d)) == (a + (b + c)) + d
  {
  }

  lemma {:induction false} KeptPrefix(es: seq<Entry>, k: nat, excludeBuild: bool)
    requires k <= |es|
    ensures forall e :: e in Kept(es[..k], excludeBuild) ==> e in Kept(es, excludeBuild)
  {
    if k > 0 {
      KeptPrefix(es[1..], k - 1, excludeBuild);
      assert es[..k][1..] == es[1..][..k - 1];
    }
  }

  /** One round of the loop, seen from the list of kept entries. */
  lemma KeptStep(es: seq<Entry>, k: nat, excludeBuild: bool)
    requires k < |es|
    ensures Kept(es[..k + 1], excludeBuild) == Kept(es[..k], excludeBuild) + if Skipped(es[k], excludeBuild) then [] else [es[k]]
    ensures !Skipped(es[k], excludeBuild) && es[k].kind.Escaping? ==> !AllFiles(Kept(es, excludeBuild))
  {
    assert es[..k + 1] == es[..k] + [es[k]];
    KeptAppend(es[..k], es[k], excludeBuild);
    KeptPrefix(es, k + 1, excludeBuild);
    if !Skipped(es[k], excludeBuild) { assert es[k] in Kept(es[..k + 1], excludeBuild); }
  }

  lemma FedStep(es: seq<Entry>, e: Entry)
    requires AllFiles(es) && e.kind.File?
    ensures AllFiles(es + [e]) && Items(es + [e]) == Items(es) + [ItemOf(e)]
    ensures Stream(Items(es + [e])) == Stream(Items(es)) + (Frame(Name(e.path)) + Frame(e.kind.data))
  {
    assert Items(es + [e]) == Items(es) + [ItemOf(e)];
    StreamAppend(Items(es), ItemOf(e));
  }

  /** The digest loop over a walk in whatever order the file system lists it. */
  method ContentManifest(walk: seq<Entry>, isDirectory: bool, excludeBuild: bool)
    returns (r: Result<Snapshot, Error>)
    ensures !isDirectory ==> r == Ok(Unknown)
    ensures isDirectory ==>
      var kept := Kept(Sort(walk, EntryKey), excludeBuild);
      r == if AllFiles(kept) then Ok(Observed(Stream(Items(kept)), Items(kept))) else Err(SymbolicLink)
  {
    if !isDirectory {
      return Ok(Unknown);
    }
    var sorted := Sort(walk, EntryKey);
    var digest: Bytes := [];
    var files: seq<Item> := [];
    ghost var kept: seq<Entry> := [];
    for k := 0 to |sorted|
      invariant kept == Kept(sorted[..k], excludeBuild) && AllFiles(kept)
      invariant files == Items(kept) && digest == Stream(files)
    {
      KeptStep(sorted, k, excludeBuild);
      var e := sorted[k];
      if !Skipped(e, excludeBuild) {
        if e.kind.Escaping? {
          return Err(SymbolicLink);
        }
        FedStep(kept, e);
        kept := kept + [e];
        var name := Name(e.path);
        digest := digest + (Frame(name) + Frame(e.kind.data));
        files := files + [Item(name, e.kind.data)];
      }
    }
    assert sorted[..|sorted|] == sorted;
    r := Ok(Observed(digest, files));
  }

  // ---------------------------------------------------------------- what the stream identifies

  /** A walk lists each path once, and every file can be framed. */
  ghost predicate IsWalk(walk: seq<Entry>) {
    && (forall i :: 0 <= i < |walk| ==> IsPath(walk[i].path))
    && (forall i, j :: 0 <= i < j < |walk| ==> walk[i].path != walk[j].path)
    && (forall i :: 0 <= i < |walk| && walk[i].kind.File? ==> Framable(Name(walk[i].path)) && Framable(walk[i].kind.data))
  }

  /** The files under a root, as a map from path to bytes. */
  ghost predicate Holds(walk: seq<Entry>, excludeBuild: bool, e: Entry) { e in walk && !Skipped(e, excludeBuild) }

  lemma {:induction false} InKept(es: seq<Entry>, excludeBuild: bool, e: Entry)
    ensures e in Kept(es, excludeBuild) <==> Holds(es, excludeBuild, e)
  {
    if es != [] {
      InKept(es[1..], excludeBuild, e);
      assert es == [es[0]] + es[1..];
    }
  }

  lemma PathKeysDistinct(p: Path, q: Path)
    requires IsPath(p) && IsPath(q)
    ensures PathKey(p) == PathKey(q) ==> p == q
    ensures Name(p) == Name(q) ==> p == q
  {
    JoinedForms(p);
    JoinedForms(q);
    if PathKey(p) == PathKey(q) { JoinInjective(p, q, -1); }
    if Name(p) == Name(q) { JoinInjective(p, q, 0x2F); }
  }

  lemma WalkSorted(walk: seq<Entry>)
    requires IsWalk(walk)
    ensures StrictlySorted(Sort(walk, EntryKey), EntryKey)
    ensures forall e :: e in Sort(walk, EntryKey) <==> e in walk
  {
    forall i, j | 0 <= i < j < |walk| ensures EntryKey(walk[i]) != EntryKey(walk[j]) {
      PathKeysDistinct(walk[i].path, walk[j].path);
    }
    SortStrict(walk, EntryKey);
    SortPermutes(walk, EntryKey);
  }

  lemma {:induction false} KeptStrict(es: seq<Entry>, excludeBuild: bool)
    requires StrictlySorted(es, EntryKey)
    ensures StrictlySorted(Kept(es, excludeBuild), EntryKey)
  {
    if es != [] {
      KeptStrict(es[1..], excludeBuild);
      var r, rest := Kept(es, excludeBuild), Kept(es[1..], excludeBuild);
      if !Skipped(es[0], excludeBuild) {
        forall i, j | 0 <= i < j < |r| ensures Less(EntryKey(r[i]), EntryKey(r[j])) {
          if i == 0 {
            assert r[j] == rest[j - 1] && r[j] in rest;
            InKept(es[1..], excludeBuild, r[j]);
            var k :| 0 <= k < |es[1..]| && es[1..][k] == r[j];
            assert Less(EntryKey(es[0]), EntryKey(es[k + 1]));
          } else {
            assert r[i] == rest[i - 1] && r[j] == rest[j - 1];
          }
        }
      }
    }
  }

  lemma KeptWalk(walk: seq<Entry>, excludeBuild: bool)
    requires IsWalk(walk)
    ensures var kept := Kept(Sort(walk, EntryKey), excludeBuild);
            && StrictlySorted(kept, EntryKey)
            && (forall e :: e in kept <==> Holds(walk, excludeBuild, e))
            && (AllFiles(kept) ==> AllFramable(Items(kept)))
  {
    var kept := Kept(Sort(walk, EntryKey), excludeBuild);
    WalkSorted(walk);
    KeptStrict(Sort(walk, EntryKey), excludeBuild);
    forall e ensures e in kept <==> Holds(walk, excludeBuild, e) { InKept(Sort(walk, EntryKey), excludeBuild, e); }
    if AllFiles(kept) {
      forall i | 0 <= i < |kept| ensures Framable(Items(kept)[i].name) && Framable(Items(kept)[i].data) {
        assert kept[i] in kept && kept[i] in walk;
      }
    }
  }

  /** The stream is the same exactly when the trees hold the same bytes under the same paths,
      whatever order the two walks list them in and whatever is skipped. */
  lemma StreamIdentifiesTree(v: seq<Entry>, w: seq<Entry>, excludeBuild: bool)
    requires IsWalk(v) && IsWalk(w)
    requires AllFiles(Kept(Sort(v, EntryKey), excludeBuild)) && AllFiles(Kept(Sort(w, EntryKey), excludeBuild))
    ensures Stream(Items(Kept(Sort(v, EntryKey), excludeBuild))) == Stream(Items(Kept(Sort(w, EntryKey), excludeBuild)))
      <==> forall e :: Holds(v, excludeBuild, e) <==> Holds(w, excludeBuild, e)
  {
    var a, b := Kept(Sort(v, EntryKey), excludeBuild), Kept(Sort(w, EntryKey), excludeBuild);
    KeptWalk(v, excludeBuild);
    KeptWalk(w, excludeBuild);
    DecodeStream(Items(a));
    DecodeStream(Items(b));
    if Stream(Items(a)) == Stream(Items(b)) {
      ItemsInjective(v, w, a, b);
    }
    if forall e :: Holds(v, excludeBuild, e) <==> Holds(w, excludeBuild, e) {
      StrictlySortedUnique(a, b, EntryKey);
    }
  }

  lemma ItemsInjective(v: seq<Entry>, w: seq<Entry>, a: seq<Entry>, b: seq<Entry>)
    requires IsWalk(v) && IsWalk(w) && AllFiles(a) && AllFiles(b)
    requires forall e :: e in a ==> e in v
    requires forall e :: e in b ==> e in w
    requires Items(a) == Items(b)
    ensures a == b
  {
    assert |a| == |Items(a)| == |b|;
    forall i | 0 <= i < |a| ensures a[i] == b[i] {
      assert Items(a)[i] == Items(b)[i];
      assert a[i] in v && b[i] in w;
      PathKeysDistinct(a[i].path, b[i].path);
    }
  }

  // ---------------------------------------------------------------- untracked files

  /** `raw.split(b"\0")` without the empty pieces. */
  function Pieces(raw: Bytes, current: Bytes): seq<Bytes> {
    if raw == [] then (if current == [] then [] else [current])
    else if raw[0] == 0 then (if current == [] then [] else [current]) + Pieces(raw[1..], [])
    else Pieces(raw[1..], current + [raw[0]])
  }

  function NameKey(n: Bytes): Key { n }

  /** What reading one untracked name gives; undecodable names and read errors are alike. */
  datatype Look = Unreadable | Outside | Contents(data: Bytes)

  function UntrackedItems(names: seq<Bytes>, look: Bytes -> Look): (r: seq<Item>)
    requires forall i :: 0 <= i < |names| ==> look(names[i]).Contents?
    ensures |r| == |names| && forall i :: 0 <= i < |r| ==> r[i] == Item(names[i], look(names[i]).data)
  {
    seq(|names|, i requires 0 <= i < |names| => Item(names[i], look(names[i]).data))
  }

  datatype Untracked = NotObserved | Counted(fed: Bytes, count: nat)

  /** The first name that gives no contents, the number of names when there is none. */
  function FirstBad(names: seq<Bytes>, look: Bytes -> Look): (k: nat)
    ensures k <= |names|
    ensures forall i :: 0 <= i < k ==> look(names[i]).Contents?
    ensures k < |names| ==> !look(names[k]).Contents?
  {
    if names == [] || !look(names[0]).Contents? then 0 else 1 + FirstBad(names[1..], look)
  }

  lemma UntrackedStep(names: seq<Bytes>, look: Bytes -> Look, k: nat)
    requires k < FirstBad(names, look)
    ensures Stream(UntrackedItems(names[..k + 1], look))
         == Stream(UntrackedItems(names[..k], look)) + (Frame(names[k]) + Frame(look(names[k]).data))
  {
    var x := Item(names[k], look(names[k]).data);
    assert UntrackedItems(names[..k + 1], look) == UntrackedItems(names[..k], look) + [x];
    StreamAppend(UntrackedItems(names[..k], look), x);
  }

  /** The untracked half of `git_manifest`: the first failure decides how it ends. */
  method UntrackedManifest(raw: Bytes, look: Bytes -> Look) returns (r: Result<Untracked, Error>)
    ensures var names := Sort(Pieces(raw, []), NameKey);
      var bad := FirstBad(names, look);
      r == if bad == |names| then Ok(Counted(Stream(UntrackedItems(names, look)), |names|))
           else if look(names[bad]).Outside? then Err(SymbolicLink)
           else Ok(NotObserved)
  {
    var names := Sort(Pieces(raw, []), NameKey);
    var digest: Bytes := [];
    var count := 0;
    for k := 0 to |names|
      invariant count == k <= FirstBad(names, look)
      invariant digest == Stream(UntrackedItems(names[..k], look))
    {
      match look(names[k])
      case Unreadable => return Ok(NotObserved);
      case Outside => return Err(SymbolicLink);
      case Contents(data) =>
        UntrackedStep(names, look, k);
        digest := digest + (Frame(names[k]) + Frame(data));
        count := count + 1;
    }
    assert names[..|names|] == names;
    r := Ok(Counted(digest, count));
  }

  /** Two observations that fed the digest the same bytes saw the same names with the same contents. */
  lemma UntrackedIdentifies(names: seq<Bytes>, look: Bytes -> Look, names': seq<Bytes>, look': Bytes -> Look)
    requires FirstBad(names, look) == |names| && FirstBad(names', look') == |names'|
    requires AllFramable(UntrackedItems(names, look)) && AllFramable(UntrackedItems(names', look'))
    requires Stream(UntrackedItems(names, look)) == Stream(UntrackedItems(names', look'))
    ensures names == names' && forall i :: 0 <= i < |names| ==> look(names[i]) == look'(names[i])
  {
    var items, items' := UntrackedItems(names, look), UntrackedItems(names', look');
    DecodeStream(items);
    DecodeStream(items');
    assert |names| == |items| == |names'|;
    forall i | 0 <= i < |names| ensures names[i] == names'[i] && look(names[i]) == look'(names[i]) {
      assert items[i] == items'[i];
    }
  }
}
