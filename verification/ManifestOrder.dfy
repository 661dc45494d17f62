/** Which files a snapshot lists, and in which order. */
module ManifestOrder {
  import opened Wrappers
  import opened Sorting
  import opened Manifest

  // ---------------------------------------------------------------- the order of paths

  lemma {:induction false} LessPrefix(a: Key, b: Key, c: Key)
    ensures Less(a + b, a + c) <==> Less(b, c)
  {
    if a == [] {
      assert a + b == b && a + c == c;
    } else {
      LessPrefix(a[1..], b, c);
      assert (a + b)[1..] == a[1..] + b && (a + c)[1..] == a[1..] + c;
    }
  }

  /** Nothing, or something that starts with the separator below every byte. */
  predicate Behind(x: Key) { x == [] || x[0] == -1 }

  lemma {:induction false} LessParts(a: Bytes, x: Key, b: Bytes, y: Key)
    requires a != b && Behind(x) && Behind(y)
    ensures Less(a + x, b + y) <==> Less(a, b)
  {
    if a == [] {
      assert a + x == x && (b + y)[0] == b[0];
    } else if b == [] {
      assert b + y == y && (a + x)[0] == a[0];
    } else {
      assert (a + x)[0] == a[0] && (b + y)[0] == b[0];
      assert (a + x)[1..] == a[1..] + x && (b + y)[1..] == b[1..] + y;
      assert a == [a[0]] + a[1..] && b == [b[0]] + b[1..];
      if a[0] == b[0] { LessParts(a[1..], x, b[1..], y); }
    }
  }

  /** The paths agree in the first k parts, where the first path ends or has the lesser part. */
  ghost predicate BeforeAt(p: Path, q: Path, k: nat) {
    k <= |p| && k < |q| && p[..k] == q[..k] && (k == |p| || Less(p[k], q[k]))
  }

  ghost predicate Before(p: Path, q: Path) { exists k: nat :: BeforeAt(p, q, k) }

  /** What follows the first part in the key. */
  function Follows(p: Path): Key
    requires p != []
  {
    if |p| == 1 then [] else [-1] + PathKey(p[1..])
  }

  lemma KeySplits(p: Path)
    requires p != []
    ensures PathKey(p) == p[0] + Follows(p)
  {
    if |p| > 1 { assert p[0] + [-1] + PathKey(p[1..]) == p[0] + ([-1] + PathKey(p[1..])); }
  }

  lemma FirstPartDecides(p: Path, q: Path)
    requires p != [] && q != [] && p[0] != q[0]
    ensures Before(p, q) <==> Less(p[0], q[0])
  {
    if Less(p[0], q[0]) { assert BeforeAt(p, q, 0); }
    if k: nat :| BeforeAt(p, q, k) {
      if k > 0 { SameHead(p, q, k); }
    }
  }

  lemma TailDecides(p: Path, q: Path)
    requires p != [] && q != [] && p[0] == q[0]
    ensures Before(p, q) <==> Before(p[1..], q[1..])
  {
    if k: nat :| BeforeAt(p[1..], q[1..], k) {
      assert p[..k + 1] == [p[0]] + p[1..][..k] && q[..k + 1] == [q[0]] + q[1..][..k];
      assert BeforeAt(p, q, k + 1);
    }
    if k: nat :| BeforeAt(p, q, k) {
      if k == 0 { LessIrreflexive(p[0]); }
      assert p[1..][..k - 1] == p[..k][1..] && q[1..][..k - 1] == q[..k][1..];
      assert BeforeAt(p[1..], q[1..], k - 1);
    }
  }

  /** Paths are ordered part by part, whatever separates them: `a/b` before `a.b`, although `.` comes before `/`. */
  lemma {:induction false} PathOrder(p: Path, q: Path)
    requires p != [] && q != []
    ensures Less(PathKey(p), PathKey(q)) <==> Before(p, q)
  {
    KeySplits(p);
    KeySplits(q);
    if p[0] != q[0] {
      LessParts(p[0], Follows(p), q[0], Follows(q));
      FirstPartDecides(p, q);
    } else {
      LessPrefix(p[0], Follows(p), Follows(q));
      TailDecides(p, q);
      if |p| > 1 && |q| > 1 {
        LessPrefix([-1], PathKey(p[1..]), PathKey(q[1..]));
        PathOrder(p[1..], q[1..]);
      } else if |p| == 1 {
        assert |q| > 1 ==> BeforeAt(p[1..], q[1..], 0);
        assert p[1..] == [];
      } else {
        assert forall k: nat :: !BeforeAt(p[1..], q[1..], k);
      }
    }
  }

  // ---------------------------------------------------------------- what is listed

  /** The bytes spell the text. */
  predicate Spells(part: Bytes, s: string) { |part| == |s| && forall i :: 0 <= i < |s| ==> part[i] == s[i] as int }

  /** The entry lies in or is something called `.build`. */
  ghost predicate InBuild(e: Entry) { exists part :: part in e.path && Spells(part, ".build") }

  lemma InBuildIff(e: Entry)
    ensures InBuild(e) <==> BUILD in e.path
  {
    forall part ensures Spells(part, ".build") <==> part == BUILD {
      if Spells(part, ".build") { assert part == BUILD; }
    }
  }

  /** A snapshot fails exactly if some entry that is not left out escapes the root; otherwise it lists exactly the files
      that are not left out, each by its path and its bytes, in the order of their paths. */
  lemma ListedExactly(walk: seq<Entry>, excludeBuild: bool)
    requires IsWalk(walk)
    ensures var kept := Kept(Sort(walk, EntryKey), excludeBuild);
            && (AllFiles(kept) <==> !exists e :: e in walk && e.kind.Escaping? && !(excludeBuild && InBuild(e)))
            && (forall e :: e in kept <==> e in walk && !e.kind.Directory? && !(excludeBuild && InBuild(e)))
            && (forall i, j :: 0 <= i < j < |kept| ==> Before(kept[i].path, kept[j].path))
            && (AllFiles(kept) ==> forall i :: 0 <= i < |kept| ==>
                  Items(kept)[i].name == Join(kept[i].path, '/' as int) && Items(kept)[i].data == kept[i].kind.data)
  {
    var kept := Kept(Sort(walk, EntryKey), excludeBuild);
    KeptWalk(walk, excludeBuild);
    forall e ensures InBuild(e) <==> BUILD in e.path { InBuildIff(e); }
    forall e ensures e in kept <==> e in walk && !e.kind.Directory? && !(excludeBuild && InBuild(e)) {
      assert e in kept <==> Holds(walk, excludeBuild, e);
    }
    forall i, j | 0 <= i < j < |kept| ensures Before(kept[i].path, kept[j].path) {
      assert kept[i] in walk && kept[j] in walk;
      PathOrder(kept[i].path, kept[j].path);
    }
    FilesIff(kept);
    if AllFiles(kept) { forall i | 0 <= i < |kept| ensures Items(kept)[i].name == Join(kept[i].path, 0x2F) { JoinedForms(kept[i].path); } }
  }

  /** What is fed of a file: the name, then the contents, each behind its length in eight bytes, the last one lowest. */
  lemma FramesShape(x: Item)
    requires Framable(x.name) && Framable(x.data)
    ensures var fed := Stream([x]);
            var n := |x.name|;
            && |fed| == 8 + n + 8 + |x.data|
            && Value(fed[..8]) == n && fed[8..8 + n] == x.name
            && Value(fed[8 + n..16 + n]) == |x.data| && fed[16 + n..] == x.data
    ensures |x.name| < 256 ==> Stream([x])[..8] == [0, 0, 0, 0, 0, 0, 0, |x.name|]
  {
    var rest := Frame(x.data);
    StreamCons(x, []);
    assert [x] + [] == [x] && Frame(x.data) + Stream([]) == rest;
    FrameShape(x.name, rest);
    FrameShape(x.data, []);
    assert rest + [] == rest;
    var fed := Stream([x]);
    assert fed[8 + |x.name|..] == rest;
    assert fed[8 + |x.name|..16 + |x.name|] == rest[..8] && fed[16 + |x.name|..] == rest[8..];
    if |x.name| < 256 { ShortLength(|x.name|); }
  }

  lemma FrameShape(data: Bytes, rest: Bytes)
    requires Framable(data)
    ensures var s := Frame(data) + rest;
            && |s| == 8 + |data| + |rest| && s[..8] == BigEndian(|data|, 8) && Value(s[..8]) == |data|
            && s[8..8 + |data|] == data && s[8 + |data|..] == rest
  {
    ValueOfBigEndian(|data|, 8);
    assert (Frame(data) + rest)[..8] == BigEndian(|data|, 8);
  }

  lemma {:induction false} ZeroLength(k: nat)
    ensures BigEndian(0, k) == seq(k, i => 0)
  {
    if k > 0 {
      ZeroLength(k - 1);
      assert seq(k - 1, i => 0) + [0] == seq(k, i => 0);
    }
  }

  lemma ShortLength(n: nat)
    requires n < 256
    ensures BigEndian(n, 8) == [0, 0, 0, 0, 0, 0, 0, n]
  {
    ZeroLength(7);
    assert BigEndian(n, 8) == BigEndian(0, 7) + [n];
  }

  lemma FilesIff(es: seq<Entry>)
    ensures AllFiles(es) <==> forall e :: e in es ==> e.kind.File?
  {
    if AllFiles(es) { forall e | e in es ensures e.kind.File? { var i :| 0 <= i < |es| && es[i] == e; } }
  }

  // ---------------------------------------------------------------- untracked names

  /** What git prints: each name with a zero byte behind it. */
  function Terminated(names: seq<Bytes>): Bytes {
    if names == [] then [] else names[0] + ([0] + Terminated(names[1..]))
  }

  lemma {:induction false} PiecesBehind(name: Bytes, current: Bytes, rest: Bytes)
    requires 0 !in name
    ensures Pieces(name + ([0] + rest), current) ==
      (if current + name == [] then [] else [current + name]) + Pieces(rest, [])
  {
    var raw := name + ([0] + rest);
    if name == [] {
      assert raw == [0] + rest && raw[1..] == rest && current + name == current;
    } else {
      assert raw[0] == name[0] && name[0] in name && raw[1..] == name[1..] + ([0] + rest);
      PiecesBehind(name[1..], current + [name[0]], rest);
      assert current + [name[0]] + name[1..] == current + name;
    }
  }

  /** Splitting what git prints gives the names back. */
  lemma {:induction false} PiecesOfTerminated(names: seq<Bytes>)
    requires forall i :: 0 <= i < |names| ==> names[i] != [] && 0 !in names[i]
    ensures Pieces(Terminated(names), []) == names
  {
    if names != [] {
      PiecesOfTerminated(names[1..]);
      PiecesBehind(names[0], [], Terminated(names[1..]));
      assert [] + names[0] == names[0] && names == [names[0]] + names[1..];
    }
  }
}
