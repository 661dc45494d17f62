/** Package totals of the coverage matrix, and the percentage of a group of files. */
module CoverageMatrix {
  import opened Wrappers
  import opened PyStrings

  datatype Counts = Counts(covered: nat, statements: nat, branchCovered: nat, branches: nat)

  function Add(a: Counts, b: Counts): Counts {
    Counts(a.covered + b.covered, a.statements + b.statements, a.branchCovered + b.branchCovered, a.branches + b.branches)
  }

  const ZERO: Counts := Counts(0, 0, 0, 0)

  datatype FileData = FileData(name: string, counts: Counts)

  /** A row of the matrix; a package's row names itself as its package. */
  datatype Row = Row(name: string, package: string, counts: Counts)

  const SOURCE_PREFIX: string := "src/capabledeputy/"

  function Replace(s: string, from: char, to: char): (r: string)
    ensures |r| == |s| && forall i :: 0 <= i < |r| ==> r[i] == if s[i] == from then to else s[i]
  {
    seq(|s|, i requires 0 <= i < |s| => if s[i] == from then to else s[i])
  }

  /** `_module_name`. */
  function ModuleName(file: string): Option<string> {
    var path := Replace(file, '\\', '/');
    if !(SOURCE_PREFIX <= path) || !EndsWith(path, ".py") || |path| < |SOURCE_PREFIX| + 3 then None
    else
      var rel := path[|SOURCE_PREFIX|..|path| - 3];
      if rel == "__init__" || EndsWith(rel, "/__init__") then None else Some(Replace(rel, '/', '.'))
  }

  function BeforeDot(s: string): string {
    if s == "" || s[0] == '.' then "" else [s[0]] + BeforeDot(s[1..])
  }

  /** `_package_name`. */
  function PackageName(mod: string): string { if '.' in mod then BeforeDot(mod) else "(root)" }

  /** The path with forward slashes. */
  ghost predicate Slashed(file: string, path: string) {
    |path| == |file| && forall i :: 0 <= i < |file| ==> path[i] == if file[i] == '\\' then '/' else file[i]
  }

  /** The part behind the last slash. */
  ghost predicate LastPart(rel: string, part: string) { '/' !in part && (rel == part || exists front :: rel == front + ['/'] + part) }

  ghost predicate Dotted(rel: string, mod: string) {
    |mod| == |rel| && forall i :: 0 <= i < |rel| ==> mod[i] == if rel[i] == '/' then '.' else rel[i]
  }

  /** The module is the path below the source directory without its ending, dots for slashes; packages themselves have
      none. */
  lemma ModuleIff(file: string, mod: string)
    ensures ModuleName(file) == Some(mod) <==>
      exists rel :: Slashed(file, "src/capabledeputy/" + rel + ".py") && !LastPart(rel, "__init__") && Dotted(rel, mod)
  {
    var path := Replace(file, '\\', '/');
    forall rel ensures Slashed(file, "src/capabledeputy/" + rel + ".py") <==> BelowSource(path, rel) { SlashedIff(file, rel); }
    if SOURCE_PREFIX <= path && EndsWith(path, ".py") && |path| >= |SOURCE_PREFIX| + 3 {
      var rel := path[|SOURCE_PREFIX|..|path| - 3];
      assert BelowSource(path, rel);
      InitIff(rel);
      assert Dotted(rel, mod) <==> mod == Replace(rel, '/', '.');
    }
  }

  ghost predicate BelowSource(path: string, rel: string) {
    && SOURCE_PREFIX <= path && EndsWith(path, ".py") && |path| >= |SOURCE_PREFIX| + 3
    && rel == path[|SOURCE_PREFIX|..|path| - 3]
  }

  lemma SlashedIff(file: string, rel: string)
    ensures Slashed(file, "src/capabledeputy/" + rel + ".py") <==> BelowSource(Replace(file, '\\', '/'), rel)
  {
    var path, whole := Replace(file, '\\', '/'), "src/capabledeputy/" + rel + ".py";
    if Slashed(file, whole) {
      assert whole == path;
      EndsWithIff(path, ".py");
      assert path == SOURCE_PREFIX + (rel + ".py");
    }
    if BelowSource(path, rel) { assert path == whole; }
  }

  lemma InitIff(rel: string)
    ensures rel == "__init__" || EndsWith(rel, "/__init__") <==> LastPart(rel, "__init__")
  {
    EndsWithIff(rel, "/__init__");
    forall front ensures front + "/__init__" == front + ['/'] + "__init__" { Slash(front); }
  }

  lemma Slash(front: string)
    ensures front + "/__init__" == front + ['/'] + "__init__"
  {
    assert "/__init__" == ['/'] + "__init__";
  }

  /** The package is what stands before the first dot; modules without one are in `(root)`. */
  lemma {:induction false} PackageIff(mod: string, package: string)
    ensures PackageName(mod) == package <==>
      if '.' in mod then '.' !in package && exists rest :: mod == package + ['.'] + rest else package == "(root)"
  {
    if '.' in mod {
      BeforeDotIs(mod);
      forall rest | '.' !in package && mod == package + ['.'] + rest ensures package == BeforeDot(mod) {
        FirstDot(mod, package, rest, BeforeDot(mod), mod[|BeforeDot(mod)| + 1..]);
      }
    }
  }

  lemma FirstDot(mod: string, a: string, b: string, c: string, d: string)
    requires mod == a + ['.'] + b == c + ['.'] + d && '.' !in a && '.' !in c
    ensures a == c
  {
    assert mod[|a|] == '.' && mod[|c|] == '.';
    assert forall k | 0 <= k < |a| :: mod[k] == a[k] && a[k] in a;
    assert forall k | 0 <= k < |c| :: mod[k] == c[k] && c[k] in c;
    assert a == mod[..|a|] && c == mod[..|c|];
  }

  lemma {:induction false} BeforeDotIs(s: string)
    ensures '.' !in BeforeDot(s)
    ensures '.' in s ==> |BeforeDot(s)| < |s| && s == BeforeDot(s) + ['.'] + s[|BeforeDot(s)| + 1..]
  {
    if s != "" && s[0] != '.' {
      BeforeDotIs(s[1..]);
      if '.' in s { DotLater(s, BeforeDot(s[1..])); }
    }
  }

  lemma DotLater(s: string, front: string)
    requires s != "" && |front| < |s[1..]| && s[1..] == front + ['.'] + s[1..][|front| + 1..]
    ensures s == ([s[0]] + front) + ['.'] + s[|[s[0]] + front| + 1..]
  {
    assert s[1..][|front| + 1..] == s[|front| + 2..];
    assert s == [s[0]] + s[1..];
  }

  function RowOf(f: FileData): Row
    requires ModuleName(f.name).Some?
  {
    Row(ModuleName(f.name).value, PackageName(ModuleName(f.name).value), f.counts)
  }

  function ModuleRows(files: seq<FileData>): seq<Row> {
    if files == [] then []
    else
      var m := ModuleName(files[0].name);
      (if m.Some? then [RowOf(files[0])] else []) + ModuleRows(files[1..])
  }

  /** Exactly the files of the source that are no package give a row, with their own four counts. */
  lemma {:induction false} RowsIff(files: seq<FileData>, row: Row)
    ensures row in ModuleRows(files) <==>
      exists f :: f in files && ModuleName(f.name) == Some(row.name) && PackageName(row.name) == row.package && f.counts == row.counts
  {
    if files != [] {
      RowsIff(files[1..], row);
      assert files == [files[0]] + files[1..];
    }
  }

  /** The package's bucket with the counts added, made when there is none. */
  function AddTo(packages: seq<Row>, name: string, counts: Counts): seq<Row> {
    if packages == [] then [Row(name, name, Add(ZERO, counts))]
    else if packages[0].name == name then [Row(name, name, Add(packages[0].counts, counts))] + packages[1..]
    else [packages[0]] + AddTo(packages[1..], name, counts)
  }

  function Total(rows: seq<Row>): Counts {
    if rows == [] then ZERO else Add(rows[0].counts, Total(rows[1..]))
  }

  /** The sum over the module rows of one package. */
  function PackageTotal(modules: seq<Row>, package: string): Counts {
    if modules == [] then ZERO
    else Add(Share(modules[0], package), PackageTotal(modules[1..], package))
  }

  function Bucket(packages: seq<Row>, name: string): Option<Counts> {
    if packages == [] then None
    else if packages[0].name == name then Some(packages[0].counts)
    else Bucket(packages[1..], name)
  }

  ghost predicate OncePerPackage(packages: seq<Row>) {
    forall i, j :: 0 <= i < j < |packages| ==> packages[i].name != packages[j].name
  }

  /** The buckets hold exactly the sums of the modules. */
  ghost predicate Sums(packages: seq<Row>, modules: seq<Row>) {
    && OncePerPackage(packages)
    && Total(packages) == Total(modules)
    && (forall p :: IsSum(packages, modules, p))
  }

  ghost predicate IsSum(packages: seq<Row>, modules: seq<Row>, p: string) {
    Bucket(packages, p) == if HasPackage(modules, p) then Some(PackageTotal(modules, p)) else None
  }

  lemma {:induction false} AddToFacts(packages: seq<Row>, name: string, counts: Counts)
    requires OncePerPackage(packages)
    ensures OncePerPackage(AddTo(packages, name, counts))
    ensures Total(AddTo(packages, name, counts)) == Add(Total(packages), counts)
    ensures forall p :: Bucket(AddTo(packages, name, counts), p) ==
              (if p == name then Some(Add(Bucket(packages, p).GetOr(ZERO), counts)) else Bucket(packages, p))
  {
    AddToOnce(packages, name, counts);
    AddToTotal(packages, name, counts);
    AddToBucket(packages, name, counts);
  }

  lemma {:induction false} AddToBucket(packages: seq<Row>, name: string, counts: Counts)
    requires OncePerPackage(packages)
    ensures forall p :: Bucket(AddTo(packages, name, counts), p) ==
              (if p == name then Some(Add(Bucket(packages, p).GetOr(ZERO), counts)) else Bucket(packages, p))
  {
    if packages != [] && packages[0].name != name { AddToBucket(packages[1..], name, counts); }
  }

  lemma {:induction false} AddToTotal(packages: seq<Row>, name: string, counts: Counts)
    ensures Total(AddTo(packages, name, counts)) == Add(Total(packages), counts)
  {
    if packages != [] && packages[0].name != name { AddToTotal(packages[1..], name, counts); }
  }

  predicate Names(packages: seq<Row>, name: string) { exists i :: 0 <= i < |packages| && packages[i].name == name }

  lemma NamesStep(packages: seq<Row>, name: string)
    requires packages != []
    ensures Names(packages, name) <==> packages[0].name == name || Names(packages[1..], name)
  {
    if i :| 0 <= i < |packages| && packages[i].name == name { if i > 0 { assert packages[1..][i - 1].name == name; } }
    if i :| 0 <= i < |packages[1..]| && packages[1..][i].name == name { assert packages[i + 1].name == name; }
  }

  lemma {:induction false} AddToNames(packages: seq<Row>, name: string, counts: Counts, p: string)
    ensures Names(AddTo(packages, name, counts), p) ==> p == name || Names(packages, p)
  {
    if packages != [] {
      NamesStep(AddTo(packages, name, counts), p);
      NamesStep(packages, p);
      if packages[0].name != name { AddToNames(packages[1..], name, counts, p); }
    }
  }

  lemma {:induction false} AddToOnce(packages: seq<Row>, name: string, counts: Counts)
    requires OncePerPackage(packages)
    ensures OncePerPackage(AddTo(packages, name, counts))
  {
    if packages != [] && packages[0].name != name {
      var rest := AddTo(packages[1..], name, counts);
      AddToOnce(packages[1..], name, counts);
      AddToNames(packages[1..], name, counts, packages[0].name);
      assert Names(packages[1..], packages[0].name) ==> false;
      forall j | 0 <= j < |rest| ensures rest[j].name != packages[0].name {
        assert Names(rest, rest[j].name);
      }
    }
  }

  lemma {:induction false} TotalAppend(rows: seq<Row>, row: Row)
    ensures Total(rows + [row]) == Add(Total(rows), row.counts)
  {
    if rows == [] {
      assert rows + [row] == [row];
    } else {
      TotalAppend(rows[1..], row);
      assert (rows + [row])[1..] == rows[1..] + [row];
    }
  }

  /** What a module row adds to a package. */
  function Share(row: Row, package: string): Counts { if row.package == package then row.counts else ZERO }

  lemma AddAssociates(a: Counts, b: Counts, c: Counts)
    ensures Add(a, Add(b, c)) == Add(Add(a, b), c)
  {
  }

  lemma AddZero(a: Counts)
    ensures Add(a, ZERO) == a && Add(ZERO, a) == a
  {
  }

  lemma {:induction false} PackageTotalAppend(modules: seq<Row>, row: Row, package: string)
    ensures PackageTotal(modules + [row], package) == Add(PackageTotal(modules, package), Share(row, package))
  {
    if modules == [] {
      assert modules + [row] == [row];
      assert [row][1..] == [];
      AddZero(Share(row, package));
    } else {
      PackageTotalAppend(modules[1..], row, package);
      assert (modules + [row])[1..] == modules[1..] + [row];
      AddAssociates(Share(modules[0], package), PackageTotal(modules[1..], package), Share(row, package));
    }
  }

  predicate HasPackage(modules: seq<Row>, p: string) {
    modules != [] && (modules[0].package == p || HasPackage(modules[1..], p))
  }

  lemma {:induction false} HasPackageAppend(modules: seq<Row>, row: Row, p: string)
    ensures HasPackage(modules + [row], p) <==> HasPackage(modules, p) || row.package == p
  {
    if modules == [] {
      assert modules + [row] == [row];
    } else {
      HasPackageAppend(modules[1..], row, p);
      assert (modules + [row])[1..] == modules[1..] + [row];
    }
  }

  lemma SumsStep(packages: seq<Row>, modules: seq<Row>, row: Row)
    requires Sums(packages, modules)
    ensures Sums(AddTo(packages, row.package, row.counts), modules + [row])
  {
    AddToFacts(packages, row.package, row.counts);
    TotalAppend(modules, row);
    forall p ensures IsSum(AddTo(packages, row.package, row.counts), modules + [row], p) {
      SumStep(packages, modules, row, p);
    }
  }

  lemma SumStep(packages: seq<Row>, modules: seq<Row>, row: Row, p: string)
    requires OncePerPackage(packages) && IsSum(packages, modules, p)
    ensures IsSum(AddTo(packages, row.package, row.counts), modules + [row], p)
  {
    BucketAt(packages, row, p);
    PackageTotalAppend(modules, row, p);
    HasPackageAppend(modules, row, p);
    if !HasPackage(modules, p) { NothingOf(modules, p); }
    BucketStep(Bucket(packages, p), PackageTotal(modules, p), HasPackage(modules, p), row, p);
  }

  lemma BucketAt(packages: seq<Row>, row: Row, p: string)
    requires OncePerPackage(packages)
    ensures Bucket(AddTo(packages, row.package, row.counts), p) ==
      if p == row.package then Some(Add(Bucket(packages, p).GetOr(ZERO), row.counts)) else Bucket(packages, p)
  {
    AddToBucket(packages, row.package, row.counts);
  }

  lemma BucketStep(bucket: Option<Counts>, total: Counts, present: bool, row: Row, p: string)
    requires bucket == if present then Some(total) else None
    requires !present ==> total == ZERO
    ensures (if p == row.package then Some(Add(bucket.GetOr(ZERO), row.counts)) else bucket)
         == (if present || row.package == p then Some(Add(total, Share(row, p))) else None)
  {
    AddZero(total);
  }

  lemma {:induction false} NothingOf(modules: seq<Row>, p: string)
    requires !HasPackage(modules, p)
    ensures PackageTotal(modules, p) == ZERO
  {
    if modules != [] {
      NothingOf(modules[1..], p);
      AddZero(ZERO);
    }
  }

  lemma {:induction false} ModuleRowsAppend(files: seq<FileData>, f: FileData)
    ensures ModuleRows(files + [f]) ==
      ModuleRows(files) + if ModuleName(f.name).Some? then [RowOf(f)] else []
  {
    if files == [] {
      assert files + [f] == [f];
    } else {
      ModuleRowsAppend(files[1..], f);
      assert (files + [f])[1..] == files[1..] + [f];
    }
  }

  /** The accumulation loop of `collect_rows`: every package is the sum of its modules in all four
      fields, no package is missing or made up, and the grand totals are conserved. */
  method CollectRows(files: seq<FileData>) returns (packages: seq<Row>, modules: seq<Row>)
    ensures modules == ModuleRows(files)
    ensures Sums(packages, modules)
  {
    packages, modules := [], [];
    for k := 0 to |files|
      invariant modules == ModuleRows(files[..k])
      invariant Sums(packages, modules)
    {
      assert files[..k + 1] == files[..k] + [files[k]];
      ModuleRowsAppend(files[..k], files[k]);
      var m := ModuleName(files[k].name);
      if m.Some? {
        var row := RowOf(files[k]);
        SumsStep(packages, modules, row);
        modules := modules + [row];
        packages := AddTo(packages, row.package, row.counts);
      }
    }
    assert files[..|files|] == files;
  }

  // ---------------------------------------------------------------- a group's percentage

  /** `_metric_for_patterns` over the matched files: two sums. */
  method SumFiles(files: seq<Counts>) returns (covered: nat, statements: nat)
    ensures covered == Covered(files) && statements == Statements(files)
  {
    covered, statements := 0, 0;
    for k := 0 to |files|
      invariant covered + Covered(files[k..]) == Covered(files)
      invariant statements + Statements(files[k..]) == Statements(files)
    {
      assert files[k..][1..] == files[k + 1..];
      covered := covered + files[k].covered;
      statements := statements + files[k].statements;
    }
  }

  function Covered(files: seq<Counts>): nat {
    if files == [] then 0 else files[0].covered + Covered(files[1..])
  }

  function Statements(files: seq<Counts>): nat {
    if files == [] then 0 else files[0].statements + Statements(files[1..])
  }

  function Percent(covered: nat, statements: nat): real {
    if statements == 0 then 100.0 else covered as real / statements as real * 100.0
  }

  lemma PercentBounds(covered: nat, statements: nat, bound: real)
    requires statements > 0
    ensures Percent(covered, statements) >= bound <==> 100.0 * covered as real >= bound * statements as real
    ensures Percent(covered, statements) <= bound <==> 100.0 * covered as real <= bound * statements as real
  {
    var c, s := covered as real, statements as real;
    var q := c / s;
    assert q * s == c;
    assert (q * 100.0) * s == 100.0 * c;
    if q * 100.0 >= bound { Scale(bound, q * 100.0, s); } else { StrictScale(q * 100.0, bound, s); }
    if q * 100.0 <= bound { Scale(q * 100.0, bound, s); } else { StrictScale(bound, q * 100.0, s); }
  }

  lemma Scale(x: real, y: real, s: real)
    requires x <= y && s > 0.0
    ensures x * s <= y * s
  {
  }

  lemma StrictScale(x: real, y: real, s: real)
    requires x < y && s > 0.0
    ensures x * s < y * s
  {
  }

  /** Each file with statements has at least (at most) this percentage; a file without statements covers nothing. */
  ghost predicate AllAtLeast(files: seq<Counts>, bound: real) {
    forall i :: 0 <= i < |files| && files[i].statements > 0 ==> Percent(files[i].covered, files[i].statements) >= bound
  }

  ghost predicate AllAtMost(files: seq<Counts>, bound: real) {
    forall i :: 0 <= i < |files| && files[i].statements > 0 ==> Percent(files[i].covered, files[i].statements) <= bound
  }

  ghost predicate EmptyCoversNothing(files: seq<Counts>) {
    forall i :: 0 <= i < |files| && files[i].statements == 0 ==> files[i].covered == 0
  }

  lemma FileBounds(f: Counts, low: real, high: real)
    requires f.statements > 0 ==> low <= Percent(f.covered, f.statements) <= high
    requires f.statements == 0 ==> f.covered == 0
    ensures Bounded(f.covered as real, f.statements as real, low, high)
  {
    if f.statements > 0 {
      PercentBounds(f.covered, f.statements, low);
      PercentBounds(f.covered, f.statements, high);
    }
  }

  ghost predicate Bounded(c: real, s: real, low: real, high: real) { low * s <= 100.0 * c <= high * s }

  lemma BoundsTail(files: seq<Counts>, low: real, high: real)
    requires files != [] && AllAtLeast(files, low) && AllAtMost(files, high) && EmptyCoversNothing(files)
    ensures AllAtLeast(files[1..], low) && AllAtMost(files[1..], high) && EmptyCoversNothing(files[1..])
    ensures Bounded(files[0].covered as real, files[0].statements as real, low, high)
  {
    assert forall i | 0 <= i < |files[1..]| :: files[1..][i] == files[i + 1];
    FileBounds(files[0], low, high);
  }

  lemma {:induction false} SumsBounded(files: seq<Counts>, low: real, high: real)
    requires AllAtLeast(files, low) && AllAtMost(files, high) && EmptyCoversNothing(files)
    ensures Bounded(Covered(files) as real, Statements(files) as real, low, high)
  {
    if files != [] {
      BoundsTail(files, low, high);
      SumsBounded(files[1..], low, high);
      CastSum(files[0].statements, Statements(files[1..]));
      CastSum(files[0].covered, Covered(files[1..]));
      AddBounds(low, high, files[0].statements as real, Statements(files[1..]) as real,
                files[0].covered as real, Covered(files[1..]) as real);
    }
  }

  lemma CastSum(a: nat, b: nat)
    ensures (a + b) as real == a as real + b as real
  {
  }

  lemma AddBounds(low: real, high: real, s: real, t: real, c: real, d: real)
    requires Bounded(c, s, low, high) && Bounded(d, t, low, high)
    ensures Bounded(c + d, s + t, low, high)
  {
    assert low * (s + t) == low * s + low * t;
    assert high * (s + t) == high * s + high * t;
  }

  lemma PercentEmpty(covered: nat)
    ensures Percent(covered, 0) == 100.0
  {
  }

  lemma BoundedPercent(covered: nat, statements: nat, low: real, high: real)
    requires statements > 0 && Bounded(covered as real, statements as real, low, high)
    ensures low <= Percent(covered, statements) <= high
  {
    PercentBounds(covered, statements, low);
    PercentBounds(covered, statements, high);
  }

  /** A group's percentage lies between the smallest and the largest of its files with statements; without any
      statements it counts as covered. */
  lemma GroupBetweenFiles(files: seq<Counts>, low: real, high: real)
    requires AllAtLeast(files, low) && AllAtMost(files, high) && EmptyCoversNothing(files)
    ensures Statements(files) > 0 ==> low <= Percent(Covered(files), Statements(files)) <= high
    ensures Statements(files) == 0 ==> Percent(Covered(files), Statements(files)) == 100.0
  {
    PercentEmpty(Covered(files));
    if Statements(files) > 0 {
      SumsBounded(files, low, high);
      BoundedPercent(Covered(files), Statements(files), low, high);
    }
  }
}
