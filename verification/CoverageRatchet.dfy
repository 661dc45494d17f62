/** The coverage ratchet: a baseline of floors that only an explicit reset lowers. */
module CoverageRatchet {
  import opened Wrappers

  /** `percent` is the percentage rounded to two places. */
  datatype Metric = Metric(name: string, percent: real, covered: nat, statements: nat, files: seq<string>)

  /** A floor left out of a hand-written baseline reads as 0. */
  datatype Entry = Entry(minPercent: real, covered: nat, statements: nat, files: seq<string>, previous: Option<real>)

  type Groups = map<string, Entry>

  const TOLERANCE: real := 1.5

  /** The dictionary of metrics, by distinct names. */
  ghost predicate IsDict(ms: seq<Metric>) { forall i, j :: 0 <= i < j < |ms| ==> ms[i].name != ms[j].name }

  predicate Measures(ms: seq<Metric>, name: string) { exists i :: 0 <= i < |ms| && ms[i].name == name }

  function EntryOf(m: Metric): Entry { Entry(m.percent, m.covered, m.statements, m.files, None) }

  predicate Falls(groups: Groups, m: Metric) { m.name in groups && m.percent < groups[m.name].minPercent }

  predicate Refused(groups: Groups, ms: seq<Metric>, allowDecrease: bool) {
    !allowDecrease && exists i :: 0 <= i < |ms| && Falls(groups, ms[i])
  }

  /** The entry an accepted update writes. */
  function Renewed(groups: Groups, m: Metric): Entry {
    if Falls(groups, m) then EntryOf(m).(previous := Some(groups[m.name].minPercent)) else EntryOf(m)
  }

  function Written(groups: Groups, ms: seq<Metric>, k: nat): Groups
    requires k <= |ms|
  {
    if k == 0 then map[] else Written(groups, ms, k - 1)[ms[k - 1].name := Renewed(groups, ms[k - 1])]
  }

  /** The baseline after an update: unchanged when refused, else exactly the measured groups. */
  function Updated(groups: Groups, ms: seq<Metric>, allowDecrease: bool): Groups {
    if Refused(groups, ms, allowDecrease) then groups else Written(groups, ms, |ms|)
  }

  predicate Passes(groups: Groups, ms: seq<Metric>) {
    && (forall i :: 0 <= i < |ms| ==> ms[i].name in groups)
    && (forall name :: name in groups ==> Measures(ms, name))
    && (forall i :: 0 <= i < |ms| && ms[i].name in groups ==> ms[i].percent + TOLERANCE >= groups[ms[i].name].minPercent)
  }

  predicate SameAt(a: Groups, b: Groups, name: string) { (name in a <==> name in b) && (name in a ==> a[name] == b[name]) }

  lemma FallsAlike(a: Groups, b: Groups, m: Metric)
    requires SameAt(a, b, m.name)
    ensures Falls(a, m) == Falls(b, m) && Renewed(a, m) == Renewed(b, m)
  {
  }

  predicate RefusedAmong(groups: Groups, ms: seq<Metric>, k: nat, allowDecrease: bool)
    requires k <= |ms|
  {
    !allowDecrease && exists i :: 0 <= i < k && Falls(groups, ms[i])
  }

  /** The copy has the entries to write for the first k metrics, and only measured groups. */
  ghost predicate RenewedUpTo(copy: Groups, groups: Groups, ms: seq<Metric>, k: nat)
    requires k <= |ms|
  {
    && (forall n :: n in copy ==> Measures(ms, n))
    && (forall i :: 0 <= i < k ==> ms[i].name in copy && copy[ms[i].name] == Renewed(groups, ms[i]))
  }

  ghost predicate UntouchedFrom(copy: Groups, groups: Groups, ms: seq<Metric>, k: nat) {
    forall i :: k <= i < |ms| ==> SameAt(copy, groups, ms[i].name)
  }

  lemma OneRenewed(copy: Groups, groups: Groups, ms: seq<Metric>, k: nat, failures: nat)
    requires IsDict(ms) && k < |ms| && UntouchedFrom(copy, groups, ms, k)
    requires failures == 0 ==> RenewedUpTo(copy, groups, ms, k)
    ensures var next := copy[ms[k].name := Renewed(copy, ms[k])];
            UntouchedFrom(next, groups, ms, k + 1) && (failures == 0 ==> RenewedUpTo(next, groups, ms, k + 1))
  {
    FallsAlike(copy, groups, ms[k]);
  }

  lemma IsWritten(copy: Groups, groups: Groups, ms: seq<Metric>)
    requires IsDict(ms)
    requires RenewedUpTo(copy, groups, ms, |ms|)
    ensures copy == Written(groups, ms, |ms|)
  {
    var written := Written(groups, ms, |ms|);
    WrittenKeys(groups, ms, |ms|);
    assert ms[..|ms|] == ms;
    forall n | n in copy ensures n in written && written[n] == copy[n] {
      var i :| 0 <= i < |ms| && ms[i].name == n;
      WrittenAt(groups, ms, |ms|, i);
    }
  }

  // ---------------------------------------------------------------- the baseline file

  class Baseline {
    var groups: Groups

    constructor (groups: Groups)
      ensures this.groups == groups
    {
      this.groups := groups;
    }

    /** The loop works on a copy from which unmeasured groups are dropped. */
    method Update(ms: seq<Metric>, allowDecrease: bool) returns (ok: bool)
      requires IsDict(ms)
      modifies this
      ensures ok == !Refused(old(groups), ms, allowDecrease)
      ensures groups == Updated(old(groups), ms, allowDecrease)
    {
      var copy: Groups := map name | name in groups && Measures(ms, name) :: groups[name];
      var failures := 0;
      for k := 0 to |ms|
        invariant groups == old(groups)
        invariant failures > 0 <==> RefusedAmong(groups, ms, k, allowDecrease)
        invariant failures == 0 ==> RenewedUpTo(copy, groups, ms, k)
        invariant UntouchedFrom(copy, groups, ms, k)
      {
        var next, failed := Round(copy, ms[k], allowDecrease);
        FallsAlike(copy, groups, ms[k]);
        if failed {
          failures := failures + 1;
        } else {
          OneRenewed(copy, groups, ms, k, failures);
          copy := copy[ms[k].name := next];
        }
      }
      if failures > 0 {
        return false;
      }
      IsWritten(copy, groups, ms);
      groups := copy;
      ok := true;
    }

    /** One measured group: refused, or the entry to write. */
    method Round(copy: Groups, m: Metric, allowDecrease: bool) returns (current: Entry, failed: bool)
      ensures failed == (!allowDecrease && Falls(copy, m))
      ensures !failed ==> current == Renewed(copy, m)
    {
      current, failed := EntryOf(m), false;
      if m.name in copy {
        var floor := copy[m.name].minPercent;
        if current.minPercent < floor && !allowDecrease {
          failed := true;
        } else if current.minPercent < floor {
          current := current.(previous := Some(floor));
        } else {
          current := current.(minPercent := if current.minPercent > floor then current.minPercent else floor);
        }
      }
    }

    method Check(ms: seq<Metric>) returns (ok: bool)
      requires IsDict(ms)
      ensures ok == Passes(groups, ms)
    {
      var failures := 0;
      if exists i :: 0 <= i < |ms| && ms[i].name !in groups {
        failures := failures + 1;
      }
      var names := groups.Keys;
      ghost var done: set<string> := {};
      while names != {}
        invariant done + names == groups.Keys && done !! names
        invariant failures > 0 <==>
          (exists i :: 0 <= i < |ms| && ms[i].name !in groups)
          || (exists n :: n in done && FailsAt(groups, ms, n))
        decreases names
      {
        var n :| n in names;
        if FailsAt(groups, ms, n) {
          failures := failures + 1;
        }
        done := done + {n};
        names := names - {n};
      }
      assert done == groups.Keys;
      PassesIff(groups, ms);
      ok := failures == 0;
    }
  }

  /** The group is not measured, or measured below its floor by more than the tolerance. */
  predicate FailsAt(groups: Groups, ms: seq<Metric>, name: string)
    requires name in groups
  {
    !Measures(ms, name)
    || exists i :: 0 <= i < |ms| && ms[i].name == name && ms[i].percent + TOLERANCE < groups[name].minPercent
  }

  lemma PassesIff(groups: Groups, ms: seq<Metric>)
    ensures Passes(groups, ms) <==>
      (forall i :: 0 <= i < |ms| ==> ms[i].name in groups) && forall n :: n in groups ==> !FailsAt(groups, ms, n)
  {
  }

  /** A check passes exactly if the baseline has the measured groups and no group is more than one and a half points
      below its floor. */
  lemma PassesExactly(groups: Groups, ms: seq<Metric>)
    ensures Passes(groups, ms) <==>
      (forall name :: name in groups <==> exists m :: m in ms && m.name == name)
      && forall m :: m in ms ==> groups[m.name].minPercent - m.percent <= 1.5
  {
    forall name ensures Measures(ms, name) <==> exists m :: m in ms && m.name == name {
      if i :| 0 <= i < |ms| && ms[i].name == name { assert ms[i] in ms; }
      if m :| m in ms && m.name == name { var i :| 0 <= i < |ms| && ms[i] == m; }
    }
    forall m | m in ms ensures m.name in groups && groups[m.name].minPercent - m.percent <= 1.5 <==>
      m.name in groups && m.percent + TOLERANCE >= groups[m.name].minPercent {}
    if forall name :: name in groups <==> exists m :: m in ms && m.name == name {
      forall i | 0 <= i < |ms| ensures ms[i].name in groups { assert ms[i] in ms; }
    }
  }

  // ---------------------------------------------------------------- floors over runs

  lemma {:induction false} WrittenKeys(groups: Groups, ms: seq<Metric>, k: nat)
    requires k <= |ms|
    ensures forall name :: name in Written(groups, ms, k) <==> Measures(ms[..k], name)
  {
    if k > 0 {
      WrittenKeys(groups, ms, k - 1);
      var now, before := ms[..k], ms[..k - 1];
      forall name ensures name in Written(groups, ms, k) <==> Measures(now, name) {
        if i :| 0 <= i < |before| && before[i].name == name { assert now[i].name == name; }
        if i :| 0 <= i < |now| && now[i].name == name { if i < k - 1 { assert before[i].name == name; } }
        if name == ms[k - 1].name { assert now[k - 1].name == name; }
      }
    }
    assert k == |ms| ==> ms[..k] == ms;
  }

  lemma {:induction false} WrittenAt(groups: Groups, ms: seq<Metric>, k: nat, i: nat)
    requires IsDict(ms) && i < k <= |ms|
    ensures ms[i].name in Written(groups, ms, k) && Written(groups, ms, k)[ms[i].name] == Renewed(groups, ms[i])
  {
    if i < k - 1 { WrittenAt(groups, ms, k - 1, i); }
  }

  /** The entry records the measured numbers and files, and the old floor if it was higher. */
  ghost predicate Records(e: Entry, m: Metric, groups: Groups) {
    && e.covered == m.covered && e.statements == m.statements && e.files == m.files
    && e.previous == if m.name in groups && groups[m.name].minPercent > m.percent then Some(groups[m.name].minPercent) else None
  }

  /** An accepted update sets each measured group's floor to what was measured, with its numbers, and keeps no other group. */
  lemma AcceptedFloors(groups: Groups, ms: seq<Metric>, allowDecrease: bool)
    requires IsDict(ms) && !Refused(groups, ms, allowDecrease)
    ensures var after := Updated(groups, ms, allowDecrease);
            && (forall name :: name in after <==> Measures(ms, name))
            && (forall i :: 0 <= i < |ms| ==> ms[i].name in after && after[ms[i].name].minPercent == ms[i].percent)
            && (forall i :: 0 <= i < |ms| ==> Records(after[ms[i].name], ms[i], groups))
  {
    WrittenKeys(groups, ms, |ms|);
    assert ms[..|ms|] == ms;
    forall i | 0 <= i < |ms|
      ensures ms[i].name in Written(groups, ms, |ms|) && Written(groups, ms, |ms|)[ms[i].name].minPercent == ms[i].percent
      ensures Records(Written(groups, ms, |ms|)[ms[i].name], ms[i], groups)
    {
      WrittenAt(groups, ms, |ms|, i);
    }
  }

  /** Without a reset a group keeps its floor or raises it, exactly if the update is refused or measures it. */
  lemma FloorKeptIff(groups: Groups, ms: seq<Metric>, name: string)
    requires IsDict(ms) && name in groups
    ensures var after := Updated(groups, ms, false);
            (name in after && after[name].minPercent >= groups[name].minPercent) <==>
            Refused(groups, ms, false) || Measures(ms, name)
  {
    if !Refused(groups, ms, false) {
      AcceptedFloors(groups, ms, false);
      if i :| 0 <= i < |ms| && ms[i].name == name { assert !Falls(groups, ms[i]); }
    }
  }

  /** Measuring nothing is accepted, and every floor is gone. */
  lemma UnmeasuredGroupLost(groups: Groups, name: string)
    requires name in groups
    ensures !Refused(groups, [], false) && name !in Updated(groups, [], false)
  {
    FloorKeptIff(groups, [], name);
  }

  function RunUpdates(groups: Groups, updates: seq<seq<Metric>>): Groups
    decreases updates
  {
    if updates == [] then groups else RunUpdates(Updated(groups, updates[0], false), updates[1..])
  }

  /** Over every run of updates without a reset, refused ones included, the floor of a group that each
      of them measures never falls. */
  lemma {:induction false} FloorsNeverFall(groups: Groups, updates: seq<seq<Metric>>, name: string)
    requires name in groups
    requires forall i :: 0 <= i < |updates| ==> IsDict(updates[i]) && Measures(updates[i], name)
    ensures name in RunUpdates(groups, updates)
    ensures RunUpdates(groups, updates)[name].minPercent >= groups[name].minPercent
    decreases updates
  {
    if updates != [] {
      assert IsDict(updates[0]) && Measures(updates[0], name);
      FloorKeptIff(groups, updates[0], name);
      FloorsNeverFall(Updated(groups, updates[0], false), updates[1..], name);
    }
  }

  lemma {:induction false} RunAppend(groups: Groups, u: seq<seq<Metric>>, v: seq<seq<Metric>>)
    ensures RunUpdates(groups, u + v) == RunUpdates(RunUpdates(groups, u), v)
    decreases u
  {
    if u == [] {
      assert u + v == v;
    } else {
      RunAppend(Updated(groups, u[0], false), u[1..], v);
      assert (u + v)[1..] == u[1..] + v;
    }
  }

  /** The tolerance does not compound: who passes at the end is within one tolerance of every floor
      the group had at any time of the run, the highest included. */
  lemma ToleranceNeverCompounds(groups: Groups, before: seq<seq<Metric>>, after: seq<seq<Metric>>, ms: seq<Metric>, i: nat)
    requires i < |ms| && IsDict(ms)
    requires ms[i].name in RunUpdates(groups, before)
    requires forall k :: 0 <= k < |after| ==> IsDict(after[k]) && Measures(after[k], ms[i].name)
    requires Passes(RunUpdates(groups, before + after), ms)
    ensures RunUpdates(groups, before)[ms[i].name].minPercent - ms[i].percent <= 1.5
  {
    RunAppend(groups, before, after);
    FloorsNeverFall(RunUpdates(groups, before), after, ms[i].name);
  }

  /** A check of the same metrics right after an accepted update passes. */
  lemma CheckAfterUpdatePasses(groups: Groups, ms: seq<Metric>, allowDecrease: bool)
    requires IsDict(ms) && !Refused(groups, ms, allowDecrease)
    ensures Passes(Updated(groups, ms, allowDecrease), ms)
  {
    AcceptedFloors(groups, ms, allowDecrease);
  }
}
