/** The resource watchdog: two running timers against the whole sample history. */
module Watchdog {
  import opened Wrappers

  datatype Sample = Sample(rssMib: real, cpuPercent: real, pressure: int)

  /** One round of the loop: the clock, and what sampling gave unless it failed. */
  datatype Reading = Reading(now: real, sample: Option<Sample>)

  datatype Reason = CriticalPressure | RssExceeded | SustainedWarning | SustainedCpu | MonitorFailed

  /** `reason_for`. */
  function ReasonFor(s: Sample, warningSeconds: real, cpuSeconds: real, limitMib: int): Option<Reason> {
    if s.pressure >= 4 then Some(CriticalPressure)
    else if s.rssMib >= limitMib as real then Some(RssExceeded)
    else if warningSeconds >= 15.0 then Some(SustainedWarning)
    else if cpuSeconds >= 30.0 then Some(SustainedCpu)
    else None
  }

  /** The source tests timers for truth: an unset one and one that reads zero are alike. */
  predicate Truthy(timer: Option<real>) { timer.Some? && timer.value != 0.0 }

  /** `(timer or now) if high else None`. */
  function NextTimer(timer: Option<real>, now: real, high: bool): Option<real> {
    if !high then None else if Truthy(timer) then timer else Some(now)
  }

  /** `now - timer if timer else 0`. */
  function Elapsed(timer: Option<real>, now: real): real { if Truthy(timer) then now - timer.value else 0.0 }

  predicate HighPressure(r: Reading) { r.sample.Some? && r.sample.value.pressure >= 2 }

  predicate HighCpu(r: Reading) { r.sample.Some? && r.sample.value.cpuPercent >= 200.0 }

  /** The timer after the first k readings. */
  function TimerAfter(rs: seq<Reading>, high: Reading -> bool, k: nat): Option<real>
    requires k <= |rs|
  {
    if k == 0 then None else NextTimer(TimerAfter(rs, high, k - 1), rs[k - 1].now, high(rs[k - 1]))
  }

  /** What reading k makes the watchdog do. */
  function ReasonAt(rs: seq<Reading>, k: nat, limitMib: int): Option<Reason>
    requires k < |rs|
  {
    match rs[k].sample
    case None => Some(MonitorFailed)
    case Some(s) =>
      ReasonFor(s, Elapsed(TimerAfter(rs, HighPressure, k + 1), rs[k].now),
                   Elapsed(TimerAfter(rs, HighCpu, k + 1), rs[k].now), limitMib)
  }

  /** The reading that stops the child; the number of readings when the child ends first. */
  function StopAt(rs: seq<Reading>, limitMib: int, from: nat): (k: nat)
    requires from <= |rs|
    ensures from <= k <= |rs|
    ensures forall j :: from <= j < k ==> ReasonAt(rs, j, limitMib) == None
    ensures k < |rs| ==> ReasonAt(rs, k, limitMib).Some?
    decreases |rs| - from
  {
    if from == |rs| || ReasonAt(rs, from, limitMib).Some? then from else StopAt(rs, limitMib, from + 1)
  }

  /** The sampling loop over the readings of one child. */
  method Watch(rs: seq<Reading>, limitMib: int) returns (rounds: nat, reason: Option<Reason>)
    ensures var stop := StopAt(rs, limitMib, 0);
            && reason == (if stop < |rs| then ReasonAt(rs, stop, limitMib) else None)
            && rounds == (if stop < |rs| then stop + 1 else |rs|)
  {
    var warningSince: Option<real>, cpuSince: Option<real> := None, None;
    rounds, reason := 0, None;
    while rounds < |rs| && reason.None?
      invariant rounds <= |rs|
      invariant reason.None? ==> StopAt(rs, limitMib, 0) == StopAt(rs, limitMib, rounds)
      invariant reason.None? ==> warningSince == TimerAfter(rs, HighPressure, rounds)
      invariant reason.None? ==> cpuSince == TimerAfter(rs, HighCpu, rounds)
      invariant reason.Some? ==> rounds > 0 && StopAt(rs, limitMib, 0) == rounds - 1 && reason == ReasonAt(rs, rounds - 1, limitMib)
      decreases |rs| - rounds
    {
      var r := rs[rounds];
      match r.sample {
        case None => reason := Some(MonitorFailed);
        case Some(s) =>
          warningSince := NextTimer(warningSince, r.now, s.pressure >= 2);
          cpuSince := NextTimer(cpuSince, r.now, s.cpuPercent >= 200.0);
          reason := ReasonFor(s, Elapsed(warningSince, r.now), Elapsed(cpuSince, r.now), limitMib);
      }
      rounds := rounds + 1;
    }
  }

  // ---------------------------------------------------------------- the timers and the history

  /** Reading i starts the unbroken run of high readings that lasts at least until reading k. */
  ghost predicate RunFrom(rs: seq<Reading>, high: Reading -> bool, i: nat, k: nat)
    requires i <= k < |rs|
  {
    (forall j :: i <= j <= k ==> high(rs[j])) && (i > 0 ==> !high(rs[i - 1]))
  }

  /** Clock readings are positive, as the source's truth tests presuppose, and do not go back. */
  ghost predicate IsClock(rs: seq<Reading>) {
    && (forall i :: 0 <= i < |rs| ==> rs[i].now > 0.0)
    && (forall i, j :: 0 <= i <= j < |rs| ==> rs[i].now <= rs[j].now)
  }

  /** The timer holds exactly the time of the first reading of the current run. */
  lemma TimerIsRunStart(rs: seq<Reading>, high: Reading -> bool, k: nat)
    requires IsClock(rs) && k < |rs|
    ensures TimerAfter(rs, high, k + 1) == None <==> !high(rs[k])
    ensures forall i: nat :: i <= k && RunFrom(rs, high, i, k) ==> TimerAfter(rs, high, k + 1) == Some(rs[i].now)
    ensures high(rs[k]) ==> exists i: nat :: i <= k && RunFrom(rs, high, i, k)
  {
    forall i: nat | i <= k && RunFrom(rs, high, i, k) ensures TimerAfter(rs, high, k + 1) == Some(rs[i].now) {
      TimerKeepsStartIff(rs, high, i, k);
    }
    if high(rs[k]) { var i := RunReachesBack(rs, high, k, k); }
  }

  /** At reading k the current run has lasted so many seconds. */
  ghost predicate Sustained(rs: seq<Reading>, high: Reading -> bool, k: nat, seconds: real)
    requires k < |rs|
  {
    exists i: nat :: i <= k && RunFrom(rs, high, i, k) && rs[k].now - rs[i].now >= seconds
  }

  /** The first reading from i on, at k at the latest, at which the clock does not read zero. */
  function FirstNonZero(rs: seq<Reading>, i: nat, k: nat): (f: nat)
    requires i <= k < |rs|
    ensures i <= f <= k
    ensures forall j :: i <= j < f ==> rs[j].now == 0.0
    ensures rs[f].now != 0.0 || f == k
    decreases k - i
  {
    if i == k || rs[i].now != 0.0 then i else FirstNonZero(rs, i + 1, k)
  }

  lemma FirstNonZeroIs(rs: seq<Reading>, i: nat, k: nat, f: nat)
    requires i <= f <= k < |rs| && (forall j :: i <= j < f ==> rs[j].now == 0.0) && (rs[f].now != 0.0 || f == k)
    ensures FirstNonZero(rs, i, k) == f
  {
  }

  /** Whatever the clock does, the timer of a run holds the first of its readings that is not zero, and zero while
      there is none. */
  lemma {:induction false} TimerIsFirstNonZero(rs: seq<Reading>, high: Reading -> bool, i: nat, k: nat)
    requires i <= k < |rs| && RunFrom(rs, high, i, k)
    ensures TimerAfter(rs, high, k + 1) == Some(rs[FirstNonZero(rs, i, k)].now)
    decreases k
  {
    assert high(rs[k]);
    if i < k {
      assert RunFrom(rs, high, i, k - 1);
      TimerIsFirstNonZero(rs, high, i, k - 1);
      var f := FirstNonZero(rs, i, k - 1);
      FirstNonZeroIs(rs, i, k, if rs[f].now != 0.0 then f else k);
    } else if k > 0 {
      assert TimerAfter(rs, high, k) == NextTimer(TimerAfter(rs, high, k - 1), rs[k - 1].now, high(rs[k - 1]));
    }
  }

  /** At reading k the current run has lasted so many seconds since the clock first did not read zero in it. */
  ghost predicate Timed(rs: seq<Reading>, high: Reading -> bool, k: nat, seconds: real)
    requires k < |rs|
  {
    exists i: nat :: i <= k && RunFrom(rs, high, i, k) && rs[k].now - rs[FirstNonZero(rs, i, k)].now >= seconds
  }

  lemma ElapsedIffTimed(rs: seq<Reading>, high: Reading -> bool, k: nat, seconds: real)
    requires k < |rs| && seconds > 0.0
    ensures Elapsed(TimerAfter(rs, high, k + 1), rs[k].now) >= seconds <==> Timed(rs, high, k, seconds)
  {
    if high(rs[k]) {
      var i := RunReachesBack(rs, high, k, k);
      TimerIsFirstNonZero(rs, high, i, k);
      RunStartsOnce(rs, high, i, k);
    } else {
      assert TimerAfter(rs, high, k + 1) == None;
    }
  }

  lemma RunStartsOnce(rs: seq<Reading>, high: Reading -> bool, i: nat, k: nat)
    requires i <= k < |rs| && RunFrom(rs, high, i, k)
    ensures forall j: nat :: j <= k && RunFrom(rs, high, j, k) ==> j == i
  {
  }

  /** Nothing of higher priority than the timers applies. */
  predicate Calm(r: Reading, limitMib: int) {
    r.sample.Some? && r.sample.value.pressure < 4 && r.sample.value.rssMib < limitMib as real
  }

  /** On every sequence of readings, whatever its clock: each sustained reason fires exactly when its timer has run
      long enough, and nothing of higher priority applies. */
  lemma TimedReasonsIff(rs: seq<Reading>, k: nat, limitMib: int)
    requires k < |rs|
    ensures ReasonAt(rs, k, limitMib) == Some(SustainedWarning) <==>
      Calm(rs[k], limitMib) && Timed(rs, HighPressure, k, 15.0)
    ensures ReasonAt(rs, k, limitMib) == Some(SustainedCpu) <==>
      Calm(rs[k], limitMib) && !Timed(rs, HighPressure, k, 15.0) && Timed(rs, HighCpu, k, 30.0)
    ensures ReasonAt(rs, k, limitMib) == None <==>
      Calm(rs[k], limitMib) && !Timed(rs, HighPressure, k, 15.0) && !Timed(rs, HighCpu, k, 30.0)
  {
    ElapsedIffTimed(rs, HighPressure, k, 15.0);
    ElapsedIffTimed(rs, HighCpu, k, 30.0);
  }

  /** On a clock that does not read zero, so in particular on a positive one, the timer has run as long as the run. */
  lemma TimedIffSustained(rs: seq<Reading>, high: Reading -> bool, k: nat, seconds: real)
    requires k < |rs| && forall i :: 0 <= i < |rs| ==> rs[i].now != 0.0
    ensures Timed(rs, high, k, seconds) <==> Sustained(rs, high, k, seconds)
  {
    forall i: nat | i <= k ensures FirstNonZero(rs, i, k) == i { FirstNonZeroIs(rs, i, k, i); }
  }

  /** Each sustained reason fires exactly when its run has lasted long enough and nothing of higher priority applies. */
  lemma SustainedReasonsIff(rs: seq<Reading>, k: nat, limitMib: int)
    requires k < |rs| && forall i :: 0 <= i < |rs| ==> rs[i].now != 0.0
    ensures ReasonAt(rs, k, limitMib) == Some(SustainedWarning) <==>
      Calm(rs[k], limitMib) && Sustained(rs, HighPressure, k, 15.0)
    ensures ReasonAt(rs, k, limitMib) == Some(SustainedCpu) <==>
      Calm(rs[k], limitMib) && !Sustained(rs, HighPressure, k, 15.0) && Sustained(rs, HighCpu, k, 30.0)
    ensures ReasonAt(rs, k, limitMib) == None <==>
      Calm(rs[k], limitMib) && !Sustained(rs, HighPressure, k, 15.0) && !Sustained(rs, HighCpu, k, 30.0)
  {
    TimedReasonsIff(rs, k, limitMib);
    TimedIffSustained(rs, HighPressure, k, 15.0);
    TimedIffSustained(rs, HighCpu, k, 30.0);
  }

  // ---------------------------------------------------------------- how soon it fires

  /** The clock does not go back, whatever it reads. */
  ghost predicate Forward(rs: seq<Reading>) { forall i, j :: 0 <= i <= j < |rs| ==> rs[i].now <= rs[j].now }

  /** Readings are at most gap seconds apart. */
  ghost predicate Gaps(rs: seq<Reading>, gap: real) {
    forall i :: 0 <= i < |rs| - 1 ==> rs[i + 1].now - rs[i].now <= gap
  }

  /** The first reading that is so many seconds after reading i comes less than one gap later than that. */
  lemma {:induction false} FirstPast(rs: seq<Reading>, i: nat, m: nat, seconds: real, gap: real) returns (f: nat)
    requires Gaps(rs, gap) && i <= m < |rs| && seconds > 0.0
    requires rs[m].now - rs[i].now >= seconds
    ensures i < f <= m && seconds <= rs[f].now - rs[i].now < seconds + gap
    decreases m
  {
    if rs[m - 1].now - rs[i].now >= seconds {
      f := FirstPast(rs, i, m - 1, seconds, gap);
    } else {
      f := m;
      assert rs[(m - 1) + 1].now - rs[m - 1].now <= gap;
    }
  }

  lemma {:induction false} RunReachesBack(rs: seq<Reading>, high: Reading -> bool, i: nat, k: nat) returns (start: nat)
    requires i <= k < |rs| && forall j :: i <= j <= k ==> high(rs[j])
    ensures start <= i && RunFrom(rs, high, start, k)
    decreases i
  {
    if i > 0 && high(rs[i - 1]) {
      start := RunReachesBack(rs, high, i - 1, k);
    } else {
      start := i;
    }
  }

  /** The two things that must not stay high. */
  datatype Watched = Pressure | Cpu

  ghost function High(w: Watched): Reading -> bool { if w.Pressure? then HighPressure else HighCpu }

  function Limit(w: Watched): real { if w.Pressure? then 15.0 else 30.0 }

  /** On any clock that does not go back: if readings i to m are all high and span the limit, and the clock does not
      read zero at i, the child has been stopped by then, and less than the limit and one gap after reading i. */
  lemma StopsInTime(rs: seq<Reading>, w: Watched, i: nat, m: nat, gap: real, limitMib: int)
    requires Forward(rs) && Gaps(rs, gap) && i <= m < |rs| && rs[i].now != 0.0
    requires forall j :: i <= j <= m ==> High(w)(rs[j])
    requires rs[m].now - rs[i].now >= Limit(w)
    ensures var stop := StopAt(rs, limitMib, 0); stop <= m && rs[stop].now - rs[i].now < Limit(w) + gap
  {
    var f := FirstPast(rs, i, m, Limit(w), gap);
    var start := RunReachesBack(rs, High(w), i, f);
    assert FirstNonZero(rs, start, f) <= i;
    assert rs[FirstNonZero(rs, start, f)].now <= rs[i].now;
    assert Timed(rs, High(w), f, Limit(w));
    TimedReasonsIff(rs, f, limitMib);
    assert ReasonAt(rs, f, limitMib) != None;
    assert StopAt(rs, limitMib, 0) <= f;
  }

  /** Warning pressure, level 2, stops the child in fifteen seconds and a gap. */
  lemma PressureStops(rs: seq<Reading>, i: nat, m: nat, gap: real, limitMib: int)
    requires Forward(rs) && Gaps(rs, gap) && i <= m < |rs| && rs[i].now != 0.0
    requires forall j :: i <= j <= m ==> rs[j].sample.Some? && rs[j].sample.value.pressure >= 2
    requires rs[m].now - rs[i].now >= 15.0
    ensures var stop := StopAt(rs, limitMib, 0); stop <= m && rs[stop].now - rs[i].now < 15.0 + gap
  {
    StopsInTime(rs, Pressure, i, m, gap, limitMib);
  }

  /** Two processors in use stop the child in thirty seconds and a gap. */
  lemma CpuStops(rs: seq<Reading>, i: nat, m: nat, gap: real, limitMib: int)
    requires Forward(rs) && Gaps(rs, gap) && i <= m < |rs| && rs[i].now != 0.0
    requires forall j :: i <= j <= m ==> rs[j].sample.Some? && rs[j].sample.value.cpuPercent >= 200.0
    requires rs[m].now - rs[i].now >= 30.0
    ensures var stop := StopAt(rs, limitMib, 0); stop <= m && rs[stop].now - rs[i].now < 30.0 + gap
  {
    StopsInTime(rs, Cpu, i, m, gap, limitMib);
  }

  /** Exactly when a reading is enough by itself, whatever came before: critical pressure, the memory limit reached, or
      no sample. */
  lemma ImmediateReasonsIff(rs: seq<Reading>, k: nat, limitMib: int)
    requires k < |rs|
    ensures var r, reason := rs[k], ReasonAt(rs, k, limitMib);
            && (reason == Some(MonitorFailed) <==> r.sample.None?)
            && (reason == Some(CriticalPressure) <==> r.sample.Some? && r.sample.value.pressure >= 4)
            && (reason == Some(RssExceeded) <==>
                  r.sample.Some? && r.sample.value.pressure < 4 && r.sample.value.rssMib >= limitMib as real)
  {
  }

  /** The child is let alone as long as every reading has a sample with less than warning pressure, less than two
      processors in use and less memory than the limit, however long that lasts and whatever the clock reads. */
  lemma QuietNeverStops(rs: seq<Reading>, limitMib: int)
    requires forall i :: 0 <= i < |rs| ==> rs[i].sample.Some?
    requires forall i :: 0 <= i < |rs| ==>
      rs[i].sample.value.pressure < 2 && rs[i].sample.value.cpuPercent < 200.0 && rs[i].sample.value.rssMib < limitMib as real
    ensures StopAt(rs, limitMib, 0) == |rs|
  {
    forall k | 0 <= k < |rs| ensures ReasonAt(rs, k, limitMib) == None {
      TimedReasonsIff(rs, k, limitMib);
      assert !HighPressure(rs[k]) && !HighCpu(rs[k]);
    }
  }

  // ---------------------------------------------------------------- clocks that read zero

  /** On any clock that does not go back the timer holds the start of the current run exactly unless the run began at
      zero and the clock has moved on since: an unset timer and one that reads zero are alike to the loop. */
  lemma TimerKeepsStartIff(rs: seq<Reading>, high: Reading -> bool, i: nat, k: nat)
    requires Forward(rs) && i <= k < |rs| && RunFrom(rs, high, i, k)
    ensures TimerAfter(rs, high, k + 1).Some?
    ensures TimerAfter(rs, high, k + 1) == Some(rs[i].now) <==> rs[i].now != 0.0 || rs[k].now == 0.0
    ensures TimerAfter(rs, high, k + 1).value >= rs[i].now
  {
    TimerIsFirstNonZero(rs, high, i, k);
    var f := FirstNonZero(rs, i, k);
    assert rs[i].now <= rs[f].now <= rs[k].now;
  }

  /** So a run is under-timed exactly when it began at zero and the clock has moved on. */
  lemma UnderTimedIff(rs: seq<Reading>, high: Reading -> bool, i: nat, k: nat)
    requires Forward(rs) && i <= k < |rs| && RunFrom(rs, high, i, k)
    ensures Elapsed(TimerAfter(rs, high, k + 1), rs[k].now) < rs[k].now - rs[i].now <==> rs[i].now == 0.0 && rs[k].now != 0.0
  {
    TimerKeepsStartIff(rs, high, i, k);
  }

  /** A run from zero to fifteen seconds, read at its ends only, does not stop the child. */
  lemma ZeroClockMisses(rs: seq<Reading>, limitMib: int)
    requires |rs| == 2 && rs[0].now == 0.0 && rs[1].now == 15.0
    requires rs[0].sample == rs[1].sample == Some(Sample(0.0, 0.0, 2)) && limitMib > 0
    ensures Sustained(rs, HighPressure, 1, 15.0) && ReasonAt(rs, 1, limitMib) == None
  {
    assert RunFrom(rs, HighPressure, 0, 1);
    assert TimerAfter(rs, HighPressure, 1) == Some(0.0) by { assert TimerAfter(rs, HighPressure, 0) == None; }
    assert TimerAfter(rs, HighCpu, 1) == None by { assert TimerAfter(rs, HighCpu, 0) == None; }
  }
}
