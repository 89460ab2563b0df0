/** Ranging with the anti-relay filter: the firmware's
    (firmware/src/uwb_manager.cpp) and the simulator's (simulator/uwb_sim.py).
    Distances are reals. */
module Uwb {
  import opened Clock

  const NEAR_CM: real := 30.0
  const MEDIUM_CM: real := 150.0
  const MAX_DELTA_CM_PER_S: real := 500.0
  const MAX_TOF_NS: nat := 50

  datatype Zone = Near | Medium | Far

  function Classify(distanceCm: real): Zone {
    if distanceCm < NEAR_CM then Near else if distanceCm < MEDIUM_CM then Medium else Far
  }

  function Abs(x: real): real {
    if x < 0.0 then -x else x
  }

  /** Moving from one distance to another in dt seconds is faster than allowed. */
  predicate TooFast(from: real, to: real, dt: real) {
    dt > 0.0 && Abs(to - from) / dt > MAX_DELTA_CM_PER_S
  }

  // ---------------------------------------------------------------------------
  // The firmware's filter

  datatype UwbSample = UwbSample(distanceCm: real, timestampMs: u32, tofNs: nat)

  datatype Tracker = Tracker(last: UwbSample, zone: Zone, hasFix: bool, relaySuspected: bool) {
    predicate Implausible(s: UwbSample) {
      || s.tofNs > MAX_TOF_NS
      || (hasFix && TooFast(last.distanceCm, s.distanceCm, Elapsed(s.timestampMs, last.timestampMs) as real / 1000.0))
    }

    function Push(s: UwbSample): (Tracker, bool) {
      if Implausible(s) then (this.(relaySuspected := true, zone := Far), false)
      else
        (Tracker(s, if relaySuspected then Far else Classify(s.distanceCm), true, relaySuspected), !relaySuspected)
    }

    function Reset(): Tracker {
      this.(hasFix := false, zone := Far, relaySuspected := false)
    }
  }

  class UwbManager {
    var last: UwbSample
    var zone: Zone
    var hasFix: bool
    var relaySuspected: bool

    ghost function View(): Tracker
      reads this
    {
      Tracker(last, zone, hasFix, relaySuspected)
    }

    constructor ()
      ensures View() == Tracker(UwbSample(0.0, 0, 0), Far, false, false)
    {
      last, zone, hasFix, relaySuspected := UwbSample(0.0, 0, 0), Far, false, false;
    }

    method PushMeasurement(sample: UwbSample) returns (accepted: bool)
      modifies this
      ensures (View(), accepted) == old(View()).Push(sample)
    {
      if sample.tofNs > MAX_TOF_NS {
        relaySuspected := true;
        zone := Far;
        return false;
      }
      if hasFix {
        var dt := Elapsed(sample.timestampMs, last.timestampMs) as real / 1000.0;
        if dt > 0.0 {
          var rate := Abs(sample.distanceCm - last.distanceCm) / dt;
          if rate > MAX_DELTA_CM_PER_S {
            relaySuspected := true;
            zone := Far;
            return false;
          }
        }
      }
      last := sample;
      hasFix := true;
      zone := if relaySuspected then Far else Classify(sample.distanceCm);
      return !relaySuspected;
    }

    method ResetSession()
      modifies this
      ensures View() == old(View()).Reset()
    {
      hasFix := false;
      zone := Far;
      relaySuspected := false;
    }
  }

  // ---------------------------------------------------------------------------
  // The simulator's filter

  datatype SimSample = SimSample(distanceCm: real, timestampS: real, tofNs: real)

  datatype Option<T> = None | Some(value: T)

  datatype Ranger = Ranger(last: Option<SimSample>, zone: Zone, relaySuspected: bool) {
    predicate Implausible(s: SimSample) {
      || s.tofNs > MAX_TOF_NS as real
      || (last.Some? && TooFast(last.value.distanceCm, s.distanceCm, s.timestampS - last.value.timestampS))
    }

    function Push(s: SimSample): (Ranger, bool) {
      if Implausible(s) then (this.(relaySuspected := true, zone := Far), false)
      else (Ranger(Some(s), if relaySuspected then Far else Classify(s.distanceCm), relaySuspected), !relaySuspected)
    }
  }

  const NEW_RANGER: Ranger := Ranger(None, Far, false)

  class UwbRanger {
    var last: Option<SimSample>
    var zone: Zone
    var relaySuspected: bool

    ghost function View(): Ranger
      reads this
    {
      Ranger(last, zone, relaySuspected)
    }

    constructor ()
      ensures View() == NEW_RANGER
    {
      last, zone, relaySuspected := None, Far, false;
    }

    method Push(sample: SimSample) returns (accepted: bool)
      modifies this
      ensures (View(), accepted) == old(View()).Push(sample)
    {
      if sample.tofNs > MAX_TOF_NS as real {
        relaySuspected := true;
        zone := Far;
        return false;
      }
      if last.Some? {
        var dt := sample.timestampS - last.value.timestampS;
        if dt > 0.0 {
          var rate := Abs(sample.distanceCm - last.value.distanceCm) / dt;
          if rate > MAX_DELTA_CM_PER_S {
            relaySuspected := true;
            zone := Far;
            return false;
          }
        }
      }
      last := Some(sample);
      if relaySuspected {
        zone := Far;
      } else {
        zone := Classify(sample.distanceCm);
      }
      return !relaySuspected;
    }

    method ResetSession()
      modifies this
      ensures View() == NEW_RANGER
    {
      last := None;
      zone := Far;
      relaySuspected := false;
    }
  }

  // ---------------------------------------------------------------------------
  // Sessions: the samples pushed since a reset, at their true times

  datatype Sample = Sample(distanceCm: real, t: nat, tofNs: nat) {
    function Firmware(): UwbSample {
      UwbSample(distanceCm, Millis(t), tofNs)
    }

    function Simulated(): SimSample {
      SimSample(distanceCm, t as real / 1000.0, tofNs as real)
    }
  }

  datatype Session = Session(start: Tracker, samples: seq<Sample>) {
    function At(k: nat): Tracker
      requires k <= |samples|
    {
      if k == 0 then start.Reset() else At(k - 1).Push(samples[k - 1].Firmware()).0
    }

    function AcceptedAt(k: nat): bool
      requires k < |samples|
    {
      At(k).Push(samples[k].Firmware()).1
    }

    function SimAt(k: nat): Ranger
      requires k <= |samples|
    {
      if k == 0 then NEW_RANGER else SimAt(k - 1).Push(samples[k - 1].Simulated()).0
    }

    function SimAcceptedAt(k: nat): bool
      requires k < |samples|
    {
      SimAt(k).Push(samples[k].Simulated()).1
    }

    /** Timestamps strictly increase, within one turn of the clock. */
    ghost predicate Clocked() {
      forall i, j :: 0 <= i < j < |samples| ==> samples[i].t < samples[j].t < samples[i].t + WRAP
    }

    function Times(): (ts: seq<nat>)
      ensures |ts| == |samples|
      ensures forall i :: 0 <= i < |ts| ==> ts[i] == samples[i].t
    {
      seq(|samples|, i requires 0 <= i < |samples| => samples[i].t)
    }

    /** No sample's time of flight is out of bounds, and no two of the first k are
        further apart than 500 cm/s allows. */
    ghost predicate Plausible(k: nat)
      requires k <= |samples|
    {
      && (forall i :: 0 <= i < k ==> samples[i].tofNs <= 50)
      && (forall i, j :: 0 <= i < j < k ==> WithinReach(samples[i], samples[j]))
    }
  }

  /** Neither nearer nor farther than 500 cm/s allows in the time between. */
  predicate WithinReach(a: Sample, b: Sample) {
    var reach := 500.0 * ((b.t - a.t) as real / 1000.0);
    -reach <= b.distanceCm - a.distanceCm <= reach
  }

  lemma AbsIs(x: real, bound: real)
    ensures Abs(x) <= bound <==> -bound <= x <= bound
  {}

  lemma TooFastMeans(from: real, to: real, dt: real)
    ensures TooFast(from, to, dt) <==> dt > 0.0 && !(-500.0 * dt <= to - from <= 500.0 * dt)
  {
    hide Abs;
    AbsIs(to - from, 500.0 * dt);
    if dt > 0.0 {
      var rate := Abs(to - from) / dt;
      assert Abs(to - from) == rate * dt;
      ScaleBoth(rate, 500.0, dt);
    }
  }

  lemma ScaleBoth(x: real, y: real, d: real)
    requires d > 0.0
    ensures x > y <==> x * d > y * d
  {
    assert x * d - y * d == (x - y) * d;
  }

  /** While unsuspected, the trusted baseline is the sample before, so the next is
      implausible exactly by its time of flight or by reach from that one. */
  lemma StepPlausible(r: Tracker, prev: Sample, s: Sample)
    requires r.hasFix && r.last == prev.Firmware() && prev.t < s.t < prev.t + WRAP
    ensures r.Implausible(s.Firmware()) <==> s.tofNs > 50 || !WithinReach(prev, s)
  {
    ElapsedIs(prev.t, s.t);
    TooFastMeans(prev.distanceCm, s.distanceCm, (s.t - prev.t) as real / 1000.0);
  }

  lemma ElapsedIs(since: nat, t: nat)
    requires since <= t < since + WRAP
    ensures Elapsed(Millis(t), Millis(since)) == t - since
  {}

  /** The local rate check telescopes: a session is unsuspected exactly as long as
      every pair of its samples, however far apart, respects the speed bound. */
  lemma {:induction false} UnsuspectedIffPlausible(s: Session, k: nat)
    requires s.Clocked() && k <= |s.samples|
    ensures !s.At(k).relaySuspected <==> s.Plausible(k)
    ensures !s.At(k).relaySuspected && k > 0 ==> s.At(k).hasFix && s.At(k).last == s.samples[k - 1].Firmware()
    ensures k == 0 ==> !s.At(k).hasFix
    ensures !s.At(k).relaySuspected ==> forall i :: 0 <= i < k ==> s.AcceptedAt(i)
  {
    if k > 0 {
      UnsuspectedIffPlausible(s, k - 1);
      var cur := s.samples[k - 1];
      if k > 1 {
        var prev := s.samples[k - 2];
        hide TooFast;
        if s.At(k - 1).hasFix && s.At(k - 1).last == prev.Firmware() {
          StepPlausible(s.At(k - 1), prev, cur);
        }
        if WithinReach(prev, cur) {
          ReachComposes(s, k);
        }
      }
    }
  }

  lemma ReachComposes(s: Session, k: nat)
    requires 2 <= k <= |s.samples| && WithinReach(s.samples[k - 2], s.samples[k - 1])
    ensures s.Plausible(k - 1) && s.samples[k - 1].tofNs <= 50 ==> s.Plausible(k)
  {
    if s.Plausible(k - 1) && s.samples[k - 1].tofNs <= 50 {
      forall i | 0 <= i < k - 1
        ensures WithinReach(s.samples[i], s.samples[k - 1])
      {
        if i < k - 2 {
          assert WithinReach(s.samples[i], s.samples[k - 2]);
        }
      }
    }
  }

  lemma StepZone(r: Tracker, sample: UwbSample)
    ensures var r' := r.Push(sample).0;
      && (r'.zone == Near <==> !r'.relaySuspected && sample.distanceCm < 30.0)
      && (r'.zone == Medium <==> !r'.relaySuspected && 30.0 <= sample.distanceCm < 150.0)
      && (r'.zone == Far <==> r'.relaySuspected || 150.0 <= sample.distanceCm)
  {
    hide Tracker.Implausible;
  }

  /** The zone after a sample, at any timestamps: the sample's, below 30 cm NEAR, from
      150 cm on FAR, MEDIUM between; but FAR under suspicion, whatever the sample. */
  lemma ZoneOfLastSample(s: Session, k: nat)
    requires 0 < k <= |s.samples|
    ensures var r, d := s.At(k), s.samples[k - 1].distanceCm;
      && (r.zone == Near <==> !r.relaySuspected && d < 30.0)
      && (r.zone == Medium <==> !r.relaySuspected && 30.0 <= d < 150.0)
      && (r.zone == Far <==> r.relaySuspected || 150.0 <= d)
  {
    hide Tracker.Push;
    StepZone(s.At(k - 1), s.samples[k - 1].Firmware());
  }

  /** The baseline a sample is judged by is the last one that was not itself found
      implausible, latched or not. */
  lemma {:induction false} BaselineIs(s: Session, k: nat, i: nat)
    requires i < k <= |s.samples| && !s.At(i).Implausible(s.samples[i].Firmware())
    requires forall j :: i < j < k ==> s.At(j).Implausible(s.samples[j].Firmware())
    ensures s.At(k).hasFix && s.At(k).last == s.samples[i].Firmware()
  {
    hide Tracker.Implausible;
    if i < k - 1 {
      BaselineIs(s, k - 1, i);
      assert s.At(k - 1).Implausible(s.samples[k - 1].Firmware());
    }
  }

  /** NEAR needs time: after an accepted sample at d > 30 cm, the zone cannot be
      NEAR until more than 2 (d - 30) ms have passed. */
  lemma NearNeedsTime(s: Session, i: nat, k: nat)
    requires s.Clocked() && i < k <= |s.samples|
    requires s.At(k).zone == Near && s.samples[i].distanceCm > 30.0
    ensures (s.samples[k - 1].t - s.samples[i].t) as real > 2.0 * (s.samples[i].distanceCm - 30.0)
  {
    FarWhileSuspected(s, k);
    UnsuspectedIffPlausible(s, k);
    assert s.AcceptedAt(k - 1);
    if i < k - 1 {
      assert WithinReach(s.samples[i], s.samples[k - 1]);
    }
  }

  lemma {:induction false} FarWhileSuspected(s: Session, k: nat)
    requires k <= |s.samples|
    ensures s.At(k).relaySuspected ==> s.At(k).zone == Far
  {
    if k > 0 {
      FarWhileSuspected(s, k - 1);
    }
  }

  /** Suspicion latches: from then until a reset, at any timestamps, every sample
      is rejected and the zone stays FAR. */
  lemma {:induction false} SuspicionLatches(s: Session, j: nat, k: nat)
    requires j <= k <= |s.samples| && s.At(j).relaySuspected
    ensures s.At(k).relaySuspected && s.At(k).zone == Far
    ensures j < k ==> !s.AcceptedAt(k - 1)
  {
    FarWhileSuspected(s, k);
    if j < k {
      SuspicionLatches(s, j, k - 1);
    }
  }

  /** Increasing timestamps are needed: with two samples at one instant the rate
      check is skipped and any jump is accepted. */
  lemma EqualTimestampsSkipTheCheck(start: Tracker, d: real, e: real, t: nat)
    ensures var s := Session(start, [Sample(d, t, 1), Sample(e, t, 1)]);
      s.AcceptedAt(0) && s.AcceptedAt(1) && !s.At(2).relaySuspected && s.At(2).zone == Classify(e)
  {
    var s := Session(start, [Sample(d, t, 1), Sample(e, t, 1)]);
    assert s.At(1) == Tracker(UwbSample(d, Millis(t), 1), Classify(d), true, false);
    assert s.At(2) == Tracker(UwbSample(e, Millis(t), 1), Classify(e), true, false);
  }

  /** Timestamps never decrease, within one turn of the clock. */
  ghost predicate Nondecreasing(ts: seq<nat>) {
    forall i, j :: 0 <= i < j < |ts| ==> ts[i] <= ts[j] < ts[i] + WRAP
  }

  ghost predicate Increasing(ts: seq<nat>) {
    forall i, j :: 0 <= i < j < |ts| ==> ts[i] < ts[j]
  }

  /** A session whose samples are taken at these times. */
  ghost predicate OnTimes(s: Session, ts: seq<nat>) {
    s.Times() == ts
  }

  /** Whatever is measured at these times, a session the filter trusts is plausible. */
  ghost predicate TrustIsSound(ts: seq<nat>) {
    forall s: Session :: OnTimes(s, ts) && !s.At(|s.samples|).relaySuspected ==> s.Plausible(|s.samples|)
  }

  /** Exactly when the rate check can be relied on: when no two timestamps are equal. */
  lemma TrustSoundIffIncreasing(ts: seq<nat>)
    requires Nondecreasing(ts)
    ensures TrustIsSound(ts) <==> Increasing(ts)
  {
    hide Session.At, Session.Plausible;
    if Increasing(ts) {
      forall s: Session | OnTimes(s, ts) && !s.At(|s.samples|).relaySuspected
        ensures s.Plausible(|s.samples|)
      {
        UnsuspectedIffPlausible(s, |s.samples|);
      }
    } else {
      var i, j :| 0 <= i < j < |ts| && ts[i] >= ts[j];
      assert ts[i] <= ts[i + 1] && (i + 1 < j ==> ts[i + 1] <= ts[j]);
      JumpTrusted(ts, i, |ts|);
      JumpImplausible(ts, i);
    }
  }

  /** A jump of one centimetre from sample i to the next. */
  function Jump(ts: seq<nat>, i: nat): (s: Session)
    ensures OnTimes(s, ts)
  {
    Session(Tracker(UwbSample(0.0, 0, 0), Far, false, false),
            seq(|ts|, k requires 0 <= k < |ts| => Sample(if k <= i then 0.0 else 1.0, ts[k], 1)))
  }

  lemma {:induction false} JumpTrusted(ts: seq<nat>, i: nat, k: nat)
    requires Nondecreasing(ts) && i + 1 < |ts| && ts[i] == ts[i + 1] && k <= |ts|
    ensures var s := Jump(ts, i);
      !s.At(k).relaySuspected && (if k > 0 then s.At(k).last == s.samples[k - 1].Firmware() else !s.At(k).hasFix)
  {
    hide Millis, Elapsed, TooFast;
    if k > 0 {
      JumpTrusted(ts, i, k - 1);
      if k > 1 {
        ElapsedIs(ts[k - 2], ts[k - 1]);
        SlowEnough(if k - 2 <= i then 0.0 else 1.0, if k - 1 <= i then 0.0 else 1.0, (ts[k - 1] - ts[k - 2]) as real / 1000.0);
      }
    }
  }

  lemma SlowEnough(from: real, to: real, dt: real)
    ensures from == to || dt == 0.0 ==> !TooFast(from, to, dt)
  {}

  lemma JumpImplausible(ts: seq<nat>, i: nat)
    requires i + 1 < |ts| && ts[i] == ts[i + 1]
    ensures !Jump(ts, i).Plausible(|ts|)
  {
    var s := Jump(ts, i);
    assert !WithinReach(s.samples[i], s.samples[i + 1]);
  }

  // ---------------------------------------------------------------------------
  // The two filters agree

  ghost predicate Agree(a: Tracker, b: Ranger, s: Session, k: nat)
    requires k <= |s.samples|
  {
    && a.zone == b.zone
    && a.relaySuspected == b.relaySuspected
    && (a.hasFix <==> b.last.Some?)
    && (a.hasFix ==> exists i :: 0 <= i < k && a.last == s.samples[i].Firmware() && b.last.value == s.samples[i].Simulated())
  }

  /** On every session whose timestamps never decrease, within one turn of the
      clock, the firmware and the simulator accept the same samples, report the same
      zone, latch together and trust the same baseline, also for samples that move
      the baseline after the latch. */
  lemma {:induction false} FiltersAgree(s: Session, k: nat)
    requires Nondecreasing(s.Times()) && k <= |s.samples|
    ensures Agree(s.At(k), s.SimAt(k), s, k)
    ensures k < |s.samples| ==> s.AcceptedAt(k) == s.SimAcceptedAt(k)
  {
    if k > 0 {
      FiltersAgree(s, k - 1);
      ImplausibleAgree(s, k - 1);
    }
    if k < |s.samples| {
      ImplausibleAgree(s, k);
    }
  }

  lemma ImplausibleAgree(s: Session, k: nat)
    requires Nondecreasing(s.Times()) && k < |s.samples| && Agree(s.At(k), s.SimAt(k), s, k)
    ensures s.At(k).Implausible(s.samples[k].Firmware()) <==> s.SimAt(k).Implausible(s.samples[k].Simulated())
  {
    hide TooFast, Elapsed, Millis, Session.At, Session.SimAt;
    if s.At(k).hasFix {
      var i :| 0 <= i < k && s.At(k).last == s.samples[i].Firmware() && s.SimAt(k).last.value == s.samples[i].Simulated();
      assert s.Times()[i] <= s.Times()[k] < s.Times()[i] + WRAP;
      SameInterval(s.samples[i].t, s.samples[k].t);
    }
  }

  /** The wrapped difference of two counters and the difference of two times in
      seconds are one interval. */
  lemma SameInterval(since: nat, t: nat)
    requires since <= t < since + WRAP
    ensures Elapsed(Millis(t), Millis(since)) as real / 1000.0 == t as real / 1000.0 - since as real / 1000.0
  {
    ElapsedIs(since, t);
  }
}
