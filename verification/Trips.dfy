/**
 What starts and ends a trip, and how often a trip sends a position. Calls of every kind may be mixed
 in, under any watches; a clock that never runs backwards is not needed for any of it.
 */
module Trips {
  import opened Prelude
  import opened Geofences
  import opened RingHistory

  /** The trip change that call `k` of a run makes. */
  function ChangeAt(dist: Metric, f: Fence, calls: seq<Call>, k: nat): Option<bool>
    requires k < |calls|
  {
    DecisionOf(dist, FenceAfter(dist, f, calls[..k]), calls[k]).underwayChanged
  }

  /** Call `k` is no sample, or a reliable one. */
  predicate Reliable(dist: Metric, f: Fence, calls: seq<Call>, k: nat): (reliable: bool)
    requires k < |calls|
    ensures reliable <==> (calls[k].Read? ==> !Bad(FenceAfter(dist, f, calls[..k]), calls[k].watch, calls[k].sample))
  {
    calls[k].Read? ==> RingHistory.Reliable(FenceAfter(dist, f, calls[..k]), calls[k].watch, calls[k].sample)
  }

  /** No speed is given, or one under half a knot. */
  predicate AtRest(s: Sample): (rest: bool)
    ensures rest == Slow(s)
  {
    s.sogKn.None? || s.sogKn.value < 0.5
  }

  /** A knot and a half or faster, or fifty metres or further from the last sent position. */
  predicate SetsOff(dist: Metric, f: Fence, s: Sample): (off: bool)
    ensures off == Qualifies(dist, f, s)
  {
    (s.sogKn.Some? && s.sogKn.value >= 1.5) || (f.lastSent.Some? && dist(f.lastSent.value, s.pos) >= 50.0)
  }

  lemma ReliableInPrefix(dist: Metric, f: Fence, calls: seq<Call>, n: nat, k: nat)
    requires k < n <= |calls|
    ensures Reliable(dist, f, calls[..n], k) == Reliable(dist, f, calls, k)
    ensures calls[..n][..k] == calls[..k]
  {
    assert calls[..n][..k] == calls[..k];
  }

  // --- What a sample does to the trip state -------------------------------------------------------------------

  /** A sample moves the trip fields by the trip step alone, on the fence with its watch adopted. */
  lemma SampleMovesTrip(dist: Metric, f: Fence, call: Call)
    requires call.Read?
    ensures var bad := Bad(f, call.watch, call.sample);
      var (next, d) := Observe(dist, f, call.watch, call.sample, call.nowMs, call.leased);
      var (trip, changed) := TripStep(dist, f, call.sample, bad, call.nowMs);
      && next.underway == trip.underway
      && next.enterStreak == trip.enterStreak
      && next.slowSince == trip.slowSince
      && d.underwayChanged == changed
  {
    hide RingsStep, TripStep, SendStep, Unreliable, Breach, UnderWatch;
    var bad := Bad(f, call.watch, call.sample);
    var rings := RingsStep(dist, UnderWatch(f, call.watch), call.watch, call.sample, bad).0;
    RingsKeepTrip(dist, f, call.watch, call.sample, bad);
    TripReads(dist, f, rings, call.sample, bad, call.nowMs);
    var (trip, changed) := TripStep(dist, rings, call.sample, bad, call.nowMs);
    SendKeepsTrip(dist, trip, call.sample, call.leased, Breach(trip), changed, call.nowMs);
  }

  /** Fences that trip detection cannot tell apart. */
  predicate SameTrip(f: Fence, g: Fence) {
    && f.underway == g.underway
    && f.enterStreak == g.enterStreak
    && f.slowSince == g.slowSince
    && f.lastSent == g.lastSent
  }

  lemma TripReads(dist: Metric, f: Fence, g: Fence, s: Sample, bad: bool, nowMs: int)
    requires SameTrip(f, g)
    ensures var (x, y) := (TripStep(dist, f, s, bad, nowMs), TripStep(dist, g, s, bad, nowMs));
      SameTrip(x.0, y.0) && x.1 == y.1
  {
  }

  lemma RingsKeepTrip(dist: Metric, f: Fence, watch: Option<Watch>, s: Sample, bad: bool)
    ensures SameTrip(f, RingsStep(dist, UnderWatch(f, watch), watch, s, bad).0)
  {
    hide MarkFor, MarkedStep, Need;
  }

  lemma SendKeepsTrip(dist: Metric, f: Fence, s: Sample, leased: bool, breach: bool, changed: Option<bool>, nowMs: int)
    ensures SameTrip(f, SendStep(dist, f, s, leased, breach, changed, nowMs).0)
  {
  }

  // --- How a trip ends ----------------------------------------------------------------------------------------

  /** Every sample of the run from call `j` on is reliable, slow and within the circle around sample `j`. */
  ghost predicate Rests(dist: Metric, f: Fence, calls: seq<Call>, j: nat) {
    && j < |calls|
    && calls[j].Read?
    && forall i :: j <= i < |calls| && calls[i].Read? ==>
         && Reliable(dist, f, calls, i)
         && AtRest(calls[i].sample)
         && (i == j || dist(calls[j].sample.pos, calls[i].sample.pos) < 25.0)
  }

  lemma RestsFurther(dist: Metric, f: Fence, calls: seq<Call>, j: nat)
    requires calls != [] && Rests(dist, f, calls[..|calls| - 1], j)
    requires var last := Last(calls);
      last.Read? ==>
        && Reliable(dist, f, calls, |calls| - 1)
        && AtRest(last.sample)
        && dist(calls[j].sample.pos, last.sample.pos) < 25.0
    ensures Rests(dist, f, calls, j)
  {
    var n := |calls| - 1;
    forall i | j <= i < |calls| && calls[i].Read?
      ensures Reliable(dist, f, calls, i) && AtRest(calls[i].sample)
      ensures i == j || dist(calls[j].sample.pos, calls[i].sample.pos) < 25.0
    {
      if i < n {
        ReliableInPrefix(dist, f, calls, n, i);
        assert calls[..n][i] == calls[i] && calls[..n][j] == calls[j];
      }
    }
  }

  /** A sample that leaves the fence resting: it kept the stretch it found, or began one of its own. */
  lemma RestingSample(dist: Metric, f: Fence, call: Call)
    requires call.Read? && (f.slowSince.Some? ==> f.underway)
    ensures var next := Apply(dist, f, call);
      && (next.slowSince.Some? ==>
            && next.underway
            && !Bad(f, call.watch, call.sample)
            && Slow(call.sample)
            && (|| next.slowSince.value == (call.nowMs, call.sample.pos)
                || (next.slowSince == f.slowSince && dist(f.slowSince.value.1, call.sample.pos) < UNDERWAY_EXIT_NET_M)))
      && (DecisionOf(dist, f, call).underwayChanged == Some(false) ==>
            && !Bad(f, call.watch, call.sample)
            && Slow(call.sample)
            && f.slowSince.Some?
            && dist(f.slowSince.value.1, call.sample.pos) < UNDERWAY_EXIT_NET_M
            && call.nowMs - f.slowSince.value.0 >= UNDERWAY_EXIT_MS)
  {
    hide Observe, Bad, Slow;
    SampleMovesTrip(dist, f, call);
  }

  /** The slow stretch the fence remembers is a stretch of rest that really happened. */
  lemma {:induction false} SlowSinceIsRest(dist: Metric, f: Fence, calls: seq<Call>) returns (j: nat)
    requires f.slowSince.None?
    ensures var now := FenceAfter(dist, f, calls);
      now.slowSince.Some? ==>
        && now.underway
        && Rests(dist, f, calls, j)
        && now.slowSince.value == (calls[j].nowMs, calls[j].sample.pos)
  {
    j := 0;
    if calls != [] {
      var n := |calls| - 1;
      var front, last := calls[..n], calls[n];
      var before := FenceAfter(dist, f, front);
      j := SlowSinceIsRest(dist, f, front);
      hide Observe, Bad, Slow;
      if last.Read? {
        RestingSample(dist, before, last);
        var now := FenceAfter(dist, f, calls);
        if now.slowSince.Some? {
          if now.slowSince.value == (last.nowMs, last.sample.pos) {
            j := n;
          } else {
            RestsFurther(dist, f, calls, j);
          }
        }
      } else if before.slowSince.Some? {
        RestsFurther(dist, f, calls, j);
      }
    }
  }

  /**
   A trip ends only on evidence: every sample of some stretch of at least five minutes, the one that
   ends the trip included, was reliable, slow, and within 25 m of the first sample of the stretch.
   */
  lemma TripEndsAtRest(dist: Metric, f: Fence, calls: seq<Call>) returns (j: nat)
    requires f.slowSince.None? && calls != []
    requires ChangeAt(dist, f, calls, |calls| - 1) == Some(false)
    ensures j < |calls| - 1 && Rests(dist, f, calls, j)
    ensures Last(calls).nowMs - calls[j].nowMs >= 300_000
  {
    var n := |calls| - 1;
    var before := FenceAfter(dist, f, calls[..n]);
    j := SlowSinceIsRest(dist, f, calls[..n]);
    RestingSample(dist, before, calls[n]);
    hide Observe, Bad, Slow;
    RestsFurther(dist, f, calls, j);
  }

  /** A reliable slow sample of a trip: it ends the trip, keeps the stretch it is within 25 m of, or begins one of its own. */
  lemma RestingStep(dist: Metric, f: Fence, call: Call)
    requires call.Read? && f.underway && !Bad(f, call.watch, call.sample) && Slow(call.sample)
    ensures var next, changed := Apply(dist, f, call), DecisionOf(dist, f, call).underwayChanged;
      if f.slowSince.Some? && dist(f.slowSince.value.1, call.sample.pos) < 25.0 then
        if call.nowMs - f.slowSince.value.0 >= 300_000 then changed == Some(false) && !next.underway
        else changed.None? && next.underway && next.slowSince == f.slowSince
      else changed.None? && next.underway && next.slowSince == Some((call.nowMs, call.sample.pos))
  {
    hide Observe, Bad, Slow;
    SampleMovesTrip(dist, f, call);
  }

  /** From call `j` on the boat lies still: every sample is reliable and slow, and any two are within 25 m. */
  ghost predicate LiesStill(dist: Metric, f: Fence, calls: seq<Call>, j: nat) {
    && j < |calls| && calls[j].Read?
    && (forall i :: j <= i < |calls| && calls[i].Read? ==> Reliable(dist, f, calls, i) && AtRest(calls[i].sample))
    && (forall i, k :: j <= i < k < |calls| && calls[i].Read? && calls[k].Read? ==>
          dist(calls[i].sample.pos, calls[k].sample.pos) < 25.0 && calls[i].nowMs <= calls[k].nowMs)
  }

  ghost predicate NoEndSince(dist: Metric, f: Fence, calls: seq<Call>, j: nat) {
    forall k :: j <= k < |calls| ==> ChangeAt(dist, f, calls, k) != Some(false)
  }

  /** While the trip goes on, the stretch is an old one not yet five minutes old, or one begun by a sample since `j`. */
  ghost predicate StretchStands(dist: Metric, f: Fence, calls: seq<Call>, j: nat)
    requires j < |calls| && calls[j].Read?
  {
    var now := FenceAfter(dist, f, calls);
    && now.underway && now.slowSince.Some?
    && (OldStretch(now, calls, j) || exists a :: j <= a < |calls| && StretchBegan(now, calls, a))
  }

  ghost predicate OldStretch(now: Fence, calls: seq<Call>, j: nat)
    requires j < |calls| && calls[j].Read? && now.slowSince.Some?
  {
    && now.slowSince.value.0 <= calls[j].nowMs
    && forall i :: j <= i < |calls| && calls[i].Read? ==> calls[i].nowMs - now.slowSince.value.0 < 300_000
  }

  predicate StretchBegan(now: Fence, calls: seq<Call>, a: nat)
    requires a < |calls|
  {
    calls[a].Read? && now.slowSince == Some((calls[a].nowMs, calls[a].sample.pos))
  }

  lemma StillFront(dist: Metric, f: Fence, calls: seq<Call>, j: nat)
    requires LiesStill(dist, f, calls, j) && NoEndSince(dist, f, calls, j) && j < |calls| - 1
    ensures LiesStill(dist, f, calls[..|calls| - 1], j) && NoEndSince(dist, f, calls[..|calls| - 1], j)
  {
    var n := |calls| - 1;
    var front := calls[..n];
    forall k | j <= k < n ensures ChangeAt(dist, f, front, k) != Some(false) {
      assert front[..k] == calls[..k];
      assert ChangeAt(dist, f, calls, k) != Some(false);
    }
    forall i | j <= i < n && front[i].Read? ensures Reliable(dist, f, front, i) && AtRest(front[i].sample) {
      ReliableInPrefix(dist, f, calls, n, i);
      assert Reliable(dist, f, calls, i) && AtRest(calls[i].sample);
    }
  }

  lemma {:induction false} StretchGoesOn(dist: Metric, f: Fence, calls: seq<Call>, j: nat)
    requires LiesStill(dist, f, calls, j) && NoEndSince(dist, f, calls, j)
    requires var before := FenceAfter(dist, f, calls[..j]);
      before.underway && (before.slowSince.Some? ==> before.slowSince.value.0 <= calls[j].nowMs)
    ensures StretchStands(dist, f, calls, j)
  {
    hide Apply, Bad, Slow, DecisionOf;
    var n := |calls| - 1;
    var front, before := calls[..n], FenceAfter(dist, f, calls[..n]);
    assert ChangeAt(dist, f, calls, n) != Some(false);
    if calls[n].Read? {
      assert Reliable(dist, f, calls, n) && AtRest(calls[n].sample);
    }
    if n == j {
      RestingStep(dist, before, calls[n]);
      assert StretchBegan(FenceAfter(dist, f, calls), calls, n) || FenceAfter(dist, f, calls).slowSince == before.slowSince;
    } else {
      StillFront(dist, f, calls, j);
      assert front[..j] == calls[..j];
      StretchGoesOn(dist, f, front, j);
      if calls[n].Read? {
        RestingStep(dist, before, calls[n]);
        if a :| j <= a < n && StretchBegan(before, front, a) {
          assert front[a] == calls[a];
          assert StretchBegan(FenceAfter(dist, f, calls), calls, a);
        } else if dist(before.slowSince.value.1, calls[n].sample.pos) >= 25.0 {
          assert StretchBegan(FenceAfter(dist, f, calls), calls, n);
        } else {
          assert forall i :: j <= i < n ==> front[i] == calls[i];
        }
      } else {
        OnlySamplesMoveTrips(dist, before, calls[n]);
        if a :| j <= a < n && StretchBegan(before, front, a) {
          assert StretchBegan(FenceAfter(dist, f, calls), calls, a);
        } else {
          assert forall i :: j <= i < n ==> front[i] == calls[i];
        }
      }
    }
  }

  /** Once a sample five minutes after `j` has passed, the stretch is one begun by then, and stays. */
  lemma {:induction false} StretchSettles(dist: Metric, f: Fence, calls: seq<Call>, j: nat, m: nat) returns (a: nat)
    requires LiesStill(dist, f, calls, j) && NoEndSince(dist, f, calls, j)
    requires var before := FenceAfter(dist, f, calls[..j]);
      before.underway && (before.slowSince.Some? ==> before.slowSince.value.0 <= calls[j].nowMs)
    requires j < m < |calls| && calls[m].Read? && calls[m].nowMs - calls[j].nowMs >= 300_000
    ensures j <= a <= m && StretchBegan(FenceAfter(dist, f, calls), calls, a)
    ensures FenceAfter(dist, f, calls).underway
  {
    hide Apply, Bad, Slow, DecisionOf;
    var n := |calls| - 1;
    StretchGoesOn(dist, f, calls, j);
    if n == m {
      a :| j <= a < |calls| && StretchBegan(FenceAfter(dist, f, calls), calls, a);
    } else {
      StillFront(dist, f, calls, j);
      assert calls[..n][..j] == calls[..j];
      a := StretchSettles(dist, f, calls[..n], j, m);
      var before := FenceAfter(dist, f, calls[..n]);
      assert ChangeAt(dist, f, calls, n) != Some(false);
      if calls[n].Read? {
        assert Reliable(dist, f, calls, n) && AtRest(calls[n].sample);
        RestingStep(dist, before, calls[n]);
      } else {
        OnlySamplesMoveTrips(dist, before, calls[n]);
      }
    }
  }

  /**
   And rest does end it: a boat under way that lies still - every sample reliable, slow and within 25 m of every
   other - has its trip ended by the time a sample has come five minutes after the first, and one five minutes
   after that.
   */
  lemma RestEndsTheTrip(dist: Metric, f: Fence, calls: seq<Call>, j: nat, m: nat) returns (k: nat)
    requires LiesStill(dist, f, calls, j)
    requires var before := FenceAfter(dist, f, calls[..j]);
      before.underway && (before.slowSince.Some? ==> before.slowSince.value.0 <= calls[j].nowMs)
    requires j < m < |calls| - 1 && calls[m].Read? && Last(calls).Read?
    requires calls[m].nowMs - calls[j].nowMs >= 300_000 && Last(calls).nowMs - calls[m].nowMs >= 300_000
    ensures j <= k < |calls| && ChangeAt(dist, f, calls, k) == Some(false)
  {
    hide Apply, Bad, Slow, DecisionOf;
    var n := |calls| - 1;
    if NoEndSince(dist, f, calls, j) {
      StillFront(dist, f, calls, j);
      assert calls[..n][..j] == calls[..j];
      var a := StretchSettles(dist, f, calls[..n], j, m);
      var before := FenceAfter(dist, f, calls[..n]);
      assert Reliable(dist, f, calls, n) && AtRest(calls[n].sample);
      RestingStep(dist, before, calls[n]);
      k := n;
      assert calls[a].nowMs <= calls[m].nowMs;
    } else {
      k :| j <= k < |calls| && ChangeAt(dist, f, calls, k) == Some(false);
    }
  }

  // --- How a trip starts ----------------------------------------------------------------------------------------

  /** Call `k` is a reliable sample that counts toward starting a trip, taken while not under way. */
  predicate SetsOut(dist: Metric, f: Fence, calls: seq<Call>, k: nat)
    requires k < |calls|
  {
    var before := FenceAfter(dist, f, calls[..k]);
    && calls[k].Read?
    && !before.underway
    && Reliable(dist, f, calls, k)
    && SetsOff(dist, before, calls[k].sample)
  }

  lemma {:induction false} SetsOutIs(dist: Metric, f: Fence, calls: seq<Call>, k: nat)
    requires k < |calls|
    ensures var before := FenceAfter(dist, f, calls[..k]);
      SetsOut(dist, f, calls, k) <==>
        && calls[k].Read?
        && !before.underway
        && !Bad(before, calls[k].watch, calls[k].sample)
        && Qualifies(dist, before, calls[k].sample)
  {
    hide Bad, Qualifies, FenceAfter;
  }

  /** A sample and the entry streak: one qualifying sample counts one, two in a row start the trip. */
  lemma EnteringSample(dist: Metric, f: Fence, call: Call)
    requires call.Read? && f.enterStreak <= 1 && (f.enterStreak == 1 ==> !f.underway)
    ensures var next := Apply(dist, f, call);
      && next.enterStreak <= 1
      && (next.enterStreak == 1 ==> !next.underway && !f.underway && !Bad(f, call.watch, call.sample) && Qualifies(dist, f, call.sample))
      && (DecisionOf(dist, f, call).underwayChanged == Some(true) ==>
            f.enterStreak == 1 && !f.underway && !Bad(f, call.watch, call.sample) && Qualifies(dist, f, call.sample))
  {
    hide Observe, Bad, Slow, Qualifies, TripStep;
    SampleMovesTrip(dist, f, call);
    EnteringStep(dist, f, call.sample, Bad(f, call.watch, call.sample), call.nowMs);
  }

  lemma EnteringStep(dist: Metric, f: Fence, s: Sample, bad: bool, nowMs: int)
    requires f.enterStreak <= 1 && (f.enterStreak == 1 ==> !f.underway)
    ensures var (trip, changed) := TripStep(dist, f, s, bad, nowMs);
      && trip.enterStreak <= 1
      && (trip.enterStreak == 1 ==> !trip.underway && !f.underway && !bad && Qualifies(dist, f, s))
      && (changed == Some(true) ==> f.enterStreak == 1 && !f.underway && !bad && Qualifies(dist, f, s))
  {
    hide Qualifies, Slow;
  }

  /** A call that is no sample leaves the last sample the last. */
  lemma StillLastSample(dist: Metric, f: Fence, front: seq<Call>, call: Call, j: nat)
    requires !call.Read? && j < |front| && SetsOut(dist, f, front, j)
    requires forall i :: j < i < |front| ==> !front[i].Read?
    ensures SetsOut(dist, f, front + [call], j)
    ensures forall i :: j < i < |front| + 1 ==> !(front + [call])[i].Read?
  {
    hide Bad, SetsOut, Qualifies, FenceAfter;
    var calls := front + [call];
    SetsOutIs(dist, f, front, j);
    SetsOutIs(dist, f, calls, j);
    assert front[..j] == calls[..j];
  }

  /** A counted sample is the latest one, and really did qualify. */
  lemma {:induction false} EnterStreakIsLastSample(dist: Metric, f: Fence, calls: seq<Call>) returns (j: nat)
    requires f.enterStreak == 0
    ensures var now := FenceAfter(dist, f, calls);
      && now.enterStreak <= 1
      && (now.enterStreak == 1 ==>
            && !now.underway
            && j < |calls|
            && SetsOut(dist, f, calls, j)
            && forall i :: j < i < |calls| ==> !calls[i].Read?)
  {
    j := 0;
    if calls != [] {
      var front, call := calls[..|calls| - 1], Last(calls);
      assert front + [call] == calls;
      AfterMore(dist, f, front, call);
      hide *;
      j := EnterStreakIsLastSample(dist, f, front);
      var before := FenceAfter(dist, f, front);
      if call.Read? {
        CountedSample(dist, f, front, call);
        if FenceAfter(dist, f, calls).enterStreak == 1 { j := |front|; }
      } else {
        OnlySamplesMoveTrips(dist, before, call);
        if before.enterStreak == 1 { StillLastSample(dist, f, front, call, j); }
      }
    }
  }

  lemma {:induction false} AfterMore(dist: Metric, f: Fence, front: seq<Call>, call: Call)
    ensures FenceAfter(dist, f, front + [call]) == Apply(dist, FenceAfter(dist, f, front), call)
  {
    assert (front + [call])[..|front|] == front;
  }

  /** A sample that leaves the streak at one has just been counted. */
  lemma {:induction false} CountedSample(dist: Metric, f: Fence, front: seq<Call>, call: Call)
    requires call.Read?
    requires var before := FenceAfter(dist, f, front);
      before.enterStreak <= 1 && (before.enterStreak == 1 ==> !before.underway)
    ensures var now := FenceAfter(dist, f, front + [call]);
      && now.enterStreak <= 1
      && (now.enterStreak == 1 ==> !now.underway && SetsOut(dist, f, front + [call], |front|))
  {
    hide *;
    var before := FenceAfter(dist, f, front);
    AfterMore(dist, f, front, call);
    EnteringSample(dist, before, call);
    assert (front + [call])[..|front|] == front && (front + [call])[|front|] == call;
    SetsOutIs(dist, f, front + [call], |front|);
  }

  /** A watch adopted, or a position marked sent, leaves trip detection and the send clock alone. */
  lemma OnlySamplesMoveTrips(dist: Metric, f: Fence, call: Call)
    requires !call.Read?
    ensures var next := Apply(dist, f, call);
      && next.underway == f.underway
      && next.enterStreak == f.enterStreak
      && next.slowSince == f.slowSince
      && next.underwaySentMs == f.underwaySentMs
  {
  }

  /** A trip starts only on two consecutive samples, both reliable and both fast or far enough. */
  lemma TripStartsOnTwoSamples(dist: Metric, f: Fence, calls: seq<Call>) returns (j: nat)
    requires f.enterStreak == 0 && calls != []
    requires ChangeAt(dist, f, calls, |calls| - 1) == Some(true)
    ensures j < |calls| - 1
    ensures SetsOut(dist, f, calls, j) && SetsOut(dist, f, calls, |calls| - 1)
    ensures forall i :: j < i < |calls| - 1 ==> !calls[i].Read?
  {
    var n := |calls| - 1;
    j := EnterStreakIsLastSample(dist, f, calls[..n]);
    EnteringSample(dist, FenceAfter(dist, f, calls[..n]), calls[n]);
    hide Observe, Bad, Slow, Qualifies;
    ReliableInPrefix(dist, f, calls, n, j);
    assert forall i :: j < i < n ==> calls[..n][i] == calls[i];
  }

  /** A sample that qualifies counts one, or starts the trip if one has been counted. */
  lemma QualifyingStep(dist: Metric, f: Fence, call: Call)
    requires call.Read? && !f.underway && !Bad(f, call.watch, call.sample) && Qualifies(dist, f, call.sample)
    ensures var next, changed := Apply(dist, f, call), DecisionOf(dist, f, call).underwayChanged;
      if f.enterStreak == 0 then !next.underway && next.enterStreak == 1 && changed.None?
      else next.underway && changed == Some(true)
  {
    hide Observe, Bad, Slow, Qualifies;
    SampleMovesTrip(dist, f, call);
  }

  lemma {:induction false} LastSampleIsCounted(dist: Metric, f: Fence, calls: seq<Call>, j: nat)
    requires f.enterStreak == 0 && j < |calls| && SetsOut(dist, f, calls, j)
    requires forall i :: j < i < |calls| ==> !calls[i].Read?
    requires !FenceAfter(dist, f, calls).underway
    ensures FenceAfter(dist, f, calls).enterStreak == 1
  {
    hide Apply, Bad, Qualifies, DecisionOf, SetsOut;
    var n := |calls| - 1;
    var before := FenceAfter(dist, f, calls[..n]);
    if j == n {
      SetsOutIs(dist, f, calls, n);
      QualifyingStep(dist, before, calls[n]);
    } else {
      OnlySamplesMoveTrips(dist, before, calls[n]);
      ReliableInPrefix(dist, f, calls, n, j);
      SetsOutIs(dist, f, calls[..n], j);
      SetsOutIs(dist, f, calls, j);
      LastSampleIsCounted(dist, f, calls[..n], j);
    }
  }

  /** Exactly when a trip starts: on the second of two consecutive samples, both reliable and both fast or far enough. */
  lemma TripStartsExactly(dist: Metric, f: Fence, calls: seq<Call>)
    requires f.enterStreak == 0 && calls != []
    ensures ChangeAt(dist, f, calls, |calls| - 1) == Some(true) <==>
      && SetsOut(dist, f, calls, |calls| - 1)
      && exists j :: 0 <= j < |calls| - 1 && SetsOut(dist, f, calls, j) && forall i :: j < i < |calls| - 1 ==> !calls[i].Read?
  {
    hide Apply, Bad, Qualifies, DecisionOf, SetsOut, FenceAfter;
    var n := |calls| - 1;
    if ChangeAt(dist, f, calls, n) == Some(true) {
      var j := TripStartsOnTwoSamples(dist, f, calls);
    }
    if SetsOut(dist, f, calls, n) {
      if j :| 0 <= j < n && SetsOut(dist, f, calls, j) && forall i :: j < i < n ==> !calls[i].Read? {
        ReliableInPrefix(dist, f, calls, n, j);
        SetsOutIs(dist, f, calls, j);
        SetsOutIs(dist, f, calls[..n], j);
        SetsOutIs(dist, f, calls, n);
        assert forall i :: j < i < n ==> calls[..n][i] == calls[i];
        LastSampleIsCounted(dist, f, calls[..n], j);
        QualifyingStep(dist, FenceAfter(dist, f, calls[..n]), calls[n]);
      }
    }
  }

  /** A trip starts with a clean slate: the next one's streak at nothing and no resting stretch begun. */
  lemma TripStartsAfresh(dist: Metric, f: Fence, call: Call)
    requires DecisionOf(dist, f, call).underwayChanged == Some(true)
    ensures var next := Apply(dist, f, call);
      next.underway && next.enterStreak == 0 && next.slowSince.None?
  {
    hide Bad, Slow, Qualifies, RingsStep;
  }

  // --- How often a trip sends -------------------------------------------------------------------------------------

  /** The instants at which the calls of a run sent a position. */
  function SentAt(dist: Metric, f: Fence, calls: seq<Call>): seq<int> {
    if calls == [] then []
    else
      var front, last := calls[..|calls| - 1], Last(calls);
      SentAt(dist, f, front) + (if DecisionOf(dist, FenceAfter(dist, f, front), last).sendPosition then [last.nowMs] else [])
  }

  /** The final fix a disarm owes is not owed, and this call does not make it so. */
  predicate OwesNoFix(f: Fence, call: Call) {
    match call
    case MarkedSent(_) => !f.finalFixOwed
    case Read(watch, _, _, _) => !UnderWatch(f, watch).finalFixOwed
    case Synced(watch) => !UnderWatch(f, watch).finalFixOwed
  }

  /** A call with no lease and no disarm that leaves the trip on with no drag confirmed. */
  predicate Cruises(dist: Metric, f: Fence, call: Call) {
    var next := Apply(dist, f, call);
    (call.Read? ==> !call.leased) && OwesNoFix(f, call) && next.underway && !Breach(next)
  }

  ghost predicate Cruising(dist: Metric, f: Fence, calls: seq<Call>) {
    forall k :: 0 <= k < |calls| ==> Cruises(dist, FenceAfter(dist, f, calls[..k]), calls[k])
  }

  /** A cruising sample is sent only when the send clock allows it, and a send restarts that clock. */
  lemma CruisingSample(dist: Metric, f: Fence, call: Call)
    requires call.Read? && Cruises(dist, f, call)
    ensures var next, d := Apply(dist, f, call), DecisionOf(dist, f, call);
      && next.underwaySentMs == (if d.sendPosition then Some(call.nowMs) else f.underwaySentMs)
      && (d.sendPosition && f.underway && f.underwaySentMs.Some? ==>
            call.nowMs - f.underwaySentMs.value >= UNDERWAY_SEND_MS)
  {
    var bad := Bad(f, call.watch, call.sample);
    var rings := RingsStep(dist, UnderWatch(f, call.watch), call.watch, call.sample, bad).0;
    RingsKeepPacing(dist, f, call.watch, call.sample, bad);
    TripKeepsPacing(dist, rings, call.sample, bad, call.nowMs);
    RingsKeepTrip(dist, f, call.watch, call.sample, bad);
    hide RingsStep, TripStep, Unreliable, Bad, UnderWatch;
  }

  lemma RingsKeepPacing(dist: Metric, f: Fence, watch: Option<Watch>, s: Sample, bad: bool)
    ensures var rings := RingsStep(dist, UnderWatch(f, watch), watch, s, bad).0;
      rings.underwaySentMs == f.underwaySentMs && rings.finalFixOwed == UnderWatch(f, watch).finalFixOwed
  {
    hide MarkFor, MarkedStep, Need;
  }

  lemma TripKeepsPacing(dist: Metric, f: Fence, s: Sample, bad: bool, nowMs: int)
    ensures var (trip, changed) := TripStep(dist, f, s, bad, nowMs);
      && trip.underwaySentMs == f.underwaySentMs
      && trip.finalFixOwed == f.finalFixOwed
      && trip.anchorArmed == f.anchorArmed
      && trip.anchor == f.anchor
      && (f.underway && trip.underway ==> changed.None?)
  {
  }

  /** Instants at least five minutes apart, counted over any stretch of them. */
  ghost predicate Spaced(sent: seq<int>) {
    forall a, b :: 0 <= a <= b < |sent| ==> sent[b] - sent[a] >= 300_000 * (b - a)
  }

  /** One cruising call: the trip goes on, and a send keeps its distance from the one before. */
  lemma CruisingCall(dist: Metric, f: Fence, call: Call)
    requires Cruises(dist, f, call)
    ensures var next, send := Apply(dist, f, call), DecisionOf(dist, f, call).sendPosition;
      && next.underway
      && (send ==> call.Read?)
      && next.underwaySentMs == (if send then Some(call.nowMs) else f.underwaySentMs)
      && (send && f.underway && f.underwaySentMs.Some? ==> call.nowMs - f.underwaySentMs.value >= UNDERWAY_SEND_MS)
  {
    hide Observe, UnderWatch, Breach, OwesNoFix;
    if call.Read? {
      CruisingSample(dist, f, call);
    } else {
      OnlySamplesMoveTrips(dist, f, call);
    }
  }

  /**
   While a trip lasts, with no lease, no disarm and no confirmed drag, its positions are at least five
   minutes apart: any two of them with `b - a` sends from one to the other span that many times five
   minutes, so `k` positions span at least `k - 1` times five minutes.
   */
  lemma {:induction false} SendsAreSpaced(dist: Metric, f: Fence, calls: seq<Call>)
    requires Cruising(dist, f, calls)
    ensures var sent := SentAt(dist, f, calls);
      && (calls != [] ==> FenceAfter(dist, f, calls).underway)
      && (sent != [] ==> FenceAfter(dist, f, calls).underwaySentMs == Some(Last(sent)))
      && (sent != [] ==> calls != [])
      && Spaced(sent)
  {
    if calls != [] {
      hide Apply, DecisionOf, Cruises, Spaced;
      var n := |calls| - 1;
      var front, last := calls[..n], calls[n];
      forall k | 0 <= k < n ensures Cruises(dist, FenceAfter(dist, f, front[..k]), front[k]) {
        assert front[..k] == calls[..k];
        assert Cruises(dist, FenceAfter(dist, f, calls[..k]), calls[k]);
      }
      SendsAreSpaced(dist, f, front);
      var before := FenceAfter(dist, f, front);
      assert calls[..n] == front && Cruises(dist, before, last);
      CruisingCall(dist, before, last);
      if DecisionOf(dist, before, last).sendPosition {
        SpacedFurther(SentAt(dist, f, front), last.nowMs);
      } else {
        assert SentAt(dist, f, calls) == SentAt(dist, f, front);
      }
    }
  }

  lemma SpacedFurther(sent: seq<int>, at: int)
    requires Spaced(sent)
    requires sent != [] ==> at - Last(sent) >= UNDERWAY_SEND_MS
    ensures Spaced(sent + [at])
  {
    forall a, b | 0 <= a <= b < |sent| + 1
      ensures (sent + [at])[b] - (sent + [at])[a] >= 300_000 * (b - a)
    {
      if a < b == |sent| {
        assert sent[b - 1] - sent[a] >= 300_000 * (b - 1 - a);
      }
    }
  }
}
