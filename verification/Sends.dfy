/**
 Which samples send a position, told from the fence as it stood and what the sample makes of it.
 */
module Sends {
  import opened Prelude
  import opened Geofences
  import opened RingHistory
  import opened Trips

  /** A disarm owes one final fix; so does one still owed. */
  predicate Owed(f: Fence, watch: Option<Watch>) {
    f.finalFixOwed || (f.sig != 0 && (watch.None? || watch.value.sig == 0))
  }

  /** The anchor watch is armed and its ring has two reliable samples outside since the last inside. */
  predicate Drags(next: Fence, watch: Option<Watch>) {
    watch.Some? && watch.value.anchor.Some? && next.anchor.streak >= 2
  }

  /** Fifty metres or further from the last sent position, and further than twice the fix's accuracy; or none was sent. */
  predicate FarFromSent(dist: Metric, f: Fence, s: Sample) {
    f.lastSent.Some? ==>
      && dist(f.lastSent.value, s.pos) >= 50.0
      && dist(f.lastSent.value, s.pos) > (if s.acc.Some? && s.acc.value > 0.0 then 2.0 * s.acc.value else 0.0)
  }

  /**
   Exactly which samples are sent: every one while a member watches; the one fix a disarm owes; the samples that
   start and end a trip; on a trip the first, one five minutes or more after the last, and every one of a drag;
   at rest with the anchor watch armed those of a drag, and with none armed those far from the last position sent.
   */
  lemma SendsExactly(dist: Metric, f: Fence, call: Call)
    requires call.Read?
    ensures var next, d := Apply(dist, f, call), DecisionOf(dist, f, call);
      var armed := call.watch.Some? && call.watch.value.anchor.Some?;
      && (d.sendPosition <==>
            || call.leased
            || Owed(f, call.watch)
            || d.underwayChanged.Some?
            || (if next.underway then
                  f.underwaySentMs.None? || call.nowMs - f.underwaySentMs.value >= 300_000 || Drags(next, call.watch)
                else if armed then Drags(next, call.watch)
                else FarFromSent(dist, f, call.sample)))
      && next.finalFixOwed == (Owed(f, call.watch) && call.leased)
      && next.lastSent == f.lastSent
  {
    var bad := Bad(f, call.watch, call.sample);
    var rings := RingsStep(dist, UnderWatch(f, call.watch), call.watch, call.sample, bad).0;
    RingsKeepPacing(dist, f, call.watch, call.sample, bad);
    RingsKeepTrip(dist, f, call.watch, call.sample, bad);
    TripKeepsPacing(dist, rings, call.sample, bad, call.nowMs);
    RingsKeepWatch(dist, f, call.watch, call.sample, bad);
    TripChanges(dist, rings, call.sample, bad, call.nowMs);
    hide RingsStep, TripStep, Unreliable, Bad;
  }

  lemma RingsKeepWatch(dist: Metric, f: Fence, watch: Option<Watch>, s: Sample, bad: bool)
    ensures var rings := RingsStep(dist, UnderWatch(f, watch), watch, s, bad).0;
      rings.anchorArmed == (watch.Some? && watch.value.anchor.Some?) && rings.sig == SigOf(watch) && rings.lastSent == f.lastSent
  {
    hide MarkFor, MarkedStep, Need;
  }

  lemma TripChanges(dist: Metric, f: Fence, s: Sample, bad: bool, nowMs: int)
    ensures TripStep(dist, f, s, bad, nowMs).0.lastSent == f.lastSent
  {
  }

  /** The send clock of a trip: set by the sample that starts it and by every unleased position sent on it, gone when it ends. */
  lemma SendClock(dist: Metric, f: Fence, call: Call)
    requires call.Read?
    ensures var next, d := Apply(dist, f, call), DecisionOf(dist, f, call);
      next.underwaySentMs ==
        if call.leased || Owed(f, call.watch) then f.underwaySentMs
        else if d.underwayChanged.Some? then (if next.underway then Some(call.nowMs) else None)
        else if next.underway && (f.underwaySentMs.None? || call.nowMs - f.underwaySentMs.value >= 300_000) then Some(call.nowMs)
        else f.underwaySentMs
  {
    var bad := Bad(f, call.watch, call.sample);
    var rings := RingsStep(dist, UnderWatch(f, call.watch), call.watch, call.sample, bad).0;
    RingsKeepPacing(dist, f, call.watch, call.sample, bad);
    RingsKeepTrip(dist, f, call.watch, call.sample, bad);
    TripKeepsPacing(dist, rings, call.sample, bad, call.nowMs);
    hide RingsStep, TripStep, Unreliable, Bad;
  }

  /** The anchor ring's two samples, told from the samples since it was armed. */
  lemma {:induction false} DragsAreTwoSamples(dist: Metric, f: Fence, calls: seq<Call>)
    requires JustArmed(f, f.sig) && Under(AnchorRing, f.sig, 2, calls)
    requires calls != [] && Last(calls).Read?
    ensures Drags(FenceAfter(dist, f, calls), Last(calls).watch) <==>
      && Last(calls).watch.Some? && Last(calls).watch.value.anchor.Some?
      && |OutsSinceInside(AnchorRing, dist, f, calls)| >= 2
  {
    RingsFollowMarks(AnchorRing, dist, f, 2, calls);
    var marks := Marks(AnchorRing, dist, f, calls);
    RingSummarises(marks, 2);
    StreakIsOuts(AnchorRing, dist, f, calls);
    hide FenceAfter, Marks, RingAfter, OutsideSinceInside, JustArmed, Under;
  }
}
