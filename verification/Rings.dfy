/**
 What the three rings mean: each alarm is a statement about the history of samples since the watch was
 armed, however poor samples, sent positions and repeated watch replies are mixed in.
 */
module RingHistory {
  import opened Prelude
  import opened Geofences

  // --- A ring against its history ------------------------------------------------------------------------

  /** The history after its last inside sample: one episode. */
  function Episode(h: seq<Mark>): seq<Mark> {
    if h == [] then []
    else if Last(h) == Inside then []
    else Episode(h[..|h| - 1]) + [Last(h)]
  }

  /** Outside samples that count toward the current episode. */
  function OutsideSinceInside(h: seq<Mark>): nat {
    multiset(Episode(h))[Outside]
  }

  /** One more sample: inside starts a new episode, outside counts, and a skipped one changes nothing. */
  lemma CountStep(h: seq<Mark>, m: Mark)
    ensures OutsideSinceInside(h + [m]) ==
      if m == Inside then 0 else if m == Outside then OutsideSinceInside(h) + 1 else OutsideSinceInside(h)
  {
    assert (h + [m])[..|h|] == h;
    assert multiset(Episode(h) + [m]) == multiset(Episode(h)) + multiset{m};
  }

  /** The last sample is outside, and is exactly the one that completes the streak. */
  predicate Completes(h: seq<Mark>, need: nat) {
    h != [] && Last(h) == Outside && OutsideSinceInside(h) == Max(need, 1)
  }

  function RingAfter(h: seq<Mark>, need: nat): Ring {
    if h == [] then CLEAR else MarkedStep(RingAfter(h[..|h| - 1], need), Last(h), need).0
  }

  /** The ring's two fields are a summary of the history. */
  lemma {:induction false} RingSummarises(h: seq<Mark>, need: nat)
    ensures RingAfter(h, need) == Ring(OutsideSinceInside(h), OutsideSinceInside(h) >= Max(need, 1))
  {
    if h != [] {
      var front := h[..|h| - 1];
      RingSummarises(front, need);
      CountStep(front, Last(h));
      assert h == front + [Last(h)];
    }
  }

  /** A ring alarms on a mark exactly when that mark completes the streak. */
  lemma {:induction false} RingAlarmsOnCompletion(h: seq<Mark>, need: nat)
    requires h != []
    ensures MarkedStep(RingAfter(h[..|h| - 1], need), Last(h), need).1 <==> Completes(h, need)
  {
    hide OutsideSinceInside, RingAfter;
    var front := h[..|h| - 1];
    RingSummarises(front, need);
    CountStep(front, Last(h));
    assert h == front + [Last(h)];
  }

  /** Between two alarms of one ring there is an inside sample: each episode alarms once. */
  lemma {:induction false} OneAlarmPerEpisode(h: seq<Mark>, need: nat, i: nat, j: nat)
    requires i < j < |h|
    requires Completes(h[..i + 1], need) && Completes(h[..j + 1], need)
    ensures exists m :: i < m < j && h[m] == Inside
  {
    assert h[..j + 1] == h[..j] + [Outside];
    CountStep(h[..j], Outside);
    if forall m :: i < m < j ==> h[m] != Inside {
      CountNeverFalls(h, i + 1, j);
    }
  }

  lemma {:induction false} CountNeverFalls(h: seq<Mark>, a: nat, b: nat)
    requires a <= b <= |h|
    requires forall m :: a <= m < b ==> h[m] != Inside
    ensures OutsideSinceInside(h[..a]) <= OutsideSinceInside(h[..b])
    decreases b - a
  {
    if a < b {
      CountNeverFalls(h, a, b - 1);
      assert h[..b] == h[..b - 1] + [h[b - 1]];
      CountStep(h[..b - 1], h[b - 1]);
    }
  }

  /** A poor sample is transparent: wherever skipped samples stand, the streak is the same without them. */
  lemma {:induction false} SkipsAreTransparent(h: seq<Mark>)
    ensures OutsideSinceInside(h) == OutsideSinceInside(Kept(h))
  {
    hide OutsideSinceInside;
    if h != [] {
      var front := h[..|h| - 1];
      SkipsAreTransparent(front);
      assert h == front + [Last(h)];
      CountStep(front, Last(h));
      CountStep(Kept(front), Last(h));
      if Last(h) == Skip {
        assert Kept(h) == Kept(front);
      }
    }
  }

  function Kept(h: seq<Mark>): seq<Mark> {
    if h == [] then []
    else Kept(h[..|h| - 1]) + (if Last(h) == Skip then [] else [Last(h)])
  }

  // --- The fence against its history -----------------------------------------------------------------------

  function FenceAfter(dist: Metric, f: Fence, calls: seq<Call>): Fence {
    if calls == [] then f else Apply(dist, FenceAfter(dist, f, calls[..|calls| - 1]), Last(calls))
  }

  function RingOf(kind: RingKind, f: Fence): Ring {
    match kind
    case AnchorRing => f.anchor
    case WarnRing => f.warn
    case ZoneRing => f.zone
  }

  /** What each call of a run means to one ring. */
  function Marks(kind: RingKind, dist: Metric, f: Fence, calls: seq<Call>): (marks: seq<Mark>)
    ensures |marks| == |calls|
  {
    if calls == [] then []
    else
      var front, last := calls[..|calls| - 1], Last(calls);
      Marks(kind, dist, f, front) +
      [if last.Read? then MarkFor(kind, dist, last.watch, last.sample, Bad(FenceAfter(dist, f, front), last.watch, last.sample))
       else Skip]
  }

  function SigOf(watch: Option<Watch>): nat {
    if watch.Some? then watch.value.sig else 0
  }

  /** The ring asks for this streak under the watch, whenever the watch has such a ring. */
  predicate Asks(kind: RingKind, watch: Option<Watch>, need: nat) {
    if kind == ZoneRing then watch.Some? && watch.value.zone.Some? ==> watch.value.zone.value.streak == need
    else need == 2
  }

  /** A call made under one signature and one streak; circles, radii and sampling may differ from call to call. */
  predicate MadeUnder(kind: RingKind, sig: nat, need: nat, call: Call) {
    && (call.Read? ==> SigOf(call.watch) == sig && Asks(kind, call.watch, need))
    && (call.Synced? ==> SigOf(call.watch) == sig)
  }

  ghost predicate Under(kind: RingKind, sig: nat, need: nat, calls: seq<Call>) {
    forall i :: 0 <= i < |calls| ==> MadeUnder(kind, sig, need, calls[i])
  }

  /** The signature has just been armed: it runs, and no ring has counted anything. */
  predicate JustArmed(f: Fence, sig: nat) {
    f.sig == sig && f.anchor == f.warn == f.zone == CLEAR
  }

  /** A changed signature arms afresh, whatever the rings had counted. */
  lemma ArmingClears(f: Fence, watch: Option<Watch>)
    requires f.sig != SigOf(watch)
    ensures JustArmed(UnderWatch(f, watch), SigOf(watch))
  {
  }

  /** The last call steps each ring by its own mark and nothing else. */
  lemma RingMoves(kind: RingKind, dist: Metric, f: Fence, need: nat, call: Call)
    requires MadeUnder(kind, f.sig, need, call)
    ensures var next := Apply(dist, f, call);
      var mark := if call.Read? then MarkFor(kind, dist, call.watch, call.sample, Bad(f, call.watch, call.sample)) else Skip;
      var (ring, alarms) := MarkedStep(RingOf(kind, f), mark, need);
      && next.sig == f.sig
      && RingOf(kind, next) == ring
      && (AlarmOf(kind) in DecisionOf(dist, f, call).events <==> alarms)
  {
    hide RingsStep, TripStep, SendStep, Unreliable;
    if call.Read? {
      var bad := Bad(f, call.watch, call.sample);
      assert SameNeed(kind, dist, call.watch, call.sample, bad, need);
      hide MarkedStep, MarkFor, Need, Bad;
      EventsSayWhich(kind, dist, UnderWatch(f, call.watch), call.watch, call.sample, bad);
      SampleKeepsRings(kind, dist, f, call);
    }
  }

  /** Where the streak asked for could differ, the sample is skipped. */
  predicate SameNeed(kind: RingKind, dist: Metric, watch: Option<Watch>, s: Sample, bad: bool, need: nat) {
    MarkFor(kind, dist, watch, s, bad) == Skip || Need(kind, watch) == need
  }

  /** What a sample leaves of the rings is what the rings' own step made of them. */
  lemma SampleKeepsRings(kind: RingKind, dist: Metric, f: Fence, call: Call)
    requires call.Read?
    ensures var next := Observe(dist, f, call.watch, call.sample, call.nowMs, call.leased);
      var (rings, events) := RingsStep(dist, UnderWatch(f, call.watch), call.watch, call.sample, Bad(f, call.watch, call.sample));
      && next.0.sig == rings.sig
      && next.0.anchorArmed == rings.anchorArmed
      && RingOf(kind, next.0) == RingOf(kind, rings)
      && next.1.events == events
  {
    hide RingsStep, Unreliable, TripStep, UnderWatch, Breach;
    var bad := Bad(f, call.watch, call.sample);
    var (rings, events) := RingsStep(dist, UnderWatch(f, call.watch), call.watch, call.sample, bad);
    TripKeepsRings(kind, dist, rings, call.sample, bad, call.nowMs);
  }

  lemma TripKeepsRings(kind: RingKind, dist: Metric, f: Fence, s: Sample, bad: bool, nowMs: int)
    ensures var trip := TripStep(dist, f, s, bad, nowMs).0;
      trip.sig == f.sig && trip.anchorArmed == f.anchorArmed && RingOf(kind, trip) == RingOf(kind, f)
  {
  }

  /** The alarms raised on one sample name exactly the rings that alarm. */
  lemma EventsSayWhich(kind: RingKind, dist: Metric, f: Fence, watch: Option<Watch>, s: Sample, bad: bool)
    ensures var (rings, events) := RingsStep(dist, f, watch, s, bad);
      var (ring, alarms) := MarkedStep(RingOf(kind, f), MarkFor(kind, dist, watch, s, bad), Need(kind, watch));
      && rings == f.(anchor := rings.anchor, warn := rings.warn, zone := rings.zone)
      && RingOf(kind, rings) == ring
      && (AlarmOf(kind) in events <==> alarms)
  {
    hide MarkFor, MarkedStep, Need;
  }

  lemma {:induction false} RingsFollowMarks(kind: RingKind, dist: Metric, f: Fence, need: nat, calls: seq<Call>)
    requires JustArmed(f, f.sig) && Under(kind, f.sig, need, calls)
    ensures var now := FenceAfter(dist, f, calls);
      now.sig == f.sig && RingOf(kind, now) == RingAfter(Marks(kind, dist, f, calls), need)
  {
    if calls != [] {
      var front := calls[..|calls| - 1];
      RingsFollowMarks(kind, dist, f, need, front);
      RingMoves(kind, dist, FenceAfter(dist, f, front), need, Last(calls));
      assert Marks(kind, dist, f, calls)[..|calls| - 1] == Marks(kind, dist, f, front);
      hide Apply, MarkFor, MarkedStep, Bad;
    }
  }

  /**
   Each ring refines its history. Under one watch signature, for any calls since it was armed, the last
   sample raises a ring's alarm exactly when it is the outside sample that completes the ring's streak:
   the second reliable one since the last reliable inside sample for the anchor ring, the configured one
   for the zone, and for the warn ring the second among the samples inside the alarm ring. Circles, radii
   and the sampling interval may differ from sample to sample; only the zone's streak may not.
   */
  lemma {:induction false} AlarmsRefineHistory(kind: RingKind, dist: Metric, f: Fence, need: nat, calls: seq<Call>)
    requires JustArmed(f, f.sig) && Under(kind, f.sig, need, calls)
    requires calls != [] && Last(calls).Read?
    ensures var before := FenceAfter(dist, f, calls[..|calls| - 1]);
      AlarmOf(kind) in DecisionOf(dist, before, Last(calls)).events <==>
        Completes(Marks(kind, dist, f, calls), need)
  {
    var front := calls[..|calls| - 1];
    RingsFollowMarks(kind, dist, f, need, front);
    RingMoves(kind, dist, FenceAfter(dist, f, front), need, Last(calls));
    var marks := Marks(kind, dist, f, calls);
    assert marks[..|marks| - 1] == Marks(kind, dist, f, front);
    RingAlarmsOnCompletion(marks, need);
    hide Apply, MarkFor, MarkedStep, Bad, Completes, DecisionOf;
  }

  // --- The alarms from the samples alone -------------------------------------------------------------------------------

  /** The fix is neither imprecise, nor of few satellites, nor older than three of the intervals the device samples at. */
  predicate Reliable(f: Fence, watch: Option<Watch>, s: Sample) {
    var intervalSecs: nat :=
      if (watch.Some? && watch.value.anchor.Some?) || f.underway then (if watch.Some? then watch.value.sampleSecs else 30) else 60;
    && (s.hdop.Some? ==> s.hdop.value <= 5.0)
    && (s.sats.Some? ==> s.sats.value >= 4)
    && s.fixAgeS <= 3.0 * (intervalSecs as real)
  }

  /** Further from the centre than the radius, by more than the fix's own accuracy. */
  predicate Beyond(dist: Metric, center: Pos, radiusM: real, s: Sample) {
    dist(center, s.pos) > radiusM + (if s.acc.Some? && s.acc.value > 0.0 then s.acc.value else 0.0)
  }

  /** The ring looks at the sample; the warn ring only inside the alarm circle, and only if it is set. */
  predicate LooksAt(kind: RingKind, dist: Metric, watch: Watch, s: Sample) {
    match kind
    case AnchorRing => watch.anchor.Some?
    case WarnRing =>
      watch.anchor.Some? && watch.anchor.value.warnM > 0.0 &&
      !Beyond(dist, watch.anchor.value.center, watch.anchor.value.radiusM, s)
    case ZoneRing => watch.zone.Some?
  }

  predicate IsOut(kind: RingKind, dist: Metric, watch: Watch, s: Sample)
    requires LooksAt(kind, dist, watch, s)
  {
    match kind
    case AnchorRing => Beyond(dist, watch.anchor.value.center, watch.anchor.value.radiusM, s)
    case WarnRing => Beyond(dist, watch.anchor.value.center, watch.anchor.value.warnM, s)
    case ZoneRing => Beyond(dist, watch.zone.value.center, watch.zone.value.radiusM, s)
  }

  /** Call `k` is a reliable sample that the ring looks at. */
  predicate Counts(kind: RingKind, dist: Metric, f: Fence, calls: seq<Call>, k: nat)
    requires k < |calls|
  {
    && calls[k].Read? && calls[k].watch.Some?
    && Reliable(FenceAfter(dist, f, calls[..k]), calls[k].watch, calls[k].sample)
    && LooksAt(kind, dist, calls[k].watch.value, calls[k].sample)
  }

  predicate OutAt(kind: RingKind, dist: Metric, f: Fence, calls: seq<Call>, k: nat)
    requires k < |calls|
  {
    Counts(kind, dist, f, calls, k) && IsOut(kind, dist, calls[k].watch.value, calls[k].sample)
  }

  predicate InAt(kind: RingKind, dist: Metric, f: Fence, calls: seq<Call>, k: nat)
    requires k < |calls|
  {
    Counts(kind, dist, f, calls, k) && !IsOut(kind, dist, calls[k].watch.value, calls[k].sample)
  }

  /** The outside samples since the last inside one, or since the arm if there was none. */
  ghost function OutsSinceInside(kind: RingKind, dist: Metric, f: Fence, calls: seq<Call>): set<nat> {
    set k: nat | k < |calls| && OutAt(kind, dist, f, calls, k) &&
                 forall i: nat :: k < i < |calls| ==> !InAt(kind, dist, f, calls, i)
  }

  lemma SampleMark(kind: RingKind, dist: Metric, f: Fence, watch: Option<Watch>, s: Sample)
    ensures var m := MarkFor(kind, dist, watch, s, Bad(f, watch, s));
      var counts := watch.Some? && Reliable(f, watch, s) && LooksAt(kind, dist, watch.value, s);
      && (m == Skip <==> !counts)
      && (m == Outside <==> counts && IsOut(kind, dist, watch.value, s))
  {
  }

  lemma {:induction false} MarksAre(kind: RingKind, dist: Metric, f: Fence, calls: seq<Call>, k: nat)
    requires k < |calls|
    ensures Marks(kind, dist, f, calls)[k] == Outside <==> OutAt(kind, dist, f, calls, k)
    ensures Marks(kind, dist, f, calls)[k] == Inside <==> InAt(kind, dist, f, calls, k)
  {
    hide MarkFor, Bad, Reliable, LooksAt, IsOut, Apply;
    var n := |calls| - 1;
    if k == n {
      SampleMark(kind, dist, FenceAfter(dist, f, calls[..n]), if calls[n].Read? then calls[n].watch else None,
                 if calls[n].Read? then calls[n].sample else Sample(Pos(0.0, 0.0), None, None, None, None, 0.0));
    } else {
      MarksAre(kind, dist, f, calls[..n], k);
      assert calls[..n][..k] == calls[..k];
    }
  }

  ghost function OutsideMarks(h: seq<Mark>): set<nat> {
    set k: nat | k < |h| && h[k] == Outside && forall i: nat :: k < i < |h| ==> h[i] != Inside
  }

  lemma {:induction false} StreakCounts(h: seq<Mark>)
    ensures |OutsideMarks(h)| == OutsideSinceInside(h)
  {
    if h == [] {
      assert OutsideMarks(h) == {};
    } else {
      var front, m := h[..|h| - 1], Last(h);
      StreakCounts(front);
      assert h == front + [m];
      CountStep(front, m);
      hide OutsideSinceInside;
      OutsideMarksOfMore(front, m);
    }
  }

  lemma OutsideMarksOfMore(h: seq<Mark>, m: Mark)
    ensures OutsideMarks(h + [m]) ==
      if m == Inside then {} else if m == Outside then OutsideMarks(h) + {|h|} else OutsideMarks(h)
    ensures |h| !in OutsideMarks(h)
  {
    var all := h + [m];
    assert all[|h|] == m && forall i: nat :: i < |h| ==> all[i] == h[i];
    forall k: nat ensures k in OutsideMarks(all) <==>
      k in (if m == Inside then {} else if m == Outside then OutsideMarks(h) + {|h|} else OutsideMarks(h))
    {
      if k < |h| && m == Inside { assert all[|h|] == Inside; }
    }
  }

  /**
   Which samples alarm, told from the samples. Under one signature, for any calls since it was armed, the last
   sample raises a ring's alarm exactly when it is outside and makes the number of reliable outside samples since
   the last reliable inside one, or since the arm, just what the ring asks for: two for the anchor and the warn
   ring, the configured streak for the zone.
   */
  lemma {:induction false} AlarmsFromSamples(kind: RingKind, dist: Metric, f: Fence, need: nat, calls: seq<Call>)
    requires JustArmed(f, f.sig) && Under(kind, f.sig, need, calls)
    requires calls != [] && Last(calls).Read?
    ensures var n := |calls| - 1;
      var before := FenceAfter(dist, f, calls[..n]);
      var alarm := match kind case AnchorRing => AnchorMotion case WarnRing => AnchorWarnMotion case ZoneRing => ZoneMotion;
      alarm in DecisionOf(dist, before, Last(calls)).events <==>
        && OutAt(kind, dist, f, calls, n)
        && |OutsSinceInside(kind, dist, f, calls)| == (if need == 0 then 1 else need)
  {
    hide Apply, DecisionOf, OutAt, Marks, OutsideSinceInside, JustArmed, Under, OutsSinceInside;
    AlarmsRefineHistory(kind, dist, f, need, calls);
    StreakIsOuts(kind, dist, f, calls);
    MarksAre(kind, dist, f, calls, |calls| - 1);
  }

  /** The streak of a ring's marks is the number of outside samples since the last inside one. */
  lemma {:induction false} StreakIsOuts(kind: RingKind, dist: Metric, f: Fence, calls: seq<Call>)
    ensures OutsideSinceInside(Marks(kind, dist, f, calls)) == |OutsSinceInside(kind, dist, f, calls)|
  {
    hide OutAt, InAt, Marks, OutsideSinceInside;
    var marks := Marks(kind, dist, f, calls);
    forall k: nat | k < |calls|
      ensures marks[k] == Outside <==> OutAt(kind, dist, f, calls, k)
      ensures marks[k] == Inside <==> InAt(kind, dist, f, calls, k)
    {
      MarksAre(kind, dist, f, calls, k);
    }
    StreakCounts(marks);
    assert OutsideMarks(marks) == OutsSinceInside(kind, dist, f, calls);
  }

  function Rank(a: Alarm): nat {
    match a
    case AnchorMotion => 0
    case AnchorWarnMotion => 1
    case ZoneMotion => 2
  }

  /** One sample raises an alarm once, the anchor's first and the zone's last, and never the anchor's with its warning. */
  lemma AlarmsInTurn(dist: Metric, f: Fence, call: Call)
    ensures var events := DecisionOf(dist, f, call).events;
      && (forall i, j :: 0 <= i < j < |events| ==> Rank(events[i]) < Rank(events[j]))
      && !(AnchorMotion in events && AnchorWarnMotion in events)
  {
    hide Unreliable, TripStep, SendStep, UnderWatch, Breach;
  }
}
