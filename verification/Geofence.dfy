/**
 The geofence of one GPS device: an anchor ring with a warn ring inside it, a security zone, trip
 detection, and the decision to send a position. Distances come from the caller's `dist`, metres.
 Every method of `Geofence` is proved to make the step `Apply` gives its call.
 */
module Geofences {
  import opened Prelude

  datatype Pos = Pos(lat: real, lon: real)

  type Metric = (Pos, Pos) -> real

  datatype Circle = Circle(center: Pos, radiusM: real, warnM: real)

  datatype Zone = Zone(center: Pos, radiusM: real, streak: nat)

  datatype Watch = Watch(sig: nat, anchor: Option<Circle>, zone: Option<Zone>, sampleSecs: nat)

  datatype Sample = Sample(
    pos: Pos,
    acc: Option<real>,
    hdop: Option<real>,
    sats: Option<nat>,
    sogKn: Option<real>,
    fixAgeS: real)

  datatype Alarm = AnchorMotion | AnchorWarnMotion | ZoneMotion

  datatype Decision = Decision(sendPosition: bool, events: seq<Alarm>, underwayChanged: Option<bool>)

  /** A ring's consecutive outside samples, and whether this episode has alarmed. */
  datatype Ring = Ring(streak: nat, alerted: bool)

  const CLEAR := Ring(0, false)

  datatype Fence = Fence(
    sig: nat,
    anchorArmed: bool,
    lastSent: Option<Pos>,
    anchor: Ring,
    warn: Ring,
    zone: Ring,
    finalFixOwed: bool,
    underway: bool,
    enterStreak: nat,
    slowSince: Option<(int, Pos)>,
    underwaySentMs: Option<int>)

  const UNARMED_DEADBAND_M := 50.0
  const ARMED_SAMPLE_SECS: nat := 30
  const IDLE_SAMPLE_SECS: nat := 60
  const ANCHOR_STREAK: nat := 2
  const UNDERWAY_ENTER_SOG_KN := 1.5
  const UNDERWAY_ENTER_MOVE_M := 50.0
  const UNDERWAY_ENTER_STREAK: nat := 2
  const UNDERWAY_EXIT_SOG_KN := 0.5
  const UNDERWAY_EXIT_NET_M := 25.0
  const UNDERWAY_EXIT_MS := 300_000
  const UNDERWAY_SEND_MS := 300_000
  const UNRELIABLE_HDOP := 5.0
  const UNRELIABLE_MIN_SATS: nat := 4

  /** A sample too poor to start, advance or end anything. */
  predicate Unreliable(s: Sample, sampleSecs: nat) {
    || (s.hdop.Some? && s.hdop.value > UNRELIABLE_HDOP)
    || (s.sats.Some? && s.sats.value < UNRELIABLE_MIN_SATS)
    || s.fixAgeS > 3.0 * (sampleSecs as real)
  }

  function Accuracy(s: Sample): real {
    if s.acc.Some? then RMax(s.acc.value, 0.0) else 0.0
  }

  // --- One step of each part ---------------------------------------------------------------------------

  function UnderWatch(f: Fence, watch: Option<Watch>): Fence {
    var sig := if watch.Some? then watch.value.sig else 0;
    var g := f.(anchorArmed := watch.Some? && watch.value.anchor.Some?);
    if sig == f.sig then g
    else
      g.(sig := sig, anchor := CLEAR, warn := CLEAR, zone := CLEAR,
         finalFixOwed := f.finalFixOwed || (f.sig != 0 && sig == 0))
  }

  /** The ring after one sample that counts, and whether it alarms. */
  function RingStep(r: Ring, outside: bool, need: nat): (Ring, bool) {
    if outside then
      var fires := r.streak + 1 >= need && !r.alerted;
      (Ring(r.streak + 1, r.alerted || fires), fires)
    else (CLEAR, false)
  }

  datatype Mark = Skip | Inside | Outside

  function MarkedStep(r: Ring, m: Mark, need: nat): (Ring, bool) {
    if m == Skip then (r, false) else RingStep(r, m == Outside, need)
  }

  /** The sampling interval a watch asks for in the fence's present state. */
  function SampleSecs(f: Fence, watch: Option<Watch>): nat {
    if f.anchorArmed || f.underway then (if watch.Some? then watch.value.sampleSecs else ARMED_SAMPLE_SECS)
    else IDLE_SAMPLE_SECS
  }

  /** Is this sample too poor, once the fence runs this watch? */
  predicate Bad(f: Fence, watch: Option<Watch>, s: Sample) {
    Unreliable(s, SampleSecs(UnderWatch(f, watch), watch))
  }

  datatype RingKind = AnchorRing | WarnRing | ZoneRing

  /** What a sample means to one ring; a poor sample, or one the ring does not look at, is skipped. */
  function MarkFor(kind: RingKind, dist: Metric, watch: Option<Watch>, s: Sample, bad: bool): Mark {
    if bad || watch.None? then Skip
    else
      match kind
      case AnchorRing =>
        if watch.value.anchor.None? then Skip
        else
          var a := watch.value.anchor.value;
          if dist(a.center, s.pos) > a.radiusM + Accuracy(s) then Outside else Inside
      case WarnRing =>
        if watch.value.anchor.None? then Skip
        else
          var a := watch.value.anchor.value;
          if a.warnM <= 0.0 || dist(a.center, s.pos) > a.radiusM + Accuracy(s) then Skip
          else if dist(a.center, s.pos) > a.warnM + Accuracy(s) then Outside else Inside
      case ZoneRing =>
        if watch.value.zone.None? then Skip
        else
          var z := watch.value.zone.value;
          if dist(z.center, s.pos) > z.radiusM + Accuracy(s) then Outside else Inside
  }

  /** Outside samples in a row that make a ring alarm. */
  function Need(kind: RingKind, watch: Option<Watch>): nat {
    if kind == ZoneRing && watch.Some? && watch.value.zone.Some? then watch.value.zone.value.streak else ANCHOR_STREAK
  }

  function AlarmOf(kind: RingKind): Alarm {
    match kind
    case AnchorRing => AnchorMotion
    case WarnRing => AnchorWarnMotion
    case ZoneRing => ZoneMotion
  }

  predicate Slow(s: Sample) {
    s.sogKn.None? || s.sogKn.value < UNDERWAY_EXIT_SOG_KN
  }

  /** A sample that counts toward starting a trip. */
  predicate Qualifies(dist: Metric, f: Fence, s: Sample) {
    || (s.sogKn.Some? && s.sogKn.value >= UNDERWAY_ENTER_SOG_KN)
    || (f.lastSent.Some? && dist(f.lastSent.value, s.pos) >= UNDERWAY_ENTER_MOVE_M)
  }

  /** Trip detection: the fence after one sample, and the change it made. */
  function TripStep(dist: Metric, f: Fence, s: Sample, bad: bool, nowMs: int): (Fence, Option<bool>) {
    if bad then (f.(enterStreak := 0, slowSince := None), None)
    else if !f.underway then
      var streak := if Qualifies(dist, f, s) then f.enterStreak + 1 else 0;
      if streak >= UNDERWAY_ENTER_STREAK then (f.(underway := true, enterStreak := 0, slowSince := None), Some(true))
      else (f.(enterStreak := streak), None)
    else if !Slow(s) then (f.(slowSince := None), None)
    else if f.slowSince.Some? && dist(f.slowSince.value.1, s.pos) < UNDERWAY_EXIT_NET_M then
      if nowMs - f.slowSince.value.0 >= UNDERWAY_EXIT_MS then (f.(underway := false, slowSince := None), Some(false))
      else (f, None)
    else (f.(slowSince := Some((nowMs, s.pos))), None)
  }

  /** The send decision, and the fence with what it spends: the owed fix, or the trip's send clock. */
  function SendStep(dist: Metric, f: Fence, s: Sample, leased: bool, breach: bool, changed: Option<bool>, nowMs: int): (Fence, bool) {
    if leased then (f, true)
    else if f.finalFixOwed then (f.(finalFixOwed := false), true)
    else if changed.Some? then (f.(underwaySentMs := if f.underway then Some(nowMs) else None), true)
    else if f.underway then
      var due := f.underwaySentMs.None? || nowMs - f.underwaySentMs.value >= UNDERWAY_SEND_MS;
      (if due then f.(underwaySentMs := Some(nowMs)) else f, due || (f.anchorArmed && breach))
    else if f.anchorArmed then (f, breach)
    else
      (f, f.lastSent.None? ||
          (var moved := dist(f.lastSent.value, s.pos);
           moved >= UNARMED_DEADBAND_M && moved > 2.0 * Accuracy(s)))
  }

  function If<T>(b: bool, s: seq<T>): seq<T> {
    if b then s else []
  }

  /** All three rings after one sample, and the alarms raised, the alarm ring's first. */
  function RingsStep(dist: Metric, f: Fence, watch: Option<Watch>, s: Sample, bad: bool): (Fence, seq<Alarm>) {
    var (anchor, drag) := MarkedStep(f.anchor, MarkFor(AnchorRing, dist, watch, s, bad), Need(AnchorRing, watch));
    var (warn, warned) := MarkedStep(f.warn, MarkFor(WarnRing, dist, watch, s, bad), Need(WarnRing, watch));
    var (zone, left) := MarkedStep(f.zone, MarkFor(ZoneRing, dist, watch, s, bad), Need(ZoneRing, watch));
    (f.(anchor := anchor, warn := warn, zone := zone),
     If(drag, [AnchorMotion]) + If(warned, [AnchorWarnMotion]) + If(left, [ZoneMotion]))
  }

  /** A drag is confirmed: the anchor watch is armed and its ring has its two samples. */
  predicate Breach(f: Fence) {
    f.anchorArmed && f.anchor.streak >= ANCHOR_STREAK
  }

  /** One sample through the whole fence. */
  function Observe(dist: Metric, f: Fence, watch: Option<Watch>, s: Sample, nowMs: int, leased: bool): (Fence, Decision) {
    var bad := Bad(f, watch, s);
    var (rings, events) := RingsStep(dist, UnderWatch(f, watch), watch, s, bad);
    var (trip, changed) := TripStep(dist, rings, s, bad, nowMs);
    var (end, send) := SendStep(dist, trip, s, leased, Breach(trip), changed, nowMs);
    (end, Decision(send, events, changed))
  }

  // --- Calls ---------------------------------------------------------------------------------------------

  datatype Call =
    | Read(watch: Option<Watch>, sample: Sample, nowMs: int, leased: bool)
    | Synced(watch: Option<Watch>)
    | MarkedSent(pos: Pos)

  function Apply(dist: Metric, f: Fence, call: Call): Fence {
    match call
    case Read(watch, s, nowMs, leased) => Observe(dist, f, watch, s, nowMs, leased).0
    case Synced(watch) => UnderWatch(f, watch)
    case MarkedSent(pos) => f.(lastSent := Some(pos))
  }

  function DecisionOf(dist: Metric, f: Fence, call: Call): Decision {
    if call.Read? then Observe(dist, f, call.watch, call.sample, call.nowMs, call.leased).1
    else Decision(false, [], None)
  }

  // --- The fence object ------------------------------------------------------------------------------------

  class Geofence {
    var sig: nat
    var anchorArmed: bool
    var lastSent: Option<Pos>
    var anchorStreak: nat
    var warnStreak: nat
    var zoneStreak: nat
    var anchorAlerted: bool
    var warnAlerted: bool
    var zoneAlerted: bool
    var finalFixOwed: bool
    var underway: bool
    var enterStreak: nat
    var slowSince: Option<(int, Pos)>
    var underwaySentMs: Option<int>

    function State(): Fence
      reads this
    {
      Fence(sig, anchorArmed, lastSent,
            Ring(anchorStreak, anchorAlerted), Ring(warnStreak, warnAlerted), Ring(zoneStreak, zoneAlerted),
            finalFixOwed, underway, enterStreak, slowSince, underwaySentMs)
    }

    constructor ()
      ensures State() == Fence(0, false, None, CLEAR, CLEAR, CLEAR, false, false, 0, None, None)
    {
      sig, anchorArmed, lastSent := 0, false, None;
      anchorStreak, warnStreak, zoneStreak := 0, 0, 0;
      anchorAlerted, warnAlerted, zoneAlerted := false, false, false;
      finalFixOwed, underway, enterStreak, slowSince, underwaySentMs := false, false, 0, None, None;
    }

    /** Adopt the vehicle's watch; a changed signature starts every ring afresh. */
    method SyncWatch(watch: Option<Watch>)
      modifies this
      ensures State() == UnderWatch(old(State()), watch)
    {
      var newSig := if watch.Some? then watch.value.sig else 0;
      anchorArmed := watch.Some? && watch.value.anchor.Some?;
      if newSig == sig {
        return;
      }
      if sig != 0 && newSig == 0 {
        finalFixOwed := true;
      }
      sig := newSig;
      ClearRings();
    }

    method ClearRings()
      modifies this
      ensures State() == old(State()).(anchor := CLEAR, warn := CLEAR, zone := CLEAR)
    {
      anchorStreak, warnStreak, zoneStreak := 0, 0, 0;
      anchorAlerted, warnAlerted, zoneAlerted := false, false, false;
    }

    method MarkSent(pos: Pos)
      modifies this`lastSent
      ensures State() == old(State()).(lastSent := Some(pos))
    {
      lastSent := Some(pos);
    }

    /** The alarm ring of the anchor watch. */
    method StepAnchor(dist: Metric, watch: Option<Watch>, s: Sample, bad: bool) returns (drag: bool)
      modifies this`anchorStreak, this`anchorAlerted
      ensures (Ring(anchorStreak, anchorAlerted), drag) ==
        MarkedStep(Ring(old(anchorStreak), old(anchorAlerted)),
                   MarkFor(AnchorRing, dist, watch, s, bad), Need(AnchorRing, watch))
    {
      drag := false;
      if watch.Some? && watch.value.anchor.Some? && !bad {
        var a := watch.value.anchor.value;
        if dist(a.center, s.pos) > a.radiusM + Accuracy(s) {
          anchorStreak := anchorStreak + 1;
          if anchorStreak >= ANCHOR_STREAK && !anchorAlerted {
            anchorAlerted := true;
            drag := true;
          }
        } else {
          anchorStreak, anchorAlerted := 0, false;
        }
      }
    }

    /** The warn ring counts only while the alarm ring holds. */
    method StepWarn(dist: Metric, watch: Option<Watch>, s: Sample, bad: bool) returns (warned: bool)
      modifies this`warnStreak, this`warnAlerted
      ensures (Ring(warnStreak, warnAlerted), warned) ==
        MarkedStep(Ring(old(warnStreak), old(warnAlerted)),
                   MarkFor(WarnRing, dist, watch, s, bad), Need(WarnRing, watch))
    {
      warned := false;
      if watch.Some? && watch.value.anchor.Some? && !bad {
        var a := watch.value.anchor.value;
        var d := dist(a.center, s.pos);
        if a.warnM > 0.0 && d <= a.radiusM + Accuracy(s) {
          if d > a.warnM + Accuracy(s) {
            warnStreak := warnStreak + 1;
            if warnStreak >= ANCHOR_STREAK && !warnAlerted {
              warnAlerted := true;
              warned := true;
            }
          } else {
            warnStreak, warnAlerted := 0, false;
          }
        }
      }
    }

    /** The security zone, with the streak the cloud configured. */
    method StepZone(dist: Metric, watch: Option<Watch>, s: Sample, bad: bool) returns (left: bool)
      modifies this`zoneStreak, this`zoneAlerted
      ensures (Ring(zoneStreak, zoneAlerted), left) ==
        MarkedStep(Ring(old(zoneStreak), old(zoneAlerted)),
                   MarkFor(ZoneRing, dist, watch, s, bad), Need(ZoneRing, watch))
    {
      left := false;
      if watch.Some? && watch.value.zone.Some? && !bad {
        var z := watch.value.zone.value;
        if dist(z.center, s.pos) > z.radiusM + Accuracy(s) {
          zoneStreak := zoneStreak + 1;
          if zoneStreak >= z.streak && !zoneAlerted {
            zoneAlerted := true;
            left := true;
          }
        } else {
          zoneStreak, zoneAlerted := 0, false;
        }
      }
    }

    /** Trip detection: an unreliable stretch never starts or ends a trip. */
    method StepTrip(dist: Metric, s: Sample, bad: bool, nowMs: int) returns (changed: Option<bool>)
      modifies this`underway, this`enterStreak, this`slowSince
      ensures (State(), changed) == TripStep(dist, old(State()), s, bad, nowMs)
    {
      changed := None;
      if bad {
        enterStreak, slowSince := 0, None;
      } else if !underway {
        var fast := s.sogKn.Some? && s.sogKn.value >= UNDERWAY_ENTER_SOG_KN;
        var moved := lastSent.Some? && dist(lastSent.value, s.pos) >= UNDERWAY_ENTER_MOVE_M;
        enterStreak := if fast || moved then enterStreak + 1 else 0;
        if enterStreak >= UNDERWAY_ENTER_STREAK {
          underway, enterStreak, slowSince := true, 0, None;
          changed := Some(true);
        }
      } else if !Slow(s) {
        slowSince := None;
      } else if slowSince.Some? && dist(slowSince.value.1, s.pos) < UNDERWAY_EXIT_NET_M {
        if nowMs - slowSince.value.0 >= UNDERWAY_EXIT_MS {
          underway, slowSince := false, None;
          changed := Some(false);
        }
      } else {
        slowSince := Some((nowMs, s.pos));
      }
    }

    /** Does this sample go to the cloud now? */
    method DecideSend(dist: Metric, s: Sample, leased: bool, breach: bool, changed: Option<bool>, nowMs: int) returns (send: bool)
      modifies this`finalFixOwed, this`underwaySentMs
      ensures (State(), send) == SendStep(dist, old(State()), s, leased, breach, changed, nowMs)
    {
      if leased {
        send := true;
      } else if finalFixOwed {
        finalFixOwed := false;
        send := true;
      } else if changed.Some? {
        underwaySentMs := if underway then Some(nowMs) else None;
        send := true;
      } else if underway {
        var due := underwaySentMs.None? || nowMs - underwaySentMs.value >= UNDERWAY_SEND_MS;
        if due {
          underwaySentMs := Some(nowMs);
        }
        send := due || (anchorArmed && breach);
      } else if anchorArmed {
        send := breach;
      } else if lastSent.None? {
        send := true;
      } else {
        var moved := dist(lastSent.value, s.pos);
        send := moved >= UNARMED_DEADBAND_M && moved > 2.0 * Accuracy(s);
      }
    }

    /** The three rings of one sample. */
    method StepRings(dist: Metric, watch: Option<Watch>, s: Sample, bad: bool) returns (events: seq<Alarm>)
      modifies this`anchorStreak, this`anchorAlerted, this`warnStreak, this`warnAlerted, this`zoneStreak, this`zoneAlerted
      ensures (State(), events) == RingsStep(dist, old(State()), watch, s, bad)
    {
      hide MarkFor, MarkedStep, Need;
      var drag := StepAnchor(dist, watch, s, bad);
      var warned := StepWarn(dist, watch, s, bad);
      var left := StepZone(dist, watch, s, bad);
      events := If(drag, [AnchorMotion]) + If(warned, [AnchorWarnMotion]) + If(left, [ZoneMotion]);
    }

    /** Evaluate one sample; `leased` means a member is watching and every sample goes out. */
    method Observe(dist: Metric, watch: Option<Watch>, s: Sample, nowMs: int, leased: bool) returns (d: Decision)
      modifies this
      ensures State() == Apply(dist, old(State()), Read(watch, s, nowMs, leased))
      ensures d == DecisionOf(dist, old(State()), Read(watch, s, nowMs, leased))
    {
      hide RingsStep, TripStep, SendStep, Unreliable, UnderWatch;
      SyncWatch(watch);
      var secs := if anchorArmed || underway
                  then (if watch.Some? then watch.value.sampleSecs else ARMED_SAMPLE_SECS)
                  else IDLE_SAMPLE_SECS;
      var bad := Unreliable(s, secs);
      var events := StepRings(dist, watch, s, bad);
      var changed := StepTrip(dist, s, bad, nowMs);
      var send := DecideSend(dist, s, leased, anchorArmed && anchorStreak >= ANCHOR_STREAK, changed, nowMs);
      d := Decision(send, events, changed);
    }
  }
}
