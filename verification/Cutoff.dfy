/**
 The software volume cutoff: how often it can fire over a whole run of calls, and how much water a
 capped run delivers when it does.
 */
module Cutoff {
  import opened Prelude
  import opened Cycle
  import opened ValveRuntime
  import opened Reopens

  // --- How often the cutoff fires --------------------------------------------------------------------

  /** A running cycle whose cutoff may still fire. */
  predicate Armed(t: Track) {
    t.state.Running? && t.state.run.stopIssued.None?
  }

  function ArmedValves(tracks: Tracks): set<string> {
    set id | id in tracks && Armed(tracks[id])
  }

  /** A call that begins a run: an accepted open, or an observation that adopts. */
  predicate Begins(tracks: Tracks, call: Call) {
    || (call.HubOpen? && OpenAccepted(tracks, call))
    || (call.Observe? && call.id in tracks && tracks[call.id].state.Idle? && call.obs.watering)
  }

  /** A call that re-arms a cutoff: an abandoned close whose mark was released. */
  predicate Rearms(tracks: Tracks, call: Call) {
    call.NoteStopAbandoned? && call.id in tracks && Releases(tracks[call.id])
  }

  function Stops(default: Profile, tracks: Tracks, calls: seq<Call>): nat {
    if calls == [] then 0
    else
      var front := calls[..|calls| - 1];
      Stops(default, tracks, front) + (if ActionOf(default, After(default, tracks, front), Last(calls)).Stop? then 1 else 0)
  }

  function Begun(default: Profile, tracks: Tracks, calls: seq<Call>): nat {
    if calls == [] then 0
    else
      var front := calls[..|calls| - 1];
      Begun(default, tracks, front) + (if Begins(After(default, tracks, front), Last(calls)) then 1 else 0)
  }

  function Rearmed(default: Profile, tracks: Tracks, calls: seq<Call>): nat {
    if calls == [] then 0
    else
      var front := calls[..|calls| - 1];
      Rearmed(default, tracks, front) + (if Rearms(After(default, tracks, front), Last(calls)) then 1 else 0)
  }

  /** One call, seen by the valve it is about. */
  lemma ArmedAt(default: Profile, tracks: Tracks, call: Call)
    requires !call.ApplyProfiles? && call.id in tracks
    ensures var next := ApplyTo(default, call.id, tracks[call.id], call);
      (if Armed(next) then 1 else 0) + (if ActionOf(default, tracks, call).Stop? then 1 else 0)
        <= (if Armed(tracks[call.id]) then 1 else 0) + (if Begins(tracks, call) || Rearms(tracks, call) then 1 else 0)
  {
  }

  /** One call arms at most one cutoff, and a Stop disarms the one that fired. */
  lemma ArmedStep(default: Profile, tracks: Tracks, call: Call)
    ensures var next := Apply(default, tracks, call);
      |ArmedValves(next)| + (if ActionOf(default, tracks, call).Stop? then 1 else 0)
        <= |ArmedValves(tracks)| + (if Begins(tracks, call) || Rearms(tracks, call) then 1 else 0)
  {
    var next := Apply(default, tracks, call);
    if call.ApplyProfiles? {
      assert ArmedValves(next) == ArmedValves(tracks);
    } else if call.id in tracks {
      ArmedAt(default, tracks, call);
      assert forall other :: other in tracks && other != call.id ==> next[other] == tracks[other];
      OneElementApart(ArmedValves(tracks), ArmedValves(next), call.id);
    } else {
      assert next == tracks;
    }
  }

  /** Two sets that differ at most at one element differ in size by at most that element. */
  lemma OneElementApart<T>(a: set<T>, b: set<T>, x: T)
    requires forall y :: y != x ==> (y in a <==> y in b)
    ensures |a| - (if x in a then 1 else 0) == |b| - (if x in b then 1 else 0)
  {
    assert a - {x} == b - {x};
    assert |a - {x}| == |a| - if x in a then 1 else 0;
    assert |b - {x}| == |b| - if x in b then 1 else 0;
  }

  /**
   Over any run of calls from idle valves, the cutoff asks for at most one Stop per run begun and one
   per close abandoned with its mark released.
   */
  lemma {:induction false} StopsAreBounded(default: Profile, tracks: Tracks, calls: seq<Call>)
    requires forall id :: id in tracks ==> tracks[id].state.Idle?
    ensures Stops(default, tracks, calls) + |ArmedValves(After(default, tracks, calls))|
      <= Begun(default, tracks, calls) + Rearmed(default, tracks, calls)
  {
    if calls == [] {
      assert ArmedValves(tracks) == {};
    } else {
      var front := calls[..|calls| - 1];
      StopsAreBounded(default, tracks, front);
      ArmedStep(default, After(default, tracks, front), Last(calls));
    }
  }

  /** A washdown is never stopped by volume, whatever was called before. */
  lemma {:induction false} WashdownIsNeverCut(default: Profile, tracks: Tracks, calls: seq<Call>, id: string, obs: Observation)
    requires forall v :: v in tracks ==> tracks[v].state.Idle?
    requires var now := After(default, tracks, calls); id in now && now[id].state.Running? && now[id].state.run.mode == Washdown
    ensures ActionOf(default, After(default, tracks, calls), Observe(id, obs)) == NoAction
  {
    ShapesStayLawful(default, tracks, calls);
  }

  // --- How much water it lets through ----------------------------------------------------------------

  /** Litres that pass in `ms` at the rate `speedLpm`. */
  function Litres(speedLpm: real, ms: int): real {
    speedLpm * (ms as real) / 60_000.0
  }

  /**
   A capped run as the water sees it: observed from `start` on, with `startL` litres out by then, at least every
   `gapMs`, with the flow reported as `speedLpm` and never above it.
   */
  ghost predicate FlowsAtMost(start: int, startL: real, speedLpm: real, gapMs: int, readings: seq<Observation>) {
    forall i :: 0 <= i < |readings| ==> Follows(start, startL, speedLpm, gapMs, readings, i)
  }

  /** When the run was last read before reading `k`, and what had been delivered by then. */
  function ReadBefore(start: int, startL: real, readings: seq<Observation>, k: nat): (int, real)
    requires k <= |readings|
  {
    if k == 0 then (start, startL) else (readings[k - 1].at, readings[k - 1].volumeL)
  }

  predicate Follows(start: int, startL: real, speedLpm: real, gapMs: int, readings: seq<Observation>, k: nat)
    requires k < |readings|
  {
    var (t, v) := ReadBefore(start, startL, readings, k);
    && readings[k].watering
    && readings[k].speedLpm == speedLpm
    && t <= readings[k].at <= t + gapMs
    && v <= readings[k].volumeL <= v + Litres(speedLpm, readings[k].at - t)
  }

  /** The state of the run after its readings. */
  function RunAfter(run: Run, readings: seq<Observation>, profile: Profile): State {
    if readings == [] then Running(run)
    else Step(RunAfter(run, readings[..|readings| - 1], profile), Last(readings), profile).state
  }

  /** The first reading on which the cutoff asks for its Stop, or the number of readings. */
  function StopIndex(run: Run, readings: seq<Observation>, profile: Profile): (k: nat)
    ensures k <= |readings|
  {
    if readings == [] then 0
    else
      var front := readings[..|readings| - 1];
      var k := StopIndex(run, front, profile);
      if k < |front| then k
      else if Step(RunAfter(run, front, profile), Last(readings), profile).action.Stop? then |front|
      else |readings|
  }

  /** Until the Stop the run stays unmarked, carries the last volume read, and is under its trigger. */
  lemma {:induction false} UnderTriggerUntilStop(run: Run, readings: seq<Observation>, profile: Profile, start: int, speedLpm: real, gapMs: int)
    requires run.stopIssued.None? && run.volumeCapL > 0.0 && run.volumeL >= 0.0
    requires speedLpm >= 0.0 && gapMs >= 0
    requires FlowsAtMost(start, run.volumeL, speedLpm, gapMs, readings)
    requires StopIndex(run, readings, profile) == |readings|
    ensures RunAfter(run, readings, profile) ==
      Running(run.(volumeL := if readings == [] then run.volumeL else Last(readings).volumeL))
    ensures readings != [] ==>
      0.0 <= Last(readings).volumeL && Last(readings).volumeL < RMax(run.volumeCapL - speedLpm * 8.0 / 60.0, 0.0)
  {
    if readings != [] {
      var n := |readings| - 1;
      FlowsAtMostPrefix(start, run.volumeL, speedLpm, gapMs, readings, n);
      UnderTriggerUntilStop(run, readings[..n], profile, start, speedLpm, gapMs);
      assert Follows(start, run.volumeL, speedLpm, gapMs, readings, n);
    }
  }

  lemma FlowsAtMostPrefix(start: int, startL: real, speedLpm: real, gapMs: int, readings: seq<Observation>, k: nat)
    requires FlowsAtMost(start, startL, speedLpm, gapMs, readings) && k <= |readings|
    ensures FlowsAtMost(start, startL, speedLpm, gapMs, readings[..k])
  {
    forall i | 0 <= i < k ensures Follows(start, startL, speedLpm, gapMs, readings[..k], i) {
      assert Follows(start, startL, speedLpm, gapMs, readings, i);
    }
  }

  lemma {:induction false} StopIndexPrefix(run: Run, readings: seq<Observation>, profile: Profile)
    ensures var k := StopIndex(run, readings, profile); StopIndex(run, readings[..k], profile) == k
  {
    var k := StopIndex(run, readings, profile);
    if k < |readings| {
      var front := readings[..|readings| - 1];
      StopIndexPrefix(run, front, profile);
      if k < |front| {
        assert front[..k] == readings[..k];
      } else {
        assert StopIndex(run, front, profile) == |front|;
      }
    } else {
      assert readings[..k] == readings;
    }
  }

  /** Any instant after the last reading before the Stop - the valve is shut eight seconds after it - and the water out by then. */
  predicate StillOpen(run: Run, readings: seq<Observation>, profile: Profile, start: int, speedLpm: real, gapMs: int, at: int, volumeL: real) {
    var k := StopIndex(run, readings, profile);
    var stopped := k < |readings|;
    var (from, out) := if stopped then (readings[k].at, readings[k].volumeL) else ReadBefore(start, run.volumeL, readings, k);
    && from <= at <= from + (if stopped then 8_000 else gapMs)
    && volumeL <= out + Litres(speedLpm, at - from)
  }

  /** The landing bound of a capped run that begins with water already out. */
  lemma LandsFrom(run: Run, readings: seq<Observation>, profile: Profile, start: int, speedLpm: real, gapMs: int, at: int, volumeL: real)
    requires run.stopIssued.None? && run.volumeCapL > 0.0 && run.volumeL >= 0.0
    requires speedLpm >= 0.0 && gapMs >= 0
    requires FlowsAtMost(start, run.volumeL, speedLpm, gapMs, readings)
    requires StillOpen(run, readings, profile, start, speedLpm, gapMs, at, volumeL)
    ensures volumeL <= RMax(run.volumeCapL, run.volumeL + Litres(speedLpm, 8_000)) + Litres(speedLpm, gapMs)
  {
    var k, startL := StopIndex(run, readings, profile), run.volumeL;
    StopIndexPrefix(run, readings, profile);
    FlowsAtMostPrefix(start, startL, speedLpm, gapMs, readings, k);
    UnderTriggerUntilStop(run, readings[..k], profile, start, speedLpm, gapMs);
    var (from, out) := ReadBefore(start, startL, readings, k);
    if k > 0 {
      assert Last(readings[..k]) == readings[k - 1];
    }
    assert Litres(speedLpm, 8_000) == speedLpm * 8.0 / 60.0;
    LitresMonotone(speedLpm, 0, 8_000);
    if k < |readings| {
      assert Follows(start, startL, speedLpm, gapMs, readings, k);
      LitresMonotone(speedLpm, readings[k].at - from, gapMs);
      LitresMonotone(speedLpm, at - readings[k].at, 8_000);
    } else {
      LitresMonotone(speedLpm, at - from, gapMs);
    }
  }

  /**
   The landing bound. A capped run the hub started, at a flow of at most `speedLpm` and read at least
   every `gapMs`, whose valve is shut within eight seconds of the Stop, has at every instant delivered
   no more than its cap, or what flows in those eight seconds if that is more, plus one gap's flow.
   */
  lemma LandsOnTheCap(start: int, mode: Mode, durationSecs: nat, capL: real, resume: bool, profile: Profile,
                      readings: seq<Observation>, speedLpm: real, gapMs: int, at: int, volumeL: real)
    requires mode != Washdown && capL > 0.0 && speedLpm >= 0.0 && gapMs >= 0
    requires FlowsAtMost(start, 0.0, speedLpm, gapMs, readings)
    requires var begun := StartHubCycle(start, mode, durationSecs, capL, resume);
      begun.Started? && StillOpen(begun.run, readings, profile, start, speedLpm, gapMs, at, volumeL)
    ensures volumeL <= RMax(capL, Litres(speedLpm, 8_000)) + Litres(speedLpm, gapMs)
  {
    LandsFrom(StartHubCycle(start, mode, durationSecs, capL, resume).run, readings, profile, start, speedLpm, gapMs, at, volumeL);
  }

  // --- A run the hub did not start -----------------------------------------------------------------------------------

  /** When an observation asks for the Stop: the water out would reach the cap in the eight seconds the valve takes. */
  lemma StopsExactly(default: Profile, tracks: Tracks, id: string, obs: Observation)
    requires id in tracks
    ensures var action, state := ActionOf(default, tracks, Observe(id, obs)), tracks[id].state;
      && (action == NoAction || action == Stop(VolumeCap))
      && (action == Stop(VolumeCap) <==>
            && state.Running? && obs.watering && state.run.stopIssued.None? && state.run.volumeCapL > 0.0
            && var out := if obs.volumeL > 0.0 then obs.volumeL else state.run.volumeL;
               out >= 0.0 && out >= state.run.volumeCapL - (if obs.speedLpm > 0.0 then obs.speedLpm * 8.0 / 60.0 else 0.0))
  {
  }

  // --- Stop marks and profiles --------------------------------------------------------------------------------------

  /** A mark goes on the running cycle of its valve and nothing else. */
  lemma MarkIsPut(default: Profile, tracks: Tracks, id: string, reason: EndReason, other: string)
    requires other in tracks
    ensures var next := Apply(default, tracks, NoteStop(id, reason));
      && other in next
      && next[other] == if other == id && tracks[id].state.Running?
                        then tracks[id].(state := Running(tracks[id].state.run.(stopIssued := Some(reason))))
                        else tracks[other]
  {
  }

  /** Giving a close up takes the mark off a capped run that is no washdown, and does nothing else. */
  lemma MarkIsReleased(default: Profile, tracks: Tracks, id: string, other: string)
    requires other in tracks
    ensures var next := Apply(default, tracks, NoteStopAbandoned(id));
      && other in next
      && next[other] == if other == id && tracks[id].state.Running? && tracks[id].state.run.mode != Washdown
                           && tracks[id].state.run.volumeCapL > 0.0
                        then tracks[id].(state := Running(tracks[id].state.run.(stopIssued := None)))
                        else tracks[other]
  {
  }

  lemma ReleasesExactly(t: Track)
    ensures Releases(t) <==>
      t.state.Running? && t.state.run.mode != Washdown && t.state.run.volumeCapL > 0.0 && t.state.run.stopIssued.Some?
  {
  }

  /** So the cutoff is armed again: the next watering reading at or over the cap asks for another Stop. */
  lemma {:induction false} AbandonRearms(default: Profile, tracks: Tracks, id: string, between: seq<Call>, obs: Observation)
    requires id in tracks && tracks[id].state.Running? && tracks[id].state.run.mode != Washdown
    requires tracks[id].state.run.volumeCapL > 0.0 && obs.watering && obs.volumeL >= tracks[id].state.run.volumeCapL
    requires forall k :: 0 <= k < |between| ==> PassesBy(between[k], id)
    ensures var released := Apply(default, tracks, NoteStopAbandoned(id));
      ActionOf(default, After(default, released, between), Observe(id, obs)) == Stop(VolumeCap)
  {
    hide After, ActionOf, Apply;
    MarkIsReleased(default, tracks, id, id);
    var released := Apply(default, tracks, NoteStopAbandoned(id));
    PassedBy(default, released, between, id);
    StopsExactly(default, After(default, released, between), id, obs);
  }

  /** The cloud's profiles replace those of the valves they name; nothing else changes. */
  lemma ProfilesReplace(default: Profile, tracks: Tracks, profiles: map<string, WireProfile>, id: string)
    requires id in tracks
    ensures var next := Apply(default, tracks, ApplyProfiles(profiles));
      && id in next && next[id] == tracks[id].(profile := if id in profiles then Some(profiles[id]) else tracks[id].profile)
  {
  }

  /** The profile's cap for a valve: the cloud's if it set one, else the hub's own. */
  function CapFor(default: Profile, wire: Option<WireProfile>): real {
    if wire.Some? && wire.value.volumeCapL.Some? then wire.value.volumeCapL.value else default.volumeCapL
  }

  /** A reading that finds an idle valve watering begins a normal run under the profile. */
  lemma WateringIsAdopted(default: Profile, tracks: Tracks, id: string, obs: Observation)
    requires id in tracks && tracks[id].state.Idle? && obs.watering
    ensures var begun := Apply(default, tracks, Observe(id, obs));
      && id in begun
      && begun[id].state == Running(Run(
           Normal, obs.at,
           if obs.remainSecs.Some? && obs.remainSecs.value > 0 then obs.remainSecs.value
           else ProfileFor(tracks[id].profile, default).durationSecs,
           CapFor(default, tracks[id].profile), obs.volumeL, Adopted, None, false, false))
      && ActionOf(default, tracks, Observe(id, obs)) == NoAction
  {
  }

  /** A call that is not about this valve's run. */
  predicate PassesBy(call: Call, id: string) {
    call.ApplyProfiles? || call.id != id || call.TakePendingOpen?
  }

  lemma {:induction false} PassedBy(default: Profile, tracks: Tracks, calls: seq<Call>, id: string)
    requires id in tracks && forall k :: 0 <= k < |calls| ==> PassesBy(calls[k], id)
    ensures id in After(default, tracks, calls) && After(default, tracks, calls)[id].state == tracks[id].state
  {
    if calls != [] {
      PassedBy(default, tracks, calls[..|calls| - 1], id);
      assert PassesBy(calls[|calls| - 1], id);
    }
  }

  /**
   So a run started at the valve's own button is capped like any other: the next watering reading at or over the
   cap of the profile it was adopted under asks for the Stop, whatever else is called in between.
   */
  lemma {:induction false} AdoptedRunIsCut(default: Profile, tracks: Tracks, id: string, first: Observation, between: seq<Call>, second: Observation)
    requires id in tracks && tracks[id].state.Idle? && first.watering && second.watering
    requires forall k :: 0 <= k < |between| ==> PassesBy(between[k], id)
    requires CapFor(default, tracks[id].profile) > 0.0 && second.volumeL >= CapFor(default, tracks[id].profile)
    ensures var begun := Apply(default, tracks, Observe(id, first));
      ActionOf(default, After(default, begun, between), Observe(id, second)) == Stop(VolumeCap)
  {
    hide After, ActionOf, Apply;
    WateringIsAdopted(default, tracks, id, first);
    var begun := Apply(default, tracks, Observe(id, first));
    PassedBy(default, begun, between, id);
    StopsExactly(default, After(default, begun, between), id, second);
  }

  /**
   And lands like any other, counting what was out when it was adopted: at every instant no more than its cap, or
   that water and eight seconds' flow if that is more, plus one gap's flow.
   */
  lemma AdoptedRunLands(default: Profile, tracks: Tracks, id: string, first: Observation,
                        readings: seq<Observation>, speedLpm: real, gapMs: int, at: int, volumeL: real)
    requires id in tracks && tracks[id].state.Idle? && first.watering && first.volumeL >= 0.0
    requires CapFor(default, tracks[id].profile) > 0.0 && speedLpm >= 0.0 && gapMs >= 0
    requires FlowsAtMost(first.at, first.volumeL, speedLpm, gapMs, readings)
    requires var begun := Apply(default, tracks, Observe(id, first));
      && id in begun && begun[id].state.Running?
      && StillOpen(begun[id].state.run, readings, ProfileFor(tracks[id].profile, default), first.at, speedLpm, gapMs, at, volumeL)
    ensures volumeL <= RMax(CapFor(default, tracks[id].profile), first.volumeL + Litres(speedLpm, 8_000)) + Litres(speedLpm, gapMs)
  {
    hide Apply, StillOpen, FlowsAtMost;
    WateringIsAdopted(default, tracks, id, first);
    var begun := Apply(default, tracks, Observe(id, first));
    LandsFrom(begun[id].state.run, readings, ProfileFor(tracks[id].profile, default), first.at, speedLpm, gapMs, at, volumeL);
  }

  lemma LitresMonotone(speedLpm: real, a: int, b: int)
    requires speedLpm >= 0.0 && a <= b
    ensures Litres(speedLpm, a) <= Litres(speedLpm, b)
  {
    assert speedLpm * (a as real) <= speedLpm * (b as real) by {
      assert speedLpm * ((b - a) as real) >= 0.0;
    }
  }
}
