/**
 The valve cycle machine: three modes, one observation step, and the decisions that follow from how
 a run ended. Times are ms since the epoch; volumes are litres; flow is litres per minute.
 */
module Cycle {
  import opened Prelude

  datatype Mode = Normal | Washdown | TankFill

  datatype EndReason = Timer | VolumeCap | Manual | FloodShutoff | Unknown

  datatype Provenance = Hub | Adopted

  /** The Normal Run a valve returns to; also the cap a manual press adopts. */
  datatype Profile = Profile(durationSecs: nat, volumeCapL: real, autoRestart: bool)

  datatype Run = Run(
    mode: Mode,
    startedAt: int,
    durationSecs: nat,
    volumeCapL: real,
    volumeL: real,
    provenance: Provenance,
    stopIssued: Option<EndReason>,
    resumeNormal: bool,
    handoverIssued: bool)

  datatype State = Idle | Running(run: Run)

  datatype Ended = Ended(
    mode: Mode,
    endedAt: int,
    reason: EndReason,
    volumeL: real,
    provenance: Provenance,
    resumeNormal: bool)

  datatype Observation = Observation(
    at: int,
    watering: bool,
    volumeL: real,
    remainSecs: Option<nat>,
    speedLpm: real)

  datatype Action = NoAction | Stop(reason: EndReason)

  datatype StepResult = StepResult(state: State, action: Action, ended: Option<Ended>)

  datatype StartResult = Started(run: Run) | Outlawed

  /** A run the hub starts itself: a washdown carries no cap, every other mode must carry one. */
  function StartHubCycle(at: int, mode: Mode, durationSecs: nat, volumeCapL: real, resumeNormal: bool): StartResult {
    if mode == Washdown && volumeCapL > 0.0 then Outlawed
    else if mode != Washdown && volumeCapL <= 0.0 then Outlawed
    else
      Started(Run(mode, at, Max(durationSecs, 1), volumeCapL, 0.0, Hub, None,
                  resumeNormal && mode == Washdown, false))
  }

  /** A run the hub did not start is a Normal Run under the profile's cap. */
  function AdoptCycle(at: int, profile: Profile, remainSecs: Option<nat>): Run {
    Run(Normal, at,
        if remainSecs.Some? && remainSecs.value > 0 then remainSecs.value else profile.durationSecs,
        profile.volumeCapL, 0.0, Adopted, None, false, false)
  }

  const STOP_LATENCY_SECS := 8.0

  /** The volume at which the cutoff fires so that the run lands on its cap. */
  function CutoffTriggerL(capL: real, speedLpm: real): real {
    if capL <= 0.0 then 0.0
    else if speedLpm <= 0.0 then capL
    else RMax(capL - speedLpm * (STOP_LATENCY_SECS / 60.0), 0.0)
  }

  /** Why a run that is no longer watering ended: what the hub did outranks what the clock suggests. */
  function ClosedBecause(cur: Run, volumeL: real, at: int): EndReason {
    if cur.stopIssued.Some? then cur.stopIssued.value
    else if cur.volumeCapL > 0.0 && volumeL >= cur.volumeCapL then VolumeCap
    else if TruncDiv(at - cur.startedAt, 1000) >= cur.durationSecs - 60 then Timer
    else Unknown
  }

  function Step(state: State, obs: Observation, profile: Profile): StepResult {
    match state
    case Idle =>
      if !obs.watering then StepResult(Idle, NoAction, None)
      else StepResult(Running(AdoptCycle(obs.at, profile, obs.remainSecs).(volumeL := obs.volumeL)), NoAction, None)
    case Running(cur) =>
      var next := if obs.volumeL > 0.0 then cur.(volumeL := obs.volumeL) else cur;
      if obs.watering then
        var triggerL := CutoffTriggerL(next.volumeCapL, obs.speedLpm);
        if next.stopIssued.None? && next.volumeCapL > 0.0 && next.volumeL >= triggerL then
          StepResult(Running(next.(stopIssued := Some(VolumeCap))), Stop(VolumeCap), None)
        else
          StepResult(Running(next), NoAction, None)
      else
        var reason := ClosedBecause(cur, next.volumeL, obs.at);
        StepResult(Idle, NoAction,
                   Some(Ended(cur.mode, obs.at, reason, next.volumeL, cur.provenance, cur.resumeNormal)))
  }

  const HANDOVER_LEAD_SECS: nat := 20

  /** Whole seconds a run still has by the hub's own clock. */
  function SecondsLeft(run: Run, nowMs: int): nat {
    var elapsed := Max(TruncDiv(nowMs - run.startedAt, 1000), 0);
    Max(run.durationSecs - elapsed, 0)
  }

  /** A hub washdown told to resume, carrying no stop mark and not yet handed over. */
  predicate AwaitsHandover(run: Run) {
    && !run.handoverIssued
    && run.stopIssued.None?
    && run.mode == Washdown
    && run.resumeNormal
    && run.provenance == Hub
  }

  predicate ShouldHandOver(run: Run, remainSecs: Option<nat>, nowMs: int, leadSecs: nat) {
    && AwaitsHandover(run)
    && (if remainSecs.Some? then remainSecs.value else SecondsLeft(run, nowMs)) <= leadSecs
  }

  predicate ShouldResumeNormal(ended: Ended) {
    ended.resumeNormal && ended.mode == Washdown && ended.reason == Timer
  }

  predicate ShouldAutoRestart(ended: Ended, autoRestartEnabled: bool) {
    autoRestartEnabled && ended.mode == Normal && ended.reason == Timer
  }
}
