/**
 The valve runtime: per-valve state changed by observations, opens, stop marks, abandoned closes and
 reopens taken. Every method of `Runtime` is proved to make the step `Apply` gives its call; what
 holds over whole runs of calls is proved about `Apply` in the modules beside this one.
 */
module ValveRuntime {
  import opened Prelude
  import opened Cycle
  import opened Ledgers

  /** Fields the cloud never set stay absent and fall to the hub's own default, one by one. */
  datatype WireProfile = WireProfile(
    durationSecs: Option<nat>,
    volumeCapL: Option<real>,
    autoRestart: Option<bool>)

  datatype Why = WashdownHandover | WashdownResume | AutoRestart

  /** A reopen owed to a valve: always its Normal Run. */
  datatype PendingOpen = PendingOpen(durationSecs: nat, volumeCapL: real, why: Why)

  datatype Track = Track(
    state: State,
    ledger: Option<Ledger>,
    profile: Option<WireProfile>,
    pendingOpen: Option<PendingOpen>)

  type Tracks = map<string, Track>

  const NEW_TRACK := Track(Idle, None, None, None)

  function Or<T>(o: Option<T>, default: T): T {
    if o.Some? then o.value else default
  }

  function ProfileFor(wire: Option<WireProfile>, default: Profile): Profile {
    match wire
    case None => default
    case Some(w) =>
      Profile(Or(w.durationSecs, default.durationSecs),
              Or(w.volumeCapL, default.volumeCapL),
              Or(w.autoRestart, default.autoRestart))
  }

  // --- One valve -----------------------------------------------------------------------------------

  function Reopen(profile: Profile, why: Why): PendingOpen {
    PendingOpen(profile.durationSecs, profile.volumeCapL, why)
  }

  /** The reopen one observation decides on, if any: a handover while open, or one after the close. */
  function ReopenDecided(t: Track, profile: Profile, obs: Observation): Option<PendingOpen> {
    var r := Step(t.state, obs, profile);
    if r.state.Running? && ShouldHandOver(r.state.run, obs.remainSecs, obs.at, HANDOVER_LEAD_SECS) then
      Some(Reopen(profile, WashdownHandover))
    else if r.ended.Some? && ShouldResumeNormal(r.ended.value) then
      Some(Reopen(profile, WashdownResume))
    else if r.ended.Some? && ShouldAutoRestart(r.ended.value, profile.autoRestart) then
      Some(Reopen(profile, AutoRestart))
    else None
  }

  function ObserveTrack(t: Track, profile: Profile, obs: Observation): Track {
    var r := Step(t.state, obs, profile);
    var decided := ReopenDecided(t, profile, obs);
    Track(
      if r.state.Running? && decided.Some? then Running(r.state.run.(handoverIssued := true)) else r.state,
      if r.ended.Some? then Some(ApplyToLedger(t.ledger, r.ended.value)) else t.ledger,
      t.profile,
      if decided.Some? then decided else t.pendingOpen)
  }

  function MarkStop(t: Track, reason: EndReason): Track {
    if t.state.Running? then t.(state := Running(t.state.run.(stopIssued := Some(reason)))) else t
  }

  /** A given-up close releases its mark on a capped run only. */
  predicate Releases(t: Track) {
    && t.state.Running?
    && t.state.run.mode != Washdown
    && t.state.run.volumeCapL > 0.0
    && t.state.run.stopIssued.Some?
  }

  function AbandonStop(t: Track): Track {
    if Releases(t) then t.(state := Running(t.state.run.(stopIssued := None))) else t
  }

  // --- The poll hint -------------------------------------------------------------------------------

  const HINT_FLOOR_SECS: nat := 5

  /** Seconds until a valve awaiting its handover should be looked at. */
  function SecondsUntilLead(run: Run, nowMs: int): nat {
    Max(SecondsLeft(run, nowMs) - HANDOVER_LEAD_SECS, 0)
  }

  predicate Awaiting(t: Track) {
    t.state.Running? && AwaitsHandover(t.state.run)
  }

  /**
   What the hint promises: it is absent exactly when no valve awaits a handover; otherwise it is the
   soonest any of them needs, and never under the floor.
   */
  ghost predicate IsPollHint(tracks: Tracks, nowMs: int, hint: Option<nat>) {
    && (hint.None? <==> forall id :: id in tracks ==> !Awaiting(tracks[id]))
    && (hint.Some? ==>
          && hint.value >= HINT_FLOOR_SECS
          && (exists id :: id in tracks && Awaiting(tracks[id]) &&
                hint.value == Max(SecondsUntilLead(tracks[id].state.run, nowMs), HINT_FLOOR_SECS))
          && (forall id :: id in tracks && Awaiting(tracks[id]) ==>
                hint.value <= Max(SecondsUntilLead(tracks[id].state.run, nowMs), HINT_FLOOR_SECS)))
  }

  // --- One call ------------------------------------------------------------------------------------

  datatype Call =
    | HubOpen(id: string, at: int, mode: Mode, durationSecs: nat, volumeCapL: real, resumeNormal: bool)
    | Observe(id: string, obs: Observation)
    | TakePendingOpen(id: string)
    | NoteStop(id: string, reason: EndReason)
    | NoteStopAbandoned(id: string)
    | ApplyProfiles(profiles: map<string, WireProfile>)

  /** An open is recorded only for a watched valve and a lawful shape. */
  predicate OpenAccepted(tracks: Tracks, call: Call)
    requires call.HubOpen?
  {
    && call.id in tracks
    && StartHubCycle(call.at, call.mode, call.durationSecs, call.volumeCapL, call.resumeNormal).Started?
  }

  /** What one call makes of one valve. */
  function ApplyTo(default: Profile, id: string, t: Track, call: Call): Track {
    match call
    case HubOpen(valve, at, mode, durationSecs, volumeCapL, resumeNormal) =>
      var started := StartHubCycle(at, mode, durationSecs, volumeCapL, resumeNormal);
      if valve == id && started.Started? then t.(state := Running(started.run)) else t
    case Observe(valve, obs) =>
      if valve == id then ObserveTrack(t, ProfileFor(t.profile, default), obs) else t
    case TakePendingOpen(valve) =>
      if valve == id then t.(pendingOpen := None) else t
    case NoteStop(valve, reason) =>
      if valve == id then MarkStop(t, reason) else t
    case NoteStopAbandoned(valve) =>
      if valve == id then AbandonStop(t) else t
    case ApplyProfiles(profiles) =>
      if id in profiles then t.(profile := Some(profiles[id])) else t
  }

  /** What one call makes of the whole runtime: a call about an unwatched valve changes nothing. */
  function Apply(default: Profile, tracks: Tracks, call: Call): Tracks {
    map id | id in tracks :: ApplyTo(default, id, tracks[id], call)
  }

  /** The action an observation asks for. */
  function ActionOf(default: Profile, tracks: Tracks, call: Call): Action {
    if call.Observe? && call.id in tracks then
      Step(tracks[call.id].state, call.obs, ProfileFor(tracks[call.id].profile, default)).action
    else NoAction
  }

  // --- The runtime object --------------------------------------------------------------------------

  class Runtime {
    var defaultProfile: Profile
    var tracks: Tracks

    constructor (devIds: seq<string>, defaultProfile: Profile)
      ensures this.defaultProfile == defaultProfile
      ensures tracks == map id | id in devIds && id != "" :: NEW_TRACK
    {
      this.defaultProfile := defaultProfile;
      tracks := map id | id in devIds && id != "" :: NEW_TRACK;
    }

    /** Record a run this hub has just opened; the next observation continues it. */
    method NoteHubOpen(id: string, at: int, mode: Mode, durationSecs: nat, volumeCapL: real, resumeNormal: bool)
      returns (ok: bool)
      modifies this`tracks
      ensures var call := HubOpen(id, at, mode, durationSecs, volumeCapL, resumeNormal);
        && (ok <==> OpenAccepted(old(tracks), call))
        && tracks == Apply(defaultProfile, old(tracks), call)
    {
      var started := StartHubCycle(at, mode, durationSecs, volumeCapL, resumeNormal);
      if started.Outlawed? || id !in tracks {
        return false;
      }
      tracks := tracks[id := tracks[id].(state := Running(started.run))];
      ok := true;
    }

    /** How many seconds the poll loop may sleep before it must look again. */
    method PollHint(nowMs: int) returns (hint: Option<nat>)
      ensures IsPollHint(tracks, nowMs, hint)
    {
      var soonest: Option<nat> := None;
      var todo := tracks.Keys;
      while todo != {}
        invariant todo <= tracks.Keys
        invariant soonest.None? <==> forall id :: id in tracks && id !in todo ==> !Awaiting(tracks[id])
        invariant soonest.Some? ==>
                    (exists id :: && id in tracks
                                  && Awaiting(tracks[id])
                                  && soonest.value == SecondsUntilLead(tracks[id].state.run, nowMs))
        invariant soonest.Some? ==> forall id :: id in tracks && id !in todo && Awaiting(tracks[id]) ==>
                    soonest.value <= SecondsUntilLead(tracks[id].state.run, nowMs)
        decreases todo
      {
        var id :| id in todo;
        todo := todo - {id};
        var track := tracks[id];
        if track.state.Running? && AwaitsHandover(track.state.run) {
          var elapsed := Max(TruncDiv(nowMs - track.state.run.startedAt, 1000), 0);
          var left := Max(track.state.run.durationSecs - elapsed, 0);
          var until: nat := Max(left - HANDOVER_LEAD_SECS, 0);
          soonest := if soonest.None? then Some(until) else Some(Min(soonest.value, until));
        }
      }
      hint := if soonest.None? then None else Some(Max(soonest.value, HINT_FLOOR_SECS));
    }

    /** Taking a reopen clears it, so a failed open is not retried later. */
    method TakePendingOpen(id: string) returns (taken: Option<PendingOpen>)
      modifies this`tracks
      ensures taken == if id in old(tracks) then old(tracks)[id].pendingOpen else None
      ensures tracks == Apply(defaultProfile, old(tracks), Call.TakePendingOpen(id))
    {
      if id !in tracks {
        return None;
      }
      taken := tracks[id].pendingOpen;
      tracks := tracks[id := tracks[id].(pendingOpen := None)];
    }

    /** The cloud's profiles replace those of the valves they name; other valves keep theirs. */
    method ApplyProfiles(profiles: map<string, WireProfile>)
      modifies this`tracks
      ensures tracks == Apply(defaultProfile, old(tracks), Call.ApplyProfiles(profiles))
    {
      ghost var before := tracks;
      var todo := profiles.Keys;
      while todo != {}
        invariant todo <= profiles.Keys
        invariant tracks.Keys == before.Keys
        invariant forall id :: id in before ==>
                    tracks[id] == if id in profiles && id !in todo
                                  then before[id].(profile := Some(profiles[id]))
                                  else before[id]
        decreases todo
      {
        var id :| id in todo;
        todo := todo - {id};
        if id in tracks {
          tracks := tracks[id := tracks[id].(profile := Some(profiles[id]))];
        }
      }
    }

    /** Feed one status reading of one valve; the caller performs the action. */
    method Observe(id: string, obs: Observation) returns (action: Action)
      modifies this`tracks
      ensures tracks == Apply(defaultProfile, old(tracks), Call.Observe(id, obs))
      ensures action == ActionOf(defaultProfile, old(tracks), Call.Observe(id, obs))
    {
      if id !in tracks {
        return NoAction;
      }
      var profile := ProfileFor(tracks[id].profile, defaultProfile);
      var track := tracks[id];
      var r := Step(track.state, obs, profile);
      track := track.(state := r.state);
      if r.state.Running? && ShouldHandOver(r.state.run, obs.remainSecs, obs.at, HANDOVER_LEAD_SECS) {
        track := track.(state := Running(r.state.run.(handoverIssued := true)),
                        pendingOpen := Some(Reopen(profile, WashdownHandover)));
      }
      if r.ended.Some? {
        var ended := r.ended.value;
        track := track.(ledger := Some(ApplyToLedger(track.ledger, ended)));
        if ShouldResumeNormal(ended) {
          track := track.(pendingOpen := Some(Reopen(profile, WashdownResume)));
        } else if ShouldAutoRestart(ended, profile.autoRestart) {
          track := track.(pendingOpen := Some(Reopen(profile, AutoRestart)));
        }
      }
      tracks := tracks[id := track];
      action := r.action;
    }

    /** Mark a stop the machine cannot infer, so that the close classifies as what the hub did. */
    method NoteStop(id: string, reason: EndReason)
      modifies this`tracks
      ensures tracks == Apply(defaultProfile, old(tracks), Call.NoteStop(id, reason))
    {
      if id in tracks && tracks[id].state.Running? {
        tracks := tracks[id := tracks[id].(state := Running(tracks[id].state.run.(stopIssued := Some(reason))))];
      }
    }

    /** A close the hub gave up on re-arms the cutoff of a capped run. */
    method NoteStopAbandoned(id: string) returns (released: bool)
      modifies this`tracks
      ensures released <==> id in old(tracks) && Releases(old(tracks)[id])
      ensures tracks == Apply(defaultProfile, old(tracks), Call.NoteStopAbandoned(id))
    {
      if id !in tracks || !tracks[id].state.Running? {
        return false;
      }
      var run := tracks[id].state.run;
      if run.mode == Washdown || run.volumeCapL <= 0.0 || run.stopIssued.None? {
        return false;
      }
      tracks := tracks[id := tracks[id].(state := Running(run.(stopIssued := None)))];
      released := true;
    }
  }
}
