/**
 Reopen safety over whole runs of calls: which observations may reopen a valve, what a stop mark
 forbids and for how long, and that no reopen is ever taken twice or out of nothing.
 */
module Reopens {
  import opened Prelude
  import opened Cycle
  import opened ValveRuntime

  /** The tracks after a whole sequence of calls. */
  function After(default: Profile, tracks: Tracks, calls: seq<Call>): Tracks {
    if calls == [] then tracks
    else Apply(default, After(default, tracks, calls[..|calls| - 1]), Last(calls))
  }

  lemma {:induction false} SameValves(default: Profile, tracks: Tracks, calls: seq<Call>)
    ensures After(default, tracks, calls).Keys == tracks.Keys
  {
    if calls != [] {
      SameValves(default, tracks, calls[..|calls| - 1]);
    }
  }

  lemma {:induction false} AfterOneMore(default: Profile, tracks: Tracks, calls: seq<Call>, k: nat)
    requires k < |calls|
    ensures After(default, tracks, calls[..k + 1]) == Apply(default, After(default, tracks, calls[..k]), calls[k])
  {
    assert calls[..k + 1][..k] == calls[..k];
  }

  /** Call `k` observes valve `id` and decides on a reopen. */
  predicate Creates(default: Profile, tracks: Tracks, calls: seq<Call>, k: nat, id: string)
    requires k < |calls|
  {
    var before := After(default, tracks, calls[..k]);
    && calls[k].Observe?
    && calls[k].id == id
    && id in before
    && ReopenDecided(before[id], ProfileFor(before[id].profile, default), calls[k].obs).Some?
  }

  /** Call `k` hands its caller a reopen of valve `id`. */
  predicate Takes(default: Profile, tracks: Tracks, calls: seq<Call>, k: nat, id: string)
    requires k < |calls|
  {
    var before := After(default, tracks, calls[..k]);
    calls[k] == TakePendingOpen(id) && id in before && before[id].pendingOpen.Some?
  }

  // --- Which observations reopen ---------------------------------------------------------------------

  /** The valve is open, in the lead window of an unmarked resuming washdown. */
  predicate InUnmarkedLead(t: Track, obs: Observation) {
    && t.state.Running?
    && obs.watering
    && var run := t.state.run;
       && run.mode == Washdown && run.resumeNormal && run.provenance == Hub
       && run.stopIssued.None? && !run.handoverIssued
       && (if obs.remainSecs.Some? then obs.remainSecs.value <= 20
           else run.durationSecs <= 20 || obs.at - run.startedAt >= 1000 * (run.durationSecs - 20))
  }

  /** The valve is shut, and nothing but its timer accounts for that. */
  predicate EndsByTimer(t: Track, obs: Observation) {
    && t.state.Running?
    && !obs.watering
    && var run := t.state.run;
       var volumeL := if obs.volumeL > 0.0 then obs.volumeL else run.volumeL;
       || run.stopIssued == Some(Timer)
       || (&& run.stopIssued.None?
           && !(run.volumeCapL > 0.0 && volumeL >= run.volumeCapL)
           && Lasted(obs.at - run.startedAt, run.durationSecs - 60))
  }

  /** So many whole seconds have passed, the rest of a second being dropped toward zero. */
  predicate Lasted(ms: int, secs: int) {
    if secs >= 1 then ms >= 1000 * secs else ms > 1000 * (secs - 1)
  }

  /** A washdown carries no positive cap: the hub never starts one, and never adopts one. */
  predicate LawfulShape(t: Track) {
    t.state.Running? && t.state.run.mode == Washdown ==> t.state.run.volumeCapL <= 0.0
  }

  /** An observation creates a reopen in exactly two situations, and each keeps to its own mode. */
  lemma ReopensExactly(t: Track, profile: Profile, obs: Observation)
    requires LawfulShape(t)
    ensures ReopenDecided(t, profile, obs).Some? <==>
      || InUnmarkedLead(t, obs)
      || (&& EndsByTimer(t, obs)
          && ((t.state.run.mode == Washdown && t.state.run.resumeNormal) ||
              (t.state.run.mode == Normal && profile.autoRestart)))
    ensures var decided := ReopenDecided(t, profile, obs);
      decided.Some? ==>
        && decided.value.durationSecs == profile.durationSecs && decided.value.volumeCapL == profile.volumeCapL
        && decided.value.why == (if obs.watering then WashdownHandover
                                 else if t.state.run.mode == Washdown then WashdownResume else AutoRestart)
  {
  }

  /** The profile an observation goes by: each field the cloud set, and the hub's own for the rest. */
  lemma ProfileIsFieldByField(default: Profile, wire: Option<WireProfile>)
    ensures var p := ProfileFor(wire, default);
      && p.durationSecs == (if wire.Some? && wire.value.durationSecs.Some? then wire.value.durationSecs.value else default.durationSecs)
      && p.volumeCapL == (if wire.Some? && wire.value.volumeCapL.Some? then wire.value.volumeCapL.value else default.volumeCapL)
      && p.autoRestart == (if wire.Some? && wire.value.autoRestart.Some? then wire.value.autoRestart.value else default.autoRestart)
  {
  }

  lemma {:induction false} ShapesStayLawful(default: Profile, tracks: Tracks, calls: seq<Call>)
    requires forall id :: id in tracks ==> LawfulShape(tracks[id])
    ensures forall id :: id in After(default, tracks, calls) ==> LawfulShape(After(default, tracks, calls)[id])
  {
    hide LawfulShape, ApplyTo;
    if calls != [] {
      ShapesStayLawful(default, tracks, calls[..|calls| - 1]);
      var was := After(default, tracks, calls[..|calls| - 1]);
      forall id | id in was ensures LawfulShape(ApplyTo(default, id, was[id], Last(calls))) {
        ShapeStaysLawful(default, id, was[id], Last(calls));
      }
    }
  }

  lemma ShapeStaysLawful(default: Profile, id: string, t: Track, call: Call)
    requires LawfulShape(t)
    ensures LawfulShape(ApplyTo(default, id, t, call))
  {
  }

  // --- What a stop mark forbids ----------------------------------------------------------------------

  /** A run on its way shut, for a reason other than its timer. */
  predicate Held(t: Track) {
    t.state.Running? && t.state.run.stopIssued.Some? && t.state.run.stopIssued.value != Timer
  }

  /** A call that neither replaces the run of `id`, nor re-marks it as a timer end, nor releases it. */
  predicate KeepsMark(call: Call, id: string, washdown: bool) {
    && !(call.HubOpen? && call.id == id)
    && !(call == NoteStop(id, Timer))
    && !(call == NoteStopAbandoned(id) && !washdown)
  }

  /** One call against a held run: nothing is created, and the run stays held or has closed. */
  lemma HeldStep(default: Profile, id: string, t: Track, call: Call)
    requires Held(t) && KeepsMark(call, id, t.state.run.mode == Washdown)
    ensures call.Observe? && call.id == id ==> ReopenDecided(t, ProfileFor(t.profile, default), call.obs).None?
    ensures var next := ApplyTo(default, id, t, call);
      if call.Observe? && call.id == id && !call.obs.watering then next.state.Idle?
      else Held(next) && next.state.run.mode == t.state.run.mode && next.state.run.startedAt == t.state.run.startedAt
  {
  }

  /** Call `k` is the observation that closes the run of `id`. */
  predicate Closes(calls: seq<Call>, k: nat, id: string)
    requires k < |calls|
  {
    calls[k].Observe? && calls[k].id == id && !calls[k].obs.watering
  }

  /**
   Once a running cycle carries a stop mark that is not a timer's, no observation of that run creates
   a reopen, the closing one included, however calls about this and other valves interleave. A
   washdown keeps its mark even when its close is abandoned; a capped run keeps it until then.
   */
  lemma {:induction false} MarkedRunNeverReopens(default: Profile, tracks: Tracks, calls: seq<Call>, id: string)
    requires id in tracks && Held(tracks[id])
    requires forall k :: 0 <= k < |calls| ==> KeepsMark(calls[k], id, tracks[id].state.run.mode == Washdown)
    requires forall k :: 0 <= k < |calls| - 1 ==> !Closes(calls, k, id)
    ensures forall k :: 0 <= k < |calls| ==> !Creates(default, tracks, calls, k, id)
    ensures id in After(default, tracks, calls)
    ensures calls == [] || !Closes(calls, |calls| - 1, id) ==>
      && Held(After(default, tracks, calls)[id])
      && After(default, tracks, calls)[id].state.run.mode == tracks[id].state.run.mode
      && After(default, tracks, calls)[id].state.run.startedAt == tracks[id].state.run.startedAt
  {
    if calls != [] {
      var n := |calls| - 1;
      var front := calls[..n];
      forall k | 0 <= k < n ensures front[k] == calls[k] && !Closes(front, k, id) {
        assert !Closes(calls, k, id);
      }
      MarkedRunNeverReopens(default, tracks, front, id);
      HeldStep(default, id, After(default, tracks, front)[id], calls[n]);
      forall k | 0 <= k < |calls| ensures !Creates(default, tracks, calls, k, id) {
        if k < n {
          assert calls[..k] == front[..k];
          assert !Creates(default, tracks, front, k, id);
        }
      }
    }
  }

  /** Why the re-marking clause is needed: a later mark for the timer lifts an earlier flood mark. */
  lemma TimerMarkReopens(default: Profile, id: string, t: Track, at: int)
    requires t.state.Running? && t.state.run.stopIssued == Some(FloodShutoff)
    requires t.state.run.mode == Washdown && t.state.run.resumeNormal
    ensures Held(t)
    ensures var remarked := ApplyTo(default, id, t, NoteStop(id, Timer));
      var closing := Observation(at, false, 0.0, None, 0.0);
      ReopenDecided(remarked, ProfileFor(remarked.profile, default), closing).Some?
  {
  }

  // --- Every reopen taken has an observation of its own ------------------------------------------------

  /** The last call that created a reopen of `id`, or -1. */
  function LastCreation(default: Profile, tracks: Tracks, calls: seq<Call>, id: string): int
    ensures -1 <= LastCreation(default, tracks, calls, id) < |calls|
  {
    if calls == [] then -1
    else
      var n := |calls| - 1;
      if Creates(default, tracks, calls, n, id) then n
      else LastCreation(default, tracks, calls[..n], id)
  }

  /** What observation `k` decided on. */
  function Decided(default: Profile, tracks: Tracks, calls: seq<Call>, k: nat, id: string): Option<PendingOpen>
    requires k < |calls| && Creates(default, tracks, calls, k, id)
  {
    var before := After(default, tracks, calls[..k]);
    ReopenDecided(before[id], ProfileFor(before[id].profile, default), calls[k].obs)
  }

  lemma CreatesInPrefix(default: Profile, tracks: Tracks, calls: seq<Call>, n: nat, k: nat, id: string)
    requires k < n <= |calls|
    ensures Creates(default, tracks, calls[..n], k, id) <==> Creates(default, tracks, calls, k, id)
    ensures Creates(default, tracks, calls, k, id) ==>
      Decided(default, tracks, calls[..n], k, id) == Decided(default, tracks, calls, k, id)
  {
    assert calls[..n][..k] == calls[..k];
  }

  /** A reopen owed after a call was decided by that very call, or was owed before it. */
  lemma OwedStep(default: Profile, id: string, t: Track, call: Call)
    requires ApplyTo(default, id, t, call).pendingOpen.Some?
    ensures var created := call.Observe? && call.id == id && ReopenDecided(t, ProfileFor(t.profile, default), call.obs).Some?;
      ApplyTo(default, id, t, call).pendingOpen ==
        if created then ReopenDecided(t, ProfileFor(t.profile, default), call.obs) else t.pendingOpen
  {
  }

  /**
   A reopen that is owed now and was not owed after the first `m` calls was created since, by the
   last creating observation, and is exactly what that observation decided.
   */
  lemma {:induction false} OwedWasCreatedSince(default: Profile, tracks: Tracks, calls: seq<Call>, m: nat, id: string)
    requires m <= |calls| && id in tracks
    requires After(default, tracks, calls[..m]).Keys == tracks.Keys == After(default, tracks, calls).Keys
    requires After(default, tracks, calls[..m])[id].pendingOpen.None?
    requires After(default, tracks, calls)[id].pendingOpen.Some?
    ensures var j := LastCreation(default, tracks, calls, id);
      && m <= j
      && Creates(default, tracks, calls, j, id)
      && Decided(default, tracks, calls, j, id) == After(default, tracks, calls)[id].pendingOpen
  {
    hide ReopenDecided, ProfileFor, ApplyTo;
    var n := |calls| - 1;
    assert calls[..|calls|] == calls;
    assert m < |calls|;
    SameValves(default, tracks, calls[..n]);
    OwedStep(default, id, After(default, tracks, calls[..n])[id], calls[n]);
    if !Creates(default, tracks, calls, n, id) {
      var front := calls[..n];
      assert front[..m] == calls[..m];
      OwedWasCreatedSince(default, tracks, front, m, id);
      var j := LastCreation(default, tracks, front, id);
      CreatesInPrefix(default, tracks, calls, n, j, id);
    }
  }

  /** The observation that answers for the reopen taken by call `k`. */
  function SourceOf(default: Profile, tracks: Tracks, calls: seq<Call>, k: nat, id: string): int
    requires k < |calls|
  {
    LastCreation(default, tracks, calls[..k], id)
  }

  /** Every reopen taken was decided by an earlier observation, and is what that observation decided. */
  lemma {:induction false} TakenWasDecided(default: Profile, tracks: Tracks, calls: seq<Call>, k: nat, id: string)
    requires k < |calls| && id in tracks && tracks[id].pendingOpen.None?
    requires Takes(default, tracks, calls, k, id)
    ensures var j := SourceOf(default, tracks, calls, k, id);
      && 0 <= j < k
      && Creates(default, tracks, calls, j, id)
      && Decided(default, tracks, calls, j, id) == After(default, tracks, calls[..k])[id].pendingOpen
  {
    SameValves(default, tracks, calls[..k]);
    assert calls[..k][..0] == [];
    OwedWasCreatedSince(default, tracks, calls[..k], 0, id);
    CreatesInPrefix(default, tracks, calls, k, SourceOf(default, tracks, calls, k, id), id);
  }

  /** Two reopens taken never share an observation: the later one was decided after the earlier was taken. */
  lemma TakenHaveDistinctSources(default: Profile, tracks: Tracks, calls: seq<Call>, k1: nat, k2: nat, id: string)
    requires k1 < k2 < |calls| && id in tracks && tracks[id].pendingOpen.None?
    requires Takes(default, tracks, calls, k1, id) && Takes(default, tracks, calls, k2, id)
    ensures SourceOf(default, tracks, calls, k1, id) < k1 < SourceOf(default, tracks, calls, k2, id) < k2
  {
    hide Creates, ReopenDecided, ProfileFor, LastCreation, Decided;
    TakenWasDecided(default, tracks, calls, k1, id);
    TakenWasDecided(default, tracks, calls, k2, id);
    SameValves(default, tracks, calls[..k2]);
    SameValves(default, tracks, calls[..k1 + 1]);
    AfterOneMore(default, tracks, calls, k1);
    hide After, ApplyTo;
    assert calls[..k2][..k1 + 1] == calls[..k1 + 1];
    OwedWasCreatedSince(default, tracks, calls[..k2], k1 + 1, id);
  }

  /** Call `j` is an observation of the valve in an unmarked lead window, or one of a run that ends by its timer. */
  predicate MayReopen(default: Profile, tracks: Tracks, calls: seq<Call>, j: nat, id: string)
    requires j < |calls|
  {
    var before := After(default, tracks, calls[..j]);
    && calls[j].Observe? && calls[j].id == id && id in before
    && (InUnmarkedLead(before[id], calls[j].obs) || EndsByTimer(before[id], calls[j].obs))
  }

  lemma CreatorMayReopen(default: Profile, tracks: Tracks, calls: seq<Call>, j: nat, id: string)
    requires j < |calls| && Creates(default, tracks, calls, j, id)
    requires forall v :: v in tracks ==> LawfulShape(tracks[v])
    ensures MayReopen(default, tracks, calls, j, id)
  {
    hide LawfulShape, InUnmarkedLead, EndsByTimer, ReopenDecided, ProfileFor;
    ShapesStayLawful(default, tracks, calls[..j]);
    var t := After(default, tracks, calls[..j])[id];
    ReopensExactly(t, ProfileFor(t.profile, default), calls[j].obs);
  }

  /**
   Reopens are never out of nothing. From idle valves that owe none, over any calls: every reopen taken is what
   an earlier observation of its valve decided - one in an unmarked lead window, or one that ended a run by its
   timer - and no two are taken from one observation.
   */
  lemma TakesComeFromLawfulObservations(default: Profile, tracks: Tracks, calls: seq<Call>, id: string)
    requires id in tracks && forall v :: v in tracks ==> tracks[v].state.Idle? && tracks[v].pendingOpen.None?
    ensures forall k: nat :: k < |calls| && Takes(default, tracks, calls, k, id) ==>
      var j := SourceOf(default, tracks, calls, k, id);
      && 0 <= j < k && MayReopen(default, tracks, calls, j, id)
      && Creates(default, tracks, calls, j, id)
      && Decided(default, tracks, calls, j, id) == After(default, tracks, calls[..k])[id].pendingOpen
    ensures forall k1: nat, k2: nat ::
      k1 < k2 < |calls| && Takes(default, tracks, calls, k1, id) && Takes(default, tracks, calls, k2, id) ==>
        SourceOf(default, tracks, calls, k1, id) < SourceOf(default, tracks, calls, k2, id)
  {
    assert forall v :: v in tracks ==> LawfulShape(tracks[v]);
    hide Creates, Takes, SourceOf, Decided, MayReopen, LawfulShape;
    forall k: nat | k < |calls| && Takes(default, tracks, calls, k, id)
      ensures var j := SourceOf(default, tracks, calls, k, id);
        && 0 <= j < k && MayReopen(default, tracks, calls, j, id)
        && Creates(default, tracks, calls, j, id)
        && Decided(default, tracks, calls, j, id) == After(default, tracks, calls[..k])[id].pendingOpen
    {
      TakenWasDecided(default, tracks, calls, k, id);
      CreatorMayReopen(default, tracks, calls, SourceOf(default, tracks, calls, k, id), id);
    }
    forall k1: nat, k2: nat | k1 < k2 < |calls| && Takes(default, tracks, calls, k1, id) && Takes(default, tracks, calls, k2, id)
      ensures SourceOf(default, tracks, calls, k1, id) < SourceOf(default, tracks, calls, k2, id)
    {
      TakenHaveDistinctSources(default, tracks, calls, k1, k2, id);
    }
  }
}
