/**
 The seamless handover: a poll loop that keeps to the runtime's hint cannot step over the lead window
 of a washdown, and the run is handed over exactly once.
 */
module Handover {
  import opened Prelude
  import opened Cycle
  import opened ValveRuntime
  import opened Reopens

  const POLL_SECS: nat := 60

  /**
   One pass of the poll loop as one valve meets it: the calls since the last hint, the reading of the
   valve, and the calls from there to the instant the loop asks for its hint before sleeping. The calls
   may be about any valve, and may be further readings of this one, pushed by the gateway.
   */
  datatype Pass = Pass(before: seq<Call>, obs: Observation, after: seq<Call>, hintMs: int)

  function PassCalls(p: Pass, id: string): seq<Call> {
    p.before + [Observe(id, p.obs)] + p.after
  }

  /** Every call of the passes, in order. */
  function CallsOf(passes: seq<Pass>, id: string): seq<Call> {
    if passes == [] then [] else CallsOf(passes[..|passes| - 1], id) + PassCalls(Last(passes), id)
  }

  /** A call that neither replaces nor marks the run of `id`, and that reads it, if at all, still watering. */
  predicate Leaves(call: Call, id: string) {
    && !(call.HubOpen? && call.id == id)
    && !(call.NoteStop? && call.id == id)
    && (call.Observe? && call.id == id ==> call.obs.watering && call.obs.remainSecs.None?)
  }

  /** Such a call, made by `byMs` if it is a reading. */
  predicate Quiet(call: Call, id: string, byMs: int) {
    Leaves(call, id) && (call.Observe? && call.id == id ==> call.obs.at <= byMs)
  }

  /** Up to and including the pass's own reading, nothing but watering readings touches the run. */
  ghost predicate QuietToReading(p: Pass, id: string) {
    && Quiet(Observe(id, p.obs), id, p.obs.at)
    && forall k :: 0 <= k < |p.before| ==> Quiet(p.before[k], id, p.obs.at)
  }

  ghost predicate QuietPass(p: Pass, id: string) {
    && QuietToReading(p, id)
    && forall k :: 0 <= k < |p.after| ==> Quiet(p.after[k], id, p.hintMs)
  }

  /**
   From one reading to the hint and on to the next reading: the loop sleeps no longer than its standing
   cadence and the hint, and spends at most `lagSecs` of its own besides.
   */
  ghost predicate KeepsHint(tracks: Tracks, p: Pass, q: Pass, lagSecs: nat) {
    && p.obs.at <= p.hintMs <= p.obs.at + 1000 * lagSecs
    && forall hint :: IsPollHint(tracks, p.hintMs, hint) ==>
         p.hintMs <= q.obs.at <= p.obs.at + 1000 * (lagSecs + (if hint.Some? then Min(POLL_SECS, hint.value) else POLL_SECS))
  }

  /** Every sleep of the loop is kept to the hint it asked for, on the tracks as the calls so far left them. */
  ghost predicate LoopKeepsHints(default: Profile, tracks: Tracks, passes: seq<Pass>, id: string, lagSecs: nat) {
    forall i :: 0 <= i < |passes| - 1 ==>
      KeepsHint(After(default, tracks, CallsOf(passes[..i + 1], id)), passes[i], passes[i + 1], lagSecs)
  }

  /** Valve `id` carries a resuming hub washdown begun at `start` for `secs`, unmarked and not handed over. */
  predicate StillAwaits(tracks: Tracks, id: string, start: int, secs: nat) {
    id in tracks && Awaits(tracks[id], start, secs) && tracks[id].state.run.volumeCapL <= 0.0
  }

  predicate Awaits(t: Track, start: int, secs: nat) {
    && t.state.Running?
    && var run := t.state.run;
       && run.mode == Washdown && run.resumeNormal && run.provenance == Hub
       && run.stopIssued.None? && !run.handoverIssued
       && run.startedAt == start && run.durationSecs == secs
  }

  /** An accepted open starts exactly this run, and only a washdown goes without a cap. */
  lemma OpenStartsRun(default: Profile, tracks: Tracks, id: string, at: int, mode: Mode, d: nat, capL: real, resume: bool)
    ensures var open := HubOpen(id, at, mode, d, capL, resume);
      && (OpenAccepted(tracks, open) <==> id in tracks && (mode == Washdown <==> capL <= 0.0))
      && (OpenAccepted(tracks, open) ==>
            id in Apply(default, tracks, open) &&
            Apply(default, tracks, open)[id].state ==
              Running(Run(mode, at, if d == 0 then 1 else d, capL, 0.0, Hub, None, resume && mode == Washdown, false)))
  {
  }

  // --- The window in milliseconds -------------------------------------------------------------------------------------

  /** When the lead window opens: twenty seconds before the run is out. */
  function WindowMs(start: int, secs: nat): int {
    start + 1000 * (secs - 20)
  }

  /** An awaiting run read watering, with no remaining time of the gateway, is handed over exactly from that instant on. */
  lemma HandsOverFromTheInstant(default: Profile, t: Track, start: int, secs: nat, obs: Observation)
    requires Awaits(t, start, secs) && t.state.run.volumeCapL <= 0.0
    requires obs.watering && obs.remainSecs.None? && obs.at >= start
    ensures var profile := ProfileFor(t.profile, default);
      var next := ObserveTrack(t, profile, obs);
      if obs.at >= start + 1000 * (secs - 20) then
        && ReopenDecided(t, profile, obs) == Some(PendingOpen(profile.durationSecs, profile.volumeCapL, WashdownHandover))
        && next.pendingOpen == ReopenDecided(t, profile, obs) && next.state.Running? && next.state.run.handoverIssued
      else ReopenDecided(t, profile, obs).None? && next.pendingOpen == t.pendingOpen && Awaits(next, start, secs)
  {
  }

  /** A reading of `id` in the lead window, by the run's own clock. */
  predicate InWindow(call: Call, id: string, start: int, secs: nat) {
    call.Observe? && call.id == id && call.obs.at >= WindowMs(start, secs)
  }

  /** Where the gateway offers a remaining time, that decides instead. */
  lemma GatewayTimeDecides(default: Profile, t: Track, start: int, secs: nat, obs: Observation)
    requires Awaits(t, start, secs) && t.state.run.volumeCapL <= 0.0 && obs.watering && obs.remainSecs.Some?
    ensures ReopenDecided(t, ProfileFor(t.profile, default), obs).Some? <==> obs.remainSecs.value <= 20
  {
  }

  predicate AwaitsNow(t: Track) {
    t.state.Running? && Awaits(t, t.state.run.startedAt, t.state.run.durationSecs)
  }

  function OpensAtMs(t: Track): int
    requires t.state.Running?
  {
    t.state.run.startedAt + 1000 * (t.state.run.durationSecs - 20)
  }

  /** The instant a wait is counted from: no earlier than the run's own start. */
  function FromMs(t: Track, nowMs: int): int
    requires t.state.Running?
  {
    if nowMs < t.state.run.startedAt then t.state.run.startedAt else nowMs
  }

  /**
   The hint in milliseconds. There is one exactly when some valve awaits; it is never under five seconds; it wakes
   the loop within a second of the soonest window's opening, or in five seconds if that is sooner.
   */
  lemma HintAimsAtTheWindow(tracks: Tracks, nowMs: int, hint: Option<nat>)
    requires IsPollHint(tracks, nowMs, hint)
    ensures hint.Some? <==> exists id :: id in tracks && AwaitsNow(tracks[id])
    ensures hint.Some? ==> hint.value >= 5
    ensures hint.Some? ==> forall id :: id in tracks && AwaitsNow(tracks[id]) ==>
              hint.value == 5 || FromMs(tracks[id], nowMs) + 1000 * hint.value < OpensAtMs(tracks[id]) + 1000
    ensures hint.Some? ==>
      exists id :: id in tracks && AwaitsNow(tracks[id]) && FromMs(tracks[id], nowMs) + 1000 * hint.value >= OpensAtMs(tracks[id])
  {
    hide Awaiting;
    assert forall t: Track :: AwaitsNow(t) <==> Awaiting(t) by {
      forall t: Track ensures AwaitsNow(t) <==> Awaiting(t) { AwaitingIs(t); }
    }
  }

  lemma AwaitingIs(t: Track)
    ensures AwaitsNow(t) <==> Awaiting(t)
  {
  }

  /** A hint exists: the soonest of finitely many valves. */
  lemma HintExists(tracks: Tracks, nowMs: int, ids: set<string>) returns (hint: Option<nat>)
    requires ids <= tracks.Keys
    ensures IsPollHint(map id | id in ids :: tracks[id], nowMs, hint)
    decreases ids
  {
    var part := map id | id in ids :: tracks[id];
    if ids == {} {
      hint := None;
    } else {
      var id :| id in ids;
      var rest := map v | v in ids - {id} :: tracks[v];
      hint := HintExists(tracks, nowMs, ids - {id});
      if Awaiting(tracks[id]) {
        var need := Max(SecondsUntilLead(tracks[id].state.run, nowMs), HINT_FLOOR_SECS);
        if hint.None? || need < hint.value {
          hint := Some(need);
          assert part[id] == tracks[id];
        } else {
          var v :| v in rest && Awaiting(rest[v]) && hint.value == Max(SecondsUntilLead(rest[v].state.run, nowMs), HINT_FLOOR_SECS);
          assert part[v] == rest[v];
        }
      } else if hint.Some? {
        var v :| v in rest && Awaiting(rest[v]) && hint.value == Max(SecondsUntilLead(rest[v].state.run, nowMs), HINT_FLOOR_SECS);
        assert part[v] == rest[v];
      }
      assert forall v :: v in part && v != id ==> v in rest && part[v] == rest[v];
    }
  }

  /** With the valve still awaiting when the hint is asked for, the reading after one before the window is not far into it. */
  lemma NextPassIsEarlyEnough(tracks: Tracks, p: Pass, q: Pass, id: string, start: int, secs: nat, lagSecs: nat)
    requires StillAwaits(tracks, id, start, secs) && KeepsHint(tracks, p, q, lagSecs)
    requires p.obs.at < start + 1000 * (secs - 20)
    ensures q.obs.at < start + 1000 * (secs - 15 + lagSecs)
  {
    var hint := HintExists(tracks, p.hintMs, tracks.Keys);
    assert (map v | v in tracks.Keys :: tracks[v]) == tracks;
    assert AwaitsNow(tracks[id]);
    HintAimsAtTheWindow(tracks, p.hintMs, hint);
    hide IsPollHint;
    var nap := Min(POLL_SECS, hint.value);
    assert q.obs.at <= p.obs.at + 1000 * (lagSecs + nap);
  }

  /** Call `k` decides on a handover of valve `id`. */
  predicate QueuesHandover(default: Profile, tracks: Tracks, calls: seq<Call>, k: nat, id: string)
    requires k < |calls|
  {
    Creates(default, tracks, calls, k, id) && Decided(default, tracks, calls, k, id).value.why == WashdownHandover
  }

  /** One quiet call before the window leaves the run waiting and decides on nothing. */
  lemma WaitingStep(default: Profile, id: string, t: Track, call: Call, start: int, secs: nat)
    requires Awaits(t, start, secs) && t.state.run.volumeCapL <= 0.0 && secs > 20
    requires Leaves(call, id) && !InWindow(call, id, start, secs)
    ensures var next := ApplyTo(default, id, t, call); Awaits(next, start, secs) && next.state.run.volumeCapL <= 0.0
    ensures call.Observe? && call.id == id ==> ReopenDecided(t, ProfileFor(t.profile, default), call.obs).None?
  {
  }

  /** The first reading inside the window decides on the handover. */
  lemma WindowReading(default: Profile, id: string, t: Track, call: Call, start: int, secs: nat)
    requires Awaits(t, start, secs) && t.state.run.volumeCapL <= 0.0 && secs > 20
    requires Leaves(call, id) && InWindow(call, id, start, secs)
    ensures ReopenDecided(t, ProfileFor(t.profile, default), call.obs)
         == Some(Reopen(ProfileFor(t.profile, default), WashdownHandover))
  {
  }

  /** Until a reading falls inside the window, the run waits and no call hands it over. */
  lemma {:induction false} WaitsOutside(default: Profile, tracks: Tracks, calls: seq<Call>, id: string, start: int, secs: nat, n: nat)
    requires n <= |calls| && StillAwaits(tracks, id, start, secs) && secs > 20
    requires forall k :: 0 <= k < n ==> Leaves(calls[k], id) && !InWindow(calls[k], id, start, secs)
    ensures StillAwaits(After(default, tracks, calls[..n]), id, start, secs)
    ensures forall k :: 0 <= k < n ==> !QueuesHandover(default, tracks, calls, k, id)
  {
    hide Awaits, Leaves, InWindow, ApplyTo, ReopenDecided, ProfileFor;
    if n > 0 {
      WaitsOutside(default, tracks, calls, id, start, secs, n - 1);
      AfterOneMore(default, tracks, calls, n - 1);
      var before := After(default, tracks, calls[..n - 1]);
      WaitingStep(default, id, before[id], calls[n - 1], start, secs);
    }
  }

  lemma FirstInWindow(calls: seq<Call>, id: string, start: int, secs: nat, m: nat) returns (k: nat)
    requires m < |calls| && InWindow(calls[m], id, start, secs)
    ensures k <= m && InWindow(calls[k], id, start, secs) && forall i :: 0 <= i < k ==> !InWindow(calls[i], id, start, secs)
  {
    k := 0;
    while !InWindow(calls[k], id, start, secs)
      invariant k <= m
      invariant forall i :: 0 <= i < k ==> !InWindow(calls[i], id, start, secs)
      decreases m - k
    {
      k := k + 1;
    }
  }

  /** The calls of quiet passes read before the window: quiet, and none reads far inside it. */
  lemma {:induction false} QuietRun(passes: seq<Pass>, id: string, start: int, secs: nat, lagSecs: nat)
    requires forall i :: 0 <= i < |passes| ==>
      && QuietPass(passes[i], id)
      && passes[i].obs.at < WindowMs(start, secs)
      && passes[i].obs.at <= passes[i].hintMs <= passes[i].obs.at + 1000 * lagSecs
    ensures forall k :: 0 <= k < |CallsOf(passes, id)| ==> Leaves(CallsOf(passes, id)[k], id)
    ensures forall k :: 0 <= k < |CallsOf(passes, id)| && InWindow(CallsOf(passes, id)[k], id, start, secs) ==>
              CallsOf(passes, id)[k].obs.at < WindowMs(start, secs) + 1000 * lagSecs
  {
    if passes != [] {
      var front, p := passes[..|passes| - 1], Last(passes);
      QuietRun(front, id, start, secs, lagSecs);
      var early, late := CallsOf(front, id), PassCalls(p, id);
      forall k | 0 <= k < |late|
        ensures Leaves(late[k], id)
        ensures InWindow(late[k], id, start, secs) ==> late[k].obs.at < WindowMs(start, secs) + 1000 * lagSecs
      {
        QuietInPass(p, id, k);
      }
      hide Leaves, InWindow, PassCalls;
      var all := CallsOf(passes, id);
      assert forall k :: 0 <= k < |all| ==> all[k] == if k < |early| then early[k] else late[k - |early|];
    }
  }

  lemma QuietInPass(p: Pass, id: string, k: nat)
    requires QuietPass(p, id) && p.obs.at <= p.hintMs && k < |PassCalls(p, id)|
    ensures Quiet(PassCalls(p, id)[k], id, p.hintMs)
  {
    if k < |p.before| { assert Quiet(p.before[k], id, p.obs.at); }
    if k > |p.before| { assert Quiet(p.after[k - |p.before| - 1], id, p.hintMs); }
  }

  lemma HintIsSoon(tracks: Tracks, p: Pass, q: Pass, lagSecs: nat)
    requires KeepsHint(tracks, p, q, lagSecs)
    ensures p.obs.at <= p.hintMs <= p.obs.at + 1000 * lagSecs
  {
  }

  lemma InWindowAt(call: Call, id: string, start: int, secs: nat)
    requires InWindow(call, id, start, secs)
    ensures call.Observe? && call.id == id && call.obs.at >= start + 1000 * (secs - 20)
  {
  }

  /** The last pass's reading is a call of the run inside the window, and quiet, as is what comes before it in the pass. */
  lemma ReadsInLast(early: seq<Call>, p: Pass, id: string, start: int, secs: nat)
    requires QuietToReading(p, id) && p.obs.at >= WindowMs(start, secs)
    requires forall k :: 0 <= k < |early| ==> Leaves(early[k], id)
    ensures var calls, m := early + PassCalls(p, id), |early| + |p.before|;
      && m < |calls| && InWindow(calls[m], id, start, secs)
      && (forall k :: 0 <= k <= m ==> Leaves(calls[k], id))
      && forall k :: |early| <= k <= m ==> Quiet(calls[k], id, p.obs.at)
  {
    var calls, m := early + PassCalls(p, id), |early| + |p.before|;
    assert calls[m] == Observe(id, p.obs);
    forall k | 0 <= k <= m
      ensures k >= |early| ==> Quiet(calls[k], id, p.obs.at)
      ensures Leaves(calls[k], id)
    {
      if k < |early| {
        assert calls[k] == early[k];
      } else if k < m {
        assert calls[k] == p.before[k - |early|];
      }
    }
  }

  /** A reading in the last pass is no later than the pass's own. */
  lemma LastReadsBy(call: Call, p: Pass, id: string)
    requires Quiet(call, id, p.obs.at)
    ensures call.Observe? && call.id == id ==> call.obs.at <= p.obs.at
  {
  }

  lemma {:induction false} WindowQueues(default: Profile, tracks: Tracks, calls: seq<Call>, id: string, start: int, secs: nat, k: nat)
    requires k < |calls| && StillAwaits(After(default, tracks, calls[..k]), id, start, secs) && secs > 20
    requires Leaves(calls[k], id) && InWindow(calls[k], id, start, secs)
    ensures QueuesHandover(default, tracks, calls, k, id)
  {
    hide ReopenDecided, Leaves, Awaits;
    WindowReading(default, id, After(default, tracks, calls[..k])[id], calls[k], start, secs);
  }

  lemma LeavesOpensNothing(call: Call, id: string)
    requires Leaves(call, id)
    ensures !OpensWashdown(call, id)
  {
  }

  /**
   No poll loop can skip a handover. Over any passes kept to the hint, with any number of other valves
   and any other calls in between, an awaiting washdown read earlier than twenty seconds before its end on every
   pass but the last, and from then on there, is handed over by exactly one call of the run; that call is a
   reading made in the five seconds after that instant, or later by no more than what the loop lags.
   After the last reading anything may be called, short of opening another washdown: the Normal Run that
   the handover asks for is begun there.
   */
  lemma NoPassSkipsTheWindow(default: Profile, tracks: Tracks, passes: seq<Pass>, id: string, start: int, secs: nat, lagSecs: nat)
      returns (k: nat)
    requires |passes| >= 2 && StillAwaits(tracks, id, start, secs) && secs > 20
    requires LoopKeepsHints(default, tracks, passes, id, lagSecs)
    requires forall i :: 0 <= i < |passes| - 1 ==> QuietPass(passes[i], id) && passes[i].obs.at < start + 1000 * (secs - 20)
    requires QuietToReading(Last(passes), id) && Last(passes).obs.at >= start + 1000 * (secs - 20)
    requires forall i :: 0 <= i < |Last(passes).after| ==> !OpensWashdown(Last(passes).after[i], id)
    ensures var calls := CallsOf(passes, id);
      && k < |calls| && QueuesHandover(default, tracks, calls, k, id) && calls[k].Observe? && calls[k].id == id
      && start + 1000 * (secs - 20) <= calls[k].obs.at < start + 1000 * (secs - 15 + lagSecs)
      && forall j :: 0 <= j < |calls| && j != k ==> !QueuesHandover(default, tracks, calls, j, id)
  {
    hide KeepsHint, QuietPass, QuietToReading, QueuesHandover, Awaits, InWindow, Quiet, Leaves, OpensWashdown;
    var n := |passes| - 1;
    var front, p := passes[..n], passes[n];
    var calls, early := CallsOf(passes, id), CallsOf(front, id);
    forall i | 0 <= i < n ensures passes[i].obs.at <= passes[i].hintMs <= passes[i].obs.at + 1000 * lagSecs {
      HintIsSoon(After(default, tracks, CallsOf(passes[..i + 1], id)), passes[i], passes[i + 1], lagSecs);
    }
    QuietRun(front, id, start, secs, lagSecs);
    var m := |early| + |p.before|;
    ReadsInLast(early, p, id, start, secs);
    k := FirstInWindow(calls, id, start, secs, m);
    InWindowAt(calls[k], id, start, secs);
    WaitsOutside(default, tracks, calls, id, start, secs, k);
    WindowQueues(default, tracks, calls, id, start, secs, k);
    if k < |early| {
      assert calls[k] == early[k];
    } else {
      WaitsOutside(default, tracks, calls, id, start, secs, |early|);
      assert calls[..|early|] == early;
      NextPassIsEarlyEnough(After(default, tracks, early), passes[n - 1], p, id, start, secs, lagSecs);
      LastReadsBy(calls[k], p, id);
    }
    forall i | k < i < |calls| ensures !OpensWashdown(calls[i], id) {
      if i <= m {
        LeavesOpensNothing(calls[i], id);
      } else {
        assert calls[i] == p.after[i - m - 1];
      }
    }
    HandoverHappensOnce(default, tracks, calls, k, id);
  }

  /** So a washdown told to resume, from the call that opens it on. */
  lemma OpenedWashdownIsHandedOver(default: Profile, tracks: Tracks, passes: seq<Pass>, id: string, at: int, d: nat, capL: real, lagSecs: nat)
      returns (k: nat)
    requires id in tracks && capL <= 0.0 && d > 20 && |passes| >= 2
    requires var begun := Apply(default, tracks, HubOpen(id, at, Washdown, d, capL, true));
      LoopKeepsHints(default, begun, passes, id, lagSecs)
    requires forall i :: 0 <= i < |passes| - 1 ==> QuietPass(passes[i], id) && passes[i].obs.at < at + 1000 * (d - 20)
    requires QuietToReading(Last(passes), id) && Last(passes).obs.at >= at + 1000 * (d - 20)
    requires forall i :: 0 <= i < |Last(passes).after| ==> !OpensWashdown(Last(passes).after[i], id)
    ensures var begun, calls := Apply(default, tracks, HubOpen(id, at, Washdown, d, capL, true)), CallsOf(passes, id);
      && k < |calls| && QueuesHandover(default, begun, calls, k, id) && calls[k].Observe? && calls[k].id == id
      && at + 1000 * (d - 20) <= calls[k].obs.at < at + 1000 * (d - 15 + lagSecs)
      && forall j :: 0 <= j < |calls| && j != k ==> !QueuesHandover(default, begun, calls, j, id)
  {
    hide LoopKeepsHints, QuietPass, QuietToReading, QueuesHandover, OpensWashdown;
    OpenStartsRun(default, tracks, id, at, Washdown, d, capL, true);
    var begun := Apply(default, tracks, HubOpen(id, at, Washdown, d, capL, true));
    k := NoPassSkipsTheWindow(default, begun, passes, id, at, d, lagSecs);
  }

  /** An idle valve, a run already handed over, or a run that is no washdown. */
  predicate NoHandoverLeft(t: Track) {
    t.state.Idle? || t.state.run.handoverIssued || t.state.run.mode != Washdown
  }

  predicate OpensWashdown(call: Call, id: string) {
    call.HubOpen? && call.id == id && call.mode == Washdown
  }

  /** Nothing but a new washdown of the valve makes a handover possible again. */
  lemma SpentStep(default: Profile, id: string, t: Track, call: Call)
    requires NoHandoverLeft(t)
    requires !OpensWashdown(call, id)
    ensures NoHandoverLeft(ApplyTo(default, id, t, call))
    ensures call.Observe? && call.id == id ==>
      var decided := ReopenDecided(t, ProfileFor(t.profile, default), call.obs);
      decided.Some? ==> decided.value.why != WashdownHandover
  {
  }

  /** Once a run has been handed over, no later call hands the valve over until another washdown is opened. */
  lemma {:induction false} HandoverHappensOnce(default: Profile, tracks: Tracks, calls: seq<Call>, j: nat, id: string)
    requires j < |calls| && id in tracks
    requires QueuesHandover(default, tracks, calls, j, id)
    requires forall k :: j < k < |calls| ==> !OpensWashdown(calls[k], id)
    ensures forall k :: j < k < |calls| ==> !QueuesHandover(default, tracks, calls, k, id)
    ensures id in After(default, tracks, calls) && NoHandoverLeft(After(default, tracks, calls)[id])
    decreases |calls|
  {
    var n := |calls| - 1;
    var front := calls[..n];
    SameValves(default, tracks, front);
    assert calls[..|calls|] == calls;
    if j < n {
      CreatesInPrefix(default, tracks, calls, n, j, id);
      HandoverHappensOnce(default, tracks, front, j, id);
      SpentStep(default, id, After(default, tracks, front)[id], calls[n]);
      forall k | j < k < |calls| ensures !QueuesHandover(default, tracks, calls, k, id) {
        if k < n {
          CreatesInPrefix(default, tracks, calls, n, k, id);
          assert !QueuesHandover(default, tracks, front, k, id);
        }
      }
    }
  }
}
