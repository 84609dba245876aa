/**
 The ledger of a valve, told from the calls alone: which runs ended, when, and with how many litres.
 */
module Deliveries {
  import opened Prelude
  import opened Cycle
  import opened Ledgers
  import opened ValveRuntime
  import opened Reopens
  import Calendar

  /** A run under way as its calls tell it: its mode, and the litres last read. */
  datatype Flow = Flow(mode: Mode, litres: real)

  /** A run that ended: when it was found shut, its mode, and what it delivered. */
  datatype Delivery = Delivery(at: int, mode: Mode, litres: real)

  /** A reading of nothing is none: the litres stay what they were. */
  function Reread(litres: real, volumeL: real): real {
    if volumeL > 0.0 then volumeL else litres
  }

  function FlowAfter(calls: seq<Call>, id: string): Option<Flow> {
    if calls == [] then None
    else
      var flow := FlowAfter(calls[..|calls| - 1], id);
      match Last(calls)
      case HubOpen(valve, _, mode, _, volumeCapL, _) =>
        if valve == id && (mode == Washdown <==> volumeCapL <= 0.0) then Some(Flow(mode, 0.0)) else flow
      case Observe(valve, obs) =>
        if valve != id then flow
        else if !obs.watering then None
        else if flow.None? then Some(Flow(Normal, obs.volumeL))
        else Some(Flow(flow.value.mode, Reread(flow.value.litres, obs.volumeL)))
      case _ => flow
  }

  function Delivered(calls: seq<Call>, id: string): seq<Delivery> {
    if calls == [] then []
    else
      var front := calls[..|calls| - 1];
      var flow := FlowAfter(front, id);
      match Last(calls)
      case Observe(valve, obs) =>
        if valve == id && !obs.watering && flow.Some?
        then Delivered(front, id) + [Delivery(obs.at, flow.value.mode, Reread(flow.value.litres, obs.volumeL))]
        else Delivered(front, id)
      case _ => Delivered(front, id)
  }

  /** Litres of the runs that were no washdowns and ended on a day of 86 400 000 ms counted from the epoch. */
  function LitresOn(ends: seq<Delivery>, day: int): real {
    if ends == [] then 0.0
    else
      LitresOn(ends[..|ends| - 1], day) +
      (if Last(ends).mode != Washdown && Last(ends).at / 86_400_000 == day then Last(ends).litres else 0.0)
  }

  /** What a closing reading ends: the run as it was, at that instant, with its last litres, for a reason. */
  lemma ClosesExactly(run: Run, obs: Observation, profile: Profile)
    requires !obs.watering
    ensures var r := Step(Running(run), obs, profile);
      && r.state.Idle? && r.action.NoAction? && r.ended.Some?
      && var ended := r.ended.value;
         && ended.mode == run.mode && ended.endedAt == obs.at && ended.volumeL == Reread(run.volumeL, obs.volumeL)
         && ended.provenance == run.provenance && ended.resumeNormal == run.resumeNormal
         && (run.stopIssued.Some? ==> ended.reason == run.stopIssued.value)
         && (run.stopIssued.None? ==>
               if run.volumeCapL > 0.0 && ended.volumeL >= run.volumeCapL then ended.reason == VolumeCap
               else if Lasted(obs.at - run.startedAt, run.durationSecs - 60) then ended.reason == Timer
               else ended.reason == Unknown)
  {
  }

  /** A valve that tells nothing yet. */
  predicate Unopened(t: Track) {
    t.state.Idle? && t.ledger.None?
  }

  predicate SameRun(t: Track, flow: Option<Flow>) {
    && (t.state.Running? <==> flow.Some?)
    && (flow.Some? ==> t.state.run.mode == flow.value.mode && t.state.run.volumeL == flow.value.litres)
  }

  predicate SameEnd(e: Ended, d: Delivery) {
    e.endedAt == d.at && e.mode == d.mode && e.volumeL == d.litres
  }

  /** What one call makes of one valve, in litres. */
  lemma OneCall(default: Profile, id: string, t: Track, calls: seq<Call>, call: Call) returns (ended: seq<Ended>)
    requires SameRun(t, FlowAfter(calls, id))
    ensures var next, more := ApplyTo(default, id, t, call), calls + [call];
      && SameRun(next, FlowAfter(more, id))
      && |Delivered(more, id)| == |Delivered(calls, id)| + |ended| && |ended| <= 1
      && Delivered(more, id)[..|Delivered(calls, id)|] == Delivered(calls, id)
      && (if ended == [] then next.ledger == t.ledger
          else SameEnd(ended[0], Last(Delivered(more, id))) && next.ledger == Some(ApplyToLedger(t.ledger, ended[0])))
  {
    hide ShouldHandOver, ShouldResumeNormal, ShouldAutoRestart, ApplyToLedger, ProfileFor, CutoffTriggerL, ClosedBecause;
    var more := calls + [call];
    assert more[..|more| - 1] == calls && Last(more) == call;
    ended := [];
    if call.Observe? && call.id == id && !call.obs.watering && t.state.Running? {
      ended := [Step(t.state, call.obs, ProfileFor(t.profile, default)).ended.value];
    }
  }

  /** The runtime's ends are those the calls tell, one by one. */
  ghost predicate SameEnds(history: seq<Ended>, ends: seq<Delivery>) {
    |history| == |ends| && forall k :: 0 <= k < |history| ==> SameEnd(history[k], ends[k])
  }

  lemma OneMoreEnd(before: seq<Ended>, ended: seq<Ended>, was: seq<Delivery>, now: seq<Delivery>)
    requires SameEnds(before, was) && |ended| <= 1 && |now| == |was| + |ended| && now[..|was|] == was
    requires ended != [] ==> SameEnd(ended[0], Last(now))
    ensures SameEnds(before + ended, now)
    ensures ended != [] ==> LedgerAfter(before + ended) == Some(ApplyToLedger(LedgerAfter(before), ended[0]))
    ensures ended == [] ==> before + ended == before
  {
    hide SameEnd, ApplyToLedger;
    assert forall k :: 0 <= k < |was| ==> now[k] == now[..|was|][k];
    if ended != [] {
      assert (before + ended)[..|before|] == before;
    }
  }

  lemma {:induction false} EndsEnterTheLedger(default: Profile, tracks: Tracks, calls: seq<Call>, id: string)
    returns (history: seq<Ended>)
    requires id in tracks && Unopened(tracks[id])
    ensures id in After(default, tracks, calls)
    ensures SameRun(After(default, tracks, calls)[id], FlowAfter(calls, id))
    ensures SameEnds(history, Delivered(calls, id))
    ensures After(default, tracks, calls)[id].ledger == LedgerAfter(history)
  {
    if calls == [] {
      history := [];
    } else {
      hide *;
      hide SameRun;
      var front := calls[..|calls| - 1];
      assert calls == front + [Last(calls)];
      var before := EndsEnterTheLedger(default, tracks, front, id);
      AfterLast(default, tracks, calls, id);
      var ended := OneCall(default, id, After(default, tracks, front)[id], front, Last(calls));
      OneMoreEnd(before, ended, Delivered(front, id), Delivered(calls, id));
      history := before + ended;
    }
  }

  lemma AfterLast(default: Profile, tracks: Tracks, calls: seq<Call>, id: string)
    requires calls != [] && id in After(default, tracks, calls[..|calls| - 1])
    ensures id in After(default, tracks, calls)
    ensures After(default, tracks, calls)[id]
         == ApplyTo(default, id, After(default, tracks, calls[..|calls| - 1])[id], Last(calls))
  {
    hide ApplyTo;
  }

  lemma {:induction false} SameLitres(history: seq<Ended>, ends: seq<Delivery>, day: int)
    requires SameEnds(history, ends)
    ensures CountedOn(history, day) == LitresOn(ends, day)
  {
    if history != [] {
      SameLitres(history[..|history| - 1], ends[..|ends| - 1], day);
      assert SameEnd(Last(history), Last(ends));
    }
  }

  /**
   Conservation from the calls: whatever is called, as long as runs are found shut in order of time, the ledger of a
   valve holds the day of its last end and every litre that normal runs and tank fills delivered by ending that day.
   */
  lemma {:induction false} LedgerHoldsWhatWasDelivered(default: Profile, tracks: Tracks, calls: seq<Call>, id: string)
    requires id in tracks && Unopened(tracks[id])
    requires forall i, j :: 0 <= i <= j < |Delivered(calls, id)| ==> Delivered(calls, id)[i].at <= Delivered(calls, id)[j].at
    ensures id in After(default, tracks, calls)
    ensures var ends, ledger := Delivered(calls, id), After(default, tracks, calls)[id].ledger;
      if ends == [] then ledger.None?
      else ledger == Some(Ledger(Calendar.DayKey(Last(ends).at), LitresOn(ends, Last(ends).at / 86_400_000)))
  {
    var history := EndsEnterTheLedger(default, tracks, calls, id);
    var ends := Delivered(calls, id);
    hide *;
    if ends == [] {
      NoLedger(history, ends);
    } else {
      LedgerOfEnds(history, ends);
    }
  }

  lemma NoLedger(history: seq<Ended>, ends: seq<Delivery>)
    requires SameEnds(history, ends) && ends == []
    ensures LedgerAfter(history).None?
  {
  }

  lemma LedgerOfEnds(history: seq<Ended>, ends: seq<Delivery>)
    requires SameEnds(history, ends) && ends != [] && forall i, j :: 0 <= i <= j < |ends| ==> ends[i].at <= ends[j].at
    ensures LedgerAfter(history) == Some(Ledger(Calendar.DayKey(Last(ends).at), LitresOn(ends, Last(ends).at / 86_400_000)))
  {
    hide Calendar.DayKey, LedgerAfter, CountedOn, LitresOn;
    assert SameEnd(Last(history), Last(ends));
    forall i, j | 0 <= i <= j < |history| ensures history[i].endedAt <= history[j].endedAt {
      assert SameEnd(history[i], ends[i]) && SameEnd(history[j], ends[j]);
    }
    LedgerConserves(history);
    SameLitres(history, ends, Last(ends).at / 86_400_000);
  }
}
