/**
 Telling the owner about a silent valve gateway: once per outage, only after the grace window, and a
 recovery only for an outage that was told.
 */
module GatewayWatches {
  import opened Prelude

  const GRACE_MS: int := 30 * 60 * 1000

  datatype Watch = Watch(lastSeenMs: Option<int>, offlineReported: bool)

  const FRESH: Watch := Watch(None, false)

  datatype Report = Offline(mins: int) | Online(mins: int)

  datatype Stepped = Stepped(watch: Watch, report: Option<Report>)

  /** Whole minutes, never negative. */
  function OutageMins(sinceMs: Option<int>, nowMs: int): int {
    match sinceMs
    case Some(t) => Max(TruncDiv(nowMs - t, 60000), 0)
    case None => 0
  }

  function Step(w: Watch, reached: bool, nowMs: int): Stepped {
    if reached then
      Stepped(Watch(Some(nowMs), false),
              if w.offlineReported then Some(Online(OutageMins(w.lastSeenMs, nowMs))) else None)
    else
      match w.lastSeenMs
      case None => Stepped(w.(lastSeenMs := Some(nowMs)), None)
      case Some(since) =>
        if w.offlineReported || nowMs - since < GRACE_MS then Stepped(w, None)
        else Stepped(w.(offlineReported := true), Some(Offline(OutageMins(Some(since), nowMs))))
  }

  datatype Poll = Poll(reached: bool, ms: int)

  function After(polls: seq<Poll>): Watch {
    if polls == [] then FRESH else Step(After(polls[..|polls| - 1]), Last(polls).reached, Last(polls).ms).watch
  }

  function Told(polls: seq<Poll>): seq<Report> {
    if polls == [] then []
    else
      var r := Step(After(polls[..|polls| - 1]), Last(polls).reached, Last(polls).ms).report;
      Told(polls[..|polls| - 1]) + (if r.Some? then [r.value] else [])
  }

  /** Offline, online, offline, ...: strictly in turn. */
  lemma {:induction false} ReportsAlternate(polls: seq<Poll>)
    ensures var told := Told(polls);
      && (forall k :: 0 <= k < |told| ==> told[k].Offline? == (k % 2 == 0))
      && After(polls).offlineReported == (|told| % 2 == 1)
  {
    if polls != [] {
      ReportsAlternate(polls[..|polls| - 1]);
    }
  }

  /** The present silence is counted from poll `i`: the last answered one, or the first if none was answered. */
  ghost predicate SilentSince(polls: seq<Poll>, i: nat) {
    && i < |polls| && (polls[i].reached || i == 0)
    && forall k :: i < k < |polls| ==> !polls[k].reached
  }

  /** Some poll of the present silence came after the grace window. */
  ghost predicate Overdue(polls: seq<Poll>, i: nat)
    requires i < |polls|
  {
    exists k :: i < k < |polls| && polls[k].ms - polls[i].ms >= 1_800_000
  }

  lemma {:induction false} WatchIsTheHistory(polls: seq<Poll>, i: nat)
    requires SilentSince(polls, i)
    ensures After(polls) == Watch(Some(polls[i].ms), Overdue(polls, i))
  {
    var front := polls[..|polls| - 1];
    if i < |front| {
      assert SilentSince(front, i);
      WatchIsTheHistory(front, i);
      OverdueStep(polls, i);
    } else if front != [] {
      assert !Overdue(polls, i);
    } else {
      assert After(front) == FRESH && !Overdue(polls, i);
    }
  }

  lemma OverdueStep(polls: seq<Poll>, i: nat)
    requires i < |polls| - 1
    ensures Overdue(polls, i) <==> Overdue(polls[..|polls| - 1], i) || Last(polls).ms - polls[i].ms >= 1_800_000
  {
    var front := polls[..|polls| - 1];
    assert forall k :: 0 <= k < |front| ==> front[k] == polls[k];
    if k :| i < k < |polls| && polls[k].ms - polls[i].ms >= 1_800_000 {
      assert k < |front| ==> front[k].ms - front[i].ms >= 1_800_000;
    }
    if k :| i < k < |front| && front[k].ms - front[i].ms >= 1_800_000 {
      assert polls[k].ms - polls[i].ms >= 1_800_000;
    }
    assert polls[|polls| - 1] == Last(polls);
  }

  /**
   When each report is made, told from the polls alone: offline at the first unanswered poll half an hour or
   more into a silence, online at the poll that ends a silence which had one.
   */
  lemma {:induction false} ReportsTellTheHistory(polls: seq<Poll>, i: nat, next: Poll)
    requires SilentSince(polls, i)
    ensures var r := Step(After(polls), next.reached, next.ms).report;
      && ((r.Some? && r.value.Offline?) <==>
            !next.reached && next.ms - polls[i].ms >= 1_800_000 && !Overdue(polls, i))
      && ((r.Some? && r.value.Online?) <==> next.reached && Overdue(polls, i))
      && (r.Some? ==> r.value.mins == Max(TruncDiv(next.ms - polls[i].ms, 60000), 0))
  {
    WatchIsTheHistory(polls, i);
  }
}
