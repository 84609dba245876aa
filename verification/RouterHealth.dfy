/**
 Router up/down grace: when a router, modem or dish is reported down, when it is polled again, and what
 is reported for one the hub cannot read. All instants are ms.
 */
module RouterHealths {
  import opened Prelude

  const DOWN_GRACE_MS := 45_000
  const FIRST_RETRY_MS := 5_000
  const MAX_RETRY_MS := 60_000

  datatype Sample = Up | ReportedDown(measuredMs: Option<int>) | Failed

  datatype Reported = ReportedAsUp | ReportedAsDown

  datatype Verdict = Report(recovered: bool) | Hold | WentDown | StillDown

  datatype Health = Health(
    firstFailureAt: Option<int>,
    consecutiveFailures: nat,
    nextRetryAt: Option<int>,
    reported: Reported)

  const HEALTHY := Health(None, 0, None, ReportedAsUp)

  /** The wait after the `n`-th bad sample in a row. */
  function RetryDelayMs(n: nat): int {
    Min(FIRST_RETRY_MS * Pow2(Min(Max(n - 1, 0), 16)), MAX_RETRY_MS)
  }

  /** One poll: what it found, when it began and when it came back. */
  datatype Poll = Poll(sample: Sample, startedMs: int, finishedMs: int)

  predicate IsBad(s: Sample) {
    s != Up
  }

  /** The device itself has watched the grace window elapse. */
  predicate MeasuredOut(s: Sample) {
    s.ReportedDown? && s.measuredMs.Some? && s.measuredMs.value >= DOWN_GRACE_MS
  }

  function Observed(h: Health, p: Poll): (Health, Verdict) {
    if p.sample == Up then (HEALTHY, Report(h.reported == ReportedAsDown))
    else
      var failures := Min(h.consecutiveFailures + 1, U32_MAX);
      var first := if h.firstFailureAt.Some? then h.firstFailureAt.value else p.startedMs;
      var backoffAt := p.finishedMs + RetryDelayMs(failures);
      if h.reported == ReportedAsDown then (Health(Some(first), failures, Some(backoffAt), ReportedAsDown), StillDown)
      else if MeasuredOut(p.sample) || (failures >= 2 && p.finishedMs - first >= DOWN_GRACE_MS) then
        (Health(Some(first), failures, Some(backoffAt), ReportedAsDown), WentDown)
      else
        (Health(Some(first), failures, Some(Max(Min(backoffAt, first + DOWN_GRACE_MS), p.finishedMs)), ReportedAsUp), Hold)
  }

  predicate IsDue(h: Health, nowMs: int, lastPollMs: Option<int>, cadenceMs: int) {
    || (lastPollMs.Some? ==> nowMs - lastPollMs.value >= cadenceMs)
    || (h.nextRetryAt.Some? && nowMs >= h.nextRetryAt.value)
  }

  class RouterHealth {
    var firstFailureAt: Option<int>
    var consecutiveFailures: nat
    var nextRetryAt: Option<int>
    var reported: Reported

    function State(): Health
      reads this
    {
      Health(firstFailureAt, consecutiveFailures, nextRetryAt, reported)
    }

    constructor ()
      ensures State() == HEALTHY
    {
      firstFailureAt, consecutiveFailures, nextRetryAt, reported := None, 0, None, ReportedAsUp;
    }

    /** Fold one poll in: a bad run is dated from the start of its first attempt. */
    method Observe(sample: Sample, startedMs: int, finishedMs: int) returns (verdict: Verdict)
      modifies this
      ensures (State(), verdict) == Observed(old(State()), Poll(sample, startedMs, finishedMs))
    {
      hide RetryDelayMs, MeasuredOut;
      if sample == Up {
        var recovered := reported == ReportedAsDown;
        firstFailureAt, consecutiveFailures, nextRetryAt, reported := None, 0, None, ReportedAsUp;
        return Report(recovered);
      }
      consecutiveFailures := Min(consecutiveFailures + 1, U32_MAX);
      if firstFailureAt.None? {
        firstFailureAt := Some(startedMs);
      }
      var first := firstFailureAt.value;
      var backoffAt := finishedMs + RetryDelayMs(consecutiveFailures);
      if reported == ReportedAsDown {
        nextRetryAt := Some(backoffAt);
        return StillDown;
      }
      var waited := consecutiveFailures >= 2 && finishedMs - first >= DOWN_GRACE_MS;
      if MeasuredOut(sample) || waited {
        reported := ReportedAsDown;
        nextRetryAt := Some(backoffAt);
        return WentDown;
      }
      nextRetryAt := Some(Max(Min(backoffAt, first + DOWN_GRACE_MS), finishedMs));
      verdict := Hold;
    }

    /** A bad run polls at its retry time, and no router less often than its cadence. */
    method Due(nowMs: int, lastPollMs: Option<int>, cadenceMs: int) returns (due: bool)
      ensures due <==> IsDue(State(), nowMs, lastPollMs, cadenceMs)
    {
      var cadenceDue := lastPollMs.None? || nowMs - lastPollMs.value >= cadenceMs;
      due := cadenceDue || (nextRetryAt.Some? && nowMs >= nextRetryAt.value);
    }
  }

  // --- Whole runs of polls ---------------------------------------------------------------------------------------

  function HealthAfter(polls: seq<Poll>): Health {
    if polls == [] then HEALTHY else Observed(HealthAfter(polls[..|polls| - 1]), Last(polls)).0
  }

  function VerdictAt(polls: seq<Poll>, k: nat): Verdict
    requires k < |polls|
  {
    Observed(HealthAfter(polls[..k]), polls[k]).1
  }

  /** How many polls at the end of the run were bad. */
  function BadTail(polls: seq<Poll>): nat
    ensures BadTail(polls) <= |polls|
  {
    if polls == [] || Last(polls).sample == Up then 0 else BadTail(polls[..|polls| - 1]) + 1
  }

  /** The health is a summary of the bad polls that end the run. */
  lemma {:induction false} HealthSummarises(polls: seq<Poll>)
    ensures var h, bad := HealthAfter(polls), BadTail(polls);
      && h.consecutiveFailures == Min(bad, U32_MAX)
      && (h.firstFailureAt.None? <==> bad == 0)
      && (bad > 0 ==> h.firstFailureAt == Some(polls[|polls| - bad].startedMs))
      && (h.reported == ReportedAsDown ==> bad > 0)
  {
    if polls != [] {
      hide RetryDelayMs;
      HealthSummarises(polls[..|polls| - 1]);
    }
  }

  /** The up and down transitions a run of polls has reported, in order: true is down. */
  function Transitions(polls: seq<Poll>): seq<bool> {
    if polls == [] then []
    else
      var n := |polls| - 1;
      var v := VerdictAt(polls, n);
      Transitions(polls[..n]) +
      (if v == WentDown then [true] else if v == Report(true) then [false] else [])
  }

  /** Down first, then recovered, then down again. */
  ghost predicate Alternates(ts: seq<bool>) {
    forall i :: 0 <= i < |ts| ==> ts[i] == (i % 2 == 0)
  }

  lemma AlternatesFurther(ts: seq<bool>, t: bool)
    requires Alternates(ts) && t == (|ts| % 2 == 0)
    ensures Alternates(ts + [t]) && (|ts + [t]| % 2 == 1 <==> t)
  {
  }

  /**
   Down and recovered strictly alternate, starting with down, and the last of them is what the cloud has
   been told the router is.
   */
  lemma {:induction false} TransitionsAlternate(polls: seq<Poll>)
    ensures var ts := Transitions(polls);
      && Alternates(ts)
      && (HealthAfter(polls).reported == ReportedAsDown <==> |ts| % 2 == 1)
  {
    if polls != [] {
      hide Observed;
      var front := polls[..|polls| - 1];
      TransitionsAlternate(front);
      VerdictMoves(HealthAfter(front), Last(polls));
      assert HealthAfter(polls) == Observed(HealthAfter(front), Last(polls)).0;
      assert VerdictAt(polls, |front|) == Observed(HealthAfter(front), Last(polls)).1;
      hide HealthAfter, VerdictAt, Alternates;
      var ts := Transitions(front);
      if |ts| % 2 == 0 {
        AlternatesFurther(ts, true);
      } else {
        AlternatesFurther(ts, false);
      }
      assert ts + [] == ts;
    }
  }

  /** The verdicts that change what the cloud has been told, and the only ones that do. */
  lemma {:induction false} VerdictMoves(h: Health, p: Poll)
    ensures var (next, v) := Observed(h, p);
      && (v == WentDown ==> h.reported == ReportedAsUp && next.reported == ReportedAsDown)
      && (v == Report(true) ==> h.reported == ReportedAsDown && next.reported == ReportedAsUp)
      && (v != WentDown && v != Report(true) ==> next.reported == h.reported)
  {
    hide RetryDelayMs, MeasuredOut;
  }

  /**
   What it takes: a device that measured its own outage past the window, or at least two bad polls in a
   row that span it, from the start of the first to the end of the last.
   */
  predicate Evidence(polls: seq<Poll>) {
    polls != [] &&
    (|| MeasuredOut(Last(polls).sample)
     || (BadTail(polls) >= 2 && Last(polls).finishedMs - polls[|polls| - BadTail(polls)].startedMs >= DOWN_GRACE_MS))
  }

  /** Some poll of the bad run the polls end in came with the evidence. */
  ghost predicate Shown(polls: seq<Poll>) {
    exists k :: |polls| - BadTail(polls) < k <= |polls| && Evidence(polls[..k])
  }

  lemma ShownStep(polls: seq<Poll>)
    requires polls != []
    ensures Shown(polls) <==> IsBad(Last(polls).sample) && (Shown(polls[..|polls| - 1]) || Evidence(polls))
  {
    hide Evidence;
    var front := polls[..|polls| - 1];
    assert polls[..|polls|] == polls;
    assert forall k :: 0 <= k <= |front| ==> front[..k] == polls[..k];
    if IsBad(Last(polls).sample) {
      assert |polls| - BadTail(polls) == |front| - BadTail(front);
      if Shown(front) {
        var k :| |front| - BadTail(front) < k <= |front| && Evidence(front[..k]);
        assert Evidence(polls[..k]);
      }
      if Shown(polls) && !Evidence(polls) {
        var k :| |polls| - BadTail(polls) < k <= |polls| && Evidence(polls[..k]);
        assert Evidence(front[..k]);
      }
    }
  }

  lemma {:induction false} VerdictOf(polls: seq<Poll>)
    requires polls != []
    ensures var was, now := HealthAfter(polls[..|polls| - 1]).reported, HealthAfter(polls).reported;
      && (VerdictAt(polls, |polls| - 1) == WentDown <==>
            was == ReportedAsUp && IsBad(Last(polls).sample) && Evidence(polls))
      && (now == ReportedAsDown <==> IsBad(Last(polls).sample) && (was == ReportedAsDown || Evidence(polls)))
  {
    hide RetryDelayMs, MeasuredOut;
    HealthSummarises(polls[..|polls| - 1]);
    HealthSummarises(polls);
  }

  lemma {:induction false} ReportedIsShown(polls: seq<Poll>)
    ensures HealthAfter(polls).reported == ReportedAsDown <==> Shown(polls)
  {
    if polls != [] {
      hide Shown, Evidence, HealthAfter, VerdictAt;
      ReportedIsShown(polls[..|polls| - 1]);
      ShownStep(polls);
      VerdictOf(polls);
    } else {
      assert !Shown(polls);
    }
  }

  /** A router is reported down at exactly the first poll of a bad run that comes with the evidence, and at no other. */
  lemma {:induction false} DownOnFirstEvidence(polls: seq<Poll>)
    requires polls != []
    ensures VerdictAt(polls, |polls| - 1) == WentDown <==>
            IsBad(Last(polls).sample) && Evidence(polls) && !Shown(polls[..|polls| - 1])
  {
    hide Shown, Evidence, HealthAfter, VerdictAt;
    ReportedIsShown(polls[..|polls| - 1]);
    VerdictOf(polls);
  }

  /** The bad run is the longest stretch of bad polls that ends the run. */
  lemma {:induction false} BadTailIsBad(polls: seq<Poll>)
    ensures forall i :: |polls| - BadTail(polls) <= i < |polls| ==> IsBad(polls[i].sample)
    ensures BadTail(polls) < |polls| ==> !IsBad(polls[|polls| - BadTail(polls) - 1].sample)
  {
    if polls != [] {
      BadTailIsBad(polls[..|polls| - 1]);
    }
  }

  // --- How soon down is reported ------------------------------------------------------------------------------------

  /** Polls of one bad run: each takes at most `takes`, and starts within `late` of when it fell due. */
  ghost predicate Punctual(polls: seq<Poll>, late: int, takes: int) {
    && (forall i :: 0 <= i < |polls| ==>
          && IsBad(polls[i].sample)
          && polls[i].startedMs <= polls[i].finishedMs <= polls[i].startedMs + takes)
    && (forall i :: 0 < i < |polls| ==> StartsOnTime(HealthAfter(polls[..i]), polls[i], late))
  }

  predicate StartsOnTime(h: Health, p: Poll, late: int) {
    h.nextRetryAt.Some? && p.startedMs <= h.nextRetryAt.value + late
  }

  /** The latest a bad run begun at `begun` can stay unreported. */
  function Deadline(begun: int, late: int, takes: int): int {
    begun + Max(DOWN_GRACE_MS, takes) + late + takes
  }

  /** While every verdict is to hold, the next retry is due early enough to be back by the deadline. */
  lemma {:induction false} HoldsAreShort(polls: seq<Poll>, late: int, takes: int)
    requires polls != [] && late >= 0 && takes >= 0 && Punctual(polls, late, takes)
    requires forall k :: 0 <= k < |polls| ==> VerdictAt(polls, k) == Hold
    ensures var h, begun := HealthAfter(polls), polls[0].startedMs;
      && h.reported == ReportedAsUp
      && h.firstFailureAt == Some(begun)
      && h.consecutiveFailures == Min(|polls|, U32_MAX)
      && h.nextRetryAt.Some?
      && h.nextRetryAt.value <= begun + Max(DOWN_GRACE_MS, takes)
      && (|polls| >= 2 ==> Last(polls).finishedMs < begun + DOWN_GRACE_MS)
  {
    hide RetryDelayMs, MeasuredOut, StartsOnTime;
    var n := |polls| - 1;
    assert VerdictAt(polls, n) == Hold;
    assert polls[n].startedMs <= polls[n].finishedMs <= polls[n].startedMs + takes;
    if n > 0 {
      var front := polls[..n];
      forall k | 0 <= k < n ensures VerdictAt(front, k) == Hold {
        assert front[..k] == polls[..k];
        assert VerdictAt(polls, k) == Hold;
      }
      PunctualFront(polls, late, takes, n);
      HoldsAreShort(front, late, takes);
    } else {
      assert polls[..0] == [];
    }
  }

  /** In a bad run, the first verdict that is not to hold reports the router down, by the deadline. */
  lemma {:induction false} FirstDecision(polls: seq<Poll>, late: int, takes: int, k: nat)
    requires k < |polls| && late >= 0 && takes >= 0 && Punctual(polls, late, takes)
    requires forall i :: 0 <= i < k ==> VerdictAt(polls, i) == Hold
    requires VerdictAt(polls, k) != Hold
    ensures VerdictAt(polls, k) == WentDown
    ensures polls[k].finishedMs <= Deadline(polls[0].startedMs, late, takes)
  {
    hide RetryDelayMs, MeasuredOut, HealthAfter;
    assert IsBad(polls[k].sample) && polls[k].startedMs <= polls[k].finishedMs <= polls[k].startedMs + takes;
    var front := polls[..k];
    if k > 0 {
      forall i | 0 <= i < k ensures VerdictAt(front, i) == Hold {
        assert front[..i] == polls[..i];
        assert VerdictAt(polls, i) == Hold;
      }
      PunctualFront(polls, late, takes, k);
      HoldsAreShort(front, late, takes);
      assert StartsOnTime(HealthAfter(front), polls[k], late);
    } else {
      HealthSummarises(front);
    }
  }

  lemma {:induction false} FirstNotHold(polls: seq<Poll>) returns (k: nat)
    requires exists i :: 0 <= i < |polls| && VerdictAt(polls, i) != Hold
    ensures k < |polls| && VerdictAt(polls, k) != Hold
    ensures forall i :: 0 <= i < k ==> VerdictAt(polls, i) == Hold
  {
    hide VerdictAt;
    k := 0;
    while VerdictAt(polls, k) == Hold
      invariant k < |polls|
      invariant forall i :: 0 <= i < k ==> VerdictAt(polls, i) == Hold
      invariant exists i :: k <= i < |polls| && VerdictAt(polls, i) != Hold
      decreases |polls| - k
    {
      k := k + 1;
    }
  }

  lemma {:induction false} PunctualFront(polls: seq<Poll>, late: int, takes: int, n: nat)
    requires Punctual(polls, late, takes) && n <= |polls|
    ensures Punctual(polls[..n], late, takes)
  {
    forall i | 0 < i < n ensures StartsOnTime(HealthAfter(polls[..n][..i]), polls[..n][i], late) {
      assert polls[..n][..i] == polls[..i];
    }
  }

  /**
   A bad run is reported down by its deadline. `nowMs` is any instant up to which the polls have kept
   their promise: the next retry, if one was due, would have started within `late` and come back within
   `takes`. Past the deadline, a poll that came back by the deadline has reported the router down.
   */
  lemma {:induction false} DownByDeadline(polls: seq<Poll>, late: int, takes: int, nowMs: int) returns (k: nat)
    requires polls != [] && late >= 0 && takes >= 0 && Punctual(polls, late, takes)
    requires HealthAfter(polls).nextRetryAt.Some? ==> nowMs <= HealthAfter(polls).nextRetryAt.value + late + takes
    requires nowMs > Deadline(polls[0].startedMs, late, takes)
    ensures k < |polls| && VerdictAt(polls, k) == WentDown
    ensures polls[k].finishedMs <= Deadline(polls[0].startedMs, late, takes)
  {
    if forall k :: 0 <= k < |polls| ==> VerdictAt(polls, k) == Hold {
      HoldsAreShort(polls, late, takes);
    }
    k := FirstNotHold(polls);
    FirstDecision(polls, late, takes, k);
  }

  // --- The loop that asks whether a poll is due ------------------------------------------------------------------------

  /** The next poll starts within `late` of every instant, once the one before is back, at which one is due. */
  ghost predicate AnswersDue(h: Health, prev: Poll, byMs: int, cadenceMs: int, late: int) {
    forall t: int :: t >= prev.finishedMs && IsDue(h, t, Some(prev.startedMs), cadenceMs) ==> byMs <= t + late
  }

  /** Polls of a loop that asks, each taking at most `takes`. */
  ghost predicate Asked(polls: seq<Poll>, cadenceMs: int, late: int, takes: int) {
    && (forall i :: 0 <= i < |polls| ==> polls[i].startedMs <= polls[i].finishedMs <= polls[i].startedMs + takes)
    && (forall i :: 0 < i < |polls| ==> AnswersDue(HealthAfter(polls[..i]), polls[i - 1], polls[i].startedMs, cadenceMs, late))
  }

  /** The wait after the `n`-th bad poll in a row: five seconds, doubling to a minute. */
  lemma RetryDelaysAre(n: nat)
    requires n >= 1
    ensures RetryDelayMs(n) == (if n == 1 then 5_000 else if n == 2 then 10_000 else if n == 3 then 20_000
                                else if n == 4 then 40_000 else 60_000)
  {
    assert Pow2(2) == 4 && Pow2(3) == 8 && Pow2(4) == 16;
    if n >= 5 { Pow2AtLeast(4, Min(n - 1, 16)); }
  }

  lemma {:induction false} Pow2AtLeast(a: nat, b: nat)
    requires a <= b
    ensures Pow2(a) <= Pow2(b)
    decreases b
  {
    if a < b { Pow2AtLeast(a, b - 1); }
  }

  /**
   When a router is retried after `n` bad polls in a row: after the wait, but at the end of the grace window if
   that comes first and the router is not yet down, and never before the last poll was back.
   */
  lemma {:induction false} RetriedAt(polls: seq<Poll>)
    requires polls != []
    ensures var h, n, last := HealthAfter(polls), BadTail(polls), Last(polls);
      if n == 0 then h.nextRetryAt.None?
      else
        var waited := last.finishedMs + RetryDelayMs(Min(n, U32_MAX));
        var graceMs := polls[|polls| - n].startedMs + 45_000;
        h.nextRetryAt == Some(if h.reported == ReportedAsDown || waited <= graceMs then waited
                              else if graceMs >= last.finishedMs then graceMs else last.finishedMs)
  {
    hide RetryDelayMs, MeasuredOut;
    HealthSummarises(polls[..|polls| - 1]);
    HealthSummarises(polls);
    RetryIsLater(Min(BadTail(polls), U32_MAX));
  }

  lemma RetryIsLater(n: nat)
    ensures RetryDelayMs(n) >= 0
  {
  }

  lemma {:induction false} AskingIsPunctual(polls: seq<Poll>, cadenceMs: int, late: int, takes: int)
    requires Asked(polls, cadenceMs, late, takes) && forall i :: 0 <= i < |polls| ==> IsBad(polls[i].sample)
    ensures Punctual(polls, late, takes)
  {
    hide HealthAfter, RetryDelayMs, AnswersDue;
    forall i | 0 < i < |polls| ensures StartsOnTime(HealthAfter(polls[..i]), polls[i], late) {
      assert polls[..i][i - 1] == polls[i - 1];
      RetryIsDue(polls[..i], polls[i].startedMs, cadenceMs, late);
    }
  }

  /** After a bad poll there is a retry time, and an asking loop polls within `late` of it. */
  lemma {:induction false} RetryIsDue(polls: seq<Poll>, byMs: int, cadenceMs: int, late: int)
    requires polls != [] && IsBad(Last(polls).sample)
    requires AnswersDue(HealthAfter(polls), Last(polls), byMs, cadenceMs, late)
    ensures HealthAfter(polls).nextRetryAt.Some? && byMs <= HealthAfter(polls).nextRetryAt.value + late
  {
    RetriedAt(polls);
    RetryIsLater(Min(BadTail(polls), U32_MAX));
    hide HealthAfter, RetryDelayMs;
    var h := HealthAfter(polls);
    assert IsDue(h, h.nextRetryAt.value, Some(Last(polls).startedMs), cadenceMs);
  }

  /**
   The deadline, for a loop that polls within `late` of each instant at which it is told a poll is due: a bad run
   is reported down by 45 seconds, or a poll's time if that is more, and `late` and a poll's time after it began.
   `nowMs` is any instant up to which the loop has kept to this.
   */
  lemma {:induction false} DownByDeadlineAsking(polls: seq<Poll>, cadenceMs: int, late: int, takes: int, nowMs: int) returns (k: nat)
    requires polls != [] && late >= 0 && takes >= 0 && Asked(polls, cadenceMs, late, takes)
    requires forall i :: 0 <= i < |polls| ==> IsBad(polls[i].sample)
    requires AnswersDue(HealthAfter(polls), Last(polls), nowMs, cadenceMs, late + takes)
    requires nowMs > polls[0].startedMs + (if takes > 45_000 then takes else 45_000) + late + takes
    ensures k < |polls| && VerdictAt(polls, k) == WentDown
    ensures polls[k].finishedMs <= polls[0].startedMs + (if takes > 45_000 then takes else 45_000) + late + takes
  {
    hide AnswersDue, HealthAfter, VerdictAt;
    AskingIsPunctual(polls, cadenceMs, late, takes);
    RetryIsDue(polls, nowMs, cadenceMs, late + takes);
    k := DownByDeadline(polls, late, takes, nowMs);
  }

  /** Good or bad, no two polls of such a loop lie further apart than the cadence and `late`, or a poll's time if that is more. */
  lemma {:induction false} NeverLongUnpolled(polls: seq<Poll>, cadenceMs: int, late: int, takes: int, i: nat)
    requires 0 < i < |polls| && Asked(polls, cadenceMs, late, takes)
    ensures polls[i].startedMs <= polls[i - 1].startedMs + (if cadenceMs > takes then cadenceMs else takes) + late
  {
    hide HealthAfter;
    var h, prev := HealthAfter(polls[..i]), polls[i - 1];
    assert AnswersDue(h, prev, polls[i].startedMs, cadenceMs, late);
    var t := if prev.startedMs + cadenceMs >= prev.finishedMs then prev.startedMs + cadenceMs else prev.finishedMs;
    assert IsDue(h, t, Some(prev.startedMs), cadenceMs);
  }

  /** A router last read well is due exactly at its cadence, and one never polled at once. */
  lemma {:induction false} HealthyIsDueAtItsCadence(polls: seq<Poll>, nowMs: int, lastPollMs: Option<int>, cadenceMs: int)
    requires polls == [] || Last(polls).sample == Up
    ensures IsDue(HealthAfter(polls), nowMs, lastPollMs, cadenceMs)
       <==> lastPollMs.None? || nowMs >= lastPollMs.value + cadenceMs
  {
  }

  // --- What is reported for a router the hub cannot read -----------------------------------------------------------

  type Param = (string, string)

  const UP_SRC := "upSrc"
  const UP_SRC_UNREAD := "unread"
  const REASON := "reason"

  function Without(params: seq<Param>, keys: set<string>): seq<Param> {
    if params == [] then []
    else (if params[0].0 in keys then [] else [params[0]]) + Without(params[1..], keys)
  }

  /** Just after the first `up`, or at the front when there is none. */
  function AfterUp(params: seq<Param>): nat
    ensures AfterUp(params) <= |params|
  {
    if exists i :: 0 <= i < |params| && params[i].0 == "up" then FirstUp(params) + 1 else 0
  }

  function FirstUp(params: seq<Param>): nat
    requires exists i :: 0 <= i < |params| && params[i].0 == "up"
    ensures FirstUp(params) < |params| && params[FirstUp(params)].0 == "up"
    ensures forall i :: 0 <= i < FirstUp(params) ==> params[i].0 != "up"
  {
    if params[0].0 == "up" then 0 else 1 + FirstUp(params[1..])
  }

  /** The last reading marked as unread, or what is known of a router never read; never an invented `up`. */
  function UnreadParams(last: Option<seq<Param>>, reason: Option<string>, identity: seq<Param>): seq<Param> {
    var kept := if last.Some? then Without(last.value, {UP_SRC, REASON}) else Without(identity, {"up", UP_SRC, REASON});
    var at := AfterUp(kept);
    var marked := kept[..at] + [(UP_SRC, UP_SRC_UNREAD)] + kept[at..];
    if reason.Some? && reason.value != "" then marked + [(REASON, reason.value)] else marked
  }

  /** The last value a report carries for a key. */
  function Get(params: seq<Param>, key: string): Option<string> {
    if params == [] then None
    else if Last(params).0 == key then Some(Last(params).1)
    else Get(params[..|params| - 1], key)
  }

  function SampleOf(params: Option<seq<Param>>, measuredMs: Option<int>): Sample {
    if params.None? then Up
    else if Get(params.value, UP_SRC) == Some(UP_SRC_UNREAD) then Up
    else if Get(params.value, "up") == Some("0") then ReportedDown(measuredMs)
    else Up
  }

  lemma {:induction false} WithoutDrops(params: seq<Param>, keys: set<string>)
    ensures forall p :: p in Without(params, keys) <==> p in params && p.0 !in keys
  {
    if params != [] {
      WithoutDrops(params[1..], keys);
    }
  }

  /** A key is carried exactly when some parameter has it; otherwise nothing is found. */
  lemma {:induction false} GetFinds(params: seq<Param>, key: string)
    ensures Get(params, key).Some? <==> exists p :: p in params && p.0 == key
    ensures Get(params, key).Some? ==> (key, Get(params, key).value) in params
  {
    if params != [] {
      var front := params[..|params| - 1];
      GetFinds(front, key);
      assert params == front + [Last(params)];
    }
  }

  /**
   A held report never counts as a fresh bad sample, whatever the last reading said, its own `upSrc` and
   `up=0` included; and a router never read is given no `up` at all.
   */
  lemma UnreadIsNeverDown(last: Option<seq<Param>>, reason: Option<string>, identity: seq<Param>, measuredMs: Option<int>)
    ensures SampleOf(Some(UnreadParams(last, reason, identity)), measuredMs) == Up
    ensures last.None? ==> Get(UnreadParams(last, reason, identity), "up").None?
  {
    hide Without, Get, AfterUp;
    var keys := if last.Some? then {UP_SRC, REASON} else {"up", UP_SRC, REASON};
    var source := if last.Some? then last.value else identity;
    WithoutDrops(source, keys);
    var kept := Without(source, keys);
    var params := UnreadParams(last, reason, identity);
    assert kept == kept[..AfterUp(kept)] + kept[AfterUp(kept)..];
    forall p | p in params
      ensures p in kept || p == (UP_SRC, UP_SRC_UNREAD) || p.0 == REASON
    {
    }
    assert (UP_SRC, UP_SRC_UNREAD) in params;
    GetFinds(params, UP_SRC);
    GetFinds(params, "up");
  }

  /** Marking a reading unread leaves what the router last said of its link, and every other field, in order. */
  lemma {:induction false} UnreadKeepsReading(last: seq<Param>, reason: Option<string>, identity: seq<Param>)
    ensures Without(UnreadParams(Some(last), reason, identity), {UP_SRC, REASON}) == Without(last, {UP_SRC, REASON})
  {
    var keys := {UP_SRC, REASON};
    var kept := Without(last, keys);
    WithoutDrops(last, keys);
    var a, b := kept[..AfterUp(kept)], kept[AfterUp(kept)..];
    assert a + b == kept;
    var mark := [(UP_SRC, UP_SRC_UNREAD)];
    WithoutMark(a, mark, b, keys);
    if reason.Some? && reason.value != "" {
      WithoutMark(a + mark + b, [(REASON, reason.value)], [], keys);
      assert a + mark + b + [(REASON, reason.value)] + [] == a + mark + b + [(REASON, reason.value)];
    }
  }

  lemma {:induction false} WithoutMark(a: seq<Param>, mark: seq<Param>, b: seq<Param>, keys: set<string>)
    requires |mark| == 1 && mark[0].0 in keys
    requires forall p :: p in b ==> p.0 !in keys
    ensures Without(a + mark + b, keys) == Without(a, keys) + b
    ensures (forall p :: p in a ==> p.0 !in keys) ==> Without(a, keys) == a
  {
    assert mark[1..] == [] && Without(mark, keys) == [];
    hide Without;
    WithoutAppends(a + mark, b, keys);
    WithoutAppends(a, mark, keys);
    WithoutKeeps(b, keys);
    assert Without(a, keys) + [] == Without(a, keys);
    if forall p :: p in a ==> p.0 !in keys {
      WithoutKeeps(a, keys);
    }
  }

  function HeadOf(params: seq<Param>, keys: set<string>): seq<Param>
    requires params != []
  {
    if params[0].0 in keys then [] else [params[0]]
  }

  lemma {:induction false} WithoutUnfolds(params: seq<Param>, keys: set<string>)
    ensures params == [] ==> Without(params, keys) == []
    ensures params != [] ==> Without(params, keys) == HeadOf(params, keys) + Without(params[1..], keys)
  {
  }

  lemma JoinIsAssociative<T>(a: seq<T>, b: seq<T>, c: seq<T>)
    ensures a + b + c == a + (b + c)
  {
  }

  lemma {:induction false} WithoutAppends(a: seq<Param>, b: seq<Param>, keys: set<string>)
    ensures Without(a + b, keys) == Without(a, keys) + Without(b, keys)
  {
    hide Without;
    WithoutUnfolds(a, keys);
    WithoutUnfolds(a + b, keys);
    if a == [] {
      assert a + b == b;
    } else {
      WithoutAppends(a[1..], b, keys);
      assert HeadOf(a + b, keys) == HeadOf(a, keys);
      hide HeadOf;
      assert (a + b)[1..] == a[1..] + b;
      JoinIsAssociative(HeadOf(a, keys), Without(a[1..], keys), Without(b, keys));
    }
  }

  lemma {:induction false} WithoutKeeps(params: seq<Param>, keys: set<string>)
    requires forall p :: p in params ==> p.0 !in keys
    ensures Without(params, keys) == params
  {
    if params != [] {
      assert params[0] in params;
      WithoutKeeps(params[1..], keys);
    }
  }
}
