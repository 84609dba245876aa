/**
 The heartbeat clock over a run of looks: it keeps trying often enough, and never in a hurry.
 */
module Heartbeats {
  import opened Prelude
  import opened Cadence

  /** The loop looks at `atMs`; if it posts, the failure is known at `doneMs`. */
  datatype Look = Look(atMs: int, doneMs: int)

  /** What the loop is told throughout the run: the armed signature, the last delivered post, the interval. */
  datatype Watch = Watch(sig: nat, lastOkMs: int, intervalSecs: nat)

  predicate Tries(b: Beat, w: Watch, nowMs: int) {
    BeatDue(b, w.sig, w.lastOkMs, nowMs, w.intervalSecs)
  }

  /** The clock after looks of which none lands. */
  function After(b: Beat, w: Watch, looks: seq<Look>): Beat {
    if looks == [] then b
    else
      var was, look := After(b, w, looks[..|looks| - 1]), Last(looks);
      if Tries(was, w, look.atMs) then BeatFailed(was, look.doneMs) else was
  }

  /** The looks at which a post was attempted. */
  function Attempts(b: Beat, w: Watch, looks: seq<Look>): seq<Look> {
    if looks == [] then []
    else
      var front, look := looks[..|looks| - 1], Last(looks);
      Attempts(b, w, front) + (if Tries(After(b, w, front), w, look.atMs) then [look] else [])
  }

  /** When the loop is free again after these looks. */
  function FreeMs(w: Watch, looks: seq<Look>): int {
    if looks == [] then w.lastOkMs else Last(looks).doneMs
  }

  /**
   How the loop looks: it sleeps `tickMs` between looks and is late by at most `lagMs`; the first look falls
   anywhere in such a sleep. A post it attempts has failed within `latencyMs`, and a look that attempts none is
   over at once. With no tick at all, `lagMs` is just the most that may pass between looks.
   */
  predicate Polls(b: Beat, w: Watch, looks: seq<Look>, latencyMs: int, tickMs: nat, lagMs: nat) {
    looks == [] ||
    var front, look := looks[..|looks| - 1], Last(looks);
    && Polls(b, w, front, latencyMs, tickMs, lagMs)
    && FreeMs(w, front) + (if front == [] then 0 else tickMs) <= look.atMs <= FreeMs(w, front) + tickMs + lagMs
    && look.atMs <= look.doneMs <= look.atMs + (if Tries(After(b, w, front), w, look.atMs) then latencyMs else 0)
  }

  /** The clock as the last delivered post finds it: the signature it is to carry known, any failure past. */
  predicate Known(b: Beat, w: Watch) {
    && b.sentSig == w.sig
    && (b.failures > 0 ==> b.failedAtMs <= w.lastOkMs && b.retryAtMs <= b.failedAtMs + RETRY_MAX_SECS * 1000)
  }

  /** When an attempt falls due. */
  function DueMs(b: Beat, w: Watch): int {
    if b.failures > 0 && w.lastOkMs <= b.failedAtMs then b.retryAtMs else w.lastOkMs + w.intervalSecs * 1000
  }

  lemma TriesFromDue(b: Beat, w: Watch, nowMs: int)
    requires b.sentSig == w.sig
    ensures Tries(b, w, nowMs) <==> nowMs >= DueMs(b, w)
  {
  }

  function Rounds(m: nat, x: nat): nat {
    m * x
  }

  /** The most looks a loop can take, and still be waiting. */
  function Steps(waitMs: int, tickMs: nat): nat
    requires waitMs >= 1
  {
    if tickMs == 0 then waitMs - 1 else (waitMs - 1) / tickMs
  }

  /** The longest a loop can still be waiting into a wait that began when it was last free. */
  function IdleMs(waitMs: int, tickMs: nat, lagMs: nat): int
    requires waitMs >= 1
  {
    Min(waitMs - 1, Rounds(Steps(waitMs, tickMs), tickMs + lagMs))
  }

  function RetryMs(failures: nat): int
    ensures RetryMs(failures) == 30000 || RetryMs(failures) == 60000
  {
    RetrySecs(failures) * 1000
  }

  /**
   The latest start of the `n`-th attempt, in ms after the last delivered post, when `failures` posts had
   failed in a row before it: one look after the interval, then one look after the loop has idled as long as it
   can into each wait for a retry - half a minute after the first failure in a row, a minute after every later one.
   */
  function LatestMs(failures: nat, intervalSecs: nat, n: nat, latencyMs: int, tickMs: nat, lagMs: nat): int
    requires n >= 1
  {
    if n == 1 then intervalSecs * 1000 - 1 + tickMs + lagMs
    else
      LatestMs(failures, intervalSecs, n - 1, latencyMs, tickMs, lagMs) + latencyMs +
      IdleMs(RetryMs(failures + n - 1), tickMs, lagMs) + tickMs + lagMs
  }

  lemma LatestStep(failures: nat, intervalSecs: nat, n: nat, latencyMs: int, tickMs: nat, lagMs: nat)
    requires n >= 1
    ensures LatestMs(failures, intervalSecs, n, latencyMs, tickMs, lagMs) ==
      if n == 1 then intervalSecs * 1000 - 1 + tickMs + lagMs
      else LatestMs(failures, intervalSecs, n - 1, latencyMs, tickMs, lagMs) + latencyMs +
           IdleMs(RetryMs(failures + n - 1), tickMs, lagMs) + tickMs + lagMs
  {
  }

  lemma IdleIsNever(waitMs: int, tickMs: nat, lagMs: nat)
    requires waitMs >= 1
    ensures 0 <= IdleMs(waitMs, tickMs, lagMs) < waitMs
  {
  }

  lemma {:induction false} LatestGrows(failures: nat, intervalSecs: nat, m: nat, n: nat, latencyMs: int, tickMs: nat, lagMs: nat)
    requires 1 <= m <= n && latencyMs >= 0
    ensures LatestMs(failures, intervalSecs, m, latencyMs, tickMs, lagMs) <= LatestMs(failures, intervalSecs, n, latencyMs, tickMs, lagMs)
    decreases n
  {
    if m < n {
      hide IdleMs;
      LatestGrows(failures, intervalSecs, m, n - 1, latencyMs, tickMs, lagMs);
      IdleIsNever(RetryMs(failures + n - 1), tickMs, lagMs);
    }
  }

  // --- No attempt is later ---------------------------------------------------------------------------------------------

  /** Looks since the last attempt. */
  function IdleLooks(b: Beat, w: Watch, looks: seq<Look>): nat {
    if looks == [] then 0
    else
      var front := looks[..|looks| - 1];
      if Tries(After(b, w, front), w, Last(looks).atMs) then 0 else IdleLooks(b, w, front) + 1
  }

  /** What holds of the clock and the attempts after every look. */
  ghost predicate Standing(b: Beat, w: Watch, looks: seq<Look>, latencyMs: int, tickMs: nat, lagMs: nat) {
    var end, tries, free, m := After(b, w, looks), Attempts(b, w, looks), FreeMs(w, looks), IdleLooks(b, w, looks);
    && end.sentSig == w.sig && w.lastOkMs <= free && end.failures == b.failures + |tries|
    && (looks != [] ==> free < DueMs(end, w))
    && (if tries == [] then DueMs(end, w) <= w.lastOkMs + w.intervalSecs * 1000
        else
          && w.lastOkMs <= Last(tries).atMs <= Last(tries).doneMs <= Last(tries).atMs + latencyMs
          && DueMs(end, w) == Last(tries).doneMs + RetryMs(end.failures)
          && Rounds(m, tickMs) <= free - Last(tries).doneMs <= Rounds(m, tickMs + lagMs))
  }

  lemma {:induction false} StandingStep(b: Beat, w: Watch, looks: seq<Look>, latencyMs: int, tickMs: nat, lagMs: nat)
    requires Known(b, w) && w.intervalSecs >= 60 && Polls(b, w, looks, latencyMs, tickMs, lagMs)
    ensures Standing(b, w, looks, latencyMs, tickMs, lagMs)
  {
    if looks != [] {
      var front, look := looks[..|looks| - 1], Last(looks);
      StandingStep(b, w, front, latencyMs, tickMs, lagMs);
      TriesFromDue(After(b, w, front), w, look.atMs);
      OneMoreStep(IdleLooks(b, w, front), tickMs, lagMs);
      hide Rounds;
    }
  }

  lemma OneMoreStep(m: nat, tickMs: nat, lagMs: nat)
    ensures Rounds(m + 1, tickMs) == Rounds(m, tickMs) + tickMs && Rounds(0, tickMs) == 0
    ensures Rounds(m + 1, tickMs + lagMs) == Rounds(m, tickMs + lagMs) + tickMs + lagMs && Rounds(0, tickMs + lagMs) == 0
  {
    OneMoreRound(m, tickMs);
    OneMoreRound(m, tickMs + lagMs);
  }

  lemma StepsAreMost(m: nat, waitMs: int, spentMs: int, tickMs: nat, lagMs: nat)
    requires waitMs >= 1 && Rounds(m, tickMs) <= spentMs <= Rounds(m, tickMs + lagMs) && spentMs <= waitMs - 1
    requires tickMs + lagMs >= 1
    ensures spentMs <= IdleMs(waitMs, tickMs, lagMs)
  {
    hide Rounds;
    var k := Steps(waitMs, tickMs);
    StepsFill(waitMs, tickMs);
    if tickMs == 0 {
      RoundsAtLeast(k, lagMs);
    } else {
      if m > k { RoundsGrow(k + 1, m, tickMs); } else { RoundsGrow(m, k, tickMs + lagMs); }
      OneMoreRound(k, tickMs);
    }
  }

  lemma OneMoreRound(m: nat, x: nat)
    ensures Rounds(m + 1, x) == Rounds(m, x) + x && Rounds(0, x) == 0
  {
  }

  lemma RoundsGrow(m: nat, n: nat, x: nat)
    requires m <= n
    ensures Rounds(m, x) <= Rounds(n, x)
  {
  }

  lemma RoundsAtLeast(m: nat, x: nat)
    requires x >= 1
    ensures Rounds(m, x) >= m && Rounds(m, 0) == 0
  {
  }

  lemma LongerRounds(m: nat, x: nat, y: nat)
    requires x <= y
    ensures Rounds(m, x) <= Rounds(m, y)
  {
  }

  /** So many ticks fit into the wait, and one more does not. */
  lemma StepsFill(waitMs: int, tickMs: nat)
    requires waitMs >= 1
    ensures tickMs > 0 ==> Rounds(Steps(waitMs, tickMs), tickMs) < waitMs <= Rounds(Steps(waitMs, tickMs), tickMs) + tickMs
    ensures tickMs == 0 ==> Steps(waitMs, tickMs) == waitMs - 1
  {
  }

  /** After a look, the loop has not idled longer than it can. */
  lemma {:induction false} IdlesAtMost(b: Beat, w: Watch, looks: seq<Look>, latencyMs: int, tickMs: nat, lagMs: nat)
    requires Standing(b, w, looks, latencyMs, tickMs, lagMs) && tickMs + lagMs >= 1 && w.intervalSecs >= 1
    ensures FreeMs(w, looks) <= IdleUntil(b, w, Attempts(b, w, looks), tickMs, lagMs)
  {
    hide IdleMs, After, Attempts, FreeMs, IdleLooks, DueMs, RetryMs;
    var tries := Attempts(b, w, looks);
    if tries != [] {
      AttemptsAreLooks(b, w, looks);
      StepsAreMost(IdleLooks(b, w, looks), RetryMs(b.failures + |tries|), FreeMs(w, looks) - Last(tries).doneMs, tickMs, lagMs);
    } else if looks == [] {
      NeverLooked(w);
    }
  }

  /** The latest the loop can be free and still waiting for its next attempt. */
  function IdleUntil(b: Beat, w: Watch, tries: seq<Look>, tickMs: nat, lagMs: nat): int {
    if tries == [] then w.lastOkMs + w.intervalSecs * 1000 - 1
    else Last(tries).doneMs + IdleMs(RetryMs(b.failures + |tries|), tickMs, lagMs)
  }

  lemma {:induction false} DoneSoon(b: Beat, w: Watch, looks: seq<Look>, latencyMs: int, tickMs: nat, lagMs: nat)
    requires Standing(b, w, looks, latencyMs, tickMs, lagMs) && Attempts(b, w, looks) != []
    ensures Last(Attempts(b, w, looks)).doneMs <= Last(Attempts(b, w, looks)).atMs + latencyMs
  {
  }

  lemma NeverLooked(w: Watch)
    ensures FreeMs(w, []) == w.lastOkMs
  {
  }

  lemma {:induction false} AttemptsAreLooks(b: Beat, w: Watch, looks: seq<Look>)
    ensures Attempts(b, w, looks) != [] ==> looks != []
  {
  }

  ghost predicate InTime(b: Beat, w: Watch, tries: seq<Look>, latencyMs: int, tickMs: nat, lagMs: nat) {
    forall n :: 0 <= n < |tries| ==>
      tries[n].atMs <= w.lastOkMs + LatestMs(b.failures, w.intervalSecs, n + 1, latencyMs, tickMs, lagMs)
  }

  /** While nothing lands, every attempt starts by its latest time, whatever had failed before the last delivered post. */
  lemma {:induction false} AttemptsAreTimely(b: Beat, w: Watch, looks: seq<Look>, latencyMs: int, tickMs: nat, lagMs: nat)
    requires Known(b, w) && w.intervalSecs >= 60 && tickMs + lagMs >= 1 && Polls(b, w, looks, latencyMs, tickMs, lagMs)
    ensures InTime(b, w, Attempts(b, w, looks), latencyMs, tickMs, lagMs)
  {
    if looks != [] {
      var front, look := looks[..|looks| - 1], Last(looks);
      AttemptsAreTimely(b, w, front, latencyMs, tickMs, lagMs);
      StandingStep(b, w, front, latencyMs, tickMs, lagMs);
      IdlesAtMost(b, w, front, latencyMs, tickMs, lagMs);
      var before := Attempts(b, w, front);
      LatestStep(b.failures, w.intervalSecs, |before| + 1, latencyMs, tickMs, lagMs);
      hide LatestMs, BeatDue, RetryMs, IdleMs, After, DueMs, IdleLooks;
      if before != [] {
        assert before[|before| - 1].atMs <= w.lastOkMs + LatestMs(b.failures, w.intervalSecs, |before|, latencyMs, tickMs, lagMs);
      }
    }
  }

  /** A run that reaches the latest time of an attempt has made it. */
  lemma {:induction false} EnoughAttempts(b: Beat, w: Watch, looks: seq<Look>, latencyMs: int, tickMs: nat, lagMs: nat, n: nat)
    requires Known(b, w) && w.intervalSecs >= 60 && latencyMs >= 0 && tickMs + lagMs >= 1 && n >= 1
    requires Polls(b, w, looks, latencyMs, tickMs, lagMs)
    requires looks != [] && FreeMs(w, looks) >= w.lastOkMs + LatestMs(b.failures, w.intervalSecs, n, latencyMs, tickMs, lagMs)
    ensures |Attempts(b, w, looks)| >= n
  {
    hide *;
    StandingStep(b, w, looks, latencyMs, tickMs, lagMs);
    AttemptsAreTimely(b, w, looks, latencyMs, tickMs, lagMs);
    IdlesAtMost(b, w, looks, latencyMs, tickMs, lagMs);
    var tries := Attempts(b, w, looks);
    if tries != [] { DoneSoon(b, w, looks, latencyMs, tickMs, lagMs); }
    IdlesBeforeNext(b, w, tries, latencyMs, tickMs, lagMs);
    if |tries| < n {
      LatestGrows(b.failures, w.intervalSecs, |tries| + 1, n, latencyMs, tickMs, lagMs);
    }
  }

  /** The loop is still waiting before the latest time of the next attempt. */
  lemma {:induction false} IdlesBeforeNext(b: Beat, w: Watch, tries: seq<Look>, latencyMs: int, tickMs: nat, lagMs: nat)
    requires InTime(b, w, tries, latencyMs, tickMs, lagMs) && tickMs + lagMs >= 1
    requires tries != [] ==> Last(tries).doneMs <= Last(tries).atMs + latencyMs
    ensures IdleUntil(b, w, tries, tickMs, lagMs) < w.lastOkMs + LatestMs(b.failures, w.intervalSecs, |tries| + 1, latencyMs, tickMs, lagMs)
  {
    LatestStep(b.failures, w.intervalSecs, |tries| + 1, latencyMs, tickMs, lagMs);
    hide LatestMs, IdleMs, RetryMs;
    if tries != [] {
      assert tries[|tries| - 1].atMs <= w.lastOkMs + LatestMs(b.failures, w.intervalSecs, |tries|, latencyMs, tickMs, lagMs);
    }
  }

  // --- The bound is met ------------------------------------------------------------------------------------------------

  /** `m` idle looks, the last at `toMs`, each as soon after the one before as the ones before it allow. */
  function Idle(w: Watch, looks: seq<Look>, toMs: int, m: nat, tickMs: nat, lagMs: nat): seq<Look>
    decreases m
  {
    if m == 0 then looks
    else
      var step := Max(tickMs, toMs - FreeMs(w, looks) - Rounds(m - 1, tickMs + lagMs));
      Idle(w, looks, toMs - step, m - 1, tickMs, lagMs) + [Look(toMs, toMs)]
  }

  lemma {:induction false} IdleWaits(b: Beat, w: Watch, looks: seq<Look>, toMs: int, m: nat, latencyMs: int, tickMs: nat, lagMs: nat)
    requires Polls(b, w, looks, latencyMs, tickMs, lagMs) && After(b, w, looks).sentSig == w.sig
    requires looks != []
    requires Rounds(m, tickMs) <= toMs - FreeMs(w, looks) <= Rounds(m, tickMs + lagMs) && toMs < DueMs(After(b, w, looks), w)
    ensures var all := Idle(w, looks, toMs, m, tickMs, lagMs);
      && Polls(b, w, all, latencyMs, tickMs, lagMs) && FreeMs(w, all) == toMs && all != []
      && After(b, w, all) == After(b, w, looks) && Attempts(b, w, all) == Attempts(b, w, looks)
    decreases m
  {
    hide Polls, Attempts, After, DueMs, BeatDue, Rounds, FreeMs;
    if m == 0 {
      OneMoreStep(0, tickMs, lagMs);
    } else {
      var span := toMs - FreeMs(w, looks);
      StepFits(m, span, tickMs, lagMs);
      var step := Max(tickMs, span - Rounds(m - 1, tickMs + lagMs));
      IdleWaits(b, w, looks, toMs - step, m - 1, latencyMs, tickMs, lagMs);
      hide Idle, Max;
      OneIdleLook(b, w, Idle(w, looks, toMs - step, m - 1, tickMs, lagMs), toMs, latencyMs, tickMs, lagMs);
      IdleUnfolds(w, looks, toMs, m, tickMs, lagMs);
    }
  }

  lemma IdleUnfolds(w: Watch, looks: seq<Look>, toMs: int, m: nat, tickMs: nat, lagMs: nat)
    requires m > 0
    ensures var step := Max(tickMs, toMs - FreeMs(w, looks) - Rounds(m - 1, tickMs + lagMs));
      Idle(w, looks, toMs, m, tickMs, lagMs) == Idle(w, looks, toMs - step, m - 1, tickMs, lagMs) + [Look(toMs, toMs)]
  {
    hide Max, FreeMs, Rounds;
  }

  lemma StepFits(m: nat, spanMs: int, tickMs: nat, lagMs: nat)
    requires m > 0 && Rounds(m, tickMs) <= spanMs <= Rounds(m, tickMs + lagMs)
    ensures var step := Max(tickMs, spanMs - Rounds(m - 1, tickMs + lagMs));
      tickMs <= step <= tickMs + lagMs && Rounds(m - 1, tickMs) <= spanMs - step <= Rounds(m - 1, tickMs + lagMs)
  {
    hide Rounds;
    OneMoreStep(m - 1, tickMs, lagMs);
    LongerRounds(m - 1, tickMs, tickMs + lagMs);
  }

  lemma {:induction false} OneIdleLook(b: Beat, w: Watch, front: seq<Look>, toMs: int, latencyMs: int, tickMs: nat, lagMs: nat)
    requires Polls(b, w, front, latencyMs, tickMs, lagMs) && After(b, w, front).sentSig == w.sig
    requires FreeMs(w, front) + (if front == [] then 0 else tickMs) <= toMs <= FreeMs(w, front) + tickMs + lagMs
    requires toMs < DueMs(After(b, w, front), w)
    ensures var all := front + [Look(toMs, toMs)];
      && Polls(b, w, all, latencyMs, tickMs, lagMs) && FreeMs(w, all) == toMs
      && After(b, w, all) == After(b, w, front) && Attempts(b, w, all) == Attempts(b, w, front)
  {
    var all := front + [Look(toMs, toMs)];
    assert all[..|all| - 1] == front;
    TriesFromDue(After(b, w, front), w, toMs);
  }

  /** The loop idles as long as it can into the wait, looks as late as it may, and fails as late as it may. */
  function NextWorst(b: Beat, w: Watch, looks: seq<Look>, latencyMs: int, tickMs: nat, lagMs: nat): seq<Look>
    requires DueMs(After(b, w, looks), w) > FreeMs(w, looks)
  {
    var free := FreeMs(w, looks);
    var wait := DueMs(After(b, w, looks), w) - free;
    var lastMs := free + IdleMs(wait, tickMs, lagMs);
    Idle(w, looks, lastMs, Steps(wait, tickMs), tickMs, lagMs) +
    [Look(lastMs + tickMs + lagMs, lastMs + tickMs + lagMs + latencyMs)]
  }

  ghost predicate MeetsTheBound(b: Beat, w: Watch, n: nat, run: seq<Look>, latencyMs: int, tickMs: nat, lagMs: nat)
    requires n >= 1
  {
    var tries, end, free := Attempts(b, w, run), After(b, w, run), FreeMs(w, run);
    && Polls(b, w, run, latencyMs, tickMs, lagMs) && run != [] && |tries| == n
    && end.sentSig == w.sig && DueMs(end, w) == free + RetryMs(b.failures + n) && end.failures == b.failures + n
    && Last(tries).atMs == w.lastOkMs + LatestMs(b.failures, w.intervalSecs, n, latencyMs, tickMs, lagMs)
    && free == Last(tries).atMs + latencyMs
  }

  lemma {:induction false} LastLookTries(b: Beat, w: Watch, idle: seq<Look>, look: Look, latencyMs: int, tickMs: nat, lagMs: nat)
    requires Polls(b, w, idle, latencyMs, tickMs, lagMs) && latencyMs >= 0 && idle != []
    requires After(b, w, idle).sentSig == w.sig && DueMs(After(b, w, idle), w) <= look.atMs && w.lastOkMs <= look.atMs
    requires look == Look(FreeMs(w, idle) + tickMs + lagMs, FreeMs(w, idle) + tickMs + lagMs + latencyMs)
    ensures var run := idle + [look];
      && Polls(b, w, run, latencyMs, tickMs, lagMs) && FreeMs(w, run) == look.doneMs
      && Attempts(b, w, run) == Attempts(b, w, idle) + [look]
      && After(b, w, run).sentSig == w.sig && After(b, w, run).failures == After(b, w, idle).failures + 1
      && DueMs(After(b, w, run), w) == look.doneMs + RetryMs(After(b, w, idle).failures + 1)
  {
    var run := idle + [look];
    assert run[..|run| - 1] == idle;
    TriesFromDue(After(b, w, idle), w, look.atMs);
  }

  /** The idling of `NextWorst` is a run of looks the loop can make, and its last look is past the due time. */
  lemma IdlingFits(waitMs: int, tickMs: nat, lagMs: nat)
    requires waitMs >= 1 && tickMs + lagMs >= 1
    ensures var m, idle := Steps(waitMs, tickMs), IdleMs(waitMs, tickMs, lagMs);
      Rounds(m, tickMs) <= idle <= Rounds(m, tickMs + lagMs) && idle < waitMs <= idle + tickMs + lagMs
  {
    hide Rounds;
    var m := Steps(waitMs, tickMs);
    StepsFill(waitMs, tickMs);
    LongerRounds(m, tickMs, tickMs + lagMs);
    if tickMs == 0 { RoundsAtLeast(m, lagMs); }
  }

  lemma {:induction false} NextIsWorst(b: Beat, w: Watch, n: nat, front: seq<Look>, latencyMs: int, tickMs: nat, lagMs: nat)
    requires n >= 1 && MeetsTheBound(b, w, n, front, latencyMs, tickMs, lagMs)
    requires latencyMs >= 0 && tickMs + lagMs >= 1 && w.lastOkMs <= FreeMs(w, front)
    ensures DueMs(After(b, w, front), w) > FreeMs(w, front)
    ensures MeetsTheBound(b, w, n + 1, NextWorst(b, w, front, latencyMs, tickMs, lagMs), latencyMs, tickMs, lagMs)
    ensures w.lastOkMs <= FreeMs(w, NextWorst(b, w, front, latencyMs, tickMs, lagMs))
  {
    hide Polls, Attempts, After, Idle, LatestMs, BeatDue, RetryMs, DueMs, IdleMs, Steps, FreeMs;
    var free, wait := FreeMs(w, front), RetryMs(b.failures + n);
    IdlingFits(wait, tickMs, lagMs);
    IdleIsNever(wait, tickMs, lagMs);
    var lastMs := free + IdleMs(wait, tickMs, lagMs);
    IdleWaits(b, w, front, lastMs, Steps(wait, tickMs), latencyMs, tickMs, lagMs);
    var look := Look(lastMs + tickMs + lagMs, lastMs + tickMs + lagMs + latencyMs);
    LastLookTries(b, w, Idle(w, front, lastMs, Steps(wait, tickMs), tickMs, lagMs), look, latencyMs, tickMs, lagMs);
    LatestStep(b.failures, w.intervalSecs, n + 1, latencyMs, tickMs, lagMs);
  }

  /** Looks of which one comes just before the interval ends. */
  function FirstIdle(w: Watch, tickMs: nat, lagMs: nat): seq<Look>
    requires w.intervalSecs >= 1
  {
    var waitMs := w.intervalSecs * 1000;
    var m := Steps(waitMs, tickMs);
    var firstMs := w.lastOkMs + (if tickMs == 0 then 0 else waitMs - 1 - Rounds(m, tickMs));
    Idle(w, [Look(firstMs, firstMs)], w.lastOkMs + waitMs - 1, m, tickMs, lagMs)
  }

  /** The first attempt as late as can be. */
  function FirstWorst(w: Watch, latencyMs: int, tickMs: nat, lagMs: nat): seq<Look>
    requires w.intervalSecs >= 1
  {
    var atMs := w.lastOkMs + w.intervalSecs * 1000 - 1 + tickMs + lagMs;
    FirstIdle(w, tickMs, lagMs) + [Look(atMs, atMs + latencyMs)]
  }

  lemma FirstIsWorst(b: Beat, w: Watch, latencyMs: int, tickMs: nat, lagMs: nat)
    requires b.sentSig == w.sig && (b.failures > 0 ==> b.failedAtMs < w.lastOkMs)
    requires w.intervalSecs >= 1 && latencyMs >= 0 && tickMs + lagMs >= 1
    ensures MeetsTheBound(b, w, 1, FirstWorst(w, latencyMs, tickMs, lagMs), latencyMs, tickMs, lagMs)
    ensures w.lastOkMs <= FreeMs(w, FirstWorst(w, latencyMs, tickMs, lagMs))
  {
    hide Polls, Attempts, After, Idle, LatestMs, BeatDue, RetryMs, DueMs, IdleMs, Steps, FreeMs;
    var lastMs := w.lastOkMs + w.intervalSecs * 1000 - 1;
    StartsFresh(b, w, latencyMs, tickMs, lagMs);
    FirstIdles(b, w, latencyMs, tickMs, lagMs);
    LatestStep(b.failures, w.intervalSecs, 1, latencyMs, tickMs, lagMs);
    var look := Look(lastMs + tickMs + lagMs, lastMs + tickMs + lagMs + latencyMs);
    LastLookTries(b, w, FirstIdle(w, tickMs, lagMs), look, latencyMs, tickMs, lagMs);
  }

  lemma {:induction false} FirstIdles(b: Beat, w: Watch, latencyMs: int, tickMs: nat, lagMs: nat)
    requires b.sentSig == w.sig && (b.failures > 0 ==> b.failedAtMs < w.lastOkMs)
    requires w.intervalSecs >= 1 && tickMs + lagMs >= 1
    ensures var idle := FirstIdle(w, tickMs, lagMs);
      && idle != [] && Polls(b, w, idle, latencyMs, tickMs, lagMs) && FreeMs(w, idle) == w.lastOkMs + w.intervalSecs * 1000 - 1
      && After(b, w, idle) == b && Attempts(b, w, idle) == []
  {
    hide Polls, Attempts, After, Idle, BeatDue, DueMs, Steps;
    var waitMs := w.intervalSecs * 1000;
    var m := Steps(waitMs, tickMs);
    PhaseFits(waitMs, tickMs, lagMs);
    StartsFresh(b, w, latencyMs, tickMs, lagMs);
    var firstMs := w.lastOkMs + (if tickMs == 0 then 0 else waitMs - 1 - Rounds(m, tickMs));
    assert [] + [Look(firstMs, firstMs)] == [Look(firstMs, firstMs)];
    OneIdleLook(b, w, [], firstMs, latencyMs, tickMs, lagMs);
    IdleWaits(b, w, [Look(firstMs, firstMs)], w.lastOkMs + waitMs - 1, m, latencyMs, tickMs, lagMs);
  }

  lemma {:induction false} StartsFresh(b: Beat, w: Watch, latencyMs: int, tickMs: nat, lagMs: nat)
    requires b.sentSig == w.sig && (b.failures > 0 ==> b.failedAtMs < w.lastOkMs)
    ensures Polls(b, w, [], latencyMs, tickMs, lagMs) && After(b, w, []) == b && Attempts(b, w, []) == [] && FreeMs(w, []) == w.lastOkMs
    ensures DueMs(b, w) == w.lastOkMs + w.intervalSecs * 1000
  {
  }

  lemma PhaseFits(waitMs: int, tickMs: nat, lagMs: nat)
    requires waitMs >= 1 && tickMs + lagMs >= 1
    ensures var m := Steps(waitMs, tickMs);
      var first := if tickMs == 0 then 0 else waitMs - 1 - Rounds(m, tickMs);
      && 0 <= first <= tickMs + lagMs && first <= waitMs - 1
      && Rounds(m, tickMs) <= waitMs - 1 - first <= Rounds(m, tickMs + lagMs)
  {
    hide Rounds;
    var m := Steps(waitMs, tickMs);
    StepsFill(waitMs, tickMs);
    LongerRounds(m, tickMs, tickMs + lagMs);
    if tickMs == 0 { RoundsAtLeast(m, lagMs); }
  }

  /** A run whose every attempt is as late as it can be. */
  lemma {:induction false} WorstRunIsWorst(b: Beat, w: Watch, n: nat, latencyMs: int, tickMs: nat, lagMs: nat) returns (run: seq<Look>)
    requires b.sentSig == w.sig && (b.failures > 0 ==> b.failedAtMs < w.lastOkMs)
    requires w.intervalSecs >= 1 && latencyMs >= 0 && tickMs + lagMs >= 1 && n >= 1
    ensures MeetsTheBound(b, w, n, run, latencyMs, tickMs, lagMs) && w.lastOkMs <= FreeMs(w, run)
  {
    hide MeetsTheBound, Idle, DueMs, After, FreeMs, NextWorst, FirstWorst;
    if n == 1 {
      run := FirstWorst(w, latencyMs, tickMs, lagMs);
      FirstIsWorst(b, w, latencyMs, tickMs, lagMs);
    } else {
      var front := WorstRunIsWorst(b, w, n - 1, latencyMs, tickMs, lagMs);
      NextIsWorst(b, w, n - 1, front, latencyMs, tickMs, lagMs);
      run := NextWorst(b, w, front, latencyMs, tickMs, lagMs);
    }
  }

  // --- How many attempts are sure -----------------------------------------------------------------------------------------

  /** In every run that lasts so long, `n` attempts have started `withinMs` after the last delivered post. */
  ghost predicate AlwaysTries(
    failures: nat, intervalSecs: nat, n: nat, latencyMs: int, tickMs: nat, lagMs: nat, withinMs: int)
    requires n >= 1
  {
    forall b: Beat, w: Watch, looks: seq<Look> ::
      Known(b, w) && b.failures == failures && w.intervalSecs == intervalSecs && Polls(b, w, looks, latencyMs, tickMs, lagMs) &&
      looks != [] && FreeMs(w, looks) >= w.lastOkMs + withinMs ==>
        |Attempts(b, w, looks)| >= n && Attempts(b, w, looks)[n - 1].atMs <= w.lastOkMs + withinMs
  }

  /** The bound is exact: `n` attempts are sure within a time if and only if the latest start of the `n`-th is within it. */
  lemma {:induction false} AlwaysTriesIff(failures: nat, intervalSecs: nat, n: nat, latencyMs: int, tickMs: nat, lagMs: nat, withinMs: int)
    requires intervalSecs >= 60 && n >= 1 && latencyMs >= 0 && tickMs + lagMs >= 1
    ensures AlwaysTries(failures, intervalSecs, n, latencyMs, tickMs, lagMs, withinMs)
       <==> LatestMs(failures, intervalSecs, n, latencyMs, tickMs, lagMs) <= withinMs
  {
    hide LatestMs, Known, Polls, Attempts, FreeMs;
    if LatestMs(failures, intervalSecs, n, latencyMs, tickMs, lagMs) <= withinMs {
      forall b: Beat, w: Watch, looks: seq<Look> |
        Known(b, w) && b.failures == failures && w.intervalSecs == intervalSecs && Polls(b, w, looks, latencyMs, tickMs, lagMs) &&
        looks != [] && FreeMs(w, looks) >= w.lastOkMs + withinMs
        ensures |Attempts(b, w, looks)| >= n && Attempts(b, w, looks)[n - 1].atMs <= w.lastOkMs + withinMs
      {
        EnoughAttempts(b, w, looks, latencyMs, tickMs, lagMs, n);
        AttemptsAreTimely(b, w, looks, latencyMs, tickMs, lagMs);
        assert Attempts(b, w, looks)[n - 1].atMs
            <= w.lastOkMs + LatestMs(b.failures, w.intervalSecs, n - 1 + 1, latencyMs, tickMs, lagMs);
      }
    } else {
      SomeRunIsLate(failures, intervalSecs, n, latencyMs, tickMs, lagMs, withinMs);
    }
  }

  lemma KnownIs(b: Beat, w: Watch)
    requires b.sentSig == w.sig && b.failedAtMs <= w.lastOkMs && b.retryAtMs <= b.failedAtMs + RETRY_MAX_SECS * 1000
    ensures Known(b, w)
  {
  }

  lemma {:induction false} BoundIsMet(b: Beat, w: Watch, n: nat, run: seq<Look>, latencyMs: int, tickMs: nat, lagMs: nat)
    requires n >= 1 && MeetsTheBound(b, w, n, run, latencyMs, tickMs, lagMs)
    ensures Polls(b, w, run, latencyMs, tickMs, lagMs) && run != [] && |Attempts(b, w, run)| == n
    ensures Attempts(b, w, run)[n - 1].atMs == w.lastOkMs + LatestMs(b.failures, w.intervalSecs, n, latencyMs, tickMs, lagMs)
    ensures FreeMs(w, run) == Attempts(b, w, run)[n - 1].atMs + latencyMs
  {
    hide LatestMs, Polls, Attempts, FreeMs, After, DueMs;
  }

  lemma {:induction false} SomeRunIsLate(failures: nat, intervalSecs: nat, n: nat, latencyMs: int, tickMs: nat, lagMs: nat, withinMs: int)
    requires intervalSecs >= 60 && n >= 1 && latencyMs >= 0 && tickMs + lagMs >= 1
    requires LatestMs(failures, intervalSecs, n, latencyMs, tickMs, lagMs) > withinMs
    ensures !AlwaysTries(failures, intervalSecs, n, latencyMs, tickMs, lagMs, withinMs)
  {
    var b, w := Beat(1, failures, -1, 0), Watch(1, 0, intervalSecs);
    KnownIs(b, w);
    hide LatestMs, Known, Polls, Attempts, FreeMs, MeetsTheBound;
    var run := WorstRunIsWorst(b, w, n, latencyMs, tickMs, lagMs);
    BoundIsMet(b, w, n, run, latencyMs, tickMs, lagMs);
  }

  /**
   The cloud's lost-device alarm is ten minutes after the last delivered post; the interval is five. For looks
   anywhere, at most `gapMs` apart, at least five beats are attempted by then if and only if looks are close and
   failures quick enough: a clock with no failure behind it, looked at every ten seconds, has up to ten for a
   failure to show, and one with failures behind it two and a half.
   */
  lemma FiveTriesBeforeTheAlarm(latencyMs: int, gapMs: nat)
    requires latencyMs >= 0 && gapMs >= 1
    ensures AlwaysTries(0, 300, 5, latencyMs, 0, gapMs, 600 * 1000) <==> 4 * latencyMs + 5 * (gapMs - 1) <= 90 * 1000
    ensures forall failures: nat :: failures >= 1 ==>
      (AlwaysTries(failures, 300, 5, latencyMs, 0, gapMs, 600 * 1000) <==> 4 * latencyMs + 5 * (gapMs - 1) <= 60 * 1000)
  {
    hide AlwaysTries, LatestMs, IdleMs;
    IdlesToTheEnd(gapMs);
    AlwaysTriesIff(0, 300, 5, latencyMs, 0, gapMs, 600 * 1000);
    LatestOfFive(0, latencyMs, 0, gapMs);
    forall failures: nat | failures >= 1
      ensures AlwaysTries(failures, 300, 5, latencyMs, 0, gapMs, 600 * 1000) <==> 4 * latencyMs + 5 * (gapMs - 1) <= 60 * 1000
    {
      AlwaysTriesIff(failures, 300, 5, latencyMs, 0, gapMs, 600 * 1000);
      LatestOfFive(failures, latencyMs, 0, gapMs);
    }
  }

  lemma IdlesToTheEnd(gapMs: nat)
    requires gapMs >= 1
    ensures IdleMs(30000, 0, gapMs) == 29999 && IdleMs(60000, 0, gapMs) == 59999
  {
    RoundsAtLeast(29999, gapMs);
    RoundsAtLeast(59999, gapMs);
  }

  lemma {:induction false} LatestOfFive(failures: nat, latencyMs: int, tickMs: nat, lagMs: nat)
    ensures var half, full := IdleMs(30000, tickMs, lagMs), IdleMs(60000, tickMs, lagMs);
      var firstWait := if failures == 0 then half else full;
      && LatestMs(failures, 300, 4, latencyMs, tickMs, lagMs) == 299999 + firstWait + 2 * full + 3 * latencyMs + 4 * (tickMs + lagMs)
      && LatestMs(failures, 300, 5, latencyMs, tickMs, lagMs) == 299999 + firstWait + 3 * full + 4 * latencyMs + 5 * (tickMs + lagMs)
  {
    hide IdleMs;
    LatestStep(failures, 300, 1, latencyMs, tickMs, lagMs);
    LatestStep(failures, 300, 2, latencyMs, tickMs, lagMs);
    LatestStep(failures, 300, 3, latencyMs, tickMs, lagMs);
    LatestStep(failures, 300, 4, latencyMs, tickMs, lagMs);
    LatestStep(failures, 300, 5, latencyMs, tickMs, lagMs);
  }

  const LOOP_TICK_MS: nat := 5000

  /** A loop that sleeps five seconds before every look sees a retry on its due tick, so it loses only its lag. */
  lemma IdlesToTheTick(lagMs: nat)
    requires lagMs <= 454
    ensures IdleMs(30000, LOOP_TICK_MS, lagMs) == 25000 + 5 * lagMs && IdleMs(60000, LOOP_TICK_MS, lagMs) == 55000 + 11 * lagMs
  {
  }

  /**
   At the loop's own tick, late by less than half a second at a look, five attempts are sure before the alarm
   if and only if failures are quick enough for the lag; a clock with failures behind it has half a minute less.
   */
  lemma FiveTriesAtTheTick(latencyMs: int, lagMs: nat)
    requires latencyMs >= 0 && lagMs <= 454
    ensures AlwaysTries(0, 300, 5, latencyMs, LOOP_TICK_MS, lagMs, 600 * 1000) <==> 4 * latencyMs + 43 * lagMs <= 85001
    ensures forall failures: nat :: failures >= 1 ==>
      (AlwaysTries(failures, 300, 5, latencyMs, LOOP_TICK_MS, lagMs, 600 * 1000) <==> 4 * latencyMs + 49 * lagMs <= 55001)
  {
    hide AlwaysTries, LatestMs, IdleMs;
    IdlesToTheTick(lagMs);
    AlwaysTriesIff(0, 300, 5, latencyMs, LOOP_TICK_MS, lagMs, 600 * 1000);
    LatestOfFive(0, latencyMs, LOOP_TICK_MS, lagMs);
    forall failures: nat | failures >= 1
      ensures AlwaysTries(failures, 300, 5, latencyMs, LOOP_TICK_MS, lagMs, 600 * 1000) <==> 4 * latencyMs + 49 * lagMs <= 55001
    {
      AlwaysTriesIff(failures, 300, 5, latencyMs, LOOP_TICK_MS, lagMs, 600 * 1000);
      LatestOfFive(failures, latencyMs, LOOP_TICK_MS, lagMs);
    }
  }

  /**
   With the request limit of twenty seconds four attempts are sure, whatever failed before. Five are sure of a
   clock with no failure behind it as long as the loop is late by at most 116 ms a look, and never of one with
   failures behind it.
   */
  lemma FourTriesHoweverSlow(failures: nat, lagMs: nat)
    requires lagMs <= 454
    ensures AlwaysTries(failures, 300, 4, 20000, LOOP_TICK_MS, lagMs, 600 * 1000)
    ensures AlwaysTries(0, 300, 5, 20000, LOOP_TICK_MS, lagMs, 600 * 1000) <==> lagMs <= 116
    ensures failures >= 1 ==> !AlwaysTries(failures, 300, 5, 20000, LOOP_TICK_MS, lagMs, 600 * 1000)
  {
    hide AlwaysTries, LatestMs, IdleMs;
    IdlesToTheTick(lagMs);
    AlwaysTriesIff(failures, 300, 4, 20000, LOOP_TICK_MS, lagMs, 600 * 1000);
    LatestOfFive(failures, 20000, LOOP_TICK_MS, lagMs);
    FiveTriesAtTheTick(20000, lagMs);
  }

  /** And never in a hurry: while nothing lands, an attempt starts half a minute or more after the last one failed. */
  lemma {:induction false} AttemptsKeepApart(b: Beat, w: Watch, looks: seq<Look>, latencyMs: int, tickMs: nat, lagMs: nat, n: nat)
    requires Known(b, w) && w.intervalSecs >= 60 && Polls(b, w, looks, latencyMs, tickMs, lagMs)
    requires n + 1 < |Attempts(b, w, looks)|
    ensures Attempts(b, w, looks)[n + 1].atMs >= Attempts(b, w, looks)[n].doneMs + RETRY_SECS * 1000
  {
    var front := looks[..|looks| - 1];
    StandingStep(b, w, front, latencyMs, tickMs, lagMs);
    TriesFromDue(After(b, w, front), w, Last(looks).atMs);
    if n + 1 < |Attempts(b, w, front)| {
      AttemptsKeepApart(b, w, front, latencyMs, tickMs, lagMs, n);
    }
  }

  /** A signature no delivered beat has carried is tried at every look: its first failures do not back off. */
  lemma {:induction false} NewSignatureIsAlwaysTried(b: Beat, w: Watch, looks: seq<Look>)
    requires b.sentSig != w.sig
    ensures Attempts(b, w, looks) == looks && After(b, w, looks).sentSig == b.sentSig
  {
    if looks != [] {
      NewSignatureIsAlwaysTried(b, w, looks[..|looks| - 1]);
    }
  }
}
