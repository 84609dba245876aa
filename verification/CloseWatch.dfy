/**
 Confirm-then-retry for a valve close: a first stop command, retries at named offsets and then at a
 fixed pace, one alert to the owner, and a give-up. Every instant is in ms; offsets count from the
 first attempt.
 */
module CloseWatches {
  import opened Prelude

  datatype Cause = Flood | VolumeCap | Manual

  datatype Schedule = Schedule(
    confirmWithinMs: int,
    retryAtMs: seq<int>,
    thenEveryMs: int,
    alertAtMs: int,
    giveUpMs: int)

  const PRODUCTION := Schedule(10_000, [5_000, 10_000, 20_000, 40_000], 60_000, 300_000, 1_800_000)

  datatype Watch = Watch(cause: Cause, firstMs: int, lastMs: int, attempts: nat, alerted: bool)

  datatype CloseStep = Confirmed | Reissue | Wait | GaveUp

  function Opened(cause: Cause, atMs: int): Watch {
    Watch(cause, atMs, atMs, 1, false)
  }

  predicate AlertDue(s: Schedule, w: Watch, watering: bool, nowMs: int) {
    watering && !w.alerted && Max(nowMs - w.firstMs, 0) >= s.alertAtMs
  }

  /** Offset at which attempt `n` (counted from 1) falls due. */
  function DueAtMs(s: Schedule, n: nat): int {
    if n <= 1 then 0
    else
      var i := n - 2;
      if i < |s.retryAtMs| then s.retryAtMs[i]
      else (if s.retryAtMs == [] then 0 else Last(s.retryAtMs)) + (i - |s.retryAtMs| + 1) * s.thenEveryMs
  }

  function DecideStep(s: Schedule, w: Watch, watering: bool, nowMs: int): CloseStep {
    if !watering then Confirmed
    else
      var elapsed := Max(nowMs - w.firstMs, 0);
      if elapsed >= s.giveUpMs then GaveUp
      else if elapsed >= DueAtMs(s, w.attempts + 1) then Reissue
      else Wait
  }

  /** How long the caller may sleep before it must look again. */
  function NextLookMs(s: Schedule, w: Watch, nowMs: int): int {
    var due := w.firstMs + DueAtMs(s, w.attempts + 1);
    var confirmBy := w.lastMs + s.confirmWithinMs;
    var giveUpAt := w.firstMs + s.giveUpMs;
    var target := if confirmBy > nowMs then Min(due, confirmBy) else due;
    var alertAt := w.firstMs + s.alertAtMs;
    var sooner := if !w.alerted && alertAt > nowMs then Min(target, alertAt) else target;
    Max(Min(sooner, giveUpAt) - nowMs, 1)
  }

  // --- One look ----------------------------------------------------------------------------------------

  /** What one look at one closing valve did: told the owner, and took a step. */
  datatype Look = Look(atMs: int, toldOwner: bool, step: CloseStep)

  /** The caller's pass over one watch: tell the owner if due, then decide, and record a re-issue. */
  function LookAt(s: Schedule, w: Watch, watering: bool, nowMs: int): (Look, Watch) {
    var told := AlertDue(s, w, watering, nowMs);
    var w1 := if told then w.(alerted := true) else w;
    var step := DecideStep(s, w1, watering, nowMs);
    (Look(nowMs, told, step), if step == Reissue then w1.(attempts := w1.attempts + 1, lastMs := nowMs) else w1)
  }

  /** A look confirms exactly when the valve reports shut, whatever the clock says, and then touches nothing else. */
  lemma ShutConfirms(s: Schedule, w: Watch, watering: bool, nowMs: int)
    ensures var (look, after) := LookAt(s, w, watering, nowMs);
      && (look.step == Confirmed <==> !watering)
      && (!watering ==> !look.toldOwner && after == w)
  {
  }

  /** What a look at a valve still watering does: the end comes before a retry, a retry when its offset has passed. */
  lemma WateringDecides(s: Schedule, w: Watch, nowMs: int)
    ensures var (look, after) := LookAt(s, w, true, nowMs);
      var since := if nowMs > w.firstMs then nowMs - w.firstMs else 0;
      && look.atMs == nowMs
      && (look.toldOwner <==> !w.alerted && since >= s.alertAtMs)
      && (look.step == GaveUp <==> since >= s.giveUpMs)
      && (look.step == Reissue <==> since < s.giveUpMs && since >= DueAtMs(s, w.attempts + 1))
      && after == w.(alerted := w.alerted || look.toldOwner,
                     attempts := if look.step == Reissue then w.attempts + 1 else w.attempts,
                     lastMs := if look.step == Reissue then nowMs else w.lastMs)
  {
  }

  /** When attempts fall due: the first at once, the named retries at their offsets, the rest at the fixed pace after the last of them. */
  lemma DueOffsetsAre(s: Schedule, n: nat)
    ensures n <= 1 ==> DueAtMs(s, n) == 0
    ensures 2 <= n <= |s.retryAtMs| + 1 ==> DueAtMs(s, n) == s.retryAtMs[n - 2]
    ensures s.retryAtMs == [] && n >= 1 ==> DueAtMs(s, n) == (n - 1) * s.thenEveryMs
    ensures s.retryAtMs != [] && n > |s.retryAtMs| + 1 ==>
              DueAtMs(s, n) == s.retryAtMs[|s.retryAtMs| - 1] + (n - 1 - |s.retryAtMs|) * s.thenEveryMs
  {
  }

  /** An instant the caller has to look at: the next attempt, the end, and the confirm window and the alert while ahead. */
  predicate IsDeadline(s: Schedule, w: Watch, nowMs: int, t: int) {
    || t == w.firstMs + DueAtMs(s, w.attempts + 1)
    || t == w.firstMs + s.giveUpMs
    || (t == w.lastMs + s.confirmWithinMs && t > nowMs)
    || (t == w.firstMs + s.alertAtMs && t > nowMs && !w.alerted)
  }

  /** In any state, the caller is to look again at the soonest deadline, or in a millisecond if that is not ahead. */
  lemma NextLookIsTheSoonest(s: Schedule, w: Watch, nowMs: int)
    ensures var next := nowMs + NextLookMs(s, w, nowMs);
      && next > nowMs
      && (forall t :: IsDeadline(s, w, nowMs, t) ==> next <= t || next == nowMs + 1)
      && (exists t :: IsDeadline(s, w, nowMs, t) && t <= next && (next == t || next == nowMs + 1))
  {
    hide DueAtMs;
    var next := nowMs + NextLookMs(s, w, nowMs);
    assert IsDeadline(s, w, nowMs, w.firstMs + DueAtMs(s, w.attempts + 1));
    assert IsDeadline(s, w, nowMs, w.firstMs + s.giveUpMs);
    assert w.lastMs + s.confirmWithinMs > nowMs ==> IsDeadline(s, w, nowMs, w.lastMs + s.confirmWithinMs);
    assert w.firstMs + s.alertAtMs > nowMs && !w.alerted ==> IsDeadline(s, w, nowMs, w.firstMs + s.alertAtMs);
  }

  // --- Schedules -----------------------------------------------------------------------------------------

  /** Retries in order, and an alert before the give-up. */
  ghost predicate Sensible(s: Schedule) {
    && s.confirmWithinMs > 0
    && s.thenEveryMs > 0
    && 0 < s.alertAtMs < s.giveUpMs
    && (forall i :: 0 <= i < |s.retryAtMs| ==> 0 < s.retryAtMs[i])
    && (forall i, j :: 0 <= i < j < |s.retryAtMs| ==> s.retryAtMs[i] < s.retryAtMs[j])
  }

  lemma DueGrows(s: Schedule, n: nat)
    requires Sensible(s) && 1 <= n
    ensures DueAtMs(s, n) < DueAtMs(s, n + 1)
  {
    var i := n - 2;
    if i >= |s.retryAtMs| {
      assert (i + 1 - |s.retryAtMs| + 1) * s.thenEveryMs == (i - |s.retryAtMs| + 1) * s.thenEveryMs + s.thenEveryMs;
    } else if i + 1 == |s.retryAtMs| {
      assert (i + 1 - |s.retryAtMs| + 1) * s.thenEveryMs == s.thenEveryMs;
    }
  }

  /** Attempt `n` is the last one the schedule has room for before it gives up. */
  predicate LastAttempt(s: Schedule, n: nat) {
    n >= 1 && DueAtMs(s, n) < s.giveUpMs <= DueAtMs(s, n + 1)
  }

  lemma {:induction false} DueMonotone(s: Schedule, m: nat, n: nat)
    requires Sensible(s) && 1 <= m <= n
    ensures DueAtMs(s, m) <= DueAtMs(s, n)
    decreases n - m
  {
    if m < n {
      DueGrows(s, m);
      DueMonotone(s, m + 1, n);
    }
  }

  lemma ProductionHasRoomFor34()
    ensures Sensible(PRODUCTION) && LastAttempt(PRODUCTION, 34)
  {
    assert PRODUCTION.retryAtMs == [5_000, 10_000, 20_000, 40_000];
  }

  // --- Any caller -----------------------------------------------------------------------------------------

  /** The watch after looks at arbitrary instants, in any order, at a valve that may report anything. */
  function WatchAfter(s: Schedule, w: Watch, looks: seq<(int, bool)>): Watch {
    if looks == [] then w
    else LookAt(s, WatchAfter(s, w, looks[..|looks| - 1]), Last(looks).1, Last(looks).0).1
  }

  /** However the looks fall, a sequence never sends more commands than the schedule has room for. */
  lemma {:induction false} AttemptsAreBounded(s: Schedule, w: Watch, looks: seq<(int, bool)>, last: nat)
    requires Sensible(s) && LastAttempt(s, last)
    requires 1 <= w.attempts <= last
    ensures w.attempts <= WatchAfter(s, w, looks).attempts <= last
  {
    if looks != [] {
      var front := looks[..|looks| - 1];
      AttemptsAreBounded(s, w, front, last);
      var v := WatchAfter(s, w, front);
      if v.attempts == last {
        assert DecideStep(s, v.(alerted := true), Last(looks).1, Last(looks).0) != Reissue;
        assert DecideStep(s, v, Last(looks).1, Last(looks).0) != Reissue;
      }
    }
  }

  /** The owner is told at most once per sequence, however the looks fall. */
  lemma {:induction false} ToldOnce(s: Schedule, w: Watch, looks: seq<(int, bool)>, i: nat, j: nat)
    requires i < j < |looks|
    requires LookAt(s, WatchAfter(s, w, looks[..i]), looks[i].1, looks[i].0).0.toldOwner
    ensures !LookAt(s, WatchAfter(s, w, looks[..j]), looks[j].1, looks[j].0).0.toldOwner
    ensures WatchAfter(s, w, looks[..j]).alerted
  {
    assert looks[..j][..j - 1] == looks[..j - 1];
    if i < j - 1 {
      ToldOnce(s, w, looks, i, j - 1);
    }
  }

  // --- The punctual caller, against a valve that never reports shut -----------------------------------------

  /**
   The state right after a look at `now`: the last command went out exactly when it fell due, the next
   is still ahead, and the owner has been told exactly when the alert offset has passed.
   */
  ghost predicate OnSchedule(s: Schedule, w: Watch, now: int) {
    && Sensible(s)
    && w.attempts >= 1
    && w.lastMs == w.firstMs + DueAtMs(s, w.attempts)
    && w.lastMs <= now < w.firstMs + DueAtMs(s, w.attempts + 1)
    && now < w.firstMs + s.giveUpMs
    && (w.alerted <==> now >= w.firstMs + s.alertAtMs)
  }

  /** Deadlines still to be spent: two per command to come, the confirm deadline, the alert, the end. */
  function DeadlinesLeft(s: Schedule, w: Watch, now: int, last: nat): int {
    2 * (last - w.attempts)
    + (if w.lastMs + s.confirmWithinMs > now then 1 else 0)
    + (if w.alerted then 0 else 1)
    + 1
  }

  /** On schedule, the attempts sent fit the room there is, and the room is used up exactly at the last. */
  lemma RoomLeft(s: Schedule, w: Watch, now: int, last: nat)
    requires OnSchedule(s, w, now) && LastAttempt(s, last)
    ensures 1 <= w.attempts <= last
    ensures w.attempts == last <==> DueAtMs(s, w.attempts + 1) >= s.giveUpMs
  {
    hide DueAtMs;
    if w.attempts > last {
      DueMonotone(s, last + 1, w.attempts);
    } else if w.attempts < last {
      DueMonotone(s, w.attempts + 1, last);
    }
  }

  /** When a punctual caller looks again: strictly later, and at the soonest deadline still ahead. */
  lemma PunctualInstant(s: Schedule, w: Watch, now: int)
    requires OnSchedule(s, w, now)
    ensures var next := now + NextLookMs(s, w, now);
      && now < next <= w.firstMs + s.giveUpMs
      && next <= w.firstMs + DueAtMs(s, w.attempts + 1)
      && (now < w.lastMs + s.confirmWithinMs ==> next <= w.lastMs + s.confirmWithinMs)
      && (!w.alerted ==> next <= w.firstMs + s.alertAtMs)
      && (|| next == w.firstMs + s.giveUpMs
          || next == w.firstMs + DueAtMs(s, w.attempts + 1)
          || (next == w.lastMs + s.confirmWithinMs && now < next)
          || (!w.alerted && next == w.firstMs + s.alertAtMs))
  {
    hide DueAtMs;
  }

  /** What a look at the soonest deadline does. */
  lemma PunctualAct(s: Schedule, w: Watch, now: int, next: int)
    requires OnSchedule(s, w, now) && next == now + NextLookMs(s, w, now)
    ensures var (look, w') := LookAt(s, w, true, next);
      && look.atMs == next
      && (look.toldOwner <==> !w.alerted && next == w.firstMs + s.alertAtMs)
      && look.step == (if next == w.firstMs + s.giveUpMs then GaveUp
                       else if next == w.firstMs + DueAtMs(s, w.attempts + 1) then Reissue
                       else Wait)
      && w' == w.(alerted := next >= w.firstMs + s.alertAtMs,
                  attempts := if look.step == Reissue then w.attempts + 1 else w.attempts,
                  lastMs := if look.step == Reissue then next else w.lastMs)
  {
    DueMonotone(s, 1, w.attempts);
    DueGrows(s, w.attempts);
    assert DueAtMs(s, w.attempts + 1) > 0;
    hide DueAtMs, NextLookMs;
    PunctualInstant(s, w, now);
    assert s.alertAtMs < s.giveUpMs;
    hide Sensible;
    var told := AlertDue(s, w, true, next);
    assert told <==> !w.alerted && next == w.firstMs + s.alertAtMs;
    var w1 := w.(alerted := next >= w.firstMs + s.alertAtMs);
    assert w1 == if told then w.(alerted := true) else w;
    assert DecideStep(s, w1, true, next) ==
      if next == w.firstMs + s.giveUpMs then GaveUp
      else if next == w.firstMs + DueAtMs(s, w.attempts + 1) then Reissue
      else Wait;
  }

  /**
   One punctual look: it happens strictly later and no later than the confirm deadline, it sends a
   command exactly at its due time, tells the owner exactly at the alert offset, gives up exactly at
   the end, and spends a deadline.
   */
  lemma PunctualLook(s: Schedule, w: Watch, now: int, last: nat)
    requires OnSchedule(s, w, now) && LastAttempt(s, last)
    ensures w.attempts <= last && DeadlinesLeft(s, w, now, last) >= 1
    ensures var next := now + NextLookMs(s, w, now);
      var (look, w') := LookAt(s, w, true, next);
      && now < next <= w.firstMs + s.giveUpMs
      && (now < w.lastMs + s.confirmWithinMs ==> next <= w.lastMs + s.confirmWithinMs)
      && look.atMs == next
      && (look.toldOwner <==> !w.alerted && next == w.firstMs + s.alertAtMs)
      && (look.step == GaveUp <==> next == w.firstMs + s.giveUpMs)
      && (look.step == Reissue <==> next == w.firstMs + DueAtMs(s, w.attempts + 1) && next < w.firstMs + s.giveUpMs)
      && (look.step == GaveUp ==> w.attempts == last && w.alerted)
      && (look.step != GaveUp ==>
            && OnSchedule(s, w', next)
            && w'.firstMs == w.firstMs
            && (w'.alerted <==> w.alerted || look.toldOwner)
            && (w'.alerted <==> next >= w.firstMs + s.alertAtMs)
            && (look.step == Reissue ==> w'.lastMs == next < w'.lastMs + s.confirmWithinMs)
            && w'.attempts == (if look.step == Reissue then w.attempts + 1 else w.attempts)
            && DeadlinesLeft(s, w', next, last) < DeadlinesLeft(s, w, now, last))
  {
    var next := now + NextLookMs(s, w, now);
    RoomLeft(s, w, now, last);
    PunctualInstant(s, w, now);
    PunctualAct(s, w, now, next);
    DueGrows(s, w.attempts);
    DueGrows(s, w.attempts + 1);
    assert s.alertAtMs < s.giveUpMs && s.confirmWithinMs > 0;
    hide DueAtMs, NextLookMs, Sensible, LookAt;
  }

  /** Every look of a caller that always looks again exactly when it is told to. */
  ghost function PunctualLooks(s: Schedule, w: Watch, now: int, last: nat): seq<Look>
    requires OnSchedule(s, w, now) && LastAttempt(s, last)
    decreases DeadlinesLeft(s, w, now, last)
  {
    PunctualLook(s, w, now, last);
    var next := now + NextLookMs(s, w, now);
    var (look, w') := LookAt(s, w, true, next);
    if look.step == GaveUp then [look] else [look] + PunctualLooks(s, w', next, last)
  }

  /** The instants at which the looks sent a command, in order. */
  function CommandsAt(looks: seq<Look>): seq<int> {
    if looks == [] then []
    else (if looks[0].step == Reissue then [looks[0].atMs] else []) + CommandsAt(looks[1..])
  }

  lemma {:induction false} CommandsAtCons(look: Look, rest: seq<Look>)
    ensures CommandsAt([look] + rest) == (if look.step == Reissue then [look.atMs] else []) + CommandsAt(rest)
  {
    assert ([look] + rest)[1..] == rest;
  }

  /** The due times of attempts `from` to `to`. */
  function DueTimes(s: Schedule, firstMs: int, from: nat, upTo: nat): seq<int>
    decreases upTo - from
  {
    if from > upTo then [] else [firstMs + DueAtMs(s, from)] + DueTimes(s, firstMs, from + 1, upTo)
  }

  /** Commands at exactly the due times still to come, and an end at exactly the give-up offset. */
  ghost predicate SendsOnTime(s: Schedule, w: Watch, last: nat, looks: seq<Look>) {
    && looks != []
    && CommandsAt(looks) == DueTimes(s, w.firstMs, w.attempts + 1, last)
    && Last(looks).atMs == w.firstMs + s.giveUpMs
    && forall i :: 0 <= i < |looks| ==> (looks[i].step == GaveUp <==> i == |looks| - 1)
  }

  /** The owner is told exactly at the alert offset, and is told, unless he already was. */
  ghost predicate TellsAtAlert(s: Schedule, w: Watch, looks: seq<Look>) {
    && (forall i :: 0 <= i < |looks| ==> (looks[i].toldOwner <==> !w.alerted && looks[i].atMs == w.firstMs + s.alertAtMs))
    && (w.alerted || exists i :: 0 <= i < |looks| && looks[i].toldOwner)
  }

  /** Every command, the one already sent included, is followed by a look inside the confirm window. */
  ghost predicate AnswersInTime(s: Schedule, w: Watch, now: int, looks: seq<Look>) {
    && looks != []
    && (now < w.lastMs + s.confirmWithinMs ==> looks[0].atMs <= w.lastMs + s.confirmWithinMs)
    && forall i :: 0 <= i < |looks| - 1 ==>
         looks[i].step == Reissue ==> looks[i + 1].atMs <= looks[i].atMs + s.confirmWithinMs
  }

  /** At most one look per deadline, each later than the one before. */
  ghost predicate SpendsDeadlines(s: Schedule, w: Watch, now: int, last: nat, looks: seq<Look>) {
    && 0 < |looks| <= DeadlinesLeft(s, w, now, last)
    && now < looks[0].atMs
    && forall i :: 0 <= i < |looks| - 1 ==> looks[i].atMs < looks[i + 1].atMs
  }

  /** The looks of a punctual caller: the one that gives up, or one and then the rest. */
  lemma PunctualUnfolds(s: Schedule, w: Watch, now: int, last: nat)
    requires OnSchedule(s, w, now) && LastAttempt(s, last)
    ensures var next := now + NextLookMs(s, w, now);
      var (look, w') := LookAt(s, w, true, next);
      var looks := PunctualLooks(s, w, now, last);
      if look.step == GaveUp then looks == [look]
      else OnSchedule(s, w', next) && looks == [look] + PunctualLooks(s, w', next, last)
  {
    hide OnSchedule, NextLookMs, LookAt, DueAtMs, LastAttempt, DeadlinesLeft;
    PunctualLook(s, w, now, last);
  }

  /**
   The whole sequence, from any point on schedule: commands exactly at the due times that remain, and
   given up on the last look only, at exactly the give-up offset.
   */
  lemma {:induction false} PunctualSends(s: Schedule, w: Watch, now: int, last: nat)
    requires OnSchedule(s, w, now) && LastAttempt(s, last)
    ensures SendsOnTime(s, w, last, PunctualLooks(s, w, now, last))
    decreases DeadlinesLeft(s, w, now, last)
  {
    hide OnSchedule, NextLookMs, LookAt, DueAtMs, PunctualLooks, DeadlinesLeft, LastAttempt;
    PunctualLook(s, w, now, last);
    PunctualUnfolds(s, w, now, last);
    var next := now + NextLookMs(s, w, now);
    var (look, w') := LookAt(s, w, true, next);
    if look.step == GaveUp {
      assert [look][1..] == [] && CommandsAt([look][1..]) == [];
    } else {
      PunctualSends(s, w', next, last);
      RoomLeft(s, w', next, last);
      CommandsAtCons(look, PunctualLooks(s, w', next, last));
    }
  }

  /** The owner is told on one look of the sequence, at exactly the alert offset. */
  lemma {:induction false} PunctualTells(s: Schedule, w: Watch, now: int, last: nat)
    requires OnSchedule(s, w, now) && LastAttempt(s, last)
    ensures TellsAtAlert(s, w, PunctualLooks(s, w, now, last))
    decreases DeadlinesLeft(s, w, now, last)
  {
    hide OnSchedule, NextLookMs, LookAt, DueAtMs, PunctualLooks, DeadlinesLeft, LastAttempt;
    PunctualLook(s, w, now, last);
    PunctualUnfolds(s, w, now, last);
    PunctualMoves(s, w, now, last);
    var next := now + NextLookMs(s, w, now);
    var (look, w') := LookAt(s, w, true, next);
    var looks := PunctualLooks(s, w, now, last);
    if look.step != GaveUp {
      PunctualTells(s, w', next, last);
      var rest := PunctualLooks(s, w', next, last);
      PunctualMoves(s, w', next, last);
      forall i | 0 <= i < |looks|
        ensures looks[i].toldOwner <==> !w.alerted && looks[i].atMs == w.firstMs + s.alertAtMs
      {
        if i > 0 {
          assert looks[i] == rest[i - 1] && next < looks[i].atMs;
        }
      }
      if !w.alerted && !look.toldOwner {
        var i :| 0 <= i < |rest| && rest[i].toldOwner;
        assert looks[i + 1].toldOwner;
      } else if look.toldOwner {
        assert looks[0].toldOwner;
      }
    }
  }

  /** No look happens at or before the instant it follows. */
  lemma {:induction false} PunctualMoves(s: Schedule, w: Watch, now: int, last: nat)
    requires OnSchedule(s, w, now) && LastAttempt(s, last)
    ensures forall i :: 0 <= i < |PunctualLooks(s, w, now, last)| ==> now < PunctualLooks(s, w, now, last)[i].atMs
    decreases DeadlinesLeft(s, w, now, last)
  {
    hide OnSchedule, NextLookMs, LookAt, DueAtMs, PunctualLooks, DeadlinesLeft, LastAttempt;
    PunctualLook(s, w, now, last);
    PunctualUnfolds(s, w, now, last);
    var next := now + NextLookMs(s, w, now);
    var (look, w') := LookAt(s, w, true, next);
    if look.step != GaveUp {
      PunctualMoves(s, w', next, last);
    }
  }

  /** Every command is answered by a look inside the confirm window. */
  lemma {:induction false} PunctualAnswers(s: Schedule, w: Watch, now: int, last: nat)
    requires OnSchedule(s, w, now) && LastAttempt(s, last)
    ensures AnswersInTime(s, w, now, PunctualLooks(s, w, now, last))
    decreases DeadlinesLeft(s, w, now, last)
  {
    hide OnSchedule, NextLookMs, LookAt, DueAtMs, PunctualLooks, DeadlinesLeft, LastAttempt;
    PunctualLook(s, w, now, last);
    PunctualUnfolds(s, w, now, last);
    var next := now + NextLookMs(s, w, now);
    PunctualAct(s, w, now, next);
    var (look, w') := LookAt(s, w, true, next);
    if look.step != GaveUp {
      PunctualAnswers(s, w', next, last);
      var rest := PunctualLooks(s, w', next, last);
      var looks := [look] + rest;
      forall i | 0 <= i < |looks| - 1 && looks[i].step == Reissue
        ensures looks[i + 1].atMs <= looks[i].atMs + s.confirmWithinMs
      {
        if i > 0 {
          assert looks[i] == rest[i - 1] && looks[i + 1] == rest[i];
        } else {
          assert looks[1] == rest[0];
        }
      }
    }
  }

  /** Finitely many looks: each is later than the one before and spends a deadline of its own. */
  lemma {:induction false} PunctualSpends(s: Schedule, w: Watch, now: int, last: nat)
    requires OnSchedule(s, w, now) && LastAttempt(s, last)
    ensures SpendsDeadlines(s, w, now, last, PunctualLooks(s, w, now, last))
    decreases DeadlinesLeft(s, w, now, last)
  {
    hide OnSchedule, NextLookMs, LookAt, DueAtMs, PunctualLooks, DeadlinesLeft, LastAttempt;
    PunctualLook(s, w, now, last);
    PunctualUnfolds(s, w, now, last);
    var next := now + NextLookMs(s, w, now);
    var (look, w') := LookAt(s, w, true, next);
    if look.step != GaveUp {
      PunctualSpends(s, w', next, last);
      var rest := PunctualLooks(s, w', next, last);
      var looks := [look] + rest;
      forall i | 0 <= i < |looks| - 1 ensures looks[i].atMs < looks[i + 1].atMs {
        if i > 0 {
          assert looks[i] == rest[i - 1] && looks[i + 1] == rest[i];
        }
      }
    }
  }

  lemma {:induction false} DueTimesAre(s: Schedule, firstMs: int, from: nat, upTo: nat)
    ensures |DueTimes(s, firstMs, from, upTo)| == Max(upTo + 1 - from, 0)
    ensures forall n :: from <= n <= upTo ==> DueTimes(s, firstMs, from, upTo)[n - from] == firstMs + DueAtMs(s, n)
    decreases upTo - from
  {
    if from <= upTo {
      DueTimesAre(s, firstMs, from + 1, upTo);
    }
  }

  /**
   The owner's numbers, for a close opened at any instant whose valve never reports shut: 33 commands
   after the first, at 5, 10, 20 and 40 seconds and then every minute from 100 to 1780; every command
   answered by a look within ten seconds; the owner told once, at exactly 300 seconds; given up at
   exactly 1800 seconds after 34 commands in all, within 69 looks.
   */
  lemma {:induction false} ProductionRun(cause: Cause, openedMs: int)
    ensures OnSchedule(PRODUCTION, Opened(cause, openedMs), openedMs) && LastAttempt(PRODUCTION, 34)
    ensures var looks := PunctualLooks(PRODUCTION, Opened(cause, openedMs), openedMs, 34);
      var sent := CommandsAt(looks);
      && 0 < |looks| <= 69
      && |sent| == 33
      && sent[..4] == [openedMs + 5_000, openedMs + 10_000, openedMs + 20_000, openedMs + 40_000]
      && (forall m :: 4 <= m < 33 ==> sent[m] == openedMs + 40_000 + (m - 3) * 60_000)
      && looks[0].atMs <= openedMs + 10_000
      && (forall i :: 0 <= i < |looks| - 1 ==>
            looks[i].step == Reissue ==> looks[i + 1].atMs <= looks[i].atMs + 10_000)
      && (forall i :: 0 <= i < |looks| ==> (looks[i].toldOwner <==> looks[i].atMs == openedMs + 300_000))
      && (exists i :: 0 <= i < |looks| && looks[i].toldOwner)
      && (forall i :: 0 <= i < |looks| ==> (looks[i].step == GaveUp <==> i == |looks| - 1))
      && Last(looks).atMs == openedMs + 1_800_000
  {
    ProductionHasRoomFor34();
    var w := Opened(cause, openedMs);
    assert DueAtMs(PRODUCTION, 2) == 5_000;
    PunctualSends(PRODUCTION, w, openedMs, 34);
    PunctualTells(PRODUCTION, w, openedMs, 34);
    PunctualAnswers(PRODUCTION, w, openedMs, 34);
    PunctualSpends(PRODUCTION, w, openedMs, 34);
    DueTimesAre(PRODUCTION, openedMs, 2, 34);
    var sent := CommandsAt(PunctualLooks(PRODUCTION, w, openedMs, 34));
    forall m | 0 <= m < 33 ensures sent[m] == openedMs + DueAtMs(PRODUCTION, m + 2) {
      assert sent[(m + 2) - 2] == openedMs + DueAtMs(PRODUCTION, m + 2);
    }
  }

  /** However a caller's looks fall, the production schedule sends at most 34 commands. */
  lemma {:induction false} ProductionNeverExceeds34(cause: Cause, openedMs: int, looks: seq<(int, bool)>)
    ensures WatchAfter(PRODUCTION, Opened(cause, openedMs), looks).attempts <= 34
  {
    ProductionHasRoomFor34();
    AttemptsAreBounded(PRODUCTION, Opened(cause, openedMs), looks, 34);
  }
}
