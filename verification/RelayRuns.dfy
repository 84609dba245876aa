/**
 What the relay's liveness rules are worth, told from what came over the socket alone: when a half-open
 link is found, and which peers are never taken for dead.
 */
module RelayRuns {
  import opened Prelude
  import opened Relay

  // --- What came over the socket -----------------------------------------------------------------------------------

  predicate Echoes(t: Timed, nonce: string) {
    t.event == Received(Pong(Some(nonce)))
  }

  /** The nonce sent at `i` is the latest and has not been echoed yet. */
  ghost predicate Awaited(ts: seq<Timed>, i: nat) {
    && i < |ts| && ts[i].event.NonceTick?
    && forall k :: i < k < |ts| ==> !ts[k].event.NonceTick? && !Echoes(ts[k], ts[i].event.nonce)
  }

  /** At `j` the object answers: the first echo of the nonce last sent. */
  ghost predicate EchoAt(ts: seq<Timed>, j: nat) {
    j < |ts| && exists i: nat :: Awaited(ts[..j], i) && Echoes(ts[j], ts[i].event.nonce)
  }

  ghost predicate LastEchoAt(ts: seq<Timed>, j: nat) {
    EchoAt(ts, j) && forall k: nat :: j < k ==> !EchoAt(ts, k)
  }

  lemma EchoesAreInside(ts: seq<Timed>)
    ensures forall j: nat :: EchoAt(ts, j) ==> j < |ts|
    ensures forall i: nat :: Awaited(ts, i) ==> i < |ts|
  {
  }

  lemma AwaitedStep(ts: seq<Timed>, t: Timed, i: nat)
    ensures Awaited(ts + [t], i) <==>
      if i == |ts| then t.event.NonceTick?
      else Awaited(ts, i) && !t.event.NonceTick? && !Echoes(t, ts[i].event.nonce)
  {
    var all := ts + [t];
    assert i < |ts| ==> all[i] == ts[i];
    assert forall k :: i < k < |ts| ==> all[k] == ts[k];
    assert all[|ts|] == t;
  }

  lemma EchoStep(ts: seq<Timed>, t: Timed, j: nat)
    ensures j < |ts| ==> (EchoAt(ts + [t], j) <==> EchoAt(ts, j))
    ensures EchoAt(ts + [t], |ts|) <==> exists i: nat :: Awaited(ts, i) && Echoes(t, ts[i].event.nonce)
  {
    hide Echoes;
    var all := ts + [t];
    assert all[..|ts|] == ts && all[|ts|] == t;
    assert forall i: nat :: Awaited(ts, i) ==> all[i] == ts[i];
    if j < |ts| {
      assert all[..j] == ts[..j] && all[j] == ts[j];
      assert forall i: nat :: Awaited(ts[..j], i) ==> all[i] == ts[i];
    }
  }

  /** The link's memory of the object is what the history says. */
  ghost predicate Remembers(l: Link, ts: seq<Timed>) {
    && (forall i: nat :: Awaited(ts, i) ==> l.pending == Some(ts[i].event.nonce))
    && (l.pending.Some? ==> exists i: nat :: Awaited(ts, i))
    && (l.echoed <==> exists j: nat :: EchoAt(ts, j))
    && (l.echoed ==> exists j: nat :: LastEchoAt(ts, j) && l.lastEcho == ts[j].ms)
  }

  predicate EchoesPending(l: Link, t: Timed) {
    l.pending.Some? && Echoes(t, l.pending.value)
  }

  lemma MemoryStep(l: Link, ts: seq<Timed>, t: Timed)
    requires Remembers(l, ts) && l.ending.None? && Step(l, t).ending.None?
    ensures Remembers(Step(l, t), ts + [t])
  {
    hide EchoAt, Awaited;
    forall i: nat ensures Awaited(ts + [t], i) <==>
      if i == |ts| then t.event.NonceTick? else Awaited(ts, i) && !t.event.NonceTick? && !EchoesPending(l, t)
    { AwaitedStep(ts, t, i); }
    EchoStep(ts, t, |ts|);
    assert EchoAt(ts + [t], |ts|) <==> EchoesPending(l, t);
    forall j: nat | j < |ts| ensures EchoAt(ts + [t], j) <==> EchoAt(ts, j) { EchoStep(ts, t, j); }
    EchoesAreInside(ts);
    EchoesAreInside(ts + [t]);
    assert forall i: nat :: Awaited(ts, i) ==> i < |ts| && (ts + [t])[i] == ts[i];
    MemoryOfPending(l, ts, t);
    MemoryOfEchoes(l, ts, t);
  }

  lemma MemoryOfPending(l: Link, ts: seq<Timed>, t: Timed)
    requires Remembers(l, ts) && l.ending.None? && Step(l, t).ending.None?
    requires forall i: nat :: Awaited(ts + [t], i) <==>
      if i == |ts| then t.event.NonceTick? else Awaited(ts, i) && !t.event.NonceTick? && !EchoesPending(l, t)
    requires forall i: nat :: Awaited(ts, i) ==> i < |ts| && (ts + [t])[i] == ts[i]
    ensures forall i: nat :: Awaited(ts + [t], i) ==> Step(l, t).pending == Some((ts + [t])[i].event.nonce)
    ensures Step(l, t).pending.Some? ==> exists i: nat :: Awaited(ts + [t], i)
  {
    hide EchoAt, Awaited;
    if t.event.NonceTick? {
      assert Awaited(ts + [t], |ts|);
    } else if l.pending.Some? && !EchoesPending(l, t) {
      var i: nat :| Awaited(ts, i);
      assert Awaited(ts + [t], i);
    }
  }

  lemma MemoryOfEchoes(l: Link, ts: seq<Timed>, t: Timed)
    requires Remembers(l, ts) && l.ending.None? && Step(l, t).ending.None?
    requires EchoAt(ts + [t], |ts|) <==> EchoesPending(l, t)
    requires forall j: nat :: EchoAt(ts, j) ==> j < |ts|
    requires forall j: nat :: EchoAt(ts + [t], j) ==> j <= |ts|
    requires forall j: nat :: j < |ts| ==> (EchoAt(ts + [t], j) <==> EchoAt(ts, j))
    ensures var n := Step(l, t);
      && (n.echoed <==> exists j: nat :: EchoAt(ts + [t], j))
      && (n.echoed ==> exists j: nat :: LastEchoAt(ts + [t], j) && n.lastEcho == (ts + [t])[j].ms)
  {
    hide EchoAt, Awaited;
    var all := ts + [t];
    if EchoesPending(l, t) {
      assert LastEchoAt(all, |ts|) && all[|ts|] == t;
    } else if l.echoed {
      var j: nat :| LastEchoAt(ts, j) && l.lastEcho == ts[j].ms;
      assert LastEchoAt(all, j) && all[j] == ts[j];
    }
  }

  lemma {:induction false} MemoryHolds(ms: int, setting: nat, ts: seq<Timed>)
    ensures var l := Run(Opened(ms, setting), ts); l.ending.None? ==> Remembers(l, ts)
  {
    if ts != [] {
      var front := ts[..|ts| - 1];
      MemoryHolds(ms, setting, front);
      assert ts == front + [Last(ts)];
      if Run(Opened(ms, setting), ts).ending.None? {
        MemoryStep(Run(Opened(ms, setting), front), front, Last(ts));
      }
    }
  }

  /** The cadence in force is the one the last nonce tick picked up, or the one the socket opened with. */
  function PickedUp(setting: nat, ts: seq<Timed>): nat {
    if ts == [] then setting
    else if Last(ts).event.NonceTick? then Last(ts).event.live
    else PickedUp(setting, ts[..|ts| - 1])
  }

  lemma {:induction false} CadenceIsPickedUp(ms: int, setting: nat, ts: seq<Timed>)
    requires Run(Opened(ms, setting), ts).ending.None?
    ensures Run(Opened(ms, setting), ts).setting == PickedUp(setting, ts)
  {
    if ts != [] && !Last(ts).event.NonceTick? {
      CadenceIsPickedUp(ms, setting, ts[..|ts| - 1]);
    }
  }

  /**
   At a nonce tick an open link is dropped for a silent object exactly when the object has echoed on this
   socket and its last echo is more than three cadences old - whatever other text, bare pong or control
   frame has come since. A worker that never echoes is never dropped so.
   */
  lemma {:induction false} DroppedIffEchoesStopped(ms: int, setting: nat, ts: seq<Timed>, tick: Timed)
    requires Run(Opened(ms, setting), ts).ending.None? && tick.event.NonceTick?
    ensures Run(Opened(ms, setting), ts + [tick]).ending == Some(ObjectWentSilent)
      <==> exists j: nat :: LastEchoAt(ts, j) && tick.ms - ts[j].ms > 3000 * NoncePingEvery(tick.event.live)
  {
    hide EchoAt, Awaited;
    MemoryHolds(ms, setting, ts);
    assert (ts + [tick])[..|ts|] == ts && Last(ts + [tick]) == tick;
    var l := Run(Opened(ms, setting), ts);
    EchoesAreInside(ts);
    if j: nat :| j < |ts| && LastEchoAt(ts, j) && tick.ms - ts[j].ms > NonceSilenceLimitMs(tick.event.live) {
      var k: nat :| k < |ts| && LastEchoAt(ts, k) && l.lastEcho == ts[k].ms;
      assert j == k;
    }
  }

  // --- How soon a half-open link is found ----------------------------------------------------------------------------

  ghost predicate Ordered(ts: seq<Timed>) {
    forall i, j :: 0 <= i < j < |ts| ==> ts[i].ms <= ts[j].ms
  }

  /** Every nonce tick finds the same cadence set. */
  ghost predicate Cadence(ts: seq<Timed>, secs: nat) {
    forall k :: 0 <= k < |ts| && ts[k].event.NonceTick? ==> NoncePingEvery(ts[k].event.live) == secs
  }

  /** When the nonce timer last ticked; the opening counts as a tick. */
  function TickedAt(ts: seq<Timed>, ms: int): int {
    if ts == [] then ms
    else if Last(ts).event.NonceTick? then Last(ts).ms
    else TickedAt(ts[..|ts| - 1], ms)
  }

  /** The timer is never later than `gapMs` after its last tick. */
  ghost predicate TicksWithin(ts: seq<Timed>, ms: int, gapMs: int) {
    forall k :: 0 <= k < |ts| ==> ts[k].ms <= TickedAt(ts[..k], ms) + gapMs
  }

  lemma {:induction false} FrontKeeps(ts: seq<Timed>, ms: int, gapMs: int, secs: nat)
    requires ts != []
    ensures var front := ts[..|ts| - 1];
      && (Ordered(ts) ==> Ordered(front)) && (Cadence(ts, secs) ==> Cadence(front, secs))
      && (TicksWithin(ts, ms, gapMs) ==> TicksWithin(front, ms, gapMs) && Last(ts).ms <= TickedAt(front, ms) + gapMs)
  {
    var front := ts[..|ts| - 1];
    if TicksWithin(ts, ms, gapMs) {
      forall k | 0 <= k < |front| ensures front[k].ms <= TickedAt(front[..k], ms) + gapMs {
        assert front[..k] == ts[..k] && front[k] == ts[k];
      }
      assert ts[|ts| - 1].ms <= TickedAt(ts[..|ts| - 1], ms) + gapMs;
    }
  }

  lemma EchoesInFront(ts: seq<Timed>, j: nat)
    requires ts != [] && j < |ts| - 1
    ensures EchoAt(ts, j) <==> EchoAt(ts[..|ts| - 1], j)
  {
    EchoStep(ts[..|ts| - 1], Last(ts), j);
    assert ts == ts[..|ts| - 1] + [Last(ts)];
  }

  lemma {:induction false} OpenTicksSawAnEcho(ms: int, setting: nat, ts: seq<Timed>, j: nat, secs: nat)
    requires Run(Opened(ms, setting), ts).ending.None? && Ordered(ts) && Cadence(ts, secs)
    requires j < |ts| && LastEchoAt(ts, j)
    requires forall k :: 0 <= k < |ts| ==> ms <= ts[k].ms
    ensures TickedAt(ts, ms) <= ts[j].ms + NONCE_MISSES * secs * 1000
  {
    hide LastEchoAt, Run, Ordered, Cadence;
    var front := ts[..|ts| - 1];
    if j == |ts| - 1 {
      TicksAreBefore(ts, ms);
    } else {
      LastEchoInFront(ts, j);
      FrontStaysOpen(ms, setting, ts);
      FrontKeeps(ts, ms, 0, secs);
      if Last(ts).event.NonceTick? {
        OpenTickSawAnEcho(ms, setting, ts, j, secs);
      } else {
        OpenTicksSawAnEcho(ms, setting, front, j, secs);
      }
    }
  }

  lemma {:induction false} OpenTickSawAnEcho(ms: int, setting: nat, ts: seq<Timed>, j: nat, secs: nat)
    requires ts != [] && Run(Opened(ms, setting), ts).ending.None? && Cadence(ts, secs)
    requires Run(Opened(ms, setting), ts[..|ts| - 1]).ending.None?
    requires j < |ts| - 1 && LastEchoAt(ts[..|ts| - 1], j) && Last(ts).event.NonceTick?
    ensures Last(ts).ms <= ts[j].ms + NONCE_MISSES * secs * 1000
  {
    hide LastEchoAt, Run, NoncePingEvery;
    var front, last := ts[..|ts| - 1], Last(ts);
    assert ts == front + [last];
    DroppedIffEchoesStopped(ms, setting, front, last);
    assert NoncePingEvery(ts[|ts| - 1].event.live) == secs;
  }

  lemma LastEchoInFront(ts: seq<Timed>, j: nat)
    requires ts != [] && j < |ts| - 1 && LastEchoAt(ts, j)
    ensures LastEchoAt(ts[..|ts| - 1], j) && ts[..|ts| - 1][j] == ts[j]
  {
    hide EchoAt;
    var front := ts[..|ts| - 1];
    EchoesInFront(ts, j);
    forall k: nat | j < k ensures !EchoAt(front, k) {
      if k < |front| { EchoesInFront(ts, k); } else { EchoesAreInside(front); }
    }
  }

  lemma {:induction false} TicksAreBefore(ts: seq<Timed>, ms: int)
    requires Ordered(ts) && (forall k :: 0 <= k < |ts| ==> ms <= ts[k].ms) && ts != []
    ensures TickedAt(ts, ms) <= Last(ts).ms
  {
    var front := ts[..|ts| - 1];
    if front != [] && !Last(ts).event.NonceTick? {
      assert forall i, j :: 0 <= i < j < |front| ==> front[i].ms <= front[j].ms;
      TicksAreBefore(front, ms);
      assert Last(front) == ts[|ts| - 2] && Last(ts) == ts[|ts| - 1];
    }
  }

  /**
   Once the object has echoed, a socket it no longer answers is not held open longer than three cadences
   and one tick, whatever the edge in front of it sends.
   */
  lemma {:induction false} HalfOpenIsFound(ms: int, setting: nat, ts: seq<Timed>, j: nat, secs: nat, gapMs: int)
    requires Run(Opened(ms, setting), ts).ending.None? && Ordered(ts) && Cadence(ts, secs)
    requires TicksWithin(ts, ms, gapMs) && gapMs >= 0
    requires LastEchoAt(ts, j)
    requires forall k :: 0 <= k < |ts| ==> ms <= ts[k].ms
    ensures Last(ts).ms <= ts[j].ms + NONCE_MISSES * secs * 1000 + gapMs
  {
    hide EchoAt, TickedAt;
    EchoesAreInside(ts);
    var front := ts[..|ts| - 1];
    FrontKeeps(ts, ms, gapMs, secs);
    if j < |ts| - 1 {
      LastEchoInFront(ts, j);
      FrontStaysOpen(ms, setting, ts);
      OpenTicksSawAnEcho(ms, setting, front, j, secs);
    }
  }

  lemma {:induction false} FrontStaysOpen(ms: int, setting: nat, ts: seq<Timed>)
    requires ts != [] && Run(Opened(ms, setting), ts).ending.None?
    ensures Run(Opened(ms, setting), ts[..|ts| - 1]).ending.None?
  {
  }

  /** Nonce ticks after position `j`. */
  function TicksSince(ts: seq<Timed>, j: nat): nat {
    if |ts| <= j + 1 then 0
    else TicksSince(ts[..|ts| - 1], j) + (if Last(ts).event.NonceTick? then 1 else 0)
  }

  /**
   After position `j` the nonce timer ticks at one cadence: the first time within a cadence of `j`, and then
   exactly a cadence after the tick before. Frames and ping ticks may fall anywhere.
   */
  predicate OnCadence(ts: seq<Timed>, ms: int, j: nat, secs: nat)
    requires j < |ts|
  {
    |ts| == j + 1 ||
    var front, last := ts[..|ts| - 1], Last(ts);
    && OnCadence(front, ms, j, secs)
    && (last.event.NonceTick? ==>
          if TicksSince(front, j) == 0 then ts[j].ms < last.ms <= ts[j].ms + secs * 1000
          else last.ms == TickedAt(front, ms) + secs * 1000)
  }

  function Cadences(n: int, secs: nat): int {
    n * secs * 1000
  }

  lemma CadencesStep(n: int, secs: nat)
    ensures Cadences(n + 1, secs) == Cadences(n, secs) + secs * 1000
    ensures Cadences(0, secs) == 0
  {
  }

  lemma {:induction false} CadencesGrow(m: int, n: int, secs: nat)
    requires m <= n
    ensures Cadences(m, secs) <= Cadences(n, secs)
    decreases n - m
  {
    if m < n {
      CadencesGrow(m, n - 1, secs);
      CadencesStep(n - 1, secs);
    }
  }

  /** The `n`-th tick since `j` falls in the `n`-th cadence after it. */
  lemma {:induction false} TicksFallInTheirCadence(ts: seq<Timed>, ms: int, j: nat, secs: nat)
    requires j < |ts| && OnCadence(ts, ms, j, secs)
    ensures var n := TicksSince(ts, j);
      n > 0 ==> ts[j].ms + Cadences(n - 1, secs) < TickedAt(ts, ms) <= ts[j].ms + Cadences(n, secs)
  {
    hide Cadences;
    if |ts| > j + 1 {
      var front := ts[..|ts| - 1];
      TicksFallInTheirCadence(front, ms, j, secs);
      var n: int := TicksSince(front, j);
      CadencesStep(n - 1, secs);
      CadencesStep(n, secs);
      CadencesStep(0, secs);
    }
  }

  /**
   Exactly how soon: with the nonce timer ticking at one cadence since the last echo, and whatever frames and
   ping ticks in between, an open link is dropped for a silent object at the fourth nonce tick after that echo,
   and at none before. At the default cadence that is an hour after the tick the echo answered, not the
   forty-five minutes of three cadences.
   */
  lemma {:induction false} FallsAtTheFourthTick(ms: int, setting: nat, ts: seq<Timed>, tick: Timed, j: nat, secs: nat)
    requires Run(Opened(ms, setting), ts).ending.None? && tick.event.NonceTick?
    requires LastEchoAt(ts, j) && j < |ts|
    requires Cadence(ts + [tick], secs) && OnCadence(ts + [tick], ms, j, secs)
    ensures Run(Opened(ms, setting), ts + [tick]).ending == Some(ObjectWentSilent) <==> TicksSince(ts + [tick], j) >= 4
  {
    var all, n := ts + [tick], TicksSince(ts + [tick], j);
    hide EchoAt, Run, Step, OnCadence, Cadences, NoncePingEvery;
    DroppedIffEchoesStopped(ms, setting, ts, tick);
    OnlyLastEcho(ts, j);
    assert all[..|ts|] == ts && Last(all) == all[|ts|] == tick;
    TicksFallInTheirCadence(all, ms, j, secs);
    assert NonceSilenceLimitMs(tick.event.live) == Cadences(3, secs) by { ThreeCadences(secs); }
    if n >= 4 { CadencesGrow(3, n - 1, secs); } else { CadencesGrow(n, 3, secs); }
  }

  lemma ThreeCadences(secs: nat)
    ensures Cadences(3, secs) == NONCE_MISSES * secs * 1000 == secs * NONCE_MISSES * 1000
  {
  }

  lemma OnlyLastEcho(ts: seq<Timed>, j: nat)
    requires LastEchoAt(ts, j)
    ensures forall k: nat :: LastEchoAt(ts, k) ==> k == j
  {
    hide EchoAt;
  }

  /** So no open link has seen more than three nonce ticks since its last echo. */
  lemma {:induction false} OpenLinkSawThreeTicksAtMost(ms: int, setting: nat, ts: seq<Timed>, j: nat, secs: nat)
    requires Run(Opened(ms, setting), ts).ending.None?
    requires LastEchoAt(ts, j) && j < |ts| && Cadence(ts, secs) && OnCadence(ts, ms, j, secs)
    ensures TicksSince(ts, j) <= 3
  {
    hide EchoAt, LastEchoAt, Run, Cadence;
    if |ts| > j + 1 {
      var front := ts[..|ts| - 1];
      FrontStaysOpen(ms, setting, ts);
      LastEchoInFront(ts, j);
      FrontKeeps(ts, ms, 0, secs);
      if Last(ts).event.NonceTick? {
        assert ts == front + [Last(ts)];
        FallsAtTheFourthTick(ms, setting, front, Last(ts), j, secs);
      } else {
        OpenLinkSawThreeTicksAtMost(ms, setting, front, j, secs);
      }
    }
  }

  // --- Who is never taken for dead -----------------------------------------------------------------------------------

  /** Every nonce is echoed before the next one is sent, and ticks come within three of the cadence then set. */
  ghost predicate Diligent(ts: seq<Timed>) {
    forall k :: 0 <= k < |ts| && ts[k].event.NonceTick? ==> AnsweredBefore(ts, k)
  }

  /** Before the tick at `k`, either no tick has been, or the last one was echoed and was not too long ago. */
  ghost predicate AnsweredBefore(ts: seq<Timed>, k: nat)
    requires k < |ts| && ts[k].event.NonceTick?
  {
    forall i: nat :: i < k && ts[i].event.NonceTick? && (forall m :: i < m < k ==> !ts[m].event.NonceTick?) ==>
      && !Awaited(ts[..k], i)
      && ts[k].ms - ts[i].ms <= NonceSilenceLimitMs(ts[k].event.live)
  }

  /** A worker that echoes every nonce in time is never dropped by the nonce rule. */
  lemma {:induction false} DiligentIsNeverDropped(ms: int, setting: nat, ts: seq<Timed>)
    requires Ordered(ts) && Diligent(ts)
    ensures Run(Opened(ms, setting), ts).ending != Some(ObjectWentSilent)
  {
    if ts != [] {
      var front, last := ts[..|ts| - 1], Last(ts);
      assert Diligent(front) by { FrontIsDiligent(ts); }
      DiligentIsNeverDropped(ms, setting, front);
      assert ts == front + [last];
      if Run(Opened(ms, setting), front).ending.None? && last.event.NonceTick? {
        DroppedIffEchoesStopped(ms, setting, front, last);
        if j: nat :| LastEchoAt(front, j) {
          EchoIsRecent(ts, j);
        }
      }
    }
  }

  lemma FrontIsDiligent(ts: seq<Timed>)
    requires ts != [] && Diligent(ts)
    ensures Diligent(ts[..|ts| - 1])
  {
    var front := ts[..|ts| - 1];
    forall k | 0 <= k < |front| && front[k].event.NonceTick? ensures AnsweredBefore(front, k) {
      assert AnsweredBefore(ts, k) && front[..k] == ts[..k];
      assert forall i :: 0 <= i <= k ==> front[i] == ts[i];
    }
  }

  lemma {:induction false} LastTick(ts: seq<Timed>, some: nat) returns (i: nat)
    requires some < |ts| && ts[some].event.NonceTick?
    ensures i < |ts| && ts[i].event.NonceTick? && forall m :: i < m < |ts| ==> !ts[m].event.NonceTick?
  {
    i := |ts| - 1;
    if !Last(ts).event.NonceTick? {
      i := LastTick(ts[..|ts| - 1], some);
    }
  }

  lemma {:induction false} FirstEcho(ts: seq<Timed>, i: nat) returns (m: nat)
    requires i < |ts| && ts[i].event.NonceTick? && !Awaited(ts, i)
    requires forall k :: i < k < |ts| ==> !ts[k].event.NonceTick?
    ensures i < m < |ts| && EchoAt(ts, m)
  {
    var k :| i < k < |ts| && Echoes(ts[k], ts[i].event.nonce);
    var front := ts[..k];
    if Awaited(front, i) {
      m := k;
    } else {
      m := FirstEcho(front, i);
      EchoLooksBack(ts, k, m);
    }
  }

  lemma EchoLooksBack(ts: seq<Timed>, k: nat, m: nat)
    requires m < k <= |ts|
    ensures EchoAt(ts[..k], m) <==> EchoAt(ts, m)
  {
    assert ts[..k][..m] == ts[..m] && ts[..k][m] == ts[m];
  }

  lemma EchoIsRecent(ts: seq<Timed>, j: nat)
    requires ts != [] && Ordered(ts) && Diligent(ts) && Last(ts).event.NonceTick?
    requires LastEchoAt(ts[..|ts| - 1], j)
    ensures Last(ts).ms - ts[j].ms <= NonceSilenceLimitMs(Last(ts).event.live)
  {
    hide EchoAt, Awaited, Diligent, AnsweredBefore, NonceSilenceLimitMs;
    var front := ts[..|ts| - 1];
    var t := EchoedTick(front, j);
    var i := LastTick(front, t);
    LastTickWasAnswered(ts, i);
    var m := FirstEcho(front, i);
    assert i < m <= j;
  }

  lemma LastTickWasAnswered(ts: seq<Timed>, i: nat)
    requires ts != [] && Diligent(ts) && Last(ts).event.NonceTick?
    requires var front := ts[..|ts| - 1];
      i < |front| && front[i].event.NonceTick? && forall m :: i < m < |front| ==> !front[m].event.NonceTick?
    ensures !Awaited(ts[..|ts| - 1], i) && Last(ts).ms - ts[i].ms <= NonceSilenceLimitMs(Last(ts).event.live)
  {
    hide Awaited;
    assert AnsweredBefore(ts, |ts| - 1);
    assert forall m :: i <= m < |ts| - 1 ==> ts[..|ts| - 1][m] == ts[m];
  }

  lemma EchoedTick(ts: seq<Timed>, j: nat) returns (i: nat)
    requires EchoAt(ts, j)
    ensures i < j < |ts| && ts[i].event.NonceTick?
  {
    i :| Awaited(ts[..j], i) && Echoes(ts[j], ts[i].event.nonce);
  }

  // --- Any text at all ---------------------------------------------------------------------------------------------------

  /** When the peer last sent text, or the opening. */
  function LastText(ts: seq<Timed>, ms: int): int {
    if ts == [] then ms
    else if Last(ts).event.Received? && (var frame := Last(ts).event.frame; frame.Pong? || frame.OtherText? || frame.Asked?) then
      Last(ts).ms
    else LastText(ts[..|ts| - 1], ms)
  }

  /** An open link has seen text within 35 s of every ping tick, and is dropped for silence only when it has not. */
  lemma {:induction false} SilentLinkIsDropped(ms: int, setting: nat, ts: seq<Timed>, tick: Timed)
    requires Run(Opened(ms, setting), ts).ending.None? && tick.event.PingTick?
    ensures Run(Opened(ms, setting), ts + [tick]).ending == Some(WentSilent)
      <==> tick.ms - LastText(ts, ms) > 35_000
  {
    assert (ts + [tick])[..|ts|] == ts && Last(ts + [tick]) == tick;
    SeenIsLastText(ms, setting, ts);
  }

  /** What breaks a link whatever the timers say: the answer it calls for could not be written, or the stream failed. */
  predicate Breaks(e: Event) {
    || e.StreamFailed?
    || e == Received(Asked(false)) || e == Received(ControlPing(false))
    || e == PingTick(false) || (e.NonceTick? && !e.written)
  }

  /** What ends a link in good order: the other end, or the cloud's word. */
  predicate Closes(e: Event) {
    e.Dropped? || e.StreamEnded? || e == Received(CloseFrame)
  }

  /**
   Exactly what ends an open link, and how: it closes, one of the two rules finds it silent, or else it breaks.
   Nothing else ends it, and once ended it stays so.
   */
  lemma {:induction false} LinkEndsExactly(ms: int, setting: nat, ts: seq<Timed>, t: Timed)
    requires Run(Opened(ms, setting), ts).ending.None?
    ensures var ending := Run(Opened(ms, setting), ts + [t]).ending;
      var wentSilent := t.event.PingTick? && t.ms - LastText(ts, ms) > 35_000;
      var objectSilent := t.event.NonceTick? &&
        (exists j: nat :: LastEchoAt(ts, j) && t.ms - ts[j].ms > 3000 * NoncePingEvery(t.event.live));
      ending == if Closes(t.event) then Some(Clean)
                else if wentSilent then Some(WentSilent)
                else if objectSilent then Some(ObjectWentSilent)
                else if Breaks(t.event) then Some(Broken)
                else None
  {
    hide EchoAt, Awaited, NoncePingEvery;
    assert (ts + [t])[..|ts|] == ts && Last(ts + [t]) == t;
    if t.event.NonceTick? { DroppedIffEchoesStopped(ms, setting, ts, t); }
    if t.event.PingTick? { SilentLinkIsDropped(ms, setting, ts, t); }
    hide Run, LastEchoAt, LastText;
    assert Run(Opened(ms, setting), ts + [t]) == Step(Run(Opened(ms, setting), ts), t) by { RunOfMore(Opened(ms, setting), ts, t); }
  }

  lemma {:induction false} RunOfMore(start: Link, ts: seq<Timed>, t: Timed)
    ensures Run(start, ts + [t]) == Step(Run(start, ts), t)
  {
    assert (ts + [t])[..|ts|] == ts && Last(ts + [t]) == t;
  }

  lemma {:induction false} SeenIsLastText(ms: int, setting: nat, ts: seq<Timed>)
    ensures var l := Run(Opened(ms, setting), ts); l.ending.None? ==> l.lastSeen == LastText(ts, ms)
  {
    if ts != [] {
      SeenIsLastText(ms, setting, ts[..|ts| - 1]);
    }
  }
}
