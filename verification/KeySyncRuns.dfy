/**
 The key cache against the cloud it follows: what a change costs, that one fetch settles it, and how a
 cloud that does not answer is asked. The cloud answers a fetch with 200 and its current signature, or
 with 304 when the hub already holds that signature; replies are not delayed. A pushed set is signed by the
 hub itself, so a push carries a signature of its own.
 */
module KeySyncRuns {
  import opened Prelude
  import opened KeySyncs

  datatype Outcome = Got200 | Got304 | GotNothing

  datatype Event =
    | CloudChanged(sig: string)
    | Reply(signed: bool, nowMs: int)
    | DoorMiss(nowMs: int)
    | Push(sig: string, nowMs: int)
    | Fetch(outcome: Outcome, local: string, nowMs: int)

  /** The hub's cache and the signature the cloud's set has now. */
  datatype World = World(hub: Sync, cloud: string)

  function Next(w: World, e: Event): World {
    match e
    case CloudChanged(sig) => w.(cloud := sig)
    case Reply(signed, nowMs) => w.(hub := ReplySig(w.hub, if signed then Some(w.cloud) else None, nowMs))
    case DoorMiss(nowMs) => w.(hub := DoorMissed(w.hub, nowMs))
    case Push(sig, nowMs) => w.(hub := Pushed(w.hub, sig, nowMs))
    case Fetch(outcome, local, nowMs) =>
      match outcome
      case Got200 => w.(hub := Fetched(w.hub, Some(w.cloud), local, nowMs))
      case Got304 => w.(hub := Confirmed(w.hub, nowMs))
      case GotNothing => w.(hub := FailedOnce(w.hub, nowMs))
  }

  /** A change is to another signature; a fetch is made only when one is due, and 304 only on a match. */
  predicate Legal(w: World, e: Event) {
    match e
    case CloudChanged(sig) => ValidSig(sig) && sig != w.cloud
    case Fetch(outcome, _, nowMs) =>
      DueNow(w.hub, nowMs).Some? && (outcome == Got304 ==> w.hub.applied == Some(w.cloud))
    case _ => true
  }

  function After(w: World, es: seq<Event>): World {
    if es == [] then w else Next(After(w, es[..|es| - 1]), Last(es))
  }

  ghost predicate AllLegal(w: World, es: seq<Event>) {
    forall k :: 0 <= k < |es| ==> Legal(After(w, es[..k]), es[k])
  }

  lemma {:induction false} LegalFront(w: World, es: seq<Event>)
    requires AllLegal(w, es) && es != []
    ensures AllLegal(w, es[..|es| - 1]) && Legal(After(w, es[..|es| - 1]), Last(es))
  {
    var front := es[..|es| - 1];
    forall k | 0 <= k < |front| ensures Legal(After(w, front[..k]), front[k]) {
      assert front[..k] == es[..k];
      assert Legal(After(w, es[..k]), es[k]);
    }
  }

  predicate Succeeds(e: Event) {
    e.Fetch? && e.outcome != GotNothing
  }

  // --- What changes cost -------------------------------------------------------------------------------------

  function Changes(es: seq<Event>): nat {
    if es == [] then 0 else Changes(es[..|es| - 1]) + (if Last(es).CloudChanged? then 1 else 0)
  }

  /** Pushes whose set the hub signs otherwise than the cloud does at that time. */
  function Deviations(w: World, es: seq<Event>): nat {
    if es == [] then 0
    else
      var front := es[..|es| - 1];
      Deviations(w, front) + (if Last(es).Push? && Last(es).sig != After(w, front).cloud then 1 else 0)
  }

  /** Successful fetches made because a reply advertised another signature. */
  function SignatureFetches(w: World, es: seq<Event>): nat {
    if es == [] then 0
    else
      var front, last := es[..|es| - 1], Last(es);
      SignatureFetches(w, front) +
      (if Succeeds(last) && DueNow(After(w, front).hub, last.nowMs) == Some(Signature) then 1 else 0)
  }

  /** The cache may still be made to spend a signature fetch. */
  predicate Behind(w: World) {
    w.hub.want == Some(Signature) || w.hub.applied != Some(w.cloud)
  }

  /**
   From start-up on, whatever else happens, signature fetches never outnumber the changes of the set and the
   pushes signed otherwise than by the cloud; and while the first sync is still owed none has been made.
   */
  lemma {:induction false} FetchesFollowChanges(kept: Option<string>, bootMs: int, cloud: string, es: seq<Event>)
    requires ValidSig(cloud)
    requires AllLegal(World(Booted(kept, bootMs), cloud), es)
    ensures var w := World(Booted(kept, bootMs), cloud);
      var now := After(w, es);
      && ValidSig(now.cloud)
      && SignatureFetches(w, es) <= Changes(es) + Deviations(w, es)
      && (now.hub.want == Some(Boot) ==> SignatureFetches(w, es) == 0)
      && (now.hub.want != Some(Boot) ==> SignatureFetches(w, es) + (if Behind(now) then 1 else 0) <= Changes(es) + Deviations(w, es))
  {
    var w := World(Booted(kept, bootMs), cloud);
    if es != [] {
      LegalFront(w, es);
      FetchesFollowChanges(kept, bootMs, cloud, es[..|es| - 1]);
      hide ValidSig;
    }
  }

  // --- Convergence --------------------------------------------------------------------------------------------

  ghost predicate NoChange(es: seq<Event>) {
    forall k :: 0 <= k < |es| ==> !es[k].CloudChanged?
  }

  /** After a signed reply the cache agrees with the cloud, or a fetch is due as soon as no backoff holds. */
  lemma {:induction false} SignedReplySettlesOrAsks(w: World, nowMs: int, laterMs: int)
    requires ValidSig(w.cloud)
    ensures var hub := Next(w, Reply(true, nowMs)).hub;
      hub.applied == Some(w.cloud) || (laterMs >= hub.retryAtMs ==> DueNow(hub, laterMs).Some?)
  {
  }

  /**
   Once the set has stopped changing, one successful fetch, or one push the hub signs as the cloud does, makes
   the held signature the cloud's for good, and no reply makes a signature fetch due again - as long as no
   later push is signed otherwise.
   */
  lemma {:induction false} OneFetchConverges(w: World, es: seq<Event>, k: nat)
    requires ValidSig(w.cloud) && NoChange(es) && AllLegal(w, es)
    requires k < |es| && (Succeeds(es[k]) || es[k].Push?)
    requires forall i :: k <= i < |es| && es[i].Push? ==> es[i].sig == w.cloud
    ensures After(w, es).cloud == w.cloud && !Behind(After(w, es))
  {
    var front := es[..|es| - 1];
    LegalFront(w, es);
    CloudStays(w, front);
    hide ValidSig;
    if k < |front| {
      OneFetchConverges(w, front, k);
    }
  }

  lemma {:induction false} CloudStays(w: World, es: seq<Event>)
    requires NoChange(es)
    ensures After(w, es).cloud == w.cloud
  {
    if es != [] {
      CloudStays(w, es[..|es| - 1]);
    }
  }

  /** A push signed otherwise leaves the cache behind; the cloud's next signed reply makes a fetch due. */
  lemma {:induction false} DeviatingPushIsRepaired(w: World, sig: string, nowMs: int, replyMs: int, laterMs: int)
    requires ValidSig(w.cloud) && sig != w.cloud && laterMs >= 0
    ensures var pushed := Next(w, Push(sig, nowMs));
      Behind(pushed) && DueNow(Next(pushed, Reply(true, replyMs)).hub, laterMs) == Some(Signature)
  {
    hide ValidSig;
  }

  /** The daily refresh is announced, never stored: no run from start-up ever leaves it as the want. */
  lemma {:induction false} SafetyIsNeverWanted(kept: Option<string>, bootMs: int, cloud: string, es: seq<Event>)
    ensures After(World(Booted(kept, bootMs), cloud), es).hub.want != Some(Safety)
  {
    if es != [] {
      SafetyIsNeverWanted(kept, bootMs, cloud, es[..|es| - 1]);
    }
  }

  /** The cache agrees with the cloud and wants nothing. */
  predicate Settled(w: World) {
    w.hub.applied == Some(w.cloud) && w.hub.want.None?
  }

  /** The instant of the last signed reply, or `since` if there was none. */
  function LastSigned(es: seq<Event>, since: int): int {
    if es == [] then since
    else if Last(es).Reply? && Last(es).signed then Last(es).nowMs
    else LastSigned(es[..|es| - 1], since)
  }

  /**
   A settled cache stays settled while the set does not change and the door does not ring, and spends
   no request at all while signed replies come less than a day apart: at every instant within a day of
   the last one nothing is due.
   */
  lemma {:induction false} SettledStaysQuiet(w: World, es: seq<Event>, nowMs: int)
    requires ValidSig(w.cloud) && Settled(w)
    requires forall k :: 0 <= k < |es| ==> es[k].Reply?
    ensures var end := After(w, es);
      && end.cloud == w.cloud
      && Settled(end)
      && end.hub.lastOkMs == LastSigned(es, w.hub.lastOkMs)
      && (nowMs - LastSigned(es, w.hub.lastOkMs) < SAFETY_REFRESH_MS ==> DueNow(end.hub, nowMs).None?)
  {
    hide ValidSig;
    if es != [] {
      SettledStaysQuiet(w, es[..|es| - 1], nowMs);
    }
  }

  /** A signature is 64 of the characters 0 to 9 and a to f. */
  lemma ValidSigIs(s: string)
    ensures ValidSig(s) <==> |s| == 64 && forall i :: 0 <= i < |s| ==> s[i] in "0123456789abcdef"
  {
    var hex := "0123456789abcdef";
    forall c: char ensures c in hex <==> '0' <= c <= '9' || 'a' <= c <= 'f' {
      if '0' <= c <= '9' { assert hex[c as int - '0' as int] == c; }
      if 'a' <= c <= 'f' { assert hex[10 + (c as int - 'a' as int)] == c; }
    }
  }

  /** At start-up: the signature kept, if it is one; a sync due from the first instant of the clock; no failure, no door yet. */
  lemma {:induction false} StartsUp(kept: Option<string>, bootMs: int, nowMs: int)
    ensures var k := Booted(kept, bootMs);
      && k.applied == (if kept.Some? && ValidSig(kept.value) then kept else None)
      && DueNow(k, nowMs) == (if nowMs >= 0 then Some(Boot) else None)
      && FailedOnce(k, nowMs).retryAtMs == nowMs + 60_000
      && DoorRings(k, nowMs)
      && k.wantSig.None? && k.lastOkMs == bootMs
  {
  }

  /** An equal signature restarts the daily clock and cancels no fetch wanted for another reason; a malformed one does nothing. */
  lemma EqualReplyIsProof(k: Sync, sig: string, nowMs: int)
    ensures ValidSig(sig) && k.applied == Some(sig) ==>
              ReplySig(k, Some(sig), nowMs) == k.(lastOkMs := nowMs, want := if k.want == Some(Safety) then None else k.want)
    ensures !ValidSig(sig) ==> ReplySig(k, Some(sig), nowMs) == k
    ensures ReplySig(k, None, nowMs) == k
  {
    hide ValidSig;
  }

  /** What a fetched set is held under: a well-formed ETag; without one, what the last reply advertised; without that, our own. */
  lemma FetchAdopts(k: Sync, etag: Option<string>, local: string, nowMs: int)
    ensures var held := Fetched(k, etag, local, nowMs).applied;
      && (etag.Some? && ValidSig(etag.value) ==> held == etag)
      && (!(etag.Some? && ValidSig(etag.value)) && k.wantSig.Some? ==> held == k.wantSig)
      && (!(etag.Some? && ValidSig(etag.value)) && k.wantSig.None? ==> held == Some(local))
  {
    hide ValidSig;
  }

  /** The signature a reply advertised is remembered until a fetch, a confirmation or a push. */
  lemma AdvertisedIsRemembered(k: Sync, sig: string, nowMs: int)
    requires ValidSig(sig) && k.applied != Some(sig)
    ensures ReplySig(k, Some(sig), nowMs)
         == k.(wantSig := Some(sig), want := if k.want.Some? then k.want else Some(Signature))
    ensures Confirmed(k, nowMs).wantSig.None? && Pushed(k, sig, nowMs).wantSig.None?
  {
    hide ValidSig;
  }

  /** A confirmation, a fetch or a push starts every clock again: a day of quiet, and a minute's wait after a failure. */
  lemma {:induction false} SuccessStartsAfresh(k: Sync, nowMs: int, laterMs: int, etag: Option<string>, local: string, sig: string)
    ensures forall s :: s in {Confirmed(k, nowMs), Pushed(k, sig, nowMs), Fetched(k, etag, local, nowMs)} ==>
      && s.want.None? && s.lastOkMs == nowMs && s.retryAtMs == 0 && s.lastDoorMs == k.lastDoorMs
      && FailedOnce(s, laterMs).retryAtMs == laterMs + 60_000
    ensures Confirmed(k, nowMs).applied == k.applied && Pushed(k, sig, nowMs).applied == Some(sig)
  {
    hide ValidSig;
  }

  /**
   A door miss asks for a fetch, a minute or more after the last one that rang, unless one is asked for anyway;
   and it rings once in that minute.
   */
  lemma DoorMissAsks(k: Sync, nowMs: int, laterMs: int)
    requires nowMs > 0 && (k.lastDoorMs == 0 || nowMs - k.lastDoorMs >= 60_000)
    ensures var rung := DoorMissed(k, nowMs);
      && rung == k.(lastDoorMs := nowMs, want := if k.want.Some? then k.want else Some(Reason.DoorMiss))
      && (laterMs >= k.retryAtMs ==> DueNow(rung, laterMs) == (if k.want.Some? then k.want else Some(Reason.DoorMiss)))
      && (DoorMissed(rung, laterMs) == rung || laterMs - nowMs >= 60_000)
      && (DoorRings(rung, laterMs) <==> laterMs - nowMs >= 60_000)
  {
  }

  lemma DoorMissTooSoon(k: Sync, nowMs: int)
    requires k.lastDoorMs != 0 && nowMs - k.lastDoorMs < 60_000
    ensures DoorMissed(k, nowMs) == k && !DoorRings(k, nowMs)
  {
  }

  /** A cache that wants nothing asks for the daily refresh exactly a day after its last proof, after any backoff. */
  lemma ADayOfSilenceAsks(k: Sync, nowMs: int)
    requires k.want.None?
    ensures DueNow(k, nowMs) == if nowMs >= k.retryAtMs && nowMs >= k.lastOkMs + 86_400_000 then Some(Safety) else None
  {
  }

  /** What the cache wants is due as soon as no backoff holds, and not before. */
  lemma WantsAreDueAfterTheBackoff(k: Sync, nowMs: int)
    requires k.want.Some?
    ensures DueNow(k, nowMs) == if nowMs >= k.retryAtMs then k.want else None
  {
  }

  // --- A cloud that does not answer -----------------------------------------------------------------------------

  /** The instants of the failed fetches of a run. */
  function FailedAt(es: seq<Event>): seq<int> {
    if es == [] then []
    else FailedAt(es[..|es| - 1]) + (if Last(es).Fetch? && Last(es).outcome == GotNothing then [Last(es).nowMs] else [])
  }

  /** Neither a success nor a push ends the failing. */
  ghost predicate OnlyFailures(es: seq<Event>) {
    forall k :: 0 <= k < |es| ==> !Succeeds(es[k]) && !es[k].Push?
  }

  lemma {:induction false} Pow2Grows(a: nat, b: nat)
    requires a <= b
    ensures Pow2(a) <= Pow2(b)
    decreases b
  {
    if a < b {
      Pow2Grows(a, b - 1);
    }
  }

  /** The backoff doubles from a minute and settles at half an hour from the sixth failure on. */
  lemma BackoffValues(n: nat)
    requires n >= 1
    ensures n == 1 ==> BackoffSecs(n) == 60
    ensures n == 2 ==> BackoffSecs(n) == 120
    ensures n == 3 ==> BackoffSecs(n) == 240
    ensures n == 4 ==> BackoffSecs(n) == 480
    ensures n == 5 ==> BackoffSecs(n) == 960
    ensures n >= 6 ==> BackoffSecs(n) == 1800
  {
    assert Pow2(2) == 4 && Pow2(3) == 8 && Pow2(4) == 16 && Pow2(5) == 32;
    if n >= 6 {
      Pow2Grows(5, Min(n - 1, 20));
    }
  }

  /** Seconds that at least pass from the first to the last of `n` failures in a row. */
  function SpanSecs(n: nat): nat {
    if n <= 1 then 0 else SpanSecs(n - 1) + BackoffSecs(n - 1)
  }

  lemma {:induction false} SpanIsLong(n: nat)
    ensures SpanSecs(n) >= 1800 * (n - 5)
  {
    if n >= 6 {
      SpanIsLong(n - 1);
      BackoffValues(n - 1);
      if n == 6 {
        BackoffValues(1);
        BackoffValues(2);
        BackoffValues(3);
        BackoffValues(4);
        BackoffValues(5);
        assert SpanSecs(2) == 60 && SpanSecs(3) == 180 && SpanSecs(4) == 420 && SpanSecs(5) == 900;
      }
    }
  }

  /** A longer run of failures never waits less. */
  lemma BackoffGrows(a: nat, b: nat)
    requires 1 <= a <= b
    ensures BackoffSecs(a) <= BackoffSecs(b)
  {
    Pow2Grows(Min(a - 1, 20), Min(b - 1, 20));
  }

  /**
   While nothing lands, the held signature is untouched, and each attempt waits out the backoff of the
   one before: `n` attempts span at least the sum of `n - 1` backoffs, whatever replies, door rings and
   set changes come between, and whatever the clock does.
   */
  lemma {:induction false} FailuresBackOff(w: World, es: seq<Event>)
    requires AllLegal(w, es) && OnlyFailures(es)
    ensures var end, tries := After(w, es).hub, FailedAt(es);
      && end.applied == w.hub.applied
      && (tries != [] ==>
            && end.fails >= Min(|tries|, U32_MAX)
            && end.fails >= 1
            && end.retryAtMs == Last(tries) + BackoffSecs(end.fails) * 1000
            && Last(tries) - tries[0] >= 1000 * SpanSecs(|tries|))
  {
    if es != [] {
      var front, last := es[..|es| - 1], Last(es);
      LegalFront(w, es);
      hide ValidSig, BackoffSecs, Checked, SpanSecs, DueNow, AllLegal, OnlyFailures;
      OnlyFailuresFront(es);
      FailuresBackOff(w, front);
      if last.Fetch? {
        SpanStep(|FailedAt(front)|);
        var was, tries := After(w, front).hub, FailedAt(front);
        assert FailedAt(es) == tries + [last.nowMs];
        DueAfterRetry(was, last.nowMs);
        if tries != [] { WaitedOut(was.fails, |tries|); }
      }
    }
  }

  /** The failures in a row are counted one by one, up to the counter's end. */
  lemma {:induction false} FailuresAreCounted(w: World, es: seq<Event>)
    requires OnlyFailures(es) && w.hub.fails <= U32_MAX
    ensures After(w, es).hub.fails == Min(w.hub.fails + |FailedAt(es)|, U32_MAX)
    ensures FailedAt(es) != [] ==>
              After(w, es).hub.retryAtMs == Last(FailedAt(es)) + BackoffSecs(After(w, es).hub.fails) * 1000
  {
    hide ValidSig, BackoffSecs, Checked, DueNow;
    if es != [] {
      OnlyFailuresFront(es);
      FailuresAreCounted(w, es[..|es| - 1]);
    }
  }

  lemma OnlyFailuresFront(es: seq<Event>)
    requires es != [] && OnlyFailures(es)
    ensures OnlyFailures(es[..|es| - 1]) && !Succeeds(Last(es)) && !Last(es).Push?
  {
  }

  lemma SpanStep(n: nat)
    ensures SpanSecs(n + 1) == if n == 0 then 0 else SpanSecs(n) + BackoffSecs(n)
  {
  }

  lemma DueAfterRetry(hub: Sync, nowMs: int)
    requires DueNow(hub, nowMs).Some?
    ensures nowMs >= hub.retryAtMs
  {
  }

  /** The failure count may stop at its 32-bit ceiling; the wait has long reached its own by then. */
  lemma {:induction false} WaitedOut(fails: nat, n: nat)
    requires n >= 1 && fails >= 1 && fails >= Min(n, U32_MAX)
    ensures BackoffSecs(fails) >= BackoffSecs(n)
  {
    if fails >= n {
      BackoffGrows(n, fails);
    } else {
      BackoffValues(fails);
      BackoffValues(n);
    }
  }

  /** In any stretch of `T` seconds in which nothing lands there are at most `5 + T / 1800` attempts. */
  lemma {:induction false} OutageCost(w: World, es: seq<Event>)
    requires AllLegal(w, es) && OnlyFailures(es) && FailedAt(es) != []
    ensures var tries := FailedAt(es);
      |tries| as real <= 5.0 + ((Last(tries) - tries[0]) as real / 1000.0) / 1800.0
  {
    FailuresBackOff(w, es);
    SpanIsLong(|FailedAt(es)|);
  }
}
