/**
 The member-key cache: when the hub spends a request on the cloud's key set, and what it believes it
 holds. Every method of `KeySync` is proved to make the step its function gives.
 */
module KeySyncs {
  import opened Prelude

  const SAFETY_REFRESH_MS := 86_400_000
  const BACKOFF_START_SECS := 60
  const BACKOFF_MAX_SECS := 1800
  const DOOR_MISS_GAP_MS := 60_000

  /** A signature: 64 lowercase hex characters and nothing else. */
  predicate ValidSig(s: string) {
    |s| == 64 && forall i :: 0 <= i < |s| ==> '0' <= s[i] <= '9' || 'a' <= s[i] <= 'f'
  }

  function Checked(s: Option<string>): Option<string> {
    if s.Some? && ValidSig(s.value) then s else None
  }

  datatype Reason = Boot | Signature | DoorMiss | Safety

  datatype Sync = Sync(
    applied: Option<string>,
    want: Option<Reason>,
    wantSig: Option<string>,
    lastOkMs: int,
    fails: nat,
    retryAtMs: int,
    lastDoorMs: int)

  function Booted(applied: Option<string>, nowMs: int): Sync {
    Sync(Checked(applied), Some(Boot), None, nowMs, 0, 0, 0)
  }

  function DueNow(k: Sync, nowMs: int): Option<Reason> {
    if nowMs < k.retryAtMs then None
    else if k.want.Some? then k.want
    else if nowMs - k.lastOkMs >= SAFETY_REFRESH_MS then Some(Safety)
    else None
  }

  function ReplySig(k: Sync, sig: Option<string>, nowMs: int): Sync {
    if Checked(sig).None? then k
    else if k.applied == sig then
      k.(lastOkMs := nowMs, want := if k.want == Some(Safety) then None else k.want)
    else
      k.(wantSig := sig, want := if k.want.None? then Some(Signature) else k.want)
  }

  predicate DoorRings(k: Sync, nowMs: int) {
    !(k.lastDoorMs != 0 && nowMs - k.lastDoorMs < DOOR_MISS_GAP_MS)
  }

  function DoorMissed(k: Sync, nowMs: int): Sync {
    if !DoorRings(k, nowMs) then k
    else k.(lastDoorMs := nowMs, want := if k.want.None? then Some(DoorMiss) else k.want)
  }

  /** The set is confirmed current: nothing is wanted, and every clock starts again. */
  function Confirmed(k: Sync, nowMs: int): Sync {
    k.(want := None, wantSig := None, lastOkMs := nowMs, fails := 0, retryAtMs := 0)
  }

  function Pushed(k: Sync, sig: string, nowMs: int): Sync {
    Confirmed(k, nowMs).(applied := Some(sig))
  }

  /** The signature adopted with a fetched set: the ETag, then the one advertised, then our own. */
  function AdoptedSig(k: Sync, etag: Option<string>, local: string): string {
    if Checked(etag).Some? then etag.value
    else if k.wantSig.Some? then k.wantSig.value
    else local
  }

  function Fetched(k: Sync, etag: Option<string>, local: string, nowMs: int): Sync {
    Confirmed(k, nowMs).(applied := Some(AdoptedSig(k, etag, local)))
  }

  /** Seconds to wait after the `fails`-th failure in a row. */
  function BackoffSecs(fails: nat): nat
    requires fails >= 1
  {
    Min(BACKOFF_START_SECS * Pow2(Min(fails - 1, 20)), BACKOFF_MAX_SECS)
  }

  function FailedOnce(k: Sync, nowMs: int): Sync {
    var fails := Min(k.fails + 1, U32_MAX);
    k.(fails := fails, retryAtMs := nowMs + BackoffSecs(fails) * 1000)
  }

  class KeySync {
    var applied: Option<string>
    var want: Option<Reason>
    var wantSig: Option<string>
    var lastOkMs: int
    var fails: nat
    var retryAtMs: int
    var lastDoorMs: int

    function State(): Sync
      reads this
    {
      Sync(applied, want, wantSig, lastOkMs, fails, retryAtMs, lastDoorMs)
    }

    /** At start-up: whatever signature was kept with the key set, and one sync due. */
    constructor (applied: Option<string>, nowMs: int)
      ensures State() == Booted(applied, nowMs)
    {
      this.applied := Checked(applied);
      want, wantSig := Some(Boot), None;
      lastOkMs, fails, retryAtMs, lastDoorMs := nowMs, 0, 0, 0;
    }

    method Due(nowMs: int) returns (reason: Option<Reason>)
      ensures reason == DueNow(State(), nowMs)
    {
      if nowMs < retryAtMs {
        return None;
      }
      if want.Some? {
        return want;
      }
      reason := if nowMs - lastOkMs >= SAFETY_REFRESH_MS then Some(Safety) else None;
    }

    /** A reply's signature: an equal one is proof, a different one makes a fetch due, none says nothing. */
    method NoteReplySig(sig: Option<string>, nowMs: int)
      modifies this`lastOkMs, this`want, this`wantSig
      ensures State() == ReplySig(old(State()), sig, nowMs)
    {
      if Checked(sig).None? {
        return;
      }
      if applied == sig {
        lastOkMs := nowMs;
        if want == Some(Safety) {
          want := None;
        }
        return;
      }
      wantSig := sig;
      if want.None? {
        want := Some(Signature);
      }
    }

    /** The door met an unknown key; says whether this one rang. */
    method NoteDoorMiss(nowMs: int) returns (rang: bool)
      modifies this`lastDoorMs, this`want
      ensures rang == DoorRings(old(State()), nowMs)
      ensures State() == DoorMissed(old(State()), nowMs)
    {
      if lastDoorMs != 0 && nowMs - lastDoorMs < DOOR_MISS_GAP_MS {
        return false;
      }
      lastDoorMs := nowMs;
      if want.None? {
        want := Some(DoorMiss);
      }
      rang := true;
    }

    /** The cloud pushed a set: it is the current one. */
    method NotePushed(sig: string, nowMs: int) returns (held: string)
      modifies this
      ensures held == sig && State() == Pushed(old(State()), sig, nowMs)
    {
      applied := Some(sig);
      want, wantSig, lastOkMs, fails, retryAtMs := None, None, nowMs, 0, 0;
      held := sig;
    }

    /** A fetch returned a set. */
    method AppliedSet(etag: Option<string>, local: string, nowMs: int) returns (held: string)
      modifies this
      ensures held == AdoptedSig(old(State()), etag, local)
      ensures State() == Fetched(old(State()), etag, local, nowMs)
    {
      if Checked(etag).Some? {
        held := etag.value;
      } else if wantSig.Some? {
        held := wantSig.value;
      } else {
        held := local;
      }
      applied := Some(held);
      want, wantSig, lastOkMs, fails, retryAtMs := None, None, nowMs, 0, 0;
    }

    /** A conditional fetch found the held set current. */
    method NotModified(nowMs: int)
      modifies this
      ensures State() == Confirmed(old(State()), nowMs)
    {
      want, wantSig, lastOkMs, fails, retryAtMs := None, None, nowMs, 0, 0;
    }

    /** A fetch failed: the set is untouched and the next attempt is pushed out. */
    method Failed(nowMs: int) returns (waitSecs: nat)
      modifies this`fails, this`retryAtMs
      ensures State() == FailedOnce(old(State()), nowMs)
      ensures waitSecs == BackoffSecs(fails)
    {
      fails := Min(fails + 1, U32_MAX);
      waitSecs := Min(BACKOFF_START_SECS * Pow2(Min(fails - 1, 20)), BACKOFF_MAX_SECS);
      retryAtMs := nowMs + waitSecs * 1000;
    }
  }
}
