/**
 One life of the relay socket: frames in, two timers, and two rules for telling a dead peer. Text is proof
 that something answers; only an echo of the nonce last sent is proof that the object behind it runs.
 */
module Relay {
  import opened Prelude

  const SILENCE_LIMIT_MS: int := 35 * 1000
  const NONCE_DEFAULT_SECS: nat := 900
  const NONCE_MIN_SECS: nat := 60
  const NONCE_MAX_SECS: nat := 3600
  const NONCE_MISSES: nat := 3

  /** `written` says whether the answer the frame calls for could be written. */
  datatype Frame =
    | Pong(n: Option<string>)
    | OtherText
    | Asked(written: bool)
    | ControlPing(written: bool)
    | ControlOther
    | CloseFrame

  datatype Event =
    | Dropped
    | Received(frame: Frame)
    | StreamEnded
    | StreamFailed
    | PingTick(written: bool)
    | NonceTick(live: nat, nonce: string, written: bool)

  datatype Timed = At(ms: int, event: Event)

  datatype Ending = Clean | WentSilent | ObjectWentSilent | Broken

  datatype Link = Link(
    lastSeen: int, pending: Option<string>, echoed: bool, lastEcho: int, setting: nat, ending: Option<Ending>)

  function Opened(ms: int, setting: nat): Link {
    Link(ms, None, false, ms, setting, None)
  }

  /** The cadence a setting stands for; 0 is none chosen. */
  function NoncePingEvery(setting: nat): (secs: nat)
    ensures 60 <= secs <= 3600
    ensures 60 <= setting <= 3600 ==> secs == setting
    ensures setting == 0 ==> secs == 900
    ensures 0 < setting < 60 ==> secs == 60
    ensures setting > 3600 ==> secs == 3600
  {
    if setting == 0 then NONCE_DEFAULT_SECS
    else if setting < NONCE_MIN_SECS then NONCE_MIN_SECS
    else if setting > NONCE_MAX_SECS then NONCE_MAX_SECS
    else setting
  }

  function NonceSilenceLimitMs(setting: nat): int {
    NoncePingEvery(setting) * NONCE_MISSES * 1000
  }

  predicate IsText(frame: Frame) {
    frame.Pong? || frame.OtherText? || frame.Asked?
  }

  function Take(l: Link, frame: Frame, ms: int): Link {
    var seen := if IsText(frame) then l.(lastSeen := ms) else l;
    match frame
    case Pong(n) =>
      if n.Some? && n == l.pending then seen.(echoed := true, lastEcho := ms, pending := None) else seen
    case Asked(written) => if written then seen else seen.(ending := Some(Broken))
    case ControlPing(written) => if written then seen else seen.(ending := Some(Broken))
    case CloseFrame => seen.(ending := Some(Clean))
    case _ => seen
  }

  function Step(l: Link, t: Timed): Link {
    if l.ending.Some? then l
    else
      match t.event
      case Dropped => l.(ending := Some(Clean))
      case StreamEnded => l.(ending := Some(Clean))
      case StreamFailed => l.(ending := Some(Broken))
      case Received(frame) => Take(l, frame, t.ms)
      case PingTick(written) =>
        if t.ms - l.lastSeen > SILENCE_LIMIT_MS then l.(ending := Some(WentSilent))
        else if written then l
        else l.(ending := Some(Broken))
      case NonceTick(live, nonce, written) =>
        if l.echoed && t.ms - l.lastEcho > NonceSilenceLimitMs(live) then
          l.(setting := live, ending := Some(ObjectWentSilent))
        else if written then l.(setting := live, pending := Some(nonce))
        else l.(setting := live, ending := Some(Broken))
  }

  function Run(start: Link, ts: seq<Timed>): Link {
    if ts == [] then start else Step(Run(start, ts[..|ts| - 1]), Last(ts))
  }

  lemma {:induction false} EndedStays(start: Link, ts: seq<Timed>, k: nat)
    requires k <= |ts| && Run(start, ts[..k]).ending.Some?
    ensures Run(start, ts) == Run(start, ts[..k])
  {
    if k == |ts| {
      assert ts[..k] == ts;
    } else {
      assert ts[..|ts| - 1][..k] == ts[..k];
      EndedStays(start, ts[..|ts| - 1], k);
    }
  }

  /** Serve a socket through what happens to it, until it ends. */
  method ServeOnce(openedMs: int, setting: nat, ts: seq<Timed>) returns (link: Link)
    ensures link == Run(Opened(openedMs, setting), ts)
  {
    var lastSeen, lastNonceEcho, nonceSecs := openedMs, openedMs, setting;
    var pending: Option<string> := None;
    var echoed := false;
    var ending: Option<Ending> := None;
    var k := 0;
    while k < |ts| && ending.None?
      invariant k <= |ts|
      invariant Run(Opened(openedMs, setting), ts[..k]) == Link(lastSeen, pending, echoed, lastNonceEcho, nonceSecs, ending)
    {
      var now := ts[k].ms;
      assert ts[..k + 1][..k] == ts[..k] && Last(ts[..k + 1]) == ts[k];
      match ts[k].event {
        case Dropped => ending := Some(Clean);
        case StreamEnded => ending := Some(Clean);
        case StreamFailed => ending := Some(Broken);
        case Received(frame) =>
          match frame {
            case Pong(n) =>
              lastSeen := now;
              if n.Some? && n == pending {
                echoed, lastNonceEcho, pending := true, now, None;
              }
            case OtherText => lastSeen := now;
            case Asked(written) =>
              lastSeen := now;
              if !written { ending := Some(Broken); }
            case ControlPing(written) =>
              if !written { ending := Some(Broken); }
            case ControlOther =>
            case CloseFrame => ending := Some(Clean);
          }
        case PingTick(written) =>
          if now - lastSeen > SILENCE_LIMIT_MS {
            ending := Some(WentSilent);
          } else if !written {
            ending := Some(Broken);
          }
        case NonceTick(live, nonce, written) =>
          if live != nonceSecs {
            nonceSecs := live;
          }
          if echoed && now - lastNonceEcho > NoncePingEvery(nonceSecs) * NONCE_MISSES * 1000 {
            ending := Some(ObjectWentSilent);
          } else if !written {
            ending := Some(Broken);
          } else {
            pending := Some(nonce);
          }
      }
      k := k + 1;
    }
    if ending.Some? {
      EndedStays(Opened(openedMs, setting), ts, k);
    } else {
      assert ts[..k] == ts;
    }
    link := Link(lastSeen, pending, echoed, lastNonceEcho, nonceSecs, ending);
  }
}
