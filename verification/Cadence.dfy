/**
 When the hub reports: the anchor-watch heartbeat clock, the change gate with direction hysteresis, the
 alarm line with its band, and the reading gate made of them.
 */
module Cadence {
  import opened Prelude

  // --- The heartbeat clock ---------------------------------------------------------------------------------------

  const RETRY_SECS: int := 30
  const RETRY_MAX_SECS: int := 60

  datatype Beat = Beat(sentSig: nat, failures: nat, failedAtMs: int, retryAtMs: int)

  const FRESH: Beat := Beat(0, 0, 0, 0)

  predicate BeatDue(b: Beat, sig: nat, lastOkMs: int, nowMs: int, intervalSecs: nat) {
    if sig != b.sentSig then true
    else if b.failures > 0 && lastOkMs <= b.failedAtMs then nowMs >= b.retryAtMs
    else nowMs - lastOkMs >= intervalSecs * 1000
  }

  /** 30 s after the first failure, 60 s after every later one. */
  function RetrySecs(failures: nat): int {
    if failures <= 1 then RETRY_SECS else RETRY_MAX_SECS
  }

  function BeatFailed(b: Beat, nowMs: int): Beat {
    b.(failures := b.failures + 1, failedAtMs := nowMs, retryAtMs := nowMs + RetrySecs(b.failures + 1) * 1000)
  }

  class HeartbeatClock {
    var sentSig: nat
    var failures: nat
    var failedAtMs: int
    var retryAtMs: int

    function State(): Beat
      reads this
    {
      Beat(sentSig, failures, failedAtMs, retryAtMs)
    }

    constructor ()
      ensures State() == FRESH
    {
      sentSig, failures, failedAtMs, retryAtMs := 0, 0, 0, 0;
    }

    method Due(sig: nat, lastOkMs: int, nowMs: int, intervalSecs: nat) returns (due: bool)
      ensures due == BeatDue(State(), sig, lastOkMs, nowMs, intervalSecs)
    {
      if sig != sentSig {
        return true;
      }
      if failures > 0 && lastOkMs <= failedAtMs {
        return nowMs >= retryAtMs;
      }
      return nowMs - lastOkMs >= intervalSecs * 1000;
    }

    method Delivered(sig: nat)
      modifies this
      ensures State() == old(State()).(sentSig := sig, failures := 0)
    {
      sentSig, failures := sig, 0;
    }

    method Failed(nowMs: int)
      modifies this
      ensures State() == BeatFailed(old(State()), nowMs)
    {
      failures := failures + 1;
      var backoff := RETRY_SECS;
      var doublings := Min(failures - 1, 4);
      for i := 0 to doublings
        invariant i == 0 ==> backoff == RETRY_SECS
        invariant i > 0 ==> backoff >= RETRY_MAX_SECS
      {
        backoff := 2 * backoff;
      }
      failedAtMs := nowMs;
      retryAtMs := nowMs + Min(backoff, RETRY_MAX_SECS) * 1000;
    }

    method Reset()
      modifies this
      ensures State() == FRESH
    {
      sentSig, failures, failedAtMs, retryAtMs := 0, 0, 0, 0;
    }
  }

  // --- The change gate ------------------------------------------------------------------------------------------------

  const SLACK: real := 0.000000001

  datatype Gate = Gate(last: Option<real>, dir: int)

  function Direction(d: real): int {
    if d > 0.0 then 1 else if d < 0.0 then -1 else 0
  }

  /** What a move of `d` from the last sent value must reach: half as much again when it turns back. */
  function Needed(g: Gate, d: real, threshold: real): real {
    if g.dir != 0 && d != 0.0 && Direction(d) != g.dir then threshold * 1.5 else threshold
  }

  predicate Triggers(g: Gate, v: real, threshold: real) {
    g.last.Some? && RAbs(v - g.last.value) + SLACK >= Needed(g, v - g.last.value, threshold)
  }

  function Marked(g: Gate, v: real): Gate {
    Gate(Some(v), if g.last.Some? && v != g.last.value then Direction(v - g.last.value) else g.dir)
  }

  class DeltaGate {
    var last: Option<real>
    var dir: int

    function State(): Gate
      reads this
    {
      Gate(last, dir)
    }

    constructor ()
      ensures State() == Gate(None, 0)
    {
      last, dir := None, 0;
    }

    method Exceeds(v: real, threshold: real) returns (over: bool)
      ensures over == Triggers(State(), v, threshold)
    {
      if last.None? {
        return false;
      }
      var d := v - last.value;
      var way := Direction(d);
      var need := if dir != 0 && way != 0 && way != dir then threshold * 1.5 else threshold;
      return RAbs(d) + SLACK >= need;
    }

    method MarkSent(v: real)
      modifies this
      ensures State() == Marked(old(State()), v)
    {
      if last.Some? {
        var d := v - last.value;
        if d != 0.0 {
          dir := if d > 0.0 then 1 else -1;
        }
      }
      last := Some(v);
    }
  }

  // --- The alarm line ------------------------------------------------------------------------------------------------

  datatype Line = Line(at: real, belowIsBad: bool)

  /** How far a value is on the good side of the line. */
  function Margin(line: Line, v: real): real {
    if line.belowIsBad then v - line.at else line.at - v
  }

  /** Beyond as soon as the line is crossed; back only once clear of it by the band. */
  predicate Beyond(was: Option<bool>, line: Line, v: real, band: real) {
    Margin(line, v) < if was == Some(true) then band else 0.0
  }

  predicate Flips(was: Option<bool>, now: bool) {
    if was.Some? then was.value != now else now
  }

  method LineStep(beyond: Option<bool>, line: Line, v: real, band: real) returns (after: Option<bool>, changed: bool)
    ensures after == Some(Beyond(beyond, line, v, band))
    ensures changed == Flips(beyond, Beyond(beyond, line, v, band))
  {
    var now: bool;
    if beyond == Some(true) {
      now := if line.belowIsBad then v < line.at + band else v > line.at - band;
    } else {
      now := if line.belowIsBad then v < line.at else v > line.at;
    }
    changed := if beyond.Some? then beyond.value != now else now;
    after := Some(now);
  }

  // --- The reading gate -----------------------------------------------------------------------------------------------

  datatype Kind = BatteryBank | ShoreAc | Temperature | Humidity | Other

  /** The kinds judged by two alarm lines and a change gate. */
  predicate TwoLined(kind: Kind) {
    kind == Temperature || kind == BatteryBank
  }

  const BATTERY_DELTA_V: real := 0.2
  const BATTERY_LOW_V: real := 12.2
  const BATTERY_LOWER_V: real := 11.8
  const BATTERY_24V_ABOVE: real := 18.0
  const SHORE_LOST_BELOW_V: real := 90.0
  const SHORE_RESTORED_AT_V: real := 100.0
  const TEMP_DELTA_C: real := 1.0
  const FREEZE: Line := Line(2.0, true)
  const HEAT: Line := Line(45.0, false)
  const RH_DELTA: real := 5.0

  datatype Reading = Reading(delta: Gate, first: Option<bool>, second: Option<bool>, shore: Option<bool>)

  /** Two lines and the change gate; the very first observation reports only a line already crossed. */
  function TwoLines(r: Reading, a: Line, b: Line, v: real, band: real): Reading {
    r.(first := Some(Beyond(r.first, a, v, band)), second := Some(Beyond(r.second, b, v, band)))
  }

  predicate TwoLinesReport(r: Reading, a: Line, b: Line, v: real, band: real, delta: real) {
    || ((Flips(r.first, Beyond(r.first, a, v, band)) || Flips(r.second, Beyond(r.second, b, v, band)))
        && (r.delta.last.None? ==> Beyond(r.first, a, v, band) || Beyond(r.second, b, v, band)))
    || Triggers(r.delta, v, delta)
  }

  function BankScale(v: real): real {
    if v > BATTERY_24V_ABOVE then 2.0 else 1.0
  }

  /** Lost below 90 V, back at 100 V, unmoved between. */
  function ShoreAfter(shore: Option<bool>, v: real): Option<bool> {
    if v < SHORE_LOST_BELOW_V then Some(false)
    else if v >= SHORE_RESTORED_AT_V then Some(true)
    else shore
  }

  predicate ShoreReports(shore: Option<bool>, v: real) {
    ShoreAfter(shore, v) != shore && (shore.None? ==> ShoreAfter(shore, v) == Some(false))
  }

  function Observed(r: Reading, kind: Kind, v: real): Reading {
    match kind
    case BatteryBank =>
      TwoLines(r, Line(BATTERY_LOW_V * BankScale(v), true), Line(BATTERY_LOWER_V * BankScale(v), true), v,
               BATTERY_DELTA_V * BankScale(v) / 2.0)
    case ShoreAc => r.(shore := ShoreAfter(r.shore, v))
    case Temperature => TwoLines(r, FREEZE, HEAT, v, TEMP_DELTA_C / 2.0)
    case Humidity => r
    case Other => r
  }

  predicate Reports(r: Reading, kind: Kind, v: real) {
    match kind
    case BatteryBank =>
      TwoLinesReport(r, Line(BATTERY_LOW_V * BankScale(v), true), Line(BATTERY_LOWER_V * BankScale(v), true), v,
                     BATTERY_DELTA_V * BankScale(v) / 2.0, BATTERY_DELTA_V * BankScale(v))
    case ShoreAc => ShoreReports(r.shore, v)
    case Temperature => TwoLinesReport(r, FREEZE, HEAT, v, TEMP_DELTA_C / 2.0, TEMP_DELTA_C)
    case Humidity => Triggers(r.delta, v, RH_DELTA)
    case Other => false
  }

  class ReadingGate {
    const delta: DeltaGate
    var first: Option<bool>
    var second: Option<bool>
    var shore: Option<bool>

    function State(): Reading
      reads this, delta
    {
      Reading(delta.State(), first, second, shore)
    }

    constructor ()
      ensures fresh(delta)
      ensures State() == Reading(Gate(None, 0), None, None, None)
    {
      delta := new DeltaGate();
      first, second, shore := None, None, None;
    }

    method StepLines(a: Line, b: Line, v: real, band: real, threshold: real) returns (report: bool)
        modifies this`first, this`second
      ensures State() == TwoLines(old(State()), a, b, v, band)
      ensures report == TwoLinesReport(old(State()), a, b, v, band, threshold)
    {
      var baseline := delta.last.None?;
      var crossedA, crossedB;
      first, crossedA := LineStep(first, a, v, band);
      second, crossedB := LineStep(second, b, v, band);
      var over := delta.Exceeds(v, threshold);
      return ((crossedA || crossedB) && !(baseline && first != Some(true) && second != Some(true))) || over;
    }

    /** Take a reading; true if it is to be sent now. Lines and shore move on every reading, the gate only when sent. */
    method Observe(kind: Kind, v: real) returns (report: bool)
      modifies this
      ensures State() == Observed(old(State()), kind, v)
      ensures report == Reports(old(State()), kind, v)
    {
      match kind {
        case BatteryBank =>
          var scale := if v > BATTERY_24V_ABOVE then 2.0 else 1.0;
          var threshold := BATTERY_DELTA_V * scale;
          report := StepLines(Line(BATTERY_LOW_V * scale, true), Line(BATTERY_LOWER_V * scale, true), v,
                              threshold / 2.0, threshold);
        case ShoreAc =>
          var next := if v < SHORE_LOST_BELOW_V then Some(false)
                      else if v >= SHORE_RESTORED_AT_V then Some(true)
                      else shore;
          report := if next.None? then false
                    else if shore.Some? then shore.value != next.value
                    else !next.value;
          shore := if next.Some? then next else shore;
        case Temperature =>
          report := StepLines(FREEZE, HEAT, v, TEMP_DELTA_C / 2.0, TEMP_DELTA_C);
        case Humidity =>
          report := delta.Exceeds(v, RH_DELTA);
        case Other =>
          report := false;
      }
    }

    method MarkSent(v: real)
      modifies delta
      ensures State() == old(State()).(delta := Marked(old(State()).delta, v))
    {
      delta.MarkSent(v);
    }
  }
}
