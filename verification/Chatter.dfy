/**
 No reading chatters: what the change gate, the alarm line and the gates made of them may report is
 bounded by how far the value really moved.
 */
module Chatter {
  import opened Prelude
  import opened Cadence

  // --- The change gate ------------------------------------------------------------------------------------------------

  /** A reading, sent on the spot if the gate says so; or a value marked sent from elsewhere, such as a keyframe. */
  datatype Event = Seen(v: real) | Sent(v: real)

  datatype Run = Run(gate: Gate, current: real, moved: real, jumped: real, sends: nat)

  /** How far the last sent value is from the current one. */
  function Lag(g: Gate, current: real): real {
    if g.last.None? then 0.0 else RAbs(current - g.last.value)
  }

  function Next(r: Run, e: Event, threshold: real): Run {
    match e
    case Seen(v) =>
      var sends := Triggers(r.gate, v, threshold);
      Run(if sends then Marked(r.gate, v) else r.gate, v, r.moved + RAbs(v - r.current), r.jumped, r.sends + (if sends then 1 else 0))
    case Sent(v) => r.(gate := Marked(r.gate, v), jumped := r.jumped + RAbs(v - r.current))
  }

  /** From a current value on: the variation so far, the total distance of the marks from the value of their time, the sends. */
  function After(g: Gate, current: real, es: seq<Event>, threshold: real): Run {
    if es == [] then Run(g, current, 0.0, 0.0, 0)
    else Next(After(g, current, es[..|es| - 1], threshold), Last(es), threshold)
  }

  function Times(n: int, x: real): real {
    n as real * x
  }

  lemma NoTimes(x: real)
    ensures Times(0, x) == 0.0
  {
  }

  lemma OneMoreTime(n: int, x: real)
    ensures Times(n + 1, x) == Times(n, x) + x
  {
  }

  lemma StepIsPaidFor(r: Run, e: Event, threshold: real)
    ensures var n := Next(r, e, threshold);
      && (n.sends == r.sends || n.sends == r.sends + 1)
      && (if n.sends == r.sends then 0.0 else threshold - SLACK) + Lag(n.gate, n.current)
         <= Lag(r.gate, r.current) + (n.moved - r.moved) + (n.jumped - r.jumped)
  {
    assert r.gate.last.Some? ==>
        threshold >= 0.0 ==> Needed(r.gate, e.v - r.gate.last.value, threshold) >= threshold;
  }

  /**
   Each send the gate asks for is paid for by a threshold of real movement, up to what the gate already
   lagged and to how far marks were from the value of their time.
   */
  lemma {:induction false} SendsArePaidFor(g: Gate, current: real, es: seq<Event>, threshold: real)
    requires threshold >= SLACK
    ensures var r := After(g, current, es, threshold);
      Times(r.sends, threshold - SLACK) + Lag(r.gate, r.current) <= Lag(g, current) + r.moved + r.jumped
  {
    hide Times, Lag, Next;
    if es == [] {
      NoTimes(threshold - SLACK);
    } else {
      SendsArePaidFor(g, current, es[..|es| - 1], threshold);
      var was := After(g, current, es[..|es| - 1], threshold);
      StepIsPaidFor(was, Last(es), threshold);
      OneMoreTime(was.sends, threshold - SLACK);
    }
  }

  /** Marks only at the value of their time: what a send or a keyframe of fresh readings does. */
  ghost predicate MarksAreCurrent(g: Gate, current: real, es: seq<Event>, threshold: real) {
    forall k :: 0 <= k < |es| && es[k].Sent? ==> es[k].v == After(g, current, es[..k], threshold).current
  }

  /** With such marks a fresh gate's sends times the threshold never exceed the total variation. */
  lemma {:induction false} SendsWithinVariation(es: seq<Event>, current: real, threshold: real)
    requires threshold >= SLACK && MarksAreCurrent(Gate(None, 0), current, es, threshold)
    ensures var r := After(Gate(None, 0), current, es, threshold);
      r.jumped == 0.0 && Times(r.sends, threshold - SLACK) <= r.moved
  {
    NoJumps(Gate(None, 0), current, es, threshold);
    SendsArePaidFor(Gate(None, 0), current, es, threshold);
  }

  lemma {:induction false} NoJumps(g: Gate, current: real, es: seq<Event>, threshold: real)
    requires MarksAreCurrent(g, current, es, threshold)
    ensures After(g, current, es, threshold).jumped == 0.0
  {
    if es != [] {
      var front := es[..|es| - 1];
      forall k | 0 <= k < |front| && front[k].Sent?
        ensures front[k].v == After(g, current, front[..k], threshold).current
      {
        assert front[..k] == es[..k] && es[k] == front[k];
      }
      NoJumps(g, current, front, threshold);
      assert es[|es| - 1] == Last(es);
    }
  }

  /**
   The condition is not idle: a reading that has not moved since a mark is sent exactly when the mark was
   a threshold off, so marks of an old reading can have one value sent over and over.
   */
  lemma {:induction false} StaleMarksSendAgain(g: Gate, current: real, mark: real, threshold: real)
    requires threshold > 2.0 * SLACK
    ensures var r := After(g, current, [Sent(mark), Seen(current)], threshold);
      && r.moved == 0.0
      && (r.sends == 1 <==> RAbs(current - mark) + SLACK >= Needed(Marked(g, mark), current - mark, threshold))
  {
    var es := [Sent(mark), Seen(current)];
    assert es[..1] == [Sent(mark)] && [Sent(mark)][..0] == [];
    assert After(g, current, [], threshold) == Run(g, current, 0.0, 0.0, 0);
    assert After(g, current, [Sent(mark)], threshold) == Run(Marked(g, mark), current, 0.0, RAbs(mark - current), 0);
  }

  ghost predicate Within(es: seq<Event>, low: real, high: real) {
    forall k :: 0 <= k < |es| ==> es[k].Seen? && low <= es[k].v <= high
  }

  /**
   Turning back costs half as much again: a reading that swings inside a band narrower than one and a
   half thresholds is sent at most once, however long it swings.
   */
  lemma {:induction false} SwingsAreSentOnce(start: real, es: seq<Event>, low: real, high: real, threshold: real)
    requires threshold >= 2.0 * SLACK && low <= start <= high && high - low < 1.5 * threshold - SLACK
    requires Within(es, low, high)
    ensures var r := After(Gate(Some(start), 0), start, es, threshold);
      && r.sends <= 1 && r.gate.last.Some? && low <= r.gate.last.value <= high
      && (r.sends == 0 ==> r.gate == Gate(Some(start), 0))
      && (r.sends == 1 && r.gate.dir == 1 ==> r.gate.last.value >= low + threshold - SLACK)
      && (r.sends == 1 && r.gate.dir == -1 ==> r.gate.last.value <= high - threshold + SLACK)
      && (r.sends == 1 ==> r.gate.dir == 1 || r.gate.dir == -1)
  {
    if es != [] {
      var front := es[..|es| - 1];
      assert forall k :: 0 <= k < |front| ==> front[k] == es[k];
      SwingsAreSentOnce(start, front, low, high, threshold);
      assert Last(es) == es[|es| - 1];
    }
  }

  // --- The alarm line --------------------------------------------------------------------------------------------------

  /** The line after a first value and more. */
  function LineAfter(was: Option<bool>, line: Line, band: real, vs: seq<real>): Option<bool> {
    if vs == [] then was else Some(Beyond(LineAfter(was, line, band, vs[..|vs| - 1]), line, Last(vs), band))
  }

  function FlipCount(was: Option<bool>, line: Line, band: real, vs: seq<real>): nat {
    if vs == [] then 0
    else
      var before := LineAfter(was, line, band, vs[..|vs| - 1]);
      FlipCount(was, line, band, vs[..|vs| - 1]) + (if Flips(before, Beyond(before, line, Last(vs), band)) then 1 else 0)
  }

  function Variation(vs: seq<real>): real {
    if |vs| <= 1 then 0.0 else Variation(vs[..|vs| - 1]) + RAbs(Last(vs) - vs[|vs| - 2])
  }

  /** How far a value has got toward flipping the line next. */
  function Progress(beyond: bool, line: Line, v: real, band: real): real {
    if beyond then RMax(0.0, Margin(line, v)) else RMax(0.0, band - Margin(line, v))
  }

  /** A flip takes a band's worth of movement since the last one. */
  lemma FlipIsPaidFor(was: bool, line: Line, from: real, v: real, band: real)
    requires band >= 0.0
    ensures var now := Beyond(Some(was), line, v, band);
      Progress(now, line, v, band) + (if now != was then band else 0.0) <= Progress(was, line, from, band) + RAbs(v - from)
  {
  }

  lemma FirstFlipIsFree(was: bool, line: Line, v: real, band: real)
    ensures var now := Beyond(Some(was), line, v, band);
      now != was ==> Progress(now, line, v, band) == 0.0
  {
  }

  /** Between two flips lies a full band of movement: only the first flip is free. */
  lemma {:induction false} FlipsArePaidFor(was: Option<bool>, line: Line, band: real, vs: seq<real>)
    requires band >= 0.0 && vs != []
    ensures var n, now := FlipCount(was, line, band, vs), LineAfter(was, line, band, vs).value;
      n >= 1 ==> Times(n - 1, band) + Progress(now, line, Last(vs), band) <= Variation(vs)
  {
    var front := vs[..|vs| - 1];
    assert Times(0, band) == 0.0;
    hide Times;
    VariationGrows(vs);
    if front == [] {
      assert FlipCount(was, line, band, front) == 0;
    } else {
      FlipsArePaidFor(was, line, band, front);
      var before, n := LineAfter(was, line, band, front), FlipCount(was, line, band, front);
      FlipIsPaidFor(before.value, line, Last(front), Last(vs), band);
      assert vs[|vs| - 2] == Last(front);
      FirstFlipIsFree(before.value, line, Last(vs), band);
      hide Progress, Beyond;
      if n >= 1 { OneMoreTime(n - 1, band); }
    }
  }

  lemma {:induction false} VariationGrows(vs: seq<real>)
    ensures Variation(vs) >= 0.0
  {
    if |vs| > 1 { VariationGrows(vs[..|vs| - 1]); }
  }

  // --- Shore power -----------------------------------------------------------------------------------------------------

  function ShoreState(vs: seq<real>): Option<bool> {
    if vs == [] then None else ShoreAfter(ShoreState(vs[..|vs| - 1]), Last(vs))
  }

  /** The states reported, in order. */
  function ShoreReported(vs: seq<real>): seq<bool> {
    if vs == [] then []
    else
      var was := ShoreState(vs[..|vs| - 1]);
      ShoreReported(vs[..|vs| - 1]) +
      (if ShoreReports(was, Last(vs)) then [ShoreAfter(was, Last(vs)) == Some(true)] else [])
  }

  /** How far the voltage has got toward the next report. */
  function ShoreProgress(present: bool, v: real): real {
    if present then RMax(0.0, SHORE_RESTORED_AT_V - v) else RMax(0.0, v - SHORE_LOST_BELOW_V)
  }

  /** What one reading does to the shore state: a report turns it over, and takes ten volts since the last one. */
  lemma ShoreStep(was: Option<bool>, from: real, v: real)
    ensures var now := ShoreAfter(was, v);
      if ShoreReports(was, v) then
        && now.Some? && (if was.None? then !now.value else now.value == !was.value) && ShoreProgress(now.value, v) == 0.0
        && (was.Some? ==> 10.0 <= ShoreProgress(was.value, from) + RAbs(v - from))
      else
        && (was.Some? ==> now == was && ShoreProgress(was.value, v) <= ShoreProgress(was.value, from) + RAbs(v - from))
        && (was.None? ==> now.None? || now.value)
  {
  }

  /** Lost, restored, lost, ... : strictly in turn, a loss first. */
  ghost predicate InTurn(said: seq<bool>) {
    forall k :: 0 <= k < |said| ==> said[k] == (k % 2 == 1)
  }

  lemma InTurnMore(said: seq<bool>, next: bool)
    requires InTurn(said) && (if said == [] then !next else next == !Last(said))
    ensures InTurn(said + [next])
  {
    if said != [] { assert said[|said| - 1] == ((|said| - 1) % 2 == 1); }
  }

  /** Shore reports come strictly in turn, a loss first, ten volts of movement apart. */
  lemma {:induction false} ShoreReportsAlternate(vs: seq<real>)
    ensures var said, now := ShoreReported(vs), ShoreState(vs);
      && InTurn(said)
      && (if said == [] then now.None? || now.value
          else now == Some(Last(said)) && 10.0 * (|said| - 1) as real + ShoreProgress(Last(said), Last(vs)) <= Variation(vs))
  {
    if vs != [] {
      var front := vs[..|vs| - 1];
      ShoreReportsAlternate(front);
      VariationGrows(vs);
      assert front != [] ==> vs[|vs| - 2] == Last(front) && Variation(vs) == Variation(front) + RAbs(Last(vs) - Last(front));
      var was, before := ShoreReported(front), ShoreState(front);
      ShoreStep(before, if front == [] then Last(vs) else Last(front), Last(vs));
      hide ShoreAfter, ShoreReports, ShoreProgress, Variation, InTurn;
      if ShoreReports(before, Last(vs)) {
        assert ShoreReported(vs) == was + [ShoreAfter(before, Last(vs)).value];
        InTurnMore(was, ShoreAfter(before, Last(vs)).value);
      } else {
        assert ShoreReported(vs) == was;
      }
    }
  }

  // --- Readings with two lines -----------------------------------------------------------------------------------------

  /** The lines and the threshold a reading is judged by; the band of a line is half the threshold. */
  datatype Rule = Rule(first: Line, second: Line, delta: real)

  const THERMOMETER := Rule(FREEZE, HEAT, TEMP_DELTA_C)

  function BankRule(scale: real): Rule {
    Rule(Line(BATTERY_LOW_V * scale, true), Line(BATTERY_LOWER_V * scale, true), BATTERY_DELTA_V * scale)
  }

  /** A bank above 18 V is judged by the doubled numbers, so its rule depends on the reading. */
  function RuleOf(kind: Kind, v: real): Rule
    requires TwoLined(kind)
  {
    if kind == Temperature then THERMOMETER else BankRule(BankScale(v))
  }

  /**
   The gate as it stands, the value, its variation, how far marks were from the value of their time, how often
   each rule has asked for a send, the sends, and how often the rule changed under the reading.
   */
  datatype Gauge = Gauge(
    reading: Reading, current: real, moved: real, jumped: real,
    firsts: nat, seconds: nat, moves: nat, sends: nat, changes: nat)

  function NewGauge(start: real): Gauge {
    Gauge(Reading(Gate(None, 0), None, None, None), start, 0.0, 0.0, 0, 0, 0, 0, 0)
  }

  function Took(kind: Kind, g: Gauge, v: real): Gauge
    requires TwoLined(kind)
  {
    var r, rule := g.reading, RuleOf(kind, v);
    var reports, after := Reports(r, kind, v), Observed(r, kind, v);
    Gauge(
      if reports then after.(delta := Marked(after.delta, v)) else after,
      v, g.moved + RAbs(v - g.current), g.jumped,
      g.firsts + (if Flips(r.first, Beyond(r.first, rule.first, v, rule.delta / 2.0)) then 1 else 0),
      g.seconds + (if Flips(r.second, Beyond(r.second, rule.second, v, rule.delta / 2.0)) then 1 else 0),
      g.moves + (if Triggers(r.delta, v, rule.delta) then 1 else 0),
      g.sends + (if reports then 1 else 0),
      g.changes + (if r.first.Some? && rule != RuleOf(kind, g.current) then 1 else 0))
  }

  /** A mark that a keyframe brings, with the value it carried; a newer reading may have come since. */
  function GotMark(g: Gauge, v: real): Gauge {
    g.(reading := g.reading.(delta := Marked(g.reading.delta, v)), jumped := g.jumped + RAbs(v - g.current))
  }

  function Got(kind: Kind, g: Gauge, e: Event): Gauge
    requires TwoLined(kind)
  {
    if e.Seen? then Took(kind, g, e.v) else GotMark(g, e.v)
  }

  function GaugeAfter(kind: Kind, start: real, es: seq<Event>): Gauge
    requires TwoLined(kind)
  {
    if es == [] then NewGauge(start) else Got(kind, GaugeAfter(kind, start, es[..|es| - 1]), Last(es))
  }

  /** One reading, in the words of its rule. */
  lemma TookBy(kind: Kind, g: Gauge, v: real)
    requires TwoLined(kind)
    ensures var r, rule, next := g.reading, RuleOf(kind, v), Took(kind, g, v);
      var band := rule.delta / 2.0;
      && next.reading.first == Some(Beyond(r.first, rule.first, v, band))
      && next.reading.second == Some(Beyond(r.second, rule.second, v, band))
      && next.sends <= g.sends + (next.firsts - g.firsts) + (next.seconds - g.seconds) + (next.moves - g.moves)
      && (next.reading.delta == r.delta || next.reading.delta == Marked(r.delta, v))
      && (Triggers(r.delta, v, rule.delta) ==> next.reading.delta == Marked(r.delta, v))
  {
    hide Beyond, Triggers, Flips, Marked, RAbs;
  }

  /** What a line has flipped for, in bands of `band`, and how far it has got toward flipping next. */
  predicate LinePaid(was: Option<bool>, flips: nat, line: Line, lineBand: real, v: real, band: real, budget: real) {
    && (was.None? ==> flips == 0)
    && (was.Some? ==> (if was.value then Margin(line, v) < lineBand else Margin(line, v) >= 0.0))
    && (flips >= 1 && was.Some? ==> Times(flips - 1, band) + Progress(was.value, line, v, lineBand) <= budget)
    && budget >= 0.0
  }

  /** One reading under the rule of the one before. */
  lemma LineStays(was: Option<bool>, flips: nat, line: Line, lineBand: real, from: real, v: real, band: real, budget: real)
    requires LinePaid(was, flips, line, lineBand, from, band, budget) && 0.0 <= band <= lineBand
    ensures var now := Beyond(was, line, v, lineBand);
      LinePaid(Some(now), flips + (if Flips(was, now) then 1 else 0), line, lineBand, v, band, budget + RAbs(v - from))
  {
    if flips >= 1 { OneMoreTime(flips - 1, band); }
    NoTimes(band);
    hide Times;
  }

  /** One reading under another rule: a line may flip for nothing, but no more than two bands are lost. */
  lemma LineMoves(was: Option<bool>, flips: nat, prior: Line, priorBand: real, line: Line, lineBand: real,
                  from: real, v: real, band: real, budget: real)
    requires LinePaid(was, flips, prior, priorBand, from, band, budget) && 0.0 <= band <= lineBand <= 2.0 * band
    ensures var now := Beyond(was, line, v, lineBand);
      LinePaid(Some(now), flips + (if Flips(was, now) then 1 else 0), line, lineBand, v, band, budget + 2.0 * band)
  {
    if flips >= 1 { OneMoreTime(flips - 1, band); }
    NoTimes(band);
    hide Times;
  }

  /** The budget of one line: the movement, and two bands for each change of rule. */
  function Budget(g: Gauge, delta: real): real {
    g.moved + Times(g.changes, delta)
  }

  predicate GaugePaid(kind: Kind, g: Gauge, delta: real)
    requires TwoLined(kind)
  {
    var rule := RuleOf(kind, g.current);
    && LinePaid(g.reading.first, g.firsts, rule.first, rule.delta / 2.0, g.current, delta / 2.0, Budget(g, delta))
    && LinePaid(g.reading.second, g.seconds, rule.second, rule.delta / 2.0, g.current, delta / 2.0, Budget(g, delta))
    && (g.reading.first.None? <==> g.reading.second.None?)
    && MovesPaid(g, delta)
    && g.sends <= g.firsts + g.seconds + g.moves
  }

  /** The thresholds a kind of reading is judged by lie between `delta` and twice that. */
  predicate Spans(kind: Kind, v: real, delta: real)
    requires TwoLined(kind)
  {
    delta >= SLACK && delta <= RuleOf(kind, v).delta <= 2.0 * delta
  }

  lemma OneLine(kind: Kind, g: Gauge, was: Option<bool>, flips: nat, prior: Line, line: Line, v: real, delta: real)
    requires TwoLined(kind) && Spans(kind, v, delta) && (was.None? <==> g.reading.first.None?)
    requires var rule := RuleOf(kind, g.current);
      LinePaid(was, flips, prior, rule.delta / 2.0, g.current, delta / 2.0, Budget(g, delta))
    requires RuleOf(kind, v) == RuleOf(kind, g.current) ==> line == prior
    ensures var rule, next := RuleOf(kind, v), Took(kind, g, v);
      var now := Beyond(was, line, v, rule.delta / 2.0);
      LinePaid(Some(now), flips + (if Flips(was, now) then 1 else 0), line, rule.delta / 2.0, v, delta / 2.0, Budget(next, delta))
  {
    var rule, before, next := RuleOf(kind, v), RuleOf(kind, g.current), Took(kind, g, v);
    assert next.moved == g.moved + RAbs(v - g.current);
    assert next.changes == g.changes + (if g.reading.first.Some? && rule != before then 1 else 0);
    OneMoreTime(g.changes, delta);
    NoDistance(v, g.current);
    hide Times, Took, RuleOf, Beyond, Flips, RAbs;
    if rule == before {
      LineStays(was, flips, prior, rule.delta / 2.0, g.current, v, delta / 2.0, Budget(g, delta));
    } else if was.None? {
      LineStarts(line, rule.delta / 2.0, v, delta / 2.0, Budget(next, delta));
    } else {
      LineMoves(was, flips, prior, before.delta / 2.0, line, rule.delta / 2.0, g.current, v, delta / 2.0, Budget(g, delta));
      var now := Beyond(was, line, v, rule.delta / 2.0);
      MoreBudget(Some(now), flips + (if Flips(was, now) then 1 else 0), line, rule.delta / 2.0, v, delta / 2.0,
                 Budget(g, delta) + 2.0 * (delta / 2.0), Budget(next, delta));
    }
  }

  lemma NoDistance(a: real, b: real)
    ensures RAbs(a - b) >= 0.0
  {
  }

  lemma LineStarts(line: Line, lineBand: real, v: real, band: real, budget: real)
    requires lineBand >= 0.0 && budget >= 0.0
    ensures var now := Beyond(None, line, v, lineBand);
      LinePaid(Some(now), if Flips(None, now) then 1 else 0, line, lineBand, v, band, budget)
  {
    NoTimes(band);
    hide Times;
  }

  lemma MoreBudget(was: Option<bool>, flips: nat, line: Line, lineBand: real, v: real, band: real, budget: real, more: real)
    requires LinePaid(was, flips, line, lineBand, v, band, budget) && budget <= more
    ensures LinePaid(was, flips, line, lineBand, v, band, more)
  {
    hide Times, Progress, Margin;
  }

  lemma TookCounts(kind: Kind, g: Gauge, v: real)
    requires TwoLined(kind)
    ensures var r, rule, next := g.reading, RuleOf(kind, v), Took(kind, g, v);
      && next.current == v && next.jumped == g.jumped && next.moved == g.moved + RAbs(v - g.current)
      && next.firsts == g.firsts + (if Flips(r.first, Beyond(r.first, rule.first, v, rule.delta / 2.0)) then 1 else 0)
      && next.seconds == g.seconds + (if Flips(r.second, Beyond(r.second, rule.second, v, rule.delta / 2.0)) then 1 else 0)
      && next.moves == g.moves + (if Triggers(r.delta, v, rule.delta) then 1 else 0)
  {
    hide RuleOf, Reports, Observed, Beyond, Flips, Triggers, Marked, RAbs;
  }

  /** What the change gate has sent for, and how far it lags, is within the movement and the stale marks. */
  predicate MovesPaid(g: Gauge, delta: real) {
    Times(g.moves, delta - SLACK) + Lag(g.reading.delta, g.current) <= g.moved + g.jumped
  }

  lemma MovePays(kind: Kind, g: Gauge, v: real, delta: real)
    requires TwoLined(kind) && MovesPaid(g, delta) && Spans(kind, v, delta)
    ensures MovesPaid(Took(kind, g, v), delta)
  {
    var rule := RuleOf(kind, v);
    TookCounts(kind, g, v);
    TookBy(kind, g, v);
    MoveIsPaidFor(g.reading.delta, g.current, v, rule.delta);
    LagIsNever(g.reading.delta, g.current);
    OneMoreTime(g.moves, delta - SLACK);
    hide Took, Beyond, Flips, Triggers, Marked, RuleOf, RAbs, Lag, Times;
  }

  lemma TookPays(kind: Kind, g: Gauge, v: real, delta: real)
    requires TwoLined(kind) && GaugePaid(kind, g, delta) && Spans(kind, v, delta)
    ensures GaugePaid(kind, Took(kind, g, v), delta)
  {
    hide LinePaid, MovesPaid, Took, Beyond, Flips, Triggers, Marked, RuleOf, RAbs, Times, Budget, Spans;
    var r, rule, before := g.reading, RuleOf(kind, v), RuleOf(kind, g.current);
    TookCounts(kind, g, v);
    TookBy(kind, g, v);
    MovePays(kind, g, v, delta);
    OneLine(kind, g, r.first, g.firsts, before.first, rule.first, v, delta);
    OneLine(kind, g, r.second, g.seconds, before.second, rule.second, v, delta);
  }

  lemma MarkPays(kind: Kind, g: Gauge, v: real, delta: real)
    requires TwoLined(kind) && GaugePaid(kind, g, delta)
    ensures GaugePaid(kind, GotMark(g, v), delta)
  {
    MarkLag(g.reading.delta, v, g.current);
    LagIsNever(g.reading.delta, g.current);
    hide LinePaid, RuleOf, RAbs, Lag, Times, Marked;
  }

  lemma MarkLag(g: Gate, v: real, current: real)
    ensures Lag(Marked(g, v), current) == RAbs(v - current)
  {
  }

  lemma NewPays(kind: Kind, start: real, delta: real)
    requires TwoLined(kind)
    ensures GaugePaid(kind, NewGauge(start), delta)
  {
    NoTimes(delta);
    NoTimes(delta - SLACK);
    hide Times, RuleOf;
  }

  lemma {:induction false} GaugeIsPaid(kind: Kind, start: real, es: seq<Event>, delta: real)
    requires TwoLined(kind) && forall i :: 0 <= i < |es| && es[i].Seen? ==> Spans(kind, es[i].v, delta)
    ensures GaugePaid(kind, GaugeAfter(kind, start, es), delta)
  {
    hide GaugePaid, Took, GotMark, Spans;
    if es == [] {
      NewPays(kind, start, delta);
    } else {
      var front, e := es[..|es| - 1], es[|es| - 1];
      GaugeIsPaid(kind, start, front, delta);
      var g := GaugeAfter(kind, start, front);
      if e.Seen? { TookPays(kind, g, e.v, delta); } else { MarkPays(kind, g, e.v, delta); }
    }
  }

  lemma MoveIsPaidFor(g: Gate, from: real, v: real, threshold: real)
    requires threshold >= 0.0
    ensures Triggers(g, v, threshold) ==> Lag(g, from) + RAbs(v - from) >= threshold - SLACK
    ensures Lag(g, v) <= Lag(g, from) + RAbs(v - from)
    ensures Lag(Marked(g, v), v) == 0.0
    ensures RAbs(v - from) >= 0.0
  {
  }

  lemma LagIsNever(g: Gate, v: real)
    ensures Lag(g, v) >= 0.0
  {
  }

  lemma TimesGrow(m: int, n: int, x: real)
    requires m <= n && x >= 0.0
    ensures Times(m, x) <= Times(n, x)
  {
    assert Times(n, x) - Times(m, x) == (n - m) as real * x;
  }

  lemma TimesAdd(m: int, n: int, x: real)
    ensures Times(m + n, x) == Times(m, x) + Times(n, x)
  {
  }

  lemma TwiceTimes(n: int, x: real)
    ensures Times(2 * n, x) == 2.0 * Times(n, x) && Times(n, x) == 2.0 * Times(n, x / 2.0)
  {
  }

  lemma LessTimes(n: int, x: real, y: real)
    requires x <= y
    ensures n >= 0 ==> Times(n, x) <= Times(n, y)
    ensures n <= 0 ==> Times(n, x) >= Times(n, y)
  {
    assert Times(n, y) - Times(n, x) == n as real * (y - x);
  }

  /** One line's flips: the movement twice over, and two for each change of rule. */
  lemma LineAtMost(was: Option<bool>, flips: nat, line: Line, lineBand: real, v: real, moved: real, changes: nat, delta: real)
    requires LinePaid(was, flips, line, lineBand, v, delta / 2.0, moved + Times(changes, delta))
    requires delta >= SLACK && moved >= 0.0 && lineBand >= 0.0
    ensures Times(flips - 1 - 2 * changes, delta - SLACK) <= 2.0 * moved
  {
    var n := flips - 1 - 2 * changes;
    TimesAdd(n, 2 * changes, delta / 2.0);
    TwiceTimes(changes, delta / 2.0);
    TwiceTimes(changes, delta);
    TwiceTimes(n, delta);
    if n <= 0 {
      NoTimes(delta - SLACK);
      TimesGrow(n, 0, delta - SLACK);
    } else {
      LessTimes(n, delta - SLACK, delta);
      hide Times;
    }
  }

  lemma SendsAtMost(g: Gauge, delta: real)
    requires delta >= SLACK && g.moved >= 0.0 && g.sends <= g.firsts + g.seconds + g.moves
    requires Times(g.firsts - 1 - 2 * g.changes, delta - SLACK) <= 2.0 * g.moved
    requires Times(g.seconds - 1 - 2 * g.changes, delta - SLACK) <= 2.0 * g.moved
    requires Times(g.moves, delta - SLACK) <= g.moved + g.jumped
    ensures Times(g.sends - 2 - 4 * g.changes, delta - SLACK) <= 5.0 * g.moved + g.jumped
  {
    var a, b := g.firsts - 1 - 2 * g.changes, g.seconds - 1 - 2 * g.changes;
    TimesAdd(a, b, delta - SLACK);
    TimesAdd(a + b, g.moves, delta - SLACK);
    TimesGrow(g.sends - 2 - 4 * g.changes, a + b + g.moves, delta - SLACK);
    hide Times;
  }

  /**
   Whatever the readings and the keyframes between them, immediate sends are at most two, four for each change
   of rule, five for each threshold of real movement - two for each line's band of half a threshold, one for the
   change gate - and one for each threshold that marks were off the value of their time.
   */
  lemma {:induction false} TwoLinesNeverChatter(kind: Kind, start: real, es: seq<Event>, delta: real)
    requires TwoLined(kind) && forall i :: 0 <= i < |es| && es[i].Seen? ==> Spans(kind, es[i].v, delta)
    requires delta >= SLACK
    ensures var g := GaugeAfter(kind, start, es);
      Times(g.sends - 2 - 4 * g.changes, delta - SLACK) <= 5.0 * g.moved + g.jumped
  {
    var g := GaugeAfter(kind, start, es);
    var rule := RuleOf(kind, g.current);
    GaugeIsPaid(kind, start, es, delta);
    MovedIsNever(kind, start, es);
    LagIsNever(g.reading.delta, g.current);
    RuleIsWide(kind, g.current);
    hide GaugeAfter, Times, LinePaid, RuleOf, Lag, Spans;
    LineAtMost(g.reading.first, g.firsts, rule.first, rule.delta / 2.0, g.current, g.moved, g.changes, delta);
    LineAtMost(g.reading.second, g.seconds, rule.second, rule.delta / 2.0, g.current, g.moved, g.changes, delta);
    SendsAtMost(g, delta);
  }

  lemma RuleIsWide(kind: Kind, v: real)
    requires TwoLined(kind)
    ensures RuleOf(kind, v).delta >= 0.0
  {
  }

  lemma {:induction false} MovedIsNever(kind: Kind, start: real, es: seq<Event>)
    requires TwoLined(kind)
    ensures GaugeAfter(kind, start, es).moved >= 0.0
  {
    hide Reports, Observed, Beyond, Triggers, Flips, Marked, RuleOf;
    if es != [] {
      MovedIsNever(kind, start, es[..|es| - 1]);
    }
  }

  /** While one rule judges every reading it never changes under one. */
  lemma {:induction false} OneRuleNeverChanges(kind: Kind, start: real, es: seq<Event>, rule: Rule)
    requires TwoLined(kind) && forall i :: 0 <= i < |es| && es[i].Seen? ==> RuleOf(kind, es[i].v) == rule
    ensures var g := GaugeAfter(kind, start, es);
      g.changes == 0 && (g.reading.first.Some? ==> RuleOf(kind, g.current) == rule)
  {
    hide Reports, Beyond, Triggers, Flips, Marked, RuleOf, RAbs;
    if es != [] {
      assert es[|es| - 1] == Last(es);
      OneRuleNeverChanges(kind, start, es[..|es| - 1], rule);
    }
  }

  /** A thermometer has one rule, so nothing but its movement and stale marks can make it send. */
  lemma {:induction false} ThermometerNeverChatters(start: real, es: seq<Event>)
    ensures var g := GaugeAfter(Temperature, start, es);
      Times(g.sends - 2, TEMP_DELTA_C - SLACK) <= 5.0 * g.moved + g.jumped
  {
    OneRuleNeverChanges(Temperature, start, es, THERMOMETER);
    hide GaugeAfter, Times;
    TwoLinesNeverChatter(Temperature, start, es, TEMP_DELTA_C);
  }

  /** A battery bank has two rules, and pays for each crossing of 18 V with four sends. */
  lemma {:induction false} BankSendsAtMost(start: real, es: seq<Event>)
    ensures var g := GaugeAfter(BatteryBank, start, es);
      Times(g.sends - 2 - 4 * g.changes, BATTERY_DELTA_V - SLACK) <= 5.0 * g.moved + g.jumped
  {
    hide GaugeAfter, Times;
    TwoLinesNeverChatter(BatteryBank, start, es, BATTERY_DELTA_V);
  }

  /** On one side of 18 V it has one, with the numbers of that side. */
  lemma {:induction false} BankNeverChattersOnOneSide(start: real, es: seq<Event>, scale: real)
    requires scale == 1.0 || scale == 2.0
    requires forall i :: 0 <= i < |es| && es[i].Seen? ==> (es[i].v > BATTERY_24V_ABOVE <==> scale == 2.0)
    ensures var g := GaugeAfter(BatteryBank, start, es);
      Times(g.sends - 2, BATTERY_DELTA_V * scale - SLACK) <= 5.0 * g.moved + g.jumped
  {
    OneRuleNeverChanges(BatteryBank, start, es, BankRule(scale));
    hide GaugeAfter, Times;
    TwoLinesNeverChatter(BatteryBank, start, es, BATTERY_DELTA_V * scale);
  }

  // --- A bank at 18 V ---------------------------------------------------------------------------------------------------

  predicate Above(v: real) {
    v > BATTERY_24V_ABOVE
  }

  /** The rule of a bank changes under a reading exactly when the reading crosses 18 V. */
  lemma ChangesAreCrossings(from: real, v: real)
    ensures RuleOf(BatteryBank, v) != RuleOf(BatteryBank, from) <==> Above(v) != Above(from)
  {
    assert BankRule(1.0).delta != BankRule(2.0).delta;
  }

  /** Clear of both 12 V lines if it is a 12 V bank, and beyond both 24 V lines if it is a 24 V one. */
  predicate Between(v: real) {
    BATTERY_LOW_V + BATTERY_DELTA_V / 2.0 <= v < 2.0 * BATTERY_LOWER_V
  }

  /** Readings between the lines leave both crossed or both clear, as the last of them is above 18 V or not. */
  lemma {:induction false} LinesFollowTheSide(start: real, es: seq<Event>)
    requires forall i :: 0 <= i < |es| && es[i].Seen? ==> Between(es[i].v)
    ensures var g := GaugeAfter(BatteryBank, start, es);
      && g.reading.first == g.reading.second
      && (g.reading.first.Some? ==> Between(g.current) && g.reading.first == Some(Above(g.current)))
      && (g.reading.first.None? <==> forall i :: 0 <= i < |es| ==> es[i].Sent?)
      && (g.reading.delta.last.None? ==> forall i :: 0 <= i < |es| ==> es[i].Seen?)
  {
    if es != [] {
      var front, e := es[..|es| - 1], es[|es| - 1];
      LinesFollowTheSide(start, front);
      assert forall i :: 0 <= i < |front| ==> front[i] == es[i];
      hide Triggers, Marked, RAbs;
      if e.Seen? { BetweenStep(GaugeAfter(BatteryBank, start, front), e.v); }
    }
  }

  lemma BetweenStep(g: Gauge, v: real)
    requires Between(v) && g.reading.first == g.reading.second
    requires g.reading.first.Some? ==> g.reading.first == Some(Above(g.current))
    ensures var next := Took(BatteryBank, g, v);
      && next.reading.first == next.reading.second == Some(Above(v)) && next.current == v
      && (g.reading.delta.last.Some? ==> next.reading.delta.last.Some?)
    ensures g.reading.first.Some? && g.reading.delta.last.Some? ==>
      (Reports(g.reading, BatteryBank, v) <==>
         Above(v) != Above(g.current) || Triggers(g.reading.delta, v, RuleOf(BatteryBank, v).delta))
  {
    hide Triggers, RAbs;
  }

  /**
   Exactly when a bank between the lines is reported, once a value of it has been sent: when the reading lies on
   the other side of 18 V from the one before, or the change gate asks for it.
   */
  lemma {:induction false} CrossingIsReported(start: real, es: seq<Event>, v: real)
    requires Between(v) && forall i :: 0 <= i < |es| && es[i].Seen? ==> Between(es[i].v)
    requires (exists i :: 0 <= i < |es| && es[i].Seen?) && (exists i :: 0 <= i < |es| && es[i].Sent?)
    ensures var g := GaugeAfter(BatteryBank, start, es);
      Reports(g.reading, BatteryBank, v) <==>
        Above(v) != Above(LastSeen(es, start)) || Triggers(g.reading.delta, v, RuleOf(BatteryBank, v).delta)
  {
    LinesFollowTheSide(start, es);
    CurrentIsLastSeen(BatteryBank, start, es);
    var g := GaugeAfter(BatteryBank, start, es);
    hide GaugeAfter, Reports, Triggers, Above, Between, RuleOf, LastSeen;
    BetweenStep(g, v);
  }

  /** The last reading, or the value at the start. */
  function LastSeen(es: seq<Event>, start: real): real {
    if es == [] then start else if Last(es).Seen? then Last(es).v else LastSeen(es[..|es| - 1], start)
  }

  lemma {:induction false} CurrentIsLastSeen(kind: Kind, start: real, es: seq<Event>)
    requires TwoLined(kind)
    ensures GaugeAfter(kind, start, es).current == LastSeen(es, start)
  {
    hide Reports, Observed, Beyond, Triggers, Flips, Marked, RuleOf, RAbs;
    if es != [] {
      CurrentIsLastSeen(kind, start, es[..|es| - 1]);
    }
  }

  /** A bank at one voltage, sent, and then stepping up and back, `n` times. */
  function Zigzag(at: real, step: real, n: nat): seq<Event> {
    if n == 0 then [Seen(at), Sent(at)] else Zigzag(at, step, n - 1) + [Seen(at + step), Seen(at)]
  }

  /** A step between the lines from 18 V or below to above it. */
  predicate Straddles(at: real, step: real) {
    Between(at) && Between(at + step) && !Above(at) && Above(at + step)
  }

  /**
   Why crossings are charged for: a bank that hovers about 18 V is reported at every reading, however small the
   steps. From 18 V itself any step under 5.6 V will do.
   */
  lemma {:induction false} BankChattersAtEighteen(at: real, step: real, n: nat)
    requires Straddles(at, step)
    ensures var g := GaugeAfter(BatteryBank, at, Zigzag(at, step, n));
      g.sends == 2 * n && g.moved == Times(2 * n, step) && g.jumped == 0.0 && Hovers(g, at)
  {
    hide GaugeAfter, Times, Hovers, Got, Straddles;
    if n == 0 {
      NoTimes(step);
      StartsHovering(at, step);
    } else {
      var front, up := Zigzag(at, step, n - 1), Seen(at + step);
      BankChattersAtEighteen(at, step, n - 1);
      GaugeOfMore(BatteryBank, at, front, up);
      GaugeOfMore(BatteryBank, at, front + [up], Seen(at));
      assert Zigzag(at, step, n) == front + [up] + [Seen(at)];
      ZigzagStep(GaugeAfter(BatteryBank, at, front), at, step);
      OneMoreTime(2 * n - 2, step);
      OneMoreTime(2 * n - 1, step);
    }
  }

  lemma {:induction false} StartsHovering(at: real, step: real)
    requires Straddles(at, step)
    ensures var g := GaugeAfter(BatteryBank, at, [Seen(at), Sent(at)]);
      g.sends == 0 && g.moved == 0.0 && g.jumped == 0.0 && Hovers(g, at)
  {
    var seen := [Seen(at)];
    assert [] + seen == seen && seen + [Sent(at)] == [Seen(at), Sent(at)];
    GaugeOfNone(BatteryBank, at);
    NotAbove(at, step);
    hide GaugeAfter, Took, GotMark, Hovers, Straddles;
    GaugeOfMore(BatteryBank, at, [], Seen(at));
    GaugeOfMore(BatteryBank, at, seen, Sent(at));
    StaysQuiet(NewGauge(at), at);
    MarkHovers(Took(BatteryBank, NewGauge(at), at), at);
  }

  lemma NotAbove(at: real, step: real)
    requires Straddles(at, step)
    ensures Between(at) && !Above(at)
  {
  }

  lemma {:induction false} GaugeOfNone(kind: Kind, start: real)
    requires TwoLined(kind)
    ensures GaugeAfter(kind, start, []) == NewGauge(start)
  {
  }

  lemma StaysQuiet(g: Gauge, at: real)
    requires g.reading == Reading(Gate(None, 0), None, None, None) && g.current == at && Between(at) && !Above(at)
    ensures var next := Took(BatteryBank, g, at);
      && next.sends == g.sends && next.moved == g.moved && next.jumped == g.jumped && next.current == at
      && next.reading.first == next.reading.second == Some(false)
  {
    BetweenStep(g, at);
    TookCounts(BatteryBank, g, at);
    NothingToReport(g.reading, at);
    hide Reports, Observed, RuleOf, Beyond, Flips, Triggers, Marked, Between;
  }

  lemma NothingToReport(r: Reading, v: real)
    requires r == Reading(Gate(None, 0), None, None, None) && Between(v) && !Above(v)
    ensures !Reports(r, BatteryBank, v)
  {
  }

  lemma MarkHovers(g: Gauge, at: real)
    requires g.current == at && g.reading.first == g.reading.second == Some(false)
    ensures var next := GotMark(g, at);
      next.sends == g.sends && next.moved == g.moved && next.jumped == g.jumped && Hovers(next, at)
  {
  }

  lemma {:induction false} GaugeOfMore(kind: Kind, start: real, es: seq<Event>, e: Event)
    requires TwoLined(kind)
    ensures GaugeAfter(kind, start, es + [e]) == Got(kind, GaugeAfter(kind, start, es), e)
  {
    hide Got;
    assert (es + [e])[..|es|] == es;
  }

  predicate Hovers(g: Gauge, at: real) {
    g.current == at && g.reading.first == g.reading.second == Some(false) && g.reading.delta.last.Some?
  }

  lemma ZigzagStep(g: Gauge, at: real, step: real)
    requires Hovers(g, at) && Straddles(at, step)
    ensures var up := Got(BatteryBank, g, Seen(at + step));
      var down := Got(BatteryBank, up, Seen(at));
      down.sends == g.sends + 2 && down.moved == g.moved + step + step && down.jumped == g.jumped && Hovers(down, at)
  {
    hide Triggers;
  }

  /** So nothing in terms of the movement bounds what such a bank sends: any number of sends comes of any little of it. */
  lemma AnyNumberOfSends(n: nat, little: real) returns (es: seq<Event>)
    requires little > 0.0
    ensures var g := GaugeAfter(BatteryBank, BATTERY_24V_ABOVE, es);
      g.sends == 2 * n && g.moved < little && g.jumped == 0.0
  {
    hide GaugeAfter, Times, Hovers, Zigzag;
    var step := SmallStep(2 * n, little);
    BankChattersAtEighteen(BATTERY_24V_ABOVE, step, n);
    es := Zigzag(BATTERY_24V_ABOVE, step, n);
  }

  lemma SmallStep(n: nat, little: real) returns (step: real)
    requires little > 0.0
    ensures 0.0 < step <= 1.0 && Times(n, step) < little
  {
    var parts := (n + 1) as real;
    var part := little / parts;
    assert parts * part == little;
    step := if part <= 1.0 then part else 1.0;
    OneMoreTime(n, step);
    LessTimes(n + 1, step, part);
  }
}
