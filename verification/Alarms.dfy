/**
 What a reading reports, told from the readings and the marks before it: which alarm lines it lies beyond,
 whether shore power is lost, and how far it has moved since the value last sent.
 */
module Alarms {
  import opened Prelude
  import opened Cadence

  /** A reading taken, or a value marked sent. */
  datatype Call = Read(v: real) | Sent(v: real)

  function After(kind: Kind, calls: seq<Call>): Reading {
    if calls == [] then Reading(Gate(None, 0), None, None, None)
    else
      var r := After(kind, calls[..|calls| - 1]);
      match Last(calls)
      case Read(v) => Observed(r, kind, v)
      case Sent(v) => r.(delta := Marked(r.delta, v))
  }

  // --- The lines in numbers -------------------------------------------------------------------------------------------

  /** The numbers of a 24 V bank are twice those of a 12 V one; readings above 18 V are those of a 24 V bank. */
  predicate Under(v: real, limit: real) {
    v < (if v > 18.0 then 2.0 * limit else limit)
  }

  /** Beyond a line: freezing or hot, a bank near empty or emptier. */
  predicate Crossed(kind: Kind, second: bool, v: real)
    requires TwoLined(kind)
  {
    if kind == Temperature then (if second then v > 45.0 else v < 2.0) else Under(v, if second then 11.8 else 12.2)
  }

  /** Not yet clear of the line by its band. */
  predicate Holds(kind: Kind, second: bool, v: real)
    requires TwoLined(kind)
  {
    if kind == Temperature then (if second then v > 44.5 else v < 2.5) else Under(v, if second then 11.9 else 12.3)
  }

  /** Some reading crossed the line and none since has come clear of it. */
  ghost predicate InAlarm(kind: Kind, second: bool, calls: seq<Call>)
    requires TwoLined(kind)
  {
    exists k :: 0 <= k < |calls| && calls[k].Read? && Crossed(kind, second, calls[k].v) &&
                forall j :: k < j < |calls| && calls[j].Read? ==> Holds(kind, second, calls[j].v)
  }

  lemma InAlarmStep(kind: Kind, second: bool, front: seq<Call>, c: Call)
    requires TwoLined(kind)
    ensures InAlarm(kind, second, front + [c]) <==>
      if c.Sent? then InAlarm(kind, second, front)
      else Crossed(kind, second, c.v) || (InAlarm(kind, second, front) && Holds(kind, second, c.v))
  {
    hide Crossed, Holds;
    var calls := front + [c];
    assert calls[|front|] == c;
    if c.Read? && Crossed(kind, second, c.v) {
      assert InAlarm(kind, second, calls);
    } else if k :| 0 <= k < |calls| && calls[k].Read? && Crossed(kind, second, calls[k].v) &&
                   forall j :: k < j < |calls| && calls[j].Read? ==> Holds(kind, second, calls[j].v) {
      assert front[k].Read? && forall j :: k < j < |front| ==> front[j] == calls[j];
    } else if k :| 0 <= k < |front| && front[k].Read? && Crossed(kind, second, front[k].v) &&
                   forall j :: k < j < |front| && front[j].Read? ==> Holds(kind, second, front[j].v) {
      assert calls[k].Read? && forall j :: k < j < |front| ==> front[j] == calls[j];
    }
  }

  lemma ReadLines(kind: Kind, r: Reading, v: real)
    requires TwoLined(kind)
    ensures var n := Observed(r, kind, v);
      && n.first == Some(Crossed(kind, false, v) || (r.first == Some(true) && Holds(kind, false, v)))
      && n.second == Some(Crossed(kind, true, v) || (r.second == Some(true) && Holds(kind, true, v)))
      && n.delta == r.delta
  {
  }

  /** The two lines of a gate remember exactly what the readings say. */
  lemma {:induction false} LinesRemember(kind: Kind, calls: seq<Call>)
    requires TwoLined(kind)
    ensures (After(kind, calls).first == Some(true)) <==> InAlarm(kind, false, calls)
    ensures (After(kind, calls).second == Some(true)) <==> InAlarm(kind, true, calls)
  {
    if calls != [] {
      var front, c := calls[..|calls| - 1], Last(calls);
      assert calls == front + [c];
      LinesRemember(kind, front);
      InAlarmStep(kind, false, front, c);
      InAlarmStep(kind, true, front, c);
      if c.Read? { ReadLines(kind, After(kind, front), c.v); }
      hide InAlarm, Crossed, Holds, Observed, Marked;
    }
  }

  // --- The change gate in values ----------------------------------------------------------------------------------------

  /** The values marked sent, in order. */
  function Marks(calls: seq<Call>): seq<real> {
    if calls == [] then []
    else Marks(calls[..|calls| - 1]) + (if Last(calls).Sent? then [Last(calls).v] else [])
  }

  /** Where the last two different marks went: 1 up, -1 down, 0 while all are the same. */
  function LastMove(marks: seq<real>): int {
    if |marks| <= 1 then 0
    else if marks[|marks| - 1] > marks[|marks| - 2] then 1
    else if marks[|marks| - 1] < marks[|marks| - 2] then -1
    else LastMove(marks[..|marks| - 1])
  }

  lemma {:induction false} GateHoldsTheMarks(kind: Kind, calls: seq<Call>)
    ensures var marks := Marks(calls);
      After(kind, calls).delta == Gate(if marks == [] then None else Some(Last(marks)), LastMove(marks))
  {
    if calls != [] {
      GateHoldsTheMarks(kind, calls[..|calls| - 1]);
      var front, r := Marks(calls[..|calls| - 1]), After(kind, calls[..|calls| - 1]);
      ReadKeepsTheGate(kind, r, Last(calls).v);
      MarkedAdds(front, Last(calls).v);
      hide Observed, LastMove, Marked;
      assert Marks(calls) == if Last(calls).Sent? then front + [Last(calls).v] else front;
    }
  }

  lemma ReadKeepsTheGate(kind: Kind, r: Reading, v: real)
    ensures Observed(r, kind, v).delta == r.delta
  {
  }

  lemma {:induction false} MarkedAdds(marks: seq<real>, v: real)
    ensures Marked(Gate(if marks == [] then None else Some(Last(marks)), LastMove(marks)), v) ==
            Gate(Some(v), LastMove(marks + [v]))
  {
    assert (marks + [v])[..|marks|] == marks;
  }

  /** A reading has moved by `threshold` from the value last sent, or by half as much again against the last move. */
  predicate Moved(marks: seq<real>, v: real, threshold: real) {
    && marks != []
    && (var back := (LastMove(marks) == 1 && v < Last(marks)) || (LastMove(marks) == -1 && v > Last(marks));
        RAbs(v - Last(marks)) + 0.000000001 >= (if back then 1.5 * threshold else threshold))
  }

  lemma {:induction false} TriggersIsMoved(kind: Kind, calls: seq<Call>, v: real, threshold: real)
    ensures Triggers(After(kind, calls).delta, v, threshold) <==> Moved(Marks(calls), v, threshold)
  {
    GateHoldsTheMarks(kind, calls);
    MoveIsSigned(Marks(calls));
    hide LastMove;
  }

  lemma {:induction false} MoveIsSigned(marks: seq<real>)
    ensures LastMove(marks) == 0 || LastMove(marks) == 1 || LastMove(marks) == -1
  {
    if |marks| > 1 { MoveIsSigned(marks[..|marks| - 1]); }
  }

  function MoveOf(kind: Kind, v: real): real
    requires TwoLined(kind)
  {
    if kind == Temperature then 1.0 else if v > 18.0 then 0.4 else 0.2
  }

  /** What is reported, with both lines before and after as they are. */
  lemma ReadReports(kind: Kind, r: Reading, v: real)
    requires TwoLined(kind)
    ensures var n := Observed(r, kind, v);
      Reports(r, kind, v) <==>
        || Triggers(r.delta, v, MoveOf(kind, v))
        || (((r.first == Some(true)) != (n.first == Some(true)) || (r.second == Some(true)) != (n.second == Some(true)))
            && (r.delta.last.Some? || n.first == Some(true) || n.second == Some(true)))
  {
    hide Triggers;
  }

  /**
   A reading of a bank or a thermometer is reported if and only if it has moved from the value last sent, or one
   of its lines is now crossed that was not or cleared that was not; a gate with nothing sent tells no clearing
   that leaves both lines clear.
   */
  lemma {:induction false} ReadingReportsExactly(kind: Kind, calls: seq<Call>, v: real)
    requires TwoLined(kind)
    ensures var more := calls + [Read(v)];
      Reports(After(kind, calls), kind, v) <==>
        || Moved(Marks(calls), v, MoveOf(kind, v))
        || ((InAlarm(kind, false, calls) != InAlarm(kind, false, more)
             || InAlarm(kind, true, calls) != InAlarm(kind, true, more))
            && (Marks(calls) != [] || InAlarm(kind, false, more) || InAlarm(kind, true, more)))
  {
    var more := calls + [Read(v)];
    assert more[..|more| - 1] == calls;
    LinesRemember(kind, calls);
    LinesRemember(kind, more);
    GateHoldsTheMarks(kind, calls);
    TriggersIsMoved(kind, calls, v, MoveOf(kind, v));
    ReadReports(kind, After(kind, calls), v);
    hide InAlarm, Moved, Triggers, Reports, Observed, MoveOf, LastMove, Marks;
  }

  /** Humidity is reported on moves of five points alone, and a reading of no kind not at all. */
  lemma {:induction false} OtherReadingsReport(calls: seq<Call>, v: real)
    ensures Reports(After(Humidity, calls), Humidity, v) <==> Moved(Marks(calls), v, 5.0)
    ensures !Reports(After(Other, calls), Other, v)
  {
    TriggersIsMoved(Humidity, calls, v, 5.0);
    hide Moved, Triggers;
  }

  // --- Shore power --------------------------------------------------------------------------------------------------------

  /** Some reading fell under 90 V and none since has come up to 100 V. */
  ghost predicate ShoreLost(calls: seq<Call>) {
    exists k :: 0 <= k < |calls| && calls[k].Read? && calls[k].v < 90.0 &&
                forall j :: k < j < |calls| && calls[j].Read? ==> calls[j].v < 100.0
  }

  lemma ShoreLostStep(front: seq<Call>, c: Call)
    ensures ShoreLost(front + [c]) <==>
      if c.Sent? then ShoreLost(front) else c.v < 90.0 || (ShoreLost(front) && c.v < 100.0)
  {
    var calls := front + [c];
    assert calls[|front|] == c;
    if c.Read? && c.v < 90.0 {
      assert ShoreLost(calls);
    } else if k :| 0 <= k < |calls| && calls[k].Read? && calls[k].v < 90.0 &&
                   forall j :: k < j < |calls| && calls[j].Read? ==> calls[j].v < 100.0 {
      assert front[k].Read? && forall j :: k < j < |front| ==> front[j] == calls[j];
    } else if k :| 0 <= k < |front| && front[k].Read? && front[k].v < 90.0 &&
                   forall j :: k < j < |front| && front[j].Read? ==> front[j].v < 100.0 {
      assert calls[k].Read? && forall j :: k < j < |front| ==> front[j] == calls[j];
    }
  }

  lemma {:induction false} ShoreRemembers(calls: seq<Call>)
    ensures (After(ShoreAc, calls).shore == Some(false)) <==> ShoreLost(calls)
  {
    if calls != [] {
      var front, c := calls[..|calls| - 1], Last(calls);
      assert calls == front + [c];
      ShoreRemembers(front);
      ShoreLostStep(front, c);
      hide ShoreLost;
    }
  }

  lemma ShoreReportIs(shore: Option<bool>, v: real)
    ensures ShoreReports(shore, v) <==> (shore == Some(false)) != (ShoreAfter(shore, v) == Some(false))
    ensures ShoreAfter(shore, v) == Some(false) <==> v < 90.0 || (shore == Some(false) && v < 100.0)
  {
    if shore.Some? {
      assert shore == Some(shore.value);
      if !shore.value { assert shore == Some(false); } else { assert shore == Some(true); }
    }
  }

  /** Shore power is told lost and restored exactly when the readings lose and restore it. */
  lemma {:induction false} ShoreReportsExactly(calls: seq<Call>, v: real)
    ensures Reports(After(ShoreAc, calls), ShoreAc, v) <==> (ShoreLost(calls) != ShoreLost(calls + [Read(v)]))
  {
    ShoreRemembers(calls);
    ShoreLostStep(calls, Read(v));
    ShoreReportIs(After(ShoreAc, calls).shore, v);
    hide ShoreLost, ShoreReports, ShoreAfter;
  }
}
