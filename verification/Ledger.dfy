/**
 The daily water ledger: one UTC day and the litres that count against it. Washdown water does not
 count.
 */
module Ledgers {
  import opened Prelude
  import opened Cycle
  import Calendar

  datatype Ledger = Ledger(day: string, volumeL: real)

  function Counted(ended: Ended): real {
    if ended.mode == Washdown then 0.0 else ended.volumeL
  }

  function ApplyToLedger(ledger: Option<Ledger>, ended: Ended): Ledger {
    var day := Calendar.DayKey(ended.endedAt);
    var base := if ledger.Some? && ledger.value.day == day then ledger.value.volumeL else 0.0;
    Ledger(day, base + Counted(ended))
  }

  /** The ledger after a whole history of ended runs, starting with none. */
  function LedgerAfter(history: seq<Ended>): Option<Ledger> {
    if history == [] then None
    else Some(ApplyToLedger(LedgerAfter(history[..|history| - 1]), Last(history)))
  }

  /** Litres of the runs that ended on UTC day `day`, washdowns apart, over a whole history, in any order. */
  function CountedOn(history: seq<Ended>, day: int): real {
    if history == [] then 0.0
    else
      var e := Last(history);
      CountedOn(history[..|history| - 1], day) +
      (if e.mode != Washdown && Calendar.UtcDay(e.endedAt) == day then e.volumeL else 0.0)
  }

  function WithoutWashdowns(history: seq<Ended>): seq<Ended> {
    if history == [] then []
    else WithoutWashdowns(history[..|history| - 1]) + (if Last(history).mode == Washdown then [] else [Last(history)])
  }

  /** Washdowns count for nothing on any day: the litres are those of the history without them. */
  lemma {:induction false} WashdownsCountForNothing(history: seq<Ended>, day: int)
    ensures CountedOn(history, day) == CountedOn(WithoutWashdowns(history), day)
    ensures forall e :: e in WithoutWashdowns(history) ==> e.mode != Washdown && e in history
  {
    if history != [] {
      var front := history[..|history| - 1];
      WashdownsCountForNothing(front, day);
      var kept := WithoutWashdowns(front);
      assert (kept + [Last(history)])[..|kept|] == kept;
      assert kept + [] == kept;
    }
  }

  ghost predicate EndsInOrder(history: seq<Ended>) {
    forall i, j :: 0 <= i <= j < |history| ==> history[i].endedAt <= history[j].endedAt
  }

  /** Nothing counts against a day on which no run ended. */
  lemma {:induction false} NothingCountedOn(history: seq<Ended>, day: int)
    requires forall e :: e in history ==> Calendar.UtcDay(e.endedAt) != day
    ensures CountedOn(history, day) == 0.0
  {
    if history != [] {
      assert Last(history) in history;
      NothingCountedOn(history[..|history| - 1], day);
    }
  }

  /**
   One more end: the litres so far carry over exactly when it falls on the ledger's own UTC day; a washdown adds
   nothing to them, a normal run or a tank fill its whole volume.
   */
  lemma ApplyCarries(at: int, volumeL: real, e: Ended)
    ensures var sameDay := Calendar.UtcDay(at) == Calendar.UtcDay(e.endedAt);
      ApplyToLedger(Some(Ledger(Calendar.DayKey(at), volumeL)), e) ==
      Ledger(Calendar.DayKey(e.endedAt),
             match e.mode
             case Washdown => if sameDay then volumeL else 0.0
             case _ => if sameDay then volumeL + e.volumeL else e.volumeL)
    ensures ApplyToLedger(None, e) == Ledger(Calendar.DayKey(e.endedAt), if e.mode == Washdown then 0.0 else e.volumeL)
  {
    hide Calendar.DayKey;
    Calendar.DayKeyIsUtcDay(at, e.endedAt);
  }

  /** Where the last stretch of ends on one UTC day begins: every end from there on falls on the last end's day. */
  function StretchStart(history: seq<Ended>): (k: nat)
    requires history != []
    ensures k < |history|
    ensures forall i :: k <= i < |history| ==> Calendar.UtcDay(history[i].endedAt) == Calendar.UtcDay(Last(history).endedAt)
    ensures k > 0 ==> Calendar.UtcDay(history[k - 1].endedAt) != Calendar.UtcDay(Last(history).endedAt)
  {
    var front := history[..|history| - 1];
    if front == [] || Calendar.UtcDay(Last(front).endedAt) != Calendar.UtcDay(Last(history).endedAt) then |history| - 1
    else StretchStart(front)
  }

  lemma {:induction false} CountedOnSplits(history: seq<Ended>, k: nat, day: int)
    requires k <= |history|
    ensures CountedOn(history, day) == CountedOn(history[..k], day) + CountedOn(history[k..], day)
  {
    if k == |history| {
      assert history[..k] == history;
    } else {
      var front := history[..|history| - 1];
      CountedOnSplits(front, k, day);
      assert front[..k] == history[..k];
      assert history[k..][..|history| - 1 - k] == front[k..];
    }
  }

  /** Whatever the order of the ends, the ledger holds the last end's day and the counted litres of its last stretch. */
  lemma {:induction false} LedgerIsTheLastStretch(history: seq<Ended>)
    requires history != []
    ensures var day := Calendar.UtcDay(Last(history).endedAt);
      LedgerAfter(history) ==
        Some(Ledger(Calendar.DayKey(Last(history).endedAt), CountedOn(history[StretchStart(history)..], day)))
  {
    hide Calendar.DayKey;
    var front, last := history[..|history| - 1], Last(history);
    var day, k := Calendar.UtcDay(last.endedAt), StretchStart(history);
    assert history[k..][..|history| - 1 - k] == front[k..];
    if front != [] {
      LedgerIsTheLastStretch(front);
      ApplyCarries(Last(front).endedAt, CountedOn(front[StretchStart(front)..], Calendar.UtcDay(Last(front).endedAt)), last);
    }
  }

  /**
   Exactly when nothing is lost: the ledger holds every counted litre of the last end's day if and only if
   the ends of that day before its last stretch - those a clock stepping back has cut off - count for nothing.
   */
  lemma {:induction false} LedgerConservesIff(history: seq<Ended>)
    requires history != []
    ensures var day := Calendar.UtcDay(Last(history).endedAt);
      (LedgerAfter(history).value.volumeL == CountedOn(history, day)) <==> (CountedOn(history[..StretchStart(history)], day) == 0.0)
  {
    LedgerIsTheLastStretch(history);
    CountedOnSplits(history, StretchStart(history), Calendar.UtcDay(Last(history).endedAt));
  }

  /**
   Conservation: while ends arrive in order, the ledger holds the last end's day and exactly the
   counted litres of every run that ended on it, across midnights, months and leap days.
   */
  lemma {:induction false} LedgerConserves(history: seq<Ended>)
    requires history != [] && EndsInOrder(history)
    ensures LedgerAfter(history) ==
      Some(Ledger(Calendar.DayKey(Last(history).endedAt), CountedOn(history, Calendar.UtcDay(Last(history).endedAt))))
  {
    var k, last := StretchStart(history), Last(history);
    var day := Calendar.UtcDay(last.endedAt);
    LedgerIsTheLastStretch(history);
    CountedOnSplits(history, k, day);
    forall e | e in history[..k] ensures Calendar.UtcDay(e.endedAt) != day {
      var i :| 0 <= i < k && history[i] == e;
      assert history[i].endedAt <= history[k - 1].endedAt <= history[|history| - 1].endedAt;
    }
    NothingCountedOn(history[..k], day);
  }

  /**
   Why order matters: a clock that steps back over a midnight and forward again loses the first
   day's earlier litres, because the ledger keeps one day only.
   */
  lemma ClockStepBackLosesLitres(e: Ended)
    requires e.mode == Normal && e.endedAt == 0 && e.volumeL == 5.0
    ensures var history := [e, e.(endedAt := -1), e];
      LedgerAfter(history).value.volumeL == 5.0 && CountedOn(history, 0) == 10.0
  {
    hide Calendar.DayKey;
    var back := e.(endedAt := -1);
    assert [e, back, e][..2] == [e, back];
    assert [e, back][..1] == [e];
    assert [e][..0] == [];
    assert CountedOn([e, back], 0) == CountedOn([e], 0) == 5.0;
    ApplyCarries(0, 5.0, back);
    ApplyCarries(-1, 5.0, e);
  }
}
