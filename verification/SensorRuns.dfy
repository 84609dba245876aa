/**
 What wiring a sensor achieves: what a confirmation is worth whatever calls fail, that an answering
 sensor with room ends with nothing missing, and that wiring it again changes nothing.
 */
module SensorRuns {
  import opened Prelude
  import opened SensorWiring

  // --- A confirmation is a read-back -----------------------------------------------------------------------------

  lemma {:induction false} AllUrlsCollects(desired: seq<DesiredHook>, u: string)
    ensures u in AllUrls(desired) <==> exists i :: 0 <= i < |desired| && u in desired[i].urls
  {
    if desired != [] {
      var front := desired[..|desired| - 1];
      AllUrlsCollects(front, u);
      assert desired == front + [Last(desired)];
    }
  }

  lemma {:induction false} NotCarriedSelects(hooks: seq<Hook>, event: string, urls: seq<string>, u: string)
    ensures u in NotCarried(hooks, event, urls) <==> u in urls && !Carries(hooks, event, u)
    ensures |NotCarried(hooks, event, urls)| <= |urls|
  {
    hide Carries;
    if urls != [] {
      NotCarriedSelects(hooks, event, urls[..|urls| - 1], u);
      assert urls == urls[..|urls| - 1] + [Last(urls)];
    }
  }

  predicate Gap(hooks: seq<Hook>, want: DesiredHook, u: string) {
    u in want.urls && !Carries(hooks, want.event, u)
  }

  ghost predicate SomeGap(hooks: seq<Hook>, desired: seq<DesiredHook>, u: string) {
    exists i :: 0 <= i < |desired| && Gap(hooks, desired[i], u)
  }

  lemma SomeGapSnoc(hooks: seq<Hook>, desired: seq<DesiredHook>, more: DesiredHook, u: string)
    ensures SomeGap(hooks, desired + [more], u) <==> SomeGap(hooks, desired, u) || Gap(hooks, more, u)
  {
    hide Gap;
    var all := desired + [more];
    assert all[|desired|] == more && forall i :: 0 <= i < |desired| ==> desired[i] == all[i];
  }

  lemma {:induction false} MissingOfMore(hooks: seq<Hook>, desired: seq<DesiredHook>, more: DesiredHook, u: string)
    ensures u in AllUrls(MissingUrls(hooks, desired + [more]))
       <==> u in AllUrls(MissingUrls(hooks, desired)) || Gap(hooks, more, u)
  {
    hide AllUrls, NotCarried, Carries;
    var m := MissingUrls(hooks, desired);
    assert (desired + [more])[..|desired|] == desired && Last(desired + [more]) == more;
    NotCarriedSelects(hooks, more.event, more.urls, u);
    AllUrlsSnoc(m, DesiredHook(more.event, NotCarried(hooks, more.event, more.urls)));
    assert m + [] == m;
  }

  /** What is reported missing is exactly what some event asked for and the read-back does not carry under it. */
  lemma {:induction false} MissingIsUncarried(hooks: seq<Hook>, desired: seq<DesiredHook>, u: string)
    ensures u in AllUrls(MissingUrls(hooks, desired)) <==> SomeGap(hooks, desired, u)
  {
    assert MissingUrls(hooks, []) == [] && AllUrls([]) == [] && !SomeGap(hooks, [], u);
    hide Gap, SomeGap, AllUrls, MissingUrls;
    if desired != [] {
      var front, d := desired[..|desired| - 1], Last(desired);
      MissingIsUncarried(hooks, front, u);
      assert desired == front + [d];
      MissingOfMore(hooks, front, d, u);
      SomeGapSnoc(hooks, front, d, u);
    }
  }

  lemma {:induction false} AllUrlsSnoc(desired: seq<DesiredHook>, more: DesiredHook)
    ensures AllUrls(desired + [more]) == AllUrls(desired) + more.urls
  {
    assert (desired + [more])[..|desired|] == desired;
  }

  lemma {:induction false} OutsideSelects(urls: seq<string>, gone: seq<string>, u: string)
    ensures u in Outside(urls, gone) <==> u in urls && u !in gone
  {
    if urls != [] {
      OutsideSelects(urls[..|urls| - 1], gone, u);
      assert urls == urls[..|urls| - 1] + [Last(urls)];
    }
  }

  /**
   Whatever calls fail: a url is confirmed exactly when it was asked for and the last read-back carries
   it under every event that asked for it, and then the sensor itself carries it so. Every other url
   asked for is reported missing.
   */
  lemma {:induction false} ConfirmedIsCarried(d: Device, desired: seq<DesiredHook>, u: string)
    ensures var w := WireHooks(d, desired);
      && (u in w.confirmed ==> forall i :: 0 <= i < |desired| && u in desired[i].urls ==>
              Carries(w.device.hooks, desired[i].event, u))
      && (u in AllUrls(desired) <==> u in w.confirmed || u in w.missing)
      && !(u in w.confirmed && u in w.missing)
  {
    assert forall e :: !Carries([], e, u);
    hide Carries, Merge, FillAll, WriteAll, MissingUrls, NotCarried;
    var written := WriteAll(Listed(d), Heard(d), desired);
    var gaps := MissingUrls(Heard(written), desired);
    var repaired := FillAll(Listed(written), gaps);
    var seen := if gaps == [] then Heard(written) else Heard(repaired);
    var w := WireHooks(d, desired);
    assert seen == [] || seen == w.device.hooks;
    assert w.missing == AllUrls(MissingUrls(seen, desired));
    OutsideSelects(AllUrls(desired), w.missing, u);
    AllUrlsCollects(desired, u);
    MissingIsUncarried(seen, desired, u);
    forall i | 0 <= i < |desired| && u in desired[i].urls && u in w.confirmed
      ensures Carries(w.device.hooks, desired[i].event, u)
    {
      assert !Gap(seen, desired[i], u);
    }
  }

  // --- The calls of a wiring -------------------------------------------------------------------------------------------

  /** The fates left after `n` calls. */
  function Rest(fates: seq<Fate>, n: nat): seq<Fate> {
    if n <= |fates| then fates[n..] else []
  }

  lemma OneCall(fates: seq<Fate>, n: nat)
    ensures LaterFates(Rest(fates, n)) == Rest(fates, n + 1)
  {
  }

  lemma {:induction false} WritesAreCalls(d: Device, seen: seq<Hook>, desired: seq<DesiredHook>, n: nat, fates: seq<Fate>)
    requires d.fates == Rest(fates, n)
    ensures WriteAll(d, seen, desired).fates == Rest(fates, n + |desired|)
  {
    hide Rest, LaterFates, NextFate, FirstWith, Merge, Rewrite, Take;
    if desired != [] {
      WritesAreCalls(d, seen, desired[..|desired| - 1], n, fates);
      OneCall(fates, n + |desired| - 1);
    }
  }

  lemma {:induction false} FillOneIsCalls(d: Device, event: string, urls: seq<string>, n: nat, fates: seq<Fate>)
    requires d.fates == Rest(fates, n)
    ensures FillOne(d, event, urls).fates == Rest(fates, n + |urls|)
  {
    hide Rest, LaterFates, NextFate, Take;
    if urls != [] {
      FillOneIsCalls(d, event, urls[..|urls| - 1], n, fates);
      OneCall(fates, n + |urls| - 1);
    }
  }

  lemma {:induction false} FillsAreCalls(d: Device, gaps: seq<DesiredHook>, n: nat, fates: seq<Fate>)
    requires d.fates == Rest(fates, n)
    ensures FillAll(d, gaps).fates == Rest(fates, n + |AllUrls(gaps)|)
  {
    hide Rest, FillOne;
    if gaps != [] {
      FillsAreCalls(d, gaps[..|gaps| - 1], n, fates);
      FillOneIsCalls(FillAll(d, gaps[..|gaps| - 1]), Last(gaps).event, Last(gaps).urls,
                     n + |AllUrls(gaps[..|gaps| - 1])|, fates);
    }
  }

  /**
   A sensor is awake for seconds, and each call of a wiring takes its turn of what may happen: two listings and a
   write for each wanted hook, and only when the second listing lacks something a call for each such url and a
   third listing. That second listing lacks no more urls than are wanted.
   */
  lemma {:induction false} CallsAreCounted(d: Device, desired: seq<DesiredHook>)
    ensures var lacking := MissingUrls(Heard(WriteAll(Listed(d), Heard(d), desired)), desired);
      && WireHooks(d, desired).device.fates
         == Rest(d.fates, |desired| + |AllUrls(lacking)| + (if lacking == [] then 2 else 3))
      && |AllUrls(lacking)| <= |AllUrls(desired)|
  {
    hide WireHooks, FillAll, WriteAll, MissingUrls, Rest, LaterFates, Heard, AllUrls;
    var written := WriteAll(Listed(d), Heard(d), desired);
    var lacking := MissingUrls(Heard(written), desired);
    LastListing(d, desired);
    NoCalls(d.fates);
    OneCall(d.fates, 0);
    WritesAreCalls(Listed(d), Heard(d), desired, 1, d.fates);
    OneCall(d.fates, |desired| + 1);
    FillsAreCalls(Listed(written), lacking, |desired| + 2, d.fates);
    OneCall(d.fates, |desired| + 2 + |AllUrls(lacking)|);
    GapsFit(Heard(written), desired);
  }

  lemma NoCalls(fates: seq<Fate>)
    ensures Rest(fates, 0) == fates && AllUrls([]) == []
  {
  }

  lemma {:induction false} LastListing(d: Device, desired: seq<DesiredHook>)
    ensures var written := WriteAll(Listed(d), Heard(d), desired);
      var lacking := MissingUrls(Heard(written), desired);
      WireHooks(d, desired).device.fates ==
        LaterFates(if lacking == [] then written.fates else FillAll(Listed(written), lacking).fates)
  {
    hide FillAll, WriteAll, MissingUrls, LaterFates, Heard, AllUrls, Outside;
  }

  lemma {:induction false} NothingHeard(desired: seq<DesiredHook>)
    ensures Outside(AllUrls(desired), AllUrls(MissingUrls([], desired))) == []
  {
    var gone := AllUrls(MissingUrls([], desired));
    hide MissingUrls, AllUrls, Outside;
    if Outside(AllUrls(desired), gone) != [] {
      var u := Outside(AllUrls(desired), gone)[0];
      OutsideSelects(AllUrls(desired), gone, u);
      AllUrlsCollects(desired, u);
      MissingIsUncarried([], desired, u);
      assert false;
    }
  }

  lemma LastHeard(d: Device, desired: seq<DesiredHook>)
    ensures var written := WriteAll(Listed(d), Heard(d), desired);
      var lacking := MissingUrls(Heard(written), desired);
      WireHooks(d, desired).confirmed == Outside(AllUrls(desired), AllUrls(
        if lacking == [] then [] else MissingUrls(Heard(FillAll(Listed(written), lacking)), desired)))
  {
    hide FillAll, WriteAll, MissingUrls, LaterFates, Heard, AllUrls, Outside;
  }

  lemma Unheard(d: Device, fates: seq<Fate>, n: nat)
    requires d.fates == Rest(fates, n) && n < |fates| && fates[n] != Answered
    ensures Heard(d) == []
  {
  }

  /** Only an answered listing confirms: when the last call of a wiring gets no answer, nothing is confirmed. */
  lemma {:induction false} NoAnswerConfirmsNothing(d: Device, desired: seq<DesiredHook>)
    ensures var lacking := MissingUrls(Heard(WriteAll(Listed(d), Heard(d), desired)), desired);
      var n := |desired| + |AllUrls(lacking)| + (if lacking == [] then 2 else 3);
      n <= |d.fates| && d.fates[n - 1] != Answered ==> WireHooks(d, desired).confirmed == []
  {
    hide WireHooks, FillAll, WriteAll, MissingUrls, Rest, LaterFates, Heard, AllUrls, Outside;
    var written := WriteAll(Listed(d), Heard(d), desired);
    var lacking := MissingUrls(Heard(written), desired);
    var n := |desired| + |AllUrls(lacking)| + (if lacking == [] then 2 else 3);
    LastHeard(d, desired);
    NothingHeard(desired);
    NoCalls(d.fates);
    OneCall(d.fates, 0);
    WritesAreCalls(Listed(d), Heard(d), desired, 1, d.fates);
    OneCall(d.fates, |desired| + 1);
    FillsAreCalls(Listed(written), lacking, |desired| + 2, d.fates);
    if n <= |d.fates| && d.fates[n - 1] != Answered {
      Unheard(if lacking == [] then written else FillAll(Listed(written), lacking), d.fates, n - 1);
    }
  }

  // --- An answering sensor with room ---------------------------------------------------------------------------------

  predicate Answers(d: Device) {
    d.fates == [] && d.keep >= 1
  }

  /** Room for a hook per event and a hook per url, beside those it has. */
  predicate HasRoom(d: Device, desired: seq<DesiredHook>) {
    |d.hooks| + |desired| + |AllUrls(desired)| <= d.slots
  }

  /** Filling appends the urls asked for while there are slots, one hook each, under their event. */
  lemma {:induction false} FillOneAppends(d: Device, event: string, urls: seq<string>)
    requires Answers(d)
    ensures var f, n := FillOne(d, event, urls), |d.hooks|;
      && Extends(d, f) && |f.hooks| == Min(n + |urls|, Max(d.slots, n))
      && forall k :: n <= k < |f.hooks| ==> f.hooks[k].event == event && f.hooks[k].urls == [urls[k - n]]
  {
    if urls != [] {
      FillOneAppends(d, event, urls[..|urls| - 1]);
      assert Take([Last(urls)], d.keep) == [Last(urls)];
    }
  }

  ghost predicate Extends(d: Device, f: Device) {
    && f == d.(hooks := f.hooks, nextId := f.nextId)
    && |d.hooks| <= |f.hooks| && f.hooks[..|d.hooks|] == d.hooks
    && f.nextId == d.nextId + (|f.hooks| - |d.hooks|)
    && forall k :: |d.hooks| <= k < |f.hooks| ==> f.hooks[k].id == d.nextId + (k - |d.hooks|)
  }

  lemma ExtendsMore(d: Device, e: Device, f: Device)
    requires Extends(d, e) && Extends(e, f)
    ensures Extends(d, f)
  {
    forall k | |d.hooks| <= k < |f.hooks|
      ensures f.hooks[k].id == d.nextId + (k - |d.hooks|)
    {
      if k < |e.hooks| { assert f.hooks[..|e.hooks|][k] == e.hooks[k]; }
    }
    assert f.hooks[..|d.hooks|] == f.hooks[..|e.hooks|][..|d.hooks|];
  }

  lemma ExtendsKeeps(d: Device, f: Device)
    requires Extends(d, f)
    ensures f.keep == d.keep && f.slots == d.slots && f.fates == d.fates && |f.hooks| >= |d.hooks|
    ensures |f.hooks| == |d.hooks| ==> f == d
    ensures f.hooks == d.hooks + f.hooks[|d.hooks|..]
  {
    assert f.hooks[..|f.hooks|] == f.hooks;
  }

  ghost predicate AllCarried(hooks: seq<Hook>, gaps: seq<DesiredHook>) {
    forall i, u :: 0 <= i < |gaps| && u in gaps[i].urls ==> Carries(hooks, gaps[i].event, u)
  }

  /** All gaps are filled as far as the slots go; if they go far enough, every url ends up carried. */
  lemma {:induction false} FillAllCarries(d: Device, gaps: seq<DesiredHook>)
    requires Answers(d)
    ensures var f, n := FillAll(d, gaps), |d.hooks|;
      && Extends(d, f) && |f.hooks| == Min(n + |AllUrls(gaps)|, Max(d.slots, n))
      && (|f.hooks| == n + |AllUrls(gaps)| ==> AllCarried(f.hooks, gaps))
  {
    if gaps != [] {
      hide Extends, FillOne, Carries, AllCarried;
      var front, g := gaps[..|gaps| - 1], Last(gaps);
      FillAllCarries(d, front);
      var before, after := FillAll(d, front), FillAll(d, gaps);
      ExtendsKeeps(d, before);
      FillOneAppends(before, g.event, g.urls);
      ExtendsMore(d, before, after);
      if |after.hooks| == |d.hooks| + |AllUrls(gaps)| {
        ExtendsKeeps(before, after);
        MoreCarried(before.hooks, after.hooks, gaps);
      }
    } else {
      assert AllUrls(gaps) == [] && AllCarried(d.hooks, gaps);
    }
  }

  lemma MoreCarried(before: seq<Hook>, after: seq<Hook>, gaps: seq<DesiredHook>)
    requires gaps != [] && AllCarried(before, gaps[..|gaps| - 1])
    requires |after| == |before| + |Last(gaps).urls| && after == before + after[|before|..]
    requires forall k :: |before| <= k < |after| ==>
      after[k].event == Last(gaps).event && after[k].urls == [Last(gaps).urls[k - |before|]]
    ensures AllCarried(after, gaps)
  {
    var front := gaps[..|gaps| - 1];
    forall i, u | 0 <= i < |gaps| && u in gaps[i].urls ensures Carries(after, gaps[i].event, u) {
      if i < |front| {
        assert u in front[i].urls && Carries(before, front[i].event, u);
        CarriedStays(before, after, gaps[i].event, u);
      } else {
        var k :| 0 <= k < |gaps[i].urls| && gaps[i].urls[k] == u;
        assert after[|before| + k].urls == [u];
      }
    }
  }

  lemma CarriedStays(a: seq<Hook>, b: seq<Hook>, event: string, u: string)
    requires |a| <= |b| && b[..|a|] == a && Carries(a, event, u)
    ensures Carries(b, event, u)
  {
    var i :| 0 <= i < |a| && a[i].event == event && u in a[i].urls;
    assert b[i] == a[i];
  }

  lemma {:induction false} GapsFit(hooks: seq<Hook>, desired: seq<DesiredHook>)
    ensures |AllUrls(MissingUrls(hooks, desired))| <= |AllUrls(desired)|
  {
    hide NotCarried;
    if desired == [] {
      assert MissingUrls(hooks, desired) == [];
    } else {
      var front, d := desired[..|desired| - 1], Last(desired);
      GapsFit(hooks, front);
      NotCarriedSelects(hooks, d.event, d.urls, "");
      var m := MissingUrls(hooks, front);
      AllUrlsSnoc(m, DesiredHook(d.event, NotCarried(hooks, d.event, d.urls)));
      assert m + [] == m;
    }
  }

  predicate Reports(gaps: seq<DesiredHook>, event: string, u: string) {
    exists k :: 0 <= k < |gaps| && gaps[k].event == event && u in gaps[k].urls
  }

  lemma {:induction false} GapsAreReported(hooks: seq<Hook>, desired: seq<DesiredHook>, i: nat, u: string)
    requires i < |desired| && Gap(hooks, desired[i], u)
    ensures Reports(MissingUrls(hooks, desired), desired[i].event, u)
  {
    hide Carries, NotCarried;
    var front, d := desired[..|desired| - 1], Last(desired);
    var urls, m, all := NotCarried(hooks, d.event, d.urls), MissingUrls(hooks, front), MissingUrls(hooks, desired);
    if i < |front| {
      GapsAreReported(hooks, front, i, u);
      var k :| 0 <= k < |m| && m[k].event == desired[i].event && u in m[k].urls;
      assert all[k] == m[k];
    } else {
      NotCarriedSelects(hooks, d.event, d.urls, u);
      assert all[|m|] == DesiredHook(d.event, urls);
    }
  }

  /** With every call answered, what a run leaves missing it leaves for want of slots. */
  lemma {:induction false} MissingOnlyWhenFull(d: Device, desired: seq<DesiredHook>)
    requires Answers(d)
    ensures var written, w := WriteAll(d, d.hooks, desired), WireHooks(d, desired);
      && w.missing == AllUrls(MissingUrls(w.device.hooks, desired))
      && w.confirmed == Outside(AllUrls(desired), w.missing)
      && Extends(written, w.device) && (|written.hooks| >= d.slots ==> w.device == written)
      && (MissingUrls(w.device.hooks, desired) == [] ||
          (|w.device.hooks| >= d.slots && |written.hooks| + |AllUrls(desired)| > d.slots))
  {
    hide Carries, MissingUrls, WriteAll, FillAll, Outside, AllCarried;
    assert Listed(d) == d && Heard(d) == d.hooks;
    WritesKeep(d, d.hooks, desired);
    var written := WriteAll(d, d.hooks, desired);
    var gaps := MissingUrls(written.hooks, desired);
    FillAllCarries(written, gaps);
    ExtendsKeeps(written, FillAll(written, gaps));
    if gaps != [] {
      GapsFit(written.hooks, desired);
      var repaired := FillAll(written, gaps);
      if |repaired.hooks| == |written.hooks| + |AllUrls(gaps)| {
        FilledMeansNothingMissing(written.hooks, repaired.hooks, desired);
      }
    }
  }

  lemma {:induction false} WritesKeep(d: Device, seen: seq<Hook>, desired: seq<DesiredHook>)
    requires Answers(d)
    ensures var w := WriteAll(d, seen, desired);
      Answers(w) && w.keep == d.keep && w.slots == d.slots && |w.hooks| <= |d.hooks| + |desired|
  {
    hide Merge, FirstWith, Take, Rewrite;
    if desired != [] {
      var front, want := desired[..|desired| - 1], Last(desired);
      WritesKeep(d, seen, front);
      var w, existing := WriteAll(d, seen, front), FirstWith(seen, want.event);
      if existing.Some? {
        RewriteAt(w.hooks, existing.value.id, Take(Merge(want.urls, existing.value.urls), w.keep));
      }
    }
  }

  lemma {:induction false} FilledMeansNothingMissing(before: seq<Hook>, after: seq<Hook>, desired: seq<DesiredHook>)
    requires |before| <= |after| && after[..|before|] == before
    requires AllCarried(after, MissingUrls(before, desired))
    ensures MissingUrls(after, desired) == []
  {
    hide Carries, MissingUrls;
    var gaps := MissingUrls(before, desired);
    forall i, u | 0 <= i < |desired| && u in desired[i].urls ensures !Gap(after, desired[i], u) {
      if Gap(before, desired[i], u) {
        GapsAreReported(before, desired, i, u);
        var k :| 0 <= k < |gaps| && gaps[k].event == desired[i].event && u in gaps[k].urls;
        assert Carries(after, gaps[k].event, u);
      } else {
        CarriedStays(before, after, desired[i].event, u);
      }
    }
    NothingMissing(after, desired);
  }

  lemma {:induction false} NothingMissing(hooks: seq<Hook>, desired: seq<DesiredHook>)
    requires forall i, u :: 0 <= i < |desired| && u in desired[i].urls ==> !Gap(hooks, desired[i], u)
    ensures MissingUrls(hooks, desired) == []
  {
    hide Carries;
    if desired != [] {
      var front, d := desired[..|desired| - 1], Last(desired);
      assert forall i :: 0 <= i < |front| ==> front[i] == desired[i];
      NothingMissing(hooks, front);
      var urls := NotCarried(hooks, d.event, d.urls);
      if urls != [] {
        NotCarriedSelects(hooks, d.event, d.urls, urls[0]);
        assert false;
      }
    }
  }

  // --- What the writes leave ---------------------------------------------------------------------------------------------

  predicate UniqueIds(d: Device) {
    && (forall i :: 0 <= i < |d.hooks| ==> d.hooks[i].id < d.nextId)
    && (forall i, j :: 0 <= i < j < |d.hooks| ==> d.hooks[i].id != d.hooks[j].id)
  }

  predicate DistinctEvents(desired: seq<DesiredHook>) {
    forall i, j :: 0 <= i < j < |desired| ==> desired[i].event != desired[j].event
  }

  lemma {:induction false} MergeExtends(base: seq<string>, extra: seq<string>)
    ensures |base| <= |Merge(base, extra)| && Merge(base, extra)[..|base|] == base
    ensures forall i, j :: 0 <= i < j < |Merge(base, extra)| && |base| <= j ==>
              Merge(base, extra)[i] != Merge(base, extra)[j]
  {
    if extra != [] { MergeExtends(base, extra[..|extra| - 1]); }
  }

  /** Merging a prefix of a merge back into its base gives that prefix, or the base when it is shorter. */
  lemma {:induction false} MergeAgain(base: seq<string>, m: seq<string>, k: nat)
    requires |base| <= |m| && m[..|base|] == base && k <= |m|
    requires forall i, j :: 0 <= i < j < |m| && |base| <= j ==> m[i] != m[j]
    ensures Merge(base, m[..k]) == if k <= |base| then base else m[..k]
  {
    if k > 0 {
      MergeAgain(base, m, k - 1);
      assert m[..k][..k - 1] == m[..k - 1] && Last(m[..k]) == m[k - 1];
      if k <= |base| {
        assert base[k - 1] == m[k - 1];
      } else {
        assert k - 1 == |base| ==> m[..k - 1] == base;
        assert m[k - 1] !in m[..k - 1];
      }
    }
  }

  lemma {:induction false} MergeIsStable(base: seq<string>, extra: seq<string>, k: nat)
    ensures Take(Merge(base, Take(Merge(base, extra), k)), k) == Take(Merge(base, extra), k)
  {
    hide Merge;
    var m := Merge(base, extra);
    MergeExtends(base, extra);
    var n := if k < |m| then k else |m|;
    assert m[..|m|] == m;
    MergeAgain(base, m, n);
    if k <= |base| { assert base[..k] == m[..|base|][..k] == m[..k]; }
  }

  lemma {:induction false} FirstIsThere(hooks: seq<Hook>, event: string) returns (i: nat)
    requires FirstWith(hooks, event).Some?
    ensures i < |hooks| && hooks[i] == FirstWith(hooks, event).value && hooks[i].event == event
    ensures forall j :: 0 <= j < i ==> hooks[j].event != event
  {
    if hooks[0].event == event { i := 0; } else {
      i := FirstIsThere(hooks[1..], event);
      i := i + 1;
    }
  }

  lemma {:induction false} SomeIsSomewhere(hooks: seq<Hook>, event: string, k: nat)
    requires k < |hooks| && hooks[k].event == event
    ensures FirstWith(hooks, event).Some?
  {
    if hooks[0].event != event { SomeIsSomewhere(hooks[1..], event, k - 1); }
  }

  lemma {:induction false} FirstIsAt(hooks: seq<Hook>, event: string, k: nat)
    requires k < |hooks| && hooks[k].event == event && forall j :: 0 <= j < k ==> hooks[j].event != event
    ensures FirstWith(hooks, event) == Some(hooks[k])
  {
    if k > 0 { FirstIsAt(hooks[1..], event, k - 1); }
  }

  lemma {:induction false} FirstOfMore(hooks: seq<Hook>, more: seq<Hook>, event: string)
    ensures FirstWith(hooks + more, event)
         == if FirstWith(hooks, event).Some? then FirstWith(hooks, event) else FirstWith(more, event)
  {
    if hooks == [] { assert hooks + more == more; } else {
      assert (hooks + more)[1..] == hooks[1..] + more;
      FirstOfMore(hooks[1..], more, event);
    }
  }

  lemma {:induction false} RewriteAt(hooks: seq<Hook>, id: nat, urls: seq<string>)
    ensures |Rewrite(hooks, id, urls)| == |hooks|
    ensures forall i :: 0 <= i < |hooks| ==>
              Rewrite(hooks, id, urls)[i] == (if hooks[i].id == id then hooks[i].(enabled := true, urls := urls) else hooks[i])
  {
    if hooks != [] { RewriteAt(hooks[1..], id, urls); }
  }

  function FirstUrls(desired: seq<DesiredHook>, event: string): Option<seq<string>> {
    if desired == [] then None
    else
      var first := FirstUrls(desired[..|desired| - 1], event);
      if first.Some? then first else if Last(desired).event == event then Some(Last(desired).urls) else None
  }

  function LastUrls(desired: seq<DesiredHook>, event: string): Option<seq<string>> {
    if desired == [] then None
    else if Last(desired).event == event then Some(Last(desired).urls)
    else LastUrls(desired[..|desired| - 1], event)
  }

  lemma {:induction false} FirstAndLast(desired: seq<DesiredHook>, event: string)
    ensures FirstUrls(desired, event).Some? <==> LastUrls(desired, event).Some?
    ensures FirstUrls(desired, event).Some? <==> exists i :: 0 <= i < |desired| && desired[i].event == event
  {
    if desired != [] {
      FirstAndLast(desired[..|desired| - 1], event);
      assert desired[|desired| - 1] == Last(desired);
    }
  }

  /** What the writes make of a hook the sensor had: the first of a wanted event carries the last wanted list, then its own. */
  function Rewritten(d: Device, desired: seq<DesiredHook>, h: Hook): Hook {
    var wanted := LastUrls(desired, h.event);
    if wanted.Some? && FirstWith(d.hooks, h.event) == Some(h) then
      h.(enabled := true, urls := Take(Merge(wanted.value, h.urls), d.keep))
    else h
  }

  function RewrittenAll(d: Device, desired: seq<DesiredHook>): (all: seq<Hook>)
    ensures |all| == |d.hooks|
  {
    seq(|d.hooks|, i requires 0 <= i < |d.hooks| => Rewritten(d, desired, d.hooks[i]))
  }

  /** The hooks the writes create: one for each wanted list of an event the sensor had no hook for, while there are slots. */
  function Added(d: Device, desired: seq<DesiredHook>): seq<Hook> {
    if desired == [] then []
    else
      var front, want := Added(d, desired[..|desired| - 1]), Last(desired);
      if FirstWith(d.hooks, want.event).Some? || |d.hooks| + |front| >= d.slots then front
      else front + [Hook(d.nextId + |front|, want.event, true, Take(want.urls, d.keep))]
  }

  lemma {:induction false} AddedAre(d: Device, desired: seq<DesiredHook>)
    ensures |Added(d, desired)| <= |desired| && (|d.hooks| >= d.slots ==> Added(d, desired) == [])
    ensures forall k :: 0 <= k < |Added(d, desired)| ==>
              Added(d, desired)[k].id == d.nextId + k && FirstWith(d.hooks, Added(d, desired)[k].event).None?
  {
    hide Take, FirstWith;
    if desired != [] { AddedAre(d, desired[..|desired| - 1]); }
  }

  /** One more wanted list of an event that has a hook. */
  lemma {:induction false} RewriteStep(d: Device, front: seq<DesiredHook>, want: DesiredHook, more: seq<Hook>)
    requires UniqueIds(d) && FirstWith(d.hooks, want.event).Some?
    requires forall k :: 0 <= k < |more| ==> more[k].id >= d.nextId
    ensures var h := FirstWith(d.hooks, want.event).value;
      Rewrite(RewrittenAll(d, front) + more, h.id, Take(Merge(want.urls, h.urls), d.keep))
        == RewrittenAll(d, front + [want]) + more
  {
    hide Merge, FirstWith, Take, LastUrls;
    var h, all := FirstWith(d.hooks, want.event).value, front + [want];
    var urls, was, now := Take(Merge(want.urls, h.urls), d.keep), RewrittenAll(d, front) + more, RewrittenAll(d, all) + more;
    var p := FirstIsThere(d.hooks, want.event);
    RewriteAt(was, h.id, urls);
    forall k | 0 <= k < |was| ensures Rewrite(was, h.id, urls)[k] == now[k] {
      if k < |d.hooks| {
        LastOfMore(front, want, d.hooks[k].event);
      } else {
        assert was[k] == more[k - |d.hooks|];
      }
    }
  }

  lemma {:induction false} LastOfMore(front: seq<DesiredHook>, want: DesiredHook, event: string)
    ensures LastUrls(front + [want], event) == if want.event == event then Some(want.urls) else LastUrls(front, event)
    ensures FirstUrls(front + [want], event)
         == if FirstUrls(front, event).Some? then FirstUrls(front, event)
            else if want.event == event then Some(want.urls) else None
  {
    assert (front + [want])[..|front|] == front;
  }

  lemma NoRewriteStep(d: Device, front: seq<DesiredHook>, want: DesiredHook)
    requires FirstWith(d.hooks, want.event).None?
    ensures RewrittenAll(d, front + [want]) == RewrittenAll(d, front)
  {
    hide Merge, FirstWith, Take, LastUrls;
    forall k | 0 <= k < |d.hooks| ensures Rewritten(d, front + [want], d.hooks[k]) == Rewritten(d, front, d.hooks[k]) {
      LastOfMore(front, want, d.hooks[k].event);
    }
  }

  /** The writes in closed form, whatever is wanted and however often. */
  lemma {:induction false} WritesAre(d: Device, desired: seq<DesiredHook>)
    requires Answers(d) && UniqueIds(d)
    ensures var added := Added(d, desired);
      WriteAll(d, d.hooks, desired) == d.(hooks := RewrittenAll(d, desired) + added, nextId := d.nextId + |added|)
  {
    hide Merge, FirstWith, Take, Rewrite, Rewritten, UniqueIds;
    if desired == [] {
      NothingRewritten(d);
    } else {
      var front, want := desired[..|desired| - 1], Last(desired);
      WritesAre(d, front);
      AddedAre(d, front);
      assert desired == front + [want];
      if FirstWith(d.hooks, want.event).Some? {
        RewriteStep(d, front, want, Added(d, front));
      } else {
        NoRewriteStep(d, front, want);
      }
    }
  }

  lemma NothingRewritten(d: Device)
    ensures RewrittenAll(d, []) == d.hooks
  {
  }

  lemma {:induction false} FirstOfRewritten(d: Device, desired: seq<DesiredHook>, event: string)
    ensures FirstWith(RewrittenAll(d, desired), event) ==
            match FirstWith(d.hooks, event)
            case None => None
            case Some(h) => Some(Rewritten(d, desired, h))
  {
    hide Merge, FirstWith, Take, LastUrls;
    var all := RewrittenAll(d, desired);
    assert forall k :: 0 <= k < |all| ==> all[k].event == d.hooks[k].event;
    if FirstWith(d.hooks, event).Some? {
      var p := FirstIsThere(d.hooks, event);
      FirstIsAt(all, event, p);
    } else if FirstWith(all, event).Some? {
      var p := FirstIsThere(all, event);
      SomeIsSomewhere(d.hooks, event, p);
    }
  }

  /** A wanted event the sensor had no hook for gets its first wanted list, unless the slots ran out. */
  lemma {:induction false} FirstOfAdded(d: Device, desired: seq<DesiredHook>, event: string)
    requires FirstWith(d.hooks, event).None? && FirstUrls(desired, event).Some?
    ensures var added := Added(d, desired);
      match FirstWith(added, event)
      case None => |d.hooks| + |added| >= d.slots
      case Some(h) => h.event == event && h.enabled && (|d.hooks| + |desired| <= d.slots ==>
                        h.urls == Take(FirstUrls(desired, event).value, d.keep))
  {
    hide Take;
    var front, want := desired[..|desired| - 1], Last(desired);
    AddedAre(d, front);
    var before := Added(d, front);
    if FirstUrls(front, event).Some? {
      FirstOfAdded(d, front, event);
      FirstOfMore(before, Added(d, desired)[|before|..], event);
      assert Added(d, desired) == before + Added(d, desired)[|before|..];
    } else if |d.hooks| + |before| < d.slots {
      NoneAdded(d, front, event);
      FirstOfMore(before, [Last(Added(d, desired))], event);
    } else {
      NoneAdded(d, front, event);
    }
  }

  lemma {:induction false} NoneAdded(d: Device, desired: seq<DesiredHook>, event: string)
    requires FirstUrls(desired, event).None?
    ensures FirstWith(Added(d, desired), event).None?
  {
    hide Take;
    if desired != [] {
      var front := desired[..|desired| - 1];
      NoneAdded(d, front, event);
      FirstOfMore(Added(d, front), Added(d, desired)[|Added(d, front)|..], event);
      assert Added(d, desired) == Added(d, front) + Added(d, desired)[|Added(d, front)|..];
    }
  }

  // --- One run after another -----------------------------------------------------------------------------------------------

  /** A sensor that answers every call and has room keeps every url, however few a hook can hold. */
  lemma {:induction false} NothingStaysMissing(d: Device, desired: seq<DesiredHook>)
    requires Answers(d) && HasRoom(d, desired)
    ensures WireHooks(d, desired).missing == []
    ensures MissingUrls(WireHooks(d, desired).device.hooks, desired) == []
  {
    assert AllUrls([]) == [];
    hide WireHooks, MissingUrls, AllUrls, Extends, WriteAll;
    WritesKeep(d, d.hooks, desired);
    MissingOnlyWhenFull(d, desired);
  }

  /** The first hook of a wanted event is one the writes leave as it is; or there is none, and no slot to give it one. */
  predicate Holds(d: Device, desired: seq<DesiredHook>, event: string) {
    match FirstWith(d.hooks, event)
    case None => |d.hooks| >= d.slots
    case Some(h) => Rewritten(d, desired, h) == h
  }

  ghost predicate Stable(d: Device, desired: seq<DesiredHook>) {
    && (forall i :: 0 <= i < |desired| ==> Holds(d, desired, desired[i].event))
    && (MissingUrls(d.hooks, desired) == [] || |d.hooks| >= d.slots)
  }

  lemma {:induction false} StableWrites(d: Device, desired: seq<DesiredHook>)
    requires Answers(d) && UniqueIds(d) && forall i :: 0 <= i < |desired| ==> Holds(d, desired, desired[i].event)
    ensures WriteAll(d, d.hooks, desired) == d
  {
    hide UniqueIds, Take, Merge, FirstWith, WriteAll, Added;
    WritesAre(d, desired);
    NothingToAdd(d, desired);
    forall k | 0 <= k < |d.hooks| ensures Rewritten(d, desired, d.hooks[k]) == d.hooks[k] {
      var event := d.hooks[k].event;
      FirstAndLast(desired, event);
      if i :| 0 <= i < |desired| && desired[i].event == event { assert Holds(d, desired, desired[i].event); }
    }
    assert RewrittenAll(d, desired) == d.hooks;
    assert d.hooks + [] == d.hooks;
  }

  lemma {:induction false} NothingToAdd(d: Device, desired: seq<DesiredHook>)
    requires forall i :: 0 <= i < |desired| ==> FirstWith(d.hooks, desired[i].event).Some? || |d.hooks| >= d.slots
    ensures Added(d, desired) == []
  {
    hide FirstWith, Take;
    if desired != [] {
      assert forall i :: 0 <= i < |desired| - 1 ==> desired[..|desired| - 1][i] == desired[i];
      NothingToAdd(d, desired[..|desired| - 1]);
    }
  }

  /** A stable sensor comes out of a run as it went in. */
  lemma StableStays(d: Device, desired: seq<DesiredHook>)
    requires Answers(d) && UniqueIds(d) && Stable(d, desired)
    ensures WireHooks(d, desired).device == d
  {
    hide MissingUrls, WriteAll, FillAll, Holds, UniqueIds, Extends, AllCarried;
    assert Listed(d) == d && Heard(d) == d.hooks;
    StableWrites(d, desired);
    var gaps := MissingUrls(d.hooks, desired);
    FillAllCarries(d, gaps);
    ExtendsKeeps(d, FillAll(d, gaps));
  }

  /** What a run leaves as the first hook of a wanted event. */
  lemma {:induction false} AfterWiring(d: Device, desired: seq<DesiredHook>, event: string)
    requires Answers(d) && UniqueIds(d) && FirstUrls(desired, event).Some?
    ensures var e := WireHooks(d, desired).device;
      var first := FirstWith(e.hooks, event);
      match FirstWith(d.hooks, event)
      case Some(h) => first == Some(Rewritten(d, desired, h))
      case None =>
        && (first.None? ==> |e.hooks| >= d.slots)
        && (|d.hooks| >= d.slots ==> first.None?)
        && (first.Some? ==> first.value.event == event && first.value.enabled)
        && (first.Some? && |d.hooks| + |desired| <= d.slots ==>
              first.value.urls == Take(FirstUrls(desired, event).value, d.keep))
  {
    hide WireHooks, WriteAll, FirstWith, FirstUrls, Rewritten, RewrittenAll, Take, UniqueIds;
    var e, added := WireHooks(d, desired).device, Added(d, desired);
    var written := WriteAll(d, d.hooks, desired);
    WritesAre(d, desired);
    AddedAre(d, desired);
    MissingOnlyWhenFull(d, desired);
    ExtendsKeeps(written, e);
    FirstOfRewritten(d, desired, event);
    FirstOfMore(RewrittenAll(d, desired), added, event);
    FirstOfMore(written.hooks, e.hooks[|written.hooks|..], event);
    if FirstWith(d.hooks, event).None? {
      FirstOfAdded(d, desired, event);
      NoFirst(event);
    }
  }

  lemma {:induction false} NoFirst(event: string)
    ensures FirstWith([], event).None?
  {
  }

  lemma IdsStay(d: Device, desired: seq<DesiredHook>)
    requires Answers(d) && UniqueIds(d)
    ensures var e := WireHooks(d, desired).device; Answers(e) && UniqueIds(e) && e.keep == d.keep && e.slots == d.slots
    ensures |WireHooks(d, desired).device.hooks| >= |d.hooks|
  {
    hide WireHooks, WriteAll, UniqueIds, Extends;
    var written, added := WriteAll(d, d.hooks, desired), Added(d, desired);
    WritesAre(d, desired);
    AddedAre(d, desired);
    MissingOnlyWhenFull(d, desired);
    ExtendsKeeps(written, WireHooks(d, desired).device);
    forall k | 0 <= k < |d.hooks| ensures RewrittenAll(d, desired)[k].id == d.hooks[k].id {
      SameId(d, desired, d.hooks[k]);
    }
    IdsOf(d, RewrittenAll(d, desired), added, written);
    IdsExtend(written, WireHooks(d, desired).device);
  }

  lemma IdsOf(d: Device, kept: seq<Hook>, added: seq<Hook>, written: Device)
    requires UniqueIds(d) && |kept| == |d.hooks| && forall k :: 0 <= k < |kept| ==> kept[k].id == d.hooks[k].id
    requires forall k :: 0 <= k < |added| ==> added[k].id == d.nextId + k
    requires written.hooks == kept + added && written.nextId == d.nextId + |added|
    ensures UniqueIds(written)
  {
  }

  lemma IdsExtend(d: Device, f: Device)
    requires Extends(d, f) && UniqueIds(d)
    ensures UniqueIds(f)
  {
    assert forall i :: 0 <= i < |d.hooks| ==> f.hooks[i] == f.hooks[..|d.hooks|][i] == d.hooks[i];
  }

  lemma SameId(d: Device, desired: seq<DesiredHook>, h: Hook)
    ensures Rewritten(d, desired, h).id == h.id
  {
  }

  /** A hook once rewritten stays as it is under the same rewriting. */
  lemma {:induction false} RewrittenTwice(d: Device, e: Device, desired: seq<DesiredHook>, h: Hook)
    requires d.keep == e.keep && LastUrls(desired, h.event).Some?
    requires FirstWith(d.hooks, h.event) == Some(h) && FirstWith(e.hooks, h.event) == Some(Rewritten(d, desired, h))
    ensures Rewritten(e, desired, Rewritten(d, desired, h)) == Rewritten(d, desired, h)
  {
    hide Merge, Take, FirstWith, LastUrls;
    MergeIsStable(LastUrls(desired, h.event).value, h.urls, d.keep);
  }

  lemma {:induction false} FirstHasEvent(hooks: seq<Hook>, event: string)
    ensures FirstWith(hooks, event).Some? ==> FirstWith(hooks, event).value.event == event
  {
    if FirstWith(hooks, event).Some? { var i := FirstIsThere(hooks, event); }
  }

  lemma {:induction false} SecondRunHolds(d: Device, desired: seq<DesiredHook>, event: string)
    requires Answers(d) && UniqueIds(d) && FirstUrls(desired, event).Some?
    ensures var once := WireHooks(d, desired).device;
      Holds(WireHooks(once, desired).device, desired, event)
  {
    hide WireHooks, FirstWith, Rewritten, FirstUrls, LastUrls, Take, UniqueIds;
    var once := WireHooks(d, desired).device;
    var twice := WireHooks(once, desired).device;
    IdsStay(d, desired);
    IdsStay(once, desired);
    FirstAndLast(desired, event);
    AfterWiring(d, desired, event);
    AfterWiring(once, desired, event);
    FirstHasEvent(once.hooks, event);
    if FirstWith(once.hooks, event).Some? {
      RewrittenTwice(once, twice, desired, FirstWith(once.hooks, event).value);
    }
  }

  /**
   Whatever is wanted, and however often an event is: a sensor that answers is left by a third run as the
   second left it - no hook rewritten, none created - and the third run says what the second said.
   */
  lemma ThirdRunIsSecond(d: Device, desired: seq<DesiredHook>)
    requires Answers(d) && UniqueIds(d)
    ensures var twice := WireHooks(WireHooks(d, desired).device, desired);
      WireHooks(twice.device, desired) == twice
  {
    hide WireHooks, FirstUrls, MissingUrls, Holds, UniqueIds, Outside, AllUrls, Extends;
    var once := WireHooks(d, desired).device;
    var twice := WireHooks(once, desired).device;
    IdsStay(d, desired);
    IdsStay(once, desired);
    forall i | 0 <= i < |desired| ensures Holds(twice, desired, desired[i].event) {
      FirstAndLast(desired, desired[i].event);
      SecondRunHolds(d, desired, desired[i].event);
    }
    MissingOnlyWhenFull(once, desired);
    StableStays(twice, desired);
    MissingOnlyWhenFull(twice, desired);
  }

  /**
   An event settles in one run: the sensor has a hook for it already, or the last list wanted for it, merged
   with what the sensor keeps of the first, leaves just what it keeps of the first.
   */
  predicate SettlesInOne(d: Device, desired: seq<DesiredHook>, event: string)
    requires FirstUrls(desired, event).Some? && LastUrls(desired, event).Some?
  {
    FirstWith(d.hooks, event).Some? ||
    var first := Take(FirstUrls(desired, event).value, d.keep);
    Take(Merge(LastUrls(desired, event).value, first), d.keep) == first
  }

  ghost predicate AllSettleInOne(d: Device, desired: seq<DesiredHook>) {
    forall event :: FirstUrls(desired, event).Some? && LastUrls(desired, event).Some? ==> SettlesInOne(d, desired, event)
  }

  lemma {:induction false} HoldsIffSettles(d: Device, desired: seq<DesiredHook>, event: string)
    requires Answers(d) && UniqueIds(d) && |d.hooks| + |desired| <= d.slots
    requires FirstUrls(desired, event).Some? && LastUrls(desired, event).Some?
    ensures var once := WireHooks(d, desired).device;
      && FirstWith(once.hooks, event).Some?
      && (SettlesInOne(d, desired, event) <==>
            Rewritten(once, desired, FirstWith(once.hooks, event).value) == FirstWith(once.hooks, event).value)
  {
    hide WireHooks, FirstWith, FirstUrls, LastUrls, Take, Merge, UniqueIds;
    var once := WireHooks(d, desired).device;
    IdsStay(d, desired);
    FirstHasEvent(d.hooks, event);
    OneGoesIn(d, desired, event);
    AfterWiring(d, desired, event);
    if FirstWith(d.hooks, event).Some? {
      RewrittenTwice(d, once, desired, FirstWith(d.hooks, event).value);
    }
  }

  /** A wanted event has a hook after a run with room for the writes. */
  lemma {:induction false} OneGoesIn(d: Device, desired: seq<DesiredHook>, event: string)
    requires Answers(d) && UniqueIds(d) && |d.hooks| + |desired| <= d.slots && FirstUrls(desired, event).Some?
    ensures FirstWith(WireHooks(d, desired).device.hooks, event).Some?
  {
    hide WireHooks, WriteAll, FirstWith, Rewritten, RewrittenAll, Take, UniqueIds, FirstUrls;
    var e, written := WireHooks(d, desired).device, WriteAll(d, d.hooks, desired);
    WritesAre(d, desired);
    MissingOnlyWhenFull(d, desired);
    ExtendsKeeps(written, e);
    FirstOfRewritten(d, desired, event);
    FirstOfMore(RewrittenAll(d, desired), Added(d, desired), event);
    FirstOfMore(written.hooks, e.hooks[|written.hooks|..], event);
    if FirstWith(d.hooks, event).None? {
      AddedForAll(d, desired, event);
    }
  }

  lemma {:induction false} AddedForAll(d: Device, desired: seq<DesiredHook>, event: string)
    requires FirstWith(d.hooks, event).None? && FirstUrls(desired, event).Some? && |d.hooks| + |desired| <= d.slots
    ensures FirstWith(Added(d, desired), event).Some?
  {
    hide Take;
    var front := desired[..|desired| - 1];
    AddedAre(d, front);
    assert Added(d, desired) == Added(d, front) + Added(d, desired)[|Added(d, front)|..];
    FirstOfMore(Added(d, front), Added(d, desired)[|Added(d, front)|..], event);
    if FirstUrls(front, event).Some? { AddedForAll(d, front, event); }
  }

  /**
   Wiring twice is wiring once exactly when every wanted event settles in one run. With room for it, a
   second run leaves a sensor that answers as the first did, and says the same, if and only if so.
   */
  lemma WiringTwiceIsWiringOnceIff(d: Device, desired: seq<DesiredHook>)
    requires Answers(d) && UniqueIds(d) && HasRoom(d, desired)
    ensures WireHooks(WireHooks(d, desired).device, desired) == WireHooks(d, desired) <==> AllSettleInOne(d, desired)
  {
    hide WireHooks, FirstUrls, LastUrls, MissingUrls, UniqueIds, Outside, AllUrls, Extends, SettlesInOne, FirstWith, Rewritten;
    var once := WireHooks(d, desired).device;
    IdsStay(d, desired);
    NothingStaysMissing(d, desired);
    MissingOnlyWhenFull(d, desired);
    if AllSettleInOne(d, desired) {
      forall i | 0 <= i < |desired| ensures Holds(once, desired, desired[i].event) {
        FirstAndLast(desired, desired[i].event);
        HoldsIffSettles(d, desired, desired[i].event);
      }
      StableStays(once, desired);
      MissingOnlyWhenFull(once, desired);
    } else {
      var event :| FirstUrls(desired, event).Some? && LastUrls(desired, event).Some? && !SettlesInOne(d, desired, event);
      HoldsIffSettles(d, desired, event);
      AfterWiring(once, desired, event);
    }
  }

  /** With one wanted list per event a second run changes nothing. */
  lemma WiringTwiceIsWiringOnce(d: Device, desired: seq<DesiredHook>)
    requires Answers(d) && UniqueIds(d) && HasRoom(d, desired) && DistinctEvents(desired)
    ensures WireHooks(WireHooks(d, desired).device, desired) == WireHooks(d, desired)
  {
    hide WireHooks, FirstWith, FirstUrls, LastUrls, Take, Merge, UniqueIds;
    forall event | FirstUrls(desired, event).Some? && LastUrls(desired, event).Some?
      ensures SettlesInOne(d, desired, event)
    {
      FirstIsLast(desired, event);
      NothingMerged(LastUrls(desired, event).value);
      MergeIsStable(LastUrls(desired, event).value, [], d.keep);
    }
    WiringTwiceIsWiringOnceIff(d, desired);
  }

  lemma {:induction false} NothingMerged(urls: seq<string>)
    ensures Merge(urls, []) == urls
  {
  }

  lemma {:induction false} FirstIsLast(desired: seq<DesiredHook>, event: string)
    requires DistinctEvents(desired)
    ensures FirstUrls(desired, event) == LastUrls(desired, event)
  {
    if desired != [] {
      var front := desired[..|desired| - 1];
      FirstIsLast(front, event);
      FirstAndLast(front, event);
      assert forall i :: 0 <= i < |front| ==> front[i] == desired[i];
    }
  }

  /** One event wanted as `[a]` and then as `[b]` on a bare sensor: the second run turns `[a]` into `[b, a]`. */
  lemma RepeatedEventsAreRewritten(d: Device, e: string, a: string, b: string)
    requires a != b && d == Device(2, 8, [], 0, [])
    ensures var desired := [DesiredHook(e, [a]), DesiredHook(e, [b])];
      && Answers(d) && UniqueIds(d) && HasRoom(d, desired)
      && WireHooks(WireHooks(d, desired).device, desired) != WireHooks(d, desired)
  {
    hide WireHooks;
    var x, y := DesiredHook(e, [a]), DesiredHook(e, [b]);
    var desired := [x, y];
    assert desired[..1] == [x] && [x][..0] == [] && [a][..0] == [];
    assert AllUrls([x]) == [] + [a] && AllUrls(desired) == [a] + [b];
    assert [] + [x] == [x] && [x] + [y] == desired;
    LastOfMore([], x, e);
    LastOfMore([x], y, e);
    assert Merge([b], [a]) == [b, a] && [b, a] != [a];
    assert !SettlesInOne(d, desired, e);
    WiringTwiceIsWiringOnceIff(d, desired);
  }
}
