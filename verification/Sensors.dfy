/**
 Wiring a sleepy sensor: write one hook per event, read back, give every dropped url a hook of its own,
 read back again. The device may keep only the first urls of a hook, and any call may fail.
 */
module SensorWiring {
  import opened Prelude

  datatype Hook = Hook(id: nat, event: string, enabled: bool, urls: seq<string>)

  datatype DesiredHook = DesiredHook(event: string, urls: seq<string>)

  /** What becomes of a call: it works, it never arrives, or it works and its answer is lost. */
  datatype Fate = Answered | NeverArrived | AnswerLost

  /**
   The sensor as the hub meets it: it keeps the first `keep` urls of a hook and holds at most `slots`
   hooks. `fates` are those of the calls to come; past their end every call is answered.
   */
  datatype Device = Device(keep: nat, slots: nat, hooks: seq<Hook>, nextId: nat, fates: seq<Fate>)

  function NextFate(fates: seq<Fate>): Fate {
    if fates == [] then Answered else fates[0]
  }

  function LaterFates(fates: seq<Fate>): seq<Fate> {
    if fates == [] then [] else fates[1..]
  }

  function Take<T>(s: seq<T>, k: nat): seq<T> {
    if |s| <= k then s else s[..k]
  }

  function Rewrite(hooks: seq<Hook>, id: nat, urls: seq<string>): seq<Hook> {
    if hooks == [] then []
    else [if hooks[0].id == id then hooks[0].(enabled := true, urls := urls) else hooks[0]] + Rewrite(hooks[1..], id, urls)
  }

  function Listed(d: Device): Device {
    d.(fates := LaterFates(d.fates))
  }

  /** What a listing tells the hub: nothing, unless it is answered. */
  function Heard(d: Device): seq<Hook> {
    if NextFate(d.fates) == Answered then d.hooks else []
  }

  function Updated(d: Device, id: nat, urls: seq<string>): Device {
    d.(fates := LaterFates(d.fates),
       hooks := if NextFate(d.fates) == NeverArrived then d.hooks else Rewrite(d.hooks, id, Take(urls, d.keep)))
  }

  function Created(d: Device, event: string, urls: seq<string>): Device {
    if NextFate(d.fates) == NeverArrived || |d.hooks| >= d.slots then d.(fates := LaterFates(d.fates))
    else
      d.(fates := LaterFates(d.fates),
         hooks := d.hooks + [Hook(d.nextId, event, true, Take(urls, d.keep))],
         nextId := d.nextId + 1)
  }

  // --- What is wanted and what is carried -----------------------------------------------------------------------

  function FirstWith(hooks: seq<Hook>, event: string): Option<Hook> {
    if hooks == [] then None
    else if hooks[0].event == event then Some(hooks[0])
    else FirstWith(hooks[1..], event)
  }

  predicate Carries(hooks: seq<Hook>, event: string, url: string) {
    exists i :: 0 <= i < |hooks| && hooks[i].event == event && url in hooks[i].urls
  }

  /** The urls that `hooks` do not carry under `event`, in order. */
  function NotCarried(hooks: seq<Hook>, event: string, urls: seq<string>): seq<string> {
    if urls == [] then []
    else
      NotCarried(hooks, event, urls[..|urls| - 1]) +
      (if Carries(hooks, event, Last(urls)) then [] else [Last(urls)])
  }

  function MissingUrls(hooks: seq<Hook>, desired: seq<DesiredHook>): seq<DesiredHook> {
    if desired == [] then []
    else
      var d := Last(desired);
      var urls := NotCarried(hooks, d.event, d.urls);
      MissingUrls(hooks, desired[..|desired| - 1]) + (if urls == [] then [] else [DesiredHook(d.event, urls)])
  }

  /** `base` first, then what `extra` adds to it, each once. */
  function Merge(base: seq<string>, extra: seq<string>): seq<string> {
    if extra == [] then base
    else
      var m := Merge(base, extra[..|extra| - 1]);
      if Last(extra) in m then m else m + [Last(extra)]
  }

  function AllUrls(desired: seq<DesiredHook>): seq<string> {
    if desired == [] then [] else AllUrls(desired[..|desired| - 1]) + Last(desired).urls
  }

  function Outside(urls: seq<string>, gone: seq<string>): seq<string> {
    if urls == [] then []
    else Outside(urls[..|urls| - 1], gone) + (if Last(urls) in gone then [] else [Last(urls)])
  }

  // --- The protocol ------------------------------------------------------------------------------------------------

  /** Write one desired hook, over the hook the read-back `seen` shows for its event, or as a new one. */
  function WriteOne(d: Device, seen: seq<Hook>, want: DesiredHook): Device {
    var existing := FirstWith(seen, want.event);
    if existing.Some? then Updated(d, existing.value.id, Merge(want.urls, existing.value.urls))
    else Created(d, want.event, want.urls)
  }

  function WriteAll(d: Device, seen: seq<Hook>, desired: seq<DesiredHook>): Device {
    if desired == [] then d
    else WriteOne(WriteAll(d, seen, desired[..|desired| - 1]), seen, Last(desired))
  }

  function FillOne(d: Device, event: string, urls: seq<string>): Device {
    if urls == [] then d
    else Created(FillOne(d, event, urls[..|urls| - 1]), event, [Last(urls)])
  }

  function FillAll(d: Device, gaps: seq<DesiredHook>): Device {
    if gaps == [] then d
    else FillOne(FillAll(d, gaps[..|gaps| - 1]), Last(gaps).event, Last(gaps).urls)
  }

  datatype Wired = Wired(device: Device, confirmed: seq<string>, missing: seq<string>)

  function WireHooks(d: Device, desired: seq<DesiredHook>): Wired {
    var written := WriteAll(Listed(d), Heard(d), desired);
    var gaps := MissingUrls(Heard(written), desired);
    var repaired := FillAll(Listed(written), gaps);
    var end := if gaps == [] then Listed(written) else Listed(repaired);
    var left := if gaps == [] then [] else MissingUrls(Heard(repaired), desired);
    Wired(end, Outside(AllUrls(desired), AllUrls(left)), AllUrls(left))
  }

  // --- The objects --------------------------------------------------------------------------------------------------

  class Sensor {
    const keep: nat
    const slots: nat
    var hooks: seq<Hook>
    var nextId: nat
    var fates: seq<Fate>

    function State(): Device
      reads this
    {
      Device(keep, slots, hooks, nextId, fates)
    }

    constructor (d: Device)
      ensures State() == d
    {
      keep, slots, hooks, nextId, fates := d.keep, d.slots, d.hooks, d.nextId, d.fates;
    }

    /** Read the hooks back; an unanswered listing reads as none. */
    method ReadHooks() returns (seen: seq<Hook>)
      modifies this`fates
      ensures State() == Listed(old(State())) && seen == Heard(old(State()))
    {
      seen := if NextFate(fates) == Answered then hooks else [];
      fates := LaterFates(fates);
    }

    method Update(id: nat, urls: seq<string>)
      modifies this`hooks, this`fates
      ensures State() == Updated(old(State()), id, urls)
    {
      if NextFate(fates) != NeverArrived {
        hooks := Rewrite(hooks, id, Take(urls, keep));
      }
      fates := LaterFates(fates);
    }

    method Create(event: string, urls: seq<string>)
      modifies this`hooks, this`nextId, this`fates
      ensures State() == Created(old(State()), event, urls)
    {
      if NextFate(fates) != NeverArrived && |hooks| < slots {
        hooks := hooks + [Hook(nextId, event, true, Take(urls, keep))];
        nextId := nextId + 1;
      }
      fates := LaterFates(fates);
    }
  }

  /** The hub's side: what the calls answered is not looked at; only read-backs count. */
  method WireSensor(sensor: Sensor, desired: seq<DesiredHook>) returns (confirmed: seq<string>, missing: seq<string>)
    modifies sensor
    ensures Wired(sensor.State(), confirmed, missing) == WireHooks(old(sensor.State()), desired)
  {
    var seen := sensor.ReadHooks();
    WriteHooks(sensor, seen, desired);
    seen := sensor.ReadHooks();
    var gaps := MissingUrls(seen, desired);
    if gaps != [] {
      FillGaps(sensor, gaps);
      seen := sensor.ReadHooks();
      gaps := MissingUrls(seen, desired);
    }
    missing := AllUrls(gaps);
    confirmed := Outside(AllUrls(desired), missing);
  }

  /** One write for each wanted hook, keeping what the sensor's own hook for the event already carries. */
  method WriteHooks(sensor: Sensor, seen: seq<Hook>, desired: seq<DesiredHook>)
    modifies sensor
    ensures sensor.State() == WriteAll(old(sensor.State()), seen, desired)
  {
    hide Updated, Created, FirstWith, Merge;
    for i := 0 to |desired|
      invariant sensor.State() == WriteAll(old(sensor.State()), seen, desired[..i])
    {
      assert desired[..i + 1][..i] == desired[..i];
      var want := desired[i];
      var existing := FirstWith(seen, want.event);
      if existing.Some? {
        var merged := MergeUrls(want.urls, existing.value.urls);
        sensor.Update(existing.value.id, merged);
      } else {
        sensor.Create(want.event, want.urls);
      }
    }
    assert desired[..|desired|] == desired;
  }

  method MergeUrls(base: seq<string>, extra: seq<string>) returns (merged: seq<string>)
    ensures merged == Merge(base, extra)
  {
    merged := base;
    for j := 0 to |extra|
      invariant merged == Merge(base, extra[..j])
    {
      assert extra[..j + 1][..j] == extra[..j];
      if extra[j] !in merged {
        merged := merged + [extra[j]];
      }
    }
    assert extra[..|extra|] == extra;
  }

  /** One hook of its own for each url the sensor dropped. */
  method FillGaps(sensor: Sensor, gaps: seq<DesiredHook>)
    modifies sensor
    ensures sensor.State() == FillAll(old(sensor.State()), gaps)
  {
    hide Created;
    for i := 0 to |gaps|
      invariant sensor.State() == FillAll(old(sensor.State()), gaps[..i])
    {
      assert gaps[..i + 1][..i] == gaps[..i];
      ghost var filled := sensor.State();
      for j := 0 to |gaps[i].urls|
        invariant sensor.State() == FillOne(filled, gaps[i].event, gaps[i].urls[..j])
      {
        assert gaps[i].urls[..j + 1][..j] == gaps[i].urls[..j];
        sensor.Create(gaps[i].event, [gaps[i].urls[j]]);
      }
      assert gaps[i].urls[..|gaps[i].urls|] == gaps[i].urls;
    }
    assert gaps[..|gaps|] == gaps;
  }
}
