# On-site daemon: verified decision layer

The daemon on the boat decides when water flows, when an owner is told and when a report is sent. Its decision
layer takes a time and an observation and gives a new state and an action. This project models that layer in
Dafny and proves what holds over every input and every run.

Each group of modules has a specification of one step on plain values, the objects and loops of the source proved
to make exactly that step, and the theorems, told where possible from the history of inputs alone.

- **Valves.** `Calendar` (day numbers and dates), `Ledger` (litres per UTC day), `Cycle` (the run machine),
  `Runtime` (per-valve state under every call), `Reopens`, `Cutoff`, `Handover`, `Delivered` (safety, landing, timing
  and litres over whole runs of calls), `CloseWatch` (confirm, retry, tell, give up), `GatewayWatch`.
- **Position.** `Geofence` (three rings, trips, sends), `Rings` (the rings refine a history), `Trips`, `Sends`.
- **Cadence.** `Cadence` (heartbeat clock, change gate, alarm line, reading gate), `Heartbeats`, `Alarms`, `Chatter`,
  `RouterHealth`.
- **Keys.** `KeySync` (the cache), `KeySyncRuns` (against the cloud it follows), `MemberSig` (the signature).
- **Devices and wire.** `Sensors` (a lossy sensor and the protocol), `SensorRuns`, `Utf8`, `Batch`, `Relay`,
  `RelayRuns`.

The loops that call these machines (daemon/src/hub_server.rs) appear as timing assumptions: how late a poll may be,
how long an attempt may take, how often a timer ticks. Distance and hash are arbitrary functions; floats are reals.

What the proofs say about the code that its comments do not:

- A close of a run marked for a flood reopens the valve if the run is marked again with Timer
  (`Reopens.TimerMarkReopens`); the stop mark is the last one given. No caller in the repository marks a stop with Timer.
- At the default cadence a half-open relay socket falls at the fourth tick after the one last echoed, an hour and not
  the 45 minutes of daemon/src/hub_relay.rs:403-411 (`RelayRuns.FallsAtTheFourthTick`).
- The doubling retry of daemon/src/cadence.rs:157-162 has two values only, 30 s and 60 s; and the retry of a failed
  beat applies only once its signature has been delivered, before that every look tries
  (`Heartbeats.NewSignatureIsAlwaysTried`).
- The change gate is bounded by the total variation when marks carry the value of their time, and can send an
  unmoved value when they do not
  (`Chatter.SendsWithinVariation`, `Chatter.StaleMarksSendAgain`).
- The `Safety` reason of daemon/src/key_sync.rs:174-185 is announced but never stored as the want
  (`KeySyncRuns.SafetyIsNeverWanted`), so daemon/src/key_sync.rs:194-196 clears nothing.
- Wiring a sensor twice need not be wiring it once when an event is wanted twice
  (`SensorRuns.WiringTwiceIsWiringOnceIff`); wiring it three times is always wiring it twice
  (`SensorRuns.ThirdRunIsSecond`).
- The ledger keeps one day: a clock that steps back over midnight loses the counted litres of the day before that
  step (`Ledgers.LedgerConservesIff`).
- Five heartbeats before the cloud's ten-minute alarm are not always sure. At the loop's five-second sleep and with
  the request limit of twenty seconds four are; five only from a clock with no failure behind it and a loop at most
  116 ms late at a look (`Heartbeats.FiveTriesAtTheTick`, `Heartbeats.FourTriesHoweverSlow`).
- A battery bank between 12.3 V and 23.6 V is reported at every crossing of 18 V, because its lines double and halve
  with the reading, so its sends have no bound in its movement alone (`Chatter.CrossingIsReported`,
  `Chatter.AnyNumberOfSends`) but have one with the crossings (`Chatter.BankSendsAtMost`).

## Model

| member | source | states |
|---|---|---|
| `Calendar.CivilIsDate` | daemon/src/cycle.rs:373-384 | every integer day number, negative ones included, gives a real date of the proleptic Gregorian calendar (RFC 3339, section 5.7 and Appendix C) |
| `Calendar.DayZeroIsTheEpoch` | daemon/src/cycle.rs:373-384 | day 0 is 1970-01-01 |
| `Calendar.CivilSuccessor` | daemon/src/cycle.rs:373-384 | day z + 1 is the calendar successor of day z, across month ends, leap days, centuries and eras |
| `Calendar.DaysOfCivil` | daemon/src/cycle.rs:373-384 | counting the days back from the date a day number gives returns that number |
| `Calendar.CivilOfDays` | daemon/src/cycle.rs:373-384 | every real date is given, by the day number that counts up to it: the conversion is a bijection onto the real dates |
| `Calendar.CivilInjective` | daemon/src/cycle.rs:373-384 | two day numbers never share a date |
| `Calendar.DateTextInjective` | daemon/src/cycle.rs:365-370 | the written date names one date only, whatever the sign or length of its year |
| `Calendar.DateTextReads` | daemon/src/cycle.rs:365-370 | up to the year 9999 the text is ten long: year, month and day in four, two and two digits with dashes between |
| `Calendar.DayKeyIsUtcDay` | daemon/src/cycle.rs:365-370 | two instants in ms have the same day key if and only if they fall on the same day of 86 400 000 ms counted from the epoch |
| `Ledgers.ApplyCarries` | daemon/src/cycle.rs:386-394 | litres carry over exactly when the end falls on the UTC day of the ledger; a washdown adds nothing, a normal run or a tank fill its whole volume |
| `Ledgers.WashdownsCountForNothing` | daemon/src/cycle.rs:386-394 | taking every washdown out of a history leaves the litres of every day as they were |
| `Ledgers.LedgerIsTheLastStretch` | daemon/src/cycle.rs:386-394 | over any ends in any order the ledger holds the day of the last end and exactly the counted litres of the last stretch of ends on that day |
| `Ledgers.LedgerConservesIff` | daemon/src/cycle.rs:386-394 | the ledger holds every counted litre of the day of the last end if and only if the ends of that day before the last stretch count for nothing |
| `Ledgers.LedgerConserves` | daemon/src/cycle.rs:386-394 | so over any ends in order of time the ledger holds the day of the last end and exactly the volumes of the ends of that day whose mode is not washdown |
| `Deliveries.ClosesExactly` | daemon/src/cycle.rs:259-285 | a closing reading ends the run as it was, at its instant, with the last litres read; the reason is the mark, else the cap reached, else the last minute of its time, else unknown |
| `Deliveries.LedgerHoldsWhatWasDelivered` | daemon/src/cycle.rs:199-394 | over any calls to the runtime, with ends in order of time: the ledger of a valve holds the day of its last end and every litre its normal runs and tank fills had read by their ends that day, told from the opens and the readings alone |
| `Ledgers.ClockStepBackLosesLitres` | daemon/src/cycle.rs:386-394 | an input that loses litres: an end dated a day earlier between two ends of one day |
| `ValveRuntime.Runtime.constructor` | daemon/src/linktap_runtime.rs:79-88 | every named valve starts idle, owing nothing |
| `ValveRuntime.Runtime.NoteHubOpen` | daemon/src/linktap_runtime.rs:119-139 | an open is accepted exactly for a watched valve and a lawful shape, and then replaces the run of that valve alone |
| `ValveRuntime.Runtime.PollHint` | daemon/src/linktap_runtime.rs:147-165 | the loop over the valves finds the specified hint, which `Handover.HintAimsAtTheWindow` states in milliseconds |
| `ValveRuntime.Runtime.TakePendingOpen` | daemon/src/linktap_runtime.rs:194-196 | returns the owed reopen and clears it, on that valve alone |
| `ValveRuntime.Runtime.ApplyProfiles` | daemon/src/linktap_runtime.rs:216-223 | replaces the profiles of the watched valves named and of no other |
| `ValveRuntime.Runtime.Observe` | daemon/src/linktap_runtime.rs:228-291 | one reading steps the machine, decides the reopen, marks the handover and enters an end in the ledger, for that valve alone |
| `ValveRuntime.Runtime.NoteStop` | daemon/src/linktap_runtime.rs:412-418 | marks the running cycle of that valve alone |
| `ValveRuntime.Runtime.NoteStopAbandoned` | daemon/src/linktap_runtime.rs:442-450 | releases the mark exactly on a capped run that is no washdown and carries one, and says so |
| `Reopens.ShapesStayLawful` | daemon/src/cycle.rs:152-172 | over any calls a washdown carries no cap, and only a hub washdown is told to resume |
| `Reopens.ReopensExactly` | daemon/src/linktap_runtime.rs:257-291 | an observation creates a reopen if and only if it is of an unmarked resuming hub washdown with 20 s or less to go, or ends with Timer a resuming washdown or a normal run under auto-restart; and it asks for the duration and the cap of the profile |
| `Reopens.ProfileIsFieldByField` | daemon/src/linktap_runtime.rs:96-112 | each field of a profile is the one the cloud set, or else that of the hub |
| `Reopens.HeldStep` | daemon/src/linktap_runtime.rs:257-291 | one call against a run marked for another reason than Timer: nothing is created, and the run stays marked or has closed |
| `Reopens.MarkedRunNeverReopens` | daemon/src/linktap_runtime.rs:257-291 | once a running cycle carries a non-Timer mark no observation of that run creates a reopen, its closing one included, under any interleaving of calls that neither replaces, re-marks as Timer, nor (capped runs) abandons it |
| `Reopens.TimerMarkReopens` | daemon/src/linktap_runtime.rs:412-418 | the re-marking clause is needed: a later Timer mark lifts a flood mark and the close reopens the valve |
| `Reopens.OwedWasCreatedSince` | daemon/src/linktap_runtime.rs:257-291 | a reopen owed now and not earlier was decided since, by the last creating observation, exactly as it stands |
| `Reopens.TakenWasDecided` | daemon/src/linktap_runtime.rs:194-196 | every reopen taken was decided by an earlier observation of that valve, and is what it decided |
| `Reopens.TakenHaveDistinctSources` | daemon/src/linktap_runtime.rs:194-196 | two reopens taken come from two different observations, each between the previous take and its own |
| `Reopens.TakesComeFromLawfulObservations` | daemon/src/linktap_runtime.rs:194-291 | from idle valves that owe nothing, over any calls: every reopen taken is what an earlier observation decided, one in an unmarked lead window or one that ended a run by its timer, and no two come from one observation |
| `Cutoff.StopsAreBounded` | daemon/src/cycle.rs:230-283 | over any calls from idle valves, Stop actions (plus cutoffs still armed) are at most runs begun plus abandons that released a mark |
| `Cutoff.WashdownIsNeverCut` | daemon/src/cycle.rs:230-258 | no reading of a running washdown ever yields a Stop, whatever was called before |
| `Cutoff.StopsExactly` | daemon/src/cycle.rs:217-258 | an observation asks for the Stop if and only if the valve waters, the run is capped and unmarked, and the volume out is within eight seconds of flow of the cap |
| `Cutoff.UnderTriggerUntilStop` | daemon/src/cycle.rs:217-258 | before its Stop a run is unmarked, carries the last volume read, and that volume is short of the cap by eight seconds of flow |
| `Cutoff.WateringIsAdopted` | daemon/src/cycle.rs:176-190 | a reading that finds an idle valve watering begins a normal run, under the duration and the cap of the profile or the remaining time of the gateway |
| `Cutoff.MarkIsPut` | daemon/src/linktap_runtime.rs:412-418 | a mark goes on the running cycle of its valve and on nothing else |
| `Cutoff.MarkIsReleased` | daemon/src/linktap_runtime.rs:442-450 | giving a close up takes the mark off a capped run that is no washdown, and does nothing else |
| `Cutoff.AbandonRearms` | daemon/src/linktap_runtime.rs:442-450 | so the next watering reading at or over the cap asks for another Stop, whatever is called in between about other valves |
| `Cutoff.ProfilesReplace` | daemon/src/linktap_runtime.rs:216-223 | the profiles replace those of the valves they name and change nothing else |
| `Cutoff.AdoptedRunIsCut` | daemon/src/cycle.rs:176-258 | the next watering reading of an adopted run at or over the cap of its profile asks for the Stop, whatever else is called in between |
| `Cutoff.AdoptedRunLands` | daemon/src/cycle.rs:176-258 | an adopted run lands like one of the hub, counting what was out when it was adopted: at most max(cap, that and 8 s of flow) plus one gap of flow |
| `Cutoff.LandsOnTheCap` | daemon/src/cycle.rs:199-258 | a capped hub run whose flow is reported as s and never above it, read at least every g, shut within 8 s of the Stop, has delivered at most max(cap, 8 s of flow) plus g of flow, at every instant |
| `Handover.OpenStartsRun` | daemon/src/cycle.rs:152-172 | an open is accepted exactly for a watched valve and a washdown without a cap or another mode with one, and starts exactly that run |
| `Handover.HandsOverFromTheInstant` | daemon/src/linktap_runtime.rs:257-266 | an awaiting washdown opened at t for D seconds, read watering with no remaining time of the gateway, is handed over exactly from t + 1000 (D - 20) ms on, with the duration and cap of the profile |
| `Handover.GatewayTimeDecides` | daemon/src/cycle.rs:315-329 | where the gateway offers a remaining time, the handover is decided exactly at 20 s of it |
| `Handover.HintAimsAtTheWindow` | daemon/src/linktap_runtime.rs:147-165 | there is a hint exactly when a washdown awaits, never under 5 s; it wakes the loop within a second of the soonest t + 1000 (D - 20), or in 5 s |
| `Handover.NextPassIsEarlyEnough` | daemon/src/linktap_runtime.rs:147-165 | with the valve still awaiting at the hint, the reading after one before t + 1000 (D - 20) comes before t + 1000 (D - 15), and the lag of the loop |
| `Handover.WaitsOutside` | daemon/src/linktap_runtime.rs:228-266 | until a reading falls inside the window the run goes on waiting and no call hands it over, whatever is called about other valves and short of opening or marking this one, while its readings report watering and carry no remaining time of the gateway |
| `Handover.NoPassSkipsTheWindow` | daemon/src/linktap_runtime.rs:147-165 | however many valves, over the calls of a poll loop kept to min(60 s, hint): an awaiting washdown of D > 20 s read before t + 1000 (D - 20) on every pass but the last is handed over by exactly one call, a reading made from that instant on and before t + 1000 (D - 15 + lag) |
| `Handover.OpenedWashdownIsHandedOver` | daemon/src/linktap_runtime.rs:119-291 | the same from the call that opens the washdown |
| `Handover.HandoverHappensOnce` | daemon/src/linktap_runtime.rs:257-266 | once handed over, a valve is not handed over again until another washdown is opened, whatever is called |
| `CloseWatches.DueGrows` | daemon/src/close_watch.rs:195-212 | later attempts are due strictly later |
| `CloseWatches.DueOffsetsAre` | daemon/src/close_watch.rs:195-212 | the first attempt is due at once, the named retries at their offsets, the others at the fixed pace from the last of those |
| `CloseWatches.NextLookIsTheSoonest` | daemon/src/close_watch.rs:239-255 | in any state the caller is to look again at the soonest of the next attempt, the end, and the confirm window and the alert while ahead; in a millisecond if that has passed |
| `CloseWatches.ShutConfirms` | daemon/src/close_watch.rs:220-233 | a look confirms if and only if the valve reports shut, whatever the clock says, and then tells nobody and sends nothing |
| `CloseWatches.WateringDecides` | daemon/src/close_watch.rs:189-233 | a look at a valve still watering tells the owner, retries or gives up exactly by the time since the first attempt |
| `CloseWatches.AttemptsAreBounded` | daemon/src/close_watch.rs:195-233 | for any look times the commands sent stay within what the schedule has room for |
| `CloseWatches.ToldOnce` | daemon/src/close_watch.rs:189-192 | the owner is told at most once, for any look times |
| `CloseWatches.RoomLeft` | daemon/src/close_watch.rs:195-233 | on schedule the room for attempts is used up exactly at the last one |
| `CloseWatches.PunctualLook` | daemon/src/close_watch.rs:220-255 | a look exactly at the announced time reissues exactly at a due time, tells exactly at the alert offset, gives up exactly at the end, comes inside the confirm window, and spends a deadline |
| `CloseWatches.PunctualSends` | daemon/src/close_watch.rs:220-255 | on any schedule, the whole punctual sequence sends exactly at the due times and ends exactly at the give-up offset |
| `CloseWatches.PunctualTells` | daemon/src/close_watch.rs:189-255 | the owner is told on one look, exactly at the alert offset |
| `CloseWatches.PunctualAnswers` | daemon/src/close_watch.rs:239-255 | every command is followed by a look inside the confirm window |
| `CloseWatches.PunctualSpends` | daemon/src/close_watch.rs:239-255 | the looks are strictly later one after another and no more than the deadlines there were: the sequence is finite |
| `CloseWatches.ProductionRun` | daemon/src/close_watch.rs:129-255 | with the production numbers: 34 commands at 0, 5, 10, 20, 40 s and every minute from 100 to 1780 s, the owner told once at 300 s, given up at 1800 s, within 69 looks |
| `CloseWatches.ProductionNeverExceeds34` | daemon/src/close_watch.rs:129-233 | for arbitrary look times the production schedule never sends more than 34 commands |
| `Geofences.Geofence.constructor` | daemon/src/geofence.rs:226-247 | a fresh fence: no watch, nothing counted, nothing sent |
| `Geofences.Geofence.SyncWatch` | daemon/src/geofence.rs:277-293 | adopting a watch is the specified step: a changed signature clears every ring, a disarm owes a final fix |
| `Geofences.Geofence.MarkSent` | daemon/src/geofence.rs:297-299 | only the last sent position changes |
| `Geofences.Geofence.StepAnchor` | daemon/src/geofence.rs:320-335 | the alarm ring steps by the mark the sample makes, and says whether it alarms |
| `Geofences.Geofence.StepWarn` | daemon/src/geofence.rs:336-349 | the warn ring steps by its own mark, and not at all beyond the alarm ring |
| `Geofences.Geofence.StepZone` | daemon/src/geofence.rs:353-372 | the zone ring steps by its own mark, at the streak configured |
| `Geofences.Geofence.StepTrip` | daemon/src/geofence.rs:375-405 | trip detection is the specified step, an unreliable sample breaking both stretches |
| `Geofences.Geofence.DecideSend` | daemon/src/geofence.rs:407-435 | the send decision, with the final fix, the send clock and the deadband |
| `Geofences.Geofence.StepRings` | daemon/src/geofence.rs:319-373 | the three rings of one sample, each by its own mark |
| `Geofences.Geofence.Observe` | daemon/src/geofence.rs:308-436 | one sample is the specified step of the whole fence and gives the specified decision |
| `RingHistory.RingSummarises` | daemon/src/geofence.rs:325-335 | the two fields of a ring are the number of reliable outside samples since the last inside one, and whether they reach the streak |
| `RingHistory.RingAlarmsOnCompletion` | daemon/src/geofence.rs:325-335 | a ring alarms on a sample if and only if that sample completes the streak |
| `RingHistory.OneAlarmPerEpisode` | daemon/src/geofence.rs:325-335 | between two alarms of a ring lies a reliable inside sample |
| `RingHistory.SkipsAreTransparent` | daemon/src/geofence.rs:325-371 | unreliable samples anywhere leave the streak as it would be without them |
| `RingHistory.ArmingClears` | daemon/src/geofence.rs:277-293 | a changed signature starts every ring afresh |
| `RingHistory.RingsFollowMarks` | daemon/src/geofence.rs:319-373 | under one watch signature, circles, radii and sampling varying, each ring of the fence is the ring of its own marks, over any calls since the arm |
| `RingHistory.AlarmsRefineHistory` | daemon/src/geofence.rs:319-373 | for each of the three rings, over any calls since the arm: the alarm is raised at a sample if and only if it completes the streak in the history of marks |
| `RingHistory.AlarmsFromSamples` | daemon/src/geofence.rs:198-373 | the same from the samples alone: the alarm is raised exactly at a reliable sample (hdop at most 5, 4 satellites, 3 intervals old) further out than the radius and its accuracy that is the need-th such since the last reliable one that was not, or the arm; for the warn ring among those inside the alarm circle |
| `RingHistory.AlarmsInTurn` | daemon/src/geofence.rs:319-373 | one sample raises an alarm once, in the order anchor, warning, zone, and never the anchor alarm with its warning |
| `Trips.TripEndsAtRest` | daemon/src/geofence.rs:389-405 | a trip ends only after a stretch of at least 300 s whose every sample was reliable, slow and within 25 m of its first |
| `Trips.RestEndsTheTrip` | daemon/src/geofence.rs:389-405 | a boat under way whose samples are all reliable, slow and within 25 m of one another has its trip ended by a sample 300 s after one that came 300 s after the first |
| `Trips.TripStartsOnTwoSamples` | daemon/src/geofence.rs:379-388 | a trip starts only on two consecutive samples, both reliable, each fast or 50 m from the last sent |
| `Trips.TripStartsExactly` | daemon/src/geofence.rs:379-388 | and on every such pair while not under way |
| `Trips.OnlySamplesMoveTrips` | daemon/src/geofence.rs:277-299 | adopting a watch or marking a position sent leaves trip detection and the send clock alone |
| `Trips.SendsAreSpaced` | daemon/src/geofence.rs:407-424 | while a trip lasts, unleased, with no disarm and no confirmed drag, k sent positions span at least (k - 1) times 300 s |
| `Sends.SendsExactly` | daemon/src/geofence.rs:407-435 | exactly which samples are sent: leased, the fix a disarm owes, the start and end of a trip, on a trip the first and those 300 s after the last, those of a drag, and unarmed at rest those 50 m and twice the accuracy from the last sent |
| `Sends.SendClock` | daemon/src/geofence.rs:407-424 | what starts, restarts and clears the send clock of a trip |
| `Sends.DragsAreTwoSamples` | daemon/src/geofence.rs:319-335 | a drag is two reliable samples outside the anchor circle since the last inside it or the arm |
| `KeySyncs.KeySync.constructor` | daemon/src/key_sync.rs:156-166 | start-up keeps a well-formed signature only, and owes one sync |
| `KeySyncs.KeySync.Due` | daemon/src/key_sync.rs:174-185 | whether a fetch is due and why, after any backoff |
| `KeySyncs.KeySync.NoteReplySig` | daemon/src/key_sync.rs:190-203 | a malformed signature changes nothing, an equal one is proof of freshness, another makes a fetch due |
| `KeySyncs.KeySync.NoteDoorMiss` | daemon/src/key_sync.rs:207-216 | a door miss rings at most once in its gap |
| `KeySyncs.KeySync.NotePushed` | daemon/src/key_sync.rs:220-229 | a pushed set is held and current |
| `KeySyncs.KeySync.AppliedSet` | daemon/src/key_sync.rs:233-243 | which signature a fetched set is held under, and that the failures are over |
| `KeySyncs.KeySync.NotModified` | daemon/src/key_sync.rs:246-253 | the held set is current: nothing is wanted |
| `KeySyncs.KeySync.Failed` | daemon/src/key_sync.rs:257-264 | the held signature and the want stay; the wait told is the doubling backoff |
| `KeySyncRuns.ValidSigIs` | daemon/src/key_sync.rs:71-73 | a signature is 64 characters out of 0 to 9 and a to f |
| `KeySyncRuns.StartsUp` | daemon/src/key_sync.rs:156-166 | at start-up the sync is due, with the signature kept if it is well-formed and a minute to wait after a failure |
| `KeySyncRuns.EqualReplyIsProof` | daemon/src/key_sync.rs:190-203 | a signature equal to the held one restarts the daily clock alone; a malformed or missing one does nothing |
| `KeySyncRuns.AdvertisedIsRemembered` | daemon/src/key_sync.rs:190-203 | a different signature is remembered until a fetch, a confirmation or a push, and makes a fetch wanted if none is |
| `KeySyncRuns.FetchAdopts` | daemon/src/key_sync.rs:233-243 | a fetched set is held under its well-formed ETag, else under the signature last advertised, else under our own |
| `KeySyncRuns.SuccessStartsAfresh` | daemon/src/key_sync.rs:220-253 | a fetch, a confirmation or a push leaves nothing wanted, a day of quiet ahead and a minute to wait after a failure |
| `KeySyncRuns.FetchesFollowChanges` | daemon/src/key_sync.rs:174-264 | from start-up, under any interleaving, successful fetches due to a signature never outnumber the changes of the set and the pushes the hub signs otherwise than the cloud |
| `KeySyncRuns.SignedReplySettlesOrAsks` | daemon/src/key_sync.rs:190-203 | after a signed reply the cache agrees with the cloud or a fetch is due once no backoff holds |
| `KeySyncRuns.OneFetchConverges` | daemon/src/key_sync.rs:220-253 | after the last change, one successful fetch, or a push signed as the cloud signs it, makes the held signature that of the cloud, for good unless a later push is signed otherwise |
| `KeySyncRuns.DeviatingPushIsRepaired` | daemon/src/key_sync.rs:190-229 | a push signed otherwise leaves the cache behind, and the next signed reply makes a fetch due |
| `KeySyncRuns.SafetyIsNeverWanted` | daemon/src/key_sync.rs:174-203 | no run from start-up ever stores the daily refresh as the want |
| `KeySyncRuns.SettledStaysQuiet` | daemon/src/key_sync.rs:174-203 | a settled cache stays settled under replies, and nothing is due within 24 h of the last signed one |
| `KeySyncRuns.DoorMissAsks` | daemon/src/key_sync.rs:207-216 | a door miss a minute or more after the last one that rang makes a fetch due, and none rings within the next minute |
| `KeySyncRuns.DoorMissTooSoon` | daemon/src/key_sync.rs:207-216 | a door miss within a minute of the one that last rang changes nothing |
| `KeySyncRuns.ADayOfSilenceAsks` | daemon/src/key_sync.rs:174-185 | a cache that wants nothing asks exactly from 24 h after its last proof on, after any backoff |
| `KeySyncRuns.WantsAreDueAfterTheBackoff` | daemon/src/key_sync.rs:174-185 | what is wanted is due exactly once no backoff holds |
| `KeySyncRuns.BackoffValues` | daemon/src/key_sync.rs:257-264 | the wait doubles from a minute and is half an hour from the sixth failure on |
| `KeySyncRuns.FailuresAreCounted` | daemon/src/key_sync.rs:257-264 | failures in a row are counted one by one, up to the end of the counter |
| `KeySyncRuns.FailuresBackOff` | daemon/src/key_sync.rs:257-264 | while nothing lands the held signature is untouched and n attempts span at least their n - 1 backoffs, whatever else arrives |
| `KeySyncRuns.OutageCost` | daemon/src/key_sync.rs:257-264 | at most 5 + T/1800 attempts in T seconds of failure |
| `MemberSigs.SignedPairsAre` | daemon/src/key_sync.rs:54-91 | a (digest, role) pair is signed as often as there are members with a key whose role is one of the six signed ones and who have that digest and role |
| `MemberSigs.TextLeqIs` | daemon/src/key_sync.rs:85-91 | the order is that of the first differing character, a prefix first |
| `MemberSigs.SortedIsSorted` | daemon/src/key_sync.rs:85-91 | sorting orders the pairs and keeps them, each as often |
| `MemberSigs.OrderIsUnique` | daemon/src/key_sync.rs:85-91 | a multiset of pairs has one sorted order |
| `MemberSigs.LineFormDecodes` | daemon/src/key_sync.rs:92-98 | the line form can be read back in one way only |
| `MemberSigs.LineFormAt` | daemon/src/key_sync.rs:92-98 | in its place each pair is its digest, a blank, its role and the end of the line |
| `MemberSigs.SignatureIsOfTheListing` | daemon/src/key_sync.rs:85-100 | the signature is the hash of the lines of the signed pairs in order, whatever the list of members |
| `MemberSigs.BuildMemberSetSig` | daemon/src/key_sync.rs:85-100 | the loop that filters, sorts and appends lines computes the specified signature |
| `MemberSigs.SignatureIsCanonical` | daemon/src/key_sync.rs:85-100 | for a hash with 64-hex digests that keeps the two line forms apart, two key lists sign the same if and only if their multisets of (digest, role) over signed members are equal |
| `RouterHealths.RouterHealth.constructor` | daemon/src/router_health.rs:125-132 | a fresh router is reported up, with nothing counted |
| `RouterHealths.RouterHealth.Observe` | daemon/src/router_health.rs:145-173 | one poll is the specified step and verdict |
| `RouterHealths.RouterHealth.Due` | daemon/src/router_health.rs:177-180 | the specified answer, which the members below state in instants |
| `RouterHealths.HealthyIsDueAtItsCadence` | daemon/src/router_health.rs:177-180 | a router last read well is due exactly from its cadence on, one never polled at once |
| `RouterHealths.RetryDelaysAre` | daemon/src/router_health.rs:137-140 | the waits are 5, 10, 20, 40 and then 60 s |
| `RouterHealths.RetriedAt` | daemon/src/router_health.rs:145-173 | a bad run is retried after that wait, but no later than the end of the grace window while not yet down, and not before the last poll was back |
| `RouterHealths.HealthSummarises` | daemon/src/router_health.rs:145-173 | the four fields summarise the bad polls that end the run: how many, and when the first began |
| `RouterHealths.TransitionsAlternate` | daemon/src/router_health.rs:145-173 | down and recovered strictly alternate, starting with down |
| `RouterHealths.BadTailIsBad` | daemon/src/router_health.rs:145-158 | the bad run counted is the longest stretch of bad polls that ends the run |
| `RouterHealths.DownOnFirstEvidence` | daemon/src/router_health.rs:145-173 | a router is reported down at a poll if and only if it is the first of its bad run to come with the evidence: an outage of 45 s measured by the device, or two or more consecutive bad polls spanning 45 s |
| `RouterHealths.HoldsAreShort` | daemon/src/router_health.rs:137-173 | while the verdicts are to hold, the next retry is early enough for the deadline |
| `RouterHealths.FirstDecision` | daemon/src/router_health.rs:137-180 | in a bad run the first verdict that is not to hold is down, by the deadline |
| `RouterHealths.DownByDeadline` | daemon/src/router_health.rs:137-180 | polls that keep within tau of their retry time and take at most L report a bad run begun at s down by s + max(45 s, L) + tau + L |
| `RouterHealths.DownByDeadlineAsking` | daemon/src/router_health.rs:137-180 | the same for a loop that polls within tau of each instant at which it is told a poll is due |
| `RouterHealths.NeverLongUnpolled` | daemon/src/router_health.rs:177-180 | no two polls of such a loop lie further apart than max(cadence, L) + tau |
| `RouterHealths.UnreadIsNeverDown` | daemon/src/router_health.rs:197-228 | a held unread report never counts as a bad sample, and invents no link state |
| `RouterHealths.UnreadKeepsReading` | daemon/src/router_health.rs:197-215 | marking a reading unread leaves every other field as last read, in order |
| `SensorWiring.WireSensor` | daemon/src/sensors.rs:223-255 | the write, read-back and repair loops against the sensor do what the specified protocol does, whatever calls fail |
| `SensorWiring.WriteHooks` | daemon/src/sensors.rs:225-240 | one write for each wanted hook: over the first hook read back for its event with what that carries merged in, or as a new one |
| `SensorWiring.MergeUrls` | daemon/src/sensors.rs:227-234 | the wanted urls, then those already there that are not among them, each once |
| `SensorWiring.FillGaps` | daemon/src/sensors.rs:243-249 | a hook of its own for each url the read-back lacks |
| `SensorRuns.MissingIsUncarried` | daemon/src/sensors.rs:197-211 | a url is reported missing if and only if some event asked for it and the read-back does not carry it under that event |
| `SensorRuns.ConfirmedIsCarried` | daemon/src/sensors.rs:241-255 | whatever calls fail, a confirmed url is on the sensor under every event that asked for it; every url asked for is confirmed or missing, never both |
| `SensorRuns.NoAnswerConfirmsNothing` | daemon/src/sensors.rs:223-255 | when the last listing of a wiring gets no answer nothing is confirmed |
| `SensorRuns.CallsAreCounted` | daemon/src/sensors.rs:223-255 | a wiring is two listings and a write per wanted hook, and only if the second listing lacks urls a call for each and a third listing; it lacks no more than are wanted |
| `SensorRuns.NothingStaysMissing` | daemon/src/sensors.rs:223-255 | a sensor that answers, keeps at least one url a hook and has room ends with nothing missing |
| `SensorRuns.MergeIsStable` | daemon/src/sensors.rs:227-234 | what the sensor keeps of a merge is what it keeps of merging that again |
| `SensorRuns.WritesAre` | daemon/src/sensors.rs:225-240 | the writes in closed form, for any wanted list: the first hook of a wanted event carries the last list wanted for it and then its own urls, cut; an event without a hook gets one for each list, while there are slots; nothing else changes |
| `SensorRuns.MissingOnlyWhenFull` | daemon/src/sensors.rs:241-255 | with every call answered, a url is left missing only when the slots ran out |
| `SensorRuns.ThirdRunIsSecond` | daemon/src/sensors.rs:223-255 | for any wanted list, events repeated or not and room or none, a third run leaves the sensor as the second did and says the same |
| `SensorRuns.WiringTwiceIsWiringOnceIff` | daemon/src/sensors.rs:223-255 | with room, the second run equals the first if and only if each wanted event had a hook before, or its last list merged with what is kept of its first is, as kept, what is kept of its first |
| `SensorRuns.WiringTwiceIsWiringOnce` | daemon/src/sensors.rs:223-255 | so with distinct events, a second run leaves the sensor unchanged, creates nothing and says the same |
| `SensorRuns.RepeatedEventsAreRewritten` | daemon/src/sensors.rs:225-240 | an input on which the second run differs from the first: a bare sensor, and one event wanted with two different urls in turn |
| `Cadence.HeartbeatClock.constructor` | daemon/src/cadence.rs:133-140 | a fresh clock |
| `Cadence.HeartbeatClock.Due` | daemon/src/cadence.rs:144-152 | an unsent signature is due at once, a failure at its retry time unless a post landed since, else the interval decides |
| `Cadence.HeartbeatClock.Delivered` | daemon/src/cadence.rs:153-156 | the signature is known and the failures are over |
| `Cadence.HeartbeatClock.Failed` | daemon/src/cadence.rs:157-162 | the doubling, capped backoff comes to 30 s after the first failure and 60 s after every later one |
| `Cadence.HeartbeatClock.Reset` | daemon/src/cadence.rs:164-166 | back to a fresh clock |
| `Cadence.DeltaGate.constructor` | daemon/src/cadence.rs:175-180 | a fresh gate |
| `Cadence.DeltaGate.Exceeds` | daemon/src/cadence.rs:187-199 | a move from the last sent value triggers at the threshold, a reversal at one and a half |
| `Cadence.DeltaGate.MarkSent` | daemon/src/cadence.rs:200-208 | the value is the last sent, and a move sets the direction |
| `Cadence.LineStep` | daemon/src/cadence.rs:221-231 | beyond as soon as the line is crossed, back only once clear by the band; says whether that changed |
| `Cadence.ReadingGate.constructor` | daemon/src/cadence.rs:287-294 | a fresh gate |
| `Cadence.ReadingGate.StepLines` | daemon/src/cadence.rs:300-309 | both lines move, and the first reading reports only a line already crossed |
| `Cadence.ReadingGate.Observe` | daemon/src/cadence.rs:298-338 | the rule of each kind of reading, as specified |
| `Cadence.ReadingGate.MarkSent` | daemon/src/cadence.rs:340-342 | only the change gate is marked |
| `Heartbeats.AttemptsAreTimely` | daemon/src/cadence.rs:144-162 | while nothing lands the n-th attempt starts by its latest time, counted from the failures before the last delivered post, the latency, the tick the loop sleeps between looks and its lag |
| `Heartbeats.WorstRunIsWorst` | daemon/src/cadence.rs:144-162 | for any latency, tick and lag some run of looks so spaced starts its n-th attempt at exactly that latest time |
| `Heartbeats.AlwaysTriesIff` | daemon/src/cadence.rs:144-162 | n attempts are sure within a time if and only if the latest time of the n-th is within it |
| `Heartbeats.EnoughAttempts` | daemon/src/cadence.rs:144-162 | a run that reaches the latest time of the n-th attempt has made n |
| `Heartbeats.FiveTriesBeforeTheAlarm` | daemon/src/cadence.rs:127-162 | signature sent, interval 300 s, latency L and looks anywhere, at most g apart, in ms: five attempts are sure within 600 s of the last delivered post if and only if 4 L + 5 (g - 1) is at most 90000 with no failure before that post, 60000 with any |
| `Heartbeats.FiveTriesAtTheTick` | daemon/src/hub_server.rs:2299-2345 | with a sleep of five seconds before every look and a lag under half a second: five are sure if and only if 4 L + 43 lag is at most 85001 with no failure before that post, 4 L + 49 lag at most 55001 with any |
| `Heartbeats.FourTriesHoweverSlow` | daemon/src/hub_server.rs:2299-2345 | at that tick and with the twenty-second request limit four attempts are sure within 600 s; five are sure with no failure before if and only if the lag is at most 116 ms, and never sure with failures before |
| `Heartbeats.AttemptsKeepApart` | daemon/src/cadence.rs:157-162 | while nothing lands an attempt starts at least 30 s after the one before failed |
| `Heartbeats.NewSignatureIsAlwaysTried` | daemon/src/cadence.rs:144-147 | a signature no delivered beat has carried is tried at every look, with no backoff |
| `Chatter.SendsArePaidFor` | daemon/src/cadence.rs:187-208 | for any values and marks, triggered sends times (threshold - 1e-9), plus the lag left, are at most the lag at the start plus the total variation plus how far marks were from the value of their time |
| `Chatter.SendsWithinVariation` | daemon/src/cadence.rs:187-208 | with marks at current values, sends times (threshold - 1e-9) are at most the total variation |
| `Chatter.StaleMarksSendAgain` | daemon/src/cadence.rs:187-208 | an unmoved value is sent after a mark if and only if the mark was a needed move away |
| `Chatter.SwingsAreSentOnce` | daemon/src/cadence.rs:187-208 | a reading that stays inside a band narrower than one and a half thresholds is sent at most once |
| `Chatter.FlipsArePaidFor` | daemon/src/cadence.rs:221-231 | (flips - 1) times the band is at most the total variation |
| `Alarms.LinesRemember` | daemon/src/cadence.rs:221-231 | after any readings and marks a line is beyond if and only if some reading crossed it (under 2, over 45 degrees; under 12.2, under 11.8 V, doubled above 18 V) and none since has come clear by its band |
| `Alarms.ReadingReportsExactly` | daemon/src/cadence.rs:298-342 | after any readings and marks a bank or temperature reading is reported if and only if it has moved from the value last sent (1 degree; 0.2 V, 0.4 above 18 V; half as much again against the last move) or a line was crossed or cleared by it, a clearing only once something was sent |
| `Alarms.OtherReadingsReport` | daemon/src/cadence.rs:335-337 | humidity is reported on moves of 5 alone, a reading of no kind never |
| `Alarms.ShoreReportsExactly` | daemon/src/cadence.rs:312-327 | shore power is reported if and only if the reading turns over whether some reading fell under 90 V and none since came up to 100 V |
| `Chatter.ShoreReportsAlternate` | daemon/src/cadence.rs:312-327 | shore reports are lost, restored, lost in turn, a loss first, ten volts of movement apart |
| `Chatter.TwoLinesNeverChatter` | daemon/src/cadence.rs:298-342 | for any readings and any marks: immediate sends, less two and less four for each change of rule, times (threshold - 1e-9), are at most five times the variation plus how far marks were from the value of their time |
| `Chatter.ThermometerNeverChatters` | daemon/src/cadence.rs:328-342 | a thermometer has one rule: sends less two, times (1 - 1e-9), are at most five times the variation plus the stale marks |
| `Chatter.BankSendsAtMost` | daemon/src/cadence.rs:300-310 | a battery bank, for any readings and marks: sends less two and less four for each crossing of 18 V, times (0.2 - 1e-9), are at most five times the variation plus the stale marks |
| `Chatter.BankNeverChattersOnOneSide` | daemon/src/cadence.rs:300-310 | on one side of 18 V no crossing is charged, and above it the threshold is 0.4 |
| `Chatter.ChangesAreCrossings` | daemon/src/cadence.rs:300-304 | the rule of a bank changes under a reading exactly when it crosses 18 V |
| `Chatter.CrossingIsReported` | daemon/src/cadence.rs:300-310 | readings from 12.3 V to under 23.6 V, once one has been marked sent: a reading is reported if and only if it lies on the other side of 18 V from the one before, or the change gate asks for it |
| `Chatter.BankChattersAtEighteen` | daemon/src/cadence.rs:300-310 | a bank between the lines that steps from 18 V or below to above it by e and back, n times, is reported 2 n times over a variation of 2 n e; from 18 V any e under 5.6 will do |
| `Chatter.AnyNumberOfSends` | daemon/src/cadence.rs:300-310 | so any number of sends comes of any little movement: crossings have to be charged for |
| `Utf8.CharLength` | daemon/src/batch.rs:66-69 | a character has at most four bytes, all of them there |
| `Utf8.EncodingsAreText` | daemon/src/batch.rs:66-69 | the encoding of any Unicode characters (RFC 3629, section 3) is well-formed |
| `Utf8.TextIsEncoded` | daemon/src/batch.rs:66-69 | and every well-formed text is one |
| `Utf8.BoundaryIffText` | daemon/src/batch.rs:66-69 | in well-formed text a byte position is a character boundary if and only if the bytes before it are well-formed (RFC 3629, sections 3 and 4) |
| `Utf8.CutTo` | daemon/src/batch.rs:62-71 | the longest well-formed prefix within the limit, and at most three bytes short of it |
| `Utf8.Cut` | daemon/src/batch.rs:62-71 | stepping back to a boundary finds that prefix |
| `Batch.ClampItem` | daemon/src/batch.rs:77-92 | the one-pass loop computes the specified item and dropped count |
| `Batch.ClampKeepsTheLegal` | daemon/src/batch.rs:77-92 | the item keeps the first 24 distinct legal keys in first-occurrence order, each with its last legal value cut; kept plus dropped are the distinct legal keys; everything is within the limits |
| `Batch.DroppedStandLater` | daemon/src/batch.rs:88-91 | a dropped key first stands after every kept one |
| `Batch.LegalIs` | daemon/src/batch.rs:80-82 | a param is legal if its key has 1 to 64 bytes and its value at least one |
| `Batch.ClampIsIdempotent` | daemon/src/batch.rs:77-92 | clamping a clamped item changes and drops nothing |
| `Batch.Split` | daemon/src/batch.rs:131-141 | finding, moving and chunking computes the specified posts |
| `Batch.StatusIsHubStatus` | daemon/src/batch.rs:32 | the item moved is the one whose event is hub.status, byte for byte |
| `Batch.OthersKeepTheirOrder` | daemon/src/batch.rs:131-141 | the posts joined are the first hub.status, then the items before it, then those after it; or the items as they stood if there is none |
| `Batch.SplitConserves` | daemon/src/batch.rs:131-141 | the posts joined are the items, each as often, in max(1, ceil(n/50)) posts, none over 50, a hub.status foremost if there is one |
| `Relay.NoncePingEvery` | daemon/src/hub_relay.rs:437-445 | the cadence is the setting from 60 to 3600 s, the nearer bound outside, and 900 s for 0 |
| `Relay.ServeOnce` | daemon/src/hub_relay.rs:506-618 | the loop over frames and ticks is the fold of the specified step, up to its ending |
| `RelayRuns.MemoryHolds` | daemon/src/hub_relay.rs:515-618 | what an open link remembers of nonces and echoes is what came over the socket |
| `RelayRuns.CadenceIsPickedUp` | daemon/src/hub_relay.rs:587-603 | the cadence in force is the one the last nonce tick picked up, or that of the open |
| `RelayRuns.DroppedIffEchoesStopped` | daemon/src/hub_relay.rs:587-617 | at a nonce tick an open link is dropped for a silent object if and only if the object has echoed and its last echo is more than three cadences old, whatever else arrived |
| `RelayRuns.HalfOpenIsFound` | daemon/src/hub_relay.rs:587-617 | at a fixed cadence no socket stays open longer than three cadences and one tick after the last echo |
| `RelayRuns.FallsAtTheFourthTick` | daemon/src/hub_relay.rs:452-477 | with nonce ticks one cadence apart since the last echo, and any frames and ping ticks in between, an open link falls to the rule at a nonce tick if and only if it is the fourth since that echo |
| `RelayRuns.OpenLinkSawThreeTicksAtMost` | daemon/src/hub_relay.rs:452-477 | so an open link has seen at most three nonce ticks since its last echo |
| `RelayRuns.DiligentIsNeverDropped` | daemon/src/hub_relay.rs:475-477 | a worker that echoes every nonce before the next tick, ticks at most three cadences apart, is never dropped by the rule |
| `RelayRuns.SilentLinkIsDropped` | daemon/src/hub_relay.rs:572-586 | a ping tick ends an open link for silence if and only if the last text is over 35 s old |
| `RelayRuns.LinkEndsExactly` | daemon/src/hub_relay.rs:515-618 | exactly what ends an open link, and how: a close or the word of the cloud in good order, one of the two silence rules, or a failed stream or write; nothing else |
| `GatewayWatches.ReportsAlternate` | daemon/src/linktap_runtime.rs:593-648 | offline and online reports strictly alternate, starting with offline |
| `GatewayWatches.ReportsTellTheHistory` | daemon/src/linktap_runtime.rs:593-648 | offline at the first unanswered poll 30 minutes or more into a silence, online if and only if a poll ends a silence that had one; the minutes are the length of the silence |

## Left out

- Handover.NoPassSkipsTheWindow: assumes the gateway offers no remaining time; where it does, the gateway's own figure decides, which no polling bound constrains.
- Handover.NoPassSkipsTheWindow: assumes every pass reads the valve; a pass on which the gateway does not answer for it is not covered.
- Reopens.MarkedRunNeverReopens: says nothing is created after the mark; a reopen already owed when the mark is set stays owed, as in the source.
- Heartbeats.FiveTriesAtTheTick: takes the loop to be late by less than half a second at a look; `Heartbeats.AlwaysTriesIff` covers any tick and lag.
- MemberSigs.SignatureIsCanonical: the hash is any function with 64-hex digests that does not collide on the two line forms compared.
- KeySyncRuns.OneFetchConverges: replies and fetches carry the cloud's signature of their instant; a reply overtaken by a change, and a fetched set without a signature, are not modelled.
- SensorWiring.WireSensor: every hook a sensor lists carries an id, an event and string urls; entries without them are not modelled.
- RouterHealths.UnreadKeepsReading: the reason is not trimmed of surrounding blanks.
- Utf8.BoundaryIffText: text is bytes here; key strings elsewhere are sequences of characters, compared for equality only.
- Integer widths: times, streaks and counters are unbounded, except where a counter saturates in the source and that shows (`RouterHealth`, `KeySync`).
- Floats are reals: NaN, infinities and rounding are not modelled, and neither is the trigonometry of distances.
- Valve and device ids are taken as already normalised.
- Report texts, `last_measurement`, `heartbeat_params` and the `last` observation of a fence: what is reported beside the decision.
- Geofence: a configured zone streak of 0 is taken as the source does, alarming at the first outside sample.
- `should_restart`, `any_cycle_running`, `debug_track`, `is_flood_shutoff`, `common_mode_failure`, `checkin_retry_secs`, `lease_extend`, `backoff_secs`, `next_attempt`, `for_the_wire` and the event-name predicates: one-branch facts.
- Parsers of vendor and cloud text (`parse_anchor_reply`, `parse_worker_message`, `parse_keys_sig`, routers, gateways, GPS): the machines are fed parsed observations.
- HTTP, sockets, files, logging, restart and update, the loops of hub_server.rs, adopt.rs and the Home Assistant integration.
