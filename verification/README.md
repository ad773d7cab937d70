# Poise decision logic, modelled and proved

Poise is a Home Assistant thermostat whose decisions live in small pure modules that carry state
from tick to tick. This project models the parts whose guarantees span many ticks or many inputs
and proves those guarantees for every input and every run:

- `WeekSchedule`: the week of comfort windows. A normalised, expanded interval index answers
  exactly like a naive minute-by-minute scan of the week.
- `VentRules`, `VentEpisode`, `VentRuns`, `VentInvariants`, `VentBookkeeping`, `VentComposition`: the
  ventilation rule table with the exact readings behind each answer, the five-phase episode machine,
  what its runs keep (latch, prompt budgets, evidence, quiet time, a finite exit), and the two
  modules fed back into each other.
- `Boiler`, `BoilerHub`: the shared boiler's timing, and the hub object around it with failing
  calls, restart and reconciliation.
- `LoadShedding`, `ServiceActions`: the greedy load shedder and the two stored forms of a boiler
  action. `StableSort` is the one sort that it, the week and the forecast share.
- `FanFirst`: the echo-gated fan stage before the compressor.
- `TierLatches`: the serialised activation latches and the fold that drives them.
- `Calibration`: grid snapping and the evidence gate of the accumulating offset loop, against a
  device whose register, number entity and climate entity change each in its own time.
- `MouldFloor`, `ForecastMean`: the bisection for the mould floor and the forecast integration.

Pure decision code is modelled by functions and lemmas over runs, which are sequences of ticks.
Loops that build lists or move bounds are methods proved against specification functions, and the
hub is a class whose `Actuate` states its whole new state. Temperatures, minutes and seconds are
reals; everything the outside world decides (service call results, loads, device states, clocks,
window readings) is an input of the tick.

## Findings

Places where the code does less than its documentation or a reader would expect. Each comes with
the exact condition and a concrete case.

- The rule table's stand-down against the mould guard covers the moisture reasons only. Free
  cooling and CO2 can be asked for and then closed by the guard in the same episode, although
  `vent_episode.py:11-15` says the window contact alone never inverts the advice
  (conditions `VentComposition.WindowInvertsExactlyWhen` and
  `VentComposition.AiringIsStoppedExactlyWhen`, case `VentComposition.HeatOutIsInverted`).
- In the hub a failed keep-alive call on a tick without demand discards the cleared activation
  latch, so the boiler may fire without unbroken demand (condition `BoilerHub.HubTurnsOnExactly`
  with `BoilerHub.UnbrokenExactlyUnlessLost`, case `BoilerHub.LostRestBreaksTheDelay`).
- The two tier-2 latches can wait for each other for good, although
  `comfort_activation.py:200-203` says serialization can never deadlock the successor. The fan
  latch rests, the PMV latch is eligible, and no tick with the fan possible moves either. A zone
  gets there by a fall of the fan latch during the PMV latch's first dwell, and by a single tick on
  which the fan is impossible, such as one before the climate entity is loaded
  (`ha/phase_prepare.py:868-872`, `ha/phase_report.py:318-320`). Conditions
  `TierLatches.MaturesExactlyUnlessStranded` and `TierLatches.TickStrandsExactly`, cases
  `TierLatches.OneTickStrands`, `TierLatches.FirstDwellAlwaysStrands` and
  `TierLatches.FreshZoneCanStrand`.
- A legacy action whose domain or service is blank, or whose attribute renames the entity to
  something undotted, does not survive the structured form (condition
  `ServiceActions.RoundTripExactly`, cases `ServiceActions.BlankTextIsLost` and
  `ServiceActions.RenamedTextIsLost`).
- Two forecast samples with different temperatures for one time can make the trapezoid sum inexact
  (condition `ForecastMean.MeanIsExactUnlessJumped`, case `ForecastMean.JumpedMeanMoves`).
- The evidence gate of the calibration, meant to keep it from accumulating on stale data
  (`ha/actuator_executor.py:441-447`), asks for a climate update after the dispatch, not for one
  measured under the new register. A device whose register takes hold after such an update, or whose
  update brings no new temperature, has the difference corrected twice (condition
  `Calibration.HistoryFreeExactly`, families `Calibration.LateRegisterFoolsTheGate` and
  `Calibration.LateReadingFoolsTheGate`, case `Calibration.LateRegisterWritesTwice`).

## Model

| member | source | states |
|---|---|---|
| `WeekSchedule.StateAtIsNaiveScan` | custom_components/poise/comfort/schedule.py:194-219 | for every list of windows, every integer minute and every weekday the answer is that of a minute-by-minute scan of the 10080-minute cycle, `None` edges included; any other weekday is refused |
| `WeekSchedule.ComfortIsAsPlanned` | custom_components/poise/comfort/schedule.py:72-219 | the built schedule says comfort on exactly the weekdays and times planned: a mask is the sum of two to the power of each of its days, bits past the seventh mean nothing, a day window holds from start to end, an overnight one belongs to its start day; or always when every window is empty |
| `WeekSchedule.EveryDayIsMask127` | custom_components/poise/comfort/schedule.py:41-50 | the default mask stands for all seven days |
| `WeekSchedule.NormalizedMasksAreWeeks` | custom_components/poise/comfort/schedule.py:87 | every normalised mask is one of the 128 sets of weekdays |
| `WeekSchedule.ClampIsNearest` | custom_components/poise/comfort/schedule.py:83-85 | a time outside the day counts as the nearest one of it |
| `WeekSchedule.ExpandedIsCanonicalCover` | custom_components/poise/comfort/schedule.py:104-154 | the expanded intervals are ascending, non-empty, gapped even across the Sunday/Monday seam, only the last past the week, and hold exactly the minutes some window covers |
| `WeekSchedule.NormalizedKeepsCover` | custom_components/poise/comfort/schedule.py:72-101 | clamping, dropping empty windows, sorting and merging leave every week minute's cover unchanged |
| `WeekSchedule.NormalizedIsIdempotent` | custom_components/poise/comfort/schedule.py:72-101 | normalising twice is normalising once |
| `WeekSchedule.ReorderingKeepsVerdicts` | custom_components/poise/comfort/schedule.py:184-219 | order and repetition of the configured windows cannot change any verdict |
| `WeekSchedule.Normalize` | custom_components/poise/comfort/schedule.py:72-101 | the list-building loops compute the specified normal form |
| `WeekSchedule.CleanWindows` | custom_components/poise/comfort/schedule.py:82-87 | the first loop clamps, masks and drops empty windows |
| `WeekSchedule.MergeAdjacent` | custom_components/poise/comfort/schedule.py:92-100 | the merge loop, overwriting its last element, joins adjacent same-mask windows |
| `WeekSchedule.Expand` | custom_components/poise/comfort/schedule.py:104-154 | the expansion with its phantom filter, sort, merge and seam step computes the specified intervals |
| `WeekSchedule.ExpandRaw` | custom_components/poise/comfort/schedule.py:129-141 | each window on each set day, Sunday spill split modulo the week |
| `WeekSchedule.JoinTouching` | custom_components/poise/comfort/schedule.py:143-150 | the union loop joins overlapping and touching intervals |
| `WeekSchedule.FromWindows` | custom_components/poise/comfort/schedule.py:157-188 | a schedule holds the normalised windows and their expansion |
| `WeekSchedule.LowBitsKeepDays` | custom_components/poise/comfort/schedule.py:87 | masking with seven bits keeps exactly the bits of the seven days, for negative masks too |
| `VentRules.GuardAnswersExactly` | custom_components/poise/comfort/ventilation.py:296-397 | an open window is told to close by the mould guard, whatever is remembered, exactly when the walls are not acutely wet, the fabric needs it warmer, the room is past its ceiling and airing would not hold even its exit line; a fresh table needs no more than the first three |
| `VentRules.ProtectionAnswersExactly` | custom_components/poise/comfort/ventilation.py:346-441 | moisture protection is asked for under every window reading and every memory exactly when the room is past its ceiling, airing reaches the entry line, no floor is heated for, and neither wet walls, a needy fabric, a parched room nor the thermal floor speak |
| `VentRules.MouldCauseAnswersExactly` | custom_components/poise/comfort/ventilation.py:232-240 | the mould cause speaks under every window and memory exactly when the surface mean is within the margin of its limit and the air outside is drier, and alerts when a floor holds or fails |
| `VentRules.GuardReadsTheCeiling` | custom_components/poise/comfort/ventilation.py:352-397 | where the mould cause is silent and nothing is remembered, an open window meets the guard exactly when the fabric needs it warmer and the room humidity is past the ceiling |
| `VentRules.DrynessAnswersExactly` | custom_components/poise/comfort/ventilation.py:398-415 | where the mould cause is silent a shut window is advised against exactly at or under either dryness line with drier air outside |
| `VentRules.FloorAnswersExactly` | custom_components/poise/comfort/ventilation.py:416-420 | an open window is closed for the thermal floor exactly when the room stands on it and elsewhere neither the cause, the guard nor dryness would speak |
| `VentRules.CeilingAnswersExactly` | custom_components/poise/comfort/ventilation.py:346-355 | where cause and dryness are silent, a shut window is to be opened for protection exactly past the ceiling, with the entry gain or while such an airing runs the exit gain, and no floor heated for |
| `VentRules.FreeCoolingAnswersExactly` | custom_components/poise/comfort/ventilation.py:450-512 | where neither protection nor dryness speaks, free cooling is asked for exactly when nothing else cools, the room is over its edge, outside is cooler by the entry or exit step and not too humid, and the surfaces are a margin short of their limit |
| `VentRules.ComfortAnswersExactly` | custom_components/poise/comfort/ventilation.py:296-313 | where the table would say nothing of an empty room, moisture is aired exactly for an occupant over the gram line, from the humidity line on, with the gain its memory asks for and no floor heated for; and else CO2 exactly for an occupant from its line on |
| `VentRules.ComfortNeedsItsReadings` | custom_components/poise/comfort/ventilation.py:296-518 | under every window and memory comfort never asks for an empty room, nor for moisture short of its lines or over a heated floor |
| `VentRules.AiringEndsExactly` | custom_components/poise/comfort/ventilation.py:442-530 | where nothing speaks for opening a shut window and no protection for closing it, an open one is closed exactly when an airing has lost its cause or the gain is spent |
| `VentRules.SilenceNamesItsCause` | custom_components/poise/comfort/ventilation.py:528-533 | with nothing to say the table names its want of a gain when both humidities are there, and of data otherwise |
| `VentRules.MoistureTakesOver` | custom_components/poise/comfort/ventilation.py:448-518 | off the floor an open window hears what a shut one does for a moisture demand, whatever airing hands over to it |
| `VentRules.AnchorsOnlyHold` | custom_components/poise/comfort/ventilation.py:296-352 | hysteresis only holds: where a fresh table opens a shut window, one that remembers any airing does too |
| `VentRules.MissingHumidityGuessesNothing` | custom_components/poise/comfort/ventilation.py:195-214 | without the outdoor humidity only the guard, the thermal floor, CO2 and the ends of running airings can speak |
| `VentRules.ShutWindowIsNeverClosed` | custom_components/poise/comfort/ventilation.py:116-533 | no tick tells a window that is not open to close |
| `VentRules.WindowOnlyTurnsOnCloses` | custom_components/poise/comfort/ventilation.py:116-533 | an open window differs from a shut one only by turning the answer into a close |
| `VentRules.MoistureOpeningDries` | custom_components/poise/comfort/ventilation.py:147-153 | opening for a moisture reason always has drier air outside |
| `VentRuns.LatchOverRuns` | custom_components/poise/comfort/vent_episode.py:399-780 | over every run: the latch stands only on a protection close; while it stands every tick publishes such a close or ends in the cooldown; open only repeats the table's open with its reason; close contradicts an open only when latched |
| `VentRuns.LatchHoldsUntilCooldown` | custom_components/poise/comfort/vent_episode.py:731-780 | once latched, the protection close is published on every tick until the quiet time begins |
| `VentRuns.ProtectionIsNeverLost` | custom_components/poise/comfort/vent_episode.py:537-573 | a standing building-protection request is never unanswered on two consecutive ticks, whatever the window readings, expiry or cooldowns |
| `VentRuns.ProtectionStep` | custom_components/poise/comfort/vent_episode.py:537-731 | an unlatched machine answers a protection request at once or spends one tick on entering the cooldown |
| `VentRuns.PromptBudget` | custom_components/poise/comfort/vent_episode.py:341-379 | the prompts of one episode identity number at most the comfort ceiling unless protection spoke in it, then at most the larger ceiling plus one escalation |
| `VentRuns.BudgetStep` | custom_components/poise/comfort/vent_episode.py:479-504 | every prompt is counted in the episode it carries, protection is never forgotten inside an episode, only a new identity clears the count |
| `VentRuns.BudgetOfRest` | custom_components/poise/comfort/vent_episode.py:749-773 | what the rest of any run can still add to any one episode |
| `VentRuns.QuotasNeverChangeTheTruth` | custom_components/poise/comfort/vent_episode.py:238-261 | two runs that differ in prompt quotas and reminder rhythm publish the same actions, reasons, levels and phases on every tick |
| `VentInvariants.RunsAreFaithful` | tests/test_vent_episode_soak.py:110-205 | over every run: a discouragement is never swallowed, a protection close never reads open, a known-open window never lets a close expire, an airing is claimed only after an opening was seen, a phase quota that is no smaller for protection holds, the left-over note is this tick's unmet demand, and on ticks that warn of protection a protection close is never published as harmless |
| `VentInvariants.OpenWindowIsToldToClose` | custom_components/poise/comfort/vent_episode.py:602-780 | over every run and in every phase a close of the table on a window whose raw reading is open and in time is published, with the reason and level of the tick unless a latched stop keeps its own against a lesser close, and a protection close leaves the machine latched |
| `VentInvariants.OpenAnswerIsPublished` | custom_components/poise/comfort/vent_episode.py:537-780 | over every run, outside a rest and unlatched, an open of the table is published for its reason unless a contact reads closed, and the airing has begun exactly when the window reads open or it had begun before |
| `VentInvariants.EndedDemandIsToldToClose` | custom_components/poise/comfort/vent_episode.py:616-780 | over every run, once the table asks for nothing, an airing is asked to end unless a contact reads closed, and a stop stands with its reason while the window reads open |
| `VentInvariants.UnmetRequestIsDropped` | custom_components/poise/comfort/vent_episode.py:616-700 | over every run a request whose cause is gone while a contact reads closed is dropped in silence |
| `VentInvariants.UnknownWindowIsToldToClose` | custom_components/poise/comfort/vent_episode.py:602-780 | over every run, a close of the table on a window nobody knows is published by an airing and a stop, ends an open request, and leaves a machine at rest silent |
| `VentInvariants.AiringEndsOnAContact` | custom_components/poise/comfort/vent_episode.py:151-176 | an airing ends in a rest on exactly the ticks on which a contact reads closed and the reading is in time |
| `VentInvariants.RestIsEarned` | custom_components/poise/comfort/vent_episode.py:399-780 | over every run that starts outside a quiet time: wherever the machine rests, an earlier tick at which an airing, a request or a stop request ended earned that very rest, with its length, its scope and the minutes since, and nothing has broken or completed it |
| `VentInvariants.QuietTimeIsKept` | custom_components/poise/comfort/vent_episode.py:537-573 | over every run the quiet time lasts its full length and no longer unless protection or a reason outside its scope speaks; nothing rings in it |
| `VentInvariants.ReminderRingsExactly` | custom_components/poise/comfort/vent_episode.py:367-379 | a standing request rings again exactly when both quotas have room and the reminder clock is due; the first step up to protection rings regardless |
| `VentInvariants.EntryRingsExactly` | custom_components/poise/comfort/vent_episode.py:341-379 | over every run, entering a request or a stop rings exactly when the episode and the phase may ring; a new episode counts from none |
| `VentInvariants.QuietWorldReturnsToIdle` | tests/test_vent_episode.py:436-451 | from every state a quiet world leads back to idle within a stated measure, and stays there |
| `VentBookkeeping.TickLength` | custom_components/poise/comfort/vent_episode.py:399-450 | a tick counts its own length, never less than nothing nor more than the cap |
| `VentBookkeeping.SilenceIsExplained` | custom_components/poise/comfort/vent_episode.py:306-330 | over every run a silent tick repeats the table's reason without alarm and names why nothing is to be done, no other tick does, and neither it nor a discouragement rings |
| `VentBookkeeping.FreshZoneIsTidy` | custom_components/poise/comfort/vent_episode.py:185-236 | a fresh zone is tidy, has had no episode, rung no bell, and its clocks stand at nothing |
| `VentBookkeeping.RunsStayTidy` | custom_components/poise/comfort/vent_episode.py:382-573 | over every run from a fresh zone a machine at rest carries, counts and latches nothing, and only a quiet time has a length and a scope |
| `VentBookkeeping.RestLeavesNothing` | custom_components/poise/comfort/vent_episode.py:537-573 | over every run a quiet time that ends in silence takes the counts of its episode along |
| `VentBookkeeping.BellsAreCounted` | custom_components/poise/comfort/vent_episode.py:367-381 | over every run the quota of a phase and the ceiling of an episode count exactly its bells, the step up to protection apart |
| `VentBookkeeping.UnconfirmedIsCounted` | custom_components/poise/comfort/vent_episode.py:731-780 | over every run a standing stop counts exactly the minutes of the unbroken ticks on which nobody knows the window and the table asks for no close nor an opening against mould |
| `VentBookkeeping.InferenceIsMarked` | custom_components/poise/comfort/vent_episode.py:382-398 | over every run an airing or a stop just entered is marked as inferred exactly when its opening was |
| `VentComposition.WindowInvertsExactlyWhen` | custom_components/poise/comfort/ventilation.py:296-518 | table and machine composed: after an open that leaves the machine airing, unchanged physics answers close exactly when the window reads open and the reason has no stand-down against the thermal floor or the mould guard; otherwise a moisture answer is repeated verbatim |
| `VentComposition.AiringIsStoppedExactlyWhen` | custom_components/poise/comfort/vent_episode.py:271-303 | for every reason: after an open that leaves the machine airing, some run of window readings, ages and tick lengths under unchanged physics stops that airing with a close exactly when the reason has no stand-down against the thermal floor or the mould guard that speaks |
| `VentComposition.MoistureAiringIsNeverInverted` | custom_components/poise/comfort/vent_episode.py:289-303 | over every run of window readings, ages and tick lengths under unchanged physics, an episode opened for moisture off the thermal floor never publishes close, its rest included |
| `VentComposition.ProtectionCloseIsNeverHarmless` | tests/test_vent_episode_soak.py:193-199 | with the rule table in front of the machine no run, whatever the world does, publishes a protection close at level ok |
| `VentComposition.RunIsUndisturbed` | custom_components/poise/comfort/vent_episode.py:271-303 | such an episode says open for its own reason until it ends in a rest; any close belongs to a later episode |
| `VentComposition.HeatOutIsInverted` | custom_components/poise/comfort/ventilation.py:360-396 | a concrete muggy night, of readings the caller derives together, on which free cooling is asked for and then closed by the mould guard in the same episode |
| `Boiler.OnNeedsUnbrokenDemand` | custom_components/poise/control/hub_aggregate.py:312-345 | over committed runs a boiler that is off turns on exactly when demand has lasted unbroken for the activation delay and the minimum off time has passed since its last switch |
| `Boiler.OffExactlyWithoutDemand` | custom_components/poise/control/hub_aggregate.py:312-345 | over committed runs a boiler that is on turns off exactly on a tick without demand that comes no earlier than the minimum on time after its last switch |
| `Boiler.LatchIsStartOfDemand` | custom_components/poise/control/hub_aggregate.py:452-456 | the activation latch is exactly the start of the demand that still lasts |
| `Boiler.SilenceIsShort` | custom_components/poise/control/hub_aggregate.py:478-494 | a run without a call ends less than a keep-alive interval after the last call |
| `Boiler.CallsAreDense` | custom_components/poise/control/hub_aggregate.py:467-502 | after a call the next one comes at the latest on the first tick a keep-alive interval later |
| `Boiler.DwellSurvivesRestart` | custom_components/poise/control/hub_aggregate.py:642-686 | saving and restoring carries the elapsed dwell over by the wall clock's advance, floored at zero; a clock that jumps back never lengthens it |
| `BoilerHub.Hub.constructor` | custom_components/poise/hub_coordinator.py:157-176 | configured dwells are raised to the 120 s floor; the hub starts unreconciled and unrestored |
| `BoilerHub.Hub.RestoreState` | custom_components/poise/hub_coordinator.py:346-361 | one-time restore; a failed load leaves the fresh state |
| `BoilerHub.Hub.Persist` | custom_components/poise/hub_coordinator.py:363-376 | saving is best effort and re-anchors the stamp to the wall clock |
| `BoilerHub.Hub.Actuate` | custom_components/poise/hub_coordinator.py:378-444 | the whole new state of one hub tick: restore once, reconcile once, step, commit only what the device accepted |
| `BoilerHub.FlipsAreApart` | custom_components/poise/hub_coordinator.py:410-444 | for every demand, clock and pattern of failing calls, once reconciled, consecutive accepted flips are at least the dwell between them apart |
| `BoilerHub.BeliefIsLastAccepted` | custom_components/poise/hub_coordinator.py:425-434 | the believed state is always the last accepted command |
| `BoilerHub.DueFlipIsRetried` | custom_components/poise/hub_coordinator.py:425-434 | a due flip is asked for on every tick of unchanged demand until accepted; failures commit nothing |
| `BoilerHub.LatchForgetsExactlyUnless` | custom_components/poise/hub_coordinator.py:432-434 | a tick without demand forgets the activation latch exactly unless a call is due on it and fails |
| `BoilerHub.HubRunsOnKeptTicks` | custom_components/poise/hub_coordinator.py:425-434 | for every pattern of failing calls the reconciled hub's state is that of the bare machine run on the ticks whose step was committed |
| `BoilerHub.HubTurnsOnExactly` | custom_components/poise/control/hub_aggregate.py:312-345 | with failing calls, on a committed tick a hub that is off turns on exactly when demand is unbroken over the committed ticks for the activation delay and the minimum off time has passed |
| `BoilerHub.HubTurnsOffExactly` | custom_components/poise/hub_coordinator.py:410-434 | with failing calls, on a committed tick a hub that is on turns off exactly when that tick has no demand and the minimum on time has passed since the last accepted change-over |
| `BoilerHub.UnbrokenExactlyUnlessLost` | custom_components/poise/hub_coordinator.py:432-434 | demand unbroken over the committed ticks is unbroken over all ticks since the one it began on exactly when no tick without demand lost its step since then |
| `BoilerHub.HubCallsAreDense` | custom_components/poise/control/hub_aggregate.py:467-502 | with failing calls, too, a call is issued at the latest on the first tick a keep-alive interval after the last accepted one |
| `BoilerHub.LostRestBreaksTheDelay` | custom_components/poise/hub_coordinator.py:432-434 | a concrete run of one-minute ticks on which a lost keep-alive keeps the latch alive and the boiler, off until then, fires without unbroken demand |
| `BoilerHub.DivergenceIsSafe` | custom_components/poise/hub_coordinator.py:385-409 | a device found off is never held back by the minimum off time; one found on is held on for exactly its minimum time |
| `BoilerHub.FirstTickRestores` | custom_components/poise/hub_coordinator.py:346-361 | the run of a new process is the run from the restored state |
| `BoilerHub.FirstStartOwesNothing` | custom_components/poise/hub_coordinator.py:157-176 | with nothing to read, or nothing readable, a new hub believes the device off, remembers no demand and owes it no rest |
| `BoilerHub.DwellHoldsAcrossRestart` | custom_components/poise/control/hub_aggregate.py:642-686 | a saved flip, any number of processes that flip nothing, and the first flip of the next: the dwell holds in wall time, and a backward clock never shortens what that process waits |
| `LoadShedding.ResolveLoadShedding` | custom_components/poise/control/hub_aggregate.py:357-393 | nothing is shed without an overload or a reading; otherwise the shortest covering prefix of the candidates, or all of them |
| `LoadShedding.ShedPrefix` | custom_components/poise/control/hub_aggregate.py:385-392 | the greedy loop stops at the first prefix that covers the deficit |
| `LoadShedding.CandidatesAreSpare` | custom_components/poise/control/hub_aggregate.py:376-385 | the candidates are exactly the sheddable zones, each as often as it occurs, in gap order |
| `LoadShedding.SpareZonesAreCandidates` | custom_components/poise/control/hub_aggregate.py:376-385 | every heating zone with a power and no protection is a candidate |
| `LoadShedding.ByGapIsStableSort` | custom_components/poise/control/hub_aggregate.py:376-385 | the sort is a permutation in ascending gap order that keeps equal gaps in order |
| `LoadShedding.ShedIsLeastAndSpare` | custom_components/poise/control/hub_aggregate.py:357-393 | only heating zones with a power and under neither frost nor health protection are shed, none in place of one nearer its setpoint, and dropping the last shed zone would leave the overload standing |
| `LoadShedding.NoGentlerChoice` | custom_components/poise/control/hub_aggregate.py:357-366 | with positive powers every covering choice takes heat from a room at least as far from its setpoint as the last room shed |
| `ServiceActions.RoundTripExactly` | custom_components/poise/control/hub_aggregate.py:287-309 | the structured form of a spec that parses gives the same action back exactly when domain and service are named and the entity id is stripped and dotted |
| `ServiceActions.RoundTrip` | custom_components/poise/control/hub_aggregate.py:220-309 | every spec with a named domain and service and no attribute renaming the entity round-trips |
| `ServiceActions.BlankDomainIsLost` | custom_components/poise/control/hub_aggregate.py:275-309 | every plain call without a domain parses from the text, and its structured form parses to nothing |
| `ServiceActions.RenamedEntityIsLost` | custom_components/poise/control/hub_aggregate.py:275-309 | every text whose attribute renames the entity to something undotted parses, and its structured form parses to nothing |
| `ServiceActions.BlankTextIsLost` | custom_components/poise/control/hub_aggregate.py:275-309 | the text `switch.boiler/.turn_on` is such a text |
| `ServiceActions.RenamedTextIsLost` | custom_components/poise/control/hub_aggregate.py:275-309 | the text `switch.boiler/switch.turn_on/entity_id:boiler` is such a text |
| `ServiceActions.LegacyTextParses` | custom_components/poise/control/hub_aggregate.py:275-284 | every action the legacy text can carry is parsed from it: entity, domain, service and each attribute in turn |
| `ServiceActions.PaddingIsIgnored` | custom_components/poise/control/hub_aggregate.py:275-284 | blanks around the parts of a text, of any kind, change nothing of what it parses to |
| `ServiceActions.OrdinaryIsPlain` | custom_components/poise/control/hub_aggregate.py:275-284 | text of visible characters without the separator needs no stripping |
| `ServiceActions.TextParsesExactly` | custom_components/poise/control/hub_aggregate.py:275-284 | a text of plain parts parses exactly when it has at least two, the first two of them dotted |
| `ServiceActions.FieldsParseExactly` | custom_components/poise/control/hub_aggregate.py:220-247 | structured fields parse exactly when both ids are given and dotted, the call names a domain and a service, and the extra data is no mistake; extra data may override the entity |
| `ServiceActions.ParseText` | custom_components/poise/control/hub_aggregate.py:275-284 | the attribute loop fills the data as specified |
| `ServiceActions.ParsedHasEntity` | custom_components/poise/control/hub_aggregate.py:220-284 | whatever parses names an entity, a dot-free stripped domain and a stripped service |
| `FanFirst.RunsKeepTheirPromises` | custom_components/poise/control/fan_first.py:158-289 | in every run from rest no assertion fails, a stage is commanded only under an observed fan_only, nothing stays engaged past 1800 s, no sequence starts while the device cools or hides its action, an echo is awaited at most 180 s, a dwell that makes no progress yields after 600 s and not before, the user or the end of demand releases and a lost ground yields, restores only undo our own shown stage |
| `FanFirst.EngagesExactly` | custom_components/poise/control/fan_first.py:213-241 | over every run the machine engages exactly on a tick that finds it idle, a quarter of an hour or more after its last sequence ended, with a cool request that may be met, capability, presence, the comfort window, a shut window, a room under 35 degrees, a device known not to cool and a qualifying stage |
| `FanFirst.EngageWouldStand` | custom_components/poise/control/fan_first.py:177-241 | over every run no tick starts a sequence that it would call off: met again by the engaged machine it never yields, and releases exactly on a foreign change of the fan |
| `FanFirst.PhasesDecideExactly` | custom_components/poise/control/fan_first.py:105-289 | over every run, exactly when an engaged machine that nothing calls off commands its stage, enters the dwell or yields, how long a yield lasts, and what every exit gives back |
| `FanFirst.EngagesAreApart` | custom_components/poise/control/fan_first.py:130-142 | two engages are at least 900 s apart |
| `FanFirst.DwellNeedsBothEchoes` | custom_components/poise/control/fan_first.py:243-279 | the dwell is entered only after both echoes since the engage, the mode first |
| `FanFirst.RestoreIsTheEntryMode` | custom_components/poise/control/fan_first.py:105-127 | an exit writes back the fan mode seen on engage, or auto when there was none |
| `FanFirst.SelectFanStage` | custom_components/poise/control/fan_first.py:53-75 | the selection loop computes the specified stage |
| `FanFirst.FastestStageIsFastest` | custom_components/poise/control/fan_first.py:53-75 | a stage is chosen exactly when one qualifies: advertised, known, not auto, within the clamp, the first of the fastest |
| `FanFirst.ClampIsBoundedAndMonotone` | custom_components/poise/control/fan_first.py:43-50 | the velocity clamp rises with temperature between 0.2 and 0.8 m/s |
| `FanFirst.ClampIsALine` | custom_components/poise/control/fan_first.py:43-50 | 0.2 m/s up to 23 degrees, 0.8 from 25.5 on, a straight line between |
| `FanFirst.LowStagesQualify` | custom_components/poise/control/fan_first.py:43-75 | the low stages qualify exactly from the temperature on whose clamp reaches 0.25 |
| `FanFirst.MiddleStagesQualify` | custom_components/poise/control/fan_first.py:43-75 | the middle stages qualify exactly from the temperature on whose clamp reaches 0.40 |
| `FanFirst.HighStagesQualify` | custom_components/poise/control/fan_first.py:43-75 | the high stages qualify exactly from the temperature on whose clamp reaches 0.65 |
| `FanFirst.StrongestStagesNever` | custom_components/poise/control/fan_first.py:43-75 | the strongest stages never qualify |
| `FanFirst.CaseDoesNotMatter` | custom_components/poise/control/fan_first.py:63-70 | labels that differ in the case of their letters only are treated alike |
| `FanFirst.NoStageInACoolRoom` | custom_components/poise/control/fan_first.py:36-50 | below 23 degrees no stage qualifies |
| `TierLatches.RunsAreSound` | custom_components/poise/control/comfort_activation.py:192-212 | over every run at most one latch is eligible, baselines exist exactly while live, and a live PMV latch is measured against the fan state that holds now |
| `TierLatches.FallsAreMarked` | custom_components/poise/control/comfort_activation.py:150-238 | a live latch that falls is suspended without its baseline, an impossible fan retires to shadow, and a fall takes along exactly a PMV latch of a later generation |
| `TierLatches.GenerationsCountActivations` | custom_components/poise/ha/phase_report.py:340-372 | over every run the container counts the activations and no latch bears a later number |
| `TierLatches.FallTakesTheDependentAlong` | custom_components/poise/control/comfort_activation.py:215-238 | when the fan latch falls, a live PMV latch falls on the same tick |
| `TierLatches.DwellIsQualifiedTime` | custom_components/poise/control/comfort_activation.py:128-180 | an eligible latch has dwelt exactly the qualified minutes since it became eligible |
| `TierLatches.FanMinutesExactly` | custom_components/poise/control/comfort_activation.py:167-180 | over every run the ticks that count for an eligible fan latch are those with active comfort on and the entry gate met |
| `TierLatches.PmvMinutesExactly` | custom_components/poise/control/comfort_activation.py:167-180 | over every run the ticks that count for an eligible PMV latch need its figures ready besides, and the fan latch live after its own step or the fan impossible |
| `TierLatches.RestEndsExactly` | custom_components/poise/control/comfort_activation.py:163-166 | a resting fan latch begins to dwell exactly with active comfort on, the fan possible and no PMV dwell; a resting PMV latch exactly when ready besides, behind a live or impossible fan |
| `TierLatches.LiveExactlyAfterDwell` | custom_components/poise/control/comfort_activation.py:167-180 | a latch goes live exactly on the qualified tick that completes 1440 minutes, with that tick's figure and signature as baseline |
| `TierLatches.LiveHoldsExactly` | custom_components/poise/control/comfort_activation.py:158-162 | a live latch stays live exactly while possible, ready, of current signature and within the tolerance of the figure it went live on |
| `TierLatches.NoShortWayToLive` | custom_components/poise/control/comfort_activation.py:7-16 | from any latch at rest to a live one at least the full dwell target passes |
| `TierLatches.MaturesExactlyUnlessStranded` | custom_components/poise/control/comfort_activation.py:192-212 | from a container that any run leads to, ticks of any given length with the fan possible can bring the PMV latch to live exactly when the zone is not stranded; a stranded zone stays as it is whatever those ticks are |
| `TierLatches.TickStrandsExactly` | custom_components/poise/ha/phase_report.py:303-372 | with the fan possible a tick strands exactly by a fall of the fan latch during the dwell of a PMV latch of no later generation; with it impossible, exactly if the PMV latch, after the cascade, begins its dwell on that tick or does not complete it |
| `TierLatches.RestStrandsExactly` | custom_components/poise/ha/phase_report.py:318-345 | two resting latches are stranded by a tick exactly when the fan is impossible on it and the PMV latch ready |
| `TierLatches.OneTickStrands` | custom_components/poise/ha/phase_report.py:318-345 | one tick without fan capability strands fresh latches, whatever follows once the fan is possible |
| `TierLatches.StrandedForGood` | custom_components/poise/control/comfort_activation.py:205-212 | a stranded zone never moves again while its fan is possible |
| `TierLatches.FirstDwellAlwaysStrands` | custom_components/poise/control/comfort_activation.py:212-238 | over every run from fresh latches on which the PMV latch was never live, a fall of the fan latch during the PMV dwell strands the zone, unless the fan falls for being impossible on the very tick that completes that dwell |
| `TierLatches.FreshZoneCanStrand` | custom_components/poise/ha/phase_report.py:303-372 | for every tick length, so for those the fold caps at two ticks as well, a run of ticks of that length from fresh latches strands the zone |
| `Calibration.SnapIsTheNearestRung` | custom_components/poise/control/calibration.py:59-81 | snapping lands on a rung inside the range, and no rung of the range is preferred by distance, then magnitude, then value |
| `Calibration.SnapIsNearest` | custom_components/poise/control/calibration.py:59-81 | no rung of the range is nearer than the snapped one |
| `Calibration.TiesGoOutward` | custom_components/poise/control/calibration.py:59-81 | midway between two rungs the one of larger magnitude is taken, and the lower one when they agree |
| `Calibration.SnapIsIdempotent` | custom_components/poise/control/calibration.py:59-81 | snapping twice changes nothing |
| `Calibration.HistoryFreeExactly` | custom_components/poise/ha/phase_actuate.py:928-966 | over every run, whatever the register, the number entity and the climate entity do and in whatever order, the correction is the history-free one in every room exactly when the temperature on show was measured under the register now reported (or the grid has one rung) |
| `Calibration.GateIsHalfAStepWide` | custom_components/poise/control/calibration.py:98-136 | with a command the gate is open exactly within half a step of it, on the grid or off, and after an update since |
| `Calibration.GatedCorrectionIsHistoryFree` | custom_components/poise/control/calibration.py:98-136 | over every run of a device whose first climate update after a command was measured under it, on fresh evidence the gate is open exactly when the correction is the history-free one; whatever it lets through is |
| `Calibration.LateRegisterFoolsTheGate` | custom_components/poise/ha/phase_actuate.py:928-966 | from every device at rest, on every grid with room for it, a report that arrives before the register takes hold passes both halves of the gate and the difference is counted twice |
| `Calibration.LateRegisterWritesTwice` | custom_components/poise/ha/phase_actuate.py:928-988 | the run with numbers: a valve at 20 in a room at 22 on half steps is sent 2 and then 4 |
| `Calibration.LateReadingFoolsTheGate` | custom_components/poise/ha/phase_actuate.py:928-966 | a register that takes hold at once and a climate update without a new temperature pass the gate in the same way |
| `Calibration.GatedLoopWritesOnce` | custom_components/poise/ha/phase_actuate.py:949-988 | under steady sensors the gated loop on such a device writes at most once over any run, failed writes and lagging entities included, and then the one true target |
| `Calibration.TrueTargetIsAccurate` | custom_components/poise/control/calibration.py:34-44 | a target within reach leaves at most half a step of error |
| `Calibration.QuietLoopIsAccurate` | custom_components/poise/control/calibration.py:84-136 | over every run of such a device, where the gate is open, the interval has passed, the target is within reach and nothing is due, the valve on show is off the room sensor by less than the deadband and half a step |
| `Calibration.WritesAreDue` | custom_components/poise/control/calibration.py:84-96 | the memory of commands changes only on a write that went through; its value is off the reported one by at least the deadband, inside the range, and the interval has passed |
| `Calibration.UngatedLoopRunsAway` | custom_components/poise/control/calibration.py:116-124 | without the gate every decision on a stale report adds the same correction again, although the register and the number entity follow each command |
| `MouldFloor.RequiredAirTemperature` | custom_components/poise/comfort/mould_risk.py:286-326 | capped exactly when the ceiling fails; otherwise the floor is safe and a temperature one resolution below it is not; for a falling excess the floor is the least safe temperature up to the resolution |
| `MouldFloor.HalvedUndoesDoubled` | custom_components/poise/comfort/mould_risk.py:318-323 | the resolution is the initial bracket over two to the number of steps |
| `MouldFloor.ResolutionInFigures` | custom_components/poise/comfort/mould_risk.py:286-326 | the bracket runs from the outdoor temperature to 24 degrees and the resolution is that bracket over two to the sixtieth |
| `ForecastMean.MeanIsExactUnlessJumped` | custom_components/poise/control/optimal_start.py:101-135 | the result is the exact mean of the flat-extended piecewise-linear curve, which no further breakpoints change, exactly when no time that matters carries two temperatures: times of the horizon but its end, and for the end of the forecast times of the horizon but its start |
| `ForecastMean.MeanLiesBetween` | custom_components/poise/control/optimal_start.py:101-135 | the mean lies between any bounds of the sample temperatures |
| `ForecastMean.OrderDoesNotMatter` | custom_components/poise/control/optimal_start.py:116 | the order of the samples does not matter |
| `ForecastMean.MeanForecastOutdoor` | custom_components/poise/control/optimal_start.py:101-135 | the whole computation, fallback included |
| `ForecastMean.IntegrateTrapezoids` | custom_components/poise/control/optimal_start.py:131-135 | the summing loop computes the trapezoid sum over the breakpoints |
| `ForecastMean.GapSplitsExactly` | custom_components/poise/control/optimal_start.py:118-135 | between neighbouring breakpoints the trapezoid is the exact area exactly when the samples at its start agree, unless the forecast ends there, and those at its stop agree if it does |
| `ForecastMean.JumpedMeanMoves` | custom_components/poise/control/optimal_start.py:118-135 | two samples that disagree at minute 5 give the mean 2.5 over 10 minutes, and 3.75 with one more breakpoint |

## Left out

- Home Assistant glue, service dispatch, timeouts, issue registry, storage format and logging: the
  hub keeps only restore, reconcile, step, call, commit and persist, with outcomes as inputs.
- Reason strings for logs, localisation, display colours beyond the severity the latch carries, and
  the rounding of published values, among them the humidity difference, freed power and floor.
- Floating-point effects: the 1e-9 slacks of snapping and write gates, six-digit rounding, NaN.
  Arithmetic is exact; a missing or non-finite reading is `None`.
- Psychrometrics: the mould excess is an arbitrary function of the air temperature, and every
  humidity and temperature the rule table reads is an input.
- The rule table's unused parameter for the current surface humidity, and the emission edge for
  notifications.
- External override adoption, PMV, the mould growth rate, thermal prediction, flow temperature and
  source policy, compressor groups, demand aggregation: single-tick or linear claims.
- `parse_hhmm`, `always_comfort` and parsing of the stored schedule.
- LoadShedding.ResolveLoadShedding: returns the exact freed power and deficit, not the values rounded to three decimals.
- ServiceActions.ParseText: keys and values are strings already; turning other JSON values into strings is not modelled.
- FanFirst.SelectFanStage: lower-cases ASCII letters only, which decides the same labels because every known label is ASCII.
- TierLatches.DwellIsQualifiedTime: works on the live latch; persistence rounds the dwell to a tenth of a minute.
- Calibration.GatedCorrectionIsHistoryFree: the resume quarantine, the entity mismatch guard, the restore of the
  baseline and the divergence report are not modelled; foreign writes are covered by `Calibration.HistoryFreeExactly`.
- Lists that the source builds in place are local sequences here, so aliasing of those lists is not captured; none escapes.
