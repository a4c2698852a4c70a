# Verified model of the iRacelog service manager's core logic

A Dafny model of four parts of the service manager, with proofs of what they promise:

- **The stint planner** (`pkg/grpc/racestints/racestints_grpc.go`): from any point of a running race it plans
  stints and pit stops up to the end of the race. `StintPlan.dfy` holds the planner and its specification,
  `StintLaws.dfy` and `PlanLaws.dfy` the laws of a single plan, `Strategies.dfy` why no other strategy does better,
  `Replanning.dfy` the laws that compare two runs, `PlanExamples.dfy` two plans the repository's tests spell out and
  inputs for which a law fails.
- **The relationship stitcher** of the generated models (`pkg/db/models/*.bob.go`): batch loaders that link rows
  through a key -> parents map, `copyMatchingRows`, and the scan mapper with its reused buffer. `Stitching.dfy`
  says on plain sequences what stitching means and when it agrees with the nested loops it replaced;
  `CarEntriesLoader.dfy` (to-many and counts), `CarClassLoader.dfy` (to-one), `AnalysisProtoLoader.dfy` (mutual
  one-to-one), `CopyRows.dfy`, `ScanBuffer.dfy` and `ScanMapper.dfy` hold the loaders over a heap of rows;
  `StitchingExamples.dfy` has slices for which loader and loop differ.
- **The live processor** (`pkg/grpc/processing/processor.go`): `Processing.dfy` is the state machine,
  `Throttle.dfy` the snapshot throttle, `Flattening.dfy` the flattening of maps in sorted key order.
- **The event registry** (`pkg/utils/event_lookup.go`): `EventRegistry.dfy`.

Durations and times are integers in nanoseconds, and so are laps and ids; nothing overflows. The quotients the
planner takes in seconds are exact ceiling divisions (`CeilDiv`). `Times(n, a)` is `n * a` (`TimesIs`), unfolded
one step at a time. The clock, the rows a query returns, the values a database delivers, and what the car and
race processors hold after a message are parameters. Channels and callbacks are logs of what was sent.
Columns of a row are constants of its object, because no modelled operation writes them.

## What the proofs found

Each failure below is an exact condition (the lemma named first) with an input that meets it (the lemma named last).

- A plan is a single stint with a negative number of laps when the car is on track with laps left in its stint
  and the opening offset is a lap or more past the end of the race; in no other case (`StintLimits`,
  `NegativeLaps`).
- The planner adds a lap after a pit stop that outlasts the race, except after the opening stint. There a strategy
  that stops at the flag can complete one lap more than the plan; while the race is on at the opening this is the
  only such case (`MostLaps`, `LateStopAddsLap`). No strategy ever needs fewer pit stops (`FewestPitStops`).
- On the first lap of the race the planner counts session times from zero, though its caller sends the running
  session clock (`pkg/grpc/server/predict/data_provider.go:225-230`).
- So planning again at the end of a pit stop, with the clock run on, repeats the rest of the plan exactly when the
  race is still on there and the plan did not ignore a running clock, or nothing follows (`RestartAtPitExit`,
  `NoLapAfterLatePit` and `FirstLapMovesAtPitExit`). Planning again one lap later repeats the plan without that
  lap exactly when more than one lap is left in the stint or the pit stop after it ends before the race does,
  and the plan did not ignore a running clock or that lap is the last one (`ReplanOneLapLater`, `LateStopAddsLap` and
  `FirstLapMovesOneLapLater`). A new run within the first lap moves the plan, unless nothing is planned
  (`ReplanWithinLap`, `FirstLapMovesWithinLap`).
- The comments say the map-based loaders match the nested loops. They do for slices without repeated pointers.
  With a parent listed more than once:
  - to-many: it gets each child twice in a row instead of its list twice over, which shows exactly when it has
    two different children (`CarEntriesLoader.BatchMatchesNestedLoop`, `CarListedTwice`);
  - to-one: its child lists it once instead of twice (`CarClassLoader.BatchMatchesNestedLoop`,
    `CarOfClassListedTwice`);
  - mutual one-to-one: the parents point to the same rows, but a row points back to the parent that is new to the
    slice last and not to the one listed last, which differ exactly when another parent with its key is first
    listed after the one listed last has been (`AnalysisProtoLoader.BatchMatchesNestedLoop`, `EventListedAgain`).
- Two events with the same id that share an analysis row both point to it, and it points back to one of them
  (`MutuallyInverse`, `EventsShareRow`).
- The throttle emits as many snapshots as possible, for a sequence of timestamps and for everything that is left
  when some of them are dropped, exactly when no timestamp blocks two later ones: `a` blocks `b` and `c` when `a` and
  `b` are due, `c` is due after `b`, but `c` is not due after `a` (`OptimalExactlyWithoutBlocks`, `BlockLoses`).
  Timestamps that do not go back block nothing.
- A snapshot that is due before the first state message is a nil pointer panic (`PanicsBeforeFirstState`,
  `PanicsOnFirstSpeedmap`).
- `Clear` drops registry entries without closing them, and nothing else does (`InvKept`, `ClearLeaks`). An event
  removed by id is still found by it exactly when another stored event has that id (`RemovedIsGone`, `SameIdStays`).

## Model

| member | source | states |
|---|---|---|
| CeilDivision.CeilDivIsCeiling | pkg/grpc/racestints/racestints_grpc.go:102-104 | the modelled rounding is the exact ceiling of a quotient, also below zero |
| StintPlan.Calc | pkg/grpc/racestints/racestints_grpc.go:15-146 | the imperative planner, from every opening state, returns the specified plan, and terminates; the first part starts where the source's offsets put it, and a first stint at lap 1 before the start and two laps after the completed ones otherwise |
| StintPlan.PlanBuilder.AddStint | pkg/grpc/racestints/racestints_grpc.go:42-66 | appends one stint with its session times and lap numbers and returns the race time at its end |
| StintPlan.PlanBuilder.AddPitstop | pkg/grpc/racestints/racestints_grpc.go:53-71 | appends one pit stop with its session times and returns the race time at its end |
| StintPlan.OpenOnTrack | pkg/grpc/racestints/racestints_grpc.go:93-110 | opening with laps left in the stint: the parts so far and the rest from there make up the plan |
| StintPlan.OpenInPit | pkg/grpc/racestints/racestints_grpc.go:111-121 | opening with the stint used up: a pit stop, then a run to the flag of at least one lap |
| StintPlan.CompleteRace | pkg/grpc/racestints/racestints_grpc.go:126-143 | the main loop appends exactly what is left to plan; each round uses up a full stint and pit stop or passes the end of the race |
| StintPlan.RestUnrolls | pkg/grpc/racestints/racestints_grpc.go:126-143 | one round of the loop against the run to the flag, with the extra lap when the race ends during a pit stop |
| StintLaws.ToFlagIsTheRules | pkg/grpc/racestints/racestints_grpc.go:124-143 | a list of parts is what the loop plans if and only if it follows the rule book: full stints, pit stops only between stints and while the race runs, a last stint that reaches the end with no lap to spare |
| StintLaws.ToFlagClosedForm | pkg/grpc/racestints/racestints_grpc.go:126-143 | part by part closed form: K = max(0, ceil((x - full stint) / (full stint + pit))) full stints with pit stops, then one stint of max(1, ceil(rest / lap)) laps |
| StintLaws.RunsTotal | pkg/grpc/racestints/racestints_grpc.go:35-71 | for any list of parts that tiles time, total time is laps times lap time plus pit stops times pit time |
| PlanLaws.PlanTiles | pkg/grpc/racestints/racestints_grpc.go:75-143 | every plan tiles time and laps from the opening on, and stints and pit stops alternate |
| PlanLaws.PlanPart | pkg/grpc/racestints/racestints_grpc.go:35-71 | part by part: starts where the last one ended, lap ranges consecutive from the opening lap number, durations |
| PlanLaws.LapNumbers | pkg/grpc/racestints/racestints_grpc.go:19-28 | laps are numbered through from 1 before the start and from the lap after the current one otherwise, up to the last lap of the last stint |
| PlanLaws.LapsDrivenOnce | pkg/grpc/racestints/racestints_grpc.go:42-52 | a plan without negative laps has each of these laps in exactly one stint, and no others |
| PlanLaws.Opening | pkg/grpc/racestints/racestints_grpc.go:75-121 | how a plan opens, over the fields of the input: in the pit, out of stint laps, with a stint that fits and with one that does not |
| PlanLaws.AfterPitOpening | pkg/grpc/racestints/racestints_grpc.go:111-143 | from a pit stop opening on, or in the pit, the plan follows the rule book |
| PlanLaws.AfterStintOpening | pkg/grpc/racestints/racestints_grpc.go:97-143 | after the rest of a stint and its pit stop the plan follows the rule book, or is complete when the race is over by then |
| PlanLaws.PlanConserves | pkg/grpc/racestints/racestints_grpc.go:92-143 | total planned time equals laps times average lap plus pit stops times pit time, counted from the opening offset |
| PlanLaws.StintLimits | pkg/grpc/racestints/racestints_grpc.go:92-142 | all stints have 1 to Lps laps if and only if the opening offset is less than a lap past the end of the race or the car is in pit or out of stint laps; a continued stint has at most the laps left |
| PlanLaws.EndOfRace | pkg/grpc/racestints/racestints_grpc.go:92-143 | every non-empty plan reaches the end of the race, overshoots it by less than a pit stop and a lap when it opens before the end, and ends in a pit stop exactly when the opening stint beats the end and its pit stop does not |
| PlanLaws.PlanTotals | pkg/grpc/racestints/racestints_grpc.go:75-143 | the number of laps and of pit stops of a plan in closed form, across all openings |
| Strategies.FewestPitStops | pkg/grpc/racestints/racestints_grpc.go:75-143 | no strategy from where the car is, with at most the laps left before its first pit stop and at most Lps laps between pit stops, pitting early or late, needs fewer pit stops than the plan |
| Strategies.PlanIsStrategy | pkg/grpc/racestints/racestints_grpc.go:75-143 | a plan is such a strategy if and only if it is not empty and has no negative laps |
| Strategies.MostLaps | pkg/grpc/racestints/racestints_grpc.go:75-143 | no such strategy that stops at the flag completes more laps than the plan if and only if the plan does not end in a pit stop, and the race is on at the opening or the car has to pit there |
| Strategies.FewestPitStopsToFlag | pkg/grpc/racestints/racestints_grpc.go:124-143 | the same bound on pit stops from any point of the main loop |
| Strategies.MostLapsToFlag | pkg/grpc/racestints/racestints_grpc.go:124-143 | the same bound on laps from any point of the main loop, without exception |
| Replanning.LongerRaceMoreLaps | pkg/grpc/racestints/racestints_grpc.go:75-143 | with all else equal a longer race never yields fewer laps, across all openings |
| Replanning.LongerPitFewerLaps | pkg/grpc/racestints/racestints_grpc.go:75-143 | with all else equal a longer pit stop never yields more laps, across all openings |
| Replanning.RestartAtPitExit | pkg/grpc/racestints/racestints_grpc.go:21-143 | planning again at the end of any pit stop, session clock and lap count run on, yields the rest of the plan, times and lap numbers included, if and only if the race is still on there and it is not a plan of the first lap with a running clock, or nothing follows |
| Replanning.ReplanOneLapLater | pkg/grpc/racestints/racestints_grpc.go:21-143 | planning again one lap later on track, with the session clock run on, yields the plan without that lap if and only if more than one lap is left in the stint or the pit stop after it ends before the race, and it is not a plan of the first lap with a running clock or that lap is the last one |
| Replanning.ReplanWithinLap | pkg/grpc/racestints/racestints_grpc.go:30-91 | planning again within a lap yields the same plan if and only if it is not the first lap of the race or nothing is planned |
| PlanExamples.NeedThreeStints | pkg/grpc/racestints/racestints_grpc_multi_stint_test.go:63-86 | the plan the repository's test expects for a race of three stints |
| PlanExamples.LastStintEndsJustBeforeRaceEnd | pkg/grpc/racestints/racestints_grpc_multi_stint_test.go:203-229 | the plan the repository's test expects when a pit stop outlasts the race, with the extra lap |
| PlanExamples.BeforeTheStart | pkg/grpc/racestints/racestints_grpc.go:19-28 | a plan made before the start, with laps from 1 |
| PlanExamples.NegativeLaps | pkg/grpc/racestints/racestints_grpc.go:102-109 | an input whose plan is one stint of minus one lap |
| PlanExamples.NoLapAfterLatePit | pkg/grpc/racestints/racestints_grpc.go:135-137 | an input whose plan has a lap after a pit stop that planning again there does not give |
| PlanExamples.FirstLapMovesAtPitExit | pkg/grpc/racestints/racestints_grpc.go:86-91 | a first-lap input whose plan moves by the session clock when planned again at the end of its first pit stop |
| PlanExamples.FirstLapMovesOneLapLater | pkg/grpc/racestints/racestints_grpc.go:86-91 | the same when planned again one lap later |
| PlanExamples.FirstLapMovesWithinLap | pkg/grpc/racestints/racestints_grpc.go:86-91 | the same when planned again within the lap |
| PlanExamples.LateStopAddsLap | pkg/grpc/racestints/racestints_grpc.go:93-110 | an input whose opening stint beats the end of the race and its pit stop does not: planning again a lap later adds a lap, and that lap is within the rules |
| Stitching.StretchIsRepeat | pkg/db/models/c_car.bob.go:1463-1478 | each child n times in place is the list n times over if and only if n is at most one or all children are the same row |
| Stitching.NestedLists | pkg/db/models/c_car.bob.go:1453-1478 | closed form of the replaced nested loop: the list of each parent |
| Stitching.NestedOwners | pkg/db/models/c_car.bob.go:1453-1478 | closed form of the replaced nested loop: each child ends with the last parent that has its key |
| Stitching.NestedParents | pkg/db/models/c_car.bob.go:1300-1329 | closed form of the replaced nested loop with break: the parents each child collects |
| Stitching.MatchedIsNested | pkg/db/models/c_car.bob.go:1310-1329 | the collected parents agree with that loop if and only if no parent with the key is listed twice or another child came first |
| Stitching.MatchedPartition | pkg/db/models/c_car.bob.go:1310-1329 | every parent that has a child is collected once, by the first child with its key, and nowhere else |
| Stitching.NestedPairsOwner | pkg/db/models/event.bob.go:2306-2336 | closed form of the replaced nested loop of a mutual one-to-one relation: a child ends with the last parent that has its key |
| Stitching.DedupLast | pkg/db/models/event.bob.go:2323-2334 | an element is the last one new to a list if and only if nothing new follows its first occurrence |
| Models.CarsOf | pkg/db/models/c_car.bob.go:1453-1461 | a slice without nil pointers is its own list of cars, and a nil pointer gives none |
| Models.CarsAppend | pkg/db/models/c_car.bob.go:1453-1461 | the cars of two slices one after the other are those of the first and then those of the second |
| Models.EventsOf | pkg/db/models/event.bob.go:2306-2314 | the same for events |
| Models.EventsAppend | pkg/db/models/event.bob.go:2306-2314 | the same for events |
| Grouping.GroupCars | pkg/db/models/c_car.bob.go:1453-1461 | the key -> parents map holds the non-nil parents of each key and no empty groups; a car listed first in the slice comes first in its group |
| Grouping.GroupEvents | pkg/db/models/event.bob.go:2306-2314 | the same for events |
| CarEntriesLoader.LoadCCarEntries | pkg/db/models/c_car.bob.go:1435-1481 | for any slice, nil and repeated pointers included, the full new state: lists, loaded flags, back pointers; nothing changes for an empty slice or a failed query |
| CarEntriesLoader.OwnerIsLastListed | pkg/db/models/c_car.bob.go:1453-1477 | over the slice: an entry points to the last car in it that has its car id |
| CarEntriesLoader.OwnerStays | pkg/db/models/c_car.bob.go:1463-1468 | an entry whose car is not in the slice is left as it was |
| CarEntriesLoader.ListHoldsOwnEntries | pkg/db/models/c_car.bob.go:1444-1477 | over the slice: a car's list holds exactly the rows with its id, in the order of the rows; the loaded flag is set, and nothing else changes |
| CarEntriesLoader.AppendToOwners | pkg/db/models/c_car.bob.go:1470-1477 | the inner loop: each owner gains the child once per occurrence, the child points to the last owner |
| CarEntriesLoader.LoadCCarEntriesOf | pkg/db/models/c_car.bob.go:1410-1432 | the single-object loader; its reset stays when the query fails |
| CarEntriesLoader.LoadCountCCarEntries | pkg/db/models/c_car.bob.go:1562-1623 | every car gets its group's count, zero without one |
| CarEntriesLoader.LastCountOf | pkg/db/models/c_car.bob.go:1605-1621 | a later count for the same car replaces an earlier one |
| CarEntriesLoader.NoCountOf | pkg/db/models/c_car.bob.go:1611-1621 | a car without a count has zero |
| CarEntriesLoader.BatchMatchesNestedLoop | pkg/db/models/c_car.bob.go:1453-1478 | the batch loader agrees with the nested loop on all back pointers, and on a list if and only if the parent is listed at most once or its children are one row |
| CarEntriesLoader.QueryKeepsChildren | pkg/db/models/c_car.bob.go:734-748 | the batch query returns all rows of each car in table order |
| CarEntriesLoader.BatchMatchesSingle | pkg/db/models/c_car.bob.go:1410-1481 | for distinct ids the batch loader leaves each car and its entries as the single-object loader would |
| CarEntriesLoader.CountsMatchLists | pkg/db/models/c_car.bob.go:1562-1623 | the batch count of a car times how often it is listed is the length of its loaded list |
| CarClassLoader.LoadCCarClass | pkg/db/models/c_car.bob.go:1282-1332 | the full new state: every car has the first class with its key or none, the classes' back lists grow by the cars that chose them; of two cars that chose one class, the one listed first in the slice comes first in its list |
| CarClassLoader.ClassIsFirstRow | pkg/db/models/c_car.bob.go:1291-1328 | a car's class is the first row with the car's class id, none if there is no such row; the loaded flag is set, and nothing else changes |
| CarClassLoader.ListGainsItsCars | pkg/db/models/c_car.bob.go:1310-1328 | a class keeps its list and gains exactly the cars of the slice that chose it |
| CarClassLoader.OfferToOwners | pkg/db/models/c_car.bob.go:1317-1328 | the inner loop: owners without a class take this one, once each, owners with one are skipped |
| CarClassLoader.BatchMatchesNestedLoop | pkg/db/models/c_car.bob.go:1300-1329 | agrees with the nested loop with break on every car, and on a back list if and only if no car with its key is listed twice or another class came first |
| CarClassLoader.BackListsPartition | pkg/db/models/c_car.bob.go:1310-1329 | starting empty, the back lists partition the cars that have a class |
| AnalysisProtoLoader.LoadAnalysisProto | pkg/db/models/event.bob.go:2288-2339 | the full new state of events and analysis rows, loaded flag set for matched and unmatched events alike |
| AnalysisProtoLoader.ProtoIsFirstRow | pkg/db/models/event.bob.go:2297-2335 | an event points to the first row with its id, to none if there is no such row |
| AnalysisProtoLoader.BackIsLastNew | pkg/db/models/event.bob.go:2316-2336 | over the slice: a row points back to an event that points to it, the one listed for the first time after all others |
| AnalysisProtoLoader.UnclaimedRowStays | pkg/db/models/event.bob.go:2316-2321 | a row that no event points to is left as it was |
| AnalysisProtoLoader.MutuallyInverse | pkg/db/models/event.bob.go:2316-2336 | the pointers are inverse to each other if and only if no two events with the same id share an analysis row |
| AnalysisProtoLoader.BatchMatchesNestedLoop | pkg/db/models/event.bob.go:2306-2336 | agrees with the nested loop on every event's pointer, and on a row's back pointer if and only if another row with its key came first, no event has its key, or no event with its key is first listed after the one listed last has been |
| AnalysisProtoLoader.BatchMatchesNestedLoopOnce | pkg/db/models/event.bob.go:2306-2336 | all back pointers agree when no event is listed twice |
| StitchingExamples.CarListedTwice | pkg/db/models/c_car.bob.go:1463-1478 | the two different lists of a car listed twice with two entries |
| StitchingExamples.CarOfClassListedTwice | pkg/db/models/c_car.bob.go:1310-1329 | the two different back lists for a car listed twice |
| StitchingExamples.EventsShareRow | pkg/db/models/event.bob.go:2316-2336 | two events with one id and one row, whose pointers are not inverse |
| StitchingExamples.EventListedAgain | pkg/db/models/event.bob.go:2316-2336 | the two different back pointers of a row whose first event is listed again |
| CopyRows.FirstByPK | pkg/db/models/c_car.bob.go:544-550 | the map holds the first incoming row for each key |
| CopyRows.CopyMatchingRows | pkg/db/models/c_car.bob.go:543-560 | keys kept, unmatched slots unchanged, matched slots hold the first incoming row with the key; whose relationships each incoming row ends up with, also when rows are shared |
| CopyRows.CopyMatchesNestedLoop | pkg/db/models/c_car.bob.go:543-560 | the nested loop leaves the same slots and relationships, for every slice and every list of incoming rows |
| CopyRows.NewRowTakesLastSlot | pkg/db/models/c_car.bob.go:552-559 | a row that is not in the slice takes the relationships of the last old slot with its key |
| ScanBuffer.ScanOverwrites | pkg/db/models/c_car.bob.go:1063-1075 | scanning a row overwrites every selected column with its last cell and no other column |
| ScanBuffer.LastCellCounts | pkg/db/models/c_car.bob.go:1070-1074 | of several result columns for the same column the last one counts |
| ScanBuffer.ReuseIsUnobservable | pkg/db/models/c_car.bob.go:1063-1075 | with a buffer left over from any rows, scanning gives what a fresh buffer would |
| ScanBuffer.AllNullMeansNoChild | pkg/db/models/c_car.bob.go:1021-1025 | a row whose prefixed columns are all NULL has no child |
| ScanMapper.ResolveTargets | pkg/db/models/c_car.bob.go:1033-1061 | the targets are the resolved result columns, in order; which they are says ColumnByName |
| ScanMapper.ColumnByName | pkg/db/models/c_car.bob.go:1033-1061 | a result column is resolved to a column of the table exactly if its name is the prefix and the name of that column, for each of the ten |
| ScanMapper.ScanRow | pkg/db/models/c_car.bob.go:1070-1074 | the buffer after scanning one row into the targets |
| ScanMapper.BuildChild | pkg/db/models/c_car.bob.go:1075-1127 | no object if every column is NULL, else a new object with the values and zeros |
| ScanMapper.FreshObject | pkg/db/models/c_car.bob.go:1095-1126 | each field is the last cell for its column, zero if NULL or not selected |
| ScanMapper.MapRows | pkg/db/models/c_car.bob.go:1026-1129 | over any sequence of rows with one buffer: each row gives no object if and only if its cells are NULL, else a new object, shared with no other row, equal to what a fresh buffer would give; by name of the result columns, each field has the value of its column and zero for NULL |
| ScanMapper.ObjectByName | pkg/db/models/c_car.bob.go:1033-1127 | an object has the value of each named column in the field of that name, in any order of the columns and with others in between, and is nil exactly if all are NULL |
| ScanMapper.RoundTrip | pkg/db/models/c_car.bob.go:1033-1127 | a row that delivers the columns of a car under their prefixed names gives a car with exactly these columns |
| ScanMapper.RowIsTyped | pkg/db/models/c_car.bob.go:1006-1019 | such rows have the types the mapper asks for |
| Throttle.GreedySpaced | pkg/grpc/processing/processor.go:104-123 | for any timestamps the emitted times are a subsequence with gaps over two minutes |
| Throttle.SpacedMeans | pkg/grpc/processing/processor.go:105-105 | such times are strictly increasing, any two more than 2 * 60 * 10^9 ns apart |
| Throttle.TwoMinutes | pkg/grpc/processing/processor.go:105-105 | the next time is emitted exactly if it is more than two minutes after the last one |
| Throttle.OptimalExactlyWithoutBlocks | pkg/grpc/processing/processor.go:100-125 | for any timestamps, no choice with gaps over two minutes is larger, whichever of them arrive, if and only if none of them blocks two others |
| Throttle.GreedyIsOptimalWithoutBlocks | pkg/grpc/processing/processor.go:100-125 | the bound for timestamps that block none, also when they go back |
| Throttle.BlockLoses | pkg/grpc/processing/processor.go:100-125 | each block costs a snapshot: one is emitted where two were possible |
| Throttle.GreedyIsOptimal | pkg/grpc/processing/processor.go:100-125 | in particular no choice is larger for nondecreasing timestamps |
| Flattening.LeqMeans | pkg/grpc/processing/processor.go:157-157 | the order of strings: by the first character that differs, and a string before its extensions |
| Flattening.SortedUnique | pkg/grpc/processing/processor.go:152-159 | there is one way to list the same strings in sorted order |
| Flattening.SortedMapKeys | pkg/grpc/processing/processor.go:152-159 | the keys in sorted order, whatever the iteration order |
| Flattening.FlattenByReference | pkg/grpc/processing/processor.go:169-177 | the values of the keys both in the map and in the reference, in the order of the reference |
| Flattening.FlattenedInKeyOrder | pkg/grpc/processing/processor.go:169-177 | with a sorted reference these are exactly the common keys in sorted order |
| Flattening.FlattenedLosesNothing | pkg/grpc/processing/processor.go:169-177 | when the reference has all keys, every value is kept once, in key order |
| Flattening.FlattenRaceGraph | pkg/grpc/processing/processor.go:161-167 | the concatenation of the classes' lists in the order of the reference |
| Flattening.GraphBlocks | pkg/grpc/processing/processor.go:161-167 | each class is one unbroken block of the race graph with its elements in their own order |
| Flattening.GraphIsConcat | pkg/grpc/processing/processor.go:161-167 | for keys of the map the race graph is their lists, one after the other |
| Processing.Processor.ComposeAnalysisData | pkg/grpc/processing/processor.go:133-150 | field by field: the values of the named map at the keys it shares with the cars by number, in sorted key order; the race graph is one list per class in sorted order; the race order is unchanged |
| Processing.AnalysisShows | pkg/grpc/processing/processor.go:133-150 | the same of the analysis the state machine sends |
| Processing.Processor.ProcessState | pkg/grpc/processing/processor.go:74-88 | the full new state and everything sent for a state message |
| Processing.Processor.ProcessCarData | pkg/grpc/processing/processor.go:90-98 | the same for driver data |
| Processing.Processor.ProcessSpeedmap | pkg/grpc/processing/processor.go:100-125 | the same for a speedmap, given session data when a snapshot is due |
| Processing.SnapshotsAreGreedy | pkg/grpc/processing/processor.go:100-125 | over every run of messages the snapshots are those the throttle picks from the speedmap times |
| Processing.RunsThrottle | pkg/grpc/processing/processor.go:100-125 | over every run snapshots are spaced, and as many as possible unless a speedmap's timestamp blocks two later ones |
| Processing.SnapshotOrigin | pkg/grpc/processing/processor.go:87-122 | each snapshot has the time and lap times of one speedmap and the session data of the latest state message before it |
| Processing.PanicsBeforeFirstState | pkg/grpc/processing/processor.go:105-122 | a run panics if and only if a snapshot is due before the first state message |
| Processing.PanicsOnFirstSpeedmap | pkg/grpc/processing/processor.go:105-122 | a new processor panics on a first message that is a speedmap past the first two minutes of the clock |
| Processing.ForwardsInOrder | pkg/grpc/processing/processor.go:74-103 | every run forwards the messages of each kind on their own channel, all of them and in order |
| Processing.ReplayInfosInOrder | pkg/grpc/processing/processor.go:83-85 | every run sends the replay info of each state message, in order, if the channel is there |
| Processing.HoldsLatestCars | pkg/grpc/processing/processor.go:74-98 | after a run the car processor holds what came with the last state or driver data message |
| Processing.HoldsLatestState | pkg/grpc/processing/processor.go:74-88 | after a run the race processor and the session data are those of the last state message |
| Processing.AnalysisOrigin | pkg/grpc/processing/processor.go:74-98 | each analysis of a run shows what the processors hold right after one of its state or driver data messages |
| Processing.NoAnalysisWithoutChannel | pkg/grpc/processing/processor.go:77-79 | without the channel no analysis is sent |
| Processing.AnalysisStaysCurrent | pkg/grpc/processing/processor.go:74-98 | every run sends one analysis per state and driver data message, and the last one shows what the car and race processors hold |
| EventRegistry.EventLookup.AddEvent | pkg/utils/event_lookup.go:102-169 | nil and no change if the key is taken, else a fresh entry stored under its key |
| EventRegistry.EventLookup.GetEvent | pkg/utils/event_lookup.go:176-203 | an entry with that id, a negative id standing for its 32-bit two's complement, the entry under that key, or none exactly if there is none |
| EventRegistry.AnswersById | pkg/utils/event_lookup.go:183-190 | which entries an id selects, also for removing by id |
| EventRegistry.EventLookup.RemoveEvent | pkg/utils/event_lookup.go:205-212 | the entry found is closed and deleted, no other entry changes |
| EventRegistry.EventLookup.Clear | pkg/utils/event_lookup.go:225-229 | nothing is stored any more, nothing is closed |
| EventRegistry.EventLookup.CollectStale | pkg/utils/event_lookup.go:252-260 | exactly the stored entries idle for longer than the stale duration, each once |
| EventRegistry.EventLookup.SweepStale | pkg/utils/event_lookup.go:252-267 | one sweep is one step of the state machine |
| EventRegistry.MarkIsStep | pkg/utils/event_lookup.go:273-275 | marking a data event changes one entry's time and nothing else |
| EventRegistry.SweepRemovesExactlyIdle | pkg/utils/event_lookup.go:252-267 | a sweep keeps exactly the entries idle no longer than the stale duration and closes exactly the others, once |
| EventRegistry.SweepReportsEachOnce | pkg/utils/event_lookup.go:261-267 | with a callback set a sweep reports each removed key once and no other key |
| EventRegistry.InvKept | pkg/utils/event_lookup.go:102-275 | every step keeps: entries stored under their own keys, stored entries open, none closed twice; only Clear drops entries unclosed |
| EventRegistry.EveryRun | pkg/utils/event_lookup.go:102-275 | the same over every run of operations |
| EventRegistry.RunsFromEmpty | pkg/utils/event_lookup.go:47-64 | over every run of a new registry without Clear each entry ever created is stored and open, or closed exactly once |
| EventRegistry.RemovedIsGone | pkg/utils/event_lookup.go:186-212 | removing by key makes the key unknown; removing by id makes the id unknown if and only if no other stored event has it |
| EventRegistry.ClearLeaks | pkg/utils/event_lookup.go:225-229 | a run that leaves an entry open and no longer stored |
| EventRegistry.SameIdStays | pkg/utils/event_lookup.go:186-212 | two stored events with one id: after removing one by id the id is still known |

## Left out

- StintPlan.Calc: does not model rounding of the quotients of seconds as floating point, nor overflow of durations and lap numbers; parameters that are missing altogether (nil messages) are not modelled.
- Strategies.MostLaps: compares with strategies whose last stint reaches the end of the race; the laps of one that gives up earlier are not compared.
- Processing.Processor.ProcessState: a state message without session data, which the car and race processors dereference first, is not modelled.
- ScanMapper.MapRows: rows hold values of the columns' types; the scan library's conversion errors are not modelled.
- ScanMapper.BuildChild: the ten nullable fields of the buffer are one map from column to value, NULL being absence.
- CopyRows.CopyMatchingRows: the incoming rows are a value, so a caller that passes the slice's own backing array is not modelled.
- CarEntriesLoader.LoadCountCCarEntries: the count pointer is an optional value.
- Flattening.SortedMapKeys: the library's string sort is an insertion sort on characters, which has the same result by `SortedUnique`.
- Processing.Processor.ProcessSpeedmap: the saturation of time differences at 292 years is not modelled; it does not change the comparison with two minutes.
- EventRegistry.EventLookup.SweepStale: the sweep is one atomic step with one reading of the clock, though the source takes no lock for it.
- EventRegistry.EventLookup.AddEvent: the processors, channels, listeners and six broadcast servers of an entry are one count of how often they were closed.
- The nested loops the loaders replaced are not in the repository; they are taken from the comments (every parent against every child, with a break in to-one relations).
- Query building, hooks and executors: a query is a filtering or grouping of a fixed sequence of rows.
- Other relations and models (`LoadTrack`, `LoadCCars`, `LoadEvent`, `Preload`, `Attach*`, `Insert*`): the same template or direct assignments.
- Car and race processors, broadcast servers, storage and transport of what is published.
- `GetEvents`, `Close` of the registry, `CollectRaceSessions`, option setters, calculation type parsing: direct reads and writes.
