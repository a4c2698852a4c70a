/** The live processor of pkg/grpc/processing/processor.go. What the car and race processors hold after a
    message is part of the message; E stands for the values they hold. Channels are logs of sent values. */
module Processing {
  import opened Flattening
  import opened Options
  import opened Throttle

  datatype Session = Session(
    sessionTime: real, timeOfDay: int, airTemp: real, trackTemp: real, trackWetness: int, precipitation: real)

  datatype CarState<E> = CarState(
    byCarNum: map<string, E>, computeState: map<string, E>, stintLookup: map<string, E>,
    pitLookup: map<string, E>, carOccupancyLookup: map<string, E>)

  datatype RaceState<E> = RaceState(
    raceOrder: seq<string>, raceGraph: map<string, seq<E>>, carLaps: map<string, E>, replayInfo: E)

  datatype Analysis<E> = Analysis(
    raceOrder: seq<string>, carLaps: seq<E>, carComputeStates: seq<E>, carStints: seq<E>, carPits: seq<E>,
    carOccupancies: seq<E>, raceGraph: seq<E>)

  datatype Snapshot = Snapshot(recordStamp: int, session: Session, carClassLaptimes: map<string, real>)

  datatype Message<E> =
    | StateMsg(session: Session, cars: CarState<E>, race: RaceState<E>)
    | CarDataMsg(driverData: E, cars: CarState<E>)
    | SpeedmapMsg(timestamp: int, laptimes: map<string, real>)

  // Which publish channels are present.
  datatype Channels = Channels(
    analysis: bool, racestate: bool, driverData: bool, speedmap: bool, replayInfo: bool, snapshot: bool)

  datatype Sent<E> = Sent(
    analysis: seq<Analysis<E>>, racestate: seq<Message<E>>, driverData: seq<Message<E>>,
    speedmap: seq<Message<E>>, replayInfo: seq<E>, snapshots: seq<Snapshot>)

  datatype State<E> = State(
    channels: Channels, cars: CarState<E>, race: RaceState<E>, lastSnapshotTime: int,
    lastSessionData: Option<Session>, sent: Sent<E>)

  // ----- specification -----

  ghost function Flat<E>(data: map<string, E>, reference: set<string>): seq<E> {
    ValuesOf(data, KeysIn(data, SortedKeys(reference)))
  }

  ghost function AnalysisOf<E>(cars: CarState<E>, race: RaceState<E>): Analysis<E> {
    var nums := cars.byCarNum.Keys;
    Analysis(race.raceOrder, Flat(race.carLaps, nums), Flat(cars.computeState, nums), Flat(cars.stintLookup, nums),
             Flat(cars.pitLookup, nums), Flat(cars.carOccupancyLookup, nums),
             Graph(race.raceGraph, SortedKeys(race.raceGraph.Keys)))
  }

  // The values of the common keys, in sorted order of the keys.
  ghost function InKeyOrder<E>(data: map<string, E>, reference: set<string>): (r: seq<E>)
    ensures |r| == |SortedKeys(data.Keys * reference)|
    ensures forall i :: 0 <= i < |r| ==>
      SortedKeys(data.Keys * reference)[i] in data && r[i] == data[SortedKeys(data.Keys * reference)[i]]
  {
    SortedKeysIn(data.Keys * reference);
    ValuesOf(data, SortedKeys(data.Keys * reference))
  }

  /** What an analysis shows: of each of these maps the values of the cars known by number, in sorted order of the
      numbers; of the race graph the list of every class, in sorted order of the classes; and the race order. */
  lemma AnalysisShows<E>(cars: CarState<E>, race: RaceState<E>)
    ensures var analysis := AnalysisOf(cars, race);
      && analysis.raceOrder == race.raceOrder
      && analysis.carLaps == InKeyOrder(race.carLaps, cars.byCarNum.Keys)
      && analysis.carComputeStates == InKeyOrder(cars.computeState, cars.byCarNum.Keys)
      && analysis.carStints == InKeyOrder(cars.stintLookup, cars.byCarNum.Keys)
      && analysis.carPits == InKeyOrder(cars.pitLookup, cars.byCarNum.Keys)
      && analysis.carOccupancies == InKeyOrder(cars.carOccupancyLookup, cars.byCarNum.Keys)
      && analysis.raceGraph == Concat(InKeyOrder(race.raceGraph, race.raceGraph.Keys))
  {
    var nums := cars.byCarNum.Keys;
    FlatInKeyOrder(race.carLaps, nums);
    FlatInKeyOrder(cars.computeState, nums);
    FlatInKeyOrder(cars.stintLookup, nums);
    FlatInKeyOrder(cars.pitLookup, nums);
    FlatInKeyOrder(cars.carOccupancyLookup, nums);
    GraphInKeyOrder(race.raceGraph);
  }

  lemma FlatInKeyOrder<E>(data: map<string, E>, reference: set<string>)
    ensures Flat(data, reference) == InKeyOrder(data, reference)
  {
    FlattenedInKeyOrder(data, reference);
  }

  lemma GraphInKeyOrder<E>(graph: map<string, seq<E>>)
    ensures Graph(graph, SortedKeys(graph.Keys)) == Concat(InKeyOrder(graph, graph.Keys))
  {
    SortedKeysIn(graph.Keys);
    GraphIsConcat(graph, SortedKeys(graph.Keys));
    assert graph.Keys * graph.Keys == graph.Keys;
  }

  lemma SortedKeysIn(s: set<string>)
    ensures forall i :: 0 <= i < |SortedKeys(s)| ==> SortedKeys(s)[i] in s
  {
    forall i | 0 <= i < |SortedKeys(s)| ensures SortedKeys(s)[i] in s {
      assert SortedKeys(s)[i] in multiset(SortedKeys(s));
    }
  }

  function Log<T>(on: bool, log: seq<T>, x: T): seq<T> { if on then log + [x] else log }

  predicate SnapshotDue<E>(s: State<E>, timestamp: int) {
    s.channels.snapshot && timestamp - s.lastSnapshotTime > MIN_GAP
  }

  /** One message; None is the source's nil pointer panic, a snapshot that is due before any session data. */
  ghost function Step<E>(s: State<E>, m: Message<E>): Option<State<E>> {
    match m
    case StateMsg(session, cars, race) =>
      Some(s.(cars := cars, race := race, lastSessionData := Some(session), sent := s.sent.(
        analysis := Log(s.channels.analysis, s.sent.analysis, AnalysisOf(cars, race)),
        racestate := Log(s.channels.racestate, s.sent.racestate, m),
        replayInfo := Log(s.channels.replayInfo, s.sent.replayInfo, race.replayInfo))))
    case CarDataMsg(_, cars) =>
      Some(s.(cars := cars, sent := s.sent.(
        driverData := Log(s.channels.driverData, s.sent.driverData, m),
        analysis := Log(s.channels.analysis, s.sent.analysis, AnalysisOf(cars, s.race)))))
    case SpeedmapMsg(timestamp, laptimes) =>
      var s' := s.(sent := s.sent.(speedmap := Log(s.channels.speedmap, s.sent.speedmap, m)));
      if !SnapshotDue(s, timestamp) then Some(s')
      else match s.lastSessionData
        case None => None
        case Some(session) =>
          var snapshot := Snapshot(timestamp, session, laptimes);
          Some(s'.(lastSnapshotTime := timestamp, sent := s'.sent.(snapshots := s'.sent.snapshots + [snapshot])))
  }

  ghost function Run<E>(s: State<E>, msgs: seq<Message<E>>): Option<State<E>>
    decreases msgs
  {
    if msgs == [] then Some(s)
    else match Step(s, msgs[0])
      case None => None
      case Some(s') => Run(s', msgs[1..])
  }

  // ----- the processor -----

  class Processor<E> {
    const channels: Channels
    var cars: CarState<E>
    var race: RaceState<E>
    var lastSnapshotTime: int
    var lastSessionData: Option<Session>
    var sent: Sent<E>

    constructor (channels: Channels, cars: CarState<E>, race: RaceState<E>)
      ensures Abs() == State(channels, cars, race, 0, None, Sent([], [], [], [], [], []))
    {
      this.channels, this.cars, this.race := channels, cars, race;
      lastSnapshotTime, lastSessionData, sent := 0, None, Sent([], [], [], [], [], []);
    }

    ghost function Abs(): State<E>
      reads this
    {
      State(channels, cars, race, lastSnapshotTime, lastSessionData, sent)
    }

    method ProcessState(payload: Message<E>)
      requires payload.StateMsg?
      modifies this
      ensures Some(Abs()) == Step(old(Abs()), payload)
    {
      cars, race := payload.cars, payload.race;
      if channels.analysis {
        var analysis := ComposeAnalysisData();
        sent := sent.(analysis := sent.analysis + [analysis]);
      }
      if channels.racestate {
        sent := sent.(racestate := sent.racestate + [payload]);
      }
      if channels.replayInfo {
        sent := sent.(replayInfo := sent.replayInfo + [race.replayInfo]);
      }
      lastSessionData := Some(payload.session);
    }

    method ProcessCarData(payload: Message<E>)
      requires payload.CarDataMsg?
      modifies this
      ensures Some(Abs()) == Step(old(Abs()), payload)
    {
      cars := payload.cars;
      if channels.driverData {
        sent := sent.(driverData := sent.driverData + [payload]);
      }
      if channels.analysis {
        var analysis := ComposeAnalysisData();
        sent := sent.(analysis := sent.analysis + [analysis]);
      }
    }

    method ProcessSpeedmap(payload: Message<E>)
      requires payload.SpeedmapMsg?
      requires SnapshotDue(Abs(), payload.timestamp) ==> lastSessionData.Some?
      modifies this
      ensures Some(Abs()) == Step(old(Abs()), payload)
    {
      if channels.speedmap {
        sent := sent.(speedmap := sent.speedmap + [payload]);
      }
      if channels.snapshot {
        var condition := payload.timestamp - lastSnapshotTime > MIN_GAP;
        if condition {
          var carClassLaptimes := CopyLaptimes(payload.laptimes);
          sent := sent.(snapshots := sent.snapshots
            + [Snapshot(payload.timestamp, lastSessionData.value, carClassLaptimes)]);
          lastSnapshotTime := payload.timestamp;
        }
      }
    }

    method ComposeAnalysisData() returns (analysis: Analysis<E>)
      ensures analysis == AnalysisOf(cars, race)
      ensures analysis.raceOrder == race.raceOrder
      ensures analysis.carLaps == InKeyOrder(race.carLaps, cars.byCarNum.Keys)
      ensures analysis.carComputeStates == InKeyOrder(cars.computeState, cars.byCarNum.Keys)
      ensures analysis.carStints == InKeyOrder(cars.stintLookup, cars.byCarNum.Keys)
      ensures analysis.carPits == InKeyOrder(cars.pitLookup, cars.byCarNum.Keys)
      ensures analysis.carOccupancies == InKeyOrder(cars.carOccupancyLookup, cars.byCarNum.Keys)
      ensures analysis.raceGraph == Concat(InKeyOrder(race.raceGraph, race.raceGraph.Keys))
    {
      AnalysisShows(cars, race);
      var classes := SortedMapKeys(race.raceGraph);
      var carNums := SortedMapKeys(cars.byCarNum);
      var carLaps := FlattenByReference(race.carLaps, carNums);
      var computeStates := FlattenByReference(cars.computeState, carNums);
      var stints := FlattenByReference(cars.stintLookup, carNums);
      var pits := FlattenByReference(cars.pitLookup, carNums);
      var occupancies := FlattenByReference(cars.carOccupancyLookup, carNums);
      var raceGraph := FlattenRaceGraph(race.raceGraph, classes);
      analysis := Analysis(race.raceOrder, carLaps, computeStates, stints, pits, occupancies, raceGraph);
    }
  }

  method CopyLaptimes(data: map<string, real>) returns (laptimes: map<string, real>)
    ensures laptimes == data
  {
    laptimes := map[];
    var rest := data.Keys;
    while rest != {}
      invariant rest <= data.Keys && laptimes.Keys == data.Keys - rest
      invariant forall k <- laptimes :: laptimes[k] == data[k]
      decreases |rest|
    {
      var k :| k in rest;
      laptimes := laptimes[k := data[k]];
      rest := rest - {k};
    }
  }

  // ----- whole runs -----

  ghost function SpeedmapTimes<E>(msgs: seq<Message<E>>): seq<int> {
    if msgs == [] then []
    else (if msgs[0].SpeedmapMsg? then [msgs[0].timestamp] else []) + SpeedmapTimes(msgs[1..])
  }

  ghost function Stamps(snapshots: seq<Snapshot>): seq<int> {
    seq(|snapshots|, i requires 0 <= i < |snapshots| => snapshots[i].recordStamp)
  }

  // The snapshots a run adds.
  ghost function Picked<E>(s: State<E>, msgs: seq<Message<E>>): seq<int> {
    if s.channels.snapshot then Greedy(s.lastSnapshotTime, SpeedmapTimes(msgs)) else []
  }

  ghost function Emitted<E>(s: State<E>): seq<int> { Stamps(s.sent.snapshots) }

  lemma StepSnapshots<E>(s: State<E>, m: Message<E>, s': State<E>)
    requires Step(s, m) == Some(s')
    ensures s'.channels == s.channels
    ensures m.SpeedmapMsg? && SnapshotDue(s, m.timestamp) ==>
      s'.lastSnapshotTime == m.timestamp && Emitted(s') == Emitted(s) + [m.timestamp]
    ensures !(m.SpeedmapMsg? && SnapshotDue(s, m.timestamp)) ==>
      s'.lastSnapshotTime == s.lastSnapshotTime && Emitted(s') == Emitted(s)
  {
  }

  lemma PickedStep<E>(s: State<E>, msgs: seq<Message<E>>, s': State<E>)
    requires msgs != [] && Step(s, msgs[0]) == Some(s')
    ensures Emitted(s') + Picked(s', msgs[1..]) == Emitted(s) + Picked(s, msgs)
  {
    var m, times, rest := msgs[0], SpeedmapTimes(msgs), SpeedmapTimes(msgs[1..]);
    StepSnapshots(s, m, s');
    if m.SpeedmapMsg? {
      assert times[0] == m.timestamp && times[1..] == rest;
      if SnapshotDue(s, m.timestamp) {
        var before, later := Emitted(s), Picked(s', msgs[1..]);
        assert Picked(s, msgs) == [m.timestamp] + later;
        assert (before + [m.timestamp]) + later == before + ([m.timestamp] + later);
      }
    } else {
      assert times == rest;
    }
  }

  /** Over every run the emitted snapshots are those the greedy throttle picks from the speedmap times. */
  lemma {:induction false} SnapshotsAreGreedy<E>(s: State<E>, msgs: seq<Message<E>>)
    requires Run(s, msgs).Some?
    ensures Emitted(Run(s, msgs).value) == Emitted(s) + Picked(s, msgs)
    decreases msgs
  {
    if msgs == [] {
      assert SpeedmapTimes(msgs) == [];
    } else {
      var s' := Step(s, msgs[0]).value;
      PickedStep(s, msgs, s');
      SnapshotsAreGreedy(s', msgs[1..]);
    }
  }

  /** From a new processor on, the snapshots of any run are more than two minutes apart, and no such selection
      of the speedmaps is larger, unless one of their timestamps blocks two others. */
  lemma RunsThrottle<E>(s: State<E>, msgs: seq<Message<E>>)
    requires Run(s, msgs).Some? && s.channels.snapshot && s.sent.snapshots == []
    ensures var stamps, times := Emitted(Run(s, msgs).value), SpeedmapTimes(msgs);
      && Spaced(s.lastSnapshotTime, stamps)
      && Subsequence(stamps, times)
      && (NoBlock(s.lastSnapshotTime, times) ==> forall picked ::
            Subsequence(picked, times) && Spaced(s.lastSnapshotTime, picked) ==> |picked| <= |stamps|)
  {
    var last, times := s.lastSnapshotTime, SpeedmapTimes(msgs);
    SnapshotsAreGreedy(s, msgs);
    assert Emitted(s) + Greedy(last, times) == Greedy(last, times);
    GreedySpaced(last, times);
    forall picked | NoBlock(last, times) && Subsequence(picked, times) && Spaced(last, picked)
      ensures |picked| <= |Greedy(last, times)|
    {
      GreedyIsOptimalWithoutBlocks(last, times, picked);
    }
  }

  // The messages of one kind, in order.
  ghost function Only<E>(msgs: seq<Message<E>>, kind: Message<E> -> bool): seq<Message<E>> {
    if msgs == [] then []
    else if kind(msgs[0]) then [msgs[0]] + Only(msgs[1..], kind) else Only(msgs[1..], kind)
  }

  predicate IsState<E>(m: Message<E>) { m.StateMsg? }
  predicate IsCarData<E>(m: Message<E>) { m.CarDataMsg? }
  predicate IsSpeedmap<E>(m: Message<E>) { m.SpeedmapMsg? }

  lemma OnlyStep<E>(log: seq<Message<E>>, msgs: seq<Message<E>>, kind: Message<E> -> bool)
    requires msgs != []
    ensures log + Only(msgs, kind)
         == (if kind(msgs[0]) then log + [msgs[0]] else log) + Only(msgs[1..], kind)
  {
  }

  ghost predicate LogGrew<E>(on: bool, before: seq<Message<E>>, after: seq<Message<E>>, msgs: seq<Message<E>>) {
    after == if on then before + msgs else before
  }

  /** Every run forwards the messages of each kind on their own channel, all of them and in order. */
  lemma {:induction false} ForwardsInOrder<E>(s: State<E>, msgs: seq<Message<E>>)
    requires Run(s, msgs).Some?
    ensures var r := Run(s, msgs).value;
      && LogGrew(s.channels.racestate, s.sent.racestate, r.sent.racestate, Only(msgs, IsState))
      && LogGrew(s.channels.driverData, s.sent.driverData, r.sent.driverData, Only(msgs, IsCarData))
      && LogGrew(s.channels.speedmap, s.sent.speedmap, r.sent.speedmap, Only(msgs, IsSpeedmap))
    decreases msgs
  {
    if msgs != [] {
      ForwardsInOrder(Step(s, msgs[0]).value, msgs[1..]);
      OnlyStep(s.sent.racestate, msgs, IsState);
      OnlyStep(s.sent.driverData, msgs, IsCarData);
      OnlyStep(s.sent.speedmap, msgs, IsSpeedmap);
    }
  }

  // The replay infos that go with the state messages, in order.
  ghost function ReplayInfos<E>(msgs: seq<Message<E>>): seq<E> {
    if msgs == [] then []
    else if msgs[0].StateMsg? then [msgs[0].race.replayInfo] + ReplayInfos(msgs[1..]) else ReplayInfos(msgs[1..])
  }

  lemma ReplayInfosStep<E>(log: seq<E>, msgs: seq<Message<E>>)
    requires msgs != []
    ensures log + ReplayInfos(msgs)
         == (if msgs[0].StateMsg? then log + [msgs[0].race.replayInfo] else log) + ReplayInfos(msgs[1..])
  {
  }

  /** Every run sends the replay info of each state message, in order. */
  lemma {:induction false} ReplayInfosInOrder<E>(s: State<E>, msgs: seq<Message<E>>)
    requires Run(s, msgs).Some?
    ensures Run(s, msgs).value.sent.replayInfo
         == if s.channels.replayInfo then s.sent.replayInfo + ReplayInfos(msgs) else s.sent.replayInfo
    decreases msgs
  {
    if msgs != [] {
      ReplayInfosInOrder(Step(s, msgs[0]).value, msgs[1..]);
      ReplayInfosStep(s.sent.replayInfo, msgs);
    }
  }

  /** After a run the car processor holds what came with the last state or driver data message, and the race
      processor and the session data are those of the last state message. */
  lemma {:induction false} HoldsLatestCars<E>(s: State<E>, msgs: seq<Message<E>>, i: int)
    requires Run(s, msgs).Some? && -1 <= i < |msgs| && forall j :: i < j < |msgs| ==> msgs[j].SpeedmapMsg?
    ensures i == -1 ==> Run(s, msgs).value.cars == s.cars
    ensures i >= 0 && !msgs[i].SpeedmapMsg? ==> Run(s, msgs).value.cars == msgs[i].cars
    decreases msgs
  {
    if msgs != [] {
      assert forall j :: 0 <= j < |msgs| - 1 ==> msgs[1..][j] == msgs[j + 1];
      HoldsLatestCars(Step(s, msgs[0]).value, msgs[1..], if i <= 0 then -1 else i - 1);
    }
  }

  lemma {:induction false} HoldsLatestState<E>(s: State<E>, msgs: seq<Message<E>>, i: int)
    requires Run(s, msgs).Some? && -1 <= i < |msgs| && forall j :: i < j < |msgs| ==> !msgs[j].StateMsg?
    ensures i == -1 ==> Run(s, msgs).value.race == s.race && Run(s, msgs).value.lastSessionData == s.lastSessionData
    ensures i >= 0 && msgs[i].StateMsg? ==>
      Run(s, msgs).value.race == msgs[i].race && Run(s, msgs).value.lastSessionData == Some(msgs[i].session)
    decreases msgs
  {
    if msgs != [] {
      assert forall j :: 0 <= j < |msgs| - 1 ==> msgs[1..][j] == msgs[j + 1];
      HoldsLatestState(Step(s, msgs[0]).value, msgs[1..], if i <= 0 then -1 else i - 1);
    }
  }

  lemma StepAddsAnalysis<E>(s: State<E>, m: Message<E>, s': State<E>, k: nat)
    requires Step(s, m) == Some(s') && |s.sent.analysis| <= k < |s'.sent.analysis|
    ensures !m.SpeedmapMsg? && s'.sent.analysis[k] == AnalysisOf(s'.cars, s'.race)
  {
  }

  // Message i is a state or driver data message, and the analysis shows what the processors hold after it.
  ghost predicate ShownAfter<E>(s: State<E>, msgs: seq<Message<E>>, i: nat, analysis: Analysis<E>) {
    && i < |msgs| && !msgs[i].SpeedmapMsg? && Run(s, msgs[..i + 1]).Some?
    && analysis == AnalysisOf(Run(s, msgs[..i + 1]).value.cars, Run(s, msgs[..i + 1]).value.race)
  }

  lemma ShownAfterFirst<E>(s: State<E>, msgs: seq<Message<E>>, s': State<E>, k: nat)
    requires msgs != [] && Step(s, msgs[0]) == Some(s') && |s.sent.analysis| <= k < |s'.sent.analysis|
    ensures ShownAfter(s, msgs, 0, s'.sent.analysis[k])
  {
    StepAddsAnalysis(s, msgs[0], s', k);
    assert msgs[..1][1..] == [] && Run(s', []) == Some(s');
  }

  lemma ShownAfterLater<E>(s: State<E>, msgs: seq<Message<E>>, s': State<E>, i: nat, analysis: Analysis<E>)
    requires msgs != [] && Step(s, msgs[0]) == Some(s') && ShownAfter(s', msgs[1..], i, analysis)
    ensures ShownAfter(s, msgs, i + 1, analysis)
  {
    assert msgs[..i + 2][1..] == msgs[1..][..i + 1];
    assert Run(s, msgs[..i + 2]) == Run(s', msgs[1..][..i + 1]);
  }

  lemma RunHead<E>(s: State<E>, msgs: seq<Message<E>>, r: State<E>) returns (s': State<E>)
    requires msgs != [] && Run(s, msgs) == Some(r)
    ensures Step(s, msgs[0]) == Some(s') && Run(s', msgs[1..]) == Some(r)
    ensures s'.sent.analysis <= r.sent.analysis
  {
    s' := Step(s, msgs[0]).value;
    AnalysesOnlyGrow(s', msgs[1..]);
  }

  /** Each analysis of a run stems from one state or driver data message: it shows what the processors hold after
      that message. */
  lemma {:induction false} AnalysisOrigin<E>(s: State<E>, msgs: seq<Message<E>>, r: State<E>, k: nat)
    requires Run(s, msgs) == Some(r) && |s.sent.analysis| <= k < |r.sent.analysis|
    ensures exists i :: ShownAfter(s, msgs, i, r.sent.analysis[k])
    decreases msgs
  {
    if msgs != [] {
      var analysis := r.sent.analysis[k];
      var s' := RunHead(s, msgs, r);
      if k < |s'.sent.analysis| {
        assert s'.sent.analysis[k] == analysis;
        ShownAfterFirst(s, msgs, s', k);
      } else {
        AnalysisOrigin(s', msgs[1..], r, k);
        var i :| ShownAfter(s', msgs[1..], i, analysis);
        ShownAfterLater(s, msgs, s', i, analysis);
      }
    }
  }

  lemma {:induction false} AnalysesOnlyGrow<E>(s: State<E>, msgs: seq<Message<E>>)
    requires Run(s, msgs).Some?
    ensures s.sent.analysis <= Run(s, msgs).value.sent.analysis
    decreases msgs
  {
    if msgs != [] { AnalysesOnlyGrow(Step(s, msgs[0]).value, msgs[1..]); }
  }

  // Without the channel no analysis is sent.
  lemma {:induction false} NoAnalysisWithoutChannel<E>(s: State<E>, msgs: seq<Message<E>>)
    requires Run(s, msgs).Some? && !s.channels.analysis
    ensures Run(s, msgs).value.sent.analysis == s.sent.analysis
    decreases msgs
  {
    if msgs != [] { NoAnalysisWithoutChannel(Step(s, msgs[0]).value, msgs[1..]); }
  }

  // The analysis sent last shows what the car and race processors hold.
  ghost predicate AnalysisCurrent<E>(s: State<E>) {
    s.sent.analysis != [] && s.sent.analysis[|s.sent.analysis| - 1] == AnalysisOf(s.cars, s.race)
  }

  // The number of state and driver data messages.
  ghost function Updates<E>(msgs: seq<Message<E>>): nat {
    if msgs == [] then 0 else (if IsSpeedmap(msgs[0]) then 0 else 1) + Updates(msgs[1..])
  }

  lemma StepAnalysis<E>(s: State<E>, m: Message<E>, s': State<E>)
    requires Step(s, m) == Some(s') && s.channels.analysis
    ensures s'.channels == s.channels
    ensures IsSpeedmap(m) ==> s'.cars == s.cars && s'.race == s.race && s'.sent.analysis == s.sent.analysis
    ensures !IsSpeedmap(m) ==> AnalysisCurrent(s') && |s'.sent.analysis| == |s.sent.analysis| + 1
  {
  }

  /** In every run one analysis is sent for each state and driver data message, and the one sent last is
      current: it shows what the car and race processors hold then. */
  lemma {:induction false} AnalysisStaysCurrent<E>(s: State<E>, msgs: seq<Message<E>>)
    requires Run(s, msgs).Some? && s.channels.analysis
    ensures AnalysisCurrent(s) || Updates(msgs) > 0 ==> AnalysisCurrent(Run(s, msgs).value)
    ensures |Run(s, msgs).value.sent.analysis| == |s.sent.analysis| + Updates(msgs)
    decreases msgs
  {
    if msgs != [] {
      var s' := Step(s, msgs[0]).value;
      StepAnalysis(s, msgs[0], s');
      AnalysisStaysCurrent(s', msgs[1..]);
    }
  }

  // The session data known after some messages.
  ghost function SessionAfter<E>(session: Option<Session>, msgs: seq<Message<E>>): Option<Session> {
    if msgs == [] then session
    else
      var last := msgs[|msgs| - 1];
      if last.StateMsg? then Some(last.session) else SessionAfter(session, msgs[..|msgs| - 1])
  }

  lemma {:induction false} SessionAfterHead<E>(session: Option<Session>, msgs: seq<Message<E>>)
    requires msgs != []
    ensures SessionAfter(session, msgs)
         == SessionAfter(if msgs[0].StateMsg? then Some(msgs[0].session) else session, msgs[1..])
  {
    if |msgs| > 1 && !msgs[|msgs| - 1].StateMsg? {
      var front := msgs[..|msgs| - 1];
      SessionAfterHead(session, front);
      assert msgs[1..][..|msgs| - 2] == front[1..];
    }
  }

  /** Every snapshot of a run stems from one speedmap: it has that speedmap's time and lap times, and the
      session data of the latest state message before it. */
  lemma {:induction false} SnapshotOrigin<E>(s: State<E>, msgs: seq<Message<E>>, k: nat) returns (i: nat)
    requires Run(s, msgs).Some?
    requires |s.sent.snapshots| <= k < |Run(s, msgs).value.sent.snapshots|
    ensures i < |msgs| && msgs[i].SpeedmapMsg?
    ensures var session := SessionAfter(s.lastSessionData, msgs[..i]);
      session.Some?
      && Run(s, msgs).value.sent.snapshots[k] == Snapshot(msgs[i].timestamp, session.value, msgs[i].laptimes)
    decreases msgs
  {
    var s' := Step(s, msgs[0]).value;
    if k < |s'.sent.snapshots| {
      i := 0;
      SnapshotsOnlyGrow(s', msgs[1..]);
    } else {
      i := SnapshotOrigin(s', msgs[1..], k);
      assert msgs[..i + 1][1..] == msgs[1..][..i];
      SessionAfterHead(s.lastSessionData, msgs[..i + 1]);
      i := i + 1;
    }
  }

  lemma {:induction false} SnapshotsOnlyGrow<E>(s: State<E>, msgs: seq<Message<E>>)
    requires Run(s, msgs).Some?
    ensures s.sent.snapshots <= Run(s, msgs).value.sent.snapshots
    decreases msgs
  {
    if msgs != [] { SnapshotsOnlyGrow(Step(s, msgs[0]).value, msgs[1..]); }
  }

  // Message i is a speedmap for which a snapshot is due, and no state message comes before it.
  ghost predicate DueBeforeState<E>(s: State<E>, msgs: seq<Message<E>>, i: nat) {
    i < |msgs| && msgs[i].SpeedmapMsg? && SnapshotDue(s, msgs[i].timestamp)
    && forall j :: 0 <= j < i ==> !msgs[j].StateMsg?
  }

  lemma DueBeforeStateStep<E>(s: State<E>, s': State<E>, msgs: seq<Message<E>>)
    requires msgs != [] && forall t :: SnapshotDue(s', t) == SnapshotDue(s, t)
    ensures (exists i :: DueBeforeState(s, msgs, i)) <==>
      DueBeforeState(s, msgs, 0) || (!msgs[0].StateMsg? && exists i :: DueBeforeState(s', msgs[1..], i))
  {
    var rest := msgs[1..];
    if i: nat :| DueBeforeState(s, msgs, i) && i > 0 {
      assert rest[i - 1] == msgs[i] && forall j :: 0 <= j < i - 1 ==> rest[j] == msgs[j + 1];
      assert DueBeforeState(s', rest, i - 1) && !msgs[0].StateMsg?;
    }
    if i: nat :| !msgs[0].StateMsg? && DueBeforeState(s', rest, i) {
      assert msgs[i + 1] == rest[i] && forall j :: 0 < j < i + 1 ==> msgs[j] == rest[j - 1];
      assert DueBeforeState(s, msgs, i + 1);
    }
  }

  /** A run of a processor without session data panics exactly if a speedmap that is more than two minutes
      past the last snapshot comes before the first state message. */
  lemma {:induction false} PanicsBeforeFirstState<E>(s: State<E>, msgs: seq<Message<E>>)
    requires s.lastSessionData.None?
    ensures Run(s, msgs).None? <==> exists i :: DueBeforeState(s, msgs, i)
    decreases msgs
  {
    if msgs != [] {
      var m, rest := msgs[0], msgs[1..];
      DueBeforeStateStep(s, s, msgs);
      if m.StateMsg? {
        NeverPanicsWithSession(Step(s, m).value, rest);
      } else if Step(s, m).Some? {
        DueBeforeStateStep(s, Step(s, m).value, msgs);
        PanicsBeforeFirstState(Step(s, m).value, rest);
      }
    }
  }

  lemma {:induction false} NeverPanicsWithSession<E>(s: State<E>, msgs: seq<Message<E>>)
    requires s.lastSessionData.Some?
    ensures Run(s, msgs).Some?
    decreases msgs
  {
    if msgs != [] {
      NeverPanicsWithSession(Step(s, msgs[0]).value, msgs[1..]);
    }
  }

  /** A new processor whose first message is a speedmap more than two minutes past time zero panics. */
  lemma PanicsOnFirstSpeedmap<E>(s: State<E>, timestamp: int, laptimes: map<string, real>, later: seq<Message<E>>)
    requires s.channels.snapshot && s.lastSnapshotTime == 0 && s.lastSessionData.None? && timestamp > MIN_GAP
    ensures Run(s, [SpeedmapMsg(timestamp, laptimes)] + later).None?
  {
    assert DueBeforeState(s, [SpeedmapMsg(timestamp, laptimes)] + later, 0);
    PanicsBeforeFirstState(s, [SpeedmapMsg(timestamp, laptimes)] + later);
  }
}
