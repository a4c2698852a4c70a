/** The planner of pkg/grpc/racestints/racestints_grpc.go: stints and pit stops to the end of the race.
    All durations are integers in nanoseconds. */
module StintPlan {
  import opened CeilDivision
  import opened Options

  datatype PredictParam = PredictParam(
    duration: int,              // Race.Duration: what is left of the race
    lc: int,                    // Race.Lc: laps completed
    session: Option<int>,       // Race.Session
    lps: int,                   // Stint.Lps: laps per stint
    avgLap: int,                // Stint.AvgLaptime
    inPit: bool,                // Car.InPit
    stintLap: int,              // Car.StintLap: laps already driven in the current stint
    remainLapTime: Option<int>, // Car.RemainLapTime
    pitTime: int)               // Pit.Overall
  {
    predicate Valid() {
      avgLap > 0 && lps >= 1 && pitTime >= 0 && lc >= 0 && stintLap >= 0
    }
  }

  datatype Part =
    | Stint(start: int, end: int, duration: int, laps: int, lapStart: int, lapEnd: int)
    | Pit(start: int, end: int, duration: int)

  /** The quantities that stay fixed once the opening of the plan has been worked out. */
  datatype Env = Env(avgLap: int, lps: int, pitTime: int, raceEnd: int, offset: int) {
    predicate Valid() {
      avgLap > 0 && lps >= 1 && pitTime >= 0
    }

    // Time for a full stint.
    function FullStint(): int { Times(lps, avgLap) }

    // Time for a full stint and the pit stop after it.
    function Cycle(): int { FullStint() + pitTime }

    function StintPart(start: int, laps: int, lap: int): Part {
      StintAt(start + offset, Times(laps, avgLap), laps, lap)
    }

    function PitPart(start: int): Part {
      PitAt(start + offset, pitTime)
    }
  }

  function StintAt(start: int, duration: int, laps: int, lap: int): Part {
    Stint(start, start + duration, duration, laps, lap, lap + laps - 1)
  }

  function PitAt(start: int, duration: int): Part {
    Pit(start, start + duration, duration)
  }

  // ----- specification of the planner -----

  function Max(x: int, y: int): int { if x < y then y else x }

  /** Full stints, each followed by a pit stop, as long as a full stint ends before the race does; then
      one last stint of as many laps as the race still takes, but at least one. */
  function ToFlag(e: Env, cur: int, lap: int): seq<Part>
    requires e.Valid()
    decreases Max(0, e.raceEnd - cur)
  {
    FullStintTakesTime(e);
    if cur + e.FullStint() < e.raceEnd then
      [e.StintPart(cur, e.lps, lap), e.PitPart(cur + e.FullStint())]
      + ToFlag(e, cur + e.Cycle(), lap + e.lps)
    else
      [e.StintPart(cur, Max(1, CeilDiv(e.raceEnd - cur, e.avgLap)), lap)]
  }

  lemma FullStintTakesTime(e: Env)
    requires e.Valid()
    ensures e.Cycle() >= e.FullStint() >= e.avgLap > 0
  {
    TimesMonotone(1, e.lps, e.avgLap);
  }

  predicate RaceStarted(c: PredictParam) { c.lc != 0 || c.stintLap != 0 }

  function StartLap(c: PredictParam): int { if RaceStarted(c) then c.lc + 2 else 1 }

  // The car is fast-forwarded to the next reference point, the end of the current lap.
  predicate FastForward(c: PredictParam) { !c.inPit && c.remainLapTime.Some? && RaceStarted(c) }

  function OpeningOffset(c: PredictParam): int {
    if !FastForward(c) then 0
    else if c.remainLapTime.value > 0 then c.remainLapTime.value
    else c.avgLap
  }

  function SessionOffset(c: PredictParam): int {
    if c.session.None? || (FastForward(c) && c.lc == 0) then 0 else c.session.value
  }

  function EnvOf(c: PredictParam): Env {
    Env(c.avgLap, c.lps, c.pitTime, c.duration, SessionOffset(c))
  }

  function Remain(c: PredictParam): int { c.lps - c.stintLap }

  // Nothing more to plan once the race time is used up.
  function Rest(e: Env, cur: int, lap: int): seq<Part>
    requires e.Valid()
  {
    if cur < e.raceEnd then ToFlag(e, cur, lap) else []
  }

  // Pit at cur and go on, if the race does.
  function PitAndOn(e: Env, cur: int, lap: int): seq<Part>
    requires e.Valid()
  {
    [e.PitPart(cur)] + Rest(e, cur + e.pitTime, lap)
  }

  // The plan of a car on track at cur that has laps left in its stint.
  function PlanOnTrack(e: Env, cur: int, lap: int, remain: int): seq<Part>
    requires e.Valid()
  {
    var out := cur + Times(remain, e.avgLap);
    if out < e.raceEnd then
      [e.StintPart(cur, remain, lap)] + PitAndOn(e, out, lap + remain)
    else
      var laps := CeilDiv(e.raceEnd - cur, e.avgLap);
      if laps == 0 then [] else [e.StintPart(cur, laps, lap)]
  }

  function Plan(c: PredictParam): seq<Part>
    requires c.Valid()
  {
    var e, cur, lap := EnvOf(c), OpeningOffset(c), StartLap(c);
    if c.inPit then Rest(e, cur, lap)
    else if Remain(c) > 0 then PlanOnTrack(e, cur, lap, Remain(c))
    else [e.PitPart(cur)] + ToFlag(e, cur + e.pitTime, lap)
  }

  // Where a plan starts, in terms of its input.
  lemma FirstPart(c: PredictParam)
    requires c.Valid() && Plan(c) != []
    ensures Plan(c)[0].start
         == (if c.inPit || c.remainLapTime.None? || (c.lc == 0 && c.stintLap == 0) then
               if c.session.Some? then c.session.value else 0
             else
               (if c.lc == 0 || c.session.None? then 0 else c.session.value)
               + if c.remainLapTime.value > 0 then c.remainLapTime.value else c.avgLap)
    ensures Plan(c)[0].Stint? ==>
      Plan(c)[0].lapStart == if c.lc == 0 && c.stintLap == 0 then 1 else c.lc + 2
  {
  }

  // ----- the planner itself -----

  /** The variables captured by the planner's closures. */
  class PlanBuilder {
    var avgLap: int
    var sessionOffset: int
    var parts: seq<Part>

    constructor (avgLap: int, sessionOffset: int)
      ensures this.avgLap == avgLap && this.sessionOffset == sessionOffset && parts == []
    {
      this.avgLap, this.sessionOffset, parts := avgLap, sessionOffset, [];
    }

    method CreateStint(start: int, laps: int, startLap: int) returns (p: Part)
      ensures p == StintAt(start + sessionOffset, Times(laps, avgLap), laps, startLap)
    {
      var duration := laps * avgLap;
      TimesIs(laps, avgLap);
      p := Stint(start + sessionOffset, start + sessionOffset + duration, duration,
                 laps, startLap, startLap + laps - 1);
    }

    method CreatePit(start: int, pitTime: int) returns (p: Part)
      ensures p == PitAt(start + sessionOffset, pitTime)
    {
      p := Pit(start + sessionOffset, start + sessionOffset + pitTime, pitTime);
    }

    method AddStint(start: int, laps: int, startLap: int) returns (finish: int)
      modifies this`parts
      ensures parts == old(parts) + [StintAt(start + sessionOffset, Times(laps, avgLap), laps, startLap)]
      ensures finish == start + Times(laps, avgLap)
    {
      var p := CreateStint(start, laps, startLap);
      parts := parts + [p];
      finish := start + p.duration;
    }

    method AddPitstop(start: int, pitTime: int) returns (finish: int)
      modifies this`parts
      ensures parts == old(parts) + [PitAt(start + sessionOffset, pitTime)]
      ensures finish == start + pitTime
    {
      var p := CreatePit(start, pitTime);
      parts := parts + [p];
      finish := start + p.duration;
    }
  }

  method Calc(c: PredictParam) returns (parts: seq<Part>)
    requires c.Valid()
    ensures parts == Plan(c)
    ensures parts != [] ==>
      parts[0].start
      == (if c.inPit || c.remainLapTime.None? || (c.lc == 0 && c.stintLap == 0) then
            if c.session.Some? then c.session.value else 0
          else
            (if c.lc == 0 || c.session.None? then 0 else c.session.value)
            + if c.remainLapTime.value > 0 then c.remainLapTime.value else c.avgLap)
    ensures parts != [] && parts[0].Stint? ==>
      parts[0].lapStart == if c.lc == 0 && c.stintLap == 0 then 1 else c.lc + 2
  {
    if Plan(c) != [] { FirstPart(c); }
    var curLap := 1;
    var raceStarted := c.lc != 0 || c.stintLap != 0;
    if raceStarted {
      curLap := c.lc + 2;
    }
    var b := new PlanBuilder(c.avgLap, if c.session.Some? then c.session.value else 0);
    var curDur, done := 0, false;
    if !c.inPit {
      if c.remainLapTime.Some? && raceStarted {
        curDur := if c.remainLapTime.value > 0 then c.remainLapTime.value else c.avgLap;
        if c.lc == 0 {
          b.sessionOffset := 0;
        }
      }
      var remain := c.lps - c.stintLap;
      if remain > 0 {
        curDur, curLap, done := OpenOnTrack(c, b, curDur, curLap, remain);
      } else {
        curDur, done := OpenInPit(c, b, curDur, curLap);
      }
    }
    if !done {
      CompleteRace(c, b, curDur, curLap);
    }
    return b.parts;
  }

  /** The opening of a plan while laps are left in the stint; done if that is all there is to plan. */
  method OpenOnTrack(c: PredictParam, b: PlanBuilder, start: int, startLap: int, remain: int)
    returns (curDur: int, curLap: int, done: bool)
    requires c.Valid() && b.avgLap == c.avgLap && b.sessionOffset == SessionOffset(c) && b.parts == []
    modifies b`parts
    ensures b.parts + (if done then [] else Rest(EnvOf(c), curDur, curLap))
         == PlanOnTrack(EnvOf(c), start, startLap, remain)
  {
    curDur, curLap := start, startLap;
    TimesIs(remain, c.avgLap);
    if curDur + remain * c.avgLap < c.duration {
      curDur := b.AddStint(curDur, remain, curLap);
      curDur := b.AddPitstop(curDur, c.pitTime);
      curLap := curLap + remain;
      return curDur, curLap, false;
    }
    var laps := CeilDiv(c.duration - curDur, c.avgLap);
    if laps == 0 {
      return curDur, curLap, true;
    }
    curDur := b.AddStint(curDur, laps, curLap);
    return curDur, curLap, true;
  }

  /** The opening of a plan when the stint is used up: pit, and one more lap if that takes the rest of the race. */
  method OpenInPit(c: PredictParam, b: PlanBuilder, start: int, curLap: int) returns (curDur: int, done: bool)
    requires c.Valid() && b.avgLap == c.avgLap && b.sessionOffset == SessionOffset(c) && b.parts == []
    modifies b`parts
    ensures var e := EnvOf(c);
      b.parts + (if done then [] else Rest(e, curDur, curLap))
      == [e.PitPart(start)] + ToFlag(e, start + e.pitTime, curLap)
  {
    curDur := b.AddPitstop(start, c.pitTime);
    if curDur >= c.duration {
      LateStintIsOneLap(EnvOf(c), curDur, curLap);
      curDur := b.AddStint(curDur, 1, curLap);
      return curDur, true;
    }
    return curDur, false;
  }

  /** The planner's main loop: from `start` on to the end of the race. */
  method CompleteRace(c: PredictParam, b: PlanBuilder, start: int, startLap: int)
    requires c.Valid() && b.avgLap == c.avgLap && b.sessionOffset == SessionOffset(c)
    modifies b`parts
    ensures b.parts == old(b.parts) + Rest(EnvOf(c), start, startLap)
  {
    ghost var e := EnvOf(c);
    ghost var all := b.parts + Rest(e, start, startLap);
    var stintTime := c.avgLap * c.lps;
    TimesIs(c.lps, c.avgLap);
    var curDur, curLap := start, startLap;
    FullStintTakesTime(e);
    while curDur < c.duration
      invariant b.parts + Rest(e, curDur, curLap) == all
      decreases c.duration - curDur
    {
      RestUnrolls(e, curDur, curLap);
      ghost var before, planned := curDur, b.parts;
      if curDur + stintTime < c.duration {
        curDur := b.AddStint(curDur, c.lps, curLap);
        curDur := b.AddPitstop(curDur, c.pitTime);
        curLap := curLap + c.lps;
        if curDur >= c.duration {
          curDur := b.AddStint(curDur, 1, curLap);
        }
      } else {
        var laps := CeilDiv(c.duration - curDur, c.avgLap);
        CeilDivBounds(c.duration - curDur, c.avgLap);
        curDur := b.AddStint(curDur, laps, curLap);
      }
      // each round drives a full stint and its pit stop, or passes the end of the race
      assert curDur >= before + e.Cycle() || curDur >= c.duration;
    }
  }

  // One round of the main loop, in terms of what is left to plan.
  lemma RestUnrolls(e: Env, cur: int, lap: int)
    requires e.Valid() && cur < e.raceEnd
    ensures var next := cur + e.Cycle();
      Rest(e, cur, lap) ==
      if cur + e.FullStint() >= e.raceEnd then [e.StintPart(cur, CeilDiv(e.raceEnd - cur, e.avgLap), lap)]
      else [e.StintPart(cur, e.lps, lap)] + [e.PitPart(cur + e.FullStint())]
           + if next >= e.raceEnd then [e.StintPart(next, 1, lap + e.lps)] else Rest(e, next, lap + e.lps)
  {
    CeilDivPositive(e.raceEnd - cur, e.avgLap);
    if cur + e.Cycle() >= e.raceEnd {
      LateStintIsOneLap(e, cur + e.Cycle(), lap + e.lps);
    }
  }

  // A stint that starts when the race time is already used up is a single lap.
  lemma LateStintIsOneLap(e: Env, cur: int, lap: int)
    requires e.Valid() && cur >= e.raceEnd
    ensures ToFlag(e, cur, lap) == [e.StintPart(cur, 1, lap)]
  {
    FullStintTakesTime(e);
    CeilDivPositive(e.raceEnd - cur, e.avgLap);
  }
}
