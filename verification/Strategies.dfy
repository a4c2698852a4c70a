/** Why no other way to reach the end of the race does better than a plan. */
module Strategies {
  import opened CeilDivision
  import opened StintPlan
  import opened StintLaws
  import opened PlanLaws

  /** A way to reach the end of the race: at most `tank` laps before the first pit stop, and at most Lps
      laps between pit stops. */
  ghost predicate Strategy(e: Env, parts: seq<Part>, cur: int, lap: int, tank: int) {
    && Runs(e, parts, cur, lap) && Alternates(parts) && WithinTank(parts, e.lps) && StartsWithin(parts, tank)
    && parts != [] && Last(parts).end >= e.raceEnd + e.offset
  }

  ghost predicate StartsWithin(parts: seq<Part>, tank: int) {
    parts != [] && parts[0].Stint? ==> parts[0].laps <= tank
  }

  // The car pits only while the race is running, and drives no lap it need not drive at the end.
  ghost predicate StopsAtFlag(e: Env, parts: seq<Part>) {
    && parts != [] && Last(parts).Stint?
    && (forall i :: 0 <= i < |parts| && parts[i].Pit? ==> parts[i].start < e.raceEnd + e.offset)
    && (Last(parts).laps == 1 || Last(parts).end - e.avgLap < e.raceEnd + e.offset)
  }

  // ----- laps between pit stops -----

  lemma TailFacts(parts: seq<Part>, lps: int)
    requires parts != [] && Alternates(parts) && WithinTank(parts, lps)
    ensures Alternates(parts[1..]) && WithinTank(parts[1..], lps)
    ensures parts[0].Stint? ==> StartsWithin(parts[1..], 0)
    ensures StartsWithin(parts[1..], lps)
  {
    var tail := parts[1..];
    forall i | 0 <= i < |tail| - 1 ensures tail[i].Stint? != tail[i + 1].Stint? {
      assert tail[i] == parts[i + 1] && tail[i + 1] == parts[i + 1 + 1];
    }
    if tail != [] { assert parts[0].Stint? != parts[0 + 1].Stint?; }
  }

  lemma {:induction false} LapsWithinTanks(parts: seq<Part>, tank: nat, lps: nat)
    requires Alternates(parts) && WithinTank(parts, lps) && StartsWithin(parts, tank)
    ensures LapsOf(parts) <= tank + Times(PitsOf(parts), lps)
  {
    if parts != [] {
      TailFacts(parts, lps);
      LapsWithinTanks(parts[1..], if parts[0].Stint? then 0 else lps, lps);
    }
  }

  // The laps before the last stint.
  lemma {:induction false} LapsBeforeLastStint(parts: seq<Part>, tank: nat, lps: nat)
    requires Alternates(parts) && WithinTank(parts, lps) && StartsWithin(parts, tank)
    requires parts != [] && Last(parts).Stint?
    ensures PitsOf(parts) == 0 ==> |parts| == 1 && LapsOf(parts) == Last(parts).laps
    ensures PitsOf(parts) > 0 ==> LapsOf(parts) - Last(parts).laps <= tank + Times(PitsOf(parts) - 1, lps)
  {
    var tail := parts[1..];
    if tail != [] {
      TailFacts(parts, lps);
      LapsBeforeLastStint(tail, if parts[0].Stint? then 0 else lps, lps);
      assert Last(tail) == Last(parts);
      assert parts[0].Stint? != parts[0 + 1].Stint? && tail[0] == parts[1];
      if PitsOf(tail) > 0 { TimesStep(PitsOf(tail) - 1, lps); }
    }
  }

  // ----- fewest pit stops -----

  // What a strategy with q pit stops can cover.
  lemma Covered(e: Env, parts: seq<Part>, cur: int, lap: int, tank: nat)
    requires e.Valid() && Strategy(e, parts, cur, lap, tank)
    ensures e.raceEnd - cur <= Times(tank, e.avgLap) + Times(PitsOf(parts), e.Cycle())
  {
    var n: int, q: int := LapsOf(parts), PitsOf(parts);
    RunsTotal(e, parts, cur, lap);
    LapsWithinTanks(parts, tank, e.lps);
    TimesMonotone(n, tank + Times(q, e.lps), e.avgLap);
    TimesAdd(tank, Times(q, e.lps), e.avgLap);
    TimesTimes(q, e.lps, e.avgLap);
    TimesSum(q, e.FullStint(), e.pitTime);
  }

  /** From any point of the main loop no strategy needs fewer pit stops. */
  lemma FewestPitStopsToFlag(e: Env, parts: seq<Part>, cur: int, lap: int)
    requires e.Valid() && Strategy(e, parts, cur, lap, e.lps)
    ensures PitsOf(parts) >= PitsOf(ToFlag(e, cur, lap))
  {
    Covered(e, parts, cur, lap, e.lps);
    ToFlagTotals(e, cur, lap);
    FullStintsLeast(e, e.raceEnd - cur, PitsOf(parts));
  }

  // The laps the car can still drive before it has to pit.
  function Tank(c: PredictParam): int {
    if c.inPit then c.lps else Max(0, Remain(c))
  }

  // A way to reach the end of the race from where the planner finds the car.
  ghost predicate CarStrategy(c: PredictParam, parts: seq<Part>) {
    Strategy(EnvOf(c), parts, OpeningOffset(c), StartLap(c), Tank(c))
  }

  lemma AfterFirstPit(e: Env, x: int, q: int)
    requires e.Valid() && q >= 0 && x <= Times(q, e.Cycle())
    ensures x > 0 ==> q >= 1
    ensures q >= 1 ==> FullStints(e, x - e.pitTime) <= q - 1
  {
    if q >= 1 {
      TimesStep(q - 1, e.Cycle());
      FullStintsLeast(e, x - e.pitTime, q - 1);
    }
  }

  /** No strategy, whether it pits early or late, needs fewer pit stops than the plan. */
  lemma FewestPitStops(c: PredictParam, parts: seq<Part>)
    requires c.Valid() && CarStrategy(c, parts)
    ensures PitsOf(parts) >= PitsOf(Plan(c))
  {
    var e, cur, q := EnvOf(c), OpeningOffset(c), PitsOf(parts);
    PlanTotals(c);
    Covered(e, parts, cur, StartLap(c), Tank(c));
    if c.inPit {
      FullStintsLeast(e, e.raceEnd - cur, q);
    } else if Remain(c) > 0 {
      AfterFirstPit(e, e.raceEnd - (cur + Times(Remain(c), e.avgLap)), q);
    } else {
      assert parts[0].Pit? && q >= 1;
      AfterFirstPit(e, e.raceEnd - cur, q);
    }
  }

  /** A plan whose stints have lap numbers in range is such a strategy, so it attains the minimum. */
  lemma PlanIsStrategy(c: PredictParam)
    requires c.Valid()
    ensures CarStrategy(c, Plan(c))
       <==> Plan(c) != [] && (c.inPit || Remain(c) <= 0 || OpeningOffset(c) < c.duration + c.avgLap)
  {
    PlanTiles(c);
    StintLimits(c);
    EndOfRace(c);
    if c.inPit && Plan(c) != [] {
      ToFlagWithinTank(EnvOf(c), OpeningOffset(c), StartLap(c));
    }
  }

  // ----- most laps -----

  lemma BetterMeansMoreLaps(n: int, q: int, bn: int, bq: int, a: int, p: int)
    requires a > 0 && p >= 0 && q >= bq && Times(n, a) + Times(q, p) < Times(bn, a) + Times(bq, p)
    ensures n < bn
  {
    TimesMonotone(bq, q, p);
    if bn <= n { TimesMonotone(bn, n, a); }
  }

  // What a strategy that stops at the flag has used up before its last lap, or before its last pit stop.
  lemma TimeBeforeLastLap(e: Env, parts: seq<Part>, cur: int, lap: int, tank: int)
    requires e.Valid() && Strategy(e, parts, cur, lap, tank) && StopsAtFlag(e, parts)
    ensures var n, q, x := LapsOf(parts), PitsOf(parts), e.raceEnd - cur;
      || Times(n - 1, e.avgLap) + Times(q, e.pitTime) < x
      || (Last(parts).laps == 1 && (q > 0 ==> Times(n - 1, e.avgLap) + Times(q - 1, e.pitTime) < x))
  {
    RunsTotal(e, parts, cur, lap);
    var n: int, q: int := LapsOf(parts), PitsOf(parts);
    TimesStep(n - 1, e.avgLap);
    TimesStep(q - 1, e.pitTime);
    if Last(parts).end - e.avgLap >= e.raceEnd + e.offset && q > 0 {
      assert |parts| > 1 && parts[|parts| - 2].Stint? != parts[|parts| - 2 + 1].Stint?;
      RunsTile(e, parts, cur, lap, |parts| - 2);
      RunsTile(e, parts, cur, lap, |parts| - 1);
      assert Last(parts).duration == Times(1, e.avgLap) == e.avgLap;
    }
  }

  // The last stint of n laps in all has `last` laps; bn laps and bq pit stops take at least x.
  lemma CompareLaps(n: int, q: nat, last: int, bn: int, bq: nat, x: int, a: int, p: int, full: int)
    requires a > 0 && p >= 0 && bq <= q && x <= Times(bn, a) + Times(bq, p)
    requires Times(n - 1, a) + Times(q, p) < x || (last == 1 && (q > 0 ==> Times(n - 1, a) + Times(q - 1, p) < x))
    requires q == bq ==> n - last <= full && full + 1 <= bn
    ensures n <= bn
  {
    if Times(n - 1, a) + Times(q, p) < x {
      BetterMeansMoreLaps(n - 1, q, bn, bq, a, p);
    } else if q > bq {
      BetterMeansMoreLaps(n - 1, q - 1, bn, bq, a, p);
    }
  }

  // Reaching the end with no more pit stops and full tanks between them takes at least as many laps.
  lemma NotMoreLaps(e: Env, parts: seq<Part>, cur: int, lap: int, tank: nat, bn: int, bq: nat)
    requires e.Valid() && Strategy(e, parts, cur, lap, tank) && StopsAtFlag(e, parts)
    requires bq <= PitsOf(parts) && Times(bn, e.avgLap) + Times(bq, e.pitTime) >= e.raceEnd - cur
    requires bn >= if bq == 0 then 1 else tank + Times(bq - 1, e.lps) + 1
    ensures LapsOf(parts) <= bn
  {
    var n, q, full := LapsOf(parts), PitsOf(parts), if bq == 0 then 0 else tank + Times(bq - 1, e.lps);
    TimeBeforeLastLap(e, parts, cur, lap, tank);
    LapsBeforeLastStint(parts, tank, e.lps);
    CompareLaps(n, q, Last(parts).laps, bn, bq, e.raceEnd - cur, e.avgLap, e.pitTime, full);
  }

  /** From any point of the main loop no strategy that stops at the flag completes more laps. */
  lemma MostLapsToFlag(e: Env, parts: seq<Part>, cur: int, lap: int)
    requires e.Valid() && Strategy(e, parts, cur, lap, e.lps) && StopsAtFlag(e, parts)
    ensures LapsOf(parts) <= LapsOf(ToFlag(e, cur, lap))
  {
    var best := ToFlag(e, cur, lap);
    ToFlagFollowsRules(e, cur, lap);
    RunsTotal(e, best, cur, lap);
    FewestPitStopsToFlag(e, parts, cur, lap);
    ToFlagTotals(e, cur, lap);
    LastLapsBounds(e, e.raceEnd - cur);
    TimesStep(PitsOf(best) - 1, e.lps);
    NotMoreLaps(e, parts, cur, lap, e.lps, LapsOf(best), PitsOf(best));
  }

  // A plan takes at least what is left of the race.
  lemma PlanTakes(c: PredictParam)
    requires c.Valid() && OpeningOffset(c) < c.duration
    ensures Times(LapsOf(Plan(c)), c.avgLap) + Times(PitsOf(Plan(c)), c.pitTime) >= c.duration - OpeningOffset(c)
  {
    PlanTiles(c);
    RunsTotal(EnvOf(c), Plan(c), OpeningOffset(c), StartLap(c));
    EndOfRace(c);
  }

  // Unless it ends in the pit, a plan stops only when the tank is empty, and drives on after the last stop.
  lemma PlanFillsTanks(c: PredictParam)
    requires c.Valid() && OpeningOffset(c) < c.duration && !EndsInPit(c)
    ensures PlannedLaps(c) >= if PlannedPits(c) == 0 then 1 else Tank(c) + Times(PlannedPits(c) - 1, c.lps) + 1
  {
    var e, cur, q: int := EnvOf(c), OpeningOffset(c), PlannedPits(c);
    TimesStep(q - 1, c.lps);
    CeilDivPositive(e.raceEnd - cur, e.avgLap);
    LastLapsBounds(e, e.raceEnd - cur);
    LastLapsBounds(e, e.raceEnd - (cur + e.pitTime));
    LastLapsBounds(e, e.raceEnd - (cur + Times(Remain(c), e.avgLap) + e.pitTime));
  }

  // No strategy that stops at the flag completes more laps than the plan.
  ghost predicate PlansMostLaps(c: PredictParam)
    requires c.Valid()
  {
    forall parts :: CarStrategy(c, parts) && StopsAtFlag(EnvOf(c), parts) ==> LapsOf(parts) <= LapsOf(Plan(c))
  }

  // One lap after the plan, when nothing or too little is planned.
  lemma OneLapIsMore(c: PredictParam)
    requires c.Valid() && OpeningOffset(c) >= c.duration && (c.inPit || Remain(c) > 0)
    ensures !PlansMostLaps(c)
  {
    var e, cur, lap := EnvOf(c), OpeningOffset(c), StartLap(c);
    var parts := ToFlag(e, cur, lap);
    LateStintIsOneLap(e, cur, lap);
    ToFlagFollowsRules(e, cur, lap);
    ToFlagTotals(e, cur, lap);
    LastLapsBounds(e, e.raceEnd - cur);
    PlanTotals(c);
    CeilDivPositive(e.raceEnd - cur, e.avgLap);
    if !c.inPit { TimesMonotone(0, Remain(c), e.avgLap); }
    assert CarStrategy(c, parts) && StopsAtFlag(e, parts) && LapsOf(parts) >= 1;
  }

  // The opening stint, a pit stop that outlasts the race, and one more lap.
  lemma OneLapAfterPit(e: Env, cur: int, lap: int, remain: int, out: int, next: int) returns (parts: seq<Part>)
    requires e.Valid() && 1 <= remain <= e.lps && next == lap + remain
    requires out == cur + Times(remain, e.avgLap) < e.raceEnd <= out + e.pitTime
    ensures Strategy(e, parts, cur, lap, remain) && StopsAtFlag(e, parts) && LapsOf(parts) == remain + 1
  {
    var stint, pit, more := e.StintPart(cur, remain, lap), e.PitPart(out), ToFlag(e, out + e.pitTime, next);
    LateStintIsOneLap(e, out + e.pitTime, next);
    ToFlagFollowsRules(e, out + e.pitTime, next);
    PitThenRest(e, out, next, more, out + e.pitTime);
    StintThenRest(e, cur, lap, remain, [pit] + more, out, next);
    TotalsPrepend(stint, pit, more);
    parts := [stint] + ([pit] + more);
    assert parts == [stint, pit] + more && LapsOf(more) == 1;
  }

  lemma LapAfterPitIsMore(c: PredictParam)
    requires c.Valid() && EndsInPit(c)
    ensures !PlansMostLaps(c)
  {
    var e, cur, remain := EnvOf(c), OpeningOffset(c), Remain(c);
    var out, next := cur + Times(remain, e.avgLap), StartLap(c) + remain;
    var parts := OneLapAfterPit(e, cur, StartLap(c), remain, out, next);
    PlanTotals(c);
    assert CarStrategy(c, parts);
  }

  // A car that has to pit once the race is over drives on after the flag.
  lemma PitsTooLate(c: PredictParam, parts: seq<Part>)
    requires c.Valid() && CarStrategy(c, parts)
    requires OpeningOffset(c) >= c.duration && !c.inPit && Remain(c) <= 0
    ensures !StopsAtFlag(EnvOf(c), parts)
  {
    assert parts[0].Pit? && parts[0].start == OpeningOffset(c) + SessionOffset(c);
  }

  /** No strategy that stops at the flag completes more laps than the plan, exactly when the race is still on
      at the opening, or the car has to pit there, and the plan does not end in a pit stop. */
  lemma MostLaps(c: PredictParam)
    requires c.Valid()
    ensures PlansMostLaps(c) <==>
      !EndsInPit(c) && (OpeningOffset(c) < c.duration || (!c.inPit && Remain(c) <= 0))
  {
    if EndsInPit(c) {
      LapAfterPitIsMore(c);
    } else if OpeningOffset(c) < c.duration {
      forall parts | CarStrategy(c, parts) && StopsAtFlag(EnvOf(c), parts)
        ensures LapsOf(parts) <= LapsOf(Plan(c))
      {
        FewestPitStops(c, parts);
        PlanTotals(c);
        PlanTakes(c);
        PlanFillsTanks(c);
        NotMoreLaps(EnvOf(c), parts, OpeningOffset(c), StartLap(c), Tank(c), LapsOf(Plan(c)), PitsOf(Plan(c)));
      }
    } else if c.inPit || Remain(c) > 0 {
      OneLapIsMore(c);
    } else {
      forall parts | CarStrategy(c, parts) ensures !StopsAtFlag(EnvOf(c), parts) { PitsTooLate(c, parts); }
    }
  }
}
