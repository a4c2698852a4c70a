/** Laws of whole plans, over every valid input of the planner and every way the plan can open. */
module PlanLaws {
  import opened CeilDivision
  import opened StintPlan
  import opened StintLaws

  // ----- tiling and limits -----

  lemma AlternatesCons(p: Part, rest: seq<Part>)
    requires Alternates(rest) && (rest == [] || rest[0].Stint? != p.Stint?)
    ensures Alternates([p] + rest)
  {
    var parts := [p] + rest;
    forall i | 0 <= i < |parts| - 1 ensures parts[i].Stint? != parts[i + 1].Stint? {
      if i >= 1 { assert parts[i] == rest[i - 1] && parts[i + 1] == rest[i - 1 + 1]; }
    }
  }

  lemma PitThenRest(e: Env, cur: int, lap: int, rest: seq<Part>, next: int)
    requires Runs(e, rest, next, lap) && next == cur + e.pitTime && Alternates(rest) && (rest == [] || rest[0].Stint?)
    ensures Runs(e, [e.PitPart(cur)] + rest, cur, lap) && Alternates([e.PitPart(cur)] + rest)
  {
    var p := e.PitPart(cur);
    assert p.Pit? && cur + p.duration == next;
    assert ([p] + rest)[1..] == rest;
    AlternatesCons(p, rest);
  }

  lemma StintThenRest(e: Env, cur: int, lap: int, laps: int, rest: seq<Part>, next: int, nextLap: int)
    requires Runs(e, rest, next, nextLap) && next == cur + Times(laps, e.avgLap) && nextLap == lap + laps
    requires Alternates(rest) && (rest == [] || rest[0].Pit?)
    ensures Runs(e, [e.StintPart(cur, laps, lap)] + rest, cur, lap) && Alternates([e.StintPart(cur, laps, lap)] + rest)
  {
    var p := e.StintPart(cur, laps, lap);
    assert p.Stint? && cur + p.duration == next && lap + p.laps == nextLap;
    assert ([p] + rest)[1..] == rest;
    AlternatesCons(p, rest);
  }

  lemma PitAndOnTiles(e: Env, cur: int, lap: int)
    requires e.Valid()
    ensures var parts := PitAndOn(e, cur, lap); parts[0].Pit? && Runs(e, parts, cur, lap) && Alternates(parts)
  {
    var rest := Rest(e, cur + e.pitTime, lap);
    ToFlagFollowsRules(e, cur + e.pitTime, lap);
    PitThenRest(e, cur, lap, rest, cur + e.pitTime);
  }

  lemma OnTrackIs(e: Env, cur: int, lap: int, remain: int, out: int, next: int)
    requires e.Valid() && out == cur + Times(remain, e.avgLap) < e.raceEnd && next == lap + remain
    ensures PlanOnTrack(e, cur, lap, remain) == [e.StintPart(cur, remain, lap)] + PitAndOn(e, out, next)
  {
  }

  lemma OnTrackTiles(e: Env, cur: int, lap: int, remain: int)
    requires e.Valid()
    ensures Runs(e, PlanOnTrack(e, cur, lap, remain), cur, lap) && Alternates(PlanOnTrack(e, cur, lap, remain))
  {
    var out, next := cur + Times(remain, e.avgLap), lap + remain;
    if out < e.raceEnd {
      PitAndOnTiles(e, out, next);
      StintThenRest(e, cur, lap, remain, PitAndOn(e, out, next), out, next);
      OnTrackIs(e, cur, lap, remain, out, next);
    } else {
      var laps := CeilDiv(e.raceEnd - cur, e.avgLap);
      StintThenRest(e, cur, lap, laps, [], cur + Times(laps, e.avgLap), lap + laps);
    }
  }

  /** Every plan tiles time from the opening offset and laps from the opening lap number, and
      stints and pit stops take turns. */
  lemma PlanTiles(c: PredictParam)
    requires c.Valid()
    ensures Runs(EnvOf(c), Plan(c), OpeningOffset(c), StartLap(c)) && Alternates(Plan(c))
  {
    var e, cur, lap := EnvOf(c), OpeningOffset(c), StartLap(c);
    if !c.inPit && Remain(c) > 0 {
      OnTrackTiles(e, cur, lap, Remain(c));
    } else if c.inPit {
      ToFlagFollowsRules(e, cur, lap);
    } else {
      ToFlagFollowsRules(e, cur + e.pitTime, lap);
      PitThenRest(e, cur, lap, ToFlag(e, cur + e.pitTime, lap), cur + e.pitTime);
    }
  }

  /** Total planned time is laps times average lap plus pit stops times pit time. */
  lemma PlanConserves(c: PredictParam)
    requires c.Valid()
    ensures TimeOf(Plan(c)) == LapsOf(Plan(c)) * c.avgLap + PitsOf(Plan(c)) * c.pitTime
    ensures Plan(c) != [] ==>
      && Plan(c)[0].start == OpeningOffset(c) + SessionOffset(c)
      && Last(Plan(c)).end == Plan(c)[0].start + TimeOf(Plan(c))
  {
    PlanTiles(c);
    RunsTotal(EnvOf(c), Plan(c), OpeningOffset(c), StartLap(c));
    TimesIs(LapsOf(Plan(c)), c.avgLap);
    TimesIs(PitsOf(Plan(c)), c.pitTime);
  }

  /** Each part starts where the one before it ends, and laps are numbered through without gap or overlap
      from the opening lap number. */
  lemma PlanPart(c: PredictParam, i: nat)
    requires c.Valid() && i < |Plan(c)|
    ensures var parts, p := Plan(c), Plan(c)[i];
      && p.end == p.start + p.duration
      && (i + 1 < |parts| ==> parts[i + 1].start == p.end && parts[i + 1].Stint? != p.Stint?)
      && (p.Pit? ==> p.duration == c.pitTime)
      && (p.Stint? ==> p.duration == p.laps * c.avgLap && p.lapEnd + 1 == p.lapStart + p.laps)
      && (p.Stint? ==> p.lapStart == StartLap(c) + LapsOf(parts[..i]))
  {
    PlanTiles(c);
    RunsTile(EnvOf(c), Plan(c), OpeningOffset(c), StartLap(c), i);
    if Plan(c)[i].Stint? { TimesIs(Plan(c)[i].laps, c.avgLap); }
    if i + 1 < |Plan(c)| { assert Plan(c)[i].Stint? != Plan(c)[i + 1].Stint?; }
  }

  /** How a plan opens, in terms of its input. In the pit it is a run to the flag, if the race is still on.
      With the stint used up it is a pit stop and a stint. Otherwise it is the rest of the stint and a pit stop, or,
      when that rest does not end before the race does, as many laps as the race still takes. */
  lemma Opening(c: PredictParam, ahead: int)
    requires c.Valid()
    requires ahead == if c.inPit || c.remainLapTime.None? || (c.lc == 0 && c.stintLap == 0) then 0
                      else if c.remainLapTime.value > 0 then c.remainLapTime.value else c.avgLap
    ensures var parts, remain := Plan(c), c.lps - c.stintLap;
      if c.inPit then
        (parts == [] <==> c.duration <= 0) && (parts != [] ==> parts[0].Stint?)
      else if remain <= 0 then
        |parts| > 1 && parts[0].Pit? && parts[1].Stint?
      else if ahead + remain * c.avgLap < c.duration then
        |parts| > 1 && parts[0].Stint? && parts[0].laps == remain && parts[1].Pit?
      else
        |parts| <= 1 && var laps := if parts == [] then 0 else parts[0].laps;
        && (laps - 1) * c.avgLap < c.duration - ahead <= laps * c.avgLap
        && (parts != [] ==> parts[0].Stint? && laps != 0)
  {
    var e, remain := EnvOf(c), c.lps - c.stintLap;
    assert ahead == OpeningOffset(c);
    if c.inPit {
      ToFlagFollowsRules(e, ahead, StartLap(c));
    } else if remain <= 0 {
      ToFlagFollowsRules(e, ahead + e.pitTime, StartLap(c));
    } else {
      TimesIs(remain, c.avgLap);
      if ahead + remain * c.avgLap < c.duration {
        OnTrackIs(e, ahead, StartLap(c), remain, ahead + Times(remain, c.avgLap), StartLap(c) + remain);
      } else {
        CeilDivIsCeiling(c.duration - ahead, c.avgLap);
      }
    }
  }

  lemma OnTrackAfterPit(e: Env, cur: int, lap: int, remain: int, out: int, next: int, nextLap: int)
    requires e.Valid() && out == cur + Times(remain, e.avgLap) < e.raceEnd
    requires next == out + e.pitTime && nextLap == lap + remain
    ensures var parts := PlanOnTrack(e, cur, lap, remain);
      && (next < e.raceEnd ==> |parts| > 2 && FollowsRules(e, parts[2..], next, nextLap))
      && (next >= e.raceEnd ==> |parts| == 2)
  {
    OnTrackIs(e, cur, lap, remain, out, nextLap);
    ToFlagFollowsRules(e, next, nextLap);
    assert next < e.raceEnd ==> PlanOnTrack(e, cur, lap, remain)[2..] == ToFlag(e, next, nextLap);
  }

  /** A plan that opens in the pit, or with a pit stop, follows the rule book from there on. */
  lemma AfterPitOpening(c: PredictParam, ahead: int, first: int)
    requires c.Valid() && (c.inPit || c.lps <= c.stintLap)
    requires ahead == if c.inPit || c.remainLapTime.None? || (c.lc == 0 && c.stintLap == 0) then 0
                      else if c.remainLapTime.value > 0 then c.remainLapTime.value else c.avgLap
    requires first == if c.lc == 0 && c.stintLap == 0 then 1 else c.lc + 2
    ensures var e := Env(c.avgLap, c.lps, c.pitTime, c.duration, SessionOffset(c));
      if c.inPit then Plan(c) != [] ==> FollowsRules(e, Plan(c), 0, first)
      else |Plan(c)| > 1 && FollowsRules(e, Plan(c)[1..], ahead + c.pitTime, first)
  {
    var e := EnvOf(c);
    var start := if c.inPit then ahead else ahead + e.pitTime;
    assert ahead == OpeningOffset(c) && first == StartLap(c);
    ToFlagFollowsRules(e, start, first);
    if !c.inPit { assert Plan(c)[1..] == ToFlag(e, start, first); }
  }

  /** A plan that opens with the rest of a stint and a pit stop follows the rule book from there on, or is complete
      because the race is over by the end of that pit stop. With Opening this leaves one plan for each input. */
  lemma AfterStintOpening(c: PredictParam, ahead: int, first: int, remain: int, next: int)
    requires c.Valid() && !c.inPit && remain == c.lps - c.stintLap > 0 && ahead + remain * c.avgLap < c.duration
    requires ahead == if c.remainLapTime.None? || (c.lc == 0 && c.stintLap == 0) then 0
                      else if c.remainLapTime.value > 0 then c.remainLapTime.value else c.avgLap
    requires first == if c.lc == 0 && c.stintLap == 0 then 1 else c.lc + 2
    requires next == ahead + remain * c.avgLap + c.pitTime
    ensures var e := Env(c.avgLap, c.lps, c.pitTime, c.duration, SessionOffset(c));
      if next < c.duration then |Plan(c)| > 2 && FollowsRules(e, Plan(c)[2..], next, first + remain)
      else |Plan(c)| == 2
  {
    var e, out := EnvOf(c), ahead + Times(remain, c.avgLap);
    TimesIs(remain, c.avgLap);
    assert ahead == OpeningOffset(c) && first == StartLap(c) && Plan(c) == PlanOnTrack(e, ahead, first, remain);
    OnTrackAfterPit(e, ahead, first, remain, out, next, first + remain);
  }

  /** Laps are numbered through from 1 before the start of the race, and otherwise from the one after the
      current lap, c.lc + 2; so the last stint ends with the last lap of the plan. */
  lemma LapNumbers(c: PredictParam, i: nat)
    requires c.Valid() && i < |Plan(c)| && Plan(c)[i].Stint?
    ensures var first, parts := if c.lc == 0 && c.stintLap == 0 then 1 else c.lc + 2, Plan(c);
      && parts[i].lapStart == first + LapsOf(parts[..i])
      && parts[i].lapEnd == first - 1 + LapsOf(parts[..i + 1])
      && (i >= |parts| - 2 ==> parts[i].lapEnd == first - 1 + LapsOf(parts))
  {
    var parts := Plan(c);
    PlanTiles(c);
    RunsTile(EnvOf(c), parts, OpeningOffset(c), StartLap(c), i);
    LapsSnoc(parts[..i], parts[i]);
    assert parts[..i] + [parts[i]] == parts[..i + 1];
    if i == |parts| - 1 {
      assert parts[..i + 1] == parts;
    } else if i == |parts| - 2 {
      assert parts[i].Stint? != parts[i + 1].Stint?;
      LapsSnoc(parts[..i + 1], parts[i + 1]);
      assert parts[..i + 1] + [parts[i + 1]] == parts;
    }
  }

  lemma LapsSnoc(parts: seq<Part>, p: Part)
    ensures LapsOf(parts + [p]) == LapsOf(parts) + if p.Stint? then p.laps else 0
  {
    LapsAppend(parts, [p]);
    assert [p][1..] == [];
  }

  /** Every lap of a plan is driven in exactly one stint, and no other lap is: those from the opening lap number
      on, as many as the plan has. */
  lemma {:induction false} LapInOneStint(e: Env, parts: seq<Part>, cur: int, lap: int, n: int)
    requires Runs(e, parts, cur, lap) && WithinTank(parts, e.lps)
    ensures StintsWith(parts, n) == if lap <= n < lap + LapsOf(parts) then 1 else 0
    ensures LapsOf(parts) >= 0
  {
    if parts != [] {
      var p, tail := parts[0], parts[1..];
      LapInOneStint(e, tail, cur + p.duration, if p.Stint? then lap + p.laps else lap, n);
    }
  }

  // The number of stints that lap n belongs to.
  function StintsWith(parts: seq<Part>, n: int): nat {
    if parts == [] then 0
    else (if parts[0].Stint? && parts[0].lapStart <= n <= parts[0].lapEnd then 1 else 0) + StintsWith(parts[1..], n)
  }

  /** A plan without negative laps drives each lap from the opening lap number on in exactly one stint. */
  lemma LapsDrivenOnce(c: PredictParam, n: int)
    requires c.Valid() && WithinTank(Plan(c), c.lps)
    ensures var first := if c.lc == 0 && c.stintLap == 0 then 1 else c.lc + 2;
      StintsWith(Plan(c), n) == if first <= n < first + LapsOf(Plan(c)) then 1 else 0
  {
    PlanTiles(c);
    LapInOneStint(EnvOf(c), Plan(c), OpeningOffset(c), StartLap(c), n);
  }

  ghost predicate WithinTank(parts: seq<Part>, lps: int) {
    forall i :: 0 <= i < |parts| && parts[i].Stint? ==> 1 <= parts[i].laps <= lps
  }

  lemma ToFlagWithinTank(e: Env, cur: int, lap: int)
    requires e.Valid()
    ensures WithinTank(ToFlag(e, cur, lap), e.lps)
  {
    ToFlagFollowsRules(e, cur, lap);
    var parts := ToFlag(e, cur, lap);
    forall i | 0 <= i < |parts| && parts[i].Stint? ensures 1 <= parts[i].laps <= e.lps {
      if i == |parts| - 1 { assert parts[i] == Last(parts); }
    }
  }

  /** All stints have between 1 and Lps laps, except when the car is on track with laps left in its
      stint and the opening offset is a lap or more past the end of the race: then, and only then,
      the plan is a single stint with a negative number of laps. */
  lemma StintLimits(c: PredictParam)
    requires c.Valid()
    ensures WithinTank(Plan(c), c.lps)
       <==> c.inPit || Remain(c) <= 0 || OpeningOffset(c) < c.duration + c.avgLap
    ensures !WithinTank(Plan(c), c.lps) ==> |Plan(c)| == 1 && Plan(c)[0].Stint? && Plan(c)[0].laps < 0
    ensures !c.inPit && Remain(c) > 0 && Plan(c) != [] ==>
      Plan(c)[0].Stint? && Plan(c)[0].laps <= c.lps - c.stintLap
  {
    var e, cur, lap, remain := EnvOf(c), OpeningOffset(c), StartLap(c), Remain(c);
    if c.inPit {
      ToFlagWithinTank(e, cur, lap);
    } else if remain <= 0 {
      ToFlagWithinTank(e, cur + e.pitTime, lap);
    } else if cur + Times(remain, e.avgLap) < e.raceEnd {
      TimesMonotone(1, remain, e.avgLap);
      ToFlagWithinTank(e, cur + Times(remain, e.avgLap) + e.pitTime, lap + remain);
    } else {
      CeilDivWithin(e.raceEnd - cur, remain, e.avgLap);
      CeilDivPositive(e.raceEnd - cur, e.avgLap);
      assert Plan(c) != [] ==> Plan(c)[0].laps == CeilDiv(e.raceEnd - cur, e.avgLap);
    }
  }

  // ----- end of race -----

  lemma {:induction false} ToFlagEnd(e: Env, cur: int, lap: int)
    requires e.Valid() && cur < e.raceEnd + e.pitTime
    ensures e.raceEnd <= Last(ToFlag(e, cur, lap)).end - e.offset < e.raceEnd + e.pitTime + e.avgLap
    decreases Max(0, e.raceEnd - cur)
  {
    if cur + e.FullStint() < e.raceEnd {
      FullStintTakesTime(e);
      ToFlagEnd(e, cur + e.Cycle(), lap + e.lps);
    } else {
      LastStint(e, cur);
      TimesStep(Max(1, CeilDiv(e.raceEnd - cur, e.avgLap)) - 1, e.avgLap);
    }
  }

  lemma RestEnd(e: Env, cur: int, lap: int)
    requires e.Valid() && cur < e.raceEnd
    ensures var parts := Rest(e, cur, lap);
      && parts != [] && Last(parts).Stint?
      && e.raceEnd <= Last(parts).end - e.offset < e.raceEnd + e.pitTime + e.avgLap
  {
    ToFlagFollowsRules(e, cur, lap);
    ToFlagEnd(e, cur, lap);
  }

  // The opening stint ends before the race does, but the pit stop after it does not.
  predicate EndsInPit(c: PredictParam) {
    var out := OpeningOffset(c) + Times(Remain(c), c.avgLap);
    !c.inPit && Remain(c) > 0 && out < c.duration <= out + c.pitTime
  }

  // How a list of parts ends: with a stint or pit stop, and when.
  ghost predicate EndsAtFlag(e: Env, parts: seq<Part>, inPit: bool) {
    parts != [] && (Last(parts).Pit? <==> inPit)
    && e.raceEnd <= Last(parts).end - e.offset < e.raceEnd + e.pitTime + e.avgLap
  }

  lemma LastStintEnd(e: Env, cur: int, lap: int, remain: int)
    requires e.Valid() && cur + Times(remain, e.avgLap) >= e.raceEnd
    ensures var parts := PlanOnTrack(e, cur, lap, remain);
      if cur < e.raceEnd then EndsAtFlag(e, parts, false)
      else parts == [] || (Last(parts).Stint? && Last(parts).end - e.offset >= e.raceEnd)
  {
    CeilDivBounds(e.raceEnd - cur, e.avgLap);
    CeilDivPositive(e.raceEnd - cur, e.avgLap);
    TimesStep(CeilDiv(e.raceEnd - cur, e.avgLap) - 1, e.avgLap);
  }

  lemma PitAndOnEnd(e: Env, cur: int, lap: int)
    requires e.Valid() && cur < e.raceEnd
    ensures EndsAtFlag(e, PitAndOn(e, cur, lap), cur + e.pitTime >= e.raceEnd)
  {
    if cur + e.pitTime < e.raceEnd { RestEnd(e, cur + e.pitTime, lap); }
  }

  lemma OnTrackEnd(e: Env, cur: int, lap: int, remain: int)
    requires e.Valid() && cur + Times(remain, e.avgLap) < e.raceEnd
    ensures var out := cur + Times(remain, e.avgLap);
      EndsAtFlag(e, PlanOnTrack(e, cur, lap, remain), out + e.pitTime >= e.raceEnd)
  {
    var out, next := cur + Times(remain, e.avgLap), lap + remain;
    PitAndOnEnd(e, out, next);
    OnTrackIs(e, cur, lap, remain, out, next);
  }

  lemma EndOfRace(c: PredictParam)
    requires c.Valid()
    ensures Plan(c) != [] ==> Last(Plan(c)).end - SessionOffset(c) >= c.duration
    ensures OpeningOffset(c) < c.duration ==>
      && Plan(c) != []
      && Last(Plan(c)).end - SessionOffset(c) < c.duration + c.pitTime + c.avgLap
    ensures Plan(c) != [] ==> (Last(Plan(c)).Pit? <==> EndsInPit(c))
  {
    var e, cur, lap := EnvOf(c), OpeningOffset(c), StartLap(c);
    if !c.inPit && Remain(c) > 0 {
      TimesMonotone(1, Remain(c), e.avgLap);
      if cur + Times(Remain(c), e.avgLap) < e.raceEnd {
        OnTrackEnd(e, cur, lap, Remain(c));
      } else {
        LastStintEnd(e, cur, lap, Remain(c));
      }
    } else {
      var start := if c.inPit then cur else cur + e.pitTime;
      ToFlagFollowsRules(e, start, lap);
      if cur < e.raceEnd { ToFlagEnd(e, start, lap); }
    }
  }

  // ----- laps and pit stops -----

  function LapsToFlag(e: Env, x: int): int
    requires e.Valid()
  {
    Times(FullStints(e, x), e.lps) + LastLaps(e, x)
  }

  // FullStints is the least number of pit stops after which one tank covers what is left.
  lemma FullStintsLeast(e: Env, x: int, q: nat)
    requires e.Valid()
    ensures x <= Times(FullStints(e, x), e.Cycle()) + e.FullStint()
    ensures x <= Times(q, e.Cycle()) + e.FullStint() ==> FullStints(e, x) <= q
  {
    FullStintTakesTime(e);
    var m, y := e.Cycle(), x - e.FullStint();
    if y <= Times(q, m) { CeilDivWithin(y, q, m); }
    CeilDivBounds(y, m);
    TimesMonotone(CeilDiv(y, m), FullStints(e, x), m);
  }

  lemma TotalsPrepend(stint: Part, pit: Part, tail: seq<Part>)
    requires stint.Stint? && pit.Pit?
    ensures PitsOf([stint, pit] + tail) == 1 + PitsOf(tail)
    ensures LapsOf([stint, pit] + tail) == stint.laps + LapsOf(tail)
  {
    var parts := [stint, pit] + tail;
    assert parts[1..] == [pit] + tail && ([pit] + tail)[1..] == tail;
  }

  lemma {:induction false} ToFlagTotals(e: Env, cur: int, lap: int)
    requires e.Valid()
    ensures PitsOf(ToFlag(e, cur, lap)) == FullStints(e, e.raceEnd - cur)
    ensures LapsOf(ToFlag(e, cur, lap)) == Times(FullStints(e, e.raceEnd - cur), e.lps) + LastLaps(e, e.raceEnd - cur)
    decreases Max(0, e.raceEnd - cur)
  {
    FullStintsStep(e, e.raceEnd - cur);
    if cur + e.FullStint() < e.raceEnd {
      FullStintTakesTime(e);
      var next := cur + e.Cycle();
      ToFlagTotals(e, next, lap + e.lps);
      TotalsPrepend(e.StintPart(cur, e.lps, lap), e.PitPart(cur + e.FullStint()), ToFlag(e, next, lap + e.lps));
    } else {
      assert ToFlag(e, cur, lap)[1..] == [];
    }
  }

  lemma LastLapsBounds(e: Env, x: int)
    requires e.Valid()
    ensures 1 <= LastLaps(e, x) <= e.lps && LapsToFlag(e, x) >= 1
  {
    var m, k := e.Cycle(), FullStints(e, x);
    TimesMonotone(0, k, e.lps);
    FullStintsLeast(e, x, 0);
    LastStint(e.(raceEnd := x), Times(k, m));
  }

  // Laps planned for a car on track at time cur with laps left in its stint.
  function LapsOnTrack(e: Env, cur: int, remain: int): int
    requires e.Valid()
  {
    var out := cur + Times(remain, e.avgLap);
    if out >= e.raceEnd then CeilDiv(e.raceEnd - cur, e.avgLap)
    else remain + if out + e.pitTime < e.raceEnd then LapsToFlag(e, e.raceEnd - (out + e.pitTime)) else 0
  }

  // The laps of a plan, read off its input.
  function PlannedLaps(c: PredictParam): int
    requires c.Valid()
  {
    var e, cur := EnvOf(c), OpeningOffset(c);
    if c.inPit then (if cur < e.raceEnd then LapsToFlag(e, e.raceEnd - cur) else 0)
    else if Remain(c) > 0 then LapsOnTrack(e, cur, Remain(c))
    else LapsToFlag(e, e.raceEnd - (cur + e.pitTime))
  }

  // Pit stops planned for a car on track at time cur with laps left in its stint.
  function PitsOnTrack(e: Env, cur: int, remain: int): nat
    requires e.Valid()
  {
    var out := cur + Times(remain, e.avgLap);
    if out >= e.raceEnd then 0
    else 1 + if out + e.pitTime < e.raceEnd then FullStints(e, e.raceEnd - (out + e.pitTime)) else 0
  }

  // The pit stops of a plan, read off its input.
  function PlannedPits(c: PredictParam): nat
    requires c.Valid()
  {
    var e, cur := EnvOf(c), OpeningOffset(c);
    if c.inPit then (if cur < e.raceEnd then FullStints(e, e.raceEnd - cur) else 0)
    else if Remain(c) > 0 then PitsOnTrack(e, cur, Remain(c))
    else 1 + FullStints(e, e.raceEnd - (cur + e.pitTime))
  }

  lemma OnTrackTotals(e: Env, cur: int, lap: int, remain: int)
    requires e.Valid()
    ensures LapsOf(PlanOnTrack(e, cur, lap, remain)) == LapsOnTrack(e, cur, remain)
    ensures PitsOf(PlanOnTrack(e, cur, lap, remain)) == PitsOnTrack(e, cur, remain)
  {
    var out := cur + Times(remain, e.avgLap);
    if out < e.raceEnd {
      ToFlagTotals(e, out + e.pitTime, lap + remain);
      TotalsPrepend(e.StintPart(cur, remain, lap), e.PitPart(out), Rest(e, out + e.pitTime, lap + remain));
    } else {
      assert forall p: Part :: [p][1..] == [];
    }
  }

  /** The laps and pit stops of a plan in closed form. */
  lemma PlanTotals(c: PredictParam)
    requires c.Valid()
    ensures LapsOf(Plan(c)) == PlannedLaps(c) && PitsOf(Plan(c)) == PlannedPits(c)
  {
    var e, cur, lap := EnvOf(c), OpeningOffset(c), StartLap(c);
    if c.inPit {
      ToFlagTotals(e, cur, lap);
    } else if Remain(c) > 0 {
      OnTrackTotals(e, cur, lap, Remain(c));
    } else {
      ToFlagTotals(e, cur + e.pitTime, lap);
      assert Plan(c)[1..] == ToFlag(e, cur + e.pitTime, lap);
    }
  }
}
