/** Laws that compare two runs of the planner: longer races and pit stops, and runs started again
    from a point inside an earlier plan. */
module Replanning {
  import opened CeilDivision
  import opened Options
  import opened StintPlan
  import opened StintLaws
  import opened PlanLaws

  // ----- monotonicity -----

  lemma LapsToFlagMonotone(e: Env, x: int, y: int)
    requires e.Valid() && x <= y
    ensures LapsToFlag(e, x) <= LapsToFlag(e, y)
  {
    var k, l := FullStints(e, x), FullStints(e, y);
    FullStintsLeast(e, y, l);
    FullStintsLeast(e, x, l);
    LastLapsBounds(e, x);
    LastLapsBounds(e, y);
    if k == l {
      CeilDivMonotone(x - Times(k, e.Cycle()), y - Times(k, e.Cycle()), e.avgLap);
    } else {
      TimesMonotone(k + 1, l, e.lps);
    }
  }

  lemma LapsToFlagAntitoneInPit(e: Env, x: int, p: int)
    requires e.Valid() && e.pitTime <= p
    ensures LapsToFlag(e, x) >= LapsToFlag(e.(pitTime := p), x)
  {
    var f := e.(pitTime := p);
    var k, l := FullStints(e, x), FullStints(f, x);
    FullStintsLeast(e, x, k);
    TimesMonotoneInFactor(k, e.Cycle(), f.Cycle());
    FullStintsLeast(f, x, k);
    LastLapsBounds(e, x);
    LastLapsBounds(f, x);
    if k == l {
      CeilDivMonotone(x - Times(k, f.Cycle()), x - Times(k, e.Cycle()), e.avgLap);
    } else {
      TimesMonotone(l + 1, k, e.lps);
    }
  }

  lemma OnTrackLongerRace(e: Env, cur: int, remain: int, raceEnd: int)
    requires e.Valid() && e.raceEnd <= raceEnd
    ensures LapsOnTrack(e, cur, remain) <= LapsOnTrack(e.(raceEnd := raceEnd), cur, remain)
  {
    var f, out := e.(raceEnd := raceEnd), cur + Times(remain, e.avgLap);
    var x, y := e.raceEnd - (out + e.pitTime), raceEnd - (out + e.pitTime);
    assert LapsToFlag(f, y) >= 0 && (LapsToFlag(e, x) <= LapsToFlag(f, y)) by {
      LapsToFlagMonotone(e, x, y);
      RaceEndOnly(e, f, y);
      LastLapsBounds(f, y);
    }
    if out >= raceEnd {
      CeilDivMonotone(e.raceEnd - cur, raceEnd - cur, e.avgLap);
    } else if out >= e.raceEnd {
      CeilDivWithin(e.raceEnd - cur, remain, e.avgLap);
    }
  }

  // LapsToFlag does not depend on where the race ends, only on what is left of it.
  lemma RaceEndOnly(e: Env, f: Env, x: int)
    requires e.Valid() && f == e.(raceEnd := f.raceEnd)
    ensures LapsToFlag(e, x) == LapsToFlag(f, x)
  {
  }

  /** With all else equal, a longer race never yields fewer laps. */
  lemma LongerRaceMoreLaps(c: PredictParam, duration: int)
    requires c.Valid() && c.duration <= duration
    ensures LapsOf(Plan(c)) <= LapsOf(Plan(c.(duration := duration)))
  {
    var d, e, cur := c.(duration := duration), EnvOf(c), OpeningOffset(c);
    assert EnvOf(d) == e.(raceEnd := duration) && OpeningOffset(d) == cur;
    PlanTotals(c);
    PlanTotals(d);
    if !c.inPit && Remain(c) > 0 {
      OnTrackLongerRace(e, cur, Remain(c), duration);
    } else {
      var start := if c.inPit then cur else cur + e.pitTime;
      LapsToFlagMonotone(e, c.duration - start, duration - start);
      RaceEndOnly(e, EnvOf(d), duration - start);
      LastLapsBounds(e, duration - start);
    }
  }

  lemma OnTrackLongerPit(e: Env, cur: int, remain: int, p: int)
    requires e.Valid() && e.pitTime <= p
    ensures LapsOnTrack(e, cur, remain) >= LapsOnTrack(e.(pitTime := p), cur, remain)
  {
    var out := cur + Times(remain, e.avgLap);
    LapsToFlagAntitoneInPit(e, e.raceEnd - (out + p), p);
    LapsToFlagMonotone(e, e.raceEnd - (out + p), e.raceEnd - (out + e.pitTime));
    LastLapsBounds(e, e.raceEnd - (out + e.pitTime));
  }

  /** With all else equal, a longer pit stop never yields more laps. */
  lemma LongerPitFewerLaps(c: PredictParam, pitTime: int)
    requires c.Valid() && c.pitTime <= pitTime
    ensures LapsOf(Plan(c)) >= LapsOf(Plan(c.(pitTime := pitTime)))
  {
    var d, e, cur := c.(pitTime := pitTime), EnvOf(c), OpeningOffset(c);
    assert EnvOf(d) == e.(pitTime := pitTime) && OpeningOffset(d) == cur;
    PlanTotals(c);
    PlanTotals(d);
    if !c.inPit && Remain(c) > 0 {
      OnTrackLongerPit(e, cur, Remain(c), pitTime);
    } else if c.inPit {
      LapsToFlagAntitoneInPit(e, c.duration - cur, pitTime);
    } else {
      LapsToFlagAntitoneInPit(e, c.duration - (cur + pitTime), pitTime);
      LapsToFlagMonotone(e, c.duration - (cur + pitTime), c.duration - (cur + c.pitTime));
    }
  }

  // ----- running the planner again -----

  // The same race seen from t later.
  function Later(e: Env, t: int): Env { e.(raceEnd := e.raceEnd - t, offset := e.offset + t) }

  // The same plan seen from t later.
  lemma {:induction false} ToFlagShift(e: Env, t: int, cur: int, lap: int)
    requires e.Valid()
    ensures ToFlag(Later(e, t), cur - t, lap) == ToFlag(e, cur, lap)
    decreases Max(0, e.raceEnd - cur)
  {
    if cur + e.FullStint() < e.raceEnd {
      FullStintTakesTime(e);
      ToFlagShift(e, t, cur + e.Cycle(), lap + e.lps);
      assert cur - t + e.Cycle() == cur + e.Cycle() - t;
    }
  }

  // What follows a pit stop on the way to the flag is again a run to the flag.
  lemma {:induction false} AfterPit(e: Env, cur: int, lap: int, i: nat)
    requires e.Valid() && i < |ToFlag(e, cur, lap)| && ToFlag(e, cur, lap)[i].Pit?
    ensures var parts := ToFlag(e, cur, lap);
      parts[i + 1..] == ToFlag(e, parts[i].end - e.offset, lap + LapsOf(parts[..i + 1]))
    decreases Max(0, e.raceEnd - cur)
  {
    if cur + e.FullStint() < e.raceEnd {
      FullStintTakesTime(e);
      var parts, tail := ToFlag(e, cur, lap), ToFlag(e, cur + e.Cycle(), lap + e.lps);
      assert parts[2..] == tail;
      if i == 1 {
        TotalsPrepend(parts[0], parts[1], []);
        assert parts[..2] == [parts[0], parts[1]] + [];
      } else {
        AfterPit(e, cur + e.Cycle(), lap + e.lps, i - 2);
        TotalsPrepend(parts[0], parts[1], tail[..i - 1]);
        assert parts[..i + 1] == [parts[0], parts[1]] + tail[..i - 1];
        assert parts[i + 1..] == tail[i - 1..];
      }
    }
  }

  lemma LapsBeforePit(e: Env, start: int, lap: int, k: nat)
    requires e.Valid() && k < |ToFlag(e, start, lap)| && ToFlag(e, start, lap)[k].Pit?
    ensures LapsOf(ToFlag(e, start, lap)[..k + 1]) >= 1 && k + 1 < |ToFlag(e, start, lap)|
  {
    var front := ToFlag(e, start, lap)[..k + 1];
    ToFlagWithinTank(e, start, lap);
    ToFlagFollowsRules(e, start, lap);
    NoNegativeLaps(front[1..]);
  }

  lemma AfterLaterPit(e: Env, opening: seq<Part>, start: int, lap: int, i: nat, nextLap: int)
    requires e.Valid()
    requires var parts := opening + ToFlag(e, start, lap); |opening| <= i < |parts| && parts[i].Pit?
    requires nextLap == lap + LapsOf((opening + ToFlag(e, start, lap))[..i + 1]) - LapsOf(opening)
    ensures var parts := opening + ToFlag(e, start, lap);
      nextLap > lap && i + 1 < |parts| && parts[i + 1..] == ToFlag(e, parts[i].end - e.offset, nextLap)
  {
    var n, tail := |opening|, ToFlag(e, start, lap);
    var parts, k := opening + tail, i - n;
    AfterPit(e, start, lap, k);
    LapsAppend(opening, tail[..k + 1]);
    assert parts[..i + 1] == opening + tail[..k + 1] && parts[i + 1..] == tail[k + 1..];
    assert nextLap == lap + LapsOf(tail[..k + 1]);
    LapsBeforePit(e, start, lap, k);
  }

  lemma StopsMeansStintEnds(e: Env, cur: int, lap: int, remain: int, i: nat)
    requires e.Valid() && i < |PlanOnTrack(e, cur, lap, remain)| && PlanOnTrack(e, cur, lap, remain)[i].Pit?
    ensures cur + Times(remain, e.avgLap) < e.raceEnd
  {
  }

  lemma StintAndPit(stint: Part, pit: Part, rest: seq<Part>)
    requires stint.Stint? && pit.Pit?
    ensures LapsOf([stint, pit]) == stint.laps && [stint] + ([pit] + rest) == [stint, pit] + rest
  {
    assert [stint, pit] + [] == [stint, pit];
    TotalsPrepend(stint, pit, []);
  }

  lemma OnTrackOpening(e: Env, cur: int, lap: int, remain: int, out: int, next: int)
    requires e.Valid() && out == cur + Times(remain, e.avgLap) < e.raceEnd && next == lap + remain
    ensures var opening := [e.StintPart(cur, remain, lap), e.PitPart(out)];
      LapsOf(opening) == remain && PlanOnTrack(e, cur, lap, remain) == opening + Rest(e, out + e.pitTime, next)
  {
    OnTrackIs(e, cur, lap, remain, out, next);
    StintAndPit(e.StintPart(cur, remain, lap), e.PitPart(out), Rest(e, out + e.pitTime, next));
  }

  // The parts a plan opens with before it drives to the flag, and where they leave the car.
  lemma PlanOpening(c: PredictParam, i: nat) returns (opening: seq<Part>, start: int, lap: int)
    requires c.Valid() && i < |Plan(c)| && Plan(c)[i].Pit?
    ensures lap == StartLap(c) + LapsOf(opening) && LapsOf(opening) >= 0
    ensures Plan(c) == opening || Plan(c) == opening + ToFlag(EnvOf(c), start, lap)
    ensures i < |opening| ==> i + 1 == |opening| && lap >= 2 && start == opening[i].end - SessionOffset(c)
  {
    var e, cur, remain := EnvOf(c), OpeningOffset(c), Remain(c);
    start, lap := cur, StartLap(c);
    if c.inPit {
      opening := [];
      assert Plan(c) == opening + ToFlag(e, start, lap);
    } else if remain <= 0 {
      opening, start := [e.PitPart(cur)], cur + e.pitTime;
      assert opening[1..] == [];
    } else {
      var out, next := cur + Times(remain, e.avgLap), lap + remain;
      StopsMeansStintEnds(e, cur, lap, remain, i);
      OnTrackOpening(e, cur, lap, remain, out, next);
      opening, start, lap := [e.StintPart(cur, remain, lap), e.PitPart(out)], out + e.pitTime, next;
    }
  }

  // What follows a pit stop of a plan: nothing, or a run to the flag from where the pit stop ends.
  lemma RestAfterPit(c: PredictParam, e: Env, parts: seq<Part>, i: nat, nextLap: int)
    requires c.Valid() && e == EnvOf(c) && parts == Plan(c) && i < |parts| && parts[i].Pit?
    requires nextLap == StartLap(c) + LapsOf(parts[..i + 1])
    ensures nextLap >= 2
    ensures parts[i + 1..] == if i + 1 == |parts| then [] else ToFlag(e, parts[i].end - e.offset, nextLap)
  {
    var opening, start, lap := PlanOpening(c, i);
    RestAfterOpening(e, parts, opening, start, lap, i, nextLap);
  }

  lemma RestAfterOpening(e: Env, parts: seq<Part>, opening: seq<Part>, start: int, lap: int, i: nat,
                         nextLap: int)
    requires e.Valid() && i < |parts| && parts[i].Pit? && (parts == opening || parts == opening + ToFlag(e, start, lap))
    requires i < |opening| ==> i + 1 == |opening| && lap >= 2 && start == opening[i].end - e.offset
    requires lap - LapsOf(opening) >= 1 && LapsOf(opening) >= 0
    requires nextLap == lap - LapsOf(opening) + LapsOf(parts[..i + 1])
    ensures nextLap >= 2
    ensures parts[i + 1..] == if i + 1 == |parts| then [] else ToFlag(e, parts[i].end - e.offset, nextLap)
  {
    if i < |opening| {
      assert parts[..i + 1] == opening && parts[i] == opening[i];
      if parts != opening {
        assert parts[i + 1..] == ToFlag(e, start, lap);
      }
    } else {
      AfterLaterPit(e, opening, start, lap, i, nextLap);
    }
  }

  lemma {:induction false} NoNegativeLaps(parts: seq<Part>)
    requires forall j :: 0 <= j < |parts| && parts[j].Stint? ==> parts[j].laps >= 0
    ensures LapsOf(parts) >= 0
  {
    if parts != [] { NoNegativeLaps(parts[1..]); }
  }

  // The session clock as the caller sends it.
  function Clock(c: PredictParam): int { if c.session.Some? then c.session.value else 0 }

  // Session times of the plan follow that clock, unless the car is on track on the first lap: there the
  // planner counts them from zero.
  predicate ClockKept(c: PredictParam) { !(FastForward(c) && c.lc == 0) || Clock(c) == 0 }

  lemma ClockKeptMeans(c: PredictParam)
    ensures ClockKept(c) <==> SessionOffset(c) == Clock(c)
  {
  }

  // Race time gone by when part i of the plan ends.
  function TimeAt(c: PredictParam, i: nat): int
    requires c.Valid() && i < |Plan(c)|
  {
    Plan(c)[i].end - SessionOffset(c)
  }

  // The planner's input at the end of pit stop i of a plan, when the session clock has run on.
  function AtPitExit(c: PredictParam, i: nat, stintLap: int, remainLapTime: Option<int>): PredictParam
    requires c.Valid() && i < |Plan(c)|
  {
    c.(duration := c.duration - TimeAt(c, i),
       session := Some(Clock(c) + TimeAt(c, i)),
       lc := StartLap(c) + LapsOf(Plan(c)[..i + 1]) - 2,
       inPit := true, stintLap := stintLap, remainLapTime := remainLapTime)
  }

  lemma PlanFromPit(e: Env, again: PredictParam, t: int)
    requires e.Valid() && again.Valid() && again.inPit
    requires EnvOf(again) == Later(e, t)
    ensures Plan(again) == if t < e.raceEnd then ToFlag(e, t, StartLap(again)) else []
  {
    ToFlagShift(e, t, t, StartLap(again));
  }

  // A plan that counts session times from another zero than the clock does is not picked up again.
  lemma OtherZeroAtPitExit(c: PredictParam, again: PredictParam, i: nat, t: int)
    requires c.Valid() && i + 1 < |Plan(c)| && t == TimeAt(c, i) && SessionOffset(c) != Clock(c)
    requires again.Valid() && again.inPit && again.duration == c.duration - t && again.session == Some(Clock(c) + t)
    ensures Plan(again) != Plan(c)[i + 1..]
  {
    if Plan(again) != [] {
      PlanConserves(again);
      PlanPart(c, i);
      assert Plan(c)[i + 1..][0] == Plan(c)[i + 1];
      assert Plan(again)[0].start == Clock(c) + t && Plan(c)[i + 1].start == SessionOffset(c) + t;
    }
  }

  // Where the planner starts again.
  lemma RestartInput(c: PredictParam, i: nat, again: PredictParam)
    requires c.Valid() && i < |Plan(c)| && Plan(c)[i].Pit? && again.stintLap > 0
    requires again == AtPitExit(c, i, again.stintLap, again.remainLapTime)
    ensures again.Valid() && StartLap(again) == StartLap(c) + LapsOf(Plan(c)[..i + 1])
    ensures EnvOf(again) == Env(c.avgLap, c.lps, c.pitTime, c.duration - TimeAt(c, i), Clock(c) + TimeAt(c, i))
    ensures i + 1 == |Plan(c)| ==> TimeAt(c, i) >= c.duration
    ensures i + 1 < |Plan(c)| ==> Plan(c)[i + 1].Stint? && Plan(c)[i + 1].lapStart == StartLap(again)
  {
    var e, parts, nextLap := EnvOf(c), Plan(c), StartLap(c) + LapsOf(Plan(c)[..i + 1]);
    RestAfterPit(c, e, parts, i, nextLap);
    EndOfRace(c);
    if i + 1 == |parts| { assert Last(parts) == parts[i]; } else { assert parts[i + 1] == parts[i + 1..][0]; }
  }

  // A plan that counts session times as the clock does is picked up again while the race is on.
  lemma RestartOnClock(c: PredictParam, e: Env, parts: seq<Part>, again: PredictParam, i: nat)
    requires c.Valid() && e == EnvOf(c) && parts == Plan(c) && i < |parts| && parts[i].Pit?
    requires again.Valid() && again.inPit && StartLap(again) == StartLap(c) + LapsOf(parts[..i + 1])
    requires EnvOf(again) == Later(e, parts[i].end - e.offset)
    requires i + 1 == |parts| ==> parts[i].end - e.offset >= e.raceEnd
    ensures Plan(again) == parts[i + 1..] <==> parts[i].end - e.offset < e.raceEnd || parts[i + 1..] == []
  {
    RestAfterPit(c, e, parts, i, StartLap(again));
    PlanFromPit(e, again, parts[i].end - e.offset);
  }

  /** Planning again at the end of a pit stop yields exactly the rest of the plan, times and lap numbers
      included, when the race is still on there and the plan does not ignore the clock, or nothing follows. */
  lemma RestartAtPitExit(c: PredictParam, i: nat, stintLap: int, remainLapTime: Option<int>)
    requires c.Valid() && i < |Plan(c)| && Plan(c)[i].Pit? && stintLap > 0
    ensures var again := AtPitExit(c, i, stintLap, remainLapTime);
      && again.Valid()
      && (Plan(again) == Plan(c)[i + 1..]
          <==> (TimeAt(c, i) < c.duration && ClockKept(c)) || i + 1 == |Plan(c)|)
    ensures i + 1 < |Plan(c)| ==>
      Plan(c)[i + 1].Stint? && Plan(c)[i + 1].lapStart == AtPitExit(c, i, stintLap, remainLapTime).lc + 2
  {
    var again := AtPitExit(c, i, stintLap, remainLapTime);
    RestartInput(c, i, again);
    ClockKeptMeans(c);
    if ClockKept(c) {
      RestartOnClock(c, EnvOf(c), Plan(c), again, i);
    } else if i + 1 < |Plan(c)| {
      OtherZeroAtPitExit(c, again, i, TimeAt(c, i));
    }
  }

  // One lap of a running stint later: the car has crossed the line and goes on.
  function OneLapLater(c: PredictParam): PredictParam {
    var t := OpeningOffset(c);
    c.(duration := c.duration - t, session := Some(Clock(c) + t), lc := c.lc + 1,
       stintLap := c.stintLap + 1, remainLapTime := Some(c.avgLap))
  }

  // A plan without the first lap of its opening stint.
  function WithoutFirstLap(e: Env, parts: seq<Part>): seq<Part>
    requires parts != [] && parts[0].Stint?
  {
    var p := parts[0];
    if p.laps == 1 then parts[1..]
    else [e.StintPart(p.start - e.offset + e.avgLap, p.laps - 1, p.lapStart + 1)] + parts[1..]
  }

  lemma LaterMidStint(e: Env, f: Env, cur: int, lap: int, remain: int)
    requires e.Valid() && f == Later(e, cur) && remain > 1 && cur + Times(remain, e.avgLap) < e.raceEnd
    ensures PlanOnTrack(e, cur, lap, remain) != [] && PlanOnTrack(e, cur, lap, remain)[0].Stint?
    ensures PlanOnTrack(f, e.avgLap, lap + 1, remain - 1) == WithoutFirstLap(e, PlanOnTrack(e, cur, lap, remain))
  {
    var out, next := cur + Times(remain, e.avgLap), lap + remain;
    var rest := PitAndOn(e, out, next);
    TimesStep(remain - 1, e.avgLap);
    OnTrackIs(e, cur, lap, remain, out, next);
    OnTrackIs(f, e.avgLap, lap + 1, remain - 1, out - cur, next);
    PitAndOnShift(e, cur, out, next);
    DropFirstLap(e, cur, lap, remain, rest);
    assert f.StintPart(e.avgLap, remain - 1, lap + 1) == e.StintPart(cur + e.avgLap, remain - 1, lap + 1);
  }

  lemma DropFirstLap(e: Env, cur: int, lap: int, remain: int, rest: seq<Part>)
    requires remain > 1
    ensures WithoutFirstLap(e, [e.StintPart(cur, remain, lap)] + rest)
         == [e.StintPart(cur + e.avgLap, remain - 1, lap + 1)] + rest
  {
  }

  lemma PitAndOnShift(e: Env, t: int, cur: int, lap: int)
    requires e.Valid()
    ensures PitAndOn(Later(e, t), cur - t, lap) == PitAndOn(e, cur, lap)
  {
    ToFlagShift(e, t, cur + e.pitTime, lap);
  }

  lemma LaterAtLastLap(e: Env, f: Env, cur: int, lap: int)
    requires e.Valid() && f == Later(e, cur) && cur + e.avgLap < e.raceEnd
    ensures PlanOnTrack(e, cur, lap, 1) != [] && PlanOnTrack(e, cur, lap, 1)[0].Stint?
    ensures cur + e.avgLap + e.pitTime < e.raceEnd <==>
      WithoutFirstLap(e, PlanOnTrack(e, cur, lap, 1))
      == [f.PitPart(e.avgLap)] + ToFlag(f, e.avgLap + e.pitTime, lap + 1)
  {
    var out := cur + e.avgLap;
    assert Times(1, e.avgLap) == e.avgLap;
    ToFlagShift(e, cur, out + e.pitTime, lap + 1);
    assert out + e.pitTime - cur == e.avgLap + e.pitTime;
    OnTrackIs(e, cur, lap, 1, out, lap + 1);
    assert PlanOnTrack(e, cur, lap, 1)[1..] == PitAndOn(e, out, lap + 1);
    assert f.PitPart(e.avgLap) == e.PitPart(out);
    assert [f.PitPart(e.avgLap)] + ToFlag(f, e.avgLap + e.pitTime, lap + 1)
        == [e.PitPart(out)] + ToFlag(e, out + e.pitTime, lap + 1);
  }

  lemma LaterInLastStint(e: Env, f: Env, cur: int, lap: int, remain: int)
    requires e.Valid() && f == Later(e, cur) && remain > 0 && cur < e.raceEnd <= cur + Times(remain, e.avgLap)
    ensures PlanOnTrack(e, cur, lap, remain) != [] && PlanOnTrack(e, cur, lap, remain)[0].Stint?
    ensures remain > 1 ==>
      PlanOnTrack(f, e.avgLap, lap + 1, remain - 1) == WithoutFirstLap(e, PlanOnTrack(e, cur, lap, remain))
    ensures remain == 1 ==> WithoutFirstLap(e, PlanOnTrack(e, cur, lap, remain)) == []
  {
    CeilDivStep(e.raceEnd - cur - e.avgLap, e.avgLap);
    CeilDivPositive(e.raceEnd - cur, e.avgLap);
    CeilDivWithin(e.raceEnd - cur, remain, e.avgLap);
    TimesStep(remain - 1, e.avgLap);
    assert PlanOnTrack(e, cur, lap, remain)[1..] == [];
  }

  lemma OneLapLaterIs(c: PredictParam, d: PredictParam, e: Env)
    requires c.Valid() && FastForward(c) && Remain(c) > 0 && d == OneLapLater(c) && e == EnvOf(d)
    ensures d.Valid() && SessionOffset(d) == Clock(c) + OpeningOffset(c) && OpeningOffset(d) == e.avgLap
    ensures Plan(d) == if Remain(c) > 1 then PlanOnTrack(e, e.avgLap, StartLap(c) + 1, Remain(c) - 1)
                       else [e.PitPart(e.avgLap)] + ToFlag(e, e.avgLap + e.pitTime, StartLap(c) + 1)
  {
    assert StartLap(d) == StartLap(c) + 1 && Remain(d) == Remain(c) - 1;
  }

  // When the session times follow the clock, only the end of the stint matters.
  lemma OneLapLaterOnClock(c: PredictParam, d: PredictParam)
    requires c.Valid() && FastForward(c) && Remain(c) > 0 && OpeningOffset(c) < c.duration
    requires d == OneLapLater(c) && SessionOffset(c) == Clock(c)
    ensures Plan(c) != [] && Plan(c)[0].Stint?
    ensures Plan(d) == WithoutFirstLap(EnvOf(c), Plan(c))
       <==> Remain(c) > 1 || OpeningOffset(c) + c.avgLap + c.pitTime < c.duration
  {
    var e, cur, lap, remain := EnvOf(c), OpeningOffset(c), StartLap(c), Remain(c);
    var f := EnvOf(d);
    OneLapLaterIs(c, d, f);
    assert f == Later(e, cur);
    assert Plan(c) == PlanOnTrack(e, cur, lap, remain);
    assert Times(1, e.avgLap) == e.avgLap;
    if cur + Times(remain, c.avgLap) < c.duration {
      if remain > 1 { LaterMidStint(e, f, cur, lap, remain); } else { LaterAtLastLap(e, f, cur, lap); }
    } else {
      LaterInLastStint(e, f, cur, lap, remain);
    }
  }

  // The opening of a plan that is fast-forwarded to the end of the lap before the race ends.
  lemma FirstLapLeft(c: PredictParam)
    requires c.Valid() && FastForward(c) && Remain(c) > 0 && OpeningOffset(c) < c.duration
    ensures Plan(c) != [] && Plan(c)[0].Stint?
    ensures WithoutFirstLap(EnvOf(c), Plan(c)) == [] <==> c.duration <= OpeningOffset(c) + c.avgLap
    ensures WithoutFirstLap(EnvOf(c), Plan(c)) != [] ==>
      WithoutFirstLap(EnvOf(c), Plan(c))[0].start == SessionOffset(c) + OpeningOffset(c) + c.avgLap
  {
    var e, cur, remain, parts := EnvOf(c), OpeningOffset(c), Remain(c), Plan(c);
    EndOfRace(c);
    PlanConserves(c);
    PlanPart(c, 0);
    TimesMonotone(1, remain, e.avgLap);
    assert Times(1, e.avgLap) == e.avgLap;
    if cur + Times(remain, e.avgLap) < e.raceEnd {
      OnTrackIs(e, cur, StartLap(c), remain, cur + Times(remain, e.avgLap), StartLap(c) + remain);
    } else {
      assert parts[1..] == [];
      CeilDivPositive(e.raceEnd - cur - e.avgLap, e.avgLap);
      CeilDivPositive(e.raceEnd - cur, e.avgLap);
      CeilDivStep(e.raceEnd - cur - e.avgLap, e.avgLap);
    }
  }

  // A plan that counts session times from another zero than the clock does moves, if anything is left of it.
  lemma OtherZeroOneLapLater(c: PredictParam, d: PredictParam)
    requires c.Valid() && FastForward(c) && Remain(c) > 0 && OpeningOffset(c) < c.duration
    requires d == OneLapLater(c) && SessionOffset(c) != Clock(c)
    ensures Plan(c) != [] && Plan(c)[0].Stint?
    ensures Plan(d) == WithoutFirstLap(EnvOf(c), Plan(c))
       <==> Remain(c) > 1 && c.duration <= OpeningOffset(c) + c.avgLap
  {
    var f := EnvOf(d);
    OneLapLaterIs(c, d, f);
    FirstLapLeft(c);
    EndOfRace(d);
    PlanConserves(d);
    if c.duration <= OpeningOffset(c) + c.avgLap && Remain(c) > 1 {
      CeilDivPositive(f.raceEnd - f.avgLap, f.avgLap);
      TimesMonotone(0, Remain(c) - 1, f.avgLap);
    }
  }

  /** Planning again one lap later on track yields the same plan without that lap, exactly when more
      than one lap is left in the stint or the pit stop after it ends before the race does, and the
      plan does not ignore the clock or that lap is the last one of the race. */
  lemma ReplanOneLapLater(c: PredictParam)
    requires c.Valid() && FastForward(c) && Remain(c) > 0 && OpeningOffset(c) < c.duration
    ensures Plan(c) != [] && Plan(c)[0].Stint?
    ensures Plan(OneLapLater(c)) == WithoutFirstLap(EnvOf(c), Plan(c))
       <==> && (Remain(c) > 1 || OpeningOffset(c) + c.avgLap + c.pitTime < c.duration)
            && (ClockKept(c) || c.duration <= OpeningOffset(c) + c.avgLap)
  {
    ClockKeptMeans(c);
    if ClockKept(c) {
      OneLapLaterOnClock(c, OneLapLater(c));
    } else {
      OtherZeroOneLapLater(c, OneLapLater(c));
    }
  }

  // dt later in the same lap.
  function LaterInLap(c: PredictParam, dt: int): PredictParam
    requires c.remainLapTime.Some? && c.session.Some?
  {
    c.(duration := c.duration - dt, session := Some(c.session.value + dt),
       remainLapTime := Some(c.remainLapTime.value - dt))
  }

  lemma OnTrackShift(e: Env, f: Env, t: int, cur: int, lap: int, remain: int)
    requires e.Valid() && f == Later(e, t)
    ensures PlanOnTrack(f, cur - t, lap, remain) == PlanOnTrack(e, cur, lap, remain)
  {
    var out, next := cur + Times(remain, e.avgLap), lap + remain;
    if out < e.raceEnd {
      PitAndOnShift(e, t, out, next);
      OnTrackIs(e, cur, lap, remain, out, next);
      OnTrackIs(f, cur - t, lap, remain, out - t, next);
      assert f.StintPart(cur - t, remain, lap) == e.StintPart(cur, remain, lap);
    }
  }

  // With nothing else changed, a plan seen from t later in the same lap is the same plan.
  lemma PlanShift(c: PredictParam, d: PredictParam, t: int)
    requires c.Valid() && d.Valid() && !c.inPit && !d.inPit && Remain(d) == Remain(c)
    requires EnvOf(d) == Later(EnvOf(c), t) && OpeningOffset(d) == OpeningOffset(c) - t && StartLap(d) == StartLap(c)
    ensures Plan(d) == Plan(c)
  {
    var e, cur, lap := EnvOf(c), OpeningOffset(c), StartLap(c);
    if Remain(c) > 0 {
      OnTrackShift(e, EnvOf(d), t, cur, lap, Remain(c));
    } else {
      ToFlagShift(e, t, cur + e.pitTime, lap);
      assert cur + e.pitTime - t == cur - t + e.pitTime;
    }
  }

  /** Planning again within the same lap yields the same plan, exactly when the first lap is behind the
      car; on the first lap, where session time is ignored, the plan moves. */
  lemma ReplanWithinLap(c: PredictParam, dt: int)
    requires c.Valid() && FastForward(c) && c.session.Some? && 0 < dt < c.remainLapTime.value
    ensures Plan(LaterInLap(c, dt)) == Plan(c) <==> c.lc != 0 || Plan(c) == []
  {
    var d := LaterInLap(c, dt);
    if c.lc != 0 {
      PlanShift(c, d, dt);
    } else {
      PlanConserves(c);
      PlanConserves(d);
      SameWhenEmpty(c, d);
    }
  }

  // A plan is empty when the race ends with the current lap, or while the car is in the pit.
  lemma SameWhenEmpty(c: PredictParam, d: PredictParam)
    requires c.Valid() && d.Valid() && !c.inPit && !d.inPit && Remain(d) == Remain(c) && d.avgLap == c.avgLap
    requires d.duration - OpeningOffset(d) == c.duration - OpeningOffset(c)
    ensures Plan(c) == [] <==> Plan(d) == []
  {
    if Remain(c) > 0 {
      assert d.duration - OpeningOffset(d) - Times(Remain(d), d.avgLap)
          == c.duration - OpeningOffset(c) - Times(Remain(c), c.avgLap);
    }
  }
}
