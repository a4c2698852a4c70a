/** Plans in seconds: two that the repository's own tests expect, and one for each law a plan can break. */
module PlanExamples {
  import opened CeilDivision
  import opened Options
  import opened StintPlan
  import opened StintLaws
  import opened PlanLaws
  import opened Replanning
  import opened Strategies

  lemma LastStintEndsJustBeforeRaceEnd()
    ensures Plan(PredictParam(375, 3, Some(180), 4, 60, false, 3, Some(60), 10)) == [
      Stint(240, 300, 60, 1, 5, 5), Pit(300, 310, 10), Stint(310, 550, 240, 4, 6, 9), Pit(550, 560, 10),
      Stint(560, 620, 60, 1, 10, 10)]
  {
    var e := Env(60, 4, 10, 375, 180);
    assert Times(1, 60) == 60 && Times(4, 60) == 240 by { TimesIs(1, 60); TimesIs(4, 60); }
    assert ToFlag(e, 380, 10) == [e.StintPart(380, 1, 10)] by { LateStintIsOneLap(e, 380, 10); }
    assert ToFlag(e, 130, 6) == [e.StintPart(130, 4, 6), e.PitPart(370)] + ToFlag(e, 380, 10);
  }

  lemma NeedThreeStints()
    ensures Plan(PredictParam(600, 0, Some(0), 4, 60, false, 1, Some(60), 10)) == [
      Stint(60, 240, 180, 3, 2, 4), Pit(240, 250, 10), Stint(250, 490, 240, 4, 5, 8), Pit(490, 500, 10),
      Stint(500, 620, 120, 2, 9, 10)]
  {
    var e := Env(60, 4, 10, 600, 0);
    assert Times(1, 60) == 60 && Times(2, 60) == 120 && Times(3, 60) == 180 && Times(4, 60) == 240 by {
      TimesIs(1, 60); TimesIs(2, 60); TimesIs(3, 60); TimesIs(4, 60);
    }
    CeilDivUnique(100, 60, 2);
    assert ToFlag(e, 500, 9) == [e.StintPart(500, 2, 9)];
    assert ToFlag(e, 250, 5) == [e.StintPart(250, 4, 5), e.PitPart(490)] + ToFlag(e, 500, 9);
  }

  // Before the start, laps count from 1.
  lemma BeforeTheStart()
    ensures Plan(PredictParam(310, 0, Some(0), 8, 60, false, 0, Some(0), 10)) == [Stint(0, 360, 360, 6, 1, 6)]
  {
    TimesIs(6, 60);
    TimesIs(8, 60);
    TimesIs(5, 60);
    CeilDivUnique(310, 60, 6);
  }

  // ----- where a law fails -----

  lemma TimesOf60()
    ensures Times(-1, 60) == -60 && Times(0, 60) == 0 && Times(1, 60) == 60 && Times(2, 60) == 120
    ensures Times(3, 60) == 180 && Times(4, 60) == 240
  {
    TimesIs(-1, 60); TimesIs(0, 60); TimesIs(1, 60); TimesIs(2, 60); TimesIs(3, 60); TimesIs(4, 60);
  }

  // The race is over, and the car has a lap to go to the next reference point.
  lemma NegativeLaps()
    ensures Plan(PredictParam(0, 3, Some(0), 4, 60, false, 1, Some(60), 10)) == [Stint(60, 0, -60, -1, 5, 3)]
  {
    TimesOf60();
    TimesIs(-2, 60);
    CeilDivUnique(-60, 60, -1);
  }

  // The second pit stop of this plan ends five seconds after the race; planning again there adds no lap.
  lemma NoLapAfterLatePit(c: PredictParam)
    requires c == PredictParam(375, 3, Some(180), 4, 60, false, 3, Some(60), 10) && c.Valid()
    ensures
      && |Plan(c)| == 5 && Plan(c)[3] == Pit(550, 560, 10)
      && Plan(AtPitExit(c, 3, 4, None)) == [] && Plan(c)[4..] == [Stint(560, 620, 60, 1, 10, 10)]
  {
    LastStintEndsJustBeforeRaceEnd();
  }

  // The first lap of a race, half a minute into the session.
  const FirstLap := PredictParam(600, 0, Some(30), 4, 60, false, 1, Some(30), 10)

  lemma FirstLapPlan()
    ensures FirstLap.Valid() && Plan(FirstLap) == [
      Stint(30, 210, 180, 3, 2, 4), Pit(210, 220, 10), Stint(220, 460, 240, 4, 5, 8), Pit(460, 470, 10),
      Stint(470, 650, 180, 3, 9, 11)]
  {
    var e := Env(60, 4, 10, 600, 0);
    TimesOf60();
    CeilDivUnique(130, 60, 3);
    assert ToFlag(e, 470, 9) == [e.StintPart(470, 3, 9)];
    assert ToFlag(e, 220, 5) == [e.StintPart(220, 4, 5), e.PitPart(460)] + ToFlag(e, 470, 9);
  }

  // Planned on the first lap, the stint after the first pit stop starts at 220; planned again there, at 250.
  lemma FirstLapMovesAtPitExit(c: PredictParam, d: PredictParam, planned: seq<Part>, again: seq<Part>)
    requires c == FirstLap && c.Valid() && planned == Plan(c) && |planned| == 5
    requires d == AtPitExit(c, 1, 4, None) && d.Valid() && again == Plan(d)
    ensures planned[1].Pit? && planned[2].start == 220 && again != [] && again[0].start == 250
  {
    FirstLapPlan();
    RestartInput(c, 1, d);
    EndOfRace(d);
    PlanConserves(d);
  }

  // ... planned again a lap later, the rest of the first stint starts at 120 instead of 90.
  lemma FirstLapMovesOneLapLater(c: PredictParam, d: PredictParam, planned: seq<Part>, again: seq<Part>)
    requires c == FirstLap && d == OneLapLater(c) && c.Valid() && d.Valid() && again == Plan(d)
    requires planned == Plan(c) && planned != [] && planned[0].Stint?
    ensures again != [] && again[0].start == 120
    ensures var rest := WithoutFirstLap(EnvOf(c), planned); rest != [] && rest[0].start == 90
  {
    FirstLapPlan();
    FirstLapOff(EnvOf(c), planned);
    EndOfRace(d);
    PlanConserves(d);
  }

  lemma FirstLapOff(e: Env, parts: seq<Part>)
    requires parts != [] && parts[0].Stint? && parts[0].laps != 1
    ensures WithoutFirstLap(e, parts) != [] && WithoutFirstLap(e, parts)[0].start == parts[0].start + e.avgLap
  {
  }

  // ... and planned again ten seconds later in that lap, the first stint starts at 20 instead of 30.
  lemma FirstLapMovesWithinLap(c: PredictParam)
    requires c == FirstLap && c.Valid()
    ensures Plan(c) != [] && Plan(c)[0].start == 30
    ensures var again := Plan(LaterInLap(c, 10)); again != [] && again[0].start == 20
  {
    FirstLapPlan();
    EndOfRace(LaterInLap(c, 10));
    PlanConserves(LaterInLap(c, 10));
  }

  // One lap is left in the stint, and the pit stop after it ends five seconds after the race.
  const LateStop := PredictParam(125, 3, Some(180), 4, 60, false, 3, Some(60), 10)

  // Planning again a lap later adds a lap; and that lap more is within the rules.
  lemma LateStopAddsLap()
    ensures LateStop.Valid() && Plan(LateStop) == [Stint(240, 300, 60, 1, 5, 5), Pit(300, 310, 10)]
    ensures Plan(OneLapLater(LateStop)) == [Pit(300, 310, 10), Stint(310, 370, 60, 1, 6, 6)]
    ensures !PlansMostLaps(LateStop)
  {
    var f := Env(60, 4, 10, 65, 240);
    TimesOf60();
    LateStintIsOneLap(f, 70, 6);
    LapAfterPitIsMore(LateStop);
  }
}
