/** Laws of every plan: how its parts tile time and laps, the rules its stints follow, and its closed form. */
module StintLaws {
  import opened CeilDivision
  import opened StintPlan

  // ----- measures of a list of parts -----

  function LapsOf(parts: seq<Part>): int {
    if parts == [] then 0 else (if parts[0].Stint? then parts[0].laps else 0) + LapsOf(parts[1..])
  }

  function PitsOf(parts: seq<Part>): nat {
    if parts == [] then 0 else (if parts[0].Pit? then 1 else 0) + PitsOf(parts[1..])
  }

  function TimeOf(parts: seq<Part>): int {
    if parts == [] then 0 else parts[0].duration + TimeOf(parts[1..])
  }

  function Last(parts: seq<Part>): Part
    requires parts != []
  {
    parts[|parts| - 1]
  }

  ghost predicate Alternates(parts: seq<Part>) {
    forall i :: 0 <= i < |parts| - 1 ==> parts[i].Stint? != parts[i + 1].Stint?
  }

  /** Each part starts where the one before it ends, the first one at `cur`; laps are numbered through
      from `lap`; a stint takes `avgLap` for each lap and a pit stop takes `pitTime`. */
  ghost predicate Runs(e: Env, parts: seq<Part>, cur: int, lap: int) {
    parts == [] ||
    (match parts[0]
     case Stint(_, _, duration, laps, _, _) =>
       parts[0] == e.StintPart(cur, laps, lap) && Runs(e, parts[1..], cur + duration, lap + laps)
     case Pit(_, _, duration) =>
       parts[0] == e.PitPart(cur) && Runs(e, parts[1..], cur + duration, lap))
  }

  lemma {:induction false} LapsAppend(a: seq<Part>, b: seq<Part>)
    ensures LapsOf(a + b) == LapsOf(a) + LapsOf(b)
  {
    if a == [] {
      assert a + b == b;
    } else {
      assert (a + b)[1..] == a[1..] + b;
      LapsAppend(a[1..], b);
    }
  }

  lemma {:induction false} RunsTotal(e: Env, parts: seq<Part>, cur: int, lap: int)
    requires Runs(e, parts, cur, lap)
    ensures TimeOf(parts) == Times(LapsOf(parts), e.avgLap) + Times(PitsOf(parts), e.pitTime)
    ensures parts != [] ==>
      parts[0].start == cur + e.offset && Last(parts).end == cur + e.offset + TimeOf(parts)
  {
    if parts != [] {
      var p, tail := parts[0], parts[1..];
      var laps := if p.Stint? then p.laps else 0;
      RunsTotal(e, tail, cur + p.duration, lap + laps);
      TimesAdd(laps, LapsOf(tail), e.avgLap);
      assert tail != [] ==> Last(tail) == Last(parts);
    }
  }

  lemma {:induction false} RunsTile(e: Env, parts: seq<Part>, cur: int, lap: int, i: nat)
    requires Runs(e, parts, cur, lap) && i < |parts|
    ensures parts[i].end == parts[i].start + parts[i].duration
    ensures parts[i].duration == if parts[i].Stint? then Times(parts[i].laps, e.avgLap) else e.pitTime
    ensures i + 1 < |parts| ==> parts[i + 1].start == parts[i].end
    ensures parts[i].Stint? ==>
      parts[i].lapStart == lap + LapsOf(parts[..i]) && parts[i].lapEnd == parts[i].lapStart + parts[i].laps - 1
  {
    var p, tail := parts[0], parts[1..];
    if i > 0 {
      RunsTile(e, tail, cur + p.duration, if p.Stint? then lap + p.laps else lap, i - 1);
      assert parts[..i][1..] == tail[..i - 1];
    } else if i + 1 < |parts| {
      assert parts[1] == tail[0];
    }
  }

  // ----- stints to the flag -----

  /** A rule book for driving from `cur` to the end of the race, written without reference to how the
      planner works: pit stops only between stints, only once the stint is used up, and only while the
      race is still running; the last stint reaches the end of the race, and its last lap is needed. */
  ghost predicate FollowsRules(e: Env, parts: seq<Part>, cur: int, lap: int)
    requires e.Valid()
  {
    && Runs(e, parts, cur, lap)
    && parts != [] && parts[0].Stint? && Last(parts).Stint? && Alternates(parts)
    && (forall i :: 0 <= i < |parts| - 1 && parts[i].Stint? ==>
          parts[i].laps == e.lps && parts[i].end < e.raceEnd + e.offset)
    && 1 <= Last(parts).laps <= e.lps
    && Last(parts).end >= e.raceEnd + e.offset
    && (Last(parts).laps == 1 || Last(parts).end - e.avgLap < e.raceEnd + e.offset)
  }

  // The number of laps of a last stint: one if the race time is already used up.
  lemma LastStint(e: Env, cur: int)
    requires e.Valid() && cur + e.FullStint() >= e.raceEnd
    ensures var laps := Max(1, CeilDiv(e.raceEnd - cur, e.avgLap));
      && 1 <= laps <= e.lps
      && cur + Times(laps, e.avgLap) >= e.raceEnd
      && (laps == 1 || cur + Times(laps - 1, e.avgLap) < e.raceEnd)
  {
    CeilDivWithin(e.raceEnd - cur, e.lps, e.avgLap);
    CeilDivBounds(e.raceEnd - cur, e.avgLap);
    CeilDivPositive(e.raceEnd - cur, e.avgLap);
  }

  lemma LastStintUnique(e: Env, cur: int, n: int)
    requires e.Valid() && n >= 1 && cur + Times(n, e.avgLap) >= e.raceEnd
    requires n == 1 || cur + Times(n - 1, e.avgLap) < e.raceEnd
    ensures n == Max(1, CeilDiv(e.raceEnd - cur, e.avgLap))
  {
    if n == 1 {
      CeilDivWithin(e.raceEnd - cur, 1, e.avgLap);
    } else {
      CeilDivUnique(e.raceEnd - cur, e.avgLap, n);
    }
  }

  lemma {:induction false} ToFlagRuns(e: Env, cur: int, lap: int)
    requires e.Valid()
    ensures Runs(e, ToFlag(e, cur, lap), cur, lap)
    decreases Max(0, e.raceEnd - cur)
  {
    if cur + e.FullStint() < e.raceEnd {
      FullStintTakesTime(e);
      ToFlagRuns(e, cur + e.Cycle(), lap + e.lps);
      assert ToFlag(e, cur, lap)[1..][1..] == ToFlag(e, cur + e.Cycle(), lap + e.lps);
    }
  }

  lemma {:induction false} ToFlagFollowsRules(e: Env, cur: int, lap: int)
    requires e.Valid()
    ensures FollowsRules(e, ToFlag(e, cur, lap), cur, lap)
    decreases Max(0, e.raceEnd - cur)
  {
    ToFlagRuns(e, cur, lap);
    var parts := ToFlag(e, cur, lap);
    if cur + e.FullStint() < e.raceEnd {
      FullStintTakesTime(e);
      ToFlagFollowsRules(e, cur + e.Cycle(), lap + e.lps);
      RulesPrepend(e, parts, cur, ToFlag(e, cur + e.Cycle(), lap + e.lps), cur + e.Cycle(), lap + e.lps);
    } else {
      LastStint(e, cur);
      TimesStep(parts[0].laps - 1, e.avgLap);
    }
  }

  lemma RulesPrepend(e: Env, parts: seq<Part>, cur: int, tail: seq<Part>, next: int, nextLap: int)
    requires e.Valid() && FollowsRules(e, tail, next, nextLap) && cur + e.FullStint() < e.raceEnd
    requires parts == [e.StintPart(cur, e.lps, nextLap - e.lps), e.PitPart(cur + e.FullStint())] + tail
    requires Runs(e, parts, cur, nextLap - e.lps)
    ensures FollowsRules(e, parts, cur, nextLap - e.lps)
  {
    assert Last(parts) == Last(tail);
    forall i | 0 <= i < |parts| - 1
      ensures parts[i].Stint? != parts[i + 1].Stint?
      ensures parts[i].Stint? ==> parts[i].laps == e.lps && parts[i].end < e.raceEnd + e.offset
    {
      if i >= 2 { assert parts[i] == tail[i - 2] && parts[i + 1] == tail[i - 2 + 1]; }
    }
  }

  // After a stint and its pit stop the rules hold for what is left.
  lemma RulesTail(e: Env, parts: seq<Part>, cur: int, lap: int)
    requires e.Valid() && FollowsRules(e, parts, cur, lap) && |parts| > 1
    ensures |parts| > 2 && cur + e.FullStint() < e.raceEnd
    ensures parts == [e.StintPart(cur, e.lps, lap), e.PitPart(cur + e.FullStint())] + parts[2..]
    ensures FollowsRules(e, parts[2..], cur + e.Cycle(), lap + e.lps)
  {
    var tail := parts[2..];
    assert parts[0].Stint? != parts[0 + 1].Stint?;
    assert parts[1..][0] == parts[1] && parts[1..][1..] == tail;
    assert |parts| > 2 && Last(parts) == Last(tail);
    assert parts[0] == e.StintPart(cur, e.lps, lap);
    assert Runs(e, parts[1..], cur + e.FullStint(), lap + e.lps);
    assert parts[1].Stint? != parts[1 + 1].Stint?;
    forall i | 0 <= i < |tail| - 1
      ensures tail[i].Stint? != tail[i + 1].Stint?
      ensures tail[i].Stint? ==> tail[i].laps == e.lps && tail[i].end < e.raceEnd + e.offset
    {
      assert tail[i] == parts[i + 2] && tail[i + 1] == parts[i + 2 + 1];
    }
  }

  // The rules leave no choice.
  lemma {:induction false} RulesDetermineParts(e: Env, parts: seq<Part>, cur: int, lap: int)
    requires e.Valid() && FollowsRules(e, parts, cur, lap)
    ensures parts == ToFlag(e, cur, lap)
    decreases |parts|
  {
    if |parts| == 1 {
      var laps := parts[0].laps;
      assert parts[0] == e.StintPart(cur, laps, lap);
      TimesMonotone(laps, e.lps, e.avgLap);
      TimesStep(laps - 1, e.avgLap);
      LastStintUnique(e, cur, laps);
      assert parts == [e.StintPart(cur, laps, lap)];
    } else {
      RulesTail(e, parts, cur, lap);
      RulesDetermineParts(e, parts[2..], cur + e.Cycle(), lap + e.lps);
    }
  }

  /** The planner's stints to the flag are exactly what the rules allow. */
  lemma ToFlagIsTheRules(e: Env, parts: seq<Part>, cur: int, lap: int)
    requires e.Valid()
    ensures FollowsRules(e, parts, cur, lap) <==> parts == ToFlag(e, cur, lap)
  {
    ToFlagFollowsRules(e, cur, lap);
    if FollowsRules(e, parts, cur, lap) {
      RulesDetermineParts(e, parts, cur, lap);
    }
  }

  // ----- closed form -----

  // Full stints driven when x of the race is left.
  function FullStints(e: Env, x: int): nat
    requires e.Valid()
  {
    FullStintTakesTime(e);
    Max(0, CeilDiv(x - e.FullStint(), e.Cycle()))
  }

  function LastLaps(e: Env, x: int): int
    requires e.Valid()
  {
    Max(1, CeilDiv(x - Times(FullStints(e, x), e.Cycle()), e.avgLap))
  }

  function ClosedPart(e: Env, cur: int, lap: int, i: nat): Part
    requires e.Valid()
  {
    var start, startLap := cur + Times(i / 2, e.Cycle()), lap + Times(i / 2, e.lps);
    if i == 2 * FullStints(e, e.raceEnd - cur) then e.StintPart(start, LastLaps(e, e.raceEnd - cur), startLap)
    else if i % 2 == 0 then e.StintPart(start, e.lps, startLap)
    else e.PitPart(start + e.FullStint())
  }

  lemma FullStintsStep(e: Env, x: int)
    requires e.Valid()
    ensures x <= e.FullStint() ==> FullStints(e, x) == 0
    ensures x > e.FullStint() ==> FullStints(e, x) == FullStints(e, x - e.Cycle()) + 1
    ensures x > e.FullStint() ==> LastLaps(e, x) == LastLaps(e, x - e.Cycle())
  {
    FullStintTakesTime(e);
    var m, y := e.Cycle(), x - e.FullStint();
    CeilDivStep(y - m, m);
    CeilDivPositive(y, m);
  }

  lemma ClosedPartStep(e: Env, cur: int, lap: int, i: nat)
    requires e.Valid() && cur + e.FullStint() < e.raceEnd && i >= 2
    ensures ClosedPart(e, cur, lap, i) == ClosedPart(e, cur + e.Cycle(), lap + e.lps, i - 2)
  {
    FullStintsStep(e, e.raceEnd - cur);
    assert i / 2 == (i - 2) / 2 + 1;
  }

  /** The planning loop in closed form: K full stints with their pit stops, then one last stint. */
  lemma {:induction false} ToFlagClosedForm(e: Env, cur: int, lap: int)
    requires e.Valid()
    ensures ToFlag(e, cur, lap)
         == seq(2 * FullStints(e, e.raceEnd - cur) + 1, i requires i >= 0 => ClosedPart(e, cur, lap, i))
    decreases Max(0, e.raceEnd - cur)
  {
    FullStintsStep(e, e.raceEnd - cur);
    if cur + e.FullStint() < e.raceEnd {
      FullStintTakesTime(e);
      var parts, tail := ToFlag(e, cur, lap), ToFlag(e, cur + e.Cycle(), lap + e.lps);
      ToFlagClosedForm(e, cur + e.Cycle(), lap + e.lps);
      forall i | 2 <= i < |parts| ensures parts[i] == ClosedPart(e, cur, lap, i) {
        ClosedPartStep(e, cur, lap, i);
        assert parts[i] == tail[i - 2];
      }
      assert parts[0] == ClosedPart(e, cur, lap, 0) && parts[1] == ClosedPart(e, cur, lap, 1);
    }
  }
}
