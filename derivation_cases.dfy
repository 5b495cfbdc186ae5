/**
 * Concrete cases of the decision engine: rule precedence on the shared
 * boundaries, the accident durations, the all-pairs join at one crossing
 * and the carry-forward of the light colour.
 */
module DerivationCases {
  import opened Wrappers
  import opened Models
  import opened ContextDerivation

  /** Speed 20 and acceleration 10 satisfy rules 1, 2, 4 and 5; rule 1 wins. */
  lemma BoundaryGoesToFirstRule()
    ensures RuleGuard(2, 20.0, 10.0) && RuleGuard(4, 20.0, 10.0) && RuleGuard(5, 20.0, 10.0)
    ensures Classify(20.0, 10.0) == Matched(1, Level.Low, Level.Low, Density.Medium)
  {
  }

  /** Speed 25 and acceleration 40 hit rule 6. */
  lemma MediumSpeedHighAccel()
    ensures Classify(25.0, 40.0) == Matched(6, Level.Medium, Level.High, Density.Medium)
  {
  }

  /** A negative speed is below 20, so it falls in rules 1 to 3 rather than the Error branch. */
  lemma NegativeSpeedIsSlow(accel: real)
    ensures Classify(-5.0, accel).Matched? && Classify(-5.0, accel).rule <= 3
    ensures Classify(-5.0, accel).speed == Level.Low
  {
  }

  /** Fast traffic with low or medium acceleration is free-flowing; slow with high acceleration is heavy. */
  lemma TableCorners(speed: real, accel: real)
    ensures speed > 50.0 && accel <= 35.0 ==> Classify(speed, accel).density == Density.Free
    ensures speed <= 20.0 && accel > 35.0 ==> Classify(speed, accel).density == Density.High
    ensures speed <= 20.0 && accel <= 10.0 ==> Classify(speed, accel) == Matched(1, Level.Low, Level.Low, Density.Medium)
  {
  }

  /** An entity at a crossing with the given light, density and accident flag (other fields fixed). */
  function Lane(crossing: string, lane: string, color: Color, timer: int, density: Density, accident: bool): Entity
  {
    Entity(Light(color, timer),
           Crossing(crossing, lane, "08:00", 0.0, 0.0, Some(Level.Low), Some(Level.Low), density, accident))
  }

  /** An accident under GREEN with 45 seconds on the timer blinks yellow for 15 seconds. */
  lemma GreenAccidentDuration()
    ensures ScenarioFor(Lane("C1", "L-1", Green, 45, Density.Low, true)).Some?
    ensures ScenarioFor(Lane("C1", "L-1", Green, 45, Density.Low, true)).value.duration == 15
    ensures ScenarioFor(Lane("C1", "L-1", Green, 45, Density.Low, true)).value.action == BlinkingYellow
  {
  }

  /** Under RED the duration is 60 whatever the timer, under YELLOW there is no scenario. */
  lemma RedAndYellowAccidents(timer: int)
    ensures ScenarioFor(Lane("C1", "L-1", Red, timer, Density.Low, true)).value.duration == 60
    ensures ScenarioFor(Lane("C1", "L-1", Yellow, timer, Density.Low, true)) == None
  {
  }

  /** With 2 green low-density and 3 red high-density lanes at crossing C1 the join has 6 actions. */
  lemma TwoByThreeJoin()
    ensures |Join(GreenLowLanes(JoinExample()), RedHighLanes(JoinExample()))| == 6
  {
    var es := JoinExample();
    var greens := GreenLowLanes(es);
    var reds := RedHighLanes(es);
    forall l | l in greens ensures l.crossingId == "C1" {
      GreenLowLanesMembership(es, l);
    }
    forall l | l in reds ensures l.crossingId == "C1" {
      RedHighLanesMembership(es, l);
    }
    assert |greens| == 2 && |reds| == 3 by {
      assert es[..1][..0] == [] && es[..2][..1] == es[..1] && es[..3][..2] == es[..2];
      assert es[..4][..3] == es[..3] && es[..|es| - 1] == es[..4];
      assert |GreenLowLanes(es[..1])| == 1 && |RedHighLanes(es[..1])| == 0;
      assert |GreenLowLanes(es[..2])| == 1 && |RedHighLanes(es[..2])| == 1;
      assert |GreenLowLanes(es[..3])| == 2 && |RedHighLanes(es[..3])| == 1;
      assert |GreenLowLanes(es[..4])| == 2 && |RedHighLanes(es[..4])| == 2;
    }
    JoinSameCrossingCount(greens, reds, "C1");
  }

  /** Two green low-density and three red high-density lanes, all at crossing C1, interleaved. */
  function JoinExample(): seq<Entity>
  {
    [Lane("C1", "A", Green, 10, Density.Low, false),
     Lane("C1", "B", Red, 10, Density.High, false),
     Lane("C1", "C", Green, 20, Density.Free, false),
     Lane("C1", "D", Red, 30, Density.High, false),
     Lane("C1", "E", Red, 40, Density.High, false)]
  }

  /** A row at crossing C1 whose only varying column is the light status code. */
  function Reading(code: string): Row
  {
    Row("C1", "A", "08:00", 30.0, 5.0, code, 12, 0)
  }

  /** Codes L1, an unknown one, then L3 resolve to RED, RED, GREEN. */
  lemma CarryForwardSequence()
    ensures ColorAfter([Reading("L1")]) == Red
    ensures ColorAfter([Reading("L1"), Reading("X9")]) == Red
    ensures ColorAfter([Reading("L1"), Reading("X9"), Reading("L3")]) == Green
  {
    var rows := [Reading("L1"), Reading("X9"), Reading("L3")];
    assert rows[..2] == [Reading("L1"), Reading("X9")];
    assert rows[..2][..1] == [Reading("L1")];
  }
}
