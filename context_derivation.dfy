/**
 * The decision engine: it derives one {Light, Crossing} entity per sensor
 * row (light colour with carry-forward, nine ordered threshold rules,
 * accident flag), turns entities into accident-response scenarios, and
 * pairs green low-density lanes with red high-density lanes of the same
 * crossing.
 */
module ContextDerivation {
  import opened Wrappers
  import opened Models

  /** One input row, with the columns the engine reads. */
  datatype Row = Row(
    crossingId: string,
    laneId: string,
    time: string,
    averageSpeed: real,
    averageAcceleration: real,
    lightStatus: string,
    timer: int,
    incidents: int)

  // ---------------------------------------------------------------------
  // Light colour: lookup with carry-forward
  // ---------------------------------------------------------------------

  /** The colour a status code names, if it is one of the three known codes. */
  function CodeColor(code: string): Option<Color>
  {
    if code == "L1" then Some(Red)
    else if code == "L2" then Some(Yellow)
    else if code == "L3" then Some(Green)
    else None
  }

  /**
   * The colour in force once `rows` have been processed: each row with a
   * known code sets it, any other row keeps it, and it starts as Red.
   */
  function ColorAfter(rows: seq<Row>): Color
  {
    if rows == [] then Red
    else match CodeColor(rows[|rows| - 1].lightStatus)
      case Some(c) => c
      case None => ColorAfter(rows[..|rows| - 1])
  }

  /** The mapping of the three known codes. */
  lemma KnownCodes()
    ensures CodeColor("L1") == Some(Red)
    ensures CodeColor("L2") == Some(Yellow)
    ensures CodeColor("L3") == Some(Green)
    ensures forall code :: CodeColor(code).None? <==> code != "L1" && code != "L2" && code != "L3"
  {
  }

  /** One more row: a known code overrides, an unknown one carries the colour forward. */
  lemma ColorAfterStep(rows: seq<Row>, row: Row)
    ensures CodeColor(row.lightStatus).Some? ==> ColorAfter(rows + [row]) == CodeColor(row.lightStatus).value
    ensures CodeColor(row.lightStatus).None? ==> ColorAfter(rows + [row]) == ColorAfter(rows)
  {
    assert (rows + [row])[..|rows|] == rows;
  }

  /** With no known code among the rows, the colour is still the initial Red. */
  lemma {:induction false} ColorAfterNoKnownCode(rows: seq<Row>)
    requires forall k :: 0 <= k < |rows| ==> CodeColor(rows[k].lightStatus).None?
    ensures ColorAfter(rows) == Red
  {
    if rows != [] {
      var init := rows[..|rows| - 1];
      assert forall k :: 0 <= k < |init| ==> init[k] == rows[k];
      ColorAfterNoKnownCode(init);
    }
  }

  /** Otherwise the colour is the one named by the last row with a known code. */
  lemma {:induction false} ColorAfterLastKnownCode(rows: seq<Row>, j: nat)
    requires j < |rows| && CodeColor(rows[j].lightStatus).Some?
    requires forall k :: j < k < |rows| ==> CodeColor(rows[k].lightStatus).None?
    ensures ColorAfter(rows) == CodeColor(rows[j].lightStatus).value
  {
    if j < |rows| - 1 {
      var init := rows[..|rows| - 1];
      assert forall k :: 0 <= k < |init| ==> init[k] == rows[k];
      ColorAfterLastKnownCode(init, j);
    }
  }

  // ---------------------------------------------------------------------
  // Density classifier: nine ordered threshold rules
  // ---------------------------------------------------------------------

  /** Outcome of the threshold rules: the first rule that matched, or none. */
  datatype Classification =
    | Matched(rule: nat, speed: Level, accel: Level, density: Density)
    | NoRuleMatched

  /** The guard of rule k (1 to 9), as declared. */
  predicate RuleGuard(k: nat, speed: real, accel: real)
  {
    match k
    case 1 => speed <= 20.0 && accel <= 10.0
    case 2 => speed <= 20.0 && accel >= 10.0 && accel <= 35.0
    case 3 => speed <= 20.0 && accel > 35.0
    case 4 => speed >= 20.0 && speed <= 50.0 && accel <= 10.0
    case 5 => speed >= 20.0 && speed <= 50.0 && accel >= 10.0 && accel <= 35.0
    case 6 => speed >= 20.0 && speed <= 50.0 && accel > 35.0
    case 7 => speed > 50.0 && accel <= 10.0
    case 8 => speed > 50.0 && accel >= 10.0 && accel <= 35.0
    case 9 => speed > 50.0 && accel > 35.0
    case _ => false
  }

  /** The labels and density that rule k assigns. */
  function RuleOutcome(k: nat): (Level, Level, Density)
    requires 1 <= k <= 9
  {
    match k
    case 1 => (Level.Low, Level.Low, Density.Medium)
    case 2 => (Level.Low, Level.Medium, Density.Medium)
    case 3 => (Level.Low, Level.High, Density.High)
    case 4 => (Level.Medium, Level.Low, Density.Low)
    case 5 => (Level.Medium, Level.Medium, Density.Low)
    case 6 => (Level.Medium, Level.High, Density.Medium)
    case 7 => (Level.High, Level.Low, Density.Free)
    case 8 => (Level.High, Level.Medium, Density.Free)
    case 9 => (Level.High, Level.High, Density.Low)
  }

  /**
   * The if/elif chain over (average speed, average acceleration).  Its
   * result is the outcome of the FIRST rule whose guard holds.
   */
  function Classify(speed: real, accel: real): (r: Classification)
    ensures r.Matched? ==> 1 <= r.rule <= 9 && RuleGuard(r.rule, speed, accel)
    ensures r.Matched? ==> forall j: nat :: 1 <= j < r.rule ==> !RuleGuard(j, speed, accel)
    ensures r.Matched? ==> (r.speed, r.accel, r.density) == RuleOutcome(r.rule)
    ensures r.NoRuleMatched? ==> forall j: nat :: 1 <= j <= 9 ==> !RuleGuard(j, speed, accel)
  {
    if speed <= 20.0 && accel <= 10.0 then
      Matched(1, Level.Low, Level.Low, Density.Medium)
    else if speed <= 20.0 && accel >= 10.0 && accel <= 35.0 then
      Matched(2, Level.Low, Level.Medium, Density.Medium)
    else if speed <= 20.0 && accel > 35.0 then
      Matched(3, Level.Low, Level.High, Density.High)
    else if speed >= 20.0 && speed <= 50.0 && accel <= 10.0 then
      Matched(4, Level.Medium, Level.Low, Density.Low)
    else if speed >= 20.0 && speed <= 50.0 && accel >= 10.0 && accel <= 35.0 then
      Matched(5, Level.Medium, Level.Medium, Density.Low)
    else if speed >= 20.0 && speed <= 50.0 && accel > 35.0 then
      Matched(6, Level.Medium, Level.High, Density.Medium)
    else if speed > 50.0 && accel <= 10.0 then
      Matched(7, Level.High, Level.Low, Density.Free)
    else if speed > 50.0 && accel >= 10.0 && accel <= 35.0 then
      Matched(8, Level.High, Level.Medium, Density.Free)
    else if speed > 50.0 && accel > 35.0 then
      Matched(9, Level.High, Level.High, Density.Low)
    else
      NoRuleMatched
  }

  /** The speed band a value falls in once overlapping boundaries go to the lower band. */
  function SpeedBand(speed: real): Level
  {
    if speed <= 20.0 then Level.Low else if speed <= 50.0 then Level.Medium else Level.High
  }

  /** The acceleration band, boundaries likewise to the lower band. */
  function AccelBand(accel: real): Level
  {
    if accel <= 10.0 then Level.Low else if accel <= 35.0 then Level.Medium else Level.High
  }

  /** The fuzzy rule table: traffic density as a function of the two labels. */
  function DensityTable(speed: Level, accel: Level): Density
  {
    match (speed, accel)
    case (Low, Low) => Density.Medium
    case (Low, Medium) => Density.Medium
    case (Low, High) => Density.High
    case (Medium, Low) => Density.Low
    case (Medium, Medium) => Density.Low
    case (Medium, High) => Density.Medium
    case (High, Low) => Density.Free
    case (High, Medium) => Density.Free
    case (High, High) => Density.Low
  }

  /**
   * Every real pair matches a rule, so the Error branch is never taken; the
   * labels are the bands of the two values and the density is the table's.
   */
  lemma ClassifyTotal(speed: real, accel: real)
    ensures Classify(speed, accel).Matched?
    ensures Classify(speed, accel).speed == SpeedBand(speed)
    ensures Classify(speed, accel).accel == AccelBand(accel)
    ensures Classify(speed, accel).density == DensityTable(SpeedBand(speed), AccelBand(accel))
  {
  }

  /** Each rule's density is the table entry for the labels it assigns. */
  lemma RuleOutcomesFollowTable(k: nat)
    requires 1 <= k <= 9
    ensures RuleOutcome(k).2 == DensityTable(RuleOutcome(k).0, RuleOutcome(k).1)
  {
  }

  // ---------------------------------------------------------------------
  // derive_context
  // ---------------------------------------------------------------------

  /**
   * The crossing fields copied from the row, unchanged, and the accident
   * flag: set exactly when the incident counter is non-zero.
   */
  predicate CopiesRow(c: Crossing, row: Row)
  {
    c.crossingId == row.crossingId && c.laneId == row.laneId && c.time == row.time &&
    c.avgSpeed == row.averageSpeed && c.avgAcc == row.averageAcceleration &&
    c.accident == (row.incidents != 0)
  }

  /**
   * Labels and density of a crossing given its row's classification and the
   * labels left by the previous row: a matched rule sets all three; no match
   * sets only the density, to Error, and keeps the previous labels.
   */
  predicate ClassifiedAs(c: Crossing, cls: Classification, prevSpeed: Option<Level>, prevAcc: Option<Level>)
  {
    match cls
    case Matched(_, sp, ac, d) => c.textSpeed == Some(sp) && c.textAcc == Some(ac) && c.density == d
    case NoRuleMatched => c.textSpeed == prevSpeed && c.textAcc == prevAcc && c.density == Density.Error
  }

  /** The colour left by the first k entities (Red before the first). */
  function PrevColor(es: seq<Entity>, k: nat): Color
    requires k <= |es|
  {
    if k == 0 then Red else es[k - 1].light.color
  }

  /** The speed label left by the first k entities (unassigned before the first). */
  function PrevSpeedLabel(es: seq<Entity>, k: nat): Option<Level>
    requires k <= |es|
  {
    if k == 0 then None else es[k - 1].crossing.textSpeed
  }

  /** The acceleration label left by the first k entities. */
  function PrevAccelLabel(es: seq<Entity>, k: nat): Option<Level>
    requires k <= |es|
  {
    if k == 0 then None else es[k - 1].crossing.textAcc
  }

  /**
   * Entity k is what the loop builds from row k: its light is the colour in
   * force after rows 0..k with row k's timer verbatim, and that colour is
   * the one row k's code names or, for an unknown code, the colour of entity
   * k - 1 (Red for the first); its crossing copies row k, flags an accident
   * iff the counter is non-zero, and takes labels and density from the first
   * matching rule, or Error with the labels of entity k - 1 if none matches.
   */
  predicate DerivedAt(rows: seq<Row>, es: seq<Entity>, k: nat)
    requires k < |rows| && k < |es|
  {
    es[k].light == Light(ColorAfter(rows[..k + 1]), rows[k].timer) &&
    es[k].light.color == (match CodeColor(rows[k].lightStatus)
                          case Some(c) => c
                          case None => PrevColor(es, k)) &&
    CopiesRow(es[k].crossing, rows[k]) &&
    ClassifiedAs(es[k].crossing, Classify(rows[k].averageSpeed, rows[k].averageAcceleration),
                 PrevSpeedLabel(es, k), PrevAccelLabel(es, k))
  }

  /** One entity per row, in row order, each as DerivedAt describes. */
  method DeriveContext(rows: seq<Row>) returns (entities: seq<Entity>)
    ensures |entities| == |rows|
    ensures forall i :: 0 <= i < |rows| ==> DerivedAt(rows, entities, i)
  {
    entities := [];
    var lightColor := Red;
    var avgSpeed: Option<Level> := None;
    var avgAcc: Option<Level> := None;
    for i := 0 to |rows|
      invariant |entities| == i
      invariant lightColor == ColorAfter(rows[..i]) == PrevColor(entities, i)
      invariant avgSpeed == PrevSpeedLabel(entities, i) && avgAcc == PrevAccelLabel(entities, i)
      invariant forall k :: 0 <= k < i ==> DerivedAt(rows, entities, k)
    {
      var row := rows[i];
      if row.lightStatus == "L1" {
        lightColor := Red;
      } else if row.lightStatus == "L2" {
        lightColor := Yellow;
      } else if row.lightStatus == "L3" {
        lightColor := Green;
      }
      var lightItem := Light(lightColor, row.timer);

      var density: Density;
      match Classify(row.averageSpeed, row.averageAcceleration) {
        case Matched(_, sp, ac, d) =>
          avgSpeed, avgAcc, density := Some(sp), Some(ac), d;
        case NoRuleMatched =>
          density := Density.Error;
      }

      var accident := row.incidents != 0;
      var crossingItem := Crossing(row.crossingId, row.laneId, row.time,
                                   row.averageSpeed, row.averageAcceleration,
                                   avgSpeed, avgAcc, density, accident);
      assert rows[..i + 1] == rows[..i] + [row];
      ColorAfterStep(rows[..i], row);
      DerivedAtExtend(rows, entities, Entity(lightItem, crossingItem));
      entities := entities + [Entity(lightItem, crossingItem)];
      assert DerivedAt(rows, entities, i);
    }
  }

  /**
   * Since every real pair matches a rule, no derived entity carries the
   * Error density or an unassigned label: its labels are the bands of the
   * row's values and its density is the table's entry for them.
   */
  lemma DerivedNeverError(rows: seq<Row>, es: seq<Entity>, i: nat)
    requires |es| == |rows| && i < |rows|
    requires forall k :: 0 <= k < |rows| ==> DerivedAt(rows, es, k)
    ensures es[i].crossing.textSpeed == Some(SpeedBand(rows[i].averageSpeed))
    ensures es[i].crossing.textAcc == Some(AccelBand(rows[i].averageAcceleration))
    ensures es[i].crossing.density ==
      DensityTable(SpeedBand(rows[i].averageSpeed), AccelBand(rows[i].averageAcceleration))
    ensures es[i].crossing.density != Density.Error
  {
    assert DerivedAt(rows, es, i);
    ClassifyTotal(rows[i].averageSpeed, rows[i].averageAcceleration);
  }

  /** Appending an entity leaves what the earlier entities say unchanged. */
  lemma DerivedAtExtend(rows: seq<Row>, es: seq<Entity>, e: Entity)
    requires |es| <= |rows|
    requires forall k :: 0 <= k < |es| ==> DerivedAt(rows, es, k)
    ensures forall k :: 0 <= k < |es| ==> DerivedAt(rows, es + [e], k)
  {
    forall k | 0 <= k < |es|
      ensures DerivedAt(rows, es + [e], k)
    {
      assert DerivedAt(rows, es, k);
      assert (es + [e])[k] == es[k];
      assert PrevColor(es + [e], k) == PrevColor(es, k);
      assert PrevSpeedLabel(es + [e], k) == PrevSpeedLabel(es, k);
      assert PrevAccelLabel(es + [e], k) == PrevAccelLabel(es, k);
    }
  }

  // ---------------------------------------------------------------------
  // handle_accidents
  // ---------------------------------------------------------------------

  /** The response an accident scenario recommends to the light controller. */
  datatype Response = BlinkingYellow | MaintainRedThenBlinkingYellow

  /** An advisory accident scenario for one entity. */
  datatype Scenario = Scenario(
    crossingId: string,
    laneId: string,
    time: string,
    timer: int,
    lightStatus: Color,
    action: Response,
    duration: int)

  /**
   * The scenario for one entity: an accident under GREEN asks for blinking
   * yellow for the rest of a 60-second cycle (60 minus the timer, not
   * clamped); under RED it asks to hold RED for 60 seconds first; under
   * YELLOW, or without an accident, there is none.
   */
  function ScenarioFor(e: Entity): (r: Option<Scenario>)
    ensures r.Some? <==> e.crossing.accident && (e.light.color == Green || e.light.color == Red)
    ensures r.Some? ==>
      r.value.crossingId == e.crossing.crossingId && r.value.laneId == e.crossing.laneId &&
      r.value.time == e.crossing.time && r.value.timer == e.light.timer &&
      r.value.lightStatus == e.light.color
    ensures r.Some? && e.light.color == Green ==>
      r.value.action == BlinkingYellow && r.value.duration == 60 - e.light.timer
    ensures r.Some? && e.light.color == Red ==>
      r.value.action == MaintainRedThenBlinkingYellow && r.value.duration == 60
  {
    if e.crossing.accident && e.light.color == Green then
      Some(Scenario(e.crossing.crossingId, e.crossing.laneId, e.crossing.time,
                    e.light.timer, e.light.color, BlinkingYellow, 60 - e.light.timer))
    else if e.crossing.accident && e.light.color == Red then
      Some(Scenario(e.crossing.crossingId, e.crossing.laneId, e.crossing.time,
                    e.light.timer, e.light.color, MaintainRedThenBlinkingYellow, 60))
    else
      None
  }

  function OptionToSeq<T>(o: Option<T>): seq<T>
  {
    match o
    case Some(x) => [x]
    case None => []
  }

  /** The scenarios of the entities, in entity order. */
  function AccidentScenarios(es: seq<Entity>): seq<Scenario>
  {
    if es == [] then []
    else AccidentScenarios(es[..|es| - 1]) + OptionToSeq(ScenarioFor(es[|es| - 1]))
  }

  /** The scenarios of a concatenation are those of each part, in order. */
  lemma {:induction false} AccidentScenariosAppend(a: seq<Entity>, b: seq<Entity>)
    ensures AccidentScenarios(a + b) == AccidentScenarios(a) + AccidentScenarios(b)
  {
    if b != [] {
      var b' := b[..|b| - 1];
      assert (a + b)[..|a + b| - 1] == a + b';
      AccidentScenariosAppend(a, b');
    } else {
      assert a + b == a;
    }
  }

  /** Positions of the entities that have an accident under GREEN or RED. */
  function AccidentIndices(es: seq<Entity>): set<int>
  {
    set i | 0 <= i < |es| && es[i].crossing.accident && (es[i].light.color == Green || es[i].light.color == Red)
  }

  /**
   * Exactly one scenario per entity with an accident under GREEN or RED, so
   * never more scenarios than entities.
   */
  lemma {:induction false} AccidentScenariosCount(es: seq<Entity>)
    ensures |AccidentScenarios(es)| == |AccidentIndices(es)|
    ensures |AccidentScenarios(es)| <= |es|
  {
    if es == [] {
      assert AccidentIndices(es) == {};
    } else {
      var n := |es| - 1;
      var init := es[..n];
      AccidentScenariosCount(init);
      assert forall i :: 0 <= i < n ==> init[i] == es[i];
      if es[n].crossing.accident && (es[n].light.color == Green || es[n].light.color == Red) {
        assert AccidentIndices(es) == AccidentIndices(init) + {n};
      } else {
        assert AccidentIndices(es) == AccidentIndices(init);
      }
    }
  }

  /** A scenario is produced exactly when some entity's rule yields it. */
  lemma {:induction false} AccidentScenariosMembership(es: seq<Entity>, s: Scenario)
    ensures s in AccidentScenarios(es) <==> exists i :: 0 <= i < |es| && ScenarioFor(es[i]) == Some(s)
  {
    if es != [] {
      var init := es[..|es| - 1];
      AccidentScenariosMembership(init, s);
      assert forall i :: 0 <= i < |init| ==> init[i] == es[i];
      if s in AccidentScenarios(es) && s !in AccidentScenarios(init) {
        assert ScenarioFor(es[|es| - 1]) == Some(s);
      }
    }
  }

  /**
   * One scenario per entity whose rule yields one, in entity order; the
   * entities themselves are values and are not changed.
   */
  method HandleAccidents(entities: seq<Entity>) returns (scenarios: seq<Scenario>)
    ensures scenarios == AccidentScenarios(entities)
    ensures |scenarios| == |AccidentIndices(entities)| <= |entities|
  {
    scenarios := [];
    for i := 0 to |entities|
      invariant scenarios == AccidentScenarios(entities[..i])
    {
      var entity := entities[i];
      assert entities[..i + 1][..i] == entities[..i];
      if entity.crossing.accident && entity.light.color == Green {
        var scenario := Scenario(entity.crossing.crossingId, entity.crossing.laneId, entity.crossing.time,
                                 entity.light.timer, entity.light.color, BlinkingYellow, 60 - entity.light.timer);
        scenarios := scenarios + [scenario];
      } else if entity.crossing.accident && entity.light.color == Red {
        var scenario := Scenario(entity.crossing.crossingId, entity.crossing.laneId, entity.crossing.time,
                                 entity.light.timer, entity.light.color, MaintainRedThenBlinkingYellow, 60);
        scenarios := scenarios + [scenario];
      }
    }
    assert entities[..|entities|] == entities;
    AccidentScenariosCount(entities);
  }

  // ---------------------------------------------------------------------
  // optimize_traffic_flow
  // ---------------------------------------------------------------------

  /** The summary kept of a lane selected for the join. */
  datatype LaneRef = LaneRef(crossingId: string, laneId: string, density: Density, time: string, lightColor: Color)

  /**
   * A recommendation to move GREEN from one lane to another of the same
   * crossing; the two densities are what its message reports.
   */
  datatype FlowAction = FlowAction(
    crossingId: string,
    fromLane: string,
    toLane: string,
    fromDensity: Density,
    toDensity: Density,
    time: string)

  /** A lane showing GREEN with LOW or FREE density. */
  predicate IsGreenLow(e: Entity)
  {
    e.light.color == Green && (e.crossing.density == Density.Low || e.crossing.density == Density.Free)
  }

  /** A lane showing RED with HIGH density. */
  predicate IsRedHigh(e: Entity)
  {
    e.light.color == Red && e.crossing.density == Density.High
  }

  /** The lane summary the optimiser keeps for an entity. */
  function LaneOf(e: Entity): LaneRef
  {
    LaneRef(e.crossing.crossingId, e.crossing.laneId, e.crossing.density, e.crossing.time, e.light.color)
  }

  /** Green low-density lanes among the entities, in entity order. */
  function GreenLowLanes(es: seq<Entity>): seq<LaneRef>
  {
    if es == [] then []
    else GreenLowLanes(es[..|es| - 1]) + (if IsGreenLow(es[|es| - 1]) then [LaneOf(es[|es| - 1])] else [])
  }

  /** Red high-density lanes among the entities, in entity order. */
  function RedHighLanes(es: seq<Entity>): seq<LaneRef>
  {
    if es == [] then []
    else RedHighLanes(es[..|es| - 1]) + (if IsRedHigh(es[|es| - 1]) then [LaneOf(es[|es| - 1])] else [])
  }

  /** The action for a (green, red) pair: from the green lane to the red one, at the green lane's time. */
  function SwitchAction(g: LaneRef, r: LaneRef): FlowAction
  {
    FlowAction(g.crossingId, g.laneId, r.laneId, g.density, r.density, g.time)
  }

  /** Actions from one green lane to every red lane of its crossing, in red-lane order. */
  function Matches(g: LaneRef, reds: seq<LaneRef>): seq<FlowAction>
  {
    if reds == [] then []
    else Matches(g, reds[..|reds| - 1]) +
         (if g.crossingId == reds[|reds| - 1].crossingId then [SwitchAction(g, reds[|reds| - 1])] else [])
  }

  /** The all-pairs join per crossing: green-major, then red, both in list order. */
  function Join(greens: seq<LaneRef>, reds: seq<LaneRef>): seq<FlowAction>
  {
    if greens == [] then []
    else Join(greens[..|greens| - 1], reds) + Matches(greens[|greens| - 1], reds)
  }

  /** Which lanes are selected: exactly the green low-density entities. */
  lemma {:induction false} GreenLowLanesMembership(es: seq<Entity>, l: LaneRef)
    ensures l in GreenLowLanes(es) <==> exists i :: 0 <= i < |es| && IsGreenLow(es[i]) && l == LaneOf(es[i])
  {
    if es != [] {
      var init := es[..|es| - 1];
      GreenLowLanesMembership(init, l);
      assert forall i :: 0 <= i < |init| ==> init[i] == es[i];
    }
  }

  /** Which lanes are selected: exactly the red high-density entities. */
  lemma {:induction false} RedHighLanesMembership(es: seq<Entity>, l: LaneRef)
    ensures l in RedHighLanes(es) <==> exists i :: 0 <= i < |es| && IsRedHigh(es[i]) && l == LaneOf(es[i])
  {
    if es != [] {
      var init := es[..|es| - 1];
      RedHighLanesMembership(init, l);
      assert forall i :: 0 <= i < |init| ==> init[i] == es[i];
    }
  }

  /** Selecting lanes preserves entity order: the lanes of a concatenation are those of each part. */
  lemma {:induction false} LanesAppend(a: seq<Entity>, b: seq<Entity>)
    ensures GreenLowLanes(a + b) == GreenLowLanes(a) + GreenLowLanes(b)
    ensures RedHighLanes(a + b) == RedHighLanes(a) + RedHighLanes(b)
  {
    if b != [] {
      var b' := b[..|b| - 1];
      assert (a + b)[..|a + b| - 1] == a + b';
      LanesAppend(a, b');
    } else {
      assert a + b == a;
    }
  }

  /** Red lanes appended later produce actions later. */
  lemma {:induction false} MatchesAppend(g: LaneRef, a: seq<LaneRef>, b: seq<LaneRef>)
    ensures Matches(g, a + b) == Matches(g, a) + Matches(g, b)
  {
    if b != [] {
      var b' := b[..|b| - 1];
      assert (a + b)[..|a + b| - 1] == a + b';
      MatchesAppend(g, a, b');
    } else {
      assert a + b == a;
    }
  }

  /** Green lanes appended later produce actions later (green-major order). */
  lemma {:induction false} JoinAppend(a: seq<LaneRef>, b: seq<LaneRef>, reds: seq<LaneRef>)
    ensures Join(a + b, reds) == Join(a, reds) + Join(b, reds)
  {
    if b != [] {
      var b' := b[..|b| - 1];
      assert (a + b)[..|a + b| - 1] == a + b';
      JoinAppend(a, b', reds);
    } else {
      assert a + b == a;
    }
  }

  /** An action is produced exactly for a (green, red) pair sharing a crossing. */
  lemma {:induction false} MatchesMembership(g: LaneRef, reds: seq<LaneRef>, act: FlowAction)
    ensures act in Matches(g, reds) <==>
      exists j :: 0 <= j < |reds| && g.crossingId == reds[j].crossingId && act == SwitchAction(g, reds[j])
  {
    if reds != [] {
      var init := reds[..|reds| - 1];
      MatchesMembership(g, init, act);
      assert forall j :: 0 <= j < |init| ==> init[j] == reds[j];
    }
  }

  /** An action is in the join exactly when it is the action of some matching pair. */
  lemma {:induction false} JoinMembership(greens: seq<LaneRef>, reds: seq<LaneRef>, act: FlowAction)
    ensures act in Join(greens, reds) <==>
      exists i, j :: 0 <= i < |greens| && 0 <= j < |reds| &&
        greens[i].crossingId == reds[j].crossingId && act == SwitchAction(greens[i], reds[j])
  {
    if greens != [] {
      var init := greens[..|greens| - 1];
      var last := greens[|greens| - 1];
      JoinMembership(init, reds, act);
      MatchesMembership(last, reds, act);
      assert forall i :: 0 <= i < |init| ==> init[i] == greens[i];
      if act in Join(greens, reds) && act !in Join(init, reds) {
        var j :| 0 <= j < |reds| && last.crossingId == reds[j].crossingId && act == SwitchAction(last, reds[j]);
        assert greens[|greens| - 1] == last;
      }
    }
  }

  /** Against red lanes all of its crossing, a green lane yields one action per red lane. */
  lemma {:induction false} MatchesSameCrossingCount(g: LaneRef, reds: seq<LaneRef>)
    requires forall j :: 0 <= j < |reds| ==> reds[j].crossingId == g.crossingId
    ensures |Matches(g, reds)| == |reds|
  {
    if reds != [] {
      var init := reds[..|reds| - 1];
      assert forall j :: 0 <= j < |init| ==> init[j] == reds[j];
      MatchesSameCrossingCount(g, init);
    }
  }

  /** n green and m red lanes at one crossing yield n * m actions (no one-to-one pairing). */
  lemma {:induction false} JoinSameCrossingCount(greens: seq<LaneRef>, reds: seq<LaneRef>, c: string)
    requires forall i :: 0 <= i < |greens| ==> greens[i].crossingId == c
    requires forall j :: 0 <= j < |reds| ==> reds[j].crossingId == c
    ensures |Join(greens, reds)| == |greens| * |reds|
  {
    if greens != [] {
      var init := greens[..|greens| - 1];
      assert forall i :: 0 <= i < |init| ==> init[i] == greens[i];
      JoinSameCrossingCount(init, reds, c);
      MatchesSameCrossingCount(greens[|greens| - 1], reds);
      assert |greens| * |reds| == |init| * |reds| + |reds|;
    }
  }

  /** Lanes at distinct crossings are never paired. */
  lemma {:induction false} JoinOtherCrossingsEmpty(greens: seq<LaneRef>, reds: seq<LaneRef>)
    requires forall i, j :: 0 <= i < |greens| && 0 <= j < |reds| ==> greens[i].crossingId != reds[j].crossingId
    ensures Join(greens, reds) == []
  {
    if Join(greens, reds) != [] {
      var act := Join(greens, reds)[0];
      JoinMembership(greens, reds, act);
    }
  }

  /** Positions of the green low-density entities at crossing c. */
  function GreenLowAt(es: seq<Entity>, c: string): set<int>
  {
    set i | 0 <= i < |es| && IsGreenLow(es[i]) && es[i].crossing.crossingId == c
  }

  /** Positions of the red high-density entities at crossing c. */
  function RedHighAt(es: seq<Entity>, c: string): set<int>
  {
    set j | 0 <= j < |es| && IsRedHigh(es[j]) && es[j].crossing.crossingId == c
  }

  /** The (green low-density, red high-density) entity pairs that share a crossing. */
  function SharedCrossingPairs(es: seq<Entity>): set<(int, int)>
  {
    set i, j | 0 <= i < |es| && 0 <= j < |es| && IsGreenLow(es[i]) && IsRedHigh(es[j]) &&
                   es[i].crossing.crossingId == es[j].crossing.crossingId :: (i, j)
  }

  /** Pairing every element of a set of indices below n with one fixed value keeps its size. */
  lemma {:induction false} PairedWithCard(s: set<int>, c: int, n: nat)
    requires forall x :: x in s ==> 0 <= x < n
    ensures |set j | j in s :: (c, j)| == |s|
    ensures |set j | j in s :: (j, c)| == |s|
  {
    if n == 0 {
      assert forall x :: x !in s;
      assert s == {};
      assert (set j | j in s :: (c, j)) == {};
      assert (set j | j in s :: (j, c)) == {};
    } else {
      var s' := s - {n - 1};
      PairedWithCard(s', c, n - 1);
      if n - 1 in s {
        assert s == s' + {n - 1};
        assert (set j | j in s :: (c, j)) == (set j | j in s' :: (c, j)) + {(c, n - 1)};
        assert (set j | j in s :: (j, c)) == (set j | j in s' :: (j, c)) + {(n - 1, c)};
      } else {
        assert s == s';
      }
    }
  }

  /** The red high-density positions at crossing c grow by the last entity iff it is one. */
  lemma RedHighAtStep(es: seq<Entity>, c: string)
    requires es != []
    ensures var n := |es| - 1;
      RedHighAt(es, c) ==
        RedHighAt(es[..n], c) + (if IsRedHigh(es[n]) && es[n].crossing.crossingId == c then {n} else {})
  {
    var init := es[..|es| - 1];
    assert forall i :: 0 <= i < |init| ==> init[i] == es[i];
  }

  /** A green lane meets one red lane per red high-density entity of its crossing. */
  lemma {:induction false} MatchesRedCount(g: LaneRef, es: seq<Entity>)
    ensures |Matches(g, RedHighLanes(es))| == |RedHighAt(es, g.crossingId)|
  {
    var c := g.crossingId;
    if es == [] {
      assert RedHighAt(es, c) == {};
    } else {
      var n := |es| - 1;
      var init := es[..n];
      MatchesRedCount(g, init);
      RedHighAtStep(es, c);
      var reds := RedHighLanes(init);
      if IsRedHigh(es[n]) {
        assert RedHighLanes(es) == reds + [LaneOf(es[n])];
        MatchesExtraRed(g, reds, LaneOf(es[n]));
      } else {
        assert RedHighLanes(es) == reds;
      }
    }
  }

  /** One more red lane adds one action to a green lane's matches iff it shares the crossing. */
  lemma MatchesExtraRed(g: LaneRef, reds: seq<LaneRef>, r: LaneRef)
    ensures |Matches(g, reds + [r])| == |Matches(g, reds)| + (if g.crossingId == r.crossingId then 1 else 0)
  {
    assert (reds + [r])[..|reds|] == reds;
  }

  /** One more green lane appends its matches. */
  lemma JoinExtraGreen(greens: seq<LaneRef>, g: LaneRef, reds: seq<LaneRef>)
    ensures Join(greens + [g], reds) == Join(greens, reds) + Matches(g, reds)
  {
    assert (greens + [g])[..|greens|] == greens;
  }

  /** The green low-density positions at crossing c grow by the last entity iff it is one. */
  lemma GreenLowAtStep(es: seq<Entity>, c: string)
    requires es != []
    ensures var n := |es| - 1;
      GreenLowAt(es, c) ==
        GreenLowAt(es[..n], c) + (if IsGreenLow(es[n]) && es[n].crossing.crossingId == c then {n} else {})
  {
    var init := es[..|es| - 1];
    assert forall i :: 0 <= i < |init| ==> init[i] == es[i];
  }

  /** One more red lane adds one action per green low-density entity of its crossing. */
  lemma {:induction false} JoinExtraRedCount(es: seq<Entity>, reds: seq<LaneRef>, r: LaneRef)
    ensures |Join(GreenLowLanes(es), reds + [r])| ==
            |Join(GreenLowLanes(es), reds)| + |GreenLowAt(es, r.crossingId)|
  {
    var c := r.crossingId;
    if es == [] {
      assert GreenLowAt(es, c) == {};
    } else {
      var n := |es| - 1;
      var init := es[..n];
      JoinExtraRedCount(init, reds, r);
      GreenLowAtStep(es, c);
      var greens := GreenLowLanes(init);
      if IsGreenLow(es[n]) {
        var g := LaneOf(es[n]);
        assert GreenLowLanes(es) == greens + [g];
        JoinExtraGreen(greens, g, reds + [r]);
        JoinExtraGreen(greens, g, reds);
        MatchesExtraRed(g, reds, r);
      } else {
        assert GreenLowLanes(es) == greens;
      }
    }
  }

  /** A last entity that is green and low-density adds its pairs with the earlier red lanes of its crossing. */
  lemma SharedPairsGreenStep(es: seq<Entity>)
    requires es != [] && IsGreenLow(es[|es| - 1])
    ensures var n := |es| - 1;
      var added := set j | j in RedHighAt(es[..n], es[n].crossing.crossingId) :: (n, j);
      SharedCrossingPairs(es) == SharedCrossingPairs(es[..n]) + added &&
      SharedCrossingPairs(es[..n]) * added == {}
  {
    var n := |es| - 1;
    var init := es[..n];
    assert forall i :: 0 <= i < n ==> init[i] == es[i];
    var added := set j | j in RedHighAt(init, es[n].crossing.crossingId) :: (n, j);
    forall p | p in SharedCrossingPairs(es)
      ensures p in SharedCrossingPairs(init) + added
    {
      if p.0 == n {
        assert p.1 in RedHighAt(init, es[n].crossing.crossingId);
      }
    }
  }

  /** A last entity that is red and high-density adds its pairs with the earlier green lanes of its crossing. */
  lemma SharedPairsRedStep(es: seq<Entity>)
    requires es != [] && IsRedHigh(es[|es| - 1])
    ensures var n := |es| - 1;
      var added := set i | i in GreenLowAt(es[..n], es[n].crossing.crossingId) :: (i, n);
      SharedCrossingPairs(es) == SharedCrossingPairs(es[..n]) + added &&
      SharedCrossingPairs(es[..n]) * added == {}
  {
    var n := |es| - 1;
    var init := es[..n];
    assert forall i :: 0 <= i < n ==> init[i] == es[i];
    var added := set i | i in GreenLowAt(init, es[n].crossing.crossingId) :: (i, n);
    forall p | p in SharedCrossingPairs(es)
      ensures p in SharedCrossingPairs(init) + added
    {
      if p.1 == n {
        assert p.0 in GreenLowAt(init, es[n].crossing.crossingId);
      }
    }
  }

  /** A last entity that is neither adds no pair. */
  lemma SharedPairsOtherStep(es: seq<Entity>)
    requires es != [] && !IsGreenLow(es[|es| - 1]) && !IsRedHigh(es[|es| - 1])
    ensures SharedCrossingPairs(es) == SharedCrossingPairs(es[..|es| - 1])
  {
    var init := es[..|es| - 1];
    assert forall i :: 0 <= i < |init| ==> init[i] == es[i];
  }

  /**
   * The number of actions is the number of (green low-density, red
   * high-density) entity pairs that share a crossing id, whatever the mix
   * of crossings.
   */
  lemma {:induction false} JoinCountsSharedCrossingPairs(es: seq<Entity>)
    ensures |Join(GreenLowLanes(es), RedHighLanes(es))| == |SharedCrossingPairs(es)|
  {
    if es == [] {
      assert SharedCrossingPairs(es) == {};
    } else {
      var n := |es| - 1;
      var init := es[..n];
      var c := es[n].crossing.crossingId;
      JoinCountsSharedCrossingPairs(init);
      var greens := GreenLowLanes(init);
      var reds := RedHighLanes(init);
      if IsGreenLow(es[n]) {
        var g := LaneOf(es[n]);
        assert GreenLowLanes(es) == greens + [g];
        assert (greens + [g])[..|greens|] == greens;
        assert RedHighLanes(es) == reds;
        MatchesRedCount(g, init);
        PairedWithCard(RedHighAt(init, c), n, n);
        SharedPairsGreenStep(es);
      } else if IsRedHigh(es[n]) {
        var r := LaneOf(es[n]);
        assert RedHighLanes(es) == reds + [r];
        assert GreenLowLanes(es) == greens;
        JoinExtraRedCount(init, reds, r);
        PairedWithCard(GreenLowAt(init, c), n, n);
        SharedPairsRedStep(es);
      } else {
        assert GreenLowLanes(es) == greens;
        assert RedHighLanes(es) == reds;
        SharedPairsOtherStep(es);
      }
    }
  }

  /**
   * Split the entities into green low-density and red high-density lanes,
   * then emit one action for every (green, red) pair at the same crossing.
   */
  method OptimizeTrafficFlow(entities: seq<Entity>) returns (actions: seq<FlowAction>)
    ensures actions == Join(GreenLowLanes(entities), RedHighLanes(entities))
    ensures |actions| == |SharedCrossingPairs(entities)|
  {
    var greenLanes: seq<LaneRef> := [];
    var redLanes: seq<LaneRef> := [];
    for i := 0 to |entities|
      invariant greenLanes == GreenLowLanes(entities[..i])
      invariant redLanes == RedHighLanes(entities[..i])
    {
      var entity := entities[i];
      assert entities[..i + 1][..i] == entities[..i];
      if entity.light.color == Green && (entity.crossing.density == Density.Low || entity.crossing.density == Density.Free) {
        greenLanes := greenLanes + [LaneOf(entity)];
      } else if entity.light.color == Red && entity.crossing.density == Density.High {
        redLanes := redLanes + [LaneOf(entity)];
      }
    }
    assert entities[..|entities|] == entities;

    actions := [];
    for gi := 0 to |greenLanes|
      invariant actions == Join(greenLanes[..gi], redLanes)
    {
      var greenLane := greenLanes[gi];
      ghost var done := actions;
      for ri := 0 to |redLanes|
        invariant actions == done + Matches(greenLane, redLanes[..ri])
      {
        var redLane := redLanes[ri];
        assert redLanes[..ri + 1][..ri] == redLanes[..ri];
        if greenLane.crossingId == redLane.crossingId {
          actions := actions + [SwitchAction(greenLane, redLane)];
        }
      }
      assert redLanes[..|redLanes|] == redLanes;
      assert greenLanes[..gi + 1][..gi] == greenLanes[..gi];
    }
    assert greenLanes[..|greenLanes|] == greenLanes;
    JoinCountsSharedCrossingPairs(entities);
  }
}
