# Smart traffic management: context derivation and decision engine

A Dafny model of the decision engine of SmartTrafficManagement
(`context_derivation.py`). The engine reads an ordered sequence of per-lane
sensor rows. For each row it builds an entity that pairs a `Light` (the
resolved colour and the timer) with a `Crossing` (ids, time, average speed
and acceleration, their labels, the density category and the accident
flag). Two rule engines then read that entity list:

- `handle_accidents` maps each entity to at most one advisory scenario.
- `optimize_traffic_flow` pairs every green lane with LOW or FREE density
  with every red lane with HIGH density at the same crossing.

Files:

- `wrappers.dfy`: `Option`.
- `models.dfy`: the `Light` and `Crossing` records of `models.py`, the entity
  pair, and closed enumerations for colour, speed/acceleration label and
  density. Density has an `Error` variant in place of the `"Error!"` string.
- `context_derivation.dfy`: everything else.
  - The light-code lookup, and `ColorAfter`, the colour in force after a
    prefix of rows.
  - The nine-rule classifier, its guards and outcomes, and the density table.
  - The three functions of the source as methods with loops (`DeriveContext`,
    `HandleAccidents`, `OptimizeTrafficFlow`). Each is proved against a
    specification function.
  - Lemmas about those specification functions.
- `derivation_cases.dfy`: concrete cases. These are the shared boundaries,
  speed 25 with acceleration 40, a negative speed, the accident durations,
  2 green × 3 red lanes at one crossing, and the code sequence L1, unknown, L3.

The Python loops keep their mutable state. In `DeriveContext` that is the
light colour and the two labels carried across rows. The row labels are
kept as `Option<Level>`. A row that matches no rule sets only the density,
to `Error`, and keeps the previous row's labels. Before any row they are
`None`, standing in for Python's unbound variable. `ClassifyTotal` proves
that every pair of reals matches some rule, so on real inputs this branch
is never taken.

A negative speed such as -5 satisfies `speed <= 20.0`
(context_derivation.py:36-44), so rules 1–3 apply (`NegativeSpeedIsSlow`).
Only NaN reaches the `"Error!"` branch.

## Model

| member | source | states |
|---|---|---|
| ContextDerivation.CodeColor | context_derivation.py:26-31 | the status-code lookup: L1, L2 and L3 name a colour, any other code names none |
| ContextDerivation.ColorAfter | context_derivation.py:21-31 | the colour threaded through the loop: RED before any row; each row with a known code sets it; any other row keeps it |
| ContextDerivation.KnownCodes | context_derivation.py:26-31 | L1 names RED, L2 YELLOW, L3 GREEN; every other code names no colour |
| ContextDerivation.ColorAfterStep | context_derivation.py:26-31 | a row with a known code sets the colour to the one it names; a row with an unknown code leaves the colour as it was |
| ContextDerivation.ColorAfterNoKnownCode | context_derivation.py:21-31 | if no row so far has a known code, the colour is still the initial RED |
| ContextDerivation.ColorAfterLastKnownCode | context_derivation.py:24-31 | otherwise the colour is the one named by the last row whose code is known |
| ContextDerivation.RuleGuard | context_derivation.py:36-71 | the guard of each of the nine rules as written, boundary literals inclusive where the code uses `<=`/`>=` (so 20 and 50 for speed and 10 and 35 for acceleration satisfy adjacent rules); no guard for any other rule number |
| ContextDerivation.RuleOutcome | context_derivation.py:37-71 | the speed label, acceleration label and density each rule assigns: LOW/LOW→MEDIUM, LOW/MEDIUM→MEDIUM, LOW/HIGH→HIGH, MEDIUM/LOW→LOW, MEDIUM/MEDIUM→LOW, MEDIUM/HIGH→MEDIUM, HIGH/LOW→FREE, HIGH/MEDIUM→FREE, HIGH/HIGH→LOW |
| ContextDerivation.Classify | context_derivation.py:36-73 | the result is the outcome of the first rule, in declared order, whose guard holds; every earlier guard fails; "no rule" only when all nine guards fail |
| ContextDerivation.ClassifyTotal | context_derivation.py:36-73 | every real pair matches a rule (the Error branch is unreachable); labels are the speed band (≤20, ≤50, above) and acceleration band (≤10, ≤35, above), with boundaries going to the lower band; density is the rule table's entry |
| ContextDerivation.DensityTable | context_derivation.py:4-13 | the rule table in the comment: traffic density as a function of the speed label and the acceleration label |
| ContextDerivation.RuleOutcomesFollowTable | context_derivation.py:4-13 | the density each of the nine rules assigns is the rule table's entry for the two labels it assigns |
| ContextDerivation.DeriveContext | context_derivation.py:15-99 | one entity per row, in row order, each as DerivedAt (next row) states |
| ContextDerivation.CopiesRow | context_derivation.py:76-92 | the crossing's id, lane, time, average speed and average acceleration are the row's, verbatim, and its accident flag is set iff the incident counter is non-zero |
| ContextDerivation.ClassifiedAs | context_derivation.py:36-92 | a matched rule gives the crossing that rule's two labels and density; no match gives density Error and leaves the labels as the previous row left them |
| ContextDerivation.DerivedAt | context_derivation.py:24-97 | entity k's light has the colour in force after rows 0..k and row k's timer verbatim. That colour is the one row k's code names; for an unknown code it is entity k−1's colour, or RED for the first entity. Its crossing copies row k's ids, time, speed and acceleration, and flags an accident iff the incident counter is non-zero. Labels and density come from the first matching rule; if no rule matches, the density is Error and the labels are entity k−1's |
| ContextDerivation.DerivedNeverError | context_derivation.py:36-92 | no derived entity has the Error density or an unassigned label; its labels are the bands of the row's values and its density is the table's |
| ContextDerivation.ScenarioFor | context_derivation.py:108-132 | a scenario exists iff there is an accident and the light is GREEN or RED. It copies ids, time, timer and colour. Under GREEN: "blinking yellow" for 60 − timer seconds, not clamped. Under RED: hold RED for 60 seconds first |
| ContextDerivation.AccidentScenarios | context_derivation.py:106-134 | the specification of the loop: the scenarios of the entities, one rule application per entity, in entity order |
| ContextDerivation.HandleAccidents | context_derivation.py:102-134 | the scenarios are those of the entities in entity order; there are exactly as many as entities with an accident under GREEN or RED, so no more than entities |
| ContextDerivation.AccidentScenariosAppend | context_derivation.py:106-134 | the scenarios of a concatenation are those of the first part followed by those of the second (entity order) |
| ContextDerivation.AccidentIndices | context_derivation.py:109-121 | the positions of the entities with an accident under GREEN or RED |
| ContextDerivation.AccidentScenariosCount | context_derivation.py:108-132 | the number of scenarios is exactly the number of entities with an accident under GREEN or RED (one each), hence at most the number of entities |
| ContextDerivation.AccidentScenariosMembership | context_derivation.py:108-132 | a scenario is produced iff some entity's rule yields it |
| ContextDerivation.IsGreenLow | context_derivation.py:147 | an entity is selected as green when its light is GREEN and its density is LOW or FREE (Error, MEDIUM and HIGH are not) |
| ContextDerivation.IsRedHigh | context_derivation.py:155 | an entity is selected as red when its light is RED and its density is HIGH |
| ContextDerivation.LaneOf | context_derivation.py:148-162 | the lane summary keeps the entity's crossing id, lane id, density, time and light colour |
| ContextDerivation.GreenLowLanes | context_derivation.py:146-154 | the green list: the summary of each GREEN entity with LOW or FREE density, in entity order |
| ContextDerivation.RedHighLanes | context_derivation.py:155-162 | the red list: the summary of each RED entity with HIGH density, in entity order |
| ContextDerivation.GreenLowLanesMembership | context_derivation.py:146-154 | a lane is in the green list iff some entity is GREEN with LOW or FREE density and the lane is that entity's summary |
| ContextDerivation.RedHighLanesMembership | context_derivation.py:155-162 | a lane is in the red list iff some entity is RED with HIGH density and the lane is that entity's summary |
| ContextDerivation.LanesAppend | context_derivation.py:146-162 | both lane lists keep entity order |
| ContextDerivation.SwitchAction | context_derivation.py:170-176 | the action for a pair: the green lane's crossing, from the green lane to the red lane, both densities for the message, at the green lane's time |
| ContextDerivation.Matches | context_derivation.py:168-177 | the inner loop: for one green lane, one action to each red lane of the same crossing, in red-lane order |
| ContextDerivation.Join | context_derivation.py:167-177 | the nested loop: the actions of each green lane in turn (green-major), each against the whole red list |
| ContextDerivation.MatchesAppend | context_derivation.py:168-177 | for one green lane, actions follow red-lane order |
| ContextDerivation.JoinAppend | context_derivation.py:167-177 | actions are green-major: those of earlier green lanes come first |
| ContextDerivation.MatchesMembership | context_derivation.py:168-177 | for one green lane, an action is produced iff some red lane shares its crossing; the action is from the green lane to that red lane, at the green lane's time |
| ContextDerivation.JoinMembership | context_derivation.py:167-177 | an action is produced iff some (green, red) pair shares a crossing; the action is from the green lane to the red lane, at the green lane's time |
| ContextDerivation.MatchesSameCrossingCount | context_derivation.py:168-177 | one green lane against m red lanes of its own crossing yields m actions |
| ContextDerivation.JoinSameCrossingCount | context_derivation.py:167-177 | n green and m red lanes at one crossing yield n × m actions: all pairs, not a one-to-one match |
| ContextDerivation.JoinOtherCrossingsEmpty | context_derivation.py:169 | lanes of different crossings are never paired |
| ContextDerivation.SharedCrossingPairs | context_derivation.py:146-169 | the (green low-density, red high-density) entity index pairs whose crossing ids are equal |
| ContextDerivation.MatchesRedCount | context_derivation.py:155-177 | one green lane yields as many actions as there are red high-density entities at its crossing |
| ContextDerivation.JoinExtraRedCount | context_derivation.py:167-177 | one more red lane adds one action per green low-density entity at its crossing |
| ContextDerivation.JoinCountsSharedCrossingPairs | context_derivation.py:146-177 | for any mix of crossings, the number of actions equals the number of (green low-density, red high-density) entity pairs sharing a crossing id |
| ContextDerivation.OptimizeTrafficFlow | context_derivation.py:137-179 | the actions are the per-crossing all-pairs join of the green low-density lanes with the red high-density lanes, each list in entity order; their number is the number of (green low-density, red high-density) entity pairs sharing a crossing id |
| DerivationCases.BoundaryGoesToFirstRule | context_derivation.py:36-55 | speed 20 with acceleration 10 satisfies guards 1, 2, 4 and 5; rule 1 (LOW/LOW, MEDIUM) wins |
| DerivationCases.MediumSpeedHighAccel | context_derivation.py:56-59 | speed 25 with acceleration 40 gives rule 6: MEDIUM/HIGH, density MEDIUM |
| DerivationCases.NegativeSpeedIsSlow | context_derivation.py:36-47 | speed -5 matches one of rules 1–3 with speed label LOW, not the Error branch |
| DerivationCases.TableCorners | context_derivation.py:36-71 | speed above 50 with acceleration ≤35 gives FREE; speed ≤20 with acceleration above 35 gives HIGH; speed ≤20 with acceleration ≤10 gives LOW/LOW, MEDIUM |
| DerivationCases.GreenAccidentDuration | context_derivation.py:109-117 | an accident under GREEN with timer 45 blinks yellow for 15 seconds |
| DerivationCases.RedAndYellowAccidents | context_derivation.py:121-132 | an accident under RED lasts 60 seconds whatever the timer; under YELLOW there is no scenario |
| DerivationCases.TwoByThreeJoin | context_derivation.py:146-177 | 2 green low-density and 3 red high-density lanes at one crossing give 6 actions |
| DerivationCases.CarryForwardSequence | context_derivation.py:21-31 | codes L1, unknown, L3 resolve to RED, RED, GREEN |

## Left out

- The `__main__` block (context_derivation.py:182-206): CSV loading and console printing only.
- The scenario and action `message` strings: the f-string text is not modelled. A scenario's message is determined by its crossing id, lane id, action and duration. A `FlowAction` keeps the two densities its message reports.
- NaN and other floating-point semantics: speed and acceleration are `real`. NaN is the only input that would reach the `"Error!"` branch. If it did so on the first row, Python would raise for the unbound labels; the model records `None` there instead.
- The dead initial values `density = "FREE"` and `accident = "NO"` (context_derivation.py:20, 22): every row overwrites both before they are read.
- Row typing: the columns arrive already typed. A missing or non-numeric field (a pandas concern) is not modelled. The time and ids are opaque strings, and the timer and incident counter are unbounded integers. Fixed-width integer overflow of a pandas column is not modelled.
- models.py is represented by the `Light` and `Crossing` datatypes. `Entity` stands for the `{"Light", "Crossing"}` dict built at context_derivation.py:94-97. visualization.py, main.py and data_processing.py are not part of this model: they do plotting, orchestration and pandas clean-up.
