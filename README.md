# Inverter telemetry and automation engine, in Dafny

This project models the engine at the heart of an MQTT control server for a
solar and battery inverter (`server.js`). Telemetry arrives on bus topics
such as `solar_assistant_DEYE/total/pv_power/state`. It is folded into an
in-memory snapshot of device state. Once a minute two engines run: the
rule engine tests each automation rule against that snapshot, and the
schedule engine matches hour-granular settings against the clock. They
decide which commands to publish back under `solar_assistant_DEYE/` and
which notifications to send to connected observers.

Modules, one per component:

- `Types` (Types.dfy): the records. A `Value` is `Num(real)` or `Text(string)`.
  The others are the `SystemState` snapshot, conditions, actions, rules, scheduled
  settings, notification `Event`s, and the `Output` the engines emit (`Publish(topic, value)` or `Notify(event)`).
- `State` (State.dfy): the pure update `ApplyUpdate` on snapshots, and the
  `StateStore` class whose `Apply` method updates its fields in place as
  `updateSystemState` does. `Apply` is proved against `ApplyUpdate`. The class
  invariant is that each mirrored flat field equals its `total` entry.
- `Ingest` (Ingest.dfy): topic and payload parsing in the `'message'` handler,
  and the handler itself as a method on the store.
- `Conditions` (Conditions.dfy): `compareNumeric`, `compareTime`, `compareDay`,
  the nested-then-flat parameter lookup and `checkConditions`.
- `Engines` (Engines.dfy): `applyAutomationRules` and `applyScheduledSettings`.
  Each is a loop method proved equal to a specification function. The lemmas
  about each function cover firing conditions, order, independence and counts.
- `Text` (Text.dfy): JavaScript's `split`, `join`, `toLowerCase` and `indexOf`.
  It also holds the split/join round trips.
- `Wrappers` (Wrappers.dfy): `Option`. `None` stands for `undefined` or `NaN`.

Inputs that the program takes from its environment are parameters here:

- `parseFloat` and `Number` are function-typed parameters `string -> Option<real>`.
  `None` stands for a `NaN` result.
- The clock reading is passed in as the weekday index, the hour and the minutes.
- The update timestamp is `now`.

## Model

| member | source | states |
|---|---|---|
| State.Initial | server.js:73-84 | the store starts with empty `inverter_1`, `inverter_2`, `battery_1` and `total` buckets and all five flat scalars equal to 0 |
| State.InitialConsistent | server.js:73-84 | the initial store satisfies the mirror invariant |
| State.Mirror | server.js:96-112 | exactly the five names `battery_power`, `battery_state_of_charge`, `grid_power`, `load_power` and `pv_power` have a mirrored flat field |
| State.ApplyUpdate | server.js:87-113 | after an update `state[d][m]` holds the new value; the set of buckets gains `d` and loses none; every other (device, measurement) entry is unchanged; the time is the update time |
| State.MirrorConsistent | server.js:94-112 | the mirror invariant: each of the five flat fields equals the `total` entry it mirrors, once that entry exists. It is established by `InitialConsistent` and kept by `ApplyPreservesMirror` |
| State.ApplyMirrorsTotal | server.js:94-112 | a mirrored `total` measurement sets its own flat field to the value and leaves the other four alone |
| State.ApplyKeepsScalars | server.js:94-113 | any other device, or an unmirrored measurement, leaves all five flat scalars unchanged |
| State.ApplyPreservesMirror | server.js:87-113 | every update preserves "each flat scalar equals its `total` entry once that entry exists" |
| State.BatteryPowerExample | server.js:95-99 | storing 123.4 as `total.battery_power` sets both that entry and `batteryPower` |
| State.ApplyThenOther | server.js:87-91 | a later write to a different (device, measurement) does not disturb an earlier one |
| State.StateStore.constructor | server.js:73-84 | the new store's snapshot is the initial state and satisfies the invariant |
| State.StateStore.Valid | server.js:94-112 | the class invariant is `MirrorConsistent` of the store's snapshot; the constructor establishes it and `Apply` keeps it |
| State.StateStore.Apply | server.js:87-116 | the in-place update leaves the snapshot equal to `ApplyUpdate` of the old one and keeps the invariant; it returns a state-update broadcast carrying the new snapshot |
| Text.Split | server.js:121 | `split` yields at least one piece and no piece contains the separator |
| Text.Join | server.js:123 | `join` puts the separator between neighbouring pieces; `JoinSplit` and `SplitJoin` make it the inverse of `Split` |
| Text.ToLower | server.js:395 | `toLowerCase` on ASCII letters, character by character. `LowerDayNamesAreDayNames` and `DayMatchesDayNames` use it to relate the two day tables |
| Text.JoinSplit | server.js:121-123 | joining the pieces of a split with the separator restores the string |
| Text.SplitJoin | server.js:121-123 | splitting a join of separator-free pieces restores the pieces |
| Text.IndexOf | server.js:395 | `indexOf` is -1 exactly when the name is absent; otherwise it is the first position holding it |
| Ingest.ParseTopic | server.js:121-123 | the device is topic segment 1 (`undefined` when there is none) and the measurement is segments 2 to n-2 joined by `_`. It is specified for every topic length by `ParseTopicOfJoin`, `ParseTopicTwoSegments` and `ParseTopicNoSlash` |
| Ingest.ParseTopicOfJoin | server.js:121-123 | for a topic `p/device/s1/.../sk/q`, the device is segment 1 and the measurement is `s1_..._sk` (empty when k = 0) |
| Ingest.ParseTopicIgnoresEnds | server.js:121-123 | segment 0 and the last segment never affect the parsed device or measurement |
| Ingest.ParseTopicTwoSegments | server.js:121-123 | for a topic `p/device`, the device is segment 1 and the measurement is empty, since `slice(2, -1)` of two segments is empty |
| Ingest.ParseTopicNoSlash | server.js:121-123 | a topic without `/` is filed under the key `undefined` with an empty measurement |
| Ingest.PayloadValue | server.js:125-130 | a payload that parses is stored as that number; otherwise the raw text is stored |
| Ingest.ParseMessage | server.js:121-130 | the reading of a message: `ParseTopic` of the topic and `PayloadValue` of the payload. `IngestThenLookup` and `OnMessage` are stated over it |
| Ingest.IngestThenLookup | server.js:119-137 | after a message is handled, the parsed payload is found at the device and measurement its topic names |
| Ingest.OnMessage | server.js:119-137 | the handler changes the store exactly as `ApplyUpdate` of the parsed reading would, keeps the invariant and returns the state-update broadcast |
| Conditions.CompareNumeric | server.js:353-371 | `compareNumeric` on two numbers: tolerance equality for `equals` and `notEquals`, the usual orders for the other four, and false for any other operator. It is specified by `NumericEqualsTolerance`, `NumericEqualsReflexiveSymmetric`, `NumericOrdering` and `NumericUnknownOperator` |
| Conditions.NumericEqualsTolerance | server.js:355-358 | `equals` holds iff the absolute difference is below 0.001; `notEquals` is exactly its negation |
| Conditions.NumericEqualsReflexiveSymmetric | server.js:355-356 | `equals` is reflexive and symmetric, and values less than 0.001 apart count as equal |
| Conditions.NumericOrdering | server.js:359-366 | `greaterThan` and `lessThan` are the strict orders; `greaterThanOrEqual` is greater-than or equal; `lessThanOrEqual` is the converse of `greaterThanOrEqual` |
| Conditions.NumericUnknownOperator | server.js:367-369 | an operator outside the six yields false |
| Conditions.CompareValue | server.js:343-345 | a comparison can hold only when the state value is a number and the threshold parsed as one (a `NaN` makes every operator false) |
| Conditions.ParseThreshold | server.js:343-345 | `parseFloat(condition.value)`: a numeric threshold stays itself and a text threshold goes through `parseFloat`. `SolarSurplusScenario` uses it with a text threshold |
| Conditions.FlatField | server.js:344-345 | `state[parameter]` for the five mirrored flat fields and `time`, and nothing for any other name. `FlatFallback` and `UnknownDeviceScenario` are stated over it |
| Conditions.Resolve | server.js:342-349 | the tested value: the device entry when it exists, otherwise the flat field. `NestedShadowsFlat` and `FlatFallback` specify both branches |
| Conditions.EvaluateCondition | server.js:340-350 | one condition: `compareNumeric` of the resolved value against the parsed threshold, or false when nothing resolves. It is specified by `NestedShadowsFlat`, `FlatFallback` and `UnknownParameterFails` |
| Conditions.CheckConditions | server.js:338-351 | `conditions.every(...)`. `CheckConditionsAll` states that it holds iff each condition holds, and `CheckConditionsAppend` that it splits over concatenation |
| Conditions.CheckConditionsAll | server.js:338-351 | the conjunction holds iff every condition holds, so the empty list holds |
| Conditions.CheckConditionsAppend | server.js:339 | the conjunction over a concatenation is the conjunction of the two parts |
| Conditions.NestedShadowsFlat | server.js:342-343 | whenever `state[deviceType][parameter]` exists, it alone decides the condition and the flat fields are irrelevant |
| Conditions.FlatFallback | server.js:344-349 | without a nested entry the flat `state[parameter]` decides; if neither exists the condition is false |
| Conditions.UnknownParameterFails | server.js:348-349 | one condition that resolves nowhere makes the whole list fail |
| Conditions.ExpectedMinutes | server.js:374-376 | the expected minutes since midnight: split on `:`, apply `Number` to both halves and compute `h * 60 + m`, or `NaN` when a half is missing or not a number. `ExpectedMinutesOfJoin` specifies it |
| Conditions.ExpectedMinutesOfJoin | server.js:374-376 | for every `"HH:MM"` whose halves contain no `:`, the expected time is `HH * 60 + MM` when both halves are numbers, and `NaN` otherwise |
| Conditions.CompareTime | server.js:373-391 | `compareTime` on the clock reading in minutes against the expected minutes. It is specified by `TimeEqualsComplement`, `TimeTrichotomy`, `TimeUnparsable` and `TimeUnknownOperator` |
| Conditions.TimeEqualsComplement | server.js:379-382 | the time `equals` and `notEquals` are complementary, even when the expected time does not parse |
| Conditions.TimeTrichotomy | server.js:374-386 | against a parsable `HH:MM`, `after` means more minutes since midnight and `before` means fewer; exactly one of `equals`, `after` and `before` holds |
| Conditions.TimeUnparsable | server.js:374-386 | an unparsable expected time makes every operator false except `notEquals` |
| Conditions.TimeUnknownOperator | server.js:387-389 | time operators other than the four yield false |
| Conditions.DayIndex | server.js:394-395 | the looked-up index is in range and names the lower-cased day, or is -1 exactly for an unknown name |
| Conditions.CompareDay | server.js:393-411 | `compareDay`: false for an unknown day name, index equality for `equals` and `notEquals`, false for any other operator. It is specified by `DayUnknownName`, `DayUnknownOperator`, `DayEqualsComplement` and `DayMatchesDayNames` |
| Conditions.DayUnknownName | server.js:397-400 | an unknown day name makes every operator false |
| Conditions.DayUnknownOperator | server.js:407-409 | day operators other than `equals` and `notEquals` yield false |
| Conditions.DayEqualsComplement | server.js:402-406 | for a known day name, `equals` and `notEquals` are complementary |
| Conditions.LowerDayNamesAreDayNames | server.js:394 | the lower-case day table is the engines' Sunday-first day table, lower-cased |
| Conditions.DayMatchesDayNames | server.js:393-406 | `compareDay(i, "equals", name)` holds exactly for the index of `name` in the Sunday-first order, in either case |
| Conditions.WednesdayIsThree | server.js:393-406 | index 3 equals "wednesday" and "Wednesday"; index 4 does not |
| Engines.ActionPublishes | server.js:325-327 | one publish per action, in action order, with topic `solar_assistant_DEYE/` + key and the action's value |
| Engines.PublishActions | server.js:325-327 | the inner `forEach` over a firing rule's actions emits exactly `ActionPublishes` of the actions |
| Engines.RuleFires | server.js:324 | a rule fires iff today's name is among its `days` and `checkConditions` holds for its conditions. `WrongDayNeverFires` and `EmptyConditionsFire` are stated over it |
| Engines.RuleOutput | server.js:324-334 | what one rule emits: its publishes and then one notification when it fires, nothing otherwise. `RuleOutputShape` specifies it |
| Engines.RuleEffects | server.js:323-335 | what one tick of the rule engine emits, rule by rule in list order. It is specified by `RuleEffectsAppend` and `RuleEffectsCounts` |
| Engines.ApplyAutomationRules | server.js:319-336 | the loop over rules and actions emits exactly `RuleEffects` of the rules |
| Engines.RuleEffectsAppend | server.js:323-335 | rules are processed independently, in list order: a list's output is the outputs of its parts concatenated |
| Engines.RuleOutputShape | server.js:324-334 | a rule emits output iff it fires. It then emits one publish per action in order and then exactly one notification with its name and actions |
| Engines.WrongDayNeverFires | server.js:324 | a rule whose `days` lacks today's name emits nothing, whatever its conditions |
| Engines.MondayRuleOnTuesday | server.js:321-324 | a rule for `["Monday"]` evaluated on a Tuesday emits nothing |
| Engines.EmptyConditionsFire | server.js:324 | on a scheduled day a rule with no conditions always fires |
| Engines.SolarSurplusScenario | server.js:323-345 | with `total.pv_power` at 3000 and the condition "pv_power greaterThan '2000'", the rule publishes its actions and then one notification |
| Engines.UnknownDeviceScenario | server.js:342-349 | a condition on an unreported device that names no flat field keeps the rule silent |
| Engines.RuleEffectsCounts | server.js:323-335 | a tick sends one notification per firing rule and one publish per action of a firing rule |
| Engines.SettingDue | server.js:307 | a setting is due iff its day is today's name and its hour strictly equals the current hour. `FridayAtTwoPm` and `TextHourNeverDue` are stated over it |
| Engines.SettingOutput | server.js:307-315 | what one setting emits: one publish of its value under `solar_assistant_DEYE/` + key and one notification when it is due, nothing otherwise |
| Engines.ScheduleEffects | server.js:306-316 | what one tick of the schedule engine emits, setting by setting in list order. It is specified by `ScheduleEffectsAppend` and `ScheduleEffectsCounts` |
| Engines.ApplyScheduledSettings | server.js:301-317 | the loop over settings emits exactly `ScheduleEffects` of the settings |
| Engines.ScheduleEffectsAppend | server.js:306-316 | settings are processed independently, in list order |
| Engines.ScheduleEffectsCounts | server.js:306-316 | a tick sends exactly one publish and one notification per due setting |
| Engines.DayNamesDistinct | server.js:303 | the weekday names are pairwise distinct |
| Engines.FridayAtTwoPm | server.js:307 | a Friday/14 setting is due on a tick iff the weekday is Friday and the hour is 14 |
| Engines.TextHourNeverDue | server.js:307 | an hour stored as text never matches under strict equality |

## Left out

- The HTTP routes for rules, schedules, inverter types and universal settings (server.js:139-298 and 437-446). These are CRUD plumbing around the engine.
- The MQTT connection and subscription (server.js:10-22). The transport send, serialisation and NaN skip in `publishToMQTT` (server.js:24-45) are also left out, including the `automationLog` broadcast sent after a successful publish. The model emits only the logical `Publish(topic, value)`.
- The WebSocket server and `broadcastMessage` fan-out (server.js:413-431) are I/O. Notifications are `Notify` records in the engines' output, and the state-update broadcast is the value `Apply` returns.
- The timers and clock reads (server.js:83, 92, 302-304, 320-321, 434-435). The weekday index, hour, minutes and timestamp are parameters.
- `parseFloat` and `Number` are parameters, not definitions of JavaScript's number grammar. Numbers are mathematical reals: IEEE rounding, infinities and `NaN` as a stored value are not modelled.
- Conditions.CompareValue: a state value stored as text makes every numeric comparison false. The only text values the handler stores are payloads on which `parseFloat` gives `NaN`. Of these, JavaScript coerces the empty payload `""` and whitespace-only payloads to the number 0 in `actual - expected` and `actual > expected`. So an empty payload satisfies `lessThan 100` in JavaScript but not in the model.
- Logging and diagnostics are not modelled. These are the `console.log` of each received message (server.js:120), the `console.error` of the unreachable parse failure (server.js:132), and the `console.warn` on an unknown parameter, operator or day name (server.js:348, 368, 388, 398, 408). In those cases the model only returns the same `false`.
- The message payload is a string. Byte decoding (`message.toString()`) is not modelled. The `catch` at server.js:131-134 cannot be reached because neither `toString` nor `parseFloat` throws, so there is no error path.
- Device buckets and flat fields are kept apart. In JavaScript they share one object, so a device named like a flat field (`batteryPower`, `time`) would collide with it; that is not modelled. Prototype keys are not modelled either. A message on `p/__proto__/m/s` writes `m` through `currentSystemState["__proto__"]` into `Object.prototype` (server.js:88-91). After that, `m` resolves under every device bucket and as a flat field in `checkConditions` (server.js:342-345). Separately, a measurement named `__proto__` is never stored, because assigning a primitive to `__proto__` is ignored. The model stores that measurement and compares it like any other.
- A flat lookup that lands on a whole device bucket compares an object, which gives `NaN` and so false. The model finds nothing there, which also gives false.
- Action and setting values are `Value`s; arbitrary JSON objects as values are not modelled.
- Records are well-typed, and malformed rules are not modelled. In JavaScript a missing field throws inside the timer callback (server.js:324-325, run from 435). No `uncaughtException` handler is installed, so Node terminates the whole process, which stops ingestion and every later tick. A rule without `days` throws on every tick. A rule without `conditions` throws only on a day it is scheduled for, and one without `actions` only when it fires.
- Text.ToLower lower-cases ASCII letters only. Non-ASCII case mapping of `toLowerCase` is not modelled.
