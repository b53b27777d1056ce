/**
  The condition evaluator: numeric, time-of-day and weekday comparisons, the
  nested-then-flat parameter lookup, and the conjunction over a rule's
  conditions. Operators are the strings the client stored; an operator the
  evaluator does not know makes a comparison false. `None` stands for
  JavaScript's `NaN`.
 */
module Conditions {
  import opened Wrappers
  import opened Types
  import opened Text

  /** Tolerance of `equals` and `notEquals` on numbers. */
  const Epsilon: real := 0.001

  function Abs(x: real): real
  {
    if x < 0.0 then -x else x
  }

  /** The operators `compareNumeric` knows. */
  const NumericOperators: set<string> :=
    {"equals", "notEquals", "greaterThan", "lessThan", "greaterThanOrEqual", "lessThanOrEqual"}

  /** `compareNumeric(actual, operator, expected)` on two numbers. */
  function CompareNumeric(actual: real, operator: string, expected: real): bool
  {
    if operator == "equals" then Abs(actual - expected) < Epsilon
    else if operator == "notEquals" then Abs(actual - expected) >= Epsilon
    else if operator == "greaterThan" then actual > expected
    else if operator == "lessThan" then actual < expected
    else if operator == "greaterThanOrEqual" then actual >= expected
    else if operator == "lessThanOrEqual" then actual <= expected
    else false
  }

  /** `equals` is tolerance equality, and `notEquals` is exactly its negation. */
  lemma NumericEqualsTolerance(a: real, b: real)
    ensures CompareNumeric(a, "equals", b) <==> -Epsilon < a - b < Epsilon
    ensures CompareNumeric(a, "notEquals", b) <==> !CompareNumeric(a, "equals", b)
  {
  }

  /** `equals` is reflexive and symmetric, but tolerant: values closer than `Epsilon` are equal. */
  lemma NumericEqualsReflexiveSymmetric(a: real, b: real)
    ensures CompareNumeric(a, "equals", a)
    ensures CompareNumeric(a, "equals", b) == CompareNumeric(b, "equals", a)
    ensures CompareNumeric(a, "equals", a + Epsilon / 2.0)
  {
  }

  /** The four ordering operators are the usual orders on numbers. */
  lemma NumericOrdering(a: real, b: real)
    ensures CompareNumeric(a, "greaterThan", b) <==> a > b
    ensures CompareNumeric(a, "lessThan", b) <==> a < b
    ensures CompareNumeric(a, "greaterThanOrEqual", b) <==> CompareNumeric(a, "greaterThan", b) || a == b
    ensures CompareNumeric(a, "lessThanOrEqual", b) <==> CompareNumeric(b, "greaterThanOrEqual", a)
  {
  }

  /** An operator outside the six is false. */
  lemma NumericUnknownOperator(a: real, operator: string, b: real)
    requires operator !in NumericOperators
    ensures !CompareNumeric(a, operator, b)
  {
  }

  /**
    `compareNumeric` on a state value: a text value or a threshold that did
    not parse (`NaN`) makes every operator false.
   */
  function CompareValue(actual: Value, operator: string, expected: Option<real>): (r: bool)
    ensures r ==> actual.Num? && expected.Some?
  {
    match (actual, expected)
    case (Num(a), Some(e)) => CompareNumeric(a, operator, e)
    case _ => false
  }

  /** `parseFloat(condition.value)`: a number stays itself, a text goes through the parser. */
  function ParseThreshold(threshold: Value, parseFloat: string -> Option<real>): Option<real>
  {
    match threshold
    case Num(x) => Some(x)
    case Text(s) => parseFloat(s)
  }

  /** `state[name]` for a flat (non-device) field of the snapshot. */
  function FlatField(s: SystemState, name: string): Option<Value>
  {
    if name == "batteryPower" then Some(s.batteryPower)
    else if name == "batterySOC" then Some(s.batterySOC)
    else if name == "solarPower" then Some(s.solarPower)
    else if name == "gridPower" then Some(s.gridPower)
    else if name == "loadPower" then Some(s.loadPower)
    else if name == "time" then Some(Num(s.time as real))
    else None
  }

  /** The value a condition is tested on: the device entry first, the flat field otherwise. */
  function Resolve(s: SystemState, deviceType: string, parameter: string): Option<Value>
  {
    if deviceType in s.devices && parameter in s.devices[deviceType]
    then Some(s.devices[deviceType][parameter])
    else FlatField(s, parameter)
  }

  /** One condition of `checkConditions`: false when the parameter resolves nowhere. */
  predicate EvaluateCondition(c: Condition, s: SystemState, parseFloat: string -> Option<real>)
  {
    match Resolve(s, c.deviceType, c.parameter)
    case Some(v) => CompareValue(v, c.operator, ParseThreshold(c.threshold, parseFloat))
    case None => false
  }

  /** `checkConditions`: every condition holds. */
  predicate CheckConditions(conditions: seq<Condition>, s: SystemState, parseFloat: string -> Option<real>)
    decreases |conditions|
  {
    |conditions| == 0 ||
    (EvaluateCondition(conditions[0], s, parseFloat) && CheckConditions(conditions[1..], s, parseFloat))
  }

  /** The conjunction holds exactly when each condition does; the empty list holds. */
  lemma {:induction false} CheckConditionsAll(conditions: seq<Condition>, s: SystemState, parseFloat: string -> Option<real>)
    ensures CheckConditions(conditions, s, parseFloat) <==>
      forall i :: 0 <= i < |conditions| ==> EvaluateCondition(conditions[i], s, parseFloat)
    decreases |conditions|
  {
    if |conditions| > 0 {
      CheckConditionsAll(conditions[1..], s, parseFloat);
      assert forall i :: 1 <= i < |conditions| ==> conditions[i] == conditions[1..][i - 1];
    }
  }

  /** Conditions may be split anywhere: the conjunction of two lists is the conjunction of both. */
  lemma {:induction false} CheckConditionsAppend(a: seq<Condition>, b: seq<Condition>, s: SystemState, parseFloat: string -> Option<real>)
    ensures CheckConditions(a + b, s, parseFloat) <==> CheckConditions(a, s, parseFloat) && CheckConditions(b, s, parseFloat)
    decreases |a|
  {
    if |a| > 0 {
      assert (a + b)[1..] == a[1..] + b;
      CheckConditionsAppend(a[1..], b, s, parseFloat);
    } else {
      assert a + b == b;
    }
  }

  /**
    When the device entry exists it alone decides the condition: any two
    snapshots that agree on it agree on the outcome, whatever their flat
    fields hold.
   */
  lemma NestedShadowsFlat(c: Condition, s: SystemState, t: SystemState, parseFloat: string -> Option<real>)
    requires c.deviceType in s.devices && c.parameter in s.devices[c.deviceType]
    requires c.deviceType in t.devices && c.parameter in t.devices[c.deviceType]
    requires s.devices[c.deviceType][c.parameter] == t.devices[c.deviceType][c.parameter]
    ensures EvaluateCondition(c, s, parseFloat) == EvaluateCondition(c, t, parseFloat)
    ensures EvaluateCondition(c, s, parseFloat) ==
      CompareValue(s.devices[c.deviceType][c.parameter], c.operator, ParseThreshold(c.threshold, parseFloat))
  {
  }

  /** Without a device entry the flat field decides; with neither the condition is false. */
  lemma FlatFallback(c: Condition, s: SystemState, parseFloat: string -> Option<real>)
    requires !(c.deviceType in s.devices && c.parameter in s.devices[c.deviceType])
    ensures FlatField(s, c.parameter).None? ==> !EvaluateCondition(c, s, parseFloat)
    ensures FlatField(s, c.parameter).Some? ==>
      (EvaluateCondition(c, s, parseFloat) ==
       CompareValue(FlatField(s, c.parameter).value, c.operator, ParseThreshold(c.threshold, parseFloat)))
  {
  }

  /** A list holding one condition that resolves nowhere never holds. */
  lemma UnknownParameterFails(conditions: seq<Condition>, k: nat, s: SystemState, parseFloat: string -> Option<real>)
    requires k < |conditions|
    requires Resolve(s, conditions[k].deviceType, conditions[k].parameter).None?
    ensures !CheckConditions(conditions, s, parseFloat)
  {
    CheckConditionsAll(conditions, s, parseFloat);
  }

  /** `expectedTime.split(':').map(Number)` turned into minutes since midnight. */
  function ExpectedMinutes(expectedTime: string, toNumber: string -> Option<real>): Option<real>
  {
    var parts := Split(expectedTime, ':');
    var hours := toNumber(parts[0]);
    var minutes := if |parts| > 1 then toNumber(parts[1]) else None;
    if hours.Some? && minutes.Some? then Some(hours.value * 60.0 + minutes.value) else None
  }

  /** An `"HH:MM"` text yields `HH * 60 + MM` when both halves are numbers, and `NaN` otherwise. */
  lemma ExpectedMinutesOfJoin(h: string, m: string, toNumber: string -> Option<real>)
    requires ':' !in h && ':' !in m
    ensures ExpectedMinutes(h + ":" + m, toNumber) ==
      if toNumber(h).Some? && toNumber(m).Some? then Some(toNumber(h).value * 60.0 + toNumber(m).value) else None
  {
    SplitJoin([h, m], ':');
    assert Join([h, m], [':']) == h + ":" + m;
  }

  /** `compareTime`: the clock reading `hours:minutes` against an `"HH:MM"` text. */
  function CompareTime(hours: int, minutes: int, operator: string, expectedTime: string, toNumber: string -> Option<real>): bool
  {
    var actual := (hours * 60 + minutes) as real;
    var expected := ExpectedMinutes(expectedTime, toNumber);
    if operator == "equals" then expected == Some(actual)
    else if operator == "notEquals" then expected != Some(actual)
    else if operator == "after" then expected.Some? && actual > expected.value
    else if operator == "before" then expected.Some? && actual < expected.value
    else false
  }

  /** `equals` and `notEquals` are complementary, even against an unparsable time. */
  lemma TimeEqualsComplement(hours: int, minutes: int, expectedTime: string, toNumber: string -> Option<real>)
    ensures CompareTime(hours, minutes, "notEquals", expectedTime, toNumber) <==>
      !CompareTime(hours, minutes, "equals", expectedTime, toNumber)
  {
  }

  /**
    Against a parsable time, exactly one of `equals`, `after` and `before`
    holds, and `after` / `before` mean later / earlier in minutes.
   */
  lemma TimeTrichotomy(hours: int, minutes: int, expectedTime: string, toNumber: string -> Option<real>, e: real)
    requires ExpectedMinutes(expectedTime, toNumber) == Some(e)
    ensures CompareTime(hours, minutes, "after", expectedTime, toNumber) <==> (hours * 60 + minutes) as real > e
    ensures CompareTime(hours, minutes, "before", expectedTime, toNumber) <==> (hours * 60 + minutes) as real < e
    ensures CompareTime(hours, minutes, "equals", expectedTime, toNumber) <==> (hours * 60 + minutes) as real == e
    ensures CompareTime(hours, minutes, "equals", expectedTime, toNumber) ||
      CompareTime(hours, minutes, "after", expectedTime, toNumber) ||
      CompareTime(hours, minutes, "before", expectedTime, toNumber)
    ensures !(CompareTime(hours, minutes, "after", expectedTime, toNumber) &&
      CompareTime(hours, minutes, "before", expectedTime, toNumber))
  {
  }

  /** A time that does not parse fails every operator except `notEquals`. */
  lemma TimeUnparsable(hours: int, minutes: int, operator: string, expectedTime: string, toNumber: string -> Option<real>)
    requires ExpectedMinutes(expectedTime, toNumber).None?
    ensures CompareTime(hours, minutes, operator, expectedTime, toNumber) <==> operator == "notEquals"
  {
  }

  /** The time operators other than the four are false. */
  lemma TimeUnknownOperator(hours: int, minutes: int, operator: string, expectedTime: string, toNumber: string -> Option<real>)
    requires operator !in {"equals", "notEquals", "after", "before"}
    ensures !CompareTime(hours, minutes, operator, expectedTime, toNumber)
  {
  }

  /** Day names as `compareDay` looks them up, Sunday first. */
  const LowerDayNames: seq<string> := ["sunday", "monday", "tuesday", "wednesday", "thursday", "friday", "saturday"]

  /** The 0-6 index of a day name, compared case-insensitively; -1 for an unknown name. */
  function DayIndex(name: string): (r: int)
    ensures -1 <= r < 7
    ensures r == -1 <==> ToLower(name) !in LowerDayNames
    ensures r >= 0 ==> LowerDayNames[r] == ToLower(name)
  {
    IndexOf(LowerDayNames, ToLower(name))
  }

  /** `compareDay(actualDay, operator, expectedDay)`. */
  function CompareDay(actualDay: int, operator: string, expectedDay: string): bool
  {
    var expected := DayIndex(expectedDay);
    if expected == -1 then false
    else if operator == "equals" then actualDay == expected
    else if operator == "notEquals" then actualDay != expected
    else false
  }

  /** An unknown day name fails every operator, `notEquals` included. */
  lemma DayUnknownName(actualDay: int, operator: string, expectedDay: string)
    requires ToLower(expectedDay) !in LowerDayNames
    ensures !CompareDay(actualDay, operator, expectedDay)
  {
  }

  /** Operators other than `equals` and `notEquals` fail. */
  lemma DayUnknownOperator(actualDay: int, operator: string, expectedDay: string)
    requires operator != "equals" && operator != "notEquals"
    ensures !CompareDay(actualDay, operator, expectedDay)
  {
  }

  /** For a known name, `equals` and `notEquals` are complementary. */
  lemma DayEqualsComplement(actualDay: int, expectedDay: string)
    requires ToLower(expectedDay) in LowerDayNames
    ensures CompareDay(actualDay, "notEquals", expectedDay) <==> !CompareDay(actualDay, "equals", expectedDay)
  {
  }

  /** The lower-case table is the engines' weekday table, lower-cased. */
  lemma LowerDayNamesAreDayNames(i: nat)
    requires i < 7
    ensures ToLower(DayNames[i]) == LowerDayNames[i]
  {
  }

  /**
    `compareDay` agrees with the weekday table: the day with index `i`
    equals its own name and no other index does.
   */
  lemma DayMatchesDayNames(i: nat, actualDay: int)
    requires i < 7
    ensures CompareDay(actualDay, "equals", DayNames[i]) <==> actualDay == i
    ensures CompareDay(actualDay, "equals", LowerDayNames[i]) <==> actualDay == i
  {
    LowerDayNamesAreDayNames(i);
    assert ToLower(LowerDayNames[i]) == LowerDayNames[i];
  }

  /** Index 3 is Wednesday, whatever the case of the name. */
  lemma WednesdayIsThree()
    ensures CompareDay(3, "equals", "wednesday")
    ensures CompareDay(3, "equals", "Wednesday")
    ensures !CompareDay(4, "equals", "Wednesday")
  {
    DayMatchesDayNames(3, 3);
    DayMatchesDayNames(3, 4);
  }
}
