/**
  The two periodic engines. On each tick the rule engine publishes the
  actions of every rule scheduled for today whose conditions all hold, and
  the schedule engine publishes every setting due this weekday and hour.
  The clock reading is passed in as the weekday index (`Date.getDay()`) and
  the hour (`Date.getHours()`); what the engines send is returned in order as
  a sequence of outputs.
 */
module Engines {
  import opened Wrappers
  import opened Types
  import opened Conditions

  /** One publish per action, in action order, under the command namespace. */
  function ActionPublishes(actions: seq<Action>): (out: seq<Output>)
    ensures |out| == |actions|
    ensures forall i :: 0 <= i < |actions| ==> out[i] == Publish(TopicPrefix + actions[i].key, actions[i].value)
    decreases |actions|
  {
    if |actions| == 0 then []
    else [Publish(TopicPrefix + actions[0].key, actions[0].value)] + ActionPublishes(actions[1..])
  }

  /** Publishing one more action appends its publish; the step of the action loop's invariant. */
  lemma ActionPublishesSnoc(actions: seq<Action>, j: nat)
    requires j < |actions|
    ensures ActionPublishes(actions[..j + 1]) ==
      ActionPublishes(actions[..j]) + [Publish(TopicPrefix + actions[j].key, actions[j].value)]
  {
  }

  /** A rule fires when today's name is among its days and all its conditions hold. */
  predicate RuleFires(rule: AutomationRule, s: SystemState, dayIndex: int, parseFloat: string -> Option<real>)
    requires 0 <= dayIndex < 7
  {
    DayNames[dayIndex] in rule.days && CheckConditions(rule.conditions, s, parseFloat)
  }

  /** What one rule emits on one tick. */
  function RuleOutput(rule: AutomationRule, s: SystemState, dayIndex: int, parseFloat: string -> Option<real>): seq<Output>
    requires 0 <= dayIndex < 7
  {
    if RuleFires(rule, s, dayIndex, parseFloat)
    then ActionPublishes(rule.actions) + [Notify(AutomationRuleTriggered(rule.name, rule.actions))]
    else []
  }

  /** What the rule engine emits on one tick: each rule's output, in list order. */
  function RuleEffects(rules: seq<AutomationRule>, s: SystemState, dayIndex: int, parseFloat: string -> Option<real>): seq<Output>
    requires 0 <= dayIndex < 7
    decreases |rules|
  {
    if |rules| == 0 then []
    else RuleOutput(rules[0], s, dayIndex, parseFloat) + RuleEffects(rules[1..], s, dayIndex, parseFloat)
  }

  /** The inner loop of `applyAutomationRules`: publish each action of a firing rule, in order. */
  method PublishActions(actions: seq<Action>) returns (out: seq<Output>)
    ensures out == ActionPublishes(actions)
  {
    out := [];
    var j := 0;
    while j < |actions|
      invariant 0 <= j <= |actions|
      invariant out == ActionPublishes(actions[..j])
    {
      var action := actions[j];
      out := out + [Publish(TopicPrefix + action.key, action.value)];
      ActionPublishesSnoc(actions, j);
      j := j + 1;
    }
    assert actions[..j] == actions;
  }

  /** `applyAutomationRules`: the loop over rules; each firing rule's actions go through `PublishActions`. */
  method ApplyAutomationRules(rules: seq<AutomationRule>, s: SystemState, dayIndex: int, parseFloat: string -> Option<real>)
    returns (out: seq<Output>)
    requires 0 <= dayIndex < 7
    ensures out == RuleEffects(rules, s, dayIndex, parseFloat)
  {
    var day := DayNames[dayIndex];
    out := [];
    var i := 0;
    while i < |rules|
      invariant 0 <= i <= |rules|
      invariant out == RuleEffects(rules[..i], s, dayIndex, parseFloat)
    {
      var rule := rules[i];
      ghost var before := out;
      if day in rule.days && CheckConditions(rule.conditions, s, parseFloat) {
        var published := PublishActions(rule.actions);
        out := out + published + [Notify(AutomationRuleTriggered(rule.name, rule.actions))];
        assert RuleFires(rule, s, dayIndex, parseFloat);
      } else {
        assert !RuleFires(rule, s, dayIndex, parseFloat);
      }
      assert out == before + RuleOutput(rule, s, dayIndex, parseFloat);
      RuleEffectsAppend(rules[..i], [rule], s, dayIndex, parseFloat);
      assert rules[..i + 1] == rules[..i] + [rule];
      i := i + 1;
    }
    assert rules[..i] == rules;
  }

  /** Rules are independent: the output of a list is the outputs of its parts, in order. */
  lemma {:induction false} RuleEffectsAppend(a: seq<AutomationRule>, b: seq<AutomationRule>, s: SystemState, dayIndex: int, parseFloat: string -> Option<real>)
    requires 0 <= dayIndex < 7
    ensures RuleEffects(a + b, s, dayIndex, parseFloat) == RuleEffects(a, s, dayIndex, parseFloat) + RuleEffects(b, s, dayIndex, parseFloat)
    decreases |a|
  {
    if |a| == 0 {
      assert a + b == b;
    } else {
      assert (a + b)[0] == a[0];
      assert (a + b)[1..] == a[1..] + b;
      RuleEffectsAppend(a[1..], b, s, dayIndex, parseFloat);
    }
  }

  /**
    A firing rule emits one publish per action, in order, then exactly one
    notification with its name and actions; a rule that does not fire emits
    nothing.
   */
  lemma RuleOutputShape(rule: AutomationRule, s: SystemState, dayIndex: int, parseFloat: string -> Option<real>)
    requires 0 <= dayIndex < 7
    ensures var out := RuleOutput(rule, s, dayIndex, parseFloat);
      (out != [] <==> RuleFires(rule, s, dayIndex, parseFloat)) &&
      (RuleFires(rule, s, dayIndex, parseFloat) ==>
        |out| == |rule.actions| + 1 &&
        (forall i :: 0 <= i < |rule.actions| ==> out[i] == Publish(TopicPrefix + rule.actions[i].key, rule.actions[i].value)) &&
        out[|rule.actions|] == Notify(AutomationRuleTriggered(rule.name, rule.actions)))
  {
  }

  /** A rule whose days do not include today never fires, whatever its conditions. */
  lemma WrongDayNeverFires(rule: AutomationRule, s: SystemState, dayIndex: int, parseFloat: string -> Option<real>)
    requires 0 <= dayIndex < 7
    requires DayNames[dayIndex] !in rule.days
    ensures RuleOutput(rule, s, dayIndex, parseFloat) == []
  {
  }

  /** A rule for `["Monday"]` evaluated on a Tuesday emits nothing. */
  lemma MondayRuleOnTuesday(rule: AutomationRule, s: SystemState, parseFloat: string -> Option<real>)
    requires rule.days == ["Monday"]
    ensures RuleEffects([rule], s, 2, parseFloat) == []
  {
  }

  /** On a scheduled day, a rule without conditions always fires. */
  lemma EmptyConditionsFire(rule: AutomationRule, s: SystemState, dayIndex: int, parseFloat: string -> Option<real>)
    requires 0 <= dayIndex < 7
    requires DayNames[dayIndex] in rule.days && rule.conditions == []
    ensures RuleOutput(rule, s, dayIndex, parseFloat) ==
      ActionPublishes(rule.actions) + [Notify(AutomationRuleTriggered(rule.name, rule.actions))]
  {
  }

  /**
    With 3000 W of solar on the `total` device and a rule "pv_power greater
    than 2000" (the threshold stored as text), the rule's actions are
    published followed by one notification.
   */
  lemma SolarSurplusScenario(rule: AutomationRule, s: SystemState, dayIndex: int, parseFloat: string -> Option<real>)
    requires 0 <= dayIndex < 7
    requires "total" in s.devices && "pv_power" in s.devices["total"]
    requires s.devices["total"]["pv_power"] == Num(3000.0)
    requires rule.conditions == [Condition("total", "pv_power", "greaterThan", Text("2000"))]
    requires parseFloat("2000") == Some(2000.0)
    requires DayNames[dayIndex] in rule.days
    ensures RuleEffects([rule], s, dayIndex, parseFloat) ==
      ActionPublishes(rule.actions) + [Notify(AutomationRuleTriggered(rule.name, rule.actions))]
  {
    var c := rule.conditions[0];
    assert Resolve(s, c.deviceType, c.parameter) == Some(Num(3000.0));
    assert ParseThreshold(c.threshold, parseFloat) == Some(2000.0);
    assert CompareNumeric(3000.0, "greaterThan", 2000.0);
    assert EvaluateCondition(c, s, parseFloat);
    assert rule.conditions[1..] == [];
    assert CheckConditions(rule.conditions, s, parseFloat);
    assert RuleFires(rule, s, dayIndex, parseFloat);
    assert [rule][1..] == [];
    assert RuleEffects([rule], s, dayIndex, parseFloat) == RuleOutput(rule, s, dayIndex, parseFloat) + [];
  }

  /** A condition on a device that reported nothing, naming no flat field, stops its rule from firing. */
  lemma UnknownDeviceScenario(rule: AutomationRule, s: SystemState, dayIndex: int, parseFloat: string -> Option<real>)
    requires 0 <= dayIndex < 7
    requires |rule.conditions| > 0
    requires rule.conditions[0].deviceType !in s.devices
    requires FlatField(s, rule.conditions[0].parameter).None?
    ensures RuleOutput(rule, s, dayIndex, parseFloat) == []
  {
  }

  /** Number of notifications in an output sequence. */
  function CountNotify(out: seq<Output>): nat
    decreases |out|
  {
    if |out| == 0 then 0 else (if out[0].Notify? then 1 else 0) + CountNotify(out[1..])
  }

  /** Number of publishes in an output sequence. */
  function CountPublish(out: seq<Output>): nat
    decreases |out|
  {
    if |out| == 0 then 0 else (if out[0].Publish? then 1 else 0) + CountPublish(out[1..])
  }

  /** Both counts add up over a concatenation of outputs. */
  lemma {:induction false} CountAppend(a: seq<Output>, b: seq<Output>)
    ensures CountNotify(a + b) == CountNotify(a) + CountNotify(b)
    ensures CountPublish(a + b) == CountPublish(a) + CountPublish(b)
    decreases |a|
  {
    if |a| == 0 {
      assert a + b == b;
    } else {
      assert (a + b)[0] == a[0];
      assert (a + b)[1..] == a[1..] + b;
      CountAppend(a[1..], b);
    }
  }

  /** An action list's publishes hold one publish per action and no notification. */
  lemma {:induction false} CountActionPublishes(actions: seq<Action>)
    ensures CountNotify(ActionPublishes(actions)) == 0
    ensures CountPublish(ActionPublishes(actions)) == |actions|
    decreases |actions|
  {
    if |actions| > 0 {
      var out := ActionPublishes(actions);
      assert out[1..] == ActionPublishes(actions[1..]);
      CountActionPublishes(actions[1..]);
    }
  }

  /** The rules of a list that fire on this tick, in order. */
  function FiringRules(rules: seq<AutomationRule>, s: SystemState, dayIndex: int, parseFloat: string -> Option<real>): seq<AutomationRule>
    requires 0 <= dayIndex < 7
    decreases |rules|
  {
    if |rules| == 0 then []
    else
      var head := if RuleFires(rules[0], s, dayIndex, parseFloat) then [rules[0]] else [];
      head + FiringRules(rules[1..], s, dayIndex, parseFloat)
  }

  /** Total number of actions over a list of rules. */
  function TotalActions(rules: seq<AutomationRule>): nat
    decreases |rules|
  {
    if |rules| == 0 then 0 else |rules[0].actions| + TotalActions(rules[1..])
  }

  /**
    A tick sends exactly one notification per firing rule and one publish per
    action of a firing rule.
   */
  lemma {:induction false} RuleEffectsCounts(rules: seq<AutomationRule>, s: SystemState, dayIndex: int, parseFloat: string -> Option<real>)
    requires 0 <= dayIndex < 7
    ensures CountNotify(RuleEffects(rules, s, dayIndex, parseFloat)) == |FiringRules(rules, s, dayIndex, parseFloat)|
    ensures CountPublish(RuleEffects(rules, s, dayIndex, parseFloat)) == TotalActions(FiringRules(rules, s, dayIndex, parseFloat))
    decreases |rules|
  {
    if |rules| > 0 {
      var rule := rules[0];
      RuleEffectsCounts(rules[1..], s, dayIndex, parseFloat);
      CountAppend(RuleOutput(rule, s, dayIndex, parseFloat), RuleEffects(rules[1..], s, dayIndex, parseFloat));
      var rest := FiringRules(rules[1..], s, dayIndex, parseFloat);
      if RuleFires(rule, s, dayIndex, parseFloat) {
        var note := [Notify(AutomationRuleTriggered(rule.name, rule.actions))];
        CountAppend(ActionPublishes(rule.actions), note);
        CountActionPublishes(rule.actions);
        assert CountNotify(note) == 1 && CountPublish(note) == 0 by {
          assert note[1..] == [];
        }
        assert ([rule] + rest)[1..] == rest;
      } else {
        assert [] + rest == rest;
      }
    }
  }

  /** A setting is due when its day is today's name and its hour is strictly equal to the current hour. */
  predicate SettingDue(setting: ScheduledSetting, dayIndex: int, hour: int)
    requires 0 <= dayIndex < 7
  {
    setting.day == DayNames[dayIndex] && setting.hour == Num(hour as real)
  }

  /** What one setting emits on one tick. */
  function SettingOutput(setting: ScheduledSetting, dayIndex: int, hour: int): seq<Output>
    requires 0 <= dayIndex < 7
  {
    if SettingDue(setting, dayIndex, hour)
    then [Publish(TopicPrefix + setting.key, setting.value), Notify(ScheduledSettingApplied(setting.key, setting.value))]
    else []
  }

  /** What the schedule engine emits on one tick: each setting's output, in list order. */
  function ScheduleEffects(settings: seq<ScheduledSetting>, dayIndex: int, hour: int): seq<Output>
    requires 0 <= dayIndex < 7
    decreases |settings|
  {
    if |settings| == 0 then []
    else SettingOutput(settings[0], dayIndex, hour) + ScheduleEffects(settings[1..], dayIndex, hour)
  }

  /** `applyScheduledSettings`: the loop over settings. */
  method ApplyScheduledSettings(settings: seq<ScheduledSetting>, dayIndex: int, hour: int) returns (out: seq<Output>)
    requires 0 <= dayIndex < 7
    ensures out == ScheduleEffects(settings, dayIndex, hour)
  {
    var day := DayNames[dayIndex];
    out := [];
    var i := 0;
    while i < |settings|
      invariant 0 <= i <= |settings|
      invariant out == ScheduleEffects(settings[..i], dayIndex, hour)
    {
      var setting := settings[i];
      if setting.day == day && setting.hour == Num(hour as real) {
        out := out + [Publish(TopicPrefix + setting.key, setting.value)];
        out := out + [Notify(ScheduledSettingApplied(setting.key, setting.value))];
      }
      ScheduleEffectsAppend(settings[..i], [setting], dayIndex, hour);
      assert settings[..i + 1] == settings[..i] + [setting];
      i := i + 1;
    }
    assert settings[..i] == settings;
  }

  /** Settings are independent: the output of a list is the outputs of its parts, in order. */
  lemma {:induction false} ScheduleEffectsAppend(a: seq<ScheduledSetting>, b: seq<ScheduledSetting>, dayIndex: int, hour: int)
    requires 0 <= dayIndex < 7
    ensures ScheduleEffects(a + b, dayIndex, hour) == ScheduleEffects(a, dayIndex, hour) + ScheduleEffects(b, dayIndex, hour)
    decreases |a|
  {
    if |a| == 0 {
      assert a + b == b;
    } else {
      assert (a + b)[0] == a[0];
      assert (a + b)[1..] == a[1..] + b;
      ScheduleEffectsAppend(a[1..], b, dayIndex, hour);
    }
  }

  /** The settings of a list that are due on this tick, in order. */
  function DueSettings(settings: seq<ScheduledSetting>, dayIndex: int, hour: int): seq<ScheduledSetting>
    requires 0 <= dayIndex < 7
    decreases |settings|
  {
    if |settings| == 0 then []
    else
      var head := if SettingDue(settings[0], dayIndex, hour) then [settings[0]] else [];
      head + DueSettings(settings[1..], dayIndex, hour)
  }

  /** A tick sends exactly one publish and one notification per due setting. */
  lemma {:induction false} ScheduleEffectsCounts(settings: seq<ScheduledSetting>, dayIndex: int, hour: int)
    requires 0 <= dayIndex < 7
    ensures CountPublish(ScheduleEffects(settings, dayIndex, hour)) == |DueSettings(settings, dayIndex, hour)|
    ensures CountNotify(ScheduleEffects(settings, dayIndex, hour)) == |DueSettings(settings, dayIndex, hour)|
    decreases |settings|
  {
    if |settings| > 0 {
      var setting := settings[0];
      var first := SettingOutput(setting, dayIndex, hour);
      ScheduleEffectsCounts(settings[1..], dayIndex, hour);
      CountAppend(first, ScheduleEffects(settings[1..], dayIndex, hour));
      var rest := DueSettings(settings[1..], dayIndex, hour);
      if SettingDue(setting, dayIndex, hour) {
        assert first[1..][1..] == [];
        assert CountNotify(first) == 1 && CountPublish(first) == 1;
        assert ([setting] + rest)[1..] == rest;
      } else {
        assert [] + rest == rest;
      }
    }
  }

  /** The weekday names are pairwise distinct, so a day name identifies its index. */
  lemma DayNamesDistinct(i: int, j: int)
    requires 0 <= i < 7 && 0 <= j < 7
    ensures DayNames[i] == DayNames[j] <==> i == j
  {
  }

  /**
    A setting for Friday at 14 is due on every tick of Friday's 14th hour and
    on no other; the minute never matters since matching is by hour.
   */
  lemma FridayAtTwoPm(setting: ScheduledSetting, dayIndex: int, hour: int)
    requires 0 <= dayIndex < 7
    requires setting.day == "Friday" && setting.hour == Num(14.0)
    ensures SettingOutput(setting, dayIndex, hour) != [] <==> dayIndex == 5 && hour == 14
  {
    DayNamesDistinct(dayIndex, 5);
  }

  /** An hour stored as text never equals the numeric hour under strict equality. */
  lemma TextHourNeverDue(setting: ScheduledSetting, dayIndex: int, hour: int)
    requires 0 <= dayIndex < 7
    requires setting.hour.Text?
    ensures SettingOutput(setting, dayIndex, hour) == []
  {
  }
}
