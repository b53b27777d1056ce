/**
  The records the engine works on: telemetry values, the state snapshot,
  automation rules, scheduled settings, and what the engine hands to the bus
  (a publish) and to connected observers (a notification).
 */
module Types {

  /** A telemetry or setting value: a number when it parsed as one, the raw text otherwise. */
  datatype Value = Num(n: real) | Text(s: string)

  /** The measurements of one device, by measurement name. */
  type Bucket = map<string, Value>

  /**
    The live snapshot: one bucket per device plus the flat fields mirrored from
    the `total` device and the time of the last update (a timestamp supplied
    by the caller).
   */
  datatype SystemState = SystemState(
    devices: map<string, Bucket>,
    batteryPower: Value,
    batterySOC: Value,
    solarPower: Value,
    gridPower: Value,
    loadPower: Value,
    time: int)

  /** One test of a rule: the named parameter compared against a threshold. */
  datatype Condition = Condition(deviceType: string, parameter: string, operator: string, threshold: Value)

  /** One command of a rule: publish `value` under `key`. */
  datatype Action = Action(key: string, value: Value)

  datatype AutomationRule = AutomationRule(
    id: string,
    name: string,
    conditions: seq<Condition>,
    actions: seq<Action>,
    days: seq<string>)

  /** A setting applied during one hour of one weekday; `hour` is whatever the client stored. */
  datatype ScheduledSetting = ScheduledSetting(
    id: string,
    key: string,
    value: Value,
    day: string,
    hour: Value)

  /** The messages broadcast to observers. */
  datatype Event =
    | StateUpdate(state: SystemState)
    | AutomationRuleTriggered(ruleName: string, ruleActions: seq<Action>)
    | ScheduledSettingApplied(settingKey: string, settingValue: Value)

  /** What the engine emits, in order: a command for the bus or a notification. */
  datatype Output = Publish(topic: string, payload: Value) | Notify(event: Event)

  /** Every outbound command topic starts with this namespace. */
  const TopicPrefix: string := "solar_assistant_DEYE/"

  /** Weekday names indexed by `Date.getDay()`, Sunday first. */
  const DayNames: seq<string> := ["Sunday", "Monday", "Tuesday", "Wednesday", "Thursday", "Friday", "Saturday"]
}
