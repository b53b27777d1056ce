/**
  The state store: the latest value per (device, measurement), with five
  flat fields mirrored from the `total` device.
 */
module State {
  import opened Wrappers
  import opened Types

  /** The store at process start: four empty device buckets and zero scalars. */
  function Initial(startTime: int): (s: SystemState)
    ensures s.devices.Keys == {"inverter_1", "inverter_2", "battery_1", "total"}
    ensures forall d :: d in s.devices ==> s.devices[d] == map[]
    ensures s.batteryPower == s.batterySOC == s.solarPower == s.gridPower == s.loadPower == Num(0.0)
  {
    SystemState(
      map["inverter_1" := map[], "inverter_2" := map[], "battery_1" := map[], "total" := map[]],
      Num(0.0), Num(0.0), Num(0.0), Num(0.0), Num(0.0),
      startTime)
  }

  /** The value stored for `measurement` of `device`, if any. */
  function Lookup(s: SystemState, device: string, measurement: string): Option<Value>
  {
    if device in s.devices && measurement in s.devices[device]
    then Some(s.devices[device][measurement]) else None
  }

  /** The `total` measurements that are mirrored into flat fields. */
  const MirroredMeasurements: set<string> :=
    {"battery_power", "battery_state_of_charge", "grid_power", "load_power", "pv_power"}

  /** The flat field that mirrors `total.<measurement>`, if there is one. */
  function Mirror(s: SystemState, measurement: string): (r: Option<Value>)
    ensures r.Some? <==> measurement in MirroredMeasurements
  {
    if measurement == "battery_power" then Some(s.batteryPower)
    else if measurement == "battery_state_of_charge" then Some(s.batterySOC)
    else if measurement == "grid_power" then Some(s.gridPower)
    else if measurement == "load_power" then Some(s.loadPower)
    else if measurement == "pv_power" then Some(s.solarPower)
    else None
  }

  /** The five mirrored scalars, together. */
  function Scalars(s: SystemState): (Value, Value, Value, Value, Value)
  {
    (s.batteryPower, s.batterySOC, s.solarPower, s.gridPower, s.loadPower)
  }

  /** Every mirrored flat field equals the `total` entry it mirrors, once that entry exists. */
  predicate MirrorConsistent(s: SystemState)
  {
    forall m :: Lookup(s, "total", m).Some? && m in MirroredMeasurements ==>
      Mirror(s, m) == Lookup(s, "total", m)
  }

  /**
    One telemetry update: store `value` under `device`/`measurement`,
    creating the bucket when absent, stamp the time and, for the `total`
    device, copy a mirrored measurement into its flat field.
   */
  function ApplyUpdate(s: SystemState, device: string, measurement: string, value: Value, now: int): (s': SystemState)
    ensures Lookup(s', device, measurement) == Some(value)
    ensures s'.devices.Keys == s.devices.Keys + {device}
    ensures forall d, m :: (d, m) != (device, measurement) ==> Lookup(s', d, m) == Lookup(s, d, m)
    ensures s'.time == now
  {
    var bucket := if device in s.devices then s.devices[device] else map[];
    var stored := s.(devices := s.devices[device := bucket[measurement := value]], time := now);
    if device != "total" then stored
    else if measurement == "battery_power" then stored.(batteryPower := value)
    else if measurement == "battery_state_of_charge" then stored.(batterySOC := value)
    else if measurement == "grid_power" then stored.(gridPower := value)
    else if measurement == "load_power" then stored.(loadPower := value)
    else if measurement == "pv_power" then stored.(solarPower := value)
    else stored
  }

  /** A mirrored `total` measurement sets its flat field to the new value. */
  lemma ApplyMirrorsTotal(s: SystemState, measurement: string, value: Value, now: int)
    requires measurement in MirroredMeasurements
    ensures Mirror(ApplyUpdate(s, "total", measurement, value, now), measurement) == Some(value)
    ensures forall m :: m != measurement ==>
      Mirror(ApplyUpdate(s, "total", measurement, value, now), m) == Mirror(s, m)
  {
  }

  /** Any other device or measurement leaves all five flat fields as they were. */
  lemma ApplyKeepsScalars(s: SystemState, device: string, measurement: string, value: Value, now: int)
    requires device != "total" || measurement !in MirroredMeasurements
    ensures Scalars(ApplyUpdate(s, device, measurement, value, now)) == Scalars(s)
  {
  }

  /** Updates keep every flat field equal to the `total` entry it mirrors. */
  lemma ApplyPreservesMirror(s: SystemState, device: string, measurement: string, value: Value, now: int)
    requires MirrorConsistent(s)
    ensures MirrorConsistent(ApplyUpdate(s, device, measurement, value, now))
  {
  }

  /** Storing 123.4 as `total.battery_power` sets both the entry and the flat `batteryPower`. */
  lemma BatteryPowerExample(s: SystemState, now: int)
    ensures var s' := ApplyUpdate(s, "total", "battery_power", Num(123.4), now);
      Lookup(s', "total", "battery_power") == Some(Num(123.4)) && s'.batteryPower == Num(123.4)
  {
  }

  /** The store starts consistent: no `total` entry exists yet. */
  lemma InitialConsistent(startTime: int)
    ensures MirrorConsistent(Initial(startTime))
  {
  }

  /** Writing a value and then reading it back through any later unrelated write still finds it. */
  lemma ApplyThenOther(s: SystemState, d1: string, m1: string, v1: Value, d2: string, m2: string, v2: Value, t1: int, t2: int)
    requires (d1, m1) != (d2, m2)
    ensures Lookup(ApplyUpdate(ApplyUpdate(s, d1, m1, v1, t1), d2, m2, v2, t2), d1, m1) == Some(v1)
  {
  }

  /**
    The in-memory store the telemetry handler mutates. `Snapshot()` is the
    value that observers receive after each update.
   */
  class StateStore {
    var devices: map<string, Bucket>
    var batteryPower: Value
    var batterySOC: Value
    var solarPower: Value
    var gridPower: Value
    var loadPower: Value
    var time: int

    function Snapshot(): SystemState
      reads this
    {
      SystemState(devices, batteryPower, batterySOC, solarPower, gridPower, loadPower, time)
    }

    predicate Valid()
      reads this
    {
      MirrorConsistent(Snapshot())
    }

    constructor (startTime: int)
      ensures Valid()
      ensures Snapshot() == Initial(startTime)
    {
      var s := Initial(startTime);
      devices := s.devices;
      batteryPower, batterySOC, solarPower, gridPower, loadPower := s.batteryPower, s.batterySOC, s.solarPower, s.gridPower, s.loadPower;
      time := s.time;
      InitialConsistent(startTime);
    }

    /** Upsert one reading in place and return the state-update broadcast. */
    method Apply(deviceType: string, measurement: string, value: Value, now: int) returns (note: Output)
      requires Valid()
      modifies this
      ensures Valid()
      ensures Snapshot() == ApplyUpdate(old(Snapshot()), deviceType, measurement, value, now)
      ensures note == Notify(StateUpdate(Snapshot()))
    {
      ghost var before := Snapshot();
      if deviceType !in devices {
        devices := devices[deviceType := map[]];
      }
      devices := devices[deviceType := devices[deviceType][measurement := value]];
      time := now;
      ghost var bucket := if deviceType in before.devices then before.devices[deviceType] else map[];
      assert devices == before.devices[deviceType := bucket[measurement := value]];

      if deviceType == "total" {
        if measurement == "battery_power" {
          batteryPower := value;
        } else if measurement == "battery_state_of_charge" {
          batterySOC := value;
        } else if measurement == "grid_power" {
          gridPower := value;
        } else if measurement == "load_power" {
          loadPower := value;
        } else if measurement == "pv_power" {
          solarPower := value;
        }
      }

      assert Snapshot() == ApplyUpdate(before, deviceType, measurement, value, now);
      ApplyPreservesMirror(before, deviceType, measurement, value, now);
      note := Notify(StateUpdate(Snapshot()));
    }
  }
}
