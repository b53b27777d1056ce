/**
  The telemetry handler: an inbound bus message `(topic, payload)` becomes a
  reading `(device, measurement, value)` that is applied to the store.
  `parseFloat` is JavaScript's number parser, given as a parameter; `None`
  stands for its `NaN` result.
 */
module Ingest {
  import opened Wrappers
  import opened Types
  import opened Text
  import opened State

  datatype Reading = Reading(device: string, measurement: string, value: Value)

  /**
    The device is topic segment 1 (the key "undefined" when the topic has no
    `/`) and the measurement is segments 2 .. n-2 joined by `_`, empty when
    there are fewer than four segments.
   */
  function ParseTopic(topic: string): (string, string)
  {
    var parts := Split(topic, '/');
    var n := |parts|;
    var device := if n > 1 then parts[1] else "undefined";
    var measurement := if n > 3 then Join(parts[2..n - 1], "_") else "";
    (device, measurement)
  }

  /** A payload is stored as a number when it parses as one and verbatim otherwise. */
  function PayloadValue(payload: string, parseFloat: string -> Option<real>): (v: Value)
    ensures parseFloat(payload).Some? ==> v == Num(parseFloat(payload).value)
    ensures parseFloat(payload).None? ==> v == Text(payload)
  {
    match parseFloat(payload)
    case Some(x) => Num(x)
    case None => Text(payload)
  }

  function ParseMessage(topic: string, payload: string, parseFloat: string -> Option<real>): Reading
  {
    var (device, measurement) := ParseTopic(topic);
    Reading(device, measurement, PayloadValue(payload, parseFloat))
  }

  /**
    A topic built as `prefix/device/seg_1/.../seg_k/suffix` yields `device`
    and the segments joined by `_`: segment 0 and the last segment are
    dropped.
   */
  lemma ParseTopicOfJoin(prefix: string, device: string, segs: seq<string>, suffix: string)
    requires '/' !in prefix && '/' !in device && '/' !in suffix
    requires forall i :: 0 <= i < |segs| ==> '/' !in segs[i]
    ensures ParseTopic(Join([prefix, device] + segs + [suffix], "/")) == (device, Join(segs, "_"))
  {
    var parts := [prefix, device] + segs + [suffix];
    var n := |parts|;
    SlashFreeParts(prefix, device, segs, suffix);
    SplitJoin(parts, '/');
    assert Split(Join(parts, "/"), '/') == parts;
    assert parts[1] == device;
    assert parts[2..n - 1] == segs;
  }

  /** No segment of `prefix/device/segs/suffix` holds a `/`, as `SplitJoin` requires. */
  lemma SlashFreeParts(prefix: string, device: string, segs: seq<string>, suffix: string)
    requires '/' !in prefix && '/' !in device && '/' !in suffix
    requires forall i :: 0 <= i < |segs| ==> '/' !in segs[i]
    ensures var parts := [prefix, device] + segs + [suffix];
      forall i :: 0 <= i < |parts| ==> '/' !in parts[i]
  {
  }

  /** The first and the last topic segment never influence the reading. */
  lemma ParseTopicIgnoresEnds(p1: string, p2: string, device: string, segs: seq<string>, s1: string, s2: string)
    requires '/' !in p1 && '/' !in p2 && '/' !in device && '/' !in s1 && '/' !in s2
    requires forall i :: 0 <= i < |segs| ==> '/' !in segs[i]
    ensures ParseTopic(Join([p1, device] + segs + [s1], "/")) == ParseTopic(Join([p2, device] + segs + [s2], "/"))
  {
    ParseTopicOfJoin(p1, device, segs, s1);
    ParseTopicOfJoin(p2, device, segs, s2);
  }

  /** A two-segment topic `prefix/device` names the device and an empty measurement. */
  lemma ParseTopicTwoSegments(prefix: string, device: string)
    requires '/' !in prefix && '/' !in device
    ensures ParseTopic(Join([prefix, device], "/")) == (device, "")
  {
    SplitJoin([prefix, device], '/');
  }

  /** A topic without `/` is filed under the key "undefined" with an empty measurement. */
  lemma ParseTopicNoSlash(topic: string)
    requires '/' !in topic
    ensures ParseTopic(topic) == ("undefined", "")
  {
    SplitJoin([topic], '/');
  }

  /** After a message is handled, its payload is found where its topic points. */
  lemma IngestThenLookup(s: SystemState, topic: string, payload: string, parseFloat: string -> Option<real>, now: int)
    ensures var r := ParseMessage(topic, payload, parseFloat);
      Lookup(ApplyUpdate(s, r.device, r.measurement, r.value, now), ParseTopic(topic).0, ParseTopic(topic).1)
        == Some(if parseFloat(payload).Some? then Num(parseFloat(payload).value) else Text(payload))
  {
  }

  /**
    The `'message'` handler: parse, then upsert the reading in place and return
    the state-update broadcast.
   */
  method OnMessage(store: StateStore, topic: string, payload: string, parseFloat: string -> Option<real>, now: int)
    returns (note: Output)
    requires store.Valid()
    modifies store
    ensures store.Valid()
    ensures var r := ParseMessage(topic, payload, parseFloat);
      store.Snapshot() == ApplyUpdate(old(store.Snapshot()), r.device, r.measurement, r.value, now)
    ensures note == Notify(StateUpdate(store.Snapshot()))
  {
    var r := ParseMessage(topic, payload, parseFloat);
    note := store.Apply(r.device, r.measurement, r.value, now);
  }
}
