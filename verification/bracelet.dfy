/** The smart bracelet: it publishes one reading of each metric on every
    timer tick, under topics built from its random identifier, but only
    once a connection has been accepted. */
module Bracelet {
  import opened Text
  import opened Numbers
  import opened Vitals
  import opened Subscriber

  /** `random.randrange(1, 100)`: an identifier from 1 to 99. */
  type BraceletId = n: int | 1 <= n <= 99 witness 1

  /** `smartbracelet/<id>/<keyword>`, the topic a metric is published under. */
  function Topic(id: BraceletId, m: Metric): string {
    TopicRoot + LevelSeparator + NatToString(id) + LevelSeparator + Keyword(m)
  }

  /** `"<label>: <value>"`, the payload carrying a reading's text. Every
      payload holds the separator, so the monitors' `split(": ")[1]` never
      fails on it. */
  function Payload(m: Metric, text: string): (r: string)
    ensures Contains(r, Separator)
    ensures ValueText(r).Some?
  {
    var r := Label(m) + Separator + text;
    assert r[|Label(m)|..|Label(m)| + |Separator|] == Separator;
    assert OccursAt(r, Separator, |Label(m)|);
    ContainsOccurs(r, Separator);
    r
  }

  /** The value texts one tick produces, `str(round(random.uniform(...), 2))`
      for each metric; they are inputs to the model. */
  datatype Readings = Readings(bodyTemp: string, heartRate: string, oxygen: string, sugar: string)

  function Reading(v: Readings, m: Metric): string {
    match m
    case BodyTemp => v.bodyTemp
    case HeartRate => v.heartRate
    case Oxygen => v.oxygen
    case Sugar => v.sugar
  }

  /** The script's state: its identifier, the global `CONNECTED`, whether
      the form's connect hook is installed (it starts as `''`), and the
      messages handed to `client.publish` so far. */
  datatype Device = Device(id: BraceletId, connected: bool, hookCallable: bool, outbox: seq<Message>)

  /** The script at start-up: `CONNECTED` is `False`, no hook is installed
      and nothing has been published. */
  function Init(id: BraceletId): (d: Device)
    ensures d.id == id && !d.connected && !d.hookCallable && d.outbox == []
  {
    Device(id, false, false, [])
  }

  /** `set_on_connected_to_form`, which the connection form calls when it
      is built, before any connection is attempted. */
  function InstallHook(d: Device): (r: Device)
    ensures r.hookCallable && r.(hookCallable := d.hookCallable) == d
  {
    d.(hookCallable := true)
  }

  /** The script as its window leaves it before the first connect: the
      hook is installed, so an accepted connection never fails on it. */
  function Started(id: BraceletId): (d: Device)
    ensures d.id == id && !d.connected && d.outbox == []
    ensures forall rc :: !OnConnect(d, rc).hookFailed
  {
    InstallHook(Init(id))
  }

  /** The outcome of `on_connect`: the new state, and whether calling the
      hook raised `TypeError` because it was never installed. */
  datatype Handled = Handled(device: Device, hookFailed: bool)

  /** `on_connect`: an accepted connection sets `CONNECTED` and then calls
      the hook without checking that it is callable; a refused one changes
      nothing. `CONNECTED` is assigned before the call, so a failing hook
      does not undo it. */
  function OnConnect(d: Device, rc: int): (r: Handled)
    ensures r.device.connected <==> d.connected || rc == 0
    ensures r.device.(connected := d.connected) == d
    ensures r.hookFailed <==> rc == 0 && !d.hookCallable
  {
    if rc == 0 then Handled(d.(connected := true), !d.hookCallable) else Handled(d, false)
  }

  /** `on_disconnect` only prints: `CONNECTED` stays as it was. */
  function OnDisconnect(d: Device, rc: int): Device {
    d
  }

  /** `publish_to`: hands the message to the client when `CONNECTED`,
      otherwise drops it. */
  function PublishTo(d: Device, topic: string, payload: string): (r: Device)
    ensures r.(outbox := d.outbox) == d
    ensures d.connected ==> r.outbox == d.outbox + [Message(topic, payload)]
    ensures !d.connected ==> r.outbox == d.outbox
  {
    if d.connected then d.(outbox := d.outbox + [Message(topic, payload)]) else d
  }

  /** The message of one metric in a tick. */
  function MessageOf(id: BraceletId, v: Readings, m: Metric): Message {
    Message(Topic(id, m), Payload(m, Reading(v, m)))
  }

  /** The messages of one tick, one per metric. */
  function TickMessages(id: BraceletId, v: Readings): seq<Message> {
    [MessageOf(id, v, BodyTemp), MessageOf(id, v, HeartRate),
     MessageOf(id, v, Oxygen), MessageOf(id, v, Sugar)]
  }

  /** A tick publishes the four metrics in the order the monitors test
      them: body temperature, heart rate, oxygen, sugar. */
  lemma TickOrder(id: BraceletId, v: Readings)
    ensures |TickMessages(id, v)| == |EvaluationOrder|
    ensures forall i :: 0 <= i < |EvaluationOrder| ==>
      TickMessages(id, v)[i] == MessageOf(id, v, EvaluationOrder[i])
  {
  }

  /** `update_data`: four publishes, body temperature, heart rate, oxygen,
      sugar; all four are sent when connected and none otherwise. */
  function UpdateData(d: Device, v: Readings): (r: Device)
    ensures r.(outbox := d.outbox) == d
    ensures r.outbox == d.outbox + (if d.connected then TickMessages(d.id, v) else [])
  {
    var d1 := PublishTo(d, Topic(d.id, BodyTemp), Payload(BodyTemp, v.bodyTemp));
    var d2 := PublishTo(d1, Topic(d.id, HeartRate), Payload(HeartRate, v.heartRate));
    var d3 := PublishTo(d2, Topic(d.id, Oxygen), Payload(Oxygen, v.oxygen));
    PublishTo(d3, Topic(d.id, Sugar), Payload(Sugar, v.sugar))
  }

  /** What reaches the script: a connect result, a disconnect, or a tick of
      the update timer with the tick's readings. */
  datatype Event = Connack(rc: int) | Disconnect(rc: int) | Tick(readings: Readings)

  function Step(d: Device, e: Event): Device {
    match e
    case Connack(rc) => OnConnect(d, rc).device
    case Disconnect(rc) => OnDisconnect(d, rc)
    case Tick(v) => UpdateData(d, v)
  }

  function Apply(d: Device, events: seq<Event>): Device
    decreases |events|
  {
    if |events| == 0 then d else Apply(Step(d, events[0]), events[1..])
  }

  /** `CONNECTED` holds after a sequence of events exactly when it held
      before or some connect result among them was 0: a refused connect or
      a disconnect never clears it. */
  lemma {:induction false} ConnectedIff(d: Device, events: seq<Event>)
    ensures Apply(d, events).connected <==>
      d.connected || exists i :: 0 <= i < |events| && events[i] == Connack(0)
    decreases |events|
  {
    if |events| > 0 {
      var rest := events[1..];
      ConnectedIff(Step(d, events[0]), rest);
      assert forall i :: 0 <= i < |rest| ==> rest[i] == events[i + 1];
      if exists i :: 0 <= i < |events| && events[i] == Connack(0) {
        var i :| 0 <= i < |events| && events[i] == Connack(0);
        if i > 0 {
          assert rest[i - 1] == Connack(0);
        }
      }
    }
  }

  /** The identifier never changes and messages are only ever added. */
  lemma {:induction false} OutboxGrows(d: Device, events: seq<Event>)
    ensures Apply(d, events).id == d.id
    ensures |Apply(d, events).outbox| >= |d.outbox|
    ensures Apply(d, events).outbox[..|d.outbox|] == d.outbox
    decreases |events|
  {
    if |events| > 0 {
      var next := Step(d, events[0]);
      OutboxGrows(next, events[1..]);
      assert next.outbox[..|d.outbox|] == d.outbox;
    }
  }

  /** Until a connection is accepted nothing is published, however many
      ticks pass. */
  lemma {:induction false} SilentUntilConnected(d: Device, events: seq<Event>)
    requires !d.connected
    requires forall i :: 0 <= i < |events| ==> events[i] != Connack(0)
    ensures Apply(d, events).outbox == d.outbox
    decreases |events|
  {
    if |events| > 0 {
      var next := Step(d, events[0]);
      assert !next.connected && next.outbox == d.outbox;
      SilentUntilConnected(next, events[1..]);
    }
  }
}
