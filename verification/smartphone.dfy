/** The smartphone monitor: it evaluates every bracelet reading, raises or
    clears its emergency flag, appends a log block whenever a reading is
    critical, and keeps the latest text of each metric. */
module Smartphone {
  import opened Results
  import opened Numbers
  import opened Vitals
  import opened EventLog
  import opened Subscriber

  /** The client's state: the filter it subscribes to, whether the form's
      connect hook has been installed (the attribute starts as the string
      `''`, which is not callable), the emergency flag, the latest metric
      texts and the blocks written to the log file so far. */
  datatype Phone = Phone(
    subscribeTopic: string,
    hookCallable: bool,
    emergency: bool,
    latest: Snapshot,
    log: seq<Entry>)

  /** `MqttClient.__init__` with nothing logged yet: the subscription topic
      set to `smartbracelet/#` (subscribed on the first accepted connect),
      no callable hook, no emergency, every text `N/A`, and already
      satisfying the stored-text invariant. */
  function Init(): (p: Phone)
    ensures p.subscribeTopic == BraceletFilter && !p.hookCallable
    ensures !p.emergency && p.log == []
    ensures forall m :: Get(p.latest, m) == Unknown
    ensures Valid(p)
  {
    Phone(BraceletFilter, false, false, Blank, [])
  }

  /** `set_on_connected_to_form`, done once by the connection form. */
  function InstallHook(p: Phone): (r: Phone)
    ensures r.hookCallable && r.(hookCallable := p.hookCallable) == p
  {
    p.(hookCallable := true)
  }

  /** `on_connect`: the shared subscriber behaviour with the phone's topic. */
  function OnConnect(p: Phone, rc: int): (effects: seq<Effect>)
    ensures forall f :: Subscribe(f) in effects <==> rc == 0 && f == p.subscribeTopic
    ensures NotifyForm in effects <==> rc == 0 && p.hookCallable
  {
    Subscriber.OnConnect(rc, p.subscribeTopic, p.hookCallable)
  }

  /** `save_logs`: one block with the time `now` (the formatted
      `datetime.now()`), the current flag and the current texts is added
      to the log file. Nothing else changes. */
  function SaveLogs(p: Phone, now: string): (q: Phone)
    ensures q.(log := p.log) == p
    ensures LogText(q.log) == LogText(p.log) + Render(Entry(now, p.emergency, p.latest))
  {
    var e := Entry(now, p.emergency, p.latest);
    LogTextConcat(p.log, [e]);
    LogTextSingle(e);
    p.(log := p.log + [e])
  }

  /** `MainWindow.update_emergency_status`: besides the label, it saves the
      logs whenever the flag is set, so every alert writes a block. */
  function UpdateEmergencyStatus(p: Phone, now: string): (q: Phone)
    ensures q.(log := p.log) == p
    ensures p.emergency ==> q.log == p.log + [Entry(now, true, p.latest)]
    ensures !p.emergency ==> q.log == p.log
  {
    if p.emergency then SaveLogs(p, now) else p
  }

  /** The second half of `on_message`: the value text goes to the slot the
      heart-rate-first chain picks; `Err` where `split(": ")[1]` raises. */
  function Store(p: Phone, topic: string, payload: string): (r: Result<Phone, ReadError>)
    ensures r.Err? <==> StorageSlot(topic).Some? && ValueText(payload).None?
    ensures r.Ok? ==> r.value.(latest := p.latest) == p
    ensures r.Ok? && StorageSlot(topic).None? ==> r.value.latest == p.latest
    ensures r.Ok? && StorageSlot(topic).Some? ==>
      r.value.latest == Put(p.latest, StorageSlot(topic).value, ValueText(payload).value)
  {
    match StorageSlot(topic)
    case None => Ok(p)
    case Some(m) =>
      match ValueText(payload)
      case None => Err(MissingSeparator)
      case Some(text) => Ok(p.(latest := Put(p.latest, m, text)))
  }

  /** `on_message` for a message received at time `now`: evaluate (and set
      the flag, and log on an alert), then store the value text. `Err` is
      the exception that escapes the handler, and then nothing was assigned.
      After a handled message the flag is that message's verdict alone; a
      block holding the texts from before the message is logged exactly
      when the verdict is an alert; only the slot the storage chain picks
      changes, to the payload's value text; the settings stay. */
  function OnMessage(p: Phone, msg: Message, now: string): (r: Result<Phone, ReadError>)
    ensures r.Err? <==> Evaluate(msg.topic, msg.payload).Err?
    ensures r.Err? ==> r.error == Evaluate(msg.topic, msg.payload).error
    ensures r.Ok? ==> r.value.emergency == Evaluate(msg.topic, msg.payload).value
    ensures r.Ok? && r.value.emergency ==> r.value.log == p.log + [Entry(now, true, p.latest)]
    ensures r.Ok? && !r.value.emergency ==> r.value.log == p.log
    ensures r.Ok? && StorageSlot(msg.topic).None? ==> r.value.latest == p.latest
    ensures r.Ok? && StorageSlot(msg.topic).Some? ==>
      r.value.latest == Put(p.latest, StorageSlot(msg.topic).value, ValueText(msg.payload).value)
    ensures r.Ok? ==> r.value.subscribeTopic == p.subscribeTopic
    ensures r.Ok? ==> r.value.hookCallable == p.hookCallable
  {
    var alert :- Evaluate(msg.topic, msg.payload);
    ClassifyVersusStorage(msg.topic);
    var flagged := UpdateEmergencyStatus(p.(emergency := alert), now);
    Store(flagged, msg.topic, msg.payload)
  }

  /** A topic naming no metric clears the flag and changes nothing else,
      whatever the payload. */
  lemma UnmatchedTopic(p: Phone, msg: Message, now: string)
    requires Classify(msg.topic).None?
    ensures OnMessage(p, msg, now) == Ok(p.(emergency := false))
  {
    ClassifyVersusStorage(msg.topic);
  }

  /** A payload that cannot be read on a recognised topic aborts the handler
      before anything is assigned: flag, texts and log stay as they were. */
  lemma MalformedPayload(p: Phone, msg: Message, now: string)
    requires Classify(msg.topic).Some? && ReadValue(msg.payload).Err?
    ensures OnMessage(p, msg, now) == Err(ReadValue(msg.payload).error)
  {
  }

  /** Every stored text is either the initial `N/A` or a text `float`
      accepts, because the smartphone only stores a text it has just parsed. */
  predicate Valid(p: Phone) {
    forall m :: Get(p.latest, m) == Unknown || ParseFloat(Get(p.latest, m)).Some?
  }

  lemma {:induction false} OnMessageValid(p: Phone, msg: Message, now: string)
    requires Valid(p)
    ensures OnMessage(p, msg, now).Ok? ==> Valid(OnMessage(p, msg, now).value)
  {
    if OnMessage(p, msg, now).Err? {
      return;
    }
    var q := OnMessage(p, msg, now).value;
    ClassifyVersusStorage(msg.topic);
    if StorageSlot(msg.topic).Some? {
      var m := StorageSlot(msg.topic).value;
      var text := ValueText(msg.payload).value;
      assert ReadValue(msg.payload).Ok?;
      assert ParseFloat(text).Some?;
      forall k
        ensures Get(q.latest, k) == Unknown || ParseFloat(Get(q.latest, k)).Some?
      {
        if k != m {
          assert Get(q.latest, k) == Get(p.latest, k);
        }
      }
    }
  }

  /** A message together with the time the handler runs for it. */
  datatype Arrival = Arrival(msg: Message, now: string)

  /** The messages of a sequence of arrivals. */
  function Messages(arrivals: seq<Arrival>): (msgs: seq<Message>)
    ensures |msgs| == |arrivals|
    ensures forall i :: 0 <= i < |arrivals| ==> msgs[i] == arrivals[i].msg
  {
    seq(|arrivals|, i requires 0 <= i < |arrivals| => arrivals[i].msg)
  }

  /** The client handling messages one after another. The first handler
      exception ends the network loop that delivers messages, so the state
      it leaves is final. */
  function Run(p: Phone, arrivals: seq<Arrival>): Phone
    decreases |arrivals|
  {
    if |arrivals| == 0 then p
    else
      match OnMessage(p, arrivals[0].msg, arrivals[0].now)
      case Err(_) => p
      case Ok(q) => Run(q, arrivals[1..])
  }

  /** A message whose handler raises ends the run: whatever follows it is
      never handled, so the run ends as the run of the messages before it. */
  lemma {:induction false} RunStops(p: Phone, arrivals: seq<Arrival>, i: nat)
    requires i < |arrivals|
    requires Evaluate(arrivals[i].msg.topic, arrivals[i].msg.payload).Err?
    ensures Run(p, arrivals) == Run(p, arrivals[..i])
    decreases i
  {
    if i > 0 {
      var a := arrivals[0];
      assert arrivals[..i][0] == a;
      if OnMessage(p, a.msg, a.now).Ok? {
        assert arrivals[..i][1..] == arrivals[1..][..i - 1];
        RunStops(OnMessage(p, a.msg, a.now).value, arrivals[1..], i - 1);
      }
    }
  }

  /** When every message is read, the flag afterwards is the verdict on the
      last message; earlier alerts leave no trace in it. */
  lemma {:induction false} RunEmergency(p: Phone, arrivals: seq<Arrival>)
    requires |arrivals| > 0 && AllRead(Messages(arrivals))
    ensures var last := arrivals[|arrivals| - 1].msg;
      Run(p, arrivals).emergency == Evaluate(last.topic, last.payload).value
    decreases |arrivals|
  {
    var a := arrivals[0];
    assert Evaluate(Messages(arrivals)[0].topic, Messages(arrivals)[0].payload).Ok?;
    if |arrivals| > 1 {
      var q := OnMessage(p, a.msg, a.now).value;
      var rest := arrivals[1..];
      assert forall i :: 0 <= i < |rest| ==> Messages(rest)[i] == Messages(arrivals)[i + 1];
      RunEmergency(q, rest);
    }
  }

  /** The log only grows, and by one block per alert handled. */
  lemma {:induction false} RunLog(p: Phone, arrivals: seq<Arrival>)
    ensures |Run(p, arrivals).log| == |p.log| + Alerts(Messages(arrivals))
    ensures Run(p, arrivals).log[..|p.log|] == p.log
    decreases |arrivals|
  {
    if |arrivals| > 0 {
      var a := arrivals[0];
      var msgs := Messages(arrivals);
      assert msgs[0] == a.msg;
      assert msgs[1..] == Messages(arrivals[1..]);
      if OnMessage(p, a.msg, a.now).Ok? {
        var q := OnMessage(p, a.msg, a.now).value;
        RunLog(q, arrivals[1..]);
        assert q.log[..|p.log|] == p.log;
      }
    }
  }

  /** Running from a valid state keeps it valid. */
  lemma {:induction false} RunValid(p: Phone, arrivals: seq<Arrival>)
    requires Valid(p)
    ensures Valid(Run(p, arrivals))
    decreases |arrivals|
  {
    if |arrivals| > 0 {
      var a := arrivals[0];
      if OnMessage(p, a.msg, a.now).Ok? {
        OnMessageValid(p, a.msg, a.now);
        RunValid(OnMessage(p, a.msg, a.now).value, arrivals[1..]);
      }
    }
  }
}
