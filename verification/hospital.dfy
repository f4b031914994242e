/** The hospital console: it evaluates every bracelet reading exactly as the
    smartphone does and shows the resulting emergency flag. It keeps no
    readings and writes no log. */
module Hospital {
  import opened Results
  import opened Vitals
  import opened Subscriber
  import Smartphone

  /** The client's state: the filter it subscribes to, whether the form's
      connect hook has been installed (it starts as `None`), and the flag. */
  datatype Console = Console(subscribeTopic: string, hookCallable: bool, emergency: bool)

  /** `MqttClient.__init__`: the subscription topic set to
      `smartbracelet/#` (subscribed on the first accepted connect), no
      callable hook and no emergency. */
  function Init(): (h: Console)
    ensures h.subscribeTopic == BraceletFilter && !h.hookCallable && !h.emergency
  {
    Console(BraceletFilter, false, false)
  }

  /** `set_on_connected_to_form`, done once by the connection form. */
  function InstallHook(h: Console): (r: Console)
    ensures r.hookCallable && r.(hookCallable := h.hookCallable) == h
  {
    h.(hookCallable := true)
  }

  /** `on_connect`: the shared subscriber behaviour with the console's topic. */
  function OnConnect(h: Console, rc: int): (effects: seq<Effect>)
    ensures forall f :: Subscribe(f) in effects <==> rc == 0 && f == h.subscribeTopic
    ensures NotifyForm in effects <==> rc == 0 && h.hookCallable
  {
    Subscriber.OnConnect(rc, h.subscribeTopic, h.hookCallable)
  }

  /** `on_message`, that is `check_emergency_status`: the flag becomes the
      verdict on this message alone; `Err` is the exception `split` or
      `float` raises before the assignment, which leaves the flag as it was. */
  function OnMessage(h: Console, msg: Message): (r: Result<Console, ReadError>)
    ensures r.Err? <==> Evaluate(msg.topic, msg.payload).Err?
    ensures r.Ok? ==> r.value.emergency == Evaluate(msg.topic, msg.payload).value
    ensures r.Ok? ==> r.value.(emergency := h.emergency) == h
  {
    var alert :- Evaluate(msg.topic, msg.payload);
    Ok(h.(emergency := alert))
  }

  /** The console handling messages one after another; the first handler
      exception ends the delivery loop. */
  function Run(h: Console, msgs: seq<Message>): Console
    decreases |msgs|
  {
    if |msgs| == 0 then h
    else
      match OnMessage(h, msgs[0])
      case Err(_) => h
      case Ok(next) => Run(next, msgs[1..])
  }

  /** Starting with the flag clear, a run in which no handled message
      alerts leaves it clear: only an alert ever sets it. */
  lemma {:induction false} QuietRun(h: Console, msgs: seq<Message>)
    requires !h.emergency && Alerts(msgs) == 0
    ensures !Run(h, msgs).emergency
    decreases |msgs|
  {
    if |msgs| > 0 {
      match OnMessage(h, msgs[0])
      case Err(_) =>
      case Ok(next) =>
        QuietRun(next, msgs[1..]);
    }
  }

  /** A message whose handler raises ends the run: the messages after it
      are never handled. */
  lemma {:induction false} RunStops(h: Console, msgs: seq<Message>, i: nat)
    requires i < |msgs| && Evaluate(msgs[i].topic, msgs[i].payload).Err?
    ensures Run(h, msgs) == Run(h, msgs[..i])
    decreases i
  {
    if i > 0 {
      assert msgs[..i][0] == msgs[0];
      if OnMessage(h, msgs[0]).Ok? {
        assert msgs[..i][1..] == msgs[1..][..i - 1];
        RunStops(OnMessage(h, msgs[0]).value, msgs[1..], i - 1);
      }
    }
  }

  /** A fresh console shows no emergency until a reading alerts. */
  lemma QuietFromStart(msgs: seq<Message>)
    requires Alerts(msgs) == 0
    ensures !Run(Init(), msgs).emergency
  {
    QuietRun(Init(), msgs);
  }

  /** The smartphone and the console fed the same messages stop at the same
      message and end with the same flag, whatever else the smartphone
      records. */
  lemma {:induction false} MonitorsAgree(p: Smartphone.Phone, h: Console, arrivals: seq<Smartphone.Arrival>)
    requires p.emergency == h.emergency
    ensures Smartphone.Run(p, arrivals).emergency == Run(h, Smartphone.Messages(arrivals)).emergency
    decreases |arrivals|
  {
    if |arrivals| > 0 {
      var a := arrivals[0];
      var msgs := Smartphone.Messages(arrivals);
      assert msgs[0] == a.msg;
      assert msgs[1..] == Smartphone.Messages(arrivals[1..]);
      match Smartphone.OnMessage(p, a.msg, a.now)
      case Err(_) =>
      case Ok(q) =>
        MonitorsAgree(q, OnMessage(h, a.msg).value, arrivals[1..]);
    }
  }
}
