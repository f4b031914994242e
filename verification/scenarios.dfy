/** Concrete runs of the three clients: a bracelet, whatever its
    identifier, sends readings written with one decimal place, as the
    bracelet's rounding prints them, and the monitors react. */
module Scenarios {
  import opened Results
  import opened Numbers
  import opened Vitals
  import opened EventLog
  import opened Bracelet
  import opened Delivery
  import Smartphone
  import Hospital

  /** The message a bracelet publishes for a reading of metric `m`. */
  function Sent(id: BraceletId, m: Metric, d: Decimal): Message {
    Message(Topic(id, m), Payload(m, d.Render()))
  }

  /** A body temperature of 39.5 alerts, and the block logged for it shows
      the texts from before it, all `N/A`; a heart rate of 70.0 right after
      clears the flag, logs nothing, and the phone now shows both texts. */
  lemma FeverThenCalm(id: BraceletId, now1: string, now2: string)
    ensures var r1 := Smartphone.OnMessage(Smartphone.Init(), Sent(id, BodyTemp, Decimal(false, "39", "5")), now1);
      && r1.Ok? && r1.value.emergency
      && r1.value.log == [Entry(now1, true, Blank)]
      && Get(r1.value.latest, BodyTemp) == "39.5"
      && var r2 := Smartphone.OnMessage(r1.value, Sent(id, HeartRate, Decimal(false, "70", "0")), now2);
      && r2.Ok? && !r2.value.emergency
      && r2.value.log == r1.value.log
      && Get(r2.value.latest, BodyTemp) == "39.5"
      && Get(r2.value.latest, HeartRate) == "70.0"
  {
    var temp := Decimal(false, "39", "5");
    var pulse := Decimal(false, "70", "0");
    assert temp.Render() == "39.5" && temp.Value() == 39.5;
    assert pulse.Render() == "70.0" && pulse.Value() == 70.0;
    ReadingRoundTrip(id, BodyTemp, temp);
    ReadingRoundTrip(id, HeartRate, pulse);
    TopicClassifies(id, BodyTemp);
    TopicClassifies(id, HeartRate);
    DecimalLacksSeparator(temp);
    PayloadValue(BodyTemp, temp.Render());
    DecimalLacksSeparator(pulse);
    PayloadValue(HeartRate, pulse.Render());
  }

  /** A reading exactly at a bound does not alert. */
  lemma AtTheBound(id: BraceletId, now: string)
    ensures Smartphone.OnMessage(Smartphone.Init(), Sent(id, HeartRate, Decimal(false, "120", "0")), now)
      == Ok(Smartphone.Init().(latest := Put(Blank, HeartRate, "120.0")))
  {
    var pulse := Decimal(false, "120", "0");
    assert "120"[..2] == "12" && "12"[..1] == "1";
    assert pulse.Render() == "120.0" && pulse.Value() == 120.0;
    ReadingRoundTrip(id, HeartRate, pulse);
    TopicClassifies(id, HeartRate);
    DecimalLacksSeparator(pulse);
    PayloadValue(HeartRate, pulse.Render());
  }

  /** An oxygen level of 85.0 raises the console's flag. */
  lemma LowOxygenAtHospital(id: BraceletId)
    ensures Hospital.OnMessage(Hospital.Init(), Sent(id, Oxygen, Decimal(false, "85", "0")))
      == Ok(Hospital.Init().(emergency := true))
  {
    var level := Decimal(false, "85", "0");
    assert level.Value() == 85.0;
    ReadingRoundTrip(id, Oxygen, level);
  }

  /** `Heart Rate: abc` on a heart-rate topic aborts the handler. */
  lemma NotANumberPayload(id: BraceletId, p: Smartphone.Phone, now: string)
    ensures Smartphone.OnMessage(p, Message(Topic(id, HeartRate), Payload(HeartRate, "abc")), now)
      == Err(NotANumber("abc"))
  {
    assert ':' in Separator && ':' !in "abc";
    Text.MissingCharacter("abc", Separator, ':');
    PayloadValue(HeartRate, "abc");
    TopicClassifies(id, HeartRate);
    AbcIsNotANumber();
  }

  /** A reading preceded by the control character U+001C is no number:
      `float` does not strip that character, so the handler raises and
      nothing changes. */
  lemma ControlCharacterPayload(id: BraceletId, p: Smartphone.Phone, now: string)
    ensures var text := ['\U{1C}'] + "130";
      Smartphone.OnMessage(p, Message(Topic(id, HeartRate), Payload(HeartRate, text)), now)
        == Err(NotANumber(text))
  {
    var text := ['\U{1C}'] + "130";
    assert ':' in Separator && ':' !in text;
    Text.MissingCharacter(text, Separator, ':');
    PayloadValue(HeartRate, text);
    TopicClassifies(id, HeartRate);
    ControlCharacterIsNoNumber();
  }

  lemma ControlCharacterIsNoNumber()
    ensures ParseFloat(['\U{1C}'] + "130") == None
  {
  }

  lemma AbcIsNotANumber()
    ensures ParseFloat("abc") == None
  {
    StripUnpadded("abc");
    AbcIsNotUnsigned();
  }

  lemma AbcIsNotUnsigned()
    ensures ParseUnsigned("abc") == None
  {
    assert Lower("abc"[0]) != "inf"[0] && Lower("abc"[0]) != "nan"[0];
    assert |"infinity"| != |"abc"|;
    AbcIsNotDecimal();
  }

  lemma AbcIsNotDecimal()
    ensures ParseDecimal("abc") == None
  {
    var s := "abc";
    assert IndexOfAny(s, {'e', 'E'}) == 3;
    assert s[..3] == s;
    assert IndexOfAny(s, {'.'}) == 3;
    assert !IsDigit(s[0]);
  }

  /** Normal body temperature, heart rate and oxygen, then a high sugar
      level, then a normal body temperature again: the flag is up after the
      sugar reading, falls with the next one, and one block is logged in
      all. */
  lemma OnlyTheLatestCounts(id: BraceletId, a0: Smartphone.Arrival, a1: Smartphone.Arrival,
                            a2: Smartphone.Arrival, a3: Smartphone.Arrival, a4: Smartphone.Arrival)
    requires a0.msg == Sent(id, BodyTemp, Decimal(false, "37", "0"))
    requires a1.msg == Sent(id, HeartRate, Decimal(false, "80", "0"))
    requires a2.msg == Sent(id, Oxygen, Decimal(false, "95", "0"))
    requires a3.msg == Sent(id, Sugar, Decimal(false, "250", "0"))
    requires a4.msg == Sent(id, BodyTemp, Decimal(false, "37", "0"))
    ensures Smartphone.Run(Smartphone.Init(), [a0, a1, a2, a3]).emergency
    ensures !Smartphone.Run(Smartphone.Init(), [a0, a1, a2, a3, a4]).emergency
    ensures |Smartphone.Run(Smartphone.Init(), [a0, a1, a2, a3, a4]).log| == 1
  {
    var temp, pulse, level, sugar := Decimal(false, "37", "0"), Decimal(false, "80", "0"),
      Decimal(false, "95", "0"), Decimal(false, "250", "0");
    ReadingTexts();
    ThresholdTable(37.0);
    ThresholdTable(80.0);
    ThresholdTable(95.0);
    ThresholdTable(250.0);
    Calm(a0.msg, id, BodyTemp, temp);
    Calm(a1.msg, id, HeartRate, pulse);
    Calm(a2.msg, id, Oxygen, level);
    Alarm(a3.msg, id, Sugar, sugar);
    Calm(a4.msg, id, BodyTemp, temp);
    AlertOnFourth(a0, a1, a2, a3, a4);
  }

  /** A bracelet message with a normal reading raises no alert. */
  lemma Calm(msg: Message, id: BraceletId, m: Metric, d: Decimal)
    requires d.Valid() && !IsCritical(m, Finite(d.Value())) && msg == Sent(id, m, d)
    ensures Evaluate(msg.topic, msg.payload) == Ok(false)
  {
    ReadingRoundTrip(id, m, d);
  }

  /** A bracelet message with a critical reading raises one. */
  lemma Alarm(msg: Message, id: BraceletId, m: Metric, d: Decimal)
    requires d.Valid() && IsCritical(m, Finite(d.Value())) && msg == Sent(id, m, d)
    ensures Evaluate(msg.topic, msg.payload) == Ok(true)
  {
    ReadingRoundTrip(id, m, d);
  }

  /** Of five readable messages only the fourth alerts: the flag is up
      after it, down after the fifth, and one block is logged. */
  lemma AlertOnFourth(a0: Smartphone.Arrival, a1: Smartphone.Arrival, a2: Smartphone.Arrival,
                      a3: Smartphone.Arrival, a4: Smartphone.Arrival)
    requires Evaluate(a0.msg.topic, a0.msg.payload) == Ok(false)
    requires Evaluate(a1.msg.topic, a1.msg.payload) == Ok(false)
    requires Evaluate(a2.msg.topic, a2.msg.payload) == Ok(false)
    requires Evaluate(a3.msg.topic, a3.msg.payload) == Ok(true)
    requires Evaluate(a4.msg.topic, a4.msg.payload) == Ok(false)
    ensures Smartphone.Run(Smartphone.Init(), [a0, a1, a2, a3]).emergency
    ensures !Smartphone.Run(Smartphone.Init(), [a0, a1, a2, a3, a4]).emergency
    ensures |Smartphone.Run(Smartphone.Init(), [a0, a1, a2, a3, a4]).log| == 1
  {
    var arrivals := [a0, a1, a2, a3, a4];
    var msgs := Smartphone.Messages(arrivals);
    AllReadOfFive(msgs);
    assert arrivals[..4] == [a0, a1, a2, a3];
    assert Smartphone.Messages(arrivals[..4]) == msgs[..4];
    Smartphone.RunEmergency(Smartphone.Init(), arrivals[..4]);
    Smartphone.RunEmergency(Smartphone.Init(), arrivals);
    Smartphone.RunLog(Smartphone.Init(), arrivals);
    AlertsFrom(msgs, 4, false);
    AlertsFrom(msgs, 3, true);
    AlertsFrom(msgs, 2, false);
    AlertsFrom(msgs, 1, false);
    AlertsFrom(msgs, 0, false);
    assert msgs[0..] == msgs;
  }

  /** Five readable messages, and so are their first four. */
  lemma AllReadOfFive(msgs: seq<Message>)
    requires |msgs| == 5
    requires forall i :: 0 <= i < 5 ==> Evaluate(msgs[i].topic, msgs[i].payload).Ok?
    ensures AllRead(msgs) && AllRead(msgs[..4])
  {
  }

  /** Counting alerts from index `i` on: the verdict at `i` plus the count
      after it. */
  lemma AlertsFrom(msgs: seq<Message>, i: nat, alert: bool)
    requires i < |msgs| && Evaluate(msgs[i].topic, msgs[i].payload) == Ok(alert)
    ensures Alerts(msgs[i..]) == (if alert then 1 else 0) + Alerts(msgs[i + 1..])
  {
    assert msgs[i..][0] == msgs[i];
    assert msgs[i..][1..] == msgs[i + 1..];
  }

  /** The texts the bracelet prints for the readings above. */
  lemma ReadingTexts()
    ensures Decimal(false, "37", "0").Valid() && Decimal(false, "37", "0").Value() == 37.0
    ensures Decimal(false, "80", "0").Valid() && Decimal(false, "80", "0").Value() == 80.0
    ensures Decimal(false, "95", "0").Valid() && Decimal(false, "95", "0").Value() == 95.0
    ensures Decimal(false, "250", "0").Valid() && Decimal(false, "250", "0").Value() == 250.0
  {
    assert "250"[..2] == "25" && "25"[..1] == "2";
  }

  /** A reading sent by the bracelet is always handled, sets the flag to
      its own verdict and adds one block exactly when it is critical. */
  lemma Handles(id: BraceletId, p: Smartphone.Phone, m: Metric, d: Decimal, now: string)
    requires d.Valid()
    ensures var r := Smartphone.OnMessage(p, Sent(id, m, d), now);
      && r.Ok?
      && (r.value.emergency <==> IsCritical(m, Finite(d.Value())))
      && |r.value.log| == |p.log| + (if IsCritical(m, Finite(d.Value())) then 1 else 0)
  {
    ReadingRoundTrip(id, m, d);
  }

  /** A bracelet that has not connected publishes nothing on a tick. */
  lemma TickBeforeConnect(id: BraceletId, v: Readings)
    ensures UpdateData(Init(id), v).outbox == []
  {
  }
}
