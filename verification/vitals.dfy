/** What a monitor makes of one bracelet message: which metric the topic
    names, the number in the payload, and whether that number is critical.
    Both monitors (smartphone and hospital console) share this logic. */
module Vitals {
  import opened Results
  import opened Text
  import opened Numbers

  datatype Metric = BodyTemp | HeartRate | Oxygen | Sugar

  /** An MQTT application message as the clients see it: the topic it was
      published under and its payload decoded as text. */
  datatype Message = Message(topic: string, payload: string)

  /** The topic keyword that identifies a metric; a bracelet also uses it
      as the last level of the topic it publishes the metric under. */
  function Keyword(m: Metric): string {
    match m
    case BodyTemp => "body_temp"
    case HeartRate => "heart_rate"
    case Oxygen => "oxygen"
    case Sugar => "sugar"
  }

  /** The label a bracelet writes in front of the value in a payload. */
  function Label(m: Metric): string {
    match m
    case BodyTemp => "Body Temperature"
    case HeartRate => "Heart Rate"
    case Oxygen => "Oxygen Level"
    case Sugar => "Blood Sugar"
  }

  /** A threshold rule: the reading is critical when strictly above, or
      strictly below, the bound. */
  datatype Rule = Above(bound: real) | Below(bound: real)

  const CriticalBodyTemp: real := 39.0
  const CriticalHeartRate: real := 120.0
  const CriticalOxygenLevel: real := 90.0
  const CriticalSugarLevel: real := 200.0

  function RuleOf(m: Metric): Rule {
    match m
    case BodyTemp => Above(CriticalBodyTemp)
    case HeartRate => Above(CriticalHeartRate)
    case Oxygen => Below(CriticalOxygenLevel)
    case Sugar => Above(CriticalSugarLevel)
  }

  /** Python's `x > bound` or `x < bound` on a float: infinities compare as
      the extremes, and every comparison with NaN is false. */
  predicate Violates(rule: Rule, x: Float) {
    match (rule, x)
    case (_, NaN) => false
    case (Above(b), Finite(v)) => v > b
    case (Below(b), Finite(v)) => v < b
    case (Above(_), Infinity(negative)) => !negative
    case (Below(_), Infinity(negative)) => negative
  }

  predicate IsCritical(m: Metric, x: Float) {
    Violates(RuleOf(m), x)
  }

  /** The critical readings of each metric, as the monitors' constants and
      comparisons define them. A reading equal to its bound is not critical. */
  lemma ThresholdTable(v: real)
    ensures IsCritical(BodyTemp, Finite(v)) <==> v > 39.0
    ensures IsCritical(HeartRate, Finite(v)) <==> v > 120.0
    ensures IsCritical(Oxygen, Finite(v)) <==> v < 90.0
    ensures IsCritical(Sugar, Finite(v)) <==> v > 200.0
    ensures !IsCritical(BodyTemp, Finite(39.0)) && !IsCritical(HeartRate, Finite(120.0))
    ensures !IsCritical(Oxygen, Finite(90.0)) && !IsCritical(Sugar, Finite(200.0))
  {
  }

  /** What the non-finite floats do: NaN never alerts, positive infinity
      alerts for every metric with an upper bound, negative infinity only
      for oxygen. */
  lemma NonFiniteReadings(m: Metric)
    ensures !IsCritical(m, NaN)
    ensures IsCritical(m, Infinity(false)) <==> m != Oxygen
    ensures IsCritical(m, Infinity(true)) <==> m == Oxygen
  {
  }

  /** The order in which `check_critical_values` tests the keywords. */
  const EvaluationOrder: seq<Metric> := [BodyTemp, HeartRate, Oxygen, Sugar]
  /** The order in which the smartphone's `on_message` tests them when it
      stores the latest value. */
  const StorageOrder: seq<Metric> := [HeartRate, BodyTemp, Oxygen, Sugar]

  /** No metric of `order` has its keyword in the topic. */
  predicate NoneMatch(order: seq<Metric>, topic: string) {
    forall i :: 0 <= i < |order| ==> !Contains(topic, Keyword(order[i]))
  }

  /** Reference definition: the first metric of `order` whose keyword
      occurs in the topic. */
  function FirstMatch(order: seq<Metric>, topic: string): Option<Metric>
    decreases |order|
  {
    if |order| == 0 then None
    else if Contains(topic, Keyword(order[0])) then Some(order[0])
    else FirstMatch(order[1..], topic)
  }

  /** Nothing matches exactly when no metric of the order has its keyword
      in the topic. */
  lemma {:induction false} FirstMatchNone(order: seq<Metric>, topic: string)
    ensures FirstMatch(order, topic).None? <==> NoneMatch(order, topic)
    decreases |order|
  {
    if |order| > 0 {
      FirstMatchNone(order[1..], topic);
      assert forall i :: 1 <= i < |order| ==> order[i] == order[1..][i - 1];
    }
  }

  /** The match is the metric at the first index whose keyword occurs. */
  lemma {:induction false} FirstMatchIsFirst(order: seq<Metric>, topic: string, i: nat)
    requires i < |order| && Contains(topic, Keyword(order[i]))
    requires NoneMatch(order[..i], topic)
    ensures FirstMatch(order, topic) == Some(order[i])
    decreases i
  {
    if i > 0 {
      assert order[..i][0] == order[0];
      assert order[1..][..i - 1] == order[..i][1..];
      FirstMatchIsFirst(order[1..], topic, i - 1);
    }
  }

  /** The metric a monitor evaluates a message as: the `if`/`elif` chain
      on the topic. */
  function Classify(topic: string): Option<Metric> {
    if Contains(topic, "body_temp") then Some(BodyTemp)
    else if Contains(topic, "heart_rate") then Some(HeartRate)
    else if Contains(topic, "oxygen") then Some(Oxygen)
    else if Contains(topic, "sugar") then Some(Sugar)
    else None
  }

  /** The smartphone slot a message's value is stored in: the same chain
      with heart rate checked before body temperature. */
  function StorageSlot(topic: string): Option<Metric> {
    if Contains(topic, "heart_rate") then Some(HeartRate)
    else if Contains(topic, "body_temp") then Some(BodyTemp)
    else if Contains(topic, "oxygen") then Some(Oxygen)
    else if Contains(topic, "sugar") then Some(Sugar)
    else None
  }

  /** The `if`/`elif` chain of the monitors is the first match in
      evaluation order. */
  lemma ClassifyIsFirstMatch(topic: string)
    ensures Classify(topic) == FirstMatch(EvaluationOrder, topic)
  {
    assert EvaluationOrder[1..] == [HeartRate, Oxygen, Sugar];
    assert EvaluationOrder[1..][1..] == [Oxygen, Sugar];
    assert EvaluationOrder[1..][1..][1..] == [Sugar];
  }

  /** The storage chain is the first match in storage order. */
  lemma StorageSlotIsFirstMatch(topic: string)
    ensures StorageSlot(topic) == FirstMatch(StorageOrder, topic)
  {
    assert StorageOrder[1..] == [BodyTemp, Oxygen, Sugar];
    assert StorageOrder[1..][1..] == [Oxygen, Sugar];
    assert StorageOrder[1..][1..][1..] == [Sugar];
  }

  /** The two chains recognise the same topics, and they disagree exactly
      on topics naming both body temperature and heart rate. */
  lemma ClassifyVersusStorage(topic: string)
    ensures Classify(topic).Some? <==> StorageSlot(topic).Some?
    ensures Classify(topic) != StorageSlot(topic)
      <==> Contains(topic, "body_temp") && Contains(topic, "heart_rate")
  {
  }

  /** The separator between label and number in a payload. */
  const Separator: string := ": "

  /** `payload.split(": ")[1]`: the text after the first separator, up to
      the next one; `None` where Python raises `IndexError`. */
  function ValueText(payload: string): (r: Option<string>)
    ensures r.Some? <==> Contains(payload, Separator)
    ensures r.Some? ==> !Contains(r.value, Separator)
  {
    var parts := Split(payload, Separator);
    SplitPieces(payload, Separator);
    if |parts| >= 2 then Some(parts[1]) else None
  }

  /** A payload built as caption, separator, value yields the value back,
      provided neither part holds the separator. */
  lemma ValueTextOfPayload(caption: string, value: string)
    requires !Contains(caption, Separator) && !Contains(value, Separator)
    ensures ValueText(caption + Separator + value) == Some(value)
  {
    assert Separator[..1] == ":" && Separator[1..] == " ";
    assert Unbordered(Separator);
    SplitJoin([caption, value], Separator);
    assert Join([caption, value], Separator) == caption + Separator + value;
  }

  /** Why a monitor's handler aborts: `IndexError` from a payload without
      the separator, or `ValueError` from `float` on text that is no number. */
  datatype ReadError = MissingSeparator | NotANumber(text: string)

  /** `float(payload.split(": ")[1])`. */
  function ReadValue(payload: string): (r: Result<Float, ReadError>)
    ensures r == Err(MissingSeparator) <==> !Contains(payload, Separator)
    ensures r.Ok? <==> ValueText(payload).Some? && ParseFloat(ValueText(payload).value).Some?
  {
    match ValueText(payload)
    case None => Err(MissingSeparator)
    case Some(text) =>
      match ParseFloat(text)
      case None => Err(NotANumber(text))
      case Some(x) => Ok(x)
  }

  /** The verdict of `check_critical_values` / `check_emergency_status` on
      one message: an unrecognised topic is never critical and its payload
      is not looked at; otherwise the payload's number is compared against
      the recognised metric's rule. */
  function Evaluate(topic: string, payload: string): (r: Result<bool, ReadError>)
    ensures Classify(topic).None? ==> r == Ok(false)
    ensures Classify(topic).Some? ==>
      (r.Err? <==> ReadValue(payload).Err?) &&
      (r.Ok? ==> r.value == IsCritical(Classify(topic).value, ReadValue(payload).value))
  {
    match Classify(topic)
    case None => Ok(false)
    case Some(m) =>
      var x :- ReadValue(payload);
      Ok(IsCritical(m, x))
  }

  /** For a payload carrying a finite number `v`, an alert is raised
      exactly when the first keyword of the evaluation order found in the
      topic is body_temp and `v > 39.0`, heart_rate and `v > 120.0`,
      oxygen and `v < 90.0`, or sugar and `v > 200.0`; a topic with none
      of the keywords never alerts. */
  lemma AlertIff(topic: string, payload: string, v: real)
    requires ReadValue(payload) == Ok(Finite(v))
    ensures FirstMatch(EvaluationOrder, topic).None? ==> Evaluate(topic, payload) == Ok(false)
    ensures Evaluate(topic, payload) == Ok(true) <==>
      || (FirstMatch(EvaluationOrder, topic) == Some(BodyTemp) && v > 39.0)
      || (FirstMatch(EvaluationOrder, topic) == Some(HeartRate) && v > 120.0)
      || (FirstMatch(EvaluationOrder, topic) == Some(Oxygen) && v < 90.0)
      || (FirstMatch(EvaluationOrder, topic) == Some(Sugar) && v > 200.0)
  {
    ClassifyIsFirstMatch(topic);
    ThresholdTable(v);
  }

  /** Every message of the sequence can be handled without an exception. */
  predicate AllRead(msgs: seq<Message>) {
    forall i :: 0 <= i < |msgs| ==> Evaluate(msgs[i].topic, msgs[i].payload).Ok?
  }

  /** The number of alerts among the messages handled before the first one
      that raises. */
  function Alerts(msgs: seq<Message>): nat
    decreases |msgs|
  {
    if |msgs| == 0 then 0
    else
      match Evaluate(msgs[0].topic, msgs[0].payload)
      case Err(_) => 0
      case Ok(alert) => (if alert then 1 else 0) + Alerts(msgs[1..])
  }
}
