/** What happens to a bracelet's readings at the monitors: every topic a
    bracelet publishes under passes the monitors' subscription and is
    classified as the metric it carries, and the payload's value text
    comes back out unchanged and is read as the number it denotes. */
module Delivery {
  import opened Results
  import opened Text
  import opened Numbers
  import opened Vitals
  import opened Subscriber
  import opened Bracelet

  /** The identifier's decimal digits hold no slash. */
  lemma DigitsHaveNoSlash(s: string)
    requires AllDigits(s)
    ensures '/' !in s
  {
  }

  /** A bracelet topic consists of exactly three levels. */
  lemma TopicLevels(id: BraceletId, m: Metric)
    ensures Levels(Topic(id, m)) == [TopicRoot, NatToString(id), Keyword(m)]
  {
    DigitsHaveNoSlash(NatToString(id));
    assert '/' !in TopicRoot && '/' !in Keyword(m);
    SplitTriple(TopicRoot, NatToString(id), Keyword(m), '/');
  }

  /** Different bracelets, or different metrics, never share a topic: the
      topic determines both the identifier and the metric. */
  lemma TopicInjective(id1: BraceletId, m1: Metric, id2: BraceletId, m2: Metric)
    ensures Topic(id1, m1) == Topic(id2, m2) <==> id1 == id2 && m1 == m2
  {
    if Topic(id1, m1) == Topic(id2, m2) {
      TopicLevels(id1, m1);
      TopicLevels(id2, m2);
      var l1 := [TopicRoot, NatToString(id1), Keyword(m1)];
      var l2 := [TopicRoot, NatToString(id2), Keyword(m2)];
      assert l1[1] == l2[1] && l1[2] == l2[2];
      assert |Keyword(m1)| == |Keyword(m2)|;
    }
  }

  /** Every topic a bracelet publishes under passes the monitors'
      `smartbracelet/#` subscription. */
  lemma TopicSubscribed(id: BraceletId, m: Metric)
    ensures Matches(BraceletFilter, Topic(id, m))
  {
    TopicLevels(id, m);
    BraceletFilterMatches(Topic(id, m));
  }

  /** The text in front of the keyword in a bracelet topic. */
  function TopicPrefix(id: BraceletId): string {
    TopicRoot + LevelSeparator + NatToString(id) + LevelSeparator
  }

  /** A character of each keyword that a topic prefix never holds. */
  function PrefixMark(k: Metric): char {
    match k
    case BodyTemp => '_'
    case HeartRate => '_'
    case Oxygen => 'o'
    case Sugar => 'u'
  }

  /** A character of each keyword that no other keyword holds. */
  function KeywordMark(k: Metric): char {
    match k
    case BodyTemp => 'b'
    case HeartRate => 'h'
    case Oxygen => 'x'
    case Sugar => 's'
  }

  lemma NotADigit(s: string, c: char)
    requires AllDigits(s) && !IsDigit(c)
    ensures c !in s
  {
  }

  lemma PrefixLacksKeyword(id: BraceletId, k: Metric)
    ensures !Contains(TopicPrefix(id), Keyword(k))
  {
    var c := PrefixMark(k);
    assert c in Keyword(k);
    assert c !in TopicRoot && c !in LevelSeparator;
    NotADigit(NatToString(id), c);
    MissingCharacter(TopicPrefix(id), Keyword(k), c);
  }

  /** No keyword occurs inside another. */
  lemma KeywordContains(m: Metric, k: Metric)
    ensures Contains(Keyword(m), Keyword(k)) <==> k == m
  {
    if k == m {
      ContainsItself(Keyword(k));
    } else {
      assert KeywordMark(k) in Keyword(k) && KeywordMark(k) !in Keyword(m);
      MissingCharacter(Keyword(m), Keyword(k), KeywordMark(k));
    }
  }

  /** The topic of a metric names that metric and no other, because the
      prefix holds none of the keywords and ends with a slash, which no
      keyword holds. */
  lemma TopicNamesOnlyItsMetric(id: BraceletId, m: Metric, k: Metric)
    ensures Contains(Topic(id, m), Keyword(k)) <==> k == m
  {
    var p := TopicPrefix(id);
    assert Topic(id, m) == p + Keyword(m);
    assert p[|p| - 1] == '/' && '/' !in Keyword(k);
    PrefixLacksKeyword(id, k);
    ContainsAcrossBoundary(p, Keyword(m), Keyword(k));
    KeywordContains(m, k);
  }

  /** Both monitors' chains classify a bracelet topic as the metric
      published under it, whatever the identifier. */
  lemma TopicClassifies(id: BraceletId, m: Metric)
    ensures Classify(Topic(id, m)) == Some(m)
    ensures StorageSlot(Topic(id, m)) == Some(m)
  {
    TopicNamesOnlyItsMetric(id, m, BodyTemp);
    TopicNamesOnlyItsMetric(id, m, HeartRate);
    TopicNamesOnlyItsMetric(id, m, Oxygen);
    TopicNamesOnlyItsMetric(id, m, Sugar);
  }

  /** A label holds no colon, so the payload's value text is exactly the
      text the bracelet put after the separator. */
  lemma PayloadValue(m: Metric, text: string)
    requires !Contains(text, Separator)
    ensures ValueText(Payload(m, text)) == Some(text)
  {
    assert ':' in Separator && ':' !in Label(m);
    MissingCharacter(Label(m), Separator, ':');
    ValueTextOfPayload(Label(m), text);
  }

  /** The decimal text of a reading holds no separator. */
  lemma DecimalLacksSeparator(d: Decimal)
    requires d.Valid()
    ensures !Contains(d.Render(), Separator)
  {
    NotADigit(d.whole, ':');
    NotADigit(d.frac, ':');
    assert ':' !in d.Render();
    assert ':' in Separator;
    MissingCharacter(d.Render(), Separator, ':');
  }

  /** A reading sent by a bracelet is read back by a monitor as the exact
      value the bracelet wrote, and judged by the rule of its metric. */
  lemma ReadingRoundTrip(id: BraceletId, m: Metric, d: Decimal)
    requires d.Valid()
    ensures ReadValue(Payload(m, d.Render())) == Ok(Finite(d.Value()))
    ensures Evaluate(Topic(id, m), Payload(m, d.Render())) == Ok(IsCritical(m, Finite(d.Value())))
  {
    DecimalLacksSeparator(d);
    PayloadValue(m, d.Render());
    ParseRender(d);
    TopicClassifies(id, m);
  }

  /** The readings of one tick as decimals. */
  datatype Measurements = Measurements(bodyTemp: Decimal, heartRate: Decimal, oxygen: Decimal, sugar: Decimal) {

    predicate Valid() {
      bodyTemp.Valid() && heartRate.Valid() && oxygen.Valid() && sugar.Valid()
    }

    function Of(m: Metric): Decimal {
      match m
      case BodyTemp => bodyTemp
      case HeartRate => heartRate
      case Oxygen => oxygen
      case Sugar => sugar
    }

    function Texts(): Readings {
      Readings(bodyTemp.Render(), heartRate.Render(), oxygen.Render(), sugar.Render())
    }
  }

  /** The message a tick publishes for one metric is judged as that metric
      with the value the bracelet measured. */
  lemma MessageEvaluates(id: BraceletId, v: Measurements, m: Metric)
    requires v.Valid()
    ensures var msg := MessageOf(id, v.Texts(), m);
      Evaluate(msg.topic, msg.payload) == Ok(IsCritical(m, Finite(v.Of(m).Value())))
  {
    assert Reading(v.Texts(), m) == v.Of(m).Render();
    ReadingRoundTrip(id, m, v.Of(m));
  }

  /** Each of the four messages of a tick is judged as its own metric with
      the value the bracelet measured, in the monitors' evaluation order. */
  lemma TickEvaluates(id: BraceletId, v: Measurements)
    requires v.Valid()
    ensures forall i :: 0 <= i < |EvaluationOrder| ==>
      var msg := TickMessages(id, v.Texts())[i];
      var m := EvaluationOrder[i];
      Evaluate(msg.topic, msg.payload) == Ok(IsCritical(m, Finite(v.Of(m).Value())))
  {
    TickOrder(id, v.Texts());
    forall i | 0 <= i < |EvaluationOrder|
      ensures var msg := TickMessages(id, v.Texts())[i];
        var m := EvaluationOrder[i];
        Evaluate(msg.topic, msg.payload) == Ok(IsCritical(m, Finite(v.Of(m).Value())))
    {
      MessageEvaluates(id, v, EvaluationOrder[i]);
    }
  }
}
