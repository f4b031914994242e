/** The smartphone's view of the latest readings and the blocks its
    `save_logs` appends to the metrics log file. */
module EventLog {
  import opened Results
  import opened Text
  import opened Vitals

  /** The text the smartphone holds for a metric before any reading of it. */
  const Unknown: string := "N/A"

  /** The latest text received for each metric. */
  datatype Snapshot = Snapshot(heartRate: string, bodyTemp: string, oxygen: string, sugar: string)

  const Blank: Snapshot := Snapshot(Unknown, Unknown, Unknown, Unknown)

  function Get(s: Snapshot, m: Metric): string {
    match m
    case HeartRate => s.heartRate
    case BodyTemp => s.bodyTemp
    case Oxygen => s.oxygen
    case Sugar => s.sugar
  }

  /** Overwrites the text of one metric. */
  function Put(s: Snapshot, m: Metric, text: string): (r: Snapshot)
    ensures Get(r, m) == text
    ensures forall k :: k != m ==> Get(r, k) == Get(s, k)
  {
    match m
    case HeartRate => s.(heartRate := text)
    case BodyTemp => s.(bodyTemp := text)
    case Oxygen => s.(oxygen := text)
    case Sugar => s.(sugar := text)
  }

  /** One log block: when it was written, the emergency flag at that time
      and the latest texts at that time. */
  datatype Entry = Entry(timestamp: string, emergency: bool, values: Snapshot)

  const Newline: string := "\n"

  function YesNo(b: bool): string {
    if b then "Yes" else "No"
  }

  const StatusCaption: string := "Emergency Status: "
  const HeartRateCaption: string := "Heart Rate: "
  const BodyTempCaption: string := "Body Temp: "
  const OxygenCaption: string := "Oxygen Level: "
  const SugarCaption: string := "Blood Sugar: "

  /** The lines of a block: the timestamp, the flag, the four metrics in the
      order heart rate, body temperature, oxygen, sugar, and a blank line;
      the last, empty piece stands for the text after the final newline. */
  function Lines(e: Entry): seq<string> {
    [e.timestamp,
     StatusCaption + YesNo(e.emergency),
     HeartRateCaption + e.values.heartRate,
     BodyTempCaption + e.values.bodyTemp,
     OxygenCaption + e.values.oxygen,
     SugarCaption + e.values.sugar,
     "",
     ""]
  }

  /** The text `save_logs` writes for a block: it opens with the
      timestamp line and closes with a blank line. */
  function Render(e: Entry): (r: string)
    ensures |r| >= |e.timestamp| + 1 && r[..|e.timestamp| + 1] == e.timestamp + Newline
    ensures |r| >= 2 && r[|r| - 2..] == Newline + Newline
  {
    var lines := Lines(e);
    assert lines == lines[..7] + [""];
    assert lines[..7] == lines[..6] + [""];
    JoinAppend(lines[..6], "", Newline);
    JoinAppend(lines[..7], "", Newline);
    Join(lines, Newline)
  }

  /** A block whose fields hold no line break; the timestamp format and the
      readings a bracelet sends never do. */
  predicate SingleLine(e: Entry) {
    '\n' !in e.timestamp && forall m :: '\n' !in Get(e.values, m)
  }

  function StripPrefix(prefix: string, line: string): Option<string> {
    if |prefix| <= |line| && line[..|prefix|] == prefix then Some(line[|prefix|..]) else None
  }

  function ParseYesNo(s: string): Option<bool> {
    if s == "Yes" then Some(true) else if s == "No" then Some(false) else None
  }

  /** Reads a block back from its text: the inverse of `Render`. */
  function Parse(text: string): Option<Entry> {
    var lines := Split(text, Newline);
    if |lines| != 8 || lines[6] != "" || lines[7] != "" then None
    else
      var flag :- StripPrefix(StatusCaption, lines[1]);
      var emergency :- ParseYesNo(flag);
      var heartRate :- StripPrefix(HeartRateCaption, lines[2]);
      var bodyTemp :- StripPrefix(BodyTempCaption, lines[3]);
      var oxygen :- StripPrefix(OxygenCaption, lines[4]);
      var sugar :- StripPrefix(SugarCaption, lines[5]);
      Some(Entry(lines[0], emergency, Snapshot(heartRate, bodyTemp, oxygen, sugar)))
  }

  lemma StripCaption(prefix: string, rest: string)
    ensures StripPrefix(prefix, prefix + rest) == Some(rest)
  {
    assert (prefix + rest)[..|prefix|] == prefix;
    assert (prefix + rest)[|prefix|..] == rest;
  }

  /** A caption without a line break followed by a field without one holds
      no line break. */
  lemma CaptionedLine(caption: string, field: string)
    requires '\n' !in caption && '\n' !in field
    ensures !Contains(caption + field, Newline)
  {
    ContainsChar(caption + field, '\n');
  }

  /** Every block that holds no stray line break reads back as itself, so
      the log file records each block unambiguously. */
  lemma ParseRender(e: Entry)
    requires SingleLine(e)
    ensures Parse(Render(e)) == Some(e)
  {
    var v := e.values;
    SplitRender(e);
    StripCaption(StatusCaption, YesNo(e.emergency));
    StripCaption(HeartRateCaption, v.heartRate);
    StripCaption(BodyTempCaption, v.bodyTemp);
    StripCaption(OxygenCaption, v.oxygen);
    StripCaption(SugarCaption, v.sugar);
  }

  lemma SplitRender(e: Entry)
    requires SingleLine(e)
    ensures Split(Render(e), Newline) == Lines(e)
  {
    LinesHoldNoBreak(e);
    SplitJoin(Lines(e), Newline);
  }

  lemma LinesHoldNoBreak(e: Entry)
    requires SingleLine(e)
    ensures forall k :: 0 <= k < |Lines(e)| ==> !Contains(Lines(e)[k], Newline)
  {
    var v := e.values;
    assert '\n' !in Get(v, HeartRate) && '\n' !in Get(v, BodyTemp);
    assert '\n' !in Get(v, Oxygen) && '\n' !in Get(v, Sugar);
    ContainsChar(e.timestamp, '\n');
    CaptionedLine(StatusCaption, YesNo(e.emergency));
    CaptionedLine(HeartRateCaption, v.heartRate);
    CaptionedLine(BodyTempCaption, v.bodyTemp);
    CaptionedLine(OxygenCaption, v.oxygen);
    CaptionedLine(SugarCaption, v.sugar);
    ContainsChar("", '\n');
  }

  /** The text this client has appended to the log file: its blocks one
      after another. */
  function LogText(log: seq<Entry>): string
    decreases |log|
  {
    if |log| == 0 then "" else LogText(log[..|log| - 1]) + Render(log[|log| - 1])
  }

  /** Writing the blocks of `a` and then those of `b` leaves the text of
      `a` followed by the text of `b`: appending to the file never touches
      what is already there, as opening it in append mode promises. */
  lemma {:induction false} LogTextConcat(a: seq<Entry>, b: seq<Entry>)
    ensures LogText(a + b) == LogText(a) + LogText(b)
    decreases |b|
  {
    if |b| > 0 {
      var c := a + b;
      var front := b[..|b| - 1];
      assert c[..|c| - 1] == a + front;
      assert c[|c| - 1] == b[|b| - 1];
      LogTextConcat(a, front);
    } else {
      assert a + b == a;
    }
  }

  /** The file text of a single block is the block's text. */
  lemma LogTextSingle(e: Entry)
    ensures LogText([e]) == Render(e)
  {
    assert [e][..0] == [];
  }
}
