/** What the two monitors (smartphone and hospital console) share as MQTT
    subscribers: the subscription they ask for when a connection is
    accepted, and which topics that subscription lets through. */
module Subscriber {
  import opened Text

  const LevelSeparator: string := "/"

  /** The first level of every bracelet topic. */
  const TopicRoot: string := "smartbracelet"

  const MultiLevelWildcard: string := "#"

  /** The filter both monitors subscribe to, `smartbracelet/#`. */
  const BraceletFilter: string := TopicRoot + LevelSeparator + MultiLevelWildcard

  /** What the connect handler does besides printing: subscribe with a
      filter, and call the form's hook that colours the connect button. */
  datatype Effect = Subscribe(filter: string) | NotifyForm

  /** `on_connect(client, userdata, flags, rc)`: a connection refused
      (`rc != 0`) does nothing; an accepted one subscribes to the monitor's
      topic and then, if the hook is callable, calls it. */
  function OnConnect(rc: int, subscribeTopic: string, hookCallable: bool): (effects: seq<Effect>)
    ensures rc != 0 ==> effects == []
    ensures rc == 0 ==> |effects| >= 1 && effects[0] == Subscribe(subscribeTopic)
    ensures forall f :: Subscribe(f) in effects <==> rc == 0 && f == subscribeTopic
    ensures NotifyForm in effects <==> rc == 0 && hookCallable
  {
    if rc != 0 then []
    else if hookCallable then [Subscribe(subscribeTopic), NotifyForm]
    else [Subscribe(subscribeTopic)]
  }

  /** The levels of a topic name or filter. */
  function Levels(s: string): seq<string> {
    Split(s, LevelSeparator)
  }

  /** Matching of topic levels against filter levels as section 4.7 of
      MQTT Version 3.1.1 defines it: `+` matches exactly one level and `#`
      matches the rest, including the parent level on its own. */
  function MatchLevels(filter: seq<string>, topic: seq<string>): bool
    decreases |filter|
  {
    if |filter| == 0 then |topic| == 0
    else if filter[0] == "#" then true
    else if |topic| == 0 then false
    else (filter[0] == "+" || filter[0] == topic[0]) && MatchLevels(filter[1..], topic[1..])
  }

  /** The broker delivers a message to a subscription when the filter
      matches its topic. Topics starting with `$` are not bracelet topics
      and are not treated specially here. */
  predicate Matches(filter: string, topic: string) {
    MatchLevels(Levels(filter), Levels(topic))
  }

  lemma FilterLevels()
    ensures Levels(BraceletFilter) == [TopicRoot, MultiLevelWildcard]
  {
    assert '/' !in TopicRoot && '/' !in MultiLevelWildcard;
    SplitPair(TopicRoot, MultiLevelWildcard, '/');
  }

  /** The monitors' subscription receives exactly the topics whose first
      level is `smartbracelet`. */
  lemma BraceletFilterMatches(topic: string)
    ensures Matches(BraceletFilter, topic) <==> Levels(topic)[0] == TopicRoot
  {
    FilterLevels();
    var t := Levels(topic);
    assert MatchLevels([TopicRoot, MultiLevelWildcard], t)
      == (TopicRoot == t[0] && MatchLevels([MultiLevelWildcard], t[1..]));
  }
}
