# Smart-home health monitor: message handling core

This project models the message-handling core of a small MQTT health-monitoring
system and proves properties about it. There are three clients:

- **SmartBracelet** publishes one reading of each metric on every timer tick. The
  metrics are body temperature, heart rate, oxygen level and blood sugar. Topics
  have the form `smartbracelet/<id>/<keyword>` and payloads `"<Label>: <value>"`.
  Nothing is published until a connection has been accepted.
- **Smartphone** subscribes to `smartbracelet/#`. It evaluates every reading against
  the critical thresholds, sets its emergency flag to the latest verdict, and
  appends a block to its metrics log on every alert. It also keeps the latest text
  of each metric.
- **Hospital** subscribes to the same filter and evaluates readings the same way.
  It keeps only the flag.

Modules:

| module | file | models |
|---|---|---|
| `Results` | results.dfy | `Option` and `Result`; an `Err` is a Python exception escaping a handler |
| `Text` | text.dfy | Python's `sub in s`, `s.split(sep)` and `sep.join(parts)` on strings |
| `Numbers` | numbers.dfy | Python's `float(text)`, `str(n)` for the identifier, and the decimal text of a reading |
| `Vitals` | vitals.dfy | metrics, thresholds, the topic if/elif chains, `split(": ")[1]`, and the verdict on one message |
| `EventLog` | eventlog.dfy | the latest-values snapshot and the text block `save_logs` appends |
| `Subscriber` | subscriber.dfy | the monitors' shared `on_connect`, and MQTT topic-filter matching |
| `Smartphone` | smartphone.dfy | the smartphone client: `on_message`, `check_critical_values`, `save_logs`, `update_emergency_status` |
| `Hospital` | hospital.dfy | the hospital client: `on_message`, `check_emergency_status` |
| `Bracelet` | bracelet.dfy | the bracelet: topics, payloads, `CONNECTED`, `on_connect`, `publish_to`, `update_data` |
| `Delivery` | delivery.dfy | what a monitor makes of the messages a bracelet sends |
| `Scenarios` | scenarios.dfy | concrete runs of the clients |

Each handler is a pure function from the client's state and its inputs to the new
state, or to an `Err` when Python raises inside it. The time `save_logs` formats
is a parameter (`now`). So are the random readings of a tick (`Readings`) and the
bracelet identifier (`BraceletId`, 1 to 99).

Python's `float` is modelled on exact reals, with signed infinities and NaN. The
comparisons `x > bound` and `x < bound` on NaN are false, as in Python.

## Model

| member | source | states |
|---|---|---|
| Vitals.ThresholdTable | Smartphone.py:18-22 | A finite reading is critical exactly when body temperature > 39.0, heart rate > 120, oxygen < 90 or sugar > 200; a reading equal to its bound never is (the same constants are in Hospital.py:17-21) |
| Vitals.NonFiniteReadings | Smartphone.py:119-138 | For the values `float` can also return: NaN never alerts; +inf alerts for every metric except oxygen; -inf alerts only for oxygen |
| Vitals.FirstMatchNone | Smartphone.py:119-138 | The first-match reference finds nothing exactly when no keyword of the order occurs in the topic |
| Vitals.FirstMatchIsFirst | Smartphone.py:119-138 | The metric at the first index whose keyword occurs in the topic decides, whatever later keywords also occur |
| Vitals.ClassifyIsFirstMatch | Smartphone.py:119-138 | The evaluation chain is the first match in the order body_temp, heart_rate, oxygen, sugar |
| Vitals.StorageSlotIsFirstMatch | Smartphone.py:81-92 | The storage chain in `on_message` is the first match in the order heart_rate, body_temp, oxygen, sugar |
| Vitals.ClassifyVersusStorage | Smartphone.py:81-92 | Both chains recognise the same topics; they pick different metrics exactly when the topic contains both `body_temp` and `heart_rate` |
| Vitals.ValueText | Smartphone.py:82 | `payload.split(": ")[1]` exists exactly when the payload contains `": "`, and the text it yields contains no `": "` |
| Vitals.ValueTextOfPayload | Smartphone.py:82 | For `caption + ": " + value` where neither part contains the separator, the value text is `value` |
| Vitals.ReadValue | Smartphone.py:120 | It fails with the missing-separator error exactly when the payload has no `": "`; it succeeds exactly when the value text is accepted by `float` |
| Vitals.Evaluate | Smartphone.py:116-140 | An unrecognised topic gives `False` without reading the payload. A recognised one raises exactly when reading the value fails, and otherwise gives the metric's threshold verdict on the value |
| Vitals.AlertIff | Hospital.py:92-118 | For a payload carrying the number v: a topic in which none of `body_temp`, `heart_rate`, `oxygen`, `sugar` occurs gives no alert; otherwise an alert is raised exactly when the first of them to occur in that order names body temperature and v > 39.0, heart rate and v > 120, oxygen and v < 90, or sugar and v > 200 |
| Text.FindSpec | Smartphone.py:81 | The search behind `sub in s` returns the least index where `sub` occurs, or nothing when it occurs nowhere |
| Text.ContainsOccurs | Smartphone.py:81 | `sub in s` holds exactly when `sub` occurs at some index of `s` |
| Text.SplitPieces | Smartphone.py:82 | No piece of `s.split(sep)` contains `sep` |
| Text.JoinSplit | Smartphone.py:82 | `sep.join(s.split(sep)) == s`: splitting loses nothing |
| Text.SplitJoin | Smartphone.py:82 | Splitting a join of separator-free pieces with an unbordered separator gives the pieces back |
| Numbers.ParseFloat | Smartphone.py:120 | `float` raises on a text that is empty or only white space once stripped; only the ASCII characters tab, line feed, vertical tab, form feed, carriage return and space are stripped. A negative finite value or negative infinity comes only from a text whose first non-space character is `-` |
| Numbers.NatToString | SmartBracelet.py:17 | `str(n)` is a non-empty digit string whose value is `n`, with no leading zero |
| Numbers.ParseRender | Smartphone.py:120 | `float` of the decimal text a bracelet sends returns exactly the value the text denotes, signed or not |
| EventLog.Put | Smartphone.py:81-92 | Storing a text sets that metric's slot and leaves the other three as they were |
| EventLog.Render | Smartphone.py:146-153 | A block's text opens with the timestamp followed by a line break and closes with a blank line |
| EventLog.ParseRender | Smartphone.py:146-153 | A block whose timestamp and four texts hold no line break can be read back to its timestamp, flag and texts, so no two such blocks print alike |
| EventLog.LogTextConcat | Smartphone.py:154-155 | In append mode, writing the blocks of `a` and then those of `b` leaves the text of `a` followed by the text of `b`: earlier blocks are never touched |
| Smartphone.Init | Smartphone.py:26-39 | The phone starts with the subscription topic set to `smartbracelet/#` (subscribed on the first accepted connect), with the hook `''` (not callable), flag `False`, every text `"N/A"`, an empty log, and the stored-text invariant already holding |
| Smartphone.InstallHook | Smartphone.py:56-57 | Installing the form's hook makes it callable and changes nothing else |
| Subscriber.OnConnect | Hospital.py:57-64 | A refused connection (`rc != 0`) does nothing. An accepted one subscribes to the client's topic first, and calls the form hook exactly when the hook is callable |
| Subscriber.BraceletFilterMatches | Smartphone.py:16 | `smartbracelet/#` matches a topic exactly when its first level is `smartbracelet` |
| Smartphone.OnConnect | Smartphone.py:62-69 | The phone subscribes to its own topic exactly on `rc == 0`, and notifies the form exactly on `rc == 0` with a callable hook; the initial hook `''` is not callable |
| Smartphone.SaveLogs | Smartphone.py:143-156 | One block holding `now`, the current flag and the current texts is appended to the log file; nothing else changes |
| Smartphone.UpdateEmergencyStatus | Smartphone.py:256-265 | With the flag set, a block holding the current texts is saved; with it clear, the log stays; the client state is otherwise untouched |
| Smartphone.Store | Smartphone.py:81-92 | Only the slot the storage chain picks changes, to `split(": ")[1]`; an unmatched topic stores nothing; it raises exactly when a matched topic's payload has no separator |
| Smartphone.OnMessage | Smartphone.py:74-92 | With writing the log file taken to succeed, it raises exactly when evaluation raises, and then nothing changes. Otherwise the flag is this message's verdict alone. A block with the texts from before the message is logged exactly on an alert. Only the picked slot changes, to the value text; the subscription settings stay |
| Smartphone.UnmatchedTopic | Smartphone.py:116-140 | A topic naming no metric clears the flag and changes nothing else, whatever the payload |
| Smartphone.MalformedPayload | Smartphone.py:119-120 | A payload that cannot be read on a recognised topic raises before anything is assigned |
| Smartphone.OnMessageValid | Smartphone.py:80-92 | Every stored text is `"N/A"` or a text `float` accepts, and handling a message keeps it so |
| Smartphone.RunEmergency | Smartphone.py:117-140 | After a run of readable messages the flag equals the verdict on the last one; earlier alerts leave no trace |
| Smartphone.RunLog | Smartphone.py:256-262 | A run only appends to the log, one block per alert handled |
| Smartphone.RunValid | Smartphone.py:74-92 | The stored-text invariant holds after any run |
| Smartphone.RunStops | Smartphone.py:74-92 | `Smartphone.Run` handles messages until the first whose evaluation raises: the run ends as the run of the messages before it |
| Hospital.Init | Hospital.py:25-33 | The console starts with the subscription topic set to `smartbracelet/#` (subscribed on the first accepted connect), with the hook `None` (not callable) and flag `False` |
| Hospital.InstallHook | Hospital.py:51-52 | Installing the form's hook makes it callable and changes nothing else |
| Hospital.OnConnect | Hospital.py:57-64 | The console subscribes to its own topic exactly on `rc == 0`, and notifies the form exactly on `rc == 0` with a callable hook; the initial `None` is not callable |
| Hospital.OnMessage | Hospital.py:69-73 | It raises exactly when evaluation raises. Otherwise the flag becomes this message's verdict and nothing else changes |
| Hospital.RunStops | Hospital.py:69-73 | `Hospital.Run` handles messages until the first whose evaluation raises: the run ends as the run of the messages before it |
| Hospital.QuietRun | Hospital.py:92-118 | Starting clear, a run in which no handled message alerts leaves the flag clear |
| Hospital.QuietFromStart | Hospital.py:33 | A fresh console shows no emergency until some reading alerts |
| Hospital.MonitorsAgree | Hospital.py:92-118 | Given the same messages, the smartphone and the console end with the same flag |
| Bracelet.Payload | SmartBracelet.py:200-203 | Every payload `"<Label>: <value>"` contains `": "`, so the monitors' `split(": ")[1]` never fails on it |
| Bracelet.Init | SmartBracelet.py:11-14 | The script starts with the drawn identifier, `CONNECTED` false, the hook `''` (not installed) and nothing published |
| Bracelet.InstallHook | SmartBracelet.py:49-50 | Installing the form's hook makes it callable and changes nothing else |
| Bracelet.Started | SmartBracelet.py:93-96 | Once the connection form has installed its hook, still unconnected and silent, no accepted connection fails on calling the hook |
| Bracelet.OnConnect | SmartBracelet.py:55-62 | `CONNECTED` is set exactly on `rc == 0` and is never cleared. Calling the hook fails exactly on `rc == 0` with no hook installed, after `CONNECTED` was set |
| Bracelet.PublishTo | SmartBracelet.py:85-89 | The message reaches the client exactly when `CONNECTED`; otherwise it is dropped with no error |
| Bracelet.TickOrder | SmartBracelet.py:199-203 | A tick's messages follow the monitors' evaluation order, one per metric |
| Bracelet.UpdateData | SmartBracelet.py:199-203 | A connected tick appends its four messages in order (body temperature, heart rate, oxygen, sugar); an unconnected tick appends none |
| Bracelet.ConnectedIff | SmartBracelet.py:55-65 | After any events, `CONNECTED` holds exactly when it held before or some connect result was 0; refused connects and disconnects never clear it |
| Bracelet.OutboxGrows | SmartBracelet.py:85-89 | Published messages are only ever appended, and the identifier never changes |
| Bracelet.SilentUntilConnected | SmartBracelet.py:11 | Until a connection is accepted, no tick publishes anything |
| Delivery.TopicLevels | SmartBracelet.py:17-20 | A bracelet topic has exactly three levels: `smartbracelet`, the identifier, the keyword |
| Delivery.TopicInjective | SmartBracelet.py:17-20 | Two bracelet topics are equal exactly when their identifiers and metrics are |
| Delivery.TopicSubscribed | SmartBracelet.py:17-20 | Every bracelet topic matches the monitors' filter `smartbracelet/#` |
| Delivery.TopicNamesOnlyItsMetric | SmartBracelet.py:17-20 | A bracelet topic contains the keyword of its own metric and no other |
| Delivery.TopicClassifies | SmartBracelet.py:17-20 | Both chains classify a bracelet topic as its own metric |
| Delivery.PayloadValue | SmartBracelet.py:200-203 | `split(": ")[1]` of a bracelet payload is the reading's text |
| Delivery.ReadingRoundTrip | SmartBracelet.py:200-203 | A bracelet reading is read back as its exact value, and judged by its own metric's rule |
| Delivery.MessageEvaluates | SmartBracelet.py:200-203 | Each message of a tick is judged as its metric with the value the bracelet measured |
| Delivery.TickEvaluates | SmartBracelet.py:199-203 | All four messages of a tick are judged correctly, in evaluation order |
| Scenarios.FeverThenCalm | Smartphone.py:74-92 | 39.5 sets the flag and logs a block of `N/A`s; a following heart rate of 70.0 clears it, logs nothing, and both texts are kept |
| Scenarios.AtTheBound | Smartphone.py:124-128 | A heart rate of exactly 120.0 does not alert; only the heart-rate text changes |
| Scenarios.LowOxygenAtHospital | Hospital.py:106-110 | An oxygen level of 85.0 raises the console's flag |
| Scenarios.ControlCharacterPayload | Smartphone.py:119-120 | A heart-rate text preceded by the control character U+001C is no number for `float`, so the handler raises |
| Scenarios.NotANumberPayload | Smartphone.py:124-125 | `Heart Rate: abc` on a heart-rate topic raises `ValueError`, leaving flag, texts and log unchanged |
| Scenarios.Handles | Smartphone.py:74-92 | A bracelet reading is always handled; the flag becomes its verdict and one block is added exactly when it is critical |
| Scenarios.AlertOnFourth | Smartphone.py:116-140 | Of five readable messages where only the fourth alerts, the flag is set after the fourth, cleared after the fifth, and one block is logged |
| Scenarios.OnlyTheLatestCounts | Smartphone.py:116-140 | Normal temperature, heart rate and oxygen, then sugar 250, then normal temperature: the flag is up only after the sugar reading, and one block is logged |
| Scenarios.TickBeforeConnect | SmartBracelet.py:85-89 | A bracelet that never connected publishes nothing on a tick |

## Left out

- The PyQt5 windows, labels and buttons. A label update is not modelled. The "Save Log" button's `save_logs` is the `SaveLogs` function.
- The paho client: connecting, threads, `loop_start`, `on_log`, and printing. A handler receives its arguments directly.
- The effect of an escaping exception on paho's loop. `Smartphone.Run` and `Hospital.Run` stop at the first exception, as paho does when it re-raises callback exceptions. The single-message contracts do not depend on this choice.
- The UTF-8 decoding of payloads. Payloads are already text.
- `datetime.now().strftime(...)`. The formatted time is the parameter `now`.
- `random.uniform`, `round(…, 2)` and `str(float)` in `update_data`. A tick's texts are the input `Readings`, and the `Delivery` lemmas take them as the decimal texts `Decimal.Render` produces. The client names from `random.randrange` are left out too.
- Numbers.ParseFloat: covers the ASCII forms of `float` only: sign, digits, point, exponent, `inf`, `infinity` and `nan`. Underscores between digits are not accepted, nor is the non-ASCII white space (such as U+00A0 or U+2003) that `float` would strip, and values are exact reals rather than binary64, so rounding at the threshold is not modelled.
- `mqtt_init`, `runAll.py`, the setters and `subscribe_to`. They only store configuration or forward to paho. runAll.py is not part of this model.
- `Subscriber.Matches`: topics starting with `$` are not special-cased. No bracelet topic starts with `$`.
- Bracelet.OnDisconnect: only prints. It is the identity, and `ConnectedIff` states its effect on `CONNECTED`.
- The bracelet's `TypeError` when an accepted connection calls the uninstalled hook `''` is the `hookFailed` flag. `Bracelet.Started` shows the window installs the hook first, so this only happens to a client used without its form. Paho's handling of that exception is left out.
- Smartphone.SaveLogs: file I/O errors are not modelled. If `open` or `write` raised (Smartphone.py:154-155), the flag assigned at Smartphone.py:140 would stay changed and the store step (Smartphone.py:81-92) would be skipped; the model takes the write to succeed. The log is only the blocks this client wrote: text the append-mode file already held from earlier runs is not part of `LogText`, and `Init` starts with an empty log.
- EventLog.ParseRender: states the read-back only for blocks whose timestamp and texts hold no line break. The phone can store such a text: `float` accepts `"87\n"`, and a payload `"Heart Rate: 87\n"` is stored verbatim, so its block spans an extra line. Blocks like that are not shown to read back.
- Logging on a transition: the code logs a block on every alerting message, even while the flag is already set. There is no rising-edge test, and the model follows the code.
- Which metric triggered an alert: the code keeps no such record and neither does the model.
- Connection states `Connecting` and `Failed`: the code has only the bracelet's `CONNECTED` flag. A refused connection changes nothing, and a later accepted one still connects.
- Absorbing decode errors: the code does not catch a malformed payload. `split` or `float` raises out of the handler, which the model keeps as `Err`.
