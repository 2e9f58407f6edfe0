# EmbeddedSmartAlarm in Dafny

A model of the message-routing and file-upload path of the EmbeddedSmartAlarm
gateway (an ESP32 that relays sensor data, plays alarm sounds and accepts
audio uploads over MQTT), together with the host scripts that talk to it and
the small helpers around them, with proofs of what each part promises.

One module per component:

- `MqttHandler` (mqtt_handler.dfy): the handler record and its constructor
  defaults.
- `TopicMatch` (topic_match.dfy): `topicMatches`, the index-walking wildcard
  matcher; a recursive specification of the walk, the loop proved against it,
  and the level-by-level `+`/`#` semantics the walk agrees with on
  well-formed filters.
- `MqttManager` (mqtt_manager.dfy): the handler table kept sorted by
  descending priority, `unregisterHandler`, `dispatch` with its first-`true`
  stop, subscription bookkeeping without duplicates, the reconnect and its
  5000 ms back-off. The broker is a connected flag and a trace of calls.
- `MqttSetup` (mqtt_setup.dfy): the `play_audio` and `commands` handlers of
  `setupMQTTHandlers` as decisions over the payload that return the
  "handled" answer and the effects on the player and the bus, and the guard
  of `publishRemoteSensorData`.
- `AudioUpload` (audio_upload.dfy): the gateway's stop-and-wait receiver
  (`REQUEST_FREE_SPACE`, `START:<n>`, `CHUNK:<i>:<total>:<bytes>`, `END`),
  as a per-message function and as a class over the file-scope globals and
  the filesystem.
- `ChunkUploader` (chunk_uploader.dfy): the host uploader script: free-space
  query, 4096-byte chunking, framing, waiting for each ACK, and the round
  trip of its messages through the gateway's receiver.
- `AudioPlayer` (audio_player.dfy): the playback state machine of
  `AudioManager` (decoder slots, `initialized`, `isPlaying`, volume clamp).
- `SdManager` (sd_manager.dfy): SD card mount retries, the 32768-byte flush
  counter, open/write/close and the comma-joined listing.
- `TaskScheduler` (task_scheduler.dfy): the sixteen-slot cooperative
  scheduler with wrap-around elapsed time.
- `Adpcm` (adpcm.dfy): the IMA/DVI ADPCM encoder of both stream senders
  (ADPCM section of the Interactive Multimedia Association's "Recommended
  Practices for Enhancing Digital Audio Compatibility in Multimedia
  Systems", rev. 3.00, 1992), its decoder as the partner, code packing and
  PCM conversion.
- `StreamSender` (stream_sender.dfy): the UDP sender's file mode: 960-sample
  frames, a 7-byte big-endian header, the wrapping sequence number, looping.
- `DeprecatedSender` (deprecated_sender.dfy): the older sender's file mode:
  groups of 1024 samples and 512-byte datagrams cut from an accumulated
  buffer.
- `SensorData` (sensor_data.dfy): the packed 38-byte sensor record and its
  encode/decode round trip.
- `FirmwareMain` (firmware_main.dfy): the two sketches' `mqttCallback`
  routing, interval timers, the ESP-NOW size gate and the sensor relay.
- `Bytes` and `Wrappers` (bytes.dfy, wrappers.dfy): bytes, ASCII, decimal
  formatting, `atoi`, Python's `int`, 32-bit wrap-around, and `Option`.

Imperative source is modelled as classes and methods with loops, each proved
against a function that states the operation on values; the properties are
proved about those functions. Hardware and library answers (does a mount, an
open, a publish or a decoder's `begin` succeed, how many bytes the card
takes, the order of directory entries, the arrival of a message during a
wait) are parameters.

Where the code departs from level-by-level MQTT matching or from what its
protocol suggests, the model follows the code:

- Topic matching walks characters, not levels. On a filter with an empty
  level or a `#` that is not the last level it differs from level-count
  semantics: `+` matches `a/`, `a/+` does not match `a/`, `a/#` does not
  match `a`, and `#` does not match the empty topic
  (`TopicMatch.PlusAcceptsTrailingSlash`, `TopicMatch.PlusRejectsEmptyLastLevel`,
  `TopicMatch.HashNeedsARemainingLevel`). On well-formed filters and topics
  the two agree (`TopicMatch.TopicMatchesIsLevelsMatch`).
- The receiver does not bound `receivedSize` by `expectedSize`; no such
  invariant is stated.
- A `CHUNK:` arriving while no transfer is open is answered `true` and
  ignored, not reported as an error (`AudioUpload.ChunkWhileIdle`).
- The handler table is re-sorted with an unstable sort, so the order of
  handlers of equal priority is left unspecified
  (`MqttManager.Manager.RegisterHandler` states a permutation that is sorted).

## Model

| member | source | states |
|---|---|---|
| MqttHandler.MakeHandler | include/mqtt_handler.h:25-30 | the handler keeps the pattern, callback and priority it is given; its name is the given name when that is non-empty and the pattern otherwise |
| MqttHandler.DefaultsOfMakeHandler | include/mqtt_handler.h:25-30 | the default priority is 100 and the default name is the pattern; a handler's name is empty exactly when both the given name and the pattern are |
| TopicMatch.SepFrom | src/gateway_esp32/mqtt_manager.cpp:88-92 | `indexOf('/', from)` with "not found" replaced by the length: the result lies between `from` and the length and, below the length, sits on a `/` |
| TopicMatch.TopicMatches | src/gateway_esp32/mqtt_manager.cpp:61-113 | a pattern matches the identical topic; a pattern without `+` or `#` matches exactly the identical topic |
| TopicMatch.LoopStep | src/gateway_esp32/mqtt_manager.cpp:87-108 | one pass of the level loop: a literal level that differs from the topic's level rejects, a `+` or an equal level moves both indices past the next separator |
| TopicMatch.LoopMismatch | src/gateway_esp32/mqtt_manager.cpp:102-104 | a literal pattern level that differs from the topic level makes the rest of the walk fail |
| TopicMatch.LoopNext | src/gateway_esp32/mqtt_manager.cpp:97-108 | after a `+` or an equal level the outcome is that of the walk from the next levels |
| TopicMatch.LoopHash | src/gateway_esp32/mqtt_manager.cpp:80-85 | a `#` that ends the pattern or precedes a `/` accepts whatever remains of a non-empty topic |
| TopicMatch.LoopEnd | src/gateway_esp32/mqtt_manager.cpp:111-112 | once either string is consumed the outcome is "both are consumed" |
| TopicMatch.MatchTopic | src/gateway_esp32/mqtt_manager.cpp:61-113 | the index-walking loop returns exactly `TopicMatches(pattern, topic)` |
| TopicMatch.Split | src/gateway_esp32/mqtt_manager.cpp:88-95 | the levels of a topic: at least one, the first being the text before the first `/` |
| TopicMatch.JoinSplit | src/gateway_esp32/mqtt_manager.cpp:74 | splitting on `/` loses nothing: joining the levels with `/` gives back the string |
| TopicMatch.SplitInjective | src/gateway_esp32/mqtt_manager.cpp:74 | two strings with the same levels are equal |
| TopicMatch.SplitAfterFirst | src/gateway_esp32/mqtt_manager.cpp:88-95 | a string without `/` is one level; otherwise its levels are the first level followed by the levels after the first `/` |
| TopicMatch.WalkIsLevelsMatch | src/gateway_esp32/mqtt_manager.cpp:74-113 | for a well-formed filter and a topic without empty levels, the character walk agrees with the level-by-level MQTT match (`+` one level, a final `#` one or more levels) |
| TopicMatch.TopicMatchesIsLevelsMatch | src/gateway_esp32/mqtt_manager.cpp:61-113 | the same agreement for the whole function, fast paths included |
| TopicMatch.LiteralLevels | src/gateway_esp32/mqtt_manager.cpp:69-72 | a pattern without `+` and `#` has no wildcard level |
| TopicMatch.LiteralLevelsMatch | src/gateway_esp32/mqtt_manager.cpp:101-104 | levels without wildcards match exactly the identical levels |
| TopicMatch.HashAbsorbsRemainder | src/gateway_esp32/mqtt_manager.cpp:80-85 | `q/#` matches `q/r` for every non-empty remainder `r` |
| TopicMatch.PlusAcceptsAnyLevel | src/gateway_esp32/mqtt_manager.cpp:97-100 | a leading `+` level accepts any first topic level and the match continues with the rest |
| TopicMatch.LiteralLevelMustEqual | src/gateway_esp32/mqtt_manager.cpp:101-104 | a leading literal level matches only the equal topic level, and then the rest decides |
| TopicMatch.PlusAcceptsTrailingSlash | src/gateway_esp32/mqtt_manager.cpp:78-112 | as written, `+` matches `a/` although the two have different level counts |
| TopicMatch.PlusRejectsEmptyLastLevel | src/gateway_esp32/mqtt_manager.cpp:78-112 | as written, `a/+` does not match `a/` (the empty last level is never visited) |
| TopicMatch.HashNeedsARemainingLevel | src/gateway_esp32/mqtt_manager.cpp:78-112 | as written, `a/#` does not match `a` and `#` does not match the empty topic |
| MqttManager.Patterns | src/gateway_esp32/mqtt_manager.cpp:178-180 | the patterns of the handler table, one per handler, in table order |
| MqttManager.SubscribeCalls | src/gateway_esp32/mqtt_manager.cpp:275-278 | one subscribe call per topic, in order |
| MqttManager.WithoutMembers | src/gateway_esp32/mqtt_manager.cpp:47-53 | after `remove_if`/`erase` a handler remains exactly when it was present and its pattern differs from the removed one |
| MqttManager.WithoutSorted | src/gateway_esp32/mqtt_manager.cpp:47-53 | removal keeps the table sorted by descending priority |
| MqttManager.WithoutNoOp | src/gateway_esp32/mqtt_manager.cpp:47-53 | removing a pattern no handler has leaves the table as it was |
| MqttManager.WithoutIdempotent | src/gateway_esp32/mqtt_manager.cpp:47-53 | removing the same pattern twice is removing it once |
| MqttManager.TriedMatching | src/gateway_esp32/mqtt_manager.cpp:124-125 | dispatch invokes only handlers whose pattern matches the topic |
| MqttManager.TriedIncreasing | src/gateway_esp32/mqtt_manager.cpp:124 | the handlers are tried in table order, each at most once |
| MqttManager.TriedStops | src/gateway_esp32/mqtt_manager.cpp:131-136 | every invoked callback but the last answered false (the loop breaks at the first true) |
| MqttManager.TriedComplete | src/gateway_esp32/mqtt_manager.cpp:124-138 | no matching handler before the stopping point is skipped |
| MqttManager.TriedHandled | src/gateway_esp32/mqtt_manager.cpp:121-142 | the last invocation answers true exactly when some matching handler from that position on answers true |
| MqttManager.TriedFacts | src/gateway_esp32/mqtt_manager.cpp:115-143 | the five dispatch facts together, from the first handler |
| MqttManager.NoMatchNoCall | src/gateway_esp32/mqtt_manager.cpp:124-125 | a topic no pattern matches invokes no callback |
| MqttManager.DispatchByPriority | src/gateway_esp32/mqtt_manager.cpp:123-124 | with the table sorted, callbacks are invoked in non-increasing priority |
| MqttManager.Remember | src/gateway_esp32/mqtt_manager.cpp:159-162 | the remembered topics gain the topic, keep the others, stay duplicate-free, and are unchanged when it was already there |
| MqttManager.RememberAll | src/gateway_esp32/mqtt_manager.cpp:159-162 | subscribing a list remembers exactly the old topics and the accepted new ones, without duplicates |
| MqttManager.ConnectId | src/gateway_esp32/mqtt_manager.cpp:251-255 | the connect id is never empty: the configured id when there is one, `ESP32Client` otherwise |
| MqttManager.SubscribeStep | src/gateway_esp32/mqtt_manager.cpp:178-180 | one more topic in the subscribe loop adds one call and remembers the topic when the broker confirms |
| MqttManager.Manager.IsConnected | src/gateway_esp32/mqtt_manager.cpp:228 | connected exactly when a client is set and the client says it is connected |
| MqttManager.Manager.constructor | src/gateway_esp32/mqtt_manager.cpp:7-10 | no client, empty tables, first connection pending, last attempt 0 |
| MqttManager.Manager.Begin | src/gateway_esp32/mqtt_manager.cpp:14-22 | installs the client, id and status topic and marks the next connection as the first; the tables are kept |
| MqttManager.Manager.ConnectionLost | src/gateway_esp32/mqtt_manager.cpp:295 | the client's connection drops; nothing else changes |
| MqttManager.Manager.RegisterHandler | src/gateway_esp32/mqtt_manager.cpp:24-38 | the table gains exactly the new handler (as a multiset) and stays sorted by descending priority; nothing else changes |
| MqttManager.InsertSorted | src/gateway_esp32/mqtt_manager.cpp:27-33 | a handler placed after every entry of at least its priority and before the first lower one keeps the table sorted, and the table gains exactly that handler |
| MqttManager.Manager.RegisterAndSubscribe | src/gateway_esp32/mqtt_manager.cpp:40-45 | registers the handler, then subscribes its pattern when connected, remembering it when the broker confirms |
| MqttManager.Manager.UnregisterHandler | src/gateway_esp32/mqtt_manager.cpp:47-59 | the table loses every handler with that pattern and keeps the rest in order |
| MqttManager.Manager.Dispatch | src/gateway_esp32/mqtt_manager.cpp:115-143 | the loop invokes exactly the positions `TriedFrom` names and reports handled exactly when some matching handler answers true |
| MqttManager.Manager.Subscribe | src/gateway_esp32/mqtt_manager.cpp:154-172 | succeeds exactly when connected and the broker accepts; a call is made only when connected; the topic is remembered, once, only on success |
| MqttManager.Manager.SubscribeAll | src/gateway_esp32/mqtt_manager.cpp:174-181 | when connected, one subscribe call per handler pattern in table order and the accepted ones remembered; otherwise nothing |
| MqttManager.Manager.Unsubscribe | src/gateway_esp32/mqtt_manager.cpp:183-191 | succeeds exactly when connected and the broker accepts; the remembered topics are not touched |
| MqttManager.Manager.Publish | src/gateway_esp32/mqtt_manager.cpp:193-226 | publishes only when connected and reports the broker's result; nothing else changes |
| MqttManager.Manager.Reconnect | src/gateway_esp32/mqtt_manager.cpp:234-287 | no client: false and no change; already connected: true and no change; otherwise one connect call with the id, and on success the status publication and the first-time or repeat subscriptions |
| MqttManager.Manager.Connected | src/gateway_esp32/mqtt_manager.cpp:257-281 | after a successful connect: `online` retained to a set status topic, then all handler patterns on the first connection or the remembered topics afterwards; the first-connection flag is cleared |
| MqttManager.Manager.SubscribeAfterConnect | src/gateway_esp32/mqtt_manager.cpp:267-279 | the first connection subscribes to every handler pattern and clears the flag; a later one re-subscribes to the remembered topics |
| MqttManager.Manager.Resubscribe | src/gateway_esp32/mqtt_manager.cpp:272-278 | one subscribe call per remembered topic, in order, the list unchanged |
| MqttManager.Manager.Loop | src/gateway_esp32/mqtt_manager.cpp:289-306 | no client: nothing changes; connected: one poll and nothing else changes; disconnected: nothing unless more than 5000 ms (32-bit difference) have passed, otherwise the attempt time becomes `now` and `reconnect` runs, leaving the connection, calls, remembered topics and first-connection flag as a failed or successful connect leaves them; a pass that makes a connect call always had more than 5000 ms elapsed |
| MqttSetup.NormalizeFilename | src/gateway_esp32/mqtt_setup.cpp:44-47 | the result starts with `/`; a name that already does is kept, any other gets `/` prepended |
| MqttSetup.NormalizeIdempotent | src/gateway_esp32/mqtt_setup.cpp:44-47 | normalising twice is normalising once |
| MqttSetup.PlayAudioHandler | src/gateway_esp32/mqtt_setup.cpp:40-54 | always handled; plays the whole payload as the file, kept when it already starts with `/` and with `/` prepended otherwise, then publishes `playing` or `error` on the audio status topic |
| MqttSetup.ParseCommand | src/gateway_esp32/mqtt_setup.cpp:67-106 | recognises `stop_audio`, `list_files` and `status` exactly, `volume=` before `play:` as prefixes, and nothing else |
| MqttSetup.ParseCommandPrefixes | src/gateway_esp32/mqtt_setup.cpp:80-86 | the argument of `volume=…` and the file of `play:…` are the text after the prefix |
| MqttSetup.StatusReport | src/gateway_esp32/mqtt_setup.cpp:94-101 | the report starts `online\|audio:`, then `playing` or `stopped`, then `\|volume:`, and ends with `\|wifi:<rssi>dBm` |
| MqttSetup.CommandsOnMessage | src/gateway_esp32/mqtt_setup.cpp:62-108 | the lower-cased message is handled exactly when it is a recognised command; an unhandled one has no effect |
| MqttSetup.CommandsCaseInsensitive | src/gateway_esp32/mqtt_setup.cpp:65 | a message and its lower-cased form are handled identically |
| MqttSetup.PlayCommandPath | src/gateway_esp32/mqtt_setup.cpp:85-92 | `play:` plays the (lower-cased) file as an absolute path without upper-case letters and publishes `playing` or `error` on the system status topic |
| MqttSetup.ListFilesReplies | src/gateway_esp32/mqtt_setup.cpp:71-79 | an empty file list gives `no_files` only; otherwise the list on the files topic, then `files_listed` |
| MqttSetup.StopAudioReplies | src/gateway_esp32/mqtt_setup.cpp:67-70 | `stop_audio` stops playback, then publishes `audio_stopped` |
| MqttSetup.VolumeCommand | src/gateway_esp32/mqtt_setup.cpp:80-84 | `volume=x` sets the volume to `toFloat(x)` and publishes `volume:` with it formatted to two places |
| MqttSetup.VolumeReplies | src/gateway_esp32/mqtt_setup.cpp:80-84 | the same for any message whose lower-cased form is a volume command |
| MqttSetup.SetupMqttHandlers | src/gateway_esp32/mqtt_setup.cpp:32-111 | the table gains the play-audio handler (priority 150), the commands handler (priority 100) and one handler per audio-manager registration, and nothing else; subscriptions and calls are untouched |
| MqttSetup.RegisterAll | src/gateway_esp32/mqtt_setup.cpp:111 | each registration in order adds exactly its handler to the table; subscriptions and calls are untouched |
| MqttSetup.SetupMqtt | src/gateway_esp32/mqtt_setup.cpp:21-30 | the manager gets the client, the configured id and status topic and a pending first connection; its table gains the two handlers and the audio-manager registrations |
| MqttSetup.TwoHandlersOrder | src/gateway_esp32/mqtt_manager.cpp:29-33 | a sorted table of two handlers with different priorities has the higher one first |
| MqttSetup.SetupOrder | src/gateway_esp32/mqtt_setup.cpp:40-108 | a sorted table holding just the two set-up handlers has the play-audio handler before the commands handler |
| MqttSetup.RemoteSensorPublications | src/gateway_esp32/mqtt_setup.cpp:116-141 | nothing unless connected and data is available; otherwise exactly six publications in this order, each on its own topic: temperature, humidity, pressure and UV formatted with widths 6, 6, 7 and 5, the battery level in decimal, and `<device name> online` |
| SensorData.U32ToLe | include/shared/sensor_data.h:8-10 | a 32-bit field takes four bytes, least significant first |
| SensorData.LeU32RoundTrip | include/shared/sensor_data.h:10 | reading back the four bytes written for a 32-bit value gives the value |
| SensorData.U32LeRoundTrip | include/shared/sensor_data.h:10 | writing the value read from any four bytes gives those bytes |
| SensorData.Encode | include/shared/sensor_data.h:8-19 | the packed 38-byte layout: timestamp at 0, the four floats at 4, 8, 12 and 16, battery at 20, sensor id at 21, the 16 name bytes at 22 |
| SensorData.Decode | include/shared/sensor_data.h:8-19 | a packet decodes exactly when it is 38 bytes long |
| SensorData.DecodeEncode | include/shared/sensor_data.h:8-19 | decoding an encoded record gives the record back |
| SensorData.EncodeDecode | include/shared/sensor_data.h:8-19 | every 38-byte packet is the encoding of what it decodes to |
| SensorData.CName | src/gateway_esp32/mqtt_setup.cpp:140 | `String(deviceName)`: the characters before the first NUL; with no NUL in the 16-byte field the source reads past it, and the model's choice is to stop at the field's end |
| FirmwareMain.PayloadText | src/gateway_esp32/main.cpp:288-292 | the character-appending loop builds the payload's text, one character per byte |
| FirmwareMain.Route | src/gateway_esp32/main.cpp:297-330 | at most one audio call; play_audio plays the normalised payload; other topics do nothing; on the commands topic nothing happens exactly for `status` and unrecognised commands |
| FirmwareMain.MqttCallback | src/main.cpp:144-191 | the callback's audio calls are `Route` of its topic and payload text |
| FirmwareMain.RouteIgnoresCase | src/gateway_esp32/main.cpp:309 | a command and its lower-cased form route alike |
| FirmwareMain.StatusIgnored | src/main.cpp:168-190 | this older callback ignores `status` |
| FirmwareMain.CommandsAgreeWithHandlers | src/gateway_esp32/mqtt_setup.cpp:60-108 | for every command but `list_files`, the old callback's call is the handler table's first effect, and the handler answers "handled" exactly when the callback acts or the command is `status` |
| FirmwareMain.PlayAgreesWithHandler | src/gateway_esp32/mqtt_setup.cpp:40-54 | the old callback and the play-audio handler play the same path |
| FirmwareMain.LocalPublications | src/gateway_esp32/main.cpp:333-351 | nothing when disconnected; otherwise three publications on the temperature, humidity and pressure topics, formatted with widths 4, 4 and 6 and one decimal |
| FirmwareMain.FiringsSpaced | src/main.cpp:394-405 | successive firings of a loop timer are at least the interval apart in 32-bit elapsed time, the first one measured from the last run |
| FirmwareMain.FiringsComplete | src/gateway_esp32/main.cpp:585-590 | at every pass `k`, the timer fires exactly when the interval has elapsed since its last run before `k` |
| FirmwareMain.TimerIsLastFiring | src/gateway_esp32/main.cpp:585-590 | the timer's last run after a run of passes is the last firing, or the start when none fired |
| FirmwareMain.FiringsAppend | src/gateway_esp32/main.cpp:585-596 | two runs of passes fire as the first does, then as the second does from the timer the first left, so successive `loop` passes compose |
| FirmwareMain.Sketch.constructor | src/gateway_esp32/main.cpp:87-97 | timers at 0, readings 0.0, no remote data, nothing published |
| FirmwareMain.Sketch.OnEspNowData | src/gateway_esp32/main.cpp:197-233 | a frame of any length but 38 changes nothing; a 38-byte frame becomes the stored record, marks data available, stamps the time and is forwarded at once |
| FirmwareMain.Sketch.PublishRemoteSensorData | src/gateway_esp32/main.cpp:357-385 | appends the six remote publications when connected and data is available, and nothing otherwise |
| FirmwareMain.Sketch.Tick | src/gateway_esp32/main.cpp:565-599 | the sensors are read when 2000 ms (32-bit difference) have elapsed and the data published when 10000 ms have, each timer then set to now; each timer fires and moves as `Firings` and `TimerAfter` say of a single pass |
| DeprecatedSender.Blocks | scripts/deprecated/stream_sender.py:170-173 | the datagrams cut from a buffer are all exactly 512 bytes |
| DeprecatedSender.Leftover | scripts/deprecated/stream_sender.py:170-173 | what the cutting loop leaves is shorter than 512 bytes |
| DeprecatedSender.BlocksSplit | scripts/deprecated/stream_sender.py:170-173 | the datagrams followed by the leftover are the buffer, and there are as many datagrams as full 512-byte blocks |
| DeprecatedSender.BlocksUnique | scripts/deprecated/stream_sender.py:170-173 | any cut into full datagrams and a short rest that rebuilds the buffer is the loop's own cut |
| DeprecatedSender.FlattenAppend | scripts/deprecated/stream_sender.py:172 | the bytes of two runs of datagrams are the bytes of each, in order |
| DeprecatedSender.SplitDatagrams | scripts/deprecated/stream_sender.py:170-173 | the `while len(buffer) >= UDP_CHUNK_SIZE` loop sends the buffer's blocks and keeps its leftover |
| DeprecatedSender.PackedAppend | scripts/deprecated/stream_sender.py:157-165 | packing an even-length run of codes and then the next is packing both together |
| DeprecatedSender.PassLength | scripts/deprecated/stream_sender.py:157-165 | a pass yields one byte per two samples, rounded up |
| DeprecatedSender.PassSplit | scripts/deprecated/stream_sender.py:147-167 | encoding up to an even index and then on is encoding in one go, and the packed bytes split likewise |
| DeprecatedSender.Accumulate | scripts/deprecated/stream_sender.py:167-173 | after a group the datagrams sent and the buffer kept hold exactly the bytes before plus the group's packed bytes |
| DeprecatedSender.GroupStep | scripts/deprecated/stream_sender.py:147-173 | one 1024-sample group moves the encoder on over the group and keeps the byte accounting of the pass |
| DeprecatedSender.SendGroup | scripts/deprecated/stream_sender.py:147-173 | one group moves the encoder over its samples, and the datagrams sent and the bytes kept account for every packed byte so far, with less than one datagram kept |
| DeprecatedSender.SendPass | scripts/deprecated/stream_sender.py:147-176 | a pass leaves the encoder as if it had encoded the whole file; the datagrams sent and the buffer kept are the incoming buffer plus the pass's packed codes; every datagram is full and the rest is short |
| DeprecatedSender.Repeat | scripts/deprecated/stream_sender.py:136-182 | `n` passes of the same bytes are `n` times as long |
| DeprecatedSender.PassCount | scripts/deprecated/stream_sender.py:178-179 | without `--loop` the file is sent once; with it, at least once |
| DeprecatedSender.RepeatAt | scripts/deprecated/stream_sender.py:181-182 | each pass of a looping run contributes the same bytes as the first, at its own offset |
| DeprecatedSender.PassAppended | scripts/deprecated/stream_sender.py:135-173 | the buffer carried from one pass into the next loses no byte: after `n+1` passes the stream is `n+1` copies of a pass |
| DeprecatedSender.StreamFile | scripts/deprecated/stream_sender.py:118-182 | the datagrams sent are exactly the 512-byte blocks of the repeated pass bytes, each pass encoded from a fresh encoder, and the unsent rest is their leftover |
| Adpcm.ClampPredictor | scripts/stream_sender_sanity_check.py:165-168 | the predictor is forced into the signed 16-bit range and left alone inside it |
| Adpcm.ClampIndex | scripts/stream_sender_sanity_check.py:170-174 | the step index is forced into 0..88 and left alone inside it |
| Adpcm.QuantizeMeaning | scripts/stream_sender_sanity_check.py:134-150 | bit 8 of the code is the sign of the difference; bits 4, 2 and 1 are the greedy comparisons with `step`, `step >> 1`, `step >> 2` |
| Adpcm.DecodeStep | scripts/stream_sender_sanity_check.py:152-174 | the state update from a code keeps predictor and index in range |
| Adpcm.EncodeStep | scripts/stream_sender_sanity_check.py:130-176 | one encoded sample keeps the encoder state valid |
| Adpcm.EncodeSeq | scripts/stream_sender_sanity_check.py:242-245 | one code per sample and a valid final state |
| Adpcm.RunAppend | scripts/stream_sender_sanity_check.py:242-245 | running a step function over two runs in turn is running it over their concatenation |
| Adpcm.EncodeSeqFirst | scripts/stream_sender_sanity_check.py:242-245 | the codes of a non-empty run are the first sample's code followed by the others' from the state it leads to |
| Adpcm.DecodeSeq | scripts/stream_sender_sanity_check.py:152-174 | one reconstructed sample per code and a valid final state |
| Adpcm.EncodedSamples | scripts/stream_sender_sanity_check.py:160-168 | one encoder predictor per sample |
| Adpcm.GreedyRemainder | scripts/stream_sender_sanity_check.py:139-150 | after the three greedy subtractions at most `(step >> 2) + 1` remains, unless all three fired |
| Adpcm.MagnitudeError | scripts/stream_sender_sanity_check.py:139-158 | within the quantiser's reach, the distance the magnitude bits stand for is within `(step >> 2) + 1` of the distance quantised |
| Adpcm.ErrorBound | scripts/stream_sender_sanity_check.py:160-168 | moving towards a 16-bit sample and clamping to 16 bits does not move away from it |
| Adpcm.ReconstructionError | scripts/stream_sender_sanity_check.py:130-176 | for a sample within reach of the predictor, the new predictor is within `(step >> 2) + 1` of it |
| Adpcm.DecodeError | scripts/stream_sender_sanity_check.py:152-168 | the same bound for the decoder's step on any greedily chosen code |
| Adpcm.DecodeToward | scripts/stream_sender_sanity_check.py:160-168 | a code whose sign points at the sample leaves it no further than the gap between distance and magnitude |
| Adpcm.CodeMagnitudeError | scripts/stream_sender_sanity_check.py:139-158 | the magnitude bound, stated for the bits of a code |
| Adpcm.DecodePredictor | scripts/stream_sender_sanity_check.py:152-168 | the new predictor is the clamped old one moved by the code's magnitude in its sign's direction |
| Adpcm.DecodeEncoded | scripts/stream_sender_sanity_check.py:237-251 | a receiver decoding the codes from the state in the header reproduces the encoder's predictor after every sample and its final state |
| Adpcm.EncodeSeqAppend | scripts/stream_sender_sanity_check.py:223-245 | the encoder carries its state from one frame into the next: encoding two runs in turn is encoding their concatenation |
| Adpcm.PackedLength | scripts/stream_sender_sanity_check.py:247-251 | the payload has one byte per two codes, rounded up |
| Adpcm.UnpackPacked | scripts/stream_sender_sanity_check.py:247-251 | reading the payload back high half first gives the codes, plus one zero code after an odd count |
| Adpcm.ByteHalves | scripts/stream_sender_sanity_check.py:249 | `(hi << 4) \| lo` splits back into `hi` and `lo` |
| Adpcm.PackNibbles | scripts/stream_sender_sanity_check.py:247-251 | the packing loop and the odd-tail step produce the packed payload |
| Adpcm.PackPairs | scripts/stream_sender_sanity_check.py:248-249 | the pair loop stops with at most one code left and its bytes are the payload's prefix |
| Adpcm.ToSamples | scripts/stream_sender_sanity_check.py:210-215 | the conversion loop yields the signed little-endian samples, a lone last byte read as signed 8-bit |
| Adpcm.LeBytes | scripts/stream_sender_sanity_check.py:212-214 | a 16-bit sample is two bytes |
| Adpcm.PcmBytes | scripts/stream_sender_sanity_check.py:209-215 | two bytes per sample |
| Adpcm.LeBytesValue | scripts/stream_sender_sanity_check.py:212-214 | the two bytes read back as a signed 16-bit value give the sample |
| Adpcm.SamplesOfPcm | scripts/stream_sender_sanity_check.py:209-215 | reading 16-bit little-endian PCM recovers the samples it was written from |
| Adpcm.SampleOfPcm | scripts/stream_sender_sanity_check.py:211-215 | each sample is recovered at its own offset |
| Adpcm.Encoder.constructor | scripts/stream_sender_sanity_check.py:126-128 | a new encoder starts at predictor 0 and index 0 |
| Adpcm.Encoder.EncodeSample | scripts/stream_sender_sanity_check.py:130-176 | returns the code and moves to the state of `EncodeStep` |
| Adpcm.Encoder.Reconstruct | scripts/stream_sender_sanity_check.py:152-174 | the predictor and index update is the decoder's step on the code |
| Adpcm.Encoder.QuantizeBits | scripts/stream_sender_sanity_check.py:134-150 | the bit-by-bit loop builds the quantiser's code |
| Adpcm.Encoder.EncodeSamples | scripts/stream_sender_sanity_check.py:242-245 | the codes of the frame and the state after it are those of `EncodeSeq` |
| StreamSender.FrameConstants | scripts/stream_sender_sanity_check.py:19-25 | a frame is 960 samples (60 ms at 16 kHz) and its payload 480 bytes |
| StreamSender.FrameAt | scripts/stream_sender_sanity_check.py:233-235 | every frame is exactly 960 samples long |
| StreamSender.FrameAtSample | scripts/stream_sender_sanity_check.py:233-235 | sample `k` of the frame at `idx` is sample `idx + k` of the file, or silence past its end |
| StreamSender.FrameOfFull | scripts/stream_sender_sanity_check.py:233 | a frame inside the samples is the plain slice |
| StreamSender.BeU32 | scripts/stream_sender_sanity_check.py:255 | `>I` packs four bytes |
| StreamSender.BeI16 | scripts/stream_sender_sanity_check.py:255 | `>h` packs two bytes |
| StreamSender.Header | scripts/stream_sender_sanity_check.py:253-255 | the header is seven bytes |
| StreamSender.ParseHeader | scripts/stream_sender_sanity_check.py:253-255 | a receiver's reading of the header: present exactly for datagrams of at least seven bytes, with fields in their ranges |
| StreamSender.BeU32Value | scripts/stream_sender_sanity_check.py:255 | the four big-endian bytes read back give the number |
| StreamSender.BeI16Value | scripts/stream_sender_sanity_check.py:255 | the two big-endian two's-complement bytes read back give the predictor |
| StreamSender.HeaderRoundTrip | scripts/stream_sender_sanity_check.py:253-256 | the header carries sequence number, predictor and index exactly, whatever payload follows |
| StreamSender.PacketLength | scripts/stream_sender_sanity_check.py:247-256 | every datagram of a full frame is 487 bytes |
| StreamSender.PacketDecodes | scripts/stream_sender_sanity_check.py:237-256 | a receiver holding only one datagram reads the encoder's state from its header and, decoding the payload from it, reproduces the encoder's reconstruction of the frame and the state the sender continues with |
| StreamSender.Jobs | scripts/stream_sender_sanity_check.py:223-264 | the frames the file mode sends never exceed the budget |
| StreamSender.Packets | scripts/stream_sender_sanity_check.py:253-259 | one datagram per frame |
| StreamSender.PacketsAt | scripts/stream_sender_sanity_check.py:253-259 | datagram `k` is the packet of frame `k` |
| StreamSender.FramesLeftCeil | scripts/stream_sender_sanity_check.py:224-264 | the frames left from `idx` are the samples left divided by 960, rounded up |
| StreamSender.JobsCount | scripts/stream_sender_sanity_check.py:224-226 | without `--loop` the sender stops after `ceil(len / 960)` frames, unless the budget runs out first |
| StreamSender.LoopCount | scripts/stream_sender_sanity_check.py:224-231 | with `--loop` the sender never stops by itself |
| StreamSender.JobsAt | scripts/stream_sender_sanity_check.py:233-264 | frame `k` is sent `k`-th, numbered `count + k` modulo 2^32, with the state the encoder reached over every sample before it |
| StreamSender.JobsAtFirst | scripts/stream_sender_sanity_check.py:233-245 | the first frame goes out with the starting state |
| StreamSender.JobsAtStep | scripts/stream_sender_sanity_check.py:233-264 | frame `k` from `idx` is frame `k - 1` from the next position and state |
| StreamSender.JobsUnfold | scripts/stream_sender_sanity_check.py:233-264 | while samples remain, the stream is this frame followed by the stream from the next position |
| StreamSender.LoopRestarts | scripts/stream_sender_sanity_check.py:224-231 | in loop mode the stream is one non-looping pass over the file, followed by the stream started afresh at the first sample with a new encoder |
| StreamSender.LoopRestartsEnd | scripts/stream_sender_sanity_check.py:224-228 | at the end of the samples the pass is empty and the stream restarts at once |
| StreamSender.LoopRestartsStep | scripts/stream_sender_sanity_check.py:233-264 | one frame of the pass, then the rest of the restart equation |
| StreamSender.StreamPacket | scripts/stream_sender_sanity_check.py:223-264 | packet `k` of a non-looping stream carries sequence number `k mod 2^32`, is 487 bytes, and decodes on its own into the encoder's reconstruction of frame `k` from the state reached over all earlier samples |
| StreamSender.StreamPacketIs | scripts/stream_sender_sanity_check.py:233-264 | packet `k` is the datagram of frame `k` |
| StreamSender.StreamJob | scripts/stream_sender_sanity_check.py:233-264 | frame `k` goes out `k`-th with the state the encoder reached over every sample before it |
| StreamSender.SeqNoOf | scripts/stream_sender_sanity_check.py:263 | a sequence number is below 2^32 |
| StreamSender.SeqNoIsMod | scripts/stream_sender_sanity_check.py:263 | the sequence number of a frame is the count of earlier frames modulo 2^32 |
| StreamSender.SeqNoSucc | scripts/stream_sender_sanity_check.py:263 | `(seq + 1) & 0xFFFFFFFF` steps from one frame's number to the next one's |
| StreamSender.SendFrame | scripts/stream_sender_sanity_check.py:233-259 | the datagram of the frame at `idx`, encoded from the running encoder's state, which moves on over the frame |
| StreamSender.StreamFile | scripts/stream_sender_sanity_check.py:208-264 | the datagrams handed to `sendto`, in order, are the stream of the file's samples |
| StreamSender.Restart | scripts/stream_sender_sanity_check.py:224-229 | at the end of the samples, with looping on, the position goes back to 0 with a fresh encoder in its initial state; elsewhere position and encoder are kept; either way the loop's account of the stream still holds |
| StreamSender.SendFrameAt | scripts/stream_sender_sanity_check.py:233-264 | sending the frame at the position reached moves the account of the stream one datagram further, with the sequence number counting frames modulo 2^32 |
| StreamSender.StartSending | scripts/stream_sender_sanity_check.py:208-221 | before the loop nothing has been sent and the whole stream is ahead |
| StreamSender.SendingDone | scripts/stream_sender_sanity_check.py:223-226 | the loop ends with the whole stream sent |
| StreamSender.NextSeqNo | scripts/stream_sender_sanity_check.py:263 | the wrapped successor counts one more frame |
| StreamSender.Rewind | scripts/stream_sender_sanity_check.py:224-228 | at the end of the samples in loop mode, the stream to come is the stream from the start with a fresh encoder |
| StreamSender.JobsRewind | scripts/stream_sender_sanity_check.py:224-228 | the same, over frames alone |
| StreamSender.SendNext | scripts/stream_sender_sanity_check.py:233-264 | sending the frame at `idx` keeps the loop's account of the stream |
| StreamSender.JobsNext | scripts/stream_sender_sanity_check.py:233-264 | the same account over frames, for any step function |
| StreamSender.NextJob | scripts/stream_sender_sanity_check.py:256-259 | appending a frame appends its datagram |
| ChunkUploader.TotalChunks | scripts/mqtt_audiochunkupload.py:85 | `ceil(size / 4096)`: enough chunks to hold the file, none to spare, and zero only for an empty file |
| ChunkUploader.Chunk | scripts/mqtt_audiochunkupload.py:94-96 | a chunk holds at most 4096 bytes |
| ChunkUploader.ChunkList | scripts/mqtt_audiochunkupload.py:93-96 | the `i`-th chunk sent is the file's slice `i` |
| ChunkUploader.ChunkNonEmpty | scripts/mqtt_audiochunkupload.py:93-96 | every chunk the script sends holds at least one byte |
| ChunkUploader.SentPrefixStep | scripts/mqtt_audiochunkupload.py:94-96 | the chunks before `k` followed by chunk `k` are the chunks before `k + 1` |
| ChunkUploader.ConcatChunkList | scripts/mqtt_audiochunkupload.py:93-99 | the first `k` chunks joined are the file's first `min(4096 k, size)` bytes |
| ChunkUploader.ChunksCoverFile | scripts/mqtt_audiochunkupload.py:84-99 | all the chunks joined are the whole file, in order, each of 1 to 4096 bytes |
| ChunkUploader.DecimalIsByteString | scripts/mqtt_audiochunkupload.py:98 | a decimal number encodes to ASCII |
| ChunkUploader.Header | scripts/mqtt_audiochunkupload.py:98 | `CHUNK:<i>:<total>:` is ASCII and eight characters longer than its two numbers |
| ChunkUploader.FrameHeader | scripts/mqtt_audiochunkupload.py:98 | the same, for the decimal forms of `i` and `total` |
| ChunkUploader.StartMessage | scripts/mqtt_audiochunkupload.py:88 | `START:<size>` is the ASCII encoding of the gateway's start prefix and the size's digits |
| ChunkUploader.FirstUnacked | scripts/mqtt_audiochunkupload.py:93-115 | the first chunk whose ACK does not arrive: every chunk before it was acknowledged, and it was not |
| ChunkUploader.FrameMessages | scripts/mqtt_audiochunkupload.py:93-99 | message `i` is chunk `i`'s frame on the chunk topic |
| ChunkUploader.TraceWhenAborted | scripts/mqtt_audiochunkupload.py:113-115 | the first chunk left unacknowledged ends the upload after its own frame, without `END` |
| ChunkUploader.TraceWhenComplete | scripts/mqtt_audiochunkupload.py:119 | when every chunk was acknowledged the trace is `START`, every frame, `END` |
| ChunkUploader.AckedBeforeFirstUnacked | scripts/mqtt_audiochunkupload.py:108-117 | an acknowledged chunk lies before the first unacknowledged one |
| ChunkUploader.UploadClient.constructor | scripts/mqtt_audiochunkupload.py:16-17 | both globals start as `None`, and nothing is published |
| ChunkUploader.UploadClient.Publish | scripts/mqtt_audiochunkupload.py:54 | a publication appends one message and changes nothing else |
| ChunkUploader.UploadClient.OnMessage | scripts/mqtt_audiochunkupload.py:23-43 | on the ACK topic a well-formed `ACK:<n>` sets `last_ack`; elsewhere a `FREE:` payload that `int` accepts sets `free_space_reply`; a payload `int` rejects changes nothing; nothing is published |
| ChunkUploader.UploadClient.SendInChunks | scripts/mqtt_audiochunkupload.py:79-120 | publishes `START`, then the frames up to and including the first one left unacknowledged, then `END` exactly when every chunk was acknowledged |
| ChunkUploader.UploadClient.SendChunk | scripts/mqtt_audiochunkupload.py:93-111 | publishes frame `i` and reports it acknowledged exactly when that chunk's ACK arrived during the wait |
| ChunkUploader.UploadClient.RequestFreeSpace | scripts/mqtt_audiochunkupload.py:49-63 | clears the reply, publishes `REQUEST_FREE_SPACE` and returns the free space the reply reports, or nothing |
| ChunkUploader.UploadClient.Upload | scripts/mqtt_audiochunkupload.py:140-156 | the request, then the upload trace exactly when a reply arrived and the file fits |
| ChunkUploader.UploadClient.SendIfItFits | scripts/mqtt_audiochunkupload.py:142-156 | no reply or a file larger than the free space sends nothing; otherwise the upload trace |
| ChunkUploader.StartFirstEndLast | scripts/mqtt_audiochunkupload.py:88-119 | `START` comes first; `END` is sent exactly when every chunk was acknowledged, and then right after all the frames |
| ChunkUploader.FrameIsNotEnd | src/gateway_esp32/audio_manager.cpp:475-476 | no frame can be mistaken for `END` |
| ChunkUploader.StopAndWait | scripts/mqtt_audiochunkupload.py:101-115 | a missing ACK for chunk `i` means no frame after it and no `END`, and every frame before the last was acknowledged |
| ChunkUploader.AckRoundTrip | src/gateway_esp32/audio_manager.cpp:458-460 | the gateway's `ACK:<i>` is read back by the script as `i` |
| ChunkUploader.GatewayAcksCompleteUpload | scripts/mqtt_audiochunkupload.py:93-119 | with the gateway's own ACK delivered during every wait, the whole file goes out followed by `END` |
| ChunkUploader.StripPySpacesKeeps | scripts/mqtt_audiochunkupload.py:42 | `int` strips nothing from a string without surrounding white space |
| ChunkUploader.GatewayReplyRejected | scripts/mqtt_audiochunkupload.py:41-42 | as written, the gateway's `FREE:<free>:<size>` reply makes `int` raise, so the script never learns the free space and never uploads |
| ChunkUploader.FirstField | scripts/mqtt_audiochunkupload.py:42 | the text before the first colon |
| ChunkUploader.FirstFieldOfDigits | src/gateway_esp32/audio_manager.cpp:337-338 | the first field of `<digits>:<rest>` is the digits |
| ChunkUploader.GatewayReplyCorrected | src/gateway_esp32/audio_manager.cpp:336-340 | read by its first field, the reply gives back the gateway's free space, and the upload goes ahead exactly when the file fits |
| ChunkUploader.FeedAppend | src/gateway_esp32/audio_manager.cpp:308-493 | the gateway handling two runs of messages in turn is handling their concatenation |
| ChunkUploader.TextOfBytes | src/gateway_esp32/audio_manager.cpp:356 | the characters of an ASCII header survive the byte encoding |
| ChunkUploader.NextColonAt | src/gateway_esp32/audio_manager.cpp:427-436 | the colon scan finds the first colon from its start |
| ChunkUploader.HeaderColons | src/gateway_esp32/audio_manager.cpp:425-444 | the gateway finds the script's two header colons where the script put them, and the raw bytes after them are the chunk |
| ChunkUploader.FrameColons | src/gateway_esp32/audio_manager.cpp:425-444 | the same for a frame built from two numbers |
| ChunkUploader.HeaderChars | scripts/mqtt_audiochunkupload.py:98 | the header is `CHUNK:`, the index digits, a colon, the total's digits and a colon |
| ChunkUploader.FrameIndex | src/gateway_esp32/audio_manager.cpp:442 | the gateway parses the index the script wrote, saturated to an `int` |
| ChunkUploader.FramePrefix | src/gateway_esp32/audio_manager.cpp:354-418 | a frame carries the chunk prefix and not the start prefix |
| ChunkUploader.FrameParses | src/gateway_esp32/audio_manager.cpp:416-472 | a frame received while receiving appends its chunk to the file, adds its length and acknowledges its index (saturated to an `int`) |
| ChunkUploader.TopicsAgree | src/gateway_esp32/audio_manager.cpp:314-319 | the script and the gateway use the same topic names |
| ChunkUploader.FeedOne | src/gateway_esp32/audio_manager.cpp:308-316 | handling a single message is one call of the gateway's handler |
| ChunkUploader.Acks | src/gateway_esp32/audio_manager.cpp:457-466 | `k` acknowledgements with a client, none without |
| ChunkUploader.FrameStep | src/gateway_esp32/audio_manager.cpp:416-472 | frame `i` appends chunk `i` to the received file, grows the received size by its length and queues `ACK:<i>` |
| ChunkUploader.FeedFrames | src/gateway_esp32/audio_manager.cpp:416-472 | the first `k` frames append the first `k` chunks to the file, count their bytes and queue `k` ACKs |
| ChunkUploader.FramesCompose | src/gateway_esp32/audio_manager.cpp:444-452 | the state after `i` frames and one more is the state after `i + 1` frames |
| ChunkUploader.FeedFramesNone | src/gateway_esp32/audio_manager.cpp:416-472 | no frames change nothing |
| ChunkUploader.ChunkedFile | src/gateway_esp32/audio_manager.cpp:447 | appending to the file twice is appending the concatenation |
| ChunkUploader.StartOpens | src/gateway_esp32/audio_manager.cpp:353-414 | the script's `START:<n>` at a gateway whose open succeeds starts an empty received file expecting `n` bytes, or 2^31 - 1 when `n` exceeds a `long` |
| ChunkUploader.StartWithDigits | src/gateway_esp32/audio_manager.cpp:353-414 | the same for any digit string whose value is `n` |
| ChunkUploader.EndCloses | src/gateway_esp32/audio_manager.cpp:474-490 | `END` only stops receiving |
| ChunkUploader.UploadDelivers | src/gateway_esp32/audio_manager.cpp:308-493 | a complete upload leaves the gateway idle with the received file equal to the script's file, the received size the file's length, the expected size the file's length up to 2^31 - 1, and one ACK per chunk queued |
| AudioUpload.ParseNumber | src/gateway_esp32/audio_manager.cpp:298-305 | an empty field, or one too long for the 16-byte buffer with its terminator, reads as 0; otherwise `atoi` of the field, which always lies in the 32-bit `int` range |
| AudioUpload.NextColon | src/gateway_esp32/audio_manager.cpp:427-436 | the first colon at or after `from`, or the end when there is none |
| AudioUpload.ChunkHeader | src/gateway_esp32/audio_manager.cpp:425-440 | when found, the two colons lie in order after the six-byte prefix and inside the payload |
| AudioUpload.FreeReply | src/gateway_esp32/audio_manager.cpp:336-338 | the reply starts with `FREE:` |
| AudioUpload.AckMessage | src/gateway_esp32/audio_manager.cpp:458-459 | the acknowledgement starts with `ACK:` |
| AudioUpload.StartSize | src/gateway_esp32/audio_manager.cpp:356-357 | the expected size is `toInt` of the text after `START:`, a 32-bit `long`, converted to `size_t`: kept when non-negative, wrapped by 2^32 when negative |
| AudioUpload.ScanColons | src/gateway_esp32/audio_manager.cpp:425-437 | the loop finds two colons exactly when the header is well formed, and then at the header's positions |
| AudioUpload.Receiver.constructor | src/gateway_esp32/audio_manager.cpp:24-38 | not receiving, both sizes 0, no client and nothing published, over the existing filesystem |
| AudioUpload.Receiver.SetMqttClient | src/gateway_esp32/audio_manager.cpp:46-48 | only whether a client is present changes |
| AudioUpload.Receiver.Publish | src/gateway_esp32/audio_manager.cpp:339-340 | a publication is queued only when a client is present |
| AudioUpload.Receiver.HandleMqttMessage | src/gateway_esp32/audio_manager.cpp:308-493 | the answer and the new globals and filesystem are those of `Receive`, and the receiver's invariant holds |
| AudioUpload.Receiver.HandleRequest | src/gateway_esp32/audio_manager.cpp:318-351 | the request branch behaves as `OnRequest` |
| AudioUpload.Receiver.HandleStart | src/gateway_esp32/audio_manager.cpp:353-414 | the start branch behaves as `OnStart` |
| AudioUpload.Receiver.HandleChunk | src/gateway_esp32/audio_manager.cpp:416-472 | the chunk branch behaves as `OnChunk` |
| AudioUpload.Receiver.AcceptChunk | src/gateway_esp32/audio_manager.cpp:442-471 | a well-formed chunk while receiving behaves as `OnChunk` |
| AudioUpload.Receiver.AppendChunk | src/gateway_esp32/audio_manager.cpp:446-470 | the bytes are appended to the open destination, the count grows by their number modulo 2^32 and `ACK:<index>` is published through a client |
| AudioUpload.ReceivePreservesValid | src/gateway_esp32/audio_manager.cpp:308-493 | every message keeps both counters in `size_t` range and the destination file present while receiving |
| AudioUpload.ReceiveKeepsClient | src/gateway_esp32/audio_manager.cpp:308-493 | no message hands over or drops the bus client |
| AudioUpload.OtherTopicsIgnored | src/gateway_esp32/audio_manager.cpp:313-316 | a message on any other topic is not handled and changes nothing |
| AudioUpload.FreeSpaceRequest | src/gateway_esp32/audio_manager.cpp:318-351 | exactly `REQUEST_FREE_SPACE` is handled; it publishes, through a client, the free space and the current file's size, and changes nothing else |
| AudioUpload.StartResets | src/gateway_esp32/audio_manager.cpp:353-414 | `START:<n>` is handled, records `toInt(n)` converted to `size_t` (so `n` itself up to 2^31 - 1 and 2^31 - 1 above it), zeroes the received count, replaces the destination by an empty file when it opens and removes it otherwise, receives exactly when it opened, and leaves other files and the outbox alone |
| AudioUpload.ChunkWhileIdle | src/gateway_esp32/audio_manager.cpp:418-423 | a chunk while not receiving is handled and changes nothing |
| AudioUpload.MalformedChunk | src/gateway_esp32/audio_manager.cpp:437-440 | a chunk without two colons is handled and changes nothing |
| AudioUpload.WellFormedChunk | src/gateway_esp32/audio_manager.cpp:442-471 | a well-formed chunk while receiving appends exactly the bytes after the second colon, grows the count by their number (modulo 2^32) and publishes `ACK:<index>`; an empty body changes nothing |
| AudioUpload.ChunkAccepted | src/gateway_esp32/audio_manager.cpp:442-471 | the same for the chunk handler alone: the bytes after the second colon appended, counted and acknowledged, or nothing changed when there are none |
| AudioUpload.EndIdempotent | src/gateway_esp32/audio_manager.cpp:474-490 | `END` is always handled and only stops receiving, so a second `END` changes nothing |
| AudioUpload.ParseNumberOfDecimal | src/gateway_esp32/audio_manager.cpp:298-305 | a number of at most 15 characters written in decimal is read back when it fits an `int`, and as the nearest `int` bound otherwise |
| AudioPlayer.Initial | src/audio_manager.cpp:3-12 | a new manager is uninitialised, silent, at volume 0.5, with every pointer null |
| AudioPlayer.OnCleanup | src/audio_manager.cpp:16-36 | every decoder and source pointer is null and nothing plays; output, initialised flag and volume are kept |
| AudioPlayer.Clamp | src/audio_manager.cpp:184 | `constrain(v, 0.0, 1.0)`: the result lies in [0, 1], equals `v` inside it and the nearer bound outside |
| AudioPlayer.OperationsPreserveValid | src/audio_manager.cpp:16-207 | every operation keeps the pointer invariant: output exactly while initialised, a source exactly while a decoder, the ID3 wrapper with the MP3 decoder, at most one decoder, a decoder while playing, volume in [0, 1] |
| AudioPlayer.BeginFacts | src/audio_manager.cpp:38-66 | `begin` succeeds exactly when already initialised or the mount succeeds; a second `begin` changes nothing; a failed mount leaves the manager uninitialised |
| AudioPlayer.PlayFileOutcome | src/audio_manager.cpp:81-155 | `playFile` succeeds exactly when initialised, the file exists, its extension is `.wav` or `.mp3` in any case and the decoder starts, and then the matching decoder plays; every failure after initialisation leaves the manager cleaned up; uninitialised it changes nothing |
| AudioPlayer.FormatIgnoresCase | src/audio_manager.cpp:97-100 | a name and its lower-case form pick the same decoder |
| AudioPlayer.UpperCaseExtensions | src/audio_manager.cpp:97-103 | `.WAV` and `.Mp3` are recognised |
| AudioPlayer.LowerOfExtensions | src/audio_manager.cpp:98 | lower-casing the two upper-case extensions |
| AudioPlayer.LowerAppend | src/audio_manager.cpp:98 | lower-casing works character by character |
| AudioPlayer.LoopOutcome | src/audio_manager.cpp:162-181 | `loop` never touches an idle or uninitialised manager, cleans up when the decoder reports the end, keeps a healthy stream, and clears the playing flag when no decoder runs |
| AudioPlayer.PlayingOutcome | src/audio_manager.cpp:193-207 | `playing()` answers exactly "initialised, playing and a decoder running", and only its playing flag can change, to false |
| AudioPlayer.EndThenBegin | src/audio_manager.cpp:68-79 | after `end` the manager is uninitialised, silent and without output, refuses to play, and a working mount initialises it again |
| AudioPlayer.AudioManager.constructor | src/audio_manager.cpp:3-12 | the fields are those of `Initial` |
| AudioPlayer.AudioManager.Cleanup | src/audio_manager.cpp:16-36 | the new fields are `OnCleanup` of the old |
| AudioPlayer.AudioManager.Begin | src/audio_manager.cpp:38-66 | the answer and new fields are `OnBegin`'s |
| AudioPlayer.AudioManager.End | src/audio_manager.cpp:68-79 | the new fields are `OnEnd` of the old |
| AudioPlayer.AudioManager.Stop | src/audio_manager.cpp:157-160 | `stop` is a cleanup |
| AudioPlayer.AudioManager.PlayFile | src/audio_manager.cpp:81-108 | the answer and new fields are `OnPlayFile`'s |
| AudioPlayer.AudioManager.PlayWav | src/audio_manager.cpp:110-131 | the answer and new fields are `OnPlayWav`'s |
| AudioPlayer.AudioManager.PlayMp3 | src/audio_manager.cpp:133-155 | the answer and new fields are `OnPlayMp3`'s |
| AudioPlayer.AudioManager.Loop | src/audio_manager.cpp:162-181 | the new fields are `OnLoop`'s |
| AudioPlayer.AudioManager.SetVolume | src/audio_manager.cpp:183-189 | the volume becomes the clamped value and nothing else changes |
| AudioPlayer.AudioManager.GetVolume | src/audio_manager.cpp:191 | the stored volume, with nothing changed |
| AudioPlayer.AudioManager.Playing | src/audio_manager.cpp:193-207 | the answer and new fields are `OnPlaying`'s |
| SdManager.AttemptStep | src/gateway_esp32/sd_manager.cpp:19-43 | one attempt of the retry loop ends `begin` exactly when it mounts at 4 MHz or 1 MHz, and otherwise hands over to the next attempt with both clocks probed |
| SdManager.SomeMountFromIff | src/gateway_esp32/sd_manager.cpp:19-47 | the retry loop reports a mount iff some attempt number below `maxRetries` mounts at either clock |
| SdManager.ProbesShape | src/gateway_esp32/sd_manager.cpp:23-36 | the clocks probed alternate 4 MHz, 1 MHz, start at 4 MHz and number at most two per attempt; no attempts means no probes |
| SdManager.BeginOutcome | src/gateway_esp32/sd_manager.cpp:5-48 | on an unmounted card `begin` succeeds iff some attempt mounts, `_ready` equals the answer, the probes are bounded by the retries, and a second `begin` after success is a no-op returning true |
| SdManager.OperationsPreserveValid | src/gateway_esp32/sd_manager.cpp:54-143 | begin, open, write, close and remove keep "a file is open only on a mounted card" and the flush counter below 32768 |
| SdManager.OpenOutcome | src/gateway_esp32/sd_manager.cpp:54-74 | an open succeeds iff the card is mounted and the card opens the file; success leaves that file empty and open with the counter reset; other files are untouched; a failed open of an existing file leaves it removed; an unmounted card is unchanged |
| SdManager.WriteChunkOutcome | src/gateway_esp32/sd_manager.cpp:76-97 | a write succeeds iff the card is mounted, a file is open and every byte is taken; the bytes append to the open file; a flush happens exactly when the 32768-byte threshold is reached, otherwise the counter accumulates; a short write keeps the accepted prefix and closes the file |
| SdManager.WritesAccumulate | src/gateway_esp32/sd_manager.cpp:88-94 | two full writes below the threshold add both lengths to the counter without a flush and append both chunks in order |
| SdManager.AudioNamesStep | src/gateway_esp32/sd_manager.cpp:123-130 | one more entry adds its name exactly when it is a file ending in `.mp3` or `.wav`, and nothing otherwise |
| SdManager.LastComma | src/gateway_esp32/sd_manager.cpp:126 | the last comma of a listing is found with none after it, or the listing holds none |
| SdManager.LastCommaOfJoined | src/gateway_esp32/sd_manager.cpp:126-127 | appending `,` and a comma-free name puts the last comma right after the earlier listing |
| SdManager.JoinSnoc | src/gateway_esp32/sd_manager.cpp:126-128 | appending a name writes it bare as the first entry and after a `,` otherwise, as the `first` flag decides |
| SdManager.SplitJoin | src/gateway_esp32/sd_manager.cpp:114-135 | a listing of comma-free names splits back into exactly those names, in order |
| SdManager.SdCard.constructor | src/gateway_esp32/sd_manager.cpp:3 | a new manager is unmounted, has no open file and a zero counter |
| SdManager.SdCard.Begin | src/gateway_esp32/sd_manager.cpp:5-48 | the retry loop leaves the state and answer `OnBegin` gives, whose meaning `BeginOutcome` states |
| SdManager.SdCard.Attempt | src/gateway_esp32/sd_manager.cpp:23-36 | one attempt mounts iff either clock works and records the clocks it probed, 1 MHz only after 4 MHz failed |
| SdManager.SdCard.OpenForWrite | src/gateway_esp32/sd_manager.cpp:54-74 | the new state and answer are `OnOpenForWrite`'s, whose meaning `OpenOutcome` states |
| SdManager.SdCard.WriteChunk | src/gateway_esp32/sd_manager.cpp:76-97 | the new state and answer are `OnWriteChunk`'s, whose meaning `WriteChunkOutcome` states |
| SdManager.SdCard.CloseFile | src/gateway_esp32/sd_manager.cpp:99-110 | an open file is flushed and closed; the counter is reset either way |
| SdManager.SdCard.Remove | src/gateway_esp32/sd_manager.cpp:141-143 | a file is removed only on a mounted card that holds it; nothing else changes |
| SdManager.SdCard.ListAudioFiles | src/gateway_esp32/sd_manager.cpp:114-135 | the loop builds the audio file names in iteration order joined by commas, and the empty string on an unmounted card |
| SdManager.SdCard.Exists | src/gateway_esp32/sd_manager.cpp:137-139 | true iff the card is mounted and holds the file |
| SdManager.SdCard.GetFileSize | src/gateway_esp32/sd_manager.cpp:145-151 | the file's length on a mounted card that holds it, and 0 otherwise |
| TaskScheduler.IntervalOf | include/task_scheduler.h:43-56 | only a critical task has a zero interval, and no interval exceeds 100 ms |
| TaskScheduler.MakeTask | include/task_scheduler.h:36-57 | a new task is enabled, has never run, keeps its callback, priority and name, and takes its priority's interval |
| TaskScheduler.FirstNamed | include/task_scheduler.h:107-114 | the slot found is the first among the used ones with that name, and no slot is found only when no used slot has it |
| TaskScheduler.CallsStep | include/task_scheduler.h:89-102 | each loop pass appends slot `i`'s callback exactly when that slot is due |
| TaskScheduler.RunEffects | include/task_scheduler.h:89-102 | `run` changes only `lastRun`, only of due slots among the first `taskCount`, and sets it to `now`; every other slot is untouched |
| TaskScheduler.CallsOfDue | include/task_scheduler.h:92-101 | a callback is invoked iff some due slot holds it |
| TaskScheduler.CallsAppend | include/task_scheduler.h:88-89 | callbacks are invoked in slot order: the calls of a split table are those of the first part followed by those of the second |
| TaskScheduler.DueFacts | include/task_scheduler.h:92-101 | an enabled critical task with a callback is due on every pass; a disabled task or one without a callback never is; a non-critical task with a positive interval that just ran is not due again at the same instant |
| TaskScheduler.DueAcrossWrap | include/task_scheduler.h:97-98 | for an enabled task with a callback that is not critical: due exactly when `now - lastRun` reaches the interval if the counter has not wrapped since the last run, and `now + 2^32 - lastRun` if it has |
| TaskScheduler.EnableFirstOnly | include/task_scheduler.h:106-115 | `enableTask` changes only the `enabled` flag of the first matching used slot; with no match the table is unchanged; whenever a used slot matches, the flag is set at or before it |
| TaskScheduler.Scheduler.constructor | include/task_scheduler.h:28-34 | a new scheduler holds sixteen default slots and no tasks |
| TaskScheduler.Scheduler.AddTask | include/task_scheduler.h:68-82 | a task is accepted iff fewer than sixteen are stored; it fills the next slot and nothing else changes; a refused task changes nothing |
| TaskScheduler.Scheduler.Run | include/task_scheduler.h:85-103 | the loop leaves the table `RunAll` gives and returns the callbacks `Calls` gives, in order |
| TaskScheduler.Scheduler.RunSlot | include/task_scheduler.h:90-101 | one slot is run, and its callback returned, exactly when it is due; no other slot changes |
| TaskScheduler.Scheduler.EnableTask | include/task_scheduler.h:106-115 | the loop leaves the table `Enable` gives, whose meaning `EnableFirstOnly` states |
| Bytes.WrapSub | src/gateway_esp32/main.cpp:585 | `unsigned long` subtraction of two 32-bit readings: the plain difference when no wrap occurs, and the difference plus 2^32 across a wrap |
| Bytes.WrapAdd | src/gateway_esp32/audio_manager.cpp:452 | 32-bit addition stays below 2^32 and is the plain sum while that fits |
| Bytes.StringToBytes | scripts/mqtt_audiochunkupload.py:98 | encoding a string of byte-sized characters keeps its length and each code point |
| Bytes.BytesStringRoundTrip | src/gateway_esp32/main.cpp:289-292 | turning a payload into a `String` one byte per character and back gives the payload again |
| Bytes.StringBytesRoundTrip | scripts/mqtt_audiochunkupload.py:26 | decoding the bytes of a byte-sized string gives the string again |
| Bytes.StringToBytesAppend | scripts/mqtt_audiochunkupload.py:98 | encoding distributes over concatenation, so a header and its parts can be encoded separately |
| Bytes.ToLower | src/gateway_esp32/mqtt_setup.cpp:65 | `toLowerCase` moves `A`-`Z` up by 32 and leaves every other character alone |
| Bytes.Lower | src/gateway_esp32/mqtt_setup.cpp:65 | lower-casing a string keeps its length and lower-cases each character in place |
| Bytes.LowerIdempotent | src/gateway_esp32/mqtt_setup.cpp:65 | lower-casing twice is lower-casing once |
| Bytes.LowerOfLowercase | src/gateway_esp32/mqtt_setup.cpp:65 | a string without capitals is its own lower-case form |
| Bytes.LowerNoUpper | src/gateway_esp32/mqtt_setup.cpp:65 | a lower-cased string holds no capital letter |
| Bytes.NatToDecimal | src/gateway_esp32/audio_manager.cpp:338 | `String(n)` of an unsigned number is a non-empty run of digits, a single digit exactly below 10 |
| Bytes.DecimalAtMost | src/gateway_esp32/audio_manager.cpp:338 | a number below 10^k is written in at most k digits |
| Bytes.DecimalBelowU32 | src/gateway_esp32/audio_manager.cpp:338 | a 32-bit number is written in at most ten digits |
| Bytes.DecimalRoundTrip | src/gateway_esp32/audio_manager.cpp:338 | the digits `String(n)` writes have the value `n` |
| Bytes.LeadingDigits | src/gateway_esp32/audio_manager.cpp:304 | the digits `atoi` reads are a prefix of the text made of digits, stopped by the text's end or a non-digit |
| Bytes.LeadingDigitsOfDecimal | src/gateway_esp32/audio_manager.cpp:304 | `atoi`'s digit scan over a written number followed by a non-digit reads exactly that number's digits |
| Bytes.AllDigitsPrefix | src/gateway_esp32/audio_manager.cpp:304 | the digit scan over digits followed by a non-digit stops at the non-digit |
| Bytes.AtoiOfDecimal | src/gateway_esp32/audio_manager.cpp:304 | `atoi` reads back any written integer, negative ones included, up to a following non-digit |
| Bytes.AtoiOfNatToDecimal | src/gateway_esp32/audio_manager.cpp:357 | `toInt` of `String(n)` is `n` |
| Bytes.AtoiOfNatural | src/gateway_esp32/audio_manager.cpp:304 | `atoi` of a written natural followed by a non-digit is that natural |
| Bytes.AtoiOfDigits | src/gateway_esp32/audio_manager.cpp:304 | `atoi` of a non-empty digit run followed by a non-digit is the run's value, leading zeros allowed |
| Bytes.AtoiOfNegative | src/gateway_esp32/audio_manager.cpp:304 | `atoi` of `-` and a written positive number is its negation |
| Bytes.CAtoiOfDecimal | src/gateway_esp32/audio_manager.cpp:304 | the target's `atoi` reads a written integer back when it fits 32 bits, and its saturation otherwise |
| Bytes.RemoveUnderscores | scripts/mqtt_audiochunkupload.py:42 | removing the underscores of a digits-and-underscores literal leaves only digits |
| Bytes.AfterPyDigitChars | scripts/mqtt_audiochunkupload.py:42 | what may follow a digit in a Python integer literal is digits and single underscores only |
| Bytes.RemoveUnderscoresOfDigits | scripts/mqtt_audiochunkupload.py:42 | a plain digit run has no underscore to remove and is a valid literal tail |
| Bytes.ColonNotAfterPyDigit | scripts/mqtt_audiochunkupload.py:42 | a colon after digits is not part of a Python integer literal |
| Bytes.PyDigitsOfDigits | scripts/mqtt_audiochunkupload.py:33 | a plain digit run is a Python integer literal with its decimal value |
| Bytes.PyIntOfDigits | scripts/mqtt_audiochunkupload.py:33 | `int` of a non-empty digit run is its value |
| Bytes.PyIntOfNatural | scripts/mqtt_audiochunkupload.py:33 | `int` of `str(n)` is `n` |

## Left out

- Radio and link set-up (WiFi, soft AP, ESP-NOW bring-up) and the RTOS tasks: hardware and concurrency.
- FirmwareMain.Sketch.OnEspNowData: src/gateway_esp32/main.cpp:14 includes `include/sensor_data.h`, which is not part of this model; the record it defines is taken to be the packed 38-byte layout of include/shared/sensor_data.h, so the `data_len == sizeof(SensorData)` gate at main.cpp:207 is modelled as a test against 38.
- `reconnectMQTT` in src/gateway_esp32/main.cpp and src/main.cpp: a blocking retry loop around the broker client, superseded by `MqttManager.Manager.Reconnect`.
- `readSensors`, `updateDisplay` and the display manager: sensor drivers and UI.
- Floating point: `toFloat`, `dtostrf` and `String(v, 2)` are function parameters; the volume is a `real`.
- Timing: delays, the precision sleep of the stream sender and the ACK and free-space wait loops; a wait is a parameter saying whether the message arrived.
- Interrupting a looping sender with Ctrl+C: the number of passes is a parameter.
- The microphone modes of both stream senders: audio capture is I/O.
- `AudioManager::listFiles` (src/audio_manager.cpp:209-235): it only prints.
- `printCardInfo`, `printStatus` and every serial log line: output only.
- PubSubClient internals, packet sizes and buffer limits: the client is a connected flag and a trace of calls.
- NUL bytes in Arduino `String`: payloads are copied as raw characters.
- AudioUpload.StartResets: the LittleFS format-and-retry branch (src/gateway_esp32/audio_manager.cpp:378-403) erases every file when the filesystem is full; the model folds that branch into the open result and keeps the other files.
- AudioUpload.WellFormedChunk: `fsFile.write` is taken to write every byte it is given.
- MqttManager.Manager.RegisterHandler: the relative order of handlers of equal priority is left unspecified, because `std::sort` is not stable.
- The streaming jitter buffer, live mode and pre-roll: only constants exist for them.
- MqttSetup.SetupMqttHandlers: `audio.registerMQTTHandlers(mqtt)` (src/gateway_esp32/mqtt_setup.cpp:111) is declared in include/audio_manager.h:103 but its body is not part of this model; the registrations it makes are a parameter, each taken to be one `registerHandler` call. The same holds for MqttSetup.SetupMqtt.
- AudioUpload.ParseNumber: an `atoi` of a number outside the 32-bit `int` range is undefined in C; the model takes the saturation of newlib's `strtol`, on which the ESP32 C library builds `atoi`. The same holds for AudioUpload.StartSize, whose `toInt` is `atol` on a 32-bit `long`.
- DeprecatedSender.StreamFile: every `sock.sendto` is taken to succeed; a send error (scripts/deprecated/stream_sender.py:172) reaches the `except` at line 184 and ends the run, which the model does not capture.
- `compress_mp3` (scripts/mqtt_audiochunkupload.py:69-77): the MP3 re-encoding by pydub before the upload is a codec library call; the uploader starts from the compressed bytes.

## Findings

| source | as written | input that shows it | evidently intended | confidence | as-written member | corrected member |
|---|---|---|---|---|---|---|
| scripts/mqtt_audiochunkupload.py:42 | the free-space reply is read as `int(payload[5:])` | the gateway's reply `FREE:1000:0` (src/gateway_esp32/audio_manager.cpp:336-338): `int("1000:0")` raises, so no free space is recorded and the upload never starts | read the first field after `FREE:` | not executed | ChunkUploader.GatewayReplyRejected | ChunkUploader.GatewayReplyCorrected |

`ChunkUploader.UploadClient` keeps the script's as-written parse; the
corrected reading is proved separately.
