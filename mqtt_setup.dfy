/** The gateway's handler table (`setupMQTTHandlers`) and the remote-sensor
    relay (`publishRemoteSensorData`).  A handler is a decision over the
    payload followed by effects on the player and the bus; the model returns
    the "handled" answer and the effects, in order.  What the player and the
    radio report back (did playback start, the file list, the volume, the
    signal strength) comes in as `Env`; parsing and printing floats are the
    function parameters `toFloat` and `fmt2`. */
module MqttSetup {
  import opened Bytes
  import opened MqttHandler
  import MqttManager
  import opened SensorData

  const TopicPlayAudio: string := "smartalarm/play_audio"
  const TopicCommands: string := "smartalarm/commands"
  const TopicAudioStatus: string := "smartalarm/audio/status"
  const TopicSystemStatus: string := "smartalarm/status"
  const TopicFiles: string := "smartalarm/files"
  const TopicGatewayStatus: string := "smartalarm/gateway/status"
  const ConfiguredClientId: string := "SmartAlarmClock"

  const TopicRemoteTemp: string := "smartalarm/sensor/temperature/outside"
  const TopicRemoteHumidity: string := "smartalarm/sensor/humidity/outside"
  const TopicRemotePressure: string := "smartalarm/sensor/pressure/outside"
  const TopicRemoteUv: string := "smartalarm/sensor/uvindex/outside"
  const TopicRemoteBattery: string := "smartalarm/sensor/battery/outside"
  const TopicRemoteStatus: string := "smartalarm/sensor/status"

  /** Callback identities of the two handlers registered here. */
  const PlayAudioCallback: CallbackId := 1
  const SystemCommandsCallback: CallbackId := 2

  const PlayAudioPriority: byte := 150
  const SystemCommandsPriority: byte := 100

  datatype Effect =
    | PlayFile(path: string)
    | StopAudio
    | SetVolume(volume: real)
    | Publish(topic: string, message: string)

  /** What the player and radio answer while a handler runs. */
  datatype Env = Env(playOk: bool, fileList: string, playing: bool, volume: real, rssi: int)

  datatype Outcome = Outcome(handled: bool, effects: seq<Effect>)

  /** A filename made absolute: `/` prepended unless already there. */
  function NormalizeFilename(f: string): (r: string)
    ensures StartsWith(r, "/")
    ensures StartsWith(f, "/") ==> r == f
    ensures !StartsWith(f, "/") ==> r == "/" + f
  {
    if StartsWith(f, "/") then f else "/" + f
  }

  lemma NormalizeIdempotent(f: string)
    ensures NormalizeFilename(NormalizeFilename(f)) == NormalizeFilename(f)
  {
  }

  /** Reply of a play attempt. */
  function PlayReply(ok: bool): string {
    if ok then "playing" else "error"
  }

  /** The play-audio handler: the whole payload names the file. */
  function PlayAudioHandler(payload: seq<byte>, playOk: bool): (o: Outcome)
    ensures o.handled
    ensures |o.effects| == 2 && o.effects[0].PlayFile? && o.effects[1].Publish?
    ensures var p := o.effects[0].path; var name := BytesToString(payload);
      StartsWith(p, "/") &&
      (StartsWith(name, "/") ==> p == name) &&
      (!StartsWith(name, "/") ==> p == "/" + name)
    ensures o.effects[1] == Publish(TopicAudioStatus, if playOk then "playing" else "error")
  {
    Outcome(true, [PlayFile(NormalizeFilename(BytesToString(payload))), Publish(TopicAudioStatus, PlayReply(playOk))])
  }

  /** A command, read off an (already lower-cased) message. */
  datatype Command = Stop | ListFiles | Volume(arg: string) | Play(file: string) | Status | Unrecognised

  function ParseCommand(message: string): (c: Command)
    ensures c == Stop <==> message == "stop_audio"
    ensures c == ListFiles <==> message == "list_files"
    ensures c.Volume? ==> message == "volume=" + c.arg
    ensures c.Play? ==> message == "play:" + c.file
    ensures c == Status ==> message == "status"
    ensures c == Unrecognised <==>
      message !in {"stop_audio", "list_files", "status"} && !StartsWith(message, "volume=") && !StartsWith(message, "play:")
  {
    if message == "stop_audio" then Stop
    else if message == "list_files" then ListFiles
    else if StartsWith(message, "volume=") then (assert message == "volume=" + message[7..]; Volume(message[7..]))
    else if StartsWith(message, "play:") then (assert message == "play:" + message[5..]; Play(message[5..]))
    else if message == "status" then Status
    else Unrecognised
  }

  /** Printing a command gives it back: the text after `volume=` and after
      `play:` is exactly the argument. */
  lemma ParseCommandPrefixes(x: string)
    ensures ParseCommand("volume=" + x) == Volume(x)
    ensures ParseCommand("play:" + x) == Play(x)
  {
    var v, p := "volume=" + x, "play:" + x;
    assert v[..7] == "volume=" && v[7..] == x;
    assert p[..5] == "play:" && p[5..] == x;
    assert v != "stop_audio" by { assert v[0] != "stop_audio"[0]; }
    assert v != "list_files" by { assert v[0] != "list_files"[0]; }
    assert p != "stop_audio" by { assert p[1] != "stop_audio"[1]; }
    assert p != "list_files" by { assert p[0] != "list_files"[0]; }
    assert !StartsWith(p, "volume=") by { assert p[0] != 'v'; }
  }

  /** The status line: playback state, volume with two decimals, signal
      strength in dBm. */
  function StatusReport(playing: bool, volume: real, rssi: int, fmt2: real -> string): (s: string)
    ensures |s| >= 28 && StartsWith(s, "online|audio:")
    ensures s[13..20] == (if playing then "playing" else "stopped")
    ensures s[20..28] == "|volume:"
    ensures EndsWith(s, "|wifi:" + IntToDecimal(rssi) + "dBm")
  {
    var a: string := "online|audio:";
    var b: string := if playing then "playing" else "stopped";
    var c: string := "|volume:";
    var head := a + b + c;
    var tail := "|wifi:" + IntToDecimal(rssi) + "dBm";
    var s := head + (fmt2(volume) + tail);
    assert |a| == 13 && |b| == 7 && |c| == 8;
    assert s[..28] == head;
    assert head[..13] == a && head[13..20] == b && head[20..28] == c;
    assert s[..13] == a;
    assert s[|s| - |tail|..] == tail;
    s
  }

  /** The commands handler on the message text; it lower-cases first. */
  function CommandsOnMessage(text: string, env: Env, toFloat: string -> real, fmt2: real -> string): (o: Outcome)
    ensures o.handled <==> ParseCommand(Lower(text)) != Unrecognised
    ensures !o.handled ==> o.effects == []
  {
    match ParseCommand(Lower(text))
    case Stop => Outcome(true, [StopAudio, Publish(TopicSystemStatus, "audio_stopped")])
    case ListFiles =>
      if |env.fileList| > 0 then
        Outcome(true, [Publish(TopicFiles, env.fileList), Publish(TopicSystemStatus, "files_listed")])
      else Outcome(true, [Publish(TopicSystemStatus, "no_files")])
    case Volume(arg) =>
      var vol := toFloat(arg);
      Outcome(true, [SetVolume(vol), Publish(TopicSystemStatus, "volume:" + fmt2(vol))])
    case Play(file) =>
      Outcome(true, [PlayFile(NormalizeFilename(file)), Publish(TopicSystemStatus, PlayReply(env.playOk))])
    case Status =>
      Outcome(true, [Publish(TopicSystemStatus, StatusReport(env.playing, env.volume, env.rssi, fmt2))])
    case Unrecognised => Outcome(false, [])
  }

  function CommandsHandler(payload: seq<byte>, env: Env, toFloat: string -> real, fmt2: real -> string): Outcome {
    CommandsOnMessage(BytesToString(payload), env, toFloat, fmt2)
  }

  /** Commands are case-insensitive: a message and its lower-cased form are
      handled alike. */
  lemma CommandsCaseInsensitive(text: string, env: Env, toFloat: string -> real, fmt2: real -> string)
    ensures CommandsOnMessage(Lower(text), env, toFloat, fmt2) == CommandsOnMessage(text, env, toFloat, fmt2)
  {
    LowerIdempotent(text);
  }

  /** `play:` filenames are case-folded too: the path handed to the player
      has no upper-case letter, starts with `/`, and is the text after
      `play:` otherwise. */
  lemma PlayCommandPath(text: string, env: Env, toFloat: string -> real, fmt2: real -> string)
    requires ParseCommand(Lower(text)).Play?
    ensures var o := CommandsOnMessage(text, env, toFloat, fmt2);
      var f := ParseCommand(Lower(text)).file;
      && o.handled && |o.effects| == 2 && o.effects[0].PlayFile?
      && StartsWith(o.effects[0].path, "/")
      && (o.effects[0].path == f || o.effects[0].path == "/" + f)
      && (forall i :: 0 <= i < |o.effects[0].path| ==> !('A' <= o.effects[0].path[i] <= 'Z'))
      && o.effects[1] == Publish(TopicSystemStatus, PlayReply(env.playOk))
  {
    var m := Lower(text);
    LowerNoUpper(text);
    var f := ParseCommand(m).file;
    assert m == "play:" + f;
    assert forall i :: 0 <= i < |f| ==> f[i] == m[i + 5];
  }

  /** `list_files` publishes the list and "files_listed", or "no_files" when
      the list is empty. */
  lemma ListFilesReplies(env: Env, toFloat: string -> real, fmt2: real -> string)
    ensures CommandsOnMessage("list_files", env, toFloat, fmt2).effects ==
      if env.fileList == "" then [Publish(TopicSystemStatus, "no_files")]
      else [Publish(TopicFiles, env.fileList), Publish(TopicSystemStatus, "files_listed")]
  {
    LowerOfLowercase("list_files");
    assert ParseCommand("list_files") == ListFiles;
  }

  /** `stop_audio` stops and reports "audio_stopped". */
  lemma StopAudioReplies(env: Env, toFloat: string -> real, fmt2: real -> string)
    ensures CommandsOnMessage("stop_audio", env, toFloat, fmt2).effects ==
      [StopAudio, Publish(TopicSystemStatus, "audio_stopped")]
  {
    LowerOfLowercase("stop_audio");
    assert ParseCommand("stop_audio") == Stop;
  }

  /** Volume requests go through `toFloat` of the text after `volume=` of
      the lower-cased message. */
  lemma VolumeCommand(m: string, x: string, env: Env, toFloat: string -> real, fmt2: real -> string)
    requires Lower(x) == x && m == "volume=" + x
    ensures CommandsOnMessage(m, env, toFloat, fmt2).effects ==
      [SetVolume(toFloat(x)), Publish(TopicSystemStatus, "volume:" + fmt2(toFloat(x)))]
  {
    LowerPrefix("volume=", x);
    ParseCommandPrefixes(x);
    assert ParseCommand(Lower(m)) == Volume(x);
    VolumeReplies(m, x, env, toFloat, fmt2);
  }

  /** A message read as a volume request sets the volume and reports it. */
  lemma VolumeReplies(text: string, arg: string, env: Env, toFloat: string -> real, fmt2: real -> string)
    requires ParseCommand(Lower(text)) == Volume(arg)
    ensures CommandsOnMessage(text, env, toFloat, fmt2).effects ==
      [SetVolume(toFloat(arg)), Publish(TopicSystemStatus, "volume:" + fmt2(toFloat(arg)))]
  {
  }

  /** A lower-case prefix before lower-case text leaves it lower-case. */
  lemma LowerPrefix(prefix: string, x: string)
    requires forall i :: 0 <= i < |prefix| ==> !('A' <= prefix[i] <= 'Z')
    requires Lower(x) == x
    ensures Lower(prefix + x) == prefix + x
  {
    var m := prefix + x;
    LowerNoUpper(x);
    forall i | 0 <= i < |m| ensures !('A' <= m[i] <= 'Z') {
      if i < |prefix| {
        assert m[i] == prefix[i];
      } else {
        assert m[i] == x[i - |prefix|];
      }
    }
    LowerOfLowercase(m);
  }

  /** One `registerHandler(pattern, callback, name, priority)` call. */
  datatype Registration = Registration(pattern: string, callback: CallbackId, name: string, priority: byte)

  /** The handlers a run of registrations adds, in order. */
  function RegisteredHandlers(rs: seq<Registration>): (hs: seq<Handler>)
    ensures |hs| == |rs|
    ensures forall i :: 0 <= i < |rs| ==>
      hs[i] == MakeHandler(rs[i].pattern, rs[i].callback, rs[i].name, rs[i].priority)
  {
    seq(|rs|, i requires 0 <= i < |rs| => MakeHandler(rs[i].pattern, rs[i].callback, rs[i].name, rs[i].priority))
  }

  /** One registration more adds its handler at the end. */
  lemma RegisteredSnoc(rs: seq<Registration>, i: nat)
    requires i < |rs|
    ensures multiset(RegisteredHandlers(rs[..i + 1]))
         == multiset(RegisteredHandlers(rs[..i])) + multiset{MakeHandler(rs[i].pattern, rs[i].callback, rs[i].name, rs[i].priority)}
  {
    assert RegisteredHandlers(rs[..i + 1])
        == RegisteredHandlers(rs[..i]) + [MakeHandler(rs[i].pattern, rs[i].callback, rs[i].name, rs[i].priority)];
  }

  /** The two handlers this file registers, play-audio first. */
  function SetupHandlers(): (hs: seq<Handler>)
    ensures |hs| == 2
    ensures hs[0].topicPattern == TopicPlayAudio && hs[0].priority == PlayAudioPriority
    ensures hs[1].topicPattern == TopicCommands && hs[1].priority == SystemCommandsPriority
  {
    [MakeHandler(TopicPlayAudio, PlayAudioCallback, "AudioPlayback", PlayAudioPriority),
     MakeHandler(TopicCommands, SystemCommandsCallback, "SystemCommands", SystemCommandsPriority)]
  }

  /** Registers the two handlers, play-audio at priority 150 and system
      commands at priority 100, then the audio manager's own upload
      handlers.  `registerMQTTHandlers` is declared but its body is not
      part of this model: `audioRegistrations` are the registrations it
      makes, in order. */
  method SetupMqttHandlers(m: MqttManager.Manager, audioRegistrations: seq<Registration>)
    requires m.Valid()
    modifies m
    ensures m.Valid()
    ensures multiset(m.handlers) == multiset(old(m.handlers)) + multiset(SetupHandlers())
      + multiset(RegisteredHandlers(audioRegistrations))
    ensures m.subscribedTopics == old(m.subscribedTopics) && m.calls == old(m.calls)
    ensures m.hasClient == old(m.hasClient) && m.connected == old(m.connected)
    ensures m.clientId == old(m.clientId) && m.statusTopic == old(m.statusTopic)
    ensures m.firstConnection == old(m.firstConnection)
    ensures m.lastReconnectAttempt == old(m.lastReconnectAttempt)
  {
    m.RegisterHandler(TopicPlayAudio, PlayAudioCallback, "AudioPlayback", PlayAudioPriority);
    m.RegisterHandler(TopicCommands, SystemCommandsCallback, "SystemCommands", SystemCommandsPriority);
    RegisterAll(m, audioRegistrations);
  }

  /** The registrations in order, each with `registerHandler`. */
  method RegisterAll(m: MqttManager.Manager, rs: seq<Registration>)
    requires m.Valid()
    modifies m
    ensures m.Valid()
    ensures multiset(m.handlers) == multiset(old(m.handlers)) + multiset(RegisteredHandlers(rs))
    ensures m.subscribedTopics == old(m.subscribedTopics) && m.calls == old(m.calls)
    ensures m.hasClient == old(m.hasClient) && m.connected == old(m.connected)
    ensures m.clientId == old(m.clientId) && m.statusTopic == old(m.statusTopic)
    ensures m.firstConnection == old(m.firstConnection)
    ensures m.lastReconnectAttempt == old(m.lastReconnectAttempt)
  {
    var i := 0;
    while i < |rs|
      invariant 0 <= i <= |rs|
      invariant m.Valid()
      invariant multiset(m.handlers) == multiset(old(m.handlers)) + multiset(RegisteredHandlers(rs[..i]))
      invariant m.subscribedTopics == old(m.subscribedTopics) && m.calls == old(m.calls)
      invariant m.hasClient == old(m.hasClient) && m.connected == old(m.connected)
      invariant m.clientId == old(m.clientId) && m.statusTopic == old(m.statusTopic)
      invariant m.firstConnection == old(m.firstConnection)
      invariant m.lastReconnectAttempt == old(m.lastReconnectAttempt)
    {
      var r := rs[i];
      m.RegisterHandler(r.pattern, r.callback, r.name, r.priority);
      RegisteredSnoc(rs, i);
      i := i + 1;
    }
    assert rs[..i] == rs;
  }

  /** setupMQTT: attaches the client with the configured identity and status
      topic, then registers the handlers. */
  method SetupMqtt(m: MqttManager.Manager, clientConnected: bool, audioRegistrations: seq<Registration>)
    requires m.Valid()
    modifies m
    ensures m.Valid()
    ensures m.hasClient && m.connected == clientConnected && m.firstConnection
    ensures m.clientId == ConfiguredClientId && m.statusTopic == TopicGatewayStatus
    ensures multiset(m.handlers) == multiset(old(m.handlers)) + multiset(SetupHandlers())
      + multiset(RegisteredHandlers(audioRegistrations))
    ensures m.subscribedTopics == old(m.subscribedTopics) && m.calls == old(m.calls)
    ensures m.lastReconnectAttempt == old(m.lastReconnectAttempt)
  {
    m.Begin(clientConnected, ConfiguredClientId, TopicGatewayStatus);
    SetupMqttHandlers(m, audioRegistrations);
  }

  /** Two handlers of different priorities can be ordered one way only. */
  lemma TwoHandlersOrder(hs: seq<Handler>, a: Handler, b: Handler)
    requires MqttManager.SortedByPriority(hs) && multiset(hs) == multiset{a, b}
    requires a.priority > b.priority
    ensures hs == [a, b]
  {
    assert |hs| == 2 by { assert |multiset(hs)| == 2; }
    assert hs == [hs[0], hs[1]];
    assert multiset{hs[0], hs[1]} == multiset{a, b};
    assert hs[0].priority >= hs[1].priority;
  }

  /** On a fresh table, the play-audio handler is tried before the commands
      handler. */
  lemma SetupOrder(hs: seq<Handler>)
    requires MqttManager.SortedByPriority(hs)
    requires multiset(hs) == multiset(SetupHandlers())
    ensures hs == SetupHandlers()
  {
    var two := SetupHandlers();
    assert multiset(two) == multiset{two[0], two[1]} by { assert two == [two[0]] + [two[1]]; }
    TwoHandlersOrder(hs, two[0], two[1]);
  }

  /** The six topics the relayed record is published on. */
  datatype RemoteTopics = RemoteTopics(temperature: string, humidity: string, pressure: string,
                                       uvIndex: string, battery: string, status: string)

  /** The topics of include/shared/mqtt_topic_config.h. */
  const SharedRemoteTopics: RemoteTopics :=
    RemoteTopics(TopicRemoteTemp, TopicRemoteHumidity, TopicRemotePressure, TopicRemoteUv,
                 TopicRemoteBattery, TopicRemoteStatus)

  /** publishRemoteSensorData: nothing unless connected and a record has
      arrived; then the four readings, each as `dtostrf(value, width, 2)`
      with widths 6, 6, 7 and 5, the battery level in decimal, and
      "<device name> online". */
  function RemoteSensorPublications(topics: RemoteTopics, connected: bool, available: bool, r: Record,
                                    dtostrf: (Word, nat) -> string): (effects: seq<Effect>)
    ensures !(connected && available) ==> effects == []
    ensures connected && available ==>
      && |effects| == 6
      && (forall i :: 0 <= i < 6 ==> effects[i].Publish?)
      && effects[0].topic == topics.temperature && effects[0].message == dtostrf(r.temperature, 6)
      && effects[1].topic == topics.humidity && effects[1].message == dtostrf(r.humidity, 6)
      && effects[2].topic == topics.pressure && effects[2].message == dtostrf(r.pressure, 7)
      && effects[3].topic == topics.uvIndex && effects[3].message == dtostrf(r.uvIndex, 5)
      && effects[4] == Publish(topics.battery, NatToDecimal(r.batteryLevel as nat))
      && effects[5] == Publish(topics.status, CName(r.deviceName) + " online")
  {
    if !connected || !available then []
    else [Publish(topics.temperature, dtostrf(r.temperature, 6)),
          Publish(topics.humidity, dtostrf(r.humidity, 6)),
          Publish(topics.pressure, dtostrf(r.pressure, 7)),
          Publish(topics.uvIndex, dtostrf(r.uvIndex, 5)),
          Publish(topics.battery, IntToDecimal(r.batteryLevel as int)),
          Publish(topics.status, CName(r.deviceName) + " online")]
  }
}
