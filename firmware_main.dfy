/** The two Arduino sketches that predate the handler table: the gateway's
    src/gateway_esp32/main.cpp and the single-board src/main.cpp.  Both
    have the same `mqttCallback`: the payload is copied into a `String`
    one character at a time and routed by topic to the audio manager.
    Both run the same `loop` timers: sensors are read every 2000 ms and the
    readings published every 10000 ms, with elapsed times computed on the
    wrap-around `millis()` counter.  The gateway also takes sensor records
    from the radio (`onESPNowDataReceived`) and relays them to the bus.

    The audio manager's and the bus client's work is an abstract trace;
    sensor readings and float formatting are parameters.

    The gateway sketch includes include/sensor_data.h, which is not part
    of this model; its `SensorData` is taken to be the packed 38-byte
    record of include/shared/sensor_data.h (`SensorData.RecordSize`), so
    `sizeof(SensorData)` is that size. */
module FirmwareMain {
  import opened Wrappers
  import opened Bytes
  import opened SensorData
  import MqttSetup

  const SensorReadInterval: nat := 2000
  const MqttPublishInterval: nat := 10000

  /** What the callback asks of the audio manager. */
  datatype AudioCall = PlayFile(path: string) | StopAudio | ListFiles | SetVolume(volume: real)

  // ---------------------------------------------------------------------
  // mqttCallback
  // ---------------------------------------------------------------------

  /** The copying loop: `message += (char)payload[i]` for each byte. */
  method PayloadText(payload: seq<byte>) returns (message: string)
    ensures message == BytesToString(payload)
  {
    message := [];
    var i := 0;
    while i < |payload|
      invariant 0 <= i <= |payload| && |message| == i
      invariant forall k :: 0 <= k < i ==> message[k] == ByteToChar(payload[k])
    {
      message := message + [ByteToChar(payload[i])];
      i := i + 1;
    }
  }

  /** The routing decision: on the play-audio topic the whole message names
      the file; on the commands topic the lower-cased message is one of
      `stop_audio`, `list_files`, `volume=<v>` or `play:<file>`; anything
      else asks for nothing. */
  function Route(topic: string, message: string, toFloat: string -> real): (calls: seq<AudioCall>)
    ensures |calls| <= 1
    ensures topic == MqttSetup.TopicPlayAudio ==> calls == [PlayFile(MqttSetup.NormalizeFilename(message))]
    ensures topic != MqttSetup.TopicPlayAudio && topic != MqttSetup.TopicCommands ==> calls == []
    ensures topic == MqttSetup.TopicCommands ==>
      (calls == [] <==> MqttSetup.ParseCommand(Lower(message)) in {MqttSetup.Status, MqttSetup.Unrecognised})
  {
    if topic == MqttSetup.TopicPlayAudio then [PlayFile(MqttSetup.NormalizeFilename(message))]
    else if topic == MqttSetup.TopicCommands then
      match MqttSetup.ParseCommand(Lower(message))
      case Stop => [StopAudio]
      case ListFiles => [ListFiles]
      case Volume(arg) => [SetVolume(toFloat(arg))]
      case Play(file) => [PlayFile(MqttSetup.NormalizeFilename(file))]
      case _ => []
    else []
  }

  /** The callback on a raw payload. */
  method MqttCallback(topic: string, payload: seq<byte>, toFloat: string -> real) returns (calls: seq<AudioCall>)
    ensures calls == Route(topic, BytesToString(payload), toFloat)
  {
    var message := PayloadText(payload);
    calls := Route(topic, message, toFloat);
  }

  /** Commands are case-insensitive. */
  lemma RouteIgnoresCase(message: string, toFloat: string -> real)
    ensures Route(MqttSetup.TopicCommands, Lower(message), toFloat) == Route(MqttSetup.TopicCommands, message, toFloat)
  {
    LowerIdempotent(message);
  }

  /** `status`, which the handler table answers, asks nothing of the audio
      manager here. */
  lemma StatusIgnored(toFloat: string -> real)
    ensures Route(MqttSetup.TopicCommands, "status", toFloat) == []
  {
    LowerOfLowercase("status");
    assert MqttSetup.ParseCommand("status") == MqttSetup.Status;
  }

  /** The audio-manager call, as an effect of the handler table. */
  function AsEffect(c: AudioCall): Option<MqttSetup.Effect> {
    match c
    case PlayFile(p) => Some(MqttSetup.PlayFile(p))
    case StopAudio => Some(MqttSetup.StopAudio)
    case SetVolume(v) => Some(MqttSetup.SetVolume(v))
    case ListFiles => None
  }

  /** The handler table that replaced this callback asks the audio manager
      for the same thing: its first effect is the callback's call, for
      every command but `list_files` (which the table answers by
      publishing the list) and `status`. */
  lemma CommandsAgreeWithHandlers(message: string, env: MqttSetup.Env, toFloat: string -> real, fmt2: real -> string)
    ensures var calls := Route(MqttSetup.TopicCommands, message, toFloat);
      var o := MqttSetup.CommandsOnMessage(message, env, toFloat, fmt2);
      && (calls != [] && calls[0] != ListFiles ==> o.handled && |o.effects| > 0 && AsEffect(calls[0]) == Some(o.effects[0]))
      && (o.handled <==> calls != [] || MqttSetup.ParseCommand(Lower(message)) == MqttSetup.Status)
  {
  }

  /** On the play-audio topic, the callback plays the file the handler
      table's play-audio handler plays. */
  lemma PlayAgreesWithHandler(payload: seq<byte>, playOk: bool, toFloat: string -> real)
    ensures var calls := Route(MqttSetup.TopicPlayAudio, BytesToString(payload), toFloat);
      AsEffect(calls[0]) == Some(MqttSetup.PlayAudioHandler(payload, playOk).effects[0])
  {
  }

  // ---------------------------------------------------------------------
  // Publishing
  // ---------------------------------------------------------------------

  /** The three topics the board's own readings go to. */
  datatype LocalTopics = LocalTopics(temperature: string, humidity: string, pressure: string)

  const GatewayLocalTopics: LocalTopics :=
    LocalTopics("smartalarm/gateway/temperature", "smartalarm/gateway/humidity", "smartalarm/gateway/pressure")
  const BoardLocalTopics: LocalTopics :=
    LocalTopics("smartalarm/temperature", "smartalarm/humidity", "smartalarm/pressure")

  /** The remote-sensor topics of src/gateway_esp32/main.cpp. */
  const GatewayRemoteTopics: MqttSetup.RemoteTopics :=
    MqttSetup.RemoteTopics("smartalarm/sensor/temperature", "smartalarm/sensor/humidity", "smartalarm/sensor/pressure",
                           "smartalarm/sensor/uvindex", "smartalarm/sensor/battery", "smartalarm/sensor/status")

  /** Temperature, humidity and pressure as last read. */
  datatype Readings = Readings(temperature: real, humidity: real, pressure: real)

  /** publishMQTTData: nothing while disconnected; otherwise the three
      readings as `dtostrf(value, width, 1)` with widths 4, 4 and 6. */
  function LocalPublications(topics: LocalTopics, connected: bool, r: Readings, dtostrf: (real, nat) -> string): (effects: seq<MqttSetup.Effect>)
    ensures !connected <==> effects == []
    ensures connected ==>
      && |effects| == 3 && (forall i :: 0 <= i < 3 ==> effects[i].Publish?)
      && [effects[0].topic, effects[1].topic, effects[2].topic] == [topics.temperature, topics.humidity, topics.pressure]
  {
    if !connected then []
    else [MqttSetup.Publish(topics.temperature, dtostrf(r.temperature, 4)),
          MqttSetup.Publish(topics.humidity, dtostrf(r.humidity, 4)),
          MqttSetup.Publish(topics.pressure, dtostrf(r.pressure, 6))]
  }

  // ---------------------------------------------------------------------
  // Interval timers
  // ---------------------------------------------------------------------

  /** `currentMillis - last >= interval` on `unsigned long`. */
  predicate Due(last: nat, now: nat, interval: nat)
    requires last < U32 && now < U32
  {
    WrapSub(now, last) >= interval
  }

  predicate AllTimes(ts: seq<nat>) {
    forall i :: 0 <= i < |ts| ==> ts[i] < U32
  }

  /** The `millis()` readings at which a timer fires over successive
      passes of `loop`, starting from its last run at `last`. */
  function Firings(last: nat, times: seq<nat>, interval: nat): (fs: seq<nat>)
    requires last < U32 && AllTimes(times)
    ensures |fs| <= |times| && AllTimes(fs)
    decreases |times|
  {
    if times == [] then []
    else if Due(last, times[0], interval) then [times[0]] + Firings(times[0], times[1..], interval)
    else Firings(last, times[1..], interval)
  }

  /** Firings keep their distance: the first comes at least an interval
      after the last run, and each later one at least an interval after
      the one before, on the wrap-around clock. */
  lemma {:induction false} FiringsSpaced(last: nat, times: seq<nat>, interval: nat)
    requires last < U32 && AllTimes(times)
    ensures var fs := Firings(last, times, interval);
      && (|fs| > 0 ==> Due(last, fs[0], interval))
      && forall k :: 0 <= k < |fs| - 1 ==> Due(fs[k], fs[k + 1], interval)
    decreases |times|
  {
    if times != [] {
      var rest := times[1..];
      if Due(last, times[0], interval) {
        FiringsSpaced(times[0], rest, interval);
        var tail := Firings(times[0], rest, interval);
        assert Firings(last, times, interval) == [times[0]] + tail;
      } else {
        FiringsSpaced(last, rest, interval);
      }
    }
  }

  /** The timer's last run after the passes `times`, starting from `last`. */
  function TimerAfter(last: nat, times: seq<nat>, interval: nat): (t: nat)
    requires last < U32 && AllTimes(times)
    ensures t < U32
    decreases |times|
  {
    if times == [] then last
    else TimerAfter(if Due(last, times[0], interval) then times[0] else last, times[1..], interval)
  }

  /** The timer's last run is the last firing, or the start when nothing
      fired. */
  lemma {:induction false} TimerIsLastFiring(last: nat, times: seq<nat>, interval: nat)
    requires last < U32 && AllTimes(times)
    ensures var fs := Firings(last, times, interval);
      TimerAfter(last, times, interval) == if fs == [] then last else fs[|fs| - 1]
    decreases |times|
  {
    if times != [] {
      var rest := times[1..];
      if Due(last, times[0], interval) {
        TimerIsLastFiring(times[0], rest, interval);
      } else {
        TimerIsLastFiring(last, rest, interval);
      }
    }
  }

  /** The passes `xs` then `ys` fire as `xs` does, then as `ys` does from
      the timer `xs` left. */
  lemma {:induction false} FiringsAppend(last: nat, xs: seq<nat>, ys: seq<nat>, interval: nat)
    requires last < U32 && AllTimes(xs) && AllTimes(ys)
    ensures AllTimes(xs + ys)
    ensures Firings(last, xs + ys, interval)
         == Firings(last, xs, interval) + Firings(TimerAfter(last, xs, interval), ys, interval)
    decreases |xs|
  {
    if xs == [] {
      assert xs + ys == ys;
    } else {
      assert (xs + ys)[0] == xs[0] && (xs + ys)[1..] == xs[1..] + ys;
      var next := if Due(last, xs[0], interval) then xs[0] else last;
      FiringsAppend(next, xs[1..], ys, interval);
    }
  }

  /** Every pass fires exactly when it comes at least an interval after
      the timer's last run: pass `k` adds its reading to the firings of the
      passes before it when due, and nothing otherwise. */
  lemma FiringsComplete(last: nat, times: seq<nat>, interval: nat, k: nat)
    requires last < U32 && AllTimes(times) && k < |times|
    ensures var t := TimerAfter(last, times[..k], interval);
      Firings(last, times[..k + 1], interval)
        == Firings(last, times[..k], interval) + (if Due(t, times[k], interval) then [times[k]] else [])
  {
    assert times[..k + 1] == times[..k] + [times[k]];
    FiringsAppend(last, times[..k], [times[k]], interval);
  }

  // ---------------------------------------------------------------------
  // The sketch's globals
  // ---------------------------------------------------------------------

  /** A record of zero bytes, as the global `SensorData` starts. */
  const ZeroRecord: Record := Record(0, [0, 0, 0, 0], [0, 0, 0, 0], [0, 0, 0, 0], [0, 0, 0, 0], 0, 0,
                                     [0, 0, 0, 0, 0, 0, 0, 0, 0, 0, 0, 0, 0, 0, 0, 0])

  class Sketch {
    var lastSensorRead: nat
    var lastMqttPublish: nat
    var current: Readings
    var remoteSensorData: Record
    var remoteSensorDataAvailable: bool
    var lastRemoteDataReceived: nat
    /** Everything published on the bus, in order. */
    var published: seq<MqttSetup.Effect>
    /** Which topics this board's readings go to. */
    const localTopics: LocalTopics

    ghost predicate Valid()
      reads this
    {
      lastSensorRead < U32 && lastMqttPublish < U32 && lastRemoteDataReceived < U32
    }

    constructor(topics: LocalTopics)
      ensures Valid() && localTopics == topics
      ensures lastSensorRead == 0 && lastMqttPublish == 0 && lastRemoteDataReceived == 0
      ensures current == Readings(0.0, 0.0, 0.0)
      ensures remoteSensorData == ZeroRecord && !remoteSensorDataAvailable
      ensures published == []
    {
      localTopics := topics;
      lastSensorRead, lastMqttPublish, lastRemoteDataReceived := 0, 0, 0;
      current := Readings(0.0, 0.0, 0.0);
      remoteSensorData, remoteSensorDataAvailable := ZeroRecord, false;
      published := [];
    }

    /** onESPNowDataReceived: a frame of exactly a record's size is copied
        into the record, marked available, time-stamped and relayed; any
        other frame changes nothing. */
    method OnEspNowData(data: seq<byte>, now: nat, connected: bool, dtostrf: (Word, nat) -> string)
      requires Valid() && now < U32
      modifies this
      ensures Valid()
      ensures |data| != RecordSize ==> unchanged(this)
      ensures |data| == RecordSize ==>
        && Encode(remoteSensorData) == data
        && remoteSensorDataAvailable && lastRemoteDataReceived == now
        && published == old(published)
             + MqttSetup.RemoteSensorPublications(GatewayRemoteTopics, connected, true, remoteSensorData, dtostrf)
      ensures lastSensorRead == old(lastSensorRead) && lastMqttPublish == old(lastMqttPublish)
      ensures current == old(current)
    {
      if |data| == RecordSize {
        remoteSensorData := Decode(data).value;
        EncodeDecode(data);
        remoteSensorDataAvailable := true;
        lastRemoteDataReceived := now;
        PublishRemoteSensorData(connected, dtostrf);
      }
    }

    /** publishRemoteSensorData. */
    method PublishRemoteSensorData(connected: bool, dtostrf: (Word, nat) -> string)
      modifies this
      ensures published == old(published)
        + MqttSetup.RemoteSensorPublications(GatewayRemoteTopics, connected, remoteSensorDataAvailable, remoteSensorData, dtostrf)
      ensures lastSensorRead == old(lastSensorRead) && lastMqttPublish == old(lastMqttPublish)
      ensures lastRemoteDataReceived == old(lastRemoteDataReceived) && current == old(current)
      ensures remoteSensorData == old(remoteSensorData) && remoteSensorDataAvailable == old(remoteSensorDataAvailable)
    {
      if !connected || !remoteSensorDataAvailable {
        return;
      }
      published := published
        + MqttSetup.RemoteSensorPublications(GatewayRemoteTopics, connected, remoteSensorDataAvailable, remoteSensorData, dtostrf);
    }

    /** The timer part of `loop` at `millis()` reading `now`: a due sensor
        read takes `reading` and restarts its timer; a due publication
        sends the current readings (possibly just taken) and restarts its
        timer. */
    method Tick(now: nat, reading: Readings, connected: bool, dtostrf: (real, nat) -> string)
      returns (read: bool, publishDue: bool)
      requires Valid() && now < U32
      modifies this
      ensures Valid()
      ensures read <==> Due(old(lastSensorRead), now, SensorReadInterval)
      ensures publishDue <==> Due(old(lastMqttPublish), now, MqttPublishInterval)
      ensures Firings(old(lastSensorRead), [now], SensorReadInterval) == if read then [now] else []
      ensures Firings(old(lastMqttPublish), [now], MqttPublishInterval) == if publishDue then [now] else []
      ensures lastSensorRead == TimerAfter(old(lastSensorRead), [now], SensorReadInterval)
      ensures lastMqttPublish == TimerAfter(old(lastMqttPublish), [now], MqttPublishInterval)
      ensures lastSensorRead == if read then now else old(lastSensorRead)
      ensures current == if read then reading else old(current)
      ensures lastMqttPublish == if publishDue then now else old(lastMqttPublish)
      ensures published == old(published)
        + if publishDue then LocalPublications(localTopics, connected, current, dtostrf) else []
      ensures remoteSensorData == old(remoteSensorData) && remoteSensorDataAvailable == old(remoteSensorDataAvailable)
      ensures lastRemoteDataReceived == old(lastRemoteDataReceived)
    {
      read := WrapSub(now, lastSensorRead) >= SensorReadInterval;
      if read {
        lastSensorRead := now;
        current := reading;
      }
      publishDue := WrapSub(now, lastMqttPublish) >= MqttPublishInterval;
      if publishDue {
        lastMqttPublish := now;
        published := published + LocalPublications(localTopics, connected, current, dtostrf);
      } else {
        assert published + [] == published;
      }
    }
  }
}
