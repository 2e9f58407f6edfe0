/** The gateway's side of the chunked audio upload
    (`AudioManager::handleMQTTMessage`): a stop-and-wait receiver driven by
    messages on two topics.  On the request topic `REQUEST_FREE_SPACE` is
    answered with `FREE:<free>:<current>`; on the chunk topic `START:<n>`
    opens a fresh `/sound.mp3`, `CHUNK:<i>:<total>:<bytes>` appends the raw
    bytes and publishes `ACK:<i>`, and `END` closes the file.

    The per-message behaviour is the pure function `Receive`; the class
    `Receiver` holds the file-scope globals and the filesystem and is proved
    to change its state exactly as `Receive` says. */
module AudioUpload {
  import opened Wrappers
  import opened Bytes

  const TopicRequest := "esp32/audio_request"
  const TopicChunk := "esp32/audio_chunk"
  const TopicResponse := "esp32/audio_response"
  const TopicAck := "esp32/audio_ack"

  /** The single file an upload writes. */
  const RecvFilename := "/sound.mp3"

  const RequestFreeSpace := "REQUEST_FREE_SPACE"
  const StartPrefix := "START:"
  const ChunkPrefix := "CHUNK:"
  const EndMessage := "END"

  /** `char buf[16]` in `parseNumberFromPayload`: room for 15 digits. */
  const NumberBufferSize: nat := 16

  const ColonByte: byte := 58

  datatype Publication = Publication(topic: string, message: string)

  /** The flash filesystem: file name to contents. */
  type FileSystem = map<string, seq<byte>>

  /** What the filesystem library reports while one message is handled:
      its capacity and usage, and whether opening the destination for
      writing succeeds (after the library's own retries). */
  datatype FsEnv = FsEnv(totalBytes: nat, usedBytes: nat, openOk: bool)

  /** Both counters are `size_t` values. */
  predicate ValidEnv(env: FsEnv) {
    env.totalBytes < U32 && env.usedBytes < U32
  }

  /** The receiver's globals, the filesystem, whether a bus client has been
      handed over (`mqttClientPtr != nullptr`) and everything published. */
  datatype RxState = RxState(
    receiving: bool,
    expectedSize: nat,
    receivedSize: nat,
    fs: FileSystem,
    hasClient: bool,
    outbox: seq<Publication>)

  /** `size_t` counters, and an open destination while receiving. */
  ghost predicate RxValid(s: RxState) {
    && s.expectedSize < U32
    && s.receivedSize < U32
    && (s.receiving ==> RecvFilename in s.fs)
  }

  /** The result of one message: whether it was handled, and the new state. */
  datatype Reaction = Reaction(handled: bool, next: RxState)

  // ---------------------------------------------------------------------
  // Parsing helpers
  // ---------------------------------------------------------------------

  /** `parseNumberFromPayload(payload, start, end)`: 0 for an empty field or
      one that does not fit the 16-byte buffer with its terminator,
      otherwise `atoi` of the field, which saturates to 32 bits. */
  function ParseNumber(payload: seq<byte>, start: int, end: int): (n: int)
    requires 0 <= start && end <= |payload|
    ensures end - start <= 0 || end - start >= NumberBufferSize ==> n == 0
    ensures IntMin <= n <= IntMax
  {
    var len := end - start;
    if len <= 0 || len >= NumberBufferSize then 0
    else CAtoi(BytesToString(payload[start..end]))
  }

  /** The index of the first colon at or after `from`, or `|p|` if none. */
  function NextColon(p: seq<byte>, from: nat): (k: nat)
    requires from <= |p|
    ensures from <= k <= |p|
    ensures forall j :: from <= j <= k && j < |p| ==> (p[j] == ColonByte <==> j == k)
    decreases |p| - from
  {
    if from == |p| then |p|
    else if p[from] == ColonByte then from
    else NextColon(p, from + 1)
  }

  /** The positions of the first two colons after the 6-byte prefix, when
      there are two. */
  function ChunkHeader(p: seq<byte>): (h: Option<(nat, nat)>)
    requires |p| >= 6
    ensures h.Some? ==> 6 <= h.value.0 < h.value.1 < |p|
  {
    var c1 := NextColon(p, 6);
    if c1 == |p| then None
    else
      var c2 := NextColon(p, c1 + 1);
      if c2 == |p| then None else Some((c1, c2))
  }

  /** The request as the uploader sends it. */
  function RequestPayload(): seq<byte> {
    StringToBytes(RequestFreeSpace)
  }

  predicate IsRequest(payload: seq<byte>) {
    BytesToString(payload) == RequestFreeSpace
  }

  /** `length > 6 && memcmp(payload, prefix, 6) == 0`. */
  predicate HasPrefix6(payload: seq<byte>, prefix: string)
    requires |prefix| == 6
  {
    |payload| > 6 && BytesToString(payload[..6]) == prefix
  }

  predicate IsEnd(payload: seq<byte>) {
    BytesToString(payload) == EndMessage
  }

  /** `"FREE:" + String(free) + ":" + String(current)`. */
  function FreeReply(free: nat, current: nat): (m: string)
    ensures StartsWith(m, "FREE:")
  {
    "FREE:" + NatToDecimal(free) + ":" + NatToDecimal(current)
  }

  /** `snprintf(ackBuf, .., "ACK:%d", chunkIndex)`. */
  function AckMessage(index: int): (m: string)
    ensures StartsWith(m, "ACK:")
  {
    "ACK:" + IntToDecimal(index)
  }

  /** The size the request reply reports: the destination file's length, 0
      when it does not exist. */
  function CurrentSize(fs: FileSystem): nat {
    if RecvFilename in fs then |fs[RecvFilename]| else 0
  }

  function FileOf(fs: FileSystem): seq<byte> {
    if RecvFilename in fs then fs[RecvFilename] else []
  }

  /** Publishing happens only through a client that has been handed over. */
  function PublishIf(hasClient: bool, p: Publication): seq<Publication> {
    if hasClient then [p] else []
  }

  // ---------------------------------------------------------------------
  // The receiver as a function of state and message
  // ---------------------------------------------------------------------

  function OnRequest(s: RxState, payload: seq<byte>, env: FsEnv): Reaction
    requires ValidEnv(env)
  {
    if IsRequest(payload) then
      var reply := FreeReply(WrapSub(env.totalBytes, env.usedBytes), CurrentSize(s.fs));
      Reaction(true, s.(outbox := s.outbox + PublishIf(s.hasClient, Publication(TopicResponse, reply))))
    else Reaction(false, s)
  }

  /** `String::toInt` of the text after `START:` (a 32-bit `long`), stored
      in a `size_t`: a negative value wraps modulo 2^32. */
  function StartSize(payload: seq<byte>): (n: nat)
    requires |payload| >= 6
    ensures n < U32
    ensures var v := CAtoi(BytesToString(payload[6..]));
      (v >= 0 ==> n == v) && (v < 0 ==> n == v + U32)
  {
    CAtoi(BytesToString(payload[6..])) % U32
  }

  function OnStart(s: RxState, payload: seq<byte>, env: FsEnv): Reaction
    requires |payload| > 6
  {
    var removed := s.fs - {RecvFilename};
    Reaction(true, s.(
      receiving := env.openOk,
      expectedSize := StartSize(payload),
      receivedSize := 0,
      fs := if env.openOk then removed[RecvFilename := []] else removed))
  }

  function OnChunk(s: RxState, payload: seq<byte>): Reaction
    requires |payload| > 6
  {
    if !s.receiving then Reaction(true, s)
    else match ChunkHeader(payload)
      case None => Reaction(true, s)
      case Some((c1, c2)) =>
        var body := payload[c2 + 1..];
        if |body| == 0 then Reaction(true, s)
        else
          var index := ParseNumber(payload, 6, c1);
          Reaction(true, s.(
            fs := s.fs[RecvFilename := FileOf(s.fs) + body],
            receivedSize := WrapAdd(s.receivedSize, |body|),
            outbox := s.outbox + PublishIf(s.hasClient, Publication(TopicAck, AckMessage(index)))))
  }

  /** A well-formed chunk while receiving is handled; it appends the bytes
      after the second colon, counts them and acknowledges the index when
      there are any, and changes nothing otherwise. */
  lemma ChunkAccepted(s: RxState, payload: seq<byte>)
    requires |payload| > 6 && s.receiving && ChunkHeader(payload).Some?
    ensures var (c1, c2) := ChunkHeader(payload).value;
      var body := payload[c2 + 1..];
      var r := OnChunk(s, payload);
      && r.handled
      && (body == [] ==> r.next == s)
      && (body != [] ==> r.next == s.(
            fs := s.fs[RecvFilename := FileOf(s.fs) + body],
            receivedSize := WrapAdd(s.receivedSize, |body|),
            outbox := s.outbox + PublishIf(s.hasClient, Publication(TopicAck, AckMessage(ParseNumber(payload, 6, c1))))))
  {
  }

  /** One call of `handleMQTTMessage`. */
  function Receive(s: RxState, topic: string, payload: seq<byte>, env: FsEnv): (r: Reaction)
    requires ValidEnv(env)
  {
    if topic != TopicRequest && topic != TopicChunk then Reaction(false, s)
    else if topic == TopicRequest then OnRequest(s, payload, env)
    else if HasPrefix6(payload, StartPrefix) then OnStart(s, payload, env)
    else if HasPrefix6(payload, ChunkPrefix) then OnChunk(s, payload)
    else if IsEnd(payload) then Reaction(true, s.(receiving := false))
    else Reaction(false, s)
  }

  // ---------------------------------------------------------------------
  // The colon scan
  // ---------------------------------------------------------------------

  /** The `for` loop that finds the first two colons from index 6, with -1
      for a colon it did not find. */
  method ScanColons(payload: seq<byte>) returns (firstColon: int, secondColon: int)
    requires |payload| > 6
    ensures (firstColon != -1 && secondColon != -1) <==> ChunkHeader(payload).Some?
    ensures ChunkHeader(payload).Some? ==> (firstColon, secondColon) == (ChunkHeader(payload).value.0 as int, ChunkHeader(payload).value.1 as int)
  {
    firstColon, secondColon := -1, -1;
    var i: nat := 6;
    while i < |payload|
      invariant 6 <= i <= |payload|
      invariant secondColon == -1
      invariant firstColon == -1 ==> NextColon(payload, 6) >= i
      invariant firstColon != -1 ==> 6 <= firstColon < i && firstColon == NextColon(payload, 6)
      invariant firstColon != -1 ==> NextColon(payload, firstColon + 1) >= i
    {
      if payload[i] == ColonByte {
        if firstColon == -1 {
          firstColon := i;
        } else {
          secondColon := i;
          break;
        }
      }
      i := i + 1;
    }
  }

  // ---------------------------------------------------------------------
  // The receiver's state
  // ---------------------------------------------------------------------

  class Receiver {
    var receivingFile: bool
    var expectedSize: nat
    var receivedSize: nat
    var fs: FileSystem
    var hasClient: bool
    var outbox: seq<Publication>

    function State(): RxState
      reads this
    {
      RxState(receivingFile, expectedSize, receivedSize, fs, hasClient, outbox)
    }

    ghost predicate Valid()
      reads this
    {
      RxValid(State())
    }

    /** The globals' initial values over an existing filesystem; no client
        yet. */
    constructor(initialFs: FileSystem)
      ensures Valid()
      ensures State() == RxState(false, 0, 0, initialFs, false, [])
    {
      receivingFile, expectedSize, receivedSize := false, 0, 0;
      fs, hasClient, outbox := initialFs, false, [];
    }

    /** `setMQTTClient`: a null pointer is `present == false`. */
    method SetMqttClient(present: bool)
      requires Valid()
      modifies this
      ensures Valid()
      ensures State() == old(State()).(hasClient := present)
    {
      hasClient := present;
    }

    method Publish(topic: string, message: string)
      modifies this
      ensures State() == old(State()).(outbox := old(outbox) + PublishIf(hasClient, Publication(topic, message)))
    {
      if hasClient {
        outbox := outbox + [Publication(topic, message)];
      }
    }

    method HandleMqttMessage(topic: string, payload: seq<byte>, env: FsEnv) returns (handled: bool)
      requires Valid() && ValidEnv(env)
      modifies this
      ensures Valid()
      ensures Reaction(handled, State()) == Receive(old(State()), topic, payload, env)
    {
      if topic != TopicRequest && topic != TopicChunk {
        return false;
      }
      if topic == TopicRequest {
        handled := HandleRequest(payload, env);
      } else if HasPrefix6(payload, StartPrefix) {
        HandleStart(payload, env);
        handled := true;
      } else if HasPrefix6(payload, ChunkPrefix) {
        HandleChunk(payload);
        handled := true;
      } else if IsEnd(payload) {
        if receivingFile {
          receivingFile := false;
        }
        handled := true;
      } else {
        handled := false;
      }
    }

    /** `REQUEST_FREE_SPACE` on the request topic. */
    method HandleRequest(payload: seq<byte>, env: FsEnv) returns (handled: bool)
      requires Valid() && ValidEnv(env)
      modifies this
      ensures Valid()
      ensures Reaction(handled, State()) == OnRequest(old(State()), payload, env)
    {
      if IsRequest(payload) {
        var freeSpace := WrapSub(env.totalBytes, env.usedBytes);
        var currentAudioSize := 0;
        if RecvFilename in fs {
          currentAudioSize := |fs[RecvFilename]|;
        }
        Publish(TopicResponse, FreeReply(freeSpace, currentAudioSize));
        return true;
      }
      return false;
    }

    /** `START:<n>`: record the size, replace the destination, open it. */
    method HandleStart(payload: seq<byte>, env: FsEnv)
      requires Valid() && |payload| > 6
      modifies this
      ensures Valid()
      ensures Reaction(true, State()) == OnStart(old(State()), payload, env)
    {
      expectedSize := StartSize(payload);
      receivedSize := 0;
      if RecvFilename in fs {
        fs := fs - {RecvFilename};
      }
      if env.openOk {
        fs := fs[RecvFilename := []];
        receivingFile := true;
      } else {
        receivingFile := false;
      }
    }

    /** `CHUNK:<i>:<total>:<bytes>`: append the bytes and acknowledge. */
    method HandleChunk(payload: seq<byte>)
      requires Valid() && |payload| > 6
      modifies this
      ensures Valid()
      ensures Reaction(true, State()) == OnChunk(old(State()), payload)
    {
      if !receivingFile {
        return;
      }
      var firstColon, secondColon := ScanColons(payload);
      if firstColon == -1 || secondColon == -1 {
        return;
      }
      AcceptChunk(payload, firstColon as nat, secondColon as nat);
    }

    /** A well-formed chunk while receiving: its bytes after the second
        colon, when there are any, are appended and acknowledged with the
        index between the prefix and the first colon. */
    method AcceptChunk(payload: seq<byte>, firstColon: nat, secondColon: nat)
      requires Valid() && receivingFile && |payload| > 6
      requires ChunkHeader(payload) == Some((firstColon, secondColon))
      modifies this
      ensures Valid()
      ensures Reaction(true, State()) == OnChunk(old(State()), payload)
    {
      ChunkAccepted(State(), payload);
      var chunkIndex := ParseNumber(payload, 6, firstColon);
      var headerLen := secondColon + 1;
      var rawLen := |payload| - headerLen;
      if rawLen > 0 {
        AppendChunk(payload[headerLen..], chunkIndex);
      }
    }

    /** A chunk's bytes appended to the open destination, counted, and
        acknowledged with the chunk's index. */
    method AppendChunk(body: seq<byte>, chunkIndex: int)
      requires Valid() && receivingFile
      modifies this
      ensures Valid()
      ensures State() == old(State()).(
        fs := old(fs)[RecvFilename := FileOf(old(fs)) + body],
        receivedSize := WrapAdd(old(receivedSize), |body|),
        outbox := old(outbox) + PublishIf(hasClient, Publication(TopicAck, AckMessage(chunkIndex))))
    {
      fs := fs[RecvFilename := fs[RecvFilename] + body];
      receivedSize := WrapAdd(receivedSize, |body|);
      Publish(TopicAck, AckMessage(chunkIndex));
    }
  }

  // ---------------------------------------------------------------------
  // Properties of the receiver
  // ---------------------------------------------------------------------

  /** Every message keeps the counters in `size_t` range and the
      destination present while receiving. */
  lemma ReceivePreservesValid(s: RxState, topic: string, payload: seq<byte>, env: FsEnv)
    requires RxValid(s) && ValidEnv(env)
    ensures RxValid(Receive(s, topic, payload, env).next)
  {
  }

  /** No message hands over or drops the bus client. */
  lemma ReceiveKeepsClient(s: RxState, topic: string, payload: seq<byte>, env: FsEnv)
    requires ValidEnv(env)
    ensures Receive(s, topic, payload, env).next.hasClient == s.hasClient
  {
  }

  /** Messages on any other topic are not handled and change nothing. */
  lemma OtherTopicsIgnored(s: RxState, topic: string, payload: seq<byte>, env: FsEnv)
    requires ValidEnv(env)
    requires topic != TopicRequest && topic != TopicChunk
    ensures Receive(s, topic, payload, env) == Reaction(false, s)
  {
  }

  /** On the request topic exactly `REQUEST_FREE_SPACE` is handled: it
      publishes (through a client) the free space and the current file size,
      and nothing else changes; any other payload is not handled. */
  lemma FreeSpaceRequest(s: RxState, payload: seq<byte>, env: FsEnv)
    requires ValidEnv(env)
    ensures var r := Receive(s, TopicRequest, payload, env);
      && (r.handled <==> IsRequest(payload))
      && r.next.(outbox := s.outbox) == s
      && (IsRequest(payload) && s.hasClient ==>
            r.next.outbox == s.outbox + [Publication(TopicResponse,
              FreeReply(WrapSub(env.totalBytes, env.usedBytes), CurrentSize(s.fs)))])
      && (!IsRequest(payload) || !s.hasClient ==> r.next.outbox == s.outbox)
  {
  }

  /** `START:<n>` is handled, records `toInt(n)` (a saturated 32-bit `long`,
      wrapped to `size_t`), zeroes the
      received count, replaces the destination by an empty file when it
      opens and removes it otherwise, and receives iff it opened; other files
      and the outbox are untouched. */
  lemma StartResets(s: RxState, digits: string, env: FsEnv)
    requires ValidEnv(env)
    requires IsByteString(digits) && digits != []
    ensures var payload := StringToBytes(StartPrefix + digits);
      var r := Receive(s, TopicChunk, payload, env);
      && r.handled
      && r.next.receiving == env.openOk
      && r.next.expectedSize == CAtoi(digits) % U32
      && (0 <= Atoi(digits) <= IntMax ==> r.next.expectedSize == Atoi(digits))
      && (Atoi(digits) > IntMax ==> r.next.expectedSize == IntMax)
      && r.next.receivedSize == 0
      && (env.openOk ==> RecvFilename in r.next.fs && r.next.fs[RecvFilename] == [])
      && (!env.openOk ==> RecvFilename !in r.next.fs)
      && (forall f :: f != RecvFilename ==> (f in r.next.fs <==> f in s.fs))
      && (forall f :: f != RecvFilename && f in s.fs ==> r.next.fs[f] == s.fs[f])
      && r.next.outbox == s.outbox && r.next.hasClient == s.hasClient
  {
    var text := StartPrefix + digits;
    StringToBytesAppend(StartPrefix, digits);
    var payload := StringToBytes(text);
    StringBytesRoundTrip(text);
    assert BytesToString(payload)[..6] == StartPrefix;
    assert BytesToString(payload[..6]) == BytesToString(payload)[..6];
    assert BytesToString(payload[..6]) != ChunkPrefix;
    assert BytesToString(payload[6..]) == BytesToString(payload)[6..];
    assert text[6..] == digits;
  }

  /** A chunk that arrives while not receiving is handled and changes
      nothing. */
  lemma ChunkWhileIdle(s: RxState, payload: seq<byte>, env: FsEnv)
    requires ValidEnv(env)
    requires !s.receiving
    requires HasPrefix6(payload, ChunkPrefix)
    ensures Receive(s, TopicChunk, payload, env) == Reaction(true, s)
  {
    assert !HasPrefix6(payload, StartPrefix);
  }

  /** A chunk without two colons after its prefix is handled and changes
      nothing. */
  lemma MalformedChunk(s: RxState, payload: seq<byte>, env: FsEnv)
    requires ValidEnv(env)
    requires HasPrefix6(payload, ChunkPrefix)
    requires ChunkHeader(payload).None?
    ensures Receive(s, TopicChunk, payload, env) == Reaction(true, s)
  {
    assert !HasPrefix6(payload, StartPrefix);
  }

  /** A well-formed chunk while receiving appends exactly the bytes after the
      second colon, grows the received count by their number and publishes
      `ACK:<index>`; with nothing after the second colon it changes
      nothing. */
  lemma WellFormedChunk(s: RxState, payload: seq<byte>, env: FsEnv)
    requires ValidEnv(env)
    requires s.receiving
    requires HasPrefix6(payload, ChunkPrefix)
    requires ChunkHeader(payload).Some?
    ensures var (c1, c2) := ChunkHeader(payload).value;
      var body := payload[c2 + 1..];
      var r := Receive(s, TopicChunk, payload, env);
      && r.handled
      && (body == [] ==> r.next == s)
      && (body != [] ==> r.next == s.(
            fs := s.fs[RecvFilename := FileOf(s.fs) + body],
            receivedSize := WrapAdd(s.receivedSize, |body|),
            outbox := s.outbox + PublishIf(s.hasClient, Publication(TopicAck, AckMessage(ParseNumber(payload, 6, c1))))))
  {
    assert !HasPrefix6(payload, StartPrefix);
    ChunkAccepted(s, payload);
  }

  /** `END` is always handled and leaves the receiver idle with everything
      else unchanged, so a second `END` changes nothing. */
  lemma EndIdempotent(s: RxState, env: FsEnv)
    requires ValidEnv(env)
    ensures var payload := StringToBytes(EndMessage);
      var r := Receive(s, TopicChunk, payload, env);
      && r == Reaction(true, s.(receiving := false))
      && Receive(r.next, TopicChunk, payload, env) == Reaction(true, r.next)
  {
    var payload := StringToBytes(EndMessage);
    StringBytesRoundTrip(EndMessage);
    assert |payload| == 3;
  }

  /** A number of at most 15 characters is read back by
      `parseNumberFromPayload` when it fits an `int`, and as the nearest
      bound otherwise. */
  lemma ParseNumberOfDecimal(prefix: seq<byte>, i: int, rest: seq<byte>)
    requires 0 < |IntToDecimal(i)| < NumberBufferSize
    ensures IsByteString(IntToDecimal(i))
    ensures var p := prefix + StringToBytes(IntToDecimal(i)) + rest;
      ParseNumber(p, |prefix|, |prefix| + |IntToDecimal(i)|) == Saturate32(i)
    ensures IntMin <= i <= IntMax ==>
      var p := prefix + StringToBytes(IntToDecimal(i)) + rest;
      ParseNumber(p, |prefix|, |prefix| + |IntToDecimal(i)|) == i
  {
    var d := IntToDecimal(i);
    assert IsByteString(d) by {
      if i < 0 { assert d == "-" + NatToDecimal(-i); }
    }
    var db := StringToBytes(d);
    var p := prefix + db + rest;
    assert p[|prefix|..|prefix| + |d|] == db;
    StringBytesRoundTrip(d);
    CAtoiOfDecimal(i, []);
    assert d + [] == d;
  }
}
