/** The host-side uploader (`mqtt_audiochunkupload.py`): it asks the
    gateway for its free space, refuses a file that does not fit, then sends
    `START:<size>`, the file in 4096-byte chunks framed as
    `CHUNK:<i>:<total>:` followed by the raw bytes, waiting for `ACK:<i>`
    after each, and `END` once every chunk is acknowledged.

    The chunking and framing are pure functions; the script's globals
    `last_ack` and `free_space_reply` and its publications are the fields
    of `UploadClient`.  The arrival of a message during a bounded wait is a
    parameter of the methods.  The last part of the module feeds the
    uploader's messages to the gateway's receiver (`AudioUpload`). */
module ChunkUploader {
  import opened Wrappers
  import opened Bytes
  import Rx = AudioUpload

  const TopicRequest := "esp32/audio_request"
  const TopicResponse := "esp32/audio_response"
  const TopicChunk := "esp32/audio_chunk"
  const TopicAck := "esp32/audio_ack"

  const ChunkSize: nat := 4096

  /** A message the script publishes; `str` payloads are sent as their
      (ASCII) bytes. */
  datatype Message = Message(topic: string, payload: seq<byte>)

  // ---------------------------------------------------------------------
  // Chunking
  // ---------------------------------------------------------------------

  /** `math.ceil(file_size / CHUNK_SIZE)`. */
  function TotalChunks(n: nat): (t: nat)
    ensures n <= t * ChunkSize
    ensures n > 0 ==> (t - 1) * ChunkSize < n
    ensures t == 0 <==> n == 0
  {
    (n + ChunkSize - 1) / ChunkSize
  }

  /** `data[i * CHUNK_SIZE : (i + 1) * CHUNK_SIZE]`, with Python's clipping
      of slice bounds. */
  function Chunk(data: seq<byte>, i: nat): (c: seq<byte>)
    ensures |c| <= ChunkSize
  {
    data[Min(i * ChunkSize, |data|)..Min((i + 1) * ChunkSize, |data|)]
  }

  /** The chunks before index `k`, joined. */
  function SentPrefix(data: seq<byte>, k: nat): seq<byte> {
    data[..Min(k * ChunkSize, |data|)]
  }

  function Concat(cs: seq<seq<byte>>): seq<byte> {
    if cs == [] then [] else Concat(cs[..|cs| - 1]) + cs[|cs| - 1]
  }

  function ChunkList(data: seq<byte>, k: nat): (cs: seq<seq<byte>>)
    ensures |cs| == k
    ensures forall i :: 0 <= i < k ==> cs[i] == Chunk(data, i)
  {
    seq(k, i requires 0 <= i < k => Chunk(data, i))
  }

  /** Every chunk the script sends is non-empty. */
  lemma ChunkNonEmpty(data: seq<byte>, i: nat)
    requires i < TotalChunks(|data|)
    ensures |Chunk(data, i)| > 0
  {
    assert i * ChunkSize < |data| by {
      assert i <= TotalChunks(|data|) - 1;
      assert i * ChunkSize <= (TotalChunks(|data|) - 1) * ChunkSize;
    }
  }

  lemma SentPrefixStep(data: seq<byte>, k: nat)
    ensures SentPrefix(data, k) + Chunk(data, k) == SentPrefix(data, k + 1)
  {
    assert (k + 1) * ChunkSize == k * ChunkSize + ChunkSize;
  }

  /** The chunks before `k`, concatenated, are the file's first
      `min(k * 4096, size)` bytes. */
  lemma {:induction false} ConcatChunkList(data: seq<byte>, k: nat)
    ensures Concat(ChunkList(data, k)) == SentPrefix(data, k)
  {
    if k > 0 {
      var cs := ChunkList(data, k);
      assert cs[..k - 1] == ChunkList(data, k - 1);
      ConcatChunkList(data, k - 1);
      SentPrefixStep(data, k - 1);
    } else {
      assert SentPrefix(data, 0) == [];
    }
  }

  /** Sending every chunk sends the whole file, in order. */
  lemma ChunksCoverFile(data: seq<byte>)
    ensures Concat(ChunkList(data, TotalChunks(|data|))) == data
    ensures forall i :: 0 <= i < TotalChunks(|data|) ==> 0 < |Chunk(data, i)| <= ChunkSize
  {
    ConcatChunkList(data, TotalChunks(|data|));
    assert SentPrefix(data, TotalChunks(|data|)) == data;
    forall i | 0 <= i < TotalChunks(|data|) ensures 0 < |Chunk(data, i)| {
      ChunkNonEmpty(data, i);
    }
  }

  // ---------------------------------------------------------------------
  // Framing
  // ---------------------------------------------------------------------

  lemma DecimalIsByteString(n: nat)
    ensures IsByteString(NatToDecimal(n))
  {
    var d := NatToDecimal(n);
    assert forall j :: 0 <= j < |d| ==> IsDigit(d[j]);
  }

  /** `CHUNK:<index digits>:<total digits>:`. */
  function Header(di: string, dt: string): (h: string)
    requires AllDigits(di) && AllDigits(dt)
    ensures IsByteString(h)
    ensures |h| == 8 + |di| + |dt|
  {
    var h := "CHUNK:" + di + ":" + dt + ":";
    assert forall j :: 6 <= j < 6 + |di| ==> h[j] == di[j - 6];
    assert forall j :: 7 + |di| <= j < 7 + |di| + |dt| ==> h[j] == dt[j - 7 - |di|];
    h
  }

  function FrameHeader(i: nat, total: nat): (h: string)
    ensures IsByteString(h)
    ensures |h| == 8 + |NatToDecimal(i)| + |NatToDecimal(total)|
  {
    Header(NatToDecimal(i), NatToDecimal(total))
  }

  /** `f"CHUNK:{i}:{total_chunks}:".encode() + chunk`. */
  function Frame(i: nat, total: nat, chunk: seq<byte>): seq<byte> {
    StringToBytes(FrameHeader(i, total)) + chunk
  }

  /** `f"START:{file_size}"`. */
  function StartMessage(size: nat): (m: seq<byte>)
    ensures IsByteString(Rx.StartPrefix + NatToDecimal(size))
    ensures m == StringToBytes(Rx.StartPrefix + NatToDecimal(size))
  {
    DecimalIsByteString(size);
    StringToBytes("START:" + NatToDecimal(size))
  }

  function EndMessage(): seq<byte> {
    StringToBytes("END")
  }

  // ---------------------------------------------------------------------
  // Parsing what the gateway sends back
  // ---------------------------------------------------------------------

  /** `int(payload.split(":", 1)[1])` for an `ACK:` payload; `None` for any
      other payload or where `int` raises. */
  function AckValue(payload: string): Option<int> {
    if StartsWith(payload, "ACK:") then PyInt(payload[4..]) else None
  }

  /** `int(payload[5:])` for a `FREE:` payload; `None` where `int` raises. */
  function FreeValue(payload: string): Option<int>
    requires StartsWith(payload, "FREE:")
  {
    PyInt(payload[5..])
  }

  /** What `free_space_reply` holds after the free-space wait, given the
      response delivered during it, if any. */
  function ReportedFree(response: Option<string>): Option<int> {
    if response.Some? && StartsWith(response.value, "FREE:") then FreeValue(response.value) else None
  }

  /** `file_size > free_space` cancels the upload, as does a missing reply. */
  predicate Fits(size: nat, free: Option<int>) {
    free.Some? && size <= free.value
  }

  predicate UploadAllowed(size: nat, response: Option<string>) {
    Fits(size, ReportedFree(response))
  }

  // ---------------------------------------------------------------------
  // The stop-and-wait schedule
  // ---------------------------------------------------------------------

  /** The ACK delivered while the script waits for chunk `i` is that
      chunk's. */
  predicate Acked(ackDuring: nat -> Option<string>, i: nat) {
    ackDuring(i).Some? && AckValue(ackDuring(i).value) == Some(i)
  }

  /** The first chunk from `from` on whose ACK does not arrive, or `total`. */
  function FirstUnacked(total: nat, ackDuring: nat -> Option<string>, from: nat): (k: nat)
    requires from <= total
    ensures from <= k <= total
    ensures forall i :: from <= i < k ==> Acked(ackDuring, i)
    ensures k < total ==> !Acked(ackDuring, k)
    decreases total - from
  {
    if from == total then total
    else if Acked(ackDuring, from) then FirstUnacked(total, ackDuring, from + 1)
    else from
  }

  function FrameMessages(data: seq<byte>, m: nat): (ms: seq<Message>)
    ensures |ms| == m
    ensures forall i :: 0 <= i < m ==>
      ms[i] == Message(TopicChunk, Frame(i, TotalChunks(|data|), Chunk(data, i)))
  {
    seq(m, i requires 0 <= i < m => Message(TopicChunk, Frame(i, TotalChunks(|data|), Chunk(data, i))))
  }

  /** What `send_in_chunks` publishes: `START`, then the frames up to and
      including the first one left unacknowledged, then `END` only when
      every chunk was acknowledged. */
  function UploadTrace(data: seq<byte>, ackDuring: nat -> Option<string>): seq<Message> {
    var total := TotalChunks(|data|);
    var k := FirstUnacked(total, ackDuring, 0);
    [Message(TopicChunk, StartMessage(|data|))]
      + FrameMessages(data, if k < total then k + 1 else total)
      + (if k == total then [Message(TopicChunk, EndMessage())] else [])
  }

  lemma FrameMessagesSnoc(data: seq<byte>, i: nat)
    ensures FrameMessages(data, i) + [Message(TopicChunk, Frame(i, TotalChunks(|data|), Chunk(data, i)))]
      == FrameMessages(data, i + 1)
  {
  }

  lemma TraceExtended(before: seq<Message>, started: seq<Message>, frames: seq<Message>,
                      frame: seq<Message>, frames': seq<Message>)
    requires frames + frame == frames'
    ensures (before + (started + frames)) + frame == before + (started + frames')
  {
  }

  lemma TraceWhenAborted(data: seq<byte>, ackDuring: nat -> Option<string>, i: nat, k: nat)
    requires k == FirstUnacked(TotalChunks(|data|), ackDuring, 0)
    requires i <= k && i < TotalChunks(|data|) && !Acked(ackDuring, i)
    ensures i == k
    ensures UploadTrace(data, ackDuring) == [Message(TopicChunk, StartMessage(|data|))] + FrameMessages(data, i + 1)
  {
  }

  lemma TraceWhenComplete(data: seq<byte>, ackDuring: nat -> Option<string>, k: nat)
    requires k == FirstUnacked(TotalChunks(|data|), ackDuring, 0)
    requires k >= TotalChunks(|data|)
    ensures UploadTrace(data, ackDuring) == [Message(TopicChunk, StartMessage(|data|))]
      + FrameMessages(data, TotalChunks(|data|)) + [Message(TopicChunk, EndMessage())]
  {
  }

  /** A chunk whose ACK arrives is not the first unacknowledged one. */
  lemma AckedBeforeFirstUnacked(data: seq<byte>, ackDuring: nat -> Option<string>, i: nat, k: nat)
    requires k == FirstUnacked(TotalChunks(|data|), ackDuring, 0)
    requires i <= k && i < TotalChunks(|data|) && Acked(ackDuring, i)
    ensures i < k
  {
  }

  // ---------------------------------------------------------------------
  // The script's state
  // ---------------------------------------------------------------------

  class UploadClient {
    var lastAck: Option<int>
    var freeSpaceReply: Option<int>
    var sent: seq<Message>

    constructor()
      ensures lastAck == None && freeSpaceReply == None && sent == []
    {
      lastAck, freeSpaceReply, sent := None, None, [];
    }

    method Publish(topic: string, payload: seq<byte>)
      modifies this
      ensures sent == old(sent) + [Message(topic, payload)]
      ensures lastAck == old(lastAck) && freeSpaceReply == old(freeSpaceReply)
    {
      sent := sent + [Message(topic, payload)];
    }

    /** `on_message`: a well-formed ACK sets `last_ack`; on any other topic
        a `FREE:` reply sets `free_space_reply`.  A payload `int` rejects
        raises inside the callback, which leaves both unchanged. */
    method OnMessage(topic: string, payload: string)
      modifies this
      ensures sent == old(sent)
      ensures topic == TopicAck ==>
        && freeSpaceReply == old(freeSpaceReply)
        && lastAck == (if AckValue(payload).Some? then AckValue(payload) else old(lastAck))
      ensures topic != TopicAck ==>
        && lastAck == old(lastAck)
        && freeSpaceReply == (if StartsWith(payload, "FREE:") && FreeValue(payload).Some?
                              then FreeValue(payload) else old(freeSpaceReply))
    {
      if topic == TopicAck {
        if StartsWith(payload, "ACK:") {
          var idx := PyInt(payload[4..]);
          if idx.Some? {
            lastAck := idx;
          }
        }
        return;
      }
      if StartsWith(payload, "FREE:") {
        var v := PyInt(payload[5..]);
        if v.Some? {
          freeSpaceReply := v;
        }
      }
    }

    /** `send_in_chunks`; `ackDuring(i)` is the payload, if any, delivered on
        the ACK topic while the script waits for chunk `i`. */
    method SendInChunks(data: seq<byte>, ackDuring: nat -> Option<string>)
      modifies this
      ensures sent == old(sent) + UploadTrace(data, ackDuring)
      ensures freeSpaceReply == old(freeSpaceReply)
    {
      var fileSize := |data|;
      var totalChunks := TotalChunks(fileSize);
      Publish(TopicChunk, StartMessage(fileSize));
      ghost var k := FirstUnacked(totalChunks, ackDuring, 0);
      ghost var before := old(sent);
      ghost var started := [Message(TopicChunk, StartMessage(fileSize))];
      var i := 0;
      while i < totalChunks
        invariant 0 <= i <= k
        invariant sent == before + (started + FrameMessages(data, i))
        invariant freeSpaceReply == old(freeSpaceReply)
      {
        ghost var sentBefore := sent;
        var acknowledged := SendChunk(data, i, totalChunks, ackDuring);
        ghost var frame := [Message(TopicChunk, Frame(i, totalChunks, Chunk(data, i)))];
        FrameMessagesSnoc(data, i);
        TraceExtended(before, started, FrameMessages(data, i), frame, FrameMessages(data, i + 1));
        if !acknowledged {
          TraceWhenAborted(data, ackDuring, i, k);
          return;
        }
        AckedBeforeFirstUnacked(data, ackDuring, i, k);
        i := i + 1;
      }
      TraceWhenComplete(data, ackDuring, k);
      ghost var sentBefore := sent;
      Publish(TopicChunk, EndMessage());
      assert sent == sentBefore + [Message(TopicChunk, EndMessage())];
    }

    /** One pass of the `for` loop: publish frame `i`, clear `last_ack`
        and wait for that chunk's ACK. */
    method SendChunk(data: seq<byte>, i: nat, totalChunks: nat, ackDuring: nat -> Option<string>)
      returns (acknowledged: bool)
      modifies this
      ensures sent == old(sent) + [Message(TopicChunk, Frame(i, totalChunks, Chunk(data, i)))]
      ensures freeSpaceReply == old(freeSpaceReply)
      ensures acknowledged <==> Acked(ackDuring, i)
    {
      Publish(TopicChunk, Frame(i, totalChunks, Chunk(data, i)));
      lastAck := None;
      var delivered := ackDuring(i);
      if delivered.Some? {
        OnMessage(TopicAck, delivered.value);
      }
      acknowledged := lastAck == Some(i);
    }

    /** `request_free_space`: clear the reply, ask, and take whatever
        response arrived during the wait. */
    method RequestFreeSpace(response: Option<string>) returns (free: Option<int>)
      modifies this
      ensures free == ReportedFree(response) && freeSpaceReply == free
      ensures sent == old(sent) + [Message(TopicRequest, Rx.RequestPayload())]
    {
      freeSpaceReply := None;
      Publish(TopicRequest, Rx.RequestPayload());
      if response.Some? {
        OnMessage(TopicResponse, response.value);
      }
      free := freeSpaceReply;
    }

    /** The script's main sequence after connecting: ask for the free
        space, give up without a reply or when the file is larger, and
        otherwise send it. */
    method Upload(data: seq<byte>, response: Option<string>, ackDuring: nat -> Option<string>)
      modifies this
      ensures sent == old(sent) + [Message(TopicRequest, Rx.RequestPayload())]
        + (if UploadAllowed(|data|, response) then UploadTrace(data, ackDuring) else [])
    {
      var freeSpace := RequestFreeSpace(response);
      SendIfItFits(data, freeSpace, ackDuring);
    }

    /** The gate `file_size > free_space`, after the reply has arrived. */
    method SendIfItFits(data: seq<byte>, freeSpace: Option<int>, ackDuring: nat -> Option<string>)
      modifies this
      ensures sent == old(sent) + (if Fits(|data|, freeSpace) then UploadTrace(data, ackDuring) else [])
    {
      if freeSpace.None? || |data| > freeSpace.value {
        assert sent == old(sent) + [];
        return;
      }
      SendInChunks(data, ackDuring);
    }
  }

  // ---------------------------------------------------------------------
  // Properties of the schedule
  // ---------------------------------------------------------------------

  /** `START:<size>` comes first, and `END` is sent exactly when every
      chunk was acknowledged, and then only after all the frames. */
  lemma StartFirstEndLast(data: seq<byte>, ackDuring: nat -> Option<string>)
    ensures var t := UploadTrace(data, ackDuring);
      && t[0] == Message(TopicChunk, StartMessage(|data|))
      && (Message(TopicChunk, EndMessage()) in t <==>
            forall i :: 0 <= i < TotalChunks(|data|) ==> Acked(ackDuring, i))
      && (Message(TopicChunk, EndMessage()) in t ==>
            t == [t[0]] + FrameMessages(data, TotalChunks(|data|)) + [Message(TopicChunk, EndMessage())])
  {
    var total := TotalChunks(|data|);
    var k := FirstUnacked(total, ackDuring, 0);
    var t := UploadTrace(data, ackDuring);
    var frames := FrameMessages(data, if k < total then k + 1 else total);
    forall m | m in frames ensures m != Message(TopicChunk, EndMessage()) {
      var j :| 0 <= j < |frames| && frames[j] == m;
      FrameIsNotEnd(j, total, Chunk(data, j));
    }
    assert StartMessage(|data|) != EndMessage() by {
      assert |StartMessage(|data|)| > 3;
    }
    if k < total {
      assert t == [t[0]] + frames;
      assert !Acked(ackDuring, k);
    }
  }

  lemma FrameIsNotEnd(i: nat, total: nat, chunk: seq<byte>)
    ensures Frame(i, total, chunk) != EndMessage()
  {
    assert |Frame(i, total, chunk)| > 3;
  }

  /** Stop-and-wait: frame `j` is sent only after every earlier chunk was
      acknowledged, and a missing ACK for chunk `i` means no later frame and
      no `END`. */
  lemma StopAndWait(data: seq<byte>, ackDuring: nat -> Option<string>, i: nat)
    requires i < TotalChunks(|data|)
    requires !Acked(ackDuring, i)
    ensures var t := UploadTrace(data, ackDuring);
      && |t| <= i + 2
      && Message(TopicChunk, EndMessage()) !in t
      && (forall l :: 0 <= l < |t| - 2 ==> Acked(ackDuring, l))
  {
    var total := TotalChunks(|data|);
    var k := FirstUnacked(total, ackDuring, 0);
    assert k <= i;
    StartFirstEndLast(data, ackDuring);
  }

  /** The ACK the gateway formats is read back as the same index. */
  lemma AckRoundTrip(i: nat)
    ensures AckValue(Rx.AckMessage(i)) == Some(i)
  {
    var m := Rx.AckMessage(i);
    assert m[4..] == NatToDecimal(i);
    PyIntOfNatural(i);
  }

  /** With the gateway's own ACK delivered during every wait, the whole file
      goes out, followed by `END`. */
  lemma GatewayAcksCompleteUpload(data: seq<byte>, ackDuring: nat -> Option<string>)
    requires forall i :: 0 <= i < TotalChunks(|data|) ==> ackDuring(i) == Some(Rx.AckMessage(i))
    ensures UploadTrace(data, ackDuring) ==
      [Message(TopicChunk, StartMessage(|data|))] + FrameMessages(data, TotalChunks(|data|))
        + [Message(TopicChunk, EndMessage())]
  {
    forall i | 0 <= i < TotalChunks(|data|) ensures Acked(ackDuring, i) {
      AckRoundTrip(i);
    }
    StartFirstEndLast(data, ackDuring);
  }

  // ---------------------------------------------------------------------
  // The gateway's free-space reply
  // ---------------------------------------------------------------------

  lemma StripPySpacesKeeps(s: string)
    requires s != [] && !IsPySpace(s[0]) && !IsPySpace(s[|s| - 1])
    ensures StripPySpaces(s) == s
  {
  }

  /** As written, the script never accepts the gateway's reply: the text
      after `FREE:` holds a second colon, so `int` raises and
      `free_space_reply` stays `None`, and the upload is abandoned. */
  lemma GatewayReplyRejected(free: nat, current: nat, size: nat)
    ensures ReportedFree(Some(Rx.FreeReply(free, current))) == None
    ensures !UploadAllowed(size, Some(Rx.FreeReply(free, current)))
  {
    var m := Rx.FreeReply(free, current);
    var df, dc := NatToDecimal(free), NatToDecimal(current);
    var t := m[5..];
    assert t == df + ":" + dc;
    assert t[|df|] == ':';
    StripPySpacesKeeps(t);
    assert t[1..] == df[1..] + ":" + dc;
    ColonNotAfterPyDigit(df[1..], dc);
    assert !IsPyDigits(t);
  }

  /** The evident intent: the free space is the first field after `FREE:`
      (`int(payload[5:].split(":")[0])`). */
  function FirstField(s: string): (f: string)
    ensures ':' !in f && StartsWith(s, f)
    ensures |f| < |s| ==> s[|f|] == ':'
  {
    if s == [] || s[0] == ':' then [] else [s[0]] + FirstField(s[1..])
  }

  function ReportedFreeCorrected(response: Option<string>): Option<int> {
    if response.Some? && StartsWith(response.value, "FREE:") then PyInt(FirstField(response.value[5..]))
    else None
  }

  predicate UploadAllowedCorrected(size: nat, response: Option<string>) {
    ReportedFreeCorrected(response).Some? && size <= ReportedFreeCorrected(response).value
  }

  lemma {:induction false} FirstFieldOfDigits(d: string, rest: string)
    requires AllDigits(d)
    ensures FirstField(d + ":" + rest) == d
    decreases |d|
  {
    if d == [] {
      assert (d + ":" + rest)[0] == ':';
    } else {
      assert (d + ":" + rest)[1..] == d[1..] + ":" + rest;
      FirstFieldOfDigits(d[1..], rest);
      assert d == [d[0]] + d[1..];
    }
  }

  /** Parsed by its first field, the gateway's reply gives back its free
      space, and the upload goes ahead exactly when the file fits. */
  lemma GatewayReplyCorrected(free: nat, current: nat, size: nat)
    ensures ReportedFreeCorrected(Some(Rx.FreeReply(free, current))) == Some(free)
    ensures UploadAllowedCorrected(size, Some(Rx.FreeReply(free, current))) <==> size <= free
  {
    var m := Rx.FreeReply(free, current);
    var df, dc := NatToDecimal(free), NatToDecimal(current);
    assert m[5..] == df + ":" + dc;
    FirstFieldOfDigits(df, dc);
    PyIntOfNatural(free);
  }

  // ---------------------------------------------------------------------
  // The uploader's messages at the gateway
  // ---------------------------------------------------------------------

  /** The gateway's state after handling `msgs` in order. */
  function Feed(s: Rx.RxState, msgs: seq<Message>, env: Rx.FsEnv): Rx.RxState
    requires Rx.ValidEnv(env)
    decreases |msgs|
  {
    if msgs == [] then s
    else Feed(Rx.Receive(s, msgs[0].topic, msgs[0].payload, env).next, msgs[1..], env)
  }

  lemma {:induction false} FeedAppend(s: Rx.RxState, a: seq<Message>, b: seq<Message>, env: Rx.FsEnv)
    requires Rx.ValidEnv(env)
    ensures Feed(s, a + b, env) == Feed(Feed(s, a, env), b, env)
    decreases |a|
  {
    if a != [] {
      assert (a + b)[0] == a[0];
      assert (a + b)[1..] == a[1..] + b;
      FeedAppend(Rx.Receive(s, a[0].topic, a[0].payload, env).next, a[1..], b, env);
    } else {
      assert a + b == b;
    }
  }

  lemma TextOfBytes(h: string, rest: seq<byte>, a: nat, b: nat)
    requires IsByteString(h) && a <= b <= |h|
    ensures BytesToString((StringToBytes(h) + rest)[a..b]) == h[a..b]
  {
    var l := BytesToString((StringToBytes(h) + rest)[a..b]);
    forall j | 0 <= j < b - a ensures l[j] == h[a + j] {
    }
  }

  lemma {:induction false} NextColonAt(p: seq<byte>, from: nat, k: nat)
    requires from <= k < |p| && p[k] == Rx.ColonByte
    requires forall j :: from <= j < k ==> p[j] != Rx.ColonByte
    ensures Rx.NextColon(p, from) == k
    decreases k - from
  {
    if from < k {
      NextColonAt(p, from + 1, k);
    }
  }

  /** The two colons the gateway looks for are the ones that end the
      index and the total. */
  lemma HeaderColons(di: string, dt: string, chunk: seq<byte>)
    requires AllDigits(di) && AllDigits(dt)
    ensures var c1, c2 := 6 + |di|, 7 + |di| + |dt|;
      var p := StringToBytes(Header(di, dt)) + chunk;
      && |p| >= 6
      && Rx.ChunkHeader(p) == Some((c1, c2))
      && p[c2 + 1..] == chunk
  {
    var h := Header(di, dt);
    var p := StringToBytes(h) + chunk;
    var c1, c2 := 6 + |di|, 7 + |di| + |dt|;
    HeaderChars(di, dt);
    forall j | 6 <= j < c1 ensures p[j] != Rx.ColonByte {
      assert p[j] as int == h[j] as int;
    }
    assert p[c1] as int == h[c1] as int;
    NextColonAt(p, 6, c1);
    forall j | c1 + 1 <= j < c2 ensures p[j] != Rx.ColonByte {
      assert p[j] as int == h[j] as int;
    }
    assert p[c2] as int == h[c2] as int;
    NextColonAt(p, c1 + 1, c2);
  }

  lemma FrameColons(i: nat, total: nat, chunk: seq<byte>, di: string, dt: string)
    requires di == NatToDecimal(i) && dt == NatToDecimal(total)
    ensures var c1, c2 := 6 + |di|, 7 + |di| + |dt|;
      var p := Frame(i, total, chunk);
      && |p| >= 6
      && Rx.ChunkHeader(p) == Some((c1, c2))
      && p[c2 + 1..] == chunk
  {
    HeaderColons(di, dt, chunk);
  }

  lemma HeaderChars(di: string, dt: string)
    requires AllDigits(di) && AllDigits(dt)
    ensures var h := Header(di, dt);
      var c1, c2 := 6 + |di|, 7 + |di| + |dt|;
      && h[..6] == Rx.ChunkPrefix
      && h[6..c1] == di
      && h[c1] == ':' && h[c2] == ':'
      && (forall j :: 6 <= j < c1 ==> IsDigit(h[j]))
      && (forall j :: c1 + 1 <= j < c2 ==> IsDigit(h[j]))
  {
    var h := Header(di, dt);
    var c1 := 6 + |di|;
    assert h == (("CHUNK:" + di) + ":") + dt + ":";
    forall j | 6 <= j < c1 ensures IsDigit(h[j]) {
      assert h[j] == di[j - 6];
    }
    forall j | c1 + 1 <= j < c1 + 1 + |dt| ensures IsDigit(h[j]) {
      assert h[j] == dt[j - c1 - 1];
    }
  }

  /** The gateway reads the frame's index back, saturated to an `int`. */
  lemma FrameIndex(i: nat, total: nat, chunk: seq<byte>, di: string, dt: string)
    requires di == NatToDecimal(i) && dt == NatToDecimal(total)
    requires |di| < Rx.NumberBufferSize
    ensures Rx.ParseNumber(Frame(i, total, chunk), 6, 6 + |di|) == Saturate32(i)
  {
    var h := Header(di, dt);
    HeaderChars(di, dt);
    TextOfBytes(h, chunk, 6, 6 + |di|);
    AtoiOfNatural(i, []);
    assert di + [] == di;
  }

  /** A frame is a `CHUNK:` message and not a `START:` one. */
  lemma FramePrefix(i: nat, total: nat, chunk: seq<byte>)
    ensures Rx.HasPrefix6(Frame(i, total, chunk), Rx.ChunkPrefix)
    ensures !Rx.HasPrefix6(Frame(i, total, chunk), Rx.StartPrefix)
  {
    var h := FrameHeader(i, total);
    HeaderChars(NatToDecimal(i), NatToDecimal(total));
    TextOfBytes(h, chunk, 0, 6);
    assert Rx.ChunkPrefix[0] != Rx.StartPrefix[0];
  }

  /** The gateway parses a frame back into its index and its bytes: a
      non-empty chunk is appended, counted and acknowledged with `ACK:<i>`
      (for indices of at most 15 digits, which the parser's buffer holds;
      an index beyond `int` is acknowledged as the largest `int`). */
  lemma FrameParses(s: Rx.RxState, i: nat, total: nat, chunk: seq<byte>, env: Rx.FsEnv)
    requires Rx.ValidEnv(env) && s.receiving && chunk != []
    requires |NatToDecimal(i)| < Rx.NumberBufferSize
    ensures Rx.Receive(s, Rx.TopicChunk, Frame(i, total, chunk), env) ==
      Rx.Reaction(true, s.(
        fs := s.fs[Rx.RecvFilename := Rx.FileOf(s.fs) + chunk],
        receivedSize := WrapAdd(s.receivedSize, |chunk|),
        outbox := s.outbox + Rx.PublishIf(s.hasClient, Rx.Publication(Rx.TopicAck, Rx.AckMessage(Saturate32(i))))))
  {
    var p := Frame(i, total, chunk);
    var di, dt := NatToDecimal(i), NatToDecimal(total);
    FramePrefix(i, total, chunk);
    FrameColons(i, total, chunk, di, dt);
    FrameIndex(i, total, chunk, di, dt);
    Rx.WellFormedChunk(s, p, env);
  }

  /** The script and the gateway firmware name the same four topics. */
  lemma TopicsAgree()
    ensures TopicRequest == Rx.TopicRequest && TopicChunk == Rx.TopicChunk
    ensures TopicResponse == Rx.TopicResponse && TopicAck == Rx.TopicAck
  {
  }

  lemma FeedOne(s: Rx.RxState, m: Message, env: Rx.FsEnv)
    requires Rx.ValidEnv(env)
    ensures Feed(s, [m], env) == Rx.Receive(s, m.topic, m.payload, env).next
  {
    assert [m][1..] == [];
  }

  /** The `ACK:<i>` replies for the first `k` chunks, through a client. */
  function Acks(hasClient: bool, k: nat): (ps: seq<Rx.Publication>)
    ensures |ps| == if hasClient then k else 0
  {
    if k == 0 then [] else Acks(hasClient, k - 1) + Rx.PublishIf(hasClient, Rx.Publication(Rx.TopicAck, Rx.AckMessage(k - 1)))
  }

  /** Frame `i` of the upload, fed to a receiving gateway, appends chunk
      `i` to the destination, counts its bytes and acknowledges it. */
  lemma FrameStep(r: Rx.RxState, data: seq<byte>, i: nat, env: Rx.FsEnv)
    requires Rx.ValidEnv(env) && r.receiving
    requires i < TotalChunks(|data|) && |data| < U32 && r.receivedSize + |Chunk(data, i)| < U32
    ensures Feed(r, [Message(TopicChunk, Frame(i, TotalChunks(|data|), Chunk(data, i)))], env) == r.(
      fs := r.fs[Rx.RecvFilename := Rx.FileOf(r.fs) + Chunk(data, i)],
      receivedSize := r.receivedSize + |Chunk(data, i)|,
      outbox := r.outbox + Rx.PublishIf(r.hasClient, Rx.Publication(Rx.TopicAck, Rx.AckMessage(i))))
  {
    var m := Message(TopicChunk, Frame(i, TotalChunks(|data|), Chunk(data, i)));
    FeedOne(r, m, env);
    TopicsAgree();
    ChunkNonEmpty(data, i);
    DecimalBelowU32(i);
    assert i <= IntMax by {
      var t := TotalChunks(|data|);
      assert i * ChunkSize <= (t - 1) * ChunkSize;
    }
    FrameParses(r, i, TotalChunks(|data|), Chunk(data, i), env);
  }

  /** The first `k` frames, fed to a receiving gateway, append the first
      `k` chunks to the destination, count their bytes and acknowledge each
      in order. */
  lemma {:induction false} FeedFrames(s: Rx.RxState, data: seq<byte>, k: nat, env: Rx.FsEnv)
    requires Rx.ValidEnv(env) && s.receiving && Rx.RecvFilename in s.fs
    requires k <= TotalChunks(|data|) && |data| < U32 && s.receivedSize + |data| < U32
    ensures Feed(s, FrameMessages(data, k), env) == s.(
      fs := s.fs[Rx.RecvFilename := Rx.FileOf(s.fs) + SentPrefix(data, k)],
      receivedSize := s.receivedSize + |SentPrefix(data, k)|,
      outbox := s.outbox + Acks(s.hasClient, k))
  {
    if k == 0 {
      FeedFramesNone(s, data, env);
    } else {
      var i := k - 1;
      var m := Message(TopicChunk, Frame(i, TotalChunks(|data|), Chunk(data, i)));
      FrameMessagesSnoc(data, i);
      FeedAppend(s, FrameMessages(data, i), [m], env);
      FeedFrames(s, data, i, env);
      var r := Feed(s, FrameMessages(data, i), env);
      SentPrefixStep(data, i);
      assert |SentPrefix(data, i)| + |Chunk(data, i)| <= |data|;
      FrameStep(r, data, i, env);
      FramesCompose(s, r, Feed(r, [m], env), data, i);
    }
  }

  /** Frames `0..i` followed by frame `i` are frames `0..i+1`. */
  lemma FramesCompose(s: Rx.RxState, r: Rx.RxState, t: Rx.RxState, data: seq<byte>, i: nat)
    requires r == s.(
      fs := s.fs[Rx.RecvFilename := Rx.FileOf(s.fs) + SentPrefix(data, i)],
      receivedSize := s.receivedSize + |SentPrefix(data, i)|,
      outbox := s.outbox + Acks(s.hasClient, i))
    requires t == r.(
      fs := r.fs[Rx.RecvFilename := Rx.FileOf(r.fs) + Chunk(data, i)],
      receivedSize := r.receivedSize + |Chunk(data, i)|,
      outbox := r.outbox + Rx.PublishIf(r.hasClient, Rx.Publication(Rx.TopicAck, Rx.AckMessage(i))))
    ensures t == s.(
      fs := s.fs[Rx.RecvFilename := Rx.FileOf(s.fs) + SentPrefix(data, i + 1)],
      receivedSize := s.receivedSize + |SentPrefix(data, i + 1)|,
      outbox := s.outbox + Acks(s.hasClient, i + 1))
  {
    SentPrefixStep(data, i);
    ChunkedFile(s.fs, r.fs, SentPrefix(data, i), Chunk(data, i), SentPrefix(data, i + 1));
    assert r.outbox + Rx.PublishIf(r.hasClient, Rx.Publication(Rx.TopicAck, Rx.AckMessage(i)))
        == s.outbox + Acks(s.hasClient, i + 1);
  }

  lemma FeedFramesNone(s: Rx.RxState, data: seq<byte>, env: Rx.FsEnv)
    requires Rx.ValidEnv(env) && Rx.RecvFilename in s.fs
    ensures Feed(s, FrameMessages(data, 0), env) == s.(
      fs := s.fs[Rx.RecvFilename := Rx.FileOf(s.fs) + SentPrefix(data, 0)],
      receivedSize := s.receivedSize + |SentPrefix(data, 0)|,
      outbox := s.outbox + Acks(s.hasClient, 0))
  {
    assert FrameMessages(data, 0) == [];
    assert SentPrefix(data, 0) == [];
    assert Rx.FileOf(s.fs) + [] == Rx.FileOf(s.fs);
    assert s.fs[Rx.RecvFilename := Rx.FileOf(s.fs)] == s.fs;
    assert s.outbox + [] == s.outbox;
  }

  /** Appending `chunk` to a destination that already holds `sent`. */
  lemma ChunkedFile(fs0: Rx.FileSystem, fs1: Rx.FileSystem, sent: seq<byte>, chunk: seq<byte>, next: seq<byte>)
    requires fs1 == fs0[Rx.RecvFilename := Rx.FileOf(fs0) + sent]
    requires sent + chunk == next
    ensures fs1[Rx.RecvFilename := Rx.FileOf(fs1) + chunk] == fs0[Rx.RecvFilename := Rx.FileOf(fs0) + next]
  {
    assert Rx.FileOf(fs1) + chunk == Rx.FileOf(fs0) + next;
  }

  /** `START:<n>` with the destination opening: the gateway receives into
      an empty file and expects `n` bytes, or 2^31 - 1 when `n` does not
      fit the `long` that `toInt` returns. */
  lemma StartOpens(s: Rx.RxState, n: nat, env: Rx.FsEnv)
    requires Rx.ValidEnv(env) && env.openOk
    ensures var r := Rx.Receive(s, TopicChunk, StartMessage(n), env).next;
      && r.receiving && Rx.RecvFilename in r.fs && Rx.FileOf(r.fs) == []
      && r.expectedSize == Saturate32(n) && r.receivedSize == 0
      && r.hasClient == s.hasClient && r.outbox == s.outbox
  {
    AtoiOfNatToDecimal(n);
    DecimalIsByteString(n);
    TopicsAgree();
    StartWithDigits(s, NatToDecimal(n), n, env);
  }

  lemma StartWithDigits(s: Rx.RxState, d: string, n: nat, env: Rx.FsEnv)
    requires Rx.ValidEnv(env) && env.openOk
    requires IsByteString(d) && d != [] && Atoi(d) == n
    ensures var r := Rx.Receive(s, Rx.TopicChunk, StringToBytes(Rx.StartPrefix + d), env).next;
      && r.receiving && Rx.RecvFilename in r.fs && Rx.FileOf(r.fs) == []
      && r.expectedSize == Saturate32(n) && r.receivedSize == 0
      && r.hasClient == s.hasClient && r.outbox == s.outbox
  {
    Rx.StartResets(s, d, env);
  }

  /** `END` stops the receiver and changes nothing else. */
  lemma EndCloses(s: Rx.RxState, env: Rx.FsEnv)
    requires Rx.ValidEnv(env)
    ensures Rx.Receive(s, TopicChunk, EndMessage(), env).next == s.(receiving := false)
  {
    TopicsAgree();
    Rx.EndIdempotent(s, env);
  }

  /** End to end: a completed upload leaves the gateway idle, with the
      destination file equal to the uploaded bytes, the received count
      equal to the file size, the expected count equal to it as well up to
      2^31 - 1 (where `toInt` saturates), and one `ACK:<i>` per chunk
      published in order. */
  lemma UploadDelivers(s: Rx.RxState, data: seq<byte>, env: Rx.FsEnv)
    requires Rx.ValidEnv(env) && env.openOk && |data| < U32
    ensures var r := Feed(s, [Message(TopicChunk, StartMessage(|data|))] + FrameMessages(data, TotalChunks(|data|))
                             + [Message(TopicChunk, EndMessage())], env);
      && !r.receiving && Rx.FileOf(r.fs) == data
      && r.expectedSize == Saturate32(|data|) && r.receivedSize == |data|
      && r.outbox == s.outbox + Acks(s.hasClient, TotalChunks(|data|))
  {
    var start := [Message(TopicChunk, StartMessage(|data|))];
    var frames := FrameMessages(data, TotalChunks(|data|));
    var end := [Message(TopicChunk, EndMessage())];
    FeedAppend(s, start + frames, end, env);
    FeedAppend(s, start, frames, env);
    FeedOne(s, start[0], env);
    StartOpens(s, |data|, env);
    var s1 := Feed(s, start, env);
    FeedFrames(s1, data, TotalChunks(|data|), env);
    assert SentPrefix(data, TotalChunks(|data|)) == data;
    var s2 := Feed(s1, frames, env);
    FeedOne(s2, end[0], env);
    EndCloses(s2, env);
  }
}
