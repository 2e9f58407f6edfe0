/** The file mode of the UDP stream sender
    (scripts/stream_sender_sanity_check.py): the PCM samples are cut into
    60 ms frames of 960 samples, a short last frame is padded with silence,
    and every frame goes out as one datagram made of a 7-byte big-endian
    header (sequence number, predictor and step index from before the
    frame) followed by the frame's packed ADPCM codes. With `--loop` the
    file starts again with a fresh encoder. */
module StreamSender {
  import opened Wrappers
  import opened Bytes
  import opened Adpcm

  const SampleRate: nat := 16000
  const FrameMs: nat := 60
  /** `FRAME_SAMPLES = int(SAMPLE_RATE * FRAME_MS / 1000)`. */
  const FrameSamples: nat := 960
  /** `FRAME_PAYLOAD_BYTES = (FRAME_SAMPLES + 1) // 2`. */
  const FramePayloadBytes: nat := 480
  const HeaderSize: nat := 7

  lemma FrameConstants()
    ensures FrameSamples == SampleRate * FrameMs / 1000
    ensures FramePayloadBytes == (FrameSamples + 1) / 2
  {
  }

  /** `pcm_samples[idx : idx + FRAME_SAMPLES]`, extended with zeros to a
      full frame. */
  function FrameAt(pcm: seq<int>, idx: nat): (frame: seq<int>)
    ensures |frame| == FrameSamples
  {
    var part := if idx >= |pcm| then [] else pcm[idx..Min(idx + FrameSamples, |pcm|)];
    part + seq(FrameSamples - |part|, _ => 0)
  }

  /** Sample `k` of the frame at `idx` is sample `idx + k` of the file, or
      silence past its end. */
  lemma FrameAtSample(pcm: seq<int>, idx: nat, k: nat)
    requires k < FrameSamples
    ensures FrameAt(pcm, idx)[k] == if idx + k < |pcm| then pcm[idx + k] else 0
  {
  }

  // ---------------------------------------------------------------------
  // The header
  // ---------------------------------------------------------------------

  /** The three header fields. */
  datatype HeaderFields = HeaderFields(seqNo: nat, predictor: int, stepIndex: int)

  /** The `n` low base-256 digits of `v`, most significant first. */
  function BeBytes(v: nat, n: nat): (bs: seq<byte>)
    ensures |bs| == n
  {
    if n == 0 then [] else BeBytes(v / 256, n - 1) + [(v % 256) as byte]
  }

  /** `struct.pack(">I", v)`. */
  function BeU32(v: nat): (bs: seq<byte>)
    requires v < U32
    ensures |bs| == 4
  {
    BeBytes(v, 4)
  }

  /** `struct.pack(">h", v)`: two's complement, high byte first. */
  function BeI16(v: int): (bs: seq<byte>)
    requires MinPredictor <= v <= MaxPredictor
    ensures |bs| == 2
  {
    BeBytes(if v < 0 then v + 65536 else v, 2)
  }

  /** `struct.pack(">IhB", seq, current_pred, current_idx)`. */
  function Header(seqNo: nat, s: EncoderState): (bs: seq<byte>)
    requires seqNo < U32 && StateValid(s)
    ensures |bs| == HeaderSize
  {
    BeU32(seqNo) + BeI16(s.predictor) + [s.stepIndex as byte]
  }

  /** A receiver's `struct.unpack(">IhB", ...)` of the first seven bytes;
      nothing for a shorter datagram. */
  function ParseHeader(pkt: seq<byte>): (h: Option<HeaderFields>)
    ensures h.Some? <==> |pkt| >= HeaderSize
    ensures h.Some? ==> (h.value.seqNo < U32 && MinPredictor <= h.value.predictor <= MaxPredictor
                         && 0 <= h.value.stepIndex < 256)
  {
    if |pkt| < HeaderSize then None
    else
      var sq := pkt[0] as nat * 0x100_0000 + pkt[1] as nat * 0x1_0000 + pkt[2] as nat * 256 + pkt[3] as nat;
      var u := pkt[4] as nat * 256 + pkt[5] as nat;
      Some(HeaderFields(sq, if u >= 32768 then u - 65536 else u, pkt[6] as int))
  }

  lemma BeU32Value(v: nat)
    requires v < U32
    ensures var b := BeU32(v); b[0] as nat * 0x100_0000 + b[1] as nat * 0x1_0000 + b[2] as nat * 256 + b[3] as nat == v
  {
    var w := v / 256;
    var w2 := w / 256;
    var w3 := w2 / 256;
    assert BeBytes(v, 4) == BeBytes(w, 3) + [(v % 256) as byte];
    assert BeBytes(w, 3) == BeBytes(w2, 2) + [(w % 256) as byte];
    assert BeBytes(w2, 2) == BeBytes(w3, 1) + [(w2 % 256) as byte];
    assert BeBytes(w3, 1) == [(w3 % 256) as byte];
    assert v == w * 256 + v % 256;
    assert w == w2 * 256 + w % 256;
    assert w2 == w3 * 256 + w2 % 256;
  }

  lemma BeI16Value(v: int)
    requires MinPredictor <= v <= MaxPredictor
    ensures var b := BeI16(v); var u := b[0] as nat * 256 + b[1] as nat;
      (if u >= 32768 then u - 65536 else u) == v
  {
    var u := if v < 0 then v + 65536 else v;
    assert BeBytes(u, 2) == BeBytes(u / 256, 1) + [(u % 256) as byte];
    assert BeBytes(u / 256, 1) == [((u / 256) % 256) as byte];
  }

  /** The header carries its three fields exactly, whatever follows it. */
  lemma {:induction false} HeaderRoundTrip(seqNo: nat, s: EncoderState, payload: seq<byte>)
    requires seqNo < U32 && StateValid(s)
    ensures ParseHeader(Header(seqNo, s) + payload) == Some(HeaderFields(seqNo, s.predictor, s.stepIndex))
  {
    var pkt := Header(seqNo, s) + payload;
    assert pkt[..4] == BeU32(seqNo);
    assert pkt[4..6] == BeI16(s.predictor);
    BeU32Value(seqNo);
    BeI16Value(s.predictor);
  }

  // ---------------------------------------------------------------------
  // Packets and the stream
  // ---------------------------------------------------------------------

  /** `header + payload` for a frame encoded from state `s`. */
  function Packet(seqNo: nat, s: EncoderState, frame: seq<int>): (pkt: seq<byte>)
    requires seqNo < U32 && StateValid(s)
  {
    Header(seqNo, s) + Packed(EncodeSeq(s, frame).nibbles)
  }

  /** Every datagram of a full frame is 487 bytes: the header and 480
      payload bytes. */
  lemma {:induction false} PacketLength(seqNo: nat, s: EncoderState, frame: seq<int>)
    requires seqNo < U32 && StateValid(s) && |frame| == FrameSamples
    ensures |Packet(seqNo, s, frame)| == HeaderSize + FramePayloadBytes
  {
    PackedLength(EncodeSeq(s, frame).nibbles);
  }

  /** Stateless decoding: a receiver holding only this datagram reads the
      encoder's state from the header and, decoding the payload from it,
      reproduces the encoder's reconstructed samples for the frame and the
      state the sender continues with. */
  lemma {:induction false} PacketDecodes(seqNo: nat, s: EncoderState, frame: seq<int>)
    requires seqNo < U32 && StateValid(s) && |frame| == FrameSamples
    ensures var pkt := Packet(seqNo, s, frame);
      && ParseHeader(pkt) == Some(HeaderFields(seqNo, s.predictor, s.stepIndex))
      && Unpack(pkt[HeaderSize..]) == EncodeSeq(s, frame).nibbles
      && DecodeSeq(s, Unpack(pkt[HeaderSize..])) == DecodedRun(EncodedSamples(s, frame), EncodeSeq(s, frame).next)
  {
    var ns := EncodeSeq(s, frame).nibbles;
    var pkt := Packet(seqNo, s, frame);
    HeaderRoundTrip(seqNo, s, Packed(ns));
    assert pkt[HeaderSize..] == Packed(ns);
    UnpackPacked(ns);
    assert ns + Padding(ns) == ns;
    DecodeEncoded(s, frame);
  }

  /** What the sender packetises for one datagram: the sequence number, the
      encoder state captured before the frame, and the frame. */
  datatype FrameJob = FrameJob(seqNo: nat, state: EncoderState, frame: seq<int>)

  predicate JobValid(j: FrameJob) {
    j.seqNo < U32 && StateValid(j.state)
  }

  type ValidJob = j: FrameJob | JobValid(j) witness FrameJob(0, Initial, [])

  /** The frames the file mode sends, at most `budget` of them, from frame
      position `idx` with encoder state `s`, `count` frames having been sent
      before: at the end of the samples it stops, or with `loopMode` starts
      again from the first sample with a fresh encoder. Each frame carries
      the number of frames sent before it modulo 2^32, which is what the
      sender's `seq = (seq + 1) & 0xFFFFFFFF` counts. */
  function Jobs(step: (EncoderState, int) --> Encoded, pcm: seq<int>, loopMode: bool, budget: nat, count: nat, idx: nat, s: EncoderState): (js: seq<ValidJob>)
    requires Closed(step) && StateValid(s)
    ensures |js| <= budget
    decreases budget
  {
    if budget == 0 || (idx >= |pcm| && !loopMode) then []
    else
      var i := if idx >= |pcm| then 0 else idx;
      var st := if idx >= |pcm| then Initial else s;
      var frame := FrameAt(pcm, i);
      [FrameJob(SeqNoOf(count), st, frame)] + Jobs(step, pcm, loopMode, budget - 1, count + 1, i + FrameSamples, Run(step, st, frame).next)
  }

  /** The datagram of each frame, in order. */
  function Packets(js: seq<ValidJob>): (ps: seq<seq<byte>>)
    ensures |ps| == |js|
  {
    if js == [] then []
    else
      var j := js[|js| - 1];
      Packets(js[..|js| - 1]) + [Packet(j.seqNo, j.state, j.frame)]
  }

  lemma {:induction false} PacketsAt(js: seq<ValidJob>, k: nat)
    requires k < |js|
    ensures Packets(js)[k] == Packet(js[k].seqNo, js[k].state, js[k].frame)
  {
    if k < |js| - 1 {
      var init := js[..|js| - 1];
      PacketsAt(init, k);
    }
  }

  /** The frames the file mode sends with the sender's encoder. */
  function FileJobs(pcm: seq<int>, loopMode: bool, budget: nat, count: nat, idx: nat, s: EncoderState): seq<ValidJob>
    requires StateValid(s)
  {
    EncodeStepClosed();
    Jobs(EncodeStep, pcm, loopMode, budget, count, idx, s)
  }

  /** The datagrams the file mode sends, at most `budget` of them. */
  function Stream(pcm: seq<int>, loopMode: bool, budget: nat): seq<seq<byte>> {
    Packets(FileJobs(pcm, loopMode, budget, 0, 0, Initial))
  }

  /** Frames needed to send the samples from `idx` on. */
  function FramesLeft(n: nat, idx: nat): nat
    decreases n - idx
  {
    if idx >= n then 0 else 1 + FramesLeft(n, idx + FrameSamples)
  }

  /** The number of frames is the number of samples divided by 960,
      rounded up. */
  lemma {:induction false} FramesLeftCeil(n: nat, idx: nat)
    ensures FramesLeft(n, idx) == if idx >= n then 0 else (n - idx + FrameSamples - 1) / FrameSamples
    decreases n - idx
  {
    if idx < n {
      FramesLeftCeil(n, idx + FrameSamples);
    }
  }

  /** Without looping the sender stops after the frame that reaches the end
      of the samples: `ceil(len / 960)` frames, unless the budget runs out
      first. */
  lemma {:induction false} JobsCount(step: (EncoderState, int) --> Encoded, pcm: seq<int>, budget: nat, count: nat, idx: nat, s: EncoderState)
    requires Closed(step) && StateValid(s)
    ensures |Jobs(step, pcm, false, budget, count, idx, s)| == Min(budget, FramesLeft(|pcm|, idx))
    decreases budget
  {
    if budget > 0 && idx < |pcm| {
      var frame := FrameAt(pcm, idx);
      JobsCount(step, pcm, budget - 1, count + 1, idx + FrameSamples, Run(step, s, frame).next);
    }
  }

  /** With looping the sender never stops by itself. */
  lemma {:induction false} LoopCount(step: (EncoderState, int) --> Encoded, pcm: seq<int>, budget: nat, count: nat, idx: nat, s: EncoderState)
    requires Closed(step) && StateValid(s)
    ensures |Jobs(step, pcm, true, budget, count, idx, s)| == budget
    decreases budget
  {
    if budget > 0 {
      var i := if idx >= |pcm| then 0 else idx;
      var st := if idx >= |pcm| then Initial else s;
      LoopCount(step, pcm, budget - 1, count + 1, i + FrameSamples, Run(step, st, FrameAt(pcm, i)).next);
    }
  }

  /** Frame `k`, at position `p = idx + 960 * k` of the samples, is sent
      `k`-th as long as the file has not ended before it, numbered
      `count + k` modulo 2^32, with the state the encoder reached over all
      the samples before it: the encoder runs on without a reset from frame
      to frame. */
  lemma {:induction false} JobsAt(step: (EncoderState, int) --> Encoded, pcm: seq<int>, loopMode: bool, budget: nat,
                                  count: nat, idx: nat, s: EncoderState, k: nat, p: nat)
    requires Closed(step) && StateValid(s)
    requires p == idx + FrameSamples * k && k < budget && p < |pcm|
    ensures SentAt(Jobs(step, pcm, loopMode, budget, count, idx, s), k,
                   FrameJob(SeqNoOf(count + k), Run(step, s, pcm[idx..p]).next, FrameAt(pcm, p)))
    decreases k
  {
    if k == 0 {
      JobsAtFirst(step, pcm, loopMode, budget, count, idx, s);
    } else {
      var j := idx + FrameSamples;
      assert FrameSamples * k == FrameSamples + FrameSamples * (k - 1);
      var next := Run(step, s, FrameAt(pcm, idx)).next;
      JobsAt(step, pcm, loopMode, budget - 1, count + 1, j, next, k - 1, p);
      JobsAtStep(step, pcm, loopMode, budget, budget - 1, count, idx, s, k, p, next);
    }
  }

  /** Job `k` of `js` is `j`. */
  predicate SentAt(js: seq<ValidJob>, k: nat, j: FrameJob) {
    k < |js| && js[k] == j
  }

  /** The base of `JobsAt`: the first frame goes out with the state it
      starts from. */
  lemma JobsAtFirst(step: (EncoderState, int) --> Encoded, pcm: seq<int>, loopMode: bool, budget: nat,
                    count: nat, idx: nat, s: EncoderState)
    requires Closed(step) && StateValid(s) && 0 < budget && idx < |pcm|
    ensures var js := Jobs(step, pcm, loopMode, budget, count, idx, s);
      0 < |js| && js[0] == FrameJob(SeqNoOf(count), Run(step, s, pcm[idx..idx]).next, FrameAt(pcm, idx))
  {
    assert pcm[idx..idx] == [];
  }

  /** The step of `JobsAt`: frame `k` from `idx` is frame `k - 1` from the
      next frame's position and state. */
  lemma JobsAtStep(step: (EncoderState, int) --> Encoded, pcm: seq<int>, loopMode: bool, budget: nat, rest: nat,
                   count: nat, idx: nat, s: EncoderState, k: nat, p: nat, next: EncoderState)
    requires Closed(step) && StateValid(s) && budget == rest + 1
    requires 0 < k < budget && p == idx + FrameSamples + FrameSamples * (k - 1) && p < |pcm|
    requires next == Run(step, s, FrameAt(pcm, idx)).next
    requires SentAt(Jobs(step, pcm, loopMode, rest, count + 1, idx + FrameSamples, next), k - 1,
                    FrameJob(SeqNoOf(count + 1 + (k - 1)), Run(step, next, pcm[idx + FrameSamples..p]).next, FrameAt(pcm, p)))
    ensures SentAt(Jobs(step, pcm, loopMode, budget, count, idx, s), k,
                   FrameJob(SeqNoOf(count + k), Run(step, s, pcm[idx..p]).next, FrameAt(pcm, p)))
  {
    var j := idx + FrameSamples;
    FrameOfFull(pcm, idx);
    var first := FrameAt(pcm, idx);
    var tail := Jobs(step, pcm, loopMode, rest, count + 1, j, next);
    var head := FrameJob(SeqNoOf(count), s, first);
    JobsUnfoldAt(step, pcm, loopMode, budget, rest, count, idx, s);
    assert Jobs(step, pcm, loopMode, budget, count, idx, s) == [head] + tail;
    assert ([head] + tail)[k] == tail[k - 1];
    assert count + 1 + (k - 1) == count + k;
    assert first + pcm[j..p] == pcm[idx..p];
    RunAppend(step, s, first, pcm[j..p]);
    assert Run(step, next, pcm[j..p]).next == Run(step, s, pcm[idx..p]).next;
  }

  /** One frame of the file mode, while samples remain. */
  lemma JobsUnfold(step: (EncoderState, int) --> Encoded, pcm: seq<int>, loopMode: bool, budget: nat, count: nat, idx: nat, s: EncoderState)
    requires Closed(step) && StateValid(s) && budget > 0 && idx < |pcm|
    ensures var frame := FrameAt(pcm, idx);
      Jobs(step, pcm, loopMode, budget, count, idx, s)
        == [FrameJob(SeqNoOf(count), s, frame)] + Jobs(step, pcm, loopMode, budget - 1, count + 1, idx + FrameSamples, Run(step, s, frame).next)
  {
  }

  /** A frame that lies inside the samples is the plain slice. */
  lemma FrameOfFull(pcm: seq<int>, idx: nat)
    requires idx + FrameSamples <= |pcm|
    ensures FrameAt(pcm, idx) == pcm[idx..idx + FrameSamples]
  {
  }

  /** In loop mode the stream is one pass over the file, then the stream
      started afresh from the first sample with an initial encoder. */
  lemma {:induction false} LoopRestarts(step: (EncoderState, int) --> Encoded, pcm: seq<int>, budget: nat, count: nat, idx: nat, s: EncoderState, f: nat)
    requires Closed(step) && StateValid(s) && f == FramesLeft(|pcm|, idx)
    ensures Jobs(step, pcm, true, f + budget, count, idx, s)
         == Jobs(step, pcm, false, f, count, idx, s) + Jobs(step, pcm, true, budget, count + f, 0, Initial)
    decreases |pcm| - idx
  {
    if idx >= |pcm| {
      LoopRestartsEnd(step, pcm, budget, count, idx, s, f);
    } else {
      var next := Run(step, s, FrameAt(pcm, idx)).next;
      var g := FramesLeft(|pcm|, idx + FrameSamples);
      LoopRestarts(step, pcm, budget, count + 1, idx + FrameSamples, next, g);
      LoopRestartsStep(step, pcm, budget, count, idx, s, f, g);
    }
  }

  /** The base case of `LoopRestarts`: at the end of the samples the pass
      is empty and the stream restarts at once. */
  lemma LoopRestartsEnd(step: (EncoderState, int) --> Encoded, pcm: seq<int>, budget: nat, count: nat, idx: nat, s: EncoderState, f: nat)
    requires Closed(step) && StateValid(s) && idx >= |pcm| && f == FramesLeft(|pcm|, idx)
    ensures Jobs(step, pcm, true, f + budget, count, idx, s)
         == Jobs(step, pcm, false, f, count, idx, s) + Jobs(step, pcm, true, budget, count + f, 0, Initial)
  {
    JobsRewind(step, pcm, budget, count, idx, s);
    assert f == 0;
    assert Jobs(step, pcm, false, f, count, idx, s) == [];
  }

  /** The step of `LoopRestarts`: one frame of the pass, then the rest. */
  lemma LoopRestartsStep(step: (EncoderState, int) --> Encoded, pcm: seq<int>, budget: nat, count: nat, idx: nat, s: EncoderState, f: nat, g: nat)
    requires Closed(step) && StateValid(s) && idx < |pcm| && f == g + 1
    requires var next := Run(step, s, FrameAt(pcm, idx)).next;
      Jobs(step, pcm, true, g + budget, count + 1, idx + FrameSamples, next)
        == Jobs(step, pcm, false, g, count + 1, idx + FrameSamples, next) + Jobs(step, pcm, true, budget, count + 1 + g, 0, Initial)
    ensures Jobs(step, pcm, true, f + budget, count, idx, s)
         == Jobs(step, pcm, false, f, count, idx, s) + Jobs(step, pcm, true, budget, count + f, 0, Initial)
  {
    var frame := FrameAt(pcm, idx);
    var next := Run(step, s, frame).next;
    var job := FrameJob(SeqNoOf(count), s, frame);
    var pass := Jobs(step, pcm, false, g, count + 1, idx + FrameSamples, next);
    var more := Jobs(step, pcm, true, budget, count + f, 0, Initial);
    JobsUnfoldAt(step, pcm, true, f + budget, g + budget, count, idx, s);
    var lhs := Jobs(step, pcm, true, f + budget, count, idx, s);
    assert lhs == [job] + (pass + Jobs(step, pcm, true, budget, count + 1 + g, 0, Initial));
    assert count + 1 + g == count + f;
    assert lhs == [job] + (pass + more);
    JobsUnfoldAt(step, pcm, false, f, g, count, idx, s);
    assert [job] + (pass + more) == ([job] + pass) + more;
  }

  /** `JobsUnfold` with the remaining budget named. */
  lemma JobsUnfoldAt(step: (EncoderState, int) --> Encoded, pcm: seq<int>, loopMode: bool, budget: nat, rest: nat, count: nat, idx: nat, s: EncoderState)
    requires Closed(step) && StateValid(s) && budget == rest + 1 && idx < |pcm|
    ensures var frame := FrameAt(pcm, idx);
      Jobs(step, pcm, loopMode, budget, count, idx, s)
        == [FrameJob(SeqNoOf(count), s, frame)] + Jobs(step, pcm, loopMode, rest, count + 1, idx + FrameSamples, Run(step, s, frame).next)
  {
    JobsUnfold(step, pcm, loopMode, budget, count, idx, s);
  }

  /** Packet `k` of a file sent without looping, for every frame the file
      reaches: sequence number `k` modulo 2^32, 487 bytes, and decodable on
      its own into the encoder's reconstruction of that frame, continuing
      from the state the encoder reached over all earlier samples. */
  lemma {:induction false} StreamPacket(pcm: seq<int>, budget: nat, k: nat)
    requires k < budget && FrameSamples * k < |pcm|
    ensures var ps := Stream(pcm, false, budget);
      var st := EncodeSeq(Initial, pcm[..FrameSamples * k]).next;
      var frame := FrameAt(pcm, FrameSamples * k);
      && k < |ps|
      && |ps[k]| == HeaderSize + FramePayloadBytes
      && ParseHeader(ps[k]) == Some(HeaderFields(k % U32, st.predictor, st.stepIndex))
      && DecodeSeq(st, Unpack(ps[k][HeaderSize..])) == DecodedRun(EncodedSamples(st, frame), EncodeSeq(st, frame).next)
  {
    var st := EncodeSeq(Initial, pcm[..FrameSamples * k]).next;
    var frame := FrameAt(pcm, FrameSamples * k);
    var seqNo := k % U32;
    StreamPacketIs(pcm, budget, k);
    SeqNoIsMod(k);
    assert Stream(pcm, false, budget)[k] == Packet(seqNo, st, frame);
    PacketLength(seqNo, st, frame);
    PacketDecodes(seqNo, st, frame);
  }

  /** Packet `k` is the datagram of frame `k`. */
  lemma StreamPacketIs(pcm: seq<int>, budget: nat, k: nat)
    requires k < budget && FrameSamples * k < |pcm|
    ensures var ps := Stream(pcm, false, budget);
      k < |ps| && ps[k] == Packet(SeqNoOf(k), EncodeSeq(Initial, pcm[..FrameSamples * k]).next, FrameAt(pcm, FrameSamples * k))
  {
    var js := FileJobs(pcm, false, budget, 0, 0, Initial);
    StreamJob(pcm, budget, k);
    PacketsAt(js, k);
  }

  /** Frame `k` goes out `k`-th, with the state the encoder reached over
      all samples before it. */
  lemma StreamJob(pcm: seq<int>, budget: nat, k: nat)
    requires k < budget && FrameSamples * k < |pcm|
    ensures SentAt(FileJobs(pcm, false, budget, 0, 0, Initial), k,
                   FrameJob(SeqNoOf(k), EncodeSeq(Initial, pcm[..FrameSamples * k]).next, FrameAt(pcm, FrameSamples * k)))
  {
    EncodeStepClosed();
    JobsAt(EncodeStep, pcm, false, budget, 0, 0, Initial, k, FrameSamples * k);
    assert pcm[0..FrameSamples * k] == pcm[..FrameSamples * k];
  }

  /** The sequence number of a frame with `count` frames sent before it:
      the count modulo 2^32, by repeated subtraction. */
  function SeqNoOf(count: nat): (r: nat)
    ensures r < U32
    decreases count
  {
    if count < U32 then count else SeqNoOf(count - U32)
  }

  lemma {:induction false} SeqNoIsMod(count: nat)
    ensures SeqNoOf(count) == count % U32
    decreases count
  {
    if count >= U32 {
      SeqNoIsMod(count - U32);
      assert (count - U32) % U32 == count % U32;
    }
  }

  /** The sender's `(seq + 1) & 0xFFFFFFFF` steps from one frame's
      sequence number to the next one's. */
  lemma SeqNoSucc(count: nat)
    ensures SeqNoOf(count + 1) == (SeqNoOf(count) + 1) % U32
  {
    SeqNoIsMod(count);
    SeqNoIsMod(count + 1);
    assert (count % U32 + 1) % U32 == (count + 1) % U32;
  }

  // ---------------------------------------------------------------------
  // The sending loop
  // ---------------------------------------------------------------------

  /** One pass of the file-mode loop's body: encode the frame at `idx`
      with the running encoder and build its datagram. */
  method SendFrame(encoder: Encoder, pcm: seq<int>, idx: nat, seqNo: nat) returns (pkt: seq<byte>)
    requires seqNo < U32 && StateValid(encoder.State())
    modifies encoder
    ensures pkt == Packet(seqNo, old(encoder.State()), FrameAt(pcm, idx))
    ensures encoder.State() == EncodeSeq(old(encoder.State()), FrameAt(pcm, idx)).next
  {
    var frame := FrameAt(pcm, idx);
    var before := encoder.State();
    var nibbles := encoder.EncodeSamples(frame);
    var payload := PackNibbles(nibbles);
    pkt := Header(seqNo, before) + payload;
  }

  /** The file-mode loop, with the datagrams handed to `sendto` collected
      in order and at most `budget` of them sent. */
  method StreamFile(raw: seq<byte>, loopMode: bool, budget: nat) returns (packets: seq<seq<byte>>)
    ensures packets == Stream(Samples(raw), loopMode, budget)
  {
    var pcm := ToSamples(raw);
    var seqNo: nat := 0;
    var idx: nat := 0;
    var encoder := new Encoder();
    ghost var total := StartSending(pcm, loopMode, budget);
    ghost var jobs: seq<ValidJob> := [];
    packets := [];
    while |packets| < budget
      invariant fresh(encoder)
      invariant Sending(pcm, loopMode, budget, total, jobs, packets, seqNo, idx, encoder.State())
      decreases budget - |packets|
    {
      if idx >= |pcm| && !loopMode {
        SendingDone(pcm, loopMode, budget, total, jobs, packets, seqNo, idx, encoder.State());
        break;
      }
      encoder, idx := Restart(encoder, pcm, loopMode, budget, idx, seqNo, total, jobs, packets);
      var pkt;
      seqNo, pkt, jobs := SendFrameAt(encoder, pcm, loopMode, budget, idx, seqNo, total, jobs, packets);
      idx := idx + FrameSamples;
      packets := packets + [pkt];
    }
    if |packets| >= budget {
      SendingDone(pcm, loopMode, budget, total, jobs, packets, seqNo, idx, encoder.State());
    }
  }

  /** The sending loop's account of the stream `total`: `packets` are the
      datagrams of the frames `jobs` sent so far, `seqNo` counts those
      frames modulo 2^32, and they followed by the rest of the stream from
      position `idx` and encoder state `s` make up the whole stream. */
  ghost predicate Sending(pcm: seq<int>, loopMode: bool, budget: nat, total: seq<ValidJob>,
                          jobs: seq<ValidJob>, packets: seq<seq<byte>>, seqNo: nat, idx: nat, s: EncoderState)
  {
    && StateValid(s)
    && |packets| == |jobs| <= budget
    && seqNo == SeqNoOf(|jobs|)
    && jobs + FileJobs(pcm, loopMode, budget - |jobs|, |jobs|, idx, s) == total
    && packets == Packets(jobs)
  }

  /** Before the loop nothing has been sent and the whole stream is ahead. */
  lemma StartSending(pcm: seq<int>, loopMode: bool, budget: nat) returns (total: seq<ValidJob>)
    ensures total == FileJobs(pcm, loopMode, budget, 0, 0, Initial)
    ensures Sending(pcm, loopMode, budget, total, [], [], 0, 0, Initial)
  {
    total := FileJobs(pcm, loopMode, budget, 0, 0, Initial);
    assert SeqNoOf(0) == 0;
    assert Packets([]) == [];
    assert [] + total == total;
  }

  /** The loop ends with the whole stream sent, when the budget is spent or,
      without looping, at the end of the samples. */
  lemma SendingDone(pcm: seq<int>, loopMode: bool, budget: nat, total: seq<ValidJob>,
                    jobs: seq<ValidJob>, packets: seq<seq<byte>>, seqNo: nat, idx: nat, s: EncoderState)
    requires Sending(pcm, loopMode, budget, total, jobs, packets, seqNo, idx, s)
    requires total == FileJobs(pcm, loopMode, budget, 0, 0, Initial)
    requires |packets| >= budget || (idx >= |pcm| && !loopMode)
    ensures packets == Stream(pcm, loopMode, budget)
  {
    EncodeStepClosed();
    assert jobs + [] == jobs;
  }

  /** At the end of the samples, go back to the first one with a fresh
      encoder; elsewhere keep the position and the encoder. */
  method Restart(encoder: Encoder, pcm: seq<int>, loopMode: bool, budget: nat, idx: nat, seqNo: nat,
                 ghost total: seq<ValidJob>, ghost jobs: seq<ValidJob>, ghost packets: seq<seq<byte>>)
    returns (encoder': Encoder, idx': nat)
    requires Sending(pcm, loopMode, budget, total, jobs, packets, seqNo, idx, encoder.State())
    requires idx < |pcm| || loopMode
    ensures idx < |pcm| ==> encoder' == encoder && idx' == idx
    ensures idx >= |pcm| ==> fresh(encoder') && idx' == 0 && encoder'.State() == Initial
    ensures encoder' == encoder || fresh(encoder')
    ensures idx' < |pcm| || (loopMode && idx' == 0 && encoder'.State() == Initial)
    ensures Sending(pcm, loopMode, budget, total, jobs, packets, seqNo, idx', encoder'.State())
  {
    encoder', idx' := encoder, idx;
    if idx >= |pcm| {
      Rewind(pcm, budget, total, jobs, packets, seqNo, idx, encoder.State());
      idx' := 0;
      encoder' := new Encoder();
    }
  }

  /** Send the frame at `idx`, once it lies in the samples or the encoder
      has just been reset at the first one, and count it. */
  method SendFrameAt(encoder: Encoder, pcm: seq<int>, loopMode: bool, budget: nat, idx: nat, seqNo: nat,
                     ghost total: seq<ValidJob>, ghost jobs: seq<ValidJob>, ghost packets: seq<seq<byte>>)
    returns (seqNo': nat, pkt: seq<byte>, ghost jobs': seq<ValidJob>)
    requires Sending(pcm, loopMode, budget, total, jobs, packets, seqNo, idx, encoder.State())
    requires |packets| < budget && (idx < |pcm| || (loopMode && idx == 0 && encoder.State() == Initial))
    modifies encoder
    ensures Sending(pcm, loopMode, budget, total, jobs', packets + [pkt], seqNo', idx + FrameSamples, encoder.State())
  {
    ghost var st := encoder.State();
    pkt := SendFrame(encoder, pcm, idx, seqNo);
    ghost var job: ValidJob := FrameJob(seqNo, st, FrameAt(pcm, idx));
    seqNo' := NextSeqNo(seqNo, |jobs|);
    jobs' := jobs + [job];
    SendNext(pcm, loopMode, budget, total, jobs, packets, seqNo, idx, st, job, pkt, seqNo', encoder.State());
  }

  /** `seq = (seq + 1) & 0xFFFFFFFF`: the successor of a sequence number
      that counts `count` frames modulo 2^32 counts one more. */
  method NextSeqNo(seqNo: nat, ghost count: nat) returns (next: nat)
    requires seqNo == SeqNoOf(count)
    ensures next == SeqNoOf(count + 1)
  {
    SeqNoSucc(count);
    next := (seqNo + 1) % U32;
  }

  /** In loop mode, at the end of the samples the account of the stream
      is the same as from the first sample with a fresh encoder. */
  lemma Rewind(pcm: seq<int>, budget: nat, total: seq<ValidJob>,
               jobs: seq<ValidJob>, packets: seq<seq<byte>>, seqNo: nat, from: nat, s: EncoderState)
    requires Sending(pcm, true, budget, total, jobs, packets, seqNo, from, s) && from >= |pcm|
    ensures Sending(pcm, true, budget, total, jobs, packets, seqNo, 0, Initial)
  {
    EncodeStepClosed();
    JobsRewind(EncodeStep, pcm, budget - |jobs|, |jobs|, from, s);
  }

  lemma JobsRewind(step: (EncoderState, int) --> Encoded, pcm: seq<int>, budget: nat, count: nat, from: nat, s: EncoderState)
    requires Closed(step) && StateValid(s) && from >= |pcm|
    ensures Jobs(step, pcm, true, budget, count, from, s) == Jobs(step, pcm, true, budget, count, 0, Initial)
  {
  }

  /** The sending loop's account of the stream, one frame on: with the
      frame at `idx` sent as `job` in the datagram `pkt`, the account still
      holds. */
  lemma SendNext(pcm: seq<int>, loopMode: bool, budget: nat, total: seq<ValidJob>,
                 jobs: seq<ValidJob>, packets: seq<seq<byte>>, seqNo: nat, idx: nat, s: EncoderState,
                 job: ValidJob, pkt: seq<byte>, seqNo': nat, s': EncoderState)
    requires Sending(pcm, loopMode, budget, total, jobs, packets, seqNo, idx, s) && |packets| < budget
    requires idx < |pcm| || (loopMode && idx == 0 && s == Initial)
    requires job == FrameJob(seqNo, s, FrameAt(pcm, idx)) && pkt == Packet(seqNo, s, FrameAt(pcm, idx))
    requires s' == EncodeSeq(s, FrameAt(pcm, idx)).next
    requires seqNo' == SeqNoOf(|jobs| + 1)
    ensures Sending(pcm, loopMode, budget, total, jobs + [job], packets + [pkt], seqNo', idx + FrameSamples, s')
  {
    var after := jobs + [job];
    assert |after| == |jobs| + 1;
    NextJob(jobs, job, packets, pkt);
    EncodeStepClosed();
    JobsNext(EncodeStep, pcm, loopMode, budget, jobs, idx, s, total, job, after, s');
    assert after + FileJobs(pcm, loopMode, budget - |after|, |after|, idx + FrameSamples, s') == total;
  }

  /** The same account over the frames alone, for any step function. */
  lemma JobsNext(step: (EncoderState, int) --> Encoded, pcm: seq<int>, loopMode: bool, budget: nat,
                 done: seq<ValidJob>, idx: nat, s: EncoderState, total: seq<ValidJob>,
                 job: ValidJob, after: seq<ValidJob>, s': EncoderState)
    requires Closed(step) && StateValid(s) && |done| < budget
    requires done + Jobs(step, pcm, loopMode, budget - |done|, |done|, idx, s) == total
    requires idx < |pcm| || (loopMode && idx == 0 && s == Initial)
    requires job == FrameJob(SeqNoOf(|done|), s, FrameAt(pcm, idx)) && s' == Run(step, s, FrameAt(pcm, idx)).next
    requires after == done + [job]
    ensures after + Jobs(step, pcm, loopMode, budget - |after|, |after|, idx + FrameSamples, s') == total
  {
    var rest := Jobs(step, pcm, loopMode, budget - |after|, |after|, idx + FrameSamples, s');
    assert Jobs(step, pcm, loopMode, budget - |done|, |done|, idx, s) == [job] + rest;
    assert after + rest == done + ([job] + rest);
  }

  lemma NextJob(jobs: seq<ValidJob>, j: ValidJob, packets: seq<seq<byte>>, pkt: seq<byte>)
    requires packets == Packets(jobs) && pkt == Packet(j.seqNo, j.state, j.frame)
    ensures packets + [pkt] == Packets(jobs + [j])
  {
    assert (jobs + [j])[..|jobs|] == jobs;
  }
}
