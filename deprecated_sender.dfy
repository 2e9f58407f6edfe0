/** The older UDP sender (scripts/deprecated/stream_sender.py) in file
    mode.  Samples are taken 1024 at a time; each group is encoded with the
    running ADPCM encoder, its codes are packed two per byte and appended
    to a byte buffer.  Every full 512-byte prefix of the buffer is then
    sent as a datagram.  The buffer outlives a pass over the file and the
    encoder does not: in loop mode a fresh encoder starts each pass.

    The datagrams handed to `sendto` are collected in order.  The number
    of passes a looping run makes before it is interrupted is a
    parameter. */
module DeprecatedSender {
  import opened Bytes
  import opened Adpcm

  /** `CHUNK_SIZE`: samples encoded per group. */
  const ChunkSize: nat := 1024
  /** `UDP_CHUNK_SIZE`: bytes per datagram. */
  const UdpChunkSize: nat := 512

  // ---------------------------------------------------------------------
  // Datagram splitting
  // ---------------------------------------------------------------------

  function Flatten(ds: seq<seq<byte>>): seq<byte> {
    if ds == [] then [] else ds[0] + Flatten(ds[1..])
  }

  predicate AllFull(ds: seq<seq<byte>>) {
    forall i :: 0 <= i < |ds| ==> |ds[i]| == UdpChunkSize
  }

  /** The datagrams the splitting loop cuts from a buffer. */
  function Blocks(buffer: seq<byte>): (ds: seq<seq<byte>>)
    ensures AllFull(ds)
    decreases |buffer|
  {
    if |buffer| < UdpChunkSize then []
    else [buffer[..UdpChunkSize]] + Blocks(buffer[UdpChunkSize..])
  }

  /** What the splitting loop leaves in the buffer. */
  function Leftover(buffer: seq<byte>): (rest: seq<byte>)
    ensures |rest| < UdpChunkSize
    decreases |buffer|
  {
    if |buffer| < UdpChunkSize then buffer else Leftover(buffer[UdpChunkSize..])
  }

  /** Splitting loses, adds and reorders nothing: the datagrams followed by
      the leftover are the buffer, and there is one datagram per full 512
      bytes. */
  lemma {:induction false} BlocksSplit(buffer: seq<byte>)
    ensures Flatten(Blocks(buffer)) + Leftover(buffer) == buffer
    ensures |Blocks(buffer)| == |buffer| / UdpChunkSize
    decreases |buffer|
  {
    if |buffer| >= UdpChunkSize {
      var head, tail := buffer[..UdpChunkSize], buffer[UdpChunkSize..];
      BlocksSplit(tail);
      var ds := Blocks(buffer);
      assert ds == [head] + Blocks(tail);
      assert ds[0] == head && ds[1..] == Blocks(tail);
      assert Flatten(ds) == head + Flatten(Blocks(tail));
      assert Leftover(buffer) == Leftover(tail);
      calc {
        Flatten(ds) + Leftover(buffer);
        head + (Flatten(Blocks(tail)) + Leftover(tail));
        head + tail;
        buffer;
      }
    }
  }

  /** The split is the only one into full datagrams and a short rest. */
  lemma {:induction false} BlocksUnique(buffer: seq<byte>, ds: seq<seq<byte>>, rest: seq<byte>)
    requires AllFull(ds) && |rest| < UdpChunkSize
    requires Flatten(ds) + rest == buffer
    ensures ds == Blocks(buffer) && rest == Leftover(buffer)
    decreases |ds|
  {
    if ds == [] {
      assert buffer == rest;
    } else {
      var tail := Flatten(ds[1..]) + rest;
      assert buffer == ds[0] + tail;
      assert buffer[..UdpChunkSize] == ds[0];
      assert buffer[UdpChunkSize..] == tail;
      assert AllFull(ds[1..]) by {
        forall i | 0 <= i < |ds| - 1 ensures |ds[1..][i]| == UdpChunkSize {
          assert ds[1..][i] == ds[i + 1];
        }
      }
      BlocksUnique(tail, ds[1..], rest);
      assert ds == [ds[0]] + ds[1..];
    }
  }

  lemma {:induction false} FlattenAppend(a: seq<seq<byte>>, b: seq<seq<byte>>)
    ensures Flatten(a + b) == Flatten(a) + Flatten(b)
    decreases |a|
  {
    if a == [] {
      assert a + b == b;
    } else {
      assert (a + b)[1..] == a[1..] + b;
      FlattenAppend(a[1..], b);
    }
  }

  /** The `while len(buffer) >= UDP_CHUNK_SIZE` loop. */
  method SplitDatagrams(buffer: seq<byte>) returns (datagrams: seq<seq<byte>>, rest: seq<byte>)
    ensures datagrams == Blocks(buffer) && rest == Leftover(buffer)
  {
    datagrams := [];
    rest := buffer;
    while |rest| >= UdpChunkSize
      invariant datagrams + Blocks(rest) == Blocks(buffer)
      invariant Leftover(rest) == Leftover(buffer)
      decreases |rest|
    {
      var chunk := rest[..UdpChunkSize];
      assert Blocks(rest) == [chunk] + Blocks(rest[UdpChunkSize..]);
      datagrams := datagrams + [chunk];
      rest := rest[UdpChunkSize..];
    }
  }

  // ---------------------------------------------------------------------
  // One pass over the file
  // ---------------------------------------------------------------------

  /** Groups of an even number of codes pack independently, so packing
      group by group is packing the whole. */
  lemma {:induction false} PackedAppend(a: seq<Nibble>, b: seq<Nibble>)
    requires |a| % 2 == 0
    ensures Packed(a + b) == Packed(a) + Packed(b)
    decreases |a|
  {
    if a == [] {
      assert a + b == b;
    } else {
      assert (a + b)[2..] == a[2..] + b;
      PackedAppend(a[2..], b);
    }
  }

  /** The bytes of one pass: the codes of every sample, from the state the
      pass starts in, packed two per byte. */
  function PassBytes(s: EncoderState, pcm: seq<int>): seq<byte>
    requires StateValid(s)
  {
    Packed(EncodeSeq(s, pcm).nibbles)
  }

  /** A pass contributes one byte per two samples, rounded up. */
  lemma PassLength(s: EncoderState, pcm: seq<int>)
    requires StateValid(s)
    ensures |PassBytes(s, pcm)| == (|pcm| + 1) / 2
  {
    PackedLength(EncodeSeq(s, pcm).nibbles);
  }

  /** `pcm_samples[i:i+CHUNK_SIZE]`'s end, clipped as Python does. */
  function GroupEnd(i: nat, n: nat): nat {
    Min(i + ChunkSize, n)
  }

  /** Encoding the samples up to `j` is encoding those up to an even `i`,
      then those between; and the packing splits the same way. */
  lemma PassSplit(s: EncoderState, pcm: seq<int>, i: nat, j: nat)
    requires StateValid(s) && i % 2 == 0 && i <= j <= |pcm|
    ensures var a := EncodeSeq(s, pcm[..i]);
      var b := EncodeSeq(a.next, pcm[i..j]);
      && EncodeSeq(s, pcm[..j]).next == b.next
      && PassBytes(s, pcm[..j]) == PassBytes(s, pcm[..i]) + Packed(b.nibbles)
  {
    var a := EncodeSeq(s, pcm[..i]);
    assert pcm[..j] == pcm[..i] + pcm[i..j];
    EncodeSeqAppend(s, pcm[..i], pcm[i..j]);
    PackedAppend(a.nibbles, EncodeSeq(a.next, pcm[i..j]).nibbles);
  }

  /** The bookkeeping of one group: what was sent and kept before, plus the
      datagrams and rest cut from the kept bytes and the new group. */
  lemma Accumulate(sent: seq<seq<byte>>, kept: seq<byte>, packed: seq<byte>, start: seq<byte>, before: seq<byte>)
    requires Flatten(sent) + kept == start + before
    ensures Flatten(sent + Blocks(kept + packed)) + Leftover(kept + packed) == start + (before + packed)
  {
    var ds := Blocks(kept + packed);
    BlocksSplit(kept + packed);
    FlattenAppend(sent, ds);
    calc {
      Flatten(sent + ds) + Leftover(kept + packed);
      Flatten(sent) + (Flatten(ds) + Leftover(kept + packed));
      Flatten(sent) + (kept + packed);
      (Flatten(sent) + kept) + packed;
      start + (before + packed);
    }
  }

  /** One group of the loop: the encoder moves on over the group, and the
      datagrams and rest after it account for every byte so far. */
  lemma GroupStep(s0: EncoderState, pcm: seq<int>, i: nat, end: nat, st: EncoderState,
                  nibbles: seq<Nibble>, next: EncoderState,
                  sent: seq<seq<byte>>, kept: seq<byte>, buffer: seq<byte>)
    requires StateValid(s0) && i % 2 == 0 && i < |pcm| && end == GroupEnd(i, |pcm|)
    requires st == EncodeSeq(s0, pcm[..i]).next
    requires EncodedRun(nibbles, next) == EncodeSeq(st, pcm[i..end])
    requires Flatten(sent) + kept == buffer + PassBytes(s0, pcm[..i]) && AllFull(sent)
    ensures next == EncodeSeq(s0, pcm[..end]).next
    ensures Flatten(sent + Blocks(kept + Packed(nibbles))) + Leftover(kept + Packed(nibbles))
         == buffer + PassBytes(s0, pcm[..end])
    ensures AllFull(sent + Blocks(kept + Packed(nibbles)))
  {
    PassSplit(s0, pcm, i, end);
    Accumulate(sent, kept, Packed(nibbles), buffer, PassBytes(s0, pcm[..i]));
  }

  /** Groups start at even positions. */
  lemma GroupStartEven(groups: nat)
    ensures (ChunkSize * groups) % 2 == 0
  {
  }

  /** One group of the loop's body: encode the samples from `i` to the end
      of the group, pack them, append them to the buffer and send every
      full datagram from it. */
  method SendGroup(encoder: Encoder, pcm: seq<int>, i: nat, sent: seq<seq<byte>>, kept: seq<byte>,
                   ghost s0: EncoderState, ghost buffer: seq<byte>, ghost groups: nat)
    returns (sent': seq<seq<byte>>, kept': seq<byte>)
    requires StateValid(s0) && i == ChunkSize * groups && i < |pcm|
    requires StateValid(encoder.State()) && encoder.State() == EncodeSeq(s0, pcm[..i]).next
    requires Flatten(sent) + kept == buffer + PassBytes(s0, pcm[..i]) && AllFull(sent)
    modifies encoder
    ensures encoder.State() == EncodeSeq(s0, pcm[..GroupEnd(i, |pcm|)]).next
    ensures Flatten(sent') + kept' == buffer + PassBytes(s0, pcm[..GroupEnd(i, |pcm|)])
    ensures AllFull(sent') && |kept'| < UdpChunkSize
  {
    var end := GroupEnd(i, |pcm|);
    GroupStartEven(groups);
    var chunk := pcm[i..end];
    ghost var st := encoder.State();
    var nibbles := encoder.EncodeSamples(chunk);
    var packed := PackNibbles(nibbles);
    GroupStep(s0, pcm, i, end, st, nibbles, encoder.State(), sent, kept, buffer);
    var ds;
    ds, kept' := SplitDatagrams(kept + packed);
    sent' := sent + ds;
  }

  /** The `for i in range(0, len(pcm_samples), CHUNK_SIZE)` loop: returns
      the datagrams sent and the buffer it leaves. */
  method SendPass(encoder: Encoder, pcm: seq<int>, buffer: seq<byte>) returns (datagrams: seq<seq<byte>>, rest: seq<byte>)
    requires StateValid(encoder.State())
    modifies encoder
    ensures encoder.State() == EncodeSeq(old(encoder.State()), pcm).next
    ensures Flatten(datagrams) + rest == buffer + PassBytes(old(encoder.State()), pcm)
    ensures AllFull(datagrams)
    ensures |buffer| < UdpChunkSize || |pcm| > 0 ==> |rest| < UdpChunkSize
  {
    ghost var s0 := encoder.State();
    datagrams := [];
    rest := buffer;
    var i: nat := 0;
    ghost var groups: nat := 0;
    assert pcm[..0] == [];
    while i < |pcm|
      invariant i == ChunkSize * groups
      invariant StateValid(encoder.State())
      invariant encoder.State() == EncodeSeq(s0, pcm[..Min(i, |pcm|)]).next
      invariant Flatten(datagrams) + rest == buffer + PassBytes(s0, pcm[..Min(i, |pcm|)])
      invariant AllFull(datagrams)
      invariant |buffer| < UdpChunkSize || i > 0 ==> |rest| < UdpChunkSize
      decreases |pcm| - i
    {
      assert Min(i, |pcm|) == i;
      datagrams, rest := SendGroup(encoder, pcm, i, datagrams, rest, s0, buffer, groups);
      i, groups := i + ChunkSize, groups + 1;
    }
    assert pcm[..Min(i, |pcm|)] == pcm;
  }

  // ---------------------------------------------------------------------
  // File mode
  // ---------------------------------------------------------------------

  function Repeat(bs: seq<byte>, n: nat): (r: seq<byte>)
    ensures |r| == n * |bs|
  {
    if n == 0 then [] else Repeat(bs, n - 1) + bs
  }

  /** Passes made: one without `--loop`; with it, the passes before the
      interruption, at least the first. */
  function PassCount(loopMode: bool, passes: nat): (n: nat)
    ensures n >= 1
    ensures !loopMode ==> n == 1
  {
    if loopMode && passes > 1 then passes else 1
  }

  /** Every pass of a looping run starts from the initial encoder, so pass
      `k` puts the same bytes as the first into the stream, at offset `k`
      times their length. */
  lemma {:induction false} RepeatAt(bs: seq<byte>, n: nat, k: nat)
    requires k < n
    ensures Repeat(bs, n)[k * |bs|..(k + 1) * |bs|] == bs
  {
    var r := Repeat(bs, n - 1);
    if k < n - 1 {
      RepeatAt(bs, n - 1, k);
      assert (k + 1) * |bs| <= |r| by {
        assert k + 1 <= n - 1;
      }
      assert Repeat(bs, n)[k * |bs|..(k + 1) * |bs|] == r[k * |bs|..(k + 1) * |bs|];
    } else {
      assert k * |bs| == |r|;
      assert Repeat(bs, n)[|r|..] == bs;
    }
  }

  /** The stream after one more pass. */
  lemma PassAppended(sent: seq<seq<byte>>, kept: seq<byte>, ds: seq<seq<byte>>, rest: seq<byte>, bytes: seq<byte>, n: nat)
    requires Flatten(sent) + kept == Repeat(bytes, n)
    requires Flatten(ds) + rest == kept + bytes
    requires AllFull(sent) && AllFull(ds)
    ensures Flatten(sent + ds) + rest == Repeat(bytes, n + 1)
    ensures AllFull(sent + ds)
  {
    FlattenAppend(sent, ds);
    calc {
      Flatten(sent + ds) + rest;
      Flatten(sent) + (Flatten(ds) + rest);
      Flatten(sent) + (kept + bytes);
      (Flatten(sent) + kept) + bytes;
    }
  }

  /** File mode: the datagrams sent are exactly the 512-byte blocks of the
      packed codes of all passes, each pass encoded from the initial state,
      and what stays unsent is the short rest. */
  method StreamFile(raw: seq<byte>, loopMode: bool, passes: nat) returns (datagrams: seq<seq<byte>>, leftover: seq<byte>)
    ensures var stream := Repeat(PassBytes(Initial, Samples(raw)), PassCount(loopMode, passes));
      datagrams == Blocks(stream) && leftover == Leftover(stream)
  {
    var pcm := ToSamples(raw);
    var encoder := new Encoder();
    var bytes := PassBytes(Initial, pcm);
    var count := PassCount(loopMode, passes);
    leftover := [];
    datagrams := [];
    var n: nat := 0;
    while true
      invariant fresh(encoder) && encoder.State() == Initial
      invariant Flatten(datagrams) + leftover == Repeat(bytes, n)
      invariant AllFull(datagrams) && |leftover| < UdpChunkSize
      invariant n < count
      decreases count - n
    {
      var ds, kept;
      ds, kept := SendPass(encoder, pcm, leftover);
      PassAppended(datagrams, leftover, ds, kept, bytes, n);
      datagrams, leftover := datagrams + ds, kept;
      n := n + 1;
      if !loopMode || n >= passes {
        break;
      }
      encoder := new Encoder();
    }
    assert n == count;
    BlocksUnique(Repeat(bytes, n), datagrams, leftover);
  }
}
