/** The IMA/DVI ADPCM encoder shared by both stream senders
    (scripts/stream_sender_sanity_check.py and
    scripts/deprecated/stream_sender.py, whose `encode_sample` bodies are
    identical), the packing of two 4-bit codes per byte, and the conversion
    of raw little-endian PCM bytes to samples. The algorithm is the one in
    the ADPCM section of the Interactive Multimedia Association's
    "Recommended Practices for Enhancing Digital Audio Compatibility in
    Multimedia Systems" (rev. 3.00, 1992). */
module Adpcm {
  import opened Bytes

  /** The 89 quantiser step sizes, `STEP_TABLE[i]`. */
  const StepTable: seq<nat> := [7, 8, 9, 10, 11, 12, 13, 14, 16, 17, 19, 21, 23, 25, 28, 31, 34, 37, 41, 45, 50, 55, 60, 66, 73, 80, 88, 97, 107, 118, 130, 143, 157, 173, 190, 209, 230, 253, 279, 307, 337, 371, 408, 449, 494, 544, 598, 658, 724, 796, 876, 963, 1060, 1166, 1282, 1411, 1552, 1707, 1878, 2066, 2272, 2499, 2749, 3024, 3327, 3660, 4026, 4428, 4871, 5358, 5894, 6484, 7132, 7845, 8630, 9493, 10442, 11487, 12635, 13899, 15289, 16818, 18500, 20350, 22385, 24623, 27086, 29794, 32767]

  function StepSize(i: nat): nat
    requires i <= MaxStepIndex
  {
    StepTable[i]
  }

  /** How each code moves the step index. */
  const IndexTable: seq<int> := [-1, -1, -1, -1, 2, 4, 6, 8, -1, -1, -1, -1, 2, 4, 6, 8]

  const MinPredictor: int := -32768
  const MaxPredictor: int := 32767
  const MaxStepIndex: nat := 88

  /** The encoder's two fields. */
  datatype EncoderState = EncoderState(predictor: int, stepIndex: int)

  /** A 4-bit ADPCM code. */
  type Nibble = n: nat | n < 16

  /** A 4-bit code and the state after it. */
  datatype Encoded = Encoded(nibble: Nibble, next: EncoderState)

  /** The clamps keep the predictor a signed 16-bit value and the index a
      valid position in the step table. */
  predicate StateValid(s: EncoderState) {
    MinPredictor <= s.predictor <= MaxPredictor && 0 <= s.stepIndex <= MaxStepIndex
  }

  /** `ADPCMEncoder()`. */
  const Initial: EncoderState := EncoderState(0, 0)

  function ClampPredictor(p: int): (r: int)
    ensures MinPredictor <= r <= MaxPredictor
    ensures MinPredictor <= p <= MaxPredictor ==> r == p
    ensures p > MaxPredictor ==> r == MaxPredictor
    ensures p < MinPredictor ==> r == MinPredictor
  {
    if p > MaxPredictor then MaxPredictor else if p < MinPredictor then MinPredictor else p
  }

  function ClampIndex(i: int): (r: int)
    ensures 0 <= r <= MaxStepIndex
    ensures 0 <= i <= MaxStepIndex ==> r == i
  {
    if i < 0 then 0 else if i > MaxStepIndex then MaxStepIndex else i
  }

  function Abs(x: int): nat {
    if x < 0 then -x else x
  }

  /** Bit `b` (1, 2, 4 or 8) of a code, `nibble & b`: shift right until `b`
      is the lowest bit, then read that bit. */
  predicate Bit(nibble: nat, b: nat)
    requires b > 0
    decreases b
  {
    if b == 1 then nibble % 2 == 1 else Bit(nibble / 2, b / 2)
  }

  lemma NibbleBits(b8: bool, b4: bool, b2: bool, b1: bool)
    ensures var n := Code(b8, b4, b2, b1);
      n < 16 && (Bit(n, 8) <==> b8) && (Bit(n, 4) <==> b4) && (Bit(n, 2) <==> b2) && (Bit(n, 1) <==> b1)
  {
  }

  /** The first half of `encode_sample`: bit 8 is the sign of the
      difference, and bits 4, 2 and 1 are the greedy comparisons of its
      magnitude with `step`, `step >> 1` and `step >> 2`. */
  function Quantize(diff: int, step: nat): Nibble {
    var d0 := Abs(diff);
    var b4 := d0 >= step;
    var d1 := if b4 then d0 - step else d0;
    var b2 := d1 >= step / 2;
    var d2 := if b2 then d1 - step / 2 else d1;
    Code(diff < 0, b4, b2, d2 >= step / 4)
  }

  /** The code with the given sign and magnitude bits. */
  function Code(b8: bool, b4: bool, b2: bool, b1: bool): nat {
    (if b8 then 8 else 0) + (if b4 then 4 else 0) + (if b2 then 2 else 0) + (if b1 then 1 else 0)
  }

  /** The quantiser's code read back bit by bit: bit 8 is the sign of the
      difference, and bits 4, 2 and 1 are the greedy comparisons of its
      magnitude with `step`, `step >> 1` and `step >> 2`. */
  lemma {:induction false} QuantizeMeaning(diff: int, step: nat)
    ensures GreedyBits(diff, step, Quantize(diff, step))
  {
    var d0 := Abs(diff);
    var d1 := if d0 >= step then d0 - step else d0;
    var d2 := if d1 >= step / 2 then d1 - step / 2 else d1;
    NibbleBits(diff < 0, d0 >= step, d1 >= step / 2, d2 >= step / 4);
  }

  /** The distance a code stands for: an eighth of the step, plus the step
      and its half and quarter for each magnitude bit set. */
  function Magnitude(step: nat, nibble: nat): nat {
    MagnitudeOf(step, Bit(nibble, 4), Bit(nibble, 2), Bit(nibble, 1))
  }

  function MagnitudeOf(step: nat, b4: bool, b2: bool, b1: bool): nat {
    step / 8 + (if b4 then step else 0) + (if b2 then step / 2 else 0) + (if b1 then step / 4 else 0)
  }

  /** The standard's decoder step: the state a receiver reaches from a code.
      It reads the code's bits only. */
  function DecodeStep(s: EncoderState, nibble: Nibble): (r: EncoderState)
    requires StateValid(s)
    ensures StateValid(r)
  {
    var delta := Magnitude(StepSize(s.stepIndex), nibble);
    var p := if Bit(nibble, 8) then s.predictor - delta else s.predictor + delta;
    EncoderState(ClampPredictor(p), ClampIndex(s.stepIndex + IndexTable[nibble]))
  }

  /** `encode_sample`: quantise the difference from the predictor, then
      update the state exactly as a decoder does from that code (the
      second half of `encode_sample` is the decoder's step). */
  function EncodeStep(s: EncoderState, sample: int): (r: Encoded)
    requires StateValid(s)
    ensures StateValid(r.next)
  {
    var n := Quantize(sample - s.predictor, StepSize(s.stepIndex));
    Encoded(n, DecodeStep(s, n))
  }

  /** Codes for a run of samples and the state after the last one. */
  datatype EncodedRun = EncodedRun(nibbles: seq<Nibble>, next: EncoderState)

  /** A step function of the encoder's shape: defined on every valid state,
      and leading to a valid state. */
  ghost predicate Closed(f: (EncoderState, int) --> Encoded) {
    forall s, x :: StateValid(s) ==> f.requires(s, x) && StateValid(f(s, x).next)
  }

  /** A step function applied to each sample in turn, threading the state:
      nothing for no samples, otherwise `RunFrom`. */
  function Run(f: (EncoderState, int) --> Encoded, s: EncoderState, xs: seq<int>): (r: EncodedRun)
    requires Closed(f) && StateValid(s)
    ensures |r.nibbles| == |xs| && StateValid(r.next)
    decreases |xs|, 1
  {
    if xs == [] then EncodedRun([], s) else RunFrom(f, s, xs)
  }

  /** A run over at least one sample: the first sample's code, then the
      run over the others from the state that code leads to. */
  function RunFrom(f: (EncoderState, int) --> Encoded, s: EncoderState, xs: seq<int>): (r: EncodedRun)
    requires Closed(f) && StateValid(s) && xs != []
    ensures |r.nibbles| == |xs| && StateValid(r.next)
    decreases |xs|, 0
  {
    var x: int := xs[0];
    var e := f(s, x);
    var rest := Run(f, e.next, xs[1..]);
    EncodedRun([e.nibble] + rest.nibbles, rest.next)
  }

  lemma EncodeStepClosed()
    ensures Closed(EncodeStep)
  {
  }

  /** The encoder over a run of samples: the code of each sample, in order,
      and the state after the last one. */
  function EncodeSeq(s: EncoderState, xs: seq<int>): (r: EncodedRun)
    requires StateValid(s)
    ensures |r.nibbles| == |xs| && StateValid(r.next)
  {
    EncodeStepClosed();
    Run(EncodeStep, s, xs)
  }

  /** The encoder over a non-empty run: the first sample's code, then the
      codes of the others from the state it leads to. */
  lemma EncodeSeqFirst(s: EncoderState, xs: seq<int>)
    requires StateValid(s) && xs != []
    ensures var e := EncodeStep(s, xs[0]);
      var rest := EncodeSeq(e.next, xs[1..]);
      EncodeSeq(s, xs) == EncodedRun([e.nibble] + rest.nibbles, rest.next)
  {
    EncodeStepClosed();
    assert Run(EncodeStep, s, xs) == RunFrom(EncodeStep, s, xs);
  }

  /** Running over `xs + ys` is running over `xs`, then over `ys` from the
      state `xs` ended in. */
  lemma {:induction false} RunAppend(f: (EncoderState, int) --> Encoded, s: EncoderState, xs: seq<int>, ys: seq<int>)
    requires Closed(f) && StateValid(s)
    ensures var a := Run(f, s, xs);
      var b := Run(f, a.next, ys);
      Run(f, s, xs + ys) == EncodedRun(a.nibbles + b.nibbles, b.next)
    decreases |xs|
  {
    if xs == [] {
      assert xs + ys == ys;
    } else {
      var x: int := xs[0];
      var e := f(s, x);
      assert (xs + ys)[1..] == xs[1..] + ys;
      RunAppend(f, e.next, xs[1..], ys);
    }
  }

  /** The decoder over a run of codes: the predictor after every code (the
      reconstructed samples) and the final state. */
  datatype DecodedRun = DecodedRun(samples: seq<int>, next: EncoderState)

  function DecodeSeq(s: EncoderState, ns: seq<Nibble>): (r: DecodedRun)
    requires StateValid(s)
    ensures |r.samples| == |ns| && StateValid(r.next)
    decreases |ns|
  {
    if ns == [] then DecodedRun([], s)
    else
      var t := DecodeStep(s, ns[0]);
      var rest := DecodeSeq(t, ns[1..]);
      DecodedRun([t.predictor] + rest.samples, rest.next)
  }

  function EncodedSamples(s: EncoderState, xs: seq<int>): (ps: seq<int>)
    requires StateValid(s)
    ensures |ps| == |xs|
    decreases |xs|
  {
    if xs == [] then []
    else
      var e := EncodeStep(s, xs[0]);
      [e.next.predictor] + EncodedSamples(e.next, xs[1..])
  }

  // ---------------------------------------------------------------------
  // Properties of one step
  // ---------------------------------------------------------------------

  /** The greedy quantiser leaves at most `step >> 2` plus one unexplained,
      unless the difference exceeds what three bits can express. */
  lemma GreedyRemainder(d: nat, step: nat)
    ensures var s1, s2 := step / 2, step / 4;
      var d1 := if d >= step then d - step else d;
      var d2 := if d1 >= s1 then d1 - s1 else d1;
      var d3 := if d2 >= s2 then d2 - s2 else d2;
      0 <= d3 && (d3 <= s2 + 1 || d3 == d - step - s1 - s2)
  {
  }

  /** The largest difference the three magnitude bits can follow to within
      `Tolerance`. */
  function Reach(step: nat): nat {
    step + step / 2 + step / 4 + step / 4
  }

  /** A quarter step, plus one for the rounding of the shifts. */
  function Tolerance(step: nat): nat {
    step / 4 + 1
  }

  /** The greedy choice of bits, as `QuantizeMeaning` states it. */
  predicate GreedyBits(diff: int, step: nat, n: nat) {
    (Bit(n, 8) <==> diff < 0) && Greedy(Abs(diff), step, Bit(n, 4), Bit(n, 2), Bit(n, 1))
  }

  /** Magnitude bits chosen by successive comparison of `d0` with `step`,
      `step >> 1` and `step >> 2`, subtracting on each success. */
  predicate Greedy(d0: nat, step: nat, b4: bool, b2: bool, b1: bool) {
    var d1 := d0 - (if b4 then step else 0);
    var d2 := d1 - (if b2 then step / 2 else 0);
    && (b4 <==> d0 >= step)
    && (b2 <==> d1 >= step / 2)
    && (b1 <==> d2 >= step / 4)
  }

  /** Within the quantiser's range, the distance greedy magnitude bits
      stand for is within `(step >> 2) + 1` of the distance they were
      chosen for. */
  lemma {:induction false} MagnitudeError(d0: nat, step: nat, b4: bool, b2: bool, b1: bool)
    requires Greedy(d0, step, b4, b2, b1) && d0 <= Reach(step)
    ensures Abs(d0 - MagnitudeOf(step, b4, b2, b1)) <= Tolerance(step)
  {
    GreedyRemainder(d0, step);
  }

  /** Moving the predictor by `delta` in the direction of the sample and
      clamping to the 16-bit range leaves the sample no further away than
      the gap between its distance and `delta`. */
  lemma {:induction false} ErrorBound(sample: int, predictor: int, delta: nat, negative: bool, next: int, bound: nat)
    requires MinPredictor <= sample <= MaxPredictor
    requires negative <==> sample - predictor < 0
    requires Abs(Abs(sample - predictor) - delta) <= bound
    requires next == ClampPredictor(if negative then predictor - delta else predictor + delta)
    ensures Abs(sample - next) <= bound
  {
  }

  /** For a 16-bit sample whose distance from the predictor is within the
      quantiser's range, the new predictor (the decoder's output) is within
      `(step >> 2) + 1` of the sample. */
  lemma {:induction false} ReconstructionError(s: EncoderState, sample: int)
    requires StateValid(s)
    requires MinPredictor <= sample <= MaxPredictor
    requires Abs(sample - s.predictor) <= Reach(StepSize(s.stepIndex))
    ensures Abs(sample - EncodeStep(s, sample).next.predictor) <= Tolerance(StepSize(s.stepIndex))
  {
    var n := Quantize(sample - s.predictor, StepSize(s.stepIndex));
    QuantizeMeaning(sample - s.predictor, StepSize(s.stepIndex));
    DecodeError(s, sample, n);
  }

  /** The same bound for the decoder's step from any greedily chosen code. */
  lemma {:induction false} DecodeError(s: EncoderState, sample: int, n: Nibble)
    requires StateValid(s)
    requires MinPredictor <= sample <= MaxPredictor
    requires Abs(sample - s.predictor) <= Reach(StepSize(s.stepIndex))
    requires GreedyBits(sample - s.predictor, StepSize(s.stepIndex), n)
    ensures Abs(sample - DecodeStep(s, n).predictor) <= Tolerance(StepSize(s.stepIndex))
  {
    CodeMagnitudeError(sample - s.predictor, StepSize(s.stepIndex), n);
    DecodeToward(s, sample, n);
  }

  /** A code whose sign bit points at the sample moves the predictor
      towards it: what remains is the gap between the distance and the
      code's magnitude. */
  lemma {:induction false} DecodeToward(s: EncoderState, sample: int, n: Nibble)
    requires StateValid(s)
    requires MinPredictor <= sample <= MaxPredictor
    requires Bit(n, 8) <==> sample - s.predictor < 0
    ensures Abs(sample - DecodeStep(s, n).predictor)
         <= Abs(Abs(sample - s.predictor) - Magnitude(StepSize(s.stepIndex), n))
  {
    var delta := Magnitude(StepSize(s.stepIndex), n);
    DecodePredictor(s, n);
    ErrorBound(sample, s.predictor, delta, Bit(n, 8), DecodeStep(s, n).predictor, Abs(Abs(sample - s.predictor) - delta));
  }

  /** `MagnitudeError` for the magnitude bits of a code. */
  lemma {:induction false} CodeMagnitudeError(diff: int, step: nat, n: Nibble)
    requires GreedyBits(diff, step, n) && Abs(diff) <= Reach(step)
    ensures Abs(Abs(diff) - Magnitude(step, n)) <= Tolerance(step)
  {
    MagnitudeError(Abs(diff), step, Bit(n, 4), Bit(n, 2), Bit(n, 1));
  }

  /** The decoder's new predictor, spelled out. */
  lemma {:induction false} DecodePredictor(s: EncoderState, n: Nibble)
    requires StateValid(s)
    ensures var delta := Magnitude(StepSize(s.stepIndex), n);
      DecodeStep(s, n).predictor == ClampPredictor(if Bit(n, 8) then s.predictor - delta else s.predictor + delta)
  {
  }

  // ---------------------------------------------------------------------
  // Properties of runs
  // ---------------------------------------------------------------------

  /** Decoding the codes of a run from the state the encoder started in
      reproduces the encoder's predictor after every sample and its final
      state. */
  lemma {:induction false} DecodeEncoded(s: EncoderState, xs: seq<int>)
    requires StateValid(s)
    ensures var e := EncodeSeq(s, xs);
      DecodeSeq(s, e.nibbles) == DecodedRun(EncodedSamples(s, xs), e.next)
    decreases |xs|
  {
    if xs != [] {
      var e := EncodeStep(s, xs[0]);
      EncodeSeqFirst(s, xs);
      DecodeEncoded(e.next, xs[1..]);
      assert ([e.nibble] + EncodeSeq(e.next, xs[1..]).nibbles)[1..] == EncodeSeq(e.next, xs[1..]).nibbles;
    }
  }

  /** The encoder carries its state across a split of the input: encoding
      `xs + ys` gives the codes of `xs` followed by those of `ys` encoded
      from the state `xs` left. */
  lemma {:induction false} EncodeSeqAppend(s: EncoderState, xs: seq<int>, ys: seq<int>)
    requires StateValid(s)
    ensures var a := EncodeSeq(s, xs);
      var b := EncodeSeq(a.next, ys);
      EncodeSeq(s, xs + ys) == EncodedRun(a.nibbles + b.nibbles, b.next)
  {
    EncodeStepClosed();
    RunAppend(EncodeStep, s, xs, ys);
  }

  // ---------------------------------------------------------------------
  // Packing two codes per byte
  // ---------------------------------------------------------------------

  /** `(hi << 4) | lo`. */
  function PairByte(hi: Nibble, lo: Nibble): byte {
    (hi as nat * 16 + lo as nat) as byte
  }

  /** The first code of each pair in the high half; an odd last code sits in
      the high half over a zero low half. */
  function Packed(ns: seq<Nibble>): (bs: seq<byte>)
    decreases |ns|
  {
    if |ns| == 0 then []
    else if |ns| == 1 then [PairByte(ns[0], 0)]
    else [PairByte(ns[0], ns[1])] + Packed(ns[2..])
  }

  /** One byte per pair of codes, rounded up. */
  lemma {:induction false} PackedLength(ns: seq<Nibble>)
    ensures |Packed(ns)| == (|ns| + 1) / 2
    decreases |ns|
  {
    if |ns| >= 2 {
      PackedLength(ns[2..]);
    }
  }

  /** A receiver's reading of the payload: high half, then low half. */
  function Unpack(bs: seq<byte>): (ns: seq<Nibble>)
  {
    if bs == [] then [] else [bs[0] as nat / 16, bs[0] as nat % 16] + Unpack(bs[1..])
  }

  lemma {:induction false} UnpackPacked(ns: seq<Nibble>)
    ensures Unpack(Packed(ns)) == ns + Padding(ns)
    decreases |ns|
  {
    if |ns| == 1 {
      ByteHalves(ns[0], 0);
      assert ns + [0] == [ns[0], 0];
    } else if |ns| >= 2 {
      UnpackPacked(ns[2..]);
      UnpackPackedStep(ns);
    }
  }

  /** The zero code a receiver finds after an odd number of codes. */
  function Padding(ns: seq<Nibble>): seq<Nibble> {
    if |ns| % 2 == 1 then [0] else []
  }

  lemma {:induction false} UnpackPackedStep(ns: seq<Nibble>)
    requires |ns| >= 2
    requires Unpack(Packed(ns[2..])) == ns[2..] + Padding(ns[2..])
    ensures Unpack(Packed(ns)) == ns + Padding(ns)
  {
    var rest := ns[2..];
    PackedFrom(ns, 0);
    assert ns[0..] == ns;
    var b := PairByte(ns[0], ns[1]);
    UnpackCons(b, Packed(rest));
    ByteHalves(ns[0], ns[1]);
    var pad := Padding(ns);
    assert (|rest| + 2) % 2 == |rest| % 2;
    assert Padding(rest) == pad;
    assert ns == [ns[0], ns[1]] + rest;
    AppendAssocNat([ns[0], ns[1]], rest, pad);
  }

  lemma {:induction false} UnpackCons(b: byte, bs: seq<byte>)
    ensures Unpack([b] + bs) == [(b as nat / 16) as Nibble, (b as nat % 16) as Nibble] + Unpack(bs)
  {
    assert ([b] + bs)[1..] == bs;
  }

  lemma {:induction false} AppendAssocNat(a: seq<Nibble>, b: seq<Nibble>, c: seq<Nibble>)
    ensures a + (b + c) == (a + b) + c
  {
  }

  /** A byte built from two codes splits back into them. */
  lemma ByteHalves(hi: Nibble, lo: Nibble)
    ensures PairByte(hi, lo) as nat / 16 == hi && PairByte(hi, lo) as nat % 16 == lo
  {
  }

  lemma {:induction false} PackedFrom(ns: seq<Nibble>, j: nat)
    requires j + 1 < |ns|
    ensures Packed(ns[j..]) == [PairByte(ns[j], ns[j + 1])] + Packed(ns[j + 2..])
  {
    assert ns[j..][2..] == ns[j + 2..];
  }

  lemma {:induction false} AppendAssoc(a: seq<byte>, b: seq<byte>, c: seq<byte>)
    ensures a + (b + c) == (a + b) + c
  {
  }

  lemma {:induction false} PackedTail(ns: seq<Nibble>, j: nat, pairs: nat)
    requires j == 2 * pairs && |ns| - 1 <= j <= |ns|
    ensures |ns| % 2 == 1 ==> j == |ns| - 1 && Packed(ns[j..]) == [PairByte(ns[j], 0)]
    ensures |ns| % 2 == 0 ==> Packed(ns[j..]) == []
  {
  }

  /** The packing loop: pairs while two codes remain, then an odd tail
      in the high half of one more byte. */
  method PackNibbles(ns: seq<Nibble>) returns (payload: seq<byte>)
    ensures payload == Packed(ns)
  {
    var j;
    ghost var pairs;
    payload, j, pairs := PackPairs(ns);
    PackedTail(ns, j, pairs);
    if |ns| % 2 == 1 {
      payload := payload + [PairByte(ns[|ns| - 1], 0)];
    } else {
      assert payload + [] == payload;
    }
  }

  /** The pairs of the packing loop, and where it stopped. */
  method PackPairs(ns: seq<Nibble>) returns (payload: seq<byte>, j: nat, ghost pairs: nat)
    ensures |ns| - 1 <= j <= |ns| && j == 2 * pairs
    ensures payload + Packed(ns[j..]) == Packed(ns)
  {
    payload := [];
    j := 0;
    pairs := 0;
    while j < |ns| - 1
      invariant 0 <= j <= |ns| && j == 2 * pairs
      invariant payload + Packed(ns[j..]) == Packed(ns)
      decreases |ns| - j
    {
      var b := PairByte(ns[j], ns[j + 1]);
      PackedFrom(ns, j);
      AppendAssoc(payload, [b], Packed(ns[j + 2..]));
      payload := payload + [b];
      j := j + 2;
      pairs := pairs + 1;
    }
  }

  // ---------------------------------------------------------------------
  // PCM input
  // ---------------------------------------------------------------------

  function Signed16(u: nat): int
    requires u < 65536
  {
    if u >= 32768 then u - 65536 else u
  }

  function Signed8(u: nat): int
    requires u < 256
  {
    if u >= 128 then u - 256 else u
  }

  /** `int.from_bytes(raw[i:i+2], 'little', signed=True)`; a lone final
      byte is read as a signed 8-bit value. */
  function SampleAt(raw: seq<byte>, i: nat): int
    requires i < |raw|
  {
    if i + 1 < |raw| then Signed16(raw[i] as nat + 256 * raw[i + 1] as nat) else Signed8(raw[i] as nat)
  }

  function Samples(raw: seq<byte>): (xs: seq<int>)
  {
    seq((|raw| + 1) / 2, k requires 0 <= k < (|raw| + 1) / 2 => SampleAt(raw, 2 * k))
  }

  /** The conversion loop of both senders' file mode. */
  method ToSamples(raw: seq<byte>) returns (pcm: seq<int>)
    ensures pcm == Samples(raw)
  {
    pcm := [];
    var i := 0;
    while i < |raw|
      invariant 0 <= i <= |raw| + 1 && i % 2 == 0
      invariant |pcm| == i / 2
      invariant forall k :: 0 <= k < |pcm| ==> pcm[k] == SampleAt(raw, 2 * k)
      decreases |raw| - i
    {
      pcm := pcm + [SampleAt(raw, i)];
      i := i + 2;
    }
  }

  /** A 16-bit sample as two little-endian bytes. */
  function LeBytes(x: int): (bs: seq<byte>)
    requires MinPredictor <= x <= MaxPredictor
    ensures |bs| == 2
  {
    var u := if x < 0 then x + 65536 else x;
    [(u % 256) as byte, (u / 256) as byte]
  }

  function PcmBytes(xs: seq<int>): (raw: seq<byte>)
    requires forall i :: 0 <= i < |xs| ==> MinPredictor <= xs[i] <= MaxPredictor
    ensures |raw| == 2 * |xs|
  {
    if xs == [] then [] else LeBytes(xs[0]) + PcmBytes(xs[1..])
  }

  lemma LeBytesValue(x: int)
    requires MinPredictor <= x <= MaxPredictor
    ensures var b := LeBytes(x); Signed16(b[0] as nat + 256 * b[1] as nat) == x
  {
    var u := if x < 0 then x + 65536 else x;
    assert u == u % 256 + 256 * (u / 256);
  }

  lemma {:induction false} PcmBytesAt(xs: seq<int>, k: nat)
    requires forall i :: 0 <= i < |xs| ==> MinPredictor <= xs[i] <= MaxPredictor
    requires k < |xs|
    ensures PcmBytes(xs)[2 * k] == LeBytes(xs[k])[0] && PcmBytes(xs)[2 * k + 1] == LeBytes(xs[k])[1]
  {
    if k > 0 {
      PcmBytesAt(xs[1..], k - 1);
    }
  }

  /** Reading 16-bit little-endian PCM recovers the samples it was written
      from. */
  lemma {:induction false} SamplesOfPcm(xs: seq<int>)
    requires forall i :: 0 <= i < |xs| ==> MinPredictor <= xs[i] <= MaxPredictor
    ensures Samples(PcmBytes(xs)) == xs
  {
    var raw := PcmBytes(xs);
    assert (|raw| + 1) / 2 == |xs|;
    var ys := Samples(raw);
    forall k | 0 <= k < |xs| ensures ys[k] == xs[k] {
      SampleOfPcm(xs, k);
    }
  }

  lemma {:induction false} SampleOfPcm(xs: seq<int>, k: nat)
    requires forall i :: 0 <= i < |xs| ==> MinPredictor <= xs[i] <= MaxPredictor
    requires k < |xs|
    ensures 2 * k + 1 < |PcmBytes(xs)| && SampleAt(PcmBytes(xs), 2 * k) == xs[k]
  {
    var raw := PcmBytes(xs);
    var i := 2 * k;
    assert i + 1 < |raw|;
    PcmBytesAt(xs, k);
    LeBytesValue(xs[k]);
    SampleAtPair(raw, i, LeBytes(xs[k]));
  }

  lemma {:induction false} SampleAtPair(raw: seq<byte>, i: nat, b: seq<byte>)
    requires i + 1 < |raw| && |b| == 2 && raw[i] == b[0] && raw[i + 1] == b[1]
    ensures SampleAt(raw, i) == Signed16(b[0] as nat + 256 * b[1] as nat)
  {
  }

  // ---------------------------------------------------------------------
  // The encoder object
  // ---------------------------------------------------------------------

  class Encoder {
    var predictor: int
    var stepIndex: int

    function State(): EncoderState
      reads this
    {
      EncoderState(predictor, stepIndex)
    }

    constructor()
      ensures State() == Initial
    {
      predictor, stepIndex := 0, 0;
    }

    method EncodeSample(sample: int) returns (nibble: Nibble)
      requires StateValid(State())
      modifies this
      ensures Encoded(nibble, State()) == EncodeStep(old(State()), sample)
    {
      var step := StepSize(stepIndex);
      nibble := QuantizeBits(sample - predictor, step);
      predictor, stepIndex := Reconstruct(predictor, stepIndex, nibble);
    }

    /** The second half of `encode_sample`: the predictor moves by the
        magnitude the code's bits stand for, in the direction of its sign
        bit, and both fields are clamped. */
    static method Reconstruct(predictor: int, stepIndex: int, nibble: Nibble) returns (p: int, i: int)
      requires StateValid(EncoderState(predictor, stepIndex))
      ensures EncoderState(p, i) == DecodeStep(EncoderState(predictor, stepIndex), nibble)
    {
      var step := StepSize(stepIndex);
      var delta := step / 8;
      if Bit(nibble, 4) {
        delta := delta + step;
      }
      if Bit(nibble, 2) {
        delta := delta + step / 2;
      }
      if Bit(nibble, 1) {
        delta := delta + step / 4;
      }
      assert delta == Magnitude(step, nibble);
      if Bit(nibble, 8) {
        p := predictor - delta;
      } else {
        p := predictor + delta;
      }
      p := ClampPredictor(p);
      i := ClampIndex(stepIndex + IndexTable[nibble]);
    }

    /** The first half of `encode_sample`: building the code bit by bit. */
    static method QuantizeBits(difference: int, step: nat) returns (nibble: Nibble)
      ensures nibble == Quantize(difference, step)
    {
      var diff := difference;
      var code: nat := 0;
      if diff < 0 {
        code := 8;
        diff := -diff;
      }
      var tempStep := step;
      if diff >= tempStep {
        code := code + 4;
        diff := diff - tempStep;
      }
      tempStep := tempStep / 2;
      if diff >= tempStep {
        code := code + 2;
        diff := diff - tempStep;
      }
      tempStep := tempStep / 2;
      if diff >= tempStep {
        code := code + 1;
        diff := diff - tempStep;
      }
      nibble := code;
    }

    /** The per-frame loop: one code per sample, in order. */
    method EncodeSamples(xs: seq<int>) returns (nibbles: seq<Nibble>)
      requires StateValid(State())
      modifies this
      ensures EncodedRun(nibbles, State()) == EncodeSeq(old(State()), xs)
    {
      nibbles := [];
      var i := 0;
      while i < |xs|
        invariant 0 <= i <= |xs| && StateValid(State())
        invariant var rest := EncodeSeq(State(), xs[i..]);
          EncodedRun(nibbles + rest.nibbles, rest.next) == EncodeSeq(old(State()), xs)
      {
        ghost var before := State();
        assert xs[i..][1..] == xs[i + 1..];
        EncodeSeqFirst(before, xs[i..]);
        var n := EncodeSample(xs[i]);
        assert nibbles + ([n] + EncodeSeq(State(), xs[i + 1..]).nibbles)
            == (nibbles + [n]) + EncodeSeq(State(), xs[i + 1..]).nibbles;
        nibbles := nibbles + [n];
        i := i + 1;
      }
    }
  }
}
