/**
  Clients that drain the parser after every chunk: they never overrun its
  buffer, they have at every moment everything the bytes so far contain, and
  what was encoded on the other side is what they receive.
*/
module FrameSessions {
  import opened Bytes
  import opened Framing

  // ---------------------------------------------------------------------------
  // Capacity
  // ---------------------------------------------------------------------------

  predicate IsCapacity(c: nat) {
    c == 0 || exists k :: 0 <= k <= 13 && c == FIRST_CAPACITY * Pow2(k)
  }

  lemma {:induction false} GrowLands(k: nat, need: nat)
    requires k <= 13 && need <= BUFFER_LIMIT
    ensures exists j :: k <= j <= 13 && Grow(FIRST_CAPACITY * Pow2(k), need) == FIRST_CAPACITY * Pow2(j)
    decreases 13 - k
  {
    if k == 13 {
      assert Pow2(13) == 2 * Pow2(12) == 4 * Pow2(11) == 8 * Pow2(10) == 16 * Pow2(9) == 32 * Pow2(8);
      assert Pow2(8) == 2 * Pow2(7) == 4 * Pow2(6) == 8 * Pow2(5) == 16 * Pow2(4) == 32 * Pow2(3);
      assert Pow2(3) == 8;
    } else if FIRST_CAPACITY * Pow2(k) < need {
      assert 2 * (FIRST_CAPACITY * Pow2(k)) == FIRST_CAPACITY * Pow2(k + 1);
      GrowLands(k + 1, need);
    }
  }

  lemma FeedCapacity(st: State, data: seq<Byte>)
    requires IsCapacity(st.cap)
    ensures IsCapacity(Feed(st, data).0.cap) && Feed(st, data).0.cap >= st.cap
  {
    var st' := Feed(st, data).0;
    if st'.cap != st.cap {
      var need := |st'.pending|;
      assert Pow2(0) == 1;
      var k :| 0 <= k <= 13 && (if st.cap == 0 then FIRST_CAPACITY else st.cap) == FIRST_CAPACITY * Pow2(k);
      GrowLands(k, need);
    }
  }

  lemma {:induction false} PopKeepsCapacity(w: Wire, st: State)
    ensures Pop(w, st).state.cap == st.cap
    decreases |st.pending|
  {
    var hd := DecodeHeader(w, st.pending);
    if !st.bad && st.skip == 0 && hd.Header? && hd.length > MAX_FRAME {
      PopKeepsCapacity(w, Discard(st, hd.size, hd.length));
    }
  }

  lemma StepCapacity(w: Wire, h: History, op: Op)
    requires IsCapacity(h.state.cap)
    ensures IsCapacity(Step(w, h, op).state.cap)
  {
    match op
    case FeedOp(data) => FeedCapacity(h.state, data);
    case NextOp => PopKeepsCapacity(w, h.state);
    case TakeDroppedOp =>
  }

  /** In every run the buffer is unallocated or 256 * 2^k bytes, never above 2^21. */
  lemma {:induction false} CapacityLaw(w: Wire, ops: seq<Op>)
    ensures IsCapacity(Run(w, ops).state.cap)
    decreases |ops|
  {
    if ops != [] {
      CapacityLaw(w, ops[..|ops| - 1]);
      StepCapacity(w, Run(w, ops[..|ops| - 1]), ops[|ops| - 1]);
    }
  }

  // ---------------------------------------------------------------------------
  // Draining after every chunk
  // ---------------------------------------------------------------------------

  function DrainStep(w: Wire, h: History): History {
    var d := Drain(w, h.state);
    h.(state := d.state, popped := h.popped + d.frames, lost := h.lost + d.lost,
       lostSinceTake := h.lostSinceTake + d.lost)
  }

  /** One transport chunk: feed it, pop until nothing comes out, and ask for losses. */
  function OnChunk(w: Wire, h: History, chunk: seq<Byte>): History {
    Step(w, DrainStep(w, Step(w, h, FeedOp(chunk))), TakeDroppedOp)
  }

  function Serve(w: Wire, chunks: seq<seq<Byte>>): History {
    if chunks == [] then Run(w, [])
    else OnChunk(w, Serve(w, chunks[..|chunks| - 1]), chunks[|chunks| - 1])
  }

  function Concat(chunks: seq<seq<Byte>>): seq<Byte> {
    if chunks == [] then [] else Concat(chunks[..|chunks| - 1]) + chunks[|chunks| - 1]
  }

  /** The largest chunk a draining client may hand over without ever overrunning the buffer. */
  function MaxChunk(w: Wire): nat {
    if w.GrpcWeb? then MAX_FRAME - 4 else MAX_FRAME - 5
  }

  lemma DrainStepKeepsTrack(w: Wire, h: History, u: seq<Byte>)
    requires Tracks(w, h, u)
    ensures Tracks(w, DrainStep(w, h), u)
  {
    DrainIsSound(w, h.state);
    if !h.overflowed {
      DrainKeepsTrack(w, h.state, u);
      var d := Drain(w, h.state);
      AheadTrans(w, h.fed + u, h.popped, h.lost, Residual(h.state, u), d.frames, d.lost, Residual(d.state, u));
    }
  }

  /** What is left buffered after a drain is short of one frame of the largest size. */
  lemma LeftoverIsSmall(w: Wire, st: State)
    requires Sound(st) && Exhausted(w, st) && !st.bad
    ensures |st.pending| + MaxChunk(w) <= BUFFER_LIMIT
  {
    if w.TcpLite? && DecodeHeader(w, st.pending).Incomplete? && st.pending != [] {
      ShortWhenMore(w.sizeLimit, st.pending[1..], 0, 1, 0);
    }
  }

  lemma {:induction false} ShortWhenMore(limit: nat, s: seq<Byte>, n: nat, unit: nat, acc: nat)
    requires DecodeLength(limit, s, n, unit, acc).More?
    ensures |s| + n < MAX_VARINT_BYTES
    decreases MAX_VARINT_BYTES - n
  {
    if s != [] {
      ShortWhenMore(limit, s[1..], n + 1, 128 * unit, acc + Digit(s[0], unit));
    }
  }

  lemma {:induction false} ServeKeepsTrack(w: Wire, chunks: seq<seq<Byte>>, u: seq<Byte>)
    requires forall c :: c in chunks ==> |c| <= MaxChunk(w)
    ensures var h := Serve(w, chunks);
            Tracks(w, h, u) && !h.overflowed && Exhausted(w, h.state) && h.fed == Concat(chunks)
    decreases |chunks|
  {
    if chunks == [] {
      RunKeepsTrack(w, [], u);
      ExhaustedAtStart(w);
    } else {
      var before := chunks[..|chunks| - 1];
      var chunk := chunks[|chunks| - 1];
      var h := Serve(w, before);
      ServeKeepsTrack(w, before, chunk + u);
      ChunkFits(w, h, chunk);
      FeedKeepsTrack(w, h, chunk, u);
      var fed := Step(w, h, FeedOp(chunk));
      DrainStepKeepsTrack(w, fed, u);
      DrainIsSound(w, fed.state);
      var st := DrainStep(w, fed).state;
      assert Residual(st.(dropped := false), u) == Residual(st, u);
    }
  }

  lemma ExhaustedAtStart(w: Wire)
    ensures Exhausted(w, Init)
  {
    assert DecodeHeader(w, []).Incomplete?;
  }

  lemma ChunkFits(w: Wire, h: History, chunk: seq<Byte>)
    requires Sound(h.state) && Exhausted(w, h.state) && !h.overflowed
    requires |chunk| <= MaxChunk(w)
    ensures !Step(w, h, FeedOp(chunk)).overflowed
  {
    if !h.state.bad {
      LeftoverIsSmall(w, h.state);
    }
  }

  /** Main result for the real callers: with chunks of at most `MaxChunk` bytes, the
      frames handed on so far are at every moment all that the bytes so far contain. */
  lemma PromptLaw(w: Wire, chunks: seq<seq<Byte>>)
    requires forall c :: c in chunks ==> |c| <= MaxChunk(w)
    ensures var h := Serve(w, chunks);
            && h.popped == OneShot(w, Concat(chunks))
            && h.lost == Oversized(w, Concat(chunks))
            && (h.state.bad <==> Broken(w, Concat(chunks)))
  {
    var h := Serve(w, chunks);
    ServeKeepsTrack(w, chunks, []);
    assert h.fed + [] == h.fed;
    ExhaustedMeansNothing(w, h.state);
    assert h.popped + [] == h.popped;
  }

  /** A gRPC-Web header always says how long its frame is. */
  lemma {:induction false} GrpcWebIsNeverBroken(s: seq<Byte>)
    ensures !Broken(GrpcWeb, s)
    decreases |s|
  {
    var hd := DecodeHeader(GrpcWeb, s);
    if hd.Header? && |s| >= hd.size + hd.length {
      GrpcWebIsNeverBroken(s[hd.size + hd.length..]);
    }
  }

  /** Whatever bytes arrive, in chunks of at most `MaxChunk`, a draining gRPC-Web client
      never poisons its parser. */
  lemma GrpcWebIsNeverPoisoned(chunks: seq<seq<Byte>>)
    requires forall c :: c in chunks ==> |c| <= MaxChunk(GrpcWeb)
    ensures !Serve(GrpcWeb, chunks).state.bad
  {
    PromptLaw(GrpcWeb, chunks);
    GrpcWebIsNeverBroken(Concat(chunks));
  }

  function Zeros(n: nat): (r: seq<Byte>)
    ensures |r| == n
  {
    seq(n, _ => 0 as Byte)
  }

  /** A header that declares the largest payload, in as many bytes as a header can have. */
  function LargestHeader(w: Wire): seq<Byte> {
    if w.GrpcWeb? then [0, 0, 0x10, 0, 0] else [0, 0x80, 0x80, 0xC0, 0x80, 0]
  }

  lemma LargestHeaderDecodes(w: Wire, t: seq<Byte>)
    requires w.TcpLite? ==> MAX_FRAME < w.sizeLimit
    ensures DecodeHeader(w, LargestHeader(w) + t) == Header(0, |LargestHeader(w)|, MAX_FRAME)
  {
    var s := LargestHeader(w) + t;
    if w.TcpLite? {
      var limit := w.sizeLimit;
      assert DecodeLength(limit, s[6..], 5, 0x8_0000_0000, MAX_FRAME).Overlong?;
      assert s[1..][1..] == s[2..] && s[2..][1..] == s[3..] && s[3..][1..] == s[4..] && s[4..][1..] == s[5..];
      assert DecodeLength(limit, s[5..], 4, 0x1000_0000, MAX_FRAME) == Length(5, MAX_FRAME);
      assert DecodeLength(limit, s[4..], 3, 0x20_0000, MAX_FRAME) == Length(5, MAX_FRAME);
      assert DecodeLength(limit, s[3..], 2, 0x4000, 0) == Length(5, MAX_FRAME);
      assert DecodeLength(limit, s[2..], 1, 0x80, 0) == Length(5, MAX_FRAME);
    } else {
      assert BigEndian(0, 0x10, 0, 0) == MAX_FRAME;
    }
  }

  /** The bound is the best possible on either wire: after these two admissible chunks any
      third one that exceeds it poisons the parser. */
  lemma MaxChunkIsTight(w: Wire, chunk: seq<Byte>)
    requires w.TcpLite? ==> MAX_FRAME < w.sizeLimit
    requires MaxChunk(w) < |chunk|
    ensures var first := LargestHeader(w) + Zeros(|LargestHeader(w)| - 2);
            var second := Zeros(MaxChunk(w));
            && |first| <= MaxChunk(w) && |second| <= MaxChunk(w)
            && Serve(w, [first, second, chunk]).overflowed
  {
    hide Drain, DecodeHeader, LargestHeader, OnChunk, Zeros;
    LargestHeaderSize(w);
    var zeros := Zeros(|LargestHeader(w)| - 2);
    var first := LargestHeader(w) + zeros;
    var second := Zeros(MaxChunk(w));
    ServeThree(w, first, second, chunk);
    var start := Run(w, []);
    assert [] + first == first;
    ChunkStays(w, start, first, zeros);
    var h1 := OnChunk(w, start, first);
    assert first + second == LargestHeader(w) + (zeros + second);
    ChunkStays(w, h1, second, zeros + second);
    Overruns(w, OnChunk(w, h1, second), chunk);
  }

  lemma LargestHeaderSize(w: Wire)
    ensures |LargestHeader(w)| == MAX_FRAME + 1 - MaxChunk(w) && |LargestHeader(w)| <= 6
  {
  }

  lemma ChunkStays(w: Wire, h: History, chunk: seq<Byte>, t: seq<Byte>)
    requires w.TcpLite? ==> MAX_FRAME < w.sizeLimit
    requires !h.state.bad && h.state.skip == 0
    requires h.state.pending + chunk == LargestHeader(w) + t && |t| < MAX_FRAME
    ensures var after := OnChunk(w, h, chunk).state;
            !after.bad && after.skip == 0 && after.pending == LargestHeader(w) + t
  {
    hide Drain;
    LargestHeaderSize(w);
    Stuck(w, Feed(h.state, chunk).0, t);
  }

  lemma Overruns(w: Wire, h: History, chunk: seq<Byte>)
    requires !h.state.bad && h.state.skip == 0 && |h.state.pending| + |chunk| > BUFFER_LIMIT
    ensures OnChunk(w, h, chunk).overflowed
  {
    hide Drain;
  }

  lemma ServeThree(w: Wire, a: seq<Byte>, b: seq<Byte>, c: seq<Byte>)
    ensures Serve(w, [a, b, c]) == OnChunk(w, OnChunk(w, OnChunk(w, Run(w, []), a), b), c)
  {
    hide OnChunk, Run;
    var none: seq<seq<Byte>> := [];
    assert [a, b, c][..2] == [a, b] && [a, b][..1] == [a] && [a][..0] == none;
    assert Serve(w, [a]) == OnChunk(w, Run(w, []), a);
    assert Serve(w, [a, b]) == OnChunk(w, Serve(w, [a]), b);
  }

  /** A full-size frame that is not complete stays buffered. */
  lemma Stuck(w: Wire, st: State, t: seq<Byte>)
    requires w.TcpLite? ==> MAX_FRAME < w.sizeLimit
    requires !st.bad && st.skip == 0 && st.pending == LargestHeader(w) + t && |t| < MAX_FRAME
    ensures Drain(w, st) == Drained(st, [], 0)
  {
    hide DecodeHeader;
    LargestHeaderDecodes(w, t);
  }

  // ---------------------------------------------------------------------------
  // Encoding
  // ---------------------------------------------------------------------------

  function EncodeLength(v: nat): (r: seq<Byte>)
    ensures |r| >= 1
  {
    if v < 128 then [v] else [v % 128 + 128] + EncodeLength(v / 128)
  }

  /** The header of a frame with `n` payload bytes. */
  function Preamble(w: Wire, flag: Byte, n: nat): seq<Byte> {
    match w
    case GrpcWeb => [flag, n / 0x100_0000 % 256, n / 0x1_0000 % 256, n / 0x100 % 256, n % 256]
    case TcpLite(_) => [flag] + EncodeLength(n)
  }

  function Encode(w: Wire, f: Frame): seq<Byte> {
    Preamble(w, f.flag, |f.payload|) + f.payload
  }

  function EncodeAll(w: Wire, fs: seq<Frame>): seq<Byte> {
    if fs == [] then [] else Encode(w, fs[0]) + EncodeAll(w, fs[1..])
  }

  /** A length the wire can carry: four bytes of gRPC-Web, five base-128 digits of tcp-lite. */
  predicate Carries(w: Wire, f: Frame) {
    match w
    case GrpcWeb => |f.payload| < TWO_32
    case TcpLite(limit) => |f.payload| < TWO_35 && |f.payload| < limit
  }

  function Pow128(k: nat): (r: nat)
    ensures r > 0
  {
    if k == 0 then 1 else 128 * Pow128(k - 1)
  }

  /** A length takes at most `k` bytes exactly when it is below 128^k. */
  lemma {:induction false} LengthBytes(v: nat, k: nat)
    requires k >= 1
    ensures |EncodeLength(v)| <= k <==> v < Pow128(k)
    decreases k
  {
    if k == 1 {
      assert Pow128(1) == 128 * Pow128(0) == 128;
    } else if v >= 128 {
      LengthBytes(v / 128, k - 1);
    }
  }

  /** Payloads a client keeps need at most three length bytes, well within the five it reads. */
  lemma ShortLengths(v: nat)
    ensures v <= MAX_FRAME ==> |EncodeLength(v)| <= 3
    ensures |EncodeLength(v)| <= MAX_VARINT_BYTES <==> v < TWO_35
  {
    LengthBytes(v, 3);
    LengthBytes(v, 5);
    assert Pow128(1) == 128 && Pow128(2) == 0x4000 && Pow128(3) == 0x20_0000;
    assert Pow128(4) == 0x1000_0000 && Pow128(5) == TWO_35;
  }

  lemma DigitsCompose(v: nat, unit: nat)
    ensures v * unit == v % 128 * unit + v / 128 * (128 * unit)
  {
    var q, r := v / 128, v % 128;
    assert v == 128 * q + r;
    assert (128 * q + r) * unit == 128 * q * unit + r * unit;
  }

  /** Reading an encoded length gives it back, or finds it too long for the wire. */
  lemma {:induction false} LengthRoundTrip(limit: nat, v: nat, t: seq<Byte>, n: nat, unit: nat, acc: nat)
    requires v * unit < limit && unit > 0 && n <= MAX_VARINT_BYTES
    ensures var size := n + |EncodeLength(v)|;
            DecodeLength(limit, EncodeLength(v) + t, n, unit, acc)
            == if size <= MAX_VARINT_BYTES then Length(size, acc + v * unit) else Overlong
    decreases MAX_VARINT_BYTES - n
  {
    if n < MAX_VARINT_BYTES {
      DigitsCompose(v, unit);
      var s := EncodeLength(v) + t;
      if v >= 128 {
        assert s[1..] == EncodeLength(v / 128) + t;
        assert Digit(s[0], unit) == v % 128 * unit;
        LengthRoundTrip(limit, v / 128, t, n + 1, 128 * unit, acc + v % 128 * unit);
      }
    }
  }

  /** A length that is read is one that the reader's word can hold, `limit` being a power of
      two with at least the four lower digits. */
  lemma {:induction false} ReadLengthFits(limit: nat, s: seq<Byte>, n: nat, unit: nat, acc: nat, r: nat)
    requires n <= 4 && acc < unit && r > 0 && limit == unit * (Pow128(4 - n) * r)
    ensures var l := DecodeLength(limit, s, n, unit, acc); l.Length? ==> l.value < limit
    decreases 4 - n
  {
    hide Pow128, Digit;
    if s != [] {
      var part := Digit(s[0], unit);
      if part < limit {
        BelowMultiple(s[0] % 128, unit, Pow128(4 - n) * r, acc);
        DigitIs(s[0], unit);
        if n < 4 {
          NextDigit(limit, unit, 4 - n, r);
          ReadLengthFits(limit, s[1..], n + 1, 128 * unit, acc + part, r);
        }
      }
    }
  }

  lemma DigitIs(b: Byte, unit: nat)
    ensures Digit(b, unit) == b % 128 * unit <= 127 * unit
  {
    MulMonotone(b % 128, 127, unit);
  }

  lemma NextDigit(limit: nat, unit: nat, k: nat, r: nat)
    requires k > 0 && limit == unit * (Pow128(k) * r)
    ensures limit == (128 * unit) * (Pow128(k - 1) * r)
  {
    var p := Pow128(k - 1) * r;
    assert Pow128(k) * r == 128 * p;
    hide Pow128;
    assert unit * (128 * p) == 128 * unit * p;
  }

  lemma MulMonotone(a: nat, b: nat, c: nat)
    requires a <= b
    ensures a * c <= b * c
  {
  }

  lemma BelowMultiple(digit: nat, unit: nat, q: nat, acc: nat)
    requires acc < unit
    ensures digit * unit < unit * q ==> acc + digit * unit < unit * q
  {
    if digit >= q {
      MulMonotone(q, digit, unit);
    } else {
      MulMonotone(digit + 1, q, unit);
    }
  }

  /** On the ESP32 and on a desktop. */
  lemma DecodedLengthFits(s: seq<Byte>)
    ensures var l := DecodeLength(TWO_32, s, 0, 1, 0); l.Length? ==> l.value < TWO_32
    ensures var l := DecodeLength(TWO_32 * TWO_32, s, 0, 1, 0); l.Length? ==> l.value < TWO_32 * TWO_32
  {
    assert Pow128(4) == 128 * Pow128(3) == 128 * 128 * Pow128(2) == 128 * 128 * 128 * Pow128(1) == 0x1000_0000;
    ReadLengthFits(TWO_32, s, 0, 1, 0, 16);
    ReadLengthFits(TWO_32 * TWO_32, s, 0, 1, 0, 16 * TWO_32);
  }

  lemma ShiftTwice(n: nat)
    ensures n / 0x1_0000 == n / 0x100 / 0x100
  {
    var q, r := n / 0x1_0000, n % 0x1_0000;
    assert n == 0x100 * (0x100 * q + r / 0x100) + r % 0x100;
  }

  lemma ShiftThrice(n: nat)
    ensures n / 0x100_0000 == n / 0x1_0000 / 0x100
  {
    var q, r := n / 0x100_0000, n % 0x100_0000;
    assert n == 0x1_0000 * (0x100 * q + r / 0x1_0000) + r % 0x1_0000;
  }

  lemma BigEndianDigits(n: nat)
    ensures BigEndian(n / 0x100_0000 % 256, n / 0x1_0000 % 256, n / 0x100 % 256, n % 256) == n % TWO_32
  {
    ShiftTwice(n);
    ShiftThrice(n);
    var b2, b3, b4 := n / 0x100, n / 0x1_0000, n / 0x100_0000;
    var top := b4 / 0x100;
    assert n == 0x100 * b2 + n % 256 && b2 == 0x100 * b3 + b2 % 256;
    assert b3 == 0x100 * b4 + b3 % 256 && b4 == 0x100 * top + b4 % 256;
    assert n == TWO_32 * top + BigEndian(b4 % 256, b3 % 256, b2 % 256, n % 256);
  }

  /** How the other side reads the header of an encoded frame. */
  lemma EncodedHeader(w: Wire, flag: Byte, n: nat, t: seq<Byte>)
    requires w.TcpLite? ==> n < w.sizeLimit
    ensures DecodeHeader(w, Preamble(w, flag, n) + t)
            == match w
               case GrpcWeb => Header(flag, GRPC_HEADER, n % TWO_32)
               case TcpLite(_) => if n < TWO_35 then Header(flag, |Preamble(w, flag, n)|, n) else Malformed
  {
    if w.GrpcWeb? {
      BigEndianDigits(n);
    } else {
      var s := Preamble(w, flag, n) + t;
      assert s[1..] == EncodeLength(n) + t;
      ShortLengths(n);
      LengthRoundTrip(w.sizeLimit, n, t, 0, 1, 0);
    }
  }

  lemma CarriedHeader(w: Wire, f: Frame, t: seq<Byte>)
    requires Carries(w, f)
    ensures var pre := Preamble(w, f.flag, |f.payload|);
            DecodeHeader(w, pre + t) == Header(f.flag, |pre|, |f.payload|)
  {
    hide DecodeHeader, EncodeLength;
    EncodedHeader(w, f.flag, |f.payload|, t);
  }

  lemma Slices(a: seq<Byte>, b: seq<Byte>, c: seq<Byte>)
    ensures (a + b + c)[|a|..|a| + |b|] == b
    ensures (a + b + c)[|a| + |b|..] == c
    ensures a + b + c == a + (b + c)
  {
  }

  lemma EncodedSlices(w: Wire, f: Frame, t: seq<Byte>)
    requires Carries(w, f)
    ensures var s := Encode(w, f) + t;
            var hd := DecodeHeader(w, s);
            && hd.Header? && hd.flag == f.flag && hd.length == |f.payload| && |s| >= hd.size + hd.length
            && s[hd.size..hd.size + hd.length] == f.payload
            && s[hd.size + hd.length..] == t
  {
    Slices(Preamble(w, f.flag, |f.payload|), f.payload, t);
    CarriedHeader(w, f, f.payload + t);
  }

  lemma EncodedFrame(w: Wire, f: Frame, t: seq<Byte>)
    requires Carries(w, f)
    ensures Frames(w, Encode(w, f) + t) == [f] + Frames(w, t)
    ensures Broken(w, Encode(w, f) + t) == Broken(w, t)
    ensures Oversized(w, Encode(w, f) + t) == (if Fits(f) then 0 else 1) + Oversized(w, t)
  {
    EncodedSlices(w, f, t);
  }

  /** A stream of encoded frames means those frames, of whatever length and in order. */
  lemma {:induction false} RoundTrip(w: Wire, fs: seq<Frame>)
    requires forall f :: f in fs ==> Carries(w, f)
    ensures Frames(w, EncodeAll(w, fs)) == fs && !Broken(w, EncodeAll(w, fs))
  {
    assert DecodeHeader(w, []).Incomplete?;
    hide DecodeHeader, Encode;
    if fs != [] {
      EncodedFrame(w, fs[0], EncodeAll(w, fs[1..]));
      RoundTrip(w, fs[1..]);
    }
  }

  /** What is read of a frame that is too long for its wire is another one, or nothing. */
  lemma UncarriedFrame(w: Wire, f: Frame, t: seq<Byte>)
    requires w.TcpLite? ==> |f.payload| < w.sizeLimit
    requires !Carries(w, f)
    ensures var fs := Frames(w, Encode(w, f) + t); fs != [] ==> fs[0] != f
  {
    var s := Encode(w, f) + t;
    assert s == Preamble(w, f.flag, |f.payload|) + (f.payload + t);
    EncodedHeader(w, f.flag, |f.payload|, f.payload + t);
    var fs := Frames(w, s);
    assert fs != [] ==> |fs[0].payload| == |f.payload| % TWO_32;
  }

  /** The encoder keeps only the low 32 bits of a gRPC-Web length and the reader stops
      after five tcp-lite length bytes, so frames come back exactly when every length
      fits: this is the caller's bound, not one byte less. */
  lemma {:induction false} RoundTripExactly(w: Wire, fs: seq<Frame>)
    requires forall f :: f in fs ==> w.TcpLite? ==> |f.payload| < w.sizeLimit
    ensures Frames(w, EncodeAll(w, fs)) == fs <==> forall f :: f in fs ==> Carries(w, f)
  {
    if fs == [] {
      RoundTrip(w, []);
    } else {
      hide Frames, Encode, Carries;
      var rest := EncodeAll(w, fs[1..]);
      RoundTripExactly(w, fs[1..]);
      if Carries(w, fs[0]) {
        EncodedFrame(w, fs[0], rest);
        assert fs == [fs[0]] + fs[1..];
        assert ([fs[0]] + Frames(w, rest))[1..] == Frames(w, rest);
      } else {
        UncarriedFrame(w, fs[0], rest);
      }
    }
  }

  lemma {:induction false} CountOversized(w: Wire, fs: seq<Frame>)
    requires forall f :: f in fs ==> Carries(w, f)
    ensures Oversized(w, EncodeAll(w, fs)) == |fs| - |Deliverable(fs)|
  {
    assert DecodeHeader(w, []).Incomplete?;
    hide DecodeHeader, Encode;
    if fs != [] {
      EncodedFrame(w, fs[0], EncodeAll(w, fs[1..]));
      CountOversized(w, fs[1..]);
    }
  }

  /** End to end: whatever chunks the encoded stream arrives in, a draining client gets
      every frame of at most 2^20 bytes, in order and nothing else; each larger one costs
      itself alone, and the stream is never given up. */
  lemma Delivery(w: Wire, fs: seq<Frame>, chunks: seq<seq<Byte>>)
    requires forall f :: f in fs ==> Carries(w, f)
    requires forall c :: c in chunks ==> |c| <= MaxChunk(w)
    requires Concat(chunks) == EncodeAll(w, fs)
    ensures var h := Serve(w, chunks);
            h.popped == Deliverable(fs) && h.lost == |fs| - |Deliverable(fs)| && !h.state.bad
  {
    PromptLaw(w, chunks);
    RoundTrip(w, fs);
    CountOversized(w, fs);
  }
}
