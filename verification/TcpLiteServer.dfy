/**
  The server's half of tcp-lite: base-128 lengths of any size on the way out, a
  bounded reader on the way in, and its agreement with the C client.
*/
module TcpLiteServer {
  import opened Bytes
  import opened Framing
  import opened FrameSessions

  const MAX_SHIFT: nat := 64
  const TWO_70: nat := 0x40_0000_0000_0000_0000

  datatype Error = NegativeValue | EndOfStream | VarintTooLong | FrameTooLong
  datatype Result<+T> = Ok(value: T) | Err(error: Error)

  // ---------------------------------------------------------------------------
  // What the reader computes
  // ---------------------------------------------------------------------------

  /** The value read and the bytes left. */
  datatype Read<+T> = Read(value: T, rest: seq<Byte>)

  /** Reads on after `n` length bytes, worth `acc`; the next one weighs `unit`. */
  function VarintFrom(s: seq<Byte>, n: nat, unit: nat, acc: nat): (r: Result<Read<nat>>)
    ensures r.Ok? ==> |r.value.rest| < |s|
    decreases |s|
  {
    if s == [] then Err(EndOfStream)
    else
      var acc' := acc + Digit(s[0], unit);
      if s[0] < 128 then Ok(Read(acc', s[1..]))
      else if 7 * (n + 1) >= MAX_SHIFT then Err(VarintTooLong)
      else VarintFrom(s[1..], n + 1, 128 * unit, acc')
  }

  function VarintOf(s: seq<Byte>): (r: Result<Read<nat>>)
    ensures r.Ok? ==> |r.value.rest| < |s|
  {
    VarintFrom(s, 0, 1, 0)
  }

  function FrameOf(s: seq<Byte>): (r: Result<Read<Frame>>)
    ensures r.Ok? ==> |r.value.rest| < |s|
  {
    if s == [] then Err(EndOfStream)
    else match VarintOf(s[1..])
      case Err(e) => Err(e)
      case Ok(Read(n, rest)) =>
        if n > MAX_FRAME then Err(FrameTooLong)
        else if |rest| < n then Err(EndOfStream)
        else Ok(Read(Frame(s[0], rest[..n]), rest[n..]))
  }

  /** Frames read one after the other, and why the reading ended. */
  datatype Reading = Reading(frames: seq<Frame>, end: Error)

  function FramesOf(s: seq<Byte>): Reading
    decreases |s|
  {
    match FrameOf(s)
    case Err(e) => Reading([], e)
    case Ok(Read(f, rest)) =>
      var r := FramesOf(rest);
      Reading([f] + r.frames, r.end)
  }

  // ---------------------------------------------------------------------------
  // The reader and the writer
  // ---------------------------------------------------------------------------

  method EncodeVarint(value: int) returns (r: Result<seq<Byte>>)
    ensures value < 0 ==> r == Err(NegativeValue)
    ensures value >= 0 ==> r == Ok(EncodeLength(value))
  {
    if value < 0 {
      return Err(NegativeValue);
    }
    var v := value;
    var result: seq<Byte> := [];
    while true
      invariant v >= 0
      invariant result + EncodeLength(v) == EncodeLength(value)
      decreases v
    {
      var byte := v % 128;
      v := v / 128;
      if v != 0 {
        result := result + [byte + 128];
      } else {
        result := result + [byte];
        return Ok(result);
      }
    }
  }

  method EncodeFrame(kind: Byte, payload: seq<Byte>) returns (r: seq<Byte>)
    ensures forall limit :: r == Encode(TcpLite(limit), Frame(kind, payload))
  {
    var n := EncodeVarint(|payload|);
    r := [kind] + n.value + payload;
  }

  /** The receiving end of a connection whose peer sends `data` and closes. */
  class StreamReader {
    var data: seq<Byte>

    constructor (data: seq<Byte>)
      ensures this.data == data
    {
      this.data := data;
    }

    method ReadExactly(count: nat) returns (r: Result<seq<Byte>>)
      modifies this
      ensures |old(data)| < count ==> r == Err(EndOfStream) && data == []
      ensures |old(data)| >= count ==> r == Ok(old(data)[..count]) && data == old(data)[count..]
    {
      if |data| < count {
        data := [];
        return Err(EndOfStream);
      }
      r := Ok(data[..count]);
      data := data[count..];
    }

    method ReadVarint() returns (r: Result<nat>)
      modifies this
      ensures match VarintOf(old(data))
              case Ok(Read(v, rest)) => r == Ok(v) && data == rest
              case Err(e) => r == Err(e)
    {
      var result: nat, shift: nat := 0, 0;
      ghost var unit: nat, n: nat := 1, 0;
      while true
        invariant shift == 7 * n && unit == Pow128(n)
        invariant VarintFrom(data, n, unit, result) == VarintOf(old(data))
        decreases |data|
      {
        var got := ReadExactly(1);
        if got.Err? {
          return Err(got.error);
        }
        var byte := got.value[0];
        result := result + Shifted(byte % 128, shift);
        ShiftedIsDigit(byte, n);
        if byte < 128 {
          return Ok(result);
        }
        shift := shift + 7;
        n, unit := n + 1, 128 * unit;
        if shift >= MAX_SHIFT {
          return Err(VarintTooLong);
        }
      }
    }

    method ReadFrame() returns (r: Result<Frame>)
      modifies this
      ensures match FrameOf(old(data))
              case Ok(Read(f, rest)) => r == Ok(f) && data == rest
              case Err(e) => r == Err(e)
    {
      var kind := ReadExactly(1);
      if kind.Err? {
        return Err(kind.error);
      }
      var length := ReadVarint();
      if length.Err? {
        return Err(length.error);
      }
      if length.value > MAX_FRAME {
        return Err(FrameTooLong);
      }
      var payload := ReadExactly(length.value);
      if payload.Err? {
        return Err(payload.error);
      }
      return Ok(Frame(kind.value[0], payload.value));
    }
  }

  /** `v << shift` on unbounded integers. */
  function Shifted(v: nat, shift: nat): nat {
    if shift == 0 then v else 2 * Shifted(v, shift - 1)
  }

  lemma {:induction false} ShiftedIsDigit(b: Byte, n: nat)
    ensures Shifted(b % 128, 7 * n) == Digit(b, Pow128(n))
    decreases n
  {
    if n > 0 {
      ShiftedIsDigit(b, n - 1);
      var x := Shifted(b % 128, 7 * (n - 1));
      ShiftBySeven(b % 128, 7 * (n - 1));
      assert Digit(b, 128 * Pow128(n - 1)) == 128 * Digit(b, Pow128(n - 1)) by {
        MulBy128(b % 128, Pow128(n - 1));
      }
    }
  }

  lemma MulBy128(a: nat, b: nat)
    ensures a * (128 * b) == 128 * (a * b)
  {
  }

  lemma ShiftBySeven(v: nat, s: nat)
    ensures Shifted(v, s + 7) == 128 * Shifted(v, s)
  {
    assert Shifted(v, s + 7) == 2 * Shifted(v, s + 6) == 4 * Shifted(v, s + 5) == 8 * Shifted(v, s + 4);
    assert Shifted(v, s + 4) == 2 * Shifted(v, s + 3) == 4 * Shifted(v, s + 2) == 8 * Shifted(v, s + 1);
    assert Shifted(v, s + 1) == 2 * Shifted(v, s);
  }

  // ---------------------------------------------------------------------------
  // Round trips
  // ---------------------------------------------------------------------------

  lemma {:induction false} VarintFromEncoded(v: nat, t: seq<Byte>, n: nat, unit: nat, acc: nat)
    requires n < 10
    ensures VarintFrom(EncodeLength(v) + t, n, unit, acc)
            == if n + |EncodeLength(v)| <= 10 then Ok(Read(acc + v * unit, t)) else Err(VarintTooLong)
    decreases 10 - n
  {
    var s := EncodeLength(v) + t;
    if v < 128 {
      assert s[1..] == t;
      assert Digit(s[0], unit) == v * unit;
    } else {
      assert s[1..] == EncodeLength(v / 128) + t;
      DigitsCompose(v, unit);
      assert Digit(s[0], unit) == v % 128 * unit;
      if n < 9 {
        VarintFromEncoded(v / 128, t, n + 1, 128 * unit, acc + v % 128 * unit);
      }
    }
  }

  /** Reading back an encoded number gives it back, consuming exactly its bytes,
      precisely for the numbers below 2^70. */
  lemma VarintRoundTrip(v: nat, t: seq<Byte>)
    ensures VarintOf(EncodeLength(v) + t) == if v < TWO_70 then Ok(Read(v, t)) else Err(VarintTooLong)
  {
    VarintFromEncoded(v, t, 0, 1, 0);
    LengthBytes(v, 10);
    assert Pow128(1) == 128 && Pow128(2) == 0x4000 && Pow128(3) == 0x20_0000;
    assert Pow128(4) == 0x1000_0000 && Pow128(5) == TWO_35;
    assert Pow128(6) == 0x400_0000_0000 && Pow128(7) == 0x2_0000_0000_0000;
    assert Pow128(8) == 0x100_0000_0000_0000 && Pow128(9) == 0x8000_0000_0000_0000;
    assert Pow128(10) == TWO_70;
  }

  lemma {:induction false} EndlessFrom(s: seq<Byte>, n: nat, unit: nat, acc: nat)
    requires n < 10 && |s| >= 10 - n
    requires forall i :: 0 <= i < 10 - n ==> s[i] >= 128
    ensures VarintFrom(s, n, unit, acc) == Err(VarintTooLong)
    decreases 10 - n
  {
    if n < 9 {
      EndlessFrom(s[1..], n + 1, 128 * unit, acc + Digit(s[0], unit));
    }
  }

  /** Ten continuation bytes are refused whatever follows. */
  lemma TenContinuationsAreRefused(s: seq<Byte>)
    requires |s| >= 10 && forall i :: 0 <= i < 10 ==> s[i] >= 128
    ensures VarintOf(s) == Err(VarintTooLong)
  {
    EndlessFrom(s, 0, 1, 0);
  }

  lemma FrameOfEncoded(limit: nat, f: Frame, t: seq<Byte>)
    requires |f.payload| < TWO_70
    ensures FrameOf(Encode(TcpLite(limit), f) + t) == if Fits(f) then Ok(Read(f, t)) else Err(FrameTooLong)
  {
    var n := |f.payload|;
    var s := Encode(TcpLite(limit), f) + t;
    assert s[1..] == EncodeLength(n) + (f.payload + t);
    VarintRoundTrip(n, f.payload + t);
    assert (f.payload + t)[..n] == f.payload && (f.payload + t)[n..] == t;
  }

  /** A connection carrying any list of frames reads back as that list, up to the
      first frame above the limit, which ends it. */
  lemma {:induction false} ConnectionRoundTrip(limit: nat, fs: seq<Frame>)
    requires forall f :: f in fs ==> |f.payload| < TWO_70
    ensures FramesOf(EncodeAll(TcpLite(limit), fs)) == ReadingOf(fs)
  {
    if fs != [] {
      FrameOfEncoded(limit, fs[0], EncodeAll(TcpLite(limit), fs[1..]));
      if Fits(fs[0]) {
        ConnectionRoundTrip(limit, fs[1..]);
      }
    }
  }

  function ReadingOf(fs: seq<Frame>): Reading {
    if fs == [] then Reading([], EndOfStream)
    else if !Fits(fs[0]) then Reading([], FrameTooLong)
    else var r := ReadingOf(fs[1..]); Reading([fs[0]] + r.frames, r.end)
  }

  lemma {:induction false} CutVarint(v: nat, k: nat, n: nat, unit: nat, acc: nat)
    requires k < |EncodeLength(v)| && n + |EncodeLength(v)| <= 10
    ensures VarintFrom(EncodeLength(v)[..k], n, unit, acc) == Err(EndOfStream)
    decreases k
  {
    if k > 0 {
      var s := EncodeLength(v)[..k];
      assert s[1..] == EncodeLength(v / 128)[..k - 1];
      CutVarint(v / 128, k - 1, n + 1, 128 * unit, acc + Digit(s[0], unit));
    }
  }

  lemma CutFrame(limit: nat, f: Frame, k: nat)
    requires Fits(f) && k < |Encode(TcpLite(limit), f)|
    ensures FrameOf(Encode(TcpLite(limit), f)[..k]) == Err(EndOfStream)
  {
    hide EncodeLength, VarintFrom;
    var length := EncodeLength(|f.payload|);
    var s := Encode(TcpLite(limit), f)[..k];
    ShortLengths(|f.payload|);
    CutBehindFirst(f.flag, length, f.payload, k);
    if 0 < k <= |length| {
      CutVarint(|f.payload|, k - 1, 0, 1, 0);
    } else if k > 0 {
      VarintRoundTrip(|f.payload|, f.payload[..k - 1 - |length|]);
    }
  }

  lemma CutBehindFirst(first: Byte, a: seq<Byte>, b: seq<Byte>, k: nat)
    requires k <= 1 + |a| + |b|
    ensures 0 < k <= |a| ==> ([first] + a + b)[..k][1..] == a[..k - 1]
    ensures |a| < k ==> ([first] + a + b)[..k][1..] == a + b[..k - 1 - |a|]
  {
  }

  /** A connection that breaks off anywhere gives the frames that were complete, and ends
      with the end of the stream and nothing worse. */
  lemma {:induction false} CutConnection(limit: nat, fs: seq<Frame>, k: nat)
    requires (forall f :: f in fs ==> Fits(f)) && k <= |EncodeAll(TcpLite(limit), fs)|
    ensures var r := FramesOf(EncodeAll(TcpLite(limit), fs)[..k]);
            && r.end == EndOfStream && r.frames <= fs
            && |EncodeAll(TcpLite(limit), r.frames)| <= k
            && (r.frames != fs ==> k < |EncodeAll(TcpLite(limit), fs[..|r.frames| + 1])|)
  {
    hide FrameOf, Encode;
    var w := TcpLite(limit);
    var all := EncodeAll(w, fs);
    if fs == [] {
      NoFrame();
    } else {
      var first := Encode(w, fs[0]);
      assert fs[..1][1..] == [] && EncodeAll(w, fs[..1]) == first + EncodeAll(w, []);
      if k < |first| {
        assert all[..k] == first[..k];
        CutFrame(limit, fs[0], k);
      } else {
        var rest := EncodeAll(w, fs[1..]);
        assert all[..k] == first + rest[..k - |first|];
        assert Fits(fs[0]);
        FrameOfEncoded(limit, fs[0], rest[..k - |first|]);
        CutConnection(limit, fs[1..], k - |first|);
        var r := FramesOf(rest[..k - |first|]);
        assert ([fs[0]] + r.frames)[1..] == r.frames;
        if r.frames != fs[1..] {
          assert fs[..|r.frames| + 2][1..] == fs[1..][..|r.frames| + 1];
        }
      }
    }
  }

  lemma NoFrame()
    ensures FrameOf([]) == Err(EndOfStream)
  {
  }

  /** Both ends agree: what either side sends within the limit, the server reads from
      the connection and the C client pops from its parser, however it is chunked. */
  lemma Interoperation(limit: nat, fs: seq<Frame>, chunks: seq<seq<Byte>>)
    requires MAX_FRAME < limit
    requires forall f :: f in fs ==> Fits(f)
    requires forall c :: c in chunks ==> |c| <= MaxChunk(TcpLite(limit))
    requires Concat(chunks) == EncodeAll(TcpLite(limit), fs)
    ensures FramesOf(Concat(chunks)) == Reading(fs, EndOfStream)
    ensures Serve(TcpLite(limit), chunks).popped == fs
    ensures forall f :: f in fs ==> |EncodeLength(|f.payload|)| <= 3
  {
    ConnectionRoundTrip(limit, fs);
    AllFit(fs);
    Delivery(TcpLite(limit), fs, chunks);
    forall f | f in fs ensures |EncodeLength(|f.payload|)| <= 3 { ShortLengths(|f.payload|); }
  }

  lemma {:induction false} AllFit(fs: seq<Frame>)
    requires forall f :: f in fs ==> Fits(f)
    ensures Deliverable(fs) == fs && ReadingOf(fs) == Reading(fs, EndOfStream)
  {
    if fs != [] {
      AllFit(fs[1..]);
      assert fs == [fs[0]] + fs[1..];
    }
  }
}
