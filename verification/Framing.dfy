/**
  Length-prefixed framing as used by the two C client transports: the byte
  layout of a frame, the reference meaning of a whole byte stream, and the
  incremental parser as an abstract machine on values.

  The machine is shown to agree with the reference for every way of cutting
  the stream into feeds and every interleaving of feeds and pops.
*/
module Framing {
  import opened Wrappers
  import opened Bytes

  const MAX_FRAME: nat := 0x10_0000
  const BUFFER_LIMIT: nat := 2 * MAX_FRAME
  const GRPC_HEADER: nat := 5
  const MAX_VARINT_BYTES: nat := 5
  const FIRST_CAPACITY: nat := 256
  const TWO_32: nat := 0x1_0000_0000
  const TWO_35: nat := 0x8_0000_0000

  /** `sizeLimit` is one past the largest `size_t`: 2^32 on the ESP32, 2^64 on a desktop. */
  datatype Wire = GrpcWeb | TcpLite(sizeLimit: nat)

  datatype Frame = Frame(flag: Byte, payload: seq<Byte>)

  datatype Header =
    | Incomplete
    | Malformed
    | Header(flag: Byte, size: nat, length: nat)

  datatype Length = More | Overlong | Length(count: nat, value: nat)

  // ---------------------------------------------------------------------------
  // Headers
  // ---------------------------------------------------------------------------

  /** What the low seven bits of `b` are worth at weight `unit`. */
  function Digit(b: Byte, unit: nat): nat {
    b % 128 * unit
  }

  /** Reads the rest of a base-128 length: `n` bytes of it are already read, the
      next one weighs `unit`, and `acc` is what the earlier ones amount to. */
  function DecodeLength(sizeLimit: nat, s: seq<Byte>, n: nat, unit: nat, acc: nat): (r: Length)
    ensures r.Length? ==> n < r.count <= MAX_VARINT_BYTES && r.count - n <= |s|
    decreases MAX_VARINT_BYTES - n
  {
    if n >= MAX_VARINT_BYTES then Overlong
    else if s == [] then More
    else
      var part := Digit(s[0], unit);
      if part >= sizeLimit then Overlong
      else if s[0] < 128 then Length(n + 1, acc + part)
      else DecodeLength(sizeLimit, s[1..], n + 1, 128 * unit, acc + part)
  }

  function BigEndian(b1: int, b2: int, b3: int, b4: int): int {
    b1 * 0x100_0000 + b2 * 0x1_0000 + b3 * 0x100 + b4
  }

  function DecodeHeader(w: Wire, s: seq<Byte>): (r: Header)
    ensures r.Header? ==> 1 <= r.size <= |s| && r.flag == s[0]
    ensures r.Header? ==> r.size <= if w.GrpcWeb? then GRPC_HEADER else 1 + MAX_VARINT_BYTES
  {
    match w
    case GrpcWeb =>
      if |s| < GRPC_HEADER then Incomplete
      else Header(s[0], GRPC_HEADER, BigEndian(s[1], s[2], s[3], s[4]))
    case TcpLite(limit) =>
      if s == [] then Incomplete
      else match DecodeLength(limit, s[1..], 0, 1, 0)
        case More => Incomplete
        case Overlong => Malformed
        case Length(n, v) => Header(s[0], 1 + n, v)
  }

  lemma {:induction false} LengthIsStable(limit: nat, s: seq<Byte>, t: seq<Byte>, n: nat, unit: nat, acc: nat)
    requires !DecodeLength(limit, s, n, unit, acc).More?
    ensures DecodeLength(limit, s + t, n, unit, acc) == DecodeLength(limit, s, n, unit, acc)
    decreases MAX_VARINT_BYTES - n
  {
    hide Digit;
    if n < MAX_VARINT_BYTES {
      assert (s + t)[0] == s[0];
      assert (s + t)[1..] == s[1..] + t;
      if Digit(s[0], unit) < limit && s[0] >= 128 {
        LengthIsStable(limit, s[1..], t, n + 1, 128 * unit, acc + Digit(s[0], unit));
      }
    }
  }

  /** A header that can be read, or is known to be malformed, stays so whatever arrives next. */
  lemma HeaderIsStable(w: Wire, s: seq<Byte>, t: seq<Byte>)
    requires !DecodeHeader(w, s).Incomplete?
    ensures DecodeHeader(w, s + t) == DecodeHeader(w, s)
  {
    if w.TcpLite? {
      assert (s + t)[1..] == s[1..] + t;
      LengthIsStable(w.sizeLimit, s[1..], t, 0, 1, 0);
    }
  }

  // ---------------------------------------------------------------------------
  // What a whole stream means
  // ---------------------------------------------------------------------------

  /** Every complete frame of `s`, of any length, up to the first malformed header. */
  function Frames(w: Wire, s: seq<Byte>): seq<Frame>
    decreases |s|
  {
    match DecodeHeader(w, s)
    case Header(f, n, len) =>
      if |s| < n + len then [] else [Frame(f, s[n..n + len])] + Frames(w, s[n + len..])
    case _ => []
  }

  /** How many headers of `s` declare more than a client will hold. */
  function Oversized(w: Wire, s: seq<Byte>): nat
    decreases |s|
  {
    match DecodeHeader(w, s)
    case Header(f, n, len) =>
      (if len > MAX_FRAME then 1 else 0) + (if |s| < n + len then 0 else Oversized(w, s[n + len..]))
    case _ => 0
  }

  /** Some header of `s` is malformed, so that the start of the next frame is unknown. */
  predicate Broken(w: Wire, s: seq<Byte>)
    decreases |s|
  {
    match DecodeHeader(w, s)
    case Incomplete => false
    case Malformed => true
    case Header(f, n, len) => |s| >= n + len && Broken(w, s[n + len..])
  }

  predicate Fits(f: Frame) {
    |f.payload| <= MAX_FRAME
  }

  function Deliverable(fs: seq<Frame>): seq<Frame> {
    if fs == [] then []
    else (if Fits(fs[0]) then [fs[0]] else []) + Deliverable(fs[1..])
  }

  function OneShot(w: Wire, s: seq<Byte>): seq<Frame> {
    Deliverable(Frames(w, s))
  }

  // ---------------------------------------------------------------------------
  // The incremental parser on values
  // ---------------------------------------------------------------------------

  /** `pending` is the buffered, not yet consumed part of the stream. */
  datatype State = State(skip: nat, pending: seq<Byte>, cap: nat, dropped: bool, bad: bool)

  const Init := State(0, [], 0, false, false)

  function Min(a: nat, b: nat): nat {
    if a < b then a else b
  }

  /** Doubles `cap` until it holds `need` bytes. */
  function Grow(cap: nat, need: nat): (r: nat)
    requires cap > 0
    ensures r >= need && r >= cap
    ensures r == cap || r < 2 * need
    decreases need - cap
  {
    if cap >= need then cap else Grow(2 * cap, need)
  }

  function Feed(st: State, data: seq<Byte>): (State, bool) {
    if st.bad then (st, false)
    else
      var n := Min(st.skip, |data|);
      var need := |st.pending| + |data| - n;
      if need > BUFFER_LIMIT then (st.(skip := st.skip - n, bad := true), false)
      else
        var cap := if need <= st.cap then st.cap
                   else Grow(if st.cap == 0 then FIRST_CAPACITY else st.cap, need);
        (st.(skip := st.skip - n, pending := st.pending + data[n..], cap := cap), true)
  }

  /** Drops a header of `n` bytes and as much of its `len` byte payload as is buffered. */
  function Discard(st: State, n: nat, len: nat): State
    requires n <= |st.pending|
  {
    var drop := Min(|st.pending| - n, len);
    st.(pending := st.pending[n + drop..], skip := len - drop, dropped := true)
  }

  /** One pop: the new state, the frame if one is complete, and how many
      oversized frames were discarded on the way. */
  datatype Popped = Popped(state: State, frame: Option<Frame>, lost: nat)

  function Pop(w: Wire, st: State): (r: Popped)
    ensures r.frame.Some? ==> |r.state.pending| < |st.pending|
    ensures |r.state.pending| <= |st.pending|
    decreases |st.pending|
  {
    if st.bad || st.skip > 0 then Popped(st, None, 0)
    else match DecodeHeader(w, st.pending)
      case Incomplete => Popped(st, None, 0)
      case Malformed => Popped(st.(bad := true), None, 0)
      case Header(f, n, len) =>
        if len > MAX_FRAME then
          var r := Pop(w, Discard(st, n, len));
          r.(lost := r.lost + 1)
        else if |st.pending| < n + len then Popped(st, None, 0)
        else Popped(st.(pending := st.pending[n + len..]), Some(Frame(f, st.pending[n..n + len])), 0)
  }

  /** Pops until nothing more comes out: the frames, the state left, and the losses. */
  datatype Drained = Drained(state: State, frames: seq<Frame>, lost: nat)

  function Drain(w: Wire, st: State): Drained
    decreases |st.pending|
  {
    var p := Pop(w, st);
    if p.frame.None? then Drained(p.state, [], p.lost)
    else
      var d := Drain(w, p.state);
      Drained(d.state, [p.frame.value] + d.frames, p.lost + d.lost)
  }

  // ---------------------------------------------------------------------------
  // Runs: any sequence of the three operations a client may call
  // ---------------------------------------------------------------------------

  datatype Op = FeedOp(data: seq<Byte>) | NextOp | TakeDroppedOp

  /** `fed` collects every byte handed to a feed, also a refused one. `overflowed`
      records that a feed ran into the buffer limit. */
  datatype History = History(
    state: State,
    fed: seq<Byte>,
    popped: seq<Frame>,
    lost: nat,
    lostSinceTake: nat,
    overflowed: bool)

  function Step(w: Wire, h: History, op: Op): History {
    match op
    case FeedOp(data) =>
      var (st, ok) := Feed(h.state, data);
      h.(state := st, fed := h.fed + data, overflowed := h.overflowed || (st.bad && !h.state.bad))
    case NextOp =>
      var p := Pop(w, h.state);
      h.(state := p.state,
         popped := h.popped + AsSeq(p.frame),
         lost := h.lost + p.lost,
         lostSinceTake := h.lostSinceTake + p.lost)
    case TakeDroppedOp =>
      h.(state := h.state.(dropped := false), lostSinceTake := 0)
  }

  function Run(w: Wire, ops: seq<Op>): History {
    if ops == [] then History(Init, [], [], 0, 0, false)
    else Step(w, Run(w, ops[..|ops| - 1]), ops[|ops| - 1])
  }

  // ---------------------------------------------------------------------------
  // The invariant: what the machine has yet to say about any continuation `u`
  // ---------------------------------------------------------------------------

  function Residual(st: State, u: seq<Byte>): seq<Byte> {
    if st.skip > 0 then u[Min(st.skip, |u|)..] else st.pending + u
  }

  /** While an oversized tail is being skipped nothing is buffered. */
  predicate Sound(st: State) {
    && (st.skip > 0 ==> st.pending == [])
    && |st.pending| <= st.cap
    && |st.pending| <= BUFFER_LIMIT
  }

  /** All `a` means is: the frames `fs`, `lost` oversized ones, then what `b` means. */
  predicate Ahead(w: Wire, a: seq<Byte>, fs: seq<Frame>, lost: nat, b: seq<Byte>) {
    && OneShot(w, a) == fs + OneShot(w, b)
    && Oversized(w, a) == lost + Oversized(w, b)
    && Broken(w, a) == Broken(w, b)
  }

  lemma AheadSelf(w: Wire, a: seq<Byte>)
    ensures Ahead(w, a, [], 0, a)
  {
  }

  lemma AheadTrans(w: Wire, a: seq<Byte>, fs: seq<Frame>, k: nat, b: seq<Byte>, gs: seq<Frame>, m: nat, c: seq<Byte>)
    requires Ahead(w, a, fs, k, b) && Ahead(w, b, gs, m, c)
    ensures Ahead(w, a, fs + gs, k + m, c)
  {
    assert fs + (gs + OneShot(w, c)) == (fs + gs) + OneShot(w, c);
  }

  lemma FramesUnfold(w: Wire, s: seq<Byte>)
    requires DecodeHeader(w, s).Header?
    ensures var hd := DecodeHeader(w, s);
            var end := hd.size + hd.length;
            Frames(w, s) == if |s| < end then []
                            else [Frame(hd.flag, s[hd.size..end])] + Frames(w, s[end..])
  {
    hide DecodeHeader;
  }

  lemma LossesUnfold(w: Wire, s: seq<Byte>)
    requires DecodeHeader(w, s).Header?
    ensures var hd := DecodeHeader(w, s);
            var end := hd.size + hd.length;
            && Oversized(w, s) == (if hd.length > MAX_FRAME then 1 else 0)
                                  + (if |s| < end then 0 else Oversized(w, s[end..]))
            && Broken(w, s) == (|s| >= end && Broken(w, s[end..]))
  {
    hide DecodeHeader;
  }

  lemma EmptyMeansNothing(w: Wire)
    ensures Frames(w, []) == [] && Oversized(w, []) == 0 && !Broken(w, [])
    ensures Deliverable([]) == []
  {
  }

  lemma DeliverableCons(f: Frame, rest: seq<Frame>)
    ensures Deliverable([f] + rest) == (if Fits(f) then [f] else []) + Deliverable(rest)
  {
    assert ([f] + rest)[1..] == rest;
  }

  /** A complete frame within the limit comes off the front of what `s` means. */
  lemma FrameAhead(w: Wire, s: seq<Byte>)
    requires var hd := DecodeHeader(w, s); hd.Header? && hd.length <= MAX_FRAME && |s| >= hd.size + hd.length
    ensures var hd := DecodeHeader(w, s);
            var end := hd.size + hd.length;
            Ahead(w, s, [Frame(hd.flag, s[hd.size..end])], 0, s[end..])
  {
    hide DecodeHeader, Frames, Oversized, Broken, Deliverable;
    var hd := DecodeHeader(w, s);
    var end := hd.size + hd.length;
    FramesUnfold(w, s);
    LossesUnfold(w, s);
    DeliverableCons(Frame(hd.flag, s[hd.size..end]), Frames(w, s[end..]));
  }

  /** The part of `s` after its first frame, empty while that frame is incomplete. */
  function AfterFirst(w: Wire, s: seq<Byte>): seq<Byte>
    requires DecodeHeader(w, s).Header?
  {
    var hd := DecodeHeader(w, s);
    if |s| >= hd.size + hd.length then s[hd.size + hd.length..] else []
  }

  /** An oversized frame contributes nothing but its loss, complete or not. */
  lemma OversizedAhead(w: Wire, s: seq<Byte>)
    requires DecodeHeader(w, s).Header? && DecodeHeader(w, s).length > MAX_FRAME
    ensures Ahead(w, s, [], 1, AfterFirst(w, s))
  {
    hide DecodeHeader, Frames, Oversized, Broken, Deliverable;
    var hd := DecodeHeader(w, s);
    var end := hd.size + hd.length;
    FramesUnfold(w, s);
    LossesUnfold(w, s);
    EmptyMeansNothing(w);
    if |s| >= end {
      DeliverableCons(Frame(hd.flag, s[hd.size..end]), Frames(w, s[end..]));
    }
  }

  lemma MalformedSaysNothing(w: Wire, s: seq<Byte>, u: seq<Byte>)
    requires DecodeHeader(w, s).Malformed?
    ensures Ahead(w, s + u, [], 0, s)
  {
    HeaderIsStable(w, s, u);
  }

  // ---------------------------------------------------------------------------
  // Every operation keeps the machine in step with the stream
  // ---------------------------------------------------------------------------

  lemma FeedResidual(st: State, data: seq<Byte>, u: seq<Byte>)
    requires Sound(st) && Feed(st, data).1
    ensures Residual(Feed(st, data).0, u) == Residual(st, data + u)
  {
    var n := Min(st.skip, |data|);
    if st.skip == 0 {
      assert (st.pending + data) + u == st.pending + (data + u);
    } else if st.skip > |data| {
      assert Residual(st, data + u) == u[Min(st.skip - n, |u|)..];
    }
  }

  /** A feed answers whether the stream can go on, and accepts all that fits. */
  lemma FeedAnswers(st: State, data: seq<Byte>)
    ensures Feed(st, data).1 <==> !Feed(st, data).0.bad
    ensures !st.bad && |st.pending| + |data| <= BUFFER_LIMIT ==> Feed(st, data).1
  {
  }

  lemma FeedIsSound(st: State, data: seq<Byte>)
    requires Sound(st)
    ensures Sound(Feed(st, data).0)
  {
  }

  lemma CutAcross(p: seq<Byte>, u: seq<Byte>, end: nat)
    ensures end <= |p| ==> (p + u)[end..] == p[end..] + u
    ensures |p| <= end <= |p + u| ==> (p + u)[end..] == u[end - |p|..]
    ensures end >= |p + u| ==> u[Min(end - |p|, |u|)..] == []
  {
  }

  lemma DiscardResidual(w: Wire, st: State, u: seq<Byte>)
    requires st.skip == 0 && DecodeHeader(w, st.pending).Header?
    requires DecodeHeader(w, st.pending + u) == DecodeHeader(w, st.pending)
    ensures var hd := DecodeHeader(w, st.pending);
            Residual(Discard(st, hd.size, hd.length), u) == AfterFirst(w, st.pending + u)
  {
    var hd := DecodeHeader(w, st.pending);
    CutAcross(st.pending, u, hd.size + hd.length);
  }

  lemma DiscardKeepsTrack(w: Wire, st: State, u: seq<Byte>)
    requires st.skip == 0
    requires DecodeHeader(w, st.pending).Header? && DecodeHeader(w, st.pending).length > MAX_FRAME
    ensures var hd := DecodeHeader(w, st.pending);
            Ahead(w, Residual(st, u), [], 1, Residual(Discard(st, hd.size, hd.length), u))
  {
    HeaderIsStable(w, st.pending, u);
    DiscardResidual(w, st, u);
    OversizedAhead(w, st.pending + u);
  }

  lemma TakeKeepsTrack(w: Wire, st: State, u: seq<Byte>)
    requires st.skip == 0
    requires var hd := DecodeHeader(w, st.pending);
             hd.Header? && hd.length <= MAX_FRAME && |st.pending| >= hd.size + hd.length
    ensures var hd := DecodeHeader(w, st.pending);
            var end := hd.size + hd.length;
            Ahead(w, Residual(st, u), [Frame(hd.flag, st.pending[hd.size..end])], 0,
                  Residual(st.(pending := st.pending[end..]), u))
  {
    hide DecodeHeader, Frames, Oversized, Broken, Deliverable;
    HeaderIsStable(w, st.pending, u);
    FrameAhead(w, st.pending + u);
    var hd := DecodeHeader(w, st.pending);
    var end := hd.size + hd.length;
    assert (st.pending + u)[end..] == st.pending[end..] + u;
    assert (st.pending + u)[hd.size..end] == st.pending[hd.size..end];
  }

  function AsSeq<T>(o: Option<T>): seq<T> {
    if o.Some? then [o.value] else []
  }

  lemma {:induction false} PopKeepsTrack(w: Wire, st: State, u: seq<Byte>)
    ensures var p := Pop(w, st);
            Ahead(w, Residual(st, u), AsSeq(p.frame), p.lost, Residual(p.state, u))
    decreases |st.pending|
  {
    hide DecodeHeader, Frames, Oversized, Broken, Deliverable;
    var hd := DecodeHeader(w, st.pending);
    var p := Pop(w, st);
    if st.bad || st.skip > 0 || !hd.Header? {
      AheadSelf(w, Residual(st, u));
    } else if hd.length > MAX_FRAME {
      PopAfterDiscard(w, st, hd);
      var next := Discard(st, hd.size, hd.length);
      DiscardKeepsTrack(w, st, u);
      PopKeepsTrack(w, next, u);
      AheadTrans(w, Residual(st, u), [], 1, Residual(next, u), AsSeq(p.frame), p.lost - 1, Residual(p.state, u));
      assert [] + AsSeq(p.frame) == AsSeq(p.frame);
    } else if |st.pending| >= hd.size + hd.length {
      TakeKeepsTrack(w, st, u);
    } else {
      AheadSelf(w, Residual(st, u));
    }
  }

  lemma PopAfterDiscard(w: Wire, st: State, hd: Header)
    requires !st.bad && st.skip == 0
    requires hd == DecodeHeader(w, st.pending) && hd.Header? && hd.length > MAX_FRAME
    ensures var p := Pop(w, st);
            var q := Pop(w, Discard(st, hd.size, hd.length));
            p.state == q.state && p.frame == q.frame && p.lost == q.lost + 1
  {
  }

  lemma {:induction false} PopIsSound(w: Wire, st: State)
    requires Sound(st)
    ensures var p := Pop(w, st);
            && Sound(p.state)
            && (p.state.bad && !st.bad ==> p.state.skip == 0 && DecodeHeader(w, p.state.pending).Malformed?)
            && (st.bad ==> p == Popped(st, None, 0))
            && p.state.dropped == (st.dropped || p.lost > 0)
            && p.state.cap == st.cap
    decreases |st.pending|
  {
    if !st.bad && st.skip == 0 {
      var hd := DecodeHeader(w, st.pending);
      if hd.Header? && hd.length > MAX_FRAME {
        PopIsSound(w, Discard(st, hd.size, hd.length));
      }
    }
  }

  // ---------------------------------------------------------------------------
  // Runs
  // ---------------------------------------------------------------------------

  predicate Tracks(w: Wire, h: History, u: seq<Byte>) {
    && Sound(h.state)
    && (h.overflowed ==> h.state.bad && h.popped <= OneShot(w, h.fed + u) && h.lost <= Oversized(w, h.fed + u))
    && (!h.overflowed ==> Ahead(w, h.fed + u, h.popped, h.lost, Residual(h.state, u)))
    && (!h.overflowed && h.state.bad ==> h.state.skip == 0 && DecodeHeader(w, h.state.pending).Malformed?)
  }

  lemma FeedKeepsTrack(w: Wire, h: History, data: seq<Byte>, u: seq<Byte>)
    requires Tracks(w, h, data + u)
    ensures Tracks(w, Step(w, h, FeedOp(data)), u)
  {
    var st := h.state;
    assert (h.fed + data) + u == h.fed + (data + u);
    FeedIsSound(st, data);
    if st.bad {
      if !h.overflowed {
        MalformedSaysNothing(w, st.pending, u);
        MalformedSaysNothing(w, st.pending, data + u);
      }
    } else if Feed(st, data).1 {
      FeedResidual(st, data, u);
    }
  }

  lemma PopStepKeepsTrack(w: Wire, h: History, u: seq<Byte>)
    requires Tracks(w, h, u)
    ensures Tracks(w, Step(w, h, NextOp), u)
  {
    PopIsSound(w, h.state);
    if !h.overflowed {
      var p := Pop(w, h.state);
      PopKeepsTrack(w, h.state, u);
      AheadTrans(w, h.fed + u, h.popped, h.lost, Residual(h.state, u), AsSeq(p.frame), p.lost, Residual(p.state, u));
    }
  }

  lemma {:induction false} RunKeepsTrack(w: Wire, ops: seq<Op>, u: seq<Byte>)
    ensures Tracks(w, Run(w, ops), u)
    decreases |ops|
  {
    if ops == [] {
      assert [] + u == u;
      AheadSelf(w, u);
    } else {
      var op := ops[|ops| - 1];
      var before := ops[..|ops| - 1];
      match op
      case FeedOp(data) =>
        RunKeepsTrack(w, before, data + u);
        FeedKeepsTrack(w, Run(w, before), data, u);
      case NextOp =>
        RunKeepsTrack(w, before, u);
        PopStepKeepsTrack(w, Run(w, before), u);
      case TakeDroppedOp =>
        RunKeepsTrack(w, before, u);
        var st := Run(w, before).state;
        assert Residual(st.(dropped := false), u) == Residual(st, u);
    }
  }

  lemma {:induction false} DrainKeepsTrack(w: Wire, st: State, u: seq<Byte>)
    ensures var d := Drain(w, st);
            Ahead(w, Residual(st, u), d.frames, d.lost, Residual(d.state, u))
    decreases |st.pending|
  {
    var p := Pop(w, st);
    PopKeepsTrack(w, st, u);
    if p.frame.Some? {
      DrainKeepsTrack(w, p.state, u);
      var d := Drain(w, p.state);
      AheadTrans(w, Residual(st, u), AsSeq(p.frame), p.lost, Residual(p.state, u),
                 d.frames, d.lost, Residual(d.state, u));
    }
  }

  /** Where a pop gives nothing, nothing complete is left to give. */
  predicate Exhausted(w: Wire, st: State) {
    st.bad || st.skip > 0 ||
    var hd := DecodeHeader(w, st.pending);
    hd.Incomplete? || (hd.Header? && hd.length <= MAX_FRAME && |st.pending| < hd.size + hd.length)
  }

  lemma {:induction false} PopExhausts(w: Wire, st: State)
    ensures Pop(w, st).frame.None? ==> Exhausted(w, Pop(w, st).state)
    decreases |st.pending|
  {
    var hd := DecodeHeader(w, st.pending);
    if !st.bad && st.skip == 0 && hd.Header? && hd.length > MAX_FRAME {
      PopExhausts(w, Discard(st, hd.size, hd.length));
    }
  }

  lemma {:induction false} DrainIsSound(w: Wire, st: State)
    requires Sound(st)
    ensures var d := Drain(w, st);
            && Sound(d.state) && Exhausted(w, d.state)
            && (d.state.bad && !st.bad ==> d.state.skip == 0 && DecodeHeader(w, d.state.pending).Malformed?)
            && (st.bad ==> d == Drained(st, [], 0))
    decreases |st.pending|
  {
    PopIsSound(w, st);
    PopExhausts(w, st);
    if Pop(w, st).frame.Some? {
      DrainIsSound(w, Pop(w, st).state);
    }
  }

  lemma ExhaustedMeansNothing(w: Wire, st: State)
    requires Sound(st) && Exhausted(w, st)
    requires st.bad ==> st.skip == 0 && DecodeHeader(w, st.pending).Malformed?
    ensures var left := Residual(st, []);
            OneShot(w, left) == [] && Oversized(w, left) == 0 && (Broken(w, left) <==> st.bad)
  {
    assert st.pending + [] == st.pending;
  }

  /** Main result. Whatever way the stream is cut and however feeds and pops
      interleave, the frames popped so far and those that still come out are the
      one-shot parse of everything fed, no loss is missed or counted twice, and the
      parser ends poisoned exactly when the stream holds a malformed header. */
  lemma StreamLaw(w: Wire, ops: seq<Op>)
    ensures var h := Run(w, ops);
            var d := Drain(w, h.state);
            !h.overflowed ==>
              && h.popped + d.frames == OneShot(w, h.fed)
              && h.lost + d.lost == Oversized(w, h.fed)
              && (d.state.bad <==> Broken(w, h.fed))
  {
    var h := Run(w, ops);
    RunKeepsTrack(w, ops, []);
    if !h.overflowed {
      assert h.fed + [] == h.fed;
      DrainKeepsTrack(w, h.state, []);
      DrainIsSound(w, h.state);
      var d := Drain(w, h.state);
      ExhaustedMeansNothing(w, d.state);
      AheadTrans(w, h.fed, h.popped, h.lost, Residual(h.state, []), d.frames, d.lost, Residual(d.state, []));
    }
  }

  /** Even a poisoned parser never pops anything the stream does not contain, in its order. */
  lemma PrefixLaw(w: Wire, ops: seq<Op>, u: seq<Byte>)
    ensures var h := Run(w, ops);
            && h.popped <= OneShot(w, h.fed + u)
            && h.lost <= Oversized(w, h.fed + u)
  {
    RunKeepsTrack(w, ops, u);
  }

  /** `dropped` is set exactly when an oversized frame was discarded since it was last taken. */
  lemma {:induction false} DroppedLaw(w: Wire, ops: seq<Op>)
    ensures var h := Run(w, ops); h.state.dropped <==> h.lostSinceTake > 0
    decreases |ops|
  {
    if ops != [] {
      var before := ops[..|ops| - 1];
      DroppedLaw(w, before);
      RunKeepsTrack(w, before, []);
      PopIsSound(w, Run(w, before).state);
    }
  }
}
