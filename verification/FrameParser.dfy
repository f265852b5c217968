/**
  The incremental parser as the C clients implement it: one buffer updated in
  place, compacted on every feed and grown by doubling. Each operation is proved
  to be the corresponding operation of the abstract machine in `Framing`.
*/
module FrameParsers {
  import opened Wrappers
  import opened Bytes
  import opened Framing

  lemma PopTakes(w: Wire, st: State, hd: Header)
    requires !st.bad && st.skip == 0
    requires hd == DecodeHeader(w, st.pending) && hd.Header? && hd.length <= MAX_FRAME
    requires hd.size + hd.length <= |st.pending|
    ensures var end := hd.size + hd.length;
            Pop(w, st) == Popped(st.(pending := st.pending[end..]), Some(Frame(hd.flag, st.pending[hd.size..end])), 0)
  {
  }

  lemma PopStopped(w: Wire, st: State)
    requires st.bad || st.skip > 0
    ensures Pop(w, st) == Popped(st, None, 0)
  {
  }

  lemma PopWaits(w: Wire, st: State, hd: Header)
    requires !st.bad && st.skip == 0 && hd == DecodeHeader(w, st.pending)
    requires hd.Header? ==> hd.length <= MAX_FRAME && |st.pending| < hd.size + hd.length
    ensures Pop(w, st) == Popped(if hd.Malformed? then st.(bad := true) else st, None, 0)
  {
  }

  lemma LengthUnfolds(limit: nat, s: seq<Byte>, n: nat, unit: nat, acc: nat)
    requires n < |s| && n < MAX_VARINT_BYTES
    ensures var part := Digit(s[n], unit);
            DecodeLength(limit, s[n..], n, unit, acc)
            == if part >= limit then Overlong
               else if s[n] < 128 then Length(n + 1, acc + part)
               else DecodeLength(limit, s[n + 1..], n + 1, 128 * unit, acc + part)
  {
    hide Digit;
    assert s[n..][0] == s[n] && s[n..][1..] == s[n + 1..];
  }

  lemma LengthStops(limit: nat, s: seq<Byte>, n: nat, unit: nat, acc: nat)
    ensures n >= MAX_VARINT_BYTES ==> DecodeLength(limit, s, n, unit, acc).Overlong?
    ensures n < MAX_VARINT_BYTES && s == [] ==> DecodeLength(limit, s, n, unit, acc).More?
  {
  }

  predicate IsTrailer(flag: Byte) {
    flag >= 0x80
  }

  /** The payloads of the data frames among `fs`. */
  function Messages(fs: seq<Frame>): seq<seq<Byte>> {
    if fs == [] then []
    else (if IsTrailer(fs[0].flag) then [] else [fs[0].payload]) + Messages(fs[1..])
  }

  lemma {:induction false} MessagesOfOneMore(fs: seq<Frame>, f: Frame)
    ensures Messages(fs + [f]) == Messages(fs) + (if IsTrailer(f.flag) then [] else [f.payload])
  {
    if fs == [] {
      assert [f][1..] == [];
    } else {
      assert (fs + [f])[1..] == fs[1..] + [f];
      MessagesOfOneMore(fs[1..], f);
    }
  }

  lemma MessagesOfNone()
    ensures Messages([]) == []
  {
  }

  lemma DrainUnfolds(w: Wire, st: State)
    ensures var p := Pop(w, st);
            Drain(w, st) == if p.frame.None? then Drained(p.state, [], p.lost)
                            else var d := Drain(w, p.state);
                              Drained(d.state, [p.frame.value] + d.frames, p.lost + d.lost)
    ensures Pop(w, st).frame.Some? ==> |Pop(w, st).state.pending| < |st.pending|
  {
  }

  /** One more pop of a drain of which `seen` has come out. */
  lemma DrainGoesOn(w: Wire, st: State, seen: seq<Frame>, all: Drained)
    requires seen + Drain(w, st).frames == all.frames && Drain(w, st).state == all.state
    ensures var p := Pop(w, st);
            if p.frame.None? then seen == all.frames && p.state == all.state
            else
              && |p.state.pending| < |st.pending|
              && (seen + [p.frame.value]) + Drain(w, p.state).frames == all.frames
              && Drain(w, p.state).state == all.state
  {
    hide Pop, Drain;
    DrainUnfolds(w, st);
    assert seen + [] == seen;
  }

  class FrameParser {
    const wire: Wire
    var buf: array<Byte>
    var len: nat
    var pos: nat
    var cap: nat
    var skip: nat
    var dropped: bool
    var bad: bool

    ghost predicate Valid()
      reads this
    {
      && pos <= len <= cap == buf.Length
      && (skip > 0 ==> pos == len)
    }

    /** The abstract state: what is buffered and not yet consumed. */
    ghost function View(): State
      requires Valid()
      reads this, buf
    {
      State(skip, buf[pos..len], cap, dropped, bad)
    }

    constructor (wire: Wire)
      ensures Valid() && fresh(buf)
      ensures this.wire == wire && View() == Init
    {
      this.wire := wire;
      buf := new Byte[0];
      len, pos, cap, skip := 0, 0, 0, 0;
      dropped, bad := false, false;
    }

    /** Moves the unconsumed bytes to the front of the buffer. */
    method Compact()
      requires Valid()
      modifies this`len, this`pos, buf
      ensures Valid() && pos == 0
      ensures View() == old(View())
    {
      if pos > 0 {
        forall i | 0 <= i < len - pos {
          buf[i] := buf[pos + i];
        }
        len := len - pos;
        pos := 0;
      }
    }

    /** Makes room for `need` bytes, doubling the capacity as often as it takes. */
    method Reserve(need: nat)
      requires Valid()
      modifies this`buf, this`cap
      ensures Valid() && (buf == old(buf) || fresh(buf))
      ensures cap >= need
      ensures cap == if need <= old(cap) then old(cap)
                     else Grow(if old(cap) == 0 then FIRST_CAPACITY else old(cap), need)
      ensures buf[..len] == old(buf[..len])
    {
      if need > cap {
        var larger := if cap == 0 then FIRST_CAPACITY else cap;
        while larger < need
          invariant larger > 0
          invariant larger >= cap
          invariant Grow(larger, need) == Grow(if cap == 0 then FIRST_CAPACITY else cap, need)
          decreases need - larger
        {
          larger := 2 * larger;
        }
        var moved := new Byte[larger];
        forall i | 0 <= i < len {
          moved[i] := buf[i];
        }
        buf := moved;
        cap := larger;
      }
    }

    /** Copies `data[from..]` behind what is buffered. */
    method Append(data: seq<Byte>, from: nat)
      requires Valid() && pos == 0 && from <= |data|
      requires skip > 0 ==> from == |data|
      modifies this`buf, this`len, this`cap, buf
      ensures Valid() && (buf == old(buf) || fresh(buf))
      ensures pos == 0 && buf[..len] == old(buf[..len]) + data[from..]
      ensures var need := old(len) + |data| - from;
              cap == if need <= old(cap) then old(cap)
                     else Grow(if old(cap) == 0 then FIRST_CAPACITY else old(cap), need)
    {
      var n := |data| - from;
      Reserve(len + n);
      forall i | 0 <= i < n {
        buf[len + i] := data[from + i];
      }
      len := len + n;
    }

    method Feed(data: seq<Byte>) returns (ok: bool)
      requires Valid()
      modifies this`buf, this`len, this`pos, this`cap, this`skip, this`bad, buf
      ensures Valid() && (buf == old(buf) || fresh(buf))
      ensures (View(), ok) == Framing.Feed(old(View()), data)
    {
      hide Grow;
      if bad {
        return false;
      }
      var from := if skip < |data| then skip else |data|;
      skip := skip - from;
      Compact();
      if len + (|data| - from) > BUFFER_LIMIT {
        bad := true;
        return false;
      }
      assert buf[pos..len] == buf[..len];
      Append(data, from);
      assert buf[pos..len] == buf[..len];
      return true;
    }

    /** Reads the tcp-lite length behind the type byte, as far as it has arrived. */
    method ReadLength(limit: nat) returns (r: Length)
      requires Valid() && pos < len
      ensures r == DecodeLength(limit, buf[pos + 1..len], 0, 1, 0)
    {
      hide DecodeLength, Digit;
      ghost var s := buf[pos + 1..len];
      var value: nat, unit: nat, n: nat := 0, 1, 0;
      assert s[0..] == s;
      while n < MAX_VARINT_BYTES
        invariant n <= MAX_VARINT_BYTES && n <= |s|
        invariant DecodeLength(limit, s, 0, 1, 0) == DecodeLength(limit, s[n..], n, unit, value)
      {
        if pos + 1 + n >= len {
          LengthStops(limit, s[n..], n, unit, value);
          return More;
        }
        LengthUnfolds(limit, s, n, unit, value);
        var byte := buf[pos + 1 + n];
        var part := Digit(byte, unit);
        if part >= limit {
          return Overlong;
        }
        value := value + part;
        n := n + 1;
        if byte < 128 {
          return Length(n, value);
        }
        unit := 128 * unit;
      }
      LengthStops(limit, s[n..], n, unit, value);
      return Overlong;
    }

    /** Reads the header at `pos`, as far as it has arrived. */
    method PeekHeader() returns (hd: Header)
      requires Valid()
      ensures hd == DecodeHeader(wire, buf[pos..len])
    {
      if wire.GrpcWeb? {
        if len - pos < GRPC_HEADER {
          return Incomplete;
        }
        return Header(buf[pos], GRPC_HEADER,
                      BigEndian(buf[pos + 1], buf[pos + 2], buf[pos + 3], buf[pos + 4]));
      }
      if len - pos < 1 {
        return Incomplete;
      }
      var r := ReadLength(wire.sizeLimit);
      assert buf[pos..len][1..] == buf[pos + 1..len];
      match r
      case More => return Incomplete;
      case Overlong => return Malformed;
      case Length(n, v) => return Header(buf[pos], 1 + n, v);
    }

    /** Skips a header of `n` bytes and what is buffered of its oversized payload. */
    method DropOversized(n: nat, plen: nat)
      requires Valid() && skip == 0 && pos + n <= len
      modifies this`pos, this`skip, this`dropped
      ensures Valid() && View() == Discard(old(View()), n, plen)
      ensures pos >= old(pos) + n
    {
      var body := len - pos - n;
      var drop := if body < plen then body else plen;
      SliceOfSlice(buf[..], pos, len, n + drop, len - pos);
      pos := pos + n + drop;
      skip := plen - drop;
      dropped := true;
    }

    /** Hands out the complete frame at `pos` and moves past it. */
    method Take(hd: Header) returns (flag: Byte, at: nat, size: nat)
      requires Valid() && !bad && skip == 0
      requires hd == DecodeHeader(wire, View().pending) && hd.Header? && hd.length <= MAX_FRAME
      requires hd.size + hd.length <= len - pos
      modifies this`pos
      ensures Valid() && at + size <= len
      ensures var p := Pop(wire, old(View()));
              View() == p.state && p.frame == Some(Frame(flag, buf[at..at + size]))
    {
      PopTakes(wire, View(), hd);
      hide Pop, DecodeHeader;
      ghost var pending := View().pending;
      flag, at, size := hd.flag, pos + hd.size, hd.length;
      SliceOfSlice(buf[..], pos, len, hd.size, hd.size + hd.length);
      SliceOfSlice(buf[..], pos, len, hd.size + hd.length, len - pos);
      assert pending == buf[..][pos..len];
      assert pending[hd.size..hd.size + hd.length] == buf[at..at + size];
      assert pending[hd.size + hd.length..] == buf[at + size..len];
      pos := at + size;
    }

    /** Pops the next complete frame. The payload is handed out in place, as
        `buf[at..at + size]`; a pop leaves the buffer's bytes alone, so every payload
        handed out stays readable until the next feed. */
    method Next() returns (ok: bool, flag: Byte, at: nat, size: nat)
      requires Valid()
      modifies this`pos, this`skip, this`dropped, this`bad
      ensures Valid()
      ensures var p := Pop(wire, old(View()));
              && View() == p.state
              && ok == p.frame.Some?
              && (ok ==> at + size <= len && p.frame == Some(Frame(flag, buf[at..at + size])))
    {
      hide Pop, DecodeHeader, Discard;
      flag, at, size := 0, 0, 0;
      ghost var p := Pop(wire, View());
      while !bad && skip == 0
        invariant Valid()
        invariant Pop(wire, View()).state == p.state && Pop(wire, View()).frame == p.frame
        decreases len - pos
      {
        ghost var st := View();
        var hd := PeekHeader();
        if hd.Header? && hd.length > MAX_FRAME {
          DropOversized(hd.size, hd.length);
          PopAfterDiscard(wire, st, hd);
        } else if hd.Header? && hd.size + hd.length <= len - pos {
          flag, at, size := Take(hd);
          return true, flag, at, size;
        } else {
          PopWaits(wire, st, hd);
          bad := hd.Malformed?;
          return false, flag, at, size;
        }
      }
      PopStopped(wire, View());
      return false, flag, at, size;
    }

    method TakeDropped() returns (was: bool)
      requires Valid()
      modifies this`dropped
      ensures Valid() && was == old(dropped)
      ensures View() == old(View()).(dropped := false)
    {
      was := dropped;
      dropped := false;
    }

    /** Pops until nothing more comes out and collects the data payloads. */
    method DrainAll() returns (messages: seq<seq<Byte>>)
      requires Valid()
      modifies this`pos, this`skip, this`dropped, this`bad
      ensures Valid()
      ensures var d := Drain(wire, old(View()));
              messages == Messages(d.frames) && View() == d.state
    {
      hide Pop, Drain, Messages;
      ghost var d := Drain(wire, View());
      ghost var seen: seq<Frame> := [];
      messages := [];
      MessagesOfNone();
      while true
        invariant Valid()
        invariant messages == Messages(seen)
        invariant seen + Drain(wire, View()).frames == d.frames && Drain(wire, View()).state == d.state
        decreases len - pos
      {
        DrainGoesOn(wire, View(), seen, d);
        var more, flag, at, size := Next();
        if !more {
          break;
        }
        var payload := buf[at..at + size];
        MessagesOfOneMore(seen, Frame(flag, payload));
        seen := seen + [Frame(flag, payload)];
        if !IsTrailer(flag) {
          messages := messages + [payload];
        }
      }
    }

    /** The store stream's chunk callback: feeds the chunk, hands on the payload of
        every data frame in order, and reports a loss and whether to carry on. */
    method OnChunk(data: seq<Byte>) returns (ok: bool, messages: seq<seq<Byte>>, lost: bool)
      requires Valid() && wire.GrpcWeb?
      modifies this, buf
      ensures Valid() && (buf == old(buf) || fresh(buf))
      ensures var (st, fed) := Framing.Feed(old(View()), data);
              var d := Drain(wire, st);
              if !fed then !ok && !lost && messages == [] && View() == st
              else
                && messages == Messages(d.frames)
                && View() == d.state.(dropped := false)
                && lost == d.state.dropped
                && ok == !d.state.bad
    {
      hide Drain, Framing.Feed;
      var fed := Feed(data);
      if !fed {
        return false, [], false;
      }
      messages := DrainAll();
      lost := TakeDropped();
      ok := !bad;
    }
  }
}
