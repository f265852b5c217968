/**
  The store stream from end to end: every chunk that arrives goes through the
  parser's callback, and what the callback hands on, reports and answers in all is
  what the bytes say.
*/
module StoreStreams {
  import opened Bytes
  import opened Framing
  import opened FrameSessions
  import opened FrameParsers

  lemma {:induction false} DrainReportsLosses(w: Wire, st: State)
    requires Sound(st)
    ensures Drain(w, st).state.dropped == (st.dropped || Drain(w, st).lost > 0)
    decreases |st.pending|
  {
    PopIsSound(w, st);
    var p := Pop(w, st);
    if p.frame.Some? {
      DrainReportsLosses(w, p.state);
    }
  }

  lemma {:induction false} MessagesOfConcat(fs: seq<Frame>, gs: seq<Frame>)
    ensures Messages(fs + gs) == Messages(fs) + Messages(gs)
  {
    if fs == [] {
      assert fs + gs == gs;
    } else {
      assert (fs + gs)[1..] == fs[1..] + gs;
      MessagesOfConcat(fs[1..], gs);
    }
  }

  /** One more chunk of a served stream. */
  lemma OneMoreChunk(chunks: seq<seq<Byte>>, i: nat)
    requires i < |chunks| && forall c :: c in chunks ==> |c| <= MaxChunk(GrpcWeb)
    ensures var h := Serve(GrpcWeb, chunks[..i]);
            var (st, fed) := Feed(h.state, chunks[i]);
            var d := Drain(GrpcWeb, st);
            var after := Serve(GrpcWeb, chunks[..i + 1]);
            && fed && !d.state.bad && after.state == d.state.(dropped := false)
            && Messages(after.popped) == Messages(h.popped) + Messages(d.frames)
            && (d.state.dropped <==> after.lost > h.lost)
  {
    hide Messages, Drain, DecodeHeader;
    var before := chunks[..i];
    assert chunks[..i + 1][..i] == before && chunks[..i + 1][i] == chunks[i];
    var h := Serve(GrpcWeb, before);
    ServeKeepsTrack(GrpcWeb, before, []);
    ServeKeepsTrack(GrpcWeb, chunks[..i + 1], []);
    GrpcWebIsNeverPoisoned(before);
    GrpcWebIsNeverPoisoned(chunks[..i + 1]);
    ChunkFits(GrpcWeb, h, chunks[i]);
    FeedAnswers(h.state, chunks[i]);
    var st := Feed(h.state, chunks[i]).0;
    FeedIsSound(h.state, chunks[i]);
    NothingDropped(before);
    DrainReportsLosses(GrpcWeb, st);
    MessagesOfConcat(h.popped, Drain(GrpcWeb, st).frames);
  }

  lemma NothingDropped(chunks: seq<seq<Byte>>)
    ensures !Serve(GrpcWeb, chunks).state.dropped
  {
  }

  /** The client's side of a stream whose transport never hands over more than `MaxChunk`
      bytes at once. No callback refuses to go on; the messages handed on are the payloads
      of all data frames that fit, in order; and a loss is reported with just those chunks
      that disclosed an oversized frame. */
  method ServeStream(chunks: seq<seq<Byte>>) returns (messages: seq<seq<Byte>>, losses: seq<bool>, ok: bool)
    requires forall c :: c in chunks ==> |c| <= MaxChunk(GrpcWeb)
    ensures ok && messages == Messages(OneShot(GrpcWeb, Concat(chunks)))
    ensures |losses| == |chunks|
    ensures forall i :: 0 <= i < |chunks| ==>
              (losses[i] <==> Oversized(GrpcWeb, Concat(chunks[..i + 1])) > Oversized(GrpcWeb, Concat(chunks[..i])))
  {
    hide Messages, Drain, Feed, Serve, Concat, OneShot, Oversized;
    var parser := new FrameParser(GrpcWeb);
    messages, losses, ok := [], [], true;
    ServedNothing();
    assert chunks[..0] == [];
    for i := 0 to |chunks|
      invariant parser.Valid() && parser.wire == GrpcWeb && fresh(parser) && fresh(parser.buf)
      invariant ok && |losses| == i
      invariant parser.View() == Serve(GrpcWeb, chunks[..i]).state
      invariant messages == Messages(Serve(GrpcWeb, chunks[..i]).popped)
      invariant forall j :: 0 <= j < i ==>
                  (losses[j] <==> Serve(GrpcWeb, chunks[..j + 1]).lost > Serve(GrpcWeb, chunks[..j]).lost)
    {
      OneMoreChunk(chunks, i);
      var some, lost;
      ok, some, lost := parser.OnChunk(chunks[i]);
      messages := messages + some;
      losses := losses + [lost];
      if !ok {
        return;
      }
    }
    assert chunks[..|chunks|] == chunks;
    PromptLaw(GrpcWeb, chunks);
    forall i | 0 <= i <= |chunks|
      ensures Serve(GrpcWeb, chunks[..i]).lost == Oversized(GrpcWeb, Concat(chunks[..i]))
    {
      PromptLaw(GrpcWeb, chunks[..i]);
    }
  }

  lemma ServedNothing()
    ensures Serve(GrpcWeb, []).state == Init && Serve(GrpcWeb, []).popped == [] && Messages([]) == []
  {
  }

  // ---------------------------------------------------------------------------
  // What a server sends
  // ---------------------------------------------------------------------------

  const DATA: Byte := 0
  const TRAILER: Byte := 0x80

  function DataFrames(payloads: seq<seq<Byte>>): seq<Frame> {
    if payloads == [] then [] else [Frame(DATA, payloads[0])] + DataFrames(payloads[1..])
  }

  /** The payloads a client can hold. */
  function Short(payloads: seq<seq<Byte>>): seq<seq<Byte>> {
    if payloads == [] then []
    else (if |payloads[0]| <= MAX_FRAME then [payloads[0]] else []) + Short(payloads[1..])
  }

  lemma {:induction false} DeliverableConcat(fs: seq<Frame>, gs: seq<Frame>)
    ensures Deliverable(fs + gs) == Deliverable(fs) + Deliverable(gs)
  {
    if fs == [] {
      assert fs + gs == gs;
    } else {
      assert (fs + gs)[1..] == fs[1..] + gs;
      DeliverableConcat(fs[1..], gs);
      var first := if Fits(fs[0]) then [fs[0]] else [];
      hide Fits;
      assert first + (Deliverable(fs[1..]) + Deliverable(gs)) == first + Deliverable(fs[1..]) + Deliverable(gs);
    }
  }

  lemma {:induction false} MessagesOfData(payloads: seq<seq<Byte>>)
    ensures Messages(Deliverable(DataFrames(payloads))) == Short(payloads)
    ensures forall f :: f in DataFrames(payloads) ==> f.payload in payloads
  {
    if payloads != [] {
      var first := [Frame(DATA, payloads[0])];
      assert (first + DataFrames(payloads[1..]))[1..] == DataFrames(payloads[1..]);
      MessagesOfData(payloads[1..]);
      MessagesOfConcat(if |payloads[0]| <= MAX_FRAME then first else [], Deliverable(DataFrames(payloads[1..])));
      assert first[1..] == [];
    }
  }

  /** A server sends messages and a trailer at the end. However the bytes are cut, what
      the client hands on is every message it can hold, in order, and not the trailer. */
  lemma MessagesArrive(payloads: seq<seq<Byte>>, trailer: seq<Byte>, chunks: seq<seq<Byte>>)
    requires |trailer| < TWO_32 && forall p :: p in payloads ==> |p| < TWO_32
    requires Concat(chunks) == EncodeAll(GrpcWeb, DataFrames(payloads) + [Frame(TRAILER, trailer)])
    ensures Messages(OneShot(GrpcWeb, Concat(chunks))) == Short(payloads)
  {
    hide Deliverable, Frames, EncodeAll, Short;
    var last := [Frame(TRAILER, trailer)];
    var fs := DataFrames(payloads) + last;
    MessagesOfData(payloads);
    RoundTrip(GrpcWeb, fs);
    DeliverableConcat(DataFrames(payloads), last);
    MessagesOfConcat(Deliverable(DataFrames(payloads)), Deliverable(last));
    TrailerIsSilent(last[0]);
  }

  lemma TrailerIsSilent(f: Frame)
    requires f.flag == TRAILER
    ensures Messages(Deliverable([f])) == []
  {
    assert [f][1..] == [];
  }
}
