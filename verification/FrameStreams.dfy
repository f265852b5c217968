/**
  The registry of still pictures: a picture is retained when it is produced and
  emitted when its view opens, or at once if the registry knows the view to be
  open. What the registry knows comes from stack changes, which it follows only
  from its first picture on.
*/
module FrameStreams {
  import opened LowResChunks

  type StreamId = string

  /** A full-resolution frame event with its low-resolution companion. */
  datatype Emission = Emission(id: StreamId, picture: Frame, chunks: seq<Chunk>)

  /** What is on the view stack; only a render view has a stream. */
  datatype StackItem = RenderView(streamId: StreamId) | OtherView

  function OpenStreams(stack: seq<StackItem>): set<StreamId> {
    set item | item in stack && item.RenderView? && item.streamId != "" :: item.streamId
  }

  /** Open are just the streams of the render views that have one. */
  lemma OpenExactly(stack: seq<StackItem>, id: StreamId)
    ensures id in OpenStreams(stack) <==> id != "" && RenderView(id) in stack
  {
  }

  function EmissionOf(id: StreamId, f: Frame): Emission {
    Emission(id, f, Chunks(f))
  }

  /** An emission is of its stream, shows the picture in full, and in chunks that make up the
      whole of the reduced picture. */
  lemma EmissionShowsPicture(id: StreamId, f: Frame)
    ensures EmissionOf(id, f).id == id && EmissionOf(id, f).picture == f
    ensures Drawable(f) ==> Concat(EmissionOf(id, f).chunks) == Payload(f)
  {
    if Drawable(f) {
      ChunksRebuildPayload(f);
    }
  }

  function IdsOf(news: seq<Emission>): set<StreamId> {
    if news == [] then {} else IdsOf(news[..|news| - 1]) + {news[|news| - 1].id}
  }

  /** `news` are the pictures of exactly the views `ids`, one of each. */
  ghost predicate Announces(news: seq<Emission>, ids: set<StreamId>, stills: map<StreamId, Frame>) {
    && ids <= stills.Keys && IdsOf(news) == ids
    && (forall e :: e in news ==> e.id in ids && e == EmissionOf(e.id, stills[e.id]))
    && (forall i, j :: 0 <= i < j < |news| ==> news[i].id != news[j].id)
  }

  lemma NothingAnnounced(stills: map<StreamId, Frame>)
    ensures Announces([], {}, stills)
  {
  }

  lemma AnnouncesOneMore(news: seq<Emission>, ids: set<StreamId>, stills: map<StreamId, Frame>, id: StreamId)
    requires Announces(news, ids, stills) && id !in ids && id in stills
    ensures Announces(news + [EmissionOf(id, stills[id])], ids + {id}, stills)
  {
    var more := news + [EmissionOf(id, stills[id])];
    assert more[..|news|] == news;
    forall i, j | 0 <= i < j < |more| ensures more[i].id != more[j].id {
      assert more[i] in news;
    }
  }

  /** `since` after one more picture for each of `ids`, which had none. */
  function AfterSending(since: map<StreamId, seq<Frame>>, ids: set<StreamId>, stills: map<StreamId, Frame>)
    : map<StreamId, seq<Frame>>
    requires ids <= stills.Keys
  {
    map id | id in since :: if id in ids then [stills[id]] else since[id]
  }

  lemma SendingOneMore(since: map<StreamId, seq<Frame>>, ids: set<StreamId>, stills: map<StreamId, Frame>, id: StreamId)
    requires ids <= stills.Keys && id in stills && id !in ids && id in since && since[id] == []
    ensures var after := AfterSending(since, ids, stills);
            id in after && after[id := after[id] + [stills[id]]] == AfterSending(since, ids + {id}, stills)
  {
    assert since[id] + [stills[id]] == [stills[id]];
  }

  /** `since` when the open views have become `current`. */
  function Followed(since: map<StreamId, seq<Frame>>, current: set<StreamId>): map<StreamId, seq<Frame>> {
    map id | id in current :: if id in since then since[id] else []
  }

  lemma EachHasItsPicture(since: map<StreamId, seq<Frame>>, current: set<StreamId>, stills: map<StreamId, Frame>)
    requires forall id :: id in since && id in stills ==> since[id] == [stills[id]]
    ensures var ids := (current - since.Keys) * stills.Keys;
            var followed := Followed(since, current);
            && (forall id :: id in ids ==> id in stills && id in followed && followed[id] == [])
            && AfterSending(followed, ids, stills).Keys == current
            && (forall id :: id in current && id in stills ==> AfterSending(followed, ids, stills)[id] == [stills[id]])
  {
  }

  lemma OneFewer(ids: set<StreamId>, left: set<StreamId>, id: StreamId)
    requires left <= ids && id in left
    ensures ids - (left - {id}) == (ids - left) + {id}
  {
  }

  class StillRegistry {
    var lastDispatch: map<StreamId, real>
    var stills: map<StreamId, Frame>
    var open: set<StreamId>
    var subscribed: bool

    // the true stack, and whether the registry has seen it change
    ghost var stack: seq<StackItem>
    ghost var informed: bool
    ghost var emitted: seq<Emission>
    // for an open view, what was emitted since its picture was registered or it opening
    ghost var since: map<StreamId, seq<Frame>>

    /** Once informed, the registry knows the views that are really open, and each of them
        with a retained picture has been sent that very picture, once, since the later of
        its opening and the registration. Until then it has sent nothing to anybody. */
    ghost predicate Valid()
      reads this
    {
      && open == (if informed then OpenStreams(stack) else {})
      && (informed ==> subscribed)
      && (!informed ==> emitted == [])
      && (stills.Keys != {} ==> subscribed)
      && since.Keys == open
      && (forall id :: id in open && id in stills ==> since[id] == [stills[id]])
    }

    constructor ()
      ensures Valid() && stack == [] && stills == map[] && emitted == [] && !subscribed && !informed
    {
      lastDispatch, stills, open, subscribed := map[], map[], {}, false;
      stack, informed, emitted, since := [], false, [], map[];
    }

    /** The chunk events of a frame, unless it comes within a tenth of a second of the
        last one of its stream and is not forced. */
    method LowResChunkEvents(id: StreamId, f: Frame, force: bool, now: real) returns (chunks: seq<Chunk>)
      modifies this`lastDispatch
      ensures var throttled := !force && id in old(lastDispatch) && now - old(lastDispatch)[id] < 0.1;
              if !Drawable(f) || throttled then chunks == [] && lastDispatch == old(lastDispatch)
              else chunks == Chunks(f) && lastDispatch == old(lastDispatch)[id := now]
    {
      if !Drawable(f) {
        return [];
      }
      if !force && id in lastDispatch && now - lastDispatch[id] < 0.1 {
        return [];
      }
      lastDispatch := lastDispatch[id := now];
      return Chunks(f);
    }

    /** Emits the retained picture of an open view; a still is never throttled. */
    method EmitStill(id: StreamId, now: real)
      requires id in stills && id in since
      modifies this`lastDispatch, this`emitted, this`since
      ensures emitted == old(emitted) + [EmissionOf(id, stills[id])]
      ensures since == old(since)[id := old(since)[id] + [stills[id]]]
    {
      var chunks := LowResChunkEvents(id, stills[id], true, now);
      emitted := emitted + [Emission(id, stills[id], chunks)];
      since := since[id := since[id] + [stills[id]]];
    }

    /** Retains a picture. It is emitted at once exactly if the view is open and the
        registry has been told of a stack change since it began to listen. */
    method RegisterStill(id: StreamId, f: Frame, now: real)
      requires Valid()
      modifies this
      ensures Valid() && subscribed && stack == old(stack) && informed == old(informed)
      ensures stills == old(stills)[id := f]
      ensures emitted == old(emitted)
                         + (if informed && id in OpenStreams(stack) then [EmissionOf(id, f)] else [])
    {
      stills := stills[id := f];
      subscribed := true;
      if id in open {
        since := since[id := []];
        EmitStill(id, now);
      }
    }

    method ForgetStill(id: StreamId)
      requires Valid()
      modifies this`stills
      ensures Valid() && stills == old(stills) - {id}
    {
      stills := stills - {id};
    }

    /** A change of the view stack. Pictures are emitted, in any order, for the views that
        just opening and have one; throttling starts afresh for those that closed. */
    method ChangeStack(newStack: seq<StackItem>, now: real)
      requires Valid()
      modifies this
      ensures Valid() && stack == newStack && informed == old(subscribed)
      ensures stills == old(stills) && subscribed == old(subscribed)
      ensures old(emitted) <= emitted
      ensures Announces(emitted[|old(emitted)|..], (open - old(open)) * stills.Keys, stills)
    {
      hide Announces, OpenStreams, Chunks, Followed, AfterSending;
      stack := newStack;
      informed := subscribed;
      if !subscribed {
        NothingAnnounced(stills);
        assert emitted[|emitted|..] == [] && (open - open) * stills.Keys == {};
        return;
      }
      var current := OpenStreams(newStack);
      var opening := current - open;
      var closing := open - current;
      EachHasItsPicture(since, current, stills);
      since := Followed(since, current);
      open := current;
      lastDispatch := lastDispatch - closing;
      EmitAll(opening * stills.Keys, now);
    }

    method EmitAll(ids: set<StreamId>, now: real)
      requires forall id :: id in ids ==> id in stills && id in since && since[id] == []
      modifies this`lastDispatch, this`emitted, this`since
      ensures old(emitted) <= emitted && since == AfterSending(old(since), ids, stills)
      ensures Announces(emitted[|old(emitted)|..], ids, stills)
    {
      hide *;
      var left := ids;
      ghost var since0, emitted0, news := since, emitted, [];
      NothingSent(since, stills);
      NothingAnnounced(stills);
      assert ids - left == {};
      while left != {}
        invariant left <= ids
        invariant since == AfterSending(since0, ids - left, stills)
        invariant emitted == emitted0 + news && Announces(news, ids - left, stills)
        decreases left
      {
        var id :| id in left;
        OneFewer(ids, left, id);
        AnnouncesOneMore(news, ids - left, stills, id);
        SendingOneMore(since0, ids - left, stills, id);
        EmitStill(id, now);
        news := news + [EmissionOf(id, stills[id])];
        left := left - {id};
      }
      assert emitted[|emitted0|..] == news && ids - {} == ids;
    }
  }

  /** The first picture of all, registered while its view is open, is not emitted. */
  method FirstStillIsLate(id: StreamId, f: Frame, now: real) returns (registry: StillRegistry)
    requires id != ""
    ensures fresh(registry) && registry.Valid()
    ensures id in OpenStreams(registry.stack) && registry.stills == map[id := f] && registry.emitted == []
  {
    registry := new StillRegistry();
    registry.ChangeStack([RenderView(id)], now);
    registry.RegisterStill(id, f, now);
    assert RenderView(id) in registry.stack;
  }

  lemma NothingSent(since: map<StreamId, seq<Frame>>, stills: map<StreamId, Frame>)
    ensures AfterSending(since, {}, stills) == since
  {
  }
}
