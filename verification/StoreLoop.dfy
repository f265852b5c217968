/**
  The store's run loop. It reduces queued actions in batches and lets the event
  handlers run between batches, where the loop it overrides reduces every queued
  action before the handlers get a turn. Both are proved to reduce the same
  actions to the same states and to hand out the same events in the same order;
  the batched one is in addition proved to make no event wait longer than a batch.
*/
module StoreLoop {
  import opened Wrappers

  /** What a reducer returns. `Other` is neither form and is ignored. */
  datatype Reduced<+S, +A, +E> =
    | Complete(state: S, actions: seq<A>, events: seq<E>)
    | StateOnly(state: S)
    | Other

  /** The application: its reducer, its finish action and the event that announces it. */
  datatype Logic<!S, !A, !E> = Logic(
    reducer: (S, A) -> Reduced<S, A, E>,
    isFinish: A -> bool,
    finishEvent: E)

  // ---------------------------------------------------------------------------
  // Reducing alone: what happens however the events are interleaved
  // ---------------------------------------------------------------------------

  /** The action queue, the state, and everything reducing has produced so far. */
  datatype Core<S, A, E> = Core(
    state: S,
    actions: seq<Option<A>>,
    reduced: seq<A>,
    states: seq<S>,
    emitted: seq<E>)

  function Queued<A>(actions: seq<A>): (r: seq<Option<A>>)
    ensures |r| == |actions| && forall i :: 0 <= i < |r| ==> r[i] == Some(actions[i])
  {
    seq(|actions|, i requires 0 <= i < |actions| => Some(actions[i]))
  }

  /** What reducing `a`, already off the queue, comes to. */
  function ReduceWith<S, A, E>(logic: Logic<S, A, E>, c: Core<S, A, E>, a: A): Core<S, A, E> {
    match logic.reducer(c.state, a)
    case Complete(state, actions, events) =>
      Core(state, c.actions + Queued(actions), c.reduced + [a], c.states + [state], c.emitted + events)
    case StateOnly(state) => c.(state := state, reduced := c.reduced + [a], states := c.states + [state])
    case Other => c.(reduced := c.reduced + [a])
  }

  function ReduceOne<S, A, E>(logic: Logic<S, A, E>, c: Core<S, A, E>): Core<S, A, E>
    requires c.actions != []
  {
    var rest := c.(actions := c.actions[1..]);
    match c.actions[0]
    case None => rest
    case Some(a) =>
      var r := ReduceWith(logic, rest, a);
      if logic.isFinish(a) then r.(emitted := r.emitted + [logic.finishEvent]) else r
  }

  /** At most `k` reductions, fewer if the queue empties. */
  function After<S, A, E>(logic: Logic<S, A, E>, c: Core<S, A, E>, k: nat): Core<S, A, E>
    decreases k
  {
    if k == 0 || c.actions == [] then c else After(logic, ReduceOne(logic, c), k - 1)
  }

  lemma {:induction false} AfterSplits<S, A, E>(logic: Logic<S, A, E>, c: Core<S, A, E>, j: nat, k: nat)
    ensures After(logic, After(logic, c, j), k) == After(logic, c, j + k)
    decreases j
  {
    if j > 0 && c.actions != [] {
      AfterSplits(logic, ReduceOne(logic, c), j - 1, k);
    }
  }

  /** Once the queue has emptied there is only one way it can have ended. */
  lemma OneEnd<S, A, E>(logic: Logic<S, A, E>, c: Core<S, A, E>, j: nat, k: nat)
    requires After(logic, c, j).actions == [] && After(logic, c, k).actions == []
    ensures After(logic, c, j) == After(logic, c, k)
  {
    if j <= k { AfterSplits(logic, c, j, k - j); } else { AfterSplits(logic, c, k, j - k); }
  }

  // ---------------------------------------------------------------------------
  // What a run amounts to, told without its steps
  // ---------------------------------------------------------------------------

  /** The state a result leaves. */
  function StateAfter<S, A, E>(r: Reduced<S, A, E>, state: S): S {
    if r.Other? then state else r.state
  }

  /** The reducer folded over `actions`. */
  function Folded<S, A, E>(logic: Logic<S, A, E>, state: S, actions: seq<A>): S {
    if actions == [] then state
    else Folded(logic, StateAfter(logic.reducer(state, actions[0]), state), actions[1..])
  }

  /** Every state that results set, in order. */
  function Seen<S, A, E>(logic: Logic<S, A, E>, state: S, actions: seq<A>): seq<S> {
    if actions == [] then []
    else
      var r := logic.reducer(state, actions[0]);
      (if r.Other? then [] else [r.state]) + Seen(logic, StateAfter(r, state), actions[1..])
  }

  /** Every action that complete results return, in order. */
  function Returned<S, A, E>(logic: Logic<S, A, E>, state: S, actions: seq<A>): seq<A> {
    if actions == [] then []
    else
      var r := logic.reducer(state, actions[0]);
      (if r.Complete? then r.actions else []) + Returned(logic, StateAfter(r, state), actions[1..])
  }

  /** Every event: those of an action's complete result, then the one that it finished. */
  function Announced<S, A, E>(logic: Logic<S, A, E>, state: S, actions: seq<A>): seq<E> {
    if actions == [] then []
    else
      var r := logic.reducer(state, actions[0]);
      (if r.Complete? then r.events else []) + (if logic.isFinish(actions[0]) then [logic.finishEvent] else [])
      + Announced(logic, StateAfter(r, state), actions[1..])
  }

  /** The actions of a queue that are not absent. */
  function Present<A>(actions: seq<Option<A>>): seq<A> {
    if actions == [] then []
    else (if actions[0].Some? then [actions[0].value] else []) + Present(actions[1..])
  }

  /** From `c` to `d`: what was reduced meanwhile is the first part of what was queued, then
      and since, in order; the state is the reducer folded over it; and the states set and the
      events emitted are those of its results, in order. */
  ghost predicate Recounts<S, A, E>(logic: Logic<S, A, E>, c: Core<S, A, E>, d: Core<S, A, E>) {
    && c.reduced <= d.reduced
    && var done := d.reduced[|c.reduced|..];
       && d.state == Folded(logic, c.state, done)
       && d.states == c.states + Seen(logic, c.state, done)
       && d.emitted == c.emitted + Announced(logic, c.state, done)
       && Present(c.actions) + Returned(logic, c.state, done) == done + Present(d.actions)
  }

  lemma {:induction false} PresentConcat<A>(a: seq<Option<A>>, b: seq<Option<A>>)
    ensures Present(a + b) == Present(a) + Present(b)
  {
    if a == [] {
      assert a + b == b;
    } else {
      assert (a + b)[1..] == a[1..] + b;
      PresentConcat(a[1..], b);
      var first := if a[0].Some? then [a[0].value] else [];
      assert first + (Present(a[1..]) + Present(b)) == first + Present(a[1..]) + Present(b);
    }
  }

  lemma {:induction false} PresentQueued<A>(actions: seq<A>)
    ensures Present(Queued(actions)) == actions
  {
    if actions != [] {
      assert Queued(actions)[1..] == Queued(actions[1..]);
      PresentQueued(actions[1..]);
    }
  }

  /** Any number of reductions is so recounted. */
  lemma {:induction false} AfterRecounts<S, A, E>(logic: Logic<S, A, E>, c: Core<S, A, E>, k: nat)
    ensures Recounts(logic, c, After(logic, c, k))
    decreases k
  {
    var d := After(logic, c, k);
    if k == 0 || c.actions == [] {
      assert d.reduced[|c.reduced|..] == [];
    } else {
      var next := ReduceOne(logic, c);
      AfterRecounts(logic, next, k - 1);
      OneMore(logic, c, next, d);
    }
  }

  lemma OneMore<S, A, E>(logic: Logic<S, A, E>, c: Core<S, A, E>, next: Core<S, A, E>, d: Core<S, A, E>)
    requires c.actions != [] && next == ReduceOne(logic, c) && Recounts(logic, next, d)
    ensures Recounts(logic, c, d)
  {
    hide Folded, Seen, Returned, Announced, ReduceWith, Queued;
    if c.actions[0].Some? {
      var a := c.actions[0].value;
      var done := d.reduced[|next.reduced|..];
      OneReduced(logic, c);
      hide ReduceOne, Present;
      assert d.reduced[|c.reduced|..] == [a] + done;
      RestOfRun(logic, c.state, a, done);
      Shuffle([a], Present(c.actions[1..]), Returned(logic, c.state, [a]), Returned(logic, next.state, done),
              done, Present(d.actions));
    }
  }

  lemma Shuffle<T>(a: seq<T>, queue: seq<T>, new1: seq<T>, new2: seq<T>, done: seq<T>, left: seq<T>)
    requires (queue + new1) + new2 == done + left
    ensures (a + queue) + (new1 + new2) == (a + done) + left
  {
    assert (a + queue) + (new1 + new2) == a + ((queue + new1) + new2);
    assert (a + done) + left == a + (done + left);
  }

  /** What the first action contributes, and the others after it. */
  lemma RestOfRun<S, A, E>(logic: Logic<S, A, E>, state: S, a: A, done: seq<A>)
    ensures var next := StateAfter(logic.reducer(state, a), state);
            && Folded(logic, state, [a] + done) == Folded(logic, next, done)
            && Seen(logic, state, [a] + done) == Seen(logic, state, [a]) + Seen(logic, next, done)
            && Returned(logic, state, [a] + done) == Returned(logic, state, [a]) + Returned(logic, next, done)
            && Announced(logic, state, [a] + done) == Announced(logic, state, [a]) + Announced(logic, next, done)
  {
    assert ([a] + done)[1..] == done && [a][1..] == [];
  }

  lemma OneReduced<S, A, E>(logic: Logic<S, A, E>, c: Core<S, A, E>)
    requires c.actions != [] && c.actions[0].Some?
    ensures var a := c.actions[0].value;
            var next := ReduceOne(logic, c);
            && next.reduced == c.reduced + [a] && next.state == StateAfter(logic.reducer(c.state, a), c.state)
            && next.states == c.states + Seen(logic, c.state, [a])
            && next.emitted == c.emitted + Announced(logic, c.state, [a])
            && Present(c.actions) == [a] + Present(c.actions[1..])
            && Present(next.actions) == Present(c.actions[1..]) + Returned(logic, c.state, [a])
  {
    hide Present, Queued;
    var a := c.actions[0].value;
    var r := logic.reducer(c.state, a);
    assert [a][1..] == [];
    assert Present(c.actions) == [a] + Present(c.actions[1..]) by { FirstPresent(c.actions); }
    if r.Complete? {
      PresentConcat(c.actions[1..], Queued(r.actions));
      PresentQueued(r.actions);
    }
  }

  lemma FirstPresent<A>(actions: seq<Option<A>>)
    requires actions != [] && actions[0].Some?
    ensures Present(actions) == [actions[0].value] + Present(actions[1..])
  {
  }

  /** How many actions had been taken off the queue when an event was queued, and
      when it was handed to its handlers. */
  datatype Delay = Delay(queuedAt: nat, handedAt: nat)

  function Stamps(n: nat, now: nat): (r: seq<nat>)
    ensures |r| == n && forall i :: 0 <= i < n ==> r[i] == now
  {
    seq(n, _ => now)
  }

  function Delays(queuedAt: seq<nat>, now: nat): (r: seq<Delay>)
    ensures |r| == |queuedAt| && forall i :: 0 <= i < |r| ==> r[i] == Delay(queuedAt[i], now)
  {
    seq(|queuedAt|, i requires 0 <= i < |queuedAt| => Delay(queuedAt[i], now))
  }

  /** From index `from` on, no event waited for more than `n` actions. */
  predicate Prompt(delays: seq<Delay>, from: nat, n: nat) {
    forall i :: from <= i < |delays| ==> delays[i].queuedAt <= delays[i].handedAt <= delays[i].queuedAt + n
  }

  class Store<S, A, E> {
    const logic: Logic<S, A, E>
    var state: S
    var actions: seq<Option<A>>
    var events: seq<E>

    // the history, for the specification
    ghost var taken: nat
    ghost var reduced: seq<A>
    ghost var states: seq<S>
    ghost var emitted: seq<E>
    ghost var queuedAt: seq<nat>
    ghost var handed: seq<E>
    ghost var delays: seq<Delay>

    ghost function View(): Core<S, A, E>
      reads this
    {
      Core(state, actions, reduced, states, emitted)
    }

    /** Every event ever queued was handed over or still waits, in order. */
    ghost predicate Valid()
      reads this
    {
      && |queuedAt| == |events| && |delays| == |handed|
      && handed + events == emitted
    }

    constructor (logic: Logic<S, A, E>, state: S, actions: seq<Option<A>>, events: seq<E>)
      ensures this.logic == logic && Valid()
      ensures View() == Core(state, actions, [], [], events) && this.events == events
      ensures handed == [] && taken == 0 && queuedAt == Stamps(|events|, 0)
    {
      this.logic := logic;
      this.state, this.actions, this.events := state, actions, events;
      taken, reduced, states, emitted := 0, [], [], events;
      queuedAt, handed, delays := Stamps(|events|, 0), [], [];
    }

    /** Queues what a reducer returned. */
    method Dispatch(newActions: seq<A>, newEvents: seq<E>)
      requires Valid()
      modifies this`actions, this`events, this`emitted, this`queuedAt
      ensures Valid()
      ensures actions == old(actions) + Queued(newActions)
      ensures events == old(events) + newEvents && emitted == old(emitted) + newEvents
      ensures queuedAt == old(queuedAt) + Stamps(|newEvents|, taken)
    {
      assert handed + (events + newEvents) == handed + events + newEvents;
      actions := actions + Queued(newActions);
      events := events + newEvents;
      emitted := emitted + newEvents;
      queuedAt := queuedAt + Stamps(|newEvents|, taken);
    }

    method Reduce(a: A) returns (ghost n: nat)
      requires Valid()
      modifies this`state, this`actions, this`events, this`reduced, this`states, this`emitted, this`queuedAt
      ensures Valid()
      ensures View() == ReduceWith(logic, old(View()), a)
      ensures queuedAt == old(queuedAt) + Stamps(n, taken)
    {
      hide Queued;
      var result := logic.reducer(state, a);
      reduced := reduced + [a];
      n := 0;
      if result.Complete? {
        state := result.state;
        states := states + [state];
        Dispatch(result.actions, result.events);
        n := |result.events|;
      } else if result.StateOnly? {
        state := result.state;
        states := states + [state];
      }
    }

    /** Takes one action off the queue and reduces it. */
    method ProcessAction() returns (ghost n: nat)
      requires Valid() && actions != []
      modifies this`state, this`actions, this`events, this`taken, this`reduced, this`states, this`emitted, this`queuedAt
      ensures Valid() && taken == old(taken) + 1
      ensures View() == ReduceOne(logic, old(View()))
      ensures queuedAt == old(queuedAt) + Stamps(n, taken)
    {
      hide ReduceWith;
      var action := actions[0];
      actions := actions[1..];
      taken := taken + 1;
      n := 0;
      if action.Some? {
        n := Reduce(action.value);
        if logic.isFinish(action.value) {
          assert actions + Queued([]) == actions;
          Dispatch([], [logic.finishEvent]);
          n := n + 1;
        }
      }
    }

    /** Hands every queued event to its handlers, oldest first. The handlers only
        schedule work, so nothing is dispatched meanwhile. */
    method RunEventHandlers()
      requires Valid()
      modifies this`events, this`queuedAt, this`handed, this`delays
      ensures Valid() && events == []
      ensures handed == old(handed) + old(events)
      ensures delays == old(delays) + Delays(old(queuedAt), taken)
    {
      while events != []
        invariant Valid()
        invariant handed + events == old(handed) + old(events)
        invariant delays + Delays(queuedAt, taken) == old(delays) + Delays(old(queuedAt), taken)
        decreases |events|
      {
        HandOne(handed, events);
        DelayOne(delays, queuedAt, taken);
        handed, delays := handed + [events[0]], delays + [Delay(queuedAt[0], taken)];
        events, queuedAt := events[1..], queuedAt[1..];
      }
      assert handed + [] == handed && delays + Delays([], taken) == delays;
    }

    /** One round of the loop: up to `batch` actions, then all pending events. */
    method Round(batch: nat) returns (ghost k: nat)
      requires Valid() && batch >= 1
      modifies this
      ensures Valid() && events == []
      ensures k <= batch && View() == After(logic, old(View()), k) && (k == batch || actions == [])
      ensures old(actions) != [] ==> k >= 1
      ensures taken == old(taken) + k
      ensures old(handed) <= handed && old(delays) <= delays
      ensures forall i :: 0 <= i < |old(queuedAt)| ==>
                |old(delays)| + i < |delays| && delays[|old(delays)| + i] == Delay(old(queuedAt)[i], taken)
      ensures Prompt(delays, |old(delays)| + |old(queuedAt)|, batch - 1)
    {
      var processed := 0;
      while actions != [] && processed < batch
        invariant Valid() && processed <= batch && taken == old(taken) + processed
        invariant View() == After(logic, old(View()), processed)
        invariant handed == old(handed) && delays == old(delays)
        invariant old(queuedAt) <= queuedAt
        invariant forall i :: |old(queuedAt)| <= i < |queuedAt| ==> old(taken) < queuedAt[i] <= taken
        decreases batch - processed
      {
        AfterOneMore(logic, old(View()), processed);
        ghost var n := ProcessAction();
        processed := processed + 1;
      }
      if events != [] {
        RunEventHandlers();
      }
      k := processed;
    }

    /** Any number of rounds of the loop, so any finite part of any run, ending or not.
        From an idle event queue no event waits for as many actions as a batch holds. */
    method RunRounds(batch: nat, rounds: nat) returns (ghost k: nat)
      requires Valid() && batch >= 1
      modifies this
      ensures Valid() && old(handed) <= handed && old(delays) <= delays
      ensures View() == After(logic, old(View()), k) && Recounts(logic, old(View()), View())
      ensures k >= rounds || (actions == [] && events == [])
      ensures events == [] || (rounds == 0 && events == old(events))
      ensures old(events) == [] ==> Prompt(delays, |old(delays)|, batch - 1)
    {
      k := 0;
      var done := 0;
      while (actions != [] || events != []) && done < rounds
        invariant Valid() && old(handed) <= handed && old(delays) <= delays && done <= rounds
        invariant View() == After(logic, old(View()), k)
        invariant k >= done || (actions == [] && events == [])
        invariant events == [] || (done == 0 && events == old(events))
        invariant old(events) == [] ==> Prompt(delays, |old(delays)|, batch - 1)
        decreases rounds - done
      {
        ghost var n := Round(batch);
        AfterSplits(logic, old(View()), k, n);
        k := k + n;
        done := done + 1;
      }
      AfterRecounts(logic, old(View()), k);
    }

    /** The loop, for an application that comes to rest after at most `bound` actions:
        it reaches the one state there is to reach, with every event handed over in
        the order of queueing, whatever the batch size. */
    method Run(batch: nat, ghost bound: nat)
      requires Valid() && batch >= 1
      requires After(logic, View(), bound).actions == []
      modifies this
      ensures Valid() && actions == [] && events == []
      ensures View() == After(logic, old(View()), bound) && Recounts(logic, old(View()), View())
      ensures handed == emitted
    {
      ghost var k := 0;
      while actions != [] || events != []
        invariant Valid() && k <= bound
        invariant View() == After(logic, old(View()), k)
        decreases bound - k, |events|
      {
        StillRunning(logic, old(View()), k, bound);
        ghost var n := Round(batch);
        AfterSplits(logic, old(View()), k, n);
        k := AtMost(logic, old(View()), k + n, bound);
      }
      OneEnd(logic, old(View()), k, bound);
      AfterRecounts(logic, old(View()), bound);
    }

    /** The loop this one overrides: all queued actions, then all pending events. */
    method RunDraining(ghost bound: nat)
      requires Valid()
      requires After(logic, View(), bound).actions == []
      modifies this
      ensures Valid() && actions == [] && events == []
      ensures View() == After(logic, old(View()), bound) && Recounts(logic, old(View()), View())
      ensures handed == emitted
    {
      ghost var k := 0;
      while actions != [] || events != []
        invariant Valid() && k <= bound
        invariant View() == After(logic, old(View()), k)
        decreases bound - k, |events|
      {
        ghost var k0, events0, actions0 := k, events, actions;
        while actions != []
          invariant Valid() && k0 <= k <= bound
          invariant View() == After(logic, old(View()), k)
          invariant k == k0 ==> events == events0 && actions == actions0
          decreases bound - k
        {
          StillRunning(logic, old(View()), k, bound);
          AfterOneMore(logic, old(View()), k);
          ghost var n := ProcessAction();
          k := k + 1;
        }
        if events != [] {
          RunEventHandlers();
        }
      }
      OneEnd(logic, old(View()), k, bound);
      AfterRecounts(logic, old(View()), bound);
    }
  }

  lemma StillRunning<S, A, E>(logic: Logic<S, A, E>, c: Core<S, A, E>, k: nat, bound: nat)
    requires After(logic, c, bound).actions == []
    ensures After(logic, c, k).actions != [] ==> k < bound
  {
    if k >= bound { AfterSplits(logic, c, bound, k - bound); }
  }

  /** A count of reductions past the end is as good as the bound. */
  ghost function AtMost<S, A, E>(logic: Logic<S, A, E>, c: Core<S, A, E>, k: nat, bound: nat): (r: nat)
    requires After(logic, c, bound).actions == []
    ensures r <= bound && r <= k && After(logic, c, r) == After(logic, c, k) && (k <= bound ==> r == k)
    ensures k > bound ==> r == bound
  {
    if k <= bound then k else AfterSplits(logic, c, bound, k - bound); bound
  }

  lemma HandOne<E>(handed: seq<E>, events: seq<E>)
    requires events != []
    ensures (handed + [events[0]]) + events[1..] == handed + events
  {
  }

  lemma DelayOne(delays: seq<Delay>, queuedAt: seq<nat>, now: nat)
    requires queuedAt != []
    ensures (delays + [Delay(queuedAt[0], now)]) + Delays(queuedAt[1..], now) == delays + Delays(queuedAt, now)
  {
  }

  lemma AfterOneMore<S, A, E>(logic: Logic<S, A, E>, c: Core<S, A, E>, k: nat)
    requires After(logic, c, k).actions != []
    ensures After(logic, c, k + 1) == ReduceOne(logic, After(logic, c, k))
  {
    AfterSplits(logic, c, k, 1);
  }

  /** Run on the same queues, the batched loop and the one it overrides end alike, with
      the same actions reduced to the same states and the same events handed over. */
  method RunBoth<S, A, E>(logic: Logic<S, A, E>, state: S, actions: seq<Option<A>>, events: seq<E>, batch: nat,
                          ghost bound: nat)
    returns (batched: Store<S, A, E>, draining: Store<S, A, E>)
    requires batch >= 1
    requires After(logic, Core(state, actions, [], [], events), bound).actions == []
    ensures batched.View() == draining.View() && batched.handed == draining.handed
    ensures batched.actions == [] && batched.events == [] && draining.events == []
  {
    batched := new Store(logic, state, actions, events);
    batched.Run(batch, bound);
    draining := new Store(logic, state, actions, events);
    draining.RunDraining(bound);
  }
}
