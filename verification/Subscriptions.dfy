/**
  What lies between the store and the subscribers of its RPC interface: a slot
  that keeps only the latest snapshot of a state subscription, and a bounded
  queue that drops the newest event of an event subscription when full. Changes
  come from any thread and reach the subscription's event loop as callbacks; the
  loop interleaves them with the consumer in any way it likes.
*/
module Subscriptions {
  import opened Wrappers

  /** `a` can be obtained from `b` by leaving elements out. */
  predicate Subsequence<T(==)>(a: seq<T>, b: seq<T>) {
    || a == []
    || (b != [] &&
        (|| Subsequence(a, b[..|b| - 1])
         || (a[|a| - 1] == b[|b| - 1] && Subsequence(a[..|a| - 1], b[..|b| - 1]))))
  }

  lemma SubsequenceSkips<T>(a: seq<T>, b: seq<T>, x: T)
    requires Subsequence(a, b)
    ensures Subsequence(a, b + [x])
  {
    assert (b + [x])[..|b|] == b;
  }

  lemma SubsequenceKeeps<T>(a: seq<T>, b: seq<T>, x: T)
    requires Subsequence(a, b)
    ensures Subsequence(a + [x], b + [x])
  {
    assert (b + [x])[..|b|] == b && (a + [x])[..|a|] == a;
  }

  // ---------------------------------------------------------------------------
  // The latest snapshot
  // ---------------------------------------------------------------------------

  /** `changes` are the snapshots handed over by the store so far, `put` those whose
      callback has run, `sent` those sent to the client, and `idle` how often the
      consumer woke up to an empty slot. */
  datatype Slot<T> = Slot(
    changes: seq<T>,
    put: seq<T>,
    latest: Option<T>,
    hasUpdate: bool,
    sending: bool,
    sent: seq<T>,
    idle: nat)

  datatype SlotStep<T> = Change(snapshot: T) | RunPut | Wake | Resume

  predicate SlotEnabled<T>(s: Slot<T>, step: SlotStep<T>) {
    match step
    case Change(_) => true
    case RunPut => |s.put| < |s.changes|
    case Wake => s.hasUpdate && !s.sending
    case Resume => s.sending
  }

  function SlotApply<T>(s: Slot<T>, step: SlotStep<T>): Slot<T>
    requires SlotEnabled(s, step)
  {
    match step
    case Change(x) => s.(changes := s.changes + [x])
    case RunPut =>
      var x := s.changes[|s.put|];
      s.(put := s.put + [x], latest := Some(x), hasUpdate := true)
    case Wake =>
      if s.latest.None? then s.(hasUpdate := false, idle := s.idle + 1)
      else s.(hasUpdate := false, latest := None, sending := true, sent := s.sent + [s.latest.value])
    case Resume => s.(sending := false)
  }

  function SlotStart<T>(): Slot<T> {
    Slot([], [], None, false, false, [], 0)
  }

  ghost predicate SlotPath<T>(s: Slot<T>, steps: seq<SlotStep<T>>, s': Slot<T>)
    decreases |steps|
  {
    if steps == [] then s == s'
    else SlotEnabled(s, steps[0]) && SlotPath(SlotApply(s, steps[0]), steps[1..], s')
  }

  ghost predicate SlotInv<T>(s: Slot<T>) {
    && s.put <= s.changes
    && (s.hasUpdate <==> s.latest.Some?)
    && s.idle == 0
    && match s.latest
       case None =>
         && Subsequence(s.sent, s.put) && (s.put == [] <==> s.sent == [])
         && (s.put != [] ==> s.sent[|s.sent| - 1] == s.put[|s.put| - 1])
       case Some(x) =>
         && s.put != [] && x == s.put[|s.put| - 1]
         && Subsequence(s.sent, s.put[..|s.put| - 1])
  }

  lemma SlotKept<T>(s: Slot<T>, step: SlotStep<T>)
    requires SlotInv(s) && SlotEnabled(s, step)
    ensures SlotInv(SlotApply(s, step))
  {
    match step
    case Change(_) =>
    case RunPut =>
      var x := s.changes[|s.put|];
      assert (s.put + [x])[..|s.put|] == s.put;
      assert s.put + [x] <= s.changes;
      if s.latest.Some? {
        assert s.put[..|s.put| - 1] + [s.put[|s.put| - 1]] == s.put;
        SubsequenceSkips(s.sent, s.put[..|s.put| - 1], s.put[|s.put| - 1]);
      }
    case Wake =>
      var x := s.latest.value;
      assert s.put[..|s.put| - 1] + [x] == s.put;
      SubsequenceKeeps(s.sent, s.put[..|s.put| - 1], x);
    case Resume =>
  }

  lemma {:induction false} SlotAlong<T>(s: Slot<T>, steps: seq<SlotStep<T>>, s': Slot<T>)
    requires SlotInv(s) && SlotPath(s, steps, s')
    ensures SlotInv(s')
    decreases |steps|
  {
    hide SlotInv;
    if steps != [] {
      SlotKept(s, steps[0]);
      SlotAlong(SlotApply(s, steps[0]), steps[1..], s');
    }
  }

  lemma PrefixIsSubsequence<T>(a: seq<T>, b: seq<T>)
    requires b != [] && Subsequence(a, b[..|b| - 1])
    ensures Subsequence(a, b)
  {
  }

  /** Latest wins: in every run the client is sent snapshots in their order, each at most
      once, and whenever the slot is empty the last one sent is the last one put. The
      consumer never wakes up for nothing. */
  lemma LatestWins<T>(steps: seq<SlotStep<T>>, s: Slot<T>)
    requires SlotPath(SlotStart(), steps, s)
    ensures Subsequence(s.sent, s.put) && s.put <= s.changes
    ensures s.hasUpdate <==> s.latest.Some?
    ensures s.latest.None? && s.put != [] ==> s.sent != [] && s.sent[|s.sent| - 1] == s.put[|s.put| - 1]
    ensures s.latest.Some? ==> s.put != [] && s.latest.value == s.put[|s.put| - 1]
    ensures s.idle == 0
  {
    SlotAlong(SlotStart(), steps, s);
    if s.latest.Some? {
      PrefixIsSubsequence(s.sent, s.put);
    }
  }

  /** The snapshots handed over in a run. */
  function HandedOver<T>(steps: seq<SlotStep<T>>): seq<T> {
    if steps == [] then []
    else (if steps[0].Change? then [steps[0].snapshot] else []) + HandedOver(steps[1..])
  }

  lemma {:induction false} ChangesAreHandedOver<T>(s: Slot<T>, steps: seq<SlotStep<T>>, s': Slot<T>)
    requires SlotPath(s, steps, s')
    ensures s'.changes == s.changes + HandedOver(steps)
    decreases |steps|
  {
    if steps != [] {
      var t := SlotApply(s, steps[0]);
      ChangesAreHandedOver(t, steps[1..], s');
      var first := if steps[0].Change? then [steps[0].snapshot] else [];
      assert t.changes == s.changes + first;
      assert s.changes + first + HandedOver(steps[1..]) == s.changes + (first + HandedOver(steps[1..]));
    }
  }

  /** The loop runs all callbacks that are due. */
  lemma {:induction false} RunAllPuts<T>(s: Slot<T>) returns (steps: seq<SlotStep<T>>, s': Slot<T>)
    requires SlotInv(s)
    ensures SlotPath(s, steps, s') && SlotInv(s') && s'.put == s.changes && HandedOver(steps) == []
    ensures |steps| == |s.changes| - |s.put|
    decreases |s.changes| - |s.put|
  {
    if |s.put| < |s.changes| {
      SlotKept(s, RunPut);
      steps, s' := RunAllPuts(SlotApply(s, RunPut));
      assert ([RunPut] + steps)[1..] == steps;
      steps := [RunPut] + steps;
      ChangesAreHandedOver(s, steps, s');
    } else {
      steps, s' := [], s;
    }
  }

  /** The consumer takes what is pending: at most two steps. */
  lemma TakePending<T>(s: Slot<T>) returns (steps: seq<SlotStep<T>>, s': Slot<T>)
    requires SlotInv(s) && s.put != []
    ensures SlotPath(s, steps, s') && |steps| <= 2 && HandedOver(steps) == [] && s'.put == s.put
    ensures s'.sent != [] && s'.sent[|s'.sent| - 1] == s.put[|s.put| - 1]
  {
    if s.latest.None? {
      steps, s' := [], s;
    } else if s.sending {
      var t := SlotApply(s, Resume);
      steps, s' := [Resume, Wake], SlotApply(t, Wake);
      assert steps[1..] == [Wake] && steps[1..][1..] == [];
      assert SlotPath(t, steps[1..], s');
    } else {
      steps, s' := [Wake], SlotApply(s, Wake);
      assert steps[1..] == [];
    }
  }

  lemma {:induction false} SlotPathJoins<T>(s: Slot<T>, a: seq<SlotStep<T>>, t: Slot<T>, b: seq<SlotStep<T>>,
                                            u: Slot<T>)
    requires SlotPath(s, a, t) && SlotPath(t, b, u)
    ensures SlotPath(s, a + b, u)
    decreases |a|
  {
    if a == [] {
      assert a + b == b;
    } else {
      assert (a + b)[1..] == a[1..] + b;
      SlotPathJoins(SlotApply(s, a[0]), a[1..], t, b, u);
    }
  }

  /** A subscriber that is let run catches up with the store: from any state, one step for
      each callback that is due and two of the consumer bring it the last snapshot of all
      that the run has handed over. */
  lemma CatchesUp<T>(steps: seq<SlotStep<T>>, s: Slot<T>) returns (more: seq<SlotStep<T>>, s': Slot<T>)
    requires SlotPath(SlotStart(), steps, s) && HandedOver(steps) != []
    ensures SlotPath(s, more, s') && |more| <= |s.changes| - |s.put| + 2
    ensures var all := HandedOver(steps);
            s'.put == all && s'.sent != [] && s'.sent[|s'.sent| - 1] == all[|all| - 1]
  {
    SlotAlong(SlotStart(), steps, s);
    ChangesAreHandedOver(SlotStart(), steps, s);
    assert s.changes == HandedOver(steps);
    var a, t := RunAllPuts(s);
    var b, u := TakePending(t);
    SlotPathJoins(s, a, t, b, u);
    more, s' := a + b, u;
  }

  // ---------------------------------------------------------------------------
  // The bounded queue
  // ---------------------------------------------------------------------------

  /** `put` are the events whose callback has run, `accepted` those that found room,
      `taken` those the consumer has got out, `sent` those of a subscribed type. */
  datatype Queue<T> = Queue(
    put: seq<T>,
    waiting: seq<T>,
    accepted: seq<T>,
    dropped: nat,
    warnings: nat,
    taken: seq<T>,
    sent: seq<T>)

  const SUBSCRIPTION_QUEUE_SIZE: nat := 256

  function QueueStart<T>(): Queue<T> {
    Queue([], [], [], 0, 0, [], [])
  }

  datatype QueueStep<T> = Put(event: T) | Get

  predicate QueueEnabled<T>(q: Queue<T>, step: QueueStep<T>) {
    step.Put? || q.waiting != []
  }

  /** Warns of the first loss and of every twentieth. */
  predicate Warns(dropped: nat) {
    dropped == 1 || dropped % 20 == 0
  }

  function WarningsFor(dropped: nat): nat {
    if dropped == 0 then 0 else 1 + dropped / 20
  }

  lemma OneMoreDrop(dropped: nat)
    ensures WarningsFor(dropped + 1) == WarningsFor(dropped) + (if Warns(dropped + 1) then 1 else 0)
  {
  }

  function QueueApply<T>(q: Queue<T>, step: QueueStep<T>, known: T -> bool): Queue<T>
    requires QueueEnabled(q, step)
  {
    match step
    case Put(x) =>
      if |q.waiting| >= SUBSCRIPTION_QUEUE_SIZE then
        q.(put := q.put + [x], dropped := q.dropped + 1,
           warnings := if Warns(q.dropped + 1) then q.warnings + 1 else q.warnings)
      else q.(put := q.put + [x], waiting := q.waiting + [x], accepted := q.accepted + [x])
    case Get =>
      var x := q.waiting[0];
      q.(waiting := q.waiting[1..], taken := q.taken + [x], sent := if known(x) then q.sent + [x] else q.sent)
  }

  ghost predicate QueuePath<T>(q: Queue<T>, steps: seq<QueueStep<T>>, known: T -> bool, q': Queue<T>)
    decreases |steps|
  {
    if steps == [] then q == q'
    else QueueEnabled(q, steps[0]) && QueuePath(QueueApply(q, steps[0], known), steps[1..], known, q')
  }

  function Filter<T>(s: seq<T>, known: T -> bool): seq<T> {
    if s == [] then []
    else Filter(s[..|s| - 1], known) + (if known(s[|s| - 1]) then [s[|s| - 1]] else [])
  }

  ghost predicate QueueInv<T>(q: Queue<T>, known: T -> bool) {
    && |q.waiting| <= SUBSCRIPTION_QUEUE_SIZE
    && q.taken + q.waiting == q.accepted
    && Subsequence(q.accepted, q.put) && |q.accepted| + q.dropped == |q.put|
    && q.sent == Filter(q.taken, known)
    && q.warnings == WarningsFor(q.dropped)
  }

  lemma QueueKept<T>(q: Queue<T>, step: QueueStep<T>, known: T -> bool)
    requires QueueInv(q, known) && QueueEnabled(q, step)
    ensures QueueInv(QueueApply(q, step, known), known)
  {
    hide Subsequence, WarningsFor, Warns;
    match step
    case Put(x) =>
      OneMoreDrop(q.dropped);
      SubsequenceSkips(q.accepted, q.put, x);
      SubsequenceKeeps(q.accepted, q.put, x);
      assert q.taken + (q.waiting + [x]) == q.taken + q.waiting + [x];
    case Get =>
      var x := q.waiting[0];
      assert (q.taken + [x])[..|q.taken|] == q.taken;
      assert (q.taken + [x]) + q.waiting[1..] == q.taken + q.waiting;
  }

  lemma {:induction false} QueueAlong<T>(q: Queue<T>, steps: seq<QueueStep<T>>, known: T -> bool, q': Queue<T>)
    requires QueueInv(q, known) && QueuePath(q, steps, known, q')
    ensures QueueInv(q', known)
    decreases |steps|
  {
    hide QueueInv;
    if steps != [] {
      QueueKept(q, steps[0], known);
      QueueAlong(QueueApply(q, steps[0], known), steps[1..], known, q');
    }
  }

  // --- told by the puts and gets alone ---

  /** With `waiting` events in the queue, those of `steps` that find a place in it. */
  function FindRoom<T>(waiting: nat, steps: seq<QueueStep<T>>): seq<T>
    decreases |steps|
  {
    if steps == [] then []
    else match steps[0]
      case Get => FindRoom(if waiting > 0 then waiting - 1 else 0, steps[1..])
      case Put(x) =>
        if waiting == SUBSCRIPTION_QUEUE_SIZE then FindRoom(waiting, steps[1..])
        else [x] + FindRoom(waiting + 1, steps[1..])
  }

  /** And how many are put while the queue is full. */
  function Losses<T>(waiting: nat, steps: seq<QueueStep<T>>): nat
    decreases |steps|
  {
    if steps == [] then 0
    else match steps[0]
      case Get => Losses(if waiting > 0 then waiting - 1 else 0, steps[1..])
      case Put(x) =>
        if waiting == SUBSCRIPTION_QUEUE_SIZE then 1 + Losses(waiting, steps[1..]) else Losses(waiting + 1, steps[1..])
  }

  function Puts<T>(steps: seq<QueueStep<T>>): seq<T> {
    if steps == [] then [] else (if steps[0].Put? then [steps[0].event] else []) + Puts(steps[1..])
  }

  lemma {:induction false} QueueTold<T>(q: Queue<T>, steps: seq<QueueStep<T>>, known: T -> bool, q': Queue<T>)
    requires |q.waiting| <= SUBSCRIPTION_QUEUE_SIZE && QueuePath(q, steps, known, q')
    ensures q'.put == q.put + Puts(steps)
    ensures q'.accepted == q.accepted + FindRoom(|q.waiting|, steps)
    ensures q'.dropped == q.dropped + Losses(|q.waiting|, steps)
    decreases |steps|
  {
    if steps != [] {
      var t := QueueApply(q, steps[0], known);
      QueueTold(t, steps[1..], known, q');
      if steps[0].Put? {
        var x := steps[0].event;
        assert q.put + [x] + Puts(steps[1..]) == q.put + ([x] + Puts(steps[1..]));
        var later := FindRoom(|t.waiting|, steps[1..]);
        assert q.accepted + [x] + later == q.accepted + ([x] + later);
      }
    }
  }

  lemma {:induction false} FewAreNotLost<T>(waiting: nat, steps: seq<QueueStep<T>>)
    requires waiting + |Puts(steps)| <= SUBSCRIPTION_QUEUE_SIZE
    ensures Losses(waiting, steps) == 0
    decreases |steps|
  {
    if steps != [] {
      FewAreNotLost(if steps[0].Put? then waiting + 1 else if waiting > 0 then waiting - 1 else 0, steps[1..]);
    }
  }

  /** Just the elements that are known are kept, as often as they occur. */
  lemma {:induction false} FilterKeeps<T>(s: seq<T>, known: T -> bool, x: T)
    ensures multiset(Filter(s, known))[x] == if known(x) then multiset(s)[x] else 0
  {
    if s != [] {
      FilterKeeps(s[..|s| - 1], known, x);
      assert s == s[..|s| - 1] + [s[|s| - 1]];
    }
  }

  /** And they are kept in order. */
  lemma {:induction false} FilterIsInOrder<T>(s: seq<T>, known: T -> bool)
    ensures Subsequence(Filter(s, known), s)
  {
    hide Subsequence;
    if s == [] {
      NothingIsInOrder<T>();
    } else {
      var before, last := s[..|s| - 1], s[|s| - 1];
      FilterIsInOrder(before, known);
      assert s == before + [last];
      SubsequenceKeeps(Filter(before, known), before, last);
      SubsequenceSkips(Filter(before, known), before, last);
      assert Filter(before, known) + [] == Filter(before, known);
    }
  }

  lemma NothingIsInOrder<T>()
    ensures Subsequence<T>([], [])
  {
  }

  /** Every event is accounted for: it is with the client, waits, or was dropped, and what
      is not dropped keeps its order. Dropped are just those put while the queue was full,
      so none as long as no more than it holds were put. The client is sent what was taken
      out, of the types it subscribed to. The first loss and every twentieth are warned of. */
  lemma EventsAreAccountedFor<T>(steps: seq<QueueStep<T>>, known: T -> bool, q: Queue<T>)
    requires QueuePath(QueueStart(), steps, known, q)
    ensures Subsequence(q.taken + q.waiting, q.put)
    ensures |q.taken| + |q.waiting| + q.dropped == |q.put|
    ensures q.put == Puts(steps) && q.taken + q.waiting == FindRoom(0, steps) && q.dropped == Losses(0, steps)
    ensures |q.put| <= SUBSCRIPTION_QUEUE_SIZE ==> q.dropped == 0
    ensures q.sent == Filter(q.taken, known)
    ensures |q.waiting| <= SUBSCRIPTION_QUEUE_SIZE
    ensures q.warnings == WarningsFor(q.dropped)
  {
    QueueAlong(QueueStart(), steps, known, q);
    QueueTold(QueueStart(), steps, known, q);
    if |q.put| <= SUBSCRIPTION_QUEUE_SIZE {
      FewAreNotLost(0, steps);
    }
  }
}
