/**
  The key queue of the desktop client: a ring of 32 keys, and the protocol by
  which the input threads, the dispatch thread and the shutdown code share it
  under a mutex and a condition variable.
*/
module KeyQueue {

  const QUEUE_CAP: nat := 32
  const KEY_MAX: nat := 8

  type Key = string

  /** What the ring stores of a key: at most `KEY_MAX - 1` characters. */
  function Stored(key: Key): (r: Key)
    ensures |r| < KEY_MAX && r <= key && (|key| < KEY_MAX ==> r == key)
  {
    if |key| < KEY_MAX then key else key[..KEY_MAX - 1]
  }

  // ---------------------------------------------------------------------------
  // The ring
  // ---------------------------------------------------------------------------

  class Ring {
    const queue: array<Key>
    var qhead: nat
    var qtail: nat
    var qcount: nat

    ghost predicate Valid()
      reads this
    {
      && queue.Length == QUEUE_CAP
      && qhead < QUEUE_CAP && qcount <= QUEUE_CAP
      && qtail == (qhead + qcount) % QUEUE_CAP
    }

    ghost function Contents(): (s: seq<Key>)
      requires Valid()
      reads this, queue
      ensures |s| == qcount
    {
      seq(qcount, i requires 0 <= i < qcount && Valid() reads this, queue => queue[(qhead + i) % QUEUE_CAP])
    }

    constructor ()
      ensures Valid() && Contents() == [] && fresh(queue)
    {
      queue := new Key[QUEUE_CAP](_ => "");
      qhead, qtail, qcount := 0, 0, 0;
    }

    /** Queues a pressed key if there is room, else drops it. */
    method OnInput(key: Key, pressed: bool) returns (signal: bool)
      requires Valid()
      modifies this, queue
      ensures Valid()
      ensures signal == (pressed && |old(Contents())| < QUEUE_CAP)
      ensures Contents() == if signal then old(Contents()) + [Stored(key)] else old(Contents())
    {
      signal := false;
      if pressed && qcount < QUEUE_CAP {
        queue[qtail] := Stored(key);
        qtail := (qtail + 1) % QUEUE_CAP;
        qcount := qcount + 1;
        signal := true;
      }
    }

    method Take() returns (key: Key)
      requires Valid() && qcount > 0
      modifies this
      ensures Valid()
      ensures key == old(Contents())[0] && Contents() == old(Contents())[1..]
    {
      key := queue[qhead];
      qhead := (qhead + 1) % QUEUE_CAP;
      qcount := qcount - 1;
    }
  }

  // ---------------------------------------------------------------------------
  // The threads
  // ---------------------------------------------------------------------------

  /** The dispatch thread: about to take the mutex, testing the queue under it, having
      found nothing to do, asleep, awakened, sending a key, or gone. */
  datatype Worker = Outside | Testing | Dozing | Asleep | Awake | Sending(key: Key) | Exited

  /** The main thread: running, having set `stop`, and having signalled. */
  datatype Main = Running | StopSet | Signalled

  datatype State = State(
    queue: seq<Key>,
    stop: bool,
    worker: Worker,
    main: Main,
    accepted: seq<Key>,
    dispatched: seq<Key>,
    acceptedAtExit: nat)

  const Start := State([], false, Outside, Running, [], [], 0)

  predicate Locked(s: State) {
    s.worker.Testing? || s.worker.Dozing?
  }

  /** `Press` is a whole critical section of an input thread, `Signal` one of `main`;
      `WakeUp` is a wake-up nobody asked for. */
  datatype Step = Press(key: Key) | SetStop | Signal | Lock | Test | Sleep | WakeUp | Relock | Sent

  predicate Enabled(s: State, step: Step) {
    match step
    case Press(_) => !Locked(s)
    case SetStop => s.main.Running?
    case Signal => s.main.StopSet? && !Locked(s)
    case Lock => s.worker.Outside?
    case Test => s.worker.Testing?
    case Sleep => s.worker.Dozing?
    case WakeUp => s.worker.Asleep?
    case Relock => s.worker.Awake?
    case Sent => s.worker.Sending?
  }

  function Notify(w: Worker): Worker {
    if w.Asleep? then Awake else w
  }

  function Apply(s: State, step: Step): State
    requires Enabled(s, step)
  {
    match step
    case Press(key) =>
      if |s.queue| < QUEUE_CAP then
        s.(queue := s.queue + [Stored(key)], accepted := s.accepted + [Stored(key)], worker := Notify(s.worker))
      else s
    case SetStop => s.(stop := true, main := StopSet)
    case Signal => s.(main := Signalled, worker := Notify(s.worker))
    case Lock => s.(worker := Testing)
    case Test =>
      if s.queue == [] then
        if s.stop then s.(worker := Exited, acceptedAtExit := |s.accepted|) else s.(worker := Dozing)
      else s.(worker := Sending(s.queue[0]), queue := s.queue[1..])
    case Sleep => s.(worker := Asleep)
    case WakeUp => s.(worker := Awake)
    case Relock => s.(worker := Testing)
    case Sent => s.(worker := Outside, dispatched := s.dispatched + [s.worker.key])
  }

  /** The ring carries out the protocol: whatever a step does to the queue, the critical
      section behind it does to the ring; it signals exactly if a key was accepted, and the worker
      sends the key the ring gave it. */
  method Perform(ring: Ring, ghost s: State, step: Step) returns (signal: bool, taken: Key)
    requires Enabled(s, step) && ring.Valid() && ring.Contents() == s.queue
    modifies ring, ring.queue
    ensures ring.Valid() && ring.Contents() == Apply(s, step).queue
    ensures signal <==> |Apply(s, step).accepted| > |s.accepted|
    ensures step.Test? && s.queue != [] ==> Apply(s, step).worker == Sending(taken)
  {
    signal, taken := false, "";
    match step {
      case Press(key) =>
        signal := ring.OnInput(key, true);
      case Test =>
        if ring.qcount > 0 {
          taken := ring.Take();
        }
      case _ =>
    }
  }

  ghost predicate Path(s: State, steps: seq<Step>, s': State)
    decreases |steps|
  {
    if steps == [] then s == s'
    else Enabled(s, steps[0]) && Path(Apply(s, steps[0]), steps[1..], s')
  }

  function InHand(w: Worker): seq<Key> {
    if w.Sending? then [w.key] else []
  }

  ghost predicate Inv(s: State) {
    && |s.queue| <= QUEUE_CAP
    && s.accepted == s.dispatched + InHand(s.worker) + s.queue
    && (s.stop <==> !s.main.Running?)
    && (s.worker.Dozing? || s.worker.Asleep? ==> s.queue == [] && !s.main.Signalled?)
    && (s.worker.Exited? ==> s.stop && s.acceptedAtExit == |s.dispatched|)
  }

  lemma InvKept(s: State, step: Step)
    requires Inv(s) && Enabled(s, step)
    ensures Inv(Apply(s, step))
  {
    var s' := Apply(s, step);
    match step
    case Press(key) =>
      assert s.dispatched + InHand(s.worker) + (s.queue + [Stored(key)])
             == (s.dispatched + InHand(s.worker) + s.queue) + [Stored(key)];
    case Test =>
      if s.queue != [] {
        assert s.dispatched + [] + s.queue == s.dispatched + [s.queue[0]] + s.queue[1..];
      } else {
        assert s.accepted == s.dispatched;
      }
    case Sent => assert (s.dispatched + [s.worker.key]) + [] + s.queue == s.dispatched + [s.worker.key] + s.queue;
    case _ =>
  }

  lemma {:induction false} InvAlong(s: State, steps: seq<Step>, s': State)
    requires Inv(s) && Path(s, steps, s')
    ensures Inv(s')
    decreases |steps|
  {
    hide Inv;
    if steps != [] {
      InvKept(s, steps[0]);
      InvAlong(Apply(s, steps[0]), steps[1..], s');
    }
  }

  /** Every accepted key is dispatched, in hand or queued, in order and once; the worker
      leaves only when stopped, with everything accepted till then dispatched. */
  lemma KeysAreAccountedFor(steps: seq<Step>, s: State)
    requires Path(Start, steps, s)
    ensures s.accepted == s.dispatched + InHand(s.worker) + s.queue && |s.queue| <= QUEUE_CAP
    ensures s.worker.Exited? ==>
              s.stop && s.acceptedAtExit <= |s.accepted| && s.dispatched == s.accepted[..s.acceptedAtExit]
  {
    InvAlong(Start, steps, s);
  }

  /** The keys pressed in a run. */
  function Pressed(steps: seq<Step>): seq<Key> {
    if steps == [] then [] else (if steps[0].Press? then [Stored(steps[0].key)] else []) + Pressed(steps[1..])
  }

  lemma {:induction false} FewAreAccepted(s: State, steps: seq<Step>, s': State)
    requires Path(s, steps, s') && |s.queue| + |Pressed(steps)| <= QUEUE_CAP
    ensures s'.accepted == s.accepted + Pressed(steps)
    decreases |steps|
  {
    if steps != [] {
      var t := Apply(s, steps[0]);
      FewAreAccepted(t, steps[1..], s');
      if steps[0].Press? {
        var key := Stored(steps[0].key);
        assert s.accepted + [key] + Pressed(steps[1..]) == s.accepted + ([key] + Pressed(steps[1..]));
      }
    }
  }

  /** No key is dropped as long as no more are pressed than the queue can hold. */
  lemma NoKeyIsDropped(steps: seq<Step>, s: State)
    requires Path(Start, steps, s) && |Pressed(steps)| <= QUEUE_CAP
    ensures s.accepted == Pressed(steps)
  {
    FewAreAccepted(Start, steps, s);
  }

  /** Although `stop` is set outside the mutex, the wake-up that follows is never lost:
      once it is sent the worker is not asleep, nor about to be, ever again. */
  lemma ShutdownIsNotLost(steps: seq<Step>, s: State, more: seq<Step>, s': State)
    requires Path(Start, steps, s) && Path(s, more, s') && s.main.Signalled?
    ensures !s'.worker.Asleep? && !s'.worker.Dozing?
  {
    InvAlong(Start, steps, s);
    InvAlong(s, more, s');
    StaysSignalled(s, more, s');
  }

  lemma {:induction false} StaysSignalled(s: State, steps: seq<Step>, s': State)
    requires Path(s, steps, s') && s.main.Signalled?
    ensures s'.main.Signalled?
    decreases |steps|
  {
    if steps != [] {
      StaysSignalled(Apply(s, steps[0]), steps[1..], s');
    }
  }

  predicate ByWorker(step: Step) {
    !step.Press? && !step.SetStop? && !step.Signal?
  }

  /** How much the worker still has to do before it leaves. */
  function Work(s: State): nat {
    4 * |s.queue| +
    match s.worker
    case Exited => 0
    case Testing => 1
    case Outside => 2
    case Awake => 2
    case Sending(_) => 3
    case Dozing => 4
    case Asleep => 3
  }

  /** After the wake-up the worker always has a step to take until it leaves, and every
      step it takes brings it closer: it leaves however it is scheduled, unless keys keep
      coming for ever. */
  lemma WorkerLeaves(steps: seq<Step>, s: State)
    requires Path(Start, steps, s) && s.main.Signalled? && !s.worker.Exited?
    ensures exists step :: ByWorker(step) && Enabled(s, step)
    ensures forall step :: ByWorker(step) && Enabled(s, step) ==> Work(Apply(s, step)) < Work(s)
  {
    InvAlong(Start, steps, s);
    var step := match s.worker
      case Outside => Lock
      case Testing => Test
      case Awake => Relock
      case Sending(_) => Sent
      case _ => Sleep;
    assert ByWorker(step) && Enabled(s, step);
  }

  /** A key accepted after the worker has left stays in the queue for ever. */
  lemma {:induction false} LateKeysStay(s: State, steps: seq<Step>, s': State)
    requires s.worker.Exited? && Path(s, steps, s')
    ensures s'.worker.Exited? && s'.dispatched == s.dispatched && s.queue <= s'.queue
    decreases |steps|
  {
    if steps != [] {
      LateKeysStay(Apply(s, steps[0]), steps[1..], s');
    }
  }

  /** A key counts as lost when no continuation dispatches it. */
  ghost predicate NeverDispatched(s: State, i: nat) {
    forall more, s' :: Path(s, more, s') ==> |s'.dispatched| <= i
  }

  lemma {:induction false} DispatchNext(s: State, i: nat) returns (steps: seq<Step>, s': State)
    requires Inv(s) && !s.worker.Exited? && |s.dispatched| <= i < |s.accepted|
    ensures Path(s, steps, s') && |s'.dispatched| > i
    decreases Work(s)
  {
    var step := match s.worker
      case Outside => Lock
      case Testing => Test
      case Dozing => Sleep
      case Asleep => WakeUp
      case Awake => Relock
      case _ => Sent;
    InvKept(s, step);
    var t := Apply(s, step);
    if |t.dispatched| > i {
      assert Path(t, [], t);
      steps, s' := [step], t;
    } else {
      var rest;
      rest, s' := DispatchNext(t, i);
      steps := [step] + rest;
    }
  }

  /** Which accepted keys are lost: exactly those not yet dispatched when the worker has
      left, that is, those accepted after it left. */
  lemma LostExactlyAfterExit(steps: seq<Step>, s: State, i: nat)
    requires Path(Start, steps, s) && i < |s.accepted|
    ensures NeverDispatched(s, i) <==> s.worker.Exited? && i >= s.acceptedAtExit
  {
    InvAlong(Start, steps, s);
    if s.worker.Exited? {
      forall more, s' | Path(s, more, s') ensures s'.dispatched == s.dispatched {
        LateKeysStay(s, more, s');
      }
      assert Path(s, [], s);
    } else if |s.dispatched| > i {
      assert Path(s, [], s);
    } else {
      var more, s' := DispatchNext(s, i);
    }
  }

  /** Such a key there can be: the shutdown is complete before it is pressed. At that
      point only the thread that feeds keys for tests still presses any. */
  lemma LateKeyIsLost() returns (steps: seq<Step>, s: State)
    ensures Path(Start, steps, s) && s.worker.Exited?
    ensures s.accepted == ["L1"] && s.dispatched == [] && NeverDispatched(s, 0)
  {
    steps := [SetStop, Signal, Lock, Test, Press("L1")];
    var s1 := Apply(Start, SetStop);
    var s2 := Apply(s1, Signal);
    var s3 := Apply(s2, Lock);
    var s4 := Apply(s3, Test);
    s := Apply(s4, Press("L1"));
    PathOfNothing(s);
    assert steps[1..][1..][1..][1..] == [Press("L1")];
    assert Path(s4, [Press("L1")], s);
    assert Path(s3, steps[1..][1..][1..], s);
    assert Path(s2, steps[1..][1..], s);
    assert Path(s1, steps[1..], s);
    LostExactlyAfterExit(steps, s, 0);
  }

  lemma PathOfNothing(s: State)
    ensures Path(s, [], s)
  {
  }
}
