/**
  The process-wide worker thread behind one name: any number of client instances
  attach to it, queue calls, give up on them and close, while one thread serves
  the queue. A state is everything those parties share; a step is one section of
  the source that no other party can observe half done. The thread, the callers
  and the event loops interleave freely.
*/
module BlockingWorkers {
  import opened Wrappers

  type JobId = nat
  type ClientId = nat

  /** What a call produced: a result or an exception. */
  datatype Outcome = Result(value: int) | Raised(error: int)

  datatype Future = Pending | Done(outcome: Outcome) | Cancelled

  /** The coroutine awaiting a job. `Overdue` has declared the worker wedged,
      `GaveUp` has set the abandonment token, `Gone` has returned or raised. */
  datatype Caller = Waiting | Overdue | GaveUp | Gone

  /** How far an instance is: building (`Arriving`, `Locked`, `Creating`), attached
      (`Ready`), or between passing the gates of `run` or `aclose` and queueing. */
  datatype Stage = Arriving | Locked | Creating | Ready | Admitted | Draining

  datatype Client = Client(stage: Stage, closed: bool)

  datatype Job = Job(client: ClientId, drain: bool)

  datatype Thread =
    | AtGet
    | Holding(id: JobId)
    | Calling(id: JobId)
    | Returned(id: JobId, outcome: Outcome)
    | Clearing(id: JobId, outcome: Outcome)
    | Posting(id: JobId, outcome: Outcome)

  datatype State = State(
    lock: Option<ClientId>,
    registered: bool,
    threads: seq<Thread>,
    clients: map<ClientId, Client>,
    wedged: bool,
    // every job ever queued, by number; the first `taken` have left the queue
    jobs: seq<Job>,
    taken: nat,
    callers: seq<Caller>,
    futures: seq<Future>,
    abandoned: set<JobId>,
    // settlements scheduled on event loops and not yet run
    posted: map<JobId, Outcome>,
    lostLoops: set<ClientId>,
    // what has happened
    started: seq<JobId>,
    skipped: set<JobId>,
    finished: map<JobId, Outcome>)

  const Start := State(None, false, [], map[], false, [], 0, [], [], {}, map[], {}, [], {}, map[])

  /** An instance attaches, gets past the gates of `run` or `aclose`, queues, or loses its loop. */
  datatype ClientAct = Arrive | Lock | Lookup | StartThread | Admit | Submit | Close | SubmitDrain | LoseLoop

  /** The coroutine awaiting a job, and the loop callback that settles its future. */
  datatype CallerAct = BlowDeadline | Abandon | CancelWait | CancelFuture | CancelDrain | Leave | Settle

  datatype ThreadAct = Get | Check | Return(outcome: Outcome) | SeeWedged | Clear | Post

  datatype Step =
    | ByClient(c: ClientId, clientAct: ClientAct)
    | ByCaller(id: JobId, callerAct: CallerAct)
    | ByThread(t: nat, threadAct: ThreadAct)

  // ---------------------------------------------------------------------------
  // Instances
  // ---------------------------------------------------------------------------

  predicate AtStage(s: State, c: ClientId, stage: Stage) {
    c in s.clients && s.clients[c].stage == stage
  }

  predicate ClientEnabled(s: State, c: ClientId, act: ClientAct) {
    match act
    case Arrive => c !in s.clients
    case Lock => AtStage(s, c, Arriving) && s.lock.None?
    case Lookup => AtStage(s, c, Locked)
    case StartThread => AtStage(s, c, Creating)
    case Admit => AtStage(s, c, Ready) && !s.clients[c].closed && !s.wedged
    case Submit => AtStage(s, c, Admitted)
    case Close => AtStage(s, c, Ready)
    case SubmitDrain => AtStage(s, c, Draining)
    case LoseLoop => c in s.clients
  }

  function To(s: State, c: ClientId, stage: Stage): State
    requires c in s.clients
  {
    s.(clients := s.clients[c := s.clients[c].(stage := stage)])
  }

  function Queue(s: State, job: Job): State {
    s.(jobs := s.jobs + [job], callers := s.callers + [Waiting], futures := s.futures + [Pending])
  }

  function ClientApply(s: State, c: ClientId, act: ClientAct): State
    requires ClientEnabled(s, c, act)
  {
    match act
    case Arrive => s.(clients := s.clients[c := Client(Arriving, false)])
    case Lock => To(s, c, Locked).(lock := Some(c))
    case Lookup =>
      if s.registered then To(s, c, Ready).(lock := None) else To(s, c, Creating).(registered := true)
    case StartThread => To(s, c, Ready).(lock := None, threads := s.threads + [AtGet])
    case Admit => To(s, c, Admitted)
    case Submit => Queue(To(s, c, Ready), Job(c, false))
    case Close => s.(clients := s.clients[c := Client(if s.wedged then Ready else Draining, true)])
    case SubmitDrain => Queue(To(s, c, Ready), Job(c, true))
    case LoseLoop => s.(lostLoops := s.lostLoops + {c})
  }

  // ---------------------------------------------------------------------------
  // Callers and event loops
  // ---------------------------------------------------------------------------

  predicate IsCaller(s: State, id: JobId, caller: Caller) {
    id < |s.jobs| && id < |s.callers| && id < |s.futures| && s.callers[id] == caller
  }

  predicate CallerEnabled(s: State, id: JobId, act: CallerAct) {
    match act
    case BlowDeadline => IsCaller(s, id, Waiting) && !s.jobs[id].drain && s.futures[id].Pending?
    case Abandon => IsCaller(s, id, Overdue) && !s.jobs[id].drain
    case CancelWait => IsCaller(s, id, Waiting) && !s.jobs[id].drain
    case CancelFuture => IsCaller(s, id, GaveUp)
    case CancelDrain => IsCaller(s, id, Waiting) && s.jobs[id].drain
    case Leave => IsCaller(s, id, Waiting) && !s.futures[id].Pending?
    case Settle => id in s.posted && id < |s.futures|
  }

  function Resolve(s: State, id: JobId, future: Future): State
    requires id < |s.futures|
  {
    if s.futures[id].Pending? then s.(futures := s.futures[id := future]) else s
  }

  function CallerApply(s: State, id: JobId, act: CallerAct): State
    requires CallerEnabled(s, id, act)
  {
    match act
    case BlowDeadline => s.(wedged := true, callers := s.callers[id := Overdue])
    case Abandon => s.(abandoned := s.abandoned + {id}, callers := s.callers[id := GaveUp])
    case CancelWait => s.(abandoned := s.abandoned + {id}, callers := s.callers[id := GaveUp])
    case CancelFuture => Resolve(s, id, Cancelled).(callers := s.callers[id := Gone])
    case CancelDrain => Resolve(s, id, Cancelled).(callers := s.callers[id := Gone])
    case Leave => s.(callers := s.callers[id := Gone])
    case Settle => Resolve(s, id, Done(s.posted[id])).(posted := s.posted - {id})
  }

  // ---------------------------------------------------------------------------
  // The serve thread
  // ---------------------------------------------------------------------------

  predicate ThreadEnabled(s: State, t: nat, act: ThreadAct) {
    t < |s.threads| &&
    match act
    case Get => s.threads[t].AtGet? && s.taken < |s.jobs|
    case Check => s.threads[t].Holding?
    case Return(_) => s.threads[t].Calling?
    case SeeWedged => s.threads[t].Returned?
    case Clear => s.threads[t].Clearing?
    case Post => s.threads[t].Posting? && s.threads[t].id < |s.jobs|
  }

  function ThreadApply(s: State, t: nat, act: ThreadAct): State
    requires ThreadEnabled(s, t, act)
  {
    var now := s.threads[t];
    match act
    case Get => s.(taken := s.taken + 1, threads := s.threads[t := Holding(s.taken)])
    case Check =>
      if now.id in s.abandoned then s.(threads := s.threads[t := AtGet], skipped := s.skipped + {now.id})
      else s.(threads := s.threads[t := Calling(now.id)], started := s.started + [now.id])
    case Return(out) =>
      s.(threads := s.threads[t := Returned(now.id, out)], finished := s.finished[now.id := out])
    case SeeWedged =>
      s.(threads := s.threads[t := if s.wedged then Clearing(now.id, now.outcome) else Posting(now.id, now.outcome)])
    case Clear =>
      s.(wedged := false, threads := s.threads[t := Posting(now.id, now.outcome)])
    case Post =>
      s.(threads := s.threads[t := AtGet],
         posted := if s.jobs[now.id].client in s.lostLoops then s.posted else s.posted[now.id := now.outcome])
  }

  // ---------------------------------------------------------------------------
  // Runs
  // ---------------------------------------------------------------------------

  predicate Enabled(s: State, step: Step) {
    match step
    case ByClient(c, act) => ClientEnabled(s, c, act)
    case ByCaller(id, act) => CallerEnabled(s, id, act)
    case ByThread(t, act) => ThreadEnabled(s, t, act)
  }

  function Apply(s: State, step: Step): State
    requires Enabled(s, step)
  {
    match step
    case ByClient(c, act) => ClientApply(s, c, act)
    case ByCaller(id, act) => CallerApply(s, id, act)
    case ByThread(t, act) => ThreadApply(s, t, act)
  }

  /** `steps` lead from `s` to `s'`. */
  ghost predicate Path(s: State, steps: seq<Step>, s': State)
    decreases |steps|
  {
    if steps == [] then s == s'
    else Enabled(s, steps[0]) && Path(Apply(s, steps[0]), steps[1..], s')
  }

  // ---------------------------------------------------------------------------
  // The invariant
  // ---------------------------------------------------------------------------

  /** The creation lock makes the serve thread unique. */
  ghost predicate OneThread(s: State) {
    && |s.threads| <= 1
    && (forall c :: c in s.clients ==> (s.clients[c].stage in {Locked, Creating} <==> s.lock == Some(c)))
    && (s.lock.Some? ==> s.lock.value in s.clients)
    && (forall c :: c in s.clients && s.clients[c].stage == Creating ==> s.registered && s.threads == [])
    && (s.threads != [] ==> s.registered)
    && (forall c :: c in s.clients && s.clients[c].stage in {Ready, Admitted, Draining} ==> s.threads != [])
    && (s.jobs != [] ==> s.threads != [])
    && (s.registered && s.threads == [] ==> s.lock.Some? && s.clients[s.lock.value].stage == Creating)
  }

  /** Jobs that left the queue and whose token has been looked at. */
  function Checked(s: State): nat {
    if |s.threads| == 1 && s.threads[0].Holding? && s.taken > 0 then s.taken - 1 else s.taken
  }

  /** The jobs below `n` that were not skipped, in queue order. */
  function InOrder(n: nat, skipped: set<JobId>): seq<JobId> {
    if n == 0 then [] else InOrder(n - 1, skipped) + (if n - 1 in skipped then [] else [n - 1])
  }

  ghost predicate Served(s: State) {
    && s.taken <= |s.jobs| == |s.callers| == |s.futures|
    && (s.threads == [] ==> s.taken == 0)
    && (s.threads != [] && !s.threads[0].AtGet? ==> s.taken > 0 && s.threads[0].id == s.taken - 1)
    && (s.threads != [] && !s.threads[0].AtGet? && !s.threads[0].Holding? ==> s.threads[0].id !in s.skipped)
    && s.started == InOrder(Checked(s), s.skipped)
    && (forall id :: id in s.skipped ==> id < Checked(s) && id in s.abandoned)
    && (forall id :: id in s.abandoned ==> id < |s.jobs| && !s.jobs[id].drain)
  }

  predicate InCall(s: State, id: JobId) {
    |s.threads| == 1 && s.threads[0] == Calling(id)
  }

  /** The thread has made the call but not yet handed its outcome over. */
  predicate Undelivered(s: State, id: JobId) {
    |s.threads| == 1 && (s.threads[0].Returned? || s.threads[0].Clearing? || s.threads[0].Posting?)
    && s.threads[0].id == id
  }

  /** A call is finished once it was started and has returned. */
  ghost predicate Finished(s: State) {
    && (forall id: nat :: id in s.finished <==> id < Checked(s) && id !in s.skipped && !InCall(s, id))
    && (forall id: nat :: Undelivered(s, id) ==> id in s.finished && s.finished[id] == s.threads[0].outcome)
  }

  /** Nothing but the outcome of the job's own call ever reaches its future. */
  ghost predicate Settled(s: State) {
    && (forall id :: id in s.posted ==> id in s.finished && s.posted[id] == s.finished[id])
    && (forall id :: 0 <= id < |s.futures| && s.futures[id].Done? ==>
          id in s.finished && s.futures[id].outcome == s.finished[id])
  }

  /** An instance queues nothing behind its own drain but further drains. */
  ghost predicate Ordered(s: State) {
    && (forall c :: c in s.clients && s.clients[c].stage == Admitted ==> !s.clients[c].closed)
    && (forall c :: c in s.clients && s.clients[c].stage == Draining ==> s.clients[c].closed)
    && (forall i :: 0 <= i < |s.jobs| ==> s.jobs[i].client in s.clients)
    && (forall i :: 0 <= i < |s.jobs| && s.jobs[i].drain ==> s.clients[s.jobs[i].client].closed)
    && (forall i, j :: 0 <= i < j < |s.jobs| && s.jobs[i].drain && s.jobs[i].client == s.jobs[j].client ==>
          s.jobs[j].drain)
  }

  ghost predicate Inv(s: State) {
    OneThread(s) && Served(s) && Finished(s) && Settled(s) && Ordered(s)
  }

  lemma {:induction false} LaterSkipsDoNotMatter(n: nat, skipped: set<JobId>, id: JobId)
    requires id >= n
    ensures InOrder(n, skipped + {id}) == InOrder(n, skipped)
  {
    if n > 0 {
      LaterSkipsDoNotMatter(n - 1, skipped, id);
    }
  }

  /** What a caller or a loop callback leaves alone. */
  ghost predicate SameService(s: State, s': State) {
    && s'.threads == s.threads && s'.taken == s.taken && s'.skipped == s.skipped
    && s'.started == s.started && s'.finished == s.finished && s'.jobs == s.jobs
    && s'.clients == s.clients && s'.lock == s.lock && s'.registered == s.registered
    && |s'.callers| == |s.callers| && |s'.futures| == |s.futures|
  }

  lemma CallerLeaves(s: State, id: JobId, act: CallerAct)
    requires CallerEnabled(s, id, act)
    ensures SameService(s, CallerApply(s, id, act))
  {
  }

  lemma OneThreadByClient(s: State, c: ClientId, act: ClientAct)
    requires OneThread(s) && ClientEnabled(s, c, act)
    ensures OneThread(ClientApply(s, c, act))
  {
    match act
    case Arrive =>
    case Lock =>
    case Lookup =>
    case StartThread =>
    case Admit =>
    case Submit =>
    case Close =>
    case SubmitDrain =>
    case LoseLoop =>
  }

  lemma OneThreadByCaller(s: State, id: JobId, act: CallerAct)
    requires OneThread(s) && CallerEnabled(s, id, act)
    ensures OneThread(CallerApply(s, id, act))
  {
    hide CallerApply, CallerEnabled;
    CallerLeaves(s, id, act);
  }

  lemma OneThreadByThread(s: State, t: nat, act: ThreadAct)
    requires OneThread(s) && ThreadEnabled(s, t, act)
    ensures OneThread(ThreadApply(s, t, act))
  {
  }

  lemma ServedByClient(s: State, c: ClientId, act: ClientAct)
    requires OneThread(s) && Served(s) && ClientEnabled(s, c, act)
    ensures Served(ClientApply(s, c, act))
  {
    hide InOrder;
  }

  lemma ServedByCaller(s: State, id: JobId, act: CallerAct)
    requires OneThread(s) && Served(s) && CallerEnabled(s, id, act)
    ensures Served(CallerApply(s, id, act))
  {
    hide InOrder, OneThread;
    CallerLeaves(s, id, act);
  }

  lemma ServedByThread(s: State, t: nat, act: ThreadAct)
    requires OneThread(s) && Served(s) && ThreadEnabled(s, t, act)
    ensures Served(ThreadApply(s, t, act))
  {
    assert |s.threads| == 1 && t == 0;
    hide OneThread;
    match act
    case Check =>
      LaterSkipsDoNotMatter(Checked(s), s.skipped, Checked(s));
    case Get => hide InOrder;
    case Return(_) => hide InOrder;
    case SeeWedged => hide InOrder;
    case Clear => hide InOrder;
    case Post => hide InOrder;
  }

  lemma FinishedByClient(s: State, c: ClientId, act: ClientAct)
    requires OneThread(s) && Served(s) && Finished(s) && ClientEnabled(s, c, act)
    ensures Finished(ClientApply(s, c, act))
  {
    hide InOrder;
  }

  lemma FinishedByCaller(s: State, id: JobId, act: CallerAct)
    requires OneThread(s) && Served(s) && Finished(s) && CallerEnabled(s, id, act)
    ensures Finished(CallerApply(s, id, act))
  {
    hide CallerApply, CallerEnabled, InOrder, OneThread, Served;
    CallerLeaves(s, id, act);
  }

  lemma FinishedByThread(s: State, t: nat, act: ThreadAct)
    requires OneThread(s) && Served(s) && Finished(s) && ThreadEnabled(s, t, act)
    ensures Finished(ThreadApply(s, t, act))
  {
    hide InOrder;
  }

  lemma SettledByClient(s: State, c: ClientId, act: ClientAct)
    requires OneThread(s) && Served(s) && Finished(s) && Settled(s) && ClientEnabled(s, c, act)
    ensures Settled(ClientApply(s, c, act))
  {
    hide InOrder, OneThread, Served, Finished;
  }

  lemma SettledByCaller(s: State, id: JobId, act: CallerAct)
    requires OneThread(s) && Served(s) && Finished(s) && Settled(s) && CallerEnabled(s, id, act)
    ensures Settled(CallerApply(s, id, act))
  {
    hide InOrder, OneThread, Served, Finished;
  }

  lemma SettledByThread(s: State, t: nat, act: ThreadAct)
    requires OneThread(s) && Served(s) && Finished(s) && Settled(s) && ThreadEnabled(s, t, act)
    ensures Settled(ThreadApply(s, t, act))
  {
    hide InOrder;
  }

  lemma OrderedByClient(s: State, c: ClientId, act: ClientAct)
    requires Ordered(s) && ClientEnabled(s, c, act)
    ensures Ordered(ClientApply(s, c, act))
  {
    hide InOrder;
  }

  lemma OrderedByCaller(s: State, id: JobId, act: CallerAct)
    requires Ordered(s) && CallerEnabled(s, id, act)
    ensures Ordered(CallerApply(s, id, act))
  {
    hide CallerApply, CallerEnabled;
    CallerLeaves(s, id, act);
  }

  lemma OrderedByThread(s: State, t: nat, act: ThreadAct)
    requires Ordered(s) && ThreadEnabled(s, t, act)
    ensures Ordered(ThreadApply(s, t, act))
  {
    hide InOrder;
  }

  lemma InvKept(s: State, step: Step)
    requires Inv(s) && Enabled(s, step)
    ensures Inv(Apply(s, step))
  {
    hide OneThread, Served, Finished, Settled, Ordered;
    match step
    case ByClient(c, act) =>
      OneThreadByClient(s, c, act);
      ServedByClient(s, c, act);
      FinishedByClient(s, c, act);
      SettledByClient(s, c, act);
      OrderedByClient(s, c, act);
    case ByCaller(id, act) =>
      OneThreadByCaller(s, id, act);
      ServedByCaller(s, id, act);
      FinishedByCaller(s, id, act);
      SettledByCaller(s, id, act);
      OrderedByCaller(s, id, act);
    case ByThread(t, act) =>
      OneThreadByThread(s, t, act);
      ServedByThread(s, t, act);
      FinishedByThread(s, t, act);
      SettledByThread(s, t, act);
      OrderedByThread(s, t, act);
  }

  lemma InvAtStart()
    ensures Inv(Start)
  {
  }

  lemma {:induction false} InvAlong(s: State, steps: seq<Step>, s': State)
    requires Inv(s) && Path(s, steps, s')
    ensures Inv(s')
    decreases |steps|
  {
    hide Inv;
    if steps != [] {
      InvKept(s, steps[0]);
      InvAlong(Apply(s, steps[0]), steps[1..], s');
    }
  }

  lemma ReachableInv(steps: seq<Step>, s: State)
    requires Path(Start, steps, s)
    ensures Inv(s)
  {
    InvAtStart();
    InvAlong(Start, steps, s);
  }

  lemma {:induction false} InOrderMembers(n: nat, skipped: set<JobId>, id: JobId)
    ensures id in InOrder(n, skipped) <==> id < n && id !in skipped
  {
    if n > 0 {
      InOrderMembers(n - 1, skipped, id);
    }
  }

  lemma {:induction false} InOrderIncreases(n: nat, skipped: set<JobId>, i: nat, j: nat)
    requires i < j < |InOrder(n, skipped)|
    ensures InOrder(n, skipped)[i] < InOrder(n, skipped)[j]
  {
    var rest := InOrder(n - 1, skipped);
    if j < |rest| {
      InOrderIncreases(n - 1, skipped, i, j);
    } else {
      InOrderMembers(n - 1, skipped, rest[i]);
    }
  }

  // ---------------------------------------------------------------------------
  // What every run keeps
  // ---------------------------------------------------------------------------

  /** However many instances race to attach, calls are made one at a time: of all the
      calls ever started at most one has not returned. */
  lemma OneCallAtATime(steps: seq<Step>, s: State, i: JobId, j: JobId)
    requires Path(Start, steps, s)
    requires i in s.started && i !in s.finished && j in s.started && j !in s.finished
    ensures i == j && InCall(s, i)
  {
    ReachableInv(steps, s);
    InOrderMembers(Checked(s), s.skipped, i);
    InOrderMembers(Checked(s), s.skipped, j);
  }

  /** Calls start in the order they were queued, each once, and a job the thread has
      passed was either started or skipped for an abandoned caller. */
  lemma QueueOrder(steps: seq<Step>, s: State)
    requires Path(Start, steps, s)
    ensures forall i, j :: 0 <= i < j < |s.started| ==> s.started[i] < s.started[j]
    ensures forall id: JobId :: id in s.started <==> id < Checked(s) && id !in s.skipped
    ensures s.skipped <= s.abandoned
  {
    ReachableInv(steps, s);
    forall i, j | 0 <= i < j < |s.started| ensures s.started[i] < s.started[j] {
      InOrderIncreases(Checked(s), s.skipped, i, j);
    }
    forall id: JobId ensures id in s.started <==> id < Checked(s) && id !in s.skipped {
      InOrderMembers(Checked(s), s.skipped, id);
    }
  }

  /** What no step takes back. */
  ghost predicate Extends(s: State, s': State) {
    && s.jobs <= s'.jobs && |s.futures| <= |s'.futures|
    && s.abandoned <= s'.abandoned && s.skipped <= s'.skipped
    && (forall id :: id in s.finished ==> id in s'.finished && s'.finished[id] == s.finished[id])
    && (forall id :: 0 <= id < |s.futures| && !s.futures[id].Pending? ==> s'.futures[id] == s.futures[id])
  }

  lemma ExtendsByClient(s: State, c: ClientId, act: ClientAct)
    requires Inv(s) && ClientEnabled(s, c, act)
    ensures Extends(s, ClientApply(s, c, act))
  {
    hide Settled, Ordered, InOrder;
  }

  lemma ExtendsByCaller(s: State, job: JobId, act: CallerAct)
    requires Inv(s) && CallerEnabled(s, job, act)
    ensures Extends(s, CallerApply(s, job, act))
  {
    hide Settled, Ordered, InOrder;
  }

  lemma ExtendsByThread(s: State, t: nat, act: ThreadAct)
    requires Inv(s) && ThreadEnabled(s, t, act)
    ensures Extends(s, ThreadApply(s, t, act))
  {
    hide Settled, Ordered, InOrder;
  }

  lemma StepExtends(s: State, step: Step)
    requires Inv(s) && Enabled(s, step)
    ensures Extends(s, Apply(s, step))
  {
    hide Inv, Extends;
    match step
    case ByClient(c, act) => ExtendsByClient(s, c, act);
    case ByCaller(job, act) => ExtendsByCaller(s, job, act);
    case ByThread(t, act) => ExtendsByThread(s, t, act);
  }

  lemma {:induction false} PathExtends(s: State, steps: seq<Step>, s': State)
    requires Inv(s) && Path(s, steps, s')
    ensures Extends(s, s')
    decreases |steps|
  {
    hide Inv;
    if steps != [] {
      var t := Apply(s, steps[0]);
      InvKept(s, steps[0]);
      StepExtends(s, steps[0]);
      PathExtends(t, steps[1..], s');
    }
  }

  /** A future is settled at most once, and with nothing but its own call's outcome. */
  lemma SettledOnce(steps: seq<Step>, s: State, more: seq<Step>, s': State, id: JobId)
    requires Path(Start, steps, s) && Path(s, more, s')
    requires id < |s.futures| && !s.futures[id].Pending?
    ensures id < |s'.futures| && s'.futures[id] == s.futures[id]
    ensures s.futures[id].Done? ==> id in s.started && id in s.finished && s.futures[id] == Done(s.finished[id])
  {
    ReachableInv(steps, s);
    PathExtends(s, more, s');
    InOrderMembers(Checked(s), s.skipped, id);
  }

  ghost predicate Doomed(s: State, id: JobId) {
    id in s.abandoned && (id >= Checked(s) || id in s.skipped)
  }

  lemma DoomedByClient(s: State, c: ClientId, act: ClientAct, id: JobId)
    requires Inv(s) && Doomed(s, id) && ClientEnabled(s, c, act)
    ensures Doomed(ClientApply(s, c, act), id)
  {
    hide Finished, Settled, Ordered, InOrder;
  }

  lemma DoomedByCaller(s: State, job: JobId, act: CallerAct, id: JobId)
    requires Inv(s) && Doomed(s, id) && CallerEnabled(s, job, act)
    ensures Doomed(CallerApply(s, job, act), id)
  {
    hide Finished, Settled, Ordered, InOrder;
  }

  lemma DoomedByThread(s: State, t: nat, act: ThreadAct, id: JobId)
    requires Inv(s) && Doomed(s, id) && ThreadEnabled(s, t, act)
    ensures Doomed(ThreadApply(s, t, act), id)
  {
    hide Finished, Settled, Ordered, InOrder;
  }

  lemma DoomedStays(s: State, step: Step, id: JobId)
    requires Inv(s) && Enabled(s, step) && Doomed(s, id)
    ensures Doomed(Apply(s, step), id)
  {
    hide Inv, Doomed;
    match step
    case ByClient(c, act) => DoomedByClient(s, c, act, id);
    case ByCaller(job, act) => DoomedByCaller(s, job, act, id);
    case ByThread(t, act) => DoomedByThread(s, t, act, id);
  }

  lemma {:induction false} DoomedAlong(s: State, steps: seq<Step>, s': State, id: JobId)
    requires Inv(s) && Path(s, steps, s') && Doomed(s, id)
    ensures Doomed(s', id)
    decreases |steps|
  {
    hide Inv, Doomed;
    if steps != [] {
      InvKept(s, steps[0]);
      DoomedStays(s, steps[0], id);
      DoomedAlong(Apply(s, steps[0]), steps[1..], s', id);
    }
  }

  /** A job abandoned before the thread looked at its token never starts. */
  lemma AbandonedNeverStarts(steps: seq<Step>, s: State, more: seq<Step>, s': State, id: JobId)
    requires Path(Start, steps, s) && Path(s, more, s')
    requires id in s.abandoned && id >= Checked(s)
    ensures id !in s'.started
  {
    ReachableInv(steps, s);
    DoomedAlong(s, more, s', id);
    InvAlong(s, more, s');
    InOrderMembers(Checked(s'), s'.skipped, id);
  }

  /** When a drain has completed, every job queued before it has returned or was
      skipped for a caller that gave up, and none of them is running. */
  lemma DrainLaw(steps: seq<Step>, s: State, drain: JobId, id: JobId)
    requires Path(Start, steps, s)
    requires drain < |s.futures| && s.futures[drain].Done?
    requires id < drain
    ensures id in s.finished || (id in s.skipped && id in s.abandoned)
    ensures !InCall(s, id)
  {
    ReachableInv(steps, s);
  }

  /** Restart safety: once an instance's drain has completed, no call of that instance
      runs or ever will; whatever of it was started had returned by then. */
  lemma ClosedInstanceIsSilent(steps: seq<Step>, s: State, more: seq<Step>, s': State, drain: JobId, id: JobId)
    requires Path(Start, steps, s) && Path(s, more, s')
    requires drain < |s.jobs| && drain < |s.futures| && s.jobs[drain].drain && s.futures[drain].Done?
    requires id < |s'.jobs| && s'.jobs[id] == Job(s.jobs[drain].client, false)
    requires id in s'.started
    ensures id in s.finished && id < drain
  {
    ReachableInv(steps, s);
    InvAlong(s, more, s');
    PathExtends(s, more, s');
    assert s'.jobs[drain] == s.jobs[drain];
    assert id < drain;
    DrainLaw(steps, s, drain, id);
    InOrderMembers(Checked(s'), s'.skipped, id);
  }
}
