/**
  How long the worker stays wedged. The flag is documented to last until the
  overdue call returns. The thread looks at it once after each call, callers set
  it whenever a deadline passes, and nothing orders the two, so the flag can
  outlive its call and a call can outlive its flag. Which of these can happen
  from a given state is decided here exactly.
*/
module WedgedVerdicts {
  import opened BlockingWorkers

  // ---------------------------------------------------------------------------
  // Calls to come
  // ---------------------------------------------------------------------------

  /** The thread will still look at `wedged` for the call it is in. */
  predicate BeforeVerdict(s: State) {
    |s.threads| == 1 && (s.threads[0].Calling? || s.threads[0].Returned? || s.threads[0].Clearing?)
  }

  /** A call is in progress, or is still to come: an unabandoned job has not been looked
      at yet, or an instance is past the gates and about to queue one. */
  ghost predicate CallToCome(s: State) {
    || BeforeVerdict(s)
    || (exists id: JobId :: Checked(s) <= id < |s.jobs| && id !in s.abandoned)
    || (exists c :: c in s.clients && s.clients[c].stage in {Admitted, Draining})
  }

  ghost predicate Stuck(s: State) {
    s.wedged && !CallToCome(s)
  }

  lemma StuckByClient(s: State, c: ClientId, act: ClientAct)
    requires Inv(s) && Stuck(s) && ClientEnabled(s, c, act)
    ensures Stuck(ClientApply(s, c, act)) && ClientApply(s, c, act).started == s.started
  {
    hide Finished, Settled, Ordered, InOrder;
  }

  lemma StuckByCaller(s: State, id: JobId, act: CallerAct)
    requires Inv(s) && Stuck(s) && CallerEnabled(s, id, act)
    ensures Stuck(CallerApply(s, id, act)) && CallerApply(s, id, act).started == s.started
  {
    hide Inv;
  }

  lemma StuckByThread(s: State, t: nat, act: ThreadAct)
    requires Inv(s) && Stuck(s) && ThreadEnabled(s, t, act)
    ensures Stuck(ThreadApply(s, t, act)) && ThreadApply(s, t, act).started == s.started
  {
    hide Finished, Settled, Ordered, InOrder;
  }

  lemma {:induction false} StuckAlong(s: State, steps: seq<Step>, s': State)
    requires Inv(s) && Stuck(s) && Path(s, steps, s')
    ensures Stuck(s') && s'.started == s.started
    decreases |steps|
  {
    hide Inv, Stuck;
    if steps != [] {
      InvKept(s, steps[0]);
      match steps[0] {
        case ByClient(c, act) => StuckByClient(s, c, act);
        case ByCaller(id, act) => StuckByCaller(s, id, act);
        case ByThread(t, act) => StuckByThread(s, t, act);
      }
      StuckAlong(Apply(s, steps[0]), steps[1..], s');
    }
  }

  lemma {:induction false} PathThen(s: State, steps: seq<Step>, s': State, step: Step)
    requires Path(s, steps, s') && Enabled(s', step)
    ensures Path(s, steps + [step], Apply(s', step))
    decreases |steps|
  {
    if steps == [] {
      assert [step][1..] == [];
    } else {
      assert (steps + [step])[1..] == steps[1..] + [step];
      PathThen(Apply(s, steps[0]), steps[1..], s', step);
    }
  }

  lemma PathOfNothing(s: State)
    ensures Path(s, [], s)
  {
  }

  lemma {:induction false} PathJoins(s: State, a: seq<Step>, t: State, b: seq<Step>, u: State)
    requires Path(s, a, t) && Path(t, b, u)
    ensures Path(s, a + b, u)
    decreases |a|
  {
    if a == [] {
      assert a + b == b;
    } else {
      assert (a + b)[1..] == a[1..] + b;
      PathJoins(Apply(s, a[0]), a[1..], t, b, u);
    }
  }

  // ---------------------------------------------------------------------------
  // Runs of the thread alone
  // ---------------------------------------------------------------------------

  /** What the thread does next. */
  function NextAct(t: Thread): ThreadAct {
    match t
    case AtGet => Get
    case Holding(_) => Check
    case Calling(_) => Return(Result(0))
    case Returned(_, _) => SeeWedged
    case Clearing(_, _) => Clear
    case Posting(_, _) => Post
  }

  function StepsToGet(t: Thread): nat {
    match t
    case AtGet => 0
    case Posting(_, _) => 1
    case Clearing(_, _) => 2
    case Returned(_, _) => 3
    case Calling(_) => 4
    case Holding(_) => 5
  }

  /** The thread moves on by itself, unless the queue is empty. */
  lemma ThreadCanMove(s: State)
    requires Served(s) && |s.threads| == 1 && (s.threads[0].AtGet? ==> s.taken < |s.jobs|)
    ensures ThreadEnabled(s, 0, NextAct(s.threads[0])) && s.taken <= |s.jobs|
  {
    hide Checked, InOrder;
  }

  lemma MoveOfThread(s: State)
    requires |s.threads| == 1 && s.taken <= |s.jobs| && ThreadEnabled(s, 0, NextAct(s.threads[0]))
    ensures var t := ThreadApply(s, 0, NextAct(s.threads[0]));
            && |t.threads| == 1 && t.jobs == s.jobs && t.abandoned == s.abandoned
            && t.futures == s.futures && t.lostLoops == s.lostLoops
            && s.taken <= t.taken <= |s.jobs|
  {
    match s.threads[0]
    case AtGet =>
    case Holding(_) =>
    case Calling(_) =>
    case Returned(_, _) =>
    case Clearing(_, _) =>
    case Posting(_, _) =>
  }

  lemma MoveIsProgress(s: State)
    requires |s.threads| == 1 && ThreadEnabled(s, 0, NextAct(s.threads[0]))
    ensures var t := ThreadApply(s, 0, NextAct(s.threads[0]));
            && |t.threads| == 1
            && (t.taken > s.taken || StepsToGet(t.threads[0]) < StepsToGet(s.threads[0]))
  {
    match s.threads[0]
    case AtGet =>
    case Holding(_) =>
    case Calling(_) =>
    case Returned(_, _) =>
    case Clearing(_, _) =>
    case Posting(_, _) =>
  }

  lemma ThreadMoves(s: State)
    requires Inv(s) && |s.threads| == 1 && (s.threads[0].AtGet? ==> s.taken < |s.jobs|)
    ensures ThreadEnabled(s, 0, NextAct(s.threads[0]))
    ensures var t := ThreadApply(s, 0, NextAct(s.threads[0]));
            && Inv(t) && |t.threads| == 1 && t.jobs == s.jobs && t.abandoned == s.abandoned
            && t.futures == s.futures && t.lostLoops == s.lostLoops
            && s.taken <= t.taken <= |s.jobs|
            && (t.taken == s.taken ==> StepsToGet(t.threads[0]) < StepsToGet(s.threads[0]))
  {
    hide OneThread, Served, Finished, Settled, Ordered, ThreadEnabled, ThreadApply, NextAct, StepsToGet;
    ThreadCanMove(s);
    MoveOfThread(s);
    MoveIsProgress(s);
    InvKept(s, ByThread(0, NextAct(s.threads[0])));
  }

  /** The thread works its way to a job nobody has abandoned, calls it and clears the verdict. */
  lemma {:induction false} ClearAtJob(s: State, id: JobId) returns (steps: seq<Step>, s': State)
    requires Inv(s) && s.wedged && |s.threads| == 1
    requires BeforeVerdict(s) || (Checked(s) <= id < |s.jobs| && id !in s.abandoned)
    ensures Path(s, steps, s') && !s'.wedged
    ensures Inv(s') && |s'.threads| == 1 && s'.threads[0].Posting?
    ensures s'.jobs == s.jobs && s'.abandoned == s.abandoned
    ensures s'.taken <= if BeforeVerdict(s) then s.taken else id + 1
    decreases |s.jobs| - s.taken, StepsToGet(s.threads[0])
  {
    hide Finished, Settled, Ordered, InOrder;
    var step := ByThread(0, NextAct(s.threads[0]));
    ThreadMoves(s);
    var t := Apply(s, step);
    if s.threads[0].Clearing? {
      PathOfNothing(t);
      steps, s' := [step], t;
    } else {
      var rest;
      rest, s' := ClearAtJob(t, id);
      steps := [step] + rest;
    }
  }

  lemma ClearEventually(s: State) returns (steps: seq<Step>, s': State)
    requires Inv(s) && s.wedged && CallToCome(s)
    ensures Path(s, steps, s') && !s'.wedged
  {
    hide Finished, Settled, Ordered, InOrder;
    if BeforeVerdict(s) {
      steps, s' := ClearAtJob(s, 0);
    } else if id: JobId :| Checked(s) <= id < |s.jobs| && id !in s.abandoned {
      steps, s' := ClearAtJob(s, id);
    } else {
      var c :| c in s.clients && s.clients[c].stage in {Admitted, Draining};
      var step := ByClient(c, if s.clients[c].stage == Admitted then Submit else SubmitDrain);
      InvKept(s, step);
      var rest;
      rest, s' := ClearAtJob(Apply(s, step), |s.jobs|);
      steps := [step] + rest;
    }
  }

  /** With nobody wedging the worker, the thread gets to an unabandoned job and calls it. */
  lemma {:induction false} ReachCall(s: State, id: JobId) returns (steps: seq<Step>, s': State)
    requires Inv(s) && !s.wedged && |s.threads| == 1
    requires Checked(s) <= id < |s.jobs| && id !in s.abandoned
    ensures Path(s, steps, s') && InCall(s', id) && !s'.wedged
    decreases |s.jobs| - s.taken, StepsToGet(s.threads[0])
  {
    hide Finished, Settled, Ordered, InOrder;
    var step := ByThread(0, NextAct(s.threads[0]));
    ThreadMoves(s);
    var t := Apply(s, step);
    if s.threads[0] == Holding(id) {
      PathOfNothing(t);
      steps, s' := [step], t;
    } else {
      var rest;
      rest, s' := ReachCall(t, id);
      steps := [step] + rest;
    }
  }

  // ---------------------------------------------------------------------------
  // Whether the verdict can be lifted
  // ---------------------------------------------------------------------------

  /** Whether the verdict can ever be lifted depends on one thing: whether a call is in
      progress or still to come. If not, no instance, old or new, gets a call through again. */
  lemma WedgeLiftsExactlyWhenACallComes(steps: seq<Step>, s: State)
    requires Path(Start, steps, s) && s.wedged
    ensures CallToCome(s) <==> exists more, s' :: Path(s, more, s') && !s'.wedged
    ensures !CallToCome(s) ==> forall more, s' :: Path(s, more, s') ==> s'.wedged && s'.started == s.started
  {
    hide CallToCome;
    ReachableInv(steps, s);
    if CallToCome(s) {
      var more, s' := ClearEventually(s);
    } else {
      forall more, s' | Path(s, more, s') ensures s'.wedged && s'.started == s.started {
        StuckAlong(s, more, s');
      }
    }
  }

  // ---------------------------------------------------------------------------
  // Whether the verdict is sure to be lifted
  // ---------------------------------------------------------------------------

  /** The token of an abandoned job and the state of its caller agree. */
  ghost predicate Tokens(s: State) {
    |s.jobs| == |s.callers| == |s.futures| &&
    forall id: JobId :: id < |s.jobs| && !s.jobs[id].drain ==>
      && (s.callers[id].GaveUp? ==> id in s.abandoned)
      && (s.callers[id].Gone? ==> id in s.abandoned || !s.futures[id].Pending?)
      && (s.futures[id].Cancelled? ==> id in s.abandoned)
      && (id in s.abandoned ==> s.callers[id].GaveUp? || s.callers[id].Gone?)
  }

  lemma TokensAtStart()
    ensures Tokens(Start)
  {
  }

  lemma TokensByClient(s: State, c: ClientId, act: ClientAct)
    requires Served(s) && Tokens(s) && ClientEnabled(s, c, act)
    ensures Tokens(ClientApply(s, c, act))
  {
    hide InOrder;
  }

  lemma TokensByCaller(s: State, id: JobId, act: CallerAct)
    requires Tokens(s) && CallerEnabled(s, id, act)
    ensures Tokens(CallerApply(s, id, act))
  {
  }

  lemma TokensByThread(s: State, t: nat, act: ThreadAct)
    requires Tokens(s) && ThreadEnabled(s, t, act)
    ensures Tokens(ThreadApply(s, t, act))
  {
  }

  lemma TokensKept(s: State, step: Step)
    requires Inv(s) && Tokens(s) && Enabled(s, step)
    ensures Tokens(Apply(s, step))
  {
    hide OneThread, Served, Finished, Settled, Ordered, Tokens;
    match step
    case ByClient(c, act) => TokensByClient(s, c, act);
    case ByCaller(id, act) => TokensByCaller(s, id, act);
    case ByThread(t, act) => TokensByThread(s, t, act);
  }

  lemma {:induction false} TokensAlong(s: State, steps: seq<Step>, s': State)
    requires Inv(s) && Tokens(s) && Path(s, steps, s')
    ensures Tokens(s')
    decreases |steps|
  {
    hide Inv, Tokens;
    if steps != [] {
      InvKept(s, steps[0]);
      TokensKept(s, steps[0]);
      TokensAlong(Apply(s, steps[0]), steps[1..], s');
    }
  }

  /** The verdict is not lifted on the way. */
  ghost predicate Unlifted(steps: seq<Step>) {
    forall step :: step in steps ==> !(step.ByThread? && step.threadAct.Clear?)
  }

  /** A drain is queued and not yet looked at, or an instance is about to queue one. */
  ghost predicate DrainToCome(s: State) {
    || (exists id: JobId :: Checked(s) <= id < |s.jobs| && s.jobs[id].drain)
    || (exists c :: c in s.clients && s.clients[c].stage == Draining)
  }

  /** A call that nobody can take back will be followed by a look at the verdict. */
  ghost predicate SureToLift(s: State) {
    s.wedged && (BeforeVerdict(s) || DrainToCome(s))
  }

  lemma SureByClient(s: State, c: ClientId, act: ClientAct)
    requires Inv(s) && SureToLift(s) && ClientEnabled(s, c, act)
    ensures SureToLift(ClientApply(s, c, act))
  {
    hide Finished, Settled, Ordered, InOrder;
    var t := ClientApply(s, c, act);
    if id: JobId :| Checked(s) <= id < |s.jobs| && s.jobs[id].drain {
      assert t.jobs[id].drain;
    } else if d :| d in s.clients && s.clients[d].stage == Draining {
      assert if d == c && act.SubmitDrain? then t.jobs[|s.jobs|].drain
             else d in t.clients && t.clients[d].stage == Draining;
    }
  }

  lemma SureByCaller(s: State, id: JobId, act: CallerAct)
    requires Inv(s) && SureToLift(s) && CallerEnabled(s, id, act)
    ensures SureToLift(CallerApply(s, id, act))
  {
    hide Inv;
  }

  lemma SureByThread(s: State, t: nat, act: ThreadAct)
    requires Inv(s) && SureToLift(s) && ThreadEnabled(s, t, act) && !act.Clear?
    ensures SureToLift(ThreadApply(s, t, act))
  {
    hide Finished, Settled, Ordered, InOrder;
    if id: JobId :| Checked(s) <= id < |s.jobs| && s.jobs[id].drain {
      var after := ThreadApply(s, t, act);
      assert after.jobs[id].drain;
    }
  }

  lemma {:induction false} SureAlong(s: State, steps: seq<Step>, s': State)
    requires Inv(s) && SureToLift(s) && Path(s, steps, s') && Unlifted(steps)
    ensures SureToLift(s') && Inv(s')
    decreases |steps|
  {
    hide Inv, SureToLift;
    if steps != [] {
      InvKept(s, steps[0]);
      match steps[0] {
        case ByClient(c, act) => SureByClient(s, c, act);
        case ByCaller(id, act) => SureByCaller(s, id, act);
        case ByThread(t, act) => SureByThread(s, t, act);
      }
      SureAlong(Apply(s, steps[0]), steps[1..], s');
    }
  }

  /** The jobs not yet looked at whose callers still wait, and the instances about to queue one. */
  ghost function Open(s: State): set<JobId> {
    set id: JobId | Checked(s) <= id < |s.jobs| && id !in s.abandoned
  }

  ghost function AtTheGate(s: State): set<ClientId> {
    set c | c in s.clients && s.clients[c].stage == Admitted
  }

  /** How a job on which nothing depends but its caller is given up: at one step. */
  lemma GiveUp(s: State, id: JobId) returns (step: Step)
    requires Inv(s) && Tokens(s) && id in Open(s) && !s.jobs[id].drain
    ensures step.ByCaller? && Enabled(s, step)
    ensures SameService(s, Apply(s, step)) && Apply(s, step).abandoned == s.abandoned + {id}
    ensures Apply(s, step).wedged == s.wedged
  {
    hide OneThread, Ordered, InOrder;
    assert s.callers[id].Waiting? || s.callers[id].Overdue?;
    step := ByCaller(id, if s.callers[id].Waiting? then CancelWait else Abandon);
  }

  /** Everybody gives up before the thread gets to their calls. */
  lemma {:induction false} Silence(s: State) returns (steps: seq<Step>, s': State)
    requires Inv(s) && Tokens(s) && s.wedged && !BeforeVerdict(s) && !DrainToCome(s)
    ensures Path(s, steps, s') && Unlifted(steps) && Stuck(s')
    decreases AtTheGate(s), Open(s)
  {
    hide Inv, Tokens;
    if c :| c in AtTheGate(s) {
      var step := ByClient(c, Submit);
      InvKept(s, step);
      TokensKept(s, step);
      var t := Apply(s, step);
      assert AtTheGate(t) == AtTheGate(s) - {c};
      var rest;
      rest, s' := Silence(t);
      steps := [step] + rest;
    } else if id :| id in Open(s) {
      var step := GiveUp(s, id);
      InvKept(s, step);
      TokensKept(s, step);
      var t := Apply(s, step);
      assert AtTheGate(t) == AtTheGate(s) && Open(t) == Open(s) - {id};
      var rest;
      rest, s' := Silence(t);
      steps := [step] + rest;
    } else {
      PathOfNothing(s);
      steps, s' := [], s;
      assert forall id: JobId :: Checked(s) <= id < |s.jobs| && id !in s.abandoned ==> id in Open(s);
      assert forall c :: c in s.clients && s.clients[c].stage == Admitted ==> c in AtTheGate(s);
    }
  }

  /** When a verdict can last for ever: exactly if the thread is past its look at the flag
      and no drain is queued or about to be. Every other call may yet be given up, and
      a call given up before it starts lifts nothing. */
  lemma VerdictCanLastExactly(steps: seq<Step>, s: State)
    requires Path(Start, steps, s) && s.wedged
    ensures (exists more, s' :: Path(s, more, s') && Unlifted(more) && Stuck(s'))
            <==> !BeforeVerdict(s) && !DrainToCome(s)
  {
    hide Inv, Tokens, DrainToCome, BeforeVerdict, Stuck;
    ReachableInv(steps, s);
    InvAtStart();
    TokensAtStart();
    TokensAlong(Start, steps, s);
    if !BeforeVerdict(s) && !DrainToCome(s) {
      var more, s' := Silence(s);
    } else {
      forall more, s' | Path(s, more, s') && Unlifted(more) ensures !Stuck(s') {
        SureAlong(s, more, s');
        SureIsNotStuck(s');
      }
    }
  }

  lemma SureIsNotStuck(s: State)
    requires Inv(s) && SureToLift(s)
    ensures !Stuck(s)
  {
    hide OneThread, Finished, Settled, Ordered, InOrder;
  }

  // ---------------------------------------------------------------------------
  // Whether the verdict lasts as long as its call
  // ---------------------------------------------------------------------------

  /** Job `id`, once its deadline has passed, is called only with the verdict standing. */
  ghost predicate Guarded(s: State, id: JobId) {
    if id < Checked(s) then InCall(s, id) ==> s.wedged
    else s.wedged && !BeforeVerdict(s) && forall j: JobId :: Checked(s) <= j < id ==> j in s.abandoned
  }

  lemma GuardedByClient(s: State, c: ClientId, act: ClientAct, id: JobId)
    requires Inv(s) && Guarded(s, id) && id < |s.jobs| && ClientEnabled(s, c, act)
    ensures Guarded(ClientApply(s, c, act), id)
  {
    hide Finished, Settled, Ordered, InOrder;
  }

  lemma GuardedByCaller(s: State, job: JobId, act: CallerAct, id: JobId)
    requires Inv(s) && Guarded(s, id) && id < |s.jobs| && CallerEnabled(s, job, act)
    ensures Guarded(CallerApply(s, job, act), id)
  {
    hide Inv;
  }

  lemma GuardedByThread(s: State, t: nat, act: ThreadAct, id: JobId)
    requires Inv(s) && Guarded(s, id) && id < |s.jobs| && ThreadEnabled(s, t, act)
    ensures Guarded(ThreadApply(s, t, act), id)
  {
    hide Finished, Settled, Ordered, InOrder;
  }

  lemma {:induction false} GuardedAlong(s: State, steps: seq<Step>, s': State, id: JobId)
    requires Inv(s) && Guarded(s, id) && id < |s.jobs| && Path(s, steps, s')
    ensures InCall(s', id) ==> s'.wedged
    decreases |steps|
  {
    hide Inv;
    if steps != [] {
      InvKept(s, steps[0]);
      StepExtends(s, steps[0]);
      match steps[0] {
        case ByClient(c, act) => GuardedByClient(s, c, act, id);
        case ByCaller(job, act) => GuardedByCaller(s, job, act, id);
        case ByThread(t, act) => GuardedByThread(s, t, act, id);
      }
      hide Guarded;
      GuardedAlong(Apply(s, steps[0]), steps[1..], s', id);
    } else {
      InCallIsChecked(s, id);
    }
  }

  lemma InCallIsChecked(s: State, id: JobId)
    requires Inv(s)
    ensures InCall(s, id) ==> id < Checked(s)
  {
  }

  /** The verdict goes before its call comes: a call ahead lifts it, and the thread gets to
      the overdue job while its token is not set. */
  lemma OvertakeVerdict(s: State, id: JobId) returns (steps: seq<Step>, s': State)
    requires Inv(s) && s.wedged && Checked(s) <= id < |s.jobs| && id !in s.abandoned
    requires BeforeVerdict(s) || exists j: JobId :: Checked(s) <= j < id && j !in s.abandoned
    ensures Path(s, steps, s') && InCall(s', id) && !s'.wedged
  {
    hide Finished, Settled, Ordered, InOrder;
    var j: JobId := 0;
    if !BeforeVerdict(s) {
      j :| Checked(s) <= j < id && j !in s.abandoned;
    }
    var first, t := ClearAtJob(s, j);
    var second;
    second, s' := ReachCall(t, id);
    PathJoins(s, first, t, second, s');
    steps := first + second;
  }

  /** Whether an overdue call can run with the verdict on it already lifted. One whose
      deadline passes during the call cannot; one that is still queued can exactly if
      the thread has yet to look at the flag for a call ahead of it. */
  lemma CallOutlivesVerdictExactly(steps: seq<Step>, s: State, id: JobId)
    requires Path(Start, steps, s) && CallerEnabled(s, id, BlowDeadline)
    ensures (exists more, s' :: Path(CallerApply(s, id, BlowDeadline), more, s') && InCall(s', id) && !s'.wedged)
            <==> && id >= Checked(s)
                 && (BeforeVerdict(s) || exists j: JobId :: Checked(s) <= j < id && j !in s.abandoned)
  {
    hide Inv, Tokens;
    ReachableInv(steps, s);
    InvAtStart();
    TokensAtStart();
    TokensAlong(Start, steps, s);
    var t := CallerApply(s, id, BlowDeadline);
    InvKept(s, ByCaller(id, BlowDeadline));
    if id >= Checked(s) && (BeforeVerdict(s) || exists j: JobId :: Checked(s) <= j < id && j !in s.abandoned) {
      assert id !in s.abandoned by { WaitingHasNoToken(s, id); }
      var more, s' := OvertakeVerdict(t, id);
    } else {
      forall more, s' | Path(t, more, s') ensures InCall(s', id) ==> s'.wedged {
        GuardedAlong(t, more, s', id);
      }
    }
  }

  lemma WaitingHasNoToken(s: State, id: JobId)
    requires Tokens(s) && id < |s.jobs| && !s.jobs[id].drain && s.callers[id].Waiting?
    ensures id !in s.abandoned
  {
  }

  // ---------------------------------------------------------------------------
  // Two runs
  // ---------------------------------------------------------------------------

  lemma Then(steps: seq<Step>, s: State, step: Step) returns (steps': seq<Step>, s': State)
    requires Path(Start, steps, s) && Enabled(s, step)
    ensures Path(Start, steps', s') && s' == Apply(s, step)
  {
    PathThen(Start, steps, s, step);
    steps', s' := steps + [step], Apply(s, step);
  }

  const Attached := Start.(registered := true, threads := [AtGet], clients := map[0 := Client(Ready, false)])

  lemma ReachAttached() returns (steps: seq<Step>)
    ensures Path(Start, steps, Attached)
  {
    hide Path;
    var s;
    PathOfNothing(Start);
    steps, s := Then([], Start, ByClient(0, Arrive));
    steps, s := Then(steps, s, ByClient(0, Lock));
    steps, s := Then(steps, s, ByClient(0, Lookup));
    steps, s := Then(steps, s, ByClient(0, StartThread));
    assert s.clients == Attached.clients && s.threads == Attached.threads;
    assert s == Attached;
  }

  const InFirstCall := Attached.(
    jobs := [Job(0, false)], taken := 1, callers := [Waiting], futures := [Pending],
    threads := [Calling(0)], started := [0])

  lemma ReachFirstCall() returns (steps: seq<Step>)
    ensures Path(Start, steps, InFirstCall)
  {
    hide Path;
    var s;
    steps := ReachAttached();
    steps, s := Then(steps, Attached, ByClient(0, Admit));
    steps, s := Then(steps, s, ByClient(0, Submit));
    steps, s := Then(steps, s, ByThread(0, Get));
    steps, s := Then(steps, s, ByThread(0, Check));
    assert s.clients == InFirstCall.clients && s.threads == InFirstCall.threads;
    assert s.jobs == InFirstCall.jobs && s.callers == InFirstCall.callers && s.futures == InFirstCall.futures;
    assert s.started == InFirstCall.started;
    assert s == InFirstCall;
  }

  const VerdictTooLate := InFirstCall.(
    threads := [Posting(0, Result(0))], finished := map[0 := Result(0)],
    wedged := true, callers := [Overdue])

  lemma ReachTooLate() returns (steps: seq<Step>)
    ensures Path(Start, steps, VerdictTooLate)
  {
    hide Path;
    var s;
    steps := ReachFirstCall();
    steps, s := Then(steps, InFirstCall, ByThread(0, Return(Result(0))));
    steps, s := Then(steps, s, ByThread(0, SeeWedged));
    steps, s := Then(steps, s, ByCaller(0, BlowDeadline));
    assert s.threads == VerdictTooLate.threads && s.callers == VerdictTooLate.callers;
    assert s.finished == VerdictTooLate.finished;
    assert s == VerdictTooLate;
  }

  /** It does happen that none is: the call returns, the thread finds no verdict to clear,
      and only then does the caller, its future still unsettled, blow its deadline. */
  lemma WedgedForever() returns (steps: seq<Step>, s: State)
    ensures Path(Start, steps, s) && Stuck(s)
    ensures s.threads == [AtGet] && s.taken == |s.jobs| && s.callers == [Gone] && 0 in s.finished
  {
    hide Path;
    steps := ReachTooLate();
    steps, s := Then(steps, VerdictTooLate, ByCaller(0, Abandon));
    steps, s := Then(steps, s, ByCaller(0, CancelFuture));
    steps, s := Then(steps, s, ByThread(0, Post));
  }

  const TwoQueued := Attached.(
    jobs := [Job(0, false), Job(0, false)], callers := [Waiting, Waiting], futures := [Pending, Pending])

  lemma ReachTwoQueued() returns (steps: seq<Step>)
    ensures Path(Start, steps, TwoQueued)
  {
    hide Path;
    var s;
    steps := ReachAttached();
    steps, s := Then(steps, Attached, ByClient(0, Admit));
    steps, s := Then(steps, s, ByClient(0, Submit));
    steps, s := Then(steps, s, ByClient(0, Admit));
    steps, s := Then(steps, s, ByClient(0, Submit));
    assert s.clients == TwoQueued.clients && s.jobs == TwoQueued.jobs;
    assert s.callers == TwoQueued.callers && s.futures == TwoQueued.futures;
    assert s == TwoQueued;
  }

  const FirstClearing := TwoQueued.(
    taken := 1, threads := [Clearing(0, Result(0))], callers := [Waiting, Overdue],
    started := [0], finished := map[0 := Result(0)], wedged := true)

  lemma ReachFirstClearing() returns (steps: seq<Step>)
    ensures Path(Start, steps, FirstClearing)
  {
    hide Path;
    var s;
    steps := ReachTwoQueued();
    steps, s := Then(steps, TwoQueued, ByThread(0, Get));
    steps, s := Then(steps, s, ByThread(0, Check));
    steps, s := Then(steps, s, ByThread(0, Return(Result(0))));
    steps, s := Then(steps, s, ByCaller(1, BlowDeadline));
    steps, s := Then(steps, s, ByThread(0, SeeWedged));
    assert s.threads == FirstClearing.threads && s.callers == FirstClearing.callers;
    assert s.started == FirstClearing.started && s.finished == FirstClearing.finished;
    assert s == FirstClearing;
  }

  const SecondCalled := FirstClearing.(
    taken := 2, threads := [Calling(1)], started := [0, 1], posted := map[0 := Result(0)], wedged := false)

  lemma ReachSecondCalled() returns (steps: seq<Step>)
    ensures Path(Start, steps, SecondCalled)
  {
    hide Path;
    var s;
    steps := ReachFirstClearing();
    steps, s := Then(steps, FirstClearing, ByThread(0, Clear));
    steps, s := Then(steps, s, ByThread(0, Post));
    steps, s := Then(steps, s, ByThread(0, Get));
    steps, s := Then(steps, s, ByThread(0, Check));
    assert s.threads == SecondCalled.threads && s.started == SecondCalled.started;
    assert s.posted == SecondCalled.posted;
    assert s == SecondCalled;
  }

  /** The verdict can also be lifted too early: the deadline of the second job passes in the
      queue, the return of the first clears the flag, and the second is called before its
      token is set. Its caller has had its timeout, and new work is accepted behind it. */
  lemma LiftedTooEarly() returns (steps: seq<Step>, s: State)
    ensures Path(Start, steps, s)
    ensures InCall(s, 1) && s.callers == [Waiting, Gone] && s.futures == [Pending, Cancelled]
    ensures !s.wedged && ClientEnabled(s, 0, Admit)
  {
    hide Path;
    steps := ReachSecondCalled();
    steps, s := Then(steps, SecondCalled, ByCaller(1, Abandon));
    steps, s := Then(steps, s, ByCaller(1, CancelFuture));
  }
}
