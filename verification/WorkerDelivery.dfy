/**
  What becomes of a call that is made: its outcome is the one it returned or raised,
  it is never lost on a loop that is still open, and every job nobody has given up
  can be served, a closing instance's drain among them.
*/
module WorkerDeliveries {
  import opened BlockingWorkers
  import opened WedgedVerdicts

  // ---------------------------------------------------------------------------
  // No outcome is lost
  // ---------------------------------------------------------------------------

  /** Every finished call's outcome is on its way to its future or there, unless the loop
      is gone or the caller gave up; and nobody leaves a future behind unsettled. */
  ghost predicate Delivering(s: State) {
    && |s.jobs| == |s.callers| == |s.futures|
    && (forall id: JobId :: id in s.finished ==>
          && id < |s.jobs|
          && (s.jobs[id].client in s.lostLoops || Undelivered(s, id) || id in s.posted || !s.futures[id].Pending?))
    && (forall id: JobId :: id < |s.jobs| && s.callers[id].Gone? ==> !s.futures[id].Pending?)
  }

  lemma DeliveringAtStart()
    ensures Delivering(Start)
  {
  }

  lemma DeliveringByClient(s: State, c: ClientId, act: ClientAct)
    requires OneThread(s) && Served(s) && Delivering(s) && ClientEnabled(s, c, act)
    ensures Delivering(ClientApply(s, c, act))
  {
    hide InOrder;
  }

  lemma DeliveringByCaller(s: State, id: JobId, act: CallerAct)
    requires Delivering(s) && CallerEnabled(s, id, act)
    ensures Delivering(CallerApply(s, id, act))
  {
  }

  lemma DeliveringByThread(s: State, t: nat, act: ThreadAct)
    requires OneThread(s) && Served(s) && Finished(s) && Delivering(s) && ThreadEnabled(s, t, act)
    ensures Delivering(ThreadApply(s, t, act))
  {
    hide InOrder;
  }

  lemma DeliveringKept(s: State, step: Step)
    requires Inv(s) && Delivering(s) && Enabled(s, step)
    ensures Delivering(Apply(s, step))
  {
    hide OneThread, Served, Finished, Settled, Ordered, Delivering;
    match step
    case ByClient(c, act) => DeliveringByClient(s, c, act);
    case ByCaller(id, act) => DeliveringByCaller(s, id, act);
    case ByThread(t, act) => DeliveringByThread(s, t, act);
  }

  lemma {:induction false} DeliveringAlong(s: State, steps: seq<Step>, s': State)
    requires Inv(s) && Delivering(s) && Path(s, steps, s')
    ensures Delivering(s')
    decreases |steps|
  {
    hide Inv, Delivering;
    if steps != [] {
      InvKept(s, steps[0]);
      DeliveringKept(s, steps[0]);
      DeliveringAlong(Apply(s, steps[0]), steps[1..], s');
    }
  }

  /** A call that has returned or raised on a loop still open, and whose future is pending:
      its outcome is being handed over, or waits on the loop, which settles just that. */
  lemma NoOutcomeIsLost(steps: seq<Step>, s: State, id: JobId)
    requires Path(Start, steps, s)
    requires id in s.finished
    ensures id < |s.jobs| && id < |s.futures|
    ensures s.jobs[id].client !in s.lostLoops && s.futures[id].Pending? ==> Undelivered(s, id) || id in s.posted
    ensures id in s.posted && s.futures[id].Pending? ==>
              && CallerEnabled(s, id, Settle)
              && var t := CallerApply(s, id, Settle);
                 id < |t.futures| && t.futures[id] == Done(s.finished[id])
  {
    ReachableDelivering(steps, s);
    hide Inv, Path, Delivering, CallerApply, CallerEnabled, Undelivered;
    OnItsWay(s, id);
    if id in s.posted && s.futures[id].Pending? {
      SettleDelivers(s, id);
    }
  }

  lemma ReachableDelivering(steps: seq<Step>, s: State)
    requires Path(Start, steps, s)
    ensures Inv(s) && Delivering(s)
  {
    hide Inv, Delivering;
    InvAtStart();
    InvAlong(Start, steps, s);
    DeliveringAtStart();
    DeliveringAlong(Start, steps, s);
  }

  lemma OnItsWay(s: State, id: JobId)
    requires Delivering(s) && id in s.finished
    ensures id < |s.jobs| && id < |s.futures|
    ensures s.jobs[id].client in s.lostLoops || Undelivered(s, id) || id in s.posted || !s.futures[id].Pending?
  {
  }

  lemma SettleDelivers(s: State, id: JobId)
    requires Inv(s) && id in s.finished && id in s.posted && id < |s.futures| && s.futures[id].Pending?
    ensures CallerEnabled(s, id, Settle)
    ensures var t := CallerApply(s, id, Settle); id < |t.futures| && t.futures[id] == Done(s.finished[id])
  {
    hide OneThread, Served, Finished, Ordered;
  }

  /** Nobody is left waiting on a future that will never be looked at again. */
  lemma NobodyLeavesPending(steps: seq<Step>, s: State, id: JobId)
    requires Path(Start, steps, s) && id < |s.jobs| && id < |s.callers| && s.callers[id].Gone?
    ensures id < |s.futures| && !s.futures[id].Pending?
  {
    ReachableDelivering(steps, s);
    hide Inv, Path;
  }

  // ---------------------------------------------------------------------------
  // An outcome is what the call returned
  // ---------------------------------------------------------------------------

  lemma {:induction false} LastStep(s: State, steps: seq<Step>, s': State) returns (p: State)
    requires steps != [] && Path(s, steps, s')
    ensures Path(s, steps[..|steps| - 1], p) && Enabled(p, steps[|steps| - 1]) && s' == Apply(p, steps[|steps| - 1])
    decreases |steps|
  {
    if |steps| == 1 {
      p := s;
      assert steps[1..] == [];
    } else {
      p := LastStep(Apply(s, steps[0]), steps[1..], s');
      assert steps[..|steps| - 1][1..] == steps[1..][..|steps| - 2];
    }
  }

  lemma FinishedByReturn(s: State, step: Step, id: JobId)
    requires Inv(s) && Enabled(s, step) && id in Apply(s, step).finished && id !in s.finished
    ensures InCall(s, id) && step == ByThread(0, Return(Apply(s, step).finished[id]))
  {
    hide Served, Finished, Settled, Ordered, InOrder;
    match step
    case ByClient(c, act) =>
      FinishedAsBefore(s, c, act);
    case ByCaller(job, act) =>
      CallerLeaves(s, job, act);
    case ByThread(t, act) =>
      match act
      case Get =>
      case Check =>
      case Return(_) =>
      case SeeWedged =>
      case Clear =>
      case Post =>
  }

  lemma FinishedAsBefore(s: State, c: ClientId, act: ClientAct)
    requires ClientEnabled(s, c, act)
    ensures ClientApply(s, c, act).finished == s.finished
  {
  }

  /** Every outcome on record is the one with which its call ended: some step of the run
      was the return of that very call with that very outcome. */
  lemma {:induction false} OutcomeIsReturned(steps: seq<Step>, s: State, id: JobId)
    requires Path(Start, steps, s) && id in s.finished
    ensures exists k, p :: 0 <= k < |steps| && Path(Start, steps[..k], p) && InCall(p, id)
                           && steps[k] == ByThread(0, Return(s.finished[id]))
    decreases |steps|
  {
    hide Inv, Extends;
    if steps != [] {
      var n := |steps| - 1;
      var before := steps[..n];
      var p := LastStep(Start, steps, s);
      ReachableInv(before, p);
      if id in p.finished {
        OutcomeIsReturned(before, p, id);
        var k, q :| 0 <= k < |before| && Path(Start, before[..k], q) && InCall(q, id)
                    && before[k] == ByThread(0, Return(p.finished[id]));
        assert before[..k] == steps[..k];
        StepExtends(p, steps[n]);
        assert s.finished[id] == p.finished[id] by { FinishedStays(p, s, id); }
      } else {
        FinishedByReturn(p, steps[n], id);
      }
    }
  }

  lemma FinishedStays(p: State, s: State, id: JobId)
    requires Extends(p, s) && id in p.finished
    ensures id in s.finished && s.finished[id] == p.finished[id]
  {
  }

  // ---------------------------------------------------------------------------
  // Every job can be served
  // ---------------------------------------------------------------------------

  /** The thread gets to an unabandoned job and calls it, wedged or not. */
  lemma {:induction false} ReachItsCall(s: State, id: JobId) returns (steps: seq<Step>, s': State)
    requires Inv(s) && |s.threads| == 1
    requires Checked(s) <= id < |s.jobs| && id !in s.abandoned
    ensures Path(s, steps, s') && Inv(s') && InCall(s', id)
    ensures s'.jobs == s.jobs && s'.futures == s.futures && s'.lostLoops == s.lostLoops
    decreases |s.jobs| - s.taken, StepsToGet(s.threads[0])
  {
    hide Finished, Settled, Ordered, InOrder;
    var step := ByThread(0, NextAct(s.threads[0]));
    ThreadMoves(s);
    var t := Apply(s, step);
    if s.threads[0] == Holding(id) {
      PathOfNothing(t);
      steps, s' := [step], t;
    } else {
      var rest;
      rest, s' := ReachItsCall(t, id);
      steps := [step] + rest;
    }
  }

  /** The thread hands an outcome over to the loop. */
  lemma {:induction false} HandOver(s: State, id: JobId) returns (steps: seq<Step>, s': State)
    requires Inv(s) && Undelivered(s, id) && id < |s.jobs| && s.jobs[id].client !in s.lostLoops
    ensures Path(s, steps, s') && Inv(s') && id in s'.posted && s'.futures == s.futures
    decreases StepsToGet(s.threads[0])
  {
    hide Finished, Settled, Ordered, InOrder;
    var step := ByThread(0, NextAct(s.threads[0]));
    ThreadMoves(s);
    var t := Apply(s, step);
    if s.threads[0].Posting? {
      PathOfNothing(t);
      steps, s' := [step], t;
    } else {
      MoveIsProgress(s);
      var rest;
      rest, s' := HandOver(t, id);
      steps := [step] + rest;
    }
  }

  lemma {:induction false} ServeJob(s: State, id: JobId, out: Outcome) returns (steps: seq<Step>, s': State)
    requires Inv(s) && |s.threads| == 1
    requires Checked(s) <= id < |s.jobs| && id !in s.abandoned && s.jobs[id].client !in s.lostLoops
    requires id < |s.futures| && s.futures[id].Pending?
    ensures Path(s, steps, s') && id < |s'.futures| && s'.futures[id] == Done(out)
  {
    hide Inv;
    var a, p := ReachItsCall(s, id);
    var q := Apply(p, ByThread(0, Return(out)));
    InvKept(p, ByThread(0, Return(out)));
    var b, r := HandOver(q, id);
    assert Path(p, [ByThread(0, Return(out))] + b, r);
    PathJoins(s, a, p, [ByThread(0, Return(out))] + b, r);
    steps := a + ([ByThread(0, Return(out))] + b);
    StillTheOutcome(q, b, r, id);
    s' := Apply(r, ByCaller(id, Settle));
    PathThen(s, steps, r, ByCaller(id, Settle));
    steps := steps + [ByCaller(id, Settle)];
  }

  lemma StillTheOutcome(q: State, steps: seq<Step>, r: State, id: JobId)
    requires Inv(q) && Inv(r) && Path(q, steps, r) && id in q.finished && id in r.posted
    ensures r.posted[id] == q.finished[id]
  {
    hide OneThread, Served, Finished, Ordered;
    PathExtends(q, steps, r);
  }

  /** Every queued job that nobody has given up, on a loop still open, can be served, with
      whatever outcome its call may have, and whether or not the worker is wedged. */
  lemma JobCanBeServed(steps: seq<Step>, s: State, id: JobId, out: Outcome)
    requires Path(Start, steps, s)
    requires Checked(s) <= id < |s.jobs| && id !in s.abandoned && s.jobs[id].client !in s.lostLoops
    requires id < |s.futures| && s.futures[id].Pending?
    ensures exists more, s' :: Path(s, more, s') && id < |s'.futures| && s'.futures[id] == Done(out)
  {
    ReachableInv(steps, s);
    assert |s.threads| == 1;
    hide Inv;
    var more, s' := ServeJob(s, id, out);
  }

  /** Closing an instance that is not wedged queues a drain behind all its work, and that
      drain can complete; on a wedged worker none is queued. */
  lemma CloseDrains(steps: seq<Step>, s: State, c: ClientId)
    requires Path(Start, steps, s) && AtStage(s, c, Ready) && c !in s.lostLoops
    ensures ClientEnabled(s, c, Close)
    ensures var t := ClientApply(s, c, Close);
            && c in t.clients && t.clients[c].closed && t.jobs == s.jobs
            && (t.clients[c].stage == if s.wedged then Ready else Draining)
    ensures !s.wedged ==>
              var drain := |s.jobs|;
              exists more, s' :: Path(s, more, s') && drain < |s'.jobs| && drain < |s'.futures|
                                 && s'.jobs[drain] == Job(c, true) && s'.futures[drain].Done?
  {
    ReachableInv(steps, s);
    hide Inv, Path;
    if !s.wedged {
      var more, s' := RunDrain(s, c);
    }
  }

  lemma RunDrain(s: State, c: ClientId) returns (steps: seq<Step>, s': State)
    requires Inv(s) && AtStage(s, c, Ready) && !s.wedged && c !in s.lostLoops
    ensures Path(s, steps, s') && |s.jobs| < |s'.jobs| && |s.jobs| < |s'.futures|
    ensures s'.jobs[|s.jobs|] == Job(c, true) && s'.futures[|s.jobs|].Done?
  {
    hide Inv, Path;
    var a, b := ByClient(c, Close), ByClient(c, SubmitDrain);
    InvKept(s, a);
    InvKept(Apply(s, a), b);
    var u := Apply(Apply(s, a), b);
    DrainIsServable(s, c);
    hide Enabled, Apply, ClientApply, ClientEnabled, AtStage;
    var rest;
    rest, s' := ServeJob(u, |s.jobs|, Result(0));
    PathOfTwo(s, a, b, rest, s');
    InvKeptJobs(u, rest, s', |s.jobs|);
    steps := [a, b] + rest;
  }

  lemma DrainIsServable(s: State, c: ClientId)
    requires Inv(s) && AtStage(s, c, Ready) && !s.wedged && c !in s.lostLoops
    requires Inv(ClientApply(ClientApply(s, c, Close), c, SubmitDrain))
    ensures var u := ClientApply(ClientApply(s, c, Close), c, SubmitDrain);
            var drain := |s.jobs|;
            && |u.threads| == 1 && Checked(u) <= drain < |u.jobs| && drain !in u.abandoned
            && u.jobs[drain] == Job(c, true) && c !in u.lostLoops
            && drain < |u.futures| && u.futures[drain].Pending?
  {
    hide Finished, Settled, Ordered, InOrder;
  }

  lemma PathOfTwo(s: State, a: Step, b: Step, rest: seq<Step>, s': State)
    requires Enabled(s, a) && Enabled(Apply(s, a), b) && Path(Apply(Apply(s, a), b), rest, s')
    ensures Path(s, [a, b] + rest, s')
  {
    hide Enabled, Apply;
    assert ([a, b] + rest)[1..] == [b] + rest && ([b] + rest)[1..] == rest;
    assert Path(Apply(s, a), [b] + rest, s');
  }

  lemma InvKeptJobs(u: State, steps: seq<Step>, s': State, id: JobId)
    requires Inv(u) && Path(u, steps, s') && id < |u.jobs|
    ensures id < |s'.jobs| && s'.jobs[id] == u.jobs[id]
  {
    hide Inv;
    PathExtends(u, steps, s');
  }
}
