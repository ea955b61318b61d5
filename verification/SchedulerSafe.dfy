/** When the assertions about fiber states can fail, and who can reach a worker's cb_fiber.
    Line numbers are those of fatdog/scheduler.cpp. */
module SchedulerSafe {
  import opened Codec
  import opened SchedulerSpec

  // ---------- one worker: no assertion fails ----------

  predicate Suspended(s: State, f: nat)
  {
    s.Is(f, READY) || s.Is(f, HOLD)
  }

  /** A fiber executes exactly if the worker runs it; what has returned has yielded or
      ended; and cb_fiber, unless the worker is at its callback, has no callback and is not
      suspended: whoever swaps it in gets it back at once, EXCEPT. */
  ghost predicate Kept(s: State)
  {
    |s.workers| == 1 && !s.aborted &&
    var w := s.workers[0];
    (forall f <- s.fibers :: s.fibers[f] == EXEC ==> w.phase.Running? && w.phase.fiber == f) &&
    (w.phase.Running? ==> s.Is(w.phase.fiber, EXEC)) &&
    (w.phase.Returned? || w.phase.Back? || w.phase.NotReady? ==> Suspended(s, w.phase.fiber) || s.Over(w.phase.fiber)) &&
    (w.phase.Requeue? || w.phase.Hold? ==> Suspended(s, w.phase.fiber)) &&
    if Handles(w.phase) && w.phase.viaCb then w.cbFiber == Some(w.phase.fiber)
    else w.cbFiber.Some? ==> w.cbFiber.value in s.bare && w.cbFiber.value in s.fibers && !Suspended(s, w.cbFiber.value)
  }

  lemma KeptLoop(s: State, a: Action)
    requires Kept(s) && EnabledIn(s, s.workers[0], a) && (a.DoScan? || a.DoCheck? || a.DoIdle? || a.DoLeaveIdle?)
    ensures Kept(NextIn(s, 0, a))
  {
    hide FirstEligible;
    hide Dispatch;
    hide Checked;
    hide Idled;
  }

  lemma KeptDispatch(s: State, newF: nat)
    requires Kept(s) && EnabledIn(s, s.workers[0], DoDispatch(newF))
    ensures Kept(NextIn(s, 0, DoDispatch(newF)))
  {
    var e := s.workers[0].phase.entry;
    assert NextIn(s, 0, DoDispatch(newF)) == Dispatch(s, 0, e, newF);
    hide NextIn;
    if e.job.Resume? {
      KeptResume(s, e, newF);
    } else {
      KeptCall(s, e, newF);
    }
  }

  lemma KeptResume(s: State, e: Entry, newF: nat)
    requires Kept(s) && s.workers[0].phase == Picked(e) && e.job.Resume?
    ensures Kept(Dispatch(s, 0, e, newF))
  {
  }

  lemma KeptCall(s: State, e: Entry, newF: nat)
    requires Kept(s) && s.workers[0].phase == Picked(e) && e.job.Call? && newF !in s.fibers
    ensures Kept(Dispatch(s, 0, e, newF))
  {
  }

  lemma KeptCode(s: State, a: Action)
    requires Kept(s) && EnabledIn(s, s.workers[0], a) && s.workers[0].phase.Running?
    ensures Kept(NextIn(s, 0, a))
  {
    hide FirstEligible;
    hide Dispatch;
  }

  lemma KeptBack(s: State, a: Action)
    requires Kept(s) && EnabledIn(s, s.workers[0], a) && Handles(s.workers[0].phase) && !s.workers[0].phase.Running?
    ensures Kept(NextIn(s, 0, a))
  {
    hide FirstEligible;
    hide Dispatch;
  }

  lemma KeptNext(s: State, step: Step)
    requires Kept(s) && Enabled(s, step)
    ensures Kept(Next(s, step))
  {
    if step.Inside? {
      var a := step.action;
      if a.DoScan? || a.DoCheck? || a.DoIdle? || a.DoLeaveIdle? {
        KeptLoop(s, a);
      } else if a.DoDispatch? {
        KeptDispatch(s, a.newF);
      } else if s.workers[0].phase.Running? {
        KeptCode(s, a);
      } else {
        KeptBack(s, a);
      }
    }
  }

  lemma {:induction false} KeptAlways(s: State, run: seq<Step>)
    requires Kept(s) && Runs(s, run)
    ensures Kept(Final(s, run))
    decreases |run|
  {
    if run != [] {
      KeptNext(s, run[0]);
      KeptAlways(Next(s, run[0]), run[1..]);
    }
  }

  /** With one worker no assertion of swapIn, reset or a yield ever fails; and at the head
      of the loop cb_fiber is null or not suspended, so that reset() overwrites no
      suspended callback. */
  lemma OneWorkerSafe(s: State, run: seq<Step>)
    requires Initial(s) && |s.workers| == 1 && Runs(s, run)
    ensures var t := Final(s, run);
            !t.aborted && |t.workers| == 1 &&
            (t.workers[0].phase.Scan? || t.workers[0].phase.Picked? ==>
               t.workers[0].cbFiber.None? || t.Is(t.workers[0].cbFiber.value, INIT) || t.Over(t.workers[0].cbFiber.value))
  {
    KeptAlways(s, run);
  }

  // ---------- more workers: it can ----------

  /** With more of them, a fiber that is scheduled twice fails the assertion in swapIn if
      both entries are picked before either is swapped in. No callback is involved. */
  lemma TwoWorkersClash(s: State) returns (run: seq<Step>)
    requires Initial(s) && |s.workers| >= 2
    ensures Runs(s, run) && Final(s, run).aborted
  {
    run := TwiceScheduled(s);
    hide Runs;
    hide Final;
    run := Go(s, run, Inside(0, DoScan));
    run := Go(s, run, Inside(1, DoScan));
    run := Go(s, run, Inside(0, DoDispatch(1)));
    run := Go(s, run, Inside(1, DoDispatch(1)));
  }

  lemma TwiceScheduled(s: State) returns (run: seq<Step>)
    requires Initial(s) && |s.workers| >= 2
    ensures Runs(s, run)
    ensures var t := Final(s, run);
            |t.workers| >= 2 && t.workers[0].phase.Scan? && t.workers[1].phase.Scan? && t.fibers == map[0 := INIT] && !t.aborted &&
            t.queue == [Entry(0, Resume(0), ANY_THREAD), Entry(1, Resume(0), ANY_THREAD)]
  {
    run := [];
    run := Go(s, run, OutsideCreate(0));
    run := Go(s, run, OutsideSchedule(Resume(0), ANY_THREAD));
    hide Runs;
    hide Final;
    run := Go(s, run, OutsideSchedule(Resume(0), ANY_THREAD));
    run := Go(s, run, Stop);
    run := Called(s, run, 0);
    run := Called(s, run, 1);
  }

  ghost predicate AlwaysSafe(s: State)
  {
    forall run :: Runs(s, run) ==> !Final(s, run).aborted
  }

  /** The assertions hold in every run exactly if there is one worker. */
  lemma SafeIff(s: State)
    requires Initial(s) && |s.workers| > 0
    ensures AlwaysSafe(s) <==> |s.workers| == 1
  {
    if |s.workers| == 1 {
      forall run | Runs(s, run) ensures !Final(s, run).aborted {
        OneWorkerSafe(s, run);
      }
    } else {
      var run := TwoWorkersClash(s);
    }
  }

  // ---------- one worker: whose cb_fiber it is ----------

  /** Nobody can get at this fiber: no entry refers to it and no user code knows it. */
  ghost predicate Unshared(s: State, g: nat)
  {
    g !in s.known && forall k :: 0 <= k < |s.queue| ==> s.queue[k].job != Resume(g)
  }

  ghost predicate Single(s: State)
  {
    |s.workers| == 1 && !s.aborted &&
    var w := s.workers[0];
    (forall f <- s.known :: f in s.fibers) &&
    (forall k :: 0 <= k < |s.queue| && s.queue[k].job.Resume? ==> s.queue[k].job.fiber in s.fibers) &&
    (w.phase.Picked? && w.phase.entry.job.Resume? ==> w.phase.entry.job.fiber in s.fibers) &&
    (forall f <- s.fibers :: s.fibers[f] == EXEC ==> w.phase.Running? && w.phase.fiber == f) &&
    (w.phase.Running? ==> s.Is(w.phase.fiber, EXEC)) &&
    (Handles(w.phase) ==> w.phase.fiber in s.fibers) &&
    if Handles(w.phase) && w.phase.viaCb then
      var g := w.phase.fiber;
      w.cbFiber == Some(g) && (g in s.known || Unshared(s, g)) &&
      (!w.phase.Running? ==> Suspended(s, g) || (s.Over(g) && Unshared(s, g)))
    else
      w.cbFiber.Some? ==>
        var g := w.cbFiber.value;
        s.Is(g, INIT) && Unshared(s, g) &&
        (Handles(w.phase) ==> w.phase.fiber != g) && (w.phase.Picked? ==> w.phase.entry.job != Resume(g))
  }

  /** A callback that hands out its own fiber then yields. */
  predicate Courteous(s: State, step: Step)
    requires Enabled(s, step)
  {
    step.Inside? && step.action.DoReturn? ==>
      var p := s.workers[step.worker].phase;
      p.viaCb && p.fiber in s.known ==> step.action.outcome.READY? || step.action.outcome.HOLD?
  }

  predicate CourteousRun(s: State, run: seq<Step>)
    requires Runs(s, run)
    decreases |run|
  {
    run == [] || (Courteous(s, run[0]) && CourteousRun(Next(s, run[0]), run[1..]))
  }

  lemma SingleScan(s: State, step: Step)
    requires Single(s) && Enabled(s, step) && Courteous(s, step)
    requires step.Inside? && step.action.DoScan?
    ensures Single(Next(s, step))
  {
    hide Dispatch;
    hide Courteous;
    hide FirstEligible;
    hide Eligible;
    var t, it := Next(s, step), FirstEligible(s, s.workers[0].thread, 0);
    assert t.fibers == s.fibers && t.known == s.known && |t.workers| == 1 && t.workers[0].cbFiber == s.workers[0].cbFiber && !t.aborted;
    if it < |s.queue| {
      assert t.queue == s.queue[..it] + s.queue[it + 1..] && t.workers[0].phase == Picked(s.queue[it]);
      SingleTook(s, t, it);
    } else {
      assert t.queue == s.queue && (t.workers[0].phase.Exited? || t.workers[0].phase.IdleStopping?);
      SingleRests(s, t);
    }
  }

  lemma SingleTook(s: State, t: State, it: nat)
    requires Single(s) && s.workers[0].phase.Scan? && it < |s.queue|
    requires t.fibers == s.fibers && t.known == s.known && |t.workers| == 1 && t.workers[0].cbFiber == s.workers[0].cbFiber && !t.aborted
    requires t.queue == s.queue[..it] + s.queue[it + 1..] && t.workers[0].phase == Picked(s.queue[it])
    ensures Single(t)
  {
    forall k | 0 <= k < |t.queue| ensures t.queue[k] == s.queue[if k < it then k else k + 1] {
    }
  }

  lemma SingleRests(s: State, t: State)
    requires Single(s) && s.workers[0].phase.Scan?
    requires t.fibers == s.fibers && t.known == s.known && |t.workers| == 1 && t.workers[0].cbFiber == s.workers[0].cbFiber && !t.aborted
    requires t.queue == s.queue && (t.workers[0].phase.Exited? || t.workers[0].phase.IdleStopping?)
    ensures Single(t)
  {
  }

  lemma SingleDispatch(s: State, step: Step)
    requires Single(s) && Enabled(s, step) && Courteous(s, step)
    requires step.Inside? && step.action.DoDispatch?
    ensures Single(Next(s, step))
  {
  }

  lemma SingleCode(s: State, step: Step)
    requires Single(s) && Enabled(s, step) && Courteous(s, step)
    requires step.Inside? && (step.action.DoSchedule? || step.action.DoPublish? || step.action.DoCreate?)
    ensures Single(Next(s, step))
  {
  }

  lemma SingleBack(s: State, step: Step)
    requires Single(s) && Enabled(s, step) && Courteous(s, step)
    requires step.Inside? && (step.action.DoReturn? || step.action.DoDecrement? || step.action.DoDecide?)
    ensures Single(Next(s, step))
  {
  }

  lemma SingleAfter(s: State, step: Step)
    requires Single(s) && Enabled(s, step) && Courteous(s, step)
    requires step.Inside? && (step.action.DoRequeue? || step.action.DoSettle? || step.action.DoHold?)
    ensures Single(Next(s, step))
  {
  }

  lemma SingleIdle(s: State, step: Step)
    requires Single(s) && Enabled(s, step) && Courteous(s, step)
    requires step.Inside? && (step.action.DoIdle? || step.action.DoLeaveIdle?)
    ensures Single(Next(s, step))
  {
    hide FirstEligible;
    hide Dispatch;
  }

  lemma SingleCheck(s: State, step: Step)
    requires Single(s) && Enabled(s, step) && Courteous(s, step)
    requires step.Inside? && step.action.DoCheck?
    ensures Single(Next(s, step))
  {
    hide FirstEligible;
    hide Dispatch;
  }

  lemma SingleOutside(s: State, step: Step)
    requires Single(s) && Enabled(s, step) && Courteous(s, step)
    requires !step.Inside?
    ensures Single(Next(s, step))
  {
  }

  lemma {:induction false} SingleAlways(s: State, run: seq<Step>)
    requires Single(s) && Runs(s, run) && CourteousRun(s, run)
    ensures Single(Final(s, run))
    decreases |run|
  {
    if run != [] {
      SingleNext(s, run[0]);
      SingleAlways(Next(s, run[0]), run[1..]);
    }
  }

  lemma SingleNext(s: State, step: Step)
    requires Single(s) && Enabled(s, step) && Courteous(s, step)
    ensures Single(Next(s, step))
  {
    if !step.Inside? {
      SingleOutside(s, step);
    } else {
      match step.action
      case DoScan => SingleScan(s, step);
      case DoDispatch(_) => SingleDispatch(s, step);
      case DoSchedule(_, _) => SingleCode(s, step);
      case DoPublish => SingleCode(s, step);
      case DoCreate(_) => SingleCode(s, step);
      case DoReturn(_) => SingleBack(s, step);
      case DoDecrement => SingleBack(s, step);
      case DoDecide => SingleBack(s, step);
      case DoRequeue => SingleAfter(s, step);
      case DoSettle => SingleAfter(s, step);
      case DoHold => SingleAfter(s, step);
      case DoCheck => SingleCheck(s, step);
      case _ => SingleIdle(s, step);
    }
  }

  /** At the head of the loop, and with a callback picked, cb_fiber is null, or INIT and out
      of everyone's reach. */
  ghost predicate Owned(s: State)
  {
    forall i :: 0 <= i < |s.workers| && (s.workers[i].phase.Scan? || s.workers[i].phase.Picked?) ==>
      var cb := s.workers[i].cbFiber; cb.None? || (s.Is(cb.value, INIT) && Unshared(s, cb.value))
  }

  /** In all runs, or in those whose callbacks are courteous. */
  ghost predicate AlwaysOwned(s: State, courteous: bool)
  {
    forall run :: Runs(s, run) && (courteous ==> CourteousRun(s, run)) ==> Owned(Final(s, run))
  }

  /** A callback that hands out its own fiber and then ends leaves an entry for it in the
      queue while the worker keeps the fiber for the next callback. */
  lemma DiscourteousCallback(s: State) returns (run: seq<Step>)
    requires Initial(s) && |s.workers| == 1
    ensures Runs(s, run)
    ensures var t := Final(s, run);
            |t.workers| == 1 && t.workers[0].phase.Scan? && t.workers[0].cbFiber.Some? && |t.queue| == 1 &&
            t.queue[0].job == Resume(t.workers[0].cbFiber.value)
  {
    run := Handed(s);
    hide Runs;
    hide Final;
    run := Go(s, run, Inside(0, DoReturn(TERM)));
    run := Go(s, run, Inside(0, DoDecrement));
    run := Go(s, run, Inside(0, DoDecide));
    run := Go(s, run, Inside(0, DoSettle));
  }

  lemma Handed(s: State) returns (run: seq<Step>)
    requires Initial(s) && |s.workers| == 1
    ensures Runs(s, run)
    ensures var t := Final(s, run);
            |t.workers| == 1 && t.workers[0].phase == Running(0, true) && t.workers[0].cbFiber == Some(0) && t.Is(0, EXEC) &&
            |t.queue| == 1 && t.queue[0].job == Resume(0) && t.bare == {} && !t.aborted
  {
    run := [];
    run := Go(s, run, OutsideSchedule(Call(0), ANY_THREAD));
    run := Go(s, run, Stop);
    hide Runs;
    hide Final;
    run := Called(s, run, 0);
    run := Go(s, run, Inside(0, DoScan));
    run := Go(s, run, Inside(0, DoDispatch(0)));
    run := Go(s, run, Inside(0, DoPublish));
    run := Go(s, run, Inside(0, DoSchedule(Resume(0), ANY_THREAD)));
  }

  /** With one worker, cb_fiber is the worker's own at each loop head exactly as long as
      callbacks that hand out their fiber then yield. */
  lemma OwnedIff(s: State, courteous: bool)
    requires Initial(s) && |s.workers| == 1
    ensures AlwaysOwned(s, courteous) <==> courteous
  {
    if courteous {
      forall run | Runs(s, run) && CourteousRun(s, run) ensures Owned(Final(s, run)) {
        SingleAlways(s, run);
      }
    } else {
      var run := DiscourteousCallback(s);
      assert Final(s, run).workers[0].phase.Scan?;
      assert !Owned(Final(s, run));
    }
  }
}
