/** What becomes of the queue when the workers go, and what stopping() promises. Line
    numbers are those of fatdog/scheduler.cpp. */
module SchedulerDrain {
  import opened Codec
  import opened SchedulerSpec

  /** A fiber that executes is executed by a worker. */
  predicate RunBySome(s: State, f: nat)
  {
    exists i :: 0 <= i < |s.workers| && s.workers[i].phase.Running? && s.workers[i].phase.fiber == f
  }

  predicate NoStrays(s: State)
  {
    forall f <- s.fibers :: s.fibers[f] == EXEC ==> RunBySome(s, f)
  }

  /** A worker that has seen m_stopping. */
  predicate SawStop(w: Worker)
  {
    w.phase.CheckEmpty? || w.phase.CheckActive? || w.phase.Skipped? || w.phase.Exited? || w.idleTerm ||
    w.phase.IdleEmpty? || w.phase.IdleActive? || w.phase == IdleOut(true)
  }

  /** A worker that will not look at the queue again, unless stop() calls it after all. */
  predicate Settled(w: Worker)
  {
    w.phase.Exited? || w.phase.Skipped? || w.phase.CheckActive?
  }

  ghost predicate AllSettled(s: State)
  {
    forall i :: 0 <= i < |s.workers| ==> Settled(s.workers[i])
  }

  /** What worker i leaves behind when it goes last: entries for other threads. */
  ghost predicate LeftByLast(s: State, i: nat)
  {
    i < |s.workers| && forall e <- s.queue :: e.thread != ANY_THREAD && e.thread != s.workers[i].thread
  }

  ghost predicate Draining(s: State)
  {
    NoStrays(s) && forall i :: 0 <= i < |s.workers| && SawStop(s.workers[i]) ==> s.stopping
  }

  lemma StraysNext(s: State, step: Step)
    requires NoStrays(s) && Enabled(s, step)
    ensures NoStrays(Next(s, step))
  {
    hide FirstEligible;
    hide Checked;
    hide Idled;
    var t := Next(s, step);
    if step.Inside? {
      OneMoves(s, step.worker, step.action);
      forall f | f in t.fibers && t.fibers[f] == EXEC ensures RunBySome(t, f) {
        if s.Is(f, EXEC) {
          var j :| 0 <= j < |s.workers| && s.workers[j].phase.Running? && s.workers[j].phase.fiber == f;
          assert j != step.worker ==> t.workers[j] == s.workers[j];
        }
      }
    }
  }

  lemma SawStopNext(s: State, step: Step)
    requires Enabled(s, step) && forall i :: 0 <= i < |s.workers| && SawStop(s.workers[i]) ==> s.stopping
    ensures var t := Next(s, step); forall i :: 0 <= i < |t.workers| && SawStop(t.workers[i]) ==> t.stopping
  {
    if step.Inside? {
      OneMoves(s, step.worker, step.action);
    }
  }

  /** A worker settles by its last scan or in stop(). */
  lemma SettlesBy(s: State, i: nat, a: Action)
    requires i < |s.workers| && EnabledIn(s, s.workers[i], a)
    requires |NextIn(s, i, a).workers| == |s.workers| && Settled(NextIn(s, i, a).workers[i])
    ensures a.DoScan? || (a.DoCheck? && !s.workers[i].phase.Waiting?)
    ensures NextIn(s, i, a).queue == s.queue && NextIn(s, i, a).workers[i].thread == s.workers[i].thread
    ensures a.DoScan? ==> FirstEligible(s, s.workers[i].thread, 0) == |s.queue|
    ensures a.DoCheck? ==> s.queue == [] || Settled(s.workers[i])
  {
    if a.DoDispatch? {
      DispatchNeverSettles(s, i, a.newF);
    } else if !a.DoScan? && !a.DoCheck? {
      if a.DoIdle? || a.DoLeaveIdle? {
        IdleNeverSettles(s, i, a);
      } else if s.workers[i].phase.Running? {
        CodeNeverSettles(s, i, a);
      } else {
        NeverSettles(s, i, a);
      }
    } else {
      ScanOrCheckSettles(s, i, a);
    }
  }

  lemma ScanOrCheckSettles(s: State, i: nat, a: Action)
    requires i < |s.workers| && EnabledIn(s, s.workers[i], a) && (a.DoScan? || a.DoCheck?)
    requires |NextIn(s, i, a).workers| == |s.workers| && Settled(NextIn(s, i, a).workers[i])
    ensures a.DoCheck? ==> !s.workers[i].phase.Waiting? && (s.queue == [] || Settled(s.workers[i]))
    ensures a.DoScan? ==> FirstEligible(s, s.workers[i].thread, 0) == |s.queue|
    ensures NextIn(s, i, a).queue == s.queue && NextIn(s, i, a).workers[i].thread == s.workers[i].thread
  {
  }

  lemma DispatchNeverSettles(s: State, i: nat, newF: nat)
    requires i < |s.workers| && EnabledIn(s, s.workers[i], DoDispatch(newF))
    ensures |Dispatch(s, i, s.workers[i].phase.entry, newF).workers| == |s.workers|
    ensures !Settled(Dispatch(s, i, s.workers[i].phase.entry, newF).workers[i])
  {
  }

  lemma IdleNeverSettles(s: State, i: nat, a: Action)
    requires i < |s.workers| && EnabledIn(s, s.workers[i], a) && (a.DoIdle? || a.DoLeaveIdle?)
    ensures |NextIn(s, i, a).workers| == |s.workers| && !Settled(NextIn(s, i, a).workers[i])
  {
    hide FirstEligible;
    hide Dispatch;
  }

  lemma CodeNeverSettles(s: State, i: nat, a: Action)
    requires i < |s.workers| && EnabledIn(s, s.workers[i], a) && s.workers[i].phase.Running?
    ensures |NextIn(s, i, a).workers| == |s.workers| && !Settled(NextIn(s, i, a).workers[i])
  {
    hide FirstEligible;
    hide Dispatch;
  }

  lemma NeverSettles(s: State, i: nat, a: Action)
    requires i < |s.workers| && EnabledIn(s, s.workers[i], a) && !a.DoScan? && !a.DoCheck? && !a.DoDispatch?
    requires !a.DoIdle? && !a.DoLeaveIdle? && !s.workers[i].phase.Running?
    ensures |NextIn(s, i, a).workers| == |s.workers| && !Settled(NextIn(s, i, a).workers[i])
  {
    hide FirstEligible;
    hide Dispatch;
  }

  /** The last one's last scan: no fiber executes, so what it skips is for others. */
  lemma LastScan(s: State, i: nat)
    requires NoStrays(s) && i < |s.workers| && s.workers[i].phase.Scan?
    requires forall j :: 0 <= j < |s.workers| && j != i ==> Settled(s.workers[j])
    requires FirstEligible(s, s.workers[i].thread, 0) == |s.queue|
    ensures LeftByLast(s, i)
  {
    forall e | e in s.queue ensures e.thread != ANY_THREAD && e.thread != s.workers[i].thread {
      var k :| 0 <= k < |s.queue| && s.queue[k] == e;
      assert !Eligible(s, e, s.workers[i].thread);
      assert e.job.Resume? && s.Is(e.job.fiber, EXEC) ==> RunBySome(s, e.job.fiber);
    }
  }

  lemma {:induction false} DrainingAlways(s: State, run: seq<Step>)
    requires Draining(s) && |s.workers| > 0 && Runs(s, run)
    ensures Draining(Final(s, run)) && |Final(s, run).workers| == |s.workers|
    decreases |run|
  {
    if run != [] {
      StraysNext(s, run[0]);
      SawStopNext(s, run[0]);
      FourKinds(s, run[0]);
      DrainingAlways(Next(s, run[0]), run[1..]);
    }
  }

  /** Once all have settled, nothing comes to the queue. */
  lemma SettledKeep(s: State, step: Step)
    requires Draining(s) && |s.workers| > 0 && AllSettled(s) && Enabled(s, step) && AllSettled(Next(s, step))
    ensures Next(s, step).queue == s.queue && |Next(s, step).workers| == |s.workers|
    ensures forall i :: 0 <= i < |s.workers| ==> Next(s, step).workers[i].thread == s.workers[i].thread
  {
    assert Settled(s.workers[0]);
    if step.Inside? {
      OneMoves(s, step.worker, step.action);
      SettlesBy(s, step.worker, step.action);
    }
  }

  /** The step by which the last one settles. */
  lemma LastSettles(s: State, step: Step)
    requires Draining(s) && Enabled(s, step) && !AllSettled(s) && AllSettled(Next(s, step))
    ensures step.Inside? && step.worker < |s.workers| && !Settled(s.workers[step.worker])
    ensures forall j :: 0 <= j < |s.workers| && j != step.worker ==> Settled(s.workers[j])
    ensures LeftByLast(Next(s, step), step.worker)
  {
    var t := Next(s, step);
    assert step.Inside?;
    var i := step.worker;
    OneMoves(s, i, step.action);
    forall j | 0 <= j < |s.workers| && j != i ensures Settled(s.workers[j]) {
      assert t.workers[j] == s.workers[j];
    }
    SettlesBy(s, i, step.action);
    if step.action.DoScan? {
      LastScan(s, i);
    }
  }

  /** Step k is the last at which a worker looks at the queue: the others have settled, and
      what it leaves is bound to threads other than its own. */
  ghost predicate LastLook(s: State, run: seq<Step>, k: nat)
    requires Runs(s, run)
  {
    k < |run| && run[k].Inside? && Runs(s, run[..k]) &&
    var u, i := Final(s, run[..k]), run[k].worker;
    i < |u.workers| && !Settled(u.workers[i]) && (forall j :: 0 <= j < |u.workers| && j != i ==> Settled(u.workers[j])) &&
    LeftByLast(Final(s, run), i)
  }

  lemma {:induction false} FindLastLook(s: State, run: seq<Step>) returns (k: nat)
    requires Draining(s) && |s.workers| > 0 && Runs(s, run) && !AllSettled(s) && AllSettled(Final(s, run))
    ensures LastLook(s, run, k)
    decreases |run|
  {
    var n := |run| - 1;
    Splits(s, run, n);
    var u := Final(s, run[..n]);
    assert run[n..] == [run[n]] && run[n..][1..] == [];
    assert Final(s, run) == Next(u, run[n]);
    DrainingAlways(s, run[..n]);
    if AllSettled(u) {
      k := FindLastLook(s, run[..n]);
      assert run[..n][..k] == run[..k];
      SettledKeep(u, run[n]);
    } else {
      k := n;
      LastSettles(u, run[n]);
    }
  }

  /** Out of run(), or never called by stop(). */
  predicate Gone(w: Worker)
  {
    w.phase.Exited? || w.phase.Skipped?
  }

  ghost predicate AllGone(s: State)
  {
    forall i :: 0 <= i < |s.workers| ==> Gone(s.workers[i])
  }

  /** When every worker is gone, each entry left in the queue is bound to a thread other
      than that of the worker that looked at the queue last, and every other entry ever
      scheduled was swapped in, or discarded because its fiber had ended. Nothing is
      scheduled from outside after stop(). */
  lemma Drains(s: State, run: seq<Step>) returns (k: nat)
    requires Initial(s) && |s.workers| > 0 && Runs(s, run) && AllGone(Final(s, run))
    ensures LastLook(s, run, k)
    ensures var t := Final(s, run);
            t.active == 0 && t.idle == 0 && forall x :: 0 <= x < t.tickets ==> Queued(t, x) || x in t.fates
  {
    assert !Settled(s.workers[0]);
    CountersExact(s, run);
    DrainingAlways(s, run);
    CountNone(Final(s, run).workers);
    TicketedAlways(s, run);
    k := FindLastLook(s, run);
  }

  // ---------- when the queue is empty then ----------

  /** Whoever schedules binds the job to a thread. */
  predicate Binds(step: Step)
  {
    (step.OutsideSchedule? && step.thread != ANY_THREAD) ||
    (step.Inside? && step.action.DoSchedule? && step.action.thread != ANY_THREAD)
  }

  predicate Unbound(run: seq<Step>)
  {
    forall k :: 0 <= k < |run| ==> !Binds(run[k])
  }

  ghost predicate NoneBound(s: State)
  {
    forall k :: 0 <= k < |s.queue| ==> s.queue[k].thread == ANY_THREAD
  }

  lemma UnboundNext(s: State, step: Step)
    requires NoneBound(s) && Enabled(s, step) && !Binds(step)
    ensures NoneBound(Next(s, step))
  {
    hide FirstEligible;
    if step.Inside? && step.action.DoDispatch? {
      hide NextIn;
      DispatchLeaves(s, step.worker, step.action.newF);
    }
  }

  lemma DispatchLeaves(s: State, i: nat, newF: nat)
    requires i < |s.workers| && EnabledIn(s, s.workers[i], DoDispatch(newF))
    ensures NextIn(s, i, DoDispatch(newF)).queue == s.queue
  {
  }

  lemma {:induction false} UnboundAlways(s: State, run: seq<Step>)
    requires NoneBound(s) && Runs(s, run) && Unbound(run)
    ensures NoneBound(Final(s, run))
    decreases |run|
  {
    if run != [] {
      UnboundNext(s, run[0]);
      UnboundAlways(Next(s, run[0]), run[1..]);
    }
  }

  /** A worker that has seen the queue empty after it saw m_stopping. */
  predicate SawEmpty(w: Worker)
  {
    w.idleTerm || w.phase.IdleActive? || w.phase == IdleOut(true) || w.phase.CheckActive? || Gone(w)
  }

  /** A lone worker: what it has seen stays so, since nobody else schedules. */
  predicate Lone(s: State)
  {
    |s.workers| == 1 &&
    var w := s.workers[0];
    (SawStop(w) ==> s.stopping) && (SawEmpty(w) ==> s.queue == []) && (w.idleTerm ==> w.phase.Scan? || w.phase.Exited?)
  }

  lemma LoneNext(s: State, step: Step)
    requires Lone(s) && Enabled(s, step)
    ensures Lone(Next(s, step))
  {
    hide FirstEligible;
    if step.Inside? {
      if step.action.DoDispatch? {
        LoneDispatch(s, step.action.newF);
      } else if step.action.DoScan? || step.action.DoCheck? || step.action.DoIdle? || step.action.DoLeaveIdle? {
        LoneLoop(s, step.action);
      } else {
        LoneFiber(s, step.action);
      }
    }
  }

  lemma LoneDispatch(s: State, newF: nat)
    requires Lone(s) && EnabledIn(s, s.workers[0], DoDispatch(newF))
    ensures Lone(NextIn(s, 0, DoDispatch(newF)))
  {
    hide FirstEligible;
  }

  lemma LoneLoop(s: State, a: Action)
    requires Lone(s) && EnabledIn(s, s.workers[0], a) && (a.DoScan? || a.DoCheck? || a.DoIdle? || a.DoLeaveIdle?)
    ensures Lone(NextIn(s, 0, a))
  {
    hide FirstEligible;
    hide Dispatch;
  }

  lemma LoneFiber(s: State, a: Action)
    requires Lone(s) && EnabledIn(s, s.workers[0], a)
    requires !a.DoDispatch? && !a.DoScan? && !a.DoCheck? && !a.DoIdle? && !a.DoLeaveIdle?
    ensures Lone(NextIn(s, 0, a))
  {
    hide FirstEligible;
    hide Dispatch;
  }

  lemma {:induction false} LoneAlways(s: State, run: seq<Step>)
    requires Lone(s) && Runs(s, run)
    ensures Lone(Final(s, run))
    decreases |run|
  {
    if run != [] {
      LoneNext(s, run[0]);
      LoneAlways(Next(s, run[0]), run[1..]);
    }
  }

  /** The queue is empty, and every entry was swapped in or discarded. */
  ghost predicate Drained(s: State)
  {
    s.queue == [] && forall x :: 0 <= x < s.tickets ==> x in s.fates
  }

  lemma DrainsUnbound(s: State, run: seq<Step>)
    requires Initial(s) && |s.workers| > 0 && Runs(s, run) && AllGone(Final(s, run)) && Unbound(run)
    ensures Drained(Final(s, run))
  {
    UnboundAlways(s, run);
    var k := Drains(s, run);
    var t := Final(s, run);
    if t.queue != [] {
      SomeUnbound(t, run[k].worker);
    }
  }

  lemma SomeUnbound(s: State, i: nat)
    requires NoneBound(s) && s.queue != []
    ensures !LeftByLast(s, i)
  {
    assert s.queue[0] in s.queue;
  }

  lemma DrainsAlone(s: State, run: seq<Step>)
    requires Initial(s) && |s.workers| == 1 && Runs(s, run) && AllGone(Final(s, run))
    ensures Drained(Final(s, run))
  {
    LoneAlways(s, run);
    var k := Drains(s, run);
  }

  // ---------- an entry left behind ----------

  /** Threads have ids of their own. */
  predicate OwnThreads(s: State)
  {
    forall i, j :: 0 <= i < j < |s.workers| ==> s.workers[i].thread != s.workers[j].thread && s.workers[i].thread != ANY_THREAD
  }

  /** Worker 0 has seen the queue empty while worker 1 was about to fill it again: */
  ghost predicate Opened(t: State, a: int, b: int)
  {
    |t.workers| >= 2 && t.workers[0] == Worker(a, Scan, true, None) && t.workers[1] == Worker(b, Requeue(0, true), false, Some(0)) &&
    t.queue == [] && t.fibers == map[0 := READY] && t.bare == {} && t.active == 0 && t.stopping && !t.aborted
  }

  lemma Opening(s: State) returns (run: seq<Step>)
    requires Initial(s) && |s.workers| >= 2
    ensures Runs(s, run) && Opened(Final(s, run), s.workers[0].thread, s.workers[1].thread)
    ensures Final(s, run).workers == s.workers[0 := Final(s, run).workers[0]][1 := Final(s, run).workers[1]]
  {
    run := Submitted(s);
    hide Runs;
    hide Final;
    run := Go(s, run, Inside(1, DoScan));
    run := Go(s, run, Inside(1, DoDispatch(0)));
    run := ReadyAgain(s, run, 1, 0);
    run := IdleToEnd(s, run, 0);
  }

  lemma Submitted(s: State) returns (run: seq<Step>)
    requires Initial(s) && |s.workers| >= 2
    ensures Runs(s, run)
    ensures Final(s, run) == s.(workers := s.workers[0 := s.workers[0].(phase := Scan)][1 := s.workers[1].(phase := Scan)],
                                queue := [Entry(0, Call(0), ANY_THREAD)], tickets := 1, stopping := true)
  {
    run := [];
    run := Go(s, run, OutsideSchedule(Call(0), ANY_THREAD));
    run := Go(s, run, Stop);
    hide Runs;
    hide Final;
    run := Called(s, run, 0);
    run := Called(s, run, 1);
  }

  /** In that moment the workers from 2 to n find stopping() true and go. */
  lemma {:induction false} Dismissed(s: State, run: seq<Step>, n: nat) returns (longer: seq<Step>)
    requires Runs(s, run)
    requires var t := Final(s, run);
             2 <= n <= |t.workers| && t.stopping && t.queue == [] && t.active == 0 && !t.aborted &&
             (forall j :: 2 <= j < n ==> Fresh(t.workers[j])) && (forall j :: n <= j < |t.workers| ==> Gone(t.workers[j]))
    ensures Runs(s, longer)
    ensures var t, u := Final(s, run), Final(s, longer);
            u == t.(workers := u.workers) && |u.workers| == |t.workers| && u.workers[..2] == t.workers[..2] &&
            forall j :: 2 <= j < |u.workers| ==> Gone(u.workers[j])
    decreases n
  {
    longer := run;
    if n > 2 {
      longer := OneDismissed(s, run, n - 1);
      var t, u := Final(s, run), Final(s, longer);
      assert u.workers[..2] == t.workers[..2];
      assert forall j :: 0 <= j < |t.workers| && j != n - 1 ==> u.workers[j] == t.workers[j];
      longer := Dismissed(s, longer, n - 1);
    }
  }

  lemma OneDismissed(s: State, run: seq<Step>, j: nat) returns (longer: seq<Step>)
    requires Runs(s, run)
    requires var t := Final(s, run);
             j < |t.workers| && t.stopping && t.queue == [] && t.active == 0 && !t.aborted && Fresh(t.workers[j])
    ensures Runs(s, longer)
    ensures var t, u := Final(s, run), Final(s, longer);
            |u.workers| == |t.workers| && u == t.(workers := t.workers[j := u.workers[j]]) && Gone(u.workers[j])
  {
    hide Runs;
    hide Final;
    if Final(s, run).workers[j].phase.Scan? {
      longer := IdleToEnd(s, run, j);
      longer := Go(s, longer, Inside(j, DoScan));
    } else {
      longer := Go(s, run, Inside(j, DoCheck));
      longer := Go(s, longer, Inside(j, DoCheck));
      longer := Go(s, longer, Inside(j, DoCheck));
    }
  }

  /** Then worker 1 requeues its fiber, and worker 0 takes it up; */
  lemma HandedOver(s: State, run: seq<Step>, a: int, b: int) returns (longer: seq<Step>)
    requires Runs(s, run) && Opened(Final(s, run), a, b) && a != b
    ensures Runs(s, longer)
    ensures var t, u := Final(s, run), Final(s, longer);
            |u.workers| == |t.workers| &&
            u.workers == t.workers[0 := Worker(a, Running(0, false), true, None)][1 := Worker(b, Scan, false, None)] &&
            u.queue == [] && u.fibers == map[0 := EXEC] && u.bare == {} && u.active == 1 && u.stopping && !u.aborted
  {
    hide Runs;
    hide Final;
    longer := Go(s, run, Inside(1, DoRequeue));
    longer := Go(s, longer, Inside(0, DoScan));
    longer := Go(s, longer, Inside(0, DoDispatch(1)));
  }

  /** now worker 1 sees the queue empty, and both have. */
  lemma BothSaw(s: State, run: seq<Step>, a: int, b: int) returns (longer: seq<Step>)
    requires Runs(s, run) && Opened(Final(s, run), a, b) && a != b
    ensures Runs(s, longer)
    ensures var t, u := Final(s, run), Final(s, longer);
            |u.workers| == |t.workers| &&
            u.workers == t.workers[0 := Worker(a, Requeue(0, false), true, None)][1 := Worker(b, Scan, true, None)] &&
            u.queue == [] && u.fibers == map[0 := READY] && u.bare == {} && u.active == 0 && u.stopping && !u.aborted
  {
    longer := HandedOver(s, run, a, b);
    hide Runs;
    hide Final;
    longer := ReadyAgain(s, longer, 0, 0);
    longer := IdleToEnd(s, longer, 1);
  }

  /** Worker 0 requeues and goes, worker 1 takes the fiber, */
  lemma FirstLeaves(s: State, run: seq<Step>, a: int, b: int) returns (longer: seq<Step>)
    requires Runs(s, run) && |Final(s, run).workers| >= 2
    requires var t := Final(s, run);
             t.workers[0] == Worker(a, Requeue(0, false), true, None) && t.workers[1] == Worker(b, Scan, true, None) &&
             t.queue == [] && t.fibers == map[0 := READY] && t.bare == {} && t.active == 0 && t.stopping && !t.aborted
    ensures Runs(s, longer)
    ensures var t, u := Final(s, run), Final(s, longer);
            |u.workers| == |t.workers| &&
            u.workers == t.workers[0 := Worker(a, Exited, true, None)][1 := Worker(b, Running(0, false), true, None)] &&
            u.queue == [] && u.fibers == map[0 := EXEC] && u.bare == {} && u.active == 1 && u.stopping && !u.aborted
  {
    hide Runs;
    hide Final;
    longer := Go(s, run, Inside(0, DoRequeue));
    longer := Go(s, longer, Inside(1, DoScan));
    longer := Go(s, longer, Inside(0, DoScan));
    longer := Go(s, longer, Inside(1, DoDispatch(1)));
  }

  /** which binds a callback to worker 0's thread and ends; and worker 1 goes. */
  lemma SecondLeaves(s: State, run: seq<Step>, a: int, b: int) returns (longer: seq<Step>)
    requires Runs(s, run) && |Final(s, run).workers| >= 2 && a != b && a != ANY_THREAD
    requires var t := Final(s, run);
             t.workers[1] == Worker(b, Running(0, false), true, None) &&
             t.queue == [] && t.fibers == map[0 := EXEC] && t.bare == {} && t.active == 1 && t.stopping && !t.aborted
    ensures Runs(s, longer)
    ensures var t, u := Final(s, run), Final(s, longer);
            |u.workers| == |t.workers| && u.workers == t.workers[1 := Worker(b, Exited, true, None)] &&
            |u.queue| == 1 && u.queue[0].thread == a
  {
    longer := LastCall(s, run, a, b);
    hide Runs;
    hide Final;
    longer := Go(s, longer, Inside(1, DoDecrement));
    longer := Go(s, longer, Inside(1, DoDecide));
    longer := Go(s, longer, Inside(1, DoSettle));
    longer := Go(s, longer, Inside(1, DoScan));
  }

  lemma LastCall(s: State, run: seq<Step>, a: int, b: int) returns (longer: seq<Step>)
    requires Runs(s, run) && |Final(s, run).workers| >= 2
    requires var t := Final(s, run);
             t.workers[1] == Worker(b, Running(0, false), true, None) &&
             t.queue == [] && t.fibers == map[0 := EXEC] && t.bare == {} && t.active == 1 && t.stopping && !t.aborted
    ensures Runs(s, longer)
    ensures var t, u := Final(s, run), Final(s, longer);
            u.workers == t.workers[1 := Worker(b, Returned(0, false), true, None)] && u.fibers == map[0 := TERM] &&
            u.stopping && !u.aborted && |u.queue| == 1 && u.queue[0].thread == a && u.queue[0].job.Call?
  {
    hide Runs;
    hide Final;
    longer := Go(s, run, Inside(1, DoSchedule(Call(1), a)));
    longer := Go(s, longer, Inside(1, DoReturn(TERM)));
  }

  /** Two workers or more, spawned or not, can all go and leave an entry behind that is
      bound to the first of them. */
  lemma BoundEntryLeftBehind(s: State) returns (run: seq<Step>)
    requires Initial(s) && |s.workers| >= 2 && OwnThreads(s)
    ensures Runs(s, run) && AllGone(Final(s, run))
    ensures |Final(s, run).queue| == 1 && Final(s, run).queue[0].thread == s.workers[0].thread
  {
    var a, b := s.workers[0].thread, s.workers[1].thread;
    run := Opening(s);
    hide Runs;
    hide Final;
    run := Dismissed(s, run, |s.workers|);
    var others := Final(s, run).workers[2..];
    run := BothSaw(s, run, a, b);
    run := FirstLeaves(s, run, a, b);
    run := SecondLeaves(s, run, a, b);
    assert Final(s, run).workers[2..] == others;
  }

  /** Every complete run drains: of all runs, or of those that bind nothing to a thread. */
  ghost predicate AlwaysDrains(s: State, binding: bool)
  {
    forall run :: Runs(s, run) && (binding || Unbound(run)) && AllGone(Final(s, run)) ==> Drained(Final(s, run))
  }

  /** Drain, exactly: with one worker always; with more of them as long as nothing is bound
      to a thread. */
  lemma DrainsIff(s: State, binding: bool)
    requires Initial(s) && |s.workers| > 0 && OwnThreads(s)
    ensures AlwaysDrains(s, binding) <==> !binding || |s.workers| == 1
  {
    if !binding {
      forall run | Runs(s, run) && Unbound(run) && AllGone(Final(s, run)) ensures Drained(Final(s, run)) {
        DrainsUnbound(s, run);
      }
    } else if |s.workers| == 1 {
      forall run | Runs(s, run) && AllGone(Final(s, run)) ensures Drained(Final(s, run)) {
        DrainsAlone(s, run);
      }
    } else {
      var run := BoundEntryLeftBehind(s);
      assert !Drained(Final(s, run));
    }
  }

  // ---------- stopping() while a fiber is held ----------

  /** stopping() */
  predicate Stopping(s: State)
  {
    s.stopping && s.queue == [] && s.active == 0
  }

  /** Worker i is about to put its fiber back into the queue. */
  predicate Returning(s: State, i: nat)
  {
    i < |s.workers| && (s.workers[i].phase.Requeue? || (s.workers[i].phase.Back? && s.Is(s.workers[i].phase.fiber, READY)))
  }

  lemma {:induction false} NoneBusy(ws: seq<Worker>, i: nat)
    requires i < |ws| && CountBusy(ws) == 0
    ensures !Busy(ws[i].phase)
  {
    if i > 0 {
      NoneBusy(ws[1..], i - 1);
    }
  }

  /** When stopping() holds, a worker that still holds a fiber has counted it off already;
      and only a step by which one puts its fiber back fills the queue. */
  lemma StoppingLeaves(s: State, run: seq<Step>, i: nat, step: Step)
    requires Initial(s) && Runs(s, run) && Stopping(Final(s, run)) && i < |Final(s, run).workers|
    ensures var p := Final(s, run).workers[i].phase; Handles(p) ==> p.Back? || p.NotReady? || p.Requeue? || p.Hold?
    ensures Enabled(Final(s, run), step) ==> (Next(Final(s, run), step).queue != [] <==> step.Inside? && step.action.DoRequeue?)
  {
    var t := Final(s, run);
    CountersExact(s, run);
    NoneBusy(t.workers, i);
    if Enabled(t, step) && step.Inside? {
      NoneBusy(t.workers, step.worker);
      StillEmpty(t, step.worker, step.action);
    }
  }

  lemma StillEmpty(s: State, i: nat, a: Action)
    requires i < |s.workers| && EnabledIn(s, s.workers[i], a) && !Busy(s.workers[i].phase) && s.queue == []
    ensures NextIn(s, i, a).queue != [] <==> a.DoRequeue?
  {
    hide FirstEligible;
    hide Dispatch;
  }

  /** Nothing queued, nothing running, nobody about to put a fiber back. */
  ghost predicate Quiescent(s: State)
  {
    s.stopping && s.queue == [] && forall i: nat :: i < |s.workers| ==> !Busy(s.workers[i].phase) && !Returning(s, i)
  }

  lemma QuiescentNext(s: State, step: Step)
    requires Quiescent(s) && Enabled(s, step)
    ensures Quiescent(Next(s, step))
  {
    if step.Inside? {
      var i, t := step.worker, Next(s, step);
      StillEmpty(s, i, step.action);
      OneMoves(s, i, step.action);
      NeverReadyAgain(s, i, step.action);
      forall j: nat | j < |t.workers| ensures !Busy(t.workers[j].phase) && !Returning(t, j) {
        assert j != i ==> t.workers[j] == s.workers[j] && !Returning(s, j);
      }
    }
  }

  lemma NeverReadyAgain(s: State, i: nat, a: Action)
    requires i < |s.workers| && EnabledIn(s, s.workers[i], a) && !Busy(s.workers[i].phase) && !Returning(s, i) && s.queue == []
    ensures var t := NextIn(s, i, a);
            |t.workers| == |s.workers| && !Busy(t.workers[i].phase) && !Returning(t, i) && t.stopping == s.stopping &&
            forall f <- t.fibers :: t.fibers[f] == READY ==> s.Is(f, READY)
  {
    if a.DoScan? || a.DoLeaveIdle? {
      LoopNeverReady(s, i, a);
    } else if a.DoCheck? || a.DoIdle? {
      ReadNeverReady(s, i, a);
    } else {
      FiberNeverReady(s, i, a);
    }
  }

  lemma LoopNeverReady(s: State, i: nat, a: Action)
    requires i < |s.workers| && EnabledIn(s, s.workers[i], a) && s.queue == [] && (a.DoScan? || a.DoLeaveIdle?)
    ensures var t := NextIn(s, i, a);
            |t.workers| == |s.workers| && !Busy(t.workers[i].phase) && !Returning(t, i) && t.stopping == s.stopping && t.fibers == s.fibers
  {
    hide FirstEligible;
    hide Dispatch;
  }

  lemma ReadNeverReady(s: State, i: nat, a: Action)
    requires i < |s.workers| && EnabledIn(s, s.workers[i], a) && (a.DoCheck? || a.DoIdle?)
    ensures var t := NextIn(s, i, a);
            |t.workers| == |s.workers| && !Busy(t.workers[i].phase) && !Returning(t, i) && t.stopping == s.stopping && t.fibers == s.fibers
  {
    hide FirstEligible;
    hide Dispatch;
  }

  lemma FiberNeverReady(s: State, i: nat, a: Action)
    requires i < |s.workers| && EnabledIn(s, s.workers[i], a) && !Busy(s.workers[i].phase) && !Returning(s, i)
    requires !a.DoScan? && !a.DoCheck? && !a.DoIdle? && !a.DoLeaveIdle?
    ensures var t := NextIn(s, i, a);
            |t.workers| == |s.workers| && !Busy(t.workers[i].phase) && !Returning(t, i) && t.stopping == s.stopping &&
            forall f <- t.fibers :: t.fibers[f] == READY ==> s.Is(f, READY)
  {
    hide FirstEligible;
    hide Dispatch;
    assert a.DoDecide? || a.DoSettle? || a.DoHold?;
  }

  lemma {:induction false} QuiescentAlways(s: State, run: seq<Step>)
    requires Quiescent(s) && Runs(s, run)
    ensures Quiescent(Final(s, run))
    decreases |run|
  {
    if run != [] {
      QuiescentNext(s, run[0]);
      QuiescentAlways(Next(s, run[0]), run[1..]);
    }
  }

  /** stopping() is too early, in that the queue can fill again, exactly when some worker
      is about to put a fiber back. */
  lemma StoppingTooEarlyIff(s: State, run: seq<Step>)
    requires Initial(s) && Runs(s, run) && Stopping(Final(s, run)) && !Final(s, run).aborted
    ensures var t := Final(s, run);
            (exists more :: Runs(t, more) && Final(t, more).queue != []) <==> (exists i: nat :: Returning(t, i))
  {
    var t := Final(s, run);
    if i: nat :| Returning(t, i) {
      var more := PutBack(t, i);
    } else {
      CountersExact(s, run);
      forall i: nat | i < |t.workers| ensures !Busy(t.workers[i].phase) {
        NoneBusy(t.workers, i);
      }
      forall more | Runs(t, more) ensures Final(t, more).queue == [] {
        QuiescentAlways(t, more);
      }
    }
  }

  lemma PutBack(t: State, i: nat) returns (more: seq<Step>)
    requires Returning(t, i) && !t.aborted
    ensures Runs(t, more) && Final(t, more).queue != []
  {
    more := [];
    if t.workers[i].phase.Back? {
      more := Go(t, more, Inside(i, DoDecide));
    }
    more := Go(t, more, Inside(i, DoRequeue));
  }

  /** And every scheduler can come to that: the count drops before the fiber is put back. */
  lemma StoppingTooEarly(s: State) returns (run: seq<Step>)
    requires Initial(s) && |s.workers| > 0
    ensures Runs(s, run) && Stopping(Final(s, run)) && Returning(Final(s, run), 0) && !Final(s, run).aborted
  {
    run := [];
    run := Go(s, run, OutsideSchedule(Call(0), ANY_THREAD));
    run := Go(s, run, Stop);
    hide Runs;
    hide Final;
    run := Called(s, run, 0);
    run := Go(s, run, Inside(0, DoScan));
    run := Go(s, run, Inside(0, DoDispatch(0)));
    run := ReadyAgain(s, run, 0, 0);
  }
}
