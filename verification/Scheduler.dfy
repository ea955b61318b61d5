/** Scheduler and Fiber as objects: each atomic step of run(), idle() and stop() updates
    the fields as the source does, and is proved to be the step of SchedulerSpec. Line
    numbers are those of fatdog/scheduler.cpp. */
module Schedulers {
  import opened Codec
  import opened SchedulerSpec

  class Fiber {
    const id: nat
    var state: FiberState
    var cb: bool                       // whether m_cb holds a callback

    constructor (id: nat)
      ensures this.id == id && state == INIT && cb
    {
      this.id := id;
      state, cb := INIT, true;
    }

    /** swapIn; false is its failed assertion. */
    method SwapIn() returns (ok: bool)
      modifies this`state
      ensures ok <==> old(state) != EXEC
      ensures state == EXEC
    {
      if state == EXEC {
        return false;
      }
      state := EXEC;
      ok := true;
    }

    /** reset, of a fiber that has a stack, to a callback or to nullptr. */
    method Reset(cb: bool) returns (ok: bool)
      modifies this
      ensures ok <==> old(state) == INIT || old(state) == TERM || old(state) == EXCEPT
      ensures if ok then state == INIT && this.cb == cb else state == old(state) && this.cb == old(this.cb)
    {
      if state != INIT && state != TERM && state != EXCEPT {
        return false;
      }
      this.cb := cb;
      state := INIT;
      ok := true;
    }

    /** YieldToReady and YieldToHold; false is their failed assertion. */
    method Yield(outcome: FiberState) returns (ok: bool)
      modifies this`state
      ensures ok <==> old(state) == EXEC
      ensures state == if ok then outcome else old(state)
    {
      if state != EXEC {
        return false;
      }
      state := outcome;
      ok := true;
    }

    /** The ends of MainFunc: the callback returned, or threw. */
    method End(threw: bool)
      modifies this
      ensures state == (if threw then EXCEPT else TERM) && cb == (threw && old(cb))
    {
      if threw {
        state := EXCEPT;
      } else {
        cb := false;
        state := TERM;
      }
    }
  }

  /** reset and swapIn of a cb_fiber, one after the other. */
  lemma CallDispatched(s: State, u: State, i: nat, e: Entry, f: nat, newF: nat)
    requires i < |s.workers| && e.job.Call? && f == if s.workers[i].cbFiber.Some? then s.workers[i].cbFiber.value else newF
    requires s.workers[i].cbFiber.Some? ==> s.Is(f, INIT) || s.Over(f)
    requires u == s.(fibers := s.fibers[f := INIT], bare := s.bare - {f})
    ensures SwapIn(u, i, e, f, s.workers[i].(phase := Running(f, true), cbFiber := Some(f))) == SchedulerSpec.Dispatch(s, i, e, newF)
  {
    assert u.fibers[f := EXEC] == s.fibers[f := EXEC];
  }

  /** What one worker does from the head of its loop on, up to the next. */
  predicate OfTurn(run: seq<Step>, i: nat)
  {
    |run| > 0 && run[0] == Inside(i, DoScan) &&
    forall k :: 0 < k < |run| ==> run[k].Inside? && run[k].worker == i && !run[k].action.DoScan?
  }

  lemma Begins(s: State, i: nat) returns (run: seq<Step>)
    requires Enabled(s, Inside(i, DoScan))
    ensures Runs(s, run) && OfTurn(run, i) && Final(s, run) == NextIn(s, i, DoScan)
  {
    run := Go(s, [], Inside(i, DoScan));
  }

  lemma TalliedTurn(s: State, run: seq<Step>, i: nat)
    requires Runs(s, run) && OfTurn(run, i) && i < |s.workers|
    ensures TallyFits(s, Final(s, run), i)
  {
    TalliedRun(s, run, i);
  }

  lemma GoOn(s: State, run: seq<Step>, i: nat, a: SchedulerSpec.Action) returns (longer: seq<Step>)
    requires Runs(s, run) && OfTurn(run, i) && Enabled(Final(s, run), Inside(i, a)) && !a.DoScan?
    ensures Runs(s, longer) && OfTurn(longer, i) && Final(s, longer) == NextIn(Final(s, run), i, a)
  {
    longer := Go(s, run, Inside(i, a));
  }

  lemma DispatchEnds(s: State, i: nat, newF: nat)
    requires i < |s.workers| && EnabledIn(s, s.workers[i], DoDispatch(newF))
    ensures var t := NextIn(s, i, DoDispatch(newF));
            t.aborted || (i < |t.workers| && (t.workers[i].phase.Scan? || t.workers[i].phase.Running?))
  {
    hide FirstEligible;
  }

  class Scheduler {
    const workers: array<Worker>       // the locals of each run(), and where it is
    var queue: seq<Entry>              // m_fibers
    var fibers: map<nat, Fiber>
    var active: int                    // m_activeThreadCount
    var idle: int                      // m_idleThreadCount
    var stopping: bool                 // m_stopping
    var tickets: nat
    var known: set<nat>                // the fibers user code has handles to
    ghost var fates: map<nat, Fate>
    var aborted: bool

    /** Each fiber is known by its id, and whoever refers to a fiber refers to one of them. */
    ghost predicate Valid()
      reads this`fibers, this`queue, this`known, workers
    {
      && (forall f {:trigger fibers[f]} :: f in fibers ==> fibers[f].id == f)
      && (forall k :: 0 <= k < |queue| && queue[k].job.Resume? ==> queue[k].job.fiber in fibers)
      && (forall i :: 0 <= i < workers.Length ==> Refers(workers[i]))
      && (forall f <- known :: f in fibers)
    }

    ghost predicate Refers(w: Worker)
      reads this`fibers
    {
      && (w.cbFiber.Some? ==> w.cbFiber.value in fibers)
      && (w.phase.Picked? && w.phase.entry.job.Resume? ==> w.phase.entry.job.fiber in fibers)
      && (Handles(w.phase) ==> w.phase.fiber in fibers)
      && (Handles(w.phase) && w.phase.viaCb ==> w.cbFiber == Some(w.phase.fiber))
    }

    ghost function States(): map<nat, FiberState>
      reads this`fibers, fibers.Values`state
    {
      map f | f in fibers :: fibers[f].state
    }

    ghost function Bare(): set<nat>
      reads this`fibers, fibers.Values`cb
    {
      set f | f in fibers && !fibers[f].cb
    }

    ghost function View(): State
      reads this, workers, fibers.Values
    {
      State(workers[..], queue, States(), active, idle, stopping, known, Bare(), tickets, fates, aborted)
    }

    /** After start(): a worker for each spawned thread, and one that waits for stop() if
        the caller's thread is used. */
    constructor (threads: seq<int>, caller: Option<int>)
      ensures Valid() && Initial(View()) && fresh(workers)
      ensures workers.Length == |threads| + if caller.Some? then 1 else 0
    {
      var all := seq(|threads|, k requires 0 <= k < |threads| => Worker(threads[k], Scan, false, None)) +
                 if caller.Some? then [Worker(caller.value, Waiting, false, None)] else [];
      workers := new Worker[|all|](k requires 0 <= k < |all| => all[k]);
      queue, fibers, active, idle, stopping, aborted := [], map[], 0, 0, false, false;
      tickets, known, fates := 0, {}, map[];
    }

    /** When one fiber is new or has changed. */
    twostate lemma OneFiber(f: nat)
      requires f in fibers && fibers.Keys == old(fibers).Keys + {f}
      requires forall g {:trigger fibers[g]} :: g in old(fibers) && g != f ==>
                 fibers[g] == old(fibers)[g] && fibers[g].state == old(fibers[g].state) && fibers[g].cb == old(fibers[g].cb)
      ensures States() == old(States())[f := fibers[f].state]
      ensures Bare() == if fibers[f].cb then old(Bare()) - {f} else old(Bare()) + {f}
    {
    }

    /** Worker i is somewhere else. */
    method Move(i: nat, w: Worker)
      requires Valid() && i < workers.Length && Refers(w)
      modifies workers
      ensures Valid() && View() == old(View()).(workers := old(View()).workers[i := w])
    {
      workers[i] := w;
    }

    /** schedule(): a null fiber or callback is dropped; tickles if the queue was empty. */
    method Schedule(job: Option<Job>, thread: int) returns (needTickle: bool)
      requires Valid() && (job.Some? && job.value.Resume? ==> job.value.fiber in fibers)
      modifies this`queue, this`tickets
      ensures Valid() && needTickle == (old(queue) == [])
      ensures queue == if job.Some? then old(queue) + [Entry(old(tickets), job.value, thread)] else old(queue)
      ensures View() == if job.Some? then old(View()).Push(job.value, thread) else old(View())
    {
      needTickle := queue == [];
      if job.Some? {
        queue := queue + [Entry(tickets, job.value, thread)];
        tickets := tickets + 1;
      }
    }

    /** Lines 163-184, and 235-248 when nothing is found. */
    method Pick(i: nat) returns (it: nat)
      requires Valid() && i < workers.Length && workers[i].phase.Scan?
      modifies this`queue, this`active, this`idle, workers
      ensures Valid() && View() == NextIn(old(View()), i, DoScan) && it == FirstEligible(old(View()), old(workers[i]).thread, 0)
    {
      assert NextIn(View(), i, DoScan) == Scanned(View(), i);
      hide NextIn;
      hide FirstEligible;
      hide Scanned;
      var tickleMe;
      it, tickleMe := ScanQueue(workers[i].thread);
      Found(i, it);
    }

    /** What follows the loop. */
    method Found(i: nat, it: nat)
      requires Valid() && i < workers.Length && workers[i].phase.Scan? && it == FirstEligible(View(), workers[i].thread, 0)
      modifies this`queue, this`active, this`idle, workers
      ensures Valid() && View() == Scanned(old(View()), i)
    {
      hide FirstEligible;
      var w := workers[i];
      if it < |queue| {
        TakeEntry(i, it);
      } else if w.idleTerm {
        Move(i, w.(phase := Exited));
      } else {
        idle := idle + 1;
        Move(i, w.(phase := IdleStopping));
      }
    }

    method TakeEntry(i: nat, it: nat)
      requires Valid() && i < workers.Length && workers[i].phase.Scan? && it < |queue|
      modifies this`queue, this`active, workers
      ensures Valid()
      ensures var s := old(View());
              View() == s.At(i, Picked(s.queue[it])).(queue := s.queue[..it] + s.queue[it + 1..], active := s.active + 1)
    {
      var ft := Erase(it);
      active := active + 1;
      Move(i, workers[i].(phase := Picked(ft)));
    }

    method Erase(it: nat) returns (ft: Entry)
      requires Valid() && it < |queue|
      modifies this`queue
      ensures Valid() && ft == old(queue)[it] && (ft.job.Resume? ==> ft.job.fiber in fibers)
      ensures queue == old(queue)[..it] + old(queue)[it + 1..]
    {
      ft := queue[it];
      queue := queue[..it] + queue[it + 1..];
    }

    /** The loop over m_fibers; tickleMe is set when an entry for another thread is passed. */
    method ScanQueue(thread: int) returns (it: nat, tickleMe: bool)
      requires Valid()
      ensures it == FirstEligible(View(), thread, 0)
      ensures tickleMe <==> exists j :: 0 <= j < it && queue[j].thread != ANY_THREAD && queue[j].thread != thread
    {
      it, tickleMe := 0, false;
      while it < |queue|
        invariant it <= |queue| && FirstEligible(View(), thread, it) == FirstEligible(View(), thread, 0)
        invariant tickleMe <==> exists j :: 0 <= j < it && queue[j].thread != ANY_THREAD && queue[j].thread != thread
      {
        var e := queue[it];
        if e.thread != ANY_THREAD && e.thread != thread {
          it := it + 1;
          tickleMe := true;
          continue;
        }
        if e.job.Resume? && e.job.fiber in fibers && fibers[e.job.fiber].state == EXEC {
          it := it + 1;
          continue;
        }
        return;
      }
    }

    /** Lines 192-194, 207-218 and 237-240; newF is where a new fiber would be allocated. */
    method Dispatch(i: nat, newF: nat)
      requires Valid() && i < workers.Length && workers[i].phase.Picked? && newF !in fibers
      modifies this`active, this`fibers, this`fates, this`aborted, workers, fibers.Values
      ensures Valid() && View() == NextIn(old(View()), i, DoDispatch(newF)) && fresh(fibers.Values - old(fibers.Values))
    {
      var ft := workers[i].phase.entry;
      assert NextIn(View(), i, DoDispatch(newF)) == SchedulerSpec.Dispatch(View(), i, ft, newF) by {
        hide FirstEligible;
      }
      hide NextIn;
      hide SchedulerSpec.Dispatch;
      if ft.job.Resume? {
        DispatchFiber(i, ft, newF);
      } else {
        DispatchCall(i, ft, newF);
      }
    }

    /** Lines 192-194 and 237-240. */
    method DispatchFiber(i: nat, ft: Entry, ghost newF: nat)
      requires Valid() && i < workers.Length && workers[i].phase == Picked(ft) && ft.job.Resume? && newF !in fibers
      modifies this`active, this`fates, this`aborted, workers, fibers.Values
      ensures Valid() && View() == SchedulerSpec.Dispatch(old(View()), i, ft, newF)
    {
      var fiber := fibers[ft.job.fiber];
      if fiber.state != TERM && fiber.state != EXCEPT {
        Enter(i, ft, fiber, false);
      } else {
        Discard(i, ft);
      }
    }

    /** Line 239. */
    method Discard(i: nat, ft: Entry)
      requires Valid() && i < workers.Length && workers[i].phase == Picked(ft)
      modifies this`active, this`fates, workers
      ensures Valid()
      ensures var s := old(View()); View() == s.At(i, Scan).(active := s.active - 1, fates := s.fates[ft.ticket := Discarded])
    {
      active := active - 1;
      fates := fates[ft.ticket := Discarded];
      Move(i, workers[i].(phase := Scan));
    }

    /** Lines 209-218. */
    method DispatchCall(i: nat, ft: Entry, newF: nat)
      requires Valid() && i < workers.Length && workers[i].phase == Picked(ft) && ft.job.Call? && newF !in fibers
      modifies this`fibers, this`fates, this`aborted, workers, fibers.Values
      ensures Valid() && View() == SchedulerSpec.Dispatch(old(View()), i, ft, newF) && fresh(fibers.Values - old(fibers.Values))
    {
      ghost var s := View();
      hide SchedulerSpec.SwapIn;
      assert var cb := s.workers[i].cbFiber;
             cb.Some? && !s.Is(cb.value, INIT) && !s.Over(cb.value) ==> SchedulerSpec.Dispatch(s, i, ft, newF) == s.(aborted := true);
      hide SchedulerSpec.Dispatch;
      var fiber := CbFiber(workers[i].cbFiber, newF);
      if fiber == null {
        aborted := true;
        return;
      }
      CallDispatched(s, View(), i, ft, fiber.id, newF);
      Enter(i, ft, fiber, true);
    }

    /** Lines 209-216: the worker's cb_fiber reset, or a new one; null after a failed
        assertion. */
    method CbFiber(cb: Option<nat>, newF: nat) returns (fiber: Fiber?)
      requires Valid() && (cb.Some? ==> cb.value in fibers) && newF !in fibers
      modifies this`fibers, fibers.Values
      ensures Valid()
      ensures fresh(fibers.Values - old(fibers.Values))
      ensures var u, f := old(View()), if cb.Some? then cb.value else newF;
              if cb.Some? && !u.Is(f, INIT) && !u.Over(f) then fiber == null && View() == u
              else fiber != null && fiber.id == f && f in fibers && fibers[f] == fiber && fiber.state == INIT &&
                   (fiber in old(fibers.Values) || fresh(fiber)) &&
                   View() == u.(fibers := u.fibers[f := INIT], bare := u.bare - {f})
    {
      if cb.Some? {
        fiber := fibers[cb.value];
        var ok := fiber.Reset(true);
        if !ok {
          return null;
        }
      } else {
        fiber := new Fiber(newF);
        fibers := fibers[newF := fiber];
      }
      OneFiber(fiber.id);
    }

    /** swapIn, and where the worker is then. */
    method Enter(i: nat, ft: Entry, fiber: Fiber, viaCb: bool)
      requires Valid() && i < workers.Length && workers[i].phase == Picked(ft) && fiber.id in fibers && fibers[fiber.id] == fiber
      modifies this`fates, this`aborted, workers, fiber`state
      ensures Valid()
      ensures var s, w := old(View()), old(workers[i]).(phase := Running(fiber.id, viaCb));
              View() == if old(fiber.state) == EXEC then s.(aborted := true)
                        else SwapIn(s, i, ft, fiber.id, if viaCb then w.(cbFiber := Some(fiber.id)) else w)
    {
      var ok := fiber.SwapIn();
      if !ok {
        aborted := true;
        return;
      }
      fates := fates[ft.ticket := SwappedIn];
      var w := workers[i].(phase := Running(fiber.id, viaCb));
      Move(i, if viaCb then w.(cbFiber := Some(fiber.id)) else w);
      OneFiber(fiber.id);
    }

    /** The running code yields, ends or throws. */
    method Return(i: nat, outcome: FiberState)
      requires Valid() && i < workers.Length && EnabledIn(View(), workers[i], DoReturn(outcome))
      modifies this`aborted, workers, fibers.Values
      ensures Valid() && View() == NextIn(old(View()), i, DoReturn(outcome))
    {
      hide FirstEligible;
      hide SchedulerSpec.Dispatch;
      hide Checked;
      hide Idled;
      var w := workers[i];
      var fiber := fibers[w.phase.fiber];
      var ok := LeaveCode(fiber, outcome);
      if ok {
        Move(i, w.(phase := Returned(w.phase.fiber, w.phase.viaCb)));
      } else {
        aborted := true;
      }
    }

    method LeaveCode(fiber: Fiber, outcome: FiberState) returns (ok: bool)
      requires Valid() && fiber.id in fibers && fibers[fiber.id] == fiber && outcome != INIT && outcome != EXEC
      modifies fiber
      ensures Valid() && ok == (outcome == TERM || outcome == EXCEPT || old(fiber.state) == EXEC)
      ensures States() == if ok then old(States())[fiber.id := outcome] else old(States())
      ensures Bare() == if outcome == TERM then old(Bare()) + {fiber.id} else old(Bare())
    {
      if outcome == READY || outcome == HOLD {
        ok := fiber.Yield(outcome);
      } else {
        fiber.End(outcome == EXCEPT);
        ok := true;
      }
      OneFiber(fiber.id);
    }

    /** Lines 195 and 219. */
    method Decrement(i: nat)
      requires Valid() && i < workers.Length && workers[i].phase.Returned?
      modifies this`active, workers
      ensures Valid() && View() == NextIn(old(View()), i, DoDecrement)
    {
      var w := workers[i];
      active := active - 1;
      Move(i, w.(phase := Back(w.phase.fiber, w.phase.viaCb)));
    }

    /** Lines 197 and 220. */
    method Decide(i: nat)
      requires Valid() && i < workers.Length && workers[i].phase.Back?
      modifies workers
      ensures Valid() && View() == NextIn(old(View()), i, DoDecide)
    {
      var w := workers[i];
      var f, viaCb := w.phase.fiber, w.phase.viaCb;
      Move(i, w.(phase := if fibers[f].state == READY then Requeue(f, viaCb) else NotReady(f, viaCb)));
    }

    /** Lines 199 and 222-223. */
    method RequeueFiber(i: nat)
      requires Valid() && i < workers.Length && workers[i].phase.Requeue?
      modifies this`queue, this`tickets, workers
      ensures Valid() && View() == NextIn(old(View()), i, DoRequeue)
      ensures queue == old(queue) + [Entry(old(tickets), Resume(old(workers[i]).phase.fiber), ANY_THREAD)]
    {
      var w := workers[i];
      var needTickle := Schedule(Some(Resume(w.phase.fiber)), ANY_THREAD);
      Move(i, w.(phase := Scan, cbFiber := if w.phase.viaCb then None else w.cbFiber));
    }

    /** Lines 201 and 225-227. */
    method Settle(i: nat)
      requires Valid() && i < workers.Length && workers[i].phase.NotReady?
      modifies workers, fibers.Values
      ensures Valid() && View() == NextIn(old(View()), i, DoSettle)
    {
      hide FirstEligible;
      hide SchedulerSpec.Dispatch;
      hide Checked;
      hide Idled;
      var w := workers[i];
      var fiber := fibers[w.phase.fiber];
      if fiber.state != TERM && fiber.state != EXCEPT {
        Move(i, w.(phase := Hold(w.phase.fiber, w.phase.viaCb)));
        return;
      }
      if w.phase.viaCb {
        var ok := fiber.Reset(false);
        OneFiber(fiber.id);
      }
      Move(i, w.(phase := Scan));
    }

    /** Lines 203 and 231-232. */
    method HoldFiber(i: nat)
      requires Valid() && i < workers.Length && workers[i].phase.Hold?
      modifies workers, fibers.Values
      ensures Valid() && View() == NextIn(old(View()), i, DoHold)
      ensures fibers == old(fibers) && fibers[old(workers[i]).phase.fiber].state == HOLD
    {
      hide FirstEligible;
      hide SchedulerSpec.Dispatch;
      hide Checked;
      hide Idled;
      var w := workers[i];
      fibers[w.phase.fiber].state := HOLD;
      Move(i, w.(phase := Scan, cbFiber := if w.phase.viaCb then None else w.cbFiber));
    }

    /** One read of stopping() in idle. */
    method Idle(i: nat)
      requires Valid() && i < workers.Length && EnabledIn(View(), workers[i], DoIdle)
      modifies workers
      ensures Valid() && View() == NextIn(old(View()), i, DoIdle)
    {
      var w := workers[i];
      var next := if w.phase.IdleStopping? then (if stopping then IdleEmpty else IdleOut(false))
                  else if w.phase.IdleEmpty? then (if queue == [] then IdleActive else IdleOut(false))
                  else IdleOut(active == 0);
      Move(i, w.(phase := next));
    }

    /** Lines 250-254. */
    method LeaveIdle(i: nat)
      requires Valid() && i < workers.Length && workers[i].phase.IdleOut?
      modifies this`idle, workers
      ensures Valid() && View() == NextIn(old(View()), i, DoLeaveIdle)
    {
      var w := workers[i];
      idle := idle - 1;
      Move(i, w.(phase := Scan, idleTerm := w.phase.done));
    }

    /** One read of stopping() in stop(), before the root worker is called. */
    method Check(i: nat)
      requires Valid() && i < workers.Length && EnabledIn(View(), workers[i], DoCheck)
      modifies workers
      ensures Valid() && View() == NextIn(old(View()), i, DoCheck)
    {
      var w := workers[i];
      var next := if w.phase.Waiting? then CheckEmpty
                  else if w.phase.CheckEmpty? then (if queue == [] then CheckActive else Scan)
                  else if active == 0 then Skipped else Scan;
      Move(i, w.(phase := next));
    }

    /** Someone makes a fiber, and can schedule it from then on. */
    method Create(newF: nat)
      requires Valid() && newF !in fibers && !aborted
      modifies this`fibers, this`known
      ensures Valid() && View() == Next(old(View()), OutsideCreate(newF)) && fresh(fibers.Values - old(fibers.Values))
      ensures newF in fibers && fibers[newF].state == INIT && known == old(known) + {newF}
    {
      var fiber := new Fiber(newF);
      fibers := fibers[newF := fiber];
      known := known + {newF};
      OneFiber(newF);
    }

    /** stop() */
    method Stop()
      requires Valid() && !aborted
      modifies this`stopping
      ensures Valid() && View() == Next(old(View()), SchedulerSpec.Stop) && stopping
    {
      stopping := true;
    }

    // ---------- one turn of run() ----------

    /** The running code hands out its own fiber. */
    method Publish(i: nat)
      requires Valid() && i < workers.Length && EnabledIn(View(), workers[i], DoPublish)
      modifies this`known
      ensures Valid() && View() == NextIn(old(View()), i, DoPublish) && known == old(known) + {workers[i].phase.fiber}
    {
      known := known + {workers[i].phase.fiber};
    }

    /** One thing that user code may do, if it can. */
    method Code(i: nat, a: Action, ghost s: State, ghost run: seq<Step>) returns (ghost longer: seq<Step>, ghost asked: seq<Entry>)
      requires Valid() && Runs(s, run) && View() == Final(s, run) && !aborted && OfTurn(run, i)
      requires i < workers.Length && workers[i].phase.Running? && workers[i].phase.fiber !in Bare()
      modifies this`queue, this`tickets, this`known, this`fibers
      ensures Valid() && Runs(s, longer) && View() == Final(s, longer) && OfTurn(longer, i)
      ensures fresh(fibers.Values - old(fibers.Values))
      ensures Ran(old(View()), View(), asked) && forall e <- asked :: a == DoSchedule(e.job, e.thread)
    {
      hide Runs;
      hide Final;
      hide NextIn;
      hide OfTurn;
      hide Ran;
      RanNothing(View());
      longer, asked := run, [];
      match a {
        case DoSchedule(job, thread) =>
          if job.Resume? ==> job.fiber in known {
            CodeGives(View(), i, a);
            longer := GoOn(s, run, i, a);
            asked := [Entry(tickets, job, thread)];
            var needTickle := Schedule(Some(job), thread);
          }
        case DoPublish =>
          CodeGives(View(), i, a);
          longer := GoOn(s, run, i, a);
          Publish(i);
        case DoCreate(newF) =>
          if newF !in fibers {
            CodeGives(View(), i, a);
            longer := GoOn(s, run, i, a);
            Create(newF);
          }
        case _ =>
      }
    }

    /** What the fiber that was swapped in does before it comes back. */
    method RunCode(i: nat, code: seq<Action>, ghost s: State, ghost run: seq<Step>)
      returns (ghost longer: seq<Step>, ghost asked: seq<Entry>)
      requires Valid() && Runs(s, run) && View() == Final(s, run) && !aborted && OfTurn(run, i)
      requires i < workers.Length && workers[i].phase.Running?
      modifies this`queue, this`tickets, this`known, this`fibers
      ensures Valid() && Runs(s, longer) && View() == Final(s, longer) && OfTurn(longer, i)
      ensures fresh(fibers.Values - old(fibers.Values))
      ensures Ran(old(View()), View(), asked) && forall e <- asked :: DoSchedule(e.job, e.thread) in code
    {
      hide Runs;
      hide Final;
      hide OfTurn;
      longer, asked := run, [];
      ghost var u := View();
      assert u.queue + [] == u.queue;
      if !fibers[workers[i].phase.fiber].cb {
        return;
      }
      for k := 0 to |code|
        invariant Valid() && Runs(s, longer) && View() == Final(s, longer) && OfTurn(longer, i)
        invariant fresh(fibers.Values - old(fibers.Values)) && Ran(u, View(), asked) && u.bare == old(View().bare)
        invariant forall e <- asked :: DoSchedule(e.job, e.thread) in code
      {
        ghost var v := View();
        ghost var more;
        longer, more := Code(i, code[k], s, longer);
        RanOn(u, v, View(), asked, more);
        asked := asked + more;
      }
    }

    /** The end of swapIn. */
    method ComeBack(i: nat, outcome: FiberState, ghost s: State, ghost run: seq<Step>) returns (ghost longer: seq<Step>)
      requires Valid() && Runs(s, run) && View() == Final(s, run) && !aborted && OfTurn(run, i)
      requires i < workers.Length && EnabledIn(View(), workers[i], DoReturn(outcome)) && View().Is(workers[i].phase.fiber, EXEC)
      modifies this, workers, fibers.Values
      ensures Valid() && Runs(s, longer) && View() == Final(s, longer) && OfTurn(longer, i) && fibers == old(fibers)
      ensures var p := old(workers[i]).phase; PutBack(old(View()), View(), i, p.fiber, p.viaCb, outcome, [])
    {
      hide Runs;
      hide Final;
      hide OfTurn;
      hide NextIn;
      hide PutBack;
      hide OnTheWay;
      ghost var u, p := View(), workers[i].phase;
      ReturnOnTheWay(u, i, p.fiber, p.viaCb, outcome);
      longer := GoOn(s, run, i, DoReturn(outcome));
      Return(i, outcome);
      ghost var v := View();
      longer := CountOff(i, outcome, s, longer);
      PutBackFrom(u, v, View(), i, p.fiber, p.viaCb, outcome, [], []);
    }

    /** Lines 195-203 and 219-233. */
    method CountOff(i: nat, ghost back: FiberState, ghost s: State, ghost run: seq<Step>) returns (ghost longer: seq<Step>)
      requires Valid() && Runs(s, run) && View() == Final(s, run) && !aborted && OfTurn(run, i)
      requires i < workers.Length && workers[i].phase.Returned? && View().Is(workers[i].phase.fiber, back) && !back.INIT? && !back.EXEC?
      modifies this`active, this`queue, this`tickets, workers, fibers.Values
      ensures Valid() && Runs(s, longer) && View() == Final(s, longer) && OfTurn(longer, i)
      ensures var p := old(workers[i]).phase; PutBack(old(View()), View(), i, p.fiber, p.viaCb, back, [])
    {
      hide Runs;
      hide Final;
      hide OfTurn;
      hide NextIn;
      hide PutBack;
      hide OnTheWay;
      ghost var u, p := View(), workers[i].phase;
      DecideOnTheWay(u, i, p.fiber, p.viaCb);
      longer := GoOn(s, run, i, DoDecrement);
      Decrement(i);
      longer := GoOn(s, longer, i, DoDecide);
      Decide(i);
      ghost var v := View();
      longer := PutAway(i, back, s, longer);
      PutBackFrom(u, v, View(), i, p.fiber, p.viaCb, back, [], []);
    }

    /** Lines 197-203 and 220-233, once the state has been read for READY. */
    method PutAway(i: nat, ghost back: FiberState, ghost s: State, ghost run: seq<Step>) returns (ghost longer: seq<Step>)
      requires Valid() && Runs(s, run) && View() == Final(s, run) && !aborted && OfTurn(run, i)
      requires i < workers.Length && (workers[i].phase.Requeue? || workers[i].phase.NotReady?)
      requires View().Is(workers[i].phase.fiber, back) && !back.INIT? && !back.EXEC? && (workers[i].phase.Requeue? <==> back.READY?)
      modifies this`queue, this`tickets, workers, fibers.Values
      ensures Valid() && Runs(s, longer) && View() == Final(s, longer) && OfTurn(longer, i)
      ensures var p := old(workers[i]).phase; PutBack(old(View()), View(), i, p.fiber, p.viaCb, back, [])
    {
      hide Runs;
      hide Final;
      hide OfTurn;
      hide NextIn;
      hide PutBack;
      hide OnTheWay;
      ghost var u, p := View(), workers[i].phase;
      if workers[i].phase.Requeue? {
        RequeuePuts(u, i, p.fiber, p.viaCb);
        longer := GoOn(s, run, i, DoRequeue);
        RequeueFiber(i);
      } else {
        longer := Keep(i, back, s, run);
      }
    }

    /** Lines 201-203 and 225-233. */
    method Keep(i: nat, ghost back: FiberState, ghost s: State, ghost run: seq<Step>) returns (ghost longer: seq<Step>)
      requires Valid() && Runs(s, run) && View() == Final(s, run) && !aborted && OfTurn(run, i)
      requires i < workers.Length && workers[i].phase.NotReady?
      requires View().Is(workers[i].phase.fiber, back) && (back.HOLD? || back.TERM? || back.EXCEPT?)
      modifies workers, fibers.Values
      ensures Valid() && Runs(s, longer) && View() == Final(s, longer) && OfTurn(longer, i)
      ensures var p := old(workers[i]).phase; PutBack(old(View()), View(), i, p.fiber, p.viaCb, back, [])
    {
      hide Runs;
      hide Final;
      hide OfTurn;
      hide NextIn;
      hide PutBack;
      hide OnTheWay;
      ghost var u, p := View(), workers[i].phase;
      longer := GoOn(s, run, i, DoSettle);
      Settle(i);
      SettlePuts(u, i, p.fiber, p.viaCb, back);
      if workers[i].phase.Hold? {
        ghost var v := View();
        longer := GoOn(s, longer, i, DoHold);
        HoldFiber(i);
        HoldPuts(v, i, p.fiber, p.viaCb);
        PutBackFrom(u, v, View(), i, p.fiber, p.viaCb, HOLD, [], []);
      }
    }

    /** Lines 192-240. */
    method Handle(i: nat, newF: nat, code: seq<Action>, outcome: FiberState, ghost s: State, ghost run: seq<Step>)
      returns (swapped: Option<nat>, ghost longer: seq<Step>, ghost asked: seq<Entry>)
      requires Valid() && Runs(s, run) && View() == Final(s, run) && !aborted && OfTurn(run, i)
      requires i < workers.Length && workers[i].phase.Picked? && newF !in fibers && outcome != INIT && outcome != EXEC
      modifies this, workers, fibers.Values
      ensures Valid() && Runs(s, longer) && View() == Final(s, longer) && OfTurn(longer, i)
      ensures fresh(fibers.Values - old(fibers.Values))
      ensures Handled(old(View()), View(), i, old(workers[i]).phase.entry, newF, outcome, swapped, asked)
      ensures forall e <- asked :: DoSchedule(e.job, e.thread) in code
    {
      hide Runs;
      hide Final;
      hide FirstEligible;
      hide OfTurn;
      hide NextIn;
      hide PutBack;
      hide Handled;
      hide Entered;
      hide Swaps;
      hide Valid;
      ghost var u, e := View(), workers[i].phase.entry;
      longer := GoOn(s, run, i, DoDispatch(newF));
      DispatchGives(u, i, newF, outcome);
      Dispatch(i, newF);
      swapped, asked := None, [];
      if !aborted && workers[i].phase.Running? {
        ghost var v := View();
        swapped := Some(workers[i].phase.fiber);
        longer, asked := Serve(i, code, outcome, s, longer);
        Served(u, v, View(), i, e, newF, outcome, asked);
      }
    }

    /** What happens inside swapIn, and after it. */
    method Serve(i: nat, code: seq<Action>, outcome: FiberState, ghost s: State, ghost run: seq<Step>)
      returns (ghost longer: seq<Step>, ghost asked: seq<Entry>)
      requires Valid() && Runs(s, run) && View() == Final(s, run) && !aborted && OfTurn(run, i)
      requires i < workers.Length && workers[i].phase.Running? && outcome != INIT && outcome != EXEC && View().Is(workers[i].phase.fiber, EXEC)
      modifies this, workers, fibers.Values
      ensures Valid() && Runs(s, longer) && View() == Final(s, longer) && OfTurn(longer, i)
      ensures fresh(fibers.Values - old(fibers.Values))
      ensures var p := old(workers[i]).phase;
              PutBack(old(View()), View(), i, p.fiber, p.viaCb, if p.fiber in old(Bare()) then EXCEPT else outcome, asked)
      ensures forall e <- asked :: DoSchedule(e.job, e.thread) in code
    {
      hide Runs;
      hide Final;
      hide OfTurn;
      hide NextIn;
      hide PutBack;
      hide OnTheWay;
      ghost var u, p := View(), workers[i].phase;
      longer, asked := RunCode(i, code, s, run);
      ghost var v := View();
      CodeOnTheWay(u, v, i, p.fiber, p.viaCb, asked);
      hide Ran;
      var fiber := fibers[workers[i].phase.fiber];
      longer := ComeBack(i, if fiber.cb then outcome else EXCEPT, s, longer);
      PutBackFrom(u, v, View(), i, p.fiber, p.viaCb, if p.fiber in u.bare then EXCEPT else outcome, asked, []);
      assert asked + [] == asked;
    }

    /** Lines 248-254 and 260-277. */
    method IdleTurn(i: nat, ghost s: State, ghost run: seq<Step>) returns (ghost longer: seq<Step>)
      requires Valid() && Runs(s, run) && View() == Final(s, run) && !aborted && OfTurn(run, i)
      requires i < workers.Length && workers[i].phase.IdleStopping?
      modifies this`idle, workers
      ensures Valid() && Runs(s, longer) && View() == Final(s, longer) && OfTurn(longer, i)
      ensures OneMoved(old(View()), View(), i)
      ensures workers[i] == old(workers[i]).(phase := Scan, idleTerm := stopping && queue == [] && active == 0)
    {
      hide Runs;
      hide Final;
      hide NextIn;
      hide OfTurn;
      longer := run;
      while !workers[i].phase.IdleOut?
        invariant Valid() && Runs(s, longer) && View() == Final(s, longer) && !aborted && OfTurn(longer, i)
        invariant OneMoved(old(View()), View(), i)
        invariant workers[i] == old(workers[i]).(phase := workers[i].phase)
        invariant InIdle(workers[i].phase) && ReadSoFar(View(), workers[i].phase)
        decreases IdleLeft(workers[i].phase)
      {
        IdleGives(View(), i);
        longer := GoOn(s, longer, i, DoIdle);
        Idle(i);
      }
      LeaveGives(View(), i);
      longer := GoOn(s, longer, i, DoLeaveIdle);
      LeaveIdle(i);
    }

    /** One turn of run() without interruption: `code` is what the fiber that is swapped in
        would do and `outcome` how it would come back. It is a run of the machine by this
        worker alone, from the head of the loop to its head or out of it, and it leaves
        both counters as they were. `it` is where the scan stopped, `swapped` the fiber that
        ran, `asked` the entries its code scheduled. */
    method Turn(i: nat, newF: nat, code: seq<Action>, outcome: FiberState)
      returns (it: nat, swapped: Option<nat>, ghost asked: seq<Entry>, ghost run: seq<Step>)
      requires Valid() && !aborted && i < workers.Length && workers[i].phase.Scan?
      requires newF !in fibers && outcome != INIT && outcome != EXEC
      modifies this, workers, fibers.Values
      ensures Valid() && Runs(old(View()), run) && View() == Final(old(View()), run) && OfTurn(run, i)
      ensures !aborted ==> (workers[i].phase.Scan? || workers[i].phase.Exited?) && active == old(active) && idle == old(idle)
      // the entries passed are bound to other threads, or their fibers execute
      ensures it <= |old(queue)|
      ensures forall j :: 0 <= j < it ==> Passes(old(View()), old(queue)[j], old(workers[i]).thread)
      ensures it < |old(queue)| ==> !Passes(old(View()), old(queue)[it], old(workers[i]).thread)
      // with nothing else, a worker whose idle fiber is done leaves, and any other looks at stopping()
      ensures it == |old(queue)| ==>
                !aborted && swapped == None && queue == old(queue) && States() == old(States()) &&
                workers[i] == if old(workers[i]).idleTerm then old(workers[i]).(phase := Exited)
                              else old(workers[i]).(idleTerm := stopping && queue == [] && active == 0)
      // otherwise the entry is taken out and handled
      ensures it < |old(queue)| ==>
                var rest := old(queue)[..it] + old(queue)[it + 1..];
                Handled(old(View()).(queue := rest), View(), i, old(queue)[it], newF, outcome, swapped, asked)
      ensures forall e <- asked :: DoSchedule(e.job, e.thread) in code
      // so a fiber that yields is kept
      ensures var f := swapped;
              !aborted && f.Some? && (f.value in old(Bare()) ==> old(queue)[it].job.Call?) ==>
                (outcome == HOLD ==> View().Is(f.value, HOLD)) &&
                (outcome == READY ==> View().Is(f.value, READY) && LastIs(queue, Resume(f.value)))
    {
      hide Runs;
      hide Final;
      hide FirstEligible;
      hide OfTurn;
      hide NextIn;
      hide Handled;
      hide Passes;
      hide LastIs;
      hide Valid;
      ghost var s := View();
      run := Begins(s, i);
      ScanGives(s, i);
      it := Pick(i);
      swapped, asked := None, [];
      if workers[i].phase.Picked? {
        ghost var u := View();
        swapped, run, asked := Handle(i, newF, code, outcome, s, run);
        HandledFrom(s, u, View(), i, it, newF, outcome, swapped, asked);
        YieldsKept(s.(queue := u.queue), View(), i, s.queue[it], newF, outcome, swapped, asked);
      } else if workers[i].phase.IdleStopping? {
        run := IdleTurn(i, s, run);
      }
      TalliedTurn(s, run, i);
    }
  }
}
