/** The scheduler's worker loop as a state machine: N workers share a queue of fibers and
    callbacks, two counters and a stop flag. Each step is one atomic action of one
    worker, of the code in a running fiber, or of a thread outside. Line numbers are
    those of fatdog/scheduler.cpp. */
module SchedulerSpec {
  import opened Codec

  datatype FiberState = INIT | HOLD | EXEC | TERM | READY | EXCEPT

  datatype Job = Resume(fiber: nat) | Call(callback: nat)

  const ANY_THREAD := -1

  /** FiberAndThread, with a ticket that tells queue entries apart. */
  datatype Entry = Entry(ticket: nat, job: Job, thread: int)

  /** Where a worker is in run(), or in stop() before the root worker is called. */
  datatype Phase =
    | Waiting                              // the root worker before stop()
    | CheckEmpty | CheckActive             // stop(): stopping(), read by read
    | Skipped                              // stop(): m_rootFiber is not called
    | Scan                                 // the head of the loop
    | Picked(entry: Entry)                 // lines 179-183
    | Running(fiber: nat, viaCb: bool)     // swapped in at 194 or 218
    | Returned(fiber: nat, viaCb: bool)    // swapped out, before 195 or 219
    | Back(fiber: nat, viaCb: bool)        // before 197 or 220
    | NotReady(fiber: nat, viaCb: bool)    // before 201 or 225
    | Requeue(fiber: nat, viaCb: bool)     // before 199 or 222
    | Hold(fiber: nat, viaCb: bool)        // before 203 or 231
    | IdleStopping | IdleEmpty | IdleActive   // idle(): stopping(), read by read
    | IdleOut(done: bool)                  // before 250
    | Exited

  /** A worker: its thread, its place, whether its idle fiber is TERM, its cb_fiber. */
  datatype Worker = Worker(thread: int, phase: Phase, idleTerm: bool, cbFiber: Option<nat>)

  /** What became of an entry that was taken from the queue. */
  datatype Fate = SwappedIn | Discarded

  /** `known` are the fibers user code can hand to schedule(), `bare` those whose m_cb is
      null; `aborted` is a failed assertion in swapIn, reset or one of the yields. */
  datatype State = State(workers: seq<Worker>, queue: seq<Entry>, fibers: map<nat, FiberState>,
                         active: int, idle: int, stopping: bool, known: set<nat>, bare: set<nat>,
                         tickets: nat, fates: map<nat, Fate>, aborted: bool)
  {
    /** Worker i moves on. */
    function At(i: nat, phase: Phase): State
      requires i < |workers|
    {
      this.(workers := workers[i := workers[i].(phase := phase)])
    }

    /** and lets go of cb_fiber if it runs on it. */
    function Release(i: nat, viaCb: bool): State
      requires i < |workers|
    {
      var w := workers[i].(phase := Scan);
      this.(workers := workers[i := if viaCb then w.(cbFiber := None) else w])
    }

    function WithFiber(f: nat, st: FiberState): State
    {
      this.(fibers := fibers[f := st])
    }

    /** schedule(): a new entry at the back. */
    function Push(job: Job, thread: int): State
    {
      this.(queue := queue + [Entry(tickets, job, thread)], tickets := tickets + 1)
    }

    predicate Is(f: nat, st: FiberState)
    {
      f in fibers && fibers[f] == st
    }

    predicate Over(f: nat)
    {
      Is(f, TERM) || Is(f, EXCEPT)
    }
  }

  // ---------- the scan ----------

  /** Lines 166-177: what the scan of a thread does not skip. */
  predicate Eligible(s: State, e: Entry, thread: int)
  {
    (e.thread == ANY_THREAD || e.thread == thread) && !(e.job.Resume? && s.Is(e.job.fiber, EXEC))
  }

  function FirstEligible(s: State, thread: int, from: nat): (i: nat)
    requires from <= |s.queue|
    ensures from <= i <= |s.queue|
    ensures i < |s.queue| ==> Eligible(s, s.queue[i], thread)
    ensures forall j :: from <= j < i ==> !Eligible(s, s.queue[j], thread)
    decreases |s.queue| - from
  {
    if from == |s.queue| || Eligible(s, s.queue[from], thread) then from else FirstEligible(s, thread, from + 1)
  }

  // ---------- steps ----------

  datatype Action =
    | DoCheck                           // stop(), for the root worker
    | DoScan                            // 163-184, and 242-248 when nothing is found
    | DoDispatch(newF: nat)            // 192-194, 207-218, or 237-240
    | DoSchedule(job: Job, thread: int) // the running code calls schedule()
    | DoPublish                         // it hands out its own fiber
    | DoCreate(newF: nat)              // or makes a new one
    | DoReturn(outcome: FiberState)     // it yields, ends or throws
    | DoDecrement                       // 195, 219
    | DoDecide                          // 197, 220
    | DoRequeue                         // 199, 222-223
    | DoSettle                          // 201, 225-227
    | DoHold                            // 203, 231-232
    | DoIdle                            // 273-276
    | DoLeaveIdle                       // 250-254

  datatype Step =
    | Inside(worker: nat, action: Action)
    | OutsideSchedule(job: Job, thread: int)
    | OutsideCreate(newF: nat)
    | Stop

  predicate Schedulable(s: State, job: Job)
  {
    job.Resume? ==> job.fiber in s.known
  }

  predicate Enabled(s: State, step: Step)
  {
    !s.aborted &&
    match step
    case Inside(i, a) => i < |s.workers| && EnabledIn(s, s.workers[i], a)
    case OutsideSchedule(job, _) => !s.stopping && Schedulable(s, job)
    case OutsideCreate(newF) => newF !in s.fibers
    case Stop => true
  }

  /** How a fiber can come back. Calling a null m_cb throws, and MainFunc catches it. */
  predicate Possible(s: State, f: nat, outcome: FiberState)
  {
    !outcome.INIT? && !outcome.EXEC? && (f in s.bare ==> outcome.EXCEPT?)
  }

  predicate EnabledIn(s: State, w: Worker, a: Action)
  {
    match a
    case DoCheck => (w.phase.Waiting? && s.stopping) || w.phase.CheckEmpty? || w.phase.CheckActive?
    case DoScan => w.phase.Scan?
    case DoDispatch(newF) => w.phase.Picked? && newF !in s.fibers
    case DoSchedule(job, _) => w.phase.Running? && w.phase.fiber !in s.bare && Schedulable(s, job)
    case DoPublish => w.phase.Running? && w.phase.fiber !in s.bare
    case DoCreate(newF) => w.phase.Running? && w.phase.fiber !in s.bare && newF !in s.fibers
    case DoReturn(outcome) => w.phase.Running? && Possible(s, w.phase.fiber, outcome)
    case DoDecrement => w.phase.Returned?
    case DoDecide => w.phase.Back?
    case DoRequeue => w.phase.Requeue?
    case DoSettle => w.phase.NotReady?
    case DoHold => w.phase.Hold?
    case DoIdle => w.phase.IdleStopping? || w.phase.IdleEmpty? || w.phase.IdleActive?
    case DoLeaveIdle => w.phase.IdleOut?
  }

  function Next(s: State, step: Step): State
    requires Enabled(s, step)
  {
    match step
    case Inside(i, a) => NextIn(s, i, a)
    case OutsideSchedule(job, thread) => s.Push(job, thread)
    case OutsideCreate(newF) => s.WithFiber(newF, INIT).(known := s.known + {newF})
    case Stop => s.(stopping := true)
  }

  function NextIn(s: State, i: nat, a: Action): State
    requires i < |s.workers| && EnabledIn(s, s.workers[i], a)
  {
    var w := s.workers[i];
    match a
    case DoCheck => s.At(i, Checked(s, w.phase))
    case DoScan => Scanned(s, i)
    case DoDispatch(newF) =>
      Dispatch(s, i, w.phase.entry, newF)
    case DoSchedule(job, thread) => s.Push(job, thread)
    case DoPublish => s.(known := s.known + {w.phase.fiber})
    case DoCreate(newF) => s.WithFiber(newF, INIT).(known := s.known + {newF})
    case DoReturn(outcome) =>
      var f := w.phase.fiber;
      if (outcome.READY? || outcome.HOLD?) && !s.Is(f, EXEC) then s.(aborted := true)   // the assertion in a yield
      else s.WithFiber(f, outcome).(bare := if outcome.TERM? then s.bare + {f} else s.bare).At(i, Returned(f, w.phase.viaCb))
    case DoDecrement => s.At(i, Back(w.phase.fiber, w.phase.viaCb)).(active := s.active - 1)
    case DoDecide =>
      var f, via := w.phase.fiber, w.phase.viaCb;
      s.At(i, if s.Is(f, READY) then Requeue(f, via) else NotReady(f, via))
    case DoRequeue =>
      s.Push(Resume(w.phase.fiber), ANY_THREAD).Release(i, w.phase.viaCb)
    case DoSettle =>
      var f, via := w.phase.fiber, w.phase.viaCb;
      if !s.Over(f) then s.At(i, Hold(f, via))
      else if via then s.WithFiber(f, INIT).(bare := s.bare + {f}).At(i, Scan)          // cb_fiber->reset(nullptr)
      else s.At(i, Scan)
    case DoHold =>
      s.WithFiber(w.phase.fiber, HOLD).Release(i, w.phase.viaCb)
    case DoIdle => s.At(i, Idled(s, w.phase))
    case DoLeaveIdle =>
      s.(workers := s.workers[i := w.(phase := Scan, idleTerm := w.phase.done)], idle := s.idle - 1)
  }

  /** The first entry the scan does not skip is picked; with none the worker turns to its
      idle fiber, or leaves if that is TERM. */
  function Scanned(s: State, i: nat): State
    requires i < |s.workers|
  {
    var it := FirstEligible(s, s.workers[i].thread, 0);
    if it < |s.queue| then
      s.At(i, Picked(s.queue[it])).(queue := s.queue[..it] + s.queue[it + 1..], active := s.active + 1)
    else if s.workers[i].idleTerm then s.At(i, Exited)
    else s.At(i, IdleStopping).(idle := s.idle + 1)
  }

  /** stopping() in stop(), read by read; m_stopping is set. */
  function Checked(s: State, p: Phase): (q: Phase)
    ensures q.CheckEmpty? || q.CheckActive? || q.Skipped? || q.Scan?
  {
    if p.Waiting? then CheckEmpty
    else if p.CheckEmpty? then (if s.queue == [] then CheckActive else Scan)
    else if s.active == 0 then Skipped else Scan
  }

  /** stopping() in idle(), read by read. */
  function Idled(s: State, p: Phase): (q: Phase)
    ensures q.IdleEmpty? || q.IdleActive? || q.IdleOut?
  {
    if p.IdleStopping? then (if s.stopping then IdleEmpty else IdleOut(false))
    else if p.IdleEmpty? then (if s.queue == [] then IdleActive else IdleOut(false))
    else IdleOut(s.active == 0)
  }

  /** What becomes of a picked entry. */
  function Dispatch(s: State, i: nat, e: Entry, newF: nat): State
    requires i < |s.workers|
  {
    match e.job
    case Resume(f) =>
      if s.Over(f) then
        s.At(i, Scan).(active := s.active - 1, fates := s.fates[e.ticket := Discarded])
      else if s.Is(f, EXEC) then s.(aborted := true)                                    // the assertion in swapIn
      else SwapIn(s, i, e, f, s.workers[i].(phase := Running(f, false)))
    case Call(_) =>
      var cb := s.workers[i].cbFiber;
      if cb.Some? && !s.Is(cb.value, INIT) && !s.Over(cb.value) then s.(aborted := true)  // the assertion in reset
      else
        var f := if cb.Some? then cb.value else newF;
        SwapIn(s.(bare := s.bare - {f}), i, e, f, s.workers[i].(phase := Running(f, true), cbFiber := Some(f)))
  }

  function SwapIn(s: State, i: nat, e: Entry, f: nat, w: Worker): State
    requires i < |s.workers|
  {
    s.WithFiber(f, EXEC).(workers := s.workers[i := w], fates := s.fates[e.ticket := SwappedIn])
  }

  // ---------- runs ----------

  /** At the loop head, or waiting for stop(). */
  predicate Fresh(w: Worker)
  {
    (w.phase.Scan? || w.phase.Waiting?) && !w.idleTerm && w.cbFiber.None?
  }

  /** start() has returned: the spawned workers are at their loop heads, the root worker,
      if there is one, waits for stop(). */
  predicate Initial(s: State)
  {
    (forall i :: 0 <= i < |s.workers| ==> Fresh(s.workers[i])) &&
    s.queue == [] && s.fibers == map[] && s.active == 0 && s.idle == 0 && !s.stopping &&
    s.known == {} && s.bare == {} && s.tickets == 0 && s.fates == map[] && !s.aborted
  }

  predicate Runs(s: State, run: seq<Step>)
    decreases |run|
  {
    run == [] || (Enabled(s, run[0]) && Runs(Next(s, run[0]), run[1..]))
  }

  function Final(s: State, run: seq<Step>): State
    requires Runs(s, run)
    decreases |run|
  {
    if run == [] then s else Final(Next(s, run[0]), run[1..])
  }

  lemma {:induction false} Splits(s: State, run: seq<Step>, k: nat)
    requires k <= |run| && Runs(s, run)
    ensures Runs(s, run[..k]) && Runs(Final(s, run[..k]), run[k..]) && Final(s, run) == Final(Final(s, run[..k]), run[k..])
    decreases k
  {
    if k == 0 {
      assert run[0..] == run;
    } else {
      Splits(Next(s, run[0]), run[1..], k - 1);
      assert run[..k][1..] == run[1..][..k - 1] && run[1..][k - 1..] == run[k..];
    }
  }

  lemma {:induction false} OneMoreStep(s: State, run: seq<Step>, step: Step)
    requires Runs(s, run) && Enabled(Final(s, run), step)
    ensures Runs(s, run + [step]) && Final(s, run + [step]) == Next(Final(s, run), step)
    decreases |run|
  {
    if run == [] {
      assert [step][1..] == [];
    } else {
      assert (run + [step])[1..] == run[1..] + [step];
      OneMoreStep(Next(s, run[0]), run[1..], step);
    }
  }

  lemma Go(s: State, run: seq<Step>, step: Step) returns (longer: seq<Step>)
    requires Runs(s, run) && Enabled(Final(s, run), step)
    ensures Runs(s, longer) && Final(s, longer) == Next(Final(s, run), step) && longer == run + [step]
  {
    OneMoreStep(s, run, step);
    longer := run + [step];
  }

  // ---------- the counters ----------

  /** Between a pick and its decrement. */
  predicate Busy(p: Phase)
  {
    p.Picked? || p.Running? || p.Returned?
  }

  /** Inside the handling of a fiber. */
  predicate Handles(p: Phase)
  {
    p.Running? || p.Returned? || p.Back? || p.NotReady? || p.Requeue? || p.Hold?
  }

  /** Inside the idle fiber. */
  predicate InIdle(p: Phase)
  {
    p.IdleStopping? || p.IdleEmpty? || p.IdleActive? || p.IdleOut?
  }

  function CountBusy(ws: seq<Worker>): nat
  {
    if ws == [] then 0 else (if Busy(ws[0].phase) then 1 else 0) + CountBusy(ws[1..])
  }

  function CountIdle(ws: seq<Worker>): nat
  {
    if ws == [] then 0 else (if InIdle(ws[0].phase) then 1 else 0) + CountIdle(ws[1..])
  }

  lemma {:induction false} CountChange(ws: seq<Worker>, i: nat, w: Worker)
    requires i < |ws|
    ensures CountBusy(ws[i := w]) == CountBusy(ws) - (if Busy(ws[i].phase) then 1 else 0) + (if Busy(w.phase) then 1 else 0)
    ensures CountIdle(ws[i := w]) == CountIdle(ws) - (if InIdle(ws[i].phase) then 1 else 0) + (if InIdle(w.phase) then 1 else 0)
  {
    var vs := ws[i := w];
    if i == 0 {
      assert vs[1..] == ws[1..];
    } else {
      CountChange(ws[1..], i - 1, w);
      assert vs[1..] == ws[1..][i - 1 := w];
    }
  }

  predicate Counted(s: State)
  {
    s.active == CountBusy(s.workers) && s.idle == CountIdle(s.workers)
  }

  /** A step of worker i changes no other worker, */
  lemma OneMoves(s: State, i: nat, a: Action)
    requires i < |s.workers| && EnabledIn(s, s.workers[i], a)
    ensures var t := NextIn(s, i, a); |t.workers| == |s.workers| && t.workers == s.workers[i := t.workers[i]]
  {
    match a
    case DoDispatch(newF) =>
      match s.workers[i].phase.entry.job {
        case Resume(f) =>
        case Call(_) =>
      }
    case _ =>
  }

  function Bit(b: bool): int { if b then 1 else 0 }

  /** Where it was and is, and how the counters change. */
  predicate TallyFits(s: State, t: State, i: nat)
  {
    i < |s.workers| && |t.workers| == |s.workers| &&
    t.active - s.active == Bit(Busy(t.workers[i].phase)) - Bit(Busy(s.workers[i].phase)) &&
    t.idle - s.idle == Bit(InIdle(t.workers[i].phase)) - Bit(InIdle(s.workers[i].phase))
  }

  /** and the counters follow where it is. */
  lemma Tallied(s: State, i: nat, a: Action)
    requires i < |s.workers| && EnabledIn(s, s.workers[i], a)
    ensures TallyFits(s, NextIn(s, i, a), i)
  {
    hide TallyFits;
    if a.DoDispatch? {
      TalliedDispatch(s, i, a.newF);
    } else if a.DoScan? {
      TalliedScan(s, i);
    } else if a.DoCheck? || a.DoIdle? || a.DoLeaveIdle? {
      TalliedLoop(s, i, a);
    } else {
      TalliedFiber(s, i, a);
    }
  }

  lemma TalliedDispatch(s: State, i: nat, newF: nat)
    requires i < |s.workers| && EnabledIn(s, s.workers[i], DoDispatch(newF))
    ensures TallyFits(s, Dispatch(s, i, s.workers[i].phase.entry, newF), i)
  {
  }

  lemma TalliedScan(s: State, i: nat)
    requires i < |s.workers| && EnabledIn(s, s.workers[i], DoScan)
    ensures TallyFits(s, NextIn(s, i, DoScan), i)
  {
    hide FirstEligible;
    hide Dispatch;
  }

  lemma TalliedLoop(s: State, i: nat, a: Action)
    requires i < |s.workers| && EnabledIn(s, s.workers[i], a) && (a.DoCheck? || a.DoIdle? || a.DoLeaveIdle?)
    ensures TallyFits(s, NextIn(s, i, a), i)
  {
    hide FirstEligible;
    hide Dispatch;
  }

  lemma TalliedFiber(s: State, i: nat, a: Action)
    requires i < |s.workers| && EnabledIn(s, s.workers[i], a)
    requires !a.DoDispatch? && !a.DoScan? && !a.DoCheck? && !a.DoIdle? && !a.DoLeaveIdle?
    ensures TallyFits(s, NextIn(s, i, a), i)
  {
    hide FirstEligible;
    hide Dispatch;
  }

  /** So they do over all that one worker does. */
  lemma {:induction false} TalliedRun(s: State, run: seq<Step>, i: nat)
    requires Runs(s, run) && i < |s.workers| && forall k :: 0 <= k < |run| ==> run[k].Inside? && run[k].worker == i
    ensures TallyFits(s, Final(s, run), i)
    decreases |run|
  {
    if run != [] {
      Tallied(s, i, run[0].action);
      TalliedRun(Next(s, run[0]), run[1..], i);
    }
  }

  lemma CountedNext(s: State, step: Step)
    requires Counted(s) && Enabled(s, step)
    ensures Counted(Next(s, step))
  {
    if step.Inside? {
      OneMoves(s, step.worker, step.action);
      Tallied(s, step.worker, step.action);
      CountChange(s.workers, step.worker, Next(s, step).workers[step.worker]);
    }
  }

  lemma {:induction false} CountedAlways(s: State, run: seq<Step>)
    requires Counted(s) && Runs(s, run)
    ensures Counted(Final(s, run))
    decreases |run|
  {
    if run != [] {
      CountedNext(s, run[0]);
      CountedAlways(Next(s, run[0]), run[1..]);
    }
  }

  lemma {:induction false} CountNone(ws: seq<Worker>)
    requires forall w <- ws :: !Busy(w.phase) && !InIdle(w.phase)
    ensures CountBusy(ws) == 0 && CountIdle(ws) == 0
  {
    if ws != [] {
      CountNone(ws[1..]);
    }
  }

  /** In every reachable state the active count is the number of workers between a pick
      and its decrement, and the idle count the number inside their idle fiber. */
  lemma CountersExact(s: State, run: seq<Step>)
    requires Initial(s) && Runs(s, run)
    ensures var t := Final(s, run); t.active == CountBusy(t.workers) && t.idle == CountIdle(t.workers)
  {
    CountNone(s.workers);
    CountedAlways(s, run);
  }

  // ---------- every entry is taken once ----------

  predicate Queued(s: State, t: nat)
  {
    exists k :: 0 <= k < |s.queue| && s.queue[k].ticket == t
  }

  predicate Held(s: State, t: nat)
  {
    exists i :: 0 <= i < |s.workers| && s.workers[i].phase.Picked? && s.workers[i].phase.entry.ticket == t
  }

  /** The entries lie in the order of their tickets; a worker holds one that has left the
      queue and has no fate yet; and an entry is somewhere. */
  ghost predicate Ticketed(s: State)
  {
    (forall j, k :: 0 <= j < k < |s.queue| ==> s.queue[j].ticket < s.queue[k].ticket) &&
    (forall k :: 0 <= k < |s.queue| ==> s.queue[k].ticket < s.tickets && s.queue[k].ticket !in s.fates) &&
    (forall i :: 0 <= i < |s.workers| && s.workers[i].phase.Picked? ==>
       var t := s.workers[i].phase.entry.ticket; t < s.tickets && t !in s.fates && !Queued(s, t)) &&
    (forall i, j :: 0 <= i < j < |s.workers| && s.workers[i].phase.Picked? && s.workers[j].phase.Picked? ==>
       s.workers[i].phase.entry.ticket != s.workers[j].phase.entry.ticket) &&
    (forall t :: 0 <= t < s.tickets ==> Queued(s, t) || Held(s, t) || t in s.fates) &&
    (forall t <- s.fates :: t < s.tickets)
  }

  // What a step does to the queue is one of four things.

  predicate OneMoved(s: State, t: State, i: nat)
  {
    i < |s.workers| && |t.workers| == |s.workers| && t.workers == s.workers[i := t.workers[i]]
  }

  predicate NoPick(s: State, t: State, i: nat)
    requires OneMoved(s, t, i)
  {
    t.workers[i] == s.workers[i] || (!s.workers[i].phase.Picked? && !t.workers[i].phase.Picked?)
  }

  /** nothing, */
  predicate Quiet(s: State, t: State, i: nat)
  {
    OneMoved(s, t, i) && t.queue == s.queue && t.tickets == s.tickets && t.fates == s.fates && NoPick(s, t, i)
  }

  /** one entry more at the back, */
  predicate Pushed(s: State, t: State, i: nat)
  {
    OneMoved(s, t, i) && t.fates == s.fates && t.tickets == s.tickets + 1 &&
    |t.queue| == |s.queue| + 1 && t.queue == s.queue + [t.queue[|s.queue|]] && t.queue[|s.queue|].ticket == s.tickets && NoPick(s, t, i)
  }

  /** the entry the scan finds goes to the worker, */
  predicate Took(s: State, t: State, i: nat)
  {
    OneMoved(s, t, i) && t.fates == s.fates && t.tickets == s.tickets &&
    var k := FirstEligible(s, s.workers[i].thread, 0);
    k < |s.queue| && t.queue == s.queue[..k] + s.queue[k + 1..] &&
    s.workers[i].phase.Scan? && t.workers[i].phase == Picked(s.queue[k])
  }

  /** or the entry a worker holds meets its fate. */
  predicate Met(s: State, t: State, i: nat)
  {
    OneMoved(s, t, i) && t.queue == s.queue && t.tickets == s.tickets &&
    s.workers[i].phase.Picked? && !t.workers[i].phase.Picked? &&
    var e := s.workers[i].phase.entry;
    e.ticket in t.fates && t.fates == s.fates[e.ticket := t.fates[e.ticket]] &&
    (t.fates[e.ticket] == Discarded <==> e.job.Resume? && s.Over(e.job.fiber)) &&
    (t.fates[e.ticket] == SwappedIn ==> t.workers[i].phase.Running? && t.Is(t.workers[i].phase.fiber, EXEC) &&
                                        (e.job.Resume? ==> t.workers[i].phase.fiber == e.job.fiber))
  }

  /** The worker whose step it is; any will do for a thread outside. */
  function Actor(step: Step): nat
  {
    if step.Inside? then step.worker else 0
  }

  lemma FourKinds(s: State, step: Step)
    requires Enabled(s, step) && |s.workers| > 0
    ensures var t, i := Next(s, step), Actor(step); Quiet(s, t, i) || Pushed(s, t, i) || Took(s, t, i) || Met(s, t, i)
  {
    if step.Inside? {
      OneMoves(s, step.worker, step.action);
      if step.action.DoDispatch? {
        DispatchKind(s, step.worker, step.action.newF);
      } else {
        OtherKinds(s, step.worker, step.action);
      }
    }
  }

  lemma DispatchKind(s: State, i: nat, newF: nat)
    requires i < |s.workers| && EnabledIn(s, s.workers[i], DoDispatch(newF)) && !s.aborted
    requires OneMoved(s, NextIn(s, i, DoDispatch(newF)), i)
    ensures var t := NextIn(s, i, DoDispatch(newF)); if t.aborted then Quiet(s, t, i) else Met(s, t, i)
  {
    match s.workers[i].phase.entry.job
    case Resume(f) =>
    case Call(_) =>
  }

  lemma OtherKinds(s: State, i: nat, a: Action)
    requires i < |s.workers| && EnabledIn(s, s.workers[i], a) && !a.DoDispatch?
    requires OneMoved(s, NextIn(s, i, a), i)
    ensures var t := NextIn(s, i, a);
            if a.DoScan? then Took(s, t, i) || Quiet(s, t, i)
            else if a.DoSchedule? || a.DoRequeue? then Pushed(s, t, i)
            else Quiet(s, t, i)
  {
    hide Dispatch;
    hide Checked;
    hide Idled;
  }

  lemma TicketedPushed(s: State, t: State, i: nat)
    requires Ticketed(s) && Pushed(s, t, i)
    ensures Ticketed(t)
  {
    forall x | 0 <= x < t.tickets ensures Queued(t, x) || Held(t, x) || x in t.fates {
      if x == s.tickets {
        assert t.queue[|s.queue|].ticket == x;
      } else {
        PushedStays(s, t, i, x);
      }
    }
  }

  lemma PushedStays(s: State, t: State, i: nat, x: nat)
    requires Pushed(s, t, i)
    ensures (Queued(s, x) ==> Queued(t, x)) && (Held(s, x) ==> Held(t, x))
  {
    if Queued(s, x) {
      var k :| 0 <= k < |s.queue| && s.queue[k].ticket == x;
      assert t.queue[k].ticket == x;
    }
    if Held(s, x) {
      var j :| 0 <= j < |s.workers| && s.workers[j].phase.Picked? && s.workers[j].phase.entry.ticket == x;
      assert t.workers[j] == s.workers[j];
    }
  }

  lemma TicketedQuiet(s: State, t: State, i: nat)
    requires Ticketed(s) && Quiet(s, t, i)
    ensures Ticketed(t)
  {
    forall x | 0 <= x < t.tickets ensures Queued(t, x) || Held(t, x) || x in t.fates {
      if Held(s, x) {
        var j :| 0 <= j < |s.workers| && s.workers[j].phase.Picked? && s.workers[j].phase.entry.ticket == x;
        assert t.workers[j] == s.workers[j];
      }
    }
  }

  lemma Without(q: seq<Entry>, k: nat)
    requires k < |q| && forall j, m :: 0 <= j < m < |q| ==> q[j].ticket < q[m].ticket
    ensures var r := q[..k] + q[k + 1..];
            (forall j, m :: 0 <= j < m < |r| ==> r[j].ticket < r[m].ticket) &&
            (forall j :: 0 <= j < |r| ==> r[j].ticket != q[k].ticket && r[j] in q)
  {
  }

  lemma TicketedTook(s: State, t: State, i: nat)
    requires Ticketed(s) && Took(s, t, i)
    ensures Ticketed(t)
  {
    Without(s.queue, FirstEligible(s, s.workers[i].thread, 0));
    forall x | 0 <= x < t.tickets ensures Queued(t, x) || Held(t, x) || x in t.fates {
      if x !in s.fates {
        TookSomewhere(s, t, i, x);
      }
    }
    forall j | 0 <= j < |t.workers| && t.workers[j].phase.Picked? ensures !Queued(t, t.workers[j].phase.entry.ticket) {
      assert j != i ==> t.workers[j] == s.workers[j];
    }
  }

  lemma TookSomewhere(s: State, t: State, i: nat, x: nat)
    requires Took(s, t, i) && (Queued(s, x) || Held(s, x))
    ensures Queued(t, x) || Held(t, x)
  {
    var k := FirstEligible(s, s.workers[i].thread, 0);
    if Queued(s, x) {
      var m :| 0 <= m < |s.queue| && s.queue[m].ticket == x;
      if m == k {
        assert t.workers[i].phase.entry.ticket == x;
      } else {
        assert t.queue[if m < k then m else m - 1].ticket == x;
      }
    } else {
      var j :| 0 <= j < |s.workers| && s.workers[j].phase.Picked? && s.workers[j].phase.entry.ticket == x;
      assert t.workers[j] == s.workers[j];
    }
  }

  lemma TicketedMet(s: State, t: State, i: nat)
    requires Ticketed(s) && Met(s, t, i)
    ensures Ticketed(t)
  {
    forall x | 0 <= x < t.tickets ensures Queued(t, x) || Held(t, x) || x in t.fates {
      if Held(s, x) {
        var j :| 0 <= j < |s.workers| && s.workers[j].phase.Picked? && s.workers[j].phase.entry.ticket == x;
        assert j != i ==> t.workers[j] == s.workers[j];
      }
    }
  }

  lemma TicketedNext(s: State, step: Step)
    requires Ticketed(s) && Enabled(s, step) && |s.workers| > 0
    ensures Ticketed(Next(s, step))
  {
    var t, i := Next(s, step), Actor(step);
    FourKinds(s, step);
    if Quiet(s, t, i) {
      TicketedQuiet(s, t, i);
    } else if Pushed(s, t, i) {
      TicketedPushed(s, t, i);
    } else if Took(s, t, i) {
      TicketedTook(s, t, i);
    } else {
      TicketedMet(s, t, i);
    }
  }

  lemma {:induction false} TicketedAlways(s: State, run: seq<Step>)
    requires Ticketed(s) && |s.workers| > 0 && Runs(s, run)
    ensures Ticketed(Final(s, run)) && |Final(s, run).workers| == |s.workers|
    decreases |run|
  {
    if run != [] {
      TicketedNext(s, run[0]);
      FourKinds(s, run[0]);
      TicketedAlways(Next(s, run[0]), run[1..]);
    }
  }

  /** In every reachable state each entry that was ever scheduled is in one place: at one
      place of the queue, held by one worker that has just picked it, or done with. */
  lemma EntryInOnePlace(s: State, run: seq<Step>, x: nat)
    requires Initial(s) && |s.workers| > 0 && Runs(s, run) && x < Final(s, run).tickets
    ensures var t := Final(s, run);
            (Queued(t, x) || Held(t, x) || x in t.fates) &&
            !(Queued(t, x) && Held(t, x)) && !(Queued(t, x) && x in t.fates) && !(Held(t, x) && x in t.fates)
    ensures var t := Final(s, run); forall j, k :: 0 <= j < k < |t.queue| ==> t.queue[j].ticket != t.queue[k].ticket
    ensures var t := Final(s, run);
            forall i, j :: 0 <= i < j < |t.workers| && t.workers[i].phase.Picked? && t.workers[j].phase.Picked? ==>
              t.workers[i].phase.entry.ticket != t.workers[j].phase.entry.ticket
  {
    TicketedAlways(s, run);
  }

  /** Its fate is sealed once: by the worker that holds it, which swaps a fiber in, the
      entry's own if it has one, unless that fiber is TERM or EXCEPT; only then is the
      entry discarded. */
  lemma FateSealedOnce(s: State, step: Step, x: nat)
    requires Ticketed(s) && |s.workers| > 0 && Enabled(s, step)
    ensures x in s.fates ==> x in Next(s, step).fates && Next(s, step).fates[x] == s.fates[x]
    ensures x !in s.fates && x in Next(s, step).fates ==>
              var t, i := Next(s, step), Actor(step);
              step.Inside? && OneMoved(s, t, i) && s.workers[i].phase.Picked? && s.workers[i].phase.entry.ticket == x &&
              var job := s.workers[i].phase.entry.job;
              (t.fates[x] == Discarded <==> job.Resume? && s.Over(job.fiber)) &&
              (t.fates[x] == SwappedIn ==> t.workers[i].phase.Running? && t.Is(t.workers[i].phase.fiber, EXEC) &&
                                           (job.Resume? ==> t.workers[i].phase.fiber == job.fiber))
  {
    FourKinds(s, step);
  }

  // ---------- what makes a fiber end ----------

  /** The step ends the stay of fiber f in its own code. */
  predicate Leaves(s: State, step: Step, f: nat, outcome: FiberState)
  {
    step.Inside? && step.action == DoReturn(outcome) && step.worker < |s.workers| &&
    s.workers[step.worker].phase.Running? && s.workers[step.worker].phase.fiber == f
  }

  /** A fiber comes to be TERM, EXCEPT or READY only by leaving its code that way, and EXEC
      only by a dispatch that has the worker run it. */
  ghost predicate Comes(s: State, step: Step, t: State, f: nat)
  {
    (forall st <- {TERM, EXCEPT, READY} :: t.Is(f, st) && !s.Is(f, st) ==> Leaves(s, step, f, st)) &&
    (t.Is(f, EXEC) && !s.Is(f, EXEC) ==>
       step.Inside? && step.action.DoDispatch? && step.worker < |t.workers| &&
       t.workers[step.worker].phase.Running? && t.workers[step.worker].phase.fiber == f)
  }

  lemma StateComesFrom(s: State, step: Step, f: nat)
    requires Enabled(s, step)
    ensures Comes(s, step, Next(s, step), f)
  {
    hide Comes;
    hide FirstEligible;
    hide Dispatch;
    if step.Inside? {
      var i := step.worker;
      if step.action.DoDispatch? {
        DispatchBrings(s, i, step.action.newF, f);
      } else if step.action.DoReturn? {
        ReturnBrings(s, i, step.action.outcome, f);
      } else {
        RestBrings(s, i, step.action, f);
      }
    } else {
      OutsideBrings(s, step, f);
    }
  }

  lemma OutsideBrings(s: State, step: Step, f: nat)
    requires Enabled(s, step) && !step.Inside?
    ensures Comes(s, step, Next(s, step), f)
  {
  }

  lemma DispatchBrings(s: State, i: nat, newF: nat, f: nat)
    requires i < |s.workers| && EnabledIn(s, s.workers[i], DoDispatch(newF))
    ensures Comes(s, Inside(i, DoDispatch(newF)), NextIn(s, i, DoDispatch(newF)), f)
  {
    hide FirstEligible;
  }

  lemma ReturnBrings(s: State, i: nat, outcome: FiberState, f: nat)
    requires i < |s.workers| && EnabledIn(s, s.workers[i], DoReturn(outcome))
    ensures Comes(s, Inside(i, DoReturn(outcome)), NextIn(s, i, DoReturn(outcome)), f)
  {
    hide FirstEligible;
    hide Dispatch;
  }

  lemma RestBrings(s: State, i: nat, a: Action, f: nat)
    requires i < |s.workers| && EnabledIn(s, s.workers[i], a) && !a.DoDispatch? && !a.DoReturn?
    ensures Comes(s, Inside(i, a), NextIn(s, i, a), f)
  {
    hide FirstEligible;
    hide Dispatch;
  }

  /** Whichever run, and however many workers, take a fiber to be TERM, EXCEPT or READY: at
      some step of the run a worker ran it and its own code ended, threw or yielded. */
  lemma {:induction false} OverOnlyByEnd(s: State, run: seq<Step>, f: nat, st: FiberState) returns (k: nat)
    requires Runs(s, run) && Final(s, run).Is(f, st) && !s.Is(f, st) && st in {TERM, EXCEPT, READY}
    ensures k < |run| && Runs(s, run[..k]) && Leaves(Final(s, run[..k]), run[k], f, st)
    decreases |run|
  {
    StateComesFrom(s, run[0], f);
    if Next(s, run[0]).Is(f, st) {
      k := 0;
    } else {
      k := OverOnlyByEnd(Next(s, run[0]), run[1..], f, st);
      k := k + 1;
      assert run[..k][1..] == run[1..][..k - 1];
    }
  }

  /** The step decides over entry x, whose job is to resume a fiber. */
  predicate Meets(s: State, step: Step, x: nat)
  {
    step.Inside? && step.worker < |s.workers| && s.workers[step.worker].phase.Picked? &&
    var e := s.workers[step.worker].phase.entry; e.ticket == x && e.job.Resume?
  }

  lemma LastStep(s: State, run: seq<Step>)
    requires Runs(s, run) && run != []
    ensures var n := |run| - 1;
            Runs(s, run[..n]) && Enabled(Final(s, run[..n]), run[n]) && Final(s, run) == Next(Final(s, run[..n]), run[n])
  {
    Splits(s, run, |run| - 1);
  }

  lemma TicketedFromStart(s: State, run: seq<Step>)
    requires Initial(s) && |s.workers| > 0 && Runs(s, run)
    ensures Ticketed(Final(s, run)) && |Final(s, run).workers| > 0
  {
    TicketedAlways(s, run);
  }

  /** An entry that is discarded is one whose fiber some worker ran before, whose own code
      ended or threw then. */
  lemma {:induction false} DiscardedOnlyAfterEnd(s: State, run: seq<Step>, x: nat) returns (j: nat, k: nat)
    requires Initial(s) && |s.workers| > 0 && Runs(s, run)
    requires x in Final(s, run).fates && Final(s, run).fates[x] == Discarded
    ensures k < j < |run| && Runs(s, run[..j]) && Runs(s, run[..k])
    ensures Meets(Final(s, run[..j]), run[j], x)
    ensures var f := Final(s, run[..j]).workers[run[j].worker].phase.entry.job.fiber; exists st :: st in {TERM, EXCEPT} && Leaves(Final(s, run[..k]), run[k], f, st)
    decreases |run|
  {
    hide Next;
    hide Ticketed;
    hide EnabledIn;
    LastStep(s, run);
    var n := |run| - 1;
    var u := Final(s, run[..n]);
    TicketedFromStart(s, run[..n]);
    FateSealedOnce(u, run[n], x);
    if x in u.fates {
      j, k := DiscardedOnlyAfterEnd(s, run[..n], x);
      assert run[..n][..j] == run[..j] && run[..n][..k] == run[..k];
    } else {
      var f := u.workers[run[n].worker].phase.entry.job.fiber;
      var st := u.fibers[f];
      j := n;
      k := OverOnlyByEnd(s, run[..n], f, st);
      assert run[..n][..k] == run[..k];
    }
  }

  // ---------- what a turn of one worker comes to ----------

  /** The other fibers are as before. */
  ghost predicate OthersSame(s: State, t: State, f: nat)
  {
    forall g <- s.fibers :: g != f ==> g in t.fibers && t.fibers[g] == s.fibers[g]
  }

  /** Worker i is done with fiber f, which came back as `back`, and whose code scheduled
      `asked`. A suspended fiber is HOLD and out of the worker's hands; a READY one is READY
      and last in the queue, for any thread; one that has ended stays so, unless it is
      cb_fiber, which is INIT and kept. */
  ghost predicate PutBack(s: State, t: State, i: nat, f: nat, viaCb: bool, back: FiberState, asked: seq<Entry>)
  {
    OneMoved(s, t, i) && OthersSame(s, t, f) && t.aborted == s.aborted &&
    t.workers[i].phase.Scan? && t.workers[i].idleTerm == s.workers[i].idleTerm &&
    (if back.TERM? || back.EXCEPT? then
       t.Is(f, if viaCb then INIT else back) && t.queue == s.queue + asked &&
       t.workers[i].cbFiber == (if viaCb then Some(f) else s.workers[i].cbFiber)
     else
       t.Is(f, back) && t.queue == s.queue + asked + (if back.READY? then [Entry(s.tickets + |asked|, Resume(f), ANY_THREAD)] else []) &&
       t.workers[i].cbFiber == (if viaCb then None else s.workers[i].cbFiber))
  }

  /** On the way there. */
  ghost predicate OnTheWay(s: State, u: State, i: nat, f: nat, viaCb: bool, asked: seq<Entry>)
  {
    OneMoved(s, u, i) && OthersSame(s, u, f) && u.aborted == s.aborted && u.queue == s.queue + asked &&
    u.tickets == s.tickets + |asked| && u.workers[i].idleTerm == s.workers[i].idleTerm &&
    u.workers[i].cbFiber == (if viaCb then Some(f) else s.workers[i].cbFiber)
  }

  lemma PutBackFrom(s: State, u: State, t: State, i: nat, f: nat, viaCb: bool, back: FiberState, asked: seq<Entry>, more: seq<Entry>)
    requires OnTheWay(s, u, i, f, viaCb, asked) && PutBack(u, t, i, f, viaCb, back, more)
    ensures PutBack(s, t, i, f, viaCb, back, asked + more)
  {
    forall g <- s.fibers | g != f ensures g in t.fibers && t.fibers[g] == s.fibers[g] {
      assert g in u.fibers;
    }
  }

  /** Worker i handles fiber f, as its cb_fiber or not. */
  predicate Has(s: State, i: nat, f: nat, viaCb: bool)
  {
    i < |s.workers| && Handles(s.workers[i].phase) && s.workers[i].phase.fiber == f && s.workers[i].phase.viaCb == viaCb &&
    (viaCb ==> s.workers[i].cbFiber == Some(f))
  }

  lemma ReturnOnTheWay(s: State, i: nat, f: nat, viaCb: bool, outcome: FiberState)
    requires Has(s, i, f, viaCb) && EnabledIn(s, s.workers[i], DoReturn(outcome)) && s.Is(f, EXEC)
    ensures var t := NextIn(s, i, DoReturn(outcome));
            OnTheWay(s, t, i, f, viaCb, []) && t.workers[i].phase == Returned(f, viaCb) && t.Is(f, outcome) && !t.aborted == !s.aborted
  {
    hide FirstEligible;
    hide Dispatch;
  }

  /** The counter, and whether the fiber is READY. */
  lemma DecideOnTheWay(s: State, i: nat, f: nat, viaCb: bool)
    requires Has(s, i, f, viaCb) && s.workers[i].phase.Returned?
    ensures var t := NextIn(s, i, DoDecrement);
            Has(t, i, f, viaCb) && t.workers[i].phase.Back? && t.aborted == s.aborted &&
            var u := NextIn(t, i, DoDecide);
            OnTheWay(s, u, i, f, viaCb, []) && u.fibers == s.fibers && Has(u, i, f, viaCb) &&
            if s.Is(f, READY) then u.workers[i].phase.Requeue? else u.workers[i].phase.NotReady?
  {
    hide FirstEligible;
    hide Dispatch;
  }

  lemma RequeuePuts(s: State, i: nat, f: nat, viaCb: bool)
    requires Has(s, i, f, viaCb) && s.workers[i].phase.Requeue? && s.Is(f, READY)
    ensures PutBack(s, NextIn(s, i, DoRequeue), i, f, viaCb, READY, [])
  {
    hide FirstEligible;
    hide Dispatch;
  }

  lemma SettlePuts(s: State, i: nat, f: nat, viaCb: bool, back: FiberState)
    requires Has(s, i, f, viaCb) && s.workers[i].phase.NotReady? && s.Is(f, back)
    ensures var t := NextIn(s, i, DoSettle);
            if back.TERM? || back.EXCEPT? then t.workers[i].phase.Scan? && PutBack(s, t, i, f, viaCb, back, [])
            else t.workers[i].phase.Hold? && Has(t, i, f, viaCb) && t.aborted == s.aborted && OnTheWay(s, t, i, f, viaCb, [])
  {
    hide FirstEligible;
    hide Dispatch;
  }

  lemma HoldPuts(s: State, i: nat, f: nat, viaCb: bool)
    requires Has(s, i, f, viaCb) && s.workers[i].phase.Hold?
    ensures PutBack(s, NextIn(s, i, DoHold), i, f, viaCb, HOLD, [])
  {
    hide FirstEligible;
    hide Dispatch;
  }

  /** What the code that runs has done so far: it scheduled `asked`. */
  ghost predicate Ran(s: State, t: State, asked: seq<Entry>)
  {
    t.workers == s.workers && t.aborted == s.aborted && t.bare == s.bare &&
    (forall g <- s.fibers :: g in t.fibers && t.fibers[g] == s.fibers[g]) &&
    t.queue == s.queue + asked && t.tickets == s.tickets + |asked|
  }

  lemma RanNothing(s: State)
    ensures Ran(s, s, [])
  {
    assert s.queue + [] == s.queue;
  }

  lemma CodeGives(s: State, i: nat, a: Action)
    requires i < |s.workers| && EnabledIn(s, s.workers[i], a) && (a.DoSchedule? || a.DoPublish? || a.DoCreate?)
    requires !s.aborted
    ensures Ran(s, NextIn(s, i, a), if a.DoSchedule? then [Entry(s.tickets, a.job, a.thread)] else [])
    ensures a.DoSchedule? ==> NextIn(s, i, a) == s.Push(a.job, a.thread)
    ensures a.DoCreate? ==> NextIn(s, i, a) == Next(s, OutsideCreate(a.newF))
  {
    assert s.queue + [] == s.queue;
  }

  lemma RanOn(s: State, u: State, t: State, asked: seq<Entry>, more: seq<Entry>)
    requires Ran(s, u, asked) && Ran(u, t, more)
    ensures Ran(s, t, asked + more)
  {
    forall g <- s.fibers ensures g in t.fibers && t.fibers[g] == s.fibers[g] {
      assert g in u.fibers;
    }
  }

  lemma CodeOnTheWay(s: State, t: State, i: nat, f: nat, viaCb: bool, asked: seq<Entry>)
    requires Has(s, i, f, viaCb) && Ran(s, t, asked) && f in s.fibers
    ensures OnTheWay(s, t, i, f, viaCb, asked) && t.workers[i] == s.workers[i] && t.fibers[f] == s.fibers[f]
  {
  }

  /** Worker i has dropped what it had picked. */
  ghost predicate Dropped(s: State, t: State, i: nat)
  {
    OneMoved(s, t, i) && t.workers[i] == s.workers[i].(phase := Scan) &&
    t.queue == s.queue && t.fibers == s.fibers && t.aborted == s.aborted
  }

  /** What a worker that holds entry e comes to: the fiber it swaps in, if any, comes back as
      `outcome`, or with EXCEPT if it has no callback. */
  ghost predicate Handled(s: State, t: State, i: nat, e: Entry, newF: nat, outcome: FiberState, swapped: Option<nat>, asked: seq<Entry>)
    requires i < |s.workers|
  {
    match e.job
    case Resume(f) =>
      if s.Is(f, TERM) || s.Is(f, EXCEPT) then swapped == None && Dropped(s, t, i)
      else if s.Is(f, EXEC) then swapped == None && t.aborted
      else swapped == Some(f) && PutBack(s, t, i, f, false, if f in s.bare then EXCEPT else outcome, asked)
    case Call(_) =>
      var cb := s.workers[i].cbFiber;
      if cb.Some? && !s.Is(cb.value, INIT) && !s.Is(cb.value, TERM) && !s.Is(cb.value, EXCEPT) then swapped == None && t.aborted
      else
        var f := if cb.Some? then cb.value else newF;
        swapped == Some(f) && PutBack(s, t, i, f, true, outcome, asked)
  }

  /** Up to where the fiber runs. */
  ghost predicate Entered(s: State, t: State, i: nat, f: nat, viaCb: bool)
  {
    OnTheWay(s, t, i, f, viaCb, []) && Has(t, i, f, viaCb) && t.workers[i].phase.Running? && t.Is(f, EXEC) &&
    (f in t.bare <==> !viaCb && f in s.bare)
  }

  /** The fiber that entry e has worker i swap in, as long as no assertion fails. */
  ghost predicate Swaps(s: State, i: nat, e: Entry, newF: nat, f: nat)
    requires i < |s.workers|
  {
    match e.job
    case Resume(g) => f == g && !s.Is(g, TERM) && !s.Is(g, EXCEPT) && !s.Is(g, EXEC)
    case Call(_) =>
      var cb := s.workers[i].cbFiber;
      if cb.Some? then f == cb.value && (s.Is(f, INIT) || s.Is(f, TERM) || s.Is(f, EXCEPT)) else f == newF
  }

  lemma DispatchGives(s: State, i: nat, newF: nat, outcome: FiberState)
    requires i < |s.workers| && EnabledIn(s, s.workers[i], DoDispatch(newF)) && !s.aborted
    ensures var t, e := NextIn(s, i, DoDispatch(newF)), s.workers[i].phase.entry;
            i < |t.workers| &&
            if t.aborted || !t.workers[i].phase.Running? then Handled(s, t, i, e, newF, outcome, None, [])
            else var f := t.workers[i].phase.fiber; t.workers[i].phase.viaCb == e.job.Call? && t.Is(f, EXEC) && Swaps(s, i, e, newF, f) && Entered(s, t, i, f, e.job.Call?)
  {
    hide FirstEligible;
    hide PutBack;
    hide Dispatch;
    hide Handled;
    hide Entered;
    hide Swaps;
    if s.workers[i].phase.entry.job.Resume? {
      ResumeGives(s, i, newF, outcome);
    } else {
      CallGives(s, i, newF, outcome);
    }
  }

  lemma ResumeGives(s: State, i: nat, newF: nat, outcome: FiberState)
    requires i < |s.workers| && EnabledIn(s, s.workers[i], DoDispatch(newF)) && s.workers[i].phase.entry.job.Resume? && !s.aborted
    ensures var e := s.workers[i].phase.entry;
            var t := Dispatch(s, i, e, newF);
            i < |t.workers| &&
            if t.aborted || !t.workers[i].phase.Running? then Handled(s, t, i, e, newF, outcome, None, [])
            else var f := t.workers[i].phase.fiber; t.workers[i].phase.viaCb == e.job.Call? && t.Is(f, EXEC) && Swaps(s, i, e, newF, f) && Entered(s, t, i, f, false)
  {
    hide PutBack;
  }

  lemma CallGives(s: State, i: nat, newF: nat, outcome: FiberState)
    requires i < |s.workers| && EnabledIn(s, s.workers[i], DoDispatch(newF)) && s.workers[i].phase.entry.job.Call? && !s.aborted
    ensures var e := s.workers[i].phase.entry;
            var t := Dispatch(s, i, e, newF);
            i < |t.workers| &&
            if t.aborted || !t.workers[i].phase.Running? then Handled(s, t, i, e, newF, outcome, None, [])
            else var f := t.workers[i].phase.fiber; t.workers[i].phase.viaCb == e.job.Call? && t.Is(f, EXEC) && Swaps(s, i, e, newF, f) && Entered(s, t, i, f, true)
  {
    hide PutBack;
  }

  lemma Served(s: State, v: State, t: State, i: nat, e: Entry, newF: nat, outcome: FiberState, asked: seq<Entry>)
    requires i < |s.workers| && i < |v.workers| && v.workers[i].phase.Running?
    requires var f := v.workers[i].phase.fiber;
             Swaps(s, i, e, newF, f) && Entered(s, v, i, f, e.job.Call?) &&
             PutBack(v, t, i, f, e.job.Call?, if f in v.bare then EXCEPT else outcome, asked)
    ensures Handled(s, t, i, e, newF, outcome, Some(v.workers[i].phase.fiber), asked)
  {
    hide PutBack;
    hide OnTheWay;
    var f := v.workers[i].phase.fiber;
    PutBackFrom(s, v, t, i, f, e.job.Call?, if f in v.bare then EXCEPT else outcome, [], asked);
    assert [] + asked == asked;
  }

  /** What the reads of stopping() in idle() have found so far, */
  ghost predicate ReadSoFar(s: State, p: Phase)
  {
    match p
    case IdleStopping => true
    case IdleEmpty => s.stopping
    case IdleActive => s.stopping && s.queue == []
    case IdleOut(done) => done == (s.stopping && s.queue == [] && s.active == 0)
    case _ => false
  }

  /** and how many are left. */
  ghost function IdleLeft(p: Phase): nat
  {
    match p
    case IdleStopping => 3
    case IdleEmpty => 2
    case IdleActive => 1
    case _ => 0
  }

  lemma IdleGives(s: State, i: nat)
    requires i < |s.workers| && EnabledIn(s, s.workers[i], DoIdle)
    ensures var t := NextIn(s, i, DoIdle);
            OneMoved(s, t, i) && t.workers[i] == s.workers[i].(phase := t.workers[i].phase) && InIdle(t.workers[i].phase) &&
            t == s.(workers := t.workers) &&
            (ReadSoFar(s, s.workers[i].phase) ==> ReadSoFar(t, t.workers[i].phase)) &&
            IdleLeft(t.workers[i].phase) < IdleLeft(s.workers[i].phase)
  {
    hide FirstEligible;
    hide Dispatch;
  }

  lemma LeaveGives(s: State, i: nat)
    requires i < |s.workers| && EnabledIn(s, s.workers[i], DoLeaveIdle)
    ensures var t := NextIn(s, i, DoLeaveIdle);
            OneMoved(s, t, i) && t.workers[i] == s.workers[i].(phase := Scan, idleTerm := s.workers[i].phase.done)
  {
    hide FirstEligible;
    hide Dispatch;
  }

  /** Bound to another thread, or its fiber executes. */
  predicate Passes(s: State, e: Entry, thread: int)
  {
    (e.thread != ANY_THREAD && e.thread != thread) || (e.job.Resume? && s.Is(e.job.fiber, EXEC))
  }

  lemma ScanGives(s: State, i: nat)
    requires i < |s.workers| && EnabledIn(s, s.workers[i], DoScan)
    ensures var it, t, w := FirstEligible(s, s.workers[i].thread, 0), NextIn(s, i, DoScan), s.workers[i];
            (forall j :: 0 <= j < it ==> Passes(s, s.queue[j], w.thread)) &&
            t.fibers == s.fibers && t.bare == s.bare && t.aborted == s.aborted && OneMoved(s, t, i) &&
            if it < |s.queue| then
              !Passes(s, s.queue[it], w.thread) && t.workers[i] == w.(phase := Picked(s.queue[it])) &&
              t.queue == s.queue[..it] + s.queue[it + 1..] && t.tickets == s.tickets
            else t.queue == s.queue && t.workers[i] == w.(phase := if w.idleTerm then Exited else IdleStopping)
  {
    hide Dispatch;
    hide Checked;
    hide Idled;
    assert NextIn(s, i, DoScan) == Scanned(s, i);
    hide NextIn;
    var it := FirstEligible(s, s.workers[i].thread, 0);
    forall j | 0 <= j < it ensures Passes(s, s.queue[j], s.workers[i].thread) {
      assert !Eligible(s, s.queue[j], s.workers[i].thread);
    }
    hide FirstEligible;
  }

  lemma HandledFrom(s: State, u: State, t: State, i: nat, it: nat, newF: nat, outcome: FiberState, swapped: Option<nat>, asked: seq<Entry>)
    requires i < |s.workers| && s.workers[i].phase.Scan? && it < |s.queue| && OneMoved(s, u, i)
    requires u.fibers == s.fibers && u.bare == s.bare && u.aborted == s.aborted && u.tickets == s.tickets
    requires u.workers[i] == s.workers[i].(phase := Picked(s.queue[it])) && u.queue == s.queue[..it] + s.queue[it + 1..]
    requires Handled(u, t, i, s.queue[it], newF, outcome, swapped, asked)
    ensures Handled(s.(queue := s.queue[..it] + s.queue[it + 1..]), t, i, s.queue[it], newF, outcome, swapped, asked)
  {
  }

  /** The last entry has that job, for any thread. */
  predicate LastIs(q: seq<Entry>, job: Job)
  {
    q != [] && q[|q| - 1].job == job && q[|q| - 1].thread == ANY_THREAD
  }

  lemma YieldsKept(s: State, t: State, i: nat, e: Entry, newF: nat, outcome: FiberState, swapped: Option<nat>, asked: seq<Entry>)
    requires i < |s.workers| && Handled(s, t, i, e, newF, outcome, swapped, asked)
    ensures !t.aborted && swapped.Some? && (swapped.value in s.bare ==> e.job.Call?) ==>
              var f := swapped.value;
              (outcome == HOLD ==> t.Is(f, HOLD)) &&
              (outcome == READY ==> t.Is(f, READY) && LastIs(t.queue, Resume(f)))
    ensures t.aborted || t.workers[i].phase.Scan?
  {
  }

  // ---------- bounded bypass ----------

  /** An entry bound to no thread, at place p, that a scan does not skip. */
  predicate Waits(s: State, p: nat, x: nat)
  {
    p < |s.queue| && s.queue[p].ticket == x && s.queue[p].thread == ANY_THREAD &&
    !(s.queue[p].job.Resume? && s.Is(s.queue[p].job.fiber, EXEC))
  }

  predicate IsPick(s: State, step: Step)
    requires Enabled(s, step)
  {
    step.Inside? && step.action.DoScan? &&
    FirstEligible(s, s.workers[step.worker].thread, 0) < |s.queue|
  }

  /** A pick by any worker takes the entry or one ahead of it; nothing else moves it. */
  lemma BypassNext(s: State, step: Step, p: nat, x: nat)
    requires Ticketed(s) && |s.workers| > 0 && Enabled(s, step) && Waits(s, p, x)
    ensures !IsPick(s, step) ==> p < |Next(s, step).queue| && Next(s, step).queue[p] == s.queue[p]
    ensures IsPick(s, step) ==>
              var t, k := Next(s, step), FirstEligible(s, s.workers[step.worker].thread, 0);
              k <= p &&
              if k == p then !Queued(t, x) && t.workers[step.worker].phase == Picked(s.queue[p])
              else p <= |t.queue| && t.queue[p - 1] == s.queue[p]
  {
    hide FirstEligible;
    hide Ticketed;
    hide Dispatch;
    hide Queued;
    if IsPick(s, step) {
      PickPasses(s, step.worker, p, x);
    } else {
      KeepsPlace(s, step, p);
    }
  }

  lemma PickPasses(s: State, i: nat, p: nat, x: nat)
    requires Ticketed(s) && i < |s.workers| && EnabledIn(s, s.workers[i], DoScan) && Waits(s, p, x)
    ensures var t, k := NextIn(s, i, DoScan), FirstEligible(s, s.workers[i].thread, 0);
            k <= p &&
            if k == p then !Queued(t, x) && t.workers[i].phase == Picked(s.queue[p])
            else p <= |t.queue| && t.queue[p - 1] == s.queue[p]
  {
    hide Dispatch;
    var t, k := NextIn(s, i, DoScan), FirstEligible(s, s.workers[i].thread, 0);
    assert Eligible(s, s.queue[p], s.workers[i].thread);
    hide FirstEligible;
    hide Eligible;
    assert k <= p && t.queue == s.queue[..k] + s.queue[k + 1..] && t.workers[i].phase == Picked(s.queue[k]);
    hide NextIn;
    Passed(s.queue, k, p);
  }

  lemma Passed(q: seq<Entry>, k: nat, p: nat)
    requires k <= p < |q| && forall j, m :: 0 <= j < m < |q| ==> q[j].ticket < q[m].ticket
    ensures var r := q[..k] + q[k + 1..];
            if k == p then forall j :: 0 <= j < |r| ==> r[j].ticket != q[p].ticket else p <= |r| && r[p - 1] == q[p]
  {
    Without(q, k);
  }

  lemma KeepsPlace(s: State, step: Step, p: nat)
    requires |s.workers| > 0 && Enabled(s, step) && !IsPick(s, step) && p < |s.queue|
    ensures p < |Next(s, step).queue| && Next(s, step).queue[p] == s.queue[p]
  {
    FourKinds(s, step);
  }

  function Picks(s: State, run: seq<Step>): nat
    requires Runs(s, run)
    decreases |run|
  {
    if run == [] then 0 else Bit(IsPick(s, run[0])) + Picks(Next(s, run[0]), run[1..])
  }

  /** As long as entry x is queued, its fiber is not executing when a step is taken. */
  predicate FreeWhileQueued(s: State, run: seq<Step>, x: nat, job: Job)
    requires Runs(s, run)
    decreases |run|
  {
    run == [] || ((Queued(s, x) ==> !(job.Resume? && s.Is(job.fiber, EXEC))) && FreeWhileQueued(Next(s, run[0]), run[1..], x, job))
  }

  lemma NotQueuedNext(s: State, step: Step, x: nat)
    requires |s.workers| > 0 && Enabled(s, step) && x < s.tickets && !Queued(s, x)
    ensures !Queued(Next(s, step), x) && x < Next(s, step).tickets && |Next(s, step).workers| > 0
  {
    var t, i := Next(s, step), Actor(step);
    FourKinds(s, step);
    hide Next;
    if Took(s, t, i) {
      var m := FirstEligible(s, s.workers[i].thread, 0);
      forall k | 0 <= k < |t.queue| ensures t.queue[k].ticket != x {
        assert t.queue[k] == s.queue[if k < m then k else k + 1];
      }
    }
  }

  lemma {:induction false} StaysTaken(s: State, run: seq<Step>, x: nat)
    requires |s.workers| > 0 && Runs(s, run) && x < s.tickets && !Queued(s, x)
    ensures !Queued(Final(s, run), x)
    decreases |run|
  {
    hide Next;
    if run != [] {
      NotQueuedNext(s, run[0], x);
      StaysTaken(Next(s, run[0]), run[1..], x);
    }
  }

  lemma SameWorkers(s: State, step: Step)
    requires |s.workers| > 0 && Enabled(s, step)
    ensures |Next(s, step).workers| == |s.workers|
  {
    FourKinds(s, step);
  }

  /** Bounded bypass: an entry bound to no thread whose fiber does not execute while the
      entry waits is taken within as many picks as there are entries ahead of it, and one. */
  lemma {:induction false} BoundedBypass(s: State, run: seq<Step>, p: nat)
    requires Ticketed(s) && |s.workers| > 0 && Runs(s, run)
    requires p < |s.queue| && s.queue[p].thread == ANY_THREAD && FreeWhileQueued(s, run, s.queue[p].ticket, s.queue[p].job)
    ensures Picks(s, run) > p ==> !Queued(Final(s, run), s.queue[p].ticket)
    decreases |run|
  {
    hide Next;
    hide Ticketed;
    hide EnabledIn;
    hide FirstEligible;
    if run != [] {
      var t, x := Next(s, run[0]), s.queue[p].ticket;
      assert Queued(s, x);
      BypassNext(s, run[0], p, x);
      TicketedNext(s, run[0]);
      SameWorkers(s, run[0]);
      if !IsPick(s, run[0]) {
        BoundedBypass(t, run[1..], p);
      } else if FirstEligible(s, s.workers[run[0].worker].thread, 0) == p {
        StaysTaken(t, run[1..], x);
      } else {
        BoundedBypass(t, run[1..], p - 1);
      }
    }
  }

  // ---------- pieces of runs ----------

  /** After stop(), with something queued, a worker comes to its loop head. */
  lemma Called(s: State, run: seq<Step>, i: nat) returns (longer: seq<Step>)
    requires Runs(s, run)
    requires var t := Final(s, run); i < |t.workers| && Fresh(t.workers[i]) && t.stopping && t.queue != [] && !t.aborted
    ensures Runs(s, longer)
    ensures var t := Final(s, run); Final(s, longer) == t.(workers := t.workers[i := t.workers[i].(phase := Scan)])
  {
    hide Runs;
    hide Final;
    longer := run;
    if Final(s, run).workers[i].phase.Waiting? {
      longer := Go(s, longer, Inside(i, DoCheck));
      longer := Go(s, longer, Inside(i, DoCheck));
    }
  }

  /** stop(), when nobody else moves: the root worker is called unless stopping() holds. */
  lemma RootCalledUnless(s: State, run: seq<Step>, i: nat) returns (longer: seq<Step>)
    requires Runs(s, run)
    requires var t := Final(s, run); i < |t.workers| && t.workers[i].phase.Waiting? && t.stopping && !t.aborted
    ensures Runs(s, longer) && run <= longer && forall k :: |run| <= k < |longer| ==> longer[k] == Inside(i, DoCheck)
    ensures var t := Final(s, run);
            Final(s, longer) == t.At(i, if t.stopping && t.queue == [] && t.active == 0 then Skipped else Scan)
  {
    hide Runs;
    hide Final;
    longer := Go(s, run, Inside(i, DoCheck));
    longer := Go(s, longer, Inside(i, DoCheck));
    if Final(s, longer).workers[i].phase.CheckActive? {
      longer := Go(s, longer, Inside(i, DoCheck));
    }
  }

  /** One idle turn of a worker that finds stopping() true. */
  lemma IdleToEnd(s: State, run: seq<Step>, i: nat) returns (longer: seq<Step>)
    requires Runs(s, run)
    requires var t := Final(s, run);
             i < |t.workers| && t.workers[i].phase.Scan? && !t.workers[i].idleTerm &&
             t.stopping && t.queue == [] && t.active == 0 && !t.aborted
    ensures Runs(s, longer)
    ensures var t := Final(s, run);
            Final(s, longer) == t.(workers := t.workers[i := t.workers[i].(idleTerm := true)])
  {
    hide Runs;
    hide Final;
    longer := Go(s, run, Inside(i, DoScan));
    longer := Go(s, longer, Inside(i, DoIdle));
    longer := Go(s, longer, Inside(i, DoIdle));
    longer := Go(s, longer, Inside(i, DoIdle));
    longer := Go(s, longer, Inside(i, DoLeaveIdle));
  }

  /** A running fiber yields to READY, up to the point before it is requeued. */
  lemma ReadyAgain(s: State, run: seq<Step>, i: nat, f: nat) returns (longer: seq<Step>)
    requires Runs(s, run)
    requires var t := Final(s, run); i < |t.workers| && t.workers[i].phase.Running? && t.workers[i].phase.fiber == f && !t.aborted
    requires Final(s, run).Is(f, EXEC) && f !in Final(s, run).bare
    ensures Runs(s, longer)
    ensures var t := Final(s, run);
            Final(s, longer) == t.(workers := t.workers[i := t.workers[i].(phase := Requeue(f, t.workers[i].phase.viaCb))],
                                   fibers := t.fibers[f := READY], active := t.active - 1)
  {
    hide Runs;
    hide Final;
    longer := Go(s, run, Inside(i, DoReturn(READY)));
    longer := Go(s, longer, Inside(i, DoDecrement));
    longer := Go(s, longer, Inside(i, DoDecide));
  }
}
