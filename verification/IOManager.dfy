/** IOManager's descriptors and events, proved against EventSpec. A failed assertion is
    the result None, after which nothing is promised. */
module IOManagers {
  import opened Codec
  import opened EventSpec
  import SchedulerDrain
  import SchedulerSpec
  import Schedulers
  import Timers
  import TimerSpec

  class FdContext {
    const fd: nat
    var events: set<Event>
    var read: Slot
    var write: Slot

    constructor (fd: nat)
      ensures this.fd == fd && Value() == Context({}, EMPTY, EMPTY)
    {
      this.fd := fd;
      events, read, write := {}, EMPTY, EMPTY;
    }

    function Value(): Context
      reads this
    {
      Context(events, read, write)
    }

    method SetSlot(e: Event, slot: Slot)
      modifies this`read, this`write
      ensures Value() == old(Value()).With(e, slot)
    {
      if e.READ? {
        read := slot;
      } else {
        write := slot;
      }
    }
  }

  /** The entries that schedule() makes of jobs, one after the other, from ticket t on. */
  function Entries(t: nat, jobs: seq<Job>): seq<SchedulerSpec.Entry>
  {
    seq(|jobs|, k requires 0 <= k < |jobs| => SchedulerSpec.Entry(t + k, jobs[k], SchedulerSpec.ANY_THREAD))
  }

  /** The jobs that were added to a log are the entries that were added to a queue. */
  predicate Handed(q: seq<SchedulerSpec.Entry>, t: nat, jobs: seq<Job>, q1: seq<SchedulerSpec.Entry>, t1: nat, jobs1: seq<Job>)
  {
    jobs <= jobs1 && t1 == t + |jobs1| - |jobs| && q1 == q + Entries(t, jobs1[|jobs|..])
  }

  lemma NothingHanded(q: seq<SchedulerSpec.Entry>, t: nat, jobs: seq<Job>)
    ensures Handed(q, t, jobs, q, t, jobs)
  {
  }

  lemma HandedTwice(q: seq<SchedulerSpec.Entry>, t: nat, jobs: seq<Job>, q1: seq<SchedulerSpec.Entry>, t1: nat, jobs1: seq<Job>,
                    q2: seq<SchedulerSpec.Entry>, t2: nat, jobs2: seq<Job>)
    requires Handed(q, t, jobs, q1, t1, jobs1) && Handed(q1, t1, jobs1, q2, t2, jobs2)
    ensures Handed(q, t, jobs, q2, t2, jobs2)
  {
    assert jobs2[|jobs|..] == jobs1[|jobs|..] + jobs2[|jobs1|..];
    assert Entries(t, jobs2[|jobs|..]) == Entries(t, jobs1[|jobs|..]) + Entries(t1, jobs2[|jobs1|..]);
  }

  predicate SlotKnown(slot: Slot, fibers: set<nat>)
  {
    slot.job.Some? && slot.job.value.Resume? ==> slot.job.value.fiber in fibers
  }

  /** The fibers that wait for events are the scheduler's. */
  predicate JobsKnown(cs: seq<Context>, fibers: set<nat>)
  {
    forall i :: 0 <= i < |cs| ==> SlotKnown(cs[i].read, fibers) && SlotKnown(cs[i].write, fibers)
  }

  class IOManager {
    var fdContexts: seq<FdContext>
    var epoll: map<nat, set<Event>>     // what the kernel knows
    var pending: int                    // m_pendingEventCount
    const timers: Timers.TimerManager
    const base: Schedulers.Scheduler    // what it inherits from Scheduler
    ghost var view: State

    ghost predicate Agrees()
      reads this, fdContexts, base, base.workers
    {
      && base.Valid() && JobsKnown(view.contexts, base.fibers.Keys)
      && |fdContexts| == |view.contexts|
      && (forall i {:trigger fdContexts[i]} :: 0 <= i < |fdContexts| ==>
            fdContexts[i].fd == i && fdContexts[i].Value() == view.contexts[i])
      && epoll == view.epoll && pending == view.pending
    }

    ghost predicate Valid()
      reads this, fdContexts, base, base.workers
    {
      Agrees() && Inv(view)
    }

    constructor (timers: Timers.TimerManager, base: Schedulers.Scheduler)
      requires base.Valid()
      ensures Valid() && Initial(view) && this.timers == timers && this.base == base
      ensures forall c <- fdContexts :: fresh(c)
    {
      this.timers, this.base := timers, base;
      fdContexts, epoll, pending := [], map[], 0;
      view := State([], map[], 0, [], multiset{}, multiset{}, 0);
      new;
      ContextResize(32);
      InitialInv(view);
    }

    method Schedule(job: Job)
      requires base.Valid() && SlotKnown(Slot(true, Some(job)), base.fibers.Keys)
      modifies base`queue, base`tickets, this`view
      ensures base.Valid() && view == old(view).(queue := old(view).queue + [job])
      ensures Handed(old(base.queue), old(base.tickets), old(view).queue, base.queue, base.tickets, view.queue)
    {
      var needTickle := base.Schedule(Some(job), SchedulerSpec.ANY_THREAD);
      view := view.(queue := view.queue + [job]);
    }

    /** New contexts are made where there are none; those beyond the size are let go. */
    method ContextResize(size: nat)
      requires Agrees()
      modifies this`fdContexts, this`view
      ensures Agrees() && view == old(view).(contexts := Resized(old(view).contexts, size))
      ensures forall c <- fdContexts :: c in old(fdContexts) || fresh(c)
    {
      if size < |fdContexts| {
        fdContexts := fdContexts[..size];
        view := view.(contexts := view.contexts[..size]);
      }
      while |fdContexts| < size
        invariant |fdContexts| <= size && Agrees()
        invariant size < |old(fdContexts)| ==> |fdContexts| == size
        invariant size >= |old(fdContexts)| ==> |fdContexts| >= |old(fdContexts)|
        invariant view == old(view).(contexts := Resized(old(view).contexts, |fdContexts|))
        invariant forall c <- fdContexts :: c in old(fdContexts) || fresh(c)
      {
        var c := new FdContext(|fdContexts|);
        ghost var before := view.contexts;
        fdContexts := fdContexts + [c];
        view := view.(contexts := before + [c.Value()]);
        assert view.contexts == Resized(old(view).contexts, |fdContexts|);
      }
    }

    /** triggerEvent */
    method TriggerEvent(c: FdContext, e: Event) returns (ok: bool)
      requires Agrees() && c.fd < |fdContexts| && fdContexts[c.fd] == c
      modifies base`queue, base`tickets, this`view, c`events, c`read, c`write
      ensures var t := Trigger(old(view), c.fd, e);
              ok == t.Done? && (ok ==> Agrees() && view == t.state)
      ensures ok ==> Handed(old(base.queue), old(base.tickets), old(view).queue, base.queue, base.tickets, view.queue)
    {
      if e !in c.events {
        return false;
      }
      c.events := c.events - {e};
      var ctx := if e.READ? then c.read else c.write;
      if ctx.job.None? {
        return false;
      }
      Schedule(ctx.job.value);
      c.SetSlot(e, ctx.(scheduler := false));
      view := view.(contexts := view.contexts[c.fd := c.Value()]);
      ok := true;
    }

    method TriggerIfArmed(c: FdContext, e: Event) returns (ok: bool)
      requires Agrees() && c.fd < |fdContexts| && fdContexts[c.fd] == c
      modifies base`queue, base`tickets, this`view, c`events, c`read, c`write
      ensures var t := EventSpec.TriggerIfArmed(old(view), c.fd, e); ok == t.Done? && (ok ==> Agrees() && view == t.state)
      ensures ok ==> Handed(old(base.queue), old(base.tickets), old(view).queue, base.queue, base.tickets, view.queue)
    {
      ok := true;
      if e in c.events {
        ok := TriggerEvent(c, e);
        view := view.(lost := view.lost + 1);
      }
    }

    method TriggerIfHappened(c: FdContext, happened: set<Event>, e: Event) returns (ok: bool)
      requires Agrees() && c.fd < |fdContexts| && fdContexts[c.fd] == c
      modifies base`queue, base`tickets, this`pending, this`view, c`events, c`read, c`write
      ensures var t := EventSpec.TriggerIfHappened(old(view), c.fd, happened, e); ok == t.Done? && (ok ==> Agrees() && view == t.state)
      ensures ok ==> Handed(old(base.queue), old(base.tickets), old(view).queue, base.queue, base.tickets, view.queue)
    {
      ok := true;
      if e in happened {
        ok := TriggerAndCount(c, e);
      }
    }

    method TriggerAndCount(c: FdContext, e: Event) returns (ok: bool)
      requires Agrees() && c.fd < |fdContexts| && fdContexts[c.fd] == c
      modifies base`queue, base`tickets, this`pending, this`view, c`events, c`read, c`write
      ensures var t := EventSpec.TriggerAndCount(old(view), c.fd, e); ok == t.Done? && (ok ==> Agrees() && view == t.state)
      ensures ok ==> Handed(old(base.queue), old(base.tickets), old(view).queue, base.queue, base.tickets, view.queue)
    {
      ok := TriggerEvent(c, e);
      if ok {
        pending := pending - 1;
        view := view.(pending := pending);
      }
    }

    /** The common part of addEvent, delEvent and the rest: tell the kernel. */
    method EpollCtl(op: CtlOp, fd: nat, mask: set<Event>, willing: bool) returns (rt: bool)
      requires Agrees()
      modifies this`epoll, this`view
      ensures Agrees() && rt == Ctl(old(view).epoll, op, fd, mask, willing).Some?
      ensures view == if rt then old(view).(epoll := Ctl(old(view).epoll, op, fd, mask, willing).value) else old(view)
    {
      rt := willing && (op.CtlAdd? <==> fd !in epoll);
      if rt {
        epoll := if op.CtlDel? then epoll - {fd} else epoll[fd := mask];
        view := view.(epoll := epoll);
      }
    }

    /** addEvent; `self` is the fiber that calls it. */
    method AddEvent(fd: nat, e: Event, cb: Option<nat>, self: nat, willing: bool) returns (r: Option<bool>)
      requires Valid() && (cb.None? ==> self in base.fibers)
      modifies this`fdContexts, this`epoll, this`pending, this`view, fdContexts
      ensures var o := EventSpec.AddEvent(old(view), fd, e, if cb.Some? then SchedulerSpec.Call(cb.value) else SchedulerSpec.Resume(self), willing);
              (r.None? <==> o.Aborted?) && (r.Some? ==> Valid() && view == o.state && r.value == o.ok)
    {
      ghost var s := view;
      ReachKeeps(s, fd);
      if |fdContexts| <= fd {
        ContextResize(fd * 3 / 2);
      }
      assert view == Reach(s, fd);
      assert fdContexts[fd] in fdContexts;
      r := Arm(fdContexts[fd], e, if cb.Some? then SchedulerSpec.Call(cb.value) else SchedulerSpec.Resume(self), willing);
    }

    /** The rest of addEvent, once the descriptor has a context. */
    method Arm(c: FdContext, e: Event, job: Job, willing: bool) returns (r: Option<bool>)
      requires Valid() && c.fd < |fdContexts| && fdContexts[c.fd] == c && SlotKnown(Slot(true, Some(job)), base.fibers.Keys)
      modifies this`epoll, this`pending, this`view, c`events, c`read, c`write
      ensures var o := EventSpec.AddEvent(old(view), c.fd, e, job, willing);
              (r.None? <==> o.Aborted?) && (r.Some? ==> Valid() && view == o.state && r.value == o.ok)
    {
      if e in c.events {
        return None;
      }
      ghost var o := EventSpec.AddEvent(view, c.fd, e, job, willing);
      if o.Done? {
        AddKeeps(view, c.fd, e, job, willing);
      }
      hide Inv;
      hide Resized;
      hide EventSpec.Enlist;
      assert c.Value() == view.contexts[c.fd] && |fdContexts| == |view.contexts|;
      hide Agrees;
      var rt := EpollCtl(if c.events != {} then CtlMod else CtlAdd, c.fd, c.events + {e}, willing);
      if !rt {
        return Some(false);
      }
      var ok := Enlist(c, e, job);
      r := if ok then Some(true) else None;
    }

    /** and the kernel has agreed. */
    method Enlist(c: FdContext, e: Event, job: Job) returns (ok: bool)
      requires Agrees() && c.fd < |fdContexts| && fdContexts[c.fd] == c && SlotKnown(Slot(true, Some(job)), base.fibers.Keys)
      modifies this`pending, this`view, c`events, c`read, c`write
      ensures var t := EventSpec.Enlist(old(view), c.fd, e, job); ok == t.Done? && (ok ==> Agrees() && view == t.state)
    {
      pending := pending + 1;
      c.events := c.events + {e};
      var ctx := if e.READ? then c.read else c.write;
      if ctx != EMPTY {
        return false;
      }
      c.SetSlot(e, Slot(true, Some(job)));
      view := view.(contexts := view.contexts[c.fd := c.Value()], pending := pending, accepted := view.accepted + multiset{job});
      ok := true;
    }

    method DelEvent(fd: nat, e: Event, willing: bool) returns (r: bool)
      requires Valid()
      modifies this`epoll, this`pending, this`view, fdContexts
      ensures Valid() && EventSpec.DelEvent(old(view), fd, e, willing) == Done(view, r)
    {
      if |fdContexts| <= fd {
        return false;
      }
      var c := fdContexts[fd];
      if e !in c.events {
        return false;
      }
      DelKeeps(view, fd, e, willing);
      hide Inv;
      hide EventSpec.Disarm;
      assert c.Value() == view.contexts[fd] && |fdContexts| == |view.contexts| && c.fd == fd;
      hide Agrees;
      var left := c.events - {e};
      r := EpollCtl(if left != {} then CtlMod else CtlDel, fd, left, willing);
      if r {
        Disarm(c, e);
      }
    }

    /** The rest of delEvent, once the kernel has agreed. */
    method Disarm(c: FdContext, e: Event)
      requires Agrees() && c.fd < |fdContexts| && fdContexts[c.fd] == c
      modifies this`pending, this`view, c`events, c`read, c`write
      ensures Agrees() && view == EventSpec.Disarm(old(view), c.fd, e)
    {
      pending := pending - 1;
      c.events := c.events - {e};
      c.SetSlot(e, EMPTY);
      view := view.(contexts := view.contexts[c.fd := c.Value()], pending := pending, deleted := view.deleted + JobOf(old(c.Value()).Of(e)));
    }

    method CancelEvent(fd: nat, e: Event, willing: bool) returns (r: bool)
      requires Valid()
      modifies this`epoll, base`queue, base`tickets, this`pending, this`view, fdContexts
      ensures Valid() && EventSpec.CancelEvent(old(view), fd, e, willing) == Done(view, r)
      ensures Handed(old(base.queue), old(base.tickets), old(view).queue, base.queue, base.tickets, view.queue)
    {
      if |fdContexts| <= fd {
        return false;
      }
      var c := fdContexts[fd];
      if e !in c.events {
        return false;
      }
      CancelKeeps(view, fd, e, willing);
      hide Inv;
      hide EventSpec.TriggerAndCount;
      var left := c.events - {e};
      var rt := EpollCtl(if left != {} then CtlMod else CtlDel, fd, left, willing);
      if !rt {
        return false;
      }
      r := TriggerAndCount(c, e);
    }

    method CancelAll(fd: nat, willing: bool) returns (r: bool)
      requires Valid()
      modifies base`queue, base`tickets, this`epoll, this`view, fdContexts
      ensures Valid() && EventSpec.CancelAll(old(view), fd, willing) == Done(view, r)
      ensures Handed(old(base.queue), old(base.tickets), old(view).queue, base.queue, base.tickets, view.queue)
    {
      NothingHanded(base.queue, base.tickets, view.queue);
      if |fdContexts| <= fd {
        return false;
      }
      var c := fdContexts[fd];
      if c.events == {} {
        return false;
      }
      CancelAllKeeps(view, fd, willing);
      hide Inv;
      hide EventSpec.TriggerArmed;
      hide Handed;
      r := EpollCtl(CtlDel, fd, {}, willing);
      if r {
        var ok := TriggerArmed(c);
        assert ok && c.events == {};
      }
    }

    /** Lines 241-248. */
    method TriggerArmed(c: FdContext) returns (ok: bool)
      requires Agrees() && c.fd < |fdContexts| && fdContexts[c.fd] == c
      modifies base`queue, base`tickets, this`view, c`events, c`read, c`write
      ensures var t := EventSpec.TriggerArmed(old(view), c.fd); ok == t.Done? && (ok ==> Agrees() && view == t.state)
      ensures ok ==> Handed(old(base.queue), old(base.tickets), old(view).queue, base.queue, base.tickets, view.queue)
    {
      hide Handed;
      hide EventSpec.TriggerIfArmed;
      ok := TriggerIfArmed(c, READ);
      if ok {
        ghost var q, t, jobs := base.queue, base.tickets, view.queue;
        ok := TriggerIfArmed(c, WRITE);
        if ok {
          HandedTwice(old(base.queue), old(base.tickets), old(view).queue, q, t, jobs, base.queue, base.tickets, view.queue);
        }
      }
    }

    /** One turn of the dispatch loop in idle, for a descriptor epoll_wait has reported. */
    method Dispatch(fd: nat, reported: set<Event>, hup: bool, willing: bool) returns (ok: bool)
      requires Valid() && fd < |fdContexts|
      modifies this`epoll, base`queue, base`tickets, this`pending, this`view, fdContexts
      ensures var o := EventSpec.Dispatch(old(view), fd, reported, hup, willing);
              ok == o.Done? && (ok ==> Valid() && view == o.state)
      ensures ok ==> Handed(old(base.queue), old(base.tickets), old(view).queue, base.queue, base.tickets, view.queue)
    {
      DispatchAborts(view, fd, reported, hup, willing);
      NothingHanded(base.queue, base.tickets, view.queue);
      var c := fdContexts[fd];
      var happened := if hup then {READ, WRITE} else reported;
      if c.events * happened == {} {
        return true;
      }
      hide Inv;
      hide EventSpec.TriggerHappened;
      hide Handed;
      var left := c.events - happened;
      var rt := EpollCtl(if left != {} then CtlMod else CtlDel, fd, left, willing);
      if !rt {
        return true;
      }
      ok := TriggerHappened(c, happened);
    }

    /** Lines 389-398. */
    method TriggerHappened(c: FdContext, happened: set<Event>) returns (ok: bool)
      requires Agrees() && c.fd < |fdContexts| && fdContexts[c.fd] == c
      modifies base`queue, base`tickets, this`pending, this`view, c`events, c`read, c`write
      ensures var t := EventSpec.TriggerHappened(old(view), c.fd, happened); ok == t.Done? && (ok ==> Agrees() && view == t.state)
      ensures ok ==> Handed(old(base.queue), old(base.tickets), old(view).queue, base.queue, base.tickets, view.queue)
    {
      hide Handed;
      hide EventSpec.TriggerIfHappened;
      ok := TriggerIfHappened(c, happened, READ);
      if ok {
        ghost var q, t, jobs := base.queue, base.tickets, view.queue;
        ok := TriggerIfHappened(c, happened, WRITE);
        if ok {
          HandedTwice(old(base.queue), old(base.tickets), old(view).queue, q, t, jobs, base.queue, base.tickets, view.queue);
        }
      }
    }

    /** stopping(timeout): when it holds, nothing is armed, no timer exists and nothing is
        queued or being run. */
    method Stopping(now: nat) returns (yes: bool, timeout: Option<nat>)
      requires Valid() && timers.Valid()
      modifies timers`tickled
      ensures Valid() && timers.Valid()
      ensures yes ==> (forall fd, e :: !view.Armed(fd, e)) && (forall a :: !timers.Abs().Armed(a)) &&
                      SchedulerDrain.Stopping(base.View())
      ensures yes <==> timeout.None? && pending == 0 && SchedulerDrain.Stopping(base.View())
      ensures timeout.None? <==> forall a :: !timers.Abs().Armed(a)
    {
      timeout := timers.GetNextTimer(now);
      assert forall a :: timers.Abs().Armed(a) <==> old(timers.Abs()).Armed(a);
      yes := timeout.None? && pending == 0 && base.stopping && base.queue == [] && base.active == 0;
      forall fd, e | pending == 0 ensures !view.Armed(fd, e) {
        if view.Armed(fd, e) {
          ArmedCounts(view, fd, e);
        }
      }
    }
  }
}
