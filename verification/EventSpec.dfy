/** What IOManager's event bookkeeping does, on values: the event bits and slots of each
    descriptor, the interest mask epoll keeps, and the count of pending events. Line
    numbers are those of fatdog/iomanager.cpp. */
module EventSpec {
  import opened Codec
  import SchedulerSpec

  datatype Event = READ | WRITE

  /** What an event schedules: the callback it was given, or the fiber that waits. */
  type Job = SchedulerSpec.Job

  /** FdContext::EventContext: whether its scheduler is set, and the callback or fiber. */
  datatype Slot = Slot(scheduler: bool, job: Option<Job>)

  const EMPTY := Slot(false, None)

  datatype Context = Context(events: set<Event>, read: Slot, write: Slot)
  {
    /** getContext */
    function Of(e: Event): Slot { if e.READ? then read else write }

    function With(e: Event, slot: Slot): Context
    {
      if e.READ? then this.(read := slot) else this.(write := slot)
    }
  }

  /** `queue` are the jobs that were scheduled, in order; `accepted` and `deleted` those
      that addEvent took and delEvent dropped; `lost` counts what cancelAll triggered
      without counting it down. */
  datatype State = State(contexts: seq<Context>, epoll: map<nat, set<Event>>, pending: int, queue: seq<Job>,
                         accepted: multiset<Job>, deleted: multiset<Job>, lost: nat)
  {
    predicate Armed(fd: nat, e: Event)
    {
      fd < |contexts| && e in contexts[fd].events
    }

    function WithContext(fd: nat, c: Context): State
      requires fd < |contexts|
    {
      this.(contexts := contexts[fd := c])
    }
  }

  /** A failed assertion ends the run. */
  datatype Outcome = Done(state: State, ok: bool) | Aborted

  // ---------- epoll_ctl ----------

  datatype CtlOp = CtlAdd | CtlMod | CtlDel

  /** The kernel refuses to add what is there and to change what is not; besides, it may
      fail for reasons of its own. A failed call changes nothing. */
  function Ctl(epoll: map<nat, set<Event>>, op: CtlOp, fd: nat, mask: set<Event>, willing: bool): Option<map<nat, set<Event>>>
  {
    if !willing || (op.CtlAdd? <==> fd in epoll) then None
    else Some(if op.CtlDel? then epoll - {fd} else epoll[fd := mask])
  }

  // ---------- operations ----------

  /** contextResize */
  function Resized(cs: seq<Context>, size: nat): (r: seq<Context>)
    ensures |r| == size && forall i :: 0 <= i < size ==> r[i] == if i < |cs| then cs[i] else Context({}, EMPTY, EMPTY)
  {
    if size <= |cs| then cs[..size] else cs + seq(size - |cs|, _ => Context({}, EMPTY, EMPTY))
  }

  /** The table long enough for fd, as addEvent makes it. */
  function Reach(s: State, fd: nat): State
  {
    if |s.contexts| > fd then s else s.(contexts := Resized(s.contexts, fd * 3 / 2))
  }

  function AddEvent(s: State, fd: nat, e: Event, job: Job, willing: bool): Outcome
    requires |s.contexts| >= 32
  {
    var r := Reach(s, fd);
    var c := r.contexts[fd];
    if e in c.events then Aborted
    else
      var mask := c.events + {e};
      var ctl := Ctl(r.epoll, if c.events != {} then CtlMod else CtlAdd, fd, mask, willing);
      if ctl.None? then Done(r, false)
      else Enlist(r.(epoll := ctl.value), fd, e, job)
  }

  /** Lines 128-143, once the kernel has agreed. */
  function Enlist(s: State, fd: nat, e: Event, job: Job): Outcome
    requires fd < |s.contexts|
  {
    var c := s.contexts[fd];
    if c.Of(e) != EMPTY then Aborted
    else Done(s.WithContext(fd, c.(events := c.events + {e}).With(e, Slot(true, Some(job))))
              .(pending := s.pending + 1, accepted := s.accepted + multiset{job}), true)
  }

  /** The call that delEvent, cancelEvent and the dispatch loop make to take events away. */
  function Unarm(s: State, fd: nat, left: set<Event>, willing: bool): Option<map<nat, set<Event>>>
  {
    Ctl(s.epoll, if left != {} then CtlMod else CtlDel, fd, left, willing)
  }

  function JobOf(slot: Slot): multiset<Job>
  {
    if slot.job.Some? then multiset{slot.job.value} else multiset{}
  }

  function DelEvent(s: State, fd: nat, e: Event, willing: bool): Outcome
  {
    if !s.Armed(fd, e) then Done(s, false)
    else
      var c := s.contexts[fd];
      var ctl := Unarm(s, fd, c.events - {e}, willing);
      if ctl.None? then Done(s, false) else Done(Disarm(s.(epoll := ctl.value), fd, e), true)
  }

  /** Lines 174-177, once the kernel has agreed. */
  function Disarm(s: State, fd: nat, e: Event): State
    requires fd < |s.contexts|
  {
    var c := s.contexts[fd];
    s.WithContext(fd, c.(events := c.events - {e}).With(e, EMPTY)).(pending := s.pending - 1, deleted := s.deleted + JobOf(c.Of(e)))
  }

  /** triggerEvent: the slot loses its scheduler, but not its callback or fiber. */
  function Trigger(s: State, fd: nat, e: Event): Outcome
    requires fd < |s.contexts|
  {
    var c := s.contexts[fd];
    if e !in c.events || c.Of(e).job.None? then Aborted
    else Done(s.WithContext(fd, c.(events := c.events - {e}).With(e, c.Of(e).(scheduler := false)))
              .(queue := s.queue + [c.Of(e).job.value]), true)
  }

  function CancelEvent(s: State, fd: nat, e: Event, willing: bool): Outcome
  {
    if !s.Armed(fd, e) then Done(s, false)
    else
      var ctl := Unarm(s, fd, s.contexts[fd].events - {e}, willing);
      if ctl.None? then Done(s, false)
      else TriggerAndCount(s.(epoll := ctl.value), fd, e)
  }

  /** cancelAll: the count stays as it was. */
  function CancelAll(s: State, fd: nat, willing: bool): Outcome
  {
    if fd >= |s.contexts| || s.contexts[fd].events == {} then Done(s, false)
    else
      var ctl := Ctl(s.epoll, CtlDel, fd, {}, willing);
      if ctl.None? then Done(s, false)
      else TriggerArmed(s.(epoll := ctl.value), fd)
  }

  /** Lines 241-248. */
  function TriggerArmed(s: State, fd: nat): Outcome
    requires fd < |s.contexts|
  {
    var r := TriggerIfArmed(s, fd, READ);
    if r.Aborted? then Aborted else TriggerIfArmed(r.state, fd, WRITE)
  }

  function TriggerIfArmed(s: State, fd: nat, e: Event): (o: Outcome)
    requires fd < |s.contexts|
    ensures o.Done? ==> |o.state.contexts| == |s.contexts|
  {
    if e in s.contexts[fd].events then
      var t := Trigger(s, fd, e);
      if t.Aborted? then Aborted else Done(t.state.(lost := s.lost + 1), true)
    else Done(s, true)
  }

  /** Lines 357-370: an error or hang-up counts as both events, armed or not. */
  function RealEvents(reported: set<Event>, hup: bool): set<Event>
  {
    if hup then {READ, WRITE} else reported
  }

  /** One turn of the dispatch loop. */
  function Dispatch(s: State, fd: nat, reported: set<Event>, hup: bool, willing: bool): Outcome
    requires fd < |s.contexts|
  {
    var happened, events := RealEvents(reported, hup), s.contexts[fd].events;
    if events * happened == {} then Done(s, true)
    else
      var ctl := Unarm(s, fd, events - happened, willing);
      if ctl.None? then Done(s, true)
      else TriggerHappened(s.(epoll := ctl.value), fd, happened)
  }

  /** Lines 389-398. */
  function TriggerHappened(s: State, fd: nat, happened: set<Event>): Outcome
    requires fd < |s.contexts|
  {
    var r := TriggerIfHappened(s, fd, happened, READ);
    if r.Aborted? then Aborted else TriggerIfHappened(r.state, fd, happened, WRITE)
  }

  function TriggerIfHappened(s: State, fd: nat, happened: set<Event>, e: Event): (o: Outcome)
    requires fd < |s.contexts|
    ensures o.Done? ==> |o.state.contexts| == |s.contexts|
  {
    if e in happened then TriggerAndCount(s, fd, e) else Done(s, true)
  }

  function TriggerAndCount(s: State, fd: nat, e: Event): (o: Outcome)
    requires fd < |s.contexts|
    ensures o.Done? ==> |o.state.contexts| == |s.contexts|
  {
    var t := Trigger(s, fd, e);
    if t.Aborted? then Aborted else Done(t.state.(pending := t.state.pending - 1), true)
  }

  // ---------- the invariant ----------

  function CountArmed(cs: seq<Context>): nat
  {
    if cs == [] then 0 else |cs[0].events| + CountArmed(cs[1..])
  }

  lemma {:induction false} CountChange(cs: seq<Context>, i: nat, c: Context)
    requires i < |cs|
    ensures CountArmed(cs[i := c]) == CountArmed(cs) - |cs[i].events| + |c.events|
  {
    if i == 0 {
      assert cs[0 := c][1..] == cs[1..];
    } else {
      assert cs[i := c][1..] == cs[1..][i - 1 := c];
      CountChange(cs[1..], i - 1, c);
    }
  }

  lemma {:induction false} CountResized(cs: seq<Context>, r: seq<Context>)
    requires cs <= r && forall i :: |cs| <= i < |r| ==> r[i].events == {}
    ensures CountArmed(r) == CountArmed(cs)
  {
    if r == [] {
    } else if cs == [] {
      CountResized([], r[1..]);
    } else {
      CountResized(cs[1..], r[1..]);
    }
  }

  /** An armed slot has its scheduler and its job, one that is not has no scheduler. */
  predicate SlotsAgree(c: Context)
  {
    forall e :: c.Of(e).scheduler == (e in c.events) && (e in c.events ==> c.Of(e).job.Some?)
  }

  /** The mask epoll has for a descriptor is its event bits. */
  predicate MaskAgrees(s: State, fd: nat)
    requires fd < |s.contexts|
  {
    if s.contexts[fd].events == {} then fd !in s.epoll
    else fd in s.epoll && s.epoll[fd] == s.contexts[fd].events
  }

  predicate Inv(s: State)
  {
    |s.contexts| >= 32 &&
    (forall fd :: 0 <= fd < |s.contexts| ==> SlotsAgree(s.contexts[fd]) && MaskAgrees(s, fd)) &&
    (forall fd <- s.epoll :: fd < |s.contexts|) &&
    s.pending == CountArmed(s.contexts) + s.lost
  }

  lemma ArmedCounts(s: State, fd: nat, e: Event)
    requires s.Armed(fd, e)
    ensures CountArmed(s.contexts) > 0
  {
    CountChange(s.contexts, fd, s.contexts[fd].(events := {}));
  }

  // ---------- every operation keeps it ----------

  /** epoll_ctl is asked for what epoll can do, so it fails only when it will. */
  lemma CtlFits(s: State, fd: nat, e: Event, willing: bool)
    requires Inv(s) && fd < |s.contexts|
    ensures var events := s.contexts[fd].events;
            (Ctl(s.epoll, if events != {} then CtlMod else CtlAdd, fd, events + {e}, willing).Some? <==> willing) &&
            (events != {} ==> forall left :: Unarm(s, fd, left, willing).Some? <==> willing)
  {
  }

  lemma ReachKeeps(s: State, fd: nat)
    requires Inv(s)
    ensures Inv(Reach(s, fd)) && fd < |Reach(s, fd).contexts|
    ensures s.contexts <= Reach(s, fd).contexts && Reach(s, fd).pending == s.pending && Reach(s, fd).epoll == s.epoll
  {
    if |s.contexts| <= fd {
      CountResized(s.contexts, Resized(s.contexts, fd * 3 / 2));
    }
  }

  lemma AddKeeps(s: State, fd: nat, e: Event, job: Job, willing: bool)
    requires Inv(s) && AddEvent(s, fd, e, job, willing).Done?
    ensures Inv(AddEvent(s, fd, e, job, willing).state)
  {
    ReachKeeps(s, fd);
    var r := Reach(s, fd);
    assert AddEvent(s, fd, e, job, willing) == AddEvent(r, fd, e, job, willing) by {
      hide Ctl;
      hide Resized;
    }
    hide Reach;
    AddInReach(r, fd, e, job, willing);
  }

  /** One context changes, and the kernel and the count follow. */
  lemma InvWith(s: State, t: State, fd: nat, d: Context)
    requires Inv(s) && fd < |s.contexts| && t.contexts == s.contexts[fd := d] && SlotsAgree(d) && t.lost == s.lost
    requires t.epoll == if d.events == {} then s.epoll - {fd} else s.epoll[fd := d.events]
    requires t.pending - s.pending == |d.events| - |s.contexts[fd].events|
    ensures Inv(t)
  {
    CountChange(s.contexts, fd, d);
    forall f | 0 <= f < |t.contexts| ensures SlotsAgree(t.contexts[f]) && MaskAgrees(t, f) {
      assert f != fd ==> SlotsAgree(s.contexts[f]) && MaskAgrees(s, f);
    }
  }

  /** when the table is long enough. */
  lemma AddInReach(s: State, fd: nat, e: Event, job: Job, willing: bool)
    requires Inv(s) && fd < |s.contexts| && AddEvent(s, fd, e, job, willing).Done?
    ensures Inv(AddEvent(s, fd, e, job, willing).state)
  {
    hide Resized;
    var c, o := s.contexts[fd], AddEvent(s, fd, e, job, willing);
    if o.ok {
      assert SlotsAgree(c);
      InvWith(s, o.state, fd, c.(events := c.events + {e}).With(e, Slot(true, Some(job))));
    }
  }

  lemma DelKeeps(s: State, fd: nat, e: Event, willing: bool)
    requires Inv(s) && DelEvent(s, fd, e, willing).Done?
    ensures Inv(DelEvent(s, fd, e, willing).state)
  {
    hide JobOf;
    var o := DelEvent(s, fd, e, willing);
    if o.ok {
      var c := s.contexts[fd];
      assert SlotsAgree(c);
      InvWith(s, o.state, fd, c.(events := c.events - {e}).With(e, EMPTY));
    }
  }

  /** In the middle of an operation on fd: the mask is already `mask`. */
  predicate Midway(s: State, fd: nat, mask: set<Event>, owed: int)
  {
    |s.contexts| >= 32 && fd < |s.contexts| && mask <= s.contexts[fd].events &&
    (forall d :: 0 <= d < |s.contexts| ==> SlotsAgree(s.contexts[d]) && (d != fd ==> MaskAgrees(s, d))) &&
    (if mask == {} then fd !in s.epoll else fd in s.epoll && s.epoll[fd] == mask) &&
    (forall d <- s.epoll :: d < |s.contexts|) &&
    s.pending == CountArmed(s.contexts) + s.lost + owed
  }

  lemma TriggerKeeps(s: State, fd: nat, mask: set<Event>, owed: int, e: Event)
    requires Midway(s, fd, mask, owed) && e in s.contexts[fd].events && e !in mask
    ensures Trigger(s, fd, e).Done? && Midway(Trigger(s, fd, e).state, fd, mask, owed + 1)
    ensures Trigger(s, fd, e).state.contexts[fd].events == s.contexts[fd].events - {e}
  {
    var c := s.contexts[fd];
    assert c.Of(e).job.Some?;
    var d := c.(events := c.events - {e}).With(e, c.Of(e).(scheduler := false));
    CountChange(s.contexts, fd, d);
  }

  lemma CancelKeeps(s: State, fd: nat, e: Event, willing: bool)
    requires Inv(s)
    ensures CancelEvent(s, fd, e, willing).Done? && Inv(CancelEvent(s, fd, e, willing).state)
  {
    if s.Armed(fd, e) {
      var ctl := Unarm(s, fd, s.contexts[fd].events - {e}, willing);
      if ctl.Some? {
        var m := s.(epoll := ctl.value);
        assert Midway(m, fd, s.contexts[fd].events - {e}, 0);
        hide Trigger;
        TriggerKeeps(m, fd, s.contexts[fd].events - {e}, 0, e);
      }
    }
  }

  lemma LoseKeeps(s: State, fd: nat, e: Event)
    requires Midway(s, fd, {}, 0)
    ensures TriggerIfArmed(s, fd, e).Done? && TriggerIfArmed(s, fd, e).ok && Midway(TriggerIfArmed(s, fd, e).state, fd, {}, 0)
    ensures TriggerIfArmed(s, fd, e).state.contexts[fd].events == s.contexts[fd].events - {e}
    ensures TriggerIfArmed(s, fd, e).state.lost == s.lost + if e in s.contexts[fd].events then 1 else 0
    ensures TriggerIfArmed(s, fd, e).state.pending == s.pending
  {
    if e in s.contexts[fd].events {
      TriggerKeeps(s, fd, {}, 0, e);
    }
  }

  lemma Both(events: set<Event>)
    ensures events - {READ} - {WRITE} == {}
    ensures |events| == (if READ in events then 1 else 0) + (if WRITE in events then 1 else 0)
  {
    forall e | e in events ensures e == READ || e == WRITE {
    }
    var r, w := if READ in events then {READ} else {}, if WRITE in events then {WRITE} else {};
    assert events == r + w && |r + w| == |r| + |w|;
  }

  lemma CancelTriggers(m: State, fd: nat)
    requires Midway(m, fd, {}, 0)
    ensures TriggerArmed(m, fd).Done? && TriggerArmed(m, fd).ok && Midway(TriggerArmed(m, fd).state, fd, {}, 0)
    ensures var t := TriggerArmed(m, fd).state;
            t.contexts[fd].events == {} && t.lost == m.lost + |m.contexts[fd].events| && t.pending == m.pending
  {
    assert fd < |m.contexts|;
    hide Midway;
    hide TriggerIfArmed;
    hide Trigger;
    var events, r := m.contexts[fd].events, TriggerIfArmed(m, fd, READ);
    LoseKeeps(m, fd, READ);
    LoseKeeps(r.state, fd, WRITE);
    assert TriggerArmed(m, fd) == TriggerIfArmed(r.state, fd, WRITE);
    hide TriggerArmed;
    Both(events);
  }

  /** cancelAll never fails its own assertions: it leaves nothing armed on fd. But what it
      triggered stays in the pending count. */
  lemma CancelAllKeeps(s: State, fd: nat, willing: bool)
    requires Inv(s)
    ensures CancelAll(s, fd, willing).Done? && Inv(CancelAll(s, fd, willing).state)
    ensures var t := CancelAll(s, fd, willing);
            t.ok ==> fd < |t.state.contexts| && t.state.contexts[fd].events == {} &&
                     t.state.lost == s.lost + |s.contexts[fd].events| > s.lost && t.state.pending == s.pending
  {
    if fd < |s.contexts| && s.contexts[fd].events != {} {
      var ctl := Ctl(s.epoll, CtlDel, fd, {}, willing);
      if ctl.Some? {
        CancelTriggers(s.(epoll := ctl.value), fd);
      }
    }
  }

  /** The dispatch loop fails an assertion exactly when it goes as far as to trigger an
      event that is not armed: an error or hang-up with only one of the two armed. */
  lemma DispatchAborts(s: State, fd: nat, reported: set<Event>, hup: bool, willing: bool)
    requires Inv(s) && fd < |s.contexts|
    ensures var happened, events := if hup then {READ, WRITE} else reported, s.contexts[fd].events;
            Dispatch(s, fd, reported, hup, willing).Aborted? <==>
            willing && (exists e <- happened :: e in events) && (exists e <- happened :: e !in events)
    ensures Dispatch(s, fd, reported, hup, willing).Done? ==> Inv(Dispatch(s, fd, reported, hup, willing).state)
  {
    hide Dispatch;
    hide Inv;
    DispatchUnarmed(s, fd, reported, hup, willing);
    SomeOf(RealEvents(reported, hup), s.contexts[fd].events);
  }

  lemma SomeOf(happened: set<Event>, events: set<Event>)
    ensures events * happened != {} <==> exists e <- happened :: e in events
    ensures !(happened <= events) <==> exists e <- happened :: e !in events
  {
    if events * happened != {} {
      var e :| e in events * happened;
      assert e in happened && e in events;
    }
    if e :| e in happened && e in events {
      assert e in events * happened;
    }
  }

  lemma DispatchUnarmed(s: State, fd: nat, reported: set<Event>, hup: bool, willing: bool)
    requires Inv(s) && fd < |s.contexts|
    ensures var happened, events := RealEvents(reported, hup), s.contexts[fd].events;
            Dispatch(s, fd, reported, hup, willing).Aborted? <==> willing && events * happened != {} && !(happened <= events)
    ensures Dispatch(s, fd, reported, hup, willing).Done? ==> Inv(Dispatch(s, fd, reported, hup, willing).state)
  {
    var happened, events := RealEvents(reported, hup), s.contexts[fd].events;
    var ctl := Unarm(s, fd, events - happened, willing);
    if events * happened != {} && ctl.Some? {
      DispatchTriggers(s.(epoll := ctl.value), fd, happened, events - happened);
    }
  }

  lemma Within(a: set<Event>, b: set<Event>)
    ensures a <= b <==> (READ in a ==> READ in b) && (WRITE in a ==> WRITE in b)
  {
    forall e | e in a ensures e == READ || e == WRITE {
    }
  }

  lemma DispatchTriggers(m: State, fd: nat, happened: set<Event>, left: set<Event>)
    requires fd < |m.contexts| && left == m.contexts[fd].events - happened && Midway(m, fd, left, 0)
    ensures TriggerHappened(m, fd, happened).Aborted? <==> !(happened <= m.contexts[fd].events)
    ensures TriggerHappened(m, fd, happened).Done? ==>
              var t := TriggerHappened(m, fd, happened).state; Midway(t, fd, left, 0) && t.contexts[fd].events == left
  {
    Within(happened, m.contexts[fd].events);
    CountsDown(m, fd, left, happened, READ);
    var r := TriggerIfHappened(m, fd, happened, READ);
    if r.Done? {
      CountsDown(r.state, fd, left, happened, WRITE);
      Removed(m.contexts[fd].events, happened);
    }
  }

  lemma Removed(events: set<Event>, happened: set<Event>)
    ensures var r := if READ in happened then events - {READ} else events;
            (if WRITE in happened then r - {WRITE} else r) == events - happened
  {
    var r := if READ in happened then events - {READ} else events;
    var w := if WRITE in happened then r - {WRITE} else r;
    forall e: Event ensures e in w <==> e in events - happened {
      assert e == READ || e == WRITE;
    }
  }

  lemma CountsDown(s: State, fd: nat, mask: set<Event>, happened: set<Event>, e: Event)
    requires Midway(s, fd, mask, 0) && mask !! happened
    ensures var t := TriggerIfHappened(s, fd, happened, e);
            if e in happened && e !in s.contexts[fd].events then t.Aborted?
            else t.Done? && Midway(t.state, fd, mask, 0) &&
                 t.state.contexts[fd].events == if e in happened then s.contexts[fd].events - {e} else s.contexts[fd].events
  {
    if e in happened && e in s.contexts[fd].events {
      TriggerKeeps(s, fd, mask, 0, e);
    }
  }

  // ---------- what an operation does to a descriptor ----------

  /** addEvent: the table is long enough, the event is armed with its job, one more event
      is pending, and nothing is scheduled. Without the kernel's consent only the table
      has grown. */
  lemma AddMeans(s: State, fd: nat, e: Event, job: Job, willing: bool)
    requires Inv(s) && AddEvent(s, fd, e, job, willing).Done?
    ensures var o := AddEvent(s, fd, e, job, willing);
            var t, cs := o.state, o.state.contexts;
            (o.ok <==> willing) && t.queue == s.queue && t.pending == s.pending + (if willing then 1 else 0) &&
            |cs| == (if fd < |s.contexts| then |s.contexts| else fd * 3 / 2) &&
            (forall f :: 0 <= f < |cs| && f != fd ==> cs[f] == if f < |s.contexts| then s.contexts[f] else Context({}, EMPTY, EMPTY)) &&
            var was := if fd < |s.contexts| then s.contexts[fd] else Context({}, EMPTY, EMPTY);
            fd < |cs| && cs[fd].events == (if willing then was.events + {e} else was.events) &&
            (willing ==> cs[fd].Of(e) == Slot(true, Some(job))) &&
            (cs[fd].read == was.read || (e == READ && willing)) && (cs[fd].write == was.write || (e == WRITE && willing))
  {
    ReachKeeps(s, fd);
    CtlFits(Reach(s, fd), fd, e, willing);
  }

  /** delEvent: an armed event is no longer armed or pending, and its job is forgotten. */
  lemma DelMeans(s: State, fd: nat, e: Event, willing: bool)
    requires Inv(s)
    ensures var o := DelEvent(s, fd, e, willing);
            o.Done? && (o.ok <==> willing && s.Armed(fd, e)) && (!o.ok ==> o.state == s) && o.state.queue == s.queue &&
            (o.ok ==> |o.state.contexts| == |s.contexts| && o.state.pending == s.pending - 1 &&
                      OneCleared(s.contexts[fd], o.state.contexts[fd], e, EMPTY) &&
                      forall f :: 0 <= f < |s.contexts| && f != fd ==> o.state.contexts[f] == s.contexts[f])
  {
    if s.Armed(fd, e) {
      CtlFits(s, fd, e, willing);
    }
  }

  /** An event bit is gone and its slot is `slot`; the other event is as it was. */
  predicate OneCleared(was: Context, c: Context, e: Event, slot: Slot)
  {
    c.events == was.events - {e} && c.Of(e) == slot && c.Of(if e.READ? then WRITE else READ) == was.Of(if e.READ? then WRITE else READ)
  }

  /** cancelEvent: an armed event is no longer armed or pending, and its job is scheduled. */
  lemma CancelMeans(s: State, fd: nat, e: Event, willing: bool)
    requires Inv(s)
    ensures var o := CancelEvent(s, fd, e, willing);
            o.Done? && (o.ok <==> willing && s.Armed(fd, e)) && (!o.ok ==> o.state == s) &&
            (o.ok ==> |o.state.contexts| == |s.contexts| && o.state.pending == s.pending - 1 &&
                      s.contexts[fd].Of(e).job.Some? && o.state.queue == s.queue + [s.contexts[fd].Of(e).job.value] &&
                      OneCleared(s.contexts[fd], o.state.contexts[fd], e, Slot(false, s.contexts[fd].Of(e).job)) &&
                      forall f :: 0 <= f < |s.contexts| && f != fd ==> o.state.contexts[f] == s.contexts[f])
  {
    CancelKeeps(s, fd, e, willing);
    if s.Armed(fd, e) {
      CtlFits(s, fd, e, willing);
    }
  }

  /** The jobs of the events of a descriptor for which `hit` holds, READ before WRITE. */
  function JobsHit(c: Context, read: bool, write: bool): seq<Job>
  {
    (if read && c.read.job.Some? then [c.read.job.value] else []) + (if write && c.write.job.Some? then [c.write.job.value] else [])
  }

  /** cancelAll: everything armed on the descriptor is scheduled, READ before WRITE. */
  lemma CancelAllMeans(s: State, fd: nat, willing: bool)
    requires Inv(s)
    ensures var o := CancelAll(s, fd, willing);
            o.Done? && (o.ok <==> willing && (s.Armed(fd, READ) || s.Armed(fd, WRITE))) && (!o.ok ==> o.state == s) &&
            (o.ok ==> |o.state.contexts| == |s.contexts| && o.state.pending == s.pending && o.state.contexts[fd].events == {} &&
                      (s.Armed(fd, READ) ==> s.contexts[fd].read.job.Some?) && (s.Armed(fd, WRITE) ==> s.contexts[fd].write.job.Some?) &&
                      o.state.queue == s.queue + JobsHit(s.contexts[fd], s.Armed(fd, READ), s.Armed(fd, WRITE)) &&
                      forall f :: 0 <= f < |s.contexts| && f != fd ==> o.state.contexts[f] == s.contexts[f])
  {
    CancelAllKeeps(s, fd, willing);
    if fd < |s.contexts| && s.contexts[fd].events != {} {
      Both(s.contexts[fd].events);
      CtlFits(s, fd, READ, willing);
      assert SlotsAgree(s.contexts[fd]);
      hide Inv;
      var ctl := Ctl(s.epoll, CtlDel, fd, {}, willing);
      if ctl.Some? {
        LoseBoth(s.(epoll := ctl.value), fd);
      }
    }
  }

  lemma LoseBoth(m: State, fd: nat)
    requires fd < |m.contexts| && SlotsAgree(m.contexts[fd])
    ensures var o, c := TriggerArmed(m, fd), m.contexts[fd];
            o.Done? && |o.state.contexts| == |m.contexts| &&
            o.state.queue == m.queue + JobsHit(c, READ in c.events, WRITE in c.events) &&
            forall f :: 0 <= f < |m.contexts| && f != fd ==> o.state.contexts[f] == m.contexts[f]
  {
    var c := m.contexts[fd];
    assert c.Of(READ) == c.read && c.Of(WRITE) == c.write;
    LoseOne(m, fd, READ);
    LoseOne(TriggerIfArmed(m, fd, READ).state, fd, WRITE);
  }

  lemma LoseOne(m: State, fd: nat, e: Event)
    requires fd < |m.contexts| && (e in m.contexts[fd].events ==> m.contexts[fd].Of(e).job.Some?)
    ensures var o, c := TriggerIfArmed(m, fd, e), m.contexts[fd];
            o.Done? && |o.state.contexts| == |m.contexts| &&
            (if e in c.events
             then OneCleared(c, o.state.contexts[fd], e, Slot(false, c.Of(e).job)) && o.state.queue == m.queue + [c.Of(e).job.value]
             else o.state.contexts[fd] == c && o.state.queue == m.queue) &&
            forall f :: 0 <= f < |m.contexts| && f != fd ==> o.state.contexts[f] == m.contexts[f]
  {
  }

  /** One turn of the dispatch loop, when the kernel consents: an event is hit if it is armed
      and was reported, or there was an error or hang-up. If none is hit nothing happens.
      Otherwise the hit ones are scheduled, READ before WRITE, and are no longer armed or
      pending, unless something was reported that is not armed: then an assertion fails. */
  lemma DispatchMeans(s: State, fd: nat, reported: set<Event>, hup: bool)
    requires Inv(s) && fd < |s.contexts|
    ensures var o, c := Dispatch(s, fd, reported, hup, true), s.contexts[fd];
            var read, write := READ in c.events && (hup || READ in reported), WRITE in c.events && (hup || WRITE in reported);
            if !read && !write then o == Done(s, true)
            else if (READ !in c.events && (hup || READ in reported)) || (WRITE !in c.events && (hup || WRITE in reported)) then o.Aborted?
            else o.Done? && |o.state.contexts| == |s.contexts| &&
                 (READ in o.state.contexts[fd].events <==> READ in c.events && !read) &&
                 (WRITE in o.state.contexts[fd].events <==> WRITE in c.events && !write) &&
                 (read ==> c.read.job.Some?) && (write ==> c.write.job.Some?) &&
                 (!read ==> o.state.contexts[fd].read == c.read) && (!write ==> o.state.contexts[fd].write == c.write) &&
                 o.state.queue == s.queue + JobsHit(c, read, write) &&
                 o.state.pending == s.pending - (if read then 1 else 0) - (if write then 1 else 0) &&
                 forall f :: 0 <= f < |s.contexts| && f != fd ==> o.state.contexts[f] == s.contexts[f]
    ensures Dispatch(s, fd, reported, hup, false) == Done(s, true)
  {
    var c, happened := s.contexts[fd], if hup then {READ, WRITE} else reported;
    DispatchAborts(s, fd, reported, hup, true);
    Within(happened, c.events);
    Meets(c.events, happened);
    assert SlotsAgree(c);
    var ctl := Unarm(s, fd, c.events - happened, true);
    if c.events * happened != {} && ctl.Some? && happened <= c.events {
      HitBoth(s.(epoll := ctl.value), fd, happened);
    }
  }

  lemma Meets(a: set<Event>, b: set<Event>)
    ensures a * b != {} <==> (READ in a && READ in b) || (WRITE in a && WRITE in b)
  {
    if a * b != {} {
      var e :| e in a * b;
      assert e == READ || e == WRITE;
    }
    assert READ in a && READ in b ==> READ in a * b;
    assert WRITE in a && WRITE in b ==> WRITE in a * b;
  }

  /** The two triggers, one after the other. */
  lemma HitBoth(m: State, fd: nat, happened: set<Event>)
    requires fd < |m.contexts| && happened <= m.contexts[fd].events && SlotsAgree(m.contexts[fd])
    ensures var o, c := TriggerHappened(m, fd, happened), m.contexts[fd];
            o.Done? && o.ok && |o.state.contexts| == |m.contexts| && o.state.contexts[fd].events == c.events - happened &&
            (READ !in happened ==> o.state.contexts[fd].read == c.read) && (WRITE !in happened ==> o.state.contexts[fd].write == c.write) &&
            o.state.queue == m.queue + JobsHit(c, READ in happened, WRITE in happened) &&
            o.state.pending == m.pending - (if READ in happened then 1 else 0) - (if WRITE in happened then 1 else 0) &&
            forall f :: 0 <= f < |m.contexts| && f != fd ==> o.state.contexts[f] == m.contexts[f]
  {
    var c := m.contexts[fd];
    assert c.Of(READ) == c.read && c.Of(WRITE) == c.write;
    Removed(c.events, happened);
    var r := TriggerIfHappened(m, fd, happened, READ);
    HitOne(m, fd, happened, READ);
    HitOne(r.state, fd, happened, WRITE);
  }

  lemma HitOne(m: State, fd: nat, happened: set<Event>, e: Event)
    requires fd < |m.contexts| && (e in happened ==> e in m.contexts[fd].events && m.contexts[fd].Of(e).job.Some?)
    ensures var o, c := TriggerIfHappened(m, fd, happened, e), m.contexts[fd];
            o.Done? && o.ok && |o.state.contexts| == |m.contexts| &&
            (if e in happened
             then OneCleared(c, o.state.contexts[fd], e, Slot(false, c.Of(e).job)) && o.state.queue == m.queue + [c.Of(e).job.value]
             else o.state.contexts[fd] == c && o.state.queue == m.queue) &&
            o.state.pending == m.pending - (if e in happened then 1 else 0) &&
            forall f :: 0 <= f < |m.contexts| && f != fd ==> o.state.contexts[f] == m.contexts[f]
  {
  }

  // ---------- arming again ----------

  /** addEvent fails an assertion exactly when the event is armed, or when its slot still
      has the callback or fiber of an event that was triggered. */
  lemma AddAborts(s: State, fd: nat, e: Event, job: Job, willing: bool)
    requires Inv(s)
    ensures AddEvent(s, fd, e, job, willing).Aborted? <==>
              s.Armed(fd, e) || (willing && fd < |s.contexts| && s.contexts[fd].Of(e).job.Some?)
    ensures AddEvent(s, fd, e, job, willing).Done? ==>
              var t := AddEvent(s, fd, e, job, willing);
              (t.ok <==> willing) && (t.ok ==> t.state.Armed(fd, e) && t.state.contexts[fd].Of(e).job == Some(job))
  {
    ReachKeeps(s, fd);
    var r := Reach(s, fd);
    CtlFits(r, fd, e, willing);
    assert SlotsAgree(r.contexts[fd]);
    assert r.contexts[fd].Of(e).scheduler <==> e in r.contexts[fd].events;
  }

  /** An event that was cancelled, and so triggered, cannot be armed again; one that was
      deleted can. */
  lemma ArmAgain(s: State, fd: nat, e: Event, job: Job)
    requires Inv(s) && s.Armed(fd, e)
    ensures var t := CancelEvent(s, fd, e, true);
            t.Done? && t.ok && t.state.queue == s.queue + [s.contexts[fd].Of(e).job.value] &&
            AddEvent(t.state, fd, e, job, true).Aborted?
    ensures var t := DelEvent(s, fd, e, true);
            t.Done? && t.ok && t.state.queue == s.queue && AddEvent(t.state, fd, e, job, true).Done?
  {
    var c := s.contexts[fd];
    assert SlotsAgree(c) && MaskAgrees(s, fd);
    CancelKeeps(s, fd, e, true);
    var t := CancelEvent(s, fd, e, true).state;
    AddAborts(t, fd, e, job, true);
    DelKeeps(s, fd, e, true);
    AddAborts(DelEvent(s, fd, e, true).state, fd, e, job, true);
  }

  // ---------- runs ----------

  datatype Op =
    | OpAdd(fd: nat, event: Event, job: Job)
    | OpDel(fd: nat, event: Event)
    | OpCancel(fd: nat, event: Event)
    | OpCancelAll(fd: nat)
    | OpDispatch(fd: nat, reported: set<Event>, hup: bool)

  /** An operation, and whether the kernel will do what it asks. */
  datatype Step = Step(op: Op, willing: bool)

  /** epoll reports descriptors that were handed to it. */
  predicate Possible(s: State, st: Step)
  {
    |s.contexts| >= 32 && (st.op.OpDispatch? ==> st.op.fd < |s.contexts|)
  }

  function After(s: State, st: Step): Outcome
    requires Possible(s, st)
  {
    match st.op
    case OpAdd(fd, e, job) => AddEvent(s, fd, e, job, st.willing)
    case OpDel(fd, e) => DelEvent(s, fd, e, st.willing)
    case OpCancel(fd, e) => CancelEvent(s, fd, e, st.willing)
    case OpCancelAll(fd) => CancelAll(s, fd, st.willing)
    case OpDispatch(fd, reported, hup) => Dispatch(s, fd, reported, hup, st.willing)
  }

  /** The run goes on as long as no assertion fails. */
  predicate Runs(s: State, run: seq<Step>)
    decreases |run|
  {
    run == [] || (Possible(s, run[0]) && After(s, run[0]).Done? && Runs(After(s, run[0]).state, run[1..]))
  }

  function Final(s: State, run: seq<Step>): State
    requires Runs(s, run)
    decreases |run|
  {
    if run == [] then s else Final(After(s, run[0]).state, run[1..])
  }

  lemma StepKeeps(s: State, st: Step)
    requires Inv(s) && Possible(s, st) && After(s, st).Done?
    ensures Inv(After(s, st).state)
  {
    match st.op
    case OpAdd(fd, e, job) => AddKeeps(s, fd, e, job, st.willing);
    case OpDel(fd, e) => DelKeeps(s, fd, e, st.willing);
    case OpCancel(fd, e) => CancelKeeps(s, fd, e, st.willing);
    case OpCancelAll(fd) => CancelAllKeeps(s, fd, st.willing);
    case OpDispatch(fd, reported, hup) => DispatchAborts(s, fd, reported, hup, st.willing);
  }

  /** What is lost stays lost. */
  lemma StepLoses(s: State, st: Step)
    requires Inv(s) && Possible(s, st) && After(s, st).Done?
    ensures After(s, st).state.lost >= s.lost
    ensures After(s, st).state.lost > s.lost <==> st.op.OpCancelAll? && After(s, st).ok
  {
    match st.op
    case OpCancelAll(fd) => CancelAllKeeps(s, fd, st.willing);
    case _ =>
  }

  lemma {:induction false} InvAlways(s: State, run: seq<Step>)
    requires Inv(s) && Runs(s, run)
    ensures Inv(Final(s, run)) && Final(s, run).lost >= s.lost
    decreases |run|
  {
    if run != [] {
      StepKeeps(s, run[0]);
      StepLoses(s, run[0]);
      InvAlways(After(s, run[0]).state, run[1..]);
    }
  }

  predicate Initial(s: State)
  {
    |s.contexts| == 32 && (forall c <- s.contexts :: c == Context({}, EMPTY, EMPTY)) &&
    s.epoll == map[] && s.pending == 0 && s.queue == [] && s.accepted == multiset{} && s.deleted == multiset{} && s.lost == 0
  }

  lemma InitialInv(s: State)
    requires Initial(s)
    ensures Inv(s)
  {
    assert s.contexts[0] in s.contexts;
    forall fd | 0 <= fd < |s.contexts| ensures SlotsAgree(s.contexts[fd]) && MaskAgrees(s, fd) && s.contexts[fd].events == {} {
      assert s.contexts[fd] in s.contexts;
    }
    CountResized([], s.contexts);
  }

  // ---------- what becomes of the jobs ----------

  /** The jobs of the armed events. */
  function ArmedIn(c: Context): multiset<Job>
  {
    (if READ in c.events then JobOf(c.read) else multiset{}) + (if WRITE in c.events then JobOf(c.write) else multiset{})
  }

  function ArmedJobs(cs: seq<Context>): multiset<Job>
  {
    if cs == [] then multiset{} else ArmedIn(cs[0]) + ArmedJobs(cs[1..])
  }

  lemma {:induction false} JobsChange(cs: seq<Context>, i: nat, c: Context)
    requires i < |cs|
    ensures ArmedJobs(cs[i := c]) + ArmedIn(cs[i]) == ArmedJobs(cs) + ArmedIn(c)
  {
    hide ArmedIn;
    if i == 0 {
      assert cs[0 := c][1..] == cs[1..];
    } else {
      assert cs[i := c][1..] == cs[1..][i - 1 := c];
      JobsChange(cs[1..], i - 1, c);
      Sums(ArmedIn(cs[0]), ArmedJobs(cs[i := c][1..]), ArmedJobs(cs[1..]), ArmedIn(cs[i]), ArmedIn(c));
    }
  }

  lemma Sums(a: multiset<Job>, b: multiset<Job>, c: multiset<Job>, x: multiset<Job>, y: multiset<Job>)
    requires b + x == c + y
    ensures a + b + x == a + c + y
  {
    assert a + b + x == a + (b + x) && a + c + y == a + (c + y);
  }

  /** With one context's jobs changed from x to y, there are j fewer. */
  lemma Fewer(a: multiset<Job>, b: multiset<Job>, x: multiset<Job>, y: multiset<Job>, j: multiset<Job>)
    requires b + x == a + y && x == y + j
    ensures a == b + j
  {
    forall e ensures a[e] == (b + j)[e] {
      assert (b + x)[e] == (a + y)[e] && x[e] == (y + j)[e];
    }
  }

  /** The jobs accepted are those armed, those scheduled and those deleted. */
  predicate JobsAgree(cs: seq<Context>, queue: seq<Job>, accepted: multiset<Job>, deleted: multiset<Job>)
  {
    accepted == ArmedJobs(cs) + multiset(queue) + deleted
  }

  lemma JobsAdded(cs: seq<Context>, queue: seq<Job>, accepted: multiset<Job>, deleted: multiset<Job>, i: nat, c: Context, job: Job)
    requires JobsAgree(cs, queue, accepted, deleted) && i < |cs| && ArmedIn(c) == ArmedIn(cs[i]) + multiset{job}
    ensures JobsAgree(cs[i := c], queue, accepted + multiset{job}, deleted)
  {
    hide ArmedIn;
    JobsChange(cs, i, c);
    Fewer(ArmedJobs(cs[i := c]), ArmedJobs(cs), ArmedIn(c), ArmedIn(cs[i]), multiset{job});
  }

  lemma JobsScheduled(cs: seq<Context>, queue: seq<Job>, accepted: multiset<Job>, deleted: multiset<Job>, i: nat, c: Context, job: Job)
    requires JobsAgree(cs, queue, accepted, deleted) && i < |cs| && ArmedIn(cs[i]) == ArmedIn(c) + multiset{job}
    ensures JobsAgree(cs[i := c], queue + [job], accepted, deleted)
  {
    hide ArmedIn;
    JobsChange(cs, i, c);
    Fewer(ArmedJobs(cs), ArmedJobs(cs[i := c]), ArmedIn(cs[i]), ArmedIn(c), multiset{job});
    assert multiset(queue + [job]) == multiset(queue) + multiset{job};
  }

  lemma JobsDeleted(cs: seq<Context>, queue: seq<Job>, accepted: multiset<Job>, deleted: multiset<Job>, i: nat, c: Context, j: multiset<Job>)
    requires JobsAgree(cs, queue, accepted, deleted) && i < |cs| && ArmedIn(cs[i]) == ArmedIn(c) + j
    ensures JobsAgree(cs[i := c], queue, accepted, deleted + j)
  {
    hide ArmedIn;
    JobsChange(cs, i, c);
    Fewer(ArmedJobs(cs), ArmedJobs(cs[i := c]), ArmedIn(cs[i]), ArmedIn(c), j);
  }

  lemma JobsWith(c: Context, e: Event, slot: Slot)
    ensures var d := c.(events := c.events + {e}).With(e, slot); e !in c.events ==> ArmedIn(d) == ArmedIn(c) + JobOf(slot)
    ensures var d := c.(events := c.events - {e}).With(e, slot); e in c.events ==> ArmedIn(c) == ArmedIn(d) + JobOf(c.Of(e))
  {
  }

  lemma {:induction false} JobsResized(cs: seq<Context>, r: seq<Context>)
    requires cs <= r && forall i :: |cs| <= i < |r| ==> r[i].events == {}
    ensures ArmedJobs(r) == ArmedJobs(cs)
  {
    if r == [] {
    } else if cs == [] {
      JobsResized([], r[1..]);
    } else {
      JobsResized(cs[1..], r[1..]);
    }
  }

  predicate Accounted(s: State)
  {
    JobsAgree(s.contexts, s.queue, s.accepted, s.deleted)
  }

  lemma AddAccounts(s: State, fd: nat, e: Event, job: Job, willing: bool)
    requires Accounted(s) && |s.contexts| >= 32 && AddEvent(s, fd, e, job, willing).Done?
    ensures Accounted(AddEvent(s, fd, e, job, willing).state)
  {
    var r := Reach(s, fd);
    if |s.contexts| <= fd {
      JobsResized(s.contexts, r.contexts);
    }
    if AddEvent(s, fd, e, job, willing).ok {
      var c := r.contexts[fd];
      JobsWith(c, e, Slot(true, Some(job)));
      JobsAdded(r.contexts, r.queue, r.accepted, r.deleted, fd, c.(events := c.events + {e}).With(e, Slot(true, Some(job))), job);
    }
  }

  lemma DelAccounts(s: State, fd: nat, e: Event, willing: bool)
    requires Accounted(s) && DelEvent(s, fd, e, willing).Done?
    ensures Accounted(DelEvent(s, fd, e, willing).state)
  {
    if DelEvent(s, fd, e, willing).ok {
      var c := s.contexts[fd];
      JobsWith(c, e, EMPTY);
      JobsDeleted(s.contexts, s.queue, s.accepted, s.deleted, fd, c.(events := c.events - {e}).With(e, EMPTY), JobOf(c.Of(e)));
    }
  }

  lemma TriggerAccounts(s: State, fd: nat, e: Event)
    requires Accounted(s) && fd < |s.contexts| && Trigger(s, fd, e).Done?
    ensures Accounted(Trigger(s, fd, e).state)
  {
    var c := s.contexts[fd];
    JobsWith(c, e, c.Of(e).(scheduler := false));
    JobsScheduled(s.contexts, s.queue, s.accepted, s.deleted, fd,
                  c.(events := c.events - {e}).With(e, c.Of(e).(scheduler := false)), c.Of(e).job.value);
  }

  lemma CancelAllAccounts(s: State, fd: nat, willing: bool)
    requires Accounted(s) && CancelAll(s, fd, willing).Done?
    ensures Accounted(CancelAll(s, fd, willing).state)
  {
    hide Trigger;
    hide JobsAgree;
    if CancelAll(s, fd, willing).ok {
      var m := s.(epoll := Ctl(s.epoll, CtlDel, fd, {}, willing).value);
      if READ in m.contexts[fd].events {
        TriggerAccounts(m, fd, READ);
      }
      var r := TriggerIfArmed(m, fd, READ).state;
      if WRITE in r.contexts[fd].events {
        TriggerAccounts(r, fd, WRITE);
      }
    }
  }

  lemma DispatchAccounts(s: State, fd: nat, reported: set<Event>, hup: bool, willing: bool)
    requires Accounted(s) && fd < |s.contexts| && Dispatch(s, fd, reported, hup, willing).Done?
    ensures Accounted(Dispatch(s, fd, reported, hup, willing).state)
  {
    hide Trigger;
    hide JobsAgree;
    var happened, events := RealEvents(reported, hup), s.contexts[fd].events;
    var ctl := Unarm(s, fd, events - happened, willing);
    if events * happened != {} && ctl.Some? {
      var m := s.(epoll := ctl.value);
      if READ in happened {
        TriggerAccounts(m, fd, READ);
      }
      var r := TriggerIfHappened(m, fd, happened, READ).state;
      if WRITE in happened {
        TriggerAccounts(r, fd, WRITE);
      }
    }
  }

  lemma CancelAccounts(s: State, fd: nat, e: Event, willing: bool)
    requires Accounted(s) && CancelEvent(s, fd, e, willing).Done?
    ensures Accounted(CancelEvent(s, fd, e, willing).state)
  {
    hide Trigger;
    hide JobsAgree;
    if s.Armed(fd, e) {
      var ctl := Unarm(s, fd, s.contexts[fd].events - {e}, willing);
      if ctl.Some? {
        TriggerAccounts(s.(epoll := ctl.value), fd, e);
      }
    }
  }

  lemma StepAccounts(s: State, st: Step)
    requires Accounted(s) && Possible(s, st) && After(s, st).Done?
    ensures Accounted(After(s, st).state)
  {
    hide Accounted;
    match st.op
    case OpAdd(fd, e, job) => AddAccounts(s, fd, e, job, st.willing);
    case OpDel(fd, e) => DelAccounts(s, fd, e, st.willing);
    case OpCancel(fd, e) => CancelAccounts(s, fd, e, st.willing);
    case OpCancelAll(fd) => CancelAllAccounts(s, fd, st.willing);
    case OpDispatch(fd, reported, hup) => DispatchAccounts(s, fd, reported, hup, st.willing);
  }

  lemma {:induction false} AccountedAlways(s: State, run: seq<Step>)
    requires Accounted(s) && Runs(s, run)
    ensures Accounted(Final(s, run))
    decreases |run|
  {
    if run != [] {
      StepAccounts(s, run[0]);
      AccountedAlways(After(s, run[0]).state, run[1..]);
    }
  }

  lemma {:induction false} NoJobs(cs: seq<Context>)
    requires forall c <- cs :: c.events == {}
    ensures ArmedJobs(cs) == multiset{}
  {
    if cs != [] {
      NoJobs(cs[1..]);
    }
  }

  /** After each operation of any run the mask epoll holds for a descriptor is its event
      bits; the pending count is the number of armed events and of those cancelAll
      triggered; and the jobs that were accepted are those armed, those scheduled and those
      deleted: none is scheduled twice, and none vanishes. */
  lemma Bookkeeping(s: State, run: seq<Step>)
    requires Initial(s) && Runs(s, run)
    ensures var t := Final(s, run);
            (forall fd :: 0 <= fd < |t.contexts| ==> MaskAgrees(t, fd)) && (forall fd <- t.epoll :: fd < |t.contexts|) &&
            t.pending == CountArmed(t.contexts) + t.lost &&
            t.accepted == ArmedJobs(t.contexts) + multiset(t.queue) + t.deleted
  {
    InitialInv(s);
    InvAlways(s, run);
    NoJobs(s.contexts);
    AccountedAlways(s, run);
  }

  /** Some cancelAll of the run succeeds. */
  predicate CancelsAll(s: State, run: seq<Step>)
    requires Runs(s, run)
    decreases |run|
  {
    run != [] && ((run[0].op.OpCancelAll? && After(s, run[0]).ok) || CancelsAll(After(s, run[0]).state, run[1..]))
  }

  lemma {:induction false} LostIff(s: State, run: seq<Step>)
    requires Inv(s) && Runs(s, run)
    ensures Final(s, run).lost >= s.lost && (Final(s, run).lost > s.lost <==> CancelsAll(s, run))
    decreases |run|
  {
    if run != [] {
      StepKeeps(s, run[0]);
      StepLoses(s, run[0]);
      LostIff(After(s, run[0]).state, run[1..]);
    }
  }

  /** The count is the number of armed events exactly as long as no cancelAll succeeds, */
  lemma ExactIff(s: State, run: seq<Step>)
    requires Initial(s) && Runs(s, run)
    ensures Final(s, run).pending >= CountArmed(Final(s, run).contexts)
    ensures Final(s, run).pending == CountArmed(Final(s, run).contexts) <==> !CancelsAll(s, run)
  {
    InitialInv(s);
    InvAlways(s, run);
    LostIff(s, run);
  }

  lemma {:induction false} NoneArmed(cs: seq<Context>)
    requires forall c <- cs :: c.events == {}
    ensures CountArmed(cs) == 0
  {
    if cs != [] {
      NoneArmed(cs[1..]);
    }
  }

  /** and it is zero, as stopping() asks, exactly when nothing is armed and none has. */
  lemma ZeroIff(s: State, run: seq<Step>)
    requires Initial(s) && Runs(s, run)
    ensures Final(s, run).pending == 0 <==> (forall fd, e :: !Final(s, run).Armed(fd, e)) && !CancelsAll(s, run)
  {
    var t := Final(s, run);
    ExactIff(s, run);
    if fd, e :| t.Armed(fd, e) {
      ArmedCounts(t, fd, e);
    } else {
      forall c | c in t.contexts ensures c.events == {} {
        var fd: nat :| fd < |t.contexts| && t.contexts[fd] == c;
        assert !t.Armed(fd, READ) && !t.Armed(fd, WRITE);
        Both(c.events);
      }
      NoneArmed(t.contexts);
    }
  }

  /** So once cancelAll has succeeded stopping() never holds again, whatever is done after. */
  lemma NeverStops(s: State, run: seq<Step>, fd: nat, more: seq<Step>)
    requires Initial(s) && Runs(s, run) && CancelAll(Final(s, run), fd, true).Done? && CancelAll(Final(s, run), fd, true).ok
    requires Runs(CancelAll(Final(s, run), fd, true).state, more)
    ensures Final(CancelAll(Final(s, run), fd, true).state, more).pending > 0
  {
    InitialInv(s);
    InvAlways(s, run);
    CancelAllKeeps(Final(s, run), fd, true);
    InvAlways(CancelAll(Final(s, run), fd, true).state, more);
  }
}
