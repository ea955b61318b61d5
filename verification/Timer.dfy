/** Timer and TimerManager: an ordered set of timers that change their own keys. */
module Timers {
  import opened Codec
  import opened TimerSpec

  class Timer {
    const manager: TimerManager
    const addr: nat        // where it was allocated
    const recurring: bool
    var ms: nat
    var next: nat
    var cb: Option<Callback>

    constructor (manager: TimerManager, addr: nat, now: nat, ms: nat, cb: Option<Callback>, recurring: bool)
      ensures this.manager == manager && this.addr == addr && this.recurring == recurring
      ensures this.ms == ms && this.cb == cb && next == now + ms
    {
      this.manager, this.addr, this.recurring := manager, addr, recurring;
      this.ms, this.cb, this.next := ms, cb, now + ms;
    }

    function Key(): Key
      reads this`next
    {
      TimerSpec.Key.Key(next, addr)
    }

    ghost function Rec(): Rec
      requires ms <= next
      reads this`ms, this`next, this`cb
    {
      TimerSpec.Rec.Rec(next - ms, ms, recurring, cb)
    }

    method Cancel() returns (ok: bool)
      requires manager.Valid() && manager.Knows(this)
      modifies this`cb, manager`timers
      ensures manager.Valid()
      ensures (manager.Abs(), ok) == TimerSpec.Cancel(old(manager.Abs()), addr)
    {
      ghost var r := Rec();
      if cb.Some? {
        cb := None;
        var it := manager.Find(this);
        manager.Erase(it);
        manager.OneChanged(this, r.(cb := None));
        return true;
      }
      return false;
    }

    method Refresh(now: nat) returns (ok: bool)
      requires manager.Valid() && manager.Knows(this)
      modifies this`next, manager`timers
      ensures manager.Valid()
      ensures (manager.Abs(), ok) == TimerSpec.Refresh(old(manager.Abs()), now, addr)
    {
      ghost var s, r := manager.Abs(), Rec();
      assert s.recs[addr] == r;
      if cb.None? {
        return false;
      }
      var it := manager.Find(this);
      if it == |manager.timers| {
        return false;
      }
      Renew(it, now, r.(start := now));
      return true;
    }

    method Renew(it: nat, now: nat, ghost moved: Rec)
      requires manager.Valid() && manager.Knows(this) && it < |manager.timers| && manager.timers[it] == this
      requires moved == Rec().(start := now)
      modifies this`next, manager`timers
      ensures manager.Valid()
      ensures manager.Abs() == State(old(manager.Abs()).recs[addr := moved], manager.tickled, manager.fronts)
    {
      manager.Erase(it);
      SetDeadline(now + ms);
      var at := manager.Insert(this);
      manager.OneChanged(this, moved);
    }

    method Reset(now: nat, period: nat, fromNow: bool) returns (ok: bool)
      requires manager.Valid() && manager.Knows(this)
      modifies this`next, this`ms, manager`timers, manager`tickled, manager`fronts
      ensures manager.Valid()
      ensures (manager.Abs(), ok) == TimerSpec.Reset(old(manager.Abs()), now, addr, period, fromNow)
    {
      ghost var s, r := manager.Abs(), Rec();
      assert s.recs[addr] == r;
      if period == ms && !fromNow {
        return true;
      }
      if cb.None? {
        return false;
      }
      var it := manager.Find(this);
      if it == |manager.timers| {
        return false;
      }
      Rearm(it, now, period, fromNow,
            s.(recs := s.recs[addr := r.(start := if fromNow then now else r.start, ms := period)]));
      return true;
    }

    /** Out of the set, to its new place, and back in. */
    method Rearm(it: nat, now: nat, period: nat, fromNow: bool, ghost moved: State)
      requires manager.Valid() && manager.Knows(this) && it < |manager.timers| && manager.timers[it] == this
      requires var r := Rec().(start := if fromNow then now else next - ms, ms := period);
               moved == State(manager.Abs().recs[addr := r], manager.tickled, manager.fronts)
      modifies this`next, this`ms, manager`timers, manager`tickled, manager`fronts
      ensures manager.Valid()
      ensures manager.Abs() == TimerSpec.Enter(moved, addr)
    {
      manager.Erase(it);
      Move(now, period, fromNow, moved.recs[addr]);
      assert manager.Abs() == moved;
      hide TimerSpec.Enter;
      manager.Enter(this);
    }

    /** The new start, period and deadline, while it is out of the set. */
    method Move(now: nat, period: nat, fromNow: bool, ghost moved: TimerSpec.Rec)
      requires manager.SetValid() && manager.Knows(this) && this !in manager.timers && ms <= next
      requires moved == Rec().(start := if fromNow then now else next - ms, ms := period)
      modifies this`next, this`ms
      ensures manager.SetValid()
      ensures manager.Abs() == State(old(manager.Abs()).recs[addr := moved], manager.tickled, manager.fronts)
    {
      var start := if fromNow then now else next - ms;
      ms := period;
      SetDeadline(start + ms);
      manager.OneChanged(this, moved);
    }

    /** The only place a key changes: never that of a member of the set. */
    method SetDeadline(next: nat)
      requires this !in manager.timers
      modifies this`next
      ensures this.next == next
    {
      this.next := next;
    }
  }

  class TimerManager {
    var timers: seq<Timer>    // std::set, in its order
    var tickled: bool
    var fronts: nat           // calls of onTimerInsertedAtFront
    ghost var live: set<Timer>          // the timers someone refers to
    ghost var byAddr: map<nat, Timer>   // and where they are

    ghost predicate Knows(t: Timer)
      reads this`byAddr, this`live
    {
      t in live && t.addr in byAddr && byAddr[t.addr] == t
    }

    /** The timers are told apart by their addresses, and the set is in order. */
    ghost predicate SetValid()
      reads this`timers, this`byAddr, this`live, live`next, live`ms
    {
      && (forall a {:trigger byAddr[a]} :: a in byAddr ==>
            byAddr[a] in live && byAddr[a].addr == a && byAddr[a].manager == this && byAddr[a].ms <= byAddr[a].next)
      && (forall i {:trigger timers[i]} :: 0 <= i < |timers| ==> Knows(timers[i]))
      && InOrder()
    }

    ghost predicate InOrder()
      reads this`timers, this`live, live`next
    {
      forall i, j {:trigger timers[i], timers[j]} :: 0 <= i < j < |timers| ==>
        timers[i] in live && timers[j] in live && Less(timers[i].Key(), timers[j].Key())
    }

    /** And its members are the timers that hold a callback. */
    ghost predicate Valid()
      reads this`timers, this`byAddr, this`live, live`next, live`ms, live`cb
    {
      SetValid() && forall a {:trigger byAddr[a]} :: a in byAddr ==> (byAddr[a] in timers <==> byAddr[a].cb.Some?)
    }

    ghost function Abs(): State
      requires SetValid()
      reads this`timers, this`byAddr, this`live, this`tickled, this`fronts, live`next, live`ms, live`cb
    {
      State(map a | a in byAddr :: byAddr[a].Rec(), tickled, fronts)
    }

    constructor ()
      ensures Valid() && Abs() == State(map[], false, 0)
    {
      timers, tickled, fronts := [], false, 0;
      live, byAddr := {}, map[];
    }

    // ---------- std::set ----------

    /** lower_bound: an ordered search. */
    method LowerBound(k: Key) returns (i: nat)
      requires SetValid()
      ensures i <= |timers|
      ensures forall j {:trigger timers[j]} :: 0 <= j < i ==> Less(timers[j].Key(), k)
      ensures forall j {:trigger timers[j]} :: i <= j < |timers| ==> !Less(timers[j].Key(), k)
    {
      var hi: nat := |timers|;
      i := 0;
      while i < hi
        invariant i <= hi <= |timers|
        invariant forall j {:trigger timers[j]} :: 0 <= j < i ==> Less(timers[j].Key(), k)
        invariant forall j {:trigger timers[j]} :: hi <= j < |timers| ==> !Less(timers[j].Key(), k)
      {
        var mid := (i + hi) / 2;
        if Less(timers[mid].Key(), k) {
          i := mid + 1;
        } else {
          hi := mid;
        }
      }
    }

    /** find: it finds every member, and nothing else. */
    method Find(t: Timer) returns (i: nat)
      requires SetValid() && Knows(t)
      ensures t in timers ==> i < |timers| && timers[i] == t
      ensures t !in timers ==> i == |timers|
    {
      i := LowerBound(t.Key());
      if t in timers {
        ghost var j :| 0 <= j < |timers| && timers[j] == t;
        assert i <= j;
        ghost var u, w := timers[i], timers[j];
        assert i == j;
      }
      if i < |timers| && Less(t.Key(), timers[i].Key()) {
        i := |timers|;
      }
    }

    method Erase(i: nat)
      requires SetValid() && i < |timers|
      modifies this`timers
      ensures SetValid() && timers == old(timers)[..i] + old(timers)[i + 1..] && Abs() == old(Abs())
      ensures forall t :: t in timers <==> t in old(timers) && t != old(timers)[i]
    {
      timers := timers[..i] + timers[i + 1..];
    }

    method Insert(t: Timer) returns (i: nat)
      requires SetValid() && Knows(t) && t !in timers
      modifies this`timers
      ensures SetValid() && i < |timers| && timers[i] == t
      ensures forall u :: u in timers <==> u in old(timers) || u == t
    {
      i := LowerBound(t.Key());
      timers := timers[..i] + [t] + timers[i..];
    }

    /** addTimer(Timer::ptr). */
    method Enter(t: Timer)
      requires SetValid() && Knows(t) && t !in timers && t.cb.Some?
      requires forall a {:trigger byAddr[a]} :: a in byAddr && a != t.addr ==> (byAddr[a] in timers <==> byAddr[a].cb.Some?)
      modifies this`timers, this`tickled, this`fronts
      ensures Valid() && Abs() == TimerSpec.Enter(old(Abs()), t.addr)
    {
      ghost var s := Abs();
      var it := Insert(t);
      assert Abs() == s;
      var atFront := it == 0 && !tickled;
      AtFront(t, it);
      if atFront {
        tickled := true;
      }
      if atFront {
        fronts := fronts + 1;
      }
    }

    lemma AtFront(t: Timer, i: nat)
      requires Valid() && i < |timers| && timers[i] == t
      ensures Abs().First(t.addr) <==> i == 0
    {
      if i == 0 {
        forall b | Abs().Armed(b) && b != t.addr ensures Less(Abs().KeyOf(t.addr), Abs().KeyOf(b)) {
          var j :| 0 <= j < |timers| && timers[j] == byAddr[b];
          assert timers[0] == t;
        }
      } else {
        var b := timers[0].addr;
        assert byAddr[b] in timers && Less(timers[0].Key(), timers[i].Key());
        assert Abs().Armed(b) && b != t.addr;
        assert Less(Abs().KeyOf(b), Abs().KeyOf(t.addr));
      }
    }

    /** What the manager stands for when one timer is new or has changed. */
    twostate lemma OneChanged(new t: Timer, new rec: Rec)
      requires old(SetValid()) && SetValid() && Knows(t) && byAddr == old(byAddr)[t.addr := t]
      requires forall a {:trigger byAddr[a]} :: a in byAddr && a != t.addr ==> unchanged(byAddr[a])
      requires rec == t.Rec()
      ensures Abs() == State(old(Abs()).recs[t.addr := rec], tickled, fronts)
    {
    }

    /** addTimer(ms, cb, recurring), the new timer being allocated at addr. */
    method AddTimer(now: nat, addr: nat, ms: nat, cb: Callback, recurring: bool) returns (timer: Timer)
      requires Valid() && addr !in byAddr
      modifies this
      ensures Valid() && fresh(timer) && Knows(timer)
      ensures timer.addr == addr && Abs() == TimerSpec.Add(old(Abs()), now, addr, ms, cb, recurring)
    {
      timer := new Timer(this, addr, now, ms, Some(cb), recurring);
      live := live + {timer};
      byAddr := byAddr[addr := timer];
      OneChanged(timer, TimerSpec.Rec.Rec(now, ms, recurring, Some(cb)));
      Enter(timer);
    }

    method HasTimer() returns (has: bool)
      requires Valid()
      ensures has <==> exists a :: Abs().Armed(a)
    {
      has := timers != [];
      if has {
        assert byAddr[timers[0].addr] == timers[0];
        assert Abs().Armed(timers[0].addr);
      }
    }

    /** getNextTimer; None is ~0ull. */
    method GetNextTimer(now: nat) returns (wait: Option<nat>)
      requires Valid()
      modifies this`tickled
      ensures Valid() && Abs() == Rest(old(Abs()))
      ensures wait.None? <==> forall a :: !Abs().Armed(a)
      ensures wait == Some(0) <==> exists a :: Abs().Armed(a) && Abs().recs[a].Next() <= now
      ensures wait.Some? ==> forall a :: Abs().Armed(a) && now <= Abs().recs[a].Next() ==> now + wait.value <= Abs().recs[a].Next()
      ensures wait.Some? && wait.value > 0 ==> exists a :: Abs().Armed(a) && Abs().recs[a].Next() == now + wait.value
    {
      ghost var d := Earliest();
      tickled := false;
      assert IsEarliest(Abs(), d) && Abs() == Rest(old(Abs()));
      hide Abs;
      hide SetValid;
      if timers == [] {
        return None;
      }
      var next := timers[0].next;
      if now >= next {
        return Some(0);
      }
      return Some(next - now);
    }

    /** The front of the set has the earliest deadline of all armed timers. */
    lemma Earliest() returns (d: Option<nat>)
      requires Valid()
      ensures IsEarliest(Abs(), d)
      ensures d == if timers == [] then None else Some(timers[0].next)
    {
      d := if timers == [] then None else Some(timers[0].next);
      forall a | Abs().Armed(a) ensures d.Some? && d.value <= Abs().recs[a].Next() {
        var j :| 0 <= j < |timers| && timers[j] == byAddr[a];
        assert timers[0] == timers[j] || Less(timers[0].Key(), timers[j].Key());
      }
      if timers != [] {
        assert byAddr[timers[0].addr] == timers[0];
        assert Abs().Armed(timers[0].addr) && Abs().recs[timers[0].addr].Next() == timers[0].next;
      }
    }

    /** listExpiredCb, its probe timer being allocated at `probe`. */
    method ListExpiredCb(now: nat, probe: nat, cbs: seq<Callback>) returns (out: seq<Callback>, ghost order: seq<Key>)
      requires Valid()
      modifies this`timers, live`next, live`cb
      ensures Valid() && Abs() == Expire(old(Abs()), now)
      ensures |out| >= |cbs| && out[..|cbs|] == cbs && Fired(old(Abs()), now, order, out[|cbs|..])
    {
      ghost var s := Abs();
      var expired;
      expired, order := TakeDue(s, now, probe);
      out := FireAll(s, expired, now, cbs);
      Ends(s, now, expired, order, out[|cbs|..]);
    }

    /** Its first half: the due timers, in order, are taken off the set. */
    method TakeDue(ghost s: State, now: nat, probe: nat) returns (expired: seq<Timer>, ghost order: seq<Key>)
      requires Valid() && s == Abs()
      modifies this`timers
      ensures SetValid() && Midway(s, expired, 0, now)
      ensures Sorted(order) && |order| == |expired|
      ensures DueList(s, now, order)
      ensures forall j {:trigger expired[j]} {:trigger order[j]} :: 0 <= j < |expired| ==>
                Knows(expired[j]) && order[j].addr == expired[j].addr && s.Due(expired[j].addr, now)
    {
      var it := DueBefore(now, probe);
      expired := timers[..it];
      order := Keys(expired);
      DueAre(s, now, it, expired, order);
      Begins(s, now, it, expired);
      EraseFront(it);
    }

    method EraseFront(it: nat)
      requires SetValid() && it <= |timers|
      modifies this`timers
      ensures SetValid() && timers == old(timers)[it..]
    {
      timers := timers[it..];
    }

    ghost predicate DueList(s: State, now: nat, order: seq<Key>)
    {
      (forall a :: s.Due(a, now) <==> a in s.recs && s.KeyOf(a) in order) &&
      forall k <- order :: k.addr in s.recs && k == s.KeyOf(k.addr)
    }

    /** Taking the front off the set leaves it in order. */
    lemma Begins(s: State, now: nat, it: nat, expired: seq<Timer>)
      requires Valid() && s == Abs() && it <= |timers| && expired == timers[..it]
      ensures forall i, j :: 0 <= i < j < |expired| ==> expired[i] != expired[j]
      ensures forall t <- expired :: t !in timers[it..]
      ensures forall t <- timers :: t in expired || t in timers[it..]
    {
      assert timers == timers[..it] + timers[it..];
      forall i, j | 0 <= i < j < |timers| ensures timers[i] != timers[j] {
        assert Less(timers[i].Key(), timers[j].Key());
      }
    }

    /** Once all have fired, every timer is as Expire says. */
    lemma Ends(s: State, now: nat, expired: seq<Timer>, order: seq<Key>, fired: seq<Callback>)
      requires SetValid() && Midway(s, expired, |expired|, now) && tickled == s.tickled && fronts == s.fronts
      requires Sorted(order) && |order| == |expired| == |fired|
      requires DueList(s, now, order)
      requires forall j {:trigger expired[j]} {:trigger order[j]} :: 0 <= j < |expired| ==>
                 Knows(expired[j]) && order[j].addr == expired[j].addr && s.recs[expired[j].addr].cb == Some(fired[j])
      ensures Valid() && Abs() == Expire(s, now) && Fired(s, now, order, fired)
    {
      forall a | a in byAddr ensures byAddr[a].Rec() == Fire(s.recs[a], now) {
        if s.Due(a, now) {
          var j :| 0 <= j < |order| && order[j] == s.KeyOf(a);
          assert expired[j] == byAddr[a];
        }
      }
    }

    ghost function Keys(ts: seq<Timer>): (ks: seq<Key>)
      reads ts`next
      ensures |ks| == |ts| && forall i {:trigger ks[i]} {:trigger ts[i]} :: 0 <= i < |ts| ==> ks[i] == ts[i].Key()
    {
      if ts == [] then [] else Keys(ts[..|ts| - 1]) + [ts[|ts| - 1].Key()]
    }

    /** The search: wherever the probe stands among the timers due now, it ends behind
        them all. */
    method DueBefore(now: nat, probe: nat) returns (it: nat)
      requires SetValid()
      ensures it <= |timers|
      ensures forall j {:trigger timers[j]} :: 0 <= j < |timers| ==> (timers[j].next <= now <==> j < it)
    {
      if timers == [] {
        return 0;
      }
      it := LowerBound(TimerSpec.Key.Key(now, probe));
      while it < |timers| && timers[it].next == now
        invariant it <= |timers|
        invariant forall j {:trigger timers[j]} :: 0 <= j < it ==> timers[j].next <= now
        invariant forall j {:trigger timers[j]} :: it <= j < |timers| ==> timers[j].next >= now
      {
        it := it + 1;
      }
      forall j {:trigger timers[j]} | it <= j < |timers| ensures timers[j].next > now {
        assert timers[it].next > now;
      }
    }

    /** What it found: the due timers, */
    lemma DuePlaces(s: State, now: nat, it: nat, expired: seq<Timer>, order: seq<Key>)
      requires Valid() && s == Abs() && it <= |timers| && expired == timers[..it] && order == Keys(expired)
      requires forall j {:trigger timers[j]} :: 0 <= j < |timers| ==> (timers[j].next <= now <==> j < it)
      ensures forall j {:trigger expired[j]} {:trigger order[j]} :: 0 <= j < |expired| ==>
                Knows(expired[j]) && order[j] == s.KeyOf(expired[j].addr) && s.Due(expired[j].addr, now)
    {
      forall j | 0 <= j < |expired|
        ensures Knows(expired[j]) && order[j] == s.KeyOf(expired[j].addr) && s.Due(expired[j].addr, now)
      {
        assert timers[j] == expired[j] && byAddr[timers[j].addr] == timers[j];
      }
    }

    /** all of them, in order. */
    lemma DueAre(s: State, now: nat, it: nat, expired: seq<Timer>, order: seq<Key>)
      requires Valid() && s == Abs() && it <= |timers| && expired == timers[..it] && order == Keys(expired)
      requires forall j {:trigger timers[j]} :: 0 <= j < |timers| ==> (timers[j].next <= now <==> j < it)
      ensures Sorted(order) && DueList(s, now, order)
      ensures forall j {:trigger expired[j]} {:trigger order[j]} :: 0 <= j < |expired| ==>
                Knows(expired[j]) && order[j].addr == expired[j].addr && s.Due(expired[j].addr, now)
    {
      DuePlaces(s, now, it, expired, order);
      forall i, j | 0 <= i < j < |order| ensures Less(order[i], order[j]) {
        assert Less(timers[i].Key(), timers[j].Key());
      }
      forall a | s.Due(a, now) ensures s.KeyOf(a) in order {
        var j :| 0 <= j < |timers| && timers[j] == byAddr[a];
        assert expired[j] == byAddr[a] && order[j] == s.KeyOf(a);
      }
      forall a | a in s.recs && s.KeyOf(a) in order ensures s.Due(a, now) {
        var j :| 0 <= j < |order| && order[j] == s.KeyOf(a);
        assert expired[j].addr == a;
      }
    }

    /** The loop over the expired timers. */
    method FireAll(ghost s: State, expired: seq<Timer>, now: nat, cbs: seq<Callback>) returns (out: seq<Callback>)
      requires SetValid()
      requires forall j {:trigger expired[j]} :: 0 <= j < |expired| ==> Knows(expired[j]) && s.Due(expired[j].addr, now)
      requires Midway(s, expired, 0, now)
      modifies this`timers, live`next, live`cb
      ensures SetValid() && Midway(s, expired, |expired|, now)
      ensures tickled == old(tickled) && fronts == old(fronts)
      ensures |out| == |cbs| + |expired| && out[..|cbs|] == cbs
      ensures forall j {:trigger expired[j]} :: 0 <= j < |expired| ==>
                expired[j].addr in s.recs && s.recs[expired[j].addr].cb == Some(out[|cbs| + j])
    {
      out := cbs;
      var i := 0;
      while i < |expired|
        invariant 0 <= i <= |expired|
        invariant SetValid() && Midway(s, expired, i, now) && byAddr == old(byAddr)
        invariant tickled == old(tickled) && fronts == old(fronts)
        invariant |out| == |cbs| + i && out[..|cbs|] == cbs
        invariant forall j {:trigger expired[j]} :: 0 <= j < i ==> s.recs[expired[j].addr].cb == Some(out[|cbs| + j])
      {
        var f := FireNext(s, expired, i, now);
        out := out + [f];
        i := i + 1;
      }
    }

    method FireNext(ghost s: State, expired: seq<Timer>, i: nat, now: nat) returns (f: Callback)
      requires SetValid() && i < |expired|
      requires forall j {:trigger expired[j]} :: 0 <= j < |expired| ==> Knows(expired[j])
      requires s.Due(expired[i].addr, now)
      requires Midway(s, expired, i, now)
      modifies this`timers, live`next, live`cb
      ensures SetValid() && Midway(s, expired, i + 1, now)
      ensures s.recs[expired[i].addr].cb == Some(f)
    {
      var t := expired[i];
      assert Knows(t) && byAddr[t.addr] == t;
      assert t in expired[i..] && t !in expired[..i];
      assert byAddr[t.addr].Rec() == s.recs[t.addr];
      f := FireOne(t, now);
      assert expired[..i + 1] == expired[..i] + [t];
      assert expired[i..] == [t] + expired[i + 1..];
    }

    /** i of the expired timers have fired; the rest are out of the set and unchanged. */
    ghost predicate Midway(s: State, expired: seq<Timer>, i: nat, now: nat)
      requires SetValid() && i <= |expired|
      reads this`timers, this`byAddr, this`live, live`next, live`ms, live`cb
    {
      && byAddr.Keys == s.recs.Keys
      && (forall i, j :: 0 <= i < j < |expired| ==> expired[i] != expired[j])
      && (forall a {:trigger byAddr[a]} :: a in byAddr ==>
            (byAddr[a] in timers <==> byAddr[a].cb.Some? && byAddr[a] !in expired[i..]))
      && (forall a {:trigger byAddr[a]} :: a in byAddr ==>
            byAddr[a].Rec() == if byAddr[a] in expired[..i] then Fire(s.recs[a], now) else s.recs[a])
    }

    method FireOne(t: Timer, now: nat) returns (f: Callback)
      requires SetValid() && Knows(t) && t !in timers && t.cb.Some? && t.next <= now
      modifies this`timers, t`next, t`cb
      ensures SetValid() && t.ms <= old(t.next) && t.ms <= t.next
      ensures t.Rec() == Fire(old(t.Rec()), now) && Some(f) == old(t.cb)
      ensures forall u :: u in timers <==> u in old(timers) || (u == t && t.cb.Some?)
    {
      f := t.cb.value;
      if t.recurring {
        t.SetDeadline(now + t.ms);
        var it := Insert(t);
      } else {
        t.cb := None;
      }
    }
  }
}
