/** What a TimerManager promises, on values: which timers are armed, when they are due,
    and when the event loop has to be told. */
module TimerSpec {
  import opened Codec

  type Callback = nat

  // ---------- the order of the set ----------

  /** A timer's place in the set: its deadline, then its address. */
  datatype Key = Key(next: nat, addr: nat)

  predicate Less(a: Key, b: Key)
  {
    a.next < b.next || (a.next == b.next && a.addr < b.addr)
  }

  /** Timer::Comparator, with null pointers first. */
  predicate Comparator(lhs: Option<Key>, rhs: Option<Key>)
  {
    if lhs.None? && rhs.None? then false
    else if lhs.None? then true
    else if rhs.None? then false
    else if lhs.value.next < rhs.value.next then true
    else if rhs.value.next < lhs.value.next then false
    else lhs.value.addr < rhs.value.addr
  }

  /** It is a strict total order, as std::set demands. */
  lemma ComparatorIsOrder(a: Option<Key>, b: Option<Key>, c: Option<Key>)
    ensures !Comparator(a, a)
    ensures Comparator(a, b) && Comparator(b, c) ==> Comparator(a, c)
    ensures a != b ==> (Comparator(a, b) <==> !Comparator(b, a))
    ensures a.Some? && b.Some? ==> (Comparator(a, b) <==> Less(a.value, b.value))
  {
  }

  predicate Sorted(keys: seq<Key>)
  {
    forall i, j :: 0 <= i < j < |keys| ==> Less(keys[i], keys[j])
  }

  /** The order leaves one way to list a set of keys. */
  lemma {:induction false} SortedUnique(a: seq<Key>, b: seq<Key>)
    requires Sorted(a) && Sorted(b) && forall k :: k in a <==> k in b
    ensures a == b
  {
    assert a != [] ==> a[0] in b;
    assert b != [] ==> b[0] in a;
    if a != [] {
      assert a[0] == b[0];
      assert a == [a[0]] + a[1..] && b == [b[0]] + b[1..];
      forall k ensures k in a[1..] <==> k in b[1..] {
        assert k in a[1..] ==> k in a && k != a[0];
        assert k in b[1..] ==> k in b && k != b[0];
      }
      SortedUnique(a[1..], b[1..]);
    }
  }

  // ---------- state ----------

  /** A timer someone still refers to, with the time its current period began (m_next
      less m_ms). One without a callback is dead: it has fired or was cancelled. */
  datatype Rec = Rec(start: nat, ms: nat, recurring: bool, cb: Option<Callback>)
  {
    function Next(): nat { start + ms }
  }

  /** The timers by address, m_tickled, and how often onTimerInsertedAtFront was called. */
  datatype State = State(recs: map<nat, Rec>, tickled: bool, fronts: nat)
  {
    predicate Armed(a: nat)
    {
      a in recs && recs[a].cb.Some?
    }

    function KeyOf(a: nat): Key
      requires a in recs
    {
      Key(recs[a].Next(), a)
    }

    /** No armed timer comes before this one. */
    ghost predicate First(a: nat)
      requires a in recs
    {
      forall b :: Armed(b) && b != a ==> Less(KeyOf(a), KeyOf(b))
    }

    predicate Due(a: nat, now: nat)
    {
      Armed(a) && recs[a].Next() <= now
    }
  }

  // ---------- operations ----------

  /** addTimer(Timer::ptr), of a timer that is already recorded. */
  ghost function Enter(s: State, a: nat): State
    requires a in s.recs
  {
    if s.First(a) && !s.tickled then s.(tickled := true, fronts := s.fronts + 1) else s
  }

  /** addTimer(ms, cb, recurring), which allocates at address a. */
  ghost function Add(s: State, now: nat, a: nat, ms: nat, cb: Callback, recurring: bool): State
  {
    Enter(s.(recs := s.recs[a := Rec(now, ms, recurring, Some(cb))]), a)
  }

  function Cancel(s: State, a: nat): (State, bool)
    requires a in s.recs
  {
    if s.Armed(a) then (s.(recs := s.recs[a := s.recs[a].(cb := None)]), true) else (s, false)
  }

  function Refresh(s: State, now: nat, a: nat): (State, bool)
    requires a in s.recs
  {
    if s.Armed(a) then (s.(recs := s.recs[a := s.recs[a].(start := now)]), true) else (s, false)
  }

  /** reset(ms, from_now). Asking for the period it has is granted even to a dead timer. */
  ghost function Reset(s: State, now: nat, a: nat, ms: nat, fromNow: bool): (State, bool)
    requires a in s.recs
  {
    var r := s.recs[a];
    if ms == r.ms && !fromNow then (s, true)
    else if !s.Armed(a) then (s, false)
    else
      (Enter(s.(recs := s.recs[a := r.(start := if fromNow then now else r.start, ms := ms)]), a), true)
  }

  /** What listExpiredCb makes of one timer, */
  function Fire(r: Rec, now: nat): Rec
  {
    if r.cb.None? || r.Next() > now then r
    else if r.recurring then r.(start := now)
    else r.(cb := None)
  }

  /** and of all. */
  function Expire(s: State, now: nat): State
  {
    s.(recs := map a | a in s.recs :: Fire(s.recs[a], now))
  }

  /** getNextTimer: from here on the loop sleeps again. */
  function Rest(s: State): State
  {
    s.(tickled := false)
  }

  /** The earliest deadline, if there is one. */
  ghost predicate IsEarliest(s: State, d: Option<nat>)
  {
    match d
    case None => forall a :: !s.Armed(a)
    case Some(next) => (exists a :: s.Armed(a) && s.recs[a].Next() == next) &&
                       forall a :: s.Armed(a) ==> next <= s.recs[a].Next()
  }

  // ---------- listExpiredCb and getNextTimer ----------

  /** The callbacks listExpiredCb hands out: one for each due timer, in deadline order. */
  ghost predicate Fired(s: State, now: nat, order: seq<Key>, cbs: seq<Callback>)
  {
    Sorted(order) && |cbs| == |order| &&
    (forall a :: s.Due(a, now) <==> a in s.recs && s.KeyOf(a) in order) &&
    (forall k <- order :: k.addr in s.recs && k == s.KeyOf(k.addr)) &&
    forall i {:trigger order[i]} :: 0 <= i < |order| ==> s.recs[order[i].addr].cb == Some(cbs[i])
  }

  /** There is one such list. */
  lemma FiredUnique(s: State, now: nat, o1: seq<Key>, c1: seq<Callback>, o2: seq<Key>, c2: seq<Callback>)
    requires Fired(s, now, o1, c1) && Fired(s, now, o2, c2)
    ensures o1 == o2 && c1 == c2
  {
    forall k ensures k in o1 <==> k in o2 {
      assert k in o1 ==> s.Due(k.addr, now);
      assert k in o2 ==> s.Due(k.addr, now);
    }
    SortedUnique(o1, o2);
    forall i | 0 <= i < |c1| ensures c1[i] == c2[i] {
      assert o1[i] == o2[i];
    }
  }

  /** Something is handed out exactly if the deadline of some armed timer has come. */
  lemma FiredIff(s: State, now: nat, order: seq<Key>, cbs: seq<Callback>)
    requires Fired(s, now, order, cbs)
    ensures cbs != [] <==> exists a :: s.Armed(a) && s.recs[a].start + s.recs[a].ms <= now
  {
    if cbs != [] {
      assert order[0] in order;
      assert s.Due(order[0].addr, now);
    }
    if a :| s.Armed(a) && s.recs[a].start + s.recs[a].ms <= now {
      assert s.Due(a, now);
    }
  }

  /** Afterwards nothing is overdue but recurring timers of period zero. */
  lemma NothingOverdue(s: State, now: nat, a: nat)
    ensures Expire(s, now).Due(a, now) <==> s.Due(a, now) && s.recs[a].recurring && s.recs[a].ms == 0
    ensures Expire(s, now).Armed(a) <==> s.Armed(a) && (s.Due(a, now) ==> s.recs[a].recurring)
    ensures s.Armed(a) && !s.Due(a, now) ==> Expire(s, now).recs[a] == s.recs[a]
    ensures s.Due(a, now) && s.recs[a].recurring ==> Expire(s, now).recs[a] == s.recs[a].(start := now)
  {
  }

  // ---------- what an operation does to deadlines ----------

  /** addTimer: due ms from now, and announced if no armed timer comes before it and nobody
      has been told since getNextTimer. */
  lemma AddArms(s: State, now: nat, a: nat, ms: nat, cb: Callback, recurring: bool)
    requires a !in s.recs
    ensures var t := Add(s, now, a, ms, cb, recurring);
            t.Armed(a) && t.KeyOf(a) == Key(now + ms, a) && t.recs[a].ms == ms && t.recs[a].recurring == recurring &&
            t.recs[a].cb == Some(cb) && t.recs.Keys == s.recs.Keys + {a} && (forall b <- s.recs :: t.recs[b] == s.recs[b]) &&
            (t.fronts > s.fronts <==> !s.tickled && forall b <- s.recs ::
               s.recs[b].cb.Some? ==> now + ms < s.recs[b].Next() || (now + ms == s.recs[b].Next() && a < b))
  {
    var r := s.(recs := s.recs[a := Rec(now, ms, recurring, Some(cb))]);
    forall b | b in s.recs ensures r.Armed(b) == s.recs[b].cb.Some? && r.KeyOf(b) == Key(s.recs[b].Next(), b) {
    }
  }

  /** cancel: the timer is dead, the others are as before. */
  lemma CancelKills(s: State, a: nat)
    requires a in s.recs
    ensures var (t, ok) := Cancel(s, a);
            (ok <==> s.recs[a].cb.Some?) && t.recs.Keys == s.recs.Keys && t.recs[a] == s.recs[a].(cb := None) &&
            (forall b <- s.recs :: b != a ==> t.recs[b] == s.recs[b]) && t.fronts == s.fronts && t.tickled == s.tickled
  {
  }

  /** refresh: an armed timer is due its period from now; nobody is told. */
  lemma RefreshMoves(s: State, now: nat, a: nat)
    requires a in s.recs
    ensures var (t, ok) := Refresh(s, now, a);
            (ok <==> s.recs[a].cb.Some?) && t.recs.Keys == s.recs.Keys && t.fronts == s.fronts && t.tickled == s.tickled &&
            t.recs[a].Next() == (if ok then now + s.recs[a].ms else s.recs[a].Next()) &&
            t.recs[a].ms == s.recs[a].ms && t.recs[a].cb == s.recs[a].cb && t.recs[a].recurring == s.recs[a].recurring &&
            forall b <- s.recs :: b != a ==> t.recs[b] == s.recs[b]
  {
  }

  /** reset: an armed timer has the new period, and is due that long from now, or from when
      its present period began. */
  lemma ResetMoves(s: State, now: nat, a: nat, ms: nat, fromNow: bool)
    requires a in s.recs
    ensures var (t, ok) := Reset(s, now, a, ms, fromNow);
            (ok <==> (ms == s.recs[a].ms && !fromNow) || s.recs[a].cb.Some?) && t.recs.Keys == s.recs.Keys &&
            (if s.recs[a].cb.None? then t == s
             else t.recs[a].ms == ms && t.recs[a].cb == s.recs[a].cb && t.recs[a].recurring == s.recs[a].recurring &&
                  t.recs[a].Next() == if fromNow then now + ms else s.recs[a].Next() - s.recs[a].ms + ms) &&
            forall b <- s.recs :: b != a ==> t.recs[b] == s.recs[b]
  {
  }

  /** listExpiredCb: a timer whose deadline has come fires; it is due a period from now if
      it recurs, and dead if not. */
  lemma ExpireMoves(s: State, now: nat, a: nat)
    requires a in s.recs
    ensures var t, r := Expire(s, now), s.recs[a];
            t.recs.Keys == s.recs.Keys && t.fronts == s.fronts && t.tickled == s.tickled &&
            if r.cb.None? || now < r.Next() then t.recs[a] == r
            else t.recs[a].ms == r.ms && t.recs[a].recurring == r.recurring &&
                 if r.recurring then t.recs[a].cb == r.cb && t.recs[a].Next() == now + r.ms else t.recs[a].cb.None?
  {
  }

  // ---------- runs ----------

  datatype Op =
    | OpAdd(addr: nat, ms: nat, cb: Callback, recurring: bool)
    | OpCancel(addr: nat)
    | OpRefresh(addr: nat)
    | OpReset(addr: nat, ms: nat, fromNow: bool)
    | OpExpire
    | OpNext
    | OpDrop(addr: nat)     // the last reference to a dead timer goes; its address can be used again

  datatype Step = Step(now: nat, op: Op)

  predicate Allowed(s: State, op: Op)
  {
    match op
    case OpAdd(a, _, _, _) => a !in s.recs
    case OpCancel(a) => a in s.recs
    case OpRefresh(a) => a in s.recs
    case OpReset(a, _, _) => a in s.recs
    case OpDrop(a) => a in s.recs && !s.Armed(a)
    case _ => true
  }

  ghost function After(s: State, st: Step): State
    requires Allowed(s, st.op)
  {
    match st.op
    case OpAdd(a, ms, cb, recurring) => Add(s, st.now, a, ms, cb, recurring)
    case OpCancel(a) => Cancel(s, a).0
    case OpRefresh(a) => Refresh(s, st.now, a).0
    case OpReset(a, ms, fromNow) => Reset(s, st.now, a, ms, fromNow).0
    case OpExpire => Expire(s, st.now)
    case OpNext => Rest(s)
    case OpDrop(a) => s.(recs := s.recs - {a})
  }

  ghost predicate Runs(s: State, run: seq<Step>)
    decreases |run|
  {
    run == [] || (Allowed(s, run[0].op) && Runs(After(s, run[0]), run[1..]))
  }

  ghost function Final(s: State, run: seq<Step>): State
    requires Runs(s, run)
    decreases |run|
  {
    if run == [] then s else Final(After(s, run[0]), run[1..])
  }

  /** The clock does not go back. */
  predicate Monotone(now: nat, run: seq<Step>)
    decreases |run|
  {
    run == [] || (now <= run[0].now && Monotone(run[0].now, run[1..]))
  }

  /** Every period began in the past. */
  predicate Begun(s: State, now: nat)
  {
    forall a <- s.recs :: s.recs[a].start <= now
  }

  /** Since it last rested, with deadline d, the loop has been told, once; or it has not,
      and nothing armed is due before d. */
  ghost predicate Awake(s: State, fronts: nat, d: Option<nat>)
  {
    if s.tickled then s.fronts == fronts + 1
    else s.fronts == fronts && forall a :: s.Armed(a) ==> d.Some? && d.value <= s.recs[a].Next()
  }

  lemma {:induction false} StaysAwake(s: State, now: nat, run: seq<Step>, fronts: nat, d: Option<nat>)
    requires Runs(s, run) && Monotone(now, run) && forall st <- run :: !st.op.OpNext?
    requires Begun(s, now) && Awake(s, fronts, d)
    ensures Awake(Final(s, run), fronts, d)
    decreases |run|
  {
    if run != [] {
      StaysAwake(After(s, run[0]), run[0].now, run[1..], fronts, d);
    }
  }

  /** No missed wakeup: the loop sleeps for the time `wait` that getNextTimer returned at
      `now`. Whatever is added, cancelled, refreshed, reset or expired after it, either
      onTimerInsertedAtFront has been called, once, or no armed timer becomes due before
      that time is over, and none at all if there was none. */
  lemma NoMissedWakeup(s: State, wait: Option<nat>, now: nat, run: seq<Step>)
    requires Begun(s, now)
    requires wait.None? ==> forall a :: !s.Armed(a)
    requires wait.Some? && wait.value > 0 ==> forall a :: s.Armed(a) ==> now + wait.value <= s.recs[a].Next()
    requires Runs(Rest(s), run) && Monotone(now, run) && forall st <- run :: !st.op.OpNext?
    ensures var f := Final(Rest(s), run);
            s.fronts <= f.fronts <= s.fronts + 1 &&
            (f.fronts > s.fronts ||
             ((wait.None? ==> forall a :: !f.Armed(a)) &&
              (wait.Some? && wait.value > 0 ==> forall a :: f.Armed(a) ==> now + wait.value <= f.recs[a].Next())))
  {
    var d := EarliestExists(s);
    assert forall a :: Rest(s).Armed(a) <==> s.Armed(a);
    StaysAwake(Rest(s), now, run, s.fronts, d);
  }

  lemma EarliestExists(s: State) returns (d: Option<nat>)
    ensures IsEarliest(s, d)
  {
    var armed := set a | a in s.recs && s.Armed(a);
    d := EarliestOf(s, armed);
    assert forall a :: s.Armed(a) <==> a in armed;
  }

  lemma {:induction false} EarliestOf(s: State, armed: set<nat>) returns (d: Option<nat>)
    requires forall a <- armed :: s.Armed(a)
    ensures d.None? ==> armed == {}
    ensures d.Some? ==> (exists a :: s.Armed(a) && s.recs[a].Next() == d.value) && forall a <- armed :: d.value <= s.recs[a].Next()
    decreases armed
  {
    if armed == {} {
      d := None;
    } else {
      var a :| a in armed;
      var rest := EarliestOf(s, armed - {a});
      d := if rest.None? || s.recs[a].Next() < rest.value then Some(s.recs[a].Next()) else rest;
      forall b | b in armed ensures d.value <= s.recs[b].Next() {
        assert b != a ==> b in armed - {a};
      }
    }
  }

  /** From the start, every period began in the past. */
  lemma {:induction false} BegunAlways(s: State, now: nat, run: seq<Step>)
    requires Begun(s, now) && Runs(s, run) && Monotone(now, run)
    ensures Begun(Final(s, run), if run == [] then now else run[|run| - 1].now)
    decreases |run|
  {
    if run != [] {
      BegunAlways(After(s, run[0]), run[0].now, run[1..]);
    }
  }

  /** How often the timer at a fires in a run. */
  ghost function FireCount(s: State, run: seq<Step>, a: nat): nat
    requires Runs(s, run)
    decreases |run|
  {
    if run == [] then 0
    else (if run[0].op.OpExpire? && s.Due(a, run[0].now) then 1 else 0) + FireCount(After(s, run[0]), run[1..], a)
  }

  /** Nobody touches the timer at a. */
  predicate LeavesAlone(a: nat, op: Op)
  {
    op != OpCancel(a) && op != OpRefresh(a) && op != OpDrop(a) && !(op.OpReset? && op.addr == a)
  }

  /** How often a timer that nobody touches has to fire, from its deadline, its period and
      the times at which listExpiredCb is called. */
  function FireTimes(next: nat, ms: nat, recurring: bool, run: seq<Step>): nat
    decreases |run|
  {
    if run == [] then 0
    else if !run[0].op.OpExpire? || run[0].now < next then FireTimes(next, ms, recurring, run[1..])
    else if recurring then 1 + FireTimes(run[0].now + ms, ms, recurring, run[1..])
    else 1
  }

  /** So often it does: a recurring timer every time its period is over again, another one
      once. */
  lemma {:induction false} FiresOnTime(s: State, run: seq<Step>, a: nat)
    requires Runs(s, run) && s.Armed(a) && forall k :: 0 <= k < |run| ==> LeavesAlone(a, run[k].op)
    ensures FireCount(s, run, a) == FireTimes(s.recs[a].Next(), s.recs[a].ms, s.recs[a].recurring, run)
    decreases |run|
  {
    if run != [] {
      var t := After(s, run[0]);
      if t.Armed(a) {
        FiresOnTime(t, run[1..], a);
      } else {
        DeadStays(t, run[1..], a);
      }
    }
  }

  lemma {:induction false} DeadStays(s: State, run: seq<Step>, a: nat)
    requires Runs(s, run) && a in s.recs && !s.Armed(a) && forall k :: 0 <= k < |run| ==> LeavesAlone(a, run[k].op)
    ensures FireCount(s, run, a) == 0
    decreases |run|
  {
    if run != [] {
      DeadStays(After(s, run[0]), run[1..], a);
    }
  }

  /** A timer that does not recur fires once at most, and never when it is dead. */
  lemma {:induction false} FiresOnce(s: State, run: seq<Step>, a: nat)
    requires Runs(s, run) && a in s.recs && !s.recs[a].recurring && forall st <- run :: st.op != OpDrop(a)
    ensures FireCount(s, run, a) <= if s.Armed(a) then 1 else 0
    decreases |run|
  {
    if run != [] {
      FiresOnce(After(s, run[0]), run[1..], a);
    }
  }
}
