/**
 Ready lists, the wait lists of semaphores and the timers of threads together: what a thread waits for, and how
 long. Each step is a region with interrupts disabled; `rt_schedule`, which follows most of them, is a step of its
 own. Priorities are fixed, and each thread has the one-shot timer that ends its waits.
 */
module Kernel {
  import opened Seqs
  import opened Ordered
  import opened WaitList
  import S = SchedulerSpec
  import T = TimerSpec
  import Sem = SemaphoreSpec

  datatype Object = Object(policy: Policy, sem: Sem.Sem)

  datatype State = State(sched: S.Sched, wheel: T.Wheel, objs: map<nat, Object>)

  // ---------------------------------------------------------------------------------
  // The invariant
  // ---------------------------------------------------------------------------------

  /** Thread `t` is in the wait list of object `o`. */
  predicate WaitsOn(k: State, o: nat, t: nat) {
    o in k.objs && t in k.objs[o].sem.waiters.list
  }

  predicate IsSuspended(k: State, t: nat) {
    t in k.sched.threads && k.sched.threads[t].stat.Suspended?
  }

  /** The scheduler runs, and threads have the priorities they were created with. */
  ghost predicate Running(k: State, idle: nat, prio: Keys) {
    && S.Inv(k.sched, idle) && k.sched.current != S.NONE
    && forall t :: t in k.sched.threads ==>
         k.sched.threads[t].prio == k.sched.threads[t].initPrio == At(prio, t)
  }

  /** Each thread has a one-shot timer. */
  ghost predicate Timers(k: State) {
    && T.Stable(k.wheel) && k.wheel.timers.Keys == k.sched.threads.Keys
    && forall t :: t in k.wheel.timers ==> !k.wheel.timers[t].periodic
  }

  ghost predicate Objects(k: State, prio: Keys) {
    forall o :: o in k.objs ==> Sem.Inv(k.objs[o].sem, k.objs[o].policy, prio)
  }

  /**
   Only a suspended thread waits, for one object, or has its timer running; and a suspended thread does one of both,
   but for the threads in `expired`, which are about to be woken.
   */
  ghost predicate Placed(k: State, t: nat, expired: seq<nat>) {
    && (forall o :: WaitsOn(k, o, t) ==> IsSuspended(k, t))
    && (forall o, p :: WaitsOn(k, o, t) && WaitsOn(k, p, t) ==> o == p)
    && (t in k.wheel.order ==> IsSuspended(k, t))
    && (IsSuspended(k, t) ==> t in expired || t in k.wheel.order || exists o :: WaitsOn(k, o, t))
  }

  ghost predicate AllPlaced(k: State, expired: seq<nat>) {
    forall t :: Placed(k, t, expired)
  }

  ghost predicate Inv(k: State, idle: nat, prio: Keys) {
    Running(k, idle, prio) && Timers(k) && Objects(k, prio) && AllPlaced(k, [])
  }

  /**
   Every thread is in exactly one place: ready, and then once in the list of its priority and nowhere else;
   suspended, and then in one wait list, or in none and its timer runs; or in no list at all.
   */
  lemma OnePlace(k: State, idle: nat, prio: Keys, t: nat)
    requires Inv(k, idle, prio) && t in k.sched.threads
    ensures var x := k.sched.threads[t];
            match x.stat
            case Ready =>
              && x.prio < |k.sched.lists| && t in k.sched.lists[x.prio] && t !in k.wheel.order
              && (forall p :: 0 <= p < |k.sched.lists| && t in k.sched.lists[p] ==> p == x.prio)
              && (forall o :: !WaitsOn(k, o, t))
            case Suspended =>
              && (forall p :: 0 <= p < |k.sched.lists| ==> t !in k.sched.lists[p])
              && (t in k.wheel.order || exists o :: WaitsOn(k, o, t))
              && (forall o, p :: WaitsOn(k, o, t) && WaitsOn(k, p, t) ==> o == p)
            case _ =>
              && (forall p :: 0 <= p < |k.sched.lists| ==> t !in k.sched.lists[p])
              && t !in k.wheel.order && forall o :: !WaitsOn(k, o, t)
  {
    hide NoDup, At, Objects, T.Stable;
    assert Placed(k, t, []);
    forall p | 0 <= p < |k.sched.lists| ensures t in k.sched.lists[p] <==> S.ReadyAt(k.sched.threads, t, p) {
      assert S.ListOf(k.sched.threads, k.sched.lists[p], p);
    }
  }

  // ---------------------------------------------------------------------------------
  // Steps
  // ---------------------------------------------------------------------------------

  /** `rt_timer_control` and `rt_timer_start` of the timer of a thread that is about to wait for `n` ticks. */
  function SetTimer(w: T.Wheel, t: nat, n: nat): T.Wheel
    requires t in w.timers
  {
    T.Start(w.(timers := w.timers[t := w.timers[t].(init := n)]), t)
  }

  /** The current thread, if it may wait: it is ready and not the idle thread. */
  predicate MayWait(k: State, idle: nat) {
    0 <= k.sched.current && k.sched.current != idle && k.sched.current in k.sched.threads
    && k.sched.threads[k.sched.current].stat.Ready?
  }

  function SetSem(k: State, o: nat, sem: Sem.Sem): State
    requires o in k.objs
  {
    k.(objs := k.objs[o := k.objs[o].(sem := sem)])
  }

  /**
   The region of `rt_sem_take`; `time` is 0 for a try and negative to wait without an end. Where the source asserts
   that the caller may wait, and for less than half the tick range, nothing happens otherwise.
   */
  ghost function Take(k: State, idle: nat, prio: Keys, o: nat, time: int): State
    requires Inv(k, idle, prio)
  {
    if o !in k.objs || (k.objs[o].sem.value == 0 && (!MayWait(k, idle) || time >= T.HALF)) then k
    else
      var t: nat := k.sched.current;
      var (sem, outcome) := Sem.Take(k.objs[o].sem, k.objs[o].policy, prio, t, time != 0);
      var v := SetSem(k, o, sem);
      if !outcome.Waits? then v
      else
        var w := v.(sched := S.Leave(v.sched, t, S.Suspended));
        if time > 0 then w.(wheel := SetTimer(w.wheel, t, time)) else w
  }

  /** The region of `rt_sem_release`: the first waiting thread becomes ready and its timer is stopped. */
  ghost function Release(k: State, idle: nat, prio: Keys, o: nat): State
    requires Inv(k, idle, prio)
  {
    if o !in k.objs then k
    else
      var (sem, woken) := Sem.Release(k.objs[o].sem);
      var v := SetSem(k, o, sem);
      if woken == NOBODY then v
      else
        assert Placed(k, woken, []) && WaitsOn(k, o, woken);
        v.(sched := S.Insert(v.sched, woken), wheel := T.Stop(v.wheel, woken))
  }

  /** The region of `rt_thread_sleep`. */
  ghost function Sleep(k: State, idle: nat, prio: Keys, n: nat): State
    requires Inv(k, idle, prio)
  {
    if !MayWait(k, idle) || n >= T.HALF then k
    else
      var t: nat := k.sched.current;
      k.(sched := S.Leave(k.sched, t, S.Suspended), wheel := SetTimer(k.wheel, t, n))
  }

  /** The thread leaves whatever list it waits in. */
  function DropAll(objs: map<nat, Object>, t: nat): map<nat, Object> {
    map o | o in objs :: objs[o].(sem := Sem.Timeout(objs[o].sem, t))
  }

  /** `rt_thread_timeout` of each thread in `expired`. */
  function WakeAll(k: State, expired: seq<nat>): State
    decreases |expired|
  {
    if expired == [] then k
    else
      var t := expired[0];
      if t !in k.sched.threads || k.sched.threads[t].prio >= |k.sched.lists| then WakeAll(k, expired[1..])
      else WakeAll(k.(sched := S.Timeout(k.sched, t), objs := DropAll(k.objs, t)), expired[1..])
  }

  /** `rt_tick_increase`. */
  ghost function Tick(k: State, idle: nat, prio: Keys): State
    requires Inv(k, idle, prio)
  {
    var (w, expired) := T.Tick(k.wheel);
    WakeAll(k.(sched := S.Tick(k.sched), wheel := w), expired)
  }

  /** `rt_thread_exit` up to its `rt_schedule`; and `rt_thread_delete` of another thread, uninterrupted. */
  ghost function Close(k: State, idle: nat, prio: Keys, t: nat): State
    requires Inv(k, idle, prio)
  {
    if t !in k.sched.threads || t == idle then k
    else State(S.Delete(k.sched, t), T.Stop(k.wheel, t), DropAll(k.objs, t))
  }

  // ---------------------------------------------------------------------------------
  // Each step keeps the invariant
  // ---------------------------------------------------------------------------------

  lemma SetTimerStable(w: T.Wheel, t: nat, n: nat)
    requires T.Stable(w) && t in w.timers && t !in w.order && n < T.HALF && !w.timers[t].periodic
    ensures var v := SetTimer(w, t, n);
            && T.Stable(v) && v.now == w.now && At(v.due, t) == w.now + n
            && (forall u :: u != t ==> At(v.due, u) == At(w.due, u))
            && (forall u :: u in v.order <==> u == t || u in w.order)
            && v.timers.Keys == w.timers.Keys && !v.timers[t].periodic
            && (forall u :: u in w.timers && u != t ==> v.timers[u] == w.timers[u])
  {
    hide Sorted, NoDup, Place, Remove, At;
    var u := w.(timers := w.timers[t := w.timers[t].(init := n)]);
    assert T.Stable(u);
    T.StartStable(u, t);
    T.StartSound(u, t);
    AtOther(w.due, t, w.now + n);
  }

  lemma StopTimer(w: T.Wheel, t: nat)
    requires T.Stable(w) && t in w.timers
    ensures var v := T.Stop(w, t);
            && T.Stable(v) && v.now == w.now && v.due == w.due && v.timers.Keys == w.timers.Keys
            && (forall u :: u in v.order <==> u != t && u in w.order)
            && (forall u :: u in w.timers ==> v.timers[u].periodic == w.timers[u].periodic)
  {
    hide Sorted, NoDup, Remove, At;
    T.StopStable(w, t);
    T.StopSound(w, t);
  }

  /** The current thread is suspended. */
  lemma LeaveRunning(k: State, idle: nat, prio: Keys, t: nat, stat: S.Stat)
    requires Running(k, idle, prio) && t in k.sched.threads && t != idle && !stat.Ready? && !stat.Init?
    ensures k.sched.threads[t].prio < |k.sched.lists|
    ensures Running(k.(sched := S.Leave(k.sched, t, stat)), idle, prio)
  {
    hide S.ListsInv, Remove, At;
    S.LeaveInv(k.sched, idle, t, stat);
  }

  lemma InsertRunning(k: State, idle: nat, prio: Keys, t: nat)
    requires Running(k, idle, prio) && t in k.sched.threads && !k.sched.threads[t].stat.Ready?
    ensures k.sched.threads[t].prio < |k.sched.lists|
    ensures Running(k.(sched := S.Insert(k.sched, t)), idle, prio)
  {
    hide S.ListsInv, At;
    S.InsertInv(k.sched, idle, t);
  }

  /** Only thread `t` changes its place. */
  lemma Moved(k: State, v: State, t: nat, expired: seq<nat>, expired': seq<nat>)
    requires AllPlaced(k, expired) && Placed(v, t, expired')
    requires forall u :: u != t ==> (IsSuspended(v, u) <==> IsSuspended(k, u))
    requires forall u :: u != t ==> (u in v.wheel.order <==> u in k.wheel.order) && (u in expired ==> u in expired')
    requires forall o, u :: u != t ==> (WaitsOn(v, o, u) <==> WaitsOn(k, o, u))
    ensures AllPlaced(v, expired')
  {
    forall u ensures Placed(v, u, expired') {
      if u != t {
        assert Placed(k, u, expired);
        if IsSuspended(v, u) && u !in expired && u !in k.wheel.order {
          var o :| WaitsOn(k, o, u);
          assert WaitsOn(v, o, u);
        }
      }
    }
  }

  lemma SleepInv(k: State, idle: nat, prio: Keys, n: nat)
    requires Inv(k, idle, prio)
    ensures Inv(Sleep(k, idle, prio, n), idle, prio)
  {
    hide Running, Objects, T.Stable, Remove, SetTimer, At;
    if MayWait(k, idle) && n < T.HALF {
      var t: nat, v := k.sched.current, Sleep(k, idle, prio, n);
      assert Placed(k, t, []);
      SetTimerStable(k.wheel, t, n);
      LeaveRunning(k, idle, prio, t, S.Suspended);
      RunningFrame(k.(sched := v.sched), v, idle, prio);
      ObjectsFrame(k, v, prio);
      assert forall o, u :: WaitsOn(v, o, u) <==> WaitsOn(k, o, u);
      Moved(k, v, t, [], []);
    }
  }

  lemma RunningFrame(k: State, v: State, idle: nat, prio: Keys)
    requires Running(k, idle, prio) && v.sched == k.sched
    ensures Running(v, idle, prio)
  {
    hide S.Inv, At;
  }

  lemma ObjectsFrame(k: State, v: State, prio: Keys)
    requires Objects(k, prio) && v.objs == k.objs
    ensures Objects(v, prio)
  {
    hide Sem.Inv;
  }

  lemma SetSemObjects(k: State, prio: Keys, o: nat, sem: Sem.Sem)
    requires Objects(k, prio) && o in k.objs && Sem.Inv(sem, k.objs[o].policy, prio)
    ensures Objects(SetSem(k, o, sem), prio)
  {
    hide Sem.Inv;
  }

  /** Waiting for an object, for a time or without an end. */
  lemma WaitInv(k: State, idle: nat, prio: Keys, o: nat, time: int)
    requires Inv(k, idle, prio) && o in k.objs && k.objs[o].sem.value == 0 && MayWait(k, idle)
    requires time != 0 && time < T.HALF
    ensures Inv(Take(k, idle, prio, o, time), idle, prio) && WaitsOn(Take(k, idle, prio, o, time), o, k.sched.current)
  {
    hide Running, Objects, T.Stable, Remove, SetTimer, At, Place, Sem.Inv;
    var t: nat, v, x := k.sched.current, Take(k, idle, prio, o, time), k.objs[o];
    assert Placed(k, t, []) && !IsSuspended(k, t) && !WaitsOn(k, o, t);
    ObjectInv(k, prio, o);
    Sem.TakeInv(x.sem, x.policy, prio, t, true);
    SetSemObjects(k, prio, o, Sem.Take(x.sem, x.policy, prio, t, true).0);
    ObjectsFrame(SetSem(k, o, Sem.Take(x.sem, x.policy, prio, t, true).0), v, prio);
    LeaveRunning(k, idle, prio, t, S.Suspended);
    RunningFrame(k.(sched := v.sched), v, idle, prio);
    EnqueueElements(x.sem.waiters.list, x.policy, prio, t);
    if time > 0 {
      SetTimerStable(k.wheel, t, time);
    }
    assert WaitsOn(v, o, t);
    assert forall p :: WaitsOn(v, p, t) ==> p == o || WaitsOn(k, p, t);
    assert forall p, u :: u != t ==> (WaitsOn(v, p, u) <==> WaitsOn(k, p, u));
    Moved(k, v, t, [], []);
  }

  lemma TakeInv(k: State, idle: nat, prio: Keys, o: nat, time: int)
    requires Inv(k, idle, prio)
    ensures Inv(Take(k, idle, prio, o, time), idle, prio)
  {
    hide Running, Objects, T.Stable, Remove, SetTimer, At, Place, Sem.Inv;
    if o in k.objs {
      var v, x := Take(k, idle, prio, o, time), k.objs[o];
      if x.sem.value > 0 {
        ObjectInv(k, prio, o);
        TakeNow(x.sem, x.policy, prio);
        SetSemObjects(k, prio, o, x.sem.(value := x.sem.value - 1, takes := x.sem.takes + 1));
        RunningFrame(k, v, idle, prio);
        assert forall p, u :: WaitsOn(v, p, u) <==> WaitsOn(k, p, u);
        SamePlaces(k, v);
      } else if MayWait(k, idle) && time < T.HALF {
        if time != 0 {
          WaitInv(k, idle, prio, o, time);
        } else {
          assert v == k by {
            assert k.objs[o := k.objs[o]] == k.objs;
          }
        }
      }
    }
  }

  lemma TakeNow(s: Sem.Sem, policy: Policy, prio: Keys)
    requires Sem.Inv(s, policy, prio) && s.value > 0
    ensures Sem.Inv(s.(value := s.value - 1, takes := s.takes + 1), policy, prio)
  {
    hide Fair;
    Sem.TakeInv(s, policy, prio, 0, false);
  }

  lemma ObjectInv(k: State, prio: Keys, o: nat)
    requires Objects(k, prio) && o in k.objs
    ensures Sem.Inv(k.objs[o].sem, k.objs[o].policy, prio)
  {
    hide Sem.Inv;
  }

  lemma ReleaseInv(k: State, idle: nat, prio: Keys, o: nat)
    requires Inv(k, idle, prio)
    ensures Inv(Release(k, idle, prio, o), idle, prio)
  {
    hide Running, Objects, T.Stable, Remove, At, Sem.Inv, T.Stop, S.Insert;
    if o in k.objs {
      var v, x := Release(k, idle, prio, o), k.objs[o];
      var (sem, woken) := Sem.Release(x.sem);
      ObjectInv(k, prio, o);
      Sem.ReleaseInv(x.sem, x.policy, prio);
      SetSemObjects(k, prio, o, sem);
      ObjectsFrame(SetSem(k, o, sem), v, prio);
      if woken == NOBODY {
        RunningFrame(k, v, idle, prio);
        assert forall p, u :: WaitsOn(v, p, u) <==> WaitsOn(k, p, u);
        SamePlaces(k, v);
      } else {
        assert Placed(k, woken, []) && WaitsOn(k, o, woken);
        StopTimer(k.wheel, woken);
        InsertRunning(k, idle, prio, woken);
        RunningFrame(k.(sched := v.sched), v, idle, prio);
        WokenGone(x.sem.waiters, woken);
        InsertStat(k.sched, woken);
        assert forall p :: WaitsOn(v, p, woken) ==> p != o && WaitsOn(k, p, woken);
        assert forall p, u :: u != woken ==> (WaitsOn(v, p, u) <==> WaitsOn(k, p, u));
        Moved(k, v, woken, [], []);
      }
    }
  }

  lemma InsertStat(s: S.Sched, t: nat)
    requires t in s.threads && s.threads[t].prio < |s.lists|
    ensures var v := S.Insert(s, t);
            && v.threads.Keys == s.threads.Keys && v.threads[t].stat.Ready?
            && forall u :: u in s.threads && u != t ==> v.threads[u] == s.threads[u]
  {
  }

  lemma WokenGone(w: Waiters, t: nat)
    ensures forall u :: u in Drop(w, t).list <==> u != t && u in w.list
  {
    forall u ensures u in Drop(w, t).list <==> u != t && u in w.list {
      RemoveElements(w.list, t, u);
    }
  }

  lemma SamePlaces(k: State, v: State)
    requires AllPlaced(k, []) && forall u :: IsSuspended(v, u) <==> IsSuspended(k, u)
    requires forall u :: u in v.wheel.order <==> u in k.wheel.order
    requires forall o, u :: WaitsOn(v, o, u) <==> WaitsOn(k, o, u)
    ensures AllPlaced(v, [])
  {
    forall u ensures Placed(v, u, []) {
      assert Placed(k, u, []);
      if IsSuspended(v, u) && u !in k.wheel.order {
        var o :| WaitsOn(k, o, u);
        assert WaitsOn(v, o, u);
      }
    }
  }

  lemma DropAllKeeps(k: State, v: State, prio: Keys, t: nat)
    requires Objects(k, prio) && v.objs == DropAll(k.objs, t)
    ensures Objects(v, prio) && forall o, u :: WaitsOn(v, o, u) <==> u != t && WaitsOn(k, o, u)
  {
    hide Sem.Inv;
    forall o | o in v.objs ensures Sem.Inv(v.objs[o].sem, v.objs[o].policy, prio) {
      Sem.TimeoutInv(k.objs[o].sem, k.objs[o].policy, prio, t);
    }
    forall o, u ensures WaitsOn(v, o, u) <==> u != t && WaitsOn(k, o, u) {
      if o in k.objs {
        WokenGone(k.objs[o].sem.waiters, t);
      }
    }
  }

  /** One expired thread is woken. */
  lemma WakeOne(k: State, idle: nat, prio: Keys, t: nat, expired: seq<nat>)
    requires Running(k, idle, prio) && Timers(k) && Objects(k, prio) && AllPlaced(k, [t] + expired)
    requires IsSuspended(k, t) && t !in k.wheel.order
    ensures k.sched.threads[t].prio < |k.sched.lists|
    ensures var v := k.(sched := S.Timeout(k.sched, t), objs := DropAll(k.objs, t));
            && Running(v, idle, prio) && Timers(v) && Objects(v, prio) && AllPlaced(v, expired)
            && forall u :: IsSuspended(v, u) <==> u != t && IsSuspended(k, u)
  {
    hide Running, Objects, T.Stable, At, S.Insert, S.Schedule, DropAll;
    InsertRunning(k, idle, prio, t);
    var v := k.(sched := S.Timeout(k.sched, t), objs := DropAll(k.objs, t));
    ScheduleRunning(k.(sched := S.Insert(k.sched, t)), idle, prio);
    RunningFrame(k.(sched := v.sched), v, idle, prio);
    InsertStat(k.sched, t);
    DropAllKeeps(k, v, prio, t);
    Moved(k, v, t, [t] + expired, expired);
  }

  lemma ScheduleRunning(k: State, idle: nat, prio: Keys)
    requires Running(k, idle, prio)
    ensures Running(k.(sched := S.Schedule(k.sched)), idle, prio)
    ensures S.Schedule(k.sched).threads == k.sched.threads
  {
    hide S.ListsInv, At;
    S.SchedulePicks(k.sched, idle);
  }

  lemma {:induction false} WakeAllInv(k: State, idle: nat, prio: Keys, expired: seq<nat>)
    requires Running(k, idle, prio) && Timers(k) && Objects(k, prio) && AllPlaced(k, expired) && NoDup(expired)
    requires forall t :: t in expired ==> IsSuspended(k, t) && t !in k.wheel.order
    ensures var v := WakeAll(k, expired);
            Inv(v, idle, prio) && v.wheel == k.wheel
            && forall u :: IsSuspended(v, u) <==> u !in expired && IsSuspended(k, u)
    decreases |expired|
  {
    hide Running, Objects, Timers, AllPlaced, DropAll, S.Timeout, NoDup;
    if expired != [] {
      var t, rest := expired[0], expired[1..];
      assert expired == [t] + rest;
      DropNoDup(expired);
      WakeOne(k, idle, prio, t, rest);
      var v := k.(sched := S.Timeout(k.sched, t), objs := DropAll(k.objs, t));
      WakeAllInv(v, idle, prio, rest);
    }
  }

  /** What a tick does to one-shot timers: those due fire, the others stay with the time they had. */
  lemma TimersTick(w: T.Wheel)
    requires T.Stable(w) && forall t :: t in w.timers ==> !w.timers[t].periodic
    ensures T.Sound(w)
    ensures var (v, expired) := T.Tick(w);
            && T.Stable(v) && v.now == w.now + 1 && v.timers.Keys == w.timers.Keys && NoDup(expired)
            && (forall t :: t in v.timers ==> !v.timers[t].periodic)
            && (forall t :: t in expired <==> t in w.order && At(w.due, t) <= w.now + 1)
            && (forall t :: t in v.order <==> t in w.order && t !in expired)
            && (forall t :: t in v.order ==> At(v.due, t) == At(w.due, t) && v.now < At(v.due, t))
  {
    hide Sorted, NoDup, At, UpTo, T.Check;
    var u := w.(now := w.now + 1);
    assert T.Sound(u);
    T.TickStable(w);
    T.CheckFires(u);
    UpToPrefix(u.order, u.due, u.now);
    var e := UpTo(u.order, u.due, u.now);
    PrefixNoDup(u.order, |e|);
    forall t ensures t in e <==> t in w.order && At(w.due, t) <= w.now + 1 {
      InPrefix(u.order, u.due, u.now, |e|, t);
    }
    var v := T.Tick(w).0;
    forall t ensures t in v.order <==> t in w.order && t !in e {
      if t in w.timers {
        assert v.timers[t].active <==> t in v.order;
        assert w.timers[t].active <==> t in w.order;
      }
    }
  }

  lemma PrefixNoDup(s: seq<nat>, k: nat)
    requires NoDup(s) && k <= |s|
    ensures NoDup(s[..k])
  {
  }

  lemma SchedTick(k: State, idle: nat, prio: Keys)
    requires Running(k, idle, prio)
    ensures 0 <= k.sched.current && k.sched.current in k.sched.threads
    ensures k.sched.threads[k.sched.current].prio < |k.sched.lists|
    ensures var v := k.(sched := S.Tick(k.sched));
            && Running(v, idle, prio) && v.sched.threads.Keys == k.sched.threads.Keys
            && forall u :: IsSuspended(v, u) <==> IsSuspended(k, u)
  {
    hide S.ListsInv, Remove, S.Top, At;
    S.TickInv(k.sched, idle);
  }

  lemma TickInv(k: State, idle: nat, prio: Keys)
    requires Inv(k, idle, prio)
    ensures var v, expired := Tick(k, idle, prio), T.Tick(k.wheel).1;
            && Inv(v, idle, prio) && v.wheel == T.Tick(k.wheel).0
            && forall u :: IsSuspended(v, u) <==> u !in expired && IsSuspended(k, u)
  {
    hide Running, Objects, T.Stable, At, T.Tick, S.Tick, WakeAll, NoDup;
    SchedTick(k, idle, prio);
    TimersTick(k.wheel);
    var (w, expired) := T.Tick(k.wheel);
    var v := k.(sched := S.Tick(k.sched), wheel := w);
    RunningFrame(k.(sched := v.sched), v, idle, prio);
    ObjectsFrame(k, v, prio);
    forall u ensures Placed(v, u, expired) {
      assert Placed(k, u, []);
      assert forall o :: WaitsOn(v, o, u) <==> WaitsOn(k, o, u);
    }
    forall t | t in expired ensures IsSuspended(v, t) {
      assert Placed(k, t, []);
    }
    WakeAllInv(v, idle, prio, expired);
  }

  lemma CloseInv(k: State, idle: nat, prio: Keys, t: nat)
    requires Inv(k, idle, prio)
    ensures Inv(Close(k, idle, prio, t), idle, prio)
  {
    hide Running, Objects, T.Stable, At, Remove, T.Stop, DropAll;
    if t in k.sched.threads && t != idle {
      var v := Close(k, idle, prio, t);
      LeaveRunning(k, idle, prio, t, S.Closed);
      CloseRunning(k, idle, prio, t);
      StopTimer(k.wheel, t);
      RunningFrame(k.(sched := v.sched), v, idle, prio);
      DropAllKeeps(k, v, prio, t);
      Moved(k, v, t, [], []);
    }
  }

  lemma CloseRunning(k: State, idle: nat, prio: Keys, t: nat)
    requires Running(k, idle, prio) && t in k.sched.threads && t != idle
    ensures k.sched.threads[t].prio < |k.sched.lists|
    ensures Running(k.(sched := S.Delete(k.sched, t)), idle, prio)
  {
    hide S.ListsInv, Remove, At;
    S.FitOf(k.sched, idle, t);
    S.StepInv(k.sched, idle, S.DoDelete(t));
  }

  /** A thread is created with its timer. */
  function Create(k: State, prio: Keys, t: nat, slice: nat): State {
    if t in k.sched.threads || At(prio, t) >= |k.sched.lists| then k
    else
      k.(sched := k.sched.(threads := k.sched.threads[t := S.Thread(S.Init, At(prio, t), At(prio, t), slice, slice)]),
         wheel := k.wheel.(timers := k.wheel.timers[t := T.Timer(0, 0, false, false)]))
  }

  lemma CreateRunning(k: State, idle: nat, prio: Keys, t: nat, slice: nat)
    requires Running(k, idle, prio) && t !in k.sched.threads && At(prio, t) < |k.sched.lists|
    ensures Running(Create(k, prio, t, slice), idle, prio)
  {
    hide S.ListsInv, At;
    S.CreateInv(k.sched, idle, t, S.Thread(S.Init, At(prio, t), At(prio, t), slice, slice));
  }

  lemma CreateTimer(w: T.Wheel, t: nat)
    requires T.Stable(w) && t !in w.timers
    ensures T.Stable(w.(timers := w.timers[t := T.Timer(0, 0, false, false)]))
  {
    hide Sorted, NoDup, At;
  }

  lemma CreateInv(k: State, idle: nat, prio: Keys, t: nat, slice: nat)
    requires Inv(k, idle, prio)
    ensures Inv(Create(k, prio, t, slice), idle, prio)
  {
    hide Running, Objects, T.Stable, At;
    if t !in k.sched.threads && At(prio, t) < |k.sched.lists| {
      var v := Create(k, prio, t, slice);
      CreateRunning(k, idle, prio, t, slice);
      CreateTimer(k.wheel, t);
      ObjectsFrame(k, v, prio);
      assert forall o, u :: WaitsOn(v, o, u) <==> WaitsOn(k, o, u);
      SamePlaces(k, v);
    }
  }

  /** `rt_thread_startup`, uninterrupted. */
  ghost function Startup(k: State, idle: nat, prio: Keys, t: nat): State
    requires Inv(k, idle, prio)
  {
    if t !in k.sched.threads || !k.sched.threads[t].stat.Init? then k else k.(sched := S.Startup(k.sched, t))
  }

  lemma StartupRunning(k: State, idle: nat, prio: Keys, t: nat)
    requires Running(k, idle, prio) && t in k.sched.threads && k.sched.threads[t].stat.Init?
    ensures k.sched.threads[t].initPrio < |k.sched.lists|
    ensures var v := k.(sched := S.Startup(k.sched, t));
            && Running(v, idle, prio) && v.sched.threads.Keys == k.sched.threads.Keys
            && forall u :: IsSuspended(v, u) <==> IsSuspended(k, u)
  {
    hide S.ListsInv, S.Top, At;
    S.StartupInv(k.sched, idle, t);
  }

  lemma StartupInv(k: State, idle: nat, prio: Keys, t: nat)
    requires Inv(k, idle, prio)
    ensures Inv(Startup(k, idle, prio, t), idle, prio)
  {
    hide Running, Objects, T.Stable, S.Startup;
    if t in k.sched.threads && k.sched.threads[t].stat.Init? {
      StartupRunning(k, idle, prio, t);
      var v := Startup(k, idle, prio, t);
      ObjectsFrame(k, v, prio);
      assert forall o, u :: WaitsOn(v, o, u) <==> WaitsOn(k, o, u);
      SamePlaces(k, v);
    }
  }

  // ---------------------------------------------------------------------------------
  // Runs
  // ---------------------------------------------------------------------------------

  datatype Op =
    | DoCreate(t: nat, slice: nat)
    | DoStartup(t: nat)
    | DoTake(o: nat, time: int)
    | DoRelease(o: nat)
    | DoSleep(n: nat)
    | DoClose(t: nat)
    | DoYield
    | DoSchedule
    | DoEnterCritical
    | DoExitCritical
    | DoTick

  /** Scheduling in its various forms. */
  ghost function Scheduling(k: State, idle: nat, prio: Keys, op: S.Op): State
    requires Inv(k, idle, prio)
  {
    k.(sched := S.Step(k.sched, idle, op))
  }

  lemma SchedulingInv(k: State, idle: nat, prio: Keys, op: S.Op)
    requires Inv(k, idle, prio)
    requires op.DoYield? || op.DoSchedule? || op.DoEnterCritical? || op.DoExitCritical?
    ensures var v := Scheduling(k, idle, prio, op);
            Inv(v, idle, prio) && v.sched.threads == k.sched.threads
  {
    hide Objects, At, S.ListsInv, T.Stable, S.Top, Remove;
    var v := Scheduling(k, idle, prio, op);
    ObjectsFrame(k, v, prio);
    assert forall o, u :: WaitsOn(v, o, u) <==> WaitsOn(k, o, u);
    SamePlaces(k, v);
  }

  ghost function Step(k: State, idle: nat, prio: Keys, op: Op): (v: State)
    requires Inv(k, idle, prio)
    ensures Inv(v, idle, prio)
  {
    match op
    case DoCreate(t, slice) =>
      CreateInv(k, idle, prio, t, slice);
      Create(k, prio, t, slice)
    case DoStartup(t) =>
      StartupInv(k, idle, prio, t);
      Startup(k, idle, prio, t)
    case DoTake(o, time) =>
      TakeInv(k, idle, prio, o, time);
      Take(k, idle, prio, o, time)
    case DoRelease(o) =>
      ReleaseInv(k, idle, prio, o);
      Release(k, idle, prio, o)
    case DoSleep(n) =>
      SleepInv(k, idle, prio, n);
      Sleep(k, idle, prio, n)
    case DoClose(t) =>
      CloseInv(k, idle, prio, t);
      Close(k, idle, prio, t)
    case DoYield =>
      SchedulingInv(k, idle, prio, S.DoYield);
      Scheduling(k, idle, prio, S.DoYield)
    case DoSchedule =>
      SchedulingInv(k, idle, prio, S.DoSchedule);
      Scheduling(k, idle, prio, S.DoSchedule)
    case DoEnterCritical =>
      SchedulingInv(k, idle, prio, S.DoEnterCritical);
      Scheduling(k, idle, prio, S.DoEnterCritical)
    case DoExitCritical =>
      SchedulingInv(k, idle, prio, S.DoExitCritical);
      Scheduling(k, idle, prio, S.DoExitCritical)
    case DoTick =>
      TickInv(k, idle, prio);
      Tick(k, idle, prio)
  }

  ghost function Run(k: State, idle: nat, prio: Keys, ops: seq<Op>): (v: State)
    requires Inv(k, idle, prio)
    ensures Inv(v, idle, prio)
    decreases |ops|
  {
    if ops == [] then k else Run(Step(k, idle, prio, ops[0]), idle, prio, ops[1..])
  }

  // ---------------------------------------------------------------------------------
  // A timed wait ends within its ticks
  // ---------------------------------------------------------------------------------

  function Ticks(ops: seq<Op>): nat {
    if ops == [] then 0 else (if ops[0].DoTick? then 1 else 0) + Ticks(ops[1..])
  }

  /** Somewhere on the way the thread is not suspended. */
  ghost predicate Resumed(k: State, idle: nat, prio: Keys, ops: seq<Op>, t: nat)
    requires Inv(k, idle, prio)
    decreases |ops|
  {
    !IsSuspended(k, t) || (ops != [] && Resumed(Step(k, idle, prio, ops[0]), idle, prio, ops[1..], t))
  }

  /** Thread `t` waits until tick `d`. */
  ghost predicate WaitsUntil(k: State, t: nat, d: nat) {
    IsSuspended(k, t) && t in k.wheel.order && At(k.wheel.due, t) == d && k.wheel.now <= d
  }

  /** No step moves the end of a wait, and a tick at its end ends it. */
  lemma WaitGoesOn(k: State, idle: nat, prio: Keys, op: Op, t: nat, d: nat)
    requires Inv(k, idle, prio) && WaitsUntil(k, t, d)
    ensures var v := Step(k, idle, prio, op);
            && v.wheel.now == k.wheel.now + (if op.DoTick? then 1 else 0)
            && (IsSuspended(v, t) ==> WaitsUntil(v, t, d))
            && (op.DoTick? ==> (IsSuspended(v, t) <==> k.wheel.now + 1 < d))
  {
    hide Running, Objects, T.Stable, At, Remove, S.Schedule, T.Stop, SetTimer, DropAll, WakeAll, T.Tick;
    match op
    case DoTick =>
      TickInv(k, idle, prio);
      TimersTick(k.wheel);
    case DoTake(o, time) =>
      TakeElse(k, idle, prio, o, time, t);
    case DoSleep(n) =>
      SleepElse(k, idle, prio, n, t);
    case DoRelease(o) =>
      ReleaseElse(k, idle, prio, o, t);
    case DoClose(u) =>
      if u in k.sched.threads && u != idle {
        StopTimer(k.wheel, u);
        assert u == t ==> !IsSuspended(Close(k, idle, prio, u), t);
      }
    case DoCreate(_, _) =>
    case DoStartup(_) =>
    case DoYield => SchedulingInv(k, idle, prio, S.DoYield);
    case DoSchedule => SchedulingInv(k, idle, prio, S.DoSchedule);
    case DoEnterCritical => SchedulingInv(k, idle, prio, S.DoEnterCritical);
    case DoExitCritical => SchedulingInv(k, idle, prio, S.DoExitCritical);
  }

  lemma TakeElse(k: State, idle: nat, prio: Keys, o: nat, time: int, t: nat)
    requires Inv(k, idle, prio) && IsSuspended(k, t) && t in k.wheel.order
    ensures var v := Take(k, idle, prio, o, time);
            && v.wheel.now == k.wheel.now && IsSuspended(v, t) && t in v.wheel.order
            && At(v.wheel.due, t) == At(k.wheel.due, t)
  {
    hide Running, Objects, T.Stable, At, Remove, SetTimer, Place;
    if o in k.objs && k.objs[o].sem.value == 0 && MayWait(k, idle) && 0 < time < T.HALF {
      assert Placed(k, k.sched.current, []);
      SetTimerStable(k.wheel, k.sched.current, time);
    }
  }

  lemma SleepElse(k: State, idle: nat, prio: Keys, n: nat, t: nat)
    requires Inv(k, idle, prio) && IsSuspended(k, t) && t in k.wheel.order
    ensures var v := Sleep(k, idle, prio, n);
            && v.wheel.now == k.wheel.now && IsSuspended(v, t) && t in v.wheel.order
            && At(v.wheel.due, t) == At(k.wheel.due, t)
  {
    hide Running, Objects, T.Stable, At, Remove, SetTimer;
    if MayWait(k, idle) && n < T.HALF {
      assert Placed(k, k.sched.current, []);
      SetTimerStable(k.wheel, k.sched.current, n);
    }
  }

  lemma ReleaseElse(k: State, idle: nat, prio: Keys, o: nat, t: nat)
    requires Inv(k, idle, prio) && IsSuspended(k, t) && t in k.wheel.order
    ensures var v := Release(k, idle, prio, o);
            && v.wheel.now == k.wheel.now && At(v.wheel.due, t) == At(k.wheel.due, t)
            && (IsSuspended(v, t) ==> t in v.wheel.order)
  {
    hide Running, Objects, T.Stable, At, Remove, T.Stop, S.Insert;
    if o in k.objs {
      var woken := Sem.Release(k.objs[o].sem).1;
      if woken != NOBODY {
        assert Placed(k, woken, []) && WaitsOn(k, o, woken);
        StopTimer(k.wheel, woken);
        InsertRunning(k, idle, prio, woken);
        InsertStat(k.sched, woken);
      }
    }
  }

  /**
   Whatever happens, a thread that waits until tick `d` is resumed at some point of a run that reaches that tick,
   or has one tick if the time is up already; and if it is not resumed before, it still waits until `d`.
   */
  lemma {:induction false} TimedWait(k: State, idle: nat, prio: Keys, ops: seq<Op>, t: nat, d: nat)
    requires Inv(k, idle, prio) && WaitsUntil(k, t, d)
    ensures 1 <= Ticks(ops) && d <= k.wheel.now + Ticks(ops) ==> Resumed(k, idle, prio, ops, t)
    ensures !Resumed(k, idle, prio, ops, t) ==> WaitsUntil(Run(k, idle, prio, ops), t, d)
    decreases |ops|
  {
    hide Inv, Step, At;
    if ops != [] {
      WaitGoesOn(k, idle, prio, ops[0], t, d);
      var v := Step(k, idle, prio, ops[0]);
      if IsSuspended(v, t) {
        TimedWait(v, idle, prio, ops[1..], t, d);
        if 1 <= Ticks(ops) && d <= k.wheel.now + Ticks(ops) {
          assert Resumed(v, idle, prio, ops[1..], t);
        }
      } else {
        assert Resumed(v, idle, prio, ops[1..], t);
      }
    }
  }

  /** A take that may wait for `time` ticks is over after as many ticks, whoever releases the semaphore or not. */
  lemma TakeEnds(k: State, idle: nat, prio: Keys, o: nat, time: int, ops: seq<Op>)
    requires Inv(k, idle, prio) && o in k.objs && MayWait(k, idle) && 0 < time < T.HALF
    ensures var v, t: nat := Take(k, idle, prio, o, time), k.sched.current;
            && Inv(v, idle, prio)
            && (k.objs[o].sem.value == 0 ==> WaitsUntil(v, t, k.wheel.now + time) && WaitsOn(v, o, t))
            && (time <= Ticks(ops) ==> Resumed(v, idle, prio, ops, t))
  {
    hide Running, Objects, T.Stable, At, Remove, SetTimer, Place, Sem.Inv;
    var v, t: nat := Take(k, idle, prio, o, time), k.sched.current;
    TakeInv(k, idle, prio, o, time);
    if k.objs[o].sem.value == 0 {
      WaitInv(k, idle, prio, o, time);
      assert Placed(k, t, []);
      SetTimerStable(k.wheel, t, time);
      TimedWait(v, idle, prio, ops, t, k.wheel.now + time);
    }
  }

  lemma SleepWaits(k: State, idle: nat, prio: Keys, n: nat)
    requires Inv(k, idle, prio) && MayWait(k, idle) && n < T.HALF
    ensures var v, t: nat := Sleep(k, idle, prio, n), k.sched.current;
            Inv(v, idle, prio) && WaitsUntil(v, t, k.wheel.now + n) && v.wheel.now == k.wheel.now
            && forall o :: !WaitsOn(v, o, t)
  {
    hide Running, Objects, T.Stable, At, Remove, SetTimer;
    var v, t: nat := Sleep(k, idle, prio, n), k.sched.current;
    SleepInv(k, idle, prio, n);
    assert Placed(k, t, []);
    SetTimerStable(k.wheel, t, n);
    assert forall o :: WaitsOn(v, o, t) ==> WaitsOn(k, o, t);
  }

  /** A sleep lasts exactly its ticks, and a sleep of none until the next, unless the thread is deleted. */
  lemma SleepEnds(k: State, idle: nat, prio: Keys, n: nat, ops: seq<Op>)
    requires Inv(k, idle, prio) && MayWait(k, idle) && n < T.HALF
    requires forall i :: 0 <= i < |ops| ==> ops[i] != DoClose(k.sched.current)
    ensures var v, t: nat := Sleep(k, idle, prio, n), k.sched.current;
            && Inv(v, idle, prio) && WaitsUntil(v, t, k.wheel.now + n)
            && (Resumed(v, idle, prio, ops, t) <==> 1 <= Ticks(ops) && n <= Ticks(ops))
  {
    hide Inv, At, Sleep, WaitsUntil, Resumed, Ticks, WaitsOn;
    var v, t: nat := Sleep(k, idle, prio, n), k.sched.current;
    SleepWaits(k, idle, prio, n);
    TimedWait(v, idle, prio, ops, t, k.wheel.now + n);
    if Ticks(ops) == 0 || Ticks(ops) < n {
      NotEarly(v, idle, prio, ops, t, k.wheel.now + n);
    }
  }

  /** A thread that waits for its timer alone is not woken before its time. */
  lemma {:induction false} NotEarly(k: State, idle: nat, prio: Keys, ops: seq<Op>, t: nat, d: nat)
    requires Inv(k, idle, prio) && WaitsUntil(k, t, d) && forall o :: !WaitsOn(k, o, t)
    requires forall i :: 0 <= i < |ops| ==> ops[i] != DoClose(t)
    requires Ticks(ops) == 0 || k.wheel.now + Ticks(ops) < d
    ensures !Resumed(k, idle, prio, ops, t)
    decreases |ops|
  {
    hide Inv, Step, At;
    if ops != [] {
      WaitGoesOn(k, idle, prio, ops[0], t, d);
      StillAlone(k, idle, prio, ops[0], t);
      NotEarly(Step(k, idle, prio, ops[0]), idle, prio, ops[1..], t, d);
    }
  }

  /** Nobody but its timer, or a delete, resumes a thread that is in no wait list. */
  lemma StillAlone(k: State, idle: nat, prio: Keys, op: Op, t: nat)
    requires Inv(k, idle, prio) && IsSuspended(k, t) && t in k.wheel.order && forall o :: !WaitsOn(k, o, t)
    requires op != DoClose(t)
    ensures var v := Step(k, idle, prio, op);
            && (forall o :: !WaitsOn(v, o, t)) && (!op.DoTick? ==> IsSuspended(v, t))
  {
    hide Running, Objects, T.Stable, At, Remove, T.Stop, SetTimer, DropAll, Tick, Place;
    hide Take, Release, Sleep, Scheduling;
    match op
    case DoTick => AloneTick(k, idle, prio, t);
    case DoTake(o, time) =>
      TakeElse(k, idle, prio, o, time, t);
      AloneTake(k, idle, prio, o, time, t);
    case DoSleep(n) =>
      SleepElse(k, idle, prio, n, t);
      AloneSleep(k, idle, prio, n, t);
    case DoRelease(o) => AloneRelease(k, idle, prio, o, t);
    case DoClose(u) =>
      if u in k.sched.threads && u != idle {
        DropAllKeeps(k, Close(k, idle, prio, u), prio, u);
      }
    case DoCreate(u, slice) => AloneFrame(k, Create(k, prio, u, slice), t);
    case DoStartup(u) =>
      if u in k.sched.threads && k.sched.threads[u].stat.Init? {
        StartupRunning(k, idle, prio, u);
      }
      AloneFrame(k, Startup(k, idle, prio, u), t);
    case DoYield => AloneScheduling(k, idle, prio, S.DoYield, t);
    case DoSchedule => AloneScheduling(k, idle, prio, S.DoSchedule, t);
    case DoEnterCritical => AloneScheduling(k, idle, prio, S.DoEnterCritical, t);
    case DoExitCritical => AloneScheduling(k, idle, prio, S.DoExitCritical, t);
  }

  lemma AloneFrame(k: State, v: State, t: nat)
    requires v.objs == k.objs && forall o :: !WaitsOn(k, o, t)
    ensures forall o :: !WaitsOn(v, o, t)
  {
    forall o ensures !WaitsOn(v, o, t) {
      assert !WaitsOn(k, o, t);
    }
  }

  lemma AloneScheduling(k: State, idle: nat, prio: Keys, op: S.Op, t: nat)
    requires Inv(k, idle, prio) && IsSuspended(k, t) && forall o :: !WaitsOn(k, o, t)
    requires op.DoYield? || op.DoSchedule? || op.DoEnterCritical? || op.DoExitCritical?
    ensures var v := Scheduling(k, idle, prio, op); IsSuspended(v, t) && forall o :: !WaitsOn(v, o, t)
  {
    hide Inv, S.Step;
    SchedulingInv(k, idle, prio, op);
    AloneFrame(k, Scheduling(k, idle, prio, op), t);
  }

  lemma AloneSleep(k: State, idle: nat, prio: Keys, n: nat, t: nat)
    requires Inv(k, idle, prio) && forall o :: !WaitsOn(k, o, t)
    ensures forall o :: !WaitsOn(Sleep(k, idle, prio, n), o, t)
  {
    hide Running, Objects, T.Stable, At, Remove, SetTimer;
    AloneFrame(k, Sleep(k, idle, prio, n), t);
  }

  lemma AloneTake(k: State, idle: nat, prio: Keys, o: nat, time: int, t: nat)
    requires Inv(k, idle, prio) && IsSuspended(k, t) && forall p :: !WaitsOn(k, p, t)
    ensures forall p :: !WaitsOn(Take(k, idle, prio, o, time), p, t)
  {
    hide Running, Objects, T.Stable, At, Remove, SetTimer, Place, Timers;
    if o in k.objs && k.objs[o].sem.value == 0 && MayWait(k, idle) {
      EnqueueElements(k.objs[o].sem.waiters.list, k.objs[o].policy, prio, k.sched.current);
    }
    forall p ensures !WaitsOn(Take(k, idle, prio, o, time), p, t) {
      assert !WaitsOn(k, p, t);
    }
  }

  lemma AloneRelease(k: State, idle: nat, prio: Keys, o: nat, t: nat)
    requires Inv(k, idle, prio) && IsSuspended(k, t) && forall p :: !WaitsOn(k, p, t)
    ensures var v := Release(k, idle, prio, o); IsSuspended(v, t) && forall p :: !WaitsOn(v, p, t)
  {
    hide Running, Objects, T.Stable, At, Remove, T.Stop, S.Insert;
    if o in k.objs {
      var v, woken := Release(k, idle, prio, o), Sem.Release(k.objs[o].sem).1;
      if woken != NOBODY {
        assert Placed(k, woken, []) && WaitsOn(k, o, woken);
        InsertRunning(k, idle, prio, woken);
        InsertStat(k.sched, woken);
      }
      forall p ensures !WaitsOn(v, p, t) {
        assert !WaitsOn(k, p, t);
      }
    }
  }

  lemma AloneTick(k: State, idle: nat, prio: Keys, t: nat)
    requires Inv(k, idle, prio) && forall o :: !WaitsOn(k, o, t)
    ensures forall o :: !WaitsOn(Tick(k, idle, prio), o, t)
  {
    hide Running, Objects, T.Stable, At, S.Tick, WakeAll, NoDup, T.Tick;
    SchedTick(k, idle, prio);
    TimersTick(k.wheel);
    var (w, expired) := T.Tick(k.wheel);
    var v := k.(sched := S.Tick(k.sched), wheel := w);
    forall o ensures !WaitsOn(v, o, t) {
      assert !WaitsOn(k, o, t);
    }
    AloneWake(v, expired, t);
  }

  lemma {:induction false} AloneWake(k: State, expired: seq<nat>, t: nat)
    requires forall o :: !WaitsOn(k, o, t)
    ensures forall o :: !WaitsOn(WakeAll(k, expired), o, t)
    decreases |expired|
  {
    hide S.Timeout;
    if expired != [] {
      var u := expired[0];
      if u in k.sched.threads && k.sched.threads[u].prio < |k.sched.lists| {
        var v := k.(sched := S.Timeout(k.sched, u), objs := DropAll(k.objs, u));
        forall o ensures !WaitsOn(v, o, t) {
          assert !WaitsOn(k, o, t);
          if o in k.objs {
            WokenGone(k.objs[o].sem.waiters, u);
          }
        }
        AloneWake(v, expired[1..], t);
      } else {
        AloneWake(k, expired[1..], t);
      }
    }
  }

  // ---------------------------------------------------------------------------------
  // Release and end
  // ---------------------------------------------------------------------------------

  /** A release makes the thread ready that is to be served first, behind all of its priority, and ends its wait. */
  lemma ReleaseWakes(k: State, idle: nat, prio: Keys, o: nat) returns (t: nat)
    requires Inv(k, idle, prio) && o in k.objs && k.objs[o].sem.waiters.list != []
    ensures WaitsOn(k, o, t) && forall u :: WaitsOn(k, o, u) && u != t ==>
              Before(k.objs[o].policy, prio, k.objs[o].sem.waiters.ticket, t, u)
    ensures var v := Release(k, idle, prio, o);
            && S.OnlyMoves(k.sched, v.sched, t) && S.ReadyLast(v.sched, t) && t !in v.wheel.order
            && (forall p, u :: WaitsOn(v, p, u) <==> WaitsOn(k, p, u) && u != t)
            && forall u :: u != t ==>
                 (u in v.wheel.order <==> u in k.wheel.order) && At(v.wheel.due, u) == At(k.wheel.due, u)
  {
    hide Running, Objects, T.Stable, Remove, At, Sem.Inv, T.Stop, S.Insert, Before;
    var x := k.objs[o];
    t := x.sem.waiters.list[0];
    ObjectInv(k, prio, o);
    Sem.ReleaseInv(x.sem, x.policy, prio);
    assert Placed(k, t, []) && WaitsOn(k, o, t);
    StopTimer(k.wheel, t);
    InsertRunning(k, idle, prio, t);
    S.InsertMoves(k.sched, t);
    WokenGone(x.sem.waiters, t);
    var v := Release(k, idle, prio, o);
    forall p, u ensures WaitsOn(v, p, u) <==> WaitsOn(k, p, u) && u != t {
      if p != o && u == t {
        assert !WaitsOn(k, p, u);
      }
    }
  }

  /** A thread that ends, or is deleted, is nowhere any more. */
  lemma CloseGives(k: State, idle: nat, prio: Keys, t: nat)
    requires Inv(k, idle, prio) && t in k.sched.threads && t != idle
    ensures var v := Close(k, idle, prio, t);
            && S.OnlyMoves(k.sched, v.sched, t) && v.sched.threads[t].stat.Closed? && t !in v.wheel.order
            && (forall p :: 0 <= p < |v.sched.lists| ==> t !in v.sched.lists[p])
            && (forall p, u :: WaitsOn(v, p, u) <==> WaitsOn(k, p, u) && u != t)
            && forall u :: u != t ==> (u in v.wheel.order <==> u in k.wheel.order)
  {
    hide Objects, T.Stable, Remove, At, T.Stop, DropAll, S.ListsInv, S.Delete, AllPlaced;
    S.SleepGives(k.sched, idle, t);
    StopTimer(k.wheel, t);
    DropAllKeeps(k, Close(k, idle, prio, t), prio, t);
  }

  /** A take without an end waits for the semaphore alone: no timer will wake the thread. */
  lemma TakeForever(k: State, idle: nat, prio: Keys, o: nat, time: int)
    requires Inv(k, idle, prio) && o in k.objs && k.objs[o].sem.value == 0 && MayWait(k, idle) && time < 0
    ensures var v, t: nat := Take(k, idle, prio, o, time), k.sched.current;
            IsSuspended(v, t) && WaitsOn(v, o, t) && t !in v.wheel.order && v.wheel == k.wheel
  {
    hide Running, Objects, T.Stable, Remove, At, Place, Sem.Inv;
    WaitInv(k, idle, prio, o, time);
    assert Placed(k, k.sched.current, []);
  }

  /** A take of a semaphore that is free only lowers its value. */
  lemma TakeNowGives(k: State, idle: nat, prio: Keys, o: nat, time: int)
    requires Inv(k, idle, prio) && o in k.objs && 0 < k.objs[o].sem.value
    ensures var v := Take(k, idle, prio, o, time);
            && v.sched == k.sched && v.wheel == k.wheel && v.objs.Keys == k.objs.Keys
            && v.objs[o].sem.value == k.objs[o].sem.value - 1 && v.objs[o].sem.waiters == k.objs[o].sem.waiters
            && forall p :: p in k.objs && p != o ==> v.objs[p] == k.objs[p]
  {
    hide Running, Objects, T.Stable, AllPlaced, Timers;
  }

  // ---------------------------------------------------------------------------------
  // The start
  // ---------------------------------------------------------------------------------

  /** After `rt_system_scheduler_start`: the idle thread runs alone, with semaphores of the given values. */
  function Boot(idle: nat, prio: Keys, max: nat, now: nat, slice: nat, values: map<nat, (Policy, nat)>): State {
    var p := At(prio, idle);
    State(S.Sched(map[idle := S.Thread(S.Ready, p, p, slice, slice)],
                  seq(max, q => if q == p then [idle] else []), idle, 0),
          T.Wheel(now, [], map[], map[idle := T.Timer(0, 0, false, false)]),
          map o | o in values :: Object(values[o].0, Sem.Init(values[o].1)))
  }

  lemma BootRunning(idle: nat, prio: Keys, max: nat, now: nat, slice: nat, values: map<nat, (Policy, nat)>)
    requires At(prio, idle) < max
    ensures Running(Boot(idle, prio, max, now, slice, values), idle, prio)
  {
    hide At, Sem.Init;
    var k := Boot(idle, prio, max, now, slice, values);
    forall p | 0 <= p < max ensures S.ListOf(k.sched.threads, k.sched.lists[p], p) {
      assert forall t :: S.ReadyAt(k.sched.threads, t, p) <==> t == idle && p == At(prio, idle);
    }
  }

  lemma BootInv(idle: nat, prio: Keys, max: nat, now: nat, slice: nat, values: map<nat, (Policy, nat)>)
    requires At(prio, idle) < max
    ensures Inv(Boot(idle, prio, max, now, slice, values), idle, prio)
  {
    hide At, Running, Objects, Boot, Placed;
    var k := Boot(idle, prio, max, now, slice, values);
    BootRunning(idle, prio, max, now, slice, values);
    BootObjects(idle, prio, max, now, slice, values);
    forall t ensures Placed(k, t, []) {
      BootPlaced(idle, prio, max, now, slice, values, t);
    }
  }

  lemma BootObjects(idle: nat, prio: Keys, max: nat, now: nat, slice: nat, values: map<nat, (Policy, nat)>)
    ensures var k := Boot(idle, prio, max, now, slice, values); Objects(k, prio) && Timers(k)
  {
    hide At;
  }

  lemma BootPlaced(idle: nat, prio: Keys, max: nat, now: nat, slice: nat, values: map<nat, (Policy, nat)>, t: nat)
    ensures Placed(Boot(idle, prio, max, now, slice, values), t, [])
  {
    hide At;
    var k := Boot(idle, prio, max, now, slice, values);
    assert forall o :: !WaitsOn(k, o, t);
  }
}
