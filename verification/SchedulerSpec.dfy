/**
 What the scheduler, the thread operations and the tick do to the lists of ready threads, as
 functions on values. Each operation is one step here; `ThreadCalls` has those that enable interrupts on
 their way in several. `Scheduler` holds the ready queue itself, with its bitmap.
 */
module SchedulerSpec {
  import opened Seqs

  const WORD := 0x1_0000_0000
  const NONE := -1  // no thread runs before the scheduler starts

  datatype Stat = Init | Ready | Suspended | Closed

  /** `struct rt_thread`; the slice is `init_tick`, what is left of it `remaining_tick`. */
  datatype Thread = Thread(stat: Stat, prio: nat, initPrio: nat, slice: nat, left: nat)

  type Threads = map<nat, Thread>

  /** `lists` is `rt_thread_priority_table`, lower index more urgent; `nest` is `rt_scheduler_lock_nest`. */
  datatype Sched = Sched(threads: Threads, lists: seq<seq<nat>>, current: int, nest: int)

  // ---------------------------------------------------------------------------------
  // Lists of ready threads
  // ---------------------------------------------------------------------------------

  ghost predicate ReadyAt(threads: Threads, t: nat, p: nat) {
    t in threads && threads[t].stat.Ready? && threads[t].prio == p
  }

  ghost predicate ListOf(threads: Threads, l: seq<nat>, p: nat) {
    NoDup(l) && forall t :: t in l <==> ReadyAt(threads, t, p)
  }

  /** A thread is ready exactly when it is, once, in the list of its priority. */
  ghost predicate ListsInv(threads: Threads, lists: seq<seq<nat>>) {
    forall p :: 0 <= p < |lists| ==> ListOf(threads, lists[p], p)
  }

  ghost predicate PrioritiesFit(threads: Threads, max: nat) {
    forall t :: t in threads ==> threads[t].prio < max && threads[t].initPrio < max
  }

  /** `idle` is always ready, so there is a thread to run. */
  ghost predicate Inv(s: Sched, idle: nat) {
    && ListsInv(s.threads, s.lists) && PrioritiesFit(s.threads, |s.lists|)
    && idle in s.threads && s.threads[idle].stat.Ready?
    && (s.current != NONE ==> 0 <= s.current && s.current in s.threads && !s.threads[s.current].stat.Init?)
  }

  /** Index of the first list that is not empty; `|lists|` when there is none. */
  function Top(lists: seq<seq<nat>>): (p: nat)
    ensures p <= |lists| && (p < |lists| ==> lists[p] != []) && forall q :: 0 <= q < p ==> lists[q] == []
  {
    if lists == [] || lists[0] != [] then 0 else 1 + Top(lists[1..])
  }

  /** Thread `t` changes, and with it the list of one priority. */
  lemma ListsStep(a: Threads, b: Threads, lists: seq<seq<nat>>, t: nat, p: nat, l: seq<nat>)
    requires ListsInv(a, lists) && p < |lists| && ListOf(b, l, p)
    requires forall u :: u != t ==> (u in a <==> u in b) && (u in a ==> a[u] == b[u])
    requires forall q :: q != p ==> (ReadyAt(a, t, q) <==> ReadyAt(b, t, q))
    ensures ListsInv(b, lists[p := l])
  {
    hide NoDup;
    var lists' := lists[p := l];
    forall q | 0 <= q < |lists| ensures ListOf(b, lists'[q], q) {
      if q != p {
        assert ListOf(a, lists[q], q);
        forall u ensures u in lists[q] <==> ReadyAt(b, u, q) {
          assert ReadyAt(a, u, q) <==> ReadyAt(b, u, q);
        }
      }
    }
  }

  // ---------------------------------------------------------------------------------
  // Steps
  // ---------------------------------------------------------------------------------

  /** `rt_schedule_insert_thread`: ready, at the end of the list of its priority. */
  function Insert(s: Sched, t: nat): Sched
    requires t in s.threads && s.threads[t].prio < |s.lists|
  {
    var p := s.threads[t].prio;
    s.(threads := s.threads[t := s.threads[t].(stat := Ready)], lists := s.lists[p := s.lists[p] + [t]])
  }

  /** `rt_schedule_remove_thread`, and the new state of the thread. */
  function Leave(s: Sched, t: nat, stat: Stat): Sched
    requires t in s.threads && s.threads[t].prio < |s.lists|
  {
    var p := s.threads[t].prio;
    s.(threads := s.threads[t := s.threads[t].(stat := stat)], lists := s.lists[p := Remove(s.lists[p], t)])
  }

  /** Inserting a thread keeps the lists right exactly when it is not ready yet. */
  lemma InsertLists(s: Sched, t: nat)
    requires ListsInv(s.threads, s.lists) && t in s.threads && s.threads[t].prio < |s.lists|
    ensures ListsInv(Insert(s, t).threads, Insert(s, t).lists) <==> !s.threads[t].stat.Ready?
  {
    hide NoDup;
    var p := s.threads[t].prio;
    var v, l := Insert(s, t), s.lists[p] + [t];
    assert ListOf(s.threads, s.lists[p], p);
    if s.threads[t].stat.Ready? {
      assert ReadyAt(s.threads, t, p);
      AppendTwice(s.lists[p], t);
      assert v.lists[p] == l;
    } else {
      assert !ReadyAt(s.threads, t, p);
      AppendNoDup(s.lists[p], t);
      forall u ensures u in l <==> ReadyAt(v.threads, u, p) {
        assert u in s.lists[p] <==> ReadyAt(s.threads, u, p);
      }
      ListsStep(s.threads, v.threads, s.lists, t, p, l);
    }
  }

  lemma LeaveLists(s: Sched, t: nat, stat: Stat)
    requires ListsInv(s.threads, s.lists) && t in s.threads && !stat.Ready? && s.threads[t].prio < |s.lists|
    ensures ListsInv(Leave(s, t, stat).threads, Leave(s, t, stat).lists)
  {
    hide NoDup, Remove;
    var p := s.threads[t].prio;
    var v, l := Leave(s, t, stat), Remove(s.lists[p], t);
    assert ListOf(s.threads, s.lists[p], p);
    RemoveNoDup(s.lists[p], t);
    forall u ensures u in l <==> ReadyAt(v.threads, u, p) {
      assert u in s.lists[p] <==> ReadyAt(s.threads, u, p);
    }
    ListsStep(s.threads, v.threads, s.lists, t, p, l);
  }

  /** `rt_schedule`. */
  function Schedule(s: Sched): Sched {
    var p := Top(s.lists);
    if s.nest == 0 && p < |s.lists| then s.(current := s.lists[p][0]) else s
  }

  /** With the lock open the scheduler runs the first thread of the most urgent ready priority. */
  lemma SchedulePicks(s: Sched, idle: nat)
    requires Inv(s, idle)
    ensures Inv(Schedule(s), idle) && Top(s.lists) < |s.lists|
    ensures s.nest == 0 ==> var t := Schedule(s).current;
              && t in s.threads && s.threads[t].stat.Ready? && s.threads[t].prio == Top(s.lists)
              && t == s.lists[s.threads[t].prio][0]
              && forall u :: u in s.threads && s.threads[u].stat.Ready? ==> s.threads[t].prio <= s.threads[u].prio
  {
    hide NoDup;
    var p := Top(s.lists);
    var q := s.threads[idle].prio;
    assert ListOf(s.threads, s.lists[q], q) && ReadyAt(s.threads, idle, q);
    assert ListOf(s.threads, s.lists[p], p);
    assert s.lists[p][0] in s.lists[p];
    forall u | u in s.threads && s.threads[u].stat.Ready? ensures p <= s.threads[u].prio {
      var r := s.threads[u].prio;
      assert ListOf(s.threads, s.lists[r], r) && ReadyAt(s.threads, u, r);
    }
  }

  /** `rt_thread_startup`: the thread takes its own priority and becomes ready. */
  function Startup(s: Sched, t: nat): Sched
    requires t in s.threads && s.threads[t].initPrio < |s.lists|
  {
    var v := Insert(s.(threads := s.threads[t := s.threads[t].(prio := s.threads[t].initPrio, stat := Suspended)]), t);
    if v.current != NONE then Schedule(v) else v
  }

  /** `rt_thread_suspend`: only a ready thread can be suspended. */
  function Suspend(s: Sched, t: nat): Sched
    requires t in s.threads && s.threads[t].prio < |s.lists|
  {
    if s.threads[t].stat.Ready? then Leave(s, t, Suspended) else s
  }

  /** `rt_thread_resume`: only a suspended thread can be resumed. */
  function Resume(s: Sched, t: nat): Sched
    requires t in s.threads && s.threads[t].prio < |s.lists|
  {
    if s.threads[t].stat.Suspended? then Insert(s, t) else s
  }

  /** `rt_thread_timeout`. */
  function Timeout(s: Sched, t: nat): Sched
    requires t in s.threads && s.threads[t].prio < |s.lists|
  {
    Schedule(Insert(s, t))
  }

  /** `rt_thread_control` with `RT_THREAD_CTRL_CHANGE_PRIORITY`. */
  function ChangePriority(s: Sched, t: nat, p: nat): Sched
    requires t in s.threads && s.threads[t].prio < |s.lists| && p < |s.lists|
  {
    if s.threads[t].stat.Ready? then
      var v := Leave(s, t, Suspended);
      Insert(v.(threads := v.threads[t := v.threads[t].(prio := p)]), t)
    else s.(threads := s.threads[t := s.threads[t].(prio := p)])
  }

  /** `rt_thread_delete` and `rt_thread_detach`. */
  function Delete(s: Sched, t: nat): Sched
    requires t in s.threads && s.threads[t].prio < |s.lists|
  {
    if s.threads[t].stat.Init? then s.(threads := s.threads[t := s.threads[t].(stat := Closed)])
    else Leave(s, t, Closed)
  }

  /** `rt_thread_exit`. */
  function Exit(s: Sched): Sched
    requires 0 <= s.current && s.current in s.threads && s.threads[s.current].prio < |s.lists|
  {
    Schedule(Leave(s, s.current, Closed))
  }

  /** `rt_thread_yield`: a ready thread that shares its priority goes to the end of the list. */
  function Yield(s: Sched): Sched
    requires 0 <= s.current && s.current in s.threads && s.threads[s.current].prio < |s.lists|
  {
    var t := s.current;
    var p := s.threads[t].prio;
    if s.threads[t].stat.Ready? && 1 < |s.lists[p]| then
      Schedule(s.(lists := s.lists[p := Remove(s.lists[p], t) + [t]]))
    else s
  }

  /** `rt_tick_increase` as far as threads go. */
  function Tick(s: Sched): Sched
    requires 0 <= s.current && s.current in s.threads && s.threads[s.current].prio < |s.lists|
  {
    var t := s.threads[s.current];
    var left := (t.left - 1) % WORD;
    if left == 0 then Yield(s.(threads := s.threads[s.current := t.(left := t.slice)]))
    else s.(threads := s.threads[s.current := t.(left := left)])
  }

  /** The value of a 16-bit signed variable. */
  function Int16(x: int): int {
    (x + 0x8000) % 0x1_0000 - 0x8000
  }

  /** `rt_enter_critical`. */
  function EnterCritical(s: Sched): Sched {
    s.(nest := Int16(s.nest + 1))
  }

  /** `rt_exit_critical`. */
  function ExitCritical(s: Sched): Sched {
    var nest := Int16(s.nest - 1);
    if nest <= 0 then Schedule(s.(nest := 0)) else s.(nest := nest)
  }

  function EnterTimes(s: Sched, n: nat): Sched {
    if n == 0 then s else EnterCritical(EnterTimes(s, n - 1))
  }

  function ExitTimes(s: Sched, n: nat): Sched {
    if n == 0 then s else ExitCritical(ExitTimes(s, n - 1))
  }

  lemma {:induction false} EnterCount(s: Sched, n: nat)
    requires s.nest == 0
    ensures EnterTimes(s, n) == s.(nest := Int16(n))
  {
    if 0 < n {
      EnterCount(s, n - 1);
      assert Int16(Int16(n - 1) + 1) == Int16(n);
    }
  }

  /** Up to 32767 nested locks keep the scheduler from running until the last one is undone. */
  lemma {:induction false} LockNests(s: Sched, n: nat, k: nat)
    requires s.nest == 0 && 1 <= n < 0x8000 && k <= n
    ensures ExitTimes(EnterTimes(s, n), k) == if k < n then s.(nest := n - k) else Schedule(s)
  {
    hide Schedule, EnterTimes;
    EnterCount(s, n);
    if 0 < k {
      LockNests(s, n, k - 1);
      assert s.(nest := 0) == s;
    }
  }

  /** Of up to 65536 nested locks a single exit opens all exactly when there is one, or more than 32768. */
  lemma LockOverflows(s: Sched, n: nat)
    requires s.nest == 0 && 1 <= n <= 0x1_0000
    ensures ExitCritical(EnterTimes(s, n)).nest == 0 <==> n == 1 || 0x8001 <= n
  {
    hide EnterTimes;
    EnterCount(s, n);
  }

  // ---------------------------------------------------------------------------------
  // The invariant
  // ---------------------------------------------------------------------------------

  /** A change to a thread that is not ready. */
  lemma ChangeInv(s: Sched, idle: nat, t: nat, x: Thread)
    requires Inv(s, idle) && t in s.threads && !s.threads[t].stat.Ready? && !x.stat.Ready?
    requires x.prio < |s.lists| && x.initPrio < |s.lists| && (x.stat.Init? ==> s.threads[t].stat.Init?)
    ensures Inv(s.(threads := s.threads[t := x]), idle)
  {
    hide NoDup;
    var v := s.threads[t := x];
    forall p | 0 <= p < |s.lists| ensures ListOf(v, s.lists[p], p) {
      assert ListOf(s.threads, s.lists[p], p);
      forall u ensures u in s.lists[p] <==> ReadyAt(v, u, p) {
        assert ReadyAt(s.threads, u, p) <==> ReadyAt(v, u, p);
      }
    }
  }

  lemma InsertInv(s: Sched, idle: nat, t: nat)
    requires Inv(s, idle) && t in s.threads
    ensures Inv(Insert(s, t), idle) <==> !s.threads[t].stat.Ready?
  {
    hide ListsInv;
    InsertLists(s, t);
  }

  lemma LeaveInv(s: Sched, idle: nat, t: nat, stat: Stat)
    requires Inv(s, idle) && t in s.threads && !stat.Ready? && !stat.Init? && t != idle
    ensures Inv(Leave(s, t, stat), idle)
  {
    hide ListsInv, Remove;
    LeaveLists(s, t, stat);
  }

  lemma StartupInv(s: Sched, idle: nat, t: nat)
    requires Inv(s, idle) && t in s.threads && s.threads[t].stat.Init?
    ensures Inv(Startup(s, t), idle)
  {
    hide Inv, Insert, Schedule;
    FitOf(s, idle, t);
    var x := s.threads[t].(prio := s.threads[t].initPrio, stat := Suspended);
    var u := s.(threads := s.threads[t := x]);
    ChangeInv(s, idle, t, x);
    InsertInv(u, idle, t);
    SchedulePicks(Insert(u, t), idle);
  }

  lemma FitOf(s: Sched, idle: nat, t: nat)
    requires Inv(s, idle) && t in s.threads
    ensures s.threads[t].prio < |s.lists| && s.threads[t].initPrio < |s.lists|
  {
  }

  lemma ChangePriorityInv(s: Sched, idle: nat, t: nat, p: nat)
    requires Inv(s, idle) && t in s.threads && p < |s.lists|
    ensures Inv(ChangePriority(s, t, p), idle)
  {
    hide ListsInv, Remove;
    if s.threads[t].stat.Ready? {
      var v := Leave(s, t, Suspended);
      LeaveLists(s, t, Suspended);
      MoveLists(v, t, p);
      InsertLists(v.(threads := v.threads[t := v.threads[t].(prio := p)]), t);
    } else {
      ChangeInv(s, idle, t, s.threads[t].(prio := p));
    }
  }

  lemma MoveLists(s: Sched, t: nat, p: nat)
    requires ListsInv(s.threads, s.lists) && t in s.threads && !s.threads[t].stat.Ready?
    ensures ListsInv(s.threads[t := s.threads[t].(prio := p)], s.lists)
  {
    hide NoDup;
    var v := s.threads[t := s.threads[t].(prio := p)];
    forall q | 0 <= q < |s.lists| ensures ListOf(v, s.lists[q], q) {
      assert ListOf(s.threads, s.lists[q], q);
      forall u ensures u in s.lists[q] <==> ReadyAt(v, u, q) {
        assert ReadyAt(s.threads, u, q) <==> ReadyAt(v, u, q);
      }
    }
  }

  lemma YieldInv(s: Sched, idle: nat)
    requires Inv(s, idle) && s.current != NONE
    ensures Inv(Yield(s), idle)
  {
    hide NoDup, Remove;
    var t := s.current;
    var p := s.threads[t].prio;
    if s.threads[t].stat.Ready? && 1 < |s.lists[p]| {
      var l := Remove(s.lists[p], t) + [t];
      var v := s.(lists := s.lists[p := l]);
      assert ListOf(s.threads, s.lists[p], p) && ReadyAt(s.threads, t, p);
      RemoveNoDup(s.lists[p], t);
      AppendNoDup(Remove(s.lists[p], t), t);
      ListsStep(s.threads, s.threads, s.lists, t, p, l);
      SchedulePicks(v, idle);
    }
  }

  lemma TickInv(s: Sched, idle: nat)
    requires Inv(s, idle) && s.current != NONE
    ensures Inv(Tick(s), idle)
  {
    hide Yield;
    var t := s.threads[s.current];
    var left := (t.left - 1) % WORD;
    LeftInv(s, idle, if left == 0 then t.slice else left);
    if left == 0 {
      YieldInv(s.(threads := s.threads[s.current := t.(left := t.slice)]), idle);
    }
  }

  lemma LeftInv(s: Sched, idle: nat, left: nat)
    requires Inv(s, idle) && s.current != NONE
    ensures Inv(s.(threads := s.threads[s.current := s.threads[s.current].(left := left)]), idle)
  {
    hide NoDup;
    var v := s.threads[s.current := s.threads[s.current].(left := left)];
    forall q | 0 <= q < |s.lists| ensures ListOf(v, s.lists[q], q) {
      assert ListOf(s.threads, s.lists[q], q);
      forall u ensures u in s.lists[q] <==> ReadyAt(v, u, q) {
        assert ReadyAt(s.threads, u, q) <==> ReadyAt(v, u, q);
      }
    }
  }

  // ---------------------------------------------------------------------------------
  // What the operations do to the thread they name
  // ---------------------------------------------------------------------------------

  /** Only thread `t` changes or moves: the others are as before, in every list in the same order. */
  ghost predicate OnlyMoves(s: Sched, v: Sched, t: nat) {
    && |v.lists| == |s.lists| && (forall p :: 0 <= p < |s.lists| ==> Remove(v.lists[p], t) == Remove(s.lists[p], t))
    && v.threads.Keys == s.threads.Keys && (forall u :: u in s.threads && u != t ==> v.threads[u] == s.threads[u])
  }

  /** Thread `t` is ready, at the end of the list of its priority. */
  ghost predicate ReadyLast(s: Sched, t: nat) {
    && t in s.threads && s.threads[t].stat.Ready? && s.threads[t].prio < |s.lists|
    && var l := s.lists[s.threads[t].prio]; l != [] && l[|l| - 1] == t
  }

  lemma InsertMoves(s: Sched, t: nat)
    requires t in s.threads && s.threads[t].prio < |s.lists|
    ensures var v := Insert(s, t);
            && OnlyMoves(s, v, t) && ReadyLast(v, t) && v.threads[t] == s.threads[t].(stat := Ready)
            && v.current == s.current && v.nest == s.nest
  {
    hide Remove;
    RemoveAppend(s.lists[s.threads[t].prio], t);
  }

  lemma LeaveMoves(s: Sched, t: nat, stat: Stat)
    requires t in s.threads && s.threads[t].prio < |s.lists|
    ensures var v := Leave(s, t, stat);
            && OnlyMoves(s, v, t) && v.threads[t] == s.threads[t].(stat := stat)
            && v.current == s.current && v.nest == s.nest
  {
    hide Remove;
    RemoveTwice(s.lists[s.threads[t].prio], t);
  }

  lemma MovesTwice(s: Sched, u: Sched, v: Sched, t: nat)
    requires OnlyMoves(s, u, t) && OnlyMoves(u, v, t)
    ensures OnlyMoves(s, v, t)
  {
    hide Remove;
  }

  lemma ScheduleMoves(s: Sched)
    ensures Schedule(s) == s.(current := Schedule(s).current)
  {
    hide Top;
  }

  /** A thread that starts up, is resumed or timed out is ready, behind all of its priority; the others stay. */
  lemma WakeGives(s: Sched, idle: nat, t: nat)
    requires Inv(s, idle) && t in s.threads
    ensures s.threads[t].prio < |s.lists| && s.threads[t].initPrio < |s.lists|
    ensures s.threads[t].stat.Init? ==>
              var v := Startup(s, t);
              && OnlyMoves(s, v, t) && ReadyLast(v, t)
              && v.threads[t].prio == v.threads[t].initPrio == s.threads[t].initPrio
    ensures s.threads[t].stat.Suspended? ==>
              && OnlyMoves(s, Resume(s, t), t) && ReadyLast(Resume(s, t), t) && Resume(s, t).current == s.current
              && Resume(s, t).threads[t].prio == s.threads[t].prio
              && OnlyMoves(s, Timeout(s, t), t) && ReadyLast(Timeout(s, t), t)
    ensures !s.threads[t].stat.Suspended? ==> Resume(s, t) == s
  {
    hide ListsInv, Remove, Schedule, Insert;
    InsertMoves(s, t);
    ScheduleMoves(Insert(s, t));
    var u := s.(threads := s.threads[t := s.threads[t].(prio := s.threads[t].initPrio, stat := Suspended)]);
    InsertMoves(u, t);
    ScheduleMoves(Insert(u, t));
  }

  /** A thread that is suspended, deleted or ends is in no list; the others stay. */
  lemma SleepGives(s: Sched, idle: nat, t: nat)
    requires Inv(s, idle) && t in s.threads
    ensures s.threads[t].prio < |s.lists|
    ensures if s.threads[t].stat.Ready?
            then OnlyMoves(s, Suspend(s, t), t) && Suspend(s, t).threads[t] == s.threads[t].(stat := Suspended)
            else Suspend(s, t) == s
    ensures OnlyMoves(s, Delete(s, t), t) && Delete(s, t).threads[t] == s.threads[t].(stat := Closed)
    ensures s.current == t ==> OnlyMoves(s, Exit(s), t) && Exit(s).threads[t] == s.threads[t].(stat := Closed)
    ensures t != idle ==>
              && (forall p :: 0 <= p < |s.lists| ==> t !in Delete(s, t).lists[p])
              && (s.threads[t].stat.Ready? ==> forall p :: 0 <= p < |s.lists| ==> t !in Suspend(s, t).lists[p])
  {
    hide ListsInv, Remove, Schedule, Leave;
    LeaveMoves(s, t, Suspended);
    LeaveMoves(s, t, Closed);
    if s.current == t {
      ScheduleMoves(Leave(s, t, Closed));
    }
    if t != idle {
      LeaveInv(s, idle, t, Suspended);
      LeaveInv(s, idle, t, Closed);
      NotReady(Leave(s, t, Suspended), idle, t);
      NotReady(Leave(s, t, Closed), idle, t);
      NotReady(s, idle, t);
    }
  }

  lemma NotReady(s: Sched, idle: nat, t: nat)
    requires Inv(s, idle) && t in s.threads
    ensures !s.threads[t].stat.Ready? ==> forall p :: 0 <= p < |s.lists| ==> t !in s.lists[p]
  {
    hide NoDup;
    if !s.threads[t].stat.Ready? {
      forall p | 0 <= p < |s.lists| ensures t !in s.lists[p] {
        assert ListOf(s.threads, s.lists[p], p) && !ReadyAt(s.threads, t, p);
      }
    }
  }

  /** A changed priority is the one asked for, and a ready thread stands last of it; its state is as before. */
  lemma ChangeGives(s: Sched, idle: nat, t: nat, p: nat)
    requires Inv(s, idle) && t in s.threads && p < |s.lists|
    ensures s.threads[t].prio < |s.lists|
    ensures var v := ChangePriority(s, t, p);
            && OnlyMoves(s, v, t) && v.threads[t] == s.threads[t].(prio := p) && v.current == s.current
            && (s.threads[t].stat.Ready? ==> ReadyLast(v, t))
  {
    hide ListsInv, Remove, Leave, Insert;
    if s.threads[t].stat.Ready? {
      var u := Leave(s, t, Suspended);
      LeaveMoves(s, t, Suspended);
      var w := u.(threads := u.threads[t := u.threads[t].(prio := p)]);
      InsertMoves(w, t);
      MovesTwice(s, u, w, t);
      MovesTwice(s, w, Insert(w, t), t);
    }
  }

  /** A yield puts the running thread behind all of its priority, if there are others, and schedules. */
  lemma YieldGives(s: Sched, idle: nat)
    requires Inv(s, idle) && s.current != NONE
    ensures var t, v := s.current, Yield(s);
            && OnlyMoves(s, v, t) && v.threads == s.threads && v.nest == s.nest
            && (s.threads[t].stat.Ready? && 1 < |s.lists[s.threads[t].prio]| ==>
                  ReadyLast(v, t) && v.current == Schedule(v).current)
            && (!(s.threads[t].stat.Ready? && 1 < |s.lists[s.threads[t].prio]|) ==> v == s)
  {
    hide ListsInv, Remove, Top;
    var t := s.current;
    RemoveTwice(s.lists[s.threads[t].prio], t);
    RemoveAppend(Remove(s.lists[s.threads[t].prio], t), t);
  }

  datatype Op =
    | DoCreate(t: nat, prio: nat, slice: nat)
    | DoStartup(t: nat)
    | DoSuspend(t: nat)
    | DoResume(t: nat)
    | DoTimeout(t: nat)
    | DoChangePriority(t: nat, p: nat)
    | DoDelete(t: nat)
    | DoExit
    | DoYield
    | DoTick
    | DoSchedule
    | DoEnterCritical
    | DoExitCritical

  /** The thread operations that the source allows in state `s`; nobody stops the idle thread. */
  predicate Allowed(s: Sched, idle: nat, op: Op) {
    match op
    case DoCreate(t, prio, slice) => t !in s.threads && prio < |s.lists|
    case DoStartup(t) => t in s.threads && s.threads[t].stat.Init?
    case DoTimeout(t) => t in s.threads && s.threads[t].stat.Suspended?
    case DoSuspend(t) => t in s.threads && t != idle
    case DoResume(t) => t in s.threads
    case DoChangePriority(t, p) => t in s.threads && p < |s.lists|
    case DoDelete(t) => t in s.threads && t != idle
    case DoExit => s.current != NONE && s.current != idle
    case DoYield => s.current != NONE
    case DoTick => s.current != NONE
    case _ => true
  }

  /** Every operation keeps the invariant. */
  ghost function Step(s: Sched, idle: nat, op: Op): (v: Sched)
    requires Inv(s, idle)
    ensures Inv(v, idle)
  {
    if !Allowed(s, idle, op) then s
    else
      StepInv(s, idle, op);
      Effect(s, idle, op)
  }

  ghost function Effect(s: Sched, idle: nat, op: Op): Sched
    requires Inv(s, idle) && Allowed(s, idle, op)
  {
    match op
    case DoCreate(t, prio, slice) => s.(threads := s.threads[t := Thread(Init, prio, prio, slice, slice)])
    case DoStartup(t) => Startup(s, t)
    case DoSuspend(t) => Suspend(s, t)
    case DoResume(t) => Resume(s, t)
    case DoTimeout(t) => Timeout(s, t)
    case DoChangePriority(t, p) => ChangePriority(s, t, p)
    case DoDelete(t) => Delete(s, t)
    case DoExit => Exit(s)
    case DoYield => Yield(s)
    case DoTick => Tick(s)
    case DoSchedule => Schedule(s)
    case DoEnterCritical => EnterCritical(s)
    case DoExitCritical => ExitCritical(s)
  }

  lemma CreateInv(s: Sched, idle: nat, t: nat, x: Thread)
    requires Inv(s, idle) && t !in s.threads && x.stat.Init? && x.prio < |s.lists| && x.initPrio < |s.lists|
    ensures Inv(s.(threads := s.threads[t := x]), idle)
  {
    hide NoDup;
    var v := s.threads[t := x];
    forall p | 0 <= p < |s.lists| ensures ListOf(v, s.lists[p], p) {
      assert ListOf(s.threads, s.lists[p], p);
      forall u ensures u in s.lists[p] <==> ReadyAt(v, u, p) {
        assert ReadyAt(s.threads, u, p) <==> ReadyAt(v, u, p);
      }
    }
  }

  lemma StepInv(s: Sched, idle: nat, op: Op)
    requires Inv(s, idle) && Allowed(s, idle, op)
    ensures Inv(Effect(s, idle, op), idle)
  {
    hide ListsInv, PrioritiesFit, Remove, Schedule, Insert, Leave, Startup, ChangePriority, Yield, Tick;
    match op {
      case DoCreate(t, prio, slice) => CreateInv(s, idle, t, Thread(Init, prio, prio, slice, slice));
      case DoStartup(t) => StartupInv(s, idle, t);
      case DoSuspend(t) => LeaveInv(s, idle, t, Suspended);
      case DoResume(t) => if s.threads[t].stat.Suspended? { InsertInv(s, idle, t); }
      case DoTimeout(t) =>
        FitOf(s, idle, t);
        InsertInv(s, idle, t);
        SchedulePicks(Insert(s, t), idle);
      case DoChangePriority(t, p) => ChangePriorityInv(s, idle, t, p);
      case DoDelete(t) =>
        LeaveInv(s, idle, t, Closed);
        FitOf(s, idle, t);
        if s.threads[t].stat.Init? { ChangeInv(s, idle, t, s.threads[t].(stat := Closed)); }
      case DoExit =>
        FitOf(s, idle, s.current);
        LeaveInv(s, idle, s.current, Closed);
        SchedulePicks(Leave(s, s.current, Closed), idle);
      case DoYield => YieldInv(s, idle);
      case DoTick => TickInv(s, idle);
      case DoSchedule => SchedulePicks(s, idle);
      case DoEnterCritical =>
      case DoExitCritical => SchedulePicks(s.(nest := 0), idle);
    }
  }

  /** The state of a system with `max` priorities and only the idle thread, ready to start. */
  function Boot(max: nat, idle: nat, slice: nat): Sched
    requires 0 < max
  {
    Sched(map[idle := Thread(Ready, max - 1, max - 1, slice, slice)],
          seq(max, p => if p == max - 1 then [idle] else []), NONE, 0)
  }

  ghost function RunAll(max: nat, idle: nat, slice: nat, ops: seq<Op>): (s: Sched)
    requires 0 < max
    ensures Inv(s, idle)
  {
    if ops == [] then
      BootInv(max, idle, slice);
      Boot(max, idle, slice)
    else Step(RunAll(max, idle, slice, ops[..|ops| - 1]), idle, ops[|ops| - 1])
  }

  lemma BootInv(max: nat, idle: nat, slice: nat)
    requires 0 < max
    ensures Inv(Boot(max, idle, slice), idle)
  {
    var s := Boot(max, idle, slice);
    forall p | 0 <= p < max ensures ListOf(s.threads, s.lists[p], p) {
      assert p == max - 1 ==> idle in s.lists[p];
    }
  }

  // ---------------------------------------------------------------------------------
  // Round robin
  // ---------------------------------------------------------------------------------

  /** The first thread of the most urgent list runs, and slices are not empty. */
  ghost predicate Running(s: Sched, idle: nat) {
    && Inv(s, idle) && s.nest == 0 && Top(s.lists) < |s.lists| && s.current == s.lists[Top(s.lists)][0]
    && forall t :: t in s.threads ==> 0 < s.threads[t].left <= s.threads[t].slice < WORD
  }

  function TopList(s: Sched): seq<nat> {
    if Top(s.lists) < |s.lists| then s.lists[Top(s.lists)] else []
  }

  function LeftSum(threads: Threads, l: seq<nat>): nat {
    if l == [] then 0 else (if l[0] in threads then threads[l[0]].left else 0) + LeftSum(threads, l[1..])
  }

  function SliceSum(threads: Threads, l: seq<nat>): nat {
    if l == [] then 0 else (if l[0] in threads then threads[l[0]].slice else 0) + SliceSum(threads, l[1..])
  }

  lemma TopFirst(lists: seq<seq<nat>>, p: nat)
    requires p < |lists| && lists[p] != [] && forall q :: 0 <= q < p ==> lists[q] == []
    ensures Top(lists) == p
  {
  }

  lemma TopThread(s: Sched, idle: nat)
    requires Running(s, idle)
    ensures var l, p := TopList(s), Top(s.lists);
            && NoDup(l) && l != [] && s.current == l[0] && (forall t :: t in l ==> ReadyAt(s.threads, t, p))
            && s.current in s.threads && s.threads[s.current].prio < |s.lists|
  {
    hide NoDup;
    assert ListOf(s.threads, s.lists[Top(s.lists)], Top(s.lists));
  }

  /** One tick: the running thread loses a tick; when it has used its slice the list turns by one. */
  lemma TickTurns(s: Sched, idle: nat)
    requires Running(s, idle)
    ensures var v, l := Tick(s), TopList(s); var t := s.threads[s.current];
            && Running(v, idle)
            && (forall u :: u in s.threads <==> u in v.threads)
            && (forall u :: u in s.threads && u != s.current ==> v.threads[u] == s.threads[u])
            && if t.left > 1 then TopList(v) == l && v.threads[s.current] == t.(left := t.left - 1)
               else TopList(v) == l[1..] + [l[0]] && v.threads[s.current] == t.(left := t.slice)
  {
    hide ListsInv, NoDup, Remove;
    TopThread(s, idle);
    TickInv(s, idle);
    var l, t, p := TopList(s), s.threads[s.current], Top(s.lists);
    assert l[0] in l && t.prio == p && t.stat.Ready?;
    assert (t.left - 1) % WORD == t.left - 1;
    if t.left == 1 {
      TurnTop(s.lists, p);
    }
  }

  lemma TurnTop(lists: seq<seq<nat>>, p: nat)
    requires p == Top(lists) < |lists| && NoDup(lists[p])
    ensures var l := lists[p]; var turned := l[1..] + [l[0]];
            && Remove(l, l[0]) + [l[0]] == turned && (|l| == 1 ==> turned == l)
            && Top(lists[p := turned]) == p
  {
    hide Remove;
    var l := lists[p];
    RemoveAt(l, 0);
    assert l[..0] + l[1..] == l[1..];
    TopFirst(lists[p := l[1..] + [l[0]]], p);
  }

  ghost function Ticks(s: Sched, idle: nat, n: nat): Sched
    requires Running(s, idle)
    decreases n
  {
    if n == 0 then s
    else
      TickTurns(s, idle);
      Ticks(Tick(s), idle, n - 1)
  }

  lemma {:induction false} LeftFrame(a: Threads, b: Threads, l: seq<nat>)
    requires forall t :: t in l ==> (t in a <==> t in b) && (t in a ==> a[t].left == b[t].left)
    ensures LeftSum(a, l) == LeftSum(b, l)
  {
    if l != [] {
      assert l[0] in l;
      LeftFrame(a, b, l[1..]);
    }
  }

  lemma {:induction false} LeftBound(a: Threads, l: seq<nat>)
    requires forall t :: t in l && t in a ==> a[t].left <= a[t].slice
    ensures LeftSum(a, l) <= SliceSum(a, l)
  {
    if l != [] {
      assert l[0] in l;
      LeftBound(a, l[1..]);
    }
  }

  lemma PrefixTail(l: seq<nat>, i: nat)
    requires 0 < i <= |l|
    ensures l[..i] == [l[0]] + l[1..i] && l[..i][0] == l[0] && l[..i][1..] == l[1..i]
    ensures (l[1..] + [l[0]])[..i - 1] == l[1..i]
    ensures (l[1..] + [l[0]])[i - 1..] + (l[1..] + [l[0]])[..i - 1] == l[i..] + l[..i]
  {
    var m := l[1..] + [l[0]];
    assert m[i - 1..] == l[i..] + [l[0]];
  }

  /**
   With only ticks, the thread at position `i` of the top list runs after exactly the ticks the
   threads before it have left, so after no more than their slices; the list then starts with it.
   */
  lemma {:induction false} RoundRobin(s: Sched, idle: nat, i: nat)
    requires Running(s, idle) && i < |TopList(s)|
    ensures var l := TopList(s); var n := LeftSum(s.threads, l[..i]); var v := Ticks(s, idle, n);
            && n <= SliceSum(s.threads, l[..i])
            && Running(v, idle) && v.current == l[i] && TopList(v) == l[i..] + l[..i]
    decreases LeftSum(s.threads, TopList(s)[..i])
  {
    hide Running, Tick, TopList;
    var l := TopList(s);
    TopLefts(s, idle);
    LeftBound(s.threads, l[..i]);
    if i == 0 {
      assert l[..0] == [] && l[0..] + l[..0] == l;
      TopThread(s, idle);
    } else {
      TopThread(s, idle);
      TickTurns(s, idle);
      PrefixTail(l, i);
      var v, t := Tick(s), s.threads[s.current];
      RestFrame(s, v, l, i);
      if t.left > 1 {
        assert LeftSum(v.threads, l[..i]) == LeftSum(s.threads, l[..i]) - 1;
        RoundRobin(v, idle, i);
      } else {
        RoundRobin(v, idle, i - 1);
      }
    }
  }

  lemma TopLefts(s: Sched, idle: nat)
    requires Running(s, idle)
    ensures forall t :: t in s.threads ==> 0 < s.threads[t].left <= s.threads[t].slice
  {
  }

  lemma RestFrame(s: Sched, v: Sched, l: seq<nat>, i: nat)
    requires 0 < i <= |l| && NoDup(l) && l[0] == s.current && l[0] in s.threads && l[0] in v.threads
    requires (forall u :: u in s.threads <==> u in v.threads)
    requires (forall u :: u in s.threads && u != s.current ==> v.threads[u] == s.threads[u])
    ensures LeftSum(v.threads, l[1..i]) == LeftSum(s.threads, l[1..i])
    ensures LeftSum(s.threads, l[..i]) == s.threads[l[0]].left + LeftSum(s.threads, l[1..i])
    ensures LeftSum(v.threads, l[..i]) == v.threads[l[0]].left + LeftSum(v.threads, l[1..i])
  {
    PrefixTail(l, i);
    LeftFrame(s.threads, v.threads, l[1..i]);
  }

  /** Until its turn comes, the thread at position `i` does not run. */
  lemma {:induction false} RoundRobinFirst(s: Sched, idle: nat, i: nat, k: nat)
    requires Running(s, idle) && i < |TopList(s)| && k < LeftSum(s.threads, TopList(s)[..i])
    ensures Running(Ticks(s, idle, k), idle) && Ticks(s, idle, k).current in TopList(s)[..i]
    decreases k
  {
    hide Running, Tick, TopList;
    var l := TopList(s);
    TopThread(s, idle);
    if 0 < i {
      PrefixTail(l, i);
      if 0 < k {
        TickTurns(s, idle);
        var v, t := Tick(s), s.threads[s.current];
        RestFrame(s, v, l, i);
        if t.left > 1 {
          RoundRobinFirst(v, idle, i, k - 1);
        } else {
          RoundRobinFirst(v, idle, i - 1, k - 1);
        }
      }
    }
  }
}
