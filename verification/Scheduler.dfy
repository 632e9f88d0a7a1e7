/**
 The ready queue of `scheduler.c` with its bitmap, and the thread operations of `thread.c` and
 `clock.c` on it, changed in place.
 */
module Scheduler {
  import opened Seqs
  import opened Bits
  import opened ReadyBitmap
  import Spec = SchedulerSpec
  import opened SchedulerSpec

  class Scheduler {
    const max: nat                // RT_THREAD_PRIORITY_MAX
    const lists: array<seq<nat>>  // rt_thread_priority_table
    const table: array<nat>       // rt_thread_ready_table
    var group: nat                // rt_thread_ready_priority_group
    var threads: Threads
    var masks: map<nat, Masks>
    var current: int              // rt_current_thread
    var nest: int                 // rt_scheduler_lock_nest

    ghost function View(): Sched
      reads this, lists
    {
      Sched(threads, lists[..], current, nest)
    }

    /** Bitmap and masks agree with the lists and the priorities of the threads. */
    ghost predicate Agrees()
      reads this, lists, table
    {
      && lists.Length == max && table.Length == GROUPS && Mirror(lists[..], Bitmap(group, table[..]))
      && PrioritiesFit(threads, max)
      && forall t :: t in threads && !threads[t].stat.Init? ==> t in masks && masks[t] == MasksOf(max, threads[t].prio)
    }

    ghost predicate Valid(idle: nat)
      reads this, lists, table
    {
      Agrees() && Inv(View(), idle)
    }

    /** `rt_system_scheduler_init`, with the idle thread started. */
    constructor (max: nat, idle: nat, slice: nat)
      requires 0 < max <= MAX
      ensures Valid(idle) && View() == Boot(max, idle, slice) && this.max == max && fresh(lists) && fresh(table)
    {
      hide Inv, Mirror;
      this.max := max;
      lists := new seq<nat>[max](_ => []);
      table := new nat[GROUPS](_ => 0);
      group, current, nest := 0, NONE, 0;
      threads := map[idle := Thread(Suspended, max - 1, max - 1, slice, slice)];
      masks := map[idle := MasksOf(max, max - 1)];
      new;
      EmptyMirror(lists[..], table[..]);
      ghost var empty := lists[..];
      InsertThread(idle);
      assert empty[max - 1] + [idle] == [idle];
      assert lists[..] == Boot(max, idle, slice).lists;
      assert threads == Boot(max, idle, slice).threads;
      BootInv(max, idle, slice);
    }

    /** `rt_schedule_insert_thread`. */
    method InsertThread(t: nat)
      requires Agrees() && t in threads && !threads[t].stat.Init?
      modifies this, lists, table
      ensures Agrees() && View() == Insert(old(View()), t)
    {
      hide Mirror, SetBits;
      var p, k := threads[t].prio, masks[t];
      ghost var m := Bitmap(group, table[..]);
      SetMirrors(lists[..], m, p, lists[p] + [t]);
      threads := threads[t := threads[t].(stat := Ready)];
      lists[p] := lists[p] + [t];
      SetIn(k);
      assert lists[..] == old(lists[..])[p := old(lists[p]) + [t]];
    }

    method SetIn(k: Masks)
      requires table.Length == GROUPS && k.number < GROUPS
      modifies `group, table
      ensures Bitmap(group, table[..]) == SetBits(max, Bitmap(old(group), old(table[..])), k)
    {
      hide Or;
      if max > 32 {
        table[k.number] := Or(table[k.number], k.highMask);
      }
      group := Or(group, k.numberMask);
    }

    method ClearIn(k: Masks)
      requires table.Length == GROUPS && k.number < GROUPS
      modifies `group, table
      ensures Bitmap(group, table[..]) == ClearBits(max, Bitmap(old(group), old(table[..])), k)
    {
      hide AndNot;
      if max > 32 {
        table[k.number] := AndNot(table[k.number], k.highMask);
        if table[k.number] == 0 {
          group := AndNot(group, k.numberMask);
        }
      } else {
        group := AndNot(group, k.numberMask);
      }
    }

    /** `rt_schedule_remove_thread`; the thread need not be ready. */
    method RemoveThread(t: nat)
      requires Agrees() && t in threads && !threads[t].stat.Init?
      modifies this, lists, table
      ensures Agrees() && threads == old(threads) && masks == old(masks) && current == old(current) && nest == old(nest)
      ensures lists[..] == old(lists[..])[threads[t].prio := Remove(old(lists[..])[threads[t].prio], t)]
    {
      hide Mirror, ClearBits;
      var p, k := threads[t].prio, masks[t];
      ghost var m, l := Bitmap(group, table[..]), Remove(lists[p], t);
      ClearMirrors(lists[..], m, p, l);
      lists[p] := Remove(lists[p], t);
      assert lists[..] == old(lists[..])[p := l];
      if lists[p] == [] {
        ClearIn(k);
      }
    }

    /** `rt_schedule`: look up the bitmap and run the first thread of that list. */
    method Schedule(idle: nat)
      requires Valid(idle)
      modifies `current
      ensures Valid(idle) && View() == Spec.Schedule(old(View()))
    {
      hide Mirror, Highest;
      SchedulePicks(View(), idle);
      if nest == 0 {
        HighestTop(lists[..], Bitmap(group, table[..]));
        var p := Lookup();
        var to := lists[p][0];
        if to != current {
          current := to;
        }
      }
    }

    method Lookup() returns (p: int)
      requires 0 < group < 0x1_0000_0000 && table.Length == GROUPS
      requires max > 32 ==> 0 <= Ffs(group) - 1 < GROUPS && table[Ffs(group) - 1] < 0x100
      ensures p == Highest(max, Bitmap(group, table[..]))
    {
      hide Ffs;
      if max <= 32 {
        p := Ffs(group) - 1;
      } else {
        var number := Ffs(group) - 1;
        p := 8 * number + Ffs(table[number]) - 1;
      }
    }

    /** `rt_thread_startup`. */
    method Startup(t: nat, idle: nat)
      requires Valid(idle) && t in threads && threads[t].stat.Init?
      modifies this, lists, table
      ensures Valid(idle) && View() == Spec.Startup(old(View()), t)
    {
      hide Inv, Mirror, Insert, Spec.Schedule;
      FitOf(View(), idle, t);
      StartupInv(View(), idle, t);
      ghost var s := View();
      threads := threads[t := threads[t].(prio := threads[t].initPrio)];
      masks := masks[t := MasksOf(max, threads[t].prio)];
      threads := threads[t := threads[t].(stat := Suspended)];
      ghost var u := s.(threads := s.threads[t := s.threads[t].(prio := s.threads[t].initPrio, stat := Suspended)]);
      assert View() == u;
      ChangeInv(s, idle, t, u.threads[t]);
      InsertInv(u, idle, t);
      InsertThread(t);
      InsertCurrent(u, t);
      if current != NONE {
        Schedule(idle);
      }
    }

    /** `rt_thread_suspend`: an error if the thread is not ready. */
    method Suspend(t: nat, idle: nat) returns (ok: bool)
      requires Valid(idle) && t in threads && t != idle
      modifies this, lists, table
      ensures Valid(idle) && View() == Spec.Suspend(old(View()), t) && ok == old(threads[t].stat.Ready?)
    {
      hide Inv, Mirror, Remove;
      if !threads[t].stat.Ready? {
        return false;
      }
      LeaveInv(View(), idle, t, Suspended);
      threads := threads[t := threads[t].(stat := Suspended)];
      RemoveThread(t);
      return true;
    }

    /** `rt_thread_resume`: an error if the thread is not suspended. */
    method Resume(t: nat, idle: nat) returns (ok: bool)
      requires Valid(idle) && t in threads
      modifies this, lists, table
      ensures Valid(idle) && View() == Spec.Resume(old(View()), t) && ok == old(threads[t].stat.Suspended?)
    {
      hide Inv, Mirror, Insert;
      if !threads[t].stat.Suspended? {
        return false;
      }
      InsertInv(View(), idle, t);
      InsertThread(t);
      return true;
    }

    /** `rt_thread_timeout`. */
    method Timeout(t: nat, idle: nat)
      requires Valid(idle) && t in threads && threads[t].stat.Suspended?
      modifies this, lists, table
      ensures Valid(idle) && View() == Spec.Timeout(old(View()), t)
    {
      hide Inv, Mirror, Insert, Spec.Schedule;
      InsertInv(View(), idle, t);
      InsertThread(t);
      Schedule(idle);
    }

    /** `rt_thread_control` with `RT_THREAD_CTRL_CHANGE_PRIORITY`. */
    method ChangePriority(t: nat, p: nat, idle: nat)
      requires Valid(idle) && t in threads && p < max
      modifies this, lists, table
      ensures Valid(idle) && View() == Spec.ChangePriority(old(View()), t, p)
    {
      hide Inv, Mirror, Remove;
      ghost var s := View();
      ChangePriorityInv(s, idle, t, p);
      if threads[t].stat.Ready? {
        RemoveThread(t);
        threads := threads[t := threads[t].(prio := p)];
        masks := masks[t := MasksOf(max, p)];
        InsertThread(t);
        assert threads == Spec.ChangePriority(s, t, p).threads;
      } else {
        threads := threads[t := threads[t].(prio := p)];
        masks := masks[t := MasksOf(max, p)];
      }
    }

    /** `rt_thread_delete` and `rt_thread_detach`. */
    method Delete(t: nat, idle: nat)
      requires Valid(idle) && t in threads && t != idle
      modifies this, lists, table
      ensures Valid(idle) && View() == Spec.Delete(old(View()), t)
    {
      hide Inv, Mirror, Remove;
      ghost var s := View();
      FitOf(s, idle, t);
      if threads[t].stat.Init? {
        ChangeInv(s, idle, t, threads[t].(stat := Closed));
        masks := masks[t := MasksOf(max, threads[t].prio)];
      } else {
        LeaveInv(s, idle, t, Closed);
        RemoveThread(t);
      }
      threads := threads[t := threads[t].(stat := Closed)];
    }

    /** `rt_thread_exit`. */
    method Exit(idle: nat)
      requires Valid(idle) && current != NONE && current != idle
      modifies this, lists, table
      ensures Valid(idle) && View() == Spec.Exit(old(View()))
    {
      hide Mirror, Remove, ListsInv, Spec.Schedule;
      var t: nat := current;
      ghost var s := View();
      LeaveInv(s, idle, t, Closed);
      RemoveThread(t);
      threads := threads[t := threads[t].(stat := Closed)];
      assert View() == Leave(s, t, Closed);
      Schedule(idle);
    }

    /** `rt_thread_yield`. */
    method Yield(idle: nat)
      requires Valid(idle) && current != NONE
      modifies this, lists
      ensures Valid(idle) && View() == Spec.Yield(old(View()))
    {
      hide Mirror, Remove, ListsInv, Spec.Schedule;
      var t: nat := current;
      var p := threads[t].prio;
      YieldInv(View(), idle);
      if threads[t].stat.Ready? && 1 < |lists[p]| {
        ghost var s := View();
        ghost var l := Remove(lists[p], t) + [t];
        YieldLists(s, idle);
        ClearMirrors(lists[..], Bitmap(group, table[..]), p, l);
        lists[p] := Remove(lists[p], t);
        lists[p] := lists[p] + [t];
        assert lists[..] == s.lists[p := l];
        Schedule(idle);
      }
    }

    /** `rt_tick_increase` as far as threads go. */
    method Tick(idle: nat)
      requires Valid(idle) && current != NONE
      modifies this, lists
      ensures Valid(idle) && View() == Spec.Tick(old(View()))
    {
      hide Mirror, ListsInv, Spec.Yield;
      var t: nat := current;
      ghost var s := View();
      var left := (threads[t].left - 1) % WORD;
      TickInv(s, idle);
      LeftInv(s, idle, if left == 0 then threads[t].slice else left);
      if left == 0 {
        threads := threads[t := threads[t].(left := threads[t].slice)];
        Yield(idle);
      } else {
        threads := threads[t := threads[t].(left := left)];
      }
    }

    method EnterCritical(idle: nat)
      requires Valid(idle)
      modifies `nest
      ensures Valid(idle) && View() == Spec.EnterCritical(old(View()))
    {
      hide ListsInv;
      nest := Int16(nest + 1);
    }

    method ExitCritical(idle: nat)
      requires Valid(idle)
      modifies `nest, `current
      ensures Valid(idle) && View() == Spec.ExitCritical(old(View()))
    {
      hide ListsInv, Mirror, Spec.Schedule;
      nest := Int16(nest - 1);
      if nest <= 0 {
        nest := 0;
        Schedule(idle);
      }
    }
  }

  lemma EmptyMirror(lists: seq<seq<nat>>, table: seq<nat>)
    requires |lists| <= MAX && |table| == GROUPS
    requires (forall p :: 0 <= p < |lists| ==> lists[p] == []) && forall n :: 0 <= n < GROUPS ==> table[n] == 0
    ensures Mirror(lists, Bitmap(0, table))
  {
    hide Bit, Mask;
    forall i ensures !Bit(0, i) {
      BitZero(i);
    }
  }

  lemma InsertCurrent(s: Sched, t: nat)
    requires t in s.threads && s.threads[t].prio < |s.lists|
    ensures Insert(s, t).current == s.current
  {
  }

  lemma YieldLists(s: Sched, idle: nat)
    requires Inv(s, idle) && s.current != NONE && s.threads[s.current].stat.Ready?
    ensures var p := s.threads[s.current].prio; var l := Remove(s.lists[p], s.current) + [s.current];
            s.lists[p] != [] && Inv(s.(lists := s.lists[p := l]), idle)
  {
    hide NoDup, Remove;
    var t := s.current;
    var p := s.threads[t].prio;
    var l := Remove(s.lists[p], t) + [t];
    assert ListOf(s.threads, s.lists[p], p) && ReadyAt(s.threads, t, p);
    RemoveNoDup(s.lists[p], t);
    AppendNoDup(Remove(s.lists[p], t), t);
    ListsStep(s.threads, s.threads, s.lists, t, p, l);
  }
}
