/**
 The semaphore of `ipc.c`. A release hands the semaphore to the first waiting thread, or else
 raises the 16-bit value. The model counts releases and takes since the last reset.
 */
module SemaphoreSpec {
  import opened Seqs
  import opened Ordered
  import opened WaitList

  const RANGE := 0x1_0000  // sem->value has 16 bits

  datatype Sem = Sem(value: nat, waiters: Waiters, init: nat, releases: nat, takes: nat)

  datatype Outcome = Taken | Refused | Waits

  function Init(value: nat): Sem {
    Sem(value % RANGE, Empty(), value % RANGE, 0, 0)
  }

  /** `rt_sem_take` by thread `t`, which may wait or not. */
  function Take(s: Sem, policy: Policy, prio: Keys, t: nat, wait: bool): (Sem, Outcome) {
    if s.value > 0 then (s.(value := s.value - 1, takes := s.takes + 1), Taken)
    else if !wait then (s, Refused)
    else (s.(waiters := Enqueue(s.waiters, policy, prio, t)), Waits)
  }

  /** `rt_sem_release`; the second part is the thread that is resumed. */
  function Release(s: Sem): (Sem, int) {
    if s.waiters.list != [] then
      (s.(waiters := DropFirst(s.waiters), releases := s.releases + 1, takes := s.takes + 1), s.waiters.list[0])
    else (s.(value := (s.value + 1) % RANGE, releases := s.releases + 1), NOBODY)
  }

  /** A thread's time is up while it waits. */
  function Timeout(s: Sem, t: nat): Sem {
    s.(waiters := Drop(s.waiters, t))
  }

  /** `rt_sem_control` with `RT_IPC_CMD_RESET`: all waiting threads fail, counting starts anew. */
  function Reset(s: Sem, value: nat): Sem {
    s.(value := value % RANGE, waiters := s.waiters.(list := []), init := value % RANGE, releases := 0, takes := 0)
  }

  /** Releases not yet taken. */
  function Count(s: Sem): int {
    s.init + s.releases - s.takes
  }

  ghost predicate Inv(s: Sem, policy: Policy, prio: Keys) {
    && Fair(s.waiters, policy, prio)
    && (s.value > 0 ==> s.waiters.list == [])
    && 0 <= Count(s) && s.value == Count(s) % RANGE
  }

  /** The value is initial value plus releases minus takes exactly while that fits in 16 bits. */
  lemma ValueLaw(s: Sem, policy: Policy, prio: Keys)
    requires Inv(s, policy, prio)
    ensures s.value == Count(s) <==> Count(s) < RANGE
    ensures s.value < RANGE && (Count(s) < RANGE && 0 < Count(s) ==> s.waiters.list == [])
  {
  }

  /** A release at the largest value loses all of it. */
  lemma ReleaseOverflows(s: Sem)
    requires s.waiters.list == [] && s.value == RANGE - 1
    ensures Release(s).0.value == 0 && Count(Release(s).0) == Count(s) + 1
  {
  }

  lemma TakeInv(s: Sem, policy: Policy, prio: Keys, t: nat, wait: bool)
    requires Inv(s, policy, prio) && t !in s.waiters.list
    ensures Inv(Take(s, policy, prio, t, wait).0, policy, prio)
  {
    hide Fair;
    EnqueueFair(s.waiters, policy, prio, t);
  }

  /** A release resumes the waiting thread that is to be served first, or raises the value. */
  lemma ReleaseInv(s: Sem, policy: Policy, prio: Keys)
    requires Inv(s, policy, prio)
    ensures Inv(Release(s).0, policy, prio)
    ensures var (v, t) := Release(s);
            if t == NOBODY then s.waiters.list == [] && v.waiters == s.waiters
            else && 0 <= t && t in s.waiters.list && v.value == s.value == 0 && v.waiters == Drop(s.waiters, t)
                 && forall u :: u in s.waiters.list && u != t ==> Before(policy, prio, s.waiters.ticket, t, u)
  {
    hide Fair, Before;
    if s.waiters.list != [] {
      FirstFair(s.waiters, policy, prio);
    } else {
      assert (Count(s) % RANGE + 1) % RANGE == (Count(s) + 1) % RANGE;
    }
  }

  lemma TimeoutInv(s: Sem, policy: Policy, prio: Keys, t: nat)
    requires Inv(s, policy, prio)
    ensures Inv(Timeout(s, t), policy, prio)
  {
    hide Fair;
    DropFair(s.waiters, policy, prio, t);
  }

  /** What a take answers, and what it changes. */
  lemma TakeGives(s: Sem, policy: Policy, prio: Keys, t: nat, wait: bool)
    requires Inv(s, policy, prio) && t !in s.waiters.list
    ensures var (v, outcome) := Take(s, policy, prio, t, wait);
            && (outcome == Taken <==> 0 < s.value) && (outcome == Taken <==> Count(v) == Count(s) - 1)
            && (outcome == Taken ==> v.value == s.value - 1 && v.waiters == s.waiters)
            && (outcome == Waits <==> t in v.waiters.list) && (outcome == Waits <==> s.value == 0 && wait)
            && (outcome == Waits ==>
                  v.value == 0 && forall u :: u in v.waiters.list <==> u == t || u in s.waiters.list)
            && (outcome == Refused <==> s.value == 0 && !wait) && (outcome == Refused ==> v == s)
  {
    hide Fair, Place;
    EnqueueElements(s.waiters.list, policy, prio, t);
  }

  /** A timeout takes one thread out of the list, a reset all; a release with nobody waiting raises the value by one. */
  lemma QuitGives(s: Sem, t: nat, value: nat)
    ensures var v := Timeout(s, t);
            && v.(waiters := s.waiters) == s && forall u :: u in v.waiters.list <==> u != t && u in s.waiters.list
    ensures value < RANGE ==>
              var v := Reset(s, value); v.value == value == Count(v) && v.waiters.list == []
    ensures s.waiters.list == [] && s.value < RANGE - 1 ==>
              Release(s).0.value == s.value + 1 && Count(Release(s).0) == Count(s) + 1
  {
    hide Remove;
    forall u ensures u in Timeout(s, t).waiters.list <==> u != t && u in s.waiters.list {
      RemoveElements(s.waiters.list, t, u);
    }
  }

  datatype Op = DoTake(t: nat, wait: bool) | DoRelease | DoTimeout(t: nat) | DoReset(value: nat)

  /** One call; a thread that waits does nothing else. */
  ghost function Step(s: Sem, policy: Policy, prio: Keys, op: Op): (v: Sem)
    requires Inv(s, policy, prio)
    ensures Inv(v, policy, prio)
  {
    match op
    case DoTake(t, wait) =>
      if t in s.waiters.list then s
      else
        TakeInv(s, policy, prio, t, wait);
        Take(s, policy, prio, t, wait).0
    case DoRelease =>
      ReleaseInv(s, policy, prio);
      Release(s).0
    case DoTimeout(t) =>
      TimeoutInv(s, policy, prio, t);
      Timeout(s, t)
    case DoReset(value) => Reset(s, value)
  }

  ghost function RunAll(value: nat, policy: Policy, prio: Keys, ops: seq<Op>): (s: Sem)
    ensures Inv(s, policy, prio)
  {
    if ops == [] then Init(value) else Step(RunAll(value, policy, prio, ops[..|ops| - 1]), policy, prio, ops[|ops| - 1])
  }

  /** A call, or a thread whose priority `rt_thread_control` changes. */
  datatype Happening = Call(op: Op) | Change(t: nat, p: nat)

  /** The invariant holds at every point of a run in which priorities change. */
  ghost predicate Keeps(s: Sem, policy: Policy, prio: Keys, events: seq<Happening>)
    decreases |events|
  {
    && Inv(s, policy, prio)
    && (events == [] ||
        match events[0]
        case Call(op) => Keeps(Step(s, policy, prio, op), policy, prio, events[1..])
        case Change(t, p) => Keeps(s, policy, prio[t := p], events[1..]))
  }

  /** At every change the thread stays in order with its neighbours in the list. */
  ghost predicate Orderly(s: Sem, policy: Policy, prio: Keys, events: seq<Happening>)
    requires Inv(s, policy, prio)
    decreases |events|
  {
    events == [] ||
    match events[0]
    case Call(op) => Orderly(Step(s, policy, prio, op), policy, prio, events[1..])
    case Change(t, p) =>
      && StaysFair(s.waiters, policy, prio, t, p)
      && (ChangeInv(s, policy, prio, t, p);
          Orderly(s, policy, prio[t := p], events[1..]))
  }

  lemma ChangeInv(s: Sem, policy: Policy, prio: Keys, t: nat, p: nat)
    requires Inv(s, policy, prio)
    ensures Inv(s, policy, prio[t := p]) <==> StaysFair(s.waiters, policy, prio, t, p)
  {
    hide Fair, StaysFair;
    StaysFairExact(s.waiters, policy, prio, t, p);
  }

  /** Runs in which priorities change keep the invariant exactly when every change is orderly. */
  lemma {:induction false} RunChanges(s: Sem, policy: Policy, prio: Keys, events: seq<Happening>)
    requires Inv(s, policy, prio)
    ensures Keeps(s, policy, prio, events) <==> Orderly(s, policy, prio, events)
    decreases |events|
  {
    hide Inv, Step, StaysFair;
    if events != [] {
      match events[0]
      case Call(op) => RunChanges(Step(s, policy, prio, op), policy, prio, events[1..]);
      case Change(t, p) =>
        ChangeInv(s, policy, prio, t, p);
        if StaysFair(s.waiters, policy, prio, t, p) {
          RunChanges(s, policy, prio[t := p], events[1..]);
        }
    }
  }
}

/** The semaphore object, changed in place; each call runs with interrupts disabled. */
module Semaphore {
  import opened Seqs
  import opened Ordered
  import opened WaitList
  import Spec = SemaphoreSpec
  import opened SemaphoreSpec

  class Semaphore {
    const policy: Policy
    var value: nat
    var list: seq<nat>  // suspend_thread
    ghost var ticket: Keys
    ghost var next: nat
    ghost var init: nat
    ghost var releases: nat
    ghost var takes: nat

    ghost function View(): Sem
      reads this
    {
      Sem(value, Waiters(list, ticket, next), init, releases, takes)
    }

    constructor (value: nat, policy: Policy)
      requires value < RANGE
      ensures View() == Spec.Init(value) && this.policy == policy
    {
      this.policy, this.value, list := policy, value, [];
      ticket, next, init, releases, takes := map[], 0, value, 0, 0;
    }

    method Take(t: nat, wait: bool, prio: Keys) returns (outcome: Outcome)
      modifies this
      ensures (View(), outcome) == Spec.Take(old(View()), policy, prio, t, wait)
    {
      if value > 0 {
        value := value - 1;
        takes := takes + 1;
        return Taken;
      }
      if !wait {
        return Refused;
      }
      list := Suspend(list, policy, prio, t);
      ticket, next := ticket[t := next], next + 1;
      return Waits;
    }

    method Release() returns (woken: int)
      modifies this
      ensures (View(), woken) == Spec.Release(old(View()))
    {
      if list != [] {
        woken := list[0];
        list := list[1..];
        takes := takes + 1;
      } else {
        woken := NOBODY;
        value := (value + 1) % RANGE;
      }
      releases := releases + 1;
    }

    method Timeout(t: nat)
      modifies this
      ensures View() == Spec.Timeout(old(View()), t)
    {
      list := Remove(list, t);
    }

    /** All waiting threads are resumed with an error, in the order of the list. */
    method Reset(v: nat) returns (failed: seq<nat>)
      modifies this
      ensures View() == Spec.Reset(old(View()), v) && failed == old(list)
    {
      failed := [];
      while list != []
        invariant failed + list == old(list)
        invariant value == old(value) && ticket == old(ticket) && next == old(next)
        decreases |list|
      {
        failed := failed + [list[0]];
        list := list[1..];
      }
      value := v % RANGE;
      init, releases, takes := value, 0, 0;
    }
  }
}
