/**
 The mutex of `ipc.c` with priority inheritance: one mutex whose threads wait by priority, and
 no other cause of priority changes. `base` is the priority each thread has of its own.
 */
module MutexSpec {
  import opened Seqs
  import opened Ordered
  import opened WaitList

  const HOLDS := 256        // mutex->hold has 8 bits
  const NO_PRIORITY := 0xff

  /** `prio` holds the current priorities of all threads; a lower number is more urgent. */
  datatype State = State(value: nat, owner: int, hold: nat, original: nat, waiters: Waiters, prio: Keys)

  datatype Outcome = Taken | Refused | Waits

  function Init(base: Keys): State {
    State(1, NOBODY, 0, NO_PRIORITY, Empty(), base)
  }

  /** `rt_mutex_take` by thread `t`. */
  function Take(m: State, t: nat, wait: bool): (State, Outcome)
    requires m.value == 0 ==> 0 <= m.owner
  {
    if m.owner == t then (m.(hold := (m.hold + 1) % HOLDS), Taken)
    else if m.value > 0 then
      (m.(value := m.value - 1, owner := t, original := At(m.prio, t), hold := (m.hold + 1) % HOLDS), Taken)
    else if !wait then (m, Refused)
    else
      var prio := if At(m.prio, t) < At(m.prio, m.owner) then m.prio[m.owner := At(m.prio, t)] else m.prio;
      (m.(prio := prio, waiters := Enqueue(m.waiters, Prio, prio, t)), Waits)
  }

  /** `rt_mutex_release` by thread `t`: whether it may, and the thread that is resumed. */
  function Release(m: State, t: nat): (State, bool, int) {
    if t != m.owner then (m, false, NOBODY)
    else
      var hold := (m.hold - 1) % HOLDS;
      if hold != 0 then (m.(hold := hold), true, NOBODY)
      else
        var prio := if m.original != At(m.prio, t) then m.prio[t := m.original] else m.prio;
        if m.waiters.list != [] then
          var w := m.waiters.list[0];
          (m.(prio := prio, owner := w, original := At(prio, w), hold := 1, waiters := DropFirst(m.waiters)), true, w)
        else
          (m.(prio := prio, value := m.value + 1, owner := NOBODY, original := NO_PRIORITY, hold := 0), true, NOBODY)
  }

  function Timeout(m: State, t: nat): State {
    m.(waiters := Drop(m.waiters, t))
  }

  ghost predicate Open(m: State) {
    m.value == 1 && m.hold == 0 && m.waiters.list == [] && m.original == NO_PRIORITY
  }

  /** One owner, who holds the mutex and is at least as urgent as every thread that waits. */
  ghost predicate Held(m: State, base: Keys) {
    && 0 <= m.owner && m.value == 0 && 1 <= m.hold < HOLDS && m.owner !in m.waiters.list
    && m.original == At(base, m.owner) && At(m.prio, m.owner) <= At(base, m.owner)
    && forall w :: w in m.waiters.list ==> At(m.prio, m.owner) <= At(m.prio, w)
  }

  /** Only the owner's priority may differ from its own. */
  ghost predicate Lent(m: State, base: Keys) {
    forall t: nat :: t != m.owner ==> At(m.prio, t) == At(base, t)
  }

  ghost predicate Inv(m: State, base: Keys) {
    Fair(m.waiters, Prio, m.prio) && Lent(m, base) && if m.owner == NOBODY then Open(m) else Held(m, base)
  }

  /** The order of the list depends only on the priorities of the threads in it. */
  lemma FairFrame(w: Waiters, prio: Keys, prio': Keys)
    requires Fair(w, Prio, prio) && forall t :: t in w.list ==> At(prio, t) == At(prio', t)
    ensures Fair(w, Prio, prio')
  {
    hide At;
    forall i, j | 0 <= i < j < |w.list| ensures Before(Prio, prio', w.ticket, w.list[i], w.list[j]) {
      assert Before(Prio, prio, w.ticket, w.list[i], w.list[j]) && w.list[i] in w.list && w.list[j] in w.list;
    }
  }

  /** A thread that has to wait lends its priority to the owner. */
  lemma WaitInv(m: State, base: Keys, t: nat)
    requires Inv(m, base) && t !in m.waiters.list && m.owner != t && m.value == 0
    ensures Inv(Take(m, t, true).0, base)
  {
    hide At, Fair, Place;
    var v := Take(m, t, true).0;
    var p := At(m.prio, t);
    AtOther(m.prio, m.owner, p);
    FairFrame(m.waiters, m.prio, v.prio);
    EnqueueFair(m.waiters, Prio, v.prio, t);
    EnqueueElements(m.waiters.list, Prio, v.prio, t);
  }

  /** A take keeps all this, unless the owner takes the mutex for the 256th time. */
  lemma TakeInv(m: State, base: Keys, t: nat, wait: bool)
    requires Inv(m, base) && t !in m.waiters.list
    ensures Inv(Take(m, t, wait).0, base) <==> !(m.owner == t && m.hold == HOLDS - 1)
  {
    hide At, Fair, Place;
    if m.owner != t && m.value == 0 && wait {
      WaitInv(m, base, t);
    }
  }

  /**
   What a take answers: taken exactly if the thread owns the mutex afterwards, waiting exactly if it is in the list, and
   refused exactly if another thread owns the mutex and it may not wait; then nothing has changed.
   */
  lemma TakeGives(m: State, base: Keys, t: nat, wait: bool)
    requires Inv(m, base) && t !in m.waiters.list
    ensures var (v, outcome) := Take(m, t, wait);
            && (outcome == Taken <==> v.owner == t) && (outcome == Taken <==> m.owner == t || m.owner == NOBODY)
            && (outcome == Waits <==> t in v.waiters.list)
            && (outcome == Refused <==> m.owner != t && m.owner != NOBODY && !wait)
            && (outcome == Refused ==> v == m)
            && (outcome == Taken ==>
                  && v.hold == (if m.owner == t then (m.hold + 1) % HOLDS else 1)
                  && v.waiters == m.waiters && v.prio == m.prio)
            && (outcome == Waits ==>
                  && v.owner == m.owner && v.hold == m.hold && v.original == m.original && v.value == m.value
                  && (forall u: nat :: u != m.owner ==> At(v.prio, u) == At(m.prio, u))
                  && At(v.prio, m.owner) ==
                     if At(m.prio, t) < At(m.prio, m.owner) then At(m.prio, t) else At(m.prio, m.owner))
  {
    hide At, Fair, Place;
    if m.owner != t && m.value == 0 && wait {
      AtOther(m.prio, m.owner, At(m.prio, t));
      EnqueueElements(m.waiters.list, Prio, Take(m, t, wait).0.prio, t);
    }
  }

  /** The 256th take leaves an owner that holds nothing, and its release does not free the mutex. */
  lemma TakeOverflows(m: State, base: Keys, t: nat)
    requires Inv(m, base) && m.owner == t && m.hold == HOLDS - 1
    ensures Take(m, t, true).0.hold == 0 && Release(Take(m, t, true).0, t).0 == m
  {
    hide Fair, At;
  }

  /** The last release gives the owner its own priority back and hands over to the first in the list. */
  lemma ReleaseInv(m: State, base: Keys, t: nat)
    requires Inv(m, base)
    ensures Inv(Release(m, t).0, base)
    ensures var (v, ok, w) := Release(m, t);
            && (ok <==> m.owner == t) && (!ok ==> v == m)
            && (ok && m.hold > 1 ==> v == m.(hold := m.hold - 1))
            && (ok && m.hold == 1 ==>
                  && At(v.prio, t) == At(base, t) && v.owner == w
                  && if m.waiters.list == [] then w == NOBODY
                     else w == m.waiters.list[0] && v.waiters == Drop(m.waiters, w)
                          && forall u :: u in m.waiters.list && u != w ==> Before(Prio, m.prio, m.waiters.ticket, w, u))
  {
    hide At, Fair, Before, Remove;
    if m.owner == t && m.hold == 1 {
      var v := Release(m, t).0;
      AtOther(m.prio, t, m.original);
      FairFrame(m.waiters, m.prio, v.prio);
      if m.waiters.list != [] {
        FirstFair(m.waiters, Prio, m.prio);
        HandOver(m, base, v.prio);
      }
    }
  }

  /** The thread that gets the mutex is at least as urgent as those that go on waiting. */
  lemma HandOver(m: State, base: Keys, prio: Keys)
    requires Fair(m.waiters, Prio, prio) && m.waiters.list != []
    ensures var w, rest := m.waiters.list[0], DropFirst(m.waiters);
            && Fair(rest, Prio, prio) && w !in rest.list && forall u :: u in rest.list ==> At(prio, w) <= At(prio, u)
  {
    hide At, Remove;
    FirstFair(m.waiters, Prio, prio);
    DropNoDup(m.waiters.list);
  }

  lemma TimeoutInv(m: State, base: Keys, t: nat)
    requires Inv(m, base)
    ensures Inv(Timeout(m, t), base)
  {
    hide At, Fair;
    DropFair(m.waiters, Prio, m.prio, t);
  }

  /** A thread whose time is up leaves the list, and nothing else changes. */
  lemma TimeoutGives(m: State, t: nat)
    ensures var v := Timeout(m, t);
            && v.(waiters := m.waiters) == m && forall u :: u in v.waiters.list <==> u != t && u in m.waiters.list
  {
    hide Remove;
    forall u ensures u in Timeout(m, t).waiters.list <==> u != t && u in m.waiters.list {
      RemoveElements(m.waiters.list, t, u);
    }
  }

  datatype Op = DoTake(t: nat, wait: bool) | DoRelease(t: nat) | DoTimeout(t: nat)

  /** One call; a thread that waits does nothing else, and nobody nests 256 takes. */
  ghost function Step(m: State, base: Keys, op: Op): (v: State)
    requires Inv(m, base)
    ensures Inv(v, base)
  {
    match op
    case DoTake(t, wait) =>
      if t in m.waiters.list || (m.owner == t && m.hold == HOLDS - 1) then m
      else
        TakeInv(m, base, t, wait);
        Take(m, t, wait).0
    case DoRelease(t) =>
      if t in m.waiters.list then m
      else
        ReleaseInv(m, base, t);
        Release(m, t).0
    case DoTimeout(t) =>
      TimeoutInv(m, base, t);
      Timeout(m, t)
  }

  ghost function RunAll(base: Keys, ops: seq<Op>): (m: State)
    ensures Inv(m, base)
  {
    if ops == [] then Init(base) else Step(RunAll(base, ops[..|ops| - 1]), base, ops[|ops| - 1])
  }

  // ---------------------------------------------------------------------------------
  // Nesting
  // ---------------------------------------------------------------------------------

  ghost function TakeTimes(m: State, base: Keys, t: nat, n: nat): State
    requires Inv(m, base) && t !in m.waiters.list && n < HOLDS && (m.owner == t ==> m.hold + n < HOLDS)
    decreases n
  {
    if n == 0 then m
    else
      TakeInv(m, base, t, false);
      TakeKeeps(m, base, t);
      TakeTimes(Take(m, t, false).0, base, t, n - 1)
  }

  lemma TakeKeeps(m: State, base: Keys, t: nat)
    requires Inv(m, base)
    ensures var v := Take(m, t, false).0;
            && v.waiters == m.waiters && (v.owner == t ==> v.hold == (if m.owner == t then m.hold + 1 else 1) % HOLDS)
            && (v.owner != t ==> v == m)
  {
    hide Fair, At;
  }

  function ReleaseTimes(m: State, t: nat, n: nat): State
    decreases n
  {
    if n == 0 then m else Release(ReleaseTimes(m, t, n - 1), t).0
  }

  /** The owner has the mutex until it has released it as often as it took it. */
  lemma {:induction false} HoldsUntil(m: State, base: Keys, t: nat, n: nat)
    requires Inv(m, base) && m.owner == t && n < m.hold
    ensures ReleaseTimes(m, t, n) == m.(hold := m.hold - n)
    decreases n
  {
    hide Fair, At;
    if 0 < n {
      HoldsUntil(m, base, t, n - 1);
    }
  }

  lemma {:induction false} TakesCount(m: State, base: Keys, t: nat, n: nat)
    requires Inv(m, base) && t !in m.waiters.list && m.owner == t && m.hold + n < HOLDS
    ensures TakeTimes(m, base, t, n) == m.(hold := m.hold + n)
    decreases n
  {
    hide Fair, At;
    if 0 < n {
      TakeInv(m, base, t, false);
      TakesCount(Take(m, t, false).0, base, t, n - 1);
    }
  }

  /** As many releases as takes leave an open mutex as it was, and no fewer do. */
  lemma NestedRoundTrip(m: State, base: Keys, t: nat, n: nat, k: nat)
    requires Inv(m, base) && m.owner == NOBODY && 1 <= n < HOLDS && k <= n
    ensures var v := ReleaseTimes(TakeTimes(m, base, t, n), t, k);
            && v.owner == (if k < n then t else NOBODY) && v.hold == n - k
            && (k == n ==> Open(v) && forall u: nat :: At(v.prio, u) == At(m.prio, u))
  {
    hide Fair, At;
    var u := Take(m, t, false).0;
    TakeInv(m, base, t, false);
    TakesCount(u, base, t, n - 1);
    var h := u.(hold := n);
    assert TakeTimes(m, base, t, n) == h;
    HoldsUntil(h, base, t, if k < n then k else n - 1);
    AtOther(m.prio, t, At(m.prio, t));
  }
}

/** The mutex object, changed in place, with the priorities of the threads it changes. */
module Mutex {
  import opened Seqs
  import opened Ordered
  import opened WaitList
  import Spec = MutexSpec
  import opened MutexSpec

  class Mutex {
    var value: nat
    var owner: int
    var hold: nat
    var original: nat   // original_priority
    var list: seq<nat>  // suspend_thread
    var prio: Keys      // current_priority of each thread
    ghost var ticket: Keys
    ghost var next: nat

    ghost function View(): Spec.State
      reads this
    {
      Spec.State(value, owner, hold, original, Waiters(list, ticket, next), prio)
    }

    constructor (base: Keys)
      ensures View() == Spec.Init(base)
    {
      value, owner, hold, original, list, prio := 1, NOBODY, 0, NO_PRIORITY, [], base;
      ticket, next := map[], 0;
    }

    method Take(t: nat, wait: bool, ghost base: Keys) returns (outcome: Outcome)
      requires Inv(View(), base) && t !in list
      modifies this
      ensures (View(), outcome) == Spec.Take(old(View()), t, wait)
      ensures Inv(View(), base) <==> !old(owner == t && hold == HOLDS - 1)
    {
      hide Fair, At, Lent;
      TakeInv(View(), base, t, wait);
      if owner == t {
        hold := (hold + 1) % HOLDS;
      } else if value > 0 {
        value := value - 1;
        owner := t;
        original := At(prio, t);
        hold := (hold + 1) % HOLDS;
      } else if !wait {
        return Refused;
      } else {
        if At(prio, t) < At(prio, owner) {
          prio := prio[owner := At(prio, t)];
        }
        list := Suspend(list, Prio, prio, t);
        ticket, next := ticket[t := next], next + 1;
        return Waits;
      }
      return Taken;
    }

    method Release(t: nat, ghost base: Keys) returns (ok: bool, woken: int)
      requires Inv(View(), base)
      modifies this
      ensures Inv(View(), base) && (View(), ok, woken) == Spec.Release(old(View()), t)
    {
      hide Fair, At, Lent;
      ReleaseInv(View(), base, t);
      woken := NOBODY;
      if t != owner {
        return false, NOBODY;
      }
      ok := true;
      hold := (hold - 1) % HOLDS;
      if hold == 0 {
        if original != At(prio, owner) {
          prio := prio[owner := original];
        }
        if list != [] {
          woken := list[0];
          owner := list[0];
          original := At(prio, list[0]);
          hold := hold + 1;
          list := list[1..];
        } else {
          value := value + 1;
          owner := NOBODY;
          original := NO_PRIORITY;
        }
      }
    }

    method Timeout(t: nat, ghost base: Keys)
      requires Inv(View(), base)
      modifies this
      ensures Inv(View(), base) && View() == Spec.Timeout(old(View()), t)
    {
      TimeoutInv(View(), base, t);
      list := Remove(list, t);
    }
  }
}
