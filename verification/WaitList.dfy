/**
 The list of threads suspended on a kernel object, first come first served or by priority.
 Each thread draws a ticket when it starts to wait, so that the order of arrival can be told.
 */
module WaitList {
  import opened Seqs
  import opened Ordered

  datatype Policy = Fifo | Prio  // RT_IPC_FLAG_FIFO, RT_IPC_FLAG_PRIO

  const NOBODY := -1

  /** `list` is the `suspend_thread` list; `next` is the next ticket. */
  datatype Waiters = Waiters(list: seq<nat>, ticket: Keys, next: nat)

  function Empty(): Waiters {
    Waiters([], map[], 0)
  }

  /** `rt_ipc_list_suspend`. */
  function Enqueue(w: Waiters, policy: Policy, prio: Keys, t: nat): Waiters {
    w.(list := EnqueueList(w.list, policy, prio, t), ticket := w.ticket[t := w.next], next := w.next + 1)
  }

  function EnqueueList(l: seq<nat>, policy: Policy, prio: Keys, t: nat): seq<nat> {
    if policy.Fifo? then l + [t] else Place(l, prio, At(prio, t), t)
  }

  /** A thread leaves: it is resumed, or its time is up. */
  function Drop(w: Waiters, t: nat): Waiters {
    w.(list := Remove(w.list, t))
  }

  /** `rt_ipc_list_resume`: the first thread leaves. */
  function DropFirst(w: Waiters): Waiters
    requires w.list != []
  {
    w.(list := w.list[1..])
  }

  /** `a` is to be served before `b`: more urgent, or as urgent and come first. */
  ghost predicate Before(policy: Policy, prio: Keys, ticket: Keys, a: nat, b: nat) {
    || (policy.Prio? && At(prio, a) < At(prio, b))
    || ((policy.Prio? ==> At(prio, a) == At(prio, b)) && At(ticket, a) < At(ticket, b))
  }

  /** Each thread waits once, and the list is in the order in which they are to be served. */
  ghost predicate Fair(w: Waiters, policy: Policy, prio: Keys) {
    && NoDup(w.list)
    && (forall i, j :: 0 <= i < j < |w.list| ==> Before(policy, prio, w.ticket, w.list[i], w.list[j]))
    && (forall t :: t in w.list ==> At(w.ticket, t) < w.next)
  }

  lemma FairSorted(w: Waiters, policy: Policy, prio: Keys)
    requires Fair(w, policy, prio) && policy.Prio?
    ensures Sorted(w.list, prio)
  {
  }

  lemma EnqueueElements(l: seq<nat>, policy: Policy, prio: Keys, t: nat)
    ensures forall u :: u in EnqueueList(l, policy, prio, t) <==> u == t || u in l
  {
    forall u ensures u in EnqueueList(l, policy, prio, t) <==> u == t || u in l {
      PlaceElements(l, prio, At(prio, t), t, u);
    }
  }

  /** A thread that starts to wait goes behind all it must not overtake. */
  lemma EnqueueFair(w: Waiters, policy: Policy, prio: Keys, t: nat)
    requires Fair(w, policy, prio) && t !in w.list
    ensures Fair(Enqueue(w, policy, prio, t), policy, prio)
  {
    hide At, Place;
    var v := Enqueue(w, policy, prio, t);
    AtOther(w.ticket, t, w.next);
    EnqueueElements(w.list, policy, prio, t);
    var k := |w.list|;
    if policy.Prio? {
      FairSorted(w, policy, prio);
      UpToPrefix(w.list, prio, At(prio, t));
      k := |UpTo(w.list, prio, At(prio, t))|;
      PlaceAtCut(w.list, prio, At(prio, t), t, k);
    }
    assert v.list == w.list[..k] + [t] + w.list[k..];
    InsertFair(w, v, policy, prio, t, k);
  }

  lemma InsertFair(w: Waiters, v: Waiters, policy: Policy, prio: Keys, t: nat, k: nat)
    requires Fair(w, policy, prio) && t !in w.list && k <= |w.list| && v.list == w.list[..k] + [t] + w.list[k..]
    requires v.next == w.next + 1 && At(v.ticket, t) == w.next
    requires forall u :: u != t ==> At(v.ticket, u) == At(w.ticket, u)
    requires policy.Fifo? ==> k == |w.list|
    requires policy.Prio? ==> Cut(w.list, prio, At(prio, t), k)
    ensures Fair(v, policy, prio)
  {
    hide At;
    forall u | u in v.list ensures At(v.ticket, u) < v.next {
      assert u != t ==> u in w.list;
    }
    forall i, j | 0 <= i < j < |v.list|
      ensures v.list[i] != v.list[j] && Before(policy, prio, v.ticket, v.list[i], v.list[j])
    {
      var a, b := v.list[i], v.list[j];
      if i == k {
        assert b == w.list[j - 1] && b in w.list;
      } else if j == k {
        assert a == w.list[i] && a in w.list;
      } else {
        var i', j' := if i < k then i else i - 1, if j < k then j else j - 1;
        assert a == w.list[i'] && b == w.list[j'] && a in w.list && b in w.list;
        assert Before(policy, prio, w.ticket, w.list[i'], w.list[j']);
      }
    }
  }

  lemma DropFair(w: Waiters, policy: Policy, prio: Keys, t: nat)
    requires Fair(w, policy, prio)
    ensures Fair(Drop(w, t), policy, prio) && forall u :: u in Drop(w, t).list <==> u != t && u in w.list
  {
    hide At, Remove;
    RemoveNoDup(w.list, t);
    if t in w.list {
      var k := Find(w.list, t);
      RemoveAt(w.list, k);
      var l := Remove(w.list, t);
      forall i, j | 0 <= i < j < |l| ensures Before(policy, prio, w.ticket, l[i], l[j]) {
        var i', j' := if i < k then i else i + 1, if j < k then j else j + 1;
        assert l[i] == w.list[i'] && l[j] == w.list[j'];
        assert Before(policy, prio, w.ticket, w.list[i'], w.list[j']);
      }
    } else {
      RemoveAbsent(w.list, t);
    }
  }

  /** The first thread is the one to be served before all others. */
  lemma FirstFair(w: Waiters, policy: Policy, prio: Keys)
    requires Fair(w, policy, prio) && w.list != []
    ensures DropFirst(w) == Drop(w, w.list[0]) && Fair(DropFirst(w), policy, prio)
    ensures forall u :: u in w.list && u != w.list[0] ==> Before(policy, prio, w.ticket, w.list[0], u)
  {
    hide At, Remove;
    RemoveAt(w.list, 0);
    assert w.list[..0] + w.list[1..] == w.list[1..];
    DropFair(w, policy, prio, w.list[0]);
  }

  lemma BeforeTrans(policy: Policy, prio: Keys, ticket: Keys, a: nat, b: nat, c: nat)
    requires Before(policy, prio, ticket, a, b) && Before(policy, prio, ticket, b, c)
    ensures Before(policy, prio, ticket, a, c)
  {
    hide At;
  }

  /** A first come first served list does not depend on priorities. */
  lemma FifoFair(w: Waiters, prio: Keys, prio': Keys)
    requires Fair(w, Fifo, prio)
    ensures Fair(w, Fifo, prio')
  {
    hide At, NoDup;
    forall i, j | 0 <= i < j < |w.list| ensures Before(Fifo, prio', w.ticket, w.list[i], w.list[j]) {
      assert Before(Fifo, prio, w.ticket, w.list[i], w.list[j]);
    }
  }

  /**
   `rt_thread_control` gives a waiting thread a new priority and leaves it where it stands. A list by
   priority is then still in order exactly when the thread is in order with its two neighbours.
   */
  lemma ChangeFair(w: Waiters, prio: Keys, i: nat, p: nat)
    requires Fair(w, Prio, prio) && i < |w.list|
    ensures var prio' := prio[w.list[i] := p];
            Fair(w, Prio, prio') <==>
            && (0 < i ==> Before(Prio, prio', w.ticket, w.list[i - 1], w.list[i]))
            && (i + 1 < |w.list| ==> Before(Prio, prio', w.ticket, w.list[i], w.list[i + 1]))
  {
    hide At;
    var t, prio' := w.list[i], prio[w.list[i] := p];
    AtOther(prio, t, p);
    if
      && (0 < i ==> Before(Prio, prio', w.ticket, w.list[i - 1], t))
      && (i + 1 < |w.list| ==> Before(Prio, prio', w.ticket, t, w.list[i + 1]))
    {
      forall j, k | 0 <= j < k < |w.list| ensures Before(Prio, prio', w.ticket, w.list[j], w.list[k]) {
        ChangedPair(w, prio, prio', i, j, k);
      }
    }
  }

  /** A thread made more urgent behind another is still served after it. */
  lemma ChangeUnfair()
    ensures var w, prio := Waiters([1, 2], map[1 := 0, 2 := 1], 2), map[1 := 5, 2 := 6];
            Fair(w, Prio, prio) && !Fair(w, Prio, prio[2 := 0])
  {
    var w, prio := Waiters([1, 2], map[1 := 0, 2 := 1], 2), map[1 := 5, 2 := 6];
    assert !Before(Prio, prio[2 := 0], w.ticket, w.list[0], w.list[1]);
  }

  lemma ChangedPair(w: Waiters, prio: Keys, prio': Keys, i: nat, j: nat, k: nat)
    requires Fair(w, Prio, prio) && i < |w.list| && j < k < |w.list|
    requires forall u :: u != w.list[i] ==> At(prio', u) == At(prio, u)
    requires 0 < i ==> Before(Prio, prio', w.ticket, w.list[i - 1], w.list[i])
    requires i + 1 < |w.list| ==> Before(Prio, prio', w.ticket, w.list[i], w.list[i + 1])
    ensures Before(Prio, prio', w.ticket, w.list[j], w.list[k])
  {
    hide At;
    assert Before(Prio, prio, w.ticket, w.list[j], w.list[k]);
    if k == i && j < i - 1 {
      assert Before(Prio, prio, w.ticket, w.list[j], w.list[i - 1]);
      BeforeTrans(Prio, prio', w.ticket, w.list[j], w.list[i - 1], w.list[i]);
    } else if j == i && i + 1 < k {
      assert Before(Prio, prio, w.ticket, w.list[i + 1], w.list[k]);
      BeforeTrans(Prio, prio', w.ticket, w.list[i], w.list[i + 1], w.list[k]);
    }
  }

  /** With the priority `p` thread `t` would still be in order with its neighbours, if it waits. */
  ghost predicate StaysFair(w: Waiters, policy: Policy, prio: Keys, t: nat, p: nat) {
    var i, prio' := Find(w.list, t), prio[t := p];
    policy.Prio? ==>
      && (0 < i < |w.list| ==> Before(Prio, prio', w.ticket, w.list[i - 1], t))
      && (i + 1 < |w.list| ==> Before(Prio, prio', w.ticket, t, w.list[i + 1]))
  }

  /** A thread changes its priority, waiting or not, in a list of either kind. */
  lemma StaysFairExact(w: Waiters, policy: Policy, prio: Keys, t: nat, p: nat)
    requires Fair(w, policy, prio)
    ensures Fair(w, policy, prio[t := p]) <==> StaysFair(w, policy, prio, t, p)
  {
    hide At, Before, Find;
    var i := Find(w.list, t);
    if policy.Fifo? {
      FifoFair(w, prio, prio[t := p]);
    } else if i < |w.list| {
      ChangeFair(w, prio, i, p);
    } else {
      OthersFair(w, prio, t, p);
    }
  }

  lemma OthersFair(w: Waiters, prio: Keys, t: nat, p: nat)
    requires Fair(w, Prio, prio) && t !in w.list
    ensures Fair(w, Prio, prio[t := p])
  {
    hide At;
    AtOther(prio, t, p);
    forall i, j | 0 <= i < j < |w.list| ensures Before(Prio, prio[t := p], w.ticket, w.list[i], w.list[j]) {
      assert Before(Prio, prio, w.ticket, w.list[i], w.list[j]);
    }
  }

  /** Put thread `t` into the list: a scan for the first less urgent thread, or the end. */
  method Suspend(l: seq<nat>, policy: Policy, prio: Keys, t: nat) returns (r: seq<nat>)
    ensures r == EnqueueList(l, policy, prio, t)
  {
    hide At, Place;
    match policy {
      case Fifo => r := l + [t];
      case Prio =>
        var i := 0;
        assert l[..0] == [] && l[0..] == l;
        while i < |l|
          invariant 0 <= i <= |l|
          invariant Place(l, prio, At(prio, t), t) == l[..i] + Place(l[i..], prio, At(prio, t), t)
        {
          PlaceFrom(l, prio, At(prio, t), t, i);
          if At(prio, t) < At(prio, l[i]) {
            break;
          }
          i := i + 1;
        }
        PlaceFrom(l, prio, At(prio, t), t, i);
        r := l[..i] + [t] + l[i..];
    }
  }
}
