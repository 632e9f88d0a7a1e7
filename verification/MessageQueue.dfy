/**
 The message queue object: nodes linked by their `next` fields into a free list and a queue with
 head and tail, changed in place. Each method is one stretch of code between two points at
 which other threads may run.
 */
module MessageQueue {
  import opened Seqs
  import opened Ordered
  import opened WaitList
  import Spec = MessageQueueSpec
  import opened MessageQueueSpec

  const NULL := -1

  function First(l: seq<nat>): int {
    if l == [] then NULL else l[0]
  }

  function Last(l: seq<nat>): int {
    if l == [] then NULL else l[|l| - 1]
  }

  /** Following `next` from `head` goes through `l` and ends. */
  ghost predicate Chain(next: seq<int>, head: int, l: seq<nat>) {
    && head == First(l)
    && (forall i :: 0 <= i < |l| ==> l[i] < |next|)
    && (forall i, j :: 0 <= i && j == i + 1 && j < |l| ==> next[l[i]] == l[j])
    && (l != [] ==> next[l[|l| - 1]] == NULL)
  }

  lemma ChainTail(next: seq<int>, head: int, l: seq<nat>)
    requires Chain(next, head, l) && l != []
    ensures head == l[0] && l[0] < |next| && Chain(next, next[l[0]], l[1..])
  {
    assert l[0] in l;
    var t := l[1..];
    forall i, j | 0 <= i && j == i + 1 && j < |t| ensures next[t[i]] == t[j] {
      assert next[l[i + 1]] == l[j + 1];
    }
    if 1 < |l| {
      assert next[l[0]] == l[1];
    }
  }

  /** Only the links of the nodes in the list matter. */
  lemma ChainFrame(next: seq<int>, head: int, l: seq<nat>, x: nat, n: int)
    requires Chain(next, head, l) && x < |next| && x !in l
    ensures Chain(next[x := n], head, l)
  {
    var m := next[x := n];
    forall i, j | 0 <= i && j == i + 1 && j < |l| ensures m[l[i]] == l[j] {
      assert next[l[i]] == l[j] && l[i] in l;
    }
    if l != [] {
      assert l[|l| - 1] in l;
    }
  }

  lemma ChainPush(next: seq<int>, head: int, l: seq<nat>, x: nat)
    requires Chain(next, head, l) && x < |next| && x !in l
    ensures Chain(next[x := head], x, [x] + l)
  {
    ChainFrame(next, head, l, x, head);
    var m, k := next[x := head], [x] + l;
    forall i, j | 0 <= i && j == i + 1 && j < |k| ensures m[k[i]] == k[j] {
      if 0 < i {
        assert k[i] == l[i - 1] && k[j] == l[j - 1];
      }
    }
  }

  lemma ChainAppend(next: seq<int>, head: int, l: seq<nat>, x: nat)
    requires Chain(next, head, l) && x < |next| && x !in l && next[x] == NULL && NoDup(l)
    ensures l == [] ==> Chain(next, x, [x])
    ensures l != [] ==> l[|l| - 1] < |next| && Chain(next[l[|l| - 1] := x], head, l + [x])
  {
    if l != [] {
      var last := l[|l| - 1];
      assert last in l;
      var m, k := next[last := x], l + [x];
      forall i, j | 0 <= i && j == i + 1 && j < |k| ensures m[k[i]] == k[j] {
        if j < |l| {
          assert next[l[i]] == l[j] && l[i] != last;
        }
      }
    }
  }

  /** A sender that is to link its node at the end has ended its chain. */
  ghost predicate Ended(next: seq<int>, sending: map<nat, Sending>) {
    forall t :: t in sending && !sending[t].urgent ==> sending[t].node < |next| && next[sending[t].node] == NULL
  }

  class MessageQueue {
    const policy: Policy
    const msgSize: nat
    const next: array<int>        // the `next` field of each node
    const data: array<seq<nat>>   // the bytes behind each node
    var head: int                 // msg_queue_head
    var tail: int                 // msg_queue_tail
    var free: int                 // msg_queue_free
    var entry: nat
    var receivers: seq<nat>       // suspend_thread
    ghost var view: Spec.Queue

    /** The fields agree with the state they stand for; the links run through its lists. */
    ghost predicate Linked()
      reads this, next, data
    {
      && |view.place| == next.Length && Chain(next[..], free, view.free) && Chain(next[..], head, view.queue)
      && tail == Last(view.queue) && Ended(next[..], view.sending)
      && view.entry == entry && view.receivers.list == receivers && view.data == data[..] && view.msgSize == msgSize
    }

    ghost predicate Valid(prio: Keys)
      reads this, next, data
    {
      Linked() && Inv(view, policy, prio)
    }

    /** `rt_mq_init`: push the nodes on the free list one by one. */
    constructor (max: nat, msgSize: nat, policy: Policy, ghost prio: Keys)
      ensures Valid(prio) && view == Spec.Init(msgSize, data[..]) && data.Length == max && fresh(next) && fresh(data)
      ensures this.msgSize == msgSize && this.policy == policy
    {
      hide Chain, Inv;
      this.msgSize, this.policy := msgSize, policy;
      next := new int[max](_ => NULL);
      data := new seq<nat>[max](_ => seq(msgSize, _ => 0));
      head, tail, free, entry, receivers := NULL, NULL, NULL, 0, [];
      view := Spec.Init(msgSize, seq(max, _ => seq(msgSize, _ => 0)));
      new;
      assert data[..] == view.data;
      FreeEach();
      InitInv(msgSize, data[..], policy, prio);
      EmptyChain(next[..]);
    }

    method FreeEach()
      requires free == NULL
      modifies `free, next
      ensures Chain(next[..], free, Downto(next.Length))
    {
      hide Chain;
      EmptyChain(next[..]);
      var i := 0;
      while i < next.Length
        invariant 0 <= i <= next.Length && Chain(next[..], free, Downto(i))
      {
        DowntoElements(i);
        ChainPush(next[..], free, Downto(i), i);
        ghost var m := next[..];
        next[i] := free;
        assert next[..] == m[i := m[i]][i := free];
        free := i;
        i := i + 1;
      }
    }

    /** First part of a send: take a free node. */
    method SendTake(t: nat, msg: Message, urgent: bool, ghost prio: Keys) returns (outcome: Outcome, node: int)
      requires Valid(prio) && t !in view.sending
      modifies this, next
      ensures old(view.free != [] ==> view.free[0] < |view.place|) && Valid(prio)
      ensures (view, outcome) == Spec.SendTake(old(view), t, msg, urgent)
      ensures outcome.Done? ==> t in view.sending && node == view.sending[t].node
    {
      hide Inv, Chain, NoDup, Ended, Spec.SendTake;
      SendTakeInv(view, policy, prio, t, msg, urgent);
      TakeShape(view, policy, prio, t, msg, urgent);
      ChainEmpty(next[..], free, view.free);
      node := NULL;
      if |msg| > msgSize {
        outcome := TooLong;
      } else if free == NULL {
        outcome := Full;
      } else {
        node := PopFree(urgent, t, msg, prio);
        outcome := Done;
        view := Spec.SendTake(view, t, msg, urgent).0;
      }
    }

    /** Take the first node off the free list; a node for the end of the queue ends its chain. */
    method PopFree(urgent: bool, ghost t: nat, ghost msg: Message, ghost prio: Keys) returns (node: nat)
      requires Linked() && view.free != [] && Inv(view, policy, prio)
      modifies `free, next
      ensures node == view.free[0] && Chain(next[..], free, view.free[1..]) && Chain(next[..], head, view.queue)
      ensures Ended(next[..], view.sending[t := Sending(node, msg, urgent, 0)])
    {
      hide Chain, Inv, NoDup;
      ListsApart(view, policy, prio);
      HandsFree(view, policy, prio, view.free[0]);
      ChainTail(next[..], free, view.free);
      node := free;
      free := next[node];
      if !urgent {
        ghost var m := next[..];
        ChainFrame(m, free, view.free[1..], node, NULL);
        ChainFrame(m, head, view.queue, node, NULL);
        next[node] := NULL;
        assert next[..] == m[node := NULL];
      }
    }

    /** Copy one byte of the message into the node. */
    method SendCopy(t: nat, node: nat, msg: Message, k: nat, ghost prio: Keys)
      requires Valid(prio) && t in view.sending && view.sending[t].node == node && view.sending[t].msg == msg
      requires view.sending[t].copied == k < |msg|
      modifies `view, data
      ensures old(node < |view.data| && |msg| <= |view.data[node]|) && Valid(prio)
      ensures view == Spec.SendCopy(old(view), t)
    {
      hide Inv, Chain;
      SendCopyInv(view, policy, prio, t);
      ghost var d := data[..];
      data[node] := data[node][k := msg[k]];
      assert data[..] == d[node := d[node][k := msg[k]]];
      view := Spec.SendCopy(view, t);
    }

    /** Link the node at the end of the queue. */
    method LinkTail(node: nat, ghost l: seq<nat>, ghost f: seq<nat>)
      requires Chain(next[..], free, f) && Chain(next[..], head, l) && tail == Last(l)
      requires node < next.Length && next[node] == NULL && node !in l && NoDup(l) && (forall x :: x in f ==> x !in l)
      modifies `head, `tail, next
      ensures Chain(next[..], free, f) && Chain(next[..], head, l + [node]) && tail == Last(l + [node])
      ensures forall x :: 0 <= x < next.Length && x !in l ==> next[x] == old(next[x])
    {
      hide Chain, NoDup;
      ghost var m := next[..];
      ChainAppend(m, head, l, node);
      ChainEmpty(m, head, l);
      if tail != NULL {
        assert tail in l;
        ChainFrame(m, free, f, tail, node);
        next[tail] := node;
        assert next[..] == m[tail := node];
      }
      tail := node;
      if head == NULL {
        head := node;
        assert l + [node] == [node];
      }
    }

    /** Link the node at the front. */
    method LinkHead(node: nat, ghost l: seq<nat>, ghost f: seq<nat>)
      requires Chain(next[..], free, f) && Chain(next[..], head, l) && tail == Last(l)
      requires node < next.Length && node !in l && node !in f
      modifies `head, `tail, next
      ensures Chain(next[..], free, f) && Chain(next[..], head, [node] + l) && tail == Last([node] + l)
      ensures forall x :: 0 <= x < next.Length && x != node ==> next[x] == old(next[x])
    {
      hide Chain;
      ghost var m := next[..];
      ChainPush(m, head, l, node);
      ChainFrame(m, free, f, node, head);
      ChainEmpty(m, head, l);
      next[node] := head;
      assert next[..] == m[node := head];
      head := node;
      if tail == NULL {
        tail := node;
      }
    }

    /** Last part of a send, urgent or not. */
    method SendLink(t: nat, node: nat, urgent: bool, ghost prio: Keys)
      requires Valid(prio) && t in view.sending && view.sending[t].node == node && view.sending[t].urgent == urgent
      requires view.sending[t].copied == |view.sending[t].msg|
      modifies this, next
      ensures old(node < |view.place|) && Valid(prio) && view == Spec.SendLink(old(view), t)
    {
      hide Inv, Chain, NoDup, Ended, Spec.SendLink;
      SendLinkInv(view, policy, prio, t);
      SendReady(view, policy, prio, t);
      HandApart(view, policy, prio, node);
      ListsApart(view, policy, prio);
      LinkShape(view, t);
      EndedAt(next[..], view.sending, t);
      ghost var m := next[..];
      if urgent {
        LinkHead(node, view.queue, view.free);
      } else {
        LinkTail(node, view.queue, view.free);
      }
      EndedFrame(view, policy, prio, m, next[..], t);
      entry := entry + 1;
      if receivers != [] {
        receivers := receivers[1..];
      }
      view := Spec.SendLink(view, t);
    }

    /** Unlink the first node of the queue. */
    method PopQueue(ghost l: seq<nat>) returns (node: nat)
      requires Chain(next[..], head, l) && tail == Last(l) && l != [] && NoDup(l)
      modifies `head, `tail
      ensures node == l[0] < next.Length && Chain(next[..], head, l[1..]) && tail == Last(l[1..])
    {
      hide Chain;
      ChainTail(next[..], head, l);
      LastTail(l);
      node := head;
      head := next[node];
      if tail == node {
        tail := NULL;
      }
    }

    /** `rt_mq_recv`, when it is called. */
    method Receive(t: nat, size: nat, wait: bool, prio: Keys) returns (outcome: Outcome, node: int)
      requires Valid(prio) && t !in view.receiving && t !in receivers && t !in view.woken
      modifies this
      ensures old(view.entry == |view.queue| == |view.msgs| && (view.queue != [] ==> view.queue[0] < |view.place|))
      ensures Valid(prio)
      ensures (view, outcome) == Spec.Receive(old(view), policy, prio, t, size, wait)
      ensures outcome.Done? ==> t in view.receiving && node == view.receiving[t].node
    {
      hide Inv, Chain, Ended;
      ReceiveInv(view, policy, prio, t, size, wait);
      ListsApart(view, policy, prio);
      outcome, node := TryReceive(t, size, wait, prio);
    }

    /** `rt_mq_recv`, when a receiver that was resumed runs. */
    method ReceiveAgain(t: nat, size: nat, wait: bool, prio: Keys) returns (outcome: Outcome, node: int)
      requires Valid(prio) && t in view.woken && t !in view.receiving && t in view.wanted && view.wanted[t] == size
      modifies this
      ensures old(view.entry == |view.queue| == |view.msgs| && (view.queue != [] ==> view.queue[0] < |view.place|))
      ensures Valid(prio)
      ensures (view, outcome) == Spec.ReceiveAgain(old(view), policy, prio, t, wait)
      ensures outcome.Done? ==> t in view.receiving && node == view.receiving[t].node
    {
      hide Inv, Chain, Ended;
      ReceiveAgainInv(view, policy, prio, t, wait);
      ListsApart(view, policy, prio);
      view := view.(woken := view.woken - {t});
      outcome, node := TryReceive(t, size, wait, prio);
    }

    method TryReceive(t: nat, size: nat, wait: bool, prio: Keys) returns (outcome: Outcome, node: int)
      requires Linked() && view.entry == |view.queue| == |view.msgs|
      requires (view.queue != [] ==> view.queue[0] < |view.place|)
      requires NoDup(view.queue)
      modifies this
      ensures Linked() && (view, outcome) == Spec.Receive(old(view), policy, prio, t, size, wait)
      ensures outcome.Done? ==> t in view.receiving && node == view.receiving[t].node
    {
      hide Chain, Ended, NoDup;
      node := NULL;
      if entry != 0 {
        node := PopQueue(view.queue);
        entry := entry - 1;
        outcome := Done;
      } else if !wait {
        outcome := Refused;
      } else {
        receivers := Suspend(receivers, policy, prio, t);
        outcome := Waits;
      }
      view := Spec.Receive(view, policy, prio, t, size, wait).0;
    }

    /** Copy one byte out of the node; `copy` is the receiver's buffer. */
    method ReceiveCopy(t: nat, node: nat, copy: seq<nat>, ghost prio: Keys) returns (copy': seq<nat>)
      requires Valid(prio) && t in view.receiving && view.receiving[t].node == node && view.receiving[t].copy == copy
      requires |copy| < Min(view.receiving[t].asked, msgSize)
      modifies `view
      ensures old(node < |view.data| && |copy| < |view.data[node]|) && Valid(prio)
      ensures view == Spec.ReceiveCopy(old(view), t) && t in view.receiving && copy' == view.receiving[t].copy
    {
      hide Inv, Chain, Ended;
      ReceiveCopyInv(view, policy, prio, t);
      copy' := copy + [data[node][|copy|]];
      view := Spec.ReceiveCopy(view, t);
    }

    /** The copy of a receive that nothing interrupts: as many bytes as both buffer and node have. */
    method ReceiveCopyAll(t: nat, node: nat, size: nat, ghost prio: Keys) returns (copy: seq<nat>)
      requires Valid(prio) && t in view.receiving && view.receiving[t].node == node
      requires view.receiving[t].asked == size && view.receiving[t].copy == []
      modifies `view
      ensures Valid(prio) && t in view.receiving && view.receiving[t] == old(view.receiving[t]).(copy := copy)
      ensures |copy| == (if size > msgSize then msgSize else size) && Agree(copy, view.receiving[t].msg)
    {
      hide Inv, Chain, Ended, Agree;
      var n := if size > msgSize then msgSize else size;
      copy := [];
      while |copy| < n
        invariant |copy| <= n && Valid(prio) && t in view.receiving
        invariant view.receiving[t] == old(view.receiving[t]).(copy := copy)
        decreases n - |copy|
      {
        copy := ReceiveCopy(t, node, copy, prio);
      }
      Delivered(view, policy, prio, t);
    }

    /** Put a node at the front of the free list. */
    method PushFree(node: nat, ghost f: seq<nat>, ghost l: seq<nat>)
      requires Chain(next[..], free, f) && Chain(next[..], head, l) && node < next.Length && node !in f && node !in l
      modifies `free, next
      ensures Chain(next[..], free, [node] + f) && Chain(next[..], head, l)
      ensures forall x :: 0 <= x < next.Length && x != node ==> next[x] == old(next[x])
    {
      hide Chain;
      ghost var m := next[..];
      ChainPush(m, free, f, node);
      ChainFrame(m, head, l, node, free);
      next[node] := free;
      assert next[..] == m[node := free];
      free := node;
    }

    /** Last part of a receive: free the node. */
    method ReceiveFree(t: nat, node: nat, ghost prio: Keys)
      requires Valid(prio) && t in view.receiving && view.receiving[t].node == node
      requires |view.receiving[t].copy| == Min(view.receiving[t].asked, msgSize)
      modifies this, next
      ensures old(node < |view.place|) && Valid(prio) && view == Spec.ReceiveFree(old(view), t)
    {
      hide Inv, Chain, Ended;
      ReceiveFreeInv(view, policy, prio, t);
      ReceiveReady(view, policy, prio, t);
      HandApart(view, policy, prio, node);
      ghost var m := next[..];
      PushFree(node, view.free, view.queue);
      EndedSenders(view, policy, prio, m, next[..], node);
      view := Spec.ReceiveFree(view, t);
    }

    method Timeout(t: nat, ghost prio: Keys)
      requires Valid(prio)
      modifies `receivers, `view
      ensures Valid(prio) && view == Spec.Timeout(old(view), t)
    {
      hide Inv, Chain, Ended;
      TimeoutInv(view, policy, prio, t);
      receivers := Remove(receivers, t);
      view := Spec.Timeout(view, t);
    }

    /** `rt_mq_control` with `RT_IPC_CMD_RESET`: unlink the messages one by one and free their nodes. */
    method Reset(ghost prio: Keys)
      requires Valid(prio)
      modifies this, next
      ensures Valid(prio) && view == Spec.Reset(old(view))
    {
      hide Inv, Chain, Ended, FreeAll, NoDup;
      ghost var q, f, l := view, view.free, view.queue;
      ResetInv(q, policy, prio);
      ListsApart(q, policy, prio);
      receivers := [];
      while head != NULL
        invariant view == q && receivers == [] && entry == q.entry && data[..] == q.data && |q.place| == next.Length
        invariant Chain(next[..], free, f) && Chain(next[..], head, l) && tail == Last(l) && Ended(next[..], q.sending)
        invariant FreeAll(f, l) == FreeAll(q.free, q.queue) && NoDup(l)
        invariant (forall x :: x in l ==> x in q.queue && x !in f)
        decreases |l|
      {
        ChainEmpty(next[..], head, l);
        DropNoDup(l);
        var node := PopQueue(l);
        ghost var m := next[..];
        FreeAllStep(f, l);
        assert node in l;
        PushFree(node, f, l[1..]);
        EndedSenders(q, policy, prio, m, next[..], node);
        f, l := [node] + f, l[1..];
      }
      ChainEmpty(next[..], head, l);
      FreeAllStep(f, l);
      entry := 0;
      view := Spec.Reset(q);
    }
  }

  lemma EmptyChain(next: seq<int>)
    ensures Chain(next, NULL, [])
  {
  }

  lemma ChainEmpty(next: seq<int>, head: int, l: seq<nat>)
    requires Chain(next, head, l)
    ensures head == NULL <==> l == []
  {
  }

  /** No node is in both lists, and none twice. */
  lemma ListsApart(q: Spec.Queue, policy: Policy, prio: Keys)
    requires Inv(q, policy, prio)
    ensures NoDup(q.free) && NoDup(q.queue) && (forall x :: x in q.free ==> x !in q.queue)
    ensures forall x :: x in q.queue ==> x < |q.place| && q.place[x] == Queued
    ensures q.free != [] ==> q.free[0] !in q.free[1..]
    ensures q.queue != [] ==> q.queue[0] !in q.queue[1..]
  {
  }

  /** A node in a list is in no hands. */
  lemma HandsFree(q: Spec.Queue, policy: Policy, prio: Keys, x: nat)
    requires Inv(q, policy, prio) && (x in q.free || x in q.queue)
    ensures (forall t :: t in q.sending ==> q.sending[t].node != x)
    ensures (forall t :: t in q.receiving ==> q.receiving[t].node != x)
  {
    hide NoDup, Contents, Fair, Awake;
  }

  /** A node in a thread's hands is in no list. */
  lemma HandApart(q: Spec.Queue, policy: Policy, prio: Keys, x: nat)
    requires Inv(q, policy, prio) && x < |q.place| && !q.place[x].Free? && !q.place[x].Queued?
    ensures x !in q.free && x !in q.queue && NoDup(q.queue)
  {
    hide Contents, Fair, Awake, Hands;
  }

  lemma EndedAt(next: seq<int>, sending: map<nat, Sending>, t: nat)
    requires Ended(next, sending) && t in sending
    ensures !sending[t].urgent ==> sending[t].node < |next| && next[sending[t].node] == NULL
  {
  }

  /** Linking a node changes no link that another sender relies on. */
  lemma EndedFrame(q: Spec.Queue, policy: Policy, prio: Keys, next: seq<int>, next': seq<int>, t: nat)
    requires Inv(q, policy, prio) && t in q.sending && Ended(next, q.sending) && |next| == |next'|
    requires || (forall x :: 0 <= x < |next| && x !in q.queue ==> next'[x] == next[x])
             || (forall x :: 0 <= x < |next| && x != q.sending[t].node ==> next'[x] == next[x])
    ensures Ended(next', q.sending - {t})
  {
    hide NoDup, Contents, Fair, Awake;
  }

  /** Writing the link of a node that no sender has. */
  lemma EndedSenders(q: Spec.Queue, policy: Policy, prio: Keys, next: seq<int>, next': seq<int>, node: nat)
    requires Inv(q, policy, prio) && Ended(next, q.sending) && |next| == |next'| == |q.place|
    requires node < |q.place| && !q.place[node].WithSender?
    requires forall x :: 0 <= x < |next| && x != node ==> next'[x] == next[x]
    ensures Ended(next', q.sending)
  {
    hide Lists, Contents, Fair, Awake;
  }

  lemma FreeAllStep(f: seq<nat>, l: seq<nat>)
    ensures FreeAll(f, l) == if l == [] then f else FreeAll([l[0]] + f, l[1..])
  {
  }

  lemma LastTail(l: seq<nat>)
    requires l != []
    ensures l[1..] == [] ==> Last(l) == l[0] && Last(l[1..]) == NULL
    ensures l[1..] != [] ==> Last(l[1..]) == Last(l) && (NoDup(l) ==> Last(l) != l[0])
  {
  }

  lemma TakeShape(q: Spec.Queue, policy: Policy, prio: Keys, t: nat, msg: Message, urgent: bool)
    requires Inv(q, policy, prio)
    ensures q.free != [] ==> q.free[0] < |q.place|
    ensures var (v, outcome) := Spec.SendTake(q, t, msg, urgent);
            if |msg| > q.msgSize then v == q && outcome == TooLong
            else if q.free == [] then v == q && outcome == Full
            else && outcome == Done
                 && v == q.(free := q.free[1..], place := v.place,
                    sending := q.sending[t := Sending(q.free[0], msg, urgent, 0)])
                 && |v.place| == |q.place|
  {
    hide Inv;
    FirstFree(q, policy, prio);
  }

  lemma LinkShape(q: Spec.Queue, t: nat)
    requires t in q.sending && q.sending[t].node < |q.place|
    ensures var v, h := Spec.SendLink(q, t), q.sending[t];
            && v == q.(queue := if h.urgent then [h.node] + q.queue else q.queue + [h.node], msgs := v.msgs,
                       linked := v.linked, entry := q.entry + 1, place := v.place, sending := q.sending - {t},
                       woken := v.woken,
                       receivers := q.receivers.(list := if q.receivers.list == [] then [] else q.receivers.list[1..]))
            && |v.place| == |q.place|
  {
  }
}
