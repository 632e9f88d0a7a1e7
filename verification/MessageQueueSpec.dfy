/**
 The message queue of `ipc.c`. A sender takes a free node, copies its message into it with
 interrupts enabled, and links the node; a receiver unlinks a node, copies the message out with
 interrupts enabled, and frees the node. The copies are steps of one byte, so that other
 threads may run between any two of them.
 */
module MessageQueueSpec {
  import opened Seqs
  import opened Ordered
  import opened WaitList

  type Message = seq<nat>

  /** Where a node is. */
  datatype Place = Free | Queued | WithSender(t: nat) | WithReceiver(t: nat)

  /** A sender with its node, its message and the number of bytes copied so far. */
  datatype Sending = Sending(node: nat, msg: Message, urgent: bool, copied: nat)

  /** A message that was linked: the how many-th since the last reset, and whether at the front. */
  datatype Mail = Mail(serial: nat, urgent: bool, msg: Message)

  /** A receive that has ended: the size of the buffer, the message that was linked, and what ended up in the buffer. */
  datatype Received = Received(asked: nat, msg: Message, copy: seq<nat>)

  /** A receiver with its node, the size of its buffer, what it has copied, and the message that was linked. */
  datatype Receiving = Receiving(node: nat, asked: nat, copy: seq<nat>, msg: Message)

  /**
   `free` and `queue` are the lists at `msg_queue_free` and `msg_queue_head`; `msgs` are the messages
   linked in the queue; `wanted` is the buffer size of each receiver that waits or was resumed. Since the
   last reset `linked` records the messages in the order in which they were linked, `delivered` in the order in
   which receivers took them; `finished` are the receives that have ended.
   */
  datatype Queue = Queue(msgSize: nat, free: seq<nat>, queue: seq<nat>, msgs: seq<Mail>, entry: nat,
                         linked: seq<Mail>, delivered: seq<Mail>, finished: seq<Received>,
                         data: seq<seq<nat>>, place: seq<Place>,
                         sending: map<nat, Sending>, receiving: map<nat, Receiving>,
                         receivers: Waiters, woken: set<nat>, wanted: map<nat, nat>)

  datatype Outcome = Done | Full | TooLong | Refused | Waits

  function Min(a: nat, b: nat): nat {
    if a < b then a else b
  }

  // ---------------------------------------------------------------------------------
  // Sending
  // ---------------------------------------------------------------------------------

  /** `rt_mq_send` and `rt_mq_urgent`, first part: take a free node. */
  function SendTake(q: Queue, t: nat, msg: Message, urgent: bool): (Queue, Outcome)
    requires q.free != [] ==> q.free[0] < |q.place|
  {
    if |msg| > q.msgSize then (q, TooLong)
    else if q.free == [] then (q, Full)
    else
      var x := q.free[0];
      (q.(free := q.free[1..], place := q.place[x := WithSender(t)],
        sending := q.sending[t := Sending(x, msg, urgent, 0)]), Done)
  }

  /** Copy one byte of the message into the node. */
  function SendCopy(q: Queue, t: nat): Queue
    requires t in q.sending && q.sending[t].node < |q.data| && q.sending[t].copied < |q.sending[t].msg|
    requires |q.sending[t].msg| <= |q.data[q.sending[t].node]|
  {
    var h := q.sending[t];
    q.(data := q.data[h.node := q.data[h.node][h.copied := h.msg[h.copied]]],
      sending := q.sending[t := h.(copied := h.copied + 1)])
  }

  /** Last part: link the node at the end, or at the front when urgent, and resume a receiver. */
  function SendLink(q: Queue, t: nat): Queue
    requires t in q.sending && q.sending[t].node < |q.place|
  {
    var h := q.sending[t];
    var m := Mail(|q.linked|, h.urgent, h.msg);
    var n := q.(queue := if h.urgent then [h.node] + q.queue else q.queue + [h.node],
                msgs := if h.urgent then [m] + q.msgs else q.msgs + [m], linked := q.linked + [m],
                entry := q.entry + 1, place := q.place[h.node := Queued], sending := q.sending - {t});
    if n.receivers.list == [] then n
    else n.(receivers := DropFirst(n.receivers), woken := n.woken + {n.receivers.list[0]})
  }

  // ---------------------------------------------------------------------------------
  // Receiving
  // ---------------------------------------------------------------------------------

  /** `rt_mq_recv`, from the test for messages on: unlink the first node. */
  function Receive(q: Queue, policy: Policy, prio: Keys, t: nat, size: nat, wait: bool): (Queue, Outcome)
    requires q.entry == |q.queue| == |q.msgs| && (q.queue != [] ==> q.queue[0] < |q.place|)
  {
    if q.entry != 0 then
      var x := q.queue[0];
      (q.(queue := q.queue[1..], msgs := q.msgs[1..], entry := q.entry - 1, place := q.place[x := WithReceiver(t)],
          delivered := q.delivered + [q.msgs[0]],
          receiving := q.receiving[t := Receiving(x, size, [], q.msgs[0].msg)]), Done)
    else if !wait then (q, Refused)
    else (q.(receivers := Enqueue(q.receivers, policy, prio, t), wanted := q.wanted[t := size]), Waits)
  }

  /** A resumed receiver runs. */
  function ReceiveAgain(q: Queue, policy: Policy, prio: Keys, t: nat, wait: bool): (Queue, Outcome)
    requires q.entry == |q.queue| == |q.msgs| && (q.queue != [] ==> q.queue[0] < |q.place|) && t in q.wanted
  {
    Receive(q.(woken := q.woken - {t}), policy, prio, t, q.wanted[t], wait)
  }

  /** Copy one byte out of the node. */
  function ReceiveCopy(q: Queue, t: nat): Queue
    requires t in q.receiving && q.receiving[t].node < |q.data| && |q.receiving[t].copy| < |q.data[q.receiving[t].node]|
  {
    var h := q.receiving[t];
    q.(receiving := q.receiving[t := h.(copy := h.copy + [q.data[h.node][|h.copy|]])])
  }

  /** Last part: put the node back on the free list. */
  function ReceiveFree(q: Queue, t: nat): Queue
    requires t in q.receiving && q.receiving[t].node < |q.place|
  {
    var h := q.receiving[t];
    q.(free := [h.node] + q.free, place := q.place[h.node := Free], receiving := q.receiving - {t},
       finished := q.finished + [Received(h.asked, h.msg, h.copy)])
  }

  function Timeout(q: Queue, t: nat): Queue {
    q.(receivers := Drop(q.receivers, t))
  }

  /** The queued nodes go one by one to the front of the free list. */
  function FreeAll(free: seq<nat>, queue: seq<nat>): seq<nat>
    decreases queue
  {
    if queue == [] then free else FreeAll([queue[0]] + free, queue[1..])
  }

  function PlaceAll(place: seq<Place>, queue: seq<nat>): seq<Place> {
    seq(|place|, x requires 0 <= x < |place| => if x in queue then Free else place[x])
  }

  /** `rt_mq_control` with `RT_IPC_CMD_RESET`. */
  function Reset(q: Queue): Queue {
    q.(free := FreeAll(q.free, q.queue), queue := [], msgs := [], entry := 0, place := PlaceAll(q.place, q.queue),
       linked := [], delivered := [], receivers := q.receivers.(list := []))
  }

  // ---------------------------------------------------------------------------------
  // The invariant
  // ---------------------------------------------------------------------------------

  /** The lists hold exactly the nodes that are free or queued, each once. */
  ghost predicate Lists(free: seq<nat>, queue: seq<nat>, place: seq<Place>) {
    && NoDup(free) && NoDup(queue)
    && (forall x :: x in free <==> 0 <= x < |place| && place[x] == Free)
    && (forall x :: x in queue <==> 0 <= x < |place| && place[x] == Queued)
  }

  /** Every other node is with exactly one thread, in the middle of its call. */
  ghost predicate Hands(place: seq<Place>, sending: map<nat, Sending>, receiving: map<nat, Receiving>) {
    && (forall t :: t in sending ==> sending[t].node < |place| && place[sending[t].node] == WithSender(t))
    && (forall t :: t in receiving ==> receiving[t].node < |place| && place[receiving[t].node] == WithReceiver(t))
    && (forall x :: 0 <= x < |place| && place[x].WithSender? ==> place[x].t in sending && sending[place[x].t].node == x)
    && (forall x :: 0 <= x < |place| && place[x].WithReceiver? ==>
       place[x].t in receiving && receiving[place[x].t].node == x)
  }

  /** `node` holds `msg` at its start. */
  ghost predicate Holds(data: seq<seq<nat>>, node: nat, msg: Message) {
    node < |data| && |msg| <= |data[node]| && data[node][..|msg|] == msg
  }

  /** Queued nodes hold their messages; copies are right as far as they have got. */
  ghost predicate Contents(q: Queue) {
    && |q.data| == |q.place| && (forall x :: 0 <= x < |q.data| ==> |q.data[x]| == q.msgSize)
    && |q.msgs| == |q.queue| && (forall i :: 0 <= i < |q.queue| ==> Holds(q.data, q.queue[i], q.msgs[i].msg))
    && (forall t :: t in q.sending ==> SendingOk(q, q.sending[t]))
    && (forall t :: t in q.receiving ==> ReceivingOk(q, q.receiving[t]))
  }

  ghost predicate SendingOk(q: Queue, h: Sending) {
    h.copied <= |h.msg| <= q.msgSize && Holds(q.data, h.node, h.msg[..h.copied])
  }

  ghost predicate ReceivingOk(q: Queue, h: Receiving) {
    |h.copy| <= Min(h.asked, q.msgSize) && Holds(q.data, h.node, h.msg) && Holds(q.data, h.node, h.copy)
  }

  /** While receivers wait, enough others have been resumed to take the messages there are. */
  ghost predicate Awake(q: Queue) {
    && (q.receivers.list != [] ==> |q.queue| <= |q.woken|)
    && (forall t :: t in q.receivers.list ==> t !in q.woken && t in q.wanted)
    && (forall t :: t in q.woken ==> t in q.wanted)
  }

  /** `a` is to be received before `b`: the latest urgent message first, then the others as they came. */
  ghost predicate InFront(a: Mail, b: Mail) {
    if a.urgent then b.urgent ==> b.serial < a.serial else !b.urgent && a.serial < b.serial
  }

  /** No message is lost or delivered twice, and messages wait in the order in which they are to be received. */
  ghost predicate InOrder(linked: seq<Mail>, msgs: seq<Mail>, delivered: seq<Mail>) {
    && (forall k :: 0 <= k < |linked| ==> linked[k].serial == k)
    && multiset(delivered) + multiset(msgs) == multiset(linked)
    && (forall i, j :: 0 <= i < j < |msgs| ==> InFront(msgs[i], msgs[j]))
    && (forall i, j :: 0 <= i < j < |delivered| && !delivered[i].urgent && !delivered[j].urgent ==>
          delivered[i].serial < delivered[j].serial)
    && (forall d, m :: d in delivered && m in msgs && !d.urgent && !m.urgent ==> d.serial < m.serial)
  }

  /** A buffer and a message agree as far as both reach. */
  ghost predicate Agree(copy: seq<nat>, msg: Message) {
    var n := Min(|copy|, |msg|);
    copy[..n] == msg[..n]
  }

  /** A receive has filled its buffer as far as a node reaches, and no further, with the message. */
  ghost predicate Complete(r: Received, msgSize: nat) {
    |r.copy| == Min(r.asked, msgSize) && Agree(r.copy, r.msg)
  }

  ghost predicate Inv(q: Queue, policy: Policy, prio: Keys) {
    && InOrder(q.linked, q.msgs, q.delivered) && (forall r :: r in q.finished ==> Complete(r, q.msgSize))
    && Lists(q.free, q.queue, q.place) && Hands(q.place, q.sending, q.receiving) && Contents(q)
    && q.entry == |q.queue| && Fair(q.receivers, policy, prio) && Awake(q)
  }

  /** What a receiver ends up with is the message that was linked, as far as its buffer reaches. */
  lemma Delivered(q: Queue, policy: Policy, prio: Keys, t: nat)
    requires Inv(q, policy, prio) && t in q.receiving
    ensures var h := q.receiving[t]; |h.copy| <= Min(h.asked, q.msgSize) && Agree(h.copy, h.msg)
  {
    hide Lists, Hands, Fair, InOrder;
    var h := q.receiving[t];
    var n := Min(|h.copy|, |h.msg|);
    assert ReceivingOk(q, h);
    assert h.copy[..n] == q.data[h.node][..n] && h.msg[..n] == q.data[h.node][..n];
  }

  // ---------------------------------------------------------------------------------
  // The order of the messages
  // ---------------------------------------------------------------------------------

  /** The next message to be received: the latest urgent one, or the oldest one when none is urgent. */
  lemma NextDelivered(q: Queue, policy: Policy, prio: Keys, m: Mail)
    requires Inv(q, policy, prio) && m in q.msgs && m != q.msgs[0]
    ensures q.msgs[0].urgent ==> !m.urgent || m.serial < q.msgs[0].serial
    ensures !q.msgs[0].urgent ==> !m.urgent && q.msgs[0].serial < m.serial
  {
    hide Lists, Hands, Contents, Fair, Awake;
    var i :| 0 <= i < |q.msgs| && q.msgs[i] == m;
    assert InFront(q.msgs[0], q.msgs[i]);
  }

  /** Each message linked since the last reset is queued or delivered, once. */
  lemma LinkedOnce(q: Queue, policy: Policy, prio: Keys, k: nat)
    requires Inv(q, policy, prio) && k < |q.linked|
    ensures multiset(q.delivered)[q.linked[k]] + multiset(q.msgs)[q.linked[k]] == 1
    ensures forall m :: (m in q.delivered || m in q.msgs) && m.serial == k ==> m == q.linked[k]
  {
    hide Lists, Hands, Contents, Fair, Awake;
    CountOnce(q.linked, k);
    forall m | (m in q.delivered || m in q.msgs) && m.serial == k ensures m == q.linked[k] {
      FromLinked(q.linked, q.msgs, q.delivered, m);
    }
  }

  lemma {:induction false} CountOnce(l: seq<Mail>, k: nat)
    requires k < |l| && forall i, j :: 0 <= i < j < |l| ==> l[i].serial != l[j].serial
    ensures multiset(l)[l[k]] == 1
  {
    var n := |l| - 1;
    assert l == l[..n] + [l[n]];
    if k < n {
      CountOnce(l[..n], k);
      assert multiset(l) == multiset(l[..n]) + multiset{l[n]};
    } else {
      assert l[n] !in l[..n];
      assert multiset(l) == multiset(l[..n]) + multiset{l[n]};
    }
  }

  lemma FromLinked(linked: seq<Mail>, msgs: seq<Mail>, delivered: seq<Mail>, m: Mail)
    requires InOrder(linked, msgs, delivered) && (m in msgs || m in delivered)
    ensures m.serial < |linked| && linked[m.serial] == m
  {
    assert m in multiset(delivered) + multiset(msgs);
    assert m in linked;
    var k :| 0 <= k < |linked| && linked[k] == m;
  }

  /** All messages so far have smaller serials than the next one. */
  lemma SerialsBelow(linked: seq<Mail>, msgs: seq<Mail>, delivered: seq<Mail>)
    requires InOrder(linked, msgs, delivered)
    ensures forall x :: x in msgs || x in delivered ==> x.serial < |linked|
  {
    hide InOrder;
    forall x | x in msgs || x in delivered ensures x.serial < |linked| {
      FromLinked(linked, msgs, delivered, x);
    }
  }

  /** A message joins at either end of the sequence. */
  lemma LinkFront(msgs: seq<Mail>, m: Mail)
    requires forall i, j :: 0 <= i < j < |msgs| ==> InFront(msgs[i], msgs[j])
    requires forall x :: x in msgs ==> x.serial < m.serial
    ensures m.urgent ==> forall i, j :: 0 <= i < j < |[m] + msgs| ==> InFront(([m] + msgs)[i], ([m] + msgs)[j])
    ensures !m.urgent ==> forall i, j :: 0 <= i < j < |msgs + [m]| ==> InFront((msgs + [m])[i], (msgs + [m])[j])
  {
    var a, b := [m] + msgs, msgs + [m];
    if m.urgent {
      forall i, j | 0 <= i < j < |a| ensures InFront(a[i], a[j]) {
        assert a[j] == msgs[j - 1] && msgs[j - 1] in msgs;
        assert 0 < i ==> a[i] == msgs[i - 1];
      }
    } else {
      forall i, j | 0 <= i < j < |b| ensures InFront(b[i], b[j]) {
        assert b[i] == msgs[i] && msgs[i] in msgs;
        assert j < |msgs| ==> b[j] == msgs[j];
      }
    }
  }

  lemma LinkOrder(linked: seq<Mail>, msgs: seq<Mail>, delivered: seq<Mail>, m: Mail)
    requires InOrder(linked, msgs, delivered) && m.serial == |linked|
    ensures InOrder(linked + [m], if m.urgent then [m] + msgs else msgs + [m], delivered)
  {
    hide InFront;
    var l := if m.urgent then [m] + msgs else msgs + [m];
    assert multiset(l) == multiset(msgs) + multiset{m};
    assert multiset(linked + [m]) == multiset(linked) + multiset{m};
    SerialsBelow(linked, msgs, delivered);
    LinkFront(msgs, m);
    assert forall x :: x in l ==> x == m || x in msgs;
  }

  lemma TakeOrder(linked: seq<Mail>, msgs: seq<Mail>, delivered: seq<Mail>)
    requires InOrder(linked, msgs, delivered) && msgs != []
    ensures InOrder(linked, msgs[1..], delivered + [msgs[0]])
  {
    var d, l := delivered + [msgs[0]], msgs[1..];
    assert msgs == [msgs[0]] + l;
    assert multiset(msgs) == multiset{msgs[0]} + multiset(l);
    assert multiset(d) == multiset(delivered) + multiset{msgs[0]};
    forall i, j | 0 <= i < j < |d| && !d[i].urgent && !d[j].urgent ensures d[i].serial < d[j].serial {
      if j < |delivered| {
        assert d[i] == delivered[i] && d[j] == delivered[j];
      } else {
        assert d[i] == delivered[i] && d[i] in delivered && d[j] == msgs[0] && msgs[0] in msgs;
      }
    }
    TakenFirst(msgs, delivered);
  }

  lemma TakenFirst(msgs: seq<Mail>, delivered: seq<Mail>)
    requires msgs != [] && forall i, j :: 0 <= i < j < |msgs| ==> InFront(msgs[i], msgs[j])
    requires forall d, m :: d in delivered && m in msgs && !d.urgent && !m.urgent ==> d.serial < m.serial
    ensures forall i, j :: 0 <= i < j < |msgs[1..]| ==> InFront(msgs[1..][i], msgs[1..][j])
    ensures forall d, m :: d in delivered + [msgs[0]] && m in msgs[1..] && !d.urgent && !m.urgent ==>
              d.serial < m.serial
  {
    var l := msgs[1..];
    forall x, m | x in delivered + [msgs[0]] && m in l && !x.urgent && !m.urgent ensures x.serial < m.serial {
      var i :| 0 <= i < |l| && l[i] == m;
      assert m == msgs[i + 1] && m in msgs;
      if x !in delivered {
        assert x == msgs[0];
        assert InFront(msgs[0], msgs[i + 1]);
      }
    }
    forall i, j | 0 <= i < j < |l| ensures InFront(l[i], l[j]) {
      assert InFront(msgs[i + 1], msgs[j + 1]);
    }
  }

  // ---------------------------------------------------------------------------------
  // Nodes change hands
  // ---------------------------------------------------------------------------------

  lemma TakeFreeLists(free: seq<nat>, queue: seq<nat>, place: seq<Place>, p: Place)
    requires Lists(free, queue, place) && free != [] && !p.Free? && !p.Queued?
    ensures free[0] < |place| && Lists(free[1..], queue, place[free[0] := p])
  {
    hide NoDup;
    assert free[0] in free;
    DropNoDup(free);
  }

  lemma TakeQueuedLists(free: seq<nat>, queue: seq<nat>, place: seq<Place>, p: Place)
    requires Lists(free, queue, place) && queue != [] && !p.Free? && !p.Queued?
    ensures queue[0] < |place| && Lists(free, queue[1..], place[queue[0] := p])
  {
    hide NoDup;
    assert queue[0] in queue;
    DropNoDup(queue);
  }

  lemma PutFreeLists(free: seq<nat>, queue: seq<nat>, place: seq<Place>, x: nat)
    requires Lists(free, queue, place) && x < |place| && !place[x].Free? && !place[x].Queued?
    ensures Lists([x] + free, queue, place[x := Free])
  {
    hide NoDup;
    PushNoDup(free, x);
  }

  lemma PutQueuedLists(free: seq<nat>, queue: seq<nat>, place: seq<Place>, x: nat)
    requires Lists(free, queue, place) && x < |place| && !place[x].Free? && !place[x].Queued?
    ensures Lists(free, [x] + queue, place[x := Queued]) && Lists(free, queue + [x], place[x := Queued])
  {
    hide NoDup;
    PushNoDup(queue, x);
    AppendNoDup(queue, x);
  }

  lemma MoveQueuedLists(free: seq<nat>, queue: seq<nat>, place: seq<Place>)
    requires Lists(free, queue, place) && queue != []
    ensures queue[0] < |place| && Lists([queue[0]] + free, queue[1..], place[queue[0] := Free])
  {
    hide NoDup;
    assert queue[0] in queue;
    DropNoDup(queue);
    PushNoDup(free, queue[0]);
  }

  /** After a reset all nodes of the queue are free. */
  lemma {:induction false} FreeAllLists(free: seq<nat>, queue: seq<nat>, place: seq<Place>)
    requires Lists(free, queue, place)
    ensures Lists(FreeAll(free, queue), [], PlaceAll(place, queue))
    decreases queue
  {
    hide NoDup;
    if queue == [] {
      assert PlaceAll(place, queue) == place;
    } else {
      MoveQueuedLists(free, queue, place);
      var place' := place[queue[0] := Free];
      FreeAllLists([queue[0]] + free, queue[1..], place');
      assert forall x :: x in queue <==> x == queue[0] || x in queue[1..];
      assert PlaceAll(place', queue[1..]) == PlaceAll(place, queue);
    }
  }

  /** A node that was in a list goes to a sender, or to a receiver. */
  lemma TakeHands(place: seq<Place>, sending: map<nat, Sending>, receiving: map<nat, Receiving>, x: nat, t: nat,
                  s: Sending, r: Receiving)
    requires Hands(place, sending, receiving) && x < |place| && (place[x].Free? || place[x].Queued?)
    requires s.node == x == r.node
    ensures t !in sending ==> Hands(place[x := WithSender(t)], sending[t := s], receiving)
    ensures t !in receiving ==> Hands(place[x := WithReceiver(t)], sending, receiving[t := r])
  {
  }

  /** A thread goes on with its node. */
  lemma SameHands(place: seq<Place>, sending: map<nat, Sending>, receiving: map<nat, Receiving>, t: nat, s: Sending,
                  r: Receiving)
    requires Hands(place, sending, receiving)
    ensures t in sending && s.node == sending[t].node ==> Hands(place, sending[t := s], receiving)
    ensures t in receiving && r.node == receiving[t].node ==> Hands(place, sending, receiving[t := r])
  {
  }

  /** A thread puts its node into a list. */
  lemma PutHands(place: seq<Place>, sending: map<nat, Sending>, receiving: map<nat, Receiving>, t: nat, p: Place)
    requires Hands(place, sending, receiving) && (p.Free? || p.Queued?)
    ensures t in sending ==> sending[t].node < |place| && Hands(place[sending[t].node := p], sending - {t}, receiving)
    ensures t in receiving ==>
            receiving[t].node < |place| && Hands(place[receiving[t].node := p], sending, receiving - {t})
  {
  }

  // ---------------------------------------------------------------------------------
  // Every step keeps the invariant
  // ---------------------------------------------------------------------------------

  lemma FirstFree(q: Queue, policy: Policy, prio: Keys)
    requires Inv(q, policy, prio)
    ensures q.free != [] ==> q.free[0] < |q.place| && q.place[q.free[0]] == Free
    ensures q.queue != [] ==> q.queue[0] < |q.place| && q.place[q.queue[0]] == Queued
    ensures q.entry == |q.queue| == |q.msgs|
  {
    hide NoDup, Hands, Fair, Awake;
    if q.free != [] {
      assert q.free[0] in q.free;
    }
    if q.queue != [] {
      assert q.queue[0] in q.queue;
    }
  }

  lemma SendTakeInv(q: Queue, policy: Policy, prio: Keys, t: nat, msg: Message, urgent: bool)
    requires Inv(q, policy, prio) && t !in q.sending
    ensures q.free != [] ==> q.free[0] < |q.place|
    ensures Inv(SendTake(q, t, msg, urgent).0, policy, prio)
  {
    hide Lists, Hands, Fair, Awake, Holds, InOrder, Complete;
    FirstFree(q, policy, prio);
    if |msg| <= q.msgSize && q.free != [] {
      var v := SendTake(q, t, msg, urgent).0;
      var x := q.free[0];
      TakeHands(q.place, q.sending, q.receiving, x, t, v.sending[t], Receiving(x, 0, [], []));
      HoldsNothing(q.data, x);
      assert msg[..0] == [];
      TakeFreeLists(q.free, q.queue, q.place, WithSender(t));
      AwakeFrame(q, v);
      forall u | u in v.sending ensures SendingOk(v, v.sending[u]) {
        if u != t {
          assert SendingOk(q, q.sending[u]);
        }
      }
      forall u | u in v.receiving ensures ReceivingOk(v, v.receiving[u]) {
        assert ReceivingOk(q, q.receiving[u]);
      }
    }
  }

  lemma HoldsNothing(data: seq<seq<nat>>, x: nat)
    requires x < |data|
    ensures Holds(data, x, [])
  {
  }

  lemma SendReady(q: Queue, policy: Policy, prio: Keys, t: nat)
    requires Inv(q, policy, prio) && t in q.sending
    ensures var h := q.sending[t];
            && h.node < |q.place| == |q.data| && q.place[h.node] == WithSender(t)
            && h.copied <= |h.msg| <= |q.data[h.node]| == q.msgSize
  {
    hide Lists, Fair, Awake;
    assert SendingOk(q, q.sending[t]);
  }

  /** Writing a node leaves the other nodes as they were. */
  lemma HoldsOther(data: seq<seq<nat>>, x: nat, b: seq<nat>, node: nat, msg: Message)
    requires Holds(data, node, msg) && x < |data| && x != node
    ensures Holds(data[x := b], node, msg)
  {
  }

  lemma SendCopyInv(q: Queue, policy: Policy, prio: Keys, t: nat)
    requires Inv(q, policy, prio) && t in q.sending && q.sending[t].copied < |q.sending[t].msg|
    ensures q.sending[t].node < |q.data| && |q.sending[t].msg| <= |q.data[q.sending[t].node]|
    ensures Inv(SendCopy(q, t), policy, prio)
  {
    hide Lists, Hands, Fair, Awake, Holds, InOrder, Complete;
    SendReady(q, policy, prio, t);
    var v, h, x := SendCopy(q, t), q.sending[t], q.sending[t].node;
    QueueApart(q, policy, prio, x);
    SameHands(q.place, q.sending, q.receiving, t, v.sending[t], Receiving(x, 0, [], []));
    HandsApart(q.place, q.sending, q.receiving, t);
    AwakeFrame(q, v);
    forall i | 0 <= i < |v.queue| ensures Holds(v.data, v.queue[i], v.msgs[i].msg) {
      HoldsOther(q.data, x, v.data[x], q.queue[i], q.msgs[i].msg);
    }
    forall u | u in v.sending ensures SendingOk(v, v.sending[u]) {
      assert SendingOk(q, q.sending[u]);
      if u != t {
        HoldsOther(q.data, x, v.data[x], q.sending[u].node, q.sending[u].msg[..q.sending[u].copied]);
      } else {
        CopyByte(q.data, x, h.msg, h.copied);
      }
    }
    forall u | u in v.receiving ensures ReceivingOk(v, v.receiving[u]) {
      assert ReceivingOk(q, q.receiving[u]);
      HoldsOther(q.data, x, v.data[x], q.receiving[u].node, q.receiving[u].msg);
      HoldsOther(q.data, x, v.data[x], q.receiving[u].node, q.receiving[u].copy);
    }
  }

  /** No other thread has the sender's node. */
  lemma HandsApart(place: seq<Place>, sending: map<nat, Sending>, receiving: map<nat, Receiving>, t: nat)
    requires Hands(place, sending, receiving) && t in sending
    ensures forall u :: u in sending && u != t ==> sending[u].node != sending[t].node
    ensures forall u :: u in receiving ==> receiving[u].node != sending[t].node
  {
  }

  lemma CopyByte(data: seq<seq<nat>>, x: nat, msg: Message, k: nat)
    requires k < |msg| && Holds(data, x, msg[..k]) && |msg| <= |data[x]|
    ensures Holds(data[x := data[x][k := msg[k]]], x, msg[..k + 1])
  {
    var b := data[x][k := msg[k]];
    assert b[..k + 1] == data[x][..k] + [msg[k]];
    assert msg[..k + 1] == msg[..k] + [msg[k]];
  }

  lemma QueueApart(q: Queue, policy: Policy, prio: Keys, x: nat)
    requires Inv(q, policy, prio) && x < |q.place| && q.place[x] != Queued
    ensures forall i :: 0 <= i < |q.queue| ==> q.queue[i] != x
  {
    hide NoDup, Hands, Contents, Fair, Awake;
    assert x !in q.queue;
  }

  /** A linked message stands at the end, or at the front; those before and behind stay in order. */
  lemma SendLinkInv(q: Queue, policy: Policy, prio: Keys, t: nat)
    requires Inv(q, policy, prio) && t in q.sending && q.sending[t].copied == |q.sending[t].msg|
    ensures q.sending[t].node < |q.place| && Inv(SendLink(q, t), policy, prio)
  {
    hide Fair, Before, Remove, Contents, Lists, Hands, InOrder, Complete;
    SendReady(q, policy, prio, t);
    var v, h := SendLink(q, t), q.sending[t];
    PutQueuedLists(q.free, q.queue, q.place, h.node);
    PutHands(q.place, q.sending, q.receiving, t, Queued);
    LinkContents(q, t);
    LinkOrder(q.linked, q.msgs, q.delivered, Mail(|q.linked|, h.urgent, h.msg));
    ContentsFrame(q.(queue := v.queue, msgs := v.msgs, sending := v.sending), v);
    if q.receivers.list != [] {
      FirstFair(q.receivers, policy, prio);
      FirstGone(q.receivers, policy, prio);
    }
  }

  lemma FirstGone(w: Waiters, policy: Policy, prio: Keys)
    requires Fair(w, policy, prio) && w.list != []
    ensures w.list[0] in w.list && forall t :: t in DropFirst(w).list ==> t in w.list && t != w.list[0]
  {
    DropNoDup(w.list);
  }

  /** Contents depend only on data, messages and hands. */
  lemma ContentsFrame(q: Queue, v: Queue)
    requires Contents(q) && q.msgSize == v.msgSize && q.data == v.data && |q.place| == |v.place|
    requires q.queue == v.queue && q.msgs == v.msgs && q.sending == v.sending && q.receiving == v.receiving
    ensures Contents(v)
  {
    hide Holds;
    forall t | t in v.sending ensures SendingOk(v, v.sending[t]) {
      assert SendingOk(q, q.sending[t]);
    }
    forall t | t in v.receiving ensures ReceivingOk(v, v.receiving[t]) {
      assert ReceivingOk(q, q.receiving[t]);
    }
  }

  lemma LinkContents(q: Queue, t: nat)
    requires Contents(q) && t in q.sending && q.sending[t].copied == |q.sending[t].msg|
    ensures var h := q.sending[t]; var m := Mail(|q.linked|, h.urgent, h.msg);
            Contents(q.(queue := if h.urgent then [h.node] + q.queue else q.queue + [h.node],
                        msgs := if h.urgent then [m] + q.msgs else q.msgs + [m], sending := q.sending - {t}))
  {
    hide Holds;
    var h := q.sending[t];
    assert SendingOk(q, h) && h.msg[..h.copied] == h.msg;
    var m := Mail(|q.linked|, h.urgent, h.msg);
    var v := q.(queue := if h.urgent then [h.node] + q.queue else q.queue + [h.node],
                msgs := if h.urgent then [m] + q.msgs else q.msgs + [m], sending := q.sending - {t});
    forall i | 0 <= i < |v.queue| ensures Holds(v.data, v.queue[i], v.msgs[i].msg) {
      if h.urgent {
        assert 0 < i ==> Holds(q.data, q.queue[i - 1], q.msgs[i - 1].msg);
      } else {
        assert i < |q.queue| ==> Holds(q.data, q.queue[i], q.msgs[i].msg);
      }
    }
    forall u | u in v.sending ensures SendingOk(v, v.sending[u]) {
      assert SendingOk(q, q.sending[u]);
    }
    forall u | u in v.receiving ensures ReceivingOk(v, v.receiving[u]) {
      assert ReceivingOk(q, q.receiving[u]);
    }
  }

  /** A receiver takes the first node; it may be one that was resumed for it. */
  lemma UnlinkInv(q: Queue, policy: Policy, prio: Keys, t: nat, size: nat)
    requires Lists(q.free, q.queue, q.place) && Hands(q.place, q.sending, q.receiving) && Contents(q)
    requires q.entry == |q.queue| && Fair(q.receivers, policy, prio) && q.queue != [] && t !in q.receiving
    requires InOrder(q.linked, q.msgs, q.delivered) && (forall r :: r in q.finished ==> Complete(r, q.msgSize))
    requires q.receivers.list != [] ==> |q.queue| <= |q.woken| + 1
    requires (forall u :: u in q.receivers.list ==> u !in q.woken && u in q.wanted)
    requires (forall u :: u in q.woken ==> u in q.wanted)
    ensures q.queue[0] < |q.place| && Inv(Receive(q, policy, prio, t, size, true).0, policy, prio)
  {
    hide Fair, Lists, Hands, Contents, InOrder, Complete;
    InQueue(q.free, q.queue, q.place);
    ContentsLength(q);
    var v := Receive(q, policy, prio, t, size, true).0;
    TakeHands(q.place, q.sending, q.receiving, q.queue[0], t, Sending(q.queue[0], [], false, 0), v.receiving[t]);
    TakeQueuedLists(q.free, q.queue, q.place, WithReceiver(t));
    TakeOrder(q.linked, q.msgs, q.delivered);
    UnlinkContents(q, v.receiving[t], t);
    ContentsFrame(q.(queue := v.queue, msgs := v.msgs, receiving := v.receiving), v);
  }

  lemma InQueue(free: seq<nat>, queue: seq<nat>, place: seq<Place>)
    requires Lists(free, queue, place) && queue != []
    ensures queue[0] < |place| && place[queue[0]] == Queued
  {
    assert queue[0] in queue;
  }

  lemma ContentsLength(q: Queue)
    requires Contents(q)
    ensures |q.msgs| == |q.queue|
  {
  }

  lemma UnlinkContents(q: Queue, h: Receiving, t: nat)
    requires Contents(q) && q.queue != [] && h.node == q.queue[0] && h.msg == q.msgs[0].msg && h.copy == []
    ensures Contents(q.(queue := q.queue[1..], msgs := q.msgs[1..], receiving := q.receiving[t := h]))
  {
    var v := q.(queue := q.queue[1..], msgs := q.msgs[1..], receiving := q.receiving[t := h]);
    assert Holds(q.data, q.queue[0], q.msgs[0].msg);
    forall i | 0 <= i < |v.queue| ensures Holds(v.data, v.queue[i], v.msgs[i].msg) {
      assert Holds(q.data, q.queue[i + 1], q.msgs[i + 1].msg);
    }
    forall u | u in v.sending ensures SendingOk(v, v.sending[u]) {
      assert SendingOk(q, q.sending[u]);
    }
    forall u | u in v.receiving ensures ReceivingOk(v, v.receiving[u]) {
      if u != t {
        assert ReceivingOk(q, q.receiving[u]);
      }
    }
  }

  lemma ReceiveInv(q: Queue, policy: Policy, prio: Keys, t: nat, size: nat, wait: bool)
    requires Inv(q, policy, prio) && t !in q.receiving && t !in q.receivers.list && t !in q.woken
    ensures q.entry == |q.queue| == |q.msgs| && (q.queue != [] ==> q.queue[0] < |q.place|)
    ensures Inv(Receive(q, policy, prio, t, size, wait).0, policy, prio)
  {
    hide Fair, Lists, Hands, Contents, InOrder, Complete;
    ContentsLength(q);
    if q.queue != [] {
      UnlinkInv(q, policy, prio, t, size);
    } else if wait {
      WaitInv(q, policy, prio, t, size);
    }
  }

  lemma WaitInv(q: Queue, policy: Policy, prio: Keys, t: nat, size: nat)
    requires Inv(q, policy, prio) && q.queue == [] && t !in q.receivers.list && t !in q.woken
    ensures Inv(q.(receivers := Enqueue(q.receivers, policy, prio, t), wanted := q.wanted[t := size]), policy, prio)
  {
    hide Fair, Lists, Hands, Contents, InOrder, Complete;
    EnqueueFair(q.receivers, policy, prio, t);
    EnqueueElements(q.receivers.list, policy, prio, t);
    ContentsFrame(q, q.(receivers := Enqueue(q.receivers, policy, prio, t), wanted := q.wanted[t := size]));
  }

  lemma ReceiveAgainInv(q: Queue, policy: Policy, prio: Keys, t: nat, wait: bool)
    requires Inv(q, policy, prio) && t in q.woken && t !in q.receiving
    ensures q.entry == |q.queue| == |q.msgs| && (q.queue != [] ==> q.queue[0] < |q.place|) && t in q.wanted
    ensures Inv(ReceiveAgain(q, policy, prio, t, wait).0, policy, prio)
  {
    hide Fair, Lists, Hands, Contents, InOrder, Complete;
    ContentsLength(q);
    var n := q.(woken := q.woken - {t});
    ContentsFrame(q, n);
    if q.queue != [] {
      UnlinkInv(n, policy, prio, t, q.wanted[t]);
    } else {
      ReceiveInv(n, policy, prio, t, q.wanted[t], wait);
    }
  }

  lemma ReceiveReady(q: Queue, policy: Policy, prio: Keys, t: nat)
    requires Inv(q, policy, prio) && t in q.receiving
    ensures var h := q.receiving[t];
            && h.node < |q.place| == |q.data| && q.place[h.node] == WithReceiver(t)
            && |h.copy| <= Min(h.asked, q.msgSize) <= |q.data[h.node]| == q.msgSize
  {
    hide Lists, Fair, Awake;
    assert ReceivingOk(q, q.receiving[t]);
  }

  lemma ReceiveCopyInv(q: Queue, policy: Policy, prio: Keys, t: nat)
    requires Inv(q, policy, prio) && t in q.receiving && |q.receiving[t].copy| < Min(q.receiving[t].asked, q.msgSize)
    ensures q.receiving[t].node < |q.data| && |q.receiving[t].copy| < |q.data[q.receiving[t].node]|
    ensures Inv(ReceiveCopy(q, t), policy, prio)
  {
    hide Lists, Hands, Fair, Awake, Holds, InOrder, Complete;
    ReceiveReady(q, policy, prio, t);
    var v, h := ReceiveCopy(q, t), q.receiving[t];
    assert ReceivingOk(q, h);
    AwakeFrame(q, v);
    SameHands(q.place, q.sending, q.receiving, t, Sending(h.node, [], false, 0), v.receiving[t]);
    HoldsMore(q.data, h.node, h.copy);
    forall u | u in v.sending ensures SendingOk(v, v.sending[u]) {
      assert SendingOk(q, q.sending[u]);
    }
    forall u | u in v.receiving ensures ReceivingOk(v, v.receiving[u]) {
      assert ReceivingOk(q, q.receiving[u]);
    }
  }

  lemma HoldsMore(data: seq<seq<nat>>, x: nat, copy: seq<nat>)
    requires Holds(data, x, copy) && |copy| < |data[x]|
    ensures Holds(data, x, copy + [data[x][|copy|]])
  {
    var k := |copy|;
    assert data[x][..k + 1] == data[x][..k] + [data[x][k]];
  }

  lemma CompleteNow(q: Queue, policy: Policy, prio: Keys, t: nat)
    requires Inv(q, policy, prio) && t in q.receiving
    requires |q.receiving[t].copy| == Min(q.receiving[t].asked, q.msgSize)
    ensures Complete(Received(q.receiving[t].asked, q.receiving[t].msg, q.receiving[t].copy), q.msgSize)
  {
    hide Inv, Agree;
    Delivered(q, policy, prio, t);
  }

  lemma ReceiveFreeInv(q: Queue, policy: Policy, prio: Keys, t: nat)
    requires Inv(q, policy, prio) && t in q.receiving
    requires |q.receiving[t].copy| == Min(q.receiving[t].asked, q.msgSize)
    ensures q.receiving[t].node < |q.place| && Inv(ReceiveFree(q, t), policy, prio)
  {
    hide Lists, Hands, Fair, Awake, Holds, InOrder, Complete;
    ReceiveReady(q, policy, prio, t);
    var v := ReceiveFree(q, t);
    PutHands(q.place, q.sending, q.receiving, t, Free);
    CompleteNow(q, policy, prio, t);
    PutFreeLists(q.free, q.queue, q.place, q.receiving[t].node);
    AwakeFrame(q, v);
    forall u | u in v.sending ensures SendingOk(v, v.sending[u]) {
      assert SendingOk(q, q.sending[u]);
    }
    forall u | u in v.receiving ensures ReceivingOk(v, v.receiving[u]) {
      assert ReceivingOk(q, q.receiving[u]);
    }
  }

  lemma AwakeFrame(q: Queue, v: Queue)
    requires Awake(q) && q.queue == v.queue && q.receivers == v.receivers && q.woken == v.woken && q.wanted == v.wanted
    ensures Awake(v)
  {
  }

  lemma TimeoutInv(q: Queue, policy: Policy, prio: Keys, t: nat)
    requires Inv(q, policy, prio)
    ensures Inv(Timeout(q, t), policy, prio)
  {
    hide Lists, Hands, Contents, Fair, InOrder, Complete;
    DropFair(q.receivers, policy, prio, t);
    ContentsFrame(q, Timeout(q, t));
  }

  /** A reset frees the queued nodes and leaves those in the hands of threads with them. */
  lemma ResetInv(q: Queue, policy: Policy, prio: Keys)
    requires Inv(q, policy, prio)
    ensures Inv(Reset(q), policy, prio)
  {
    hide Lists, FreeAll, Complete;
    var v := Reset(q);
    FreeAllLists(q.free, q.queue, q.place);
    ResetHands(q);
    forall u | u in v.sending ensures SendingOk(v, v.sending[u]) {
      assert SendingOk(q, q.sending[u]);
    }
    forall u | u in v.receiving ensures ReceivingOk(v, v.receiving[u]) {
      assert ReceivingOk(q, q.receiving[u]);
    }
  }

  lemma ResetHands(q: Queue)
    requires Lists(q.free, q.queue, q.place) && Hands(q.place, q.sending, q.receiving)
    ensures Hands(PlaceAll(q.place, q.queue), q.sending, q.receiving)
  {
    hide NoDup;
    var place := PlaceAll(q.place, q.queue);
    forall x | 0 <= x < |place| ensures place[x] == if q.place[x].Queued? then Free else q.place[x] {
      assert x in q.queue <==> q.place[x] == Queued;
    }
  }

  /** Every node is in exactly one place: the free list, the queue, or the hands of one thread. */
  lemma NodeOnce(q: Queue, policy: Policy, prio: Keys, x: nat)
    requires Inv(q, policy, prio) && x < |q.place|
    ensures x in q.free || x in q.queue || (exists t :: t in q.sending && q.sending[t].node == x) ||
            (exists t :: t in q.receiving && q.receiving[t].node == x)
    ensures !(x in q.free && x in q.queue)
    ensures forall t :: t in q.sending && q.sending[t].node == x ==> x !in q.free && x !in q.queue
    ensures forall t :: t in q.receiving && q.receiving[t].node == x ==> x !in q.free && x !in q.queue
    ensures forall t, u :: t in q.sending && u in q.receiving ==> q.sending[t].node != q.receiving[u].node
    ensures forall t, u :: t in q.sending && u in q.sending && q.sending[t].node == q.sending[u].node ==> t == u
    ensures forall t, u :: t in q.receiving && u in q.receiving && q.receiving[t].node == q.receiving[u].node ==> t == u
  {
    hide NoDup, Contents, Fair, Awake;
    assert q.place[x].Free? || q.place[x].Queued? || q.place[x].WithSender? || q.place[x].WithReceiver?;
  }

  // ---------------------------------------------------------------------------------
  // What the calls answer
  // ---------------------------------------------------------------------------------

  /** A send is refused exactly for a message that is too long, or when no node is free; else the thread has a node. */
  lemma SendTakeGives(q: Queue, policy: Policy, prio: Keys, t: nat, msg: Message, urgent: bool)
    requires Inv(q, policy, prio) && t !in q.sending
    ensures q.free != [] ==> q.free[0] < |q.place|
    ensures var (v, outcome) := SendTake(q, t, msg, urgent);
            && (outcome == TooLong <==> q.msgSize < |msg|)
            && (outcome == Full <==> |msg| <= q.msgSize && forall x :: 0 <= x < |q.place| ==> q.place[x] != Free)
            && (outcome == Done <==> t in v.sending)
            && (outcome == Done ==>
                  && v.sending[t].msg == msg && v.sending[t].urgent == urgent && v.sending[t].copied == 0
                  && q.place[v.sending[t].node] == Free && v.queue == q.queue && v.linked == q.linked
                  && forall u :: u != t ==>
                       (u in v.sending <==> u in q.sending) && (u in q.sending ==> v.sending[u] == q.sending[u]))
            && (outcome != Done ==> v == q)
  {
    hide NoDup, Hands, Contents, Fair, Awake, InOrder, Complete;
    FirstFree(q, policy, prio);
    if q.free != [] {
      assert q.place[q.free[0]] == Free;
    } else {
      forall x | 0 <= x < |q.place| ensures q.place[x] != Free {
        assert x !in q.free;
      }
    }
  }

  /** A copy goes on by one byte, and touches no other node. */
  lemma CopyGives(q: Queue, policy: Policy, prio: Keys, t: nat, u: nat)
    requires Inv(q, policy, prio)
    ensures t in q.sending && q.sending[t].copied < |q.sending[t].msg| ==>
              && q.sending[t].node < |q.data| && |q.sending[t].msg| <= |q.data[q.sending[t].node]|
              && var v := SendCopy(q, t);
                 && t in v.sending && v.sending[t] == q.sending[t].(copied := q.sending[t].copied + 1)
                 && v.queue == q.queue && v.free == q.free && v.receiving == q.receiving
                 && |v.data| == |q.data|
                 && forall x :: 0 <= x < |q.data| && x != q.sending[t].node ==> v.data[x] == q.data[x]
    ensures u in q.receiving && |q.receiving[u].copy| < Min(q.receiving[u].asked, q.msgSize) ==>
              && q.receiving[u].node < |q.data| && |q.receiving[u].copy| < |q.data[q.receiving[u].node]|
              && var v := ReceiveCopy(q, u);
                 && v.data == q.data && v.queue == q.queue && v.free == q.free && v.sending == q.sending
                 && u in v.receiving
                 && |v.receiving[u].copy| == |q.receiving[u].copy| + 1 && v.receiving[u].asked == q.receiving[u].asked
  {
    hide Lists, Hands, Fair, Awake, InOrder, Complete;
    if t in q.sending {
      SendReady(q, policy, prio, t);
    }
    if u in q.receiving {
      ReceiveReady(q, policy, prio, u);
    }
  }

  /** A link enters the message as the latest, and resumes the receiver that is to be served first. */
  lemma SendLinkGives(q: Queue, policy: Policy, prio: Keys, t: nat)
    requires Inv(q, policy, prio) && t in q.sending
    ensures q.sending[t].node < |q.place|
    ensures var v, h := SendLink(q, t), q.sending[t];
            && v.linked == q.linked + [Mail(|q.linked|, h.urgent, h.msg)] && v.delivered == q.delivered
            && t !in v.sending && v.data == q.data && h.node in v.queue
            && (q.receivers.list == [] ==> v.woken == q.woken && v.receivers == q.receivers)
            && (q.receivers.list != [] ==>
                  exists w :: && w in q.receivers.list && v.woken == q.woken + {w}
                              && v.receivers == Drop(q.receivers, w)
                              && forall u :: u in q.receivers.list && u != w ==>
                                   Before(policy, prio, q.receivers.ticket, w, u))
  {
    hide Lists, Fair, Before, Remove, Contents, InOrder, Complete;
    SendReady(q, policy, prio, t);
    if q.receivers.list != [] {
      FirstFair(q.receivers, policy, prio);
      assert q.receivers.list[0] in q.receivers.list;
    }
  }

  /** A receive gets the first message, for a buffer of the size it asks for; else it waits, or gives up unchanged. */
  lemma ReceiveGives(q: Queue, policy: Policy, prio: Keys, t: nat, size: nat, wait: bool)
    requires Inv(q, policy, prio) && t !in q.receiving && t !in q.receivers.list && t !in q.woken
    ensures q.entry == |q.queue| == |q.msgs| && (q.queue != [] ==> q.queue[0] < |q.place|)
    ensures var (v, outcome) := Receive(q, policy, prio, t, size, wait);
            && (outcome == Done <==> q.msgs != []) && (outcome == Done <==> t in v.receiving)
            && (outcome == Done ==>
                  && v.receiving[t].asked == size && v.receiving[t].copy == [] && v.receiving[t].msg == q.msgs[0].msg
                  && v.delivered == q.delivered + [q.msgs[0]] && v.receivers == q.receivers)
            && (outcome == Waits <==> q.msgs == [] && wait) && (outcome == Waits <==> t in v.receivers.list)
            && (outcome == Waits ==>
                  t in v.wanted && v.wanted[t] == size && v.msgs == q.msgs && v.receiving == q.receiving)
            && (outcome == Refused <==> q.msgs == [] && !wait) && (outcome == Refused ==> v == q)
  {
    hide NoDup, Hands, Contents, Fair, Awake, InOrder, Complete;
    FirstFree(q, policy, prio);
    EnqueueElements(q.receivers.list, policy, prio, t);
  }

  /** A resumed receiver goes on as if it had just called, with the buffer it came with. */
  lemma ReceiveAgainGives(q: Queue, policy: Policy, prio: Keys, t: nat, wait: bool)
    requires Inv(q, policy, prio) && t in q.woken && t !in q.receiving
    ensures q.entry == |q.queue| == |q.msgs| && (q.queue != [] ==> q.queue[0] < |q.place|) && t in q.wanted
    ensures var (v, outcome) := ReceiveAgain(q, policy, prio, t, wait);
            && v.woken == q.woken - {t}
            && (outcome == Done <==> q.msgs != []) && (outcome == Waits <==> q.msgs == [] && wait)
            && (outcome == Refused <==> q.msgs == [] && !wait)
            && (outcome == Done ==>
                  && t in v.receiving && v.receiving[t].asked == q.wanted[t] && v.receiving[t].copy == []
                  && v.receiving[t].msg == q.msgs[0].msg && v.delivered == q.delivered + [q.msgs[0]])
            && (outcome == Waits ==> t in v.receivers.list && t in v.wanted && v.wanted[t] == q.wanted[t])
            && (outcome == Refused ==> v == q.(woken := q.woken - {t}))
  {
    hide NoDup, Hands, Contents, Fair, InOrder, Complete;
    FirstFree(q, policy, prio);
    EnqueueElements(q.receivers.list, policy, prio, t);
  }

  /** A receive that ends is recorded, and its node is free again. */
  lemma ReceiveFreeGives(q: Queue, policy: Policy, prio: Keys, t: nat)
    requires Inv(q, policy, prio) && t in q.receiving
    ensures q.receiving[t].node < |q.place|
    ensures var v, h := ReceiveFree(q, t), q.receiving[t];
            && t !in v.receiving && h.node in v.free && v.queue == q.queue && v.data == q.data
            && v.finished == q.finished + [Received(h.asked, h.msg, h.copy)]
  {
    hide Lists, Fair, Awake, InOrder, Complete;
    ReceiveReady(q, policy, prio, t);
  }

  /** A timeout takes one thread out of the list, a reset all of them, and all messages; calls in the middle go on. */
  lemma QuitGives(q: Queue, policy: Policy, prio: Keys, t: nat)
    requires Inv(q, policy, prio)
    ensures var v := Timeout(q, t);
            && v.(receivers := q.receivers) == q
            && forall u :: u in v.receivers.list <==> u != t && u in q.receivers.list
    ensures var v := Reset(q);
            && v.queue == [] && v.msgs == [] && v.linked == [] && v.delivered == [] && v.receivers.list == []
            && v.sending == q.sending && v.receiving == q.receiving && v.data == q.data && v.finished == q.finished
            && v.woken == q.woken
            && forall x :: x in v.free <==> x in q.free || x in q.queue
  {
    hide NoDup, Hands, Contents, Fair, Awake, InOrder, Complete, FreeAll, Remove;
    forall u ensures u in Timeout(q, t).receivers.list <==> u != t && u in q.receivers.list {
      RemoveElements(q.receivers.list, t, u);
    }
    FreeAllLists(q.free, q.queue, q.place);
    var v := Reset(q);
    forall x ensures x in v.free <==> x in q.free || x in q.queue {
      assert x in q.queue <==> 0 <= x < |q.place| && q.place[x] == Queued;
    }
  }

  // ---------------------------------------------------------------------------------
  // Runs
  // ---------------------------------------------------------------------------------

  /** The free list as `rt_mq_init` builds it: the last node first. */
  function Downto(n: nat): seq<nat> {
    if n == 0 then [] else [n - 1] + Downto(n - 1)
  }

  lemma {:induction false} DowntoElements(n: nat)
    ensures NoDup(Downto(n)) && forall x :: x in Downto(n) <==> 0 <= x < n
  {
    if 0 < n {
      DowntoElements(n - 1);
      PushNoDup(Downto(n - 1), n - 1);
    }
  }

  function Init(msgSize: nat, data: seq<seq<nat>>): Queue {
    Queue(msgSize, Downto(|data|), [], [], 0, [], [], [], data, seq(|data|, _ => Free), map[], map[], Empty(), {},
      map[])
  }

  lemma InitInv(msgSize: nat, data: seq<seq<nat>>, policy: Policy, prio: Keys)
    requires forall x :: 0 <= x < |data| ==> |data[x]| == msgSize
    ensures Inv(Init(msgSize, data), policy, prio)
  {
    DowntoElements(|data|);
  }

  datatype Op =
    | DoSend(t: nat, msg: Message, urgent: bool)
    | DoSendCopy(t: nat)
    | DoSendLink(t: nat)
    | DoReceive(t: nat, size: nat, wait: bool)
    | DoReceiveAgain(t: nat, wait: bool)
    | DoReceiveCopy(t: nat)
    | DoReceiveFree(t: nat)
    | DoTimeout(t: nat)
    | DoReset

  /** The thread is in the middle of a call. */
  predicate Busy(q: Queue, t: nat) {
    t in q.sending || t in q.receiving || t in q.receivers.list || t in q.woken
  }

  /** One step of one thread, or of the timer; a copy goes on to its end before the node moves on. */
  ghost function Step(q: Queue, policy: Policy, prio: Keys, op: Op): (v: Queue)
    requires Inv(q, policy, prio)
    ensures Inv(v, policy, prio)
  {
    match op
    case DoSend(t, msg, urgent) =>
      if Busy(q, t) then q
      else
        SendTakeInv(q, policy, prio, t, msg, urgent);
        SendTake(q, t, msg, urgent).0
    case DoSendCopy(t) =>
      if t !in q.sending || q.sending[t].copied >= |q.sending[t].msg| then q
      else
        SendCopyInv(q, policy, prio, t);
        SendCopy(q, t)
    case DoSendLink(t) =>
      if t !in q.sending || q.sending[t].copied != |q.sending[t].msg| then q
      else
        SendLinkInv(q, policy, prio, t);
        SendLink(q, t)
    case DoReceive(t, size, wait) =>
      if Busy(q, t) then q
      else
        ReceiveInv(q, policy, prio, t, size, wait);
        Receive(q, policy, prio, t, size, wait).0
    case DoReceiveAgain(t, wait) =>
      if t !in q.woken || t in q.receiving then q
      else
        ReceiveAgainInv(q, policy, prio, t, wait);
        ReceiveAgain(q, policy, prio, t, wait).0
    case DoReceiveCopy(t) =>
      if t !in q.receiving || |q.receiving[t].copy| >= Min(q.receiving[t].asked, q.msgSize) then q
      else
        ReceiveCopyInv(q, policy, prio, t);
        ReceiveCopy(q, t)
    case DoReceiveFree(t) =>
      if t !in q.receiving || |q.receiving[t].copy| != Min(q.receiving[t].asked, q.msgSize) then q
      else
        ReceiveFreeInv(q, policy, prio, t);
        ReceiveFree(q, t)
    case DoTimeout(t) =>
      TimeoutInv(q, policy, prio, t);
      Timeout(q, t)
    case DoReset =>
      ResetInv(q, policy, prio);
      Reset(q)
  }

  /** Every reachable state, however the steps of the threads interleave. */
  ghost function RunAll(msgSize: nat, data: seq<seq<nat>>, policy: Policy, prio: Keys, ops: seq<Op>): (q: Queue)
    requires forall x :: 0 <= x < |data| ==> |data[x]| == msgSize
    ensures Inv(q, policy, prio)
  {
    if ops == [] then
      InitInv(msgSize, data, policy, prio);
      Init(msgSize, data)
    else Step(RunAll(msgSize, data, policy, prio, ops[..|ops| - 1]), policy, prio, ops[|ops| - 1])
  }

  /** A call, or a thread whose priority `rt_thread_control` changes. */
  datatype Happening = Call(op: Op) | Change(t: nat, p: nat)

  /** The invariant holds at every point of a run in which priorities change. */
  ghost predicate Keeps(q: Queue, policy: Policy, prio: Keys, events: seq<Happening>)
    decreases |events|
  {
    && Inv(q, policy, prio)
    && (events == [] ||
        match events[0]
        case Call(op) => Keeps(Step(q, policy, prio, op), policy, prio, events[1..])
        case Change(t, p) => Keeps(q, policy, prio[t := p], events[1..]))
  }

  /** At every change the thread stays in order with its neighbours in the list. */
  ghost predicate Orderly(q: Queue, policy: Policy, prio: Keys, events: seq<Happening>)
    requires Inv(q, policy, prio)
    decreases |events|
  {
    events == [] ||
    match events[0]
    case Call(op) => Orderly(Step(q, policy, prio, op), policy, prio, events[1..])
    case Change(t, p) =>
      && StaysFair(q.receivers, policy, prio, t, p)
      && (ChangeInv(q, policy, prio, t, p);
          Orderly(q, policy, prio[t := p], events[1..]))
  }

  lemma ChangeInv(q: Queue, policy: Policy, prio: Keys, t: nat, p: nat)
    requires Inv(q, policy, prio)
    ensures Inv(q, policy, prio[t := p]) <==> StaysFair(q.receivers, policy, prio, t, p)
  {
    hide Fair, StaysFair, Lists, Hands, Contents, Awake, InOrder, Complete;
    StaysFairExact(q.receivers, policy, prio, t, p);
  }

  /** Runs in which priorities change keep the invariant exactly when every change is orderly. */
  lemma {:induction false} RunChanges(q: Queue, policy: Policy, prio: Keys, events: seq<Happening>)
    requires Inv(q, policy, prio)
    ensures Keeps(q, policy, prio, events) <==> Orderly(q, policy, prio, events)
    decreases |events|
  {
    hide Inv, Step, StaysFair;
    if events != [] {
      match events[0]
      case Call(op) => RunChanges(Step(q, policy, prio, op), policy, prio, events[1..]);
      case Change(t, p) =>
        ChangeInv(q, policy, prio, t, p);
        if StaysFair(q.receivers, policy, prio, t, p) {
          RunChanges(q, policy, prio[t := p], events[1..]);
        }
    }
  }
}
