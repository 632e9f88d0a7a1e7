/**
 The mailbox of `ipc.c`: a bounded queue with threads that wait to send and to receive. A thread
 that is resumed looks at the queue again when it gets to run, and other threads may have
 been there first. Between being resumed and running it is counted as woken.
 */
module MailboxSpec {
  import opened Seqs
  import opened Ordered
  import opened WaitList

  /**
   `pending` is the mail of each thread that is in the middle of sending; `sent` and `received`
   record the mails since the last reset.
   */
  datatype State = State(size: nat, mails: seq<nat>, receivers: Waiters, senders: Waiters,
                             wokenReceivers: set<nat>, wokenSenders: set<nat>,
                             pending: map<nat, nat>, sent: seq<nat>, received: seq<nat>)

  datatype Outcome = Done | Got(mail: nat) | Refused | Waits

  function Init(size: nat): State {
    State(size, [], Empty(), Empty(), {}, {}, map[], [], [])
  }

  /** Store a mail and resume the first waiting receiver. */
  function Put(m: State, v: nat): State {
    var n := m.(mails := m.mails + [v], sent := m.sent + [v]);
    if n.receivers.list == [] then n
    else n.(receivers := DropFirst(n.receivers), wokenReceivers := n.wokenReceivers + {n.receivers.list[0]})
  }

  /** Take out the oldest mail and resume the first waiting sender. */
  function Get(m: State): State
    requires m.mails != []
  {
    var n := m.(mails := m.mails[1..], received := m.received + [m.mails[0]]);
    if n.senders.list == [] then n
    else n.(senders := DropFirst(n.senders), wokenSenders := n.wokenSenders + {n.senders.list[0]})
  }

  /** `rt_mb_send_wait`, from the test for room on. */
  function Send(m: State, policy: Policy, prio: Keys, t: nat, v: nat, wait: bool): (State, Outcome) {
    if |m.mails| != m.size then (Put(m, v), Done)
    else if !wait then (m, Refused)
    else (m.(senders := Enqueue(m.senders, policy, prio, t), pending := m.pending[t := v]), Waits)
  }

  /** `rt_mb_recv`, from the test for mail on. */
  function Receive(m: State, policy: Policy, prio: Keys, t: nat, wait: bool): (State, Outcome) {
    if m.mails != [] then (Get(m), Got(m.mails[0]))
    else if !wait then (m, Refused)
    else (m.(receivers := Enqueue(m.receivers, policy, prio, t)), Waits)
  }

  /** A resumed sender runs; it waits on unless its time is used up. */
  function SendAgain(m: State, policy: Policy, prio: Keys, t: nat, wait: bool): (State, Outcome)
    requires t in m.pending
  {
    Send(m.(wokenSenders := m.wokenSenders - {t}), policy, prio, t, m.pending[t], wait)
  }

  /** A resumed receiver runs. */
  function ReceiveAgain(m: State, policy: Policy, prio: Keys, t: nat, wait: bool): (State, Outcome) {
    Receive(m.(wokenReceivers := m.wokenReceivers - {t}), policy, prio, t, wait)
  }

  /** The time of a waiting thread is up. */
  function Timeout(m: State, t: nat): State {
    m.(receivers := Drop(m.receivers, t), senders := Drop(m.senders, t))
  }

  /** `rt_mb_control` with `RT_IPC_CMD_RESET`. */
  function Reset(m: State): State {
    m.(mails := [], receivers := m.receivers.(list := []), senders := m.senders.(list := []), sent := [],
      received := [])
  }

  // ---------------------------------------------------------------------------------
  // The invariant
  // ---------------------------------------------------------------------------------

  /** Mails come out in the order in which they went in, and there are never too many. */
  ghost predicate Queued(m: State) {
    |m.mails| <= m.size && m.sent == m.received + m.mails
  }

  /** While threads wait, enough others have been resumed to take what they wait for. */
  ghost predicate Awake(m: State) {
    && (m.receivers.list != [] ==> |m.mails| <= |m.wokenReceivers|)
    && (m.senders.list != [] ==> m.size - |m.mails| <= |m.wokenSenders|)
  }

  /** A thread that waits has not been resumed, and senders know their mail. */
  ghost predicate Apart(m: State) {
    && (forall t :: t in m.receivers.list ==> t !in m.wokenReceivers)
    && (forall t :: t in m.senders.list ==> t !in m.wokenSenders && t in m.pending)
    && (forall t :: t in m.wokenSenders ==> t in m.pending)
  }

  ghost predicate Inv(m: State, policy: Policy, prio: Keys) {
    Fair(m.receivers, policy, prio) && Fair(m.senders, policy, prio) && Queued(m) && Awake(m) && Apart(m)
  }

  /** Once all resumed threads have run, receivers wait only for an empty mailbox, senders only for a full one. */
  lemma NoLostWakeup(m: State, policy: Policy, prio: Keys)
    requires Inv(m, policy, prio)
    ensures m.wokenReceivers == {} && m.receivers.list != [] ==> m.mails == []
    ensures m.wokenSenders == {} && m.senders.list != [] ==> |m.mails| == m.size
  {
  }

  /** A mail is stored; the sender may be one that was resumed for the slot it fills. */
  lemma PutInv(m: State, policy: Policy, prio: Keys, v: nat)
    requires Fair(m.receivers, policy, prio) && Fair(m.senders, policy, prio) && Queued(m) && Apart(m)
    requires |m.mails| < m.size
    requires m.receivers.list != [] ==> |m.mails| <= |m.wokenReceivers|
    requires m.senders.list != [] ==> m.size - |m.mails| <= |m.wokenSenders| + 1
    ensures Inv(Put(m, v), policy, prio)
  {
    hide Fair, Before, Remove;
    if m.receivers.list != [] {
      FirstFair(m.receivers, policy, prio);
      assert m.receivers.list[0] in m.receivers.list;
      FirstGone(m.receivers, policy, prio);
    }
  }

  lemma FirstGone(w: Waiters, policy: Policy, prio: Keys)
    requires Fair(w, policy, prio) && w.list != []
    ensures forall t :: t in DropFirst(w).list ==> t in w.list && t != w.list[0]
  {
    DropNoDup(w.list);
  }

  /** A mail is taken out; the receiver may be one that was resumed for it. */
  lemma GetInv(m: State, policy: Policy, prio: Keys)
    requires Fair(m.receivers, policy, prio) && Fair(m.senders, policy, prio) && Queued(m) && Apart(m) && m.mails != []
    requires m.receivers.list != [] ==> |m.mails| <= |m.wokenReceivers| + 1
    requires m.senders.list != [] ==> m.size - |m.mails| <= |m.wokenSenders|
    ensures Inv(Get(m), policy, prio)
  {
    hide Fair, Before, Remove;
    assert m.mails == [m.mails[0]] + m.mails[1..];
    if m.senders.list != [] {
      FirstFair(m.senders, policy, prio);
      assert m.senders.list[0] in m.senders.list;
      FirstGone(m.senders, policy, prio);
    }
  }

  lemma SendInv(m: State, policy: Policy, prio: Keys, t: nat, v: nat, wait: bool)
    requires Inv(m, policy, prio) && t !in m.senders.list && t !in m.wokenSenders
    ensures Inv(Send(m, policy, prio, t, v, wait).0, policy, prio)
  {
    hide Fair, Put;
    if |m.mails| != m.size {
      PutInv(m, policy, prio, v);
    } else if wait {
      EnqueueFair(m.senders, policy, prio, t);
      EnqueueElements(m.senders.list, policy, prio, t);
    }
  }

  lemma ReceiveInv(m: State, policy: Policy, prio: Keys, t: nat, wait: bool)
    requires Inv(m, policy, prio) && t !in m.receivers.list && t !in m.wokenReceivers
    ensures Inv(Receive(m, policy, prio, t, wait).0, policy, prio)
  {
    hide Fair, Get;
    if m.mails != [] {
      GetInv(m, policy, prio);
    } else if wait {
      EnqueueFair(m.receivers, policy, prio, t);
      EnqueueElements(m.receivers.list, policy, prio, t);
    }
  }

  lemma SendAgainInv(m: State, policy: Policy, prio: Keys, t: nat, wait: bool)
    requires Inv(m, policy, prio) && t in m.wokenSenders
    ensures t in m.pending && Inv(SendAgain(m, policy, prio, t, wait).0, policy, prio)
  {
    hide Fair, Put;
    var n := m.(wokenSenders := m.wokenSenders - {t});
    if |m.mails| != m.size {
      PutInv(n, policy, prio, m.pending[t]);
    } else {
      SendInv(n, policy, prio, t, m.pending[t], wait);
    }
  }

  lemma ReceiveAgainInv(m: State, policy: Policy, prio: Keys, t: nat, wait: bool)
    requires Inv(m, policy, prio) && t in m.wokenReceivers
    ensures Inv(ReceiveAgain(m, policy, prio, t, wait).0, policy, prio)
  {
    hide Fair, Get;
    var n := m.(wokenReceivers := m.wokenReceivers - {t});
    if m.mails != [] {
      GetInv(n, policy, prio);
    } else {
      ReceiveInv(n, policy, prio, t, wait);
    }
  }

  lemma TimeoutInv(m: State, policy: Policy, prio: Keys, t: nat)
    requires Inv(m, policy, prio)
    ensures Inv(Timeout(m, t), policy, prio)
  {
    hide Fair;
    DropFair(m.receivers, policy, prio, t);
    DropFair(m.senders, policy, prio, t);
  }

  lemma ResetInv(m: State, policy: Policy, prio: Keys)
    requires Inv(m, policy, prio)
    ensures Inv(Reset(m), policy, prio)
  {
  }

  // ---------------------------------------------------------------------------------
  // What the calls answer
  // ---------------------------------------------------------------------------------

  /** The waiting thread that is to be served first has been resumed, if any waited. */
  ghost predicate FirstResumed(w: Waiters, w': Waiters, woken: set<nat>, woken': set<nat>, policy: Policy, prio: Keys) {
    if w.list == [] then w' == w && woken' == woken
    else exists t :: && t in w.list && w' == Drop(w, t) && woken' == woken + {t}
                     && forall u :: u in w.list && u != t ==> Before(policy, prio, w.ticket, t, u)
  }

  lemma ResumedFirst(w: Waiters, woken: set<nat>, policy: Policy, prio: Keys)
    requires Fair(w, policy, prio)
    ensures w.list != [] ==> FirstResumed(w, DropFirst(w), woken, woken + {w.list[0]}, policy, prio)
  {
    hide Before, Remove, Fair;
    if w.list != [] {
      FirstFair(w, policy, prio);
      assert w.list[0] in w.list;
    }
  }

  /** A send stores its mail as the latest, exactly when there is room, and resumes a receiver; else it waits or not. */
  lemma SendGives(m: State, policy: Policy, prio: Keys, t: nat, v: nat, wait: bool)
    requires Inv(m, policy, prio) && t !in m.senders.list
    ensures var (n, outcome) := Send(m, policy, prio, t, v, wait);
            && (outcome == Done <==> |m.mails| < m.size)
            && (outcome == Done ==>
                  && n.sent == m.sent + [v] && n.received == m.received && n.senders == m.senders
                  && FirstResumed(m.receivers, n.receivers, m.wokenReceivers, n.wokenReceivers, policy, prio))
            && (outcome == Waits <==> |m.mails| == m.size && wait) && (outcome == Waits <==> t in n.senders.list)
            && (outcome == Waits ==>
                  t in n.pending && n.pending[t] == v && n.sent == m.sent && n.received == m.received)
            && (outcome == Refused <==> |m.mails| == m.size && !wait) && (outcome == Refused ==> n == m)
  {
    hide Fair, FirstResumed, Place;
    ResumedFirst(m.receivers, m.wokenReceivers, policy, prio);
    EnqueueElements(m.senders.list, policy, prio, t);
    if m.receivers.list == [] {
      NobodyResumed(m.receivers, m.wokenReceivers, policy, prio);
    }
  }

  lemma NobodyResumed(w: Waiters, woken: set<nat>, policy: Policy, prio: Keys)
    requires w.list == []
    ensures FirstResumed(w, w, woken, woken, policy, prio)
  {
  }

  /** A receive gets the oldest mail not received yet, exactly when there is one, and resumes a sender. */
  lemma ReceiveGives(m: State, policy: Policy, prio: Keys, t: nat, wait: bool)
    requires Inv(m, policy, prio) && t !in m.receivers.list
    ensures var (n, outcome) := Receive(m, policy, prio, t, wait);
            && (outcome.Got? <==> |m.received| < |m.sent|)
            && (outcome.Got? ==>
                  && outcome.mail == m.sent[|m.received|] && n.received == m.received + [outcome.mail]
                  && n.sent == m.sent && n.receivers == m.receivers
                  && FirstResumed(m.senders, n.senders, m.wokenSenders, n.wokenSenders, policy, prio))
            && (outcome == Waits <==> m.mails == [] && wait) && (outcome == Waits <==> t in n.receivers.list)
            && (outcome == Waits ==> n.sent == m.sent && n.received == m.received)
            && (outcome == Refused <==> m.mails == [] && !wait) && (outcome == Refused ==> n == m)
  {
    hide Fair, FirstResumed, Place;
    ResumedFirst(m.senders, m.wokenSenders, policy, prio);
    EnqueueElements(m.receivers.list, policy, prio, t);
    if m.senders.list == [] {
      NobodyResumed(m.senders, m.wokenSenders, policy, prio);
    }
  }

  /** A resumed thread goes on as if it had just called, a sender with the mail it came with. */
  lemma AgainGives(m: State, policy: Policy, prio: Keys, t: nat, wait: bool)
    requires Inv(m, policy, prio)
    ensures t in m.wokenSenders ==>
              && t in m.pending
              && SendAgain(m, policy, prio, t, wait) ==
                 Send(m.(wokenSenders := m.wokenSenders - {t}), policy, prio, t, m.pending[t], wait)
              && (SendAgain(m, policy, prio, t, wait).1 == Done ==>
                    SendAgain(m, policy, prio, t, wait).0.sent == m.sent + [m.pending[t]])
    ensures t in m.wokenReceivers ==>
              var (n, outcome) := ReceiveAgain(m, policy, prio, t, wait);
              && t !in n.wokenReceivers && (outcome.Got? <==> |m.received| < |m.sent|)
              && (outcome.Got? ==> outcome.mail == m.sent[|m.received|] && n.received == m.received + [outcome.mail])
  {
    hide Fair;
  }

  /** A timeout takes one thread out of the lists, a reset all of them, and all mails. */
  lemma QuitGives(m: State, t: nat)
    ensures var n := Timeout(m, t);
            && n.(receivers := m.receivers, senders := m.senders) == m
            && (forall u :: u in n.receivers.list <==> u != t && u in m.receivers.list)
            && (forall u :: u in n.senders.list <==> u != t && u in m.senders.list)
    ensures var n := Reset(m);
            && n.mails == [] && n.sent == [] && n.received == [] && n.receivers.list == [] && n.senders.list == []
            && n.wokenReceivers == m.wokenReceivers && n.wokenSenders == m.wokenSenders && n.pending == m.pending
  {
    hide Remove;
    forall u
      ensures u in Remove(m.receivers.list, t) <==> u != t && u in m.receivers.list
      ensures u in Remove(m.senders.list, t) <==> u != t && u in m.senders.list
    {
      RemoveElements(m.receivers.list, t, u);
      RemoveElements(m.senders.list, t, u);
    }
  }

  datatype Op =
    | DoSend(t: nat, v: nat, wait: bool)
    | DoReceive(t: nat, wait: bool)
    | DoSendAgain(t: nat, wait: bool)
    | DoReceiveAgain(t: nat, wait: bool)
    | DoTimeout(t: nat)
    | DoReset

  /** The thread is in the middle of a call. */
  predicate Busy(m: State, t: nat) {
    t in m.receivers.list || t in m.senders.list || t in m.wokenReceivers || t in m.wokenSenders
  }

  ghost function Step(m: State, policy: Policy, prio: Keys, op: Op): (n: State)
    requires Inv(m, policy, prio)
    ensures Inv(n, policy, prio)
  {
    match op
    case DoSend(t, v, wait) =>
      if Busy(m, t) then m
      else
        SendInv(m, policy, prio, t, v, wait);
        Send(m, policy, prio, t, v, wait).0
    case DoReceive(t, wait) =>
      if Busy(m, t) then m
      else
        ReceiveInv(m, policy, prio, t, wait);
        Receive(m, policy, prio, t, wait).0
    case DoSendAgain(t, wait) =>
      if t !in m.wokenSenders then m
      else
        SendAgainInv(m, policy, prio, t, wait);
        SendAgain(m, policy, prio, t, wait).0
    case DoReceiveAgain(t, wait) =>
      if t !in m.wokenReceivers then m
      else
        ReceiveAgainInv(m, policy, prio, t, wait);
        ReceiveAgain(m, policy, prio, t, wait).0
    case DoTimeout(t) =>
      TimeoutInv(m, policy, prio, t);
      Timeout(m, t)
    case DoReset =>
      ResetInv(m, policy, prio);
      Reset(m)
  }

  /** Every reachable state, whatever the order in which threads run. */
  ghost function RunAll(size: nat, policy: Policy, prio: Keys, ops: seq<Op>): (m: State)
    ensures Inv(m, policy, prio)
  {
    if ops == [] then Init(size) else Step(RunAll(size, policy, prio, ops[..|ops| - 1]), policy, prio, ops[|ops| - 1])
  }

  /** A call, or a thread whose priority `rt_thread_control` changes. */
  datatype Happening = Call(op: Op) | Change(t: nat, p: nat)

  /** The invariant holds at every point of a run in which priorities change. */
  ghost predicate Keeps(m: State, policy: Policy, prio: Keys, events: seq<Happening>)
    decreases |events|
  {
    && Inv(m, policy, prio)
    && (events == [] ||
        match events[0]
        case Call(op) => Keeps(Step(m, policy, prio, op), policy, prio, events[1..])
        case Change(t, p) => Keeps(m, policy, prio[t := p], events[1..]))
  }

  /** At every change the thread stays in order with its neighbours in the lists. */
  ghost predicate Orderly(m: State, policy: Policy, prio: Keys, events: seq<Happening>)
    requires Inv(m, policy, prio)
    decreases |events|
  {
    events == [] ||
    match events[0]
    case Call(op) => Orderly(Step(m, policy, prio, op), policy, prio, events[1..])
    case Change(t, p) =>
      && StaysFair(m.receivers, policy, prio, t, p)
      && StaysFair(m.senders, policy, prio, t, p)
      && (ChangeInv(m, policy, prio, t, p);
          Orderly(m, policy, prio[t := p], events[1..]))
  }

  lemma ChangeInv(m: State, policy: Policy, prio: Keys, t: nat, p: nat)
    requires Inv(m, policy, prio)
    ensures Inv(m, policy, prio[t := p]) <==>
            StaysFair(m.receivers, policy, prio, t, p) && StaysFair(m.senders, policy, prio, t, p)
  {
    hide Fair, StaysFair, Queued, Awake, Apart;
    StaysFairExact(m.receivers, policy, prio, t, p);
    StaysFairExact(m.senders, policy, prio, t, p);
  }

  /** Runs in which priorities change keep the invariant exactly when every change is orderly. */
  lemma {:induction false} RunChanges(m: State, policy: Policy, prio: Keys, events: seq<Happening>)
    requires Inv(m, policy, prio)
    ensures Keeps(m, policy, prio, events) <==> Orderly(m, policy, prio, events)
    decreases |events|
  {
    hide Inv, Step, StaysFair;
    if events != [] {
      match events[0]
      case Call(op) => RunChanges(Step(m, policy, prio, op), policy, prio, events[1..]);
      case Change(t, p) =>
        ChangeInv(m, policy, prio, t, p);
        if StaysFair(m.receivers, policy, prio, t, p) && StaysFair(m.senders, policy, prio, t, p) {
          RunChanges(m, policy, prio[t := p], events[1..]);
        }
    }
  }
}

/** The mailbox object: a ring buffer with two offsets, changed in place. */
module Mailbox {
  import opened Seqs
  import opened Ordered
  import opened WaitList
  import Spec = MailboxSpec
  import opened MailboxSpec

  /** The mails in a ring of slots, from offset `out` on. */
  function Ring(pool: seq<nat>, out: nat, entry: nat): seq<nat>
    requires out <= |pool| && entry <= |pool|
  {
    if out + entry <= |pool| then pool[out..out + entry] else pool[out..] + pool[..out + entry - |pool|]
  }

  /** Where the next mail goes. */
  function End(size: nat, out: nat, entry: nat): nat {
    if out + entry < size then out + entry else out + entry - size
  }

  lemma RingAt(pool: seq<nat>, out: nat, entry: nat)
    requires out <= |pool| && entry <= |pool|
    ensures |Ring(pool, out, entry)| == entry
    ensures forall i :: 0 <= i < entry ==>
            End(|pool|, out, i) < |pool| && Ring(pool, out, entry)[i] == pool[End(|pool|, out, i)]
  {
  }

  lemma RingPut(pool: seq<nat>, out: nat, entry: nat, v: nat)
    requires out < |pool| && entry < |pool|
    ensures var i := End(|pool|, out, entry);
            i < |pool| && Ring(pool[i := v], out, entry + 1) == Ring(pool, out, entry) + [v]
  {
    hide Ring;
    var k := End(|pool|, out, entry);
    RingAt(pool, out, entry);
    RingAt(pool[k := v], out, entry + 1);
    var a, b := Ring(pool[k := v], out, entry + 1), Ring(pool, out, entry) + [v];
    assert |a| == |b| && forall i :: 0 <= i < |a| ==> a[i] == b[i];
  }

  lemma RingGet(pool: seq<nat>, out: nat, entry: nat)
    requires out < |pool| && 0 < entry <= |pool|
    ensures var next := if out + 1 >= |pool| then 0 else out + 1;
            && Ring(pool, out, entry) == [pool[out]] + Ring(pool, next, entry - 1)
            && End(|pool|, next, entry - 1) == End(|pool|, out, entry)
  {
    hide Ring;
    var next := if out + 1 >= |pool| then 0 else out + 1;
    RingAt(pool, out, entry);
    RingAt(pool, next, entry - 1);
    var a, b := Ring(pool, out, entry), [pool[out]] + Ring(pool, next, entry - 1);
    forall i | 0 <= i < |a| ensures a[i] == b[i] {
      assert 0 < i ==> End(|pool|, next, i - 1) == End(|pool|, out, i);
    }
    assert |a| == |b|;
  }

  class Mailbox {
    const policy: Policy
    const pool: array<nat>  // msg_pool
    var entry: nat
    var inOffset: nat
    var outOffset: nat
    var receivers: seq<nat> // suspend_thread
    var senders: seq<nat>   // suspend_sender_thread
    ghost var view: Spec.State

    /** The fields agree with the state they stand for; the ring buffer holds its queue. */
    ghost predicate Stored()
      reads this, pool
    {
      && entry <= pool.Length && outOffset <= pool.Length && inOffset == End(pool.Length, outOffset, entry)
      && (0 < pool.Length ==> outOffset < pool.Length && inOffset < pool.Length)
      && view.size == pool.Length && view.mails == Ring(pool[..], outOffset, entry)
      && view.receivers.list == receivers && view.senders.list == senders
    }

    ghost predicate Valid(prio: Keys)
      reads this, pool
    {
      Stored() && Inv(view, policy, prio)
    }

    constructor (size: nat, policy: Policy, ghost prio: Keys)
      ensures Valid(prio) && view == Spec.Init(size) && this.policy == policy && fresh(pool)
    {
      this.policy := policy;
      pool := new nat[size];
      entry, inOffset, outOffset, receivers, senders := 0, 0, 0, [], [];
      view := Spec.Init(size);
    }

    /** Store a mail at the end of the ring and resume a receiver. */
    method Store(v: nat)
      requires Stored() && entry < pool.Length
      modifies this, pool
      ensures Stored() && view == Put(old(view), v)
    {
      hide Ring;
      RingPut(pool[..], outOffset, entry, v);
      pool[inOffset] := v;
      assert pool[..] == old(pool[..])[old(inOffset) := v];
      inOffset := inOffset + 1;
      if inOffset >= pool.Length {
        inOffset := 0;
      }
      entry := entry + 1;
      if receivers != [] {
        receivers := receivers[1..];
      }
      view := Put(view, v);
    }

    /** Take the mail at the front of the ring and resume a sender. */
    method Fetch() returns (v: nat)
      requires Stored() && 0 < entry
      modifies this
      ensures Stored() && old(view).mails != [] && v == old(view).mails[0] && view == Get(old(view))
    {
      hide Ring;
      RingGet(pool[..], outOffset, entry);
      v := pool[outOffset];
      outOffset := outOffset + 1;
      if outOffset >= pool.Length {
        outOffset := 0;
      }
      entry := entry - 1;
      if senders != [] {
        senders := senders[1..];
      }
      view := Get(view);
    }

    /** `rt_mb_send_wait`, when it is called. */
    method Send(t: nat, v: nat, wait: bool, prio: Keys) returns (outcome: Outcome)
      requires Valid(prio) && t !in senders && t !in view.wokenSenders
      modifies this, pool
      ensures Valid(prio) && (view, outcome) == Spec.Send(old(view), policy, prio, t, v, wait)
    {
      hide Inv, Ring, Spec.Send;
      SendInv(view, policy, prio, t, v, wait);
      outcome := TrySend(t, v, wait, prio);
    }

    /** `rt_mb_send_wait`, when a sender that was resumed runs. */
    method SendAgain(t: nat, v: nat, wait: bool, prio: Keys) returns (outcome: Outcome)
      requires Valid(prio) && t in view.wokenSenders && t in view.pending && view.pending[t] == v
      modifies this, pool
      ensures Valid(prio) && (view, outcome) == Spec.SendAgain(old(view), policy, prio, t, wait)
    {
      hide Inv, Ring, Spec.Send;
      SendAgainInv(view, policy, prio, t, wait);
      view := view.(wokenSenders := view.wokenSenders - {t});
      outcome := TrySend(t, v, wait, prio);
    }

    method TrySend(t: nat, v: nat, wait: bool, prio: Keys) returns (outcome: Outcome)
      requires Stored()
      modifies this, pool
      ensures Stored() && (view, outcome) == Spec.Send(old(view), policy, prio, t, v, wait)
    {
      hide Ring, Put;
      RingAt(pool[..], outOffset, entry);
      if entry == pool.Length {
        if !wait {
          return Refused;
        }
        senders := Suspend(senders, policy, prio, t);
        view := Spec.Send(view, policy, prio, t, v, wait).0;
        return Waits;
      }
      Store(v);
      return Done;
    }

    /** `rt_mb_recv`, when it is called. */
    method Receive(t: nat, wait: bool, prio: Keys) returns (outcome: Outcome)
      requires Valid(prio) && t !in receivers && t !in view.wokenReceivers
      modifies this
      ensures Valid(prio) && (view, outcome) == Spec.Receive(old(view), policy, prio, t, wait)
    {
      hide Inv, Ring, Spec.Receive;
      ReceiveInv(view, policy, prio, t, wait);
      outcome := TryReceive(t, wait, prio);
    }

    /** `rt_mb_recv`, when a receiver that was resumed runs. */
    method ReceiveAgain(t: nat, wait: bool, prio: Keys) returns (outcome: Outcome)
      requires Valid(prio) && t in view.wokenReceivers
      modifies this
      ensures Valid(prio) && (view, outcome) == Spec.ReceiveAgain(old(view), policy, prio, t, wait)
    {
      hide Inv, Ring, Spec.Receive;
      ReceiveAgainInv(view, policy, prio, t, wait);
      view := view.(wokenReceivers := view.wokenReceivers - {t});
      outcome := TryReceive(t, wait, prio);
    }

    method TryReceive(t: nat, wait: bool, prio: Keys) returns (outcome: Outcome)
      requires Stored()
      modifies this
      ensures Stored() && (view, outcome) == Spec.Receive(old(view), policy, prio, t, wait)
    {
      hide Ring, Get;
      RingAt(pool[..], outOffset, entry);
      if entry == 0 {
        if !wait {
          return Refused;
        }
        receivers := Suspend(receivers, policy, prio, t);
        view := Spec.Receive(view, policy, prio, t, wait).0;
        return Waits;
      }
      var v := Fetch();
      return Got(v);
    }

    method Timeout(t: nat, ghost prio: Keys)
      requires Valid(prio)
      modifies `receivers, `senders, `view
      ensures Valid(prio) && view == Spec.Timeout(old(view), t)
    {
      hide Inv, Ring;
      TimeoutInv(view, policy, prio, t);
      receivers := Remove(receivers, t);
      senders := Remove(senders, t);
      view := Spec.Timeout(view, t);
    }

    /** All waiting threads are resumed with an error, and the mails are dropped. */
    method Reset(ghost prio: Keys) returns (failed: seq<nat>)
      requires Valid(prio)
      modifies this
      ensures Valid(prio) && view == Spec.Reset(old(view)) && failed == old(receivers) + old(senders)
    {
      hide Inv;
      ResetInv(view, policy, prio);
      failed := receivers + senders;
      receivers, senders := [], [];
      entry, inOffset, outOffset := 0, 0, 0;
      view := Spec.Reset(view);
    }
  }
}
