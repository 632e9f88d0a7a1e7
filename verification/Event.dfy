/**
 The event object of `ipc.c`: 32 flags, and threads that wait for all or for any of some
 flags and may clear the flags they receive.
 */
module EventSpec {
  import opened Seqs
  import opened Ordered
  import opened WaitList

  /** A word of flags, as the set of its bits that are one. */
  type Flags = set<nat>

  /** What a thread waits for: `event_set` and the options in `event_info`. */
  datatype Want = Want(flags: Flags, all: bool, clear: bool)

  /** `wants` has an entry for each waiting thread. */
  datatype State = State(flags: Flags, waiters: Waiters, wants: map<nat, Want>)

  datatype Outcome = Received(got: Flags) | Refused | Waits

  function Init(): State {
    State({}, Empty(), map[])
  }

  predicate Satisfied(flags: Flags, w: Want) {
    if w.all then w.flags <= flags else flags * w.flags != {}
  }

  /** The flags left when a thread has received what it wants. */
  function Left(flags: Flags, w: Want): Flags {
    if w.clear then flags - w.flags else flags
  }

  function WantOf(wants: map<nat, Want>, t: nat): Want {
    if t in wants then wants[t] else Want({}, false, false)
  }

  /** `rt_event_recv` by thread `t`. */
  function Receive(e: State, policy: Policy, prio: Keys, t: nat, w: Want, wait: bool): (State, Outcome) {
    if w.flags == {} then (e, Refused)
    else if Satisfied(e.flags, w) then (e.(flags := Left(e.flags, w)), Received(e.flags * w.flags))
    else if !wait then (e, Refused)
    else (e.(waiters := Enqueue(e.waiters, policy, prio, t), wants := e.wants[t := w]), Waits)
  }

  /** The walk of `rt_event_send` over the list: flags left, threads that stay, threads resumed with what they got. */
  function Walk(flags: Flags, list: seq<nat>, wants: map<nat, Want>): (Flags, seq<nat>, seq<(nat, Flags)>)
    decreases list
  {
    if list == [] then (flags, [], [])
    else
      var t, w := list[0], WantOf(wants, list[0]);
      if w.all then
        if w.flags * flags == w.flags then
          var (f, stay, woken) := Walk(if w.clear then flags - w.flags else flags, list[1..], wants);
          (f, stay, [(t, w.flags)] + woken)
        else
          var (f, stay, woken) := Walk(flags, list[1..], wants);
          (f, [t] + stay, woken)
      else
        if w.flags * flags != {} then
          var got := w.flags * flags;
          var (f, stay, woken) := Walk(if w.clear then flags - got else flags, list[1..], wants);
          (f, stay, [(t, got)] + woken)
        else
          var (f, stay, woken) := Walk(flags, list[1..], wants);
          (f, [t] + stay, woken)
  }

  /** `rt_event_send`. */
  function Send(e: State, flags: Flags): (State, seq<(nat, Flags)>) {
    if flags == {} then (e, [])
    else
      var (f, stay, woken) := Walk(e.flags + flags, e.waiters.list, e.wants);
      (e.(flags := f, waiters := e.waiters.(list := stay)), woken)
  }

  function Timeout(e: State, t: nat): State {
    e.(waiters := Drop(e.waiters, t))
  }

  /** `rt_event_control` with `RT_IPC_CMD_RESET`. */
  function Reset(e: State): State {
    e.(flags := {}, waiters := e.waiters.(list := []))
  }

  /** No thread waits for something that is there. */
  ghost predicate Quiet(flags: Flags, list: seq<nat>, wants: map<nat, Want>) {
    forall t :: t in list ==> t in wants && wants[t].flags != {} && !Satisfied(flags, wants[t])
  }

  ghost predicate Inv(e: State, policy: Policy, prio: Keys) {
    Fair(e.waiters, policy, prio) && Quiet(e.flags, e.waiters.list, e.wants)
  }

  // ---------------------------------------------------------------------------------
  // The walk is a series of immediate receives
  // ---------------------------------------------------------------------------------

  /** Each thread in turn receives at once what it wants from the flags the others left, or stays. */
  function Serve(flags: Flags, list: seq<nat>, wants: map<nat, Want>): (Flags, seq<nat>, seq<(nat, Flags)>)
    decreases list
  {
    if list == [] then (flags, [], [])
    else
      var t, w := list[0], WantOf(wants, list[0]);
      if Satisfied(flags, w) then
        var (f, stay, woken) := Serve(Left(flags, w), list[1..], wants);
        (f, stay, [(t, flags * w.flags)] + woken)
      else
        var (f, stay, woken) := Serve(flags, list[1..], wants);
        (f, [t] + stay, woken)
  }

  lemma SameFlags(flags: Flags, want: Flags)
    ensures flags - want * flags == flags - want && want * flags == flags * want
    ensures want * flags == want <==> want <= flags
  {
  }

  /** A resumed thread gets, and clears, what an immediate receive at that point would. */
  lemma {:induction false} WalkServes(flags: Flags, list: seq<nat>, wants: map<nat, Want>)
    ensures Walk(flags, list, wants) == Serve(flags, list, wants)
    decreases list
  {
    if list != [] {
      var w := WantOf(wants, list[0]);
      SameFlags(flags, w.flags);
      WalkServes(Left(flags, w), list[1..], wants);
      WalkServes(flags, list[1..], wants);
    }
  }

  /** With fewer flags no more threads are satisfied. */
  lemma FewerSatisfied(a: Flags, b: Flags, w: Want)
    requires a <= b && !Satisfied(b, w)
    ensures !Satisfied(a, w)
  {
    assert a * w.flags <= b * w.flags;
  }

  /** Flags are only cleared on the way, and those who stay have nothing to receive. */
  lemma {:induction false} ServeQuiet(flags: Flags, list: seq<nat>, wants: map<nat, Want>, x: nat)
    ensures var (f, stay, woken) := Serve(flags, list, wants);
            f <= flags && (x in stay ==> x in list && !Satisfied(f, WantOf(wants, x)))
    decreases list
  {
    hide Satisfied, WantOf;
    if list != [] {
      var w := WantOf(wants, list[0]);
      if Satisfied(flags, w) {
        ServeQuiet(Left(flags, w), list[1..], wants, x);
      } else {
        ServeQuiet(flags, list[1..], wants, x);
        FewerSatisfied(Serve(flags, list[1..], wants).0, flags, w);
      }
    }
  }

  /** Threads stay in their order; each one either stays or is resumed, once. */
  lemma {:induction false} ServeStays(flags: Flags, list: seq<nat>, wants: map<nat, Want>, w: Waiters, policy: Policy,
                                      prio: Keys)
    requires Fair(w.(list := list), policy, prio)
    ensures var (f, stay, woken) := Serve(flags, list, wants);
            Fair(w.(list := stay), policy, prio) && forall t :: t in stay ==> t in list
    decreases list
  {
    hide Satisfied, Left, WantOf, Fair;
    if list != [] {
      TailFair(w, list, policy, prio);
      var x := WantOf(wants, list[0]);
      if Satisfied(flags, x) {
        ServeStays(Left(flags, x), list[1..], wants, w, policy, prio);
      } else {
        ServeStays(flags, list[1..], wants, w, policy, prio);
        PushFair(w, list, Serve(flags, list[1..], wants).1, policy, prio);
      }
    }
  }

  lemma TailFair(w: Waiters, list: seq<nat>, policy: Policy, prio: Keys)
    requires Fair(w.(list := list), policy, prio) && list != []
    ensures Fair(w.(list := list[1..]), policy, prio)
  {
    hide Remove;
    FirstFair(w.(list := list), policy, prio);
  }

  lemma PushFair(w: Waiters, list: seq<nat>, stay: seq<nat>, policy: Policy, prio: Keys)
    requires Fair(w.(list := list), policy, prio) && list != [] && Fair(w.(list := stay), policy, prio)
    requires forall t :: t in stay ==> t in list[1..]
    ensures Fair(w.(list := [list[0]] + stay), policy, prio)
  {
    hide At;
    var l := [list[0]] + stay;
    forall i, j | 0 <= i < j < |l| ensures l[i] != l[j] && Before(policy, prio, w.ticket, l[i], l[j]) {
      if i == 0 {
        assert l[j] == stay[j - 1] && l[j] in list[1..];
        var k :| 0 <= k < |list[1..]| && list[1..][k] == l[j];
        assert list[k + 1] == l[j];
      } else {
        assert l[i] == stay[i - 1] && l[j] == stay[j - 1];
      }
    }
  }

  /** What the resumed threads got: part of what they want, and enough of it. */
  lemma {:induction false} ServeGot(flags: Flags, list: seq<nat>, wants: map<nat, Want>, p: (nat, Flags))
    requires p in Serve(flags, list, wants).2
    ensures p.0 in list && p.1 <= WantOf(wants, p.0).flags && Satisfied(p.1, WantOf(wants, p.0))
    decreases list
  {
    hide WantOf;
    var w := WantOf(wants, list[0]);
    if Satisfied(flags, w) {
      if p != (list[0], flags * w.flags) {
        ServeGot(Left(flags, w), list[1..], wants, p);
      } else {
        assert flags * w.flags * w.flags == flags * w.flags;
      }
    } else {
      ServeGot(flags, list[1..], wants, p);
    }
  }

  // ---------------------------------------------------------------------------------
  // What the calls answer
  // ---------------------------------------------------------------------------------

  /** The flags that the threads of `woken` cleared. */
  function ClearedBy(woken: seq<(nat, Flags)>, wants: map<nat, Want>): Flags {
    if woken == [] then {}
    else
      var w := WantOf(wants, woken[0].0);
      (if w.clear then w.flags else {}) + ClearedBy(woken[1..], wants)
  }

  lemma {:induction false} ClearedBits(woken: seq<(nat, Flags)>, wants: map<nat, Want>, b: nat)
    ensures b in ClearedBy(woken, wants) <==>
            exists i :: 0 <= i < |woken| && WantOf(wants, woken[i].0).clear && b in WantOf(wants, woken[i].0).flags
  {
    hide WantOf;
    if woken != [] {
      ClearedBits(woken[1..], wants, b);
      var rest := woken[1..];
      if i :| 0 <= i < |rest| && WantOf(wants, rest[i].0).clear && b in WantOf(wants, rest[i].0).flags {
        assert woken[i + 1] == rest[i];
      }
      if i :| 0 < i < |woken| && WantOf(wants, woken[i].0).clear && b in WantOf(wants, woken[i].0).flags {
        assert rest[i - 1] == woken[i];
      }
    }
  }

  /** The turn of a thread that is resumed as number `i`: it is satisfied, and gets what it wants of what is left. */
  ghost predicate Turn(flags: Flags, wants: map<nat, Want>, woken: seq<(nat, Flags)>, i: nat)
    requires i < |woken|
  {
    var left, w := flags - ClearedBy(woken[..i], wants), WantOf(wants, woken[i].0);
    Satisfied(left, w) && woken[i].1 == left * w.flags
  }

  /** The turn of a thread that stays, after the first `k` that are resumed: it is not satisfied. */
  ghost predicate Passed(flags: Flags, list: seq<nat>, wants: map<nat, Want>, woken: seq<(nat, Flags)>, t: nat, k: nat)
    requires k <= |woken|
  {
    && (forall i :: 0 <= i < k ==> Find(list, woken[i].0) < Find(list, t))
    && (forall i :: k <= i < |woken| ==> Find(list, t) < Find(list, woken[i].0))
    && !Satisfied(flags - ClearedBy(woken[..k], wants), WantOf(wants, t))
  }

  function Names(woken: seq<(nat, Flags)>): seq<nat> {
    if woken == [] then [] else [woken[0].0] + Names(woken[1..])
  }

  /** Threads have their turns in the order of the list; each one stays or is resumed. */
  ghost predicate Served(flags: Flags, list: seq<nat>, wants: map<nat, Want>, f: Flags, stay: seq<nat>,
                         woken: seq<(nat, Flags)>) {
    && f == flags - ClearedBy(woken, wants)
    && multiset(stay) + multiset(Names(woken)) == multiset(list)
    && (forall i, j :: 0 <= i < j < |woken| ==> Find(list, woken[i].0) < Find(list, woken[j].0))
    && (forall i :: 0 <= i < |woken| ==> woken[i].0 in list && Turn(flags, wants, woken, i))
    && (forall t :: t in stay ==> t in list && exists k :: 0 <= k <= |woken| && Passed(flags, list, wants, woken, t, k))
  }

  lemma {:induction false} ServeServed(flags: Flags, list: seq<nat>, wants: map<nat, Want>)
    requires NoDup(list)
    ensures var (f, stay, woken) := Serve(flags, list, wants); Served(flags, list, wants, f, stay, woken)
    decreases list
  {
    hide Satisfied, WantOf, NoDup, Served;
    if list == [] {
      NoneServed(flags, wants);
    } else {
      DropNoDup(list);
      var w := WantOf(wants, list[0]);
      if Satisfied(flags, w) {
        ServeServed(Left(flags, w), list[1..], wants);
        var (f, stay, woken) := Serve(Left(flags, w), list[1..], wants);
        HeadServed(flags, list, wants, f, stay, woken);
      } else {
        ServeServed(flags, list[1..], wants);
        var (f, stay, woken) := Serve(flags, list[1..], wants);
        HeadStays(flags, list, wants, f, stay, woken);
      }
    }
  }

  lemma NoneServed(flags: Flags, wants: map<nat, Want>)
    ensures Served(flags, [], wants, flags, [], [])
  {
  }

  lemma FindTail(list: seq<nat>, t: nat)
    requires list != [] && NoDup(list) && t in list[1..]
    ensures t != list[0] && Find(list, t) == 1 + Find(list[1..], t)
  {
  }

  /** What is left after the head of the list and some others. */
  lemma HeadCleared(flags: Flags, wants: map<nat, Want>, x: (nat, Flags), woken: seq<(nat, Flags)>, i: nat)
    requires i <= |woken|
    ensures flags - ClearedBy(([x] + woken)[..i + 1], wants) ==
            Left(flags, WantOf(wants, x.0)) - ClearedBy(woken[..i], wants)
  {
    hide WantOf;
    assert ([x] + woken)[..i + 1] == [x] + woken[..i];
    assert ([x] + woken[..i])[1..] == woken[..i];
  }

  lemma HeadTurns(flags: Flags, wants: map<nat, Want>, t: nat, woken: seq<(nat, Flags)>)
    requires Satisfied(flags, WantOf(wants, t))
    requires forall i :: 0 <= i < |woken| ==> Turn(Left(flags, WantOf(wants, t)), wants, woken, i)
    ensures var all := [(t, flags * WantOf(wants, t).flags)] + woken;
            forall i :: 0 <= i < |all| ==> Turn(flags, wants, all, i)
  {
    hide Satisfied, WantOf, Left, ClearedBy;
    var x := (t, flags * WantOf(wants, t).flags);
    var all := [x] + woken;
    forall i | 0 <= i < |all| ensures Turn(flags, wants, all, i) {
      if 0 < i {
        assert Turn(Left(flags, WantOf(wants, t)), wants, woken, i - 1);
        HeadCleared(flags, wants, x, woken, i - 1);
      } else {
        NothingCleared(flags, wants);
        assert all[..0] == [];
      }
    }
  }

  lemma NothingCleared(flags: Flags, wants: map<nat, Want>)
    ensures flags - ClearedBy([], wants) == flags
  {
  }

  lemma HeadServed(flags: Flags, list: seq<nat>, wants: map<nat, Want>, f: Flags, stay: seq<nat>,
                   woken: seq<(nat, Flags)>)
    requires list != [] && NoDup(list) && Satisfied(flags, WantOf(wants, list[0]))
    requires Served(Left(flags, WantOf(wants, list[0])), list[1..], wants, f, stay, woken)
    ensures Served(flags, list, wants, f, stay, [(list[0], flags * WantOf(wants, list[0]).flags)] + woken)
  {
    hide Satisfied, WantOf, NoDup, Turn, Passed, Left, ClearedBy, Find;
    var w, x := WantOf(wants, list[0]), (list[0], flags * WantOf(wants, list[0]).flags);
    var all := [x] + woken;
    HeadTurns(flags, wants, list[0], woken);
    HeadCleared(flags, wants, x, woken, |woken|);
    assert all[..|woken| + 1] == all && woken[..|woken|] == woken && all[1..] == woken;
    assert list == [list[0]] + list[1..];
    FindHead(list);
    forall i | 0 <= i < |woken| ensures Find(list, woken[i].0) == 1 + Find(list[1..], woken[i].0) {
      FindTail(list, woken[i].0);
    }
    forall t | t in stay ensures t in list && exists k :: 0 <= k <= |all| && Passed(flags, list, wants, all, t, k) {
      var k :| 0 <= k <= |woken| && Passed(Left(flags, w), list[1..], wants, woken, t, k);
      HeadPassed(flags, list, wants, woken, x, t, k);
    }
  }

  lemma FindHead(list: seq<nat>)
    requires list != []
    ensures Find(list, list[0]) == 0
  {
  }

  lemma HeadPassed(flags: Flags, list: seq<nat>, wants: map<nat, Want>, woken: seq<(nat, Flags)>, x: (nat, Flags),
                   t: nat, k: nat)
    requires list != [] && x.0 == list[0] && k <= |woken| && t in list[1..] && NoDup(list)
    requires forall i :: 0 <= i < |woken| ==> woken[i].0 in list[1..]
    requires Passed(Left(flags, WantOf(wants, list[0])), list[1..], wants, woken, t, k)
    ensures Passed(flags, list, wants, [x] + woken, t, k + 1)
  {
    hide Satisfied, WantOf, NoDup, Left, ClearedBy, Find;
    FindHead(list);
    FindTail(list, t);
    forall i | 0 <= i < |woken| ensures Find(list, woken[i].0) == 1 + Find(list[1..], woken[i].0) {
      FindTail(list, woken[i].0);
    }
    HeadCleared(flags, wants, x, woken, k);
  }

  lemma HeadStays(flags: Flags, list: seq<nat>, wants: map<nat, Want>, f: Flags, stay: seq<nat>,
                  woken: seq<(nat, Flags)>)
    requires list != [] && NoDup(list) && !Satisfied(flags, WantOf(wants, list[0]))
    requires Served(flags, list[1..], wants, f, stay, woken)
    ensures Served(flags, list, wants, f, [list[0]] + stay, woken)
  {
    hide Satisfied, WantOf, NoDup, Turn, ClearedBy, Find;
    assert list == [list[0]] + list[1..];
    FindHead(list);
    forall i | 0 <= i < |woken| ensures Find(list, woken[i].0) == 1 + Find(list[1..], woken[i].0) {
      FindTail(list, woken[i].0);
    }
    forall t | t in [list[0]] + stay
      ensures t in list && exists k :: 0 <= k <= |woken| && Passed(flags, list, wants, woken, t, k)
    {
      if t in stay {
        var k :| 0 <= k <= |woken| && Passed(flags, list[1..], wants, woken, t, k);
        FindTail(list, t);
        assert Passed(flags, list, wants, woken, t, k);
      } else {
        NothingCleared(flags, wants);
        assert woken[..0] == [];
        assert Passed(flags, list, wants, woken, t, 0);
      }
    }
  }

  /**
   What a send does: a flag is set afterwards exactly if it was set or sent and no resumed thread cleared it. The
   waiting threads have their turns in the order of the list: each is resumed, once, exactly if the flags left to it
   satisfy it, and gets those of them it wants.
   */
  lemma SendGives(e: State, policy: Policy, prio: Keys, flags: Flags)
    requires Inv(e, policy, prio)
    ensures var (v, woken) := Send(e, flags);
            && (forall b: nat :: b in v.flags <==>
                  && (b in e.flags || b in flags)
                  && !exists i :: 0 <= i < |woken| && WantOf(e.wants, woken[i].0).clear
                                  && b in WantOf(e.wants, woken[i].0).flags)
            && multiset(v.waiters.list) + multiset(Names(woken)) == multiset(e.waiters.list)
            && (forall i, j :: 0 <= i < j < |woken| ==>
                  Find(e.waiters.list, woken[i].0) < Find(e.waiters.list, woken[j].0))
            && (forall i :: 0 <= i < |woken| ==> Turn(e.flags + flags, e.wants, woken, i))
            && (flags != {} ==> forall t :: t in v.waiters.list ==>
                  exists k :: 0 <= k <= |woken| && Passed(e.flags + flags, e.waiters.list, e.wants, woken, t, k))
            && v.wants == e.wants && v.waiters == e.waiters.(list := v.waiters.list)
  {
    hide Satisfied, Serve, Walk, WantOf, Turn, Passed, Quiet, NoDup, Before;
    var (v, woken) := Send(e, flags);
    if flags != {} {
      WalkServes(e.flags + flags, e.waiters.list, e.wants);
      ServeServed(e.flags + flags, e.waiters.list, e.wants);
    } else {
      assert e.flags + flags == e.flags;
    }
    forall b: nat ensures b in ClearedBy(woken, e.wants) <==>
        exists i :: 0 <= i < |woken| && WantOf(e.wants, woken[i].0).clear && b in WantOf(e.wants, woken[i].0).flags
    {
      ClearedBits(woken, e.wants, b);
    }
  }

  /** What a receive answers, and the flags it leaves. */
  lemma ReceiveGives(e: State, policy: Policy, prio: Keys, t: nat, w: Want, wait: bool)
    requires Inv(e, policy, prio) && t !in e.waiters.list
    ensures var (v, outcome) := Receive(e, policy, prio, t, w, wait);
            && (outcome.Received? <==> w.flags != {} && Satisfied(e.flags, w))
            && (outcome.Received? ==>
                  && (forall b :: b in outcome.got <==> b in e.flags && b in w.flags)
                  && (forall b :: b in v.flags <==> b in e.flags && !(w.clear && b in w.flags))
                  && v.waiters == e.waiters && v.wants == e.wants)
            && (outcome == Waits <==> t in v.waiters.list)
            && (outcome == Waits <==> w.flags != {} && !Satisfied(e.flags, w) && wait)
            && (outcome == Waits ==> v.flags == e.flags && t in v.wants && v.wants[t] == w)
            && (outcome == Refused <==> w.flags == {} || (!Satisfied(e.flags, w) && !wait))
            && (outcome == Refused ==> v == e)
  {
    hide Fair, Place;
    EnqueueElements(e.waiters.list, policy, prio, t);
  }

  /** A timeout takes one thread out of the list, a reset all, and all flags. */
  lemma QuitGives(e: State, t: nat)
    ensures var v := Timeout(e, t);
            && v.(waiters := e.waiters) == e && forall u :: u in v.waiters.list <==> u != t && u in e.waiters.list
    ensures var v := Reset(e); v.flags == {} && v.waiters.list == []
  {
    hide Remove;
    forall u ensures u in Timeout(e, t).waiters.list <==> u != t && u in e.waiters.list {
      RemoveElements(e.waiters.list, t, u);
    }
  }

  // ---------------------------------------------------------------------------------
  // Runs
  // ---------------------------------------------------------------------------------

  lemma ReceiveInv(e: State, policy: Policy, prio: Keys, t: nat, w: Want, wait: bool)
    requires Inv(e, policy, prio) && t !in e.waiters.list
    ensures Inv(Receive(e, policy, prio, t, w, wait).0, policy, prio)
  {
    hide Fair, Place;
    EnqueueFair(e.waiters, policy, prio, t);
    EnqueueElements(e.waiters.list, policy, prio, t);
    if w.flags != {} && Satisfied(e.flags, w) && w.clear {
      forall u | u in e.waiters.list ensures !Satisfied(Left(e.flags, w), e.wants[u]) {
        FewerSatisfied(Left(e.flags, w), e.flags, e.wants[u]);
      }
    }
  }

  lemma SendInv(e: State, policy: Policy, prio: Keys, flags: Flags)
    requires Inv(e, policy, prio)
    ensures Inv(Send(e, flags).0, policy, prio)
  {
    hide Fair, Satisfied, Walk, Serve;
    if flags != {} {
      WalkServes(e.flags + flags, e.waiters.list, e.wants);
      ServeStays(e.flags + flags, e.waiters.list, e.wants, e.waiters, policy, prio);
      forall t | t in Send(e, flags).0.waiters.list ensures !Satisfied(Send(e, flags).0.flags, e.wants[t]) {
        ServeQuiet(e.flags + flags, e.waiters.list, e.wants, t);
      }
    }
  }

  lemma TimeoutInv(e: State, policy: Policy, prio: Keys, t: nat)
    requires Inv(e, policy, prio)
    ensures Inv(Timeout(e, t), policy, prio)
  {
    hide Fair, Remove, Satisfied;
    DropFair(e.waiters, policy, prio, t);
  }

  datatype Op = DoReceive(t: nat, w: Want, wait: bool) | DoSend(flags: Flags) | DoTimeout(t: nat) | DoReset

  ghost function Step(e: State, policy: Policy, prio: Keys, op: Op): (v: State)
    requires Inv(e, policy, prio)
    ensures Inv(v, policy, prio)
  {
    match op
    case DoReceive(t, w, wait) =>
      if t in e.waiters.list then e
      else
        ReceiveInv(e, policy, prio, t, w, wait);
        Receive(e, policy, prio, t, w, wait).0
    case DoSend(flags) =>
      SendInv(e, policy, prio, flags);
      Send(e, flags).0
    case DoTimeout(t) =>
      TimeoutInv(e, policy, prio, t);
      Timeout(e, t)
    case DoReset => Reset(e)
  }

  /** In every reachable state no waiting thread has its condition satisfied. */
  ghost function RunAll(policy: Policy, prio: Keys, ops: seq<Op>): (e: State)
    ensures Inv(e, policy, prio)
  {
    if ops == [] then Init() else Step(RunAll(policy, prio, ops[..|ops| - 1]), policy, prio, ops[|ops| - 1])
  }

  /** A call, or a thread whose priority `rt_thread_control` changes. */
  datatype Happening = Call(op: Op) | Change(t: nat, p: nat)

  /** The invariant holds at every point of a run in which priorities change. */
  ghost predicate Keeps(e: State, policy: Policy, prio: Keys, events: seq<Happening>)
    decreases |events|
  {
    && Inv(e, policy, prio)
    && (events == [] ||
        match events[0]
        case Call(op) => Keeps(Step(e, policy, prio, op), policy, prio, events[1..])
        case Change(t, p) => Keeps(e, policy, prio[t := p], events[1..]))
  }

  /** At every change the thread stays in order with its neighbours in the list. */
  ghost predicate Orderly(e: State, policy: Policy, prio: Keys, events: seq<Happening>)
    requires Inv(e, policy, prio)
    decreases |events|
  {
    events == [] ||
    match events[0]
    case Call(op) => Orderly(Step(e, policy, prio, op), policy, prio, events[1..])
    case Change(t, p) =>
      && StaysFair(e.waiters, policy, prio, t, p)
      && (ChangeInv(e, policy, prio, t, p);
          Orderly(e, policy, prio[t := p], events[1..]))
  }

  lemma ChangeInv(e: State, policy: Policy, prio: Keys, t: nat, p: nat)
    requires Inv(e, policy, prio)
    ensures Inv(e, policy, prio[t := p]) <==> StaysFair(e.waiters, policy, prio, t, p)
  {
    hide Fair, StaysFair, Quiet;
    StaysFairExact(e.waiters, policy, prio, t, p);
  }

  /** Runs in which priorities change keep the invariant exactly when every change is orderly. */
  lemma {:induction false} RunChanges(e: State, policy: Policy, prio: Keys, events: seq<Happening>)
    requires Inv(e, policy, prio)
    ensures Keeps(e, policy, prio, events) <==> Orderly(e, policy, prio, events)
    decreases |events|
  {
    hide Inv, Step, StaysFair;
    if events != [] {
      match events[0]
      case Call(op) => RunChanges(Step(e, policy, prio, op), policy, prio, events[1..]);
      case Change(t, p) =>
        ChangeInv(e, policy, prio, t, p);
        if StaysFair(e.waiters, policy, prio, t, p) {
          RunChanges(e, policy, prio[t := p], events[1..]);
        }
    }
  }
}

/** The event object, changed in place; each call runs with interrupts disabled. */
module Event {
  import opened Seqs
  import opened Ordered
  import opened WaitList
  import Spec = EventSpec
  import opened EventSpec

  class Event {
    const policy: Policy
    var flags: Flags            // event->set
    var list: seq<nat>          // suspend_thread
    var wants: map<nat, Want>   // event_set and event_info of the threads
    ghost var ticket: Keys
    ghost var next: nat

    ghost function View(): Spec.State
      reads this
    {
      Spec.State(flags, Waiters(list, ticket, next), wants)
    }

    constructor (policy: Policy)
      ensures View() == Spec.Init() && this.policy == policy
    {
      this.policy, flags, list, wants := policy, {}, [], map[];
      ticket, next := map[], 0;
    }

    method Receive(t: nat, w: Want, wait: bool, prio: Keys) returns (outcome: Outcome)
      requires Inv(View(), policy, prio) && t !in list
      modifies this
      ensures Inv(View(), policy, prio) && (View(), outcome) == Spec.Receive(old(View()), policy, prio, t, w, wait)
    {
      hide Fair, Quiet;
      ReceiveInv(View(), policy, prio, t, w, wait);
      if w.flags == {} {
        return Refused;
      }
      var ok := false;
      if w.all {
        if flags * w.flags == w.flags {
          ok := true;
        }
      } else if flags * w.flags != {} {
        ok := true;
      }
      assert ok == Satisfied(flags, w) by {
        SameFlags(flags, w.flags);
      }
      if ok {
        outcome := Received(flags * w.flags);
        if w.clear {
          flags := flags - w.flags;
        }
      } else if !wait {
        outcome := Refused;
      } else {
        wants := wants[t := w];
        list := Suspend(list, policy, prio, t);
        ticket, next := ticket[t := next], next + 1;
        outcome := Waits;
      }
    }

    /** `rt_event_send`: walk the list and resume every thread whose condition holds by then. */
    method Send(sent: Flags, prio: Keys) returns (woken: seq<(nat, Flags)>)
      requires Inv(View(), policy, prio)
      modifies this
      ensures Inv(View(), policy, prio) && (View(), woken) == Spec.Send(old(View()), sent)
    {
      hide Inv, Walk, WantOf;
      SendInv(View(), policy, prio, sent);
      woken := [];
      if sent == {} {
        return;
      }
      ghost var e := View();
      flags := flags + sent;
      ghost var f0 := flags;
      var stay, rest := [], list;
      while rest != []
        invariant list == stay + rest && wants == e.wants && ticket == e.waiters.ticket && next == e.waiters.next
        invariant Walk(f0, e.waiters.list, wants).0 == Walk(flags, rest, wants).0
        invariant Walk(f0, e.waiters.list, wants).1 == stay + Walk(flags, rest, wants).1
        invariant Walk(f0, e.waiters.list, wants).2 == woken + Walk(flags, rest, wants).2
        decreases |rest|
      {
        var t, w := rest[0], WantOf(wants, rest[0]);
        WalkStep(flags, rest, wants);
        rest := rest[1..];
        var ok, got := false, w.flags;
        if w.all {
          ok := w.flags * flags == w.flags;
        } else if w.flags * flags != {} {
          got := w.flags * flags;
          ok := true;
        }
        if ok {
          if w.clear {
            flags := flags - got;
          }
          woken := woken + [(t, got)];
          list := stay + rest;
        } else {
          stay := stay + [t];
        }
      }
      WalkStep(flags, rest, wants);
      assert stay + [] == stay && woken + [] == woken;
    }

    method Timeout(t: nat, ghost prio: Keys)
      requires Inv(View(), policy, prio)
      modifies this
      ensures Inv(View(), policy, prio) && View() == Spec.Timeout(old(View()), t)
    {
      TimeoutInv(View(), policy, prio, t);
      list := Remove(list, t);
    }

    /** All waiting threads are resumed with an error, in the order of the list. */
    method Reset() returns (failed: seq<nat>)
      modifies this
      ensures View() == Spec.Reset(old(View())) && failed == old(list)
    {
      failed := [];
      while list != []
        invariant failed + list == old(list) && wants == old(wants) && ticket == old(ticket) && next == old(next)
        decreases |list|
      {
        failed := failed + [list[0]];
        list := list[1..];
      }
      flags := {};
    }
  }

  /** One step of the walk. */
  lemma WalkStep(flags: Flags, list: seq<nat>, wants: map<nat, Want>)
    ensures list == [] ==> Walk(flags, list, wants) == (flags, [], [])
    ensures list != [] ==>
              var t, w := list[0], WantOf(wants, list[0]);
              var got := if w.all then w.flags else w.flags * flags;
              var ok := if w.all then w.flags * flags == w.flags else w.flags * flags != {};
              var left := if ok && w.clear then flags - got else flags;
              var (f, stay, woken) := Walk(left, list[1..], wants);
              Walk(flags, list, wants) == (f, if ok then stay else [t] + stay, if ok then [(t, got)] + woken else woken)
  {
  }
}
