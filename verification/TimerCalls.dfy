/**
 Calls of `rt_timer_start` and `rt_timer_stop` that interrupt each other. Both leave the region with
 interrupts disabled before they are done, so ticks and other calls may come in between, on the same timer too.
 */
module TimerCalls {
  import opened Seqs
  import opened Ordered
  import opened TimerSpec

  /** How far a call has come. A start runs through the first three, a stop through the last two. */
  datatype Call =
    | Began(x: nat)           // out of the list, flag cleared
    | Timed(x: nat, t: nat)   // has read the tick `t`
    | Ended(x: nat)           // has stored the end in the timer
    | Tested(x: nat)          // has found the flag set
    | Unlinked(x: nat)        // out of the list, flag not cleared yet

  /**
   In `wheel` a timer is active while it is linked. A timer in `stale` has its flag set although a stop has
   unlinked it.
   */
  datatype State = State(wheel: Wheel, stale: set<nat>, calls: map<nat, Call>)

  /** `RT_TIMER_FLAG_ACTIVATED`. */
  predicate Flagged(s: State, x: nat) {
    x in s.stale || (x in s.wheel.timers && s.wheel.timers[x].active)
  }

  ghost predicate CallOk(w: Wheel, call: Call) {
    && call.x in w.timers
    && (call.Timed? ==> call.t <= w.now)
    && (call.Ended? ==>
          && w.timers[call.x].timeout == At(w.due, call.x) % WORD
          && At(w.due, call.x) <= w.now + w.timers[call.x].init)
  }

  /** The list is as it should be, and a flag is set exactly for linked timers and those a stop has just unlinked. */
  ghost predicate Whole(s: State, late: nat) {
    && Calm(s.wheel, late)
    && (forall c :: c in s.calls ==> CallOk(s.wheel, s.calls[c]))
    && (forall x :: x in s.stale ==> x !in s.wheel.order && exists c :: c in s.calls && s.calls[c] == Unlinked(x))
  }

  datatype Op =
    | Create(x: nat, init: nat, periodic: bool)
    | StartBegin(c: nat, x: nat) | StartRead(c: nat) | StartStore(c: nat) | StartLink(c: nat)
    | StopTest(c: nat, x: nat) | StopUnlink(c: nat) | StopClear(c: nat)
    | TickOnce

  /** The end was computed at most `late` ticks ago. */
  predicate InTime(w: Wheel, late: nat, call: Call)
    requires call.Timed? || (call.Ended? && call.x in w.timers)
  {
    if call.Timed? then w.now <= call.t + late else w.now + w.timers[call.x].init <= At(w.due, call.x) + late
  }

  /**
   One step of call `c`, or a tick. Steps of a start that come more than `late` ticks after the time was read are
   not taken. Nothing is said of what follows once the list is broken.
   */
  ghost function Step(s: State, late: nat, op: Op): State {
    if !Whole(s, late) then s else
    var w := s.wheel;
    match op
    case Create(x, init, periodic) =>
      if x in w.timers || init + late >= HALF || (periodic && init == 0) then s
      else s.(wheel := w.(timers := w.timers[x := Timer(0, init, periodic, false)]))
    case StartBegin(c, x) =>
      if c in s.calls || x !in w.timers then s
      else State(Stop(w, x), s.stale - {x}, s.calls[c := Began(x)])
    case StartRead(c) =>
      if c !in s.calls || !s.calls[c].Began? then s
      else s.(calls := s.calls[c := Timed(s.calls[c].x, w.now)])
    case StartStore(c) =>
      if c !in s.calls || !s.calls[c].Timed? || !InTime(w, late, s.calls[c]) then s
      else
        var x := s.calls[c].x;
        s.(wheel := SetEnd(w, x, s.calls[c].t + w.timers[x].init), calls := s.calls[c := Ended(x)])
    case StartLink(c) =>
      if c !in s.calls || !s.calls[c].Ended? || !InTime(w, late, s.calls[c]) then s
      else State(Link(w, s.calls[c].x), s.stale - {s.calls[c].x}, s.calls - {c})
    case StopTest(c, x) =>
      if c in s.calls || x !in w.timers || !Flagged(s, x) then s
      else s.(calls := s.calls[c := Tested(x)])
    case StopUnlink(c) =>
      if c !in s.calls || !s.calls[c].Tested? then s
      else
        var x := s.calls[c].x;
        State(Stop(w, x), if w.timers[x].active then s.stale + {x} else s.stale, s.calls[c := Unlinked(x)])
    case StopClear(c) =>
      if c !in s.calls || !s.calls[c].Unlinked? then s
      else
        var x := s.calls[c].x;
        State(w.(timers := w.timers[x := w.timers[x].(active := false)]), s.stale - {x}, s.calls - {c})
    case TickOnce =>
      s.(wheel := Tick(w).0)
  }

  /**
   The steps that break the list: linking a timer that another call has linked, storing an end in a linked timer
   that is then out of place, and clearing the flag of a timer that another call has linked.
   */
  ghost predicate Breaks(s: State, late: nat, op: Op) {
    var w := s.wheel;
    match op
    case StartStore(c) =>
      && c in s.calls && s.calls[c].Timed? && InTime(w, late, s.calls[c]) && s.calls[c].x in w.timers
      && !InPlace(w.order, w.due, s.calls[c].x, s.calls[c].t + w.timers[s.calls[c].x].init)
    case StartLink(c) =>
      && c in s.calls && s.calls[c].Ended? && s.calls[c].x in w.timers && InTime(w, late, s.calls[c])
      && s.calls[c].x in w.order
    case StopClear(c) =>
      c in s.calls && s.calls[c].Unlinked? && s.calls[c].x in w.order
    case _ =>
      false
  }

  lemma StoreWhole(s: State, late: nat, c: nat)
    requires Whole(s, late)
    ensures Calm(Step(s, late, StartStore(c)).wheel, late) <==> !Breaks(s, late, StartStore(c))
    ensures !Breaks(s, late, StartStore(c)) ==> Whole(Step(s, late, StartStore(c)), late)
  {
    hide Calm, InPlace, At;
    if c in s.calls && s.calls[c].Timed? && InTime(s.wheel, late, s.calls[c]) {
      var x, t := s.calls[c].x, s.calls[c].t;
      assert CallOk(s.wheel, s.calls[c]);
      CalmSet(s.wheel, late, x, t);
      AtOther(s.wheel.due, x, t + s.wheel.timers[x].init);
      OthersWait(s, Step(s, late, StartStore(c)), c);
    }
  }

  /** A step of call `c` that is not the end of a stop leaves other stops in the middle. */
  lemma OthersWait(s: State, t: State, c: nat)
    requires forall x :: x in s.stale ==> exists a :: a in s.calls && s.calls[a] == Unlinked(x)
    requires t.stale <= s.stale && forall a :: a in s.calls && a != c ==> a in t.calls && t.calls[a] == s.calls[a]
    requires c in s.calls && s.calls[c].Unlinked? ==> s.calls[c].x !in t.stale
    ensures forall x :: x in t.stale ==> exists a :: a in t.calls && t.calls[a] == Unlinked(x)
  {
    forall x | x in t.stale ensures exists a :: a in t.calls && t.calls[a] == Unlinked(x) {
      var a :| a in s.calls && s.calls[a] == Unlinked(x);
      assert a in t.calls && t.calls[a] == Unlinked(x);
    }
  }

  lemma LinkWhole(s: State, late: nat, c: nat)
    requires Whole(s, late)
    ensures Calm(Step(s, late, StartLink(c)).wheel, late) <==> !Breaks(s, late, StartLink(c))
    ensures !Breaks(s, late, StartLink(c)) ==> Whole(Step(s, late, StartLink(c)), late)
  {
    hide Calm, At, Place;
    if c in s.calls && s.calls[c].Ended? && CallOk(s.wheel, s.calls[c]) && InTime(s.wheel, late, s.calls[c]) {
      var x, t := s.calls[c].x, Step(s, late, StartLink(c));
      CalmLink(s.wheel, late, x);
      if x !in s.wheel.order {
        LinkedOrder(s.wheel, late, x);
        OthersWait(s, t, c);
      }
    }
  }

  lemma LinkedOrder(w: Wheel, late: nat, x: nat)
    requires Calm(w, late) && x in w.timers
    ensures forall y :: y in Link(w, x).order <==> y == x || y in w.order
  {
    hide Place, At;
    LinkSound(w, x);
  }

  lemma ClearWhole(s: State, late: nat, c: nat)
    requires Whole(s, late)
    ensures Calm(Step(s, late, StopClear(c)).wheel, late) <==> !Breaks(s, late, StopClear(c))
    ensures !Breaks(s, late, StopClear(c)) ==> Whole(Step(s, late, StopClear(c)), late)
  {
    hide At, Sorted, NoDup;
    if c in s.calls && s.calls[c].Unlinked? {
      var x, t := s.calls[c].x, Step(s, late, StopClear(c));
      assert CallOk(s.wheel, s.calls[c]);
      OthersWait(s, t, c);
      if x !in s.wheel.order {
        assert t.wheel.timers == s.wheel.timers;
      }
    }
  }

  lemma BeginWhole(s: State, late: nat, c: nat, x: nat)
    requires Whole(s, late)
    ensures Whole(Step(s, late, StartBegin(c, x)), late)
  {
    hide At, Sorted, NoDup, Remove;
    if c !in s.calls && x in s.wheel.timers {
      CalmStop(s.wheel, late, x);
      StopSound(s.wheel, x);
      OthersWait(s, Step(s, late, StartBegin(c, x)), c);
    }
  }

  lemma UnlinkWhole(s: State, late: nat, c: nat)
    requires Whole(s, late)
    ensures Whole(Step(s, late, StopUnlink(c)), late)
  {
    hide At, Calm, Remove;
    if c in s.calls && s.calls[c].Tested? {
      var x, t := s.calls[c].x, Step(s, late, StopUnlink(c));
      assert CallOk(s.wheel, s.calls[c]);
      CalmStop(s.wheel, late, x);
      StoppedOrder(s.wheel, late, x);
      OthersWait(s, t.(stale := s.stale), c);
      assert t.calls[c] == Unlinked(x);
    }
  }

  lemma StoppedOrder(w: Wheel, late: nat, x: nat)
    requires Calm(w, late) && x in w.timers
    ensures forall y :: y in Stop(w, x).order <==> y != x && y in w.order
  {
    hide At, Remove;
    StopSound(w, x);
  }

  lemma TickWhole(s: State, late: nat)
    requires Whole(s, late)
    ensures Whole(Step(s, late, TickOnce), late)
  {
    hide At, Sorted, NoDup, UpTo, Check;
    var w := s.wheel;
    CalmTick(w, late);
    assert Sound(w.(now := w.now + 1));
    CheckFires(w.(now := w.now + 1));
    var (v, fired) := Tick(w);
    forall c | c in s.calls ensures CallOk(v, s.calls[c]) {
      TickCall(w, late, s.calls[c]);
    }
    forall x | x in s.stale ensures x !in v.order {
      var c :| c in s.calls && s.calls[c] == Unlinked(x);
      assert CallOk(w, s.calls[c]);
    }
  }

  lemma TickCall(w: Wheel, late: nat, call: Call)
    requires Calm(w, late) && CallOk(w, call)
    ensures CallOk(Tick(w).0, call)
  {
    hide At, Sorted, NoDup, UpTo, Check;
    CalmTick(w, late);
    assert Sound(w.(now := w.now + 1));
    CheckFires(w.(now := w.now + 1));
  }

  lemma OtherWhole(s: State, late: nat, op: Op)
    requires Whole(s, late) && (op.Create? || op.StartRead? || op.StopTest?)
    ensures Whole(Step(s, late, op), late)
  {
    hide At, Sorted, NoDup;
    match op
    case Create(_, _, _) =>
    case StartRead(c) =>
      if c in s.calls && s.calls[c].Began? {
        OthersWait(s, Step(s, late, op), c);
      }
    case StopTest(c, x) =>
      if c !in s.calls {
        OthersWait(s, Step(s, late, op), c);
      }
  }

  /** Whatever a step interrupts, it keeps the list whole exactly unless it is one of those that break it. */
  lemma StepWhole(s: State, late: nat, op: Op)
    requires Whole(s, late)
    ensures Calm(Step(s, late, op).wheel, late) <==> !Breaks(s, late, op)
    ensures !Breaks(s, late, op) ==> Whole(Step(s, late, op), late)
  {
    hide Calm, CallOk, InPlace, Step, At;
    match op
    case StartStore(c) => StoreWhole(s, late, c);
    case StartLink(c) => LinkWhole(s, late, c);
    case StopClear(c) => ClearWhole(s, late, c);
    case StartBegin(c, x) => BeginWhole(s, late, c, x);
    case StopUnlink(c) => UnlinkWhole(s, late, c);
    case TickOnce => TickWhole(s, late);
    case _ => OtherWhole(s, late, op);
  }

  // ---------------------------------------------------------------------------------
  // Runs
  // ---------------------------------------------------------------------------------

  function Init(now: nat): State {
    State(Wheel(now, [], map[], map[]), {}, map[])
  }

  ghost function Run(s: State, late: nat, ops: seq<Op>): State
    decreases |ops|
  {
    if ops == [] then s else Run(Step(s, late, ops[0]), late, ops[1..])
  }

  /** No step of the run breaks the list. */
  ghost predicate Harmless(s: State, late: nat, ops: seq<Op>)
    decreases |ops|
  {
    ops == [] || (!Breaks(s, late, ops[0]) && Harmless(Step(s, late, ops[0]), late, ops[1..]))
  }

  lemma {:induction false} RunBroken(s: State, late: nat, ops: seq<Op>)
    requires !Calm(s.wheel, late)
    ensures Run(s, late, ops) == s
    decreases |ops|
  {
    hide Calm;
    if ops != [] {
      RunBroken(s, late, ops[1..]);
    }
  }

  /**
   However starts, stops and ticks interrupt each other, the list is whole after a run exactly when no step of
   the run broke it.
   */
  lemma {:induction false} RunWhole(s: State, late: nat, ops: seq<Op>)
    requires Whole(s, late)
    ensures Calm(Run(s, late, ops).wheel, late) <==> Harmless(s, late, ops)
    ensures Harmless(s, late, ops) ==> Whole(Run(s, late, ops), late)
    decreases |ops|
  {
    hide Calm, Whole, Step, Breaks;
    if ops == [] {
      WholeCalm(s, late);
    } else {
      StepWhole(s, late, ops[0]);
      if Breaks(s, late, ops[0]) {
        RunBroken(Step(s, late, ops[0]), late, ops[1..]);
      } else {
        RunWhole(Step(s, late, ops[0]), late, ops[1..]);
      }
    }
  }

  lemma WholeCalm(s: State, late: nat)
    requires Whole(s, late)
    ensures Calm(s.wheel, late)
  {
  }

  lemma InitWhole(now: nat, late: nat)
    requires late <= now && late + 1 < HALF
    ensures Whole(Init(now), late)
  {
  }

  // ---------------------------------------------------------------------------------
  // Runs in which no start begins while another call on its timer is in the middle
  // ---------------------------------------------------------------------------------

  ghost predicate Overlaps(s: State, op: Op) {
    op.StartBegin? && op.c !in s.calls && exists c :: c in s.calls && s.calls[c].x == op.x
  }

  ghost predicate Serial(s: State, late: nat, ops: seq<Op>)
    decreases |ops|
  {
    ops == [] || (!Overlaps(s, ops[0]) && Serial(Step(s, late, ops[0]), late, ops[1..]))
  }

  ghost predicate Starting(call: Call) {
    call.Began? || call.Timed? || call.Ended?
  }

  /** A timer in the middle of a start is in no other call, not linked and not flagged. */
  ghost predicate Quiet(s: State) {
    && (forall c :: c in s.calls && Starting(s.calls[c]) ==>
          && s.calls[c].x !in s.wheel.order && s.calls[c].x !in s.stale
          && forall a :: a in s.calls && a != c ==> s.calls[a].x != s.calls[c].x)
    && (forall c :: c in s.calls && s.calls[c].Unlinked? ==> s.calls[c].x !in s.wheel.order)
  }

  lemma QuietHarmless(s: State, late: nat, op: Op)
    requires Whole(s, late) && Quiet(s)
    ensures !Breaks(s, late, op)
  {
    hide At, InPlace, Calm;
    match op
    case StartStore(c) =>
      if c in s.calls && s.calls[c].Timed? {
        assert Starting(s.calls[c]);
        NotThere(s.wheel.order, s.wheel.due, s.calls[c].x, s.calls[c].t + s.wheel.timers[s.calls[c].x].init);
      }
    case StartLink(c) =>
      assert c in s.calls && s.calls[c].Ended? ==> Starting(s.calls[c]);
    case _ =>
  }

  lemma StartQuiet(s: State, late: nat, op: Op)
    requires Whole(s, late) && Quiet(s) && !Overlaps(s, op)
    requires op.StartBegin? || op.StartRead? || op.StartStore? || op.StartLink?
    ensures Quiet(Step(s, late, op))
  {
    hide At, Calm, Place, Remove;
    match op
    case StartBegin(c, x) =>
      if c !in s.calls && x in s.wheel.timers {
        StoppedOrder(s.wheel, late, x);
      }
    case StartLink(c) =>
      if c in s.calls && s.calls[c].Ended? && CallOk(s.wheel, s.calls[c]) {
        LinkedOrder(s.wheel, late, s.calls[c].x);
        assert Starting(s.calls[c]);
      }
    case StartRead(c) =>
      assert c in s.calls && s.calls[c].Began? ==> Starting(s.calls[c]);
    case StartStore(c) =>
      assert c in s.calls && s.calls[c].Timed? ==> Starting(s.calls[c]);
  }

  lemma StopQuiet(s: State, late: nat, op: Op)
    requires Whole(s, late) && Quiet(s)
    requires op.StopTest? || op.StopUnlink? || op.StopClear?
    ensures Quiet(Step(s, late, op))
  {
    hide At, Sorted, NoDup, Remove;
    match op
    case StopTest(c, x) =>
    case StopUnlink(c) =>
      if c in s.calls && s.calls[c].Tested? {
        assert CallOk(s.wheel, s.calls[c]);
        StopSound(s.wheel, s.calls[c].x);
      }
    case StopClear(c) =>
  }

  lemma TickQuiet(s: State, late: nat, op: Op)
    requires Whole(s, late) && Quiet(s) && (op.TickOnce? || op.Create?)
    ensures Quiet(Step(s, late, op))
  {
    hide At, Sorted, NoDup, UpTo, Check;
    if op.TickOnce? {
      var w := s.wheel;
      assert Sound(w.(now := w.now + 1));
      CheckFires(w.(now := w.now + 1));
      var v := Tick(w).0;
      forall c | c in s.calls && s.calls[c].x !in w.order ensures s.calls[c].x !in v.order {
        assert CallOk(w, s.calls[c]);
        UpToPrefix(w.order, w.due, w.now + 1);
      }
    }
  }

  /** So it is enough that nobody starts a timer that is in the middle of another call. */
  lemma {:induction false} SerialHarmless(s: State, late: nat, ops: seq<Op>)
    requires Whole(s, late) && Quiet(s) && Serial(s, late, ops)
    ensures Harmless(s, late, ops)
    decreases |ops|
  {
    hide Whole, Quiet, Step, Breaks, Overlaps;
    if ops != [] {
      var op := ops[0];
      QuietHarmless(s, late, op);
      StepWhole(s, late, op);
      if op.TickOnce? || op.Create? {
        TickQuiet(s, late, op);
      } else if op.StopTest? || op.StopUnlink? || op.StopClear? {
        StopQuiet(s, late, op);
      } else {
        StartQuiet(s, late, op);
      }
      SerialHarmless(Step(s, late, op), late, ops[1..]);
    }
  }

  // ---------------------------------------------------------------------------------
  // What goes wrong otherwise
  // ---------------------------------------------------------------------------------

  lemma RunStep(s: State, late: nat, op: Op, ops: seq<Op>)
    ensures Run(s, late, [op] + ops) == Run(Step(s, late, op), late, ops)
  {
    assert ([op] + ops)[1..] == ops;
  }

  /** The rest of a start whose call has begun, with nothing in between. */
  function Rest(c: nat): seq<Op> {
    [StartRead(c), StartStore(c), StartLink(c)]
  }

  lemma RunRest(s: State, late: nat, c: nat)
    ensures Run(s, late, Rest(c)) ==
            Step(Step(Step(s, late, StartRead(c)), late, StartStore(c)), late, StartLink(c))
  {
    hide Step;
    var s1 := Step(s, late, StartRead(c));
    var s2 := Step(s1, late, StartStore(c));
    RunStep(s, late, StartRead(c), [StartStore(c), StartLink(c)]);
    RunStep(s1, late, StartStore(c), [StartLink(c)]);
    RunStep(s2, late, StartLink(c), []);
    assert Rest(c) == [StartRead(c)] + [StartStore(c), StartLink(c)];
    assert [StartStore(c), StartLink(c)] == [StartStore(c)] + [StartLink(c)];
    assert [StartLink(c)] == [StartLink(c)] + [];
  }

  /** If nothing comes in between, the rest of a start links the timer, and breaks the list if it is linked already. */
  lemma RestLinks(s: State, late: nat, c: nat)
    requires Whole(s, late) && c in s.calls && s.calls[c].Began?
    requires var x := s.calls[c].x; x in s.wheel.timers ==>
               InPlace(s.wheel.order, s.wheel.due, x, s.wheel.now + s.wheel.timers[x].init)
    ensures var x, w := s.calls[c].x, s.wheel;
            && x in w.timers
            && Run(s, late, Rest(c)) ==
               State(Link(SetEnd(w, x, w.now + w.timers[x].init), x), s.stale - {x}, s.calls - {c})
            && (Calm(Run(s, late, Rest(c)).wheel, late) <==> x !in w.order)
  {
    hide Calm, InPlace, At, Place;
    var x, w := s.calls[c].x, s.wheel;
    assert CallOk(w, s.calls[c]);
    var s1 := Step(s, late, StartRead(c));
    OtherWhole(s, late, StartRead(c));
    assert s1 == s.(calls := s.calls[c := Timed(x, w.now)]);
    var s2 := Step(s1, late, StartStore(c));
    StoreWhole(s1, late, c);
    AtOther(w.due, x, w.now + w.timers[x].init);
    assert s2 == s.(wheel := SetEnd(w, x, w.now + w.timers[x].init), calls := s.calls[c := Ended(x)]);
    LinkWhole(s2, late, c);
    RunRest(s, late, c);
    assert s2.calls - {c} == s.calls - {c};
  }

  lemma {:induction false} RunConcat(s: State, late: nat, p: seq<Op>, q: seq<Op>)
    ensures Run(s, late, p + q) == Run(Run(s, late, p), late, q)
    decreases |p|
  {
    if p == [] {
      assert p + q == q;
    } else {
      assert (p + q)[1..] == p[1..] + q;
      RunConcat(Step(s, late, p[0]), late, p[1..], q);
    }
  }

  /** A start that nothing interrupts is the start of the sequence. */
  lemma WholeStart(s: State, late: nat, c: nat, x: nat)
    requires Whole(s, late) && c !in s.calls && x in s.wheel.timers
    ensures var t := Run(s, late, [StartBegin(c, x)] + Rest(c));
            t == State(Start(s.wheel, x), s.stale - {x}, s.calls) && Whole(t, late) && x in t.wheel.order
  {
    hide Calm, InPlace, At, Place, Rest, Remove;
    var w, s1 := s.wheel, Step(s, late, StartBegin(c, x));
    RunStep(s, late, StartBegin(c, x), Rest(c));
    BeginWhole(s, late, c, x);
    StoppedOrder(w, late, x);
    NotThere(s1.wheel.order, s1.wheel.due, x, w.now + w.timers[x].init);
    RestLinks(s1, late, c);
    CalmStart(w, late, x);
    var t := Run(s, late, [StartBegin(c, x)] + Rest(c));
    assert t == State(Start(w, x), s.stale - {x}, s.calls) by {
      assert s1.stale - {x} == s.stale - {x} && s1.calls - {c} == s.calls;
    }
    forall a | a in t.calls ensures CallOk(t.wheel, t.calls[a]) {
      assert CallOk(w, s.calls[a]);
      StartCall(w, x, s.calls[a]);
    }
    OthersWait(s, t, c);
  }

  /** A stop that nothing interrupts is the stop of the sequence and clears the flag; without a flag it does nothing. */
  lemma WholeStop(s: State, late: nat, c: nat, x: nat)
    requires Whole(s, late) && c !in s.calls && x in s.wheel.timers
    ensures var t := Run(s, late, [StopTest(c, x)] + ([StopUnlink(c)] + [StopClear(c)]));
            t == (if Flagged(s, x) then State(Stop(s.wheel, x), s.stale - {x}, s.calls) else s) && !Flagged(t, x)
  {
    if Flagged(s, x) {
      FlaggedStop(s, late, c, x);
    } else {
      RunStep(s, late, StopTest(c, x), [StopUnlink(c)] + [StopClear(c)]);
      RunStep(s, late, StopUnlink(c), [StopClear(c)]);
      assert [StopClear(c)] + [] == [StopClear(c)];
      RunStep(s, late, StopClear(c), []);
    }
  }

  lemma FlaggedStop(s: State, late: nat, c: nat, x: nat)
    requires Whole(s, late) && c !in s.calls && x in s.wheel.timers && Flagged(s, x)
    ensures var t := Run(s, late, [StopTest(c, x)] + ([StopUnlink(c)] + [StopClear(c)]));
            t == State(Stop(s.wheel, x), s.stale - {x}, s.calls) && !Flagged(t, x)
  {
    hide Calm, At, Remove, Run;
    var s1 := Step(s, late, StopTest(c, x));
    OtherWhole(s, late, StopTest(c, x));
    RunStep(s, late, StopTest(c, x), [StopUnlink(c)] + [StopClear(c)]);
    var s2 := Step(s1, late, StopUnlink(c));
    UnlinkWhole(s1, late, c);
    RunStep(s1, late, StopUnlink(c), [StopClear(c)]);
    assert [StopClear(c)] + [] == [StopClear(c)];
    RunStep(s2, late, StopClear(c), []);
    var t := Step(s2, late, StopClear(c));
    RunNone(t, late);
    assert s2.wheel == Stop(s.wheel, x);
    assert t.wheel.timers == s2.wheel.timers;
    assert t.stale == s.stale - {x} && t.calls == s.calls;
  }

  lemma CalmStart(w: Wheel, late: nat, x: nat)
    requires Calm(w, late) && x in w.timers
    ensures var u := Stop(w, x); x in u.timers && Link(SetEnd(u, x, w.now + w.timers[x].init), x) == Start(w, x)
    ensures forall y :: y in Start(w, x).order <==> y == x || y in w.order
  {
    hide At, Place, Remove;
    StartSteps(w, x);
    StartSound(w, x);
  }

  lemma StartCall(w: Wheel, x: nat, call: Call)
    requires x in w.timers && CallOk(w, call)
    ensures CallOk(Start(w, x), call)
  {
    hide At, Place, Remove;
    AtOther(w.due, x, w.now + w.timers[x].init);
  }

  lemma SamePlace(w: Wheel, late: nat, x: nat)
    requires Calm(w, late) && x in w.timers
    ensures InPlace(Start(w, x).order, Start(w, x).due, x, w.now + w.timers[x].init)
  {
    hide At, Place, Remove;
    StartSound(w, x);
    AtOther(w.due, x, w.now + w.timers[x].init);
  }

  /** A start of a timer that runs inside another start of it: the list is broken, whatever it was before. */
  lemma NestedStart(s: State, late: nat, a: nat, b: nat, x: nat)
    requires Whole(s, late) && a !in s.calls && b !in s.calls && a != b && x in s.wheel.timers
    ensures !Calm(Run(s, late, [StartBegin(a, x)] + (([StartBegin(b, x)] + Rest(b)) + Rest(a))).wheel, late)
  {
    hide Calm, InPlace, At, Place, Rest, Remove, Run;
    var s1 := Step(s, late, StartBegin(a, x));
    BeginWhole(s, late, a, x);
    RunStep(s, late, StartBegin(a, x), ([StartBegin(b, x)] + Rest(b)) + Rest(a));
    WholeStart(s1, late, b, x);
    RunConcat(s1, late, [StartBegin(b, x)] + Rest(b), Rest(a));
    var t := Run(s1, late, [StartBegin(b, x)] + Rest(b));
    SamePlace(s1.wheel, late, x);
    RestLinks(t, late, a);
  }

  /** A start inside a stop: the timer is linked, and its flag says that it is not. */
  lemma StartInStop(s: State, late: nat, a: nat, b: nat, x: nat)
    requires Whole(s, late) && a !in s.calls && b !in s.calls && a != b && x in s.wheel.timers && Flagged(s, x)
    ensures var ops := [StopTest(a, x)] + ([StopUnlink(a)] + (([StartBegin(b, x)] + Rest(b)) + [StopClear(a)]));
            x in Run(s, late, ops).wheel.order && !Flagged(Run(s, late, ops), x)
  {
    hide Calm, InPlace, At, Place, Rest, Remove, Run;
    var more := ([StartBegin(b, x)] + Rest(b)) + [StopClear(a)];
    var s1 := Step(s, late, StopTest(a, x));
    RunStep(s, late, StopTest(a, x), [StopUnlink(a)] + more);
    OtherWhole(s, late, StopTest(a, x));
    var s2 := Step(s1, late, StopUnlink(a));
    RunStep(s1, late, StopUnlink(a), more);
    UnlinkWhole(s1, late, a);
    WholeStart(s2, late, b, x);
    RunConcat(s2, late, [StartBegin(b, x)] + Rest(b), [StopClear(a)]);
    var t := Run(s2, late, [StartBegin(b, x)] + Rest(b));
    RunStep(t, late, StopClear(a), []);
    assert [StopClear(a)] + [] == [StopClear(a)];
    RunNone(Step(t, late, StopClear(a)), late);
  }

  lemma RunNone(s: State, late: nat)
    ensures Run(s, late, []) == s
  {
  }

  /** The shortest such run from initialisation. */
  lemma NestedRun(now: nat)
    ensures !Calm(Run(Init(now), 0, [Create(0, 10, false), StartBegin(1, 0), StartBegin(2, 0),
                                     StartRead(2), StartStore(2), StartLink(2),
                                     StartRead(1), StartStore(1), StartLink(1)]).wheel, 0)
  {
    hide Calm, InPlace, At, Place, Remove, Run;
    var more := [StartBegin(1, 0)] + (([StartBegin(2, 0)] + Rest(2)) + Rest(1));
    InitWhole(now, 0);
    OtherWhole(Init(now), 0, Create(0, 10, false));
    RunStep(Init(now), 0, Create(0, 10, false), more);
    NestedStart(Step(Init(now), 0, Create(0, 10, false)), 0, 1, 2, 0);
    assert [Create(0, 10, false)] + more == [Create(0, 10, false), StartBegin(1, 0), StartBegin(2, 0),
                                             StartRead(2), StartStore(2), StartLink(2),
                                             StartRead(1), StartStore(1), StartLink(1)];
  }
}
