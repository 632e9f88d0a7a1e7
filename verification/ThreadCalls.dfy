/**
 Thread operations that interrupt each other. `rt_thread_resume`, `rt_thread_suspend` and `rt_thread_delete`
 test the state of a thread with interrupts enabled, and resume and delete enable them again before they are
 done, so that other operations on the same thread may come in between.
 */
module ThreadCalls {
  import opened Seqs
  import opened SchedulerSpec

  /** How far a call has come. */
  datatype Call =
    | Resuming(t: nat)     // a resume that has found the thread suspended
    | Detached(t: nat)     // a resume that has taken it out of its wait list
    | Suspending(t: nat)   // a suspend that has found the thread ready
    | Closing(t: nat)      // a delete that has taken it out of the ready list

  /**
   A thread that a delete has unlinked counts as closed in `sched`, although its `stat` is still as before;
   `was` has that state.
   */
  datatype State = State(sched: Sched, was: map<nat, Stat>, calls: map<nat, Call>)

  /** `thread->stat`. */
  function StatOf(s: State, t: nat): Stat
    requires t in s.sched.threads
  {
    if t in s.was then s.was[t] else s.sched.threads[t].stat
  }

  /** A thread is ready exactly when it is, once, in its list, but for those a delete has just unlinked. */
  ghost predicate Whole(s: State, idle: nat) {
    && Inv(s.sched, idle)
    && (forall t :: t in s.was ==> t in s.sched.threads && s.sched.threads[t].stat.Closed? && !s.was[t].Init?)
    && (forall c :: c in s.calls ==> s.calls[c].t in s.sched.threads && FitCall(s.calls[c], idle))
  }

  predicate FitCall(call: Call, idle: nat) {
    call.Suspending? || call.Closing? ==> call.t != idle
  }

  datatype Op =
    | Prepare(t: nat)      // the first part of `rt_thread_startup`
    | ResumeTest(c: nat, t: nat) | ResumeDetach(c: nat) | ResumeInsert(c: nat)
    | SuspendTest(c: nat, t: nat) | SuspendDo(c: nat)
    | DeleteUnlink(c: nat, t: nat) | DeleteClose(c: nat)
    | Change(t: nat, p: nat) | TimedOut(t: nat) | Leaves
    | Other(op: SchedulerSpec.Op)

  /** Operations that name no thread, and the creation of one. */
  predicate Plain(op: SchedulerSpec.Op) {
    op.DoCreate? || op.DoYield? || op.DoTick? || op.DoSchedule? || op.DoEnterCritical? || op.DoExitCritical?
  }

  function SetStat(s: Sched, t: nat, stat: Stat): Sched
    requires t in s.threads
  {
    s.(threads := s.threads[t := s.threads[t].(stat := stat)])
  }

  /** One step of a call, or an operation that is not interrupted. Nothing is said of what follows a break. */
  ghost function Step(s: State, idle: nat, op: Op): State {
    if !Whole(s, idle) then s else
    match op
    case Prepare(t) => DoPrepare(s, t)
    case ResumeTest(c, t) =>
      if c in s.calls || t !in s.sched.threads || !StatOf(s, t).Suspended? then s
      else s.(calls := s.calls[c := Resuming(t)])
    case ResumeDetach(c) => if c !in s.calls || !s.calls[c].Resuming? then s else DoDetach(s, c)
    case ResumeInsert(c) =>
      if c !in s.calls || !s.calls[c].Detached? then s
      else State(Insert(s.sched, s.calls[c].t), s.was - {s.calls[c].t}, s.calls - {c})
    case SuspendTest(c, t) =>
      if c in s.calls || t !in s.sched.threads || t == idle || !StatOf(s, t).Ready? then s
      else s.(calls := s.calls[c := Suspending(t)])
    case SuspendDo(c) => if c !in s.calls || !s.calls[c].Suspending? then s else DoSuspension(s, c)
    case DeleteUnlink(c, t) =>
      if c in s.calls || t !in s.sched.threads || t == idle then s else DoUnlink(s, c, t)
    case DeleteClose(c) =>
      if c !in s.calls || !s.calls[c].Closing? then s
      else State(SetStat(s.sched, s.calls[c].t, Closed), s.was - {s.calls[c].t}, s.calls - {c})
    case Change(t, p) =>
      if t !in s.sched.threads || p >= |s.sched.lists| then s else DoChange(s, t, p)
    case TimedOut(t) =>
      if t !in s.sched.threads || !StatOf(s, t).Suspended? then s
      else s.(sched := Timeout(s.sched, t), was := s.was - {t})
    case Leaves =>
      if s.sched.current == NONE || s.sched.current == idle then s
      else s.(sched := Leave(s.sched, s.sched.current, Closed), was := s.was - {s.sched.current})
    case Other(op) => if !Plain(op) then s else s.(sched := SchedulerSpec.Step(s.sched, idle, op))
  }

  /** `rt_thread_startup` up to its resume. */
  function DoPrepare(s: State, t: nat): State {
    if t !in s.sched.threads || !s.sched.threads[t].stat.Init? then s
    else
      var x := s.sched.threads[t];
      s.(sched := s.sched.(threads := s.sched.threads[t := x.(prio := x.initPrio, stat := Suspended)]))
  }

  /** The first region of a resume: the thread leaves whatever list it is in, and keeps its state. */
  function DoDetach(s: State, c: nat): State
    requires c in s.calls && s.calls[c].t in s.sched.threads
    requires s.sched.threads[s.calls[c].t].prio < |s.sched.lists|
  {
    var t := s.calls[c].t;
    var p := s.sched.threads[t].prio;
    s.(sched := s.sched.(lists := s.sched.lists[p := Remove(s.sched.lists[p], t)]), calls := s.calls[c := Detached(t)])
  }

  function DoSuspension(s: State, c: nat): State
    requires c in s.calls && s.calls[c].t in s.sched.threads
    requires s.sched.threads[s.calls[c].t].prio < |s.sched.lists|
  {
    var t := s.calls[c].t;
    if t in s.was then s.(was := s.was[t := Suspended], calls := s.calls - {c})
    else s.(sched := Leave(s.sched, t, Suspended), calls := s.calls - {c})
  }

  /** The region of a delete; a thread that was never started up is not unlinked. */
  function DoUnlink(s: State, c: nat, t: nat): State
    requires t in s.sched.threads && s.sched.threads[t].prio < |s.sched.lists|
  {
    var calls := s.calls[c := Closing(t)];
    if s.sched.threads[t].stat.Init? || t in s.was then s.(calls := calls)
    else State(Leave(s.sched, t, Closed), s.was[t := s.sched.threads[t].stat], calls)
  }

  /** `rt_thread_control`: a thread whose state is ready goes into the list of its new priority. */
  function DoChange(s: State, t: nat, p: nat): State
    requires t in s.sched.threads && s.sched.threads[t].prio < |s.sched.lists| && p < |s.sched.lists|
  {
    if t in s.was then
      var v := s.sched.(threads := s.sched.threads[t := s.sched.threads[t].(prio := p)]);
      if s.was[t].Ready? then s.(sched := Insert(v, t), was := s.was - {t}) else s.(sched := v)
    else s.(sched := ChangePriority(s.sched, t, p))
  }

  /** The steps that break the ready lists: those that meet a thread that has become ready in the meantime. */
  predicate Breaks(s: State, op: Op) {
    match op
    case ResumeDetach(c) => c in s.calls && s.calls[c].Resuming? && InList(s.sched, s.calls[c].t)
    case ResumeInsert(c) => c in s.calls && s.calls[c].Detached? && InList(s.sched, s.calls[c].t)
    case DeleteClose(c) => c in s.calls && s.calls[c].Closing? && InList(s.sched, s.calls[c].t)
    case _ => false
  }

  predicate InList(s: Sched, t: nat) {
    t in s.threads && s.threads[t].stat.Ready?
  }

  // ---------------------------------------------------------------------------------
  // One step
  // ---------------------------------------------------------------------------------

  lemma DetachWhole(s: State, idle: nat, c: nat)
    requires Whole(s, idle) && c in s.calls && s.calls[c].Resuming?
    ensures Inv(DoDetach(s, c).sched, idle) <==> !InList(s.sched, s.calls[c].t)
    ensures !InList(s.sched, s.calls[c].t) ==> Whole(DoDetach(s, c), idle)
  {
    hide NoDup, Remove;
    var t, v := s.calls[c].t, DoDetach(s, c);
    var p := s.sched.threads[t].prio;
    assert ListOf(s.sched.threads, s.sched.lists[p], p);
    if InList(s.sched, t) {
      RemoveElements(s.sched.lists[p], t, t);
      assert ReadyAt(s.sched.threads, t, p);
      assert v.sched.lists[p] == Remove(s.sched.lists[p], t);
      assert !ListOf(v.sched.threads, v.sched.lists[p], p);
    } else {
      assert t !in s.sched.lists[p];
      RemoveAbsent(s.sched.lists[p], t);
      assert v.sched == s.sched;
    }
  }

  lemma CloseWhole(s: State, idle: nat, t: nat)
    requires Whole(s, idle) && t in s.sched.threads && t != idle
    ensures Inv(SetStat(s.sched, t, Closed), idle) <==> !InList(s.sched, t)
  {
    hide NoDup;
    var p := s.sched.threads[t].prio;
    if InList(s.sched, t) {
      assert ListOf(s.sched.threads, s.sched.lists[p], p) && ReadyAt(s.sched.threads, t, p);
      assert !ReadyAt(SetStat(s.sched, t, Closed).threads, t, p);
      assert !ListOf(SetStat(s.sched, t, Closed).threads, s.sched.lists[p], p);
    } else {
      ChangeInv(s.sched, idle, t, s.sched.threads[t].(stat := Closed));
    }
  }

  lemma ResumeWhole(s: State, idle: nat, op: Op)
    requires Whole(s, idle) && (op.ResumeTest? || op.ResumeDetach? || op.ResumeInsert?)
    ensures Inv(Step(s, idle, op).sched, idle) <==> !Breaks(s, op)
    ensures !Breaks(s, op) ==> Whole(Step(s, idle, op), idle)
  {
    hide ListsInv, PrioritiesFit, DoDetach;
    match op
    case ResumeTest(c, t) =>
    case ResumeDetach(c) =>
      if c in s.calls && s.calls[c].Resuming? {
        DetachWhole(s, idle, c);
      }
    case ResumeInsert(c) =>
      if c in s.calls && s.calls[c].Detached? {
        InsertInv(s.sched, idle, s.calls[c].t);
      }
  }

  lemma DeleteWhole(s: State, idle: nat, op: Op)
    requires Whole(s, idle) && (op.DeleteUnlink? || op.DeleteClose?)
    ensures Inv(Step(s, idle, op).sched, idle) <==> !Breaks(s, op)
    ensures !Breaks(s, op) ==> Whole(Step(s, idle, op), idle)
  {
    hide ListsInv, PrioritiesFit, Remove;
    match op
    case DeleteUnlink(c, t) =>
      if t in s.sched.threads && t != idle {
        FitOf(s.sched, idle, t);
        LeaveInv(s.sched, idle, t, Closed);
      }
    case DeleteClose(c) =>
      if c in s.calls && s.calls[c].Closing? {
        assert FitCall(s.calls[c], idle);
        CloseWhole(s, idle, s.calls[c].t);
      }
  }

  lemma SuspendWhole(s: State, idle: nat, op: Op)
    requires Whole(s, idle) && (op.SuspendTest? || op.SuspendDo?)
    ensures Whole(Step(s, idle, op), idle)
  {
    hide ListsInv, PrioritiesFit, Remove;
    match op
    case SuspendTest(c, t) =>
    case SuspendDo(c) =>
      if c in s.calls && s.calls[c].Suspending? {
        assert FitCall(s.calls[c], idle);
        FitOf(s.sched, idle, s.calls[c].t);
        LeaveInv(s.sched, idle, s.calls[c].t, Suspended);
      }
  }

  lemma ChangeWhole(s: State, idle: nat, t: nat, p: nat)
    requires Whole(s, idle)
    ensures Whole(Step(s, idle, Change(t, p)), idle)
  {
    hide ListsInv, PrioritiesFit, Remove;
    if t in s.sched.threads && p < |s.sched.lists| {
      FitOf(s.sched, idle, t);
      if t in s.was {
        var x := s.sched.threads[t].(prio := p);
        ChangeInv(s.sched, idle, t, x);
        InsertInv(s.sched.(threads := s.sched.threads[t := x]), idle, t);
      } else {
        ChangePriorityInv(s.sched, idle, t, p);
        ChangeKeys(s.sched, t, p);
      }
    }
  }

  lemma ChangeKeys(s: Sched, t: nat, p: nat)
    requires t in s.threads && s.threads[t].prio < |s.lists| && p < |s.lists|
    ensures var v := ChangePriority(s, t, p).threads;
            v.Keys == s.threads.Keys && forall u :: u in v && u != t ==> v[u] == s.threads[u]
  {
  }

  lemma RestWhole(s: State, idle: nat, op: Op)
    requires Whole(s, idle) && (op.Prepare? || op.TimedOut? || op.Leaves?)
    ensures Whole(Step(s, idle, op), idle)
  {
    hide ListsInv, PrioritiesFit, Remove, Top;
    match op
    case Prepare(t) =>
      if t in s.sched.threads && s.sched.threads[t].stat.Init? {
        FitOf(s.sched, idle, t);
        ChangeInv(s.sched, idle, t, s.sched.threads[t].(prio := s.sched.threads[t].initPrio, stat := Suspended));
      }
    case TimedOut(t) =>
      if t in s.sched.threads && StatOf(s, t).Suspended? {
        FitOf(s.sched, idle, t);
        InsertInv(s.sched, idle, t);
        SchedulePicks(Insert(s.sched, t), idle);
      }
    case Leaves =>
      if s.sched.current != NONE && s.sched.current != idle {
        LeaveInv(s.sched, idle, s.sched.current, Closed);
      }
  }

  lemma PlainWhole(s: State, idle: nat, op: SchedulerSpec.Op)
    requires Whole(s, idle) && Plain(op)
    ensures Whole(Step(s, idle, Other(op)), idle)
  {
    hide ListsInv, PrioritiesFit;
    PlainKeeps(s.sched, idle, op);
  }

  /** Such an operation changes no state of a thread. */
  lemma PlainKeeps(s: Sched, idle: nat, op: SchedulerSpec.Op)
    requires Inv(s, idle) && Plain(op)
    ensures var v := SchedulerSpec.Step(s, idle, op).threads;
            forall t :: t in s.threads ==> t in v && v[t].stat == s.threads[t].stat
    ensures var v := SchedulerSpec.Step(s, idle, op).threads;
            forall t :: t in v && t !in s.threads ==> v[t].stat.Init?
  {
    hide ListsInv, PrioritiesFit, Top, Remove;
  }

  /** Whatever a step interrupts, it keeps the lists right exactly unless it meets a thread made ready meanwhile. */
  lemma StepWhole(s: State, idle: nat, op: Op)
    requires Whole(s, idle)
    ensures Inv(Step(s, idle, op).sched, idle) <==> !Breaks(s, op)
    ensures !Breaks(s, op) ==> Whole(Step(s, idle, op), idle)
  {
    hide Inv, Step;
    match op
    case Prepare(_) => RestWhole(s, idle, op);
    case TimedOut(_) => RestWhole(s, idle, op);
    case Leaves => RestWhole(s, idle, op);
    case Change(t, p) => ChangeWhole(s, idle, t, p);
    case SuspendTest(_, _) => SuspendWhole(s, idle, op);
    case SuspendDo(_) => SuspendWhole(s, idle, op);
    case DeleteUnlink(_, _) => DeleteWhole(s, idle, op);
    case DeleteClose(_) => DeleteWhole(s, idle, op);
    case Other(o) =>
      if Plain(o) {
        PlainWhole(s, idle, o);
      } else {
        NotPlain(s, idle, o);
      }
    case _ => ResumeWhole(s, idle, op);
  }

  lemma NotPlain(s: State, idle: nat, op: SchedulerSpec.Op)
    requires !Plain(op)
    ensures Step(s, idle, Other(op)) == s
  {
  }

  // ---------------------------------------------------------------------------------
  // Runs
  // ---------------------------------------------------------------------------------

  ghost function Run(s: State, idle: nat, ops: seq<Op>): State
    decreases |ops|
  {
    if ops == [] then s else Run(Step(s, idle, ops[0]), idle, ops[1..])
  }

  /** No step of the run breaks the lists. */
  ghost predicate Harmless(s: State, idle: nat, ops: seq<Op>)
    decreases |ops|
  {
    ops == [] || (!Breaks(s, ops[0]) && Harmless(Step(s, idle, ops[0]), idle, ops[1..]))
  }

  lemma {:induction false} RunBroken(s: State, idle: nat, ops: seq<Op>)
    requires !Inv(s.sched, idle)
    ensures Run(s, idle, ops) == s
    decreases |ops|
  {
    hide Inv;
    if ops != [] {
      RunBroken(s, idle, ops[1..]);
    }
  }

  /**
   However thread operations interrupt each other, the ready lists are right after a run exactly when no step of
   the run broke them.
   */
  lemma {:induction false} RunWhole(s: State, idle: nat, ops: seq<Op>)
    requires Whole(s, idle)
    ensures Inv(Run(s, idle, ops).sched, idle) <==> Harmless(s, idle, ops)
    ensures Harmless(s, idle, ops) ==> Whole(Run(s, idle, ops), idle)
    decreases |ops|
  {
    hide Inv, Step, Breaks;
    if ops != [] {
      StepWhole(s, idle, ops[0]);
      if Breaks(s, ops[0]) {
        RunBroken(Step(s, idle, ops[0]), idle, ops[1..]);
      } else {
        RunWhole(Step(s, idle, ops[0]), idle, ops[1..]);
      }
    }
  }

  // ---------------------------------------------------------------------------------
  // Runs in which nobody touches a thread that is in the middle of a call
  // ---------------------------------------------------------------------------------

  /** The operation names a thread that is in the middle of a call. */
  ghost predicate Overlaps(s: State, op: Op) {
    && (op.Prepare? || op.ResumeTest? || op.SuspendTest? || op.DeleteUnlink? || op.Change? || op.TimedOut?)
    && exists c :: c in s.calls && s.calls[c].t == op.t
  }

  ghost predicate Serial(s: State, idle: nat, ops: seq<Op>)
    decreases |ops|
  {
    ops == [] || (!Overlaps(s, ops[0]) && Serial(Step(s, idle, ops[0]), idle, ops[1..]))
  }

  /** A thread is in at most one call, and not ready in the middle of a resume or a delete. */
  ghost predicate Quiet(s: State) {
    && (forall a, c :: a in s.calls && c in s.calls && a != c ==> s.calls[a].t != s.calls[c].t)
    && (forall c :: c in s.calls && !s.calls[c].Suspending? ==> !InList(s.sched, s.calls[c].t))
  }

  lemma CallQuiet(s: State, idle: nat, op: Op)
    requires Whole(s, idle) && Quiet(s) && !Overlaps(s, op)
    requires op.ResumeDetach? || op.ResumeInsert? || op.SuspendDo? || op.DeleteClose?
    ensures Quiet(Step(s, idle, op))
  {
    hide ListsInv, PrioritiesFit, Remove;
  }

  lemma BeginQuiet(s: State, idle: nat, op: Op)
    requires Whole(s, idle) && Quiet(s) && !Overlaps(s, op)
    requires op.ResumeTest? || op.SuspendTest? || op.DeleteUnlink? || op.Prepare? || op.Leaves?
    ensures Quiet(Step(s, idle, op))
  {
    hide ListsInv, PrioritiesFit, Remove;
  }

  lemma NamedQuiet(s: State, idle: nat, op: Op)
    requires Whole(s, idle) && Quiet(s) && !Overlaps(s, op) && (op.Change? || op.TimedOut?)
    ensures Quiet(Step(s, idle, op))
  {
    hide ListsInv, PrioritiesFit, Remove, Schedule;
    if op.Change? {
      if op.t in s.sched.threads && op.p < |s.sched.lists| {
        FitOf(s.sched, idle, op.t);
        ChangeKeys(s.sched, op.t, op.p);
      }
    } else if op.t in s.sched.threads && StatOf(s, op.t).Suspended? {
      FitOf(s.sched, idle, op.t);
      ScheduleKeeps(Insert(s.sched, op.t));
    }
  }

  lemma StepQuiet(s: State, idle: nat, op: Op)
    requires Whole(s, idle) && Quiet(s) && !Overlaps(s, op)
    ensures !Breaks(s, op) && Quiet(Step(s, idle, op))
  {
    hide Whole, Step, Overlaps;
    match op
    case Other(o) =>
      if Plain(o) {
        PlainQuiet(s, idle, o);
      } else {
        NotPlain(s, idle, o);
      }
    case Change(_, _) => NamedQuiet(s, idle, op);
    case TimedOut(_) => NamedQuiet(s, idle, op);
    case ResumeDetach(_) => CallQuiet(s, idle, op);
    case ResumeInsert(_) => CallQuiet(s, idle, op);
    case SuspendDo(_) => CallQuiet(s, idle, op);
    case DeleteClose(_) => CallQuiet(s, idle, op);
    case _ => BeginQuiet(s, idle, op);
  }

  lemma PlainQuiet(s: State, idle: nat, op: SchedulerSpec.Op)
    requires Whole(s, idle) && Quiet(s) && Plain(op)
    ensures Quiet(Step(s, idle, Other(op)))
  {
    hide Inv, SchedulerSpec.Step;
    PlainKeeps(s.sched, idle, op);
  }

  lemma ScheduleKeeps(s: Sched)
    ensures Schedule(s).threads == s.threads
  {
  }

  /** So it is enough that no operation names a thread that is in the middle of a call. */
  lemma {:induction false} SerialHarmless(s: State, idle: nat, ops: seq<Op>)
    requires Whole(s, idle) && Quiet(s) && Serial(s, idle, ops)
    ensures Harmless(s, idle, ops)
    decreases |ops|
  {
    hide Whole, Quiet, Step, Breaks, Overlaps;
    if ops != [] {
      StepQuiet(s, idle, ops[0]);
      StepWhole(s, idle, ops[0]);
      SerialHarmless(Step(s, idle, ops[0]), idle, ops[1..]);
    }
  }

  // ---------------------------------------------------------------------------------
  // Calls that nothing interrupts, and what goes wrong otherwise
  // ---------------------------------------------------------------------------------

  lemma RunStep(s: State, idle: nat, op: Op, ops: seq<Op>)
    ensures Run(s, idle, [op] + ops) == Run(Step(s, idle, op), idle, ops)
  {
    assert ([op] + ops)[1..] == ops;
  }

  /** The first steps of a resume of a suspended thread, with nothing in between. */
  lemma ResumeBegins(s: State, idle: nat, c: nat, t: nat)
    requires Whole(s, idle) && c !in s.calls && t in s.sched.threads && s.sched.threads[t].stat.Suspended?
    ensures var u := Step(Step(s, idle, ResumeTest(c, t)), idle, ResumeDetach(c));
            u == s.(calls := s.calls[c := Detached(t)]) && Whole(u, idle)
  {
    hide ListsInv, PrioritiesFit, Remove, DoDetach;
    var s1 := Step(s, idle, ResumeTest(c, t));
    assert t !in s.was;
    assert s1 == s.(calls := s.calls[c := Resuming(t)]);
    ResumeWhole(s, idle, ResumeTest(c, t));
    DetachWhole(s1, idle, c);
    DetachShape(s1, idle, c);
    assert s1.calls[c := Detached(t)] == s.calls[c := Detached(t)];
  }

  lemma DetachShape(s: State, idle: nat, c: nat)
    requires Whole(s, idle) && c in s.calls && s.calls[c].Resuming? && !InList(s.sched, s.calls[c].t)
    ensures DoDetach(s, c) == s.(calls := s.calls[c := Detached(s.calls[c].t)])
  {
    hide NoDup, Remove;
    var t := s.calls[c].t;
    var p := s.sched.threads[t].prio;
    assert ListOf(s.sched.threads, s.sched.lists[p], p) && !ReadyAt(s.sched.threads, t, p);
    RemoveAbsent(s.sched.lists[p], t);
    assert s.sched.lists[p := s.sched.lists[p]] == s.sched.lists;
  }

  /** A resume that nothing interrupts is the resume of `SchedulerSpec`. */
  lemma WholeResume(s: State, idle: nat, c: nat, t: nat)
    requires Whole(s, idle) && c !in s.calls && t in s.sched.threads && t !in s.was
    ensures s.sched.threads[t].prio < |s.sched.lists|
    ensures Run(s, idle, [ResumeTest(c, t), ResumeDetach(c), ResumeInsert(c)]) == s.(sched := Resume(s.sched, t))
  {
    hide ListsInv, PrioritiesFit, Remove;
    FitOf(s.sched, idle, t);
    if s.sched.threads[t].stat.Suspended? {
      SuspendedResume(s, idle, c, t);
    } else {
      RunThree(s, idle, ResumeTest(c, t), ResumeDetach(c), ResumeInsert(c));
    }
  }

  lemma SuspendedResume(s: State, idle: nat, c: nat, t: nat)
    requires Whole(s, idle) && c !in s.calls && t in s.sched.threads && s.sched.threads[t].stat.Suspended?
    ensures s.sched.threads[t].prio < |s.sched.lists|
    ensures Run(s, idle, [ResumeTest(c, t), ResumeDetach(c), ResumeInsert(c)]) == s.(sched := Resume(s.sched, t))
  {
    hide Step, Insert;
    FitOf(s.sched, idle, t);
    var s1 := Step(s, idle, ResumeTest(c, t));
    var s2 := Step(s1, idle, ResumeDetach(c));
    RunThree(s, idle, ResumeTest(c, t), ResumeDetach(c), ResumeInsert(c));
    ResumeBegins(s, idle, c, t);
    ResumeEnds(s2, idle, c);
    assert t !in s.was;
    assert s2.was - {t} == s.was && s2.calls - {c} == s.calls;
  }

  lemma ResumeEnds(s: State, idle: nat, c: nat)
    requires Whole(s, idle) && c in s.calls && s.calls[c].Detached?
    ensures var t := s.calls[c].t;
            && t in s.sched.threads && s.sched.threads[t].prio < |s.sched.lists|
            && Step(s, idle, ResumeInsert(c)) == State(Insert(s.sched, t), s.was - {t}, s.calls - {c})
  {
    hide ListsInv, Insert;
  }

  /** A suspend that nothing interrupts is the suspend of `SchedulerSpec`. */
  lemma WholeSuspend(s: State, idle: nat, c: nat, t: nat)
    requires Whole(s, idle) && c !in s.calls && t in s.sched.threads && t !in s.was && t != idle
    ensures s.sched.threads[t].prio < |s.sched.lists|
    ensures Run(s, idle, [SuspendTest(c, t), SuspendDo(c)]) == s.(sched := Suspend(s.sched, t))
  {
    hide ListsInv, PrioritiesFit, Leave, Run;
    FitOf(s.sched, idle, t);
    RunTwo(s, idle, SuspendTest(c, t), SuspendDo(c));
    SuspendWhole(s, idle, SuspendTest(c, t));
    var s1 := Step(s, idle, SuspendTest(c, t));
    assert s.sched.threads[t].stat.Ready? ==> s1.calls - {c} == s.calls;
  }

  /** A delete that nothing interrupts is the delete of `SchedulerSpec`. */
  lemma WholeDelete(s: State, idle: nat, c: nat, t: nat)
    requires Whole(s, idle) && c !in s.calls && t in s.sched.threads && t != idle && t !in s.was
    ensures s.sched.threads[t].prio < |s.sched.lists|
    ensures Run(s, idle, [DeleteUnlink(c, t), DeleteClose(c)]) == s.(sched := Delete(s.sched, t))
  {
    hide ListsInv, PrioritiesFit, Remove, Run;
    FitOf(s.sched, idle, t);
    RunTwo(s, idle, DeleteUnlink(c, t), DeleteClose(c));
    DeleteWhole(s, idle, DeleteUnlink(c, t));
    var s1 := Step(s, idle, DeleteUnlink(c, t));
    assert s1.calls - {c} == s.calls && s1.was - {t} == s.was;
  }

  /** A startup that nothing interrupts, up to its `rt_schedule`, is the startup of `SchedulerSpec`. */
  lemma WholeStartup(s: State, idle: nat, c: nat, t: nat)
    requires Whole(s, idle) && c !in s.calls && t in s.sched.threads && s.sched.threads[t].stat.Init?
    ensures s.sched.threads[t].initPrio < |s.sched.lists|
    ensures var v := Run(s, idle, [Prepare(t)] + [ResumeTest(c, t), ResumeDetach(c), ResumeInsert(c)]);
            && v.was == s.was && v.calls == s.calls
            && Startup(s.sched, t) == if v.sched.current != NONE then Schedule(v.sched) else v.sched
  {
    hide ListsInv, PrioritiesFit, Schedule, Run;
    FitOf(s.sched, idle, t);
    var s1 := Step(s, idle, Prepare(t));
    RestWhole(s, idle, Prepare(t));
    RunStep(s, idle, Prepare(t), [ResumeTest(c, t), ResumeDetach(c), ResumeInsert(c)]);
    WholeResume(s1, idle, c, t);
  }

  lemma RunTwo(s: State, idle: nat, a: Op, b: Op)
    ensures Run(s, idle, [a, b]) == Step(Step(s, idle, a), idle, b)
  {
    hide Step;
    assert [a, b] == [a] + [b] && [b] == [b] + [];
    RunStep(s, idle, a, [b]);
    RunStep(Step(s, idle, a), idle, b, []);
  }

  lemma RunThree(s: State, idle: nat, a: Op, b: Op, c: Op)
    ensures Run(s, idle, [a, b, c]) == Step(Step(Step(s, idle, a), idle, b), idle, c)
  {
    hide Step;
    assert [a, b, c] == [a] + [b, c] && [b, c] == [b] + [c] && [c] == [c] + [];
    RunStep(s, idle, a, [b, c]);
    RunStep(Step(s, idle, a), idle, b, [c]);
    RunStep(Step(Step(s, idle, a), idle, b), idle, c, []);
  }

  /** A resume inside another one, between its two regions: the thread is in its list twice. */
  lemma NestedResume(s: State, idle: nat, a: nat, b: nat, t: nat)
    requires Whole(s, idle) && a !in s.calls && b !in s.calls && a != b
    requires t in s.sched.threads && s.sched.threads[t].stat.Suspended?
    ensures !Inv(Run(s, idle, [ResumeTest(a, t), ResumeDetach(a),
                               ResumeTest(b, t), ResumeDetach(b), ResumeInsert(b), ResumeInsert(a)]).sched, idle)
  {
    hide Step, Inv, Run;
    var ops := [ResumeTest(b, t), ResumeDetach(b), ResumeInsert(b)];
    var s1 := Step(s, idle, ResumeTest(a, t));
    var s2 := Step(s1, idle, ResumeDetach(a));
    assert [ResumeTest(a, t), ResumeDetach(a), ResumeTest(b, t), ResumeDetach(b), ResumeInsert(b), ResumeInsert(a)]
        == [ResumeTest(a, t)] + ([ResumeDetach(a)] + (ops + [ResumeInsert(a)]));
    RunStep(s, idle, ResumeTest(a, t), [ResumeDetach(a)] + (ops + [ResumeInsert(a)]));
    RunStep(s1, idle, ResumeDetach(a), ops + [ResumeInsert(a)]);
    ResumeBegins(s, idle, a, t);
    RunConcat(s2, idle, ops, [ResumeInsert(a)]);
    WholeResume(s2, idle, b, t);
    var s3 := Run(s2, idle, ops);
    assert [ResumeInsert(a)] == [ResumeInsert(a)] + [];
    RunStep(s3, idle, ResumeInsert(a), []);
    RunNone(Step(s3, idle, ResumeInsert(a)), idle);
    ResumedWhole(s2, idle, t);
    ResumeWhole(s3, idle, ResumeInsert(a));
  }

  /** A change of priority inside a delete: the closed thread is in a ready list. */
  lemma ChangeInDelete(s: State, idle: nat, c: nat, t: nat, p: nat)
    requires Whole(s, idle) && c !in s.calls && t != idle && p < |s.sched.lists| && InList(s.sched, t)
    ensures var v := Run(s, idle, [DeleteUnlink(c, t), Change(t, p), DeleteClose(c)]).sched;
            t in v.threads && v.threads[t].stat.Closed? && p < |v.lists| && t in v.lists[p]
  {
    hide ListsInv, PrioritiesFit, Remove, Run;
    FitOf(s.sched, idle, t);
    RunThree(s, idle, DeleteUnlink(c, t), Change(t, p), DeleteClose(c));
    var s1 := Step(s, idle, DeleteUnlink(c, t));
    DeleteWhole(s, idle, DeleteUnlink(c, t));
    assert t !in s.was && s1.was[t].Ready?;
    var s2 := Step(s1, idle, Change(t, p));
    ChangeWhole(s1, idle, t, p);
    assert s2.sched.lists[p] == s1.sched.lists[p] + [t];
  }

  lemma RunNone(s: State, idle: nat)
    ensures Run(s, idle, []) == s
  {
  }

  lemma {:induction false} RunConcat(s: State, idle: nat, p: seq<Op>, q: seq<Op>)
    ensures Run(s, idle, p + q) == Run(Run(s, idle, p), idle, q)
    decreases |p|
  {
    if p == [] {
      assert p + q == q;
    } else {
      assert (p + q)[1..] == p[1..] + q;
      RunConcat(Step(s, idle, p[0]), idle, p[1..], q);
    }
  }

  lemma ResumedWhole(s: State, idle: nat, t: nat)
    requires Whole(s, idle) && t in s.sched.threads && s.sched.threads[t].stat.Suspended?
    ensures s.sched.threads[t].prio < |s.sched.lists| && Whole(s.(sched := Resume(s.sched, t)), idle)
    ensures InList(Resume(s.sched, t), t)
  {
    hide ListsInv;
    InsertInv(s.sched, idle, t);
  }
}
