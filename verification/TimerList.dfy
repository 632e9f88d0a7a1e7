/**
 The timer skip list of `timer.c`, changed in place. Row `levels - 1` is the bottom row with
 all timers that run; the rows above hold fewer and fewer of them. The position
 `k` in a row stands for the list node behind its first `k` timers.
 */
module TimerList {
  import opened Seqs
  import opened Ordered
  import opened TimerSpec

  /** The rows are the bottom row with only the timers of some height kept. */
  ghost predicate RowsOf(rows: seq<seq<nat>>, h: Heights)
    requires 0 < |rows|
  {
    && (forall i :: 0 <= i < |rows| ==> rows[i] == Keep(rows[|rows| - 1], h, |rows| - i))
    && (forall x :: x in rows[|rows| - 1] ==> 1 <= HeightOf(h, x))
  }

  /** `rows'` has the timer `x` linked into its lowest `h` rows, at the positions `heads`. */
  ghost predicate Linked(rows: seq<seq<nat>>, rows': seq<seq<nat>>, x: nat, heads: seq<nat>, h: nat) {
    && 1 <= h <= |rows| == |rows'| == |heads|
    && (forall i :: 0 <= i < |rows| ==> heads[i] <= |rows[i]|)
    && (forall i :: 0 <= i < |rows| - h ==> rows'[i] == rows[i])
    && (forall i :: |rows| - h <= i < |rows| ==> rows'[i] == rows[i][..heads[i]] + [x] + rows[i][heads[i]..])
  }

  class TimerList {
    const levels: nat             // RT_TIMER_SKIP_LIST_LEVEL
    const rows: array<seq<nat>>   // rt_timer_list
    var timers: map<nat, Timer>
    var tick: nat                 // rt_tick
    var random: nat               // random_nr
    ghost var now: nat
    ghost var due: Due
    ghost var heights: Heights

    ghost predicate Shaped()
      reads this
    {
      0 < levels == rows.Length
    }

    ghost function View(): Wheel
      requires Shaped()
      reads this, rows
    {
      Wheel(now, rows[levels - 1], due, timers)
    }

    ghost predicate Valid(lo: nat)
      reads this, rows
    {
      && Shaped() && Sound(View()) && RowsOf(rows[..], heights) && Window(View(), lo)
      && lo <= now < lo + HALF && tick == now % WORD
    }

    constructor (levels: nat, start: nat)
      requires 0 < levels && start < WORD
      ensures Valid(start) && View() == Wheel(start, [], map[], map[]) && this.levels == levels && fresh(rows)
    {
      this.levels := levels;
      rows := new seq<nat>[levels](_ => []);
      timers, tick, random := map[], start, 0;
      now, due, heights := start, map[], map[];
    }

    /** Each row is a subsequence of the row below. */
    lemma RowsNest(lo: nat, i: nat)
      requires Valid(lo) && i + 1 < levels
      ensures Subsequence(rows[i], rows[i + 1])
    {
      KeepSubsequence(rows[levels - 1], heights, levels - i, levels - i - 1);
    }

    /** `_rt_timer_remove`: take the timer out of every row. */
    method Unlink(x: nat)
      requires Shaped()
      modifies rows
      ensures forall i :: 0 <= i < levels ==> rows[i] == Remove(old(rows[i]), x)
    {
      hide Remove;
      var i := 0;
      while i < levels
        invariant 0 <= i <= levels
        invariant forall j :: 0 <= j < i ==> rows[j] == Remove(old(rows[j]), x)
        invariant forall j :: i <= j < levels ==> rows[j] == old(rows[j])
      {
        rows[i] := Remove(rows[i], x);
        i := i + 1;
      }
    }

    /** Walk down the rows to the place of a timer due at `d`: in each row the place a scan finds. */
    method Descend(timeout: nat, ghost d: nat, ghost lo: nat) returns (heads: seq<nat>)
      requires Valid(lo) && timeout == d % WORD && lo <= d < lo + HALF
      ensures |heads| == levels && forall i :: 0 <= i < levels ==> Cut(rows[i], due, d, heads[i])
    {
      hide Sound, Keep, Subsequence;
      heads := [];
      var level: nat, k: nat := 0, 0;
      while level < levels
        invariant 0 <= level <= levels == |heads| + (levels - level)
        invariant forall i :: 0 <= i < level ==> Cut(rows[i], due, d, heads[i])
        invariant level < levels ==> k <= |rows[level]| && Passed(rows[level], due, d, k)
      {
        k := Scan(level, k, timeout, d, lo);
        heads := heads + [k];
        if level + 1 < levels {
          if 0 < k {
            var x := rows[level][k - 1];
            RowBelow(lo, level, k - 1);
            k := Find(rows[level + 1], x) + 1;
            RowSorted(lo, level + 1);
            PassedUpTo(rows[level + 1], due, d, k);
          }
        }
        level := level + 1;
      }
    }

    /** Scan one row from position `k` on. */
    method Scan(level: nat, start: nat, timeout: nat, ghost d: nat, ghost lo: nat) returns (k: nat)
      requires Valid(lo) && timeout == d % WORD && lo <= d < lo + HALF
      requires level < levels && start <= |rows[level]| && Passed(rows[level], due, d, start)
      ensures Cut(rows[level], due, d, k)
    {
      hide Sound, Keep, At, Sorted;
      var row := rows[level];
      RowSorted(lo, level);
      k := start;
      while k < |row|
        invariant k <= |row| && Passed(row, due, d, k)
      {
        RowMember(lo, level, k);
        var t := timers[row[k]];
        MinusOrders(At(due, row[k]), d);
        if Minus(t.timeout, timeout) == 0 {
        } else if Minus(t.timeout, timeout) < HALF {
          break;
        }
        k := k + 1;
      }
      CutHere(row, due, d, k);
    }

    lemma RowSorted(lo: nat, i: nat)
      requires Valid(lo) && i < levels
      ensures Sorted(rows[i], due)
    {
      hide Keep, At, Sorted, NoDup, HeightOf, Window;
      KeepSorted(rows[levels - 1], due, heights, levels - i);
    }

    lemma RowMember(lo: nat, i: nat, k: nat)
      requires Valid(lo) && i < levels && k < |rows[i]|
      ensures var x := rows[i][k];
              x in timers && timers[x].timeout == At(due, x) % WORD && lo <= At(due, x) < lo + HALF
    {
      hide Sorted, NoDup, Keep, At;
      KeepElements(rows[levels - 1], heights, levels - i, rows[i][k]);
    }

    lemma RowBelow(lo: nat, i: nat, k: nat)
      requires Valid(lo) && i + 1 < levels && k < |rows[i]|
      ensures rows[i][k] in rows[i + 1]
    {
      hide Sorted, NoDup, Keep, At, Sound;
      KeepElements(rows[levels - 1], heights, levels - i, rows[i][k]);
      KeepElements(rows[levels - 1], heights, levels - i - 1, rows[i][k]);
    }

    /** Link the timer into the bottom row and, by the bits of a counter, into rows above. */
    method LinkRows(x: nat, heads: seq<nat>) returns (h: nat)
      requires Shaped() && |heads| == levels && forall i :: 0 <= i < levels ==> heads[i] <= |rows[i]|
      modifies rows, `random
      ensures Linked(old(rows[..]), rows[..], x, heads, h)
    {
      random := (random + 1) % WORD;
      var test := random;
      rows[levels - 1] := rows[levels - 1][..heads[levels - 1]] + [x] + rows[levels - 1][heads[levels - 1]..];
      h := 1;
      while h < levels
        invariant Linked(old(rows[..]), rows[..], x, heads, h)
      {
        if test % 4 != 0 {
          break;
        }
        var i := levels - h - 1;
        rows[i] := rows[i][..heads[i]] + [x] + rows[i][heads[i]..];
        test := test / 4;
        h := h + 1;
      }
    }

    /** `rt_timer_start`, when nothing comes in between; its end must lie in the window from `lo` on. */
    method Start(x: nat, ghost lo: nat)
      requires Valid(lo) && x in timers && now + timers[x].init < lo + HALF
      modifies this, rows
      ensures Valid(lo) && View() == TimerSpec.Start(old(View()), x)
    {
      hide Sound, RowsOf, Window, Place, Remove, InPlace;
      StartSteps(View(), x);
      StopFacts(View(), x);
      Halt(x, lo);
      var t := tick;
      NotThere(View().order, due, x, now + timers[x].init);
      Store(x, t, now, lo);
      AtOther(old(due), x, now + timers[x].init);
      Link(x, lo);
    }

    /** Between the regions of a start: the tick `t` read at time `begun` gives the end of the timer. */
    method Store(x: nat, t: nat, ghost begun: nat, ghost lo: nat)
      requires Valid(lo) && x in timers && t == begun % WORD && lo <= begun + timers[x].init < lo + HALF
      modifies this
      ensures View() == SetEnd(old(View()), x, begun + old(timers[x].init))
      ensures Valid(lo) <==> InPlace(rows[levels - 1], old(due), x, begun + old(timers[x].init))
      ensures tick == old(tick) && random == old(random)
    {
      hide Sound, RowsOf, InPlace, Place, Window, At;
      ghost var w, d := View(), begun + timers[x].init;
      EndWraps(begun, timers[x].init);
      timers := timers[x := timers[x].(timeout := (t + timers[x].init) % WORD)];
      due := due[x := d];
      SetSound(w, x, d);
      SetWindow(w, x, d, lo);
    }

    /** The second region of a start: link the timer by the end stored in it. */
    method Link(x: nat, ghost lo: nat)
      requires Valid(lo) && x in timers && timers[x].timeout == At(due, x) % WORD
      requires lo <= At(due, x) < lo + HALF
      modifies this, rows
      ensures View() == TimerSpec.Link(old(View()), x)
      ensures Valid(lo) <==> x !in old(rows[levels - 1])
    {
      hide Sound, RowsOf, Place, Linked, Cut, At;
      ghost var w, rows0, d := View(), rows[..], At(due, x);
      var heads := Descend(timers[x].timeout, d, lo);
      HeadsFit(rows[..], due, d, heads);
      var h := LinkRows(x, heads);
      timers := timers[x := timers[x].(active := true)];
      BottomRow(rows0, rows[..], w.due, d, x, heads, h);
      LinkSound(w, x);
      if x !in w.order {
        LinkedRows(w, heights, h, d, x, rows0, rows[..], heads);
        heights := heights[x := h];
      }
    }

    /** Take the timer out of the list and clear its flag. */
    method Halt(x: nat, ghost lo: nat)
      requires Valid(lo) && x in timers
      modifies this, rows
      ensures Valid(lo) && View() == TimerSpec.Stop(old(View()), x)
      ensures heights == old(heights) && now == old(now) && due == old(due) && tick == old(tick) && x in timers
    {
      hide Sound, Keep, Window, Remove;
      ghost var w := View();
      Unlink(x);
      timers := timers[x := timers[x].(active := false)];
      StopSound(w, x);
      StopWindow(w, x, lo);
      StopInactive(w, x);
      forall i | 0 <= i < levels ensures rows[i] == Keep(rows[levels - 1], heights, levels - i) {
        KeepRemove(w.order, heights, levels - i, x);
      }
      forall y | y in rows[levels - 1] ensures 1 <= HeightOf(heights, y) {
        RemoveElements(w.order, x, y);
      }
    }

    /** `rt_timer_stop`: an error if the timer does not run. */
    method Stop(x: nat, ghost lo: nat) returns (ok: bool)
      requires Valid(lo) && x in timers
      modifies this, rows
      ensures Valid(lo) && View() == TimerSpec.Stop(old(View()), x) && ok == old(timers[x].active)
    {
      if !timers[x].active {
        return false;
      }
      Halt(x, lo);
      return true;
    }

    /** `rt_timer_check`; `fired` lists the timers whose callbacks are called, in that order. */
    method Check(ghost lo: nat) returns (fired: seq<nat>)
      requires Valid(lo) && Timely(View())
      modifies this, rows
      ensures Valid(now) && (View(), fired) == TimerSpec.Check(old(View())) && tick == old(tick)
    {
      hide Sound, RowsOf, Window, Timely, TimerSpec.Check, At, UpTo;
      ghost var lo', w := lo, View();
      fired := [];
      while rows[levels - 1] != []
        invariant Valid(lo') && Timely(View()) && tick == old(tick)
        invariant TimerSpec.Check(w).0 == TimerSpec.Check(View()).0
        invariant TimerSpec.Check(w).1 == fired + TimerSpec.Check(View()).1
        decreases |UpTo(View().order, View().due, View().now)|
      {
        ghost var u := View();
        var x := rows[levels - 1][0];
        HeadFacts(u, lo');
        MinusOrders(now, At(due, x));
        CheckStep(u);
        if Minus(tick, timers[x].timeout) >= HALF {
          break;
        }
        Fire(x, lo');
        fired := fired + [x];
        lo' := At(u.due, x);
        FireTimely(u);
        UpToStep(u.order, u.due, u.now);
        FireOneShape(u);
      }
      CheckStep(View());
      NoneLeft(View(), lo');
      assert fired + [] == fired;
    }

    /** The first timer fires. */
    method Fire(x: nat, ghost lo: nat)
      requires Valid(lo) && Timely(View()) && rows[levels - 1] != [] && x == rows[levels - 1][0] && x in timers
      requires At(due, x) <= now
      modifies this, rows
      ensures Valid(At(old(due), x)) && View() == FireOne(old(View())) && tick == old(tick)
    {
      hide Sound, RowsOf, Window, Timely, At, Place, Remove;
      ghost var w := View();
      HeadFacts(w, lo);
      WindowFrom(w, lo);
      StartAgain(w, x);
      StopFacts(w, x);
      StopInactive(w, x);
      var again := timers[x].periodic && timers[x].active;
      Halt(x, At(due, x));
      if again {
        Start(x, At(due, x));
      }
    }

    /** `rt_tick_increase` as far as timers go: count the tick, then check; timers may be `late` ticks overdue. */
    method Tick(ghost late: nat) returns (fired: seq<nat>)
      requires late <= now && Valid(now - late) && Calm(View(), late)
      modifies this, rows
      ensures Valid(now) && late <= now && Valid(now - late) && Calm(View(), late)
      ensures (View(), fired) == TimerSpec.Tick(old(View()))
    {
      hide Sound, RowsOf, At, TimerSpec.Check;
      CalmTick(View(), late);
      TickTimely(View(), late);
      ghost var lo := now - late;
      tick := (tick + 1) % WORD;
      now := now + 1;
      fired := Check(lo);
      CalmWindow(View(), late);
    }

    /** `rt_timer_list_next_timeout`: the time of the timer due first. */
    method NextTimeout(ghost lo: nat) returns (t: nat)
      requires Valid(lo)
      ensures rows[levels - 1] == [] ==> t == TICK_MAX
      ensures rows[levels - 1] != [] ==>
                exists x :: x in rows[levels - 1] && t == At(due, x) % WORD
                            && forall y :: y in rows[levels - 1] ==> At(due, x) <= At(due, y)
    {
      if rows[levels - 1] == [] {
        return TICK_MAX;
      }
      HeadFacts(View(), lo);
      Tail(rows[levels - 1], due);
      assert rows[levels - 1][0] in rows[levels - 1];
      return timers[rows[levels - 1][0]].timeout;
    }
  }

  /** The first `k` timers are due at `d` or before. */
  ghost predicate Passed(s: seq<nat>, due: Due, d: nat, k: nat) {
    k <= |s| && forall j :: 0 <= j < k ==> At(due, s[j]) <= d
  }

  lemma PassedUpTo(s: seq<nat>, due: Due, d: nat, k: nat)
    requires Sorted(s, due) && 0 < k <= |s| && At(due, s[k - 1]) <= d
    ensures Passed(s, due, d, k)
  {
    hide At;
  }

  lemma CutHere(s: seq<nat>, due: Due, d: nat, k: nat)
    requires Sorted(s, due) && Passed(s, due, d, k) && (k < |s| ==> d < At(due, s[k]))
    ensures Cut(s, due, d, k)
  {
    hide At;
  }

  lemma StopWindow(w: Wheel, x: nat, lo: nat)
    requires Sound(w) && Window(w, lo) && x in w.timers
    ensures Window(Stop(w, x), lo)
  {
    hide Sorted, NoDup, Remove, At;
    StopSound(w, x);
  }

  lemma SetWindow(w: Wheel, x: nat, d: nat, lo: nat)
    requires Window(w, lo) && x in w.timers && lo <= d < lo + HALF
    ensures Window(SetEnd(w, x, d), lo)
  {
    hide At;
    AtOther(w.due, x, d);
  }

  lemma EndWraps(begun: nat, init: nat)
    ensures (begun % WORD + init) % WORD == (begun + init) % WORD
  {
  }

  lemma StopInactive(w: Wheel, x: nat)
    requires Sound(w) && x in w.timers
    ensures Stop(w, x) == w.(order := Remove(w.order, x), timers := w.timers[x := w.timers[x].(active := false)])
  {
    hide Sorted, NoDup, At;
    if !w.timers[x].active {
      RemoveAbsent(w.order, x);
      assert w.timers[x := w.timers[x]] == w.timers;
    }
  }

  /** Stopping a timer before it is started changes nothing. */
  lemma StartAgain(w: Wheel, x: nat)
    requires Sound(w) && x in w.timers
    ensures x in Stop(w, x).timers && Start(Stop(w, x), x) == Start(w, x)
  {
    hide Sorted, NoDup, Place, At;
    RemoveElements(w.order, x, x);
    RemoveAbsent(Remove(w.order, x), x);
    if !w.timers[x].active {
      RemoveAbsent(w.order, x);
    }
  }

  lemma StopFacts(w: Wheel, x: nat)
    requires Sound(w) && x in w.timers
    ensures var u := Stop(w, x);
            && u.now == w.now && u.due == w.due && x !in u.order && Sorted(u.order, u.due) && NoDup(u.order)
            && x in u.timers && u.timers[x].init == w.timers[x].init && Remove(u.order, x) == u.order
  {
    hide Sorted, NoDup, Remove, At;
    StopSound(w, x);
    RemoveAbsent(Stop(w, x).order, x);
  }

  lemma HeadsFit(rows: seq<seq<nat>>, due: Due, d: nat, heads: seq<nat>)
    requires |rows| == |heads| && forall i :: 0 <= i < |rows| ==> Cut(rows[i], due, d, heads[i])
    ensures forall i :: 0 <= i < |rows| ==> heads[i] <= |rows[i]|
  {
  }

  lemma BottomRow(rows: seq<seq<nat>>, rows': seq<seq<nat>>, due: Due, d: nat, x: nat, heads: seq<nat>, h: nat)
    requires Linked(rows, rows', x, heads, h) && Cut(rows[|rows| - 1], due, d, heads[|rows| - 1])
    ensures rows'[|rows'| - 1] == Place(rows[|rows| - 1], due, d, x)
  {
    hide Cut, Place;
    PlaceAtCut(rows[|rows| - 1], due, d, x, heads[|rows| - 1]);
  }

  /** Linking a timer at the cut of its rows is placing it in the sequence. */
  lemma LinkedRows(w: Wheel, h: Heights, hx: nat, d: nat, x: nat, rows: seq<seq<nat>>, rows': seq<seq<nat>>,
                   heads: seq<nat>)
    requires Linked(rows, rows', x, heads, hx) && Sound(w) && RowsOf(rows, h)
    requires x in w.timers && x !in w.order && rows[|rows| - 1] == w.order
    requires forall i :: 0 <= i < |rows| ==> Cut(rows[i], w.due, d, heads[i])
    ensures RowsOf(rows', h[x := hx])
    ensures rows'[|rows'| - 1] == Place(w.order, w.due, d, x)
  {
    hide Sorted, NoDup, At, Place, Keep, Cut;
    var h', n := h[x := hx], |rows|;
    PlaceAtCut(w.order, w.due, d, x, heads[n - 1]);
    forall i | 0 <= i < n ensures rows'[i] == Keep(rows'[n - 1], h', n - i) {
      KeepPlace(w.order, w.due, h', n - i, d, x);
      KeepFrame(w.order, h, h', n - i);
      PlaceAtCut(rows[i], w.due, d, x, heads[i]);
    }
    assert rows'[n - 1] == Place(w.order, w.due, d, x);
    forall y | y in rows'[n - 1] ensures 1 <= HeightOf(h', y) {
      PlaceElements(w.order, w.due, d, x, y);
      if y != x {
        assert HeightOf(h', y) == HeightOf(h, y);
      }
    }
  }

  /** A periodic timer that fires late still ends within the window when started anew. */
  ghost predicate Timely(w: Wheel) {
    forall x :: x in w.order && x in w.timers && w.timers[x].periodic ==> w.now + w.timers[x].init < At(w.due, x) + HALF
  }

  lemma HeadFacts(w: Wheel, lo: nat)
    requires Sound(w) && Window(w, lo) && lo <= w.now < lo + HALF && w.order != []
    ensures var x := w.order[0];
            && x in w.timers && w.timers[x].timeout == At(w.due, x) % WORD && w.timers[x].active
            && lo <= At(w.due, x) < lo + HALF
            && (Timely(w) && w.timers[x].periodic ==> w.now + w.timers[x].init < At(w.due, x) + HALF)
  {
    hide At, Sorted, NoDup;
    assert w.order[0] in w.order;
  }

  /** The window can start at the first timer. */
  lemma WindowFrom(w: Wheel, lo: nat)
    requires Sound(w) && Window(w, lo) && w.order != []
    ensures Window(w, At(w.due, w.order[0]))
  {
    hide At, NoDup;
    assert lo <= At(w.due, w.order[0]);
    Tail(w.order, w.due);
  }

  lemma FireTimely(w: Wheel)
    requires Sound(w) && Timely(w) && w.order != []
    ensures w.order[0] in w.timers && Timely(FireOne(w))
  {
    hide At, Sorted, NoDup, FireOne, Place;
    FireOneShape(w);
    var x, v := w.order[0], FireOne(w);
    forall y | y in v.order && y in v.timers && v.timers[y].periodic
      ensures v.now + v.timers[y].init < At(v.due, y) + HALF
    {
      PlaceElements(w.order[1..], v.due, At(v.due, x), x, y);
    }
  }

  /** When no timer is left to fire, all end in the future. */
  lemma NoneLeft(w: Wheel, lo: nat)
    requires Sound(w) && Window(w, lo) && lo <= w.now && (w.order == [] || w.now < At(w.due, w.order[0]))
    ensures Window(w, w.now)
  {
    hide At, Sorted, NoDup, UpTo;
    NoneExpired(w);
  }

  lemma TickTimely(w: Wheel, late: nat)
    requires Calm(w, late)
    ensures var u := w.(now := w.now + 1); Sound(u) && Window(u, w.now - late) && Timely(u)
  {
    hide At, Sorted, NoDup;
  }
}
