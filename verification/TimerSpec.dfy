/**
 What the timer list of `timer.c` does, in true time: a sequence of timers sorted by
 the time they are due, timers due at the same time in the order they were started. The
 rows of the skip list are this sequence with only the timers of some height kept.
 */
module TimerSpec {
  import opened Seqs
  import opened Ordered

  const WORD := 0x1_0000_0000
  const TICK_MAX := 0xffff_ffff      // RT_TICK_MAX
  const HALF := 0x7fff_ffff          // RT_TICK_MAX / 2

  // ---------------------------------------------------------------------------------
  // Comparing ticks that wrap round
  // ---------------------------------------------------------------------------------

  /** `a - b` on 32-bit words. */
  function Minus(a: nat, b: nat): nat {
    (a - b) % WORD
  }

  /** For times less than half the range apart the wrapped difference tells which is later. */
  lemma MinusOrders(a: nat, b: nat)
    requires a < b + HALF && b < a + HALF
    ensures Minus(a % WORD, b % WORD) == 0 <==> a == b
    ensures 0 < Minus(a % WORD, b % WORD) < HALF <==> b < a
  {
    assert (a % WORD - b % WORD) % WORD == (a - b) % WORD;
  }

  /** Times less than a full range apart are told apart rightly exactly within these bounds. */
  lemma MinusExact(a: nat, b: nat)
    requires a < b + WORD && b < a + WORD
    ensures (0 < Minus(a % WORD, b % WORD) < HALF <==> b < a) <==> a < b + HALF && b <= a + (WORD - HALF)
  {
    assert (a % WORD - b % WORD) % WORD == (a - b) % WORD;
  }

  /** When each started timer is due, in ticks since the system came up. */
  type Due = Keys

  // ---------------------------------------------------------------------------------
  // The rows of the skip list
  // ---------------------------------------------------------------------------------

  /** In how many rows each timer stands. */
  type Heights = map<nat, nat>

  function HeightOf(h: Heights, x: nat): nat {
    if x in h then h[x] else 0
  }

  /** The timers that stand in at least `k` rows, in order. */
  function Keep(s: seq<nat>, h: Heights, k: nat): seq<nat> {
    if s == [] then [] else if HeightOf(h, s[0]) >= k then [s[0]] + Keep(s[1..], h, k) else Keep(s[1..], h, k)
  }

  /** `a` is `b` with some elements left out. */
  ghost predicate Subsequence(a: seq<nat>, b: seq<nat>) {
    a == [] || (b != [] && ((a[0] == b[0] && Subsequence(a[1..], b[1..])) || Subsequence(a, b[1..])))
  }

  /** Each row is a subsequence of the row below. */
  lemma {:induction false} KeepSubsequence(s: seq<nat>, h: Heights, k: nat, m: nat)
    requires m <= k
    ensures Subsequence(Keep(s, h, k), Keep(s, h, m))
  {
    if s != [] {
      KeepSubsequence(s[1..], h, k, m);
      var a, b := Keep(s[1..], h, k), Keep(s[1..], h, m);
      if HeightOf(h, s[0]) >= k {
        assert ([s[0]] + a)[1..] == a && ([s[0]] + b)[1..] == b;
      } else if HeightOf(h, s[0]) >= m {
        assert ([s[0]] + b)[1..] == b;
      }
    }
  }

  lemma {:induction false} KeepElements(s: seq<nat>, h: Heights, k: nat, y: nat)
    ensures y in Keep(s, h, k) <==> y in s && HeightOf(h, y) >= k
  {
    if s != [] {
      KeepElements(s[1..], h, k, y);
      assert y in s <==> y == s[0] || y in s[1..];
    }
  }

  lemma {:induction false} KeepSorted(s: seq<nat>, due: Due, h: Heights, k: nat)
    requires Sorted(s, due) && NoDup(s)
    ensures Sorted(Keep(s, h, k), due) && NoDup(Keep(s, h, k))
  {
    hide Sorted, NoDup, At, HeightOf;
    if s != [] {
      Tail(s, due);
      KeepSorted(s[1..], due, h, k);
      var t := Keep(s[1..], h, k);
      forall y | y in t ensures At(due, s[0]) <= At(due, y) && y != s[0] {
        KeepElements(s[1..], h, k, y);
      }
      ConsSorted(s[0], t, due);
    }
  }

  lemma {:induction false} KeepFrame(s: seq<nat>, h: Heights, h': Heights, k: nat)
    requires forall y :: y in s ==> HeightOf(h, y) == HeightOf(h', y)
    ensures Keep(s, h, k) == Keep(s, h', k)
  {
    if s != [] {
      assert s[0] in s;
      KeepFrame(s[1..], h, h', k);
    }
  }

  /** Removing a timer from the sequence removes it from every row. */
  lemma {:induction false} KeepRemove(s: seq<nat>, h: Heights, k: nat, x: nat)
    ensures Keep(Remove(s, x), h, k) == Remove(Keep(s, h, k), x)
  {
    if s != [] {
      KeepRemove(s[1..], h, k, x);
      var t := Keep(s[1..], h, k);
      assert ([s[0]] + t)[1..] == t;
      assert ([s[0]] + Remove(s[1..], x))[1..] == Remove(s[1..], x);
    }
  }

  /** A scan of a row in which the timer is to stand finds the place it has in the sequence. */
  lemma {:induction false} KeepPlace(s: seq<nat>, due: Due, h: Heights, k: nat, d: nat, x: nat)
    requires Sorted(s, due) && NoDup(s) && x !in s
    ensures Keep(Place(s, due, d, x), h, k) ==
            if HeightOf(h, x) >= k then Place(Keep(s, h, k), due, d, x) else Keep(s, h, k)
  {
    hide Sorted, NoDup, At, HeightOf;
    if s == [] {
      assert [x][1..] == [];
      assert Keep([x], h, k) == if HeightOf(h, x) >= k then [x] + Keep([], h, k) else Keep([], h, k);
    } else {
      Tail(s, due);
      var t := Keep(s[1..], h, k);
      if At(due, s[0]) <= d {
        KeepPlace(s[1..], due, h, k, d, x);
        var p := Place(s[1..], due, d, x);
        assert ([s[0]] + p)[1..] == p && ([s[0]] + t)[1..] == t;
      } else {
        assert ([x] + s)[1..] == s;
        KeepLater(s, due, h, k, d, x);
      }
    }
  }

  lemma KeepLater(s: seq<nat>, due: Due, h: Heights, k: nat, d: nat, x: nat)
    requires forall y :: y in s ==> d < At(due, y)
    ensures Place(Keep(s, h, k), due, d, x) == [x] + Keep(s, h, k)
  {
    var t := Keep(s, h, k);
    if t != [] {
      KeepElements(s, h, k, t[0]);
    }
  }

  // ---------------------------------------------------------------------------------
  // Timers
  // ---------------------------------------------------------------------------------

  /** `struct rt_timer`; `timeout` and `init` are `timeout_tick` and `init_tick`. */
  datatype Timer = Timer(timeout: nat, init: nat, periodic: bool, active: bool)

  /** All timers, those that run in the order in which they are due. */
  datatype Wheel = Wheel(now: nat, order: seq<nat>, due: Due, timers: map<nat, Timer>)

  /** A timer runs exactly when it is in the sequence; a periodic one waits for at least a tick. */
  ghost predicate Sound(w: Wheel) {
    && Sorted(w.order, w.due) && NoDup(w.order)
    && (forall x :: x in w.order ==> x in w.timers)
    && (forall x :: x in w.timers ==> (w.timers[x].active <==> x in w.order))
    && (forall x :: x in w.timers ==> w.timers[x].init < HALF && (w.timers[x].periodic ==> 0 < w.timers[x].init))
  }

  /** Store the end `d` of a timer. */
  function SetEnd(w: Wheel, x: nat, d: nat): Wheel
    requires x in w.timers
  {
    w.(due := w.due[x := d], timers := w.timers[x := w.timers[x].(timeout := d % WORD)])
  }

  /** Put a timer into the sequence, by the end stored in it. */
  function Link(w: Wheel, x: nat): Wheel
    requires x in w.timers
  {
    w.(order := Place(w.order, w.due, At(w.due, x), x), timers := w.timers[x := w.timers[x].(active := true)])
  }

  /** `rt_timer_stop`, when nothing comes in between. */
  function Stop(w: Wheel, x: nat): Wheel
    requires x in w.timers
  {
    if w.timers[x].active then w.(order := Remove(w.order, x), timers := w.timers[x := w.timers[x].(active := false)])
    else w
  }

  /** `rt_timer_start`, when nothing comes in between: the timer leaves the sequence and joins it again. */
  function Start(w: Wheel, x: nat): Wheel
    requires x in w.timers
  {
    var d := w.now + w.timers[x].init;
    w.(order := Place(Remove(w.order, x), w.due, d, x), due := w.due[x := d],
       timers := w.timers[x := w.timers[x].(timeout := d % WORD, active := true)])
  }

  /** The regions of `rt_timer_start`, one after the other. */
  lemma StartSteps(w: Wheel, x: nat)
    requires Sound(w) && x in w.timers
    ensures var u := Stop(w, x); x in u.timers && Link(SetEnd(u, x, w.now + w.timers[x].init), x) == Start(w, x)
  {
    hide Sorted, NoDup, Place, At, Remove;
    var d := w.now + w.timers[x].init;
    if !w.timers[x].active {
      RemoveAbsent(w.order, x);
    }
    AtOther(w.due, x, d);
    RemoveElements(w.order, x, x);
    PlaceFrame(Remove(w.order, x), w.due, w.due[x := d], d, x);
  }

  /** Linking keeps the sequence sound exactly when the timer is not linked yet. */
  lemma LinkSound(w: Wheel, x: nat)
    requires Sound(w) && x in w.timers
    ensures Sound(Link(w, x)) <==> x !in w.order
    ensures forall y :: y in Link(w, x).order <==> y == x || y in w.order
  {
    hide Sorted, NoDup, Place, At;
    var v, d := Link(w, x), At(w.due, x);
    forall y ensures y in v.order <==> y == x || y in w.order {
      PlaceElements(w.order, w.due, d, x, y);
    }
    if x in w.order {
      PlaceTwice(w.order, w.due, d, x);
    } else {
      PlaceSorted(w.order, w.due, x);
    }
  }

  /** Storing another end keeps it sound exactly when a linked timer stays in its place. */
  lemma SetSound(w: Wheel, x: nat, d: nat)
    requires Sound(w) && x in w.timers
    ensures Sound(SetEnd(w, x, d)) <==> InPlace(w.order, w.due, x, d)
  {
    hide Sorted, NoDup, InPlace, At;
    ChangeSorted(w.order, w.due, x, d);
  }

  lemma StartSound(w: Wheel, x: nat)
    requires Sound(w) && x in w.timers
    ensures Sound(Start(w, x)) && forall y :: y in Start(w, x).order <==> y == x || y in w.order
  {
    hide Sorted, NoDup, Remove, At, InPlace;
    var d := w.now + w.timers[x].init;
    StartSteps(w, x);
    StopSound(w, x);
    NotThere(Stop(w, x).order, w.due, x, d);
    SetSound(Stop(w, x), x, d);
    LinkSound(SetEnd(Stop(w, x), x, d), x);
  }

  lemma StopSound(w: Wheel, x: nat)
    requires Sound(w) && x in w.timers
    ensures Sound(Stop(w, x)) && forall y :: y in Stop(w, x).order <==> y != x && y in w.order
  {
    hide Sorted, NoDup, Remove, At;
    RemoveSorted(w.order, w.due, x);
    forall y ensures y in Remove(w.order, x) <==> y != x && y in w.order {
      RemoveElements(w.order, x, y);
    }
  }

  /** A start changes one timer; the others keep their times, their state and their order. */
  lemma StartGives(w: Wheel, x: nat)
    requires Sound(w) && x in w.timers
    ensures var v := Start(w, x);
            && v.now == w.now && Remove(v.order, x) == Remove(w.order, x) && v.timers.Keys == w.timers.Keys
            && (forall y :: y != x ==> At(v.due, y) == At(w.due, y) && (y in w.timers ==> v.timers[y] == w.timers[y]))
            && At(v.due, x) == w.now + w.timers[x].init && x in v.order
            && v.timers[x] == w.timers[x].(timeout := At(v.due, x) % WORD, active := true)
  {
    hide Sound, Place, Remove, At, Start;
    StartOrder(w, x);
    StartOthers(w, x);
  }

  lemma StartOrder(w: Wheel, x: nat)
    requires x in w.timers
    ensures var v := Start(w, x); Remove(v.order, x) == Remove(w.order, x) && x in v.order
  {
    hide Place, Remove, At;
    var d := w.now + w.timers[x].init;
    RemoveElements(w.order, x, x);
    PlaceThenRemove(Remove(w.order, x), w.due, d, x);
    PlaceElements(Remove(w.order, x), w.due, d, x, x);
  }

  lemma StartOthers(w: Wheel, x: nat)
    requires x in w.timers
    ensures var v := Start(w, x);
            && v.now == w.now && v.timers.Keys == w.timers.Keys
            && (forall y :: y != x ==> At(v.due, y) == At(w.due, y) && (y in w.timers ==> v.timers[y] == w.timers[y]))
            && At(v.due, x) == w.now + w.timers[x].init
            && v.timers[x] == w.timers[x].(timeout := At(v.due, x) % WORD, active := true)
  {
    hide Place, Remove, At;
    AtOther(w.due, x, w.now + w.timers[x].init);
  }

  /** So does a stop. */
  lemma StopGives(w: Wheel, x: nat)
    requires Sound(w) && x in w.timers
    ensures var v := Stop(w, x);
            && v.now == w.now && v.due == w.due && Remove(v.order, x) == Remove(w.order, x) && x !in v.order
            && v.timers.Keys == w.timers.Keys && v.timers[x] == w.timers[x].(active := false)
            && (forall y :: y != x && y in w.timers ==> v.timers[y] == w.timers[y])
  {
    hide Sound, Remove;
    StopSound(w, x);
    RemoveTwice(w.order, x);
  }

  // ---------------------------------------------------------------------------------
  // Firing
  // ---------------------------------------------------------------------------------

  /** The first timer fires: a periodic one starts anew, another one ends. */
  function FireOne(w: Wheel): Wheel
    requires w.order != [] && w.order[0] in w.timers
  {
    var x := w.order[0];
    if w.timers[x].periodic && w.timers[x].active then Start(w, x)
    else w.(order := Remove(w.order, x), timers := w.timers[x := w.timers[x].(active := false)])
  }

  /** What one firing does to the sequence and to the timers. */
  ghost predicate Fired(w: Wheel, v: Wheel)
    requires w.order != [] && w.order[0] in w.timers && w.order[0] in v.timers
  {
    var x, rest := w.order[0], w.order[1..];
    var again := w.timers[x].periodic;
    && Sound(v) && v.now == w.now && v.timers.Keys == w.timers.Keys && x !in rest && NoDup(rest)
    && v.order == (if again then Place(rest, v.due, At(v.due, x), x) else rest)
    && (if again then At(v.due, x) == w.now + w.timers[x].init > w.now else At(v.due, x) == At(w.due, x))
    && (forall y :: y != x ==> At(v.due, y) == At(w.due, y) && (y in v.timers ==> v.timers[y] == w.timers[y]))
    && v.timers[x] == (if again then w.timers[x].(timeout := At(v.due, x) % WORD) else w.timers[x].(active := false))
  }

  lemma RemoveHead(s: seq<nat>, due: Due)
    requires s != [] && Sorted(s, due) && NoDup(s)
    ensures Remove(s, s[0]) == s[1..]
  {
    Tail(s, due);
    RemoveAbsent(s[1..], s[0]);
  }

  lemma FireOneAgain(w: Wheel)
    requires Sound(w) && w.order != [] && w.timers[w.order[0]].periodic
    ensures Fired(w, FireOne(w))
  {
    hide Sorted, NoDup, At, Place, Remove;
    var x, v := w.order[0], FireOne(w);
    Tail(w.order, w.due);
    RemoveHead(w.order, w.due);
    StartSound(w, x);
    AtOther(w.due, x, w.now + w.timers[x].init);
    PlaceFrame(w.order[1..], w.due, v.due, At(v.due, x), x);
  }

  lemma FireOneLast(w: Wheel)
    requires Sound(w) && w.order != [] && !w.timers[w.order[0]].periodic
    ensures Fired(w, FireOne(w))
  {
    hide Sorted, NoDup, At, Place, Remove;
    Tail(w.order, w.due);
    RemoveHead(w.order, w.due);
    StopSound(w, w.order[0]);
  }

  lemma FireOneShape(w: Wheel)
    requires Sound(w) && w.order != []
    ensures w.order[0] in w.timers && w.order[0] in FireOne(w).timers && Fired(w, FireOne(w))
    ensures UpTo(FireOne(w).order, FireOne(w).due, w.now) == UpTo(w.order[1..], w.due, w.now)
  {
    hide Sorted, NoDup, At, Place, UpTo, FireOne;
    var x, rest := w.order[0], w.order[1..];
    if w.timers[x].periodic {
      FireOneAgain(w);
      UpToPlace(rest, FireOne(w).due, w.now, x);
    } else {
      FireOneLast(w);
    }
    UpToFrame(rest, w.due, FireOne(w).due, w.now);
  }

  /** `rt_timer_check` with callbacks that leave the timers alone: the new state and who fired. */
  ghost function Check(w: Wheel): (Wheel, seq<nat>)
    requires Sound(w)
    decreases |UpTo(w.order, w.due, w.now)|
  {
    if w.order == [] || w.now < At(w.due, w.order[0]) then (w, [])
    else
      FireOneShape(w);
      UpToStep(w.order, w.due, w.now);
      var (v, fired) := Check(FireOne(w));
      (v, [w.order[0]] + fired)
  }

  /** Start the timers of `l` one after the other, at the times `due` says. */
  function PlaceAll(s: seq<nat>, due: Due, l: seq<nat>): seq<nat>
    decreases l
  {
    if l == [] then s else PlaceAll(Place(s, due, At(due, l[0]), l[0]), due, l[1..])
  }

  function Periodic(l: seq<nat>, timers: map<nat, Timer>): seq<nat> {
    if l == [] then []
    else if l[0] in timers && timers[l[0]].periodic then [l[0]] + Periodic(l[1..], timers)
    else Periodic(l[1..], timers)
  }

  lemma {:induction false} PeriodicFrame(l: seq<nat>, t: map<nat, Timer>, t': map<nat, Timer>)
    requires forall y :: y in l ==> (y in t <==> y in t') && (y in t ==> t[y].periodic == t'[y].periodic)
    ensures Periodic(l, t) == Periodic(l, t')
  {
    if l != [] {
      assert l[0] in l;
      PeriodicFrame(l[1..], t, t');
    }
  }

  /** Who fires: exactly the expired timers, in order; what becomes of each timer. */
  lemma {:induction false} CheckFires(w: Wheel)
    requires Sound(w)
    ensures var (v, fired) := Check(w);
            && fired == UpTo(w.order, w.due, w.now) && Sound(v)
            && v.now == w.now && v.timers.Keys == w.timers.Keys
            && (forall x :: x in v.order ==> w.now < At(v.due, x))
            && (forall x :: x in w.timers && x !in fired ==> v.timers[x] == w.timers[x] && At(v.due, x) == At(w.due, x))
            && (forall x :: x in fired ==> x in w.timers && v.timers[x].periodic == w.timers[x].periodic)
            && (forall x :: x in fired && w.timers[x].periodic ==>
                  && At(v.due, x) == w.now + w.timers[x].init
                  && v.timers[x] == w.timers[x].(timeout := At(v.due, x) % WORD))
            && (forall x :: x in fired && !w.timers[x].periodic ==>
                  v.timers[x] == w.timers[x].(active := false) && At(v.due, x) == At(w.due, x))
    decreases |UpTo(w.order, w.due, w.now)|
  {
    hide Sorted, NoDup, At, FireOne, UpTo;
    if w.order == [] || w.now < At(w.due, w.order[0]) {
      NoneExpired(w);
    } else {
      FireOneShape(w);
      UpToStep(w.order, w.due, w.now);
      CheckFires(FireOne(w));
      FiredOnce(w);
    }
  }

  lemma NoneExpired(w: Wheel)
    requires Sound(w) && (w.order == [] || w.now < At(w.due, w.order[0]))
    ensures UpTo(w.order, w.due, w.now) == [] && forall x :: x in w.order ==> w.now < At(w.due, x)
  {
    if w.order != [] {
      Tail(w.order, w.due);
    }
  }

  lemma FiredOnce(w: Wheel)
    requires Sound(w) && w.order != []
    ensures w.order[0] !in UpTo(w.order[1..], w.due, w.now)
  {
    Tail(w.order, w.due);
    UpToPrefix(w.order[1..], w.due, w.now);
  }

  /** The order afterwards: those not expired, then the periodic ones started anew as they fired. */
  lemma {:induction false} CheckOrder(w: Wheel)
    requires Sound(w)
    ensures var (v, fired) := Check(w);
            && |fired| <= |w.order|
            && v.order == PlaceAll(w.order[|fired|..], v.due, Periodic(fired, w.timers))
    decreases |UpTo(w.order, w.due, w.now)|
  {
    hide Sorted, NoDup, At, FireOne, UpTo, Place, Check, Sound, PlaceAll, Periodic;
    CheckStep(w);
    if w.order == [] || w.now < At(w.due, w.order[0]) {
      PlaceNone(w.order, w.due, w.timers);
    } else {
      var x, rest, u := w.order[0], w.order[1..], FireOne(w);
      FireOneShape(w);
      UpToStep(w.order, w.due, w.now);
      CheckOrder(u);
      CheckFires(u);
      var (v, e) := Check(u);
      UpToPrefix(rest, w.due, w.now);
      FiredOnce(w);
      assert w.order[|e| + 1..] == rest[|e|..];
      PeriodicFrame(e, w.timers, u.timers);
      PeriodicStep(x, e, w.timers);
      if w.timers[x].periodic {
        AgainOrder(w, u, e);
        PlaceAllStep(rest[|e|..], v.due, x, Periodic(e, w.timers));
      }
    }
  }

  lemma CheckStep(w: Wheel)
    requires Sound(w)
    ensures if w.order == [] || w.now < At(w.due, w.order[0]) then Check(w) == (w, [])
            else w.order[0] in w.timers && Sound(FireOne(w)) &&
                 Check(w) == (Check(FireOne(w)).0, [w.order[0]] + Check(FireOne(w)).1)
  {
    hide At, FireOne;
    if w.order != [] && At(w.due, w.order[0]) <= w.now {
      FireOneShape(w);
    }
  }

  lemma PlaceNone(s: seq<nat>, due: Due, timers: map<nat, Timer>)
    ensures s[0..] == s && Periodic([], timers) == [] && PlaceAll(s, due, []) == s
  {
  }

  lemma PeriodicStep(x: nat, e: seq<nat>, timers: map<nat, Timer>)
    requires x in timers
    ensures Periodic([x] + e, timers) == if timers[x].periodic then [x] + Periodic(e, timers) else Periodic(e, timers)
  {
    assert ([x] + e)[1..] == e;
  }

  lemma PlaceAllStep(s: seq<nat>, due: Due, x: nat, l: seq<nat>)
    ensures PlaceAll(s, due, [x] + l) == PlaceAll(Place(s, due, At(due, x), x), due, l)
  {
    assert ([x] + l)[1..] == l;
  }

  /** A timer started anew stands where it would stand among the timers that did not fire. */
  lemma AgainOrder(w: Wheel, u: Wheel, e: seq<nat>)
    requires w.order != [] && w.order[0] in w.timers && w.order[0] in u.timers && w.timers[w.order[0]].periodic
    requires Fired(w, u) && e == Check(u).1 && e == UpTo(w.order[1..], w.due, w.now)
    ensures var x, rest, v := w.order[0], w.order[1..], Check(u).0;
            |e| <= |rest| && |e| <= |u.order| && u.order[|e|..] == Place(rest[|e|..], v.due, At(v.due, x), x)
  {
    hide Sorted, NoDup, At, UpTo, Place, Check, Sound;
    var x, rest, v := w.order[0], w.order[1..], Check(u).0;
    UpToFrame(rest, w.due, u.due, w.now);
    UpToPlace(rest, u.due, w.now, x);
    UpToPrefix(rest, w.due, w.now);
    NotFiredSame(u, x, rest, e);
    PlaceFrame(rest[|e|..], u.due, v.due, At(u.due, x), x);
  }

  /** The timers behind the expired ones keep their times. */
  lemma NotFiredSame(u: Wheel, x: nat, rest: seq<nat>, e: seq<nat>)
    requires Sound(u) && e == Check(u).1 && u.order == Place(rest, u.due, At(u.due, x), x) && x !in rest
    requires u.now < At(u.due, x) && |e| <= |rest| && e == rest[..|e|] && NoDup(rest)
    ensures var v := Check(u).0;
            At(v.due, x) == At(u.due, x) && forall y :: y in rest[|e|..] ==> At(v.due, y) == At(u.due, y)
  {
    hide Sorted, At, Check, UpTo, Place;
    CheckFires(u);
    var v := Check(u).0;
    PlaceElements(rest, u.due, At(u.due, x), x, x);
    forall y | y in rest[|e|..] ensures At(v.due, y) == At(u.due, y) {
      PlaceElements(rest, u.due, At(u.due, x), x, y);
      var i :| 0 <= i < |rest[|e|..]| && rest[|e|..][i] == y;
      assert rest[i + |e|] == y;
      assert y !in e;
    }
  }

  // ---------------------------------------------------------------------------------
  // Runs in which every tick is followed by a check
  // ---------------------------------------------------------------------------------

  /** Timers that run are due within half the range of the tick counter from `lo` on. */
  ghost predicate Window(w: Wheel, lo: nat) {
    forall x :: x in w.order ==>
      x in w.timers && w.timers[x].timeout == At(w.due, x) % WORD && lo <= At(w.due, x) < lo + HALF
  }

  /** Between ticks no timer is overdue, and a periodic one is due in the future. */
  ghost predicate Stable(w: Wheel) {
    Sound(w) && Window(w, w.now) && forall x :: x in w.order && w.timers[x].periodic ==> w.now < At(w.due, x)
  }

  lemma StartStable(w: Wheel, x: nat)
    requires Stable(w) && x in w.timers
    ensures Stable(Start(w, x))
  {
    hide Sorted, NoDup, Place, Remove, At;
    StartSound(w, x);
    AtOther(w.due, x, w.now + w.timers[x].init);
  }

  lemma StopStable(w: Wheel, x: nat)
    requires Stable(w) && x in w.timers
    ensures Stable(Stop(w, x))
  {
    hide Sorted, NoDup, Remove, At;
    StopSound(w, x);
  }

  /** `rt_tick_increase` as far as timers go. */
  ghost function Tick(w: Wheel): (Wheel, seq<nat>)
    requires Sound(w)
  {
    Check(w.(now := w.now + 1))
  }

  /** Each timer fires in the tick it is due; one started with no ticks to wait fires in the next. */
  lemma TickFires(w: Wheel, x: nat)
    requires Stable(w) && x in w.timers
    ensures var (v, fired) := Tick(w);
            && (x in fired <==> x in w.order && At(w.due, x) <= w.now + 1)
            && (x in fired ==> w.now <= At(w.due, x))
            && (x in fired && w.timers[x].periodic ==>
               At(w.due, x) == w.now + 1 && At(v.due, x) == At(w.due, x) + w.timers[x].init)
  {
    hide Sorted, NoDup, At, UpTo, Check;
    var u := w.(now := w.now + 1);
    assert Sound(u);
    CheckFires(u);
    UpToPrefix(u.order, u.due, u.now);
    var e := UpTo(u.order, u.due, u.now);
    InPrefix(u.order, u.due, u.now, |e|, x);
  }

  lemma TickStable(w: Wheel)
    requires Stable(w)
    ensures Stable(Tick(w).0)
  {
    hide Sorted, NoDup, At, UpTo, Check;
    var u := w.(now := w.now + 1);
    assert Sound(u);
    CheckFires(u);
    var (v, fired) := Check(u);
    forall x | x in v.order
      ensures v.timers[x].timeout == At(v.due, x) % WORD && v.now <= At(v.due, x) < v.now + HALF
    {
      assert x in v.timers && v.timers[x].active;
      if x in fired {
        assert w.timers[x].periodic;
      } else {
        assert x in w.order;
      }
    }
  }

  datatype Op = DoCreate(x: nat, init: nat, periodic: bool) | DoStart(x: nat) | DoStop(x: nat) | DoTick

  ghost function Step(w: Wheel, op: Op): (v: Wheel)
    requires Stable(w)
    ensures Stable(v)
  {
    match op
    case DoCreate(x, init, periodic) =>
      if x in w.timers || init >= HALF || (periodic && init == 0) then w
      else w.(timers := w.timers[x := Timer(0, init, periodic, false)])
    case DoStart(x) =>
      if x !in w.timers then w
      else
        StartStable(w, x);
        Start(w, x)
    case DoStop(x) =>
      if x !in w.timers then w
      else
        StopStable(w, x);
        Stop(w, x)
    case DoTick =>
      TickStable(w);
      Tick(w).0
  }

  /** After any run from time `now` on, over any number of wraps of the tick counter. */
  ghost function RunAll(now: nat, ops: seq<Op>): (w: Wheel)
    ensures Stable(w)
  {
    if ops == [] then Wheel(now, [], map[], map[]) else Step(RunAll(now, ops[..|ops| - 1]), ops[|ops| - 1])
  }

  // ---------------------------------------------------------------------------------
  // Timers that are linked late
  // ---------------------------------------------------------------------------------

  /** No timer runs that is more than `late` ticks overdue, and the times to wait leave room for that. */
  ghost predicate Calm(w: Wheel, late: nat) {
    && Sound(w) && late <= w.now && late + 1 < HALF
    && (forall x :: x in w.timers ==> w.timers[x].init + late < HALF)
    && (forall x :: x in w.order ==>
          && w.timers[x].timeout == At(w.due, x) % WORD
          && w.now <= At(w.due, x) + late < w.now + HALF
          && (w.timers[x].periodic ==> w.now < At(w.due, x) + late))
  }

  /** With no lateness this is what every run of uninterrupted calls keeps. */
  lemma StableCalm(w: Wheel)
    ensures Stable(w) <==> Calm(w, 0)
  {
    hide At, Sorted, NoDup;
  }

  /** A calm wheel is in the window that every comparison of ticks needs. */
  lemma CalmWindow(w: Wheel, late: nat)
    requires Calm(w, late)
    ensures Window(w, w.now - late)
  {
    hide At, Sorted, NoDup;
  }

  /** Linking keeps the calm exactly when the timer is not linked yet, if its end was computed in time. */
  lemma CalmLink(w: Wheel, late: nat, x: nat)
    requires Calm(w, late) && x in w.timers && w.timers[x].timeout == At(w.due, x) % WORD
    requires At(w.due, x) <= w.now + w.timers[x].init <= At(w.due, x) + late
    ensures Calm(Link(w, x), late) <==> x !in w.order
  {
    hide Sorted, NoDup, Place, At;
    LinkSound(w, x);
  }

  /** Storing an end computed in time keeps the calm exactly when a linked timer stays in its place. */
  lemma CalmSet(w: Wheel, late: nat, x: nat, t: nat)
    requires Calm(w, late) && x in w.timers && t <= w.now <= t + late
    ensures Calm(SetEnd(w, x, t + w.timers[x].init), late) <==>
            InPlace(w.order, w.due, x, t + w.timers[x].init)
  {
    hide Sorted, NoDup, InPlace, At;
    SetSound(w, x, t + w.timers[x].init);
    AtOther(w.due, x, t + w.timers[x].init);
  }

  lemma CalmStop(w: Wheel, late: nat, x: nat)
    requires Calm(w, late) && x in w.timers
    ensures Calm(Stop(w, x), late)
  {
    hide Sorted, NoDup, Remove, At;
    StopSound(w, x);
  }

  /**
   A tick fires exactly the timers due by it, none more than `late` + 1 ticks after its end,
   and the rest stays calm.
   */
  lemma CalmTick(w: Wheel, late: nat)
    requires Calm(w, late)
    ensures var (v, fired) := Tick(w);
            && Calm(v, late)
            && (forall x :: x in fired <==> x in w.order && At(w.due, x) <= w.now + 1)
            && (forall x :: x in fired ==> w.now + 1 <= At(w.due, x) + late + 1)
  {
    hide Sorted, NoDup, At, UpTo, Check;
    var u := w.(now := w.now + 1);
    assert Sound(u);
    CheckFires(u);
    var (v, fired) := Check(u);
    forall x ensures x in fired <==> x in w.order && At(w.due, x) <= w.now + 1 {
      UpToPrefix(u.order, u.due, u.now);
      InPrefix(u.order, u.due, u.now, |UpTo(u.order, u.due, u.now)|, x);
    }
    forall x | x in v.order
      ensures v.timers[x].timeout == At(v.due, x) % WORD && v.now <= At(v.due, x) + late < v.now + HALF
      ensures v.timers[x].periodic ==> v.now < At(v.due, x) + late
    {
      assert x in v.timers && v.timers[x].active;
      if x in fired {
        assert w.timers[x].periodic;
      } else {
        assert x in w.order;
      }
    }
    forall x | x in v.timers ensures v.timers[x].init + late < HALF {
      assert x in w.timers && (x in fired || v.timers[x] == w.timers[x]);
    }
  }
}
