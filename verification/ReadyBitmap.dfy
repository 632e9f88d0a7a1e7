/**
 The bitmap of ready priorities: one word for up to 32 priorities, or a group word over
 32 bytes for up to 256. It mirrors which of the ready lists are not empty.
 */
module ReadyBitmap {
  import opened Bits
  import opened SchedulerSpec

  const GROUPS := 32
  const MAX := 256

  /** `rt_thread_ready_priority_group` and `rt_thread_ready_table`. */
  datatype Bitmap = Bitmap(group: nat, table: seq<nat>)

  /** What a thread keeps of its priority: `number`, `number_mask` and `high_mask`. */
  datatype Masks = Masks(number: nat, numberMask: nat, highMask: nat)

  function MasksOf(max: nat, p: nat): Masks {
    if max > 32 then Masks(p / 8, Mask(p / 8), Mask(p % 8)) else Masks(0, Mask(p), 0)
  }

  ghost predicate Busy(lists: seq<seq<nat>>, p: nat) {
    p < |lists| && lists[p] != []
  }

  ghost predicate MirrorOne(lists: seq<seq<nat>>, group: nat) {
    group < Mask(32) && forall p :: 0 <= p < 32 ==> (Bit(group, p) <==> Busy(lists, p))
  }

  ghost predicate MirrorTwo(lists: seq<seq<nat>>, m: Bitmap) {
    && m.group < Mask(32) && |m.table| == GROUPS
    && (forall n :: 0 <= n < GROUPS ==> m.table[n] < Mask(8) && (Bit(m.group, n) <==> m.table[n] != 0))
    && (forall n, b :: 0 <= n < GROUPS && 0 <= b < 8 ==> (Bit(m.table[n], b) <==> Busy(lists, 8 * n + b)))
  }

  /** A bit is set exactly when the list of its priority is not empty. */
  ghost predicate Mirror(lists: seq<seq<nat>>, m: Bitmap) {
    |lists| <= MAX && |m.table| == GROUPS && if |lists| > 32 then MirrorTwo(lists, m) else MirrorOne(lists, m.group)
  }

  /** The bits of a thread that became ready. */
  function SetBits(max: nat, m: Bitmap, k: Masks): Bitmap
    requires max > 32 ==> k.number < |m.table|
  {
    if max > 32 then Bitmap(Or(m.group, k.numberMask), m.table[k.number := Or(m.table[k.number], k.highMask)])
    else m.(group := Or(m.group, k.numberMask))
  }

  /** The bits of a thread whose list became empty. */
  function ClearBits(max: nat, m: Bitmap, k: Masks): Bitmap
    requires max > 32 ==> k.number < |m.table|
  {
    if max > 32 then
      var byte := AndNot(m.table[k.number], k.highMask);
      Bitmap(if byte == 0 then AndNot(m.group, k.numberMask) else m.group, m.table[k.number := byte])
    else m.(group := AndNot(m.group, k.numberMask))
  }

  /** The most urgent priority of the bitmap. */
  function Highest(max: nat, m: Bitmap): int
    requires 0 < m.group < 0x1_0000_0000
    requires max > 32 ==> 0 <= Ffs(m.group) - 1 < |m.table| && m.table[Ffs(m.group) - 1] < 0x100
  {
    if max > 32 then
      var number := Ffs(m.group) - 1;
      8 * number + Ffs(m.table[number]) - 1
    else Ffs(m.group) - 1
  }

  lemma SetOne(lists: seq<seq<nat>>, group: nat, p: nat, l: seq<nat>)
    requires MirrorOne(lists, group) && p < |lists| <= 32 && l != []
    ensures MirrorOne(lists[p := l], Or(group, Mask(p)))
  {
    hide Bit, Or, Mask;
    MaskMono(p, 32);
    OrBound(group, Mask(p), 32);
    var lists' := lists[p := l];
    forall q | 0 <= q < 32 ensures Bit(Or(group, Mask(p)), q) <==> Busy(lists', q) {
      BitOr(group, Mask(p), q);
      BitMask(p, q);
      assert Bit(group, q) <==> Busy(lists, q);
    }
  }

  lemma ClearOne(lists: seq<seq<nat>>, group: nat, p: nat)
    requires MirrorOne(lists, group) && p < |lists| <= 32
    ensures MirrorOne(lists[p := []], AndNot(group, Mask(p)))
  {
    hide Bit, AndNot, Mask;
    AndNotBound(group, Mask(p));
    var lists' := lists[p := []];
    forall q | 0 <= q < 32 ensures Bit(AndNot(group, Mask(p)), q) <==> Busy(lists', q) {
      BitAndNot(group, Mask(p), q);
      BitMask(p, q);
      assert Bit(group, q) <==> Busy(lists, q);
    }
  }

  lemma SameOne(lists: seq<seq<nat>>, group: nat, p: nat, l: seq<nat>)
    requires MirrorOne(lists, group) && p < |lists| && (l == [] <==> lists[p] == [])
    ensures MirrorOne(lists[p := l], group)
  {
    hide Bit, Mask;
    var lists' := lists[p := l];
    forall q | 0 <= q < 32 ensures Bit(group, q) <==> Busy(lists', q) {
      assert Bit(group, q) <==> Busy(lists, q);
    }
  }

  /** The byte of a priority, changed so that it mirrors the changed list. */
  lemma ByteStep(lists: seq<seq<nat>>, m: Bitmap, p: nat, l: seq<nat>, byte: nat, group: nat)
    requires MirrorTwo(lists, m) && p < |lists| <= MAX && byte < Mask(8) && group < Mask(32)
    requires forall b :: 0 <= b < 8 ==> (Bit(byte, b) <==> if b == p % 8 then l != [] else Bit(m.table[p / 8], b))
    requires forall n :: 0 <= n < GROUPS ==> (Bit(group, n) <==> if n == p / 8 then byte != 0 else Bit(m.group, n))
    ensures MirrorTwo(lists[p := l], Bitmap(group, m.table[p / 8 := byte]))
  {
    hide Bit, Mask;
    var lists', table' := lists[p := l], m.table[p / 8 := byte];
    forall n, b | 0 <= n < GROUPS && 0 <= b < 8 ensures Bit(table'[n], b) <==> Busy(lists', 8 * n + b) {
      assert Bit(m.table[n], b) <==> Busy(lists, 8 * n + b);
      assert 8 * n + b == p <==> n == p / 8 && b == p % 8;
    }
    forall n | 0 <= n < GROUPS ensures table'[n] < Mask(8) && (Bit(group, n) <==> table'[n] != 0) {
      assert Bit(m.group, n) <==> m.table[n] != 0;
    }
  }

  lemma SetTwo(lists: seq<seq<nat>>, m: Bitmap, p: nat, l: seq<nat>)
    requires MirrorTwo(lists, m) && p < |lists| <= MAX && l != []
    ensures MirrorTwo(lists[p := l],
            Bitmap(Or(m.group, Mask(p / 8)), m.table[p / 8 := Or(m.table[p / 8], Mask(p % 8))]))
  {
    hide Bit, Or, Mask;
    var group, byte := Or(m.group, Mask(p / 8)), Or(m.table[p / 8], Mask(p % 8));
    MaskMono(p % 8, 8);
    MaskMono(p / 8, 32);
    OrBound(m.table[p / 8], Mask(p % 8), 8);
    OrBound(m.group, Mask(p / 8), 32);
    forall b | 0 <= b < 8 ensures Bit(byte, b) <==> if b == p % 8 then l != [] else Bit(m.table[p / 8], b) {
      BitOr(m.table[p / 8], Mask(p % 8), b);
      BitMask(p % 8, b);
    }
    assert Bit(byte, p % 8);
    BitZero(p % 8);
    forall n | 0 <= n < GROUPS ensures Bit(group, n) <==> if n == p / 8 then byte != 0 else Bit(m.group, n) {
      BitOr(m.group, Mask(p / 8), n);
      BitMask(p / 8, n);
    }
    ByteStep(lists, m, p, l, byte, group);
  }

  lemma ClearTwo(lists: seq<seq<nat>>, m: Bitmap, p: nat)
    requires MirrorTwo(lists, m) && p < |lists| <= MAX
    ensures var byte := AndNot(m.table[p / 8], Mask(p % 8));
            MirrorTwo(lists[p := []],
              Bitmap(if byte == 0 then AndNot(m.group, Mask(p / 8)) else m.group, m.table[p / 8 := byte]))
  {
    hide Bit, AndNot, Mask;
    var byte := AndNot(m.table[p / 8], Mask(p % 8));
    var group := if byte == 0 then AndNot(m.group, Mask(p / 8)) else m.group;
    AndNotBound(m.table[p / 8], Mask(p % 8));
    AndNotBound(m.group, Mask(p / 8));
    forall b | 0 <= b < 8 ensures Bit(byte, b) <==> if b == p % 8 then false else Bit(m.table[p / 8], b) {
      BitAndNot(m.table[p / 8], Mask(p % 8), b);
      BitMask(p % 8, b);
    }
    forall n | 0 <= n < GROUPS ensures Bit(group, n) <==> if n == p / 8 then byte != 0 else Bit(m.group, n) {
      BitAndNot(m.group, Mask(p / 8), n);
      BitMask(p / 8, n);
    }
    ByteStep(lists, m, p, [], byte, group);
  }

  lemma SameTwo(lists: seq<seq<nat>>, m: Bitmap, p: nat, l: seq<nat>)
    requires MirrorTwo(lists, m) && p < |lists| && (l == [] <==> lists[p] == [])
    ensures MirrorTwo(lists[p := l], m)
  {
    hide Bit, Mask;
    var lists' := lists[p := l];
    forall n, b | 0 <= n < GROUPS && 0 <= b < 8 ensures Bit(m.table[n], b) <==> Busy(lists', 8 * n + b) {
      assert Bit(m.table[n], b) <==> Busy(lists, 8 * n + b);
    }
  }

  /** The bitmap follows a list that gained a thread. */
  lemma SetMirrors(lists: seq<seq<nat>>, m: Bitmap, p: nat, l: seq<nat>)
    requires Mirror(lists, m) && p < |lists| && l != []
    ensures MasksOf(|lists|, p).number < GROUPS
    ensures Mirror(lists[p := l], SetBits(|lists|, m, MasksOf(|lists|, p)))
  {
    hide MirrorOne, MirrorTwo, Mask, Or;
    if |lists| > 32 {
      SetTwo(lists, m, p, l);
    } else {
      SetOne(lists, m.group, p, l);
    }
  }

  /** The bitmap follows a list that lost a thread, or kept what it had. */
  lemma ClearMirrors(lists: seq<seq<nat>>, m: Bitmap, p: nat, l: seq<nat>)
    requires Mirror(lists, m) && p < |lists| && (lists[p] == [] ==> l == [])
    ensures MasksOf(|lists|, p).number < GROUPS
    ensures Mirror(lists[p := l], if l == [] then ClearBits(|lists|, m, MasksOf(|lists|, p)) else m)
  {
    hide MirrorOne, MirrorTwo, Mask, AndNot;
    if l != [] {
      if |lists| > 32 {
        SameTwo(lists, m, p, l);
      } else {
        SameOne(lists, m.group, p, l);
      }
    } else if |lists| > 32 {
      ClearTwo(lists, m, p);
    } else {
      ClearOne(lists, m.group, p);
    }
  }

  /** The lowest bits lead to the most urgent list that is not empty. */
  lemma HighestTop(lists: seq<seq<nat>>, m: Bitmap)
    requires Mirror(lists, m) && Top(lists) < |lists|
    ensures 0 < m.group < 0x1_0000_0000
    ensures |lists| > 32 ==> 0 <= Ffs(m.group) - 1 < |m.table| && m.table[Ffs(m.group) - 1] < 0x100
    ensures Highest(|lists|, m) == Top(lists)
  {
    hide Bit, Mask, Ffs, Top;
    Masks32();
    if |lists| > 32 {
      HighestTwo(lists, m);
    } else {
      HighestOne(lists, m.group);
    }
  }

  lemma Masks32()
    ensures Mask(32) == 0x1_0000_0000 && Mask(8) == 0x100
  {
    hide Mask;
    Bits.Masks();
  }

  lemma HighestOne(lists: seq<seq<nat>>, group: nat)
    requires MirrorOne(lists, group) && Top(lists) < |lists| <= 32
    ensures 0 < group < 0x1_0000_0000 && Ffs(group) - 1 == Top(lists)
  {
    hide Bit, Mask, Ffs, Top;
    var p := Top(lists);
    Masks32();
    assert Busy(lists, p);
    BitZero(p);
    FfsLowest(group);
    var k := Ffs(group) - 1;
    BitBound(group, 32, k);
    assert Busy(lists, k);
  }

  lemma HighestTwo(lists: seq<seq<nat>>, m: Bitmap)
    requires MirrorTwo(lists, m) && Top(lists) < |lists| <= MAX
    ensures 0 < m.group < 0x1_0000_0000
    ensures 0 <= Ffs(m.group) - 1 < |m.table| && m.table[Ffs(m.group) - 1] < 0x100
    ensures 8 * (Ffs(m.group) - 1) + Ffs(m.table[Ffs(m.group) - 1]) - 1 == Top(lists)
  {
    hide Bit, Mask, Ffs, Top, Busy;
    var p := Top(lists);
    Masks32();
    TopBusy(lists, m);
    FfsLowest(m.group);
    var n := Ffs(m.group) - 1;
    BitBound(m.group, 32, n);
    ByteLowest(lists, m, n);
    BusyTop(lists, 8 * n + Ffs(m.table[n]) - 1);
    assert n == p / 8;
  }

  lemma BusyTop(lists: seq<seq<nat>>, p: nat)
    requires Busy(lists, p)
    ensures Top(lists) <= p
  {
  }

  lemma TopBusy(lists: seq<seq<nat>>, m: Bitmap)
    requires MirrorTwo(lists, m) && Top(lists) < |lists| <= MAX
    ensures var p := Top(lists); Bit(m.group, p / 8) && Bit(m.table[p / 8], p % 8) && 0 < m.group
  {
    hide Bit, Mask, Top, MirrorTwo;
    var p := Top(lists);
    assert 8 * (p / 8) + p % 8 == p && Busy(lists, p);
    BitAt(lists, m, p / 8, p % 8);
  }

  lemma BitAt(lists: seq<seq<nat>>, m: Bitmap, n: nat, b: nat)
    requires MirrorTwo(lists, m) && n < GROUPS && b < 8 && Busy(lists, 8 * n + b)
    ensures Bit(m.group, n) && Bit(m.table[n], b) && 0 < m.group
  {
    hide Bit, Mask, Busy;
    assert Bit(m.table[n], b) <==> Busy(lists, 8 * n + b);
    BitZero(b);
    BitZero(n);
  }

  lemma ByteLowest(lists: seq<seq<nat>>, m: Bitmap, n: nat)
    requires MirrorTwo(lists, m) && n < GROUPS && Bit(m.group, n)
    ensures 0 < m.table[n] < 0x100
    ensures var b := Ffs(m.table[n]) - 1;
            0 <= b < 8 && Busy(lists, 8 * n + b) && forall c :: 0 <= c < b ==> !Bit(m.table[n], c)
  {
    hide Bit, Mask, Ffs, Busy;
    Masks32();
    FfsLowest(m.table[n]);
    BitBound(m.table[n], 8, Ffs(m.table[n]) - 1);
  }
}
