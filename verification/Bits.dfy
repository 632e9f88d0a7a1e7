/**
 Words as numbers with their bits, the operations the ready bitmap needs, and the search
 for the lowest set bit of `__rt_ffs`.
 */
module Bits {

  predicate Bit(w: nat, i: nat) {
    if i == 0 then w % 2 == 1 else Bit(w / 2, i - 1)
  }

  /** `1 << i`. */
  function Mask(i: nat): (m: nat)
    ensures 0 < m
  {
    if i == 0 then 1 else 2 * Mask(i - 1)
  }

  /** `a | b`. */
  function Or(a: nat, b: nat): nat {
    if a == 0 then b else 2 * Or(a / 2, b / 2) + (if a % 2 == 1 || b % 2 == 1 then 1 else 0)
  }

  /** `a & ~b`. */
  function AndNot(a: nat, b: nat): nat {
    if a == 0 then 0 else 2 * AndNot(a / 2, b / 2) + (if a % 2 == 1 && b % 2 == 0 then 1 else 0)
  }

  lemma {:induction false} BitZero(i: nat)
    ensures !Bit(0, i)
  {
    if 0 < i {
      BitZero(i - 1);
    }
  }

  lemma {:induction false} BitMask(i: nat, j: nat)
    ensures Bit(Mask(i), j) <==> i == j
  {
    if i == 0 && 0 < j {
      BitZero(j - 1);
    } else if 0 < i && 0 < j {
      BitMask(i - 1, j - 1);
    }
  }

  lemma {:induction false} BitOr(a: nat, b: nat, j: nat)
    ensures Bit(Or(a, b), j) <==> Bit(a, j) || Bit(b, j)
  {
    if a == 0 {
      BitZero(j);
    } else if 0 < j {
      BitOr(a / 2, b / 2, j - 1);
    }
  }

  lemma {:induction false} BitAndNot(a: nat, b: nat, j: nat)
    ensures Bit(AndNot(a, b), j) <==> Bit(a, j) && !Bit(b, j)
  {
    if a == 0 {
      BitZero(j);
    } else if 0 < j {
      BitAndNot(a / 2, b / 2, j - 1);
    }
  }

  /** Index of the lowest bit that is set. */
  function Lowest(w: nat): (i: nat)
    requires 0 < w
    ensures Bit(w, i)
  {
    if w % 2 == 1 then 0 else Lowest(w / 2) + 1
  }

  lemma {:induction false} LowestFirst(w: nat, j: nat)
    requires 0 < w && Bit(w, j)
    ensures Lowest(w) <= j
  {
    if w % 2 == 0 {
      LowestFirst(w / 2, j - 1);
    }
  }

  lemma {:induction false} BitBound(w: nat, k: nat, j: nat)
    requires w < Mask(k) && Bit(w, j)
    ensures j < k
  {
    if k == 0 {
      BitZero(j);
    } else if 0 < j {
      BitBound(w / 2, k - 1, j - 1);
    }
  }

  lemma {:induction false} MaskMono(i: nat, k: nat)
    requires i < k
    ensures Mask(i) < Mask(k)
  {
    if 0 < i {
      MaskMono(i - 1, k - 1);
    } else if 1 < k {
      MaskMono(0, k - 1);
    }
  }

  lemma {:induction false} OrBound(a: nat, b: nat, k: nat)
    requires a < Mask(k) && b < Mask(k)
    ensures Or(a, b) < Mask(k)
  {
    if a != 0 {
      OrBound(a / 2, b / 2, k - 1);
    }
  }

  lemma {:induction false} AndNotBound(a: nat, b: nat)
    ensures AndNot(a, b) <= a
  {
    if a != 0 {
      AndNotBound(a / 2, b / 2);
    }
  }

  // ---------------------------------------------------------------------------------
  // Find first set
  // ---------------------------------------------------------------------------------

  // The rows of `__lowest_bit_bitmap` differ only in their first entry.
  const ROW := [0, 0, 1, 0, 2, 0, 1, 0, 3, 0, 1, 0, 2, 0, 1, 0]
  const FIRST := [0, 4, 5, 4, 6, 4, 5, 4, 7, 4, 5, 4, 6, 4, 5, 4]

  /** `__lowest_bit_bitmap[n]`. */
  function Table(n: nat): nat
    requires n < 256
  {
    if n % 16 == 0 then FIRST[n / 16] else ROW[n % 16]
  }

  lemma TableAt(hi: nat, lo: nat)
    requires hi < 16 && lo < 16
    ensures Table(16 * hi + lo) == if lo == 0 then FIRST[hi] else ROW[lo]
  {
    DivMod16(hi, lo);
  }

  lemma DivMod16(hi: nat, lo: nat)
    requires lo < 16
    ensures (16 * hi + lo) / 16 == hi && (16 * hi + lo) % 16 == lo
  {
  }

  lemma TableHalf(n: nat)
    requires 0 < n < 256 && n % 2 == 0
    ensures Table(n) == Table(n / 2) + 1
  {
    hide Table;
    var hi, lo := n / 16, n % 16;
    TableAt(hi, lo);
    if hi % 2 == 0 {
      TableAt(hi / 2, lo / 2);
      assert n / 2 == 16 * (hi / 2) + lo / 2;
    } else {
      TableAt(hi / 2, lo / 2 + 8);
      assert n / 2 == 16 * (hi / 2) + lo / 2 + 8;
    }
    if lo == 0 {
      FirstHalf(hi);
    } else {
      RowHalf(lo);
    }
  }

  lemma RowHalf(lo: nat)
    requires 0 < lo < 16 && lo % 2 == 0
    ensures ROW[lo] == ROW[lo / 2] + 1 == ROW[lo / 2 + 8] + 1
  {
    assert lo in {2, 4, 6, 8, 10, 12, 14};
  }

  lemma FirstHalf(hi: nat)
    requires 0 < hi < 16
    ensures hi % 2 == 0 ==> FIRST[hi] == FIRST[hi / 2] + 1
    ensures hi % 2 == 1 ==> FIRST[hi] == ROW[8] + 1
  {
    assert hi in {1, 2, 3, 4, 5, 6, 7, 8, 9, 10, 11, 12, 13, 14, 15};
  }

  /** The table holds the lowest set bit of each byte. */
  lemma {:induction false} TableLowest(n: nat)
    requires 0 < n < 256
    ensures Table(n) == Lowest(n)
  {
    if n % 2 == 0 {
      TableHalf(n);
      TableLowest(n / 2);
    } else {
      assert ROW[n % 16] == 0 by {
        assert n % 16 in {1, 3, 5, 7, 9, 11, 13, 15};
      }
    }
  }

  /** `__rt_ffs`: bits are numbered from 1, and 0 stands for no bit. */
  function Ffs(value: nat): nat
    requires value < 0x1_0000_0000
  {
    if value == 0 then 0
    else if value % 0x100 != 0 then Table(value % 0x100) + 1
    else if value / 0x100 % 0x100 != 0 then Table(value / 0x100 % 0x100) + 9
    else if value / 0x1_0000 % 0x100 != 0 then Table(value / 0x1_0000 % 0x100) + 17
    else Table(value / 0x100_0000) + 25
  }

  /** The lowest bit of a word is that of its lowest part that is not zero. */
  lemma {:induction false} LowestPart(h: nat, l: nat, k: nat)
    requires 0 < l < Mask(k)
    ensures 0 < h * Mask(k) + l && Lowest(h * Mask(k) + l) == Lowest(l)
  {
    var m := Mask(k - 1);
    assert h * Mask(k) == 2 * (h * m);
    if l % 2 == 0 {
      LowestPart(h, l / 2, k - 1);
      assert (2 * (h * m) + l) / 2 == h * m + l / 2;
    }
  }

  lemma {:induction false} LowestShift(h: nat, k: nat)
    requires 0 < h
    ensures 0 < h * Mask(k) && Lowest(h * Mask(k)) == Lowest(h) + k
  {
    hide Lowest;
    if 0 < k {
      LowestShift(h, k - 1);
      LowestDouble(h * Mask(k - 1));
      assert h * Mask(k) == 2 * (h * Mask(k - 1));
    } else {
      assert h * Mask(0) == h;
    }
  }

  lemma LowestDouble(w: nat)
    requires 0 < w
    ensures Lowest(2 * w) == Lowest(w) + 1
  {
  }

  lemma Masks()
    ensures Mask(8) == 0x100 && Mask(16) == 0x1_0000 && Mask(24) == 0x100_0000 && Mask(32) == 0x1_0000_0000
  {
  }

  /** The lowest bit of a word, byte by byte. */
  lemma LowestByte(w: nat)
    requires 0 < w
    ensures w % 0x100 != 0 ==> Lowest(w) == Lowest(w % 0x100)
    ensures w % 0x100 == 0 ==> 0 < w / 0x100 && Lowest(w) == Lowest(w / 0x100) + 8
  {
    hide Lowest, Mask;
    Masks();
    if w % 0x100 != 0 {
      LowestPart(w / 0x100, w % 0x100, 8);
    } else {
      LowestShift(w / 0x100, 8);
    }
  }

  /** `__rt_ffs` finds the lowest set bit of any word. */
  lemma FfsLowest(value: nat)
    requires 0 < value < 0x1_0000_0000
    ensures Ffs(value) == Lowest(value) + 1
    ensures Bit(value, Ffs(value) - 1) && forall j :: 0 <= j < Ffs(value) - 1 ==> !Bit(value, j)
  {
    FfsBytes(value);
    forall j | 0 <= j < Ffs(value) - 1 ensures !Bit(value, j) {
      if Bit(value, j) {
        LowestFirst(value, j);
      }
    }
  }

  lemma FfsBytes(value: nat)
    requires 0 < value < 0x1_0000_0000
    ensures Ffs(value) == Lowest(value) + 1
  {
    hide Lowest, Table;
    LowestByte(value);
    if value % 0x100 != 0 {
      TableLowest(value % 0x100);
    } else {
      var w1 := value / 0x100;
      LowestByte(w1);
      if w1 % 0x100 != 0 {
        TableLowest(w1 % 0x100);
      } else {
        var w2 := w1 / 0x100;
        assert value / 0x1_0000 == w2;
        LowestByte(w2);
        if w2 % 0x100 != 0 {
          TableLowest(w2 % 0x100);
        } else {
          assert value / 0x100_0000 == w2 / 0x100;
          TableLowest(w2 / 0x100);
        }
      }
    }
  }
}
