/**
 The address-ordered links in the block headers, as both heaps keep them, and what their
 moves do to the headers.

 `memheap.c` closes its list: the tail points back to the first block and its `prev` is
 kept. `mem.c` leaves its list open: the first and the last header point to themselves, and
 `prev` of `heap_end` is not kept up to date.
 */
module HeaderLinks {
  import opened BlockChain

  /** The part of a header that belongs to the address list. */
  datatype Link = Link(used: bool, next: int, prev: int)

  type Links = map<int, Link>

  /** The headers of chain `c` and of the header at `end` that closes the pool. */
  ghost predicate Linked(m: Links, c: seq<Block>, end: int, closed: bool) {
    && 0 < |c| && end in m && m[end].used
    && (forall i :: 0 <= i < |c| ==> c[i].start in m)
    && (forall i :: 0 <= i < |c| ==> m[c[i].start].used == c[i].used && m[c[i].start].next == c[i].next)
    && (forall i, j :: 0 <= i && j == i + 1 && j < |c| ==> m[c[j].start].prev == c[i].start)
    && m[c[0].start].prev == (if closed then end else 0)
    && m[end].next == (if closed then 0 else end)
    && (closed ==> m[end].prev == c[|c| - 1].start)
  }

  /**
   `m2` is `m` with the headers from the first to the last of `mid` rewritten to `mid`.
   Every move changes headers in such a range only.
   */
  ghost predicate Relinked(m: Links, m2: Links, mid: seq<Block>, end: int, closed: bool) {
    && 0 < |mid|
    && var lo, hi := mid[0].start, mid[|mid| - 1].next;
    && (forall q :: q in m && (q < lo || hi < q) ==> q in m2 && m[q] == m2[q])
    && (forall j :: 0 <= j < |mid| ==> mid[j].start in m2)
    && (forall j :: 0 <= j < |mid| ==> m2[mid[j].start].used == mid[j].used && m2[mid[j].start].next == mid[j].next)
    && (forall j, k :: 0 <= j && k == j + 1 && k < |mid| ==> m2[mid[k].start].prev == mid[j].start)
    && lo in m && m2[lo].prev == m[lo].prev
    && hi in m && hi in m2 && m2[hi].used == m[hi].used && m2[hi].next == m[hi].next
    && (hi != end || closed ==> m2[hi].prev == mid[|mid| - 1].start)
  }

  lemma LinkedSplice(m: Links, m2: Links, c: seq<Block>, lo: nat, hi: nat, mid: seq<Block>, h: nat, end: nat,
                     closed: bool)
    requires 0 < h && Tiles(c, h, end) && Linked(m, c, end, closed) && lo < hi <= |c|
    requires Covers(mid, h, c[lo].start, c[hi - 1].next) && Relinked(m, m2, mid, end, closed)
    ensures Linked(m2, Splice(c, lo, hi, mid), end, closed)
  {
    var d := Splice(c, lo, hi, mid);
    SpliceTiles(c, lo, hi, mid, h, end);
    TilesOrdered(c, h, end);
    forall i | 0 <= i < |d|
      ensures d[i].start in m2 && m2[d[i].start].used == d[i].used && m2[d[i].start].next == d[i].next
    {
      LinkedAt(m, m2, c, lo, hi, mid, h, end, closed, i);
    }
    forall i, j | 0 <= i && j == i + 1 && j < |d| ensures m2[d[j].start].prev == d[i].start {
      LinkedBack(m, m2, c, lo, hi, mid, h, end, closed, j);
    }
    assert d[0] == if lo > 0 then c[0] else mid[0];
    assert d[|d| - 1] == if hi < |c| then c[|c| - 1] else mid[|mid| - 1];
  }

  lemma LinkedAt(m: Links, m2: Links, c: seq<Block>, lo: nat, hi: nat, mid: seq<Block>, h: nat, end: nat, closed: bool,
                 i: nat)
    requires 0 < h && Tiles(c, h, end) && Ordered(c) && Linked(m, c, end, closed) && lo < hi <= |c|
    requires i < lo + |mid| + |c| - hi
    requires Covers(mid, h, c[lo].start, c[hi - 1].next) && Relinked(m, m2, mid, end, closed)
    ensures var d := Splice(c, lo, hi, mid);
            d[i].start in m2 && m2[d[i].start].used == d[i].used && m2[d[i].start].next == d[i].next
  {
    if i < lo {
      assert c[i].next <= c[lo].start;
    } else if lo + |mid| <= i {
      var k := i - lo - |mid| + hi;
      assert c[hi - 1].next <= c[k].start;
      if k > hi {
        assert c[hi - 1].next <= c[hi].start && c[hi].next <= c[k].start;
      }
    }
  }

  lemma LinkedBack(m: Links, m2: Links, c: seq<Block>, lo: nat, hi: nat, mid: seq<Block>, h: nat, end: nat,
                   closed: bool, j: nat)
    requires 0 < h && Tiles(c, h, end) && Ordered(c) && Linked(m, c, end, closed) && lo < hi <= |c|
    requires 0 < j < lo + |mid| + |c| - hi
    requires Covers(mid, h, c[lo].start, c[hi - 1].next) && Relinked(m, m2, mid, end, closed)
    ensures var d := Splice(c, lo, hi, mid); d[j].start in m2 && m2[d[j].start].prev == d[j - 1].start
  {
    if j < lo {
      assert c[j].next <= c[lo].start;
      assert m[c[j].start].prev == c[j - 1].start;
    } else if j == lo {
      assert m[c[lo].start].prev == c[lo - 1].start;
    } else if j < lo + |mid| {
      assert m2[mid[j - lo].start].prev == mid[j - lo - 1].start;
    } else {
      var k := j - lo - |mid| + hi;
      assert c[hi - 1].next == c[hi].start;
      BlockBounds(c, h, end, hi);
      if k > hi {
        assert c[hi].next <= c[k].start;
        assert m[c[k].start].prev == c[k - 1].start;
      }
    }
  }

  // ---------------------------------------------------------------------------------
  // What a header says about its block
  // ---------------------------------------------------------------------------------

  /** The links around a block, as the address list has them. */
  ghost predicate Around(m: Links, p: nat) {
    && p in m && m[p].prev in m && m[p].next in m && p < m[p].next
    && (m[p].prev != p && !m[m[p].prev].used ==> 0 <= m[p].prev < p && m[m[p].prev].next == p)
    && (!m[m[p].next].used ==> m[m[p].next].next in m && m[p].next < m[m[p].next].next && m[m[p].next].prev == p)
  }

  /** Is there a free block to the left of the block at `p`? */
  ghost predicate LeftFree(m: Links, p: nat)
    requires Around(m, p)
  {
    m[p].prev != p && !m[m[p].prev].used
  }

  ghost predicate RightFree(m: Links, p: nat)
    requires Around(m, p)
  {
    !m[m[p].next].used
  }

  /** First address of the free block that releasing the block at `p` leaves. */
  ghost function MergedLo(m: Links, p: nat): nat
    requires Around(m, p)
  {
    if LeftFree(m, p) then m[p].prev else p
  }

  /** End address of that block. */
  ghost function MergedHi(m: Links, p: nat): nat
    requires Around(m, p) && 0 <= m[p].next
  {
    if RightFree(m, p) then m[m[p].next].next else m[p].next
  }

  lemma LinksOf(m: Links, c: seq<Block>, h: nat, end: nat, closed: bool, i: nat)
    requires 0 < h && Tiles(c, h, end) && Linked(m, c, end, closed) && i < |c|
    ensures var b := c[i];
            && b.start in m && b.next in m && m[b.start].next == b.next && m[b.start].used == b.used
            && b.start + h <= b.next <= end && (i + 1 < |c| ==> b.next == c[i + 1].start)
            && (i + 1 == |c| ==> b.next == end)
            && (b.next != end || closed ==> m[b.next].prev == b.start) && (i + 1 == |c| ==> m[b.next].used)
            && m[b.start].prev in m
            && (0 < i ==> m[b.start].prev == c[i - 1].start && m[b.start].prev < b.start)
            && (i == 0 ==> m[b.start].prev == b.start || m[m[b.start].prev].used)
            && (i == 0 && closed ==> m[b.start].prev != b.start)
  {
    BlockBounds(c, h, end, i);
    if i + 1 < |c| {
      BlockBounds(c, h, end, i + 1);
      assert m[c[i + 1].start].prev == c[i].start;
    }
    if 0 < i {
      BlockBounds(c, h, end, i - 1);
      assert m[c[i].start].prev == c[i - 1].start;
    }
  }

  lemma AroundOf(m: Links, c: seq<Block>, h: nat, end: nat, closed: bool, i: nat)
    requires 0 < h && Tiles(c, h, end) && Linked(m, c, end, closed) && i < |c|
    ensures var p := c[i].start; var lo, hi := FreeLo(c, i), FreeHi(c, i);
            && Around(m, p) && (LeftFree(m, p) <==> lo < i) && (RightFree(m, p) <==> hi == i + 2)
            && m[p].next == c[i].next && MergedLo(m, p) == c[lo].start && MergedHi(m, p) == c[hi - 1].next
            && (hi == i + 2 ==> c[i].next == c[i + 1].start)
  {
    hide Linked, Tiles;
    LinksOf(m, c, h, end, closed, i);
    if 0 < i {
      LinksOf(m, c, h, end, closed, i - 1);
    }
    if i + 1 < |c| {
      LinksOf(m, c, h, end, closed, i + 1);
    }
  }

  // ---------------------------------------------------------------------------------
  // The moves on headers
  // ---------------------------------------------------------------------------------

  /** A free block at `n` was put behind the block at `p`; `fix` tells whether `prev` of the next is set. */
  ghost function Inserted(m: Links, p: int, n: int, fix: bool): Links
    requires p in m && m[p].next in m
  {
    var q := m[p].next;
    var e := m[n := Link(false, q, p)];
    var e2 := if fix then e[q := m[q].(prev := n)] else e;
    e2[p := m[p].(next := n)]
  }

  /** The block at `a` swallowed its successor at `p`. */
  ghost function Joined(m: Links, a: int, p: int): Links
    requires a in m && p in m && m[p].next in m
  {
    var r := m[p].next;
    var e := m[a := m[a].(next := r)];
    e[r := e[r].(prev := a)]
  }

  ghost function Marked(m: Links, p: int, used: bool): Links
    requires p in m
  {
    m[p := m[p].(used := used)]
  }

  /** The block at `p` was marked free and merged with its free neighbours. */
  ghost function Released(m: Links, p: nat): Links
    requires Around(m, p)
  {
    var e1 := Marked(m, p, false);
    var e2 := if LeftFree(m, p) then Joined(e1, m[p].prev, p) else e1;
    if RightFree(m, p) then Joined(e2, MergedLo(m, p), m[p].next) else e2
  }

  lemma RelinkTwo(m: Links, e: Links, p: nat, n: nat, z: nat, end: int, closed: bool)
    requires p < n < z && p in m && z in m && p in e && n in e && z in e
    requires e[p] == Link(true, n, m[p].prev) && e[n] == Link(false, z, p)
    requires e[z].used == m[z].used && e[z].next == m[z].next && (z != end || closed ==> e[z].prev == n)
    requires forall q :: q in m && (q < p || z < q) ==> q in e && m[q] == e[q]
    ensures Relinked(m, e, [Block(p, n, true), Block(n, z, false)], end, closed)
  {
  }

  /** Splitting a block to take its front. */
  lemma RelinkSplit(m: Links, p: nat, n: nat, z: nat, fix: bool, end: int, closed: bool)
    requires p in m && m[p].next == z && z in m && p < n < z && (z != end || closed ==> fix)
    ensures Relinked(m, Marked(Inserted(m, p, n, fix), p, true), [Block(p, n, true), Block(n, z, false)], end, closed)
  {
    hide Relinked;
    RelinkTwo(m, Marked(Inserted(m, p, n, fix), p, true), p, n, z, end, closed);
  }

  /** Taking a block as it is. */
  lemma RelinkWhole(m: Links, b: Block, end: int, closed: bool)
    requires b.start in m && b.next in m && b.start < b.next && m[b.start].next == b.next
    requires b.next != end || closed ==> m[b.next].prev == b.start
    ensures Relinked(m, Marked(m, b.start, true), [b.(used := true)], end, closed)
  {
  }

  /** Releasing a block. */
  lemma RelinkFree(m: Links, p: nat, end: int, closed: bool)
    requires Around(m, p) && (m[p].next != end || closed ==> m[m[p].next].prev == p)
    ensures Relinked(m, Released(m, p), [Block(MergedLo(m, p), MergedHi(m, p), false)], end, closed)
  {
    var e, a, z := Released(m, p), MergedLo(m, p), MergedHi(m, p);
    assert a in e && z in e && e[a] == Link(false, z, m[a].prev);
    assert e[z].used == m[z].used && e[z].next == m[z].next;
    assert forall q :: q in m && (q < a || z < q) ==> q in e && m[q] == e[q];
  }

  /** Growing: the free neighbour is swallowed and what is left of it begins at `n`. */
  lemma RelinkGrow(m: Links, p: nat, n: nat, end: int, closed: bool)
    requires Around(m, p) && m[p].used && RightFree(m, p) && p < n < MergedHi(m, p)
    ensures p in Joined(m, p, m[p].next) && Joined(m, p, m[p].next)[p].next in Joined(m, p, m[p].next)
    ensures Relinked(m, Inserted(Joined(m, p, m[p].next), p, n, true),
                     [Block(p, n, true), Block(n, MergedHi(m, p), false)], end, closed)
  {
    hide Relinked;
    RelinkTwo(m, Inserted(Joined(m, p, m[p].next), p, n, true), p, n, MergedHi(m, p), end, closed);
  }

  /** The part of the block at `p` behind `n` was cut off and joined to a free right neighbour. */
  ghost function Cut(m: Links, p: nat, n: nat, fix: bool): Links
    requires Around(m, p) && p < n < m[p].next
  {
    var e := Inserted(m, p, n, fix);
    if RightFree(m, p) then Joined(e, n, m[p].next) else e
  }

  lemma RelinkCut(m: Links, p: nat, n: nat, fix: bool, end: int, closed: bool)
    requires Around(m, p) && m[p].used && p < n < m[p].next && (m[p].next != end || closed ==> fix)
    ensures Relinked(m, Cut(m, p, n, fix), [Block(p, n, true), Block(n, MergedHi(m, p), false)], end, closed)
  {
    hide Relinked;
    RelinkTwo(m, Cut(m, p, n, fix), p, n, MergedHi(m, p), end, closed);
  }

  /** The free block at `p` was merged with its free neighbours, the right one first. */
  ghost function Plugged(m: Links, p: nat): Links
    requires Around(m, p)
  {
    var e := if RightFree(m, p) then Joined(m, p, m[p].next) else m;
    if LeftFree(m, p) then Joined(e, m[p].prev, p) else e
  }

  lemma RelinkPlug(m: Links, p: nat, end: int, closed: bool)
    requires Around(m, p) && (m[p].next != end || closed ==> m[m[p].next].prev == p)
    ensures Around(Marked(m, p, false), p)
    ensures Relinked(m, Plugged(Marked(m, p, false), p), [Block(MergedLo(m, p), MergedHi(m, p), false)], end, closed)
  {
    var e, a, z := Plugged(Marked(m, p, false), p), MergedLo(m, p), MergedHi(m, p);
    assert a in e && z in e && e[a] == Link(false, z, m[a].prev);
    assert e[z].used == m[z].used && e[z].next == m[z].next;
    assert forall q :: q in m && (q < a || z < q) ==> q in e && m[q] == e[q];
  }

  /** Plugging the part cut off a used block joins it to a free right neighbour. */
  lemma CutIsPlugged(m: Links, p: nat, n: nat, fix: bool)
    requires Around(m, p) && m[p].used && p < n < m[p].next && (fix || m[m[p].next].used)
    ensures Around(Inserted(m, p, n, fix), n)
    ensures var e := Inserted(m, p, n, fix);
            Plugged(e, n) == Cut(m, p, n, fix) && RightFree(e, n) == RightFree(m, p) && !LeftFree(e, n)
            && e[n].next == m[p].next && MergedLo(e, n) == n && MergedHi(e, n) == MergedHi(m, p)
  {
  }
}
