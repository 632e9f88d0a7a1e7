/**
 The chain of blocks that both kernel heaps keep in address order.

 `mem.c` and `memheap.c` lay their pools out the same way: blocks follow one another
 without gaps, every block begins with a header of `h` bytes, and the pool is closed by a
 header that is always in use. This module holds that shape and the moves the two
 allocators make on it (take a free block, release a block and coalesce, shift the end of
 a used block), as functions on sequences. The allocators themselves, with their links,
 their search order and their counters, are in `SmallMem` and `MemHeap`.
 */
module BlockChain {

  /** One block: it spans `[start, next)`, header included. */
  datatype Block = Block(start: nat, next: nat, used: bool)

  /** The blocks follow one another from `lo` to `end`, and each holds its header. */
  ghost predicate Covers(c: seq<Block>, h: nat, lo: nat, end: nat) {
    && 0 < |c| && c[0].start == lo && c[|c| - 1].next == end
    && (forall i :: 0 <= i < |c| ==> c[i].start + h <= c[i].next)
    && (forall i, j :: 0 <= i && j == i + 1 && j < |c| ==> c[i].next == c[j].start)
  }

  ghost predicate Tiles(c: seq<Block>, h: nat, end: nat) {
    Covers(c, h, 0, end)
  }

  /** No two neighbours are both free: everything that can be merged has been. */
  ghost predicate Coalesced(c: seq<Block>) {
    forall i, j :: 0 <= i && j == i + 1 && j < |c| ==> c[i].used || c[j].used
  }

  /** What every operation of either allocator keeps. */
  ghost predicate Canonical(c: seq<Block>, h: nat, end: nat) {
    0 < h && Tiles(c, h, end) && Coalesced(c)
  }

  /** Blocks further right begin no earlier than a block ends. */
  ghost predicate Ordered(c: seq<Block>) {
    forall i, j :: 0 <= i < j < |c| ==> c[i].next <= c[j].start
  }

  ghost function UsedSet(c: seq<Block>): set<Block> {
    set b | b in c && b.used
  }

  /** Blocks that do not overlap. */
  ghost predicate Apart(u: set<Block>) {
    forall x, y :: x in u && y in u && x != y ==> x.next <= y.start || y.next <= x.start
  }

  /** Offsets at which a free block begins. */
  ghost function FreeStarts(c: seq<Block>): set<nat> {
    set b | b in c && !b.used :: b.start
  }

  /** Bytes taken by used blocks, headers included (`used_mem` of `mem.c`). */
  function UsedBytes(c: seq<Block>): int {
    if c == [] then 0
    else UsedBytes(c[1..]) + if c[0].used then c[0].next - c[0].start else 0
  }

  /** Data bytes of free blocks, headers excluded (`available_size` of `memheap.c`). */
  function FreeBytes(c: seq<Block>, h: nat): int {
    if c == [] then 0
    else FreeBytes(c[1..], h) + if c[0].used then 0 else c[0].next - c[0].start - h
  }

  function Size(b: Block, h: nat): int {
    b.next - b.start - h
  }

  // ---------------------------------------------------------------------------------
  // The moves
  // ---------------------------------------------------------------------------------

  /** Take free block `i` for `size` data bytes; split it when a useful rest remains. */
  function AllocAt(c: seq<Block>, i: nat, h: nat, min: nat, size: nat): seq<Block>
    requires i < |c|
  {
    var b := c[i];
    if Size(b, h) >= size + h + min then
      c[..i] + [Block(b.start, b.start + h + size, true), Block(b.start + h + size, b.next, false)] + c[i + 1..]
    else
      c[i := b.(used := true)]
  }

  /** Join block `i` with its right neighbour. */
  function MergeAt(c: seq<Block>, i: nat): seq<Block>
    requires i + 1 < |c|
  {
    c[..i] + [Block(c[i].start, c[i + 1].next, c[i].used)] + c[i + 2..]
  }

  function MergeRight(c: seq<Block>, i: nat): seq<Block>
    requires i < |c|
  {
    if i + 1 < |c| && !c[i + 1].used then MergeAt(c, i) else c
  }

  function MergeLeft(c: seq<Block>, i: nat): seq<Block>
    requires i < |c|
  {
    if 0 < i && !c[i - 1].used then MergeAt(c, i - 1) else c
  }

  /** Release block `i` and coalesce it with its free neighbours. */
  function FreeAt(c: seq<Block>, i: nat): seq<Block>
    requires i < |c|
  {
    MergeLeft(MergeRight(c[i := c[i].(used := false)], i), i)
  }

  /** Where the space behind used block `i` ends: behind a free right neighbour, if any. */
  function Reach(c: seq<Block>, i: nat): nat
    requires i < |c|
  {
    if i + 1 < |c| && !c[i + 1].used then c[i + 1].next else c[i].next
  }

  /** Give used block `i` exactly `size` data bytes; what is behind becomes one free block. */
  function ResizeAt(c: seq<Block>, i: nat, h: nat, size: nat): seq<Block>
    requires i < |c|
  {
    var b := c[i];
    var rest := if i + 1 < |c| && !c[i + 1].used then i + 2 else i + 1;
    c[..i] + [Block(b.start, b.start + h + size, true), Block(b.start + h + size, Reach(c, i), false)] + c[rest..]
  }

  /** `c` with `mid` in place of `c[lo..hi]`; every move is one of these. */
  function Splice(c: seq<Block>, lo: nat, hi: nat, mid: seq<Block>): seq<Block>
    requires lo <= hi <= |c|
  {
    c[..lo] + mid + c[hi..]
  }

  // ---------------------------------------------------------------------------------
  // Facts about chains
  // ---------------------------------------------------------------------------------

  lemma {:induction false} TilesOrdered(c: seq<Block>, h: nat, end: nat)
    requires Tiles(c, h, end)
    ensures Ordered(c)
  {
    forall i, j | 0 <= i < j < |c| ensures c[i].next <= c[j].start {
      OrderedPair(c, h, end, i, j);
    }
  }

  lemma {:induction false} OrderedPair(c: seq<Block>, h: nat, end: nat, i: nat, j: nat)
    requires Tiles(c, h, end) && i < j < |c|
    ensures c[i].next <= c[j].start
    decreases j
  {
    if i + 1 < j {
      OrderedPair(c, h, end, i, j - 1);
      assert c[j - 1].next == c[j].start;
    }
  }

  lemma BlockBounds(c: seq<Block>, h: nat, end: nat, i: nat)
    requires Tiles(c, h, end) && i < |c|
    ensures c[i].start + h <= c[i].next <= end
    ensures i + 1 < |c| ==> c[i].next == c[i + 1].start
    ensures i + 1 == |c| ==> c[i].next == end
  {
    TilesOrdered(c, h, end);
  }

  /** Two distinct blocks share no byte, so a block is known by its start. */
  lemma StartsDistinct(c: seq<Block>, h: nat, end: nat, i: nat, j: nat)
    requires 0 < h && Tiles(c, h, end) && i < |c| && j < |c| && c[i].start == c[j].start
    ensures i == j
  {
    TilesOrdered(c, h, end);
  }

  /** Blocks in use do not overlap and lie in the pool. */
  lemma UsedApart(c: seq<Block>, h: nat, end: nat)
    requires Tiles(c, h, end)
    ensures Apart(UsedSet(c))
    ensures forall b :: b in UsedSet(c) ==> b.start + h <= b.next <= end
  {
    TilesOrdered(c, h, end);
  }

  lemma ApartPair(u: set<Block>, x: Block, y: Block)
    requires Apart(u) && x in u && y in u && x != y
    ensures x.next <= y.start || y.next <= x.start
  {
  }

  lemma {:induction false} UsedBytesConcat(a: seq<Block>, b: seq<Block>)
    ensures UsedBytes(a + b) == UsedBytes(a) + UsedBytes(b)
  {
    if a == [] {
      assert a + b == b;
    } else {
      assert (a + b)[1..] == a[1..] + b;
      UsedBytesConcat(a[1..], b);
    }
  }

  lemma {:induction false} FreeBytesConcat(a: seq<Block>, b: seq<Block>, h: nat)
    ensures FreeBytes(a + b, h) == FreeBytes(a, h) + FreeBytes(b, h)
  {
    if a == [] {
      assert a + b == b;
    } else {
      assert (a + b)[1..] == a[1..] + b;
      FreeBytesConcat(a[1..], b, h);
    }
  }

  lemma SumOne(b: Block, h: nat)
    ensures UsedBytes([b]) == if b.used then b.next - b.start else 0
    ensures FreeBytes([b], h) == if b.used then 0 else Size(b, h)
  {
  }

  lemma SumTwo(a: Block, b: Block, h: nat)
    ensures UsedBytes([a, b]) == UsedBytes([a]) + UsedBytes([b])
    ensures FreeBytes([a, b], h) == FreeBytes([a], h) + FreeBytes([b], h)
  {
    assert [a, b] == [a] + [b];
    UsedBytesConcat([a], [b]);
    FreeBytesConcat([a], [b], h);
  }

  /** Nothing is lost: used bytes, free data bytes and free headers fill the pool. */
  lemma {:induction false} BytesConserved(c: seq<Block>, h: nat, lo: nat, end: nat)
    requires forall i, j :: 0 <= i && j == i + 1 && j < |c| ==> c[i].next == c[j].start
    requires if c == [] then lo == end else c[0].start == lo && c[|c| - 1].next == end
    ensures UsedBytes(c) + FreeBytes(c, h) + h * FreeCount(c) == end - lo
  {
    if c != [] {
      BytesConserved(c[1..], h, c[0].next, end);
    }
  }

  function FreeCount(c: seq<Block>): nat {
    if c == [] then 0 else FreeCount(c[1..]) + if c[0].used then 0 else 1
  }

  // ---------------------------------------------------------------------------------
  // The used blocks determine the chain
  // ---------------------------------------------------------------------------------

  /** A chain that is a prefix of another reaches the end as soon as the other does. */
  lemma PrefixIsWhole(a: seq<Block>, b: seq<Block>, h: nat, end: nat)
    requires Canonical(a, h, end) && Canonical(b, h, end) && |a| <= |b| && a == b[..|a|]
    ensures a == b
  {
    TilesOrdered(b, h, end);
    assert b[|a| - 1] == a[|a| - 1];
    assert b[|a| - 1].next == end == b[|b| - 1].next;
  }

  lemma {:induction false} ChainUniqueFrom(a: seq<Block>, b: seq<Block>, h: nat, end: nat, k: nat)
    requires Canonical(a, h, end) && Canonical(b, h, end) && UsedSet(a) == UsedSet(b)
    requires k <= |a| && k <= |b| && a[..k] == b[..k]
    ensures a == b
    decreases |a| - k
  {
    if k == |a| {
      PrefixIsWhole(a, b, h, end);
    } else if k == |b| {
      PrefixIsWhole(b, a, h, end);
    } else {
      SameBlock(a, b, h, end, k);
      assert a[..k + 1] == a[..k] + [a[k]] && b[..k + 1] == b[..k] + [b[k]];
      ChainUniqueFrom(a, b, h, end, k + 1);
    }
  }

  lemma SameBlock(a: seq<Block>, b: seq<Block>, h: nat, end: nat, k: nat)
    requires Canonical(a, h, end) && Canonical(b, h, end) && UsedSet(a) == UsedSet(b)
    requires k < |a| && k < |b| && a[..k] == b[..k]
    ensures a[k] == b[k]
  {
    if 0 < k {
      assert a[k - 1] == a[..k][k - 1] == b[..k][k - 1] == b[k - 1];
    }
    assert a[k].start == b[k].start;
    if a[k].used || b[k].used {
      UsedSame(a, b, h, end, k);
      UsedSame(b, a, h, end, k);
    } else {
      FreeNoLonger(a, b, h, end, k);
      FreeNoLonger(b, a, h, end, k);
    }
  }

  /** A used block of `a` is a block of `b`, and `b` has only one block at that start. */
  lemma UsedSame(a: seq<Block>, b: seq<Block>, h: nat, end: nat, k: nat)
    requires Canonical(a, h, end) && Canonical(b, h, end) && UsedSet(a) == UsedSet(b)
    requires k < |a| && k < |b| && a[k].start == b[k].start
    ensures a[k].used ==> a[k] == b[k]
  {
    if a[k].used {
      assert a[k] in UsedSet(a);
      assert a[k] in b;
      var m :| 0 <= m < |b| && b[m] == a[k];
      StartsDistinct(b, h, end, m, k);
    }
  }

  /** A free block ends where the next used block begins, or at the end of the pool. */
  lemma FreeNoLonger(a: seq<Block>, b: seq<Block>, h: nat, end: nat, k: nat)
    requires Canonical(a, h, end) && Canonical(b, h, end) && UsedSet(a) == UsedSet(b)
    requires k < |a| && k < |b| && a[k].start == b[k].start && !a[k].used && !b[k].used
    ensures a[k].next <= b[k].next
  {
    TilesOrdered(a, h, end);
    TilesOrdered(b, h, end);
    if k + 1 < |b| {
      assert b[k + 1].used && b[k].next == b[k + 1].start;
      assert b[k + 1] in UsedSet(b);
      assert b[k + 1] in a;
      var m :| 0 <= m < |a| && a[m] == b[k + 1];
      assert a[m].start > a[k].start;
    } else if k + 1 < |a| {
      assert a[k].next <= a[|a| - 1].start;
    }
  }

  /**
   A chain is determined by its used blocks. Hence it does not matter in which order blocks
   were taken and released: two histories that leave the same blocks in use leave the same
   chain.
   */
  lemma ChainUnique(a: seq<Block>, b: seq<Block>, h: nat, end: nat)
    requires Canonical(a, h, end) && Canonical(b, h, end) && UsedSet(a) == UsedSet(b)
    ensures a == b
  {
    ChainUniqueFrom(a, b, h, end, 0);
  }

  lemma TwoBlocksOneUsed(c: seq<Block>)
    requires Coalesced(c) && 2 <= |c|
    ensures UsedSet(c) != {}
  {
    assert (if c[0].used then c[0] else c[1]) in UsedSet(c);
  }

  /** With nothing in use the chain is one free block over the whole pool. */
  lemma AllFreeIsOneBlock(c: seq<Block>, h: nat, end: nat)
    requires Canonical(c, h, end) && UsedSet(c) == {}
    ensures c == [Block(0, end, false)]
  {
    if 2 <= |c| {
      TwoBlocksOneUsed(c);
    }
    assert c[0] in UsedSet(c) <==> c[0].used;
  }

  // ---------------------------------------------------------------------------------
  // What the moves keep and change
  // ---------------------------------------------------------------------------------

  lemma SpliceTiles(c: seq<Block>, lo: nat, hi: nat, mid: seq<Block>, h: nat, end: nat)
    requires Tiles(c, h, end) && lo < hi <= |c| && Covers(mid, h, c[lo].start, c[hi - 1].next)
    ensures Tiles(Splice(c, lo, hi, mid), h, end)
  {
    var d := Splice(c, lo, hi, mid);
    forall i, j | 0 <= i && j == i + 1 && j < |d| ensures d[i].next == d[j].start {
      if j < lo {
      } else if j == lo {
        assert c[i].next == c[j].start;
      } else if j < lo + |mid| {
        assert mid[i - lo].next == mid[j - lo].start;
      } else if j == lo + |mid| {
        assert c[hi - 1].next == c[hi].start;
      } else {
        assert c[i - lo - |mid| + hi].next == c[j - lo - |mid| + hi].start;
      }
    }
  }

  lemma SpliceCoalesced(c: seq<Block>, lo: nat, hi: nat, mid: seq<Block>)
    requires Coalesced(c) && lo < hi <= |c| && 0 < |mid| && Coalesced(mid)
    requires mid[0].used || lo == 0 || c[lo - 1].used
    requires mid[|mid| - 1].used || hi == |c| || c[hi].used
    ensures Coalesced(Splice(c, lo, hi, mid))
  {
    var d := Splice(c, lo, hi, mid);
    forall i, j | 0 <= i && j == i + 1 && j < |d| ensures d[i].used || d[j].used {
      if j < lo {
        assert d[i] == c[i] && d[j] == c[j];
      } else if j == lo {
        assert d[i] == c[lo - 1] && d[j] == mid[0];
      } else if j < lo + |mid| {
        assert d[i] == mid[i - lo] && d[j] == mid[j - lo];
      } else if j == lo + |mid| {
        assert d[i] == mid[|mid| - 1] && d[j] == c[hi];
      } else {
        assert d[i] == c[i - lo - |mid| + hi] && d[j] == c[j - lo - |mid| + hi];
      }
    }
  }

  lemma SpliceSums(c: seq<Block>, lo: nat, hi: nat, mid: seq<Block>, h: nat)
    requires lo <= hi <= |c|
    ensures UsedBytes(Splice(c, lo, hi, mid)) == UsedBytes(c) - UsedBytes(c[lo..hi]) + UsedBytes(mid)
    ensures FreeBytes(Splice(c, lo, hi, mid), h) == FreeBytes(c, h) - FreeBytes(c[lo..hi], h) + FreeBytes(mid, h)
  {
    assert c == c[..lo] + c[lo..hi] + c[hi..];
    UsedBytesConcat(c[..lo] + mid, c[hi..]);
    UsedBytesConcat(c[..lo], mid);
    UsedBytesConcat(c[..lo] + c[lo..hi], c[hi..]);
    UsedBytesConcat(c[..lo], c[lo..hi]);
    FreeBytesConcat(c[..lo] + mid, c[hi..], h);
    FreeBytesConcat(c[..lo], mid, h);
    FreeBytesConcat(c[..lo] + c[lo..hi], c[hi..], h);
    FreeBytesConcat(c[..lo], c[lo..hi], h);
  }

  lemma UsedSetConcat(a: seq<Block>, b: seq<Block>)
    ensures UsedSet(a + b) == UsedSet(a) + UsedSet(b)
  {
  }

  lemma UsedSetDisjoint(c: seq<Block>, i: nat, j: nat, k: nat, l: nat, h: nat, end: nat)
    requires 0 < h && Tiles(c, h, end) && i <= j <= k <= l <= |c|
    ensures UsedSet(c[i..j]) !! UsedSet(c[k..l])
  {
    TilesOrdered(c, h, end);
  }

  lemma SpliceUsedSet(c: seq<Block>, lo: nat, hi: nat, mid: seq<Block>, h: nat, end: nat)
    requires 0 < h && Tiles(c, h, end) && lo <= hi <= |c|
    ensures UsedSet(Splice(c, lo, hi, mid)) == UsedSet(c) - UsedSet(c[lo..hi]) + UsedSet(mid)
  {
    hide UsedSet, Tiles;
    assert c == c[..lo] + c[lo..hi] + c[hi..] && c[..lo] == c[0..lo] && c[hi..] == c[hi..|c|];
    UsedSetConcat(c[..lo] + c[lo..hi], c[hi..]);
    UsedSetConcat(c[..lo], c[lo..hi]);
    UsedSetConcat(c[..lo] + mid, c[hi..]);
    UsedSetConcat(c[..lo], mid);
    UsedSetDisjoint(c, 0, lo, lo, hi, h, end);
    UsedSetDisjoint(c, lo, hi, hi, |c|, h, end);
  }

  lemma FreeStartsConcat(a: seq<Block>, b: seq<Block>)
    ensures FreeStarts(a + b) == FreeStarts(a) + FreeStarts(b)
  {
    forall p | p in FreeStarts(a) + FreeStarts(b) ensures p in FreeStarts(a + b) {
      var x :| (x in a || x in b) && !x.used && x.start == p;
      assert x in a + b;
    }
  }

  lemma FreeStartsInRange(c: seq<Block>, lo: nat, hi: nat, p: nat)
    requires lo <= hi <= |c| && p in FreeStarts(c[lo..hi])
    ensures exists m :: lo <= m < hi && c[m].start == p
  {
    var x :| x in c[lo..hi] && x.start == p;
    var k :| 0 <= k < hi - lo && c[lo..hi][k] == x;
    assert c[lo + k].start == p;
  }

  lemma FreeStartsDisjoint(c: seq<Block>, i: nat, j: nat, k: nat, l: nat, h: nat, end: nat)
    requires 0 < h && Tiles(c, h, end) && i <= j <= k <= l <= |c|
    ensures FreeStarts(c[i..j]) !! FreeStarts(c[k..l])
  {
    forall p | p in FreeStarts(c[i..j]) ensures p !in FreeStarts(c[k..l]) {
      FreeStartsInRange(c, i, j, p);
      var m :| i <= m < j && c[m].start == p;
      if p in FreeStarts(c[k..l]) {
        FreeStartsInRange(c, k, l, p);
        var n :| k <= n < l && c[n].start == p;
        StartsDistinct(c, h, end, m, n);
      }
    }
  }

  lemma SpliceFreeStarts(c: seq<Block>, lo: nat, hi: nat, mid: seq<Block>, h: nat, end: nat)
    requires 0 < h && Tiles(c, h, end) && lo <= hi <= |c|
    ensures FreeStarts(Splice(c, lo, hi, mid)) == FreeStarts(c) - FreeStarts(c[lo..hi]) + FreeStarts(mid)
  {
    hide FreeStarts, Tiles;
    assert c == c[..lo] + c[lo..hi] + c[hi..] && c[..lo] == c[0..lo] && c[hi..] == c[hi..|c|];
    FreeStartsConcat(c[..lo] + c[lo..hi], c[hi..]);
    FreeStartsConcat(c[..lo], c[lo..hi]);
    FreeStartsConcat(c[..lo] + mid, c[hi..]);
    FreeStartsConcat(c[..lo], mid);
    FreeStartsDisjoint(c, 0, lo, lo, hi, h, end);
    FreeStartsDisjoint(c, lo, hi, hi, |c|, h, end);
  }

  /** The blocks that replace `c[i]` when it is taken. */
  function AllocMid(b: Block, h: nat, min: nat, size: nat): seq<Block> {
    if Size(b, h) >= size + h + min
    then [Block(b.start, b.start + h + size, true), Block(b.start + h + size, b.next, false)]
    else [b.(used := true)]
  }

  lemma AllocMidCovers(b: Block, h: nat, min: nat, size: nat)
    requires b.start + h <= b.next && size <= Size(b, h)
    ensures Covers(AllocMid(b, h, min, size), h, b.start, b.next)
  {
  }

  lemma AllocAtSplice(c: seq<Block>, i: nat, h: nat, min: nat, size: nat)
    requires i < |c|
    ensures AllocAt(c, i, h, min, size) == Splice(c, i, i + 1, AllocMid(c[i], h, min, size))
    ensures i < |AllocAt(c, i, h, min, size)|
    ensures AllocAt(c, i, h, min, size)[i] == AllocMid(c[i], h, min, size)[0]
    ensures c[i..i + 1] == [c[i]]
  {
  }

  lemma AllocCanonical(c: seq<Block>, i: nat, h: nat, min: nat, size: nat, end: nat)
    requires Canonical(c, h, end) && i < |c| && !c[i].used && Size(c[i], h) >= size
    ensures Canonical(AllocAt(c, i, h, min, size), h, end)
  {
    hide AllocAt, Splice;
    var mid := AllocMid(c[i], h, min, size);
    AllocAtSplice(c, i, h, min, size);
    SpliceTiles(c, i, i + 1, mid, h, end);
    SpliceCoalesced(c, i, i + 1, mid);
  }

  lemma AllocUsed(c: seq<Block>, i: nat, h: nat, min: nat, size: nat, end: nat)
    requires 0 < h && Tiles(c, h, end) && i < |c| && !c[i].used
    ensures var d := AllocAt(c, i, h, min, size);
            UsedSet(d) == UsedSet(c) + {d[i]} && d[i] !in UsedSet(c)
  {
    hide AllocAt, Splice;
    var d := AllocAt(c, i, h, min, size);
    var mid := AllocMid(c[i], h, min, size);
    AllocAtSplice(c, i, h, min, size);
    SpliceUsedSet(c, i, i + 1, mid, h, end);
    assert UsedSet(mid) == {d[i]};
    forall m | 0 <= m < |c| && c[m] == d[i] ensures m == i {
      StartsDistinct(c, h, end, m, i);
    }
  }

  lemma AllocSums(c: seq<Block>, i: nat, h: nat, min: nat, size: nat)
    requires i < |c| && !c[i].used
    ensures var d := AllocAt(c, i, h, min, size);
            && UsedBytes(d) == UsedBytes(c) + (d[i].next - d[i].start)
            && FreeBytes(d, h) == FreeBytes(c, h) - (if |d| == |c| then Size(d[i], h) else size + h)
  {
    var mid := AllocMid(c[i], h, min, size);
    AllocAtSplice(c, i, h, min, size);
    SpliceSums(c, i, i + 1, mid, h);
    if |mid| == 2 {
      SumTwo(mid[0], mid[1], h);
    }
  }

  /** Releasing replaces the block and its free neighbours by one block. */
  lemma FreeAtSplice(c: seq<Block>, i: nat, lo: nat, hi: nat)
    requires i < |c|
    requires lo == if 0 < i && !c[i - 1].used then i - 1 else i
    requires hi == if i + 1 < |c| && !c[i + 1].used then i + 2 else i + 1
    ensures FreeAt(c, i) == Splice(c, lo, hi, [Block(c[lo].start, c[hi - 1].next, false)])
  {
    var c1 := c[i := c[i].(used := false)];
    var c2 := MergeRight(c1, i);
    assert c2 == c[..i] + [Block(c[i].start, c[hi - 1].next, false)] + c[hi..];
    assert MergeLeft(c2, i) == c[..lo] + [Block(c[lo].start, c[hi - 1].next, false)] + c[hi..];
  }

  function FreeLo(c: seq<Block>, i: nat): nat
    requires i < |c|
  {
    if 0 < i && !c[i - 1].used then i - 1 else i
  }

  function FreeHi(c: seq<Block>, i: nat): (hi: nat)
    requires i < |c|
    ensures i < hi <= |c|
  {
    if i + 1 < |c| && !c[i + 1].used then i + 2 else i + 1
  }

  lemma MergedCovers(c: seq<Block>, h: nat, end: nat, i: nat)
    requires Tiles(c, h, end) && i < |c|
    ensures var lo, hi := FreeLo(c, i), FreeHi(c, i);
            lo < hi && Covers([Block(c[lo].start, c[hi - 1].next, false)], h, c[lo].start, c[hi - 1].next)
  {
    var lo, hi := FreeLo(c, i), FreeHi(c, i);
    assert lo == i || c[lo].next == c[i].start;
    assert hi == i + 1 || c[i].next == c[i + 1].start;
  }

  lemma FreeCanonical(c: seq<Block>, i: nat, h: nat, end: nat)
    requires Canonical(c, h, end) && i < |c|
    ensures Canonical(FreeAt(c, i), h, end)
  {
    hide FreeAt, Splice;
    var lo, hi := FreeLo(c, i), FreeHi(c, i);
    var mid := [Block(c[lo].start, c[hi - 1].next, false)];
    FreeAtSplice(c, i, lo, hi);
    assert lo == i || c[lo].next == c[i].start;
    assert hi == i + 1 || c[i].next == c[i + 1].start;
    SpliceTiles(c, lo, hi, mid, h, end);
    SpliceCoalesced(c, lo, hi, mid);
  }

  lemma FreeUsed(c: seq<Block>, i: nat, h: nat, end: nat)
    requires 0 < h && Tiles(c, h, end) && i < |c| && c[i].used
    ensures UsedSet(FreeAt(c, i)) == UsedSet(c) - {c[i]}
  {
    hide Tiles, FreeAt, Splice;
    var lo, hi := FreeLo(c, i), FreeHi(c, i);
    var mid := [Block(c[lo].start, c[hi - 1].next, false)];
    FreeAtSplice(c, i, lo, hi);
    SpliceUsedSet(c, lo, hi, mid, h, end);
    UsedAround(c, i, lo, hi);
    assert UsedSet(mid) == {};
  }

  lemma UsedAround(c: seq<Block>, i: nat, lo: nat, hi: nat)
    requires i < |c| && c[i].used && i - 1 <= lo <= i < hi <= i + 2 && hi <= |c|
    requires lo < i ==> !c[lo].used
    requires i + 1 < hi ==> !c[i + 1].used
    ensures UsedSet(c[lo..hi]) == {c[i]}
  {
    assert c[i] == c[lo..hi][i - lo];
  }

  lemma FreeSums(c: seq<Block>, i: nat, h: nat, end: nat)
    requires Tiles(c, h, end) && i < |c| && c[i].used
    ensures var d := FreeAt(c, i);
            && UsedBytes(d) == UsedBytes(c) - (c[i].next - c[i].start)
            && FreeBytes(d, h) == FreeBytes(c, h) + Size(c[i], h)
                                  + (if FreeLo(c, i) < i then h else 0) + (if FreeHi(c, i) == i + 2 then h else 0)
  {
    hide FreeBytes, UsedBytes;
    var lo, hi := FreeLo(c, i), FreeHi(c, i);
    var mid := [Block(c[lo].start, c[hi - 1].next, false)];
    FreeAtSplice(c, i, lo, hi);
    assert lo == i || c[lo].next == c[i].start;
    assert hi == i + 1 || c[i].next == c[i + 1].start;
    SpliceSums(c, lo, hi, mid, h);
    SumsAround(c, i, lo, hi, h);
    SumOne(mid[0], h);
  }

  lemma SumsAround(c: seq<Block>, i: nat, lo: nat, hi: nat, h: nat)
    requires i < |c| && c[i].used && i - 1 <= lo <= i < hi <= i + 2 && hi <= |c|
    requires lo < i ==> !c[lo].used
    requires i + 1 < hi ==> !c[i + 1].used
    ensures UsedBytes(c[lo..hi]) == c[i].next - c[i].start
    ensures FreeBytes(c[lo..hi], h) ==
            (if lo < i then Size(c[lo], h) else 0) + (if i + 1 < hi then Size(c[i + 1], h) else 0)
  {
    assert c[lo..hi] == c[lo..i] + [c[i]] + c[i + 1..hi];
    assert c[lo..i] == if lo < i then [c[lo]] else [];
    assert c[i + 1..hi] == if i + 1 < hi then [c[i + 1]] else [];
    UsedBytesConcat(c[lo..i] + [c[i]], c[i + 1..hi]);
    UsedBytesConcat(c[lo..i], [c[i]]);
    FreeBytesConcat(c[lo..i] + [c[i]], c[i + 1..hi], h);
    FreeBytesConcat(c[lo..i], [c[i]], h);
  }

  function ResizeMid(c: seq<Block>, i: nat, h: nat, size: nat): seq<Block>
    requires i < |c|
  {
    [Block(c[i].start, c[i].start + h + size, true), Block(c[i].start + h + size, Reach(c, i), false)]
  }

  lemma ResizeMidCovers(c: seq<Block>, i: nat, h: nat, size: nat, end: nat)
    requires Tiles(c, h, end) && i < |c| && c[i].start + h + size + h <= Reach(c, i)
    ensures Covers(ResizeMid(c, i, h, size), h, c[i].start, c[FreeHi(c, i) - 1].next)
  {
  }

  lemma ResizeCanonical(c: seq<Block>, i: nat, h: nat, size: nat, end: nat)
    requires Canonical(c, h, end) && i < |c| && c[i].used && c[i].start + h + size + h <= Reach(c, i)
    ensures Canonical(ResizeAt(c, i, h, size), h, end)
  {
    hide UsedSet;
    var hi, mid := FreeHi(c, i), ResizeMid(c, i, h, size);
    assert ResizeAt(c, i, h, size) == Splice(c, i, hi, mid);
    SpliceTiles(c, i, hi, mid, h, end);
    SpliceCoalesced(c, i, hi, mid);
  }

  lemma ResizeUsed(c: seq<Block>, i: nat, h: nat, size: nat, end: nat)
    requires 0 < h && Tiles(c, h, end) && i < |c| && c[i].used
    ensures UsedSet(ResizeAt(c, i, h, size)) == UsedSet(c) - {c[i]} + {Block(c[i].start, c[i].start + h + size, true)}
  {
    var hi, mid := FreeHi(c, i), ResizeMid(c, i, h, size);
    assert ResizeAt(c, i, h, size) == Splice(c, i, hi, mid);
    SpliceUsedSet(c, i, hi, mid, h, end);
    UsedAround(c, i, i, hi);
    assert UsedSet(mid) == {mid[0]};
  }

  lemma ResizeSums(c: seq<Block>, i: nat, h: nat, size: nat, end: nat)
    requires Tiles(c, h, end) && i < |c| && c[i].used
    ensures var d := ResizeAt(c, i, h, size);
            && UsedBytes(d) == UsedBytes(c) - Size(c[i], h) + size
            && FreeBytes(d, h) == FreeBytes(c, h) + Size(c[i], h) - size - (if FreeHi(c, i) == i + 2 then 0 else h)
  {
    var hi, mid := FreeHi(c, i), ResizeMid(c, i, h, size);
    assert ResizeAt(c, i, h, size) == Splice(c, i, hi, mid);
    assert hi == i + 1 || c[i].next == c[i + 1].start;
    SpliceSums(c, i, hi, mid, h);
    SumsAround(c, i, i, hi, h);
    SumTwo(mid[0], mid[1], h);
  }

  lemma AllocFreeStarts(c: seq<Block>, i: nat, h: nat, min: nat, size: nat, end: nat)
    requires 0 < h && Tiles(c, h, end) && i < |c| && !c[i].used
    ensures FreeStarts(AllocAt(c, i, h, min, size))
            == FreeStarts(c) - {c[i].start} + (if Size(c[i], h) >= size + h + min then {c[i].start + h + size} else {})
  {
    hide FreeStarts, Tiles, AllocAt, Splice;
    var mid := AllocMid(c[i], h, min, size);
    AllocAtSplice(c, i, h, min, size);
    SpliceFreeStarts(c, i, i + 1, mid, h, end);
    FreeStartsOne(c[i]);
    FreeStartsOne(mid[0]);
    if |mid| == 2 {
      assert mid == [mid[0]] + [mid[1]];
      FreeStartsConcat([mid[0]], [mid[1]]);
      FreeStartsOne(mid[1]);
    }
  }

  lemma FreeStartsOne(b: Block)
    ensures FreeStarts([]) == {}
    ensures FreeStarts([b]) == if b.used then {} else {b.start}
  {
    if !b.used {
      assert b in [b];
    }
  }

  lemma FreeStartsAround(c: seq<Block>, i: nat, lo: nat, hi: nat)
    requires i < |c| && c[i].used && i - 1 <= lo <= i < hi <= i + 2 && hi <= |c|
    requires lo < i ==> !c[lo].used
    requires i + 1 < hi ==> !c[i + 1].used
    ensures FreeStarts(c[lo..hi]) ==
            (if lo < i then {c[lo].start} else {}) + (if i + 1 < hi then {c[i + 1].start} else {})
  {
    hide FreeStarts;
    assert c[lo..hi] == c[lo..i] + [c[i]] + c[i + 1..hi];
    assert c[lo..i] == if lo < i then [c[lo]] else [];
    assert c[i + 1..hi] == if i + 1 < hi then [c[i + 1]] else [];
    FreeStartsConcat(c[lo..i] + [c[i]], c[i + 1..hi]);
    FreeStartsConcat(c[lo..i], [c[i]]);
    FreeStartsOne(c[lo]);
    FreeStartsOne(c[i]);
    FreeStartsOne(c[hi - 1]);
  }

  lemma FreeFreeStarts(c: seq<Block>, i: nat, h: nat, end: nat)
    requires 0 < h && Tiles(c, h, end) && i < |c| && c[i].used
    ensures FreeStarts(FreeAt(c, i))
            == FreeStarts(c) - (if FreeHi(c, i) == i + 2 then {c[i + 1].start} else {}) + {c[FreeLo(c, i)].start}
  {
    hide FreeStarts, Tiles, FreeAt, Splice;
    var lo, hi := FreeLo(c, i), FreeHi(c, i);
    var mid := [Block(c[lo].start, c[hi - 1].next, false)];
    FreeAtSplice(c, i, lo, hi);
    SpliceFreeStarts(c, lo, hi, mid, h, end);
    FreeStartsAround(c, i, lo, hi);
    FreeStartsOne(mid[0]);
  }

  lemma ResizeFreeStarts(c: seq<Block>, i: nat, h: nat, size: nat, end: nat)
    requires 0 < h && Tiles(c, h, end) && i < |c| && c[i].used
    ensures FreeStarts(ResizeAt(c, i, h, size))
            == FreeStarts(c) - (if FreeHi(c, i) == i + 2 then {c[i + 1].start} else {}) + {c[i].start + h + size}
  {
    hide FreeStarts, Tiles;
    var hi, mid := FreeHi(c, i), ResizeMid(c, i, h, size);
    assert ResizeAt(c, i, h, size) == Splice(c, i, hi, mid);
    SpliceFreeStarts(c, i, hi, mid, h, end);
    FreeStartsAround(c, i, i, hi);
    assert mid == [mid[0]] + [mid[1]];
    FreeStartsConcat([mid[0]], [mid[1]]);
    FreeStartsOne(mid[0]);
    FreeStartsOne(mid[1]);
  }

  /** Releasing the block just taken gives back the very same chain. */
  lemma AllocThenFree(c: seq<Block>, i: nat, h: nat, min: nat, size: nat, end: nat)
    requires Canonical(c, h, end) && i < |c| && !c[i].used && Size(c[i], h) >= size
    ensures i < |AllocAt(c, i, h, min, size)| && FreeAt(AllocAt(c, i, h, min, size), i) == c
  {
    var d := AllocAt(c, i, h, min, size);
    AllocCanonical(c, i, h, min, size, end);
    AllocUsed(c, i, h, min, size, end);
    FreeCanonical(d, i, h, end);
    FreeUsed(d, i, h, end);
    ChainUnique(FreeAt(d, i), c, h, end);
  }

  // ---------------------------------------------------------------------------------
  // Releasing everything
  // ---------------------------------------------------------------------------------

  /** Position of the block at `p`; `|c|` when there is none. */
  function IndexOf(c: seq<Block>, p: int): (i: nat)
    ensures i <= |c| && (i < |c| ==> c[i].start == p) && (i == |c| ==> forall k :: 0 <= k < |c| ==> c[k].start != p)
  {
    if c == [] then 0 else if c[0].start == p then 0 else 1 + IndexOf(c[1..], p)
  }

  /** Release the block at `p`, if there is a used one. */
  function FreeBlock(c: seq<Block>, p: nat): seq<Block> {
    var i := IndexOf(c, p);
    if i < |c| && c[i].used then FreeAt(c, i) else c
  }

  /** Release, one after another, the used blocks that begin at the given offsets. */
  function FreeMany(c: seq<Block>, order: seq<nat>): seq<Block>
    decreases |order|
  {
    if order == [] then c else FreeMany(FreeBlock(c, order[0]), order[1..])
  }

  lemma FreeBlockCanonical(c: seq<Block>, p: nat, h: nat, end: nat)
    requires Canonical(c, h, end)
    ensures Canonical(FreeBlock(c, p), h, end)
  {
    var i := IndexOf(c, p);
    if i < |c| && c[i].used {
      FreeCanonical(c, i, h, end);
    }
  }

  lemma FreeBlockUsed(c: seq<Block>, p: nat, h: nat, end: nat)
    requires Canonical(c, h, end)
    ensures UsedSet(FreeBlock(c, p)) == set b | b in UsedSet(c) && b.start != p
  {
    hide Tiles, FreeAt, Coalesced;
    var i := IndexOf(c, p);
    OnlyBlockAt(c, p, h, end);
    if i < |c| && c[i].used {
      FreeUsed(c, i, h, end);
    }
  }

  lemma OnlyBlockAt(c: seq<Block>, p: nat, h: nat, end: nat)
    requires 0 < h && Tiles(c, h, end)
    ensures var i := IndexOf(c, p); forall b :: b in c && b.start == p ==> i < |c| && b == c[i]
  {
    TilesOrdered(c, h, end);
  }

  /** Whatever the order, once every used block was released one free block remains. */
  lemma {:induction false} FreeAllAnyOrder(c: seq<Block>, order: seq<nat>, h: nat, end: nat)
    requires Canonical(c, h, end)
    requires forall b :: b in UsedSet(c) ==> b.start in order
    ensures FreeMany(c, order) == [Block(0, end, false)]
    decreases |order|
  {
    if order == [] {
      assert UsedSet(c) == {};
      AllFreeIsOneBlock(c, h, end);
    } else {
      FreeBlockCanonical(c, order[0], h, end);
      FreeBlockUsed(c, order[0], h, end);
      FreeAllAnyOrder(FreeBlock(c, order[0]), order[1..], h, end);
    }
  }
}
