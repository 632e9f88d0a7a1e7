/**
 What the small-memory heap of `mem.c` does to its block list, to `lfree` and to its
 counters, as functions on values. `SmallMem` holds the heap itself; its methods are proved
 to take exactly these steps. Offsets are relative to `heap_ptr`; `heap_end` lies at `end`,
 which is `mem_size_aligned` plus one header.
 */
module SmallMemSpec {
  import opened BlockChain
  import opened Words

  const MIN := 12   // MIN_SIZE and, with this alignment, MIN_SIZE_ALIGNED
  const NULL := -1  // RT_NULL

  /** Block list, `lfree`, `used_mem`, `max_mem`. */
  datatype Heap = Heap(chain: seq<Block>, lfree: nat, used: int, maxMem: int)

  /** `lfree` is the first block of a free one, or `heap_end`. */
  ghost predicate FreeOrEnd(c: seq<Block>, lfree: nat, end: nat) {
    lfree == end || lfree in FreeStarts(c)
  }

  /** What every operation keeps. */
  ghost predicate Inv(s: Heap, h: nat, end: nat) {
    Canonical(s.chain, h, end) && FreeOrEnd(s.chain, s.lfree, end) && s.used == UsedBytes(s.chain) <= s.maxMem
  }

  /** No free block lies below `lfree`. */
  ghost predicate Lowest(s: Heap) {
    forall b :: b in s.chain && !b.used ==> s.lfree <= b.start
  }

  function Init(h: nat, mem: nat): Heap {
    Heap([Block(0, mem + h, false)], 0, 0, 0)
  }

  /** The data size a request is served with, after the checks that refuse it outright. */
  function RequestSize(request: nat): nat {
    if AlignUp(request) < MIN then MIN else AlignUp(request)
  }

  /** The size served covers the request exactly when rounding it up does not pass 2^32. */
  lemma RequestCovers(request: nat)
    requires request < WORD
    ensures request <= RequestSize(request) <==> request <= WORD - ALIGN
    ensures AlignUp(request) == 0 <==> request == 0 || WORD - ALIGN < request
    ensures WORD - ALIGN < request ==> RequestSize(request) == MIN
  {
    AlignCovers(request);
  }

  predicate Refused(request: nat, mem: nat) {
    request == 0 || AlignUp(request) > mem
  }

  /** Can free block `b` serve `size` bytes? The first conjunct is the bound of the search loop. */
  predicate Fits(b: Block, h: nat, mem: nat, size: nat) {
    b.start < mem - size && !b.used && Size(b, h) >= size
  }

  /** First block from `lfree` on that fits; `|c|` when there is none. */
  function FirstFit(c: seq<Block>, lfree: nat, h: nat, mem: nat, size: nat): (i: nat)
    ensures i <= |c| && (i < |c| ==> Fits(c[i], h, mem, size) && lfree <= c[i].start)
    ensures forall j :: 0 <= j < i ==> c[j].start < lfree || !Fits(c[j], h, mem, size)
  {
    if c == [] || (lfree <= c[0].start && Fits(c[0], h, mem, size)) then 0
    else 1 + FirstFit(c[1..], lfree, h, mem, size)
  }

  /** Start of the first free block at or behind `p`, or `end`. */
  function NextFree(c: seq<Block>, p: nat, end: nat): nat {
    if c == [] then end
    else if p <= c[0].start && !c[0].used then c[0].start
    else NextFree(c[1..], p, end)
  }

  lemma {:induction false} FirstFitUnique(c: seq<Block>, lfree: nat, h: nat, mem: nat, size: nat, i: nat)
    requires i <= |c| && (i < |c| ==> lfree <= c[i].start && Fits(c[i], h, mem, size))
    requires forall j :: 0 <= j < i ==> c[j].start < lfree || !Fits(c[j], h, mem, size)
    ensures i == FirstFit(c, lfree, h, mem, size)
  {
  }

  lemma {:induction false} NextFreeUnique(c: seq<Block>, p: nat, end: nat, j: nat)
    requires j <= |c| && (j < |c| ==> p <= c[j].start && !c[j].used)
    requires forall k :: 0 <= k < j ==> c[k].start < p || c[k].used
    ensures NextFree(c, p, end) == if j < |c| then c[j].start else end
  {
    if 0 < j {
      NextFreeUnique(c[1..], p, end, j - 1);
    }
  }

  /** `rt_malloc`. */
  function Malloc(s: Heap, h: nat, mem: nat, request: nat): (Heap, int) {
    var size := RequestSize(request);
    var i := FirstFit(s.chain, s.lfree, h, mem, size);
    if Refused(request, mem) || i == |s.chain| then (s, NULL)
    else
      var p := s.chain[i].start;
      var c := AllocAt(s.chain, i, h, MIN, size);
      var used := s.used + (if Size(s.chain[i], h) >= size + h + MIN then size + h else s.chain[i].next - p);
      (Heap(c, if p == s.lfree then NextFree(c, p, mem + h) else s.lfree, used, Max(s.maxMem, used)), p + h)
  }

  /** What a successful allocation does, spelled out for the block that was found. */
  lemma MallocShape(s: Heap, h: nat, mem: nat, request: nat, i: nat)
    requires !Refused(request, mem) && i == FirstFit(s.chain, s.lfree, h, mem, RequestSize(request)) && i < |s.chain|
    ensures var size, b := RequestSize(request), s.chain[i]; var mid := AllocMid(b, h, MIN, size);
            var (t, r) := Malloc(s, h, mem, request);
            && r == b.start + h && t.chain == Splice(s.chain, i, i + 1, mid) && t.maxMem == Max(s.maxMem, t.used)
            && i < |t.chain| && t.chain[i].start == b.start
            && t.lfree == (if b.start == s.lfree then NextFree(t.chain, b.start, mem + h) else s.lfree)
            && (if Size(b, h) >= size + h + MIN
                then t.used == s.used + (size + h) &&
                     mid == [Block(b.start, b.start + h + size, true), Block(b.start + h + size, b.next, false)]
                else t.used == s.used + (b.next - b.start) && mid == [b.(used := true)])
  {
    hide AllocAt, Splice, RequestSize, NextFree;
    AllocAtSplice(s.chain, i, h, MIN, RequestSize(request));
  }

  /** Is `ptr` the data address of a block in use? */
  predicate Live(s: Heap, h: nat, ptr: int) {
    var i := IndexOf(s.chain, ptr - h);
    i < |s.chain| && s.chain[i].used
  }

  /** `lfree` after block `i` was released and coalesced. */
  function FreedLow(c: seq<Block>, lfree: nat, i: nat): nat
    requires i < |c|
  {
    var p := c[i].start;
    var l0 := if p < lfree then p else lfree;
    var l1 := if i + 1 < |c| && !c[i + 1].used && l0 == c[i + 1].start then p else l0;
    if 0 < i && !c[i - 1].used && l1 == p then c[i - 1].start else l1
  }

  /** `rt_free` of a block in use. */
  function Free(s: Heap, h: nat, ptr: int): Heap
    requires Live(s, h, ptr)
  {
    var i := IndexOf(s.chain, ptr - h);
    s.(chain := FreeAt(s.chain, i), lfree := FreedLow(s.chain, s.lfree, i),
       used := s.used - (s.chain[i].next - s.chain[i].start))
  }

  /** What a release does, spelled out. */
  lemma FreeShape(s: Heap, h: nat, ptr: int, i: nat)
    requires Live(s, h, ptr) && i == IndexOf(s.chain, ptr - h)
    ensures i < |s.chain| && s.chain[i].start == ptr - h && s.chain[i].used
    ensures var c, t := s.chain, Free(s, h, ptr); var lo, hi := FreeLo(c, i), FreeHi(c, i);
            && t.chain == Splice(c, lo, hi, [Block(c[lo].start, c[hi - 1].next, false)])
            && t.lfree == FreedLow(c, s.lfree, i) && t.used == s.used - (c[i].next - c[i].start) && t.maxMem == s.maxMem
  {
    hide FreeAt, Splice, FreedLow;
    FreeAtSplice(s.chain, i, FreeLo(s.chain, i), FreeHi(s.chain, i));
  }

  /** The shrink path of `rt_realloc`: cut used block `i` down to `size` data bytes. */
  function Shrink(s: Heap, h: nat, i: nat, size: nat): Heap
    requires i < |s.chain|
  {
    var c := s.chain;
    s.(chain := ResizeAt(c, i, h, size),
       lfree := if i + 1 < |c| && !c[i + 1].used && s.lfree == c[i + 1].start then c[i].start + h + size else s.lfree,
       used := s.used - (Size(c[i], h) - size))
  }

  /** What a shrink does, spelled out. */
  lemma ShrinkShape(s: Heap, h: nat, i: nat, size: nat)
    requires i < |s.chain|
    ensures var c, t := s.chain, Shrink(s, h, i, size); var hi := FreeHi(c, i);
            && t.chain == Splice(c, i, hi, ResizeMid(c, i, h, size)) && Reach(c, i) == c[hi - 1].next
            && ResizeMid(c, i, h, size) ==
               [Block(c[i].start, c[i].start + h + size, true), Block(c[i].start + h + size, Reach(c, i), false)]
            && t.lfree == (if hi == i + 2 && s.lfree == c[i + 1].start then c[i].start + h + size else s.lfree)
            && t.used == s.used - (Size(c[i], h) - size) && t.maxMem == s.maxMem
  {
  }

  /** `rt_realloc` of a block in use. */
  function Realloc(s: Heap, h: nat, mem: nat, ptr: int, request: nat): (Heap, int)
    requires Live(s, h, ptr)
  {
    var size := AlignUp(request);
    var i := IndexOf(s.chain, ptr - h);
    var size0 := Size(s.chain[i], h);
    if size > mem then (s, NULL)
    else if size == 0 then (Free(s, h, ptr), NULL)
    else if size == size0 then (s, ptr)
    else if size + h + MIN < size0 then (Shrink(s, h, i, size), ptr)
    else
      var (t, r) := Malloc(s, h, mem, size);
      (if r != NULL && Live(t, h, ptr) then Free(t, h, ptr) else t, r)
  }

  // ---------------------------------------------------------------------------------
  // The invariant
  // ---------------------------------------------------------------------------------

  lemma InitInv(h: nat, mem: nat)
    requires 0 < h
    ensures Inv(Init(h, mem), h, mem + h) && Lowest(Init(h, mem))
  {
    var b := Block(0, mem + h, false);
    FreeStartsOne(b);
    SumOne(b, h);
  }

  /** A start of a free block names one. */
  lemma FreeStartIndex(c: seq<Block>, h: nat, end: nat, p: nat)
    requires 0 < h && Tiles(c, h, end) && p in FreeStarts(c)
    ensures var i := IndexOf(c, p); i < |c| && c[i].start == p && !c[i].used
  {
    var b :| b in c && !b.used && b.start == p;
    OnlyBlockAt(c, p, h, end);
  }

  lemma InvTiles(s: Heap, h: nat, end: nat)
    requires Inv(s, h, end)
    ensures 0 < h && Tiles(s.chain, h, end)
  {
  }

  lemma {:induction false} NextFreeIs(c: seq<Block>, p: nat, end: nat)
    ensures var q := NextFree(c, p, end); q == end || (q in FreeStarts(c) && p <= q)
  {
    if c != [] {
      NextFreeIs(c[1..], p, end);
      if !(p <= c[0].start && !c[0].used) {
        assert c == [c[0]] + c[1..];
        FreeStartsConcat([c[0]], c[1..]);
      }
    }
  }

  lemma MallocInv(s: Heap, h: nat, mem: nat, request: nat)
    requires Inv(s, h, mem + h)
    ensures Inv(Malloc(s, h, mem, request).0, h, mem + h)
  {
    hide AllocAt, Tiles, Coalesced, UsedBytes, FreeStarts, RequestSize, NextFree;
    var size := RequestSize(request);
    var i := FirstFit(s.chain, s.lfree, h, mem, size);
    if !Refused(request, mem) && i < |s.chain| {
      var c := AllocAt(s.chain, i, h, MIN, size);
      AllocCanonical(s.chain, i, h, MIN, size, mem + h);
      AllocSums(s.chain, i, h, MIN, size);
      AllocAtSplice(s.chain, i, h, MIN, size);
      NextFreeIs(c, s.chain[i].start, mem + h);
      if s.lfree != s.chain[i].start {
        AllocFreeStarts(s.chain, i, h, MIN, size, mem + h);
      }
    }
  }

  lemma FreedLowFree(c: seq<Block>, lfree: nat, i: nat, h: nat, end: nat)
    requires 0 < h && Tiles(c, h, end) && i < |c| && c[i].used && FreeOrEnd(c, lfree, end)
    ensures FreeOrEnd(FreeAt(c, i), FreedLow(c, lfree, i), end)
  {
    hide FreeAt, Tiles, FreeStarts;
    FreeFreeStarts(c, i, h, end);
    BlockBounds(c, h, end, i);
    if 0 < i {
      BlockBounds(c, h, end, i - 1);
    }
  }

  lemma FreeInv(s: Heap, h: nat, end: nat, ptr: int)
    requires Inv(s, h, end) && Live(s, h, ptr)
    ensures Inv(Free(s, h, ptr), h, end)
  {
    hide FreeAt, Tiles, Coalesced, UsedBytes, FreeStarts, FreedLow, FreeOrEnd;
    var i := IndexOf(s.chain, ptr - h);
    FreeCanonical(s.chain, i, h, end);
    FreeSums(s.chain, i, h, end);
    BlockBounds(s.chain, h, end, i);
    FreedLowFree(s.chain, s.lfree, i, h, end);
  }

  lemma ShrinkInv(s: Heap, h: nat, end: nat, i: nat, size: nat)
    requires Inv(s, h, end) && i < |s.chain| && s.chain[i].used && size + h <= Size(s.chain[i], h)
    ensures Inv(Shrink(s, h, i, size), h, end)
  {
    hide ResizeAt, Tiles, Coalesced, UsedBytes, FreeStarts;
    var c := s.chain;
    BlockBounds(c, h, end, i);
    if i + 1 < |c| {
      BlockBounds(c, h, end, i + 1);
    }
    ResizeCanonical(c, i, h, size, end);
    ResizeSums(c, i, h, size, end);
    ResizeFreeStarts(c, i, h, size, end);
  }

  // ---------------------------------------------------------------------------------
  // What the operations give
  // ---------------------------------------------------------------------------------

  ghost function Used(s: Heap): set<Block> {
    UsedSet(s.chain)
  }

  /** The block whose data begins at `ptr`. */
  function BlockOf(s: Heap, h: nat, ptr: int): Block {
    var i := IndexOf(s.chain, ptr - h);
    if i < |s.chain| then s.chain[i] else Block(0, 0, true)
  }

  lemma LiveBlock(s: Heap, h: nat, end: nat, ptr: int)
    requires Inv(s, h, end)
    ensures Live(s, h, ptr) <==> exists b :: b in Used(s) && b.start + h == ptr
    ensures Live(s, h, ptr) ==> BlockOf(s, h, ptr) in Used(s) && BlockOf(s, h, ptr).start + h == ptr
    ensures forall b :: b in Used(s) && b.start + h == ptr ==> b == BlockOf(s, h, ptr)
  {
    if b :| b in Used(s) && b.start + h == ptr {
      OnlyBlockAt(s.chain, b.start, h, end);
    }
  }

  /**
   A successful allocation adds one new block in use, large enough and not much too large, unless
   rounding the request passes 2^32; then the block has the smallest size.
   */
  lemma MallocGives(s: Heap, h: nat, mem: nat, request: nat)
    requires Inv(s, h, mem + h)
    ensures var (t, r) := Malloc(s, h, mem, request); var b, size := BlockOf(t, h, r), RequestSize(request);
            if r == NULL then t == s
            else && Used(t) == Used(s) + {b} && b !in Used(s) && b.start + h == r && Live(t, h, r)
                 && size <= Size(b, h) < size + h + MIN
                 && (request <= WORD - ALIGN ==> request <= Size(b, h))
                 && (WORD - ALIGN < request < WORD ==> Size(b, h) < MIN + h + MIN)
  {
    hide AllocAt, Tiles, Coalesced, UsedBytes, FreeStarts, RequestSize, NextFree, UsedSet, Splice, Refused, FreeOrEnd;
    var size := RequestSize(request);
    if request < WORD {
      RequestCovers(request);
    }
    var i := FirstFit(s.chain, s.lfree, h, mem, size);
    if !Refused(request, mem) && i < |s.chain| {
      var d := AllocAt(s.chain, i, h, MIN, size);
      AllocCanonical(s.chain, i, h, MIN, size, mem + h);
      AllocUsed(s.chain, i, h, MIN, size, mem + h);
      AllocAtSplice(s.chain, i, h, MIN, size);
      StartsDistinct(d, h, mem + h, i, IndexOf(d, s.chain[i].start));
    }
  }

  lemma FreeGives(s: Heap, h: nat, end: nat, ptr: int)
    requires Inv(s, h, end) && Live(s, h, ptr)
    ensures Used(Free(s, h, ptr)) == Used(s) - {BlockOf(s, h, ptr)}
  {
    hide FreeAt, Coalesced, UsedBytes, FreeStarts, UsedSet, FreeOrEnd;
    FreeUsed(s.chain, IndexOf(s.chain, ptr - h), h, end);
  }

  /**
   When the search can fail: no free block from `lfree` on has the room, apart from a block
   that ends the heap and fits exactly, which the strict bound of the loop passes over.
   */
  lemma MallocFails(s: Heap, h: nat, mem: nat, request: nat)
    requires Inv(s, h, mem + h)
    ensures var size := RequestSize(request);
            Malloc(s, h, mem, request).1 == NULL
            <==> Refused(request, mem) ||
                 forall b :: b in s.chain && !b.used && s.lfree <= b.start && size <= Size(b, h) ==>
                   b.next == mem + h && Size(b, h) == size
  {
    hide AllocAt, Coalesced, Tiles, UsedBytes, RequestSize, NextFree, Refused, FreeOrEnd;
    var size := RequestSize(request);
    var i := FirstFit(s.chain, s.lfree, h, mem, size);
    forall b | b in s.chain && !b.used && size <= Size(b, h)
      ensures b.start < mem - size <==> !(b.next == mem + h && Size(b, h) == size)
    {
      var m :| 0 <= m < |s.chain| && s.chain[m] == b;
      BlockBounds(s.chain, h, mem + h, m);
    }
    if i < |s.chain| {
      assert s.chain[i] in s.chain;
    }
  }

  /** As long as `lfree` is lowest, allocation fails only when nothing fits, with that exception. */
  lemma MallocFailsOnlyWhenFull(s: Heap, h: nat, mem: nat, request: nat)
    requires Inv(s, h, mem + h) && Lowest(s) && !Refused(request, mem)
    ensures var size := RequestSize(request);
            Malloc(s, h, mem, request).1 == NULL
            <==> forall b :: b in s.chain && !b.used && size <= Size(b, h) ==> b.next == mem + h && Size(b, h) == size
  {
    hide Malloc, Inv, RequestSize;
    MallocFails(s, h, mem, request);
  }

  // ---------------------------------------------------------------------------------
  // `lfree` and the lowest free block
  // ---------------------------------------------------------------------------------

  /** `Lowest` in terms of the starts of free blocks. */
  lemma LowestStarts(c: seq<Block>, l: nat)
    ensures (forall b :: b in c && !b.used ==> l <= b.start) <==> (forall p :: p in FreeStarts(c) ==> l <= p)
  {
    if forall p :: p in FreeStarts(c) ==> l <= p {
      forall b | b in c && !b.used ensures l <= b.start {
        assert b.start in FreeStarts(c);
      }
    }
  }

  lemma {:induction false} NextFreeLowest(c: seq<Block>, p: nat, end: nat)
    requires forall i, j :: 0 <= i < j < |c| ==> c[i].start <= c[j].start
    requires forall i :: 0 <= i < |c| ==> c[i].start <= end
    ensures forall b :: b in c && !b.used && p <= b.start ==> NextFree(c, p, end) <= b.start
  {
    if c != [] {
      NextFreeLowest(c[1..], p, end);
      forall b | b in c && !b.used && p <= b.start ensures NextFree(c, p, end) <= b.start {
        if b !in c[1..] {
          assert b == c[0];
        }
      }
    }
  }

  lemma StartsSorted(c: seq<Block>, h: nat, end: nat)
    requires Tiles(c, h, end)
    ensures forall i, j :: 0 <= i < j < |c| ==> c[i].start <= c[j].start
    ensures forall i :: 0 <= i < |c| ==> c[i].start <= end
  {
    TilesOrdered(c, h, end);
  }

  /** Allocation keeps `lfree` lowest. */
  lemma MallocLowest(s: Heap, h: nat, mem: nat, request: nat)
    requires Inv(s, h, mem + h) && Lowest(s)
    ensures Lowest(Malloc(s, h, mem, request).0)
  {
    hide AllocAt, Tiles, Coalesced, UsedBytes, FreeStarts, RequestSize, NextFree, Refused, FreeOrEnd;
    var size := RequestSize(request);
    var i := FirstFit(s.chain, s.lfree, h, mem, size);
    if !Refused(request, mem) && i < |s.chain| {
      var c := AllocAt(s.chain, i, h, MIN, size);
      AllocCanonical(s.chain, i, h, MIN, size, mem + h);
      AllocFreeStarts(s.chain, i, h, MIN, size, mem + h);
      LowestStarts(s.chain, s.lfree);
      LowestStarts(c, s.lfree);
      StartsSorted(c, h, mem + h);
      NextFreeLowest(c, s.chain[i].start, mem + h);
    }
  }

  /** Release keeps `lfree` lowest. */
  lemma FreeLowest(s: Heap, h: nat, end: nat, ptr: int)
    requires Inv(s, h, end) && Lowest(s) && Live(s, h, ptr)
    ensures Lowest(Free(s, h, ptr))
  {
    hide FreeAt, Tiles, Coalesced, UsedBytes, FreeStarts, FreeOrEnd;
    var c, i := s.chain, IndexOf(s.chain, ptr - h);
    FreeFreeStarts(c, i, h, end);
    LowestStarts(c, s.lfree);
    LowestStarts(FreeAt(c, i), FreedLow(c, s.lfree, i));
    BlockBounds(c, h, end, i);
    if 0 < i {
      BlockBounds(c, h, end, i - 1);
      assert c[i - 1] in c;
    }
  }

  /**
   The shrink path of reallocation does not lower `lfree`. It stays lowest exactly when a
   free block lies below the shrunk one already, or when `lfree` is the free right
   neighbour that the cut-off part joins.
   */
  lemma ShrinkLowest(s: Heap, h: nat, end: nat, i: nat, size: nat)
    requires Inv(s, h, end) && Lowest(s) && i < |s.chain| && s.chain[i].used && size + h <= Size(s.chain[i], h)
    ensures Lowest(Shrink(s, h, i, size))
            <==> s.lfree < s.chain[i].start ||
                 (i + 1 < |s.chain| && !s.chain[i + 1].used && s.lfree == s.chain[i + 1].start)
  {
    hide ResizeAt, Coalesced, UsedBytes, FreeStarts, Tiles;
    var c := s.chain;
    var t, n := Shrink(s, h, i, size), c[i].start + h + size;
    ResizeFreeStarts(c, i, h, size, end);
    LowestStarts(c, s.lfree);
    LowestStarts(t.chain, t.lfree);
    BlockBounds(c, h, end, i);
    assert n in FreeStarts(t.chain);
    if s.lfree != end {
      StartOutside(c, h, end, i, s.lfree);
    }
  }

  lemma StartOutside(c: seq<Block>, h: nat, end: nat, i: nat, p: nat)
    requires 0 < h && Tiles(c, h, end) && i < |c| && c[i].used && p in FreeStarts(c)
    ensures p < c[i].start || c[i].next <= p
  {
    hide FreeStarts;
    FreeStartIndex(c, h, end, p);
    TilesOrdered(c, h, end);
  }

  /** After such a shrink free memory can be out of reach: a request that fits is refused. */
  lemma ShrinkHidesMemory()
    ensures var s := Heap([Block(0, 112, true)], 112, 112, 112); var t := Shrink(s, 12, 0, 12);
            && Inv(s, 12, 112) && Lowest(s) && Inv(t, 12, 112) && !Lowest(t)
            && t.chain == [Block(0, 24, true), Block(24, 112, false)]
            && Malloc(t, 12, 100, 12).1 == NULL
  {
    var s := Heap([Block(0, 112, true)], 112, 112, 112);
    var t := Shrink(s, 12, 0, 12);
    SumOne(s.chain[0], 12);
    FreeStartsOne(s.chain[0]);
    ShrinkInv(s, 12, 112, 0, 12);
    assert t.chain == [Block(0, 24, true), Block(24, 112, false)];
    assert t.chain[1] in t.chain;
    MallocFails(t, 12, 100, 12);
  }

  // ---------------------------------------------------------------------------------
  // Round trips
  // ---------------------------------------------------------------------------------

  /** Freeing the block just allocated restores the block list, `lfree` and `used_mem`. */
  lemma MallocFreeRoundTrip(s: Heap, h: nat, mem: nat, request: nat)
    requires Inv(s, h, mem + h)
    ensures var (t, r) := Malloc(s, h, mem, request);
            r != NULL ==> Live(t, h, r) && Free(t, h, r) == s.(maxMem := t.maxMem)
  {
    hide AllocAt, FreeAt, Tiles, UsedBytes, FreeStarts, RequestSize, NextFree, Refused, FreeOrEnd, FreedLow;
    var (t, r) := Malloc(s, h, mem, request);
    var size := RequestSize(request);
    var i := FirstFit(s.chain, s.lfree, h, mem, size);
    MallocGives(s, h, mem, request);
    if r != NULL {
      var c := s.chain;
      AllocThenFree(c, i, h, MIN, size, mem + h);
      MallocInv(s, h, mem, request);
      AllocAtSplice(c, i, h, MIN, size);
      StartsDistinct(t.chain, h, mem + h, i, IndexOf(t.chain, c[i].start));
      RoundTripLow(s, h, mem, i, size);
    }
  }

  lemma RoundTripLow(s: Heap, h: nat, mem: nat, i: nat, size: nat)
    requires Inv(s, h, mem + h) && i < |s.chain| && !s.chain[i].used && s.lfree <= s.chain[i].start
    requires size <= Size(s.chain[i], h)
    ensures var c, p := AllocAt(s.chain, i, h, MIN, size), s.chain[i].start;
            i < |c| && FreedLow(c, if p == s.lfree then NextFree(c, p, mem + h) else s.lfree, i) == s.lfree
  {
    hide AllocAt, UsedBytes, NextFree, Splice;
    var c, p := AllocAt(s.chain, i, h, MIN, size), s.chain[i].start;
    AllocCanonical(s.chain, i, h, MIN, size, mem + h);
    AllocAtSplice(s.chain, i, h, MIN, size);
    assert c[i].used && c[i].start == p;
    NextFreeIs(c, p, mem + h);
    BlockBounds(c, h, mem + h, i);
    AllocLeft(s.chain, i, h, MIN, size);
    if p == s.lfree && NextFree(c, p, mem + h) != mem + h {
      FreeStartIndex(c, h, mem + h, NextFree(c, p, mem + h));
      if NextFree(c, p, mem + h) == p {
        StartsDistinct(c, h, mem + h, i, IndexOf(c, p));
      }
    }
  }

  /** The left neighbour of a block just taken is in use. */
  lemma AllocLeft(c: seq<Block>, i: nat, h: nat, min: nat, size: nat)
    requires Coalesced(c) && 0 <= i < |c| && !c[i].used
    ensures 0 < i ==> i - 1 < |AllocAt(c, i, h, min, size)| && AllocAt(c, i, h, min, size)[i - 1].used
  {
    if 0 < i {
      assert c[i - 1].used;
    }
  }

  function FreeMany(s: Heap, h: nat, ptrs: seq<int>): Heap
    decreases |ptrs|
  {
    if ptrs == [] then s
    else FreeMany(if Live(s, h, ptrs[0]) then Free(s, h, ptrs[0]) else s, h, ptrs[1..])
  }

  /** A release leaves `lfree` at a block. */
  lemma FreeNotEnd(s: Heap, h: nat, end: nat, ptr: int)
    requires Inv(s, h, end) && Live(s, h, ptr)
    ensures Free(s, h, ptr).lfree < end
  {
    hide FreeAt, Coalesced, UsedBytes, FreeStarts, Tiles;
    var i := IndexOf(s.chain, ptr - h);
    BlockBounds(s.chain, h, end, i);
    if 0 < i {
      BlockBounds(s.chain, h, end, i - 1);
    }
  }

  /**
   Freeing every live block, in any order, leaves one free block and nothing in use. `lfree` points
   to that block, unless there was nothing to free and it was at the end before.
   */
  lemma {:induction false} FreeEverything(s: Heap, h: nat, end: nat, ptrs: seq<int>)
    requires Inv(s, h, end)
    requires forall b :: b in Used(s) ==> b.start + h in ptrs
    ensures var low := if Used(s) == {} && s.lfree == end then end else 0;
            FreeMany(s, h, ptrs) == Heap([Block(0, end, false)], low, 0, s.maxMem)
    decreases |ptrs|
  {
    hide Live, Free;
    if ptrs == [] {
      assert Used(s) == {};
      AllFreeIsOneBlock(s.chain, h, end);
      SumOne(s.chain[0], h);
      FreeStartsOne(s.chain[0]);
      assert s.chain == [s.chain[0]];
    } else {
      var p := ptrs[0];
      var t := if Live(s, h, p) then Free(s, h, p) else s;
      LiveBlock(s, h, end, p);
      if Live(s, h, p) {
        FreeInv(s, h, end, p);
        FreeNotEnd(s, h, end, p);
        FreeGives(s, h, end, p);
        FreeMaxMem(s, h, p);
      }
      FreeEverything(t, h, end, ptrs[1..]);
    }
  }

  lemma FreeMaxMem(s: Heap, h: nat, ptr: int)
    requires Live(s, h, ptr)
    ensures Free(s, h, ptr).maxMem == s.maxMem
  {
  }

  // ---------------------------------------------------------------------------------
  // Reallocation and whole runs
  // ---------------------------------------------------------------------------------

  lemma ReallocInv(s: Heap, h: nat, mem: nat, ptr: int, request: nat)
    requires Inv(s, h, mem + h) && Live(s, h, ptr)
    ensures Inv(Realloc(s, h, mem, ptr, request).0, h, mem + h)
  {
    hide Inv, Malloc, Free, Shrink, AlignUp;
    var size, i := AlignUp(request), IndexOf(s.chain, ptr - h);
    if size + h + MIN < Size(s.chain[i], h) {
      ShrinkInv(s, h, mem + h, i, size);
    }
    FreeInv(s, h, mem + h, ptr);
    MallocInv(s, h, mem, size);
    var (t, r) := Malloc(s, h, mem, size);
    if r != NULL && Live(t, h, ptr) {
      FreeInv(t, h, mem + h, ptr);
    }
  }

  lemma ShrinkGives(s: Heap, h: nat, end: nat, i: nat, size: nat)
    requires Inv(s, h, end) && i < |s.chain| && s.chain[i].used
    ensures var b := Block(s.chain[i].start, s.chain[i].start + h + size, true);
            Used(Shrink(s, h, i, size)) == Used(s) - {s.chain[i]} + {b}
  {
    hide ResizeAt, Coalesced, UsedBytes, FreeStarts, UsedSet, FreeOrEnd;
    ResizeUsed(s.chain, i, h, size, end);
  }

  /** Moving a block: old and new one are both in use after the allocation, and apart. */
  lemma MoveFacts(s: Heap, h: nat, mem: nat, ptr: int, size: nat)
    requires Inv(s, h, mem + h) && Live(s, h, ptr) && Malloc(s, h, mem, size).1 != NULL
    ensures var (t, r) := Malloc(s, h, mem, size); var b, nb := BlockOf(s, h, ptr), BlockOf(t, h, r);
            && Used(t) == Used(s) + {nb} && nb !in Used(s) && b in Used(s)
            && b.start + h == ptr && nb.start + h == r && RequestSize(size) <= Size(nb, h)
            && Apart(Used(t)) && b.start + h <= b.next <= mem + h && nb.next <= mem + h
            && Live(t, h, ptr) && Used(Free(t, h, ptr)) == Used(s) - {b} + {nb}
            && Inv(Free(t, h, ptr), h, mem + h) && BlockOf(Free(t, h, ptr), h, r) == nb
  {
    hide Inv, Malloc, Free, RequestSize, Live, BlockOf, UsedSet, Apart, IndexOf;
    var (t, r) := Malloc(s, h, mem, size);
    MallocInv(s, h, mem, size);
    MallocGives(s, h, mem, size);
    LiveBlock(s, h, mem + h, ptr);
    LiveBlock(t, h, mem + h, ptr);
    FreeInv(t, h, mem + h, ptr);
    FreeGives(t, h, mem + h, ptr);
    LiveBlock(Free(t, h, ptr), h, mem + h, r);
    InvApart(t, h, mem + h);
  }

  lemma InvApart(s: Heap, h: nat, end: nat)
    requires Inv(s, h, end)
    ensures Apart(Used(s)) && forall b :: b in Used(s) ==> b.start + h <= b.next <= end
  {
    hide Apart, UsedSet, FreeStarts;
    UsedApart(s.chain, h, end);
  }

  /** A reallocation exchanges one block for one that is large enough; a failed one changes nothing. */
  ghost predicate Exchanged(s: Heap, h: nat, ptr: int, request: nat, t: Heap, r: int) {
    var b := BlockOf(t, h, r);
    if r == NULL then t == s
    else Used(t) == Used(s) - {BlockOf(s, h, ptr)} + {b} && b.start + h == r && AlignUp(request) <= Size(b, h)
  }

  /** It does so exactly unless the size rounds to zero; then the block is freed. */
  lemma ReallocGives(s: Heap, h: nat, mem: nat, ptr: int, request: nat)
    requires Inv(s, h, mem + h) && Live(s, h, ptr)
    ensures var (t, r) := Realloc(s, h, mem, ptr, request);
            && (Exchanged(s, h, ptr, request, t, r) <==> AlignUp(request) != 0)
            && (AlignUp(request) == 0 ==>
               r == NULL && Used(t) == Used(s) - {BlockOf(s, h, ptr)} && BlockOf(s, h, ptr) in Used(s))
  {
    hide Inv, Malloc, Free, Shrink, Used, Live, BlockOf, IndexOf, AlignUp;
    if AlignUp(request) == 0 {
      FreeGives(s, h, mem + h, ptr);
      LiveBlock(s, h, mem + h, ptr);
    } else {
      ReallocExchanges(s, h, mem, ptr, request);
    }
  }

  /** The smallest request above zero that rounds to zero frees the caller's block. */
  lemma ReallocFreesHuge(s: Heap, h: nat, mem: nat, ptr: int)
    requires Inv(s, h, mem + h) && Live(s, h, ptr)
    ensures Realloc(s, h, mem, ptr, 0xffff_fffd) == (Free(s, h, ptr), NULL)
    ensures Used(Free(s, h, ptr)) == Used(s) - {BlockOf(s, h, ptr)} && BlockOf(s, h, ptr) in Used(s)
  {
    hide Inv, Malloc, Free, Shrink, Used, Live, BlockOf, IndexOf;
    FreeGives(s, h, mem + h, ptr);
    LiveBlock(s, h, mem + h, ptr);
  }

  lemma ReallocExchanges(s: Heap, h: nat, mem: nat, ptr: int, request: nat)
    requires Inv(s, h, mem + h) && Live(s, h, ptr) && AlignUp(request) != 0
    ensures var (t, r) := Realloc(s, h, mem, ptr, request); Exchanged(s, h, ptr, request, t, r)
  {
    hide Inv, Malloc, Free, Shrink, Used, Live, BlockOf, IndexOf, AlignUp, RequestSize;
    var size, i := AlignUp(request), IndexOf(s.chain, ptr - h);
    LiveIndex(s, h, ptr);
    LiveInside(s, h, mem + h, ptr);
    LiveBlock(s, h, mem + h, ptr);
    AlignStable(request);
    if size + h + MIN < Size(s.chain[i], h) {
      ShrinkGives(s, h, mem + h, i, size);
      ShrinkInv(s, h, mem + h, i, size);
      LiveBlock(Shrink(s, h, i, size), h, mem + h, ptr);
    } else if Malloc(s, h, mem, size).1 != NULL {
      MoveFacts(s, h, mem, ptr, size);
    } else {
      MallocGives(s, h, mem, size);
    }
  }

  /** Every free block from `lfree` on that could hold `size` bytes is an exact fit at the end of the heap. */
  ghost predicate NoneFits(s: Heap, h: nat, mem: nat, size: nat) {
    forall b :: b in s.chain && !b.used && s.lfree <= b.start && size <= Size(b, h) ==>
      b.next == mem + h && Size(b, h) == size
  }

  /** When a reallocation fails, when the block stays where it is, and how large it is then. */
  lemma ReallocAnswers(s: Heap, h: nat, mem: nat, ptr: int, request: nat)
    requires Inv(s, h, mem + h) && Live(s, h, ptr)
    ensures var (t, r) := Realloc(s, h, mem, ptr, request); var size, b := AlignUp(request), BlockOf(s, h, ptr);
            var stays := size == Size(b, h) || size + h + MIN < Size(b, h);
            && (r == NULL <==> size == 0 || mem < size || (!stays && NoneFits(s, h, mem, RequestSize(size))))
            && (r == ptr <==> 0 < size <= mem && stays)
            && (r == ptr ==> BlockOf(t, h, ptr).start == b.start && Size(BlockOf(t, h, ptr), h) == size)
            && (r != NULL && r != ptr ==>
                  RequestSize(size) <= Size(BlockOf(t, h, r), h) < RequestSize(size) + h + MIN)
  {
    hide Inv, Malloc, Free, Shrink, Used, Live, BlockOf, IndexOf, AlignUp, RequestSize, NoneFits;
    var size, i := AlignUp(request), IndexOf(s.chain, ptr - h);
    LiveIndex(s, h, ptr);
    LiveInside(s, h, mem + h, ptr);
    AlignStable(request);
    if 0 < size <= mem && size != Size(s.chain[i], h) {
      if size + h + MIN < Size(s.chain[i], h) {
        ShrunkBlock(s, h, mem + h, ptr, size);
      } else {
        MoveAnswers(s, h, mem, ptr, size);
      }
    }
  }

  lemma ShrunkBlock(s: Heap, h: nat, end: nat, ptr: int, size: nat)
    requires Inv(s, h, end) && Live(s, h, ptr) && size + h + MIN < Size(BlockOf(s, h, ptr), h)
    ensures var b := BlockOf(Shrink(s, h, IndexOf(s.chain, ptr - h), size), h, ptr);
            b.start == ptr - h && Size(b, h) == size
  {
    hide Inv, Shrink, Used, IndexOf;
    var i := IndexOf(s.chain, ptr - h);
    LiveIndex(s, h, ptr);
    ShrinkGives(s, h, end, i, size);
    ShrinkInv(s, h, end, i, size);
    var t, b := Shrink(s, h, i, size), Block(s.chain[i].start, s.chain[i].start + h + size, true);
    assert b in Used(t);
    LiveBlock(t, h, end, ptr);
  }

  lemma MoveAnswers(s: Heap, h: nat, mem: nat, ptr: int, size: nat)
    requires Inv(s, h, mem + h) && Live(s, h, ptr) && 0 < size <= mem && AlignUp(size) == size
    ensures var (t, r) := Malloc(s, h, mem, size);
            && (r == NULL <==> NoneFits(s, h, mem, RequestSize(size))) && r != ptr
            && (r != NULL ==>
                  && Live(t, h, ptr)
                  && RequestSize(size) <= Size(BlockOf(Free(t, h, ptr), h, r), h) < RequestSize(size) + h + MIN)
  {
    hide Inv, Malloc, Free, RequestSize, Used, Live, BlockOf, AlignUp;
    MallocFails(s, h, mem, size);
    MallocGives(s, h, mem, size);
    LiveInside(s, h, mem + h, ptr);
    LiveBlock(s, h, mem + h, ptr);
    if Malloc(s, h, mem, size).1 != NULL {
      MoveFacts(s, h, mem, ptr, size);
    }
  }

  /** A block is given at the lowest address from `lfree` on at which one fits, within the bound of the search. */
  lemma MallocPlace(s: Heap, h: nat, mem: nat, request: nat)
    requires Inv(s, h, mem + h) && Malloc(s, h, mem, request).1 != NULL
    ensures var p, size := Malloc(s, h, mem, request).1 - h, RequestSize(request);
            && (exists b :: b in s.chain && b.start == p && s.lfree <= p && Fits(b, h, mem, size))
            && (forall b :: b in s.chain && s.lfree <= b.start && Fits(b, h, mem, size) ==> p <= b.start)
  {
    hide RequestSize, AllocAt, NextFree, UsedBytes, Coalesced, FreeStarts, Refused, Fits;
    var size := RequestSize(request);
    var i := FirstFit(s.chain, s.lfree, h, mem, size);
    assert s.chain[i] in s.chain;
    TilesOrdered(s.chain, h, mem + h);
    forall b | b in s.chain && s.lfree <= b.start && Fits(b, h, mem, size) ensures s.chain[i].start <= b.start {
      var j :| 0 <= j < |s.chain| && s.chain[j] == b;
    }
  }

  /** After an allocation `lfree` is the lowest free block at or behind where it was, or `heap_end`. */
  lemma MallocLow(s: Heap, h: nat, mem: nat, request: nat)
    requires Inv(s, h, mem + h)
    ensures var t := Malloc(s, h, mem, request).0;
            && s.lfree <= t.lfree && FreeOrEnd(t.chain, t.lfree, mem + h)
            && forall b :: b in t.chain && !b.used && s.lfree <= b.start ==> t.lfree <= b.start
  {
    hide RequestSize, AllocAt, NextFree, UsedBytes, FreeStarts, Refused, Tiles, Coalesced;
    MallocInv(s, h, mem, request);
    var (t, r) := Malloc(s, h, mem, request);
    if r != NULL {
      var i := FirstFit(s.chain, s.lfree, h, mem, RequestSize(request));
      if s.chain[i].start == s.lfree {
        InvTiles(t, h, mem + h);
        NextFreeFirst(t.chain, s.lfree, h, mem + h);
      }
    }
  }

  lemma NextFreeFirst(c: seq<Block>, p: nat, h: nat, end: nat)
    requires Tiles(c, h, end) && p <= end
    ensures p <= NextFree(c, p, end)
    ensures forall b :: b in c && !b.used && p <= b.start ==> NextFree(c, p, end) <= b.start
  {
    hide Tiles, NextFree, FreeStarts;
    StartsSorted(c, h, end);
    NextFreeLowest(c, p, end);
    NextFreeIs(c, p, end);
  }

  /** After a release `lfree` is the start of the free block that holds the lower of it and the freed block. */
  lemma FreeLow(s: Heap, h: nat, end: nat, ptr: int)
    requires Inv(s, h, end) && Live(s, h, ptr)
    ensures var t := Free(s, h, ptr); var p := if ptr - h < s.lfree then ptr - h else s.lfree;
            exists b :: b in t.chain && !b.used && b.start == t.lfree && b.start <= p < b.next
  {
    hide Free, UsedBytes, Coalesced, FreeStarts, Splice, Tiles;
    var c, i, t := s.chain, IndexOf(s.chain, ptr - h), Free(s, h, ptr);
    var lo, hi := FreeLo(c, i), FreeHi(c, i);
    FreeShape(s, h, ptr, i);
    LiveInside(s, h, end, ptr);
    var b := Block(c[lo].start, c[hi - 1].next, false);
    InSplice(c, lo, hi, b);
    FreedSpan(c, h, end, i);
    if s.lfree < ptr - h {
      FreeStartIndex(c, h, end, s.lfree);
      var k := IndexOf(c, s.lfree);
      StartsBelow(c, h, end, k, i);
      BlockBounds(c, h, end, i);
      if k < lo {
        BlockBounds(c, h, end, k);
        assert c[k] in t.chain;
      }
    } else if s.lfree == ptr - h {
      if s.lfree == end {
        BlockBounds(c, h, end, i);
      } else {
        FreeStartIndex(c, h, end, s.lfree);
      }
    }
  }

  lemma InSplice(c: seq<Block>, lo: nat, hi: nat, b: Block)
    requires lo <= hi <= |c|
    ensures b in Splice(c, lo, hi, [b]) && forall k :: 0 <= k < lo ==> c[k] in Splice(c, lo, hi, [b])
  {
    var d := Splice(c, lo, hi, [b]);
    assert d[lo] == b;
    forall k | 0 <= k < lo ensures c[k] in d {
      assert d[k] == c[k];
    }
  }

  lemma FreedSpan(c: seq<Block>, h: nat, end: nat, i: nat)
    requires 0 < h && Tiles(c, h, end) && i < |c|
    ensures c[FreeLo(c, i)].start <= c[i].start < c[i].next <= c[FreeHi(c, i) - 1].next
  {
    TilesOrdered(c, h, end);
  }

  lemma StartsBelow(c: seq<Block>, h: nat, end: nat, k: nat, i: nat)
    requires 0 < h && Tiles(c, h, end) && k < |c| && i < |c| && c[k].start < c[i].start
    ensures k < i
  {
    TilesOrdered(c, h, end);
  }

  /** Rounding a rounded size changes nothing. */
  lemma AlignStable(request: nat)
    ensures AlignUp(AlignUp(request)) == AlignUp(request) <= RequestSize(AlignUp(request))
  {
    hide AlignUp;
    AlignTwice(request);
  }

  lemma LiveIndex(s: Heap, h: nat, ptr: int)
    requires Live(s, h, ptr)
    ensures var i := IndexOf(s.chain, ptr - h);
            i < |s.chain| && s.chain[i].used && BlockOf(s, h, ptr) == s.chain[i] && s.chain[i].start == ptr - h
  {
  }

  lemma LiveInside(s: Heap, h: nat, end: nat, ptr: int)
    requires Inv(s, h, end) && Live(s, h, ptr)
    ensures 0 < h <= ptr <= end
  {
    BlockBounds(s.chain, h, end, IndexOf(s.chain, ptr - h));
  }

  datatype Op = DoMalloc(size: nat) | DoFree(ptr: int) | DoRealloc(ptr: int, size: nat)

  /** One call. Freeing or reallocating an address that is not live is the caller's fault. */
  function Step(s: Heap, h: nat, mem: nat, op: Op): Heap {
    match op
    case DoMalloc(size) => Malloc(s, h, mem, size).0
    case DoFree(ptr) => if Live(s, h, ptr) then Free(s, h, ptr) else s
    case DoRealloc(ptr, size) =>
      if Live(s, h, ptr) then Realloc(s, h, mem, ptr, size).0
      else if ptr == NULL && 0 < AlignUp(size) <= mem then Malloc(s, h, mem, AlignUp(size)).0
      else s
  }

  function Run(s: Heap, h: nat, mem: nat, ops: seq<Op>): Heap {
    if ops == [] then s else Step(Run(s, h, mem, ops[..|ops| - 1]), h, mem, ops[|ops| - 1])
  }

  lemma StepInv(s: Heap, h: nat, mem: nat, op: Op)
    requires Inv(s, h, mem + h)
    ensures Inv(Step(s, h, mem, op), h, mem + h)
    ensures Lowest(s) && !op.DoRealloc? ==> Lowest(Step(s, h, mem, op))
  {
    hide Inv, Malloc, Free, Realloc, Live, AlignUp, Lowest;
    match op {
      case DoMalloc(size) =>
        MallocInv(s, h, mem, size);
        if Lowest(s) { MallocLowest(s, h, mem, size); }
      case DoFree(ptr) =>
        if Live(s, h, ptr) {
          FreeInv(s, h, mem + h, ptr);
          if Lowest(s) { FreeLowest(s, h, mem + h, ptr); }
        }
      case DoRealloc(ptr, size) =>
        MallocInv(s, h, mem, AlignUp(size));
        if Live(s, h, ptr) { ReallocInv(s, h, mem, ptr, size); }
    }
  }

  /** The most that is in use at any moment of a call: while a block moves, both its places are. */
  function Crest(s: Heap, h: nat, mem: nat, op: Op): int {
    if op.DoRealloc? && Live(s, h, op.ptr) && AlignUp(op.size) != 0 && Realloc(s, h, mem, op.ptr, op.size).1 != op.ptr
       && Realloc(s, h, mem, op.ptr, op.size).1 != NULL
    then Malloc(s, h, mem, AlignUp(op.size)).0.used
    else Step(s, h, mem, op).used
  }

  /** `max_mem` is the high-water mark: it rises exactly when a call uses more than ever before. */
  lemma HighWater(s: Heap, h: nat, mem: nat, op: Op)
    requires Inv(s, h, mem + h)
    ensures Step(s, h, mem, op).maxMem == Max(s.maxMem, Crest(s, h, mem, op))
  {
    hide Canonical, UsedBytes, FreeOrEnd, Malloc, Free, Live, AlignUp, IndexOf, Shrink;
    match op {
      case DoMalloc(size) => MallocWater(s, h, mem, size);
      case DoFree(ptr) => if Live(s, h, ptr) { FreeWater(s, h, mem + h, ptr); }
      case DoRealloc(ptr, size) =>
        MallocWater(s, h, mem, AlignUp(size));
        if Live(s, h, ptr) {
          FreeWater(s, h, mem + h, ptr);
          LiveIndex(s, h, ptr);
          LiveInside(s, h, mem + h, ptr);
          ShrinkWater(s, h, IndexOf(s.chain, ptr - h), AlignUp(size));
          AlignStable(size);
          if 0 < AlignUp(size) <= mem {
            MoveAnswers(s, h, mem, ptr, AlignUp(size));
            MallocInv(s, h, mem, AlignUp(size));
            var (t, r) := Malloc(s, h, mem, AlignUp(size));
            if r != NULL {
              FreeWater(t, h, mem + h, ptr);
            } else {
              MallocGives(s, h, mem, AlignUp(size));
            }
          }
        }
    }
  }

  lemma MallocWater(s: Heap, h: nat, mem: nat, request: nat)
    requires Inv(s, h, mem + h)
    ensures var t := Malloc(s, h, mem, request).0; t.maxMem == Max(s.maxMem, t.used)
  {
    hide Canonical, UsedBytes, FreeOrEnd, RequestSize, AllocAt, NextFree, FirstFit;
  }

  lemma FreeWater(s: Heap, h: nat, end: nat, ptr: int)
    requires Inv(s, h, end) && Live(s, h, ptr)
    ensures Free(s, h, ptr).maxMem == s.maxMem && Free(s, h, ptr).used <= s.used <= s.maxMem
  {
    hide UsedBytes, FreeOrEnd, FreeAt, FreedLow;
    BlockBounds(s.chain, h, end, IndexOf(s.chain, ptr - h));
  }

  lemma ShrinkWater(s: Heap, h: nat, i: nat, size: nat)
    requires i < |s.chain|
    ensures Shrink(s, h, i, size).maxMem == s.maxMem
    ensures size <= Size(s.chain[i], h) ==> Shrink(s, h, i, size).used <= s.used
  {
    hide ResizeAt;
  }

  /** The crest of call `k` of a run. */
  function CrestAt(s: Heap, h: nat, mem: nat, ops: seq<Op>, k: nat): int
    requires k < |ops|
  {
    Crest(Run(s, h, mem, ops[..k]), h, mem, ops[k])
  }

  lemma CrestBefore(s: Heap, h: nat, mem: nat, ops: seq<Op>, n: nat)
    requires n <= |ops|
    ensures forall k :: 0 <= k < n ==> CrestAt(s, h, mem, ops[..n], k) == CrestAt(s, h, mem, ops, k)
  {
    hide Crest, Run;
    forall k | 0 <= k < n ensures CrestAt(s, h, mem, ops[..n], k) == CrestAt(s, h, mem, ops, k) {
      assert ops[..n][..k] == ops[..k];
    }
  }

  /** Over a run: nothing went above the mark, and some moment reached it. */
  lemma {:induction false} RunHighWater(h: nat, mem: nat, ops: seq<Op>)
    requires 0 < h && MIN <= mem
    ensures var s0 := Init(h, mem); var m := Run(s0, h, mem, ops).maxMem;
            && (forall k :: 0 <= k < |ops| ==> CrestAt(s0, h, mem, ops, k) <= m)
            && (m == 0 || exists k :: 0 <= k < |ops| && m == CrestAt(s0, h, mem, ops, k))
  {
    hide Inv, Crest, CrestAt, Step, Lowest;
    var s0 := Init(h, mem);
    if ops != [] {
      var n := |ops| - 1;
      RunHighWater(h, mem, ops[..n]);
      RunInv(h, mem, ops[..n]);
      CrestBefore(s0, h, mem, ops, n);
      HighWater(Run(s0, h, mem, ops[..n]), h, mem, ops[n]);
      CrestLast(s0, h, mem, ops);
    }
  }

  lemma CrestLast(s: Heap, h: nat, mem: nat, ops: seq<Op>)
    requires ops != []
    ensures CrestAt(s, h, mem, ops, |ops| - 1) == Crest(Run(s, h, mem, ops[..|ops| - 1]), h, mem, ops[|ops| - 1])
  {
  }

  /**
   After every run the blocks tile the heap without two free neighbours, `used_mem` is the
   size of the blocks in use and `lfree` is a free block or `heap_end`; it is the lowest
   free block if the run has no reallocation.
   */
  lemma {:induction false} RunInv(h: nat, mem: nat, ops: seq<Op>)
    requires 0 < h && MIN <= mem
    ensures Inv(Run(Init(h, mem), h, mem, ops), h, mem + h)
    ensures (forall op :: op in ops ==> !op.DoRealloc?) ==> Lowest(Run(Init(h, mem), h, mem, ops))
  {
    hide Inv, Step, Lowest;
    if ops == [] {
      InitInv(h, mem);
    } else {
      RunInv(h, mem, ops[..|ops| - 1]);
      StepInv(Run(Init(h, mem), h, mem, ops[..|ops| - 1]), h, mem, ops[|ops| - 1]);
    }
  }

  // ---------------------------------------------------------------------------------
  // A heap too small for a smallest block
  // ---------------------------------------------------------------------------------

  /** Where `n` steps of the search loop lead from `p`; `heap_end` points to itself. */
  function Follow(c: seq<Block>, p: nat, n: nat): nat
    decreases n
  {
    if n == 0 then p
    else Follow(c, var i := IndexOf(c, p); if i < |c| then c[i].next else p, n - 1)
  }

  /**
   With fewer than `MIN` bytes of memory the bound of the search loop wraps around, and the
   search of a fresh heap never ends: after any number of steps it stands on a header below
   the bound that does not serve the request.
   */
  lemma {:induction false} TinyHeapNeverAnswers(h: nat, mem: nat, n: nat)
    requires 0 < h && h + MIN < WORD && mem < MIN
    ensures var c, bound := Init(h, mem).chain, (mem - MIN) % WORD; var p := Follow(c, 0, n);
            p < bound && (p == mem + h || (p == 0 && Size(c[0], h) < MIN))
  {
    var c := Init(h, mem).chain;
    if 0 < n {
      FollowEnd(c, mem + h, n - 1);
    }
  }

  lemma {:induction false} FollowEnd(c: seq<Block>, end: nat, n: nat)
    requires forall i :: 0 <= i < |c| ==> c[i].start < end
    ensures Follow(c, end, n) == end
    decreases n
  {
    if 0 < n {
      FollowEnd(c, end, n - 1);
    }
  }
}
