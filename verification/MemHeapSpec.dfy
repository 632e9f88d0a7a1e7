/**
 What the boundary-tag heap of `memheap.c` does to its block list, its free list and its
 counters, as functions on values. `MemHeap` holds the heap object itself, with the links
 stored in the block headers; its methods are proved to take exactly these steps.
 */
module MemHeapSpec {
  import opened BlockChain
  import opened Seqs
  import opened Words

  const MINIALLOC := 12  // RT_MEMHEAP_MINIALLOC
  const NULL := -2       // RT_NULL

  /** The data size a request is served with. */
  function RequestSize(size: nat): nat {
    if AlignUp(size) < MINIALLOC then MINIALLOC else AlignUp(size)
  }

  /** A request is served in full exactly when rounding it up does not pass 2^32. */
  lemma RequestCovers(size: nat)
    requires size < WORD
    ensures size <= RequestSize(size) <==> size <= WORD - ALIGN
    ensures RequestSize(size) % ALIGN == 0 && RequestSize(size) >= MINIALLOC
    ensures WORD - ALIGN < size ==> RequestSize(size) == MINIALLOC
  {
    AlignCovers(size);
  }

  /** Block list, free list (most recently freed first), `available_size`, `max_used_size`. */
  datatype Pool = Pool(chain: seq<Block>, free: seq<nat>, avail: int, maxUsed: int)

  /** The free list holds exactly the free blocks, each once. */
  ghost predicate Listed(free: seq<nat>, chain: seq<Block>) {
    NoDup(free) && forall p :: p in free <==> p in FreeStarts(chain)
  }

  /** The counters agree with the block list. */
  ghost predicate Counted(s: Pool, h: nat, pool: nat) {
    s.avail == FreeBytes(s.chain, h) && pool - s.avail <= s.maxUsed
  }

  /** What every operation keeps. */
  ghost predicate Inv(s: Pool, h: nat, pool: nat) {
    2 * h <= pool && Canonical(s.chain, h, pool - h) && Listed(s.free, s.chain) && Counted(s, h, pool)
  }

  function Init(h: nat, size: nat): Pool
    requires 2 * h <= size
  {
    Pool([Block(0, size - h, false)], [0], size - 2 * h, 2 * h)
  }

  function BlockAt(c: seq<Block>, p: int): Block {
    var i := IndexOf(c, p);
    if i < |c| then c[i] else Block(0, 0, true)
  }

  predicate Fits(c: seq<Block>, p: nat, h: nat, size: nat) {
    Size(BlockAt(c, p), h) >= size
  }

  /** First entry of the free list whose block is large enough. */
  function FirstFit(f: seq<nat>, c: seq<Block>, h: nat, size: nat): (k: nat)
    ensures k <= |f| && (k < |f| ==> Fits(c, f[k], h, size))
    ensures forall j :: 0 <= j < k ==> !Fits(c, f[j], h, size)
  {
    if f == [] || Fits(c, f[0], h, size) then 0 else 1 + FirstFit(f[1..], c, h, size)
  }

  lemma {:induction false} FirstFitUnique(f: seq<nat>, c: seq<Block>, h: nat, size: nat, k: nat)
    requires k <= |f| && (forall j :: 0 <= j < k ==> !Fits(c, f[j], h, size)) && (k < |f| ==> Fits(c, f[k], h, size))
    ensures k == FirstFit(f, c, h, size)
  {
  }

  /** `rt_memheap_alloc`. */
  function Alloc(s: Pool, h: nat, pool: nat, request: nat): (Pool, int) {
    var size := RequestSize(request);
    var k := FirstFit(s.free, s.chain, h, size);
    if size < s.avail && k < |s.free| then
      var p := s.free[k];
      var i := IndexOf(s.chain, p);
      if i < |s.chain| then
        var split := Size(s.chain[i], h) >= size + h + MINIALLOC;
        var avail := s.avail - (if split then size + h else Size(s.chain[i], h));
        (Pool(AllocAt(s.chain, i, h, MINIALLOC, size),
              (if split then [p + h + size] else []) + Remove(s.free, p),
              avail, Max(s.maxUsed, pool - avail)),
         p + h)
      else (s, NULL)
    else (s, NULL)
  }

  /** What a successful allocation does, spelled out for the block that was found. */
  lemma AllocShape(s: Pool, h: nat, pool: nat, request: nat, k: nat, i: nat)
    requires var size := RequestSize(request); size < s.avail && k == FirstFit(s.free, s.chain, h, size)
    requires k < |s.free| && i == IndexOf(s.chain, s.free[k]) && i < |s.chain|
    requires NoDup(s.free)
    ensures var size := RequestSize(request); var mid := AllocMid(s.chain[i], h, MINIALLOC, size);
            var (t, r) := Alloc(s, h, pool, request); var f := s.free[..k] + s.free[k + 1..];
            && r == s.free[k] + h && t.chain == Splice(s.chain, i, i + 1, mid)
            && t.maxUsed == Max(s.maxUsed, pool - t.avail)
            && if Size(s.chain[i], h) >= size + h + MINIALLOC
               then t.free == [s.free[k] + size + h] + f && t.avail == s.avail - size - h
                    && mid == [Block(s.chain[i].start, s.chain[i].start + size + h, true),
                               Block(s.chain[i].start + size + h, s.chain[i].next, false)]
               else t.free == f && t.avail == s.avail - Size(s.chain[i], h) && mid == [s.chain[i].(used := true)]
  {
    hide AllocAt, Splice, RequestSize;
    AllocAtSplice(s.chain, i, h, MINIALLOC, RequestSize(request));
    RemoveAt(s.free, k);
  }

  /** Is `ptr` the data address of a block in use? */
  predicate Live(s: Pool, h: nat, ptr: int) {
    var i := IndexOf(s.chain, ptr - h);
    i < |s.chain| && s.chain[i].used
  }

  /** `rt_memheap_free` on a block in use. */
  function Free(s: Pool, h: nat, ptr: int): Pool
    requires Live(s, h, ptr)
  {
    var c := s.chain;
    var i := IndexOf(c, ptr - h);
    var left := 0 < i && !c[i - 1].used;
    var right := i + 1 < |c| && !c[i + 1].used;
    var f := if right then Remove(s.free, c[i + 1].start) else s.free;
    s.(chain := FreeAt(c, i),
       free := if left then f else [c[i].start] + f,
       avail := s.avail + Size(c[i], h) + (if left then h else 0) + (if right then h else 0))
  }

  /** What freeing does to the lists, spelled out for block `i`. */
  lemma FreeShape(s: Pool, h: nat, pool: nat, ptr: int, i: nat)
    requires Live(s, h, ptr) && i == IndexOf(s.chain, ptr - h) && NoDup(s.free)
    ensures i < |s.chain| && s.chain[i].start == ptr - h && s.chain[i].used
    ensures var c, t := s.chain, Free(s, h, ptr); var lo, hi := FreeLo(c, i), FreeHi(c, i);
            var f := if hi == i + 2 then Remove(s.free, c[i + 1].start) else s.free;
            && t.chain == Splice(c, lo, hi, [Block(c[lo].start, c[hi - 1].next, false)])
            && t.free == (if lo < i then f else [c[i].start] + f)
            && t.avail == s.avail + Size(c[i], h) + (if lo < i then h else 0) + (if hi == i + 2 then h else 0)
            && t.maxUsed == s.maxUsed
  {
    hide FreeAt, Splice, Remove;
    FreeAtSplice(s.chain, i, FreeLo(s.chain, i), FreeHi(s.chain, i));
  }

  /** In-place change of the size of used block `i`, growing or shrinking. */
  function Resize(s: Pool, h: nat, pool: nat, i: nat, size: nat): Pool
    requires i < |s.chain|
  {
    var c := s.chain;
    var right := i + 1 < |c| && !c[i + 1].used;
    var f := if right then Remove(s.free, c[i + 1].start) else s.free;
    var avail := s.avail + Size(c[i], h) - size - (if right then 0 else h);
    Pool(ResizeAt(c, i, h, size), [c[i].start + h + size] + f, avail,
         if size > Size(c[i], h) then Max(s.maxUsed, pool - avail) else s.maxUsed)
  }

  /** What an in-place change does, spelled out. */
  lemma ResizeShape(s: Pool, h: nat, pool: nat, i: nat, size: nat)
    requires i < |s.chain|
    ensures var c, t := s.chain, Resize(s, h, pool, i, size); var hi := FreeHi(c, i);
            var f := if hi == i + 2 then Remove(s.free, c[i + 1].start) else s.free;
            && t.chain == Splice(c, i, hi, ResizeMid(c, i, h, size))
            && ResizeMid(c, i, h, size) ==
               [Block(c[i].start, c[i].start + h + size, true), Block(c[i].start + h + size, Reach(c, i), false)]
            && Reach(c, i) == c[hi - 1].next
            && t.free == [c[i].start + h + size] + f
            && t.avail == s.avail + Size(c[i], h) - size - (if hi == i + 2 then 0 else h)
            && t.maxUsed == if size > Size(c[i], h) then Max(s.maxUsed, pool - t.avail) else s.maxUsed
  {
  }

  /** The test whether used block `i` can grow into its right neighbour; its sum has 32 bits. */
  predicate GrowsInPlace(s: Pool, h: nat, i: nat, size: nat) {
    var c := s.chain;
    i + 1 < |c| && !c[i + 1].used && Size(c[i + 1], h) + Size(c[i], h) > (size + MINIALLOC) % WORD
  }

  /** The request is so large that the sum wraps round, and the test then lets the block grow. */
  predicate GrowWraps(s: Pool, h: nat, ptr: int, request: nat)
    requires Live(s, h, ptr)
  {
    var size, i := RequestSize(request), IndexOf(s.chain, ptr - h);
    WORD <= size + MINIALLOC && size > Size(s.chain[i], h) && GrowsInPlace(s, h, i, size)
  }

  /**
   What the writes of the grow path describe in that case: the address of the new header wraps round
   too and lies inside the header of the block itself, and so does the difference of the sizes.
   */
  function GrowWrapped(s: Pool, h: nat, pool: nat, i: nat, size: nat): Pool
    requires i + 1 < |s.chain|
  {
    var c := s.chain;
    var n := (c[i].start + h + size) % WORD;
    var avail := (s.avail - (size - Size(c[i], h))) % WORD;
    Pool(c[..i] + [Block(c[i].start, n, true), Block(n, c[i + 1].next, false)] + c[i + 2..],
         [n] + Remove(s.free, c[i + 1].start), avail, Max(s.maxUsed, (pool - avail) % WORD))
  }

  /** `rt_memheap_realloc` of a block in use to a non-zero size. */
  function Realloc(s: Pool, h: nat, pool: nat, ptr: int, request: nat): (Pool, int)
    requires Live(s, h, ptr)
  {
    var size := RequestSize(request);
    var i := IndexOf(s.chain, ptr - h);
    var size0 := Size(s.chain[i], h);
    if size > size0 then
      if GrowWraps(s, h, ptr, request) then (GrowWrapped(s, h, pool, i, size), ptr)
      else if GrowsInPlace(s, h, i, size) then (Resize(s, h, pool, i, size), ptr)
      else
        var (t, r) := Alloc(s, h, pool, size);
        (if r != NULL && Live(t, h, ptr) then Free(t, h, ptr) else t, r)
    else if size + h + MINIALLOC >= size0 then (s, ptr)
    else (Resize(s, h, pool, i, size), ptr)
  }

  // ---------------------------------------------------------------------------------
  // The invariant
  // ---------------------------------------------------------------------------------

  lemma InitInv(h: nat, size: nat)
    requires 0 < h && 2 * h <= size
    ensures Inv(Init(h, size), h, size)
  {
    var s := Init(h, size);
    FreeStartsOne(s.chain[0]);
    SumOne(s.chain[0], h);
  }

  /** Entries of the free list are blocks of the list, and free. */
  lemma FreeEntry(s: Pool, h: nat, pool: nat, p: nat)
    requires Inv(s, h, pool) && p in s.free
    ensures var i := IndexOf(s.chain, p); i < |s.chain| && !s.chain[i].used && s.chain[i].start == p
  {
    var b :| b in s.chain && !b.used && b.start == p;
    OnlyBlockAt(s.chain, p, h, pool - h);
  }

  lemma FreeBlockListed(s: Pool, h: nat, pool: nat, i: nat)
    requires Inv(s, h, pool) && i < |s.chain|
    ensures s.chain[i].start in s.free <==> !s.chain[i].used
    ensures IndexOf(s.chain, s.chain[i].start) == i
  {
    var p := s.chain[i].start;
    var m := IndexOf(s.chain, p);
    StartsDistinct(s.chain, h, pool - h, m, i);
    if p in s.free {
      FreeEntry(s, h, pool, p);
    } else {
      assert s.chain[i] in s.chain;
    }
  }

  /** A new start inside block `i` is not the start of any block, and so not listed. */
  lemma FreshStart(c: seq<Block>, h: nat, end: nat, i: nat, p: nat, free: seq<nat>)
    requires 0 < h && Tiles(c, h, end) && i < |c| && c[i].start < p < c[i].next
    ensures p !in FreeStarts(c) && (Listed(free, c) ==> p !in free)
  {
    TilesOrdered(c, h, end);
    forall m | 0 <= m < |c| ensures c[m].start != p {
      if m < i {
        assert c[m].next <= c[i].start;
      } else if i < m {
        assert c[i].next <= c[m].start;
      }
    }
  }

  lemma InvListed(s: Pool, h: nat, pool: nat)
    requires Inv(s, h, pool)
    ensures Listed(s.free, s.chain)
  {
  }

  lemma AllocListed(free: seq<nat>, c: seq<Block>, i: nat, h: nat, size: nat, end: nat)
    requires 0 < h && Tiles(c, h, end) && Listed(free, c) && i < |c| && !c[i].used && Size(c[i], h) >= size
    ensures Listed((if Size(c[i], h) >= size + h + MINIALLOC then [c[i].start + h + size] else [])
                   + Remove(free, c[i].start),
                   AllocAt(c, i, h, MINIALLOC, size))
  {
    hide FreeStarts, Tiles, AllocAt, Remove;
    AllocFreeStarts(c, i, h, MINIALLOC, size, end);
    RemoveNoDup(free, c[i].start);
    if Size(c[i], h) >= size + h + MINIALLOC {
      FreshStart(c, h, end, i, c[i].start + h + size, free);
      PushNoDup(Remove(free, c[i].start), c[i].start + h + size);
    } else {
      assert [] + Remove(free, c[i].start) == Remove(free, c[i].start);
    }
  }

  lemma AllocLength(c: seq<Block>, i: nat, h: nat, min: nat, size: nat)
    requires i < |c|
    ensures |AllocAt(c, i, h, min, size)| == |c| + if Size(c[i], h) >= size + h + min then 1 else 0
    ensures Size(c[i], h) < size + h + min ==> AllocAt(c, i, h, min, size)[i] == c[i].(used := true)
  {
  }

  lemma AllocInv(s: Pool, h: nat, pool: nat, request: nat)
    requires Inv(s, h, pool)
    ensures Inv(Alloc(s, h, pool, request).0, h, pool)
  {
    hide AllocAt, Tiles, Coalesced, Listed, FreeBytes, FreeStarts, RequestSize;
    var size := RequestSize(request);
    var k := FirstFit(s.free, s.chain, h, size);
    if size < s.avail && k < |s.free| {
      FreeEntry(s, h, pool, s.free[k]);
      var i := IndexOf(s.chain, s.free[k]);
      AllocCanonical(s.chain, i, h, MINIALLOC, size, pool - h);
      AllocSums(s.chain, i, h, MINIALLOC, size);
      AllocLength(s.chain, i, h, MINIALLOC, size);
      AllocListed(s.free, s.chain, i, h, size, pool - h);
    }
  }

  lemma FreeListed(free: seq<nat>, c: seq<Block>, i: nat, h: nat, end: nat)
    requires 0 < h && Tiles(c, h, end) && Listed(free, c) && i < |c| && c[i].used
    ensures var left, right := 0 < i && !c[i - 1].used, i + 1 < |c| && !c[i + 1].used;
            var f := if right then Remove(free, c[i + 1].start) else free;
            Listed(if left then f else [c[i].start] + f, FreeAt(c, i))
  {
    hide FreeStarts, Tiles, FreeAt, Remove;
    FreeFreeStarts(c, i, h, end);
    NotFreeStart(c, h, end, i);
    if i + 1 < |c| && !c[i + 1].used {
      RemoveNoDup(free, c[i + 1].start);
    }
    var f := if i + 1 < |c| && !c[i + 1].used then Remove(free, c[i + 1].start) else free;
    if 0 < i && !c[i - 1].used {
      IsFreeStart(c, i - 1);
      if i + 1 < |c| {
        StartsApart(c, h, end, i - 1, i + 1);
      }
    } else {
      PushNoDup(f, c[i].start);
    }
  }

  lemma NotFreeStart(c: seq<Block>, h: nat, end: nat, i: nat)
    requires 0 < h && Tiles(c, h, end) && i < |c| && c[i].used
    ensures c[i].start !in FreeStarts(c)
  {
    TilesOrdered(c, h, end);
  }

  lemma IsFreeStart(c: seq<Block>, i: nat)
    requires i < |c| && !c[i].used
    ensures c[i].start in FreeStarts(c)
  {
  }

  lemma StartsApart(c: seq<Block>, h: nat, end: nat, i: nat, j: nat)
    requires 0 < h && Tiles(c, h, end) && i < j < |c|
    ensures c[i].start < c[j].start
  {
    TilesOrdered(c, h, end);
  }

  lemma SizeNonNegative(c: seq<Block>, h: nat, end: nat, i: nat)
    requires Tiles(c, h, end) && i < |c|
    ensures 0 <= Size(c[i], h)
  {
  }

  lemma FreeInv(s: Pool, h: nat, pool: nat, ptr: int)
    requires Inv(s, h, pool) && Live(s, h, ptr)
    ensures Inv(Free(s, h, ptr), h, pool)
  {
    hide FreeAt, Tiles, Coalesced, Listed, FreeBytes, FreeStarts;
    var i := IndexOf(s.chain, ptr - h);
    SizeNonNegative(s.chain, h, pool - h, i);
    FreeCanonical(s.chain, i, h, pool - h);
    FreeSums(s.chain, i, h, pool - h);
    FreeListed(s.free, s.chain, i, h, pool - h);
  }

  lemma ResizeListed(free: seq<nat>, c: seq<Block>, i: nat, h: nat, size: nat, end: nat)
    requires 0 < h && Tiles(c, h, end) && Listed(free, c) && i < |c| && c[i].used
    requires c[i].start + h + size < Reach(c, i)
    ensures var right := i + 1 < |c| && !c[i + 1].used;
            var f := if right then Remove(free, c[i + 1].start) else free;
            Listed([c[i].start + h + size] + f, ResizeAt(c, i, h, size))
  {
    hide FreeStarts, ResizeAt, Remove;
    ResizeFreeStarts(c, i, h, size, end);
    var p := c[i].start + h + size;
    var right := i + 1 < |c| && !c[i + 1].used;
    if right {
      RemoveNoDup(free, c[i + 1].start);
      if c[i + 1].start < p {
        FreshStart(c, h, end, i + 1, p, free);
      }
    }
    if p < c[i].next {
      FreshStart(c, h, end, i, p, free);
    }
    PushNoDup(if right then Remove(free, c[i + 1].start) else free, p);
  }

  lemma ResizeInv(s: Pool, h: nat, pool: nat, i: nat, size: nat)
    requires Inv(s, h, pool) && i < |s.chain| && s.chain[i].used
    requires s.chain[i].start + h + size + h <= Reach(s.chain, i)
    ensures Inv(Resize(s, h, pool, i, size), h, pool)
  {
    hide ResizeAt, Tiles, Coalesced, Listed, FreeBytes, FreeStarts;
    var c := s.chain;
    ResizeCanonical(c, i, h, size, pool - h);
    ResizeSums(c, i, h, size, pool - h);
    ResizeListed(s.free, c, i, h, size, pool - h);
  }

  // ---------------------------------------------------------------------------------
  // What the operations give
  // ---------------------------------------------------------------------------------

  ghost function Used(s: Pool): set<Block> {
    UsedSet(s.chain)
  }

  /** The block whose data begins at `ptr`. */
  function BlockOf(s: Pool, h: nat, ptr: int): Block {
    BlockAt(s.chain, ptr - h)
  }

  lemma LiveBlock(s: Pool, h: nat, pool: nat, ptr: int)
    requires Inv(s, h, pool)
    ensures Live(s, h, ptr) <==> exists b :: b in Used(s) && b.start + h == ptr
    ensures Live(s, h, ptr) ==> BlockOf(s, h, ptr) in Used(s) && BlockOf(s, h, ptr).start + h == ptr
    ensures forall b :: b in Used(s) && b.start + h == ptr ==> b == BlockOf(s, h, ptr)
  {
    if b :| b in Used(s) && b.start + h == ptr {
      OnlyBlockAt(s.chain, b.start, h, pool - h);
    }
  }

  /**
   A successful allocation adds one block that was not in use, large enough for the
   request and by less than a header and a smallest block too large. It overlaps no block
   in use, since `Inv` makes the blocks of the new list disjoint.
   */
  lemma AllocGives(s: Pool, h: nat, pool: nat, request: nat)
    requires Inv(s, h, pool)
    ensures var (t, r) := Alloc(s, h, pool, request); var b := BlockOf(t, h, r); var size := RequestSize(request);
            if r == NULL then t == s
            else && Used(t) == Used(s) + {b} && b !in Used(s) && b.start + h == r && Live(t, h, r)
                 && size <= Size(b, h) < size + h + MINIALLOC
                 && (request <= WORD - ALIGN ==> request <= Size(b, h))
                 && (WORD - ALIGN < request < WORD ==> Size(b, h) < MINIALLOC + h + MINIALLOC)
  {
    hide AllocAt, Tiles, Coalesced, Listed, FreeBytes, FreeStarts, RequestSize, Remove, UsedSet, Splice;
    var size := RequestSize(request);
    var k := FirstFit(s.free, s.chain, h, size);
    if request < WORD {
      RequestCovers(request);
    }
    if size < s.avail && k < |s.free| {
      FreeEntry(s, h, pool, s.free[k]);
      var i := IndexOf(s.chain, s.free[k]);
      var d := AllocAt(s.chain, i, h, MINIALLOC, size);
      AllocCanonical(s.chain, i, h, MINIALLOC, size, pool - h);
      AllocUsed(s.chain, i, h, MINIALLOC, size, pool - h);
      AllocAtSplice(s.chain, i, h, MINIALLOC, size);
      StartsDistinct(d, h, pool - h, i, IndexOf(d, s.free[k]));
    }
  }

  /** Allocation fails exactly when the strict comparison with the counter or the search fails. */
  lemma AllocFails(s: Pool, h: nat, pool: nat, request: nat)
    requires Inv(s, h, pool)
    ensures var size := RequestSize(request);
            Alloc(s, h, pool, request).1 == NULL
            <==> s.avail <= size || forall b :: b in s.chain && !b.used ==> Size(b, h) < size
  {
    hide AllocAt, Tiles, Coalesced, FreeBytes, RequestSize, Remove;
    var size := RequestSize(request);
    var k := FirstFit(s.free, s.chain, h, size);
    forall b | b in s.chain && !b.used ensures b.start in s.free && BlockAt(s.chain, b.start) == b {
      assert b.start in FreeStarts(s.chain);
      OnlyBlockAt(s.chain, b.start, h, pool - h);
    }
    forall p | p in s.free
      ensures BlockAt(s.chain, p) in s.chain && !BlockAt(s.chain, p).used && IndexOf(s.chain, p) < |s.chain|
    {
      FreeEntry(s, h, pool, p);
    }
    if k < |s.free| {
      assert s.free[k] in s.free;
    }
  }

  /** A free block that fits is refused only if it is the last free memory of the pool. */
  lemma AllocRefusesLast(s: Pool, h: nat, pool: nat, request: nat, b: Block)
    requires Inv(s, h, pool) && b in s.chain && !b.used && RequestSize(request) <= Size(b, h)
    ensures Alloc(s, h, pool, request).1 == NULL <==> RequestSize(request) == s.avail
  {
    hide RequestSize;
    AllocFails(s, h, pool, request);
    FreeBytesAtLeast(s.chain, h, b);
  }

  lemma {:induction false} FreeBytesAtLeast(c: seq<Block>, h: nat, b: Block)
    requires forall i :: 0 <= i < |c| ==> c[i].start + h <= c[i].next
    requires b in c && !b.used
    ensures Size(b, h) <= FreeBytes(c, h)
  {
    FreeBytesNonNegative(c[1..], h);
    if c[0] != b {
      FreeBytesAtLeast(c[1..], h, b);
    }
  }

  lemma {:induction false} FreeBytesNonNegative(c: seq<Block>, h: nat)
    requires forall i :: 0 <= i < |c| ==> c[i].start + h <= c[i].next
    ensures 0 <= FreeBytes(c, h)
  {
    if c != [] {
      FreeBytesNonNegative(c[1..], h);
    }
  }

  /** Freeing takes one block out of use and leaves the others alone. */
  lemma FreeGives(s: Pool, h: nat, pool: nat, ptr: int, i: nat)
    requires Inv(s, h, pool) && Live(s, h, ptr) && i == IndexOf(s.chain, ptr - h)
    ensures i < |s.chain| && BlockOf(s, h, ptr) == s.chain[i]
    ensures UsedSet(Free(s, h, ptr).chain) == UsedSet(s.chain) - {s.chain[i]}
    ensures Used(Free(s, h, ptr)) == Used(s) - {BlockOf(s, h, ptr)}
  {
    hide FreeAt, Coalesced, Listed, FreeBytes, FreeStarts, UsedSet;
    FreeUsed(s.chain, i, h, pool - h);
  }

  /**
   Allocating and freeing at once restores the block list and the available size exactly,
   and the free list up to its order.
   */
  lemma AllocFreeRoundTrip(s: Pool, h: nat, pool: nat, request: nat)
    requires Inv(s, h, pool)
    ensures var (t, r) := Alloc(s, h, pool, request);
            r != NULL ==> Live(t, h, r) && var u := Free(t, h, r);
              u.chain == s.chain && u.avail == s.avail && Listed(u.free, s.chain)
  {
    hide Alloc, Free, Canonical, Live, RequestSize;
    var (t, r) := Alloc(s, h, pool, request);
    AllocInv(s, h, pool, request);
    AllocGives(s, h, pool, request);
    if r != NULL {
      FreeInv(t, h, pool, r);
      FreeGives(t, h, pool, r, IndexOf(t.chain, r - h));
      ChainUnique(Free(t, h, r).chain, s.chain, h, pool - h);
    }
  }

  /** In place or by moving: what an in-place change needs, for growing and for shrinking. */
  lemma ReallocRoom(s: Pool, h: nat, pool: nat, i: nat, size: nat)
    requires Inv(s, h, pool) && i < |s.chain|
    requires (GrowsInPlace(s, h, i, size) && size + MINIALLOC < WORD) || size + h + MINIALLOC < Size(s.chain[i], h)
    ensures s.chain[i].start + h + size + h <= Reach(s.chain, i)
  {
  }

  /** A wrapped grow leaves a block that ends inside its own header. */
  lemma GrowWrappedBlock(s: Pool, h: nat, pool: nat, ptr: int, request: nat)
    requires MINIALLOC <= h && Inv(s, h, pool) && Live(s, h, ptr) && GrowWraps(s, h, ptr, request)
    ensures var t := Realloc(s, h, pool, ptr, request).0; var i := IndexOf(s.chain, ptr - h);
            && i < |t.chain| && t.chain[i].start == ptr - h && t.chain[i].next < ptr
            && Live(t, h, ptr) && BlockOf(t, h, ptr) == t.chain[i]
  {
    hide Inv, Remove;
    var t, i := Realloc(s, h, pool, ptr, request).0, IndexOf(s.chain, ptr - h);
    var size := RequestSize(request);
    RequestBounds(request);
    var p, n := s.chain[i].start, (s.chain[i].start + h + size) % WORD;
    WrappedEnd(p + h, size);
    assert t.chain[i] == Block(p, n, true);
    FirstIndex(s.chain, t.chain, ptr - h);
  }

  lemma RequestBounds(request: nat)
    ensures MINIALLOC <= RequestSize(request) < WORD
  {
  }

  lemma WrappedEnd(p: nat, size: nat)
    requires MINIALLOC <= p && WORD - MINIALLOC <= size < WORD
    ensures (p + size) % WORD < p
  {
    if p < WORD {
      assert (p + size) % WORD == p + size - WORD;
    }
  }

  lemma {:induction false} FirstIndex(c: seq<Block>, d: seq<Block>, p: int)
    requires var i := IndexOf(c, p); i < |c| && i < |d| && c[..i] == d[..i] && d[i].start == p
    ensures IndexOf(d, p) == IndexOf(c, p)
  {
    var i := IndexOf(c, p);
    if 0 < i {
      assert d[0] == d[..i][0] == c[..i][0] == c[0];
      assert c[1..][..i - 1] == c[..i][1..] && d[1..][..i - 1] == d[..i][1..];
      FirstIndex(c[1..], d[1..], p);
    }
  }

  /** Reallocation keeps the invariant exactly unless the sum in the test wraps round and lets the block grow. */
  lemma ReallocInv(s: Pool, h: nat, pool: nat, ptr: int, request: nat)
    requires MINIALLOC <= h && Inv(s, h, pool) && Live(s, h, ptr)
    ensures Inv(Realloc(s, h, pool, ptr, request).0, h, pool) <==> !GrowWraps(s, h, ptr, request)
  {
    hide Alloc, Free, Resize, RequestSize, GrowsInPlace, IndexOf, Listed, Counted, Coalesced;
    if GrowWraps(s, h, ptr, request) {
      GrowWrappedBlock(s, h, pool, ptr, request);
    } else {
      ReallocKeeps(s, h, pool, ptr, request);
    }
  }

  lemma ReallocKeeps(s: Pool, h: nat, pool: nat, ptr: int, request: nat)
    requires Inv(s, h, pool) && Live(s, h, ptr) && !GrowWraps(s, h, ptr, request)
    ensures Inv(Realloc(s, h, pool, ptr, request).0, h, pool)
  {
    hide Inv, Alloc, Free, Resize, RequestSize, GrowWrapped;
    var size := RequestSize(request);
    var i := IndexOf(s.chain, ptr - h);
    if (GrowsInPlace(s, h, i, size) && size + MINIALLOC < WORD) || size + h + MINIALLOC < Size(s.chain[i], h) {
      ReallocRoom(s, h, pool, i, size);
      ResizeInv(s, h, pool, i, size);
    }
    AllocInv(s, h, pool, size);
    var (t, r) := Alloc(s, h, pool, size);
    if r != NULL && Live(t, h, ptr) {
      FreeInv(t, h, pool, ptr);
    }
  }

  /** The smallest such request, on a heap with one block of 12 bytes in use, leads out of the invariant. */
  lemma ReallocWraps()
    ensures var s := Run(Init(24, 160), 24, 160, [DoAlloc(12)]);
            && s == Pool([Block(0, 36, true), Block(36, 136, false)], [36], 76, 84)
            && Live(s, 24, 24) && GrowWraps(s, 24, 24, 0xffff_fff1) && Inv(s, 24, 160)
            && !Inv(Realloc(s, 24, 160, 24, 0xffff_fff1).0, 24, 160)
  {
    hide Inv, Alloc;
    FirstAlloc();
    var s0, s := Init(24, 160), Pool([Block(0, 36, true), Block(36, 136, false)], [36], 76, 84);
    assert [DoAlloc(12)][..0] == [] && Run(s0, 24, 160, []) == s0;
    InitInv(24, 160);
    AllocInv(s0, 24, 160, 12);
    assert IndexOf(s.chain, 0) == 0;
    ReallocInv(s, 24, 160, 24, 0xffff_fff1);
  }

  lemma FirstAlloc()
    ensures Alloc(Init(24, 160), 24, 160, 12) == (Pool([Block(0, 36, true), Block(36, 136, false)], [36], 76, 84), 24)
  {
    var s := Init(24, 160);
    assert RequestSize(12) == 12;
    assert IndexOf(s.chain, 0) == 0;
    FirstFitUnique(s.free, s.chain, 24, 12, 0);
    hide FirstFit, IndexOf, RequestSize;
    AllocShape(s, 24, 160, 12, 0, 0);
    var t := Alloc(s, 24, 160, 12).0;
    assert t.chain == [Block(0, 36, true), Block(36, 136, false)];
    assert t.free == [36];
  }

  lemma ResizeGives(s: Pool, h: nat, pool: nat, i: nat, size: nat)
    requires Inv(s, h, pool) && i < |s.chain| && s.chain[i].used
    requires s.chain[i].start + h + size + h <= Reach(s.chain, i)
    ensures var b := Block(s.chain[i].start, s.chain[i].start + h + size, true);
            Used(Resize(s, h, pool, i, size)) == Used(s) - {s.chain[i]} + {b}
  {
    hide ResizeAt, Coalesced, Listed, FreeBytes, FreeStarts, UsedSet;
    ResizeUsed(s.chain, i, h, size, pool - h);
  }

  /** Rounding a request that was rounded already changes nothing. */
  lemma RequestSizeStable(request: nat)
    ensures RequestSize(RequestSize(request)) == RequestSize(request)
  {
    hide AlignUp;
    AlignTwice(request);
    AlignFixed(MINIALLOC);
  }

  /**
   A reallocation exchanges one block in use for another, large enough for the request, and
   leaves every other block in use alone; when it fails it changes nothing at all.
   */
  ghost predicate Exchanged(s: Pool, h: nat, ptr: int, request: nat, t: Pool, r: int) {
    var b := BlockOf(t, h, r);
    if r == NULL then t == s
    else Used(t) == Used(s) - {BlockOf(s, h, ptr)} + {b} && b.start + h == r && RequestSize(request) <= Size(b, h)
  }

  /** It does so exactly unless the sum in the test wraps round and lets the block grow. */
  lemma ReallocGives(s: Pool, h: nat, pool: nat, ptr: int, request: nat)
    requires MINIALLOC <= h && Inv(s, h, pool) && Live(s, h, ptr)
    ensures var (t, r) := Realloc(s, h, pool, ptr, request);
            Exchanged(s, h, ptr, request, t, r) <==> !GrowWraps(s, h, ptr, request)
  {
    hide Inv, Alloc, Free, Resize, RequestSize, Used, Live, BlockOf, GrowsInPlace, IndexOf, GrowWrapped;
    if GrowWraps(s, h, ptr, request) {
      GrowWrappedBlock(s, h, pool, ptr, request);
      RequestBounds(request);
      LivePositive(s, h, pool, ptr);
    } else {
      ReallocExchanges(s, h, pool, ptr, request);
    }
  }

  lemma LivePositive(s: Pool, h: nat, pool: nat, ptr: int)
    requires Inv(s, h, pool) && Live(s, h, ptr)
    ensures 0 <= ptr
  {
  }

  lemma ReallocExchanges(s: Pool, h: nat, pool: nat, ptr: int, request: nat)
    requires Inv(s, h, pool) && Live(s, h, ptr) && !GrowWraps(s, h, ptr, request)
    ensures var (t, r) := Realloc(s, h, pool, ptr, request); Exchanged(s, h, ptr, request, t, r)
  {
    hide Inv, Alloc, Free, Resize, RequestSize, Used, Live, BlockOf, GrowWrapped;
    var size := RequestSize(request);
    RequestSizeStable(request);
    var i := IndexOf(s.chain, ptr - h);
    LiveIndex(s, h, ptr);
    if (size > Size(s.chain[i], h) && GrowsInPlace(s, h, i, size)) || size + h + MINIALLOC < Size(s.chain[i], h) {
      ReallocRoom(s, h, pool, i, size);
      ResizeGives(s, h, pool, i, size);
      ResizeInv(s, h, pool, i, size);
      LiveBlock(Resize(s, h, pool, i, size), h, pool, ptr);
    } else if size > Size(s.chain[i], h) {
      MoveGives(s, h, pool, ptr, size);
    } else {
      LiveBlock(s, h, pool, ptr);
      LiveUsed(s, h, pool, ptr);
    }
  }

  lemma LiveIndex(s: Pool, h: nat, ptr: int)
    requires Live(s, h, ptr)
    ensures var i := IndexOf(s.chain, ptr - h);
            i < |s.chain| && s.chain[i].used && BlockOf(s, h, ptr) == s.chain[i] && s.chain[i].start == ptr - h
  {
  }

  lemma LiveUsed(s: Pool, h: nat, pool: nat, ptr: int)
    requires Inv(s, h, pool) && Live(s, h, ptr)
    ensures Used(s) == Used(s) - {BlockOf(s, h, ptr)} + {BlockOf(s, h, ptr)}
  {
    LiveBlock(s, h, pool, ptr);
  }

  lemma MoveGives(s: Pool, h: nat, pool: nat, ptr: int, size: nat)
    requires Inv(s, h, pool) && Live(s, h, ptr)
    ensures var (t, r) := Alloc(s, h, pool, size);
            if r == NULL then t == s
            else Live(t, h, ptr) && BlockOf(t, h, ptr) == BlockOf(s, h, ptr) &&
                 var u := Free(t, h, ptr); var b := BlockOf(u, h, r);
                 && Used(u) == Used(s) - {BlockOf(s, h, ptr)} + {b} && b.start + h == r
                 && RequestSize(size) <= Size(b, h)
  {
    hide Inv, Alloc, Free, RequestSize, Used, Live, BlockOf;
    var (t, r) := Alloc(s, h, pool, size);
    AllocInv(s, h, pool, size);
    AllocGives(s, h, pool, size);
    LiveBlock(s, h, pool, ptr);
    LiveBlock(t, h, pool, ptr);
    if r != NULL {
      var u := Free(t, h, ptr);
      FreeInv(t, h, pool, ptr);
      FreeGives(t, h, pool, ptr, IndexOf(t.chain, ptr - h));
      LiveBlock(u, h, pool, r);
      LiveBlock(s, h, pool, r);
      LiveBlock(t, h, pool, r);
    }
  }

  /** A free block lies behind `b`, and with it `b` has room for `size` bytes and more. */
  ghost predicate RoomBehind(s: Pool, h: nat, b: Block, size: nat) {
    exists f :: f in s.chain && !f.used && f.start == b.next && Size(b, h) + Size(f, h) > size + MINIALLOC
  }

  /** No free block has the size, or the pool has no more than that to give. */
  ghost predicate NoneFits(s: Pool, h: nat, size: nat) {
    s.avail <= size || forall f :: f in s.chain && !f.used ==> Size(f, h) < size
  }

  lemma RoomBehindAt(s: Pool, h: nat, pool: nat, i: nat, size: nat)
    requires Inv(s, h, pool) && i < |s.chain|
    ensures RoomBehind(s, h, s.chain[i], size) <==>
            && i + 1 < |s.chain| && !s.chain[i + 1].used
            && Size(s.chain[i + 1], h) + Size(s.chain[i], h) > size + MINIALLOC
  {
    hide Listed, Counted, Coalesced, Tiles;
    var c := s.chain;
    BlockBounds(c, h, pool - h, i);
    if f :| f in c && !f.used && f.start == c[i].next {
      NextBlock(c, h, pool - h, i, f);
    }
    forall f | f in c && f.start == c[i].next ensures i + 1 < |c| && f == c[i + 1] {
      NextBlock(c, h, pool - h, i, f);
    }
    if i + 1 < |c| {
      assert c[i + 1] in c;
    }
  }

  lemma NextBlock(c: seq<Block>, h: nat, end: nat, i: nat, f: Block)
    requires 0 < h && Tiles(c, h, end) && i < |c| && f in c && f.start == c[i].next
    ensures i + 1 < |c| && f == c[i + 1]
  {
    hide Tiles;
    var j :| 0 <= j < |c| && c[j] == f;
    BlockBounds(c, h, end, i);
    BlockBounds(c, h, end, j);
    if i + 1 < |c| {
      StartsDistinct(c, h, end, i + 1, j);
    }
  }

  /**
   When a reallocation fails, when the block stays where it is, and how large it is then. It fails exactly when the
   block is too small, cannot grow, and no other block can be had.
   */
  lemma ReallocAnswers(s: Pool, h: nat, pool: nat, ptr: int, request: nat)
    requires Inv(s, h, pool) && Live(s, h, ptr) && !GrowWraps(s, h, ptr, request)
    ensures var (t, r) := Realloc(s, h, pool, ptr, request); var size, b := RequestSize(request), BlockOf(s, h, ptr);
            && (r == NULL <==> Size(b, h) < size && !RoomBehind(s, h, b, size) && NoneFits(s, h, size))
            && (r == ptr <==> size <= Size(b, h) || RoomBehind(s, h, b, size))
            && (r == ptr ==> BlockOf(t, h, ptr).start == b.start && Size(BlockOf(t, h, ptr), h) ==
                             if size <= Size(b, h) <= size + h + MINIALLOC then Size(b, h) else size)
            && (r != NULL && r != ptr ==> size <= Size(BlockOf(t, h, r), h) < size + h + MINIALLOC)
  {
    hide Inv, Alloc, Free, Resize, RequestSize, Used, Live, BlockOf, GrowWrapped, RoomBehind, NoneFits;
    var size := RequestSize(request);
    RequestSizeStable(request);
    RequestBounds(request);
    var i := IndexOf(s.chain, ptr - h);
    LiveIndex(s, h, ptr);
    LivePositive(s, h, pool, ptr);
    RoomBehindAt(s, h, pool, i, size);
    if size > Size(s.chain[i], h) {
      if GrowsInPlace(s, h, i, size) {
        ReallocRoom(s, h, pool, i, size);
        ResizedBlock(s, h, pool, ptr, size);
      } else {
        MoveAnswers(s, h, pool, ptr, size);
      }
    } else if size + h + MINIALLOC < Size(s.chain[i], h) {
      ReallocRoom(s, h, pool, i, size);
      ResizedBlock(s, h, pool, ptr, size);
    }
  }

  lemma ResizedBlock(s: Pool, h: nat, pool: nat, ptr: int, size: nat)
    requires Inv(s, h, pool) && Live(s, h, ptr)
    requires var i := IndexOf(s.chain, ptr - h); s.chain[i].start + h + size + h <= Reach(s.chain, i)
    ensures var b := BlockOf(Resize(s, h, pool, IndexOf(s.chain, ptr - h), size), h, ptr);
            b.start == ptr - h && Size(b, h) == size
  {
    hide Inv, Resize, Used, IndexOf, RequestSize;
    var i := IndexOf(s.chain, ptr - h);
    LiveIndex(s, h, ptr);
    var t, b := Resize(s, h, pool, i, size), Block(s.chain[i].start, s.chain[i].start + h + size, true);
    ResizeGives(s, h, pool, i, size);
    ResizeInv(s, h, pool, i, size);
    assert b in Used(t);
    LiveBlock(t, h, pool, ptr);
    UsedBlock(t, h, pool, b);
  }

  lemma UsedBlock(s: Pool, h: nat, pool: nat, b: Block)
    requires Inv(s, h, pool) && b in Used(s)
    ensures Live(s, h, b.start + h) && BlockOf(s, h, b.start + h) == b
  {
    hide Listed, Counted, Coalesced;
    OnlyBlockAt(s.chain, b.start, h, pool - h);
  }

  lemma MoveAnswers(s: Pool, h: nat, pool: nat, ptr: int, size: nat)
    requires Inv(s, h, pool) && Live(s, h, ptr) && RequestSize(size) == size
    ensures var (t, r) := Alloc(s, h, pool, size);
            && (r == NULL <==> NoneFits(s, h, size)) && r != ptr
            && (r != NULL ==> Live(t, h, ptr) && size <= Size(BlockOf(Free(t, h, ptr), h, r), h) < size + h + MINIALLOC)
  {
    hide Inv, Alloc, Free, RequestSize, Used, Live, BlockOf;
    var (t, r) := Alloc(s, h, pool, size);
    AllocInv(s, h, pool, size);
    AllocGives(s, h, pool, size);
    AllocFails(s, h, pool, size);
    LivePositive(s, h, pool, ptr);
    LiveBlock(s, h, pool, ptr);
    LiveBlock(t, h, pool, ptr);
    if r != NULL {
      FreeInv(t, h, pool, ptr);
      FreeGives(t, h, pool, ptr, IndexOf(t.chain, ptr - h));
      LiveBlock(t, h, pool, r);
      UsedBlock(Free(t, h, ptr), h, pool, BlockOf(t, h, r));
    }
  }

  /** The block given is the first of the free list that is large enough, from its start on. */
  lemma AllocPlace(s: Pool, h: nat, pool: nat, request: nat) returns (k: nat)
    requires Inv(s, h, pool) && Alloc(s, h, pool, request).1 != NULL
    ensures k < |s.free| && Alloc(s, h, pool, request).1 == s.free[k] + h
    ensures RequestSize(request) <= Size(BlockAt(s.chain, s.free[k]), h)
    ensures forall j :: 0 <= j < k ==> Size(BlockAt(s.chain, s.free[j]), h) < RequestSize(request)
  {
    hide RequestSize, AllocAt, Remove;
    k := FirstFit(s.free, s.chain, h, RequestSize(request));
  }

  /** Memory just freed is given first, if no free memory lay in front of it. */
  lemma FreedFirst(s: Pool, h: nat, pool: nat, ptr: int, request: nat)
    requires Inv(s, h, pool) && Live(s, h, ptr) && forall f :: f in s.chain && !f.used ==> f.next != ptr - h
    requires RequestSize(request) <= Size(BlockOf(s, h, ptr), h) && RequestSize(request) < Free(s, h, ptr).avail
    ensures Alloc(Free(s, h, ptr), h, pool, request).1 == ptr
  {
    hide Inv, Free, RequestSize, AllocAt, Remove, IndexOf;
    var i, t := IndexOf(s.chain, ptr - h), Free(s, h, ptr);
    LiveIndex(s, h, ptr);
    FreeInv(s, h, pool, ptr);
    LeftUsed(s, h, pool, i);
    FreedBlock(s, h, pool, ptr, i);
    FreeEntry(t, h, pool, t.free[0]);
    FirstFitUnique(t.free, t.chain, h, RequestSize(request), 0);
  }

  lemma LeftUsed(s: Pool, h: nat, pool: nat, i: nat)
    requires Inv(s, h, pool) && i < |s.chain| && forall f :: f in s.chain && !f.used ==> f.next != s.chain[i].start
    ensures 0 < i ==> s.chain[i - 1].used
  {
    hide Coalesced, Listed, Counted, Tiles;
    if 0 < i {
      BlockBounds(s.chain, h, pool - h, i - 1);
      assert s.chain[i - 1] in s.chain;
    }
  }

  /** The freed block and a free neighbour behind it are one block, the first of the free list. */
  lemma FreedBlock(s: Pool, h: nat, pool: nat, ptr: int, i: nat)
    requires Inv(s, h, pool) && Live(s, h, ptr) && i == IndexOf(s.chain, ptr - h) && (0 < i ==> s.chain[i - 1].used)
    ensures var t, b := Free(s, h, ptr), s.chain[i];
            && t.free != [] && t.free[0] == b.start == ptr - h
            && BlockAt(t.chain, b.start).start == b.start && b.next <= BlockAt(t.chain, b.start).next
  {
    hide Inv, Free, Remove, IndexOf, Splice;
    LiveIndex(s, h, ptr);
    ListedOnce(s, h, pool);
    FreeShape(s, h, pool, ptr, i);
    FreeInv(s, h, pool, ptr);
    FreedAt(s, h, pool, i, Free(s, h, ptr).chain);
    FreeBlockListed(Free(s, h, ptr), h, pool, i);
  }

  lemma ListedOnce(s: Pool, h: nat, pool: nat)
    requires Inv(s, h, pool)
    ensures NoDup(s.free)
  {
  }

  lemma FreedAt(s: Pool, h: nat, pool: nat, i: nat, c: seq<Block>)
    requires Inv(s, h, pool) && i < |s.chain| && (0 < i ==> s.chain[i - 1].used)
    requires var hi := FreeHi(s.chain, i);
             c == Splice(s.chain, i, hi, [Block(s.chain[i].start, s.chain[hi - 1].next, false)])
    ensures i < |c| && c[i].start == s.chain[i].start && s.chain[i].next <= c[i].next
  {
    hide Listed, Counted, Coalesced;
    BlockBounds(s.chain, h, pool - h, i);
    if i + 1 < |s.chain| {
      BlockBounds(s.chain, h, pool - h, i + 1);
    }
  }

  /** What moving a block to new memory rests on: old and new block are both in use, apart. */
  lemma MoveFacts(s: Pool, h: nat, pool: nat, ptr: int, size: nat)
    requires Inv(s, h, pool) && Live(s, h, ptr) && Alloc(s, h, pool, size).1 != NULL
    ensures var (t, r) := Alloc(s, h, pool, size); var b, nb := BlockOf(s, h, ptr), BlockOf(t, h, r);
            && UsedSet(t.chain) == UsedSet(s.chain) + {nb} && nb !in UsedSet(s.chain) && b in UsedSet(s.chain)
            && b.start + h == ptr && nb.start + h == r && RequestSize(size) <= Size(nb, h)
            && Apart(UsedSet(t.chain)) && b.start + h <= b.next <= pool && nb.next <= pool
            && (b.next <= nb.start || nb.next <= b.start)
            && Live(t, h, ptr) && UsedSet(Free(t, h, ptr).chain) == UsedSet(s.chain) - {b} + {nb}
  {
    hide Inv, Alloc, Free, RequestSize, Live, BlockOf, UsedSet, Apart, IndexOf;
    var (t, r) := Alloc(s, h, pool, size);
    AllocInv(s, h, pool, size);
    AllocGives(s, h, pool, size);
    LiveBlock(s, h, pool, ptr);
    LiveBlock(t, h, pool, ptr);
    FreeGives(t, h, pool, ptr, IndexOf(t.chain, ptr - h));
    InvApart(t, h, pool);
    ApartPair(UsedSet(t.chain), BlockOf(s, h, ptr), BlockOf(t, h, r));
  }

  lemma InvApart(s: Pool, h: nat, pool: nat)
    requires Inv(s, h, pool)
    ensures Apart(UsedSet(s.chain)) && forall b :: b in UsedSet(s.chain) ==> b.start + h <= b.next <= pool
  {
    hide Listed, Apart, UsedSet;
    UsedApart(s.chain, h, pool - h);
  }

  // ---------------------------------------------------------------------------------
  // Whole runs
  // ---------------------------------------------------------------------------------

  datatype Op = DoAlloc(size: nat) | DoFree(ptr: int) | DoRealloc(ptr: int, size: nat)

  /** One call. Freeing or reallocating an address that is not live is the caller's fault. */
  function Step(s: Pool, h: nat, pool: nat, op: Op): Pool {
    match op
    case DoAlloc(size) => Alloc(s, h, pool, size).0
    case DoFree(ptr) => if Live(s, h, ptr) then Free(s, h, ptr) else s
    case DoRealloc(ptr, size) =>
      if ptr == NULL && size != 0 then Alloc(s, h, pool, RequestSize(size)).0
      else if !Live(s, h, ptr) then s
      else if size == 0 then Free(s, h, ptr)
      else Realloc(s, h, pool, ptr, size).0
  }

  function Run(s: Pool, h: nat, pool: nat, ops: seq<Op>): Pool {
    if ops == [] then s else Step(Run(s, h, pool, ops[..|ops| - 1]), h, pool, ops[|ops| - 1])
  }

  /** The one call that breaks the heap. */
  predicate Breaks(s: Pool, h: nat, op: Op) {
    op.DoRealloc? && op.size != 0 && op.ptr != NULL && Live(s, h, op.ptr) && GrowWraps(s, h, op.ptr, op.size)
  }

  /** A call keeps the invariant exactly unless it is a reallocation whose test wraps round. */
  lemma StepInv(s: Pool, h: nat, pool: nat, op: Op)
    requires MINIALLOC <= h && Inv(s, h, pool)
    ensures Inv(Step(s, h, pool, op), h, pool) <==> !Breaks(s, h, op)
  {
    hide Inv, Alloc, Free, Realloc, Live, RequestSize, GrowWraps;
    match op {
      case DoAlloc(size) => AllocInv(s, h, pool, size);
      case DoFree(ptr) => if Live(s, h, ptr) { FreeInv(s, h, pool, ptr); }
      case DoRealloc(ptr, size) =>
        AllocInv(s, h, pool, RequestSize(size));
        if Live(s, h, ptr) {
          LivePositive(s, h, pool, ptr);
          FreeInv(s, h, pool, ptr);
          ReallocInv(s, h, pool, ptr, size);
        }
    }
  }

  /** The least that is available at any moment of a call: while a block moves, both its places are taken. */
  function Trough(s: Pool, h: nat, pool: nat, op: Op): int {
    if op.DoRealloc? && op.ptr != NULL && Live(s, h, op.ptr) && op.size != 0
       && Realloc(s, h, pool, op.ptr, op.size).1 != op.ptr
    then Alloc(s, h, pool, RequestSize(op.size)).0.avail
    else Step(s, h, pool, op).avail
  }

  /** `max_used_size` is the high-water mark: it rises exactly when a call uses more than ever before. */
  lemma HighWater(s: Pool, h: nat, pool: nat, op: Op)
    requires MINIALLOC <= h && Inv(s, h, pool) && !Breaks(s, h, op)
    ensures Step(s, h, pool, op).maxUsed == Max(s.maxUsed, pool - Trough(s, h, pool, op))
  {
    hide RequestSize, AllocAt, FreeAt, ResizeAt, FirstFit, GrowWrapped, Listed, Canonical, FreeBytes, Remove, IndexOf;
    match op {
      case DoAlloc(size) => AllocWater(s, h, pool, size);
      case DoFree(ptr) => if Live(s, h, ptr) { FreeWater(s, h, pool, ptr); }
      case DoRealloc(ptr, size) =>
        if ptr == NULL && size != 0 {
          AllocWater(s, h, pool, RequestSize(size));
        } else if Live(s, h, ptr) {
          FreeWater(s, h, pool, ptr);
          if size != 0 {
            LivePositive(s, h, pool, ptr);
            ReallocWater(s, h, pool, ptr, size);
          }
        }
    }
  }

  lemma AllocWater(s: Pool, h: nat, pool: nat, request: nat)
    requires Inv(s, h, pool)
    ensures var t := Alloc(s, h, pool, request).0; t.maxUsed == Max(s.maxUsed, pool - t.avail)
  {
    hide RequestSize, AllocAt, FirstFit, Listed, Canonical, FreeBytes, Remove;
  }

  lemma FreeWater(s: Pool, h: nat, pool: nat, ptr: int)
    requires Inv(s, h, pool) && Live(s, h, ptr)
    ensures var t := Free(s, h, ptr); t.maxUsed == s.maxUsed == Max(s.maxUsed, pool - t.avail)
  {
    hide FreeAt, Listed, Coalesced, FreeBytes, Remove;
    BlockBounds(s.chain, h, pool - h, IndexOf(s.chain, ptr - h));
  }

  lemma ReallocWater(s: Pool, h: nat, pool: nat, ptr: int, request: nat)
    requires Inv(s, h, pool) && Live(s, h, ptr) && !GrowWraps(s, h, ptr, request)
    ensures var (t, r) := Realloc(s, h, pool, ptr, request);
            var least := if r != ptr then Alloc(s, h, pool, RequestSize(request)).0.avail else t.avail;
            t.maxUsed == Max(s.maxUsed, pool - least)
  {
    hide Inv, Alloc, Free, RequestSize, ResizeAt, Live, BlockOf, GrowWrapped;
    var size, i := RequestSize(request), IndexOf(s.chain, ptr - h);
    RequestSizeStable(request);
    LiveIndex(s, h, ptr);
    WaterNow(s, h, pool);
    if size > Size(s.chain[i], h) && !GrowsInPlace(s, h, i, size) {
      MoveAnswers(s, h, pool, ptr, size);
      AllocWater(s, h, pool, size);
      AllocInv(s, h, pool, size);
      if Alloc(s, h, pool, size).1 != NULL {
        FreeWater(Alloc(s, h, pool, size).0, h, pool, ptr);
      }
    }
  }

  lemma WaterNow(s: Pool, h: nat, pool: nat)
    requires Inv(s, h, pool)
    ensures pool - s.avail <= s.maxUsed
  {
  }

  /** The trough of call `k` of a run. */
  function TroughAt(s: Pool, h: nat, pool: nat, ops: seq<Op>, k: nat): int
    requires k < |ops|
  {
    Trough(Run(s, h, pool, ops[..k]), h, pool, ops[k])
  }

  lemma TroughBefore(s: Pool, h: nat, pool: nat, ops: seq<Op>, n: nat)
    requires n <= |ops|
    ensures forall k :: 0 <= k < n ==> TroughAt(s, h, pool, ops[..n], k) == TroughAt(s, h, pool, ops, k)
  {
    hide Trough, Run;
    forall k | 0 <= k < n ensures TroughAt(s, h, pool, ops[..n], k) == TroughAt(s, h, pool, ops, k) {
      assert ops[..n][..k] == ops[..k];
    }
  }

  lemma TroughLast(s: Pool, h: nat, pool: nat, ops: seq<Op>)
    requires ops != []
    ensures TroughAt(s, h, pool, ops, |ops| - 1) == Trough(Run(s, h, pool, ops[..|ops| - 1]), h, pool, ops[|ops| - 1])
  {
  }

  /** Over a run that keeps the heap whole: nothing went above the mark, and some moment reached it. */
  lemma {:induction false} RunHighWater(h: nat, pool: nat, ops: seq<Op>)
    requires MINIALLOC <= h && 2 * h <= pool && Harmless(Init(h, pool), h, pool, ops)
    ensures var s0 := Init(h, pool); var m := Run(s0, h, pool, ops).maxUsed;
            && (forall k :: 0 <= k < |ops| ==> pool - TroughAt(s0, h, pool, ops, k) <= m)
            && (m == 2 * h || exists k :: 0 <= k < |ops| && m == pool - TroughAt(s0, h, pool, ops, k))
  {
    hide Inv, Trough, TroughAt, Step, Breaks;
    var s0 := Init(h, pool);
    if ops != [] {
      var n := |ops| - 1;
      RunHighWater(h, pool, ops[..n]);
      RunInv(h, pool, ops[..n]);
      AlwaysNow(s0, h, pool, ops[..n]);
      TroughBefore(s0, h, pool, ops, n);
      HighWater(Run(s0, h, pool, ops[..n]), h, pool, ops[n]);
      TroughLast(s0, h, pool, ops);
    }
  }

  /** No call of the run breaks the heap. */
  predicate Harmless(s: Pool, h: nat, pool: nat, ops: seq<Op>) {
    || ops == []
    || (&& Harmless(s, h, pool, ops[..|ops| - 1])
        && !Breaks(Run(s, h, pool, ops[..|ops| - 1]), h, ops[|ops| - 1]))
  }

  /** The invariant holds after every prefix of the run. */
  ghost predicate AlwaysInv(s: Pool, h: nat, pool: nat, ops: seq<Op>) {
    Inv(Run(s, h, pool, ops), h, pool) && (ops == [] || AlwaysInv(s, h, pool, ops[..|ops| - 1]))
  }

  /** The two lists and the counters agree all through a run exactly when no call of it breaks the heap. */
  lemma {:induction false} RunInv(h: nat, pool: nat, ops: seq<Op>)
    requires MINIALLOC <= h && 2 * h <= pool
    ensures AlwaysInv(Init(h, pool), h, pool, ops) <==> Harmless(Init(h, pool), h, pool, ops)
  {
    hide Inv, Step, Breaks;
    if ops == [] {
      InitInv(h, pool);
    } else {
      RunInv(h, pool, ops[..|ops| - 1]);
      var s := Run(Init(h, pool), h, pool, ops[..|ops| - 1]);
      if AlwaysInv(Init(h, pool), h, pool, ops[..|ops| - 1]) {
        AlwaysNow(Init(h, pool), h, pool, ops[..|ops| - 1]);
        StepInv(s, h, pool, ops[|ops| - 1]);
      }
    }
  }

  lemma AlwaysNow(s: Pool, h: nat, pool: nat, ops: seq<Op>)
    requires AlwaysInv(s, h, pool, ops)
    ensures Inv(Run(s, h, pool, ops), h, pool)
  {
  }

  const SAFE_REQUEST := WORD - MINIALLOC - ALIGN

  /** Runs that reallocate to at most 0xfffffff0 bytes are harmless. */
  lemma {:induction false} SmallHarmless(s: Pool, h: nat, pool: nat, ops: seq<Op>)
    requires forall op :: op in ops && op.DoRealloc? ==> op.size <= SAFE_REQUEST
    ensures Harmless(s, h, pool, ops)
  {
    if ops != [] {
      var op := ops[|ops| - 1];
      assert op in ops;
      SmallHarmless(s, h, pool, ops[..|ops| - 1]);
      if op.DoRealloc? {
        hide Live, GrowsInPlace, IndexOf, Run;
        AlignCovers(op.size);
      }
    }
  }
}
