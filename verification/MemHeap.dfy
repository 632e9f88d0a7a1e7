/**
 The boundary-tag heap object of `memheap.c`: block headers in the pool itself, chained in
 address order through `next`/`prev` and, while free, through `nextFree`/`prevFree` into a
 ring that starts at the heap's own header. Addresses are offsets into the pool.
 */
module MemHeap {
  import opened BlockChain
  import opened HeaderLinks
  import opened HeapBytes
  import opened Seqs
  import Spec = MemHeapSpec
  import Words

  const HEAD := -1  // &heap->free_header, which lies outside the pool
  const NULL := Spec.NULL

  /** The part of `struct rt_memheap_item` that belongs to the free list. */
  datatype FreeLink = FreeLink(next: int, prev: int)

  type FreeLinks = map<int, FreeLink>

  // ---------------------------------------------------------------------------------
  // The free ring
  // ---------------------------------------------------------------------------------

  /** Entry `k` of the ring; the heap's header precedes the first and follows the last. */
  function At(f: seq<nat>, k: int): int {
    if 0 <= k < |f| then f[k] else HEAD
  }

  ghost predicate Ring(m: FreeLinks, f: seq<nat>) {
    && (forall k :: At(f, k) in m)
    && (forall k, n :: -1 <= k < |f| && n == k + 1 ==> m[At(f, k)].next == At(f, n) && m[At(f, n)].prev == At(f, k))
  }

  lemma RingAt(m: FreeLinks, f: seq<nat>, k: int)
    requires Ring(m, f) && -1 <= k < |f|
    ensures At(f, k) in m && At(f, k + 1) in m && m[At(f, k)].next == At(f, k + 1) && m[At(f, k + 1)].prev == At(f, k)
  {
  }

  /** Taking an entry out by linking its neighbours to each other. */
  lemma RingRemove(m: FreeLinks, m2: FreeLinks, f: seq<nat>, k: nat)
    requires Ring(m, f) && NoDup(f) && k < |f|
    requires forall q :: q in m ==> q in m2
    requires forall q :: q in m && q != At(f, k - 1) && q != f[k] ==> m2[q].next == m[q].next
    requires forall q :: q in m && q != At(f, k + 1) && q != f[k] ==> m2[q].prev == m[q].prev
    requires At(f, k - 1) in m2 && m2[At(f, k - 1)].next == At(f, k + 1)
    requires At(f, k + 1) in m2 && m2[At(f, k + 1)].prev == At(f, k - 1)
    ensures Ring(m2, f[..k] + f[k + 1..])
  {
    var g := f[..k] + f[k + 1..];
    forall j ensures At(g, j) in m2 {
      assert At(g, j) == if j < k then At(f, j) else At(f, j + 1);
    }
    forall j, n | -1 <= j < |g| && n == j + 1
      ensures m2[At(g, j)].next == At(g, n) && m2[At(g, n)].prev == At(g, j)
    {
      assert At(g, j) == if j < k then At(f, j) else At(f, j + 1);
      assert At(g, n) == if n < k then At(f, n) else At(f, n + 1);
      if n < k {
        assert m[At(f, j)].next == At(f, n);
      } else if n > k {
        assert m[At(f, j + 1)].next == At(f, n + 1);
      }
    }
  }

  /** Putting an entry between the heap's header and the first entry. */
  lemma RingPush(m: FreeLinks, m2: FreeLinks, f: seq<nat>, p: nat)
    requires Ring(m, f) && NoDup(f) && p !in f
    requires p in m2 && forall q :: q in m ==> q in m2
    requires forall q :: q in m && q != HEAD && q != p ==> m2[q].next == m[q].next
    requires forall q :: q in m && q != At(f, 0) && q != p ==> m2[q].prev == m[q].prev
    requires At(f, -1) in m2 && m2[HEAD].next == p && m2[p].prev == HEAD
    requires At(f, 0) in m2 && m2[p].next == At(f, 0) && m2[At(f, 0)].prev == p
    ensures Ring(m2, [p] + f)
  {
    var g := [p] + f;
    forall j ensures At(g, j) in m2 {
      assert At(g, j) == if j == 0 then p else At(f, j - 1);
    }
    forall j, n | -1 <= j < |g| && n == j + 1
      ensures m2[At(g, j)].next == At(g, n) && m2[At(g, n)].prev == At(g, j)
    {
      assert At(g, j) == if j == 0 then p else At(f, j - 1);
      assert At(g, n) == if n == 0 then p else At(f, n - 1);
      if j > 0 {
        assert m[At(f, j - 1)].next == At(f, n - 1);
      }
    }
  }

  /** Writing the links of a header that is not in the ring does not disturb it. */
  lemma RingPut(m: FreeLinks, f: seq<nat>, p: int, it: FreeLink)
    requires Ring(m, f) && p != HEAD && p !in f
    ensures Ring(m[p := it], f)
  {
    var m2 := m[p := it];
    forall k, n | -1 <= k < |f| && n == k + 1 ensures m2[At(f, k)].next == At(f, n) && m2[At(f, n)].prev == At(f, k) {
      assert m[At(f, k)].next == At(f, n) && m[At(f, n)].prev == At(f, k);
      assert At(f, k) != p && At(f, n) != p;
    }
  }

  lemma RemovedAt(f: seq<nat>, k: nat)
    requires NoDup(f) && k < |f|
    ensures var g := f[..k] + f[k + 1..];
            NoDup(g) && f[k] !in g && (forall q :: q in g ==> q in f) && Remove(f, f[k]) == g
  {
    RemoveAt(f, k);
    RemoveNoDup(f, f[k]);
  }

  /** No block begins inside the header of another. */
  lemma InsideNoStart(c: seq<Block>, h: nat, end: nat, i: nat, n: nat, j: nat)
    requires Tiles(c, h, end) && i < |c| && j < |c| && c[i].start < n < c[i].start + h
    ensures c[j].start != n
  {
    hide Tiles;
    BlockBounds(c, h, end, i);
    if i < j {
      OrderedPair(c, h, end, i, j);
    } else if j < i {
      OrderedPair(c, h, end, j, i);
      BlockBounds(c, h, end, j);
    }
  }

  /** Where the address of the new header wraps to. */
  lemma InsideHeader(p: nat, h: nat, pool: nat, size: nat)
    requires Spec.MINIALLOC < h && p + h <= pool < Words.WORD && Words.WORD - Spec.MINIALLOC <= size < Words.WORD
    ensures p < (p + h + size) % Words.WORD < p + h
  {
    assert (p + h + size) % Words.WORD == p + h + size - Words.WORD;
  }

  /** The free ring of `f`, whose headers may be written in a pool of `len` bytes. */
  ghost predicate FreeRing(m: FreeLinks, f: seq<nat>, live: set<Block>, h: nat, len: nat) {
    Ring(m, f) && NoDup(f) && forall q :: q in f ==> Safe(live, q, h, len)
  }

  // ---------------------------------------------------------------------------------
  // The heap
  // ---------------------------------------------------------------------------------

  class Heap {
    const h: nat            // RT_MEMHEAP_SIZE, the size of a header
    const pool: nat         // pool_size
    const data: array<Byte> // the pool, headers included

    var links: Links        // magic, next and prev of the headers, by address
    var rings: FreeLinks    // next_free and prev_free of the headers and of free_header
    var available: int      // available_size
    var maxUsed: int        // max_used_size

    ghost var chain: seq<Block>  // the blocks in address order
    ghost var free: seq<nat>     // the free list, most recently freed first

    ghost function View(): Spec.Pool
      reads this
    {
      Spec.Pool(chain, free, available, maxUsed)
    }

    ghost predicate Valid()
      reads this
    {
      && data.Length == pool < Words.WORD && Spec.MINIALLOC < h && Spec.Inv(View(), h, pool)
      && Linked(links, chain, pool - h, true) && Ring(rings, free)
    }

    /** `rt_memheap_init`: one free block over the whole pool, closed by the used tail. */
    constructor (headerSize: nat, size: nat)
      requires Spec.MINIALLOC < headerSize && 2 * headerSize <= size - size % Words.ALIGN && size < Words.WORD
      ensures h == headerSize && pool == size - size % Words.ALIGN && fresh(data)
      ensures Valid() && View() == Spec.Init(h, pool)
    {
      var n := size - size % Words.ALIGN;
      h, pool := headerSize, n;
      data := new Byte[n](i => 0);
      available, maxUsed := n - 2 * headerSize, 2 * headerSize;
      links := map[0 := Link(false, n - headerSize, n - headerSize), n - headerSize := Link(true, 0, 0)];
      rings := map[HEAD := FreeLink(0, 0), 0 := FreeLink(HEAD, HEAD), n - headerSize := FreeLink(NULL, NULL)];
      chain, free := [Block(0, n - headerSize, false)], [0];
      new;
      Spec.InitInv(h, pool);
      forall k ensures At(free, k) in rings {
        assert At(free, k) == HEAD || At(free, k) == 0;
      }
    }

    // -------------------------------------------------------------------------------
    // Headers
    // -------------------------------------------------------------------------------

    method PutLink(p: nat, it: Link, ghost live: set<Block>, ghost d0: seq<Byte>)
      requires Safe(live, p, h, data.Length) && Kept(live, h, d0, data[..])
      modifies this`links, data
      ensures links == old(links)[p := it] && Kept(live, h, d0, data[..])
    {
      links := links[p := it];
      PutHeader(data, p, h, 0, [if it.used then 0x1ea01ea1 else 0x1ea01ea0, 0, it.next, it.prev], live, d0);
    }

    /** The header of the heap itself lies outside the pool. */
    method PutFree(p: int, it: FreeLink, ghost live: set<Block>, ghost d0: seq<Byte>)
      requires (p != HEAD ==> Safe(live, p, h, data.Length)) && Kept(live, h, d0, data[..])
      modifies this`rings, data
      ensures rings == old(rings)[p := it] && Kept(live, h, d0, data[..])
    {
      rings := rings[p := it];
      if p != HEAD {
        PutHeader(data, p, h, 16, [it.next, it.prev], live, d0);
      }
    }

    /** Take entry `p` out of the free ring. */
    method UnlinkFree(p: nat, ghost f: seq<nat>, ghost k: nat, ghost live: set<Block>, ghost d0: seq<Byte>)
      requires FreeRing(rings, f, live, h, data.Length) && k < |f| && f[k] == p && Kept(live, h, d0, data[..])
      modifies this`rings, data
      ensures FreeRing(rings, f[..k] + f[k + 1..], live, h, data.Length) && Kept(live, h, d0, data[..])
    {
      hide Kept, Safe;
      RingAt(rings, f, k - 1);
      RingAt(rings, f, k);
      var next, prev := rings[p].next, rings[p].prev;
      PutFree(next, rings[next].(prev := prev), live, d0);
      PutFree(prev, rings[prev].(next := next), live, d0);
      RingRemove(old(rings), rings, f, k);
      RemovedAt(f, k);
    }

    /** Take `p` out of the free ring and clear its free links. */
    method DetachFree(p: nat, ghost f: seq<nat>, ghost k: nat, ghost live: set<Block>, ghost d0: seq<Byte>)
      requires FreeRing(rings, f, live, h, data.Length) && k < |f| && f[k] == p && Kept(live, h, d0, data[..])
      modifies this`rings, data
      ensures FreeRing(rings, f[..k] + f[k + 1..], live, h, data.Length) && Kept(live, h, d0, data[..])
    {
      hide Kept, Safe, Ring;
      RemovedAt(f, k);
      UnlinkFree(p, f, k, live, d0);
      RingPut(rings, f[..k] + f[k + 1..], p, FreeLink(NULL, NULL));
      PutFree(p, FreeLink(NULL, NULL), live, d0);
    }

    /** Put `p` at the front of the free ring. */
    method PushFree(p: nat, ghost f: seq<nat>, ghost live: set<Block>, ghost d0: seq<Byte>)
      requires FreeRing(rings, f, live, h, data.Length) && p !in f && Safe(live, p, h, data.Length)
      requires Kept(live, h, d0, data[..])
      modifies this`rings, data
      ensures FreeRing(rings, [p] + f, live, h, data.Length) && Kept(live, h, d0, data[..])
    {
      hide Kept, Safe;
      RingAt(rings, f, -1);
      var first := rings[HEAD].next;
      PutFree(p, FreeLink(first, HEAD), live, d0);
      PutFree(first, rings[first].(prev := p), live, d0);
      PutFree(HEAD, rings[HEAD].(next := p), live, d0);
      RingPush(old(rings), rings, f, p);
    }

    /** Put a free block at `n` behind the block at `p` into the address list. */
    method InsertBehind(p: nat, n: nat, ghost live: set<Block>, ghost d0: seq<Byte>)
      requires p in links && links[p].next in links && n != p && 0 <= links[p].next && n != links[p].next
      requires p != links[p].next
      requires Safe(live, p, h, data.Length) && Safe(live, n, h, data.Length)
      requires Safe(live, links[p].next, h, data.Length)
      requires Kept(live, h, d0, data[..])
      modifies this`links, data
      ensures links == Inserted(old(links), p, n, true) && Kept(live, h, d0, data[..])
    {
      hide Kept, Safe;
      var q := links[p].next;
      PutLink(n, Link(false, q, p), live, d0);
      PutLink(q, links[q].(prev := n), live, d0);
      PutLink(p, links[p].(next := n), live, d0);
    }

    /** Let the block at `a` swallow the block at `p` that follows it in the address list. */
    method Join(a: nat, p: nat, ghost live: set<Block>, ghost d0: seq<Byte>)
      requires a in links && p in links && links[p].next in links && 0 <= links[p].next
      requires Safe(live, a, h, data.Length) && Safe(live, links[p].next, h, data.Length)
      requires Kept(live, h, d0, data[..])
      modifies this`links, data
      ensures links == Joined(old(links), a, p) && Kept(live, h, d0, data[..])
    {
      hide Kept, Safe;
      var r := links[p].next;
      PutLink(a, links[a].(next := r), live, d0);
      PutLink(r, links[r].(prev := a), live, d0);
    }

    /** The running counters when `n` bytes are taken. */
    method Consume(n: int)
      modifies this`available, this`maxUsed
      ensures available == old(available) - n && maxUsed == Words.Max(old(maxUsed), pool - available)
    {
      available := available - n;
      if pool - available > maxUsed {
        maxUsed := pool - available;
      }
    }

    // -------------------------------------------------------------------------------
    // The invariant, taken apart and put together
    // -------------------------------------------------------------------------------

    lemma ValidParts()
      requires Valid()
      ensures Spec.Inv(View(), h, pool) && Linked(links, chain, pool - h, true) && Ring(rings, free)
      ensures Tiles(chain, h, pool - h) && NoDup(free) && Spec.MINIALLOC < h
      ensures 2 * h <= pool == data.Length < Words.WORD
      ensures FreeRing(rings, free, UsedSet(chain), h, pool)
    {
      hide Linked, Ring, FreeBytes, FreeStarts, Covers, Safe, UsedSet;
      forall q | q in free ensures Safe(UsedSet(chain), q, h, pool) {
        Spec.FreeEntry(View(), h, pool, q);
        SafeBlock(chain, h, pool - h, IndexOf(chain, q));
      }
    }

    /** The heap is valid when its view is a valid pool and its headers were rewritten to it. */
    lemma MakeValid(v: Spec.Pool, c: seq<Block>, m: Links, lo: nat, hi: nat, mid: seq<Block>, live: set<Block>)
      requires v == View() && Spec.Inv(v, h, pool) && data.Length == pool && FreeRing(rings, v.free, live, h, pool)
      requires Spec.MINIALLOC < h && h <= pool < Words.WORD && Tiles(c, h, pool - h) && Linked(m, c, pool - h, true)
      requires lo < hi <= |c|
      requires Covers(mid, h, c[lo].start, c[hi - 1].next) && Relinked(m, links, mid, pool - h, true)
      requires v.chain == Splice(c, lo, hi, mid)
      ensures Valid()
    {
      hide Spec.Inv, Covers, Relinked, Linked, Ring, Safe, Splice;
      LinkedSplice(m, links, c, lo, hi, mid, h, pool - h, true);
    }

    // -------------------------------------------------------------------------------
    // Allocation
    // -------------------------------------------------------------------------------

    /** The search loop (lines 176-187). */
    method Search(size: nat) returns (p: int, freeSize: int)
      requires Valid() && 0 < size
      ensures size <= freeSize <==> Spec.FirstFit(free, chain, h, size) < |free|
      ensures size <= freeSize ==> p == free[Spec.FirstFit(free, chain, h, size)] && var i := IndexOf(chain, p);
                i < |chain| && chain[i].start == p && !chain[i].used && freeSize == Size(chain[i], h)
    {
      hide Valid, FreeRing, Ring, Spec.Inv, Linked, Tiles, Spec.FirstFit, NoDup, UsedSet, IndexOf;
      ghost var v := View();
      ValidParts();
      freeSize := 0;
      RingAt(rings, free, -1);
      p := rings[HEAD].next;
      ghost var k := 0;
      while p != HEAD && freeSize < size
        invariant k <= |free| && p == At(free, k)
        invariant forall j :: 0 <= j < k ==> !Spec.Fits(chain, free[j], h, size)
        invariant freeSize >= size ==> k < |free| && freeSize == Size(Spec.BlockAt(chain, p), h)
        decreases |free| - k, size - freeSize
      {
        Spec.FreeEntry(v, h, pool, p);
        LinksOf(links, chain, h, pool - h, true, IndexOf(chain, p));
        RingAt(rings, free, k);
        freeSize := links[p].next - p - h;
        if freeSize < size {
          p := rings[p].next;
          k := k + 1;
        }
      }
      if k < |free| {
        Spec.FreeEntry(v, h, pool, p);
      }
      Spec.FirstFitUnique(free, chain, h, size, k);
    }

    /** The found free block is larger than needed: split it (lines 195-235, 265). */
    method TakeSplit(p: nat, n: nat, ghost f: seq<nat>, ghost k: nat, ghost live: set<Block>)
      requires FreeRing(rings, f, live, h, data.Length) && k < |f| && f[k] == p && NoDup(f) && n !in f
      requires p in links && links[p].next in links && 0 <= p < n < links[p].next
      requires Safe(live, p, h, data.Length) && Safe(live, n, h, data.Length)
      requires Safe(live, links[p].next, h, data.Length)
      modifies this`links, this`rings, data
      ensures FreeRing(rings, [n] + (f[..k] + f[k + 1..]), live, h, data.Length)
      ensures links == Marked(Inserted(old(links), p, n, true), p, true)
      ensures Kept(live, h, old(data[..]), data[..])
    {
      hide FreeRing, Safe, Kept, NoDup;
      ghost var d0, g := data[..], f[..k] + f[k + 1..];
      KeptRefl(live, h, d0);
      RemovedAt(f, k);
      InsertBehind(p, n, live, d0);
      DetachFree(p, f, k, live, d0);
      PushFree(n, g, live, d0);
      PutLink(p, links[p].(used := true), live, d0);
    }

    /** The found free block is taken as it is (lines 258-265). */
    method TakeWhole(p: nat, ghost f: seq<nat>, ghost k: nat, ghost live: set<Block>)
      requires FreeRing(rings, f, live, h, data.Length) && k < |f| && f[k] == p && p in links
      requires Safe(live, p, h, data.Length)
      modifies this`links, this`rings, data
      ensures FreeRing(rings, f[..k] + f[k + 1..], live, h, data.Length) && links == Marked(old(links), p, true)
      ensures Kept(live, h, old(data[..]), data[..])
    {
      hide FreeRing, Safe, Kept;
      ghost var d0 := data[..];
      KeptRefl(live, h, d0);
      DetachFree(p, f, k, live, d0);
      PutLink(p, links[p].(used := true), live, d0);
    }

    /** Take the free block that was found (lines 190-265). */
    method TakeFound(p: nat, size: nat, freeSize: int, ghost k: nat, ghost request: nat)
      requires Valid() && size == Spec.RequestSize(request) && size < available
      requires k == Spec.FirstFit(free, chain, h, size) && k < |free| && p == free[k]
      requires var i := IndexOf(chain, p);
               i < |chain| && chain[i].start == p && !chain[i].used && size <= freeSize == Size(chain[i], h)
      modifies this, data
      ensures Valid() && (View(), p + h) == Spec.Alloc(old(View()), h, pool, request)
      ensures Kept(UsedSet(old(chain)), h, old(data[..]), data[..])
    {
      hide Valid, Safe, FreeRing, Ring, Kept, Relinked, Spec.Inv, Linked, Tiles, Covers, Splice, UsedSet, AllocMid,
           Inserted, Marked;
      hide Spec.Alloc, Spec.FirstFit, Spec.RequestSize, NoDup, Spec.Listed, IndexOf;
      ValidParts();
      ghost var i, v, c, f, m, live, end := IndexOf(chain, p), View(), chain, free, links, UsedSet(chain), pool - h;
      ghost var v2, b, mid := Spec.Alloc(v, h, pool, request).0, c[i], AllocMid(c[i], h, Spec.MINIALLOC, size);
      Spec.AllocShape(v, h, pool, request, k, i);
      Spec.AllocInv(v, h, pool, request);
      LinksOf(m, c, h, end, true, i);
      AllocMidCovers(b, h, Spec.MINIALLOC, size);
      SafeBlock(c, h, end, i);
      if freeSize >= size + h + Spec.MINIALLOC {
        var n := p + size + h;
        SafeInside(c, h, end, i, n);
        Spec.InvListed(v, h, pool);
        Spec.FreshStart(c, h, end, i, n, f);
        RelinkSplit(m, p, n, b.next, true, end, true);
        TakeSplit(p, n, f, k, live);
        Consume(size + h);
      } else {
        RelinkWhole(m, b, end, true);
        TakeWhole(p, f, k, live);
        Consume(freeSize);
      }
      chain, free := v2.chain, v2.free;
      MakeValid(v2, c, m, i, i + 1, mid, live);
    }

    /** `rt_memheap_alloc`. */
    method Alloc(request: nat) returns (r: int)
      requires Valid()
      modifies this, data
      ensures Valid() && (View(), r) == Spec.Alloc(old(View()), h, pool, request)
      ensures Kept(UsedSet(old(chain)), h, old(data[..]), data[..])
    {
      hide Valid, Kept, UsedSet, IndexOf, Spec.FirstFit, AllocAt, Remove;
      KeptRefl(UsedSet(chain), h, data[..]);
      var size := Words.AlignUp(request);
      if size < Spec.MINIALLOC {
        size := Spec.MINIALLOC;
      }
      r := NULL;
      if size < available {
        var p, freeSize := Search(size);
        if freeSize >= size {
          ghost var k := Spec.FirstFit(free, chain, h, size);
          TakeFound(p, size, freeSize, k, request);
          r := p + h;
        }
      }
    }

    // -------------------------------------------------------------------------------
    // Release
    // -------------------------------------------------------------------------------

    /** The headers that releasing the block at `p` writes may be written. */
    ghost predicate Releasable(m: Links, p: nat, f: seq<nat>, k: nat, live: set<Block>)
      requires Around(m, p)
    {
      && Safe(live, p, h, data.Length) && Safe(live, m[p].next, h, data.Length)
      && Safe(live, MergedLo(m, p), h, data.Length) && Safe(live, MergedHi(m, p), h, data.Length)
      && (RightFree(m, p) ==> k < |f| && f[k] == m[p].next) && p !in f && m[p].prev != p
    }

    /**
     Mark the block at `p` free and merge it with its free neighbours (lines 536-592). The
     result is the number of bytes that became available.
     */
    method Release(p: nat, ghost f: seq<nat>, ghost k: nat, ghost live: set<Block>) returns (gained: int)
      requires Around(links, p) && Releasable(links, p, f, k, live) && FreeRing(rings, f, live, h, data.Length)
      requires NoDup(f)
      modifies this`links, this`rings, data
      ensures var m := old(links); var g := if RightFree(m, p) then f[..k] + f[k + 1..] else f;
              && gained == m[p].next - p - h + (if LeftFree(m, p) then h else 0) + (if RightFree(m, p) then h else 0)
              && FreeRing(rings, if LeftFree(m, p) then g else [p] + g, live, h, data.Length)
              && links == Released(m, p)
      ensures Kept(live, h, old(data[..]), data[..])
    {
      hide FreeRing, Kept, Safe, NoDup;
      ghost var d0, g := data[..], if RightFree(links, p) then f[..k] + f[k + 1..] else f;
      KeptRefl(live, h, d0);
      if RightFree(links, p) {
        RemovedAt(f, k);
      }
      PutLink(p, links[p].(used := false), live, d0);
      gained := links[p].next - p - h;
      var header, insert := p, true;
      if !links[links[p].prev].used {
        gained := gained + h;
        header, insert := links[p].prev, false;
        Join(header, p, live, d0);
      }
      var right := links[header].next;
      if !links[right].used {
        gained := gained + h;
        Join(header, right, live, d0);
        UnlinkFree(right, f, k, live, d0);
      }
      if insert {
        PushFree(header, g, live, d0);
      }
    }

    lemma ReleasableOf(i: nat)
      requires Valid() && i < |chain| && chain[i].used && Around(links, chain[i].start)
      ensures var c, live := chain, UsedSet(chain) - {chain[i]};
              var hi := FreeHi(c, i); var k := if hi == i + 2 then Find(free, c[i + 1].start) else 0;
              && Releasable(links, c[i].start, free, k, live) && FreeRing(rings, free, live, h, data.Length)
              && (hi == i + 2 ==> k < |free| && Remove(free, c[i + 1].start) == free[..k] + free[k + 1..])
    {
      hide Valid, Linked, Ring, Around, Safe, Tiles, Spec.Inv, UsedSet, MergedLo, MergedHi, LeftFree, RightFree, NoDup;
      ValidParts();
      var c, u, b, end := chain, UsedSet(chain), chain[i], pool - h;
      var lo, hi := FreeLo(c, i), FreeHi(c, i);
      AroundOf(links, c, h, end, true, i);
      LinksOf(links, c, h, end, true, i);
      SafeBlock(c, h, end, lo);
      SafeBlock(c, h, end, i);
      SafeBlock(c, h, end, hi - 1);
      SafeLess(u, b, c[lo].start, h, pool);
      SafeLess(u, b, b.start, h, pool);
      SafeLess(u, b, b.next, h, pool);
      SafeLess(u, b, c[hi - 1].next, h, pool);
      forall q | q in free ensures Safe(u - {b}, q, h, pool) {
        SafeLess(u, b, q, h, pool);
      }
      Spec.FreeBlockListed(View(), h, pool, i);
      if hi == i + 2 {
        Spec.FreeBlockListed(View(), h, pool, i + 1);
        RemoveAt(free, Find(free, c[i + 1].start));
      }
    }

    /** `rt_memheap_free`. */
    method Free(ptr: int)
      requires Valid() && (ptr == NULL || Spec.Live(View(), h, ptr))
      modifies this, data
      ensures Valid()
      ensures View() == if ptr == NULL then old(View()) else Spec.Free(old(View()), h, ptr)
      ensures Kept(UsedSet(chain), h, old(data[..]), data[..])
    {
      hide Valid, Safe, FreeRing, Ring, Kept, Relinked, Spec.Inv, Linked, Tiles, Covers, Splice, UsedSet, Around,
           MergedLo, MergedHi;
      hide Spec.Free, NoDup, IndexOf, Spec.Live, Releasable, Find, Released, LeftFree, RightFree, Remove;
      KeptRefl(UsedSet(chain), h, data[..]);
      if ptr == NULL {
        return;
      }
      ValidParts();
      ghost var v, c, f, m, i, end := View(), chain, free, links, IndexOf(chain, ptr - h), pool - h;
      ghost var v2 := Spec.Free(v, h, ptr);
      Spec.FreeShape(v, h, pool, ptr, i);
      Spec.FreeInv(v, h, pool, ptr);
      Spec.FreeGives(v, h, pool, ptr, i);
      ghost var lo, hi, live := FreeLo(c, i), FreeHi(c, i), UsedSet(c) - {c[i]};
      ghost var k := if hi == i + 2 then Find(f, c[i + 1].start) else 0;
      ghost var mid := [Block(c[lo].start, c[hi - 1].next, false)];
      AroundOf(m, c, h, end, true, i);
      LinksOf(m, c, h, end, true, i);
      ReleasableOf(i);
      MergedCovers(c, h, end, i);
      RelinkFree(m, ptr - h, end, true);
      var gained := Release(ptr - h, f, k, live);
      available := available + gained;
      chain, free := v2.chain, v2.free;
      MakeValid(v2, c, m, lo, hi, mid, live);
    }

    // -------------------------------------------------------------------------------
    // Reallocation
    // -------------------------------------------------------------------------------

    /** What is needed to move the end of the block at `p` to `n`. */
    ghost predicate Resizable(m: Links, p: nat, n: nat, f: seq<nat>, k: nat, live: set<Block>)
      requires Around(m, p)
    {
      && p < n < MergedHi(m, p) && n != m[p].next && m[p].used && n !in f
      && Safe(live, p, h, data.Length) && Safe(live, n, h, data.Length)
      && Safe(live, m[p].next, h, data.Length) && Safe(live, MergedHi(m, p), h, data.Length)
      && (RightFree(m, p) ==> k < |f| && f[k] == m[p].next)
    }

    /** Lines 368-400: move the end of the block at `p` to `n` within its free right neighbour. */
    method Grow(p: nat, n: nat, ghost f: seq<nat>, ghost k: nat, ghost live: set<Block>)
      requires Around(links, p) && Resizable(links, p, n, f, k, live) && FreeRing(rings, f, live, h, data.Length)
      requires RightFree(links, p) && NoDup(f)
      modifies this`links, this`rings, data
      ensures FreeRing(rings, [n] + (f[..k] + f[k + 1..]), live, h, data.Length)
      ensures var e := Joined(old(links), p, old(links)[p].next); e[p].next in e && links == Inserted(e, p, n, true)
      ensures Kept(live, h, old(data[..]), data[..])
    {
      hide FreeRing, Kept, Safe, NoDup;
      ghost var d0, g := data[..], f[..k] + f[k + 1..];
      KeptRefl(live, h, d0);
      RemovedAt(f, k);
      var next := links[p].next;
      UnlinkFree(next, f, k, live, d0);
      Join(p, next, live, d0);
      InsertBehind(p, n, live, d0);
      PushFree(n, g, live, d0);
    }

    /** Lines 436-486: cut the block at `p` off at `n`; the rest joins a free right neighbour. */
    method Shrink(p: nat, n: nat, ghost f: seq<nat>, ghost k: nat, ghost live: set<Block>) returns (gained: int)
      requires Around(links, p) && Resizable(links, p, n, f, k, live) && FreeRing(rings, f, live, h, data.Length)
      requires n < links[p].next && NoDup(f)
      modifies this`links, this`rings, data
      ensures var m := old(links); var g := if RightFree(m, p) then f[..k] + f[k + 1..] else f;
              && gained == MergedHi(m, p) - n - h - (if RightFree(m, p) then MergedHi(m, p) - m[p].next - h else 0)
              && FreeRing(rings, [n] + g, live, h, data.Length) && links == Cut(m, p, n, true)
      ensures Kept(live, h, old(data[..]), data[..])
    {
      hide FreeRing, Kept, Safe, NoDup;
      ghost var d0, g := data[..], if RightFree(links, p) then f[..k] + f[k + 1..] else f;
      KeptRefl(live, h, d0);
      if RightFree(links, p) {
        RemovedAt(f, k);
      }
      gained := 0;
      InsertBehind(p, n, live, d0);
      var right := links[n].next;
      if !links[right].used {
        gained := gained - (links[right].next - right - h);
        Join(n, right, live, d0);
        UnlinkFree(right, f, k, live, d0);
      }
      PushFree(n, g, live, d0);
      gained := gained + (links[n].next - n - h);
    }

    lemma FreeRingGuard(i: nat, keep: nat)
      requires Valid() && i < |chain| && keep <= Size(chain[i], h)
      ensures FreeRing(rings, free, Guard(UsedSet(chain), chain[i], h, keep), h, pool)
    {
      hide Valid, Linked, Ring, Safe, Tiles, Spec.Inv, UsedSet, NoDup, Guard, IndexOf;
      ValidParts();
      forall q | q in free ensures Safe(Guard(UsedSet(chain), chain[i], h, keep), q, h, pool) {
        Spec.FreeEntry(View(), h, pool, q);
        var j := IndexOf(chain, q);
        BlockBounds(chain, h, pool - h, i);
        SafeLess(UsedSet(chain), chain[i], q, h, pool);
        if i < j {
          OrderedPair(chain, h, pool - h, i, j);
        } else if j < i {
          Spec.StartsApart(chain, h, pool - h, j, i);
        }
        SafeGuard(UsedSet(chain), chain[i], keep, q, h, pool);
      }
    }

    /** Everything an in-place change of block `i` to `size` data bytes needs. */
    lemma ResizableOf(i: nat, size: nat, keep: nat)
      requires Valid() && i < |chain| && chain[i].used && Around(links, chain[i].start)
      requires chain[i].start + h + size + h <= Reach(chain, i) && keep <= size && keep <= Size(chain[i], h)
      requires size + h <= Size(chain[i], h) || Size(chain[i], h) < size
      ensures var c, live := chain, Guard(UsedSet(chain), chain[i], h, keep);
              var hi := FreeHi(c, i); var k := if hi == i + 2 then Find(free, c[i + 1].start) else 0;
              && Resizable(links, c[i].start, c[i].start + h + size, free, k, live)
              && (hi == i + 2 ==> k < |free| && Remove(free, c[i + 1].start) == free[..k] + free[k + 1..])
    {
      hide Valid, Linked, Ring, Around, Safe, Tiles, Spec.Inv, UsedSet, MergedLo, MergedHi, NoDup, Guard, FreeRing,
           LeftFree, RightFree;
      ValidParts();
      var c, u, b, end := chain, UsedSet(chain), chain[i], pool - h;
      AroundOf(links, c, h, end, true, i);
      LinksOf(links, c, h, end, true, i);
      ReleasableOf(i);
      SafeNew(i, size);
      SafeGuard(u, b, keep, b.start, h, pool);
      SafeGuard(u, b, keep, b.start + h + size, h, pool);
      SafeGuard(u, b, keep, b.next, h, pool);
      SafeGuard(u, b, keep, Reach(c, i), h, pool);
    }

    /** The new header of an in-place change is new and may be written. */
    lemma SafeNew(i: nat, size: nat)
      requires Valid() && i < |chain| && chain[i].used && (size + h <= Size(chain[i], h) || Size(chain[i], h) < size)
      requires chain[i].start + h + size + h <= Reach(chain, i)
      ensures var n := chain[i].start + h + size; Safe(UsedSet(chain) - {chain[i]}, n, h, pool) && n !in free
    {
      hide Valid, Linked, Ring, Safe, Tiles, Spec.Inv, UsedSet, NoDup, Spec.Listed, FreeRing;
      ValidParts();
      var n, end := chain[i].start + h + size, pool - h;
      BlockBounds(chain, h, end, i);
      var j := if n < chain[i].next then i else i + 1;
      SafeInside(chain, h, end, j, n);
      Spec.InvListed(View(), h, pool);
      Spec.FreshStart(chain, h, end, j, n, free);
      if j == i + 1 {
        SafeLess(UsedSet(chain), chain[i], n, h, pool);
      }
    }

    /** Lines 356-400: let the block at `p` grow into its free right neighbour. */
    method GrowBlock(p: nat, size: nat, ghost i: nat)
      requires Valid() && i < |chain| && chain[i].used && chain[i].start == p && 0 <= Size(chain[i], h)
      requires Size(chain[i], h) < size && chain[i].start + h + size + h <= Reach(chain, i)
      modifies this, data
      ensures Valid() && View() == Spec.Resize(old(View()), h, pool, i, size)
      ensures Kept(Guard(UsedSet(old(chain)), old(chain)[i], h, Size(old(chain)[i], h)), h, old(data[..]), data[..])
    {
      hide Valid, Safe, FreeRing, Ring, Kept, Relinked, Spec.Inv, Linked, Tiles, Covers, Splice, UsedSet, Around,
           MergedLo, MergedHi;
      hide Spec.Resize, NoDup, Resizable, Find, Remove, ResizeMid, Reach, Guard, Inserted, Joined, LeftFree, RightFree;
      ValidParts();
      ghost var v, c, f, m, end, keep := View(), chain, free, links, pool - h, Size(chain[i], h);
      ghost var v2, hi := Spec.Resize(v, h, pool, i, size), FreeHi(c, i);
      ghost var live, mid := Guard(UsedSet(c), c[i], h, keep), ResizeMid(c, i, h, size);
      ghost var k := if hi == i + 2 then Find(f, c[i + 1].start) else 0;
      Spec.ResizeShape(v, h, pool, i, size);
      Spec.ResizeInv(v, h, pool, i, size);
      ResizeMidCovers(c, i, h, size, end);
      AroundOf(m, c, h, end, true, i);
      LinksOf(m, c, h, end, true, i);
      ResizableOf(i, size, keep);
      FreeRingGuard(i, keep);
      RelinkGrow(m, p, p + h + size, end, true);
      var oldSize := links[p].next - p - h;
      Consume(size - oldSize);
      Grow(p, p + h + size, f, k, live);
      chain, free := v2.chain, v2.free;
      MakeValid(v2, c, m, i, hi, mid, live);
    }

    /**
     The same writes when the sum in the test has wrapped round: the new header lies inside the header
     of the block itself, and the heap is no longer valid.
     */
    method GrowInside(p: nat, size: nat, ghost i: nat)
      requires Valid() && i + 1 < |chain| && chain[i].used && chain[i].start == p && !chain[i + 1].used
      requires Words.WORD <= size + Spec.MINIALLOC && size < Words.WORD
      modifies this, data
      ensures View() == Spec.GrowWrapped(old(View()), h, pool, i, size)
      ensures p in links && links[p].next == (p + h + size) % Words.WORD
    {
      hide Valid, FreeRing, Ring, Kept, Relinked, Spec.Inv, Linked, Tiles, Covers, UsedSet, Around, MergedLo, MergedHi;
      hide NoDup, Find, Remove, LeftFree, RightFree, Resizable, Safe;
      ValidParts();
      ghost var v, k := View(), Find(free, chain[i + 1].start);
      var n := (p + h + size) % Words.WORD;
      AroundOf(links, chain, h, pool - h, true, i);
      LinksOf(links, chain, h, pool - h, true, i);
      LinksOf(links, chain, h, pool - h, true, i + 1);
      BlockBounds(chain, h, pool - h, i);
      InsideHeader(p, h, pool, size);
      InsideOf(i, n);
      var oldSize := links[p].next - p - h;
      available := (available - (size - oldSize)) % Words.WORD;
      if (pool - available) % Words.WORD > maxUsed {
        maxUsed := (pool - available) % Words.WORD;
      }
      Grow(p, n, free, k, {});
      ghost var v2 := Spec.GrowWrapped(v, h, pool, i, size);
      chain, free := v2.chain, v2.free;
    }

    lemma InsideOf(i: nat, n: nat)
      requires Valid() && i + 1 < |chain| && chain[i].used && !chain[i + 1].used && Around(links, chain[i].start)
      requires chain[i].start < n < chain[i].start + h
      ensures var k := Find(free, chain[i + 1].start);
              && Resizable(links, chain[i].start, n, free, k, {}) && FreeRing(rings, free, {}, h, data.Length)
              && RightFree(links, chain[i].start)
    {
      hide Valid, Linked, Ring, Around, Tiles, Spec.Inv, UsedSet, MergedLo, MergedHi, LeftFree, RightFree, NoDup,
           IndexOf;
      ValidParts();
      var c, end := chain, pool - h;
      AroundOf(links, c, h, end, true, i);
      LinksOf(links, c, h, end, true, i);
      BlockBounds(c, h, end, i);
      BlockBounds(c, h, end, i + 1);
      ReleasableOf(i);
      forall q | q in free ensures q != n {
        Spec.FreeEntry(View(), h, pool, q);
        InsideNoStart(c, h, end, i, n, IndexOf(c, q));
      }
    }

    /** Lines 436-489: cut the block at `p` down to `size` data bytes. */
    method ShrinkBlock(p: nat, size: nat, ghost i: nat)
      requires Valid() && i < |chain| && chain[i].used && chain[i].start == p
      requires size + h <= Size(chain[i], h) && chain[i].start + h + size + h <= Reach(chain, i)
      modifies this, data
      ensures Valid() && View() == Spec.Resize(old(View()), h, pool, i, size)
      ensures Kept(Guard(UsedSet(old(chain)), old(chain)[i], h, size), h, old(data[..]), data[..])
    {
      hide Valid, Safe, FreeRing, Ring, Kept, Relinked, Spec.Inv, Linked, Tiles, Covers, Splice, UsedSet, Around,
           MergedLo, MergedHi;
      hide Spec.Resize, NoDup, Resizable, Find, Remove, ResizeMid, Reach, Guard, Cut, LeftFree, RightFree;
      ValidParts();
      ghost var v, c, f, m, end := View(), chain, free, links, pool - h;
      ghost var v2, hi := Spec.Resize(v, h, pool, i, size), FreeHi(c, i);
      ghost var live, mid := Guard(UsedSet(c), c[i], h, size), ResizeMid(c, i, h, size);
      ghost var k := if hi == i + 2 then Find(f, c[i + 1].start) else 0;
      Spec.ResizeShape(v, h, pool, i, size);
      Spec.ResizeInv(v, h, pool, i, size);
      ResizeMidCovers(c, i, h, size, end);
      AroundOf(m, c, h, end, true, i);
      LinksOf(m, c, h, end, true, i);
      ResizableOf(i, size, size);
      FreeRingGuard(i, size);
      RelinkCut(m, p, p + h + size, true, end, true);
      var gained := Shrink(p, p + h + size, f, k, live);
      available := available + gained;
      chain, free := v2.chain, v2.free;
      MakeValid(v2, c, m, i, hi, mid, live);
    }

    /** Lines 412-420: allocate, copy, free. */
    method Move(ptr: nat, size: nat, oldSize: nat) returns (r: int)
      requires Valid() && Spec.Live(View(), h, ptr)
      requires oldSize == Size(Spec.BlockOf(View(), h, ptr), h) && oldSize < size == Spec.RequestSize(size)
      modifies this, data
      ensures Valid()
      ensures var (t, x) := Spec.Alloc(old(View()), h, pool, size);
              r == x && View() == if r == NULL || !Spec.Live(t, h, ptr) then t else Spec.Free(t, h, ptr)
      ensures Kept(UsedSet(old(chain)) - {Spec.BlockOf(old(View()), h, ptr)}, h, old(data[..]), data[..])
      ensures r != NULL ==> CopyOf(old(data[..]), ptr, data[..], r, oldSize)
    {
      hide Valid, Kept, CopyOf, UsedSet, Apart, Spec.Inv, Spec.Alloc, Spec.Free, Spec.Live, Spec.BlockOf,
           Spec.RequestSize, Linked, Ring, FreeRing, Tiles, NoDup;
      ghost var v, d0, b := View(), data[..], Spec.BlockOf(View(), h, ptr);
      ValidParts();
      r := Alloc(size);
      ghost var t, d1 := View(), data[..];
      if r != NULL {
        Spec.MoveFacts(v, h, pool, ptr, size);
        Copy(data, r, ptr, oldSize);
        ghost var d2 := data[..];
        Free(ptr);
        MoveBytes(UsedSet(v.chain), b, Spec.BlockOf(t, h, r), h, d0, d1, d2, data[..], oldSize);
      } else {
        KeptLess(UsedSet(v.chain), b, h, d0, d1);
      }
    }

    lemma Broken()
      requires !Spec.Inv(View(), h, pool)
      ensures !Valid()
    {
    }

    /** `rt_memheap_realloc` of a block in use, from line 314 on. */
    method ReallocBlock(ptr: nat, size: nat, ghost request: nat) returns (r: int)
      requires Valid() && Spec.Live(View(), h, ptr) && size == Spec.RequestSize(request)
      modifies this, data
      ensures (View(), r) == Spec.Realloc(old(View()), h, pool, ptr, request)
      ensures Spec.GrowWraps(old(View()), h, ptr, request) ==> !Valid()
      ensures !Spec.GrowWraps(old(View()), h, ptr, request) ==>
              Valid() && Kept(UsedSet(old(chain)) - {Spec.BlockOf(old(View()), h, ptr)}, h, old(data[..]), data[..])
      ensures !Spec.GrowWraps(old(View()), h, ptr, request) && r != NULL ==>
                var b := Spec.BlockOf(old(View()), h, ptr);
                && Size(b, h) >= 0
                && CopyOf(old(data[..]), ptr, data[..], r, if Size(b, h) < size then Size(b, h) else size)
    {
      hide Valid, Kept, CopyOf, UsedSet, Spec.Inv, Spec.Alloc, Spec.Free, Spec.BlockOf, IndexOf, Spec.Resize,
           Spec.RequestSize;
      hide Reach, Spec.Live, Linked, Ring, FreeRing, Tiles, NoDup, Guard, Spec.GrowWrapped;
      ValidParts();
      ghost var v, d0, i, end := View(), data[..], IndexOf(chain, ptr - h), pool - h;
      Spec.LiveIndex(v, h, ptr);
      ghost var u, b := UsedSet(chain), chain[i];
      LinksOf(links, chain, h, end, true, i);
      if i + 1 < |chain| {
        LinksOf(links, chain, h, end, true, i + 1);
      }
      Spec.RequestSizeStable(request);
      var p := ptr - h;
      var oldSize := links[p].next - p - h;
      if size > oldSize {
        var next := links[p].next;
        if !links[next].used && links[next].next - next - h + oldSize > (size + Spec.MINIALLOC) % Words.WORD {
          if Words.WORD <= size + Spec.MINIALLOC {
            Spec.RequestBounds(request);
            Spec.ReallocInv(v, h, pool, ptr, request);
            GrowInside(p, size, i);
            Broken();
            return ptr;
          }
          Spec.ReallocRoom(v, h, pool, i, size);
          GrowBlock(p, size, i);
          KeptGuard(u, b, oldSize, h, d0, data[..]);
          return ptr;
        }
        r := Move(ptr, size, oldSize);
        return;
      }
      if size + h + Spec.MINIALLOC >= oldSize {
        KeptRefl(u - {b}, h, d0);
        CopyRefl(d0, ptr, size);
        return ptr;
      }
      Spec.ReallocRoom(v, h, pool, i, size);
      ShrinkBlock(p, size, i);
      KeptGuard(u, b, size, h, d0, data[..]);
      return ptr;
    }

    /** `rt_memheap_realloc`. */
    method Realloc(ptr: int, request: nat) returns (r: int)
      requires Valid() && (ptr == NULL || Spec.Live(View(), h, ptr))
      modifies this, data
      ensures Valid() <==> !(request != 0 && ptr != NULL && Spec.GrowWraps(old(View()), h, ptr, request))
      ensures request == 0 ==>
              r == NULL && View() == if ptr == NULL then old(View()) else Spec.Free(old(View()), h, ptr)
      ensures request != 0 && ptr == NULL ==> (View(), r) == Spec.Alloc(old(View()), h, pool, Spec.RequestSize(request))
      ensures request != 0 && ptr != NULL ==> (View(), r) == Spec.Realloc(old(View()), h, pool, ptr, request)
      ensures Valid() ==> Kept(UsedSet(old(chain)) - {Spec.BlockOf(old(View()), h, ptr)}, h, old(data[..]), data[..])
      ensures Valid() && request != 0 && ptr != NULL && r != NULL ==>
                var b, size := Spec.BlockOf(old(View()), h, ptr), Spec.RequestSize(request);
                && Size(b, h) >= 0
                && CopyOf(old(data[..]), ptr, data[..], r, if Size(b, h) < size then Size(b, h) else size)
    {
      hide Valid, Kept, CopyOf, UsedSet, Spec.Inv, Spec.Alloc, Spec.Free, Spec.BlockOf, IndexOf, Spec.Realloc;
      hide Linked, Ring, FreeRing, Tiles, NoDup, Spec.Live, Spec.GrowWraps;
      ghost var v, d0, b := View(), data[..], Spec.BlockOf(View(), h, ptr);
      ValidParts();
      if request == 0 {
        Free(ptr);
        if ptr == NULL {
          KeptLess(UsedSet(v.chain), b, h, d0, data[..]);
        } else {
          Spec.FreeGives(v, h, pool, ptr, IndexOf(v.chain, ptr - h));
        }
        return NULL;
      }
      var size := Words.AlignUp(request);
      if size < Spec.MINIALLOC {
        size := Spec.MINIALLOC;
      }
      if ptr == NULL {
        r := Alloc(size);
        KeptLess(UsedSet(v.chain), b, h, d0, data[..]);
      } else {
        Spec.LiveIndex(v, h, ptr);
        r := ReallocBlock(ptr, size, request);
      }
    }
  }
}
