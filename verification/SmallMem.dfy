/**
 The small-memory heap of `mem.c`: block headers in the heap itself, chained by offsets,
 first fit from `lfree`, coalescing on release. The semaphore that serialises the calls is
 not part of this model: every method is one call under the lock.
 */
module SmallMem {
  import opened BlockChain
  import opened HeaderLinks
  import opened HeapBytes
  import Spec = SmallMemSpec
  import Words

  const NULL := Spec.NULL

  class Heap {
    const h: nat            // SIZEOF_STRUCT_MEM, the size of a header
    const mem: nat          // mem_size_aligned
    const end: nat          // offset of heap_end
    const data: array<Byte> // the heap, headers included

    var links: Links        // the headers, by offset
    var lfree: nat          // offset of the lowest free block
    var used: int           // used_mem
    var maxMem: int         // max_mem

    ghost var chain: seq<Block>

    ghost function View(): Spec.Heap
      reads this
    {
      Spec.Heap(chain, lfree, used, maxMem)
    }

    /** The heap must be able to hold a smallest block, or the search bound wraps. */
    ghost predicate Valid()
      reads this
    {
      && end == mem + h && data.Length == end + h && Spec.MIN <= mem
      && Spec.Inv(View(), h, end) && Linked(links, chain, end, false)
    }

    /** `rt_system_heap_init`, once the addresses are aligned. */
    constructor (headerSize: nat, memSize: nat)
      requires 0 < headerSize && Spec.MIN <= memSize
      ensures h == headerSize && mem == memSize && fresh(data)
      ensures Valid() && View() == Spec.Init(h, mem)
    {
      h, mem, end := headerSize, memSize, memSize + headerSize;
      data := new Byte[memSize + headerSize + headerSize](i => 0);
      links := map[0 := Link(false, memSize + headerSize, 0),
                   memSize + headerSize := Link(true, memSize + headerSize, memSize + headerSize)];
      lfree, used, maxMem := 0, 0, 0;
      chain := [Block(0, memSize + headerSize, false)];
      new;
      Spec.InitInv(h, mem);
    }

    lemma ValidParts()
      requires Valid()
      ensures Spec.Inv(View(), h, end) && Linked(links, chain, end, false) && Tiles(chain, h, end)
      ensures 0 < h && end == mem + h && data.Length == end + h && Spec.MIN <= mem && Spec.FreeOrEnd(chain, lfree, end)
    {
      hide Linked, Covers, UsedBytes, FreeStarts;
    }

    /** The heap is valid when its view is a valid one and its headers were rewritten to it. */
    lemma MakeValid(v: Spec.Heap, c: seq<Block>, m: Links, lo: nat, hi: nat, mid: seq<Block>)
      requires v == View() && Spec.Inv(v, h, end) && end == mem + h && data.Length == end + h && Spec.MIN <= mem
      requires 0 < h && Tiles(c, h, end) && Linked(m, c, end, false) && lo < hi <= |c|
      requires Covers(mid, h, c[lo].start, c[hi - 1].next) && Relinked(m, links, mid, end, false)
      requires v.chain == Splice(c, lo, hi, mid)
      ensures Valid()
    {
      hide Spec.Inv, Covers, Relinked, Linked, Splice;
      LinkedSplice(m, links, c, lo, hi, mid, h, end, false);
    }

    // -------------------------------------------------------------------------------
    // Headers
    // -------------------------------------------------------------------------------

    method PutLink(p: nat, it: Link, ghost live: set<Block>, ghost d0: seq<Byte>)
      requires Safe(live, p, h, data.Length) && Kept(live, h, d0, data[..])
      modifies this`links, data
      ensures links == old(links)[p := it] && Kept(live, h, d0, data[..])
    {
      links := links[p := it];
      PutHeader(data, p, h, 0, [if it.used then 0x11ea0 else 0x1ea0, it.next, it.prev], live, d0);
    }

    /** Put a free block at `n` behind the block at `p`; `prev` of `heap_end` is left alone. */
    method InsertBehind(p: nat, n: nat, ghost live: set<Block>, ghost d0: seq<Byte>)
      requires p in links && links[p].next in links && n != p && 0 <= links[p].next && n != links[p].next
      requires p != links[p].next
      requires Safe(live, p, h, data.Length) && Safe(live, n, h, data.Length)
      requires Safe(live, links[p].next, h, data.Length)
      requires Kept(live, h, d0, data[..])
      modifies this`links, data
      ensures links == Inserted(old(links), p, n, old(links)[p].next != end) && Kept(live, h, d0, data[..])
    {
      hide Kept, Safe;
      var q := links[p].next;
      PutLink(n, Link(false, q, p), live, d0);
      PutLink(p, links[p].(next := n), live, d0);
      if q != end {
        PutLink(q, links[q].(prev := n), live, d0);
      }
    }

    /** Let the block at `a` swallow the block at `p` behind it. */
    method Join(a: nat, p: nat, ghost live: set<Block>, ghost d0: seq<Byte>)
      requires a in links && p in links && links[p].next in links && 0 <= links[p].next
      requires Safe(live, a, h, data.Length) && Safe(live, links[p].next, h, data.Length)
      requires Kept(live, h, d0, data[..])
      modifies this`links, data
      ensures links == Joined(old(links), a, p) && Kept(live, h, d0, data[..])
    {
      hide Kept, Safe;
      var r := links[p].next;
      PutLink(a, links[a].(next := r), live, d0);
      PutLink(r, links[r].(prev := a), live, d0);
    }

    /** The headers that merging around `p` writes may be written. */
    ghost predicate Mergeable(m: Links, p: nat, live: set<Block>)
      requires Around(m, p)
    {
      && Safe(live, p, h, data.Length) && Safe(live, m[p].next, h, data.Length)
      && Safe(live, MergedLo(m, p), h, data.Length) && Safe(live, MergedHi(m, p), h, data.Length)
    }

    /** `plug_holes`: merge the free block at `p` with its free neighbours. */
    method PlugHoles(p: nat, ghost live: set<Block>, ghost d0: seq<Byte>)
      requires Around(links, p) && Mergeable(links, p, live) && !links[p].used && Kept(live, h, d0, data[..])
      requires end in links && links[end].used
      modifies this`links, this`lfree, data
      ensures var m := old(links);
              && links == Plugged(m, p)
              && lfree == (var l := if RightFree(m, p) && old(lfree) == m[p].next then p else old(lfree);
                           if LeftFree(m, p) && l == p then m[p].prev else l)
      ensures Kept(live, h, d0, data[..])
    {
      hide Kept, Safe;
      var next := links[p].next;
      if p != next && !links[next].used && next != end {
        if lfree == next {
          lfree := p;
        }
        Join(p, next, live, d0);
      }
      var prev := links[p].prev;
      if prev != p && !links[prev].used {
        if lfree == p {
          lfree := prev;
        }
        Join(prev, p, live, d0);
      }
    }

    // -------------------------------------------------------------------------------
    // Allocation
    // -------------------------------------------------------------------------------

    /** Lines 381-388: move `lfree` from the block just taken to the next free one. */
    method AdvanceLfree(ghost c: seq<Block>, ghost i: nat)
      requires 0 < h && Tiles(c, h, end) && Linked(links, c, end, false) && i < |c| && lfree == c[i].start
      modifies this`lfree
      ensures lfree == Spec.NextFree(c, c[i].start, end)
    {
      hide Tiles, Linked, Spec.NextFree;
      ghost var j, p := i, lfree;
      StartsBelow(c, h, end, i);
      LinksOf(links, c, h, end, false, i);
      while links[lfree].used && lfree != end
        invariant i <= j <= |c| && lfree == (if j < |c| then c[j].start else end) && lfree in links
        invariant j < |c| ==> links[lfree].used == c[j].used && links[lfree].next == c[j].next && p <= c[j].start
        invariant j == |c| ==> links[lfree].used
        invariant forall k :: 0 <= k < j ==> c[k].start < p || c[k].used
        decreases |c| - j
      {
        LinksOf(links, c, h, end, false, j);
        lfree := links[lfree].next;
        j := j + 1;
        if j < |c| {
          LinksOf(links, c, h, end, false, j);
        }
      }
      if j < |c| {
        LinksOf(links, c, h, end, false, j);
      }
      Spec.NextFreeUnique(c, p, end, j);
    }

    lemma StartsBelow(c: seq<Block>, h: nat, end: nat, i: nat)
      requires 0 < h && Tiles(c, h, end) && i < |c|
      ensures forall k :: 0 <= k < i ==> c[k].start < c[i].start
    {
      TilesOrdered(c, h, end);
    }

    method TakeSplit(p: nat, n: nat, ghost live: set<Block>)
      requires p in links && links[p].next in links && 0 <= p < n < links[p].next
      requires Safe(live, p, h, data.Length) && Safe(live, n, h, data.Length)
      requires Safe(live, links[p].next, h, data.Length)
      modifies this`links, data
      ensures links == Marked(Inserted(old(links), p, n, old(links)[p].next != end), p, true)
      ensures Kept(live, h, old(data[..]), data[..])
    {
      hide Safe, Kept;
      ghost var d0 := data[..];
      KeptRefl(live, h, d0);
      InsertBehind(p, n, live, d0);
      PutLink(p, links[p].(used := true), live, d0);
    }

    method TakeWhole(p: nat, ghost live: set<Block>)
      requires p in links && Safe(live, p, h, data.Length)
      modifies this`links, data
      ensures links == Marked(old(links), p, true) && Kept(live, h, old(data[..]), data[..])
    {
      hide Safe, Kept;
      KeptRefl(live, h, data[..]);
      PutLink(p, links[p].(used := true), live, data[..]);
    }

    /** Lines 312-388: take the block found by the search. */
    method Take(p: nat, size: nat, ghost i: nat, ghost request: nat)
      requires Valid() && !Spec.Refused(request, mem) && size == Spec.RequestSize(request)
      requires i == Spec.FirstFit(chain, lfree, h, mem, size) && i < |chain| && chain[i].start == p && !chain[i].used
      requires size <= Size(chain[i], h)
      modifies this, data
      ensures Valid() && (View(), p + h) == Spec.Malloc(old(View()), h, mem, request)
      ensures Kept(UsedSet(old(chain)), h, old(data[..]), data[..])
    {
      hide Valid, Safe, Kept, Relinked, Spec.Inv, Linked, Tiles, Covers, Splice, UsedSet, AllocMid, Inserted, Marked;
      hide Spec.Malloc, Spec.FirstFit, Spec.RequestSize, Spec.NextFree, Spec.Refused, Spec.FreeOrEnd;
      ValidParts();
      ghost var v, c, m, live, d0, b := View(), chain, links, UsedSet(chain), data[..], chain[i];
      ghost var v2, mid := Spec.Malloc(v, h, mem, request).0, AllocMid(b, h, Spec.MIN, size);
      Spec.MallocShape(v, h, mem, request, i);
      Spec.MallocInv(v, h, mem, request);
      LinksOf(m, c, h, end, false, i);
      AllocMidCovers(b, h, Spec.MIN, size);
      SafeBlock(c, h, end, i);
      Spec.InvTiles(v2, h, end);
      if links[p].next - (p + h) >= size + h + Spec.MIN {
        var n := p + h + size;
        SafeInside(c, h, end, i, n);
        RelinkSplit(m, p, n, b.next, b.next != end, end, false);
        TakeSplit(p, n, live);
        used := used + (size + h);
      } else {
        RelinkWhole(m, b, end, false);
        used := used + (links[p].next - p);
        TakeWhole(p, live);
      }
      if maxMem < used {
        maxMem := used;
      }
      chain := v2.chain;
      LinkedSplice(m, links, c, i, i + 1, mid, h, end, false);
      if p == lfree {
        AdvanceLfree(v2.chain, i);
      }
      MakeValid(v2, c, m, i, i + 1, mid);
    }

    /** `rt_malloc`. */
    method Malloc(request: nat) returns (r: int)
      requires Valid()
      modifies this, data
      ensures Valid() && (View(), r) == Spec.Malloc(old(View()), h, mem, request)
      ensures Kept(UsedSet(old(chain)), h, old(data[..]), data[..])
    {
      hide Valid, Kept, UsedSet, IndexOf, Spec.FirstFit, AllocAt, Spec.NextFree, Tiles, Linked, Spec.Inv, Words.AlignUp;
      KeptRefl(UsedSet(chain), h, data[..]);
      if request == 0 {
        return NULL;
      }
      var size := Words.AlignUp(request);
      if size > mem {
        return NULL;
      }
      if size < Spec.MIN {
        size := Spec.MIN;
      }
      var found, p := Search(size);
      if !found {
        return NULL;
      }
      Take(p, size, Spec.FirstFit(chain, lfree, h, mem, size), request);
      return p + h;
    }

    /** The first-fit loop (lines 306-312). */
    method Search(size: nat) returns (found: bool, p: nat)
      requires Valid()
      ensures var i := Spec.FirstFit(chain, lfree, h, mem, size);
              && found == (i < |chain|)
              && (found ==> chain[i].start == p && !chain[i].used && size <= Size(chain[i], h))
    {
      hide Valid, Spec.FirstFit, Tiles, Linked, Spec.Inv, Spec.FreeOrEnd;
      ValidParts();
      ghost var i := StartIndex();
      p := lfree;
      while p < mem - size
        invariant i <= |chain| && p == (if i < |chain| then chain[i].start else end)
        invariant i < |chain| ==> lfree <= p
        invariant forall k :: 0 <= k < i ==> chain[k].start < lfree || !Spec.Fits(chain[k], h, mem, size)
        decreases |chain| - i
      {
        LinksOf(links, chain, h, end, false, i);
        if !links[p].used && links[p].next - (p + h) >= size {
          Spec.FirstFitUnique(chain, lfree, h, mem, size, i);
          return true, p;
        }
        p := links[p].next;
        i := i + 1;
      }
      BehindBound(chain, h, end, i, p, size);
      Spec.FirstFitUnique(chain, lfree, h, mem, size, |chain|);
      return false, p;
    }

    /** The block at which the search starts. */
    ghost method StartIndex() returns (j: nat)
      requires Valid()
      ensures j <= |chain| && lfree == (if j < |chain| then chain[j].start else end)
      ensures forall k :: 0 <= k < j ==> chain[k].start < lfree
    {
      hide Valid, Linked, Spec.Inv;
      ValidParts();
      TilesOrdered(chain, h, end);
      if lfree == end {
        j := |chain|;
      } else {
        Spec.FreeStartIndex(chain, h, end, lfree);
        j := IndexOf(chain, lfree);
      }
    }

    /** Behind the point where the search stops no block fits. */
    lemma BehindBound(c: seq<Block>, h: nat, end: nat, j: nat, p: nat, size: nat)
      requires 0 < h && Tiles(c, h, end) && j <= |c| && p == (if j < |c| then c[j].start else end) && mem - size <= p
      ensures forall k :: j <= k < |c| ==> !Spec.Fits(c[k], h, mem, size)
    {
      TilesOrdered(c, h, end);
    }

    // -------------------------------------------------------------------------------
    // Release
    // -------------------------------------------------------------------------------

    lemma MergeableOf(i: nat)
      requires Valid() && i < |chain| && Around(links, chain[i].start)
      ensures Mergeable(links, chain[i].start, UsedSet(chain) - {chain[i]})
    {
      hide Valid, Linked, Around, Safe, Tiles, Spec.Inv, UsedSet, MergedLo, MergedHi, LeftFree, RightFree;
      ValidParts();
      var c, u, b := chain, UsedSet(chain), chain[i];
      var lo, hi := FreeLo(c, i), FreeHi(c, i);
      AroundOf(links, c, h, end, false, i);
      SafeBlock(c, h, end, lo);
      SafeBlock(c, h, end, i);
      SafeBlock(c, h, end, hi - 1);
      SafeLess(u, b, c[lo].start, h, data.Length);
      SafeLess(u, b, b.start, h, data.Length);
      SafeLess(u, b, b.next, h, data.Length);
      SafeLess(u, b, c[hi - 1].next, h, data.Length);
    }

    /** Lines 592-609: mark the block at `p` free and merge it. */
    method Release(p: nat, ghost live: set<Block>)
      requires Around(links, p) && Mergeable(links, p, live) && end in links && links[end].used && p != end
      modifies this`links, this`lfree, this`used, data
      ensures var m := old(links); var l0 := if p < old(lfree) then p else old(lfree);
              && Around(Marked(m, p, false), p) && links == Plugged(Marked(m, p, false), p)
              && used == old(used) - (m[p].next - p)
              && lfree == (var l := if RightFree(m, p) && l0 == m[p].next then p else l0;
                           if LeftFree(m, p) && l == p then m[p].prev else l)
      ensures Kept(live, h, old(data[..]), data[..])
    {
      hide Safe, Kept, Plugged;
      ghost var d0 := data[..];
      KeptRefl(live, h, d0);
      PutLink(p, links[p].(used := false), live, d0);
      if p < lfree {
        lfree := p;
      }
      used := used - (links[p].next - p);
      PlugHoles(p, live, d0);
    }

    /** `rt_free`. */
    method Free(ptr: int)
      requires Valid() && (ptr == NULL || Spec.Live(View(), h, ptr))
      modifies this, data
      ensures Valid()
      ensures View() == if ptr == NULL then old(View()) else Spec.Free(old(View()), h, ptr)
      ensures Kept(UsedSet(chain), h, old(data[..]), data[..])
    {
      hide Valid, Safe, Kept, Relinked, Spec.Inv, Linked, Tiles, Covers, Splice, UsedSet, Around, MergedLo, MergedHi;
      hide Spec.Free, IndexOf, Spec.Live, Mergeable, Plugged, Marked, LeftFree, RightFree, Spec.BlockOf;
      KeptRefl(UsedSet(chain), h, data[..]);
      if ptr == NULL {
        return;
      }
      ValidParts();
      ghost var v, c, m, i := View(), chain, links, IndexOf(chain, ptr - h);
      ghost var v2 := Spec.Free(v, h, ptr);
      Spec.FreeShape(v, h, ptr, i);
      Spec.FreeInv(v, h, end, ptr);
      Spec.FreeGives(v, h, end, ptr);
      Spec.LiveIndex(v, h, ptr);
      ghost var lo, hi, live := FreeLo(c, i), FreeHi(c, i), UsedSet(c) - {c[i]};
      ghost var mid := [Block(c[lo].start, c[hi - 1].next, false)];
      AroundOf(m, c, h, end, false, i);
      LinksOf(m, c, h, end, false, i);
      EndUsed(m, c);
      MergeableOf(i);
      MergedCovers(c, h, end, i);
      RelinkPlug(m, ptr - h, end, false);
      Release(ptr - h, live);
      chain := v2.chain;
      MakeValid(v2, c, m, lo, hi, mid);
    }

    lemma EndUsed(m: Links, c: seq<Block>)
      requires Linked(m, c, end, false)
      ensures end in m && m[end].used
    {
    }

    // -------------------------------------------------------------------------------
    // Reallocation
    // -------------------------------------------------------------------------------

    /** Lines 479-494: cut the block at `p` off at `n` and plug the part cut off. */
    method CutOff(p: nat, n: nat, ghost live: set<Block>)
      requires Around(links, p) && links[p].used && p < n < links[p].next && end in links && links[end].used
      requires Safe(live, p, h, data.Length) && Safe(live, n, h, data.Length) && n != end
      requires Safe(live, links[p].next, h, data.Length) && Safe(live, MergedHi(links, p), h, data.Length)
      modifies this`links, this`lfree, data
      ensures var m := old(links);
              && links == Cut(m, p, n, m[p].next != end)
              && lfree == (if RightFree(m, p) && old(lfree) == m[p].next then n else old(lfree))
      ensures Kept(live, h, old(data[..]), data[..])
    {
      hide Safe, Kept, Plugged, Cut;
      ghost var d0, m := data[..], links;
      KeptRefl(live, h, d0);
      CutIsPlugged(m, p, n, m[p].next != end);
      InsertBehind(p, n, live, d0);
      PlugHoles(n, live, d0);
    }

    lemma CutSafe(i: nat, size: nat)
      requires Valid() && i < |chain| && chain[i].used && size + h <= Size(chain[i], h) && Around(links, chain[i].start)
      ensures var live, n := Guard(UsedSet(chain), chain[i], h, size), chain[i].start + h + size;
              && Safe(live, chain[i].start, h, data.Length) && Safe(live, n, h, data.Length)
              && Safe(live, chain[i].next, h, data.Length)
              && Safe(live, MergedHi(links, chain[i].start), h, data.Length)
              && n < chain[i].next <= end
    {
      hide Valid, Linked, Around, Safe, Tiles, Spec.Inv, UsedSet, MergedLo, MergedHi, LeftFree, RightFree, Guard;
      ValidParts();
      var c, u, b := chain, UsedSet(chain), chain[i];
      AroundOf(links, c, h, end, false, i);
      LinksOf(links, c, h, end, false, i);
      BlockBounds(c, h, end, FreeHi(c, i) - 1);
      MergeableOf(i);
      SafeInside(c, h, end, i, b.start + h + size);
      SafeGuard(u, b, size, b.start, h, data.Length);
      SafeGuard(u, b, size, b.start + h + size, h, data.Length);
      SafeGuard(u, b, size, b.next, h, data.Length);
      SafeGuard(u, b, size, MergedHi(links, b.start), h, data.Length);
    }

    /** Lines 472-498: shrink the block at `p` in place. */
    method ShrinkBlock(p: nat, size: nat, ghost i: nat)
      requires Valid() && i < |chain| && chain[i].used && chain[i].start == p && size + h <= Size(chain[i], h)
      modifies this, data
      ensures Valid() && View() == Spec.Shrink(old(View()), h, i, size)
      ensures Kept(Guard(UsedSet(old(chain)), old(chain)[i], h, size), h, old(data[..]), data[..])
    {
      hide Valid, Safe, Kept, Relinked, Spec.Inv, Linked, Tiles, Covers, Splice, UsedSet, Around, MergedLo, MergedHi;
      hide Spec.Shrink, ResizeMid, Guard, Cut, LeftFree, RightFree, Reach;
      ValidParts();
      ghost var v, c, m, live := View(), chain, links, Guard(UsedSet(chain), chain[i], h, size);
      ghost var v2, hi, mid := Spec.Shrink(v, h, i, size), FreeHi(c, i), ResizeMid(c, i, h, size);
      Spec.ShrinkShape(v, h, i, size);
      Spec.ShrinkInv(v, h, end, i, size);
      AroundOf(m, c, h, end, false, i);
      LinksOf(m, c, h, end, false, i);
      BlockBounds(c, h, end, hi - 1);
      EndUsed(m, c);
      CutSafe(i, size);
      ResizeMidCovers(c, i, h, size, end);
      RelinkCut(m, p, p + h + size, c[i].next != end, end, false);
      used := used - (links[p].next - p - h - size);
      CutOff(p, p + h + size, live);
      chain := v2.chain;
      MakeValid(v2, c, m, i, hi, mid);
    }

    /** Lines 503-510: allocate, copy, free. */
    method Move(ptr: nat, size: nat, oldSize: nat) returns (r: int)
      requires Valid() && Spec.Live(View(), h, ptr)
      requires oldSize == Size(Spec.BlockOf(View(), h, ptr), h) && size <= Spec.RequestSize(size)
      modifies this, data
      ensures Valid()
      ensures var (t, x) := Spec.Malloc(old(View()), h, mem, size);
              r == x && View() == if r != NULL && Spec.Live(t, h, ptr) then Spec.Free(t, h, ptr) else t
      ensures Kept(UsedSet(old(chain)) - {Spec.BlockOf(old(View()), h, ptr)}, h, old(data[..]), data[..])
      ensures r != NULL ==> CopyOf(old(data[..]), ptr, data[..], r, if oldSize < size then oldSize else size)
    {
      hide Valid, Kept, CopyOf, UsedSet, Apart, Spec.Inv, Spec.Malloc, Spec.Free, Spec.Live, Spec.BlockOf,
           Spec.RequestSize, Linked, Tiles;
      ghost var v, d0, b := View(), data[..], Spec.BlockOf(View(), h, ptr);
      ValidParts();
      r := Malloc(size);
      ghost var t, d1 := View(), data[..];
      if r != NULL {
        Spec.MoveFacts(v, h, mem, ptr, size);
        ghost var nb := Spec.BlockOf(t, h, r);
        ApartPair(UsedSet(t.chain), b, nb);
        var n := if oldSize < size then oldSize else size;
        Copy(data, r, ptr, n);
        ghost var d2 := data[..];
        Free(ptr);
        MoveBytes(UsedSet(v.chain), b, nb, h, d0, d1, d2, data[..], n);
      } else {
        KeptLess(UsedSet(v.chain), b, h, d0, d1);
      }
    }

    /** `rt_realloc` of a block in use, from line 460 on. */
    method ReallocBlock(ptr: nat, size: nat, ghost request: nat) returns (r: int)
      requires Valid() && Spec.Live(View(), h, ptr) && size == Words.AlignUp(request) && 0 < size <= mem
      modifies this, data
      ensures Valid() && (View(), r) == Spec.Realloc(old(View()), h, mem, ptr, request)
      ensures Kept(UsedSet(old(chain)) - {Spec.BlockOf(old(View()), h, ptr)}, h, old(data[..]), data[..])
      ensures r != NULL ==>
                var b := Spec.BlockOf(old(View()), h, ptr);
                && Size(b, h) >= 0
                && CopyOf(old(data[..]), ptr, data[..], r, if Size(b, h) < size then Size(b, h) else size)
    {
      hide Valid, Kept, CopyOf, UsedSet, Spec.Inv, Spec.Malloc, Spec.Free, Spec.BlockOf, IndexOf, Spec.Shrink,
           Spec.RequestSize;
      hide Spec.Live, Linked, Tiles, Guard, Words.AlignUp;
      ValidParts();
      ghost var v, d0, i := View(), data[..], IndexOf(chain, ptr - h);
      Spec.LiveIndex(v, h, ptr);
      ghost var u, b := UsedSet(chain), chain[i];
      LinksOf(links, chain, h, end, false, i);
      Spec.AlignStable(request);
      var p := ptr - h;
      var oldSize := links[p].next - p - h;
      if oldSize == size {
        KeptRefl(u - {b}, h, d0);
        CopyRefl(d0, ptr, size);
        return ptr;
      }
      if size + h + Spec.MIN < oldSize {
        ShrinkBlock(p, size, i);
        KeptGuard(u, b, size, h, d0, data[..]);
        return ptr;
      }
      r := Move(ptr, size, oldSize);
    }

    /** An address outside the heap, which `rt_realloc` returns unchanged. */
    ghost predicate Foreign(ptr: int) {
      ptr != NULL && (ptr < 0 || end <= ptr)
    }

    /** `rt_realloc`. */
    method Realloc(ptr: int, request: nat) returns (r: int)
      requires Valid() && (ptr == NULL || Spec.Live(View(), h, ptr) || (Foreign(ptr) && Words.AlignUp(request) != 0))
      modifies this, data
      ensures Valid()
      ensures var size, v := Words.AlignUp(request), old(View());
              if size > mem then r == NULL && View() == v
              else if size == 0 then r == NULL && View() == if ptr == NULL then v else Spec.Free(v, h, ptr)
              else if ptr == NULL then (View(), r) == Spec.Malloc(v, h, mem, size)
              else if Foreign(ptr) then r == ptr && View() == v
              else (View(), r) == Spec.Realloc(v, h, mem, ptr, request)
      ensures Kept(UsedSet(old(chain)) - {Spec.BlockOf(old(View()), h, ptr)}, h, old(data[..]), data[..])
      ensures ptr != NULL && !Foreign(ptr) && r != NULL ==>
                var b, size := Spec.BlockOf(old(View()), h, ptr), Words.AlignUp(request);
                && Size(b, h) >= 0
                && CopyOf(old(data[..]), ptr, data[..], r, if Size(b, h) < size then Size(b, h) else size)
    {
      hide Valid, Kept, CopyOf, UsedSet, Spec.Inv, Spec.Malloc, Spec.Free, Spec.BlockOf, IndexOf, Spec.Realloc;
      hide Linked, Tiles, Spec.Live, Words.AlignUp;
      ghost var v, d0, b := View(), data[..], Spec.BlockOf(View(), h, ptr);
      ValidParts();
      KeptRefl(UsedSet(chain) - {b}, h, d0);
      var size := Words.AlignUp(request);
      if size > mem {
        return NULL;
      }
      if Spec.Live(v, h, ptr) {
        Spec.LiveInside(v, h, end, ptr);
      }
      if size == 0 {
        Free(ptr);
        if ptr == NULL {
          KeptLess(UsedSet(v.chain), b, h, d0, data[..]);
        } else {
          Spec.FreeGives(v, h, end, ptr);
        }
        return NULL;
      }
      if ptr == NULL {
        r := Malloc(size);
        KeptLess(UsedSet(v.chain), b, h, d0, data[..]);
      } else if ptr < 0 || end <= ptr {
        return ptr;
      } else {
        r := ReallocBlock(ptr, size, request);
      }
    }
  }
}
