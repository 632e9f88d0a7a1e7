/**
 The slab allocator of `slab.c`, changed in place: page list, page table, zone headers, the
 zone list of each class and the list of spare zones. The heap semaphore makes each
 call one step.
 */
module SlabAllocator {
  import opened Pages
  import opened Seqs
  import opened Zones
  import opened SlabSpec

  const MIN_ZONE_SIZE := 32768    // ZALLOC_MIN_ZONE_SIZE
  const MAX_ZONE_SIZE := 131072   // ZALLOC_MAX_ZONE_SIZE

  /** The zone size for a heap of `limsize` bytes: doubled while it stays below a 1024th of the heap. */
  method ZoneSize(limsize: nat) returns (size: nat)
    ensures size in {32768, 65536, 131072}
    ensures size < MAX_ZONE_SIZE ==> limsize / 1024 <= 2 * size
    ensures MIN_ZONE_SIZE < size ==> size < limsize / 1024
  {
    size := MIN_ZONE_SIZE;
    while size < MAX_ZONE_SIZE && 2 * size < limsize / 1024
      invariant size in {32768, 65536, 131072}
      invariant MIN_ZONE_SIZE < size ==> size < limsize / 1024
    {
      size := 2 * size;
    }
  }

  lemma InitRuns(n: nat)
    requires 0 < n
    ensures Disjoint([], 0, n) && Insert([], 0, n) == [Run(0, n)]
    ensures 0 < TablePages(n) <= n && FirstFit([Run(0, n)], TablePages(n)) == 0
  {
    TableFits(n);
  }

  lemma AllocBounds(s: SlabSpec.State, zp: nat, i: nat)
    requires Inv(s, zp) && i < |s.runs|
    ensures s.runs[i].start + s.runs[i].n <= |s.usage| && 0 < s.runs[i].n
  {
    RunBounded(s.runs, s.regions, s.usage, zp, i);
  }

  class Slab {
    const zonePages: nat          // zone_page_cnt
    const pages: PageList
    const usage: array<Usage>     // memusage
    const lists: array<seq<nat>>  // zone_array, each list of zones as a sequence
    var zones: map<nat, Zone>     // the headers at the start of the zones
    var spare: seq<nat>           // zone_free
    ghost var regions: map<nat, Region>

    ghost function View(): SlabSpec.State
      reads this, pages, usage, lists
    {
      SlabSpec.State(pages.list, regions, usage[..], lists[..], spare)
    }

    ghost predicate HeadersMatch()
      reads this
    {
      forall a :: a in regions && regions[a].Active? ==> a in zones && zones[a] == regions[a].zone
    }

    ghost predicate Valid()
      reads this, pages, usage, lists
    {
      Inv(View(), zonePages) && HeadersMatch()
    }

    /** `rt_system_heap_init` for a heap of `n` pages; the page table is not cleared. */
    constructor (n: nat, table: array<Usage>)
      requires 0 < n == table.Length
      ensures Valid() && View() == Init(table[..]) && usage == table && fresh(pages) && fresh(lists)
    {
      hide Inv, TakeFrom, TablePages, Insert;
      var size := ZoneSize(n * PAGE);
      zonePages := size / PAGE;
      usage := table;
      lists := new seq<nat>[NZONES](_ => []);
      pages := new PageList();
      zones, spare, regions := map[], [], map[0 := Table(TablePages(n))];
      new;
      InitRuns(n);
      pages.Free(0, n);
      var a := pages.Alloc(TablePages(n));
      InitInv(table[..], zonePages);
      assert lists[..] == Init(table[..]).lists;
    }

    /** Describe the pages of the zone at `a` in the page table. */
    method MarkZone(a: nat)
      requires a + zonePages <= usage.Length
      modifies usage
      ensures usage[..] == Mark(old(usage[..]), a, SlabSpec.Spare, zonePages)
    {
      var off := 0;
      while off < zonePages
        invariant 0 <= off <= zonePages
        invariant forall q :: 0 <= q < usage.Length ==>
                    usage[q] == if a <= q < a + off then Usage(SmallPage, q - a) else old(usage[..])[q]
      {
        usage[a + off] := Usage(SmallPage, off);
        off := off + 1;
      }
    }

    method UnmarkZone(a: nat)
      requires a + zonePages <= usage.Length
      modifies usage
      ensures usage[..] == Unmark(old(usage[..]), a, SlabSpec.Spare, zonePages)
    {
      var off := 0;
      while off < zonePages
        invariant 0 <= off <= zonePages
        invariant forall q :: 0 <= q < usage.Length ==>
                    usage[q] == if a <= q < a + off then Usage(FreePage, 0) else old(usage[..])[q]
      {
        usage[a + off] := Usage(FreePage, 0);
        off := off + 1;
      }
    }

    /** Requests of whole pages. */
    method MallocLarge(n: nat) returns (x: int)
      requires Valid()
      modifies this, pages, usage
      ensures Valid() && (View(), x) == MallocPages(old(View()), zonePages, n)
    {
      hide Inv, TakeFrom, FirstFit;
      ghost var s, i := View(), FirstFit(pages.list, n);
      if 0 < n && i < |pages.list| {
        AllocBounds(s, zonePages, i);
      }
      var a := pages.Alloc(n);
      if a == Pages.NULL {
        return Pages.NULL;
      }
      usage[a] := Usage(LargePage, n);
      regions := regions[a := Large(n)];
      assert usage[..] == Mark(s.usage, a, Large(n), zonePages);
      x := a * PAGE;
      MallocPagesKeeps(s, zonePages, n);
    }

    /** Take a chunk from the first zone of the class. */
    method TakeHead(c: nat) returns (x: int)
      requires Valid() && c < NZONES == lists.Length && lists[c] != []
      modifies this, lists
      ensures Valid() && (View(), x) == MallocHead(old(View()), zonePages, c)
    {
      hide Inv, Gains;
      ghost var s := View();
      var a := lists[c][0];
      ServesHead(s, zonePages, c);
      TakeReady(ZoneAt(s, a), a * PAGE, (a + zonePages) * PAGE);
      MallocHeadKeeps(s, zonePages, c);
      var z := zones[a];
      z := z.(nfree := z.nfree - 1);
      if z.nfree == 0 {
        lists[c] := lists[c][1..];
      }
      if z.uindex + 1 != z.nmax {
        z := z.(uindex := z.uindex + 1);
        x := z.base + z.uindex * z.size;
      } else {
        x := z.free[0];
        z := z.(free := z.free[1..]);
      }
      zones := zones[a := z];
      regions := regions[a := Active(z)];
    }

    /** Write a fresh header at `a` and put the zone at the head of its list. */
    method Open(c: nat, size: nat, a: nat) returns (x: int)
      requires c < NZONES == lists.Length && size == ChunkSize(c) && HeadersMatch() && ZonePagesFit()
      requires 4 * size <= zonePages * PAGE
      modifies this, lists
      ensures HeadersMatch() && (View(), x) == OpenZone(old(View()), zonePages, c, a) && 0 <= x
    {
      hide Offset, ChunkSize;
      ChunkSizeBounds(c);
      OffsetSmall(size);
      var off := Offset(size);
      DivBounds(zonePages * PAGE - off, size);
      var nmax := (zonePages * PAGE - off) / size;
      var z := Zone(c, size, a * PAGE + off, nmax, 0, [], nmax - 1);
      x := z.base + z.uindex * size;
      zones := zones[a := z];
      regions := regions[a := Active(z)];
      lists[c] := [a] + lists[c];
    }

    ghost predicate ZonePagesFit() {
      zonePages in {8, 16, 32}
    }

    /** Requests served from a zone of class `c`. */
    method MallocSmall(c: nat, size: nat) returns (x: int)
      requires Valid() && c < NZONES && size == ChunkSize(c) <= Limit(zonePages)
      modifies this, pages, usage, lists
      ensures Valid() && (View(), x) == MallocChunk(old(View()), zonePages, c)
    {
      hide Inv, TakeFrom, FirstFit, Gains, MallocHead, OpenZone, ChunkSize, Mark;
      ghost var s := View();
      Shape(s, zonePages);
      if lists[c] != [] {
        x := TakeHead(c);
        return;
      }
      var a: nat;
      if spare != [] {
        a := spare[0];
        spare := spare[1..];
      } else {
        ghost var i := FirstFit(pages.list, zonePages);
        if i < |pages.list| {
          AllocBounds(s, zonePages, i);
        }
        var p := pages.Alloc(zonePages);
        if p == Pages.NULL {
          return Pages.NULL;
        }
        a := p;
        MarkZone(a);
      }
      x := Open(c, size, a);
      MallocChunkKeeps(s, zonePages, c);
    }

    /** `rt_malloc`. */
    method Malloc(size: nat) returns (x: int)
      requires Valid() && size < WORD
      modifies this, pages, usage, lists
      ensures Valid() && (View(), x) == SlabSpec.Malloc(old(View()), zonePages, size)
    {
      hide Inv, MallocPages, MallocChunk, ZoneIndex, ChunkSize;
      if size == 0 {
        return Pages.NULL;
      }
      Shape(View(), zonePages);
      var limit := if zonePages * PAGE / 4 > CLASS_LIMIT then CLASS_LIMIT else zonePages * PAGE / 4;
      if size >= limit {
        var rounded := RoundUp(size, PAGE) % WORD;
        x := MallocLarge(rounded / PAGE);
      } else {
        ClassFits(zonePages, size);
        ZoneIndexFits(size);
        var (c, chunk) := ZoneIndex(size);
        x := MallocSmall(c, chunk);
      }
    }

    /** Put a chunk back; a zone that had none left rejoins its list. */
    method Give(a: nat, x: nat)
      requires Valid() && a in regions && regions[a].Active? && LiveIn(regions[a].zone, x)
      modifies this, lists
      ensures ZoneAt(old(View()), a).cls < |old(View()).lists|
      ensures Valid() && View() == GiveBack(old(View()), a, x)
    {
      hide Inv, LiveIn, Loses;
      ZoneReady(View(), zonePages, a);
      GiveBackKeeps(View(), zonePages, a, x);
      var z := zones[a];
      if z.nfree == 0 {
        lists[z.cls] := [a] + lists[z.cls];
      }
      z := z.(free := [x] + z.free, nfree := z.nfree + 1);
      zones := zones[a := z];
      regions := regions[a := Active(z)];
    }

    /** Unlink zone `a` from the list of its class. */
    method Unlink(c: nat, a: nat)
      requires c < lists.Length && a in lists[c] && NoDup(lists[c])
      modifies lists
      ensures lists[..] == old(lists[..])[c := Remove(old(lists[..])[c], a)]
    {
      var l, i := lists[c], 0;
      while l[i] != a
        invariant 0 <= i < |l| && a !in l[..i]
        invariant lists[..] == old(lists[..])
        decreases |l| - i
      {
        assert l[..i + 1] == l[..i] + [l[i]];
        i := i + 1;
      }
      RemoveAt(l, i);
      lists[c] := l[..i] + l[i + 1..];
    }

    /** Make a spare of a zone without objects; release the pages of a third one. */
    method RetireZone(a: nat)
      requires Valid() && a in regions && regions[a].Active? && regions[a].zone.nfree == regions[a].zone.nmax
      requires regions[a].zone.cls < lists.Length && a in lists[regions[a].zone.cls]
      requires NoDup(lists[regions[a].zone.cls])
      modifies this, pages, usage, lists
      ensures a + zonePages <= |old(View()).usage|
      ensures Valid() && View() == Retire(old(View()), zonePages, a)
    {
      hide Inv, Unmark, Remove, Insert, Live;
      ghost var s := View();
      RetireKeeps(s, zonePages, a);
      SpareBound(s, zonePages);
      RetireReady(s, zonePages, a);
      Unlink(zones[a].cls, a);
      spare := [a] + spare;
      if |spare| > SPARE_LIMIT {
        var z := spare[0];
        spare := spare[1..];
        UnmarkZone(z);
        pages.Free(z, zonePages);
        regions := regions - {z};
      } else {
        regions := regions[a := SlabSpec.Spare];
      }
    }

    /** `rt_free`. */
    method Free(x: int)
      requires Valid() && (x == Pages.NULL || (0 <= x && InUse(regions, x)))
      modifies this, pages, usage, lists
      ensures Valid() && View() == if x == Pages.NULL then old(View()) else SlabSpec.Free(old(View()), zonePages, x)
    {
      hide Inv, InUse, LiveIn, GiveBack, Retire, Insert, Loses;
      if x == Pages.NULL {
        return;
      }
      ghost var s := View();
      FreeReady(s, zonePages, x);
      FreeGives(s, zonePages, x);
      var p := x / PAGE;
      var u := usage[p];
      if u.kind.LargePage? {
        LargeReady(s, zonePages, p);
        usage[p] := u.(size := 0);
        pages.Free(p, u.size);
        regions := regions - {p};
        assert usage[..] == s.usage[p := Usage(LargePage, 0)];
        return;
      }
      var a := p - u.size;
      ZoneReady(s, zonePages, a);
      GiveBackKeeps(s, zonePages, a, x);
      Give(a, x);
      GivenZone(s, zonePages, a, x);
      var z := zones[a];
      if z.nfree == z.nmax && lists[z.cls] != [a] {
        RetireZone(a);
      }
    }
  }

  lemma SpareBound(s: SlabSpec.State, zp: nat)
    requires Inv(s, zp)
    ensures |s.spare| <= SPARE_LIMIT
  {
  }

  lemma RetireReady(s: SlabSpec.State, zp: nat, a: nat)
    requires Inv(s, zp) && a in s.regions && s.regions[a].Active?
    ensures Disjoint(s.runs, a, zp) && 0 < zp
  {
    hide RegionsInv, ZonesInv, ListsInv, SpareInv, Disjoint;
    RemoveRegion(s.runs, s.regions, s.usage, zp, a);
  }

  lemma LargeReady(s: SlabSpec.State, zp: nat, a: nat)
    requires Inv(s, zp) && a in s.regions && s.regions[a].Large?
    ensures Disjoint(s.runs, a, s.regions[a].n) && 0 < s.regions[a].n
  {
    hide RegionsInv, ZonesInv, ListsInv, SpareInv, Disjoint;
    RemoveRegion(s.runs, s.regions, s.usage, zp, a);
  }

  /** After a chunk came back its zone has a free chunk, so it is in its list. */
  lemma GivenZone(s: SlabSpec.State, zp: nat, a: nat, x: nat)
    requires a in s.regions && s.regions[a].Active? && ZoneAt(s, a).cls < |s.lists|
    requires Inv(GiveBack(s, a, x), zp)
    ensures var t := GiveBack(s, a, x);
            && a in t.regions && t.regions[a].Active? && ZoneAt(t, a).cls < |t.lists|
            && a in t.lists[ZoneAt(t, a).cls] && NoDup(t.lists[ZoneAt(t, a).cls])
  {
    hide RegionsInv, ZonesInv, SpareInv, NoDup;
    var t := GiveBack(s, a, x);
    var c := ZoneAt(t, a).cls;
    assert ListOf(t.regions, t.lists[c], c);
    assert Serves(t.regions, a, c);
  }

  lemma Shape(s: SlabSpec.State, zp: nat)
    requires Inv(s, zp)
    ensures zp in {8, 16, 32} && |s.lists| == NZONES
  {
  }
}
