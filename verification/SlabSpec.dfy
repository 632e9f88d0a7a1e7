/**
 What the slab allocator of `slab.c` does, as functions on values. Every page of the heap is
 free or belongs to one region: the page table, a large allocation, a zone in use or a spare
 zone. Addresses are relative to the start of the heap. `SlabAllocator` holds the allocator itself.
 */
module SlabSpec {
  import opened Pages
  import opened Seqs
  import opened Zones

  const SPARE_LIMIT := 2  // ZONE_RELEASE_THRESH
  const WORD := 0x1_0000_0000

  datatype Kind = FreePage | SmallPage | LargePage

  /** `struct memusage`: for a page of a zone `size` is its distance from the zone's first page. */
  datatype Usage = Usage(kind: Kind, size: nat)

  datatype Region = Table(n: nat) | Large(n: nat) | Active(zone: Zone) | Spare

  /** `runs` is `rt_page_list`, `usage` is `memusage`, `lists` is `zone_array`, `spare` is `zone_free`. */
  datatype State = State(runs: seq<Run>, regions: map<nat, Region>, usage: seq<Usage>, lists: seq<seq<nat>>,
                         spare: seq<nat>)

  // ---------------------------------------------------------------------------------
  // Regions of pages
  // ---------------------------------------------------------------------------------

  function Length(r: Region, zp: nat): nat {
    if r.Table? || r.Large? then r.n else zp
  }

  ghost predicate Within(a: nat, r: Region, zp: nat, p: int) {
    a <= p < a + Length(r, zp)
  }

  ghost predicate Covered(regions: map<nat, Region>, zp: nat, p: int) {
    exists a :: a in regions && Within(a, regions[a], zp, p)
  }

  /** The pages of a region say where the region starts, or how long it is. */
  ghost predicate UsageOf(usage: seq<Usage>, a: nat, r: Region, zp: nat) {
    && a + Length(r, zp) <= |usage| && 0 < Length(r, zp)
    && (r.Large? ==> usage[a] == Usage(LargePage, r.n))
    && (r.Active? || r.Spare? ==> forall q :: a <= q < a + zp ==> usage[q] == Usage(SmallPage, q - a))
  }

  ghost predicate RegionsApart(regions: map<nat, Region>, zp: nat) {
    forall a, b :: a in regions && b in regions && a != b ==>
      a + Length(regions[a], zp) <= b || b + Length(regions[b], zp) <= a
  }

  ghost predicate Sized(regions: map<nat, Region>, zp: nat) {
    forall a :: a in regions ==> 0 < Length(regions[a], zp)
  }

  /** Every page is either free or in exactly one region. */
  ghost predicate RegionsInv(runs: seq<Run>, regions: map<nat, Region>, usage: seq<Usage>, zp: nat) {
    && Maximal(runs)
    && (forall p :: IsFree(runs, p) <==> 0 <= p < |usage| && !Covered(regions, zp, p))
    && RegionsApart(regions, zp)
    && (forall a :: a in regions ==> UsageOf(usage, a, regions[a], zp))
  }

  /** The page table after the pages from `a` on became the region `r`. */
  function Mark(usage: seq<Usage>, a: nat, r: Region, zp: nat): seq<Usage>
    requires a + Length(r, zp) <= |usage|
  {
    seq(|usage|, q requires 0 <= q < |usage| =>
      if r.Large? && q == a then Usage(LargePage, r.n)
      else if (r.Active? || r.Spare?) && a <= q < a + zp then Usage(SmallPage, q - a)
      else usage[q])
  }

  /** The page table after the region `r` at `a` was released. */
  function Unmark(usage: seq<Usage>, a: nat, r: Region, zp: nat): seq<Usage>
    requires a + Length(r, zp) <= |usage|
  {
    seq(|usage|, q requires 0 <= q < |usage| =>
      if r.Large? && q == a then Usage(LargePage, 0)
      else if (r.Active? || r.Spare?) && a <= q < a + zp then Usage(FreePage, 0)
      else usage[q])
  }

  lemma RunBounded(runs: seq<Run>, regions: map<nat, Region>, usage: seq<Usage>, zp: nat, i: nat)
    requires RegionsInv(runs, regions, usage, zp) && i < |runs|
    ensures runs[i].start + runs[i].n <= |usage|
  {
    hide Covered;
    assert 0 < runs[i].n && runs[i] in runs;
    assert InRun(runs[i], runs[i].start + runs[i].n - 1);
    assert IsFree(runs, runs[i].start + runs[i].n - 1);
  }

  lemma MarkOther(usage: seq<Usage>, a: nat, r: Region, zp: nat, b: nat, q: Region)
    requires a + Length(r, zp) <= |usage| && UsageOf(usage, b, q, zp) && 0 < Length(r, zp)
    requires a + Length(r, zp) <= b || b + Length(q, zp) <= a
    ensures UsageOf(Mark(usage, a, r, zp), b, q, zp) && UsageOf(Unmark(usage, a, r, zp), b, q, zp)
  {
  }

  lemma MarkSelf(usage: seq<Usage>, a: nat, r: Region, zp: nat)
    requires a + Length(r, zp) <= |usage| && 0 < Length(r, zp)
    ensures UsageOf(Mark(usage, a, r, zp), a, r, zp)
    ensures |Mark(usage, a, r, zp)| == |Unmark(usage, a, r, zp)| == |usage|
  {
  }

  lemma BoundsOf(runs: seq<Run>, regions: map<nat, Region>, usage: seq<Usage>, zp: nat, a: nat)
    requires RegionsInv(runs, regions, usage, zp) && a in regions
    ensures UsageOf(usage, a, regions[a], zp) && 0 < Length(regions[a], zp) && a + Length(regions[a], zp) <= |usage|
  {
  }

  /** Pages taken from the free list can become a region. */
  lemma AddRegion(runs: seq<Run>, regions: map<nat, Region>, usage: seq<Usage>, zp: nat, i: nat, r: Region)
    requires RegionsInv(runs, regions, usage, zp) && i < |runs| && 0 < Length(r, zp) <= runs[i].n
    ensures var a, n := runs[i].start, Length(r, zp);
            && a !in regions && a + n <= |usage|
            && RegionsInv(TakeFrom(runs, i, n), regions[a := r], Mark(usage, a, r, zp), zp)
  {
    hide Maximal, TakeFrom, IsFree, Covered, Mark, Unmark, UsageOf;
    var a, n := runs[i].start, Length(r, zp);
    RunBounded(runs, regions, usage, zp, i);
    Pages.TakeKeeps(runs, i, n);
    forall b | b in regions ensures b != a && (a + n <= b || b + Length(regions[b], zp) <= a) {
      FreeApart(runs, regions, usage, zp, a, n, b);
    }
    var regions', usage' := regions[a := r], Mark(usage, a, r, zp);
    forall p ensures Covered(regions', zp, p) <==> Covered(regions, zp, p) || a <= p < a + n {
      AddCovered(regions, zp, a, r, p);
    }
    MarkSelf(usage, a, r, zp);
    forall b | b in regions' ensures UsageOf(usage', b, regions'[b], zp) {
      if b != a {
        MarkOther(usage, a, r, zp, b, regions[b]);
      }
    }
  }

  lemma FreeApart(runs: seq<Run>, regions: map<nat, Region>, usage: seq<Usage>, zp: nat, a: nat, n: nat, b: nat)
    requires RegionsInv(runs, regions, usage, zp) && b in regions && 0 < n
    requires forall p :: a <= p < a + n ==> IsFree(runs, p)
    ensures a != b && (a + n <= b || b + Length(regions[b], zp) <= a)
  {
    hide Maximal, IsFree;
    assert UsageOf(usage, b, regions[b], zp);
    var p := if a <= b then b else a;
    if a <= p < a + n {
      assert IsFree(runs, p);
      assert !Within(b, regions[b], zp, p);
    }
  }

  lemma AddCovered(regions: map<nat, Region>, zp: nat, a: nat, r: Region, p: int)
    requires a !in regions
    ensures Covered(regions[a := r], zp, p) <==> Covered(regions, zp, p) || Within(a, r, zp, p)
  {
    var regions' := regions[a := r];
    if Covered(regions, zp, p) {
      var b :| b in regions && Within(b, regions[b], zp, p);
      assert Within(b, regions'[b], zp, p);
    }
    if Within(a, r, zp, p) {
      assert Within(a, regions'[a], zp, p);
    }
  }

  /** The pages of a region can go back to the free list. */
  lemma RemoveRegion(runs: seq<Run>, regions: map<nat, Region>, usage: seq<Usage>, zp: nat, a: nat)
    requires RegionsInv(runs, regions, usage, zp) && a in regions
    ensures var r := regions[a];
            && a + Length(r, zp) <= |usage| && 0 < Length(r, zp) && Disjoint(runs, a, Length(r, zp))
            && RegionsInv(Insert(runs, a, Length(r, zp)), regions - {a}, Unmark(usage, a, r, zp), zp)
  {
    hide Maximal, Insert, IsFree, Covered, Mark, Unmark, UsageOf;
    var r, n := regions[a], Length(regions[a], zp);
    BoundsOf(runs, regions, usage, zp, a);
    forall p | a <= p < a + n ensures !IsFree(runs, p) && !Covered(regions - {a}, zp, p) {
      OnlyHere(regions, zp, a, p);
    }
    InsertKeeps(runs, a, n);
    var regions', usage' := regions - {a}, Unmark(usage, a, r, zp);
    forall p ensures Covered(regions, zp, p) <==> Covered(regions', zp, p) || a <= p < a + n {
      assert regions'[a := r] == regions;
      AddCovered(regions', zp, a, r, p);
    }
    MarkSelf(usage, a, r, zp);
    forall b | b in regions' ensures UsageOf(usage', b, regions'[b], zp) {
      MarkOther(usage, a, r, zp, b, regions[b]);
    }
  }

  lemma OnlyHere(regions: map<nat, Region>, zp: nat, a: nat, p: int)
    requires RegionsApart(regions, zp) && a in regions && Within(a, regions[a], zp, p)
    ensures Covered(regions, zp, p) && !Covered(regions - {a}, zp, p)
  {
  }

  /** A zone may change, or become spare, in place. */
  lemma ChangeRegion(runs: seq<Run>, regions: map<nat, Region>, usage: seq<Usage>, zp: nat, a: nat, r: Region)
    requires RegionsInv(runs, regions, usage, zp) && a in regions
    requires (regions[a].Active? || regions[a].Spare?) && (r.Active? || r.Spare?)
    ensures RegionsInv(runs, regions[a := r], usage, zp)
  {
    hide Maximal, IsFree;
    var regions' := regions[a := r];
    forall p ensures Covered(regions', zp, p) <==> Covered(regions, zp, p) {
      assert forall b :: b in regions ==> Within(b, regions[b], zp, p) == Within(b, regions'[b], zp, p);
    }
    forall b | b in regions' ensures UsageOf(usage, b, regions'[b], zp) {
      assert UsageOf(usage, b, regions[b], zp);
    }
  }

  // ---------------------------------------------------------------------------------
  // Zone lists
  // ---------------------------------------------------------------------------------

  /** The region at `a` is a zone of class `c` with a free chunk. */
  ghost predicate Serves(regions: map<nat, Region>, a: nat, c: nat) {
    a in regions && regions[a].Active? && regions[a].zone.cls == c && 0 < regions[a].zone.nfree
  }

  ghost predicate ListOf(regions: map<nat, Region>, l: seq<nat>, c: nat) {
    NoDup(l) && forall a :: a in l <==> Serves(regions, a, c)
  }

  ghost predicate ListsInv(regions: map<nat, Region>, lists: seq<seq<nat>>) {
    |lists| == NZONES && forall c :: 0 <= c < NZONES ==> ListOf(regions, lists[c], c)
  }

  ghost predicate SpareInv(regions: map<nat, Region>, spare: seq<nat>) {
    NoDup(spare) && |spare| <= SPARE_LIMIT && forall a :: a in spare <==> a in regions && regions[a].Spare?
  }

  ghost predicate ZonesInv(regions: map<nat, Region>, zp: nat) {
    forall a :: a in regions && regions[a].Active? ==> ZoneInv(regions[a].zone, a * PAGE, (a + zp) * PAGE)
  }

  /** The two maps differ at most at `a`. */
  ghost predicate SameBut(r: map<nat, Region>, r': map<nat, Region>, a: nat) {
    forall b :: b != a ==> (b in r <==> b in r') && (b in r ==> r[b] == r'[b])
  }

  /** One class changes its list, the others keep theirs. */
  lemma ListsStep(r: map<nat, Region>, r': map<nat, Region>, lists: seq<seq<nat>>, a: nat, c: nat, l: seq<nat>)
    requires ListsInv(r, lists) && SameBut(r, r', a) && c < NZONES && ListOf(r', l, c)
    requires forall k :: k != c ==> (Serves(r, a, k) <==> Serves(r', a, k))
    ensures ListsInv(r', lists[c := l])
  {
    hide NoDup;
    var lists' := lists[c := l];
    forall k | 0 <= k < NZONES ensures ListOf(r', lists'[k], k) {
      if k != c {
        assert ListOf(r, lists[k], k);
        forall b ensures b in lists[k] <==> Serves(r', b, k) {
          assert Serves(r, b, k) <==> Serves(r', b, k);
        }
      }
    }
  }

  /** A region that is in no list comes, goes or changes. */
  lemma ListsKeep(r: map<nat, Region>, r': map<nat, Region>, lists: seq<seq<nat>>, a: nat)
    requires ListsInv(r, lists) && SameBut(r, r', a)
    requires forall k :: Serves(r, a, k) <==> Serves(r', a, k)
    ensures ListsInv(r', lists)
  {
    hide NoDup;
    assert ListOf(r, lists[0], 0);
    forall b ensures b in lists[0] <==> Serves(r', b, 0) {
      assert Serves(r, b, 0) <==> Serves(r', b, 0);
    }
    ListsStep(r, r', lists, a, 0, lists[0]);
    assert lists[0 := lists[0]] == lists;
  }

  // ---------------------------------------------------------------------------------
  // Objects in use
  // ---------------------------------------------------------------------------------

  /** `x` is the address of an object of `n` bytes, handed out from the region `r` at page `p`. */
  ghost predicate Object(r: Region, p: nat, x: nat, n: nat) {
    match r
    case Large(k) => x == p * PAGE && n == k * PAGE
    case Active(z) => LiveIn(z, x) && n == z.size
    case _ => false
  }

  ghost predicate Live(regions: map<nat, Region>, x: nat, n: nat) {
    exists p :: p in regions && Object(regions[p], p, x, n)
  }

  ghost predicate LiveElse(regions: map<nat, Region>, a: nat, x: nat, n: nat) {
    exists p :: p in regions && p != a && Object(regions[p], p, x, n)
  }

  lemma LiveSplit(r: map<nat, Region>, a: nat, x: nat, n: nat)
    ensures Live(r, x, n) <==> LiveElse(r, a, x, n) || (a in r && Object(r[a], a, x, n))
  {
    hide Object;
  }

  lemma LiveSame(r: map<nat, Region>, r': map<nat, Region>, a: nat, x: nat, n: nat)
    requires SameBut(r, r', a)
    ensures LiveElse(r, a, x, n) <==> LiveElse(r', a, x, n)
  {
    hide Object;
    if LiveElse(r, a, x, n) {
      var p :| p in r && p != a && Object(r[p], p, x, n);
      assert p in r' && r'[p] == r[p];
    }
    if LiveElse(r', a, x, n) {
      var p :| p in r' && p != a && Object(r'[p], p, x, n);
      assert p in r && r'[p] == r[p];
    }
  }

  /** An object lies in the pages of its region. */
  lemma ObjectBounds(regions: map<nat, Region>, zp: nat, p: nat, x: nat, n: nat)
    requires ZonesInv(regions, zp) && p in regions && Object(regions[p], p, x, n)
    ensures p * PAGE <= x && x + n <= (p + Length(regions[p], zp)) * PAGE
    ensures regions[p].Active? ==> p * PAGE + ZONE_HEADER <= x
  {
    hide ZoneInv;
    if regions[p].Active? {
      ChunksApart(regions[p].zone, p * PAGE, (p + zp) * PAGE, x, x);
    }
  }

  /** Objects in use do not overlap. */
  lemma LiveApart(regions: map<nat, Region>, zp: nat, x: nat, n: nat, y: nat, m: nat)
    requires RegionsApart(regions, zp) && ZonesInv(regions, zp) && Live(regions, x, n) && Live(regions, y, m)
    ensures (x == y && n == m) || x + n <= y || y + m <= x
  {
    hide ZoneInv, RegionsInv, LiveIn;
    var p: nat :| p in regions && Object(regions[p], p, x, n);
    var q: nat :| q in regions && Object(regions[q], q, y, m);
    ObjectBounds(regions, zp, p, x, n);
    ObjectBounds(regions, zp, q, y, m);
    if p != q {
      assert p + Length(regions[p], zp) <= q || q + Length(regions[q], zp) <= p;
    } else if regions[p].Active? {
      SameZone(regions[p].zone, p * PAGE, (p + zp) * PAGE, x, y);
    }
  }

  lemma SameZone(z: Zone, lo: nat, hi: nat, x: nat, y: nat)
    requires ZoneInv(z, lo, hi) && LiveIn(z, x) && LiveIn(z, y)
    ensures x == y || x + z.size <= y || y + z.size <= x
  {
    hide ZoneInv;
    ChunksApart(z, lo, hi, x, y);
  }

  // ---------------------------------------------------------------------------------
  // The allocator
  // ---------------------------------------------------------------------------------

  ghost predicate Inv(s: State, zp: nat) {
    && zp in {8, 16, 32}
    && RegionsInv(s.runs, s.regions, s.usage, zp) && ZonesInv(s.regions, zp)
    && ListsInv(s.regions, s.lists) && SpareInv(s.regions, s.spare)
  }

  /** `zone_limit`: requests from here on are served in whole pages. */
  function Limit(zp: nat): nat {
    if zp < 16 then zp * PAGE / 4 else CLASS_LIMIT
  }

  /** `RT_ALIGN` on 32-bit words, in pages. */
  function PagesFor(size: nat): nat {
    RoundUp(size, PAGE) % WORD / PAGE
  }

  ghost function MallocPages(s: State, zp: nat, n: nat): (State, int)
    requires Inv(s, zp)
  {
    var i := FirstFit(s.runs, n);
    if n == 0 || i == |s.runs| then (s, NULL)
    else
      var a, r := s.runs[i].start, Large(n);
      RunBounded(s.runs, s.regions, s.usage, zp, i);
      (s.(runs := TakeFrom(s.runs, i, n), regions := s.regions[a := r], usage := Mark(s.usage, a, r, zp)), a * PAGE)
  }

  ghost function ZoneAt(s: State, a: nat): Zone
    requires a in s.regions && s.regions[a].Active?
  {
    s.regions[a].zone
  }

  /** Hand out a chunk of the first zone of class `c`. */
  ghost function MallocHead(s: State, zp: nat, c: nat): (State, int)
    requires Inv(s, zp) && c < NZONES && s.lists[c] != []
  {
    var a := s.lists[c][0];
    ServesHead(s, zp, c);
    TakeReady(ZoneAt(s, a), a * PAGE, (a + zp) * PAGE);
    var (t, x) := TakeChunk(ZoneAt(s, a));
    (s.(regions := s.regions[a := Active(t)],
        lists := if t.nfree == 0 then s.lists[c := s.lists[c][1..]] else s.lists), x)
  }

  /** Set up a zone of class `c` at `a`, and hand out its first chunk. */
  ghost function OpenZone(s: State, zp: nat, c: nat, a: nat): (State, int)
    requires c < NZONES && |s.lists| == NZONES
  {
    ChunkSizeBounds(c);
    var z := NewZone(c, ChunkSize(c), a * PAGE, zp * PAGE);
    (s.(regions := s.regions[a := Active(z)], lists := s.lists[c := [a] + s.lists[c]]), z.base)
  }

  ghost function MallocChunk(s: State, zp: nat, c: nat): (State, int)
    requires Inv(s, zp) && c < NZONES
  {
    var i := FirstFit(s.runs, zp);
    if s.lists[c] != [] then MallocHead(s, zp, c)
    else if s.spare != [] then OpenZone(s.(spare := s.spare[1..]), zp, c, s.spare[0])
    else if i == |s.runs| then (s, NULL)
    else
      var a := s.runs[i].start;
      RunBounded(s.runs, s.regions, s.usage, zp, i);
      OpenZone(s.(runs := TakeFrom(s.runs, i, zp), usage := Mark(s.usage, a, Spare, zp)), zp, c, a)
  }

  /** `rt_malloc`. */
  ghost function Malloc(s: State, zp: nat, size: nat): (State, int)
    requires Inv(s, zp)
  {
    if size == 0 then (s, NULL)
    else if Limit(zp) <= size then MallocPages(s, zp, PagesFor(size))
    else
      ZoneIndexFits(size);
      MallocChunk(s, zp, ZoneIndex(size).0)
  }

  lemma ServesHead(s: State, zp: nat, c: nat)
    requires Inv(s, zp) && c < NZONES && s.lists[c] != []
    ensures Serves(s.regions, s.lists[c][0], c)
    ensures var a := s.lists[c][0]; ZoneInv(ZoneAt(s, a), a * PAGE, (a + zp) * PAGE)
  {
    hide ZoneInv, RegionsInv, NoDup, SpareInv;
    assert ListOf(s.regions, s.lists[c], c);
    assert s.lists[c][0] in s.lists[c];
  }

  // ---------------------------------------------------------------------------------
  // Allocation
  // ---------------------------------------------------------------------------------

  /** `t` has one object more than `s`, at `x` and of `n` bytes. */
  ghost predicate Gains(r: map<nat, Region>, r': map<nat, Region>, x: nat, n: nat) {
    && (forall y, m :: Live(r', y, m) <==> Live(r, y, m) || (y == x && m == n))
    && !Live(r, x, n)
  }

  /** The region at `a` is replaced by one with a single new object. */
  lemma GainsOne(r: map<nat, Region>, r': map<nat, Region>, a: nat, x: nat, n: nat)
    requires SameBut(r, r', a) && a in r'
    requires forall y, m :: Object(r'[a], a, y, m) <==> (a in r && Object(r[a], a, y, m)) || (y == x && m == n)
    ensures forall y, m :: Live(r', y, m) <==> Live(r, y, m) || (y == x && m == n)
  {
    hide SameBut, Live, LiveElse, Object;
    forall y: nat, m: nat ensures Live(r', y, m) <==> Live(r, y, m) || (y == x && m == n) {
      LiveSplit(r, a, y, m);
      LiveSplit(r', a, y, m);
      LiveSame(r, r', a, y, m);
    }
  }

  /** An object of a region in place is not an object of another region. */
  lemma NotElsewhere(regions: map<nat, Region>, zp: nat, a: nat, x: nat, n: nat)
    requires RegionsApart(regions, zp) && ZonesInv(regions, zp) && a in regions
    requires a * PAGE <= x && x + n <= (a + Length(regions[a], zp)) * PAGE && 0 < n
    ensures !LiveElse(regions, a, x, n)
  {
    hide ZoneInv, Object;
    forall p: nat | p in regions && p != a ensures !Object(regions[p], p, x, n) {
      if Object(regions[p], p, x, n) {
        ObjectBounds(regions, zp, p, x, n);
      }
    }
  }

  lemma MallocPagesKeeps(s: State, zp: nat, n: nat)
    requires Inv(s, zp) && MallocPages(s, zp, n).1 != NULL
    ensures var (t, x) := MallocPages(s, zp, n);
            Inv(t, zp) && 0 <= x && Gains(s.regions, t.regions, x, n * PAGE)
  {
    hide RegionsInv, ZonesInv, ListsInv, SpareInv, RegionsApart, Live, LiveElse, FirstFit, TakeFrom, Mark;
    var (t, x) := MallocPages(s, zp, n);
    var a := s.runs[FirstFit(s.runs, n)].start;
    AddRegion(s.runs, s.regions, s.usage, zp, FirstFit(s.runs, n), Large(n));
    ZonesKeep(s.regions, t.regions, zp, a);
    ListsKeep(s.regions, t.regions, s.lists, a);
    SpareKeep(s.regions, t.regions, s.spare, a);
    GainsOne(s.regions, t.regions, a, x, n * PAGE);
    ApartOf(t.runs, t.regions, t.usage, zp);
    NotElsewhere(t.regions, zp, a, x, n * PAGE);
    LiveSame(s.regions, t.regions, a, x, n * PAGE);
    LiveSplit(s.regions, a, x, n * PAGE);
  }

  lemma ApartOf(runs: seq<Run>, regions: map<nat, Region>, usage: seq<Usage>, zp: nat)
    requires RegionsInv(runs, regions, usage, zp)
    ensures RegionsApart(regions, zp) && Sized(regions, zp)
  {
  }

  lemma ZonesKeep(r: map<nat, Region>, r': map<nat, Region>, zp: nat, a: nat)
    requires ZonesInv(r, zp) && SameBut(r, r', a)
    requires a in r' && r'[a].Active? ==> ZoneInv(r'[a].zone, a * PAGE, (a + zp) * PAGE)
    ensures ZonesInv(r', zp)
  {
    hide ZoneInv;
  }

  lemma SpareKeep(r: map<nat, Region>, r': map<nat, Region>, spare: seq<nat>, a: nat)
    requires SpareInv(r, spare) && SameBut(r, r', a)
    requires (a in r && r[a].Spare?) <==> (a in r' && r'[a].Spare?)
    ensures SpareInv(r', spare)
  {
    hide NoDup;
    forall b ensures b in spare <==> b in r' && r'[b].Spare? {
      assert b in spare <==> b in r && r[b].Spare?;
    }
  }

  /** A fresh object in a region that held none at its address. */
  lemma GainsFresh(r: map<nat, Region>, r': map<nat, Region>, zp: nat, a: nat, x: nat, n: nat)
    requires SameBut(r, r', a) && a in r' && RegionsApart(r', zp) && ZonesInv(r', zp) && 0 < n
    requires forall y, m :: Object(r'[a], a, y, m) <==> (a in r && Object(r[a], a, y, m)) || (y == x && m == n)
    requires !(a in r && Object(r[a], a, x, n))
    ensures Gains(r, r', x, n)
  {
    hide SameBut, Live, LiveElse, Object, RegionsApart, ZonesInv;
    GainsOne(r, r', a, x, n);
    ObjectBounds(r', zp, a, x, n);
    NotElsewhere(r', zp, a, x, n);
    LiveSame(r, r', a, x, n);
    LiveSplit(r, a, x, n);
  }

  lemma MallocHeadKeeps(s: State, zp: nat, c: nat)
    requires Inv(s, zp) && c < NZONES && s.lists[c] != []
    ensures var (t, x) := MallocHead(s, zp, c);
            Inv(t, zp) && 0 <= x && Gains(s.regions, t.regions, x, ChunkSize(c))
  {
    hide RegionsInv, ZonesInv, ListOf, SpareInv, RegionsApart, Live, LiveElse, ZoneInv, LiveIn, ChunkSize, TakeChunk,
         NoDup;
    ServesHead(s, zp, c);
    var (t, x) := MallocHead(s, zp, c);
    var a := s.lists[c][0];
    var z := ZoneAt(s, a);
    TakeReady(z, a * PAGE, (a + zp) * PAGE);
    Zones.TakeKeeps(z, a * PAGE, (a + zp) * PAGE);
    var z' := TakeChunk(z).0;
    ChunkSizeOf(z, a * PAGE, (a + zp) * PAGE);
    ChangeRegion(s.runs, s.regions, s.usage, zp, a, Active(z'));
    ZonesKeep(s.regions, t.regions, zp, a);
    SpareKeep(s.regions, t.regions, s.spare, a);
    HeadLists(s.regions, t.regions, s.lists, a, c, z');
    ApartOf(t.runs, t.regions, t.usage, zp);
    GainsFresh(s.regions, t.regions, zp, a, x, z.size);
  }

  lemma ChunkSizeOf(z: Zone, lo: nat, hi: nat)
    requires ZoneInv(z, lo, hi)
    ensures z.cls < NZONES && z.size == ChunkSize(z.cls) && 0 < z.size
  {
    ChunkSizeBounds(z.cls);
  }

  lemma HeadLists(r: map<nat, Region>, r': map<nat, Region>, lists: seq<seq<nat>>, a: nat, c: nat, z: Zone)
    requires ListsInv(r, lists) && c < NZONES && lists[c] != [] && a == lists[c][0] && r' == r[a := Active(z)]
    requires z.cls == c
    ensures ListsInv(r', if z.nfree == 0 then lists[c := lists[c][1..]] else lists)
  {
    hide NoDup;
    var l := if z.nfree == 0 then lists[c][1..] else lists[c];
    assert ListOf(r, lists[c], c) && a in lists[c];
    DropNoDup(lists[c]);
    forall b ensures b in l <==> Serves(r', b, c) {
      assert b in lists[c] <==> Serves(r, b, c);
    }
    ListsStep(r, r', lists, a, c, l);
    assert lists[c := lists[c]] == lists;
  }

  /** A zone that opens at a page where no zone was in use. */
  lemma OpenZoneKeeps(s: State, zp: nat, c: nat, a: nat)
    requires zp in {8, 16, 32} && c < NZONES && ChunkSize(c) <= Limit(zp)
    requires a !in s.regions || s.regions[a].Spare?
    requires RegionsInv(s.runs, s.regions[a := Spare], s.usage, zp)
    requires ZonesInv(s.regions, zp) && ListsInv(s.regions, s.lists) && SpareInv(s.regions - {a}, s.spare)
    ensures var (t, x) := OpenZone(s, zp, c, a);
            Inv(t, zp) && 0 <= x && Gains(s.regions, t.regions, x, ChunkSize(c))
  {
    hide RegionsInv, ZonesInv, ListOf, SpareInv, RegionsApart, Live, LiveElse, ZoneInv, LiveIn, ChunkSize, NoDup;
    var (t, x) := OpenZone(s, zp, c, a);
    ChunkSizeBounds(c);
    NewZoneInv(c, a * PAGE, zp * PAGE);
    var z := NewZone(c, ChunkSize(c), a * PAGE, zp * PAGE);
    ChangeRegion(s.runs, s.regions[a := Spare], s.usage, zp, a, Active(z));
    assert s.regions[a := Spare][a := Active(z)] == t.regions;
    ZonesKeep(s.regions, t.regions, zp, a);
    SpareKeep(s.regions - {a}, t.regions, s.spare, a);
    PushLists(s.regions, t.regions, s.lists, a, c, z);
    ApartOf(t.runs, t.regions, t.usage, zp);
    GainsFresh(s.regions, t.regions, zp, a, x, z.size);
  }

  /** A zone of class `c` that had no free chunk, or was not in use, joins the list. */
  lemma PushLists(r: map<nat, Region>, r': map<nat, Region>, lists: seq<seq<nat>>, a: nat, c: nat, z: Zone)
    requires ListsInv(r, lists) && c < NZONES && r' == r[a := Active(z)] && z.cls == c && 0 < z.nfree
    requires forall k :: !Serves(r, a, k)
    ensures ListsInv(r', lists[c := [a] + lists[c]])
  {
    hide NoDup;
    var l := [a] + lists[c];
    assert ListOf(r, lists[c], c);
    assert !Serves(r, a, c);
    PushNoDup(lists[c], a);
    forall b ensures b in l <==> Serves(r', b, c) {
      assert b in lists[c] <==> Serves(r, b, c);
    }
    ListsStep(r, r', lists, a, c, l);
  }

  lemma MallocChunkKeeps(s: State, zp: nat, c: nat)
    requires Inv(s, zp) && c < NZONES && ChunkSize(c) <= Limit(zp) && MallocChunk(s, zp, c).1 != NULL
    ensures var (t, x) := MallocChunk(s, zp, c);
            Inv(t, zp) && 0 <= x && Gains(s.regions, t.regions, x, ChunkSize(c))
  {
    hide RegionsInv, ZonesInv, ListOf, RegionsApart, Live, Gains, ChunkSize, MallocHead, OpenZone, FirstFit, TakeFrom,
         Mark, NoDup;
    if s.lists[c] != [] {
      MallocHeadKeeps(s, zp, c);
    } else if s.spare != [] {
      var a := s.spare[0];
      assert a in s.spare;
      assert s.regions[a := Spare] == s.regions;
      DropNoDup(s.spare);
      OpenZoneKeeps(s.(spare := s.spare[1..]), zp, c, a);
    } else {
      var i := FirstFit(s.runs, zp);
      var a := s.runs[i].start;
      AddRegion(s.runs, s.regions, s.usage, zp, i, Spare);
      assert s.regions - {a} == s.regions;
      OpenZoneKeeps(s.(runs := TakeFrom(s.runs, i, zp), usage := Mark(s.usage, a, Spare, zp)), zp, c, a);
    }
  }

  /** A request below the limit fits a class whose zones have room for it. */
  lemma ClassFits(zp: nat, size: nat)
    requires zp in {8, 16, 32} && 0 < size < Limit(zp)
    ensures size < CLASS_LIMIT && ZoneIndex(size).0 < NZONES
    ensures size <= ChunkSize(ZoneIndex(size).0) <= Limit(zp)
  {
    ZoneIndexFits(size);
    if zp == 8 {
      hide ZoneIndex;
      ZoneIndexBest(size, 63);
      ChunkSizeMono(ZoneIndex(size).0, 63);
    } else {
      hide ZoneIndex;
      ChunkSizeMono(ZoneIndex(size).0, 71);
    }
  }

  /** The number of bytes a request is given. */
  function Granted(zp: nat, size: nat): nat
    requires zp in {8, 16, 32} && 0 < size
  {
    if Limit(zp) <= size then PagesFor(size) * PAGE
    else
      ClassFits(zp, size);
      ChunkSize(ZoneIndex(size).0)
  }

  /** Pages cover the request unless the rounding wraps round, when there are none. */
  lemma PagesCover(size: nat)
    requires 0 < size < WORD
    ensures PagesFor(size) == 0 <==> WORD - PAGE < size
    ensures size <= WORD - PAGE ==> size <= PagesFor(size) * PAGE < size + PAGE
  {
    RoundUpBounds(size, PAGE);
  }

  /** A successful `rt_malloc` adds one object, large enough, apart from all objects in use. */
  lemma MallocGives(s: State, zp: nat, size: nat)
    requires Inv(s, zp) && size < WORD && Malloc(s, zp, size).1 != NULL
    ensures var (t, x) := Malloc(s, zp, size);
            && Inv(t, zp) && 0 <= x && 0 < size <= Granted(zp, size)
            && Gains(s.regions, t.regions, x, Granted(zp, size))
            && forall y: nat, m: nat :: Live(s.regions, y, m) ==> y + m <= x || x + Granted(zp, size) <= y
  {
    hide RegionsInv, ZonesInv, ListsInv, SpareInv, Live, ChunkSize, ZoneIndex, MallocPages, MallocChunk, RegionsApart,
         PagesFor;
    if Limit(zp) <= size {
      PagesCover(size);
      MallocPagesNull(s, zp);
      MallocPagesKeeps(s, zp, PagesFor(size));
    } else {
      ClassFits(zp, size);
      MallocChunkKeeps(s, zp, ZoneIndex(size).0);
    }
    var (t, x) := Malloc(s, zp, size);
    var n := Granted(zp, size);
    ApartOf(t.runs, t.regions, t.usage, zp);
    forall y: nat, m: nat | Live(s.regions, y, m) ensures y + m <= x || x + n <= y {
      assert !(y == x && m == n);
      LiveApart(t.regions, zp, y, m, x, n);
    }
  }

  lemma MallocPagesNull(s: State, zp: nat)
    requires Inv(s, zp)
    ensures MallocPages(s, zp, 0).1 == NULL
  {
  }

  /** `rt_malloc` fails, changing nothing, exactly when it needs pages and finds none. */
  lemma MallocFails(s: State, zp: nat, size: nat)
    requires Inv(s, zp) && size < WORD
    ensures Malloc(s, zp, size).1 == NULL ==> Malloc(s, zp, size).0 == s
    ensures 0 < size ==>
              (Malloc(s, zp, size).1 == NULL <==>
               if Limit(zp) <= size then WORD - PAGE < size || forall p :: !FreeSpan(s.runs, p, PagesFor(size))
               else (forall a :: !Serves(s.regions, a, ZoneIndex(size).0)) &&
                    (forall a :: a in s.regions ==> !s.regions[a].Spare?)
                    && forall p :: !FreeSpan(s.runs, p, zp))
  {
    hide ZonesInv, Live, ChunkSize, ZoneIndex, FirstFit, TakeFrom, Maximal, Covered, Mark, FreeSpan, IsFree, PagesFor,
         NoDup, UsageOf, RegionsApart;
    if 0 < size {
      if Limit(zp) <= size {
        PagesCover(size);
        if 0 < PagesFor(size) {
          FirstFitFails(s.runs, PagesFor(size));
        }
      } else {
        ClassFits(zp, size);
        MallocChunkFails(s, zp, ZoneIndex(size).0);
      }
    }
  }

  lemma MallocChunkFails(s: State, zp: nat, c: nat)
    requires Inv(s, zp) && c < NZONES
    ensures MallocChunk(s, zp, c).1 == NULL ==> MallocChunk(s, zp, c).0 == s
    ensures MallocChunk(s, zp, c).1 == NULL <==>
              (forall a :: !Serves(s.regions, a, c)) && (forall a :: a in s.regions ==> !s.regions[a].Spare?)
              && forall p :: !FreeSpan(s.runs, p, zp)
  {
    hide ZonesInv, Live, ChunkSize, FirstFit, TakeFrom, Maximal, Covered, Mark, FreeSpan, IsFree, NoDup, UsageOf,
         RegionsApart, MallocHead, Gains;
    FirstFitFails(s.runs, zp);
    assert ListOf(s.regions, s.lists[c], c);
    if s.lists[c] != [] {
      ServesHead(s, zp, c);
      MallocHeadKeeps(s, zp, c);
    } else if s.spare != [] {
      assert s.spare[0] in s.spare;
    }
  }

  // ---------------------------------------------------------------------------------
  // Release
  // ---------------------------------------------------------------------------------

  ghost predicate InUse(regions: map<nat, Region>, x: nat) {
    exists n: nat :: Live(regions, x, n)
  }

  /** The page table leads from any object in use back to its region. */
  lemma LookupFinds(s: State, zp: nat, p: nat, x: nat, n: nat)
    requires Inv(s, zp) && p in s.regions && Object(s.regions[p], p, x, n)
    ensures x / PAGE < |s.usage|
    ensures s.regions[p].Large? ==>
            x / PAGE == p && s.usage[p] == Usage(LargePage, s.regions[p].n) && n == s.regions[p].n * PAGE
    ensures s.regions[p].Active? ==> p <= x / PAGE < p + zp && s.usage[x / PAGE] == Usage(SmallPage, x / PAGE - p)
  {
    hide ZonesInv, ListsInv, SpareInv, Maximal, Covered, RegionsApart, LiveIn, ZoneInv;
    ObjectBounds(s.regions, zp, p, x, n);
    assert UsageOf(s.usage, p, s.regions[p], zp);
    if s.regions[p].Active? {
      ZoneOf(s, zp, p);
      ChunkSizeOf(ZoneAt(s, p), p * PAGE, (p + zp) * PAGE);
    }
  }

  lemma ZoneOf(s: State, zp: nat, a: nat)
    requires Inv(s, zp) && a in s.regions && s.regions[a].Active?
    ensures ZoneInv(ZoneAt(s, a), a * PAGE, (a + zp) * PAGE)
  {
  }

  /** What `rt_free` relies on when it follows the page table. */
  lemma FreeReady(s: State, zp: nat, x: nat)
    requires Inv(s, zp) && InUse(s.regions, x)
    ensures x / PAGE < |s.usage|
    ensures var p, u := x / PAGE, s.usage[x / PAGE];
            if u.kind.LargePage? then p in s.regions && s.regions[p] == Large(u.size) && x == p * PAGE
            else u.size <= p && (p - u.size) in s.regions && s.regions[p - u.size].Active? &&
                 LiveIn(ZoneAt(s, p - u.size), x)
  {
    hide Inv, LiveIn;
    var n: nat :| Live(s.regions, x, n);
    var p: nat :| p in s.regions && Object(s.regions[p], p, x, n);
    LookupFinds(s, zp, p, x, n);
  }

  /** Put a chunk back into its zone. */
  ghost function GiveBack(s: State, a: nat, x: nat): State
    requires a in s.regions && s.regions[a].Active? && ZoneAt(s, a).cls < |s.lists|
  {
    var z := ZoneAt(s, a);
    s.(regions := s.regions[a := Active(GiveChunk(z, x))],
       lists := if z.nfree == 0 then s.lists[z.cls := [a] + s.lists[z.cls]] else s.lists)
  }

  /** Take a zone without objects out of its list; keep it as a spare or release its pages. */
  ghost function Retire(s: State, zp: nat, a: nat): State
    requires a in s.regions && s.regions[a].Active? && ZoneAt(s, a).cls < |s.lists| && a + zp <= |s.usage|
  {
    var c := ZoneAt(s, a).cls;
    var lists := s.lists[c := Remove(s.lists[c], a)];
    if |s.spare| < SPARE_LIMIT then s.(regions := s.regions[a := Spare], lists := lists, spare := [a] + s.spare)
    else s.(runs := Insert(s.runs, a, zp), regions := s.regions - {a}, usage := Unmark(s.usage, a, Spare, zp),
         lists := lists)
  }

  ghost function FreeChunk(s: State, zp: nat, a: nat, x: nat): State
    requires a in s.regions && s.regions[a].Active? && ZoneAt(s, a).cls < |s.lists| && a + zp <= |s.usage|
  {
    var t := GiveBack(s, a, x);
    var z := ZoneAt(t, a);
    if z.nfree == z.nmax && t.lists[z.cls] != [a] then Retire(t, zp, a) else t
  }

  lemma ZoneReady(s: State, zp: nat, a: nat)
    requires Inv(s, zp) && a in s.regions && s.regions[a].Active?
    ensures ZoneAt(s, a).cls < |s.lists| && a + zp <= |s.usage|
  {
    hide ListOf, SpareInv, Maximal, Covered, RegionsApart;
    assert UsageOf(s.usage, a, s.regions[a], zp);
  }

  /** `rt_free`, for a pointer that is in use. */
  ghost function Free(s: State, zp: nat, x: nat): State
    requires Inv(s, zp) && InUse(s.regions, x)
  {
    FreeReady(s, zp, x);
    var p, u := x / PAGE, s.usage[x / PAGE];
    if u.kind.LargePage? then
      s.(runs := Insert(s.runs, p, u.size), regions := s.regions - {p}, usage := s.usage[p := Usage(LargePage, 0)])
    else
      ZoneReady(s, zp, p - u.size);
      FreeChunk(s, zp, p - u.size, x)
  }

  ghost predicate Loses(r: map<nat, Region>, r': map<nat, Region>, x: nat) {
    forall y: nat, m: nat :: Live(r', y, m) <==> Live(r, y, m) && y != x
  }

  /** The region at `a` loses its object at `x`, or all it has; other regions have none there. */
  lemma LosesOne(r: map<nat, Region>, r': map<nat, Region>, zp: nat, a: nat, x: nat, n: nat)
    requires SameBut(r, r', a) && a in r && RegionsApart(r, zp) && Sized(r, zp) && ZonesInv(r, zp)
    requires Object(r[a], a, x, n)
    requires forall y: nat, m: nat :: (a in r' && Object(r'[a], a, y, m)) <==> Object(r[a], a, y, m) && y != x
    ensures Loses(r, r', x)
  {
    hide SameBut, Live, LiveElse, Object, RegionsApart, ZonesInv, Sized;
    forall y: nat, m: nat ensures Live(r', y, m) <==> Live(r, y, m) && y != x {
      LiveSplit(r, a, y, m);
      LiveSplit(r', a, y, m);
      LiveSame(r, r', a, y, m);
      if y == x {
        ObjectElse(r, zp, a, x, n, m);
      }
    }
  }

  /** No object of another region starts where one of this region does. */
  lemma ObjectElse(r: map<nat, Region>, zp: nat, a: nat, x: nat, n: nat, m: nat)
    requires a in r && RegionsApart(r, zp) && Sized(r, zp) && ZonesInv(r, zp) && Object(r[a], a, x, n)
    ensures !LiveElse(r, a, x, m)
  {
    hide Object, ZonesInv, Sized;
    ObjectSize(r, zp, a, x, n);
    ObjectBounds(r, zp, a, x, n);
    forall p: nat | p in r && p != a ensures !Object(r[p], p, x, m) {
      if Object(r[p], p, x, m) {
        ObjectBounds(r, zp, p, x, m);
        ObjectSize(r, zp, p, x, m);
      }
    }
  }

  lemma ObjectSize(r: map<nat, Region>, zp: nat, a: nat, x: nat, n: nat)
    requires a in r && ZonesInv(r, zp) && Sized(r, zp) && Object(r[a], a, x, n)
    ensures 0 < n
  {
    hide ZoneInv;
    if r[a].Active? {
      ChunkSizeOf(r[a].zone, a * PAGE, (a + zp) * PAGE);
    }
  }

  lemma GiveBackKeeps(s: State, zp: nat, a: nat, x: nat)
    requires Inv(s, zp) && a in s.regions && s.regions[a].Active? && LiveIn(ZoneAt(s, a), x)
    ensures ZoneAt(s, a).cls < |s.lists|
    ensures Inv(GiveBack(s, a, x), zp) && Loses(s.regions, GiveBack(s, a, x).regions, x)
  {
    hide RegionsInv, ZonesInv, ListOf, SpareInv, RegionsApart, Sized, Live, LiveElse, ZoneInv, LiveIn, NoDup, Loses;
    ZoneOf(s, zp, a);
    ZoneReady(s, zp, a);
    var z, t := ZoneAt(s, a), GiveBack(s, a, x);
    GiveKeeps(z, a * PAGE, (a + zp) * PAGE, x);
    ChangeRegion(s.runs, s.regions, s.usage, zp, a, Active(GiveChunk(z, x)));
    ZonesKeep(s.regions, t.regions, zp, a);
    SpareKeep(s.regions, t.regions, s.spare, a);
    if z.nfree == 0 {
      PushLists(s.regions, t.regions, s.lists, a, z.cls, GiveChunk(z, x));
    } else {
      ListsKeep(s.regions, t.regions, s.lists, a);
    }
    ApartOf(s.runs, s.regions, s.usage, zp);
    LosesOne(s.regions, t.regions, zp, a, x, z.size);
  }

  /** A zone without objects can leave: no object appears or disappears. */
  lemma RetireKeeps(s: State, zp: nat, a: nat)
    requires Inv(s, zp) && a in s.regions && s.regions[a].Active? && ZoneAt(s, a).nfree == ZoneAt(s, a).nmax
    ensures ZoneAt(s, a).cls < |s.lists| && a + zp <= |s.usage|
    ensures Inv(Retire(s, zp, a), zp)
    ensures forall y, m :: Live(Retire(s, zp, a).regions, y, m) <==> Live(s.regions, y, m)
  {
    hide RegionsInv, ZonesInv, ListOf, SpareInv, RegionsApart, Sized, Live, LiveElse, ZoneInv, LiveIn, NoDup, Unmark,
         Insert, Remove;
    ZoneOf(s, zp, a);
    ZoneReady(s, zp, a);
    var t, z := Retire(s, zp, a), ZoneAt(s, a);
    AllFree(z, a * PAGE, (a + zp) * PAGE);
    SpareGrows(s, zp, a);
    RetireLists(s.regions, t.regions, s.lists, a, z.cls);
    ZonesKeep(s.regions, t.regions, zp, a);
    if |s.spare| < SPARE_LIMIT {
      ChangeRegion(s.runs, s.regions, s.usage, zp, a, Spare);
    } else {
      RemoveRegion(s.runs, s.regions, s.usage, zp, a);
      UnmarkZone(s.usage, a, z, zp);
      SpareKeep(s.regions, t.regions, s.spare, a);
    }
    forall y: nat, m: nat ensures Live(t.regions, y, m) <==> Live(s.regions, y, m) {
      LiveSplit(s.regions, a, y, m);
      LiveSplit(t.regions, a, y, m);
      LiveSame(s.regions, t.regions, a, y, m);
    }
  }

  lemma UnmarkZone(usage: seq<Usage>, a: nat, z: Zone, zp: nat)
    requires a + zp <= |usage|
    ensures Unmark(usage, a, Active(z), zp) == Unmark(usage, a, Spare, zp)
  {
  }

  lemma SpareGrows(s: State, zp: nat, a: nat)
    requires SpareInv(s.regions, s.spare) && a in s.regions && s.regions[a].Active?
    ensures |s.spare| < SPARE_LIMIT ==> SpareInv(s.regions[a := Spare], [a] + s.spare)
  {
    PushNoDup(s.spare, a);
  }

  lemma RetireLists(r: map<nat, Region>, r': map<nat, Region>, lists: seq<seq<nat>>, a: nat, c: nat)
    requires ListsInv(r, lists) && SameBut(r, r', a) && c < NZONES
    requires a in r && r[a].Active? && r[a].zone.cls == c && (a in r' ==> r'[a].Spare?)
    ensures ListsInv(r', lists[c := Remove(lists[c], a)])
  {
    hide NoDup, Remove;
    var l := Remove(lists[c], a);
    assert ListOf(r, lists[c], c);
    RemoveNoDup(lists[c], a);
    forall b ensures b in l <==> Serves(r', b, c) {
      assert b in lists[c] <==> Serves(r, b, c);
    }
    ListsStep(r, r', lists, a, c, l);
  }

  /** `rt_free` removes exactly the object it is given. */
  lemma FreeGives(s: State, zp: nat, x: nat)
    requires Inv(s, zp) && InUse(s.regions, x)
    ensures Inv(Free(s, zp, x), zp) && Loses(s.regions, Free(s, zp, x).regions, x)
  {
    hide Inv, InUse, LiveIn, GiveBack, Retire, Insert, Live;
    FreeReady(s, zp, x);
    var p, u := x / PAGE, s.usage[x / PAGE];
    if u.kind.LargePage? {
      FreePagesKeeps(s, zp, p);
    } else {
      var a := p - u.size;
      ZoneReady(s, zp, a);
      GiveBackKeeps(s, zp, a, x);
      var t := GiveBack(s, a, x);
      GiveBackZone(s, a, x);
      if ZoneAt(t, a).nfree == ZoneAt(t, a).nmax {
        RetireKeeps(t, zp, a);
      }
    }
  }

  lemma GiveBackZone(s: State, a: nat, x: nat)
    requires a in s.regions && s.regions[a].Active? && ZoneAt(s, a).cls < |s.lists|
    ensures var t := GiveBack(s, a, x); a in t.regions && t.regions[a].Active?
  {
  }

  lemma FreePagesKeeps(s: State, zp: nat, p: nat)
    requires Inv(s, zp) && p in s.regions && s.regions[p].Large?
    ensures p < |s.usage|
    ensures var t := s.(runs := Insert(s.runs, p, s.regions[p].n), regions := s.regions - {p},
                        usage := s.usage[p := Usage(LargePage, 0)]);
            Inv(t, zp) && Loses(s.regions, t.regions, p * PAGE)
  {
    hide RegionsInv, ZonesInv, ListsInv, SpareInv, RegionsApart, Sized, Live, LiveElse, NoDup, Insert, Loses;
    var regions := s.regions - {p};
    RemoveRegion(s.runs, s.regions, s.usage, zp, p);
    assert Unmark(s.usage, p, s.regions[p], zp) == s.usage[p := Usage(LargePage, 0)];
    ZonesKeep(s.regions, regions, zp, p);
    ListsKeep(s.regions, regions, s.lists, p);
    SpareKeep(s.regions, regions, s.spare, p);
    ApartOf(s.runs, s.regions, s.usage, zp);
    LosesOne(s.regions, regions, zp, p, p * PAGE, s.regions[p].n * PAGE);
  }

  // ---------------------------------------------------------------------------------
  // Where zones come from and go to
  // ---------------------------------------------------------------------------------

  /** The zone at `a` has no other object than the one at `x`. */
  ghost predicate OnlyObject(regions: map<nat, Region>, a: nat, x: nat)
    requires a in regions
  {
    forall y: nat, m: nat :: Object(regions[a], a, y, m) ==> y == x
  }

  /** Another zone than the one at `a` serves its class. */
  ghost predicate ServedElse(regions: map<nat, Region>, a: nat, c: nat) {
    exists b :: b != a && Serves(regions, b, c)
  }

  /** Only the list of class `c` changes, by the zone `a`: it joins at the front, leaves, or stays where it was. */
  ghost predicate ListMoves(lists: seq<seq<nat>>, lists': seq<seq<nat>>, c: nat, a: nat) {
    && |lists'| == |lists| && c < |lists| && (forall k :: 0 <= k < |lists| && k != c ==> lists'[k] == lists[k])
    && if a !in lists'[c] then lists'[c] == Remove(lists[c], a)
       else lists'[c] == if a in lists[c] then lists[c] else [a] + lists[c]
  }

  /**
   A zone is given up exactly when its last object goes and another zone serves its class. It then becomes the newest
   spare zone, or its pages become free when there are two spares already. No other region changes.
   */
  lemma FreeRetires(s: State, zp: nat, a: nat, x: nat, n: nat)
    requires Inv(s, zp) && a in s.regions && s.regions[a].Active? && Object(s.regions[a], a, x, n)
    ensures InUse(s.regions, x)
    ensures var t, c := Free(s, zp, x), ZoneAt(s, a).cls;
            var gone := OnlyObject(s.regions, a, x) && ServedElse(s.regions, a, c);
            && SameBut(s.regions, t.regions, a) && |t.usage| == |s.usage| && ListMoves(s.lists, t.lists, c, a)
            && (a in t.regions && t.regions[a].Active? <==> !gone)
            && (a in t.regions && t.regions[a].Active? ==> ZoneAt(t, a).cls == c && t.spare == s.spare)
            && (gone && |s.spare| < SPARE_LIMIT ==> a in t.regions && t.regions[a].Spare? && t.spare == [a] + s.spare)
            && (gone && SPARE_LIMIT <= |s.spare| ==> t.spare == s.spare && FreeSpan(t.runs, a, zp))
  {
    hide Inv, LiveIn, GiveBack, Retire, Insert, Live, OnlyObject, ServedElse, SameBut, FreeSpan, ZoneInv, ListMoves;
    assert Live(s.regions, x, n) by {
      InRegion(s.regions, a, x, n);
    }
    LookupFinds(s, zp, a, x, n);
    ZoneReady(s, zp, a);
    var t := GiveBack(s, a, x);
    GiveBackKeeps(s, zp, a, x);
    GiveBackLeaves(s, zp, a, x);
    GiveBackMoves(s, zp, a, x);
    if OnlyObject(s.regions, a, x) && ServedElse(s.regions, a, ZoneAt(s, a).cls) {
      RetireKeeps(t, zp, a);
      RetireGoes(t, zp, a);
      SameButTwice(s.regions, t.regions, Retire(t, zp, a).regions, a);
    }
  }

  lemma GiveBackMoves(s: State, zp: nat, a: nat, x: nat)
    requires Inv(s, zp) && a in s.regions && s.regions[a].Active? && LiveIn(ZoneAt(s, a), x)
    ensures ZoneAt(s, a).cls < |s.lists| && a + zp <= |s.usage|
    ensures var t, c := GiveBack(s, a, x), ZoneAt(s, a).cls;
            && ListMoves(s.lists, t.lists, c, a) && a in t.regions && t.regions[a].Active? && ZoneAt(t, a).cls == c
            && ListMoves(s.lists, Retire(t, zp, a).lists, c, a)
  {
    hide ZoneInv, RegionsInv, NoDup, SpareInv, LiveIn, ZonesInv, Remove, Insert, Unmark;
    ZoneReady(s, zp, a);
    var t, z := GiveBack(s, a, x), ZoneAt(s, a);
    assert ListOf(s.regions, s.lists[z.cls], z.cls);
    assert a in s.lists[z.cls] <==> 0 < z.nfree;
    RemoveElements(t.lists[z.cls], a, a);
    if z.nfree == 0 {
      RemovePushed(s.lists[z.cls], a);
    }
  }

  lemma RemovePushed(l: seq<nat>, a: nat)
    ensures Remove([a] + l, a) == Remove(l, a)
  {
    assert ([a] + l)[1..] == l;
  }

  lemma SameButTwice(r: map<nat, Region>, u: map<nat, Region>, v: map<nat, Region>, a: nat)
    requires SameBut(r, u, a) && SameBut(u, v, a)
    ensures SameBut(r, v, a)
  {
  }

  lemma InRegion(regions: map<nat, Region>, a: nat, x: nat, n: nat)
    requires a in regions && Object(regions[a], a, x, n)
    ensures Live(regions, x, n)
  {
    hide Object;
  }

  /** The two tests after a chunk was given back, in terms of the objects and zones before. */
  lemma GiveBackLeaves(s: State, zp: nat, a: nat, x: nat)
    requires Inv(s, zp) && a in s.regions && s.regions[a].Active? && LiveIn(ZoneAt(s, a), x)
    ensures ZoneAt(s, a).cls < |s.lists|
    ensures var t, c := GiveBack(s, a, x), ZoneAt(s, a).cls;
            && a in t.regions && t.regions[a].Active? && ZoneAt(t, a).cls == c && |t.lists| == |s.lists|
            && SameBut(s.regions, t.regions, a) && t.spare == s.spare && t.usage == s.usage && t.runs == s.runs
            && (ZoneAt(t, a).nfree == ZoneAt(t, a).nmax <==> OnlyObject(s.regions, a, x))
            && (t.lists[c] != [a] <==> ServedElse(s.regions, a, c))
  {
    hide ZoneInv, LiveIn, RegionsInv, NoDup, SpareInv;
    ZoneReady(s, zp, a);
    ZoneOf(s, zp, a);
    var t, z := GiveBack(s, a, x), ZoneAt(s, a);
    GiveKeeps(z, a * PAGE, (a + zp) * PAGE, x);
    AllFree(GiveChunk(z, x), a * PAGE, (a + zp) * PAGE);
    if OnlyObject(s.regions, a, x) {
      assert forall y: nat :: LiveIn(z, y) ==> Object(s.regions[a], a, y, z.size);
    }
    GiveBackKeeps(s, zp, a, x);
    assert ListOf(t.regions, t.lists[z.cls], z.cls);
    OnlyInList(t.lists[z.cls], a);
    assert Serves(t.regions, a, z.cls);
    assert forall b :: b != a ==> (Serves(t.regions, b, z.cls) <==> Serves(s.regions, b, z.cls));
  }

  lemma OnlyInList(l: seq<nat>, a: nat)
    requires NoDup(l) && a in l
    ensures l != [a] <==> exists b :: b != a && b in l
  {
    if l != [a] {
      assert l[0] in l;
      assert 1 < |l| && l[1] in l && l[0] != l[1];
    }
  }

  lemma RetireGoes(s: State, zp: nat, a: nat)
    requires Inv(s, zp) && a in s.regions && s.regions[a].Active? && ZoneAt(s, a).nfree == ZoneAt(s, a).nmax
    ensures ZoneAt(s, a).cls < |s.lists| && a + zp <= |s.usage|
    ensures var t := Retire(s, zp, a);
            && SameBut(s.regions, t.regions, a) && |t.usage| == |s.usage|
            && (|s.spare| < SPARE_LIMIT ==> a in t.regions && t.regions[a].Spare? && t.spare == [a] + s.spare)
            && (SPARE_LIMIT <= |s.spare| ==> a !in t.regions && t.spare == s.spare && FreeSpan(t.runs, a, zp))
  {
    hide RegionsInv, ZonesInv, ListsInv, SpareInv, Insert, Remove, IsFree;
    ZoneReady(s, zp, a);
    RemoveRegion(s.runs, s.regions, s.usage, zp, a);
    MaximalOf(s.runs, s.regions, s.usage, zp);
    InsertKeeps(s.runs, a, zp);
  }

  lemma MaximalOf(runs: seq<Run>, regions: map<nat, Region>, usage: seq<Usage>, zp: nat)
    requires RegionsInv(runs, regions, usage, zp)
    ensures Maximal(runs)
  {
  }

  /** The pages of a large object become free, and nothing else changes. */
  lemma FreeReleases(s: State, zp: nat, p: nat)
    requires Inv(s, zp) && p in s.regions && s.regions[p].Large?
    ensures InUse(s.regions, p * PAGE)
    ensures var t := Free(s, zp, p * PAGE);
            && t.regions == s.regions - {p} && t.spare == s.spare && t.lists == s.lists && |t.usage| == |s.usage|
            && FreeSpan(t.runs, p, s.regions[p].n)
            && forall q :: !(p <= q < p + s.regions[p].n) ==> (IsFree(t.runs, q) <==> IsFree(s.runs, q))
  {
    hide ZonesInv, ListsInv, SpareInv, Insert, IsFree, RegionsApart, Covered, UsageOf;
    InRegion(s.regions, p, p * PAGE, s.regions[p].n * PAGE);
    LookupFinds(s, zp, p, p * PAGE, s.regions[p].n * PAGE);
    RemoveRegion(s.runs, s.regions, s.usage, zp, p);
    InsertKeeps(s.runs, p, s.regions[p].n);
  }

  /** The object at `x` comes from the zone at `a`, which is the one to be taken for class `c`. */
  ghost predicate Chosen(s: State, t: State, x: int, zp: nat, c: nat, a: nat) {
    && SameBut(s.regions, t.regions, a) && a in t.regions && t.regions[a].Active? && ZoneAt(t, a).cls == c
    && 0 <= x && LiveIn(ZoneAt(t, a), x) && |t.usage| == |s.usage| && ListMoves(s.lists, t.lists, c, a)
    && if exists b :: Serves(s.regions, b, c) then
         s.lists[c] != [] && a == s.lists[c][0] && Serves(s.regions, a, c) && t.runs == s.runs && t.spare == s.spare
       else if s.spare != [] then a == s.spare[0] && t.spare == s.spare[1..] && t.runs == s.runs
       else && FreeSpan(s.runs, a, zp) && t.spare == s.spare
            && (forall p :: FreeSpan(s.runs, p, zp) ==> a <= p)
            && forall q :: IsFree(t.runs, q) <==> IsFree(s.runs, q) && !(a <= q < a + zp)
  }

  /**
   A small request is served from a zone of its class if one has room, the first of its list; else from the newest
   spare zone; else from the lowest free pages that make a zone.
   */
  lemma MallocChooses(s: State, zp: nat, size: nat) returns (a: nat)
    requires Inv(s, zp) && 0 < size < Limit(zp) && Malloc(s, zp, size).1 != NULL
    ensures size < CLASS_LIMIT && ZoneIndex(size).0 < NZONES
    ensures var (t, x) := Malloc(s, zp, size); Chosen(s, t, x, zp, ZoneIndex(size).0, a)
  {
    hide Inv, ChunkSize, ZoneIndex, MallocHead, OpenZone, FirstFit, TakeFrom, FreeSpan, IsFree, SameBut, LiveIn, Serves;
    hide Mark, ListMoves;
    ZoneSizes(s, zp);
    ClassFits(zp, size);
    var c := ZoneIndex(size).0;
    ClassList(s, zp, c);
    if s.lists[c] != [] {
      a := s.lists[c][0];
      HeadChosen(s, zp, c);
    } else if s.spare != [] {
      a := s.spare[0];
      OpenChosen(s.(spare := s.spare[1..]), s.regions, zp, c, a);
    } else {
      var i := FirstFit(s.runs, zp);
      PagesChosen(s, zp, zp);
      a := s.runs[i].start;
      MarkLength(s.usage, a, Spare, zp);
      OpenChosen(s.(runs := TakeFrom(s.runs, i, zp), usage := Mark(s.usage, a, Spare, zp)), s.regions, zp, c, a);
    }
  }

  lemma ZoneSizes(s: State, zp: nat)
    requires Inv(s, zp)
    ensures zp in {8, 16, 32}
  {
  }

  lemma MarkLength(usage: seq<Usage>, a: nat, r: Region, zp: nat)
    requires a + Length(r, zp) <= |usage|
    ensures |Mark(usage, a, r, zp)| == |usage|
  {
  }

  lemma ClassList(s: State, zp: nat, c: nat)
    requires Inv(s, zp) && c < NZONES
    ensures |s.lists| == NZONES && (s.lists[c] != [] <==> exists b :: Serves(s.regions, b, c))
  {
    hide Serves, ZonesInv, RegionsInv, SpareInv, NoDup;
    assert ListOf(s.regions, s.lists[c], c);
    if s.lists[c] != [] {
      assert s.lists[c][0] in s.lists[c];
    }
  }

  lemma HeadChosen(s: State, zp: nat, c: nat)
    requires Inv(s, zp) && c < NZONES && s.lists[c] != []
    ensures var (t, x) := MallocHead(s, zp, c); var a := s.lists[c][0];
            && Serves(s.regions, a, c) && SameBut(s.regions, t.regions, a) && a in t.regions && t.regions[a].Active?
            && ZoneAt(t, a).cls == c && 0 <= x && LiveIn(ZoneAt(t, a), x)
            && t.runs == s.runs && t.spare == s.spare && t.usage == s.usage && ListMoves(s.lists, t.lists, c, a)
  {
    hide RegionsInv, ZonesInv, SpareInv, ZoneInv, LiveIn, TakeChunk, NoDup, Remove;
    ServesHead(s, zp, c);
    var a := s.lists[c][0];
    var z := ZoneAt(s, a);
    TakeReady(z, a * PAGE, (a + zp) * PAGE);
    Zones.TakeKeeps(z, a * PAGE, (a + zp) * PAGE);
    assert LiveIn(TakeChunk(z).0, TakeChunk(z).1);
    assert ListOf(s.regions, s.lists[c], c);
    DropNoDup(s.lists[c]);
    RemovePushed(s.lists[c][1..], a);
    assert [a] + s.lists[c][1..] == s.lists[c];
    RemoveAbsent(s.lists[c][1..], a);
    assert a in s.lists[c];
  }

  lemma OpenChosen(s: State, regions: map<nat, Region>, zp: nat, c: nat, a: nat)
    requires zp in {8, 16, 32} && c < NZONES && ChunkSize(c) <= Limit(zp) && |s.lists| == NZONES && s.regions == regions
    requires a !in s.lists[c]
    ensures var (t, x) := OpenZone(s, zp, c, a);
            && SameBut(regions, t.regions, a) && a in t.regions && t.regions[a].Active? && ZoneAt(t, a).cls == c
            && 0 <= x && LiveIn(ZoneAt(t, a), x) && t.runs == s.runs && t.spare == s.spare && t.usage == s.usage
            && ListMoves(s.lists, t.lists, c, a)
  {
    hide ChunkSize, LiveIn, ZoneInv;
    assert ([a] + s.lists[c])[0] == a;
    ChunkSizeBounds(c);
    NewZoneInv(c, a * PAGE, zp * PAGE);
  }

  lemma PagesChosen(s: State, zp: nat, n: nat)
    requires Inv(s, zp) && 0 < n && FirstFit(s.runs, n) < |s.runs|
    ensures var i := FirstFit(s.runs, n); var a := s.runs[i].start;
            && a + n <= |s.usage| && FreeSpan(s.runs, a, n) && (forall p :: FreeSpan(s.runs, p, n) ==> a <= p)
            && forall q :: IsFree(TakeFrom(s.runs, i, n), q) <==> IsFree(s.runs, q) && !(a <= q < a + n)
  {
    hide ZonesInv, ListsInv, SpareInv, FirstFit, IsFree, RegionsApart, Covered, UsageOf, TakeFrom;
    var i := FirstFit(s.runs, n);
    RunBounded(s.runs, s.regions, s.usage, zp, i);
    forall p | FreeSpan(s.runs, p, n) ensures s.runs[i].start <= p {
      FirstFitLowest(s.runs, n, p);
    }
    var a := s.runs[i].start;
    forall q
      ensures IsFree(TakeFrom(s.runs, i, n), q) <==> IsFree(s.runs, q) && !(a <= q < a + n)
      ensures a <= q < a + n ==> IsFree(s.runs, q)
    {
      TakePages(s.runs, i, n, q);
    }
  }

  /** A large request is served with the lowest free pages that hold it. */
  lemma MallocPagesChooses(s: State, zp: nat, size: nat)
    requires Inv(s, zp) && Limit(zp) <= size < WORD && Malloc(s, zp, size).1 != NULL
    ensures var (t, x) := Malloc(s, zp, size); var n := PagesFor(size);
            exists a: nat ::
              && x == a * PAGE && t.regions == s.regions[a := Large(n)] && t.lists == s.lists && t.spare == s.spare
              && FreeSpan(s.runs, a, n) && (forall p :: FreeSpan(s.runs, p, n) ==> a <= p)
              && forall q :: IsFree(t.runs, q) <==> IsFree(s.runs, q) && !(a <= q < a + n)
  {
    hide Inv, FirstFit, TakeFrom, FreeSpan, IsFree, PagesFor, Mark;
    var n := PagesFor(size);
    PagesChosen(s, zp, n);
    var a := s.runs[FirstFit(s.runs, n)].start;
    assert Malloc(s, zp, size).1 == a * PAGE;
  }

  // ---------------------------------------------------------------------------------
  // Runs
  // ---------------------------------------------------------------------------------

  /** Pages of the page table of a heap of `n` pages, at four bytes an entry. */
  function TablePages(n: nat): nat {
    RoundUp(4 * n, PAGE) / PAGE
  }

  lemma TableFits(n: nat)
    requires 0 < n
    ensures 0 < TablePages(n) <= n
  {
  }

  /** `rt_system_heap_init`: all pages free but those of the table, whose contents do not matter. */
  function Init(usage: seq<Usage>): State
    requires 0 < |usage|
  {
    TableFits(|usage|);
    var n := TablePages(|usage|);
    State(TakeFrom([Run(0, |usage|)], 0, n), map[0 := Table(n)], usage, seq(NZONES, _ => []), [])
  }

  lemma InitInv(usage: seq<Usage>, zp: nat)
    requires 0 < |usage| && zp in {8, 16, 32}
    ensures Inv(Init(usage), zp) && forall x, n :: !Live(Init(usage).regions, x, n)
  {
    hide TakeFrom, TablePages;
    TableFits(|usage|);
    var s, runs, n := Init(usage), [Run(0, |usage|)], TablePages(|usage|);
    assert RegionsInv(runs, map[], usage, zp) by {
      forall p ensures IsFree(runs, p) <==> 0 <= p < |usage| {
        assert runs[0] in runs && (InRun(runs[0], p) <==> 0 <= p < |usage|);
      }
    }
    AddRegion(runs, map[], usage, zp, 0, Table(n));
    assert Mark(usage, 0, Table(n), zp) == usage;
    assert map[][0 := Table(n)] == s.regions;
  }

  datatype Op = DoMalloc(size: nat) | DoFree(x: nat)

  /** One call by a client that frees only what it holds. */
  ghost function Step(s: State, zp: nat, op: Op): State
    requires Inv(s, zp)
  {
    match op
    case DoMalloc(size) => if size < WORD then Malloc(s, zp, size).0 else s
    case DoFree(x) => if InUse(s.regions, x) then Free(s, zp, x) else s
  }

  lemma StepInv(s: State, zp: nat, op: Op)
    requires Inv(s, zp)
    ensures Inv(Step(s, zp, op), zp)
  {
    hide Inv, InUse, Malloc, Free, Gains, Loses;
    match op {
      case DoMalloc(size) =>
        if size < WORD {
          MallocFails(s, zp, size);
          if Malloc(s, zp, size).1 != NULL {
            MallocGives(s, zp, size);
          }
        }
      case DoFree(x) =>
        if InUse(s.regions, x) {
          FreeGives(s, zp, x);
        }
    }
  }

  /** The state after a run of calls keeps the invariant. */
  ghost function RunAll(usage: seq<Usage>, zp: nat, ops: seq<Op>): (s: State)
    requires 0 < |usage| && zp in {8, 16, 32}
    ensures Inv(s, zp)
  {
    if ops == [] then
      InitInv(usage, zp);
      Init(usage)
    else
      var t := RunAll(usage, zp, ops[..|ops| - 1]);
      StepInv(t, zp, ops[|ops| - 1]);
      Step(t, zp, ops[|ops| - 1])
  }

  /** The pages from `a` on are a zone, in use or spare, with its header at the start. */
  ghost predicate HasHeader(regions: map<nat, Region>, a: nat) {
    a in regions && (regions[a].Active? || regions[a].Spare?)
  }

  /** No object touches the header of a zone. */
  lemma HeaderApart(regions: map<nat, Region>, zp: nat, a: nat, x: nat, n: nat)
    requires RegionsApart(regions, zp) && ZonesInv(regions, zp) && 0 < zp && HasHeader(regions, a)
    requires Live(regions, x, n)
    ensures x + n <= a * PAGE || a * PAGE + ZONE_HEADER <= x
  {
    hide ZoneInv, LiveIn, ZonesInv;
    var p: nat :| p in regions && Object(regions[p], p, x, n);
    ObjectBounds(regions, zp, p, x, n);
    if p != a {
      assert p + Length(regions[p], zp) <= a || a + Length(regions[a], zp) <= p;
    }
  }

  /**
   In every reachable state no two objects overlap, no byte of an object is in a free page, and no
   object touches the header of a zone.
   */
  lemma RunSafe(usage: seq<Usage>, zp: nat, ops: seq<Op>, x: nat, n: nat, y: nat, m: nat)
    requires 0 < |usage| && zp in {8, 16, 32}
    requires Live(RunAll(usage, zp, ops).regions, x, n) && Live(RunAll(usage, zp, ops).regions, y, m)
    ensures (x == y && n == m) || x + n <= y || y + m <= x
    ensures forall b :: x <= b < x + n ==> !IsFree(RunAll(usage, zp, ops).runs, b / PAGE)
    ensures forall a: nat :: HasHeader(RunAll(usage, zp, ops).regions, a) ==>
            x + n <= a * PAGE || a * PAGE + ZONE_HEADER <= x
  {
    hide RegionsInv, ZonesInv, ListsInv, SpareInv, RegionsApart, Sized, RunAll, IsFree, Object, HasHeader;
    var s := RunAll(usage, zp, ops);
    ApartOf(s.runs, s.regions, s.usage, zp);
    LiveApart(s.regions, zp, x, n, y, m);
    var p: nat :| p in s.regions && Object(s.regions[p], p, x, n);
    ObjectBounds(s.regions, zp, p, x, n);
    forall b | x <= b < x + n ensures !IsFree(s.runs, b / PAGE) {
      NotFree(s, zp, p, b / PAGE);
    }
    forall a: nat | HasHeader(s.regions, a) ensures x + n <= a * PAGE || a * PAGE + ZONE_HEADER <= x {
      HeaderApart(s.regions, zp, a, x, n);
    }
  }

  lemma NotFree(s: State, zp: nat, a: nat, p: int)
    requires Inv(s, zp) && a in s.regions && Within(a, s.regions[a], zp, p)
    ensures !IsFree(s.runs, p)
  {
    hide IsFree, Maximal, ZonesInv, ListsInv, SpareInv, RegionsApart, UsageOf;
    assert Covered(s.regions, zp, p);
  }
}
