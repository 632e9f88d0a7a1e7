/**
 Size classes and zones of `slab.c`. A zone is a group of pages that holds a header and an
 array of equal chunks. Chunks up to `uindex` have been handed out at some time; of these
 the ones on the free list are free, the others are in use.
 */
module Zones {
  import opened Seqs

  const PAGE := 4096          // RT_MM_PAGE_SIZE
  const NZONES := 72
  const ZONE_HEADER := 36     // sizeof(slab_zone)
  const CLASS_LIMIT := 16384  // ZALLOC_ZONE_LIMIT

  // ---------------------------------------------------------------------------------
  // Size classes
  // ---------------------------------------------------------------------------------

  /** Least multiple of `m` that is at least `n`. */
  function RoundUp(n: nat, m: nat): nat
    requires 0 < m
  {
    (n + m - 1) / m * m
  }

  /** `zoneindex`: the class of a request and the chunk size of that class. */
  function ZoneIndex(n: nat): (nat, nat)
    requires 0 < n < CLASS_LIMIT
  {
    if n < 128 then (RoundUp(n, 8) / 8 - 1, RoundUp(n, 8))
    else if n < 256 then (RoundUp(n, 16) / 16 + 7, RoundUp(n, 16))
    else if n < 512 then (RoundUp(n, 32) / 32 + 15, RoundUp(n, 32))
    else if n < 1024 then (RoundUp(n, 64) / 64 + 23, RoundUp(n, 64))
    else if n < 2048 then (RoundUp(n, 128) / 128 + 31, RoundUp(n, 128))
    else if n < 4096 then (RoundUp(n, 256) / 256 + 39, RoundUp(n, 256))
    else if n < 8192 then (RoundUp(n, 512) / 512 + 47, RoundUp(n, 512))
    else (RoundUp(n, 1024) / 1024 + 55, RoundUp(n, 1024))
  }

  /** The chunk size of class `i`. */
  function ChunkSize(i: nat): nat
    requires i < NZONES
  {
    if i < 16 then 8 * (i + 1)
    else if i < 24 then 16 * (i - 7)
    else if i < 32 then 32 * (i - 15)
    else if i < 40 then 64 * (i - 23)
    else if i < 48 then 128 * (i - 31)
    else if i < 56 then 256 * (i - 39)
    else if i < 64 then 512 * (i - 47)
    else 1024 * (i - 55)
  }

  lemma RoundUpBounds(n: nat, m: nat)
    requires 0 < m
    ensures n <= RoundUp(n, m) < n + m
  {
  }

  /** The class chosen is the first whose chunks hold the request. */
  lemma ZoneIndexFits(n: nat)
    requires 0 < n < CLASS_LIMIT
    ensures var (i, size) := ZoneIndex(n);
            i < NZONES && size == ChunkSize(i) && n <= size && (0 < i ==> ChunkSize(i - 1) < n)
  {
    if n < 128 {
      assert RoundUp(n, 8) / 8 == (n + 7) / 8;
    } else if n < 256 {
      assert RoundUp(n, 16) / 16 == (n + 15) / 16;
    } else if n < 512 {
      assert RoundUp(n, 32) / 32 == (n + 31) / 32;
    } else if n < 1024 {
      assert RoundUp(n, 64) / 64 == (n + 63) / 64;
    } else if n < 2048 {
      assert RoundUp(n, 128) / 128 == (n + 127) / 128;
    } else if n < 4096 {
      assert RoundUp(n, 256) / 256 == (n + 255) / 256;
    } else if n < 8192 {
      assert RoundUp(n, 512) / 512 == (n + 511) / 512;
    } else {
      assert RoundUp(n, 1024) / 1024 == (n + 1023) / 1024;
    }
  }

  lemma ChunkSizeBounds(i: nat)
    requires i < NZONES
    ensures 8 <= ChunkSize(i) <= CLASS_LIMIT && ChunkSize(i) % 8 == 0
    ensures 0 < i ==> ChunkSize(i - 1) < ChunkSize(i)
  {
  }

  lemma {:induction false} ChunkSizeMono(i: nat, j: nat)
    requires i <= j < NZONES
    ensures ChunkSize(i) <= ChunkSize(j)
    decreases j
  {
    if i < j {
      ChunkSizeMono(i, j - 1);
      ChunkSizeBounds(j);
    }
  }

  /** A request goes to the smallest class whose chunks hold it. */
  lemma ZoneIndexBest(n: nat, j: nat)
    requires 0 < n < CLASS_LIMIT && j < NZONES
    ensures var (i, size) := ZoneIndex(n);
            && i < NZONES && size == ChunkSize(i) && n <= size
            && (n <= ChunkSize(j) <==> i <= j)
  {
    hide ZoneIndex, ChunkSize;
    ZoneIndexFits(n);
    var i := ZoneIndex(n).0;
    if i <= j {
      ChunkSizeMono(i, j);
    } else {
      ChunkSizeMono(j, i - 1);
    }
  }

  // ---------------------------------------------------------------------------------
  // Zones
  // ---------------------------------------------------------------------------------

  /** `slab_zone`, with the free chunks as a sequence of addresses. */
  datatype Zone = Zone(cls: nat, size: nat, base: nat, nmax: nat, uindex: nat, free: seq<nat>, nfree: nat)

  function Chunk(z: Zone, i: nat): nat {
    z.base + i * z.size
  }

  ghost predicate IsChunk(z: Zone, a: nat) {
    exists i :: 0 <= i <= z.uindex && a == Chunk(z, i)
  }

  /** The chunk at `a` is in use. */
  ghost predicate LiveIn(z: Zone, a: nat) {
    IsChunk(z, a) && a !in z.free
  }

  /** A zone that occupies the bytes from `lo` to `hi`, its header first. */
  ghost predicate ZoneInv(z: Zone, lo: nat, hi: nat) {
    && z.cls < NZONES && z.size == ChunkSize(z.cls)
    && lo + ZONE_HEADER <= z.base && z.base + z.nmax * z.size <= hi
    && z.uindex < z.nmax && NoDup(z.free) && (forall a :: a in z.free ==> IsChunk(z, a))
    && z.nfree == (z.nmax - 1 - z.uindex) + |z.free|
  }

  lemma MulMono(i: nat, j: nat, s: nat)
    requires i < j
    ensures i * s + s <= j * s
  {
    assert j * s == (j - i - 1) * s + (i + 1) * s;
  }

  /** Different chunks do not overlap, and lie in the zone behind its header. */
  lemma ChunksApart(z: Zone, lo: nat, hi: nat, a: nat, b: nat)
    requires ZoneInv(z, lo, hi) && IsChunk(z, a) && IsChunk(z, b)
    ensures a == b || a + z.size <= b || b + z.size <= a
    ensures lo + ZONE_HEADER <= a && a + z.size <= hi
  {
    hide ChunkSize, NoDup, Chunk;
    var i :| 0 <= i <= z.uindex && a == Chunk(z, i);
    var j :| 0 <= j <= z.uindex && b == Chunk(z, j);
    ChunkOrder(z, i, z.nmax);
    if i < j {
      ChunkOrder(z, i, j);
    } else if j < i {
      ChunkOrder(z, j, i);
    }
    ChunkEnds(z);
  }

  lemma ChunkOrder(z: Zone, i: nat, j: nat)
    requires i < j
    ensures z.base <= Chunk(z, i) && Chunk(z, i) + z.size <= Chunk(z, j)
  {
    MulMono(i, j, z.size);
  }

  lemma ChunkEnds(z: Zone)
    ensures Chunk(z, z.nmax) == z.base + z.nmax * z.size
  {
  }

  /** Take a chunk: never-used space first, then the free list (lines 559-583). */
  function TakeChunk(z: Zone): (Zone, nat)
    requires 0 < z.nfree && (z.uindex + 1 != z.nmax || z.free != [])
  {
    if z.uindex + 1 != z.nmax then (z.(nfree := z.nfree - 1, uindex := z.uindex + 1), Chunk(z, z.uindex + 1))
    else (z.(nfree := z.nfree - 1, free := z.free[1..]), z.free[0])
  }

  lemma TakeReady(z: Zone, lo: nat, hi: nat)
    requires ZoneInv(z, lo, hi)
    ensures 0 < z.nfree ==> z.uindex + 1 != z.nmax || z.free != []
  {
  }

  /** The chunk handed out was not in use, and nothing else changes hands. */
  lemma TakeKeeps(z: Zone, lo: nat, hi: nat)
    requires ZoneInv(z, lo, hi) && 0 < z.nfree && (z.uindex + 1 != z.nmax || z.free != [])
    ensures var (t, a) := TakeChunk(z);
            && ZoneInv(t, lo, hi) && !LiveIn(z, a) && t.size == z.size && t.cls == z.cls
            && forall x :: LiveIn(t, x) <==> LiveIn(z, x) || x == a
  {
    var (t, a) := TakeChunk(z);
    if z.uindex + 1 != z.nmax {
      TakeFresh(z, lo, hi);
    } else {
      assert a in z.free;
      assert forall x :: IsChunk(t, x) <==> IsChunk(z, x) by {
        assert forall i :: Chunk(t, i) == Chunk(z, i);
      }
      assert forall x :: x in t.free ==> x in z.free;
      assert a !in t.free;
      assert forall x :: x in z.free ==> x == a || x in t.free;
    }
  }

  lemma TakeFresh(z: Zone, lo: nat, hi: nat)
    requires ZoneInv(z, lo, hi) && 0 < z.nfree && z.uindex + 1 != z.nmax
    ensures var (t, a) := TakeChunk(z);
            && ZoneInv(t, lo, hi) && !IsChunk(z, a) && forall x :: LiveIn(t, x) <==> LiveIn(z, x) || x == a
  {
    var (t, a) := TakeChunk(z);
    forall i | 0 <= i <= z.uindex ensures Chunk(z, i) != a && Chunk(t, i) == Chunk(z, i) {
      MulMono(i, z.uindex + 1, z.size);
    }
    assert Chunk(t, t.uindex) == a;
    forall x ensures IsChunk(t, x) <==> IsChunk(z, x) || x == a {
      if IsChunk(z, x) {
        var i :| 0 <= i <= z.uindex && x == Chunk(z, i);
        assert x == Chunk(t, i);
      }
      if IsChunk(t, x) {
        var i :| 0 <= i <= t.uindex && x == Chunk(t, i);
        assert i <= z.uindex ==> x == Chunk(z, i);
      }
    }
  }

  /** Give a chunk back (lines 859-871). */
  function GiveChunk(z: Zone, a: nat): Zone {
    z.(free := [a] + z.free, nfree := z.nfree + 1)
  }

  lemma GiveKeeps(z: Zone, lo: nat, hi: nat, a: nat)
    requires ZoneInv(z, lo, hi) && LiveIn(z, a)
    ensures var t := GiveChunk(z, a);
            ZoneInv(t, lo, hi) && forall x :: LiveIn(t, x) <==> LiveIn(z, x) && x != a
  {
    var t := GiveChunk(z, a);
    assert forall x :: IsChunk(t, x) <==> IsChunk(z, x) by {
      assert forall i :: Chunk(t, i) == Chunk(z, i);
    }
    assert forall x :: x in t.free <==> x == a || x in z.free;
  }

  /** Chunks are handed out in the order of their addresses, and after that the one given back last goes first. */
  lemma TakeChooses(z: Zone, lo: nat, hi: nat, a: nat)
    requires ZoneInv(z, lo, hi) && LiveIn(z, a)
    ensures z.uindex + 1 == z.nmax ==> TakeChunk(GiveChunk(z, a)) == (z, a)
    ensures z.uindex + 1 < z.nmax && 0 < z.nfree ==>
              TakeChunk(z).1 > a && forall x: nat :: IsChunk(z, x) ==> x + z.size <= TakeChunk(z).1
  {
    hide ChunkSize;
    if z.uindex + 1 == z.nmax {
      assert ([a] + z.free)[1..] == z.free;
    } else {
      ChunkSizeBounds(z.cls);
      var y := Chunk(z, z.uindex + 1);
      forall x: nat | IsChunk(z, x) ensures x + z.size <= y {
        var i :| 0 <= i <= z.uindex && x == Chunk(z, i);
        MulMono(i, z.uindex + 1, z.size);
      }
    }
  }

  // ---------------------------------------------------------------------------------
  // A full count of free chunks means that none is in use
  // ---------------------------------------------------------------------------------

  ghost function Chunks(z: Zone, n: nat): set<nat> {
    set i | 0 <= i < n :: Chunk(z, i)
  }

  lemma {:induction false} ChunksCount(z: Zone, n: nat)
    requires 0 < z.size
    ensures |Chunks(z, n)| == n
  {
    if 0 < n {
      ChunksCount(z, n - 1);
      forall i | 0 <= i < n - 1 ensures Chunk(z, i) != Chunk(z, n - 1) {
        MulMono(i, n - 1, z.size);
      }
      assert Chunks(z, n) == Chunks(z, n - 1) + {Chunk(z, n - 1)};
    }
  }

  ghost function ToSet(s: seq<nat>): set<nat> {
    set x | x in s
  }

  lemma {:induction false} NoDupCount(s: seq<nat>)
    requires NoDup(s)
    ensures |ToSet(s)| == |s|
  {
    if s != [] {
      NoDupCount(s[1..]);
      assert ToSet(s) == ToSet(s[1..]) + {s[0]} && s[0] !in s[1..];
    }
  }

  lemma SubsetCount(a: set<nat>, b: set<nat>)
    requires a <= b
    ensures |a| <= |b| && (|a| == |b| ==> a == b)
  {
    assert b == a + (b - a);
  }

  /** `nfree` is at most `nmax`, and reaches it exactly when no chunk is in use. */
  lemma AllFree(z: Zone, lo: nat, hi: nat)
    requires ZoneInv(z, lo, hi)
    ensures z.nfree <= z.nmax
    ensures z.nfree == z.nmax <==> forall x :: !LiveIn(z, x)
  {
    hide ChunkSize, NoDup, Chunk, Chunks;
    ChunkSizeBounds(z.cls);
    var f, all := ToSet(z.free), Chunks(z, z.uindex + 1);
    ChunksCount(z, z.uindex + 1);
    NoDupCount(z.free);
    ChunksAre(z);
    SubsetCount(f, all);
    if forall x :: !LiveIn(z, x) {
      forall x | x in all ensures x in f {
        assert IsChunk(z, x) && !LiveIn(z, x);
      }
      assert f == all;
    }
  }

  lemma ChunksAre(z: Zone)
    ensures forall x :: x in Chunks(z, z.uindex + 1) <==> IsChunk(z, x)
  {
  }

  // ---------------------------------------------------------------------------------
  // New zones
  // ---------------------------------------------------------------------------------

  /** The chunk sizes that are powers of two. */
  predicate IsPowerOfTwo(size: nat) {
    size in {8, 16, 32, 64, 128, 256, 512, 1024, 2048, 4096, 8192, 16384}
  }

  /** The source tests them by `(size | (size - 1)) + 1 == size << 1` on 32-bit words. */
  lemma PowerOfTwoTest(b: bv32)
    requires 8 <= b <= 16384
    ensures (b | (b - 1)) + 1 == b << 1
            <==> b in {8, 16, 32, 64, 128, 256, 512, 1024, 2048, 4096, 8192, 16384}
  {
  }

  /** Offset of the first chunk: aligned to the chunk size if that is a power of two, else to 8. */
  function Offset(size: nat): nat
    requires 0 < size
  {
    if IsPowerOfTwo(size) then RoundUp(ZONE_HEADER, size) else RoundUp(ZONE_HEADER, 8)
  }

  /** A zone set up for chunks of `size` bytes in the bytes from `lo` on, its first chunk handed out. */
  function NewZone(cls: nat, size: nat, lo: nat, bytes: nat): Zone
    requires 0 < size
  {
    var nmax := if Offset(size) <= bytes then (bytes - Offset(size)) / size else 0;
    Zone(cls, size, lo + Offset(size), nmax, 0, [], if 0 < nmax then nmax - 1 else 0)
  }

  /** The header and its alignment take at most the room of one chunk of a large class. */
  lemma OffsetSmall(size: nat)
    requires 8 <= size <= CLASS_LIMIT
    ensures ZONE_HEADER <= Offset(size) <= (if 64 <= size then size else 64)
  {
    hide IsPowerOfTwo;
    RoundUpBounds(ZONE_HEADER, 8);
    RoundUpBounds(ZONE_HEADER, size);
    if 64 <= size {
      RoundUpOnce(ZONE_HEADER, size);
    } else if IsPowerOfTwo(size) {
      OffsetTiny(size);
    }
  }

  lemma RoundUpOnce(n: nat, m: nat)
    requires 0 < n <= m
    ensures RoundUp(n, m) == m
  {
    RoundUpBounds(n, m);
    OneTimes((n + m - 1) / m, m);
  }

  lemma OneTimes(q: nat, m: nat)
    requires 0 < q * m < 2 * m
    ensures q * m == m
  {
    if q != 1 {
      assert q == 0 || q * m == 2 * m + (q - 2) * m;
    }
  }

  lemma OffsetTiny(size: nat)
    requires size < 64 && IsPowerOfTwo(size)
    ensures RoundUp(ZONE_HEADER, size) <= 64
  {
    assert size == 8 || size == 16 || size == 32;
  }

  lemma DivBounds(n: nat, m: nat)
    requires 0 < m && 3 * m <= n
    ensures 3 <= n / m && n / m * m <= n
  {
    var q: nat := n / m;
    if q < 3 {
      MulMono(q, 3, m);
    }
  }

  /** A zone holds as many chunks as fit: no other one does, and the header with its alignment wastes less than one. */
  lemma NewZoneFull(cls: nat, size: nat, lo: nat, bytes: nat)
    requires 0 < size && Offset(size) <= bytes
    ensures var z := NewZone(cls, size, lo, bytes);
            && lo + bytes < z.base + (z.nmax + 1) * size
            && z.base < lo + ZONE_HEADER + (if size < 8 then 8 else size)
  {
    hide IsPowerOfTwo;
    RoundUpBounds(ZONE_HEADER, 8);
    RoundUpBounds(ZONE_HEADER, size);
    var n := bytes - Offset(size);
    assert n == n / size * size + n % size;
    assert (n / size + 1) * size == n / size * size + size;
  }

  /** A zone of at least four times the chunk size leaves room for at least three chunks. */
  lemma NewZoneInv(cls: nat, lo: nat, bytes: nat)
    requires cls < NZONES && 4 * ChunkSize(cls) <= bytes && 32768 <= bytes
    ensures 0 < ChunkSize(cls)
    ensures var z := NewZone(cls, ChunkSize(cls), lo, bytes);
            ZoneInv(z, lo, lo + bytes) && 2 <= z.nfree && forall x :: LiveIn(z, x) <==> x == z.base
  {
    hide Offset, ChunkSize;
    ChunkSizeBounds(cls);
    var size := ChunkSize(cls);
    OffsetSmall(size);
    DivBounds(bytes - Offset(size), size);
    var z := NewZone(cls, size, lo, bytes);
    assert Chunk(z, 0) == z.base;
  }

  // ---------------------------------------------------------------------------------
  // Alignment
  // ---------------------------------------------------------------------------------

  lemma ModUnique(x: nat, q: nat, r: nat, m: nat)
    requires r < m && x == q * m + r
    ensures x % m == r
  {
    var p: nat := x / m;
    assert x == p * m + x % m;
    if p < q {
      MulMono(p, q, m);
    } else if q < p {
      MulMono(q, p, m);
    }
  }

  lemma ModAdd(a: nat, k: nat, m: nat)
    requires 0 < m
    ensures (a + k * m) % m == a % m
  {
    var q: nat := a / m;
    assert a + k * m == (q + k) * m + a % m;
    ModUnique(a + k * m, q + k, a % m, m);
  }

  lemma PageMultiple(k: nat, size: nat)
    requires IsPowerOfTwo(size) && size <= PAGE
    ensures (k * PAGE) % size == 0
  {
    assert PAGE == (PAGE / size) * size;
    assert k * PAGE == (k * (PAGE / size)) * size;
    ModAdd(0, k * (PAGE / size), size);
  }

  /** Chunks whose size is a power of two are aligned to it exactly when their zone is. */
  lemma ChunkAligned(cls: nat, lo: nat, bytes: nat, i: nat)
    requires cls < NZONES && IsPowerOfTwo(ChunkSize(cls))
    ensures 0 < ChunkSize(cls)
    ensures Chunk(NewZone(cls, ChunkSize(cls), lo, bytes), i) % ChunkSize(cls) == 0 <==> lo % ChunkSize(cls) == 0
  {
    hide ChunkSize, IsPowerOfTwo;
    ChunkSizeBounds(cls);
    var size := ChunkSize(cls);
    var q := (ZONE_HEADER + size - 1) / size;
    assert lo + q * size + i * size == lo + (q + i) * size;
    ModAdd(lo, q + i, size);
  }

  /** Zones start at a page, so this holds up to the page size; larger chunks may be misaligned. */
  lemma SmallChunksAligned(cls: nat, page: nat, bytes: nat, i: nat)
    requires cls < NZONES && IsPowerOfTwo(ChunkSize(cls)) && ChunkSize(cls) <= PAGE
    ensures 0 < ChunkSize(cls) && Chunk(NewZone(cls, ChunkSize(cls), page * PAGE, bytes), i) % ChunkSize(cls) == 0
  {
    hide ChunkSize, IsPowerOfTwo;
    ChunkAligned(cls, page * PAGE, bytes, i);
    PageMultiple(page, ChunkSize(cls));
  }

  lemma LargeChunkMisaligned()
    ensures ChunkSize(63) == 8192 && IsPowerOfTwo(8192)
    ensures Chunk(NewZone(63, 8192, PAGE, 32768), 0) % 8192 != 0
  {
    ChunkAligned(63, PAGE, 32768, 0);
  }
}
