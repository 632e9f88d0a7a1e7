/**
 The bytes of a pool. Headers are stored in the pool itself, so every header written may
 overwrite data; these are the conditions under which the data of blocks in use survives.
 */
module HeapBytes {
  import opened BlockChain

  type Byte = x: int | 0 <= x < 256

  /** Byte `k` of words stored one behind the other, low byte first. */
  function WordByte(words: seq<int>, k: nat): Byte
    requires k < 4 * |words|
  {
    var w := words[k / 4];
    (if k % 4 == 0 then w
     else if k % 4 == 1 then w / 0x100
     else if k % 4 == 2 then w / 0x1_0000
     else w / 0x100_0000) % 256
  }

  /** The data bytes of the blocks in `live` are the same in `d0` and `d1`. */
  ghost predicate Kept(live: set<Block>, h: nat, d0: seq<Byte>, d1: seq<Byte>) {
    |d0| == |d1| && forall b, k :: b in live && b.start + h <= k < b.next && k < |d0| ==> d0[k] == d1[k]
  }

  /** A header written at `p` overlaps no data of the blocks in `live`. */
  ghost predicate Clear(live: set<Block>, p: int) {
    forall b :: b in live ==> p <= b.start || b.next <= p
  }

  /** There is room for a header at `p` in a pool of `len` bytes, clear of the data in `live`. */
  ghost predicate Safe(live: set<Block>, p: int, h: nat, len: nat) {
    0 <= p <= len - h && Clear(live, p)
  }

  /** `n` bytes from `src` in `d0` are found from `dst` in `d1`. */
  ghost predicate CopyOf(d0: seq<Byte>, src: int, d1: seq<Byte>, dst: int, n: nat) {
    && 0 <= src && src + n <= |d0| && 0 <= dst && dst + n <= |d1|
    && d0[src..src + n] == d1[dst..dst + n]
  }

  /** Store words into the header at `p`, from its byte `from` on, as far as the header reaches. */
  method PutHeader(data: array<Byte>, p: nat, h: nat, from: nat, words: seq<int>, ghost live: set<Block>,
                   ghost d0: seq<Byte>)
    requires Safe(live, p, h, data.Length) && Kept(live, h, d0, data[..])
    modifies data
    ensures forall k :: 0 <= k < data.Length && from <= k - p < h && k - p < from + 4 * |words| ==>
              data[k] == WordByte(words, k - p - from)
    ensures forall k :: 0 <= k < data.Length && !(from <= k - p < h && k - p < from + 4 * |words|) ==>
            data[k] == old(data[k])
    ensures Kept(live, h, d0, data[..])
  {
    forall k | 0 <= k < data.Length && from <= k - p < h && k - p < from + 4 * |words| {
      data[k] := WordByte(words, k - p - from);
    }
  }

  /** `rt_memcpy` between two ranges of the pool that do not overlap. */
  method Copy(data: array<Byte>, dst: nat, src: nat, n: nat)
    requires dst + n <= data.Length && src + n <= data.Length && (dst + n <= src || src + n <= dst)
    modifies data
    ensures forall k :: 0 <= k < data.Length && !(dst <= k < dst + n) ==> data[k] == old(data[k])
    ensures forall k :: dst <= k < dst + n ==> data[k] == old(data[src + k - dst])
  {
    var j := 0;
    while j < n
      invariant j <= n
      invariant forall k :: 0 <= k < data.Length && !(dst <= k < dst + j) ==> data[k] == old(data[k])
      invariant forall k :: dst <= k < dst + j ==> data[k] == old(data[src + k - dst])
    {
      data[dst + j] := data[src + j];
      j := j + 1;
    }
  }

  // ---------------------------------------------------------------------------------
  // Which headers may be written
  // ---------------------------------------------------------------------------------

  lemma ClearAt(c: seq<Block>, h: nat, end: nat, j: nat, p: int)
    requires 0 < h && Tiles(c, h, end) && j < |c| && c[j].start <= p < c[j].next
    ensures Clear(UsedSet(c) - {c[j]}, p)
    ensures p == c[j].start || !c[j].used ==> Clear(UsedSet(c), p)
  {
    TilesOrdered(c, h, end);
  }

  /** The headers of block `i` and of what follows it. */
  lemma SafeBlock(c: seq<Block>, h: nat, end: nat, i: nat)
    requires 0 < h && Tiles(c, h, end) && i < |c|
    ensures Safe(UsedSet(c), c[i].start, h, end + h) && Safe(UsedSet(c), c[i].next, h, end + h)
  {
    hide Tiles, UsedSet;
    BlockBounds(c, h, end, i);
    ClearAt(c, h, end, i, c[i].start);
    if i + 1 < |c| {
      BlockBounds(c, h, end, i + 1);
      ClearAt(c, h, end, i + 1, c[i + 1].start);
    } else {
      ClearEnd(c, h, end);
    }
  }

  lemma ClearEnd(c: seq<Block>, h: nat, end: nat)
    requires Tiles(c, h, end)
    ensures Clear(UsedSet(c), end)
  {
    TilesOrdered(c, h, end);
  }

  /** A new header inside block `i`. */
  lemma SafeInside(c: seq<Block>, h: nat, end: nat, i: nat, n: int)
    requires 0 < h && Tiles(c, h, end) && i < |c| && c[i].start < n <= c[i].next - h
    ensures Safe(UsedSet(c) - {c[i]}, n, h, end + h)
    ensures !c[i].used ==> Safe(UsedSet(c), n, h, end + h)
  {
    hide Tiles, UsedSet;
    BlockBounds(c, h, end, i);
    ClearAt(c, h, end, i, n);
  }

  lemma SafeLess(live: set<Block>, b: Block, p: int, h: nat, len: nat)
    requires Safe(live, p, h, len)
    ensures Safe(live - {b}, p, h, len)
  {
  }

  /** The data of all blocks in use but `b`, and the first `keep` bytes of `b`. */
  ghost function Guard(live: set<Block>, b: Block, h: nat, keep: nat): set<Block> {
    live - {b} + {Block(b.start, b.start + h + keep, true)}
  }

  lemma SafeGuard(live: set<Block>, b: Block, keep: nat, p: int, h: nat, len: nat)
    requires Safe(live - {b}, p, h, len) && (p <= b.start || b.start + h + keep <= p)
    ensures Safe(Guard(live, b, h, keep), p, h, len)
  {
  }

  // ---------------------------------------------------------------------------------
  // Which bytes survive
  // ---------------------------------------------------------------------------------

  lemma KeptRefl(live: set<Block>, h: nat, d: seq<Byte>)
    ensures Kept(live, h, d, d)
  {
  }

  lemma KeptLess(live: set<Block>, b: Block, h: nat, d0: seq<Byte>, d1: seq<Byte>)
    requires Kept(live, h, d0, d1)
    ensures Kept(live - {b}, h, d0, d1)
  {
  }

  lemma KeptGuard(live: set<Block>, b: Block, keep: nat, h: nat, d0: seq<Byte>, d1: seq<Byte>)
    requires Kept(Guard(live, b, h, keep), h, d0, d1) && b.start + h + keep <= |d0|
    ensures Kept(live - {b}, h, d0, d1) && CopyOf(d0, b.start + h, d1, b.start + h, keep)
  {
    var x := Block(b.start, b.start + h + keep, true);
    assert x in Guard(live, b, h, keep);
    assert d0[b.start + h..b.start + h + keep] == d1[b.start + h..b.start + h + keep];
  }

  lemma CopyRefl(d: seq<Byte>, p: nat, n: nat)
    requires p + n <= |d|
    ensures CopyOf(d, p, d, p, n)
  {
  }

  /** Bytes through a move: `d0` allocate `d1` copy `d2` free `d3`. */
  lemma MoveBytes(used: set<Block>, b: Block, nb: Block, h: nat, d0: seq<Byte>, d1: seq<Byte>, d2: seq<Byte>,
                  d3: seq<Byte>, n: nat)
    requires b in used && nb !in used && Apart(used + {nb}) && n <= Size(b, h) && n <= Size(nb, h)
    requires b.next <= |d0| && nb.next <= |d0| && |d1| == |d2|
    requires Kept(used, h, d0, d1) && Kept(used - {b} + {nb}, h, d2, d3)
    requires forall k :: 0 <= k < |d2| && !(nb.start + h <= k < nb.start + h + n) ==> d2[k] == d1[k]
    requires forall k :: nb.start + h <= k < nb.start + h + n ==> d2[k] == d1[b.start + k - nb.start]
    ensures Kept(used - {b}, h, d0, d3)
    ensures CopyOf(d0, b.start + h, d3, nb.start + h, n)
  {
    forall x, k | x in used - {b} && x.start + h <= k < x.next && k < |d0| ensures d0[k] == d3[k] {
      ApartPair(used + {nb}, x, nb);
      assert d2[k] == d1[k];
    }
    var src, dst := d0[b.start + h..b.start + h + n], d3[nb.start + h..nb.start + h + n];
    forall k | 0 <= k < n ensures src[k] == dst[k] {
      assert d0[b.start + h + k] == d1[b.start + h + k];
      assert d2[nb.start + h + k] == d3[nb.start + h + k];
    }
    assert src == dst;
  }
}
