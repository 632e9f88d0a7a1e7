/**
 The page allocator of `slab.c`: an address-ordered list of runs of free pages. Addresses
 are page numbers; the list is a sequence of runs.
 */
module Pages {

  /** `struct rt_page_head`: `n` free pages from page `start` on. */
  datatype Run = Run(start: nat, n: nat)

  /** Sorted by address, no run empty, and no two runs touch: every run is maximal. */
  ghost predicate Maximal(r: seq<Run>) {
    && (forall i :: 0 <= i < |r| ==> 0 < r[i].n)
    && (forall i, j :: 0 <= i < j < |r| ==> r[i].start + r[i].n < r[j].start)
  }

  ghost predicate InRun(b: Run, p: int) {
    b.start <= p < b.start + b.n
  }

  /** Page `p` is free. */
  ghost predicate IsFree(r: seq<Run>, p: int) {
    exists b :: b in r && InRun(b, p)
  }

  /** The pages from `a` to `a + n` are all in use. */
  ghost predicate Disjoint(r: seq<Run>, a: nat, n: nat) {
    forall p :: a <= p < a + n ==> !IsFree(r, p)
  }

  /** Both lists describe the same set of free pages. */
  ghost predicate SamePages(r: seq<Run>, s: seq<Run>) {
    forall p :: IsFree(r, p) <==> IsFree(s, p)
  }

  // ---------------------------------------------------------------------------------
  // The free pages determine the list
  // ---------------------------------------------------------------------------------

  lemma Tail(r: seq<Run>)
    requires Maximal(r) && r != []
    ensures Maximal(r[1..]) && 0 < r[0].n && (1 < |r| ==> r[0].start + r[0].n < r[1].start)
    ensures forall p :: IsFree(r[1..], p) ==> r[0].start + r[0].n < p
    ensures forall p :: IsFree(r, p) <==> InRun(r[0], p) || IsFree(r[1..], p)
  {
    assert forall b :: b in r <==> b == r[0] || b in r[1..];
  }

  lemma ConsMaximal(b: Run, r: seq<Run>)
    requires Maximal(r) && 0 < b.n && (r != [] ==> b.start + b.n < r[0].start)
    ensures Maximal([b] + r)
  {
  }

  lemma ConsPages(b: Run, r: seq<Run>, p: int)
    ensures IsFree([b] + r, p) <==> InRun(b, p) || IsFree(r, p)
  {
    if InRun(b, p) {
      assert ([b] + r)[0] == b;
    }
    if IsFree(r, p) {
      var x :| x in r && InRun(x, p);
      assert x in [b] + r;
    }
  }

  /** The run `b` and the pages of `r`, seen as `r` with its first run taken off. */
  lemma HeadPages(r: seq<Run>, p: int)
    requires r != []
    ensures IsFree(r, p) <==> InRun(r[0], p) || IsFree(r[1..], p)
  {
    hide IsFree;
    assert r == [r[0]] + r[1..];
    ConsPages(r[0], r[1..], p);
  }

  lemma FirstRun(r: seq<Run>)
    requires Maximal(r) && r != []
    ensures IsFree(r, r[0].start) && !IsFree(r, r[0].start + r[0].n)
    ensures forall p :: IsFree(r, p) ==> r[0].start <= p
    ensures forall p :: InRun(r[0], p) ==> IsFree(r, p)
  {
    hide Maximal, IsFree;
    Tail(r);
  }

  /** Of all maximal lists only one has a given set of free pages. */
  lemma {:induction false} ListUnique(r: seq<Run>, s: seq<Run>)
    requires Maximal(r) && Maximal(s) && SamePages(r, s)
    ensures r == s
  {
    if r != [] && s != [] {
      FirstRun(r);
      FirstRun(s);
      Tail(r);
      Tail(s);
      assert r[0].start == s[0].start;
      assert r[0].n == s[0].n by {
        assert IsFree(r, s[0].start + s[0].n) <==> IsFree(s, s[0].start + s[0].n);
        assert IsFree(r, r[0].start + r[0].n) <==> IsFree(s, r[0].start + r[0].n);
      }
      ListUnique(r[1..], s[1..]);
      assert r == [r[0]] + r[1..] && s == [s[0]] + s[1..];
    } else if r != [] {
      FirstRun(r);
    } else if s != [] {
      FirstRun(s);
    }
  }

  // ---------------------------------------------------------------------------------
  // Allocation
  // ---------------------------------------------------------------------------------

  /** First run with at least `n` pages; `|r|` when there is none. */
  function FirstFit(r: seq<Run>, n: nat): (i: nat)
    ensures i <= |r| && (i < |r| ==> n <= r[i].n) && forall j :: 0 <= j < i ==> r[j].n < n
  {
    if r == [] || n <= r[0].n then 0 else 1 + FirstFit(r[1..], n)
  }

  /** The pages from `p` to `p + n` are all free. */
  ghost predicate FreeSpan(r: seq<Run>, p: int, n: nat) {
    forall q :: p <= q < p + n ==> IsFree(r, q)
  }

  lemma PastRun(r: seq<Run>, i: nat)
    requires Maximal(r) && i < |r|
    ensures !IsFree(r, r[i].start + r[i].n)
  {
  }

  /** As runs are maximal, the search fails exactly when no `n` neighbouring pages are free. */
  lemma FirstFitFails(r: seq<Run>, n: nat)
    requires Maximal(r) && 0 < n
    ensures FirstFit(r, n) == |r| <==> forall p :: !FreeSpan(r, p, n)
  {
    hide FirstFit, Maximal;
    var i := FirstFit(r, n);
    if i < |r| {
      assert r[i] in r;
      assert forall q :: r[i].start <= q < r[i].start + n ==> InRun(r[i], q);
      assert FreeSpan(r, r[i].start, n);
    } else {
      forall p ensures !FreeSpan(r, p, n) {
        if IsFree(r, p) {
          var b :| b in r && InRun(b, p);
          var j :| 0 <= j < |r| && r[j] == b;
          PastRun(r, j);
        }
      }
    }
  }

  /** The pages found are the lowest that will do. */
  lemma FirstFitLowest(r: seq<Run>, n: nat, p: int)
    requires Maximal(r) && 0 < n && FreeSpan(r, p, n)
    ensures FirstFit(r, n) < |r| && r[FirstFit(r, n)].start <= p
  {
    hide FirstFit;
    assert IsFree(r, p);
    var b :| b in r && InRun(b, p);
    var j :| 0 <= j < |r| && r[j] == b;
    PastRun(r, j);
    assert n <= r[j].n;
    var i := FirstFit(r, n);
    assert i < j ==> r[i].start + r[i].n < r[j].start;
  }

  /** The list without the first `n` pages of run `i`. */
  function TakeFrom(r: seq<Run>, i: nat, n: nat): seq<Run>
    requires i < |r| && n <= r[i].n
  {
    if r[i].n > n then r[i := Run(r[i].start + n, r[i].n - n)] else r[..i] + r[i + 1..]
  }

  lemma TakeStep(r: seq<Run>, i: nat, n: nat)
    requires i < |r| && n <= r[i].n
    ensures 0 < i ==> TakeFrom(r, i, n) == [r[0]] + TakeFrom(r[1..], i - 1, n)
    ensures i == 0 ==> TakeFrom(r, 0, n) == if r[0].n > n then [Run(r[0].start + n, r[0].n - n)] + r[1..] else r[1..]
  {
    if 0 < i && r[i].n == n {
      assert r[..i] == [r[0]] + r[1..][..i - 1];
      assert r[i + 1..] == r[1..][i..];
    }
  }

  lemma {:induction false} TakeMaximal(r: seq<Run>, i: nat, n: nat)
    requires Maximal(r) && i < |r| && 0 < n <= r[i].n
    ensures var t := TakeFrom(r, i, n); Maximal(t) && (t != [] ==> r[0].start <= t[0].start)
  {
    hide Maximal, TakeFrom;
    Tail(r);
    TakeStep(r, i, n);
    if i == 0 {
      if r[0].n > n {
        ConsMaximal(Run(r[0].start + n, r[0].n - n), r[1..]);
      }
    } else {
      TakeMaximal(r[1..], i - 1, n);
      ConsMaximal(r[0], TakeFrom(r[1..], i - 1, n));
    }
  }

  lemma {:induction false} TakePages(r: seq<Run>, i: nat, n: nat, p: int)
    requires Maximal(r) && i < |r| && 0 < n <= r[i].n
    ensures IsFree(TakeFrom(r, i, n), p) <==> IsFree(r, p) && !(r[i].start <= p < r[i].start + n)
    ensures r[i].start <= p < r[i].start + n ==> IsFree(r, p)
  {
    hide Maximal, IsFree, TakeFrom;
    Tail(r);
    HeadPages(r, p);
    TakeStep(r, i, n);
    if i == 0 {
      if r[0].n > n {
        ConsPages(Run(r[0].start + n, r[0].n - n), r[1..], p);
      }
    } else {
      TakePages(r[1..], i - 1, n, p);
      ConsPages(r[0], TakeFrom(r[1..], i - 1, n), p);
    }
  }

  /** Taking pages off the front of a run keeps the list and removes exactly those pages. */
  lemma TakeKeeps(r: seq<Run>, i: nat, n: nat)
    requires Maximal(r) && i < |r| && 0 < n <= r[i].n
    ensures Maximal(TakeFrom(r, i, n))
    ensures forall p :: IsFree(TakeFrom(r, i, n), p) <==> IsFree(r, p) && !(r[i].start <= p < r[i].start + n)
    ensures forall p :: r[i].start <= p < r[i].start + n ==> IsFree(r, p)
  {
    hide Maximal, IsFree, TakeFrom;
    TakeMaximal(r, i, n);
    forall p {
      TakePages(r, i, n, p);
    }
  }

  // ---------------------------------------------------------------------------------
  // Release
  // ---------------------------------------------------------------------------------

  /** `rt_page_free`: put the pages from `a` on into the list, joining runs they touch. */
  function Insert(r: seq<Run>, a: nat, n: nat): seq<Run> {
    if r == [] then [Run(a, n)]
    else if r[0].start + r[0].n == a then
      if 1 < |r| && a + n == r[1].start then [Run(r[0].start, r[0].n + n + r[1].n)] + r[2..]
      else [Run(r[0].start, r[0].n + n)] + r[1..]
    else if r[0].start == a + n then [Run(a, n + r[0].n)] + r[1..]
    else if r[0].start > a + n then [Run(a, n)] + r
    else [r[0]] + Insert(r[1..], a, n)
  }

  /** A release adds exactly the released pages. */
  lemma {:induction false} InsertPages(r: seq<Run>, a: nat, n: nat, p: int)
    requires 0 < n
    ensures IsFree(Insert(r, a, n), p) <==> IsFree(r, p) || a <= p < a + n
  {
    if r == [] {
      ConsPages(Run(a, n), [], p);
      assert [Run(a, n)] + [] == [Run(a, n)];
    } else {
      hide IsFree;
      HeadPages(r, p);
      if r[0].start + r[0].n == a {
        if 1 < |r| && a + n == r[1].start {
          HeadPages(r[1..], p);
          assert r[1..][1..] == r[2..];
          ConsPages(Run(r[0].start, r[0].n + n + r[1].n), r[2..], p);
        } else {
          ConsPages(Run(r[0].start, r[0].n + n), r[1..], p);
        }
      } else if r[0].start == a + n {
        ConsPages(Run(a, n + r[0].n), r[1..], p);
      } else if r[0].start > a + n {
        ConsPages(Run(a, n), r, p);
      } else {
        InsertPages(r[1..], a, n, p);
        ConsPages(r[0], Insert(r[1..], a, n), p);
      }
    }
  }

  /** Where the first run lies relative to pages that are in use. */
  lemma FirstApart(r: seq<Run>, a: nat, n: nat)
    requires Maximal(r) && r != [] && 0 < n && Disjoint(r, a, n)
    ensures r[0].start + r[0].n <= a || a + n <= r[0].start
    ensures Disjoint(r[1..], a, n)
  {
    hide IsFree, Maximal;
    Tail(r);
    HeadPages(r, a);
    HeadPages(r, r[0].start);
    forall p | a <= p < a + n ensures !IsFree(r[1..], p) {
      HeadPages(r, p);
    }
  }

  /** A release keeps the list sorted with maximal runs. */
  lemma {:induction false} InsertMaximal(r: seq<Run>, a: nat, n: nat)
    requires Maximal(r) && 0 < n && Disjoint(r, a, n)
    ensures var t := Insert(r, a, n);
            Maximal(t) && t != [] && (t[0].start == a || (r != [] && t[0].start == r[0].start))
  {
    hide IsFree, Disjoint, Maximal;
    if r == [] {
      ConsMaximal(Run(a, n), r);
      assert [Run(a, n)] + r == [Run(a, n)];
    } else {
      Tail(r);
      FirstApart(r, a, n);
      if 1 < |r| {
        Tail(r[1..]);
        FirstApart(r[1..], a, n);
      }
      if r[0].start + r[0].n == a {
        if 1 < |r| && a + n == r[1].start {
          assert r[1..][1..] == r[2..];
          ConsMaximal(Run(r[0].start, r[0].n + n + r[1].n), r[2..]);
        } else {
          ConsMaximal(Run(r[0].start, r[0].n + n), r[1..]);
        }
      } else if r[0].start == a + n {
        ConsMaximal(Run(a, n + r[0].n), r[1..]);
      } else if r[0].start > a + n {
        ConsMaximal(Run(a, n), r);
      } else {
        InsertMaximal(r[1..], a, n);
        ConsMaximal(r[0], Insert(r[1..], a, n));
      }
    }
  }

  lemma InsertKeeps(r: seq<Run>, a: nat, n: nat)
    requires Maximal(r) && 0 < n && Disjoint(r, a, n)
    ensures Maximal(Insert(r, a, n))
    ensures forall p :: IsFree(Insert(r, a, n), p) <==> IsFree(r, p) || a <= p < a + n
  {
    hide IsFree, Maximal, Insert;
    InsertMaximal(r, a, n);
    forall p ensures IsFree(Insert(r, a, n), p) <==> IsFree(r, p) || a <= p < a + n {
      InsertPages(r, a, n, p);
    }
  }

  // ---------------------------------------------------------------------------------
  // Order does not matter, and nothing is lost
  // ---------------------------------------------------------------------------------

  function InsertAll(r: seq<Run>, freed: seq<Run>): seq<Run> {
    if freed == [] then r
    else Insert(InsertAll(r, freed[..|freed| - 1]), freed[|freed| - 1].start, freed[|freed| - 1].n)
  }

  /** Runs of pages in use that do not overlap, so that they can be released one by one. */
  ghost predicate Releasable(r: seq<Run>, freed: seq<Run>) {
    && (forall b :: b in freed ==> 0 < b.n && Disjoint(r, b.start, b.n))
    && (forall i, j :: 0 <= i < j < |freed| ==>
       freed[i].start + freed[i].n <= freed[j].start || freed[j].start + freed[j].n <= freed[i].start)
  }

  /** One step of the walk through the list, standing in front of run `i`. */
  lemma InsertFrom(r: seq<Run>, i: nat, a: nat, n: nat)
    requires i <= |r|
    ensures r[..i] + Insert(r[i..], a, n) ==
            if i == |r| then r[..i] + [Run(a, n)] + r[i..]
            else if r[i].start + r[i].n == a then
              if i + 1 < |r| && a + n == r[i + 1].start then
                r[..i] + [Run(r[i].start, r[i].n + n + r[i + 1].n)] + r[i + 2..]
              else r[..i] + [Run(r[i].start, r[i].n + n)] + r[i + 1..]
            else if r[i].start == a + n then r[..i] + [Run(a, n + r[i].n)] + r[i + 1..]
            else if r[i].start > a + n then r[..i] + [Run(a, n)] + r[i..]
            else r[..i + 1] + Insert(r[i + 1..], a, n)
  {
    if i < |r| {
      assert r[i..][1..] == r[i + 1..] && r[..i + 1] == r[..i] + [r[i]];
      if i + 1 < |r| {
        assert r[i..][2..] == r[i + 2..];
      }
    }
  }

  lemma {:induction false} InsertAllKeeps(r: seq<Run>, freed: seq<Run>)
    requires Maximal(r) && Releasable(r, freed)
    ensures Maximal(InsertAll(r, freed))
    ensures forall p :: IsFree(InsertAll(r, freed), p) <==> IsFree(r, p) || IsFree(freed, p)
  {
    if freed != [] {
      var k := |freed| - 1;
      var rest, b := freed[..k], freed[k];
      InsertAllKeeps(r, rest);
      LastPages(freed);
      assert b in freed;
      assert Disjoint(InsertAll(r, rest), b.start, b.n);
      InsertKeeps(InsertAll(r, rest), b.start, b.n);
    }
  }

  lemma LastPages(f: seq<Run>)
    requires f != []
    ensures forall p :: IsFree(f, p) <==> InRun(f[|f| - 1], p) || IsFree(f[..|f| - 1], p)
  {
    var k := |f| - 1;
    assert f[k] in f;
    assert forall b :: b in f <==> b == f[k] || b in f[..k];
  }

  /** Two orders, or two ways of cutting them up, of releasing the same pages give the same list. */
  lemma ReleaseOrderFree(r: seq<Run>, f: seq<Run>, g: seq<Run>)
    requires Maximal(r) && Releasable(r, f) && Releasable(r, g) && SamePages(f, g)
    ensures InsertAll(r, f) == InsertAll(r, g)
  {
    hide Maximal, Releasable, IsFree, InsertAll;
    InsertAllKeeps(r, f);
    InsertAllKeeps(r, g);
    ListUnique(InsertAll(r, f), InsertAll(r, g));
  }

  /** Releasing what was just allocated restores the list. */
  lemma AllocThenFree(r: seq<Run>, i: nat, n: nat)
    requires Maximal(r) && i < |r| && 0 < n <= r[i].n
    ensures Insert(TakeFrom(r, i, n), r[i].start, n) == r
  {
    hide IsFree, Maximal, Insert, TakeFrom;
    TakeKeeps(r, i, n);
    InsertKeeps(TakeFrom(r, i, n), r[i].start, n);
    ListUnique(Insert(TakeFrom(r, i, n), r[i].start, n), r);
  }

  // ---------------------------------------------------------------------------------
  // The list object
  // ---------------------------------------------------------------------------------

  const NULL := -1

  class PageList {
    var list: seq<Run>  // rt_page_list

    constructor ()
      ensures list == []
    {
      list := [];
    }

    /** `rt_page_alloc`. */
    method Alloc(npages: nat) returns (addr: int)
      modifies this
      ensures var r, i := old(list), FirstFit(old(list), npages);
              if npages == 0 || i == |r| then addr == NULL && list == r
              else addr == r[i].start && list == TakeFrom(r, i, npages)
    {
      if npages == 0 {
        return NULL;
      }
      var i := 0;
      while i < |list|
        invariant 0 <= i <= |list| && list == old(list)
        invariant forall j :: 0 <= j < i ==> list[j].n < npages
      {
        var b := list[i];
        if b.n > npages {
          list := list[i := Run(b.start + npages, b.n - npages)];
          return b.start;
        }
        if b.n == npages {
          list := list[..i] + list[i + 1..];
          return b.start;
        }
        i := i + 1;
      }
      return NULL;
    }

    /** `rt_page_free`. */
    method Free(addr: nat, npages: nat)
      requires 0 < npages && Disjoint(list, addr, npages)
      modifies this
      ensures list == Insert(old(list), addr, npages)
    {
      hide Insert;
      var i := 0;
      ghost var r := list;
      assert r[..0] == [] && r[0..] == r && [] + Insert(r, addr, npages) == Insert(r, addr, npages);
      while i < |list|
        invariant 0 <= i <= |list| && list == r
        invariant Insert(r, addr, npages) == r[..i] + Insert(r[i..], addr, npages)
      {
        var b := list[i];
        InsertFrom(r, i, addr, npages);
        if b.start + b.n == addr {
          b := Run(b.start, b.n + npages);
          if i + 1 < |list| && b.start + b.n == list[i + 1].start {
            list := list[..i] + [Run(b.start, b.n + list[i + 1].n)] + list[i + 2..];
          } else {
            list := list[..i] + [b] + list[i + 1..];
          }
          return;
        }
        if b.start == addr + npages {
          list := list[..i] + [Run(addr, b.n + npages)] + list[i + 1..];
          return;
        }
        if b.start > addr + npages {
          break;
        }
        i := i + 1;
      }
      InsertFrom(r, i, addr, npages);
      list := list[..i] + [Run(addr, npages)] + list[i..];
    }
  }
}
