/**
 Sequences sorted by a key, elements with equal keys in the order in which they were put in:
 running timers by the time they are due, waiting threads by priority.
 */
module Ordered {
  import opened Seqs

  /** The key of each element: when a timer is due, or the priority of a thread. */
  type Keys = map<nat, nat>

  function At(keys: Keys, x: nat): nat {
    if x in keys then keys[x] else 0
  }

  ghost predicate Sorted(s: seq<nat>, keys: Keys) {
    forall i, j :: 0 <= i < j < |s| ==> At(keys, s[i]) <= At(keys, s[j])
  }

  /** The first `k` elements have keys up to `d`, the others have larger ones. */
  ghost predicate Cut(s: seq<nat>, keys: Keys, d: nat, k: nat) {
    && k <= |s|
    && (forall j :: 0 <= j < k ==> At(keys, s[j]) <= d)
    && (forall j :: k <= j < |s| ==> d < At(keys, s[j]))
  }

  /** Where a linear scan puts an element with key `d`: behind all with keys up to `d`. */
  function Place(s: seq<nat>, keys: Keys, d: nat, x: nat): seq<nat> {
    if s == [] then [x] else if At(keys, s[0]) <= d then [s[0]] + Place(s[1..], keys, d, x) else [x] + s
  }

  lemma Tail(s: seq<nat>, keys: Keys)
    requires s != [] && Sorted(s, keys) && NoDup(s)
    ensures Sorted(s[1..], keys) && NoDup(s[1..]) && s[0] !in s[1..]
    ensures forall x :: x in s <==> x == s[0] || x in s[1..]
    ensures forall x :: x in s ==> At(keys, s[0]) <= At(keys, x)
  {
  }

  lemma ConsSorted(x: nat, s: seq<nat>, keys: Keys)
    requires Sorted(s, keys) && NoDup(s) && x !in s
    requires forall y :: y in s ==> At(keys, x) <= At(keys, y)
    ensures Sorted([x] + s, keys) && NoDup([x] + s)
  {
  }

  lemma {:induction false} PlaceElements(s: seq<nat>, keys: Keys, d: nat, x: nat, y: nat)
    ensures y in Place(s, keys, d, x) <==> y == x || y in s
  {
    if s != [] && At(keys, s[0]) <= d {
      PlaceElements(s[1..], keys, d, x, y);
      assert y in s <==> y == s[0] || y in s[1..];
    }
  }

  /** The scan stops at the cut. */
  lemma {:induction false} PlaceAtCut(s: seq<nat>, keys: Keys, d: nat, x: nat, k: nat)
    requires Cut(s, keys, d, k)
    ensures Place(s, keys, d, x) == s[..k] + [x] + s[k..]
  {
    if 0 < k {
      assert At(keys, s[0]) <= d;
      PlaceAtCut(s[1..], keys, d, x, k - 1);
      assert s[..k] == [s[0]] + s[1..][..k - 1] && s[1..][k - 1..] == s[k..];
    } else {
      assert s == [] || d < At(keys, s[0]);
    }
  }

  /** Placing an element keeps the sequence sorted. */
  lemma {:induction false} PlaceSorted(s: seq<nat>, keys: Keys, x: nat)
    requires Sorted(s, keys) && NoDup(s) && x !in s
    ensures var t := Place(s, keys, At(keys, x), x); Sorted(t, keys) && NoDup(t)
  {
    hide Sorted, NoDup, At;
    if s == [] {
      ConsSorted(x, s, keys);
      assert [x] + s == [x];
    } else {
      Tail(s, keys);
      if At(keys, s[0]) <= At(keys, x) {
        PlaceSorted(s[1..], keys, x);
        var t := Place(s[1..], keys, At(keys, x), x);
        forall y | y in t ensures At(keys, s[0]) <= At(keys, y) && y != s[0] {
          PlaceElements(s[1..], keys, At(keys, x), x, y);
        }
        ConsSorted(s[0], t, keys);
      } else {
        ConsSorted(x, s, keys);
      }
    }
  }

  lemma {:induction false} RemoveSorted(s: seq<nat>, keys: Keys, x: nat)
    requires Sorted(s, keys) && NoDup(s)
    ensures Sorted(Remove(s, x), keys) && NoDup(Remove(s, x))
  {
    hide Sorted, NoDup, At;
    if s != [] {
      Tail(s, keys);
      RemoveSorted(s[1..], keys, x);
      if s[0] != x {
        var t := Remove(s[1..], x);
        forall y | y in t ensures At(keys, s[0]) <= At(keys, y) && y != s[0] {
          RemoveElements(s[1..], x, y);
        }
        ConsSorted(s[0], t, keys);
      }
    }
  }

  /** Placing an element and removing it again leaves the others as they were, in their order. */
  lemma {:induction false} PlaceThenRemove(s: seq<nat>, keys: Keys, d: nat, x: nat)
    requires x !in s
    ensures Remove(Place(s, keys, d, x), x) == s
  {
    if s == [] {
      assert Remove([x], x) == [];
    } else if At(keys, s[0]) <= d {
      PlaceThenRemove(s[1..], keys, d, x);
      var t := Place(s[1..], keys, d, x);
      assert ([s[0]] + t)[1..] == t;
    } else {
      RemoveAbsent(s, x);
      assert ([x] + s)[1..] == s;
    }
  }

  /** Only the keys of the elements in the sequence matter. */
  lemma {:induction false} PlaceFrame(s: seq<nat>, keys: Keys, keys': Keys, d: nat, x: nat)
    requires forall y :: y in s ==> At(keys, y) == At(keys', y)
    ensures Place(s, keys, d, x) == Place(s, keys', d, x)
  {
    if s != [] {
      assert s[0] in s;
      PlaceFrame(s[1..], keys, keys', d, x);
    }
  }

  /** An element linked already is in the sequence twice when it is placed again. */
  lemma {:induction false} PlaceTwice(s: seq<nat>, keys: Keys, d: nat, x: nat)
    requires x in s
    ensures !NoDup(Place(s, keys, d, x))
  {
    if At(keys, s[0]) <= d {
      var t := Place(s[1..], keys, d, x);
      PlaceElements(s[1..], keys, d, x, x);
      if s[0] == x {
        var j :| 0 <= j < |t| && t[j] == x;
        assert ([x] + t)[0] == ([x] + t)[j + 1];
      } else {
        PlaceTwice(s[1..], keys, d, x);
        var i, j :| 0 <= i < j < |t| && t[i] == t[j];
        assert ([s[0]] + t)[i + 1] == ([s[0]] + t)[j + 1];
      }
    } else {
      var j :| 0 <= j < |s| && s[j] == x;
      assert ([x] + s)[0] == ([x] + s)[j + 1];
    }
  }

  /** If `x` is in the sequence, the key `d` is in order with its two neighbours. */
  ghost predicate InPlace(s: seq<nat>, keys: Keys, x: nat, d: nat) {
    var i := Find(s, x);
    && (0 < i < |s| ==> At(keys, s[i - 1]) <= d)
    && (i + 1 < |s| ==> d <= At(keys, s[i + 1]))
  }

  lemma NotThere(s: seq<nat>, keys: Keys, x: nat, d: nat)
    requires x !in s
    ensures InPlace(s, keys, x, d)
  {
  }

  /** A new key for one element leaves the sequence sorted exactly when it is in order with its neighbours. */
  lemma ChangeSorted(s: seq<nat>, keys: Keys, x: nat, d: nat)
    requires Sorted(s, keys) && NoDup(s)
    ensures Sorted(s, keys[x := d]) <==> InPlace(s, keys, x, d)
  {
    hide At;
    var i := Find(s, x);
    AtOther(keys, x, d);
    if i < |s| && InPlace(s, keys, x, d) {
      forall j, k | 0 <= j < k < |s| ensures At(keys[x := d], s[j]) <= At(keys[x := d], s[k]) {
        if j == i && i + 1 < k {
          assert At(keys, s[i + 1]) <= At(keys, s[k]);
        } else if k == i && j < i - 1 {
          assert At(keys, s[j]) <= At(keys, s[i - 1]);
        }
      }
    } else if i < |s| {
      assert 0 < i && !(At(keys, s[i - 1]) <= d) ==> At(keys[x := d], s[i - 1]) > At(keys[x := d], s[i]);
    }
  }

  lemma AtOther(keys: Keys, x: nat, d: nat)
    ensures At(keys[x := d], x) == d && forall y :: y != x ==> At(keys[x := d], y) == At(keys, y)
  {
  }

  /** The longest prefix with keys up to `now`. */
  function UpTo(s: seq<nat>, keys: Keys, now: nat): seq<nat> {
    if s == [] || now < At(keys, s[0]) then [] else [s[0]] + UpTo(s[1..], keys, now)
  }

  lemma {:induction false} UpToPrefix(s: seq<nat>, keys: Keys, now: nat)
    ensures var e := UpTo(s, keys, now);
            && |e| <= |s| && e == s[..|e|] && (Sorted(s, keys) ==> Cut(s, keys, now, |e|))
            && (|e| < |s| ==> now < At(keys, s[|e|]))
  {
    if s != [] && At(keys, s[0]) <= now {
      UpToPrefix(s[1..], keys, now);
      if Sorted(s, keys) {
        assert Sorted(s[1..], keys);
        var k := |UpTo(s, keys, now)|;
        forall j | k <= j < |s| ensures now < At(keys, s[j]) {
          assert s[j] == s[1..][j - 1];
        }
        forall j | 0 <= j < k ensures At(keys, s[j]) <= now {
          assert 0 < j ==> s[j] == s[1..][j - 1];
        }
      }
    }
  }

  lemma {:induction false} UpToFrame(s: seq<nat>, keys: Keys, keys': Keys, now: nat)
    requires forall y :: y in s ==> At(keys, y) == At(keys', y)
    ensures UpTo(s, keys, now) == UpTo(s, keys', now)
  {
    if s != [] {
      assert s[0] in s;
      UpToFrame(s[1..], keys, keys', now);
    }
  }

  /** An element with a larger key goes behind that prefix. */
  lemma {:induction false} UpToPlace(s: seq<nat>, keys: Keys, now: nat, x: nat)
    requires now < At(keys, x)
    ensures var t, e := Place(s, keys, At(keys, x), x), UpTo(s, keys, now);
            && UpTo(t, keys, now) == e && |e| <= |s| < |t|
            && t[|e|..] == Place(s[|e|..], keys, At(keys, x), x)
  {
    if s == [] {
    } else if At(keys, s[0]) <= now {
      UpToPlace(s[1..], keys, now, x);
      var p := Place(s[1..], keys, At(keys, x), x);
      var n := |UpTo(s[1..], keys, now)|;
      assert ([s[0]] + p)[1..] == p;
      assert ([s[0]] + p)[n + 1..] == p[n..] && s[n + 1..] == s[1..][n..];
    } else {
      var t := Place(s, keys, At(keys, x), x);
      assert t[0] == s[0] || t[0] == x;
      assert t[0..] == t && s[0..] == s;
      assert |t| == |s| + 1 by {
        PlaceLength(s, keys, At(keys, x), x);
      }
    }
  }

  lemma {:induction false} PlaceLength(s: seq<nat>, keys: Keys, d: nat, x: nat)
    ensures |Place(s, keys, d, x)| == |s| + 1
  {
    if s != [] {
      PlaceLength(s[1..], keys, d, x);
    }
  }

  lemma UpToStep(s: seq<nat>, keys: Keys, now: nat)
    requires s != [] && At(keys, s[0]) <= now
    ensures UpTo(s, keys, now) == [s[0]] + UpTo(s[1..], keys, now)
  {
  }

  lemma InPrefix(s: seq<nat>, keys: Keys, d: nat, k: nat, x: nat)
    requires Cut(s, keys, d, k)
    ensures x in s[..k] <==> x in s && At(keys, x) <= d
  {
    hide At;
  }

  /** One step of the scan, standing in front of element `i`. */
  lemma PlaceFrom(s: seq<nat>, keys: Keys, d: nat, x: nat, i: nat)
    requires i <= |s|
    ensures s[..i] + Place(s[i..], keys, d, x) ==
            if i < |s| && At(keys, s[i]) <= d then s[..i + 1] + Place(s[i + 1..], keys, d, x) else s[..i] + [x] + s[i..]
  {
    if i < |s| {
      assert s[i..][1..] == s[i + 1..] && s[..i + 1] == s[..i] + [s[i]];
    }
  }
}
