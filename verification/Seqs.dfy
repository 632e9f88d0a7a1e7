/** Sequences without repetitions: lists of zones, timers and threads. */
module Seqs {

  ghost predicate NoDup(s: seq<nat>) {
    forall i, j :: 0 <= i < j < |s| ==> s[i] != s[j]
  }

  /** The sequence without `x`. */
  function Remove(s: seq<nat>, x: nat): seq<nat> {
    if s == [] then [] else if s[0] == x then Remove(s[1..], x) else [s[0]] + Remove(s[1..], x)
  }

  /** Index of the first `x`; `|s|` when there is none. */
  function Find(s: seq<nat>, x: nat): (k: nat)
    ensures k <= |s| && (k < |s| ==> s[k] == x) && (k == |s| ==> x !in s)
  {
    if s == [] || s[0] == x then 0 else 1 + Find(s[1..], x)
  }

  lemma PushNoDup(s: seq<nat>, x: nat)
    requires NoDup(s) && x !in s
    ensures NoDup([x] + s) && forall y :: y in [x] + s <==> y == x || y in s
  {
  }

  lemma AppendNoDup(s: seq<nat>, x: nat)
    requires NoDup(s) && x !in s
    ensures NoDup(s + [x]) && forall y :: y in s + [x] <==> y == x || y in s
  {
  }

  lemma AppendTwice(s: seq<nat>, x: nat)
    requires x in s
    ensures !NoDup(s + [x])
  {
    var i :| 0 <= i < |s| && s[i] == x;
    assert (s + [x])[i] == (s + [x])[|s|];
  }

  lemma DropNoDup(s: seq<nat>)
    requires NoDup(s) && s != []
    ensures NoDup(s[1..]) && forall y :: y in s[1..] <==> y != s[0] && y in s
  {
  }

  lemma {:induction false} RemoveElements(s: seq<nat>, x: nat, y: nat)
    ensures y in Remove(s, x) <==> y != x && y in s
  {
    if s != [] {
      RemoveElements(s[1..], x, y);
      assert y in s <==> y == s[0] || y in s[1..];
    }
  }

  lemma {:induction false} RemoveNoDup(s: seq<nat>, x: nat)
    requires NoDup(s)
    ensures NoDup(Remove(s, x)) && forall y :: y in Remove(s, x) <==> y != x && y in s
  {
    forall y ensures y in Remove(s, x) <==> y != x && y in s {
      RemoveElements(s, x, y);
    }
    if s != [] {
      RemoveNoDup(s[1..], x);
      RemoveElements(s[1..], x, s[0]);
      if s[0] != x {
        PushNoDup(Remove(s[1..], x), s[0]);
      }
    }
  }

  lemma {:induction false} RemoveAbsent(s: seq<nat>, x: nat)
    requires x !in s
    ensures Remove(s, x) == s
  {
    if s != [] {
      RemoveAbsent(s[1..], x);
    }
  }

  lemma {:induction false} RemoveAppend(s: seq<nat>, x: nat)
    ensures Remove(s + [x], x) == Remove(s, x)
  {
    if s == [] {
      assert [x][1..] == [] && s + [x] == [x];
    } else {
      RemoveAppend(s[1..], x);
      assert (s + [x])[1..] == s[1..] + [x];
    }
  }

  lemma RemoveTwice(s: seq<nat>, x: nat)
    ensures Remove(Remove(s, x), x) == Remove(s, x)
  {
    hide Remove;
    RemoveElements(s, x, x);
    RemoveAbsent(Remove(s, x), x);
  }

  /** Removing the element at one index. */
  lemma {:induction false} RemoveAt(s: seq<nat>, i: nat)
    requires NoDup(s) && i < |s|
    ensures Remove(s, s[i]) == s[..i] + s[i + 1..]
  {
    DropNoDup(s);
    if 0 < i {
      RemoveAt(s[1..], i - 1);
      assert s[..i] == [s[0]] + s[1..][..i - 1];
      assert s[1..][i..] == s[i + 1..];
    } else {
      RemoveAbsent(s[1..], s[0]);
    }
  }
}
