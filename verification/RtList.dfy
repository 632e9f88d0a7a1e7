/**
 The intrusive doubly linked ring of `rtservice.h`. A ring is described by the sequence
 of its nodes, starting at the list head.
 */
module RtList {

  class Node {
    var next: Node
    var prev: Node

    /** `rt_list_init`: a node linked to itself. */
    constructor ()
      ensures Ring([this])
    {
      next := this;
      prev := this;
    }
  }

  ghost predicate Distinct(s: seq<Node>) {
    forall i, j :: 0 <= i < j < |s| ==> s[i] != s[j]
  }

  /** Following `next` goes round `s`, following `prev` goes round it backwards. */
  ghost predicate Ring(s: seq<Node>)
    reads s
  {
    && Distinct(s)
    && (forall i, j :: 0 <= i && j == i + 1 && j < |s| ==> s[i].next == s[j] && s[j].prev == s[i])
    && (s != [] ==> s[|s| - 1].next == s[0] && s[0].prev == s[|s| - 1])
  }

  /** Where a ring is entered does not matter. */
  lemma Rotate(s: seq<Node>, k: nat)
    requires Ring(s) && k <= |s|
    ensures Ring(s[k..] + s[..k])
  {
    var t := s[k..] + s[..k];
    if 0 < k < |s| {
      var n := |s| - k;
      forall i, j | 0 <= i && j == i + 1 && j < |t| ensures t[i].next == t[j] && t[j].prev == t[i] {
        if j < n {
          assert t[i] == s[i + k] && t[j] == s[j + k];
        } else if i < n {
          assert t[i] == s[|s| - 1] && t[j] == s[0];
        } else {
          assert t[i] == s[i - n] && t[j] == s[j - n];
        }
      }
      assert t[0] == s[k] && t[|t| - 1] == s[k - 1];
    } else {
      assert t == s;
    }
  }

  /** The neighbours of a node of a ring. */
  lemma Around(r: seq<Node>, k: nat)
    requires Ring(r) && k < |r|
    ensures r[k].next == r[if k + 1 < |r| then k + 1 else 0] && r[k].prev == r[if 0 < k then k - 1 else |r| - 1]
  {
    if k + 1 < |r| {
      assert r[k].next == r[k + 1];
    }
    if 0 < k {
      assert r[k - 1].next == r[k];
    }
  }

  /** The ring with `n` linked in front of position `k`. */
  function With(r: seq<Node>, k: nat, n: Node): seq<Node>
    requires k <= |r|
  {
    r[..k] + [n] + r[k..]
  }

  lemma WithAt(r: seq<Node>, k: nat, n: Node)
    requires Distinct(r) && k <= |r| && n !in r
    ensures var t := With(r, k, n);
            && Distinct(t) && |t| == |r| + 1 && t[k] == n
            && (forall i :: 0 <= i < k ==> t[i] == r[i]) && (forall i :: k < i < |t| ==> t[i] == r[i - 1])
  {
  }

  /** `rt_list_insert_after`: the node joins the ring right behind `l`. */
  method InsertAfter(l: Node, n: Node, ghost r: seq<Node>, ghost k: nat)
    requires Ring(r) && k < |r| && r[k] == l && n !in r
    modifies l, l.next, n
    ensures Ring(With(r, k + 1, n))
  {
    hide With;
    WithAt(r, k + 1, n);
    ghost var t := With(r, k + 1, n);
    assert forall i :: 0 <= i < |r| ==> r[i] in r;
    Around(r, k);
    l.next.prev := n;
    n.next := l.next;
    l.next := n;
    n.prev := l;
    forall i, j | 0 <= i && j == i + 1 && j < |t| ensures t[i].next == t[j] && t[j].prev == t[i] {
      if i < k {
        assert old(r[i].next == r[j] && r[j].prev == r[i]);
      } else if i > k + 1 {
        assert old(r[i - 1].next == r[j - 1] && r[j - 1].prev == r[i - 1]);
      }
    }
  }

  /** `rt_list_insert_before`: the node joins the ring right in front of `l`. */
  method InsertBefore(l: Node, n: Node, ghost r: seq<Node>, ghost k: nat)
    requires Ring(r) && k < |r| && r[k] == l && n !in r
    modifies l, l.prev, n
    ensures Ring(With(r, k, n))
    ensures k == 0 ==> Ring(r + [n])
  {
    Link(l, n, r, k);
    ghost var t := With(r, k, n);
    if k == 0 {
      Rotate(t, 1);
      assert t[1..] + t[..1] == r + [n];
    }
  }

  method Link(l: Node, n: Node, ghost r: seq<Node>, ghost k: nat)
    requires Ring(r) && k < |r| && r[k] == l && n !in r
    modifies l, l.prev, n
    ensures Ring(With(r, k, n))
  {
    hide With;
    WithAt(r, k, n);
    ghost var t := With(r, k, n);
    assert forall i :: 0 <= i < |r| ==> r[i] in r;
    Around(r, k);
    l.prev.next := n;
    n.prev := l.prev;
    l.prev := n;
    n.next := l;
    forall i, j | 0 <= i && j == i + 1 && j < |t| ensures t[i].next == t[j] && t[j].prev == t[i] {
      if j < k {
        assert old(r[i].next == r[j] && r[j].prev == r[i]);
      } else if i > k {
        assert old(r[i - 1].next == r[j - 1] && r[j - 1].prev == r[i - 1]);
      }
    }
  }

  /** `rt_list_remove`: the node leaves the ring, if it is in one, and is linked to itself. */
  method Remove(n: Node, ghost r: seq<Node>, ghost k: nat)
    requires Ring(r) && k < |r| && r[k] == n
    modifies n, n.next, n.prev
    ensures Ring(r[..k] + r[k + 1..]) && Ring([n])
  {
    ghost var t := r[..k] + r[k + 1..];
    assert (forall i :: 0 <= i < k ==> t[i] == r[i]) && (forall i :: k <= i < |t| ==> t[i] == r[i + 1]);
    Around(r, k);
    n.next.prev := n.prev;
    n.prev.next := n.next;
    n.next := n;
    n.prev := n;
    forall i, j | 0 <= i && j == i + 1 && j < |t| ensures t[i].next == t[j] && t[j].prev == t[i] {
      if j < k {
        assert old(r[i].next == r[j] && r[j].prev == r[i]);
      } else if i >= k {
        assert old(r[i + 1].next == r[j + 1] && r[j + 1].prev == r[i + 1]);
      }
    }
  }

  /** `rt_list_isempty`. */
  method IsEmpty(l: Node, ghost s: seq<Node>) returns (empty: bool)
    requires Ring([l] + s)
    ensures empty <==> s == []
  {
    ghost var r := [l] + s;
    Around(r, 0);
    empty := l.next == l;
  }

  /** `rt_list_len`: the number of nodes besides the head. */
  method Len(l: Node, ghost s: seq<Node>) returns (len: nat)
    requires Ring([l] + s)
    ensures len == |s|
  {
    ghost var r := [l] + s;
    var p := l;
    len := 0;
    while p.next != l
      invariant len < |r| && p == r[len]
      decreases |r| - len
    {
      Around(r, len);
      p := p.next;
      len := len + 1;
    }
    Around(r, len);
  }
}
