/** The circular doubly linked list under the datagram queue (include/ec_list.h:242-287, 309-338, 445-449): a node that
    serves as head, and entries whose links lead round and back to it. */
module LinkedList {

  class Node {
    var next: Node
    var prev: Node

    /** ec_dlist_init */
    constructor ()
      ensures Ring([this]) && fresh(this)
    {
      next, prev := this, this;
    }
  }

  /** The nodes `r`, each once, linked in this order in both directions, the last with the first. */
  ghost predicate Ring(r: seq<Node>)
    reads set x | x in r
  {
    && r != []
    && (forall i, j :: 0 <= i < j < |r| ==> r[i] != r[j])
    && (forall i :: 0 <= i < |r| ==> r[i].next == r[After(i, |r|)] && r[After(i, |r|)].prev == r[i])
  }

  function After(i: nat, n: nat): (j: nat)
    requires i < n
    ensures j < n
  {
    if i + 1 == n then 0 else i + 1
  }

  /** ec_dlist_add_tail */
  method AddTail(l: Node, n: Node, ghost s: seq<Node>)
    requires Ring([l] + s) && n != l && n !in s
    modifies l, l.prev, n
    ensures Ring([l] + (s + [n]))
  {
    ghost var r := [l] + s;
    assert r[0] == l && l.prev == r[|r| - 1] by {
      assert After(|r| - 1, |r|) == 0;
    }
    l.prev.next := n;
    n.prev := l.prev;
    l.prev := n;
    n.next := l;
    ghost var t := [l] + (s + [n]);
    assert t == r + [n];
  }

  /** The index that follows when `k` is left out. */
  function Beyond(i: nat, k: nat, n: nat): (j: nat)
    requires i < n && k < n
    ensures j < n
  {
    if After(i, n) == k then After(k, n) else After(i, n)
  }

  lemma Reconnected(r: seq<Node>, k: nat)
    requires k < |r| && |r| > 1 && forall i, j :: 0 <= i < j < |r| ==> r[i] != r[j]
    requires forall i :: 0 <= i < |r| && i != k ==>
      r[i].next == r[Beyond(i, k, |r|)] && r[Beyond(i, k, |r|)].prev == r[i]
    ensures Ring(r[..k] + r[k + 1..])
  {
    var t := r[..k] + r[k + 1..];
    forall i | 0 <= i < |t| ensures t[i].next == t[After(i, |t|)] && t[After(i, |t|)].prev == t[i] {
      var o := if i < k then i else i + 1;
      assert t[i] == r[o] && t[After(i, |t|)] == r[Beyond(o, k, |r|)];
    }
  }

  /** ec_dlist_remove and ec_dlist_del_init: the node leaves whatever ring it is in and forms one by itself. */
  method Remove(n: Node, ghost r: seq<Node>, ghost k: nat)
    requires Ring(r) && k < |r| && r[k] == n
    modifies n, n.next, n.prev
    ensures Ring([n])
    ensures |r| > 1 ==> Ring(r[..k] + r[k + 1..])
  {
    hide Ring;
    ghost var p := Neighbours(r, k);
    ghost var a := After(k, |r|);
    n.next.prev := n.prev;
    n.prev.next := n.next;
    n.next, n.prev := n, n;
    if |r| > 1 {
      forall i | 0 <= i < |r| && i != k ensures r[i].next == r[Beyond(i, k, |r|)] && r[Beyond(i, k, |r|)].prev == r[i] {
        if i != p {
          assert After(i, |r|) != k && After(i, |r|) != a;
        }
      }
      Reconnected(r, k);
    }
    Alone(n);
  }

  lemma Alone(n: Node)
    requires n.next == n && n.prev == n
    ensures Ring([n])
  {
  }

  /** The links of a ring, and the index in front of `k`. */
  lemma Neighbours(r: seq<Node>, k: nat) returns (p: nat)
    requires Ring(r) && k < |r|
    ensures p < |r| && After(p, |r|) == k && (|r| > 1 ==> p != k) && r[k].prev == r[p] && r[k].next == r[After(k, |r|)]
    ensures forall i, j :: 0 <= i < j < |r| ==> r[i] != r[j]
    ensures forall i :: 0 <= i < |r| ==> r[i].next == r[After(i, |r|)] && r[After(i, |r|)].prev == r[i]
  {
    p := if k == 0 then |r| - 1 else k - 1;
    assert r[After(p, |r|)].prev == r[p];
  }

  /** ec_dlist_isempty */
  method IsEmpty(l: Node, ghost s: seq<Node>) returns (empty: bool)
    requires Ring([l] + s)
    ensures empty == (s == [])
  {
    ghost var r := [l] + s;
    assert l.next == r[After(0, |r|)];
    empty := l.next == l;
  }

  /** ec_dlist_len */
  method Len(l: Node, ghost s: seq<Node>) returns (len: nat)
    requires Ring([l] + s)
    ensures len == |s|
  {
    ghost var r := [l] + s;
    len := 0;
    var p := l;
    while p.next != l
      invariant len <= |s| && p == r[len]
      decreases |s| - len
    {
      assert p.next == r[After(len, |r|)];
      p := p.next;
      len := len + 1;
    }
    assert p.next == r[After(len, |r|)];
  }

  ghost function Kept(s: seq<Node>, gone: set<Node>): (t: seq<Node>)
    ensures forall i :: 0 <= i < |t| ==> t[i] in s && t[i] !in gone
    ensures forall i :: 0 <= i < |s| && s[i] !in gone ==> s[i] in t
  {
    if s == [] then [] else Kept(s[..|s| - 1], gone) + (if s[|s| - 1] in gone then [] else [s[|s| - 1]])
  }

  /** Safe iteration has come to the `k`-th entry: those before it that are in `gone` have been removed. */
  ghost predicate Halfway(l: Node, s: seq<Node>, gone: set<Node>, k: nat)
    reads {l} + set x | x in s
  {
    && k <= |s| && l !in s && (forall i, j :: 0 <= i < j < |s| ==> s[i] != s[j])
    && Ring([l] + (Kept(s[..k], gone) + s[k..]))
    && (forall i :: 0 <= i < k && s[i] in gone ==> Ring([s[i]]))
  }

  lemma Current(l: Node, s: seq<Node>, gone: set<Node>, k: nat)
    requires Halfway(l, s, gone, k)
    ensures k == |s| ==> Kept(s[..k], gone) + s[k..] == Kept(s, gone)
    ensures k < |s| ==> s[k].next == (if k + 1 < |s| then s[k + 1] else l)
  {
    var front := Kept(s[..k], gone);
    var r := [l] + (front + s[k..]);
    if k == |s| {
      assert s[..k] == s && s[k..] == [];
    } else {
      assert r[1 + |front|] == s[k];
      assert r[1 + |front|].next == r[After(1 + |front|, |r|)];
    }
  }

  lemma StartOf(l: Node, s: seq<Node>, gone: set<Node>)
    requires Ring([l] + s)
    ensures Halfway(l, s, gone, 0) && l.next == (if s == [] then l else s[0])
  {
    var r := [l] + s;
    assert Kept(s[..0], gone) + s[0..] == s;
    forall i, j | 0 <= i < j < |s| ensures s[i] != s[j] {
      assert r[i + 1] != r[j + 1];
    }
    forall i | 0 <= i < |s| ensures s[i] != l {
      assert r[0] != r[i + 1];
    }
    assert r[0].next == r[After(0, |r|)];
  }

  lemma KeptNext(l: Node, s: seq<Node>, gone: set<Node>, k: nat)
    requires k < |s|
    ensures var before := Kept(s[..k], gone);
      var now := [l] + (before + s[k..]);
      var later := [l] + (Kept(s[..k + 1], gone) + s[k + 1..]);
      && now[1 + |before|] == s[k]
      && later == if s[k] in gone then now[..1 + |before|] + now[2 + |before|..] else now
  {
    var before := Kept(s[..k], gone);
    assert s[..k + 1][..k] == s[..k] && s[..k + 1][k] == s[k];
    assert Kept(s[..k + 1], gone) == before + (if s[k] in gone then [] else [s[k]]);
    assert s[k..] == [s[k]] + s[k + 1..];
  }

  /** The body of the loop: the current entry is removed or not. */
  method VisitOne(l: Node, pos: Node, ghost s: seq<Node>, gone: set<Node>, ghost k: nat)
    requires Halfway(l, s, gone, k) && k < |s| && pos == s[k]
    modifies l, set x | x in s
    ensures Halfway(l, s, gone, k + 1)
  {
    hide Kept, Ring;
    ghost var before := Kept(s[..k], gone);
    ghost var now := [l] + (before + s[k..]);
    KeptNext(l, s, gone, k);
    if pos in gone {
      var p := Neighbours(now, 1 + |before|);
      Remove(pos, now, 1 + |before|);
    }
  }

  /** The loops over ec_dlist_for_each_entry_safe that remove some of the entries they come to: every entry is visited
      exactly once, in order; the others stay linked in order, and each removed one is alone. */
  method VisitAndRemove(l: Node, ghost s: seq<Node>, gone: set<Node>) returns (visited: seq<Node>)
    requires Ring([l] + s) && l !in gone
    modifies l, set x | x in s
    ensures visited == s
    ensures Ring([l] + Kept(s, gone))
    ensures forall i :: 0 <= i < |s| && s[i] in gone ==> Ring([s[i]])
  {
    hide Ring, Kept;
    visited := [];
    ghost var k := 0;
    StartOf(l, s, gone);
    Current(l, s, gone, 0);
    var pos := l.next;
    var n := pos.next;
    while pos != l
      invariant Halfway(l, s, gone, k) && visited == s[..k]
      invariant pos == (if k < |s| then s[k] else l)
      invariant k < |s| ==> n == if k + 1 < |s| then s[k + 1] else l
      decreases |s| - k
    {
      visited := visited + [pos];
      VisitOne(l, pos, s, gone, k);
      k := k + 1;
      Current(l, s, gone, k);
      pos := n;
      n := n.next;
    }
    Current(l, s, gone, k);
  }
}
