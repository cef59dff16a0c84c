/** How the datagram queue is linked (include/ec_list.h:268-316, src/ec_master.c:12-36, src/ec_datagram.c:93-98):
    datagram `x` of the pool is in the list through the node `nodes[x]`. The operations on the links have the effect on
    the queue of positions that `DatagramQueue` gives them. */
module QueueLinks {
  import opened LinkedList
  import opened DatagramQueue

  ghost function NodesOf(nodes: seq<Node>, queue: seq<nat>): (r: seq<Node>)
    requires Inside(nodes, queue)
    ensures |r| == |queue|
  {
    seq(|queue|, i requires 0 <= i < |queue| => nodes[queue[i]])
  }

  ghost predicate Inside(nodes: seq<Node>, queue: seq<nat>) {
    forall i :: 0 <= i < |queue| ==> queue[i] < |nodes|
  }

  ghost predicate Differ(head: Node, nodes: seq<Node>) {
    head !in nodes && forall x, y :: 0 <= x < y < |nodes| ==> nodes[x] != nodes[y]
  }

  /** The ring leads from the head through the datagrams of `queue` in order; every other datagram is alone. */
  ghost predicate Represents(head: Node, nodes: seq<Node>, queue: seq<nat>)
    reads {head} + set n | n in nodes
  {
    && Differ(head, nodes) && Inside(nodes, queue)
    && Ring([head] + NodesOf(nodes, queue))
    && forall x :: 0 <= x < |nodes| && x !in queue ==> Ring([nodes[x]])
  }

  lemma NobodyTwice(head: Node, nodes: seq<Node>, queue: seq<nat>)
    requires Represents(head, nodes, queue)
    ensures forall i, j :: 0 <= i < j < |queue| ==> queue[i] != queue[j]
  {
    var r := [head] + NodesOf(nodes, queue);
    forall i, j | 0 <= i < j < |queue| ensures queue[i] != queue[j] {
      assert r[i + 1] != r[j + 1];
    }
  }

  lemma {:induction false} WithoutMiddle(front: seq<nat>, x: nat, back: seq<nat>)
    requires x !in front && x !in back
    ensures Without(front + [x] + back, {x}) == front + back
  {
    var s := front + [x] + back;
    if front == [] {
      assert s[1..] == back;
      WithoutNobody(back, x);
    } else {
      assert s[1..] == front[1..] + [x] + back;
      WithoutMiddle(front[1..], x, back);
      assert [front[0]] + (front[1..] + back) == front + back;
    }
  }

  lemma WithoutOne(s: seq<nat>, k: nat)
    requires k < |s| && forall i, j :: 0 <= i < j < |s| ==> s[i] != s[j]
    ensures Without(s, {s[k]}) == s[..k] + s[k + 1..]
  {
    hide Without;
    var front, x, back := s[..k], s[k], s[k + 1..];
    assert forall i :: 0 <= i < |front| ==> front[i] == s[i];
    assert forall i :: 0 <= i < |back| ==> back[i] == s[k + 1 + i];
    Parts(s, k);
    WithoutMiddle(front, x, back);
  }

  lemma Parts(s: seq<nat>, k: nat)
    requires k < |s|
    ensures s[..k] + [s[k]] + s[k + 1..] == s
  {
  }

  lemma {:induction false} WithoutNobody(s: seq<nat>, x: nat)
    requires x !in s
    ensures Without(s, {x}) == s
  {
    if s == [] {
    } else {
      WithoutNobody(s[1..], x);
    }
  }

  /** ec_dlist_add_tail in ec_master_queue_datagram */
  method Append(head: Node, nodes: seq<Node>, ghost queue: seq<nat>, id: nat)
    requires Represents(head, nodes, queue) && id < |nodes| && id !in queue
    modifies head, set n | n in nodes
    ensures Represents(head, nodes, queue + [id])
  {
    ghost var s := NodesOf(nodes, queue);
    LastOfRing(head, s);
    AddTail(head, nodes[id], s);
    assert NodesOf(nodes, queue + [id]) == s + [nodes[id]];
  }

  lemma LastOfRing(head: Node, s: seq<Node>)
    requires Ring([head] + s)
    ensures head.prev == if s == [] then head else s[|s| - 1]
  {
    var r := [head] + s;
    assert After(|r| - 1, |r|) == 0;
  }

  lemma NeighboursInside(r: seq<Node>, k: nat)
    requires Ring(r) && k < |r|
    ensures r[k].next in r && r[k].prev in r
  {
    var p := Neighbours(r, k);
  }

  lemma Elsewhere(head: Node, nodes: seq<Node>, queue: seq<nat>)
    requires Differ(head, nodes) && Inside(nodes, queue)
    ensures forall x :: 0 <= x < |nodes| && x !in queue ==> nodes[x] !in [head] + NodesOf(nodes, queue)
    ensures forall n :: n in [head] + NodesOf(nodes, queue) ==> n == head || n in nodes
  {
  }

  lemma NodesWithout(nodes: seq<Node>, queue: seq<nat>, k: nat)
    requires Inside(nodes, queue) && k < |queue|
    ensures Inside(nodes, queue[..k] + queue[k + 1..])
    ensures NodesOf(nodes, queue[..k] + queue[k + 1..]) == NodesOf(nodes, queue)[..k] + NodesOf(nodes, queue)[k + 1..]
  {
  }

  lemma RingWithout(head: Node, nodes: seq<Node>, queue: seq<nat>, k: nat)
    requires Inside(nodes, queue) && k < |queue| && forall i, j :: 0 <= i < j < |queue| ==> queue[i] != queue[j]
    ensures Inside(nodes, Without(queue, {queue[k]}))
    ensures var r := [head] + NodesOf(nodes, queue);
      [head] + NodesOf(nodes, Without(queue, {queue[k]})) == r[..k + 1] + r[k + 2..]
  {
    hide Without, NodesOf, Inside;
    WithoutOne(queue, k);
    NodesWithout(nodes, queue, k);
    HeadFirst(head, NodesOf(nodes, queue), k);
  }

  lemma HeadFirst(head: Node, s: seq<Node>, k: nat)
    requires k < |s|
    ensures [head] + (s[..k] + s[k + 1..]) == ([head] + s)[..k + 1] + ([head] + s)[k + 2..]
  {
  }

  /** ec_dlist_del_init in ec_master_unqueue_datagram: also if the datagram is not queued. */
  method Unlink(head: Node, nodes: seq<Node>, ghost queue: seq<nat>, id: nat)
    requires Represents(head, nodes, queue) && id < |nodes|
    modifies head, set n | n in nodes
    ensures Represents(head, nodes, Without(queue, {id}))
    ensures Ring([nodes[id]])
  {
    hide Ring, Without, NodesOf;
    NobodyTwice(head, nodes, queue);
    Elsewhere(head, nodes, queue);
    assert forall x :: 0 <= x < |nodes| && x !in queue ==> Ring([nodes[x]]);
    ghost var r, k := [nodes[id]], 0;
    if id in queue {
      ghost var i :| 0 <= i < |queue| && queue[i] == id;
      r, k := [head] + NodesOf(nodes, queue), i + 1;
      assert r[k] == NodesOf(nodes, queue)[i] == nodes[id] by {
        Entry(nodes, queue, i);
      }
      RingWithout(head, nodes, queue, i);
    } else {
      WithoutNobody(queue, id);
    }
    NeighboursInside(r, k);
    Remove(nodes[id], r, k);
  }

  lemma Entry(nodes: seq<Node>, queue: seq<nat>, i: nat)
    requires Inside(nodes, queue) && i < |queue|
    ensures NodesOf(nodes, queue)[i] == nodes[queue[i]]
  {
  }

  /** The test of ec_datagram_unqueue: a node that is not alone is in the queue. */
  method IsLinked(head: Node, nodes: seq<Node>, ghost queue: seq<nat>, id: nat) returns (linked: bool)
    requires Represents(head, nodes, queue) && id < |nodes|
    ensures linked <==> id in queue
  {
    ghost var r := [head] + NodesOf(nodes, queue);
    linked := nodes[id].next != nodes[id];
    if id in queue {
      ghost var k :| 0 <= k < |queue| && queue[k] == id;
      ghost var p := Neighbours(r, k + 1);
      assert After(k + 1, |r|) != k + 1;
    } else {
      assert [nodes[id]][0].next == [nodes[id]][After(0, 1)];
    }
  }

  /** ec_datagram_unqueue */
  method DatagramUnqueue(head: Node, nodes: seq<Node>, ghost queue: seq<nat>, id: nat)
    requires Represents(head, nodes, queue) && id < |nodes|
    modifies head, set n | n in nodes
    ensures Represents(head, nodes, Without(queue, {id}))
  {
    var linked := IsLinked(head, nodes, queue, id);
    if linked {
      Unlink(head, nodes, queue, id);
    } else {
      WithoutNobody(queue, id);
    }
  }
}
