/** Reconstruction of the port tree from the flat list of slaves
    (src/ec_slave.c, ec_master_calc_topology). The array `master->slaves` is an
    array of records, and a `next_slave` pointer is a position in that array. */
module BusTopology {
  import opened Words

  datatype Port = Port(loopClosed: bool, next: Option<nat>, receiveTime: u32, delayToNextDc: u32)

  const CLOSED_PORT := Port(true, None, 0, 0)

  /** EC_MAX_PORTS ports per slave. */
  type Ports = p: seq<Port> | |p| == 4 witness [CLOSED_PORT, CLOSED_PORT, CLOSED_PORT, CLOSED_PORT]

  datatype Slave = Slave(dcSupported: bool, ports: Ports, transmissionDelay: u32)

  // ----- the tree that hangs on the bus, and its preorder listing -----

  /** What is connected behind a port: nothing, or a slave with what is behind its own ports,
      in the order in which the frame visits them: 3, then 1, then 2. */
  datatype Tree = Empty | Node(b3: Tree, b1: Tree, b2: Tree)

  /** Which of the ports 3, 1, 2 of one slave are open. */
  datatype Opens = Opens(p3: bool, p1: bool, p2: bool)

  function Size(t: Tree): nat {
    match t
    case Empty => 0
    case Node(b3, b1, b2) => 1 + Size(b3) + Size(b1) + Size(b2)
  }

  /** From position `pos` on, `f` lists the slaves of `t` in preorder: the slave itself, then
      what the frame reaches through port 3, through port 1 and through port 2. */
  ghost predicate Listed(f: seq<Opens>, pos: nat, t: Tree)
    decreases t
  {
    match t
    case Empty => true
    case Node(b3, b1, b2) =>
      && pos < |f| && f[pos] == Opens(b3.Node?, b1.Node?, b2.Node?)
      && Listed(f, pos + 1, b3)
      && Listed(f, pos + 1 + Size(b3), b1)
      && Listed(f, pos + 1 + Size(b3) + Size(b1), b2)
  }

  lemma SizeNode(t: Tree)
    requires t.Node?
    ensures Size(t) == 1 + Size(t.b3) + Size(t.b1) + Size(t.b2)
  {
  }

  lemma ListedNode(f: seq<Opens>, pos: nat, t: Tree)
    requires t.Node?
    ensures Size(t) == 1 + Size(t.b3) + Size(t.b1) + Size(t.b2)
    ensures Listed(f, pos, t) <==>
      && pos < |f| && f[pos] == Opens(t.b3.Node?, t.b1.Node?, t.b2.Node?)
      && Listed(f, pos + 1, t.b3)
      && Listed(f, pos + 1 + Size(t.b3), t.b1)
      && Listed(f, pos + 1 + Size(t.b3) + Size(t.b1), t.b2)
  {
    hide Size;
    SizeNode(t);
  }

  lemma ListedEmpty(f: seq<Opens>, pos: nat)
    ensures Listed(f, pos, Empty) && Size(Empty) == 0
  {
  }

  function OpensOf(s: Slave): Opens {
    Opens(!s.ports[3].loopClosed, !s.ports[1].loopClosed, !s.ports[2].loopClosed)
  }

  function AllOpens(s: seq<Slave>): (f: seq<Opens>)
    ensures |f| == |s|
  {
    seq(|s|, i requires 0 <= i < |s| => OpensOf(s[i]))
  }

  // ----- the links of a tree laid out from a given position -----

  /** The `next_slave` pointers of the ports 0 to 3 of one slave. */
  datatype Links = Links(n0: Option<nat>, n1: Option<nat>, n2: Option<nat>, n3: Option<nat>)

  function GetLink(l: Links, p: nat): Option<nat> {
    if p == 3 then l.n3 else if p == 1 then l.n1 else l.n2
  }

  function SetLink(l: Links, p: nat, to: Option<nat>): Links {
    if p == 3 then l.(n3 := to) else if p == 1 then l.(n1 := to) else l.(n2 := to)
  }

  function Head(b: Tree, pos: nat): Option<nat> {
    if b.Node? then Some(pos) else None
  }

  /** The `next_slave` values, port by port, of all slaves of `t` when `t` occupies the
      positions from `pos` on and `up` is the slave in front of it. */
  function LinksOf(t: Tree, pos: nat, up: Option<nat>): (r: seq<Links>)
    ensures |r| == Size(t)
  {
    match t
    case Empty => []
    case Node(b3, b1, b2) =>
      var p3 := pos + 1;
      var p1 := p3 + Size(b3);
      var p2 := p1 + Size(b1);
      [Links(up, Head(b1, p1), Head(b2, p2), Head(b3, p3))]
      + (LinksOf(b3, p3, Some(pos)) + LinksOf(b1, p1, Some(pos)) + LinksOf(b2, p2, Some(pos)))
  }

  function SetNext(s: Slave, p: nat, to: Option<nat>): Slave
    requires p < 4
  {
    s.(ports := s.ports[p := s.ports[p].(next := to)])
  }

  function SetLinks(s: Slave, l: Links): Slave {
    SetNext(SetNext(SetNext(SetNext(s, 0, l.n0), 1, l.n1), 2, l.n2), 3, l.n3)
  }

  /** `s` with the links `l` written into the slaves from position `pos` on, and nothing else
      changed. */
  function Linked(s: seq<Slave>, pos: nat, l: seq<Links>): (r: seq<Slave>)
    requires pos + |l| <= |s|
    ensures |r| == |s|
  {
    seq(|s|, i requires 0 <= i < |s| => if pos <= i < pos + |l| then SetLinks(s[i], l[i - pos]) else s[i])
  }

  /** Downstream ports as `memset` leaves them before the scan. */
  predicate Unlinked(s: Slave) {
    s.ports[1].next.None? && s.ports[2].next.None? && s.ports[3].next.None?
  }

  /** next_table: the frame visits the ports in the order 0, 3, 1, 2, 0. */
  const NEXT_TABLE: seq<nat> := [3, 2, 0, 1]
  const PREV_TABLE: seq<nat> := [2, 3, 1, 0]

  lemma SetNextSame(s: Slave, p: nat)
    requires p < 4
    ensures SetNext(s, p, s.ports[p].next) == s
  {
    assert s.ports[p].(next := s.ports[p].next) == s.ports[p];
    assert s.ports[p := s.ports[p]] == s.ports;
  }

  lemma SetLinksFresh(s: Slave, up: Option<nat>)
    requires Unlinked(s)
    ensures SetLinks(s, Links(up, None, None, None)) == SetNext(s, 0, up)
  {
    var s0 := SetNext(s, 0, up);
    SetNextSame(s0, 1);
    SetNextSame(s0, 2);
    SetNextSame(s0, 3);
  }

  lemma SetLinksKeepsOpens(s: Slave, l: Links)
    ensures OpensOf(SetLinks(s, l)) == OpensOf(s)
  {
  }

  lemma LinkedKeepsOpens(s: seq<Slave>, pos: nat, l: seq<Links>)
    requires pos + |l| <= |s|
    ensures AllOpens(Linked(s, pos, l)) == AllOpens(s)
  {
    forall i | 0 <= i < |s| ensures OpensOf(Linked(s, pos, l)[i]) == OpensOf(s[i]) {
      if pos <= i < pos + |l| {
        SetLinksKeepsOpens(s[i], l[i - pos]);
      }
    }
  }

  /** Writing one more port of the first slave and one more subtree behind the last one. */
  lemma LinkedExtends(s: seq<Slave>, pos: nat, head: Links, tail: seq<Links>, p: nat, to: Option<nat>, more: seq<Links>)
    requires pos + 1 + |tail| + |more| <= |s| && p in {1, 2, 3}
    ensures var t := Linked(s, pos, [head] + tail);
      Linked(t[pos := SetNext(t[pos], p, to)], pos + 1 + |tail|, more)
      == Linked(s, pos, [SetLink(head, p, to)] + (tail + more))
  {
    var t := Linked(s, pos, [head] + tail);
    var a := Linked(t[pos := SetNext(t[pos], p, to)], pos + 1 + |tail|, more);
    var b := Linked(s, pos, [SetLink(head, p, to)] + (tail + more));
    assert a[pos] == b[pos];
    assert a == b;
  }

  // ----- counting the slaves that the open ports ask for -----

  function One(b: bool): nat {
    if b then 1 else 0
  }

  /** The number of open ports, 1 to 3, of a slave. */
  function Degree(o: Opens): nat {
    One(o.p3) + One(o.p1) + One(o.p2)
  }

  /** How many slaves are still owed just before position `k`, when `n` are owed just before
      `pos`: every slave settles one and its open ports ask for more. */
  function Owed(f: seq<Opens>, pos: nat, k: nat, n: int): int
    requires pos <= k <= |f|
    decreases k - pos
  {
    if pos == k then n else Owed(f, pos + 1, k, n - 1 + Degree(f[pos]))
  }

  lemma {:induction false} OwedPlus(f: seq<Opens>, pos: nat, k: nat, n: int, m: int)
    requires pos <= k <= |f|
    ensures Owed(f, pos, k, n + m) == Owed(f, pos, k, n) + m
    decreases k - pos
  {
    if pos >= k {
    } else {
      OwedPlus(f, pos + 1, k, n - 1 + Degree(f[pos]), m);
    }
  }

  lemma {:induction false} OwedSplit(f: seq<Opens>, pos: nat, mid: nat, k: nat, n: int)
    requires pos <= mid <= k <= |f|
    ensures Owed(f, pos, k, n) == Owed(f, mid, k, Owed(f, pos, mid, n))
    decreases mid - pos
  {
    if pos >= mid {
    } else {
      OwedSplit(f, pos + 1, mid, k, n - 1 + Degree(f[pos]));
    }
  }

  /** All slaves between `pos` and `k` are owed by something before them. */
  ghost predicate AlwaysOwed(f: seq<Opens>, pos: nat, last: int, n: int)
    requires last <= |f|
  {
    forall k :: pos <= k <= last ==> Owed(f, pos, k, n) > 0
  }

  lemma OwedStep(f: seq<Opens>, pos: nat, k: nat, n: int)
    requires pos < k <= |f|
    ensures Owed(f, pos, k, n) == Owed(f, pos + 1, k, n - 1 + Degree(f[pos]))
  {
  }

  lemma OwedHead(f: seq<Opens>, pos: nat, last: int, n: int)
    requires pos < |f| && last <= |f| && n > 0 && AlwaysOwed(f, pos + 1, last, n - 1 + Degree(f[pos]))
    ensures AlwaysOwed(f, pos, last, n)
  {
  }

  /** Debts that never run out up to `mid` and from there on never run out either. */
  lemma OwedJoin(f: seq<Opens>, pos: nat, mid: int, last: int, n: int)
    requires pos <= mid + 1 <= |f| && last <= |f| && AlwaysOwed(f, pos, mid, n)
    requires AlwaysOwed(f, mid + 1, last, Owed(f, pos, mid + 1, n))
    ensures AlwaysOwed(f, pos, last, n)
  {
    forall k | pos <= k <= last ensures Owed(f, pos, k, n) > 0 {
      if k > mid {
        OwedSplit(f, pos, mid + 1, k, n);
      }
    }
  }

  /** A listed tree settles exactly the slave owed for it, and not earlier; `more` are owed
      to others. */
  lemma {:induction false} ListedOwes(f: seq<Opens>, pos: nat, t: Tree, more: nat)
    requires pos <= |f| && Listed(f, pos, t)
    ensures pos + Size(t) <= |f|
    ensures AlwaysOwed(f, pos, pos + Size(t) - 1, One(t.Node?) + more)
    ensures Owed(f, pos, pos + Size(t), One(t.Node?) + more) == more
    decreases t, 1
  {
    hide Size, Listed;
    ListedEmpty(f, pos);
    if t.Empty? {
    } else {
      ListedNode(f, pos, t);
      ListedNodeOwes(f, pos, t, more);
    }
  }

  lemma {:induction false} ListedNodeOwes(f: seq<Opens>, pos: nat, t: Tree, more: nat)
    requires t.Node? && pos < |f| && f[pos] == Opens(t.b3.Node?, t.b1.Node?, t.b2.Node?)
    requires Listed(f, pos + 1, t.b3) && Listed(f, pos + 1 + Size(t.b3), t.b1)
    requires Listed(f, pos + 1 + Size(t.b3) + Size(t.b1), t.b2)
    requires Size(t) == 1 + Size(t.b3) + Size(t.b1) + Size(t.b2)
    ensures pos + Size(t) <= |f|
    ensures AlwaysOwed(f, pos, pos + Size(t) - 1, 1 + more)
    ensures Owed(f, pos, pos + Size(t), 1 + more) == more
    decreases t, 0
  {
    hide Size, Listed, Owed, AlwaysOwed;
    match t
    case Node(b3, b1, b2) =>
      var d := Degree(f[pos]) + more;
      var p1 := pos + 1 + Size(b3);
      var p2 := p1 + Size(b1);
      var end := p2 + Size(b2);
      ListedOwes(f, pos + 1, b3, One(b1.Node?) + One(b2.Node?) + more);
      ListedOwes(f, p1, b1, One(b2.Node?) + more);
      ListedOwes(f, p2, b2, more);
      OwedJoin(f, pos + 1, p1 - 1, p2 - 1, d);
      OwedSplit(f, pos + 1, p1, p2, d);
      OwedJoin(f, pos + 1, p2 - 1, end - 1, d);
      OwedSplit(f, pos + 1, p2, end, d);
      OwedStep(f, pos, end, 1 + more);
      OwedHead(f, pos, end - 1, 1 + more);
  }

  lemma AlwaysOwedPlus(f: seq<Opens>, pos: nat, last: int, n: int, more: nat)
    requires last <= |f| && AlwaysOwed(f, pos, last, n)
    ensures AlwaysOwed(f, pos, last, n + more)
  {
    var m := n + more;
    forall k | pos <= k <= last ensures Owed(f, pos, k, m) > 0 {
      OwedPlus(f, pos, k, n, more);
    }
  }

  // ----- the reconstruction -----

  function OpenAt(o: Opens, portIndex: nat): bool {
    if portIndex == 3 then o.p3 else if portIndex == 1 then o.p1 else o.p2
  }

  /** Position of a port in the order 3, 1, 2, counted from the end. */
  function Rank(portIndex: nat): nat {
    if portIndex == 3 then 3 else if portIndex == 1 then 2 else if portIndex == 2 then 1 else 0
  }

  /** The open ports among `portIndex` and those visited after it. */
  function DegreeFrom(o: Opens, portIndex: nat): nat {
    (if Rank(portIndex) >= 3 then One(o.p3) else 0)
    + (if Rank(portIndex) >= 2 then One(o.p1) else 0)
    + (if Rank(portIndex) >= 1 then One(o.p2) else 0)
  }

  function Grow(t: Tree, portIndex: nat, b: Tree): Tree
    requires t.Node?
  {
    if portIndex == 3 then t.(b3 := b) else if portIndex == 1 then t.(b1 := b) else t.(b2 := b)
  }

  /** The part `t` of the tree that has been found when port `portIndex` is next: what is
      behind the earlier ports is complete, the later ones still count as closed. */
  ghost predicate Partly(f: seq<Opens>, pos: nat, t: Tree, portIndex: nat)
    requires pos < |f| && t.Node?
  {
    && (if Rank(portIndex) >= 3 then t.b3.Empty? else f[pos].p3 == t.b3.Node? && Listed(f, pos + 1, t.b3))
    && (if Rank(portIndex) >= 2 then t.b1.Empty?
        else f[pos].p1 == t.b1.Node? && Listed(f, pos + 1 + Size(t.b3), t.b1))
    && (if Rank(portIndex) >= 1 then t.b2.Empty?
        else f[pos].p2 == t.b2.Node? && Listed(f, pos + 1 + Size(t.b3) + Size(t.b1), t.b2))
  }

  /** Nothing has been found behind port `portIndex` and the later ports. */
  ghost predicate ClosedFrom(t: Tree, portIndex: nat)
    requires t.Node?
  {
    (Rank(portIndex) >= 3 ==> t.b3.Empty?) && (Rank(portIndex) >= 2 ==> t.b1.Empty?)
    && (Rank(portIndex) >= 1 ==> t.b2.Empty?)
  }

  lemma GrowSize(t: Tree, portIndex: nat, b: Tree)
    requires t.Node? && ClosedFrom(t, portIndex) && portIndex in {1, 2, 3}
    ensures Size(Grow(t, portIndex, b)) == Size(t) + Size(b)
    ensures portIndex == 3 ==> Size(t) == 1
    ensures portIndex == 1 ==> Size(t) == 1 + Size(t.b3)
    ensures portIndex == 2 ==> Size(t) == 1 + Size(t.b3) + Size(t.b1)
  {
    assert Size(Empty) == 0;
  }

  lemma PartlyGrows(f: seq<Opens>, pos: nat, t: Tree, portIndex: nat, b: Tree)
    requires pos < |f| && t.Node? && portIndex in {1, 2, 3} && Partly(f, pos, t, portIndex)
    requires Listed(f, pos + Size(t), b) && b.Node? == OpenAt(f[pos], portIndex)
    ensures Partly(f, pos, Grow(t, portIndex, b), NEXT_TABLE[portIndex])
  {
    hide Size, Listed;
    GrowSize(t, portIndex, b);
  }

  /** The state of the loop when port `portIndex` is next: the part `t` has been found, and what is
      still owed are the open ports from `portIndex` on. */
  ghost predicate Stage(f: seq<Opens>, pos: nat, t: Tree, portIndex: nat)
    requires pos < |f| && t.Node?
  {
    var end := pos + Size(t);
    && end <= |f| && Partly(f, pos, t, portIndex)
    && AlwaysOwed(f, pos, end - 1, 1) && Owed(f, pos, end, 1) == DegreeFrom(f[pos], portIndex)
  }

  lemma StageStart(f: seq<Opens>, pos: nat)
    requires pos < |f|
    ensures Stage(f, pos, Node(Empty, Empty, Empty), 3)
  {
    hide Size, Listed;
    var t := Node(Empty, Empty, Empty);
    ListedEmpty(f, pos);
    SizeNode(t);
    assert t.b3 == t.b1 == t.b2 == Empty && Size(t) == 1;
    assert Owed(f, pos, pos + 1, 1) == Degree(f[pos]);
  }

  lemma StageStuck(f: seq<Opens>, pos: nat, t: Tree, portIndex: nat)
    requires pos < |f| && t.Node? && portIndex in {1, 2, 3} && Stage(f, pos, t, portIndex)
    requires OpenAt(f[pos], portIndex) && AlwaysOwed(f, pos + Size(t), |f|, 1)
    ensures AlwaysOwed(f, pos, |f|, 1)
  {
    hide Size, Listed, Partly;
    AlwaysOwedPlus(f, pos + Size(t), |f|, 1, DegreeFrom(f[pos], portIndex) - 1);
    OwedJoin(f, pos, pos + Size(t) - 1, |f|, 1);
  }

  lemma StageGrows(f: seq<Opens>, pos: nat, t: Tree, portIndex: nat, b: Tree)
    requires pos < |f| && t.Node? && portIndex in {1, 2, 3} && Stage(f, pos, t, portIndex)
    requires Listed(f, pos + Size(t), b) && b.Node? == OpenAt(f[pos], portIndex)
    ensures Stage(f, pos, Grow(t, portIndex, b), NEXT_TABLE[portIndex])
  {
    var end := pos + Size(t);
    var next := end + Size(b);
    hide Size, Listed, Owed;
    GrowSize(t, portIndex, b);
    PartlyGrows(f, pos, t, portIndex, b);
    ListedOwes(f, end, b, DegreeFrom(f[pos], NEXT_TABLE[portIndex]));
    OwedJoin(f, pos, end - 1, next - 1, 1);
    OwedSplit(f, pos, end, next, 1);
  }

  lemma StageCloses(f: seq<Opens>, pos: nat, t: Tree, portIndex: nat)
    requires pos < |f| && t.Node? && Stage(f, pos, t, portIndex)
    ensures ClosedFrom(t, portIndex)
  {
  }

  lemma StageDone(f: seq<Opens>, pos: nat, t: Tree)
    requires pos < |f| && t.Node? && Stage(f, pos, t, 0)
    ensures Listed(f, pos, t)
  {
    hide Size, Listed;
    ListedNode(f, pos, t);
  }

  lemma GrowLinks(t: Tree, pos: nat, up: Option<nat>, portIndex: nat, b: Tree)
    requires t.Node? && ClosedFrom(t, portIndex) && portIndex in {1, 2, 3}
    ensures var l := LinksOf(t, pos, up);
      && GetLink(l[0], portIndex).None?
      && LinksOf(Grow(t, portIndex, b), pos, up)
         == [SetLink(l[0], portIndex, Head(b, pos + Size(t)))] + (l[1..] + LinksOf(b, pos + Size(t), Some(pos)))
  {
    hide Size, LinksOf;
    var end := pos + Size(t);
    GrowSize(t, portIndex, b);
    NodeLinks(t, pos, up);
    NodeLinks(Grow(t, portIndex, b), pos, up);
    NoLinks(end, Some(pos));
    NoLinks(pos + 1, Some(pos));
    var l3, l1 := LinksOf(t.b3, pos + 1, Some(pos)), LinksOf(t.b1, pos + 1 + Size(t.b3), Some(pos));
    assert LinksOf(t, pos, up)[1..] == if portIndex == 3 then [] else if portIndex == 1 then l3 else l3 + l1;
  }

  lemma NoLinks(pos: nat, up: Option<nat>)
    ensures LinksOf(Empty, pos, up) == []
  {
  }

  lemma LeafLinks(pos: nat, up: Option<nat>)
    ensures var t := Node(Empty, Empty, Empty);
      LinksOf(t, pos, up) == [Links(up, None, None, None)] && Size(t) == 1
  {
    NoLinks(pos + 1, Some(pos));
  }

  lemma LinkedOne(s: seq<Slave>, pos: nat, l: Links)
    requires pos < |s|
    ensures Linked(s, pos, [l]) == s[pos := SetLinks(s[pos], l)]
  {
  }

  lemma NodeLinks(t: Tree, pos: nat, up: Option<nat>)
    requires t.Node?
    ensures var p3 := pos + 1;
      var p1 := p3 + Size(t.b3);
      var p2 := p1 + Size(t.b1);
      LinksOf(t, pos, up) ==
        [Links(up, Head(t.b1, p1), Head(t.b2, p2), Head(t.b3, p3))]
        + (LinksOf(t.b3, p3, Some(pos)) + LinksOf(t.b1, p1, Some(pos)) + LinksOf(t.b2, p2, Some(pos)))
  {
  }

  lemma LinkedAround(s: seq<Slave>, pos: nat, head: Links, tail: seq<Links>)
    requires pos + 1 + |tail| <= |s|
    ensures var t := Linked(s, pos, [head] + tail);
      && t[pos] == SetLinks(s[pos], head)
      && (forall p :: p in {1, 2, 3} ==> t[pos].ports[p].next == GetLink(head, p))
      && (forall p :: 0 <= p < 4 ==> t[pos].ports[p].loopClosed == s[pos].ports[p].loopClosed)
      && (forall i :: pos + |tail| < i < |s| ==> t[i] == s[i])
  {
    assert ([head] + tail)[0] == head;
  }

  /** One round of the loop in ec_master_calc_topology: what hangs behind port `portIndex`
      of the slave at `pos`, when `at` is the last position used so far. */
  method VisitPort(slaves: array<Slave>, pos: nat, portIndex: nat, at: nat)
    returns (ret: int, end: nat, ghost branch: Tree)
    requires pos <= at < slaves.Length && portIndex in {1, 2, 3}
    requires slaves[pos].ports[portIndex].next.None?
    requires forall i :: at < i < slaves.Length ==> Unlinked(slaves[i])
    modifies slaves
    ensures ret == 0 ==>
      && branch.Node? == !old(slaves[pos]).ports[portIndex].loopClosed
      && Listed(AllOpens(old(slaves[..])), at + 1, branch)
      && end == at + Size(branch) < slaves.Length
      && slaves[..] == Linked(old(slaves[..])[pos := SetNext(old(slaves[pos]), portIndex, Head(branch, at + 1))],
                              at + 1, LinksOf(branch, at + 1, Some(pos)))
    ensures ret != 0 ==>
      && ret == -1 && !old(slaves[pos]).ports[portIndex].loopClosed
      && AlwaysOwed(AllOpens(old(slaves[..])), at + 1, slaves.Length, 1)
    decreases slaves.Length - at, 0
  {
    ghost var s0 := slaves[..];
    end, branch := at, Empty;
    if slaves[pos].ports[portIndex].loopClosed {
      SetNextSame(slaves[pos], portIndex);
      assert slaves[..] == s0[pos := s0[pos]];
      return 0, end, branch;
    }
    end := end + 1;
    if end >= slaves.Length {
      return -1, end, branch;
    }
    slaves[pos] := SetNext(slaves[pos], portIndex, Some(end));
    assert slaves[..] == s0[pos := SetNext(s0[pos], portIndex, Some(end))];
    assert AllOpens(slaves[..]) == AllOpens(s0);
    ghost var t;
    ret, end, t := CalcTopology(slaves, Some(pos), end);
    branch := t;
  }

  /** The loop body on top of the part `t` of the tree that the earlier rounds have found. */
  method Round(slaves: array<Slave>, pos: nat, port0: Option<nat>, portIndex: nat, at: nat,
               ghost s0: seq<Slave>, ghost t: Tree)
    returns (ret: int, end: nat, ghost branch: Tree)
    requires pos <= at < slaves.Length == |s0| && portIndex in {1, 2, 3} && at + 1 == pos + Size(t)
    requires forall i :: pos <= i < slaves.Length ==> Unlinked(s0[i])
    requires t.Node? && ClosedFrom(t, portIndex) && slaves[..] == Linked(s0, pos, LinksOf(t, pos, port0))
    modifies slaves
    ensures ret == 0 ==>
      && end == at + Size(branch) < slaves.Length
      && Listed(AllOpens(s0), at + 1, branch) && branch.Node? == OpenAt(AllOpens(s0)[pos], portIndex)
      && Size(Grow(t, portIndex, branch)) == end + 1 - pos
      && slaves[..] == Linked(s0, pos, LinksOf(Grow(t, portIndex, branch), pos, port0))
    ensures ret != 0 ==>
      ret == -1 && OpenAt(AllOpens(s0)[pos], portIndex) && AlwaysOwed(AllOpens(s0), at + 1, |s0|, 1)
    decreases slaves.Length - at, 1
  {
    hide LinksOf, Listed, Owed, Size, AlwaysOwed, SetLinks, Degree;
    GrowSize(t, portIndex, Empty);
    ghost var l := LinksOf(t, pos, port0);
    ghost var head, tail := l[0], l[1..];
    assert l == [head] + tail;
    LinkedKeepsOpens(s0, pos, l);
    LinkedAround(s0, pos, head, tail);
    GrowLinks(t, pos, port0, portIndex, Empty);
    assert slaves[pos] == slaves[..][pos] && forall i :: at < i < slaves.Length ==> slaves[i] == slaves[..][i];
    ret, end, branch := VisitPort(slaves, pos, portIndex, at);
    if ret == 0 {
      LinkedExtends(s0, pos, head, tail, portIndex, Head(branch, at + 1), LinksOf(branch, at + 1, Some(pos)));
      GrowLinks(t, pos, port0, portIndex, branch);
      GrowSize(t, portIndex, branch);
    }
  }

  /** ec_master_calc_topology. `pos` stands for `*slave_position` on entry and `end` for
      its value on return. On success the slaves from `pos` on list the tree `t`, which occupies
      the positions `pos` to `end`, and exactly its links have been written; -1 means that the open
      ports ask for more slaves than there are. */
  method CalcTopology(slaves: array<Slave>, port0: Option<nat>, pos: nat) returns (ret: int, end: nat, ghost t: Tree)
    requires pos < slaves.Length
    requires forall i :: pos <= i < slaves.Length ==> Unlinked(slaves[i])
    modifies slaves
    ensures ret == 0 ==>
      && t.Node? && Listed(AllOpens(old(slaves[..])), pos, t)
      && end + 1 == pos + Size(t) <= slaves.Length
      && slaves[..] == Linked(old(slaves[..]), pos, LinksOf(t, pos, port0))
    ensures ret != 0 ==> ret == -1 && AlwaysOwed(AllOpens(old(slaves[..])), pos, slaves.Length, 1)
    decreases slaves.Length - pos, 2
  {
    hide Listed, LinksOf, Stage, Size, Owed, AlwaysOwed, SetLinks;
    ghost var s0 := slaves[..];
    ghost var f := AllOpens(s0);
    t := Node(Empty, Empty, Empty);
    end := pos;
    slaves[pos] := SetNext(slaves[pos], 0, port0);
    SetLinksFresh(s0[pos], port0);
    StageStart(f, pos);
    LeafLinks(pos, port0);
    LinkedOne(s0, pos, Links(port0, None, None, None));
    assert slaves[..] == s0[pos := SetNext(s0[pos], 0, port0)];
    var portIndex := 3;
    while portIndex != 0
      invariant portIndex in {0, 1, 2, 3}
      invariant pos <= end && end + 1 == pos + Size(t) <= slaves.Length
      invariant slaves[..] == Linked(s0, pos, LinksOf(t, pos, port0))
      invariant t.Node? && Stage(f, pos, t, portIndex)
      decreases Rank(portIndex)
    {
      ghost var branch;
      StageCloses(f, pos, t, portIndex);
      hide ClosedFrom, Grow;
      ret, end, branch := Round(slaves, pos, port0, portIndex, end, s0, t);
      if ret != 0 {
        StageStuck(f, pos, t, portIndex);
        return;
      }
      StageGrows(f, pos, t, portIndex, branch);
      GrowSize(t, portIndex, branch);
      t := Grow(t, portIndex, branch);
      portIndex := NEXT_TABLE[portIndex];
    }
    StageDone(f, pos, t);
    ret := 0;
  }

  // ----- what the reconstruction means -----

  /** A list of slaves is the preorder of at most one tree. */
  lemma {:induction false} ListedUnique(f: seq<Opens>, pos: nat, t: Tree, u: Tree)
    requires Listed(f, pos, t) && Listed(f, pos, u) && t.Node? == u.Node?
    ensures t == u
    decreases t
  {
    hide Size, Listed;
    if t.Empty? {
    } else {
      ListedNode(f, pos, t);
      ListedNode(f, pos, u);
      ListedUnique(f, pos + 1, t.b3, u.b3);
      ListedUnique(f, pos + 1 + Size(t.b3), t.b1, u.b1);
      ListedUnique(f, pos + 1 + Size(t.b3) + Size(t.b1), t.b2, u.b2);
    }
  }

  /** Slaves are missing in no list that holds a tree; so CalcTopology returns 0 if the slaves
      from `pos` on list a tree, and -1 only if at no point all slaves asked for so far are
      accounted for. */
  lemma NothingMissing(f: seq<Opens>, pos: nat, t: Tree)
    requires pos < |f| && t.Node? && Listed(f, pos, t)
    ensures !AlwaysOwed(f, pos, |f|, 1)
  {
    hide Size, Listed, Owed;
    ListedOwes(f, pos, t, 0);
    assert Owed(f, pos, pos + Size(t), 1) == 0;
  }

  /** For every tree and every list of slaves that is its preorder, ec_master_calc_topology succeeds,
      rebuilds exactly that tree and stops at its last slave. */
  method RebuildListedTree(slaves: array<Slave>, port0: Option<nat>, ghost tree: Tree) returns (ret: int, end: nat)
    requires slaves.Length > 0 && forall i :: 0 <= i < slaves.Length ==> Unlinked(slaves[i])
    requires tree.Node? && Listed(AllOpens(slaves[..]), 0, tree)
    modifies slaves
    ensures ret == 0 && end == Size(tree) - 1 < slaves.Length
    ensures slaves[..] == Linked(old(slaves[..]), 0, LinksOf(tree, 0, port0))
  {
    ghost var f := AllOpens(slaves[..]);
    ghost var t;
    ListedOwes(f, 0, tree, 0);
    ret, end, t := CalcTopology(slaves, port0, 0);
    NothingMissing(f, 0, tree);
    ListedUnique(f, 0, t, tree);
  }
}
