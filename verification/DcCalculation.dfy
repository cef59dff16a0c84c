/** ec_master_calc_dc end to end: from the open ports and the receive times of all slaves to their
    transmission delays. The ideal frame is the specification: it starts at true time `start` at the
    first slave and needs `d[j]` for the link in front of slave j, in both directions. */
module DcCalculation {
  import opened Words
  import opened BusTopology
  import opened DcJourney
  import opened DcDelay
  import opened DcAccuracy

  /** The time for the link to the slave at `pos`, the tour of its subtree, and the way back. */
  function Trip(t: Tree, pos: nat, d: seq<nat>): nat {
    match t
    case Empty => 0
    case Node(b3, b1, b2) =>
      2 * LinkAt(d, pos) + Trip(b3, pos + 1, d) + Trip(b1, pos + 1 + Size(b3), d)
      + Trip(b2, pos + 1 + Size(b3) + Size(b1), d)
  }

  /** `st` tells the journey of the ideal frame through `t`, which occupies the positions from
      `pos` on, when the frame arrives there at time `start`: it goes through the subtrees behind
      the ports 3, 1 and 2 one after the other. */
  ghost predicate Travels(st: seq<Stop>, d: seq<nat>, t: Tree, pos: nat, start: int)
    decreases t
  {
    match t
    case Empty => true
    case Node(b3, b1, b2) =>
      var p3, p1, p2 := pos + 1, pos + 1 + Size(b3), pos + 1 + Size(b3) + Size(b1);
      var t3 := start + Trip(b3, p3, d);
      var t1 := t3 + Trip(b1, p1, d);
      var t2 := t1 + Trip(b2, p2, d);
      && pos < |st| && st[pos] == Stop(start, t1, t2, t3, pos + Size(t) - 1)
      && Travels(st, d, b3, p3, start + LinkAt(d, p3))
      && Travels(st, d, b1, p1, t3 + LinkAt(d, p1))
      && Travels(st, d, b2, p2, t1 + LinkAt(d, p2))
  }

  predicate HasLinks(s: Slave, l: Links) {
    s.ports[0].next == l.n0 && s.ports[1].next == l.n1 && s.ports[2].next == l.n2 && s.ports[3].next == l.n3
  }

  ghost predicate Carries(s: seq<Slave>, pos: nat, l: seq<Links>) {
    pos + |l| <= |s| && forall i :: pos <= i < pos + |l| ==> HasLinks(s[i], l[i - pos])
  }

  lemma CarriesParts(s: seq<Slave>, pos: nat, h: Links, a: seq<Links>, b: seq<Links>, c: seq<Links>)
    requires Carries(s, pos, [h] + (a + b + c))
    ensures HasLinks(s[pos], h)
    ensures Carries(s, pos + 1, a) && Carries(s, pos + 1 + |a|, b) && Carries(s, pos + 1 + |a| + |b|, c)
  {
    var l := [h] + (a + b + c);
    assert l[0] == h;
    forall i | pos + 1 <= i < pos + 1 + |a| ensures HasLinks(s[i], a[i - (pos + 1)]) {
      assert l[i - pos] == a[i - (pos + 1)];
    }
    forall i | pos + 1 + |a| <= i < pos + 1 + |a| + |b| ensures HasLinks(s[i], b[i - (pos + 1 + |a|)]) {
      assert l[i - pos] == b[i - (pos + 1 + |a|)];
    }
    forall i | pos + 1 + |a| + |b| <= i < pos + |l| ensures HasLinks(s[i], c[i - (pos + 1 + |a| + |b|)]) {
      assert l[i - pos] == c[i - (pos + 1 + |a| + |b|)];
    }
  }

  /** The links of `t` have been written, and `st` is the journey of the frame. */
  ghost predicate Laid(s: seq<Slave>, st: seq<Stop>, d: seq<nat>, t: Tree, pos: nat, up: Option<nat>, start: int) {
    && |s| == |st| == |d| && pos + Size(t) <= |s|
    && Carries(s, pos, LinksOf(t, pos, up)) && Travels(st, d, t, pos, start)
  }

  lemma TripNode(t: Tree, pos: nat, d: seq<nat>)
    requires t.Node?
    ensures Size(t) == 1 + Size(t.b3) + Size(t.b1) + Size(t.b2)
    ensures Trip(t, pos, d) ==
      2 * LinkAt(d, pos) + Trip(t.b3, pos + 1, d) + Trip(t.b1, pos + 1 + Size(t.b3), d)
      + Trip(t.b2, pos + 1 + Size(t.b3) + Size(t.b1), d)
  {
    hide Size, LinkAt;
    SizeNode(t);
  }

  lemma TravelsNode(st: seq<Stop>, d: seq<nat>, t: Tree, pos: nat, start: int)
    requires t.Node?
    ensures Size(t) == 1 + Size(t.b3) + Size(t.b1) + Size(t.b2)
    ensures var p3, p1, p2 := pos + 1, pos + 1 + Size(t.b3), pos + 1 + Size(t.b3) + Size(t.b1);
      var t3 := start + Trip(t.b3, p3, d);
      var t1 := t3 + Trip(t.b1, p1, d);
      var t2 := t1 + Trip(t.b2, p2, d);
      Travels(st, d, t, pos, start) <==>
        && pos < |st| && st[pos] == Stop(start, t1, t2, t3, pos + Size(t) - 1)
        && Travels(st, d, t.b3, p3, start + LinkAt(d, p3))
        && Travels(st, d, t.b1, p1, t3 + LinkAt(d, p1))
        && Travels(st, d, t.b2, p2, t1 + LinkAt(d, p2))
  {
    hide Size, Trip, LinkAt;
    SizeNode(t);
  }

  /** One slave and the three subtrees behind it. */
  lemma LaidNode(s: seq<Slave>, st: seq<Stop>, d: seq<nat>, t: Tree, pos: nat, up: Option<nat>, start: int)
    requires t.Node? && Laid(s, st, d, t, pos, up, start)
    ensures Size(t) == 1 + Size(t.b3) + Size(t.b1) + Size(t.b2)
    ensures var p3 := pos + 1;
      var p1 := p3 + Size(t.b3);
      var p2 := p1 + Size(t.b1);
      var t3 := start + Trip(t.b3, p3, d);
      var t1 := t3 + Trip(t.b1, p1, d);
      var t2 := t1 + Trip(t.b2, p2, d);
      && HasLinks(s[pos], Links(up, Head(t.b1, p1), Head(t.b2, p2), Head(t.b3, p3)))
      && st[pos] == Stop(start, t1, t2, t3, pos + Size(t) - 1)
      && Trip(t, pos, d) == 2 * LinkAt(d, pos) + t2 - start
      && Laid(s, st, d, t.b3, p3, Some(pos), start + LinkAt(d, p3))
      && Laid(s, st, d, t.b1, p1, Some(pos), t3 + LinkAt(d, p1))
      && Laid(s, st, d, t.b2, p2, Some(pos), t1 + LinkAt(d, p2))
  {
    hide Size, LinksOf, Head, Trip, Travels, Carries, LinkAt;
    NodeLinks(t, pos, up);
    TripNode(t, pos, d);
    TravelsNode(st, d, t, pos, start);
    var p3 := pos + 1;
    var p1 := p3 + Size(t.b3);
    var p2 := p1 + Size(t.b1);
    var t3 := start + Trip(t.b3, p3, d);
    var t1 := t3 + Trip(t.b1, p1, d);
    var t2 := t1 + Trip(t.b2, p2, d);
    CarriesParts(s, pos, Links(up, Head(t.b1, p1), Head(t.b2, p2), Head(t.b3, p3)),
                 LinksOf(t.b3, p3, Some(pos)), LinksOf(t.b1, p1, Some(pos)), LinksOf(t.b2, p2, Some(pos)));
  }

  lemma TripEmpty(pos: nat, d: seq<nat>)
    ensures Size(Empty) == 0 && Trip(Empty, pos, d) == 0
  {
  }

  /** The first slave of a tree: where its subtree ends and when the frame leaves it for good. */
  lemma LaidHead(s: seq<Slave>, st: seq<Stop>, d: seq<nat>, t: Tree, pos: nat, up: Option<nat>, start: int)
    requires t.Node? && Laid(s, st, d, t, pos, up, start)
    ensures Size(t) >= 1
    ensures s[pos].ports[0].next == up && st[pos].t0 == start && st[pos].last == pos + Size(t) - 1
    ensures Leave(s, st, pos) == start + Trip(t, pos, d) - 2 * LinkAt(d, pos)
  {
    hide Size, Trip, Laid, Travels, LinkAt;
    LaidNode(s, st, d, t, pos, up, start);
    var p1 := pos + 1 + Size(t.b3);
    TripEmpty(pos + 1, d);
    TripEmpty(p1, d);
    TripEmpty(p1 + Size(t.b1), d);
  }

  lemma {:induction false} LaidLaws(s: seq<Slave>, st: seq<Stop>, d: seq<nat>, t: Tree, pos: nat, up: Option<nat>,
                                    start: int)
    requires Laid(s, st, d, t, pos, up, start)
    ensures forall i :: pos <= i < pos + Size(t) ==> SlaveLaw(s, st, d, i)
    decreases t
  {
    hide Size, Trip, Travels, LinksOf, Carries, HasLinks, SlaveLaw, LinkAt;
    assert |s| == |st| == |d|;
    hide Laid;
    TripEmpty(pos, d);
    if t.Empty? {
    } else {
      LaidNode(s, st, d, t, pos, up, start);
      var p3 := pos + 1;
      var p1 := p3 + Size(t.b3);
      var p2 := p1 + Size(t.b1);
      var t3 := start + Trip(t.b3, p3, d);
      var t1 := t3 + Trip(t.b1, p1, d);
      LaidLaws(s, st, d, t.b3, p3, Some(pos), start + LinkAt(d, p3));
      LaidLaws(s, st, d, t.b1, p1, Some(pos), t3 + LinkAt(d, p1));
      LaidLaws(s, st, d, t.b2, p2, Some(pos), t1 + LinkAt(d, p2));
      HeadLaw(s, st, d, t, pos, up, start);
    }
  }

  /** The subtree behind one port: it takes the positions after `from` up to `to`, and the frame is
      away from time `out` to time `back`. */
  ghost predicate Tour(s: seq<Slave>, st: seq<Stop>, d: seq<nat>, i: nat, next: Option<nat>, from: nat, to: nat,
                       out: int, back: int)
    requires |s| == |st| == |d|
  {
    match next
    case None => to == from && back == out
    case Some(j) =>
      && j == from + 1 <= to < |s| && s[j].ports[0].next == Some(i)
      && st[j].t0 == out + d[j] && st[j].last == to && back == Leave(s, st, j) + d[j]
  }

  lemma ToursMakeLaw(s: seq<Slave>, st: seq<Stop>, d: seq<nat>, i: nat, l: Links, e3: nat, e1: nat)
    requires |s| == |st| == |d| && i < |s| && HasLinks(s[i], l) && st[i].last < |s|
    requires Tour(s, st, d, i, l.n3, i, e3, st[i].t0, st[i].t3)
    requires Tour(s, st, d, i, l.n1, e3, e1, st[i].t3, st[i].t1)
    requires Tour(s, st, d, i, l.n2, e1, st[i].last, st[i].t1, st[i].t2)
    ensures SlaveLaw(s, st, d, i)
  {
    var ports := s[i].ports;
    assert PrevPort(ports, 3) == 0;
    assert PrevPort(ports, 1) == if l.n3.Some? then 3 else 0;
    assert PrevPort(ports, 2) == if l.n1.Some? then 1 else if l.n3.Some? then 3 else 0;
    hide Leave, Wrap32;
    assert Cursor(s, st, i, PrevPort(ports, 1)) == e3 && At(st[i], PrevPort(ports, 1)) == st[i].t3;
    assert Cursor(s, st, i, PrevPort(ports, 2)) == e1 && At(st[i], PrevPort(ports, 2)) == st[i].t1;
    forall p | p in {1, 2, 3} ensures LinkLaw(s, st, d, i, p) {
      if ports[p].next.Some? {
        var j := ports[p].next.value;
        LeaveIs(s, st, j);
      }
    }
  }

  lemma LeaveIs(s: seq<Slave>, st: seq<Stop>, j: nat)
    requires j < |s| == |st|
    ensures Leave(s, st, j) == At(st[j], LastPort(s[j].ports))
  {
  }

  /** What hangs behind a port of the slave `i` makes a tour. */
  lemma LaidTour(s: seq<Slave>, st: seq<Stop>, d: seq<nat>, t: Tree, pos: nat, i: nat, out: int)
    requires pos > 0 && Laid(s, st, d, t, pos, Some(i), out + LinkAt(d, pos))
    ensures |s| == |st| == |d| && pos + Size(t) <= |s|
    ensures Tour(s, st, d, i, Head(t, pos), pos - 1, pos - 1 + Size(t), out, out + Trip(t, pos, d))
  {
    hide Size, Trip, Travels, LinksOf, Carries, Leave;
    assert |s| == |st| == |d|;
    TripEmpty(pos, d);
    if t.Node? {
      LaidHead(s, st, d, t, pos, Some(i), out + LinkAt(d, pos));
    }
  }

  lemma HeadLaw(s: seq<Slave>, st: seq<Stop>, d: seq<nat>, t: Tree, pos: nat, up: Option<nat>, start: int)
    requires t.Node? && Laid(s, st, d, t, pos, up, start)
    ensures pos < |s| == |st| == |d| && SlaveLaw(s, st, d, pos)
  {
    hide Size, Trip, Travels, LinksOf, Carries, Tour, LinkAt, Head, SlaveLaw;
    assert |s| == |st| == |d| && pos + Size(t) <= |s|;
    hide Laid;
    LaidNode(s, st, d, t, pos, up, start);
    var p3 := pos + 1;
    var p1 := p3 + Size(t.b3);
    var p2 := p1 + Size(t.b1);
    var t3 := start + Trip(t.b3, p3, d);
    var t1 := t3 + Trip(t.b1, p1, d);
    LaidTour(s, st, d, t.b3, p3, pos, start);
    LaidTour(s, st, d, t.b1, p1, pos, t3);
    LaidTour(s, st, d, t.b2, p2, pos, t1);
    ToursMakeLaw(s, st, d, pos, Links(up, Head(t.b1, p1), Head(t.b2, p2), Head(t.b3, p3)), p1 - 1, p2 - 1);
  }

  // ----- every tree has a journey -----

  lemma {:induction false} TravelsKeep(st: seq<Stop>, st': seq<Stop>, d: seq<nat>, t: Tree, pos: nat, start: int)
    requires Travels(st, d, t, pos, start) && |st| == |st'|
    requires forall i :: pos <= i < pos + Size(t) && i < |st| ==> st'[i] == st[i]
    ensures Travels(st', d, t, pos, start)
    decreases t
  {
    hide Size, Trip, Travels, LinkAt;
    if t.Node? {
      TravelsNode(st, d, t, pos, start);
      TravelsNode(st', d, t, pos, start);
      var p3, p1, p2 := pos + 1, pos + 1 + Size(t.b3), pos + 1 + Size(t.b3) + Size(t.b1);
      var t3 := start + Trip(t.b3, p3, d);
      var t1 := t3 + Trip(t.b1, p1, d);
      TravelsKeep(st, st', d, t.b3, p3, start + LinkAt(d, p3));
      TravelsKeep(st, st', d, t.b1, p1, t3 + LinkAt(d, p1));
      TravelsKeep(st, st', d, t.b2, p2, t1 + LinkAt(d, p2));
    } else {
      TravelsEmpty(st', d, pos, start);
    }
  }

  lemma TravelsEmpty(st: seq<Stop>, d: seq<nat>, pos: nat, start: int)
    ensures Travels(st, d, Empty, pos, start)
  {
  }

  /** The ideal frame exists for every tree, all link delays and every starting time. */
  lemma {:induction false} JourneyExists(st0: seq<Stop>, d: seq<nat>, t: Tree, pos: nat, start: int)
    returns (st: seq<Stop>)
    requires pos + Size(t) <= |st0|
    ensures |st| == |st0| && Travels(st, d, t, pos, start)
    ensures forall i :: 0 <= i < |st0| && !(pos <= i < pos + Size(t)) ==> st[i] == st0[i]
    decreases t
  {
    hide Size, Trip, Travels, LinkAt;
    if t.Node? {
      SizeNode(t);
      var p3, p1, p2 := pos + 1, pos + 1 + Size(t.b3), pos + 1 + Size(t.b3) + Size(t.b1);
      var t3 := start + Trip(t.b3, p3, d);
      var t1 := t3 + Trip(t.b1, p1, d);
      var t2 := t1 + Trip(t.b2, p2, d);
      var s3 := JourneyExists(st0[pos := Stop(start, t1, t2, t3, pos + Size(t) - 1)], d, t.b3, p3,
                              start + LinkAt(d, p3));
      var s1 := JourneyExists(s3, d, t.b1, p1, t3 + LinkAt(d, p1));
      st := JourneyExists(s1, d, t.b2, p2, t1 + LinkAt(d, p2));
      TravelsKeep(s3, st, d, t.b3, p3, start + LinkAt(d, p3));
      TravelsKeep(s1, st, d, t.b1, p1, t3 + LinkAt(d, p1));
      TravelsNode(st, d, t, pos, start);
    } else {
      st := st0;
      TravelsEmpty(st, d, pos, start);
    }
  }

  // ----- the whole calculation -----

  /** After the reconstruction a port is connected exactly if it is open. */
  lemma {:induction false} OpenIsConnected(s: seq<Slave>, f: seq<Opens>, t: Tree, pos: nat, up: Option<nat>)
    requires Listed(f, pos, t) && Carries(s, pos, LinksOf(t, pos, up)) && |f| == |s|
    ensures forall i, p :: pos <= i < pos + Size(t) && i < |s| && p in {1, 2, 3} ==>
      Connected(s[i].ports, p) == OpenAt(f[i], p)
    decreases t
  {
    hide Size, Listed, LinksOf, Carries;
    ListedEmpty(f, pos);
    if t.Empty? {
    } else {
      ListedNode(f, pos, t);
      NodeLinks(t, pos, up);
      var p3 := pos + 1;
      var p1 := p3 + Size(t.b3);
      var p2 := p1 + Size(t.b1);
      CarriesParts(s, pos, Links(up, Head(t.b1, p1), Head(t.b2, p2), Head(t.b3, p3)),
                   LinksOf(t.b3, p3, Some(pos)), LinksOf(t.b1, p1, Some(pos)), LinksOf(t.b2, p2, Some(pos)));
      OpenIsConnected(s, f, t.b3, p3, Some(pos));
      OpenIsConnected(s, f, t.b1, p1, Some(pos));
      OpenIsConnected(s, f, t.b2, p2, Some(pos));
    }
  }

  lemma LinkedCarries(s: seq<Slave>, l: seq<Links>)
    requires |l| == |s|
    ensures Carries(Linked(s, 0, l), 0, l)
  {
  }

  /** The readings of a bus that is listed by its open ports but not yet linked: what the scan of the
      slaves leaves for ec_master_calc_dc, if the frame that was measured was the ideal one. */
  ghost predicate Readings(s: seq<Slave>, st: seq<Stop>, d: seq<nat>, clock: seq<int>, tree: Tree, start: int) {
    && tree.Node? && Listed(AllOpens(s), 0, tree)
    && |s| == |st| == |d| == |clock| == Size(tree)
    && Travels(st, d, tree, 0, start)
    && (forall i :: 0 <= i < |s| ==> Unlinked(s[i]))
    && (forall i, p :: 0 <= i < |s| && s[i].dcSupported && 0 <= p < 4 && (p == 0 || OpenAt(OpensOf(s[i]), p)) ==>
          s[i].ports[p].receiveTime == Wrap32(At(st[i], p) + clock[i]))
  }

  /** The slaves with the links of the tree. */
  function Joined(s: seq<Slave>, tree: Tree): (r: seq<Slave>)
    requires Size(tree) == |s|
    ensures |r| == |s|
  {
    Linked(s, 0, LinksOf(tree, 0, None))
  }

  lemma LinkedBus(s: seq<Slave>, st: seq<Stop>, d: seq<nat>, clock: seq<int>, tree: Tree, start: int)
    requires Readings(s, st, d, clock, tree, start)
    ensures var s0 := Joined(s, tree);
      && Bus(s0, st, d) && |s0| > 0 && st[0].last == |s0| - 1
      && forall i, p :: 0 <= i < |s| && p in {1, 2, 3} ==> Connected(s0[i].ports, p) == OpenAt(OpensOf(s[i]), p)
  {
    hide Size, Listed, Travels, LinksOf, Linked, Carries, SlaveLaw, Leave, Wrap32;
    var s0 := Joined(s, tree);
    LinkedCarries(s, LinksOf(tree, 0, None));
    OpenIsConnected(s0, AllOpens(s), tree, 0, None);
    assert Laid(s0, st, d, tree, 0, None, start);
    LaidHead(s0, st, d, tree, 0, None, start);
    LaidLaws(s0, st, d, tree, 0, None, start);
    assert forall i :: 0 <= i < |s| ==> AllOpens(s)[i] == OpensOf(s[i]);
  }

  lemma LinkedKeepsSlave(s: seq<Slave>, l: seq<Links>, i: nat)
    requires |l| == |s| && i < |s|
    ensures var t := Linked(s, 0, l)[i];
      && t.dcSupported == s[i].dcSupported && t.transmissionDelay == s[i].transmissionDelay
      && forall p :: 0 <= p < 4 ==> t.ports[p].receiveTime == s[i].ports[p].receiveTime
  {
  }

  lemma LinkedSetup(s: seq<Slave>, st: seq<Stop>, d: seq<nat>, clock: seq<int>, tree: Tree, start: int)
    requires Readings(s, st, d, clock, tree, start)
    ensures var s0 := Joined(s, tree);
      && Setup(s0, st, d, clock) && |s0| > 0 && st[0].last == |s0| - 1
      && forall i :: 0 <= i < |s| ==>
           s0[i].dcSupported == s[i].dcSupported && s0[i].transmissionDelay == s[i].transmissionDelay
  {
    LinkedBus(s, st, d, clock, tree, start);
    hide Size, Listed, Travels, LinksOf, Linked, Bus, Wrap32, OpenAt, OpensOf;
    var l := LinksOf(tree, 0, None);
    var s0 := Joined(s, tree);
    forall i | 0 <= i < |s|
      ensures s0[i].dcSupported == s[i].dcSupported && s0[i].transmissionDelay == s[i].transmissionDelay
      ensures forall p :: 0 <= p < 4 ==> s0[i].ports[p].receiveTime == s[i].ports[p].receiveTime
    {
      LinkedKeepsSlave(s, l, i);
    }
  }

  /** ec_master_calc_dc, for every tree of slaves, all link delays and all clock offsets. The reference is the first DC
      slave. Every port with DC slaves behind it carries what 32 bits show of the delay to the first of them. The slaves
      that the walk finds get the delays counted on the way from the reference, and the others keep what they had. On an
      ordinary bus these are all DC slaves, and they get the time that the ideal frame needs from the reference, less
      the time it spends in subtrees without DC slaves on the way. */
  method CalcDc(slaves: array<Slave>, ghost tree: Tree, ghost st: seq<Stop>, ghost d: seq<nat>,
                ghost clock: seq<int>, ghost start: int)
    returns (ret: int, refClock: Option<nat>)
    requires Readings(slaves[..], st, d, clock, tree, start)
    modifies slaves
    ensures ret == 0 && |st| == slaves.Length == Size(tree)
    ensures refClock.None? ==> forall x :: 0 <= x < slaves.Length ==> !old(slaves[x].dcSupported)
    ensures refClock.Some? ==> refClock.value < slaves.Length && old(slaves[refClock.value].dcSupported)
    ensures refClock.Some? ==> forall x :: 0 <= x < refClock.value ==> !old(slaves[x].dcSupported)
    ensures AllMeasured(slaves[..], Joined(old(slaves[..]), tree), st, d)
    ensures forall x :: 0 <= x < slaves.Length ==>
      && Alike(slaves[x], Joined(old(slaves[..]), tree)[x])
      && slaves[x].transmissionDelay == Transmission(Joined(old(slaves[..]), tree), st, d, refClock, x)
    ensures Ordinary(Joined(old(slaves[..]), tree), st) && Short(Joined(old(slaves[..]), tree), st, d) ==>
      forall x :: 0 <= x < slaves.Length && slaves[x].dcSupported ==>
        && refClock.Some?
        && Late(slaves[x], Joined(old(slaves[..]), tree), st, d, refClock.value, x)
        && Seen(Joined(old(slaves[..]), tree), st, d, x) == PathDelay(Joined(old(slaves[..]), tree), st, d, x)
  {
    hide Size, Listed, Travels, LinksOf, Linked, Setup, Wrap32, FirstDc, AllOpens, Transmission, Ordinary, Short, Late,
      Seen,
      PathDelay, Measured, Alike, Bus;
    ghost var s := slaves[..];
    assert |s| == Size(tree) == |d| == |st|;
    assert tree.Node? && Listed(AllOpens(s), 0, tree) && forall i :: 0 <= i < |s| ==> Unlinked(s[i]);
    LinkedSetup(s, st, d, clock, tree, start);
    LinkedBus(s, st, d, clock, tree, start);
    hide Readings;
    refClock := FindDcRefClock(slaves);
    var end;
    ret, end := RebuildListedTree(slaves, None, tree);
    ghost var s0 := slaves[..];
    CalcDelays(slaves, refClock, s0, st, d, clock);
    forall x | 0 <= x < |s| ensures Alike(slaves[x], s0[x]) && slaves[x].dcSupported == s0[x].dcSupported {
      TwinIsAlike(slaves[x], s0[x]);
    }
    if Ordinary(s0, st) && Short(s0, st, d) {
      forall x | 0 <= x < |s| && slaves[x].dcSupported
        ensures refClock.Some? && Late(slaves[x], s0, st, d, refClock.value, x) &&
          Seen(s0, st, d, x) == PathDelay(s0, st, d, x)
      {
        RefIsFirstDc(s0, refClock, x);
        OrdinaryIsLate(slaves[x], s0, st, d, x);
      }
    }
  }

  lemma TwinIsAlike(a: Slave, b: Slave)
    requires Twin(a.(transmissionDelay := b.transmissionDelay), b)
    ensures Alike(a, b) && a.dcSupported == b.dcSupported
  {
    assert a.(transmissionDelay := b.transmissionDelay).ports == a.ports;
  }

  lemma RefIsFirstDc(s0: seq<Slave>, ref: Option<nat>, x: nat)
    requires x < |s0| && s0[x].dcSupported
    requires ref.Some? ==> ref.value < |s0| && s0[ref.value].dcSupported
    requires ref.Some? ==> forall m :: 0 <= m < ref.value ==> !s0[m].dcSupported
    requires ref.None? ==> forall m :: 0 <= m < |s0| ==> !s0[m].dcSupported
    ensures ref == Some(FirstDc(s0, 0))
  {
    FirstDcBefore(s0, 0, x);
    if ref.Some? {
      FirstDcBefore(s0, 0, ref.value);
    }
  }

  /** The transmission delay is the time of the ideal frame from `ref` to `x`, less twice the silent time in between. */
  ghost predicate Late(sl: Slave, s: seq<Slave>, st: seq<Stop>, d: seq<nat>, ref: nat, x: nat) {
    && ref <= x < |s| == |st|
    && sl.transmissionDelay == Wrap32(st[x].t0 - st[ref].t0 - 2 * SilentTime(s, st, d, ref, x))
  }

  lemma OrdinaryIsLate(sl: Slave, s: seq<Slave>, st: seq<Stop>, d: seq<nat>, x: nat)
    requires x < |s| && Bus(s, st, d) && Ordinary(s, st) && Short(s, st, d) && st[0].last == |s| - 1 && s[x].dcSupported
    requires |st| == |s| && sl.transmissionDelay == Transmission(s, st, d, Some(FirstDc(s, 0)), x)
    ensures Late(sl, s, st, d, FirstDc(s, 0), x) && Seen(s, st, d, x) == PathDelay(s, st, d, x)
  {
    hide Bus, Ordinary, Short, Found, Delay, Seen, PathDelay, SilentTime, Wrap32;
    OrdinaryDelay(s, st, d, x);
  }
}
