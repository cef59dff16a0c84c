/** The ideal frame on its tour over a linked bus, and what the delay calculation of the distributed clocks can see of
    it (src/ec_slave.c:136-276): where the frame goes, when it comes back, and which slaves the search finds. */
module DcJourney {
  import opened Words
  import opened BusTopology

  // ----- the ports of one slave in the order in which the frame visits them -----

  predicate Connected(ports: Ports, p: nat) {
    p < 4 && ports[p].next.Some?
  }

  /** The first connected port after `p` in the order 0, 3, 1, 2; 0 if there is none. */
  function NextPort(ports: Ports, p: nat): (q: nat)
    ensures q < 4 && (q != 0 ==> Connected(ports, q) && Rank(q) < PortRank(p))
  {
    if p == 0 && Connected(ports, 3) then 3
    else if p in {0, 3} && Connected(ports, 1) then 1
    else if p in {0, 3, 1} && Connected(ports, 2) then 2
    else 0
  }

  /** The last connected port before `p` in the order 3, 1, 2, 0; 0 if there is none. */
  function PrevPort(ports: Ports, p: nat): (q: nat)
    ensures q < 4 && (q != 0 ==> Connected(ports, q))
  {
    if p == 0 && Connected(ports, 2) then 2
    else if p in {0, 2} && Connected(ports, 1) then 1
    else if p in {0, 2, 1} && Connected(ports, 3) then 3
    else 0
  }

  /** The port through which the frame comes back to the slave for the last time. */
  function LastPort(ports: Ports): nat {
    PrevPort(ports, 0)
  }

  /** Rank in the visiting order, with port 0 as the place where the tour starts. */
  function PortRank(p: nat): nat {
    if p == 0 then 4 else Rank(p)
  }

  /** The two port tables are inverse to each other, also after skipping unconnected ports. */
  lemma PortOrdersInverse(ports: Ports, p: nat)
    requires p == 0 || Connected(ports, p)
    ensures PrevPort(ports, NextPort(ports, p)) == p
    ensures NextPort(ports, PrevPort(ports, p)) == p
  {
    assert forall q :: 0 <= q < 4 ==> PREV_TABLE[NEXT_TABLE[q]] == q;
  }

  lemma FirstAndLast(ports: Ports)
    ensures PrevPort(ports, NextPort(ports, 0)) == 0
    ensures Wrap32(0) == 0
    ensures forall p :: Connected(ports, p) && p != 0 ==>
      && Rank(NextPort(ports, p)) < Rank(p)
      && PrevPort(ports, NextPort(ports, p)) == p
  {
    PortOrdersInverse(ports, 0);
  }

  // ----- the ideal frame -----

  /** What happens to the frame at one slave: the true time `at[p]` at which it comes in through
      port p (p = 0: arrives, otherwise: returns), and the last position of the slave's subtree. */
  datatype Stop = Stop(t0: int, t1: int, t2: int, t3: int, last: nat)

  function At(st: Stop, p: nat): int {
    if p == 0 then st.t0 else if p == 1 then st.t1 else if p == 2 then st.t2 else st.t3
  }

  /** The last position used by what hangs behind port `q` of slave `i`, or `i` itself for `q` = 0. */
  function Cursor(s: seq<Slave>, st: seq<Stop>, i: nat, q: nat): nat
    requires i < |s|
  {
    if q != 0 && Connected(s[i].ports, q) && s[i].ports[q].next.value < |st| then st[s[i].ports[q].next.value].last
    else i
  }

  /** Slave `i` leads through port `p` to the next free position, and the frame takes `d[j]` to the
      slave `j` there and again `d[j]` back, after it has left `j` for the last time. */
  ghost predicate LinkLaw(s: seq<Slave>, st: seq<Stop>, d: seq<nat>, i: nat, p: nat)
    requires |s| == |st| == |d| && i < |s| && p < 4
  {
    s[i].ports[p].next.Some? ==>
      var j := s[i].ports[p].next.value;
      var q := PrevPort(s[i].ports, p);
      && i < j == Cursor(s, st, i, q) + 1 <= st[i].last && st[i].last < |s|
      && s[j].ports[0].next == Some(i)
      && At(st[j], 0) == At(st[i], q) + d[j]
      && At(st[i], p) == At(st[j], LastPort(s[j].ports)) + d[j]
  }

  ghost predicate SlaveLaw(s: seq<Slave>, st: seq<Stop>, d: seq<nat>, i: nat)
    requires |s| == |st| == |d| && i < |s|
  {
    && LinkLaw(s, st, d, i, 1) && LinkLaw(s, st, d, i, 2) && LinkLaw(s, st, d, i, 3)
    && i <= st[i].last == Cursor(s, st, i, LastPort(s[i].ports)) < |s|
  }

  /** A linked bus with the journey of one frame over it. */
  ghost predicate Bus(s: seq<Slave>, st: seq<Stop>, d: seq<nat>) {
    |s| == |st| == |d| && forall i :: 0 <= i < |s| ==> SlaveLaw(s, st, d, i)
  }

  /** Nobody in the subtree of slave `i` has distributed clocks. */
  ghost predicate Silent(s: seq<Slave>, st: seq<Stop>, i: nat) {
    i < |s| == |st| && forall m :: i <= m <= st[i].last && m < |s| ==> !s[m].dcSupported
  }

  /** The receive times: the true times, shifted by the offset of the slave's clock and cut to
      32 bits. */
  ghost predicate Stamped(s: seq<Slave>, st: seq<Stop>, clock: seq<int>)
    requires |s| == |st| == |clock|
  {
    forall i, p :: 0 <= i < |s| && s[i].dcSupported && 0 <= p < 4 && (p == 0 || Connected(s[i].ports, p)) ==>
      s[i].ports[p].receiveTime == Wrap32(At(st[i], p) + clock[i])
  }

  /** The first DC slave at or behind position `j`. */
  function FirstDc(s: seq<Slave>, j: nat): (k: nat)
    requires j < |s|
    ensures j <= k < |s| && forall m :: j <= m < k ==> !s[m].dcSupported
    decreases |s| - j
  {
    if s[j].dcSupported || j + 1 == |s| then j else FirstDc(s, j + 1)
  }

  function Leave(s: seq<Slave>, st: seq<Stop>, i: nat): int
    requires i < |s| == |st|
  {
    At(st[i], LastPort(s[i].ports))
  }

  // ----- subtrees -----

  /** The branch of slave `i` in which position `x` lies. */
  lemma FindBranch(s: seq<Slave>, st: seq<Stop>, d: seq<nat>, i: nat, x: nat) returns (p: nat)
    requires Bus(s, st, d) && i < |s| && i < x <= st[i].last
    ensures p in {1, 2, 3} && Connected(s[i].ports, p)
    ensures |s| == |st| &&
      var j := s[i].ports[p].next.value;
      j < |s| && i < j <= x <= st[j].last == Cursor(s, st, i, p) <= st[i].last < |s| &&
        j == Cursor(s, st, i, PrevPort(s[i].ports, p)) + 1
  {
    assert SlaveLaw(s, st, d, i);
    FirstAndLast(s[i].ports);
    hide NextPort, PrevPort, Cursor, SlaveLaw, LinkLaw, Bus;
    assert Cursor(s, st, i, 0) == i by { CursorOfZero(s, st, i); }
    p := NextPort(s[i].ports, 0);
    assert PrevPort(s[i].ports, p) == 0 && PrevPort(s[i].ports, 0) == LastPort(s[i].ports);
    while p != 0 && Cursor(s, st, i, p) < x
      invariant p == 0 || Connected(s[i].ports, p)
      invariant Cursor(s, st, i, PrevPort(s[i].ports, p)) < x
      decreases Rank(p)
    {
      var was := p;
      p := NextPort(s[i].ports, p);
      assert PrevPort(s[i].ports, p) == was;
    }
    BranchExtent(s, st, d, i, p);
  }

  lemma CursorOfZero(s: seq<Slave>, st: seq<Stop>, i: nat)
    requires i < |s|
    ensures Cursor(s, st, i, 0) == i
  {
  }

  /** Subtrees are nested. */
  lemma {:induction false} Nested(s: seq<Slave>, st: seq<Stop>, d: seq<nat>, i: nat, x: nat)
    requires Bus(s, st, d) && i < |s| && i <= x <= st[i].last
    ensures x < |s| == |st| && x <= st[x].last <= st[i].last < |s|
    decreases |s| - i
  {
    assert SlaveLaw(s, st, d, i);
    if i >= x {
    } else {
      var p := FindBranch(s, st, d, i, x);
      Nested(s, st, d, s[i].ports[p].next.value, x);
    }
  }

  lemma CursorFromStart(s: seq<Slave>, st: seq<Stop>, d: seq<nat>, i: nat, q: nat)
    requires Bus(s, st, d) && i < |s| && (q == 0 || Connected(s[i].ports, q))
    ensures Cursor(s, st, i, q) >= i
  {
    if q != 0 {
      assert SlaveLaw(s, st, d, i) && LinkLaw(s, st, d, i, q);
      assert SlaveLaw(s, st, d, s[i].ports[q].next.value);
    }
  }

  lemma CursorBelowLast(s: seq<Slave>, st: seq<Stop>, d: seq<nat>, i: nat, p: nat)
    requires Bus(s, st, d) && i < |s| && p in {1, 2, 3} && Connected(s[i].ports, p)
    ensures Cursor(s, st, i, p) <= st[i].last
  {
    assert SlaveLaw(s, st, d, i);
    var q := NextPort(s[i].ports, p);
    if q != 0 {
      var j := s[i].ports[q].next.value;
      assert LinkLaw(s, st, d, i, q) && PrevPort(s[i].ports, q) == p;
    }
  }

  /** The subtree behind a port fills the positions between the cursors before and after it. */
  lemma BranchExtent(s: seq<Slave>, st: seq<Stop>, d: seq<nat>, i: nat, p: nat)
    requires Bus(s, st, d) && i < |s| && p in {1, 2, 3} && Connected(s[i].ports, p)
    ensures var j := s[i].ports[p].next.value;
      i < j < |s| && j == Cursor(s, st, i, PrevPort(s[i].ports, p)) + 1
      && st[j].last == Cursor(s, st, i, p) <= st[i].last < |s|
  {
    assert SlaveLaw(s, st, d, i) && LinkLaw(s, st, d, i, p);
    CursorBelowLast(s, st, d, i, p);
  }

  lemma Extent(s: seq<Slave>, st: seq<Stop>, d: seq<nat>, i: nat)
    requires Bus(s, st, d) && i < |s|
    ensures |s| == |st| == |d| && At(st[i], 0) == st[i].t0
    ensures i == Cursor(s, st, i, 0) <= Cursor(s, st, i, LastPort(s[i].ports)) == st[i].last < |s|
  {
    assert SlaveLaw(s, st, d, i);
  }

  lemma {:induction false} FirstDcFrom(s: seq<Slave>, i: nat, j: nat)
    requires i <= j < |s| && forall m :: i <= m < j ==> !s[m].dcSupported
    ensures FirstDc(s, i) == FirstDc(s, j)
    decreases j - i
  {
    if i >= j {
    } else {
      FirstDcFrom(s, i + 1, j);
    }
  }

  lemma SilentIs(s: seq<Slave>, st: seq<Stop>, j: nat)
    requires j < |s| == |st|
    requires forall m :: j <= m <= st[j].last < |s| ==> !s[m].dcSupported
    requires st[j].last < |s|
    ensures Silent(s, st, j)
  {
  }

  lemma NotSilent(s: seq<Slave>, st: seq<Stop>, j: nat, k: nat)
    requires j <= k < |s| == |st| && k <= st[j].last && s[k].dcSupported
    ensures !Silent(s, st, j)
  {
  }

  /** The slave in front of `x` lies in every subtree in which `x` is not the first slave. */
  lemma {:induction false} ParentInside(s: seq<Slave>, st: seq<Stop>, d: seq<nat>, i: nat, x: nat)
    requires Bus(s, st, d) && i < |s| && i < x <= st[i].last
    ensures x < |s| == |st| && s[x].ports[0].next.Some?
    ensures i <= s[x].ports[0].next.value < x <= st[s[x].ports[0].next.value].last
    decreases |s| - i
  {
    Nested(s, st, d, i, x);
    var p := FindBranch(s, st, d, i, x);
    var j := s[i].ports[p].next.value;
    if x == j {
      ChildOf(s, st, d, i, p);
    } else {
      ParentInside(s, st, d, j, x);
    }
  }

  lemma ChildOf(s: seq<Slave>, st: seq<Stop>, d: seq<nat>, i: nat, p: nat)
    requires Bus(s, st, d) && i < |s| && p in {1, 2, 3} && Connected(s[i].ports, p)
    ensures var j := s[i].ports[p].next.value; i < j < |s| == |st| && s[j].ports[0].next == Some(i) && j <= st[i].last
  {
    assert SlaveLaw(s, st, d, i) && LinkLaw(s, st, d, i, p);
  }

  /** What lies between a slave and one that it leads to belongs to branches that have ended before. */
  lemma BeforeChild(s: seq<Slave>, st: seq<Stop>, d: seq<nat>, i: nat, j: nat, m: nat)
    requires Bus(s, st, d) && i < m < j < |s| && s[j].ports[0].next == Some(i)
    ensures |st| == |s| && st[m].last < j
  {
    if st[m].last >= j {
      ParentInside(s, st, d, m, j);
    }
  }

  // ----- sums of link delays -----

  /** The sum of the link delays from position `from` to before `end`. */
  function LinkSum(d: seq<nat>, from: nat, end: nat): nat
    decreases end
  {
    if from < end then LinkSum(d, from, end - 1) + LinkAt(d, end - 1) else 0
  }

  /** The delay of the link in front of the slave at position `m`. */
  function LinkAt(d: seq<nat>, m: nat): nat {
    if m < |d| then d[m] else 0
  }

  lemma {:induction false} LinkSumSplit(d: seq<nat>, from: nat, mid: nat, end: nat)
    requires from <= mid <= end
    ensures LinkSum(d, from, end) == LinkSum(d, from, mid) + LinkSum(d, mid, end)
    ensures mid < end ==> LinkSum(d, mid, end) == LinkAt(d, mid) + LinkSum(d, mid + 1, end)
    decreases end
  {
    if mid == end {
      EmptySum(d, mid);
    } else {
      LinkSumSplit(d, from, mid, end - 1);
    }
  }

  /** When the frame comes back through a port it has been over every link up to there twice. */
  lemma {:induction false} PortTime(s: seq<Slave>, st: seq<Stop>, d: seq<nat>, i: nat, p: nat)
    requires Bus(s, st, d) && i < |s| && (p == 0 || Connected(s[i].ports, p))
    ensures i <= Cursor(s, st, i, p) < |s| == |st| == |d|
    ensures At(st[i], p) == At(st[i], 0) + 2 * LinkSum(d, i + 1, Cursor(s, st, i, p) + 1)
    decreases |s| - i, if p == 0 then 0 else 4 - Rank(p)
  {
    Extent(s, st, d, i);
    PortOrdersInverse(s[i].ports, p);
    hide NextPort, PrevPort, Cursor, LinkSum, Bus;
    if p == 0 {
      EmptySum(d, i + 1);
    } else {
      var j := s[i].ports[p].next.value;
      var q := PrevPort(s[i].ports, p);
      PortTime(s, st, d, i, q);
      OverLink(s, st, d, i, p);
      Extent(s, st, d, j);
      PortTime(s, st, d, j, LastPort(s[j].ports));
      LinkSumSplit(d, i + 1, j, st[j].last + 1);
    }
  }

  lemma EmptySum(d: seq<nat>, i: nat)
    ensures LinkSum(d, i, i) == 0
  {
  }

  /** Out over the link behind a port, through the subtree there, and back over the link. */
  lemma OverLink(s: seq<Slave>, st: seq<Stop>, d: seq<nat>, i: nat, p: nat)
    requires Bus(s, st, d) && i < |s| && p in {1, 2, 3} && Connected(s[i].ports, p)
    ensures var j := s[i].ports[p].next.value;
      var q := PrevPort(s[i].ports, p);
      && i < j < |s| == |st| == |d| && j == Cursor(s, st, i, q) + 1 && st[j].last == Cursor(s, st, i, p)
      && At(st[j], 0) == At(st[i], q) + d[j] && At(st[i], p) == Leave(s, st, j) + d[j]
      && q < 4 && (q != 0 ==> Connected(s[i].ports, q) && Rank(p) < Rank(q))
  {
    BranchExtent(s, st, d, i, p);
    assert SlaveLaw(s, st, d, i) && LinkLaw(s, st, d, i, p);
  }

  lemma {:induction false} ZeroSum(d: seq<nat>, from: nat, end: nat)
    requires forall m :: from <= m < end ==> LinkAt(d, m) == 0
    ensures LinkSum(d, from, end) == 0
    decreases end
  {
    if from >= end {
    } else {
      ZeroSum(d, from, end - 1);
    }
  }

  /** The time from slave `i` to slave `x` of its subtree, for the links from position `from` to before `end`: a link on
      the way to `x` counts once, one into a branch that ended before counts twice. */
  function Way(st: seq<Stop>, d: seq<nat>, from: nat, end: nat, x: nat): nat
    decreases end
  {
    if from < end then Way(st, d, from, end - 1, x) + Weigh(st, end - 1, x, LinkAt(d, end - 1)) else 0
  }

  function Weigh(st: seq<Stop>, m: nat, x: nat, delay: nat): nat {
    if m < |st| && x <= st[m].last then delay else 2 * delay
  }

  lemma {:induction false} WaySplit(st: seq<Stop>, d: seq<nat>, from: nat, mid: nat, end: nat, x: nat)
    requires from <= mid <= end
    ensures Way(st, d, from, end, x) == Way(st, d, from, mid, x) + Way(st, d, mid, end, x)
    ensures mid < end ==> Way(st, d, mid, end, x) == Weigh(st, mid, x, LinkAt(d, mid)) + Way(st, d, mid + 1, end, x)
    decreases end
  {
    hide Weigh;
    if mid == end {
      NoWay(st, d, mid, x);
    } else {
      WaySplit(st, d, from, mid, end - 1, x);
      NoWay(st, d, mid + 1, x);
    }
  }

  lemma NoWay(st: seq<Stop>, d: seq<nat>, i: nat, x: nat)
    ensures Way(st, d, i, i, x) == 0
  {
  }

  lemma {:induction false} WayAside(st: seq<Stop>, d: seq<nat>, from: nat, end: nat, x: nat)
    requires end <= |st| && forall m :: from <= m < end ==> st[m].last < x
    ensures Way(st, d, from, end, x) == 2 * LinkSum(d, from, end)
    decreases end
  {
    if from >= end {
    } else {
      WayAside(st, d, from, end - 1, x);
    }
  }

  lemma {:induction false} ZeroWay(st: seq<Stop>, d: seq<nat>, from: nat, end: nat, x: nat)
    requires forall m :: from <= m < end ==> LinkAt(d, m) == 0
    ensures Way(st, d, from, end, x) == 0
    decreases end
  {
    if from >= end {
    } else {
      ZeroWay(st, d, from, end - 1, x);
    }
  }

  /** The way into a branch: over everything before it twice, over the link to it once, and on from there. */
  lemma BranchWay(s: seq<Slave>, st: seq<Stop>, d: seq<nat>, e: seq<nat>, i: nat, j: nat, x: nat)
    requires Bus(s, st, d) && i < j < |s| && s[j].ports[0].next == Some(i) && j <= x <= st[j].last
    ensures Way(st, e, i + 1, x + 1, x) == 2 * LinkSum(e, i + 1, j) + LinkAt(e, j) + Way(st, e, j + 1, x + 1, x)
  {
    hide LinkSum, Way;
    forall m | i + 1 <= m < j ensures st[m].last < x {
      BeforeChild(s, st, d, i, j, m);
    }
    WaySplit(st, e, i + 1, j, x + 1, x);
    WayAside(st, e, i + 1, j, x);
  }

  /** When the ideal frame arrives at a slave, seen from a slave whose subtree it is in. */
  lemma {:induction false} ArrivesAfterWay(s: seq<Slave>, st: seq<Stop>, d: seq<nat>, i: nat, x: nat)
    requires Bus(s, st, d) && i < |s| && i <= x <= st[i].last
    ensures x < |s| == |st| && At(st[x], 0) == At(st[i], 0) + Way(st, d, i + 1, x + 1, x)
    decreases |s| - i
  {
    Nested(s, st, d, i, x);
    hide Way, LinkSum, At;
    NoWay(st, d, i + 1, i);
    if i >= x {
    } else {
      var p := FindBranch(s, st, d, i, x);
      var j := s[i].ports[p].next.value;
      ChildOf(s, st, d, i, p);
      OverLink(s, st, d, i, p);
      PortTime(s, st, d, i, PrevPort(s[i].ports, p));
      BranchWay(s, st, d, d, i, j, x);
      ArrivesAfterWay(s, st, d, j, x);
    }
  }

  // ----- what is measured -----

  /** Half the time between leaving through a port and coming back, when `j` is the slave there, less half the time that
      the frame spends behind the DC slave `k`: all links from `j` to `k`, and those of the branches that come after
      `k`. */
  function Detour(st: seq<Stop>, d: seq<nat>, j: nat, k: nat): nat
    requires j < |st| && k < |st|
  {
    LinkSum(d, j, k + 1) + LinkSum(d, st[k].last + 1, st[j].last + 1)
  }

  function Half(x: u32): u32 {
    x / 2
  }

  lemma WrapHalf(x: nat)
    ensures Half(Wrap32(2 * x)) == x <==> 2 * x < TWO_32
  {
  }

  /** Two differences of wrapped readings on clocks with arbitrary offsets give back the true difference, as far as 32
      bits show it. */
  lemma HalfDifference(back: int, out: int, leave: int, arrive: int, c: int, e: int, delay: nat)
    requires back - out == leave - arrive + 2 * delay
    ensures Half(Wrap32(Wrap32(Wrap32(back + c) - Wrap32(out + c)) - Wrap32(Wrap32(leave + e) - Wrap32(arrive + e))))
         == Half(Wrap32(2 * delay))
  {
    hide Wrap32;
    WrapSum(back + c, out + c);
    WrapSum(leave + e, arrive + e);
    assert back + c - (out + c) == back - out && leave + e - (arrive + e) == leave - arrive;
    WrapSum(back - out, leave - arrive);
  }

  /** The first DC slave behind port `p`, and how long the frame is away through this port. */
  lemma PortGeometry(s: seq<Slave>, st: seq<Stop>, d: seq<nat>, i: nat, p: nat)
    requires Bus(s, st, d) && i < |s| && p in {1, 2, 3} && Connected(s[i].ports, p)
    requires s[i].ports[p].next.value < |s| && !Silent(s, st, s[i].ports[p].next.value)
    ensures var j := s[i].ports[p].next.value;
      i < j < |s| == |st| &&
      var k := FirstDc(s, j);
      && s[k].dcSupported && j <= k <= st[k].last <= st[j].last < |s|
      && At(st[i], p) - At(st[i], PrevPort(s[i].ports, p)) == Leave(s, st, k) - At(st[k], 0) + 2 * Detour(st, d, j, k)
  {
    hide Bus, LinkSum, NextPort, PrevPort, At, Cursor, Silent;
    var j := s[i].ports[p].next.value;
    OverLink(s, st, d, i, p);
    FirstDcInside(s, st, d, j);
    var k := FirstDc(s, j);
    Nested(s, st, d, j, k);
    Tour(s, st, d, j);
    Tour(s, st, d, k);
    LinkSumSplit(d, j, j, st[j].last + 1);
    LinkSumSplit(d, j, k + 1, st[j].last + 1);
    LinkSumSplit(d, k + 1, st[k].last + 1, st[j].last + 1);
  }

  lemma FirstDcInside(s: seq<Slave>, st: seq<Stop>, d: seq<nat>, j: nat)
    requires Bus(s, st, d) && j < |s| && !Silent(s, st, j)
    ensures j <= FirstDc(s, j) <= st[j].last && s[FirstDc(s, j)].dcSupported
  {
    var m :| j <= m <= st[j].last && m < |s| && s[m].dcSupported;
    hide Bus, Silent;
    FirstDcBefore(s, j, m);
  }

  lemma {:induction false} FirstDcBefore(s: seq<Slave>, j: nat, m: nat)
    requires j <= m < |s| && s[m].dcSupported
    ensures FirstDc(s, j) <= m && s[FirstDc(s, j)].dcSupported
    decreases m - j
  {
    if !s[j].dcSupported {
      FirstDcBefore(s, j + 1, m);
    }
  }

  lemma Tour(s: seq<Slave>, st: seq<Stop>, d: seq<nat>, j: nat)
    requires Bus(s, st, d) && j < |s|
    ensures |s| == |st| == |d| && j <= st[j].last < |s|
    ensures Leave(s, st, j) == At(st[j], 0) + 2 * LinkSum(d, j + 1, st[j].last + 1)
  {
    Extent(s, st, d, j);
    PortTime(s, st, d, j, LastPort(s[j].ports));
  }

  // ----- which slaves the search finds -----

  /** Where the search comes in that looks for `x`: the first of the slaves without DC right in front of `x`, or
      `x` itself. */
  function Entry(s: seq<Slave>, x: nat): (j: nat)
    requires x < |s|
    ensures j <= x
    decreases x
  {
    match s[x].ports[0].next
    case None => x
    case Some(i) => if i < x && !s[i].dcSupported then Entry(s, i) else x
  }

  /** The walk from the reference comes to `x`: it comes to the DC slave in front of `x`, and `x` is the first DC slave
      that the search from there meets. */
  predicate Found(s: seq<Slave>, ref: nat, x: nat)
    requires x < |s|
    decreases x
  {
    && s[x].dcSupported
    && (x == ref ||
        var j := Entry(s, x);
        && FirstDc(s, j) == x && s[j].ports[0].next.Some? && s[j].ports[0].next.value < j
        && Found(s, ref, s[j].ports[0].next.value))
  }

  /** What 32 bits show of the delay between a DC slave and the DC slave in front of it. */
  function Seen(s: seq<Slave>, st: seq<Stop>, d: seq<nat>, k: nat): u32
    requires k < |s| == |st|
  {
    Half(Wrap32(2 * Detour(st, d, Entry(s, k), k)))
  }

  /** The measured value is right exactly while it is less than 2^31. */
  lemma SeenIsRightIff(s: seq<Slave>, st: seq<Stop>, d: seq<nat>, k: nat)
    requires k < |s| == |st|
    ensures Seen(s, st, d, k) == Detour(st, d, Entry(s, k), k) <==> 2 * Detour(st, d, Entry(s, k), k) < TWO_32
  {
    hide Detour;
    WrapHalf(Detour(st, d, Entry(s, k), k));
  }

  /** The delays that the walk adds up: for every slave that it finds the measured one, and nothing for all others. */
  function Counted(s: seq<Slave>, st: seq<Stop>, d: seq<nat>, ref: nat): (e: seq<nat>)
    requires |st| == |s|
    ensures |e| == |s|
  {
    seq(|s|, m requires 0 <= m < |s| => if m != ref && Found(s, ref, m) then Seen(s, st, d, m) else 0)
  }

  lemma {:induction false} EntryInside(s: seq<Slave>, st: seq<Stop>, d: seq<nat>, j: nat, x: nat)
    requires Bus(s, st, d) && j < |s| && Entry(s, j) == j && j <= x <= st[j].last
    ensures x < |s| == |st| &&
      var y := Entry(s, x);
      && j <= y <= x <= st[y].last
      && (y == j || (s[y].ports[0].next.Some? && var a := s[y].ports[0].next.value;
            j <= a < y <= st[a].last && s[a].dcSupported))
    decreases x
  {
    Nested(s, st, d, j, x);
    hide Bus;
    if j >= x {
    } else {
      ParentInside(s, st, d, j, x);
      var a := s[x].ports[0].next.value;
      if !s[a].dcSupported {
        EntryInside(s, st, d, j, a);
        Nested(s, st, d, Entry(s, a), a);
      }
    }
  }

  /** The first DC slave of a branch behind a DC slave is looked for through the branch's first slave. */
  lemma EntryOfFirst(s: seq<Slave>, st: seq<Stop>, d: seq<nat>, i: nat, p: nat)
    requires Bus(s, st, d) && i < |s| && s[i].dcSupported && p in {1, 2, 3} && Connected(s[i].ports, p)
    requires s[i].ports[p].next.value < |s| && !Silent(s, st, s[i].ports[p].next.value)
    ensures var j := s[i].ports[p].next.value; Entry(s, FirstDc(s, j)) == j
  {
    var j := s[i].ports[p].next.value;
    ChildOf(s, st, d, i, p);
    FirstDcInside(s, st, d, j);
    EntryInside(s, st, d, j, FirstDc(s, j));
  }

  /** Of a branch behind a DC slave the walk finds the subtree of the first DC slave, and nobody else. */
  lemma {:induction false} FoundOnlyFirst(s: seq<Slave>, st: seq<Stop>, d: seq<nat>, ref: nat, j: nat, x: nat)
    requires Bus(s, st, d) && ref < j < |s| && Entry(s, j) == j && j <= x <= st[j].last < |s|
    requires var k := FirstDc(s, j); x < k || st[k].last < x
    ensures x < |s| && !Found(s, ref, x)
    decreases x
  {
    EntryInside(s, st, d, j, x);
    var k, y := FirstDc(s, j), Entry(s, x);
    Extent(s, st, d, x);
    hide Bus;
    if y != j && s[x].dcSupported {
      var a := s[y].ports[0].next.value;
      Nested(s, st, d, a, y);
      if k <= a <= st[k].last {
        Nested(s, st, d, k, a);
      }
      FoundOnlyFirst(s, st, d, ref, j, a);
    }
  }

  /** The branch behind port `p` of a DC slave that the walk comes to. */
  lemma BranchFound(s: seq<Slave>, st: seq<Stop>, d: seq<nat>, ref: nat, i: nat, p: nat)
    requires Bus(s, st, d) && ref <= i < |s| && Found(s, ref, i) && p in {1, 2, 3} && Connected(s[i].ports, p)
    ensures var j := s[i].ports[p].next.value;
      var e := Counted(s, st, d, ref);
      && i < j < |s| == |st| && j <= st[j].last < |s| && s[j].ports[0].next == Some(i) && Entry(s, j) == j
      && (Silent(s, st, j) ==> forall m :: j <= m <= st[j].last ==> !Found(s, ref, m) && LinkAt(e, m) == 0)
      && (!Silent(s, st, j) ==>
            var k := FirstDc(s, j);
            && j <= k <= st[k].last <= st[j].last && Found(s, ref, k) && k != ref
            && Entry(s, k) == j && LinkAt(e, k) == Seen(s, st, d, k)
            && forall m :: j <= m <= st[j].last && (m < k || st[k].last < m) ==> !Found(s, ref, m) && LinkAt(e, m) == 0)
  {
    var j := s[i].ports[p].next.value;
    ChildOf(s, st, d, i, p);
    BranchExtent(s, st, d, i, p);
    Extent(s, st, d, j);
    hide Bus;
    if !Silent(s, st, j) {
      var k := FirstDc(s, j);
      FirstDcInside(s, st, d, j);
      Nested(s, st, d, j, k);
      EntryInside(s, st, d, j, k);
      forall m | j <= m <= st[j].last && (m < k || st[k].last < m) ensures !Found(s, ref, m) {
        FoundOnlyFirst(s, st, d, ref, j, m);
      }
    }
  }

  /** The walk stays in the subtree of the reference. */
  lemma {:induction false} FoundInside(s: seq<Slave>, st: seq<Stop>, d: seq<nat>, ref: nat, x: nat)
    requires Bus(s, st, d) && ref < |s| && x < |s| && st[0].last == |s| - 1 && Found(s, ref, x)
    ensures ref <= x <= st[ref].last
    decreases x
  {
    Nested(s, st, d, 0, ref);
    if x != ref {
      EntryInside(s, st, d, 0, x);
      var y := Entry(s, x);
      ParentInside(s, st, d, 0, y);
      var a := s[y].ports[0].next.value;
      FoundInside(s, st, d, ref, a);
      Nested(s, st, d, ref, a);
      Nested(s, st, d, a, y);
      Nested(s, st, d, y, x);
    }
  }
}
