/** When the results of the delay calculation are the times of the ideal frame (src/ec_slave.c:194-276): what is right
    on a bus whose slaves without DC only pass the frame on or have nobody with DC behind them, and what is lost there.
    */
module DcAccuracy {
  import opened Words
  import opened BusTopology
  import opened DcJourney
  import opened DcDelay

  /** Exactly one connected port behind port 0. */
  ghost predicate PassThrough(sl: Slave) {
    var p := NextPort(sl.ports, 0);
    p != 0 && NextPort(sl.ports, p) == 0
  }

  /** Slaves without DC that have others with DC in their subtree only pass the frame on. Subtrees without DC slaves may
      have any shape. */
  ghost predicate Ordinary(s: seq<Slave>, st: seq<Stop>) {
    forall i :: 0 <= i < |s| && !s[i].dcSupported && !Silent(s, st, i) ==> PassThrough(s[i])
  }

  /** The delay from the previous DC slave: the link in front of `j` and all links in front of
      the pass-through slaves through which the frame has just come. */
  function PathDelay(s: seq<Slave>, st: seq<Stop>, d: seq<nat>, j: nat): nat
    requires j < |s| == |st|
  {
    LinkAt(d, j) + if j > 0 && !s[j - 1].dcSupported && st[j - 1].last >= j then PathDelay(s, st, d, j - 1) else 0
  }

  /** Small enough for 32 bits. */
  ghost predicate Short(s: seq<Slave>, st: seq<Stop>, d: seq<nat>) {
    |s| == |st| && forall k :: 0 <= k < |s| && s[k].dcSupported ==> 2 * PathDelay(s, st, d, k) < TWO_32
  }

  /** The time for the links to the silent slaves at the positions from `from` to before `end`. */
  ghost function SilentTime(s: seq<Slave>, st: seq<Stop>, d: seq<nat>, from: nat, end: nat): nat
    decreases end
  {
    if from < end then
      SilentTime(s, st, d, from, end - 1) + if Silent(s, st, end - 1) then LinkAt(d, end - 1) else 0
    else 0
  }

  // ----- the slaves in front of a DC slave -----

  lemma NotSilentAbove(s: seq<Slave>, st: seq<Stop>, d: seq<nat>, i: nat, x: nat)
    requires Bus(s, st, d) && i < |s| && i <= x <= st[i].last && !Silent(s, st, x)
    ensures !Silent(s, st, i)
  {
    Nested(s, st, d, i, x);
    hide Bus;
    var m :| x <= m <= st[x].last && m < |s| && s[m].dcSupported;
    NotSilent(s, st, i, m);
  }

  /** The only slave behind a pass-through slave. */
  lemma OnlyChild(s: seq<Slave>, st: seq<Stop>, d: seq<nat>, j: nat)
    requires Bus(s, st, d) && j < |s| && PassThrough(s[j])
    ensures j + 1 < |s| == |st| && s[j + 1].ports[0].next == Some(j) && st[j + 1].last == st[j].last >= j + 1
  {
    var p := NextPort(s[j].ports, 0);
    assert PrevPort(s[j].ports, p) == 0 && LastPort(s[j].ports) == p;
    ChildOf(s, st, d, j, p);
    BranchExtent(s, st, d, j, p);
    Extent(s, st, d, j);
    Extent(s, st, d, j + 1);
    hide Bus, NextPort;
  }

  /** If the slave in front of `x` has no DC, it is at the position before, and both subtrees end together. */
  lemma PassedTo(s: seq<Slave>, st: seq<Stop>, d: seq<nat>, x: nat)
    requires Bus(s, st, d) && Ordinary(s, st) && 0 < x < |s| && !Silent(s, st, x) && st[0].last == |s| - 1
    ensures |st| == |s| && s[x].ports[0].next.Some? && s[x].ports[0].next.value < x
    ensures var a := s[x].ports[0].next.value;
      if s[a].dcSupported then s[x - 1].dcSupported || st[x - 1].last < x
      else a == x - 1 && st[a].last == st[x].last && !Silent(s, st, a)
  {
    Extent(s, st, d, 0);
    ParentInside(s, st, d, 0, x);
    var a := s[x].ports[0].next.value;
    if s[a].dcSupported {
      if st[x - 1].last >= x {
        ParentInside(s, st, d, x - 1, x);
      }
    } else {
      NotSilentAbove(s, st, d, a, x);
      OnlyChild(s, st, d, a);
      if x > a + 1 {
        ParentInside(s, st, d, a + 1, x);
      }
    }
  }

  /** The way from the entry of the search to the slave is its path, and nothing comes behind it. */
  lemma {:induction false} EntryPath(s: seq<Slave>, st: seq<Stop>, d: seq<nat>, x: nat)
    requires Bus(s, st, d) && Ordinary(s, st) && x < |s| && !Silent(s, st, x) && st[0].last == |s| - 1
    ensures |st| == |s| && st[Entry(s, x)].last == st[x].last
    ensures LinkSum(d, Entry(s, x), x + 1) == PathDelay(s, st, d, x)
    ensures FirstDc(s, Entry(s, x)) == FirstDc(s, x)
    decreases x
  {
    hide Silent, Bus, Ordinary, FirstDc;
    Extent(s, st, d, x);
    assert Entry(s, 0) == 0;
    EmptySum(d, x);
    if x > 0 {
      PassedTo(s, st, d, x);
      var a := s[x].ports[0].next.value;
      if !s[a].dcSupported {
        EntryPath(s, st, d, a);
        FirstDcNext(s, a);
      }
    }
  }

  lemma FirstDcNext(s: seq<Slave>, a: nat)
    requires a + 1 < |s| && !s[a].dcSupported
    ensures FirstDc(s, a) == FirstDc(s, a + 1)
  {
  }

  lemma FirstDcItself(s: seq<Slave>, x: nat)
    requires x < |s| && s[x].dcSupported
    ensures FirstDc(s, x) == x
  {
  }

  /** The walk finds every DC slave. */
  lemma {:induction false} AllFound(s: seq<Slave>, st: seq<Stop>, d: seq<nat>, x: nat)
    requires Bus(s, st, d) && Ordinary(s, st) && x < |s| && s[x].dcSupported && st[0].last == |s| - 1
    ensures Found(s, FirstDc(s, 0), x)
    decreases x
  {
    Extent(s, st, d, x);
    Extent(s, st, d, 0);
    NotSilent(s, st, x, x);
    EntryPath(s, st, d, x);
    FirstDcItself(s, x);
    hide Silent, Bus, Ordinary, FirstDc;
    var y := Entry(s, x);
    EntryInside(s, st, d, 0, x);
    if y != 0 {
      AllFound(s, st, d, s[y].ports[0].next.value);
    }
  }

  /** What is measured is the delay of the path. */
  lemma SeenIsPath(s: seq<Slave>, st: seq<Stop>, d: seq<nat>, x: nat)
    requires Bus(s, st, d) && Ordinary(s, st) && x < |s| && s[x].dcSupported && st[0].last == |s| - 1 && Short(s, st, d)
    ensures |st| == |s| && Seen(s, st, d, x) == PathDelay(s, st, d, x)
  {
    Extent(s, st, d, x);
    NotSilent(s, st, x, x);
    EntryPath(s, st, d, x);
    EmptySum(d, st[x].last + 1);
    SeenIsRightIff(s, st, d, x);
  }

  // ----- what is lost -----

  /** The delays up to slave `n`, real and counted, on the way to `x`: what is counted later is the path on which the
      frame just is. */
  lemma {:induction false} LostUpTo(s: seq<Slave>, st: seq<Stop>, d: seq<nat>, ref: nat, n: nat, x: nat)
    requires ref <= n <= x < |s| && Bus(s, st, d) && Ordinary(s, st) && Short(s, st, d) && st[0].last == |s| - 1
    requires ref == FirstDc(s, 0) && s[ref].dcSupported && s[x].dcSupported
    ensures |st| == |s| && Way(st, d, ref + 1, n + 1, x) - Way(st, Counted(s, st, d, ref), ref + 1, n + 1, x)
         == 2 * SilentTime(s, st, d, ref + 1, n + 1) + Pending(s, st, d, n, x)
    decreases n
  {
    hide Bus, Ordinary, Short, Counted, SilentTime, Way, Pending, Silent, FirstDc, Found, Weigh, LinkAt, SlaveLaw;
    Extent(s, st, d, ref);
    var e := Counted(s, st, d, ref);
    if n == ref {
      NoWay(st, d, ref + 1, x);
      NoWay(st, e, ref + 1, x);
      NothingSilent(s, st, d, ref + 1);
      NothingPending(s, st, d, ref, x);
    } else {
      LostUpTo(s, st, d, ref, n - 1, x);
      LostAt(s, st, d, ref, n, x);
      WayStep(st, d, ref + 1, n, x);
      WayStep(st, e, ref + 1, n, x);
      SilentStep(s, st, d, ref + 1, n);
    }
  }

  lemma NothingSilent(s: seq<Slave>, st: seq<Stop>, d: seq<nat>, from: nat)
    ensures SilentTime(s, st, d, from, from) == 0
  {
  }

  lemma NothingPending(s: seq<Slave>, st: seq<Stop>, d: seq<nat>, n: nat, x: nat)
    requires n < |s| == |st| && s[n].dcSupported
    ensures Pending(s, st, d, n, x) == 0
  {
  }

  lemma WayStep(st: seq<Stop>, d: seq<nat>, from: nat, n: nat, x: nat)
    requires from <= n
    ensures Way(st, d, from, n + 1, x) == Way(st, d, from, n, x) + Weigh(st, n, x, LinkAt(d, n))
  {
  }

  lemma SilentStep(s: seq<Slave>, st: seq<Stop>, d: seq<nat>, from: nat, n: nat)
    requires from <= n
    ensures SilentTime(s, st, d, from, n + 1) == SilentTime(s, st, d, from, n) +
      if Silent(s, st, n) then LinkAt(d, n) else 0
  {
  }

  /** The path to slave `n` that has not been counted, because no DC slave has come yet. */
  ghost function Pending(s: seq<Slave>, st: seq<Stop>, d: seq<nat>, n: nat, x: nat): nat
    requires n < |s| == |st|
  {
    if s[n].dcSupported || Silent(s, st, n) then 0 else Weigh(st, n, x, PathDelay(s, st, d, n))
  }

  lemma LostAt(s: seq<Slave>, st: seq<Stop>, d: seq<nat>, ref: nat, n: nat, x: nat)
    requires ref < n <= x < |s| && Bus(s, st, d) && Ordinary(s, st) && Short(s, st, d) && st[0].last == |s| - 1
    requires ref == FirstDc(s, 0) && s[x].dcSupported
    ensures |st| == |s| &&
      var e := Counted(s, st, d, ref);
      Weigh(st, n, x, LinkAt(d, n)) - Weigh(st, n, x, LinkAt(e, n)) + Pending(s, st, d, n - 1, x)
      == (if Silent(s, st, n) then 2 * LinkAt(d, n) else 0) + Pending(s, st, d, n, x)
  {
    hide Bus, Ordinary, Short, Found, Seen, Silent, PathDelay, Entry;
    Extent(s, st, d, n);
    FoundHasDc(s, ref, n);
    if Silent(s, st, n) {
      SilentLost(s, st, d, n, x);
    } else {
      PathStep(s, st, d, n, x);
      if s[n].dcSupported {
        AllFound(s, st, d, n);
        SeenIsPath(s, st, d, n);
      }
    }
  }

  lemma FoundHasDc(s: seq<Slave>, ref: nat, x: nat)
    requires x < |s|
    ensures Found(s, ref, x) ==> s[x].dcSupported
  {
  }

  /** The path to a slave that is not silent is what was pending and its own link. */
  lemma PathStep(s: seq<Slave>, st: seq<Stop>, d: seq<nat>, n: nat, x: nat)
    requires 0 < n < |s| && Bus(s, st, d) && Ordinary(s, st) && !Silent(s, st, n) && st[0].last == |s| - 1
    ensures |st| == |s|
    ensures Weigh(st, n, x, PathDelay(s, st, d, n)) == Weigh(st, n, x, LinkAt(d, n)) + Pending(s, st, d, n - 1, x)
  {
    hide Bus, Weigh, LinkAt, Silent, NextPort, PassThrough;
    Extent(s, st, d, n);
    PassedTo(s, st, d, n);
    if !s[n - 1].dcSupported && !Silent(s, st, n - 1) {
      OrdinaryPasses(s, st, n - 1);
      OnlyChild(s, st, d, n - 1);
      SameWeight(st, n - 1, n, x, PathDelay(s, st, d, n - 1), LinkAt(d, n));
      assert PathDelay(s, st, d, n) == LinkAt(d, n) + PathDelay(s, st, d, n - 1);
    } else {
      SilentEnds(s, st, d, n);
    }
  }

  lemma OrdinaryPasses(s: seq<Slave>, st: seq<Stop>, i: nat)
    requires Ordinary(s, st) && i < |s| && !s[i].dcSupported && !Silent(s, st, i)
    ensures PassThrough(s[i])
  {
  }

  lemma SameWeight(st: seq<Stop>, m: nat, n: nat, x: nat, a: nat, b: nat)
    requires m < |st| && n < |st| && st[m].last == st[n].last
    ensures Weigh(st, m, x, a) + Weigh(st, n, x, b) == Weigh(st, n, x, a + b)
  {
  }

  /** What comes behind a silent slave and is not silent is not in its subtree. */
  lemma SilentEnds(s: seq<Slave>, st: seq<Stop>, d: seq<nat>, n: nat)
    requires Bus(s, st, d) && 0 < n < |s| && !Silent(s, st, n)
    ensures |st| == |s| && (Silent(s, st, n - 1) ==> st[n - 1].last < n)
  {
    Extent(s, st, d, n);
    if st[n - 1].last >= n {
      NotSilentAbove(s, st, d, n - 1, n);
    }
  }

  /** A silent slave is not on the way to a DC slave, and comes behind a DC slave or the end of a branch. */
  lemma SilentLost(s: seq<Slave>, st: seq<Stop>, d: seq<nat>, n: nat, x: nat)
    requires Bus(s, st, d) && Ordinary(s, st) && 0 < n <= x < |s| && Silent(s, st, n) && s[x].dcSupported
    ensures |st| == |s| && x > st[n].last && !s[n].dcSupported && (s[n - 1].dcSupported || Silent(s, st, n - 1))
  {
    Extent(s, st, d, n);
    if !s[n - 1].dcSupported && !Silent(s, st, n - 1) {
      OnlyChild(s, st, d, n - 1);
    }
  }

  lemma OrdinaryFound(s: seq<Slave>, st: seq<Stop>, d: seq<nat>, x: nat)
    requires x < |s| && Bus(s, st, d) && Ordinary(s, st) && Short(s, st, d) && st[0].last == |s| - 1 && s[x].dcSupported
    ensures |st| == |s| == |d| &&
      var ref := FirstDc(s, 0);
      && ref <= x <= st[ref].last && Found(s, ref, x) && Seen(s, st, d, x) == PathDelay(s, st, d, x)
      && s[ref].dcSupported && !Silent(s, st, x) && !Silent(s, st, ref)
  {
    hide Silent, Found, PathDelay, Seen, Bus, Ordinary, Short, Entry;
    var ref := FirstDc(s, 0);
    FirstDcBefore(s, 0, x);
    AllFound(s, st, d, x);
    SeenIsPath(s, st, d, x);
    FoundInside(s, st, d, ref, x);
    Extent(s, st, d, x);
    Extent(s, st, d, ref);
    NotSilent(s, st, x, x);
    NotSilent(s, st, ref, ref);
  }

  /** On an ordinary bus the walk finds every DC slave, every measured delay is that of the path, and the transmission
      delay of `x` is the time of the ideal frame from the reference to `x`, less twice the silent time in between. */
  lemma OrdinaryDelay(s: seq<Slave>, st: seq<Stop>, d: seq<nat>, x: nat)
    requires x < |s| && Bus(s, st, d) && Ordinary(s, st) && Short(s, st, d) && st[0].last == |s| - 1 && s[x].dcSupported
    ensures |st| == |s| &&
      var ref := FirstDc(s, 0);
      && ref <= x && Found(s, ref, x) && Seen(s, st, d, x) == PathDelay(s, st, d, x)
      && Delay(s, st, d, ref, ref, x) == st[x].t0 - st[ref].t0 - 2 * SilentTime(s, st, d, ref, x)
  {
    hide Silent, Way, Ordinary, Short, Found, PathDelay, SilentTime, Counted, FirstDc, Seen, Bus, Pending, SlaveLaw;
    OrdinaryFound(s, st, d, x);
    var ref := FirstDc(s, 0);
    ArrivesAfterWay(s, st, d, ref, x);
    LostUpTo(s, st, d, ref, x, x);
    SilentEdges(s, st, d, ref, x);
    NothingPending(s, st, d, x, x);
  }

  lemma SilentEdges(s: seq<Slave>, st: seq<Stop>, d: seq<nat>, ref: nat, x: nat)
    requires ref <= x && !Silent(s, st, ref) && !Silent(s, st, x)
    ensures SilentTime(s, st, d, ref + 1, x + 1) == SilentTime(s, st, d, ref, x)
  {
    SilentStep(s, st, d, ref, x);
    SilentFrom(s, st, d, ref, x + 1);
  }

  lemma {:induction false} SilentFrom(s: seq<Slave>, st: seq<Stop>, d: seq<nat>, ref: nat, end: nat)
    requires ref < end && !Silent(s, st, ref)
    ensures SilentTime(s, st, d, ref + 1, end) == SilentTime(s, st, d, ref, end)
    decreases end
  {
    if ref + 1 < end {
      SilentFrom(s, st, d, ref, end - 1);
    }
  }

  // ----- exactly when it is right -----

  /** On any bus: the transmission delay of a slave that the walk finds is right exactly if what is counted on the way
      to it and the real way differ by a multiple of 2^32. */
  lemma RightIff(s: seq<Slave>, st: seq<Stop>, d: seq<nat>, ref: nat, x: nat)
    requires Bus(s, st, d) && ref < |s| && x < |s| && st[0].last == |s| - 1 && Found(s, ref, x)
    ensures |st| == |s| && (Wrap32(Delay(s, st, d, ref, ref, x)) == Wrap32(st[x].t0 - st[ref].t0)
      <==> (Way(st, d, ref + 1, x + 1, x) - Delay(s, st, d, ref, ref, x)) % TWO_32 == 0)
  {
    FoundInside(s, st, d, ref, x);
    ArrivesAfterWay(s, st, d, ref, x);
    hide Way, Found, Wrap32;
    var arrival := st[x].t0 - st[ref].t0;
    WrapEqualIff(arrival, Delay(s, st, d, ref, ref, x));
  }

  lemma WrapEqualIff(a: int, b: int)
    ensures Wrap32(b) == Wrap32(a) <==> (a - b) % TWO_32 == 0
  {
    WrapSum(a, b);
  }

  /** On an ordinary bus, where less than 2^32 is lost: if every silent slave that stands between the reference and `x`
      is reached in no time. */
  lemma OrdinaryRightIff(s: seq<Slave>, st: seq<Stop>, d: seq<nat>, x: nat)
    requires x < |s| && Bus(s, st, d) && Ordinary(s, st) && Short(s, st, d) && st[0].last == |s| - 1 && s[x].dcSupported
    ensures |st| == |s| &&
      var ref := FirstDc(s, 0);
      2 * SilentTime(s, st, d, ref, x) < TWO_32 ==>
        (Wrap32(Delay(s, st, d, ref, ref, x)) == Wrap32(st[x].t0 - st[ref].t0)
         <==> forall m :: ref <= m < x && Silent(s, st, m) ==> LinkAt(d, m) == 0)
  {
    hide SilentTime, Silent, Ordinary, Short, Found, Way, Bus, Delay, FirstDc, Seen, PathDelay, Wrap32, LinkAt,
      SlaveLaw;
    OrdinaryDelay(s, st, d, x);
    var ref := FirstDc(s, 0);
    SilentTimeZeroIff(s, st, d, ref, x);
    WrapEqualIff(st[x].t0 - st[ref].t0, Delay(s, st, d, ref, ref, x));
  }

  lemma {:induction false} SilentTimeZeroIff(s: seq<Slave>, st: seq<Stop>, d: seq<nat>, from: nat, end: nat)
    requires from <= end
    ensures SilentTime(s, st, d, from, end) == 0 <==>
      forall m :: from <= m < end && Silent(s, st, m) ==> LinkAt(d, m) == 0
    decreases end
  {
    hide Silent;
    if from >= end {
    } else {
      SilentTimeZeroIff(s, st, d, from, end - 1);
    }
  }

  /** When all slaves support DC, the path is the single link, and no time is lost. */
  lemma {:induction false} AllDcPaths(s: seq<Slave>, st: seq<Stop>, d: seq<nat>, j: nat)
    requires j < |s| == |d| == |st| && forall i :: 0 <= i < |s| ==> s[i].dcSupported && i <= st[i].last
    ensures Ordinary(s, st) && PathDelay(s, st, d, j) == d[j] && SilentTime(s, st, d, 0, j) == 0
    decreases j
  {
    if j > 0 {
      AllDcPaths(s, st, d, j - 1);
      NotSilent(s, st, j - 1, j - 1);
    }
  }
}
