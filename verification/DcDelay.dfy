/** Propagation delays of the distributed clocks (src/ec_slave.c:136-276, 853-910). The master reads, per slave and
    port, a 32-bit receive time taken on that slave's own clock, and from these computes the delay of every port and of
    every slave against the reference clock. */
module DcDelay {
  import opened Words
  import opened BusTopology
  import opened DcJourney

  /** ec_slave_get_next_port */
  method GetNextPort(slave: Slave, portIndex: nat) returns (r: nat)
    requires portIndex < 4
    ensures r == NextPort(slave.ports, portIndex)
  {
    r := NEXT_TABLE[portIndex];
    while r != 0 && slave.ports[r].next.None?
      invariant r < 4 && Rank(r) < PortRank(portIndex)
      invariant NextPort(slave.ports, portIndex)
             == if r == 0 || Connected(slave.ports, r) then r else NextPort(slave.ports, r)
      decreases Rank(r)
    {
      r := NEXT_TABLE[r];
    }
  }

  /** ec_slave_get_previous_port */
  method GetPreviousPort(slave: Slave, portIndex: nat) returns (r: nat)
    requires portIndex < 4
    ensures r == PrevPort(slave.ports, portIndex)
  {
    r := PREV_TABLE[portIndex];
    while r != 0 && slave.ports[r].next.None?
      invariant r < 4
      invariant PrevPort(slave.ports, portIndex)
             == if r == 0 || Connected(slave.ports, r) then r else PrevPort(slave.ports, r)
      decreases if r == 0 then 0 else 4 - Rank(r)
    {
      r := PREV_TABLE[r];
    }
  }

  /** ec_slave_calc_rtt_sum. The sum over the connected ports telescopes: it is the time between
      the arrival at port 0 and the last return, whatever the clock of the slave shows. */
  method CalcRttSum(slave: Slave) returns (sum: u32)
    ensures sum == Wrap32(slave.ports[LastPort(slave.ports)].receiveTime - slave.ports[0].receiveTime)
  {
    hide Wrap32, NextPort, PrevPort, Rank;
    sum := 0;
    FirstAndLast(slave.ports);
    var portIndex := GetNextPort(slave, 0);
    while portIndex != 0
      invariant portIndex == 0 || Connected(slave.ports, portIndex)
      invariant sum == Wrap32(slave.ports[PrevPort(slave.ports, portIndex)].receiveTime - slave.ports[0].receiveTime)
      decreases Rank(portIndex)
    {
      var prevIndex := GetPreviousPort(slave, portIndex);
      var rtt := Wrap32(slave.ports[portIndex].receiveTime - slave.ports[prevIndex].receiveTime);
      WrapTelescope(slave.ports[0].receiveTime, slave.ports[prevIndex].receiveTime,
                    slave.ports[portIndex].receiveTime);
      sum := Wrap32(sum + rtt);
      PortOrdersInverse(slave.ports, portIndex);
      FirstAndLast(slave.ports);
      portIndex := GetNextPort(slave, portIndex);
    }
  }

  // ----- what is measured at one port -----

  /** `(rtt - next_rtt_sum) / 2` for port `p` of slave `i`, when `k` is the next DC slave. */
  function MeasuredDelay(s: seq<Slave>, i: nat, p: nat, k: nat): u32
    requires i < |s| && k < |s| && p < 4
  {
    var rtt := Wrap32(s[i].ports[p].receiveTime - s[i].ports[PrevPort(s[i].ports, p)].receiveTime);
    var sum := Wrap32(s[k].ports[LastPort(s[k].ports)].receiveTime - s[k].ports[0].receiveTime);
    Half(Wrap32(rtt - sum))
  }

  /** What the code computes for a port of a DC slave, from readings on two clocks that have nothing to do with each
      other. */
  lemma PortDelay(s: seq<Slave>, st: seq<Stop>, d: seq<nat>, clock: seq<int>, i: nat, p: nat)
    requires Bus(s, st, d) && |clock| == |s| && Stamped(s, st, clock)
    requires i < |s| && s[i].dcSupported && p in {1, 2, 3} && Connected(s[i].ports, p)
    requires s[i].ports[p].next.value < |s| && !Silent(s, st, s[i].ports[p].next.value)
    ensures var j := s[i].ports[p].next.value;
      j < |s| == |st| && MeasuredDelay(s, i, p, FirstDc(s, j)) == Seen(s, st, d, FirstDc(s, j))
  {
    PortGeometry(s, st, d, i, p);
    EntryOfFirst(s, st, d, i, p);
    hide Entry, Bus, FirstDc, Cursor, Wrap32, Detour, Half, At, NextPort, Silent;
    var j := s[i].ports[p].next.value;
    var k := FirstDc(s, j);
    var q := PrevPort(s[i].ports, p);
    HalfDifference(At(st[i], p), At(st[i], q), Leave(s, st, k), At(st[k], 0), clock[i], clock[k], Detour(st, d, j, k));
  }

  // ----- the code, on the array of slaves -----

  /** Slaves with the same links. */
  predicate Alike(a: Slave, b: Slave) {
    a.dcSupported == b.dcSupported && forall p :: 0 <= p < 4 ==> a.ports[p].next == b.ports[p].next
  }

  ghost predicate AllAlike(s: seq<Slave>, s0: seq<Slave>) {
    |s| == |s0| && forall i :: 0 <= i < |s| ==> Alike(s[i], s0[i])
  }

  /** The same slave up to the delays of its ports. */
  predicate Twin(a: Slave, b: Slave) {
    && Alike(a, b) && a.transmissionDelay == b.transmissionDelay
    && forall p :: 0 <= p < 4 ==> a.ports[p].receiveTime == b.ports[p].receiveTime
  }

  ghost predicate Twins(s: seq<Slave>, s0: seq<Slave>) {
    |s| == |s0| && forall i :: 0 <= i < |s| ==> Twin(s[i], s0[i])
  }

  lemma AlikePorts(a: Slave, b: Slave)
    requires Alike(a, b)
    ensures forall p :: NextPort(a.ports, p) == NextPort(b.ports, p) && PrevPort(a.ports, p) == PrevPort(b.ports, p)
  {
    assert a.ports[1].next == b.ports[1].next && a.ports[2].next == b.ports[2].next;
    assert a.ports[3].next == b.ports[3].next;
  }

  /** ec_slave_find_next_dc_slave: the first DC slave, in the order of the frame, in the subtree
      of slave `i`; None exactly when that subtree has no DC slave. */
  method FindNextDcSlave(slaves: array<Slave>, i: nat, ghost s0: seq<Slave>, ghost st: seq<Stop>, ghost d: seq<nat>)
    returns (r: Option<nat>)
    requires Bus(s0, st, d) && AllAlike(slaves[..], s0) && i < slaves.Length
    ensures r.Some? ==> i <= r.value <= st[i].last < |s0| && s0[r.value].dcSupported && r.value == FirstDc(s0, i)
    ensures r.None? ==> forall m :: i <= m <= st[i].last < |s0| ==> !s0[m].dcSupported
    decreases slaves.Length - i
  {
    assert Alike(slaves[..][i], s0[i]) && SlaveLaw(s0, st, d, i);
    assert FirstDc(s0, i) == i <==> s0[i].dcSupported || i + 1 == |s0|;
    if slaves[i].dcSupported {
      return Some(i);
    }
    assert Cursor(s0, st, i, 0) == i;
    assert i <= st[i].last == Cursor(s0, st, i, LastPort(s0[i].ports)) < |s0| == |st| == |d|;
    r := None;
    AlikePorts(slaves[i], s0[i]);
    FirstAndLast(s0[i].ports);
    hide NextPort, PrevPort, FirstDc, At, Cursor, SlaveLaw;
    var portIndex := GetNextPort(slaves[i], 0);
    assert PrevPort(s0[i].ports, portIndex) == 0;
    while portIndex != 0
      invariant portIndex == 0 || Connected(s0[i].ports, portIndex)
      invariant r.None?
      invariant forall m :: i <= m <= Cursor(s0, st, i, PrevPort(s0[i].ports, portIndex)) && m < |s0| ==>
        !s0[m].dcSupported
      decreases Rank(portIndex)
    {
      BranchExtent(s0, st, d, i, portIndex);
      var next := slaves[i].ports[portIndex].next.value;
      r := FindNextDcSlave(slaves, next, s0, st, d);
      if r.Some? {
        FirstDcFrom(s0, i, next);
        return;
      }
      ghost var was := portIndex;
      portIndex := GetNextPort(slaves[i], portIndex);
      assert PrevPort(s0[i].ports, portIndex) == was;
    }
  }

  lemma TwinsAlike(s: seq<Slave>, s0: seq<Slave>)
    requires Twins(s, s0)
    ensures AllAlike(s, s0)
  {
    hide Alike;
    forall i | 0 <= i < |s| ensures Alike(s[i], s0[i]) {
      assert Twin(s[i], s0[i]);
    }
  }

  /** The bus, its journey and its readings. */
  ghost predicate Setup(s0: seq<Slave>, st: seq<Stop>, d: seq<nat>, clock: seq<int>) {
    Bus(s0, st, d) && |clock| == |s0| && Stamped(s0, st, clock)
  }

  /** If there is a DC slave behind port `p` of the DC slave `i`, this port and port 0 of the first one carry the
      measured delay. */
  ghost predicate Measured(s: seq<Slave>, s0: seq<Slave>, st: seq<Stop>, d: seq<nat>, i: nat, p: nat)
    requires |s| == |s0| == |st|
  {
    i < |s0| && s0[i].dcSupported && p in {1, 2, 3} && Connected(s0[i].ports, p)
    && s0[i].ports[p].next.value < |s0| && !Silent(s0, st, s0[i].ports[p].next.value) ==>
      var j := s0[i].ports[p].next.value;
      var k := FirstDc(s0, j);
      s[i].ports[p].delayToNextDc == Seen(s0, st, d, k) == s[k].ports[0].delayToNextDc
  }

  function SetDelay(s: Slave, p: nat, delay: u32): Slave
    requires p < 4
  {
    s.(ports := s.ports[p := s.ports[p].(delayToNextDc := delay)])
  }

  /** ec_slave_calc_port_delays for the slave at position `i`; what was measured before stays. */
  method CalcPortDelays(slaves: array<Slave>, i: nat,
                        ghost s0: seq<Slave>, ghost st: seq<Stop>, ghost d: seq<nat>, ghost clock: seq<int>)
    requires Setup(s0, st, d, clock) && Twins(slaves[..], s0) && i < slaves.Length
    modifies slaves
    ensures Twins(slaves[..], s0)
    ensures forall p :: Measured(slaves[..], s0, st, d, i, p)
    ensures forall x, p :: Measured(old(slaves[..]), s0, st, d, x, p) ==> Measured(slaves[..], s0, st, d, x, p)
  {
    if !slaves[i].dcSupported {
      assert Twin(slaves[..][i], s0[i]);
      return;
    }
    assert Twin(slaves[..][i], s0[i]);
    AlikePorts(slaves[i], s0[i]);
    FirstAndLast(s0[i].ports);
    var portIndex := GetNextPort(slaves[i], 0);
    while portIndex != 0
      invariant portIndex == 0 || Connected(s0[i].ports, portIndex)
      invariant Twins(slaves[..], s0)
      invariant forall p :: p in {1, 2, 3} && Connected(s0[i].ports, p) && Rank(p) > Rank(portIndex) ==>
        Measured(slaves[..], s0, st, d, i, p)
      invariant forall x, p :: Measured(old(slaves[..]), s0, st, d, x, p) ==> Measured(slaves[..], s0, st, d, x, p)
      decreases Rank(portIndex)
    {
      MeasurePort(slaves, i, portIndex, s0, st, d, clock);
      assert Twin(slaves[..][i], s0[i]);
      AlikePorts(slaves[i], s0[i]);
      FirstAndLast(s0[i].ports);
      ghost var was := portIndex;
      portIndex := GetNextPort(slaves[i], portIndex);
      assert forall p :: p in {1, 2, 3} && Connected(s0[i].ports, p) && Rank(portIndex) < Rank(p) < Rank(was) ==> false;
    }
  }

  /** `t` is `s` with the delay between slave `i` (port `p`) and the next DC slave `k` written. */
  ghost predicate Wrote(
    s: seq<Slave>, t: seq<Slave>, s0: seq<Slave>, st: seq<Stop>, d: seq<nat>, i: nat, p: nat, k: nat, delay: u32)
  {
    && |s| == |s0| == |st| && i < |s0| && p in {1, 2, 3} && s0[i].ports[p].next.Some?
    && var j := s0[i].ports[p].next.value;
    && i < j < |s0| && k == FirstDc(s0, j) && delay == Seen(s0, st, d, k)
    && t == s[i := SetDelay(s[i], p, delay)][k := SetDelay(s[k], 0, delay)]
  }

  lemma KeepMeasured(s: seq<Slave>, t: seq<Slave>, s0: seq<Slave>, st: seq<Stop>, d: seq<nat>, i: nat, p: nat, k: nat,
                     delay: u32,
                     x: nat, q: nat)
    requires Wrote(s, t, s0, st, d, i, p, k, delay)
    requires Measured(s, s0, st, d, x, q) || (x == i && q == p)
    ensures Measured(t, s0, st, d, x, q)
  {
    hide Seen, FirstDc, Silent;
  }

  lemma SetDelaysMeasure(
    s: seq<Slave>, t: seq<Slave>, s0: seq<Slave>, st: seq<Stop>, d: seq<nat>, i: nat, p: nat, k: nat, delay: u32)
    requires Twins(s, s0) && Wrote(s, t, s0, st, d, i, p, k, delay)
    ensures Twins(t, s0) && Measured(t, s0, st, d, i, p)
    ensures forall x, q :: Measured(s, s0, st, d, x, q) ==> Measured(t, s0, st, d, x, q)
  {
    hide Seen, FirstDc, Measured, SetDelay, Twins;
    SetDelayTwins(s, s0, i, p, delay);
    SetDelayTwins(s[i := SetDelay(s[i], p, delay)], s0, k, 0, delay);
    hide Wrote;
    forall x, q | Measured(s, s0, st, d, x, q) || (x == i && q == p) ensures Measured(t, s0, st, d, x, q) {
      KeepMeasured(s, t, s0, st, d, i, p, k, delay, x, q);
    }
  }

  lemma SetDelayTwins(s: seq<Slave>, s0: seq<Slave>, i: nat, p: nat, delay: u32)
    requires Twins(s, s0) && i < |s| && p < 4
    ensures Twins(s[i := SetDelay(s[i], p, delay)], s0)
  {
    forall x | 0 <= x < |s| ensures Twin(s[i := SetDelay(s[i], p, delay)][x], s0[x]) {
      assert Twin(s[x], s0[x]);
    }
  }

  lemma PortFacts(s0: seq<Slave>, st: seq<Stop>, d: seq<nat>, clock: seq<int>, i: nat, p: nat)
    requires Setup(s0, st, d, clock)
    requires i < |s0| && s0[i].dcSupported && p in {1, 2, 3} && Connected(s0[i].ports, p)
    requires s0[i].ports[p].next.value < |s0| && !Silent(s0, st, s0[i].ports[p].next.value)
    ensures var j := s0[i].ports[p].next.value;
      && i < j < |s0| == |st| && j <= FirstDc(s0, j)
      && MeasuredDelay(s0, i, p, FirstDc(s0, j)) == Seen(s0, st, d, FirstDc(s0, j))
  {
    hide Bus, Stamped, FirstDc, Seen, MeasuredDelay, Silent;
    PortGeometry(s0, st, d, i, p);
    PortDelay(s0, st, d, clock, i, p);
  }

  lemma SilentNotMeasured(s: seq<Slave>, s0: seq<Slave>, st: seq<Stop>, d: seq<nat>, i: nat, p: nat)
    requires |s| == |s0| == |st| && i < |s0| && p in {1, 2, 3}
    requires s0[i].ports[p].next.Some? && Silent(s0, st, s0[i].ports[p].next.value)
    ensures Measured(s, s0, st, d, i, p)
  {
  }

  lemma TwinDelay(s: seq<Slave>, s0: seq<Slave>, i: nat, p: nat, k: nat)
    requires Twins(s, s0) && i < |s| && k < |s| && p < 4
    ensures MeasuredDelay(s, i, p, k) == MeasuredDelay(s0, i, p, k)
  {
    hide Wrap32;
    assert Twin(s[i], s0[i]) && Twin(s[k], s0[k]);
    AlikePorts(s[i], s0[i]);
    AlikePorts(s[k], s0[k]);
  }

  /** The delay between port `p` of slave `i` and the DC slave `k` is written at both ends. */
  method StoreDelay(slaves: array<Slave>, i: nat, p: nat, k: nat) returns (delay: u32)
    requires i < slaves.Length && k < slaves.Length && p < 4
    modifies slaves
    ensures delay == MeasuredDelay(old(slaves[..]), i, p, k)
    ensures slaves[..] == var s := old(slaves[..][i := SetDelay(slaves[i], p, delay)]); s[k := SetDelay(s[k], 0, delay)]
  {
    hide PrevPort, NextPort, Wrap32;
    var prevPort := GetPreviousPort(slaves[i], p);
    var rtt := Wrap32(slaves[i].ports[p].receiveTime - slaves[i].ports[prevPort].receiveTime);
    var nextRttSum := CalcRttSum(slaves[k]);
    delay := Half(Wrap32(rtt as int - nextRttSum as int));
    slaves[i] := SetDelay(slaves[i], p, delay);
    slaves[k] := SetDelay(slaves[k], 0, delay);
  }

  /** The loop body of ec_slave_calc_port_delays. */
  method MeasurePort(slaves: array<Slave>, i: nat, portIndex: nat,
                     ghost s0: seq<Slave>, ghost st: seq<Stop>, ghost d: seq<nat>, ghost clock: seq<int>)
    requires Setup(s0, st, d, clock) && Twins(slaves[..], s0) && i < slaves.Length
    requires s0[i].dcSupported && portIndex in {1, 2, 3} && Connected(s0[i].ports, portIndex)
    modifies slaves
    ensures Twins(slaves[..], s0) && Measured(slaves[..], s0, st, d, i, portIndex)
    ensures forall x, p :: Measured(old(slaves[..]), s0, st, d, x, p) ==> Measured(slaves[..], s0, st, d, x, p)
  {
    SetupParts(s0, st, d, clock);
    hide Setup, Bus, Stamped, Cursor, Wrap32, FirstDc, Seen, Measured, NextPort, PrevPort, At, Silent, Half;
    ghost var before := slaves[..];
    assert Twin(before[i], s0[i]);
    TwinsAlike(before, s0);
    hide Twins;
    BranchExtent(s0, st, d, i, portIndex);
    var next := slaves[i].ports[portIndex].next.value;
    var nextDc := FindNextDcSlave(slaves, next, s0, st, d);
    if nextDc.None? {
      SilentIs(s0, st, next);
      SilentNotMeasured(slaves[..], s0, st, d, i, portIndex);
    } else {
      var k := nextDc.value;
      NotSilent(s0, st, next, k);
      PortFacts(s0, st, d, clock, i, portIndex);
      TwinDelay(before, s0, i, portIndex, k);
      var delay := StoreDelay(slaves, i, portIndex, k);
      SetDelaysMeasure(before, slaves[..], s0, st, d, i, portIndex, k, delay);
    }
  }

  /** Everything has been measured. */
  ghost predicate AllMeasured(s: seq<Slave>, s0: seq<Slave>, st: seq<Stop>, d: seq<nat>) {
    |s| == |s0| == |st| && forall i, p :: 0 <= i < |s| ==> Measured(s, s0, st, d, i, p)
  }

  // ----- the walk from the reference clock -----

  /** If the walk finds the slave it now has the transmission delay `t`; else it is as before. */
  ghost predicate Timed(sl: Slave, was: Slave, found: bool, t: int) {
    sl == if found then was.(transmissionDelay := Wrap32(t)) else was
  }

  /** `s` is `s1` up to the transmission delays. */
  ghost predicate SamePorts(s: seq<Slave>, s1: seq<Slave>) {
    |s| == |s1| && forall i :: 0 <= i < |s| ==> s[i] == s1[i].(transmissionDelay := s[i].transmissionDelay)
  }

  /** What all steps of the walk rely on: the bus, and what has been measured on it. */
  ghost predicate Walks(s: seq<Slave>, s1: seq<Slave>, s0: seq<Slave>, st: seq<Stop>, d: seq<nat>) {
    SamePorts(s, s1) && Twins(s1, s0) && Bus(s0, st, d) && AllMeasured(s1, s0, st, d)
  }

  lemma WalksAlike(s: seq<Slave>, s1: seq<Slave>, s0: seq<Slave>, st: seq<Stop>, d: seq<nat>)
    requires Walks(s, s1, s0, st, d)
    ensures AllAlike(s, s0)
  {
    hide Bus, AllMeasured;
    forall i | 0 <= i < |s| ensures Alike(s[i], s0[i]) {
      assert Twin(s1[i], s0[i]);
      assert s[i] == s1[i].(transmissionDelay := s[i].transmissionDelay);
    }
  }

  lemma WalksBus(s: seq<Slave>, s1: seq<Slave>, s0: seq<Slave>, st: seq<Stop>, d: seq<nat>)
    requires Walks(s, s1, s0, st, d)
    ensures |s| == |s1| == |s0| == |st| == |d| && Bus(s0, st, d)
  {
  }

  lemma WalksAt(s: seq<Slave>, s1: seq<Slave>, s0: seq<Slave>, st: seq<Stop>, d: seq<nat>, i: nat)
    requires Walks(s, s1, s0, st, d) && i < |s0|
    ensures |s| == |s1| == |s0| == |st| == |d|
    ensures s[i].ports == s1[i].ports
    ensures forall p ::
      NextPort(s[i].ports, p) == NextPort(s0[i].ports, p) && PrevPort(s[i].ports, p) == PrevPort(s0[i].ports, p)
    ensures forall p :: 0 <= p < 4 ==> s[i].ports[p].next == s0[i].ports[p].next
  {
    assert Twin(s1[i], s0[i]);
    assert s[i].ports == s1[i].(transmissionDelay := s[i].transmissionDelay).ports;
    AlikePorts(s1[i], s0[i]);
  }

  lemma WalksOn(s: seq<Slave>, s1: seq<Slave>, s0: seq<Slave>, st: seq<Stop>, d: seq<nat>, i: nat, delay: u32)
    requires Walks(s, s1, s0, st, d) && i < |s0| == |s|
    ensures Walks(s[i := s[i].(transmissionDelay := delay)], s1, s0, st, d)
  {
    hide Twins, Bus, AllMeasured;
  }

  /** The links that the walk counts behind the slave `i` up to its port `q`. */
  ghost function Behind(s: seq<Slave>, st: seq<Stop>, d: seq<nat>, ref: nat, i: nat, q: nat): nat
    requires i < |s| == |st|
  {
    LinkSum(Counted(s, st, d, ref), i + 1, Cursor(s, st, i, q) + 1)
  }

  /** The transmission delay of `x`, seen from `i`. */
  ghost function Delay(s: seq<Slave>, st: seq<Stop>, d: seq<nat>, ref: nat, i: nat, x: nat): nat
    requires |s| == |st|
  {
    Way(st, Counted(s, st, d, ref), i + 1, x + 1, x)
  }

  /** From `was` to `s` the slaves at the positions from `from` to before `end` have been visited, seen from slave `i`
      that was left at time `t0`; all others are as before. */
  ghost predicate Visited(s: seq<Slave>, was: seq<Slave>, s0: seq<Slave>, st: seq<Stop>, d: seq<nat>, ref: nat, i: nat,
                          from: nat, end: nat, t0: int) {
    && |s| == |was| == |s0| == |st|
    && (forall x :: 0 <= x < |s| && (x < from || end <= x) ==> s[x] == was[x])
    && (forall x :: from <= x < end && x < |s| ==>
        Timed(s[x], was[x], Found(s0, ref, x), t0 + Delay(s0, st, d, ref, i, x)))
  }

  lemma VisitedMore(a: seq<Slave>, b: seq<Slave>, c: seq<Slave>, s0: seq<Slave>, st: seq<Stop>, d: seq<nat>, ref: nat,
                    i: nat,
                    from: nat, mid: nat, end: nat, t0: int)
    requires from <= mid <= end
    requires Visited(b, a, s0, st, d, ref, i, from, mid, t0) && Visited(c, b, s0, st, d, ref, i, mid, end, t0)
    ensures Visited(c, a, s0, st, d, ref, i, from, end, t0)
  {
    hide Timed, Found, Delay;
  }

  lemma VisitedFirst(s: seq<Slave>, was: seq<Slave>, s0: seq<Slave>, st: seq<Stop>, d: seq<nat>, ref: nat, i: nat,
                     t0: int)
    requires |was| == |s0| == |st| && i < |was| && Found(s0, ref, i) && Delay(s0, st, d, ref, i, i) == 0
    requires s == was[i := was[i].(transmissionDelay := Wrap32(t0))]
    ensures Visited(s, was, s0, st, d, ref, i, i, i + 1, t0)
  {
  }

  lemma VisitedNobody(s: seq<Slave>, s0: seq<Slave>, st: seq<Stop>, d: seq<nat>, ref: nat, i: nat, from: nat, end: nat,
                      t0: int)
    requires |s| == |s0| == |st| && forall x :: from <= x < end && x < |s| ==> !Found(s0, ref, x)
    ensures Visited(s, s, s0, st, d, ref, i, from, end, t0)
  {
  }

  /** A branch of which only the subtree of slave `k` is visited, seen from `i` instead of `k`. */
  lemma VisitedInside(s: seq<Slave>, was: seq<Slave>, s0: seq<Slave>, st: seq<Stop>, d: seq<nat>, ref: nat, i: nat,
                      k: nat,
                      from: nat, upTo: nat, end: nat, t0: int, front: nat)
    requires from <= k <= upTo <= end && Visited(s, was, s0, st, d, ref, k, k, upTo, t0 + front)
    requires forall x :: from <= x < end && (x < k || upTo <= x) && x < |s0| ==> !Found(s0, ref, x)
    requires forall x :: k <= x < upTo ==> Delay(s0, st, d, ref, i, x) == front + Delay(s0, st, d, ref, k, x)
    ensures Visited(s, was, s0, st, d, ref, i, from, end, t0)
  {
    hide Found, Delay;
  }

  /** ec_slave_calc_transmission_delays: walks from the DC slave `i`, which it has found. */
  method CalcTransmissionDelays(slaves: array<Slave>, i: nat, delay: u32, ghost s1: seq<Slave>, ghost s0: seq<Slave>,
                                ghost st: seq<Stop>, ghost d: seq<nat>, ghost ref: nat, ghost t0: int)
    returns (r: u32)
    requires Walks(slaves[..], s1, s0, st, d) && |s0| == |st| == |d| && ref <= i < |s0| && Found(s0, ref, i)
    requires delay == Wrap32(t0)
    modifies slaves
    ensures Walks(slaves[..], s1, s0, st, d)
    ensures Visited(slaves[..], old(slaves[..]), s0, st, d, ref, i, i, st[i].last + 1, t0)
    ensures r == Wrap32(t0 + 2 * Behind(s0, st, d, ref, i, LastPort(s0[i].ports)) + s1[i].ports[0].delayToNextDc)
    decreases slaves.Length - i, 1
  {
    hide Walks, Wrap32, NextPort, PrevPort, Cursor, Found, Behind, Delay, Visited;
    ghost var was := slaves[..];
    WalkStarts(s0, st, d, ref, i);
    WalksBus(slaves[..], s1, s0, st, d);
    Extent(s0, st, d, i);
    hide Bus;
    WalksAt(slaves[..], s1, s0, st, d, i);
    WalksOn(slaves[..], s1, s0, st, d, i, delay);
    FirstAndLast(s0[i].ports);
    r := delay;
    slaves[i] := slaves[i].(transmissionDelay := delay);
    assert slaves[..] == was[i := was[i].(transmissionDelay := delay)];
    VisitedFirst(slaves[..], was, s0, st, d, ref, i, t0);
    var p := GetNextPort(slaves[i], 0);
    assert PrevPort(s0[i].ports, p) == 0;
    while p != 0
      invariant p == 0 || Connected(s0[i].ports, p)
      invariant Walks(slaves[..], s1, s0, st, d)
      invariant r == Wrap32(t0 + 2 * Behind(s0, st, d, ref, i, PrevPort(s0[i].ports, p)))
      invariant Visited(slaves[..], was, s0, st, d, ref, i, i, Cursor(s0, st, i, PrevPort(s0[i].ports, p)) + 1, t0)
      decreases Rank(p)
    {
      ghost var before := slaves[..];
      r := VisitBranch(slaves, i, p, r, s1, s0, st, d, ref, t0);
      WalksAt(slaves[..], s1, s0, st, d, i);
      VisitedMore(was, before, slaves[..], s0, st, d, ref, i, i, Cursor(s0, st, i, PrevPort(s0[i].ports, p)) + 1,
                  Cursor(s0, st, i, p) + 1, t0);
      ghost var visited := p;
      p := GetNextPort(slaves[i], p);
      assert PrevPort(s0[i].ports, p) == visited;
    }
    WalksAt(slaves[..], s1, s0, st, d, i);
    WrapSum(t0 + 2 * Behind(s0, st, d, ref, i, LastPort(s0[i].ports)), slaves[i].ports[0].delayToNextDc);
    r := Wrap32(r as int + slaves[i].ports[0].delayToNextDc as int);
  }

  lemma WalkStarts(s: seq<Slave>, st: seq<Stop>, d: seq<nat>, ref: nat, i: nat)
    requires |s| == |st| == |d| && i < |s|
    ensures Cursor(s, st, i, 0) == i && Behind(s, st, d, ref, i, 0) == 0 && Delay(s, st, d, ref, i, i) == 0
  {
    EmptySum(Counted(s, st, d, ref), i + 1);
    NoWay(st, Counted(s, st, d, ref), i + 1, i);
  }

  /** The loop body of ec_slave_calc_transmission_delays. */
  method VisitBranch(slaves: array<Slave>, i: nat, p: nat, delay: u32, ghost s1: seq<Slave>, ghost s0: seq<Slave>,
                     ghost st: seq<Stop>, ghost d: seq<nat>, ghost ref: nat, ghost t0: int)
    returns (r: u32)
    requires Walks(slaves[..], s1, s0, st, d) && |s0| == |st| == |d| && ref <= i < |s0| && Found(s0, ref, i)
    requires p in {1, 2, 3} && Connected(s0[i].ports, p)
    requires delay == Wrap32(t0 + 2 * Behind(s0, st, d, ref, i, PrevPort(s0[i].ports, p)))
    modifies slaves
    ensures Walks(slaves[..], s1, s0, st, d)
    ensures r == Wrap32(t0 + 2 * Behind(s0, st, d, ref, i, p))
    ensures var c := Cursor(s0, st, i, PrevPort(s0[i].ports, p));
      var e := Cursor(s0, st, i, p);
      i <= c < e < |s0| && Visited(slaves[..], old(slaves[..]), s0, st, d, ref, i, c + 1, e + 1, t0)
    decreases slaves.Length - i, 0
  {
    hide Found, Wrap32, NextPort, PrevPort, Cursor, Silent, FirstDc, Walks, Behind, Delay, Counted, AllAlike, Visited,
      Seen;
    WalksAt(slaves[..], s1, s0, st, d, i);
    WalksAlike(slaves[..], s1, s0, st, d);
    WalksBus(slaves[..], s1, s0, st, d);
    hide Bus;
    BranchPlace(s0, st, d, i, p);
    r := delay;
    ghost var next := s0[i].ports[p].next.value;
    var nextDc := FindNextDcSlave(slaves, slaves[i].ports[p].next.value, s0, st, d);
    if nextDc.None? {
      SilentIs(s0, st, next);
      SilentCounted(s0, st, d, ref, i, p);
      VisitedNobody(slaves[..], s0, st, d, ref, i, next, st[next].last + 1, t0);
    } else {
      var k := nextDc.value;
      NotSilent(s0, st, next, k);
      FoundCounted(s0, st, d, ref, i, p);
      FoundDelays(s0, st, d, ref, i, p);
      WalksParts(slaves[..], s1, s0, st, d, i, p);
      ghost var start := t0 + 2 * Behind(s0, st, d, ref, i, PrevPort(s0[i].ports, p));
      ghost var e := LinkAt(Counted(s0, st, d, ref), k);
      assert slaves[i].ports[p].delayToNextDc == e == s1[k].ports[0].delayToNextDc;
      WrapSum(start, e);
      r := Wrap32(r as int + slaves[i].ports[p].delayToNextDc as int);
      ghost var was := slaves[..];
      r := CalcTransmissionDelays(slaves, k, r, s1, s0, st, d, ref, start + e);
      VisitedInside(slaves[..], was, s0, st, d, ref, i, k, next, st[k].last + 1, st[next].last + 1, t0,
                    2 * Behind(s0, st, d, ref, i, PrevPort(s0[i].ports, p)) + e);
    }
  }

  lemma WalksParts(s: seq<Slave>, s1: seq<Slave>, s0: seq<Slave>, st: seq<Stop>, d: seq<nat>, i: nat, p: nat)
    requires Walks(s, s1, s0, st, d) && i < |s0| && p < 4
    ensures |s| == |s1| == |s0| == |st| && Measured(s1, s0, st, d, i, p)
    ensures s[i].ports == s1[i].ports
  {
    WalksAt(s, s1, s0, st, d, i);
  }

  /** The positions behind a port. */
  lemma BranchPlace(s: seq<Slave>, st: seq<Stop>, d: seq<nat>, i: nat, p: nat)
    requires Bus(s, st, d) && i < |s| && p in {1, 2, 3} && Connected(s[i].ports, p)
    ensures var j := s[i].ports[p].next.value;
      && j < |s| == |st| && i <= Cursor(s, st, i, PrevPort(s[i].ports, p)) == j - 1
      && j <= st[j].last == Cursor(s, st, i, p) < |s|
  {
    BranchExtent(s, st, d, i, p);
    CursorFromStart(s, st, d, i, PrevPort(s[i].ports, p));
    Extent(s, st, d, s[i].ports[p].next.value);
  }

  /** Nothing is counted in a silent branch. */
  lemma SilentCounted(s: seq<Slave>, st: seq<Stop>, d: seq<nat>, ref: nat, i: nat, p: nat)
    requires Bus(s, st, d) && ref <= i < |s| && Found(s, ref, i) && p in {1, 2, 3} && Connected(s[i].ports, p)
    requires s[i].ports[p].next.value < |s| && Silent(s, st, s[i].ports[p].next.value)
    ensures |s| == |st| && Behind(s, st, d, ref, i, p) == Behind(s, st, d, ref, i, PrevPort(s[i].ports, p))
    ensures forall x :: s[i].ports[p].next.value <= x <= Cursor(s, st, i, p) && x < |s| ==> !Found(s, ref, x)
  {
    hide Silent, PrevPort, NextPort, LinkSum, Counted, Seen, SlaveLaw, LinkLaw, Cursor, Entry, Found;
    BranchPlace(s, st, d, i, p);
    BranchFound(s, st, d, ref, i, p);
    hide Bus;
    var j := s[i].ports[p].next.value;
    NoneCounted(Counted(s, st, d, ref), i + 1, j, st[j].last);
  }

  lemma NoneCounted(e: seq<nat>, from: nat, j: nat, last: nat)
    requires from <= j <= last && forall m :: j <= m <= last ==> LinkAt(e, m) == 0
    ensures LinkSum(e, from, last + 1) == LinkSum(e, from, j)
  {
    hide LinkSum, LinkAt;
    LinkSumSplit(e, from, j, last + 1);
    ZeroSum(e, j, last + 1);
  }

  /** In any other branch the link to the first DC slave is counted, and what is counted behind it. */
  lemma FoundCounted(s: seq<Slave>, st: seq<Stop>, d: seq<nat>, ref: nat, i: nat, p: nat)
    requires Bus(s, st, d) && ref <= i < |s| && Found(s, ref, i) && p in {1, 2, 3} && Connected(s[i].ports, p)
    requires s[i].ports[p].next.value < |s| && !Silent(s, st, s[i].ports[p].next.value)
    ensures |s| == |st| && s[i].dcSupported &&
      var j := s[i].ports[p].next.value;
      var k := FirstDc(s, j);
      var e := LinkAt(Counted(s, st, d, ref), k);
      && i < j <= k <= st[k].last <= st[j].last < |s| && Found(s, ref, k) && e == Seen(s, st, d, k)
      && Behind(s, st, d, ref, i, p) ==
           Behind(s, st, d, ref, i, PrevPort(s[i].ports, p)) + e + Behind(s, st, d, ref, k, LastPort(s[k].ports))
      && (forall x :: j <= x <= st[j].last && (x < k || st[k].last < x) ==> !Found(s, ref, x))
  {
    hide Silent, PrevPort, NextPort, LinkSum, Counted, FirstDc, Seen, SlaveLaw, LinkLaw, Cursor, Entry;
    assert s[i].dcSupported;
    hide Found;
    BranchPlace(s, st, d, i, p);
    BranchFound(s, st, d, ref, i, p);
    var j := s[i].ports[p].next.value;
    var k := FirstDc(s, j);
    Extent(s, st, d, k);
    hide Bus;
    OneCounted(Counted(s, st, d, ref), i + 1, j, k, st[k].last, st[j].last);
  }

  lemma FoundDelays(s: seq<Slave>, st: seq<Stop>, d: seq<nat>, ref: nat, i: nat, p: nat)
    requires Bus(s, st, d) && ref <= i < |s| && Found(s, ref, i) && p in {1, 2, 3} && Connected(s[i].ports, p)
    requires s[i].ports[p].next.value < |s| && !Silent(s, st, s[i].ports[p].next.value)
    ensures |s| == |st| &&
      var k := FirstDc(s, s[i].ports[p].next.value);
      var front := 2 * Behind(s, st, d, ref, i, PrevPort(s[i].ports, p)) + LinkAt(Counted(s, st, d, ref), k);
      forall x :: k <= x <= st[k].last ==> Delay(s, st, d, ref, i, x) == front + Delay(s, st, d, ref, k, x)
  {
    hide Silent, Found, PrevPort, NextPort, LinkSum, Counted, FirstDc, Seen, SlaveLaw, LinkLaw, Cursor, Entry, Delay;
    BranchPlace(s, st, d, i, p);
    BranchFound(s, st, d, ref, i, p);
    assert |d| == |s|;
    hide Bus;
    var j := s[i].ports[p].next.value;
    var k := FirstDc(s, j);
    var front := 2 * Behind(s, st, d, ref, i, PrevPort(s[i].ports, p)) + LinkAt(Counted(s, st, d, ref), k);
    forall x | k <= x <= st[k].last ensures Delay(s, st, d, ref, i, x) == front + Delay(s, st, d, ref, k, x) {
      DelayInside(s, st, d, ref, i, j, k, x);
    }
  }

  lemma OneCounted(e: seq<nat>, from: nat, j: nat, k: nat, lastOfK: nat, last: nat)
    requires from <= j <= k <= lastOfK <= last
    requires forall m :: j <= m <= last && (m < k || lastOfK < m) ==> LinkAt(e, m) == 0
    ensures LinkSum(e, from, last + 1) == LinkSum(e, from, j) + LinkAt(e, k) + LinkSum(e, k + 1, lastOfK + 1)
  {
    hide LinkSum, LinkAt;
    LinkSumSplit(e, from, j, last + 1);
    LinkSumSplit(e, j, k, last + 1);
    LinkSumSplit(e, k + 1, lastOfK + 1, last + 1);
    ZeroSum(e, j, k);
    ZeroSum(e, lastOfK + 1, last + 1);
  }

  /** The way through a branch in which nothing is counted in front of `k`. */
  lemma DelayInside(s: seq<Slave>, st: seq<Stop>, d: seq<nat>, ref: nat, i: nat, j: nat, k: nat, x: nat)
    requires Bus(s, st, d) && i < j <= k < |s| == |st| && k <= x <= st[k].last <= st[j].last &&
      s[j].ports[0].next == Some(i)
    requires forall m :: j <= m < k ==> LinkAt(Counted(s, st, d, ref), m) == 0
    ensures var e := Counted(s, st, d, ref);
      Delay(s, st, d, ref, i, x) == 2 * LinkSum(e, i + 1, j) + LinkAt(e, k) + Delay(s, st, d, ref, k, x)
  {
    hide Way, LinkSum, Counted, Found, Seen, SlaveLaw;
    var e := Counted(s, st, d, ref);
    BranchWay(s, st, d, e, i, j, x);
    hide Bus;
    if j < k {
      WaySplit(st, e, j + 1, k, x + 1, x);
      ZeroWay(st, e, j + 1, k, x);
    }
  }

  /** ec_master_find_dc_ref_clock: the first slave with DC support. */
  method FindDcRefClock(slaves: array<Slave>) returns (ref: Option<nat>)
    ensures ref.Some? ==> ref.value < slaves.Length && slaves[ref.value].dcSupported
    ensures ref.Some? ==> forall m :: 0 <= m < ref.value ==> !slaves[m].dcSupported
    ensures ref.None? ==> forall m :: 0 <= m < slaves.Length ==> !slaves[m].dcSupported
  {
    var i := 0;
    while i < slaves.Length
      invariant 0 <= i <= slaves.Length
      invariant forall m :: 0 <= m < i ==> !slaves[m].dcSupported
    {
      if slaves[i].dcSupported {
        return Some(i);
      }
      i := i + 1;
    }
    ref := None;
  }

  /** The transmission delay of slave `x` after the calculation. */
  ghost function Transmission(s: seq<Slave>, st: seq<Stop>, d: seq<nat>, refClock: Option<nat>, x: nat): u32
    requires x < |s| == |st|
  {
    if refClock.Some? && Found(s, refClock.value, x) then Wrap32(Delay(s, st, d, refClock.value, refClock.value, x))
    else s[x].transmissionDelay
  }

  /** ec_master_calc_transmission_delays: what every port and every slave carries afterwards. The slaves that the walk
      from the reference clock does not find keep the transmission delay that they had. */
  method CalcDelays(slaves: array<Slave>, refClock: Option<nat>,
                    ghost s0: seq<Slave>, ghost st: seq<Stop>, ghost d: seq<nat>, ghost clock: seq<int>)
    requires Setup(s0, st, d, clock) && s0 == slaves[..] && |s0| > 0 && st[0].last == |s0| - 1
    requires refClock.Some? ==> refClock.value < |s0| && s0[refClock.value].dcSupported
    modifies slaves
    ensures |st| == |s0| && AllMeasured(slaves[..], s0, st, d)
    ensures forall x :: 0 <= x < |s0| ==> Twin(slaves[x].(transmissionDelay := s0[x].transmissionDelay), s0[x])
    ensures forall x :: 0 <= x < |s0| ==> slaves[x].transmissionDelay == Transmission(s0, st, d, refClock, x)
  {
    hide Setup, Measured, FirstDc, Stamped, Bus, Wrap32, Found, Twin, Delay;
    SetupParts(s0, st, d, clock);
    for i := 0 to slaves.Length
      invariant Twins(slaves[..], s0)
      invariant forall x, p :: 0 <= x < i ==> Measured(slaves[..], s0, st, d, x, p)
    {
      ghost var before := slaves[..];
      CalcPortDelays(slaves, i, s0, st, d, clock);
      assert forall x, p :: 0 <= x < i ==> Measured(before, s0, st, d, x, p);
    }
    ghost var s1 := slaves[..];
    assert AllMeasured(s1, s0, st, d);
    if refClock.Some? {
      var ref := refClock.value;
      assert SamePorts(s1, s1);
      ReferenceFound(s0, ref);
      var _ := CalcTransmissionDelays(slaves, ref, 0, s1, s0, st, d, ref, 0);
      WalkEnds(slaves[..], s1, s0, st, d);
      assert forall x :: 0 <= x < |s0| ==> slaves[..][x] == slaves[x];
      forall x | 0 <= x < |s0| && Found(s0, ref, x) ensures ref <= x <= st[ref].last {
        FoundInside(s0, st, d, ref, x);
      }
    } else {
      WalkEnds(s1, s1, s0, st, d);
    }
  }

  lemma ReferenceFound(s: seq<Slave>, ref: nat)
    requires ref < |s| && s[ref].dcSupported
    ensures Found(s, ref, ref) && Wrap32(0) == 0
  {
  }

  lemma WalkEnds(s: seq<Slave>, s1: seq<Slave>, s0: seq<Slave>, st: seq<Stop>, d: seq<nat>)
    requires Walks(s, s1, s0, st, d) && |s0| == |st|
    ensures AllMeasured(s, s0, st, d)
    ensures forall x :: 0 <= x < |s| ==> Twin(s[x].(transmissionDelay := s0[x].transmissionDelay), s0[x])
    ensures forall x :: 0 <= x < |s| ==> s1[x].transmissionDelay == s0[x].transmissionDelay
  {
    hide Bus, FirstDc, Seen, Silent;
    forall x | 0 <= x < |s|
      ensures s[x].ports == s1[x].ports && s1[x].transmissionDelay == s0[x].transmissionDelay
      ensures Twin(s[x].(transmissionDelay := s0[x].transmissionDelay), s0[x])
    {
      assert Twin(s1[x], s0[x]);
      assert s[x] == s1[x].(transmissionDelay := s[x].transmissionDelay);
      assert s[x].ports == s1[x].ports;
    }
    forall i, p | 0 <= i < |s| ensures Measured(s, s0, st, d, i, p) {
      assert Measured(s1, s0, st, d, i, p);
    }
  }

  lemma SetupParts(s0: seq<Slave>, st: seq<Stop>, d: seq<nat>, clock: seq<int>)
    requires Setup(s0, st, d, clock)
    ensures |s0| == |st| == |d| && Twins(s0, s0) && Bus(s0, st, d)
  {
  }
}
