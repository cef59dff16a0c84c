/** Two buses with slaves without distributed clocks on which the delay calculation (src/ec_slave.c:194-276, 897-910)
    does not give the times of the ideal frame. */
module DcExamples {
  import opened Words
  import opened BusTopology
  import opened DcJourney
  import opened DcDelay
  import opened DcCalculation

  const LEAF: Tree := Node(Empty, Empty, Empty)

  /** A slave with nothing behind it. */
  function LeafSlave(dc: bool, arrival: u32): Slave {
    Slave(dc, [Port(true, None, arrival, 0), CLOSED_PORT, CLOSED_PORT, CLOSED_PORT], 0)
  }

  function LeafStop(arrival: int, pos: nat): Stop {
    Stop(arrival, arrival, arrival, arrival, pos)
  }

  lemma LeafTravels(st: seq<Stop>, d: seq<nat>, pos: nat, start: int)
    requires pos < |st| && st[pos] == LeafStop(start, pos)
    ensures Travels(st, d, LEAF, pos, start) && Trip(LEAF, pos, d) == 2 * LinkAt(d, pos) && Size(LEAF) == 1
  {
  }

  lemma LeafListed(f: seq<Opens>, pos: nat)
    requires pos < |f| && f[pos] == Opens(false, false, false)
    ensures Listed(f, pos, LEAF) && Size(LEAF) == 1
  {
  }

  lemma LeafLinks(pos: nat, up: Option<nat>)
    ensures LinksOf(LEAF, pos, up) == [Links(up, None, None, None)]
  {
  }

  // ----- a slave without DC in front of one with DC -----

  /** Two slaves behind the ports 3 and 1 of the first. */
  const FORK: Tree := Node(LEAF, LEAF, Empty)

  const FORK_DELAYS: seq<nat> := [0, 5, 7]

  const FORK_STOPS: seq<Stop> := [Stop(0, 24, 24, 10, 2), LeafStop(5, 1), LeafStop(17, 2)]

  /** Only the second slave has no DC. */
  const FORK_SLAVES: seq<Slave> := [
    Slave(true, [Port(true, None, 0, 0), Port(false, None, 24, 0), CLOSED_PORT, Port(false, None, 10, 0)], 0),
    LeafSlave(false, 0), LeafSlave(true, 17)]

  lemma ForkTravels()
    ensures Travels(FORK_STOPS, FORK_DELAYS, FORK, 0, 0) && Size(FORK) == 3 && Listed(AllOpens(FORK_SLAVES), 0, FORK)
  {
    hide Travels, Trip, Listed, Size;
    LeafTravels(FORK_STOPS, FORK_DELAYS, 1, 5);
    LeafTravels(FORK_STOPS, FORK_DELAYS, 2, 17);
    TripEmpty(3, FORK_DELAYS);
    TravelsEmpty(FORK_STOPS, FORK_DELAYS, 3, 24 + LinkAt(FORK_DELAYS, 3));
    TravelsNode(FORK_STOPS, FORK_DELAYS, FORK, 0, 0);
    LeafListed(AllOpens(FORK_SLAVES), 1);
    LeafListed(AllOpens(FORK_SLAVES), 2);
    ListedEmpty(AllOpens(FORK_SLAVES), 3);
    ListedNode(AllOpens(FORK_SLAVES), 0, FORK);
  }

  lemma NoneLinked(pos: nat, up: Option<nat>)
    ensures LinksOf(Empty, pos, up) == [] && Size(Empty) == 0 && Size(LEAF) == 1
  {
  }

  lemma ForkLinks(pos: nat, up: Option<nat>)
    ensures LinksOf(FORK, pos, up) ==
      [Links(up, Some(pos + 2), None, Some(pos + 1)), Links(Some(pos), None, None, None),
       Links(Some(pos), None, None, None)]
  {
    hide LinksOf, Size;
    NoneLinked(pos + 3, Some(pos));
    NodeLinks(FORK, pos, up);
    LeafLinks(pos + 1, Some(pos));
    LeafLinks(pos + 2, Some(pos));
  }

  function ForkBus(): (s: seq<Slave>)
    ensures |s| == 3
  {
    ForkTravels();
    Joined(FORK_SLAVES, FORK)
  }

  lemma ForkJoined()
    ensures var s := ForkBus();
      && s[0].ports[0].next == None && s[1].ports[0].next == Some(0) && s[2].ports[0].next == Some(0)
      && s[0].dcSupported && !s[1].dcSupported && s[2].dcSupported
  {
    hide LinksOf, Size, Travels, Listed, Linked;
    ForkTravels();
    ForkLinks(0, None);
    LinkedCarries(FORK_SLAVES, LinksOf(FORK, 0, None));
    LinkedKeepsSlave(FORK_SLAVES, LinksOf(FORK, 0, None), 0);
    LinkedKeepsSlave(FORK_SLAVES, LinksOf(FORK, 0, None), 1);
    LinkedKeepsSlave(FORK_SLAVES, LinksOf(FORK, 0, None), 2);
  }

  lemma ForkReadings()
    ensures Readings(FORK_SLAVES, FORK_STOPS, FORK_DELAYS, [0, 0, 0], FORK, 0)
  {
    ForkTravels();
    hide Travels, Listed, Size;
  }

  /** What is counted up to the last of three slaves that all hang on the first: its own link. */
  lemma ForkCounted(s: seq<Slave>)
    requires |s| == 3 && s[0].ports[0].next == None && s[1].ports[0].next == Some(0) && s[2].ports[0].next == Some(0)
    requires s[0].dcSupported && !s[1].dcSupported && s[2].dcSupported
    ensures Transmission(s, FORK_STOPS, FORK_DELAYS, Some(0), 2) == 7
  {
    var st, d := FORK_STOPS, FORK_DELAYS;
    assert Entry(s, 2) == 2 && FirstDc(s, 2) == 2 && Found(s, 0, 0) && Found(s, 0, 2) && !Found(s, 0, 1);
    EmptySum(d, 2);
    EmptySum(d, 3);
    assert Detour(st, d, 2, 2) == 7 && Seen(s, st, d, 2) == 7;
    var e := Counted(s, st, d, 0);
    assert e == [0, 0, 7];
    NoWay(st, e, 1, 2);
    assert Way(st, e, 1, 2, 2) == 0 && Way(st, e, 1, 3, 2) == 7;
  }

  /** A leaf without DC is in front of one with DC: the frame needs 17 to the latter, 10 of which it is on the way to
      the former and back. The calculation says 7. */
  lemma SilentLeafCosts()
    ensures Transmission(ForkBus(), FORK_STOPS, FORK_DELAYS, Some(0), 2) == 7
    ensures FORK_STOPS[2].t0 - FORK_STOPS[0].t0 == 17
    ensures Readings(FORK_SLAVES, FORK_STOPS, FORK_DELAYS, [0, 0, 0], FORK, 0)
  {
    ForkReadings();
    ForkJoined();
    hide Readings, Transmission, ForkBus;
    ForkCounted(ForkBus());
  }

  // ----- a slave without DC that two slaves with DC hang on -----

  const HUB: Tree := Node(FORK, Empty, Empty)

  const HUB_DELAYS: seq<nat> := [0, 1, 2, 3]

  const HUB_STOPS: seq<Stop> := [Stop(0, 12, 12, 12, 3), Stop(1, 11, 11, 5, 3), LeafStop(3, 2), LeafStop(8, 3)]

  /** Only the second slave has no DC; the others hang on it. */
  const HUB_SLAVES: seq<Slave> := [
    Slave(true, [Port(true, None, 0, 0), CLOSED_PORT, CLOSED_PORT, Port(false, None, 12, 0)], 0),
    Slave(false, [Port(true, None, 0, 0), Port(false, None, 0, 0), CLOSED_PORT, Port(false, None, 0, 0)], 0),
    LeafSlave(true, 3), LeafSlave(true, 8)]

  lemma HubTravels()
    ensures Travels(HUB_STOPS, HUB_DELAYS, HUB, 0, 0) && Size(HUB) == 4 && Listed(AllOpens(HUB_SLAVES), 0, HUB)
  {
    hide Travels, Trip, Listed, Size;
    var f := AllOpens(HUB_SLAVES);
    LeafTravels(HUB_STOPS, HUB_DELAYS, 2, 3);
    LeafTravels(HUB_STOPS, HUB_DELAYS, 3, 8);
    TripEmpty(4, HUB_DELAYS);
    TravelsEmpty(HUB_STOPS, HUB_DELAYS, 4, 11 + LinkAt(HUB_DELAYS, 4));
    TravelsNode(HUB_STOPS, HUB_DELAYS, FORK, 1, 1);
    TripNode(FORK, 1, HUB_DELAYS);
    TravelsEmpty(HUB_STOPS, HUB_DELAYS, 4, 12 + LinkAt(HUB_DELAYS, 4));
    TravelsNode(HUB_STOPS, HUB_DELAYS, HUB, 0, 0);
    LeafListed(f, 2);
    LeafListed(f, 3);
    ListedEmpty(f, 4);
    ListedNode(f, 1, FORK);
    ListedNode(f, 0, HUB);
  }

  lemma HubLinks()
    ensures LinksOf(HUB, 0, None) ==
      [Links(None, None, None, Some(1)), Links(Some(0), Some(3), None, Some(2)),
       Links(Some(1), None, None, None), Links(Some(1), None, None, None)]
  {
    ForkTravels();
    hide LinksOf, Size, Travels, Listed;
    NodeLinks(HUB, 0, None);
    ForkLinks(1, Some(0));
    NoneLinked(4, Some(0));
  }

  function HubBus(): (s: seq<Slave>)
    ensures |s| == 4
  {
    HubTravels();
    Joined(HUB_SLAVES, HUB)
  }

  lemma HubJoined()
    ensures var s := HubBus();
      && s[0].ports[0].next == None && s[1].ports[0].next == Some(0)
      && s[2].ports[0].next == Some(1) && s[3].ports[0].next == Some(1)
      && s[0].dcSupported && !s[1].dcSupported && s[2].dcSupported && s[3].dcSupported && s[3].transmissionDelay == 0
  {
    hide LinksOf, Size, Travels, Listed, Linked;
    HubTravels();
    HubLinks();
    LinkedCarries(HUB_SLAVES, LinksOf(HUB, 0, None));
    LinkedKeepsSlave(HUB_SLAVES, LinksOf(HUB, 0, None), 0);
    LinkedKeepsSlave(HUB_SLAVES, LinksOf(HUB, 0, None), 1);
    LinkedKeepsSlave(HUB_SLAVES, LinksOf(HUB, 0, None), 2);
    LinkedKeepsSlave(HUB_SLAVES, LinksOf(HUB, 0, None), 3);
  }

  lemma HubReadings()
    ensures Readings(HUB_SLAVES, HUB_STOPS, HUB_DELAYS, [0, 0, 0, 0], HUB, 0)
  {
    HubTravels();
    hide Travels, Listed, Size;
  }

  lemma HubCounted(s: seq<Slave>)
    requires |s| == 4 && s[0].ports[0].next == None && s[1].ports[0].next == Some(0)
    requires s[2].ports[0].next == Some(1) && s[3].ports[0].next == Some(1)
    requires s[0].dcSupported && !s[1].dcSupported && s[2].dcSupported && s[3].dcSupported &&
      s[3].transmissionDelay == 0
    ensures Transmission(s, HUB_STOPS, HUB_DELAYS, Some(0), 2) == 6 &&
      Transmission(s, HUB_STOPS, HUB_DELAYS, Some(0), 3) == 0
  {
    var st, d := HUB_STOPS, HUB_DELAYS;
    assert Entry(s, 1) == 1 && Entry(s, 2) == 1 && Entry(s, 3) == 1 && FirstDc(s, 2) == 2 && FirstDc(s, 1) == 2;
    assert Found(s, 0, 0) && !Found(s, 0, 1) && Found(s, 0, 2) && !Found(s, 0, 3);
    EmptySum(d, 1);
    EmptySum(d, 3);
    assert LinkSum(d, 1, 2) == 1 && LinkSum(d, 1, 3) == 3 && LinkSum(d, 3, 4) == 3;
    assert Detour(st, d, 1, 2) == 6 && Seen(s, st, d, 2) == 6;
    var e := Counted(s, st, d, 0);
    assert e == [0, 0, 6, 0];
    NoWay(st, e, 1, 2);
    assert Way(st, e, 1, 2, 2) == 0 && Way(st, e, 1, 3, 2) == 6;
  }

  /** Two slaves with DC hang on one without: the first gets 6 instead of 3, because half of the way to the other is
      taken for its own, and the other gets nothing at all instead of 8. */
  lemma HubMisleads()
    ensures Transmission(HubBus(), HUB_STOPS, HUB_DELAYS, Some(0), 2) == 6
    ensures Transmission(HubBus(), HUB_STOPS, HUB_DELAYS, Some(0), 3) == 0
    ensures HUB_STOPS[2].t0 - HUB_STOPS[0].t0 == 3 && HUB_STOPS[3].t0 - HUB_STOPS[0].t0 == 8
    ensures Readings(HUB_SLAVES, HUB_STOPS, HUB_DELAYS, [0, 0, 0, 0], HUB, 0)
  {
    HubReadings();
    HubJoined();
    hide Readings, Transmission, HubBus;
    HubCounted(HubBus());
  }
}
