/** All frames of a call of ec_master_send_datagrams on their way back (src/ec_master.c:38-236): they may arrive in any
    order. */
module FrameReturns {
  import opened Words
  import opened FrameCodec
  import opened DatagramQueue
  import opened DatagramRuns
  import opened FrameTraffic
  import QueueMaster

  /** A frame that is on its way: its datagrams, and their images. */
  datatype Flight = Flight(ids: seq<nat>, sent: seq<Slot>)

  /** What a device delivers. */
  datatype Arrival = Arrival(buffer: seq<byte>, size: nat, now: nat)

  ghost predicate Flying(q: Queue, f: Flight) {
    && f.ids != [] && OnTheWay(q, f.ids, f.sent)
    && Sendable(f.sent) && TotalSize(f.sent) + FRAME_HEADER_SIZE <= ETH_DATA_LEN
  }

  /** No datagram is in two frames. */
  ghost predicate Disjoint(a: Flight, b: Flight) {
    forall x :: x in a.ids ==> x !in b.ids
  }

  ghost predicate AllFlying(q: Queue, fl: seq<Flight>) {
    && (forall i :: 0 <= i < |fl| ==> Flying(q, fl[i]))
    && forall i, j :: 0 <= i < |fl| && 0 <= j < |fl| && i != j ==> Disjoint(fl[i], fl[j])
  }

  /** The frame comes back with `back`, of which the slaves have changed only what they may. */
  ghost predicate Brings(f: Flight, a: Arrival, back: seq<Slot>) {
    && Returned(f.sent, back) && a.size == |FrameBytes(back)|
    && a.size + DATAGRAM_HEADER_SIZE <= |a.buffer| && a.buffer[..a.size] == FrameBytes(back)
  }

  /** One call of ec_master_receive_datagrams for each. */
  function ReceiveEach(q: Queue, arrivals: seq<Arrival>): Queue
    decreases |arrivals|
  {
    if arrivals == [] || arrivals[0].size + DATAGRAM_HEADER_SIZE > |arrivals[0].buffer| then q
    else ReceiveEach(Receive(q, arrivals[0].buffer, arrivals[0].size, arrivals[0].now), arrivals[1..])
  }

  ghost predicate InFlight(fl: seq<Flight>, x: nat) {
    exists i :: 0 <= i < |fl| && x in fl[i].ids
  }

  /** Every datagram of the frame has been answered by its own image. */
  ghost predicate FlightAnswered(q: Queue, r: Queue, f: Flight, a: Arrival, back: seq<Slot>) {
    && |f.ids| == |back| && Known(q.pool, f.ids) && |r.pool| == |q.pool|
    && forall k :: 0 <= k < |f.ids| ==> Brought(q.pool[f.ids[k]], r.pool[f.ids[k]], back[k], a.now)
  }

  /** Nobody outside of the frames is touched, and exactly their datagrams leave the queue. */
  ghost predicate OthersSame(q: Queue, r: Queue, fl: seq<Flight>) {
    && |r.pool| == |q.pool|
    && (forall x :: 0 <= x < |q.pool| && !InFlight(fl, x) ==> r.pool[x] == q.pool[x])
    && forall x :: x in r.queue <==> x in q.queue && !InFlight(fl, x)
  }

  lemma OneReturns(q: Queue, f: Flight, a: Arrival, back: seq<Slot>)
    requires Inv(q) && Flying(q, f) && Brings(f, a, back)
    ensures var r := Receive(q, a.buffer, a.size, a.now);
      && Inv(r) && |f.ids| == |back| && Known(q.pool, f.ids) && AllAnswered(q, r, f.ids, back, a.now)
  {
    hide Inv, AllAnswered, OnTheWay, FrameBytes, Receive, TotalSize;
    FrameRoundTrip(q, f.ids, f.sent, back, a.buffer, a.now);
    ReceiveKeeps(q, a.buffer, a.size, a.now);
  }

  /** The other frames are still on their way. */
  lemma OtherStays(q: Queue, r: Queue, f: Flight, back: seq<Slot>, now: nat, g: Flight)
    requires |f.ids| == |back| && Known(q.pool, f.ids) && AllAnswered(q, r, f.ids, back, now)
    requires Flying(q, g) && Disjoint(g, f)
    ensures Flying(r, g)
  {
    hide TotalSize;
    forall x | 0 <= x < |r.pool| && OnWire(r.pool[x]) ensures r.pool[x] == q.pool[x] {
    }
    forall i | 0 <= i < |g.ids| ensures g.ids[i] !in f.ids && r.pool[g.ids[i]] == q.pool[g.ids[i]] {
      assert g.ids[i] in g.ids;
    }
  }

  lemma {:induction false} FramesReturn(q: Queue, fl: seq<Flight>, arrivals: seq<Arrival>, back: seq<seq<Slot>>)
    requires Inv(q) && AllFlying(q, fl) && |arrivals| == |back| == |fl|
    requires forall i :: 0 <= i < |fl| ==> Brings(fl[i], arrivals[i], back[i])
    ensures var r := ReceiveEach(q, arrivals);
      && Inv(r) && OthersSame(q, r, fl)
      && forall i :: 0 <= i < |fl| ==> FlightAnswered(q, r, fl[i], arrivals[i], back[i])
    decreases |fl|
  {
    hide Inv, Flying, FlightAnswered, OthersSame, Receive, Disjoint;
    if fl == [] {
      NobodyInFlight(q);
    } else {
      var a := arrivals[0];
      var m := Receive(q, a.buffer, a.size, a.now);
      OneReturns(q, fl[0], a, back[0]);
      forall i | 0 <= i < |fl[1..]| ensures Flying(m, fl[1..][i]) {
        OtherStays(q, m, fl[0], back[0], a.now, fl[i + 1]);
      }
      hide AllAnswered;
      FramesReturn(m, fl[1..], arrivals[1..], back[1..]);
      var r := ReceiveEach(q, arrivals);
      hide ReceiveEach;
      forall i | 0 <= i < |fl| ensures FlightAnswered(q, r, fl[i], arrivals[i], back[i]) {
        if i == 0 {
          FirstStaysAnswered(q, m, r, fl, a, back[0]);
        } else {
          assert FlightAnswered(m, r, fl[1..][i - 1], arrivals[1..][i - 1], back[1..][i - 1]);
          LaterAnswered(q, m, r, fl[0], a, back[0], fl[i], arrivals[i], back[i]);
        }
      }
      OthersStaySame(q, m, r, fl, a, back[0]);
    }
  }

  lemma NobodyInFlight(q: Queue)
    ensures OthersSame(q, q, [])
  {
  }

  /** The datagrams of the first frame are in no other, so that what it brought stays. */
  lemma FirstStaysAnswered(q: Queue, m: Queue, r: Queue, fl: seq<Flight>, a: Arrival, back: seq<Slot>)
    requires fl != [] && |fl[0].ids| == |back| && Known(q.pool, fl[0].ids)
    requires AllAnswered(q, m, fl[0].ids, back, a.now) && OthersSame(m, r, fl[1..])
    requires forall j :: 0 < j < |fl| ==> Disjoint(fl[0], fl[j])
    ensures FlightAnswered(q, r, fl[0], a, back)
  {
    hide Answered, Brought;
    AnsweredBrings(q, m, fl[0].ids, back, a.now);
    forall k | 0 <= k < |fl[0].ids| ensures r.pool[fl[0].ids[k]] == m.pool[fl[0].ids[k]] {
      var x := fl[0].ids[k];
      assert x in fl[0].ids;
      forall i | 0 <= i < |fl[1..]| ensures x !in fl[1..][i].ids {
        assert Disjoint(fl[0], fl[i + 1]);
      }
      assert !InFlight(fl[1..], x);
    }
  }

  lemma LaterAnswered(q: Queue, m: Queue, r: Queue, f: Flight, a: Arrival, back: seq<Slot>, g: Flight, b: Arrival,
                      gback: seq<Slot>)
    requires |f.ids| == |back| && Known(q.pool, f.ids) && AllAnswered(q, m, f.ids, back, a.now)
    requires FlightAnswered(m, r, g, b, gback) && Disjoint(g, f)
    ensures FlightAnswered(q, r, g, b, gback)
  {
    hide Answered, Brought;
    forall k | 0 <= k < |g.ids| ensures m.pool[g.ids[k]] == q.pool[g.ids[k]] {
      assert g.ids[k] in g.ids;
    }
  }

  lemma OthersStaySame(q: Queue, m: Queue, r: Queue, fl: seq<Flight>, a: Arrival, back: seq<Slot>)
    requires fl != [] && |fl[0].ids| == |back| && Known(q.pool, fl[0].ids)
    requires AllAnswered(q, m, fl[0].ids, back, a.now) && OthersSame(m, r, fl[1..])
    ensures OthersSame(q, r, fl)
  {
    hide Answered;
    forall x ensures InFlight(fl, x) <==> x in fl[0].ids || InFlight(fl[1..], x) {
      InFlightSplit(fl, x);
    }
    hide InFlight;
  }

  lemma InFlightSplit(fl: seq<Flight>, x: nat)
    requires fl != []
    ensures InFlight(fl, x) <==> x in fl[0].ids || InFlight(fl[1..], x)
  {
    if x in fl[0].ids {
      assert InFlight(fl, x);
    }
    forall i | 0 <= i < |fl[1..]| && x in fl[1..][i].ids ensures InFlight(fl, x) {
      assert x in fl[i + 1].ids;
    }
    forall i | 0 <= i < |fl| && x in fl[i].ids ensures x in fl[0].ids || InFlight(fl[1..], x) {
      if i > 0 {
        assert x in fl[1..][i - 1].ids;
      }
    }
  }

  // ----- the frames of one call -----

  /** The frames that ec_master_send_datagrams makes of the groups `g`. */
  function Flights(pool: seq<Datagram>, g: seq<seq<nat>>, serial: nat): seq<Flight>
    decreases |g|
  {
    if g == [] || !Known(pool, g[0]) then []
    else [Flight(g[0], SlotsOf(pool, g[0], serial))] + Flights(pool, g[1..], serial + |g[0]|)
  }

  /** These are the frames that go to the device. */
  lemma {:induction false} FlightsAreFrames(pool: seq<Datagram>, g: seq<seq<nat>>, serial: nat)
    requires forall i :: 0 <= i < |g| ==> QueueMaster.GoodGroup(pool, g[i])
    ensures var f := QueueMaster.FramesOf(pool, g, serial);
      |f| == |Flights(pool, g, serial)| == |g| &&
      forall i :: 0 <= i < |g| ==> f[i] == FrameBytes(Flights(pool, g, serial)[i].sent)
    decreases |g|
  {
    hide FrameOf, SlotsOf, WireSum, TotalSize;
    if g == [] {
    } else {
      QueueMaster.GroupFits(pool, g[0], serial);
      FlightsAreFrames(pool, g[1..], serial + |g[0]|);
    }
  }

  lemma {:induction false} SameFlights(pool: seq<Datagram>, pool': seq<Datagram>, g: seq<seq<nat>>, serial: nat)
    requires |pool'| == |pool| && Known(pool, Flatten(g))
    requires forall i :: 0 <= i < |Flatten(g)| ==> pool'[Flatten(g)[i]] == pool[Flatten(g)[i]]
    ensures Flights(pool', g, serial) == Flights(pool, g, serial)
    decreases |g|
  {
    if g == [] {
    } else {
      var rest := Flatten(g[1..]);
      var all := Flatten(g);
      assert all == g[0] + rest;
      forall i | 0 <= i < |g[0]| ensures g[0][i] < |pool| && pool'[g[0][i]] == pool[g[0][i]] {
        assert all[i] == g[0][i];
      }
      forall i | 0 <= i < |rest| ensures rest[i] < |pool| && pool'[rest[i]] == pool[rest[i]] {
        assert all[|g[0]| + i] == rest[i];
      }
      SameFlights(pool, pool', g[1..], serial + |g[0]|);
      assert SlotsOf(pool', g[0], serial) == SlotsOf(pool, g[0], serial);
    }
  }

  /** The datagrams of the frame have been sent with the headers in it. */
  ghost predicate Marked(q: Queue, f: Flight) {
    && |f.ids| == |f.sent| && Known(q.pool, f.ids) && Distinct(f.ids)
    && forall i :: 0 <= i < |f.ids| ==> OnWire(q.pool[f.ids[i]]) && Answers(q.pool[f.ids[i]], ReplyOf(f.sent[i]))
  }

  lemma JustMarked(q: Queue, ids: seq<nat>, now: nat)
    requires Inv(q) && Distinct(ids) && AllQueued(q, ids)
    ensures Marked(MarkSent(q, ids, now), Flight(ids, SlotsOf(q.pool, ids, q.issued)))
  {
    hide Inv, MarkSent, Index;
    MarkedSize(q, ids, now);
    forall i | 0 <= i < |ids|
      ensures OnWire(MarkSent(q, ids, now).pool[ids[i]])
      ensures Answers(MarkSent(q, ids, now).pool[ids[i]], ReplyOf(SlotsOf(q.pool, ids, q.issued)[i]))
    {
      MarkedIndex(q, ids, now, i);
    }
  }

  lemma {:induction false} AllMarked(q: Queue, g: seq<seq<nat>>, t: Clock)
    requires Inv(q) && Distinct(Flatten(g)) && AllQueued(q, Flatten(g))
    ensures var fl := Flights(q.pool, g, q.issued);
      |fl| == |g| && forall i :: 0 <= i < |g| ==> fl[i].ids == g[i] && Marked(SendGroups(q, g, t), fl[i])
    decreases |g|
  {
    hide Inv, MarkSent, Marked, Index;
    if g == [] {
    } else {
      var rest := Flatten(g[1..]);
      assert Flatten(g) == g[0] + rest;
      FrontAndRest(q, g[0], rest);
      var now := t.sentAt(q.issued);
      var m := MarkSent(q, g[0], now);
      JustMarked(q, g[0], now);
      MarkSentKeeps(q, g[0], now);
      MarkedOthers(q, g[0], now);
      hide Flights;
      AllMarked(m, g[1..], t);
      SameFlights(q.pool, m.pool, g[1..], q.issued + |g[0]|);
      FlightsMore(q.pool, g, q.issued);
      StillMarked(m, g[1..], t, Flight(g[0], SlotsOf(q.pool, g[0], q.issued)));
      assert SendGroups(q, g, t) == SendGroups(m, g[1..], t);
    }
  }

  lemma FlightsMore(pool: seq<Datagram>, g: seq<seq<nat>>, serial: nat)
    requires g != [] && Known(pool, g[0])
    ensures Flights(pool, g, serial) == [Flight(g[0], SlotsOf(pool, g[0], serial))] +
      Flights(pool, g[1..], serial + |g[0]|)
  {
  }

  /** Sending further frames does not change what has been sent. */
  lemma StillMarked(q: Queue, g: seq<seq<nat>>, t: Clock, f: Flight)
    requires Marked(q, f) && Distinct(Flatten(g)) && AllQueued(q, Flatten(g))
    ensures Marked(SendGroups(q, g, t), f)
  {
    hide SendGroups, Flatten;
    var ids := Flatten(g);
    SendGroupsSize(q, g, t);
    forall i | 0 <= i < |f.ids| ensures SendGroups(q, g, t).pool[f.ids[i]] == q.pool[f.ids[i]] {
      GroupsSent(q, g, t, f.ids[i]);
    }
  }

  /** Datagrams that have just been sent, and have not been overtaken by more than 255 indices, are on their way. */
  lemma MarkedFlies(q: Queue, f: Flight)
    requires Inv(q) && Recent(q) && Marked(q, f)
    ensures OnTheWay(q, f.ids, f.sent)
  {
    hide Inv, Recent;
    forall i | 0 <= i < |f.ids|
      ensures f.ids[i] in q.queue
      ensures forall x :: 0 <= x < |q.pool| && OnWire(q.pool[x]) && q.pool[x].index == f.sent[i].index ==> x == f.ids[i]
    {
      SentIsLinked(q, f.ids[i]);
      forall x | 0 <= x < |q.pool| && OnWire(q.pool[x]) && q.pool[x].index == f.sent[i].index ensures x == f.ids[i] {
        if x != f.ids[i] {
          IndicesDiffer(q, x, f.ids[i]);
        }
      }
    }
  }

  lemma Apart(a: seq<nat>, b: seq<nat>)
    requires Distinct(a + b)
    ensures Distinct(b) && forall x :: x in a ==> x !in b
  {
    var c := a + b;
    assert forall i :: 0 <= i < |a| ==> a[i] == c[i];
    assert forall i :: 0 <= i < |b| ==> b[i] == c[|a| + i];
  }

  lemma {:induction false} GroupsDisjoint(g: seq<seq<nat>>, i: nat, j: nat)
    requires Distinct(Flatten(g)) && i < j < |g|
    ensures forall x :: x in g[i] ==> x !in g[j]
    decreases |g|
  {
    Apart(g[0], Flatten(g[1..]));
    if i == 0 {
      forall x | x in g[j] ensures x in Flatten(g[1..]) {
        InFlatten(g[1..], j - 1, x);
      }
    } else {
      GroupsDisjoint(g[1..], i - 1, j - 1);
    }
  }

  lemma {:induction false} InFlatten(g: seq<seq<nat>>, i: nat, x: nat)
    requires i < |g| && x in g[i]
    ensures x in Flatten(g)
    decreases |g|
  {
    if i == 0 {
    } else {
      InFlatten(g[1..], i - 1, x);
    }
  }

  lemma {:induction false} FlattenIn(g: seq<seq<nat>>, x: nat)
    requires x in Flatten(g)
    ensures exists i :: 0 <= i < |g| && x in g[i]
    decreases |g|
  {
    if x in g[0] {
    } else {
      FlattenIn(g[1..], x);
      var i :| 0 <= i < |g[1..]| && x in g[1..][i];
      assert x in g[i + 1];
    }
  }

  /** The frames that a call of ec_master_send_datagrams sends. */
  function Sending(q: Queue, netdev: nat): seq<Flight> {
    Flights(q.pool, Groups(q.pool, Eligible(q, netdev, q.queue)), q.issued)
  }

  /** After the call all its frames are on their way. */
  lemma SentAllFlying(q: Queue, netdev: nat, t: Clock)
    requires Inv(q) && Recent(SendDatagrams(q, netdev, t))
    ensures Inv(SendDatagrams(q, netdev, t)) && AllFlying(SendDatagrams(q, netdev, t), Sending(q, netdev))
    ensures var g := Groups(q.pool, Eligible(q, netdev, q.queue));
      |Sending(q, netdev)| == |g| && forall i :: 0 <= i < |g| ==> Sending(q, netdev)[i].ids == g[i]
  {
    hide Inv, Recent, Eligible, Groups, Flights, SendGroups, Marked, Flatten, Distinct, AllQueued, BeforeTooBig,
      OnTheWay;
    var e := Eligible(q, netdev, q.queue);
    var g := Groups(q.pool, e);
    var r, fl := SendDatagrams(q, netdev, t), Sending(q, netdev);
    EligibleOk(q, netdev);
    SentDistinct(q, e);
    AllMarked(q, g, t);
    SendDatagramsKeeps(q, netdev, t);
    forall i | 0 <= i < |fl| ensures Flying(r, fl[i]) {
      MarkedFlies(r, fl[i]);
      FlightFits(q, e, i);
    }
    forall i, j | 0 <= i < |fl| && 0 <= j < |fl| && i != j ensures Disjoint(fl[i], fl[j]) {
      if i < j {
        GroupsDisjoint(g, i, j);
      } else {
        GroupsDisjoint(g, j, i);
      }
    }
  }

  lemma SentDistinct(q: Queue, e: seq<nat>)
    requires Distinct(e) && Known(q.pool, e) && AllQueued(q, e)
    ensures Distinct(Flatten(Groups(q.pool, e))) && AllQueued(q, Flatten(Groups(q.pool, e)))
  {
    hide Groups, Flatten;
    GroupsWithin(q.pool, e);
    var ids := Flatten(Groups(q.pool, e));
    assert forall i :: 0 <= i < |ids| ==> ids[i] == e[i];
  }

  /** Every frame of the split has datagrams, and is short enough. */
  lemma FlightFits(q: Queue, e: seq<nat>, i: nat)
    requires Known(q.pool, e) && i < |Flights(q.pool, Groups(q.pool, e), q.issued)| == |Groups(q.pool, e)|
    ensures var f := Flights(q.pool, Groups(q.pool, e), q.issued)[i];
      f.ids != [] && Sendable(f.sent) && TotalSize(f.sent) + FRAME_HEADER_SIZE <= ETH_DATA_LEN
  {
    hide Groups, Greedy, WireSum, TotalSize, Fit, Sendable;
    var g := Groups(q.pool, e);
    QueueMaster.AllGroupsGood(q.pool, e);
    GroupsNotEmpty(q.pool, e);
    FlightAt(q.pool, g, q.issued, i);
  }

  lemma {:induction false} GroupsNotEmpty(pool: seq<Datagram>, ids: seq<nat>)
    requires Known(pool, ids)
    ensures forall i :: 0 <= i < |Groups(pool, ids)| ==> Groups(pool, ids)[i] != []
    decreases |ids|
  {
    hide Fit, Groups;
    var k := Fit(pool, ids, FRAME_HEADER_SIZE);
    GroupsMore(pool, ids);
    if k == 0 {
    } else {
      GroupsNotEmpty(pool, ids[k..]);
    }
  }

  lemma {:induction false} FlightAt(pool: seq<Datagram>, g: seq<seq<nat>>, serial: nat, i: nat)
    requires i < |g| && (forall j :: 0 <= j < |g| ==> QueueMaster.GoodGroup(pool, g[j]) && g[j] != [])
    requires i < |Flights(pool, g, serial)|
    ensures var f := Flights(pool, g, serial)[i];
      f.ids == g[i] && f.ids != [] && Sendable(f.sent) && TotalSize(f.sent) + FRAME_HEADER_SIZE <= ETH_DATA_LEN
    decreases |g|
  {
    hide SlotsOf, WireSum, TotalSize, Sendable;
    if i == 0 {
      QueueMaster.GroupFits(pool, g[0], serial);
    } else {
      FlightAt(pool, g[1..], serial + |g[0]|, i - 1);
    }
  }

  // ----- in any order -----

  function Picked(fl: seq<Flight>, order: seq<nat>): (r: seq<Flight>)
    requires forall i :: 0 <= i < |order| ==> order[i] < |fl|
    ensures |r| == |order|
  {
    seq(|order|, i requires 0 <= i < |order| => fl[order[i]])
  }

  /** Some or all frames of a call of ec_master_send_datagrams come back, in any order. Each completes exactly its own
      datagrams, each with its own data and counter, and nobody else is touched. When all have come back, exactly the
      waiting datagrams in front of the first that is too big have left the queue. */
  lemma CallReturns(q: Queue, netdev: nat, t: Clock, order: seq<nat>, arrivals: seq<Arrival>, back: seq<seq<Slot>>)
    requires Inv(q) && Recent(SendDatagrams(q, netdev, t)) && |arrivals| == |back| == |order| && Distinct(order)
    requires forall i :: 0 <= i < |order| ==>
      order[i] < |Sending(q, netdev)| && Brings(Sending(q, netdev)[order[i]], arrivals[i], back[i])
    ensures var e, fl, r := Eligible(q, netdev, q.queue), Sending(q, netdev), SendDatagrams(q, netdev, t);
      var done := ReceiveEach(r, arrivals);
      && Inv(done) && OthersSame(r, done, Picked(fl, order))
      && (forall i :: 0 <= i < |order| ==> FlightAnswered(r, done, fl[order[i]], arrivals[i], back[i]))
      && Known(q.pool, e)
      && ((forall i :: 0 <= i < |fl| ==> i in order) ==>
            forall x :: x in done.queue <==> x in q.queue && x !in e[..BeforeTooBig(q.pool, e)])
  {
    hide Inv, Recent, Eligible, SendDatagrams, Sending, Flying, Disjoint, Brings, FlightAnswered, ReceiveEach,
      OthersSame, BeforeTooBig;
    var e, fl, r := Eligible(q, netdev, q.queue), Sending(q, netdev), SendDatagrams(q, netdev, t);
    SentAllFlying(q, netdev, t);
    EligibleOk(q, netdev);
    var p := Picked(fl, order);
    assert AllFlying(r, p);
    FramesReturn(r, p, arrivals, back);
    var done := ReceiveEach(r, arrivals);
    if forall i :: 0 <= i < |fl| ==> i in order {
      forall x ensures InFlight(p, x) <==> x in e[..BeforeTooBig(q.pool, e)] {
        AllPicked(fl, order, x);
        SentTogether(q, netdev, t, x);
      }
      SameQueue(q, netdev, t);
      OthersLeft(r, done, p);
    }
  }

  lemma AllPicked(fl: seq<Flight>, order: seq<nat>, x: nat)
    requires (forall i :: 0 <= i < |order| ==> order[i] < |fl|) && forall i :: 0 <= i < |fl| ==> i in order
    ensures InFlight(Picked(fl, order), x) <==> InFlight(fl, x)
  {
    var p := Picked(fl, order);
    forall i | 0 <= i < |p| && x in p[i].ids ensures InFlight(fl, x) {
      assert x in fl[order[i]].ids;
    }
    forall i | 0 <= i < |fl| && x in fl[i].ids ensures InFlight(p, x) {
      assert i in order;
      var k :| 0 <= k < |order| && order[k] == i;
      assert x in p[k].ids;
    }
  }

  lemma SentTogether(q: Queue, netdev: nat, t: Clock, x: nat)
    requires Inv(q) && Recent(SendDatagrams(q, netdev, t))
    ensures var e := Eligible(q, netdev, q.queue);
      Known(q.pool, e) && (InFlight(Sending(q, netdev), x) <==> x in e[..BeforeTooBig(q.pool, e)])
  {
    hide Inv, Recent, Eligible, Groups, Flights, SendDatagrams, Sending, BeforeTooBig, Flatten, AllFlying;
    var e := Eligible(q, netdev, q.queue);
    var g := Groups(q.pool, e);
    EligibleOk(q, netdev);
    SentUpToTooBig(q.pool, e);
    SentAllFlying(q, netdev, t);
    var fl := Sending(q, netdev);
    forall i | 0 <= i < |fl| && x in fl[i].ids ensures x in Flatten(g) {
      InFlatten(g, i, x);
    }
    if x in Flatten(g) {
      FlattenIn(g, x);
      var i :| 0 <= i < |g| && x in g[i];
      assert x in fl[i].ids;
    }
  }

  lemma SameQueue(q: Queue, netdev: nat, t: Clock)
    requires Inv(q)
    ensures SendDatagrams(q, netdev, t).queue == q.queue
  {
    hide Inv, Groups, Eligible, SendGroups, Flatten;
    var e := Eligible(q, netdev, q.queue);
    EligibleOk(q, netdev);
    SentDistinct(q, e);
    QueueStays(q, Groups(q.pool, e), t);
  }

  lemma {:induction false} QueueStays(q: Queue, g: seq<seq<nat>>, t: Clock)
    ensures SendGroups(q, g, t).queue == q.queue
    decreases |g|
  {
    hide MarkSent;
    if g == [] || !Known(q.pool, g[0]) {
    } else {
      MarkQueueStays(q, g[0], t.sentAt(q.issued));
      QueueStays(MarkSent(q, g[0], t.sentAt(q.issued)), g[1..], t);
    }
  }

  lemma {:induction false} MarkQueueStays(q: Queue, ids: seq<nat>, now: nat)
    requires Known(q.pool, ids)
    ensures MarkSent(q, ids, now).queue == q.queue
    decreases |ids|
  {
    if ids == [] {
    } else {
      var d := q.pool[ids[0]].(state := Sent, index := Index(q.issued), serial := q.issued, jiffiesSent := now);
      MarkQueueStays(q.(pool := q.pool[ids[0] := d], issued := q.issued + 1), ids[1..], now);
    }
  }

  lemma OthersLeft(q: Queue, r: Queue, fl: seq<Flight>)
    requires OthersSame(q, r, fl)
    ensures forall x :: x in r.queue <==> x in q.queue && !InFlight(fl, x)
  {
  }
}
