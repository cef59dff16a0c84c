/** Whoever waits is answered: ec_master_send called twice (src/ec_master.c:238-285), with only receiving in between,
    lets every datagram leave that can be sent at all. */
module DatagramProgress {
  import opened Words
  import opened FrameCodec
  import opened DatagramQueue
  import opened DatagramRuns
  import opened FrameTraffic

  /** Neither `x` nor any datagram of the device that waits in `ids` in front of it is too big for a frame. */
  predicate Unblocked(q: Queue, netdev: nat, ids: seq<nat>, x: nat)
    decreases |ids|
  {
    && ids != [] && (EligibleOne(q, netdev, ids[0]) ==> !TooBig(q.pool[ids[0]]))
    && (ids[0] == x || Unblocked(q, netdev, ids[1..], x))
  }

  lemma {:induction false} UnblockedIsSent(q: Queue, netdev: nat, ids: seq<nat>, x: nat)
    requires Unblocked(q, netdev, ids, x) && EligibleOne(q, netdev, x)
    ensures var e := Eligible(q, netdev, ids); Known(q.pool, e) && x in e[..BeforeTooBig(q.pool, e)]
    decreases |ids|
  {
    hide TooBig, Eligible, BeforeTooBig;
    var e, e' := Eligible(q, netdev, ids), Eligible(q, netdev, ids[1..]);
    EligibleMore(q, netdev, ids);
    if EligibleOne(q, netdev, ids[0]) {
      OneMoreBefore(q.pool, ids[0], e');
    }
    if ids[0] != x {
      UnblockedIsSent(q, netdev, ids[1..], x);
    }
  }

  lemma EligibleMore(q: Queue, netdev: nat, ids: seq<nat>)
    requires ids != []
    ensures var rest := Eligible(q, netdev, ids[1..]);
      Eligible(q, netdev, ids) == if EligibleOne(q, netdev, ids[0]) then [ids[0]] + rest else rest
  {
    var rest := Eligible(q, netdev, ids[1..]);
    assert [] + rest == rest;
  }

  /** What stands behind a datagram that fits into a frame. */
  lemma OneMoreBefore(pool: seq<Datagram>, id: nat, rest: seq<nat>)
    requires id < |pool| && Known(pool, rest) && !TooBig(pool[id])
    ensures var e := [id] + rest;
      Known(pool, e) && e[..BeforeTooBig(pool, e)] == [id] + rest[..BeforeTooBig(pool, rest)]
  {
    hide TooBig;
    var e := [id] + rest;
    assert e[1..] == rest;
    assert Known(pool, e);
    assert BeforeTooBig(pool, e) == 1 + BeforeTooBig(pool, rest);
  }

  lemma {:induction false} UnblockedStays(q: Queue, r: Queue, netdev: nat, ids: seq<nat>, gone: set<nat>, x: nat)
    requires Unblocked(q, netdev, ids, x) && x !in gone && |r.pool| == |q.pool|
    requires forall y :: 0 <= y < |q.pool| && EligibleOne(r, netdev, y) ==> r.pool[y] == q.pool[y]
    ensures Unblocked(r, netdev, Without(ids, gone), x)
    decreases |ids|
  {
    hide TooBig;
    var rest := Without(ids[1..], gone);
    if ids[0] != x {
      UnblockedStays(q, r, netdev, ids[1..], gone, x);
    }
    if ids[0] in gone {
      assert [] + rest == rest;
    } else {
      assert ([ids[0]] + rest)[1..] == rest;
    }
  }

  lemma {:induction false} WithoutNone(s: seq<nat>)
    ensures Without(s, {}) == s
  {
    if s == [] {
    } else {
      WithoutNone(s[1..]);
    }
  }

  /** Everything on its way was sent at `last` at the latest. */
  ghost predicate SentBy(q: Queue, last: nat) {
    forall x :: 0 <= x < |q.pool| && x in q.queue && q.pool[x].state == Sent ==> q.pool[x].jiffiesSent <= last
  }

  /** Datagram `x` waits and will be sent, or has been sent, or has left. */
  ghost predicate Waits(q: Queue, x: nat) {
    x < |q.pool| && x in q.queue && EligibleOne(q, q.pool[x].netdev, x) && Unblocked(q, q.pool[x].netdev, q.queue, x)
  }

  ghost predicate Underway(q: Queue, x: nat) {
    x < |q.pool| && (x !in q.queue || q.pool[x].state == Sent)
  }

  // ----- the passes of one call -----

  /** Sending for a device touches nobody else and does not change the queue. */
  lemma SentOrSame(q: Queue, netdev: nat, t: Clock, y: nat)
    requires Inv(q) && y < |q.pool|
    ensures var r := SendDatagrams(q, netdev, t);
      && |r.pool| == |q.pool| && r.queue == q.queue
      && (if y in Eligible(q, netdev, q.queue)[..BeforeWaiting(q, netdev)] then r.pool[y].state == Sent
          else r.pool[y] == q.pool[y])
  {
    hide Groups, Flatten, SendGroups, Eligible, Inv, BeforeTooBig;
    var e := Eligible(q, netdev, q.queue);
    EligibleOk(q, netdev);
    SentUpToTooBig(q.pool, e);
    GroupsSent(q, Groups(q.pool, e), t, y);
  }

  function BeforeWaiting(q: Queue, netdev: nat): (k: nat)
    ensures k <= |Eligible(q, netdev, q.queue)|
  {
    BeforeTooBig(q.pool, Eligible(q, netdev, q.queue))
  }

  lemma {:induction false} GroupsSentBy(q: Queue, g: seq<seq<nat>>, t: Clock, last: nat, x: nat)
    requires Distinct(Flatten(g)) && AllQueued(q, Flatten(g)) && x < |q.pool| && forall k :: t.sentAt(k) <= last
    requires q.pool[x].state == Sent ==> q.pool[x].jiffiesSent <= last
    ensures var r := SendGroups(q, g, t);
      |r.pool| == |q.pool| && (r.pool[x].state == Sent ==> r.pool[x].jiffiesSent <= last)
    decreases |g|
  {
    hide MarkSent;
    if g == [] {
    } else {
      var rest := Flatten(g[1..]);
      assert Flatten(g) == g[0] + rest;
      FrontAndRest(q, g[0], rest);
      var now := t.sentAt(q.issued);
      MarkedSent(q, g[0], now, x);
      MarkedOthers(q, g[0], now);
      GroupsSentBy(MarkSent(q, g[0], now), g[1..], t, last, x);
    }
  }

  lemma SendDatagramsSentBy(q: Queue, netdev: nat, t: Clock, last: nat)
    requires Inv(q) && SentBy(q, last) && forall k :: t.sentAt(k) <= last
    ensures SentBy(SendDatagrams(q, netdev, t), last)
  {
    hide Groups, Flatten, SendGroups, Eligible, BeforeTooBig, Inv;
    var e := Eligible(q, netdev, q.queue);
    EligibleOk(q, netdev);
    SentUpToTooBig(q.pool, e);
    var r := SendDatagrams(q, netdev, t);
    SendGroupsSize(q, Groups(q.pool, e), t);
    forall x | 0 <= x < |r.pool| && x in r.queue && r.pool[x].state == Sent ensures r.pool[x].jiffiesSent <= last {
      GroupsSent(q, Groups(q.pool, e), t, x);
      GroupsSentBy(q, Groups(q.pool, e), t, last, x);
    }
  }

  lemma LinkDownSame(q: Queue, netdev: nat, y: nat)
    requires y < |q.pool|
    ensures var r := LinkDownPass(q, netdev);
      && |r.pool| == |q.pool|
      && (y in r.queue <==> y in q.queue && q.pool[y].netdev != netdev)
      && (y !in q.queue || q.pool[y].netdev != netdev ==> r.pool[y] == q.pool[y])
  {
  }

  /** One pass: a datagram of another device goes on waiting, one of this device is underway then; who is underway stays
      so. */
  lemma PassMoves(q: Queue, up: bool, netdev: nat, t: Clock, x: nat)
    requires Inv(q)
    ensures var r := Pass(q, up, netdev, t);
      && (Underway(q, x) ==> Underway(r, x))
      && (Waits(q, x) && q.pool[x].netdev != netdev ==> Waits(r, x) && r.pool[x].netdev == q.pool[x].netdev)
      && (Waits(q, x) && q.pool[x].netdev == netdev ==> Underway(r, x))
  {
    var r := Pass(q, up, netdev, t);
    if x < |q.pool| {
      if up {
        SendPassMoves(q, netdev, t, x);
      } else {
        DownPassMoves(q, netdev, x);
      }
    }
  }

  /** What ec_master_send does for one device. */
  function Pass(q: Queue, up: bool, netdev: nat, t: Clock): Queue {
    if up then SendDatagrams(q, netdev, t) else LinkDownPass(q, netdev)
  }

  lemma SendPassMoves(q: Queue, netdev: nat, t: Clock, x: nat)
    requires Inv(q) && x < |q.pool|
    ensures var r := SendDatagrams(q, netdev, t);
      && (Underway(q, x) ==> Underway(r, x))
      && (Waits(q, x) && q.pool[x].netdev != netdev ==> Waits(r, x) && r.pool[x].netdev == q.pool[x].netdev)
      && (Waits(q, x) && q.pool[x].netdev == netdev ==> Underway(r, x))
  {
    var r := SendDatagrams(q, netdev, t);
    hide Inv, SendDatagrams, Unblocked, Eligible, BeforeTooBig;
    var sent := Eligible(q, netdev, q.queue)[..BeforeWaiting(q, netdev)];
    SentOrSame(q, netdev, t, x);
    if Waits(q, x) {
      if q.pool[x].netdev == netdev {
        UnblockedIsSent(q, netdev, q.queue, x);
      } else {
        forall y | 0 <= y < |q.pool| && EligibleOne(r, q.pool[x].netdev, y) ensures r.pool[y] == q.pool[y] {
          SentOrSame(q, netdev, t, y);
        }
        WithoutNone(q.queue);
        UnblockedStays(q, r, q.pool[x].netdev, q.queue, {}, x);
      }
    }
  }

  lemma DownPassMoves(q: Queue, netdev: nat, x: nat)
    requires Inv(q) && x < |q.pool|
    ensures var r := LinkDownPass(q, netdev);
      && (Underway(q, x) ==> Underway(r, x))
      && (Waits(q, x) && q.pool[x].netdev != netdev ==> Waits(r, x) && r.pool[x].netdev == q.pool[x].netdev)
      && (Waits(q, x) && q.pool[x].netdev == netdev ==> Underway(r, x))
  {
    hide Inv, Unblocked, AllOn, Without, Leave;
    var r := LinkDownPass(q, netdev);
    assert r.queue == Without(q.queue, AllOn(q, netdev));
    hide LinkDownPass;
    LinkDownSame(q, netdev, x);
    if Waits(q, x) && q.pool[x].netdev != netdev {
      forall y | 0 <= y < |q.pool| && EligibleOne(r, q.pool[x].netdev, y) ensures r.pool[y] == q.pool[y] {
        LinkDownSame(q, netdev, y);
        LeavingIsError(q, netdev, y);
      }
      NotOnDevice(q, netdev, x);
      UnblockedStays(q, r, q.pool[x].netdev, q.queue, AllOn(q, netdev), x);
    }
  }

  lemma LeavingIsError(q: Queue, netdev: nat, y: nat)
    requires y < |q.pool|
    ensures |LinkDownPass(q, netdev).pool| == |q.pool|
    ensures y in q.queue && q.pool[y].netdev == netdev ==> LinkDownPass(q, netdev).pool[y].state == Error
  {
  }

  lemma NotOnDevice(q: Queue, netdev: nat, x: nat)
    requires x < |q.pool| && q.pool[x].netdev != netdev
    ensures x !in AllOn(q, netdev)
  {
  }

  lemma PassKeeps(q: Queue, up: bool, netdev: nat, t: Clock, last: nat)
    requires Inv(q) && SentBy(q, last) && forall k :: t.sentAt(k) <= last
    ensures var r := Pass(q, up, netdev, t); Inv(r) && Moves(q, r) && SentBy(r, last)
  {
    hide Inv, Moves, SendDatagrams;
    if up {
      SendDatagramsKeeps(q, netdev, t);
      SendDatagramsSentBy(q, netdev, t, last);
    } else {
      LinkDownKeeps(q, netdev);
      var r := LinkDownPass(q, netdev);
      hide LinkDownPass;
      forall x | 0 <= x < |r.pool| && x in r.queue && r.pool[x].state == Sent ensures r.pool[x].jiffiesSent <= last {
        LinkDownSame(q, netdev, x);
      }
    }
  }

  /** After the passes for all devices from `netdev` on. */
  lemma {:induction false} PassesMove(q: Queue, links: seq<bool>, netdev: nat, t: Clock, last: nat, x: nat)
    requires Inv(q) && SentBy(q, last) && netdev <= |links| && forall k :: t.sentAt(k) <= last
    requires Underway(q, x) || (Waits(q, x) && netdev <= q.pool[x].netdev < |links|)
    ensures var r := SendFrom(q, links, netdev, t); SentBy(r, last) && Underway(r, x)
    decreases |links| - netdev
  {
    hide Inv, Moves, SentBy, Waits, Underway, SendDatagrams, LinkDownPass;
    if netdev == |links| {
      WaitsInside(q, x);
    } else {
      PassKeeps(q, links[netdev], netdev, t, last);
      PassMoves(q, links[netdev], netdev, t, x);
      WaitsInside(q, x);
      WaitsInside(Pass(q, links[netdev], netdev, t), x);
      PassesMove(Pass(q, links[netdev], netdev, t), links, netdev + 1, t, last, x);
    }
  }

  lemma WaitsInside(q: Queue, x: nat)
    requires Waits(q, x) || Underway(q, x)
    ensures x < |q.pool|
  {
  }

  lemma TimeoutSame(q: Queue, t: Clock, y: nat)
    requires y < |q.pool|
    ensures var r := TimeoutPass(q, t);
      && |r.pool| == |q.pool| && r.queue == Without(q.queue, AllOverdue(q, t))
      && (y in r.queue ==> y in q.queue) && (y !in AllOverdue(q, t) ==> r.pool[y] == q.pool[y])
      && (y in AllOverdue(q, t) <==> y in q.queue && Overdue(q.pool[y], t.checked(y)))
      && (y in AllOverdue(q, t) ==> y !in r.queue && r.pool[y].state == TimedOut)
  {
    hide Overdue;
  }

  lemma TimeoutMoves(q: Queue, t: Clock, last: nat, x: nat)
    requires Inv(q) && SentBy(q, last)
    ensures var r := TimeoutPass(q, t);
      && SentBy(r, last) && (Underway(q, x) ==> Underway(r, x))
      && (Waits(q, x) ==> Waits(r, x) && r.pool[x].netdev == q.pool[x].netdev)
  {
    hide Inv, TimeoutPass, Unblocked, AllOverdue, Without;
    var r := TimeoutPass(q, t);
    forall y | 0 <= y < |q.pool|
      ensures |r.pool| == |q.pool| && (y in r.queue ==> y in q.queue)
      ensures r.pool[y] == q.pool[y] || (y !in r.queue && r.pool[y].state == TimedOut)
    {
      TimeoutSame(q, t, y);
    }
    if x < |q.pool| {
      TimeoutSame(q, t, x);
      if Waits(q, x) {
        UnblockedStays(q, r, q.pool[x].netdev, q.queue, AllOverdue(q, t), x);
        WithoutKeeps(q.queue, AllOverdue(q, t), x);
      }
    }
    TimeoutSize(q, t);
  }

  lemma TimeoutSize(q: Queue, t: Clock)
    ensures |TimeoutPass(q, t).pool| == |q.pool|
  {
  }

  lemma WithoutKeeps(s: seq<nat>, gone: set<nat>, x: nat)
    ensures x in Without(s, gone) <==> x in s && x !in gone
  {
  }

  /** One call of ec_master_send: afterwards a datagram that waited in front of any that is too big has been sent or has
      left. */
  lemma SendMoves(q: Queue, links: seq<bool>, t: Clock, last: nat, x: nat)
    requires Inv(q) && SentBy(q, last) && forall k :: t.sentAt(k) <= last
    requires Underway(q, x) || (Waits(q, x) && q.pool[x].netdev < |links|)
    ensures var r := Send(q, links, t); Inv(r) && Moves(q, r) && SentBy(r, last) && Underway(r, x)
  {
    hide Inv, Moves, SentBy, Waits, Underway, TimeoutPass, SendFrom;
    SendKeeps(q, links, t);
    TimeoutKeeps(q, t);
    TimeoutMoves(q, t, last, x);
    WaitsInside(q, x);
    PassesMove(TimeoutPass(q, t), links, 0, t, last, x);
  }

  // ----- receiving in between -----

  /** Who stays in the queue is untouched. */
  ghost predicate StayersSame(q: Queue, r: Queue) {
    |r.pool| == |q.pool| && forall y :: 0 <= y < |q.pool| && y in r.queue ==> y in q.queue && r.pool[y] == q.pool[y]
  }

  lemma ReceiveOneSame(q: Queue, r: Reply, now: nat)
    requires Inv(q)
    ensures StayersSame(q, ReceiveOne(q, r, now))
  {
    hide Answered, Inv;
  }

  lemma {:induction false} ReceiveAllSame(q: Queue, rs: seq<Reply>, now: nat)
    requires Inv(q)
    ensures StayersSame(q, ReceiveAll(q, rs, now))
    decreases |rs|
  {
    hide Inv, ReceiveOne;
    if rs == [] {
    } else {
      ReceiveOneKeeps(q, rs[0], now);
      ReceiveOneSame(q, rs[0], now);
      ReceiveAllSame(ReceiveOne(q, rs[0], now), rs[1..], now);
    }
  }

  lemma ReceiveSame(q: Queue, frame: seq<byte>, size: nat, now: nat)
    requires Inv(q) && size + DATAGRAM_HEADER_SIZE <= |frame|
    ensures StayersSame(q, Receive(q, frame, size, now))
  {
    hide Inv, ReceiveAll, ParseFrame;
    ReceiveAllSame(q, ParseFrame(frame, size).replies, now);
  }

  /** Any number of received frames, whatever they contain. */
  lemma {:induction false} ReceivingMoves(q: Queue, steps: seq<Step>, last: nat, x: nat)
    requires Inv(q) && SentBy(q, last) && Underway(q, x) && AllEnabled(q, steps)
    requires forall i :: 0 <= i < |steps| ==> steps[i].DoReceive?
    ensures var r := Run(q, steps); Inv(r) && Moves(q, r) && SentBy(r, last) && Underway(r, x)
    decreases |steps|
  {
    hide Inv, Moves, Receive;
    if steps == [] {
      MovesNothing(q);
    } else {
      var s := steps[0];
      var r := Receive(q, s.frame, s.size, s.now);
      ReceiveKeeps(q, s.frame, s.size, s.now);
      ReceiveSame(q, s.frame, s.size, s.now);
      ReceivingMoves(r, steps[1..], last, x);
      MovesOn(q, r, Run(q, steps));
    }
  }

  // ----- two calls -----

  /** The time-out pass of the second call lets everybody leave who was sent more than 50 ms ago. */
  lemma SentLeaves(q: Queue, links: seq<bool>, t: Clock, last: nat, x: nat)
    requires Inv(q) && SentBy(q, last) && Underway(q, x)
    requires last + DATAGRAM_TIMEOUT_NS < t.checked(x) < TWO_64
    ensures var r := Send(q, links, t); Inv(r) && Moves(q, r) && x !in r.queue
  {
    hide Inv, TimeoutPass, SendFrom;
    SendKeeps(q, links, t);
    TimeoutKeeps(q, t);
    TimeoutSame(q, t, x);
    SendFromKeeps(TimeoutPass(q, t), links, 0, t);
    if x in q.queue {
      ElapsedIs(t.checked(x), q.pool[x].jiffiesSent);
    }
    assert Moved(q, TimeoutPass(q, t), x) && Moved(TimeoutPass(q, t), Send(q, links, t), x);
  }

  /** Two calls of ec_master_send with any receiving in between, and nothing queued. Up to `last` the first one has sent
      everything it sends, and the second one looks at the datagram more than 50 ms later. Then every datagram that was
      on its way, or waited in front of any that is too big for a frame, has reached a final state, and its waiter was
      signalled exactly once. */
  lemma TwoSendsAnswer(
    q: Queue, links: seq<bool>, t: Clock, steps: seq<Step>, links': seq<bool>, t': Clock, last: nat, x: nat)
    requires Inv(q) && SentBy(q, last) && forall k :: t.sentAt(k) <= last
    requires x in q.queue && x < |q.pool| && q.pool[x].netdev < |links|
    requires q.pool[x].state == Queued ==> Unblocked(q, q.pool[x].netdev, q.queue, x)
    requires AllEnabled(Send(q, links, t), steps) && forall i :: 0 <= i < |steps| ==> steps[i].DoReceive?
    requires last + DATAGRAM_TIMEOUT_NS < t'.checked(x) < TWO_64
    ensures var r := Send(Run(Send(q, links, t), steps), links', t');
      && Inv(r) && |r.pool| == |q.pool| && x !in r.queue
      && Final(r.pool[x].state) && !r.pool[x].waiter
      && r.pool[x].signals == q.pool[x].signals + (if q.pool[x].waiter then 1 else 0)
  {
    hide Inv, Moves, SentBy, Send, Run, Unblocked;
    LinkedIsOk(q, x);
    var a := Send(q, links, t);
    SendMoves(q, links, t, last, x);
    hide Underway;
    ReceivingMoves(a, steps, last, x);
    var b := Run(a, steps);
    SentLeaves(b, links', t', last, x);
    var r := Send(b, links', t');
    MovesOn(q, a, b);
    MovesOn(q, b, r);
    LeftIsFinal(q, r, x);
  }

  lemma LeftIsFinal(q: Queue, r: Queue, x: nat)
    requires Moves(q, r) && x < |q.pool| && x in q.queue && x !in r.queue
    ensures |r.pool| == |q.pool| && Final(r.pool[x].state) && !r.pool[x].waiter
    ensures r.pool[x].signals == q.pool[x].signals + (if q.pool[x].waiter then 1 else 0)
  {
    assert Moved(q, r, x);
  }
}
