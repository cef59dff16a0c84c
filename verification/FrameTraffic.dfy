/** What goes over the wire: how ec_master_send_datagrams splits the waiting datagrams into frames, and
    what a frame does to them when it comes back. */
module FrameTraffic {
  import opened Words
  import opened FrameCodec
  import opened DatagramQueue
  import opened DatagramRuns

  // ----- splitting into frames -----

  function WireSum(pool: seq<Datagram>, ids: seq<nat>): nat
    requires Known(pool, ids)
  {
    if ids == [] then 0 else WireSize(pool[ids[0]]) + WireSum(pool, ids[1..])
  }

  predicate TooBig(d: Datagram) {
    |d.data| > MAX_DATA_SIZE
  }

  /** The datagrams in front of the first one that does not even fit into an empty frame. */
  function BeforeTooBig(pool: seq<Datagram>, ids: seq<nat>): (k: nat)
    requires Known(pool, ids)
    ensures k <= |ids| && (forall i :: 0 <= i < k ==> !TooBig(pool[ids[i]]))
    ensures k < |ids| ==> TooBig(pool[ids[k]])
  {
    if ids == [] || TooBig(pool[ids[0]]) then 0 else 1 + BeforeTooBig(pool, ids[1..])
  }

  /** Frame by frame, the greedy split of `ids`: no frame is empty or too long, no frame could have
      taken the next datagram as well, and the last datagram left over, if any, is too big. */
  ghost predicate Greedy(pool: seq<Datagram>, ids: seq<nat>, g: seq<seq<nat>>)
    requires Known(pool, ids)
    decreases |g|
  {
    if g == [] then ids == [] || TooBig(pool[ids[0]])
    else
      && 0 < |g[0]| && g[0] <= ids && Known(pool, g[0])
      && FRAME_HEADER_SIZE + WireSum(pool, g[0]) <= ETH_DATA_LEN
      && (|g[0]| < |ids| ==>
            FRAME_HEADER_SIZE + WireSum(pool, g[0]) + WireSize(pool[ids[|g[0]|]]) > ETH_DATA_LEN)
      && Greedy(pool, ids[|g[0]|..], g[1..])
  }

  lemma {:induction false} FitIs(pool: seq<Datagram>, ids: seq<nat>, used: nat)
    requires Known(pool, ids) && 2 <= used <= ETH_DATA_LEN
    ensures var k := Fit(pool, ids, used);
      && used + WireSum(pool, ids[..k]) <= ETH_DATA_LEN
      && (k < |ids| ==> used + WireSum(pool, ids[..k]) + WireSize(pool[ids[k]]) > ETH_DATA_LEN)
      && (forall i :: 0 <= i < k ==> !TooBig(pool[ids[i]]))
    decreases |ids|
  {
    var k := Fit(pool, ids, used);
    if k == 0 {
      assert ids[..0] == [];
    } else {
      FitIs(pool, ids[1..], used + WireSize(pool[ids[0]]));
      assert ids[..k][1..] == ids[1..][..k - 1];
    }
  }

  /** ec_master_send_datagrams splits greedily. */
  lemma {:induction false} GroupsAreGreedy(pool: seq<Datagram>, ids: seq<nat>)
    requires Known(pool, ids)
    ensures Greedy(pool, ids, Groups(pool, ids))
    decreases |ids|
  {
    hide WireSum, Fit;
    var k := Fit(pool, ids, FRAME_HEADER_SIZE);
    FitIs(pool, ids, FRAME_HEADER_SIZE);
    if k > 0 {
      assert Groups(pool, ids) == [ids[..k]] + Groups(pool, ids[k..]);
      GroupsAreGreedy(pool, ids[k..]);
    } else if ids != [] {
      assert ids[..0] == [];
      WireSumNone(pool);
    }
  }

  lemma WireSumNone(pool: seq<Datagram>)
    ensures WireSum(pool, []) == 0
  {
  }

  lemma {:induction false} BeforeTooBigFrom(pool: seq<Datagram>, ids: seq<nat>, k: nat)
    requires Known(pool, ids) && k <= |ids| && forall i :: 0 <= i < k ==> !TooBig(pool[ids[i]])
    ensures BeforeTooBig(pool, ids) == k + BeforeTooBig(pool, ids[k..])
    decreases k
  {
    if k > 0 {
      BeforeTooBigFrom(pool, ids[1..], k - 1);
      assert ids[1..][k - 1..] == ids[k..];
    } else {
      assert ids[0..] == ids;
    }
  }

  lemma GroupsMore(pool: seq<Datagram>, ids: seq<nat>)
    requires Known(pool, ids)
    ensures var k := Fit(pool, ids, FRAME_HEADER_SIZE);
      Groups(pool, ids) == if k == 0 then [] else [ids[..k]] + Groups(pool, ids[k..])
  {
    hide Fit;
  }

  /** If not even one datagram fits into an empty frame, there is none, or the first is too big. */
  lemma NothingBefore(pool: seq<Datagram>, ids: seq<nat>)
    requires Known(pool, ids) && Fit(pool, ids, FRAME_HEADER_SIZE) == 0
    ensures BeforeTooBig(pool, ids) == 0 && ids[..0] == []
  {
    FitIs(pool, ids, FRAME_HEADER_SIZE);
    hide Fit;
    assert ids[..0] == [];
    WireSumNone(pool);
  }

  lemma FlattenNothing()
    ensures Flatten([]) == []
  {
  }

  lemma FlattenMore(first: seq<nat>, rest: seq<seq<nat>>)
    ensures Flatten([first] + rest) == first + Flatten(rest)
  {
  }

  /** Exactly the datagrams in front of the first one that is too big are sent, in queue order. */
  lemma {:induction false} SentUpToTooBig(pool: seq<Datagram>, ids: seq<nat>)
    requires Known(pool, ids)
    ensures Flatten(Groups(pool, ids)) == ids[..BeforeTooBig(pool, ids)]
    decreases |ids|
  {
    hide WireSum, Fit, Groups, BeforeTooBig, Flatten, TooBig;
    var k := Fit(pool, ids, FRAME_HEADER_SIZE);
    FitIs(pool, ids, FRAME_HEADER_SIZE);
    GroupsMore(pool, ids);
    if k > 0 {
      SentUpToTooBig(pool, ids[k..]);
      BeforeTooBigFrom(pool, ids, k);
      FlattenMore(ids[..k], Groups(pool, ids[k..]));
      var m := BeforeTooBig(pool, ids[k..]);
      assert ids[..k + m] == ids[..k] + ids[k..][..m];
    } else {
      FlattenNothing();
      NothingBefore(pool, ids);
    }
  }

  lemma {:induction false} SlotsSize(pool: seq<Datagram>, ids: seq<nat>, serial: nat)
    requires Known(pool, ids)
    ensures TotalSize(SlotsOf(pool, ids, serial)) == WireSum(pool, ids)
    decreases |ids|
  {
    if ids == [] {
    } else {
      SlotsSize(pool, ids[1..], serial + 1);
      assert SlotsOf(pool, ids, serial)[1..] == SlotsOf(pool, ids[1..], serial + 1);
    }
  }

  lemma {:induction false} WireSumBounds(pool: seq<Datagram>, ids: seq<nat>)
    requires Known(pool, ids)
    ensures 12 * |ids| <= WireSum(pool, ids)
    ensures forall i :: 0 <= i < |ids| ==> |pool[ids[i]].data| + 12 <= WireSum(pool, ids)
    decreases |ids|
  {
    if ids == [] {
    } else {
      WireSumBounds(pool, ids[1..]);
      assert forall i :: 1 <= i < |ids| ==> ids[i] == ids[1..][i - 1];
    }
  }

  /** Every frame of a greedy split is well formed: between 46 and 1500 bytes, at most 124 datagrams, and
      therefore no index twice. */
  lemma FrameWellFormed(pool: seq<Datagram>, ids: seq<nat>, serial: nat, i: nat, j: nat)
    requires Known(pool, ids) && FRAME_HEADER_SIZE + WireSum(pool, ids) <= ETH_DATA_LEN
    ensures var s := SlotsOf(pool, ids, serial);
      && |s| <= 124 && Sendable(s) && TotalSize(s) + FRAME_HEADER_SIZE <= ETH_DATA_LEN
      && ETH_MIN_DATA <= |FrameOf(s)| <= ETH_DATA_LEN
      && (i < j < |s| ==> s[i].index != s[j].index)
  {
    hide WireSum, TotalSize, FrameOf, Index;
    var s := SlotsOf(pool, ids, serial);
    SlotsSize(pool, ids, serial);
    WireSumBounds(pool, ids);
    forall k | 0 <= k < |s| ensures |s[k].data| < 0x800 {
      assert s[k].data == pool[ids[k]].data && |pool[ids[k]].data| + 12 <= WireSum(pool, ids);
    }
    FrameSize(s);
    if i < j < |s| {
      IndexComesAgain(serial + i, j - i);
    }
  }

  lemma {:induction false} MarkedSent(q: Queue, ids: seq<nat>, now: nat, x: nat)
    requires Known(q.pool, ids) && Distinct(ids) && x < |q.pool|
    ensures var r := MarkSent(q, ids, now);
      && |r.pool| == |q.pool| && r.queue == q.queue
      && (x in ids ==> r.pool[x].state == Sent && r.pool[x].jiffiesSent == now)
      && (x !in ids ==> r.pool[x] == q.pool[x])
    decreases |ids|
  {
    if ids == [] {
    } else {
      var d := q.pool[ids[0]].(state := Sent, index := Index(q.issued), serial := q.issued, jiffiesSent := now);
      MarkedSent(q.(pool := q.pool[ids[0] := d], issued := q.issued + 1), ids[1..], now, x);
    }
  }

  lemma {:induction false} EligibleFinds(q: Queue, netdev: nat, ids: seq<nat>, x: nat)
    requires x in ids && EligibleOne(q, netdev, x)
    ensures x in Eligible(q, netdev, ids)
    decreases |ids|
  {
    if x != ids[0] {
      EligibleFinds(q, netdev, ids[1..], x);
    }
  }

  lemma EligibleOk(q: Queue, netdev: nat)
    requires Inv(q)
    ensures var e := Eligible(q, netdev, q.queue); Distinct(e) && Known(q.pool, e) && AllQueued(q, e)
  {
    hide Inv, Eligible;
    var e := Eligible(q, netdev, q.queue);
    QueueDistinct(q);
    EligibleDistinct(q, netdev, q.queue);
    forall i | 0 <= i < |e| ensures EligibleOne(q, netdev, e[i]) && !q.pool[e[i]].cleared {
      LinkedIsOk(q, e[i]);
    }
  }

  /** Sending frame after frame makes exactly the datagrams of the frames SENT. */
  lemma {:induction false} GroupsSent(q: Queue, g: seq<seq<nat>>, t: Clock, x: nat)
    requires Distinct(Flatten(g)) && AllQueued(q, Flatten(g)) && x < |q.pool|
    ensures var r := SendGroups(q, g, t);
      && |r.pool| == |q.pool| && r.queue == q.queue
      && (x in Flatten(g) ==> r.pool[x].state == Sent) && (x !in Flatten(g) ==> r.pool[x] == q.pool[x])
    decreases |g|
  {
    hide MarkSent;
    if g == [] {
    } else {
      var rest := Flatten(g[1..]);
      assert Flatten(g) == g[0] + rest;
      FrontAndRest(q, g[0], rest);
      var now := t.sentAt(q.issued);
      MarkedSent(q, g[0], now, x);
      MarkedOthers(q, g[0], now);
      GroupsSent(MarkSent(q, g[0], now), g[1..], t, x);
    }
  }

  lemma {:induction false} SendGroupsSize(q: Queue, g: seq<seq<nat>>, t: Clock)
    ensures |SendGroups(q, g, t).pool| == |q.pool|
    decreases |g|
  {
    hide MarkSent;
    if g != [] && Known(q.pool, g[0]) {
      var now := t.sentAt(q.issued);
      MarkedSize(q, g[0], now);
      SendGroupsSize(MarkSent(q, g[0], now), g[1..], t);
    }
  }

  /** After ec_master_send_datagrams a datagram of the device is still QUEUED exactly if it stands at
      or behind the first waiting datagram with more than 1486 bytes; so nothing is left over if and
      only if no waiting datagram is that big. */
  lemma NothingLeftIffNoneTooBig(q: Queue, netdev: nat, t: Clock)
    requires Inv(q)
    ensures var e := Eligible(q, netdev, q.queue);
      var r := SendDatagrams(q, netdev, t);
      && |r.pool| == |q.pool| && Known(q.pool, e)
      && (forall i :: 0 <= i < |e| ==>
            (r.pool[e[i]].state == Queued <==> i >= BeforeTooBig(q.pool, e)))
      && ((forall x :: x in q.queue && x < |q.pool| ==> !EligibleOne(r, netdev, x))
          <==> (forall i :: 0 <= i < |e| ==> !TooBig(q.pool[e[i]])))
  {
    hide Groups, Flatten, SendGroups, Eligible, Inv, BeforeTooBig;
    var e := Eligible(q, netdev, q.queue);
    var r := SendDatagrams(q, netdev, t);
    EligibleOk(q, netdev);
    SentUpToTooBig(q.pool, e);
    var k := BeforeTooBig(q.pool, e);
    var ids := e[..k];
    forall x | 0 <= x < |q.pool|
      ensures |r.pool| == |q.pool| && (x in ids ==> r.pool[x].state == Sent) && (x !in ids ==> r.pool[x] == q.pool[x])
    {
      GroupsSent(q, Groups(q.pool, e), t, x);
    }
    SendGroupsSize(q, Groups(q.pool, e), t);
    forall i | 0 <= i < |e| ensures r.pool[e[i]].state == Queued <==> i >= k {
      assert i < k ==> ids[i] == e[i];
    }
    if k == |e| {
      forall x | x in q.queue && x < |q.pool| ensures !EligibleOne(r, netdev, x) {
        if EligibleOne(q, netdev, x) {
          EligibleFinds(q, netdev, q.queue, x);
        }
      }
    } else {
      assert EligibleOne(r, netdev, e[k]) && e[k] in q.queue;
    }
  }

  lemma {:induction false} MarkedSize(q: Queue, ids: seq<nat>, now: nat)
    requires Known(q.pool, ids)
    ensures |MarkSent(q, ids, now).pool| == |q.pool|
    decreases |ids|
  {
    if ids == [] {
    } else {
      var d := q.pool[ids[0]].(state := Sent, index := Index(q.issued), serial := q.issued, jiffiesSent := now);
      MarkedSize(q.(pool := q.pool[ids[0] := d], issued := q.issued + 1), ids[1..], now);
    }
  }

  // ----- a frame that comes back -----

  /** What the slaves may change in a frame: addresses, interrupt fields, data and working counters. */
  ghost predicate Returned(sent: seq<Slot>, back: seq<Slot>) {
    |sent| == |back| && forall i :: 0 <= i < |sent| ==>
      back[i].dtype == sent[i].dtype && back[i].index == sent[i].index && |back[i].data| == |sent[i].data|
  }

  /** The datagrams `ids` are on their way with the headers of the frame `s`, and nobody else's
      header could be taken for theirs. */
  ghost predicate OnTheWay(q: Queue, ids: seq<nat>, s: seq<Slot>) {
    && |ids| == |s| && Known(q.pool, ids) && Distinct(ids)
    && forall i :: 0 <= i < |ids| ==>
      && ids[i] in q.queue && Answers(q.pool[ids[i]], ReplyOf(s[i]))
      && forall x :: 0 <= x < |q.pool| && OnWire(q.pool[x]) && q.pool[x].index == s[i].index ==> x == ids[i]
  }

  /** All of `ids` have been answered by `s`, everything else is as before. */
  ghost predicate AllAnswered(q: Queue, r: Queue, ids: seq<nat>, s: seq<Slot>, now: nat)
    requires |ids| == |s| && Known(q.pool, ids)
  {
    && |r.pool| == |q.pool|
    && (forall i :: 0 <= i < |ids| ==> r.pool[ids[i]] == Answered(q.pool[ids[i]], ReplyOf(s[i]), now))
    && (forall x :: 0 <= x < |q.pool| && x !in ids ==> r.pool[x] == q.pool[x])
    && (forall x :: x in r.queue <==> x in q.queue && x !in ids)
    && r.unmatched == q.unmatched && r.corrupted == q.corrupted && r.issued == q.issued
  }

  /** Each of `ids` has got counter and data of its image. */
  ghost predicate AllBrought(q: Queue, r: Queue, ids: seq<nat>, s: seq<Slot>, now: nat)
    requires |ids| == |s| && Known(q.pool, ids)
  {
    |r.pool| == |q.pool| && forall i :: 0 <= i < |ids| ==> Brought(q.pool[ids[i]], r.pool[ids[i]], s[i], now)
  }

  lemma AnsweredBrings(q: Queue, r: Queue, ids: seq<nat>, s: seq<Slot>, now: nat)
    requires |ids| == |s| && Known(q.pool, ids) && AllAnswered(q, r, ids, s, now)
    ensures AllBrought(q, r, ids, s, now)
  {
    hide Answered, Brought;
    forall i | 0 <= i < |ids| ensures Brought(q.pool[ids[i]], r.pool[ids[i]], s[i], now) {
      AnsweredIsBrought(q.pool[ids[i]], s[i], now);
    }
  }

  lemma FirstAnswered(q: Queue, ids: seq<nat>, s: seq<Slot>, now: nat)
    requires Inv(q) && OnTheWay(q, ids, s) && ids != []
    ensures ReceiveOne(q, ReplyOf(s[0]), now) == Complete(q, ids[0], ReplyOf(s[0]), now)
    ensures OnTheWay(Complete(q, ids[0], ReplyOf(s[0]), now), ids[1..], s[1..])
  {
    var m := FindMatch(q.pool, q.queue, ReplyOf(s[0]));
    forall x | x in q.queue ensures x < |q.pool| && !q.pool[x].cleared {
      LinkedIsOk(q, x);
    }
    assert m.Some? by {
      var k :| 0 <= k < |q.queue| && q.queue[k] == ids[0];
    }
    assert m.value == ids[0];
    var r := Complete(q, ids[0], ReplyOf(s[0]), now);
    forall i | 0 <= i < |ids[1..]|
      ensures ids[1..][i] in r.queue && Answers(r.pool[ids[1..][i]], ReplyOf(s[1..][i]))
      ensures forall x :: 0 <= x < |r.pool| && OnWire(r.pool[x]) && r.pool[x].index == s[1..][i].index ==>
        x == ids[1..][i]
    {
      assert ids[i + 1] != ids[0] && s[1..][i] == s[i + 1];
    }
  }

  lemma {:induction false} AllComplete(q: Queue, ids: seq<nat>, s: seq<Slot>, now: nat)
    requires Inv(q) && OnTheWay(q, ids, s)
    ensures AllAnswered(q, ReceiveAll(q, Replies(s), now), ids, s, now)
    decreases |ids|
  {
    OnTheWaySize(q, ids, s);
    hide Inv, OnTheWay, ReceiveOne, AllAnswered, Distinct, Complete;
    if ids == [] {
      NobodyAnswered(q, now);
    } else {
      var r := ReceiveOne(q, ReplyOf(s[0]), now);
      ReceiveOneKeeps(q, ReplyOf(s[0]), now);
      FirstAnswered(q, ids, s, now);
      OnTheWaySize(r, ids[1..], s[1..]);
      assert Replies(s)[1..] == Replies(s[1..]);
      AllComplete(r, ids[1..], s[1..], now);
      AnsweredMore(q, r, ReceiveAll(q, Replies(s), now), ids, s, now);
    }
  }

  lemma NobodyAnswered(q: Queue, now: nat)
    ensures AllAnswered(q, ReceiveAll(q, Replies([]), now), [], [], now)
  {
  }

  /** First the datagram `ids[0]` is completed, and then the others. */
  lemma AnsweredMore(q: Queue, r: Queue, t: Queue, ids: seq<nat>, s: seq<Slot>, now: nat)
    requires |ids| == |s| > 0 && Known(q.pool, ids) && Known(r.pool, ids[1..]) && Distinct(ids)
    requires r == Complete(q, ids[0], ReplyOf(s[0]), now) && AllAnswered(r, t, ids[1..], s[1..], now)
    ensures AllAnswered(q, t, ids, s, now)
  {
    hide Answered, Without;
    var id, a := ids[0], Answered(q.pool[ids[0]], ReplyOf(s[0]), now);
    assert r.pool == q.pool[id := a];
    assert forall x :: x in ids <==> x == id || x in ids[1..];
    assert id !in ids[1..];
    forall i | 0 <= i < |ids| ensures t.pool[ids[i]] == Answered(q.pool[ids[i]], ReplyOf(s[i]), now) {
      if i > 0 {
        assert ids[i] == ids[1..][i - 1] && s[i] == s[1..][i - 1] && ids[i] != id;
      }
    }
  }

  lemma OnTheWaySize(q: Queue, ids: seq<nat>, s: seq<Slot>)
    requires OnTheWay(q, ids, s)
    ensures |ids| == |s| && Known(q.pool, ids) && Distinct(ids)
  {
  }

  lemma ReturnedOnTheWay(q: Queue, ids: seq<nat>, sent: seq<Slot>, back: seq<Slot>)
    requires OnTheWay(q, ids, sent) && Returned(sent, back)
    ensures OnTheWay(q, ids, back)
  {
  }

  /** The bytes of a frame, if it is one. */
  ghost function FrameBytes(s: seq<Slot>): seq<byte> {
    if Sendable(s) && TotalSize(s) < 0x800 then FrameOf(s) else []
  }

  lemma {:induction false} ReturnedSize(sent: seq<Slot>, back: seq<Slot>)
    requires Returned(sent, back)
    ensures Sendable(sent) ==> Sendable(back)
    ensures TotalSize(back) == TotalSize(sent)
    decreases |sent|
  {
    if sent == [] {
    } else {
      assert Returned(sent[1..], back[1..]);
      ReturnedSize(sent[1..], back[1..]);
    }
  }

  /** Round trip of a frame: if the wire changes only what slaves may change, and nobody else on his way
      could be confused with the datagrams of the frame, ec_master_receive_datagrams completes exactly
      these, each with its own data and working counter, and leaves all others alone. */
  lemma FrameRoundTrip(q: Queue, ids: seq<nat>, sent: seq<Slot>, back: seq<Slot>, buffer: seq<byte>, now: nat)
    requires Inv(q) && ids != [] && OnTheWay(q, ids, sent) && Returned(sent, back)
    requires Sendable(sent) && TotalSize(sent) + FRAME_HEADER_SIZE <= ETH_DATA_LEN
    requires |FrameBytes(back)| + DATAGRAM_HEADER_SIZE <= |buffer| && buffer[..|FrameBytes(back)|] == FrameBytes(back)
    ensures |ids| == |back| && Known(q.pool, ids)
    ensures AllAnswered(q, Receive(q, buffer, |FrameBytes(back)|, now), ids, back, now)
    ensures AllBrought(q, Receive(q, buffer, |FrameBytes(back)|, now), ids, back, now)
  {
    hide Inv, OnTheWay, FrameOf, ParseFrame, ReceiveAll, AllAnswered, TotalSize, AllBrought;
    ReturnedSize(sent, back);
    OnTheWaySize(q, ids, sent);
    ReturnedOnTheWay(q, ids, sent, back);
    OnTheWaySize(q, ids, back);
    ParseBuilt(back, buffer);
    AllComplete(q, ids, back, now);
    AnsweredBrings(q, Receive(q, buffer, |FrameBytes(back)|, now), ids, back, now);
  }

  lemma {:induction false} MarkedIndex(q: Queue, ids: seq<nat>, now: nat, i: nat)
    requires Known(q.pool, ids) && Distinct(ids) && i < |ids|
    ensures var r := MarkSent(q, ids, now);
      |r.pool| == |q.pool| &&
      r.pool[ids[i]] == q.pool[ids[i]].(state := Sent, index := Index(q.issued + i), serial := q.issued + i,
                                        jiffiesSent := now)
    decreases |ids|
  {
    var d := q.pool[ids[0]].(state := Sent, index := Index(q.issued), serial := q.issued, jiffiesSent := now);
    var r := q.(pool := q.pool[ids[0] := d], issued := q.issued + 1);
    assert Known(r.pool, ids[1..]) && Distinct(ids[1..]);
    if i == 0 {
      MarkedSent(r, ids[1..], now, ids[0]);
    } else {
      MarkedIndex(r, ids[1..], now, i - 1);
    }
  }

  /** A frame that has just been sent is on its way with its own headers, and cannot be confused
      with older datagrams that have been overtaken by at most 255 indices. */
  lemma JustSent(q: Queue, ids: seq<nat>, now: nat)
    requires Inv(q) && Distinct(ids) && AllQueued(q, ids) && Recent(MarkSent(q, ids, now))
    ensures Inv(MarkSent(q, ids, now))
    ensures OnTheWay(MarkSent(q, ids, now), ids, SlotsOf(q.pool, ids, q.issued))
  {
    hide Inv, MarkSent, Index, Recent;
    var r := MarkSent(q, ids, now);
    var s := SlotsOf(q.pool, ids, q.issued);
    MarkSentKeeps(q, ids, now);
    MarkedSize(q, ids, now);
    forall i | 0 <= i < |ids|
      ensures ids[i] in r.queue && Answers(r.pool[ids[i]], ReplyOf(s[i]))
      ensures forall x :: 0 <= x < |r.pool| && OnWire(r.pool[x]) && r.pool[x].index == s[i].index ==> x == ids[i]
    {
      MarkedIndex(q, ids, now, i);
      SentIsLinked(r, ids[i]);
      forall x | 0 <= x < |r.pool| && OnWire(r.pool[x]) && r.pool[x].index == s[i].index ensures x == ids[i] {
        if x != ids[i] {
          IndicesDiffer(r, x, ids[i]);
        }
      }
    }
  }

  lemma SentIsLinked(q: Queue, x: nat)
    requires Inv(q) && x < |q.pool| && OnWire(q.pool[x])
    ensures x in q.queue
  {
    assert DatagramOk(q.pool[x], x in q.queue, q.issued);
  }

  /** There and back: a group of waiting datagrams is sent in one frame, the wire changes what slaves
      may change, and receiving the frame completes exactly this group. */
  lemma SendThenReceive(q: Queue, ids: seq<nat>, back: seq<Slot>, buffer: seq<byte>, sentAt: nat, now: nat)
    requires Inv(q) && ids != [] && Distinct(ids) && AllQueued(q, ids) && Recent(MarkSent(q, ids, sentAt))
    requires FRAME_HEADER_SIZE + WireSum(q.pool, ids) <= ETH_DATA_LEN
    requires Returned(SlotsOf(q.pool, ids, q.issued), back)
    requires |FrameBytes(back)| + DATAGRAM_HEADER_SIZE <= |buffer| && buffer[..|FrameBytes(back)|] == FrameBytes(back)
    ensures var r := MarkSent(q, ids, sentAt);
      |ids| == |back| && Known(r.pool, ids)
      && AllAnswered(r, Receive(r, buffer, |FrameBytes(back)|, now), ids, back, now)
      && AllBrought(r, Receive(r, buffer, |FrameBytes(back)|, now), ids, back, now)
  {
    hide Inv, MarkSent, FrameBytes, WireSum, TotalSize, Receive, AllAnswered, Recent, AllBrought;
    FrameWellFormed(q.pool, ids, q.issued, 0, 0);
    JustSent(q, ids, sentAt);
    FrameRoundTrip(MarkSent(q, ids, sentAt), ids, SlotsOf(q.pool, ids, q.issued), back, buffer, now);
  }
}
