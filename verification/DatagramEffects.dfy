/** What one call does to one datagram, said in the terms of the protocol (src/ec_master.c:28-36, 51-137, 195-226,
    250-277 and 645-662): who is sent and in which order, which reply belongs to whom, who is given up and who is not.
    */
module DatagramEffects {
  import opened Words
  import opened ErrorCodes
  import opened FrameCodec
  import opened DatagramQueue
  import opened DatagramRuns
  import opened FrameTraffic
  import opened DatagramProgress
  import QueueMaster

  // ----- timing out -----

  /** A datagram on its way is given up by the first loop of ec_master_send after more than 50 ms, and not before. */
  lemma TimeoutIff(q: Queue, t: Clock, x: nat)
    requires Inv(q) && x < |q.pool| && x in q.queue && q.pool[x].state == Sent
    ensures var r := TimeoutPass(q, t);
      |r.pool| == |q.pool| &&
      if (t.checked(x) - q.pool[x].jiffiesSent) % 0x1_0000_0000_0000_0000 <= 50_000_000
      then x in r.queue && r.pool[x] == q.pool[x]
      else x !in r.queue && r.pool[x].state == TimedOut && !r.pool[x].waiter
  {
    hide Inv, TimeoutPass, AllOverdue, Without;
    TimeoutSame(q, t, x);
    WithoutKeeps(q.queue, AllOverdue(q, t), x);
    TimeoutKeeps(q, t);
    assert Moved(q, TimeoutPass(q, t), x);
  }

  /** Who waits to be sent is not given up. */
  lemma QueuedIsNotTimedOut(q: Queue, t: Clock, x: nat)
    requires Inv(q) && x < |q.pool| && x in q.queue && q.pool[x].state == Queued
    ensures var r := TimeoutPass(q, t); |r.pool| == |q.pool| && x in r.queue && r.pool[x] == q.pool[x]
  {
    hide Inv, TimeoutPass, AllOverdue, Without;
    TimeoutSame(q, t, x);
    WithoutKeeps(q.queue, AllOverdue(q, t), x);
  }

  lemma {:induction false} PassesSpare(q: Queue, links: seq<bool>, netdev: nat, t: Clock, x: nat)
    requires Inv(q) && netdev <= |links| && x < |q.pool| && x in q.queue && q.pool[x].state == Sent
    requires q.pool[x].netdev < |links| ==> links[q.pool[x].netdev]
    ensures var r := SendFrom(q, links, netdev, t); |r.pool| == |q.pool| && x in r.queue && r.pool[x] == q.pool[x]
    decreases |links| - netdev
  {
    hide Inv, Moves, SendDatagrams, LinkDownPass, Eligible, BeforeWaiting;
    if netdev == |links| {
    } else {
      if links[netdev] {
        SendDatagramsKeeps(q, netdev, t);
        SentOrSame(q, netdev, t, x);
        EligibleWaits(q, netdev, x);
      } else {
        LinkDownKeeps(q, netdev);
        LinkDownSame(q, netdev, x);
      }
      PassesSpare(Pass(q, links[netdev], netdev, t), links, netdev + 1, t, x);
    }
  }

  lemma EligibleWaits(q: Queue, netdev: nat, x: nat)
    ensures x in Eligible(q, netdev, q.queue) ==> EligibleOne(q, netdev, x)
  {
  }

  /** A whole call of ec_master_send leaves a datagram alone that has been on its way for at most 50 ms, if its device
      has a link. */
  lemma StaysOnItsWay(q: Queue, links: seq<bool>, t: Clock, x: nat)
    requires Inv(q) && x < |q.pool| && x in q.queue && q.pool[x].state == Sent
    requires (t.checked(x) - q.pool[x].jiffiesSent) % 0x1_0000_0000_0000_0000 <= 50_000_000
    requires q.pool[x].netdev < |links| ==> links[q.pool[x].netdev]
    ensures var r := Send(q, links, t); |r.pool| == |q.pool| && x in r.queue && r.pool[x] == q.pool[x]
  {
    hide Inv, TimeoutPass, SendFrom;
    TimeoutIff(q, t, x);
    TimeoutKeeps(q, t);
    PassesSpare(TimeoutPass(q, t), links, 0, t, x);
  }

  // ----- sending -----

  lemma {:induction false} EligibleJoins(q: Queue, netdev: nat, a: seq<nat>, b: seq<nat>)
    ensures Eligible(q, netdev, a + b) == Eligible(q, netdev, a) + Eligible(q, netdev, b)
    decreases |a|
  {
    hide EligibleOne, Eligible;
    var behind := Eligible(q, netdev, b);
    if a == [] {
      assert a + b == b && [] + behind == behind;
      NobodyEligible(q, netdev);
    } else {
      var rest := Eligible(q, netdev, a[1..]);
      assert (a + b)[0] == a[0] && (a + b)[1..] == a[1..] + b;
      EligibleJoins(q, netdev, a[1..], b);
      EligibleMore(q, netdev, a + b);
      EligibleMore(q, netdev, a);
      Associative([a[0]], rest, behind);
    }
  }

  lemma Associative(a: seq<nat>, b: seq<nat>, c: seq<nat>)
    ensures a + (b + c) == a + b + c
  {
  }

  lemma NobodyEligible(q: Queue, netdev: nat)
    ensures Eligible(q, netdev, []) == []
  {
  }

  /** The datagrams that wait for a device, in the order in which they were queued: this says for which they are, and
      that nothing is exchanged. */
  lemma EligibleIs(q: Queue, netdev: nat, a: seq<nat>, b: seq<nat>, x: nat)
    ensures x in Eligible(q, netdev, a) <==> x in a && WaitsFor(q, netdev, x)
    ensures Eligible(q, netdev, a + b) == Eligible(q, netdev, a) + Eligible(q, netdev, b)
    ensures |Eligible(q, netdev, [x])| <= 1
  {
    if x in a && WaitsFor(q, netdev, x) {
      EligibleFinds(q, netdev, a, x);
    }
    EligibleMore(q, netdev, [x]);
    NobodyEligible(q, netdev);
    hide Eligible;
    EligibleJoins(q, netdev, a, b);
  }

  /** Who is sent by ec_master_send_datagrams: a datagram that waits for this device if it has at most 1486 bytes, and
      so has every one that waits for the device in front of it. All others are left as they are. */
  lemma SentExactly(q: Queue, netdev: nat, t: Clock, k: nat)
    requires Inv(q) && k < |q.queue|
    ensures var x, r := q.queue[k], SendDatagrams(q, netdev, t);
      && x < |q.pool| == |r.pool| && r.queue == q.queue
      && var sent := WaitsFor(q, netdev, x) && forall j :: 0 <= j <= k && WaitsFor(q, netdev, q.queue[j]) ==>
           |q.pool[q.queue[j]].data| <= 1486;
      if sent then r.pool[x].state == Sent else r.pool[x] == q.pool[x]
  {
    var x := q.queue[k];
    LinkedIsOk(q, x);
    hide Inv, Eligible, SendDatagrams, BeforeTooBig;
    SentOrSame(q, netdev, t, x);
    SplitAt(q.queue, k);
    EligibleIs(q, netdev, q.queue[..k], q.queue[k..], x);
    InFrontOf(q, netdev, k);
  }

  predicate WaitsFor(q: Queue, netdev: nat, x: nat) {
    x < |q.pool| && q.pool[x].state == Queued && q.pool[x].netdev == netdev
  }

  lemma SplitAt(s: seq<nat>, k: nat)
    requires k < |s|
    ensures s[..k] + s[k..] == s && s[k..] == [s[k]] + s[k + 1..]
  {
  }

  /** The sent prefix, position by position. */
  lemma InFrontOf(q: Queue, netdev: nat, k: nat)
    requires Inv(q) && k < |q.queue|
    ensures var x := q.queue[k];
      x in Eligible(q, netdev, q.queue)[..BeforeWaiting(q, netdev)] <==>
      WaitsFor(q, netdev, x) && forall j :: 0 <= j <= k && WaitsFor(q, netdev, q.queue[j]) ==>
        |q.pool[q.queue[j]].data| <= 1486
  {
    QueueDistinct(q);
    hide Inv;
    PrefixIs(q, netdev, q.queue, k);
  }

  lemma DistinctRest(s: seq<nat>, k: nat)
    requires Distinct(s) && 0 < k < |s|
    ensures Distinct(s[1..]) && s[k] != s[0]
  {
    assert forall i :: 0 <= i < |s[1..]| ==> s[1..][i] == s[i + 1];
  }

  /** Nothing that waits in `s` up to position `k` is too big for a frame. */
  predicate AllFit(q: Queue, netdev: nat, s: seq<nat>, k: nat)
    requires k < |s|
  {
    forall j :: 0 <= j <= k && WaitsFor(q, netdev, s[j]) ==> |q.pool[s[j]].data| <= 1486
  }

  lemma FirstFits(q: Queue, netdev: nat, s: seq<nat>)
    requires s != []
    ensures AllFit(q, netdev, s, 0) <==> (WaitsFor(q, netdev, s[0]) ==> |q.pool[s[0]].data| <= 1486)
  {
  }

  lemma AllFitMore(q: Queue, netdev: nat, s: seq<nat>, k: nat)
    requires 0 < k < |s|
    ensures AllFit(q, netdev, s, k) <==>
      (WaitsFor(q, netdev, s[0]) ==> |q.pool[s[0]].data| <= 1486) && AllFit(q, netdev, s[1..], k - 1)
  {
    assert forall j :: 1 <= j <= k ==> s[j] == s[1..][j - 1];
    if AllFit(q, netdev, s[1..], k - 1) && (WaitsFor(q, netdev, s[0]) ==> |q.pool[s[0]].data| <= 1486) {
      forall j | 0 <= j <= k && WaitsFor(q, netdev, s[j]) ensures |q.pool[s[j]].data| <= 1486 {
        assert j > 0 ==> WaitsFor(q, netdev, s[1..][j - 1]);
      }
    }
    if AllFit(q, netdev, s, k) {
      forall j | 0 <= j <= k - 1 && WaitsFor(q, netdev, s[1..][j]) ensures |q.pool[s[1..][j]].data| <= 1486 {
        assert s[1..][j] == s[j + 1];
      }
    }
  }

  /** Of the datagrams `s`, `x` waits in front of any that is too big. */
  ghost predicate InPrefix(q: Queue, netdev: nat, s: seq<nat>, x: nat) {
    var e := Eligible(q, netdev, s);
    Known(q.pool, e) && x in e[..BeforeTooBig(q.pool, e)]
  }

  lemma PrefixStep(q: Queue, netdev: nat, s: seq<nat>, x: nat)
    requires s != []
    ensures InPrefix(q, netdev, s, x) <==>
      if WaitsFor(q, netdev, s[0]) then |q.pool[s[0]].data| <= 1486 && (x == s[0] || InPrefix(q, netdev, s[1..], x))
      else InPrefix(q, netdev, s[1..], x)
  {
    var rest := Eligible(q, netdev, s[1..]);
    assert Known(q.pool, rest);
    hide Eligible;
    EligibleMore(q, netdev, s);
    if WaitsFor(q, netdev, s[0]) {
      if TooBig(q.pool[s[0]]) {
        assert ([s[0]] + rest)[..0] == [];
      } else {
        OneMoreBefore(q.pool, s[0], rest);
      }
    }
  }

  lemma PrefixWaits(q: Queue, netdev: nat, s: seq<nat>, x: nat)
    requires InPrefix(q, netdev, s, x)
    ensures WaitsFor(q, netdev, x)
  {
  }

  lemma {:induction false} PrefixIs(q: Queue, netdev: nat, s: seq<nat>, k: nat)
    requires Distinct(s) && k < |s|
    ensures InPrefix(q, netdev, s, s[k]) <==> WaitsFor(q, netdev, s[k]) && AllFit(q, netdev, s, k)
    decreases |s|
  {
    hide InPrefix, Distinct, AllFit;
    PrefixStep(q, netdev, s, s[k]);
    if InPrefix(q, netdev, s[1..], s[k]) {
      PrefixWaits(q, netdev, s[1..], s[k]);
    }
    if k == 0 {
      FirstFits(q, netdev, s);
    } else {
      DistinctRest(s, k);
      PrefixIs(q, netdev, s[1..], k - 1);
      AllFitMore(q, netdev, s, k);
    }
  }

  // ----- receiving -----

  /** A reply is for a datagram that is SENT and has its index, type and size. */
  predicate IsFor(r: Reply, d: Datagram) {
    d.state == Sent && d.index == r.index && d.dtype == r.dtype && |d.data| == |r.data|
  }

  /** The `k`-th of `ids` is the first that the reply is for. */
  ghost predicate FirstFor(pool: seq<Datagram>, ids: seq<nat>, r: Reply, k: nat)
    requires Known(pool, ids)
  {
    k < |ids| && IsFor(r, pool[ids[k]]) && forall i :: 0 <= i < k ==> !IsFor(r, pool[ids[i]])
  }

  /** The search finds the first linked datagram that the reply is for, and none exactly if there is none. */
  lemma {:induction false} MatchIs(pool: seq<Datagram>, ids: seq<nat>, r: Reply)
    requires Known(pool, ids)
    ensures var m := FindMatch(pool, ids, r);
      if m.None? then forall i :: 0 <= i < |ids| ==> !IsFor(r, pool[ids[i]])
      else exists k: nat :: FirstFor(pool, ids, r, k) && ids[k] == m.value
    decreases |ids|
  {
    if ids == [] {
    } else if IsFor(r, pool[ids[0]]) {
      assert FirstFor(pool, ids, r, 0);
    } else {
      MatchIs(pool, ids[1..], r);
      assert forall i :: 1 <= i < |ids| ==> ids[i] == ids[1..][i - 1];
      var m := FindMatch(pool, ids[1..], r);
      if m.Some? {
        var k: nat :| FirstFor(pool, ids[1..], r, k) && ids[1..][k] == m.value;
        assert FirstFor(pool, ids, r, k + 1);
      }
    }
  }

  /** One reply: a datagram that it is not for stays as it is; if it is for one, the first such in the queue is
      completed by it. */
  lemma ReplyCompletes(q: Queue, r: Reply, now: nat, x: nat)
    requires Inv(q) && x < |q.pool|
    ensures var t := ReceiveOne(q, r, now);
      && |t.pool| == |q.pool|
      && (t.pool[x] != q.pool[x] || (x in q.queue && x !in t.queue) ==>
          x in q.queue && IsFor(r, q.pool[x]) && x !in t.queue)
      && (x in q.queue && IsFor(r, q.pool[x]) && (forall y :: y in q.queue && IsFor(r, q.pool[y]) ==> y == x) ==>
            x !in t.queue && Brought(q.pool[x], t.pool[x], Slot(r.dtype, r.index, [0, 0, 0, 0], [0, 0], r.data, r.wc),
                                     now))
  {
    assert Known(q.pool, q.queue);
    hide Inv, Brought, Answered;
    MatchIs(q.pool, q.queue, r);
    var m := FindMatch(q.pool, q.queue, r);
    var s := Slot(r.dtype, r.index, [0, 0, 0, 0], [0, 0], r.data, r.wc);
    AnsweredIsBrought(q.pool[x], s, now);
    assert ReplyOf(s) == r;
  }

  // ----- a device without a link -----

  /** The loop for a device whose link is down drops everything that is linked for this device, and nothing else. */
  lemma LinkDownIff(q: Queue, netdev: nat, x: nat)
    requires Inv(q) && x < |q.pool| && x in q.queue
    ensures var r := LinkDownPass(q, netdev);
      |r.pool| == |q.pool| &&
      if q.pool[x].netdev == netdev then x !in r.queue && r.pool[x].state == Error && !r.pool[x].waiter
      else x in r.queue && r.pool[x] == q.pool[x]
  {
    hide Inv, Moves, LinkDownPass;
    LinkDownSame(q, netdev, x);
    LinkDownKeeps(q, netdev);
    LeavingIsError(q, netdev, x);
    assert x !in LinkDownPass(q, netdev).queue ==> !LinkDownPass(q, netdev).pool[x].waiter by {
      Signalled(q, LinkDownPass(q, netdev), x);
    }
  }

  lemma Signalled(q: Queue, r: Queue, x: nat)
    requires Moves(q, r) && x < |q.pool|
    ensures |r.pool| == |q.pool| && Moved(q, r, x)
  {
  }

  lemma {:induction false} PassesDrop(q: Queue, links: seq<bool>, netdev: nat, t: Clock, x: nat)
    requires Inv(q) && x < |q.pool| && x in q.queue
    requires netdev <= q.pool[x].netdev < |links| && !links[q.pool[x].netdev]
    ensures var r := SendFrom(q, links, netdev, t);
      |r.pool| == |q.pool| && x !in r.queue && r.pool[x].state == Error && !r.pool[x].waiter
    decreases |links| - netdev
  {
    hide Inv, Moves, SendDatagrams, LinkDownPass, Eligible, BeforeWaiting;
    var r := Pass(q, links[netdev], netdev, t);
    if links[netdev] {
      SendDatagramsKeeps(q, netdev, t);
      SentOrSame(q, netdev, t, x);
      EligibleWaits(q, netdev, x);
    } else {
      LinkDownKeeps(q, netdev);
      LinkDownIff(q, netdev, x);
    }
    if netdev == q.pool[x].netdev {
      SendFromKeeps(r, links, netdev + 1, t);
      Signalled(r, SendFrom(r, links, netdev + 1, t), x);
    } else {
      PassesDrop(r, links, netdev + 1, t, x);
    }
  }

  /** A whole call of ec_master_send: whatever is linked for a device without a link and is not given up as too old
      leaves with an I/O error, whether it waits or is on its way. */
  lemma LosesItsDatagrams(q: Queue, links: seq<bool>, t: Clock, x: nat)
    requires Inv(q) && x < |q.pool| && x in q.queue
    requires q.pool[x].netdev < |links| && !links[q.pool[x].netdev]
    ensures var r := Send(q, links, t);
      && |r.pool| == |q.pool| && x !in r.queue && !r.pool[x].waiter
      && r.pool[x].state == if q.pool[x].state == Sent &&
            (t.checked(x) - q.pool[x].jiffiesSent) % 0x1_0000_0000_0000_0000 > 50_000_000 then TimedOut else Error
  {
    LinkedIsOk(q, x);
    hide Inv, Moves, TimeoutPass, SendFrom;
    var m := TimeoutPass(q, t);
    TimeoutKeeps(q, t);
    if q.pool[x].state == Sent {
      TimeoutIff(q, t, x);
    } else {
      QueuedIsNotTimedOut(q, t, x);
    }
    if x in m.queue {
      PassesDrop(m, links, 0, t, x);
    } else {
      SendFromKeeps(m, links, 0, t);
      Signalled(m, SendFrom(m, links, 0, t), x);
    }
  }

  // ----- the counters -----

  lemma {:induction false} WithoutCounts(s: seq<nat>, gone: set<nat>)
    requires Distinct(s) && forall x :: x in gone ==> x in s
    ensures |Without(s, gone)| == |s| - |gone|
    decreases |s|
  {
    if s == [] {
      assert gone == {};
    } else {
      var rest := gone - {s[0]};
      assert forall x :: x in s[1..] ==> x != s[0];
      WithoutCounts(s[1..], rest);
      WithoutTail(s, gone);
    }
  }

  lemma WithoutTail(s: seq<nat>, gone: set<nat>)
    requires Distinct(s) && s != []
    ensures Without(s[1..], gone) == Without(s[1..], gone - {s[0]})
  {
    QueueMaster.WithoutUnused(s[1..], gone - {s[0]}, s[0]);
    assert s[0] in gone ==> gone - {s[0]} + {s[0]} == gone;
    assert s[0] !in gone ==> gone - {s[0]} == gone;
  }

  /** Every datagram that is given up is counted. */
  lemma TimeoutsCount(q: Queue, t: Clock)
    requires Inv(q)
    ensures var r := TimeoutPass(q, t); r.timeouts - q.timeouts == |q.queue| - |r.queue|
  {
    QueueDistinct(q);
    hide Inv, Overdue, Without;
    WithoutCounts(q.queue, AllOverdue(q, t));
  }

  /** Every reply is accounted for: it completes one datagram or counts as unmatched. */
  lemma {:induction false} RepliesCount(q: Queue, rs: seq<Reply>, now: nat)
    requires Inv(q)
    ensures var r := ReceiveAll(q, rs, now); |rs| == (|q.queue| - |r.queue|) + (r.unmatched - q.unmatched)
    decreases |rs|
  {
    if rs == [] {
    } else {
      QueueDistinct(q);
      ReceiveOneKeeps(q, rs[0], now);
      var m := FindMatch(q.pool, q.queue, rs[0]);
      if m.Some? {
        WithoutCounts(q.queue, {m.value});
      }
      RepliesCount(ReceiveOne(q, rs[0], now), rs[1..], now);
    }
  }

  // ----- the owner -----

  /** Filling an unlinked datagram and queueing it with or without a waiter: it waits at the end of the queue with what
      was filled in and a counter of zero, and nothing else changes. */
  lemma FilledAndQueued(q: Queue, id: nat, dtype: byte, address: Address, data: seq<byte>, waiter: bool)
    requires Inv(q) && id < |q.pool| && id !in q.queue && q.pool[id].signals == 0
    ensures var steps := [DoFill(id, dtype, address, data), DoQueueExt(id, waiter)];
      && AllEnabled(q, steps)
      && var r, d := Run(q, steps), q.pool[id];
      && r == q.(pool := r.pool, queue := q.queue + [id])
      && r.pool == q.pool[id := Datagram(d.netdev, dtype, address, data, 0, 0, Queued, d.jiffiesSent, d.jiffiesReceived,
                                         waiter, 0, d.serial, false)]
  {
    hide Inv, Apply;
    var fill, ask := DoFill(id, dtype, address, data), DoQueueExt(id, waiter);
    var filled := q.(pool := q.pool[id := Fill(q.pool[id], dtype, address, data)]);
    OwnerApplies(q, fill, id);
    OwnerApplies(filled, ask, id);
    TwoSteps(q, fill, ask);
    var asked := filled.(pool := filled.pool[id := filled.pool[id].(waiter := waiter)]);
    assert asked.pool == q.pool[id := asked.pool[id]];
  }

  lemma TwoSteps(q: Queue, a: Step, b: Step)
    requires Enabled(q, a) && Enabled(Apply(q, a), b)
    ensures AllEnabled(q, [a, b]) && Run(q, [a, b]) == Apply(Apply(q, a), b)
  {
    hide Apply, Enabled;
    var r := Apply(Apply(q, a), b);
    assert [a, b][1..] == [b] && [b][1..] == [];
    assert AllEnabled(r, []) && Run(r, []) == r;
    assert AllEnabled(Apply(q, a), [b]) && Run(Apply(q, a), [b]) == r;
  }

  lemma OwnerApplies(q: Queue, s: Step, id: nat)
    requires id < |q.pool| && Enabled(q, s)
    ensures s.DoFill? && s.id == id ==>
      Apply(q, s) == q.(pool := q.pool[id := Fill(q.pool[id], s.dtype, s.address, s.data)])
    ensures s.DoQueueExt? && s.id == id ==> Apply(q, s) == QueueExt(q, id, s.waiter)
  {
    hide Fill, QueueExt;
  }

  /** Clearing a datagram that waits takes it out of the queue, and changes neither its state nor its contents. */
  lemma ClearedAgain(q: Queue, id: nat)
    requires id < |q.pool| && id !in q.queue
    ensures Clear(q.(queue := q.queue + [id]), id) == q.(pool := q.pool[id := q.pool[id].(cleared := true)])
  {
    WithoutLast(q.queue, id);
  }

  lemma {:induction false} WithoutLast(s: seq<nat>, x: nat)
    requires x !in s
    ensures Without(s + [x], {x}) == s
    decreases |s|
  {
    if s == [] {
      assert s + [x] == [x];
    } else {
      assert (s + [x])[1..] == s[1..] + [x];
      WithoutLast(s[1..], x);
    }
  }

  // ----- the result -----

  /** What the waiter is told: 0 for a datagram that came back and was processed by somebody, a working counter error
      for one that nobody processed, a time-out, or an I/O error. */
  lemma ResultIs(d: Datagram)
    requires Final(d.state)
    ensures d.state == Received && d.wc > 0 <==> ResultOf(d) == 0
    ensures d.state == Received && d.wc == 0 <==> ResultOf(d) == -6
    ensures d.state == TimedOut <==> ResultOf(d) == -3
    ensures d.state == Error <==> ResultOf(d) == -5
  {
  }
}
