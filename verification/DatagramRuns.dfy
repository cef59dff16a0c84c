/** What holds over every run of the datagram queue. */
module DatagramRuns {
  import opened Words
  import opened ErrorCodes
  import opened FrameCodec
  import opened DatagramQueue

  /** What sending, receiving and timing out may do to the datagrams: those that leave the queue
      reach a final state, and their waiter, if there is one, is signalled exactly once; those that
      stay keep their waiter; all others are untouched. */
  ghost predicate Moves(q: Queue, r: Queue) {
    |q.pool| == |r.pool| && q.issued <= r.issued && forall x :: 0 <= x < |q.pool| ==> Moved(q, r, x)
  }

  ghost predicate Moved(q: Queue, r: Queue, x: nat)
    requires x < |q.pool| == |r.pool|
  {
    var d, e := q.pool[x], r.pool[x];
    && (x !in q.queue ==> x !in r.queue && e == d)
    && (x in r.queue ==> e.waiter == d.waiter && e.signals == d.signals) && e.cleared == d.cleared
    && (x in q.queue && x !in r.queue ==>
          Final(e.state) && !e.waiter && e.signals == d.signals + (if d.waiter then 1 else 0))
  }

  lemma MovesOn(q: Queue, r: Queue, t: Queue)
    requires Moves(q, r) && Moves(r, t)
    ensures Moves(q, t)
  {
    forall x | 0 <= x < |q.pool| ensures Moved(q, t, x) {
      assert Moved(q, r, x) && Moved(r, t, x);
    }
  }

  lemma MovesNothing(q: Queue)
    ensures Moves(q, q)
  {
  }

  // ----- leaving the queue -----

  lemma {:induction false} WithoutDistinct(s: seq<nat>, gone: set<nat>)
    requires Distinct(s)
    ensures Distinct(Without(s, gone))
    decreases |s|
  {
    if s == [] {
    } else {
      var r := Without(s[1..], gone);
      WithoutDistinct(s[1..], gone);
      assert forall i :: 0 <= i < |r| ==> r[i] in s[1..];
    }
  }

  /** Any change that only lets some linked datagrams leave, each with a final state. */
  lemma LeavingKeeps(q: Queue, r: Queue, gone: set<nat>)
    requires Inv(q) && |r.pool| == |q.pool| && r.issued == q.issued && r.queue == Without(q.queue, gone)
    requires forall x :: x in gone ==> x in q.queue
    requires forall x :: 0 <= x < |q.pool| && x !in gone ==> r.pool[x] == q.pool[x]
    requires forall x :: 0 <= x < |q.pool| && x in gone ==>
      && Final(r.pool[x].state) && !r.pool[x].waiter && r.pool[x].cleared == q.pool[x].cleared
      && r.pool[x].signals == q.pool[x].signals + (if q.pool[x].waiter then 1 else 0)
    ensures Inv(r) && Moves(q, r)
  {
    hide Distinct, Without, DatagramOk, Moved;
    WithoutDistinct(q.queue, gone);
    forall i | 0 <= i < |r.queue| ensures r.queue[i] < |r.pool| {
      assert r.queue[i] in r.queue;
    }
    forall x | 0 <= x < |r.pool| ensures DatagramOk(r.pool[x], x in r.queue, r.issued) && Moved(q, r, x) {
      assert DatagramOk(q.pool[x], x in q.queue, q.issued);
      OneLeaves(q, r, gone, x);
    }
    LeavingSerials(q, r, gone);
  }

  lemma OneLeaves(q: Queue, r: Queue, gone: set<nat>, x: nat)
    requires |r.pool| == |q.pool| && r.issued == q.issued && r.queue == Without(q.queue, gone) && x < |q.pool|
    requires DatagramOk(q.pool[x], x in q.queue, q.issued) && (x in gone ==> x in q.queue)
    requires x !in gone ==> r.pool[x] == q.pool[x]
    requires x in gone ==>
      && Final(r.pool[x].state) && !r.pool[x].waiter && r.pool[x].cleared == q.pool[x].cleared
      && r.pool[x].signals == q.pool[x].signals + (if q.pool[x].waiter then 1 else 0)
    ensures DatagramOk(r.pool[x], x in r.queue, r.issued) && Moved(q, r, x)
  {
    hide Without;
  }

  lemma LeavingSerials(q: Queue, r: Queue, gone: set<nat>)
    requires SerialsDiffer(q) && |r.pool| == |q.pool|
    requires forall x :: 0 <= x < |q.pool| && x !in gone ==> r.pool[x] == q.pool[x]
    requires forall x :: 0 <= x < |q.pool| && x in gone ==> Final(r.pool[x].state)
    ensures SerialsDiffer(r)
  {
  }

  lemma TimeoutKeeps(q: Queue, t: Clock)
    requires Inv(q)
    ensures Inv(TimeoutPass(q, t)) && Moves(q, TimeoutPass(q, t))
  {
    hide Inv, Moves, Overdue;
    LeavingKeeps(q, TimeoutPass(q, t), AllOverdue(q, t));
  }

  lemma LinkDownKeeps(q: Queue, netdev: nat)
    requires Inv(q)
    ensures Inv(LinkDownPass(q, netdev)) && Moves(q, LinkDownPass(q, netdev))
  {
    hide Inv, Moves;
    LeavingKeeps(q, LinkDownPass(q, netdev), AllOn(q, netdev));
  }

  lemma ReceiveOneKeeps(q: Queue, r: Reply, now: nat)
    requires Inv(q)
    ensures Inv(ReceiveOne(q, r, now)) && Moves(q, ReceiveOne(q, r, now))
  {
    match FindMatch(q.pool, q.queue, r)
    case None =>
      MovesNothing(q);
      assert ReceiveOne(q, r, now).pool == q.pool;
    case Some(id) =>
      hide Inv, Moves;
      LeavingKeeps(q, Complete(q, id, r, now), {id});
  }

  lemma {:induction false} ReceiveAllKeeps(q: Queue, rs: seq<Reply>, now: nat)
    requires Inv(q)
    ensures Inv(ReceiveAll(q, rs, now)) && Moves(q, ReceiveAll(q, rs, now))
    decreases |rs|
  {
    hide Inv, Moves, ReceiveOne;
    if rs == [] {
      MovesNothing(q);
    } else {
      ReceiveOneKeeps(q, rs[0], now);
      ReceiveAllKeeps(ReceiveOne(q, rs[0], now), rs[1..], now);
      MovesOn(q, ReceiveOne(q, rs[0], now), ReceiveAll(q, rs, now));
    }
  }

  lemma CountersDoNotMatter(q: Queue, r: Queue, t: Queue)
    requires Inv(r) && Moves(q, r) && t.pool == r.pool && t.queue == r.queue && t.issued == r.issued
    ensures Inv(t) && Moves(q, t)
  {
    assert forall x :: 0 <= x < |q.pool| ==> Moved(q, r, x) && Moved(q, t, x) == Moved(q, r, x);
  }

  lemma ReceiveKeeps(q: Queue, frame: seq<byte>, size: nat, now: nat)
    requires Inv(q) && size + DATAGRAM_HEADER_SIZE <= |frame|
    ensures Inv(Receive(q, frame, size, now)) && Moves(q, Receive(q, frame, size, now))
  {
    hide ReceiveAll, ParseFrame, Inv, Moves;
    var r := ReceiveAll(q, ParseFrame(frame, size).replies, now);
    ReceiveAllKeeps(q, ParseFrame(frame, size).replies, now);
    CountersDoNotMatter(q, r, Receive(q, frame, size, now));
  }

  // ----- being sent -----

  ghost predicate AllQueued(q: Queue, ids: seq<nat>) {
    forall i :: 0 <= i < |ids| ==> ids[i] < |q.pool| && q.pool[ids[i]].state == Queued && !q.pool[ids[i]].cleared
  }

  lemma MarkOneKeeps(q: Queue, id: nat, now: nat)
    requires Inv(q) && id < |q.pool| && q.pool[id].state == Queued && !q.pool[id].cleared
    ensures var r := MarkSent(q, [id], now); Inv(r) && Moves(q, r) && r.queue == q.queue && r.issued == q.issued + 1
  {
    var d := q.pool[id].(state := Sent, index := Index(q.issued), serial := q.issued, jiffiesSent := now);
    var r := q.(pool := q.pool[id := d], issued := q.issued + 1);
    assert MarkSent(q, [id], now) == MarkSent(r, [], now) == r;
    forall x | 0 <= x < |r.pool| ensures DatagramOk(r.pool[x], x in r.queue, r.issued) {
      assert DatagramOk(q.pool[x], x in q.queue, q.issued);
    }
    forall x | 0 <= x < |r.pool| ensures r.pool[x].state == Sent ==> r.pool[x].serial == q.issued ==> x == id {
      assert DatagramOk(q.pool[x], x in q.queue, q.issued);
    }
    assert DatagramOk(q.pool[id], id in q.queue, q.issued);
  }

  lemma {:induction false} MarkSentKeeps(q: Queue, ids: seq<nat>, now: nat)
    requires Inv(q) && Distinct(ids) && AllQueued(q, ids)
    ensures var r := MarkSent(q, ids, now);
      Inv(r) && Moves(q, r) && r.queue == q.queue && r.issued == q.issued + |ids|
    decreases |ids|
  {
    hide Inv, Moves;
    if ids == [] {
      MovesNothing(q);
    } else {
      MarkOneKeeps(q, ids[0], now);
      var r := MarkSent(q, [ids[0]], now);
      assert [ids[0]][1..] == [];
      MarkSentKeeps(r, ids[1..], now);
      MovesOn(q, r, MarkSent(q, ids, now));
    }
  }

  lemma {:induction false} EligibleDistinct(q: Queue, netdev: nat, ids: seq<nat>)
    requires Distinct(ids)
    ensures Distinct(Eligible(q, netdev, ids))
    decreases |ids|
  {
    if ids == [] {
    } else {
      EligibleDistinct(q, netdev, ids[1..]);
      var r := Eligible(q, netdev, ids[1..]);
      assert forall i :: 0 <= i < |r| ==> r[i] in ids[1..];
    }
  }

  lemma LinkedIsOk(q: Queue, x: nat)
    requires Inv(q) && x in q.queue
    ensures x < |q.pool| && Pending(q.pool[x].state) && !q.pool[x].cleared && Distinct(q.queue)
  {
    assert DatagramOk(q.pool[x], x in q.queue, q.issued);
  }

  lemma {:induction false} MarkedOthers(q: Queue, ids: seq<nat>, now: nat)
    requires Known(q.pool, ids)
    ensures var r := MarkSent(q, ids, now);
      |r.pool| == |q.pool| && forall x :: 0 <= x < |q.pool| && x !in ids ==> r.pool[x] == q.pool[x]
    decreases |ids|
  {
    if ids == [] {
    } else {
      var d := q.pool[ids[0]].(state := Sent, index := Index(q.issued), serial := q.issued, jiffiesSent := now);
      MarkedOthers(q.(pool := q.pool[ids[0] := d], issued := q.issued + 1), ids[1..], now);
    }
  }

  lemma {:induction false} SendGroupsKeeps(q: Queue, g: seq<seq<nat>>, t: Clock)
    requires Inv(q) && Distinct(Flatten(g)) && AllQueued(q, Flatten(g))
    ensures Inv(SendGroups(q, g, t)) && Moves(q, SendGroups(q, g, t))
    decreases |g|
  {
    hide Inv, Moves, MarkSent;
    if g == [] || !Known(q.pool, g[0]) {
      MovesNothing(q);
    } else {
      var all, rest := Flatten(g), Flatten(g[1..]);
      assert all == g[0] + rest;
      FrontAndRest(q, g[0], rest);
      var r := MarkSent(q, g[0], t.sentAt(q.issued));
      MarkSentKeeps(q, g[0], t.sentAt(q.issued));
      MarkedOthers(q, g[0], t.sentAt(q.issued));
      SendGroupsKeeps(r, g[1..], t);
      MovesOn(q, r, SendGroups(q, g, t));
    }
  }

  lemma FrontAndRest(q: Queue, a: seq<nat>, b: seq<nat>)
    requires Distinct(a + b) && AllQueued(q, a + b)
    ensures Distinct(a) && Distinct(b) && AllQueued(q, a) && AllQueued(q, b)
    ensures forall i :: 0 <= i < |b| ==> b[i] !in a
  {
    var c := a + b;
    assert forall i :: 0 <= i < |a| ==> a[i] == c[i];
    assert forall i :: 0 <= i < |b| ==> b[i] == c[|a| + i];
  }

  lemma SendDatagramsKeeps(q: Queue, netdev: nat, t: Clock)
    requires Inv(q)
    ensures Inv(SendDatagrams(q, netdev, t)) && Moves(q, SendDatagrams(q, netdev, t))
  {
    hide Inv, Moves, MarkSent, Groups, Flatten;
    var e := Eligible(q, netdev, q.queue);
    QueueDistinct(q);
    EligibleDistinct(q, netdev, q.queue);
    GroupsWithin(q.pool, e);
    var ids := Flatten(Groups(q.pool, e));
    forall i | 0 <= i < |ids| ensures ids[i] == e[i] && EligibleOne(q, netdev, ids[i]) && !q.pool[ids[i]].cleared {
      LinkedIsOk(q, e[i]);
    }
    SendGroupsKeeps(q, Groups(q.pool, e), t);
  }

  lemma QueueDistinct(q: Queue)
    requires Inv(q)
    ensures Distinct(q.queue)
  {
  }

  lemma {:induction false} SendFromKeeps(q: Queue, links: seq<bool>, netdev: nat, t: Clock)
    requires Inv(q) && netdev <= |links|
    ensures Inv(SendFrom(q, links, netdev, t)) && Moves(q, SendFrom(q, links, netdev, t))
    decreases |links| - netdev
  {
    hide Inv, Moves, SendDatagrams, LinkDownPass;
    if netdev == |links| {
      MovesNothing(q);
    } else {
      var r := if links[netdev] then SendDatagrams(q, netdev, t) else LinkDownPass(q, netdev);
      if links[netdev] {
        SendDatagramsKeeps(q, netdev, t);
      } else {
        LinkDownKeeps(q, netdev);
      }
      SendFromKeeps(r, links, netdev + 1, t);
      MovesOn(q, r, SendFrom(q, links, netdev, t));
    }
  }

  lemma SendKeeps(q: Queue, links: seq<bool>, t: Clock)
    requires Inv(q)
    ensures Inv(Send(q, links, t)) && Moves(q, Send(q, links, t))
  {
    hide Inv, Moves, TimeoutPass, SendFrom;
    TimeoutKeeps(q, t);
    SendFromKeeps(TimeoutPass(q, t), links, 0, t);
    MovesOn(q, TimeoutPass(q, t), Send(q, links, t));
  }

  // ----- runs -----

  /** The steps that the owner of a datagram takes, and those of the sender and the receiver. */
  datatype Step =
    | DoFill(id: nat, dtype: byte, address: Address, data: seq<byte>)
    | DoQueue(id: nat)
    | DoQueueExt(id: nat, waiter: bool)
    | DoTake(id: nat)
    | DoClear(id: nat)
    | DoSend(links: seq<bool>, t: Clock)
    | DoReceive(frame: seq<byte>, size: nat, now: nat)

  predicate OwnerStep(s: Step) {
    !s.DoSend? && !s.DoReceive?
  }

  /** Owners do not touch a datagram while somebody waits for it, fill only unlinked ones, may clear them, and take the
      semaphore when it is raised; the receive buffer is larger than the frame. */
  predicate Enabled(q: Queue, s: Step) {
    match s
    case DoFill(id, _, _, _) => id < |q.pool| && id !in q.queue && q.pool[id].signals == 0
    case DoQueue(id) => id < |q.pool| && !q.pool[id].waiter && q.pool[id].signals == 0
    case DoQueueExt(id, _) => id < |q.pool| && !q.pool[id].waiter && q.pool[id].signals == 0
    case DoTake(id) => id < |q.pool| && q.pool[id].signals > 0
    case DoClear(id) => id < |q.pool| && !q.pool[id].waiter && q.pool[id].signals == 0
    case DoSend(_, _) => true
    case DoReceive(frame, size, _) => size + DATAGRAM_HEADER_SIZE <= |frame|
  }

  function Apply(q: Queue, s: Step): Queue
    requires Enabled(q, s)
  {
    match s
    case DoFill(id, dtype, address, data) => q.(pool := q.pool[id := Fill(q.pool[id], dtype, address, data)])
    case DoQueue(id) => QueueDatagram(q, id)
    case DoQueueExt(id, waiter) => QueueExt(q, id, waiter)
    case DoTake(id) => q.(pool := q.pool[id := q.pool[id].(signals := q.pool[id].signals - 1)])
    case DoClear(id) => Clear(q, id)
    case DoSend(links, t) => Send(q, links, t)
    case DoReceive(frame, size, now) => Receive(q, frame, size, now)
  }

  predicate AllEnabled(q: Queue, steps: seq<Step>)
    decreases |steps|
  {
    steps == [] || (Enabled(q, steps[0]) && AllEnabled(Apply(q, steps[0]), steps[1..]))
  }

  function Run(q: Queue, steps: seq<Step>): Queue
    requires AllEnabled(q, steps)
    decreases |steps|
  {
    if steps == [] then q else Run(Apply(q, steps[0]), steps[1..])
  }

  /** A change of one datagram and perhaps its arrival at the end of the queue. */
  lemma OwnerKeeps(q: Queue, r: Queue, id: nat)
    requires Inv(q) && id < |q.pool| && r.issued == q.issued
    requires |r.pool| == |q.pool| && forall x :: 0 <= x < |q.pool| && x != id ==> r.pool[x] == q.pool[x]
    requires r.queue == q.queue || (id !in q.queue && r.queue == q.queue + [id])
    requires DatagramOk(r.pool[id], id in r.queue, r.issued)
    requires r.pool[id].state == Sent ==> q.pool[id].state == Sent && r.pool[id].serial == q.pool[id].serial
    ensures Inv(r)
  {
    forall x | 0 <= x < |r.pool| ensures DatagramOk(r.pool[x], x in r.queue, r.issued) {
      assert DatagramOk(q.pool[x], x in q.queue, q.issued);
      assert x != id ==> (x in r.queue <==> x in q.queue);
    }
    forall i, j | 0 <= i < j < |r.queue| ensures r.queue[i] != r.queue[j] {
      assert i < |q.queue| ==> q.queue[i] in q.queue;
    }
  }

  lemma StepKeeps(q: Queue, s: Step)
    requires Inv(q) && Enabled(q, s)
    ensures Inv(Apply(q, s))
  {
    match s
    case DoSend(links, t) => SendKeeps(q, links, t);
    case DoClear(id) => ClearKeeps(q, id);
    case DoReceive(frame, size, now) => ReceiveKeeps(q, frame, size, now);
    case DoFill(id, _, _, _) => OwnerStepKeeps(q, s, id);
    case DoQueue(id) => OwnerStepKeeps(q, s, id);
    case DoQueueExt(id, _) => OwnerStepKeeps(q, s, id);
    case DoTake(id) => OwnerStepKeeps(q, s, id);
  }

  lemma OwnerStepKeeps(q: Queue, s: Step, id: nat)
    requires Inv(q) && Enabled(q, s) && OwnerStep(s) && !s.DoClear? && s.id == id
    ensures Inv(Apply(q, s))
  {
    assert DatagramOk(q.pool[id], id in q.queue, q.issued);
    hide Inv;
    OwnerKeeps(q, Apply(q, s), id);
  }

  lemma ClearKeeps(q: Queue, id: nat)
    requires Inv(q) && Enabled(q, DoClear(id))
    ensures Inv(Clear(q, id))
  {
    WithoutDistinct(q.queue, {id});
    var r := Clear(q, id);
    forall x | 0 <= x < |r.pool| ensures DatagramOk(r.pool[x], x in r.queue, r.issued) {
      assert DatagramOk(q.pool[x], x in q.queue, q.issued);
    }
    forall i | 0 <= i < |r.queue| ensures r.queue[i] < |r.pool| {
      assert r.queue[i] in r.queue;
    }
  }

  /** The invariant holds after every run. */
  lemma {:induction false} RunKeeps(q: Queue, steps: seq<Step>)
    requires Inv(q) && AllEnabled(q, steps)
    ensures Inv(Run(q, steps))
    decreases |steps|
  {
    hide Inv, Apply, Enabled;
    if steps == [] {
    } else {
      StepKeeps(q, steps[0]);
      RunKeeps(Apply(q, steps[0]), steps[1..]);
    }
  }

  ghost predicate Fresh(q: Queue) {
    && q.queue == [] && q.issued == 0
    && forall x :: 0 <= x < |q.pool| ==>
      q.pool[x].state == Init && !q.pool[x].waiter && q.pool[x].signals == 0 && !q.pool[x].cleared
  }

  /** Whatever the slaves, the links and the owners do after ec_master_init: the queue never holds a
      datagram twice, a datagram is linked exactly when it is QUEUED or SENT and was not cleared since, and when the
      semaphore of a waiting request is raised its result is never EC_ERR_UNKNOWN. */
  lemma RunsAreSafe(q: Queue, steps: seq<Step>, x: nat)
    requires Fresh(q) && AllEnabled(q, steps)
    ensures var r := Run(q, steps);
      && Distinct(r.queue)
      && (x < |r.pool| ==>
            && (x in r.queue <==> Pending(r.pool[x].state) && !r.pool[x].cleared)
            && ((forall i :: 0 <= i < |steps| ==> steps[i] != DoClear(x)) ==>
                (x in r.queue <==> Pending(r.pool[x].state)))
            && (r.pool[x].signals > 0 ==> ResultOf(r.pool[x]) != -EC_ERR_UNKNOWN && x !in r.queue))
  {
    assert Inv(q);
    RunKeeps(q, steps);
    var r := Run(q, steps);
    if x < |r.pool| {
      assert DatagramOk(r.pool[x], x in r.queue, r.issued);
      if forall i :: 0 <= i < |steps| ==> steps[i] != DoClear(x) {
        NeverCleared(q, steps, x);
      }
    }
  }

  lemma StepClears(q: Queue, s: Step, x: nat)
    requires Inv(q) && Enabled(q, s) && s != DoClear(x)
    requires x < |q.pool| ==> !q.pool[x].cleared
    ensures x < |Apply(q, s).pool| ==> !Apply(q, s).pool[x].cleared
  {
    hide Inv;
    if s.DoSend? {
      SendKeeps(q, s.links, s.t);
      assert x < |q.pool| ==> Moved(q, Apply(q, s), x);
    } else if s.DoReceive? {
      ReceiveKeeps(q, s.frame, s.size, s.now);
      assert x < |q.pool| ==> Moved(q, Apply(q, s), x);
    }
  }

  lemma {:induction false} NeverCleared(q: Queue, steps: seq<Step>, x: nat)
    requires Inv(q) && AllEnabled(q, steps) && (x < |q.pool| ==> !q.pool[x].cleared)
    requires forall i :: 0 <= i < |steps| ==> steps[i] != DoClear(x)
    ensures x < |Run(q, steps).pool| ==> !Run(q, steps).pool[x].cleared
    decreases |steps|
  {
    hide Inv, Apply, Enabled;
    if steps == [] {
    } else {
      StepKeeps(q, steps[0]);
      StepClears(q, steps[0], x);
      NeverCleared(Apply(q, steps[0]), steps[1..], x);
    }
  }

  /** The step is not one of the owner of datagram `id`. */
  predicate LeavesAlone(s: Step, id: nat) {
    OwnerStep(s) ==> s.id != id
  }

  /** A request that is waited for: as long as it is linked the waiter sleeps, and afterwards the
      semaphore has been raised exactly once and the state is final. */
  ghost predicate Waited(q: Queue, id: nat) {
    id < |q.pool| &&
    if id in q.queue then q.pool[id].waiter && q.pool[id].signals == 0
    else !q.pool[id].waiter && q.pool[id].signals == 1 && Final(q.pool[id].state)
  }

  lemma StepWaited(q: Queue, s: Step, id: nat)
    requires Inv(q) && Enabled(q, s) && LeavesAlone(s, id) && Waited(q, id)
    ensures Waited(Apply(q, s), id)
  {
    hide Inv;
    if s.DoSend? {
      SendKeeps(q, s.links, s.t);
      assert Moved(q, Apply(q, s), id);
    } else if s.DoReceive? {
      ReceiveKeeps(q, s.frame, s.size, s.now);
      assert Moved(q, Apply(q, s), id);
    } else {
      assert Apply(q, s).pool[id] == q.pool[id];
    }
  }

  /** Over any run in which the owner of a waited-for request does nothing else with it, the waiter is
      signalled exactly once, namely when the request leaves the queue as RECEIVED, TIMED_OUT or
      ERROR. */
  lemma {:induction false} OneSignalPerRequest(q: Queue, steps: seq<Step>, id: nat)
    requires Inv(q) && AllEnabled(q, steps) && id < |q.pool| && id in q.queue && q.pool[id].waiter
    requires forall i :: 0 <= i < |steps| ==> LeavesAlone(steps[i], id)
    ensures Waited(Run(q, steps), id)
  {
    assert DatagramOk(q.pool[id], id in q.queue, q.issued);
    WaitedOn(q, steps, id);
  }

  lemma {:induction false} WaitedOn(q: Queue, steps: seq<Step>, id: nat)
    requires Inv(q) && AllEnabled(q, steps) && Waited(q, id)
    requires forall i :: 0 <= i < |steps| ==> LeavesAlone(steps[i], id)
    ensures Waited(Run(q, steps), id)
    decreases |steps|
  {
    hide Inv, Apply, Enabled, Waited, LeavesAlone;
    if steps == [] {
    } else {
      assert LeavesAlone(steps[0], id);
      StepKeeps(q, steps[0]);
      StepWaited(q, steps[0], id);
      WaitedOn(Apply(q, steps[0]), steps[1..], id);
    }
  }

  // ----- indices -----

  /** Sent, and still expecting its frame. */
  predicate OnWire(d: Datagram) {
    d.state == Sent && !d.cleared
  }

  /** No datagram on its way is older than 256 indices. */
  ghost predicate Recent(q: Queue) {
    forall x :: 0 <= x < |q.pool| && OnWire(q.pool[x]) ==> q.issued - q.pool[x].serial <= 256
  }

  /** As long as at most 255 further indices are handed out while a datagram is on its way, no two
      datagrams on their way share an index. */
  lemma IndicesDiffer(q: Queue, x: nat, y: nat)
    requires Inv(q) && Recent(q) && x < |q.pool| && y < |q.pool| && x != y && OnWire(q.pool[x]) && OnWire(q.pool[y])
    ensures q.pool[x].index != q.pool[y].index
  {
    assert DatagramOk(q.pool[x], x in q.queue, q.issued) && DatagramOk(q.pool[y], y in q.queue, q.issued);
    assert q.pool[x].serial != q.pool[y].serial;
  }

  /** The bound is sharp: an index comes again after exactly 256 further ones. */
  lemma IndexComesAgain(serial: nat, k: nat)
    requires 0 < k <= 256
    ensures Index(serial + k) == Index(serial) <==> k == 256
  {
  }

  /** A reply with the index that number `was` stood for leaves alone every datagram that has not been sent again or
      that was sent again with one of the next 255 indices: a late reply never completes a re-queued datagram. */
  lemma LateReply(q: Queue, r: Reply, now: nat, x: nat, was: nat)
    requires Inv(q) && x < |q.pool| && r.index == Index(was)
    requires q.pool[x].state != Sent || was < q.pool[x].serial <= was + 255
    ensures ReceiveOne(q, r, now).pool[x] == q.pool[x]
    ensures x in ReceiveOne(q, r, now).queue <==> x in q.queue
  {
    assert DatagramOk(q.pool[x], x in q.queue, q.issued);
    if q.pool[x].state == Sent {
      IndexComesAgain(was, q.pool[x].serial - was);
    }
  }
}
