/** The life of a datagram in the master's queue (src/ec_master.c:12-285, 630-665), as functions on
    values: what queueing, sending, receiving and timing out do to the datagrams and to the queue.
    A pointer to a datagram is its position in `pool`. */
module DatagramQueue {
  import opened Words
  import opened ErrorCodes
  import opened FrameCodec

  datatype State = Init | Queued | Sent | Received | TimedOut | Error

  /** ec_datagram_t. `data` are the `data_size` payload bytes and `signals` is the count of the
      semaphore `wait`. `serial` and `cleared` are not in the source: the one numbers the index that was
      handed out, the other says that the datagram was unlinked by ec_datagram_clear without a change of state. */
  datatype Datagram = Datagram(
    netdev: nat, dtype: byte, address: Address, data: seq<byte>, index: byte, wc: u16, state: State,
    jiffiesSent: nat, jiffiesReceived: nat, waiter: bool, signals: nat, serial: nat, cleared: bool)

  /** The queue part of ec_master_t; `issued` counts the indices handed out so far. */
  datatype Queue = Queue(
    pool: seq<Datagram>, queue: seq<nat>, issued: nat, timeouts: nat, corrupted: nat, unmatched: nat)

  /** What ec_master_send reads off the clock: when datagram `x` is examined for a time-out, and when the frame that
      begins with number `k` has been handed over. */
  datatype Clock = Clock(checked: nat -> nat, sentAt: nat -> nat)

  const DATAGRAM_TIMEOUT_NS: nat := 50_000_000

  /** master->datagram_index: starts with 1 and wraps at 256. */
  function Index(serial: nat): byte {
    (1 + serial) % 0x100
  }

  predicate Linked(q: Queue, id: nat) {
    id in q.queue
  }

  predicate Pending(s: State) {
    s == Queued || s == Sent
  }

  predicate Final(s: State) {
    s == Received || s == TimedOut || s == Error
  }

  ghost predicate Distinct(s: seq<nat>) {
    forall i, j :: 0 <= i < j < |s| ==> s[i] != s[j]
  }

  /** What every step keeps about one datagram: it is linked exactly while it waits to be sent or answered, unless it
      was cleared; a waiter exists only then; a raised semaphore means that a final state was reached. */
  ghost predicate DatagramOk(d: Datagram, linked: bool, issued: nat) {
    && linked == (Pending(d.state) && !d.cleared)
    && (d.waiter ==> linked && d.signals == 0)
    && d.signals <= 1 && (d.signals == 1 ==> Final(d.state))
    && (d.state == Sent ==> d.index == Index(d.serial) && d.serial < issued)
  }

  ghost predicate SerialsDiffer(q: Queue) {
    forall x, y :: 0 <= x < y < |q.pool| && q.pool[x].state == Sent && q.pool[y].state == Sent ==>
      q.pool[x].serial != q.pool[y].serial
  }

  ghost predicate Inv(q: Queue) {
    && Distinct(q.queue) && (forall i :: 0 <= i < |q.queue| ==> q.queue[i] < |q.pool|)
    && (forall x :: 0 <= x < |q.pool| ==> DatagramOk(q.pool[x], x in q.queue, q.issued))
    && SerialsDiffer(q)
  }

  // ----- the steps -----

  /** ec_datagram_fill, with the payload that the caller writes behind it. */
  function Fill(d: Datagram, dtype: byte, address: Address, data: seq<byte>): Datagram {
    d.(index := 0, wc := 0, state := Init, dtype := dtype, address := address, data := data, waiter := false,
       cleared := false)
  }

  /** ec_master_queue_datagram */
  function QueueDatagram(q: Queue, id: nat): Queue
    requires id < |q.pool|
  {
    q.(pool := q.pool[id := q.pool[id].(state := Queued, cleared := false)],
       queue := if id in q.queue then q.queue else q.queue + [id])
  }

  /** ec_master_queue_ext_datagram up to the point where it waits. */
  function QueueExt(q: Queue, id: nat, waiter: bool): Queue
    requires id < |q.pool|
  {
    QueueDatagram(q.(pool := q.pool[id := q.pool[id].(waiter := waiter)]), id)
  }

  /** What ec_master_queue_ext_datagram returns after the semaphore was taken. */
  function ResultOf(d: Datagram): int {
    if d.state == Received then (if d.wc == 0 then -EC_ERR_WC else 0)
    else if d.state == TimedOut then -EC_ERR_TIMEOUT
    else if d.state == Error then -EC_ERR_IO
    else -EC_ERR_UNKNOWN
  }

  /** ec_datagram_clear and ec_datagram_unqueue: the datagram is unlinked, and its state stays as it is. */
  function Clear(q: Queue, id: nat): Queue
    requires id < |q.pool|
  {
    q.(pool := q.pool[id := q.pool[id].(cleared := q.pool[id].cleared || id in q.queue)],
       queue := Without(q.queue, {id}))
  }

  /** A new state, then ec_master_unqueue_datagram: the waiter is signalled and forgotten. */
  function Leave(d: Datagram, s: State): Datagram {
    d.(state := s, waiter := false, signals := if d.waiter then d.signals + 1 else d.signals)
  }

  /** The queue without some of its entries. */
  function Without(s: seq<nat>, gone: set<nat>): (r: seq<nat>)
    ensures forall x :: x in r <==> x in s && x !in gone
    ensures |r| <= |s|
  {
    if s == [] then [] else (if s[0] in gone then [] else [s[0]]) + Without(s[1..], gone)
  }

  /** All of `gone` leave the queue with state `s`. */
  function Release(q: Queue, gone: set<nat>, s: State): Queue {
    q.(pool := seq(|q.pool|, x requires 0 <= x < |q.pool| => if x in gone then Leave(q.pool[x], s) else q.pool[x]),
       queue := Without(q.queue, gone))
  }

  predicate Overdue(d: Datagram, now: nat) {
    d.state == Sent && Elapsed(now, d.jiffiesSent) > DATAGRAM_TIMEOUT_NS
  }

  function AllOverdue(q: Queue, t: Clock): set<nat> {
    set x | x in q.queue && x < |q.pool| && Overdue(q.pool[x], t.checked(x))
  }

  /** The first loop of ec_master_send. */
  function TimeoutPass(q: Queue, t: Clock): Queue {
    var gone := AllOverdue(q, t);
    Release(q, gone, TimedOut).(timeouts := q.timeouts + |gone|)
  }

  function AllOn(q: Queue, netdev: nat): set<nat> {
    set x | x in q.queue && x < |q.pool| && q.pool[x].netdev == netdev
  }

  /** The loop of ec_master_send for a device whose link is down. */
  function LinkDownPass(q: Queue, netdev: nat): Queue {
    Release(q, AllOn(q, netdev), Error)
  }

  predicate Known(pool: seq<Datagram>, ids: seq<nat>) {
    forall i :: 0 <= i < |ids| ==> ids[i] < |pool|
  }

  predicate EligibleOne(q: Queue, netdev: nat, id: nat) {
    id < |q.pool| && q.pool[id].state == Queued && q.pool[id].netdev == netdev
  }

  /** The datagrams of `ids` that wait for device `netdev`, in the same order. */
  function Eligible(q: Queue, netdev: nat, ids: seq<nat>): (r: seq<nat>)
    ensures forall i :: 0 <= i < |r| ==> EligibleOne(q, netdev, r[i]) && r[i] in ids
  {
    if ids == [] then []
    else (if EligibleOne(q, netdev, ids[0]) then [ids[0]] else []) + Eligible(q, netdev, ids[1..])
  }

  function WireSize(d: Datagram): nat {
    DATAGRAM_HEADER_SIZE + |d.data| + WC_SIZE
  }

  /** How many of `ids` fit, one after the other, into a frame that is filled up to `used`. */
  function Fit(pool: seq<Datagram>, ids: seq<nat>, used: nat): (k: nat)
    requires forall i :: 0 <= i < |ids| ==> ids[i] < |pool|
    ensures k <= |ids|
  {
    if ids == [] || used + WireSize(pool[ids[0]]) > ETH_DATA_LEN then 0
    else 1 + Fit(pool, ids[1..], used + WireSize(pool[ids[0]]))
  }

  function SlotOf(d: Datagram, index: byte): Slot {
    Slot(d.dtype, index, d.address, [0, 0], d.data, 0)
  }

  /** The frame made of `ids`, with consecutive indices from number `serial` on. */
  function SlotsOf(pool: seq<Datagram>, ids: seq<nat>, serial: nat): (r: seq<Slot>)
    requires forall i :: 0 <= i < |ids| ==> ids[i] < |pool|
    ensures |r| == |ids|
  {
    seq(|ids|, i requires 0 <= i < |ids| => SlotOf(pool[ids[i]], Index(serial + i)))
  }

  /** The datagrams `ids` are on their way. */
  function MarkSent(q: Queue, ids: seq<nat>, now: nat): Queue
    requires forall i :: 0 <= i < |ids| ==> ids[i] < |q.pool|
    decreases |ids|
  {
    if ids == [] then q
    else
      var d := q.pool[ids[0]].(state := Sent, index := Index(q.issued), serial := q.issued, jiffiesSent := now);
      MarkSent(q.(pool := q.pool[ids[0] := d], issued := q.issued + 1), ids[1..], now)
  }

  /** The datagrams of the frames that ec_master_send_datagrams sends for the waiting datagrams
      `ids`: each frame takes as many as fit, and nothing is sent if not even one fits. */
  function Groups(pool: seq<Datagram>, ids: seq<nat>): (g: seq<seq<nat>>)
    requires forall i :: 0 <= i < |ids| ==> ids[i] < |pool|
    decreases |ids|
  {
    var k := Fit(pool, ids, FRAME_HEADER_SIZE);
    if k == 0 then [] else [ids[..k]] + Groups(pool, ids[k..])
  }

  function Flatten(g: seq<seq<nat>>): seq<nat> {
    if g == [] then [] else g[0] + Flatten(g[1..])
  }

  /** The index of a returned datagram, its type and its size must match. */
  predicate Answers(d: Datagram, r: Reply) {
    d.index == r.index && d.state == Sent && d.dtype == r.dtype && |d.data| == |r.data|
  }

  function FindMatch(pool: seq<Datagram>, ids: seq<nat>, r: Reply): (m: Option<nat>)
    ensures m.Some? ==> m.value in ids && m.value < |pool| && Answers(pool[m.value], r)
    ensures m.None? ==> forall i :: 0 <= i < |ids| && ids[i] < |pool| ==> !Answers(pool[ids[i]], r)
  {
    if ids == [] then None
    else if ids[0] < |pool| && Answers(pool[ids[0]], r) then Some(ids[0])
    else FindMatch(pool, ids[1..], r)
  }

  /** APWR, FPWR, BWR and LWR carry no data back. */
  predicate WriteType(dtype: byte) {
    dtype == 0x02 || dtype == 0x05 || dtype == 0x08 || dtype == 0x0B
  }

  function Answered(d: Datagram, r: Reply, now: nat): Datagram {
    Leave(d.(data := if WriteType(d.dtype) then d.data else r.data, wc := r.wc, jiffiesReceived := now), Received)
  }

  /** What the datagram `d` has become after its image `s` came back: the counter and, unless it is a writing one (APWR,
      FPWR, BWR, LWR), the data are those of the image; its waiter is signalled; nothing else changes. */
  predicate Brought(d: Datagram, e: Datagram, s: Slot, now: nat) {
    && e.state == Received && e.wc == s.wc && e.jiffiesReceived == now
    && e.data == (if d.dtype == 0x02 || d.dtype == 0x05 || d.dtype == 0x08 || d.dtype == 0x0B then d.data else s.data)
    && e.netdev == d.netdev && e.dtype == d.dtype && e.address == d.address && e.index == d.index
    && e.jiffiesSent == d.jiffiesSent && e.serial == d.serial && e.cleared == d.cleared
    && !e.waiter && e.signals == d.signals + (if d.waiter then 1 else 0)
  }

  lemma AnsweredIsBrought(d: Datagram, s: Slot, now: nat)
    ensures Brought(d, Answered(d, ReplyOf(s), now), s, now)
  {
  }

  function Complete(q: Queue, id: nat, r: Reply, now: nat): Queue
    requires id < |q.pool|
  {
    q.(pool := q.pool[id := Answered(q.pool[id], r, now)], queue := Without(q.queue, {id}))
  }

  function ReceiveOne(q: Queue, r: Reply, now: nat): Queue {
    match FindMatch(q.pool, q.queue, r)
    case None => q.(unmatched := q.unmatched + 1)
    case Some(id) => Complete(q, id, r, now)
  }

  function ReceiveAll(q: Queue, rs: seq<Reply>, now: nat): Queue
    decreases |rs|
  {
    if rs == [] then q else ReceiveAll(ReceiveOne(q, rs[0], now), rs[1..], now)
  }

  /** ec_master_receive_datagrams */
  function Receive(q: Queue, frame: seq<byte>, size: nat, now: nat): Queue
    requires size + DATAGRAM_HEADER_SIZE <= |frame|
  {
    var p := ParseFrame(frame, size);
    var r := ReceiveAll(q, p.replies, now);
    if p.intact then r else r.(corrupted := r.corrupted + 1)
  }

  /** Frame after frame, each with its own reading of the clock. */
  function SendGroups(q: Queue, g: seq<seq<nat>>, t: Clock): Queue
    decreases |g|
  {
    if g == [] || !Known(q.pool, g[0]) then q
    else SendGroups(MarkSent(q, g[0], t.sentAt(q.issued)), g[1..], t)
  }

  /** ec_master_send_datagrams */
  function SendDatagrams(q: Queue, netdev: nat, t: Clock): Queue {
    SendGroups(q, Groups(q.pool, Eligible(q, netdev, q.queue)), t)
  }

  lemma {:induction false} GroupsWithin(pool: seq<Datagram>, ids: seq<nat>)
    requires forall i :: 0 <= i < |ids| ==> ids[i] < |pool|
    ensures Flatten(Groups(pool, ids)) <= ids
    decreases |ids|
  {
    var k := Fit(pool, ids, FRAME_HEADER_SIZE);
    if k > 0 {
      GroupsWithin(pool, ids[k..]);
      assert ids == ids[..k] + ids[k..];
    }
  }

  /** ec_master_send over all devices. */
  function SendFrom(q: Queue, links: seq<bool>, netdev: nat, t: Clock): Queue
    requires netdev <= |links|
    decreases |links| - netdev
  {
    if netdev == |links| then q
    else SendFrom(if links[netdev] then SendDatagrams(q, netdev, t) else LinkDownPass(q, netdev), links, netdev + 1, t)
  }

  function Send(q: Queue, links: seq<bool>, t: Clock): Queue {
    SendFrom(TimeoutPass(q, t), links, 0, t)
  }
}
