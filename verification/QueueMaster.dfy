/** ec_master_t as far as datagrams are concerned: the methods of src/ec_master.c that queue, send,
    receive and time out datagrams, proved against the functions of DatagramQueue. */
module QueueMaster {
  import opened Words
  import opened ErrorCodes
  import opened ByteBuffers
  import opened FrameCodec
  import opened FrameBuffer
  import opened DatagramQueue
  import opened DatagramRuns
  import opened FrameTraffic

  /** The bytes of the frames for the groups `g`, with consecutive indices from number `serial` on. */
  ghost function FramesOf(pool: seq<Datagram>, g: seq<seq<nat>>, serial: nat): seq<seq<byte>> {
    if g == [] || !GoodGroup(pool, g[0]) then []
    else [FrameFor(pool, g[0], serial)] + FramesOf(pool, g[1..], serial + |g[0]|)
  }

  ghost function FrameFor(pool: seq<Datagram>, ids: seq<nat>, serial: nat): seq<byte>
    requires GoodGroup(pool, ids)
  {
    GroupFits(pool, ids, serial);
    FrameOf(SlotsOf(pool, ids, serial))
  }

  /** All that a device has to send. */
  ghost function FramesFor(q: Queue, netdev: nat): seq<seq<byte>> {
    var e := Eligible(q, netdev, q.queue);
    FramesOf(q.pool, Groups(q.pool, e), q.issued)
  }

  ghost predicate GoodGroup(pool: seq<Datagram>, ids: seq<nat>) {
    Known(pool, ids) && FRAME_HEADER_SIZE + WireSum(pool, ids) <= ETH_DATA_LEN
  }

  lemma GroupFits(pool: seq<Datagram>, ids: seq<nat>, serial: nat)
    requires GoodGroup(pool, ids)
    ensures Sendable(SlotsOf(pool, ids, serial)) && TotalSize(SlotsOf(pool, ids, serial)) == WireSum(pool, ids)
  {
    FrameWellFormed(pool, ids, serial, 0, 0);
    SlotsSize(pool, ids, serial);
  }

  lemma {:induction false} AllGroupsGood(pool: seq<Datagram>, ids: seq<nat>)
    requires Known(pool, ids)
    ensures forall i :: 0 <= i < |Groups(pool, ids)| ==> GoodGroup(pool, Groups(pool, ids)[i])
    decreases |ids|
  {
    hide WireSum, Fit;
    var k := Fit(pool, ids, FRAME_HEADER_SIZE);
    FitIs(pool, ids, FRAME_HEADER_SIZE);
    if k > 0 {
      AllGroupsGood(pool, ids[k..]);
      assert Groups(pool, ids) == [ids[..k]] + Groups(pool, ids[k..]);
    }
  }

  lemma {:induction false} WithoutTwice(s: seq<nat>, a: set<nat>, b: set<nat>)
    ensures Without(Without(s, a), b) == Without(s, a + b)
    decreases |s|
  {
    if s == [] {
    } else {
      WithoutTwice(s[1..], a, b);
      var head: seq<nat> := if s[0] in a then [] else [s[0]];
      assert Without(s, a) == head + Without(s[1..], a);
      if s[0] !in a {
        assert Without(s, a)[1..] == Without(s[1..], a);
      } else {
        assert Without(s, a) == Without(s[1..], a);
      }
    }
  }

  lemma {:induction false} WithoutNone(s: seq<nat>)
    ensures Without(s, {}) == s
    decreases |s|
  {
    if s == [] {
    } else {
      WithoutNone(s[1..]);
    }
  }

  /** Releasing one more datagram. */
  lemma ReleaseOne(q: Queue, gone: set<nat>, id: nat, s: State)
    requires id < |q.pool| && id !in gone
    ensures var r := Release(q, gone, s);
      && |r.pool| == |q.pool| && r.pool[id] == q.pool[id]
      && Release(q, gone + {id}, s) == r.(pool := r.pool[id := Leave(q.pool[id], s)], queue := Without(r.queue, {id}))
  {
    hide Leave, Without;
    WithoutTwice(q.queue, gone, {id});
    assert Release(q, gone + {id}, s).pool == Release(q, gone, s).pool[id := Leave(q.pool[id], s)];
  }

  lemma ReleaseNone(q: Queue, s: State)
    ensures Release(q, {}, s) == q
  {
    WithoutNone(q.queue);
    assert Release(q, {}, s).pool == q.pool;
  }

  /** Those of `entries` that satisfy `p`. */
  ghost function Chosen(pool: seq<Datagram>, entries: seq<nat>, p: Datagram -> bool): set<nat> {
    set x | x in entries && x < |pool| && p(pool[x])
  }

  lemma ChosenNext(pool: seq<Datagram>, entries: seq<nat>, p: Datagram -> bool, i: nat)
    requires Distinct(entries) && i < |entries| && entries[i] < |pool|
    ensures entries[i] !in Chosen(pool, entries[..i], p)
    ensures Chosen(pool, entries[..i + 1], p)
         == Chosen(pool, entries[..i], p) + (if p(pool[entries[i]]) then {entries[i]} else {})
  {
    assert entries[..i + 1] == entries[..i] + [entries[i]];
  }

  ghost function OverdueIn(q: Queue, entries: seq<nat>, t: Clock): set<nat> {
    set x | x in entries && x < |q.pool| && Overdue(q.pool[x], t.checked(x))
  }

  lemma OverdueNext(q: Queue, entries: seq<nat>, t: Clock, i: nat)
    requires Distinct(entries) && i < |entries| && entries[i] < |q.pool|
    ensures var id := entries[i];
      && id !in OverdueIn(q, entries[..i], t)
      && OverdueIn(q, entries[..i + 1], t)
         == OverdueIn(q, entries[..i], t) + (if Overdue(q.pool[id], t.checked(id)) then {id} else {})
  {
    hide Overdue;
    assert entries[..i + 1] == entries[..i] + [entries[i]];
  }

  lemma OverdueEnds(q: Queue, t: Clock)
    ensures OverdueIn(q, [], t) == {} && OverdueIn(q, q.queue, t) == AllOverdue(q, t)
  {
  }

  lemma ChosenOn(pool: seq<Datagram>, entries: seq<nat>, p: Datagram -> bool, netdev: nat)
    requires forall d :: p(d) == (d.netdev == netdev)
    ensures Chosen(pool, [], p) == {} && entries[..0] == []
    ensures forall q: Queue :: q.pool == pool && q.queue == entries ==> Chosen(pool, entries, p) == AllOn(q, netdev)
  {
  }

  // ----- one frame more -----

  lemma {:induction false} WithoutPrefix(s: seq<nat>, k: nat)
    requires Distinct(s) && k <= |s|
    ensures Without(s, set x | x in s[..k]) == s[k..]
    decreases k
  {
    var gone := set x | x in s[..k];
    if k == 0 {
      assert gone == {};
      WithoutNone(s);
    } else {
      var tail := s[1..];
      var front := tail[..k - 1];
      var rest := set x | x in front;
      WithoutPrefix(tail, k - 1);
      assert s[..k] == [s[0]] + front;
      assert gone == rest + {s[0]};
      assert s[0] !in s[1..] && Without(s, gone) == [] + Without(s[1..], gone);
      WithoutUnused(s[1..], rest, s[0]);
      assert s[1..][k - 1..] == s[k..];
    }
  }

  lemma {:induction false} WithoutUnused(s: seq<nat>, gone: set<nat>, x: nat)
    requires x !in s
    ensures Without(s, gone + {x}) == Without(s, gone)
    decreases |s|
  {
    if s == [] {
    } else {
      WithoutUnused(s[1..], gone, x);
    }
  }

  lemma {:induction false} EligibleWithout(q: Queue, r: Queue, netdev: nat, ids: seq<nat>, gone: set<nat>)
    requires |r.pool| == |q.pool|
    requires forall x :: 0 <= x < |q.pool| ==> if x in gone then r.pool[x].state != Queued else r.pool[x] == q.pool[x]
    ensures Eligible(r, netdev, ids) == Without(Eligible(q, netdev, ids), gone)
    decreases |ids|
  {
    if ids == [] {
    } else {
      EligibleWithout(q, r, netdev, ids[1..], gone);
      var e := Eligible(q, netdev, ids[1..]);
      if EligibleOne(q, netdev, ids[0]) {
        assert ([ids[0]] + e)[1..] == e;
      } else {
        assert [] + e == e;
      }
    }
  }

  lemma {:induction false} SamePayloads(pool: seq<Datagram>, pool': seq<Datagram>, ids: seq<nat>, used: nat)
    requires Known(pool, ids) && |pool| == |pool'|
    requires forall x :: 0 <= x < |pool| ==> pool'[x].data == pool[x].data
    ensures Fit(pool', ids, used) == Fit(pool, ids, used)
    decreases |ids|
  {
    if ids == [] {
    } else {
      SamePayloads(pool, pool', ids[1..], used + WireSize(pool[ids[0]]));
    }
  }

  lemma {:induction false} SameGroups(pool: seq<Datagram>, pool': seq<Datagram>, ids: seq<nat>)
    requires Known(pool, ids) && |pool| == |pool'|
    requires forall x :: 0 <= x < |pool| ==> pool'[x].data == pool[x].data
    ensures Groups(pool', ids) == Groups(pool, ids)
    decreases |ids|
  {
    hide Fit;
    SamePayloads(pool, pool', ids, FRAME_HEADER_SIZE);
    var k := Fit(pool, ids, FRAME_HEADER_SIZE);
    if k > 0 {
      SameGroups(pool, pool', ids[k..]);
    }
  }

  lemma MarkedAll(q: Queue, ids: seq<nat>, now: nat)
    requires Known(q.pool, ids) && Distinct(ids)
    ensures var r := MarkSent(q, ids, now);
      |r.pool| == |q.pool| && forall x :: 0 <= x < |q.pool| ==>
        r.pool[x].data == q.pool[x].data && if x in ids then r.pool[x].state != Queued else r.pool[x] == q.pool[x]
  {
    hide MarkSent, Index;
    var r := MarkSent(q, ids, now);
    MarkedSize(q, ids, now);
    forall x | 0 <= x < |q.pool|
      ensures r.pool[x].data == q.pool[x].data && if x in ids then r.pool[x].state != Queued else r.pool[x] == q.pool[x]
    {
      MarkedSent(q, ids, now, x);
      if x in ids {
        var i :| 0 <= i < |ids| && ids[i] == x;
        MarkedIndex(q, ids, now, i);
      }
    }
  }

  lemma NextIndex(serial: nat)
    ensures Index(serial + 1) == (Index(serial) as int + 1) % 0x100
  {
  }

  /** After the first frame, sending goes on with the rest. */
  lemma SendUnrolls(q: Queue, netdev: nat, t: Clock)
    requires Inv(q)
    ensures var e := Eligible(q, netdev, q.queue);
      var k := Fit(q.pool, e, FRAME_HEADER_SIZE);
      && Known(q.pool, e)
      && (k == 0 ==> SendDatagrams(q, netdev, t) == q && Groups(q.pool, e) == [])
      && (k > 0 ==>
            var r := MarkSent(q, e[..k], t.sentAt(q.issued));
            && Inv(r) && Eligible(r, netdev, r.queue) == e[k..] && Known(r.pool, e[k..])
            && SendDatagrams(q, netdev, t) == SendDatagrams(r, netdev, t)
            && Groups(q.pool, e) == [e[..k]] + Groups(r.pool, e[k..])
            && r.issued == q.issued + k)
  {
    hide Inv, MarkSent, Eligible, Fit;
    var e := Eligible(q, netdev, q.queue);
    EligibleOk(q, netdev);
    var k := Fit(q.pool, e, FRAME_HEADER_SIZE);
    if k > 0 {
      var ids, now := e[..k], t.sentAt(q.issued);
      var r := MarkSent(q, ids, now);
      MarkSentKeeps(q, ids, now);
      var gone := set x | x in ids;
      MarkedAll(q, ids, now);
      MarkedSize(q, ids, now);
      EligibleWithout(q, r, netdev, q.queue, gone);
      WithoutPrefix(e, k);
      SameGroups(q.pool, r.pool, e[k..]);
      var g := Groups(q.pool, e);
      assert g == [ids] + Groups(q.pool, e[k..]);
      assert g[1..] == Groups(q.pool, e[k..]);
      assert SendGroups(q, g, t) == SendGroups(r, g[1..], t);
    }
  }

  // ----- numbering the datagrams of a frame -----

  /** The datagrams `ids` with consecutive indices from number `serial` on. */
  function Numbered(pool: seq<Datagram>, ids: seq<nat>, serial: nat): (r: seq<Datagram>)
    requires Known(pool, ids)
    ensures |r| == |pool|
    decreases |ids|
  {
    if ids == [] then pool
    else
      var last := |ids| - 1;
      var r := Numbered(pool, ids[..last], serial);
      r[ids[last] := r[ids[last]].(index := Index(serial + last), serial := serial + last)]
  }

  lemma {:induction false} NumberedAt(pool: seq<Datagram>, ids: seq<nat>, serial: nat, x: nat)
    requires Known(pool, ids) && x < |pool|
    ensures var d := Numbered(pool, ids, serial)[x];
      && d.(index := 0, serial := 0) == pool[x].(index := 0, serial := 0)
      && (x !in ids ==> d == pool[x])
      && (Distinct(ids) ==> forall i :: 0 <= i < |ids| && ids[i] == x ==>
          d.index == Index(serial + i) && d.serial == serial + i)
    decreases |ids|
  {
    if ids == [] {
    } else {
      var last := |ids| - 1;
      assert ids == ids[..last] + [ids[last]];
      NumberedAt(pool, ids[..last], serial, x);
    }
  }

  lemma {:induction false} EligibleSplit(q: Queue, netdev: nat, ids: seq<nat>)
    requires ids != []
    ensures Eligible(q, netdev, ids)
         == (if EligibleOne(q, netdev, ids[0]) then [ids[0]] else []) + Eligible(q, netdev, ids[1..])
  {
  }

  lemma NumberedAppend(pool: seq<Datagram>, ids: seq<nat>, id: nat, serial: nat)
    requires Known(pool, ids) && id < |pool|
    ensures Known(pool, ids + [id])
    ensures var r := Numbered(pool, ids, serial);
      Numbered(pool, ids + [id], serial)
      == r[id := r[id].(index := Index(serial + |ids|), serial := serial + |ids|)]
  {
    assert (ids + [id])[..|ids|] == ids;
  }

  lemma FitSplit(pool: seq<Datagram>, ids: seq<nat>, used: nat)
    requires Known(pool, ids) && ids != []
    ensures Fit(pool, ids, used) ==
      if used + WireSize(pool[ids[0]]) > ETH_DATA_LEN then 0 else 1 + Fit(pool, ids[1..], used + WireSize(pool[ids[0]]))
  {
  }

  lemma StartFrame(pool: seq<Datagram>)
    ensures forall serial :: Numbered(pool, [], serial) == pool
  {
  }

  lemma SlotByData(d: Datagram, e: Datagram, index: byte)
    requires d.(index := 0, serial := 0) == e.(index := 0, serial := 0)
    ensures SlotOf(d, index) == SlotOf(e, index)
  {
    WireSizeByData(d, e);
    assert d.(index := 0, serial := 0).dtype == e.(index := 0, serial := 0).dtype;
    assert d.(index := 0, serial := 0).address == e.(index := 0, serial := 0).address;
  }

  lemma WireSizeByData(d: Datagram, e: Datagram)
    requires d.(index := 0, serial := 0) == e.(index := 0, serial := 0)
    ensures WireSize(d) == WireSize(e) && d.data == e.data && d.state == e.state && d.netdev == e.netdev
  {
    assert d.(index := 0, serial := 0).data == e.(index := 0, serial := 0).data;
    assert d.(index := 0, serial := 0).state == e.(index := 0, serial := 0).state;
    assert d.(index := 0, serial := 0).netdev == e.(index := 0, serial := 0).netdev;
  }

  /** The buffer holds the images of the datagrams `sent`, and `cur` is the end of the last one. */
  ghost predicate InFrame(q: Queue, sent: seq<nat>, b: seq<byte>, cur: nat, followsWord: Option<nat>) {
    && Known(q.pool, sent) &&
    var s := SlotsOf(q.pool, sent, q.issued);
    && Sendable(s) && Holds(b, 2, Packed(s, false))
    && cur == 2 + TotalSize(s) == 2 + WireSum(q.pool, sent) <= ETH_DATA_LEN
    && (followsWord.Some? <==> s != [])
    && (s != [] ==> followsWord.value == 2 + TotalSize(s[..|s| - 1]) + 6)
  }

  lemma EmptyFrame(q: Queue, b: seq<byte>)
    requires |b| >= 2
    ensures InFrame(q, [], b, 2, None)
  {
    assert SlotsOf(q.pool, [], q.issued) == [];
  }

  lemma FrameParts(q: Queue, sent: seq<nat>, b: seq<byte>, cur: nat, followsWord: Option<nat>)
    requires InFrame(q, sent, b, cur, followsWord)
    ensures GoodGroup(q.pool, sent)
    ensures var s := SlotsOf(q.pool, sent, q.issued);
      && Sendable(s) && Holds(b, 2, Packed(s, false)) &&
           cur == 2 + TotalSize(s) == 2 + WireSum(q.pool, sent) <= ETH_DATA_LEN
      && (followsWord.Some? <==> s != [])
      && (s != [] ==> followsWord.value == 2 + TotalSize(s[..|s| - 1]) + 6)
  {
    hide Packed, Holds, TotalSize, WireSum, SlotsOf;
  }

  lemma SlotsGrow(q: Queue, sent: seq<nat>, id: nat)
    requires Known(q.pool, sent) && id < |q.pool|
    ensures Known(q.pool, sent + [id])
    ensures var s, t := SlotsOf(q.pool, sent, q.issued), SlotsOf(q.pool, sent + [id], q.issued);
      && t == s + [SlotOf(q.pool[id], Index(q.issued + |sent|))] && t[..|t| - 1] == s
      && TotalSize(t) == TotalSize(s) + WireSize(q.pool[id])
      && WireSum(q.pool, sent + [id]) == WireSum(q.pool, sent) + WireSize(q.pool[id])
  {
    hide TotalSize, WireSum, SlotsOf, Index;
    var s, x := SlotsOf(q.pool, sent, q.issued), SlotOf(q.pool[id], Index(q.issued + |sent|));
    TotalSizeAppend(s, x);
    SlotsAppend(q.pool, sent, id, q.issued);
    WireSumAppend(q.pool, sent, id);
    assert (s + [x])[..|s|] == s;
  }

  lemma FrameGrows(q: Queue, sent: seq<nat>, id: nat, b: seq<byte>, cur: nat, next: nat, follows: nat)
    requires Known(q.pool, sent) && id < |q.pool| && cur == 2 + WireSum(q.pool, sent)
    requires cur + WireSize(q.pool[id]) <= ETH_DATA_LEN
    requires var s, x := SlotsOf(q.pool, sent, q.issued), SlotOf(q.pool[id], Index(q.issued + |sent|));
      && Sendable(s + [x]) && Holds(b, 2, Packed(s + [x], false)) && next == 2 + TotalSize(s + [x])
      && cur == 2 + TotalSize(s) && follows == 2 + TotalSize(s) + 6
    ensures InFrame(q, sent + [id], b, next, Some(follows)) && next == cur + WireSize(q.pool[id])
  {
    hide Packed, Holds, TotalSize, WireSum, SlotsOf, SlotOf, Index, Sendable, WireSize;
    SlotsGrow(q, sent, id);
  }

  /** How far the inner loop has got: `sent` are packed, and the entries of the queue from `i` on are
      still to be looked at; `more` means that the next one did not fit. */
  ghost predicate Packing(q: Queue, netdev: nat, i: nat, sent: seq<nat>, more: bool, cur: nat) {
    var e := Eligible(q, netdev, q.queue);
    && i <= |q.queue| && Known(q.pool, e) && sent <= e && Known(q.pool, sent)
    && var rest := e[|sent|..];
    if more then rest != [] && Fit(q.pool, e, FRAME_HEADER_SIZE) == |sent|
    else rest == Eligible(q, netdev, q.queue[i..])
         && Fit(q.pool, e, FRAME_HEADER_SIZE) == |sent| + Fit(q.pool, rest, cur)
  }

  lemma PackingStarts(q: Queue, netdev: nat)
    ensures Packing(q, netdev, 0, [], false, FRAME_HEADER_SIZE)
  {
    assert q.queue[0..] == q.queue;
    var e := Eligible(q, netdev, q.queue);
    assert e[0..] == e;
  }

  /** Looking at the next entry of the queue. */
  lemma PackingStep(q: Queue, netdev: nat, i: nat, sent: seq<nat>, cur: nat)
    requires Packing(q, netdev, i, sent, false, cur) && i < |q.queue| && q.queue[i] < |q.pool|
    ensures var id := q.queue[i];
      if !EligibleOne(q, netdev, id) then Packing(q, netdev, i + 1, sent, false, cur)
      else if cur + WireSize(q.pool[id]) > ETH_DATA_LEN then Packing(q, netdev, i, sent, true, cur)
      else Packing(q, netdev, i + 1, sent + [id], false, cur + WireSize(q.pool[id]))
  {
    hide Eligible, Fit, WireSize;
    var e := Eligible(q, netdev, q.queue);
    var rest := e[|sent|..];
    var id := q.queue[i];
    EligibleSplit(q, netdev, q.queue[i..]);
    assert q.queue[i..][1..] == q.queue[i + 1..];
    if EligibleOne(q, netdev, id) {
      FitSplit(q.pool, rest, cur);
      assert e[|sent + [id]|..] == rest[1..];
    }
  }

  lemma PackingEnds(q: Queue, netdev: nat, i: nat, sent: seq<nat>, more: bool, cur: nat)
    requires Packing(q, netdev, i, sent, more, cur) && (more || i == |q.queue|)
    ensures var e := Eligible(q, netdev, q.queue);
      Known(q.pool, e) && sent == e[..Fit(q.pool, e, FRAME_HEADER_SIZE)] && more == (|sent| < |e|)
  {
    assert q.queue[|q.queue|..] == [];
    assert Eligible(q, netdev, []) == [];
    assert Fit(q.pool, [], cur) == 0;
  }

  lemma SlotsAppend(pool: seq<Datagram>, ids: seq<nat>, id: nat, serial: nat)
    requires Known(pool, ids) && id < |pool|
    ensures Known(pool, ids + [id])
    ensures SlotsOf(pool, ids + [id], serial) == SlotsOf(pool, ids, serial) + [SlotOf(pool[id], Index(serial + |ids|))]
  {
  }

  lemma {:induction false} WireSumAppend(pool: seq<Datagram>, ids: seq<nat>, id: nat)
    requires Known(pool, ids) && id < |pool|
    ensures Known(pool, ids + [id]) && WireSum(pool, ids + [id]) == WireSum(pool, ids) + WireSize(pool[id])
    decreases |ids|
  {
    if ids == [] {
      assert ids + [id] == [id];
      assert WireSum(pool, [id]) == WireSize(pool[id]) + WireSum(pool, [id][1..]);
    } else {
      WireSumAppend(pool, ids[1..], id);
      assert (ids + [id])[1..] == ids[1..] + [id];
    }
  }

  lemma NumberedThenSent(q: Queue, ids: seq<nat>, now: nat, x: nat)
    requires Known(q.pool, ids) && Distinct(ids) && x < |q.pool|
    ensures var d := Numbered(q.pool, ids, q.issued)[x];
      |MarkSent(q, ids, now).pool| == |q.pool| &&
      MarkSent(q, ids, now).pool[x] == if x in ids then d.(state := Sent, jiffiesSent := now) else d
  {
    hide Numbered, MarkSent, Index;
    NumberedAt(q.pool, ids, q.issued, x);
    MarkedSent(q, ids, now, x);
    if x in ids {
      var i :| 0 <= i < |ids| && ids[i] == x;
      MarkedIndex(q, ids, now, i);
    }
  }

  lemma {:induction false} MarkedRest(q: Queue, ids: seq<nat>, now: nat)
    requires Known(q.pool, ids)
    ensures MarkSent(q, ids, now) == q.(pool := MarkSent(q, ids, now).pool, issued := q.issued + |ids|)
    decreases |ids|
  {
    if ids == [] {
    } else {
      var d := q.pool[ids[0]].(state := Sent, index := Index(q.issued), serial := q.issued, jiffiesSent := now);
      MarkedRest(q.(pool := q.pool[ids[0] := d], issued := q.issued + 1), ids[1..], now);
    }
  }

  lemma NumberedNone(q: Queue)
    ensures Numbered(q.pool, [], q.issued) == q.pool
  {
  }

  lemma SameSlots(pool: seq<Datagram>, pool': seq<Datagram>, ids: seq<nat>, serial: nat)
    requires Known(pool, ids) && |pool| == |pool'|
    requires forall x :: 0 <= x < |pool| ==> SlotOf(pool'[x], 0) == SlotOf(pool[x], 0)
    ensures SlotsOf(pool', ids, serial) == SlotsOf(pool, ids, serial)
  {
  }

  lemma {:induction false} SameSum(pool: seq<Datagram>, pool': seq<Datagram>, ids: seq<nat>)
    requires Known(pool, ids) && |pool| == |pool'|
    requires forall x :: 0 <= x < |pool| ==> SlotOf(pool'[x], 0) == SlotOf(pool[x], 0)
    ensures WireSum(pool', ids) == WireSum(pool, ids)
    decreases |ids|
  {
    if ids == [] {
    } else {
      SameSum(pool, pool', ids[1..]);
      var x := ids[0];
      assert SlotOf(pool'[x], 0) == SlotOf(pool[x], 0);
    }
  }

  lemma {:induction false} SameFrames(pool: seq<Datagram>, pool': seq<Datagram>, g: seq<seq<nat>>, serial: nat)
    requires |pool| == |pool'|
    requires forall x :: 0 <= x < |pool| ==> SlotOf(pool'[x], 0) == SlotOf(pool[x], 0)
    ensures FramesOf(pool', g, serial) == FramesOf(pool, g, serial)
    decreases |g|
  {
    hide WireSum, SlotsOf, FrameOf;
    if g == [] {
    } else {
      if Known(pool, g[0]) {
        SameSum(pool, pool', g[0]);
      }
      if GoodGroup(pool, g[0]) {
        SameSlots(pool, pool', g[0], serial);
        SameFrames(pool, pool', g[1..], serial + |g[0]|);
      }
    }
  }

  /** Sending a frame leaves of a device's frames the later ones. */
  lemma FrameByFrame(q: Queue, netdev: nat, t: Clock)
    requires Inv(q)
    ensures var e := Eligible(q, netdev, q.queue);
      var k := Fit(q.pool, e, FRAME_HEADER_SIZE);
      && Known(q.pool, e)
      && (k == 0 ==> SendDatagrams(q, netdev, t) == q && FramesFor(q, netdev) == [])
      && (k > 0 ==>
            var r := MarkSent(q, e[..k], t.sentAt(q.issued));
            && Inv(r) && Eligible(r, netdev, r.queue) == e[k..] && GoodGroup(q.pool, e[..k])
            && SendDatagrams(q, netdev, t) == SendDatagrams(r, netdev, t)
            && FramesFor(q, netdev) == [FrameFor(q.pool, e[..k], q.issued)] + FramesFor(r, netdev))
  {
    hide Inv, Eligible, Fit, Groups, SendDatagrams, MarkSent, SlotsOf, FrameFor, WireSum;
    var e := Eligible(q, netdev, q.queue);
    var k := Fit(q.pool, e, FRAME_HEADER_SIZE);
    SendUnrolls(q, netdev, t);
    if k > 0 {
      var r := MarkSent(q, e[..k], t.sentAt(q.issued));
      var g := Groups(q.pool, e);
      AllGroupsGood(q.pool, e);
      assert g[0] == e[..k];
      assert g[1..] == Groups(r.pool, e[k..]);
      EligibleOk(q, netdev);
      SameContents(q, e[..k], t.sentAt(q.issued));
      SameFrames(q.pool, r.pool, g[1..], r.issued);
    }
  }

  lemma SameContents(q: Queue, ids: seq<nat>, now: nat)
    requires Known(q.pool, ids) && Distinct(ids)
    ensures var r := MarkSent(q, ids, now);
      |r.pool| == |q.pool| && forall x :: 0 <= x < |q.pool| ==> SlotOf(r.pool[x], 0) == SlotOf(q.pool[x], 0)
  {
    hide MarkSent, Index;
    MarkedSize(q, ids, now);
    forall x | 0 <= x < |q.pool| ensures SlotOf(MarkSent(q, ids, now).pool[x], 0) == SlotOf(q.pool[x], 0) {
      MarkedSent(q, ids, now, x);
      if x in ids {
        var i :| 0 <= i < |ids| && ids[i] == x;
        MarkedIndex(q, ids, now, i);
      }
    }
  }

  /** The outer loop of ec_master_send_datagrams: from state `q` it has sent `frames` and reached state `r`. */
  ghost predicate Sending(q: Queue, r: Queue, netdev: nat, t: Clock, frames: seq<seq<byte>>) {
    && SendDatagrams(q, netdev, t) == SendDatagrams(r, netdev, t)
    && FramesFor(q, netdev) == frames + FramesFor(r, netdev)
  }

  lemma SendingStarts(q: Queue, netdev: nat, t: Clock)
    ensures Sending(q, q, netdev, t, [])
  {
  }

  lemma SendingStep(q: Queue, r: Queue, netdev: nat, t: Clock, frames: seq<seq<byte>>)
    requires Inv(r) && Sending(q, r, netdev, t, frames)
    ensures var e := Eligible(r, netdev, r.queue);
      var k := Fit(r.pool, e, FRAME_HEADER_SIZE);
      && Known(r.pool, e)
      && (k == 0 ==> SendDatagrams(q, netdev, t) == r && FramesFor(q, netdev) == frames)
      && (k > 0 ==>
            var r' := MarkSent(r, e[..k], t.sentAt(r.issued));
            && Inv(r') && Eligible(r', netdev, r'.queue) == e[k..] && Distinct(e[..k])
            && GoodGroup(r.pool, e[..k])
            && Sending(q, r', netdev, t, frames + [FrameFor(r.pool, e[..k], r.issued)]))
  {
    hide Inv, Eligible, Fit, SendDatagrams, MarkSent, SlotsOf, FrameFor, WireSum, FramesFor, GoodGroup;
    FrameByFrame(r, netdev, t);
    EligibleOk(r, netdev);
    var e := Eligible(r, netdev, r.queue);
    var k := Fit(r.pool, e, FRAME_HEADER_SIZE);
    if k == 0 {
      assert frames + [] == frames;
    } else {
      var r' := MarkSent(r, e[..k], t.sentAt(r.issued));
      var f := FrameFor(r.pool, e[..k], r.issued);
      assert frames + ([f] + FramesFor(r', netdev)) == (frames + [f]) + FramesFor(r', netdev);
    }
  }

  /** The frames that the devices from `netdev` on send. */
  ghost function FramesFrom(q: Queue, links: seq<bool>, netdev: nat, t: Clock): seq<seq<seq<byte>>>
    decreases |links| - netdev
  {
    if netdev >= |links| then []
    else if links[netdev] then [FramesFor(q, netdev)] + FramesFrom(SendDatagrams(q, netdev, t), links, netdev + 1, t)
    else [[]] + FramesFrom(LinkDownPass(q, netdev), links, netdev + 1, t)
  }

  lemma SendFromStep(q: Queue, links: seq<bool>, netdev: nat, t: Clock)
    requires netdev < |links|
    ensures var r := if links[netdev] then SendDatagrams(q, netdev, t) else LinkDownPass(q, netdev);
      && SendFrom(q, links, netdev, t) == SendFrom(r, links, netdev + 1, t)
      && FramesFrom(q, links, netdev, t)
         == [if links[netdev] then FramesFor(q, netdev) else []] + FramesFrom(r, links, netdev + 1, t)
  {
    hide SendDatagrams, LinkDownPass, FramesFor;
  }

  lemma SendFromEnd(q: Queue, links: seq<bool>, t: Clock)
    ensures SendFrom(q, links, |links|, t) == q && FramesFrom(q, links, |links|, t) == []
  {
  }

  // ----- receiving -----

  lemma ParseStep(b: seq<byte>, pos: nat, size: nat)
    requires pos <= size && size + DATAGRAM_HEADER_SIZE <= |b|
    ensures var next := pos + DATAGRAM_HEADER_SIZE + DataLen(b, pos) + WC_SIZE;
      if next > size then ParseFrom(b, pos, size) == Parsed([], false)
      else
        var rest := if Follows(b, pos) then ParseFrom(b, next, size) else Parsed([], true);
        ParseFrom(b, pos, size) == Parsed([ReplyAt(b, pos)] + rest.replies, rest.intact)
  {
    hide DataLen, Follows, ReplyAt;
  }

  lemma ReceiveStep(q: Queue, r: Reply, rest: seq<Reply>, now: nat)
    ensures ReceiveAll(q, [r] + rest, now) == ReceiveAll(ReceiveOne(q, r, now), rest, now)
  {
    hide ReceiveOne;
    assert ([r] + rest)[1..] == rest;
  }

  lemma ReceiveNone(q: Queue, now: nat)
    ensures ReceiveAll(q, [], now) == q
  {
  }

  lemma NothingFits(pool: seq<Datagram>)
    ensures Fit(pool, [], FRAME_HEADER_SIZE) == 0
  {
  }

  class Master {
    var datagrams: array<Datagram>
    var queue: seq<nat>
    var datagramIndex: byte
    var timeouts: nat
    var corrupted: nat
    var unmatched: nat
    var issued: nat  // number of indices handed out; only used to state what the indices are

    ghost predicate Valid()
      reads this
    {
      datagramIndex == Index(issued) && QueueInPool()
    }

    ghost predicate QueueInPool()
      reads this
    {
      forall i :: 0 <= i < |queue| ==> queue[i] < datagrams.Length
    }

    ghost function State(): Queue
      reads this, datagrams
    {
      Queue(datagrams[..], queue, issued, timeouts, corrupted, unmatched)
    }

    /** ec_master_init */
    constructor (pool: array<Datagram>)
      requires forall x :: 0 <= x < pool.Length ==>
        pool[x].state == Init && !pool[x].waiter && pool[x].signals == 0 && !pool[x].cleared
      ensures datagrams == pool && Valid() && Fresh(State())
    {
      datagrams := pool;
      queue := [];
      datagramIndex := 1;
      timeouts, corrupted, unmatched := 0, 0, 0;
      issued := 0;
    }

    /** ec_master_queue_datagram */
    method QueueDatagram(id: nat)
      requires Valid() && id < datagrams.Length
      modifies this`queue, datagrams
      ensures Valid() && State() == DatagramQueue.QueueDatagram(old(State()), id)
      ensures queue == if id in old(queue) then old(queue) else old(queue) + [id]
      ensures datagrams[..] == old(datagrams[..])[id := old(datagrams[id]).(state := Queued, cleared := false)]
    {
      var i := 0;
      while i < |queue|
        invariant 0 <= i <= |queue|
        invariant forall k :: 0 <= k < i ==> queue[k] != id
        invariant State() == old(State()) && Valid()
      {
        if queue[i] == id {
          datagrams[id] := datagrams[id].(state := Queued, cleared := false);
          return;
        }
        i := i + 1;
      }
      queue := queue + [id];
      datagrams[id] := datagrams[id].(state := Queued, cleared := false);
    }

    /** ec_master_queue_ext_datagram before it waits: the waiter is noted, then the datagram is queued. */
    method QueueExtDatagram(id: nat, waiter: bool)
      requires Valid() && id < datagrams.Length
      modifies this`queue, datagrams
      ensures Valid() && State() == QueueExt(old(State()), id, waiter)
      ensures queue == if id in old(queue) then old(queue) else old(queue) + [id]
      ensures datagrams[..] ==
        old(datagrams[..])[id := old(datagrams[id]).(state := Queued, cleared := false, waiter := waiter)]
    {
      datagrams[id] := datagrams[id].(waiter := waiter);
      QueueDatagram(id);
    }

    /** The rest of ec_master_queue_ext_datagram once the semaphore is raised. */
    method TakeResult(id: nat) returns (ret: int)
      requires Valid() && id < datagrams.Length && datagrams[id].signals > 0
      modifies datagrams
      ensures Valid() && State() == Apply(old(State()), DoTake(id)) && ret == ResultOf(old(datagrams[id]))
      ensures Inv(old(State())) ==> id !in queue && Final(old(datagrams[id]).state)
      ensures old(datagrams[id]).state == Received ==> ret == if old(datagrams[id]).wc == 0 then -6 else 0
      ensures (old(datagrams[id]).state == TimedOut ==> ret == -3) && (old(datagrams[id]).state == Error ==> ret == -5)
    {
      assert Inv(State()) ==> DatagramOk(datagrams[id], id in queue, issued) by {
        assert datagrams[id] == State().pool[id];
      }
      datagrams[id] := datagrams[id].(signals := datagrams[id].signals - 1);
      if datagrams[id].state == Received {
        ret := if datagrams[id].wc == 0 then -EC_ERR_WC else 0;
      } else if datagrams[id].state == TimedOut {
        ret := -EC_ERR_TIMEOUT;
      } else if datagrams[id].state == Error {
        ret := -EC_ERR_IO;
      } else {
        ret := -EC_ERR_UNKNOWN;
      }
    }

    /** A final state, then ec_master_unqueue_datagram. */
    method UnqueueDatagram(id: nat, s: State)
      requires Valid() && id < datagrams.Length
      modifies this`queue, datagrams
      ensures Valid() && datagrams[..] == old(datagrams[..])[id := Leave(old(datagrams[id]), s)]
      ensures queue == Without(old(queue), {id})
      ensures var d := old(datagrams[id]);
        datagrams[id] == d.(state := s, waiter := false, signals := d.signals + if d.waiter then 1 else 0)
    {
      datagrams[id] := datagrams[id].(state := s);
      queue := Without(queue, {id});
      assert forall i :: 0 <= i < |queue| ==> queue[i] in queue;
      if datagrams[id].waiter {
        datagrams[id] := datagrams[id].(waiter := false, signals := datagrams[id].signals + 1);
      }
    }

    /** ec_datagram_unqueue, the first thing that ec_datagram_clear does: a linked datagram leaves the queue with the
        state it has. */
    method ClearDatagram(id: nat)
      requires Valid() && id < datagrams.Length
      modifies this`queue, datagrams
      ensures Valid() && State() == Clear(old(State()), id)
      ensures Inv(old(State())) && Enabled(old(State()), DoClear(id)) ==> Inv(State())
      ensures id !in queue && forall x :: x in queue <==> x in old(queue) && x != id
      ensures var d := old(datagrams[id]);
        datagrams[..] == old(datagrams[..])[id := if id in old(queue) then d.(cleared := true) else d]
    {
      ghost var q := State();
      var linked := exists i :: 0 <= i < |queue| && queue[i] == id;
      if linked {
        datagrams[id] := datagrams[id].(cleared := true);
      }
      queue := Without(queue, {id});
      assert forall i :: 0 <= i < |queue| ==> queue[i] in queue;
      if Inv(q) && Enabled(q, DoClear(id)) {
        ClearKeeps(q, id);
      }
    }

    method TimeOutOne(id: nat, t: Clock, ghost q: Queue, ghost gone: set<nat>)
      requires Valid() && id < |q.pool| && id !in gone
      requires State() == Release(q, gone, TimedOut).(timeouts := q.timeouts + |gone|)
      modifies this`queue, this`timeouts, datagrams
      ensures var more: set<nat> := if Overdue(q.pool[id], t.checked(id)) then gone + {id} else gone;
        Valid() && State() == Release(q, more, TimedOut).(timeouts := q.timeouts + |more|)
    {
      hide Release, Without, Leave;
      ReleaseOne(q, gone, id, TimedOut);
      assert datagrams[id] == datagrams[..][id];
      if datagrams[id].state == Sent && Elapsed(t.checked(id), datagrams[id].jiffiesSent) > DATAGRAM_TIMEOUT_NS {
        UnqueueDatagram(id, TimedOut);
        timeouts := timeouts + 1;
        assert State() == Release(q, gone + {id}, TimedOut).(timeouts := q.timeouts + |gone| + 1);
      }
    }

    /** The first loop of ec_master_send. It goes through the entries that were queued when it
        started, which is what the safe iteration over the list does. */
    method TimeOutOverdue(t: Clock)
      requires Valid() && Distinct(queue)
      modifies this`queue, this`timeouts, datagrams
      ensures Valid() && State() == TimeoutPass(old(State()), t)
    {
      hide Release, Without, Leave, OverdueIn, Overdue, AllOverdue;
      ghost var q := State();
      var entries := queue;
      var i := 0;
      ReleaseNone(q, TimedOut);
      OverdueEnds(q, t);
      assert entries[..0] == [];
      while i < |entries|
        invariant 0 <= i <= |entries| && Valid()
        invariant State() == Release(q, OverdueIn(q, entries[..i], t), TimedOut)
                             .(timeouts := q.timeouts + |OverdueIn(q, entries[..i], t)|)
      {
        ghost var gone := OverdueIn(q, entries[..i], t);
        OverdueNext(q, entries, t, i);
        TimeOutOne(entries[i], t, q, gone);
        assert gone + {} == gone;
        i := i + 1;
      }
      assert entries[..i] == entries;
    }

    /** The loop of ec_master_send for a device whose link is down. */
    method DropAll(netdev: nat)
      requires Valid() && Distinct(queue)
      modifies this`queue, datagrams
      ensures Valid() && State() == LinkDownPass(old(State()), netdev)
    {
      hide Release, Without, Leave, Chosen;
      ghost var q := State();
      ghost var p := (d: Datagram) => d.netdev == netdev;
      var entries := queue;
      var i := 0;
      ReleaseNone(q, Error);
      ChosenOn(q.pool, entries, p, netdev);
      while i < |entries|
        invariant 0 <= i <= |entries| && Valid()
        invariant State() == Release(q, Chosen(q.pool, entries[..i], p), Error)
      {
        ghost var gone := Chosen(q.pool, entries[..i], p);
        var id := entries[i];
        ChosenNext(q.pool, entries, p, i);
        ReleaseOne(q, gone, id, Error);
        assert datagrams[id] == datagrams[..][id];
        assert p(q.pool[id]) == (datagrams[id].netdev == netdev);
        if datagrams[id].netdev == netdev {
          UnqueueDatagram(id, Error);
          assert State() == Release(q, gone + {id}, Error);
        } else {
          assert gone + {} == gone;
        }
        i := i + 1;
      }
      assert entries[..i] == entries;
    }

    /** The search loop of ec_master_receive_datagrams. */
    method FindDatagram(r: Reply) returns (m: Option<nat>)
      requires Valid()
      ensures m == FindMatch(datagrams[..], queue, r)
    {
      var i := 0;
      while i < |queue|
        invariant 0 <= i <= |queue|
        invariant FindMatch(datagrams[..], queue, r) == FindMatch(datagrams[..], queue[i..], r)
      {
        var d := datagrams[queue[i]];
        if d.index == r.index && d.state == Sent && d.dtype == r.dtype && |d.data| == |r.data| {
          return Some(queue[i]);
        }
        i := i + 1;
      }
      m := None;
    }

    /** ec_master_receive_datagrams */
    method ReceiveDatagrams(frame: array<byte>, size: nat, now: nat)
      requires Valid() && frame != datagrams as object && size + DATAGRAM_HEADER_SIZE <= frame.Length
      modifies this`queue, this`corrupted, this`unmatched, datagrams
      ensures Valid() && State() == Receive(old(State()), old(frame[..]), size, now)
    {
      hide ParseFrom, DataLen, Follows, ReplyAt, ReceiveOne, ReceiveAll, ReadU16;
      ghost var q, b := State(), frame[..];
      ReceiveNone(q, now);
      if size < FRAME_HEADER_SIZE {
        corrupted := corrupted + 1;
        return;
      }
      var frameSize := ReadU16(frame[..], 0) % 0x800;
      if frameSize > size {
        corrupted := corrupted + 1;
        return;
      }
      var cur := FRAME_HEADER_SIZE;
      var follows := true;
      ghost var all := ParseFrom(b, cur, size);
      ghost var left := all;
      while follows
        invariant Valid() && frame[..] == b && corrupted == q.corrupted
        invariant if follows then cur <= size && left == ParseFrom(b, cur, size) else left == Parsed([], true)
        invariant ReceiveAll(State(), left.replies, now) == ReceiveAll(q, all.replies, now)
        invariant left.intact == all.intact
        decreases if follows then 1 + size - cur else 0
      {
        ParseStep(b, cur, size);
        var len := DataLen(frame[..], cur);
        var next := cur + DATAGRAM_HEADER_SIZE + len + WC_SIZE;
        if next > size {
          ReceiveNone(State(), now);
          corrupted := corrupted + 1;
          return;
        }
        var r := ReplyAt(frame[..], cur);
        ghost var rest := if Follows(b, cur) then ParseFrom(b, next, size) else Parsed([], true);
        ReceiveStep(State(), r, rest.replies, now);
        Match(r, now);
        follows := Follows(frame[..], cur);
        cur := next;
        left := rest;
      }
      ReceiveNone(State(), now);
    }

    /** What happens to one returned datagram. */
    method Match(r: Reply, now: nat)
      requires Valid()
      modifies this`queue, this`unmatched, datagrams
      ensures Valid() && State() == ReceiveOne(old(State()), r, now)
    {
      var m := FindDatagram(r);
      if m.None? {
        unmatched := unmatched + 1;
        return;
      }
      var id := m.value;
      var d := datagrams[id];
      if d.dtype != 0x02 && d.dtype != 0x05 && d.dtype != 0x08 && d.dtype != 0x0B {
        d := d.(data := r.data);
      }
      datagrams[id] := d.(wc := r.wc, jiffiesReceived := now);
      UnqueueDatagram(id, Received);
      assert datagrams[..] == old(datagrams[..])[id := Answered(old(datagrams[id]), r, now)];
    }

    /** A datagram that is packed gets the next index. */
    method TakeIndex(id: nat, ghost q: Queue, ghost sent: seq<nat>) returns (index: byte)
      requires Valid() && Known(q.pool, sent) && id < |q.pool|
      requires State() == q.(pool := Numbered(q.pool, sent, q.issued), issued := q.issued + |sent|)
      modifies this`datagramIndex, this`issued, datagrams
      ensures Valid() && Known(q.pool, sent + [id]) && index == Index(q.issued + |sent|)
      ensures State() == q.(pool := Numbered(q.pool, sent + [id], q.issued), issued := q.issued + |sent| + 1)
      ensures SlotOf(datagrams[id], index) == SlotOf(q.pool[id], index)
    {
      hide Numbered, Index;
      NextIndex(issued);
      NumberedAt(q.pool, sent, q.issued, id);
      NumberedAppend(q.pool, sent, id, q.issued);
      ghost var before := datagrams[..];
      assert datagrams[id] == before[id];
      SlotByData(datagrams[id], q.pool[id], datagramIndex);
      index := datagramIndex;
      datagrams[id] := datagrams[id].(index := index, serial := issued);
      assert datagrams[..] == before[id := before[id].(index := index, serial := issued)];
      datagramIndex := (datagramIndex as int + 1) % 0x100;
      issued := issued + 1;
    }

    /** Packing one datagram: it gets the next index and its image goes into the buffer. */
    method AddToFrame(buf: array<byte>, cur: nat, followsWord: Option<nat>, id: nat, ghost q: Queue,
                      ghost sent: seq<nat>)
      returns (next: nat, follows: nat)
      requires Valid() && buf.Length == ETH_DATA_LEN && buf != datagrams as object
      requires Known(q.pool, sent) && id < |q.pool|
      requires State() == q.(pool := Numbered(q.pool, sent, q.issued), issued := q.issued + |sent|)
      requires InFrame(q, sent, buf[..], cur, followsWord) && cur + WireSize(q.pool[id]) <= ETH_DATA_LEN
      modifies this`datagramIndex, this`issued, datagrams, buf
      ensures Valid() && Known(q.pool, sent + [id])
      ensures State() == q.(pool := Numbered(q.pool, sent + [id], q.issued), issued := q.issued + |sent| + 1)
      ensures InFrame(q, sent + [id], buf[..], next, Some(follows)) && next == cur + WireSize(q.pool[id])
    {
      hide Packed, Holds, TotalSize, WireSum, Numbered, InFrame, SlotsOf;
      ghost var slots := SlotsOf(q.pool, sent, q.issued);
      FrameParts(q, sent, buf[..], cur, followsWord);
      var index := TakeIndex(id, q, sent);
      ghost var state := State();
      var x := SlotOf(datagrams[id], index);
      next, follows := AppendDatagram(buf, cur, followsWord, x, slots);
      assert State() == state;
      FrameGrows(q, sent, id, buf[..], cur, next, follows);
    }

    /** The inner loop of ec_master_send_datagrams: packs the waiting datagrams of the device into one frame,
        as many as fit, and gives them their indices. */
    method FillFrame(netdev: nat) returns (sent: seq<nat>, frame: seq<byte>, more: bool)
      requires Valid() && Distinct(queue)
      modifies this`datagramIndex, this`issued, datagrams
      ensures Valid()
      ensures var q := old(State());
        var e := Eligible(q, netdev, q.queue);
        && Known(q.pool, e) && sent == e[..Fit(q.pool, e, FRAME_HEADER_SIZE)] && more == (|sent| < |e|)
        && State() == q.(pool := Numbered(q.pool, sent, q.issued), issued := q.issued + |sent|)
        && GoodGroup(q.pool, sent) && (sent != [] ==> frame == FrameFor(q.pool, sent, q.issued))
    {
      hide Image, Packed, Holds, TotalSize, FrameOf, Eligible, Fit, WireSum, Numbered, InFrame, WireSize, Packing;
      ghost var q := State();
      StartFrame(q.pool);
      PackingStarts(q, netdev);
      var buf := new byte[ETH_DATA_LEN];
      var cur: nat := FRAME_HEADER_SIZE;
      var followsWord: Option<nat> := None;
      sent, more := [], false;
      var i := 0;
      EmptyFrame(q, buf[..]);
      while i < |queue| && !more
        invariant 0 <= i <= |queue| && Valid() && fresh(buf) && Known(q.pool, sent)
        invariant Packing(q, netdev, i, sent, more, cur)
        invariant State() == q.(pool := Numbered(q.pool, sent, q.issued), issued := q.issued + |sent|)
        invariant InFrame(q, sent, buf[..], cur, followsWord)
        decreases |queue| - i, !more
      {
        var id := queue[i];
        PackingStep(q, netdev, i, sent, cur);
        NumberedAt(q.pool, sent, q.issued, id);
        assert datagrams[id] == datagrams[..][id];
        WireSizeByData(datagrams[id], q.pool[id]);
        if datagrams[id].state != Queued || datagrams[id].netdev != netdev {
          i := i + 1;
        } else if cur + WireSize(datagrams[id]) > ETH_DATA_LEN {
          more := true;
        } else {
          var follows;
          cur, follows := AddToFrame(buf, cur, followsWord, id, q, sent);
          followsWord := Some(follows);
          sent := sent + [id];
          i := i + 1;
        }
      }
      PackingEnds(q, netdev, i, sent, more, cur);
      FrameParts(q, sent, buf[..], cur, followsWord);
      frame := [];
      if sent != [] {
        frame := CloseFrame(buf, cur, SlotsOf(q.pool, sent, q.issued));
      }
    }

    /** The loop over the datagrams of a frame that has been handed to the device. */
    method MarkFrame(sent: seq<nat>, now: nat, ghost q: Queue)
      requires Valid() && Known(q.pool, sent) && Distinct(sent)
      requires State() == q.(pool := Numbered(q.pool, sent, q.issued), issued := q.issued + |sent|)
      modifies datagrams
      ensures Valid() && State() == MarkSent(q, sent, now)
    {
      hide Numbered, MarkSent;
      ghost var start := datagrams[..];
      var i := 0;
      while i < |sent|
        invariant 0 <= i <= |sent| && Valid() && |start| == datagrams.Length
        invariant forall x :: 0 <= x < datagrams.Length ==>
          datagrams[x] == if x in sent[..i] then start[x].(state := Sent, jiffiesSent := now) else start[x]
      {
        assert sent[..i + 1] == sent[..i] + [sent[i]];
        datagrams[sent[i]] := datagrams[sent[i]].(state := Sent, jiffiesSent := now);
        i := i + 1;
      }
      assert sent[..i] == sent;
      MarkedSize(q, sent, now);
      forall x | 0 <= x < datagrams.Length ensures datagrams[x] == MarkSent(q, sent, now).pool[x] {
        NumberedThenSent(q, sent, now, x);
      }
      MarkedRest(q, sent, now);
      assert datagrams[..] == MarkSent(q, sent, now).pool;
    }

    /** ec_master_send_datagrams: frame after frame until nothing more fits or waits. The result are
        the bytes handed to the device. */
    method SendDatagrams(netdev: nat, t: Clock) returns (frames: seq<seq<byte>>)
      requires Valid() && Inv(State())
      modifies this`datagramIndex, this`issued, datagrams
      ensures Valid() && State() == DatagramQueue.SendDatagrams(old(State()), netdev, t)
      ensures frames == FramesFor(old(State()), netdev)
    {
      hide Inv, Eligible, Groups, Fit, MarkSent, Numbered, FrameFor, TotalSize, Sending, FramesFor, WireSum,
        DatagramQueue.SendDatagrams, SlotsOf;
      ghost var q := State();
      SendingStarts(q, netdev, t);
      frames := [];
      var more := true;
      while more
        invariant Valid() && Inv(State())
        invariant Sending(q, State(), netdev, t, frames)
        invariant !more ==> Eligible(State(), netdev, queue) == []
        decreases |Eligible(State(), netdev, queue)|, more
      {
        ghost var r := State();
        QueueDistinct(r);
        SendingStep(q, r, netdev, t, frames);
        var first := issued;
        var sent, frame;
        sent, frame, more := FillFrame(netdev);
        if sent == [] {
          NumberedNone(r);
          return;
        }
        frames := frames + [frame];
        MarkFrame(sent, t.sentAt(first), r);
      }
      NothingFits(State().pool);
      SendingStep(q, State(), netdev, t, frames);
    }

    /** ec_master_send: overdue datagrams are given up, a device without a link loses its datagrams, and
        the other devices send. The result are the frames of each device. */
    method Send(links: seq<bool>, t: Clock) returns (frames: seq<seq<seq<byte>>>)
      requires Valid() && Inv(State())
      modifies this`queue, this`timeouts, this`datagramIndex, this`issued, datagrams
      ensures Valid() && Inv(State()) && State() == DatagramQueue.Send(old(State()), links, t)
      ensures frames == FramesFrom(TimeoutPass(old(State()), t), links, 0, t)
    {
      hide Inv, TimeoutPass, LinkDownPass, FramesFor, FramesFrom, SendFrom, DatagramQueue.SendDatagrams;
      ghost var q := State();
      QueueDistinct(q);
      TimeoutKeeps(q, t);
      TimeOutOverdue(t);
      ghost var start := State();
      frames := [];
      var netdev := 0;
      while netdev < |links|
        invariant 0 <= netdev <= |links| && Valid() && Inv(State())
        invariant SendFrom(State(), links, netdev, t) == SendFrom(start, links, 0, t)
        invariant frames + FramesFrom(State(), links, netdev, t) == FramesFrom(start, links, 0, t)
      {
        ghost var r := State();
        QueueDistinct(r);
        SendFromStep(r, links, netdev, t);
        var out := [];
        if links[netdev] {
          SendDatagramsKeeps(r, netdev, t);
          out := SendDatagrams(netdev, t);
        } else {
          LinkDownKeeps(r, netdev);
          DropAll(netdev);
        }
        assert (frames + [out]) + FramesFrom(State(), links, netdev + 1, t)
            == frames + ([out] + FramesFrom(State(), links, netdev + 1, t));
        frames := frames + [out];
        netdev := netdev + 1;
      }
      SendFromEnd(State(), links, t);
    }
  }
}
