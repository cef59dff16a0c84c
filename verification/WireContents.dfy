/** What the bytes of a sent frame say (src/ec_master.c:38-118; the layout is in section 4.4 of ETG.1000.4), byte by
    byte. */
module WireContents {
  import opened Words
  import opened ByteBuffers
  import opened FrameCodec
  import opened DatagramQueue
  import opened DatagramRuns
  import opened FrameTraffic
  import opened FrameReturns
  import QueueMaster

  /** The datagram `d` stands in the frame `f` from position `p` on: type, index, address, the length word with the flag
      that another datagram follows, the interrupt field, the data, and a counter of zero. */
  predicate Stands(f: seq<byte>, p: nat, d: Datagram, index: int, follows: bool) {
    && p + 12 + |d.data| <= |f|
    && f[p] == d.dtype && f[p + 1] == index
    && f[p + 2..p + 6] == d.address
    && f[p + 6] as int + 0x100 * f[p + 7] as int == |d.data| + (if follows then 0x8000 else 0)
    && f[p + 8] == 0 && f[p + 9] == 0
    && f[p + 10..p + 10 + |d.data|] == d.data
    && f[p + 10 + |d.data|] == 0 && f[p + 11 + |d.data|] == 0
  }

  /** The room that the first `k` datagrams take. */
  function RoomOf(pool: seq<Datagram>, ids: seq<nat>, k: nat): nat
    requires Known(pool, ids) && k <= |ids|
  {
    if k == 0 then 0 else RoomOf(pool, ids, k - 1) + 12 + |pool[ids[k - 1]].data|
  }

  lemma {:induction false} TotalSizeNext(s: seq<Slot>, k: nat)
    requires k < |s|
    ensures TotalSize(s[..k + 1]) == TotalSize(s[..k]) + 12 + |s[k].data|
    decreases k
  {
    if k == 0 {
      assert s[..1][1..] == [] && s[..0] == [];
    } else {
      TotalSizeNext(s[1..], k - 1);
      assert s[..k + 1][1..] == s[1..][..k] && s[..k][1..] == s[1..][..k - 1];
    }
  }

  lemma {:induction false} RoomIs(pool: seq<Datagram>, ids: seq<nat>, serial: nat, k: nat)
    requires Known(pool, ids) && k <= |ids|
    ensures TotalSize(SlotsOf(pool, ids, serial)[..k]) == RoomOf(pool, ids, k)
    decreases k
  {
    var s := SlotsOf(pool, ids, serial);
    if k == 0 {
      assert s[..0] == [];
    } else {
      RoomIs(pool, ids, serial, k - 1);
      TotalSizeNext(s, k - 1);
    }
  }

  /** The `k`-th image of a packed sequence. */
  lemma {:induction false} PackedAt(b: seq<byte>, pos: nat, s: seq<Slot>, k: nat)
    requires Sendable(s) && k < |s| && Holds(b, pos, Packed(s, false))
    ensures Holds(b, pos + TotalSize(s[..k]), Image(s[k], k + 1 < |s|))
    decreases k
  {
    hide Image, Holds;
    HoldsParts(b, pos, Image(s[0], |s| > 1), Packed(s[1..], false));
    if k == 0 {
      assert s[..0] == [];
    } else {
      PackedAt(b, pos + SlotSize(s[0]), s[1..], k - 1);
      assert s[..k][1..] == s[1..][..k - 1];
    }
  }

  lemma WordRead(b: seq<byte>, pos: nat, w: u16)
    requires Holds(b, pos, Le16(w))
    ensures pos + 2 <= |b| && b[pos] as int + 0x100 * b[pos + 1] as int == w
  {
    assert b[pos..pos + 2][0] == w % 0x100 && b[pos..pos + 2][1] == w / 0x100;
  }

  lemma ImageStands(f: seq<byte>, p: nat, d: Datagram, index: byte, follows: bool)
    requires |d.data| < 0x800 && Holds(f, p, Image(SlotOf(d, index), follows))
    ensures Stands(f, p, d, index, follows)
  {
    var s := SlotOf(d, index);
    hide Image, Le16;
    ImageParts(f, p, s, follows);
    WordRead(f, p + 6, LengthWord(|d.data|, follows));
    WordRead(f, p + 10 + |d.data|, 0);
    assert f[p + 8..p + 10] == s.irq;
  }

  /** The frame made of `ids`: length and type in its first two bytes, the datagrams one behind the other, zeros up to
      46 bytes. */
  lemma FrameStands(pool: seq<Datagram>, ids: seq<nat>, serial: nat, k: nat)
    requires QueueMaster.GoodGroup(pool, ids)
    ensures var f := FrameBytes(SlotsOf(pool, ids, serial));
      var room := RoomOf(pool, ids, |ids|);
      && |f| == (if room < 44 then 46 else room + 2) && |f| <= 1500
      && f[0] as int + 0x100 * f[1] as int == 0x1000 + room
      && (forall i :: room + 2 <= i < |f| ==> f[i] == 0)
      && (k < |ids| ==> Stands(f, 2 + RoomOf(pool, ids, k), pool[ids[k]], (1 + serial + k) % 0x100, k + 1 < |ids|))
  {
    hide WireSum, TotalSize, Packed, Image, RoomOf;
    var s := SlotsOf(pool, ids, serial);
    QueueMaster.GroupFits(pool, ids, serial);
    RoomIs(pool, ids, serial, |ids|);
    assert s[..|ids|] == s;
    var f := FrameOf(s);
    var body := Le16(TotalSize(s) + 0x1000) + Packed(s, false);
    assert Holds(f, 0, body) by {
      assert f[..|body|] == body;
    }
    hide FrameOf, Holds, Le16;
    HoldsParts(f, 0, Le16(TotalSize(s) + 0x1000), Packed(s, false));
    WordRead(f, 0, TotalSize(s) + 0x1000);
    FramePadding(s);
    if k < |ids| {
      PackedAt(f, 2, s, k);
      RoomIs(pool, ids, serial, k);
      ImageStands(f, 2 + RoomOf(pool, ids, k), pool[ids[k]], Index(serial + k), k + 1 < |ids|);
    }
  }

  lemma FramePadding(s: seq<Slot>)
    requires Sendable(s) && TotalSize(s) + 2 <= 1500
    ensures var f := FrameOf(s);
      && |f| == (if TotalSize(s) < 44 then 46 else TotalSize(s) + 2)
      && forall i :: TotalSize(s) + 2 <= i < |f| ==> f[i] == 0
  {
    hide Packed, TotalSize, Le16;
    var body := Le16(TotalSize(s) + 0x1000) + Packed(s, false);
    assert |body| == TotalSize(s) + 2;
  }

  // ----- all frames of a call, and what becomes of their datagrams -----

  /** The number of datagrams in the frames before the `i`-th. */
  function CountBefore(g: seq<seq<nat>>, i: nat): nat
    requires i <= |g|
  {
    if i == 0 then 0 else CountBefore(g, i - 1) + |g[i - 1]|
  }

  lemma {:induction false} CountFromFirst(g: seq<seq<nat>>, i: nat)
    requires 0 < i <= |g|
    ensures CountBefore(g, i) == |g[0]| + CountBefore(g[1..], i - 1)
    decreases i
  {
    if i == 1 {
    } else {
      CountFromFirst(g, i - 1);
    }
  }

  lemma {:induction false} FrameIs(pool: seq<Datagram>, g: seq<seq<nat>>, serial: nat, i: nat)
    requires i < |g| && forall j :: 0 <= j < |g| ==> QueueMaster.GoodGroup(pool, g[j])
    ensures var f := QueueMaster.FramesOf(pool, g, serial);
      |f| == |g| && QueueMaster.GoodGroup(pool, g[i]) &&
        f[i] == FrameBytes(SlotsOf(pool, g[i], serial + CountBefore(g, i)))
    decreases |g|
  {
    hide FrameOf, SlotsOf, WireSum, TotalSize;
    FlightsAreFrames(pool, g, serial);
    QueueMaster.GroupFits(pool, g[0], serial);
    if i == 0 {
    } else {
      CountFromFirst(g, i);
      FrameIs(pool, g[1..], serial + |g[0]|, i - 1);
    }
  }

  /** What ec_master_send_datagrams hands to the device: the bytes of its `i`-th frame say exactly what its datagrams
      are, in the order of the queue; the indices are consecutive over all frames. */
  lemma FramesSay(q: Queue, netdev: nat, i: nat, k: nat)
    requires Inv(q) && i < |QueueMaster.FramesFor(q, netdev)|
    ensures |Sending(q, netdev)| == |QueueMaster.FramesFor(q, netdev)|
    ensures var g := Groups(q.pool, Eligible(q, netdev, q.queue));
      var f, ids := QueueMaster.FramesFor(q, netdev)[i], Sending(q, netdev)[i].ids;
      && i < |g| && ids == g[i] != [] && Known(q.pool, ids)
      && var room := RoomOf(q.pool, ids, |ids|);
      && |f| == (if room < 44 then 46 else room + 2) && |f| <= 1500
      && f[0] as int + 0x100 * f[1] as int == 0x1000 + room
      && (forall j :: room + 2 <= j < |f| ==> f[j] == 0)
      && (k < |ids| ==>
            Stands(f, 2 + RoomOf(q.pool, ids, k), q.pool[ids[k]],
                   (1 + q.issued + CountBefore(g, i) + k) % 0x100, k + 1 < |ids|))
  {
    hide Inv, Eligible, Groups, WireSum, FrameBytes, SlotsOf, Flights, Stands, RoomOf;
    var e := Eligible(q, netdev, q.queue);
    var g := Groups(q.pool, e);
    EligibleOk(q, netdev);
    QueueMaster.AllGroupsGood(q.pool, e);
    FlightsAreFrames(q.pool, g, q.issued);
    GroupsNotEmpty(q.pool, e);
    FlightAt(q.pool, g, q.issued, i);
    FrameIs(q.pool, g, q.issued, i);
    FrameStands(q.pool, g[i], q.issued + CountBefore(g, i), k);
  }

  /** What sending frame after frame makes of the `k`-th datagram of the `i`-th frame. */
  lemma {:induction false} GroupsBecome(q: Queue, g: seq<seq<nat>>, t: Clock, i: nat, k: nat)
    requires Distinct(Flatten(g)) && AllQueued(q, Flatten(g)) && i < |g| && k < |g[i]|
    ensures var r, x, first := SendGroups(q, g, t), g[i][k], q.issued + CountBefore(g, i);
      && x < |q.pool| == |r.pool|
      && r.pool[x] == q.pool[x].(state := Sent, index := (1 + first + k) % 0x100, serial := first + k,
                                 jiffiesSent := t.sentAt(first))
    decreases |g|
  {
    hide MarkSent;
    var rest, x := Flatten(g[1..]), g[i][k];
    assert Flatten(g) == g[0] + rest;
    FrontAndRest(q, g[0], rest);
    InFlatten(g, i, x);
    var now := t.sentAt(q.issued);
    MarkedOthers(q, g[0], now);
    QueueMaster.MarkedRest(q, g[0], now);
    var m := MarkSent(q, g[0], now);
    if i == 0 {
      MarkedIndex(q, g[0], now, k);
      assert x !in rest by {
        Apart(g[0], rest);
      }
      GroupsSent(m, g[1..], t, x);
    } else {
      CountFromFirst(g, i);
      assert x !in g[0] by {
        Apart(g[0], rest);
        InFlatten(g[1..], i - 1, x);
      }
      MarkedSent(q, g[0], now, x);
      GroupsBecome(m, g[1..], t, i - 1, k);
    }
  }

  /** What ec_master_send_datagrams makes of a datagram that it sends: it is SENT under the index that stands in its
      frame, at the time at which this frame was handed over, and nothing else changes. */
  lemma SentBecomes(q: Queue, netdev: nat, t: Clock, i: nat, k: nat)
    requires Inv(q)
    requires var g := Groups(q.pool, Eligible(q, netdev, q.queue)); i < |g| && k < |g[i]|
    ensures var g, r := Groups(q.pool, Eligible(q, netdev, q.queue)), SendDatagrams(q, netdev, t);
      var x, first := g[i][k], q.issued + CountBefore(g, i);
      && x < |q.pool| == |r.pool|
      && r.pool[x] == q.pool[x].(state := Sent, index := (1 + first + k) % 0x100, serial := first + k,
                                 jiffiesSent := t.sentAt(first))
  {
    hide Inv, Eligible, Groups, SendGroups, Flatten, CountBefore;
    var e := Eligible(q, netdev, q.queue);
    EligibleOk(q, netdev);
    SentDistinct(q, e);
    GroupsBecome(q, Groups(q.pool, e), t, i, k);
  }

  // ----- frames that arrive cut -----

  /** Of packed datagrams the last of which is cut within its counter, all others are found. */
  lemma {:induction false} ParseCut(b: seq<byte>, pos: nat, size: nat, s: seq<Slot>)
    requires Sendable(s) && s != [] && size + 10 <= |b|
    requires pos + TotalSize(s) - 2 <= size < pos + TotalSize(s) && b[pos..size] == Packed(s, false)[..size - pos]
    ensures pos <= size && ParseFrom(b, pos, size) == Parsed(Replies(s[..|s| - 1]), false)
    decreases |s|
  {
    hide Image, ReplyAt, DataLen, Follows, Packed;
    var z := SlotSize(s[0]);
    PackedFirst(s);
    if |s| == 1 {
      CutHeader(b, pos, size, s[0]);
      assert Replies(s[..0]) == [];
    } else {
      var image, rest := Image(s[0], true), Packed(s[1..], false);
      assert b[pos..size][..z] == image && b[pos..pos + z] == b[pos..size][..z];
      assert b[pos + z..size] == b[pos..size][z..] == rest[..size - pos - z];
      ImageReads(b, pos, s[0], true);
      ParseCut(b, pos + z, size, s[1..]);
      assert s[..|s| - 1] == [s[0]] + s[1..][..|s[1..]| - 1];
      assert Replies(s[..|s| - 1]) == [ReplyOf(s[0])] + Replies(s[1..][..|s[1..]| - 1]);
    }
  }

  lemma PackedFirst(s: seq<Slot>)
    requires Sendable(s) && s != []
    ensures Packed(s, false) == Image(s[0], |s| > 1) + Packed(s[1..], false)
    ensures TotalSize(s) == SlotSize(s[0]) + TotalSize(s[1..]) && |Image(s[0], |s| > 1)| == SlotSize(s[0])
    ensures |s| == 1 ==> Packed(s, false) == Image(s[0], false) && TotalSize(s) == SlotSize(s[0])
    ensures |s| > 1 ==> TotalSize(s[1..]) >= 12
  {
    hide Image;
    if |s| == 1 {
      assert Packed(s[1..], false) == [];
      assert Image(s[0], false) + [] == Image(s[0], false);
    }
  }

  lemma CutHeader(b: seq<byte>, pos: nat, size: nat, x: Slot)
    requires |x.data| < 0x800 && size + 10 <= |b| && pos + SlotSize(x) - 2 <= size < pos + SlotSize(x)
    requires b[pos..size] == Image(x, false)[..size - pos]
    ensures ParseFrom(b, pos, size) == Parsed([], false)
  {
    var image := Image(x, false);
    var l := Le16(LengthWord(|x.data|, false));
    assert image[6] == l[0] && image[7] == l[1];
    assert b[pos..size][6] == b[pos + 6] && b[pos..size][7] == b[pos + 7];
  }

  /** A frame of which only the first `size` bytes arrive. With fewer bytes than its header announces, nothing is taken
      from it. The header does not count itself, so that with the announced number or one more, the last datagram is
      cut: all others are taken. In both cases the frame counts as corrupted. With all bytes that carry datagrams
      everything is taken. */
  lemma CutFrame(s: seq<Slot>, b: seq<byte>, size: nat)
    requires Sendable(s) && s != [] && TotalSize(s) + FRAME_HEADER_SIZE <= 1500
    requires size <= |FrameOf(s)| && size + 10 <= |b| && b[..size] == FrameOf(s)[..size]
    ensures ParseFrame(b, size) ==
      if size < TotalSize(s) then Parsed([], false)
      else if size < TotalSize(s) + 2 then Parsed(Replies(s[..|s| - 1]), false)
      else Parsed(Replies(s), true)
  {
    hide Packed, TotalSize, Image, ParseFrom, FrameOf, Sendable, Le16, ReadU16;
    FrameCodec.FrameIs(s);
    PackedFirst(s);
    var f, total := FrameOf(s), TotalSize(s);
    var head, all := Le16(total + 0x1000), Packed(s, false);
    if size >= 2 {
      SamePart(b, f, size, 0, 2);
      BodyPart(f, head, all, total);
      HeadRead(b, total + 0x1000);
      if total <= size < total + 2 {
        SamePart(b, f, size, 2, size);
        BodyPart(f, head, all, size - 2);
        ParseCut(b, 2, size, s);
      } else if size >= total + 2 {
        SamePart(b, f, size, 2, 2 + total);
        assert all[..total] == all;
        ParsePacked(b, 2, size, s);
      }
    }
  }

  lemma SamePart(b: seq<byte>, f: seq<byte>, size: nat, lo: nat, hi: nat)
    requires lo <= hi <= size <= |b| && size <= |f| && b[..size] == f[..size]
    ensures b[lo..hi] == f[lo..hi]
  {
    assert b[..size][lo..hi] == b[lo..hi] && f[..size][lo..hi] == f[lo..hi];
  }

  lemma BodyPart(f: seq<byte>, head: seq<byte>, all: seq<byte>, n: nat)
    requires |head| == 2 && n <= |all| && 2 + |all| <= |f| && f == head + all + f[2 + |all|..]
    ensures f[..2] == head && f[0..2] == head && f[2..2 + n] == all[..n]
  {
  }

  lemma HeadRead(b: seq<byte>, w: u16)
    requires |b| >= 2 && b[0..2] == Le16(w)
    ensures ReadU16(b, 0) == w
  {
    assert b[0..2][0] == b[0] && b[0..2][1] == b[1];
  }

  lemma {:induction false} RepliesCountNothing(q: Queue, rs: seq<Reply>, now: nat)
    ensures ReceiveAll(q, rs, now).corrupted == q.corrupted
    decreases |rs|
  {
    if rs == [] {
    } else {
      RepliesCountNothing(ReceiveOne(q, rs[0], now), rs[1..], now);
    }
  }

  /** A cut frame counts as corrupted exactly once, and one of which less than announced arrives changes nothing else.
      */
  lemma CutFrameCounts(q: Queue, s: seq<Slot>, b: seq<byte>, size: nat, now: nat)
    requires Sendable(s) && s != [] && TotalSize(s) + FRAME_HEADER_SIZE <= 1500
    requires size <= |FrameOf(s)| && size + 10 <= |b| && b[..size] == FrameOf(s)[..size]
    ensures var r := Receive(q, b, size, now);
      && r.corrupted == q.corrupted + (if size < TotalSize(s) + 2 then 1 else 0)
      && (size < TotalSize(s) ==> r == q.(corrupted := q.corrupted + 1))
  {
    hide FrameOf, TotalSize, ParseFrame, ReceiveOne;
    CutFrame(s, b, size);
    RepliesCountNothing(q, ParseFrame(b, size).replies, now);
    assert ReceiveAll(q, [], now) == q;
  }
}
