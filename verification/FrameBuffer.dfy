/** Filling the transmit buffer in place (src/ec_master.c:64-117). */
module FrameBuffer {
  import opened Words
  import opened ByteBuffers
  import opened FrameCodec

  lemma {:induction false} TotalSizeAppend(s: seq<Slot>, x: Slot)
    ensures TotalSize(s + [x]) == TotalSize(s) + SlotSize(x)
    decreases |s|
  {
    if s == [] {
      assert s + [x] == [x];
    } else {
      TotalSizeAppend(s[1..], x);
      assert (s + [x])[1..] == s[1..] + [x];
    }
  }

  /** The last datagram of a packed sequence stands behind the others, which all announce a successor. */
  lemma {:induction false} PackedLast(s: seq<Slot>, x: Slot, open: bool)
    requires Sendable(s) && |x.data| < 0x800
    ensures Sendable(s + [x]) && Packed(s + [x], open) == Packed(s, true) + Image(x, open)
    decreases |s|
  {
    hide Image, Packed;
    var t := s + [x];
    if s == [] {
      assert t == [x] && t[1..] == [];
      PackedOpenEmpty();
      PackedMore(t, open);
    } else {
      assert t[1..] == s[1..] + [x] && t[0] == s[0];
      PackedLast(s[1..], x, open);
      PackedMore(t, open);
      PackedMore(s, true);
      assert Image(s[0], true) + (Packed(s[1..], true) + Image(x, open)) ==
        Image(s[0], true) + Packed(s[1..], true) + Image(x, open);
    }
  }

  lemma PackedMore(s: seq<Slot>, open: bool)
    requires Sendable(s) && s != []
    ensures Packed(s, open) == Image(s[0], open || |s| > 1) + Packed(s[1..], open)
  {
    hide Image;
  }

  /** The flag in the length word of one image. */
  lemma FlagImage(b: seq<byte>, at: nat, x: Slot)
    requires |x.data| < 0x800 && Holds(b, at, Image(x, false))
    ensures at + 8 <= |b| && ReadU16(b, at + 6) == |x.data|
    ensures Holds(Written(b, at + 6, Le16(|x.data| + 0x8000)), at, Image(x, true))
  {
    hide Image, Holds, Written, Le16, ReadU16;
    ImageParts(b, at, x, false);
    var word := at + 6;
    HoldsLe16(b, word, |x.data|);
    var w := Le16(|x.data| + 0x8000);
    WrittenHolds(b, word, w);
    WrittenElsewhere(b, word, w, at + 2, x.address);
    WrittenElsewhere(b, word, w, at + 8, x.irq);
    WrittenElsewhere(b, word, w, at + 10, x.data);
    WrittenElsewhere(b, word, w, at + 10 + |x.data|, Le16(x.wc));
    WrittenByte(b, word, w, at);
    WrittenByte(b, word, w, at + 1);
    ImageParts(Written(b, word, w), at, x, true);
  }

  /** Setting the flag in the last datagram turns the closed sequence into an open one. */
  lemma FlagLast(b: seq<byte>, s: seq<Slot>, x: Slot)
    requires Sendable(s) && |x.data| < 0x800 && Sendable(s + [x]) && Holds(b, 2, Packed(s + [x], false))
    ensures var word := 2 + TotalSize(s) + 6;
      && word + 2 <= |b| && ReadU16(b, word) == |x.data|
      && Holds(Written(b, word, Le16(|x.data| + 0x8000)), 2, Packed(s + [x], true))
  {
    hide Image, Packed, Holds, TotalSize, Written, Le16, ReadU16, Sendable;
    PackedLast(s, x, false);
    PackedLast(s, x, true);
    var at := 2 + TotalSize(s);
    var word := at + 6;
    HoldsParts(b, 2, Packed(s, true), Image(x, false));
    FlagImage(b, at, x);
    var w := Le16(|x.data| + 0x8000);
    WrittenElsewhere(b, word, w, 2, Packed(s, true));
    HoldsParts(Written(b, word, w), 2, Packed(s, true), Image(x, true));
  }

  lemma AppendImage(b: seq<byte>, s: seq<Slot>, x: Slot, cur: nat)
    requires Sendable(s) && |x.data| < 0x800 && cur == 2 + TotalSize(s) && cur + SlotSize(x) <= |b|
    requires Holds(b, 2, Packed(s, true))
    ensures Sendable(s + [x]) && Holds(Written(b, cur, Image(x, false)), 2, Packed(s + [x], false))
  {
    hide Image, Packed, Holds, TotalSize, Written;
    PackedLast(s, x, false);
    WrittenElsewhere(b, cur, Image(x, false), 2, Packed(s, true));
    WrittenHolds(b, cur, Image(x, false));
    HoldsParts(Written(b, cur, Image(x, false)), 2, Packed(s, true), Image(x, false));
  }

  lemma PackedOpenEmpty()
    ensures Packed([], true) == Packed([], false) == []
  {
  }

  /** One more datagram behind those in the buffer: the flag in the datagram before it, then header,
      data and a zero working counter. `followsWord` is where the length word of the last one is. */
  method AppendDatagram(buf: array<byte>, cur: nat, followsWord: Option<nat>, x: Slot, ghost s: seq<Slot>)
    returns (next: nat, follows: nat)
    requires Sendable(s) && |x.data| < 0x800 && Holds(buf[..], 2, Packed(s, false))
    requires cur == 2 + TotalSize(s) && cur + SlotSize(x) <= buf.Length
    requires followsWord.Some? <==> s != []
    requires s != [] ==> followsWord.value == 2 + TotalSize(s[..|s| - 1]) + 6
    modifies buf
    ensures Sendable(s + [x]) && Holds(buf[..], 2, Packed(s + [x], false)) && next == 2 + TotalSize(s + [x])
    ensures follows == 2 + TotalSize(s) + 6
  {
    hide Image, Packed, Holds, TotalSize, Written;
    PackedOpenEmpty();
    if followsWord.Some? {
      ghost var init, last := s[..|s| - 1], s[|s| - 1];
      assert s == init + [last];
      FlagLast(buf[..], init, last);
      var word := ReadU16(buf[..], followsWord.value);
      WriteBytes(buf, followsWord.value, Le16(if word < 0x8000 then word + 0x8000 else word));
    }
    assert Holds(buf[..], 2, Packed(s, true));
    AppendImage(buf[..], s, x, cur);
    TotalSizeAppend(s, x);
    WriteBytes(buf, cur, Image(x, false));
    follows := cur + 6;
    next := cur + DATAGRAM_HEADER_SIZE + |x.data| + WC_SIZE;
  }

  /** The frame header, the padding, and the bytes that go to the device. */
  method CloseFrame(buf: array<byte>, cur: nat, ghost s: seq<Slot>) returns (frame: seq<byte>)
    requires Sendable(s) && Holds(buf[..], 2, Packed(s, false)) && cur == 2 + TotalSize(s)
    requires TotalSize(s) + FRAME_HEADER_SIZE <= ETH_DATA_LEN <= buf.Length
    modifies buf
    ensures frame == FrameOf(s)
  {
    hide Image, Packed, TotalSize;
    ghost var b := buf[..];
    WriteBytes(buf, 0, Le16((cur - FRAME_HEADER_SIZE) % 0x800 + 0x1000));
    WrittenElsewhere(b, 0, Le16(TotalSize(s) + 0x1000), 2, Packed(s, false));
    ghost var body := Le16(TotalSize(s) + 0x1000) + Packed(s, false);
    assert buf[..cur] == body by {
      assert buf[..][2..cur] == buf[2..cur];
    }
    var size := cur;
    while size < ETH_MIN_DATA
      invariant cur <= size && (size <= ETH_MIN_DATA || size == cur) && size <= buf.Length
      invariant buf[..size] == body + Zeros(size - cur)
    {
      buf[size] := 0;
      size := size + 1;
      assert buf[..size] == buf[..size - 1] + [0];
      assert Zeros(size - cur) == Zeros(size - 1 - cur) + [0];
    }
    frame := buf[..size];
  }
}
