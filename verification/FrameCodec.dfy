/** The EtherCAT frame (src/ec_master.c:38-236): datagrams packed one after the other behind the
    frame header, a flag in every datagram but the last that another one follows, and padding to the
    minimum size. The same layout goes out and comes back; the slaves change the addresses, the
    interrupt field, the data and the working counters, but neither order nor sizes. */
module FrameCodec {
  import opened Words
  import opened ByteBuffers

  const ETH_DATA_LEN: nat := 1500
  const ETH_MIN_DATA: nat := 46  // ETH_ZLEN - ETH_HLEN
  const FRAME_HEADER_SIZE: nat := 2
  const DATAGRAM_HEADER_SIZE: nat := 10
  const WC_SIZE: nat := 2
  const MAX_DATA_SIZE: nat := 1486

  type Address = a: seq<byte> | |a| == 4 witness [0, 0, 0, 0]
  type Irq = a: seq<byte> | |a| == 2 witness [0, 0]

  /** One datagram on the wire. */
  datatype Slot = Slot(dtype: byte, index: byte, address: Address, irq: Irq, data: seq<byte>, wc: u16)

  function SlotSize(s: Slot): nat {
    DATAGRAM_HEADER_SIZE + |s.data| + WC_SIZE
  }

  /** The length word with the "datagram following" flag. */
  function LengthWord(len: nat, follows: bool): u16
    requires len < 0x800
  {
    if follows then len + 0x8000 else len
  }

  function Image(s: Slot, follows: bool): (b: seq<byte>)
    requires |s.data| < 0x800
    ensures |b| == SlotSize(s)
  {
    [s.dtype, s.index] + s.address + Le16(LengthWord(|s.data|, follows)) + s.irq + s.data + Le16(s.wc)
  }

  ghost predicate Sendable(s: seq<Slot>) {
    forall i :: 0 <= i < |s| ==> |s[i].data| < 0x800
  }

  function TotalSize(s: seq<Slot>): nat {
    if s == [] then 0 else SlotSize(s[0]) + TotalSize(s[1..])
  }

  /** The datagrams one after the other; the flag is missing only in the last one, or nowhere. */
  function Packed(s: seq<Slot>, open: bool): (b: seq<byte>)
    requires Sendable(s)
    ensures |b| == TotalSize(s)
  {
    if s == [] then [] else Image(s[0], open || |s| > 1) + Packed(s[1..], open)
  }

  /** The whole frame: length and type in the header word, datagrams, padding. */
  function FrameOf(s: seq<Slot>): (b: seq<byte>)
    requires Sendable(s) && TotalSize(s) < 0x800
  {
    var body := Le16(TotalSize(s) + 0x1000) + Packed(s, false);
    if |body| < ETH_MIN_DATA then body + Zeros(ETH_MIN_DATA - |body|) else body
  }

  /** What the master reads out of one returned datagram. */
  datatype Reply = Reply(dtype: byte, index: byte, data: seq<byte>, wc: u16)

  function ReplyOf(s: Slot): Reply {
    Reply(s.dtype, s.index, s.data, s.wc)
  }

  function Replies(s: seq<Slot>): (r: seq<Reply>)
    ensures |r| == |s|
  {
    seq(|s|, i requires 0 <= i < |s| => ReplyOf(s[i]))
  }

  datatype Parsed = Parsed(replies: seq<Reply>, intact: bool)

  function DataLen(b: seq<byte>, pos: nat): nat
    requires pos + 8 <= |b|
  {
    ReadU16(b, pos + 6) % 0x800
  }

  function Follows(b: seq<byte>, pos: nat): bool
    requires pos + 8 <= |b|
  {
    ReadU16(b, pos + 6) >= 0x8000
  }

  function ReplyAt(b: seq<byte>, pos: nat): Reply
    requires pos + 8 <= |b| && pos + 12 + DataLen(b, pos) <= |b|
  {
    var len := DataLen(b, pos);
    Reply(b[pos], b[pos + 1], b[pos + 10..pos + 10 + len], ReadU16(b, pos + 10 + len))
  }

  /** The datagrams that are found from position `pos` on in a frame of which `size` bytes were received; the
      buffer is larger, because a header is read before the length is tested. */
  function ParseFrom(b: seq<byte>, pos: nat, size: nat): Parsed
    requires pos <= size && size + DATAGRAM_HEADER_SIZE <= |b|
    decreases size - pos
  {
    var next := pos + DATAGRAM_HEADER_SIZE + DataLen(b, pos) + WC_SIZE;
    if next > size then Parsed([], false)
    else if !Follows(b, pos) then Parsed([ReplyAt(b, pos)], true)
    else
      var rest := ParseFrom(b, next, size);
      Parsed([ReplyAt(b, pos)] + rest.replies, rest.intact)
  }

  /** The tests on the frame header, then the datagrams. */
  function ParseFrame(b: seq<byte>, size: nat): Parsed
    requires size + DATAGRAM_HEADER_SIZE <= |b|
  {
    if size < FRAME_HEADER_SIZE then Parsed([], false)
    else if ReadU16(b, 0) % 0x800 > size then Parsed([], false)
    else ParseFrom(b, FRAME_HEADER_SIZE, size)
  }

  // ----- build and parse are inverse -----

  lemma ImageParts(b: seq<byte>, pos: nat, s: Slot, follows: bool)
    requires |s.data| < 0x800
    ensures Holds(b, pos, Image(s, follows)) <==>
      && pos + SlotSize(s) <= |b| && b[pos] == s.dtype && b[pos + 1] == s.index
      && Holds(b, pos + 2, s.address) && Holds(b, pos + 6, Le16(LengthWord(|s.data|, follows)))
      && Holds(b, pos + 8, s.irq) && Holds(b, pos + 10, s.data)
      && Holds(b, pos + 10 + |s.data|, Le16(s.wc))
  {
    hide Holds;
    var l := Le16(LengthWord(|s.data|, follows));
    HoldsParts(b, pos, [s.dtype, s.index] + s.address + l + s.irq + s.data, Le16(s.wc));
    HoldsParts(b, pos, [s.dtype, s.index] + s.address + l + s.irq, s.data);
    HoldsParts(b, pos, [s.dtype, s.index] + s.address + l, s.irq);
    HoldsParts(b, pos, [s.dtype, s.index] + s.address, l);
    HoldsParts(b, pos, [s.dtype, s.index], s.address);
    HoldsTwo(b, pos, s.dtype, s.index);
    HoldsInside(b, pos + 10 + |s.data|, Le16(s.wc));
  }

  lemma ImageReads(b: seq<byte>, pos: nat, s: Slot, follows: bool)
    requires |s.data| < 0x800 && Holds(b, pos, Image(s, follows))
    ensures pos + SlotSize(s) <= |b| && DataLen(b, pos) == |s.data| && Follows(b, pos) == follows
    ensures ReplyAt(b, pos) == ReplyOf(s)
  {
    hide Image;
    ImageParts(b, pos, s, follows);
    HoldsLe16(b, pos + 6, LengthWord(|s.data|, follows));
    HoldsLe16(b, pos + 10 + |s.data|, s.wc);
  }

  lemma {:induction false} ParsePacked(b: seq<byte>, pos: nat, size: nat, s: seq<Slot>)
    requires Sendable(s) && s != [] && Holds(b, pos, Packed(s, false))
    requires pos + TotalSize(s) <= size && size + DATAGRAM_HEADER_SIZE <= |b|
    ensures ParseFrom(b, pos, size) == Parsed(Replies(s), true)
    decreases |s|
  {
    hide Image, Holds, ReplyAt, DataLen, Follows;
    HoldsParts(b, pos, Image(s[0], |s| > 1), Packed(s[1..], false));
    ImageReads(b, pos, s[0], |s| > 1);
    if |s| > 1 {
      ParsePacked(b, pos + SlotSize(s[0]), size, s[1..]);
      assert Replies(s) == [ReplyOf(s[0])] + Replies(s[1..]);
    } else {
      assert Replies(s) == [ReplyOf(s[0])];
    }
  }

  lemma FrameIs(s: seq<Slot>)
    requires Sendable(s) && TotalSize(s) + FRAME_HEADER_SIZE <= ETH_DATA_LEN
    ensures var f := FrameOf(s);
      |f| >= 2 + TotalSize(s) && f == Le16(TotalSize(s) + 0x1000) + Packed(s, false) + f[2 + TotalSize(s)..]
  {
    hide Packed, TotalSize;
  }

  /** Parsing any frame of the layout, whatever follows it in the buffer, finds exactly the packed
      datagrams, in order and with their own data and working counters. */
  lemma ParseBuilt(s: seq<Slot>, b: seq<byte>)
    requires Sendable(s) && s != [] && TotalSize(s) + FRAME_HEADER_SIZE <= ETH_DATA_LEN
    requires |FrameOf(s)| + DATAGRAM_HEADER_SIZE <= |b| && b[..|FrameOf(s)|] == FrameOf(s)
    ensures ParseFrame(b, |FrameOf(s)|) == Parsed(Replies(s), true)
  {
    hide Packed, TotalSize, Image, ParseFrom, FrameOf;
    var f := FrameOf(s);
    var size := |f|;
    FrameIs(s);
    var head := Le16(TotalSize(s) + 0x1000);
    assert Holds(b, 0, f) by {
      assert b[0..0 + size] == b[..size];
    }
    HoldsParts(b, 0, head + Packed(s, false), f[2 + TotalSize(s)..]);
    HoldsParts(b, 0, head, Packed(s, false));
    HoldsLe16(b, 0, TotalSize(s) + 0x1000);
    ParsePacked(b, 2, size, s);
  }

  /** Frames carry between 46 and 1500 bytes. */
  lemma FrameSize(s: seq<Slot>)
    requires Sendable(s) && TotalSize(s) + FRAME_HEADER_SIZE <= ETH_DATA_LEN
    ensures ETH_MIN_DATA <= |FrameOf(s)| <= ETH_DATA_LEN
  {
    hide Packed, TotalSize;
  }
}
