/** The categories as scripts/esi_parser.py:266-277 and 351-379 writes them, byte by byte, and as the reader finds
    them, word by word. */
module SiiEncoder {
  import opened Words
  import opened ByteBuffers
  import opened SiiImage

  datatype RawBlock = Block(ctype: u16, data: seq<byte>)

  /** What the script emits: all its category data have an even number of bytes. */
  type Block = k: RawBlock | k.ctype != END && |k.data| % 2 == 0 && |k.data| / 2 < 0x1_0000 witness Block(0, [])

  /** create_category */
  function CategoryBytes(ctype: u16, data: seq<byte>): seq<byte>
    requires (|data| + 1) / 2 < 0x1_0000
  {
    Le16(ctype) + Le16((|data| + 1) / 2) + data
  }

  /** The header announces exactly the words that follow if and only if the data have an even number of bytes. */
  lemma FramedIffEven(ctype: u16, data: seq<byte>)
    requires (|data| + 1) / 2 < 0x1_0000
    ensures |CategoryBytes(ctype, data)| == 2 * (2 + ReadU16(CategoryBytes(ctype, data), 2)) <==> |data| % 2 == 0
  {
    var c := CategoryBytes(ctype, data);
    assert c[2] == Le16((|data| + 1) / 2)[0] && c[3] == Le16((|data| + 1) / 2)[1];
  }

  /** The categories, the end marker and a zero. */
  function Tail(blocks: seq<Block>): seq<byte> {
    if blocks == [] then Le16(END) + Le16(0)
    else CategoryBytes(blocks[0].ctype, blocks[0].data) + Tail(blocks[1..])
  }

  function WordsOf(data: seq<byte>): (w: seq<u16>)
    requires |data| % 2 == 0
    ensures |w| == |data| / 2
  {
    seq(|data| / 2, i requires 0 <= i < |data| / 2 => ReadU16(data, 2 * i))
  }

  function BytesOf(words: seq<u16>): (b: seq<byte>)
    ensures |b| == 2 * |words|
  {
    seq(2 * |words|, i requires 0 <= i < 2 * |words| => Le16(words[i / 2])[i % 2])
  }

  /** The bytes that the string reader sees are those that the encoder wrote. */
  lemma BytesComeBack(data: seq<byte>)
    requires |data| % 2 == 0
    ensures BytesOf(WordsOf(data)) == data
  {
    hide Le16, ReadU16;
    forall i | 0 <= i < |data| ensures BytesOf(WordsOf(data))[i] == data[i] {
      var k := i / 2;
      WordBytes(data, 2 * k);
      assert WordsOf(data)[k] == ReadU16(data, 2 * k);
      if i % 2 == 0 {
        assert i == 2 * k;
      } else {
        assert i == 2 * k + 1;
      }
    }
  }

  lemma WordBytes(data: seq<byte>, at: nat)
    requires at + 1 < |data|
    ensures Le16(ReadU16(data, at)) == [data[at], data[at + 1]]
  {
  }

  function Categories(blocks: seq<Block>): (c: seq<Category>)
    ensures |c| == |blocks|
  {
    if blocks == [] then [] else [Category(blocks[0].ctype, WordsOf(blocks[0].data))] + Categories(blocks[1..])
  }

  /** An EEPROM with the contents `b`, erased behind them. */
  function RomOf(b: seq<byte>): nat -> u16 {
    (w: nat) => if 2 * w + 1 < |b| then ReadU16(b, 2 * w) else 0xFFFF
  }

  lemma BlockLaidOut(b: seq<byte>, pos: nat, k: Block)
    requires Holds(b, 2 * pos, CategoryBytes(k.ctype, k.data))
    ensures var rom := RomOf(b);
      rom(pos) == k.ctype && rom(pos + 1) == |k.data| / 2 && WordsAt(rom, pos + 2, |k.data| / 2) == WordsOf(k.data)
  {
    hide Holds;
    var size := |k.data| / 2;
    HoldsParts(b, 2 * pos, Le16(k.ctype) + Le16(size), k.data);
    HoldsParts(b, 2 * pos, Le16(k.ctype), Le16(size));
    HoldsInside(b, 2 * pos + 4, k.data);
    HoldsLe16(b, 2 * pos, k.ctype);
    HoldsLe16(b, 2 * pos + 2, size);
    forall i | 0 <= i < size ensures WordsAt(RomOf(b), pos + 2, size)[i] == WordsOf(k.data)[i] {
      HoldsAt(b, 2 * pos + 4, k.data, 2 * i);
      HoldsAt(b, 2 * pos + 4, k.data, 2 * i + 1);
    }
  }

  lemma EndRead(b: seq<byte>, pos: nat)
    requires Holds(b, 2 * pos, Le16(END) + Le16(0))
    ensures RomOf(b)(pos) == END && RomOf(b)(pos + 1) == 0
  {
    hide Holds, Le16, ReadU16;
    HoldsParts(b, 2 * pos, Le16(END), Le16(0));
    HoldsInside(b, 2 * pos + 2, Le16(0));
    HoldsLe16(b, 2 * pos, END);
    HoldsLe16(b, 2 * pos + 2, 0);
  }

  lemma HoldsAt(b: seq<byte>, at: nat, w: seq<byte>, i: nat)
    requires Holds(b, at, w) && i < |w|
    ensures at + i < |b| && b[at + i] == w[i]
  {
    assert b[at..at + |w|][i] == b[at + i];
  }

  /** What the encoder writes from word `pos` on is a well-formed list of exactly its categories, with a harmless size
      word. */
  lemma {:induction false} TailLaidOut(b: seq<byte>, pos: nat, blocks: seq<Block>)
    requires Holds(b, 2 * pos, Tail(blocks))
    ensures var e := EndOf(pos, Categories(blocks));
      && LaidOut(RomOf(b), pos, Categories(blocks)) && RomOf(b)(e + 1) == 0 && 2 * e + 4 == 2 * pos + |Tail(blocks)|
    decreases |blocks|
  {
    hide Holds, CategoryBytes, WordsAt, WordsOf, RomOf, LaidOut, EndOf;
    if blocks == [] {
      LaidOutEnd(RomOf(b), pos);
      EndRead(b, pos);
    } else {
      var k := blocks[0];
      var first := CategoryBytes(k.ctype, k.data);
      BlockSize(k);
      HoldsParts(b, 2 * pos, first, Tail(blocks[1..]));
      BlockLaidOut(b, pos, k);
      var next := pos + 2 + |k.data| / 2;
      TailLaidOut(b, next, blocks[1..]);
      assert Categories(blocks)[1..] == Categories(blocks[1..]);
      LaidOutMore(RomOf(b), pos, Categories(blocks));
    }
  }

  lemma BlockSize(k: Block)
    ensures |CategoryBytes(k.ctype, k.data)| == 4 + |k.data|
  {
  }

  /** From the encoder to the reader: behind a header of 128 bytes, any categories that end before word 4096 are found
      again. */
  method ReadGenerated(header: seq<byte>, ghost blocks: seq<Block>, tail: seq<byte>, fill: seq<byte>)
    returns (ret: int, found: seq<Category>)
    requires |header| == 128 && tail == Tail(blocks) && |header| + |tail| <= 2 * MAX_SII_SIZE
    ensures ret == 0 && found == Categories(blocks)
  {
    hide LaidOut, EndOf, Tail;
    var b := header + tail + fill;
    assert Holds(b, 128, tail) by {
      assert b[128..128 + |tail|] == tail;
    }
    TailLaidOut(b, FIRST_CATEGORY, blocks);
    ret, found := ReadCategories(RomOf(b), Categories(blocks));
  }
}
