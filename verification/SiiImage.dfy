/** Reading a slave's EEPROM (src/ec_slave.c:1212-1336, src/ec_sii.c:118-146; the format is in section 5.4 of
    ETG.1000.6): a first pass over the category headers finds the size of the image, a second pass parses the image. */
module SiiImage {
  import opened Words
  import opened ErrorCodes

  const FIRST_CATEGORY: nat := 0x40
  const MAX_SII_SIZE: nat := 4096
  const END: u16 := 0xFFFF

  datatype RawCategory = Category(ctype: u16, data: seq<u16>)
  type Category = c: RawCategory | c.ctype != END && |c.data| < 0x1_0000 witness Category(0, [])

  function WordsAt(rom: nat -> u16, at: nat, n: nat): (w: seq<u16>)
    ensures |w| == n
  {
    seq(n, i requires 0 <= i < n => rom(at + i))
  }

  /** From word `pos` on the EEPROM contains `cats` and then the end marker. */
  ghost predicate LaidOut(rom: nat -> u16, pos: nat, cats: seq<Category>)
    decreases |cats|
  {
    if cats == [] then rom(pos) == END
    else
      && rom(pos) == cats[0].ctype && rom(pos + 1) == |cats[0].data|
      && WordsAt(rom, pos + 2, |cats[0].data|) == cats[0].data
      && LaidOut(rom, pos + 2 + |cats[0].data|, cats[1..])
  }

  /** The position of the end marker. */
  ghost function EndOf(pos: nat, cats: seq<Category>): (e: nat)
    ensures e >= pos
    decreases |cats|
  {
    if cats == [] then pos else EndOf(pos + 2 + |cats[0].data|, cats[1..])
  }

  lemma NextCategory(rom: nat -> u16, pos: nat, cats: seq<Category>)
    requires LaidOut(rom, pos, cats)
    ensures rom(pos) == END <==> cats == []
    ensures cats == [] ==> EndOf(pos, cats) == pos
    ensures cats != [] ==>
      var next := pos + 2 + |cats[0].data|;
      && rom(pos) == cats[0].ctype && rom(pos + 1) == |cats[0].data|
      && WordsAt(rom, pos + 2, |cats[0].data|) == cats[0].data
      && LaidOut(rom, next, cats[1..]) && EndOf(pos, cats) == EndOf(next, cats[1..])
  {
  }

  lemma LaidOutEnd(rom: nat -> u16, pos: nat)
    ensures LaidOut(rom, pos, []) <==> rom(pos) == END
    ensures EndOf(pos, []) == pos
  {
  }

  lemma LaidOutMore(rom: nat -> u16, pos: nat, cats: seq<Category>)
    requires cats != []
    requires var next := pos + 2 + |cats[0].data|;
      && rom(pos) == cats[0].ctype && rom(pos + 1) == |cats[0].data|
      && WordsAt(rom, pos + 2, |cats[0].data|) == cats[0].data && LaidOut(rom, next, cats[1..])
    ensures LaidOut(rom, pos, cats) && EndOf(pos, cats) == EndOf(pos + 2 + |cats[0].data|, cats[1..])
  {
    hide WordsAt;
  }

  lemma MarkerBehind(rom: nat -> u16, pos: nat, cats: seq<Category>)
    ensures EndOf(pos, cats) >= pos
  {
  }

  function AlignUp(n: nat): nat {
    (n + 1) / 2 * 2
  }

  /** The offset of the category behind the one at `offset`, a 16-bit number. */
  function NextOffset(offset: nat, size: u16): u16 {
    (offset + 2 + size) % 0x1_0000
  }

  lemma NextOffsetIs(offset: nat, size: u16)
    requires offset < 0x1_0000 - 2
    ensures var n := offset + 2 + size; NextOffset(offset, size) == if n < 0x1_0000 then n else n - 0x1_0000
  {
  }

  /** The number of words the first pass asks for: the end marker is at `end`, and `size` stands where a category has
      its size. */
  function ImageWords(end: nat, size: u16): nat {
    AlignUp(NextOffset(end, size) + 1)
  }

  /** The image has a legal size, and contains the end marker exactly under this condition on the word behind the
      marker. The usual values 0 and 0xFFFF satisfy it. */
  lemma ImageCoversMarker(end: nat, size: u16)
    requires end < MAX_SII_SIZE
    ensures ImageWords(end, size) * 2 % 4 == 0
    ensures ImageWords(end, size) <= 0x1_0000
    ensures ImageWords(end, size) > end
       <==> end + 2 + size < 0x1_0000 || size >= 0xFFFE || (size == 0xFFFD && end % 2 == 1)
  {
    hide AlignUp, NextOffset;
    NextOffsetIs(end, size);
    AlignUpIs(NextOffset(end, size) + 1);
  }

  lemma AlignUpIs(n: nat)
    ensures AlignUp(n) == if n % 2 == 0 then n else n + 1
    ensures AlignUp(n) * 2 % 4 == 0
  {
    assert AlignUp(n) * 2 == (n + 1) / 2 * 4;
  }

  /** The word that ends up at index `j` of the buffer: words are read in pairs, from 16-bit addresses. */
  function PairedWord(rom: nat -> u16, woffset: u16, j: nat): u16 {
    rom((woffset + j / 2 * 2) % 0x1_0000 + j % 2)
  }

  lemma PairAt(rom: nat -> u16, woffset: u16, i: nat)
    ensures PairedWord(rom, woffset, 2 * i) == rom((woffset + 2 * i) % 0x1_0000)
    ensures PairedWord(rom, woffset, 2 * i + 1) == rom((woffset + 2 * i) % 0x1_0000 + 1)
  {
    assert 2 * i / 2 == i && (2 * i + 1) / 2 == i && 2 * i % 2 == 0 && (2 * i + 1) % 2 == 1;
  }

  lemma PairsInOrder(rom: nat -> u16, j: nat)
    requires j < 0x1_0000
    ensures PairedWord(rom, 0, j) == rom(j)
  {
    assert j / 2 * 2 + j % 2 == j;
  }

  /** ec_sii_read over an EEPROM interface without errors; the buffer is seen as words. */
  method SiiRead(rom: nat -> u16, woffset: u16, buf: array<u16>, len: nat) returns (ret: int)
    requires len <= 2 * buf.Length
    modifies buf
    ensures ret == if len % 4 != 0 then -EC_ERR_INVAL else 0
    ensures forall j :: 0 <= j < buf.Length ==>
      buf[j] == if ret == 0 && 2 * j < len then PairedWord(rom, woffset, j) else old(buf[j])
  {
    hide PairedWord;
    if len % 4 != 0 {
      return -EC_ERR_INVAL;
    }
    var i := 0;
    while i < len / 4
      invariant 0 <= i <= len / 4
      invariant forall j :: 0 <= j < buf.Length ==>
        buf[j] == if j < 2 * i then PairedWord(rom, woffset, j) else old(buf[j])
    {
      PairAt(rom, woffset, i);
      var at := (woffset + 2 * i) % 0x1_0000;
      buf[2 * i], buf[2 * i + 1] := rom(at), rom(at + 1);
      i := i + 1;
    }
    ret := 0;
  }

  /** The scan over the category headers; `sii_offset` is a 16-bit number. */
  method ScanSize(rom: nat -> u16, ghost cats: seq<Category>) returns (nwords: nat)
    requires LaidOut(rom, FIRST_CATEGORY, cats) && EndOf(FIRST_CATEGORY, cats) < MAX_SII_SIZE
    ensures var e := EndOf(FIRST_CATEGORY, cats); nwords == ImageWords(e, rom(e + 1))
  {
    hide LaidOut, EndOf, PairedWord, NextOffset, AlignUp;
    ghost var end := EndOf(FIRST_CATEGORY, cats);
    ghost var rest := cats;
    var offset: u16 := FIRST_CATEGORY;
    var ctype: u16 := 0;
    while true
      invariant ctype != END && LaidOut(rom, offset, rest) && EndOf(offset, rest) == end
      decreases |rest|
    {
      NextCategory(rom, offset, rest);
      var header := new u16[2];
      var ret := SiiRead(rom, offset, header, 4);
      PairAt(rom, offset, 0);
      assert header[0] == rom(offset) && header[1] == rom(offset + 1);
      ctype := header[0];
      var csize := header[1];
      if ctype != END {
        MarkerBehind(rom, offset + 2 + csize, rest[1..]);
        NextOffsetIs(offset, csize);
      }
      offset := NextOffset(offset, csize);
      if ctype == END || offset >= MAX_SII_SIZE {
        break;
      }
      rest := rest[1..];
    }
    nwords := AlignUp(offset as int + 1);
  }

  lemma ImageWordsAt(image: seq<u16>, rom: nat -> u16, at: nat, n: nat)
    requires at + n <= |image| && forall j :: 0 <= j < |image| ==> image[j] == rom(j)
    ensures image[at..at + n] == WordsAt(rom, at, n)
  {
  }

  lemma OneMore(found: seq<Category>, rest: seq<Category>)
    requires rest != []
    ensures (found + [rest[0]]) + rest[1..] == found + rest
  {
  }

  /** The parse loop: the categories that are visited, with their words. */
  method ParseCategories(image: array<u16>, rom: nat -> u16, ghost cats: seq<Category>) returns (found: seq<Category>)
    requires forall j :: 0 <= j < image.Length ==> image[j] == rom(j)
    requires LaidOut(rom, FIRST_CATEGORY, cats) && EndOf(FIRST_CATEGORY, cats) < image.Length
    ensures found == cats
  {
    hide LaidOut, EndOf, WordsAt;
    ghost var rest := cats;
    NextCategory(rom, FIRST_CATEGORY, cats);
    var at: nat := FIRST_CATEGORY;
    found := [];
    while image[at] != END
      invariant at <= EndOf(at, rest) == EndOf(FIRST_CATEGORY, cats) && LaidOut(rom, at, rest) && found + rest == cats
      decreases |rest|
    {
      NextCategory(rom, at, rest);
      ghost var c := rest[0];
      var ctype, csize := image[at], image[at + 1];
      assert LaidOut(rom, at + 2 + csize, rest[1..]);
      MarkerBehind(rom, at + 2 + csize, rest[1..]);
      OneMore(found, rest);
      at := at + 2;
      ImageWordsAt(image[..], rom, at, csize);
      assert image[at..at + csize] == image[..][at..at + csize];
      found := found + [Category(ctype, image[at..at + csize])];
      assert found[|found| - 1] == c;
      at := at + csize;
      rest := rest[1..];
    }
    NextCategory(rom, at, rest);
  }

  /** Both passes: for any well-formed EEPROM whose size word behind the end marker is harmless, exactly its categories
      are visited. */
  method ReadCategories(rom: nat -> u16, ghost cats: seq<Category>) returns (ret: int, found: seq<Category>)
    requires LaidOut(rom, FIRST_CATEGORY, cats)
    requires var e := EndOf(FIRST_CATEGORY, cats);
      e < MAX_SII_SIZE && (e + 2 + rom(e + 1) < 0x1_0000 || rom(e + 1) >= 0xFFFE ||
                           (rom(e + 1) == 0xFFFD && e % 2 == 1))
    ensures ret == 0 && found == cats
  {
    hide LaidOut, EndOf, PairedWord, AlignUp;
    ghost var e := EndOf(FIRST_CATEGORY, cats);
    ImageCoversMarker(e, rom(e + 1));
    var nwords := ScanSize(rom, cats);
    var image := new u16[nwords];
    ret := SiiRead(rom, 0, image, nwords * 2);
    forall j | 0 <= j < nwords ensures image[j] == rom(j) {
      PairsInOrder(rom, j);
    }
    found := ParseCategories(image, rom, cats);
  }
}
