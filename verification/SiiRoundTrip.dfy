/** The strings of an EEPROM image from the encoder script to the slave: generate_eeprom
    (scripts/esi_parser.py:351-373), the two passes over the image, and the fetching of the strings
    (src/ec_slave.c:1212-1336, 62-106, 1364-1375). */
module SiiRoundTrip {
  import opened Words
  import opened SiiImage
  import opened SiiEncoder
  import opened SiiStrings

  /** EC_SII_TYPE_STRINGS */
  const STRINGS: u16 := 0x000A

  /** The categories of an image: a table without strings is not written. */
  function BlocksWith(data: seq<byte>, others: seq<Block>): seq<Block>
    requires |data| % 2 == 0 && |data| / 2 < 0x1_0000
  {
    if data == [] then others else [Block(STRINGS, data)] + others
  }

  function ImageBlocks(table: seq<string>, others: seq<Block>): seq<Block>
    requires StringsCategory(table).Some?
  {
    TableFits(table);
    BlocksWith(StringsCategory(table).value, others)
  }

  lemma TableFits(table: seq<string>)
    requires StringsCategory(table).Some?
    ensures |StringsCategory(table).value| % 2 == 0 && |StringsCategory(table).value| / 2 < 0x1_0000
    ensures StringsCategory(table).value == [] <==> table == []
  {
    EntriesFit(table);
  }

  lemma {:induction false} EntriesFit(table: seq<string>)
    requires AllShort(table)
    ensures |Entries(table)| <= 256 * |table|
  {
    if table == [] {
    } else {
      EntriesFit(table[1..]);
    }
  }

  // ----- what the slave gets from the categories -----

  predicate Fetchable(data: seq<byte>) {
    data != [] && StringsFrom(data, 1, data[0]).Some?
  }

  /** The strings of the last strings category; none if there is no such category. */
  function StringsIn(cats: seq<Category>): seq<seq<byte>> {
    if cats == [] then []
    else
      var c := cats[|cats| - 1];
      var data := BytesOf(c.data);
      if c.ctype == STRINGS && Fetchable(data) then StringsFrom(data, 1, data[0]).value
      else StringsIn(cats[..|cats| - 1])
  }

  /** What ec_slave_scanning does with the categories as far as strings are concerned. */
  method ReadStrings(found: seq<Category>) returns (strings: seq<seq<byte>>)
    requires forall i :: 0 <= i < |found| && found[i].ctype == STRINGS ==> Fetchable(BytesOf(found[i].data))
    ensures strings == StringsIn(found)
  {
    hide BytesOf, StringsFrom;
    strings := [];
    for i := 0 to |found|
      invariant strings == StringsIn(found[..i])
    {
      assert found[..i + 1][..i] == found[..i];
      if found[i].ctype == STRINGS {
        var bytes := BytesOf(found[i].data);
        var data := new byte[|bytes|](j requires 0 <= j < |bytes| => bytes[j]);
        assert data[..] == bytes;
        strings := FetchStrings(data);
      }
    }
    assert found[..|found|] == found;
  }

  lemma {:induction false} CategoriesAre(blocks: seq<Block>)
    ensures forall i :: 0 <= i < |blocks| ==>
      Categories(blocks)[i] == Category(blocks[i].ctype, WordsOf(blocks[i].data))
  {
    hide WordsOf;
    if blocks == [] {
    } else {
      CategoriesAre(blocks[1..]);
    }
  }

  lemma {:induction false} NoOtherStrings(cats: seq<Category>, n: nat)
    requires n <= |cats| && forall i :: n <= i < |cats| ==> cats[i].ctype != STRINGS
    ensures StringsIn(cats) == StringsIn(cats[..n])
    decreases |cats|
  {
    hide BytesOf, StringsFrom;
    if n == |cats| {
      assert cats[..n] == cats;
    } else {
      var front := cats[..|cats| - 1];
      NoOtherStrings(front, n);
      assert front[..n] == cats[..n];
    }
  }

  /** Every index of `table` leads to its string, and no other index leads anywhere. */
  ghost predicate Resolves(strings: seq<seq<byte>>, table: seq<string>) {
    forall index: u32 :: LooksUp(strings, table, index)
  }

  predicate LooksUp(strings: seq<seq<byte>>, table: seq<string>, index: u32) {
    var b := GetString(strings, index);
    if 1 <= index <= |table| then b.Some? && Spells(b.value, table[index - 1]) else b == None
  }

  /** What the slave finds in the categories of an image. */
  lemma ImageResolves(table: seq<string>, others: seq<Block>)
    requires StringsCategory(table).Some? && forall i :: 0 <= i < |others| ==> others[i].ctype != STRINGS
    ensures var cats := Categories(ImageBlocks(table, others));
      && (forall i :: 0 <= i < |cats| && cats[i].ctype == STRINGS ==> Fetchable(BytesOf(cats[i].data)))
      && Resolves(StringsIn(cats), table)
  {
    hide StringsCategory, StringsFrom, BytesOf, WordsOf, Categories, GetString, Spells;
    TableFits(table);
    var blocks := ImageBlocks(table, others);
    var cats := Categories(blocks);
    CategoriesAre(blocks);
    if table == [] {
      NoOtherStrings(cats, 0);
      forall index: u32 ensures LooksUp(StringsIn(cats), table, index) {
        NothingThere(index);
      }
    } else {
      var data := StringsCategory(table).value;
      BytesComeBack(data);
      assert cats[0] == Category(STRINGS, WordsOf(data)) && BytesOf(cats[0].data) == data;
      NoOtherStrings(cats, 1);
      forall index: u32 ensures Fetchable(data) && LooksUp(StringsFrom(data, 1, data[0]).value, table, index) {
        StringsRoundTrip(table, index);
      }
      StringsRoundTrip(table, 0);
      assert cats[..1] == [cats[0]] && StringsIn(cats[..1]) == StringsFrom(data, 1, data[0]).value;
    }
  }

  lemma NothingThere(index: u32)
    ensures GetString([], index) == None
  {
  }

  /** From the string table of the encoder through the image and both passes over it to the slave: all the strings of
      the table and nothing else, whatever the other categories contain. */
  method ReadImage(header: seq<byte>, data: seq<byte>, others: seq<Block>, fill: seq<byte>, ghost table: seq<string>)
    returns (ret: int, strings: seq<seq<byte>>)
    requires StringsCategory(table) == Some(data) && forall i :: 0 <= i < |others| ==> others[i].ctype != STRINGS
    requires |header| == 128 && |header| + |Tail(ImageBlocks(table, others))| <= 2 * MAX_SII_SIZE
    ensures ret == 0 && Resolves(strings, table)
  {
    hide StringsCategory, Tail, Categories, Resolves, Fetchable, StringsIn;
    TableFits(table);
    var blocks := BlocksWith(data, others);
    var found;
    ret, found := ReadGenerated(header, blocks, Tail(blocks), fill);
    ImageResolves(table, others);
    strings := ReadStrings(found);
  }

  // ----- the names of the general category -----

  lemma {:induction false} TableSizes(strings: seq<string>, names: seq<string>)
    ensures |AddAll(strings, names)| <= |strings| + |names|
    decreases |names|
  {
    if names == [] {
    } else {
      TableSizes(Add(strings, names[0]).strings, names[1..]);
    }
  }

  /** What the index given to `text` leads to in an image that was written from the table `before`, where `names`
      entered the table in between: to the text exactly if it was in the table already, and else to nothing. */
  lemma NameResolves(strings: seq<seq<byte>>, before: seq<string>, names: seq<string>, text: string)
    requires text != "" && Resolves(strings, before) && |before| <= 255 && |names| <= 255
    ensures Leads(strings, before, Add(AddAll(before, names), text).index, text)
  {
    hide Spells, AddAll, Resolves, GetString;
    var table := AddAll(before, names);
    var index := Add(table, text).index;
    Grows(before, names);
    TableSizes(before, names);
    ResolvesAt(strings, before, index);
    if text in before {
      var k :| 0 <= k < |before| && before[k] == text;
      assert table[k] == text;
      assert index - 1 <= k;
    } else {
      forall k | 0 <= k < |before| ensures table[k] != text {
        assert table[k] == before[k];
      }
      assert Position(table, text) >= |before|;
    }
  }

  lemma ResolvesAt(strings: seq<seq<byte>>, table: seq<string>, index: u32)
    requires Resolves(strings, table)
    ensures LooksUp(strings, table, index)
  {
  }

  /** `index` stands for `text`, and leads to it exactly if it was in `table`. */
  ghost predicate Leads(strings: seq<seq<byte>>, table: seq<string>, index: nat, text: string) {
    && 1 <= index <= 512
    && var b := GetString(strings, index);
    if text in table then b.Some? && Spells(b.value, text) else b == None
  }

  datatype Names = Names(group: nat, image: nat, order: nat, name: nat)

  /** One image: the encoder writes it, a slave carries it, the master reads it. */
  method GenerateAndRead(e: Encoder, deviceName: string, header: seq<byte>, others: seq<Block>, fill: seq<byte>)
    returns (ret: int, names: Names, strings: seq<seq<byte>>)
    requires StringsCategory(e.strings).Some? && forall i :: 0 <= i < |others| ==> others[i].ctype != STRINGS
    requires |header| == 128 && |header| + |Tail(ImageBlocks(e.strings, others))| <= 2 * MAX_SII_SIZE
    modifies e
    ensures ret == 0 && Resolves(strings, old(e.strings))
    ensures e.strings == AddAll(old(e.strings), ["ECAT_Device", "ECAT_CIA402", "", deviceName])
    ensures Leads(strings, old(e.strings), names.group, "ECAT_Device")
    ensures Leads(strings, old(e.strings), names.image, "ECAT_CIA402") && names.order == 0
    ensures if deviceName == "" then names.name == 0 else Leads(strings, old(e.strings), names.name, deviceName)
  {
    hide StringsCategory, Tail, Resolves, Leads;
    ghost var before := e.strings;
    var table, group, image, order, name := e.Generate(deviceName);
    ret, strings := ReadImage(header, table.value, others, fill, before);
    names := Names(group, image, order, name);
    TableSize(before);
    NameResolves(strings, before, [], "ECAT_Device");
    NameResolves(strings, before, ["ECAT_Device"], "ECAT_CIA402");
    if deviceName != "" {
      NameResolves(strings, before, ["ECAT_Device", "ECAT_CIA402", ""], deviceName);
    }
  }

  lemma FirstTable(deviceName: string)
    requires |deviceName| <= 255
    ensures var table := AddAll([], ["ECAT_Device", "ECAT_CIA402", "", deviceName]);
      && StringsCategory(table).Some? && "ECAT_Device" in table && "ECAT_CIA402" in table
      && (deviceName != "" ==> deviceName in table)
  {
    AddSome([], deviceName);
    var a := Add([], "ECAT_Device").strings;
    assert a == ["ECAT_Device"];
    assert Add(a, "ECAT_CIA402").strings == ["ECAT_Device", "ECAT_CIA402"];
  }

  /** A new encoder generates two images. In the first, no name of the general category leads anywhere, although an
      index other than 0 stands there for each that is not empty. In the second, all lead to their texts. */
  method TwoImages(deviceName: string, header: seq<byte>, others1: seq<Block>, others2: seq<Block>, fill: seq<byte>)
    returns (names1: Names, strings1: seq<seq<byte>>, names2: Names, strings2: seq<seq<byte>>)
    requires |deviceName| <= 255 && |header| == 128
    requires forall i :: 0 <= i < |others1| ==> others1[i].ctype != STRINGS
    requires forall i :: 0 <= i < |others2| ==> others2[i].ctype != STRINGS
    requires |header| + |Tail(others1)| <= 2 * MAX_SII_SIZE && |header| + 1030 + |Tail(others2)| <= 2 * MAX_SII_SIZE
    ensures Leads(strings1, [], names1.group, "ECAT_Device") && Leads(strings1, [], names1.image, "ECAT_CIA402")
    ensures deviceName != "" ==> Leads(strings1, [], names1.name, deviceName)
    ensures Leads(strings2, ["ECAT_Device"], names2.group, "ECAT_Device")
    ensures Leads(strings2, ["ECAT_CIA402"], names2.image, "ECAT_CIA402")
    ensures deviceName != "" ==> Leads(strings2, [deviceName], names2.name, deviceName)
  {
    hide StringsCategory, Tail, Resolves, AddAll, ImageBlocks;
    FirstTable(deviceName);
    NoTable(others1);
    SmallTable(deviceName, others2);
    var e := new Encoder();
    var ret;
    ret, names1, strings1 := GenerateAndRead(e, deviceName, header, others1, fill);
    ret, names2, strings2 := GenerateAndRead(e, deviceName, header, others2, fill);
  }

  lemma NoTable(others: seq<Block>)
    ensures StringsCategory([]) == Some([]) && ImageBlocks([], others) == others
  {
  }

  lemma SmallTable(deviceName: string, others: seq<Block>)
    requires |deviceName| <= 255 && StringsCategory(AddAll([], ["ECAT_Device", "ECAT_CIA402", "", deviceName])).Some?
    ensures |Tail(ImageBlocks(AddAll([], ["ECAT_Device", "ECAT_CIA402", "", deviceName]), others))| <= 1030 +
      |Tail(others)|
  {
    var table := AddAll([], ["ECAT_Device", "ECAT_CIA402", "", deviceName]);
    TableSizes([], ["ECAT_Device", "ECAT_CIA402", "", deviceName]);
    hide AddAll, Tail;
    EntriesFit(table);
    TableFits(table);
    TableLonger(table, others);
  }

  lemma TableLonger(table: seq<string>, others: seq<Block>)
    requires StringsCategory(table).Some? && |StringsCategory(table).value| <= 1026
    ensures |Tail(ImageBlocks(table, others))| <= 1030 + |Tail(others)|
  {
    var data := StringsCategory(table).value;
    TableFits(table);
    if data != [] {
      var k: Block := Block(STRINGS, data);
      BlockSize(k);
      assert ([k] + others)[1..] == others;
    }
  }
}
