/** The string table of the EEPROM: built by scripts/esi_parser.py:114-148, read back by src/ec_slave.c:62-106 and
    1364-1375. */
module SiiStrings {
  import opened Words
  import opened ByteBuffers

  // ----- the encoder -----

  /** The position of `text`, or the length of the table. */
  function Position(strings: seq<string>, text: string): (i: nat)
    ensures i <= |strings| && (i < |strings| ==> strings[i] == text)
    ensures forall k :: 0 <= k < i ==> strings[k] != text
  {
    if strings == [] || strings[0] == text then 0 else 1 + Position(strings[1..], text)
  }

  datatype Added = Added(strings: seq<string>, index: nat)

  function Add(strings: seq<string>, text: string): Added {
    if text == "" then Added(strings, 0)
    else
      var i := Position(strings, text);
      if i < |strings| then Added(strings, i + 1) else Added(strings + [text], |strings| + 1)
  }

  function AddAll(strings: seq<string>, texts: seq<string>): seq<string>
    decreases |texts|
  {
    if texts == [] then strings else AddAll(Add(strings, texts[0]).strings, texts[1..])
  }

  /** Every index other than 0 stays valid: whatever is added later, it stands for the same text. */
  lemma {:induction false} IndexStays(strings: seq<string>, text: string, later: seq<string>)
    ensures var a := Add(strings, text);
      (a.index == 0 <==> text == "")
      && (a.index != 0 ==> a.index <= |AddAll(a.strings, later)| && AddAll(a.strings, later)[a.index - 1] == text)
  {
    Grows(Add(strings, text).strings, later);
  }

  lemma {:induction false} Grows(strings: seq<string>, later: seq<string>)
    ensures strings <= AddAll(strings, later)
    decreases |later|
  {
    if later == [] {
    } else {
      Grows(Add(strings, later[0]).strings, later[1..]);
    }
  }

  /** encode('ascii', errors='replace') */
  function Ascii(s: string): (b: seq<byte>)
    ensures |b| == |s|
  {
    seq(|s|, i requires 0 <= i < |s| => if (s[i] as int) < 0x80 then s[i] as int else '?' as int)
  }

  /** The bytes `b` are the letters of `text` with a terminating zero; a question mark stands for every letter outside
      of ASCII. */
  predicate Spells(b: seq<byte>, text: string) {
    && |b| == |text| + 1 && b[|text|] == 0
    && forall i :: 0 <= i < |text| ==> b[i] == if (text[i] as int) < 0x80 then text[i] as int else 0x3F
  }

  lemma AsciiSpells(text: string)
    ensures Spells(Ascii(text) + [0], text)
  {
    forall i | 0 <= i < |text| ensures Ascii(text)[i] == if (text[i] as int) < 0x80 then text[i] as int else 0x3F {
      assert '?' as int == 0x3F;
    }
  }

  predicate AllAscii(text: string) {
    forall i :: 0 <= i < |text| ==> (text[i] as int) < 0x80
  }

  /** No two ASCII texts look the same to the slave. */
  lemma SpellsOneText(b: seq<byte>, text: string, other: string)
    requires Spells(b, text) && Spells(b, other) && AllAscii(text) && AllAscii(other)
    ensures text == other
  {
    forall i | 0 <= i < |text| ensures text[i] == other[i] {
      assert b[i] == text[i] as int == other[i] as int;
    }
  }

  function Entries(strings: seq<string>): seq<byte>
    requires AllShort(strings)
  {
    if strings == [] then [] else [|strings[0]|] + Ascii(strings[0]) + Entries(strings[1..])
  }

  predicate AllShort(strings: seq<string>) {
    forall i :: 0 <= i < |strings| ==> |strings[i]| <= 255
  }

  /** Python refuses a byte outside 0..255. */
  function StringsCategory(strings: seq<string>): Option<seq<byte>> {
    if |strings| > 255 || !AllShort(strings) then None
    else if strings == [] then Some([])
    else
      var data := [|strings|] + Entries(strings);
      Some(if |data| % 2 == 1 then data + [0] else data)
  }

  // ----- the reader -----

  /** `n` strings from position `at` on, each with the terminating zero that is put behind it; None if they run over the
      end. */
  function StringsFrom(data: seq<byte>, at: nat, n: nat): Option<seq<seq<byte>>>
    decreases n
  {
    if n == 0 then Some([])
    else if at >= |data| || at + 1 + data[at] > |data| then None
    else
      var rest := StringsFrom(data, at + 1 + data[at], n - 1);
      if rest.None? then None else Some([data[at + 1..at + 1 + data[at]] + [0]] + rest.value)
  }

  /** ec_slave_fetch_sii_strings with memory enough for the strings, on a category that contains as many as it
      announces. */
  method FetchStrings(data: array<byte>) returns (strings: seq<seq<byte>>)
    requires data.Length > 0 && StringsFrom(data[..], 1, data[0]).Some?
    ensures StringsFrom(data[..], 1, data[0]) == Some(strings) && |strings| == data[0]
  {
    var count: nat := data[0];
    strings := [];
    var offset: nat := 1;
    var i := 0;
    ghost var all := StringsFrom(data[..], 1, count).value;
    while i < count
      invariant 0 <= i <= count && |strings| == i
      invariant var rest := StringsFrom(data[..], offset, count - i); rest.Some? && strings + rest.value == all
    {
      var size := data[offset];
      assert data[..][offset + 1..offset + 1 + size] == data[offset + 1..offset + 1 + size];
      ghost var rest := StringsFrom(data[..], offset + 1 + size, count - i - 1).value;
      var s := data[offset + 1..offset + 1 + size] + [0];
      assert strings + ([s] + rest) == (strings + [s]) + rest;
      strings := strings + [s];
      offset := offset + 1 + size;
      i := i + 1;
    }
    assert strings + [] == strings;
  }

  /** ec_slave_get_sii_string */
  function GetString(strings: seq<seq<byte>>, index: u32): Option<seq<byte>> {
    if index == 0 then None
    else if index - 1 >= |strings| then None
    else Some(strings[index - 1])
  }

  // ----- round trip -----

  lemma {:induction false} EntriesRead(data: seq<byte>, at: nat, strings: seq<string>)
    requires AllShort(strings) && Holds(data, at, Entries(strings))
    ensures var r := StringsFrom(data, at, |strings|);
      && r.Some? && |r.value| == |strings|
      && forall i :: 0 <= i < |strings| ==> r.value[i] == Ascii(strings[i]) + [0]
    decreases |strings|
  {
    hide Ascii;
    if strings == [] {
    } else {
      var size := |strings[0]|;
      HoldsParts(data, at, [size] + Ascii(strings[0]), Entries(strings[1..]));
      HoldsParts(data, at, [size], Ascii(strings[0]));
      assert data[at..at + 1][0] == size;
      var next := at + 1 + size;
      EntriesRead(data, next, strings[1..]);
    }
  }

  /** What the encoder writes is what the slave's reader gets: every string of the table, and no other index. */
  lemma StringsRoundTrip(strings: seq<string>, index: u32)
    requires StringsCategory(strings).Some? && strings != []
    ensures var data := StringsCategory(strings).value;
      && data != [] && |data| % 2 == 0 && data[0] == |strings|
      && var r := StringsFrom(data, 1, data[0]);
      && r.Some?
      && var b := GetString(r.value, index);
      if 1 <= index <= |strings| then b.Some? && Spells(b.value, strings[index - 1]) else b == None
  {
    if 1 <= index <= |strings| {
      AsciiSpells(strings[index - 1]);
    }
    hide Ascii, Entries, Spells;
    var data := StringsCategory(strings).value;
    HoldsParts(data, 0, [|strings|], Entries(strings));
    EntriesRead(data, 1, strings);
  }

  /** From add_string to ec_slave_get_sii_string: the index handed out for a text leads back to the text, whatever was
      entered before and after it. */
  lemma TextComesBack(strings: seq<string>, text: string, later: seq<string>)
    requires text != "" && StringsCategory(AddAll(Add(strings, text).strings, later)).Some?
    ensures var table := AddAll(Add(strings, text).strings, later);
      var data := StringsCategory(table).value;
      && table != [] && data != [] && Add(strings, text).index <= 255
      && var r := StringsFrom(data, 1, data[0]);
      && r.Some?
      && var b := GetString(r.value, Add(strings, text).index);
      b.Some? && Spells(b.value, text)
  {
    hide Spells, Add, AddAll, StringsCategory, StringsFrom, GetString;
    var table := AddAll(Add(strings, text).strings, later);
    IndexStays(strings, text, later);
    TableSize(table);
    StringsRoundTrip(table, Add(strings, text).index);
  }

  lemma TableSize(strings: seq<string>)
    requires StringsCategory(strings).Some?
    ensures |strings| <= 255
  {
  }

  // ----- the order in which an image is generated -----

  /** The strings of EtherCATXMLParser. */
  class Encoder {
    var strings: seq<string>

    constructor ()
      ensures strings == []
    {
      strings := [];
    }

    /** add_string */
    method AddString(text: string) returns (index: nat)
      modifies this
      ensures Added(strings, index) == Add(old(strings), text)
    {
      if text == "" {
        return 0;
      }
      var i := 0;
      while i < |strings|
        invariant 0 <= i <= |strings|
        invariant Position(strings, text) == i + Position(strings[i..], text)
      {
        if strings[i] == text {
          return i + 1;
        }
        i := i + 1;
      }
      strings := strings + [text];
      index := |strings|;
    }

    /** create_strings_category */
    method CreateStrings() returns (data: Option<seq<byte>>)
      ensures data == StringsCategory(strings)
    {
      if |strings| > 255 {
        return None;
      }
      if strings == [] {
        return Some([]);
      }
      var bytes: seq<byte> := [|strings|];
      var i := 0;
      while i < |strings|
        invariant 0 <= i <= |strings| && AllShort(strings[..i])
        invariant AllShort(strings) ==> [|strings|] + Entries(strings) == bytes + Entries(strings[i..])
      {
        if |strings[i]| > 255 {
          return None;
        }
        ghost var rest := strings[i..];
        assert AllShort(strings) ==> Entries(rest) == [|rest[0]|] + Ascii(rest[0]) + Entries(rest[1..]);
        bytes := bytes + [|strings[i]|] + Ascii(strings[i]);
        i := i + 1;
        assert strings[i..] == rest[1..];
      }
      assert strings[..i] == strings && strings[i..] == [];
      assert bytes + Entries([]) == bytes;
      if |bytes| % 2 == 1 {
        bytes := bytes + [0];
      }
      data := Some(bytes);
    }

    /** generate_eeprom as far as strings are concerned: the string table is written first, and only then do the
        names of the general category enter it. */
    method Generate(deviceName: string) returns (table: Option<seq<byte>>, group: nat, image: nat, order: nat,
                                                 name: nat)
      modifies this
      ensures table == StringsCategory(old(strings))
      ensures strings == AddAll(old(strings), ["ECAT_Device", "ECAT_CIA402", "", deviceName])
      ensures group == Add(old(strings), "ECAT_Device").index
      ensures image == Add(AddAll(old(strings), ["ECAT_Device"]), "ECAT_CIA402").index && order == 0
      ensures name == Add(AddAll(old(strings), ["ECAT_Device", "ECAT_CIA402", ""]), deviceName).index
    {
      ghost var before := strings;
      table := CreateStrings();
      group := AddString("ECAT_Device");
      image := AddString("ECAT_CIA402");
      order := AddString("");
      name := AddString(deviceName);
      AddSome(before, deviceName);
    }
  }

  lemma AddSome(strings: seq<string>, name: string)
    ensures AddAll(strings, ["ECAT_Device"]) == Add(strings, "ECAT_Device").strings
    ensures var a := Add(Add(Add(strings, "ECAT_Device").strings, "ECAT_CIA402").strings, "").strings;
      && AddAll(strings, ["ECAT_Device", "ECAT_CIA402", ""]) == a
      && AddAll(strings, ["ECAT_Device", "ECAT_CIA402", "", name]) == Add(a, name).strings
  {
    hide Add;
    var t := ["ECAT_Device", "ECAT_CIA402", "", name];
    var t3 := ["ECAT_Device", "ECAT_CIA402", ""];
    assert t[1..] == ["ECAT_CIA402", "", name] && t[2..] == ["", name] && t[3..] == [name];
    assert t3[1..] == ["ECAT_CIA402", ""] && t3[2..] == [""];
    var a := Add(strings, "ECAT_Device").strings;
    var b := Add(a, "ECAT_CIA402").strings;
    var c := Add(b, "").strings;
    assert AddAll(strings, ["ECAT_Device"]) == AddAll(a, ["ECAT_Device"][1..]) == a;
    assert AddAll(c, [name]) == AddAll(Add(c, name).strings, [name][1..]) == Add(c, name).strings;
    assert AddAll(b, ["", name]) == AddAll(c, ["", name][1..]);
    assert AddAll(a, ["ECAT_CIA402", "", name]) == AddAll(b, ["ECAT_CIA402", "", name][1..]);
    assert AddAll(b, [""]) == AddAll(c, [""][1..]) == c;
    assert AddAll(a, ["ECAT_CIA402", ""]) == AddAll(b, ["ECAT_CIA402", ""][1..]);
  }
}
