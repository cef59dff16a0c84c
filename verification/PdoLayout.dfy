/** The process data image (src/ec_master.c:487-567 and 667-713): ec_master_start gives every sync manager of every
    slave its region, and the accessors tell the application where a slave's outputs and inputs are. */
module PdoLayout {
  import opened Words

  datatype Dir = Output | Input

  datatype Entry = Entry(index: u16, subindex: byte, bitLength: byte)

  datatype Pdo = Pdo(index: u16, entries: seq<Entry>)

  datatype Sync = Sync(index: byte, dir: Dir, pdos: seq<Pdo>)

  /** ec_sm_info_t as far as it is filled in here. */
  datatype SmInfo = SmInfo(
    length: nat, enable: bool, assign: seq<u16>, mapping: seq<seq<u32>>, fmmuStart: nat, fmmuSize: nat, fmmuDir: Dir,
      fmmuEnable: bool)

  datatype Slave = Slave(config: seq<Sync>, sms: seq<SmInfo>, start: nat, osize: nat, isize: nat, expectedCounter: nat)

  /** CONFIG_EC_PER_SM_MAX_PDOS and CONFIG_EC_PER_PDO_MAX_PDO_ENTRIES */
  datatype Limits = Limits(pdos: nat, entries: nat)

  // ----- sizes -----

  function EntryBits(es: seq<Entry>): nat {
    if es == [] then 0 else EntryBits(es[..|es| - 1]) + es[|es| - 1].bitLength
  }

  function PdoBits(ps: seq<Pdo>): nat {
    if ps == [] then 0 else PdoBits(ps[..|ps| - 1]) + EntryBits(ps[|ps| - 1].entries)
  }

  /** Bytes are rounded up once for each sync manager. */
  function Bytes(s: Sync): nat {
    (PdoBits(s.pdos) + 7) / 8
  }

  function Total(c: seq<Sync>): nat {
    if c == [] then 0 else Total(c[..|c| - 1]) + Bytes(c[|c| - 1])
  }

  function SizeOf(c: seq<Sync>, dir: Dir): nat {
    if c == [] then 0 else SizeOf(c[..|c| - 1], dir) + if c[|c| - 1].dir == dir then Bytes(c[|c| - 1]) else 0
  }

  /** Where the region of the `i`-th sync manager of a slave begins, relative to the slave. */
  function Offset(c: seq<Sync>, i: nat): nat
    requires i <= |c|
  {
    Total(c[..i])
  }

  /** Where the domain of the `k`-th slave begins. */
  function DomainStart(configs: seq<seq<Sync>>, k: nat): nat
    requires k <= |configs|
  {
    if k == 0 then 0 else DomainStart(configs, k - 1) + Total(configs[k - 1])
  }

  lemma {:induction false} TwoDirections(c: seq<Sync>)
    ensures SizeOf(c, Output) + SizeOf(c, Input) == Total(c)
    decreases |c|
  {
    if c == [] {
    } else {
      TwoDirections(c[..|c| - 1]);
    }
  }

  lemma {:induction false} OffsetNext(c: seq<Sync>, i: nat)
    requires i < |c|
    ensures Offset(c, i + 1) == Offset(c, i) + Bytes(c[i])
  {
    assert c[..i + 1][..i] == c[..i];
  }

  // ----- every mapped entry has its bits -----

  /** The entries of all PDOs of a sync manager, in order. */
  function Entries(ps: seq<Pdo>): seq<Entry> {
    if ps == [] then [] else Entries(ps[..|ps| - 1]) + ps[|ps| - 1].entries
  }

  /** Where the bits of the `n`-th entry begin. */
  function BitStart(es: seq<Entry>, n: nat): nat
    requires n <= |es|
  {
    if n == 0 then 0 else BitStart(es, n - 1) + es[n - 1].bitLength
  }

  lemma {:induction false} BitStartMore(es: seq<Entry>, more: seq<Entry>, n: nat)
    requires n <= |es| + |more|
    ensures BitStart(es + more, n) ==
      if n <= |es| then BitStart(es, n) else BitStart(es, |es|) + BitStart(more, n - |es|)
    decreases n
  {
    if n == 0 {
    } else {
      BitStartMore(es, more, n - 1);
    }
  }

  lemma {:induction false} EntryBitsAre(es: seq<Entry>)
    ensures EntryBits(es) == BitStart(es, |es|)
    decreases |es|
  {
    if es == [] {
    } else {
      var init, last := es[..|es| - 1], es[|es| - 1];
      EntryBitsAre(init);
      assert init + [last] == es;
      BitStartMore(init, [last], |es| - 1);
    }
  }

  lemma {:induction false} PdoBitsAre(ps: seq<Pdo>)
    ensures PdoBits(ps) == BitStart(Entries(ps), |Entries(ps)|)
    decreases |ps|
  {
    if ps == [] {
    } else {
      var init, last := Entries(ps[..|ps| - 1]), ps[|ps| - 1].entries;
      PdoBitsAre(ps[..|ps| - 1]);
      EntryBitsAre(last);
      BitStartMore(init, last, |init| + |last|);
    }
  }

  lemma {:induction false} BitsGrow(es: seq<Entry>, n: nat, m: nat)
    requires n < m <= |es|
    ensures BitStart(es, n) + es[n].bitLength <= BitStart(es, m)
    decreases m - n
  {
    if n + 1 == m {
    } else {
      BitsGrow(es, n, m - 1);
    }
  }

  /** Every entry has bits of its own in the region of its sync manager, one behind the other, and the region is not a
      byte longer than needed. */
  lemma EntriesFit(s: Sync, n: nat, m: nat)
    requires n < |Entries(s.pdos)|
    ensures var es := Entries(s.pdos);
      && BitStart(es, n) + es[n].bitLength <= 8 * Bytes(s)
      && (n < m < |es| ==> BitStart(es, n) + es[n].bitLength <= BitStart(es, m))
      && BitStart(es, |es|) <= 8 * Bytes(s) < BitStart(es, |es|) + 8
  {
    var es := Entries(s.pdos);
    PdoBitsAre(s.pdos);
    BitsGrow(es, n, |es|);
    if n < m < |es| {
      BitsGrow(es, n, m);
    }
    RoundedUp(PdoBits(s.pdos));
  }

  lemma RoundedUp(bits: nat)
    ensures bits <= 8 * ((bits + 7) / 8) < bits + 8
  {
  }

  // ----- the layout -----

  function EntryWord(e: Entry): u32 {
    e.index * 0x1_0000 + e.subindex * 0x100 + e.bitLength
  }

  /** The fields of the word do not overlap. */
  lemma EntryWordRead(e: Entry)
    ensures var w := EntryWord(e);
      w / 0x1_0000 == e.index && (w / 0x100) % 0x100 == e.subindex && w % 0x100 == e.bitLength
  {
    var w: int := EntryWord(e);
    var high: int := e.index * 0x100 + e.subindex;
    assert w == high * 0x100 + e.bitLength;
    assert w / 0x100 == high && high / 0x100 == e.index && high % 0x100 == e.subindex;
  }

  function EntryWords(es: seq<Entry>): (w: seq<u32>)
    ensures |w| == |es|
  {
    seq(|es|, i requires 0 <= i < |es| => EntryWord(es[i]))
  }

  /** What a sync manager is told: its length, what is assigned and mapped, and the region of its FMMU. */
  predicate Configured(m: SmInfo, s: Sync, start: nat) {
    && m.length == Bytes(s) && m.enable
    && |m.assign| == |s.pdos| && (forall j :: 0 <= j < |s.pdos| ==> m.assign[j] == s.pdos[j].index)
    && |m.mapping| == |s.pdos| && (forall j :: 0 <= j < |s.pdos| ==> m.mapping[j] == EntryWords(s.pdos[j].entries))
    && m.fmmuStart == start && m.fmmuSize == Bytes(s) && m.fmmuDir == s.dir && m.fmmuEnable
  }

  ghost predicate DistinctIndices(c: seq<Sync>) {
    forall i, j :: 0 <= i < j < |c| ==> c[i].index != c[j].index
  }

  /** What the assertions of ec_master_start demand of a slave's configuration. */
  predicate Acceptable(s: Slave, limits: Limits) {
    forall i :: 0 <= i < |s.config| ==>
      && s.config[i].index < |s.sms| && |s.config[i].pdos| <= limits.pdos
      && forall j :: 0 <= j < |s.config[i].pdos| ==> |s.config[i].pdos[j].entries| <= limits.entries
  }

  /** A slave whose domain begins at `start`, and what else it has been told. */
  ghost predicate Placed(before: Slave, after: Slave, start: nat) {
    && after.config == before.config && after.start == start && after.expectedCounter == 3
    && after.osize == SizeOf(after.config, Output) && after.isize == SizeOf(after.config, Input)
    && |after.sms| == |before.sms|
    && (DistinctIndices(after.config) ==>
          forall i :: 0 <= i < |after.config| ==>
            after.config[i].index < |after.sms| &&
            Configured(after.sms[after.config[i].index], after.config[i], start + Offset(after.config, i)))
    && (forall k :: 0 <= k < |after.sms| && (forall i :: 0 <= i < |after.config| ==> after.config[i].index != k) ==>
          after.sms[k] == before.sms[k])
  }

  /** The loops over the PDOs of one sync manager and their entries. */
  method MapPdos(s: Sync) returns (assign: seq<u16>, mapping: seq<seq<u32>>, bitlen: nat)
    ensures |assign| == |mapping| == |s.pdos| && bitlen == PdoBits(s.pdos)
    ensures forall j :: 0 <= j < |s.pdos| ==>
      assign[j] == s.pdos[j].index && mapping[j] == EntryWords(s.pdos[j].entries)
  {
    assign, mapping, bitlen := [], [], 0;
    var j := 0;
    while j < |s.pdos|
      invariant 0 <= j <= |s.pdos| && |assign| == |mapping| == j && bitlen == PdoBits(s.pdos[..j])
      invariant forall k :: 0 <= k < j ==> assign[k] == s.pdos[k].index && mapping[k] == EntryWords(s.pdos[k].entries)
    {
      var es := s.pdos[j].entries;
      var words: seq<u32> := [];
      var k := 0;
      while k < |es|
        invariant 0 <= k <= |es| && words == EntryWords(es[..k]) && bitlen == PdoBits(s.pdos[..j]) + EntryBits(es[..k])
      {
        assert es[..k + 1][..k] == es[..k];
        words := words + [EntryWord(es[k])];
        bitlen := bitlen + es[k].bitLength;
        k := k + 1;
        assert words == EntryWords(es[..k]);
      }
      assert es[..k] == es && s.pdos[..j + 1][..j] == s.pdos[..j];
      assign, mapping := assign + [s.pdos[j].index], mapping + [words];
      j := j + 1;
    }
    assert s.pdos[..j] == s.pdos;
  }

  /** The first `i` sync managers of a slave are done. */
  ghost predicate Done(before: Slave, sms: seq<SmInfo>, i: nat, start: nat) {
    var c := before.config;
    && i <= |c| && |sms| == |before.sms|
    && (DistinctIndices(c) ==>
          forall k :: 0 <= k < i ==> c[k].index < |sms| && Configured(sms[c[k].index], c[k], start + Offset(c, k)))
    && (forall k :: 0 <= k < |sms| && (forall j :: 0 <= j < |c| ==> c[j].index != k) ==> sms[k] == before.sms[k])
  }

  lemma DoneNext(before: Slave, sms: seq<SmInfo>, i: nat, start: nat, m: SmInfo)
    requires Done(before, sms, i, start) && i < |before.config| && before.config[i].index < |sms|
    requires Configured(m, before.config[i], start + Offset(before.config, i))
    ensures Done(before, sms[before.config[i].index := m], i + 1, start)
  {
    hide Configured, Offset;
  }

  lemma SizesNext(c: seq<Sync>, i: nat)
    requires i < |c|
    ensures SizeOf(c[..i + 1], Output) == SizeOf(c[..i], Output) + if c[i].dir == Output then Bytes(c[i]) else 0
    ensures SizeOf(c[..i + 1], Input) == SizeOf(c[..i], Input) + if c[i].dir == Input then Bytes(c[i]) else 0
    ensures Offset(c, i + 1) == Offset(c, i) + Bytes(c[i])
  {
    hide Bytes;
    OffsetNext(c, i);
    assert c[..i + 1][..i] == c[..i];
  }

  lemma SizesStart(before: Slave, start: nat)
    ensures var c := before.config;
      Offset(c, 0) == SizeOf(c[..0], Output) == SizeOf(c[..0], Input) == 0 && Done(before, before.sms, 0, start)
  {
  }

  lemma SyncManagerTold(s: Sync, assign: seq<u16>, mapping: seq<seq<u32>>, start: nat)
    requires |assign| == |mapping| == |s.pdos|
    requires forall j :: 0 <= j < |s.pdos| ==>
      assign[j] == s.pdos[j].index && mapping[j] == EntryWords(s.pdos[j].entries)
    ensures Configured(SmInfo(Bytes(s), true, assign, mapping, start, Bytes(s), s.dir, true), s, start)
  {
    hide Bytes, EntryWords;
  }

  /** The loop over the sync managers of one slave. */
  method PlaceSlave(before: Slave, start: nat, ghost limits: Limits) returns (after: Slave, size: nat)
    requires Acceptable(before, limits)
    ensures Placed(before, after, start) && size == start + Total(before.config)
  {
    hide Configured, Offset, SizeOf, Done, Total, EntryWords, PdoBits;
    var c := before.config;
    var sms, osize, isize := before.sms, 0, 0;
    size := start;
    var i := 0;
    SizesStart(before, start);
    while i < |c|
      invariant 0 <= i <= |c| && |sms| == |before.sms| && size == start + Offset(c, i)
      invariant osize == SizeOf(c[..i], Output) && isize == SizeOf(c[..i], Input)
      invariant Done(before, sms, i, start)
    {
      var assign, mapping, bitlen := MapPdos(c[i]);
      var bytes := (bitlen + 7) / 8;
      SizesNext(c, i);
      var m := SmInfo(bytes, true, assign, mapping, size, bytes, c[i].dir, true);
      SyncManagerTold(c[i], assign, mapping, size);
      DoneNext(before, sms, i, start, m);
      sms := sms[c[i].index := m];
      size := size + bytes;
      if c[i].dir == Input {
        isize := isize + bytes;
      }
      if c[i].dir == Output {
        osize := osize + bytes;
      }
      i := i + 1;
    }
    assert c[..i] == c;
    OffsetAll(c);
    after := Slave(c, sms, start, osize, isize, 3);
    AllDone(before, after, start);
  }

  lemma AllDone(before: Slave, after: Slave, start: nat)
    requires Done(before, after.sms, |before.config|, start) && after.config == before.config && after.start == start
    requires after.expectedCounter == 3
    requires after.osize == SizeOf(after.config, Output) && after.isize == SizeOf(after.config, Input)
    ensures Placed(before, after, start)
  {
    hide Configured, Offset, SizeOf;
  }

  function Configs(slaves: seq<Slave>): (c: seq<seq<Sync>>)
    ensures |c| == |slaves|
  {
    seq(|slaves|, i requires 0 <= i < |slaves| => slaves[i].config)
  }

  lemma DomainNext(configs: seq<seq<Sync>>, k: nat)
    requires k <= |configs|
    ensures DomainStart(configs, 0) == 0
    ensures k < |configs| ==> DomainStart(configs, k + 1) == DomainStart(configs, k) + Total(configs[k])
  {
  }

  lemma PlacedCounter(before: Slave, after: Slave, start: nat)
    requires Placed(before, after, start)
    ensures after.expectedCounter == 3
  {
  }

  /** The layout part of ec_master_start. */
  method Layout(slaves: array<Slave>, ghost limits: Limits) returns (size: nat, expectedCounter: nat)
    requires forall k :: 0 <= k < slaves.Length ==> Acceptable(slaves[k], limits)
    modifies slaves
    ensures var configs := Configs(old(slaves[..]));
      && size == DomainStart(configs, slaves.Length) && expectedCounter == 3 * slaves.Length
      && forall k :: 0 <= k < slaves.Length ==> Placed(old(slaves[k]), slaves[k], DomainStart(configs, k))
  {
    hide Placed, DomainStart, Acceptable, Total;
    ghost var configs := Configs(slaves[..]);
    DomainNext(configs, 0);
    size, expectedCounter := 0, 0;
    var k := 0;
    while k < slaves.Length
      invariant 0 <= k <= slaves.Length && size == DomainStart(configs, k) && expectedCounter == 3 * k
      invariant forall j :: 0 <= j < k ==> Placed(old(slaves[j]), slaves[j], DomainStart(configs, j))
      invariant forall j :: k <= j < slaves.Length ==> slaves[j] == old(slaves[j])
    {
      var placed;
      DomainNext(configs, k);
      assert configs[k] == slaves[k].config;
      placed, size := PlaceSlave(slaves[k], size, limits);
      PlacedCounter(slaves[k], placed, DomainStart(configs, k));
      slaves[k] := placed;
      expectedCounter := expectedCounter + placed.expectedCounter;
      k := k + 1;
    }
  }

  // ----- regions tile the image -----

  /** Byte `x` lies in the region of the `i`-th sync manager of the `k`-th slave. */
  predicate InRegion(configs: seq<seq<Sync>>, k: nat, i: nat, x: nat) {
    k < |configs| && i < |configs[k]| &&
    var from := DomainStart(configs, k) + Offset(configs[k], i);
    from <= x < from + Bytes(configs[k][i])
  }

  lemma {:induction false} FindSync(c: seq<Sync>, x: nat, n: nat) returns (i: nat)
    requires n <= |c| && x < Offset(c, n)
    ensures i < n && Offset(c, i) <= x < Offset(c, i) + Bytes(c[i])
    decreases n
  {
    OffsetNext(c, n - 1);
    if x >= Offset(c, n - 1) {
      i := n - 1;
    } else {
      i := FindSync(c, x, n - 1);
    }
  }

  lemma {:induction false} FindSlave(configs: seq<seq<Sync>>, x: nat, n: nat) returns (k: nat)
    requires n <= |configs| && x < DomainStart(configs, n)
    ensures k < n && DomainStart(configs, k) <= x < DomainStart(configs, k) + Total(configs[k])
    decreases n
  {
    if x >= DomainStart(configs, n - 1) {
      k := n - 1;
    } else {
      k := FindSlave(configs, x, n - 1);
    }
  }

  lemma {:induction false} OffsetsGrow(c: seq<Sync>, i: nat, j: nat)
    requires i < j <= |c|
    ensures Offset(c, i) + Bytes(c[i]) <= Offset(c, j)
    decreases j - i
  {
    OffsetNext(c, j - 1);
    if i < j - 1 {
      OffsetsGrow(c, i, j - 1);
    }
  }

  lemma {:induction false} StartsGrow(configs: seq<seq<Sync>>, k: nat, m: nat)
    requires k < m <= |configs|
    ensures DomainStart(configs, k) + Total(configs[k]) <= DomainStart(configs, m)
    decreases m - k
  {
    if k < m - 1 {
      StartsGrow(configs, k, m - 1);
    }
  }

  lemma InDomain(configs: seq<seq<Sync>>, k: nat, i: nat, x: nat)
    requires InRegion(configs, k, i, x)
    ensures DomainStart(configs, k) <= x < DomainStart(configs, k) + Total(configs[k])
  {
    OffsetsGrow(configs[k], i, |configs[k]|);
    assert configs[k][..|configs[k]|] == configs[k];
  }

  /** The regions tile the image: every byte of it lies in exactly one of them, and none reaches beyond. */
  lemma RegionsTile(configs: seq<seq<Sync>>, x: nat)
    ensures x < DomainStart(configs, |configs|) <==> exists k: nat, i: nat :: InRegion(configs, k, i, x)
    ensures forall k: nat, i: nat, m: nat, j: nat :: InRegion(configs, k, i, x) && InRegion(configs, m, j, x) ==>
      k == m && i == j
  {
    hide DomainStart, Offset, Total, Bytes;
    if x < DomainStart(configs, |configs|) {
      var k := FindSlave(configs, x, |configs|);
      OffsetAll(configs[k]);
      var i := FindSync(configs[k], x - DomainStart(configs, k), |configs[k]|);
      assert InRegion(configs, k, i, x);
    }
    forall k: nat, i: nat | InRegion(configs, k, i, x) ensures x < DomainStart(configs, |configs|) {
      InDomain(configs, k, i, x);
      StartsGrow(configs, k, |configs|);
    }
    forall k: nat, i: nat, m: nat, j: nat | InRegion(configs, k, i, x) && InRegion(configs, m, j, x) ensures k == m &&
      i == j {
      InDomain(configs, k, i, x);
      InDomain(configs, m, j, x);
      if k < m {
        StartsGrow(configs, k, m);
      } else if m < k {
        StartsGrow(configs, m, k);
      } else if i < j {
        OffsetsGrow(configs[k], i, j);
      } else if j < i {
        OffsetsGrow(configs[k], j, i);
      }
    }
  }

  lemma OffsetAll(c: seq<Sync>)
    ensures Offset(c, |c|) == Total(c)
  {
    assert c[..|c|] == c;
  }

  // ----- the accessors -----

  /** ec_master_get_slave_domain_output, _osize, _input and _isize: from where and how many bytes; nothing if there are
      none. */
  function OutputBytes(s: Slave): Option<(nat, nat)> {
    if s.osize == 0 then None else Some((s.start, s.osize))
  }

  function InputBytes(s: Slave): Option<(nat, nat)> {
    if s.isize == 0 then None else Some((s.start + s.osize, s.isize))
  }

  predicate Inside(range: Option<(nat, nat)>, x: nat) {
    range.Some? && range.value.0 <= x < range.value.0 + range.value.1
  }

  /** Byte `x` of the slave belongs to a sync manager of this direction. */
  predicate Belongs(c: seq<Sync>, dir: Dir, x: nat) {
    exists i :: 0 <= i < |c| && c[i].dir == dir && Offset(c, i) <= x < Offset(c, i) + Bytes(c[i])
  }

  /** No input with data stands in front of an output with data. */
  predicate OutputsFirst(c: seq<Sync>) {
    forall i, j :: 0 <= i < j < |c| && c[i].dir == Input && Bytes(c[i]) > 0 && c[j].dir == Output ==> Bytes(c[j]) == 0
  }

  ghost predicate AccessorsExact(s: Slave) {
    forall x :: s.start <= x ==>
      && (Inside(OutputBytes(s), x) <==> Belongs(s.config, Output, x - s.start))
      && (Inside(InputBytes(s), x) <==> Belongs(s.config, Input, x - s.start))
  }

  /** Up to an input with data there are only outputs, and behind it only inputs. */
  lemma {:induction false} OutputsAre(c: seq<Sync>, i: nat)
    requires OutputsFirst(c) && i < |c| && Bytes(c[i]) > 0
    ensures c[i].dir == Output ==> Offset(c, i) + Bytes(c[i]) <= SizeOf(c, Output)
    ensures c[i].dir == Input ==> SizeOf(c, Output) <= Offset(c, i)
    decreases |c|
  {
    hide Bytes;
    var last := |c| - 1;
    var d := c[..last];
    assert OutputsFirst(d) by {
      forall k, j | 0 <= k < j < |d| && d[k].dir == Input && Bytes(d[k]) > 0 &&
        d[j].dir == Output ensures Bytes(d[j]) == 0 {
        assert c[k] == d[k] && c[j] == d[j];
      }
    }
    if i < last {
      OutputsAre(d, i);
      assert c[..i] == d[..i];
    } else {
      TwoDirections(d);
      if c[i].dir == Output {
        NoInputs(d, c[i]);
      }
    }
  }

  lemma NoInputs(d: seq<Sync>, o: Sync)
    requires OutputsFirst(d + [o]) && o.dir == Output && Bytes(o) > 0
    ensures SizeOf(d, Input) == 0
  {
    hide Bytes;
    var c := d + [o];
    forall k | 0 <= k < |d| && d[k].dir == Input ensures Bytes(d[k]) == 0 {
      assert c[k] == d[k] && c[|d|] == o;
    }
    EmptyInputs(d);
  }

  lemma {:induction false} EmptyInputs(d: seq<Sync>)
    requires forall k :: 0 <= k < |d| && d[k].dir == Input ==> Bytes(d[k]) == 0
    ensures SizeOf(d, Input) == 0
    decreases |d|
  {
    hide Bytes;
    if d == [] {
    } else {
      EmptyInputs(d[..|d| - 1]);
    }
  }

  /** The output and input accessors of a placed slave point at exactly the bytes of its output and of its input sync
      managers if and only if no input with data stands in front of an output with data. */
  lemma AccessorsExactIff(before: Slave, s: Slave)
    requires Placed(before, s, s.start)
    ensures AccessorsExact(s) <==> OutputsFirst(s.config)
  {
    hide Bytes, SizeOf, Offset, OutputsFirst;
    var c := s.config;
    TwoDirections(c);
    if OutputsFirst(c) {
      forall x | s.start <= x
        ensures Inside(OutputBytes(s), x) <==> Belongs(c, Output, x - s.start)
        ensures Inside(InputBytes(s), x) <==> Belongs(c, Input, x - s.start)
      {
        ByteExact(c, x - s.start);
      }
    } else {
      OutputBehindInput(s);
    }
  }

  lemma ByteExact(c: seq<Sync>, x: nat)
    requires OutputsFirst(c)
    ensures Belongs(c, Output, x) <==> x < SizeOf(c, Output)
    ensures Belongs(c, Input, x) <==> SizeOf(c, Output) <= x < Total(c)
  {
    hide Bytes, SizeOf, Offset, OutputsFirst, Total;
    TwoDirections(c);
    OffsetAll(c);
    forall i | 0 <= i < |c| && Offset(c, i) <= x < Offset(c, i) + Bytes(c[i])
      ensures x < Total(c) && (c[i].dir == Output <==> x < SizeOf(c, Output))
    {
      OutputsAre(c, i);
      OffsetsGrow(c, i, |c|);
    }
    if x < Total(c) {
      var i := FindSync(c, x, |c|);
      assert Belongs(c, c[i].dir, x);
    }
  }

  lemma OutputBehindInput(s: Slave)
    requires !OutputsFirst(s.config)
    ensures !AccessorsExact(s)
  {
    hide Bytes, Offset;
    var c := s.config;
    var i, j :| 0 <= i < j < |c| && c[i].dir == Input && Bytes(c[i]) > 0 && c[j].dir == Output && Bytes(c[j]) > 0;
    OffsetsGrow(c, i, j);
    var x, y := Offset(c, i), Offset(c, j);
    assert Belongs(c, Input, x) && Belongs(c, Output, y);
    var at, behind := s.start + x, s.start + y;
    assert !(Inside(InputBytes(s), at) && Inside(OutputBytes(s), behind));
  }
}
