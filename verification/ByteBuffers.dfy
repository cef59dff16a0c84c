/** Byte sequences at positions of a buffer, and writing them in place. */
module ByteBuffers {
  import opened Words

  function Zeros(n: nat): (b: seq<byte>)
    ensures |b| == n
  {
    seq(n, i => 0)
  }

  /** `b` holds `w` from position `pos` on. */
  ghost predicate Holds(b: seq<byte>, pos: nat, w: seq<byte>) {
    pos + |w| <= |b| && b[pos..pos + |w|] == w
  }

  lemma HoldsParts(b: seq<byte>, pos: nat, u: seq<byte>, v: seq<byte>)
    ensures Holds(b, pos, u + v) <==> Holds(b, pos, u) && Holds(b, pos + |u|, v)
  {
    if pos + |u + v| <= |b| {
      var w := b[pos..pos + |u + v|];
      assert w[..|u|] == b[pos..pos + |u|] && w[|u|..] == b[pos + |u|..pos + |u| + |v|];
      assert w == w[..|u|] + w[|u|..];
      assert (u + v)[..|u|] == u && (u + v)[|u|..] == v;
    }
  }

  lemma HoldsLe16(b: seq<byte>, pos: nat, v: u16)
    requires Holds(b, pos, Le16(v))
    ensures ReadU16(b, pos) == v
  {
    assert b[pos..pos + 2][0] == b[pos] && b[pos..pos + 2][1] == b[pos + 1];
  }

  lemma Le32Value(v: u32)
    ensures v % 0x100 + 0x100 * ((v / 0x100) % 0x100) + 0x1_0000 * ((v / 0x1_0000) % 0x100) +
      0x100_0000 * (v / 0x100_0000) == v
  {
    var a: int, b: int := v / 0x100, v / 0x1_0000;
    assert b == a / 0x100 && v / 0x100_0000 == b / 0x100;
  }

  lemma HoldsLe32(b: seq<byte>, at: nat, v: u32)
    requires Holds(b, at, Le32(v))
    ensures ReadU32(b, at) == v
  {
    Le32Value(v);
    var w := b[at..at + 4];
    assert w[0] == b[at] && w[1] == b[at + 1] && w[2] == b[at + 2] && w[3] == b[at + 3];
  }

  lemma HoldsTwo(b: seq<byte>, pos: nat, x: byte, y: byte)
    ensures Holds(b, pos, [x, y]) <==> pos + 2 <= |b| && b[pos] == x && b[pos + 1] == y
  {
    if pos + 2 <= |b| {
      assert b[pos..pos + 2] == [b[pos], b[pos + 1]];
    }
  }

  lemma HoldsInside(b: seq<byte>, pos: nat, w: seq<byte>)
    ensures Holds(b, pos, w) ==> pos + |w| <= |b|
  {
  }

  function Written(b: seq<byte>, at: nat, w: seq<byte>): (r: seq<byte>)
    requires at + |w| <= |b|
    ensures |r| == |b|
  {
    b[..at] + w + b[at + |w|..]
  }

  method WriteBytes(buf: array<byte>, at: nat, w: seq<byte>)
    requires at + |w| <= buf.Length
    modifies buf
    ensures buf[..] == Written(old(buf[..]), at, w)
  {
    forall i | 0 <= i < |w| {
      buf[at + i] := w[i];
    }
  }

  lemma WrittenHolds(b: seq<byte>, at: nat, w: seq<byte>)
    requires at + |w| <= |b|
    ensures Holds(Written(b, at, w), at, w)
  {
  }

  lemma WrittenElsewhere(b: seq<byte>, at: nat, w: seq<byte>, pos: nat, v: seq<byte>)
    requires at + |w| <= |b| && Holds(b, pos, v) && (pos + |v| <= at || at + |w| <= pos)
    ensures Holds(Written(b, at, w), pos, v)
  {
    assert Written(b, at, w)[pos..pos + |v|] == b[pos..pos + |v|];
  }

  lemma WrittenByte(b: seq<byte>, at: nat, w: seq<byte>, i: nat)
    requires at + |w| <= |b| && i < at
    ensures Written(b, at, w)[i] == b[i]
  {
  }

  /** Writing directly behind what is already there. */
  lemma WrittenBehind(b: seq<byte>, v: seq<byte>, w: seq<byte>)
    requires Holds(b, 0, v) && |v| + |w| <= |b|
    ensures Holds(Written(b, |v|, w), 0, v + w)
  {
    WrittenElsewhere(b, |v|, w, 0, v);
    WrittenHolds(b, |v|, w);
    HoldsParts(Written(b, |v|, w), 0, v, w);
  }
}
