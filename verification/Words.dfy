/** Fixed-width machine words and the option type shared by all modules. */
module Words {

  datatype Option<+T> = None | Some(value: T)

  const TWO_32: int := 0x1_0000_0000
  const TWO_64: int := 0x1_0000_0000_0000_0000

  type byte = x: int | 0 <= x < 0x100
  type u16 = x: int | 0 <= x < 0x1_0000
  type u32 = x: int | 0 <= x < 0x1_0000_0000
  type u64 = x: int | 0 <= x < 0x1_0000_0000_0000_0000

  /** Conversion of a mathematical integer to `uint32_t`. */
  function Wrap32(x: int): u32 {
    x % 0x1_0000_0000
  }

  function Turns(x: int): int {
    x / 0x1_0000_0000
  }

  lemma WrapParts(x: int)
    ensures x == Turns(x) * 0x1_0000_0000 + Wrap32(x)
  {
  }

  lemma WrapIs(x: int, k: int, r: u32)
    requires x == k * 0x1_0000_0000 + r
    ensures Wrap32(x) == r
  {
    assert x / 0x1_0000_0000 == k;
  }

  /** Intermediate wrap-around does not matter. */
  lemma WrapSum(a: int, b: int)
    ensures Wrap32(Wrap32(a) + b) == Wrap32(a + b)
    ensures Wrap32(Wrap32(a) - Wrap32(b)) == Wrap32(a - b)
  {
    hide Wrap32, Turns;
    var sum, difference := Wrap32(a) + b, Wrap32(a) - Wrap32(b);
    WrapParts(a);
    WrapParts(b);
    WrapParts(sum);
    WrapParts(difference);
    WrapIs(a + b, Turns(a) + Turns(sum), Wrap32(sum));
    WrapIs(a - b, Turns(a) - Turns(b) + Turns(difference), Wrap32(difference));
  }

  lemma WrapTelescope(a: int, b: int, c: int)
    ensures Wrap32(Wrap32(b - a) + Wrap32(c - b)) == Wrap32(c - a)
  {
    hide Wrap32, Turns;
    var sum := Wrap32(b - a) + Wrap32(c - b);
    WrapParts(b - a);
    WrapParts(c - b);
    WrapParts(sum);
    WrapIs(c - a, Turns(b - a) + Turns(c - b) + Turns(sum), Wrap32(sum));
  }

  /** The time between two readings of a 64-bit clock, as unsigned subtraction gives it. */
  function Elapsed(now: int, since: int): u64 {
    (now - since) % 0x1_0000_0000_0000_0000
  }

  /** It is the true time while the clock does not go back and has not gone round. */
  lemma ElapsedIs(now: int, since: int)
    requires since <= now < since + 0x1_0000_0000_0000_0000
    ensures Elapsed(now, since) == now - since
  {
  }

  function Min(a: int, b: int): int {
    if a < b then a else b
  }

  /** The two little-endian bytes of a 16-bit word. */
  function Le16(v: u16): (b: seq<byte>)
    ensures |b| == 2
  {
    [v % 0x100, v / 0x100]
  }

  /** The 16-bit little-endian word at offset `i`. */
  function ReadU16(b: seq<byte>, i: nat): u16
    requires i + 1 < |b|
  {
    b[i] as int + 0x100 * b[i + 1] as int
  }

  /** The four little-endian bytes of a 32-bit word. */
  function Le32(v: u32): (b: seq<byte>)
    ensures |b| == 4
  {
    [v % 0x100, (v / 0x100) % 0x100, (v / 0x1_0000) % 0x100, v / 0x100_0000]
  }

  /** The 32-bit little-endian word at offset `i`. */
  function ReadU32(b: seq<byte>, i: nat): u32
    requires i + 3 < |b|
  {
    b[i] as int + 0x100 * b[i + 1] as int + 0x1_0000 * b[i + 2] as int + 0x100_0000 * b[i + 3] as int
  }
}
