/** ec_memcpy and ec_memset (src/ec_common.c:8-119): the unrolled loops over words do what a loop over bytes would do.
    A pointer is an index into a little-endian memory whose index 0 is aligned to words. */
module Memory {
  import opened Words
  import opened ByteBuffers

  /** A 32-bit access needs an aligned address. */
  function LoadWord(mem: seq<byte>, p: nat): u32
    requires p % 4 == 0 && p + 4 <= |mem|
  {
    ReadU32(mem, p)
  }

  method StoreWord(mem: array<byte>, p: nat, w: u32)
    requires p % 4 == 0 && p + 4 <= mem.Length
    modifies mem
    ensures mem[..] == Written(old(mem[..]), p, Le32(w))
  {
    WriteBytes(mem, p, Le32(w));
  }

  /** dword2array: four byte stores, for any address. */
  method DwordToArray(mem: array<byte>, p: nat, w: u32)
    requires p + 4 <= mem.Length
    modifies mem
    ensures mem[..] == Written(old(mem[..]), p, Le32(w))
  {
    mem[p] := w % 0x100;
    mem[p + 1] := (w / 0x100) % 0x100;
    mem[p + 2] := (w / 0x1_0000) % 0x100;
    mem[p + 3] := w / 0x100_0000;
  }

  /** What address `i` contains once `n` bytes have been copied from `s2` to `s1`. */
  function After(was: seq<byte>, s1: nat, s2: nat, n: nat, i: nat): byte
    requires i < |was| && s2 + n <= |was|
  {
    if s1 <= i < s1 + n then was[s2 + (i - s1)] else was[i]
  }

  /** The first `done` bytes from `s2` have been copied to `s1`, and nothing else has changed. */
  ghost predicate Copied(was: seq<byte>, now: seq<byte>, s1: nat, s2: nat, done: nat) {
    && |now| == |was| && s1 + done <= |was| && s2 + done <= |was|
    && forall i :: 0 <= i < |was| ==> now[i] == After(was, s1, s2, done, i)
  }

  predicate Apart(s1: nat, s2: nat, n: nat) {
    s1 + n <= s2 || s2 + n <= s1
  }

  lemma BytesOfWord(a: byte, b: byte, c: byte, d: byte)
    ensures Le32(a + 0x100 * b + 0x1_0000 * c + 0x100_0000 * d) == [a, b, c, d]
  {
    var w: int := a + 0x100 * b + 0x1_0000 * c + 0x100_0000 * d;
    var w1: int := b + 0x100 * c + 0x1_0000 * d;
    var w2: int := c + 0x100 * d;
    assert w == 0x100 * w1 + a && w1 == 0x100 * w2 + b;
    assert w / 0x100 == w1 && w % 0x100 == a && w1 % 0x100 == b && w2 % 0x100 == c;
    assert w == 0x1_0000 * w2 + (a + 0x100 * b) && w == 0x100_0000 * d + (a + 0x100 * b + 0x1_0000 * c);
    assert w / 0x1_0000 == w2 && w / 0x100_0000 == d;
  }

  lemma WordBytes(b: seq<byte>, p: nat)
    requires p + 4 <= |b|
    ensures Le32(ReadU32(b, p)) == b[p..p + 4]
  {
    hide Le32;
    BytesOfWord(b[p], b[p + 1], b[p + 2], b[p + 3]);
  }

  lemma CopiedMore(was: seq<byte>, now: seq<byte>, s1: nat, s2: nat, done: nat, n: nat, w: seq<byte>)
    requires Copied(was, now, s1, s2, done) && done + |w| <= n && Apart(s1, s2, n)
    requires s1 + n <= |was| && s2 + n <= |was|
    requires w == now[s2 + done..s2 + done + |w|]
    ensures Copied(was, Written(now, s1 + done, w), s1, s2, done + |w|)
  {
    var next := Written(now, s1 + done, w);
    forall i | 0 <= i < |was| ensures next[i] == After(was, s1, s2, done + |w|, i) {
      if s1 + done <= i < s1 + done + |w| {
        var j := i - (s1 + done);
        assert next[i] == w[j] == now[s2 + done + j];
      } else {
        assert next[i] == now[i];
      }
    }
  }

  lemma CopiedBounds(was: seq<byte>, now: seq<byte>, s1: nat, s2: nat, done: nat)
    requires Copied(was, now, s1, s2, done)
    ensures |now| == |was|
  {
  }

  /** One round of the loops over bytes. */
  method CopyByte(mem: array<byte>, b1: nat, b2: nat, ghost was: seq<byte>, ghost s1: nat, ghost s2: nat,
                  ghost done: nat, ghost n: nat)
    requires done < n && b1 == s1 + done && b2 == s2 + done && Apart(s1, s2, n) && s1 + n <= mem.Length &&
      s2 + n <= mem.Length
    requires Copied(was, mem[..], s1, s2, done)
    modifies mem
    ensures Copied(was, mem[..], s1, s2, done + 1)
  {
    hide Copied;
    CopiedBounds(was, mem[..], s1, s2, done);
    ghost var w := [mem[b2]];
    assert w == mem[..][b2..b2 + 1];
    CopiedMore(was, mem[..], s1, s2, done, n, w);
    ghost var next := Written(mem[..], b1, w);
    mem[b1] := mem[b2];
    assert mem[..] == next;
  }

  /** One word; `both` says whether the target is aligned, too. */
  method CopyWord(
    mem: array<byte>, b1: nat, b2: nat, both: bool, ghost was: seq<byte>, ghost s1: nat, ghost s2: nat,
      ghost done: nat, ghost n: nat)
    requires done + 4 <= n && b1 == s1 + done && b2 == s2 + done && Apart(s1, s2, n) && s1 + n <= mem.Length &&
      s2 + n <= mem.Length
    requires Copied(was, mem[..], s1, s2, done)
    requires Aligned(b2) && (both ==> Aligned(b1))
    modifies mem
    ensures Copied(was, mem[..], s1, s2, done + 4)
  {
    hide Copied, Le32, ReadU32, Written;
    CopiedBounds(was, mem[..], s1, s2, done);
    var w := LoadWord(mem[..], b2);
    WordBytes(mem[..], b2);
    CopiedMore(was, mem[..], s1, s2, done, n, Le32(w));
    if both {
      StoreWord(mem, b1, w);
    } else {
      DwordToArray(mem, b1, w);
    }
  }

  predicate Aligned(b: nat) {
    b % 4 == 0
  }

  lemma AlignedNext(b: nat)
    requires Aligned(b)
    ensures Aligned(b + 4) && Aligned(b + 8) && Aligned(b + 12) && Aligned(b + 16)
  {
  }

  /** Four words. */
  method CopyBlock(
    mem: array<byte>, b1: nat, b2: nat, both: bool, ghost was: seq<byte>, ghost s1: nat, ghost s2: nat,
      ghost done: nat, ghost n: nat)
    requires done + 16 <= n && b1 == s1 + done && b2 == s2 + done && Apart(s1, s2, n) && s1 + n <= mem.Length &&
      s2 + n <= mem.Length
    requires Copied(was, mem[..], s1, s2, done) && Aligned(b2) && (both ==> Aligned(b1))
    modifies mem
    ensures Copied(was, mem[..], s1, s2, done + 16)
  {
    hide Copied, Apart, Aligned;
    AlignedNext(b2);
    if both {
      AlignedNext(b1);
    }
    CopyWord(mem, b1, b2, both, was, s1, s2, done, n);
    CopyWord(mem, b1 + 4, b2 + 4, both, was, s1, s2, done + 4, n);
    CopyWord(mem, b1 + 8, b2 + 8, both, was, s1, s2, done + 8, n);
    CopyWord(mem, b1 + 12, b2 + 12, both, was, s1, s2, done + 12, n);
  }

  /** The loops over words, unrolled and not. */
  method CopyWords(mem: array<byte>, b1: nat, b2: nat, n: nat, both: bool, ghost was: seq<byte>, ghost s1: nat,
                   ghost s2: nat, ghost all: nat)
    returns (at1: nat, at2: nat, left: nat)
    requires n <= all && b1 == s1 + (all - n) && b2 == s2 + (all - n)
    requires Apart(s1, s2, all) && s1 + all <= mem.Length && s2 + all <= mem.Length
    requires Copied(was, mem[..], s1, s2, all - n)
    requires n > 0 ==> Aligned(b2) && (both ==> Aligned(b1))
    modifies mem
    ensures left <= n && left < 4 && at1 == s1 + (all - left) && at2 == s2 + (all - left)
    ensures Copied(was, mem[..], s1, s2, all - left)
  {
    hide Copied, Apart, Aligned;
    at1, at2, left := b1, b2, n;
    ghost var done: nat := all - n;
    while left >= 16
      invariant done + left == all && left <= n && at1 == s1 + done && at2 == s2 + done &&
        Copied(was, mem[..], s1, s2, done)
      invariant left > 0 ==> Aligned(at2) && (both ==> Aligned(at1))
    {
      AlignedNext(at2);
      if both {
        AlignedNext(at1);
      }
      CopyBlock(mem, at1, at2, both, was, s1, s2, done, all);
      at1, at2, left, done := at1 + 16, at2 + 16, left - 16, done + 16;
    }
    while left >= 4
      invariant done + left == all && left <= n && at1 == s1 + done && at2 == s2 + done &&
        Copied(was, mem[..], s1, s2, done)
      invariant left > 0 ==> Aligned(at2) && (both ==> Aligned(at1))
    {
      AlignedNext(at2);
      if both {
        AlignedNext(at1);
      }
      CopyWord(mem, at1, at2, both, was, s1, s2, done, all);
      at1, at2, left, done := at1 + 4, at2 + 4, left - 4, done + 4;
    }
  }

  /** ec_memcpy, for every length and every alignment of regions that do not overlap: exactly the `n` bytes at `s1`
      change, into those at `s2`. */
  method MemCpy(mem: array<byte>, s1: nat, s2: nat, n: nat)
    requires s1 + n <= mem.Length && s2 + n <= mem.Length && Apart(s1, s2, n)
    modifies mem
    ensures forall i :: 0 <= i < mem.Length ==> mem[i] == After(old(mem[..]), s1, s2, n, i)
  {
    hide Copied, Apart;
    ghost var was := mem[..];
    NothingCopied(was, s1, s2);
    var b1, b2, left := s1, s2, n;
    ghost var done: nat := 0;
    var both := s1 % 4 == s2 % 4;
    if both {
      while b1 % 4 != 0 && left > 0
        invariant done + left == n && b1 == s1 + done && b2 == s2 + done && Copied(was, mem[..], s1, s2, done)
        decreases left
      {
        CopyByte(mem, b1, b2, was, s1, s2, done, n);
        b1, b2, left, done := b1 + 1, b2 + 1, left - 1, done + 1;
      }
    } else {
      while left > 0 && b2 % 4 != 0
        invariant done + left == n && b1 == s1 + done && b2 == s2 + done && Copied(was, mem[..], s1, s2, done)
        decreases left
      {
        CopyByte(mem, b1, b2, was, s1, s2, done, n);
        b1, b2, left, done := b1 + 1, b2 + 1, left - 1, done + 1;
      }
    }
    b1, b2, left := CopyWords(mem, b1, b2, left, both, was, s1, s2, n);
    done := n - left;
    while left > 0
      invariant done + left == n && b1 == s1 + done && b2 == s2 + done && Copied(was, mem[..], s1, s2, done)
      decreases left
    {
      CopyByte(mem, b1, b2, was, s1, s2, done, n);
      b1, b2, left, done := b1 + 1, b2 + 1, left - 1, done + 1;
    }
    CopiedIs(was, mem[..], s1, s2, n);
    forall i | 0 <= i < mem.Length ensures mem[i] == After(was, s1, s2, n, i) {
      assert mem[i] == mem[..][i];
    }
  }

  lemma NothingCopied(was: seq<byte>, s1: nat, s2: nat)
    requires s1 <= |was| && s2 <= |was|
    ensures Copied(was, was, s1, s2, 0)
  {
  }

  lemma CopiedIs(was: seq<byte>, now: seq<byte>, s1: nat, s2: nat, n: nat)
    requires Copied(was, now, s1, s2, n)
    ensures |now| == |was| && s1 + n <= |was| && s2 + n <= |was|
    ensures forall i :: 0 <= i < |was| ==> now[i] == After(was, s1, s2, n, i)
  {
  }

  // ----- memset -----

  ghost predicate Filled(was: seq<byte>, now: seq<byte>, s: nat, c: byte, done: nat) {
    && |now| == |was| && s + done <= |was|
    && forall i :: 0 <= i < |was| ==> now[i] == if s <= i < s + done then c else was[i]
  }

  function FourTimes(c: byte): u32 {
    c + 0x100 * c + 0x1_0000 * c + 0x100_0000 * c
  }

  lemma NothingFilled(was: seq<byte>, s: nat, c: byte)
    requires s <= |was|
    ensures Filled(was, was, s, c, 0)
  {
  }

  lemma FilledMore(was: seq<byte>, now: seq<byte>, s: nat, c: byte, done: nat, w: seq<byte>)
    requires Filled(was, now, s, c, done) && s + done + |w| <= |was| && forall i :: 0 <= i < |w| ==> w[i] == c
    ensures Filled(was, Written(now, s + done, w), s, c, done + |w|)
  {
  }

  lemma FilledBounds(was: seq<byte>, now: seq<byte>, s: nat, c: byte, done: nat)
    requires Filled(was, now, s, c, done)
    ensures |now| == |was| && forall i :: 0 <= i < |was| ==> now[i] == if s <= i < s + done then c else was[i]
  {
  }

  method FillWord(mem: array<byte>, b: nat, c: byte, ghost was: seq<byte>, ghost s: nat, ghost done: nat)
    requires b == s + done && b + 4 <= mem.Length && Aligned(b) && Filled(was, mem[..], s, c, done)
    modifies mem
    ensures Filled(was, mem[..], s, c, done + 4)
  {
    hide Filled, Le32, FourTimes;
    FilledBounds(was, mem[..], s, c, done);
    FourTimesBytes(c);
    FilledMore(was, mem[..], s, c, done, Le32(FourTimes(c)));
    StoreWord(mem, b, FourTimes(c));
  }

  method FillBlock(mem: array<byte>, b: nat, c: byte, ghost was: seq<byte>, ghost s: nat, ghost done: nat)
    requires b == s + done && b + 16 <= mem.Length && Aligned(b) && Filled(was, mem[..], s, c, done)
    modifies mem
    ensures Filled(was, mem[..], s, c, done + 16)
  {
    hide Filled, Aligned;
    AlignedNext(b);
    FillWord(mem, b, c, was, s, done);
    FillWord(mem, b + 4, c, was, s, done + 4);
    FillWord(mem, b + 8, c, was, s, done + 8);
    FillWord(mem, b + 12, c, was, s, done + 12);
  }

  lemma FourTimesBytes(c: byte)
    ensures Le32(FourTimes(c)) == [c, c, c, c] && FourTimes(c) % 0x100 == c
  {
    BytesOfWord(c, c, c, c);
  }

  method FillByte(mem: array<byte>, b: nat, c: byte, ghost was: seq<byte>, ghost s: nat, ghost done: nat)
    requires b == s + done && b < mem.Length && Filled(was, mem[..], s, c, done)
    modifies mem
    ensures Filled(was, mem[..], s, c, done + 1)
  {
    hide Filled;
    FilledBounds(was, mem[..], s, c, done);
    FilledMore(was, mem[..], s, c, done, [c]);
    ghost var next := Written(mem[..], b, [c]);
    mem[b] := c;
    assert mem[..] == next;
  }

  /** The loops over words, unrolled and not. */
  method FillWords(mem: array<byte>, at: nat, low: byte, n: nat, ghost was: seq<byte>, ghost s: nat, ghost all: nat)
    returns (b: nat, left: nat)
    requires n <= all && at == s + (all - n) && s + all <= mem.Length && (n > 0 ==> Aligned(at))
    requires Filled(was, mem[..], s, low, all - n)
    modifies mem
    ensures left <= n && left < 4 && b == s + (all - left) && Filled(was, mem[..], s, low, all - left)
  {
    hide Filled, Aligned;
    b, left := at, n;
    ghost var done: nat := all - n;
    while left >= 16
      invariant done + left == all && left <= n && b == s + done && Filled(was, mem[..], s, low, done) &&
        (left > 0 ==> Aligned(b))
    {
      AlignedNext(b);
      FillBlock(mem, b, low, was, s, done);
      b, left, done := b + 16, left - 16, done + 16;
    }
    while left >= 4
      invariant done + left == all && left <= n && b == s + done && Filled(was, mem[..], s, low, done) &&
        (left > 0 ==> Aligned(b))
    {
      AlignedNext(b);
      FillWord(mem, b, low, was, s, done);
      b, left, done := b + 4, left - 4, done + 4;
    }
  }

  /** ec_memset: exactly the `n` bytes at `s` change, into the low byte of `c`. */
  method MemSet(mem: array<byte>, s: nat, c: int, n: nat)
    requires s + n <= mem.Length
    modifies mem
    ensures forall i :: 0 <= i < mem.Length ==> mem[i] == if s <= i < s + n then c % 0x100 else old(mem[i])
  {
    hide Filled, FourTimes;
    ghost var was := mem[..];
    var b, left := s, n;
    ghost var done: nat := 0;
    var low: byte := c % 0x100;
    NothingFilled(was, s, low);
    while b % 4 != 0 && left > 0
      invariant done + left == n && b == s + done && Filled(was, mem[..], s, low, done)
      decreases left
    {
      FillByte(mem, b, low, was, s, done);
      b, left, done := b + 1, left - 1, done + 1;
    }
    b, left := FillWords(mem, b, low, left, was, s, n);
    done := n - left;
    FourTimesBytes(low);
    while left > 0
      invariant done + left == n && b == s + done && Filled(was, mem[..], s, low, done)
    {
      FillByte(mem, b, FourTimes(low) % 0x100, was, s, done);
      b, left, done := b + 1, left - 1, done + 1;
    }
    FilledBounds(was, mem[..], s, low, n);
    forall i | 0 <= i < mem.Length ensures mem[i] == if s <= i < s + n then c % 0x100 else old(mem[i]) {
      assert mem[i] == mem[..][i];
    }
  }
}
