/** The controller that keeps the master's cycle in step with the reference clock (src/ec_master.c:754-769). */
module DcController {
  import opened Words

  /** Integer division in C rounds towards zero. */
  function Quotient(a: int, b: nat): int
    requires b > 0
  {
    if a >= 0 then a / b else -((-a) / b)
  }

  function Abs(x: int): nat {
    if x < 0 then -x else x
  }

  type i32 = x: int | -0x8000_0000 <= x < 0x8000_0000

  /** The remainder of an unsigned 64-bit difference, moved to around zero. */
  function PhaseError(ref: u64, shift: i32, cycle: u32): int
    requires cycle > 0
  {
    var delta := ((ref as int - shift) % TWO_64) % cycle;
    if delta > cycle / 2 then delta - cycle else delta
  }

  function Integral(integral: int, error: int): int {
    if error > 0 then integral + 1 else if error < 0 then integral - 1 else integral
  }

  function Offset(error: int, integral: int): int {
    -Quotient(error, 100) - Quotient(integral, 20)
  }

  predicate Congruent(a: int, b: int, m: nat)
    requires m > 0
  {
    (a - b) % m == 0
  }

  lemma Multiple(k: int, m: nat)
    requires m > 0
    ensures k >= 1 ==> k * m >= m
    ensures k <= -1 ==> k * m + m <= 0
  {
    if k >= 1 {
      assert (k - 1) * m >= 0;
    } else if k <= -1 {
      assert (-k - 1) * m >= 0;
    }
  }

  /** Quotient and remainder are unique. */
  lemma ModOf(q: int, r: int, m: nat)
    requires 0 <= r < m
    ensures (q * m + r) % m == r
  {
    var x := q * m + r;
    var k := q - x / m;
    assert x == x / m * m + x % m;
    assert k * m == x % m - r;
    Multiple(k, m);
  }

  lemma MultipleMod(q: int, m: nat)
    requires m > 0
    ensures (q * m) % m == 0
  {
    ModOf(q, 0, m);
  }

  lemma ModCongruent(a: int, m: nat)
    requires m > 0
    ensures Congruent(a % m, a, m)
  {
    var q := a / m;
    assert a == q * m + a % m;
    assert a % m - a == -q * m;
    MultipleMod(-q, m);
  }

  lemma CongruentTrans(a: int, b: int, c: int, m: nat)
    requires m > 0 && Congruent(a, b, m)
    ensures Congruent(a, c, m) <==> Congruent(b, c, m)
  {
    var k := (a - b) / m;
    assert a - b == k * m;
    ShiftMod(b - c, k, m);
  }

  lemma ShiftMod(x: int, k: int, m: nat)
    requires m > 0
    ensures (x + k * m) % m == x % m
  {
    var q := x / m;
    var r := x % m;
    assert x + k * m == (q + k) * m + r;
    ModOf(q + k, r, m);
  }

  lemma NegatedMod(x: int, m: nat)
    requires m > 0
    ensures (-x) % m == 0 <==> x % m == 0
  {
    var q := x / m;
    assert x == q * m + x % m;
    if x % m == 0 {
      assert -x == -q * m;
      MultipleMod(-q, m);
    } else {
      assert -x == (-q - 1) * m + (m - x % m);
      ModOf(-q - 1, m - x % m, m);
    }
  }

  /** The phase error is at most half a cycle, and it is the reference time relative to the shift, modulo the cycle,
      exactly if that difference fits into 64 bits without a sign or the cycle time divides 2 to the 64. */
  lemma PhaseErrorIs(ref: u64, shift: i32, cycle: u32)
    requires cycle > 0
    ensures Abs(PhaseError(ref, shift, cycle)) <= cycle / 2
    ensures Congruent(PhaseError(ref, shift, cycle), ref as int - shift, cycle) <==>
      0 <= ref as int - shift < TWO_64 || TWO_64 % cycle == 0
  {
    var d: int := ref as int - shift;
    var w := d % TWO_64;
    var e := PhaseError(ref, shift, cycle);
    ModCongruent(w, cycle);
    var k := if w % cycle > cycle / 2 then -1 else 0;
    assert e == w % cycle + k * cycle;
    MultipleMod(k, cycle);
    assert Congruent(e, w % cycle, cycle);
    CongruentTrans(e, w % cycle, w, cycle);
    CongruentTrans(e, w, d, cycle);
    if d < 0 {
      assert w == d + TWO_64;
    } else if d < TWO_64 {
      assert w == d;
    } else {
      assert w == d - TWO_64;
      NegatedMod(TWO_64, cycle);
    }
  }

  // ----- a whole run -----

  function IntegralAfter(refs: seq<u64>, shift: i32, cycle: u32): int
    requires cycle > 0
  {
    if refs == [] then 0
    else
      var last := |refs| - 1;
      Integral(IntegralAfter(refs[..last], shift, cycle), PhaseError(refs[last], shift, cycle))
  }

  lemma {:induction false} IntegralBound(refs: seq<u64>, shift: i32, cycle: u32)
    requires cycle > 0
    ensures Abs(IntegralAfter(refs, shift, cycle)) <= |refs|
    decreases |refs|
  {
    hide PhaseError;
    if refs == [] {
    } else {
      IntegralBound(refs[..|refs| - 1], shift, cycle);
    }
  }

  lemma QuotientBound(a: int, b: nat, n: nat)
    requires b > 0 && Abs(a) <= n
    ensures Abs(Quotient(a, b)) <= n / b
  {
    QuotientMono(Abs(a), n, b);
  }

  lemma QuotientMono(a: nat, n: nat, b: nat)
    requires b > 0 && a <= n
    ensures a / b <= n / b
  {
    var q, p := a / b, n / b;
    assert a == q * b + a % b && n == p * b + n % b;
    assert (q - p) * b < b;
    Multiple(q - p, b);
  }

  /** After any number of steps, the integral is at most that number and the correction at most cycle/200 + n/20. */
  lemma OffsetBound(refs: seq<u64>, shift: i32, cycle: u32)
    requires cycle > 0 && refs != []
    ensures var e, i := PhaseError(refs[|refs| - 1], shift, cycle), IntegralAfter(refs, shift, cycle);
      Abs(i) <= |refs| && Abs(Offset(e, i)) <= cycle / 200 + |refs| / 20
  {
    hide PhaseError, IntegralAfter, Quotient;
    var e, i := PhaseError(refs[|refs| - 1], shift, cycle), IntegralAfter(refs, shift, cycle);
    IntegralBound(refs, shift, cycle);
    PhaseErrorIs(refs[|refs| - 1], shift, cycle);
    CorrectionBound(e, i, cycle, |refs|);
  }

  /** A phase error of at most half a cycle and an integral of at most `n`. */
  lemma CorrectionBound(e: int, integral: int, cycle: u32, n: nat)
    requires Abs(e) <= cycle / 2 && Abs(integral) <= n
    ensures Abs(Offset(e, integral)) <= cycle / 200 + n / 20
  {
    hide Quotient;
    QuotientBound(e, 100, cycle / 2);
    QuotientBound(integral, 20, n);
    assert (cycle / 2) / 100 == cycle / 200;
  }

  /** The controller works against the error: an error of at least 100 ns is answered by a correction of the opposite
      sign as long as the integral does not point the other way. */
  lemma OffsetOpposes(error: int, integral: int)
    ensures error >= 100 && integral >= 0 ==> Offset(error, integral) < 0
    ensures error <= -100 && integral <= 0 ==> Offset(error, integral) > 0
  {
  }

  /** How the correction is made up: one less for every whole 100 ns of the error, counted from zero in both directions,
      and one less for every whole 20 steps of the integral. */
  lemma CorrectionIs(error: int, integral: int, p: int, q: int)
    requires p >= 0 && q >= 0
    requires 100 * p <= Abs(error) < 100 * p + 100 && 20 * q <= Abs(integral) < 20 * q + 20
    ensures Offset(error, integral) == (if error >= 0 then -p else p) + (if integral >= 0 then -q else q)
  {
    WholeParts(Abs(error), 100, p);
    WholeParts(Abs(integral), 20, q);
  }

  lemma WholeParts(a: nat, b: nat, p: nat)
    requires b > 0 && b * p <= a < b * p + b
    ensures a / b == p
  {
    var k := p - a / b;
    assert a == a / b * b + a % b;
    assert k * b == p * b - a / b * b;
    Multiple(k, b);
  }

  /** How many of the phase errors were positive, and how many negative. */
  function Ahead(refs: seq<u64>, shift: i32, cycle: u32, sign: int): nat
    requires cycle > 0
  {
    if refs == [] then 0
    else
      var last := |refs| - 1;
      Ahead(refs[..last], shift, cycle, sign) + if PhaseError(refs[last], shift, cycle) * sign > 0 then 1 else 0
  }

  /** The integral counts the steps ahead less the steps behind. */
  lemma {:induction false} IntegralCounts(refs: seq<u64>, shift: i32, cycle: u32)
    requires cycle > 0
    ensures IntegralAfter(refs, shift, cycle) == Ahead(refs, shift, cycle, 1) - Ahead(refs, shift, cycle, -1)
    decreases |refs|
  {
    hide PhaseError;
    if refs == [] {
    } else {
      IntegralCounts(refs[..|refs| - 1], shift, cycle);
    }
  }

  class Controller {
    var integral: int

    constructor ()
      ensures integral == 0
    {
      integral := 0;
    }

    /** ec_master_dc_sync_with_pi, with the phase error `e` it acts upon: at most half a cycle, congruent to the time
        since the shift under the condition of PhaseErrorIs. The integral moves one step towards it, and the correction
        is bounded and works against the error. */
    method Sync(ref: u64, shift: i32, cycle: u32) returns (offset: int, ghost e: int)
      requires cycle > 0
      modifies this
      ensures e == PhaseError(ref, shift, cycle) && Abs(e) <= cycle / 2
      ensures Congruent(e, ref as int - shift, cycle) <==> 0 <= ref as int - shift < TWO_64 || TWO_64 % cycle == 0
      ensures integral == old(integral) + (if e > 0 then 1 else if e < 0 then -1 else 0) &&
        offset == Offset(e, integral)
      ensures Abs(integral) <= Abs(old(integral)) + 1 && Abs(offset) <= cycle / 200 + Abs(integral) / 20
      ensures (e >= 100 && integral >= 0 ==> offset < 0) && (e <= -100 && integral <= 0 ==> offset > 0)
    {
      hide Quotient, Congruent;
      var delta: int := ((ref as int - shift) % TWO_64) % cycle;
      if delta > cycle / 2 {
        delta := delta - cycle;
      }
      if delta > 0 {
        integral := integral + 1;
      }
      if delta < 0 {
        integral := integral - 1;
      }
      offset := -Quotient(delta, 100) - Quotient(integral, 20);
      e := delta;
      PhaseErrorIs(ref, shift, cycle);
      CorrectionBound(delta, integral, cycle, Abs(integral));
      OffsetOpposes(delta, integral);
    }
  }
}
