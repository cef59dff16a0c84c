/** 64-bit cycle counts out of 32-bit counters (src/ec_timestamp.c:16-29 and 61-71). `t` always stands for the true
    number of cycles at an instant; the hardware shows its low or its high word. */
module Timestamp {
  import opened Words

  const WORD: nat := 0x1_0000_0000

  function Low(t: nat): u32 {
    t % WORD
  }

  function High(t: nat): u32 {
    (t / WORD) % WORD
  }

  function Joined(high: u32, low: u32): u64 {
    high * WORD + low
  }

  // ----- the Arm counter, whose overflows are counted when it is read -----

  datatype Dwt = Dwt(high: u32, lastLow: u32)

  /** What a read at instant `t` leaves behind. */
  function Seen(t: nat): Dwt {
    Dwt(High(t), Low(t))
  }

  function Reading(d: Dwt, low: u32): Dwt {
    Dwt(if low < d.lastLow then (d.high + 1) % WORD else d.high, low)
  }

  /** g_dwt_high and g_dwt_last_low */
  class Counter {
    var high: u32
    var lastLow: u32

    constructor ()
      ensures State() == Seen(0)
    {
      high, lastLow := 0, 0;
    }

    function State(): Dwt
      reads this
    {
      Dwt(high, lastLow)
    }

    /** arm_dwt_get_cycle_count. If the last read was at the instant `t0` and this one is at `t`, the count is the true
        one exactly if less than a round of the counter lies in between, and then the next read can rely on this one. */
    method Read(currentLow: u32, ghost t0: nat, ghost t: nat) returns (count: u64)
      modifies this
      ensures State() == Reading(old(State()), currentLow) && count == Joined(State().high, currentLow)
      ensures old(State()) == Seen(t0) && currentLow == Low(t) && t0 <= t < WORD * WORD ==>
        && (count == t <==> t - t0 < WORD)
        && (t - t0 < WORD ==> State() == Seen(t))
    {
      if t0 <= t < WORD * WORD {
        ReadIsTrueIff(t0, t);
      }
      if currentLow < lastLow {
        high := (high as int + 1) % WORD;
      }
      lastLow := currentLow;
      count := Joined(high, currentLow);
    }
  }

  /** A read is right exactly if it comes less than one round of the counter after the read before. */
  lemma ReadIsTrueIff(t0: nat, t: nat)
    requires t0 <= t < WORD * WORD
    ensures var d := Reading(Seen(t0), Low(t)); Joined(d.high, Low(t)) == t <==> t - t0 < WORD
    ensures t - t0 < WORD ==> Reading(Seen(t0), Low(t)) == Seen(t)
  {
    var a, b := t0 / WORD, t / WORD;
    assert t0 == a * WORD + Low(t0) && t == b * WORD + Low(t);
    assert a <= b < WORD;
  }

  /** Each read of a run, and the state after it. */
  function Reads(d: Dwt, ts: seq<nat>): (r: seq<u64>)
    ensures |r| == |ts|
    decreases |ts|
  {
    if ts == [] then []
    else
      var next := Reading(d, Low(ts[0]));
      [Joined(next.high, Low(ts[0]))] + Reads(next, ts[1..])
  }

  ghost predicate OftenEnough(t0: nat, ts: seq<nat>)
    decreases |ts|
  {
    ts == [] || (t0 <= ts[0] < WORD * WORD && ts[0] - t0 < WORD && OftenEnough(ts[0], ts[1..]))
  }

  /** Over a whole run of reads that are close enough, every read gives the true count, so that the counts never go
      back. */
  lemma {:induction false} RunIsTrue(t0: nat, ts: seq<nat>)
    requires OftenEnough(t0, ts)
    ensures Reads(Seen(t0), ts) == ts
    ensures forall i, j :: 0 <= i <= j < |ts| ==> Reads(Seen(t0), ts)[i] <= Reads(Seen(t0), ts)[j]
    decreases |ts|
  {
    hide Low, Seen, Reading, Joined;
    if ts == [] {
    } else {
      ReadIsTrueIff(t0, ts[0]);
      RunIsTrue(ts[0], ts[1..]);
      NotBefore(ts[0], ts[1..]);
      assert Reads(Seen(t0), ts) == [ts[0]] + Reads(Seen(ts[0]), ts[1..]);
      assert ts == [ts[0]] + ts[1..];
    }
  }

  lemma {:induction false} NotBefore(t0: nat, ts: seq<nat>)
    requires OftenEnough(t0, ts)
    ensures forall i :: 0 <= i < |ts| ==> t0 <= ts[i]
    decreases |ts|
  {
    if ts == [] {
    } else {
      NotBefore(ts[0], ts[1..]);
      assert forall i :: 1 <= i < |ts| ==> ts[i] == ts[1..][i - 1];
    }
  }

  // ----- the RISC-V counter, read as low, high, low, and possibly high again -----

  /** riscv_csr_get_core_mcycle; the registers as they are read at the instants `t1` to `t4`. In a call shorter than a
      round of the low word the count is the true one of some instant of the call, with the one exception of
      McycleIsTrueIff. */
  method ReadMcycle(
    lowFirst: u32, highFirst: u32, lowSecond: u32, highSecond: u32, ghost t1: nat, ghost t2: nat, ghost t3: nat,
      ghost t4: nat)
    returns (count: u64)
    requires t1 <= t2 <= t3 <= t4 < WORD * WORD
    requires lowFirst == Low(t1) && highFirst == High(t2) && lowSecond == Low(t3) && highSecond == High(t4)
    ensures count == Mcycle(lowFirst, highFirst, lowSecond, highSecond)
    ensures t4 - t1 < WORD ==> (t1 <= count <= t4 <==> t1 < t3 || t4 / WORD == t3 / WORD)
  {
    if t4 - t1 < WORD {
      McycleIsTrueIff(t1, t2, t3, t4);
    }
    var high := highFirst;
    if lowFirst < lowSecond {
      count := Joined(high, lowFirst);
    } else {
      high := highSecond;
      count := Joined(high, lowSecond);
    }
  }

  function Mcycle(lowFirst: u32, highFirst: u32, lowSecond: u32, highSecond: u32): u64 {
    if lowFirst < lowSecond then Joined(highFirst, lowFirst) else Joined(highSecond, lowSecond)
  }

  /** In a call shorter than a round of the low word, the result is the true count at some instant of the call; the one
      exception is a low word that did not advance between its two reads although the high word did before its second
      one. */
  lemma McycleIsTrueIff(t1: nat, t2: nat, t3: nat, t4: nat)
    requires t1 <= t2 <= t3 <= t4 < WORD * WORD && t4 - t1 < WORD
    ensures var r := Mcycle(Low(t1), High(t2), Low(t3), High(t4));
      t1 <= r <= t4 <==> t1 < t3 || t4 / WORD == t3 / WORD
  {
    hide Mcycle, Low, High;
    Parts(t1);
    Parts(t2);
    Parts(t3);
    Parts(t4);
    McycleOfParts(t1 / WORD, Low(t1), t2 / WORD, Low(t2), t3 / WORD, Low(t3), t4 / WORD, Low(t4));
  }

  lemma Parts(t: nat)
    requires t < WORD * WORD
    ensures t == t / WORD * WORD + Low(t) && High(t) == t / WORD
  {
  }

  lemma McycleOfParts(a: nat, l1: u32, b: nat, l2: u32, c: nat, l3: u32, d: nat, l4: u32)
    requires a * WORD + l1 <= b * WORD + l2 <= c * WORD + l3 <= d * WORD + l4 < a * WORD + l1 + WORD
    requires b < WORD && d < WORD
    ensures a * WORD + l1 <= Mcycle(l1, b, l3, d) <= d * WORD + l4 <==> a * WORD + l1 < c * WORD + l3 || d == c
  {
    assert a <= b <= c <= d <= a + 1;
  }
}
