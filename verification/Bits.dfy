/** Masks as remainders, and the power of two that env.c computes. */
module Bits {
  function Pow2(k: nat): (r: nat)
    ensures r > 0
  {
    if k == 0 then 1 else 2 * Pow2(k - 1)
  }

  /** Bitwise and of two numbers. */
  function And(x: nat, y: nat): nat {
    if x == 0 || y == 0 then 0 else (x % 2) * (y % 2) + 2 * And(x / 2, y / 2)
  }

  /** The remainder of idx by n, by repeated subtraction: the slot of index idx in a buffer of n. */
  function Slot(idx: nat, n: nat): (s: nat)
    requires n > 0
    ensures s < n
  {
    if idx < n then idx else Slot(idx - n, n)
  }

  lemma {:induction false} SlotIsRemainder(idx: nat, n: nat)
    requires n > 0
    ensures Slot(idx, n) == idx % n
  {
    if idx >= n {
      SlotIsRemainder(idx - n, n);
      assert idx % n == (idx - n) % n by {
        var q, r := (idx - n) / n, (idx - n) % n;
        assert idx == n * (q + 1) + r;
        RemainderIs(idx, n, q + 1, r);
      }
    }
  }

  lemma {:induction false} AtLeastOnce(n: nat, d: nat)
    requires d > 0
    ensures n * d >= n
  {
    if d > 1 { AtLeastOnce(n, d - 1); }
  }

  lemma RemainderIs(x: nat, n: nat, q: nat, r: nat)
    requires n > 0 && x == n * q + r && r < n
    ensures x % n == r
  {
    var d := x / n - q;
    assert n * d == r - x % n by { assert x == n * (x / n) + x % n; }
    assert n * d == -(n * -d);
    if d > 0 { AtLeastOnce(n, d); }
    if d < 0 { AtLeastOnce(n, -d); }
  }

  lemma {:induction false} HalfSlot(x: nat, p: nat)
    requires p > 0
    ensures Slot(x, 2 * p) == x % 2 + 2 * Slot(x / 2, p)
  {
    if x >= 2 * p { HalfSlot(x - 2 * p, p); }
  }

  /** INDEXIFY: the mask is the remainder when the capacity is a power of two. */
  lemma {:induction false} MaskIsSlot(x: nat, k: nat)
    ensures And(x, Pow2(k) - 1) == Slot(x, Pow2(k)) == x % Pow2(k)
  {
    SlotIsRemainder(x, Pow2(k));
    if k > 0 {
      HalfSlot(x, Pow2(k - 1));
      MaskIsSlot(x / 2, k - 1);
      assert (Pow2(k) - 1) / 2 == Pow2(k - 1) - 1;
    }
  }

  /** Moving on by d slots wraps at most once. */
  lemma {:induction false} SlotPlus(idx: nat, d: nat, n: nat)
    requires d <= n && n > 0
    ensures Slot(idx + d, n) == if Slot(idx, n) + d < n then Slot(idx, n) + d else Slot(idx, n) + d - n
  {
    if idx >= n { SlotPlus(idx - n, d, n); }
  }

  // ------------------------------------------------------------------ env.c

  const MIN_PTRS: bv32 := 1024
  const MAX_PTRS: bv32 := 1024 * 1024
  const SIGN: bv32 := 0x8000_0000

  /** Signed comparison and signed right shift of 32-bit two's complement numbers. */
  predicate Less(x: bv32, y: bv32) { (x ^ SIGN) < (y ^ SIGN) }

  function ShiftRight(x: bv32, k: nat): bv32
    requires k < 32
  {
    if x & SIGN == 0 then x >> k else !((!x) >> k)
  }

  predicate IsPowerOfTwo(x: bv32) { x != 0 && x & (x - 1) == 0 }

  /** The rounding in env_init, on 32-bit numbers that wrap around, for every configured value.  Only its
      low 22 bits count, since the product with 1024 drops the others.  The result is a power of two within
      bounds: the least one that is not below 1024 times those bits, up to the maximum; the maximum, while
      the rounded number is not above 2^30; and otherwise the minimum, because the rounded number is 2^31,
      zero or negative. */
  method PtrsPerThread(value: bv32) returns (ptrs: bv32)
    ensures IsPowerOfTwo(ptrs) && MIN_PTRS <= ptrs <= MAX_PTRS
    ensures var low := value & 0x3F_FFFF;
      && (1 <= low <= 1024 ==> ptrs >> 1 < low * 1024 <= ptrs)
      && (1024 < low <= 0x10_0000 ==> ptrs == MAX_PTRS)
      && (low == 0 || low > 0x10_0000 ==> ptrs == MIN_PTRS)
  {
    var x := value * 1024;
    x := x - 1;
    x := x | ShiftRight(x, 1);
    x := x | ShiftRight(x, 2);
    x := x | ShiftRight(x, 4);
    x := x | ShiftRight(x, 8);
    x := x | ShiftRight(x, 16);
    x := x + 1;
    if Less(x, MIN_PTRS) {
      x := MIN_PTRS;
    } else if Less(MAX_PTRS, x) {
      x := MAX_PTRS;
    }
    ptrs := x;
  }

  /** The capacity of a thread's queue is a power of two as a number, too. */
  lemma CapacityIsPow2(ptrs: bv32) returns (k: nat)
    requires IsPowerOfTwo(ptrs) && MIN_PTRS <= ptrs <= MAX_PTRS
    ensures 10 <= k <= 20 && ptrs as int == Pow2(k)
  {
    assert ptrs == 1024 || ptrs == 2048 || ptrs == 4096 || ptrs == 8192 || ptrs == 0x4000 || ptrs == 0x8000
        || ptrs == 0x1_0000
        || ptrs == 0x2_0000 || ptrs == 0x4_0000 || ptrs == 0x8_0000 || ptrs == 0x10_0000;
    assert Pow2(10) == 1024;
    assert Pow2(15) == 0x8000;
    assert Pow2(20) == 0x10_0000;
    k := if ptrs == 1024 then 10 else if ptrs == 2048 then 11 else if ptrs == 4096 then 12 else if ptrs == 8192 then 13
      else if ptrs == 0x4000 then 14 else if ptrs == 0x8000 then 15 else if ptrs == 0x1_0000 then 16
      else if ptrs == 0x2_0000 then 17
      else if ptrs == 0x4_0000 then 18 else if ptrs == 0x8_0000 then 19 else 20;
  }
}
