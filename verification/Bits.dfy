/** Bit-level arithmetic on naturals, for the rounding of a capacity to a power of two and for masking with it. */
module Bits {
  function Pow2(k: nat): (p: nat)
    ensures p > 0
  {
    if k == 0 then 1 else 2 * Pow2(k - 1)
  }

  function Or(x: nat, y: nat): nat {
    if x == 0 then y else if y == 0 then x else
    2 * Or(x / 2, y / 2) + (if x % 2 == 1 || y % 2 == 1 then 1 else 0)
  }

  function And(x: nat, y: nat): nat {
    if x == 0 || y == 0 then 0 else
    2 * And(x / 2, y / 2) + (if x % 2 == 1 && y % 2 == 1 then 1 else 0)
  }

  function Shr(x: nat, k: nat): nat {
    if k == 0 then x else Shr(x / 2, k - 1)
  }

  // ----- masking -----

  /** Remainder, by repeated subtraction. */
  function Slot(n: nat, cap: nat): (r: nat)
    requires cap > 0
    ensures r < cap
  {
    if n < cap then n else Slot(n - cap, cap)
  }

  lemma {:induction false} SlotIsRemainder(n: nat, cap: nat)
    requires cap > 0
    ensures Slot(n, cap) == n % cap
  {
    if n >= cap {
      SlotIsRemainder(n - cap, cap);
      RemainderStep(n - cap, cap);
    }
  }

  lemma RemainderStep(n: nat, cap: nat)
    requires cap > 0
    ensures (n + cap) % cap == n % cap
  {
    var q, r := n / cap, n % cap;
    assert n == q * cap + r;
    assert n + cap == (q + 1) * cap + r;
    DivisionUnique(n + cap, cap, q + 1, r);
  }

  lemma NextMultiple(q: nat, q': nat, cap: nat)
    ensures q < q' ==> q * cap + cap <= q' * cap
  {
    if q < q' {
      assert (q + 1) * cap <= q' * cap;
    }
  }

  lemma DivisionUnique(n: nat, cap: nat, q: nat, r: nat)
    requires r < cap && n == q * cap + r
    ensures n / cap == q && n % cap == r
  {
    NextMultiple(n / cap, q, cap);
    NextMultiple(q, n / cap, cap);
  }

  lemma {:induction false} SlotHalves(n: nat, cap: nat)
    requires cap > 0
    ensures Slot(n, 2 * cap) == 2 * Slot(n / 2, cap) + n % 2
  {
    if n >= 2 * cap {
      SlotHalves(n - 2 * cap, cap);
      assert (n - 2 * cap) / 2 == n / 2 - cap;
    }
  }

  /** Masking with 2^k - 1 is the remainder modulo 2^k. */
  lemma {:induction false} MaskIsSlot(n: nat, k: nat)
    ensures And(n, Pow2(k) - 1) == Slot(n, Pow2(k))
  {
    if k > 0 {
      MaskIsSlot(n / 2, k - 1);
      SlotHalves(n, Pow2(k - 1));
      assert (Pow2(k) - 1) / 2 == Pow2(k - 1) - 1;
    } else {
      SlotOne(n);
    }
  }

  lemma MaskIsRemainder(n: nat, k: nat)
    ensures And(n, Pow2(k) - 1) == n % Pow2(k)
  {
    MaskIsSlot(n, k);
    SlotIsRemainder(n, Pow2(k));
  }

  lemma {:induction false} SlotOne(n: nat)
    ensures Slot(n, 1) == 0
  {
    if n > 0 {
      SlotOne(n - 1);
    }
  }

  /** Positions less than a capacity apart fall into different slots. */
  lemma {:induction false} SlotsDiffer(a: nat, b: nat, cap: nat)
    requires cap > 0 && a < b < a + cap
    ensures Slot(a, cap) != Slot(b, cap)
  {
    if a >= cap {
      SlotsDiffer(a - cap, b - cap, cap);
    }
  }

  lemma {:induction false} SlotAdds(a: nat, b: nat, cap: nat)
    requires cap > 0
    ensures Slot(Slot(a, cap) + b, cap) == Slot(a + b, cap)
  {
    if a >= cap {
      SlotAdds(a - cap, b, cap);
    }
  }

  // ----- rounding up to a power of two -----

  /** `v` has its highest bit at position `b`. */
  predicate HighBit(v: nat, b: nat) {
    Pow2(b) <= v < Pow2(b + 1)
  }

  lemma {:induction false} HighBitExists(v: nat) returns (b: nat)
    requires v > 0
    ensures HighBit(v, b)
  {
    if v == 1 {
      b := 0;
    } else {
      var c := HighBitExists(v / 2);
      b := c + 1;
    }
  }

  lemma OrHalf(x: nat, y: nat)
    ensures Or(x, y) / 2 == Or(x / 2, y / 2)
    ensures Or(x, y) % 2 == (if x % 2 == 1 || y % 2 == 1 then 1 else 0)
  {
  }

  lemma {:induction false} ShrHalf(x: nat, k: nat)
    ensures Shr(x, k) / 2 == Shr(x / 2, k)
  {
    if k > 0 {
      ShrHalf(x / 2, k - 1);
    }
  }

  /** Shifting is dividing by a power of two. */
  lemma {:induction false} ShrIsDivision(x: nat, k: nat)
    ensures Shr(x, k) == x / Pow2(k)
  {
    if k > 0 {
      ShrIsDivision(x / 2, k - 1);
      HalfThenDivide(x, Pow2(k - 1));
    }
  }

  lemma HalfThenDivide(x: nat, p: nat)
    requires p > 0
    ensures x / 2 / p == x / (2 * p)
  {
    var q, r := x / 2 / p, x / 2 % p;
    assert x == q * (2 * p) + (2 * r + x % 2);
    DivisionUnique(x, 2 * p, q, 2 * r + x % 2);
  }

  /** The top `m` of the `n` bits of `v` are ones (all of them when m >= n). */
  predicate TopOnes(v: nat, n: nat, m: nat) {
    v < Pow2(n) && Pow2(n) - 1 - v < Pow2(if m < n then n - m else 0)
  }

  lemma TopOnesHalf(v: nat, n: nat, m: nat)
    requires n > 0 && TopOnes(v, n, m)
    ensures TopOnes(v / 2, n - 1, m)
  {
  }

  /** Any bit in the region of ones is one. */
  lemma {:induction false} BitIsOne(v: nat, n: nat, m: nat, j: nat)
    requires TopOnes(v, n, m) && n <= m + j && j < n
    ensures Shr(v, j) % 2 == 1
  {
    if j > 0 {
      TopOnesHalf(v, n, m);
      BitIsOne(v / 2, n - 1, m, j - 1);
    }
  }

  lemma TopOnesFromHalf(w: nat, n: nat, m: nat)
    requires n > 0 && TopOnes(w / 2, n - 1, m) && (n <= m ==> w % 2 == 1)
    ensures TopOnes(w, n, m)
  {
  }

  /** Or-ing a number with itself shifted by m doubles its leading run of m ones. */
  lemma {:induction false} SmearDoubles(v: nat, n: nat, m: nat)
    requires TopOnes(v, n, m)
    ensures TopOnes(Or(v, Shr(v, m)), n, 2 * m)
  {
    if n == 0 {
      ShrZero(m);
    } else {
      TopOnesHalf(v, n, m);
      SmearDoubles(v / 2, n - 1, m);
      OrHalf(v, Shr(v, m));
      ShrHalf(v, m);
      if n <= 2 * m {
        if n <= m {
          BitIsOne(v, n, m, 0);
        } else {
          BitIsOne(v, n, m, m);
        }
      }
      TopOnesFromHalf(Or(v, Shr(v, m)), n, 2 * m);
    }
  }

  lemma {:induction false} ShrZero(m: nat)
    ensures Shr(0, m) == 0
  {
    if m > 0 {
      ShrZero(m - 1);
    }
  }

  lemma {:induction false} Pow2Monotone(a: nat, b: nat)
    requires a <= b
    ensures Pow2(a) <= Pow2(b)
  {
    if a < b {
      Pow2Monotone(a, b - 1);
    }
  }

  /** The least power of two that is at least `v`. */
  predicate LeastPow2(r: nat, v: nat, k: nat) {
    r == Pow2(k) && v <= r && (k > 0 ==> Pow2(k - 1) < v)
  }

  ghost predicate IsRounded(r: nat, v: nat) {
    exists k: nat :: LeastPow2(r, v, k)
  }

  function Smear(w: nat, m: nat): nat {
    Or(w, Shr(w, m))
  }

  /** Six doublings fill everything below the highest bit of a 64-bit number. */
  lemma SmearFills(w: nat, n: nat)
    requires n <= 64 && TopOnes(w, n, 1)
    ensures Smear(Smear(Smear(Smear(Smear(Smear(w, 1), 2), 4), 8), 16), 32) == Pow2(n) - 1
  {
    SmearDoubles(w, n, 1);
    var a := Smear(w, 1);
    SmearDoubles(a, n, 2);
    var b := Smear(a, 2);
    SmearDoubles(b, n, 4);
    var c := Smear(b, 4);
    SmearDoubles(c, n, 8);
    var d := Smear(c, 8);
    SmearDoubles(d, n, 16);
    SmearDoubles(Smear(d, 16), n, 32);
  }

  /** The number of bits of v - 1. */
  lemma BitCount(v: nat) returns (n: nat)
    requires 0 < v <= Pow2(64)
    ensures n <= 64 && TopOnes(v - 1, n, 1) && (n > 0 ==> Pow2(n - 1) <= v - 1)
  {
    n := 0;
    if v > 1 {
      var b := HighBitExists(v - 1);
      HighBitBelow(v - 1, b, 64);
      n := b + 1;
    }
  }

  /** Rounds a 64-bit size up to a power of two: the result is the least one not below `v`, except beyond 2^63, where
      the next power of two does not fit and the result is 0. */
  method RoundUpPow2(v: nat) returns (r: nat)
    requires v < 0x1_0000_0000_0000_0000
    ensures v <= 0x8000_0000_0000_0000 ==> IsRounded(r, v)
    ensures v > 0x8000_0000_0000_0000 ==> r == 0
  {
    if v == 0 {
      assert LeastPow2(1, 0, 0);
      return 1;
    }
    Pow2Of64();
    ghost var n := BitCount(v);
    SmearFills(v - 1, n);
    RoundedSize(v, n);
    var w := v - 1;
    w := Smear(w, 1);
    w := Smear(w, 2);
    w := Smear(w, 4);
    w := Smear(w, 8);
    w := Smear(w, 16);
    w := Smear(w, 32);
    r := if w + 1 == 0x1_0000_0000_0000_0000 then 0 else w + 1;
    assert n < 64 ==> LeastPow2(r, v, n) by {
      if n < 64 {
        Pow2Monotone(n, 63);
      }
    }
  }

  lemma {:induction false} Pow2Adds(a: nat, b: nat)
    ensures Pow2(a + b) == Pow2(a) * Pow2(b)
  {
    if a > 0 {
      Pow2Adds(a - 1, b);
    }
  }

  lemma Pow2Of32()
    ensures Pow2(32) == 0x1_0000_0000
  {
    assert Pow2(8) == 256;
    Pow2Adds(8, 8);
    Pow2Adds(16, 16);
  }

  lemma Pow2Of51()
    ensures Pow2(51) == 0x8_0000_0000_0000
  {
    Pow2Of32();
    assert Pow2(3) == 8;
    assert Pow2(8) == 256;
    Pow2Adds(8, 8);
    Pow2Adds(3, 16);
    Pow2Adds(19, 32);
  }

  lemma Pow2Of64()
    ensures Pow2(64) == 0x1_0000_0000_0000_0000 && Pow2(63) == 0x8000_0000_0000_0000
  {
    Pow2Of32();
    Pow2Adds(32, 32);
    assert Pow2(64) == 2 * Pow2(63);
  }

  lemma {:induction false} HighBitBelow(v: nat, b: nat, n: nat)
    requires HighBit(v, b) && v < Pow2(n)
    ensures b < n
  {
    if n <= b {
      Pow2Monotone(n, b);
    }
  }

  /** What the bit count of v - 1 says about v. */
  lemma RoundedSize(v: nat, n: nat)
    requires 0 < v && n <= 64 && v - 1 < Pow2(n) && (n > 0 ==> Pow2(n - 1) <= v - 1)
    ensures LeastPow2(Pow2(n), v, n)
    ensures n == 64 <==> v > Pow2(63)
  {
    if n < 64 {
      Pow2Monotone(n, 63);
    }
  }
}
