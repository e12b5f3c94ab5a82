/** IEEE 754 binary64 and binary32 values kept as bit patterns (section 3.4 of IEEE 754-2008). */
module Floats {
  import opened Bytes

  type F64 = u64
  type F32 = u32

  const SIGN64: int := 0x8000_0000_0000_0000
  const FRACTION64: int := 0x10_0000_0000_0000

  /** The pattern of 1e13, the bound on a coordinate in meters. */
  const COORD_LIMIT: F64 := 0x42A2309CE5400000

  /** The pattern without its sign bit. */
  function Magnitude(b: F64): (m: nat)
    ensures m < SIGN64
  {
    if b < SIGN64 then b else b - SIGN64
  }

  function Exponent64(b: F64): (e: int)
    ensures 0 <= e < 2048
  {
    Magnitude(b) / FRACTION64
  }

  predicate Finite64(b: F64) {
    Exponent64(b) != 2047
  }

  predicate Finite32(b: F32) {
    (b / 0x80_0000) % 256 != 255
  }

  predicate NaN64(b: F64) {
    Magnitude(b) > 2047 * FRACTION64
  }

  /** Position in the order of the numbers: sign and magnitude, the two zeros alike. */
  function Key(b: F64): int {
    if b < SIGN64 then b else SIGN64 - b
  }

  /** The `<` of the language: false when an operand is not a number. */
  predicate Less(a: F64, b: F64) {
    !NaN64(a) && !NaN64(b) && Key(a) < Key(b)
  }

  /** |b| <= 1e13, false for infinities and for what is not a number. */
  predicate InCoordRange(b: F64) {
    Magnitude(b) <= COORD_LIMIT
  }

  // ----- the numbers the patterns stand for -----

  function Pow2(n: nat): (p: nat)
    ensures p > 0
  {
    if n == 0 then 1 else 2 * Pow2(n - 1)
  }

  /** The magnitude a finite pattern stands for, in units of 2^-1074 (the smallest subnormal). */
  function Units(mag: nat): nat {
    var e, f := mag / FRACTION64, mag % FRACTION64;
    if e == 0 then f else (FRACTION64 + f) * Pow2(e - 1)
  }

  /** The number a finite pattern stands for, in units of 2^-1074. */
  function Value(b: F64): int
    requires Finite64(b)
  {
    var n: int := Units(Magnitude(b));
    if b < SIGN64 then n else -n
  }

  lemma {:induction false} Pow2Add(m: nat, n: nat)
    ensures Pow2(m + n) == Pow2(m) * Pow2(n)
  {
    if m != 0 {
      Pow2Add(m - 1, n);
    }
  }

  lemma {:induction false} Pow2Monotone(m: nat, n: nat)
    requires m <= n
    ensures Pow2(m) <= Pow2(n)
    decreases n
  {
    if m < n {
      Pow2Monotone(m, n - 1);
    }
  }

  lemma MulMonotone(a: int, b: int, p: int)
    requires a < b && p > 0
    ensures a * p < b * p
  {
  }

  lemma {:induction false} UnitsMonotone(u: nat, v: nat)
    requires u < v
    ensures Units(u) < Units(v)
  {
    var eu, fu := u / FRACTION64, u % FRACTION64;
    var ev, fv := v / FRACTION64, v % FRACTION64;
    if eu == ev {
      if eu != 0 {
        MulMonotone(FRACTION64 + fu, FRACTION64 + fv, Pow2(eu - 1));
      }
    } else if eu == 0 {
      MulMonotone(0, FRACTION64 + fv, Pow2(ev - 1));
      assert Units(v) >= FRACTION64 by {
        Pow2Monotone(0, ev - 1);
        ScaleUp(FRACTION64 + fv, Pow2(ev - 1));
      }
    } else {
      MulMonotone(FRACTION64 + fu, 2 * FRACTION64, Pow2(eu - 1));
      Pow2Monotone(eu, ev - 1);
      ScaleBoth(FRACTION64, FRACTION64 + fv, Pow2(eu), Pow2(ev - 1));
      assert 2 * FRACTION64 * Pow2(eu - 1) == FRACTION64 * Pow2(eu);
    }
  }

  lemma ScaleUp(a: nat, p: nat)
    requires p >= 1
    ensures a * p >= a
  {
  }

  lemma ScaleBoth(a: nat, b: nat, p: nat, q: nat)
    requires a <= b && p <= q
    ensures a * p <= b * q
  {
  }

  lemma UnitsOfZero()
    ensures Units(0) == 0
  {
  }

  /** Comparing keys compares the numbers. */
  lemma {:induction false} KeyOrdersValues(a: F64, b: F64)
    requires Finite64(a) && Finite64(b)
    ensures Less(a, b) <==> Value(a) < Value(b)
    ensures Key(a) == Key(b) <==> Value(a) == Value(b)
  {
    var u, v := Magnitude(a), Magnitude(b);
    hide Units;
    UnitsOfZero();
    if u < v {
      UnitsMonotone(u, v);
    } else if v < u {
      UnitsMonotone(v, u);
    }
    if u > 0 {
      UnitsMonotone(0, u);
    }
    if v > 0 {
      UnitsMonotone(0, v);
    }
  }

  lemma {:induction false} Pow2Of9()
    ensures Pow2(9) == 512
  {
    assert Pow2(4) == 16;
    Pow2Add(4, 4);
    assert Pow2(9) == 2 * Pow2(8);
  }

  lemma {:induction false} UnitsOfLimit()
    ensures Units(COORD_LIMIT) == 10_000_000_000_000 * Pow2(1074)
  {
    Pow2Of9();
    Pow2Add(9, 1065);
    hide Pow2;
    assert COORD_LIMIT == 1066 * FRACTION64 + (10_000_000_000_000 * 512 - FRACTION64);
  }

  /** The range test is |x| <= 10^13. */
  lemma {:induction false} RangeIsTenToThe13(b: F64)
    requires Finite64(b)
    ensures InCoordRange(b) <==> -10_000_000_000_000 * Pow2(1074) <= Value(b) <= 10_000_000_000_000 * Pow2(1074)
  {
    var u := Magnitude(b);
    UnitsOfLimit();
    hide Units, Pow2;
    UnitsOfZero();
    if u < COORD_LIMIT {
      UnitsMonotone(u, COORD_LIMIT);
    } else if u > COORD_LIMIT {
      UnitsMonotone(COORD_LIMIT, u);
    }
    if u > 0 {
      UnitsMonotone(0, u);
    }
  }
}
