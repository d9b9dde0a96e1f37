/** The f64 arithmetic that the STREAM sender puts its u64 amounts through. */
module Floats {
  import opened Basics

  /** An f64 has 53 significant bits. */
  const LIMIT: nat := 0x20_0000_0000_0000

  /** The distance between neighbouring f64 values at `n`, for whole numbers. */
  function Ulp(n: nat): (u: nat)
    ensures u >= 1
  {
    if n < LIMIT then 1 else 2 * Ulp(n / 2)
  }

  /** Some f64 has this value. */
  predicate Representable(n: nat) {
    n % Ulp(n) == 0
  }

  /** `n as f64`: the nearest value, and of two the one with an even last digit. */
  function Rounded(n: nat): (r: nat) {
    var u := Ulp(n);
    var q, rest := n / u, n % u;
    if 2 * rest < u || (2 * rest == u && q % 2 == 0) then q * u else (q + 1) * u
  }

  /** `(n as f64 / 2.0).floor() as u64`. */
  function Halved(n: nat): (h: nat) {
    Rounded(n) / 2
  }

  /** The f64 1.2 is this number times 2^-52. */
  const SIX_FIFTHS: nat := 0x13_3333_3333_3333

  /** `(n as f64 * 1.2).ceil()`: the product is rounded once more. */
  function TimesSixFifths(n: nat): (m: nat) {
    (Rounded(Rounded(n) * SIX_FIFTHS) + 0xF_FFFF_FFFF_FFFF) / 0x10_0000_0000_0000
  }

  // ---- What rounding does ----

  lemma {:induction false} UlpIs(n: nat, k: nat)
    requires 0x10_0000_0000_0000 * Pow2(k) <= n < LIMIT * Pow2(k)
    ensures Ulp(n) == Pow2(k)
  {
    if k > 0 {
      UlpIs(n / 2, k - 1);
    }
  }

  /** At or above 2^53, a whole number has between 2^52 and 2^53 units of its spacing. */
  lemma {:induction false} UlpOf(n: nat) returns (k: nat)
    requires n >= LIMIT
    ensures Ulp(n) == Pow2(k) && 0x10_0000_0000_0000 * Pow2(k) <= n < LIMIT * Pow2(k)
  {
    if n / 2 < LIMIT {
      k := 1;
      assert Pow2(1) == 2 * Pow2(0) && Ulp(n) == 2 * Ulp(n / 2);
    } else {
      var j := UlpOf(n / 2);
      k := j + 1;
    }
  }

  lemma {:induction false} UlpAtMost(n: nat)
    requires n > 0
    ensures Ulp(n) <= n
  {
    if n >= LIMIT {
      var k := UlpOf(n);
    }
  }

  /** Rounding at most doubles a number. */
  lemma {:induction false} RoundedAtMost(n: nat)
    ensures Rounded(n) <= 2 * n && Halved(n) <= n
  {
    if n > 0 {
      var u := Ulp(n);
      UlpAtMost(n);
      Division(n, u);
      assert (n / u + 1) * u == u * (n / u) + u;
    }
  }

  lemma {:induction false} Multiple(q: nat, u: nat)
    requires u > 0
    ensures (q * u) % u == 0 && (q * u) / u == q
  {
    var n := q * u;
    Division(n, u);
    Cancelled(u, n / u, q + 1);
    Cancelled(u, q, n / u + 1);
  }

  /** A number with at most 53 significant bits is not changed. */
  lemma {:induction false} RepresentableIsKept(n: nat)
    requires Representable(n)
    ensures Rounded(n) == n
  {
    Division(n, Ulp(n));
  }

  lemma {:induction false} SmallIsRepresentable(n: nat)
    requires n < LIMIT
    ensures Representable(n) && Rounded(n) == n
  {
    RepresentableIsKept(n);
  }

  lemma {:induction false} ScaledIsRepresentable(m: nat, k: nat)
    requires 0x10_0000_0000_0000 <= m < LIMIT
    ensures Ulp(m * Pow2(k)) == Pow2(k) && Rounded(m * Pow2(k)) == m * Pow2(k)
  {
    assert 0x10_0000_0000_0000 * Pow2(k) <= m * Pow2(k) < LIMIT * Pow2(k);
    UlpIs(m * Pow2(k), k);
    Multiple(m, Pow2(k));
    RepresentableIsKept(m * Pow2(k));
  }

  /** No f64 lies strictly between two neighbours. */
  lemma {:induction false} NothingBetween(n: nat, m: nat)
    requires Representable(m) && Ulp(n) * (n / Ulp(n)) < m
    ensures m >= Ulp(n) * (n / Ulp(n) + 1)
  {
    var u, q := Ulp(n), n / Ulp(n);
    if n >= LIMIT && m < u * (q + 1) {
      var k := UlpOf(n);
      Bounds(n, u, q);
      UlpIs(m, k);
      Division(m, u);
      Cancelled(u, q, m / u);
      Cancelled(u, m / u, q + 1);
    }
  }

  lemma {:induction false} Bounds(n: nat, u: nat, q: nat)
    requires u > 0 && q == n / u && 0x10_0000_0000_0000 * u <= n < LIMIT * u
    ensures 0x10_0000_0000_0000 * u <= u * q && u * (q + 1) <= LIMIT * u
  {
    Division(n, u);
    Cancelled(u, 0x10_0000_0000_0000, q + 1);
    Cancelled(u, q, LIMIT);
    Scaled(u, 0x10_0000_0000_0000, q);
    Scaled(u, q + 1, LIMIT);
  }

  lemma {:induction false} Neighbours(n: nat)
    ensures var u, q := Ulp(n), n / Ulp(n);
            && u * q <= n < u * (q + 1) && (Rounded(n) == u * q || Rounded(n) == u * (q + 1))
            && Abs(Rounded(n) - n) <= n - u * q && Abs(Rounded(n) - n) <= u * (q + 1) - n
  {
    var u, q := Ulp(n), n / Ulp(n);
    Division(n, u);
    assert u * (q + 1) == u * q + u && (q + 1) * u == u * q + u && q * u == u * q;
  }

  function Abs(x: int): (a: nat) {
    if x < 0 then -x else x
  }

  /** Rounding gives the nearest f64. */
  lemma {:induction false} RoundedIsNearest(n: nat, m: nat)
    requires Representable(m)
    ensures Abs(Rounded(n) - n) <= Abs(m - n)
  {
    Neighbours(n);
    if Ulp(n) * (n / Ulp(n)) < m {
      NothingBetween(n, m);
    }
  }

  /** Rounding gives an f64. */
  lemma {:induction false} RoundedIsRepresentable(n: nat)
    ensures Representable(Rounded(n))
  {
    if n >= LIMIT {
      var k := UlpOf(n);
      var u, q := Ulp(n), n / Ulp(n);
      Neighbours(n);
      Bounds(n, u, q);
      var units := if Rounded(n) == u * q then q else q + 1;
      if u * units < LIMIT * u {
        UlpIs(u * units, k);
        Multiple(units, u);
      } else {
        assert Pow2(k + 1) == 2 * u;
        UlpIs(u * units, k + 1);
        Multiple(0x10_0000_0000_0000, 2 * u);
      }
    }
  }

  /** 0.99 as an f64 and its upper neighbour have this mean, times 2^-54. */
  const ABOVE_99_PERCENT: nat := 17834254524387165

  /** `part as f64 / whole as f64 > 0.99`: the quotient must round to more than the f64 0.99, whose last
      digit is even. */
  predicate Above99Percent(part: nat, whole: nat) {
    Rounded(part) * 0x40_0000_0000_0000 > ABOVE_99_PERCENT * Rounded(whole)
  }

  /** Up to 2^47 the rounding does not matter. */
  lemma {:induction false} Above99PercentExactly(part: nat, whole: nat)
    requires part <= whole < 0x8000_0000_0000
    ensures Above99Percent(part, whole) <==> 100 * part > 99 * whole
  {
    SmallIsRepresentable(part);
    SmallIsRepresentable(whole);
  }

  // ---- What an f64 is ----

  lemma {:induction false} Pow2Adds(j: nat, d: nat)
    ensures Pow2(j + d) == Pow2(d) * Pow2(j)
  {
    if d > 0 {
      Pow2Adds(j, d - 1);
    }
  }

  lemma {:induction false} Pow2Grows(j: nat, k: nat)
    requires j < k
    ensures 2 * Pow2(j) <= Pow2(k)
  {
    if j + 1 < k {
      Pow2Grows(j, k - 1);
    }
  }

  ghost predicate Mantissa(n: nat, m: nat, k: nat) {
    m < LIMIT && n == m * Pow2(k)
  }

  /** The whole numbers that an f64 can have are those with at most 53 bits before the trailing zeros. */
  lemma {:induction false} RepresentableMeaning(n: nat)
    ensures Representable(n) <==> exists m: nat, k: nat :: Mantissa(n, m, k)
  {
    if Representable(n) {
      if n < LIMIT {
        assert Pow2(0) == 1;
        assert Mantissa(n, n, 0);
      } else {
        var k := UlpOf(n);
        Division(n, Ulp(n));
        Cancelled(Pow2(k), n / Ulp(n), LIMIT);
        assert Mantissa(n, n / Ulp(n), k);
      }
    }
    if m: nat, k: nat :| Mantissa(n, m, k) {
      MantissaIsRepresentable(n, m, k);
    }
  }

  lemma {:induction false} ExponentAtMost(m: nat, k: nat, j: nat)
    requires m < LIMIT && 0x10_0000_0000_0000 * Pow2(j) <= m * Pow2(k)
    ensures j <= k
  {
    if k < j {
      Pow2Grows(k, j);
      Scaled(Pow2(k), m, LIMIT - 1);
      assert false;
    }
  }

  lemma {:induction false} Divides(m: nat, j: nat, k: nat)
    requires j <= k
    ensures (m * Pow2(k)) % Pow2(j) == 0
  {
    Pow2Adds(j, k - j);
    Reassociated(m, Pow2(k - j), Pow2(j));
    Multiple(m * Pow2(k - j), Pow2(j));
  }

  lemma {:induction false} Reassociated(a: nat, b: nat, c: nat)
    ensures a * (b * c) == (a * b) * c
  {
  }

  lemma {:induction false} MantissaIsRepresentable(n: nat, m: nat, k: nat)
    requires Mantissa(n, m, k)
    ensures Representable(n)
  {
    if n < LIMIT {
      SmallIsRepresentable(n);
    } else {
      var j := UlpOf(n);
      ExponentAtMost(m, k, j);
      Divides(m, j, k);
    }
  }

  /** Halfway between two neighbours, rounding takes the one with the even last digit. */
  lemma {:induction false} TieIsEven(n: nat)
    requires 2 * (n % Ulp(n)) == Ulp(n)
    ensures Rounded(n) / Ulp(n) % 2 == 0
  {
    Multiple(n / Ulp(n), Ulp(n));
    Multiple(n / Ulp(n) + 1, Ulp(n));
  }

  // ---- 1.2 times a number ----

  /** Rounding is off by no more than 2^-53 of the number. */
  lemma {:induction false} RoundedIsClose(n: nat)
    requires n >= 0x10_0000_0000_0000
    ensures LIMIT * Abs(Rounded(n) - n) <= n
  {
    Neighbours(n);
    var u, q := Ulp(n), n / Ulp(n);
    assert u * (q + 1) - u * q == u;
    if n < LIMIT {
      SmallIsRepresentable(n);
    } else {
      var k := UlpOf(n);
    }
  }

  lemma {:induction false} FiftyTwoBits()
    ensures Pow2(52) == 0x10_0000_0000_0000
  {
    assert Pow2(4) == 16 && Pow2(8) == 256 && Pow2(12) == 4096 && Pow2(13) == 8192;
    Pow2Adds(13, 13);
    Pow2Adds(26, 26);
  }

  lemma {:induction false} FiveParts(a: nat)
    requires 5 * a < 0x2_0000_0000_0000
    ensures Abs(Rounded(5 * a * SIX_FIFTHS) - 5 * a * SIX_FIFTHS) <= a
  {
    var m: nat := 6 * a;
    FiftyTwoBits();
    assert Mantissa(m * 0x10_0000_0000_0000, m, 52);
    MantissaIsRepresentable(m * 0x10_0000_0000_0000, m, 52);
    RoundedIsNearest(5 * a * SIX_FIFTHS, m * 0x10_0000_0000_0000);
  }

  lemma {:induction false} Ceiling(r: nat, q: nat)
    requires (q - 1) * 0x10_0000_0000_0000 < r <= q * 0x10_0000_0000_0000
    ensures (r + 0xF_FFFF_FFFF_FFFF) / 0x10_0000_0000_0000 == q
  {
  }

  /** A product with 1.2 that is off by at most n stays within its unit, unless it is a whole number. */
  lemma {:induction false} OffByLittle(a: nat, j: nat, r: nat)
    requires 1 <= j <= 4 && 5 * a + j < 0x2_0000_0000_0000
    requires Abs(r - (5 * a + j) * SIX_FIFTHS) <= 5 * a + j
    ensures (6 * a + j) * 0x10_0000_0000_0000 < r <= (6 * a + j + 1) * 0x10_0000_0000_0000
  {
  }

  lemma {:induction false} CloseByFactor(product: nat, n: nat, off: nat)
    requires product == n * SIX_FIFTHS && LIMIT * off <= product
    ensures off <= n
  {
  }

  /** Up to 2^49 the f64 factor gives the exact ceiling of 1.2 times the number. */
  lemma {:induction false} TimesSixFifthsExactly(n: nat)
    requires n < 0x2_0000_0000_0000
    ensures TimesSixFifths(n) == (6 * n + 4) / 5
  {
    var a, j := n / 5, n % 5;
    var product := n * SIX_FIFTHS;
    var r := Rounded(product);
    SmallIsRepresentable(n);
    if j == 0 {
      FiveParts(a);
      assert n == 5 * a;
      Ceiling(r, 6 * a);
    } else {
      RoundedIsClose(product);
      CloseByFactor(product, n, Abs(r - product));
      OffByLittle(a, j, r);
      Ceiling(r, 6 * a + j + 1);
    }
  }
}
