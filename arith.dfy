/** Small facts about Euclidean division and remainder used by the ring's
    position arithmetic. Dafny's `/` and `%` on naturals agree with C's
    unsigned operators, which is all the source uses. */
module Arith {

  /** `std::min` on unsigned counts. */
  function Min(a: nat, b: nat): nat {
    if a < b then a else b
  }

  /** A quotient and remainder pair determines the division. */
  lemma DivModUnique(q: nat, r: nat, d: nat)
    requires 0 < d && r < d
    ensures (q * d + r) / d == q && (q * d + r) % d == r
  {
    var x := q * d + r;
    var q', r' := x / d, x % d;
    assert x == q' * d + r';
    if q' < q {
      assert (q - q') * d == r' - r;
      MulAtLeast(q - q', d);
    } else if q < q' {
      assert (q' - q) * d == r - r';
      MulAtLeast(q' - q, d);
    }
  }

  lemma MulAtLeast(a: nat, d: nat)
    requires 1 <= a
    ensures a * d >= d
  {
  }

  lemma MulMonotone(a: nat, b: nat, d: nat)
    requires a <= b
    ensures a * d <= b * d
  {
  }

  /** The whole of an earlier block comes before the start of a later one. */
  lemma BlockOrder(a: nat, b: nat, s: nat)
    requires a < b
    ensures a * s + s <= b * s
  {
    MulMonotone(a + 1, b, s);
    assert (a + 1) * s == a * s + s;
  }

  /** Adding a whole number of moduli does not change a remainder. */
  lemma ModAddMultiple(k: nat, x: nat, m: nat)
    requires 0 < m
    ensures (k * m + x) % m == x % m
  {
    var q, r := x / m, x % m;
    assert x == q * m + r;
    assert k * m + x == (k + q) * m + r;
    DivModUnique(k + q, r, m);
  }

  /** Adding `j` to `x` does not wrap when `x % m + j` stays below `m`. */
  lemma ModShift(x: nat, j: nat, m: nat)
    requires 0 < m && x % m + j < m
    ensures (x + j) % m == x % m + j
  {
    var q := x / m;
    assert x + j == q * m + (x % m + j);
    DivModUnique(q, x % m + j, m);
  }

  /** `(x % m + c) % m == (x + c) % m`. */
  lemma ModAddLeft(x: nat, c: nat, m: nat)
    requires 0 < m
    ensures (x % m + c) % m == (x + c) % m
  {
    var q := x / m;
    assert x + c == q * m + (x % m + c);
    ModAddMultiple(q, x % m + c, m);
  }

  /** Two numbers closer than `m` have different remainders. */
  lemma ModDistinct(a: nat, b: nat, m: nat)
    requires 0 < m && a < b < a + m
    ensures a % m != b % m
  {
    var qa, qb := a / m, b / m;
    assert a == qa * m + a % m;
    assert b == qb * m + b % m;
    if a % m == b % m {
      assert (qb - qa) * m == b - a;
      if qb <= qa {
        MulMonotone(qb, qa, m);
      } else {
        MulAtLeast(qb - qa, m);
      }
    }
  }

  /** A position in a ring of `b` blocks of `s` elements, reduced modulo the
      ring, keeps its offset inside the block. */
  lemma ModBlockOffset(x: nat, b: nat, s: nat)
    requires 0 < b && 0 < s
    ensures (x % (b * s)) % s == x % s
  {
    var q := x / (b * s);
    assert x == q * (b * s) + x % (b * s);
    assert q * (b * s) == (q * b) * s;
    ModAddMultiple(q * b, x % (b * s), s);
  }

  /** Block `a` with offset `r` reduced modulo the ring is block `a % b`. */
  lemma BlockMod(a: nat, r: nat, b: nat, s: nat)
    requires 0 < b && r < s
    ensures (a * s + r) % (b * s) == (a % b) * s + r
  {
    var q := a / b;
    assert a == q * b + a % b;
    assert a * s + r == q * (b * s) + ((a % b) * s + r) by {
      assert a * s == (q * b + a % b) * s;
    }
    assert (a % b) * s + r < b * s by {
      MulMonotone(a % b + 1, b, s);
    }
    DivModUnique(q, (a % b) * s + r, b * s);
  }

  /** Two positions of a ring that end up at the same place after the same
      advance were the same position. */
  lemma ModCancel(a: nat, b: nat, d: nat, m: nat)
    requires 0 < m && a < m && b < m && (a + d) % m == (b + d) % m
    ensures a == b
  {
    if a < b {
      ModDistinct(a + d, b + d, m);
    } else if b < a {
      ModDistinct(b + d, a + d, m);
    }
  }

  /** One more step of a counter that wraps at `m`: the remainder moves on
      by one or wraps to 0, and the quotient (the number of wraps) grows
      exactly when it wraps. */
  lemma CountStep(x: nat, m: nat)
    requires 0 < m
    ensures (x + 1) % m == (if x % m + 1 == m then 0 else x % m + 1)
    ensures (x + 1) / m == (if x % m + 1 == m then x / m + 1 else x / m)
  {
    var q, r := x / m, x % m;
    assert x == q * m + r;
    if r + 1 == m {
      assert x + 1 == (q + 1) * m + 0;
      DivModUnique(q + 1, 0, m);
    } else {
      assert x + 1 == q * m + (r + 1);
      DivModUnique(q, r + 1, m);
    }
  }

  /** `ceil` on reals. */
  function Ceil(x: real): int {
    -((-x).Floor)
  }

  /** The bounds of a ceiling, multiplied out. */
  lemma CeilScale(x: real, rate: real, width: real, count: int)
    requires 0.0 < rate && x == width / rate && (count - 1) as real < x <= count as real
    ensures (count - 1) as real * rate < width <= count as real * rate
  {
    assert x * rate == width;
    ScaleLess((count - 1) as real, x, rate);
    ScaleAtMost(x, count as real, rate);
  }

  /** Multiplying both sides by a positive factor keeps an order. */
  lemma ScaleLess(a: real, b: real, c: real)
    requires 0.0 < c && a < b
    ensures a * c < b * c
  {
    var d := b - a;
    assert d * c > 0.0;
    assert b * c == a * c + d * c;
  }

  lemma ScaleAtMost(a: real, b: real, c: real)
    requires 0.0 < c && a <= b
    ensures a * c <= b * c
  {
    var d := b - a;
    assert d * c >= 0.0;
    assert b * c == a * c + d * c;
  }

  /** Converting a product to a real multiplies the converted factors. */
  lemma RealOfProduct(a: nat, b: nat)
    ensures (a * b) as real == a as real * b as real
  {
    if a > 0 {
      RealOfProduct(a - 1, b);
      assert a * b == (a - 1) * b + b;
      assert a as real * b as real == (a - 1) as real * b as real + b as real;
    }
  }

  /** Dividing an order by a positive factor: `a * c` compares with `b`
      as `a` compares with `b / c`. */
  lemma QuotientOrder(a: real, b: real, c: real)
    requires 0.0 < c
    ensures a * c < b <==> a < b / c
    ensures a * c <= b <==> a <= b / c
  {
    assert b / c - a == (b - a * c) / c;
  }
}
