/**
 Division facts and bitwise arithmetic on natural numbers. Slot and shard indices are taken
 with `x & (capacity - 1)`, so the masks are defined bit by bit here and related to `%`.
 */
module Bits {

  lemma MulMono(a: int, b: int, d: int)
    requires a <= b && d >= 0
    ensures a * d <= b * d
  {}

  lemma MulDist(a: int, b: int, d: int)
    ensures (a - b) * d == a * d - b * d
    ensures (a + b) * d == a * d + b * d
  {}

  /** Quotient and remainder are determined by the division equation. */
  lemma DivModUnique(x: int, d: int, q: int, r: int)
    requires 0 <= r < d && x == q * d + r
    ensures x / d == q && x % d == r
  {
    var q', r' := x / d, x % d;
    assert x == q' * d + r';
    MulDist(q, q', d);
    if q' < q {
      MulMono(1, q - q', d);
    } else if q < q' {
      MulMono(q - q', -1, d);
    }
  }

  /** Adding a multiple of the divisor leaves the remainder alone. */
  lemma ModShift(x: int, d: int, k: int)
    requires d > 0
    ensures (x + k * d) % d == x % d
  {
    assert x + k * d == (x / d + k) * d + x % d;
    DivModUnique(x + k * d, d, x / d + k, x % d);
  }

  /** Two numbers less than `d` apart that share a remainder are equal. */
  lemma ModInjective(x: int, y: int, d: int)
    requires d > 0 && x % d == y % d && -d < x - y < d
    ensures x == y
  {
    MulDist(x / d, y / d, d);
    assert x == (x / d) * d + x % d && y == (y / d) * d + y % d;
    if x / d > y / d {
      MulMono(1, x / d - y / d, d);
    } else if x / d < y / d {
      MulMono(x / d - y / d, -1, d);
    }
  }

  function Min(a: int, b: int): (r: int)
    ensures r <= a && r <= b && (r == a || r == b)
  {
    if a <= b then a else b
  }

  /** The slot of a ring of `cap` slots a sequence lives in; the code computes it as `q & mask`. */
  function SlotOf(q: int, cap: nat): nat
    requires cap > 0
  {
    q % cap
  }

  function Pow2(k: nat): (r: nat)
    ensures r > 0
  {
    if k == 0 then 1 else 2 * Pow2(k - 1)
  }

  ghost predicate IsPow2(n: nat) {
    exists k: nat :: n == Pow2(k)
  }

  function And(a: nat, b: nat): nat {
    if a == 0 || b == 0 then 0 else 2 * And(a / 2, b / 2) + (if a % 2 == 1 && b % 2 == 1 then 1 else 0)
  }

  /** Bitwise exclusive or. */
  function Xor(a: nat, b: nat): nat
    decreases a + b
  {
    if a == 0 && b == 0 then 0 else 2 * Xor(a / 2, b / 2) + (a % 2 + b % 2) % 2
  }

  function Or(a: nat, b: nat): nat
    decreases a + b
  {
    if a == 0 then b else if b == 0 then a
    else 2 * Or(a / 2, b / 2) + (if a % 2 == 1 || b % 2 == 1 then 1 else 0)
  }

  /** `RingBuffer::is_power_of_two`. */
  predicate PowerOfTwoTest(n: nat) {
    n != 0 && And(n, n - 1) == 0
  }

  lemma HalveMod(q: nat, p: nat)
    requires p > 0
    ensures q % (2 * p) == 2 * ((q / 2) % p) + q % 2
  {
    var h := q / 2;
    var d := h / p;
    assert h == d * p + h % p;
    assert d * (2 * p) == 2 * (d * p);
    DivModUnique(q, 2 * p, d, 2 * (h % p) + q % 2);
  }

  /** Masking with one less than a power of two is the remainder. */
  lemma {:induction false} MaskIsMod(q: nat, k: nat)
    ensures And(q, Pow2(k) - 1) == q % Pow2(k)
    decreases k
  {
    if k > 0 {
      var p := Pow2(k - 1);
      MaskIsMod(q / 2, k - 1);
      HalveMod(q, p);
      assert (2 * p - 1) / 2 == p - 1 && (2 * p - 1) % 2 == 1;
    }
  }

  /** A number with no bit in common with its predecessor is a power of two, and conversely. */
  lemma {:induction false} PowerOfTwoTestCorrect(n: nat)
    ensures PowerOfTwoTest(n) <==> IsPow2(n)
  {
    if n > 1 {
      var m := n / 2;
      PowerOfTwoTestCorrect(m);
      if n % 2 == 0 {
        assert (n - 1) / 2 == m - 1 && (n - 1) % 2 == 1;
        assert PowerOfTwoTest(n) <==> PowerOfTwoTest(m);
        if IsPow2(m) {
          var k: nat :| m == Pow2(k);
          assert n == Pow2(k + 1);
        }
        if IsPow2(n) {
          var k: nat :| n == Pow2(k);
          assert m == Pow2(k - 1);
        }
      } else {
        assert (n - 1) / 2 == m && (n - 1) % 2 == 0;
        AndSelf(m);
        assert !PowerOfTwoTest(n);
        assert !IsPow2(n) by {
          forall k: nat ensures n != Pow2(k) {}
        }
      }
    } else if n == 1 {
      assert n == Pow2(0);
    }
  }

  lemma {:induction false} AndSelf(a: nat)
    ensures And(a, a) == a
  {
    if a > 0 {
      AndSelf(a / 2);
    }
  }

  lemma OrDouble(x: nat, q: nat)
    ensures Or(2 * x, q) == 2 * Or(x, q / 2) + q % 2
  {
    assert 2 * x / 2 == x && 2 * x % 2 == 0;
  }

  /** Shifted left, one bit at a time. */
  function Shl(s: nat, k: nat): nat {
    if k == 0 then s else 2 * Shl(s, k - 1)
  }

  lemma {:induction false} ShlIsProduct(s: nat, k: nat)
    ensures Shl(s, k) == s * Pow2(k)
  {
    if k > 0 {
      ShlIsProduct(s, k - 1);
      assert s * (2 * Pow2(k - 1)) == 2 * (s * Pow2(k - 1));
    }
  }

  lemma {:induction false} OrShl(s: nat, q: nat, k: nat)
    requires q < Pow2(k)
    ensures Or(Shl(s, k), q) == Shl(s, k) + q
    decreases k
  {
    if k > 0 {
      OrShl(s, q / 2, k - 1);
      OrDouble(Shl(s, k - 1), q);
    }
  }

  lemma OrDoubles(x: nat, y: nat, b: nat)
    requires b < 2
    ensures Or(2 * x, 2 * y + b) == 2 * Or(x, y) + b
  {
    OrDouble(x, 2 * y + b);
    assert (2 * y + b) / 2 == y && (2 * y + b) % 2 == b;
  }

  lemma {:induction false} OrShlShl(s: nat, h: nat, q: nat, k: nat)
    requires q < Pow2(k)
    ensures Or(Shl(s, k), Shl(h, k) + q) == Shl(Or(s, h), k) + q
    decreases k
  {
    if k > 0 {
      OrShlShl(s, h, q / 2, k - 1);
      OrDoubles(Shl(s, k - 1), Shl(h, k - 1) + q / 2, q % 2);
      assert 2 * (Shl(h, k - 1) + q / 2) + q % 2 == Shl(h, k) + q;
    }
  }

  /** Shifted right, and the low bits that fall off. */
  function Shr(q: nat, k: nat): nat {
    if k == 0 then q else Shr(q / 2, k - 1)
  }

  function Low(q: nat, k: nat): (r: nat)
    ensures r < Pow2(k)
  {
    if k == 0 then 0 else 2 * Low(q / 2, k - 1) + q % 2
  }

  lemma {:induction false} ShrLow(q: nat, k: nat)
    ensures q == Shl(Shr(q, k), k) + Low(q, k)
    ensures q < Pow2(k) <==> Shr(q, k) == 0
    decreases k
  {
    if k > 0 {
      ShrLow(q / 2, k - 1);
    }
  }

  lemma {:induction false} ShrIsQuotient(q: nat, k: nat)
    ensures Shr(q, k) == q / Pow2(k)
  {
    ShrLow(q, k);
    ShlIsProduct(Shr(q, k), k);
    DivModUnique(q, Pow2(k), Shr(q, k), Low(q, k));
  }

  lemma MulTwice(a: nat, b: nat)
    ensures 2 * (a * b) == 2 * a * b
  {}

  lemma {:induction false} Pow2Sum(i: nat, j: nat)
    ensures Pow2(i + j) == Pow2(i) * Pow2(j)
    decreases i
  {
    if i > 0 {
      Pow2Sum(i - 1, j);
      assert Pow2(i - 1 + j) == Pow2(i - 1) * Pow2(j);
      MulTwice(Pow2(i - 1), Pow2(j));
    } else {
      assert Pow2(i) == 1;
    }
  }

  lemma Pow2Of48(k: nat)
    requires k == 48
    ensures Pow2(k) == 0x1_0000_0000_0000
  {
    var quarter := k / 4;
    assert Pow2(quarter) == 4096 by {
      assert Pow2(12) == 4096;
    }
    Pow2Sum(quarter, quarter);
    Pow2Sum(2 * quarter, 2 * quarter);
  }

  /** Shifted number and low bits are determined by their sum. */
  lemma ShlUnique(s: nat, q: nat, s': nat, q': nat, k: nat)
    requires q < Pow2(k) && q' < Pow2(k) && Shl(s, k) + q == Shl(s', k) + q'
    ensures s == s' && q == q'
  {
    ShlIsProduct(s, k);
    ShlIsProduct(s', k);
    DivModUnique(Shl(s, k) + q, Pow2(k), s, q);
    DivModUnique(Shl(s', k) + q', Pow2(k), s', q');
  }

  // ---- The operators bit by bit ----

  /** Whether bit `i` of `a` is set. */
  predicate Bit(a: nat, i: nat) {
    if i == 0 then a % 2 == 1 else Bit(a / 2, i - 1)
  }

  lemma {:induction false} ZeroHasNoBits(i: nat)
    ensures !Bit(0, i)
  {
    if i > 0 {
      ZeroHasNoBits(i - 1);
    }
  }

  lemma {:induction false} AndBits(a: nat, b: nat, i: nat)
    ensures Bit(And(a, b), i) <==> Bit(a, i) && Bit(b, i)
    decreases i
  {
    ZeroHasNoBits(i);
    if i > 0 && a > 0 && b > 0 {
      AndBits(a / 2, b / 2, i - 1);
      assert And(a, b) / 2 == And(a / 2, b / 2);
    }
  }

  lemma {:induction false} OrBits(a: nat, b: nat, i: nat)
    ensures Bit(Or(a, b), i) <==> Bit(a, i) || Bit(b, i)
    decreases i
  {
    ZeroHasNoBits(i);
    if i > 0 && a > 0 && b > 0 {
      OrBits(a / 2, b / 2, i - 1);
      assert Or(a, b) / 2 == Or(a / 2, b / 2);
    }
  }

  lemma {:induction false} XorBits(a: nat, b: nat, i: nat)
    ensures Bit(Xor(a, b), i) <==> (Bit(a, i) != Bit(b, i))
    decreases i
  {
    ZeroHasNoBits(i);
    if i > 0 && (a > 0 || b > 0) {
      XorBits(a / 2, b / 2, i - 1);
      assert Xor(a, b) / 2 == Xor(a / 2, b / 2);
    }
  }

  lemma {:induction false} XorZero(a: nat)
    ensures Xor(a, 0) == a
  {
    if a > 0 {
      XorZero(a / 2);
    }
  }
}
