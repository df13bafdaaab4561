/** Unsigned machine words as natural numbers: powers of two, the bitwise `&`, and what masks compute. */
module Words {

  function Pow2(n: nat): (p: nat)
    ensures p > 0
  {
    if n == 0 then 1 else 2 * Pow2(n - 1)
  }

  lemma SmallPowers()
    ensures Pow2(7) == 128 && Pow2(22) == 4194304
  {
    assert Pow2(2) == 4 && Pow2(4) == 4 * Pow2(2);
    assert Pow2(6) == 4 * Pow2(4) && Pow2(7) == 2 * Pow2(6);
    assert Pow2(9) == 4 * Pow2(7) && Pow2(11) == 4 * Pow2(9);
    assert Pow2(13) == 4 * Pow2(11) && Pow2(15) == 4 * Pow2(13);
    assert Pow2(17) == 4 * Pow2(15) && Pow2(19) == 4 * Pow2(17);
    assert Pow2(21) == 4 * Pow2(19) && Pow2(22) == 2 * Pow2(21);
  }

  /** The sum `x` as a word of `bits` bits keeps it: wrapped around once when it is too large. */
  function Wrap(x: nat, bits: nat): (r: nat)
    requires x < 2 * Pow2(bits)
    ensures r < Pow2(bits)
  {
    if x < Pow2(bits) then x else x - Pow2(bits)
  }

  lemma WrapIsRemainder(x: nat, bits: nat)
    requires x < 2 * Pow2(bits)
    ensures Wrap(x, bits) == x % Pow2(bits)
  {
    if x < Pow2(bits) {
      ModUnique(x, Pow2(bits), 0, x);
    } else {
      ModUnique(x, Pow2(bits), 1, x - Pow2(bits));
    }
  }

  ghost predicate IsPow2(p: int)
  {
    exists k: nat :: p == Pow2(k)
  }

  /** The bitwise conjunction of two unsigned words, bit by bit. */
  function BitAnd(a: nat, b: nat): nat
    decreases a
  {
    if a == 0 || b == 0 then 0 else 2 * BitAnd(a / 2, b / 2) + (if a % 2 == 1 && b % 2 == 1 then 1 else 0)
  }

  lemma MulAtLeast(a: int, d: nat)
    requires a >= 1
    ensures a * d >= d
  {
    assert a * d == (a - 1) * d + d;
  }

  /** Quotient and remainder are determined by `x == q * d + r` with `r < d`. */
  lemma ModUnique(x: nat, d: nat, q: nat, r: nat)
    requires 0 < d && r < d && x == q * d + r
    ensures x % d == r && x / d == q
  {
    var q2, r2 := x / d, x % d;
    assert x == q2 * d + r2;
    var e := q - q2;
    assert e * d == r2 - r by { assert e * d == q * d - q2 * d; }
    assert (-e) * d == -(e * d);
    if e >= 1 {
      MulAtLeast(e, d);
      assert false;
    } else if e <= -1 {
      MulAtLeast(-e, d);
      assert false;
    }
  }

  lemma ModDouble(x: nat, m: nat)
    requires m > 0
    ensures x % (2 * m) == 2 * ((x / 2) % m) + x % 2
  {
    var h, q, r := x / 2, (x / 2) / m, (x / 2) % m;
    assert h == q * m + r;
    assert q * (2 * m) == 2 * (q * m);
    ModUnique(x, 2 * m, q, 2 * r + x % 2);
  }

  /** The low `k` bits of a word. */
  function LowBits(x: nat, k: nat): nat
    decreases k
  {
    if k == 0 then 0 else 2 * LowBits(x / 2, k - 1) + x % 2
  }

  lemma {:induction false} LowBitsIsRemainder(x: nat, k: nat)
    ensures LowBits(x, k) == x % Pow2(k)
    decreases k
  {
    if k == 0 {
    } else {
      LowBitsIsRemainder(x / 2, k - 1);
      ModDouble(x, Pow2(k - 1));
    }
  }

  lemma {:induction false} AndLowBits(x: nat, k: nat)
    ensures BitAnd(x, Pow2(k) - 1) == LowBits(x, k)
    decreases k
  {
    if k == 0 {
    } else {
      AndLowBits(x / 2, k - 1);
      assert (Pow2(k) - 1) / 2 == Pow2(k - 1) - 1;
      if x == 0 {
        AndLowBits(0, k - 1);
      }
    }
  }

  /** Masking with a power of two minus one is the remainder. */
  lemma AndLowMask(x: nat, k: nat)
    ensures BitAnd(x, Pow2(k) - 1) == x % Pow2(k)
  {
    AndLowBits(x, k);
    LowBitsIsRemainder(x, k);
  }

  lemma {:induction false} AndHighBits(x: nat, k: nat, w: nat)
    requires k <= w && x < Pow2(w) && Pow2(k) <= Pow2(w)
    ensures BitAnd(x, Pow2(w) - Pow2(k)) == x - LowBits(x, k)
    decreases w
  {
    if k == 0 {
      AndLowBits(x, w);
      LowBitsOfSmall(x, w);
    } else {
      Pow2Monotone(k - 1, w - 1);
      AndHighBits(x / 2, k - 1, w - 1);
      if x == 0 {
        AndHighBits(0, k - 1, w - 1);
      }
      assert (Pow2(w) - Pow2(k)) / 2 == Pow2(w - 1) - Pow2(k - 1);
    }
  }

  lemma {:induction false} LowBitsOfSmall(x: nat, w: nat)
    requires x < Pow2(w)
    ensures LowBits(x, w) == x
    decreases w
  {
    if w == 0 {
    } else {
      LowBitsOfSmall(x / 2, w - 1);
    }
  }

  /** Masking a `w`-bit word with the complement of that mask rounds it down to a multiple. */
  lemma AndHighMask(x: nat, k: nat, w: nat)
    requires k <= w && x < Pow2(w)
    ensures Pow2(k) <= Pow2(w)
    ensures BitAnd(x, Pow2(w) - Pow2(k)) == x - x % Pow2(k)
  {
    Pow2Monotone(k, w);
    AndHighBits(x, k, w);
    LowBitsIsRemainder(x, k);
  }

  lemma {:induction false} Pow2Monotone(k: nat, w: nat)
    requires k <= w
    ensures Pow2(k) <= Pow2(w)
    decreases w
  {
    if k == w {
    } else {
      Pow2Monotone(k, w - 1);
    }
  }

  /** The classic test: `(p - 1) & p` is zero exactly for the powers of two. */
  lemma {:induction false} PowerOfTwoTest(p: nat)
    requires p > 0
    ensures BitAnd(p - 1, p) == 0 <==> IsPow2(p)
    decreases p
  {
    if p == 1 {
      assert p == Pow2(0);
    } else if p % 2 == 0 {
      PowerOfTwoTest(p / 2);
      assert (p - 1) / 2 == p / 2 - 1;
      assert BitAnd(p - 1, p) == 2 * BitAnd(p / 2 - 1, p / 2);
      if IsPow2(p / 2) {
        var k: nat :| p / 2 == Pow2(k);
        assert p == Pow2(k + 1);
      }
      if IsPow2(p) {
        var k: nat :| p == Pow2(k);
        assert p / 2 == Pow2(k - 1);
      }
    } else {
      assert (p - 1) / 2 == p / 2 && (p - 1) % 2 == 0;
      AndSelf(p / 2);
      assert BitAnd(p - 1, p) == 2 * BitAnd(p / 2, p / 2);
      forall k: nat ensures p != Pow2(k) {
        assert k > 0 ==> Pow2(k) % 2 == 0;
      }
    }
  }

  lemma {:induction false} AndSelf(x: nat)
    ensures BitAnd(x, x) == x
  {
    if x == 0 {
    } else {
      AndSelf(x / 2);
    }
  }
}
