/** Unbounded non-negative integers seen as bit strings, with the bitwise
    operators of Python's `int` (`&`, `|`, `^`, `<<`, `>>`, `bit_length`).
    Every operator comes with a lemma saying what it does to each bit, and
    `BitsEqual` lets two numbers be compared bit by bit. */
module Bits {

  function Pow2(k: nat): (p: nat)
    ensures p >= 1
  {
    if k == 0 then 1 else 2 * Pow2(k - 1)
  }

  /** Bit `k` (counting from the least significant) of `n` is set. */
  predicate Bit(n: nat, k: nat)
  {
    if k == 0 then n % 2 == 1 else Bit(n / 2, k - 1)
  }

  /** `a & b` */
  function And(a: nat, b: nat): nat
    decreases a
  {
    if a == 0 || b == 0 then 0
    else 2 * And(a / 2, b / 2) + (if a % 2 == 1 && b % 2 == 1 then 1 else 0)
  }

  /** `a | b` */
  function Or(a: nat, b: nat): nat
    decreases a + b
  {
    if a == 0 then b
    else if b == 0 then a
    else 2 * Or(a / 2, b / 2) + (if a % 2 == 1 || b % 2 == 1 then 1 else 0)
  }

  /** `a ^ b` */
  function Xor(a: nat, b: nat): nat
    decreases a + b
  {
    if a == 0 then b
    else if b == 0 then a
    else 2 * Xor(a / 2, b / 2) + (if (a % 2 == 1) != (b % 2 == 1) then 1 else 0)
  }

  /** `n << s`: `n` doubled `s` times. */
  function Shl(n: nat, s: nat): nat
  {
    if s == 0 then n else 2 * Shl(n, s - 1)
  }

  /** `n >> s`: `n` halved (rounding down) `s` times. */
  function Shr(n: nat, s: nat): nat
  {
    if s == 0 then n else Shr(n / 2, s - 1)
  }

  function Max(a: nat, b: nat): nat
  {
    if a >= b then a else b
  }

  function Min(a: nat, b: nat): nat
  {
    if a <= b then a else b
  }

  /** `n.bit_length()`: the number of binary digits of `n`, 0 for 0. */
  function BitLength(n: nat): (len: nat)
    ensures n < Pow2(len)
    ensures len > 0 ==> Pow2(len - 1) <= n
  {
    if n == 0 then 0 else 1 + BitLength(n / 2)
  }

  /** A bit pattern of `total` bits made of runs of `ones` set bits followed by
      `zeros` clear bits; bit `k` of the result is position `offset + k` of
      the endless pattern that starts with a run of ones. With offset 0 it
      characterises the hexadecimal mask literals of the spreading steps. */
  function RepeatingMask(total: nat, ones: nat, zeros: nat, offset: nat): nat
    requires ones + zeros > 0
  {
    if total == 0 then 0
    else (if InOnesRun(offset, ones, zeros) then 1 else 0)
         + 2 * RepeatingMask(total - 1, ones, zeros, offset + 1)
  }

  /** Position `k` of the endless pattern falls in a run of ones. */
  predicate InOnesRun(k: nat, ones: nat, zeros: nat)
    requires ones + zeros > 0
  {
    k % (ones + zeros) < ones
  }

  lemma {:induction false} BitOfZero(k: nat)
    ensures !Bit(0, k)
  {
    if k > 0 {
      BitOfZero(k - 1);
    }
  }

  /** Bit `k` of `a + 2 * m`, for a single bit `a`: `a` at 0, `m` above. */
  lemma {:induction false} BitCons(a: nat, m: nat, k: nat)
    requires a < 2
    ensures Bit(a + 2 * m, k) == if k == 0 then a == 1 else Bit(m, k - 1)
  {
  }

  /** Two numbers with the same bits are equal. */
  lemma {:induction false} BitsEqual(a: nat, b: nat)
    requires forall k :: Bit(a, k) == Bit(b, k)
    ensures a == b
    decreases a + b
  {
    if a != 0 || b != 0 {
      assert Bit(a, 0) == Bit(b, 0);
      forall k: nat
        ensures Bit(a / 2, k) == Bit(b / 2, k)
      {
        assert Bit(a, k + 1) == Bit(b, k + 1);
      }
      BitsEqual(a / 2, b / 2);
    }
  }

  /** `n < 2^w` exactly when no bit at or above `w` is set. */
  lemma {:induction false} BitsAbove(n: nat, w: nat)
    ensures n < Pow2(w) ==> forall k: nat :: k >= w ==> !Bit(n, k)
    ensures (forall k: nat :: k >= w ==> !Bit(n, k)) ==> n < Pow2(w)
  {
    if w == 0 {
      if forall k: nat :: k >= w ==> !Bit(n, k) {
        forall k: nat ensures Bit(n, k) == Bit(0, k) { BitOfZero(k); }
        BitsEqual(n, 0);
      }
      if n < Pow2(w) {
        forall k: nat ensures !Bit(n, k) { BitOfZero(k); }
      }
    } else {
      BitsAbove(n / 2, w - 1);
      assert Pow2(w) == 2 * Pow2(w - 1);
      if n < Pow2(w) {
        assert n / 2 < Pow2(w - 1);
        forall k: nat | k >= w ensures !Bit(n, k) {
          assert !Bit(n / 2, k - 1);
        }
      } else {
        assert n / 2 >= Pow2(w - 1);
        var k: nat :| k >= w - 1 && Bit(n / 2, k);
        assert k + 1 >= w && Bit(n, k + 1);
        assert !(forall j: nat :: j >= w ==> !Bit(n, j));
      }
    }
  }

  /** The bits of `a + 2^p * m` with `a < 2^p`: those of `a` below `p`, those
      of `m` from `p` on. */
  lemma {:induction false} BitConcat(a: nat, m: nat, p: nat, k: nat)
    requires a < Pow2(p)
    ensures Bit(a + Pow2(p) * m, k) == if k < p then Bit(a, k) else Bit(m, k - p)
    decreases p
  {
    if p == 0 {
      assert a == 0;
    } else {
      assert Pow2(p) * m == 2 * (Pow2(p - 1) * m);
      assert a + Pow2(p) * m == 2 * (a / 2 + Pow2(p - 1) * m) + a % 2;
      if k > 0 {
        BitConcat(a / 2, m, p - 1, k - 1);
      }
    }
  }

  /** `n % 2^w` keeps the bits of `n` below `w`. */
  lemma {:induction false} BitMod(n: nat, w: nat, k: nat)
    ensures Bit(n % Pow2(w), k) == (k < w && Bit(n, k))
  {
    var p := Pow2(w);
    DivOfNat(n, p);
    var a, m := n % p, n / p;
    assert n == a + p * m;
    BitConcat(a, m, w, k);
    if k >= w {
      BitAboveBound(a, w, k);
    }
  }

  /** Dividing a natural number by a positive one gives a natural quotient
      and a remainder below the divisor. */
  lemma {:induction false} DivOfNat(n: nat, p: nat)
    requires p >= 1
    ensures n / p >= 0 && 0 <= n % p < p && n == n % p + p * (n / p)
  {
  }

  /** A number below `2^w` has no bit set at `w` or above. */
  lemma {:induction false} BitAboveBound(n: nat, w: nat, k: nat)
    requires n < Pow2(w) && k >= w
    ensures !Bit(n, k)
  {
    if w == 0 {
      assert n == 0;
      BitOfZero(k);
    } else {
      BitAboveBound(n / 2, w - 1, k - 1);
    }
  }

  lemma {:induction false} BitAnd(a: nat, b: nat, k: nat)
    ensures Bit(And(a, b), k) == (Bit(a, k) && Bit(b, k))
    decreases a
  {
    if a == 0 || b == 0 {
      BitOfZero(k);
    } else if k > 0 {
      BitAnd(a / 2, b / 2, k - 1);
    }
  }

  lemma {:induction false} BitOr(a: nat, b: nat, k: nat)
    ensures Bit(Or(a, b), k) == (Bit(a, k) || Bit(b, k))
    decreases a + b
  {
    if a == 0 || b == 0 {
      BitOfZero(k);
    } else if k > 0 {
      BitOr(a / 2, b / 2, k - 1);
    }
  }

  lemma {:induction false} BitXor(a: nat, b: nat, k: nat)
    ensures Bit(Xor(a, b), k) == (Bit(a, k) != Bit(b, k))
    decreases a + b
  {
    if a == 0 || b == 0 {
      BitOfZero(k);
    } else if k > 0 {
      BitXor(a / 2, b / 2, k - 1);
    }
  }

  lemma {:induction false} BitShl(n: nat, s: nat, k: nat)
    ensures Bit(Shl(n, s), k) == (k >= s && Bit(n, k - s))
  {
    if s > 0 {
      if k > 0 {
        BitShl(n, s - 1, k - 1);
      }
    }
  }

  lemma {:induction false} BitShr(n: nat, s: nat, k: nat)
    ensures Bit(Shr(n, s), k) == Bit(n, s + k)
  {
    if s > 0 {
      BitShr(n / 2, s - 1, k);
    }
  }

  lemma {:induction false} ShrShr(n: nat, a: nat, b: nat)
    ensures Shr(Shr(n, a), b) == Shr(n, a + b)
  {
    forall k: nat ensures Bit(Shr(Shr(n, a), b), k) == Bit(Shr(n, a + b), k) {
      BitShr(Shr(n, a), b, k);
      BitShr(n, a, b + k);
      BitShr(n, a + b, k);
    }
    BitsEqual(Shr(Shr(n, a), b), Shr(n, a + b));
  }

  lemma {:induction false} BitRepeatingMask(total: nat, ones: nat, zeros: nat, offset: nat, k: nat)
    requires ones + zeros > 0
    ensures Bit(RepeatingMask(total, ones, zeros, offset), k)
            == (k < total && InOnesRun(offset + k, ones, zeros))
  {
    if total == 0 {
      BitOfZero(k);
    } else if k > 0 {
      BitRepeatingMask(total - 1, ones, zeros, offset + 1, k - 1);
    }
  }

  /** Division with remainder has a single answer. */
  lemma {:induction false} DivModUnique(j: int, d: int, q: int, r: int)
    requires d > 0 && 0 <= r < d && j == d * q + r
    ensures j / d == q && j % d == r
  {
    var q', r' := j / d, j % d;
    assert d * (q - q') == r' - r;
    if q > q' {
      MulAtLeast(d, q - q');
    } else if q < q' {
      MulAtLeast(d, q' - q);
    }
  }

  lemma {:induction false} MulAtLeast(d: int, k: int)
    requires d > 0 && k >= 1
    ensures d * k >= d
  {
  }

  /** `DivModUnique` for a divisor given as a product. */
  lemma {:induction false} DivModTimes(j: nat, c: nat, d: nat, t: nat, r: nat)
    requires c >= 1 && d >= 1 && r < d && j == c * d * t + r
    ensures j / (c * d) == t && j % (c * d) == r && j % d == r
  {
    DivModUnique(j, c * d, t, r);
    assert j == d * (c * t) + r;
    DivModUnique(j, d, c * t, r);
  }

  /** Reducing twice is reducing once. */
  lemma {:induction false} ModOfMod(x: nat, m: nat)
    requires m > 0
    ensures x % m % m == x % m
  {
    DivModUnique(x % m, m, 0, x % m);
  }

  /** Shifting right by one and by two bits divides by two and by four. */
  lemma {:induction false} ShrSmall(n: nat)
    ensures Shr(n, 1) == n / 2 && Shr(n, 2) == n / 4
  {
    assert Shr(n / 2, 1) == Shr(n / 2 / 2, 0) == n / 2 / 2;
    assert Shr(n, 2) == n / 2 / 2;
    DivModUnique(n, 4, n / 2 / 2, 2 * (n / 2 % 2) + n % 2);
  }

  lemma {:induction false} Pow2Monotone(a: nat, b: nat)
    requires a <= b
    ensures Pow2(a) <= Pow2(b)
    decreases b
  {
    if a < b {
      Pow2Monotone(a, b - 1);
    }
  }

  /** A number below the modulus is its own remainder. */
  lemma {:induction false} ModBelow(x: nat, m: nat)
    requires x < m
    ensures x % m == x
  {
    DivModUnique(x, m, 0, x);
  }
}
