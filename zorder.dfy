/** Reference definitions of the Morton (Z-order) code, one bit of each
    component at a time, and of its inverse, which collects every second or
    third bit. The fast codec and the string-based interleavers are both
    proved equal to these. */
module ZOrder {
  import opened Bits

  /** Bit `k` of `x` goes to bit `2k`, bit `k` of `y` to bit `2k + 1`. */
  function Morton2(x: nat, y: nat): nat
    decreases x + y
  {
    if x == 0 && y == 0 then 0
    else x % 2 + 2 * (y % 2) + 4 * Morton2(x / 2, y / 2)
  }

  /** Bit `k` of `x`, `y`, `z` goes to bit `3k`, `3k + 1`, `3k + 2`. */
  function Morton3(x: nat, y: nat, z: nat): nat
    decreases x + y + z
  {
    if x == 0 && y == 0 && z == 0 then 0
    else x % 2 + 2 * (y % 2) + 4 * (z % 2) + 8 * Morton3(x / 2, y / 2, z / 2)
  }

  /** Bit `k` of `v`, `x`, `y`, `z` goes to bit `4k`, `4k + 1`, `4k + 2`, `4k + 3`. */
  function Morton4(v: nat, x: nat, y: nat, z: nat): nat
    decreases v + x + y + z
  {
    if v == 0 && x == 0 && y == 0 && z == 0 then 0
    else v % 2 + 2 * (x % 2) + 4 * (y % 2) + 8 * (z % 2) + 16 * Morton4(v / 2, x / 2, y / 2, z / 2)
  }

  /** Bits 0, 2, 4, ... of `n`, packed. */
  function EveryOtherBit(n: nat): nat
  {
    if n == 0 then 0 else n % 2 + 2 * EveryOtherBit(n / 4)
  }

  /** Bits 0, 3, 6, ... of `n`, packed. */
  function EveryThirdBit(n: nat): nat
  {
    if n == 0 then 0 else n % 2 + 2 * EveryThirdBit(n / 8)
  }

  /** One step of `Morton2`: the low bits of `x` and `y` at positions 0 and
      1, the code of the halved pair from bit 2 on. */
  lemma {:induction false} Morton2Step(x: nat, y: nat, k: nat)
    ensures Bit(Morton2(x, y), 0) == Bit(x, 0)
    ensures Bit(Morton2(x, y), 1) == Bit(y, 0)
    ensures k >= 2 ==> Bit(Morton2(x, y), k) == Bit(Morton2(x / 2, y / 2), k - 2)
  {
    var m := Morton2(x / 2, y / 2);
    var t := y % 2 + 2 * m;
    assert Morton2(x, y) == x % 2 + 2 * t;
    assert Bit(Morton2(x, y), 0) == Bit(x, 0) by {
      BitCons(x % 2, t, 0);
    }
    assert Bit(Morton2(x, y), 1) == Bit(y, 0) by {
      BitCons(x % 2, t, 1);
      BitCons(y % 2, m, 0);
    }
    if k >= 2 {
      assert Bit(Morton2(x, y), k) == Bit(m, k - 2) by {
        BitCons(x % 2, t, k);
        BitCons(y % 2, m, k - 1);
      }
    }
  }

  /** Bit `q` of component `r` sits at bit `2q + r` of `Morton2(x, y)`. */
  lemma {:induction false} Morton2Bits(x: nat, y: nat, q: nat, r: nat)
    requires r < 2
    ensures Bit(Morton2(x, y), 2 * q + r) == Bit(if r == 0 then x else y, q)
  {
    Morton2Step(x, y, 2 * q + r);
    if q > 0 {
      Morton2Bits(x / 2, y / 2, q - 1, r);
      assert 2 * q + r - 2 == 2 * (q - 1) + r;
    }
  }

  /** One step of `Morton3`. */
  lemma {:induction false} Morton3Step(x: nat, y: nat, z: nat, k: nat)
    ensures Bit(Morton3(x, y, z), 0) == Bit(x, 0)
    ensures Bit(Morton3(x, y, z), 1) == Bit(y, 0)
    ensures Bit(Morton3(x, y, z), 2) == Bit(z, 0)
    ensures k >= 3 ==> Bit(Morton3(x, y, z), k) == Bit(Morton3(x / 2, y / 2, z / 2), k - 3)
  {
    var m := Morton3(x / 2, y / 2, z / 2);
    var t1 := z % 2 + 2 * m;
    var t0 := y % 2 + 2 * t1;
    assert Morton3(x, y, z) == x % 2 + 2 * t0;
    assert Bit(Morton3(x, y, z), 0) == Bit(x, 0) by {
      BitCons(x % 2, t0, 0);
    }
    assert Bit(Morton3(x, y, z), 1) == Bit(y, 0) by {
      BitCons(x % 2, t0, 1);
      BitCons(y % 2, t1, 0);
    }
    assert Bit(Morton3(x, y, z), 2) == Bit(z, 0) by {
      BitCons(x % 2, t0, 2);
      BitCons(y % 2, t1, 1);
      BitCons(z % 2, m, 0);
    }
    if k >= 3 {
      assert Bit(Morton3(x, y, z), k) == Bit(m, k - 3) by {
        BitCons(x % 2, t0, k);
        BitCons(y % 2, t1, k - 1);
        BitCons(z % 2, m, k - 2);
      }
    }
  }

  /** Bit `q` of component `r` sits at bit `3q + r` of `Morton3(x, y, z)`. */
  lemma {:induction false} Morton3Bits(x: nat, y: nat, z: nat, q: nat, r: nat)
    requires r < 3
    ensures Bit(Morton3(x, y, z), 3 * q + r) == Bit(if r == 0 then x else if r == 1 then y else z, q)
  {
    Morton3Step(x, y, z, 3 * q + r);
    if q > 0 {
      Morton3Bits(x / 2, y / 2, z / 2, q - 1, r);
      assert 3 * q + r - 3 == 3 * (q - 1) + r;
    }
  }

  /** One step of `Morton4`. */
  lemma {:induction false} Morton4Step(v: nat, x: nat, y: nat, z: nat, k: nat)
    ensures Bit(Morton4(v, x, y, z), 0) == Bit(v, 0)
    ensures Bit(Morton4(v, x, y, z), 1) == Bit(x, 0)
    ensures Bit(Morton4(v, x, y, z), 2) == Bit(y, 0)
    ensures Bit(Morton4(v, x, y, z), 3) == Bit(z, 0)
    ensures k >= 4 ==> Bit(Morton4(v, x, y, z), k) == Bit(Morton4(v / 2, x / 2, y / 2, z / 2), k - 4)
  {
    var m := Morton4(v / 2, x / 2, y / 2, z / 2);
    assert Morton4(v, x, y, z) == v % 2 + 2 * (x % 2 + 2 * (y % 2 + 2 * (z % 2 + 2 * m)));
    NibbleBits(v % 2, x % 2, y % 2, z % 2, m, k);
  }

  /** The bits of four single bits followed by `m`. */
  lemma {:induction false} NibbleBits(a: nat, b: nat, c: nat, d: nat, m: nat, k: nat)
    requires a < 2 && b < 2 && c < 2 && d < 2
    ensures var n := a + 2 * (b + 2 * (c + 2 * (d + 2 * m)));
      Bit(n, 0) == (a == 1) && Bit(n, 1) == (b == 1) && Bit(n, 2) == (c == 1) && Bit(n, 3) == (d == 1)
      && (k >= 4 ==> Bit(n, k) == Bit(m, k - 4))
  {
    var t2 := c + 2 * (d + 2 * m);
    var t1 := b + 2 * t2;
    var t0 := a + 2 * t1;
    BitCons(a, t1, 0);
    BitCons(a, t1, 1);
    BitCons(b, t2, 0);
    BitCons(a, t1, 2);
    BitCons(b, t2, 1);
    BitCons(c, d + 2 * m, 0);
    BitCons(a, t1, 3);
    BitCons(b, t2, 2);
    BitCons(c, d + 2 * m, 1);
    BitCons(d, m, 0);
    if k >= 4 {
      BitCons(a, t1, k);
      BitCons(b, t2, k - 1);
      BitCons(c, d + 2 * m, k - 2);
      BitCons(d, m, k - 3);
    }
  }

  /** Bit `q` of component `r` sits at bit `4q + r` of `Morton4(v, x, y, z)`. */
  lemma {:induction false} Morton4Bits(v: nat, x: nat, y: nat, z: nat, q: nat, r: nat)
    requires r < 4
    ensures Bit(Morton4(v, x, y, z), 4 * q + r)
            == Bit(if r == 0 then v else if r == 1 then x else if r == 2 then y else z, q)
  {
    Morton4Step(v, x, y, z, 4 * q + r);
    if q > 0 {
      Morton4Bits(v / 2, x / 2, y / 2, z / 2, q - 1, r);
      assert 4 * q + r - 4 == 4 * (q - 1) + r;
    }
  }

  lemma {:induction false} EveryOtherBitBits(n: nat, k: nat)
    ensures Bit(EveryOtherBit(n), k) == Bit(n, 2 * k)
  {
    if n == 0 {
      BitOfZero(k);
      BitOfZero(2 * k);
    } else if k > 0 {
      EveryOtherBitBits(n / 4, k - 1);
      assert Bit(n, 2 * k) == Bit(n / 2, 2 * k - 1) == Bit(n / 2 / 2, 2 * k - 2);
    }
  }

  lemma {:induction false} EveryThirdBitBits(n: nat, k: nat)
    ensures Bit(EveryThirdBit(n), k) == Bit(n, 3 * k)
  {
    if n == 0 {
      BitOfZero(k);
      BitOfZero(3 * k);
    } else if k > 0 {
      EveryThirdBitBits(n / 8, k - 1);
      assert Bit(n, 3 * k) == Bit(n / 2, 3 * k - 1) == Bit(n / 2 / 2, 3 * k - 2)
          == Bit(n / 2 / 2 / 2, 3 * k - 3);
    }
  }

  /** Gathering the even and the odd bits undoes `Morton2`. */
  lemma {:induction false} Morton2RoundTrip(x: nat, y: nat)
    ensures EveryOtherBit(Morton2(x, y)) == x
    ensures EveryOtherBit(Morton2(x, y) / 2) == y
  {
    var n := Morton2(x, y);
    forall k: nat ensures Bit(EveryOtherBit(n), k) == Bit(x, k) {
      EveryOtherBitBits(n, k);
      Morton2Bits(x, y, k, 0);
    }
    forall k: nat ensures Bit(EveryOtherBit(n / 2), k) == Bit(y, k) {
      EveryOtherBitBits(n / 2, k);
      Morton2Bits(x, y, k, 1);
    }
    BitsEqual(EveryOtherBit(n), x);
    BitsEqual(EveryOtherBit(n / 2), y);
  }

  /** Bit `2q + r` of the code rebuilt from the even and odd bits of `n` is
      bit `2q + r` of `n`. */
  lemma {:induction false} Morton2OfGatheredBit(n: nat, q: nat, r: nat)
    requires r < 2
    ensures Bit(Morton2(EveryOtherBit(n), EveryOtherBit(n / 2)), 2 * q + r) == Bit(n, 2 * q + r)
  {
    Morton2Bits(EveryOtherBit(n), EveryOtherBit(n / 2), q, r);
    if r == 0 {
      EveryOtherBitBits(n, q);
    } else {
      EveryOtherBitBits(n / 2, q);
    }
  }

  /** Every code is the Morton code of its even and odd bits, so `Morton2` is
      a bijection between pairs and codes. */
  lemma {:induction false} Morton2OfGathered(n: nat)
    ensures Morton2(EveryOtherBit(n), EveryOtherBit(n / 2)) == n
  {
    var m := Morton2(EveryOtherBit(n), EveryOtherBit(n / 2));
    forall j: nat ensures Bit(m, j) == Bit(n, j) {
      var q, r := j / 2, j % 2;
      assert j == 2 * q + r;
      Morton2OfGatheredBit(n, q, r);
    }
    BitsEqual(m, n);
  }

  /** Gathering every third bit from offsets 0, 1, 2 undoes `Morton3`. */
  lemma {:induction false} Morton3RoundTrip(x: nat, y: nat, z: nat)
    ensures EveryThirdBit(Morton3(x, y, z)) == x
    ensures EveryThirdBit(Morton3(x, y, z) / 2) == y
    ensures EveryThirdBit(Morton3(x, y, z) / 4) == z
  {
    var n := Morton3(x, y, z);
    forall k: nat ensures Bit(EveryThirdBit(n), k) == Bit(x, k) {
      EveryThirdBitBits(n, k);
      Morton3Bits(x, y, z, k, 0);
    }
    forall k: nat ensures Bit(EveryThirdBit(n / 2), k) == Bit(y, k) {
      EveryThirdBitBits(n / 2, k);
      Morton3Bits(x, y, z, k, 1);
    }
    forall k: nat ensures Bit(EveryThirdBit(n / 4), k) == Bit(z, k) {
      EveryThirdBitBits(n / 4, k);
      Morton3Bits(x, y, z, k, 2);
      assert n / 2 / 2 == n / 4;
      assert Bit(n, 3 * k + 2) == Bit(n / 2, 3 * k + 1) == Bit(n / 4, 3 * k);
    }
    BitsEqual(EveryThirdBit(n), x);
    BitsEqual(EveryThirdBit(n / 2), y);
    BitsEqual(EveryThirdBit(n / 4), z);
  }

  /** Bit `3q + r` of the code rebuilt from the gathered components is bit
      `3q + r` of `n`. */
  lemma {:induction false} Morton3OfGatheredBit(n: nat, q: nat, r: nat)
    requires r < 3
    ensures Bit(Morton3(EveryThirdBit(n), EveryThirdBit(n / 2), EveryThirdBit(n / 4)), 3 * q + r)
            == Bit(n, 3 * q + r)
  {
    var x, y, z := EveryThirdBit(n), EveryThirdBit(n / 2), EveryThirdBit(n / 4);
    Morton3Bits(x, y, z, q, r);
    if r == 0 {
      EveryThirdBitBits(n, q);
    } else if r == 1 {
      EveryThirdBitBits(n / 2, q);
    } else {
      EveryThirdBitBits(n / 4, q);
      assert n / 2 / 2 == n / 4;
      assert Bit(n, 3 * q + 2) == Bit(n / 2, 3 * q + 1) == Bit(n / 4, 3 * q);
    }
  }

  /** Every code is the three-way Morton code of its gathered components. */
  lemma {:induction false} Morton3OfGathered(n: nat)
    ensures Morton3(EveryThirdBit(n), EveryThirdBit(n / 2), EveryThirdBit(n / 4)) == n
  {
    var m := Morton3(EveryThirdBit(n), EveryThirdBit(n / 2), EveryThirdBit(n / 4));
    forall j: nat ensures Bit(m, j) == Bit(n, j) {
      var q, r := j / 3, j % 3;
      assert j == 3 * q + r;
      Morton3OfGatheredBit(n, q, r);
    }
    BitsEqual(m, n);
  }

  /** Components below `2^w` give a code below `2^(2w)`. */
  lemma {:induction false} Morton2Bound(x: nat, y: nat, w: nat)
    requires x < Pow2(w) && y < Pow2(w)
    ensures Morton2(x, y) < Pow2(2 * w)
  {
    if w > 0 && (x != 0 || y != 0) {
      Morton2Bound(x / 2, y / 2, w - 1);
      assert Pow2(2 * w) == 4 * Pow2(2 * (w - 1)) by {
        assert Pow2(2 * w) == 2 * Pow2(2 * w - 1);
        assert Pow2(2 * w - 1) == 2 * Pow2(2 * (w - 1));
      }
    }
  }

  /** Components below `2^w` give a code below `2^(3w)`. */
  lemma {:induction false} Morton3Bound(x: nat, y: nat, z: nat, w: nat)
    requires x < Pow2(w) && y < Pow2(w) && z < Pow2(w)
    ensures Morton3(x, y, z) < Pow2(3 * w)
  {
    if w > 0 && (x != 0 || y != 0 || z != 0) {
      Morton3Bound(x / 2, y / 2, z / 2, w - 1);
      assert Pow2(3 * w) == 8 * Pow2(3 * (w - 1)) by {
        assert Pow2(3 * w) == 2 * Pow2(3 * w - 1);
        assert Pow2(3 * w - 1) == 2 * Pow2(3 * w - 2);
        assert Pow2(3 * w - 2) == 2 * Pow2(3 * (w - 1));
      }
    }
  }

  /** Components below `2^w` give a code below `2^(4w)`. */
  lemma {:induction false} Morton4Bound(v: nat, x: nat, y: nat, z: nat, w: nat)
    requires v < Pow2(w) && x < Pow2(w) && y < Pow2(w) && z < Pow2(w)
    ensures Morton4(v, x, y, z) < Pow2(4 * w)
  {
    if w > 0 && (v != 0 || x != 0 || y != 0 || z != 0) {
      Morton4Bound(v / 2, x / 2, y / 2, z / 2, w - 1);
      assert Pow2(4 * w) == 16 * Pow2(4 * (w - 1)) by {
        assert Pow2(4 * w) == 2 * Pow2(4 * w - 1);
        assert Pow2(4 * w - 1) == 2 * Pow2(4 * w - 2);
        assert Pow2(4 * w - 2) == 2 * Pow2(4 * w - 3);
        assert Pow2(4 * w - 3) == 2 * Pow2(4 * (w - 1));
      }
    }
  }
}
