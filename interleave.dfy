/** The bit-twiddling Morton codec: spreading a 16-bit (or 10-bit) window by
    shift-and-mask steps and gathering it back, the windowed two-way
    interleaver and deinterleaver built on top, and the single-window
    three-way pair. */
module Interleave {
  import opened Bits
  import opened Blocks
  import opened Masks
  import opened ZOrder

  // ---------------------------------------------------------------------
  // Spreading and gathering one window.

  /** Inserts one zero bit between the bits of the low 16 bits of `num`. */
  function Part1by1(num: nat): nat
  {
    var n0 := And(num, 0x0000FFFF);
    var n1 := And(Or(n0, Shl(n0, 8)), 0x00FF00FF);
    var n2 := And(Or(n1, Shl(n1, 4)), 0x0F0F0F0F);
    var n3 := And(Or(n2, Shl(n2, 2)), 0x33333333);
    And(Or(n3, Shl(n3, 1)), 0x55555555)
  }

  /** Inserts two zero bits between the bits of the low 10 bits of `num`. */
  function Part1by2(num: nat): nat
  {
    var n0 := And(num, 0x000003FF);
    var n1 := And(Xor(n0, Shl(n0, 16)), 0xFF0000FF);
    var n2 := And(Xor(n1, Shl(n1, 8)), 0x0300F00F);
    var n3 := And(Xor(n2, Shl(n2, 4)), 0x030C30C3);
    And(Xor(n3, Shl(n3, 2)), 0x09249249)
  }

  /** Packs bits 0, 2, ..., 30 of `n`. */
  function Unpart1by1(n: nat): nat
  {
    var n0 := And(n, 0x55555555);
    var n1 := And(Xor(n0, Shr(n0, 1)), 0x33333333);
    var n2 := And(Xor(n1, Shr(n1, 2)), 0x0F0F0F0F);
    var n3 := And(Xor(n2, Shr(n2, 4)), 0x00FF00FF);
    And(Xor(n3, Shr(n3, 8)), 0x0000FFFF)
  }

  /** Packs bits 0, 3, ..., 27 of `n`. */
  function Unpart1by2(n: nat): nat
  {
    var n0 := And(n, 0x09249249);
    var n1 := And(Xor(n0, Shr(n0, 2)), 0x030C30C3);
    var n2 := And(Xor(n1, Shr(n1, 4)), 0x0300F00F);
    var n3 := And(Xor(n2, Shr(n2, 8)), 0xFF0000FF);
    And(Xor(n3, Shr(n3, 16)), 0x000003FF)
  }

  /** Bit `i` of the low 16 bits of `num` lands at bit `2i`; every other bit
      of the result is clear. */
  lemma {:induction false} Part1by1Bits(num: nat)
    ensures forall j: nat :: Bit(Part1by1(num), j) == (j % 2 == 0 && j / 2 < 16 && Bit(num, j / 2))
  {
    var n0 := And(num, 0x0000FFFF);
    assert Layout(n0, num, 2, 16, 16) by {
      Mask0000FFFF();
      WindowLayout(num, 2, 16, 0x0000FFFF);
    }
    var n1 := And(Or(n0, Shl(n0, 8)), 0x00FF00FF);
    assert Layout(n1, num, 2, 8, 16) by {
      Mask00FF00FF();
      SpreadStep(n0, num, 2, 8, 16, 0x00FF00FF);
    }
    var n2 := And(Or(n1, Shl(n1, 4)), 0x0F0F0F0F);
    assert Layout(n2, num, 2, 4, 16) by {
      Mask0F0F0F0F();
      SpreadStep(n1, num, 2, 4, 16, 0x0F0F0F0F);
    }
    var n3 := And(Or(n2, Shl(n2, 2)), 0x33333333);
    assert Layout(n3, num, 2, 2, 16) by {
      Mask33333333();
      SpreadStep(n2, num, 2, 2, 16, 0x33333333);
    }
    assert Layout(Part1by1(num), num, 2, 1, 16) by {
      Mask55555555();
      SpreadStep(n3, num, 2, 1, 16, 0x55555555);
    }
  }

  /** Bit `i` of the low 10 bits of `num` lands at bit `3i`; every other bit
      of the result is clear. */
  lemma {:induction false} Part1by2Bits(num: nat)
    ensures forall j: nat :: Bit(Part1by2(num), j) == (j % 3 == 0 && j / 3 < 10 && Bit(num, j / 3))
  {
    var n0 := And(num, 0x000003FF);
    assert Layout(n0, num, 3, 16, 10) by {
      Mask000003FF();
      WindowLayout(num, 3, 10, 0x000003FF);
    }
    var n1 := And(Xor(n0, Shl(n0, 16)), 0xFF0000FF);
    assert Layout(n1, num, 3, 8, 10) by {
      MaskFF0000FF();
      SpreadStep(n0, num, 3, 8, 10, 0xFF0000FF);
    }
    var n2 := And(Xor(n1, Shl(n1, 8)), 0x0300F00F);
    assert Layout(n2, num, 3, 4, 10) by {
      Mask0300F00F();
      SpreadStep(n1, num, 3, 4, 10, 0x0300F00F);
    }
    var n3 := And(Xor(n2, Shl(n2, 4)), 0x030C30C3);
    assert Layout(n3, num, 3, 2, 10) by {
      Mask030C30C3();
      SpreadStep(n2, num, 3, 2, 10, 0x030C30C3);
    }
    assert Layout(Part1by2(num), num, 3, 1, 10) by {
      Mask09249249();
      SpreadStep(n3, num, 3, 1, 10, 0x09249249);
    }
  }

  /** Masking `n` with `0x55555555` keeps its even bits below 32: the
      finest layout of its every other bit. */
  lemma {:induction false} EvenBitsLayout(n: nat)
    ensures Layout(And(n, 0x55555555), EveryOtherBit(n), 2, 1, 16)
  {
    var n0 := And(n, 0x55555555);
    Mask55555555();
    forall j: nat ensures Bit(n0, j) == (j % (2 * 1) < 1 && Source(j, 2, 1) < 16
                                         && Bit(EveryOtherBit(n), Source(j, 2, 1))) {
      BitAnd(n, 0x55555555, j);
      EveryOtherBitBits(n, j / 2);
    }
  }

  /** Bit `k` of the result is bit `2k` of `n` for `k < 16`, and clear from
      16 on. */
  lemma {:induction false} Unpart1by1Bits(n: nat)
    ensures forall k: nat :: Bit(Unpart1by1(n), k) == (k < 16 && Bit(n, 2 * k))
  {
    var n0 := And(n, 0x55555555);
    EvenBitsLayout(n);
    var n1 := And(Xor(n0, Shr(n0, 1)), 0x33333333);
    assert Layout(n1, EveryOtherBit(n), 2, 2, 16) by {
      Mask33333333();
      GatherStep(n0, EveryOtherBit(n), 2, 1, 16, 0x33333333);
    }
    var n2 := And(Xor(n1, Shr(n1, 2)), 0x0F0F0F0F);
    assert Layout(n2, EveryOtherBit(n), 2, 4, 16) by {
      Mask0F0F0F0F();
      GatherStep(n1, EveryOtherBit(n), 2, 2, 16, 0x0F0F0F0F);
    }
    var n3 := And(Xor(n2, Shr(n2, 4)), 0x00FF00FF);
    assert Layout(n3, EveryOtherBit(n), 2, 8, 16) by {
      Mask00FF00FF();
      GatherStep(n2, EveryOtherBit(n), 2, 4, 16, 0x00FF00FF);
    }
    assert Layout(Unpart1by1(n), EveryOtherBit(n), 2, 16, 16) by {
      Mask0000FFFF();
      GatherStep(n3, EveryOtherBit(n), 2, 8, 16, 0x0000FFFF);
    }
    LayoutSingleBlock(Unpart1by1(n), EveryOtherBit(n), 2, 16);
    forall k: nat ensures Bit(Unpart1by1(n), k) == (k < 16 && Bit(n, 2 * k)) {
      EveryOtherBitBits(n, k);
    }
  }

  /** Masking `n` with `0x09249249` keeps bits 0, 3, ..., 27: the finest
      layout of its every third bit. */
  lemma {:induction false} ThirdBitsLayout(n: nat)
    ensures Layout(And(n, 0x09249249), EveryThirdBit(n), 3, 1, 10)
  {
    var n0 := And(n, 0x09249249);
    Mask09249249();
    forall j: nat ensures Bit(n0, j) == (j % (3 * 1) < 1 && Source(j, 3, 1) < 10
                                         && Bit(EveryThirdBit(n), Source(j, 3, 1))) {
      BitAnd(n, 0x09249249, j);
      EveryThirdBitBits(n, j / 3);
    }
  }

  /** Bit `k` of the result is bit `3k` of `n` for `k < 10`, and clear from
      10 on. */
  lemma {:induction false} Unpart1by2Bits(n: nat)
    ensures forall k: nat :: Bit(Unpart1by2(n), k) == (k < 10 && Bit(n, 3 * k))
  {
    var n0 := And(n, 0x09249249);
    ThirdBitsLayout(n);
    var n1 := And(Xor(n0, Shr(n0, 2)), 0x030C30C3);
    assert Layout(n1, EveryThirdBit(n), 3, 2, 10) by {
      Mask030C30C3();
      GatherStep(n0, EveryThirdBit(n), 3, 1, 10, 0x030C30C3);
    }
    var n2 := And(Xor(n1, Shr(n1, 4)), 0x0300F00F);
    assert Layout(n2, EveryThirdBit(n), 3, 4, 10) by {
      Mask0300F00F();
      GatherStep(n1, EveryThirdBit(n), 3, 2, 10, 0x0300F00F);
    }
    var n3 := And(Xor(n2, Shr(n2, 8)), 0xFF0000FF);
    assert Layout(n3, EveryThirdBit(n), 3, 8, 10) by {
      MaskFF0000FF();
      GatherStep(n2, EveryThirdBit(n), 3, 4, 10, 0xFF0000FF);
    }
    assert Layout(Unpart1by2(n), EveryThirdBit(n), 3, 16, 10) by {
      Mask000003FF();
      GatherStep(n3, EveryThirdBit(n), 3, 8, 10, 0x000003FF);
    }
    LayoutSingleBlock(Unpart1by2(n), EveryThirdBit(n), 3, 10);
    forall k: nat ensures Bit(Unpart1by2(n), k) == (k < 10 && Bit(n, 3 * k)) {
      EveryThirdBitBits(n, k);
    }
  }

  /** The powers of two that the window widths give. */
  lemma {:induction false} Pow2Values()
    ensures Pow2(10) == 1024 && Pow2(16) == 0x10000
    ensures Pow2(30) == 0x4000_0000 && Pow2(32) == 0x1_0000_0000
  {
    assert Pow2(8) == 0x100;
    assert Pow2(16) == 0x10000;
    assert Pow2(24) == 0x100_0000;
  }

  // ---------------------------------------------------------------------
  // The one-window functions against the reference code.

  /** `part1by1` is the two-way Morton code of the low 16 bits of its input
      with zero, so it is below `2^32`. */
  lemma {:induction false} Part1by1Morton(num: nat)
    ensures Part1by1(num) == Morton2(num % 0x10000, 0)
    ensures Part1by1(num) < 0x1_0000_0000
  {
    Pow2Values();
    Part1by1Bits(num);
    var m := Morton2(num % Pow2(16), 0);
    forall j: nat ensures Bit(Part1by1(num), j) == Bit(m, j) {
      var q, r := j / 2, j % 2;
      assert j == 2 * q + r;
      Morton2Bits(num % Pow2(16), 0, q, r);
      BitMod(num, 16, q);
      BitOfZero(q);
    }
    BitsEqual(Part1by1(num), m);
    BitMod(num, 16, 0);
    Morton2Bound(num % Pow2(16), 0, 16);
  }

  /** `unpart1by1` keeps the low 16 of the even-position bits, so its
      result is below `2^16`. */
  lemma {:induction false} Unpart1by1Gathers(n: nat)
    ensures Unpart1by1(n) == EveryOtherBit(n) % 0x10000
    ensures Unpart1by1(n) < 0x10000
  {
    Pow2Values();
    Unpart1by1Bits(n);
    forall k: nat ensures Bit(Unpart1by1(n), k) == Bit(EveryOtherBit(n) % Pow2(16), k) {
      BitMod(EveryOtherBit(n), 16, k);
      EveryOtherBitBits(n, k);
    }
    BitsEqual(Unpart1by1(n), EveryOtherBit(n) % Pow2(16));
  }

  /** `unpart1by1` undoes `part1by1` on the low 16 bits. */
  lemma {:induction false} Unpart1by1Part1by1(x: nat)
    ensures Unpart1by1(Part1by1(x)) == x % 0x10000
    ensures x < 0x10000 ==> Unpart1by1(Part1by1(x)) == x
  {
    var low := x % 0x10000;
    var p := Part1by1(x);
    assert p == Morton2(low, 0) by { Part1by1Morton(x); }
    assert EveryOtherBit(p) == low by { Morton2RoundTrip(low, 0); }
    assert Unpart1by1(p) == EveryOtherBit(p) % 0x10000 by { Unpart1by1Gathers(p); }
    ModOfMod(x, 0x10000);
    if x < 0x10000 {
      DivModUnique(x, 0x10000, 0, x);
    }
  }

  /** `part1by2` is the three-way Morton code of the low 10 bits of its
      input with two zeros, so it is below `2^30`. */
  lemma {:induction false} Part1by2Morton(num: nat)
    ensures Part1by2(num) == Morton3(num % 1024, 0, 0)
    ensures Part1by2(num) < 0x4000_0000
  {
    Pow2Values();
    Part1by2Bits(num);
    var m := Morton3(num % Pow2(10), 0, 0);
    forall j: nat ensures Bit(Part1by2(num), j) == Bit(m, j) {
      var q, r := j / 3, j % 3;
      assert j == 3 * q + r;
      Morton3Bits(num % Pow2(10), 0, 0, q, r);
      BitMod(num, 10, q);
      BitOfZero(q);
    }
    BitsEqual(Part1by2(num), m);
    Morton3Bound(num % Pow2(10), 0, 0, 10);
  }

  /** `unpart1by2` keeps the low 10 of the bits at multiples of three, so
      its result is below `2^10`. */
  lemma {:induction false} Unpart1by2Gathers(n: nat)
    ensures Unpart1by2(n) == EveryThirdBit(n) % 1024
    ensures Unpart1by2(n) < 1024
  {
    Pow2Values();
    Unpart1by2Bits(n);
    forall k: nat ensures Bit(Unpart1by2(n), k) == Bit(EveryThirdBit(n) % Pow2(10), k) {
      BitMod(EveryThirdBit(n), 10, k);
      EveryThirdBitBits(n, k);
    }
    BitsEqual(Unpart1by2(n), EveryThirdBit(n) % Pow2(10));
  }

  /** `unpart1by2` undoes `part1by2` on the low 10 bits. */
  lemma {:induction false} Unpart1by2Part1by2(x: nat)
    ensures Unpart1by2(Part1by2(x)) == x % 1024
    ensures x < 1024 ==> Unpart1by2(Part1by2(x)) == x
  {
    var low := x % 1024;
    var p := Part1by2(x);
    assert p == Morton3(low, 0, 0) by { Part1by2Morton(x); }
    assert EveryThirdBit(p) == low by { Morton3RoundTrip(low, 0, 0); }
    assert Unpart1by2(p) == EveryThirdBit(p) % 1024 by { Unpart1by2Gathers(p); }
    ModOfMod(x, 1024);
    if x < 1024 {
      DivModUnique(x, 1024, 0, x);
    }
  }

  // ---------------------------------------------------------------------
  // Three components, one window of 10 bits each.

  /** `interleave3`: the three spread windows, shifted by 0, 1 and 2. */
  function Interleave3(x: nat, y: nat, z: nat): nat
  {
    Or(Or(Part1by2(x), Shl(Part1by2(y), 1)), Shl(Part1by2(z), 2))
  }

  /** `deinterleave3`: the gathered windows at offsets 0, 1 and 2. */
  function Deinterleave3(n: nat): (nat, nat, nat)
  {
    (Unpart1by2(n), Unpart1by2(Shr(n, 1)), Unpart1by2(Shr(n, 2)))
  }

  /** Bit `3q + r` of `part1by2(x)` is bit `q` of the low 10 bits of `x`
      when `r == 0`, and clear otherwise. */
  lemma {:induction false} Part1by2BitAt(x: nat, q: nat, r: nat)
    requires r < 3
    ensures Bit(Part1by2(x), 3 * q + r) == (r == 0 && Bit(x % 1024, q))
  {
    Part1by2Bits(x);
    DivModUnique(3 * q + r, 3, q, r);
    Pow2Values();
    BitMod(x, 10, q);
  }

  /** A bit of `interleave3` comes from one of its three shifted parts. */
  lemma {:induction false} Interleave3BitParts(x: nat, y: nat, z: nat, j: nat)
    ensures Bit(Interleave3(x, y, z), j)
            == (Bit(Part1by2(x), j) || (j >= 1 && Bit(Part1by2(y), j - 1))
                || (j >= 2 && Bit(Part1by2(z), j - 2)))
  {
    BitOr(Or(Part1by2(x), Shl(Part1by2(y), 1)), Shl(Part1by2(z), 2), j);
    BitOr(Part1by2(x), Shl(Part1by2(y), 1), j);
    BitShl(Part1by2(y), 1, j);
    BitShl(Part1by2(z), 2, j);
  }

  lemma {:induction false} Interleave3Bit(x: nat, y: nat, z: nat, q: nat, r: nat)
    requires r < 3
    ensures Bit(Interleave3(x, y, z), 3 * q + r)
            == Bit(Morton3(x % 1024, y % 1024, z % 1024), 3 * q + r)
  {
    var j := 3 * q + r;
    Interleave3BitParts(x, y, z, j);
    Morton3Bits(x % 1024, y % 1024, z % 1024, q, r);
    Part1by2BitAt(x, q, r);
    if r == 0 {
      if q > 0 {
        Part1by2BitAt(y, q - 1, 2);
        Part1by2BitAt(z, q - 1, 1);
      }
    } else if r == 1 {
      Part1by2BitAt(y, q, 0);
      if q > 0 {
        Part1by2BitAt(z, q - 1, 2);
      }
    } else {
      Part1by2BitAt(y, q, 1);
      Part1by2BitAt(z, q, 0);
    }
  }

  /** `interleave3` is the three-way Morton code of the low 10 bits of each
      component, and so is below `2^30`. */
  lemma {:induction false} Interleave3Morton(x: nat, y: nat, z: nat)
    ensures Interleave3(x, y, z) == Morton3(x % 1024, y % 1024, z % 1024)
    ensures Interleave3(x, y, z) < 0x4000_0000
  {
    var m := Morton3(x % 1024, y % 1024, z % 1024);
    forall j: nat ensures Bit(Interleave3(x, y, z), j) == Bit(m, j) {
      var q, r := j / 3, j % 3;
      assert j == 3 * q + r;
      Interleave3Bit(x, y, z, q, r);
    }
    BitsEqual(Interleave3(x, y, z), m);
    Pow2Values();
    Morton3Bound(x % 1024, y % 1024, z % 1024, 10);
  }

  /** `deinterleave3` gathers the low 10 bits of each component. */
  lemma {:induction false} Deinterleave3Gathers(n: nat)
    ensures Deinterleave3(n)
            == (EveryThirdBit(n) % 1024, EveryThirdBit(n / 2) % 1024, EveryThirdBit(n / 4) % 1024)
  {
    ShrSmall(n);
    Unpart1by2Gathers(n);
    Unpart1by2Gathers(n / 2);
    Unpart1by2Gathers(n / 4);
  }

  /** `deinterleave3` undoes `interleave3` on the low 10 bits of each
      component. */
  lemma {:induction false} Deinterleave3Interleave3(x: nat, y: nat, z: nat)
    ensures Deinterleave3(Interleave3(x, y, z)) == (x % 1024, y % 1024, z % 1024)
    ensures x < 1024 && y < 1024 && z < 1024 ==> Deinterleave3(Interleave3(x, y, z)) == (x, y, z)
  {
    var n := Interleave3(x, y, z);
    assert n == Morton3(x % 1024, y % 1024, z % 1024) by { Interleave3Morton(x, y, z); }
    Deinterleave3Gathers(n);
    Morton3RoundTrip(x % 1024, y % 1024, z % 1024);
    ModOfMod(x, 1024);
    ModOfMod(y, 1024);
    ModOfMod(z, 1024);
    if x < 1024 && y < 1024 && z < 1024 {
      DivModUnique(x, 1024, 0, x);
      DivModUnique(y, 1024, 0, y);
      DivModUnique(z, 1024, 0, z);
    }
  }

  /** The three gathered components, interleaved again, give back bit
      `3q + r` of the code when it lies below bit 30. */
  lemma {:induction false} Regathered3Bit(n: nat, q: nat, r: nat)
    requires r < 3
    ensures Bit(Morton3(EveryThirdBit(n) % 1024, EveryThirdBit(n / 2) % 1024, EveryThirdBit(n / 4) % 1024), 3 * q + r)
            == (3 * q + r < 30 && Bit(n, 3 * q + r))
  {
    var x, y, z := EveryThirdBit(n), EveryThirdBit(n / 2), EveryThirdBit(n / 4);
    Morton3Bits(x % 1024, y % 1024, z % 1024, q, r);
    Morton3Bits(x, y, z, q, r);
    Morton3OfGatheredBit(n, q, r);
    Pow2Values();
    BitMod(x, 10, q);
    BitMod(y, 10, q);
    BitMod(z, 10, q);
  }

  /** `interleave3` undoes `deinterleave3` on the low 30 bits of a code. */
  lemma {:induction false} Interleave3Deinterleave3(n: nat)
    ensures Interleave3(Deinterleave3(n).0, Deinterleave3(n).1, Deinterleave3(n).2) == n % 0x4000_0000
  {
    Deinterleave3Gathers(n);
    var x, y, z := EveryThirdBit(n) % 1024, EveryThirdBit(n / 2) % 1024, EveryThirdBit(n / 4) % 1024;
    var m := Morton3(x, y, z);
    assert Interleave3(x, y, z) == m by {
      Interleave3Morton(x, y, z);
      ModOfMod(EveryThirdBit(n), 1024);
      ModOfMod(EveryThirdBit(n / 2), 1024);
      ModOfMod(EveryThirdBit(n / 4), 1024);
    }
    var low := n % Pow2(30);
    forall j: nat ensures Bit(m, j) == Bit(low, j) {
      var q, r := j / 3, j % 3;
      assert j == 3 * q + r;
      Regathered3Bit(n, q, r);
      BitMod(n, 30, j);
    }
    BitsEqual(m, low);
    Pow2Values();
  }

  /** Bit `2q + r` of `part1by1(x)` is bit `q` of the low 16 bits of `x`
      when `r == 0`, and clear otherwise. */
  lemma {:induction false} Part1by1BitAt(x: nat, q: nat, r: nat)
    requires r < 2
    ensures Bit(Part1by1(x), 2 * q + r) == (r == 0 && Bit(x % 0x10000, q))
  {
    Part1by1Bits(x);
    DivModUnique(2 * q + r, 2, q, r);
    Pow2Values();
    BitMod(x, 16, q);
  }

  /** `x & 0xFFFF` keeps the low 16 bits. */
  lemma {:induction false} LowHalfword(x: nat)
    ensures And(x, 0xFFFF) == x % 0x10000
  {
    Mask0000FFFF();
    Pow2Values();
    forall k: nat ensures Bit(And(x, 0xFFFF), k) == Bit(x % Pow2(16), k) {
      BitAnd(x, 0xFFFF, k);
      BitMod(x, 16, k);
    }
    BitsEqual(And(x, 0xFFFF), x % Pow2(16));
  }

  /** The 32-bit chunk that one round of `interleave2` produces is the
      two-way Morton code of the low 16 bits of both inputs. */
  lemma {:induction false} Interleave2Chunk(x: nat, y: nat)
    ensures Or(Part1by1(And(x, 0xFFFF)), Shl(Part1by1(And(y, 0xFFFF)), 1))
            == Morton2(x % 0x10000, y % 0x10000)
  {
    LowHalfword(x);
    LowHalfword(y);
    var a, b := x % 0x10000, y % 0x10000;
    var c := Or(Part1by1(a), Shl(Part1by1(b), 1));
    forall j: nat ensures Bit(c, j) == Bit(Morton2(a, b), j) {
      Interleave2ChunkBit(a, b, j);
    }
    BitsEqual(c, Morton2(a, b));
  }

  lemma {:induction false} Interleave2ChunkBit(a: nat, b: nat, j: nat)
    requires a < 0x10000 && b < 0x10000
    ensures Bit(Or(Part1by1(a), Shl(Part1by1(b), 1)), j) == Bit(Morton2(a, b), j)
  {
    ModBelow(a, 0x10000);
    ModBelow(b, 0x10000);
    var q, r := j / 2, j % 2;
    assert j == 2 * q + r;
    BitOr(Part1by1(a), Shl(Part1by1(b), 1), j);
    BitShl(Part1by1(b), 1, j);
    Morton2Bits(a, b, q, r);
    Part1by1BitAt(a, q, r);
    if r == 0 {
      if q > 0 {
        Part1by1BitAt(b, q - 1, 1);
      }
    } else {
      Part1by1BitAt(b, q, 0);
    }
  }

  /** Chunk `c` of 32 bits of a two-way Morton code is the Morton code of
      chunk `c` of 16 bits of each component. */
  lemma {:induction false} MortonChunkBit(x: nat, y: nat, c: nat, k: nat)
    ensures Bit(Morton2(Shr(x, 16 * c) % 0x10000, Shr(y, 16 * c) % 0x10000), k)
            == (k < 32 && Bit(Morton2(x, y), 32 * c + k))
  {
    var q, r := k / 2, k % 2;
    assert k == 2 * q + r;
    Pow2Values();
    Morton2Bits(Shr(x, 16 * c) % Pow2(16), Shr(y, 16 * c) % Pow2(16), q, r);
    assert 32 * c + k == 2 * (16 * c + q) + r;
    Morton2Bits(x, y, 16 * c + q, r);
    BitMod(Shr(x, 16 * c), 16, q);
    BitMod(Shr(y, 16 * c), 16, q);
    BitShr(x, 16 * c, q);
    BitShr(y, 16 * c, q);
  }

  /** One round of `interleave2` extends the low `32i` bits of the Morton
      code by the next 32. */
  lemma {:induction false} Interleave2Round(x: nat, y: nat, i: nat)
    ensures Or(Morton2(x, y) % Pow2(32 * i),
               Shl(Morton2(Shr(x, 16 * i) % 0x10000, Shr(y, 16 * i) % 0x10000), 32 * i))
            == Morton2(x, y) % Pow2(32 * (i + 1))
  {
    var m := Morton2(x, y);
    var p := 32 * i;
    assert 32 * (i + 1) == p + 32;
    var w := Morton2(Shr(x, 16 * i) % 0x10000, Shr(y, 16 * i) % 0x10000);
    var lhs := Or(m % Pow2(p), Shl(w, p));
    forall k: nat ensures Bit(lhs, k) == Bit(m % Pow2(p + 32), k) {
      BitOr(m % Pow2(p), Shl(w, p), k);
      BitMod(m, p, k);
      BitMod(m, p + 32, k);
      BitShl(w, p, k);
      if k >= p {
        MortonChunkBit(x, y, i, k - p);
      }
    }
    BitsEqual(lhs, m % Pow2(p + 32));
  }

  /** Shifting chunk `i` of `width` bits right by `width` gives chunk
      `i + 1`. */
  lemma {:induction false} NextChunk(n: nat, width: nat, i: nat)
    ensures Shr(Shr(n, width * i), width) == Shr(n, width * (i + 1))
  {
    ShrShr(n, width * i, width);
    assert width * i + width == width * (i + 1);
  }

  /** Shifting right by `s` and then by one is shifting `n / 2` by `s`. */
  lemma {:induction false} OddChunk(n: nat, s: nat)
    ensures Shr(Shr(n, s), 1) == Shr(n / 2, s)
  {
    ShrShr(n, s, 1);
    assert Shr(n, s + 1) == Shr(n / 2, s);
  }

  /** `interleave2`: 16 bits of each input at a time, for as many rounds as
      the longer input needs; the result is the two-way Morton code of the
      inputs, whatever their size. */
  method Interleave2(x0: nat, y0: nat) returns (ret: nat)
    ensures ret == Morton2(x0, y0)
    ensures ret < Pow2(2 * Max(BitLength(x0), BitLength(y0)))
  {
    var maxBits := Max(BitLength(x0), BitLength(y0));
    var iterations := (maxBits + 15) / 16;
    ret := 0;
    var x, y := x0, y0;
    for i := 0 to iterations
      invariant x == Shr(x0, 16 * i) && y == Shr(y0, 16 * i)
      invariant ret == Morton2(x0, y0) % Pow2(32 * i)
    {
      var interleaved := Or(Part1by1(And(x, 0xFFFF)), Shl(Part1by1(And(y, 0xFFFF)), 1));
      Interleave2Chunk(x, y);
      Interleave2Round(x0, y0, i);
      ret := Or(ret, Shl(interleaved, 32 * i));
      NextChunk(x0, 16, i);
      NextChunk(y0, 16, i);
      x := Shr(x, 16);
      y := Shr(y, 16);
    }
    Interleave2Exit(x0, y0, maxBits, iterations);
    Pow2Monotone(BitLength(x0), maxBits);
    Pow2Monotone(BitLength(y0), maxBits);
    Morton2Bound(x0, y0, maxBits);
  }

  /** After the last round every bit of the Morton code is in place. */
  lemma {:induction false} Interleave2Exit(x: nat, y: nat, maxBits: nat, iterations: nat)
    requires BitLength(x) <= maxBits && BitLength(y) <= maxBits
    requires iterations == (maxBits + 15) / 16
    ensures Morton2(x, y) % Pow2(32 * iterations) == Morton2(x, y)
  {
    assert maxBits + 15 == 16 * iterations + (maxBits + 15) % 16;
    var w := 16 * iterations;
    Pow2Monotone(BitLength(x), w);
    Pow2Monotone(BitLength(y), w);
    Morton2Bound(x, y, w);
    assert 2 * w == 32 * iterations;
    ModBelow(Morton2(x, y), Pow2(32 * iterations));
  }

  /** Bits of chunk `c` of 32 bits of `m`, gathered at even positions, are
      chunk `c` of 16 bits of the even-position bits of `m`. */
  lemma {:induction false} GatherChunkBit(m: nat, c: nat, q: nat)
    ensures Bit(EveryOtherBit(Shr(m, 32 * c)) % 0x10000, q)
            == (q < 16 && Bit(EveryOtherBit(m), 16 * c + q))
  {
    Pow2Values();
    BitMod(EveryOtherBit(Shr(m, 32 * c)), 16, q);
    EveryOtherBitBits(Shr(m, 32 * c), q);
    BitShr(m, 32 * c, 2 * q);
    EveryOtherBitBits(m, 16 * c + q);
    assert 32 * c + 2 * q == 2 * (16 * c + q);
  }

  /** One round of `deinterleave2` extends the low `16i` bits of a gathered
      component by the next 16. */
  lemma {:induction false} Deinterleave2Round(m: nat, i: nat)
    ensures Or(EveryOtherBit(m) % Pow2(16 * i), Shl(Unpart1by1(Shr(m, 32 * i)), 16 * i))
            == EveryOtherBit(m) % Pow2(16 * (i + 1))
  {
    var e := EveryOtherBit(m);
    var p := 16 * i;
    assert 16 * (i + 1) == p + 16;
    var u := Unpart1by1(Shr(m, 32 * i));
    Unpart1by1Gathers(Shr(m, 32 * i));
    var lhs := Or(e % Pow2(p), Shl(u, p));
    forall k: nat ensures Bit(lhs, k) == Bit(e % Pow2(p + 16), k) {
      BitOr(e % Pow2(p), Shl(u, p), k);
      BitMod(e, p, k);
      BitMod(e, p + 16, k);
      BitShl(u, p, k);
      if k >= p {
        GatherChunkBit(m, i, k - p);
      }
    }
    BitsEqual(lhs, e % Pow2(p + 16));
  }

  /** The even-position bits of `m` lie below `2^w` when `m` lies below
      `2^(2w)`. */
  lemma {:induction false} GatheredBound(m: nat, w: nat)
    requires m < Pow2(2 * w)
    ensures EveryOtherBit(m) < Pow2(w)
  {
    BitsAbove(m, 2 * w);
    forall k: nat | k >= w ensures !Bit(EveryOtherBit(m), k) {
      EveryOtherBitBits(m, k);
    }
    BitsAbove(EveryOtherBit(m), w);
  }

  /** After the last round both components are complete. */
  lemma {:induction false} Deinterleave2Exit(n: nat, iterations: nat)
    requires iterations == (BitLength(n) + 31) / 32
    ensures EveryOtherBit(n) % Pow2(16 * iterations) == EveryOtherBit(n)
    ensures EveryOtherBit(n / 2) % Pow2(16 * iterations) == EveryOtherBit(n / 2)
  {
    assert BitLength(n) + 31 == 32 * iterations + (BitLength(n) + 31) % 32;
    var w := 16 * iterations;
    Pow2Monotone(BitLength(n), 2 * w);
    assert n / 2 <= n;
    GatheredBound(n, w);
    GatheredBound(n / 2, w);
    ModBelow(EveryOtherBit(n), Pow2(w));
    ModBelow(EveryOtherBit(n / 2), Pow2(w));
  }

  /** `deinterleave2`: 32 bits of the code at a time, for as many rounds as
      the code needs; the results are the even-position and the odd-position
      bits of the code, whatever its size. */
  method Deinterleave2(n0: nat) returns (x: nat, y: nat)
    ensures x == EveryOtherBit(n0) && y == EveryOtherBit(n0 / 2)
  {
    var iterations := (BitLength(n0) + 31) / 32;
    x, y := 0, 0;
    var n := n0;
    for i := 0 to iterations
      invariant n == Shr(n0, 32 * i)
      invariant x == EveryOtherBit(n0) % Pow2(16 * i)
      invariant y == EveryOtherBit(n0 / 2) % Pow2(16 * i)
    {
      Deinterleave2Round(n0, i);
      OddChunk(n0, 32 * i);
      Deinterleave2Round(n0 / 2, i);
      x := Or(x, Shl(Unpart1by1(n), 16 * i));
      y := Or(y, Shl(Unpart1by1(Shr(n, 1)), 16 * i));
      NextChunk(n0, 32, i);
      n := Shr(n, 32);
    }
    Deinterleave2Exit(n0, iterations);
  }

  /** `deinterleave2` undoes `interleave2` for integers of any size. */
  method Interleave2RoundTrip(x: nat, y: nat) returns (x': nat, y': nat)
    ensures x' == x && y' == y
  {
    var n := Interleave2(x, y);
    x', y' := Deinterleave2(n);
    Morton2RoundTrip(x, y);
  }

  /** `interleave2` undoes `deinterleave2` for integers of any size. */
  method Deinterleave2RoundTrip(n: nat) returns (n': nat)
    ensures n' == n
  {
    var x, y := Deinterleave2(n);
    n' := Interleave2(x, y);
    Morton2OfGathered(n);
  }
}
