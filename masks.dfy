/** The bits of the hexadecimal mask literals of the spreading and gathering
    chains, and how each one fits the layout of the step that uses it. Each
    literal is recognised as a `RepeatingMask` by evaluation, four bits at a
    time. */
module Masks {
  import opened Bits
  import opened Blocks

  /** `0x0000FFFF`: the low 16 bits. */
  lemma {:induction false} Mask0000FFFF()
    ensures forall j: nat :: Bit(0x0000FFFF, j) == (j < 16)
    ensures MaskFits(0x0000FFFF, 2, 16, 16)
  {
    assert RepeatingMask(4, 1, 0, 12) == 0xF;
    assert RepeatingMask(8, 1, 0, 8) == 0xFF;
    assert RepeatingMask(12, 1, 0, 4) == 0xFFF;
    assert RepeatingMask(16, 1, 0, 0) == 0xFFFF;
    forall j: nat ensures Bit(0x0000FFFF, j) == (j < 16) {
      BitRepeatingMask(16, 1, 0, 0, j);
    }
    forall j: nat ensures (j % (2 * 16) < 16 && Source(j, 2, 16) < 16 ==> Bit(0x0000FFFF, j))
                          && (j % (2 * 16) >= 16 ==> !Bit(0x0000FFFF, j)) {
      SingleBlock(j, 2, 16);
    }
  }

  /** `0x000003FF`: the low 10 bits. */
  lemma {:induction false} Mask000003FF()
    ensures forall j: nat :: Bit(0x000003FF, j) == (j < 10)
    ensures MaskFits(0x000003FF, 3, 16, 10)
  {
    assert RepeatingMask(2, 1, 0, 8) == 3;
    assert RepeatingMask(6, 1, 0, 4) == 0x3F;
    assert RepeatingMask(10, 1, 0, 0) == 0x3FF;
    forall j: nat ensures Bit(0x000003FF, j) == (j < 10) {
      BitRepeatingMask(10, 1, 0, 0, j);
    }
    forall j: nat ensures (j % (3 * 16) < 16 && Source(j, 3, 16) < 10 ==> Bit(0x000003FF, j))
                          && (j % (3 * 16) >= 16 ==> !Bit(0x000003FF, j)) {
      SingleBlock(j, 3, 10);
    }
  }

  /** `0x00FF00FF`: bytes 0 and 2. */
  lemma {:induction false} Mask00FF00FF()
    ensures MaskFits(0x00FF00FF, 2, 8, 16)
  {
    assert RepeatingMask(4, 8, 8, 28) == 0;
    assert RepeatingMask(8, 8, 8, 24) == 0;
    assert RepeatingMask(12, 8, 8, 20) == 0xF;
    assert RepeatingMask(16, 8, 8, 16) == 0xFF;
    assert RepeatingMask(20, 8, 8, 12) == 0xFF0;
    assert RepeatingMask(24, 8, 8, 8) == 0xFF00;
    assert RepeatingMask(28, 8, 8, 4) == 0xFF00F;
    assert RepeatingMask(32, 8, 8, 0) == 0x00FF00FF;
    forall j: nat ensures (j % (2 * 8) < 8 && Source(j, 2, 8) < 16 ==> Bit(0x00FF00FF, j))
                          && (j % (2 * 8) >= 8 ==> !Bit(0x00FF00FF, j)) {
      BitRepeatingMask(32, 8, 8, 0, j);
    }
  }

  /** `0x0F0F0F0F`: the low nibble of every byte. */
  lemma {:induction false} Mask0F0F0F0F()
    ensures MaskFits(0x0F0F0F0F, 2, 4, 16)
  {
    assert RepeatingMask(4, 4, 4, 28) == 0;
    assert RepeatingMask(8, 4, 4, 24) == 0xF;
    assert RepeatingMask(12, 4, 4, 20) == 0xF0;
    assert RepeatingMask(16, 4, 4, 16) == 0xF0F;
    assert RepeatingMask(20, 4, 4, 12) == 0xF0F0;
    assert RepeatingMask(24, 4, 4, 8) == 0xF0F0F;
    assert RepeatingMask(28, 4, 4, 4) == 0xF0F0F0;
    assert RepeatingMask(32, 4, 4, 0) == 0x0F0F0F0F;
    forall j: nat ensures (j % (2 * 4) < 4 && Source(j, 2, 4) < 16 ==> Bit(0x0F0F0F0F, j))
                          && (j % (2 * 4) >= 4 ==> !Bit(0x0F0F0F0F, j)) {
      BitRepeatingMask(32, 4, 4, 0, j);
    }
  }

  /** `0x33333333`: two bits on, two off. */
  lemma {:induction false} Mask33333333()
    ensures MaskFits(0x33333333, 2, 2, 16)
  {
    assert RepeatingMask(4, 2, 2, 28) == 3;
    assert RepeatingMask(8, 2, 2, 24) == 0x33;
    assert RepeatingMask(12, 2, 2, 20) == 0x333;
    assert RepeatingMask(16, 2, 2, 16) == 0x3333;
    assert RepeatingMask(20, 2, 2, 12) == 0x33333;
    assert RepeatingMask(24, 2, 2, 8) == 0x333333;
    assert RepeatingMask(28, 2, 2, 4) == 0x3333333;
    assert RepeatingMask(32, 2, 2, 0) == 0x33333333;
    forall j: nat ensures (j % (2 * 2) < 2 && Source(j, 2, 2) < 16 ==> Bit(0x33333333, j))
                          && (j % (2 * 2) >= 2 ==> !Bit(0x33333333, j)) {
      BitRepeatingMask(32, 2, 2, 0, j);
    }
  }

  /** `0x55555555`: the even bits below 32. */
  lemma {:induction false} Mask55555555()
    ensures forall j: nat :: Bit(0x55555555, j) == (j < 32 && j % 2 == 0)
    ensures MaskFits(0x55555555, 2, 1, 16)
  {
    assert RepeatingMask(4, 1, 1, 28) == 5;
    assert RepeatingMask(8, 1, 1, 24) == 0x55;
    assert RepeatingMask(12, 1, 1, 20) == 0x555;
    assert RepeatingMask(16, 1, 1, 16) == 0x5555;
    assert RepeatingMask(20, 1, 1, 12) == 0x55555;
    assert RepeatingMask(24, 1, 1, 8) == 0x555555;
    assert RepeatingMask(28, 1, 1, 4) == 0x5555555;
    assert RepeatingMask(32, 1, 1, 0) == 0x55555555;
    forall j: nat ensures Bit(0x55555555, j) == (j < 32 && j % 2 == 0) {
      BitRepeatingMask(32, 1, 1, 0, j);
    }
  }

  /** `0xFF0000FF`: bytes 0 and 3. */
  lemma {:induction false} MaskFF0000FF()
    ensures MaskFits(0xFF0000FF, 3, 8, 10)
  {
    assert RepeatingMask(4, 8, 16, 28) == 0xF;
    assert RepeatingMask(8, 8, 16, 24) == 0xFF;
    assert RepeatingMask(12, 8, 16, 20) == 0xFF0;
    assert RepeatingMask(16, 8, 16, 16) == 0xFF00;
    assert RepeatingMask(20, 8, 16, 12) == 0xFF000;
    assert RepeatingMask(24, 8, 16, 8) == 0xFF0000;
    assert RepeatingMask(28, 8, 16, 4) == 0xFF0000F;
    assert RepeatingMask(32, 8, 16, 0) == 0xFF0000FF;
    forall j: nat ensures (j % (3 * 8) < 8 && Source(j, 3, 8) < 10 ==> Bit(0xFF0000FF, j))
                          && (j % (3 * 8) >= 8 ==> !Bit(0xFF0000FF, j)) {
      BitRepeatingMask(32, 8, 16, 0, j);
    }
  }

  /** `0x0300F00F`: four bits on, eight off, 26 bits long. */
  lemma {:induction false} Mask0300F00F()
    ensures MaskFits(0x0300F00F, 3, 4, 10)
  {
    assert RepeatingMask(2, 4, 8, 24) == 3;
    assert RepeatingMask(6, 4, 8, 20) == 0x30;
    assert RepeatingMask(10, 4, 8, 16) == 0x300;
    assert RepeatingMask(14, 4, 8, 12) == 0x300F;
    assert RepeatingMask(18, 4, 8, 8) == 0x300F0;
    assert RepeatingMask(22, 4, 8, 4) == 0x300F00;
    assert RepeatingMask(26, 4, 8, 0) == 0x0300F00F;
    forall j: nat ensures (j % (3 * 4) < 4 && Source(j, 3, 4) < 10 ==> Bit(0x0300F00F, j))
                          && (j % (3 * 4) >= 4 ==> !Bit(0x0300F00F, j)) {
      BitRepeatingMask(26, 4, 8, 0, j);
    }
  }

  /** `0x030C30C3`: two bits on, four off, 26 bits long. */
  lemma {:induction false} Mask030C30C3()
    ensures MaskFits(0x030C30C3, 3, 2, 10)
  {
    assert RepeatingMask(2, 2, 4, 24) == 3;
    assert RepeatingMask(6, 2, 4, 20) == 0x30;
    assert RepeatingMask(10, 2, 4, 16) == 0x30C;
    assert RepeatingMask(14, 2, 4, 12) == 0x30C3;
    assert RepeatingMask(18, 2, 4, 8) == 0x30C30;
    assert RepeatingMask(22, 2, 4, 4) == 0x30C30C;
    assert RepeatingMask(26, 2, 4, 0) == 0x030C30C3;
    forall j: nat ensures (j % (3 * 2) < 2 && Source(j, 3, 2) < 10 ==> Bit(0x030C30C3, j))
                          && (j % (3 * 2) >= 2 ==> !Bit(0x030C30C3, j)) {
      BitRepeatingMask(26, 2, 4, 0, j);
    }
  }

  /** `0x09249249`: every third bit below 28. */
  lemma {:induction false} Mask09249249()
    ensures forall j: nat :: Bit(0x09249249, j) == (j < 28 && j % 3 == 0)
    ensures MaskFits(0x09249249, 3, 1, 10)
  {
    assert RepeatingMask(4, 1, 2, 24) == 9;
    assert RepeatingMask(8, 1, 2, 20) == 0x92;
    assert RepeatingMask(12, 1, 2, 16) == 0x924;
    assert RepeatingMask(16, 1, 2, 12) == 0x9249;
    assert RepeatingMask(20, 1, 2, 8) == 0x92492;
    assert RepeatingMask(24, 1, 2, 4) == 0x924924;
    assert RepeatingMask(28, 1, 2, 0) == 0x09249249;
    forall j: nat ensures Bit(0x09249249, j) == (j < 28 && j % 3 == 0) {
      BitRepeatingMask(28, 1, 2, 0, j);
    }
  }
}
