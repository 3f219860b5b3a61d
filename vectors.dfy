/** The values the repository's unit tests expect, derived from the
    reference codes. `interleave2` equals `Morton2` on all inputs (its
    method contract), so these are the values it returns. */
module Vectors {
  import opened ZOrder
  import opened Bits
  import opened Interleave
  import opened AlternativeInterleave

  /** The two-way codes that `interleave2` is expected to produce for inputs of 8 and 16 bits: `y` goes to the odd positions. */
  lemma {:induction false} Interleave2Vectors()
    ensures Morton2(0x00, 0xFF) == 0xAAAA
    ensures Morton2(0x0000, 0xFFFF) == 0xAAAA_AAAA
  {
    assert Morton2(0x0, 0x1) == 0x2;
    assert Morton2(0x0, 0x3) == 0xA;
    assert Morton2(0x0, 0x7) == 0x2A;
    assert Morton2(0x0, 0xF) == 0xAA;
    assert Morton2(0x0, 0x1F) == 0x2AA;
    assert Morton2(0x0, 0x3F) == 0xAAA;
    assert Morton2(0x0, 0x7F) == 0x2AAA;
    assert Morton2(0x0, 0xFF) == 0xAAAA;
    assert Morton2(0x0, 0x1FF) == 0x2AAAA;
    assert Morton2(0x0, 0x3FF) == 0xAAAAA;
    assert Morton2(0x0, 0x7FF) == 0x2AAAAA;
    assert Morton2(0x0, 0xFFF) == 0xAAAAAA;
    assert Morton2(0x0, 0x1FFF) == 0x2AAAAAA;
    assert Morton2(0x0, 0x3FFF) == 0xAAAAAAA;
    assert Morton2(0x0, 0x7FFF) == 0x2AAAAAAA;
    assert Morton2(0x0, 0xFFFF) == 0xAAAAAAAA;
  }

  /** Inputs wider than 16 bits are interleaved in full. */
  lemma {:induction false} Interleave2WideVector()
    ensures Morton2(0xFFFF_FFFF, 0xFFFF_FFFF) == 0xFFFF_FFFF_FFFF_FFFF
  {
    assert Morton2(0x1, 0x1) == 0x3;
    assert Morton2(0x3, 0x3) == 0xF;
    assert Morton2(0x7, 0x7) == 0x3F;
    assert Morton2(0xF, 0xF) == 0xFF;
    assert Morton2(0x1F, 0x1F) == 0x3FF;
    assert Morton2(0x3F, 0x3F) == 0xFFF;
    assert Morton2(0x7F, 0x7F) == 0x3FFF;
    assert Morton2(0xFF, 0xFF) == 0xFFFF;
    assert Morton2(0x1FF, 0x1FF) == 0x3FFFF;
    assert Morton2(0x3FF, 0x3FF) == 0xFFFFF;
    assert Morton2(0x7FF, 0x7FF) == 0x3FFFFF;
    assert Morton2(0xFFF, 0xFFF) == 0xFFFFFF;
    assert Morton2(0x1FFF, 0x1FFF) == 0x3FFFFFF;
    assert Morton2(0x3FFF, 0x3FFF) == 0xFFFFFFF;
    assert Morton2(0x7FFF, 0x7FFF) == 0x3FFFFFFF;
    assert Morton2(0xFFFF, 0xFFFF) == 0xFFFFFFFF;
    assert Morton2(0x1FFFF, 0x1FFFF) == 0x3FFFFFFFF;
    assert Morton2(0x3FFFF, 0x3FFFF) == 0xFFFFFFFFF;
    assert Morton2(0x7FFFF, 0x7FFFF) == 0x3FFFFFFFFF;
    assert Morton2(0xFFFFF, 0xFFFFF) == 0xFFFFFFFFFF;
    assert Morton2(0x1FFFFF, 0x1FFFFF) == 0x3FFFFFFFFFF;
    assert Morton2(0x3FFFFF, 0x3FFFFF) == 0xFFFFFFFFFFF;
    assert Morton2(0x7FFFFF, 0x7FFFFF) == 0x3FFFFFFFFFFF;
    assert Morton2(0xFFFFFF, 0xFFFFFF) == 0xFFFFFFFFFFFF;
    assert Morton2(0x1FFFFFF, 0x1FFFFFF) == 0x3FFFFFFFFFFFF;
    assert Morton2(0x3FFFFFF, 0x3FFFFFF) == 0xFFFFFFFFFFFFF;
    assert Morton2(0x7FFFFFF, 0x7FFFFFF) == 0x3FFFFFFFFFFFFF;
    assert Morton2(0xFFFFFFF, 0xFFFFFFF) == 0xFFFFFFFFFFFFFF;
    assert Morton2(0x1FFFFFFF, 0x1FFFFFFF) == 0x3FFFFFFFFFFFFFF;
    assert Morton2(0x3FFFFFFF, 0x3FFFFFFF) == 0xFFFFFFFFFFFFFFF;
    assert Morton2(0x7FFFFFFF, 0x7FFFFFFF) == 0x3FFFFFFFFFFFFFFF;
    assert Morton2(0xFFFFFFFF, 0xFFFFFFFF) == 0xFFFFFFFFFFFFFFFF;
  }

  /** Inputs of different lengths are not packed together: the shorter one is padded with zeros. */
  lemma {:induction false} Interleave2UnevenVector()
    ensures Morton2(0xF, 0xFF) == 0xAAFF
    ensures Morton2(0xF, 0xFF) != 0xFFF
  {
    assert Morton2(0x0, 0x1) == 0x2;
    assert Morton2(0x0, 0x3) == 0xA;
    assert Morton2(0x0, 0x7) == 0x2A;
    assert Morton2(0x0, 0xF) == 0xAA;
    assert Morton2(0x1, 0x1F) == 0x2AB;
    assert Morton2(0x3, 0x3F) == 0xAAF;
    assert Morton2(0x7, 0x7F) == 0x2ABF;
    assert Morton2(0xF, 0xFF) == 0xAAFF;
  }

  /** The three-way codes expected of `interleave3` for (0, 0xFF, 0) and, once cut to 10 bits, for (0, 0xFFFF, 0). */
  lemma {:induction false} Morton3Vectors()
    ensures Morton3(0x00, 0xFF, 0x00) == 0x49_2492
    ensures Morton3(0x000, 0x3FF, 0x000) == 0x1249_2492
  {
    assert Morton3(0x0, 0x1, 0x0) == 0x2;
    assert Morton3(0x0, 0x3, 0x0) == 0x12;
    assert Morton3(0x0, 0x7, 0x0) == 0x92;
    assert Morton3(0x0, 0xF, 0x0) == 0x492;
    assert Morton3(0x0, 0x1F, 0x0) == 0x2492;
    assert Morton3(0x0, 0x3F, 0x0) == 0x12492;
    assert Morton3(0x0, 0x7F, 0x0) == 0x92492;
    assert Morton3(0x0, 0xFF, 0x0) == 0x492492;
    assert Morton3(0x0, 0x1FF, 0x0) == 0x2492492;
    assert Morton3(0x0, 0x3FF, 0x0) == 0x12492492;
  }

  /** The four-way code expected of `interleave4_with_loop` for (3, 9, 7, 8). */
  lemma {:induction false} Morton4Vector()
    ensures Morton4(3, 9, 7, 8) == 0xA457
  {
    assert Morton4(0x0, 0x1, 0x0, 0x1) == 0xA;
    assert Morton4(0x0, 0x2, 0x1, 0x2) == 0xA4;
    assert Morton4(0x1, 0x4, 0x3, 0x4) == 0xA45;
    assert Morton4(0x3, 0x9, 0x7, 0x8) == 0xA457;
  }

  /** `interleave3` on the first test input. (The inputs are parameters so
      that the verifier does not try to evaluate the mask chain on
      literals.) */
  lemma {:induction false} Interleave3Vector8(x: nat, y: nat, z: nat)
    requires x == 0 && y == 0xFF && z == 0
    ensures Interleave3(x, y, z) == 0x49_2492
  {
    assert Morton3(x % 1024, y % 1024, z % 1024) == 0x49_2492 by {
      DivModUnique(x, 1024, 0, 0);
      DivModUnique(y, 1024, 0, 0xFF);
      DivModUnique(z, 1024, 0, 0);
      Morton3Vectors();
    }
    Interleave3Morton(x, y, z);
  }

  /** `interleave3` on the second test input: the 16-bit input is cut to
      its low 10 bits. */
  lemma {:induction false} Interleave3Vector16(x: nat, y: nat, z: nat)
    requires x == 0 && y == 0xFFFF && z == 0
    ensures Interleave3(x, y, z) == 0x1249_2492
  {
    assert Morton3(x % 1024, y % 1024, z % 1024) == 0x1249_2492 by {
      DivModUnique(x, 1024, 0, 0);
      DivModUnique(y, 1024, 63, 0x3FF);
      DivModUnique(z, 1024, 0, 0);
      Morton3Vectors();
    }
    Interleave3Morton(x, y, z);
  }

  /** The loop and slicing variants agree with `interleave2` on 16-bit
      inputs. */
  method Interleave2VariantsAgree(x: nat, y: nat) returns (codec: nat, loop: nat, slicing: Option<nat>)
    requires x < Pow2(16) && y < Pow2(16)
    ensures loop == codec && slicing == Some(codec)
  {
    codec := Interleave2(x, y);
    loop := Interleave2WithLoop(x, y);
    slicing := Interleave2WithSlicing(x, y);
  }

  /** The loop variant agrees with `interleave3` on inputs of 10 bits, the
      width `interleave3` keeps. */
  method Interleave3VariantsAgree(x: nat, y: nat, z: nat) returns (codec: nat, loop: nat)
    requires x < 1024 && y < 1024 && z < 1024
    ensures loop == codec
  {
    Pow2Values();
    Pow2Monotone(10, 16);
    codec := Interleave3(x, y, z);
    loop := Interleave3WithLoop(x, y, z);
    Interleave3Morton(x, y, z);
    ModBelow(x, 1024);
    ModBelow(y, 1024);
    ModBelow(z, 1024);
  }

  /** `interleave4_with_loop(3, 9, 7, 8)` is `0xA457`. */
  method Interleave4LoopVector() returns (r: nat)
    ensures r == 0xA457
  {
    Pow2Values();
    r := Interleave4WithLoop(3, 9, 7, 8);
    Morton4Vector();
  }

  /** `deinterleave2(interleave2(4, 42)) == (4, 42)`. */
  method Interleave2Idempotency() returns (x: nat, y: nat)
    ensures x == 4 && y == 42
  {
    x, y := Interleave2RoundTrip(4, 42);
  }
}
