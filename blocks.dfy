/** The intermediate layouts of the shift-and-mask spreading and gathering
    chains. Between two steps the value being spread holds the low `width`
    bits of a window cut into blocks of `b` bits, one block at the start of
    every period of `arity * b` bits. A spreading step halves the block size,
    a gathering step doubles it. */
module Blocks {
  import opened Bits

  /** The window bit that a layout with blocks of `b`, one every
      `arity * b` bits, stores at position `j` (if `j` lies in a block). */
  function Source(j: nat, arity: nat, b: nat): nat
    requires arity > 0 && b > 0
  {
    (j / (arity * b)) * b + j % b
  }

  /** `n` holds the low `width` bits of `window` in blocks of `b` bits, one
      every `arity * b` bits, and nothing else. */
  ghost predicate Layout(n: nat, window: nat, arity: nat, b: nat, width: nat)
    requires arity > 0 && b > 0
  {
    forall j: nat :: Bit(n, j) == (j % (arity * b) < b && Source(j, arity, b) < width
                                   && Bit(window, Source(j, arity, b)))
  }

  /** `mask` keeps every position of such a layout that can hold a window
      bit, and clears every position outside the blocks. */
  ghost predicate MaskFits(mask: nat, arity: nat, b: nat, width: nat)
    requires arity > 0 && b > 0
  {
    forall j: nat ::
      (j % (arity * b) < b && Source(j, arity, b) < width ==> Bit(mask, j))
      && (j % (arity * b) >= b ==> !Bit(mask, j))
  }

  /** A whole spreading step, at every position. */
  lemma {:induction false} SpreadStep(n: nat, window: nat, arity: nat, b: nat, width: nat, mask: nat)
    requires arity >= 2 && b >= 1
    requires Layout(n, window, arity, 2 * b, width)
    requires MaskFits(mask, arity, b, width)
    ensures Layout(And(Or(n, Shl(n, (arity - 1) * b)), mask), window, arity, b, width)
    ensures Layout(And(Xor(n, Shl(n, (arity - 1) * b)), mask), window, arity, b, width)
  {
    forall j: nat
      ensures Bit(And(Or(n, Shl(n, (arity - 1) * b)), mask), j)
              == (j % (arity * b) < b && Source(j, arity, b) < width && Bit(window, Source(j, arity, b)))
      ensures Bit(And(Xor(n, Shl(n, (arity - 1) * b)), mask), j)
              == (j % (arity * b) < b && Source(j, arity, b) < width && Bit(window, Source(j, arity, b)))
    {
      SpreadStepBit(n, window, arity, b, width, mask, j);
    }
  }

  /** A whole gathering step, at every position. */
  lemma {:induction false} GatherStep(n: nat, window: nat, arity: nat, b: nat, width: nat, mask: nat)
    requires arity >= 2 && b >= 1
    requires Layout(n, window, arity, b, width)
    requires MaskFits(mask, arity, 2 * b, width)
    ensures Layout(And(Xor(n, Shr(n, (arity - 1) * b)), mask), window, arity, 2 * b, width)
  {
    forall j: nat
      ensures Bit(And(Xor(n, Shr(n, (arity - 1) * b)), mask), j)
              == (j % (arity * (2 * b)) < 2 * b && Source(j, arity, 2 * b) < width
                  && Bit(window, Source(j, arity, 2 * b)))
    {
      GatherStepBit(n, window, arity, b, width, mask, j);
    }
  }

  /** With blocks of 16 bits and a window of at most 16 bits, the layout is
      the window itself: a single block at position 0. */
  lemma {:induction false} SingleBlock(j: nat, arity: nat, width: nat)
    requires arity >= 1 && width <= 16
    ensures (j % (arity * 16) < 16 && Source(j, arity, 16) < width) == (j < width)
    ensures j < width ==> Source(j, arity, 16) == j
  {
    var d := arity * 16;
    assert d >= 16;
    if j < d {
      DivModUnique(j, d, 0, j);
      if j < 16 {
        DivModUnique(j, 16, 0, j);
      }
    } else {
      assert j / d >= 1;
    }
  }

  /** The window masked to its low `width` bits is in the single-block
      layout. */
  lemma {:induction false} WindowLayout(num: nat, arity: nat, width: nat, mask: nat)
    requires arity >= 1 && width <= 16
    requires forall j: nat :: Bit(mask, j) == (j < width)
    ensures Layout(And(num, mask), num, arity, 16, width)
  {
    forall j: nat
      ensures Bit(And(num, mask), j)
              == (j % (arity * 16) < 16 && Source(j, arity, 16) < width && Bit(num, Source(j, arity, 16)))
    {
      BitAnd(num, mask, j);
      SingleBlock(j, arity, width);
    }
  }

  /** A single-block layout holds exactly the low `width` bits of the
      window. */
  lemma {:induction false} LayoutSingleBlock(n: nat, window: nat, arity: nat, width: nat)
    requires arity >= 1 && width <= 16
    requires Layout(n, window, arity, 16, width)
    ensures forall j: nat :: Bit(n, j) == (j < width && Bit(window, j))
  {
    forall j: nat ensures Bit(n, j) == (j < width && Bit(window, j)) {
      SingleBlock(j, arity, width);
    }
  }

  /** One spreading step: `(n | (n << s)) & mask`, or the same with `^`,
      where `s = (arity - 1) * b`, turns blocks of `2b` bits into blocks of
      `b` bits. At every kept position at most one of `n` and `n << s` has
      a bit set, so `|` and `^` agree. */
  lemma {:induction false} SpreadStepBit(n: nat, window: nat, arity: nat, b: nat, width: nat, mask: nat, j: nat)
    requires arity >= 2 && b >= 1
    requires Layout(n, window, arity, 2 * b, width)
    requires MaskFits(mask, arity, b, width)
    ensures Bit(And(Or(n, Shl(n, (arity - 1) * b)), mask), j)
            == (j % (arity * b) < b && Source(j, arity, b) < width && Bit(window, Source(j, arity, b)))
    ensures Bit(And(Xor(n, Shl(n, (arity - 1) * b)), mask), j)
            == (j % (arity * b) < b && Source(j, arity, b) < width && Bit(window, Source(j, arity, b)))
  {
    var s := (arity - 1) * b;
    var shifted := Shl(n, s);
    BitAnd(Or(n, shifted), mask, j);
    BitAnd(Xor(n, shifted), mask, j);
    BitOr(n, shifted, j);
    BitXor(n, shifted, j);
    BitShl(n, s, j);
    if j % (arity * b) < b {
      SpreadArith(arity, b, j);
      if (j / (arity * b)) % 2 == 0 {
        if j >= s {
          assert !Bit(n, j - s);
        }
      } else {
        assert !Bit(n, j);
      }
    }
  }

  /** Where a position `j` inside a block of the finer layout comes from in
      the coarser one: from `j` itself in an even period, from `j - s` in an
      odd one. */
  lemma {:induction false} SpreadArith(arity: nat, b: nat, j: nat)
    requires arity >= 2 && b >= 1 && j % (arity * b) < b
    ensures var s := (arity - 1) * b;
      (j / (arity * b)) % 2 == 0 ==>
        j % (arity * (2 * b)) < 2 * b && Source(j, arity, 2 * b) == Source(j, arity, b)
        && (j >= s ==> (j - s) % (arity * (2 * b)) >= 2 * b)
    ensures var s := (arity - 1) * b;
      (j / (arity * b)) % 2 == 1 ==>
        j % (arity * (2 * b)) >= 2 * b && j >= s
        && (j - s) % (arity * (2 * b)) < 2 * b && Source(j - s, arity, 2 * b) == Source(j, arity, b)
  {
    var d := arity * b;
    MulAtLeast(d, 1);
    DivOfNat(j, d);
    var u, r := j / d, j % d;
    DivModTimes(j, arity, b, u, r);
    if u % 2 == 0 {
      SpreadArithEven(arity, b, j, u / 2, r);
    } else {
      SpreadArithOdd(arity, b, j, u / 2, r);
    }
  }

  lemma {:induction false} SpreadArithEven(arity: nat, b: nat, j: nat, t: nat, r: nat)
    requires arity >= 2 && b >= 1 && r < b && j == arity * b * (2 * t) + r
    ensures j % (arity * (2 * b)) < 2 * b
    ensures Source(j, arity, 2 * b) == (2 * t) * b + r
    ensures j >= (arity - 1) * b ==> (j - (arity - 1) * b) % (arity * (2 * b)) >= 2 * b
  {
    DivModTimes(j, arity, 2 * b, t, r);
    assert t * (2 * b) == (2 * t) * b;
    if j >= (arity - 1) * b {
      SpreadArithEvenShifted(arity, b, j, t, r);
    }
  }



  lemma {:induction false} SpreadArithEvenShifted(arity: nat, b: nat, j: nat, t: nat, r: nat)
    requires arity >= 2 && b >= 1 && r < b && j == arity * b * (2 * t) + r
    requires j >= (arity - 1) * b
    ensures (j - (arity - 1) * b) % (arity * (2 * b)) >= 2 * b
  {
    var p, s := arity * b, (arity - 1) * b;
    assert s == p - b && p >= 2 * b;
    assert j - r == arity * b * (2 * t) && j - r > 0;
    assert t >= 1;
    assert j - s == arity * (2 * b) * (t - 1) + (p + b + r) by {
      assert arity * (2 * b) * t == arity * (2 * b) * (t - 1) + 2 * p;
    }
    DivModUnique(j - s, arity * (2 * b), t - 1, p + b + r);
  }

  lemma {:induction false} SpreadArithOdd(arity: nat, b: nat, j: nat, t: nat, r: nat)
    requires arity >= 2 && b >= 1 && r < b && j == arity * b * (2 * t + 1) + r
    ensures j % (arity * (2 * b)) >= 2 * b && j >= (arity - 1) * b
    ensures (j - (arity - 1) * b) % (arity * (2 * b)) < 2 * b
    ensures Source(j - (arity - 1) * b, arity, 2 * b) == (2 * t + 1) * b + r
  {
    var p := arity * b;
    assert p >= 2 * b && arity * (2 * b) == 2 * p;
    assert j == arity * (2 * b) * t + (p + r);
    DivModUnique(j, arity * (2 * b), t, p + r);
    assert j - (arity - 1) * b == arity * (2 * b) * t + (b + r);
    DivModTimes(j - (arity - 1) * b, arity, 2 * b, t, b + r);
    assert t * (2 * b) + b == (2 * t + 1) * b;
  }

  /** One gathering step: `(n ^ (n >> s)) & mask`, where
      `s = (arity - 1) * b`, turns blocks of `b` bits into blocks of `2b`
      bits; the inverse of a spreading step. */
  lemma {:induction false} GatherStepBit(n: nat, window: nat, arity: nat, b: nat, width: nat, mask: nat, j: nat)
    requires arity >= 2 && b >= 1
    requires Layout(n, window, arity, b, width)
    requires MaskFits(mask, arity, 2 * b, width)
    ensures Bit(And(Xor(n, Shr(n, (arity - 1) * b)), mask), j)
            == (j % (arity * (2 * b)) < 2 * b && Source(j, arity, 2 * b) < width
                && Bit(window, Source(j, arity, 2 * b)))
  {
    var s := (arity - 1) * b;
    MulAtLeast(arity * (2 * b), 1);
    var shifted := Shr(n, s);
    BitAnd(Xor(n, shifted), mask, j);
    BitXor(n, shifted, j);
    BitShr(n, s, j);
    if j % (arity * (2 * b)) < 2 * b {
      GatherArith(arity, b, j);
    }
  }

  /** Where a position `j` inside a block of the coarser layout comes from in
      the finer one: from `j` itself in the lower half of the block, from
      `j + s` in the upper half. */
  lemma {:induction false} GatherArith(arity: nat, b: nat, j: nat)
    requires arity >= 2 && b >= 1 && j % (arity * (2 * b)) < 2 * b
    ensures var s := (arity - 1) * b;
      j % (arity * (2 * b)) < b ==>
        j % (arity * b) < b && Source(j, arity, b) == Source(j, arity, 2 * b)
        && (s + j) % (arity * b) >= b
    ensures var s := (arity - 1) * b;
      j % (arity * (2 * b)) >= b ==>
        j % (arity * b) >= b && (s + j) % (arity * b) < b
        && Source(s + j, arity, b) == Source(j, arity, 2 * b)
  {
    var d := arity * (2 * b);
    MulAtLeast(d, 1);
    DivOfNat(j, d);
    var t, r := j / d, j % d;
    if r < b {
      GatherArithLow(arity, b, j, t, r);
    } else {
      GatherArithHigh(arity, b, j, t, r);
    }
  }

  lemma {:induction false} GatherArithLow(arity: nat, b: nat, j: nat, t: nat, r: nat)
    requires arity >= 2 && b >= 1 && r < b && j == arity * (2 * b) * t + r
    ensures j % (arity * b) < b && Source(j, arity, b) == Source(j, arity, 2 * b)
    ensures ((arity - 1) * b + j) % (arity * b) >= b
  {
    SourceAt(j, arity, 2 * b, t, r);
    LowHalfShift(arity, b, j, t, r);
    SourceAt(j, arity, b, 2 * t, r);
    DoubleTimes(t, b);
  }

  /** Shifting a position in the lower half of a block of `2b` bits by
      `(arity - 1) * b` lands outside the blocks of `b` bits. */
  lemma {:induction false} LowHalfShift(arity: nat, b: nat, j: nat, t: nat, r: nat)
    requires arity >= 2 && b >= 1 && r < b && j == arity * (2 * b) * t + r
    ensures j == arity * b * (2 * t) + r && j % (arity * b) == r
    ensures ((arity - 1) * b + j) % (arity * b) == arity * b - b + r >= b
  {
    var p := arity * b;
    assert j == p * (2 * t) + r by {
      assert arity * (2 * b) * t == p * (2 * t);
    }
    assert p >= 2 * b by {
      assert p == 2 * b + (arity - 2) * b;
    }
    DivModUnique(j, p, 2 * t, r);
    assert (arity - 1) * b + j == p * (2 * t) + (p - b + r) by {
      assert (arity - 1) * b == p - b;
    }
    DivModUnique((arity - 1) * b + j, p, 2 * t, p - b + r);
  }

  lemma {:induction false} GatherArithHigh(arity: nat, b: nat, j: nat, t: nat, r: nat)
    requires arity >= 2 && b <= r < 2 * b && j == arity * (2 * b) * t + r
    ensures j % (arity * b) >= b && ((arity - 1) * b + j) % (arity * b) < b
    ensures Source((arity - 1) * b + j, arity, b) == Source(j, arity, 2 * b)
  {
    SourceAt(j, arity, 2 * b, t, r);
    var k := (arity - 1) * b + j;
    HighHalfShift(arity, b, j, t, r);
    SourceAt(k, arity, b, 2 * t + 1, r - b);
    DoubleTimes(t, b);
  }

  lemma {:induction false} DoubleTimes(t: nat, b: nat)
    ensures (2 * t) * b == t * (2 * b) && (2 * t + 1) * b == t * (2 * b) + b
  {
  }

  /** A position written as block index and offset has that source bit. */
  lemma {:induction false} SourceAt(j: nat, arity: nat, b: nat, t: nat, r: nat)
    requires arity >= 1 && b >= 1 && r < b && j == arity * b * t + r
    ensures Source(j, arity, b) == t * b + r
  {
    DivModTimes(j, arity, b, t, r);
  }

  /** Shifting a position in the upper half of a block of `2b` bits by
      `(arity - 1) * b` lands in the lower half of a block of `b` bits. */
  lemma {:induction false} HighHalfShift(arity: nat, b: nat, j: nat, t: nat, r: nat)
    requires arity >= 2 && b <= r < 2 * b && j == arity * (2 * b) * t + r
    ensures j % (arity * b) == r
    ensures (arity - 1) * b + j == arity * b * (2 * t + 1) + (r - b)
    ensures ((arity - 1) * b + j) % (arity * b) == r - b
  {
    var p := arity * b;
    assert j == p * (2 * t) + r by {
      assert arity * (2 * b) * t == p * (2 * t);
    }
    assert p >= 2 * b by {
      assert p == 2 * b + (arity - 2) * b;
    }
    DivModUnique(j, p, 2 * t, r);
    assert (arity - 1) * b + j == p * (2 * t + 1) + (r - b) by {
      assert (arity - 1) * b == p - b;
    }
    DivModUnique((arity - 1) * b + j, p, 2 * t + 1, r - b);
  }
}
