/** The reference interleavers that work on binary digit strings: each input
    is written as `'{:016b}'.format(n)` (binary, zero-filled to at least 16
    digits), the digit strings are zipped with the first input rightmost, and
    the result is read back with `int(res, base=2)`. For inputs below `2^16`
    they agree with the Morton codes of module `ZOrder`; for wider inputs
    `zip` stops at the shorter string and the slicing variant fails unless
    the two strings have fitting lengths. */
module AlternativeInterleave {
  import opened Bits
  import opened ZOrder

  datatype Option<T> = None | Some(value: T)

  function DigitChar(b: bool): char
  {
    if b then '1' else '0'
  }

  predicate IsBinary(s: seq<char>)
  {
    forall i :: 0 <= i < |s| ==> s[i] == '0' || s[i] == '1'
  }

  /** `bin(n)[2:]`: the binary digits of `n`, most significant first, with
      no leading zeros ("0" for zero). */
  function BinaryDigits(n: nat): (d: seq<char>)
    ensures IsBinary(d) && |d| >= 1
  {
    if n < 2 then [DigitChar(n == 1)] else BinaryDigits(n / 2) + [DigitChar(n % 2 == 1)]
  }

  /** `'{:016b}'.format(n)`: the binary digits of `n`, zero-filled on the
      left to 16 characters; longer digit strings are kept whole. */
  function Format016b(n: nat): (s: seq<char>)
    ensures IsBinary(s) && |s| >= 16
  {
    var d := BinaryDigits(n);
    if |d| >= 16 then d else seq(16 - |d|, _ => '0') + d
  }

  /** `int(s, base=2)` for a string of binary digits. */
  function ParseBinary(s: seq<char>): nat
    requires IsBinary(s)
  {
    if s == [] then 0
    else 2 * ParseBinary(s[..|s| - 1]) + (if s[|s| - 1] == '1' then 1 else 0)
  }

  /** The characters of `zip(a, b)`, pair after pair: the pairs stop at the
      end of the shorter string. */
  function Zip2(a: seq<char>, b: seq<char>): (s: seq<char>)
    ensures |s| == 2 * Min(|a|, |b|)
    ensures IsBinary(a) && IsBinary(b) ==> IsBinary(s)
  {
    var m := Min(|a|, |b|);
    seq(2 * m, k requires 0 <= k < 2 * m => if k % 2 == 0 then a[k / 2] else b[k / 2])
  }

  /** The characters of `zip(a, b, c)`, triple after triple. */
  function Zip3(a: seq<char>, b: seq<char>, c: seq<char>): (s: seq<char>)
    ensures |s| == 3 * Min(Min(|a|, |b|), |c|)
    ensures IsBinary(a) && IsBinary(b) && IsBinary(c) ==> IsBinary(s)
  {
    var m := Min(Min(|a|, |b|), |c|);
    seq(3 * m, k requires 0 <= k < 3 * m =>
      if k % 3 == 0 then a[k / 3] else if k % 3 == 1 then b[k / 3] else c[k / 3])
  }

  /** The characters of `zip(a, b, c, d)`, quadruple after quadruple. */
  function Zip4(a: seq<char>, b: seq<char>, c: seq<char>, d: seq<char>): (s: seq<char>)
    ensures |s| == 4 * Min(Min(|a|, |b|), Min(|c|, |d|))
    ensures IsBinary(a) && IsBinary(b) && IsBinary(c) && IsBinary(d) ==> IsBinary(s)
  {
    var m := Min(Min(|a|, |b|), Min(|c|, |d|));
    seq(4 * m, k requires 0 <= k < 4 * m =>
      if k % 4 == 0 then a[k / 4] else if k % 4 == 1 then b[k / 4]
      else if k % 4 == 2 then c[k / 4] else d[k / 4])
  }

  /** `bin(n)[2:]` has `n.bit_length()` digits (one for zero). */
  lemma {:induction false} BinaryDigitsLength(n: nat)
    ensures |BinaryDigits(n)| == if n == 0 then 1 else BitLength(n)
  {
    if n >= 2 {
      BinaryDigitsLength(n / 2);
    }
  }

  /** Pair `i` of `zip(a, b)` is `a[i]` then `b[i]`. */
  lemma {:induction false} Zip2At(a: seq<char>, b: seq<char>, i: nat)
    requires i < Min(|a|, |b|)
    ensures Zip2(a, b)[2 * i] == a[i] && Zip2(a, b)[2 * i + 1] == b[i]
  {
  }

  /** Triple `i` of `zip(a, b, c)` is `a[i]`, `b[i]`, `c[i]`. */
  lemma {:induction false} Zip3At(a: seq<char>, b: seq<char>, c: seq<char>, i: nat)
    requires i < Min(Min(|a|, |b|), |c|)
    ensures Zip3(a, b, c)[3 * i] == a[i] && Zip3(a, b, c)[3 * i + 1] == b[i]
            && Zip3(a, b, c)[3 * i + 2] == c[i]
  {
  }

  /** Quadruple `i` of `zip(a, b, c, d)` is `a[i]`, `b[i]`, `c[i]`, `d[i]`. */
  lemma {:induction false} Zip4At(a: seq<char>, b: seq<char>, c: seq<char>, d: seq<char>, i: nat)
    requires i < Min(Min(|a|, |b|), Min(|c|, |d|))
    ensures Zip4(a, b, c, d)[4 * i] == a[i] && Zip4(a, b, c, d)[4 * i + 1] == b[i]
            && Zip4(a, b, c, d)[4 * i + 2] == c[i] && Zip4(a, b, c, d)[4 * i + 3] == d[i]
  {
  }

  /** Digit `k` from the right of `bin(n)[2:]` is bit `k` of `n`. */
  lemma {:induction false} BinaryDigitsBits(n: nat)
    ensures forall k :: 0 <= k < |BinaryDigits(n)| ==>
              BinaryDigits(n)[|BinaryDigits(n)| - 1 - k] == DigitChar(Bit(n, k))
  {
    var d := BinaryDigits(n);
    if n >= 2 {
      BinaryDigitsBits(n / 2);
      var h := BinaryDigits(n / 2);
      assert d == h + [DigitChar(n % 2 == 1)];
      forall k | 0 <= k < |d| ensures d[|d| - 1 - k] == DigitChar(Bit(n, k)) {
        if k > 0 {
          assert d[|d| - 1 - k] == h[|h| - 1 - (k - 1)];
        }
      }
    }
  }

  /** `'{:016b}'.format(n)` has as many digits as `n` has bits, at least
      16; so it is exactly 16 long when `n` fits in 16 bits. */
  lemma {:induction false} FormatLength(n: nat)
    ensures BitLength(n) <= |Format016b(n)|
    ensures |Format016b(n)| == 16 <==> n < Pow2(16)
  {
    BinaryDigitsLength(n);
    if n < Pow2(16) && BitLength(n) > 16 {
      Pow2Monotone(16, BitLength(n) - 1);
    }
    if BitLength(n) <= 16 {
      Pow2Monotone(BitLength(n), 16);
    }
  }

  /** Digit `k` from the right of `'{:016b}'.format(n)` is bit `k` of `n`. */
  lemma {:induction false} FormatBits(n: nat)
    ensures forall k :: 0 <= k < |Format016b(n)| ==>
              Format016b(n)[|Format016b(n)| - 1 - k] == DigitChar(Bit(n, k))
  {
    if |BinaryDigits(n)| >= 16 {
      BinaryDigitsBits(n);
    } else {
      forall k | 0 <= k < 16 ensures Format016b(n)[15 - k] == DigitChar(Bit(n, k)) {
        PaddedDigit(n, k);
      }
    }
  }

  /** A digit of a zero-filled format: a digit of `bin(n)[2:]`, or a leading
      zero above the highest set bit. */
  lemma {:induction false} PaddedDigit(n: nat, k: nat)
    requires |BinaryDigits(n)| < 16 && k < 16
    ensures Format016b(n)[15 - k] == DigitChar(Bit(n, k))
  {
    var d := BinaryDigits(n);
    var s := Format016b(n);
    assert s == seq(16 - |d|, _ => '0') + d;
    if k < |d| {
      BinaryDigitsBits(n);
      assert s[15 - k] == d[|d| - 1 - k];
    } else {
      BinaryDigitsLength(n);
      BitsAbove(n, BitLength(n));
    }
  }

  /** For `n` below `2^16`, `'{:016b}'.format(n)` has 16 digits and digit
      `15 - q` (counting from the left) is bit `q` of `n`. */
  lemma {:induction false} DigitAt(n: nat, q: nat)
    requires n < Pow2(16) && q < 16
    ensures |Format016b(n)| == 16 && (Format016b(n)[15 - q] == '1') == Bit(n, q)
  {
    FormatLength(n);
    FormatBits(n);
  }

  /** Bit `k` of `int(s, base=2)` is set when digit `k` from the right of
      `s` is a one. */
  lemma {:induction false} ParseBinaryBit(s: seq<char>, k: nat)
    requires IsBinary(s)
    ensures Bit(ParseBinary(s), k) == (k < |s| && s[|s| - 1 - k] == '1')
    decreases |s|
  {
    if s == [] {
      BitOfZero(k);
    } else {
      var p := s[..|s| - 1];
      BitCons(if s[|s| - 1] == '1' then 1 else 0, ParseBinary(p), k);
      if k > 0 {
        ParseBinaryBit(p, k - 1);
      }
    }
  }

  /** `int(s, base=2)` of `|s|` digits is below `2^|s|`. */
  lemma {:induction false} ParseBinaryBound(s: seq<char>)
    requires IsBinary(s)
    ensures ParseBinary(s) < Pow2(|s|)
  {
    if s != [] {
      ParseBinaryBound(s[..|s| - 1]);
    }
  }

  /** `int('{:016b}'.format(n), base=2) == n`: formatting and parsing are
      inverse. */
  lemma {:induction false} ParseFormat(n: nat)
    ensures ParseBinary(Format016b(n)) == n
  {
    var s := Format016b(n);
    FormatBits(n);
    FormatLength(n);
    BitsAbove(n, BitLength(n));
    forall k: nat ensures Bit(ParseBinary(s), k) == Bit(n, k) {
      ParseBinaryBit(s, k);
    }
    BitsEqual(ParseBinary(s), n);
  }

  /** Bit `2i + r` of `int(res, base=2)`, for `res` the pairs of `zip(a, b)`
      of equal-length strings, is digit `i` from the right of `b` when
      `r == 0` and of `a` when `r == 1`. */
  lemma {:induction false} ParseZip2Bit(a: seq<char>, b: seq<char>, i: nat, r: nat)
    requires IsBinary(a) && IsBinary(b) && |a| == |b| && i < |a| && r < 2
    ensures Bit(ParseBinary(Zip2(a, b)), 2 * i + r) == ((if r == 0 then b else a)[|a| - 1 - i] == '1')
  {
    var s := Zip2(a, b);
    Zip2At(a, b, |a| - 1 - i);
    ParseBinaryBit(s, 2 * i + r);
    assert |s| - 1 - (2 * i + r) == 2 * (|a| - 1 - i) + 1 - r;
  }

  /** Bit `3i + r` of `int(res, base=2)`, for `res` the triples of
      `zip(a, b, c)` of equal-length strings, is digit `i` from the right of
      `c`, `b` or `a` for `r` = 0, 1 or 2. */
  lemma {:induction false} ParseZip3Bit(a: seq<char>, b: seq<char>, c: seq<char>, i: nat, r: nat)
    requires IsBinary(a) && IsBinary(b) && IsBinary(c) && |a| == |b| == |c| && i < |a| && r < 3
    ensures Bit(ParseBinary(Zip3(a, b, c)), 3 * i + r)
            == ((if r == 0 then c else if r == 1 then b else a)[|a| - 1 - i] == '1')
  {
    var s := Zip3(a, b, c);
    Zip3At(a, b, c, |a| - 1 - i);
    ParseBinaryBit(s, 3 * i + r);
    assert |s| - 1 - (3 * i + r) == 3 * (|a| - 1 - i) + 2 - r;
  }

  /** Bit `4i + r` of `int(res, base=2)`, for `res` the quadruples of
      `zip(a, b, c, d)` of equal-length strings, is digit `i` from the right
      of `d`, `c`, `b` or `a` for `r` = 0, 1, 2 or 3. */
  lemma {:induction false} ParseZip4Bit(a: seq<char>, b: seq<char>, c: seq<char>, d: seq<char>, i: nat, r: nat)
    requires IsBinary(a) && IsBinary(b) && IsBinary(c) && IsBinary(d)
    requires |a| == |b| == |c| == |d| && i < |a| && r < 4
    ensures Bit(ParseBinary(Zip4(a, b, c, d)), 4 * i + r)
            == ((if r == 0 then d else if r == 1 then c else if r == 2 then b else a)[|a| - 1 - i] == '1')
  {
    var s := Zip4(a, b, c, d);
    Zip4At(a, b, c, d, |a| - 1 - i);
    ParseBinaryBit(s, 4 * i + r);
    assert |s| - 1 - (4 * i + r) == 4 * (|a| - 1 - i) + 3 - r;
  }

  /** Bit `2q + r` of `interleave2_with_loop(x, y)` for 16-bit inputs is
      bit `q` of `x` when `r == 0` and of `y` when `r == 1`. */
  lemma {:induction false} Zip2Bit(x: nat, y: nat, q: nat, r: nat)
    requires x < Pow2(16) && y < Pow2(16) && q < 16 && r < 2
    ensures Bit(ParseBinary(Zip2(Format016b(y), Format016b(x))), 2 * q + r)
            == Bit(if r == 0 then x else y, q)
  {
    DigitAt(x, q);
    DigitAt(y, q);
    ParseZip2Bit(Format016b(y), Format016b(x), q, r);
  }

  /** Bit `j` of `interleave2_with_loop(x, y)` for 16-bit inputs is bit `j`
      of their Morton code. */
  lemma {:induction false} Zip2MortonBit(x: nat, y: nat, j: nat)
    requires x < Pow2(16) && y < Pow2(16)
    ensures Bit(ParseBinary(Zip2(Format016b(y), Format016b(x))), j) == Bit(Morton2(x, y), j)
  {
    if j < 32 {
      var q, r := j / 2, j % 2;
      assert j == 2 * q + r;
      Zip2Bit(x, y, q, r);
      Morton2Bits(x, y, q, r);
    } else {
      assert |Zip2(Format016b(y), Format016b(x))| == 32 by {
        FormatLength(x);
        FormatLength(y);
      }
      ParseBinaryBit(Zip2(Format016b(y), Format016b(x)), j);
      Morton2Bound(x, y, 16);
      BitsAbove(Morton2(x, y), 32);
    }
  }

  /** `interleave2_with_loop` on 16-bit inputs computes the two-way Morton
      code. */
  lemma {:induction false} Zip2Morton(x: nat, y: nat)
    requires x < Pow2(16) && y < Pow2(16)
    ensures ParseBinary(Zip2(Format016b(y), Format016b(x))) == Morton2(x, y)
  {
    var p := ParseBinary(Zip2(Format016b(y), Format016b(x)));
    forall j: nat ensures Bit(p, j) == Bit(Morton2(x, y), j) {
      Zip2MortonBit(x, y, j);
    }
    BitsEqual(p, Morton2(x, y));
  }

  /** Bit `j` of `interleave3_with_loop(x, y, z)` for 16-bit inputs is bit
      `j` of their Morton code. */
  lemma {:induction false} Zip3MortonBit(x: nat, y: nat, z: nat, j: nat)
    requires x < Pow2(16) && y < Pow2(16) && z < Pow2(16)
    ensures Bit(ParseBinary(Zip3(Format016b(z), Format016b(y), Format016b(x))), j)
            == Bit(Morton3(x, y, z), j)
  {
    var xs, ys, zs := Format016b(x), Format016b(y), Format016b(z);
    FormatLength(x);
    FormatLength(y);
    FormatLength(z);
    if j < 48 {
      var q, r := j / 3, j % 3;
      assert j == 3 * q + r;
      DigitAt(x, q);
      DigitAt(y, q);
      DigitAt(z, q);
      ParseZip3Bit(zs, ys, xs, q, r);
      Morton3Bits(x, y, z, q, r);
    } else {
      ParseBinaryBit(Zip3(zs, ys, xs), j);
      Morton3Bound(x, y, z, 16);
      BitsAbove(Morton3(x, y, z), 48);
    }
  }

  /** `interleave3_with_loop` on 16-bit inputs computes the three-way Morton
      code. */
  lemma {:induction false} Zip3Morton(x: nat, y: nat, z: nat)
    requires x < Pow2(16) && y < Pow2(16) && z < Pow2(16)
    ensures ParseBinary(Zip3(Format016b(z), Format016b(y), Format016b(x))) == Morton3(x, y, z)
  {
    var p := ParseBinary(Zip3(Format016b(z), Format016b(y), Format016b(x)));
    forall j: nat ensures Bit(p, j) == Bit(Morton3(x, y, z), j) {
      Zip3MortonBit(x, y, z, j);
    }
    BitsEqual(p, Morton3(x, y, z));
  }

  /** Bit `j` of `interleave4_with_loop(v, x, y, z)` for 16-bit inputs is
      bit `j` of their Morton code. */
  lemma {:induction false} Zip4MortonBit(v: nat, x: nat, y: nat, z: nat, j: nat)
    requires v < Pow2(16) && x < Pow2(16) && y < Pow2(16) && z < Pow2(16)
    ensures Bit(ParseBinary(Zip4(Format016b(z), Format016b(y), Format016b(x), Format016b(v))), j)
            == Bit(Morton4(v, x, y, z), j)
  {
    var vs, xs, ys, zs := Format016b(v), Format016b(x), Format016b(y), Format016b(z);
    FormatLength(v);
    FormatLength(x);
    FormatLength(y);
    FormatLength(z);
    if j < 64 {
      var q, r := j / 4, j % 4;
      assert j == 4 * q + r;
      DigitAt(v, q);
      DigitAt(x, q);
      DigitAt(y, q);
      DigitAt(z, q);
      ParseZip4Bit(zs, ys, xs, vs, q, r);
      Morton4Bits(v, x, y, z, q, r);
    } else {
      ParseBinaryBit(Zip4(zs, ys, xs, vs), j);
      Morton4Bound(v, x, y, z, 16);
      BitsAbove(Morton4(v, x, y, z), 64);
    }
  }

  /** `interleave4_with_loop` on 16-bit inputs computes the four-way Morton
      code. */
  lemma {:induction false} Zip4Morton(v: nat, x: nat, y: nat, z: nat)
    requires v < Pow2(16) && x < Pow2(16) && y < Pow2(16) && z < Pow2(16)
    ensures ParseBinary(Zip4(Format016b(z), Format016b(y), Format016b(x), Format016b(v)))
            == Morton4(v, x, y, z)
  {
    var p := ParseBinary(Zip4(Format016b(z), Format016b(y), Format016b(x), Format016b(v)));
    forall j: nat ensures Bit(p, j) == Bit(Morton4(v, x, y, z), j) {
      Zip4MortonBit(v, x, y, z, j);
    }
    BitsEqual(p, Morton4(v, x, y, z));
  }

  /** A prefix followed by the character that comes next is a longer
      prefix. */
  lemma {:induction false} PrefixGrows(s: seq<char>, k: nat)
    requires k < |s|
    ensures s[..k] + [s[k]] == s[..k + 1]
  {
  }

  /** The pairs of `zip(a, b)` up to pair `i` followed by pair `i`. */
  lemma {:induction false} Zip2Step(a: seq<char>, b: seq<char>, i: nat)
    requires i < Min(|a|, |b|)
    ensures Zip2(a, b)[..2 * i] + [a[i]] + [b[i]] == Zip2(a, b)[..2 * (i + 1)]
  {
    var s := Zip2(a, b);
    Zip2At(a, b, i);
    PrefixGrows(s, 2 * i);
    PrefixGrows(s, 2 * i + 1);
  }

  /** The triples of `zip(a, b, c)` up to triple `i` followed by triple `i`. */
  lemma {:induction false} Zip3Step(a: seq<char>, b: seq<char>, c: seq<char>, i: nat)
    requires i < Min(Min(|a|, |b|), |c|)
    ensures Zip3(a, b, c)[..3 * i] + [a[i]] + [b[i]] + [c[i]] == Zip3(a, b, c)[..3 * (i + 1)]
  {
    var s := Zip3(a, b, c);
    Zip3At(a, b, c, i);
    PrefixGrows(s, 3 * i);
    PrefixGrows(s, 3 * i + 1);
    PrefixGrows(s, 3 * i + 2);
  }

  /** The quadruples of `zip(a, b, c, d)` up to quadruple `i` followed by
      quadruple `i`. */
  lemma {:induction false} Zip4Step(a: seq<char>, b: seq<char>, c: seq<char>, d: seq<char>, i: nat)
    requires i < Min(Min(|a|, |b|), Min(|c|, |d|))
    ensures Zip4(a, b, c, d)[..4 * i] + [a[i]] + [b[i]] + [c[i]] + [d[i]] == Zip4(a, b, c, d)[..4 * (i + 1)]
  {
    var s := Zip4(a, b, c, d);
    Zip4At(a, b, c, d, i);
    PrefixGrows(s, 4 * i);
    PrefixGrows(s, 4 * i + 1);
    PrefixGrows(s, 4 * i + 2);
    PrefixGrows(s, 4 * i + 3);
  }

  /** `interleave2_with_loop`: format both inputs, append the digits of
      `zip(y, x)` pair by pair, parse the result. For inputs below `2^16` it
      is the two-way Morton code. */
  method Interleave2WithLoop(x: nat, y: nat) returns (r: nat)
    ensures r == ParseBinary(Zip2(Format016b(y), Format016b(x)))
    ensures r < Pow2(2 * Min(|Format016b(y)|, |Format016b(x)|))
    ensures x < Pow2(16) && y < Pow2(16) ==> r == Morton2(x, y)
  {
    var xs := Format016b(x);
    var ys := Format016b(y);
    var zipped := Zip2(ys, xs);
    var res: seq<char> := [];
    for i := 0 to Min(|ys|, |xs|)
      invariant res == zipped[..2 * i]
    {
      Zip2Step(ys, xs, i);
      res := res + [ys[i]];
      res := res + [xs[i]];
    }
    assert res == zipped;
    r := ParseBinary(res);
    ParseBinaryBound(res);
    if x < Pow2(16) && y < Pow2(16) {
      Zip2Morton(x, y);
    }
  }

  /** `interleave3_with_loop`: as `interleave2_with_loop`, with the digits of
      `zip(z, y, x)` three at a time. */
  method Interleave3WithLoop(x: nat, y: nat, z: nat) returns (r: nat)
    ensures r == ParseBinary(Zip3(Format016b(z), Format016b(y), Format016b(x)))
    ensures r < Pow2(3 * Min(Min(|Format016b(z)|, |Format016b(y)|), |Format016b(x)|))
    ensures x < Pow2(16) && y < Pow2(16) && z < Pow2(16) ==> r == Morton3(x, y, z)
  {
    var xs := Format016b(x);
    var ys := Format016b(y);
    var zs := Format016b(z);
    var zipped := Zip3(zs, ys, xs);
    var res: seq<char> := [];
    for i := 0 to Min(Min(|zs|, |ys|), |xs|)
      invariant res == zipped[..3 * i]
    {
      Zip3Step(zs, ys, xs, i);
      res := res + [zs[i]];
      res := res + [ys[i]];
      res := res + [xs[i]];
    }
    assert res == zipped;
    r := ParseBinary(res);
    ParseBinaryBound(res);
    if x < Pow2(16) && y < Pow2(16) && z < Pow2(16) {
      Zip3Morton(x, y, z);
    }
  }

  /** `interleave4_with_loop`: as `interleave2_with_loop`, with the digits of
      `zip(z, y, x, v)` four at a time. */
  method Interleave4WithLoop(v: nat, x: nat, y: nat, z: nat) returns (r: nat)
    ensures r == ParseBinary(Zip4(Format016b(z), Format016b(y), Format016b(x), Format016b(v)))
    ensures r < Pow2(4 * Min(Min(|Format016b(z)|, |Format016b(y)|), Min(|Format016b(x)|, |Format016b(v)|)))
    ensures v < Pow2(16) && x < Pow2(16) && y < Pow2(16) && z < Pow2(16) ==> r == Morton4(v, x, y, z)
  {
    var vs := Format016b(v);
    var xs := Format016b(x);
    var ys := Format016b(y);
    var zs := Format016b(z);
    var zipped := Zip4(zs, ys, xs, vs);
    var res: seq<char> := [];
    for i := 0 to Min(Min(|zs|, |ys|), Min(|xs|, |vs|))
      invariant res == zipped[..4 * i]
    {
      Zip4Step(zs, ys, xs, vs, i);
      res := res + [zs[i]];
      res := res + [ys[i]];
      res := res + [xs[i]];
      res := res + [vs[i]];
    }
    assert res == zipped;
    r := ParseBinary(res);
    ParseBinaryBound(res);
    if v < Pow2(16) && x < Pow2(16) && y < Pow2(16) && z < Pow2(16) {
      Zip4Morton(v, x, y, z);
    }
  }

  /** `interleave2_with_slicing`: a list of `len(x) + len(y)` slots receives
      the digits of `y` at the even slots (`res[::2] = y`) and those of `x`
      at the odd slots (`res[1::2] = x`). An extended-slice assignment fails
      unless the slice and the string have the same length, which holds
      exactly when `y` has as many digits as `x` or one more. */
  method Interleave2WithSlicing(x: nat, y: nat) returns (r: Option<nat>)
    ensures r.Some? <==> (|Format016b(y)| == |Format016b(x)| || |Format016b(y)| == |Format016b(x)| + 1)
    ensures r.Some? ==>
              |Format016b(x)| <= |Format016b(y)|
              && r.value == ParseBinary(Zip2(Format016b(y), Format016b(x)) + Format016b(y)[|Format016b(x)|..])
    ensures x < Pow2(16) && y < Pow2(16) ==> r == Some(Morton2(x, y))
  {
    var xs := Format016b(x);
    var ys := Format016b(y);
    var n := |xs| + |ys|;
    if x < Pow2(16) && y < Pow2(16) {
      FormatLength(x);
      FormatLength(y);
    }
    var res := new char[n](_ => '0');
    if (n + 1) / 2 != |ys| {
      return None;
    }
    forall k | 0 <= k < n && k % 2 == 0 {
      res[k] := ys[k / 2];
    }
    if n / 2 != |xs| {
      return None;
    }
    forall k | 0 <= k < n && k % 2 == 1 {
      res[k] := xs[k / 2];
    }
    SlotsFilled(res[..], ys, xs);
    r := Some(ParseBinary(res[..]));
    if x < Pow2(16) && y < Pow2(16) {
      assert ys[|xs|..] == [];
      assert Zip2(ys, xs) + [] == Zip2(ys, xs);
      Zip2Morton(x, y);
    }
  }

  /** A string whose even slots hold `a` and whose odd slots hold `b`, with
      `a` as long as `b` or one longer, is the pairs of `zip(a, b)` followed
      by the last digit of `a` when there is one left over. */
  lemma {:induction false} SlotsFilled(res: seq<char>, a: seq<char>, b: seq<char>)
    requires |a| == |b| || |a| == |b| + 1
    requires |res| == |a| + |b|
    requires forall k :: 0 <= k < |res| && k % 2 == 0 ==> res[k] == a[k / 2]
    requires forall k :: 0 <= k < |res| && k % 2 == 1 ==> res[k] == b[k / 2]
    ensures res == Zip2(a, b) + a[|b|..]
  {
    var t := Zip2(a, b) + a[|b|..];
    forall k | 0 <= k < |res| ensures res[k] == t[k] {
      var i := k / 2;
      if k % 2 == 0 {
        assert k == 2 * i;
        if i < |b| {
          Zip2At(a, b, i);
        }
      } else {
        assert k == 2 * i + 1;
        Zip2At(a, b, i);
      }
    }
  }
}
