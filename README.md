# Morton (Z-order) bit interleaving, verified

This project models the bit-interleaving codec of `pyindex` and proves it
correct against a reference definition of the Morton code.

The modelled code:

- The spreaders `part1by1` and `part1by2` insert one or two zero bits after
  every bit of a 16-bit or 10-bit window. They are straight chains of
  shift-or (or shift-xor) and mask steps.
- The gatherers `unpart1by1` and `unpart1by2` undo them with shift-xor-mask
  steps in the reverse order.
- `interleave2` and `deinterleave2` work window by window on integers of any
  size: a loop spreads 16 bits of each input into 32 bits of the code per
  round, and gathers them back.
- `interleave3` and `deinterleave3` handle a single window of 10 bits per
  component.
- The reference interleavers of `alternative_interleave.py` write each input
  as `'{:016b}'.format(n)`, zip the digit strings (first input rightmost) or
  slice them into a list, and parse the result with `int(res, base=2)`.

Python integers are unbounded, so values are `nat`. The Python operators
`&`, `|`, `^`, `<<`, `>>` and `bit_length` are defined in module `Bits` with
a lemma giving each bit of each result. Every equality between numbers is
proved bit by bit (`Bits.BitsEqual`).

The reference is module `ZOrder`:

- `Morton2`, `Morton3` and `Morton4` put bit `k` of component `r` at bit
  `n*k + r`.
- `EveryOtherBit` and `EveryThirdBit` collect every second or third bit.

Each mask-chain step is proved once, for any arity and block size, in module
`Blocks`: a spread step halves the block size and a gather step doubles it.
Module `Masks` shows that each hexadecimal mask literal is the pattern those
steps need. No mask generator exists in these files, so the literals are
checked directly. The string-based interleavers are methods over
`seq<char>` (slicing uses an `array<char>`), and for 16-bit inputs they are
proved equal to the same Morton codes. Module `Vectors` holds the values the
unit tests expect and the agreement between the fast path and the reference
interleavers.

`part1by2`'s docstring calls its input a 16-bit integer, but the code masks
it with `0x3FF`. The model follows the code: `interleave3` keeps 10 bits per
component, which is what `pyindex/test.py:42-44` expects
(`interleave3(0, 0xFFFF, 0) == 0x12492492`).

## Model

| member | source | states |
|---|---|---|
| Interleave.Part1by1Bits | pyindex/interleave.py:23-36 | bit `2i` of `part1by1(num)` is bit `i` of `num` for `i < 16`; every odd bit and every bit from 32 up is clear |
| Interleave.Part1by1Morton | pyindex/interleave.py:23-36 | `part1by1(num)` is the two-way Morton code of `num mod 2^16` with zero, and is below `2^32` |
| Interleave.Part1by2Bits | pyindex/interleave.py:39-51 | bit `3i` of `part1by2(num)` is bit `i` of `num` for `i < 10`; all other bits are clear |
| Interleave.Part1by2Morton | pyindex/interleave.py:39-51 | `part1by2(num)` is the three-way Morton code of `num mod 2^10` with two zeros, and is below `2^30` |
| Interleave.Unpart1by1Bits | pyindex/interleave.py:71-84 | bit `k` of `unpart1by1(n)` is bit `2k` of `n` for `k < 16` and clear above |
| Interleave.Unpart1by1Gathers | pyindex/interleave.py:71-84 | `unpart1by1(n)` is the even-position bits of `n` modulo `2^16`, so it is below `2^16` |
| Interleave.Unpart1by1Part1by1 | pyindex/interleave.py:71-84 | `unpart1by1(part1by1(x)) == x mod 2^16`, so it is `x` itself for `x < 2^16` |
| Interleave.Unpart1by2Bits | pyindex/interleave.py:87-100 | bit `k` of `unpart1by2(n)` is bit `3k` of `n` for `k < 10` and clear above |
| Interleave.Unpart1by2Gathers | pyindex/interleave.py:87-100 | `unpart1by2(n)` is the bits of `n` at multiples of three modulo `2^10`, so it is below `2^10` |
| Interleave.Unpart1by2Part1by2 | pyindex/interleave.py:87-100 | `unpart1by2(part1by2(x)) == x mod 2^10`, so it is `x` itself for `x < 2^10` |
| Interleave.LowHalfword | pyindex/interleave.py:111-112 | `x & 0xFFFF` is `x mod 2^16` |
| Interleave.Interleave2Chunk | pyindex/interleave.py:111-112 | one round's `interleaved` value is the Morton code of the low 16 bits of the current `x` and `y` |
| Interleave.Interleave2Round | pyindex/interleave.py:110-116 | OR-ing round `i`'s chunk at offset `32i` into the low `32i` bits of the Morton code gives its low `32(i+1)` bits |
| Interleave.Interleave2Exit | pyindex/interleave.py:107-109 | `ceil(max_bits / 16)` rounds cover every set bit of the Morton code |
| Interleave.Interleave2 | pyindex/interleave.py:103-117 | for inputs of any size the result is the two-way Morton code, and it is below `2^(2 * max(x.bit_length(), y.bit_length()))` |
| Interleave.GatherChunkBit | pyindex/interleave.py:127-130 | gathering the 32-bit window `i` of `n` yields bits `16i` to `16i+15` of the even-position bits of `n` |
| Interleave.Deinterleave2Round | pyindex/interleave.py:127-130 | OR-ing round `i`'s gathered window at offset `16i` extends the low `16i` bits of a component by 16 |
| Interleave.Deinterleave2Exit | pyindex/interleave.py:124 | `ceil(n.bit_length() / 32)` rounds recover every set bit of both components |
| Interleave.Deinterleave2 | pyindex/interleave.py:120-132 | for a code of any size, `x` is its even-position bits and `y` its odd-position bits |
| Interleave.Interleave2RoundTrip | pyindex/test.py:83-86 | `deinterleave2(interleave2(x, y)) == (x, y)` for all naturals |
| Interleave.Deinterleave2RoundTrip | pyindex/interleave.py:103-132 | `interleave2(*deinterleave2(n)) == n` for all naturals |
| Interleave.Interleave3Bit | pyindex/interleave.py:135-139 | bit `3q + r` of `interleave3(x, y, z)` is bit `q` of the 10-bit window of component `r` |
| Interleave.Interleave3Morton | pyindex/interleave.py:135-139 | `interleave3(x, y, z)` is the three-way Morton code of `x`, `y`, `z` modulo `2^10`, and is below `2^30` |
| Interleave.Deinterleave3Gathers | pyindex/interleave.py:142-146 | `deinterleave3(n)` returns bits `3k`, `3k+1` and `3k+2` of `n` for `k < 10` |
| Interleave.Deinterleave3Interleave3 | pyindex/interleave.py:135-146 | `deinterleave3(interleave3(x, y, z))` gives each component modulo `2^10`, so the components themselves when they are below `2^10` |
| Interleave.Interleave3Deinterleave3 | pyindex/interleave.py:135-146 | `interleave3(*deinterleave3(n)) == n mod 2^30` |
| Blocks.SpreadStep | pyindex/interleave.py:31-34 | a shift-or (or shift-xor) by `(arity-1)*b` followed by the stage mask turns blocks of `2b` bits spaced `arity` apart into blocks of `b` bits |
| Blocks.GatherStep | pyindex/interleave.py:79-82 | a shift-xor by `(arity-1)*b` followed by the stage mask turns blocks of `b` bits into blocks of `2b` bits |
| Blocks.WindowLayout | pyindex/interleave.py:29 | masking the input to its window gives the single-block layout the first step expects |
| Masks.Mask0000FFFF | pyindex/interleave.py:29 | `0x0000FFFF` is bits 0 to 15, the 16-bit window of the two-way codec |
| Masks.Mask00FF00FF | pyindex/interleave.py:31 | `0x00FF00FF` keeps blocks of 8 bits, two apart |
| Masks.Mask0F0F0F0F | pyindex/interleave.py:32 | `0x0F0F0F0F` keeps blocks of 4 bits, two apart |
| Masks.Mask33333333 | pyindex/interleave.py:33 | `0x33333333` keeps blocks of 2 bits, two apart |
| Masks.Mask55555555 | pyindex/interleave.py:34 | `0x55555555` is the even bits below 32 |
| Masks.Mask000003FF | pyindex/interleave.py:45 | `0x000003FF` is bits 0 to 9, the 10-bit window of the three-way codec |
| Masks.MaskFF0000FF | pyindex/interleave.py:46 | `0xFF0000FF` keeps blocks of 8 bits, three apart, within the 10-bit window |
| Masks.Mask0300F00F | pyindex/interleave.py:47 | `0x0300F00F` keeps blocks of 4 bits, three apart, within the window |
| Masks.Mask030C30C3 | pyindex/interleave.py:48 | `0x030C30C3` keeps blocks of 2 bits, three apart, within the window |
| Masks.Mask09249249 | pyindex/interleave.py:49 | `0x09249249` is the bits at multiples of three below 28 |
| ZOrder.Morton2Bits | pyindex/interleave.py:103-117 | bit `2q` of the two-way code is bit `q` of `x` and bit `2q+1` is bit `q` of `y` |
| ZOrder.Morton3Bits | pyindex/interleave.py:135-139 | bit `3q + r` of the three-way code is bit `q` of component `r` |
| ZOrder.Morton4Bits | pyindex/alternative_interleave.py:73-93 | bit `4q + r` of the four-way code is bit `q` of component `r` (`v` first) |
| ZOrder.Morton2RoundTrip | pyindex/test.py:83-86 | the even and odd bits of `Morton2(x, y)` are `x` and `y` |
| ZOrder.Morton2OfGathered | pyindex/interleave.py:120-132 | interleaving the even and odd bits of `n` gives `n` back |
| ZOrder.Morton3RoundTrip | pyindex/test.py:149-152 | bits `3k`, `3k+1`, `3k+2` of `Morton3(x, y, z)` are `x`, `y`, `z` |
| ZOrder.Morton3OfGathered | pyindex/interleave.py:135-146 | interleaving the three bit classes of `n` gives `n` back |
| ZOrder.Morton2Bound | pyindex/interleave.py:107-117 | two components below `2^w` give a code below `2^(2w)` |
| ZOrder.Morton3Bound | pyindex/interleave.py:135-139 | three components below `2^w` give a code below `2^(3w)` |
| ZOrder.Morton4Bound | pyindex/alternative_interleave.py:73-93 | four components below `2^w` give a code below `2^(4w)` |
| AlternativeInterleave.BinaryDigitsBits | pyindex/alternative_interleave.py:39-40 | digit `k` from the right of `bin(n)[2:]` is bit `k` of `n` |
| AlternativeInterleave.FormatLength | pyindex/alternative_interleave.py:39-40 | `'{:016b}'.format(n)` has at least `n.bit_length()` digits, and exactly 16 iff `n < 2^16` |
| AlternativeInterleave.FormatBits | pyindex/alternative_interleave.py:39-40 | digit `k` from the right of `'{:016b}'.format(n)` is bit `k` of `n`, leading zeros included |
| AlternativeInterleave.ParseBinaryBit | pyindex/alternative_interleave.py:49 | bit `k` of `int(s, base=2)` is set iff digit `k` from the right of `s` is `'1'` |
| AlternativeInterleave.ParseBinaryBound | pyindex/alternative_interleave.py:49 | `int(s, base=2)` is below `2^len(s)` |
| AlternativeInterleave.ParseFormat | pyindex/alternative_interleave.py:39-49 | `int('{:016b}'.format(n), base=2) == n` |
| AlternativeInterleave.Zip2Step | pyindex/alternative_interleave.py:45-47 | appending the digits of pair `i` extends the string by exactly the next pair of `zip(y, x)` |
| AlternativeInterleave.Zip2Morton | pyindex/alternative_interleave.py:39-49 | for 16-bit inputs, the parsed pairs of `zip(y, x)` are the two-way Morton code |
| AlternativeInterleave.Interleave2WithLoop | pyindex/alternative_interleave.py:26-49 | the result is the parsed pairs of `zip(y, x)` and is below `2^(2 * min(len))`; for inputs below `2^16` it is the two-way Morton code |
| AlternativeInterleave.Zip3Morton | pyindex/alternative_interleave.py:58-70 | for 16-bit inputs, the parsed triples of `zip(z, y, x)` are the three-way Morton code |
| AlternativeInterleave.Interleave3WithLoop | pyindex/alternative_interleave.py:52-70 | the result is the parsed triples of `zip(z, y, x)` and is below `2^(3 * min(len))`; for inputs below `2^16` it is the three-way Morton code |
| AlternativeInterleave.Zip4Morton | pyindex/alternative_interleave.py:79-93 | for 16-bit inputs, the parsed quadruples of `zip(z, y, x, v)` are the four-way Morton code |
| AlternativeInterleave.Interleave4WithLoop | pyindex/alternative_interleave.py:73-93 | the result is the parsed quadruples of `zip(z, y, x, v)` and is below `2^(4 * min(len))`; for inputs below `2^16` it is the four-way Morton code |
| AlternativeInterleave.SlotsFilled | pyindex/alternative_interleave.py:145-149 | filling the even slots with `y`'s digits and the odd slots with `x`'s gives the pairs of `zip(y, x)`, then `y`'s last digit if it has one more |
| AlternativeInterleave.Interleave2WithSlicing | pyindex/alternative_interleave.py:136-151 | fails exactly when the two slice assignments' lengths disagree; otherwise the result is the parsed interleaving, and for inputs below `2^16` it is the two-way Morton code |
| Vectors.Interleave2Vectors | pyindex/test.py:14-20 | `interleave2(0x00, 0xFF) == 0xAAAA` and `interleave2(0x0000, 0xFFFF) == 0xAAAAAAAA` |
| Vectors.Interleave2WideVector | pyindex/test.py:22-27 | `interleave2(0xFFFFFFFF, 0xFFFFFFFF) == 2^64 - 1` |
| Vectors.Interleave2UnevenVector | pyindex/test.py:28-36 | `interleave2(0xF, 0xFF) == 0xAAFF`, not `0xFFF` |
| Vectors.Interleave3Vector8 | pyindex/test.py:38-41 | `interleave3(0x00, 0xFF, 0x00) == 0x492492` |
| Vectors.Interleave3Vector16 | pyindex/test.py:42-44 | `interleave3(0x0000, 0xFFFF, 0x0000) == 0x12492492` |
| Vectors.Interleave2Idempotency | pyindex/test.py:83-86 | `deinterleave2(interleave2(4, 42)) == (4, 42)` |
| Vectors.Interleave2VariantsAgree | pyindex/test.py:88-98 | for 16-bit inputs, `interleave2`, `interleave2_with_loop` and `interleave2_with_slicing` agree |
| Vectors.Interleave3VariantsAgree | pyindex/test.py:100-110 | for 10-bit inputs, `interleave3` and `interleave3_with_loop` agree |
| Vectors.Interleave4LoopVector | pyindex/test.py:112-119 | `interleave4_with_loop(3, 9, 7, 8) == 0xA457` |

## Left out

- `part1by3` (`pyindex/interleave.py:53-69`) is unfinished. It stops at debugger breakpoints and returns nothing, so there is no behaviour to model.
- `time_taken` (`pyindex/interleave.py:274-302`) is a timing benchmark that prints; clocks and output are outside the model.
- `interleave2_with_bitarray`, `interleave2_with_bitarray_and_chain` and `interleave2_with_bitstring_and_chain` wrap the `bitarray` and `bitstring` libraries. Those libraries are not part of this model.
- The copies of the reference interleavers at `pyindex/interleave.py:149-270` repeat `alternative_interleave.py` and are modelled once.
- The unit tests of `interleave4`, `deinterleave4`, `interleave4_to_32bit`, `interleave_any` and the other functions that appear only in `pyindex/test.py` are left out. Those functions are not part of this model.
- `interleave2` and `deinterleave2` compute `int(ceil(bits / 16))` and `int(ceil(bits / 32))` with float division. The model uses the integer ceiling `(bits + 15) / 16` and `(bits + 31) / 32`. The two agree while the bit length fits a float exactly, below `2^53` bits.
- Negative Python integers are outside the model: every value is a `nat`.
- Interleave2WithSlicing: Python's list starts out holding the integer `0` in every slot; the model's array starts with `'0'`. When both slice assignments succeed, every slot is overwritten, so the starting value is never read. A failed slice assignment raises `ValueError`; the model returns `None`.
- AlternativeInterleave.ParseBinary: `int('', base=2)` raises, while the model reads the empty string as 0. No caller parses an empty string, because every formatted input has at least 16 digits.
- Interleave2WithLoop, Interleave3WithLoop, Interleave4WithLoop: for inputs of 2^16 or more, the contract gives the exact result (the parsed `zip` of the formatted digits, cut at the shorter string) but does not relate it to the Morton code. It differs from the Morton code in general.
