# Bloom filter membership index, modelled in Dafny

This project models the `BloomFilter<T>` class of the Bloom-Filters
repository. It is a probabilistic set-membership index. It holds a bit
vector of fixed length `size`. For each item it computes seven probe
positions from the item's 32-bit `hashCode()` digest `d`:

    h1 = d * mulA[i] + addA[i]        (hashSet1, 32-bit int arithmetic)
    h2 = d * mulB[i] + addB[i]        (hashSet2, 32-bit int arithmetic)
    index = Math.abs((h1 + h2) % size)

`insert` sets the seven probe bits. `lookup` answers true exactly when all
seven are set, and stops at the first clear one.

Modules:

- `JavaInt` (`java_int.dfy`): Java's `int` as the newtype `i32`.
  - `Wrap` is two's-complement wrap-around.
  - `Mul` and `Add` are the wrapping `*` and `+`.
  - `Rem` is Java's truncating `%`, whose result takes the sign of the
    dividend. Dafny's `%` is Euclidean, so it is not used for this.
  - `Abs` is `Math.abs`, including its `MIN_VALUE` case.
- `Hashing` (`hashing.dfy`): the 14 affine hash lambdas, with their
  constants as in the source. Also the probe position `ProbeIndex`, and
  the seven positions of a digest, `Probes`.
- `BitVector` (`bit_vector.dfy`): the bit vector as a value.
  - `SetBits` says what `insert` does to the vector.
  - `AllSet` is what `lookup` asks of it.
  - `InsertAll` is the vector that a history of inserts leaves behind.
  - Lemmas give the properties: no false negatives, monotonicity,
    idempotence and order independence.
- `Bloom` (`bloom_filter.dfy`): the class `BloomFilter<T>`.
  - It has an `array<bool>` bit vector, the `size` field, and the items'
    `hashCode` as a constant function `T -> i32`.
  - The ghost field `history` lists the items inserted so far.
  - `Valid()` ties the array to `InsertAll` over the digests of
    `history`.
  - `Lookup` and the loop of `insert` iterate over `i` in `0..7`, as in
    the source. Each is proved against the functions of `BitVector`.
  - The loop of `insert` is the method `SetProbeBits`. Its precondition
    asks only for the vector's length. `Insert` calls it and then records
    the item in `history`, which keeps `Valid()`.

`size`, the array reference and the hash function are `const` fields. So
they cannot change after construction. `Lookup` has no `modifies` clause,
so it cannot change the filter. `Insert` may change only the array's
elements and the ghost history.

## Model

| member | source | states |
|---|---|---|
| `JavaInt.Wrap` | BloomFilter.java:8-23 | the result is the one 32-bit value congruent to the exact result modulo 2^32, and an in-range result is kept unchanged |
| `JavaInt.WrapCongruent` | BloomFilter.java:8-23 | two exact results that agree modulo 2^32 wrap to the same `int`, so wrapping after each operation or once at the end gives the same value |
| `JavaInt.Mul` | BloomFilter.java:8-23 | Java's `int` `*`: the result is congruent to the exact product modulo 2^32; since it is an `i32`, `WrapUnique` shows this fixes it |
| `JavaInt.Add` | BloomFilter.java:8-23 | Java's `int` `+`, both the `+ c` of every hash lambda and the `h1 + h2` of the probe index at line 40: the result is congruent to the exact sum modulo 2^32, and equals it when the sum fits in an `int` |
| `JavaInt.Rem` | BloomFilter.java:40 | Java's `%`: `x == TruncQuot(x, n) * n + r`, with a truncated quotient; for `x >= 0` the remainder is in `[0, n)`, for `x < 0` it is in `(-n, 0]` |
| `JavaInt.Abs` | BloomFilter.java:40 | `Math.abs`: the magnitude of `x`, except that `MIN_VALUE` is returned unchanged |
| `Hashing.HashSet1` | BloomFilter.java:7-15 | the i-th `hashSet1` lambda `d*MUL_A[i]+ADD_A[i]`, evaluated with `int` wrap-around, is congruent to its exact value modulo 2^32 |
| `Hashing.HashSet2` | BloomFilter.java:16-24 | the i-th `hashSet2` lambda `d*MUL_B[i]+ADD_B[i]`, evaluated with `int` wrap-around, is congruent to its exact value modulo 2^32 |
| `Hashing.ProbeIndex` | BloomFilter.java:38-40 | for every 32-bit digest, every one of the 7 probe positions lies in `[0, size)`; the remainder's magnitude is below `size`, so `Math.abs` never meets `MIN_VALUE` |
| `Hashing.Probes` | BloomFilter.java:37-40 | a digest has exactly 7 probe positions, each a valid index into the `size`-bit vector |
| `Hashing.ProbeSumIsAffine` | BloomFilter.java:7-24 | `h1 + h2` of probe `i`, with wrap-around after every operation, equals one affine map of the digest modulo 2^32, with multiplier `mulA[i] + mulB[i]` and offset `addA[i] + addB[i]` |
| `Hashing.AffineWraps` | BloomFilter.java:8-23 | each lambda `d * m + c`, evaluated in `int` arithmetic, is congruent to the exact value modulo 2^32 |
| `Hashing.NegativeDigestExample` | BloomFilter.java:40 | the 7 probe positions of digest -3 in an 80-bit filter are 5, 8, 16, 26, 40, 50 and 60; the first shows the truncating remainder (-5, then 5) |
| `Hashing.WrappingDigestExample` | BloomFilter.java:38-40 | for digest `0x7fffffff` and size 80, the first probe: `d*3` wraps to `0x7ffffffd`, `+ 7` wraps to `h1 = -2147483644`, `d*2` wraps to -2 so `h2 = 1`, the sum is -2147483643, its Java remainder is -43, and the position is 43 |
| `BitVector.Clear` | BloomFilter.java:27 | a fresh bit vector has `size` bits, all clear |
| `BitVector.SetBits` | BloomFilter.java:37-42 | setting the bits of a list of positions, one after another, keeps the length, sets every listed position, keeps every set bit set, and leaves every other bit unchanged |
| `BitVector.AllSet` | BloomFilter.java:45-53 | the condition `lookup` tests: every probe bit is set; a true answer also means every probe position is a valid index |
| `BitVector.SetBitsSnoc` | BloomFilter.java:41 | one more iteration of the insert loop sets exactly one more bit in the vector of the earlier iterations |
| `BitVector.AllSetSnoc` | BloomFilter.java:45-53 | the lookup check passes for one more position iff it passes for the earlier ones and that bit is set |
| `BitVector.AllSetPrefix` | BloomFilter.java:49-51 | a clear bit among the first probes makes the whole lookup false, which makes the early `return false` sound |
| `BitVector.SetBitsThenAllSet` | BloomFilter.java:36-54 | right after inserting an item, a lookup of that item finds all its probe bits set |
| `BitVector.SetBitsProbes` | BloomFilter.java:37-42 | after the insert loop, the bit at each of the digest's 7 probe positions `Math.abs((h1 + h2) % size)` is set |
| `BitVector.AllSetStable` | BloomFilter.java:41 | inserting any item never turns a lookup that was true into false |
| `BitVector.SetBitsIdempotent` | BloomFilter.java:36-43 | setting the same probe positions twice gives the same vector as setting them once |
| `BitVector.SetBitsCommute` | BloomFilter.java:36-43 | the vector does not depend on the order in which two items are inserted |
| `BitVector.InsertAll` | BloomFilter.java:36-43 | the vector left by a sequence of inserts has the original length and keeps every bit that was set before it |
| `BitVector.InsertAllSnoc` | BloomFilter.java:36-43 | inserting one more item sets that item's probe bits in the vector of the earlier history |
| `BitVector.InsertAllRepeat` | BloomFilter.java:36-43 | inserting an item twice in a row leaves the same vector as inserting it once |
| `BitVector.NoFalseNegatives` | BloomFilter.java:36-54 | after any history of inserts, every item in that history has all its probe bits set, whatever was inserted after it |
| `Bloom.DigestsOf` | BloomFilter.java:8 | the digests of a list of items are their `hashCode()` values, one per item, in order |
| `Bloom.BloomFilter.constructor` | BloomFilter.java:25-28 | a new filter has `size >= 1` bits, all clear, the given hash function, and an empty history |
| `Bloom.BloomFilter.Size` | BloomFilter.java:29-31 | returns `size`, which is at least 1 and equals the length of the bit vector |
| `Bloom.BloomFilter.Insert` | BloomFilter.java:36-43 | through `SetProbeBits`, the new vector is `SetBits` of the old one at the item's 7 probe positions; all those bits are set afterwards; the invariant is kept, and the item is added to the history; only the bits change |
| `Bloom.BloomFilter.SetProbeBits` | BloomFilter.java:37-42 | the `for` loop of `insert`: for i in 0..7 it sets the bit at `Math.abs((h1 + h2) % size)`, and the vector afterwards is `SetBits` of the one before at the digest's 7 probe positions; only the array's elements change |
| `Bloom.BloomFilter.Lookup` | BloomFilter.java:44-54 | returns true iff all 7 probe bits of the item are set; returns true for every item inserted so far (no false negatives); changes nothing |

## Left out

- Sizing formula (`BloomFilter.java:26`): floating point (`Math.log`,
  `Math.pow`). The constructor takes its result, `size >= 1`, as a
  parameter. The source truncates with an `(int)` cast and then clamps to 1
  with `Math.max`. It does not round up with a ceiling, as one might expect
  of the textbook formula. The model follows the code: 56 elements at
  probability 0.5 give 80 bits, not 81. The examples use that size.
- Rejection of degenerate constructor arguments: the source does not reject
  them. It takes `Math.max(1, (int) ...)`. That is 1 for many degenerate
  inputs, but it can be as large as `Integer.MAX_VALUE`. One case is
  probability 0 with a positive `expectedNumOfElements`: the logarithm is
  minus infinity and the cast saturates. Another is
  `expectedNumOfElements == Integer.MIN_VALUE` (its `int` negation wraps to
  itself) with probability 0.5. The model accepts any size in `[1, 2^31)`.
- `currentFalsePositiveRate` (`BloomFilter.java:32-35`): floating point
  (`Math.exp`, `Math.pow`). It reads only `size`.
- `hashCode()` of `T`: a foreign call. It is the constant function
  `hashCode: T -> i32` given to the constructor, so it is deterministic. A
  mutable item whose hash code changes after insertion is not modelled.
- Null items: every hash lambda calls `s.hashCode()`
  (`BloomFilter.java:8`, reached from `:38` and `:46`). So `insert(null)`
  and `lookup(null)` throw `NullPointerException` at `i = 0`, before any
  bit changes. The model's digest function is total and has no such error
  path. For a nullable item type it would digest `null` like any other value.
- `java.util.BitSet`: modelled as a fixed-length `array<bool>`. Every probe
  index is below `size`, so the set never grows past it.
- `BloomFilterGUI.java`: Swing presentation and reflective inspection of
  the filter's private fields. Its `getHashIndices` recomputes `Probes`.
- Concurrency: the class is single-threaded and has no synchronisation.
