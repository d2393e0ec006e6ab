/**
 * The filter's hashing scheme: two families of seven affine maps of the
 * item's 32-bit digest (`hashSet1`, `hashSet2`), and the probe position
 * `Math.abs((h1 + h2) % size)` that the i-th pair selects in a bit vector of
 * `size` bits.
 */
module Hashing {
  import opened JavaInt

  /** Number of probes per item (the loop bound `i < 7`). */
  const HASH_COUNT: nat := 7

  /** Multipliers and offsets of `hashSet1`: `d * MUL_A[i] + ADD_A[i]`. */
  const MUL_A: seq<i32> := [3, 5, 7, 11, 13, 17, 19]
  const ADD_A: seq<i32> := [7, 11, 13, 17, 19, 23, 29]

  /** Multipliers and offsets of `hashSet2`: `d * MUL_B[i] + ADD_B[i]`. */
  const MUL_B: seq<i32> := [2, 3, 5, 7, 11, 13, 17]
  const ADD_B: seq<i32> := [3, 5, 7, 11, 13, 17, 19]

  /**
   * The i-th function of `hashSet1` applied to digest `d`, in `int`
   * arithmetic: the exact `d * MUL_A[i] + ADD_A[i]`, modulo 2^32.
   */
  function HashSet1(i: nat, d: i32): (r: i32)
    requires i < HASH_COUNT
    ensures (r as int - (d as int * MUL_A[i] as int + ADD_A[i] as int)) % TWO_32 == 0
  {
    AffineWraps(d, MUL_A[i], ADD_A[i]);
    Add(Mul(d, MUL_A[i]), ADD_A[i])
  }

  /**
   * The i-th function of `hashSet2` applied to digest `d`, in `int`
   * arithmetic: the exact `d * MUL_B[i] + ADD_B[i]`, modulo 2^32.
   */
  function HashSet2(i: nat, d: i32): (r: i32)
    requires i < HASH_COUNT
    ensures (r as int - (d as int * MUL_B[i] as int + ADD_B[i] as int)) % TWO_32 == 0
  {
    AffineWraps(d, MUL_B[i], ADD_B[i]);
    Add(Mul(d, MUL_B[i]), ADD_B[i])
  }

  /** Every position in `ps` addresses a bit of a vector of length `n`. */
  predicate InRange(ps: seq<int>, n: int)
  {
    forall k :: 0 <= k < |ps| ==> 0 <= ps[k] < n
  }

  /**
   * The i-th probe position of digest `d`. Java's remainder is below `size`
   * in magnitude, so `Math.abs` never meets `MIN_INT` and the position is a
   * valid bit index.
   */
  function ProbeIndex(d: i32, i: nat, size: i32): (r: i32)
    requires i < HASH_COUNT && size >= 1
    ensures 0 <= r < size
  {
    Abs(Rem(Add(HashSet1(i, d), HashSet2(i, d)), size))
  }

  /** The seven probe positions of digest `d`, in the order the loops visit them. */
  function Probes(d: i32, size: i32): (ps: seq<int>)
    requires size >= 1
    ensures |ps| == HASH_COUNT
    ensures InRange(ps, size as int)
  {
    seq(HASH_COUNT, k requires 0 <= k < HASH_COUNT => ProbeIndex(d, k, size) as int)
  }

  /** The i-th entry of `Probes` is the position the i-th loop iteration computes. */
  lemma ProbesAt(d: i32, size: i32, i: nat)
    requires size >= 1 && i < HASH_COUNT
    ensures Probes(d, size)[i] == Abs(Rem(Add(HashSet1(i, d), HashSet2(i, d)), size)) as int
    ensures Probes(d, size)[i] == ProbeIndex(d, i, size) as int
  {
  }

  /**
   * Each probe wraps twice per family and once for the sum, yet the result
   * is a single affine map of the digest modulo 2^32: the two families
   * together contribute only the summed multiplier and offset.
   */
  lemma ProbeSumIsAffine(i: nat, d: i32)
    requires i < HASH_COUNT
    ensures Add(HashSet1(i, d), HashSet2(i, d))
         == Wrap(d as int * (MUL_A[i] as int + MUL_B[i] as int) + ADD_A[i] as int + ADD_B[i] as int)
  {
    var a := d as int * MUL_A[i] as int + ADD_A[i] as int;
    var b := d as int * MUL_B[i] as int + ADD_B[i] as int;
    var h1, h2 := HashSet1(i, d) as int, HashSet2(i, d) as int;
    DivisibleAdd(h1 - a, h2 - b);
    assert (h1 + h2) - (a + b) == (h1 - a) + (h2 - b);
    WrapCongruent(h1 + h2, a + b);
    assert a + b == d as int * (MUL_A[i] as int + MUL_B[i] as int) + ADD_A[i] as int + ADD_B[i] as int;
  }

  /** `d * m + c` with a wrap after each operation agrees with the exact value modulo 2^32. */
  lemma AffineWraps(d: i32, m: i32, c: i32)
    ensures (Add(Mul(d, m), c) as int - (d as int * m as int + c as int)) % TWO_32 == 0
  {
    var p := Mul(d, m) as int;
    var s := Add(Mul(d, m), c) as int;
    assert (p - d as int * m as int) % TWO_32 == 0;
    assert (s - (p + c as int)) % TWO_32 == 0;
    DivisibleAdd(s - (p + c as int), p - d as int * m as int);
    assert s - (d as int * m as int + c as int) == (s - (p + c as int)) + (p - d as int * m as int);
  }

  /**
   * Probe positions in an 80-bit filter (the size `(int) (56 / ln 2)` that a
   * filter for 56 elements at probability 0.5 gets). For the digest -3 the
   * first sum is -5, and Java's remainder keeps its sign: -5, then 5, where a
   * Euclidean `%` would give 75.
   */
  lemma NegativeDigestExample()
    ensures Probes(-3, 80) == [5, 8, 16, 26, 40, 50, 60]
  {
    assert HashSet1(0, -3) == -2 && HashSet2(0, -3) == -3;
    assert ProbeIndex(-3, 0, 80) == 5;
    assert HashSet1(1, -3) == -4 && HashSet2(1, -3) == -4;
    assert ProbeIndex(-3, 1, 80) == 8;
    assert HashSet1(2, -3) == -8 && HashSet2(2, -3) == -8;
    assert ProbeIndex(-3, 2, 80) == 16;
    assert HashSet1(3, -3) == -16 && HashSet2(3, -3) == -10;
    assert ProbeIndex(-3, 3, 80) == 26;
    assert HashSet1(4, -3) == -20 && HashSet2(4, -3) == -20;
    assert ProbeIndex(-3, 4, 80) == 40;
    assert HashSet1(5, -3) == -28 && HashSet2(5, -3) == -22;
    assert ProbeIndex(-3, 5, 80) == 50;
    assert HashSet1(6, -3) == -28 && HashSet2(6, -3) == -32;
    assert ProbeIndex(-3, 6, 80) == 60;
  }

  /**
   * The largest digest, at the first probe of an 80-bit filter: `d * 3`
   * overflows and wraps to 0x7fff_fffd, `+ 7` then wraps to a negative
   * `h1`, `d * 2` wraps to -2, and the sum leaves the negative remainder
   * -43 that `Math.abs` folds back to position 43.
   */
  lemma WrappingDigestExample()
    ensures Mul(0x7fff_ffff, 3) == 0x7fff_fffd
    ensures HashSet1(0, 0x7fff_ffff) == -2147483644
    ensures Mul(0x7fff_ffff, 2) == -2
    ensures HashSet2(0, 0x7fff_ffff) == 1
    ensures Add(HashSet1(0, 0x7fff_ffff), HashSet2(0, 0x7fff_ffff)) == -2147483643
    ensures Rem(-2147483643, 80) == -43
    ensures ProbeIndex(0x7fff_ffff, 0, 80) == 43
  {
  }
}
