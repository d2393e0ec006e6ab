/**
 * The filter's bit vector as a value: what `insert` does to it (set the bits
 * at a list of probe positions), what `lookup` asks of it (are they all
 * set), and the vector a history of inserts leaves behind.
 */
module BitVector {
  import opened JavaInt
  import opened Hashing

  /** The all-clear vector of `n` bits that a fresh filter starts from. */
  function Clear(n: nat): (b: seq<bool>)
    ensures |b| == n
    ensures forall j :: 0 <= j < n ==> !b[j]
  {
    seq(n, _ => false)
  }

  /**
   * `b` after setting, one after another, the bit at each position of `ps`:
   * exactly the probe positions become set, every set bit stays set, and no
   * other bit changes.
   */
  function SetBits(b: seq<bool>, ps: seq<int>): (r: seq<bool>)
    requires InRange(ps, |b|)
    ensures |r| == |b|
    ensures forall k :: 0 <= k < |ps| ==> r[ps[k]]
    ensures forall j {:trigger r[j]} :: 0 <= j < |b| && b[j] ==> r[j]
    ensures forall j {:trigger r[j]} :: 0 <= j < |b| && j !in ps ==> r[j] == b[j]
    decreases |ps|
  {
    if ps == [] then b
    else
      var front := ps[..|ps| - 1];
      assert forall j :: j in front ==> j in ps;
      SetBits(b, front)[ps[|ps| - 1] := true]
  }

  /**
   * All the bits at positions `ps` are set; a position outside the vector
   * counts as not set, so a true answer means every position is valid.
   */
  predicate AllSet(b: seq<bool>, ps: seq<int>)
    ensures AllSet(b, ps) ==> InRange(ps, |b|)
  {
    forall k :: 0 <= k < |ps| ==> 0 <= ps[k] < |b| && b[ps[k]]
  }

  /** Checking one more position: `AllSet` holds of the longer list iff that bit is set too. */
  lemma AllSetSnoc(b: seq<bool>, ps: seq<int>, p: int)
    ensures AllSet(b, ps + [p]) <==> AllSet(b, ps) && 0 <= p < |b| && b[p]
  {
    assert forall k :: 0 <= k < |ps| ==> (ps + [p])[k] == ps[k];
    assert (ps + [p])[|ps|] == p;
  }

  /** A query that fails on a prefix of the positions fails on all of them. */
  lemma AllSetPrefix(b: seq<bool>, ps: seq<int>, n: nat)
    requires n <= |ps|
    requires !AllSet(b, ps[..n])
    ensures !AllSet(b, ps)
  {
    var k :| 0 <= k < n && !(0 <= ps[..n][k] < |b| && b[ps[..n][k]]);
    assert ps[..n][k] == ps[k];
  }

  /** After setting the bits of `ps`, all of them read as set. */
  lemma SetBitsThenAllSet(b: seq<bool>, ps: seq<int>)
    requires InRange(ps, |b|)
    ensures AllSet(SetBits(b, ps), ps)
  {
  }

  /** After setting a digest's probe bits, the bit at each of its seven probe positions is set. */
  lemma SetBitsProbes(b: seq<bool>, d: i32, size: i32)
    requires size >= 1 && |b| == size as int
    ensures forall k :: 0 <= k < HASH_COUNT ==> SetBits(b, Probes(d, size))[ProbeIndex(d, k, size)]
  {
    forall k | 0 <= k < HASH_COUNT
      ensures SetBits(b, Probes(d, size))[ProbeIndex(d, k, size)]
    {
      ProbesAt(d, size, k);
    }
  }

  /** Setting bits never turns an `AllSet` query from true to false. */
  lemma AllSetStable(b: seq<bool>, ps: seq<int>, qs: seq<int>)
    requires InRange(ps, |b|)
    requires AllSet(b, qs)
    ensures AllSet(SetBits(b, ps), qs)
  {
  }

  /** Setting the same positions twice leaves the vector of setting them once. */
  lemma SetBitsIdempotent(b: seq<bool>, ps: seq<int>)
    requires InRange(ps, |b|)
    ensures SetBits(SetBits(b, ps), ps) == SetBits(b, ps)
  {
    var once := SetBits(b, ps);
    var twice := SetBits(once, ps);
    forall j | 0 <= j < |b|
      ensures twice[j] == once[j]
    {
      if j in ps {
        var k :| 0 <= k < |ps| && ps[k] == j;
      }
    }
  }

  /** The vector does not depend on the order in which two items are inserted. */
  lemma SetBitsCommute(b: seq<bool>, ps: seq<int>, qs: seq<int>)
    requires InRange(ps, |b|) && InRange(qs, |b|)
    ensures SetBits(SetBits(b, ps), qs) == SetBits(SetBits(b, qs), ps)
  {
    var pq := SetBits(SetBits(b, ps), qs);
    var qp := SetBits(SetBits(b, qs), ps);
    forall j | 0 <= j < |b|
      ensures pq[j] == qp[j]
    {
      if j in ps {
        var k :| 0 <= k < |ps| && ps[k] == j;
      }
      if j in qs {
        var k :| 0 <= k < |qs| && qs[k] == j;
      }
    }
  }

  /** The vector left by inserting the items with digests `ds`, in order, into `b`. */
  function InsertAll(b: seq<bool>, ds: seq<i32>, size: i32): (r: seq<bool>)
    requires size >= 1 && |b| == size as int
    ensures |r| == |b|
    ensures forall j :: 0 <= j < |b| && b[j] ==> r[j]
    decreases |ds|
  {
    if ds == [] then b
    else SetBits(InsertAll(b, ds[..|ds| - 1], size), Probes(ds[|ds| - 1], size))
  }

  /** Inserting one more item sets that item's probe bits in the previous vector. */
  lemma InsertAllSnoc(b: seq<bool>, ds: seq<i32>, d: i32, size: i32)
    requires size >= 1 && |b| == size as int
    ensures InsertAll(b, ds + [d], size) == SetBits(InsertAll(b, ds, size), Probes(d, size))
  {
    assert (ds + [d])[..|ds|] == ds;
  }

  /** The first `i + 1` positions are the first `i` followed by position `i`. */
  lemma PrefixSnoc(ps: seq<int>, i: nat)
    requires i < |ps|
    ensures ps[..i + 1] == ps[..i] + [ps[i]]
  {
  }

  /** A single set-bit step extends the fold over the probes by one position. */
  lemma SetBitsSnoc(b: seq<bool>, ps: seq<int>, p: int)
    requires InRange(ps, |b|) && 0 <= p < |b|
    ensures InRange(ps + [p], |b|)
    ensures SetBits(b, ps + [p]) == SetBits(b, ps)[p := true]
  {
    assert forall k :: 0 <= k < |ps| ==> (ps + [p])[k] == ps[k];
    assert (ps + [p])[..|ps|] == ps;
  }

  /**
   * No false negatives: whatever was inserted into the vector, in whatever
   * order and whatever came after it, has all its probe bits set.
   */
  lemma {:induction false} NoFalseNegatives(b: seq<bool>, ds: seq<i32>, size: i32, k: nat)
    requires size >= 1 && |b| == size as int
    requires k < |ds|
    ensures AllSet(InsertAll(b, ds, size), Probes(ds[k], size))
    decreases |ds|
  {
    var front := ds[..|ds| - 1];
    var last := Probes(ds[|ds| - 1], size);
    if k == |ds| - 1 {
      SetBitsThenAllSet(InsertAll(b, front, size), last);
    } else {
      NoFalseNegatives(b, front, size, k);
      assert front[k] == ds[k];
      AllSetStable(InsertAll(b, front, size), last, Probes(ds[k], size));
    }
  }

  /** Inserting an item right after itself leaves the vector of inserting it once. */
  lemma InsertAllRepeat(b: seq<bool>, ds: seq<i32>, d: i32, size: i32)
    requires size >= 1 && |b| == size as int
    ensures InsertAll(b, ds + [d, d], size) == InsertAll(b, ds + [d], size)
  {
    assert ds + [d, d] == (ds + [d]) + [d];
    InsertAllSnoc(b, ds + [d], d, size);
    InsertAllSnoc(b, ds, d, size);
    SetBitsIdempotent(InsertAll(b, ds, size), Probes(d, size));
  }
}
