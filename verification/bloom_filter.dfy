/**
 * The Bloom filter object: a fixed-length bit vector that `Insert` sets bits
 * in and `Lookup` reads, both through the seven probe positions of the
 * item's digest.
 */
module Bloom {
  import opened JavaInt
  import opened Hashing
  import opened BitVector

  /** The digests of `items`, in order. */
  function DigestsOf<T>(hashCode: T -> i32, items: seq<T>): (ds: seq<i32>)
    ensures |ds| == |items|
    ensures forall k :: 0 <= k < |items| ==> ds[k] == hashCode(items[k])
  {
    seq(|items|, k requires 0 <= k < |items| => hashCode(items[k]))
  }

  lemma DigestsSnoc<T>(hashCode: T -> i32, items: seq<T>, x: T)
    ensures DigestsOf(hashCode, items + [x]) == DigestsOf(hashCode, items) + [hashCode(x)]
  {
  }

  class BloomFilter<T> {
    /** The bit vector, `size` bits long; a bit is never cleared. */
    const bitArray: array<bool>
    /** Number of bits, fixed at construction. */
    const size: i32
    /** The items' `hashCode()`, the 32-bit digest both hash families start from. */
    const hashCode: T -> i32
    /** Every item inserted so far, oldest first. */
    ghost var history: seq<T>

    /**
     * The object invariant: the vector has `size >= 1` bits and holds exactly
     * what inserting the history into an all-clear vector produces.
     */
    ghost predicate Valid()
      reads this, bitArray
    {
      && size >= 1
      && bitArray.Length == size as int
      && bitArray[..] == InsertAll(Clear(size as int), DigestsOf(hashCode, history), size)
    }

    /** A filter of `size` bits, all clear, that has seen no item. */
    constructor (size: i32, hashCode: T -> i32)
      requires size >= 1
      ensures Valid() && fresh(bitArray)
      ensures this.size == size && this.hashCode == hashCode
      ensures bitArray[..] == Clear(size as int) && history == []
    {
      this.size := size;
      this.hashCode := hashCode;
      bitArray := new bool[size as int](_ => false);
      history := [];
    }

    /** The number of bits, which is also the bound on every probe position. */
    function Size(): (n: i32)
      reads this, bitArray
      requires Valid()
      ensures n >= 1 && n as int == bitArray.Length
    {
      size
    }

    /**
     * Sets the bit at each of the item's seven probe positions and no other;
     * bits already set stay set.
     */
    method Insert(item: T)
      requires Valid()
      modifies this, bitArray
      ensures Valid()
      ensures history == old(history) + [item]
      ensures bitArray[..] == SetBits(old(bitArray[..]), Probes(hashCode(item), size))
      ensures forall k :: 0 <= k < HASH_COUNT ==> bitArray[ProbeIndex(hashCode(item), k, size)]
    {
      ghost var before := bitArray[..];
      SetProbeBits(hashCode(item));
      SetBitsProbes(before, hashCode(item), size);
      assert forall k :: 0 <= k < HASH_COUNT ==> bitArray[ProbeIndex(hashCode(item), k, size)];
      DigestsSnoc(hashCode, history, item);
      InsertAllSnoc(Clear(size as int), DigestsOf(hashCode, history), hashCode(item), size);
      history := history + [item];
    }

    /**
     * The loop of `insert`: for i in 0..7, set the bit at
     * `Math.abs((hashSet1[i](d) + hashSet2[i](d)) % size)`. It needs only the
     * vector's length, not the whole invariant, and touches only the bits.
     */
    method SetProbeBits(d: i32)
      requires size >= 1 && bitArray.Length == size as int
      modifies bitArray
      ensures bitArray[..] == SetBits(old(bitArray[..]), Probes(d, size))
    {
      ghost var before := bitArray[..];
      ghost var ps := Probes(d, size);
      for i := 0 to HASH_COUNT
        invariant bitArray[..] == SetBits(before, ps[..i])
      {
        var h1 := HashSet1(i, d);
        var h2 := HashSet2(i, d);
        var index := Abs(Rem(Add(h1, h2), size));
        ProbesAt(d, size, i);
        SetBitsSnoc(before, ps[..i], ps[i]);
        PrefixSnoc(ps, i);
        bitArray[index] := true;
      }
      assert ps[..HASH_COUNT] == ps;
    }

    /**
     * True exactly when all seven probe bits of the item are set; stops at
     * the first clear one. An inserted item is always found.
     */
    method Lookup(item: T) returns (found: bool)
      requires Valid()
      ensures found <==> AllSet(bitArray[..], Probes(hashCode(item), size))
      ensures item in history ==> found
    {
      if item in history {
        var k :| 0 <= k < |history| && history[k] == item;
        NoFalseNegatives(Clear(size as int), DigestsOf(hashCode, history), size, k);
      }
      ghost var ps := Probes(hashCode(item), size);
      for i := 0 to HASH_COUNT
        invariant AllSet(bitArray[..], ps[..i])
      {
        var h1 := HashSet1(i, hashCode(item));
        var h2 := HashSet2(i, hashCode(item));
        var index := Abs(Rem(Add(h1, h2), size));
        ProbesAt(hashCode(item), size, i);
        AllSetSnoc(bitArray[..], ps[..i], ps[i]);
        PrefixSnoc(ps, i);
        if !bitArray[index] {
          AllSetPrefix(bitArray[..], ps, i + 1);
          return false;
        }
      }
      assert ps[..HASH_COUNT] == ps;
      return true;
    }
  }
}
