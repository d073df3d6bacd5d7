/** The lock-protected sketch (`minhash-parallel-lock.c`) with the mutex and
    read-write-lock calls taken out: what remains is the work done while the
    lock is held. */
module ParallelLock {
  import opened Types
  import opened Hash
  import opened Minhash
  import opened SketchSpec

  /** `insert_parallel`: dispatch on the sketch's hash type and lower every slot
      i to h_i(elem) where that is smaller. */
  method InsertParallel(sk: MinhashSketch, elem: U64)
    requires sk.Valid()
    modifies sk.sketch
    ensures sk.sketch[..] == Lowered(old(sk.sketch[..]), sk.hashFunctions, elem)
  {
    ghost var target := Lowered(sk.sketch[..], sk.hashFunctions, elem);
    var i: U64 := 0;
    if sk.hashType == KWISE_HASH_TYPE {
      while i < sk.size
        invariant i <= sk.size
        invariant forall k :: 0 <= k < i ==> sk.sketch[k] == target[k]
        invariant forall k :: i <= k < sk.size ==> sk.sketch[k] == old(sk.sketch[k])
      {
        var val := sk.hashFunctions.kwiseAt(i, elem);
        assert val == H(sk.hashFunctions, i, elem);
        if val < sk.sketch[i] {
          sk.sketch[i] := val;
        }
        i := i + 1;
      }
    } else {
      while i < sk.size
        invariant i <= sk.size
        invariant forall k :: 0 <= k < i ==> sk.sketch[k] == target[k]
        invariant forall k :: i <= k < sk.size ==> sk.sketch[k] == old(sk.sketch[k])
      {
        var val := PairwiseFunc(sk.hashFunctions.funcs[i], elem);
        assert val == H(sk.hashFunctions, i, elem);
        if val < sk.sketch[i] {
          sk.sketch[i] := val;
        }
        i := i + 1;
      }
    }
    assert sk.sketch[..] == target;
  }

  /** `query_parallel` up to the final division: the number of slots on which the
      two sketches agree. Neither sketch is modified. */
  method QueryParallel(sk: MinhashSketch, other: MinhashSketch) returns (count: nat)
    requires sk.sketch.Length == sk.size && other.sketch.Length >= sk.size
    ensures count == CountEqual(sk.sketch[..], other.sketch[..sk.size])
    ensures count <= sk.size
    ensures count == sk.size <==> sk.sketch[..] == other.sketch[..sk.size]
  {
    count := 0;
    var i: U64 := 0;
    while i < sk.size
      invariant i <= sk.size
      invariant count == CountEqual(sk.sketch[..i], other.sketch[..i])
    {
      assert sk.sketch[..i + 1][..i] == sk.sketch[..i];
      assert other.sketch[..i + 1][..i] == other.sketch[..i];
      if sk.sketch[i] == other.sketch[i] {
        count := count + 1;
      }
      i := i + 1;
    }
    assert sk.sketch[..i] == sk.sketch[..];
  }
}
