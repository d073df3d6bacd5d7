/** The slot-update kernel shared by every sketch variant (`utils.c`). */
module Utils {
  import opened Types
  import opened Hash
  import opened SketchSpec

  /** `basic_insert`: lower each of the first `size` slots to h_i(elem) where that
      is smaller; answer 1 when some slot was lowered and 0 otherwise. Both
      `switch` branches run the same loop and differ only in the family whose
      i-th function they call. */
  method BasicInsert(sketch: array<U64>, size: U64, hf: HashFamily, hashType: U32, elem: U64)
    returns (insertion: int)
    requires size <= sketch.Length && Covers(hf, size) && Matches(hf, hashType)
    modifies sketch
    ensures sketch[..size] == Lowered(old(sketch[..size]), hf, elem)
    ensures sketch[size..] == old(sketch[size..])
    ensures insertion == 0 || insertion == 1
    ensures insertion == 1 <==> exists i :: 0 <= i < size && H(hf, i, elem) < old(sketch[i])
    ensures insertion == 0 ==> sketch[..] == old(sketch[..])
  {
    ghost var target := Lowered(old(sketch[..size]), hf, elem);
    insertion := 0;
    var i: U64 := 0;
    if hashType == KWISE_HASH_TYPE {
      while i < size
        invariant i <= size
        invariant forall k :: 0 <= k < i ==> sketch[k] == target[k]
        invariant forall k :: i <= k < sketch.Length ==> sketch[k] == old(sketch[k])
        invariant insertion == 0 || insertion == 1
        invariant insertion == 1 <==> exists k :: 0 <= k < i && sketch[k] != old(sketch[k])
      {
        var val := hf.kwiseAt(i, elem);
        assert val == H(hf, i, elem);
        if val < sketch[i] {
          sketch[i] := val;
          insertion := 1;
        }
        i := i + 1;
      }
    } else {
      while i < size
        invariant i <= size
        invariant forall k :: 0 <= k < i ==> sketch[k] == target[k]
        invariant forall k :: i <= k < sketch.Length ==> sketch[k] == old(sketch[k])
        invariant insertion == 0 || insertion == 1
        invariant insertion == 1 <==> exists k :: 0 <= k < i && sketch[k] != old(sketch[k])
      {
        var val := PairwiseFunc(hf.funcs[i], elem);
        assert val == H(hf, i, elem);
        if val < sketch[i] {
          sketch[i] := val;
          insertion := 1;
        }
        i := i + 1;
      }
    }
    assert sketch[..size] == target;
    LoweredChangesIff(old(sketch[..size]), hf, elem);
    assert insertion == 1 <==> sketch[..size] != old(sketch[..size]);
    assert insertion == 0 ==> forall k :: 0 <= k < sketch.Length ==> sketch[k] == old(sketch[k]);
  }

  /** `merge`: lower each of the first `size` slots of `sketch` to the matching slot
      of `other`; answer 1 when some slot changed. `other` is only read. */
  method Merge(sketch: array<U64>, other: array<U64>, size: U64) returns (ismerge: int)
    requires size <= sketch.Length && size <= other.Length
    modifies sketch
    ensures sketch[..size] == MergedWith(old(sketch[..size]), old(other[..size]))
    ensures sketch[size..] == old(sketch[size..])
    ensures other[..] == old(other[..])
    ensures ismerge == 0 || ismerge == 1
    ensures ismerge == 1 <==> sketch[..size] != old(sketch[..size])
  {
    ismerge := 0;
    var i: U64 := 0;
    while i < size
      invariant i <= size
      invariant other[..] == old(other[..])
      invariant sketch[..i] == MergedWith(old(sketch[..size]), old(other[..size]))[..i]
      invariant sketch[i..] == old(sketch[i..])
      invariant ismerge == 0 || ismerge == 1
      invariant ismerge == 1 <==> exists k :: 0 <= k < i && old(sketch[k]) > old(other[k])
    {
      if sketch[i] > other[i] {
        sketch[i] := other[i];
        ismerge := 1;
      }
      i := i + 1;
    }
    MergedWithChangesIff(old(sketch[..size]), old(other[..size]));
  }

  /** `copy_sketch`: a new array holding the first `size` slots of `sketch`. */
  method CopySketch(sketch: array<U64>, size: U64) returns (copy: array<U64>)
    requires size <= sketch.Length
    ensures fresh(copy) && copy.Length == size
    ensures copy[..] == sketch[..size]
  {
    copy := new U64[size];
    var i: U64 := 0;
    while i < size
      invariant i <= size
      invariant copy[..i] == sketch[..i]
    {
      copy[i] := sketch[i];
      i := i + 1;
    }
  }

  /** The copy loop of `init_values_fcds` and `init_conc_minhash`: the first n
      slots of src are copied into dst, whose other slots keep their values. */
  method CopySlots(dst: array<U64>, src: array<U64>, n: U64)
    requires n <= dst.Length && n <= src.Length && dst != src
    modifies dst
    ensures dst[..n] == src[..n] && dst[n..] == old(dst[n..])
  {
    var j: U64 := 0;
    while j < n
      invariant j <= n
      invariant dst[..j] == src[..j] && dst[j..] == old(dst[j..])
    {
      dst[j] := src[j];
      j := j + 1;
    }
  }

  /** The insertion loop of `init_values_fcds` and `init_values_conc_minhash`:
      `basic_insert` of the elements 0 .. n-1, in increasing order. */
  method InsertRange(sketch: array<U64>, size: U64, hf: HashFamily, hashType: U32, n: U64)
    requires size == sketch.Length && Covers(hf, size) && Matches(hf, hashType)
    modifies sketch
    ensures sketch[..] == InsertAll(old(sketch[..]), hf, Range(n))
  {
    var i: U64 := 0;
    while i < n
      invariant i <= n
      invariant sketch[..] == InsertAll(old(sketch[..]), hf, Range(i))
    {
      assert Range(i + 1)[..i] == Range(i);
      var _ := BasicInsert(sketch, size, hf, hashType, i);
      i := i + 1;
    }
  }
}
