/** The single-threaded sketch operations (`minhash-serial.c`). */
module Serial {
  import opened Types
  import opened Hash
  import opened Minhash
  import opened SketchSpec

  /** `insert`: lower every slot i to h_i(elem) where that is smaller. */
  method Insert(sk: MinhashSketch, elem: U64)
    requires sk.Valid()
    modifies sk.sketch
    ensures sk.sketch[..] == Lowered(old(sk.sketch[..]), sk.hashFunctions, elem)
  {
    ghost var target := Lowered(sk.sketch[..], sk.hashFunctions, elem);
    var i: U64 := 0;
    while i < sk.size
      invariant i <= sk.size
      invariant forall k :: 0 <= k < i ==> sk.sketch[k] == target[k]
      invariant forall k :: i <= k < sk.size ==> sk.sketch[k] == old(sk.sketch[k])
    {
      var val := H(sk.hashFunctions, i, elem);
      if val < sk.sketch[i] {
        sk.sketch[i] := val;
      }
      i := i + 1;
    }
    assert sk.sketch[..] == target;
  }

  /** What `query` returns: the equality count divided by the size in unsigned
      integer division, which is 1 when every slot agrees and 0 otherwise. */
  function QueryResult(a: seq<U64>, b: seq<U64>): (r: nat)
    requires |a| == |b| > 0
    ensures r == (if a == b then 1 else 0)
  {
    var count := CountEqual(a, b);
    assert count < |a| ==> count / |a| == 0;
    count / |a|
  }

  /** `query` as written: count the slots on which the sketches agree, then
      divide by the size in integer arithmetic. Neither sketch is modified. */
  method Query(sk: MinhashSketch, other: MinhashSketch) returns (r: U64)
    requires sk.size > 0 && sk.sketch.Length == sk.size && other.sketch.Length >= sk.size
    ensures r == QueryResult(sk.sketch[..], other.sketch[..sk.size])
    ensures r == 1 <==> sk.sketch[..] == other.sketch[..sk.size]
    ensures r == 0 <==> sk.sketch[..] != other.sketch[..sk.size]
  {
    var count: U64 := 0;
    var i: U64 := 0;
    while i < sk.size
      invariant i <= sk.size
      invariant count == CountEqual(sk.sketch[..i], other.sketch[..i])
    {
      assert sk.sketch[..i + 1][..i] == sk.sketch[..i];
      assert other.sketch[..i + 1][..i] == other.sketch[..i];
      if sk.sketch[i] == other.sketch[i] {
        count := count + 1;
      }
      i := i + 1;
    }
    assert sk.sketch[..i] == sk.sketch[..];
    r := count / sk.size;
  }

  /** The similarity estimate `query` is meant to return, as `query_parallel`
      computes it: the fraction of agreeing slots. */
  function Similarity(a: seq<U64>, b: seq<U64>): (r: real)
    requires |a| == |b| > 0
    ensures 0.0 <= r <= 1.0
    ensures r == 1.0 <==> a == b
    ensures r == 0.0 <==> CountEqual(a, b) == 0
    ensures r * (|a| as real) == CountEqual(a, b) as real
  {
    CountEqual(a, b) as real / |a| as real
  }

  /** `query` as evidently intended: the same count, divided by the size as a
      ratio rather than in integer arithmetic. */
  method QueryRatio(sk: MinhashSketch, other: MinhashSketch) returns (r: real)
    requires sk.size > 0 && sk.sketch.Length == sk.size && other.sketch.Length >= sk.size
    ensures r == Similarity(sk.sketch[..], other.sketch[..sk.size])
  {
    var count: U64 := 0;
    var i: U64 := 0;
    while i < sk.size
      invariant i <= sk.size
      invariant count == CountEqual(sk.sketch[..i], other.sketch[..i])
    {
      assert sk.sketch[..i + 1][..i] == sk.sketch[..i];
      assert other.sketch[..i + 1][..i] == other.sketch[..i];
      if sk.sketch[i] == other.sketch[i] {
        count := count + 1;
      }
      i := i + 1;
    }
    assert sk.sketch[..i] == sk.sketch[..];
    r := count as real / sk.size as real;
  }

  /** The estimate is symmetric in the two sketches. */
  lemma {:induction false} SimilaritySymmetric(a: seq<U64>, b: seq<U64>)
    requires |a| == |b| > 0
    ensures Similarity(a, b) == Similarity(b, a)
  {
    CountEqualSymmetric(a, b);
  }

  /** Two sketches that agree on one of their two slots: half the slots match,
      yet `query` answers 0. */
  lemma QueryTruncatesPartialAgreement()
    ensures QueryResult([3, 5], [3, 7]) == 0
    ensures Similarity([3, 5], [3, 7]) == 0.5
  {
    assert [3, 5][..1] == [3] && [3, 7][..1] == [3];
    assert CountEqual([3], [3]) == 1;
    assert CountEqual([3, 5], [3, 7]) == 1;
  }
}
