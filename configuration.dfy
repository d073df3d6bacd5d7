/** Creating and pre-populating a sketch (`configuration.c`). */
module Configuration {
  import opened Types
  import opened Hash
  import opened Minhash
  import opened SketchSpec
  import Serial

  /** `init_empty_values`: every slot becomes INFTY. */
  method InitEmptyValues(sk: MinhashSketch)
    requires sk.Valid()
    modifies sk.sketch
    ensures sk.sketch[..] == Empty(sk.size)
  {
    var i: U64 := 0;
    while i < sk.size
      invariant i <= sk.size
      invariant sk.sketch[..i] == Empty(i)
    {
      sk.sketch[i] := INFTY;
      i := i + 1;
    }
  }

  /** `init_values`: insert 0, 1, ..., size-1 in increasing order. */
  method InitValues(sk: MinhashSketch, size: U64)
    requires sk.Valid()
    modifies sk.sketch
    ensures sk.sketch[..] == InsertAll(old(sk.sketch[..]), sk.hashFunctions, Range(size))
  {
    var i: U64 := 0;
    while i < size
      invariant i <= size
      invariant sk.sketch[..] == InsertAll(old(sk.sketch[..]), sk.hashFunctions, Range(i))
    {
      assert Range(i + 1)[..i] == Range(i);
      Serial.Insert(sk, i);
      i := i + 1;
    }
  }

  /** `minhash_init`: allocate a sketch of `sketchSize` slots over the given
      family, fill it with INFTY, and pre-populate it with 0..initSize-1 when
      `initSize` is positive. */
  method MinhashInit(hf: HashFamily, sketchSize: U64, initSize: I32, hashType: U32)
    returns (sk: MinhashSketch)
    requires Covers(hf, sketchSize) && Matches(hf, hashType)
    ensures sk.Valid() && fresh(sk) && fresh(sk.sketch)
    ensures sk.size == sketchSize && sk.hashFunctions == hf && sk.hashType == hashType
    ensures sk.sketch[..] ==
      if initSize > 0 then InsertAll(Empty(sketchSize), hf, Range(initSize)) else Empty(sketchSize)
  {
    sk := new MinhashSketch(hf, sketchSize, hashType);
    InitEmptyValues(sk);
    if initSize > 0 {
      InitValues(sk, initSize);
    }
  }

  /** Right after `minhash_init` with a positive `initSize`, slot i is the least
      h_i(e) over e in [0, initSize); with `initSize` <= 0 every slot is INFTY. */
  lemma InitialSlots(hf: HashFamily, sketchSize: U64, initSize: I32, s: seq<U64>, i: nat)
    requires Covers(hf, sketchSize) && i < sketchSize
    requires s == if initSize > 0 then InsertAll(Empty(sketchSize), hf, Range(initSize)) else Empty(sketchSize)
    ensures s[i] == if initSize > 0 then MinOver(hf, i, initSize) else INFTY
  {
    if initSize > 0 {
      PrepopulatedSlot(sketchSize, hf, initSize, i);
    }
  }
}
