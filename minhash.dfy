/** The sketch record of `minhash.h` and its constants. */
module Minhash {
  import opened Types
  import opened Hash

  /** The value every slot starts from: UINT64_MAX. */
  const INFTY: U64 := TWO_64 - 1

  /** `minhash_sketch`: `size` slots, the hash family and the id of its layout. */
  class MinhashSketch {
    var size: U64
    var sketch: array<U64>
    var hashFunctions: HashFamily
    var hashType: U32

    ghost predicate Valid()
      reads this
    {
      sketch.Length == size && Covers(hashFunctions, size) && Matches(hashFunctions, hashType)
    }

    /** The allocation in `minhash_init`: the record, its fields and an
        uninitialised slot array of `sketchSize` slots. */
    constructor (hf: HashFamily, sketchSize: U64, hashType: U32)
      requires Covers(hf, sketchSize) && Matches(hf, hashType)
      ensures Valid() && fresh(sketch)
      ensures size == sketchSize && hashFunctions == hf && this.hashType == hashType
    {
      size := sketchSize;
      this.hashType := hashType;
      sketch := new U64[sketchSize];
      hashFunctions := hf;
    }
  }
}
