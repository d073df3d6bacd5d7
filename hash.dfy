/** The hash families a sketch draws its per-slot hash functions from. */
module Hash {
  import opened Types

  /** `random()` returns values in [0, 2^31). */
  const RANDOM_BOUND: int := 0x8000_0000

  /** One pairwise-independent hash function h(x) = (a*x + b) mod M. */
  datatype PairwiseHash = PairwiseHash(a: U64, b: U64, M: U64)

  /** `pairwise_func`: a*x + b is computed in wrapping 64-bit unsigned arithmetic
      and then reduced modulo M. It only reads a, b and M. */
  function PairwiseFunc(self: PairwiseHash, x: U64): (r: U64)
    requires self.M > 0
    ensures r < self.M
    ensures self.a * x + self.b < TWO_64 ==> r == (self.a * x + self.b) % self.M
  {
    var v: nat := self.a * x + self.b;
    assert v < TWO_64 ==> v % TWO_64 == v;
    (v % TWO_64) % self.M
  }

  /** With coefficients drawn by `random()` and elements below 2^32, the 64-bit
      product never wraps, so the function is the textbook affine hash. */
  lemma PairwiseNoWrap(self: PairwiseHash, x: U64)
    requires 0 < self.M
    requires self.a < RANDOM_BOUND && self.b < RANDOM_BOUND && x < TWO_32
    ensures PairwiseFunc(self, x) == (self.a * x + self.b) % self.M
  {
    assert self.a * x <= (RANDOM_BOUND - 1) * (TWO_32 - 1) by {
      MulMono(self.a, RANDOM_BOUND - 1, x, TWO_32 - 1);
    }
  }

  lemma MulMono(a: nat, a': nat, x: nat, x': nat)
    requires a <= a' && x <= x'
    ensures a * x <= a' * x'
  {
    assert a * x <= a' * x;
    assert a' * x <= a' * x';
  }

  /** The array of hash-function structs passed around as `void *`: either the
      k-wise family (whose function is not part of this model, so it is a
      parameter) or the pairwise family with its coefficients per slot. */
  datatype HashFamily =
    | Kwise(kwiseAt: (nat, U64) -> U64)
    | Pairwise(funcs: seq<PairwiseHash>)

  /** `hash_type` 1 selects the k-wise layout; every other value the pairwise one. */
  const KWISE_HASH_TYPE: U32 := 1

  /** The cast inside a `switch (hash_type)` agrees with the array actually passed:
      `hash_functions_init` builds the array from the same id. */
  predicate Matches(hf: HashFamily, hashType: U32) {
    (hashType == KWISE_HASH_TYPE) == hf.Kwise?
  }

  /** The family has a usable function for each of the first `size` slots
      (a pairwise modulus of 0 would divide by zero). */
  predicate Covers(hf: HashFamily, size: nat) {
    hf.Pairwise? ==>
      |hf.funcs| >= size && forall j :: 0 <= j < |hf.funcs| ==> hf.funcs[j].M > 0
  }

  /** h_i(x): the i-th struct's `hash_function` applied to x. A pairwise value
      is below the modulus of its own struct. */
  function H(hf: HashFamily, i: nat, x: U64): (r: U64)
    requires Covers(hf, i + 1)
    ensures hf.Pairwise? ==> r < hf.funcs[i].M
    ensures hf.Kwise? ==> r == hf.kwiseAt(i, x)
  {
    match hf
    case Kwise(f) => f(i, x)
    case Pairwise(funcs) => PairwiseFunc(funcs[i], x)
  }
}
