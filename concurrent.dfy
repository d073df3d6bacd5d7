/** The versioned-buffer sketch (`minhash-concurrent.c`): writers insert into
    the buffer published by the tagged pointer `sketches[1]`, counting themselves
    in and out on its counter and on `insert_counter`. The model is the effect of
    each operation when it runs alone: every compare-and-swap finds the value it
    expects. */
module Concurrent {
  import opened Types
  import opened Hash
  import opened Minhash
  import opened SketchSpec
  import Utils

  /** The (buffer, counter) pair a tagged pointer holds; compared and swapped
      as one value. */
  datatype TaggedValue = TaggedValue(sketch: array<U64>, counter: I64)

  /** `union tagged_pointer` of the versioned-buffer sketch: a buffer and a signed
      64-bit counter. */
  class TaggedPointer {
    var sketch: array<U64>
    var counter: I64

    function Value(): (v: TaggedValue)
      reads this
      ensures v.sketch == sketch && v.counter == counter
    {
      TaggedValue(sketch, counter)
    }

    /** `alloc_aligned_tagged_pointer`: the counter argument is unsigned and is
        stored into the signed field. */
    constructor (ptr: array<U64>, counterVal: U64)
      ensures sketch == ptr && counter == U64ToI64(counterVal)
    {
      sketch := ptr;
      counter := U64ToI64(counterVal);
    }
  }

  /** `q_list`: a node of the list of query versions; only its empty head is used. */
  class QList {
    var querySketch: TaggedPointer?
    var next: QList?
  }

  /** `conc_minhash`, with its fields as the code uses them; `sketches` holds
      the two tagged-pointer slots. */
  class ConcMinhash {
    var N: U32
    var b: U32
    var size: U64
    var hashType: U32
    var hashFunctions: HashFamily
    var sketches: array<TaggedPointer>
    var insertCounter: I64
    var reclaiming: int
    var head: QList?

    ghost predicate Valid()
      reads this, sketches, sketches[..]
    {
      && sketches.Length == 2
      && sketches[0] != sketches[1]
      && sketches[0].sketch != sketches[1].sketch
      && sketches[0].sketch.Length == size && sketches[1].sketch.Length == size
      && Covers(hashFunctions, size) && Matches(hashFunctions, hashType)
    }

    /** The allocation part of `init_conc_minhash`: the record, its fields, two
        buffers each behind a tagged pointer with counter 0, both counters 0 and
        no version list. */
    constructor (hf: HashFamily, sketchSize: U64, hashType: U32, N: U32, b: U32)
      requires Covers(hf, sketchSize) && Matches(hf, hashType)
      ensures Valid()
      ensures fresh(sketches) && fresh(sketches[0]) && fresh(sketches[1])
      ensures fresh(sketches[0].sketch) && fresh(sketches[1].sketch)
      ensures this.N == N && this.b == b && size == sketchSize
      ensures this.hashType == hashType && hashFunctions == hf
      ensures sketches[0].counter == 0 && sketches[1].counter == 0
      ensures insertCounter == 0 && reclaiming == 0 && head == null
    {
      this.N, this.b, size := N, b, sketchSize;
      this.hashType, hashFunctions := hashType, hf;
      var s := new U64[sketchSize];
      var first := new TaggedPointer(s, 0);
      s := new U64[sketchSize];
      var second := new TaggedPointer(s, 0);
      sketches := new TaggedPointer[2] [first, second];
      insertCounter, reclaiming := 0, 0;
      head := null;
    }
  }

  /** `init_empty_sketch_conc_minhash`: the first `size` slots become INFTY. */
  method InitEmptySketchConcMinhash(sketch: array<U64>, size: U64)
    requires size <= sketch.Length
    modifies sketch
    ensures forall k :: 0 <= k < size ==> sketch[k] == INFTY
    ensures forall k :: size <= k < sketch.Length ==> sketch[k] == old(sketch[k])
  {
    var i: U64 := 0;
    while i < size
      invariant i <= size
      invariant forall k :: 0 <= k < i ==> sketch[k] == INFTY
      invariant forall k :: i <= k < sketch.Length ==> sketch[k] == old(sketch[k])
    {
      sketch[i] := INFTY;
      i := i + 1;
    }
  }

  /** `init_values_conc_minhash`: the elements 0 .. size-1 are inserted into the
      buffer of `sketches[0]`, and only there. */
  method InitValuesConcMinhash(sk: ConcMinhash, size: U64)
    requires sk.Valid()
    modifies sk.sketches[0].sketch
    ensures sk.sketches[0].sketch[..] ==
      InsertAll(old(sk.sketches[0].sketch[..]), sk.hashFunctions, Range(size))
    ensures sk.sketches[1].sketch[..] == old(sk.sketches[1].sketch[..])
  {
    assert sk.sketches[0].sketch != sk.sketches[1].sketch;
    Utils.InsertRange(sk.sketches[0].sketch, sk.size, sk.hashFunctions, sk.hashType, size);
  }

  /** `init_conc_minhash`: allocate, make the buffer of `sketches[0]` all INFTY,
      pre-populate it with 0 .. init_size-1 when init_size > 0, and copy it into
      the buffer of `sketches[1]`. */
  method InitConcMinhash(hf: HashFamily, sketchSize: U64, initSize: I32, hashType: U32, N: U32, b: U32)
    returns (sk: ConcMinhash)
    requires Covers(hf, sketchSize) && Matches(hf, hashType)
    ensures fresh(sk) && sk.Valid()
    ensures fresh(sk.sketches) && fresh(sk.sketches[0]) && fresh(sk.sketches[1])
    ensures fresh(sk.sketches[0].sketch) && fresh(sk.sketches[1].sketch)
    ensures sk.N == N && sk.b == b && sk.size == sketchSize
    ensures sk.hashType == hashType && sk.hashFunctions == hf
    ensures sk.sketches[0].sketch[..] ==
      if initSize > 0 then InsertAll(Empty(sketchSize), hf, Range(initSize)) else Empty(sketchSize)
    ensures sk.sketches[1].sketch[..] == sk.sketches[0].sketch[..]
    ensures sk.sketches[0].counter == 0 && sk.sketches[1].counter == 0
    ensures sk.insertCounter == 0 && sk.reclaiming == 0 && sk.head == null
  {
    sk := new ConcMinhash(hf, sketchSize, hashType, N, b);
    var src := sk.sketches[0].sketch;
    var dst := sk.sketches[1].sketch;
    InitEmptySketchConcMinhash(src, sk.size);
    assert src[..] == Empty(sketchSize);
    if initSize > 0 {
      InitValuesConcMinhash(sk, initSize as U64);
    }
    Utils.CopySlots(dst, src, sk.size);
    sk.head := null;
  }

  /** `atomic_compare_exchange_tagged_ptr` run alone: the pair is replaced by
      `desired` exactly when it equals `expected`; otherwise nothing changes.
      The value found is handed back, as the C code writes it into `expected`. */
  method CompareExchangeTagged(obj: TaggedPointer, expected: TaggedValue, desired: TaggedValue)
    returns (ok: bool, found: TaggedValue)
    modifies obj
    ensures found == old(obj.Value())
    ensures ok <==> old(obj.Value()) == expected
    ensures obj.Value() == if ok then desired else old(obj.Value())
  {
    found := obj.Value();
    ok := found == expected;
    if ok {
      obj.sketch, obj.counter := desired.sketch, desired.counter;
    }
  }

  /** `FetchAndInc128`: read the pair behind slot k, add `increment` to its
      counter in 64-bit arithmetic and swap the new pair in, retrying until the
      swap succeeds. The buffer stays the same, and the answer is the tagged
      pointer object that was updated (not a copy of its old value). */
  method FetchAndInc128(slots: array<TaggedPointer>, k: nat, increment: U64) returns (ptr: TaggedPointer)
    requires k < slots.Length
    modifies slots[k]
    ensures ptr == slots[k]
    ensures ptr.sketch == old(ptr.sketch)
    ensures ptr.counter == AddWrapI64(old(ptr.counter), increment)
  {
    ptr := slots[k];
    var done := false;
    while !done
      invariant ptr == slots[k]
      invariant !done ==> ptr.Value() == old(ptr.Value())
      invariant done ==> ptr.sketch == old(ptr.sketch) &&
                         ptr.counter == AddWrapI64(old(ptr.counter), increment)
      decreases if done then 0 else 1
    {
      ptr := slots[k];
      var current := ptr.Value();
      var newValue := current.(counter := AddWrapI64(current.counter, increment));
      var ok, _ := CompareExchangeTagged(slots[k], current, newValue);
      done := ok;
    }
  }

  /** `__atomic_compare_exchange_n` on one slot, run alone. */
  method CompareExchangeSlot(sketch: array<U64>, i: nat, expected: U64, desired: U64) returns (ok: bool)
    requires i < sketch.Length
    modifies sketch
    ensures ok <==> old(sketch[i]) == expected
    ensures sketch[..] == if ok then old(sketch[..])[i := desired] else old(sketch[..])
  {
    ok := sketch[i] == expected;
    if ok {
      sketch[i] := desired;
    }
  }

  /** The per-slot retry loop of `concurrent_basic_insert`: read the slot and,
      while `val` is below what was read, try to swap `val` in. A store happens
      only when `val` is smaller, so the slot never rises. */
  method LowerSlot(sketch: array<U64>, i: nat, val: U64)
    requires i < sketch.Length
    modifies sketch
    ensures sketch[i] == if val < old(sketch[i]) then val else old(sketch[i])
    ensures forall k :: 0 <= k < sketch.Length && k != i ==> sketch[k] == old(sketch[k])
  {
    var retry := true;
    while retry
      invariant retry ==> sketch[..] == old(sketch[..])
      invariant !retry ==> sketch[..] == old(sketch[..])[i := if val < old(sketch[i]) then val else old(sketch[i])]
      decreases if retry then 1 else 0
    {
      var seen := sketch[i];
      if val < seen {
        var ok := CompareExchangeSlot(sketch, i, seen, val);
        retry := !ok;
      } else {
        retry := false;
      }
    }
  }

  /** `concurrent_basic_insert` run alone: every slot i < size becomes
      min(old slot, h_i(elem)), which is what `basic_insert` computes; both
      `switch` branches apply the same rule with their own family. */
  method ConcurrentBasicInsert(sketch: array<U64>, size: U64, hf: HashFamily, hashType: U32, elem: U64)
    requires size <= sketch.Length && Covers(hf, size) && Matches(hf, hashType)
    modifies sketch
    ensures sketch[..size] == Lowered(old(sketch[..size]), hf, elem)
    ensures sketch[size..] == old(sketch[size..])
  {
    ghost var target := Lowered(old(sketch[..size]), hf, elem);
    var i: U64 := 0;
    if hashType == KWISE_HASH_TYPE {
      while i < size
        invariant i <= size
        invariant forall k :: 0 <= k < i ==> sketch[k] == target[k]
        invariant forall k :: i <= k < sketch.Length ==> sketch[k] == old(sketch[k])
      {
        var val := hf.kwiseAt(i, elem);
        assert val == H(hf, i, elem);
        LowerSlot(sketch, i, val);
        i := i + 1;
      }
    } else {
      while i < size
        invariant i <= size
        invariant forall k :: 0 <= k < i ==> sketch[k] == target[k]
        invariant forall k :: i <= k < sketch.Length ==> sketch[k] == old(sketch[k])
      {
        var val := PairwiseFunc(hf.funcs[i], elem);
        assert val == H(hf, i, elem);
        LowerSlot(sketch, i, val);
        i := i + 1;
      }
    }
    assert sketch[..size] == target;
  }

  /** `(b - 1) * N` as the code computes it, in unsigned 32-bit arithmetic: the
      largest `insert_counter` at which an insertion goes ahead without trying to
      claim a merge. */
  function MergeThreshold(b: U32, N: U32): (r: U32)
    ensures 1 <= b && (b - 1) * N < TWO_32 ==> r == (b - 1) * N
    ensures b == 0 ==> r == ((TWO_32 - 1) * N) % TWO_32
  {
    var d := (b + TWO_32 - 1) % TWO_32;
    assert d == if b == 0 then TWO_32 - 1 else b - 1;
    (d * N) % TWO_32
  }

  /** `-(sketch->N)`, the value a claim stores into `insert_counter`. N is a
      `uint32_t`, so the negation is taken modulo 2^32: the value stored is
      2^32 - N, which is not negative. */
  function ClaimSentinel(N: U32): (r: U32)
    ensures (r + N) % TWO_32 == 0
  {
    (TWO_32 - N) % TWO_32
  }

  /** The stored sentinel is never negative, so the wait for a merge
      (`while (insert_counter < 0)`) never waits on it; for N > 0, b >= 1 and
      b*N below 2^32 it also stays above the merge threshold, so a claim run alone
      re-enters the claim loop forever. */
  lemma SentinelStaysAbove(b: U32, N: U32)
    requires 0 < N && 1 <= b && b * N < TWO_32
    ensures U64ToI64(ClaimSentinel(N)) >= 0
    ensures ClaimSentinel(N) > MergeThreshold(b, N)
  {
    assert (b - 1) * N == b * N - N;
  }

  /** The sentinel as the wait for a merge evidently expects it: -N as a signed
      64-bit value, negative whenever N > 0, with the bit pattern of -N
      modulo 2^64. */
  function IntendedSentinel(N: U32): (r: I64)
    ensures r < 0 <==> N > 0
    ensures I64ToU64(r) == (TWO_64 - N) % TWO_64
  {
    -(N as int)
  }

  /** `__atomic_compare_exchange_n` on `insert_counter`, run alone. The
      expected value is the `uint64_t` bit pattern of the signed counter. */
  method CompareExchangeCounter(sk: ConcMinhash, expected: U64, desired: U64) returns (ok: bool)
    modifies sk`insertCounter
    ensures ok <==> I64ToU64(old(sk.insertCounter)) == expected
    ensures sk.insertCounter == if ok then U64ToI64(desired) else old(sk.insertCounter)
  {
    ok := I64ToU64(sk.insertCounter) == expected;
    if ok {
      sk.insertCounter := U64ToI64(desired);
    }
  }

  /** The claim loop of `insert_conc_minhash` run alone: while the counter, read
      as unsigned, is above the merge threshold, swap the sentinel in and read
      the counter again. `conc_merge` is only called when the swap fails, which
      does not happen when the loop runs alone. The loop ends when the counter
      starts at or below the threshold (nothing changes) or when the sentinel
      itself is at or below it (N = 0, or a threshold that wrapped); otherwise
      it never ends. */
  method ClaimLoop(sk: ConcMinhash)
    requires I64ToU64(sk.insertCounter) <= MergeThreshold(sk.b, sk.N) ||
             ClaimSentinel(sk.N) <= MergeThreshold(sk.b, sk.N)
    modifies sk`insertCounter
    ensures sk.insertCounter ==
      if I64ToU64(old(sk.insertCounter)) <= MergeThreshold(sk.b, sk.N) then old(sk.insertCounter)
      else ClaimSentinel(sk.N)
    ensures 0 <= I64ToU64(sk.insertCounter) <= MergeThreshold(sk.b, sk.N)
    ensures sk.insertCounter >= 0
  {
    var threshold := MergeThreshold(sk.b, sk.N);
    var oldCntr := I64ToU64(sk.insertCounter);
    while oldCntr > threshold
      invariant oldCntr == I64ToU64(sk.insertCounter)
      invariant sk.insertCounter ==
        if I64ToU64(old(sk.insertCounter)) <= threshold then old(sk.insertCounter)
        else if oldCntr > threshold then old(sk.insertCounter)
        else ClaimSentinel(sk.N)
      decreases if oldCntr > threshold then 1 else 0
    {
      var claimed := CompareExchangeCounter(sk, oldCntr, ClaimSentinel(sk.N));
      // A failed swap would call `conc_merge`, an empty stub.
      oldCntr := I64ToU64(sk.insertCounter);
    }
  }

  /** `insert_conc_minhash` run alone. The claim loop runs first and must end
      (see `ClaimLoop`); after it the counter is not negative, so the wait for a
      merge is not entered. The element goes into the buffer of `sketches[1]`,
      the buffer of `sketches[0]` is untouched, the tagged counter is back at
      its entry value and `insert_counter` at what the claim loop left. */
  method InsertConcMinhash(sk: ConcMinhash, val: U64)
    requires sk.Valid()
    requires I64ToU64(sk.insertCounter) <= MergeThreshold(sk.b, sk.N) ||
             ClaimSentinel(sk.N) <= MergeThreshold(sk.b, sk.N)
    modifies sk, sk.sketches[1], sk.sketches[1].sketch
    ensures sk.Valid()
    ensures sk.sketches == old(sk.sketches)
    ensures sk.sketches[1].sketch == old(sk.sketches[1].sketch)
    ensures sk.sketches[1].sketch[..] ==
      Lowered(old(sk.sketches[1].sketch[..]), sk.hashFunctions, val)
    ensures sk.sketches[0].sketch[..] == old(sk.sketches[0].sketch[..])
    ensures sk.sketches[1].counter == old(sk.sketches[1].counter)
    ensures sk.insertCounter ==
      if I64ToU64(old(sk.insertCounter)) <= MergeThreshold(sk.b, sk.N) then old(sk.insertCounter)
      else ClaimSentinel(sk.N)
    ensures sk.N == old(sk.N) && sk.b == old(sk.b) && sk.size == old(sk.size)
    ensures sk.hashType == old(sk.hashType) && sk.hashFunctions == old(sk.hashFunctions)
    ensures sk.reclaiming == old(sk.reclaiming) && sk.head == old(sk.head)
  {
    ClaimLoop(sk);
    // The wait for a merge is not entered: the counter is not negative.
    assert !(sk.insertCounter < 0);
    var insertSketch := FetchAndInc128(sk.sketches, 1, 1);
    sk.insertCounter := sk.insertCounter + 1;
    ConcurrentBasicInsert(insertSketch.sketch, sk.size, sk.hashFunctions, sk.hashType, val);
    sk.insertCounter := sk.insertCounter - 1;
    insertSketch := FetchAndInc128(sk.sketches, 1, TWO_64 - 1);
    AddWrapI64Restores(old(sk.sketches[1].counter), 1);
  }
}
