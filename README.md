# MinHash sketches, modelled in Dafny

This project models the core of a C library of MinHash sketches. A sketch is
an array of `size` unsigned 64-bit slots. It starts with every slot at
`INFTY` (UINT64_MAX). Slot i keeps the least value that the i-th hash
function has produced on the inserted elements. Two sketches are compared by
counting the slots on which they agree.

The library has several variants of the same sketch:

- a serial sketch (`insert`, `query`);
- a lock-protected sketch (`insert_parallel`, `query_parallel`);
- the propagation sketch (FCDS): N writers each own a local sketch. After `b`
  effective insertions a writer raises a flag, and a propagator thread merges
  that local sketch into a global one;
- a versioned-buffer sketch: writers insert into the buffer published by a
  tagged pointer (a buffer plus a counter swapped as one 128-bit word), and
  count themselves in and out.

Every variant computes slot i with the i-th struct's `hash_function`: the
k-wise function for hash type 1, `pairwise_func` otherwise. `insert`,
`insert_parallel` and `concurrent_basic_insert` each have their own lowering
loop, which does what `basic_insert` does. `basic_insert` itself is called by
`insert_fcds` and by the pre-population of the propagation and
versioned-buffer sketches. `merge` is called only by the propagator of the
propagation sketch.

Modules, one per source file:

- `Types`: C integer widths (`uint64_t`, `uint32_t`, `int`, `int64_t`). Unsigned
  wrap-around and two's-complement reinterpretation are written out.
- `Hash`: `pairwise_func`, and the hash-function array passed as `void *`. It
  is either the k-wise family or the pairwise family, selected by `hash_type`.
- `Minhash`: `INFTY` and the `minhash_sketch` record. `IS_EQUAL` is value equality, used inline by `SketchSpec.CountEqual` and the query loops.
- `SketchSpec`: the specification functions the methods are proved against.
  - `Lowered` is one insertion.
  - `MergedWith` is a slot-wise merge.
  - `InsertAll` inserts a stream of elements.
  - `CountEqual` counts agreeing slots.

  This module also holds the lemmas that relate these functions: order and
  duplicate independence, append, merge of separately filled sketches, and
  the content of a pre-populated sketch.
- `Utils`, `Serial`, `Configuration`, `ParallelLock`, `Fcds`, `Concurrent`:
  the C functions as imperative methods over arrays and classes. Each method
  is proved against the specification functions.

Concurrency is modelled as sequential steps. One method call is one step of
one thread, and every compare-and-swap runs alone (nothing else interferes).
The k-wise hash function is not part of the sources shown. It appears as a
function-valued parameter of the hash family.

Three facts about the versioned-buffer code shape its model:

- `FetchAndInc128` returns the tagged-pointer object it updated
  (src/parallel/minhash-concurrent.c:123), not a copy of its value before the
  increment.
- Insertions in progress are counted in a separate signed `insert_counter`
  (src/parallel/minhash-concurrent.c:186, :190). The tagged pointer's counter
  is one signed 64-bit field (include/linked_list.h:16) and holds no second
  count.
- `insert_conc_minhash(sketch, val)` (src/parallel/minhash-concurrent.c:169-194)
  works on a single pair of buffers. It has no ticket lock, no drain and no
  group index.

## Model

| member | source | states |
|---|---|---|
| Types.U64ToI64 | include/linked_list.h:16 | the result is the `int64_t` value equal to the input modulo 2^64 |
| Types.I64ToU64 | src/parallel/minhash-concurrent.c:171 | reading a signed counter as `uint64_t` gives back the same bit pattern |
| Types.AddWrapI64 | src/parallel/minhash-concurrent.c:110 | adding an unsigned increment to a signed 64-bit counter lands on the sum modulo 2^64 |
| Types.AddWrapI64Restores | src/parallel/minhash-concurrent.c:184-192 | adding d and then its two's-complement negation returns any signed counter to its value, whatever wrapped in between |
| Types.AddWrapU32 | src/fcds/minhash-fcds.c:141 | unsigned 32-bit addition is exact below 2^32 and wraps by 2^32 at or above it |
| Hash.PairwiseFunc | src/utils/hash.c:6-8 | the result is below M; when a*x+b does not exceed 64 bits it is (a*x+b) mod M |
| Hash.H | src/serial/minhash-serial.c:10 | h_i(x) is the i-th struct's function applied to x: the k-wise function of slot i, or a pairwise value below the modulus of the i-th struct |
| Hash.PairwiseNoWrap | src/configuration/configuration.c:131-135 | with a, b below 2^31 (from `random()`) and x below 2^32 the 64-bit product never wraps, so the result is exactly (a*x+b) mod M |
| Minhash.MinhashSketch.constructor | src/configuration/configuration.c:160-187 | a fresh record of `sketch_size` slots holding the given family and hash type |
| SketchSpec.Empty | include/minhash.h:13 | n slots, all INFTY |
| SketchSpec.Range | src/configuration/configuration.c:150-156 | the elements 0 .. n-1 in increasing order |
| SketchSpec.Lowered | src/utils/utils.c:10-16 | after one insertion each slot is at most its old value and at most h_i(elem), and equals one of them, so it is their minimum |
| SketchSpec.MergedWith | src/utils/utils.c:40-44 | each merged slot is at most both inputs and equals one of them, so it is their minimum |
| SketchSpec.InsertAll | src/configuration/configuration.c:152-155 | inserting a stream keeps the length and never raises a slot |
| SketchSpec.InsertAllSummarizes | src/configuration/configuration.c:152-155 | after a stream each slot is the least of its old value and its hashes of the stream's elements |
| SketchSpec.LoweredChangesIff | src/utils/utils.c:12-15 | an insertion changes the sketch exactly when some h_i(elem) is below slot i |
| SketchSpec.LoweredIdempotent | src/utils/utils.c:12-15 | inserting the same element twice is inserting it once, and afterwards no slot is above its hash, so a second `basic_insert` answers 0 |
| SketchSpec.LoweredCommutes | src/utils/utils.c:10-16 | two insertions give the same sketch in either order |
| SketchSpec.MergedWithIdempotent | src/utils/utils.c:40-44 | merging the same sketch twice is merging it once |
| SketchSpec.MergedWithChangesIff | src/utils/utils.c:41-44 | a merge changes the sketch exactly when some slot of the other sketch is smaller |
| SketchSpec.MergedWithCommutes | src/utils/utils.c:40-44 | merge is symmetric, and the all-INFTY sketch is its identity |
| SketchSpec.SummarizesUnique | src/utils/utils.c:10-16 | two sketches that summarize streams with the same elements from the same start are equal |
| SketchSpec.InsertAllSameElements | src/utils/utils.c:10-16 | streams with the same set of elements leave the same sketch (order and duplicates do not matter) |
| SketchSpec.InsertAllPermutation | src/utils/utils.c:10-16 | any reordering of a stream leaves the same sketch |
| SketchSpec.InsertAllAppend | src/configuration/configuration.c:152-155 | inserting xs and then ys is inserting xs + ys |
| SketchSpec.ReinsertionChangesNothing | src/utils/utils.c:12-15 | re-inserting elements already inserted leaves the sketch unchanged |
| SketchSpec.MergeOfInserts | src/fcds/minhash-fcds.c:225 | merging two sketches that started equal and saw xs and ys gives the sketch that saw xs + ys |
| SketchSpec.ThreadedInsertMatchesSequential | test/test_parallel_lock.c:133-179 | however the threads' chunks interleave with the main thread's full pass over the interval, the sketch equals one sequential pass over it |
| SketchSpec.MinOver | src/configuration/configuration.c:193-194 | the least h_i(e) over e in [0, k): a lower bound that is attained, or INFTY when k is 0 |
| SketchSpec.PrepopulatedSlot | src/configuration/configuration.c:189-194 | a sketch pre-populated with 0 .. k-1 holds in slot i the least h_i(e) over e in [0, k) |
| SketchSpec.CountEqual | src/parallel/minhash-parallel-lock.c:64-67 | the number of slots whose values are equal (the `IS_EQUAL` comparison of include/minhash.h:14) is at most the size, and equals the size exactly when the sketches are equal |
| SketchSpec.CountEqualSymmetric | src/parallel/minhash-parallel-lock.c:64-67 | the agreement count does not depend on the order of the two sketches |
| Utils.BasicInsert | src/utils/utils.c:3-33 | the first `size` slots become their minimum with h_i(elem), and the rest are untouched. The answer is 1 exactly when some h_i(elem) was below its slot, and 0 means nothing changed. Both hash-type branches satisfy this |
| Utils.Merge | src/utils/utils.c:36-46 | the first `size` slots become the slot-wise minimum with `other`, and `other` is unchanged. The answer is 1 exactly when the sketch changed |
| Utils.CopySketch | src/utils/utils.c:48-61 | a fresh array of `size` slots equal to the first `size` slots of the input |
| Utils.CopySlots | src/fcds/minhash-fcds.c:35-36 | the first n slots of the destination equal the source's, and the rest are untouched |
| Utils.InsertRange | src/fcds/minhash-fcds.c:30-32 | the array becomes the insertion of 0 .. n-1 into its old contents |
| Serial.Insert | src/serial/minhash-serial.c:6-15 | the sketch becomes one insertion of elem into its old contents |
| Serial.QueryResult | src/serial/minhash-serial.c:28 | count/size in integer division is 1 when the sketches are equal and 0 otherwise |
| Serial.Query | src/serial/minhash-serial.c:19-28 | the answer is 1 exactly when the sketches agree on every slot, and 0 exactly when they do not |
| Serial.QueryRatio | src/serial/minhash-serial.c:19-28 | `query` as evidently intended: the same count divided as a ratio, equal to `Similarity` of the two sketches |
| Serial.Similarity | src/parallel/minhash-parallel-lock.c:78 | the ratio of agreeing slots: between 0 and 1, 1 exactly for equal sketches, 0 exactly when no slot agrees, and times the size equal to the agreement count |
| Serial.SimilaritySymmetric | src/parallel/minhash-parallel-lock.c:78 | the ratio is symmetric in the two sketches |
| Serial.QueryTruncatesPartialAgreement | src/serial/minhash-serial.c:28 | two sketches agreeing on half their slots get 0 from `query` but 0.5 as ratio |
| Configuration.InitEmptyValues | src/configuration/configuration.c:143-148 | every slot becomes INFTY |
| Configuration.InitValues | src/configuration/configuration.c:150-156 | the sketch becomes its old contents with 0 .. size-1 inserted in order |
| Configuration.MinhashInit | src/configuration/configuration.c:158-197 | a fresh sketch with the given size, family and hash type, all INFTY, pre-populated with 0 .. init_size-1 only when init_size > 0 |
| Configuration.InitialSlots | src/configuration/configuration.c:189-194 | after `minhash_init` each slot is the least hash over [0, init_size), or INFTY when init_size <= 0 |
| ParallelLock.InsertParallel | src/parallel/minhash-parallel-lock.c:6-47 | the sketch becomes one insertion of elem into its old contents, in both hash-type branches |
| ParallelLock.QueryParallel | src/parallel/minhash-parallel-lock.c:51-67 | the count is the number of agreeing slots, at most the size, and equal to the size exactly when the sketches are equal |
| Fcds.FcdsSketch.constructor | src/fcds/minhash-fcds.c:43-95 | fresh global, collect and N distinct local arrays of `sketch_size` slots, the fields stored, and every flag 0 |
| Fcds.FillInfty | src/fcds/minhash-fcds.c:18-20 | the first n slots become INFTY and the rest are untouched |
| Fcds.InitEmptySketchFcds | src/fcds/minhash-fcds.c:9-22 | the global, collect and every local sketch become all INFTY |
| Fcds.InitValuesFcds | src/fcds/minhash-fcds.c:24-38 | the global sketch gets 0 .. size-1 inserted, and every local sketch becomes a copy of it |
| Fcds.InitFcds | src/fcds/minhash-fcds.c:41-104 | the fields stored, every flag 0, and every sketch all INFTY, or pre-populated with 0 .. init_size-1 (locals copied from global) when init_size > 0 |
| Fcds.CompareExchangeFlag | src/fcds/minhash-fcds.c:210-215 | the flag becomes `desired` exactly when it held `expected`; otherwise nothing changes, and the value found is returned |
| Fcds.InsertFcds | src/fcds/minhash-fcds.c:135-171 | only the writer's local sketch changes, by one insertion. The counter gains 1 exactly when it changed, and resets to 0 on reaching b, which raises the writer's flag to 1 and leaves the other flags alone. With b >= 1 the counter stays below b |
| Fcds.RequestPropagation | src/fcds/minhash-fcds.c:151-155 | the request loop as written: the writer's flag ends at 1 whatever it held, and no other flag changes |
| Fcds.RequestOverwritesClaim | src/fcds/minhash-fcds.c:151-155 | a request on a flag the propagator has claimed (2) sets it back to 1 |
| Fcds.RequestFromIdle | src/fcds/minhash-fcds.c:151 | the request as its comment intends: an attempt succeeds exactly when the flag is 0, raises it to 1, and otherwise changes nothing |
| Fcds.RequestFromIdleKeepsClaim | src/fcds/minhash-fcds.c:151 | the intended request leaves a claimed flag at 2 |
| Fcds.PropagatorStep | src/fcds/minhash-fcds.c:202-236 | a writer is claimed exactly when its flag is 1. Then the global sketch becomes its merge with that writer's local sketch and the flag returns to 0. Otherwise nothing changes |
| Fcds.Swept | src/fcds/minhash-fcds.c:199-242 | the global sketch after one sweep, merging in writer order each local whose flag is 1; it keeps its length, and its content is stated by `SweptIsLeastOfRequested` |
| Fcds.SweptIsLeastOfRequested | src/fcds/minhash-fcds.c:199-242 | after a sweep each global slot is the least of its old value and the matching slots of the locals whose flag was 1 |
| Fcds.PropagatorSweep | src/fcds/minhash-fcds.c:199-242 | one pass over all writers leaves the swept global sketch; flags that were 1 are 0, and all others are unchanged |
| Fcds.WriterRoundTrip | src/fcds/minhash-fcds.c:135-166 | a writer's insertion followed by the propagator step its wait depends on leaves every flag as it was. The counter gains 1 exactly when the local sketch changed and resets to 0 on reaching b. The global sketch is merged with the new local sketch exactly when the counter reached b, and is otherwise unchanged |
| Concurrent.TaggedPointer.constructor | src/parallel/minhash-concurrent.c:50 | a tagged pointer holding the given buffer and counter |
| Concurrent.ConcMinhash.constructor | src/parallel/minhash-concurrent.c:28-60 | two distinct fresh buffers behind two tagged pointers with counter 0, the fields stored, both counters 0 |
| Concurrent.InitEmptySketchConcMinhash | src/parallel/minhash-concurrent.c:5-11 | the first `size` slots become INFTY and the rest are untouched |
| Concurrent.InitValuesConcMinhash | src/parallel/minhash-concurrent.c:14-24 | the buffer of `sketches[0]` gets 0 .. size-1 inserted, and the buffer of `sketches[1]` is untouched |
| Concurrent.InitConcMinhash | src/parallel/minhash-concurrent.c:26-75 | `sketches[0]` is all INFTY, or pre-populated when init_size > 0, and `sketches[1]` is a slot-wise copy of it. Both tagged counters, `insert_counter` and `reclaiming` are 0, and `head` is null |
| Concurrent.CompareExchangeTagged | src/datatypes/linked_list.c:3-18 | the (buffer, counter) pair becomes `desired` exactly when it equals `expected`; otherwise nothing changes, and the pair found is returned |
| Concurrent.FetchAndInc128 | src/parallel/minhash-concurrent.c:92-124 | the buffer is unchanged, the counter gains `increment` modulo 2^64, and the updated tagged pointer itself is returned |
| Concurrent.CompareExchangeSlot | src/parallel/minhash-concurrent.c:146 | the slot becomes `desired` exactly when it held `expected`; otherwise nothing changes |
| Concurrent.LowerSlot | src/parallel/minhash-concurrent.c:144-146 | the slot becomes the minimum of its old value and `val`, and no other slot changes |
| Concurrent.ConcurrentBasicInsert | src/parallel/minhash-concurrent.c:136-163 | the first `size` slots become their minimum with h_i(elem) (as `basic_insert`), in both hash-type branches, and the rest are untouched |
| Concurrent.MergeThreshold | src/parallel/minhash-concurrent.c:172 | (b-1)*N as 32-bit unsigned arithmetic computes it, exact when it does not wrap |
| Concurrent.ClaimSentinel | src/parallel/minhash-concurrent.c:173 | `-(sketch->N)` in `uint32_t` arithmetic: the value that, added to N, is 0 modulo 2^32 |
| Concurrent.SentinelStaysAbove | src/parallel/minhash-concurrent.c:172-181 | the stored sentinel is not negative as a signed counter, and for N > 0, b >= 1 and b*N below 2^32 it is above the merge threshold |
| Concurrent.IntendedSentinel | src/parallel/minhash-concurrent.c:181 | -N as a signed 64-bit counter: negative exactly when N > 0, with the bit pattern of -N modulo 2^64 |
| Concurrent.CompareExchangeCounter | src/parallel/minhash-concurrent.c:173 | `insert_counter` becomes `desired` exactly when its unsigned bit pattern equals `expected`; otherwise nothing changes |
| Concurrent.ClaimLoop | src/parallel/minhash-concurrent.c:171-178 | a counter at or below the threshold is left alone; a counter above it becomes the sentinel. Either way the counter ends not negative and at or below the threshold |
| Concurrent.InsertConcMinhash | src/parallel/minhash-concurrent.c:169-194 | after the claim loop, the element is inserted into the buffer of `sketches[1]` and `sketches[0]` is untouched. The tagged counter of `sketches[1]` is back at its entry value, and `insert_counter` is at what the claim loop left |

## Left out

- Threads, atomics and memory orders. Each call runs alone: nothing else changes memory between a read and a compare-and-swap, so a retry loop ends once its swap succeeds. A swap can still fail when the code expects a value other than the one stored, as in the request loop of `insert_fcds`. Lock acquire and release in `minhash-parallel-lock.c` are dropped.
- The flag spin-wait at the end of `insert_fcds` (src/fcds/minhash-fcds.c:161-166). Run alone it would never end, because only the propagator lowers the flag. `Fcds.WriterRoundTrip` composes the request with the propagator step the wait depends on instead.
- The propagator's endless outer loop. `Fcds.PropagatorStep` is one writer of one pass, and `Fcds.PropagatorSweep` is one pass. The `minhash_print` call and the TODO version-list push are not modelled.
- Fcds.WriterRoundTrip: requires the writer's flag to be 0 on entry. In the protocol a writer only inserts after its previous wait saw 0. `Fcds.InsertFcds` itself has no such requirement.
- Concurrent.InsertConcMinhash: requires that the claim loop ends, i.e. `insert_counter` read as unsigned is at or below the merge threshold, or the sentinel 2^32 - N is (N = 0, or a threshold that wrapped, as with b = 0). Otherwise, run alone, the claim swap succeeds every time and stores 2^32 - N, which stays above the threshold, so the loop never ends (`Concurrent.SentinelStaysAbove`). `conc_merge` is only called when that swap fails (src/parallel/minhash-concurrent.c:173-174), so it plays no part. The same requirement is on `Concurrent.ClaimLoop`.
- `conc_merge` and `cache_query_sketch`: empty stubs.
- The version list of query sketches (`q_list`, `sketch_list.c`) and memory reclamation. Only the empty `head` is modelled.
- The 128-bit atomicity of `cmpxchg16b` and its inline-assembly variant. The tagged pair is compared and swapped as one value.
- Floating point: the `float` ratio of `query_parallel`. `ParallelLock.QueryParallel` returns the count, and `Serial.Similarity` states the ratio over the reals. `query_fcds` is a stub returning 0.0.
- ParallelLock.QueryParallel: the count is an unbounded natural. The source's `int` counter would overflow past 2^31 - 1 agreeing slots.
- Serial.Query: requires `size > 0`; the source divides by the size. The result is the integer quotient; its conversion to `float` is exact for 0 and 1.
- Allocation failure (`malloc` returning NULL, then `exit(1)`). Allocation always succeeds in the model.
- Serial.Insert: assumes `hash_functions[i]` is the i-th struct of the family actually passed. The source has no `hash_type` switch here and calls through the `pairwise_hash *` field (include/minhash.h:16-21). With a k-wise array (hash type 1, as test/test_parallel_lock.c:12 configures it before calling `insert` at :139) it indexes with the pairwise struct's size, which the model does not capture: `Hash.H` picks the family's own i-th function. `Configuration.InitValues` and `Configuration.MinhashInit`, which call `insert`, carry the same assumption.
- `hash_functions_init` with `random()`, and the k-wise hash function itself. The family is a parameter. `Hash.PairwiseNoWrap` states what the `random()` range guarantees.
- Configuration parsing, thread pinning, timing, printing, test drivers and the plotting scripts.
- The NUMA multi-group `insert_conc_minhash` called by the tests. It is not part of this model.
- The older `src/parallel/minhash-fcds.c`, whose `insert_fcds` and `query_fcds` are stubs. It is not part of this model.
- The record layouts of `fcds_sketch` and `conc_minhash` are not among the headers. Their fields and types are taken from how the code uses them: `N` and `b` as `uint32_t`, as `init_conc_minhash` receives them, and `insert_counter` as `int64_t`. The `hash_type` field of `minhash_sketch` is also absent from its header (include/minhash.h:16-21) and is taken from `minhash_init`. `reclaiming` is an unbounded integer because its width is not shown.

## Findings

| source | as written | input that shows it | evidently intended | confidence | as-written member | corrected member |
|---|---|---|---|---|---|---|
| src/serial/minhash-serial.c:28 | `count/sketch->size` divides two `uint64_t` values before the conversion to `float`, so `query` can only return 0 or 1 | two sketches of size 2 that agree on one slot, e.g. [3, 5] and [3, 7]: `query` returns 0 | the fraction of agreeing slots, 0.5 here, as `query_parallel` computes it with a `float` divisor (src/parallel/minhash-parallel-lock.c:78) | high, not executed | Serial.QueryTruncatesPartialAgreement | Serial.QueryRatio |
| src/parallel/minhash-concurrent.c:173 | the claim stores `-(sketch->N)` with N a `uint32_t`, so the value stored is 2^32 - N, which is positive. The wait `while (sketch->insert_counter < 0)` at :181 therefore never waits on a claim | N = 4, b = 2: the claim stores 4294967292 into `insert_counter`, which is not below 0 and is above the threshold 4 | -N as a signed counter, which the wait at :181 sees as negative | medium, not executed | Concurrent.SentinelStaysAbove | Concurrent.IntendedSentinel |
| src/fcds/minhash-fcds.c:151-153 | the request's strong compare-and-swap writes the value it found into `expected_prop` on failure, so the retry expects that value and succeeds. A flag of 2 (claimed by the propagator) becomes 1 | a writer whose flag is 2 when its counter reaches b: the flag becomes 1. The protocol does not reach this input while one writer owns each flag, because a writer requests only after its wait has seen 0 (the requirement of `Fcds.WriterRoundTrip`), so the defect is latent | only the transition from 0 to 1 (the comment at :151), retrying with `expected_prop` reset to 0 | medium, not executed | Fcds.RequestOverwritesClaim | Fcds.RequestFromIdle |
