/** The propagation sketch (`minhash-fcds.c`): each of N writers owns a local
    sketch; after b effective insertions a writer raises its flag, and the
    propagator merges that local sketch into the global one and lowers the flag.
    The threads are modelled as a sequential state machine: one call is one step
    of one thread. */
module Fcds {
  import opened Types
  import opened Hash
  import opened Minhash
  import opened SketchSpec
  import Utils

  /** Flag values of `prop[i]`. */
  const IDLE: U32 := 0
  const REQUESTED: U32 := 1
  const CLAIMED: U32 := 2

  /** `fcds_sketch`, with its fields as the code uses them. */
  class FcdsSketch {
    var N: U32
    var b: U32
    var size: U64
    var hashType: U32
    var hashFunctions: HashFamily
    var globalSketch: array<U64>
    var collectSketch: array<U64>
    var prop: array<U32>
    var localSketches: seq<array<U64>>

    ghost predicate Valid()
      reads this
    {
      && globalSketch.Length == size && collectSketch.Length == size
      && prop.Length == N && |localSketches| == N
      && globalSketch != collectSketch
      && (forall w :: 0 <= w < |localSketches| ==>
            localSketches[w].Length == size &&
            localSketches[w] != globalSketch && localSketches[w] != collectSketch)
      && (forall v, w :: 0 <= v < w < |localSketches| ==> localSketches[v] != localSketches[w])
      && Covers(hashFunctions, size) && Matches(hashFunctions, hashType)
    }

    /** The contents of the N local sketches. */
    ghost function Locals(): (r: seq<seq<U64>>)
      reads this, localSketches
      ensures |r| == |localSketches|
      ensures forall w :: 0 <= w < |localSketches| ==> r[w] == localSketches[w][..]
    {
      var ls := localSketches;
      seq(|ls|, w requires 0 <= w < |ls| reads ls => ls[w][..])
    }

    /** The allocation part of `init_fcds`: the record, its fields, the global and
        collect arrays, N flags stored as 0, and N local arrays. */
    constructor (hf: HashFamily, sketchSize: U64, hashType: U32, N: U32, b: U32)
      requires Covers(hf, sketchSize) && Matches(hf, hashType)
      ensures Valid()
      ensures fresh(globalSketch) && fresh(collectSketch) && fresh(prop)
      ensures forall w :: 0 <= w < |localSketches| ==> fresh(localSketches[w])
      ensures this.N == N && this.b == b && size == sketchSize
      ensures this.hashType == hashType && hashFunctions == hf
      ensures forall w :: 0 <= w < N ==> prop[w] == IDLE
    {
      var g := new U64[sketchSize];
      var c := new U64[sketchSize];
      var p := new U32[N];
      var i: U32 := 0;
      while i < N
        invariant i <= N
        invariant forall w :: 0 <= w < i ==> p[w] == IDLE
      {
        p[i] := IDLE;
        i := i + 1;
      }
      var locals: seq<array<U64>> := [];
      while |locals| < N
        invariant |locals| <= N
        invariant forall w :: 0 <= w < |locals| ==>
          fresh(locals[w]) && locals[w].Length == sketchSize && locals[w] != g && locals[w] != c
        invariant forall v, w :: 0 <= v < w < |locals| ==> locals[v] != locals[w]
        invariant forall w :: 0 <= w < N ==> p[w] == IDLE
      {
        var a := new U64[sketchSize];
        locals := locals + [a];
      }
      this.N, this.b, size := N, b, sketchSize;
      this.hashType, hashFunctions := hashType, hf;
      globalSketch, collectSketch, prop, localSketches := g, c, p, locals;
    }
  }

  /** The inner loop of `init_empty_sketch_fcds`: the first n slots of a become INFTY. */
  method FillInfty(a: array<U64>, n: U64)
    requires n <= a.Length
    modifies a
    ensures a[..n] == Empty(n) && a[n..] == old(a[n..])
  {
    var j: U64 := 0;
    while j < n
      invariant j <= n
      invariant a[..j] == Empty(j) && a[j..] == old(a[j..])
    {
      a[j] := INFTY;
      j := j + 1;
    }
  }

  /** `init_empty_sketch_fcds`: the global, collect and every local sketch become
      all INFTY. */
  method InitEmptySketchFcds(sk: FcdsSketch)
    requires sk.Valid()
    modifies sk.globalSketch, sk.collectSketch, sk.localSketches
    ensures sk.globalSketch[..] == Empty(sk.size)
    ensures sk.collectSketch[..] == Empty(sk.size)
    ensures forall w :: 0 <= w < sk.N ==> sk.localSketches[w][..] == Empty(sk.size)
  {
    var i: U64 := 0;
    while i < sk.size
      invariant i <= sk.size
      invariant sk.globalSketch[..i] == Empty(i) && sk.collectSketch[..i] == Empty(i)
    {
      sk.globalSketch[i] := INFTY;
      sk.collectSketch[i] := INFTY;
      i := i + 1;
    }
    var w: U32 := 0;
    while w < sk.N
      invariant w <= sk.N
      invariant sk.globalSketch[..] == Empty(sk.size) && sk.collectSketch[..] == Empty(sk.size)
      invariant forall v :: 0 <= v < w ==> sk.localSketches[v][..] == Empty(sk.size)
    {
      FillInfty(sk.localSketches[w], sk.size);
      w := w + 1;
    }
  }

  /** `init_values_fcds`: insert 0..size-1 into the global sketch, then make every
      local sketch a copy of it. */
  method InitValuesFcds(sk: FcdsSketch, size: U64)
    requires sk.Valid()
    modifies sk.globalSketch, sk.localSketches
    ensures sk.globalSketch[..] == InsertAll(old(sk.globalSketch[..]), sk.hashFunctions, Range(size))
    ensures forall w :: 0 <= w < sk.N ==> sk.localSketches[w][..] == sk.globalSketch[..]
  {
    var global := sk.globalSketch;
    Utils.InsertRange(global, sk.size, sk.hashFunctions, sk.hashType, size);
    ghost var g := global[..];
    var w: U32 := 0;
    while w < sk.N
      invariant w <= sk.N
      invariant global[..] == g
      invariant forall v :: 0 <= v < w ==> sk.localSketches[v][..] == g
    {
      Utils.CopySlots(sk.localSketches[w], global, sk.size);
      w := w + 1;
    }
  }

  /** `init_fcds`: allocate, store N, b and the size, set every flag to 0, fill
      every sketch with INFTY and pre-populate only when `initSize` is positive. */
  method InitFcds(hf: HashFamily, sketchSize: U64, initSize: I32, hashType: U32, N: U32, b: U32)
    returns (sk: FcdsSketch)
    requires Covers(hf, sketchSize) && Matches(hf, hashType)
    ensures sk.Valid() && fresh(sk)
    ensures fresh(sk.globalSketch) && fresh(sk.collectSketch) && fresh(sk.prop)
    ensures forall w :: 0 <= w < |sk.localSketches| ==> fresh(sk.localSketches[w])
    ensures sk.N == N && sk.b == b && sk.size == sketchSize
    ensures sk.hashType == hashType && sk.hashFunctions == hf
    ensures forall w :: 0 <= w < N ==> sk.prop[w] == IDLE
    ensures sk.collectSketch[..] == Empty(sketchSize)
    ensures sk.globalSketch[..] ==
      if initSize > 0 then InsertAll(Empty(sketchSize), hf, Range(initSize)) else Empty(sketchSize)
    ensures forall w :: 0 <= w < N ==> sk.localSketches[w][..] == sk.globalSketch[..]
  {
    sk := new FcdsSketch(hf, sketchSize, hashType, N, b);
    InitEmptySketchFcds(sk);
    if initSize > 0 {
      InitValuesFcds(sk, initSize);
    }
  }

  /** A strong compare-and-swap on one flag, run without contention. */
  method CompareExchangeFlag(prop: array<U32>, i: nat, expected: U32, desired: U32)
    returns (ok: bool, found: U32)
    requires i < prop.Length
    modifies prop
    ensures found == old(prop[i])
    ensures ok == (old(prop[i]) == expected)
    ensures prop[..] == if ok then old(prop[..])[i := desired] else old(prop[..])
  {
    found := prop[i];
    ok := found == expected;
    if ok {
      prop[i] := desired;
    }
  }

  /** The sequential part of `insert_fcds` for writer w: insert into its own local
      sketch, add the 0/1 answer to its counter, and when the counter reaches b
      reset it and raise the flag. The request retries its compare-and-swap with
      the value a failed attempt found, so the flag ends at 1 whatever it held. */
  method InsertFcds(sk: FcdsSketch, w: nat, counter: U32, elem: U64) returns (newCounter: U32)
    requires sk.Valid() && w < sk.N
    modifies sk.localSketches[w], sk.prop
    ensures sk.localSketches[w][..] == Lowered(old(sk.localSketches[w][..]), sk.hashFunctions, elem)
    ensures var c := AddWrapU32(counter, if sk.localSketches[w][..] != old(sk.localSketches[w][..]) then 1 else 0);
            && newCounter == (if c == sk.b then 0 else c)
            && sk.prop[..] == old(sk.prop[..])[w := if c == sk.b then REQUESTED else old(sk.prop[w])]
    ensures sk.b >= 1 && counter < sk.b ==> newCounter < sk.b
  {
    var local := sk.localSketches[w];
    ghost var before := local[..];
    var insertion := Utils.BasicInsert(local, sk.size, sk.hashFunctions, sk.hashType, elem);
    assert local[..sk.size] == local[..] && before[..sk.size] == before;
    LoweredChangesIff(before, sk.hashFunctions, elem);
    newCounter := AddWrapU32(counter, insertion);
    if newCounter == sk.b {
      newCounter := 0;
      RequestPropagation(sk.prop, w);
    }
  }

  /** The request loop of `insert_fcds` as written: a strong compare-and-swap
      to 1 that starts from the expected value 0 and, when it fails, retries
      with the value it found. The flag therefore ends at 1 whatever it held,
      a claimed flag (2) included. */
  method RequestPropagation(prop: array<U32>, w: nat)
    requires w < prop.Length
    modifies prop
    ensures prop[..] == old(prop[..])[w := REQUESTED]
  {
    var expectedProp := IDLE;
    var requested := false;
    while !requested
      invariant prop[..] == if requested then old(prop[..])[w := REQUESTED] else old(prop[..])
      decreases if requested then 0 else if expectedProp == prop[w] then 1 else 2
    {
      requested, expectedProp := CompareExchangeFlag(prop, w, expectedProp, REQUESTED);
    }
  }

  /** A request made while the propagator holds the flag claimed (2) turns it
      back to 1, the transition the request was meant never to make. */
  method RequestOverwritesClaim() returns (flag: U32)
    ensures flag == REQUESTED
  {
    var prop := new U32[1] [CLAIMED];
    RequestPropagation(prop, 0);
    flag := prop[0];
  }

  /** The request as evidently intended: a strong compare-and-swap from 0 to
      1, retried with the expected value reset to 0. Each attempt raises the
      flag only from 0 and leaves a flag of 1 or 2 as it is. */
  method RequestFromIdle(prop: array<U32>, w: nat) returns (ok: bool)
    requires w < prop.Length
    modifies prop
    ensures ok <==> old(prop[w]) == IDLE
    ensures prop[..] == if ok then old(prop[..])[w := REQUESTED] else old(prop[..])
  {
    var found;
    ok, found := CompareExchangeFlag(prop, w, IDLE, REQUESTED);
  }

  /** The same request on a claimed flag leaves the claim in place. */
  method RequestFromIdleKeepsClaim() returns (flag: U32)
    ensures flag == CLAIMED
  {
    var prop := new U32[1] [CLAIMED];
    var ok := RequestFromIdle(prop, 0);
    flag := prop[0];
  }

  /** One step of the propagator for writer i: claim a raised flag (1 -> 2), merge
      the local sketch into the global one, then lower the flag (-> 0). A flag
      with any other value is left alone. */
  method PropagatorStep(sk: FcdsSketch, i: nat) returns (claimed: bool)
    requires sk.Valid() && i < sk.N
    modifies sk.globalSketch, sk.prop
    ensures claimed == (old(sk.prop[i]) == REQUESTED)
    ensures sk.globalSketch[..] ==
      if claimed then MergedWith(old(sk.globalSketch[..]), sk.localSketches[i][..]) else old(sk.globalSketch[..])
    ensures sk.prop[..] == if claimed then old(sk.prop[..])[i := IDLE] else old(sk.prop[..])
  {
    var found;
    claimed, found := CompareExchangeFlag(sk.prop, i, REQUESTED, CLAIMED);
    if claimed {
      var _ := Utils.Merge(sk.globalSketch, sk.localSketches[i], sk.size);
      assert sk.globalSketch[..sk.size] == sk.globalSketch[..];
      sk.prop[i] := IDLE;
    }
  }

  /** The global sketch after one propagator sweep: every local whose flag is
      raised is merged in, in writer order. */
  ghost function Swept(g: seq<U64>, locals: seq<seq<U64>>, flags: seq<U32>): (r: seq<U64>)
    requires |locals| == |flags|
    requires forall w :: 0 <= w < |locals| ==> |locals[w]| == |g|
    ensures |r| == |g|
    decreases |locals|
  {
    if locals == [] then g
    else
      var n := |locals| - 1;
      var prev := Swept(g, locals[..n], flags[..n]);
      if flags[n] == REQUESTED then MergedWith(prev, locals[n]) else prev
  }

  /** After a sweep each global slot is the least of its old value and the
      matching slots of the locals whose flag was raised; the locals whose flag
      was not raised play no part. */
  lemma {:induction false} SweptIsLeastOfRequested(g: seq<U64>, locals: seq<seq<U64>>, flags: seq<U32>)
    requires |locals| == |flags|
    requires forall w :: 0 <= w < |locals| ==> |locals[w]| == |g|
    ensures var r := Swept(g, locals, flags);
      && (forall j :: 0 <= j < |g| ==> r[j] <= g[j])
      && (forall w, j :: 0 <= w < |locals| && flags[w] == REQUESTED && 0 <= j < |g| ==> r[j] <= locals[w][j])
      && (forall j :: 0 <= j < |g| ==>
            r[j] == g[j] || exists w :: 0 <= w < |locals| && flags[w] == REQUESTED && r[j] == locals[w][j])
    decreases |locals|
  {
    if locals != [] {
      var n := |locals| - 1;
      SweptIsLeastOfRequested(g, locals[..n], flags[..n]);
      var prev := Swept(g, locals[..n], flags[..n]);
      var r := Swept(g, locals, flags);
      forall j | 0 <= j < |g|
        ensures r[j] == g[j] || exists w :: 0 <= w < |locals| && flags[w] == REQUESTED && r[j] == locals[w][j]
      {
        if r[j] != g[j] {
          if flags[n] == REQUESTED && r[j] == locals[n][j] {
          } else {
            assert r[j] == prev[j];
            var w :| 0 <= w < n && flags[..n][w] == REQUESTED && prev[j] == locals[..n][w][j];
            assert flags[w] == REQUESTED && r[j] == locals[w][j];
          }
        }
      }
      forall w, j | 0 <= w < |locals| && flags[w] == REQUESTED && 0 <= j < |g|
        ensures r[j] <= locals[w][j]
      {
        if w < n {
          assert flags[..n][w] == REQUESTED && locals[..n][w] == locals[w];
        }
      }
    }
  }

  /** One pass of the propagator's loop over all writers. */
  method PropagatorSweep(sk: FcdsSketch)
    requires sk.Valid()
    modifies sk.globalSketch, sk.prop
    ensures sk.globalSketch[..] == Swept(old(sk.globalSketch[..]), sk.Locals(), old(sk.prop[..]))
    ensures forall w :: 0 <= w < sk.N ==>
      sk.prop[w] == if old(sk.prop[w]) == REQUESTED then IDLE else old(sk.prop[w])
  {
    ghost var g0 := sk.globalSketch[..];
    ghost var flags := sk.prop[..];
    ghost var locals := sk.Locals();
    var i: U32 := 0;
    while i < sk.N
      invariant i <= sk.N
      invariant sk.globalSketch[..] == Swept(g0, locals[..i], flags[..i])
      invariant forall w :: 0 <= w < i ==>
        sk.prop[w] == if flags[w] == REQUESTED then IDLE else flags[w]
      invariant forall w :: i <= w < sk.N ==> sk.prop[w] == flags[w]
    {
      ghost var before := sk.globalSketch[..];
      assert locals[..i + 1][..i] == locals[..i] && flags[..i + 1][..i] == flags[..i];
      assert locals[i] == sk.localSketches[i][..];
      var claimed := PropagatorStep(sk, i);
      assert sk.globalSketch[..] == if flags[i] == REQUESTED then MergedWith(before, locals[i]) else before;
      i := i + 1;
    }
    assert locals[..sk.N] == locals && flags[..sk.N] == flags;
  }

  /** A writer's insertion together with the propagator step its spin-wait waits
      for: when the insertion brought the counter to b and raised the flag, the
      propagator merges the updated local sketch into the global one and the
      flag is back at 0; otherwise the global sketch is untouched. */
  method WriterRoundTrip(sk: FcdsSketch, w: nat, counter: U32, elem: U64) returns (newCounter: U32)
    requires sk.Valid() && w < sk.N && sk.prop[w] == IDLE
    modifies sk.localSketches[w], sk.globalSketch, sk.prop
    ensures sk.localSketches[w][..] == Lowered(old(sk.localSketches[w][..]), sk.hashFunctions, elem)
    ensures sk.prop[..] == old(sk.prop[..])
    ensures var c := AddWrapU32(counter, if sk.localSketches[w][..] != old(sk.localSketches[w][..]) then 1 else 0);
            && newCounter == (if c == sk.b then 0 else c)
            && sk.globalSketch[..] ==
                 if c == sk.b then MergedWith(old(sk.globalSketch[..]), sk.localSketches[w][..])
                 else old(sk.globalSketch[..])
    ensures sk.b >= 1 && counter < sk.b ==> newCounter < sk.b
  {
    newCounter := InsertFcds(sk, w, counter, elem);
    if sk.prop[w] == REQUESTED {
      var claimed := PropagatorStep(sk, w);
      assert sk.prop[..] == old(sk.prop[..]);
    }
  }
}
