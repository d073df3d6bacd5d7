/** What a sketch means: slot i holds the least of its starting value and
    h_i(e) over every element e inserted so far. The array-level operations
    are proved against the functions here. */
module SketchSpec {
  import opened Types
  import opened Hash
  import opened Minhash

  /** A sketch in which no element has been inserted. */
  function Empty(n: nat): (r: seq<U64>)
    ensures |r| == n && forall i :: 0 <= i < n ==> r[i] == INFTY
  {
    seq(n, _ => INFTY)
  }

  /** The elements 0, 1, ..., n-1 in increasing order. */
  function Range(n: nat): (r: seq<U64>)
    requires n <= TWO_64
    ensures |r| == n && forall i :: 0 <= i < n ==> r[i] == i
  {
    seq(n, i requires 0 <= i < n => i as U64)
  }

  /** v is the least of `base` and the values in `cands`. */
  ghost predicate IsSlotMin(v: U64, base: U64, cands: set<U64>) {
    v <= base && (forall c :: c in cands ==> v <= c) && (v == base || v in cands)
  }

  /** h_i(e) for every e in xs. */
  ghost function HashesAt(hf: HashFamily, i: nat, xs: seq<U64>): set<U64>
    requires Covers(hf, i + 1)
  {
    set e | e in xs :: H(hf, i, e)
  }

  /** r is the sketch obtained from s by inserting the elements of xs:
      every slot is the least of its old value and its hashes of xs. */
  ghost predicate Summarizes(r: seq<U64>, s: seq<U64>, hf: HashFamily, xs: seq<U64>)
    requires Covers(hf, |s|)
  {
    |r| == |s| &&
    forall i :: 0 <= i < |s| ==> IsSlotMin(r[i], s[i], HashesAt(hf, i, xs))
  }

  /** One insertion: each slot keeps its value unless h_i(elem) is smaller. */
  function Lowered(s: seq<U64>, hf: HashFamily, elem: U64): (r: seq<U64>)
    requires Covers(hf, |s|)
    ensures |r| == |s|
    ensures forall i :: 0 <= i < |s| ==> r[i] <= s[i] && r[i] <= H(hf, i, elem)
    ensures forall i :: 0 <= i < |s| ==> r[i] == s[i] || r[i] == H(hf, i, elem)
  {
    seq(|s|, i requires 0 <= i < |s| => if H(hf, i, elem) < s[i] then H(hf, i, elem) else s[i])
  }

  /** Slot-wise minimum of two sketches of the same size. */
  function MergedWith(s: seq<U64>, o: seq<U64>): (r: seq<U64>)
    requires |s| == |o|
    ensures |r| == |s|
    ensures forall i :: 0 <= i < |s| ==> r[i] <= s[i] && r[i] <= o[i]
    ensures forall i :: 0 <= i < |s| ==> r[i] == s[i] || r[i] == o[i]
  {
    seq(|s|, i requires 0 <= i < |s| => if s[i] > o[i] then o[i] else s[i])
  }

  /** Inserting the elements of xs one after the other, first to last. */
  function InsertAll(s: seq<U64>, hf: HashFamily, xs: seq<U64>): (r: seq<U64>)
    requires Covers(hf, |s|)
    ensures |r| == |s|
    ensures forall i :: 0 <= i < |s| ==> r[i] <= s[i]
    decreases |xs|
  {
    if xs == [] then s
    else Lowered(InsertAll(s, hf, xs[..|xs| - 1]), hf, xs[|xs| - 1])
  }

  /** Inserting a stream leaves in every slot the least of the old value and the
      slot's hashes of the stream's elements. */
  lemma {:induction false} InsertAllSummarizes(s: seq<U64>, hf: HashFamily, xs: seq<U64>)
    requires Covers(hf, |s|)
    ensures Summarizes(InsertAll(s, hf, xs), s, hf, xs)
    decreases |xs|
  {
    if xs != [] {
      var init, last := xs[..|xs| - 1], xs[|xs| - 1];
      InsertAllSummarizes(s, hf, init);
      assert xs == init + [last];
      forall i | 0 <= i < |s|
        ensures HashesAt(hf, i, xs) == HashesAt(hf, i, init) + {H(hf, i, last)}
      {
        HashesAtSnoc(hf, i, init, last);
      }
    }
  }

  lemma HashesAtSnoc(hf: HashFamily, i: nat, xs: seq<U64>, x: U64)
    requires Covers(hf, i + 1)
    ensures HashesAt(hf, i, xs + [x]) == HashesAt(hf, i, xs) + {H(hf, i, x)}
  {
    assert forall e :: e in xs + [x] <==> e in xs || e == x;
  }

  /** The elements lo, lo+1, ..., lo+n-1 in increasing order. */
  function Interval(lo: U64, n: nat): (r: seq<U64>)
    requires lo + n <= TWO_64
    ensures |r| == n && forall i :: 0 <= i < n ==> r[i] == lo + i
  {
    seq(n, i requires 0 <= i < n => (lo + i) as U64)
  }

  // ---------------------------------------------------------------------------
  // One insertion

  /** An insertion changes the sketch exactly when some hash is strictly below
      its slot: the meaning of the flag `basic_insert` returns. */
  lemma LoweredChangesIff(s: seq<U64>, hf: HashFamily, elem: U64)
    requires Covers(hf, |s|)
    ensures Lowered(s, hf, elem) != s <==> exists i :: 0 <= i < |s| && H(hf, i, elem) < s[i]
  {
    var r := Lowered(s, hf, elem);
    if r != s {
      var i :| 0 <= i < |s| && r[i] != s[i];
      assert H(hf, i, elem) < s[i];
    }
  }

  /** Inserting an element a second time finds no slot to lower. */
  lemma LoweredIdempotent(s: seq<U64>, hf: HashFamily, elem: U64)
    requires Covers(hf, |s|)
    ensures Lowered(Lowered(s, hf, elem), hf, elem) == Lowered(s, hf, elem)
    ensures forall i :: 0 <= i < |s| ==> !(H(hf, i, elem) < Lowered(s, hf, elem)[i])
  {
  }

  /** Two insertions commute. */
  lemma LoweredCommutes(s: seq<U64>, hf: HashFamily, x: U64, y: U64)
    requires Covers(hf, |s|)
    ensures Lowered(Lowered(s, hf, x), hf, y) == Lowered(Lowered(s, hf, y), hf, x)
  {
  }

  // ---------------------------------------------------------------------------
  // Merging

  /** Merging the same sketch twice changes nothing the second time. */
  lemma MergedWithIdempotent(s: seq<U64>, o: seq<U64>)
    requires |s| == |o|
    ensures MergedWith(MergedWith(s, o), o) == MergedWith(s, o)
  {
  }

  /** A merge changes the sketch exactly when some slot of the other one is smaller. */
  lemma MergedWithChangesIff(s: seq<U64>, o: seq<U64>)
    requires |s| == |o|
    ensures MergedWith(s, o) != s <==> exists i :: 0 <= i < |s| && s[i] > o[i]
  {
    var r := MergedWith(s, o);
    if r != s {
      var i :| 0 <= i < |s| && r[i] != s[i];
      assert s[i] > o[i];
    }
  }

  /** Merging is symmetric, and an empty sketch is its identity. */
  lemma MergedWithCommutes(s: seq<U64>, o: seq<U64>)
    requires |s| == |o|
    ensures MergedWith(s, o) == MergedWith(o, s)
    ensures MergedWith(s, Empty(|s|)) == s
  {
  }

  // ---------------------------------------------------------------------------
  // Sequences of insertions

  lemma IsSlotMinUnique(v: U64, w: U64, base: U64, cands: set<U64>)
    requires IsSlotMin(v, base, cands) && IsSlotMin(w, base, cands)
    ensures v == w
  {
  }

  /** The least of (the least of base and A) and B is the least of base and A + B. */
  lemma IsSlotMinExtend(v: U64, w: U64, base: U64, a: set<U64>, b: set<U64>)
    requires IsSlotMin(v, base, a) && IsSlotMin(w, v, b)
    ensures IsSlotMin(w, base, a + b)
  {
  }

  /** The least of two minima over a common base is the minimum over the union. */
  lemma IsSlotMinJoin(v: U64, w: U64, base: U64, a: set<U64>, b: set<U64>)
    requires IsSlotMin(v, base, a) && IsSlotMin(w, base, b)
    ensures IsSlotMin(if v > w then w else v, base, a + b)
  {
  }

  lemma HashesAtAppend(hf: HashFamily, i: nat, xs: seq<U64>, ys: seq<U64>)
    requires Covers(hf, i + 1)
    ensures HashesAt(hf, i, xs + ys) == HashesAt(hf, i, xs) + HashesAt(hf, i, ys)
  {
    assert forall e :: e in xs + ys <==> e in xs || e in ys;
  }

  /** A summary is determined by the starting sketch and the SET of elements
      inserted. */
  lemma {:induction false} SummarizesUnique(r1: seq<U64>, r2: seq<U64>, s: seq<U64>, hf: HashFamily,
                                            xs: seq<U64>, ys: seq<U64>)
    requires Covers(hf, |s|)
    requires Summarizes(r1, s, hf, xs) && Summarizes(r2, s, hf, ys)
    requires forall e :: e in xs <==> e in ys
    ensures r1 == r2
  {
    forall i | 0 <= i < |s| ensures r1[i] == r2[i] {
      assert HashesAt(hf, i, xs) == HashesAt(hf, i, ys);
      IsSlotMinUnique(r1[i], r2[i], s[i], HashesAt(hf, i, xs));
    }
  }

  /** Insertion is order- and duplicate-independent: two streams with the same
      elements leave the same sketch. */
  lemma {:induction false} InsertAllSameElements(s: seq<U64>, hf: HashFamily, xs: seq<U64>, ys: seq<U64>)
    requires Covers(hf, |s|)
    requires forall e :: e in xs <==> e in ys
    ensures InsertAll(s, hf, xs) == InsertAll(s, hf, ys)
  {
    InsertAllSummarizes(s, hf, xs);
    InsertAllSummarizes(s, hf, ys);
    SummarizesUnique(InsertAll(s, hf, xs), InsertAll(s, hf, ys), s, hf, xs, ys);
  }

  /** Any reordering of the same multiset of elements leaves the same sketch. */
  lemma {:induction false} InsertAllPermutation(s: seq<U64>, hf: HashFamily, xs: seq<U64>, ys: seq<U64>)
    requires Covers(hf, |s|)
    requires multiset(xs) == multiset(ys)
    ensures InsertAll(s, hf, xs) == InsertAll(s, hf, ys)
  {
    forall e ensures e in xs <==> e in ys {
      assert e in xs <==> e in multiset(xs);
      assert e in ys <==> e in multiset(ys);
    }
    InsertAllSameElements(s, hf, xs, ys);
  }

  /** Inserting xs and then ys is inserting xs + ys. */
  lemma {:induction false} InsertAllAppend(s: seq<U64>, hf: HashFamily, xs: seq<U64>, ys: seq<U64>)
    requires Covers(hf, |s|)
    ensures InsertAll(InsertAll(s, hf, xs), hf, ys) == InsertAll(s, hf, xs + ys)
  {
    var m := InsertAll(s, hf, xs);
    var r := InsertAll(m, hf, ys);
    InsertAllSummarizes(s, hf, xs);
    InsertAllSummarizes(m, hf, ys);
    InsertAllSummarizes(s, hf, xs + ys);
    forall i | 0 <= i < |s| ensures IsSlotMin(r[i], s[i], HashesAt(hf, i, xs + ys)) {
      IsSlotMinExtend(m[i], r[i], s[i], HashesAt(hf, i, xs), HashesAt(hf, i, ys));
      HashesAtAppend(hf, i, xs, ys);
    }
    assert Summarizes(r, s, hf, xs + ys);
    SummarizesUnique(r, InsertAll(s, hf, xs + ys), s, hf, xs + ys, xs + ys);
  }

  /** Re-inserting elements that are already in the sketch changes nothing. */
  lemma {:induction false} ReinsertionChangesNothing(s: seq<U64>, hf: HashFamily, xs: seq<U64>, ys: seq<U64>)
    requires Covers(hf, |s|)
    requires forall e :: e in ys ==> e in xs
    ensures InsertAll(InsertAll(s, hf, xs), hf, ys) == InsertAll(s, hf, xs)
  {
    InsertAllAppend(s, hf, xs, ys);
    InsertAllSameElements(s, hf, xs + ys, xs);
  }

  /** Two sketches that started equal and saw the streams xs and ys merge into the
      sketch that saw xs + ys: merging local sketches loses nothing. */
  lemma {:induction false} MergeOfInserts(s: seq<U64>, hf: HashFamily, xs: seq<U64>, ys: seq<U64>)
    requires Covers(hf, |s|)
    ensures MergedWith(InsertAll(s, hf, xs), InsertAll(s, hf, ys)) == InsertAll(s, hf, xs + ys)
  {
    var a := InsertAll(s, hf, xs);
    var b := InsertAll(s, hf, ys);
    var r := MergedWith(a, b);
    InsertAllSummarizes(s, hf, xs);
    InsertAllSummarizes(s, hf, ys);
    InsertAllSummarizes(s, hf, xs + ys);
    forall i | 0 <= i < |s| ensures IsSlotMin(r[i], s[i], HashesAt(hf, i, xs + ys)) {
      IsSlotMinJoin(a[i], b[i], s[i], HashesAt(hf, i, xs), HashesAt(hf, i, ys));
      HashesAtAppend(hf, i, xs, ys);
    }
    assert Summarizes(r, s, hf, xs + ys);
    SummarizesUnique(r, InsertAll(s, hf, xs + ys), s, hf, xs + ys, xs + ys);
  }

  /** The lock-based test: threads insert chunks of [lo, lo+n) while the main
      thread inserts every element of it; whatever interleaving the locks
      produce, the result equals one sequential pass over [lo, lo+n). */
  lemma {:induction false} ThreadedInsertMatchesSequential(s: seq<U64>, hf: HashFamily, lo: U64, n: nat,
                                                          chunks: seq<U64>, schedule: seq<U64>)
    requires Covers(hf, |s|) && lo + n <= TWO_64
    requires forall e :: e in chunks ==> lo <= e < lo + n
    requires multiset(schedule) == multiset(chunks) + multiset(Interval(lo, n))
    ensures InsertAll(s, hf, schedule) == InsertAll(s, hf, Interval(lo, n))
  {
    forall e ensures e in schedule <==> e in Interval(lo, n) {
      assert e in schedule <==> e in multiset(schedule);
      assert e in chunks <==> e in multiset(chunks);
      assert e in Interval(lo, n) <==> e in multiset(Interval(lo, n));
      if e in chunks {
        assert Interval(lo, n)[e - lo] == e;
      }
    }
    InsertAllSameElements(s, hf, schedule, Interval(lo, n));
  }

  // ---------------------------------------------------------------------------
  // Pre-populated sketches

  /** The least of h_i(e) over e in [0, k), or INFTY when k is 0. */
  function MinOver(hf: HashFamily, i: nat, k: nat): (r: U64)
    requires Covers(hf, i + 1) && k <= TWO_64
    ensures forall e :: 0 <= e < k ==> r <= H(hf, i, e)
    ensures k == 0 ==> r == INFTY
    ensures k > 0 ==> exists e :: 0 <= e < k && r == H(hf, i, e)
  {
    if k == 0 then INFTY
    else
      var prev := MinOver(hf, i, k - 1);
      var h := H(hf, i, k - 1);
      if h < prev then h else prev
  }

  /** A sketch pre-populated with 0..k-1 holds in slot i the least h_i(e) over
      e in [0, k). */
  lemma {:induction false} PrepopulatedSlot(n: nat, hf: HashFamily, k: nat, i: nat)
    requires Covers(hf, n) && k <= TWO_64 && i < n
    ensures InsertAll(Empty(n), hf, Range(k))[i] == MinOver(hf, i, k)
  {
    var r := InsertAll(Empty(n), hf, Range(k));
    var m := MinOver(hf, i, k);
    var cands := HashesAt(hf, i, Range(k));
    InsertAllSummarizes(Empty(n), hf, Range(k));
    assert IsSlotMin(r[i], INFTY, cands);
    forall c | c in cands ensures m <= c {
      var e :| e in Range(k) && c == H(hf, i, e);
    }
    if k > 0 {
      var e :| 0 <= e < k && m == H(hf, i, e);
      assert Range(k)[e] == e;
    }
    assert IsSlotMin(m, INFTY, cands);
    IsSlotMinUnique(r[i], m, INFTY, cands);
  }

  // ---------------------------------------------------------------------------
  // Queries

  /** The number of slots at which two sketches agree; slots are compared by
      value, as the `IS_EQUAL` macro of `minhash.h` does. */
  function CountEqual(a: seq<U64>, b: seq<U64>): (r: nat)
    requires |a| == |b|
    ensures r <= |a|
    ensures r == |a| <==> a == b
    decreases |a|
  {
    if |a| == 0 then 0
    else
      var n := |a| - 1;
      var prev := CountEqual(a[..n], b[..n]);
      assert a == a[..n] + [a[n]] && b == b[..n] + [b[n]];
      prev + (if a[n] == b[n] then 1 else 0)
  }

  /** The count does not depend on which sketch comes first. */
  lemma {:induction false} CountEqualSymmetric(a: seq<U64>, b: seq<U64>)
    requires |a| == |b|
    ensures CountEqual(a, b) == CountEqual(b, a)
    decreases |a|
  {
    if |a| > 0 {
      CountEqualSymmetric(a[..|a| - 1], b[..|a| - 1]);
    }
  }
}
