/** The partitioned search for a maximum: slices are searched by threads in any interleaving and then combined. */
module FindMax {

  const MAX_THREADS: nat := 64

  /** The function whose maximum is searched; its values are compared as reals, so none of them is a NaN. */
  type Measure = int -> real

  /** `at` is the first place of the largest value in `s`. */
  ghost predicate FirstMax(f: Measure, s: seq<int>, at: nat) {
    && at < |s|
    && (forall j :: 0 <= j < |s| ==> f(s[j]) <= f(s[at]))
    && (forall j :: 0 <= j < at ==> f(s[j]) < f(s[at]))
  }

  lemma FirstMaxUnique(f: Measure, s: seq<int>, a: nat, b: nat)
    requires FirstMax(f, s, a) && FirstMax(f, s, b)
    ensures a == b
  {
    var x, y := f(s[a]), f(s[b]);
    assert a < b ==> x < y;
    assert b < a ==> y < x;
  }

  method FindMaxSerial(f: Measure, a: array<int>) returns (index: nat, max: real)
    requires a.Length > 0
    ensures FirstMax(f, a[..], index) && max == f(a[index])
  {
    index, max := 0, f(a[0]);
    for ctr := 1 to a.Length
      invariant FirstMax(f, a[..ctr], index) && max == f(a[index])
    {
      var x := f(a[ctr]);
      if x > max {
        index, max := ctr, x;
      }
    }
    assert a[..a.Length] == a[..];
  }

  /** The parameters of one thread, its results, and `ctr`, the counter of its loop (0 before its first statement). */
  class ThreadParam {
    const data: array<int>
    const startIndex: nat
    const size: nat
    var max: real
    var maxIndex: nat
    var ctr: nat

    constructor (data: array<int>, startIndex: nat, size: nat)
      requires startIndex + size <= data.Length && size > 0
      ensures this.data == data && this.startIndex == startIndex && this.size == size
      ensures ctr == 0 && InBounds()
    {
      this.data, this.startIndex, this.size := data, startIndex, size;
      max, maxIndex, ctr := 0.0, 0, 0;
    }

    predicate InBounds() {
      startIndex + size <= data.Length && size > 0
    }

    /** The results are those for the part of the slice that was searched. */
    ghost predicate Searched(f: Measure)
      requires InBounds()
      reads this, data
    {
      && ctr <= size
      && (ctr > 0 ==> FirstMax(f, data[startIndex..startIndex + ctr], maxIndex)
                      && max == f(data[startIndex + maxIndex]))
    }

    /** The first value, or one turn of the loop of `find_max`. */
    method Step(f: Measure)
      requires InBounds() && Searched(f)
      modifies this
      ensures Searched(f) && ctr == if old(ctr) < size then old(ctr) + 1 else size
    {
      ghost var before := data[startIndex..startIndex + ctr];
      if ctr == 0 {
        max, maxIndex, ctr := f(data[startIndex]), 0, 1;
      } else if ctr < size {
        var x := f(data[startIndex + ctr]);
        if x > max {
          max, maxIndex := x, ctr;
        }
        ctr := ctr + 1;
        assert data[startIndex..startIndex + ctr] == before + [data[startIndex + ctr - 1]];
      }
    }
  }

  ghost predicate AllSearched(f: Measure, a: array<int>, params: seq<ThreadParam>)
    reads params, a
  {
    forall p :: p in params ==> p.data == a && p.InBounds() && p.Searched(f)
  }

  /** Any number of turns of any threads, in any order. */
  method RunSome(f: Measure, ghost a: array<int>, params: seq<ThreadParam>)
    requires AllSearched(f, a, params)
    modifies params
    ensures AllSearched(f, a, params) && forall p :: p in params ==> p.ctr >= old(p.ctr)
  {
    var turns: nat :| turns >= 0;
    for turn := 0 to turns
      invariant AllSearched(f, a, params) && forall p :: p in params ==> p.ctr >= old(p.ctr)
    {
      if |params| > 0 {
        var t: nat :| t < |params|;
        params[t].Step(f);
      }
    }
  }

  lemma SearchedWhole(f: Measure, p: ThreadParam)
    requires p.InBounds() && p.Searched(f) && p.ctr == p.size
    ensures p.maxIndex < p.size && p.max == f(p.data[..][p.startIndex + p.maxIndex])
    ensures FirstMax(f, p.data[..][p.startIndex..p.startIndex + p.size], p.maxIndex)
  {
    assert p.data[..][p.startIndex..p.startIndex + p.size] == p.data[p.startIndex..p.startIndex + p.size];
  }

  /** Waits for one thread, while the others may go on. */
  method Join(f: Measure, ghost a: array<int>, params: seq<ThreadParam>, t: nat)
    requires AllSearched(f, a, params) && t < |params|
    modifies params
    ensures AllSearched(f, a, params) && params[t].ctr == params[t].size
    ensures forall p :: p in params ==> p.ctr >= old(p.ctr)
    ensures params[t].InBounds() && params[t].data == a
    ensures params[t].maxIndex < params[t].size && params[t].max == f(a[..][params[t].startIndex + params[t].maxIndex])
    ensures FirstMax(f, a[..][params[t].startIndex..params[t].startIndex + params[t].size], params[t].maxIndex)
  {
    assert params[t] in params;
    while params[t].ctr < params[t].size
      invariant AllSearched(f, a, params) && forall p :: p in params ==> p.ctr >= old(p.ctr)
      decreases params[t].size - params[t].ctr
    {
      RunSome(f, a, params);
      params[t].Step(f);
    }
    SearchedWhole(f, params[t]);
  }

  // ---------- the partition ----------

  /** The slice of the first thread has the residue as well. */
  function SliceSize(elements: nat, threads: nat, t: nat): nat
    requires threads > 0
  {
    if t == 0 then elements / threads + elements % threads else elements / threads
  }

  function SliceStart(elements: nat, threads: nat, t: nat): nat
    requires threads > 0
  {
    if t == 0 then 0 else SliceStart(elements, threads, t - 1) + SliceSize(elements, threads, t - 1)
  }

  lemma {:induction false} SliceStartAt(elements: nat, threads: nat, t: nat)
    requires threads > 0 && t > 0
    ensures SliceStart(elements, threads, t) == t * (elements / threads) + elements % threads
  {
    if t > 1 {
      SliceStartAt(elements, threads, t - 1);
    }
  }

  /** The slices cover the array: the position after the last of them is its end. */
  lemma SlicesCover(elements: nat, threads: nat)
    requires threads > 0
    ensures SliceStart(elements, threads, threads) == elements
  {
    SliceStartAt(elements, threads, threads);
  }

  lemma {:induction false} SlicesGrow(elements: nat, threads: nat, t: nat, u: nat)
    requires threads > 0 && t <= u
    ensures SliceStart(elements, threads, t) <= SliceStart(elements, threads, u)
    decreases u
  {
    if t < u {
      SlicesGrow(elements, threads, t, u - 1);
    }
  }

  ghost predicate SlicesInBounds(elements: nat, threads: nat)
    requires threads > 0
  {
    forall t :: 0 <= t < threads ==> SliceStart(elements, threads, t) < elements
  }

  /**
   * Each thread reads the first element of its slice before anything else. That element is in the array for every
   * thread exactly if there are no more threads than elements: with more, every slice but the first is empty and
   * starts at the end of the array.
   */
  lemma SlicesInBoundsIff(elements: nat, threads: nat)
    requires elements > 0 && threads > 0
    ensures SlicesInBounds(elements, threads) <==> threads <= elements
  {
    if threads <= elements {
      assert elements / threads > 0;
      forall t | 0 <= t < threads ensures SliceStart(elements, threads, t) < elements {
        SlicesGrow(elements, threads, t + 1, threads);
        SlicesCover(elements, threads);
      }
    } else {
      assert elements / threads == 0 && elements % threads == elements;
      SliceStartAt(elements, threads, 1);
      assert SliceStart(elements, threads, 1) == elements;
    }
  }

  /** Two elements and three threads: the second thread reads the element after the last. */
  lemma MoreThreadsThanElements()
    ensures !SlicesInBounds(2, 3) && SliceStart(2, 3, 1) == 2
  {
    SlicesInBoundsIff(2, 3);
    SliceStartAt(2, 3, 1);
  }

  /** A slice that starts in the array is not empty and ends in the array. */
  lemma NextSlice(elements: nat, threads: nat, t: nat)
    requires t < threads && SliceStart(elements, threads, t) < elements
    ensures SliceStart(elements, threads, t + 1) == SliceStart(elements, threads, t) + SliceSize(elements, threads, t)
    ensures SliceStart(elements, threads, t + 1) <= elements && SliceSize(elements, threads, t) > 0
  {
    SlicesGrow(elements, threads, t + 1, threads);
    SlicesCover(elements, threads);
    if t > 0 {
      SliceStartAt(elements, threads, t);
    }
  }

  /** Thread `t` has its slice. */
  ghost predicate Sliced(a: array<int>, threads: nat, params: seq<ThreadParam>)
    requires threads > 0
  {
    forall t :: 0 <= t < |params| ==>
      && params[t].startIndex == SliceStart(a.Length, threads, t)
      && params[t].size == SliceSize(a.Length, threads, t)
  }

  /** All slices have the same number of elements, but the first has the residue as well; each starts after the last. */
  ghost predicate EvenSlices(elements: nat, threads: nat, params: seq<ThreadParam>)
    requires threads > 0
  {
    forall t :: 0 <= t < |params| ==>
      && params[t].size == elements / threads + (if t == 0 then elements % threads else 0)
      && params[t].startIndex == if t == 0 then 0 else params[t - 1].startIndex + params[t - 1].size
  }

  lemma SlicedEvenly(a: array<int>, threads: nat, params: seq<ThreadParam>)
    requires threads > 0 && Sliced(a, threads, params)
    ensures EvenSlices(a.Length, threads, params)
  {
  }

  /**
   * The threads are created one after the other; those that exist run meanwhile. A thread whose first read is outside
   * the array ends the program; `inBounds` tells that there was none.
   */
  method StartThreads(f: Measure, a: array<int>, threads: nat) returns (inBounds: bool, params: seq<ThreadParam>)
    requires threads > 0 && a.Length > 0
    ensures inBounds <==> threads <= a.Length
    ensures inBounds ==> |params| == threads && Sliced(a, threads, params) && AllSearched(f, a, params)
    ensures inBounds ==> EvenSlices(a.Length, threads, params)
    ensures fresh(params)
  {
    hide SliceStart, FirstMax;
    params := [];
    var thPos := 0;
    SlicesCover(a.Length, threads);
    StartsAtZero(a.Length, threads);
    SlicesInBoundsIff(a.Length, threads);
    for ctr := 0 to threads
      invariant |params| == ctr && thPos == SliceStart(a.Length, threads, ctr)
      invariant forall t :: 0 <= t < ctr ==> SliceStart(a.Length, threads, t) < a.Length
      invariant Sliced(a, threads, params) && AllSearched(f, a, params)
      invariant fresh(params)
    {
      if thPos >= a.Length {
        return false, params;
      }
      NextSlice(a.Length, threads, ctr);
      var size := a.Length / threads;
      if ctr == 0 {
        size := size + a.Length % threads;
      }
      var param := new ThreadParam(a, thPos, size);
      params := params + [param];
      thPos := thPos + size;
      RunSome(f, a, params);
    }
    assert thPos == a.Length;
    inBounds := true;
    SlicedEvenly(a, threads, params);
  }

  lemma StartsAtZero(elements: nat, threads: nat)
    requires threads > 0
    ensures SliceStart(elements, threads, 0) == 0
  {
  }

  // ---------- combining the results ----------

  /** A strictly larger maximum of the next slice replaces the one so far, an equal one does not. */
  lemma Combine(f: Measure, left: seq<int>, right: seq<int>, i: nat, j: nat)
    requires FirstMax(f, left, i) && FirstMax(f, right, j)
    ensures FirstMax(f, left + right, if f(left[i]) < f(right[j]) then |left| + j else i)
  {
    var s, at := left + right, if f(left[i]) < f(right[j]) then |left| + j else i;
    forall k | 0 <= k < |s| ensures f(s[k]) <= f(s[at]) && (k < at ==> f(s[k]) < f(s[at])) {
      assert s[k] == if k < |left| then left[k] else right[k - |left|];
    }
  }

  /** What the main program has found after the first slices. */
  ghost predicate FoundUpTo(f: Measure, s: seq<int>, end: nat, maxIndex: nat, max: real) {
    maxIndex < end <= |s| && FirstMax(f, s[..end], maxIndex) && max == f(s[maxIndex])
  }

  lemma CombineNext(f: Measure, s: seq<int>, start: nat, end: nat, maxIndex: nat, max: real, nextIndex: nat, next: real)
    requires start < end <= |s| && FirstMax(f, s[start..end], nextIndex) && next == f(s[start + nextIndex])
    ensures start == 0 ==> FoundUpTo(f, s, end, nextIndex, next)
    ensures FoundUpTo(f, s, start, maxIndex, max) && !(max < next) ==> FoundUpTo(f, s, end, maxIndex, max)
    ensures FoundUpTo(f, s, start, maxIndex, max) && max < next ==> FoundUpTo(f, s, end, nextIndex + start, next)
  {
    assert s[..end] == s[..start] + s[start..end];
    assert start == 0 ==> s[..end] == s[start..end];
    if FoundUpTo(f, s, start, maxIndex, max) {
      Combine(f, s[..start], s[start..end], maxIndex, nextIndex);
    }
  }

  /** Waits for the threads one after the other and combines what they found. */
  method CombineAll(f: Measure, a: array<int>, threads: nat, params: seq<ThreadParam>)
    returns (maxIndex: nat, max: real)
    requires 0 < threads <= a.Length && |params| == threads && Sliced(a, threads, params) && AllSearched(f, a, params)
    modifies params
    ensures FirstMax(f, a[..], maxIndex) && max == f(a[maxIndex])
  {
    hide SliceStart, SliceSize, FirstMax, AllSearched, FoundUpTo;
    maxIndex, max := 0, 0.0;
    StartsAtZero(a.Length, threads);
    SlicesInBoundsIff(a.Length, threads);
    for ctr := 0 to threads
      invariant AllSearched(f, a, params)
      invariant ctr > 0 ==> FoundUpTo(f, a[..], SliceStart(a.Length, threads, ctr), maxIndex, max)
    {
      Join(f, a, params, ctr);
      NextSlice(a.Length, threads, ctr);
      var param := params[ctr];
      ghost var start, end := param.startIndex, param.startIndex + param.size;
      CombineNext(f, a[..], start, end, maxIndex, max, param.maxIndex, param.max);
      if ctr == 0 {
        max, maxIndex := param.max, param.maxIndex;
      } else if max < param.max {
        max, maxIndex := param.max, param.maxIndex + param.startIndex;
      }
    }
    SlicesCover(a.Length, threads);
    FoundInAll(f, a[..], maxIndex, max);
  }

  lemma FoundInAll(f: Measure, s: seq<int>, maxIndex: nat, max: real)
    requires FoundUpTo(f, s, |s|, maxIndex, max)
    ensures FirstMax(f, s, maxIndex) && max == f(s[maxIndex])
  {
    assert s[..|s|] == s;
  }

  /**
   * Whatever the interleaving, the result is the first largest value of the whole array and its place, if there are no
   * more threads than elements; with more, some thread reads outside the array.
   */
  method FindMaxParallel(f: Measure, a: array<int>, threads: nat) returns (inBounds: bool, maxIndex: nat, max: real)
    requires 0 < threads <= MAX_THREADS && a.Length > 0
    ensures inBounds <==> threads <= a.Length
    ensures inBounds ==> FirstMax(f, a[..], maxIndex) && max == f(a[maxIndex])
  {
    hide Sliced, AllSearched, FirstMax;
    maxIndex, max := 0, 0.0;
    var params;
    inBounds, params := StartThreads(f, a, threads);
    if inBounds {
      maxIndex, max := CombineAll(f, a, threads, params);
    }
  }

  /** Both searches on one array, as the program makes them: they find the same value at the same place. */
  method FindBoth(f: Measure, a: array<int>, threads: nat)
    returns (inBounds: bool, parallel: (nat, real), serial: (nat, real))
    requires 0 < threads <= MAX_THREADS && a.Length > 0
    ensures inBounds <==> threads <= a.Length
    ensures inBounds ==> parallel == serial
    ensures FirstMax(f, a[..], serial.0) && serial.1 == f(a[serial.0])
  {
    var i, max;
    inBounds, i, max := FindMaxParallel(f, a, threads);
    var j, largest := FindMaxSerial(f, a);
    if inBounds {
      FirstMaxUnique(f, a[..], i, j);
    }
    parallel, serial := (i, max), (j, largest);
  }
}
