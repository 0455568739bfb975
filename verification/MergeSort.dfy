/** Merge sort in place, and the tiled sort that merges sorted tiles one by one. */
module MergeSort {

  // ---------- orders, sortedness, stability ----------

  ghost predicate TotalPreorder<T(!new)>(leq: (T, T) -> bool) {
    && (forall x, y :: leq(x, y) || leq(y, x))
    && (forall x, y, z :: leq(x, y) && leq(y, z) ==> leq(x, z))
  }

  ghost predicate Sorted<T>(leq: (T, T) -> bool, s: seq<T>) {
    forall i, j :: 0 <= i < j < |s| ==> leq(s[i], s[j])
  }

  predicate Same<T>(leq: (T, T) -> bool, x: T, y: T) {
    leq(x, y) && leq(y, x)
  }

  /** The elements that compare equal to `x`, in their order. */
  function Class<T>(leq: (T, T) -> bool, x: T, s: seq<T>): seq<T> {
    if s == [] then [] else (if Same(leq, x, s[0]) then [s[0]] else []) + Class(leq, x, s[1..])
  }

  /** A rearrangement that keeps the order of elements that compare equal; in particular a permutation. */
  ghost predicate Stable<T(!new)>(leq: (T, T) -> bool, s: seq<T>, t: seq<T>) {
    forall x :: Class(leq, x, s) == Class(leq, x, t)
  }

  lemma ClassCons<T>(leq: (T, T) -> bool, x: T, e: T, s: seq<T>)
    ensures Class(leq, x, [e] + s) == (if Same(leq, x, e) then [e] else []) + Class(leq, x, s)
  {
    assert ([e] + s)[1..] == s;
  }

  lemma {:induction false} ClassConcat<T>(leq: (T, T) -> bool, x: T, a: seq<T>, b: seq<T>)
    ensures Class(leq, x, a + b) == Class(leq, x, a) + Class(leq, x, b)
  {
    hide Same;
    if a == [] {
      assert a + b == b;
    } else {
      ClassConcat(leq, x, a[1..], b);
      assert a + b == [a[0]] + (a[1..] + b);
      assert a == [a[0]] + a[1..];
      ClassCons(leq, x, a[0], a[1..] + b);
      ClassCons(leq, x, a[0], a[1..]);
    }
  }

  lemma StableConcat<T(!new)>(leq: (T, T) -> bool, a: seq<T>, a': seq<T>, b: seq<T>, b': seq<T>)
    requires Stable(leq, a, a') && Stable(leq, b, b')
    ensures Stable(leq, a + b, a' + b')
  {
    forall x ensures Class(leq, x, a + b) == Class(leq, x, a' + b') {
      ClassConcat(leq, x, a, b);
      ClassConcat(leq, x, a', b');
    }
  }

  lemma StableTransitive<T(!new)>(leq: (T, T) -> bool, a: seq<T>, b: seq<T>, c: seq<T>)
    requires Stable(leq, a, b) && Stable(leq, b, c)
    ensures Stable(leq, a, c)
  {
    forall x ensures Class(leq, x, a) == Class(leq, x, c) {
      assert Class(leq, x, a) == Class(leq, x, b);
    }
  }

  lemma {:induction false} ClassCount<T>(leq: (T, T) -> bool, x: T, s: seq<T>)
    requires leq(x, x)
    ensures multiset(Class(leq, x, s))[x] == multiset(s)[x]
  {
    if s != [] {
      ClassCount(leq, x, s[1..]);
      assert s == [s[0]] + s[1..];
    }
  }

  lemma StableIsPermutation<T(!new)>(leq: (T, T) -> bool, s: seq<T>, t: seq<T>)
    requires TotalPreorder(leq) && Stable(leq, s, t)
    ensures multiset(s) == multiset(t)
  {
    forall x ensures multiset(s)[x] == multiset(t)[x] {
      ClassCount(leq, x, s);
      ClassCount(leq, x, t);
      assert Class(leq, x, s) == Class(leq, x, t);
    }
  }

  // ---------- a stable sort is unique ----------

  lemma {:induction false} NoneSame<T(!new)>(leq: (T, T) -> bool, x: T, s: seq<T>)
    requires TotalPreorder(leq) && Sorted(leq, s) && (s != [] ==> !leq(s[0], x))
    ensures Class(leq, x, s) == []
  {
    if |s| > 1 {
      assert leq(s[0], s[1]);
      NoneSame(leq, x, s[1..]);
    }
  }

  /** Two sorted sequences with the same elements in the same order among equals are the same sequence. */
  lemma {:induction false} StableSortUnique<T(!new)>(leq: (T, T) -> bool, s: seq<T>, t: seq<T>)
    requires TotalPreorder(leq) && Sorted(leq, s) && Sorted(leq, t) && Stable(leq, s, t)
    ensures s == t
  {
    if s == [] {
      EmptyOther(leq, s, t);
    } else if t == [] {
      EmptyOther(leq, t, s);
    } else {
      FirstNotAbove(leq, s, t);
      FirstNotAbove(leq, t, s);
      var x := s[0];
      assert Class(leq, x, s) == Class(leq, x, t);
      assert Class(leq, x, s)[0] == s[0] && Class(leq, x, t)[0] == t[0];
      forall y ensures Class(leq, y, s[1..]) == Class(leq, y, t[1..]) {
        assert Class(leq, y, s) == Class(leq, y, t);
        var h := if Same(leq, y, x) then [x] else [];
        assert Class(leq, y, s[1..]) == Class(leq, y, s)[|h|..] && Class(leq, y, t[1..]) == Class(leq, y, t)[|h|..];
      }
      StableSortUnique(leq, s[1..], t[1..]);
      assert s == [s[0]] + s[1..] && t == [t[0]] + t[1..];
    }
  }

  lemma EmptyOther<T(!new)>(leq: (T, T) -> bool, s: seq<T>, t: seq<T>)
    requires TotalPreorder(leq) && Stable(leq, s, t) && s == []
    ensures t == []
  {
    assert t != [] ==> Class(leq, t[0], s) == Class(leq, t[0], t);
  }

  lemma FirstNotAbove<T(!new)>(leq: (T, T) -> bool, s: seq<T>, t: seq<T>)
    requires TotalPreorder(leq) && Sorted(leq, t) && Stable(leq, s, t) && s != [] && t != []
    ensures leq(t[0], s[0])
  {
    assert Class(leq, s[0], s) == Class(leq, s[0], t);
    assert Class(leq, s[0], s) != [];
    if !leq(t[0], s[0]) {
      NoneSame(leq, s[0], t);
    }
  }

  // ---------- merging ----------

  /** Takes the smaller head, and of two equal heads the left one. */
  function Merged<T>(leq: (T, T) -> bool, l: seq<T>, r: seq<T>): (s: seq<T>)
    ensures |s| == |l| + |r|
    decreases |l| + |r|
  {
    if l == [] then r
    else if r == [] then l
    else if leq(l[0], r[0]) then [l[0]] + Merged(leq, l[1..], r)
    else [r[0]] + Merged(leq, l, r[1..])
  }

  lemma {:induction false} MergedElements<T>(leq: (T, T) -> bool, l: seq<T>, r: seq<T>, e: T)
    ensures e in Merged(leq, l, r) ==> e in l || e in r
    decreases |l| + |r|
  {
    if l != [] && r != [] {
      if leq(l[0], r[0]) {
        MergedElements(leq, l[1..], r, e);
      } else {
        MergedElements(leq, l, r[1..], e);
      }
    }
  }

  lemma {:induction false} MergedIsSorted<T(!new)>(leq: (T, T) -> bool, l: seq<T>, r: seq<T>)
    requires TotalPreorder(leq) && Sorted(leq, l) && Sorted(leq, r)
    ensures Sorted(leq, Merged(leq, l, r))
    decreases |l| + |r|
  {
    if l != [] && r != [] {
      var left := leq(l[0], r[0]);
      var first := if left then l[0] else r[0];
      var l', r' := if left then l[1..] else l, if left then r else r[1..];
      MergedIsSorted(leq, l', r');
      var rest := Merged(leq, l', r');
      forall j | 0 <= j < |rest| ensures leq(first, rest[j]) {
        MergedElements(leq, l', r', rest[j]);
        Bounds(leq, l, rest[j]);
        Bounds(leq, r, rest[j]);
      }
    }
  }

  lemma Bounds<T(!new)>(leq: (T, T) -> bool, s: seq<T>, e: T)
    requires TotalPreorder(leq) && Sorted(leq, s)
    ensures e in s ==> leq(s[0], e)
  {
  }

  lemma ClassHead<T>(leq: (T, T) -> bool, x: T, s: seq<T>)
    requires s != []
    ensures Class(leq, x, s) == (if Same(leq, x, s[0]) then [s[0]] else []) + Class(leq, x, s[1..])
  {
  }

  lemma MergedHead<T>(leq: (T, T) -> bool, l: seq<T>, r: seq<T>)
    requires l != [] && r != []
    ensures leq(l[0], r[0]) ==> Merged(leq, l, r)[0] == l[0] && Merged(leq, l, r)[1..] == Merged(leq, l[1..], r)
    ensures !leq(l[0], r[0]) ==> Merged(leq, l, r)[0] == r[0] && Merged(leq, l, r)[1..] == Merged(leq, l, r[1..])
  {
  }

  lemma AppendAssociates<T>(a: seq<T>, b: seq<T>, c: seq<T>)
    ensures (a + b) + c == a + (b + c)
  {
  }

  lemma {:induction false} MergedClass<T(!new)>(leq: (T, T) -> bool, l: seq<T>, r: seq<T>, x: T)
    requires TotalPreorder(leq) && Sorted(leq, l) && Sorted(leq, r)
    ensures Class(leq, x, Merged(leq, l, r)) == Class(leq, x, l) + Class(leq, x, r)
    decreases |l| + |r|
  {
    if l != [] && r != [] {
      hide Class, Merged, TotalPreorder;
      MergedHead(leq, l, r);
      ClassHead(leq, x, Merged(leq, l, r));
      ClassHead(leq, x, l);
      ClassHead(leq, x, r);
      if leq(l[0], r[0]) {
        MergedClass(leq, l[1..], r, x);
        AppendAssociates(if Same(leq, x, l[0]) then [l[0]] else [], Class(leq, x, l[1..]), Class(leq, x, r));
      } else {
        MergedClass(leq, l, r[1..], x);
        if Same(leq, x, r[0]) {
          NoneSameAs(leq, x, l, r[0]);
        }
      }
    }
  }

  lemma NoneSameAs<T(!new)>(leq: (T, T) -> bool, x: T, l: seq<T>, e: T)
    requires TotalPreorder(leq) && Sorted(leq, l) && l != [] && !leq(l[0], e) && Same(leq, x, e)
    ensures Class(leq, x, l) == []
  {
    NoneSame(leq, x, l);
  }

  lemma MergedIsStable<T(!new)>(leq: (T, T) -> bool, l: seq<T>, r: seq<T>)
    requires TotalPreorder(leq) && Sorted(leq, l) && Sorted(leq, r)
    ensures Stable(leq, l + r, Merged(leq, l, r))
  {
    forall x ensures Class(leq, x, l + r) == Class(leq, x, Merged(leq, l, r)) {
      MergedClass(leq, l, r, x);
      ClassConcat(leq, x, l, r);
    }
  }

  // ---------- the array algorithms ----------

  lemma MergedFirst<T>(leq: (T, T) -> bool, l: seq<T>, r: seq<T>)
    ensures l != [] && (r == [] || leq(l[0], r[0])) ==> Merged(leq, l, r) == [l[0]] + Merged(leq, l[1..], r)
    ensures r != [] && (l == [] || !leq(l[0], r[0])) ==> Merged(leq, l, r) == [r[0]] + Merged(leq, l, r[1..])
  {
  }

  lemma MergedStep<T>(leq: (T, T) -> bool, done: seq<T>, l: seq<T>, r: seq<T>)
    ensures l != [] && (r == [] || leq(l[0], r[0])) ==>
              done + Merged(leq, l, r) == (done + [l[0]]) + Merged(leq, l[1..], r)
    ensures r != [] && (l == [] || !leq(l[0], r[0])) ==>
              done + Merged(leq, l, r) == (done + [r[0]]) + Merged(leq, l, r[1..])
  {
    MergedFirst(leq, l, r);
    hide Merged;
    if l != [] {
      AppendAssociates(done, [l[0]], Merged(leq, l[1..], r));
    }
    if r != [] {
      AppendAssociates(done, [r[0]], Merged(leq, l, r[1..]));
    }
  }

  /** How far the merge has come: the elements placed so far, followed by the merge of what is left, are the merge. */
  ghost predicate MergeState<T>(leq: (T, T) -> bool, arr: array<T>, arr0: seq<T>, l: nat, k: nat, r: int,
                                left: seq<T>, right: seq<T>, i: nat, j: nat)
    reads arr
  {
    && |arr0| == arr.Length && i <= |left| && j <= |right| && k == l + i + j && k <= r + 1 <= arr.Length
    && arr[..l] == arr0[..l] && arr[r + 1..] == arr0[r + 1..]
    && arr[l..k] + Merged(leq, left[i..], right[j..]) == Merged(leq, left, right)
  }

  /** One element is placed, from the left or from the right. */
  method Place<T>(leq: (T, T) -> bool, arr: array<T>, ghost arr0: seq<T>, ghost l: nat, k: nat, ghost r: int,
                  left: seq<T>, right: seq<T>, i: nat, j: nat, fromLeft: bool)
    requires MergeState(leq, arr, arr0, l, k, r, left, right, i, j) && k <= r
    requires if fromLeft then i < |left| && (j == |right| || leq(left[i], right[j]))
             else j < |right| && (i == |left| || !leq(left[i], right[j]))
    modifies arr
    ensures MergeState(leq, arr, arr0, l, k + 1, r, left, right, if fromLeft then i + 1 else i,
                       if fromLeft then j else j + 1)
  {
    MergedStep(leq, arr[l..k], left[i..], right[j..]);
    ghost var before := arr[l..k];
    arr[k] := if fromLeft then left[i] else right[j];
    assert arr[l..k] == before;
    assert arr[l..k + 1] == before + [arr[k]];
  }

  /** The first loop of `merge`: the smaller of the two next elements is placed until one side is used up. */
  method MergeBoth<T>(leq: (T, T) -> bool, arr: array<T>, ghost arr0: seq<T>, l: nat, ghost r: int, left: seq<T>,
                      right: seq<T>)
    returns (i: nat, j: nat, k: nat)
    requires MergeState(leq, arr, arr0, l, l, r, left, right, 0, 0) && r == l + |left| + |right| - 1
    modifies arr
    ensures MergeState(leq, arr, arr0, l, k, r, left, right, i, j) && (i == |left| || j == |right|)
  {
    hide MergeState;
    i, j, k := 0, 0, l;
    MergeBounds(leq, arr, arr0, l, k, r, left, right, i, j);
    while i < |left| && j < |right|
      invariant i <= |left| && j <= |right| && MergeState(leq, arr, arr0, l, k, r, left, right, i, j)
    {
      MergeBounds(leq, arr, arr0, l, k, r, left, right, i, j);
      var fromLeft := leq(left[i], right[j]);
      Place(leq, arr, arr0, l, k, r, left, right, i, j, fromLeft);
      if fromLeft {
        i := i + 1;
      } else {
        j := j + 1;
      }
      k := k + 1;
    }
  }

  /** The other two loops: what is left of one side is copied. */
  method CopyRest<T>(leq: (T, T) -> bool, arr: array<T>, ghost arr0: seq<T>, ghost l: nat, from: nat, ghost r: int,
                     left: seq<T>, right: seq<T>, i0: nat, j0: nat)
    requires MergeState(leq, arr, arr0, l, from, r, left, right, i0, j0) && r == l + |left| + |right| - 1
    requires i0 == |left| || j0 == |right|
    modifies arr
    ensures MergeState(leq, arr, arr0, l, l + |left| + |right|, r, left, right, |left|, |right|)
  {
    hide MergeState;
    var i, j, k := i0, j0, from;
    MergeBounds(leq, arr, arr0, l, k, r, left, right, i, j);
    while i < |left|
      invariant i <= |left| && j <= |right| && MergeState(leq, arr, arr0, l, k, r, left, right, i, j)
      invariant i == |left| || j == |right|
    {
      MergeBounds(leq, arr, arr0, l, k, r, left, right, i, j);
      Place(leq, arr, arr0, l, k, r, left, right, i, j, true);
      i := i + 1;
      k := k + 1;
    }
    while j < |right|
      invariant i == |left| && j <= |right| && MergeState(leq, arr, arr0, l, k, r, left, right, i, j)
    {
      MergeBounds(leq, arr, arr0, l, k, r, left, right, i, j);
      Place(leq, arr, arr0, l, k, r, left, right, i, j, false);
      j := j + 1;
      k := k + 1;
    }
    MergeBounds(leq, arr, arr0, l, k, r, left, right, i, j);
  }

  /** `merge`: `arr[l..m + 1]` and `arr[m + 1..r + 1]` are merged in place; nothing else changes. */
  method Merge<T>(leq: (T, T) -> bool, arr: array<T>, l: nat, m: int, r: int)
    requires l <= m + 1 <= r + 1 <= arr.Length
    modifies arr
    ensures arr[..l] == old(arr[..l]) && arr[r + 1..] == old(arr[r + 1..])
    ensures arr[l..r + 1] == Merged(leq, old(arr[l..m + 1]), old(arr[m + 1..r + 1]))
  {
    hide MergeState, Merged;
    var left, right := arr[l..m + 1], arr[m + 1..r + 1];
    ghost var arr0 := arr[..];
    MergeStart(leq, arr, l, r, left, right);
    var i, j, k := MergeBoth(leq, arr, arr0, l, r, left, right);
    CopyRest(leq, arr, arr0, l, k, r, left, right, i, j);
    MergeEnd(leq, arr, arr0, l, r, left, right, r + 1);
  }

  lemma MergeStart<T>(leq: (T, T) -> bool, arr: array<T>, l: nat, r: int, left: seq<T>, right: seq<T>)
    requires l <= r + 1 <= arr.Length
    ensures MergeState(leq, arr, arr[..], l, l, r, left, right, 0, 0)
  {
    assert left[0..] == left && right[0..] == right && arr[l..l] == [];
    assert [] + Merged(leq, left, right) == Merged(leq, left, right);
  }

  lemma MergeEnd<T>(leq: (T, T) -> bool, arr: array<T>, arr0: seq<T>, l: nat, r: int, left: seq<T>, right: seq<T>,
                    k: nat)
    requires MergeState(leq, arr, arr0, l, k, r, left, right, |left|, |right|) && |left| + |right| == r + 1 - l
    ensures k == r + 1 && arr[..l] == arr0[..l] && arr[r + 1..] == arr0[r + 1..]
    ensures arr[l..r + 1] == Merged(leq, left, right)
  {
    assert left[|left|..] == [] && right[|right|..] == [];
    assert arr[l..k] + Merged(leq, [], []) == arr[l..k];
  }

  lemma MergeBounds<T>(leq: (T, T) -> bool, arr: array<T>, arr0: seq<T>, l: nat, k: nat, r: int, left: seq<T>,
                       right: seq<T>, i: nat, j: nat)
    requires MergeState(leq, arr, arr0, l, k, r, left, right, i, j)
    ensures i <= |left| && j <= |right| && k == l + i + j && k <= r + 1
  {
  }

  /** `b` is `a` sorted stably. */
  ghost predicate SortOf<T(!new)>(leq: (T, T) -> bool, a: seq<T>, b: seq<T>) {
    |a| == |b| && Sorted(leq, b) && Stable(leq, a, b)
  }

  lemma MergedSorts<T(!new)>(leq: (T, T) -> bool, a: seq<T>, b: seq<T>, a': seq<T>, b': seq<T>)
    requires TotalPreorder(leq) && SortOf(leq, a, a') && SortOf(leq, b, b')
    ensures SortOf(leq, a + b, Merged(leq, a', b'))
  {
    MergedIsSorted(leq, a', b');
    MergedIsStable(leq, a', b');
    StableConcat(leq, a, a', b, b');
    StableTransitive(leq, a + b, a' + b', Merged(leq, a', b'));
  }

  lemma SingleSorted<T(!new)>(leq: (T, T) -> bool, a: seq<T>)
    requires |a| <= 1
    ensures SortOf(leq, a, a)
  {
  }

  /** `mergeSort`: the range is sorted stably in place; nothing else changes. */
  method Sort<T(!new)>(leq: (T, T) -> bool, arr: array<T>, l: nat, r: int)
    requires TotalPreorder(leq) && l <= r + 1 <= arr.Length
    modifies arr
    ensures arr[..l] == old(arr[..l]) && arr[r + 1..] == old(arr[r + 1..])
    ensures SortOf(leq, old(arr[l..r + 1]), arr[l..r + 1])
    decreases r - l
  {
    hide Merged, SortOf, TotalPreorder;
    if l < r {
      var m := l + (r - l) / 2;
      ghost var a, b := arr[l..m + 1], arr[m + 1..r + 1];
      assert arr[l..r + 1] == a + b;
      Sort(leq, arr, l, m);
      ghost var a' := arr[l..m + 1];
      assert arr[m + 1..r + 1] == arr[m + 1..][..r - m] == b;
      assert arr[r + 1..] == arr[m + 1..][r - m..];
      Sort(leq, arr, m + 1, r);
      assert arr[l..m + 1] == arr[..m + 1][l..] == a';
      assert arr[..l] == arr[..m + 1][..l];
      MergedSorts(leq, a, b, a', arr[m + 1..r + 1]);
      Merge(leq, arr, l, m, r);
    } else {
      SingleSorted(leq, arr[l..r + 1]);
    }
  }

  // ---------- the tiled sort ----------

  /** The end of tile `i`: a full tile, or the short one at the end. */
  function TileEnd(n: nat, tile: nat, i: nat): nat {
    if i * tile < n then i * tile else n
  }

  function TileCount(n: nat, tile: nat): nat
    requires tile > 0
  {
    if n % tile == 0 then n / tile else n / tile + 1
  }

  lemma TilesCover(n: nat, tile: nat, i: nat)
    requires tile > 0
    ensures TileEnd(n, tile, TileCount(n, tile)) == n
    ensures i < TileCount(n, tile) ==> i * tile < n
    ensures i + 1 < TileCount(n, tile) ==> (i + 1) * tile < n
    ensures (i + 1) * tile == i * tile + tile
    ensures i < TileCount(n, tile) ==> TileEnd(n, tile, i) < TileEnd(n, tile, i + 1) <= n
  {
    var q, k := n / tile, TileCount(n, tile);
    assert q * tile <= n < q * tile + tile;
    assert (q + 1) * tile == q * tile + tile;
    TimesMonotone(tile, i, q);
    TimesMonotone(tile, i + 1, q);
  }

  lemma TimesMonotone(t: nat, a: nat, b: nat)
    ensures a <= b ==> a * t <= b * t
    ensures a < b ==> a * t + t <= b * t
  {
    if a < b {
      var d := b - a - 1;
      assert b * t == (a + 1 + d) * t == a * t + t + d * t;
    }
  }

  /** Each of the first `i` tiles of `a` is that tile of `a0` sorted. */
  ghost predicate TilesSorted<T(!new)>(leq: (T, T) -> bool, a0: seq<T>, a: seq<T>, tile: nat, i: nat)
    requires |a0| == |a| && tile > 0 && i <= TileCount(|a|, tile)
  {
    i == 0
    || (TilesCover(|a|, tile, i - 1);
        var lo, hi := TileEnd(|a|, tile, i - 1), TileEnd(|a|, tile, i);
        TilesSorted(leq, a0, a, tile, i - 1) && SortOf(leq, a0[lo..hi], a[lo..hi]))
  }

  lemma {:induction false} TilesSortedKept<T(!new)>(leq: (T, T) -> bool, a0: seq<T>, a: seq<T>, b: seq<T>, tile: nat,
                                                    i: nat)
    requires |a0| == |a| == |b| && tile > 0 && i <= TileCount(|a|, tile) && TilesSorted(leq, a0, a, tile, i)
    requires TileEnd(|a|, tile, i) <= |a| && a[..TileEnd(|a|, tile, i)] == b[..TileEnd(|a|, tile, i)]
    ensures TilesSorted(leq, a0, b, tile, i)
    decreases i
  {
    hide SortOf, TileCount;
    if i > 0 {
      TilesCover(|a|, tile, i - 1);
      var lo, hi := TileEnd(|a|, tile, i - 1), TileEnd(|a|, tile, i);
      assert a[..lo] == a[..hi][..lo] == b[..lo];
      assert a[lo..hi] == a[..hi][lo..] == b[lo..hi];
      TilesSortedKept(leq, a0, a, b, tile, i - 1);
    }
  }

  /** One more tile is sorted in place. */
  lemma TileDone<T(!new)>(leq: (T, T) -> bool, a0: seq<T>, a: seq<T>, b: seq<T>, tile: nat, i: nat)
    requires |a0| == |a| == |b| && tile > 0 && i < TileCount(|a|, tile) && TilesSorted(leq, a0, a, tile, i)
    requires var lo, hi := TileEnd(|a|, tile, i), TileEnd(|a|, tile, i + 1);
             && lo <= hi <= |a| && a[lo..] == a0[lo..] && a[..lo] == b[..lo] && a[hi..] == b[hi..]
             && SortOf(leq, a[lo..hi], b[lo..hi])
    ensures TilesSorted(leq, a0, b, tile, i + 1)
    ensures b[TileEnd(|a|, tile, i + 1)..] == a0[TileEnd(|a|, tile, i + 1)..]
  {
    hide SortOf, TileEnd, TileCount;
    var lo, hi := TileEnd(|a|, tile, i), TileEnd(|a|, tile, i + 1);
    TilesSortedKept(leq, a0, a, b, tile, i);
    assert a[lo..hi] == a[lo..][..hi - lo] == a0[lo..hi];
    assert a[hi..] == a[lo..][hi - lo..] == a0[hi..];
  }

  /** The sorted front grows by one sorted tile. */
  lemma FrontGrows<T(!new)>(leq: (T, T) -> bool, a0: seq<T>, a1: seq<T>, a: seq<T>, b: seq<T>, lo: nat, hi: nat)
    requires TotalPreorder(leq) && |a0| == |a1| == |a| == |b| && lo <= hi <= |a|
    requires SortOf(leq, a0[..lo], a[..lo]) && a[lo..] == a1[lo..] && SortOf(leq, a0[lo..hi], a1[lo..hi])
    requires b[0..hi] == Merged(leq, a[0..lo], a[lo..hi]) && a[hi..] == b[hi..]
    ensures SortOf(leq, a0[..hi], b[..hi]) && b[hi..] == a1[hi..]
  {
    hide SortOf, Merged, TotalPreorder;
    assert a[lo..hi] == a[lo..][..hi - lo] == a1[lo..hi];
    assert a[hi..] == a[lo..][hi - lo..] == a1[hi..];
    assert a0[..lo] + a0[lo..hi] == a0[..hi];
    assert a[0..lo] == a[..lo] && b[0..hi] == b[..hi];
    MergedSorts(leq, a0[..lo], a0[lo..hi], a[..lo], a1[lo..hi]);
  }

  /** The first loop of `sort2D`: tile by tile, the last one shorter if need be. */
  method SortTiles<T(!new)>(leq: (T, T) -> bool, arr: array<T>, tile: nat, nTiles: nat)
    requires TotalPreorder(leq) && tile > 0 && nTiles == TileCount(arr.Length, tile)
    modifies arr
    ensures TilesSorted(leq, old(arr[..]), arr[..], tile, nTiles)
  {
    hide SortOf, TotalPreorder, TileEnd, TileCount;
    var total := arr.Length;
    ghost var a0 := arr[..];
    TilesCover(total, tile, 0);
    FirstTile(total, tile);
    for i := 0 to nTiles
      invariant TileEnd(total, tile, i) <= total
      invariant TilesSorted(leq, a0, arr[..], tile, i)
      invariant arr[..][TileEnd(total, tile, i)..] == a0[TileEnd(total, tile, i)..]
    {
      TilesCover(total, tile, i);
      EndsAre(total, tile, i);
      ghost var a := arr[..];
      ghost var lo, hi := TileEnd(total, tile, i), TileEnd(total, tile, i + 1);
      var r := if total - i * tile < tile then total - 1 else (i + 1) * tile - 1;
      Sort(leq, arr, i * tile, r);
      Slices(arr[..], a, lo, hi);
      assert arr[..][lo..hi] == arr[lo..hi] && a[..lo] == arr[..lo] && a[hi..] == arr[hi..];
      TileDone(leq, a0, a, arr[..], tile, i);
    }
  }

  lemma FirstTile(n: nat, tile: nat)
    ensures TileEnd(n, tile, 0) == 0
  {
  }

  lemma EndsAre(n: nat, tile: nat, i: nat)
    requires tile > 0 && i < TileCount(n, tile)
    ensures TileEnd(n, tile, i) == i * tile < n
    ensures TileEnd(n, tile, i + 1) == if n - i * tile < tile then n else (i + 1) * tile
  {
    TilesCover(n, tile, i);
  }

  lemma Slices<T>(x: seq<T>, y: seq<T>, lo: nat, hi: nat)
    requires lo <= hi <= |x| == |y|
    ensures x[lo..hi] == x[..hi][lo..]
  {
  }

  /** The first `i` tiles are merged into a sorted front, and the other tiles are as they were. */
  ghost predicate FrontSorted<T(!new)>(leq: (T, T) -> bool, a0: seq<T>, a1: seq<T>, a: seq<T>, tile: nat, i: nat)
  {
    var lo := TileEnd(|a|, tile, i);
    |a0| == |a1| == |a| && lo <= |a| && SortOf(leq, a0[..lo], a[..lo]) && a[lo..] == a1[lo..]
  }

  lemma FrontStart<T(!new)>(leq: (T, T) -> bool, a0: seq<T>, a1: seq<T>, tile: nat, nTiles: nat)
    requires |a0| == |a1| && tile > 0 && 0 < nTiles == TileCount(|a1|, tile) && TilesSorted(leq, a0, a1, tile, nTiles)
    ensures FrontSorted(leq, a0, a1, a1, tile, 1)
  {
    hide SortOf, TileEnd, TileCount;
    TilesCover(|a1|, tile, 0);
    TileOf(leq, a0, a1, tile, nTiles, 0);
    FirstTile(|a1|, tile);
    assert a0[0..TileEnd(|a1|, tile, 1)] == a0[..TileEnd(|a1|, tile, 1)];
    assert a1[0..TileEnd(|a1|, tile, 1)] == a1[..TileEnd(|a1|, tile, 1)];
  }

  /** Merging the front with tile `i` extends it. */
  lemma FrontStep<T(!new)>(leq: (T, T) -> bool, a0: seq<T>, a1: seq<T>, a: seq<T>, b: seq<T>, tile: nat, nTiles: nat,
                           i: nat)
    requires TotalPreorder(leq) && |a1| == |a| == |b| && tile > 0 && i < nTiles == TileCount(|a|, tile)
    requires |a0| == |a1| && TilesSorted(leq, a0, a1, tile, nTiles) && FrontSorted(leq, a0, a1, a, tile, i)
    requires var lo, hi := TileEnd(|a|, tile, i), TileEnd(|a|, tile, i + 1);
             lo <= hi <= |a| && b[0..hi] == Merged(leq, a[0..lo], a[lo..hi]) && a[hi..] == b[hi..]
    ensures FrontSorted(leq, a0, a1, b, tile, i + 1)
  {
    hide SortOf, TotalPreorder, TileEnd, TileCount, Merged;
    TileOf(leq, a0, a1, tile, nTiles, i);
    FrontGrows(leq, a0, a1, a, b, TileEnd(|a|, tile, i), TileEnd(|a|, tile, i + 1));
  }

  lemma FrontWhole<T(!new)>(leq: (T, T) -> bool, a0: seq<T>, a1: seq<T>, a: seq<T>, tile: nat, nTiles: nat)
    requires tile > 0 && nTiles == TileCount(|a|, tile) && FrontSorted(leq, a0, a1, a, tile, nTiles)
    ensures SortOf(leq, a0, a)
  {
    hide SortOf, TileEnd, TileCount;
    TilesCover(|a|, tile, nTiles);
    assert a0[..|a|] == a0 && a[..|a|] == a;
  }

  /** The second loop of `sort2D`: the sorted front is merged with the next tile. */
  method MergeTiles<T(!new)>(leq: (T, T) -> bool, arr: array<T>, tile: nat, nTiles: nat, ghost a0: seq<T>)
    requires TotalPreorder(leq) && tile > 0 && nTiles == TileCount(arr.Length, tile) && |a0| == arr.Length
    requires TilesSorted(leq, a0, arr[..], tile, nTiles)
    modifies arr
    ensures SortOf(leq, a0, arr[..])
  {
    hide SortOf, TotalPreorder, TileEnd, TileCount, Merged, FrontSorted, TilesSorted;
    var total := arr.Length;
    ghost var a1 := arr[..];
    if nTiles == 0 {
      NoTiles(total, tile);
      SingleSorted(leq, a0);
      assert a0 == arr[..];
    } else {
      FrontStart(leq, a0, a1, tile, nTiles);
      var i := 0;
      while i < nTiles - 1
        invariant 0 <= i < nTiles && FrontSorted(leq, a0, a1, arr[..], tile, i + 1)
      {
        TilesCover(total, tile, i + 1);
        EndsAre(total, tile, i + 1);
        ghost var a := arr[..];
        var r := if total - (i + 1) * tile < tile then total - 1 else (i + 2) * tile - 1;
        Merge(leq, arr, 0, (i + 1) * tile - 1, r);
        ghost var lo, hi := TileEnd(total, tile, i + 1), TileEnd(total, tile, i + 2);
        assert arr[..][0..hi] == arr[0..hi] && a[hi..] == arr[..][hi..];
        FrontStep(leq, a0, a1, a, arr[..], tile, nTiles, i + 1);
        i := i + 1;
      }
      FrontWhole(leq, a0, a1, arr[..], tile, nTiles);
    }
  }

  lemma NoTiles(n: nat, tile: nat)
    requires tile > 0 && TileCount(n, tile) == 0
    ensures n == 0
  {
    TilesCover(n, tile, 0);
  }

  lemma {:induction false} TileOf<T(!new)>(leq: (T, T) -> bool, a0: seq<T>, a: seq<T>, tile: nat, m: nat, i: nat)
    requires |a0| == |a| && tile > 0 && i < m <= TileCount(|a|, tile) && TilesSorted(leq, a0, a, tile, m)
    ensures var lo, hi := TileEnd(|a|, tile, i), TileEnd(|a|, tile, i + 1);
            lo <= hi <= |a| && SortOf(leq, a0[lo..hi], a[lo..hi])
    decreases m
  {
    hide SortOf, TileCount, TileEnd;
    TilesCover(|a|, tile, i);
    if i < m - 1 {
      TileOf(leq, a0, a, tile, m - 1, i);
    }
  }

  /** `sort2D`: whatever the tile size, the matrix is sorted stably. */
  method Sort2D<T(!new)>(leq: (T, T) -> bool, arr: array<T>, m: nat, n: nat, tile: nat)
    requires TotalPreorder(leq) && arr.Length == m * n && tile > 0
    modifies arr
    ensures SortOf(leq, old(arr[..]), arr[..])
  {
    var nTiles := m * n / tile;
    nTiles := if (m * n) % tile == 0 then nTiles else nTiles + 1;
    ghost var a0 := arr[..];
    SortTiles(leq, arr, tile, nTiles);
    MergeTiles(leq, arr, tile, nTiles, a0);
  }

  /** The result does not depend on the tile size, and is the one plain merge sort gives. */
  lemma TileSizeDoesNotMatter<T(!new)>(leq: (T, T) -> bool, a: seq<T>, b: seq<T>, c: seq<T>)
    requires TotalPreorder(leq) && SortOf(leq, a, b) && SortOf(leq, a, c)
    ensures b == c && multiset(b) == multiset(a)
  {
    forall x ensures Class(leq, x, b) == Class(leq, x, c) {
      assert Class(leq, x, a) == Class(leq, x, b);
    }
    StableSortUnique(leq, b, c);
    StableIsPermutation(leq, a, b);
  }
}
