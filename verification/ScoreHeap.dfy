/** The score threshold of a top-k search: a min-heap of the k best scores, kept in an array.
    Models `ScoreThresholdManager` of Enterprise/IResearch/IResearchOptimizeTopK.cpp.
    Scores are reals: rounding and NaN are not modelled. */
module ScoreHeap {
  function Min(a: nat, b: nat): (m: nat)
    ensures m <= a && m <= b && (m == a || m == b)
  {
    if a < b then a else b
  }

  // ---------- what the heap is for: the k largest scores seen ----------

  ghost predicate Descending(s: seq<real>) {
    forall i, j :: 0 <= i < j < |s| ==> s[i] >= s[j]
  }

  ghost function InsertDescending(x: real, s: seq<real>): (r: seq<real>)
    ensures |r| == |s| + 1
  {
    if s == [] || x >= s[0] then [x] + s else [s[0]] + InsertDescending(x, s[1..])
  }

  ghost function SortDescending(s: seq<real>): (r: seq<real>) {
    if s == [] then [] else InsertDescending(s[|s| - 1], SortDescending(s[..|s| - 1]))
  }

  /** The multiset of the k largest scores of `seen` (all of them while there are fewer). */
  ghost function KLargest(k: nat, seen: seq<real>): multiset<real> {
    var s := SortDescending(seen);
    multiset(s[..Min(k, |s|)])
  }

  /** The k-th largest score, and zero before k scores were seen. */
  ghost function Threshold(k: nat, seen: seq<real>): real
    requires k > 0
  {
    var s := SortDescending(seen);
    if |s| < k then 0.0 else s[k - 1]
  }

  /** Where an insertion lands: behind everything larger, before the rest. */
  lemma {:induction false} InsertAt(x: real, s: seq<real>) returns (p: nat)
    requires Descending(s)
    ensures p <= |s| && InsertDescending(x, s) == s[..p] + [x] + s[p..]
    ensures forall i :: 0 <= i < p ==> s[i] > x
    ensures forall i :: p <= i < |s| ==> x >= s[i]
  {
    if s == [] || x >= s[0] {
      p := 0;
    } else {
      var q := InsertAt(x, s[1..]);
      p := q + 1;
      assert s[..p] == [s[0]] + s[1..][..q];
      assert s[p..] == s[1..][q..];
      forall i | 0 <= i < p ensures s[i] > x {
        assert i > 0 ==> s[i] == s[1..][i - 1];
      }
      forall i | p <= i < |s| ensures x >= s[i] {
        assert s[i] == s[1..][i - 1];
      }
    }
  }

  lemma MultisetInsert<T>(s: seq<T>, p: nat, x: T)
    requires p <= |s|
    ensures multiset(s[..p] + [x] + s[p..]) == multiset(s) + multiset{x}
  {
    assert s == s[..p] + s[p..];
    assert multiset(s) == multiset(s[..p]) + multiset(s[p..]);
  }

  lemma SplicedDescends(s: seq<real>, p: nat, x: real)
    requires Descending(s) && p <= |s|
    requires forall i :: 0 <= i < p ==> s[i] > x
    requires forall i :: p <= i < |s| ==> x >= s[i]
    ensures Descending(s[..p] + [x] + s[p..])
  {
  }

  lemma InsertKeepsOrder(x: real, s: seq<real>)
    requires Descending(s)
    ensures Descending(InsertDescending(x, s))
    ensures multiset(InsertDescending(x, s)) == multiset(s) + multiset{x}
    ensures |InsertDescending(x, s)| == |s| + 1
  {
    var p := InsertAt(x, s);
    SplicedDescends(s, p, x);
    MultisetInsert(s, p, x);
  }

  lemma MultisetSnoc<T>(s: seq<T>)
    requires s != []
    ensures multiset(s) == multiset(s[..|s| - 1]) + multiset{s[|s| - 1]}
  {
    assert s == s[..|s| - 1] + [s[|s| - 1]];
  }

  lemma {:induction false} SortIsSorted(s: seq<real>)
    ensures Descending(SortDescending(s))
    ensures multiset(SortDescending(s)) == multiset(s)
    ensures |SortDescending(s)| == |s|
  {
    if s == [] {
    } else {
      var n := |s| - 1;
      SortIsSorted(s[..n]);
      InsertKeepsOrder(s[n], SortDescending(s[..n]));
      MultisetSnoc(s);
    }
  }

  lemma ThresholdOfFew(k: nat, seen: seq<real>)
    requires |seen| < k
    ensures Threshold(k, seen) == 0.0
  {
    SortIsSorted(seen);
  }

  lemma SortSnoc(s: seq<real>, x: real)
    ensures SortDescending(s + [x]) == InsertDescending(x, SortDescending(s))
  {
    assert (s + [x])[..|s|] == s;
  }

  lemma SplitLast<T>(s: seq<T>, k: nat)
    requires 0 < k <= |s|
    ensures multiset(s[..k]) == multiset(s[..k - 1]) + multiset{s[k - 1]}
  {
    assert s[..k] == s[..k - 1] + [s[k - 1]];
  }

  lemma SplicePrefix(s: seq<real>, k: nat, p: nat, x: real)
    requires p < k <= |s|
    ensures (s[..p] + [x] + s[p..])[..k] == s[..k - 1][..p] + [x] + s[..k - 1][p..]
  {
  }

  /** Inserting into a descending sequence replaces the last of its first k or leaves them alone. */
  lemma InsertIntoPrefix(k: nat, x: real, s: seq<real>)
    requires 0 < k <= |s| && Descending(s)
    ensures multiset(InsertDescending(x, s)[..k]) ==
            if x > s[k - 1] then multiset(s[..k - 1]) + multiset{x} else multiset(s[..k])
  {
    var p := InsertAt(x, s);
    SplitLast(s, k);
    if p >= k {
      assert InsertDescending(x, s)[..k] == s[..k];
    } else {
      SplicePrefix(s, k, p, x);
      MultisetInsert(s[..k - 1], p, x);
    }
  }

  lemma FirstOfMany(k: nat, s: seq<real>)
    requires k <= |s|
    ensures multiset(s[..Min(k, |s|)]) == multiset(s[..k])
  {
  }

  lemma KLargestFull(k: nat, seen: seq<real>)
    requires 0 < k <= |seen|
    ensures k <= |SortDescending(seen)| && Descending(SortDescending(seen))
    ensures KLargest(k, seen) == multiset(SortDescending(seen)[..k])
    ensures KLargest(k, seen) == multiset(SortDescending(seen)[..k - 1]) + multiset{Threshold(k, seen)}
    ensures Threshold(k, seen) == SortDescending(seen)[k - 1]
  {
    SortIsSorted(seen);
    FirstOfMany(k, SortDescending(seen));
    SplitLast(SortDescending(seen), k);
  }

  lemma KLargestStepFull(k: nat, seen: seq<real>, x: real)
    requires 0 < k <= |seen|
    ensures x <= Threshold(k, seen) ==> KLargest(k, seen + [x]) == KLargest(k, seen)
    ensures x > Threshold(k, seen) ==>
              KLargest(k, seen + [x]) + multiset{Threshold(k, seen)} == KLargest(k, seen) + multiset{x}
  {
    KLargestFull(k, seen);
    KLargestFull(k, seen + [x]);
    SortSnoc(seen, x);
    InsertIntoPrefix(k, x, SortDescending(seen));
  }

  /** What one more score does to the k largest: this is the whole update rule of the heap. */
  lemma KLargestStep(k: nat, seen: seq<real>, x: real)
    requires k > 0
    ensures |seen| < k ==> KLargest(k, seen + [x]) == KLargest(k, seen) + multiset{x}
    ensures |seen| >= k && x <= Threshold(k, seen) ==> KLargest(k, seen + [x]) == KLargest(k, seen)
    ensures |seen| >= k && x > Threshold(k, seen) ==>
              KLargest(k, seen + [x]) + multiset{Threshold(k, seen)} == KLargest(k, seen) + multiset{x}
  {
    SortIsSorted(seen);
    SortIsSorted(seen + [x]);
    SortSnoc(seen, x);
    if |seen| < k {
      assert SortDescending(seen)[..|seen|] == SortDescending(seen);
      assert SortDescending(seen + [x])[..|seen| + 1] == SortDescending(seen + [x]);
      InsertKeepsOrder(x, SortDescending(seen));
    } else {
      KLargestStepFull(k, seen, x);
    }
  }

  lemma InMultiset<T>(s: seq<T>, x: T) returns (i: nat)
    requires x in multiset(s)
    ensures i < |s| && s[i] == x
  {
    assert x in s;
    i :| 0 <= i < |s| && s[i] == x;
  }

  lemma SplitMultiset<T>(s: seq<T>, m: nat)
    requires m <= |s|
    ensures multiset(s[..m]) <= multiset(s)
    ensures multiset(s) - multiset(s[..m]) == multiset(s[m..])
    ensures |multiset(s[..m])| == m
  {
    assert s == s[..m] + s[m..];
  }

  /** The independent reading of `KLargest`: a part of what was seen, of the right size,
      with nothing left out that beats something kept. */
  lemma KLargestIsBest(k: nat, seen: seq<real>)
    ensures KLargest(k, seen) <= multiset(seen)
    ensures |KLargest(k, seen)| == Min(k, |seen|)
    ensures forall kept, dropped :: kept in KLargest(k, seen) && dropped in multiset(seen) - KLargest(k, seen) ==>
                                      kept >= dropped
  {
    SortIsSorted(seen);
    var s := SortDescending(seen);
    var m := Min(k, |s|);
    SplitMultiset(s, m);
    forall kept, dropped | kept in KLargest(k, seen) && dropped in multiset(seen) - KLargest(k, seen)
      ensures kept >= dropped
    {
      var i := InMultiset(s[..m], kept);
      var j := InMultiset(s[m..], dropped);
      assert s[i] >= s[m + j];
    }
  }

  lemma Cancel<T>(a: multiset<T>, b: multiset<T>, x: T)
    requires a + multiset{x} == b + multiset{x}
    ensures a == b
  {
    assert a == a + multiset{x} - multiset{x};
  }

  /** The threshold is the least score kept, once k scores are kept. */
  lemma ThresholdIsLeastKept(k: nat, seen: seq<real>)
    requires 0 < k <= |seen|
    ensures Threshold(k, seen) in KLargest(k, seen)
    ensures forall x :: x in KLargest(k, seen) ==> Threshold(k, seen) <= x
  {
    SortIsSorted(seen);
    var s := SortDescending(seen);
    assert s[..k][k - 1] == Threshold(k, seen);
    forall x | x in multiset(s[..k]) ensures Threshold(k, seen) <= x {
      var i :| 0 <= i < k && s[..k][i] == x;
      assert i < k - 1 ==> s[i] >= s[k - 1];
    }
  }

  lemma ThresholdWasSeen(k: nat, seen: seq<real>)
    requires 0 < k <= |seen|
    ensures Threshold(k, seen) in seen
  {
    ThresholdIsLeastKept(k, seen);
    KLargestIsBest(k, seen);
    assert Threshold(k, seen) in multiset(seen);
  }

  lemma ThresholdStepFull(k: nat, seen: seq<real>, x: real)
    requires 0 < k <= |seen|
    ensures Threshold(k, seen) <= Threshold(k, seen + [x])
  {
    KLargestStep(k, seen, x);
    ThresholdIsLeastKept(k, seen);
    ThresholdIsLeastKept(k, seen + [x]);
    var t := Threshold(k, seen + [x]);
    assert t in KLargest(k, seen + [x]) + multiset{Threshold(k, seen)};
    assert t == x || t in KLargest(k, seen);
  }

  lemma ThresholdStep(k: nat, seen: seq<real>, x: real)
    requires k > 0 && x >= 0.0 && forall i :: 0 <= i < |seen| ==> seen[i] >= 0.0
    ensures Threshold(k, seen) <= Threshold(k, seen + [x])
  {
    SortIsSorted(seen);
    SortIsSorted(seen + [x]);
    if |seen| + 1 < k {
    } else if |seen| + 1 == k {
      ThresholdWasSeen(k, seen + [x]);
    } else {
      ThresholdStepFull(k, seen, x);
    }
  }

  /** For non-negative scores the threshold never falls, however many scores follow. */
  lemma {:induction false} ThresholdNeverFalls(k: nat, seen: seq<real>, more: seq<real>)
    requires k > 0
    requires forall i :: 0 <= i < |seen| ==> seen[i] >= 0.0
    requires forall i :: 0 <= i < |more| ==> more[i] >= 0.0
    ensures Threshold(k, seen) <= Threshold(k, seen + more)
    decreases |more|
  {
    if more == [] {
      assert seen + more == seen;
    } else {
      ThresholdStep(k, seen, more[0]);
      ThresholdNeverFalls(k, seen + [more[0]], more[1..]);
      assert seen + more == seen + [more[0]] + more[1..];
    }
  }

  // ---------- the heap algorithms, in place on an array ----------

  function Parent(j: nat): nat
    requires j > 0
  {
    (j - 1) / 2
  }

  ghost predicate Ordered(s: seq<real>, j: nat)
    requires 0 < j < |s|
  {
    s[Parent(j)] <= s[j]
  }

  /** Every element is at least its parent: the smallest is on top. */
  ghost predicate IsMinHeap(s: seq<real>) {
    forall j :: 0 < j < |s| ==> Ordered(s, j)
  }

  /** A heap except that position i may be smaller than its ancestors. */
  ghost predicate HeapButAbove(s: seq<real>, i: nat) {
    && i < |s|
    && (forall j :: 0 < j < |s| && j != i ==> Ordered(s, j))
    && (forall j :: 0 < j < |s| && 0 < i && Parent(j) == i ==> s[Parent(i)] <= s[j])
  }

  /** A heap except that position i may be larger than its descendants. */
  ghost predicate HeapButBelow(s: seq<real>, i: nat) {
    && (forall j :: 0 < j < |s| && Parent(j) != i ==> Ordered(s, j))
    && (forall j :: 0 < j < |s| && 0 < i && Parent(j) == i ==> s[Parent(i)] <= s[j])
  }

  lemma {:induction false} TopIsLeast(s: seq<real>, j: nat)
    requires IsMinHeap(s) && j < |s|
    ensures s[0] <= s[j]
    decreases j
  {
    if j > 0 {
      assert Ordered(s, j);
      TopIsLeast(s, Parent(j));
    }
  }

  ghost function Swapped(s: seq<real>, i: nat, j: nat): seq<real>
    requires i < |s| && j < |s|
  {
    s[i := s[j]][j := s[i]]
  }

  lemma SwapKeepsMultiset(s: seq<real>, i: nat, j: nat)
    requires i < |s| && j < |s|
    ensures multiset(Swapped(s, i, j)) == multiset(s)
  {
  }

  lemma SiftUpStep(s: seq<real>, i: nat)
    requires HeapButAbove(s, i) && 0 < i && s[i] < s[Parent(i)]
    ensures HeapButAbove(Swapped(s, i, Parent(i)), Parent(i))
  {
    var p := Parent(i);
    var t := Swapped(s, i, p);
    forall j | 0 < j < |t| && j != p ensures Ordered(t, j) {
      if j != i { assert Ordered(s, j); }
    }
    forall j | 0 < j < |t| && 0 < p && Parent(j) == p ensures t[Parent(p)] <= t[j] {
      assert Ordered(s, p);
      if j != i { assert Ordered(s, j); }
    }
  }

  lemma SiftDownStep(s: seq<real>, i: nat, child: nat)
    requires HeapButBelow(s, i) && 0 < child < |s| && Parent(child) == i
    requires forall j :: 0 < j < |s| && Parent(j) == i ==> s[child] <= s[j]
    requires s[child] < s[i]
    ensures HeapButBelow(Swapped(s, i, child), child)
  {
    var t := Swapped(s, i, child);
    forall j | 0 < j < |t| && Parent(j) != child ensures Ordered(t, j) {
      if Parent(j) != i { assert Ordered(s, j); }
    }
    forall j | 0 < j < |t| && Parent(j) == child ensures t[Parent(child)] <= t[j] {
      assert Ordered(s, j);
    }
  }

  method Swap(a: array<real>, n: nat, i: nat, j: nat)
    requires i < n <= a.Length && j < n
    modifies a
    ensures a[..n] == Swapped(old(a[..n]), i, j)
    ensures a[n..] == old(a[n..])
  {
    a[i], a[j] := a[j], a[i];
  }

  /** `std::push_heap`: the last of the first n elements is sifted up into the heap before it. */
  method PushHeap(a: array<real>, n: nat)
    requires 0 < n <= a.Length
    requires IsMinHeap(a[..n - 1])
    modifies a
    ensures IsMinHeap(a[..n])
    ensures multiset(a[..n]) == multiset(old(a[..n]))
    ensures a[n..] == old(a[n..])
  {
    var i := n - 1;
    assert HeapButAbove(a[..n], i) by {
      forall j | 0 < j < n && j != i ensures Ordered(a[..n], j) {
        assert Ordered(a[..n - 1], j);
      }
    }
    while 0 < i && a[i] < a[Parent(i)]
      invariant 0 <= i < n && HeapButAbove(a[..n], i)
      invariant multiset(a[..n]) == multiset(old(a[..n]))
      invariant a[n..] == old(a[n..])
    {
      SiftUpStep(a[..n], i);
      SwapKeepsMultiset(a[..n], i, Parent(i));
      Swap(a, n, i, Parent(i));
      i := Parent(i);
    }
  }

  lemma SettledAbove(s: seq<real>, i: nat, child: nat)
    requires HeapButBelow(s, i) && 0 < child < |s| && Parent(child) == i
    requires forall j :: 0 < j < |s| && Parent(j) == i ==> s[child] <= s[j]
    requires s[i] <= s[child]
    ensures IsMinHeap(s)
  {
    forall j | 0 < j < |s| ensures Ordered(s, j) {}
  }

  lemma SettledAtLeaf(s: seq<real>, i: nat)
    requires HeapButBelow(s, i) && 2 * i + 1 >= |s|
    ensures IsMinHeap(s)
  {
    forall j | 0 < j < |s| ensures Ordered(s, j) {}
  }

  /** The smaller of the two children of i. */
  method SmallerChild(a: array<real>, m: nat, i: nat) returns (child: nat)
    requires m <= a.Length && 2 * i + 1 < m
    ensures 0 < child < m && Parent(child) == i
    ensures forall j :: 0 < j < m && Parent(j) == i ==> a[..m][child] <= a[..m][j]
  {
    child := 2 * i + 1;
    if child + 1 < m && a[child + 1] < a[child] {
      child := child + 1;
    }
    forall j | 0 < j < m && Parent(j) == i ensures a[..m][child] <= a[..m][j] {
      assert j == 2 * i + 1 || j == 2 * i + 2;
      assert a[..m][j] == a[j] && a[..m][child] == a[child];
    }
  }

  /** Sifts the top of the first m elements down to its place. */
  method SiftDown(a: array<real>, m: nat)
    requires m <= a.Length && HeapButBelow(a[..m], 0)
    modifies a
    ensures IsMinHeap(a[..m])
    ensures multiset(a[..m]) == multiset(old(a[..m]))
    ensures a[m..] == old(a[m..])
  {
    var i := 0;
    while 2 * i + 1 < m
      invariant 0 <= i && HeapButBelow(a[..m], i)
      invariant multiset(a[..m]) == multiset(old(a[..m]))
      invariant a[m..] == old(a[m..])
    {
      var child := SmallerChild(a, m, i);
      if a[i] <= a[child] {
        SettledAbove(a[..m], i, child);
        return;
      }
      SiftDownStep(a[..m], i, child);
      SwapKeepsMultiset(a[..m], i, child);
      Swap(a, m, i, child);
      i := child;
    }
    SettledAtLeaf(a[..m], i);
  }

  /** `std::pop_heap`: the top moves behind the heap, the last element is sifted down from the top. */
  method PopHeap(a: array<real>, n: nat)
    requires 0 < n <= a.Length
    requires IsMinHeap(a[..n])
    modifies a
    ensures IsMinHeap(a[..n - 1])
    ensures a[n - 1] == old(a[0])
    ensures multiset(a[..n]) == multiset(old(a[..n]))
    ensures a[n..] == old(a[n..])
  {
    var m := n - 1;
    SwapKeepsMultiset(a[..n], 0, m);
    ghost var was := a[..n];
    Swap(a, n, 0, m);
    assert a[m] == a[..n][m];
    assert HeapButBelow(a[..m], 0) by {
      forall j | 0 < j < m && Parent(j) != 0 ensures Ordered(a[..m], j) {
        assert Ordered(was, j);
        assert a[..m][j] == a[..n][j] && a[..m][Parent(j)] == a[..n][Parent(j)];
      }
    }
    SiftDown(a, m);
    assert a[m] == a[m..][0];
    assert a[n..] == a[m..][1..];
    assert a[..n] == a[..m] + [a[m]];
  }

  method OverwriteLast(a: array<real>, score: real)
    requires a.Length > 0
    modifies a
    ensures a[..a.Length - 1] == old(a[..a.Length - 1])
    ensures multiset(a[..a.Length]) + multiset{old(a[a.Length - 1])} == multiset(old(a[..a.Length])) + multiset{score}
  {
    var n := a.Length;
    ghost var rest := a[..n - 1];
    assert a[..n] == rest + [a[n - 1]];
    a[n - 1] := score;
    assert a[..n] == rest + [score];
  }

  /** The three calls made on a full heap: pop the least score, overwrite it, push. */
  method ReplaceTop(a: array<real>, score: real)
    requires a.Length > 0 && IsMinHeap(a[..a.Length])
    modifies a
    ensures IsMinHeap(a[..a.Length])
    ensures multiset(a[..a.Length]) + multiset{old(a[0])} == multiset(old(a[..a.Length])) + multiset{score}
  {
    PopHeap(a, a.Length);
    OverwriteLast(a, score);
    PushHeap(a, a.Length);
  }

  // ---------- the manager ----------

  /** `ScoreThresholdManager`: `heap[..size]` is the live vector, its capacity the array length. */
  class ScoreThresholdManager {
    const k: nat
    const heap: array<real>
    var size: nat
    ghost var seen: seq<real>

    ghost predicate Valid()
      reads this, heap
    {
      && k > 0
      && heap.Length == k
      && size == Min(k, |seen|)
      && IsMinHeap(heap[..size])
      && multiset(heap[..size]) == KLargest(k, seen)
    }

    constructor (k: nat)
      requires k > 0
      ensures Valid() && fresh(heap) && this.k == k && seen == []
    {
      this.k := k;
      heap := new real[k];
      size := 0;
      seen := [];
      new;
      assert heap[..size] == [];
    }

    lemma FrontIsThreshold()
      requires Valid() && size == k
      ensures heap[0] == Threshold(k, seen)
    {
      SortIsSorted(seen);
      ThresholdIsLeastKept(k, seen);
      var h := heap[..size];
      assert h[0] in multiset(h);
      var t := Threshold(k, seen);
      assert t in multiset(h);
      assert t in h;
      var j :| 0 <= j < |h| && h[j] == t;
      TopIsLeast(h, j);
    }

    method Join(score: real)
      requires size < heap.Length && IsMinHeap(heap[..size])
      modifies this`size, heap
      ensures size == old(size) + 1 && IsMinHeap(heap[..size])
      ensures multiset(heap[..size]) == multiset(old(heap[..size])) + multiset{score}
    {
      ghost var was := heap[..size];
      heap[size] := score;
      size := size + 1;
      assert heap[..size] == was + [score];
      assert heap[..size - 1] == was;
      PushHeap(heap, size);
    }

    /** Feeds one score. The answer says whether it displaced or joined the k best. */
    method AddScore(score: real) returns (competitive: bool)
      requires Valid()
      modifies this, heap
      ensures Valid()
      ensures seen == old(seen) + [score]
      ensures competitive <==> |old(seen)| < k || score > Threshold(k, old(seen))
    {
      KLargestStep(k, seen, score);
      if size < k {
        Join(score);
        competitive := true;
      } else {
        FrontIsThreshold();
        competitive := score > heap[0];
        if competitive {
          ghost var was := heap[0];
          ReplaceTop(heap, score);
          Cancel(multiset(heap[..size]), KLargest(k, seen + [score]), was);
        }
      }
      seen := seen + [score];
    }

    method GetThreshold() returns (t: real)
      requires Valid()
      ensures t == Threshold(k, seen)
    {
      SortIsSorted(seen);
      if size < k {
        return 0.0;
      }
      FrontIsThreshold();
      return heap[0];
    }

    method Reset()
      requires Valid()
      modifies this
      ensures Valid() && seen == []
    {
      size := 0;
      seen := [];
      assert heap[..size] == [];
    }
  }
}
