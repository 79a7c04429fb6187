/** Skipping documents by upper bound, and why that never changes the k best.
    Models `WandIterator` and the execution context of Enterprise/IResearch/IResearchOptimizeTopK.cpp. */
module WandSearch {
  import opened ScoreHeap

  datatype Doc = Doc(id: nat, score: real, maxScore: real)

  /** What the index promises of each document: its upper bound is one. */
  ghost predicate Admissible(docs: seq<Doc>) {
    forall i :: 0 <= i < |docs| ==> 0.0 <= docs[i].score <= docs[i].maxScore
  }

  ghost function Scores(docs: seq<Doc>): (r: seq<real>)
    ensures |r| == |docs|
  {
    seq(|docs|, i requires 0 <= i < |docs| => docs[i].score)
  }

  /** The documents a WAND scan returns when each returned one is scored once. */
  ghost function Returned(docs: seq<Doc>, k: nat): seq<Doc>
    requires k > 0
  {
    if docs == [] then [] else
      var r := Returned(docs[..|docs| - 1], k);
      var d := docs[|docs| - 1];
      if d.maxScore >= Threshold(k, Scores(r)) then r + [d] else r
  }

  // ---------- sorting by a fixed order that puts higher scores first ----------

  type Order = (Doc, Doc) -> bool

  ghost predicate TotalOrder(before: Order) {
    && (forall a, b :: before(a, b) || before(b, a))
    && (forall a, b :: before(a, b) && before(b, a) ==> a == b)
    && (forall a, b, c :: before(a, b) && before(b, c) ==> before(a, c))
  }

  ghost predicate HigherFirst(before: Order) {
    forall a, b :: before(a, b) ==> a.score >= b.score
  }

  /** A total order on documents that refines "higher score first": any fixed tie-break. */
  ghost predicate RanksByScore(before: Order) {
    TotalOrder(before) && HigherFirst(before)
  }

  ghost predicate SortedBy(before: Order, docs: seq<Doc>) {
    forall i, j :: 0 <= i < j < |docs| ==> before(docs[i], docs[j])
  }

  function Insert(before: Order, d: Doc, docs: seq<Doc>): (r: seq<Doc>)
    ensures |r| == |docs| + 1
  {
    if docs == [] || before(d, docs[0]) then [d] + docs else [docs[0]] + Insert(before, d, docs[1..])
  }

  function SortBy(before: Order, docs: seq<Doc>): (r: seq<Doc>)
    ensures |r| == |docs|
  {
    if docs == [] then [] else Insert(before, docs[|docs| - 1], SortBy(before, docs[..|docs| - 1]))
  }

  function Take<T>(k: nat, s: seq<T>): (r: seq<T>)
    ensures r <= s && |r| <= k && (|r| == k || r == s)
  {
    s[..Min(k, |s|)]
  }

  lemma TailMultiset<T>(s: seq<T>)
    requires s != []
    ensures multiset(s) == multiset(s[1..]) + multiset{s[0]}
  {
    assert s == [s[0]] + s[1..];
  }

  /** The first document stays first when t holds the others and one that is not before it. */
  lemma InsertBehind(before: Order, d: Doc, docs: seq<Doc>, t: seq<Doc>)
    requires TotalOrder(before) && docs != [] && SortedBy(before, docs) && SortedBy(before, t)
    requires !before(d, docs[0]) && multiset(t) == multiset(docs[1..]) + multiset{d}
    ensures SortedBy(before, [docs[0]] + t)
  {
    forall j | 0 <= j < |t| ensures before(docs[0], t[j]) {
      assert t[j] in multiset(t);
      assert t[j] == d || t[j] in docs[1..];
    }
  }

  lemma {:induction false} InsertSorts(before: Order, d: Doc, docs: seq<Doc>)
    requires TotalOrder(before) && SortedBy(before, docs)
    ensures SortedBy(before, Insert(before, d, docs))
    ensures multiset(Insert(before, d, docs)) == multiset(docs) + multiset{d}
  {
    if docs == [] || before(d, docs[0]) {
    } else {
      InsertSorts(before, d, docs[1..]);
      TailMultiset(docs);
      InsertBehind(before, d, docs, Insert(before, d, docs[1..]));
    }
  }

  lemma {:induction false} SortBySorts(before: Order, docs: seq<Doc>)
    requires TotalOrder(before)
    ensures SortedBy(before, SortBy(before, docs))
    ensures multiset(SortBy(before, docs)) == multiset(docs)
  {
    if docs == [] {
    } else {
      var n := |docs| - 1;
      SortBySorts(before, docs[..n]);
      InsertSorts(before, docs[n], SortBy(before, docs[..n]));
      assert docs == docs[..n] + [docs[n]];
    }
  }

  lemma FirstIsFirst(before: Order, a: seq<Doc>, d: Doc)
    requires TotalOrder(before) && SortedBy(before, a) && d in multiset(a)
    ensures before(a[0], d)
  {
    var i := InMultiset(a, d);
    if i > 0 { assert before(a[0], a[i]); }
  }

  lemma FirstsAgree(before: Order, a: seq<Doc>, b: seq<Doc>)
    requires TotalOrder(before) && SortedBy(before, a) && SortedBy(before, b)
    requires multiset(a) == multiset(b) && a != [] && b != []
    ensures a[0] == b[0]
  {
    assert a[0] in multiset(a) && b[0] in multiset(b);
    FirstIsFirst(before, a, b[0]);
    FirstIsFirst(before, b, a[0]);
  }

  /** A total order leaves no choice: any two sorted arrangements of the same documents agree. */
  lemma {:induction false} SortedIsUnique(before: Order, a: seq<Doc>, b: seq<Doc>)
    requires TotalOrder(before) && SortedBy(before, a) && SortedBy(before, b)
    requires multiset(a) == multiset(b)
    ensures a == b
  {
    assert |a| == |multiset(a)| == |multiset(b)| == |b|;
    if a == [] {
    } else {
      FirstsAgree(before, a, b);
      TailMultiset(a);
      TailMultiset(b);
      Cancel(multiset(a[1..]), multiset(b[1..]), a[0]);
      SortedIsUnique(before, a[1..], b[1..]);
      assert a == [a[0]] + a[1..] && b == [b[0]] + b[1..];
    }
  }

  // ---------- the k best survive every skip ----------

  lemma {:induction false} InsertDescendingTop(x: real, s: seq<real>)
    requires Descending([x] + s)
    ensures InsertDescending(x, s) == [x] + s
  {
    assert s != [] ==> ([x] + s)[0] >= ([x] + s)[1];
  }

  /** Sorting documents by rank and sorting their scores is the same thing to the scores. */
  lemma {:induction false} ScoresOfInsert(before: Order, d: Doc, docs: seq<Doc>)
    requires RanksByScore(before) && SortedBy(before, docs)
    ensures Scores(Insert(before, d, docs)) == InsertDescending(d.score, Scores(docs))
  {
    if docs == [] {
    } else if before(d, docs[0]) {
      assert Scores([d] + docs) == [d.score] + Scores(docs);
    } else {
      ScoresOfInsert(before, d, docs[1..]);
      assert Scores(docs)[1..] == Scores(docs[1..]);
      assert Scores(Insert(before, d, docs)) == [docs[0].score] + InsertDescending(d.score, Scores(docs[1..]));
      if docs[0].score == d.score {
        forall j | 0 <= j < |docs[1..]| ensures docs[1..][j].score <= d.score {
          assert before(docs[0], docs[j + 1]);
        }
        forall i, j | 0 <= i < j < |docs[1..]| ensures docs[1..][i].score >= docs[1..][j].score {
          assert before(docs[i + 1], docs[j + 1]);
        }
        InsertDescendingTop(d.score, Scores(docs[1..]));
        assert Scores(docs) == [d.score] + Scores(docs[1..]);
      }
    }
  }

  lemma {:induction false} ScoresOfSort(before: Order, docs: seq<Doc>)
    requires RanksByScore(before)
    ensures Scores(SortBy(before, docs)) == SortDescending(Scores(docs))
  {
    if docs == [] {
    } else {
      var n := |docs| - 1;
      ScoresOfSort(before, docs[..n]);
      SortBySorts(before, docs[..n]);
      ScoresOfInsert(before, docs[n], SortBy(before, docs[..n]));
      assert Scores(docs)[..n] == Scores(docs[..n]);
    }
  }

  lemma TakeCons(k: nat, d: Doc, s: seq<Doc>)
    requires k > 0
    ensures Take(k, [d] + s) == [d] + Take(k - 1, s)
  {
  }

  lemma TakeTake(k: nat, s: seq<Doc>)
    requires k > 0
    ensures Take(k - 1, Take(k, s)) == Take(k - 1, s)
  {
  }

  lemma TakeTail(k: nat, s: seq<Doc>)
    requires k > 0 && s != []
    ensures Take(k - 1, s[1..]) == Take(k, s)[1..]
  {
  }

  /** The first k after an insertion depend only on the first k before it. */
  lemma {:induction false} TakeInsert(before: Order, k: nat, d: Doc, a: seq<Doc>, b: seq<Doc>)
    requires Take(k, a) == Take(k, b)
    ensures Take(k, Insert(before, d, a)) == Take(k, Insert(before, d, b))
  {
    if k == 0 {
    } else if a == [] {
      assert Take(k, b) == [];
      assert b == [];
    } else {
      assert Take(k, a)[0] == a[0];
      assert b != [] && Take(k, b)[0] == b[0];
      if before(d, a[0]) {
        TakeCons(k, d, a);
        TakeCons(k, d, b);
        TakeTake(k, a);
        TakeTake(k, b);
      } else {
        TakeTail(k, a);
        TakeTail(k, b);
        TakeInsert(before, k - 1, d, a[1..], b[1..]);
        TakeCons(k, a[0], Insert(before, d, a[1..]));
        TakeCons(k, b[0], Insert(before, d, b[1..]));
      }
    }
  }

  /** A document beaten by k others does not enter the first k. */
  lemma {:induction false} BeatenStaysOut(before: Order, k: nat, d: Doc, docs: seq<Doc>)
    requires RanksByScore(before) && k <= |docs|
    requires forall i :: 0 <= i < k ==> docs[i].score > d.score
    ensures Take(k, Insert(before, d, docs)) == Take(k, docs)
  {
    if k == 0 {
    } else {
      assert docs[0].score > d.score;
      assert !before(d, docs[0]);
      BeatenStaysOut(before, k - 1, d, docs[1..]);
      assert Take(k, Insert(before, d, docs)) == [docs[0]] + Take(k - 1, Insert(before, d, docs[1..]));
      assert Take(k, docs) == [docs[0]] + Take(k - 1, docs[1..]);
    }
  }

  lemma TakeOfPrefix(s: seq<Doc>, t: seq<Doc>, k: nat, i: nat)
    requires Take(k, s) == Take(k, t) && k <= |t| && i < k
    ensures i < |s| && s[i] == t[i]
  {
    assert Take(k, t)[i] == t[i];
    assert Take(k, s)[i] == s[i];
  }

  lemma AboveThreshold(k: nat, s: seq<real>, docs: seq<Doc>, x: real)
    requires Scores(docs) == s && Descending(s) && 0 < k <= |s| && x < s[k - 1]
    ensures forall i :: 0 <= i < k ==> docs[i].score > x
  {
    forall i | 0 <= i < k ensures docs[i].score > x {
      assert Scores(docs)[i] == docs[i].score;
      assert i < k - 1 ==> s[i] >= s[k - 1];
    }
  }

  /** A document whose bound is below the threshold is beaten by k of those returned so far. */
  lemma SkippedIsBeaten(before: Order, k: nat, r: seq<Doc>, d: Doc)
    requires RanksByScore(before) && k > 0
    requires 0.0 <= d.score <= d.maxScore < Threshold(k, Scores(r))
    ensures k <= |r|
    ensures forall i :: 0 <= i < k ==> SortBy(before, r)[i].score > d.score
  {
    ScoresOfSort(before, r);
    SortIsSorted(Scores(r));
    AboveThreshold(k, SortDescending(Scores(r)), SortBy(before, r), d.score);
  }

  lemma {:induction false} ReturnedKeepsTop(before: Order, docs: seq<Doc>, k: nat)
    requires RanksByScore(before) && k > 0 && Admissible(docs)
    ensures Take(k, SortBy(before, docs)) == Take(k, SortBy(before, Returned(docs, k)))
  {
    if docs == [] {
    } else {
      var n := |docs| - 1;
      var p, d := docs[..n], docs[n];
      var r := Returned(p, k);
      ReturnedKeepsTop(before, p, k);
      if d.maxScore >= Threshold(k, Scores(r)) {
        assert (r + [d])[..|r|] == r;
        TakeInsert(before, k, d, SortBy(before, p), SortBy(before, r));
      } else {
        SkippedIsBeaten(before, k, r, d);
        forall i | 0 <= i < k ensures i < |p| && SortBy(before, p)[i].score > d.score {
          TakeOfPrefix(SortBy(before, p), SortBy(before, r), k, i);
        }
        assert k <= |p| by { TakeOfPrefix(SortBy(before, p), SortBy(before, r), k, k - 1); }
        BeatenStaysOut(before, k, d, SortBy(before, p));
      }
    }
  }

  /** Exact top-k: whatever sorts the returned documents by a fixed ranking and keeps k gets
      what brute force gets from all documents. */
  lemma WandIsExact(before: Order, docs: seq<Doc>, k: nat, all: seq<Doc>, found: seq<Doc>)
    requires RanksByScore(before) && k > 0 && Admissible(docs)
    requires SortedBy(before, all) && multiset(all) == multiset(docs)
    requires SortedBy(before, found) && multiset(found) == multiset(Returned(docs, k))
    ensures Take(k, all) == Take(k, found)
  {
    SortBySorts(before, docs);
    SortBySorts(before, Returned(docs, k));
    SortedIsUnique(before, all, SortBy(before, docs));
    SortedIsUnique(before, found, SortBy(before, Returned(docs, k)));
    ReturnedKeepsTop(before, docs, k);
  }

  // ---------- the iterators ----------

  /** From the position on, at is the first behind it whose id reaches the target, or behind them all. */
  ghost predicate FirstReaching(docs: seq<Doc>, position: int, target: nat, at: int) {
    && position < at
    && (forall i :: position < i < at && 0 <= i < |docs| ==> docs[i].id < target)
    && (0 <= at < |docs| ==> docs[at].id >= target)
  }

  /** A scored posting list, read forward: the wrapped `ScoredDocIterator`. Position -1 is
      before the first document, `|docs|` or beyond is behind the last. */
  class PostingIterator {
    const docs: seq<Doc>
    var pos: int

    ghost predicate Valid()
      reads this
    {
      -1 <= pos
    }

    predicate AtDoc()
      reads this
    {
      0 <= pos < |docs|
    }

    constructor (docs: seq<Doc>)
      ensures Valid() && this.docs == docs && pos == -1
    {
      this.docs := docs;
      pos := -1;
    }

    method Next() returns (found: bool)
      requires Valid()
      modifies this
      ensures Valid() && pos == old(pos) + 1 && found == AtDoc()
    {
      pos := pos + 1;
      found := pos < |docs|;
    }

    function Value(): nat
      reads this
    {
      if AtDoc() then docs[pos].id else 0
    }

    function Score(): real
      reads this
    {
      if AtDoc() then docs[pos].score else 0.0
    }

    function MaxScore(): real
      reads this
    {
      if AtDoc() then docs[pos].maxScore else 0.0
    }

    /** Advances at least one document, to the first whose id reaches the target; 0 if none. */
    method Seek(target: nat) returns (id: nat)
      requires Valid()
      modifies this
      ensures Valid() && FirstReaching(docs, old(pos), target, pos)
      ensures id == Value()
    {
      pos := pos + 1;
      while pos < |docs| && docs[pos].id < target
        invariant old(pos) < pos
        invariant forall i :: old(pos) < i < pos && i < |docs| ==> docs[i].id < target
      {
        pos := pos + 1;
      }
      id := if pos < |docs| then docs[pos].id else 0;
    }
  }

  /** How many documents a scan of n documents passed over. */
  function Passed(start: int, stop: int, n: nat): int {
    if stop <= n then stop - start - 1 else if start < n then n - start - 1 else 0
  }

  class WandIterator {
    const inner: PostingIterator
    const manager: ScoreThresholdManager
    var skipped: nat

    ghost predicate Valid()
      reads this, inner, manager, manager.heap
    {
      inner.Valid() && manager.Valid()
    }

    constructor (inner: PostingIterator, manager: ScoreThresholdManager)
      requires inner.Valid() && manager.Valid()
      ensures Valid() && this.inner == inner && this.manager == manager && skipped == 0
    {
      this.inner := inner;
      this.manager := manager;
      skipped := 0;
    }

    /** Stops at the next document whose bound reaches the threshold; everything passed is below it. */
    method Next() returns (found: bool)
      requires Valid()
      modifies this, inner
      ensures Valid() && inner.pos > old(inner.pos)
      ensures found == inner.AtDoc()
      ensures forall i :: old(inner.pos) < i < inner.pos && i < |inner.docs| ==>
                            inner.docs[i].maxScore < Threshold(manager.k, manager.seen)
      ensures found ==> inner.docs[inner.pos].maxScore >= Threshold(manager.k, manager.seen)
      ensures !found ==> inner.pos == |inner.docs| || inner.pos == old(inner.pos) + 1
      ensures skipped == old(skipped) + Passed(old(inner.pos), inner.pos, |inner.docs|)
    {
      var more := inner.Next();
      while more
        invariant Valid() && inner.pos > old(inner.pos) && more == inner.AtDoc()
        invariant forall i :: old(inner.pos) < i < inner.pos && i < |inner.docs| ==>
                                inner.docs[i].maxScore < Threshold(manager.k, manager.seen)
        invariant !more ==> inner.pos == |inner.docs| || inner.pos == old(inner.pos) + 1
        invariant skipped == old(skipped) + Passed(old(inner.pos), inner.pos, |inner.docs|)
        decreases |inner.docs| - inner.pos
      {
        var t := manager.GetThreshold();
        if inner.MaxScore() >= t {
          return true;
        }
        skipped := skipped + 1;
        more := inner.Next();
      }
      found := false;
    }

    method Score() returns (s: real)
      requires Valid()
      modifies manager, manager.heap
      ensures Valid() && s == inner.Score()
      ensures manager.seen == old(manager.seen) + [s]
    {
      s := inner.Score();
      var _ := manager.AddScore(s);
    }

    /** Seeks, then moves on past documents that cannot compete. Nothing that could is passed over;
        the skip count grows by what was passed after the seek. */
    method Seek(target: nat) returns (id: nat)
      requires Valid()
      requires forall i :: 0 <= i < |inner.docs| ==> inner.docs[i].id > 0
      modifies this, inner
      ensures Valid() && inner.pos > old(inner.pos) && id == inner.Value()
      ensures forall i :: old(inner.pos) < i < inner.pos && i < |inner.docs| ==>
                            inner.docs[i].id < target || inner.docs[i].maxScore < Threshold(manager.k, manager.seen)
      ensures id != 0 ==> inner.AtDoc() && inner.docs[inner.pos].maxScore >= Threshold(manager.k, manager.seen)
      ensures exists at :: FirstReaching(inner.docs, old(inner.pos), target, at) && at <= inner.pos &&
                           skipped == old(skipped) + if at == inner.pos then 0 else Passed(at, inner.pos, |inner.docs|)
    {
      id := inner.Seek(target);
      ghost var at := inner.pos;
      assert FirstReaching(inner.docs, old(inner.pos), target, at);
      var t := manager.GetThreshold();
      if id != 0 && inner.MaxScore() < t {
        var found := Next();
        if !found {
          return 0;
        }
        return inner.Value();
      }
    }
  }

  lemma {:induction false} ReturnedSkips(docs: seq<Doc>, k: nat, i: nat, j: nat)
    requires k > 0 && i <= j <= |docs|
    requires forall m :: i <= m < j ==> docs[m].maxScore < Threshold(k, Scores(Returned(docs[..i], k)))
    ensures Returned(docs[..j], k) == Returned(docs[..i], k)
  {
    if i < j {
      ReturnedSkips(docs, k, i, j - 1);
      assert docs[..j][..j - 1] == docs[..j - 1];
    }
  }

  lemma ReturnedSnoc(docs: seq<Doc>, k: nat, i: nat, r: seq<Doc>)
    requires k > 0 && i < |docs| && r == Returned(docs[..i], k)
    requires docs[i].maxScore >= Threshold(k, Scores(r))
    ensures Returned(docs[..i + 1], k) == r + [docs[i]]
  {
    assert docs[..i + 1][..i] == docs[..i];
  }

  lemma ScoresSnoc(r: seq<Doc>, d: Doc)
    ensures Scores(r + [d]) == Scores(r) + [d.score]
  {
  }

  /** From one returned document to the next stop. */
  lemma ReturnedExtends(docs: seq<Doc>, k: nat, i: nat, j: nat, r: seq<Doc>, next: seq<Doc>)
    requires k > 0 && i < j <= |docs| && r == Returned(docs[..i], k) && next == r + [docs[i]]
    requires docs[i].maxScore >= Threshold(k, Scores(r))
    requires forall m :: i < m < j ==> docs[m].maxScore < Threshold(k, Scores(next))
    ensures Returned(docs[..j], k) == next
  {
    ReturnedSnoc(docs, k, i, r);
    ReturnedSkips(docs, k, i + 1, j);
  }

  /** The caller's protocol: every returned document is scored exactly once. The documents handed
      out are those of `Returned`, and the skip count is the number withheld. */
  method Search(wand: WandIterator) returns (result: seq<Doc>)
    requires wand.Valid() && wand.inner.pos == -1 && wand.manager.seen == [] && wand.skipped == 0
    modifies wand, wand.inner, wand.manager, wand.manager.heap
    ensures result == Returned(wand.inner.docs, wand.manager.k)
    ensures wand.skipped == |wand.inner.docs| - |result|
  {
    var inner := wand.inner;
    ghost var docs, k := inner.docs, wand.manager.k;
    result := [];
    var more := wand.Next();
    ReturnedSkips(docs, k, 0, inner.pos);
    while more
      invariant wand.Valid()
      invariant 0 <= inner.pos <= |docs| && more == inner.AtDoc()
      invariant result == Returned(docs[..inner.pos], k)
      invariant wand.manager.seen == Scores(result)
      invariant more ==> docs[inner.pos].maxScore >= Threshold(k, Scores(result))
      invariant wand.skipped == inner.pos - |result|
      decreases |docs| - inner.pos
    {
      ghost var i, r := inner.pos, result;
      var s := wand.Score();
      result := result + [inner.docs[inner.pos]];
      ScoresSnoc(r, docs[i]);
      more := wand.Next();
      ReturnedExtends(docs, k, i, inner.pos, r, result);
    }
    assert docs[..inner.pos] == docs;
  }
}
