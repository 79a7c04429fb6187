/** The plan rewrite that switches the WAND scan on, and why it changes no query result.
    Models `optimizeTopKPatterns`, `createWandContext` and `wrapIterator` of
    Enterprise/IResearch/IResearchOptimizeTopK.cpp. */
module TopKPlan {
  import opened ScoreHeap
  import opened WandSearch
  import Text

  datatype SortElement = SortElement(attributePath: string, ascending: bool)

  datatype NodeKind = ViewNode | SortNode | LimitNode | OtherNode

  function ToLower(s: string): string {
    seq(|s|, i requires 0 <= i < |s| => if 'A' <= s[i] <= 'Z' then s[i] - 'A' + 'a' else s[i])
  }

  predicate Contains(s: string, word: string) {
    exists i :: 0 <= i <= |s| && Text.WordAt(s, word, i)
  }

  predicate IsBM25SortElement(e: SortElement) {
    Contains(ToLower(e.attributePath), "bm25")
  }

  predicate SpellsBM25(path: string, i: nat)
    requires i + 4 <= |path|
  {
    && (path[i] == 'b' || path[i] == 'B') && (path[i + 1] == 'm' || path[i + 1] == 'M')
    && path[i + 2] == '2' && path[i + 3] == '5'
  }

  /** A path that holds the letters b and m, in either case, and 25 behind them. */
  predicate HasBM25(path: string) {
    exists i :: 0 <= i < |path| - 3 && SpellsBM25(path, i)
  }

  lemma SpellingIs(path: string)
    ensures HasBM25(path) <==>
            exists i :: 0 <= i < |path| - 3 && path[i] in "bB" && path[i + 1] in "mM"
                        && path[i + 2] == '2' && path[i + 3] == '5'
  {
    if i :| 0 <= i < |path| - 3 && SpellsBM25(path, i) {
      assert path[i] in "bB" && path[i + 1] in "mM";
    }
    if i :| 0 <= i < |path| - 3 && path[i] in "bB" && path[i + 1] in "mM" && path[i + 2] == '2' && path[i + 3] == '5' {
      assert SpellsBM25(path, i);
    }
  }

  lemma SpelledAt(path: string, i: nat)
    requires i + 4 <= |path|
    ensures Text.WordAt(ToLower(path), "bm25", i) <==> SpellsBM25(path, i)
  {
    var low := ToLower(path);
    assert |low| == |path|;
    assert Text.WordAt(low, "bm25", i) <==>
           low[i] == 'b' && low[i + 1] == 'm' && low[i + 2] == '2' && low[i + 3] == '5' by {
      assert low[i..i + 4] == [low[i], low[i + 1], low[i + 2], low[i + 3]];
    }
  }

  /** The search in the lower-cased path finds BM25 in any case, and nothing else. */
  lemma IsBM25Exactly(e: SortElement)
    ensures IsBM25SortElement(e) <==> HasBM25(e.attributePath)
  {
    var path := e.attributePath;
    forall i | 0 <= i < |path| - 3 ensures Text.WordAt(ToLower(path), "bm25", i) <==> SpellsBM25(path, i) {
      SpelledAt(path, i);
    }
  }

  /** Sorting first by a BM25 score, highest first. */
  predicate DescendingBM25(elements: seq<SortElement>) {
    elements != [] && HasBM25(elements[0].attributePath) && !elements[0].ascending
  }

  predicate ValidSortForWand(elements: seq<SortElement>) {
    elements != [] && IsBM25SortElement(elements[0]) && !elements[0].ascending
  }

  lemma ValidSortExactly(elements: seq<SortElement>)
    ensures ValidSortForWand(elements) <==> DescendingBM25(elements)
  {
    if elements != [] { IsBM25Exactly(elements[0]); }
  }

  predicate ValidLimitForWand(limit: nat, offset: nat) {
    offset == 0 && limit != 0
  }

  // ---------- what a plan computes ----------

  /** One node of a plan, as the executor sees it. A plan is listed from its root down. */
  datatype Op =
    | View(docs: seq<Doc>, enabled: bool, heapSize: nat)
    | Sort(elements: seq<SortElement>)
    | Limit(limit: nat, offset: nat)
    | Other(apply: seq<Doc> -> seq<Doc>)

  type Ranking = seq<SortElement> -> Order

  /** Sorting first by BM25 descending puts higher scores first; later elements break ties. */
  ghost predicate RanksBM25(rank: Ranking) {
    forall elements :: DescendingBM25(elements) ==> RanksByScore(rank(elements))
  }

  /** The iterator a view hands out: wrapped only when the annotation asks for it. */
  ghost function ViewOutput(docs: seq<Doc>, enabled: bool, heapSize: nat): seq<Doc> {
    if !enabled || heapSize == 0 then docs else Returned(docs, heapSize)
  }

  /** `createWandContext`, `wrapIterator` and the scan together, as a view node runs them. */
  method ExecuteView(docs: seq<Doc>, enabled: bool, heapSize: nat) returns (result: seq<Doc>)
    ensures result == ViewOutput(docs, enabled, heapSize)
  {
    if !enabled || heapSize == 0 {
      return docs;
    }
    var manager := new ScoreThresholdManager(heapSize);
    var inner := new PostingIterator(docs);
    var wand := new WandIterator(inner, manager);
    result := Search(wand);
  }

  ghost function Eval(rank: Ranking, ops: seq<Op>): seq<Doc> {
    if ops == [] then [] else
      match ops[0]
      case View(docs, enabled, heapSize) => ViewOutput(docs, enabled, heapSize)
      case Sort(elements) => SortBy(rank(elements), Eval(rank, ops[1..]))
      case Limit(limit, offset) =>
        var input := Eval(rank, ops[1..]);
        Take(limit, input[Min(offset, |input|)..])
      case Other(apply) => apply(Eval(rank, ops[1..]))
  }

  function Window(k: nat, offset: nat, s: seq<Doc>): (r: seq<Doc>)
    ensures |r| == Min(k, |s| - Min(offset, |s|))
  {
    Take(k, s[Min(offset, |s|)..])
  }

  /** The heap is off, or holds all that a limit with its offset asks for. */
  predicate WideEnough(h: nat, offset: nat, k: nat) {
    h == 0 || k == 0 || h >= offset + k
  }

  /** A limit, with any offset, over a BM25 sort over a view, with the view at position i. */
  ghost predicate ReadsTop(ops: seq<Op>, i: nat) {
    && 2 <= i < |ops|
    && ops[i].View? && ops[i - 1].Sort? && ops[i - 2].Limit?
    && DescendingBM25(ops[i - 1].elements)
  }

  /** Position i is as before, or is such a view annotated widely enough for the limit above it. */
  ghost predicate Annotates(before: seq<Op>, after: seq<Op>, i: nat)
    requires i < |before| == |after|
  {
    || after[i] == before[i]
    || (ReadsTop(before, i) && !before[i].enabled && after[i].View? && after[i].docs == before[i].docs &&
        WideEnough(after[i].heapSize, before[i - 2].offset, before[i - 2].limit))
  }

  lemma WindowOfTake(k: nat, offset: nat, h: nat, s: seq<Doc>)
    requires offset + k <= h
    ensures Window(k, offset, Take(h, s)) == Window(k, offset, s)
  {
    var a, b := Window(k, offset, Take(h, s)), Window(k, offset, s);
    assert |a| == |b|;
    forall i | 0 <= i < |b| ensures a[i] == b[i] {
      assert b[i] == s[offset + i];
      assert a[i] == Take(h, s)[offset + i];
    }
  }

  /** A wide enough heap keeps the first h, and so the window the limit asks for. */
  lemma WindowIsKept(order: Order, docs: seq<Doc>, k: nat, offset: nat, h: nat)
    requires RanksByScore(order) && Admissible(docs) && WideEnough(h, offset, k)
    ensures Window(k, offset, SortBy(order, ViewOutput(docs, true, h))) == Window(k, offset, SortBy(order, docs))
  {
    if k == 0 {
      assert Window(k, offset, SortBy(order, docs)) == [];
      assert Window(k, offset, SortBy(order, ViewOutput(docs, true, h))) == [];
    } else if h > 0 {
      var all, found := SortBy(order, docs), SortBy(order, Returned(docs, h));
      ReturnedKeepsTop(order, docs, h);
      WindowOfTake(k, offset, h, all);
      WindowOfTake(k, offset, h, found);
      assert Window(k, offset, found) == Window(k, offset, all);
    }
  }

  lemma EvalTop(rank: Ranking, ops: seq<Op>)
    requires |ops| > 2 && ops[0].Limit? && ops[1].Sort? && ops[2].View?
    ensures Eval(rank, ops) ==
            Window(ops[0].limit, ops[0].offset,
                   SortBy(rank(ops[1].elements), ViewOutput(ops[2].docs, ops[2].enabled, ops[2].heapSize)))
  {
    assert ops[1..][0] == ops[1] && ops[1..][1..] == ops[2..];
    assert Eval(rank, ops[2..]) == ViewOutput(ops[2].docs, ops[2].enabled, ops[2].heapSize);
    assert Eval(rank, ops[1..]) == SortBy(rank(ops[1].elements), Eval(rank, ops[2..]));
  }

  lemma ReaderKeepsResult(rank: Ranking, before: seq<Op>, after: seq<Op>)
    requires RanksBM25(rank) && |before| == |after| && ReadsTop(before, 2)
    requires forall i :: 0 <= i < |before| ==> Annotates(before, after, i)
    requires after[2] != before[2] && Admissible(before[2].docs)
    ensures Eval(rank, after) == Eval(rank, before)
  {
    assert Annotates(before, after, 0) && Annotates(before, after, 1) && Annotates(before, after, 2);
    WindowIsKept(rank(before[1].elements), before[2].docs, before[0].limit, before[0].offset, after[2].heapSize);
    EvalTop(rank, before);
    EvalTop(rank, after);
  }

  /** Annotating any such views of a plan leaves the result of the plan as it was. */
  lemma {:induction false} AnnotatingKeepsResult(rank: Ranking, before: seq<Op>, after: seq<Op>)
    requires RanksBM25(rank) && |before| == |after|
    requires forall i :: 0 <= i < |before| ==> Annotates(before, after, i)
    requires forall i :: 0 <= i < |before| && before[i].View? ==> Admissible(before[i].docs)
    ensures Eval(rank, after) == Eval(rank, before)
  {
    if before == [] {
    } else if ReadsTop(before, 2) && after[2] != before[2] {
      ReaderKeepsResult(rank, before, after);
    } else {
      assert Annotates(before, after, 0);
      assert after[0] == before[0];
      forall i | 0 <= i < |before[1..]| ensures Annotates(before[1..], after[1..], i) {
        assert Annotates(before, after, i + 1);
      }
      AnnotatingKeepsResult(rank, before[1..], after[1..]);
    }
  }

  // ---------- how wide a heap has to be, for every reader of an annotated view ----------

  lemma FewAreReturned(docs: seq<Doc>, h: nat, i: nat, r: seq<Doc>)
    requires i < h && i < |docs| && Admissible(docs) && r == Returned(docs[..i], h) && |r| < h
    ensures Returned(docs[..i + 1], h) == r + [docs[i]]
  {
    ThresholdOfFew(h, Scores(r));
    ReturnedSnoc(docs, h, i, r);
  }

  lemma {:induction false} ReturnedPrefix(docs: seq<Doc>, h: nat, i: nat)
    requires 0 < h && i <= |docs| && i <= h && Admissible(docs)
    ensures Returned(docs[..i], h) == docs[..i]
  {
    if i > 0 {
      var r := docs[..i - 1];
      ReturnedPrefix(docs, h, i - 1);
      FewAreReturned(docs, h, i - 1, r);
      assert docs[..i] == r + [docs[i - 1]];
    }
  }

  /** A heap that is not full lets everything through. */
  lemma ReturnedWhileFew(docs: seq<Doc>, h: nat)
    requires 0 < h && |docs| <= h && Admissible(docs)
    ensures Returned(docs, h) == docs
  {
    ReturnedPrefix(docs, h, |docs|);
    assert docs[..|docs|] == docs;
  }

  /** h good documents and then worse ones, which a heap of size h no longer lets through. */
  function TooMany(h: nat, worse: nat): (docs: seq<Doc>)
    ensures |docs| == h + worse && Admissible(docs)
  {
    seq(h, i requires 0 <= i < h => Doc(i + 1, 2.0, 2.0)) +
    seq(worse, i requires 0 <= i < worse => Doc(h + i + 1, 1.0, 1.0))
  }

  lemma OnlyGoodReturned(h: nat, worse: nat)
    requires h > 0
    ensures Returned(TooMany(h, worse), h) == TooMany(h, worse)[..h]
  {
    var docs := TooMany(h, worse);
    var good := docs[..h];
    ReturnedWhileFew(good, h);
    ThresholdWasSeen(h, Scores(good));
    assert Threshold(h, Scores(good)) == 2.0;
    ReturnedSkips(docs, h, h, |docs|);
    assert docs[..|docs|] == docs;
  }

  /** What comes before the scan: a sort, or nothing. */
  datatype Reading = Sorted(elements: seq<SortElement>) | Unsorted

  function Arranged(rank: Ranking, r: Reading, docs: seq<Doc>): (s: seq<Doc>)
    ensures |s| == |docs|
  {
    match r
    case Sorted(elements) => SortBy(rank(elements), docs)
    case Unsorted => docs
  }

  /** A reader of one view, the view annotated or not. */
  function Reader(r: Reading, docs: seq<Doc>, enabled: bool, h: nat): seq<Op> {
    match r
    case Sorted(elements) => [Sort(elements), View(docs, enabled, h)]
    case Unsorted => [View(docs, enabled, h)]
  }

  function LimitedReader(k: nat, offset: nat, r: Reading, docs: seq<Doc>, enabled: bool, h: nat): seq<Op> {
    [Limit(k, offset)] + Reader(r, docs, enabled, h)
  }

  lemma EvalReader(rank: Ranking, r: Reading, docs: seq<Doc>, enabled: bool, h: nat)
    ensures Eval(rank, Reader(r, docs, enabled, h)) == Arranged(rank, r, ViewOutput(docs, enabled, h))
  {
    if r.Sorted? {
      assert Reader(r, docs, enabled, h)[1..] == [View(docs, enabled, h)];
    }
  }

  lemma EvalLimited(rank: Ranking, k: nat, offset: nat, r: Reading, docs: seq<Doc>, enabled: bool, h: nat)
    ensures Eval(rank, LimitedReader(k, offset, r, docs, enabled, h)) ==
            Window(k, offset, Arranged(rank, r, ViewOutput(docs, enabled, h)))
  {
    EvalReader(rank, r, docs, enabled, h);
    assert LimitedReader(k, offset, r, docs, enabled, h)[1..] == Reader(r, docs, enabled, h);
  }

  /** A scan returns the first h documents whatever they are. */
  lemma {:induction false} ReturnsFirst(docs: seq<Doc>, h: nat)
    requires h > 0 && Admissible(docs)
    ensures Take(h, Returned(docs, h)) == Take(h, docs)
  {
    if |docs| <= h {
      ReturnedWhileFew(docs, h);
    } else {
      var n := |docs| - 1;
      ReturnsFirst(docs[..n], h);
      assert Take(h, docs[..n]) == Take(h, docs);
      var r := Returned(docs[..n], h);
      assert |Take(h, r)| == h;
      assert Take(h, r + [docs[n]]) == Take(h, r);
    }
  }

  /** The readings the plan rewrite is about: by BM25, or in the order of the scan. */
  predicate Rewritable(r: Reading) {
    r.Sorted? ==> DescendingBM25(r.elements)
  }

  lemma WideHeapKeeps(rank: Ranking, r: Reading, docs: seq<Doc>, k: nat, offset: nat, h: nat)
    requires RanksBM25(rank) && Rewritable(r) && Admissible(docs) && WideEnough(h, offset, k)
    ensures Eval(rank, LimitedReader(k, offset, r, docs, true, h)) ==
            Eval(rank, LimitedReader(k, offset, r, docs, false, 0))
  {
    EvalLimited(rank, k, offset, r, docs, true, h);
    EvalLimited(rank, k, offset, r, docs, false, 0);
    if r.Sorted? {
      WindowIsKept(rank(r.elements), docs, k, offset, h);
    } else if h > 0 && k > 0 {
      ReturnsFirst(docs, h);
      WindowOfTake(k, offset, h, docs);
      WindowOfTake(k, offset, h, Returned(docs, h));
    }
  }

  lemma NarrowHeapLoses(rank: Ranking, r: Reading, k: nat, offset: nat, h: nat)
    requires !WideEnough(h, offset, k)
    ensures var docs := TooMany(h, offset + k - h);
            Eval(rank, LimitedReader(k, offset, r, docs, true, h)) !=
            Eval(rank, LimitedReader(k, offset, r, docs, false, 0))
  {
    var docs := TooMany(h, offset + k - h);
    var found := Returned(docs, h);
    OnlyGoodReturned(h, offset + k - h);
    EvalLimited(rank, k, offset, r, docs, true, h);
    EvalLimited(rank, k, offset, r, docs, false, 0);
    assert |Window(k, offset, Arranged(rank, r, docs))| == k;
    assert |Window(k, offset, Arranged(rank, r, found))| < k;
  }

  /** An annotated view gives a limit, with any offset, over a BM25 sort or none, its exact result on
      all documents if and only if the heap is off or holds offset and limit together. The rewrite
      sizes the heap for one limit with no offset, so that another reader of the view that asks for
      more loses documents. */
  lemma HeapSizeIff(rank: Ranking, r: Reading, k: nat, offset: nat, h: nat)
    requires RanksBM25(rank) && Rewritable(r)
    ensures (forall docs :: Admissible(docs) ==>
               Eval(rank, LimitedReader(k, offset, r, docs, true, h)) ==
               Eval(rank, LimitedReader(k, offset, r, docs, false, 0)))
            <==> WideEnough(h, offset, k)
  {
    if WideEnough(h, offset, k) {
      forall docs | Admissible(docs)
        ensures Eval(rank, LimitedReader(k, offset, r, docs, true, h)) ==
                Eval(rank, LimitedReader(k, offset, r, docs, false, 0))
      {
        WideHeapKeeps(rank, r, docs, k, offset, h);
      }
    } else {
      NarrowHeapLoses(rank, r, k, offset, h);
      assert Admissible(TooMany(h, offset + k - h));
    }
  }

  /** A reader with no limit, sorted by anything or not, is exact if and only if the heap is off. */
  lemma UnlimitedReaderIff(rank: Ranking, r: Reading, h: nat)
    ensures (forall docs :: Admissible(docs) ==>
               Eval(rank, Reader(r, docs, true, h)) == Eval(rank, Reader(r, docs, false, 0)))
            <==> h == 0
  {
    forall docs ensures Eval(rank, Reader(r, docs, true, h)) == Arranged(rank, r, ViewOutput(docs, true, h))
                     && Eval(rank, Reader(r, docs, false, 0)) == Arranged(rank, r, docs)
    {
      EvalReader(rank, r, docs, true, h);
      EvalReader(rank, r, docs, false, 0);
    }
    if h > 0 {
      OnlyGoodReturned(h, 1);
      assert Admissible(TooMany(h, 1));
      assert |Eval(rank, Reader(r, TooMany(h, 1), true, h))| == h;
    }
  }

  // ---------- the rewrite, in place on plan nodes ----------

  /** An execution node. Only the two annotations of a view ever change. */
  class PlanNode {
    const kind: NodeKind
    const firstDep: PlanNode?
    const elements: seq<SortElement>
    const limit: nat
    const offset: nat
    const docs: seq<Doc>
    const apply: seq<Doc> -> seq<Doc>
    var wandEnabled: bool
    var wandHeapSize: nat

    constructor (kind: NodeKind, firstDep: PlanNode?, elements: seq<SortElement>, limit: nat, offset: nat,
                 docs: seq<Doc>, apply: seq<Doc> -> seq<Doc>)
      ensures this.kind == kind && this.firstDep == firstDep && this.elements == elements
      ensures this.limit == limit && this.offset == offset && this.docs == docs && this.apply == apply
      ensures !wandEnabled && wandHeapSize == 0
    {
      this.kind := kind;
      this.firstDep := firstDep;
      this.elements := elements;
      this.limit := limit;
      this.offset := offset;
      this.docs := docs;
      this.apply := apply;
      wandEnabled := false;
      wandHeapSize := 0;
    }
  }

  /** A limit with no offset, over a sort by BM25 with the highest first, over a view. */
  predicate MatchesPattern(n: PlanNode) {
    && n.kind == LimitNode && n.offset == 0 && n.limit > 0
    && n.firstDep != null && n.firstDep.kind == SortNode && DescendingBM25(n.firstDep.elements)
    && n.firstDep.firstDep != null && n.firstDep.firstDep.kind == ViewNode
  }

  /** The pattern, in the fields of the three nodes. */
  lemma PatternIs(n: PlanNode)
    ensures MatchesPattern(n) <==>
            (&& n.kind == LimitNode && n.offset == 0 && n.limit > 0
             && n.firstDep != null && n.firstDep.kind == SortNode
             && n.firstDep.elements != [] && !n.firstDep.elements[0].ascending
             && (var path := n.firstDep.elements[0].attributePath;
                 exists i :: 0 <= i < |path| - 3 && path[i] in "bB" && path[i + 1] in "mM"
                             && path[i + 2] == '2' && path[i + 3] == '5')
             && n.firstDep.firstDep != null && n.firstDep.firstDep.kind == ViewNode)
  {
    if n.firstDep != null && n.firstDep.elements != [] { SpellingIs(n.firstDep.elements[0].attributePath); }
  }

  /** The checks the rewrite makes, one after the other. */
  predicate PassesChecks(node: PlanNode) {
    if node.kind != LimitNode then false
    else if !ValidLimitForWand(node.limit, node.offset) then false
    else if node.firstDep == null || node.firstDep.kind != SortNode then false
    else if !ValidSortForWand(node.firstDep.elements) then false
    else node.firstDep.firstDep != null && node.firstDep.firstDep.kind == ViewNode
  }

  /** They find the pattern and nothing else. */
  lemma ChecksFindPattern(node: PlanNode)
    ensures PassesChecks(node) <==> MatchesPattern(node)
  {
    if node.firstDep != null { ValidSortExactly(node.firstDep.elements); }
  }

  function Target(n: PlanNode): PlanNode
    requires MatchesPattern(n)
  {
    n.firstDep.firstDep
  }

  ghost function Targets(nodes: seq<PlanNode>): set<PlanNode> {
    set n | n in nodes && MatchesPattern(n) :: Target(n)
  }

  ghost function MatchCount(nodes: seq<PlanNode>): nat {
    if nodes == [] then 0 else
      MatchCount(nodes[..|nodes| - 1]) + if MatchesPattern(nodes[|nodes| - 1]) then 1 else 0
  }

  /** The limit that annotates v: the one of the last matching limit node above v in the list. */
  ghost function LastLimit(nodes: seq<PlanNode>, v: PlanNode): nat
    requires v in Targets(nodes)
  {
    var n := nodes[|nodes| - 1];
    if MatchesPattern(n) && Target(n) == v then n.limit else LastLimit(nodes[..|nodes| - 1], v)
  }

  lemma TargetsSnoc(nodes: seq<PlanNode>, i: nat)
    requires i < |nodes|
    ensures Targets(nodes[..i + 1]) ==
            Targets(nodes[..i]) + if MatchesPattern(nodes[i]) then {Target(nodes[i])} else {}
    ensures MatchCount(nodes[..i + 1]) == MatchCount(nodes[..i]) + if MatchesPattern(nodes[i]) then 1 else 0
    ensures Targets(nodes[..i + 1]) <= Targets(nodes)
  {
    assert nodes[..i + 1] == nodes[..i] + [nodes[i]];
    forall v | v in Targets(nodes[..i + 1]) ensures v in Targets(nodes) {
      var n :| n in nodes[..i + 1] && MatchesPattern(n) && Target(n) == v;
      assert n in nodes;
    }
  }

  lemma MatchesSnoc(nodes: seq<PlanNode>, m: nat)
    requires |nodes| == m + 1
    ensures var before := set i: nat | i < |nodes[..m]| && MatchesPattern(nodes[..m][i]);
            |set i: nat | i < |nodes| && MatchesPattern(nodes[i])| ==
            |before| + if MatchesPattern(nodes[m]) then 1 else 0
  {
    var here := set i: nat | i < |nodes| && MatchesPattern(nodes[i]);
    var before := set i: nat | i < |nodes[..m]| && MatchesPattern(nodes[..m][i]);
    forall i: nat ensures i in here <==> i in before || (i == m && MatchesPattern(nodes[m])) {
      if i < m { assert nodes[..m][i] == nodes[i]; }
    }
    assert here == before + if MatchesPattern(nodes[m]) then {m} else {};
  }

  /** The count is the number of nodes that match. */
  lemma {:induction false} MatchCountIs(nodes: seq<PlanNode>)
    ensures MatchCount(nodes) == |set i: nat | i < |nodes| && MatchesPattern(nodes[i])|
  {
    if nodes != [] {
      var m := |nodes| - 1;
      MatchCountIs(nodes[..m]);
      MatchesSnoc(nodes, m);
    }
  }

  /** The size is the limit of the last matching node that reads the view. */
  lemma {:induction false} LastLimitIs(nodes: seq<PlanNode>, v: PlanNode) returns (i: nat)
    requires v in Targets(nodes)
    ensures i < |nodes| && MatchesPattern(nodes[i]) && Target(nodes[i]) == v && nodes[i].limit == LastLimit(nodes, v)
    ensures forall j :: i < j < |nodes| && MatchesPattern(nodes[j]) ==> Target(nodes[j]) != v
  {
    i := |nodes| - 1;
    if !(MatchesPattern(nodes[i]) && Target(nodes[i]) == v) {
      i := LastLimitIs(nodes[..i], v);
    }
  }

  /** Enables the view of every matching limit, sized by the last limit that reads it, and no other;
      `modifies` lists the views it may touch. */
  method OptimizeTopKPatterns(nodes: seq<PlanNode>) returns (optimized: nat)
    modifies Targets(nodes)
    ensures optimized == MatchCount(nodes)
    ensures forall n :: n in nodes && MatchesPattern(n) ==> n.firstDep.firstDep.wandEnabled
    ensures forall v :: v in Targets(nodes) ==> v.wandEnabled && v.wandHeapSize == LastLimit(nodes, v)
  {
    optimized := 0;
    for i := 0 to |nodes|
      invariant optimized == MatchCount(nodes[..i])
      invariant forall v :: v in Targets(nodes[..i]) ==> v.wandEnabled && v.wandHeapSize == LastLimit(nodes[..i], v)
    {
      TargetsSnoc(nodes, i);
      assert nodes[..i + 1][..i] == nodes[..i];
      var node := nodes[i];
      ChecksFindPattern(node);
      if PassesChecks(node) {
        var viewNode := Target(node);
        viewNode.wandEnabled := true;
        viewNode.wandHeapSize := node.limit;
        optimized := optimized + 1;
      }
    }
    assert nodes[..|nodes|] == nodes;
  }

  // ---------- the in-place rewrite is an annotation of the plan ----------

  ghost function OpOf(n: PlanNode): Op
    reads n
  {
    match n.kind
    case ViewNode => View(n.docs, n.wandEnabled, n.wandHeapSize)
    case SortNode => Sort(n.elements)
    case LimitNode => Limit(n.limit, n.offset)
    case OtherNode => Other(n.apply)
  }

  ghost function OpsOf(plan: seq<PlanNode>): (ops: seq<Op>)
    reads plan
    ensures |ops| == |plan|
    ensures forall i :: 0 <= i < |plan| ==> ops[i] == OpOf(plan[i])
  {
    seq(|plan|, i requires 0 <= i < |plan| reads plan => OpOf(plan[i]))
  }

  /** A plan from its root down: each node consumes the next, the last consumes nothing. */
  ghost predicate IsPlan(plan: seq<PlanNode>) {
    && plan != [] && plan[|plan| - 1].firstDep == null
    && (forall i :: 0 <= i < |plan| - 1 ==> plan[i].firstDep == plan[i + 1])
    && (forall i, j :: 0 <= i < j < |plan| ==> plan[i] != plan[j])
  }

  ghost predicate FitsAt(nodes: seq<PlanNode>, plan: seq<PlanNode>, i: nat)
    requires i < |plan| && plan[i] in Targets(nodes)
  {
    && i >= 2 && plan[i - 2].kind == LimitNode && plan[i - 1].kind == SortNode
    && DescendingBM25(plan[i - 1].elements)
    && WideEnough(LastLimit(nodes, plan[i]), plan[i - 2].offset, plan[i - 2].limit)
  }

  /** Every view of the plan that the rewrite annotates is read through a BM25 sort by a limit of the
      plan, and the size it ends up with - that of the last limit node listed - is wide enough. */
  ghost predicate Fits(nodes: seq<PlanNode>, plan: seq<PlanNode>) {
    forall i :: 0 <= i < |plan| && plan[i] in Targets(nodes) ==> FitsAt(nodes, plan, i)
  }

  /** No limit node outside the plan reads a view of the plan. */
  ghost predicate Unshared(nodes: seq<PlanNode>, plan: seq<PlanNode>) {
    forall n :: n in nodes && MatchesPattern(n) && Target(n) in plan ==> n in plan
  }

  lemma TargetInPlan(plan: seq<PlanNode>, n: PlanNode, i: nat)
    requires IsPlan(plan) && i < |plan| && n in plan && MatchesPattern(n) && Target(n) == plan[i]
    ensures i >= 2 && n == plan[i - 2] && plan[i - 1] == n.firstDep
  {
    var j :| 0 <= j < |plan| && plan[j] == n;
    assert plan[j].firstDep == plan[j + 1];
    assert plan[j + 1].firstDep == plan[j + 2];
    assert plan[j + 2] == plan[i];
  }

  lemma {:induction false} LastLimitInPlan(nodes: seq<PlanNode>, plan: seq<PlanNode>, i: nat)
    requires IsPlan(plan) && Unshared(nodes, plan) && i < |plan| && plan[i] in Targets(nodes)
    ensures i >= 2 && MatchesPattern(plan[i - 2]) && plan[i - 2].firstDep == plan[i - 1]
    ensures LastLimit(nodes, plan[i]) == plan[i - 2].limit
  {
    var m := |nodes| - 1;
    var n := nodes[m];
    if MatchesPattern(n) && Target(n) == plan[i] {
      TargetInPlan(plan, n, i);
    } else {
      var w :| w in nodes && MatchesPattern(w) && Target(w) == plan[i];
      assert nodes == nodes[..m] + [n];
      assert w in nodes[..m];
      LastLimitInPlan(nodes[..m], plan, i);
    }
  }

  lemma UnsharedFits(nodes: seq<PlanNode>, plan: seq<PlanNode>)
    requires IsPlan(plan) && Unshared(nodes, plan)
    ensures Fits(nodes, plan)
  {
    forall i | 0 <= i < |plan| && plan[i] in Targets(nodes) ensures FitsAt(nodes, plan, i) {
      LastLimitInPlan(nodes, plan, i);
    }
  }

  /** Once the rewrite has run over a node list, every freshly built plan that fits has the
      result it had before. */
  lemma RewriteKeepsResult(rank: Ranking, nodes: seq<PlanNode>, plan: seq<PlanNode>, before: seq<Op>)
    requires RanksBM25(rank) && IsPlan(plan) && Fits(nodes, plan)
    requires |before| == |plan|
    requires forall i :: 0 <= i < |plan| && plan[i] !in Targets(nodes) ==> OpOf(plan[i]) == before[i]
    requires forall i :: 0 <= i < |plan| && plan[i] in Targets(nodes) ==>
                           before[i] == View(plan[i].docs, false, 0) &&
                           OpOf(plan[i]) == View(plan[i].docs, true, LastLimit(nodes, plan[i]))
    requires forall i :: 0 <= i < |plan| ==> Admissible(plan[i].docs)
    ensures Eval(rank, OpsOf(plan)) == Eval(rank, before)
  {
    var after := OpsOf(plan);
    forall i | 0 <= i < |plan| ensures Annotates(before, after, i) {
      if plan[i] in Targets(nodes) {
        assert FitsAt(nodes, plan, i);
        assert before[i - 2] == Limit(plan[i - 2].limit, plan[i - 2].offset);
        assert before[i - 1] == Sort(plan[i - 1].elements);
      }
    }
    forall i | 0 <= i < |plan| && before[i].View? ensures Admissible(before[i].docs) {
      assert Annotates(before, after, i);
    }
    AnnotatingKeepsResult(rank, before, after);
  }

  /** The rewrite run over a node list in place, with its guarantee for one plan. */
  method OptimizePlan(nodes: seq<PlanNode>, plan: seq<PlanNode>, ghost rank: Ranking) returns (optimized: nat)
    requires RanksBM25(rank) && IsPlan(plan) && Fits(nodes, plan)
    requires forall i :: 0 <= i < |plan| ==> Admissible(plan[i].docs)
    requires forall i :: 0 <= i < |plan| ==> !plan[i].wandEnabled && plan[i].wandHeapSize == 0
    modifies Targets(nodes)
    ensures optimized == MatchCount(nodes)
    ensures Eval(rank, OpsOf(plan)) == old(Eval(rank, OpsOf(plan)))
  {
    ghost var before := OpsOf(plan);
    optimized := OptimizeTopKPatterns(nodes);
    RewriteKeepsResult(rank, nodes, plan, before);
  }

  // ---------- why the direction of the sort matters ----------

  /** Lower scores first, whatever the tie-break. */
  ghost predicate RanksLowestFirst(before: Order) {
    TotalOrder(before) && forall a, b :: before(a, b) ==> a.score <= b.score
  }

  lemma FirstIsLowest(before: Order, docs: seq<Doc>, i: nat)
    requires RanksLowestFirst(before) && i < |docs|
    ensures SortBy(before, docs)[0].score <= docs[i].score
  {
    SortBySorts(before, docs);
    assert docs[i] in multiset(docs);
    FirstIsFirst(before, SortBy(before, docs), docs[i]);
  }

  lemma FirstIsOneOf(before: Order, docs: seq<Doc>)
    requires RanksLowestFirst(before) && docs != []
    ensures SortBy(before, docs)[0] in docs
  {
    SortBySorts(before, docs);
    assert SortBy(before, docs)[0] in multiset(SortBy(before, docs));
  }

  /** Annotated for an ascending sort, a limit would lose its result: the lowest scores it asks for
      are what the heap withholds. */
  lemma AscendingLoses(rank: Ranking, elements: seq<SortElement>, k: nat)
    requires RanksLowestFirst(rank(elements)) && k > 0
    ensures var docs := TooMany(k, 1);
            Eval(rank, LimitedReader(k, 0, Sorted(elements), docs, true, k)) !=
            Eval(rank, LimitedReader(k, 0, Sorted(elements), docs, false, 0))
  {
    var docs, before := TooMany(k, 1), rank(elements);
    var found := Returned(docs, k);
    OnlyGoodReturned(k, 1);
    EvalLimited(rank, k, 0, Sorted(elements), docs, true, k);
    EvalLimited(rank, k, 0, Sorted(elements), docs, false, 0);
    FirstIsLowest(before, docs, k);
    FirstIsOneOf(before, found);
    assert Window(k, 0, SortBy(before, docs))[0] == SortBy(before, docs)[0];
    assert Window(k, 0, SortBy(before, found))[0] == SortBy(before, found)[0];
  }

  // ---------- two limits over one view ----------

  /** Documents that show whether a heap is wide enough for a limit. */
  function Telling(k: nat, offset: nat, h: nat): (docs: seq<Doc>)
    ensures Admissible(docs)
  {
    TooMany(h, if offset + k > h then offset + k - h else 0)
  }

  lemma TellingTells(rank: Ranking, elements: seq<SortElement>, k: nat, offset: nat, h: nat)
    requires RanksBM25(rank) && DescendingBM25(elements)
    ensures var docs, r := Telling(k, offset, h), Sorted(elements);
            Eval(rank, LimitedReader(k, offset, r, docs, true, h)) ==
            Eval(rank, LimitedReader(k, offset, r, docs, false, 0))
            <==> WideEnough(h, offset, k)
  {
    if WideEnough(h, offset, k) {
      WideHeapKeeps(rank, Sorted(elements), Telling(k, offset, h), k, offset, h);
    } else {
      NarrowHeapLoses(rank, Sorted(elements), k, offset, h);
    }
  }

  lemma TargetIs(nodes: seq<PlanNode>, view: PlanNode, last: PlanNode)
    requires nodes != [] && nodes[|nodes| - 1] == last && MatchesPattern(last) && Target(last) == view
    requires forall n :: n in nodes && MatchesPattern(n) ==> Target(n) == view
    ensures Targets(nodes) == {view} && LastLimit(nodes, view) == last.limit
  {
    assert last in nodes;
  }

  /** Two limits, the first with any offset, over one BM25 sort over one view, freshly built. */
  method TwoLimits(elements: seq<SortElement>, k: nat, offset: nat, h: nat, docs: seq<Doc>)
    returns (nodes: seq<PlanNode>, plan: seq<PlanNode>)
    requires DescendingBM25(elements) && h > 0
    ensures forall i :: 0 <= i < |nodes| ==> fresh(nodes[i])
    ensures |nodes| == 4 && IsPlan(plan) && plan == [nodes[2], nodes[1], nodes[0]]
    ensures MatchesPattern(nodes[3]) && Target(nodes[3]) == nodes[0] && nodes[3].limit == h
    ensures offset == 0 && k > 0 ==> MatchesPattern(nodes[2])
    ensures nodes[0].kind == ViewNode && nodes[1].kind == SortNode
    ensures nodes[2].firstDep == nodes[1] && nodes[1].firstDep == nodes[0]
    ensures OpsOf(plan) == LimitedReader(k, offset, Sorted(elements), docs, false, 0)
  {
    var same: seq<Doc> -> seq<Doc> := s => s;
    var view := new PlanNode(ViewNode, null, [], 0, 0, docs, same);
    var sort := new PlanNode(SortNode, view, elements, 0, 0, [], same);
    var first := new PlanNode(LimitNode, sort, [], k, offset, [], same);
    var last := new PlanNode(LimitNode, sort, [], h, 0, [], same);
    nodes, plan := [view, sort, first, last], [first, sort, view];
  }

  /** A plan reads a view through a limit with its offset, and another limit of size h reads it too
      and is listed last. The rewrite keeps the plan's result on telling documents if and only if h
      is wide enough for it - also when both limits match the pattern. */
  method SharedView(elements: seq<SortElement>, k: nat, offset: nat, h: nat, ghost rank: Ranking)
    returns (nodes: seq<PlanNode>, plan: seq<PlanNode>, ghost before: seq<Doc>)
    requires RanksBM25(rank) && DescendingBM25(elements) && h > 0
    ensures IsPlan(plan) && |plan| == 3 && plan[2] in Targets(nodes) && forall n :: n in plan ==> n in nodes
    ensures plan[0].limit == k && plan[0].offset == offset && (offset == 0 && k > 0 ==> MatchesPattern(plan[0]))
    ensures plan[2].wandEnabled && plan[2].wandHeapSize == h
    ensures before == Eval(rank, LimitedReader(k, offset, Sorted(elements), plan[2].docs, false, 0))
    ensures Eval(rank, OpsOf(plan)) == before <==> WideEnough(h, offset, k)
  {
    nodes, plan := TwoLimits(elements, k, offset, h, Telling(k, offset, h));
    before := Eval(rank, OpsOf(plan));
    ghost var ops := OpsOf(plan);
    assert ops[0] == OpOf(plan[0]) && ops[1] == OpOf(plan[1]) && ops[2] == OpOf(plan[2]);
    TargetIs(nodes, plan[2], nodes[3]);
    var _ := OptimizeTopKPatterns(nodes);
    assert OpsOf(plan) == LimitedReader(k, offset, Sorted(elements), Telling(k, offset, h), true, h);
    TellingTells(rank, elements, k, offset, h);
  }
}
