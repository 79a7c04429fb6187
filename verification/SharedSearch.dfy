/** Several iterators over the segments of an index, all wrapped by one execution context and so fed
    into one threshold manager.
    Models `WandExecutionContext::wrapIterator` with `WandIterator` of
    Enterprise/IResearch/IResearchOptimizeTopK.cpp, under any interleaving of the iterators. */
module SharedSearch {
  import opened ScoreHeap
  import opened WandSearch

  type Segments = seq<seq<Doc>>

  /** Where each iterator is, the documents handed out, those of them not scored yet and those scored
      in order, and all documents looked at. */
  datatype Scan = Scan(pos: seq<nat>, returned: seq<Doc>, waiting: seq<Doc>, scored: seq<Doc>, examined: seq<Doc>)

  /** One iterator looks at its next document, or the caller scores a document handed out. */
  datatype Step = Look(segment: nat) | ScoreOne(index: nat)

  function Start(segments: Segments): Scan {
    Scan(seq(|segments|, _ => 0), [], [], [], [])
  }

  function Without(docs: seq<Doc>, i: nat): seq<Doc>
    requires i < |docs|
  {
    docs[..i] + docs[i + 1..]
  }

  /** The document a step looks at can still compete with those scored so far. */
  ghost predicate Competes(segments: Segments, k: nat, s: Scan, step: Step)
    requires k > 0 && |s.pos| == |segments|
  {
    && step.Look? && step.segment < |segments| && s.pos[step.segment] < |segments[step.segment]|
    && segments[step.segment][s.pos[step.segment]].maxScore >= Threshold(k, Scores(s.scored))
  }

  /** A document that competes is handed out. A step nobody can take changes nothing. */
  function Move(segments: Segments, s: Scan, step: Step, competes: bool): Scan
    requires |s.pos| == |segments|
  {
    match step
    case Look(i) =>
      if i >= |segments| || s.pos[i] >= |segments[i]| then s else
        var d := segments[i][s.pos[i]];
        var on := s.(pos := s.pos[i := s.pos[i] + 1], examined := s.examined + [d]);
        if competes then on.(returned := s.returned + [d], waiting := s.waiting + [d]) else on
    case ScoreOne(j) =>
      if j >= |s.waiting| then s
      else s.(waiting := Without(s.waiting, j), scored := s.scored + [s.waiting[j]])
  }

  ghost function Run(segments: Segments, k: nat, steps: seq<Step>): (s: Scan)
    requires k > 0
    ensures |s.pos| == |segments|
  {
    if steps == [] then Start(segments) else
      var s, step := Run(segments, k, steps[..|steps| - 1]), steps[|steps| - 1];
      Move(segments, s, step, Competes(segments, k, s, step))
  }

  lemma RunSnoc(segments: Segments, k: nat, steps: seq<Step>, step: Step)
    requires k > 0
    ensures var s := Run(segments, k, steps);
            Run(segments, k, steps + [step]) == Move(segments, s, step, Competes(segments, k, s, step))
  {
    assert (steps + [step])[..|steps|] == steps;
  }

  /** A document looked at is handed out if and only if its bound reaches the threshold of those
      scored so far. */
  lemma HandedOutIff(segments: Segments, k: nat, steps: seq<Step>, i: nat)
    requires k > 0 && i < |segments| && Run(segments, k, steps).pos[i] < |segments[i]|
    ensures var s, after := Run(segments, k, steps), Run(segments, k, steps + [Look(i)]);
            var d := segments[i][s.pos[i]];
            after.pos[i] == s.pos[i] + 1 &&
            after.returned == if d.maxScore >= Threshold(k, Scores(s.scored)) then s.returned + [d] else s.returned
  {
    RunSnoc(segments, k, steps, Look(i));
  }

  lemma WithoutOne(docs: seq<Doc>, i: nat)
    requires i < |docs|
    ensures multiset(docs) == multiset(Without(docs, i)) + multiset{docs[i]}
    ensures Admissible(docs) ==> Admissible(Without(docs, i)) && Admissible([docs[i]])
  {
    assert docs == docs[..i] + [docs[i]] + docs[i + 1..];
  }

  /** Scoring a document handed out feeds it to the manager, once. */
  lemma ScoredOnce(segments: Segments, k: nat, steps: seq<Step>, j: nat)
    requires k > 0 && j < |Run(segments, k, steps).waiting|
    ensures var s, after := Run(segments, k, steps), Run(segments, k, steps + [ScoreOne(j)]);
            after.scored == s.scored + [s.waiting[j]] && after.returned == s.returned &&
            multiset(s.waiting) == multiset(after.waiting) + multiset{s.waiting[j]}
  {
    RunSnoc(segments, k, steps, ScoreOne(j));
    WithoutOne(Run(segments, k, steps).waiting, j);
  }

  // ---------- the threshold only knows some of what was handed out ----------

  lemma SameThreshold(before: Order, k: nat, a: seq<Doc>, b: seq<Doc>)
    requires RanksByScore(before) && k > 0 && multiset(a) == multiset(b)
    ensures Threshold(k, Scores(a)) == Threshold(k, Scores(b))
  {
    SortBySorts(before, a);
    SortBySorts(before, b);
    SortedIsUnique(before, SortBy(before, a), SortBy(before, b));
    ScoresOfSort(before, a);
    ScoresOfSort(before, b);
  }

  /** Documents handed out and not scored yet could only raise the threshold. */
  lemma ScoredIsBelow(before: Order, k: nat, scored: seq<Doc>, waiting: seq<Doc>, returned: seq<Doc>)
    requires RanksByScore(before) && k > 0 && Admissible(scored) && Admissible(waiting)
    requires multiset(returned) == multiset(scored) + multiset(waiting)
    ensures Threshold(k, Scores(scored)) <= Threshold(k, Scores(returned))
  {
    assert Scores(scored + waiting) == Scores(scored) + Scores(waiting);
    ThresholdNeverFalls(k, Scores(scored), Scores(waiting));
    assert multiset(scored + waiting) == multiset(returned);
    SameThreshold(before, k, returned, scored + waiting);
  }

  /** A document that cannot compete with what was handed out leaves the first k as they are. */
  lemma SkippingKeepsTop(before: Order, k: nat, examined: seq<Doc>, returned: seq<Doc>, d: Doc)
    requires RanksByScore(before) && k > 0
    requires 0.0 <= d.score <= d.maxScore < Threshold(k, Scores(returned))
    requires Take(k, SortBy(before, examined)) == Take(k, SortBy(before, returned))
    ensures Take(k, SortBy(before, examined + [d])) == Take(k, SortBy(before, returned))
  {
    SkippedIsBeaten(before, k, returned, d);
    forall i | 0 <= i < k ensures i < |examined| && SortBy(before, examined)[i].score > d.score {
      TakeOfPrefix(SortBy(before, examined), SortBy(before, returned), k, i);
    }
    assert k - 1 < |examined|;
    BeatenStaysOut(before, k, d, SortBy(before, examined));
    assert (examined + [d])[..|examined|] == examined;
  }

  lemma ReturningKeepsTop(before: Order, k: nat, examined: seq<Doc>, returned: seq<Doc>, d: Doc)
    requires Take(k, SortBy(before, examined)) == Take(k, SortBy(before, returned))
    ensures Take(k, SortBy(before, examined + [d])) == Take(k, SortBy(before, returned + [d]))
  {
    assert (examined + [d])[..|examined|] == examined && (returned + [d])[..|returned|] == returned;
    TakeInsert(before, k, d, SortBy(before, examined), SortBy(before, returned));
  }

  // ---------- what every run keeps ----------

  ghost predicate AllAdmissible(segments: Segments) {
    forall i :: 0 <= i < |segments| ==> Admissible(segments[i])
  }

  ghost predicate Exact(before: Order, k: nat, s: Scan) {
    && Admissible(s.scored) && Admissible(s.waiting)
    && multiset(s.returned) == multiset(s.scored) + multiset(s.waiting)
    && Take(k, SortBy(before, s.examined)) == Take(k, SortBy(before, s.returned))
  }

  lemma JoinOne(a: seq<Doc>, b: seq<Doc>, c: seq<Doc>, d: Doc)
    requires multiset(a) == multiset(b) + multiset(c)
    ensures multiset(a + [d]) == multiset(b) + multiset(c + [d])
  {
    assert multiset(a + [d]) == multiset(a) + multiset{d};
    assert multiset(c + [d]) == multiset(c) + multiset{d};
  }

  lemma AdmissibleSnoc(docs: seq<Doc>, d: Doc)
    requires Admissible(docs) && 0.0 <= d.score <= d.maxScore
    ensures Admissible(docs + [d])
  {
  }

  lemma ReturningIsExact(before: Order, k: nat, s: Scan, on: Scan, d: Doc)
    requires Exact(before, k, s) && 0.0 <= d.score <= d.maxScore
    requires on == Scan(on.pos, s.returned + [d], s.waiting + [d], s.scored, s.examined + [d])
    ensures Exact(before, k, on)
  {
    JoinOne(s.returned, s.scored, s.waiting, d);
    AdmissibleSnoc(s.waiting, d);
    ReturningKeepsTop(before, k, s.examined, s.returned, d);
  }

  lemma SkippingIsExact(before: Order, k: nat, s: Scan, on: Scan, d: Doc)
    requires RanksByScore(before) && k > 0 && Exact(before, k, s)
    requires 0.0 <= d.score <= d.maxScore < Threshold(k, Scores(s.scored))
    requires on == s.(pos := on.pos, examined := s.examined + [d])
    ensures Exact(before, k, on)
  {
    ScoredIsBelow(before, k, s.scored, s.waiting, s.returned);
    SkippingKeepsTop(before, k, s.examined, s.returned, d);
  }

  lemma LookKeeps(before: Order, segments: Segments, k: nat, s: Scan, i: nat)
    requires RanksByScore(before) && k > 0 && AllAdmissible(segments) && |s.pos| == |segments| && Exact(before, k, s)
    ensures Exact(before, k, Move(segments, s, Look(i), Competes(segments, k, s, Look(i))))
  {
    if i < |segments| && s.pos[i] < |segments[i]| {
      var d := segments[i][s.pos[i]];
      assert Admissible(segments[i]);
      if Competes(segments, k, s, Look(i)) {
        ReturningIsExact(before, k, s, Move(segments, s, Look(i), true), d);
      } else {
        SkippingIsExact(before, k, s, Move(segments, s, Look(i), false), d);
      }
    }
  }

  lemma ScoringIsExact(before: Order, k: nat, s: Scan, on: Scan, d: Doc)
    requires Exact(before, k, s) && Admissible([d]) && Admissible(on.waiting)
    requires multiset(s.waiting) == multiset(on.waiting) + multiset{d}
    requires on == s.(waiting := on.waiting, scored := s.scored + [d])
    ensures Exact(before, k, on)
  {
  }

  lemma ScoreKeeps(before: Order, segments: Segments, k: nat, s: Scan, j: nat)
    requires |s.pos| == |segments| && Exact(before, k, s)
    ensures Exact(before, k, Move(segments, s, ScoreOne(j), false))
  {
    if j < |s.waiting| {
      WithoutOne(s.waiting, j);
      ScoringIsExact(before, k, s, Move(segments, s, ScoreOne(j), false), s.waiting[j]);
    }
  }

  lemma {:induction false} EveryRunIsExact(before: Order, segments: Segments, k: nat, steps: seq<Step>)
    requires RanksByScore(before) && k > 0 && AllAdmissible(segments)
    ensures Exact(before, k, Run(segments, k, steps))
  {
    if steps != [] {
      var m := |steps| - 1;
      EveryRunIsExact(before, segments, k, steps[..m]);
      match steps[m]
      case Look(i) => LookKeeps(before, segments, k, Run(segments, k, steps[..m]), i);
      case ScoreOne(j) => ScoreKeeps(before, segments, k, Run(segments, k, steps[..m]), j);
    }
  }

  // ---------- what was looked at ----------

  function Flatten(segments: Segments): seq<Doc> {
    if segments == [] then [] else Flatten(segments[..|segments| - 1]) + segments[|segments| - 1]
  }

  /** The part of each segment behind its iterator. */
  ghost function Behind(segments: Segments, pos: seq<nat>): (parts: Segments)
    requires |pos| == |segments|
    ensures |parts| == |segments|
  {
    seq(|segments|, i requires 0 <= i < |segments| => Take(pos[i], segments[i]))
  }

  lemma {:induction false} FlattenAdd(parts: Segments, i: nat, d: Doc)
    requires i < |parts|
    ensures multiset(Flatten(parts[i := parts[i] + [d]])) == multiset(Flatten(parts)) + multiset{d}
  {
    var m := |parts| - 1;
    var after := parts[i := parts[i] + [d]];
    if i == m {
      assert after[..m] == parts[..m];
    } else {
      FlattenAdd(parts[..m], i, d);
      assert after[..m] == parts[..m][i := parts[i] + [d]];
    }
  }

  lemma {:induction false} FlattenOfEmpty(parts: Segments)
    requires forall i :: 0 <= i < |parts| ==> parts[i] == []
    ensures Flatten(parts) == []
  {
    if parts != [] { FlattenOfEmpty(parts[..|parts| - 1]); }
  }

  ghost predicate Tracked(segments: Segments, pos: seq<nat>, examined: seq<Doc>)
    requires |pos| == |segments|
  {
    && (forall i :: 0 <= i < |segments| ==> pos[i] <= |segments[i]|)
    && multiset(examined) == multiset(Flatten(Behind(segments, pos)))
  }

  lemma BehindStep(segments: Segments, pos: seq<nat>, i: nat)
    requires |pos| == |segments| && i < |segments| && pos[i] < |segments[i]|
    ensures var parts := Behind(segments, pos);
            Behind(segments, pos[i := pos[i] + 1]) == parts[i := parts[i] + [segments[i][pos[i]]]]
  {
    assert Take(pos[i] + 1, segments[i]) == Take(pos[i], segments[i]) + [segments[i][pos[i]]];
  }

  lemma LookTracks(segments: Segments, pos: seq<nat>, examined: seq<Doc>, i: nat)
    requires |pos| == |segments| && Tracked(segments, pos, examined) && i < |segments| && pos[i] < |segments[i]|
    ensures Tracked(segments, pos[i := pos[i] + 1], examined + [segments[i][pos[i]]])
  {
    BehindStep(segments, pos, i);
    FlattenAdd(Behind(segments, pos), i, segments[i][pos[i]]);
  }

  lemma StartIsTracked(segments: Segments)
    ensures Tracked(segments, Start(segments).pos, [])
  {
    FlattenOfEmpty(Behind(segments, Start(segments).pos));
  }

  lemma MoveTracks(segments: Segments, s: Scan, step: Step, competes: bool)
    requires |s.pos| == |segments| && Tracked(segments, s.pos, s.examined)
    ensures var on := Move(segments, s, step, competes); Tracked(segments, on.pos, on.examined)
  {
    var on := Move(segments, s, step, competes);
    if step.Look? && step.segment < |segments| && s.pos[step.segment] < |segments[step.segment]| {
      LookTracks(segments, s.pos, s.examined, step.segment);
    } else {
      assert on.pos == s.pos && on.examined == s.examined;
    }
  }

  lemma {:induction false} EveryRunIsTracked(segments: Segments, k: nat, steps: seq<Step>)
    requires k > 0
    ensures Tracked(segments, Run(segments, k, steps).pos, Run(segments, k, steps).examined)
  {
    if steps == [] {
      StartIsTracked(segments);
    } else {
      var m := |steps| - 1;
      EveryRunIsTracked(segments, k, steps[..m]);
      var s := Run(segments, k, steps[..m]);
      MoveTracks(segments, s, steps[m], Competes(segments, k, s, steps[m]));
    }
  }

  lemma AllBehind(segments: Segments, pos: seq<nat>)
    requires |pos| == |segments| && forall i :: 0 <= i < |segments| ==> pos[i] == |segments[i]|
    ensures Behind(segments, pos) == segments
  {
    forall i | 0 <= i < |segments| ensures Behind(segments, pos)[i] == segments[i] {
      assert Take(|segments[i]|, segments[i]) == segments[i];
    }
  }

  lemma SortedAs(before: Order, a: seq<Doc>, docs: seq<Doc>)
    requires TotalOrder(before) && SortedBy(before, a) && multiset(a) == multiset(docs)
    ensures a == SortBy(before, docs)
  {
    SortBySorts(before, docs);
    SortedIsUnique(before, a, SortBy(before, docs));
  }

  /** Exact top-k over several segments: in whatever order the iterators advance and the documents
      handed out are scored, once all segments are exhausted the first k of the documents handed out
      are the first k of all documents. */
  lemma SharedManagerIsExact(before: Order, segments: Segments, k: nat, steps: seq<Step>,
            all: seq<Doc>, found: seq<Doc>)
    requires RanksByScore(before) && k > 0 && AllAdmissible(segments)
    requires forall i :: 0 <= i < |segments| ==> Run(segments, k, steps).pos[i] == |segments[i]|
    requires SortedBy(before, all) && multiset(all) == multiset(Flatten(segments))
    requires SortedBy(before, found) && multiset(found) == multiset(Run(segments, k, steps).returned)
    ensures Take(k, all) == Take(k, found)
  {
    var s := Run(segments, k, steps);
    EveryRunIsExact(before, segments, k, steps);
    EveryRunIsTracked(segments, k, steps);
    AllBehind(segments, s.pos);
    SortedAs(before, all, s.examined);
    SortedAs(before, found, s.returned);
  }
}
