/** Filling an index from a snapshot, one task per key range, under any interleaving.
    Models `fillIndexParallel` of Enterprise/RocksDBEngine/RocksDBBuilderIndexEE.cpp. */
module IndexFill {
  import opened KeySpace
  import opened Words

  datatype Entry = Entry(key: Key, value: seq<Byte>)

  /** A snapshot lists its entries in key order, each key once. */
  ghost predicate IsSnapshot(entries: seq<Entry>) {
    forall i, j :: 0 <= i < j < |entries| ==> Less(entries[i].key, entries[j].key)
  }

  /** The entries of a range, in order. */
  function Scan(entries: seq<Entry>, r: KeyRange): seq<Entry> {
    if entries == [] then [] else
      var last := entries[|entries| - 1];
      Scan(entries[..|entries| - 1], r) + if InRange(last.key, r) then [last] else []
  }

  // ---------- one task ----------

  /** A snapshot iterator: the first entry at or behind a key, then onwards. */
  class IndexIterator {
    const entries: seq<Entry>
    var pos: nat

    constructor (entries: seq<Entry>)
      ensures this.entries == entries && pos == 0
    {
      this.entries := entries;
      pos := 0;
    }

    method Seek(key: Key)
      modifies this
      ensures pos <= |entries|
      ensures forall i :: 0 <= i < pos ==> Less(entries[i].key, key)
      ensures pos < |entries| ==> !Less(entries[pos].key, key)
    {
      pos := 0;
      while pos < |entries| && Less(entries[pos].key, key)
        invariant pos <= |entries|
        invariant forall i :: 0 <= i < pos ==> Less(entries[i].key, key)
      {
        pos := pos + 1;
      }
    }
  }

  /** The index being filled: the n-th insertion succeeds or fails as `accepts` says. */
  class IndexTarget {
    const accepts: nat -> bool
    var calls: nat
    var log: seq<Entry>

    constructor (accepts: nat -> bool)
      ensures this.accepts == accepts && calls == 0 && log == []
    {
      this.accepts := accepts;
      calls := 0;
      log := [];
    }

    method Insert(e: Entry) returns (ok: bool)
      modifies this
      ensures log == if ok then old(log) + [e] else old(log)
      ensures calls == old(calls) + 1 && ok == accepts(old(calls))
    {
      ok := accepts(calls);
      calls := calls + 1;
      if ok {
        log := log + [e];
      }
    }
  }

  lemma ScanSnoc(entries: seq<Entry>, r: KeyRange, i: nat)
    requires i < |entries|
    ensures Scan(entries[..i + 1], r) ==
            Scan(entries[..i], r) + if InRange(entries[i].key, r) then [entries[i]] else []
  {
    assert entries[..i + 1][..i] == entries[..i];
  }

  lemma {:induction false} ScanSkips(entries: seq<Entry>, r: KeyRange, i: nat, j: nat)
    requires i <= j <= |entries|
    requires forall m :: i <= m < j ==> !InRange(entries[m].key, r)
    ensures Scan(entries[..j], r) == Scan(entries[..i], r)
  {
    if i < j {
      ScanSkips(entries, r, i, j - 1);
      ScanSnoc(entries, r, j - 1);
    }
  }

  lemma ScanEnds(entries: seq<Entry>, r: KeyRange, i: nat)
    requires IsSnapshot(entries) && i <= |entries|
    requires i < |entries| ==> r.upper != [] && !Less(entries[i].key, r.upper)
    ensures Scan(entries, r) == Scan(entries[..i], r)
  {
    forall m | i <= m < |entries| ensures !InRange(entries[m].key, r) {
      if m > i && Less(entries[m].key, r.upper) {
        LessTrans(entries[i].key, entries[m].key, r.upper);
      }
    }
    ScanSkips(entries, r, i, |entries|);
    assert entries[..|entries|] == entries;
  }

  lemma NotBelow(entries: seq<Entry>, lower: Key, start: nat, i: nat)
    requires IsSnapshot(entries) && start <= i < |entries|
    requires !Less(entries[start].key, lower)
    ensures !Less(entries[i].key, lower)
  {
    if start < i && Less(entries[i].key, lower) {
      LessTrans(entries[start].key, entries[i].key, lower);
    }
  }

  lemma NothingBelow(entries: seq<Entry>, range: KeyRange, start: nat)
    requires start <= |entries| && forall i :: 0 <= i < start ==> Less(entries[i].key, range.lower)
    ensures Scan(entries[..start], range) == []
  {
    ScanSkips(entries, range, 0, start);
    assert Scan(entries[..0], range) == [];
  }

  /** Behind what was logged before, the log holds the entries of the range up to a position. */
  ghost predicate Filled(log: seq<Entry>, before: seq<Entry>, entries: seq<Entry>, range: KeyRange, pos: nat) {
    pos <= |entries| && log == before + Scan(entries[..pos], range)
  }

  lemma {:induction false} ScanGrows(entries: seq<Entry>, r: KeyRange, i: nat, j: nat)
    requires i <= j <= |entries|
    ensures |Scan(entries[..i], r)| <= |Scan(entries[..j], r)|
  {
    if i < j {
      ScanGrows(entries, r, i, j - 1);
      ScanSnoc(entries, r, j - 1);
    }
  }

  lemma RefusedIsMissing(entries: seq<Entry>, r: KeyRange, i: nat)
    requires i < |entries| && InRange(entries[i].key, r)
    ensures |Scan(entries[..i], r)| < |Scan(entries, r)|
  {
    ScanSnoc(entries, r, i);
    ScanGrows(entries, r, i + 1, |entries|);
    assert entries[..|entries|] == entries;
  }

  /** The first insertions behind the calls made before were all accepted. */
  predicate Accepted(accepts: nat -> bool, before: nat, count: nat) {
    forall j :: before <= j < before + count ==> accepts(j)
  }

  /** Hands the current entry of the range to the index, and moves on if it was taken. */
  method InsertCurrent(it: IndexIterator, target: IndexTarget, range: KeyRange, ghost before: seq<Entry>)
    returns (inserted: bool)
    requires it.pos < |it.entries| && InRange(it.entries[it.pos].key, range)
    requires Filled(target.log, before, it.entries, range, it.pos)
    modifies target, it
    ensures it.pos == old(it.pos) + if inserted then 1 else 0
    ensures Filled(target.log, before, it.entries, range, it.pos)
    ensures target.calls == old(target.calls) + 1 && inserted == target.accepts(old(target.calls))
    ensures |target.log| == |old(target.log)| + if inserted then 1 else 0
  {
    ScanSnoc(it.entries, range, it.pos);
    inserted := target.Insert(it.entries[it.pos]);
    if inserted {
      it.pos := it.pos + 1;
    }
  }

  method FillRange(it: IndexIterator, target: IndexTarget, range: KeyRange) returns (ok: bool)
    requires IsSnapshot(it.entries)
    modifies target, it
    ensures ok ==> target.log == old(target.log) + Scan(it.entries, range)
    ensures !ok ==> it.pos < |it.entries| && InRange(it.entries[it.pos].key, range)
    ensures !ok ==> target.log == old(target.log) + Scan(it.entries[..it.pos], range)
    ensures ok <==> Accepted(target.accepts, old(target.calls), |Scan(it.entries, range)|)
  {
    var entries := it.entries;
    it.Seek(range.lower);
    ghost var start, before, calls := it.pos, target.log, target.calls;
    NothingBelow(entries, range, start);
    while it.pos < |entries|
      invariant start <= it.pos && Filled(target.log, before, entries, range, it.pos)
      invariant calls <= target.calls && target.calls - calls == |target.log| - |before|
      invariant Accepted(target.accepts, calls, target.calls - calls)
    {
      if range.upper != [] && !Less(entries[it.pos].key, range.upper) {
        break;
      }
      NotBelow(entries, range.lower, start, it.pos);
      var inserted := InsertCurrent(it, target, range, before);
      if !inserted {
        RefusedIsMissing(entries, range, it.pos);
        return false;
      }
    }
    ScanEnds(entries, range, it.pos);
    ok := true;
  }

  /** What one task does: it inserts its range of the snapshot in key order; it reports success
      exactly when it got through, which is when the snapshot opens and every insertion is taken. */
  method RunTask(it: IndexIterator?, target: IndexTarget, range: KeyRange) returns (ok: bool)
    requires it != null ==> IsSnapshot(it.entries)
    modifies target, it
    ensures ok ==> it != null && target.log == old(target.log) + Scan(it.entries, range)
    ensures !ok && it == null ==> target.log == old(target.log)
    ensures ok <==> it != null && Accepted(target.accepts, old(target.calls), |Scan(it.entries, range)|)
    ensures !ok && it != null ==>
              exists i :: 0 <= i < |it.entries| && InRange(it.entries[i].key, range) &&
                          target.log == old(target.log) + Scan(it.entries[..i], range)
  {
    if it == null {
      return false;
    }
    ok := FillRange(it, target, range);
  }

  // ---------- all tasks, interleaved ----------

  datatype TaskState = Active(next: nat) | Succeeded | Failed(next: nat)

  datatype Fill = Fill(tasks: seq<TaskState>, log: seq<Entry>)

  /** One step of one task: an insertion that succeeds, the end of its scan, or any failure (no
      iterator, a refused insertion, an exception). */
  datatype Step = InsertNext(task: nat) | Finish(task: nat) | Fail(task: nat)

  /** What each task has to insert. */
  function Work(snapshot: seq<Entry>, ranges: seq<KeyRange>): (work: seq<seq<Entry>>)
    ensures |work| == |ranges|
  {
    seq(|ranges|, t requires 0 <= t < |ranges| => Scan(snapshot, ranges[t]))
  }

  function Start(work: seq<seq<Entry>>): Fill {
    Fill(seq(|work|, _ => Active(0)), [])
  }

  /** A step of a task that cannot take it changes nothing. */
  function Take(work: seq<seq<Entry>>, f: Fill, s: Step): Fill
    requires |f.tasks| == |work|
  {
    if s.task >= |work| || !f.tasks[s.task].Active? then f else
      var next := f.tasks[s.task].next;
      match s
      case InsertNext(t) =>
        if next < |work[t]| then Fill(f.tasks[t := Active(next + 1)], f.log + [work[t][next]]) else f
      case Finish(t) => if next >= |work[t]| then f.(tasks := f.tasks[t := Succeeded]) else f
      case Fail(t) => f.(tasks := f.tasks[t := Failed(next)])
  }

  function Run(work: seq<seq<Entry>>, steps: seq<Step>): (f: Fill)
    ensures |f.tasks| == |work|
  {
    if steps == [] then Start(work) else
      Take(work, Run(work, steps[..|steps| - 1]), steps[|steps| - 1])
  }

  ghost predicate AllSucceeded(f: Fill) {
    forall t :: 0 <= t < |f.tasks| ==> f.tasks[t].Succeeded?
  }

  /** How far a task has come. */
  function Progress(work: seq<Entry>, t: TaskState): nat {
    match t
    case Active(next) => next
    case Succeeded => |work|
    case Failed(next) => next
  }

  ghost predicate ProgressOk(work: seq<seq<Entry>>, f: Fill) {
    |f.tasks| == |work| && forall t :: 0 <= t < |work| ==> Progress(work[t], f.tasks[t]) <= |work[t]|
  }

  ghost function Inserted(work: seq<seq<Entry>>, f: Fill): (parts: seq<multiset<Entry>>)
    requires ProgressOk(work, f)
    ensures |parts| == |work|
  {
    seq(|work|, t requires 0 <= t < |work| => multiset(work[t][..Progress(work[t], f.tasks[t])]))
  }

  function Total(parts: seq<multiset<Entry>>): multiset<Entry> {
    if parts == [] then multiset{} else Total(parts[..|parts| - 1]) + parts[|parts| - 1]
  }

  lemma {:induction false} TotalAdd(parts: seq<multiset<Entry>>, t: nat, e: Entry)
    requires t < |parts|
    ensures Total(parts[t := parts[t] + multiset{e}]) == Total(parts) + multiset{e}
  {
    var m := |parts| - 1;
    var after := parts[t := parts[t] + multiset{e}];
    if t == m {
      assert after[..m] == parts[..m];
    } else {
      TotalAdd(parts[..m], t, e);
      assert after[..m] == parts[..m][t := parts[t] + multiset{e}];
    }
  }

  lemma {:induction false} TotalOfEmpty(parts: seq<multiset<Entry>>)
    requires forall t :: 0 <= t < |parts| ==> parts[t] == multiset{}
    ensures Total(parts) == multiset{}
  {
    if parts != [] { TotalOfEmpty(parts[..|parts| - 1]); }
  }

  lemma StepKeepsLog(work: seq<seq<Entry>>, f: Fill, s: Step)
    requires ProgressOk(work, f) && multiset(f.log) == Total(Inserted(work, f))
    ensures ProgressOk(work, Take(work, f, s))
    ensures multiset(Take(work, f, s).log) == Total(Inserted(work, Take(work, f, s)))
  {
    var g := Take(work, f, s);
    var t := s.task;
    if t < |work| && f.tasks[t].Active? {
      var next := f.tasks[t].next;
      if s.InsertNext? && next < |work[t]| {
        var e := work[t][next];
        assert work[t][..next + 1] == work[t][..next] + [e];
        assert Inserted(work, g) == Inserted(work, f)[t := Inserted(work, f)[t] + multiset{e}];
        TotalAdd(Inserted(work, f), t, e);
      } else {
        assert Inserted(work, g) == Inserted(work, f);
      }
    }
  }

  /** The log always holds exactly what the tasks have inserted, whatever the interleaving. */
  lemma {:induction false} LogIsInserted(work: seq<seq<Entry>>, steps: seq<Step>)
    ensures ProgressOk(work, Run(work, steps))
    ensures multiset(Run(work, steps).log) == Total(Inserted(work, Run(work, steps)))
  {
    if steps == [] {
      forall t | 0 <= t < |work| ensures Inserted(work, Run(work, steps))[t] == multiset{} {
        assert work[t][..0] == [];
      }
      TotalOfEmpty(Inserted(work, Run(work, steps)));
    } else {
      var m := |steps| - 1;
      LogIsInserted(work, steps[..m]);
      StepKeepsLog(work, Run(work, steps[..m]), steps[m]);
    }
  }

  // ---------- what a successful fill has inserted ----------

  lemma {:induction false} ScanCounts(snapshot: seq<Entry>, r: KeyRange, e: Entry)
    requires IsSnapshot(snapshot)
    ensures multiset(Scan(snapshot, r))[e] == if e in snapshot && InRange(e.key, r) then 1 else 0
  {
    if snapshot != [] {
      var m := |snapshot| - 1;
      ScanCounts(snapshot[..m], r, e);
      assert snapshot == snapshot[..m] + [snapshot[m]];
      LessTotal(snapshot[m].key, snapshot[m].key);
      assert forall i :: 0 <= i < m ==> Less(snapshot[i].key, snapshot[m].key);
      assert snapshot[m] !in snapshot[..m];
    }
  }

  lemma {:induction false} TotalCounts(snapshot: seq<Entry>, ranges: seq<KeyRange>,
                                       parts: seq<multiset<Entry>>, e: Entry)
    requires IsSnapshot(snapshot) && |parts| == |ranges|
    requires forall t :: 0 <= t < |ranges| ==> parts[t] == multiset(Scan(snapshot, ranges[t]))
    ensures Total(parts)[e] == if e in snapshot then Hits(ranges, e.key) else 0
  {
    if ranges != [] {
      var m := |ranges| - 1;
      TotalCounts(snapshot, ranges[..m], parts[..m], e);
      ScanCounts(snapshot, ranges[m], e);
    }
  }

  /** When every task succeeded, each snapshot entry was inserted once if its key is in the range,
      plus once for every descent of the bounds past its key; nothing else was inserted. */
  lemma FillInsertsExactly(snapshot: seq<Entry>, lower: Key, upper: Key, n: nat, steps: seq<Step>, e: Entry)
    requires IsSnapshot(snapshot) && n > 0 && !EmptyRange(lower, upper)
    requires AllSucceeded(Run(Work(snapshot, Partition(lower, upper, n)), steps))
    ensures multiset(Run(Work(snapshot, Partition(lower, upper, n)), steps).log)[e] ==
            if e !in snapshot then 0
            else (if InRange(e.key, KeyRange(lower, upper)) then 1 else 0) + Descents(lower, upper, n, e.key)
  {
    var ranges := Partition(lower, upper, n);
    var work := Work(snapshot, ranges);
    var f := Run(work, steps);
    LogIsInserted(work, steps);
    forall t | 0 <= t < |ranges| ensures Inserted(work, f)[t] == multiset(Scan(snapshot, ranges[t])) {
      assert f.tasks[t].Succeeded?;
      assert work[t][..|work[t]|] == work[t];
    }
    TotalCounts(snapshot, ranges, Inserted(work, f), e);
    HitsExactly(lower, upper, n, e.key);
  }

  /** At least once, always. */
  lemma FillMissesNothing(snapshot: seq<Entry>, lower: Key, upper: Key, n: nat, steps: seq<Step>, e: Entry)
    requires IsSnapshot(snapshot) && n > 0 && e in snapshot && InRange(e.key, KeyRange(lower, upper))
    requires AllSucceeded(Run(Work(snapshot, Partition(lower, upper, n)), steps))
    ensures e in Run(Work(snapshot, Partition(lower, upper, n)), steps).log
  {
    if EmptyRange(lower, upper) {
      LessTotal(lower, upper);
      LessTotal(lower, e.key);
      if Less(lower, e.key) { LessTrans(lower, e.key, upper); }
    } else {
      FillInsertsExactly(snapshot, lower, upper, n, steps, e);
      assert e in multiset(Run(Work(snapshot, Partition(lower, upper, n)), steps).log);
    }
  }

  lemma CountsOnce(snapshot: seq<Entry>, lower: Key, upper: Key, n: nat, steps: seq<Step>, e: Entry)
    requires IsSnapshot(snapshot) && n > 0 && (EmptyRange(lower, upper) || SortedBounds(lower, upper, n))
    requires AllSucceeded(Run(Work(snapshot, Partition(lower, upper, n)), steps))
    ensures multiset(Run(Work(snapshot, Partition(lower, upper, n)), steps).log)[e] ==
            if e in snapshot && InRange(e.key, KeyRange(lower, upper)) then 1 else 0
  {
    if EmptyRange(lower, upper) {
      LogIsInserted(Work(snapshot, Partition(lower, upper, n)), steps);
      if e in snapshot && InRange(e.key, KeyRange(lower, upper)) {
        FillMissesNothing(snapshot, lower, upper, n, steps, e);
      }
    } else {
      FillInsertsExactly(snapshot, lower, upper, n, steps, e);
      SortedHasNoDescents(lower, upper, n, e.key);
    }
  }

  /** Exactly once, and nothing outside the range, when the range is unbounded above or upper
      dominates lower. */
  lemma FillInsertsOnce(snapshot: seq<Entry>, lower: Key, upper: Key, n: nat, steps: seq<Step>, e: Entry)
    requires IsSnapshot(snapshot) && n > 0 && (upper == [] || Dominates(lower, upper))
    requires AllSucceeded(Run(Work(snapshot, Partition(lower, upper, n)), steps))
    ensures multiset(Run(Work(snapshot, Partition(lower, upper, n)), steps).log)[e] ==
            if e in snapshot && InRange(e.key, KeyRange(lower, upper)) then 1 else 0
  {
    if !EmptyRange(lower, upper) { BoundsAreSorted(lower, upper, n); }
    CountsOnce(snapshot, lower, upper, n, steps, e);
  }

  // ---------- exactly which inputs are filled exactly once ----------

  lemma RunSnoc(work: seq<seq<Entry>>, steps: seq<Step>, s: Step)
    ensures Run(work, steps + [s]) == Take(work, Run(work, steps), s)
  {
    assert (steps + [s])[..|steps|] == steps;
  }

  lemma FailedStep(work: seq<seq<Entry>>, f: Fill, s: Step, t: nat)
    requires |f.tasks| == |work| && t < |work| && f.tasks[t].Failed?
    ensures Take(work, f, s).tasks[t] == f.tasks[t]
  {
  }

  /** A failure is taken wherever a task stands, and no step undoes it: the build cannot succeed. */
  lemma {:induction false} FailureIsFinal(work: seq<seq<Entry>>, steps: seq<Step>, t: nat, more: seq<Step>)
    requires t < |work| && Run(work, steps).tasks[t].Active?
    ensures Run(work, steps + [Fail(t)] + more).tasks[t] == Failed(Run(work, steps).tasks[t].next)
    ensures !AllSucceeded(Run(work, steps + [Fail(t)] + more))
    decreases |more|
  {
    if more == [] {
      RunSnoc(work, steps, Fail(t));
      assert steps + [Fail(t)] + more == steps + [Fail(t)];
    } else {
      var m := |more| - 1;
      FailureIsFinal(work, steps, t, more[..m]);
      RunSnoc(work, steps + [Fail(t)] + more[..m], more[m]);
      assert steps + [Fail(t)] + more == steps + [Fail(t)] + more[..m] + [more[m]];
      FailedStep(work, Run(work, steps + [Fail(t)] + more[..m]), more[m], t);
    }
  }

  /** Left to itself, a task that has not failed gets through. */
  lemma {:induction false} TaskCanSucceed(work: seq<seq<Entry>>, steps: seq<Step>, t: nat, i: nat)
    returns (more: seq<Step>)
    requires t < |work| && i <= |work[t]| && Run(work, steps).tasks[t] == Active(i)
    ensures Run(work, more).tasks == Run(work, steps).tasks[t := Succeeded]
    decreases |work[t]| - i
  {
    var tasks := Run(work, steps).tasks;
    if i < |work[t]| {
      RunSnoc(work, steps, InsertNext(t));
      more := TaskCanSucceed(work, steps + [InsertNext(t)], t, i + 1);
      assert tasks[t := Active(i + 1)][t := Succeeded] == tasks[t := Succeeded];
    } else {
      RunSnoc(work, steps, Finish(t));
      more := steps + [Finish(t)];
    }
  }

  /** Every fill has a run in which all its tasks succeed. */
  lemma {:induction false} AllCanSucceed(work: seq<seq<Entry>>, n: nat) returns (steps: seq<Step>)
    requires n <= |work|
    ensures forall t :: 0 <= t < |work| ==> Run(work, steps).tasks[t] == if t < n then Succeeded else Active(0)
  {
    if n == 0 {
      steps := [];
    } else {
      var before := AllCanSucceed(work, n - 1);
      steps := TaskCanSucceed(work, before, n - 1, 0);
    }
  }

  /** Whatever the snapshot and the interleaving, a fill that succeeds inserts the keys of the range
      once each and nothing else. */
  ghost predicate FillsOnce(lower: Key, upper: Key, n: nat) {
    forall snapshot, steps, e ::
      IsSnapshot(snapshot) && AllSucceeded(Run(Work(snapshot, Partition(lower, upper, n)), steps)) ==>
        multiset(Run(Work(snapshot, Partition(lower, upper, n)), steps).log)[e] ==
        if e in snapshot && InRange(e.key, KeyRange(lower, upper)) then 1 else 0
  }

  /** A snapshot of one key shows how often the parts cover it. */
  lemma OneKeyShows(lower: Key, upper: Key, n: nat, k: Key)
    requires n > 0 && !EmptyRange(lower, upper) && FillsOnce(lower, upper, n)
    ensures Hits(Partition(lower, upper, n), k) == if InRange(k, KeyRange(lower, upper)) then 1 else 0
  {
    var e := Entry(k, []);
    var snapshot := [e];
    var work := Work(snapshot, Partition(lower, upper, n));
    var steps := AllCanSucceed(work, |work|);
    FillInsertsExactly(snapshot, lower, upper, n, steps, e);
    HitsExactly(lower, upper, n, k);
  }

  /** For a given number of threads: a successful fill inserts the range exactly once, whatever the
      snapshot and the interleaving, if and only if the range is empty or its bounds are sorted. */
  lemma FillsOnceIff(lower: Key, upper: Key, n: nat)
    requires n > 0
    ensures FillsOnce(lower, upper, n) <==> EmptyRange(lower, upper) || SortedBounds(lower, upper, n)
  {
    if EmptyRange(lower, upper) || SortedBounds(lower, upper, n) {
      forall snapshot, steps, e |
        IsSnapshot(snapshot) && AllSucceeded(Run(Work(snapshot, Partition(lower, upper, n)), steps))
        ensures multiset(Run(Work(snapshot, Partition(lower, upper, n)), steps).log)[e] ==
                if e in snapshot && InRange(e.key, KeyRange(lower, upper)) then 1 else 0
      {
        CountsOnce(snapshot, lower, upper, n, steps, e);
      }
    } else if FillsOnce(lower, upper, n) {
      forall k
        ensures Hits(Partition(lower, upper, n), k) == if InRange(k, KeyRange(lower, upper)) then 1 else 0
      {
        OneKeyShows(lower, upper, n, k);
      }
      ExactlyOnceIff(lower, upper, n);
      assert false;
    }
  }

  /** On the inputs: with any number of threads a successful fill inserts the range exactly once, if
      and only if the range is empty, or unbounded above, or upper dominates lower. */
  lemma FillsOnceInputs(lower: Key, upper: Key)
    ensures (forall n :: n > 0 ==> FillsOnce(lower, upper, n)) <==>
            EmptyRange(lower, upper) || upper == [] || Dominates(lower, upper)
  {
    forall n | n > 0 ensures FillsOnce(lower, upper, n) <==> EmptyRange(lower, upper) || SortedBounds(lower, upper, n) {
      FillsOnceIff(lower, upper, n);
    }
    if !EmptyRange(lower, upper) { SortedForAllIff(lower, upper); }
  }

  // ---------- a fill without threads ----------

  /** With no threads there are no parts, the build reports success, and nothing is inserted: it
      covers the range if and only if the snapshot has no key there or there is a thread. */
  lemma CoversIffThreads(snapshot: seq<Entry>, lower: Key, upper: Key, n: nat, steps: seq<Step>)
    requires IsSnapshot(snapshot)
    requires AllSucceeded(Run(Work(snapshot, Partition(lower, upper, n)), steps))
    ensures (forall e :: e in snapshot && InRange(e.key, KeyRange(lower, upper)) ==>
                           e in Run(Work(snapshot, Partition(lower, upper, n)), steps).log) <==>
            (n > 0 || forall e :: e in snapshot ==> !InRange(e.key, KeyRange(lower, upper)))
  {
    if n == 0 {
      var work := Work(snapshot, Partition(lower, upper, n));
      LogIsInserted(work, steps);
      assert Inserted(work, Run(work, steps)) == [];
      assert |Run(work, steps).log| == |multiset(Run(work, steps).log)| == 0;
    } else {
      forall e | e in snapshot && InRange(e.key, KeyRange(lower, upper))
        ensures e in Run(Work(snapshot, Partition(lower, upper, n)), steps).log
      {
        FillMissesNothing(snapshot, lower, upper, n, steps, e);
      }
    }
  }
}
