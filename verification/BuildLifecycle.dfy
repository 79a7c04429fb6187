/** The life of one index build: fill, buffered writes, changelog, swap.
    Models the state machine of Enterprise/RocksDBEngine/RocksDBBuilderIndexEE.cpp and the
    memory budget of Enterprise/RocksDBEngine/ChangelogBuffer.cpp. */
module BuildLifecycle {
  datatype OpType = Insert | Update | Delete

  /** A write made during the build; capacities are those of its three strings. */
  datatype ChangelogEntry = ChangelogEntry(opType: OpType, key: string, rev: string, data: string,
                                           keyCapacity: nat, revCapacity: nat, dataCapacity: nat)

  const ENTRY_BASE_OVERHEAD: nat := 1 + 3 * 32 + 8

  function EntrySize(e: ChangelogEntry): nat {
    ENTRY_BASE_OVERHEAD + e.keyCapacity + e.revCapacity + e.dataCapacity
  }

  function TotalSize(entries: seq<ChangelogEntry>): nat {
    if entries == [] then 0 else TotalSize(entries[..|entries| - 1]) + EntrySize(entries[|entries| - 1])
  }

  lemma SizeOfNone()
    ensures TotalSize([]) == 0
  {
  }

  /** An entry is charged its three capacities and 105 bytes. */
  lemma TotalSizeSnoc(entries: seq<ChangelogEntry>, e: ChangelogEntry)
    ensures TotalSize(entries + [e]) == TotalSize(entries) + EntrySize(e)
    ensures TotalSize(entries + [e]) ==
            TotalSize(entries) + 105 + e.keyCapacity + e.revCapacity + e.dataCapacity
  {
    assert (entries + [e])[..|entries|] == entries;
  }

  /** `ChangelogBuffer`. */
  class ChangelogBuffer {
    const budget: nat
    var entries: seq<ChangelogEntry>
    var usage: nat

    ghost predicate Valid()
      reads this
    {
      usage == TotalSize(entries) <= budget
    }

    constructor (budget: nat)
      ensures Valid() && this.budget == budget && entries == []
    {
      this.budget := budget;
      entries := [];
      usage := 0;
    }

    /** Refuses exactly what would exceed the budget. */
    method Append(e: ChangelogEntry) returns (ok: bool)
      requires Valid()
      modifies this
      ensures Valid()
      ensures ok <==> TotalSize(old(entries) + [e]) <= budget
      ensures ok <==> old(usage) + 105 + e.keyCapacity + e.revCapacity + e.dataCapacity <= budget
      ensures entries == if ok then old(entries) + [e] else old(entries)
    {
      TotalSizeSnoc(entries, e);
      if usage + EntrySize(e) > budget {
        return false;
      }
      usage := usage + EntrySize(e);
      entries := entries + [e];
      ok := true;
    }

    method Clear()
      requires Valid()
      modifies this
      ensures Valid() && entries == [] && usage == 0
    {
      entries := [];
      usage := 0;
    }
  }

  // ---------- the lifecycle as a state machine ----------

  datatype Phase = Idle | Building | ApplyingChangelog | Swapping | Complete | Failed

  datatype Config = Config(backgroundMode: bool, budget: nat)

  /** The build, with its history: writes accepted, writes applied, swap callbacks run, whether a
      fill call is still running and whether one has succeeded. */
  datatype Build = Build(phase: Phase, entries: seq<ChangelogEntry>,
                         accepted: seq<ChangelogEntry>, applied: seq<ChangelogEntry>,
                         swaps: nat, filling: bool, filled: bool)

  const FRESH := Build(Idle, [], [], [], 0, false, false)

  /** Calls made on the builder. `fillIndexParallel` begins and ends; the others are atomic.
      The applier of the changelog fails at entry `stopsAt`, if there is one. */
  datatype Call =
    | BeginFill
    | EndFill(ok: bool)
    | BufferWrite(entry: ChangelogEntry)
    | ApplyChangelog(stopsAt: nat)
    | AtomicSwap(throws: bool)

  function Make(cfg: Config, b: Build, c: Call): Build {
    match c
    case BeginFill =>
      if b.phase == Idle then b.(phase := Building, filling := true) else b
    case EndFill(ok) =>
      if !b.filling then b
      else if ok then b.(filling := false, filled := true)
      else b.(filling := false, phase := Failed)
    case BufferWrite(e) =>
      if cfg.backgroundMode && b.phase == Building && TotalSize(b.entries + [e]) <= cfg.budget
      then b.(entries := b.entries + [e], accepted := b.accepted + [e]) else b
    case ApplyChangelog(stopsAt) =>
      if b.phase != Building then b
      else if stopsAt < |b.entries| then
        b.(phase := Failed, applied := b.applied + b.entries[..stopsAt])
      else b.(phase := ApplyingChangelog, applied := b.applied + b.entries, entries := [])
    case AtomicSwap(throws) =>
      if b.phase != ApplyingChangelog then b
      else b.(phase := if throws then Failed else Complete, swaps := b.swaps + 1)
  }

  function RunCalls(cfg: Config, calls: seq<Call>): Build {
    if calls == [] then FRESH else
      Make(cfg, RunCalls(cfg, calls[..|calls| - 1]), calls[|calls| - 1])
  }

  lemma RunSnoc(cfg: Config, calls: seq<Call>, c: Call)
    ensures RunCalls(cfg, calls + [c]) == Make(cfg, RunCalls(cfg, calls), c)
  {
    assert (calls + [c])[..|calls|] == calls;
  }

  // ---------- what each call does, in any run ----------

  /** In every run: a write is accepted if and only if the mode is on, the build is in its filling
      phase and the memory budget is kept; a refused write leaves no trace. */
  lemma AcceptedIff(cfg: Config, calls: seq<Call>, e: ChangelogEntry)
    ensures var before, after := RunCalls(cfg, calls), RunCalls(cfg, calls + [BufferWrite(e)]);
            var taken := cfg.backgroundMode && before.phase == Building
                         && TotalSize(before.entries + [e]) <= cfg.budget;
            && (after.accepted == before.accepted + [e] <==> taken)
            && (taken ==> after == before.(accepted := before.accepted + [e], entries := before.entries + [e]))
            && (!taken ==> after == before)
  {
    var before := RunCalls(cfg, calls);
    RunSnoc(cfg, calls, BufferWrite(e));
    assert |before.accepted + [e]| > |before.accepted|;
  }

  /** In every run: the one call, made in the one phase, that enters each phase. */
  lemma PhaseIsEntered(cfg: Config, calls: seq<Call>, c: Call)
    ensures var before, after := RunCalls(cfg, calls), RunCalls(cfg, calls + [c]);
            var n := |before.entries|;
            && (after.phase == Idle ==> before.phase == Idle)
            && (after.phase == Building && before.phase != Building <==> before.phase == Idle && c.BeginFill?)
            && (after.phase == ApplyingChangelog && before.phase != ApplyingChangelog <==>
                before.phase == Building && c.ApplyChangelog? && c.stopsAt >= n)
            && (after.phase == Complete && before.phase != Complete <==>
                before.phase == ApplyingChangelog && c.AtomicSwap? && !c.throws)
            && (after.phase == Failed && before.phase != Failed <==>
                || (before.filling && before.phase != Failed && c == EndFill(false))
                || (before.phase == Building && c.ApplyChangelog? && c.stopsAt < n)
                || (before.phase == ApplyingChangelog && c.AtomicSwap? && c.throws))
  {
    RunSnoc(cfg, calls, c);
  }

  /** In every run: which calls run the swap, apply writes, and begin and end a fill. */
  lemma EffectsAre(cfg: Config, calls: seq<Call>, c: Call)
    ensures var before, after := RunCalls(cfg, calls), RunCalls(cfg, calls + [c]);
            && after.swaps == before.swaps
                              + (if before.phase == ApplyingChangelog && c.AtomicSwap? then 1 else 0)
            && (!(before.phase == Building && c.ApplyChangelog?) ==> after.applied == before.applied)
            && (before.phase == Building && c.ApplyChangelog? && c.stopsAt >= |before.entries| ==>
                after.applied == before.applied + before.entries && after.entries == [])
            && (before.phase == Building && c.ApplyChangelog? && c.stopsAt < |before.entries| ==>
                after.applied == before.applied + before.entries[..c.stopsAt] && after.entries == before.entries)
            && (after.filling <==> (before.phase == Idle && c.BeginFill?) || (before.filling && !c.EndFill?))
            && (after.filled <==> before.filled || (before.filling && c == EndFill(true)))
  {
    RunSnoc(cfg, calls, c);
  }

  function Writes(entries: seq<ChangelogEntry>): (r: seq<Call>)
    ensures |r| == |entries|
  {
    seq(|entries|, i requires 0 <= i < |entries| => BufferWrite(entries[i]))
  }

  lemma WritesSnoc(entries: seq<ChangelogEntry>, e: ChangelogEntry)
    ensures [BeginFill] + Writes(entries + [e]) == [BeginFill] + Writes(entries) + [BufferWrite(e)]
  {
  }

  lemma FirstCall(cfg: Config)
    ensures RunCalls(cfg, [BeginFill] + Writes([])) == FRESH.(phase := Building, filling := true)
  {
    RunSnoc(cfg, [], BeginFill);
    assert [BeginFill] + Writes([]) == [] + [BeginFill];
  }

  lemma NextWrite(cfg: Config, writes: seq<ChangelogEntry>, e: ChangelogEntry)
    requires cfg.backgroundMode && TotalSize(writes + [e]) <= cfg.budget
    requires RunCalls(cfg, [BeginFill] + Writes(writes)) == Build(Building, writes, writes, [], 0, true, false)
    ensures RunCalls(cfg, [BeginFill] + Writes(writes + [e])) ==
            Build(Building, writes + [e], writes + [e], [], 0, true, false)
  {
    hide Writes;
    WritesSnoc(writes, e);
    RunSnoc(cfg, [BeginFill] + Writes(writes), BufferWrite(e));
  }

  lemma SizeGrows(entries: seq<ChangelogEntry>, m: nat)
    requires m + 1 == |entries|
    ensures TotalSize(entries[..m]) <= TotalSize(entries)
  {
  }

  lemma {:induction false} WritesAreBuffered(cfg: Config, writes: seq<ChangelogEntry>)
    requires cfg.backgroundMode && TotalSize(writes) <= cfg.budget
    ensures RunCalls(cfg, [BeginFill] + Writes(writes)) == Build(Building, writes, writes, [], 0, true, false)
  {
    hide Writes, RunCalls, TotalSize;
    if writes == [] {
      FirstCall(cfg);
    } else {
      var m := |writes| - 1;
      SizeGrows(writes, m);
      WritesAreBuffered(cfg, writes[..m]);
      assert writes == writes[..m] + [writes[m]];
      NextWrite(cfg, writes[..m], writes[m]);
    }
  }

  /** Nothing is lost: the writes made during a build, as long as they fit the budget, are all applied
      in order before the swap, and the build completes. */
  lemma BuildKeepsItsWrites(cfg: Config, writes: seq<ChangelogEntry>, stopsAt: nat)
    requires cfg.backgroundMode && TotalSize(writes) <= cfg.budget && |writes| <= stopsAt
    ensures var b := RunCalls(cfg, [BeginFill] + Writes(writes)
                                   + [EndFill(true)] + [ApplyChangelog(stopsAt)] + [AtomicSwap(false)]);
            b.phase == Complete && b.swaps == 1 && b.filled && b.accepted == b.applied == writes
  {
    var building := [BeginFill] + Writes(writes);
    WritesAreBuffered(cfg, writes);
    RunSnoc(cfg, building, EndFill(true));
    RunSnoc(cfg, building + [EndFill(true)], ApplyChangelog(stopsAt));
    RunSnoc(cfg, building + [EndFill(true)] + [ApplyChangelog(stopsAt)], AtomicSwap(false));
  }

  // ---------- what every run keeps ----------

  /** What holds in every run. A build under way or complete has a fill running or one that
      succeeded. */
  ghost predicate WellKept(cfg: Config, b: Build) {
    && TotalSize(b.entries) <= cfg.budget
    && b.swaps <= 1
    && (b.phase == Idle ==> !b.filling && !b.filled)
    && (b.phase.Idle? || b.phase.Building? || b.phase.ApplyingChangelog? ==> b.swaps == 0)
    && (b.phase.Idle? || b.phase.Building? ==> b.applied == [] && b.accepted == b.entries)
    && (b.phase.ApplyingChangelog? || b.phase.Complete? || b.swaps > 0 ==> b.entries == [] && b.applied == b.accepted)
    && b.applied <= b.accepted
    && (b.phase == Complete ==> b.swaps == 1)
    && !(b.filling && b.filled)
    && (b.phase.Building? || b.phase.ApplyingChangelog? || b.phase.Complete? ==> b.filling || b.filled)
  }

  lemma BufferKeeps(cfg: Config, b: Build, e: ChangelogEntry)
    requires WellKept(cfg, b)
    ensures WellKept(cfg, Make(cfg, b, BufferWrite(e)))
  {
  }

  lemma ApplyKeeps(cfg: Config, b: Build, stopsAt: nat)
    requires WellKept(cfg, b)
    ensures WellKept(cfg, Make(cfg, b, ApplyChangelog(stopsAt)))
  {
    if b.phase == Building {
      assert [] + b.entries == b.entries;
      if stopsAt < |b.entries| {
        assert [] + b.entries[..stopsAt] <= b.accepted;
      }
    }
  }

  /** The calls that only move the phase. */
  lemma PhaseKeeps(cfg: Config, b: Build, c: Call)
    requires WellKept(cfg, b) && !c.BufferWrite? && !c.ApplyChangelog?
    ensures WellKept(cfg, Make(cfg, b, c))
  {
    assert Make(cfg, b, c).entries == b.entries;
  }

  lemma MakeKeeps(cfg: Config, b: Build, c: Call)
    requires WellKept(cfg, b)
    ensures WellKept(cfg, Make(cfg, b, c))
  {
    match c
    case BufferWrite(e) => BufferKeeps(cfg, b, e);
    case ApplyChangelog(stopsAt) => ApplyKeeps(cfg, b, stopsAt);
    case _ => PhaseKeeps(cfg, b, c);
  }

  /** Every run: the swap callback runs at most once; when it has run, every accepted write was
      applied before it, in acceptance order, exactly once; the buffer stays within budget. */
  lemma {:induction false} EveryRunIsWellKept(cfg: Config, calls: seq<Call>)
    ensures WellKept(cfg, RunCalls(cfg, calls))
  {
    if calls != [] {
      var m := |calls| - 1;
      EveryRunIsWellKept(cfg, calls[..m]);
      MakeKeeps(cfg, RunCalls(cfg, calls[..m]), calls[m]);
    }
  }

  // ---------- exactly when the swap publishes a filled index, and for good ----------

  /** In every run: a swap publishes an index that a fill has completed if and only if no fill call
      is running when it is made, whenever the changelog was applied. */
  lemma SwapIsFilledIff(cfg: Config, calls: seq<Call>, throws: bool)
    requires RunCalls(cfg, calls).phase == ApplyingChangelog
    ensures var b := RunCalls(cfg, calls + [AtomicSwap(throws)]);
            b.swaps == 1 && b.applied == b.accepted && (b.filled <==> !RunCalls(cfg, calls).filling)
  {
    EveryRunIsWellKept(cfg, calls);
    RunSnoc(cfg, calls, AtomicSwap(throws));
  }

  predicate Finished(b: Build) {
    b.phase == Failed || (b.phase == Complete && !b.filling)
  }

  /** The same build, but for what is known of its fill calls - and of those too, if none is running. */
  ghost predicate SameOutcome(b: Build, after: Build) {
    && after == b.(filling := after.filling, filled := after.filled)
    && (!b.filling ==> after == b)
  }

  lemma FinishedStep(cfg: Config, b: Build, after: Build, c: Call)
    requires Finished(b) && SameOutcome(b, after)
    ensures SameOutcome(b, Make(cfg, after, c))
  {
  }

  /** A failed build stays failed, and a completed one stays completed once no fill is running. */
  lemma {:induction false} FinishedStays(cfg: Config, calls: seq<Call>, more: seq<Call>)
    requires Finished(RunCalls(cfg, calls))
    ensures SameOutcome(RunCalls(cfg, calls), RunCalls(cfg, calls + more))
    decreases |more|
  {
    if more == [] {
      assert calls + more == calls;
    } else {
      var m := |more| - 1;
      FinishedStays(cfg, calls, more[..m]);
      FinishedStep(cfg, RunCalls(cfg, calls), RunCalls(cfg, calls + more[..m]), more[m]);
      RunSnoc(cfg, calls + more[..m], more[m]);
      assert calls + more == calls + more[..m] + [more[m]];
    }
  }

  /** In every run: a completed build is complete for good if and only if no fill call is running;
      otherwise the late failure of the fill turns it into a failed one, its swap already made. */
  lemma CompleteStaysIff(cfg: Config, calls: seq<Call>)
    requires RunCalls(cfg, calls).phase == Complete
    ensures (forall more :: RunCalls(cfg, calls + more).phase == Complete) <==> !RunCalls(cfg, calls).filling
  {
    if RunCalls(cfg, calls).filling {
      RunSnoc(cfg, calls, EndFill(false));
      assert RunCalls(cfg, calls + [EndFill(false)]).phase == Failed;
    } else {
      forall more ensures RunCalls(cfg, calls + more).phase == Complete {
        FinishedStays(cfg, calls, more);
      }
    }
  }

  /** The owner's protocol: no swap is asked for while a fill call is running. */
  ghost predicate Orderly(cfg: Config, calls: seq<Call>) {
    forall i :: 0 <= i < |calls| && calls[i].AtomicSwap? ==> !RunCalls(cfg, calls[..i]).filling
  }

  lemma OrderlyPrefix(cfg: Config, calls: seq<Call>, c: Call)
    requires Orderly(cfg, calls + [c])
    ensures Orderly(cfg, calls) && (c.AtomicSwap? ==> !RunCalls(cfg, calls).filling)
  {
    assert (calls + [c])[|calls|] == c && (calls + [c])[..|calls|] == calls;
    forall i | 0 <= i < |calls| && calls[i].AtomicSwap? ensures !RunCalls(cfg, calls[..i]).filling {
      assert (calls + [c])[i] == calls[i] && (calls + [c])[..i] == calls[..i];
    }
  }

  /** What the protocol keeps: a swap has a filled index, and no fill outlives it. */
  ghost predicate FilledFirst(b: Build) {
    b.swaps > 0 ==> b.filled && !b.filling
  }

  lemma FilledFirstStep(cfg: Config, b: Build, c: Call)
    requires WellKept(cfg, b) && FilledFirst(b) && (c.AtomicSwap? ==> !b.filling)
    ensures FilledFirst(Make(cfg, b, c))
  {
  }

  lemma {:induction false} OrderlyKeeps(cfg: Config, calls: seq<Call>)
    requires Orderly(cfg, calls)
    ensures FilledFirst(RunCalls(cfg, calls))
  {
    if calls != [] {
      var m := |calls| - 1;
      assert calls == calls[..m] + [calls[m]];
      OrderlyPrefix(cfg, calls[..m], calls[m]);
      OrderlyKeeps(cfg, calls[..m]);
      EveryRunIsWellKept(cfg, calls[..m]);
      FilledFirstStep(cfg, RunCalls(cfg, calls[..m]), calls[m]);
    }
  }

  /** In every orderly run the swap comes only after a fill that succeeded and a changelog that was
      applied in full, and a finished build never changes its outcome again. */
  lemma OrderlySwap(cfg: Config, calls: seq<Call>, more: seq<Call>)
    requires Orderly(cfg, calls)
    ensures var b := RunCalls(cfg, calls); b.swaps > 0 ==> b.filled && b.applied == b.accepted
    ensures var b := RunCalls(cfg, calls);
            b.phase in {Complete, Failed} ==> SameOutcome(b, RunCalls(cfg, calls + more))
  {
    EveryRunIsWellKept(cfg, calls);
    OrderlyKeeps(cfg, calls);
    if RunCalls(cfg, calls).phase in {Complete, Failed} {
      FinishedStays(cfg, calls, more);
    }
  }

  /** A premature swap, reachable: the swap callback has run, and the build ends failed. */
  lemma PrematureSwapThenFailure(cfg: Config)
    ensures var b := RunCalls(cfg, [BeginFill, ApplyChangelog(0), AtomicSwap(false), EndFill(false)]);
            b.phase == Failed && b.swaps == 1 && !b.filled
  {
    var a := [BeginFill];
    var b := a + [ApplyChangelog(0)];
    var c := b + [AtomicSwap(false)];
    RunSnoc(cfg, [], BeginFill);
    RunSnoc(cfg, a, ApplyChangelog(0));
    RunSnoc(cfg, b, AtomicSwap(false));
    RunSnoc(cfg, c, EndFill(false));
    assert [] + [BeginFill] == a;
    assert c + [EndFill(false)] == [BeginFill, ApplyChangelog(0), AtomicSwap(false), EndFill(false)];
  }

  // ---------- the builder itself ----------

  class Builder {
    const config: Config
    const changelog: ChangelogBuffer
    var phase: Phase
    ghost var history: Build

    /** The fields agree with the history of calls. */
    ghost predicate Valid()
      reads this, changelog
    {
      && changelog.Valid() && changelog.budget == config.budget
      && phase == history.phase && changelog.entries == history.entries
    }

    constructor (config: Config)
      ensures Valid() && fresh(changelog) && this.config == config && history == FRESH
    {
      this.config := config;
      changelog := new ChangelogBuffer(config.budget);
      phase := Idle;
      history := FRESH;
    }

    /** The compare-exchange at the start of a fill. */
    method StartFill() returns (ok: bool)
      requires Valid()
      modifies this
      ensures Valid() && history == Make(config, old(history), BeginFill)
      ensures ok == (old(phase) == Idle)
      ensures phase == if old(phase) == Idle then Building else old(phase)
      ensures history.filling <==> ok || old(history.filling)
    {
      ok := phase == Idle;
      if ok {
        phase := Building;
      }
      history := Make(config, history, BeginFill);
    }

    /** The end of a fill that was started. */
    method FinishFill(allSucceeded: bool) returns (ok: bool)
      requires Valid() && history.filling
      modifies this
      ensures Valid() && history == Make(config, old(history), EndFill(allSucceeded))
      ensures ok == allSucceeded
      ensures phase == if allSucceeded then old(phase) else Failed
      ensures !history.filling && (history.filled <==> allSucceeded || old(history.filled))
    {
      if !allSucceeded {
        phase := Failed;
      }
      ok := allSucceeded;
      history := Make(config, history, EndFill(allSucceeded));
    }

    method Buffer(e: ChangelogEntry) returns (ok: bool)
      requires Valid()
      modifies this, changelog
      ensures Valid() && history == Make(config, old(history), BufferWrite(e))
      ensures ok <==>
              && config.backgroundMode
              && old(phase) == Building
              && TotalSize(old(changelog.entries) + [e]) <= config.budget
      ensures changelog.entries == if ok then old(changelog.entries) + [e] else old(changelog.entries)
      ensures history.accepted == if ok then old(history.accepted) + [e] else old(history.accepted)
      ensures phase == old(phase)
    {
      ok := false;
      if config.backgroundMode && phase == Building {
        ok := changelog.Append(e);
      }
      history := Make(config, history, BufferWrite(e));
    }

    /** Runs the applier over the buffered writes in order until it refuses one. */
    method Apply(applier: ChangelogEntry -> bool) returns (ok: bool, applied: seq<ChangelogEntry>)
      requires Valid()
      modifies this, changelog
      ensures Valid()
      ensures old(phase) != Building ==> !ok && history == old(history) && applied == []
      ensures old(phase) != Building ==> phase == old(phase) && changelog.entries == old(changelog.entries)
      ensures old(phase) == Building ==>
                && applied <= old(changelog.entries)
                && (forall i :: 0 <= i < |applied| ==> applier(applied[i]))
                && (|applied| < |old(changelog.entries)| ==> !applier(old(changelog.entries)[|applied|]))
                && history == Make(config, old(history), ApplyChangelog(|applied|))
                && (ok <==> applied == old(changelog.entries))
                && history.applied == old(history.applied) + applied
                && phase == (if ok then ApplyingChangelog else Failed)
                && changelog.entries == if ok then [] else old(changelog.entries)
    {
      applied := [];
      if phase != Building {
        return false, applied;
      }
      phase := ApplyingChangelog;
      var i := 0;
      while i < |changelog.entries| && applier(changelog.entries[i])
        invariant 0 <= i <= |changelog.entries|
        invariant applied == changelog.entries[..i]
        invariant forall j :: 0 <= j < i ==> applier(applied[j])
      {
        applied := applied + [changelog.entries[i]];
        i := i + 1;
      }
      history := Make(config, history, ApplyChangelog(i));
      ok := i == |changelog.entries|;
      if !ok {
        phase := Failed;
        return;
      }
      changelog.Clear();
    }

    method Swap(throws: bool) returns (ok: bool)
      requires Valid()
      modifies this
      ensures Valid() && history == Make(config, old(history), AtomicSwap(throws))
      ensures ok <==> old(phase) == ApplyingChangelog && !throws
      ensures phase == if old(phase) != ApplyingChangelog then old(phase) else if throws then Failed else Complete
      ensures history.swaps == old(history.swaps) + if old(phase) == ApplyingChangelog then 1 else 0
    {
      history := Make(config, history, AtomicSwap(throws));
      if phase != ApplyingChangelog {
        return false;
      }
      phase := Swapping;
      if throws {
        phase := Failed;
        return false;
      }
      phase := Complete;
      ok := true;
    }
  }
}
