/** The audit log's producer/writer protocol, as interleaved steps.
    Models `log`, `start`, `stop` and `drainLoop` of Enterprise/Audit/AuditLogger.cpp. */
module AuditLog {
  datatype Event = Event(timestamp: string, server: string, topic: string, username: string,
                         database: string, clientIp: string, authMethod: string, text: string)

  /** Where the writer thread is. */
  datatype Pc = NotStarted | AtSwap | Writing | CheckRunning | CheckBuffer | AtFinalSwap | FinalWriting | Done

  /** The logger, with its history: all events logged, in the order of their locked appends, all
      written, and how many had been logged when `stop` was called. */
  datatype Logger = Logger(buffer: seq<Event>, batch: seq<Event>, running: bool, pc: Pc,
                           logged: seq<Event>, written: seq<Event>, stopMark: Mark)

  datatype Mark = Unset | At(count: nat)

  const FRESH := Logger([], [], false, NotStarted, [], [], Unset)

  /** A producer's append, the owner's start and stop, or the writer's next move. The writer may
      wake at any time: on an event, on the stop, or on its timeout. */
  datatype Step = Log(event: Event) | Start | Stop | Write

  function WriterMove(l: Logger): Logger {
    match l.pc
    case NotStarted => l
    case AtSwap => l.(batch := l.buffer, buffer := [], pc := Writing)
    case Writing =>
      if l.batch == [] then l.(pc := CheckRunning)
      else l.(written := l.written + [l.batch[0]], batch := l.batch[1..])
    case CheckRunning => l.(pc := if l.running then AtSwap else CheckBuffer)
    case CheckBuffer => l.(pc := if l.buffer == [] then AtFinalSwap else AtSwap)
    case AtFinalSwap => l.(batch := l.buffer, buffer := [], pc := FinalWriting)
    case FinalWriting =>
      if l.batch == [] then l.(pc := Done)
      else l.(written := l.written + [l.batch[0]], batch := l.batch[1..])
    case Done => l
  }

  function Take(l: Logger, s: Step): Logger {
    match s
    case Log(e) => l.(buffer := l.buffer + [e], logged := l.logged + [e])
    case Start => if l.pc == NotStarted then l.(running := true, pc := AtSwap) else l
    case Stop =>
      if l.pc == NotStarted || l.stopMark.At? then l
      else l.(running := false, stopMark := At(|l.logged|))
    case Write => WriterMove(l)
  }

  function Run(steps: seq<Step>): Logger {
    if steps == [] then FRESH else Take(Run(steps[..|steps| - 1]), steps[|steps| - 1])
  }

  /** Nothing is lost, repeated or reordered: written, then the rest of the batch, then the buffer. */
  ghost predicate Fifo(l: Logger) {
    l.written + l.batch + l.buffer == l.logged
  }

  ghost predicate Staged(l: Logger) {
    && (l.pc in {NotStarted, AtSwap, CheckRunning, CheckBuffer, AtFinalSwap, Done} ==> l.batch == [])
    && (l.pc != NotStarted ==> (l.running <==> l.stopMark == Unset))
    && (l.pc == NotStarted ==> l.stopMark == Unset)
    && (l.pc in {CheckBuffer, AtFinalSwap, FinalWriting, Done} ==> l.stopMark.At?)
    && (l.stopMark.At? ==> l.stopMark.count <= |l.logged|)
    && (l.pc in {FinalWriting, Done} && l.stopMark.At? ==> l.stopMark.count <= |l.written| + |l.batch|)
  }

  lemma StepKeeps(l: Logger, s: Step)
    requires Fifo(l) && Staged(l)
    ensures Fifo(Take(l, s)) && Staged(Take(l, s))
  {
    match s
    case Log(e) =>
      assert l.written + l.batch + (l.buffer + [e]) == l.written + l.batch + l.buffer + [e];
    case Write =>
      if l.pc in {Writing, FinalWriting} && l.batch != [] {
        assert l.batch == [l.batch[0]] + l.batch[1..];
        assert l.written + [l.batch[0]] + l.batch[1..] + l.buffer == l.written + l.batch + l.buffer;
      } else if l.pc in {AtSwap, AtFinalSwap} {
        assert l.written + l.buffer + [] == l.written + [] + l.buffer;
      }
    case _ =>
  }

  /** First in, first out, in every reachable state. */
  lemma {:induction false} EveryRunIsFifo(steps: seq<Step>)
    ensures Fifo(Run(steps)) && Staged(Run(steps))
  {
    if steps != [] {
      var m := |steps| - 1;
      EveryRunIsFifo(steps[..m]);
      StepKeeps(Run(steps[..m]), steps[m]);
    }
  }

  lemma {:induction false} MarkStays(steps: seq<Step>, more: seq<Step>)
    requires Run(steps).stopMark.At?
    ensures Run(steps + more).stopMark == Run(steps).stopMark
    ensures Run(steps).logged <= Run(steps + more).logged
    decreases |more|
  {
    if more == [] {
      assert steps + more == steps;
    } else {
      var m := |more| - 1;
      MarkStays(steps, more[..m]);
      assert (steps + more)[..|steps + more| - 1] == steps + more[..m];
    }
  }

  /** When `stop` returns - the writer is done - every event logged before `stop` was called has
      been written, in log order. */
  lemma StopWritesEverythingBefore(before: seq<Step>, after: seq<Step>)
    requires Run(before).pc != NotStarted && Run(before).stopMark == Unset
    requires Run(before + [Stop] + after).pc == Done
    ensures Run(before).logged <= Run(before + [Stop] + after).written
  {
    var steps := before + [Stop];
    assert steps[..|before|] == before;
    EveryRunIsFifo(before);
    MarkStays(steps, after);
    EveryRunIsFifo(steps + after);
    var l := Run(steps + after);
    assert l.written == l.logged[..|l.written|];
    assert Run(before).logged == l.logged[..|Run(before).logged|];
  }

  // ---------- what a run's steps do ----------

  lemma RunSnoc(steps: seq<Step>, s: Step)
    ensures Run(steps + [s]) == Take(Run(steps), s)
  {
    assert (steps + [s])[..|steps|] == steps;
  }

  /** The events of the log calls among the steps. */
  function LogCalls(steps: seq<Step>): seq<Event> {
    if steps == [] then [] else
      LogCalls(steps[..|steps| - 1]) + if steps[|steps| - 1].Log? then [steps[|steps| - 1].event] else []
  }

  lemma NothingElseLogs(l: Logger, s: Step)
    ensures Take(l, s).logged == l.logged + if s.Log? then [s.event] else []
  {
  }

  /** Every log call of a run is taken, in order, whether the logger was started or not. */
  lemma {:induction false} LoggedAreLogCalls(steps: seq<Step>)
    ensures Run(steps).logged == LogCalls(steps)
  {
    if steps != [] {
      var m := |steps| - 1;
      LoggedAreLogCalls(steps[..m]);
      NothingElseLogs(Run(steps[..m]), steps[m]);
    }
  }

  lemma StartStep(l: Logger, s: Step)
    ensures Take(l, s).pc != NotStarted <==> l.pc != NotStarted || s == Start
  {
  }

  lemma LastOr(steps: seq<Step>, s: Step)
    requires steps != []
    ensures s in steps <==> s in steps[..|steps| - 1] || steps[|steps| - 1] == s
  {
    assert steps == steps[..|steps| - 1] + [steps[|steps| - 1]];
  }

  /** The writer has started if and only if `start` was called. */
  lemma {:induction false} StartedIff(steps: seq<Step>)
    ensures Run(steps).pc != NotStarted <==> Start in steps
  {
    if steps != [] {
      var m := |steps| - 1;
      StartedIff(steps[..m]);
      StartStep(Run(steps[..m]), steps[m]);
      LastOr(steps, Start);
    }
  }

  /** Called on a logger that was started, `stop` ends the running and marks where the log stood; the
      first call counts. Called before `start` it does nothing. */
  lemma StopIsTaken(steps: seq<Step>)
    ensures Start in steps ==>
              && !Run(steps + [Stop]).running
              && Run(steps + [Stop]).stopMark ==
                 if Run(steps).running then At(|LogCalls(steps)|) else Run(steps).stopMark
    ensures Start !in steps ==> Run(steps + [Stop]) == Run(steps)
  {
    RunSnoc(steps, Stop);
    StartedIff(steps);
    LoggedAreLogCalls(steps);
    EveryRunIsFifo(steps);
  }

  /** A logger runs from its first `start` to the next `stop`. */
  lemma RunningMoves(steps: seq<Step>, s: Step)
    ensures s == Start && Start !in steps ==> Run(steps + [s]).running
    ensures s != Start && s != Stop ==> (Run(steps + [s]).running <==> Run(steps).running)
    ensures s == Start && Start in steps ==> Run(steps + [s]) == Run(steps)
  {
    RunSnoc(steps, s);
    StartedIff(steps);
  }

  /** How far the writer is from its next batch. */
  function Distance(l: Logger): nat {
    match l.pc
    case AtSwap => 1
    case CheckRunning => 2
    case Writing => if l.batch == [] then 3 else 0
    case _ => 0
  }

  lemma RunningWriterProgresses(l: Logger)
    requires Staged(l) && l.running && l.pc != NotStarted && l.batch + l.buffer != []
    ensures var m := WriterMove(l);
            && m.logged == l.logged
            && (|m.batch| + |m.buffer| < |l.batch| + |l.buffer|
                || (|m.batch| + |m.buffer| == |l.batch| + |l.buffer| && Distance(m) < Distance(l)))
            && m.running && m.pc != NotStarted
  {
  }

  function Writes(n: nat): seq<Step> {
    seq(n, _ => Write)
  }

  lemma NoWrites(steps: seq<Step>)
    ensures steps + Writes(0) == steps
  {
  }

  lemma OneWriteFirst(steps: seq<Step>, n: nat)
    ensures steps + Writes(n + 1) == steps + [Write] + Writes(n)
  {
  }

  /** While the logger runs, the writer left to itself gets everything written. */
  lemma {:induction false} RunningWriterCatchesUp(steps: seq<Step>) returns (n: nat)
    requires Run(steps).running && Start in steps
    ensures Run(steps + Writes(n)).written == LogCalls(steps)
    decreases |Run(steps).batch| + |Run(steps).buffer|, Distance(Run(steps))
  {
    hide WriterMove, Staged, Writes, Distance, LogCalls;
    var l := Run(steps);
    EveryRunIsFifo(steps);
    StartedIff(steps);
    LoggedAreLogCalls(steps);
    if l.batch + l.buffer == [] {
      n := 0;
      NoWrites(steps);
      assert l.written == l.logged;
    } else {
      RunningWriterProgresses(l);
      RunSnoc(steps, Write);
      LoggedAreLogCalls(steps + [Write]);
      var rest := RunningWriterCatchesUp(steps + [Write]);
      n := rest + 1;
      OneWriteFirst(steps, rest);
    }
  }

  // ---------- stop does return ----------

  /** How many moves the writer of a stopped logger has left if nobody logs any more. */
  function Remaining(l: Logger): nat {
    |l.batch| + |l.buffer|
    + (if l.pc in {Writing, CheckRunning, CheckBuffer} && l.buffer != [] then 4 else 0)
    + match l.pc
      case NotStarted => 0
      case AtSwap => 6
      case Writing => 5
      case CheckRunning => 4
      case CheckBuffer => 3
      case AtFinalSwap => 2
      case FinalWriting => 1
      case Done => 0
  }

  lemma WriterProgresses(l: Logger)
    requires Staged(l) && !l.running && l.pc !in {NotStarted, Done}
    ensures var m := WriterMove(l); !m.running && m.pc != NotStarted && Remaining(m) < Remaining(l)
  {
  }

  /** After a stop, the writer left to itself reaches its end, so the join in `stop` returns. */
  lemma {:induction false} StoppedWriterEnds(steps: seq<Step>) returns (n: nat)
    requires Run(steps).stopMark.At?
    ensures Run(steps + Writes(n)).pc == Done
    decreases Remaining(Run(steps))
  {
    var l := Run(steps);
    EveryRunIsFifo(steps);
    if l.pc == Done {
      n := 0;
      NoWrites(steps);
    } else {
      WriterProgresses(l);
      assert (steps + [Write])[..|steps|] == steps;
      var rest := StoppedWriterEnds(steps + [Write]);
      n := rest + 1;
      OneWriteFirst(steps, rest);
    }
  }
}
