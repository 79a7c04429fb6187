/** What the applier's buffer holds when writes fail: messages ahead of their shard's sequence, and
    copies of messages already written, which a failed drain left behind.
    Models `applyLocked` and `drainBuffered` of Enterprise/Replication/ReplicationApplier.cpp. */
module StaleEntries {
  import opened Words
  import opened ReplicationApplier

  /** The buffer of s holds only messages that are ahead of its sequence. */
  ghost predicate OutOfOrderOnly(st: State, s: string) {
    forall k :: k in Buffered(st, s) ==> k > Last(st, s)
  }

  /** The next message of s is in its buffer. */
  predicate Waiting(st: State, s: string) {
    Succ(Last(st, s)) in Buffered(st, s)
  }

  predicate WritesDirectly(env: Env, st: State, m: Message) {
    && !env.satellite(m.shard) && m.sequence > Last(st, m.shard)
    && m.sequence == Succ(Last(st, m.shard)) && env.outcome(st.attempts) == 0
  }

  /** The drain loop ends because a write failed. */
  predicate DrainFails(env: Env, st: State, s: string)
    decreases |Buffered(st, s)|
  {
    && s in st.buffer && Waiting(st, s)
    && (env.outcome(st.attempts) != 0 || DrainFails(env, DrainOne(st, s), s))
  }

  // ---------- two kinds of mishap, and the runs that meet them ----------

  /** A message is written while its copy is buffered; a drain is cut short by a failed write. */
  datatype Mishap = StaleWrite | FailedDrain

  predicate InMessage(kind: Mishap, env: Env, st: State, m: Message, s: string) {
    && m.shard == s && WritesDirectly(env, st, m)
    && match kind
       case StaleWrite => m.sequence in Buffered(st, s)
       case FailedDrain => DrainFails(env, Applied(st, s, m.sequence, m), s)
  }

  predicate InBatch(kind: Mishap, env: Env, st: State, ms: seq<Message>, s: string)
    decreases |ms|
  {
    && ms != []
    && (|| InMessage(kind, env, st, ms[0], s)
        || (ApplyLocked(env, st, ms[0]).1 == 0 && InBatch(kind, env, ApplyLocked(env, st, ms[0]).0, ms[1..], s)))
  }

  predicate InEvent(kind: Mishap, env: Env, st: State, e: Event, s: string) {
    match e
    case Deliver(m) => InMessage(kind, env, st, m, s)
    case Batch(ms) => InBatch(kind, env, st, ms, s)
    case DrainShard(t) => kind == FailedDrain && t == s && DrainFails(env, st, s)
  }

  /** The run has met such a mishap in shard s. */
  predicate Ever(kind: Mishap, env: Env, events: seq<Event>, s: string) {
    && events != []
    && (|| Ever(kind, env, events[..|events| - 1], s)
        || InEvent(kind, env, Run(env, events[..|events| - 1]), events[|events| - 1], s))
  }

  // ---------- stale copies come from stale writes, and never leave ----------

  lemma DrainOneKeepsOld(st: State, s: string)
    requires s in st.buffer && 0 !in st.buffer[s] && Succ(Last(st, s)) in st.buffer[s]
    ensures OutOfOrderOnly(DrainOne(st, s), s) <==> OutOfOrderOnly(st, s)
  {
    var next, st1 := Succ(Last(st, s)), DrainOne(st, s);
    assert next in st.buffer[s].Keys && next == Last(st, s) + 1;
    assert Buffered(st1, s).Keys == Buffered(st, s).Keys - {next};
    if OutOfOrderOnly(st1, s) {
      forall k | k in Buffered(st, s) ensures k > Last(st, s) {
        if k != next { assert k in Buffered(st1, s).Keys; }
      }
    }
    if OutOfOrderOnly(st, s) {
      forall k | k in Buffered(st1, s) ensures k > next {
        assert k in Buffered(st1, s).Keys;
        assert k in Buffered(st, s);
      }
    }
  }

  lemma {:induction false} DrainLoopKeepsOld(env: Env, st: State, s: string)
    requires s in st.buffer && 0 !in st.buffer[s]
    ensures OutOfOrderOnly(DrainLoop(env, st, s), s) <==> OutOfOrderOnly(st, s)
    decreases |st.buffer[s]|
  {
    if DrainStops(env, st, s) {
      StoppingShowsNothing(env, st, s);
    } else {
      DrainOneKeepsOld(st, s);
      DrainLoopKeepsOld(env, DrainOne(st, s), s);
    }
  }

  lemma BufferingKeepsOld(st: State, st1: State, m: Message)
    requires m.sequence > Last(st, m.shard) == Last(st1, m.shard)
    requires Buffered(st1, m.shard) == Buffered(st, m.shard)[m.sequence := m]
    ensures OutOfOrderOnly(st1, m.shard) <==> OutOfOrderOnly(st, m.shard)
  {
    if OutOfOrderOnly(st1, m.shard) {
      forall k | k in Buffered(st, m.shard) ensures k > Last(st, m.shard) {
        assert k in Buffered(st1, m.shard);
      }
    }
  }

  lemma DirectWriteStale(env: Env, st: State, m: Message)
    requires 0 !in Buffered(st, m.shard) && m.sequence == Last(st, m.shard) + 1
    ensures OutOfOrderOnly(Drain(env, Applied(st, m.shard, m.sequence, m), m.shard), m.shard) <==>
            OutOfOrderOnly(st, m.shard) && m.sequence !in Buffered(st, m.shard)
  {
    var s := m.shard;
    var st2 := Applied(st, s, m.sequence, m);
    assert Buffered(st2, s) == Buffered(st, s) && Last(st2, s) == m.sequence;
    if s in st2.buffer {
      assert 0 !in st2.buffer[s];
      DrainLoopKeepsOld(env, st2, s);
    }
  }

  /** A delivery leaves a stale copy in the buffer exactly if one was there before, or if it writes
      a message whose copy is buffered. */
  lemma StaleEntryExactly(env: Env, src: Source, st: State, m: Message)
    requires WellNumbered(src) && Safe(env, src, st) && FromSource(src, m) && !env.satellite(m.shard)
    ensures OutOfOrderOnly(ApplyLocked(env, st, m).0, m.shard) <==>
            OutOfOrderOnly(st, m.shard) && !InMessage(StaleWrite, env, st, m, m.shard)
  {
    var s := m.shard;
    var st1 := ApplyLocked(env, st, m).0;
    assert ShardSafe(env, src, st, s) && NumberedLog(s, src(s));
    if m.sequence <= Last(st, s) {
      assert Last(st1, s) == Last(st, s) && Buffered(st1, s) == Buffered(st, s);
    } else if m.sequence != Succ(Last(st, s)) {
      BufferingKeepsOld(st, st1, m);
    } else if env.outcome(st.attempts) != 0 {
      assert Last(st1, s) == Last(st, s) && Buffered(st1, s) == Buffered(st, s);
    } else {
      DirectWriteStale(env, st, m);
    }
  }

  lemma SafeWhateverTheOutcome(env: Env, src: Source, st: State, outcome: nat -> int)
    requires Safe(env, src, st)
    ensures Safe(Env(env.satellite, outcome), src, st)
  {
    forall s ensures ShardSafe(Env(env.satellite, outcome), src, st, s) {
      assert ShardSafe(env, src, st, s);
    }
  }

  /** What a caller can tell before a delivery: whatever the write callback will answer, no stale
      copy comes of it, if and only if the message is not the next one with its copy buffered. */
  lemma StaleRiskIff(env: Env, src: Source, st: State, m: Message)
    requires WellNumbered(src) && Safe(env, src, st) && FromSource(src, m) && !env.satellite(m.shard)
    requires OutOfOrderOnly(st, m.shard)
    ensures (forall outcome: nat -> int ::
               OutOfOrderOnly(ApplyLocked(Env(env.satellite, outcome), st, m).0, m.shard)) <==>
            !(m.sequence == Succ(Last(st, m.shard)) && Waiting(st, m.shard))
  {
    var s := m.shard;
    assert ShardSafe(env, src, st, s) && NumberedLog(s, src(s));
    forall outcome: nat -> int
      ensures OutOfOrderOnly(ApplyLocked(Env(env.satellite, outcome), st, m).0, s) <==>
              !InMessage(StaleWrite, Env(env.satellite, outcome), st, m, s)
    {
      SafeWhateverTheOutcome(env, src, st, outcome);
      StaleEntryExactly(Env(env.satellite, outcome), src, st, m);
    }
    var succeeds: nat -> int := _ => 0;
    assert InMessage(StaleWrite, Env(env.satellite, succeeds), st, m, s) <==>
           m.sequence == Succ(Last(st, s)) && Waiting(st, s);
    assert OutOfOrderOnly(ApplyLocked(Env(env.satellite, succeeds), st, m).0, s) <==>
           !InMessage(StaleWrite, Env(env.satellite, succeeds), st, m, s);
  }

  lemma MessageStale(env: Env, src: Source, st: State, m: Message, s: string)
    requires WellNumbered(src) && Safe(env, src, st) && FromSource(src, m) && !env.satellite(s)
    ensures OutOfOrderOnly(ApplyLocked(env, st, m).0, s) <==>
            OutOfOrderOnly(st, s) && !InMessage(StaleWrite, env, st, m, s)
  {
    if m.shard == s {
      StaleEntryExactly(env, src, st, m);
    } else {
      ApplyOtherShard(env, st, m, s);
    }
  }

  lemma {:induction false} BatchStale(env: Env, src: Source, st: State, ms: seq<Message>, s: string)
    requires WellNumbered(src) && Safe(env, src, st) && AllFromSource(src, ms) && !env.satellite(s)
    ensures OutOfOrderOnly(ApplyBatch(env, st, ms), s) <==>
            OutOfOrderOnly(st, s) && !InBatch(StaleWrite, env, st, ms, s)
    decreases |ms|
  {
    if ms != [] {
      MessageStale(env, src, st, ms[0], s);
      ApplyLockedIsSafe(env, src, st, ms[0]);
      BatchStale(env, src, ApplyLocked(env, st, ms[0]).0, ms[1..], s);
    }
  }

  lemma EventStale(env: Env, src: Source, st: State, e: Event, s: string)
    requires WellNumbered(src) && Safe(env, src, st) && AllFromSource(src, MessagesOf(e)) && !env.satellite(s)
    ensures OutOfOrderOnly(Step(env, st, e), s) <==>
            OutOfOrderOnly(st, s) && !InEvent(StaleWrite, env, st, e, s)
  {
    match e
    case Deliver(m) =>
      assert m == MessagesOf(e)[0];
      MessageStale(env, src, st, m, s);
    case Batch(ms) => BatchStale(env, src, st, ms, s);
    case DrainShard(t) =>
      assert ShardSafe(env, src, st, s);
      assert 0 !in Buffered(st, s);
      if t in st.buffer {
        if t == s { DrainLoopKeepsOld(env, st, s); } else { OtherShardUnmoved(env, st, t, s); }
      }
  }

  /** Over every run: the buffer of a shard holds only messages ahead of its sequence if and only if
      no step wrote a message whose copy was buffered. */
  lemma {:induction false} RunIsTightIff(env: Env, src: Source, events: seq<Event>, s: string)
    requires WellNumbered(src) && EventsFromSource(src, events) && !env.satellite(s)
    ensures OutOfOrderOnly(Run(env, events), s) <==> !Ever(StaleWrite, env, events, s)
  {
    if events != [] {
      var n := |events| - 1;
      RunIsTightIff(env, src, events[..n], s);
      RunIsSafe(env, src, events[..n]);
      EventStale(env, src, Run(env, events[..n]), events[n], s);
    }
  }

  // ---------- and only failed drains make them possible ----------

  /** After a drain the next message is still buffered exactly if a write failed. */
  lemma {:induction false} DrainLeavesWaiting(env: Env, st: State, s: string)
    requires s in st.buffer
    ensures Waiting(DrainLoop(env, st, s), s) <==> DrainFails(env, st, s)
    decreases |st.buffer[s]|
  {
    if DrainStops(env, st, s) {
      StoppingShowsNothing(env, st, s);
    } else {
      DrainLeavesWaiting(env, DrainOne(st, s), s);
    }
  }

  lemma MessageWaits(env: Env, st: State, m: Message, s: string)
    requires Waiting(ApplyLocked(env, st, m).0, s) && !Waiting(st, s)
    ensures InMessage(FailedDrain, env, st, m, s)
  {
    if m.shard != s {
      ApplyOtherShard(env, st, m, s);
    } else if WritesDirectly(env, st, m) {
      var st2 := Applied(st, s, m.sequence, m);
      if s in st.buffer { DrainLeavesWaiting(env, st2, s); }
    }
  }

  /** If the next message is waiting only after an earlier failed drain, the same holds behind a
      batch, and every stale write of the batch comes after a failed drain. */
  lemma {:induction false} BatchWaits(env: Env, st: State, ms: seq<Message>, s: string, failed: bool)
    requires Waiting(st, s) ==> failed
    ensures Waiting(ApplyBatch(env, st, ms), s) ==> failed || InBatch(FailedDrain, env, st, ms, s)
    ensures InBatch(StaleWrite, env, st, ms, s) ==> failed || InBatch(FailedDrain, env, st, ms, s)
    decreases |ms|
  {
    if ms != [] && !failed && !InMessage(FailedDrain, env, st, ms[0], s) {
      var st1 := ApplyLocked(env, st, ms[0]).0;
      if Waiting(st1, s) { MessageWaits(env, st, ms[0], s); }
      BatchWaits(env, st1, ms[1..], s, false);
    }
  }

  lemma EventWaits(env: Env, st: State, e: Event, s: string, failed: bool)
    requires Waiting(st, s) ==> failed
    ensures Waiting(Step(env, st, e), s) || InEvent(StaleWrite, env, st, e, s) ==>
              failed || InEvent(FailedDrain, env, st, e, s)
  {
    match e
    case Deliver(m) => if Waiting(Step(env, st, e), s) && !Waiting(st, s) { MessageWaits(env, st, m, s); }
    case Batch(ms) => BatchWaits(env, st, ms, s, failed);
    case DrainShard(t) =>
      if t in st.buffer {
        if t == s { DrainLeavesWaiting(env, st, s); } else { OtherShardUnmoved(env, st, t, s); }
      }
  }

  /** In every run the next message of a shard lies in its buffer only after a failed drain write,
      and so does everything stale. */
  lemma {:induction false} StaleNeedsFailedDrain(env: Env, events: seq<Event>, s: string)
    ensures Waiting(Run(env, events), s) ==> Ever(FailedDrain, env, events, s)
    ensures Ever(StaleWrite, env, events, s) ==> Ever(FailedDrain, env, events, s)
  {
    if events != [] {
      var n := |events| - 1;
      StaleNeedsFailedDrain(env, events[..n], s);
      EventWaits(env, Run(env, events[..n]), events[n], s, Ever(FailedDrain, env, events[..n], s));
    }
  }

  // ---------- a run that shows it ----------

  function TwoMessages(s: string): seq<Message> {
    [Message(s, 1, Insert, [], "a", ""), Message(s, 2, Insert, [], "b", "")]
  }

  predicate SecondFails(env: Env, s: string) {
    !env.satellite(s) && env.outcome(0) == 0 && env.outcome(1) != 0 && env.outcome(2) == 0
  }

  lemma EarlyArrival(env: Env, s: string, a: State)
    requires SecondFails(env, s) && a == Step(env, INITIAL, Deliver(TwoMessages(s)[1]))
    ensures a == INITIAL.(buffer := map[s := map[2 := TwoMessages(s)[1]]])
  {
  }

  /** Message 1 is written; the drain behind it tries message 2 and fails. */
  lemma FailedDrainLeaves(env: Env, s: string, a: State, b: State)
    requires SecondFails(env, s) && a == INITIAL.(buffer := map[s := map[2 := TwoMessages(s)[1]]])
    requires b == Step(env, a, Deliver(TwoMessages(s)[0]))
    ensures Last(b, s) == 1 && b.buffer == a.buffer && b.attempts == 2
  {
    var one := TwoMessages(s)[0];
    var written := Applied(a, s, 1, one);
    SuccIsNext(0);
    SuccIsNext(1);
    assert Last(written, s) == 1 && 2 in written.buffer[s];
    assert DrainLoop(env, written, s) == Touched(written, s).(attempts := 2);
  }

  lemma DeliveredAgain(env: Env, s: string, b: State)
    requires SecondFails(env, s) && Last(b, s) == 1 && b.attempts == 2
    requires b.buffer == map[s := map[2 := TwoMessages(s)[1]]]
    ensures var c := Step(env, b, Deliver(TwoMessages(s)[1])); Last(c, s) == 2 && Buffered(c, s).Keys == {2}
  {
    var two := TwoMessages(s)[1];
    var written := Applied(b, s, 2, two);
    SuccIsNext(1);
    SuccIsNext(2);
    var buf: map<U64, Message> := map[2 := two];
    assert written.buffer[s] == buf && buf.Keys == {2};
    assert Last(written, s) == 2;
    assert DrainLoop(env, written, s) == Touched(written, s);
  }

  /** Message 2 arrives early, its drain behind message 1 fails, and it is delivered again: both
      messages are written, and a copy of the second stays buffered. */
  lemma StaleIsReachable(s: string) returns (env: Env, events: seq<Event>)
    ensures WellNumbered(TwoMessages) && EventsFromSource(TwoMessages, events) && !env.satellite(s)
    ensures Last(Run(env, events), s) == 2 && Buffered(Run(env, events), s).Keys == {2}
  {
    env := Env(_ => false, n => if n == 1 then 1 else 0);
    var one, two := TwoMessages(s)[0], TwoMessages(s)[1];
    events := [Deliver(two), Deliver(one), Deliver(two)];
    var a := Step(env, INITIAL, Deliver(two));
    var b := Step(env, a, Deliver(one));
    EarlyArrival(env, s, a);
    FailedDrainLeaves(env, s, a, b);
    DeliveredAgain(env, s, b);
    assert Run(env, events[..0]) == INITIAL;
    assert events[..1][..0] == events[..0] && Run(env, events[..1]) == a;
    assert events[..2][..1] == events[..1] && Run(env, events[..2]) == b;
    assert events[..3] == events && Run(env, events) == Step(env, b, Deliver(two));
  }
}
