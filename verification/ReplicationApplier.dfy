/** The target side of replication: ordered, idempotent apply with out-of-order buffering.
    Models Enterprise/Replication/ReplicationApplier.cpp. The mutex makes every call atomic. */
module ReplicationApplier {
  import opened Words

  function Succ(n: U64): U64 {
    (n + 1) % TWO64
  }

  lemma SuccIsNext(n: U64)
    requires n + 1 < TWO64
    ensures Succ(n) == n + 1
  {
  }

  datatype Operation = Insert | Update | Remove | Truncate

  datatype Message = Message(shard: string, sequence: U64, operation: Operation,
                             payload: seq<bv8>, key: string, rev: string)

  /** What the write callback is handed. */
  datatype Write = Write(collection: string, operation: Operation, payload: seq<bv8>, key: string)

  function WriteOf(m: Message): Write {
    Write(m.shard, m.operation, m.payload, m.key)
  }

  /** The two callbacks: which shards are satellites, and what the n-th write attempt returns. */
  datatype Env = Env(satellite: string -> bool, outcome: nat -> int)

  /** The applier's fields, and the writes that succeeded so far. */
  datatype State = State(lastApplied: map<string, U64>, buffer: map<string, map<U64, Message>>,
                         totalApplied: nat, duplicates: nat, satelliteSkipped: nat,
                         attempts: nat, log: seq<Write>)

  const INITIAL := State(map[], map[], 0, 0, 0, 0, [])

  function Last(st: State, s: string): U64 {
    if s in st.lastApplied then st.lastApplied[s] else 0
  }

  function Buffered(st: State, s: string): map<U64, Message> {
    if s in st.buffer then st.buffer[s] else map[]
  }

  // ---------- one call, as a function of the state ----------

  /** The state after message m of shard s was written and its sequence recorded. */
  function Applied(st: State, s: string, sequence: U64, m: Message): State {
    st.(lastApplied := st.lastApplied[s := sequence], totalApplied := st.totalApplied + 1,
        attempts := st.attempts + 1, log := st.log + [WriteOf(m)])
  }

  function Erased(buf: map<U64, Message>, next: U64): (rest: map<U64, Message>)
    requires next in buf
    ensures rest.Keys == buf.Keys - {next} && |rest| < |buf|
  {
    var rest := buf - {next};
    assert next in buf.Keys && rest.Keys == buf.Keys - {next};
    assert |rest| == |rest.Keys| < |buf.Keys| == |buf|;
    rest
  }

  /** One turn of the drain loop that writes: the next message leaves the buffer. */
  function DrainOne(st: State, s: string): (r: State)
    requires s in st.buffer && Succ(Last(st, s)) in st.buffer[s]
    ensures s in r.buffer && |r.buffer[s]| < |st.buffer[s]|
    ensures r.buffer[s].Keys == st.buffer[s].Keys - {Succ(Last(st, s))}
    ensures Last(r, s) == Succ(Last(st, s))
  {
    var next := Succ(Last(st, s));
    Applied(st, s, next, st.buffer[s][next]).(buffer := st.buffer[s := Erased(st.buffer[s], next)])
  }

  /** Indexing `_lastApplied` inserts a zero for a shard not yet in it. */
  function Touched(st: State, s: string): State {
    st.(lastApplied := st.lastApplied[s := Last(st, s)])
  }

  lemma TouchedDrainsAlike(st: State, s: string)
    requires s in st.buffer && Succ(Last(st, s)) in st.buffer[s]
    ensures DrainOne(Touched(st, s), s) == DrainOne(st, s)
  {
    assert Touched(st, s).lastApplied[s := Succ(Last(st, s))] == st.lastApplied[s := Succ(Last(st, s))];
  }

  /** The drain loop. */
  function DrainLoop(env: Env, st: State, s: string): State
    requires s in st.buffer
    decreases |st.buffer[s]|
  {
    if st.buffer[s] == map[] then st.(buffer := st.buffer - {s})
    else
      if Succ(Last(st, s)) !in st.buffer[s] then Touched(st, s)
      else if env.outcome(st.attempts) != 0 then Touched(st, s).(attempts := st.attempts + 1)
      else DrainLoop(env, DrainOne(st, s), s)
  }

  predicate DrainStops(env: Env, st: State, s: string)
    requires s in st.buffer
  {
    st.buffer[s] == map[] || Succ(Last(st, s)) !in st.buffer[s] || env.outcome(st.attempts) != 0
  }

  lemma DrainLoopStep(env: Env, st: State, s: string)
    requires s in st.buffer && !DrainStops(env, st, s)
    ensures DrainLoop(env, st, s) == DrainLoop(env, DrainOne(st, s), s)
  {
  }

  /** Leaving the loop changes nothing a caller can see. */
  lemma StoppingShowsNothing(env: Env, st: State, s: string)
    requires s in st.buffer && DrainStops(env, st, s)
    ensures var r := DrainLoop(env, st, s);
            && r.log == st.log && r.totalApplied == st.totalApplied
            && (r.lastApplied == st.lastApplied || r.lastApplied == st.lastApplied[s := Last(st, s)])
            && r.buffer.Keys <= st.buffer.Keys
            && (forall t :: Last(r, t) == Last(st, t))
            && (forall t :: Buffered(r, t) == Buffered(st, t))
  {
  }

  function Drain(env: Env, st: State, s: string): State {
    if s in st.buffer then DrainLoop(env, st, s) else st
  }

  function ApplyLocked(env: Env, st: State, m: Message): (State, int) {
    var s := m.shard;
    if env.satellite(s) then (st.(satelliteSkipped := st.satelliteSkipped + 1), 0)
    else if m.sequence <= Last(st, s) then (st.(duplicates := st.duplicates + 1), 0)
    else if m.sequence != Succ(Last(st, s)) then
      (st.(buffer := st.buffer[s := Buffered(st, s)[m.sequence := m]]), 0)
    else if env.outcome(st.attempts) != 0 then
      (st.(attempts := st.attempts + 1), env.outcome(st.attempts))
    else (Drain(env, Applied(st, s, m.sequence, m), s), 0)
  }

  function ApplyBatch(env: Env, st: State, messages: seq<Message>): State
    decreases |messages|
  {
    if messages == [] then st else
      var (st1, rc) := ApplyLocked(env, st, messages[0]);
      if rc != 0 then st1 else ApplyBatch(env, st1, messages[1..])
  }

  /** Everything a caller can do, in any order. Loss, repetition and reordering by the channel
      are choices of which messages are delivered when. */
  datatype Event = Deliver(message: Message) | Batch(messages: seq<Message>) | DrainShard(shard: string)

  function Step(env: Env, st: State, e: Event): State {
    match e
    case Deliver(m) => ApplyLocked(env, st, m).0
    case Batch(ms) => ApplyBatch(env, st, ms)
    case DrainShard(s) => Drain(env, st, s)
  }

  function Run(env: Env, events: seq<Event>): State {
    if events == [] then INITIAL else Step(env, Run(env, events[..|events| - 1]), events[|events| - 1])
  }

  // ---------- the source ----------

  /** The source log of each shard. */
  type Source = string -> seq<Message>

  ghost predicate NumberedLog(s: string, log: seq<Message>) {
    && |log| < TWO64
    && forall i :: 0 <= i < |log| ==> log[i].shard == s && log[i].sequence == i + 1
  }

  /** Messages are numbered 1, 2, 3, ... within their shard. */
  ghost predicate WellNumbered(src: Source) {
    forall s :: NumberedLog(s, src(s))
  }

  ghost predicate FromSource(src: Source, m: Message) {
    1 <= m.sequence <= |src(m.shard)| && m == src(m.shard)[m.sequence - 1]
  }

  function MessagesOf(e: Event): seq<Message> {
    match e
    case Deliver(m) => [m]
    case Batch(ms) => ms
    case DrainShard(_) => []
  }

  ghost predicate AllFromSource(src: Source, messages: seq<Message>) {
    forall i :: 0 <= i < |messages| ==> FromSource(src, messages[i])
  }

  ghost predicate EventsFromSource(src: Source, events: seq<Event>) {
    forall i :: 0 <= i < |events| ==> AllFromSource(src, MessagesOf(events[i]))
  }

  // ---------- safety: under any loss, repetition, reordering and write failure ----------

  /** The successful writes of one shard, in order. */
  function WritesOf(log: seq<Write>, s: string): seq<Write> {
    if log == [] then [] else
      WritesOf(log[..|log| - 1], s) + if log[|log| - 1].collection == s then [log[|log| - 1]] else []
  }

  function WritesFrom(messages: seq<Message>): seq<Write> {
    seq(|messages|, i requires 0 <= i < |messages| => WriteOf(messages[i]))
  }

  ghost function Sum(m: map<string, U64>): nat {
    if m == map[] then 0 else
      var s :| s in m;
      m[s] + Sum(m - {s})
  }

  lemma {:induction false} SumPick(m: map<string, U64>, s: string)
    requires s in m
    ensures Sum(m) == m[s] + Sum(m - {s})
    decreases |m|
  {
    var t :| t in m && Sum(m) == m[t] + Sum(m - {t});
    if t != s {
      assert (m - {t}).Keys == m.Keys - {t};
      assert (m - {s}).Keys == m.Keys - {s};
      SumPick(m - {t}, s);
      SumPick(m - {s}, t);
      assert m - {t} - {s} == m - {s} - {t};
    }
  }

  lemma SumUpdate(m: map<string, U64>, s: string, v: U64)
    ensures Sum(m[s := v]) == Sum(m) - (if s in m then m[s] else 0) + v
  {
    SumPick(m[s := v], s);
    if s in m {
      SumPick(m, s);
      assert m[s := v] - {s} == m - {s};
    } else {
      assert m[s := v] - {s} == m;
    }
  }

  ghost predicate BufferSafe(src: Source, st: State, s: string) {
    forall k :: k in Buffered(st, s) ==> 1 <= k <= |src(s)| && Buffered(st, s)[k] == src(s)[k - 1]
  }

  /** What holds of one shard: its writes are its source messages 1..lastApplied in order, once
      each, and its buffer holds only messages of its source. */
  ghost predicate ShardSafe(env: Env, src: Source, st: State, s: string) {
    if env.satellite(s) then
      s !in st.lastApplied && s !in st.buffer && WritesOf(st.log, s) == []
    else
      && Last(st, s) <= |src(s)|
      && WritesOf(st.log, s) == WritesFrom(src(s)[..Last(st, s)])
      && BufferSafe(src, st, s)
  }

  ghost predicate Safe(env: Env, src: Source, st: State) {
    && (forall s :: ShardSafe(env, src, st, s))
    && st.totalApplied == |st.log| == Sum(st.lastApplied)
  }

  lemma WritesOfSnoc(log: seq<Write>, w: Write, s: string)
    ensures WritesOf(log + [w], s) == WritesOf(log, s) + if w.collection == s then [w] else []
  {
    assert (log + [w])[..|log|] == log;
  }

  lemma AppliedShardSafe(env: Env, src: Source, st: State, s: string, m: Message, t: string)
    requires ShardSafe(env, src, st, t) && !env.satellite(s)
    requires Last(st, s) < |src(s)| && m == src(s)[Last(st, s)]
    requires m.shard == s && m.sequence == Last(st, s) + 1
    ensures ShardSafe(env, src, Applied(st, s, m.sequence, m), t)
  {
    var st1 := Applied(st, s, m.sequence, m);
    WritesOfSnoc(st.log, WriteOf(m), t);
    assert Buffered(st1, t) == Buffered(st, t);
    if t == s {
      assert WritesFrom(src(s)[..Last(st, s) + 1]) == WritesFrom(src(s)[..Last(st, s)]) + [WriteOf(m)];
    } else {
      assert Last(st1, t) == Last(st, t);
    }
  }

  /** Writing the next message of a shard keeps everything safe. */
  lemma AppliedIsSafe(env: Env, src: Source, st: State, s: string, m: Message)
    requires WellNumbered(src) && Safe(env, src, st) && !env.satellite(s)
    requires Last(st, s) < |src(s)| && m == src(s)[Last(st, s)]
    ensures Safe(env, src, Applied(st, s, m.sequence, m))
  {
    var st1 := Applied(st, s, m.sequence, m);
    assert NumberedLog(s, src(s));
    SumUpdate(st.lastApplied, s, m.sequence);
    forall t ensures ShardSafe(env, src, st1, t) {
      AppliedShardSafe(env, src, st, s, m, t);
    }
  }

  /** A change that leaves the sequences and the log alone is safe if it only shrinks buffers or
      adds a source message to one. */
  lemma SameLogIsSafe(env: Env, src: Source, st: State, st1: State)
    requires Safe(env, src, st)
    requires st1.log == st.log && st1.totalApplied == st.totalApplied
    requires Sum(st1.lastApplied) == Sum(st.lastApplied)
    requires forall t :: Last(st1, t) == Last(st, t) && (BufferSafe(src, st, t) ==> BufferSafe(src, st1, t))
    requires forall t :: env.satellite(t) && t !in st.lastApplied && t !in st.buffer ==>
                           t !in st1.lastApplied && t !in st1.buffer
    ensures Safe(env, src, st1)
  {
    forall t ensures ShardSafe(env, src, st1, t) {
      assert ShardSafe(env, src, st, t);
    }
  }

  /** The next message, if it is buffered, is the next of the source. */
  lemma NextIsFromSource(env: Env, src: Source, st: State, s: string)
    requires WellNumbered(src) && Safe(env, src, st)
    requires s in st.buffer && Succ(Last(st, s)) in st.buffer[s]
    ensures !env.satellite(s) && Last(st, s) < |src(s)| && Succ(Last(st, s)) == Last(st, s) + 1
    ensures st.buffer[s][Succ(Last(st, s))] == src(s)[Last(st, s)]
    ensures st.buffer[s][Succ(Last(st, s))].sequence == Succ(Last(st, s))
  {
    assert ShardSafe(env, src, st, s) && NumberedLog(s, src(s));
    assert Succ(Last(st, s)) in Buffered(st, s);
  }

  lemma ErasedBufferSafe(src: Source, st: State, st1: State, s: string, next: U64, t: string)
    requires s in st.buffer && next in st.buffer[s] && st1.buffer == st.buffer[s := Erased(st.buffer[s], next)]
    requires BufferSafe(src, st, t)
    ensures BufferSafe(src, st1, t)
  {
    forall k | k in Buffered(st1, t) ensures k in Buffered(st, t) && Buffered(st1, t)[k] == Buffered(st, t)[k] {
      if t == s { assert k in Erased(st.buffer[s], next).Keys; }
    }
  }

  lemma DrainOneIsSafe(env: Env, src: Source, st: State, s: string)
    requires WellNumbered(src) && Safe(env, src, st)
    requires s in st.buffer && Succ(Last(st, s)) in st.buffer[s]
    ensures Safe(env, src, DrainOne(st, s))
  {
    NextIsFromSource(env, src, st, s);
    var next := Succ(Last(st, s));
    var m := st.buffer[s][next];
    var st1 := Applied(st, s, next, m);
    AppliedIsSafe(env, src, st, s, m);
    forall t ensures BufferSafe(src, st1, t) ==> BufferSafe(src, DrainOne(st, s), t) {
      if BufferSafe(src, st1, t) { ErasedBufferSafe(src, st1, DrainOne(st, s), s, next, t); }
    }
    SameLogIsSafe(env, src, st1, DrainOne(st, s));
  }

  lemma {:induction false} DrainLoopIsSafe(env: Env, src: Source, st: State, s: string)
    requires WellNumbered(src) && Safe(env, src, st) && s in st.buffer
    ensures Safe(env, src, DrainLoop(env, st, s))
    decreases |st.buffer[s]|
  {
    if DrainStops(env, st, s) {
      assert ShardSafe(env, src, st, s);
      SumUpdate(st.lastApplied, s, Last(st, s));
      StoppingShowsNothing(env, st, s);
      SameLogIsSafe(env, src, st, DrainLoop(env, st, s));
    } else {
      DrainOneIsSafe(env, src, st, s);
      DrainLoopIsSafe(env, src, DrainOne(st, s), s);
    }
  }

  /** Counting a duplicate, a satellite message or a failed write is safe. */
  lemma BookkeepingIsSafe(env: Env, src: Source, st: State, st1: State)
    requires Safe(env, src, st)
    requires st1.lastApplied == st.lastApplied && st1.buffer == st.buffer
    requires st1.log == st.log && st1.totalApplied == st.totalApplied
    ensures Safe(env, src, st1)
  {
    assert forall t :: Last(st1, t) == Last(st, t) && Buffered(st1, t) == Buffered(st, t);
    SameLogIsSafe(env, src, st, st1);
  }

  lemma BufferingIsSafe(env: Env, src: Source, st: State, m: Message)
    requires Safe(env, src, st) && FromSource(src, m) && !env.satellite(m.shard)
    ensures Safe(env, src, st.(buffer := st.buffer[m.shard := Buffered(st, m.shard)[m.sequence := m]]))
  {
    var s := m.shard;
    var st1 := st.(buffer := st.buffer[s := Buffered(st, s)[m.sequence := m]]);
    forall t ensures Last(st1, t) == Last(st, t) && (BufferSafe(src, st, t) ==> BufferSafe(src, st1, t)) {
      if t != s { assert Buffered(st1, t) == Buffered(st, t); }
    }
    SameLogIsSafe(env, src, st, st1);
  }

  lemma ApplyLockedIsSafe(env: Env, src: Source, st: State, m: Message)
    requires WellNumbered(src) && Safe(env, src, st) && FromSource(src, m)
    ensures Safe(env, src, ApplyLocked(env, st, m).0)
  {
    var s, st1 := m.shard, ApplyLocked(env, st, m).0;
    if env.satellite(s) || m.sequence <= Last(st, s) {
      BookkeepingIsSafe(env, src, st, st1);
    } else if m.sequence != Succ(Last(st, s)) {
      BufferingIsSafe(env, src, st, m);
    } else if env.outcome(st.attempts) != 0 {
      BookkeepingIsSafe(env, src, st, st1);
    } else {
      assert NumberedLog(s, src(s));
      AppliedIsSafe(env, src, st, s, m);
      if s in st.buffer {
        DrainLoopIsSafe(env, src, Applied(st, s, m.sequence, m), s);
      }
    }
  }

  lemma {:induction false} ApplyBatchIsSafe(env: Env, src: Source, st: State, messages: seq<Message>)
    requires WellNumbered(src) && Safe(env, src, st) && AllFromSource(src, messages)
    ensures Safe(env, src, ApplyBatch(env, st, messages))
    decreases |messages|
  {
    if messages == [] {
    } else {
      ApplyLockedIsSafe(env, src, st, messages[0]);
      ApplyBatchIsSafe(env, src, ApplyLocked(env, st, messages[0]).0, messages[1..]);
    }
  }

  /** Safety of every run: for each shard the successful writes are exactly source messages
      1..lastApplied in order and once each, satellites get none, and the total is their sum. */
  lemma {:induction false} RunIsSafe(env: Env, src: Source, events: seq<Event>)
    requires WellNumbered(src) && EventsFromSource(src, events)
    ensures Safe(env, src, Run(env, events))
  {
    if events == [] {
      assert forall s :: WritesFrom(src(s)[..0]) == [];
    } else {
      var n := |events| - 1;
      RunIsSafe(env, src, events[..n]);
      var st, e := Run(env, events[..n]), events[n];
      assert AllFromSource(src, MessagesOf(e));
      match e
      case Deliver(m) =>
        assert FromSource(src, MessagesOf(e)[0]);
        ApplyLockedIsSafe(env, src, st, m);
      case Batch(ms) => ApplyBatchIsSafe(env, src, st, ms);
      case DrainShard(s) =>
        if s in st.buffer { DrainLoopIsSafe(env, src, st, s); }
    }
  }

  /** The writes of a shard are the successful writes to its collection, all of them. */
  lemma {:induction false} WritesOfIsFilter(log: seq<Write>, s: string, w: Write)
    ensures multiset(WritesOf(log, s))[w] == if w.collection == s then multiset(log)[w] else 0
  {
    if log != [] {
      WritesOfIsFilter(log[..|log| - 1], s, w);
      assert log == log[..|log| - 1] + [log[|log| - 1]];
    }
  }

  /** What the callback was handed, field by field: in every run, for every non-satellite shard, as
      many successful writes as the recorded sequence says, and the i-th is to the shard's collection
      with the operation, the payload and the key of the i-th source message. */
  lemma WritesAreSource(env: Env, src: Source, events: seq<Event>, s: string)
    requires WellNumbered(src) && EventsFromSource(src, events) && !env.satellite(s)
    ensures var st := Run(env, events);
            |WritesOf(st.log, s)| == Last(st, s) <= |src(s)| && |st.log| == st.totalApplied
    ensures forall i :: 0 <= i < Last(Run(env, events), s) ==>
              var w := WritesOf(Run(env, events).log, s)[i];
              && w.collection == s && w.operation == src(s)[i].operation
              && w.payload == src(s)[i].payload && w.key == src(s)[i].key
  {
    RunIsSafe(env, src, events);
    var st := Run(env, events);
    assert ShardSafe(env, src, st, s) && NumberedLog(s, src(s));
  }

  /** Satellite shards are never written. */
  lemma SatellitesAreNotWritten(env: Env, src: Source, events: seq<Event>, i: nat)
    requires WellNumbered(src) && EventsFromSource(src, events) && i < |Run(env, events).log|
    ensures !env.satellite(Run(env, events).log[i].collection)
  {
    RunIsSafe(env, src, events);
    var st := Run(env, events);
    var w := st.log[i];
    assert ShardSafe(env, src, st, w.collection);
    WritesOfIsFilter(st.log, w.collection, w);
  }

  // ---------- one call, branch by branch ----------

  lemma {:induction false} DrainKeepsLog(env: Env, st: State, s: string)
    requires s in st.buffer
    ensures st.log <= DrainLoop(env, st, s).log
    ensures DrainLoop(env, st, s).duplicates == st.duplicates
    ensures DrainLoop(env, st, s).satelliteSkipped == st.satelliteSkipped
    decreases |st.buffer[s]|
  {
    if DrainStops(env, st, s) {
      StoppingShowsNothing(env, st, s);
    } else {
      DrainLoopStep(env, st, s);
      DrainKeepsLog(env, DrainOne(st, s), s);
    }
  }

  /** What a message of a satellite shard, a repetition and an early arrival do, and nothing else. */
  lemma SkippedOrBuffered(env: Env, st: State, m: Message)
    ensures env.satellite(m.shard) ==>
              ApplyLocked(env, st, m) == (st.(satelliteSkipped := st.satelliteSkipped + 1), 0)
    ensures !env.satellite(m.shard) && m.sequence <= Last(st, m.shard) ==>
              ApplyLocked(env, st, m) == (st.(duplicates := st.duplicates + 1), 0)
    ensures !env.satellite(m.shard) && m.sequence > Last(st, m.shard) + 1 ==>
              ApplyLocked(env, st, m) ==
              (st.(buffer := st.buffer[m.shard := Buffered(st, m.shard)[m.sequence := m]]), 0)
  {
  }

  lemma NextBranches(env: Env, st: State, m: Message)
    requires !env.satellite(m.shard) && m.sequence == Last(st, m.shard) + 1
    ensures ApplyLocked(env, st, m) ==
            if env.outcome(st.attempts) != 0 then (st.(attempts := st.attempts + 1), env.outcome(st.attempts))
            else (Drain(env, Applied(st, m.shard, m.sequence, m), m.shard), 0)
  {
    SuccIsNext(Last(st, m.shard));
  }

  lemma DrainKeepsCounters(env: Env, st: State, s: string)
    ensures st.log <= Drain(env, st, s).log && Drain(env, st, s).duplicates == st.duplicates
    ensures Drain(env, st, s).satelliteSkipped == st.satelliteSkipped
  {
    if s in st.buffer { DrainKeepsLog(env, st, s); }
  }

  /** What the next message does: a failed write hands its code to the caller and changes nothing; a
      successful one is logged with the message's fields, first of all, and recorded. */
  lemma NextIsWritten(env: Env, st: State, m: Message)
    requires !env.satellite(m.shard) && m.sequence == Last(st, m.shard) + 1
    ensures env.outcome(st.attempts) != 0 ==>
              ApplyLocked(env, st, m) == (st.(attempts := st.attempts + 1), env.outcome(st.attempts))
    ensures env.outcome(st.attempts) == 0 ==>
              var (after, rc) := ApplyLocked(env, st, m);
              && rc == 0 && after.duplicates == st.duplicates && after.satelliteSkipped == st.satelliteSkipped
              && st.log + [Write(m.shard, m.operation, m.payload, m.key)] <= after.log
  {
    hide Drain, ApplyLocked;
    NextBranches(env, st, m);
    DrainKeepsCounters(env, Applied(st, m.shard, m.sequence, m), m.shard);
  }

  /** A batch is applied message by message up to and with the first that returns an error. */
  lemma {:induction false} BatchStopsAtError(env: Env, st: State, ms: seq<Message>, i: nat)
    requires i < |ms|
    requires forall j :: 0 <= j < i ==> ApplyLocked(env, ApplyBatch(env, st, ms[..j]), ms[j]).1 == 0
    ensures ApplyLocked(env, ApplyBatch(env, st, ms[..i]), ms[i]).1 != 0 ==>
              ApplyBatch(env, st, ms) == ApplyLocked(env, ApplyBatch(env, st, ms[..i]), ms[i]).0
    ensures ApplyBatch(env, st, ms[..i + 1]) == ApplyLocked(env, ApplyBatch(env, st, ms[..i]), ms[i]).0
    decreases i
  {
    assert ms[..0] == [];
    var st1 := ApplyLocked(env, st, ms[0]).0;
    if i == 0 {
      assert ms[..1][0] == ms[0] && ms[..1][1..] == [];
    } else {
      var rest := ms[1..];
      assert ApplyLocked(env, ApplyBatch(env, st, ms[..0]), ms[0]).1 == 0;
      forall j | 0 <= j <= i ensures ApplyBatch(env, st, ms[..j + 1]) == ApplyBatch(env, st1, rest[..j]) {
        assert ms[..j + 1][0] == ms[0] && ms[..j + 1][1..] == rest[..j];
      }
      forall j | 0 <= j < i - 1 ensures ApplyLocked(env, ApplyBatch(env, st1, rest[..j]), rest[j]).1 == 0 {
        assert ApplyBatch(env, st, ms[..j + 1]) == ApplyBatch(env, st1, rest[..j]) && rest[j] == ms[j + 1];
      }
      BatchStopsAtError(env, st1, rest, i - 1);
      assert rest[i - 1] == ms[i];
    }
  }

  function SatelliteCount(env: Env, messages: seq<Message>): nat {
    if messages == [] then 0 else
      (if env.satellite(messages[0].shard) then 1 else 0) + SatelliteCount(env, messages[1..])
  }

  function MessagesIn(events: seq<Event>): seq<Message> {
    if events == [] then [] else MessagesIn(events[..|events| - 1]) + MessagesOf(events[|events| - 1])
  }

  // ---------- confluence: with writes that never fail ----------

  ghost predicate NeverFails(env: Env) {
    forall n: nat :: env.outcome(n) == 0
  }

  lemma SatelliteIsCounted(env: Env, st: State, m: Message)
    ensures ApplyLocked(env, st, m).0.satelliteSkipped ==
            st.satelliteSkipped + if env.satellite(m.shard) then 1 else 0
    ensures NeverFails(env) ==> ApplyLocked(env, st, m).1 == 0
  {
    SkippedOrBuffered(env, st, m);
    if !env.satellite(m.shard) && m.sequence == Last(st, m.shard) + 1 { NextIsWritten(env, st, m); }
  }

  lemma {:induction false} BatchIsCounted(env: Env, st: State, ms: seq<Message>)
    requires NeverFails(env)
    ensures ApplyBatch(env, st, ms).satelliteSkipped == st.satelliteSkipped + SatelliteCount(env, ms)
    decreases |ms|
  {
    if ms != [] {
      SatelliteIsCounted(env, st, ms[0]);
      BatchIsCounted(env, ApplyLocked(env, st, ms[0]).0, ms[1..]);
    }
  }

  lemma {:induction false} CountConcat(env: Env, a: seq<Message>, b: seq<Message>)
    ensures SatelliteCount(env, a + b) == SatelliteCount(env, a) + SatelliteCount(env, b)
  {
    if a == [] {
      assert a + b == b;
    } else {
      assert (a + b)[1..] == a[1..] + b;
      CountConcat(env, a[1..], b);
    }
  }

  /** Every satellite message of a run is counted as skipped, and nothing else is. */
  lemma {:induction false} SatellitesAreCounted(env: Env, events: seq<Event>)
    requires NeverFails(env)
    ensures Run(env, events).satelliteSkipped == SatelliteCount(env, MessagesIn(events))
  {
    if events != [] {
      var n := |events| - 1;
      var st := Run(env, events[..n]);
      SatellitesAreCounted(env, events[..n]);
      CountConcat(env, MessagesIn(events[..n]), MessagesOf(events[n]));
      match events[n]
      case Deliver(m) =>
        SatelliteIsCounted(env, st, m);
        assert [m][1..] == [];
      case Batch(ms) => BatchIsCounted(env, st, ms);
      case DrainShard(s) => DrainKeepsCounters(env, st, s);
    }
  }

  ghost function SequencesOf(messages: seq<Message>, s: string): set<U64> {
    set m | m in messages && m.shard == s :: m.sequence
  }

  /** The sequences of shard s among the messages delivered by a run. */
  ghost function Delivered(events: seq<Event>, s: string): set<U64> {
    if events == [] then {} else
      Delivered(events[..|events| - 1], s) + SequencesOf(MessagesOf(events[|events| - 1]), s)
  }

  /** The same in the midst of a drain: the next message may still be in the buffer. */
  ghost predicate Filling(st: State, s: string, delivered: set<U64>) {
    && (forall k: U64 :: 1 <= k <= Last(st, s) ==> k in delivered)
    && (forall k: U64 :: k in Buffered(st, s) <==> k in delivered && k > Last(st, s))
  }

  /** Shard s has applied the longest gap-free prefix of what was delivered, and buffers the rest. */
  ghost predicate Settled(st: State, s: string, delivered: set<U64>) {
    && Filling(st, s, delivered)
    && Last(st, s) + 1 !in delivered
  }

  lemma FillsOnward(st: State, st1: State, s: string, delivered: set<U64>)
    requires Filling(st, s, delivered) && Last(st1, s) == Last(st, s) + 1 && Last(st1, s) in delivered
    requires Buffered(st1, s).Keys == Buffered(st, s).Keys - {Last(st1, s)}
    ensures Filling(st1, s, delivered)
  {
    forall k: U64 ensures k in Buffered(st1, s) <==> k in delivered && k > Last(st1, s) {
      assert k in Buffered(st1, s).Keys <==> k in Buffered(st, s).Keys && k != Last(st1, s);
    }
  }

  lemma DrainOneFills(st: State, s: string, delivered: set<U64>)
    requires s in st.buffer && Succ(Last(st, s)) in st.buffer[s] && 0 !in delivered && Filling(st, s, delivered)
    ensures Filling(DrainOne(st, s), s, delivered)
  {
    var next, st1 := Succ(Last(st, s)), DrainOne(st, s);
    assert next in delivered && next in Buffered(st, s);
    assert next == Last(st, s) + 1;
    FillsOnward(st, st1, s, delivered);
  }

  lemma {:induction false} DrainLoopSettles(env: Env, st: State, s: string, delivered: set<U64>)
    requires NeverFails(env) && s in st.buffer && 0 !in delivered
    requires Filling(st, s, delivered)
    ensures Settled(DrainLoop(env, st, s), s, delivered)
    decreases |st.buffer[s]|
  {
    if DrainStops(env, st, s) {
      StoppingShowsNothing(env, st, s);
      assert Succ(Last(st, s)) !in Buffered(st, s);
    } else {
      DrainOneFills(st, s, delivered);
      DrainLoopStep(env, st, s);
      DrainLoopSettles(env, DrainOne(st, s), s, delivered);
    }
  }

  lemma BufferingSettles(st: State, st1: State, m: Message, delivered: set<U64>)
    requires Settled(st, m.shard, delivered) && m.sequence > Last(st, m.shard) == Last(st1, m.shard)
    requires m.sequence != Last(st, m.shard) + 1
    requires Buffered(st1, m.shard) == Buffered(st, m.shard)[m.sequence := m]
    ensures Settled(st1, m.shard, delivered + {m.sequence})
  {
  }

  lemma WritingSettles(env: Env, st: State, m: Message, delivered: set<U64>)
    requires NeverFails(env) && 0 !in delivered && Settled(st, m.shard, delivered)
    requires m.sequence == Last(st, m.shard) + 1
    ensures Settled(Drain(env, Applied(st, m.shard, m.sequence, m), m.shard), m.shard, delivered + {m.sequence})
  {
    var s, d := m.shard, delivered + {m.sequence};
    var st2 := Applied(st, s, m.sequence, m);
    assert Buffered(st2, s) == Buffered(st, s) && Last(st2, s) == m.sequence;
    assert Filling(st2, s, d);
    if s in st.buffer {
      DrainLoopSettles(env, st2, s, d);
    }
  }

  lemma ApplyOwnShard(env: Env, st: State, m: Message, delivered: set<U64>)
    requires NeverFails(env) && m.sequence > 0 && 0 !in delivered
    requires !env.satellite(m.shard) && Settled(st, m.shard, delivered)
    ensures Settled(ApplyLocked(env, st, m).0, m.shard, delivered + {m.sequence})
  {
    var s := m.shard;
    if m.sequence <= Last(st, s) {
      assert delivered + {m.sequence} == delivered;
    } else if m.sequence != Succ(Last(st, s)) {
      BufferingSettles(st, ApplyLocked(env, st, m).0, m, delivered);
    } else {
      WritingSettles(env, st, m, delivered);
    }
  }

  lemma {:induction false} OtherShardUnmoved(env: Env, st: State, s: string, t: string)
    requires s in st.buffer && t != s
    ensures Last(DrainLoop(env, st, s), t) == Last(st, t)
    ensures Buffered(DrainLoop(env, st, s), t) == Buffered(st, t)
    decreases |st.buffer[s]|
  {
    if DrainStops(env, st, s) {
    } else {
      OtherShardUnmoved(env, DrainOne(st, s), s, t);
    }
  }

  lemma ApplyOtherShard(env: Env, st: State, m: Message, s: string)
    requires m.shard != s
    ensures Last(ApplyLocked(env, st, m).0, s) == Last(st, s)
    ensures Buffered(ApplyLocked(env, st, m).0, s) == Buffered(st, s)
  {
    if m.shard in st.buffer {
      OtherShardUnmoved(env, Applied(st, m.shard, m.sequence, m), m.shard, s);
    }
  }

  lemma ApplyLockedSettles(env: Env, st: State, m: Message, s: string, delivered: set<U64>)
    requires NeverFails(env) && m.sequence > 0 && 0 !in delivered
    requires !env.satellite(s) && Settled(st, s, delivered)
    ensures Settled(ApplyLocked(env, st, m).0, s, delivered + SequencesOf([m], s))
    ensures ApplyLocked(env, st, m).1 == 0
  {
    if m.shard != s {
      assert SequencesOf([m], s) == {};
      assert delivered + SequencesOf([m], s) == delivered;
      ApplyOtherShard(env, st, m, s);
    } else {
      assert m in [m];
      assert SequencesOf([m], s) == {m.sequence};
      ApplyOwnShard(env, st, m, delivered);
    }
  }

  lemma {:induction false} ApplyBatchSettles(env: Env, st: State, ms: seq<Message>, s: string, delivered: set<U64>)
    requires NeverFails(env) && 0 !in delivered && !env.satellite(s) && Settled(st, s, delivered)
    requires forall i :: 0 <= i < |ms| ==> ms[i].sequence > 0
    ensures Settled(ApplyBatch(env, st, ms), s, delivered + SequencesOf(ms, s))
    decreases |ms|
  {
    if ms == [] {
      assert delivered + SequencesOf(ms, s) == delivered;
    } else {
      ApplyLockedSettles(env, st, ms[0], s, delivered);
      ApplyBatchSettles(env, ApplyLocked(env, st, ms[0]).0, ms[1..], s, delivered + SequencesOf([ms[0]], s));
      assert ms == [ms[0]] + ms[1..];
      assert delivered + SequencesOf(ms, s) == delivered + SequencesOf([ms[0]], s) + SequencesOf(ms[1..], s);
    }
  }

  lemma EventSettles(env: Env, src: Source, st: State, e: Event, s: string, d: set<U64>)
    requires NeverFails(env) && AllFromSource(src, MessagesOf(e)) && !env.satellite(s)
    requires Settled(st, s, d) && 0 !in d
    ensures Settled(Step(env, st, e), s, d + SequencesOf(MessagesOf(e), s))
    ensures 0 !in d + SequencesOf(MessagesOf(e), s)
  {
    forall i | 0 <= i < |MessagesOf(e)| ensures MessagesOf(e)[i].sequence > 0 {
      assert FromSource(src, MessagesOf(e)[i]);
    }
    match e
    case Deliver(m) =>
      assert m == MessagesOf(e)[0];
      ApplyLockedSettles(env, st, m, s, d);
    case Batch(ms) => ApplyBatchSettles(env, st, ms, s, d);
    case DrainShard(t) =>
      assert d + SequencesOf([], s) == d;
      if t in st.buffer {
        if t == s { DrainLoopSettles(env, st, s, d); } else { OtherShardUnmoved(env, st, t, s); }
      }
  }

  /** After any finite delivery, lastApplied is the largest n with 1..n all delivered, and the
      buffer holds exactly the delivered sequences above n. */
  lemma {:induction false} RunSettles(env: Env, src: Source, events: seq<Event>, s: string)
    requires NeverFails(env) && EventsFromSource(src, events) && !env.satellite(s)
    ensures Settled(Run(env, events), s, Delivered(events, s))
    ensures 0 !in Delivered(events, s)
  {
    if events == [] {
    } else {
      var n := |events| - 1;
      RunSettles(env, src, events[..n], s);
      EventSettles(env, src, Run(env, events[..n]), events[n], s, Delivered(events[..n], s));
    }
  }

  /** Confluence: runs that deliver the same messages, in any order, grouping and repetition,
      end with the same sequence and the same buffer in every shard. */
  lemma RunsConverge(env: Env, src: Source, a: seq<Event>, b: seq<Event>, s: string)
    requires NeverFails(env) && WellNumbered(src)
    requires EventsFromSource(src, a) && EventsFromSource(src, b)
    requires Delivered(a, s) == Delivered(b, s)
    ensures Last(Run(env, a), s) == Last(Run(env, b), s)
    ensures Buffered(Run(env, a), s) == Buffered(Run(env, b), s)
  {
    RunIsSafe(env, src, a);
    RunIsSafe(env, src, b);
    var x, y := Run(env, a), Run(env, b);
    assert ShardSafe(env, src, x, s) && ShardSafe(env, src, y, s);
    if !env.satellite(s) {
      RunSettles(env, src, a, s);
      RunSettles(env, src, b, s);
      assert Last(x, s) == Last(y, s) by {
        assert Last(x, s) < Last(y, s) ==> Succ(Last(x, s)) in Delivered(a, s);
        assert Last(y, s) < Last(x, s) ==> Succ(Last(y, s)) in Delivered(a, s);
      }
      assert Buffered(x, s).Keys == Buffered(y, s).Keys;
    }
  }

  // ---------- recovery: failures and losses are made good by redelivery ----------

  lemma DrainOneAdvances(st: State, s: string)
    requires s in st.buffer && 0 !in st.buffer[s] && Succ(Last(st, s)) in st.buffer[s]
    ensures Last(DrainOne(st, s), s) == Last(st, s) + 1 && 0 !in DrainOne(st, s).buffer[s]
  {
    assert Succ(Last(st, s)) in st.buffer[s].Keys;
    assert 0 !in DrainOne(st, s).buffer[s].Keys;
  }

  lemma {:induction false} DrainLoopAdvances(env: Env, st: State, s: string)
    requires s in st.buffer && 0 !in st.buffer[s]
    ensures Last(DrainLoop(env, st, s), s) >= Last(st, s)
    ensures DrainLoop(env, st, s).attempts >= st.attempts
    decreases |st.buffer[s]|
  {
    if DrainStops(env, st, s) {
      StoppingShowsNothing(env, st, s);
    } else {
      DrainOneAdvances(st, s);
      DrainLoopStep(env, st, s);
      DrainLoopAdvances(env, DrainOne(st, s), s);
    }
  }

  lemma RedeliveringOneAdvances(env: Env, src: Source, st: State, m: Message)
    requires WellNumbered(src) && Safe(env, src, st) && FromSource(src, m) && !env.satellite(m.shard)
    requires env.outcome(st.attempts) == 0 && m.sequence <= Last(st, m.shard) + 1
    ensures Last(ApplyLocked(env, st, m).0, m.shard) >= m.sequence
    ensures ApplyLocked(env, st, m).0.attempts >= st.attempts && ApplyLocked(env, st, m).1 == 0
  {
    var s := m.shard;
    assert ShardSafe(env, src, st, s) && NumberedLog(s, src(s));
    if m.sequence == Last(st, s) + 1 && s in st.buffer {
      assert 0 !in Buffered(st, s);
      DrainLoopAdvances(env, Applied(st, s, m.sequence, m), s);
    }
  }

  /** Whatever was lost or failed before: once writes succeed, delivering the first n source
      messages of a shard in order, in one batch, brings it to at least n. */
  lemma {:induction false} RedeliveryCatchesUp(env: Env, src: Source, st: State, s: string, i: nat, n: nat)
    requires WellNumbered(src) && Safe(env, src, st) && !env.satellite(s) && i <= n <= |src(s)|
    requires i <= Last(st, s) && forall a: nat :: a >= st.attempts ==> env.outcome(a) == 0
    ensures Last(ApplyBatch(env, st, src(s)[i..n]), s) >= n
    decreases n - i
  {
    if i < n {
      assert NumberedLog(s, src(s));
      var m, rest := src(s)[i], src(s)[i + 1..n];
      assert src(s)[i..n][0] == m && src(s)[i..n][1..] == rest;
      RedeliveringOneAdvances(env, src, st, m);
      ApplyLockedIsSafe(env, src, st, m);
      RedeliveryCatchesUp(env, src, ApplyLocked(env, st, m).0, s, i + 1, n);
    }
  }

  lemma {:induction false} DrainNeverFalls(env: Env, st: State, s: string)
    requires s in st.buffer
    ensures DrainLoop(env, st, s).totalApplied >= st.totalApplied
    decreases |st.buffer[s]|
  {
    if DrainStops(env, st, s) {
    } else {
      DrainNeverFalls(env, DrainOne(st, s), s);
    }
  }

  lemma AppliedNeverFalls(env: Env, st: State, m: Message)
    ensures ApplyLocked(env, st, m).0.totalApplied >= st.totalApplied
  {
    var st2 := Applied(st, m.shard, m.sequence, m);
    if m.shard in st.buffer { DrainNeverFalls(env, st2, m.shard); }
  }

  // ---------- the applier itself ----------

  /** The write callback: its n-th call returns `outcome(n)`, and 0 means the write happened. */
  class WriteTarget {
    const outcome: nat -> int
    var attempts: nat
    var log: seq<Write>

    constructor (outcome: nat -> int)
      ensures this.outcome == outcome && attempts == 0 && log == []
    {
      this.outcome := outcome;
      attempts := 0;
      log := [];
    }

    method Call(w: Write) returns (rc: int)
      modifies this
      ensures rc == outcome(old(attempts)) && attempts == old(attempts) + 1
      ensures log == if rc == 0 then old(log) + [w] else old(log)
    {
      rc := outcome(attempts);
      attempts := attempts + 1;
      if rc == 0 {
        log := log + [w];
      }
    }
  }

  class Applier {
    const target: WriteTarget
    const satellite: string -> bool
    var lastApplied: map<string, U64>
    var buffer: map<string, map<U64, Message>>
    var totalApplied: nat
    var totalDuplicates: nat
    var totalSatelliteSkipped: nat

    ghost function Callbacks(): Env {
      Env(satellite, target.outcome)
    }

    ghost function Now(): State
      reads this, target
    {
      State(lastApplied, buffer, totalApplied, totalDuplicates, totalSatelliteSkipped, target.attempts, target.log)
    }

    constructor (target: WriteTarget, satellite: string -> bool)
      requires target.attempts == 0 && target.log == []
      ensures this.target == target && this.satellite == satellite && Now() == INITIAL
    {
      this.target := target;
      this.satellite := satellite;
      lastApplied, buffer := map[], map[];
      totalApplied, totalDuplicates, totalSatelliteSkipped := 0, 0, 0;
    }

    method ApplyMessage(m: Message) returns (rc: int)
      modifies this, target
      ensures (Now(), rc) == ApplyLocked(Callbacks(), old(Now()), m)
      ensures satellite(m.shard) ==> rc == 0 && totalSatelliteSkipped == old(totalSatelliteSkipped) + 1
      ensures !satellite(m.shard) ==> totalSatelliteSkipped == old(totalSatelliteSkipped)
      ensures totalDuplicates == old(totalDuplicates) +
                if !satellite(m.shard) && m.sequence <= old(Last(Now(), m.shard)) then 1 else 0
      ensures rc == if !satellite(m.shard) && m.sequence == old(Last(Now(), m.shard)) + 1
                    then target.outcome(old(target.attempts)) else 0
    {
      SkippedOrBuffered(Callbacks(), Now(), m);
      if !satellite(m.shard) && m.sequence == Last(Now(), m.shard) + 1 { NextIsWritten(Callbacks(), Now(), m); }
      if satellite(m.shard) {
        totalSatelliteSkipped := totalSatelliteSkipped + 1;
        return 0;
      }
      var lastSeq: U64 := if m.shard in lastApplied then lastApplied[m.shard] else 0;
      if m.sequence <= lastSeq {
        totalDuplicates := totalDuplicates + 1;
        return 0;
      }
      if m.sequence != Succ(lastSeq) {
        var shardBuf := if m.shard in buffer then buffer[m.shard] else map[];
        buffer := buffer[m.shard := shardBuf[m.sequence := m]];
        return 0;
      }
      rc := WriteMessage(m);
      if rc != 0 {
        return rc;
      }
      var _ := DrainBuffered(m.shard);
    }

    /** Hands the message to the callback, and records it if the write succeeds. */
    method WriteMessage(m: Message) returns (rc: int)
      modifies this, target
      ensures rc == target.outcome(old(target.attempts))
      ensures rc == 0 ==> target.log == old(target.log) + [Write(m.shard, m.operation, m.payload, m.key)]
      ensures rc != 0 ==> target.log == old(target.log)
      ensures Now() == if rc == 0 then Applied(old(Now()), m.shard, m.sequence, m)
                       else old(Now()).(attempts := old(target.attempts) + 1)
    {
      rc := target.Call(WriteOf(m));
      if rc == 0 {
        lastApplied := lastApplied[m.shard := m.sequence];
        totalApplied := totalApplied + 1;
      }
    }

    /** Writes the next buffered message, and takes it from the buffer if that succeeds. */
    method WriteBuffered(s: string, next: U64) returns (wrote: bool)
      requires s in buffer && next in buffer[s] && next == Succ(Last(Now(), s))
      modifies this, target
      ensures wrote == (target.outcome(old(target.attempts)) == 0)
      ensures wrote ==> var m := old(buffer[s][next]);
                target.log == old(target.log) + [Write(m.shard, m.operation, m.payload, m.key)]
      ensures wrote ==> Now() == DrainOne(old(Now()), s)
      ensures !wrote ==> Now() == old(Now()).(attempts := old(target.attempts) + 1)
    {
      var rc := target.Call(WriteOf(buffer[s][next]));
      if rc != 0 {
        return false;
      }
      lastApplied := lastApplied[s := next];
      totalApplied := totalApplied + 1;
      buffer := buffer[s := Erased(buffer[s], next)];
      return true;
    }

    /** One turn of the drain loop; false when it ends the loop. */
    method DrainTurn(s: string) returns (wrote: bool)
      requires s in buffer && buffer[s] != map[]
      modifies this, target
      ensures wrote == !DrainStops(Callbacks(), old(Now()), s)
      ensures wrote ==> Now() == DrainOne(old(Now()), s)
      ensures !wrote ==> Now() == DrainLoop(Callbacks(), old(Now()), s)
    {
      if Succ(Last(Now(), s)) in buffer[s] { TouchedDrainsAlike(Now(), s); }
      var last: U64 := if s in lastApplied then lastApplied[s] else 0;
      lastApplied := lastApplied[s := last];
      var next := Succ(last);
      if next !in buffer[s] {
        return false;
      }
      wrote := WriteBuffered(s, next);
    }

    /** Returns how many buffered messages it wrote. */
    method DrainBuffered(s: string) returns (drained: nat)
      modifies this, target
      ensures Now() == Drain(Callbacks(), old(Now()), s)
      ensures drained == totalApplied - old(totalApplied)
    {
      drained := 0;
      if s !in buffer {
        return;
      }
      while buffer[s] != map[]
        invariant s in buffer
        invariant DrainLoop(Callbacks(), Now(), s) == DrainLoop(Callbacks(), old(Now()), s)
        invariant drained == totalApplied - old(totalApplied)
        decreases |buffer[s]|
      {
        ghost var before := Now();
        var wrote := DrainTurn(s);
        if !wrote {
          StoppingShowsNothing(Callbacks(), before, s);
          return;
        }
        drained := drained + 1;
      }
      buffer := buffer - {s};
    }

    /** Returns how many messages were written on behalf of the batch. */
    method ApplyBatchOf(messages: seq<Message>) returns (applied: nat)
      modifies this, target
      ensures Now() == ApplyBatch(Callbacks(), old(Now()), messages)
      ensures applied == totalApplied - old(totalApplied)
    {
      var appliedBefore := totalApplied;
      var i := 0;
      while i < |messages|
        invariant 0 <= i <= |messages|
        invariant totalApplied >= appliedBefore
        invariant ApplyBatch(Callbacks(), Now(), messages[i..]) == ApplyBatch(Callbacks(), old(Now()), messages)
      {
        assert messages[i..][0] == messages[i] && messages[i..][1..] == messages[i + 1..];
        AppliedNeverFalls(Callbacks(), Now(), messages[i]);
        var rc := ApplyMessage(messages[i]);
        if rc != 0 {
          break;
        }
        i := i + 1;
      }
      applied := totalApplied - appliedBefore;
    }

    method LastAppliedSequence(s: string) returns (n: U64)
      ensures n == Last(Now(), s) == if s in lastApplied then lastApplied[s] else 0
    {
      n := if s in lastApplied then lastApplied[s] else 0;
    }
  }
}
