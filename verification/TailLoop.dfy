/** Batching what a tailer yields. Models Enterprise/Replication/MessageBatcher.cpp and
    `shardTailLoop` of Enterprise/Replication/DC2DCReplicator.cpp, without clocks and lag records. */
module TailLoop {
  import opened WalTailer

  datatype MessageBatch = MessageBatch(shardId: string, number: nat, entries: seq<WalEntry>)

  /** The sequence provider: its n-th call returns `numbers(n)`. */
  type Provider = nat -> nat

  function Concat(batches: seq<MessageBatch>): seq<WalEntry> {
    if batches == [] then [] else Concat(batches[..|batches| - 1]) + batches[|batches| - 1].entries
  }

  lemma ConcatSnoc(batches: seq<MessageBatch>, b: MessageBatch)
    ensures Concat(batches + [b]) == Concat(batches) + b.entries
  {
    assert (batches + [b])[..|batches|] == batches;
  }

  class MessageBatcher {
    const shardId: string
    const batchSize: nat
    const numbers: Provider
    var calls: nat
    var pending: seq<WalEntry>

    /** Less than a batch is ever pending; a size of zero seals every entry at once. */
    ghost predicate Valid()
      reads this
    {
      |pending| < batchSize || pending == []
    }

    constructor (shardId: string, batchSize: nat, numbers: Provider)
      ensures Valid() && pending == [] && calls == 0
      ensures this.shardId == shardId && this.batchSize == batchSize && this.numbers == numbers
    {
      this.shardId := shardId;
      this.batchSize := batchSize;
      this.numbers := numbers;
      calls := 0;
      pending := [];
    }

    method Seal() returns (b: MessageBatch)
      modifies this
      ensures b == MessageBatch(shardId, numbers(old(calls)), old(pending))
      ensures calls == old(calls) + 1 && pending == []
    {
      b := MessageBatch(shardId, numbers(calls), pending);
      calls := calls + 1;
      pending := [];
    }

    /** A batch sealed here is full: exactly `batchSize` entries, unless the size is zero. */
    method Add(e: WalEntry) returns (b: Option<MessageBatch>)
      requires Valid()
      modifies this
      ensures Valid()
      ensures b.Some? <==> |old(pending)| + 1 >= batchSize
      ensures b.Some? ==> b.value == MessageBatch(shardId, numbers(old(calls)), old(pending) + [e])
      ensures b.Some? && batchSize > 0 ==> |b.value.entries| == batchSize
      ensures b.Some? ==> calls == old(calls) + 1 && pending == []
      ensures b.None? ==> calls == old(calls) && pending == old(pending) + [e]
    {
      pending := pending + [e];
      if |pending| >= batchSize {
        var m := Seal();
        return Some(m);
      }
      b := None;
    }

    method Flush() returns (b: Option<MessageBatch>)
      requires Valid()
      modifies this
      ensures Valid() && pending == []
      ensures b.Some? <==> old(pending) != []
      ensures b.Some? ==> b.value == MessageBatch(shardId, numbers(old(calls)), old(pending)) && calls == old(calls) + 1
      ensures b.None? ==> calls == old(calls)
    {
      if pending == [] {
        return None;
      }
      var m := Seal();
      b := Some(m);
    }
  }

  /** The batches of a run: numbered by the provider's calls in order, none empty, none too big. */
  ghost predicate WellFormed(batches: seq<MessageBatch>, shardId: string, batchSize: nat, numbers: Provider) {
    forall i :: 0 <= i < |batches| ==>
      && batches[i].shardId == shardId && batches[i].number == numbers(i)
      && 0 < |batches[i].entries| <= batchSize
  }

  /** The batches handed on since `batches` are all full. */
  ghost predicate GrownByFull(batches: seq<MessageBatch>, all: seq<MessageBatch>, batchSize: nat) {
    batches <= all && forall i :: |batches| <= i < |all| ==> |all[i].entries| == batchSize
  }

  lemma GrowsOn(batches: seq<MessageBatch>, mid: seq<MessageBatch>, all: seq<MessageBatch>, batchSize: nat)
    requires GrownByFull(batches, mid, batchSize) && GrownByFull(mid, all, batchSize)
    ensures GrownByFull(batches, all, batchSize)
  {
    forall i | |batches| <= i < |all| ensures |all[i].entries| == batchSize {
      if i < |mid| { assert all[i] == mid[i]; }
    }
  }

  lemma WellFormedSnoc(batches: seq<MessageBatch>, b: MessageBatch, batchSize: nat, numbers: Provider)
    requires WellFormed(batches, b.shardId, batchSize, numbers)
    requires b.number == numbers(|batches|) && |b.entries| == batchSize > 0
    ensures WellFormed(batches + [b], b.shardId, batchSize, numbers)
    ensures GrownByFull(batches, batches + [b], batchSize)
  {
  }

  /** Adds one entry and hands on the batch it fills, if any. */
  method AddOne(batcher: MessageBatcher, e: WalEntry, batches: seq<MessageBatch>) returns (all: seq<MessageBatch>)
    requires batcher.Valid() && batcher.calls == |batches| && batcher.batchSize > 0
    requires WellFormed(batches, batcher.shardId, batcher.batchSize, batcher.numbers)
    modifies batcher
    ensures batcher.Valid() && batcher.calls == |all|
    ensures WellFormed(all, batcher.shardId, batcher.batchSize, batcher.numbers)
    ensures Concat(all) + batcher.pending == Concat(batches) + old(batcher.pending) + [e]
    ensures GrownByFull(batches, all, batcher.batchSize)
  {
    all := batches;
    assert Concat(all) + (batcher.pending + [e]) == Concat(all) + batcher.pending + [e];
    var msg := batcher.Add(e);
    hide Concat, WellFormed;
    if msg.Some? {
      ConcatSnoc(all, msg.value);
      WellFormedSnoc(all, msg.value, batcher.batchSize, batcher.numbers);
      all := all + [msg.value];
    }
  }

  /** Adds one poll's entries to the batcher and hands on every batch that fills up. */
  method AddAll(batcher: MessageBatcher, entries: seq<WalEntry>, batches: seq<MessageBatch>)
    returns (all: seq<MessageBatch>)
    requires batcher.Valid() && batcher.calls == |batches| && (entries != [] ==> batcher.batchSize > 0)
    requires WellFormed(batches, batcher.shardId, batcher.batchSize, batcher.numbers)
    modifies batcher
    ensures batcher.Valid() && batcher.calls == |all|
    ensures WellFormed(all, batcher.shardId, batcher.batchSize, batcher.numbers)
    ensures Concat(all) + batcher.pending == Concat(batches) + old(batcher.pending) + entries
    ensures GrownByFull(batches, all, batcher.batchSize) && (entries == [] ==> all == batches)
  {
    all := batches;
    ghost var before := Concat(batches) + batcher.pending;
    for i := 0 to |entries|
      invariant batcher.Valid() && batcher.calls == |all|
      invariant WellFormed(all, batcher.shardId, batcher.batchSize, batcher.numbers)
      invariant Concat(all) + batcher.pending == before + entries[..i]
      invariant GrownByFull(batches, all, batcher.batchSize) && (i == 0 ==> all == batches)
    {
      assert before + entries[..i + 1] == before + entries[..i] + [entries[i]];
      ghost var mid := all;
      all := AddOne(batcher, entries[i], all);
      GrowsOn(batches, mid, all, batcher.batchSize);
    }
    assert entries[..|entries|] == entries;
  }

  method FlushInto(batcher: MessageBatcher, batches: seq<MessageBatch>) returns (all: seq<MessageBatch>)
    requires batcher.Valid() && batcher.calls == |batches|
    requires WellFormed(batches, batcher.shardId, batcher.batchSize, batcher.numbers)
    modifies batcher
    ensures batcher.Valid() && batcher.calls == |all| && batcher.pending == []
    ensures WellFormed(all, batcher.shardId, batcher.batchSize, batcher.numbers)
    ensures Concat(all) == Concat(batches) + old(batcher.pending)
    ensures batches <= all && |all| <= |batches| + 1
  {
    all := batches;
    var partial := batcher.Flush();
    if partial.Some? {
      ConcatSnoc(all, partial.value);
      all := all + [partial.value];
    }
  }

  /** What one turn of the loop owes: all that was polled since `start` is batched or pending. */
  ghost predicate Accounted(batches: seq<MessageBatch>, pending: seq<WalEntry>, v: View, polled: seq<WalEntry>) {
    Concat(batches) + pending == Selected(v, polled)
  }

  /** One turn: a poll, its entries added, and a flush if there were none: only an empty poll hands
      on a batch that is not full. `patience` bounds what the poll gets to see. */
  method Turn(tailer: Tailer, batcher: MessageBatcher, batches: seq<MessageBatch>, patience: nat, ghost start: nat)
    returns (all: seq<MessageBatch>)
    requires tailer.Valid() && start <= tailer.it.pos
    requires batcher.Valid() && batcher.calls == |batches|
    requires WellFormed(batches, batcher.shardId, batcher.batchSize, batcher.numbers)
    requires Accounted(batches, batcher.pending, tailer.view, tailer.it.entries[start..tailer.it.pos])
    modifies tailer, tailer.it, batcher
    ensures tailer.Valid() && old(tailer.it.pos) <= tailer.it.pos
    ensures batcher.Valid() && batcher.calls == |all|
    ensures WellFormed(all, batcher.shardId, batcher.batchSize, batcher.numbers)
    ensures Accounted(all, batcher.pending, tailer.view, tailer.it.entries[start..tailer.it.pos])
    ensures tailer.it.pos == PollEnd(tailer.view, tailer.it.entries, old(tailer.it.pos), batcher.batchSize, patience)
    ensures var polled := Selected(tailer.view, tailer.it.entries[old(tailer.it.pos)..tailer.it.pos]);
            if polled == [] then batcher.pending == [] && batches <= all && |all| <= |batches| + 1
            else GrownByFull(batches, all, batcher.batchSize)
  {
    ghost var log, at := tailer.it.entries, tailer.it.pos;
    var entries := tailer.Poll(batcher.batchSize, patience);
    assert log[start..tailer.it.pos] == log[start..at] + log[at..tailer.it.pos];
    SelectedConcat(tailer.view, log[start..at], log[at..tailer.it.pos]);
    all := AddAll(batcher, entries, batches);
    if entries == [] {
      all := FlushInto(batcher, all);
      assert Concat(all) + [] == Concat(all);
    }
  }

  /** Where the turns' polls, one after the other, leave the tailer. */
  function EndOfTurns(v: View, entries: seq<WalEntry>, start: nat, batchSize: nat, turns: seq<nat>): nat {
    if turns == [] then start else
      PollEnd(v, entries, EndOfTurns(v, entries, start, batchSize, turns[..|turns| - 1]), batchSize, turns[|turns| - 1])
  }

  /** With as many turns of some patience as there are entries left, the loop gets to the end. */
  lemma {:induction false} TurnsReachEnd(v: View, entries: seq<WalEntry>, start: nat, batchSize: nat, turns: seq<nat>)
    requires start <= |entries| && batchSize > 0 && forall i :: 0 <= i < |turns| ==> turns[i] > 0
    ensures start <= EndOfTurns(v, entries, start, batchSize, turns) <= |entries|
    ensures EndOfTurns(v, entries, start, batchSize, turns) >= start + |turns| ||
            EndOfTurns(v, entries, start, batchSize, turns) == |entries|
  {
    if turns != [] {
      var m := |turns| - 1;
      TurnsReachEnd(v, entries, start, batchSize, turns[..m]);
      var pos := EndOfTurns(v, entries, start, batchSize, turns[..m]);
      PollStaysInside(v, entries, pos, batchSize, turns[m]);
      if pos < |entries| { PollMoves(v, entries, pos, batchSize, turns[m]); }
    }
  }

  /** The loop of one shard, for as many turns as the tailing flag allows. The batches handed on
      hold exactly what was polled, in order, with what was pending at shutdown; and what was
      polled is the tailer's part of the log. */
  method ShardTailLoop(tailer: Tailer, shardId: string, batchSize: nat, numbers: Provider, turns: seq<nat>)
    returns (batches: seq<MessageBatch>)
    requires tailer.Valid()
    modifies tailer, tailer.it
    ensures tailer.Valid() && old(tailer.it.pos) <= tailer.it.pos
    ensures tailer.it.pos == EndOfTurns(tailer.view, tailer.it.entries, old(tailer.it.pos), batchSize, turns)
    ensures Concat(batches) == Selected(tailer.view, tailer.it.entries[old(tailer.it.pos)..tailer.it.pos])
    ensures WellFormed(batches, shardId, batchSize, numbers)
  {
    var batcher := new MessageBatcher(shardId, batchSize, numbers);
    batches := [];
    ghost var start := tailer.it.pos;
    assert tailer.it.entries[start..start] == [];
    for i := 0 to |turns|
      invariant tailer.Valid() && start <= tailer.it.pos && fresh(batcher)
      invariant tailer.it.pos == EndOfTurns(tailer.view, tailer.it.entries, start, batchSize, turns[..i])
      invariant batcher.Valid() && batcher.calls == |batches|
      invariant WellFormed(batches, shardId, batchSize, numbers)
      invariant Accounted(batches, batcher.pending, tailer.view, tailer.it.entries[start..tailer.it.pos])
    {
      assert turns[..i + 1][..i] == turns[..i];
      batches := Turn(tailer, batcher, batches, turns[i], start);
    }
    assert turns[..|turns|] == turns;
    batches := FlushInto(batcher, batches);
  }
}
