/** Tailing the write-ahead log, one tailer a shard.
    Models Enterprise/Replication/ShardWALTailer.cpp and `computeShardIndex` of
    Enterprise/Sharding/ShardingStrategyEE.cpp. Sequences are naturals. */
module WalTailer {
  import opened Words

  datatype Option<T> = None | Some(value: T)

  datatype Operation = Insert | Update | Delete

  datatype WalEntry = WalEntry(sequence: nat, timestamp: nat, collection: string, key: seq<Byte>,
                               operation: Operation, payload: seq<Byte>)

  datatype CollectionInfo = CollectionInfo(replicationFactor: nat, numberOfShards: nat)

  type Resolver = string -> Option<CollectionInfo>

  // ---------- which entries a tailer yields ----------

  /** FNV-1a, 32 bits. */
  function KeyHash(key: seq<Byte>): U32 {
    if key == [] then 2166136261
    else Xor32(KeyHash(key[..|key| - 1]), key[|key| - 1]) * 16777619 % TWO32
  }

  lemma HashOfNothing()
    ensures KeyHash([]) == 2166136261
  {
  }

  /** One more byte is combined into the low bits by exclusive or, and the word multiplied. */
  lemma HashOfOneMore(key: seq<Byte>, c: Byte)
    ensures KeyHash(key + [c]) == Xor32(KeyHash(key), c) * 16777619 % TWO32
  {
    assert (key + [c])[..|key|] == key;
  }

  function ShardIndex(key: seq<Byte>, n: nat): (i: nat)
    requires n > 0
    ensures i < n
  {
    KeyHash(key) % n
  }

  method ComputeShardIndex(key: seq<Byte>, n: nat) returns (i: nat)
    requires n > 0
    ensures i == ShardIndex(key, n) == KeyHash(key) % n
  {
    var hash: U32 := 2166136261;
    for j := 0 to |key|
      invariant hash == KeyHash(key[..j])
    {
      assert key[..j + 1][..j] == key[..j];
      hash := Xor32(hash, key[j]);
      hash := hash * 16777619 % TWO32;
    }
    assert key[..|key|] == key;
    i := hash % n;
  }

  /** A collection is satellite if it is known and its replication factor is zero. */
  predicate IsSatellite(resolver: Resolver, e: WalEntry) {
    resolver(e.collection).Some? && resolver(e.collection).value.replicationFactor == 0
  }

  predicate BelongsTo(e: WalEntry, shard: nat, n: nat) {
    n <= 1 || ShardIndex(e.key, n) == shard
  }

  /** What a tailer is responsible for. */
  datatype View = View(resolver: Resolver, shard: nat, shards: nat)

  predicate Yields(v: View, e: WalEntry) {
    !IsSatellite(v.resolver, e) && BelongsTo(e, v.shard, v.shards)
  }

  function Selected(v: View, entries: seq<WalEntry>): seq<WalEntry> {
    if entries == [] then [] else
      var last := entries[|entries| - 1];
      Selected(v, entries[..|entries| - 1]) + if Yields(v, last) then [last] else []
  }

  // ---------- one poll ----------

  /** Where a poll from `pos` stops: at the end of the log, with `room` entries found, or when it
      has looked at `patience` entries - the stop flag set by another thread, or the end of what
      is written so far. */
  function PollEnd(v: View, entries: seq<WalEntry>, pos: nat, room: nat, patience: nat): nat
    decreases patience
  {
    if pos >= |entries| || room == 0 || patience == 0 then pos
    else PollEnd(v, entries, pos + 1, if Yields(v, entries[pos]) then room - 1 else room, patience - 1)
  }

  /** The sequence recorded after examining an entry. */
  function Recorded(v: View, last: nat, e: WalEntry): nat {
    if Yields(v, e) || e.sequence > last then e.sequence else last
  }

  function LastAfter(v: View, last: nat, entries: seq<WalEntry>): nat {
    if entries == [] then last
    else Recorded(v, LastAfter(v, last, entries[..|entries| - 1]), entries[|entries| - 1])
  }

  function SeekFrom(entries: seq<WalEntry>, sequence: nat, i: nat): nat
    requires i <= |entries|
    decreases |entries| - i
  {
    if i < |entries| && entries[i].sequence < sequence then SeekFrom(entries, sequence, i + 1) else i
  }

  /** The position of the first entry that reaches the sequence. */
  function SeekPos(entries: seq<WalEntry>, sequence: nat): nat {
    SeekFrom(entries, sequence, 0)
  }

  /** An iterator over the log. */
  class WalIterator {
    const entries: seq<WalEntry>
    var pos: nat

    constructor (entries: seq<WalEntry>)
      ensures this.entries == entries && pos == 0
    {
      this.entries := entries;
      pos := 0;
    }

    method Seek(sequence: nat)
      modifies this
      ensures pos == SeekPos(entries, sequence) <= |entries|
      ensures forall i :: 0 <= i < pos ==> entries[i].sequence < sequence
      ensures pos < |entries| ==> entries[pos].sequence >= sequence
    {
      pos := 0;
      while pos < |entries| && entries[pos].sequence < sequence
        invariant pos <= |entries|
        invariant SeekFrom(entries, sequence, pos) == SeekPos(entries, sequence)
        invariant forall i :: 0 <= i < pos ==> entries[i].sequence < sequence
      {
        pos := pos + 1;
      }
    }
  }

  lemma SliceSnoc(entries: seq<WalEntry>, i: nat, j: nat)
    requires i <= j < |entries|
    ensures entries[i..j + 1] == entries[i..j] + [entries[j]]
    ensures entries[i..j + 1][..j - i] == entries[i..j]
  {
  }

  lemma {:induction false} SeekInside(entries: seq<WalEntry>, sequence: nat, i: nat)
    requires i <= |entries|
    ensures i <= SeekFrom(entries, sequence, i) <= |entries|
    decreases |entries| - i
  {
    if i < |entries| { SeekInside(entries, sequence, i + 1); }
  }

  lemma NothingExamined(v: View, entries: seq<WalEntry>, i: nat, last: nat)
    requires i <= |entries|
    ensures Selected(v, entries[i..i]) == [] && LastAfter(v, last, entries[i..i]) == last
  {
    assert entries[i..i] == [];
  }

  lemma ExamineOne(v: View, entries: seq<WalEntry>, i: nat, j: nat, last: nat)
    requires i <= j < |entries|
    ensures Selected(v, entries[i..j + 1]) ==
            if Yields(v, entries[j]) then Selected(v, entries[i..j]) + [entries[j]] else Selected(v, entries[i..j])
    ensures LastAfter(v, last, entries[i..j + 1]) == Recorded(v, LastAfter(v, last, entries[i..j]), entries[j])
  {
    SliceSnoc(entries, i, j);
  }

  /** The last entry found is the last one looked at. */
  predicate EndsWith(result: seq<WalEntry>, entries: seq<WalEntry>, pos: nat) {
    result != [] && 0 < pos <= |entries| && result[|result| - 1] == entries[pos - 1]
  }

  /** What is selected: the entries of known or unknown collections that are no satellites and whose
      key belongs to the shard. */
  lemma {:induction false} SelectedMembers(v: View, entries: seq<WalEntry>)
    ensures forall e :: e in Selected(v, entries) <==>
              e in entries && !IsSatellite(v.resolver, e) && BelongsTo(e, v.shard, v.shards)
  {
    if entries != [] {
      var m := |entries| - 1;
      SelectedMembers(v, entries[..m]);
      assert entries == entries[..m] + [entries[m]];
    }
  }

  class Tailer {
    const view: View
    const it: WalIterator
    var lastProcessed: nat
    var infoCache: map<string, CollectionInfo>

    /** The cache holds what the resolver says, and only known collections. */
    ghost predicate Valid()
      reads this, it
    {
      && it.pos <= |it.entries|
      && forall c :: c in infoCache ==> view.resolver(c) == Some(infoCache[c])
    }

    constructor (view: View, it: WalIterator)
      requires it.pos <= |it.entries|
      ensures Valid() && this.view == view && this.it == it && lastProcessed == 0
    {
      this.view := view;
      this.it := it;
      lastProcessed := 0;
      infoCache := map[];
    }

    method IsSatelliteEntry(e: WalEntry) returns (r: bool)
      requires Valid()
      modifies this`infoCache
      ensures Valid() && r == IsSatellite(view.resolver, e)
      ensures r <==> view.resolver(e.collection).Some? && view.resolver(e.collection).value.replicationFactor == 0
    {
      if e.collection in infoCache {
        return infoCache[e.collection].replicationFactor == 0;
      }
      var info := view.resolver(e.collection);
      if info.None? {
        return false;
      }
      infoCache := infoCache[e.collection := info.value];
      r := info.value.replicationFactor == 0;
    }

    method BelongsToShard(e: WalEntry) returns (r: bool)
      ensures r == BelongsTo(e, view.shard, view.shards)
      ensures r <==> view.shards <= 1 || KeyHash(e.key) % view.shards == view.shard
    {
      if view.shards <= 1 {
        return true;
      }
      var i := ComputeShardIndex(e.key, view.shards);
      r := i == view.shard;
    }

    /** Decides whether an entry is yielded and records its sequence. */
    method Examine(current: WalEntry) returns (mine: bool)
      requires Valid()
      modifies this
      ensures Valid() && mine == Yields(view, current)
      ensures lastProcessed == Recorded(view, old(lastProcessed), current)
      ensures current.sequence <= lastProcessed
      ensures lastProcessed == current.sequence || (!mine && lastProcessed == old(lastProcessed))
    {
      var satellite := IsSatelliteEntry(current);
      var belongs := BelongsToShard(current);
      mine := !satellite && belongs;
      if mine {
        lastProcessed := current.sequence;
      }
      if current.sequence > lastProcessed {
        lastProcessed := current.sequence;
      }
    }

    /** Examines the current entry and moves past it. */
    method ExamineNext() returns (mine: bool)
      requires Valid() && it.pos < |it.entries|
      modifies this, it
      ensures Valid() && it.pos == old(it.pos) + 1
      ensures mine == Yields(view, it.entries[old(it.pos)])
      ensures lastProcessed == Recorded(view, old(lastProcessed), it.entries[old(it.pos)])
    {
      mine := Examine(it.entries[it.pos]);
      it.pos := it.pos + 1;
    }

    method Poll(maxEntries: nat, patience: nat) returns (result: seq<WalEntry>)
      requires Valid()
      modifies this, it
      ensures Valid()
      ensures it.pos == PollEnd(view, it.entries, old(it.pos), maxEntries, patience) >= old(it.pos)
      ensures result == Selected(view, it.entries[old(it.pos)..it.pos])
      ensures |result| <= maxEntries && it.pos - old(it.pos) <= patience
      ensures it.pos == |it.entries| || |result| == maxEntries || it.pos - old(it.pos) == patience
      ensures |result| == maxEntries ==> it.pos == old(it.pos) || EndsWith(result, it.entries, it.pos)
      ensures forall e :: e in result <==>
                (e in it.entries[old(it.pos)..it.pos] && !IsSatellite(view.resolver, e) &&
                 BelongsTo(e, view.shard, view.shards))
      ensures lastProcessed == LastAfter(view, old(lastProcessed), it.entries[old(it.pos)..it.pos])
    {
      hide LastAfter, Recorded, Yields;
      result := [];
      var looks: nat := patience;
      ghost var start := it.pos;
      NothingExamined(view, it.entries, start, lastProcessed);
      while it.pos < |it.entries| && looks > 0 && |result| < maxEntries
        invariant Valid() && start <= it.pos && |result| <= maxEntries && looks + it.pos - start == patience
        invariant |result| == maxEntries ==> it.pos == start || EndsWith(result, it.entries, it.pos)
        invariant PollEnd(view, it.entries, it.pos, maxEntries - |result|, looks) ==
                  PollEnd(view, it.entries, start, maxEntries, patience)
        invariant result == Selected(view, it.entries[start..it.pos])
        invariant lastProcessed == LastAfter(view, old(lastProcessed), it.entries[start..it.pos])
        decreases looks
      {
        var current := it.entries[it.pos];
        ExamineOne(view, it.entries, start, it.pos, old(lastProcessed));
        var mine := ExamineNext();
        if mine {
          result := result + [current];
        }
        looks := looks - 1;
      }
      SelectedMembers(view, it.entries[start..it.pos]);
    }

    method SeekTo(sequence: nat)
      requires Valid()
      modifies this, it
      ensures Valid() && it.pos == SeekPos(it.entries, sequence)
      ensures forall i :: 0 <= i < it.pos ==> it.entries[i].sequence < sequence
      ensures it.pos < |it.entries| ==> it.entries[it.pos].sequence >= sequence
      ensures lastProcessed == if sequence > 0 then sequence - 1 else 0
    {
      it.Seek(sequence);
      lastProcessed := if sequence > 0 then sequence - 1 else 0;
    }
  }

  // ---------- runs of one tailer ----------

  /** A log as RocksDB writes it. */
  ghost predicate Increasing(entries: seq<WalEntry>) {
    && (forall i :: 0 <= i < |entries| ==> entries[i].sequence > 0)
    && (forall i, j :: 0 <= i < j < |entries| ==> entries[i].sequence < entries[j].sequence)
  }

  /** What is done with a tailer: a poll, or a restart from the last processed sequence plus one. */
  datatype Event = PollFor(maxEntries: nat, patience: nat) | Restart

  datatype Tail = Tail(pos: nat, last: nat, out: seq<WalEntry>)

  lemma {:induction false} PollStaysInside(v: View, entries: seq<WalEntry>, pos: nat, room: nat, patience: nat)
    requires pos <= |entries|
    ensures pos <= PollEnd(v, entries, pos, room, patience) <= |entries|
    decreases patience
  {
    if pos < |entries| && room > 0 && patience > 0 {
      PollStaysInside(v, entries, pos + 1, if Yields(v, entries[pos]) then room - 1 else room, patience - 1);
    }
  }

  function Next(v: View, entries: seq<WalEntry>, t: Tail, e: Event): Tail
    requires t.pos <= |entries|
  {
    match e
    case PollFor(maxEntries, patience) =>
      PollStaysInside(v, entries, t.pos, maxEntries, patience);
      var end := PollEnd(v, entries, t.pos, maxEntries, patience);
      Tail(end, LastAfter(v, t.last, entries[t.pos..end]), t.out + Selected(v, entries[t.pos..end]))
    case Restart => Tail(SeekPos(entries, t.last + 1), t.last, t.out)
  }

  function Follow(v: View, entries: seq<WalEntry>, events: seq<Event>): (t: Tail)
    ensures t.pos <= |entries|
  {
    if events == [] then Tail(0, 0, []) else
      var t := Follow(v, entries, events[..|events| - 1]);
      var e := events[|events| - 1];
      if e.PollFor? then PollStaysInside(v, entries, t.pos, e.maxEntries, e.patience); Next(v, entries, t, e)
      else SeekInside(entries, t.last + 1, 0); Next(v, entries, t, e)
  }

  lemma {:induction false} SelectedConcat(v: View, a: seq<WalEntry>, b: seq<WalEntry>)
    ensures Selected(v, a + b) == Selected(v, a) + Selected(v, b)
    decreases |b|
  {
    if b == [] {
      assert a + b == a;
    } else {
      assert (a + b)[..|a + b| - 1] == a + b[..|b| - 1];
      SelectedConcat(v, a, b[..|b| - 1]);
    }
  }

  /** In an increasing log the recorded sequence is that of the last entry examined. */
  lemma {:induction false} LastIsExamined(v: View, entries: seq<WalEntry>, i: nat, j: nat, last: nat)
    requires Increasing(entries) && i <= j <= |entries|
    requires last == if i == 0 then 0 else entries[i - 1].sequence
    ensures LastAfter(v, last, entries[i..j]) == if j == 0 then 0 else entries[j - 1].sequence
    decreases j
  {
    if i == j {
      assert entries[i..j] == [];
    } else {
      LastIsExamined(v, entries, i, j - 1, last);
      SliceSnoc(entries, i, j - 1);
    }
  }

  lemma {:induction false} SeekFinds(entries: seq<WalEntry>, pos: nat, i: nat)
    requires Increasing(entries) && i <= pos <= |entries|
    ensures SeekFrom(entries, (if pos == 0 then 0 else entries[pos - 1].sequence) + 1, i) == pos
    decreases pos - i
  {
    if i < pos {
      SeekFinds(entries, pos, i + 1);
    }
  }

  /** The tailer has yielded exactly its part of the log up to where it is, and knows where. */
  ghost predicate InStep(v: View, entries: seq<WalEntry>, t: Tail) {
    && t.pos <= |entries|
    && t.out == Selected(v, entries[..t.pos])
    && t.last == (if t.pos == 0 then 0 else entries[t.pos - 1].sequence)
  }

  lemma PollKeepsStep(v: View, entries: seq<WalEntry>, t: Tail, maxEntries: nat, patience: nat)
    requires Increasing(entries) && InStep(v, entries, t)
    ensures InStep(v, entries, Next(v, entries, t, PollFor(maxEntries, patience)))
  {
    var end := PollEnd(v, entries, t.pos, maxEntries, patience);
    PollStaysInside(v, entries, t.pos, maxEntries, patience);
    assert entries[..end] == entries[..t.pos] + entries[t.pos..end];
    SelectedConcat(v, entries[..t.pos], entries[t.pos..end]);
    LastIsExamined(v, entries, t.pos, end, t.last);
  }

  /** Whatever the chunk sizes, interruptions and restarts: a tailer has yielded exactly its part
      of the log up to where it is, in order, each entry once, and knows where that is. */
  lemma {:induction false} TailerYieldsItsPart(v: View, entries: seq<WalEntry>, events: seq<Event>)
    requires Increasing(entries)
    ensures InStep(v, entries, Follow(v, entries, events))
  {
    if events == [] {
      assert entries[..0] == [];
    } else {
      var m := |events| - 1;
      TailerYieldsItsPart(v, entries, events[..m]);
      var t := Follow(v, entries, events[..m]);
      match events[m]
      case PollFor(maxEntries, patience) => PollKeepsStep(v, entries, t, maxEntries, patience);
      case Restart => SeekFinds(entries, t.pos, 0);
    }
  }

  // ---------- and it gets to the end ----------

  /** A poll with room and patience moves on while there is something to look at. */
  lemma {:induction false} PollMoves(v: View, entries: seq<WalEntry>, pos: nat, room: nat, patience: nat)
    requires pos < |entries| && room > 0 && patience > 0
    ensures PollEnd(v, entries, pos, room, patience) > pos
  {
    PollStaysInside(v, entries, pos + 1, if Yields(v, entries[pos]) then room - 1 else room, patience - 1);
  }

  /** With room for all that is left and as much patience, one poll gets to the end. */
  lemma {:induction false} PollGetsThrough(v: View, entries: seq<WalEntry>, pos: nat, room: nat, patience: nat)
    requires pos <= |entries| && room >= |entries| - pos && patience >= |entries| - pos
    ensures PollEnd(v, entries, pos, room, patience) == |entries|
    decreases patience
  {
    if pos < |entries| {
      PollGetsThrough(v, entries, pos + 1, if Yields(v, entries[pos]) then room - 1 else room, patience - 1);
    }
  }

  /** How many polls of a run have room for an entry and patience for one. */
  function UsefulPolls(events: seq<Event>): nat {
    if events == [] then 0 else
      var e := events[|events| - 1];
      UsefulPolls(events[..|events| - 1]) + if e.PollFor? && e.maxEntries > 0 && e.patience > 0 then 1 else 0
  }

  /** As many useful polls as there are entries, with any restarts and useless polls between them,
      bring a tailer to the end of the log. */
  lemma {:induction false} PollsReachEnd(v: View, entries: seq<WalEntry>, events: seq<Event>)
    requires Increasing(entries)
    ensures Follow(v, entries, events).pos >= UsefulPolls(events) || Follow(v, entries, events).pos == |entries|
    ensures UsefulPolls(events) >= |entries| ==> Follow(v, entries, events).pos == |entries|
  {
    hide PollEnd, LastAfter, Selected, SeekFrom;
    if events != [] {
      var m := |events| - 1;
      var t := Follow(v, entries, events[..m]);
      PollsReachEnd(v, entries, events[..m]);
      match events[m]
      case PollFor(maxEntries, patience) =>
        PollStaysInside(v, entries, t.pos, maxEntries, patience);
        if t.pos < |entries| && maxEntries > 0 && patience > 0 { PollMoves(v, entries, t.pos, maxEntries, patience); }
      case Restart =>
        TailerYieldsItsPart(v, entries, events[..m]);
        SeekFinds(entries, t.pos, 0);
    }
  }

  // ---------- all tailers together ----------

  /** How often the parts hold the entry, all together. */
  function Copies(parts: seq<seq<WalEntry>>, e: WalEntry): nat {
    if parts == [] then 0 else
      Copies(parts[..|parts| - 1], e) + multiset(parts[|parts| - 1])[e]
  }

  /** The parts of n tailers: what each selects from the log. */
  function Parts(resolver: Resolver, n: nat, entries: seq<WalEntry>): (parts: seq<seq<WalEntry>>)
    ensures |parts| == n
  {
    seq(n, i requires 0 <= i < n => Selected(View(resolver, i, n), entries))
  }

  lemma {:induction false} SelectedCounts(v: View, entries: seq<WalEntry>, e: WalEntry)
    ensures multiset(Selected(v, entries))[e] == if Yields(v, e) then multiset(entries)[e] else 0
  {
    if entries != [] {
      var m := |entries| - 1;
      SelectedCounts(v, entries[..m], e);
      assert entries == entries[..m] + [entries[m]];
    }
  }

  /** The tailer an entry belongs to. */
  function Owner(e: WalEntry, n: nat): nat
    requires n > 0
  {
    if n == 1 then 0 else ShardIndex(e.key, n)
  }

  lemma OwnerYields(resolver: Resolver, n: nat, i: nat, e: WalEntry)
    requires i < n
    ensures Owner(e, n) < n
    ensures Yields(View(resolver, i, n), e) <==> !IsSatellite(resolver, e) && Owner(e, n) == i
  {
  }

  lemma {:induction false} CopiesUpTo(resolver: Resolver, n: nat, upTo: nat, entries: seq<WalEntry>, e: WalEntry)
    requires 0 < n && upTo <= n
    ensures Copies(Parts(resolver, n, entries)[..upTo], e) ==
            if IsSatellite(resolver, e) || Owner(e, n) >= upTo then 0 else multiset(entries)[e]
  {
    hide Selected;
    if upTo > 0 {
      var parts := Parts(resolver, n, entries);
      CopiesUpTo(resolver, n, upTo - 1, entries, e);
      assert parts[..upTo][..upTo - 1] == parts[..upTo - 1];
      SelectedCounts(View(resolver, upTo - 1, n), entries, e);
      OwnerYields(resolver, n, upTo - 1, e);
    }
  }

  lemma OnlyOwners(resolver: Resolver, n: nat, i: nat, entries: seq<WalEntry>, e: WalEntry)
    requires i < n && e in Selected(View(resolver, i, n), entries)
    ensures i == Owner(e, n)
  {
    SelectedCounts(View(resolver, i, n), entries, e);
    assert e in multiset(Selected(View(resolver, i, n), entries));
    OwnerYields(resolver, n, i, e);
  }

  /** The tailers' parts are disjoint and together are exactly the non-satellite entries: each
      such entry is in the parts as often as in the log, each satellite entry not at all. */
  lemma TailersSplitTheLog(resolver: Resolver, n: nat, entries: seq<WalEntry>, e: WalEntry)
    requires n > 0
    ensures Copies(Parts(resolver, n, entries), e) == if IsSatellite(resolver, e) then 0 else multiset(entries)[e]
    ensures forall i :: 0 <= i < n && e in Parts(resolver, n, entries)[i] ==> i == Owner(e, n)
  {
    var parts := Parts(resolver, n, entries);
    CopiesUpTo(resolver, n, n, entries, e);
    assert parts[..n] == parts;
    OwnerYields(resolver, n, 0, e);
    forall i | 0 <= i < n && e in parts[i] ensures i == Owner(e, n) {
      OnlyOwners(resolver, n, i, entries, e);
    }
  }

  // ---------- and all of them running ----------

  /** What n tailers have yielded, each after its own run of events. */
  function Outputs(resolver: Resolver, entries: seq<WalEntry>, runs: seq<seq<Event>>): (outs: seq<seq<WalEntry>>)
    ensures |outs| == |runs|
  {
    seq(|runs|, i requires 0 <= i < |runs| => Follow(View(resolver, i, |runs|), entries, runs[i]).out)
  }

  /** A tailer at the end of the log has yielded its part, in log order. */
  lemma AtEndOfLog(v: View, entries: seq<WalEntry>, events: seq<Event>)
    requires Increasing(entries) && Follow(v, entries, events).pos == |entries|
    ensures Follow(v, entries, events).out == Selected(v, entries)
  {
    TailerYieldsItsPart(v, entries, events);
    assert entries[..|entries|] == entries;
  }

  lemma OutputsAreParts(resolver: Resolver, entries: seq<WalEntry>, runs: seq<seq<Event>>)
    requires Increasing(entries)
    requires forall i :: 0 <= i < |runs| ==> Follow(View(resolver, i, |runs|), entries, runs[i]).pos == |entries|
    ensures Outputs(resolver, entries, runs) == Parts(resolver, |runs|, entries)
  {
    forall i | 0 <= i < |runs| ensures Outputs(resolver, entries, runs)[i] == Parts(resolver, |runs|, entries)[i] {
      AtEndOfLog(View(resolver, i, |runs|), entries, runs[i]);
    }
  }

  /** N tailers, each with its own polls, chunk sizes, interruptions and restarts: once they have
      reached the end of the log, each has yielded its part in log order, each non-satellite entry
      has been yielded as often as it is in the log and by its owner only, and no satellite entry. */
  lemma TailersDeliverTheLog(resolver: Resolver, entries: seq<WalEntry>, runs: seq<seq<Event>>, e: WalEntry)
    requires Increasing(entries) && runs != []
    requires forall i :: 0 <= i < |runs| ==> Follow(View(resolver, i, |runs|), entries, runs[i]).pos == |entries|
    ensures Outputs(resolver, entries, runs) == Parts(resolver, |runs|, entries)
    ensures Copies(Outputs(resolver, entries, runs), e) == if IsSatellite(resolver, e) then 0 else multiset(entries)[e]
    ensures forall i :: 0 <= i < |runs| && e in Outputs(resolver, entries, runs)[i] ==> i == Owner(e, |runs|)
  {
    OutputsAreParts(resolver, entries, runs);
    TailersSplitTheLog(resolver, |runs|, entries, e);
  }

  /** So N tailers that each make enough useful polls do reach it, and deliver the log. */
  lemma EnoughPollsDeliver(resolver: Resolver, entries: seq<WalEntry>, runs: seq<seq<Event>>, e: WalEntry)
    requires Increasing(entries) && runs != []
    requires forall i :: 0 <= i < |runs| ==> UsefulPolls(runs[i]) >= |entries|
    ensures Outputs(resolver, entries, runs) == Parts(resolver, |runs|, entries)
    ensures Copies(Outputs(resolver, entries, runs), e) == if IsSatellite(resolver, e) then 0 else multiset(entries)[e]
  {
    forall i | 0 <= i < |runs| ensures Follow(View(resolver, i, |runs|), entries, runs[i]).pos == |entries| {
      PollsReachEnd(View(resolver, i, |runs|), entries, runs[i]);
    }
    TailersDeliverTheLog(resolver, entries, runs, e);
  }
}
