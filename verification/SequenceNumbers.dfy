/** Numbering batches per shard from any number of threads.
    Models Enterprise/Replication/SequenceNumberGenerator.cpp without `reset`: the probe under the
    read lock, the emplace under the write lock and the atomic add are separate steps. */
module SequenceNumbers {
  type Shard = string

  /** Where one thread is inside `nextSequence`. Counters are shared objects, named by index. */
  datatype Thread = Outside | Missed(shard: Shard) | Holding(shard: Shard, counter: nat)

  datatype Issued = Issued(shard: Shard, value: nat)

  datatype Generator = Generator(counters: map<Shard, nat>, cells: seq<nat>, threads: seq<Thread>, issued: seq<Issued>)

  datatype Step =
    | Probe(thread: nat, shard: Shard)
    | Emplace(thread: nat)
    | Add(thread: nat)

  function Start(threads: nat): Generator {
    Generator(map[], [], seq(threads, _ => Outside), [])
  }

  function Take(g: Generator, s: Step): Generator {
    if s.thread >= |g.threads| then g else
      var t := g.threads[s.thread];
      match s
      case Probe(i, shard) =>
        if t != Outside then g
        else if shard in g.counters then g.(threads := g.threads[i := Holding(shard, g.counters[shard])])
        else g.(threads := g.threads[i := Missed(shard)])
      case Emplace(i) =>
        if !t.Missed? then g
        else if t.shard in g.counters then g.(threads := g.threads[i := Holding(t.shard, g.counters[t.shard])])
        else g.(counters := g.counters[t.shard := |g.cells|], cells := g.cells + [0],
                threads := g.threads[i := Holding(t.shard, |g.cells|)])
      case Add(i) =>
        if !t.Holding? || t.counter >= |g.cells| then g
        else g.(cells := g.cells[t.counter := g.cells[t.counter] + 1], threads := g.threads[i := Outside],
                issued := g.issued + [Issued(t.shard, g.cells[t.counter] + 1)])
  }

  function Run(threads: nat, steps: seq<Step>): Generator {
    if steps == [] then Start(threads) else Take(Run(threads, steps[..|steps| - 1]), steps[|steps| - 1])
  }

  /** The values returned for one shard, in the order of the atomic adds. */
  function ValuesOf(issued: seq<Issued>, shard: Shard): seq<nat> {
    if issued == [] then [] else
      var last := issued[|issued| - 1];
      ValuesOf(issued[..|issued| - 1], shard) + if last.shard == shard then [last.value] else []
  }

  function UpTo(m: nat): seq<nat> {
    seq(m, i => i + 1)
  }

  function Count(g: Generator, shard: Shard): nat {
    if shard in g.counters && g.counters[shard] < |g.cells| then g.cells[g.counters[shard]] else 0
  }

  /** One counter a shard, never replaced; threads hold the counter their shard has. */
  ghost predicate Linked(g: Generator) {
    && (forall s :: s in g.counters ==> g.counters[s] < |g.cells|)
    && (forall s, t :: s in g.counters && t in g.counters && g.counters[s] == g.counters[t] ==> s == t)
    && (forall i :: 0 <= i < |g.threads| && g.threads[i].Holding? ==>
          g.threads[i].shard in g.counters && g.counters[g.threads[i].shard] == g.threads[i].counter)
  }

  ghost predicate Numbered(g: Generator) {
    forall s :: ValuesOf(g.issued, s) == UpTo(Count(g, s))
  }

  lemma AddNumbers(g: Generator, i: nat)
    requires Linked(g) && Numbered(g) && i < |g.threads| && g.threads[i].Holding?
    ensures Linked(Take(g, Add(i))) && Numbered(Take(g, Add(i)))
  {
    var t, h := g.threads[i], Take(g, Add(i));
    forall s ensures ValuesOf(h.issued, s) == UpTo(Count(h, s)) {
      assert h.issued[..|g.issued|] == g.issued;
      assert ValuesOf(g.issued, s) == UpTo(Count(g, s));
      if s == t.shard {
        assert UpTo(Count(g, s) + 1) == UpTo(Count(g, s)) + [Count(g, s) + 1];
      }
    }
  }

  lemma SameNumbers(g: Generator, h: Generator)
    requires Numbered(g) && h.issued == g.issued && forall x :: Count(h, x) == Count(g, x)
    ensures Numbered(h)
  {
    forall x ensures ValuesOf(h.issued, x) == UpTo(Count(h, x)) {
      assert ValuesOf(g.issued, x) == UpTo(Count(g, x));
    }
  }

  lemma ProbeKeeps(g: Generator, i: nat, shard: Shard)
    requires Linked(g) && Numbered(g)
    ensures Linked(Take(g, Probe(i, shard))) && Numbered(Take(g, Probe(i, shard)))
  {
    SameNumbers(g, Take(g, Probe(i, shard)));
  }

  /** A thread that missed finds the counter another thread made meanwhile, or makes it. */
  lemma EmplaceKeeps(g: Generator, i: nat)
    requires Linked(g) && Numbered(g)
    ensures Linked(Take(g, Emplace(i))) && Numbered(Take(g, Emplace(i)))
  {
    SameNumbers(g, Take(g, Emplace(i)));
  }

  lemma StepKeeps(g: Generator, s: Step)
    requires Linked(g) && Numbered(g)
    ensures Linked(Take(g, s)) && Numbered(Take(g, s))
  {
    match s
    case Probe(i, shard) => ProbeKeeps(g, i, shard);
    case Emplace(i) => EmplaceKeeps(g, i);
    case Add(i) => if i < |g.threads| && g.threads[i].Holding? { AddNumbers(g, i); }
  }

  /** The m numbers issued for a shard so far are exactly 1..m, in order, whatever the threads'
      interleaving: no two calls get the same number and none is left out. */
  lemma {:induction false} NumbersAreOneToM(threads: nat, steps: seq<Step>)
    ensures Linked(Run(threads, steps)) && Numbered(Run(threads, steps))
  {
    if steps == [] {
      assert forall s :: UpTo(Count(Start(threads), s)) == [];
    } else {
      var m := |steps| - 1;
      NumbersAreOneToM(threads, steps[..m]);
      StepKeeps(Run(threads, steps[..m]), steps[m]);
    }
  }

  lemma {:induction false} ValueIsIssued(issued: seq<Issued>, shard: Shard, i: nat) returns (j: nat)
    requires i < |issued| && issued[i].shard == shard
    ensures j == |ValuesOf(issued[..i], shard)| < |ValuesOf(issued, shard)|
    ensures ValuesOf(issued, shard)[j] == issued[i].value
    decreases |issued|
  {
    var m := |issued| - 1;
    if i < m {
      j := ValueIsIssued(issued[..m], shard, i);
      assert issued[..m][..i] == issued[..i];
    } else {
      j := |ValuesOf(issued[..i], shard)|;
    }
  }

  /** Distinctness, said directly: two calls for one shard never return the same number. */
  lemma NoNumberTwice(threads: nat, steps: seq<Step>, i: nat, j: nat)
    requires i < j < |Run(threads, steps).issued|
    requires Run(threads, steps).issued[i].shard == Run(threads, steps).issued[j].shard
    ensures Run(threads, steps).issued[i].value < Run(threads, steps).issued[j].value
  {
    var g := Run(threads, steps);
    var s := g.issued[i].shard;
    NumbersAreOneToM(threads, steps);
    assert ValuesOf(g.issued, s) == UpTo(Count(g, s));
    var p := ValueIsIssued(g.issued, s, i);
    var q := ValueIsIssued(g.issued, s, j);
    var r := ValueIsIssued(g.issued[..j], s, i);
    assert g.issued[..j][..i] == g.issued[..i];
  }

  lemma RunSnoc(threads: nat, steps: seq<Step>, s: Step)
    ensures Run(threads, steps + [s]) == Take(Run(threads, steps), s)
  {
    assert (steps + [s])[..|steps|] == steps;
  }

  lemma CountIs(g: Generator, shard: Shard)
    requires Numbered(g)
    ensures |ValuesOf(g.issued, shard)| == Count(g, shard)
  {
    assert ValuesOf(g.issued, shard) == UpTo(Count(g, shard));
  }

  lemma CallOf(g: Generator, i: nat, shard: Shard)
    requires Linked(g) && i < |g.threads| && g.threads[i] == Outside
    ensures var h := Take(Take(Take(g, Probe(i, shard)), Emplace(i)), Add(i));
            && h.issued == g.issued + [Issued(shard, Count(g, shard) + 1)]
            && h.threads == g.threads
  {
    assert g.threads[i := Outside] == g.threads;
  }

  /** A call that runs through returns the next number of its shard, the first one being 1, and leaves
      its thread as it was; in whatever state the other threads are. */
  lemma CallReturnsNext(threads: nat, steps: seq<Step>, i: nat, shard: Shard)
    requires i < |Run(threads, steps).threads| && Run(threads, steps).threads[i] == Outside
    ensures var before, after := Run(threads, steps), Run(threads, steps + [Probe(i, shard)] + [Emplace(i)] + [Add(i)]);
            && after.issued == before.issued + [Issued(shard, |ValuesOf(before.issued, shard)| + 1)]
            && after.threads == before.threads
  {
    hide *;
    RunSnoc(threads, steps, Probe(i, shard));
    RunSnoc(threads, steps + [Probe(i, shard)], Emplace(i));
    RunSnoc(threads, steps + [Probe(i, shard)] + [Emplace(i)], Add(i));
    NumbersAreOneToM(threads, steps);
    CallOf(Run(threads, steps), i, shard);
    CountIs(Run(threads, steps), shard);
  }
}
