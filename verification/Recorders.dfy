/** The point where a DRAM access reaches the device: the paired observer and the exact counters
    are updated from the same place. */
module Recorders {
  import opened CacheSpec
  import opened CounterTable
  import opened Observation
  import opened PairedObserver
  import opened ProfilerSpec

  method RecordDram(c: Config, counters: CounterTable, pair: PairedObserver, e: Event)
    requires counters.Contents().Some? && pair.Contents().Some? && pair.Repr() !! counters.owned
    modifies counters, counters.owned, pair, pair.epochEvents, pair.totalEvents
    ensures counters.Contents() == Some(old(counters.Contents().value) + [e])
    ensures pair.Contents() == Some(Noted(old(pair.Contents().value), if c.paired then MarksOfDram(e) else []))
    ensures fresh(counters.owned - old(counters.owned)) && pair.Repr() !! counters.owned
  {
    hide pair.Contents, counters.Contents;
    if c.paired {
      RecordMarks(pair, e);
    } else {
      assert Noted(pair.Contents().value, []) == pair.Contents().value;
    }
    counters.Record(e.line, e.write);
  }

  function Noted(was: Seen, more: seq<Marked>): Seen {
    Seen(was.closed, was.marks + more)
  }

  method RecordMarks(pair: PairedObserver, e: Event)
    requires pair.Contents().Some?
    modifies pair, pair.epochEvents, pair.totalEvents
    ensures pair.Contents() == Some(Noted(old(pair.Contents().value), MarksOfDram(e)))
  {
    hide pair.Contents;
    ghost var before := pair.Contents().value.marks;
    if !e.write { pair.Record(e.line, FILLS); }
    pair.Record(e.line, TRAFFIC);
    assert !e.write ==> before + [Marked(e.line, FILLS)] + [Marked(e.line, TRAFFIC)] == before + MarksOfDram(e);
  }

  /** The callback for the DRAM accesses of one transaction: writebacks only if they are counted. */
  method RecordEvents(c: Config, counters: CounterTable, pair: PairedObserver, es: seq<Event>) returns (n: nat)
    requires counters.Contents().Some? && pair.Contents().Some? && pair.Repr() !! counters.owned
    modifies counters, counters.owned, pair, pair.epochEvents, pair.totalEvents
    ensures counters.Contents() == Some(old(counters.Contents().value) + Kept(c, es)) && n == |Kept(c, es)|
    ensures pair.Contents() == Some(Noted(old(pair.Contents().value), if c.paired then DramMarks(Kept(c, es)) else []))
    ensures fresh(counters.owned - old(counters.owned)) && pair.Repr() !! counters.owned
  {
    hide pair.Contents, counters.Contents, Kept, DramMarks, Noted, MarksOfDram;
    n := 0;
    ghost var was, stream := pair.Contents().value, counters.Contents().value;
    Unchanged(was);
    KeptStep(c, es, 0);
    assert stream + Kept(c, es[..0]) == stream;
    for i := 0 to |es|
      invariant counters.Contents() == Some(stream + Kept(c, es[..i])) && n == |Kept(c, es[..i])|
      invariant pair.Contents() == Some(Noted(was, if c.paired then DramMarks(Kept(c, es[..i])) else []))
      invariant fresh(counters.owned - old(counters.owned)) && pair.Repr() !! counters.owned
    {
      KeptStep(c, es, i);
      if !es[i].write || c.countWB {
        ghost var kept := Kept(c, es[..i]);
        RecordDram(c, counters, pair, es[i]);
        n := n + 1;
        MoreMarks(c, was, kept, es[i]);
        Regroup(stream, kept, es[i]);
      }
    }
    assert es[..|es|] == es;
  }

  lemma OneDram(e: Event)
    ensures DramMarks([e]) == MarksOfDram(e)
  {
    assert [e][..0] == [];
  }

  lemma Regroup(a: seq<Event>, b: seq<Event>, e: Event)
    ensures a + b + [e] == a + (b + [e])
  {
  }

  lemma Unchanged(was: Seen)
    ensures Noted(was, []) == was
  {
  }

  lemma KeptStep(c: Config, es: seq<Event>, i: nat)
    requires i <= |es|
    ensures Kept(c, []) == [] && DramMarks([]) == []
    ensures i < |es| ==>
      Kept(c, es[..i + 1]) == if !es[i].write || c.countWB then Kept(c, es[..i]) + [es[i]] else Kept(c, es[..i])
  {
    if i < |es| { assert es[..i + 1][..i] == es[..i] && es[..i + 1] == es[..i] + [es[i]]; }
  }

  lemma MoreMarks(c: Config, was: Seen, kept: seq<Event>, e: Event)
    ensures Noted(Noted(was, if c.paired then DramMarks(kept) else []), if c.paired then MarksOfDram(e) else [])
      == Noted(was, if c.paired then DramMarks(kept + [e]) else [])
  {
    assert (kept + [e])[..|kept|] == kept;
    assert was.marks + DramMarks(kept) + MarksOfDram(e) == was.marks + (DramMarks(kept) + MarksOfDram(e));
    assert was.marks + [] + [] == was.marks + [];
  }
}
