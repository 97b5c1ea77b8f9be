/** The three statistics of a level over whole streams of accesses. */
module Statistics {
  import Counting
  import opened CacheSpec
  import opened CacheModel
  import opened Lru

  /** The statistics after a stream, from zero: each access adds its outcome. */
  function Tallies(l: Level, refs: seq<Ref>): (nat, nat, nat)
    requires Ok(l)
  {
    if refs == [] then (0, 0, 0)
    else
      var r := refs[|refs| - 1];
      var before := refs[..|refs| - 1];
      Tallied(Tallies(l, before), Access(Feed(l, before), r.line, r.t).1)
  }

  /** Access i of the stream finds its line held. */
  ghost predicate Finds(l: Level, refs: seq<Ref>, i: nat)
    requires Ok(l)
  {
    i < |refs| && Holds(Feed(l, refs[..i]), refs[i].line)
  }

  /** Access i is a store to a line that is not dirty yet. */
  ghost predicate Dirties(l: Level, refs: seq<Ref>, i: nat)
    requires Ok(l)
  {
    i < |refs| && refs[i].t.Write? && !IsDirty(Feed(l, refs[..i]), refs[i].line)
  }

  ghost function Found(l: Level, refs: seq<Ref>): set<nat>
    requires Ok(l)
  {
    Counting.Among(|refs|, (i: nat) => Finds(l, refs, i))
  }

  ghost function FirstStores(l: Level, refs: seq<Ref>): set<nat>
    requires Ok(l)
  {
    Counting.Among(|refs|, (i: nat) => Dirties(l, refs, i))
  }

  lemma SameBefore(l: Level, refs: seq<Ref>, n: nat, i: nat)
    requires Ok(l) && i < n <= |refs|
    ensures Finds(l, refs[..n], i) <==> Finds(l, refs, i)
    ensures Dirties(l, refs[..n], i) <==> Dirties(l, refs, i)
  {
    assert refs[..n][..i] == refs[..i];
  }

  lemma FoundNext(l: Level, refs: seq<Ref>)
    requires Ok(l) && refs != []
    ensures var n := |refs| - 1;
      && |Found(l, refs)| == |Found(l, refs[..n])| + One(Finds(l, refs, n))
      && |FirstStores(l, refs)| == |FirstStores(l, refs[..n])| + One(Dirties(l, refs, n))
  {
    hide Finds, Dirties;
    var n, init := |refs| - 1, refs[..|refs| - 1];
    forall i | 0 <= i < n
      ensures Finds(l, init, i) <==> Finds(l, refs, i)
      ensures Dirties(l, init, i) <==> Dirties(l, refs, i)
    {
      SameBefore(l, refs, n, i);
    }
    Counting.AmongSame(n, (i: nat) => Finds(l, init, i), (i: nat) => Finds(l, refs, i));
    Counting.AmongSame(n, (i: nat) => Dirties(l, init, i), (i: nat) => Dirties(l, refs, i));
    Counting.AmongNext(n, (i: nat) => Finds(l, refs, i));
    Counting.AmongNext(n, (i: nat) => Dirties(l, refs, i));
  }

  /** Hits are the accesses that find their line, misses are all others, and every line that became
      dirty has been written back or still is. */
  lemma {:induction false} StatisticsMean(l: Level, refs: seq<Ref>)
    requires Ok(l)
    ensures var (hits, misses, writebacks) := Tallies(l, refs);
      && hits == |Found(l, refs)| && hits + misses == |refs|
      && writebacks + |DirtyLines(Feed(l, refs))| == |DirtyLines(l)| + |FirstStores(l, refs)|
  {
    hide DirtyLines, Found, FirstStores, Access, Holds, IsDirty, Effects;
    if refs == [] {
      NothingFound(l);
    } else {
      var n := |refs| - 1;
      var before, r := Feed(l, refs[..n]), refs[n];
      StatisticsMean(l, refs[..n]);
      FoundNext(l, refs);
      Effect(before, r.line, r.t);
      var (after, o) := Access(before, r.line, r.t);
      TokenBalance(before, r.line, r.t, after, o);
      OutcomeIs(before, r.line, r.t);
    }
  }

  lemma OutcomeIs(l: Level, line: Line, t: AccessType)
    requires Ok(l)
    ensures Access(l, line, t).1.hit <==> Holds(l, line)
  {
    LineAfter(l, line, t);
  }

  lemma NothingFound(l: Level)
    requires Ok(l)
    ensures Found(l, []) == {} && FirstStores(l, []) == {}
  {
  }

  /** Access i has a reuse distance below the associativity. */
  ghost predicate ShortReuse(refs: seq<Ref>, sets: nat, assoc: nat, i: nat)
    requires sets > 0
  {
    i < |refs| && Touched(refs[..i], refs[i].line) && |Since(refs[..i], sets, refs[i].line)| < assoc
  }

  /** From cold the hits are the accesses of a reuse distance below the associativity. */
  lemma HitsAreShortReuse(assoc: nat, sets: nat, refs: seq<Ref>)
    requires 1 <= assoc && 1 <= sets
    ensures Ok(Cold(assoc, sets))
    ensures Tallies(Cold(assoc, sets), refs).0 == |Counting.Among(|refs|, (i: nat) => ShortReuse(refs, sets, assoc, i))|
  {
    ColdHoldsNothing(assoc, sets);
    var l := Cold(assoc, sets);
    StatisticsMean(l, refs);
    hide Tallies, Finds, ShortReuse;
    forall i | 0 <= i < |refs| ensures Finds(l, refs, i) <==> ShortReuse(refs, sets, assoc, i) {
      FindsShort(assoc, sets, refs, i);
    }
    Counting.AmongSame(|refs|, (i: nat) => Finds(l, refs, i), (i: nat) => ShortReuse(refs, sets, assoc, i));
  }

  lemma FindsShort(assoc: nat, sets: nat, refs: seq<Ref>, i: nat)
    requires 1 <= assoc && 1 <= sets && i < |refs| && Ok(Cold(assoc, sets))
    ensures Finds(Cold(assoc, sets), refs, i) <==> ShortReuse(refs, sets, assoc, i)
  {
    Residency(assoc, sets, refs[..i], refs[i].line);
  }
}
