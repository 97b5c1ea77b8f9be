/** Folding one window's page records into the run's summary. */
module Summary {
  import Counting
  import opened CacheSpec
  import opened Observation
  import opened CounterSpec
  import opened Agreement
  import opened ProfilerSpec

  function CountUnique(vs: seq<Visit>, n: nat): nat {
    if vs == [] then 0 else CountUnique(vs[..|vs| - 1], n) + One(|vs[|vs| - 1].rec.mask| == n)
  }

  ghost function VisitedWith(vs: seq<Visit>, n: nat): set<nat> {
    set i | 0 <= i < |vs| && |vs[i].rec.mask| == n :: vs[i].page
  }

  lemma {:induction false} CountUniqueIsSize(vs: seq<Visit>, n: nat)
    requires Counting.Distinct(PagesIn(vs))
    ensures CountUnique(vs, n) == |VisitedWith(vs, n)|
  {
    hide VisitedWith;
    if vs == [] {
      NoVisits(n);
    } else {
      var init, v := vs[..|vs| - 1], vs[|vs| - 1];
      assert PagesIn(init) == PagesIn(vs)[..|vs| - 1];
      CountUniqueIsSize(init, n);
      OneMoreVisit(vs, n);
    }
  }

  lemma NoVisits(n: nat)
    ensures VisitedWith([], n) == {}
  {
  }

  lemma OneMoreVisit(vs: seq<Visit>, n: nat)
    requires vs != [] && Counting.Distinct(PagesIn(vs))
    ensures var init, v := vs[..|vs| - 1], vs[|vs| - 1];
      && v.page !in VisitedWith(init, n)
      && VisitedWith(vs, n) == if |v.rec.mask| == n then VisitedWith(init, n) + {v.page} else VisitedWith(init, n)
  {
    var init, v := vs[..|vs| - 1], vs[|vs| - 1];
    forall i | 0 <= i < |init| ensures init[i].page != v.page {
      assert PagesIn(vs)[i] != PagesIn(vs)[|vs| - 1];
    }
    assert forall i :: 0 <= i < |init| ==> vs[i] == init[i];
  }

  /** The visited pages with n distinct words are the touched pages with n distinct words. */
  lemma CountsUniquePages(vs: seq<Visit>, stream: seq<Event>, n: nat)
    requires Visits(vs, stream, TouchedPages(stream))
    ensures CountUnique(vs, n) == |UniquePages(stream, n)|
  {
    CountUniqueIsSize(vs, n);
    forall p ensures p in VisitedWith(vs, n) <==> p in UniquePages(stream, n) {
      if p in VisitedWith(vs, n) {
        var i :| 0 <= i < |vs| && |vs[i].rec.mask| == n && vs[i].page == p;
        assert PagesIn(vs)[i] in Counting.Elements(PagesIn(vs));
      }
      if p in UniquePages(stream, n) {
        assert p in Counting.Elements(PagesIn(vs));
        var i :| 0 <= i < |vs| && PagesIn(vs)[i] == p;
        assert vs[i].page == p;
      }
    }
    assert VisitedWith(vs, n) == UniquePages(stream, n);
  }

  lemma OneMoreWindow(ws: seq<Window>, w: Window)
    ensures MarkWindows(ws + [w]) == MarkWindows(ws) + [w.marks]
    ensures forall n :: SummaryHist(ws + [w], n) == SummaryHist(ws, n) + |UniquePages(w.drams, n)|
    ensures TotalDrams(ws + [w]) == TotalDrams(ws) + |w.drams|
  {
    assert (ws + [w])[..|ws|] == ws;
  }

  /** Adds every visited page to the bin of its unique words, and totals pages' accesses. */
  method AddPages(hist: array<nat>, vs: seq<Visit>, ghost stream: seq<Event>) returns (accesses: nat)
    requires hist.Length == 65 && Visits(vs, stream, TouchedPages(stream))
    modifies hist
    ensures forall n :: 0 <= n <= 64 ==> hist[n] == old(hist[n]) + |UniquePages(stream, n)|
    ensures accesses == |stream|
  {
    accesses := 0;
    for i := 0 to |vs|
      invariant forall n :: 0 <= n <= 64 ==> hist[n] == old(hist[n]) + CountUnique(vs[..i], n)
      invariant accesses == SumAccesses(vs[..i])
    {
      assert vs[..i + 1][..i] == vs[..i];
      var rec := vs[i].rec;
      RecOfDescribes(stream, vs[i].page);
      MaskSize(rec.mask);
      hist[|rec.mask|] := hist[|rec.mask|] + 1;
      accesses := accesses + rec.nreads + rec.nwrites;
    }
    assert vs[..|vs|] == vs;
    forall n | 0 <= n <= 64 ensures CountUnique(vs, n) == |UniquePages(stream, n)| { CountsUniquePages(vs, stream, n); }
    VisitsCoverStream(vs, stream);
  }
}
