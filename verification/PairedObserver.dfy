/** The paired observer: three streams over the same windows, kept as pages of masks that are
    updated and cleared in place. Ghost lists of marks give the state its meaning. */
module PairedObserver {
  import opened CacheSpec
  import opened Observation

  /** The marks of every closed window and of the open one. */
  datatype Seen = Seen(closed: seq<seq<Marked>>, marks: seq<Marked>)

  class PairedObserver {
    var epoch: Pages
    var whole: Pages
    const epochEvents: array<nat>
    const totalEvents: array<nat>
    const pooled: array3<nat>
    ghost var marks: seq<Marked>
    ghost var closed: seq<seq<Marked>>
    ghost var all: seq<Marked>  // every mark since the start

    ghost function Repr(): set<object> {
      {this, epochEvents, totalEvents, pooled}
    }

    ghost predicate Valid()
      reads Repr()
    {
      && epochEvents != totalEvents
      && pooled.Length0 == 3 && pooled.Length1 == 3 && pooled.Length2 == 65
      && MarksOk(marks) && WindowsOk(closed) && MarksOk(all)
      && epoch == PagesOf(marks) && whole == PagesOf(all)
      && Tallies(epochEvents, marks) && Tallies(totalEvents, all)
      && IsPooled(pooled, PagesOfAll(closed))
      && all == Flatten(closed) + marks
    }

    /** What a well-formed observer has seen. */
    ghost function Contents(): Option<Seen>
      reads Repr()
    {
      if Valid() then Some(Seen(closed, marks)) else None
    }

    constructor ()
      ensures fresh(Repr()) && Contents() == Some(Seen([], []))
    {
      epoch, whole := map[], map[];
      epochEvents := new nat[3](_ => 0);
      totalEvents := new nat[3](_ => 0);
      pooled := new nat[3, 3, 65]((_, _, _) => 0);
      marks, closed, all := [], [], [];
    }

    method Record(line: Line, stream: nat)
      requires Contents().Some? && stream < 3
      modifies `epoch, `whole, `marks, `all, epochEvents, totalEvents
      ensures var was := old(Contents().value);
        Contents() == Some(Seen(was.closed, was.marks + [Marked(line, stream)]))
    {
      hide Valid;
      Note(line, stream);
    }

    method Note(line: Line, stream: nat)
      requires Valid() && stream < 3
      modifies `epoch, `whole, `marks, `all, epochEvents, totalEvents
      ensures Valid() && marks == old(marks) + [Marked(line, stream)]
    {
      hide PagesOf, PagesOfAll, EventsOf, Flatten, Mark, MarksOk, WindowsOk, IsPooled, Tallies;
      ghost var m := Marked(line, stream);
      OneMorePages(marks, m);
      OneMorePages(all, m);
      Append(Flatten(closed), marks, m);
      epoch := Mark(epoch, line, stream);
      whole := Mark(whole, line, stream);
      marks, all := marks + [m], all + [m];
      Tick(epochEvents, stream, old(marks), line);
      Tick(totalEvents, stream, old(all), line);
    }

    method Empty() returns (b: bool)
      requires Contents().Some?
      ensures b <==> Contents().value.marks == []
    {
      b := epoch == map[];
      if marks != [] {
        assert marks[|marks| - 1].line / 64 in epoch;
      }
    }

    /** Reports the window's histograms and event counts, pools them and clears the window. */
    method EndEpoch() returns (hist: array3<nat>, events: seq<nat>)
      requires Contents().Some?
      modifies `epoch, `marks, `closed, epochEvents, pooled
      ensures var was := old(Contents().value);
        && MarksOk(was.marks) && Contents() == Some(Seen(was.closed + [was.marks], []))
        && fresh(hist) && IsHistogram(hist, PagesOf(was.marks)) && events == EventCounts(was.marks)
    {
      hide Valid;
      hist, events := CloseWindow();
    }

    method CloseWindow() returns (hist: array3<nat>, events: seq<nat>)
      requires Valid()
      modifies `epoch, `marks, `closed, epochEvents, pooled
      ensures Valid() && marks == [] && closed == old(closed) + [old(marks)]
      ensures MarksOk(old(marks)) && fresh(hist) && IsHistogram(hist, PagesOf(old(marks)))
      ensures events == EventCounts(old(marks))
    {
      hide PagesOf, PagesOfAll, EventsOf, Flatten, MarksOk, WindowsOk, IsPooled, IsHistogram;
      hist := Histograms(epoch);
      events := epochEvents[..];
      Pool(pooled, hist, PagesOfAll(closed), PagesOf(marks));
      WindowCloses(closed, marks);
      NoMarks();
      closed := closed + [marks];
      epoch, marks := map[], [];
      forall s | 0 <= s < 3 { epochEvents[s] := 0; }
    }

    /** The closing report: pooled histograms as accumulated, and those of the whole run. */
    method Finish() returns (pooledHist: array3<nat>, wholeHist: array3<nat>, events: seq<nat>)
      requires Contents().Some?
      ensures var was := Contents().value; var all := Flatten(was.closed) + was.marks;
        && WindowsOk(was.closed) && IsPooled(pooledHist, PagesOfAll(was.closed))
        && MarksOk(all) && fresh(wholeHist) && IsHistogram(wholeHist, PagesOf(all)) && events == EventCounts(all)
    {
      wholeHist := Histograms(whole);
      pooledHist := pooled;
      events := totalEvents[..];
    }
  }

  /** The three event counters of a list of marks. */
  ghost predicate Tallies(events: array<nat>, marks: seq<Marked>)
    reads events
  {
    && events.Length == 3
    && events[ACCESSES] == EventsOf(marks, ACCESSES)
    && events[FILLS] == EventsOf(marks, FILLS)
    && events[TRAFFIC] == EventsOf(marks, TRAFFIC)
  }

  method Tick(events: array<nat>, stream: nat, ghost marks: seq<Marked>, ghost line: Line)
    requires stream < 3 && MarksOk(marks) && Tallies(events, marks)
    modifies events
    ensures Tallies(events, marks + [Marked(line, stream)])
  {
    OneMoreEvents(marks, Marked(line, stream), ACCESSES);
    OneMoreEvents(marks, Marked(line, stream), FILLS);
    OneMoreEvents(marks, Marked(line, stream), TRAFFIC);
    events[stream] := events[stream] + 1;
  }

  lemma Append(a: seq<Marked>, b: seq<Marked>, m: Marked)
    ensures a + (b + [m]) == a + b + [m]
  {
  }

  ghost predicate IsHistogram(hist: array3<nat>, pages: Pages)
    reads hist
  {
    && hist.Length0 == 3 && hist.Length1 == 3 && hist.Length2 == 65
    && forall s, p, n :: 0 <= s < 3 && 0 <= p < 3 && 0 <= n <= 64 ==> hist[s, p, n] == Hist(pages, s, p, n)
  }

  lemma NoMarks()
    ensures MarksOk([]) && PagesOf([]) == map[] && forall s :: EventsOf([], s) == 0
  {
  }

  lemma WindowCloses(closed: seq<seq<Marked>>, marks: seq<Marked>)
    requires WindowsOk(closed) && MarksOk(marks)
    ensures WindowsOk(closed + [marks]) && Flatten(closed + [marks]) + [] == Flatten(closed) + marks
    ensures PagesOfAll(closed + [marks]) == PagesOfAll(closed) + [PagesOf(marks)]
  {
    assert (closed + [marks])[..|closed|] == closed;
  }

  ghost predicate IsPooled(pooled: array3<nat>, windows: seq<Pages>)
    reads pooled
  {
    && pooled.Length0 == 3 && pooled.Length1 == 3 && pooled.Length2 == 65
    && forall s, p, n :: 0 <= s < 3 && 0 <= p < 3 && 0 <= n <= 64 ==> pooled[s, p, n] == Pooled(windows, s, p, n)
  }

  method Pool(pooled: array3<nat>, hist: array3<nat>, ghost windows: seq<Pages>, ghost pages: Pages)
    requires pooled != hist && IsPooled(pooled, windows) && IsHistogram(hist, pages)
    modifies pooled
    ensures IsPooled(pooled, windows + [pages])
  {
    assert (windows + [pages])[..|windows|] == windows;
    forall s, p, n | 0 <= s < 3 && 0 <= p < 3 && 0 <= n <= 64 {
      pooled[s, p, n] := pooled[s, p, n] + hist[s, p, n];
    }
  }

  /** Adds one page to the bins of its populations. */
  method CountPage(hist: array3<nat>, m: Masks)
    requires hist.Length0 == 3 && hist.Length1 == 3 && hist.Length2 == 65
    requires forall s :: 0 <= s < 3 ==> |m[s]| <= 64
    modifies hist
    ensures forall s, p, n :: 0 <= s < 3 && 0 <= p < 3 && 0 <= n <= 64 ==>
      hist[s, p, n] == old(hist[s, p, n]) + if Counts(m, s, p, n) then 1 else 0
  {
    for s := 0 to 3
      invariant forall s', p, n :: 0 <= s' < s && 0 <= p < 3 && 0 <= n <= 64 ==>
        hist[s', p, n] == old(hist[s', p, n]) + if Counts(m, s', p, n) then 1 else 0
      invariant forall s', p, n :: s <= s' < 3 && 0 <= p < 3 && 0 <= n <= 64 ==> hist[s', p, n] == old(hist[s', p, n])
    {
      var words := |m[s]|;
      if words > 0 { hist[s, OWN, words] := hist[s, OWN, words] + 1; }
      if m[ACCESSES] != {} { hist[s, ACCESS_PAGES, words] := hist[s, ACCESS_PAGES, words] + 1; }
      if m[FILLS] != {} { hist[s, FILL_PAGES, words] := hist[s, FILL_PAGES, words] + 1; }
    }
  }

  /** Visits every page once, in no particular order. */
  method Histograms(pages: Pages) returns (hist: array3<nat>)
    requires PagesOk(pages)
    ensures fresh(hist) && IsHistogram(hist, pages)
  {
    hist := new nat[3, 3, 65]((_, _, _) => 0);
    var rest := pages;
    ghost var seen: Pages := map[];
    while rest != map[]
      invariant seen.Keys !! rest.Keys && seen + rest == pages
      invariant fresh(hist) && IsHistogram(hist, seen)
      decreases |rest|
    {
      var page :| page in rest;
      assert pages[page] == rest[page];
      AddPage(hist, page, rest[page], seen);
      MoveEntry(seen, rest, page);
      seen := seen[page := rest[page]];
      rest := rest - {page};
    }
    assert seen == pages;
  }

  lemma MoveEntry(seen: Pages, rest: Pages, page: nat)
    requires seen.Keys !! rest.Keys && page in rest
    ensures var seen', rest' := seen[page := rest[page]], rest - {page};
      seen'.Keys !! rest'.Keys && seen' + rest' == seen + rest
  {
  }

  method AddPage(hist: array3<nat>, ghost page: nat, m: Masks, ghost seen: Pages)
    requires IsHistogram(hist, seen) && page !in seen
    requires forall s, b :: 0 <= s < 3 && b in m[s] ==> b < 64
    modifies hist
    ensures IsHistogram(hist, seen[page := m])
  {
    forall s | 0 <= s < 3 ensures |m[s]| <= 64 { MaskSize(m[s]); }
    CountPage(hist, m);
    forall s, p, n | 0 <= s < 3 && 0 <= p < 3
      ensures Hist(seen[page := m], s, p, n) == Hist(seen, s, p, n) + if Counts(m, s, p, n) then 1 else 0
    {
      OnePageMore(seen, page, m, s, p, n);
    }
  }

  lemma OnePageMore(seen: Pages, page: nat, m: Masks, stream: nat, population: nat, words: nat)
    requires page !in seen && stream < 3 && population < 3
    ensures Hist(seen[page := m], stream, population, words)
      == Hist(seen, stream, population, words) + if Counts(m, stream, population, words) then 1 else 0
  {
    var before := PagesWith(seen, stream, population, words);
    assert PagesWith(seen[page := m], stream, population, words)
      == if Counts(m, stream, population, words) then before + {page} else before;
  }
}
