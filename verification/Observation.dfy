/** What the observers record: per page the 64-line masks of each stream, and histograms of them.
    A 64-bit mask is the set of its set bits; its population count is the size of that set. */
module Observation {
  import Counting
  import opened CacheSpec

  const ACCESSES: nat := 0
  const FILLS: nat := 1
  const TRAFFIC: nat := 2

  const OWN: nat := 0
  const ACCESS_PAGES: nat := 1
  const FILL_PAGES: nat := 2

  /** One mask for each of the three streams. */
  type Masks = m: seq<set<nat>> | |m| == 3 witness [{}, {}, {}]

  type Pages = map<nat, Masks>

  function MasksAt(pages: Pages, page: nat): Masks {
    if page in pages then pages[page] else [{}, {}, {}]
  }

  /** Sets the line's bit in the mask of one stream, creating the page entry if need be. */
  function Mark(pages: Pages, line: Line, stream: nat): Pages
    requires stream < 3
  {
    var m := MasksAt(pages, line / 64);
    pages[line / 64 := m[stream := m[stream] + {line % 64}]]
  }

  ghost predicate PagesOk(pages: Pages) {
    forall p :: p in pages ==> pages[p] != [{}, {}, {}] && forall s, b :: 0 <= s < 3 && b in pages[p][s] ==> b < 64
  }

  lemma MarkOk(pages: Pages, line: Line, stream: nat)
    requires PagesOk(pages) && stream < 3
    ensures PagesOk(Mark(pages, line, stream))
  {
    var m := Mark(pages, line, stream)[line / 64];
    assert line % 64 in m[stream];
  }

  /** Whether a page belongs to a population: touched by the stream itself, by accesses, by fills. */
  predicate InPopulation(m: Masks, stream: nat, population: nat)
    requires stream < 3 && population < 3
  {
    if population == OWN then m[stream] != {}
    else if population == ACCESS_PAGES then m[ACCESSES] != {}
    else m[FILLS] != {}
  }

  predicate Counts(m: Masks, stream: nat, population: nat, words: nat)
    requires stream < 3 && population < 3
  {
    InPopulation(m, stream, population) && |m[stream]| == words
  }

  function PagesWith(pages: Pages, stream: nat, population: nat, words: nat): set<nat>
    requires stream < 3 && population < 3
  {
    set p | p in pages && Counts(pages[p], stream, population, words)
  }

  function Hist(pages: Pages, stream: nat, population: nat, words: nat): nat
    requires stream < 3 && population < 3
  {
    |PagesWith(pages, stream, population, words)|
  }

  // ---------- cumulative counts ----------

  function Population(pages: Pages, stream: nat, population: nat): set<nat>
    requires stream < 3 && population < 3
  {
    set p | p in pages && InPopulation(pages[p], stream, population)
  }

  function UpTo(pages: Pages, stream: nat, population: nat, words: nat): set<nat>
    requires stream < 3 && population < 3
  {
    set p | p in pages && InPopulation(pages[p], stream, population) && |pages[p][stream]| <= words
  }

  /** The unnormalised CDF, as the analysis sums it from a histogram. */
  function Cumulative(pages: Pages, stream: nat, population: nat, words: nat): nat
    requires stream < 3 && population < 3
  {
    Hist(pages, stream, population, words) + if words == 0 then 0 else Cumulative(pages, stream, population, words - 1)
  }

  lemma {:induction false} CumulativeCounts(pages: Pages, stream: nat, population: nat, words: nat)
    requires stream < 3 && population < 3
    ensures Cumulative(pages, stream, population, words) == |UpTo(pages, stream, population, words)|
  {
    var here := PagesWith(pages, stream, population, words);
    if words == 0 {
      assert UpTo(pages, stream, population, 0) == here;
    } else {
      CumulativeCounts(pages, stream, population, words - 1);
      var below := UpTo(pages, stream, population, words - 1);
      assert UpTo(pages, stream, population, words) == below + here;
      assert below !! here;
    }
  }

  lemma MaskSize(m: set<nat>)
    requires forall b :: b in m ==> b < 64
    ensures |m| <= 64
  {
    Counting.BelowMembers(64);
    Counting.SubsetSize(m, Counting.Below(64));
  }

  /** All 65 bins of a histogram together count its population once. */
  lemma HistTotal(pages: Pages, stream: nat, population: nat)
    requires PagesOk(pages) && stream < 3 && population < 3
    ensures Cumulative(pages, stream, population, 64) == |Population(pages, stream, population)|
  {
    CumulativeCounts(pages, stream, population, 64);
    forall p | p in pages ensures |pages[p][stream]| <= 64 { MaskSize(pages[p][stream]); }
    assert UpTo(pages, stream, population, 64) == Population(pages, stream, population);
  }

  // ---------- fills against accesses ----------

  /** Every filled line of a window was accessed in that window. */
  ghost predicate FillsAccessed(pages: Pages) {
    forall p :: p in pages ==> pages[p][FILLS] <= pages[p][ACCESSES]
  }

  /** On the pages touched by fills, accesses and fills count the same pages, and at every N the
      access CDF is no higher than the fill CDF. */
  lemma AccessCdfBelowFillCdf(pages: Pages, words: nat)
    requires PagesOk(pages) && FillsAccessed(pages)
    ensures Cumulative(pages, ACCESSES, FILL_PAGES, words) <= Cumulative(pages, FILLS, FILL_PAGES, words)
    ensures Cumulative(pages, ACCESSES, FILL_PAGES, 64) == Cumulative(pages, FILLS, FILL_PAGES, 64)
  {
    CumulativeCounts(pages, ACCESSES, FILL_PAGES, words);
    CumulativeCounts(pages, FILLS, FILL_PAGES, words);
    var a, f := UpTo(pages, ACCESSES, FILL_PAGES, words), UpTo(pages, FILLS, FILL_PAGES, words);
    forall p | p in a ensures p in f { Counting.SubsetSize(pages[p][FILLS], pages[p][ACCESSES]); }
    Counting.SubsetSize(a, f);
    HistTotal(pages, ACCESSES, FILL_PAGES);
    HistTotal(pages, FILLS, FILL_PAGES);
    assert Population(pages, ACCESSES, FILL_PAGES) == Population(pages, FILLS, FILL_PAGES);
  }

  // ---------- windows pooled and united ----------

  function Pooled(windows: seq<Pages>, stream: nat, population: nat, words: nat): nat
    requires stream < 3 && population < 3
  {
    if windows == [] then 0
    else
      var last := Hist(windows[|windows| - 1], stream, population, words);
      Pooled(windows[..|windows| - 1], stream, population, words) + last
  }

  function PooledCumulative(windows: seq<Pages>, stream: nat, population: nat, words: nat): nat
    requires stream < 3 && population < 3
  {
    Pooled(windows, stream, population, words)
    + if words == 0 then 0 else PooledCumulative(windows, stream, population, words - 1)
  }

  lemma {:induction false} PooledSplit(windows: seq<Pages>, stream: nat, population: nat, words: nat)
    requires windows != [] && stream < 3 && population < 3
    ensures PooledCumulative(windows, stream, population, words)
      == PooledCumulative(windows[..|windows| - 1], stream, population, words)
       + Cumulative(windows[|windows| - 1], stream, population, words)
  {
    if words > 0 { PooledSplit(windows, stream, population, words - 1); }
  }

  lemma {:induction false} PooledNothing(stream: nat, population: nat, words: nat)
    requires stream < 3 && population < 3
    ensures PooledCumulative([], stream, population, words) == 0
  {
    if words > 0 { PooledNothing(stream, population, words - 1); }
  }

  /** The same comparison for the pooled histograms of any number of windows. */
  lemma {:induction false} PooledAccessBelowFill(windows: seq<Pages>, words: nat)
    requires forall i :: 0 <= i < |windows| ==> PagesOk(windows[i]) && FillsAccessed(windows[i])
    ensures PooledCumulative(windows, ACCESSES, FILL_PAGES, words)
      <= PooledCumulative(windows, FILLS, FILL_PAGES, words)
    ensures PooledCumulative(windows, ACCESSES, FILL_PAGES, 64) == PooledCumulative(windows, FILLS, FILL_PAGES, 64)
  {
    if windows == [] {
      PooledNothing(ACCESSES, FILL_PAGES, words);
      PooledNothing(FILLS, FILL_PAGES, words);
      PooledNothing(ACCESSES, FILL_PAGES, 64);
      PooledNothing(FILLS, FILL_PAGES, 64);
    } else {
      PooledAccessBelowFill(windows[..|windows| - 1], words);
      AccessCdfBelowFillCdf(windows[|windows| - 1], words);
      PooledSplit(windows, ACCESSES, FILL_PAGES, words);
      PooledSplit(windows, FILLS, FILL_PAGES, words);
      PooledSplit(windows, ACCESSES, FILL_PAGES, 64);
      PooledSplit(windows, FILLS, FILL_PAGES, 64);
    }
  }

  /** Bit b of stream s of page p is set in the union of the windows. */
  ghost predicate InSome(windows: seq<Pages>, page: nat, stream: nat, b: nat)
    requires stream < 3
  {
    exists i :: 0 <= i < |windows| && b in MasksAt(windows[i], page)[stream]
  }

  /** `whole` is the union of the windows, page by page and stream by stream. */
  ghost predicate IsUnion(whole: Pages, windows: seq<Pages>) {
    forall page, s, b :: 0 <= s < 3 ==> (b in MasksAt(whole, page)[s] <==> InSome(windows, page, s, b))
  }

  /** Whole-run page counts never exceed the pooled ones. */
  lemma WholeAtMostPooled(whole: Pages, windows: seq<Pages>, stream: nat)
    requires PagesOk(whole) && IsUnion(whole, windows) && stream < 3
    requires forall i :: 0 <= i < |windows| ==> PagesOk(windows[i])
    ensures Cumulative(whole, stream, OWN, 64) <= PooledCumulative(windows, stream, OWN, 64)
  {
    HistTotal(whole, stream, OWN);
    PooledCoversUnion(windows, stream);
    forall p | p in Population(whole, stream, OWN) ensures p in TouchedInSome(windows, stream) {
      InWholeInSome(whole, windows, stream, p);
    }
    Counting.SubsetSize(Population(whole, stream, OWN), TouchedInSome(windows, stream));
  }

  lemma InWholeInSome(whole: Pages, windows: seq<Pages>, stream: nat, p: nat)
    requires IsUnion(whole, windows) && stream < 3 && p in Population(whole, stream, OWN)
    ensures p in TouchedInSome(windows, stream)
  {
    var b :| b in whole[p][stream];
    assert b in MasksAt(whole, p)[stream];
    assert InSome(windows, p, stream, b);
    var i :| 0 <= i < |windows| && b in MasksAt(windows[i], p)[stream];
    TouchedIn(windows, stream, i, p);
  }

  function TouchedInSome(windows: seq<Pages>, stream: nat): set<nat>
    requires stream < 3
  {
    if windows == [] then {}
    else TouchedInSome(windows[..|windows| - 1], stream) + Population(windows[|windows| - 1], stream, OWN)
  }

  lemma {:induction false} TouchedIn(windows: seq<Pages>, stream: nat, i: nat, p: nat)
    requires stream < 3 && i < |windows| && p in Population(windows[i], stream, OWN)
    ensures p in TouchedInSome(windows, stream)
  {
    if i < |windows| - 1 { TouchedIn(windows[..|windows| - 1], stream, i, p); }
  }

  lemma {:induction false} PooledCoversUnion(windows: seq<Pages>, stream: nat)
    requires stream < 3 && forall i :: 0 <= i < |windows| ==> PagesOk(windows[i])
    ensures |TouchedInSome(windows, stream)| <= PooledCumulative(windows, stream, OWN, 64)
  {
    if windows == [] {
    } else {
      var init, last := windows[..|windows| - 1], windows[|windows| - 1];
      PooledCoversUnion(init, stream);
      PooledSplit(windows, stream, OWN, 64);
      HistTotal(last, stream, OWN);
      UnionSize(TouchedInSome(init, stream), Population(last, stream, OWN));
    }
  }

  lemma UnionSize<T>(a: set<T>, b: set<T>)
    ensures |a + b| <= |a| + |b|
  {
    assert a + b == a + (b - a);
    Counting.SubsetSize(b - a, b);
  }

  // ---------- pages as a function of the marks made ----------

  datatype Marked = Marked(line: Line, stream: nat)

  ghost predicate MarksOk(marks: seq<Marked>) {
    forall i :: 0 <= i < |marks| ==> marks[i].stream < 3
  }

  ghost function PagesOf(marks: seq<Marked>): (pages: Pages)
    requires MarksOk(marks)
    ensures PagesOk(pages)
  {
    if marks == [] then map[]
    else
      var m, before := marks[|marks| - 1], PagesOf(marks[..|marks| - 1]);
      MarkOk(before, m.line, m.stream);
      Mark(before, m.line, m.stream)
  }

  ghost function EventsOf(marks: seq<Marked>, stream: nat): nat {
    if marks == [] then 0
    else EventsOf(marks[..|marks| - 1], stream) + if marks[|marks| - 1].stream == stream then 1 else 0
  }

  lemma OneMorePages(marks: seq<Marked>, m: Marked)
    requires MarksOk(marks) && m.stream < 3
    ensures MarksOk(marks + [m]) && PagesOf(marks + [m]) == Mark(PagesOf(marks), m.line, m.stream)
  {
    assert (marks + [m])[..|marks|] == marks;
  }

  lemma OneMoreEvents(marks: seq<Marked>, m: Marked, stream: nat)
    ensures EventsOf(marks + [m], stream) == EventsOf(marks, stream) + if m.stream == stream then 1 else 0
  {
    assert (marks + [m])[..|marks|] == marks;
  }

  ghost function EventCounts(marks: seq<Marked>): (c: seq<nat>)
    ensures |c| == 3 && forall s :: 0 <= s < 3 ==> c[s] == EventsOf(marks, s)
  {
    [EventsOf(marks, ACCESSES), EventsOf(marks, FILLS), EventsOf(marks, TRAFFIC)]
  }

  ghost predicate WasMarked(marks: seq<Marked>, page: nat, stream: nat, b: nat) {
    exists i :: 0 <= i < |marks| && marks[i].line / 64 == page && marks[i].line % 64 == b && marks[i].stream == stream
  }

  lemma MarkSetsBit(pages: Pages, line: Line, at: nat, page: nat, stream: nat, b: nat)
    requires at < 3 && stream < 3
    ensures b in MasksAt(Mark(pages, line, at), page)[stream] <==>
      b in MasksAt(pages, page)[stream] || (line / 64 == page && line % 64 == b && at == stream)
  {
  }

  lemma WasMarkedLast(marks: seq<Marked>, page: nat, stream: nat, b: nat)
    requires marks != []
    ensures var init, m := marks[..|marks| - 1], marks[|marks| - 1];
      WasMarked(marks, page, stream, b) <==>
        WasMarked(init, page, stream, b) || (m.line / 64 == page && m.line % 64 == b && m.stream == stream)
  {
    var init := marks[..|marks| - 1];
    assert forall i :: 0 <= i < |init| ==> init[i] == marks[i];
  }

  /** A bit is set exactly if its line was recorded on that stream. */
  lemma {:induction false} BitMeaning(marks: seq<Marked>, page: nat, stream: nat, b: nat)
    requires MarksOk(marks) && stream < 3
    ensures b in MasksAt(PagesOf(marks), page)[stream] <==> WasMarked(marks, page, stream, b)
  {
    hide MasksAt, Mark, PagesOk;
    if marks == [] {
      NothingMarked(page, stream, b);
    } else {
      var init, m := marks[..|marks| - 1], marks[|marks| - 1];
      BitMeaning(init, page, stream, b);
      WasMarkedLast(marks, page, stream, b);
      MarkSetsBit(PagesOf(init), m.line, m.stream, page, stream, b);
    }
  }

  lemma NothingMarked(page: nat, stream: nat, b: nat)
    requires stream < 3
    ensures b !in MasksAt(map[], page)[stream] && !WasMarked([], page, stream, b)
  {
  }

  function Flatten(windows: seq<seq<Marked>>): seq<Marked> {
    if windows == [] then [] else Flatten(windows[..|windows| - 1]) + windows[|windows| - 1]
  }

  ghost predicate WindowsOk(windows: seq<seq<Marked>>) {
    forall i :: 0 <= i < |windows| ==> MarksOk(windows[i])
  }

  ghost function PagesOfAll(windows: seq<seq<Marked>>): (ps: seq<Pages>)
    requires WindowsOk(windows)
    ensures |ps| == |windows| && forall i :: 0 <= i < |ps| ==> ps[i] == PagesOf(windows[i])
  {
    seq(|windows|, i requires 0 <= i < |windows| => PagesOf(windows[i]))
  }

  lemma {:induction false} FlattenMarks(windows: seq<seq<Marked>>)
    requires WindowsOk(windows)
    ensures MarksOk(Flatten(windows))
    ensures forall s :: EventsOf(Flatten(windows), s) == SumEvents(windows, s)
  {
    if windows != [] {
      var init := windows[..|windows| - 1];
      FlattenMarks(init);
      forall s ensures EventsOf(Flatten(windows), s) == SumEvents(windows, s) {
        EventsConcat(Flatten(init), windows[|windows| - 1], s);
      }
    }
  }

  ghost function SumEvents(windows: seq<seq<Marked>>, stream: nat): nat {
    if windows == [] then 0 else SumEvents(windows[..|windows| - 1], stream) + EventsOf(windows[|windows| - 1], stream)
  }

  lemma {:induction false} EventsConcat(a: seq<Marked>, b: seq<Marked>, stream: nat)
    ensures EventsOf(a + b, stream) == EventsOf(a, stream) + EventsOf(b, stream)
    decreases |b|
  {
    if b == [] {
      assert a + b == a;
    } else {
      assert (a + b)[..|a + b| - 1] == a + b[..|b| - 1];
      EventsConcat(a, b[..|b| - 1], stream);
    }
  }

  lemma {:induction false} FlattenMarked(windows: seq<seq<Marked>>, page: nat, stream: nat, b: nat)
    ensures WasMarked(Flatten(windows), page, stream, b)
      <==> exists i :: 0 <= i < |windows| && WasMarked(windows[i], page, stream, b)
  {
    if windows != [] {
      var init, last := windows[..|windows| - 1], windows[|windows| - 1];
      FlattenMarked(init, page, stream, b);
      MarkedConcat(Flatten(init), last, page, stream, b);
      assert windows == init + [last];
    }
  }

  lemma MarkedConcat(a: seq<Marked>, c: seq<Marked>, page: nat, stream: nat, b: nat)
    ensures WasMarked(a + c, page, stream, b) <==> WasMarked(a, page, stream, b) || WasMarked(c, page, stream, b)
  {
    var w := a + c;
    assert forall i :: 0 <= i < |a| ==> w[i] == a[i];
    assert forall i :: 0 <= i < |c| ==> w[|a| + i] == c[i];
  }

  /** The whole-run masks are the union of the windows' masks. */
  lemma WholeIsUnion(windows: seq<seq<Marked>>)
    requires WindowsOk(windows) && MarksOk(Flatten(windows))
    ensures IsUnion(PagesOf(Flatten(windows)), PagesOfAll(windows))
  {
    forall page, s, b | 0 <= s < 3
      ensures b in MasksAt(PagesOf(Flatten(windows)), page)[s] <==> InSome(PagesOfAll(windows), page, s, b)
    {
      BitMeaning(Flatten(windows), page, s, b);
      FlattenMarked(windows, page, s, b);
      forall i | 0 <= i < |windows|
        ensures b in MasksAt(PagesOfAll(windows)[i], page)[s] <==> WasMarked(windows[i], page, s, b)
      {
        BitMeaning(windows[i], page, s, b);
      }
    }
  }

  // ---------- what the figures mean ----------

  /** An event count is the number of marks of the stream. */
  lemma {:induction false} EventsCount(marks: seq<Marked>, stream: nat)
    ensures EventsOf(marks, stream) == |Counting.Where(marks, (m: Marked) => m.stream == stream)|
  {
    if marks != [] {
      EventsCount(marks[..|marks| - 1], stream);
      Counting.WhereLast(marks, (m: Marked) => m.stream == stream);
    }
  }

  /** The lines of a page that were marked on a stream, as bit numbers. */
  ghost function BitsMarked(marks: seq<Marked>, page: nat, stream: nat): set<nat> {
    set i | 0 <= i < |marks| && marks[i].line / 64 == page && marks[i].stream == stream :: marks[i].line % 64
  }

  lemma MaskIs(marks: seq<Marked>, page: nat, stream: nat)
    requires MarksOk(marks) && stream < 3
    ensures MasksAt(PagesOf(marks), page)[stream] == BitsMarked(marks, page, stream)
  {
    hide MasksAt, PagesOf;
    forall b ensures b in MasksAt(PagesOf(marks), page)[stream] <==> b in BitsMarked(marks, page, stream) {
      BitMeaning(marks, page, stream, b);
    }
  }

  /** The stream whose marks make a page belong: its own, the accesses, or the fills. */
  function StreamOf(stream: nat, population: nat): nat {
    match population case 0 => stream case 1 => 0 case _ => 1
  }

  /** The pages that were marked on the stream of the population and have n lines marked on the stream
      of the histogram. */
  ghost function PagesMarked(marks: seq<Marked>, stream: nat, population: nat, n: nat): set<nat> {
    set i | 0 <= i < |marks| && marks[i].stream == StreamOf(stream, population)
            && |BitsMarked(marks, marks[i].line / 64, stream)| == n :: marks[i].line / 64
  }

  lemma PageHas(marks: seq<Marked>, stream: nat, population: nat, n: nat, page: nat)
    requires MarksOk(marks) && stream < 3 && population < 3
    ensures page in PagesWith(PagesOf(marks), stream, population, n)
      <==> page in PagesMarked(marks, stream, population, n)
  {
    hide PagesOf;
    var of := StreamOf(stream, population);
    MaskIs(marks, page, stream);
    MaskIs(marks, page, of);
    if page in PagesWith(PagesOf(marks), stream, population, n) {
      assert BitsMarked(marks, page, of) != {};
      var b :| b in BitsMarked(marks, page, of);
      var i :| 0 <= i < |marks| && marks[i].line / 64 == page && marks[i].stream == of && marks[i].line % 64 == b;
      assert marks[i].line / 64 in PagesMarked(marks, stream, population, n);
    }
    if page in PagesMarked(marks, stream, population, n) {
      var i :| 0 <= i < |marks| && marks[i].stream == of && marks[i].line / 64 == page;
      assert marks[i].line % 64 in BitsMarked(marks, page, of);
    }
  }

  /** Every bin of every histogram, told from the marks. */
  lemma HistMeans(marks: seq<Marked>, stream: nat, population: nat, n: nat)
    requires MarksOk(marks) && stream < 3 && population < 3
    ensures Hist(PagesOf(marks), stream, population, n) == |PagesMarked(marks, stream, population, n)|
  {
    hide PagesOf, PagesWith, PagesMarked;
    forall page
      ensures page in PagesWith(PagesOf(marks), stream, population, n)
        <==> page in PagesMarked(marks, stream, population, n)
    {
      PageHas(marks, stream, population, n, page);
    }
    assert PagesWith(PagesOf(marks), stream, population, n) == PagesMarked(marks, stream, population, n);
  }
}
