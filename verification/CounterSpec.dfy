/** What the exact counters hold: per page and per 64-byte word, a function of the recorded stream. */
module CounterSpec {
  import Bits
  import Counting
  import opened CacheSpec
  import SummarySpec

  const WORD_MAX: nat := 0xFFFF
  const NO_REGION: nat := 0xFFFF_FFFF_FFFF_FFFF

  datatype PageRec = PageRec(word: seq<nat>, nreads: nat, nwrites: nat, mask: set<nat>)

  // ---------- what the table means ----------

  function LineCount(stream: seq<Event>, line: nat): nat {
    if stream == [] then 0
    else LineCount(stream[..|stream| - 1], line) + if stream[|stream| - 1].line == line then 1 else 0
  }

  function PageCount(stream: seq<Event>, page: nat, write: bool): nat {
    if stream == [] then 0
    else
      var d := stream[|stream| - 1];
      PageCount(stream[..|stream| - 1], page, write) + if d.line / 64 == page && d.write == write then 1 else 0
  }

  /** Accesses that found their word counter already at its maximum. */
  function Lost(stream: seq<Event>): nat {
    if stream == [] then 0
    else
      var init := stream[..|stream| - 1];
      Lost(init) + if LineCount(init, stream[|stream| - 1].line) >= WORD_MAX then 1 else 0
  }

  function Capped(n: nat): nat {
    if n < WORD_MAX then n else WORD_MAX
  }

  function LineNo(page: nat, w: nat): nat { page * 64 + w }

  function PageNo(region: nat, i: nat): nat { region * 512 + i }

  ghost predicate Describes(rec: PageRec, stream: seq<Event>, page: nat) {
    && |rec.word| == 64
    && (forall w :: 0 <= w < 64 ==> rec.word[w] == Capped(LineCount(stream, LineNo(page, w))))
    && (forall w :: w in rec.mask <==> 0 <= w < 64 && LineCount(stream, LineNo(page, w)) > 0)
    && rec.nreads == PageCount(stream, page, false)
    && rec.nwrites == PageCount(stream, page, true)
  }

  function Bumped(rec: PageRec, w: nat, write: bool): PageRec
    requires w < |rec.word|
  {
    PageRec(if rec.word[w] == WORD_MAX then rec.word else rec.word[w := rec.word[w] + 1],
            if write then rec.nreads else rec.nreads + 1,
            if write then rec.nwrites + 1 else rec.nwrites,
            rec.mask + {w})
  }

  const Zero := PageRec(seq(64, _ => 0), 0, 0, {})

  lemma ZeroDescribes(page: nat)
    ensures Describes(Zero, [], page)
  {
  }

  lemma DescribesMore(rec: PageRec, stream: seq<Event>, page: nat, d: Event)
    requires Describes(rec, stream, page)
    ensures Describes(if d.line / 64 == page then Bumped(rec, d.line % 64, d.write) else rec, stream + [d], page)
  {
    assert (stream + [d])[..|stream|] == stream;
    forall w | 0 <= w < 64
      ensures LineCount(stream + [d], LineNo(page, w))
        == LineCount(stream, LineNo(page, w)) + if d.line / 64 == page && d.line % 64 == w then 1 else 0
    {
      assert d.line == LineNo(page, w) <==> d.line / 64 == page && d.line % 64 == w;
    }
  }

  lemma {:induction false} UntouchedIsZero(stream: seq<Event>, page: nat)
    requires forall i :: 0 <= i < |stream| ==> stream[i].line / 64 != page
    ensures Describes(Zero, stream, page)
  {
    if stream == [] {
      ZeroDescribes(page);
    } else {
      UntouchedIsZero(stream[..|stream| - 1], page);
      DescribesMore(Zero, stream[..|stream| - 1], page, stream[|stream| - 1]);
      assert stream == stream[..|stream| - 1] + [stream[|stream| - 1]];
    }
  }

  /** The regions as values. */
  type Regions = map<nat, seq<PageRec>>

  ghost predicate RegionOk(pages: seq<PageRec>, stream: seq<Event>, r: nat) {
    |pages| == 512 && forall i :: 0 <= i < 512 ==> Describes(pages[i], stream, PageNo(r, i))
  }

  ghost predicate TableOk(regions: Regions, stream: seq<Event>) {
    && (forall r :: r in regions ==> RegionOk(regions[r], stream, r))
    && forall i :: 0 <= i < |stream| ==> stream[i].line / 64 / 512 in regions
  }

  lemma FreshRegion(stream: seq<Event>, r: nat)
    requires forall k :: 0 <= k < |stream| ==> stream[k].line / 64 / 512 != r
    ensures RegionOk(seq(512, _ => Zero), stream, r)
  {
    forall i | 0 <= i < 512 ensures Describes(Zero, stream, PageNo(r, i)) {
      assert PageNo(r, i) / 512 == r;
      UntouchedIsZero(stream, PageNo(r, i));
    }
  }

  lemma NewRegion(regions: Regions, stream: seq<Event>, r: nat)
    requires TableOk(regions, stream) && r !in regions
    ensures TableOk(regions[r := seq(512, _ => Zero)], stream)
  {
    FreshRegion(stream, r);
  }

  lemma RecordedElsewhere(pages: seq<PageRec>, stream: seq<Event>, r: nat, d: Event)
    requires RegionOk(pages, stream, r) && d.line / 64 / 512 != r
    ensures RegionOk(pages, stream + [d], r)
  {
    forall i | 0 <= i < 512 ensures Describes(pages[i], stream + [d], PageNo(r, i)) {
      assert PageNo(r, i) / 512 == r;
      DescribesMore(pages[i], stream, PageNo(r, i), d);
    }
  }

  lemma RecordedHere(pages: seq<PageRec>, stream: seq<Event>, r: nat, d: Event)
    requires RegionOk(pages, stream, r) && d.line / 64 / 512 == r
    ensures var i := d.line / 64 % 512;
      RegionOk(pages[i := Bumped(pages[i], d.line % 64, d.write)], stream + [d], r)
  {
    var at := d.line / 64 % 512;
    var pages' := pages[at := Bumped(pages[at], d.line % 64, d.write)];
    forall i | 0 <= i < 512 ensures Describes(pages'[i], stream + [d], PageNo(r, i)) {
      assert d.line / 64 == PageNo(r, i) <==> i == at;
      DescribesMore(pages[i], stream, PageNo(r, i), d);
    }
  }

  lemma Recorded(regions: Regions, stream: seq<Event>, d: Event)
    requires TableOk(regions, stream) && d.line / 64 / 512 in regions
    ensures var r, i := d.line / 64 / 512, d.line / 64 % 512;
      && |regions[r]| == 512 && |regions[r][i].word| == 64
      && TableOk(regions[r := regions[r][i := Bumped(regions[r][i], d.line % 64, d.write)]], stream + [d])
  {
    var r := d.line / 64 / 512;
    assert RegionOk(regions[r], stream, r);
    RecordedHere(regions[r], stream, r, d);
    forall q | q in regions && q != r ensures RegionOk(regions[q], stream + [d], q) {
      RecordedElsewhere(regions[q], stream, q, d);
    }
  }

  // ---------- the same, as equations ----------

  /** The record of a page, as a function of the stream. */
  ghost function RecOf(stream: seq<Event>, page: nat): PageRec {
    PageRec(seq(64, w requires 0 <= w < 64 => Capped(LineCount(stream, LineNo(page, w)))),
            PageCount(stream, page, false),
            PageCount(stream, page, true), set w | 0 <= w < 64 && LineCount(stream, LineNo(page, w)) > 0)
  }

  ghost function RegionOf(stream: seq<Event>, r: nat): seq<PageRec> {
    seq(512, i requires 0 <= i < 512 => RecOf(stream, PageNo(r, i)))
  }

  ghost function RegionsOf(stream: seq<Event>, ids: set<nat>): (regions: Regions)
    ensures regions.Keys == ids
  {
    map r | r in ids :: RegionOf(stream, r)
  }

  ghost function Touched(stream: seq<Event>): set<nat> {
    set i | 0 <= i < |stream| :: stream[i].line / 64 / 512
  }

  lemma RecOfDescribes(stream: seq<Event>, page: nat)
    ensures Describes(RecOf(stream, page), stream, page)
  {
  }

  lemma DescribedIsRecOf(rec: PageRec, stream: seq<Event>, page: nat)
    requires Describes(rec, stream, page)
    ensures rec == RecOf(stream, page)
  {
    RecOfDescribes(stream, page);
    assert rec.word == RecOf(stream, page).word;
    assert rec.mask == RecOf(stream, page).mask;
  }

  lemma TableIsRegionsOf(regions: Regions, stream: seq<Event>)
    ensures TableOk(regions, stream) <==> regions == RegionsOf(stream, regions.Keys) && Touched(stream) <= regions.Keys
  {
    if TableOk(regions, stream) {
      forall r | r in regions ensures regions[r] == RegionOf(stream, r) {
        assert RegionOk(regions[r], stream, r);
        forall i | 0 <= i < 512 ensures regions[r][i] == RegionOf(stream, r)[i] {
          DescribedIsRecOf(regions[r][i], stream, PageNo(r, i));
        }
      }
    }
    if regions == RegionsOf(stream, regions.Keys) && Touched(stream) <= regions.Keys {
      forall r | r in regions ensures RegionOk(regions[r], stream, r) {
        forall i | 0 <= i < 512 ensures Describes(regions[r][i], stream, PageNo(r, i)) {
          RecOfDescribes(stream, PageNo(r, i));
        }
      }
      forall i | 0 <= i < |stream| ensures stream[i].line / 64 / 512 in regions {
        assert stream[i].line / 64 / 512 in Touched(stream);
      }
    }
  }

  /** Counting one more access changes one record of a region that is there. */
  lemma RecordedIn(stream: seq<Event>, ids: set<nat>, d: Event)
    requires Touched(stream) <= ids && d.line / 64 / 512 in ids
    ensures var regions, r, i := RegionsOf(stream, ids), d.line / 64 / 512, d.line / 64 % 512;
      && |regions[r]| == 512 && |regions[r][i].word| == 64
      && RegionsOf(stream + [d], ids) == regions[r := regions[r][i := Bumped(regions[r][i], d.line % 64, d.write)]]
      && Lost(stream + [d]) == Lost(stream) + One(regions[r][i].word[d.line % 64] == WORD_MAX)
      && Touched(stream + [d]) <= ids
  {
    var regions, r, i := RegionsOf(stream, ids), d.line / 64 / 512, d.line / 64 % 512;
    TableIsRegionsOf(regions, stream);
    Recorded(regions, stream, d);
    SaturationStep(regions, stream, d);
    var regions' := regions[r := regions[r][i := Bumped(regions[r][i], d.line % 64, d.write)]];
    TableIsRegionsOf(regions', stream + [d]);
    assert regions'.Keys == ids;
  }

  /** The regions after looking one up: an absent one is created zeroed. */
  function Opened(regions: Regions, r: nat): Regions {
    if r in regions then regions else regions[r := Blank()]
  }

  lemma OpenedRegions(stream: seq<Event>, ids: set<nat>, r: nat)
    requires Touched(stream) <= ids
    ensures Opened(RegionsOf(stream, ids), r) == RegionsOf(stream, ids + {r})
  {
    if r in ids {
      assert ids + {r} == ids;
    } else {
      AddedRegion(stream, ids, r);
    }
  }

  lemma AddedRegion(stream: seq<Event>, ids: set<nat>, r: nat)
    requires Touched(stream) <= ids && r !in ids
    ensures RegionsOf(stream, ids + {r}) == RegionsOf(stream, ids)[r := seq(512, _ => Zero)]
  {
    var regions := RegionsOf(stream, ids);
    TableIsRegionsOf(regions, stream);
    NewRegion(regions, stream, r);
    TableIsRegionsOf(regions[r := seq(512, _ => Zero)], stream);
    assert regions[r := seq(512, _ => Zero)].Keys == ids + {r};
  }

  /** The shifts and masks of a byte address recover region, page and word of the line. */
  lemma AddressParts(line: Line)
    ensures var b := Bits.ShiftLeft(line, 6);
      && b < 0x1_0000_0000_0000_0000
      && Bits.ShiftRight(b, 21) == line / 64 / 512
      && Bits.And(Bits.ShiftRight(b, 12), 511) == line / 64 % 512
      && Bits.And(Bits.ShiftRight(b, 6), 63) == line % 64
  {
    var b := line * 64;
    assert Bits.Pow2(6) == 64 && Bits.Pow2(9) == 512;
    assert Bits.Pow2(12) == 4096 by { Bits.Pow2Product(6, 6); }
    assert Bits.Pow2(21) == 2097152 by { Bits.Pow2Product(12, 9); }
    assert b / 64 == line && b / 4096 == line / 64 && b / 2097152 == line / 64 / 512;
    Bits.MaskIsModulo(line / 64, 9);
    Bits.MaskIsModulo(line, 6);
  }

  function Blank(): seq<PageRec> {
    seq(512, _ => Zero)
  }

  /** A saturated word counter is exactly one that has already counted to the maximum. */
  lemma SaturationStep(regions: Regions, stream: seq<Event>, d: Event)
    requires TableOk(regions, stream) && d.line / 64 / 512 in regions
    ensures var r, i := d.line / 64 / 512, d.line / 64 % 512;
      && |regions[r]| == 512 && |regions[r][i].word| == 64
      && Lost(stream + [d]) == Lost(stream) + One(regions[r][i].word[d.line % 64] == WORD_MAX)
  {
    var r, i := d.line / 64 / 512, d.line / 64 % 512;
    assert RegionOk(regions[r], stream, r);
    assert Describes(regions[r][i], stream, PageNo(r, i));
    assert LineNo(PageNo(r, i), d.line % 64) == d.line;
    assert (stream + [d])[..|stream|] == stream;
  }

  // ---------- the touched pages ----------

  ghost function TouchedPages(stream: seq<Event>): set<nat> {
    set i | 0 <= i < |stream| :: stream[i].line / 64
  }

  lemma {:induction false} CountedIsRecorded(stream: seq<Event>, line: nat)
    ensures LineCount(stream, line) > 0 <==> exists i :: 0 <= i < |stream| && stream[i].line == line
  {
    if stream != [] {
      var init := stream[..|stream| - 1];
      CountedIsRecorded(init, line);
      assert forall i :: 0 <= i < |init| ==> init[i] == stream[i];
    }
  }

  /** A page's touched mask is empty exactly if no access went to the page. */
  lemma MaskIsTouched(stream: seq<Event>, page: nat)
    ensures RecOf(stream, page).mask != {} <==> page in TouchedPages(stream)
  {
    RecOfDescribes(stream, page);
    if w :| w in RecOf(stream, page).mask {
      CountedIsRecorded(stream, LineNo(page, w));
      var i :| 0 <= i < |stream| && stream[i].line == LineNo(page, w);
      assert stream[i].line / 64 == page;
    }
    if page in TouchedPages(stream) {
      var i :| 0 <= i < |stream| && stream[i].line / 64 == page;
      CountedIsRecorded(stream, LineNo(page, stream[i].line % 64));
      assert stream[i].line % 64 in RecOf(stream, page).mask;
    }
  }

  datatype Visit = Visit(page: nat, rec: PageRec)

  function PagesIn(vs: seq<Visit>): seq<nat> {
    seq(|vs|, i requires 0 <= i < |vs| => vs[i].page)
  }

  /** Every one of the pages is visited once, with its record. */
  ghost predicate Visits(vs: seq<Visit>, stream: seq<Event>, pages: set<nat>) {
    && Counting.Distinct(PagesIn(vs))
    && Counting.Elements(PagesIn(vs)) == pages
    && forall i :: 0 <= i < |vs| ==> vs[i].rec == RecOf(stream, vs[i].page)
  }

  lemma ElementsConcat<T>(a: seq<T>, b: seq<T>)
    ensures Counting.Elements(a + b) == Counting.Elements(a) + Counting.Elements(b)
  {
  }

  lemma DistinctConcat<T>(a: seq<T>, b: seq<T>)
    requires Counting.Distinct(a) && Counting.Distinct(b) && Counting.Elements(a) !! Counting.Elements(b)
    ensures Counting.Distinct(a + b)
  {
    forall i, j | 0 <= i < j < |a + b| ensures (a + b)[i] != (a + b)[j] {
      if i < |a| <= j { assert a[i] in Counting.Elements(a) && b[j - |a|] in Counting.Elements(b); }
    }
  }

  lemma VisitsConcat(a: seq<Visit>, b: seq<Visit>, stream: seq<Event>, s: set<nat>, t: set<nat>)
    requires Visits(a, stream, s) && Visits(b, stream, t) && s !! t
    ensures Visits(a + b, stream, s + t)
  {
    assert PagesIn(a + b) == PagesIn(a) + PagesIn(b);
    ElementsConcat(PagesIn(a), PagesIn(b));
    DistinctConcat(PagesIn(a), PagesIn(b));
  }

  lemma VisitOne(stream: seq<Event>, page: nat)
    ensures Visits([Visit(page, RecOf(stream, page))], stream, {page})
  {
    assert PagesIn([Visit(page, RecOf(stream, page))]) == [page];
  }

  /** The touched pages among the first n of region r. */
  ghost function FirstPages(stream: seq<Event>, r: nat, n: nat): set<nat> {
    set p | p in TouchedPages(stream) && p / 512 == r && p % 512 < n
  }

  lemma NextPage(stream: seq<Event>, r: nat, i: nat)
    requires i < 512
    ensures var page := PageNo(r, i);
      && page !in FirstPages(stream, r, i)
      && FirstPages(stream, r, i + 1) == FirstPages(stream, r, i) + if page in TouchedPages(stream) then {page} else {}
  {
    assert forall p: nat :: p / 512 == r && p % 512 == i <==> p == PageNo(r, i);
  }

  /** The touched pages of some regions. */
  ghost function PagesOfRegions(stream: seq<Event>, ids: set<nat>): set<nat> {
    set p | p in TouchedPages(stream) && p / 512 in ids
  }

  lemma MoreRegions(stream: seq<Event>, ids: set<nat>, r: nat)
    requires r !in ids
    ensures PagesOfRegions(stream, ids) !! FirstPages(stream, r, 512)
    ensures PagesOfRegions(stream, ids + {r}) == PagesOfRegions(stream, ids) + FirstPages(stream, r, 512)
  {
  }

  lemma AllRegions(stream: seq<Event>, ids: set<nat>)
    requires Touched(stream) <= ids
    ensures PagesOfRegions(stream, ids) == TouchedPages(stream)
  {
    forall p | p in TouchedPages(stream) ensures p / 512 in ids {
      var i :| 0 <= i < |stream| && stream[i].line / 64 == p;
      assert stream[i].line / 64 / 512 in Touched(stream);
    }
  }

  // ---------- totals ----------

  /** The stream of page numbers, as a page tracker sees it. */
  function PageStream(stream: seq<Event>): (s: seq<nat>)
    ensures |s| == |stream|
  {
    seq(|stream|, i requires 0 <= i < |stream| => stream[i].line / 64)
  }

  function LineStream(stream: seq<Event>): (s: seq<nat>)
    ensures |s| == |stream|
  {
    seq(|stream|, i requires 0 <= i < |stream| => stream[i].line)
  }

  /** Reads and writes of a page together are the accesses to it. */
  lemma {:induction false} PageTotal(stream: seq<Event>, page: nat)
    ensures PageCount(stream, page, false) + PageCount(stream, page, true) == SummarySpec.Freq(PageStream(stream), page)
  {
    if stream != [] {
      PageTotal(stream[..|stream| - 1], page);
      assert PageStream(stream)[..|stream| - 1] == PageStream(stream[..|stream| - 1]);
    }
  }

  lemma {:induction false} LineTotal(stream: seq<Event>, line: nat)
    ensures LineCount(stream, line) == SummarySpec.Freq(LineStream(stream), line)
  {
    if stream != [] {
      LineTotal(stream[..|stream| - 1], line);
      assert LineStream(stream)[..|stream| - 1] == LineStream(stream[..|stream| - 1]);
    }
  }

  function FreqSum(keys: seq<nat>, stream: seq<nat>): nat {
    if keys == [] then 0 else FreqSum(keys[..|keys| - 1], stream) + SummarySpec.Freq(stream, keys[|keys| - 1])
  }

  lemma {:induction false} FreqSumStep(keys: seq<nat>, stream: seq<nat>, x: nat)
    requires Counting.Distinct(keys)
    ensures FreqSum(keys, stream + [x]) == FreqSum(keys, stream) + One(x in keys)
  {
    if keys != [] {
      var init, k := keys[..|keys| - 1], keys[|keys| - 1];
      FreqSumStep(init, stream, x);
      SummarySpec.FreqExtend(stream, x, k);
      assert keys == init + [k];
    }
  }

  lemma {:induction false} FreqSumNothing(keys: seq<nat>)
    ensures FreqSum(keys, []) == 0
  {
    if keys != [] { FreqSumNothing(keys[..|keys| - 1]); }
  }

  lemma {:induction false} FreqSumAll(keys: seq<nat>, stream: seq<nat>)
    requires Counting.Distinct(keys) && forall i :: 0 <= i < |stream| ==> stream[i] in keys
    ensures FreqSum(keys, stream) == |stream|
  {
    if stream == [] {
      FreqSumNothing(keys);
    } else {
      var init, x := stream[..|stream| - 1], stream[|stream| - 1];
      FreqSumAll(keys, init);
      FreqSumStep(keys, init, x);
      assert stream == init + [x];
    }
  }

  function SumAccesses(vs: seq<Visit>): nat {
    if vs == [] then 0 else SumAccesses(vs[..|vs| - 1]) + vs[|vs| - 1].rec.nreads + vs[|vs| - 1].rec.nwrites
  }

  lemma {:induction false} SumIsFreqSum(vs: seq<Visit>, stream: seq<Event>)
    requires forall i :: 0 <= i < |vs| ==> vs[i].rec == RecOf(stream, vs[i].page)
    ensures SumAccesses(vs) == FreqSum(PagesIn(vs), PageStream(stream))
  {
    if vs != [] {
      var init := vs[..|vs| - 1];
      SumIsFreqSum(init, stream);
      PageTotal(stream, vs[|vs| - 1].page);
      assert PagesIn(vs)[..|vs| - 1] == PagesIn(init);
    }
  }

  /** The visited pages account for every access once. */
  lemma VisitsCoverStream(vs: seq<Visit>, stream: seq<Event>)
    requires Visits(vs, stream, TouchedPages(stream))
    ensures SumAccesses(vs) == |stream|
  {
    SumIsFreqSum(vs, stream);
    forall i | 0 <= i < |stream| ensures PageStream(stream)[i] in PagesIn(vs) {
      assert stream[i].line / 64 in Counting.Elements(PagesIn(vs));
    }
    FreqSumAll(PagesIn(vs), PageStream(stream));
  }

  // ---------- a page is the sum of its words ----------

  function WordSum(words: seq<nat>): nat {
    if words == [] then 0 else WordSum(words[..|words| - 1]) + words[|words| - 1]
  }

  /** Exact, unsaturated counts of the first n words of a page. */
  function CountSum(stream: seq<Event>, page: nat, n: nat): nat {
    if n == 0 then 0 else CountSum(stream, page, n - 1) + LineCount(stream, LineNo(page, n - 1))
  }

  lemma {:induction false} CountSumStep(stream: seq<Event>, page: nat, n: nat, d: Event)
    requires n <= 64
    ensures CountSum(stream + [d], page, n) == CountSum(stream, page, n) + One(d.line / 64 == page && d.line % 64 < n)
  {
    if n > 0 {
      CountSumStep(stream, page, n - 1, d);
      assert (stream + [d])[..|stream|] == stream;
      assert d.line == LineNo(page, n - 1) <==> d.line / 64 == page && d.line % 64 == n - 1;
    }
  }

  lemma {:induction false} CountSumNothing(page: nat, n: nat)
    ensures CountSum([], page, n) == 0
  {
    if n > 0 { CountSumNothing(page, n - 1); }
  }

  lemma {:induction false} CountSumIsTotal(stream: seq<Event>, page: nat)
    ensures CountSum(stream, page, 64) == PageCount(stream, page, false) + PageCount(stream, page, true)
  {
    if stream == [] {
      CountSumNothing(page, 64);
    } else {
      var init, d := stream[..|stream| - 1], stream[|stream| - 1];
      CountSumIsTotal(init, page);
      CountSumStep(init, page, 64, d);
      assert stream == init + [d];
    }
  }

  lemma {:induction false} CappedSum(stream: seq<Event>, page: nat, n: nat)
    requires n <= 64
    ensures WordSum(RecOf(stream, page).word[..n]) <= CountSum(stream, page, n)
    ensures WordSum(RecOf(stream, page).word[..n]) == CountSum(stream, page, n)
      <==> forall w :: 0 <= w < n ==> LineCount(stream, LineNo(page, w)) <= WORD_MAX
  {
    var word := RecOf(stream, page).word;
    if n > 0 {
      CappedSum(stream, page, n - 1);
      assert word[..n][..n - 1] == word[..n - 1];
    }
  }

  /** A page's count is the sum of its word counts exactly if none of its words was accessed more
      often than a word counter can hold. */
  lemma PageIsSumOfWords(stream: seq<Event>, page: nat)
    ensures var rec := RecOf(stream, page);
      WordSum(rec.word) == rec.nreads + rec.nwrites
      <==> forall w :: 0 <= w < 64 ==> LineCount(stream, LineNo(page, w)) <= WORD_MAX
  {
    CountSumIsTotal(stream, page);
    CappedSum(stream, page, 64);
    assert RecOf(stream, page).word[..64] == RecOf(stream, page).word;
  }

  lemma {:induction false} RepeatedCount(n: nat, e: Event)
    ensures LineCount(seq(n, _ => e), e.line) == n
  {
    if n > 0 {
      var s := seq(n, _ => e);
      assert s[..n - 1] == seq(n - 1, _ => e);
      RepeatedCount(n - 1, e);
    }
  }

  /** It does fail: the access after the last that a word counter can hold is counted for its page
      only. */
  lemma WordSumFails(e: Event)
    ensures var rec := RecOf(seq(WORD_MAX + 1, _ => e), e.line / 64);
      WordSum(rec.word) != rec.nreads + rec.nwrites
  {
    var stream := seq(WORD_MAX + 1, _ => e);
    RepeatedCount(WORD_MAX + 1, e);
    PageIsSumOfWords(stream, e.line / 64);
    assert LineNo(e.line / 64, e.line % 64) == e.line;
    assert LineCount(stream, LineNo(e.line / 64, e.line % 64)) > WORD_MAX;
  }

  // ---------- what the counts mean ----------

  /** A line's and a page's counts are the numbers of accesses to them, a page's of one direction. */
  lemma {:induction false} CountsMean(stream: seq<Event>, line: nat, page: nat, write: bool)
    ensures LineCount(stream, line) == |Counting.Where(stream, (e: Event) => e.line == line)|
    ensures PageCount(stream, page, write)
      == |Counting.Where(stream, (e: Event) => e.line / 64 == page && e.write == write)|
  {
    if stream != [] {
      CountsMean(stream[..|stream| - 1], line, page, write);
      Counting.WhereLast(stream, (e: Event) => e.line == line);
      Counting.WhereLast(stream, (e: Event) => e.line / 64 == page && e.write == write);
    }
  }

  /** So the record of a page: reads, writes, its words' counts up to 65535, and which were touched. */
  lemma RecordMeans(stream: seq<Event>, page: nat, w: nat)
    requires w < 64
    ensures var rec := RecOf(stream, page);
      var n := |Counting.Where(stream, (e: Event) => e.line == page * 64 + w)|;
      && rec.nreads == |Counting.Where(stream, (e: Event) => e.line / 64 == page && !e.write)|
      && rec.nwrites == |Counting.Where(stream, (e: Event) => e.line / 64 == page && e.write)|
      && rec.word[w] == (if n < 65535 then n else 65535) && (w in rec.mask <==> n > 0)
  {
    hide PageCount, LineCount;
    CountsMean(stream, page * 64 + w, page, true);
    CountsMean(stream, page * 64 + w, page, false);
    SameWhere(stream, page, false, (e: Event) => e.line / 64 == page && !e.write);
    SameWhere(stream, page, true, (e: Event) => e.line / 64 == page && e.write);
  }

  lemma SameWhere(stream: seq<Event>, page: nat, write: bool, p: Event -> bool)
    requires forall e :: p(e) <==> e.line / 64 == page && e.write == write
    ensures Counting.Where(stream, p) == Counting.Where(stream, (e: Event) => e.line / 64 == page && e.write == write)
  {
  }
}
