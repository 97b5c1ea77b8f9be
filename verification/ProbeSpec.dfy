/** What one closed epoch of the probe reports, as a function of the requests it saw. */
module ProbeSpec {
  import Bits
  import Counting
  import opened CacheSpec
  import opened SummarySpec
  import opened CounterSpec
  import opened Selection
  import opened Accuracy

  ghost function ExactPages(stream: seq<Event>): map<nat, nat> {
    map p | p in TouchedPages(stream) :: Freq(PageStream(stream), p)
  }

  /** The lines requested, on some of the pages. */
  ghost function LinesIn(stream: seq<Event>, pages: set<nat>): set<nat> {
    set i | 0 <= i < |stream| && stream[i].line / 64 in pages :: stream[i].line as nat
  }

  /** Word counts as the 16-bit counters hold them. */
  ghost function ExactWords(stream: seq<Event>, pages: set<nat>): map<nat, nat> {
    map l | l in LinesIn(stream, pages) :: Capped(LineCount(stream, l))
  }

  /** The counts a page tracker is scored against are exact. */
  lemma PagesAreExact(stream: seq<Event>)
    ensures IsExact(ExactPages(stream), PageStream(stream))
  {
    forall p ensures ScoreOf(ExactPages(stream), p) == Freq(PageStream(stream), p) {
      NeverOccurs(PageStream(stream), p);
      if p in PageStream(stream) {
        var i :| 0 <= i < |stream| && PageStream(stream)[i] == p;
        assert stream[i].line / 64 in TouchedPages(stream);
      }
    }
  }

  lemma WordScore(stream: seq<Event>, pages: set<nat>, l: nat)
    requires TouchedPages(stream) <= pages
    ensures ScoreOf(ExactWords(stream, pages), l) == Capped(LineCount(stream, l))
    ensures LineCount(stream, l) == Freq(LineStream(stream), l)
  {
    LineTotal(stream, l);
    CountedIsRecorded(stream, l);
    if LineCount(stream, l) > 0 {
      var i :| 0 <= i < |stream| && stream[i].line == l;
      assert stream[i].line / 64 in TouchedPages(stream);
    }
  }

  /** Word trackers are scored against exact counts as long as no word counter overflows. */
  lemma WordsAreExact(stream: seq<Event>, pages: set<nat>)
    requires TouchedPages(stream) <= pages
    ensures IsExact(ExactWords(stream, pages), LineStream(stream)) <==>
      forall l: nat :: LineCount(stream, l) <= WORD_MAX
  {
    var words := ExactWords(stream, pages);
    forall l: nat
      ensures ScoreOf(words, l) == Freq(LineStream(stream), l) <==> LineCount(stream, l) <= WORD_MAX
    {
      WordScore(stream, pages, l);
    }
    if IsExact(words, LineStream(stream)) {
      forall l: nat ensures LineCount(stream, l) <= WORD_MAX {
        assert ScoreOf(words, l) == Freq(LineStream(stream), l);
      }
    } else {
      var l: nat :| ScoreOf(words, l) != Freq(LineStream(stream), l);
      assert LineCount(stream, l) > WORD_MAX;
    }
  }

  // ---------- building the exact counts from the visited pages ----------

  method BuildPages(vs: seq<Visit>, ghost stream: seq<Event>) returns (exact: map<nat, nat>)
    requires Visits(vs, stream, TouchedPages(stream))
    ensures exact == ExactPages(stream)
  {
    exact := map[];
    for i := 0 to |vs|
      invariant exact.Keys == Counting.Elements(PagesIn(vs)[..i])
      invariant forall p :: p in exact ==> exact[p] == Freq(PageStream(stream), p)
    {
      PageTotal(stream, vs[i].page);
      assert PagesIn(vs)[..i + 1] == PagesIn(vs)[..i] + [vs[i].page];
      exact := exact[vs[i].page := vs[i].rec.nreads + vs[i].rec.nwrites];
    }
    assert PagesIn(vs)[..|vs|] == PagesIn(vs);
  }

  method BuildWords(vs: seq<Visit>, ghost stream: seq<Event>) returns (exact: map<nat, nat>)
    requires Visits(vs, stream, TouchedPages(stream))
    ensures exact == ExactWords(stream, TouchedPages(stream))
  {
    exact := map[];
    ghost var pages := PagesIn(vs);
    for i := 0 to |vs|
      invariant exact == ExactWords(stream, Counting.Elements(pages[..i]))
    {
      assert pages[..i + 1] == pages[..i] + [vs[i].page];
      exact := AddWords(exact, vs[i].page, vs[i].rec, Counting.Elements(pages[..i]), stream);
      assert Counting.Elements(pages[..i + 1]) == Counting.Elements(pages[..i]) + {vs[i].page};
    }
    assert pages[..|vs|] == pages;
  }

  method AddWords(exact: map<nat, nat>, page: nat, rec: PageRec, ghost pages: set<nat>, ghost stream: seq<Event>)
    returns (more: map<nat, nat>)
    requires exact == ExactWords(stream, pages) && rec == RecOf(stream, page)
    ensures more == ExactWords(stream, pages + {page})
  {
    more := exact;
    for w := 0 to 64
      invariant forall l :: l in more <==> l in exact || (l in LinesIn(stream, {page}) && l % 64 < w)
      invariant forall l :: l in more ==> more[l] == Capped(LineCount(stream, l))
    {
      WordCounted(stream, page, w);
      if rec.word[w] > 0 {
        var line := LineNumber(page, w);
        more := more[line := rec.word[w]];
      }
    }
    assert LinesIn(stream, pages + {page}) == LinesIn(stream, pages) + LinesIn(stream, {page});
  }

  lemma WordCounted(stream: seq<Event>, page: nat, w: nat)
    requires w < 64
    ensures |RecOf(stream, page).word| == 64
    ensures RecOf(stream, page).word[w] == Capped(LineCount(stream, LineNo(page, w)))
    ensures RecOf(stream, page).word[w] > 0 <==> LineNo(page, w) in LinesIn(stream, {page})
    ensures forall l :: l in LinesIn(stream, {page}) && l % 64 == w ==> l == LineNo(page, w)
    ensures LineNo(page, w) % 64 == w
  {
    CountedIsRecorded(stream, LineNo(page, w));
  }

  method LineNumber(page: nat, w: nat) returns (line: nat)
    requires w < 64
    ensures line == LineNo(page, w)
  {
    assert Bits.Pow2(6) == 64;
    Bits.JoinIsSum(page, 6, w);
    line := Bits.Or(Bits.ShiftLeft(page, 6), w);
  }

  // ---------- distinct words ----------

  lemma {:induction false} LinesOfPage(mask: set<nat>, page: nat)
    ensures |set w | w in mask :: LineNo(page, w)| == |mask|
    decreases |mask|
  {
    var lines := set w | w in mask :: LineNo(page, w);
    if mask != {} {
      var b :| b in mask;
      LinesOfPage(mask - {b}, page);
      var rest := set w | w in mask - {b} :: LineNo(page, w);
      assert LineNo(page, b) !in rest;
      assert lines == rest + {LineNo(page, b)};
    }
  }

  lemma MaskLines(stream: seq<Event>, page: nat)
    ensures |LinesIn(stream, {page})| == |RecOf(stream, page).mask|
  {
    var mask := RecOf(stream, page).mask;
    RecOfDescribes(stream, page);
    LinesOfPage(mask, page);
    forall l ensures l in LinesIn(stream, {page}) <==> l in set w | w in mask :: LineNo(page, w) {
      if l in LinesIn(stream, {page}) {
        CountedIsRecorded(stream, l);
        assert l == LineNo(page, l % 64);
      }
      if w :| w in mask && l == LineNo(page, w) {
        CountedIsRecorded(stream, l);
        assert l / 64 == page;
      }
    }
    assert LinesIn(stream, {page}) == set w | w in mask :: LineNo(page, w);
  }

  /** The unique words of all pages, which divided by the pages give the reported mean. */
  method CountWords(vs: seq<Visit>, ghost stream: seq<Event>) returns (words: nat)
    requires Visits(vs, stream, TouchedPages(stream))
    ensures words == |LinesIn(stream, TouchedPages(stream))|
  {
    words := 0;
    ghost var pages := PagesIn(vs);
    for i := 0 to |vs|
      invariant words == |LinesIn(stream, Counting.Elements(pages[..i]))|
    {
      assert pages[..i + 1] == pages[..i] + [vs[i].page];
      MaskLines(stream, vs[i].page);
      assert forall j :: 0 <= j < i ==> pages[j] != pages[i];
      MoreLines(stream, Counting.Elements(pages[..i]), vs[i].page);
      assert Counting.Elements(pages[..i + 1]) == Counting.Elements(pages[..i]) + {vs[i].page};
      words := words + |vs[i].rec.mask|;
    }
    assert pages[..|vs|] == pages;
  }

  lemma MoreLines(stream: seq<Event>, pages: set<nat>, page: nat)
    requires page !in pages
    ensures |LinesIn(stream, pages + {page})| == |LinesIn(stream, pages)| + |LinesIn(stream, {page})|
  {
    assert LinesIn(stream, pages + {page}) == LinesIn(stream, pages) + LinesIn(stream, {page});
    assert LinesIn(stream, pages) !! LinesIn(stream, {page});
  }
}
