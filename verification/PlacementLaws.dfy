/** What the three candidate sets, the word budget and the tallies of the placement study come to, told
    from accesses, words and listings rather than from scores. */
module PlacementLaws {
  import Counting
  import Accuracy
  import opened Selection
  import opened Scoring
  import opened Placement

  /** Of two pages the better scored is preferred, and of equals the lower numbered. */
  lemma BetterFirst(f: map<nat, nat>, capacity: int, s: set<nat>, p: nat, q: nat)
    requires IsChoice(f, capacity, s) && q in s && p in f && (f[p] > f[q] || (f[p] == f[q] && p < q))
    ensures p in s
  {
    assert q in Positive(f) && p in Positive(f);
    assert !Before(Ranked(q, f[q]), Ranked(p, f[p]));
  }

  /** From exact counts: no pages within the capacity had more accesses in the window than those of the
      count-only set. */
  lemma CountOnlyIsBest(w: Window, capacity: nat, wanted: int, selected: set<nat>, p: Picks, other: set<nat>)
    requires PicksFrom(w, capacity, wanted, Exact, selected, p) && |other| <= capacity
    ensures Sum(w.accesses, other) <= Sum(w.accesses, p.countOnly)
  {
    hide Sum;
    ChoiceIsBest(w.accesses, capacity, p.countOnly, other);
  }

  /** Place i of the list is the last one of page p. */
  ghost predicate LastPlace(list: seq<nat>, p: nat, i: nat) {
    i < |list| && list[i] == p && p !in list[i + 1..]
  }

  /** From a tracker's list: the count-only set holds listed pages of the window only, as many as fit,
      and those whose last place comes first. */
  lemma CountOnlyIsListed(w: Window, capacity: nat, wanted: int, hpt: seq<nat>, hwt: seq<nat>, selected: set<nat>,
      p: Picks)
    requires PicksFrom(w, capacity, wanted, Tracker(hpt, hwt), selected, p)
    ensures var listed := set x | x in w.accesses && x in hpt;
      && p.countOnly <= listed && |p.countOnly| == (if capacity < |listed| then capacity else |listed|)
      && forall x, y, i, j ::
           (x in p.countOnly && y in listed - p.countOnly && LastPlace(hpt, x, i) && LastPlace(hpt, y, j) ==> i < j)
  {
    hide LastPlace, RankOf;
    var f := PageScores(w, Tracker(hpt, hwt));
    var listed := set x | x in w.accesses && x in hpt;
    assert Positive(f) == listed;
    forall x, y, i, j | x in p.countOnly && y in listed - p.countOnly && LastPlace(hpt, x, i) && LastPlace(hpt, y, j)
      ensures i < j
    {
      assert Before(Ranked(x, f[x]), Ranked(y, f[y]));
      EarlierScores(hpt, x, y, i, j);
    }
  }

  lemma EarlierScores(hpt: seq<nat>, x: nat, y: nat, i: nat, j: nat)
    requires x != y && LastPlace(hpt, x, i) && LastPlace(hpt, y, j)
    ensures RankOf(hpt, x) != RankOf(hpt, y) && (RankOf(hpt, x) > RankOf(hpt, y) ==> i < j)
  {
    RankAt(hpt, x, i);
    RankAt(hpt, y, j);
  }

  lemma RankAt(hpt: seq<nat>, p: nat, i: nat)
    requires LastPlace(hpt, p, i)
    ensures RankOf(hpt, p) == |hpt| - i
  {
    LastRank(hpt, p, |hpt| - i);
  }

  /** No pages of the window within the capacity hold more of the selected words than those of the
      word-driven set, nor do pages of the count-only set more than those of the page-driven one. */
  lemma WordSetsAreBest(w: Window, capacity: nat, wanted: int, source: Source, selected: set<nat>, p: Picks,
      other: set<nat>)
    requires PicksFrom(w, capacity, wanted, source, selected, p) && |other| <= capacity && other <= w.accesses.Keys
    ensures |WordsIn(selected, other)| <= |WordsIn(selected, p.hwtDriven)|
    ensures other <= p.countOnly ==> |WordsIn(selected, other)| <= |WordsIn(selected, p.hptDriven)|
    ensures p.hptDriven <= p.countOnly
  {
    hide Sum, PopOf, WordsIn, PageScores, IsSelected;
    var pages := w.accesses.Keys;
    var pop := PopOf(selected, pages);
    PopKeys(selected, pages);
    PopTotal(selected, pages, other);
    PopTotal(selected, pages, p.hwtDriven);
    PopTotal(selected, pages, p.hptDriven);
    ChoiceIsBest(pop, capacity, p.hwtDriven, other);
    if other <= p.countOnly {
      ChoiceIsBest(Eligible(pop, p.countOnly), capacity, p.hptDriven, other);
      EligibleSum(pop, p.countOnly, other);
      EligibleSum(pop, p.countOnly, p.hptDriven);
    }
  }

  lemma {:induction false} EligibleSum(pop: map<nat, nat>, of: set<nat>, s: set<nat>)
    requires s <= of
    ensures Sum(Eligible(pop, of), s) == Sum(pop, s)
    decreases |s|
  {
    if s != {} {
      var k :| k in s;
      SumSplit(pop, s, k);
      SumSplit(Eligible(pop, of), s, k);
      EligibleSum(pop, of, s - {k});
    }
  }

  /** The selected words from exact counts: touched ones, `wanted` of them but at least one and at most
      all, and no other words so many have higher counts in total. A tracker's are those it listed. */
  lemma SelectedWords(w: Window, capacity: nat, wanted: int, source: Source, selected: set<nat>, p: Picks,
      other: set<nat>)
    requires PicksFrom(w, capacity, wanted, source, selected, p)
    ensures var touched := set k | k in w.counts && w.counts[k] > 0;
      source.Exact? ==>
        && selected <= touched
        && (touched != {} ==> selected != {})
        && (|touched| <= wanted ==> selected == touched)
        && (1 <= wanted <= |touched| ==> |selected| == wanted)
        && (wanted < 1 && touched != {} ==> |selected| == 1)
        && (|other| <= |selected| ==> Sum(w.counts, other) <= Sum(w.counts, selected))
    ensures source.Tracker? ==> forall k :: k in selected <==> k in source.hwt
  {
    hide Sum;
    if source.Exact? {
      var touched := set k | k in w.counts && w.counts[k] > 0;
      assert touched == Positive(w.counts);
      if touched != {} {
        var k :| k in touched;
        Counting.SubsetSize({k}, touched);
      }
      Counting.SubsetSize(selected, touched);
      if |other| <= |selected| { ChoiceIsBest(w.counts, Budget(w.counts, wanted), selected, other); }
    }
  }

  // ---------- tallies ----------

  lemma {:induction false} FullSum(f: map<nat, nat>, s: set<nat>, most: nat)
    requires forall x :: x in s ==> ScoreOf(f, x) <= most
    ensures Sum(f, s) == |s| * most <==> forall x :: x in s ==> ScoreOf(f, x) == most
    ensures Sum(f, s) <= |s| * most
    decreases |s|
  {
    if s != {} {
      var x :| x in s;
      SumSplit(f, s, x);
      FullSum(f, s - {x}, most);
      assert |s| == |s - {x}| + 1;
      OneMore(|s - {x}|, most);
    }
  }

  lemma OneMore(n: nat, most: nat)
    ensures (n + 1) * most == n * most + most
  {
  }

  /** A page moves 4096 bytes. All of them are useful if and only if every word of every page moved is
      touched, and an oracle with room for every accessed page captures every access. */
  lemma TallyExtremes(t: Tally, w: Window, capacity: int, s: set<nat>)
    requires WindowOk(w)
    ensures Add(t, w, s).moved - t.moved == 4096 * |s|
    ensures Add(t, w, s).useful - t.useful == Add(t, w, s).moved - t.moved
      <==> forall p :: p in s ==> ScoreOf(w.words, p) == 64
    ensures IsChoice(w.accesses, capacity, s) && capacity >= |w.accesses.Keys| ==>
      Add(t, w, s).captured - t.captured == Sum(w.accesses, w.accesses.Keys)
  {
    FullSum(w.words, s, 64);
    if IsChoice(w.accesses, capacity, s) && capacity >= |w.accesses.Keys| {
      Counting.SubsetSize(Positive(w.accesses), w.accesses.Keys);
      Counting.SubsetSize(s, Positive(w.accesses));
      var rest := w.accesses.Keys - s;
      SumUnion(w.accesses, s, rest);
      SumZero(w.accesses, rest);
      assert s + rest == w.accesses.Keys;
    }
  }

  /** The best set of a window when there is room for all its pages. */
  ghost predicate RoomyBest(w: Window, capacity: nat, s: set<nat>) {
    WindowOk(w) && IsChoice(w.accesses, capacity, s) && |w.accesses.Keys| <= capacity
  }

  /** So with room for every accessed page the oracle captures all accesses of the windows served. */
  lemma {:induction false} RoomyOracle(ws: seq<Window>, capacity: nat, bests: seq<set<nat>>)
    requires bests == [] || |bests| < |ws|
    requires forall i :: 0 <= i < |bests| ==> RoomyBest(ws[i + 1], capacity, bests[i])
    ensures TallyOf(ws, bests).captured == Total(ws, |bests|)
  {
    hide Sum, Add, RoomyBest;
    if bests != [] {
      var n := |bests|;
      var init := bests[..n - 1];
      forall i | 0 <= i < |init| ensures RoomyBest(ws[i + 1], capacity, init[i]) {
        assert init[i] == bests[i];
      }
      RoomyOracle(ws, capacity, init);
      AllCaptured(TallyOf(ws, init), ws[n], capacity, bests[n - 1]);
    }
  }

  lemma AllCaptured(t: Tally, w: Window, capacity: nat, s: set<nat>)
    requires RoomyBest(w, capacity, s)
    ensures Add(t, w, s).captured == t.captured + Sum(w.accesses, w.accesses.Keys)
  {
    hide Sum, Add, IsChoice, WindowOk;
    TallyExtremes(t, w, capacity, s);
  }

  /** The candidate sets are chosen without foresight: two studies that agree on one window, and on what
      the tracker reported at its end, serve the next window by the same sets, whatever it holds. */
  lemma NoForesight(ws: seq<Window>, vs: seq<Window>, capacity: int, wanted: int, sources: seq<Source>,
      others: seq<Source>, rounds: seq<Round>, rounds': seq<Round>, i: nat)
    requires |sources| == |ws| && |others| == |vs| && i < |rounds| < |ws| && i < |rounds'| < |vs|
    requires RoundsOk(ws, capacity, wanted, sources, rounds) && RoundsOk(vs, capacity, wanted, others, rounds')
    requires ws[i] == vs[i] && sources[i] == others[i]
    ensures rounds[i].selected == rounds'[i].selected && rounds[i].picks == rounds'[i].picks
  {
    hide PicksFrom;
    assert RoundOk(ws[i], ws[i + 1], capacity, wanted, sources[i], rounds[i]);
    assert RoundOk(vs[i], vs[i + 1], capacity, wanted, others[i], rounds'[i]);
    PicksAreUnique(ws[i], capacity, wanted, sources[i], rounds[i].selected, rounds[i].picks,
                   rounds'[i].selected, rounds'[i].picks);
  }
}
