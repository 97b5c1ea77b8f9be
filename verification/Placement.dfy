/** Choosing pages for a small fast tier: the tie-broken top selection, the word-budget heuristic,
    and the window-by-window accounting in which no policy beats the oracle. */
module Placement {
  import Counting
  import opened Selection
  import opened Scoring
  import Accuracy

  /** The order pages are preferred in: higher score first, then lower page number. */
  predicate Before(a: Ranked, b: Ranked) {
    a.score > b.score || (a.score == b.score && a.key < b.key)
  }

  ghost function Positive(f: map<nat, nat>): set<nat> {
    set k | k in f && f[k] > 0
  }

  /** The first `capacity` keys with a positive score, in the order of preference. */
  ghost predicate IsChoice(f: map<nat, nat>, capacity: int, s: set<nat>) {
    && s <= Positive(f)
    && |s| == (if capacity <= 0 then 0 else if capacity < |Positive(f)| then capacity else |Positive(f)|)
    && forall p, q :: p in s && q in Positive(f) - s ==> Before(Ranked(p, f[p]), Ranked(q, f[q]))
  }

  /** The preference leaves no freedom: ties are resolved by page number. */
  lemma ChoiceIsUnique(f: map<nat, nat>, capacity: int, s: set<nat>, t: set<nat>)
    requires IsChoice(f, capacity, s) && IsChoice(f, capacity, t)
    ensures s == t
  {
    forall p | p in s ensures p in t || t <= s { Outranked(f, capacity, s, t, p); }
    assert s * t == s || s * t == t;
    Counting.SubsetSize(s * t, s);
    Counting.SubsetSize(s * t, t);
  }

  /** A key that only one choice takes outranks all that the other adds, so the other adds none. */
  lemma Outranked(f: map<nat, nat>, capacity: int, s: set<nat>, t: set<nat>, p: nat)
    requires IsChoice(f, capacity, s) && IsChoice(f, capacity, t) && p in s
    ensures p !in t ==> t <= s
  {
    if p !in t {
      forall q | q in t ensures q in s {
        var x, y := Ranked(p, f[p]), Ranked(q, f[q]);
        assert Before(y, x);
        assert q !in s ==> Before(x, y);
      }
    }
  }

  ghost function PositivePart(f: map<nat, nat>): map<nat, nat> {
    map k | k in Positive(f) :: f[k]
  }

  lemma {:induction false} SumPositive(f: map<nat, nat>, s: set<nat>)
    ensures Sum(f, s) == Sum(PositivePart(f), s)
    decreases |s|
  {
    if s != {} {
      var k :| k in s;
      SumSplit(f, s, k);
      SumSplit(PositivePart(f), s, k);
      SumPositive(f, s - {k});
    }
  }

  /** No set of at most `capacity` pages, chosen with whatever knowledge, scores more. */
  lemma ChoiceIsBest(f: map<nat, nat>, capacity: nat, s: set<nat>, other: set<nat>)
    requires IsChoice(f, capacity, s) && |other| <= capacity
    ensures Sum(f, other) <= Sum(f, s)
  {
    hide Sum;
    var g := PositivePart(f);
    assert g.Keys == Positive(f);
    TopIsBest(g, capacity, s, other);
    SumPositive(f, s);
    SumPositive(f, other);
  }

  // ---------- choose ----------

  ghost predicate Sorted(w: seq<Ranked>, n: nat) {
    forall i, j :: 0 <= i < n && i < j < |w| ==> Before(w[i], w[j])
  }

  ghost predicate DistinctKeys(w: seq<Ranked>) {
    forall i, j :: 0 <= i < j < |w| ==> w[i].key != w[j].key
  }

  /** Stands for the two-key sort. */
  method LexSort(v: seq<Ranked>) returns (w: seq<Ranked>)
    requires DistinctKeys(v)
    ensures multiset(w) == multiset(v) && |w| == |v| && DistinctKeys(w) && Sorted(w, |w|)
  {
    hide Before;
    w := v;
    for i := 0 to |v|
      invariant |w| == |v| && multiset(w) == multiset(v) && DistinctKeys(w)
      invariant Sorted(w, i)
    {
      var best := Foremost(w, i);
      SwapIn(w, i, best);
      w := w[i := w[best]][best := w[i]];
    }
  }

  method Foremost(w: seq<Ranked>, i: nat) returns (best: nat)
    requires i < |w| && DistinctKeys(w)
    ensures i <= best < |w| && forall m :: i <= m < |w| && m != best ==> Before(w[best], w[m])
  {
    best := i;
    for j := i + 1 to |w|
      invariant i <= best < |w|
      invariant forall m :: i <= m < j && m != best ==> Before(w[best], w[m])
    {
      if Before(w[j], w[best]) { best := j; }
    }
  }

  lemma SwapIn(w: seq<Ranked>, i: nat, best: nat)
    requires i <= best < |w| && DistinctKeys(w) && Sorted(w, i)
    requires forall m :: i <= m < |w| && m != best ==> Before(w[best], w[m])
    ensures var w' := w[i := w[best]][best := w[i]];
      multiset(w') == multiset(w) && DistinctKeys(w') && Sorted(w', i + 1)
  {
    hide Before;
  }

  method Choose(f: map<nat, nat>, capacity: int) returns (s: set<nat>)
    ensures IsChoice(f, capacity, s)
  {
    if capacity <= 0 { return {}; }
    var rows := Listing(f);
    var valid := PositiveRows(rows, f);
    var order := LexSort(valid);
    SortedStillLists(valid, order, PositivePart(f));
    var n := if capacity < |order| then capacity else |order|;
    s := KeySetOf(order[..n]);
    FirstIsChoice(order, f, capacity, n);
  }

  method PositiveRows(rows: seq<Ranked>, ghost f: map<nat, nat>) returns (valid: seq<Ranked>)
    requires Lists(rows, f)
    ensures Lists(valid, PositivePart(f))
  {
    valid := [];
    for i := 0 to |rows|
      invariant forall a, b :: 0 <= a < b < |valid| ==> valid[a].key != valid[b].key
      invariant forall a :: 0 <= a < |valid| ==> valid[a].score > 0 && valid[a] in rows[..i]
      invariant forall a :: 0 <= a < i && rows[a].score > 0 ==> rows[a] in valid
    {
      assert rows[..i + 1] == rows[..i] + [rows[i]];
      if rows[i].score > 0 { valid := valid + [rows[i]]; }
    }
    forall k | k in PositivePart(f) ensures Ranked(k, f[k]) in valid {
      var a := PositionIn(rows, Ranked(k, f[k]));
    }
  }

  method KeySetOf(w: seq<Ranked>) returns (s: set<nat>)
    ensures s == Counting.Elements(KeysOf(w))
  {
    s := {};
    for i := 0 to |w|
      invariant s == Counting.Elements(KeysOf(w)[..i])
    {
      assert KeysOf(w)[..i + 1] == KeysOf(w)[..i] + [w[i].key];
      s := s + {w[i].key};
    }
    assert KeysOf(w)[..|w|] == KeysOf(w);
  }

  lemma KeyHeld(order: seq<Ranked>, n: nat, j: nat)
    requires n <= |order| && j < |order|
    ensures j < n ==> order[j].key in Counting.Elements(KeysOf(order[..n]))
  {
    if j < n { assert KeysOf(order[..n])[j] == order[j].key; }
  }

  lemma FirstIsChoice(order: seq<Ranked>, f: map<nat, nat>, capacity: nat, n: nat)
    requires Lists(order, PositivePart(f)) && Sorted(order, |order|)
    requires n == if capacity < |order| then capacity else |order|
    ensures IsChoice(f, capacity, Counting.Elements(KeysOf(order[..n])))
  {
    var keys, g := KeysOf(order[..n]), PositivePart(f);
    var s := Counting.Elements(keys);
    assert g.Keys == Positive(f);
    ListsSize(order, g);
    Counting.DistinctSize(keys);
    forall p, q | p in s && q in Positive(f) - s ensures Before(Ranked(p, f[p]), Ranked(q, f[q])) {
      var i :| 0 <= i < n && keys[i] == p;
      var j := PositionIn(order, Ranked(q, f[q]));
      KeyHeld(order, n, j);
    }
  }

  // ---------- the word budget ----------

  /** Words above the threshold, and of those at it the lowest addresses, up to the budget. */
  ghost predicate ByThreshold(f: map<nat, nat>, budget: nat, low: nat, ties: set<nat>) {
    && IsThreshold(f, budget, low) && |Above(f, low)| + |ties| == budget
    && ties <= Reaching(f, low) - Above(f, low)
    && forall p, q :: p in ties && q in Reaching(f, low) - Above(f, low) - ties ==> p < q
  }

  /** Cutting at a threshold and resolving ties by address is the same tie-broken top selection. */
  lemma ThresholdIsChoice(f: map<nat, nat>, budget: nat, low: nat, ties: set<nat>)
    requires 0 < budget <= |Positive(f)| && ByThreshold(f, budget, low, ties)
    ensures IsChoice(f, budget, Above(f, low) + ties)
  {
    assert low == 0 ==> Above(f, low) == Positive(f);
    assert Above(f, low) !! ties;
    assert |Above(f, low) + ties| == budget;
    var s := Above(f, low) + ties;
    forall p, q | p in s && q in Positive(f) - s ensures Before(Ranked(p, f[p]), Ranked(q, f[q])) {
      assert f[p] >= low >= f[q];
      if f[p] == f[q] { assert q in Reaching(f, low) - Above(f, low) - ties; }
    }
  }

  /** The entries with score `low`. */
  method TieRows(rows: seq<Ranked>, low: nat, ghost f: map<nat, nat>) returns (above: set<nat>, ties: seq<Ranked>)
    requires Lists(rows, f)
    ensures above == Above(f, low)
    ensures DistinctKeys(ties) && Counting.Elements(KeysOf(ties)) == Reaching(f, low) - Above(f, low)
    ensures forall i :: 0 <= i < |ties| ==> ties[i].score == low
  {
    hide Sorted;
    above, ties := {}, [];
    for i := 0 to |rows|
      invariant Parted(rows, i, low, above, ties)
    {
      PartNext(rows, i, low, above, ties);
      if rows[i].score > low {
        above := above + {rows[i].key};
      } else if rows[i].score == low {
        ties := ties + [rows[i]];
      }
    }
    TiesAre(rows, f, low, above, ties);
  }

  ghost predicate Exceeds(rows: seq<Ranked>, i: nat, low: nat, k: nat) {
    exists a :: 0 <= a < i && a < |rows| && rows[a].score > low && rows[a].key == k
  }

  /** The first i rows parted at `low`. */
  ghost predicate Parted(rows: seq<Ranked>, i: nat, low: nat, above: set<nat>, ties: seq<Ranked>) {
    && i <= |rows|
    && (forall k :: k in above <==> Exceeds(rows, i, low, k))
    && DistinctKeys(ties)
    && (forall a :: 0 <= a < |ties| ==> ties[a].score == low && ties[a] in rows[..i])
    && forall a :: 0 <= a < i && rows[a].score == low ==> rows[a] in ties
  }

  lemma PartNext(rows: seq<Ranked>, i: nat, low: nat, above: set<nat>, ties: seq<Ranked>)
    requires i < |rows| && DistinctKeys(rows) && Parted(rows, i, low, above, ties)
    ensures rows[i].score > low ==> Parted(rows, i + 1, low, above + {rows[i].key}, ties)
    ensures rows[i].score == low ==> Parted(rows, i + 1, low, above, ties + [rows[i]])
    ensures rows[i].score < low ==> Parted(rows, i + 1, low, above, ties)
  {
    assert rows[..i + 1] == rows[..i] + [rows[i]];
    forall k ensures Exceeds(rows, i + 1, low, k) <==>
      Exceeds(rows, i, low, k) || (rows[i].score > low && rows[i].key == k)
    {
      assert rows[i].score > low && rows[i].key == k ==> Exceeds(rows, i + 1, low, k);
    }
    forall a | 0 <= a < |ties| ensures ties[a].key != rows[i].key {
      var b :| 0 <= b < i && rows[..i][b] == ties[a];
      assert rows[b] == ties[a];
    }
  }

  lemma TiesAre(rows: seq<Ranked>, f: map<nat, nat>, low: nat, above: set<nat>, ties: seq<Ranked>)
    requires Lists(rows, f)
    requires Parted(rows, |rows|, low, above, ties)
    ensures above == Above(f, low)
    ensures Counting.Elements(KeysOf(ties)) == Reaching(f, low) - Above(f, low)
  {
    forall k | k in Above(f, low) ensures k in above { var a := PositionIn(rows, Ranked(k, f[k])); }
    forall k | k in Reaching(f, low) - Above(f, low) ensures k in KeysOf(ties) {
      var a := PositionIn(rows, Ranked(k, f[k]));
      var b := PositionIn(ties, rows[a]);
      assert KeysOf(ties)[b] == k;
    }
    forall k | k in KeysOf(ties) ensures k in Reaching(f, low) - Above(f, low) {
      var b := PositionIn(KeysOf(ties), k);
      var a := PositionIn(rows, ties[b]);
    }
  }

  /** The hottest words within a strict budget, even when many share the threshold count. */
  method SelectWords(words: map<nat, nat>, budget: nat) returns (selected: set<nat>)
    requires 0 < budget <= |Positive(words)|
    ensures IsChoice(words, budget, selected)
  {
    var rows := Listing(words);
    ListsSize(rows, words);
    Counting.SubsetSize(Positive(words), words.Keys);
    var w := PartialSort(rows, budget);
    SortedStillLists(rows, w, words);
    ThresholdAt(w, words, budget);
    var low := w[budget - 1].score;
    var above, tied := TieRows(rows, low, words);
    var order := LexSort(tied);
    var ties := FirstTies(tied, order, above, words, budget, low);
    selected := above + ties;
    ThresholdIsChoice(words, budget, low, ties);
  }

  lemma SameKeys(v: seq<Ranked>, w: seq<Ranked>)
    requires multiset(v) == multiset(w)
    ensures Counting.Elements(KeysOf(v)) == Counting.Elements(KeysOf(w))
    ensures forall x :: x in v <==> x in w
  {
    forall x ensures x in v <==> x in w {
      assert x in v <==> x in multiset(v);
      assert x in w <==> x in multiset(w);
    }
    forall k ensures k in KeysOf(v) <==> k in KeysOf(w) {
      if k in KeysOf(v) {
        var i := PositionIn(KeysOf(v), k);
        var j := PositionIn(w, v[i]);
        assert KeysOf(w)[j] == k;
      }
      if k in KeysOf(w) {
        var i := PositionIn(KeysOf(w), k);
        var j := PositionIn(v, w[i]);
        assert KeysOf(v)[j] == k;
      }
    }
  }

  method FirstTies(tied: seq<Ranked>, order: seq<Ranked>, above: set<nat>, ghost f: map<nat, nat>,
      budget: nat, low: nat)
    returns (ties: set<nat>)
    requires IsThreshold(f, budget, low) && above == Above(f, low)
    requires Counting.Elements(KeysOf(tied)) == Reaching(f, low) - Above(f, low)
    requires forall i :: 0 <= i < |tied| ==> tied[i].score == low
    requires multiset(order) == multiset(tied) && DistinctKeys(order) && Sorted(order, |order|)
    ensures ByThreshold(f, budget, low, ties)
  {
    SameKeys(tied, order);
    forall i | 0 <= i < |order| ensures order[i].score == low {
      assert order[i] in tied;
    }
    PoolSize(order, f, low);
    var m := budget - |above|;
    ties := KeySetOf(order[..m]);
    FirstTiesAre(order, m, low);
  }

  lemma PoolSize(order: seq<Ranked>, f: map<nat, nat>, low: nat)
    requires DistinctKeys(order) && Counting.Elements(KeysOf(order)) == Reaching(f, low) - Above(f, low)
    ensures |order| == |Reaching(f, low)| - |Above(f, low)|
  {
    Counting.DistinctSize(KeysOf(order));
    assert Reaching(f, low) == Above(f, low) + (Reaching(f, low) - Above(f, low));
  }

  /** Among equal scores the first m in order are the m lowest keys. */
  lemma FirstTiesAre(order: seq<Ranked>, m: nat, low: nat)
    requires m <= |order| && DistinctKeys(order) && Sorted(order, |order|)
    requires forall i :: 0 <= i < |order| ==> order[i].score == low
    ensures var all, ties := Counting.Elements(KeysOf(order)), Counting.Elements(KeysOf(order[..m]));
      |ties| == m && ties <= all && forall p, q :: p in ties && q in all - ties ==> p < q
  {
    var all, first := KeysOf(order), KeysOf(order[..m]);
    Counting.DistinctSize(first);
    assert forall i :: 0 <= i < m ==> first[i] == all[i];
    forall i | 0 <= i < m ensures first[i] in all { assert all[i] == first[i]; }
    forall p, q | p in Counting.Elements(first) && q in Counting.Elements(all) - Counting.Elements(first)
      ensures p < q
    {
      var i := PositionIn(first, p);
      var j := PositionIn(all, q);
      assert Before(order[i], order[j]);
    }
  }

  // ---------- candidates ----------

  /** How many of the selected words lie in each page. */
  ghost function PopOf(selected: set<nat>, pages: set<nat>): map<nat, nat> {
    map p | p in pages :: |WordsOf(selected, p)|
  }

  ghost function WordsOf(selected: set<nat>, p: nat): set<nat> {
    set k | k in selected && k / 64 == p
  }

  /** The words counted over all pages are the budget spent. */
  lemma {:induction false} PopTotal(selected: set<nat>, pages: set<nat>, some: set<nat>)
    requires some <= pages
    ensures Sum(PopOf(selected, pages), some) == |WordsIn(selected, some)|
    decreases |some|
  {
    if some == {} {
      assert WordsIn(selected, some) == {};
    } else {
      var p :| p in some;
      SumSplit(PopOf(selected, pages), some, p);
      PopTotal(selected, pages, some - {p});
      WordsSplit(selected, some, p);
    }
  }

  ghost function WordsIn(selected: set<nat>, pages: set<nat>): set<nat> {
    set k | k in selected && k / 64 in pages
  }

  lemma WordsSplit(selected: set<nat>, some: set<nat>, p: nat)
    requires p in some
    ensures |WordsIn(selected, some)| == |WordsIn(selected, some - {p})| + |WordsOf(selected, p)|
  {
    var others := WordsIn(selected, some - {p});
    assert WordsIn(selected, some) == others + WordsOf(selected, p) && others !! WordsOf(selected, p);
  }

  method CountPerPage(selected: set<nat>, pages: set<nat>) returns (pop: map<nat, nat>)
    ensures pop == PopOf(selected, pages)
  {
    hide PopOf;
    pop := map p | p in pages :: 0;
    NoWords(pages);
    var rest := selected;
    ghost var seen: set<nat> := {};
    while rest != {}
      invariant rest <= selected && seen == selected - rest
      invariant pop == PopOf(seen, pages) && pop.Keys == pages
      decreases |rest|
    {
      var k :| k in rest;
      CountOneMore(seen, pages, k);
      if k / 64 in pages { pop := pop[k / 64 := pop[k / 64] + 1]; }
      assert selected - (rest - {k}) == seen + {k};
      PopKeys(seen + {k}, pages);
      seen, rest := seen + {k}, rest - {k};
    }
    assert seen == selected;
  }

  lemma CountOneMore(seen: set<nat>, pages: set<nat>, k: nat)
    requires k !in seen
    ensures var pop := PopOf(seen, pages);
      PopOf(seen + {k}, pages) == if k / 64 in pages then pop[k / 64 := pop[k / 64] + 1] else pop
  {
    hide WordsOf;
    OneMoreWord(seen, k);
  }

  lemma PopKeys(seen: set<nat>, pages: set<nat>)
    ensures PopOf(seen, pages).Keys == pages
  {
  }

  lemma NoWords(pages: set<nat>)
    ensures PopOf({}, pages) == map p | p in pages :: 0
  {
    assert forall p :: WordsOf({}, p) == {};
  }

  lemma OneMoreWord(seen: set<nat>, k: nat)
    requires k !in seen
    ensures forall p :: |WordsOf(seen + {k}, p)| == |WordsOf(seen, p)| + if p == k / 64 then 1 else 0
  {
    forall p ensures |WordsOf(seen + {k}, p)| == |WordsOf(seen, p)| + if p == k / 64 then 1 else 0 {
      assert WordsOf(seen + {k}, p) == if p == k / 64 then WordsOf(seen, p) + {k} else WordsOf(seen, p);
    }
  }

  /** The word budget: `wanted` words, at least one, at most those touched. */
  ghost function Budget(words: map<nat, nat>, wanted: int): nat {
    var w := if wanted > 1 then wanted else 1;
    if w < |Positive(words)| then w else |Positive(words)|
  }

  method CountPositive(words: map<nat, nat>) returns (n: nat)
    ensures n == |Positive(words)|
  {
    var nonzero := set k | k in words && words[k] > 0;
    assert nonzero == Positive(words);
    n := |nonzero|;
  }

  /** One window: the accesses of its pages, the counts of their words, and how many distinct words
      of each page were touched. */
  datatype Window = Window(accesses: map<nat, nat>, counts: map<nat, nat>, words: map<nat, nat>)

  ghost predicate WindowOk(w: Window) {
    && w.words.Keys == w.accesses.Keys && (forall p :: p in w.words ==> w.words[p] <= 64)
    && forall k :: k in w.counts ==> k / 64 in w.accesses
  }

  /** Where scores come from: exact counts of the window, or what a tracker reported at its end, pages
      in descending order and words in any. */
  datatype Source = Exact | Tracker(hpt: seq<nat>, hwt: seq<nat>)

  datatype Picks = Picks(countOnly: set<nat>, hptDriven: set<nat>, hwtDriven: set<nat>)

  /** A listed page scores by its last rank, the first of K by K; others score nothing. */
  function RankOf(hpt: seq<nat>, p: nat): (r: nat)
    ensures r > 0 <==> p in hpt
    ensures r <= |hpt| && (r > 0 ==> hpt[|hpt| - r] == p && p !in hpt[|hpt| - r + 1..])
  {
    if hpt == [] then 0
    else if RankOf(hpt[1..], p) > 0 then RankOf(hpt[1..], p)
    else if hpt[0] == p then |hpt| else 0
  }

  ghost function PageScores(w: Window, source: Source): map<nat, nat> {
    match source
    case Exact => w.accesses
    case Tracker(hpt, _) => map p | p in w.accesses :: RankOf(hpt, p)
  }

  /** The words whose pages count: the hottest within the budget, or those reported. */
  ghost predicate IsSelected(w: Window, wanted: int, source: Source, s: set<nat>) {
    match source
    case Exact => IsChoice(w.counts, Budget(w.counts, wanted), s)
    case Tracker(_, hwt) => s == Counting.Elements(hwt)
  }

  ghost function Eligible(pop: map<nat, nat>, s: set<nat>): map<nat, nat> {
    map p | p in pop :: if p in s then pop[p] else 0
  }

  /** The three candidate sets of a window: by page score, by selected words among those pages, and by
      selected words alone. */
  ghost predicate PicksFrom(w: Window, capacity: int, wanted: int, source: Source, selected: set<nat>, p: Picks) {
    var pop := PopOf(selected, w.accesses.Keys);
    && IsSelected(w, wanted, source, selected)
    && IsChoice(PageScores(w, source), capacity, p.countOnly)
    && IsChoice(Eligible(pop, p.countOnly), capacity, p.hptDriven)
    && IsChoice(pop, capacity, p.hwtDriven)
  }

  /** The previous window leaves no freedom in any of them. */
  lemma PicksAreUnique(w: Window, capacity: int, wanted: int, source: Source,
      s: set<nat>, p: Picks, t: set<nat>, q: Picks)
    requires PicksFrom(w, capacity, wanted, source, s, p) && PicksFrom(w, capacity, wanted, source, t, q)
    ensures s == t && p == q
  {
    hide IsChoice, PopOf;
    if source.Exact? { ChoiceIsUnique(w.counts, Budget(w.counts, wanted), s, t); }
    var pop := PopOf(s, w.accesses.Keys);
    ChoiceIsUnique(PageScores(w, source), capacity, p.countOnly, q.countOnly);
    ChoiceIsUnique(Eligible(pop, p.countOnly), capacity, p.hptDriven, q.hptDriven);
    ChoiceIsUnique(pop, capacity, p.hwtDriven, q.hwtDriven);
  }

  /** All stay within the capacity, the page-driven set adds no page to the count-only one, and the
      selected words spend exactly the budget. */
  lemma PicksRespectLimits(w: Window, capacity: nat, wanted: int, source: Source, selected: set<nat>, p: Picks)
    requires WindowOk(w) && PicksFrom(w, capacity, wanted, source, selected, p)
    ensures |p.countOnly| <= capacity && |p.hptDriven| <= capacity && |p.hwtDriven| <= capacity
    ensures p.hptDriven <= p.countOnly
    ensures var pages := w.accesses.Keys;
      source.Exact? ==> Sum(PopOf(selected, pages), pages) == |selected| == Budget(w.counts, wanted)
  {
    hide Sum;
    PopTotal(selected, w.accesses.Keys, w.accesses.Keys);
    if source.Exact? { assert WordsIn(selected, w.accesses.Keys) == selected; }
  }

  method SelectHottest(words: map<nat, nat>, wanted: int) returns (selected: set<nat>)
    ensures IsChoice(words, Budget(words, wanted), selected)
  {
    var budget := CountPositive(words);
    var w := if wanted > 1 then wanted else 1;
    if w < budget { budget := w; }
    selected := {};
    if budget > 0 { selected := SelectWords(words, budget); }
  }

  method Ranks(hpt: seq<nat>) returns (ranks: map<nat, nat>)
    ensures forall p :: p in ranks <==> p in hpt
    ensures forall p :: p in ranks ==> ranks[p] == RankOf(hpt, p)
  {
    ranks := map[];
    for i := 0 to |hpt|
      invariant forall p :: p in ranks <==> p in hpt[..i]
      invariant forall p :: p in ranks ==> LastAt(hpt, i, p, ranks[p])
    {
      ranks := ranks[hpt[i] := |hpt| - i];
    }
    forall p | p in ranks ensures ranks[p] == RankOf(hpt, p) { LastRank(hpt, p, ranks[p]); }
  }

  /** Among the first i entries p was last listed with rank r. */
  ghost predicate LastAt(hpt: seq<nat>, i: nat, p: nat, r: nat) {
    && i <= |hpt| && 0 < r <= |hpt| && |hpt| - r < i
    && hpt[|hpt| - r] == p && p !in hpt[|hpt| - r + 1..i]
  }

  lemma {:induction false} LastRank(hpt: seq<nat>, p: nat, r: nat)
    requires 0 < r <= |hpt| && hpt[|hpt| - r] == p && p !in hpt[|hpt| - r + 1..]
    ensures r == RankOf(hpt, p)
  {
    if r < |hpt| {
      assert hpt[1..][|hpt| - r..] == hpt[|hpt| - r + 1..];
      LastRank(hpt[1..], p, r);
    }
  }

  method SetOfList(list: seq<nat>) returns (s: set<nat>)
    ensures s == Counting.Elements(list)
  {
    s := set x | x in list;
  }

  method Scored(w: Window, wanted: int, source: Source) returns (scores: map<nat, nat>, selected: set<nat>)
    ensures scores == PageScores(w, source) && IsSelected(w, wanted, source, selected)
  {
    hide IsChoice, Budget, RankOf;
    match source {
      case Exact =>
        scores := w.accesses;
        selected := SelectHottest(w.counts, wanted);
      case Tracker(hpt, hwt) =>
        var ranks := Ranks(hpt);
        scores := map p | p in w.accesses :: if p in ranks then ranks[p] else 0;
        forall p | p in w.accesses ensures scores[p] == RankOf(hpt, p) {}
        selected := SetOfList(hwt);
    }
  }

  /** The candidate sets, computed from the previous window alone. */
  method Candidates(w: Window, capacity: int, wanted: int, source: Source)
    returns (picks: Picks)
    ensures exists selected :: PicksFrom(w, capacity, wanted, source, selected, picks)
  {
    hide IsChoice, PopOf, PageScores, IsSelected;
    var scores, chosen := Scored(w, wanted, source);
    var pop := CountPerPage(chosen, w.accesses.Keys);
    var countOnly := Choose(scores, capacity);
    var eligible := map p | p in pop :: if p in countOnly then pop[p] else 0;
    var hptDriven := Choose(eligible, capacity);
    var hwtDriven := Choose(pop, capacity);
    picks := Picks(countOnly, hptDriven, hwtDriven);
    assert PicksFrom(w, capacity, wanted, source, chosen, picks);
  }

  // ---------- evaluation ----------

  /** The integer part of the share of the first window's pages, but at least one page. */
  function FixedCapacity(pages: nat, share: real): (c: int)
    requires 0.0 < share <= 1.0
    ensures 1 <= c && c <= (if pages > 1 then pages else 1)
    ensures pages as real * share < (c + 1) as real
    ensures c as real <= pages as real * share || c == 1
  {
    var c := (pages as real * share).Floor;
    assert pages as real * share <= pages as real;
    if c > 1 then c else 1
  }

  /** What a policy accumulates over the windows. */
  datatype Tally = Tally(captured: nat, useful: nat, moved: nat)

  ghost function Add(t: Tally, w: Window, s: set<nat>): Tally {
    Tally(t.captured + Sum(w.accesses, s), t.useful + 64 * Sum(w.words, s), t.moved + 4096 * |s|)
  }

  method SumPicked(f: map<nat, nat>, s: set<nat>) returns (sum: nat)
    ensures sum == Sum(f, s)
  {
    sum := 0;
    var rest := s;
    while rest != {}
      invariant sum + Sum(f, rest) == Sum(f, s)
      decreases |rest|
    {
      var k :| k in rest;
      SumSplit(f, rest, k);
      sum := sum + ScoreOf(f, k);
      rest := rest - {k};
    }
  }

  method Score(t: Tally, w: Window, s: set<nat>) returns (t': Tally)
    ensures t' == Add(t, w, s)
  {
    var captured := SumPicked(w.accesses, s);
    var words := SumPicked(w.words, s);
    t' := Tally(t.captured + captured, t.useful + words * 64, t.moved + |s| * 4096);
  }

  /** The tally of the sets that serve windows 1, 2, ... in turn. */
  ghost function TallyOf(ws: seq<Window>, sets: seq<set<nat>>): Tally
    requires sets == [] || |sets| < |ws|
  {
    if sets == [] then Tally(0, 0, 0)
    else Add(TallyOf(ws, sets[..|sets| - 1]), ws[|sets|], sets[|sets| - 1])
  }

  ghost function Total(ws: seq<Window>, n: nat): nat
    requires n == 0 || n < |ws|
  {
    if n == 0 then 0 else Total(ws, n - 1) + Sum(ws[n].accesses, ws[n].accesses.Keys)
  }

  lemma WordsFit(w: Window, s: set<nat>)
    requires WindowOk(w)
    ensures Sum(w.words, s) <= |s| * 64
  {
    Accuracy.SumConstant(w.words, s, 64);
  }

  lemma {:induction false} SumWithin(f: map<nat, nat>, s: set<nat>)
    ensures Sum(f, s) <= Sum(f, f.Keys)
  {
    SumUnion(f, s * f.Keys, s - f.Keys);
    assert s * f.Keys + (s - f.Keys) == s;
    SumZero(f, s - f.Keys);
    Accuracy.SumSubset(f, s * f.Keys, f.Keys);
  }

  /** What served window i + 1: the best set in hindsight and the three chosen from window i. */
  datatype Round = Round(best: set<nat>, selected: set<nat>, picks: Picks)

  ghost predicate RoundOk(prev: Window, cur: Window, capacity: int, wanted: int, source: Source, r: Round) {
    IsChoice(cur.accesses, capacity, r.best) && PicksFrom(prev, capacity, wanted, source, r.selected, r.picks)
  }

  /** In one window the oracle captures at least what each of the three captures. */
  lemma OracleCapturesMost(prev: Window, cur: Window, capacity: nat, wanted: int, source: Source, r: Round)
    requires WindowOk(prev) && RoundOk(prev, cur, capacity, wanted, source, r)
    ensures Sum(cur.accesses, r.picks.countOnly) <= Sum(cur.accesses, r.best)
    ensures Sum(cur.accesses, r.picks.hptDriven) <= Sum(cur.accesses, r.best)
    ensures Sum(cur.accesses, r.picks.hwtDriven) <= Sum(cur.accesses, r.best)
  {
    hide Sum;
    PicksRespectLimits(prev, capacity, wanted, source, r.selected, r.picks);
    ChoiceIsBest(cur.accesses, capacity, r.best, r.picks.countOnly);
    ChoiceIsBest(cur.accesses, capacity, r.best, r.picks.hptDriven);
    ChoiceIsBest(cur.accesses, capacity, r.best, r.picks.hwtDriven);
  }

  function Bests(rounds: seq<Round>): (s: seq<set<nat>>)
    ensures |s| == |rounds|
  {
    seq(|rounds|, i requires 0 <= i < |rounds| => rounds[i].best)
  }

  function CountOnly(rounds: seq<Round>): (s: seq<set<nat>>)
    ensures |s| == |rounds|
  {
    seq(|rounds|, i requires 0 <= i < |rounds| => rounds[i].picks.countOnly)
  }

  function HptDriven(rounds: seq<Round>): (s: seq<set<nat>>)
    ensures |s| == |rounds|
  {
    seq(|rounds|, i requires 0 <= i < |rounds| => rounds[i].picks.hptDriven)
  }

  function HwtDriven(rounds: seq<Round>): (s: seq<set<nat>>)
    ensures |s| == |rounds|
  {
    seq(|rounds|, i requires 0 <= i < |rounds| => rounds[i].picks.hwtDriven)
  }

  ghost predicate RoundsOk(ws: seq<Window>, capacity: int, wanted: int, sources: seq<Source>, rounds: seq<Round>)
    requires |sources| == |ws| && (rounds == [] || |rounds| < |ws|)
  {
    forall i :: 0 <= i < |rounds| ==> RoundOk(ws[i], ws[i + 1], capacity, wanted, sources[i], rounds[i])
  }

  /** No policy, whatever it knows, captures more in total than the oracle of the same capacity. */
  lemma {:induction false} OracleIsBest(ws: seq<Window>, capacity: nat, bests: seq<set<nat>>, sets: seq<set<nat>>)
    requires |bests| == |sets| && (sets == [] || |sets| < |ws|)
    requires forall i :: 0 <= i < |sets| ==> IsChoice(ws[i + 1].accesses, capacity, bests[i]) && |sets[i]| <= capacity
    ensures TallyOf(ws, sets).captured <= TallyOf(ws, bests).captured <= Total(ws, |sets|)
  {
    hide Sum, IsChoice;
    if sets != [] {
      var n := |sets|;
      OracleIsBest(ws, capacity, bests[..n - 1], sets[..n - 1]);
      ChoiceIsBest(ws[n].accesses, capacity, bests[n - 1], sets[n - 1]);
      SumWithin(ws[n].accesses, bests[n - 1]);
    }
  }

  /** The three candidate policies are among them. */
  lemma CandidatesAreBeaten(ws: seq<Window>, capacity: nat, wanted: int, sources: seq<Source>, rounds: seq<Round>)
    requires |sources| == |ws| && (rounds == [] || |rounds| < |ws|)
    requires RoundsOk(ws, capacity, wanted, sources, rounds) && forall i :: 0 <= i < |ws| ==> WindowOk(ws[i])
    ensures var oracle := TallyOf(ws, Bests(rounds));
      && TallyOf(ws, CountOnly(rounds)).captured <= oracle.captured
      && TallyOf(ws, HptDriven(rounds)).captured <= oracle.captured
      && TallyOf(ws, HwtDriven(rounds)).captured <= oracle.captured
      && oracle.captured <= Total(ws, |rounds|)
  {
    hide TallyOf, Total, IsChoice, WindowOk, PicksFrom;
    forall i | 0 <= i < |rounds|
      ensures IsChoice(ws[i + 1].accesses, capacity, Bests(rounds)[i])
      ensures |CountOnly(rounds)[i]| <= capacity && |HptDriven(rounds)[i]| <= capacity
      ensures |HwtDriven(rounds)[i]| <= capacity
    {
      assert RoundOk(ws[i], ws[i + 1], capacity, wanted, sources[i], rounds[i]);
      assert WindowOk(ws[i]);
      PicksRespectLimits(ws[i], capacity, wanted, sources[i], rounds[i].selected, rounds[i].picks);
    }
    OracleIsBest(ws, capacity, Bests(rounds), CountOnly(rounds));
    OracleIsBest(ws, capacity, Bests(rounds), HptDriven(rounds));
    OracleIsBest(ws, capacity, Bests(rounds), HwtDriven(rounds));
  }

  lemma {:induction false} UsefulIsMoved(ws: seq<Window>, sets: seq<set<nat>>)
    requires (sets == [] || |sets| < |ws|) && forall i :: 0 <= i < |ws| ==> WindowOk(ws[i])
    ensures TallyOf(ws, sets).useful <= TallyOf(ws, sets).moved
  {
    hide Sum;
    if sets != [] {
      UsefulIsMoved(ws, sets[..|sets| - 1]);
      WordsFit(ws[|sets|], sets[|sets| - 1]);
    }
  }

  lemma TallyNext(ws: seq<Window>, rounds: seq<Round>, r: Round)
    requires |rounds| + 1 < |ws|
    ensures var more, w := rounds + [r], ws[|rounds| + 1];
      && TallyOf(ws, Bests(more)) == Add(TallyOf(ws, Bests(rounds)), w, r.best)
      && TallyOf(ws, CountOnly(more)) == Add(TallyOf(ws, CountOnly(rounds)), w, r.picks.countOnly)
      && TallyOf(ws, HptDriven(more)) == Add(TallyOf(ws, HptDriven(rounds)), w, r.picks.hptDriven)
      && TallyOf(ws, HwtDriven(more)) == Add(TallyOf(ws, HwtDriven(rounds)), w, r.picks.hwtDriven)
  {
    hide Add;
    var more := rounds + [r];
    assert Bests(more)[..|rounds|] == Bests(rounds) && CountOnly(more)[..|rounds|] == CountOnly(rounds);
    assert HptDriven(more)[..|rounds|] == HptDriven(rounds) && HwtDriven(more)[..|rounds|] == HwtDriven(rounds);
  }

  lemma RoundsNext(ws: seq<Window>, capacity: int, wanted: int, sources: seq<Source>, rounds: seq<Round>, r: Round)
    requires |sources| == |ws| && |rounds| + 1 < |ws| && RoundsOk(ws, capacity, wanted, sources, rounds)
    requires RoundOk(ws[|rounds|], ws[|rounds| + 1], capacity, wanted, sources[|rounds|], r)
    ensures RoundsOk(ws, capacity, wanted, sources, rounds + [r])
    ensures var cur := ws[|rounds| + 1].accesses;
      Total(ws, |rounds| + 1) == Total(ws, |rounds|) + Sum(cur, cur.Keys)
  {
    hide RoundOk;
    var n, more := |rounds|, rounds + [r];
    forall i | 0 <= i < |more| ensures RoundOk(ws[i], ws[i + 1], capacity, wanted, sources[i], more[i]) {
      assert i < n ==> more[i] == rounds[i];
    }
  }

  lemma NoRounds(ws: seq<Window>, capacity: int, wanted: int, sources: seq<Source>)
    requires |sources| == |ws|
    ensures RoundsOk(ws, capacity, wanted, sources, []) && Total(ws, 0) == 0
    ensures TallyOf(ws, Bests([])) == TallyOf(ws, CountOnly([])) == Tally(0, 0, 0)
    ensures TallyOf(ws, HptDriven([])) == TallyOf(ws, HwtDriven([])) == Tally(0, 0, 0)
  {
  }

  lemma Compared(ws: seq<Window>, capacity: int, wanted: int, sources: seq<Source>, rounds: seq<Round>)
    requires |sources| == |ws| && (rounds == [] || |rounds| < |ws|)
    requires RoundsOk(ws, capacity, wanted, sources, rounds)
    ensures var oracle, countOnly := TallyOf(ws, Bests(rounds)), TallyOf(ws, CountOnly(rounds));
      var hptDriven, hwtDriven := TallyOf(ws, HptDriven(rounds)), TallyOf(ws, HwtDriven(rounds));
      capacity >= 0 && (forall i :: 0 <= i < |ws| ==> WindowOk(ws[i])) ==>
        && countOnly.captured <= oracle.captured <= Total(ws, |rounds|)
        && hptDriven.captured <= oracle.captured && hwtDriven.captured <= oracle.captured
        && oracle.useful <= oracle.moved && countOnly.useful <= countOnly.moved
        && hptDriven.useful <= hptDriven.moved && hwtDriven.useful <= hwtDriven.moved
  {
    if capacity >= 0 && forall i :: 0 <= i < |ws| ==> WindowOk(ws[i]) {
      hide TallyOf, Total, RoundsOk, WindowOk;
      CandidatesAreBeaten(ws, capacity, wanted, sources, rounds);
      UsefulIsMoved(ws, Bests(rounds));
      UsefulIsMoved(ws, CountOnly(rounds));
      UsefulIsMoved(ws, HptDriven(rounds));
      UsefulIsMoved(ws, HwtDriven(rounds));
    }
  }

  /** Windows 1, 2, ... are each served by the sets chosen from the window before, and by the oracle's
      own. The tallies are those of the sets described by `rounds`, which is fully determined. */
  method Evaluate(ws: seq<Window>, capacity: int, wanted: int, sources: seq<Source>)
    returns (oracle: Tally, countOnly: Tally, hptDriven: Tally, hwtDriven: Tally, total: nat, ghost rounds: seq<Round>)
    requires |sources| == |ws|
    ensures |rounds| == (if ws == [] then 0 else |ws| - 1) && RoundsOk(ws, capacity, wanted, sources, rounds)
    ensures oracle == TallyOf(ws, Bests(rounds)) && total == Total(ws, |rounds|)
    ensures countOnly == TallyOf(ws, CountOnly(rounds))
    ensures hptDriven == TallyOf(ws, HptDriven(rounds)) && hwtDriven == TallyOf(ws, HwtDriven(rounds))
    ensures capacity >= 0 && (forall i :: 0 <= i < |ws| ==> WindowOk(ws[i])) ==>
      && countOnly.captured <= oracle.captured <= total
      && hptDriven.captured <= oracle.captured && hwtDriven.captured <= oracle.captured
      && oracle.useful <= oracle.moved && countOnly.useful <= countOnly.moved
      && hptDriven.useful <= hptDriven.moved && hwtDriven.useful <= hwtDriven.moved
  {
    hide Sum, Add, IsChoice, PicksFrom, RoundsOk, TallyOf, Total, WindowOk, Bests, CountOnly, HptDriven, HwtDriven;
    oracle, countOnly, total, rounds := Tally(0, 0, 0), Tally(0, 0, 0), 0, [];
    hptDriven, hwtDriven := oracle, oracle;
    NoRounds(ws, capacity, wanted, sources);
    if ws == [] {
      Compared(ws, capacity, wanted, sources, rounds);
      return;
    }
    for i := 1 to |ws|
      invariant |rounds| == i - 1 && RoundsOk(ws, capacity, wanted, sources, rounds)
      invariant oracle == TallyOf(ws, Bests(rounds)) && total == Total(ws, i - 1)
      invariant countOnly == TallyOf(ws, CountOnly(rounds))
      invariant hptDriven == TallyOf(ws, HptDriven(rounds)) && hwtDriven == TallyOf(ws, HwtDriven(rounds))
    {
      var cur := ws[i];
      var picks := Candidates(ws[i - 1], capacity, wanted, sources[i - 1]);
      ghost var selected :| PicksFrom(ws[i - 1], capacity, wanted, sources[i - 1], selected, picks);
      var best := Choose(cur.accesses, capacity);
      var all := SumPicked(cur.accesses, cur.accesses.Keys);
      total := total + all;
      ghost var r := Round(best, selected, picks);
      TallyNext(ws, rounds, r);
      RoundsNext(ws, capacity, wanted, sources, rounds, r);
      oracle := Score(oracle, cur, best);
      countOnly := Score(countOnly, cur, picks.countOnly);
      hptDriven := Score(hptDriven, cur, picks.hptDriven);
      hwtDriven := Score(hwtDriven, cur, picks.hwtDriven);
      rounds := rounds + [r];
    }
    Compared(ws, capacity, wanted, sources, rounds);
  }
}
