/** The access-count ratio: what a tracker picked, against the best possible pick, by exact counts. */
module Scoring {
  import Counting
  import opened Selection

  /** The ratio is picked / ideal and the recall hits / k; both are kept as numerators and denominators. */
  datatype Score = Score(picked: nat, ideal: nat, hits: nat, k: nat)

  function SumSeq(f: map<nat, nat>, keys: seq<nat>): nat {
    if keys == [] then 0 else SumSeq(f, keys[..|keys| - 1]) + ScoreOf(f, keys[|keys| - 1])
  }

  function AtLeast(f: map<nat, nat>, keys: seq<nat>, low: nat): nat {
    if keys == [] then 0
    else
      var k := keys[|keys| - 1];
      AtLeast(f, keys[..|keys| - 1], low) + if k in f && f[k] >= low then 1 else 0
  }

  /** The n-th largest count: fewer than n keys exceed it and at least n reach it. */
  ghost predicate IsThreshold(f: map<nat, nat>, n: nat, low: nat) {
    |Above(f, low)| < n <= |Reaching(f, low)|
  }

  ghost function Above(f: map<nat, nat>, low: nat): set<nat> {
    set k | k in f && f[k] > low
  }

  ghost function Reaching(f: map<nat, nat>, low: nat): set<nat> {
    set k | k in f && f[k] >= low
  }

  lemma {:induction false} SumSeqIsSum(f: map<nat, nat>, keys: seq<nat>)
    requires Counting.Distinct(keys)
    ensures SumSeq(f, keys) == Sum(f, Counting.Elements(keys))
  {
    if keys != [] {
      var init, k := keys[..|keys| - 1], keys[|keys| - 1];
      SumSeqIsSum(f, init);
      assert keys == init + [k];
      assert Counting.Elements(keys) == Counting.Elements(init) + {k};
      SumSplit(f, Counting.Elements(keys), k);
      assert Counting.Elements(keys) - {k} == Counting.Elements(init);
    }
  }

  lemma {:induction false} AtLeastBound(f: map<nat, nat>, keys: seq<nat>, low: nat)
    ensures AtLeast(f, keys, low) <= |keys|
  {
    if keys != [] { AtLeastBound(f, keys[..|keys| - 1], low); }
  }

  lemma {:induction false} AtLeastCounts(f: map<nat, nat>, keys: seq<nat>, low: nat)
    ensures AtLeast(f, keys, low) == |Counting.Where(keys, (x: nat) => x in f && f[x] >= low)|
  {
    if keys != [] {
      AtLeastCounts(f, keys[..|keys| - 1], low);
      Counting.WhereLast(keys, (x: nat) => x in f && f[x] >= low);
    }
  }

  /** The picks whose count is among the k largest: fewer than k keys have a larger one. */
  ghost function AmongBest(f: map<nat, nat>, k: nat, picks: seq<nat>): set<nat> {
    Counting.Where(picks, (x: nat) => x in f && |Above(f, f[x])| < k)
  }

  /** A count reaches the threshold if and only if fewer than n keys exceed it. */
  lemma ReachesThreshold(f: map<nat, nat>, n: nat, low: nat, x: nat)
    requires IsThreshold(f, n, low) && x in f
    ensures f[x] >= low <==> |Above(f, f[x])| < n
  {
    if f[x] >= low {
      Counting.SubsetSize(Above(f, f[x]), Above(f, low));
    } else {
      Counting.SubsetSize(Reaching(f, low), Above(f, f[x]));
    }
  }

  lemma FewerAbove(f: map<nat, nat>, x: nat)
    requires x in f
    ensures |Above(f, f[x])| < |f.Keys|
  {
    Counting.SubsetSize(Above(f, f[x]), f.Keys);
    assert x !in Above(f, f[x]);
  }

  lemma HitsAreBest(f: map<nat, nat>, k: nat, n: nat, low: nat, picks: seq<nat>)
    requires n == (if k < |f.Keys| then k else |f.Keys|) && IsThreshold(f, n, low)
    ensures AtLeast(f, picks, low) == |AmongBest(f, k, picks)|
  {
    AtLeastCounts(f, picks, low);
    forall x: nat ensures x in f && f[x] >= low <==> x in f && |Above(f, f[x])| < k {
      if x in f {
        ReachesThreshold(f, n, low, x);
        FewerAbove(f, x);
      }
    }
    hide Above, AtLeast;
    assert Counting.Where(picks, (x: nat) => x in f && f[x] >= low) == AmongBest(f, k, picks);
  }

  /** A perfect pick hits with every key. */
  lemma TopHits(f: map<nat, nat>, k: nat, picks: seq<nat>)
    requires Counting.Distinct(picks) && IsTop(f, k, Counting.Elements(picks))
    ensures |picks| <= k && |AmongBest(f, k, picks)| == |picks|
  {
    Counting.DistinctSize(picks);
    var top := Counting.Elements(picks);
    forall i | 0 <= i < |picks| ensures picks[i] in f && |Above(f, f[picks[i]])| < k {
      var x := picks[i];
      assert x in top;
      assert Above(f, f[x]) <= top - {x};
      Counting.SubsetSize(Above(f, f[x]), top - {x});
    }
    Counting.BelowMembers(|picks|);
    assert AmongBest(f, k, picks) == Counting.Below(|picks|);
  }

  /** Whatever a tracker picks without repetition, it collects no more than the ideal selection. */
  lemma PicksWithinIdeal(f: map<nat, nat>, k: nat, picks: seq<nat>, top: set<nat>)
    requires Counting.Distinct(picks) && |picks| <= k && IsTop(f, k, top)
    ensures SumSeq(f, picks) <= Sum(f, top)
  {
    SumSeqIsSum(f, picks);
    Counting.DistinctSize(picks);
    TopIsBest(f, k, top, Counting.Elements(picks));
  }

  lemma ThresholdAt(w: seq<Ranked>, f: map<nat, nat>, n: nat)
    requires Lists(w, f) && 0 < n <= |w| && PartlySorted(w, n)
    ensures IsThreshold(f, n, w[n - 1].score)
  {
    var low := w[n - 1].score;
    var above, reach := Above(f, low), Reaching(f, low);
    var head, all := KeysOf(w[..n - 1]), KeysOf(w[..n]);
    Counting.DistinctSize(head);
    Counting.DistinctSize(all);
    forall k | k in above ensures k in Counting.Elements(head) {
      var i := PositionIn(w, Ranked(k, f[k]));
      assert i < n - 1;
      assert head[i] == k;
    }
    Counting.SubsetSize(above, Counting.Elements(head));
    forall k | k in Counting.Elements(all) ensures k in reach {
      var i :| 0 <= i < n && all[i] == k;
      assert w[i].score >= low;
    }
    Counting.SubsetSize(Counting.Elements(all), reach);
  }

  method Listing(exact: map<nat, nat>) returns (v: seq<Ranked>)
    ensures Lists(v, exact)
  {
    v := [];
    var rest := exact.Keys;
    while rest != {}
      invariant rest <= exact.Keys
      invariant forall i, j :: 0 <= i < j < |v| ==> v[i].key != v[j].key
      invariant forall i :: 0 <= i < |v| ==> v[i].key in exact && v[i].key !in rest && exact[v[i].key] == v[i].score
      invariant forall k :: k in exact && k !in rest ==> Ranked(k, exact[k]) in v
      decreases |rest|
    {
      var k :| k in rest;
      v := v + [Ranked(k, exact[k])];
      rest := rest - {k};
    }
  }

  /** Scores the first k picks against the exact counts. */
  method ScoreTopK(picked: seq<nat>, exact: map<nat, nat>, k: nat) returns (s: Score, ghost low: nat)
    ensures s.k == k && s.hits <= k
    ensures forall top :: IsTop(exact, k, top) ==> s.ideal == Sum(exact, top)
    ensures var m := if |picked| < k then |picked| else k;
      && s.picked == SumSeq(exact, picked[..m])
      && (k > 0 && exact != map[] ==>
            && IsThreshold(exact, if k < |exact.Keys| then k else |exact.Keys|, low)
            && s.hits == AtLeast(exact, picked[..m], low))
      && s.hits == |AmongBest(exact, k, picked[..m])|
    ensures Counting.Distinct(picked) ==> s.picked <= s.ideal
    ensures Counting.Distinct(picked) && IsTop(exact, k, Counting.Elements(picked)) ==>
      s.hits == |picked| && s.picked == s.ideal
  {
    var v := Listing(exact);
    ListsSize(v, exact);
    var n := if k < |v| then k else |v|;
    var m := if |picked| < k then |picked| else k;
    s, low := Score(0, 0, 0, k), 0;
    if n == 0 {
      NothingToPick(exact, k, picked[..m]);
      NoHits(exact, k, picked[..m]);
      PerfectPick(picked, exact, k, s);
      return;
    }
    var ideal, threshold := Ideal(v, exact, k, n);
    var total, hits := Collect(picked[..m], exact, threshold);
    s, low := Score(total, ideal, hits, k), threshold;
    AtLeastBound(exact, picked[..m], threshold);
    HitsAreBest(exact, k, n, threshold, picked[..m]);
    if Counting.Distinct(picked) {
      TopExists(exact, k);
      ghost var top :| IsTop(exact, k, top);
      PicksWithinIdeal(exact, k, picked[..m], top);
    }
    PerfectPick(picked, exact, k, s);
  }

  lemma NoHits(f: map<nat, nat>, k: nat, picks: seq<nat>)
    requires k == 0 || f == map[]
    ensures |AmongBest(f, k, picks)| == 0
  {
    assert AmongBest(f, k, picks) == {};
  }

  lemma PerfectPick(picked: seq<nat>, exact: map<nat, nat>, k: nat, s: Score)
    requires var m := if |picked| < k then |picked| else k;
      s.hits == |AmongBest(exact, k, picked[..m])| && s.picked == SumSeq(exact, picked[..m])
    requires forall top :: IsTop(exact, k, top) ==> s.ideal == Sum(exact, top)
    ensures Counting.Distinct(picked) && IsTop(exact, k, Counting.Elements(picked)) ==>
      s.hits == |picked| && s.picked == s.ideal
  {
    if Counting.Distinct(picked) && IsTop(exact, k, Counting.Elements(picked)) {
      TopHits(exact, k, picked);
      SumSeqIsSum(exact, picked);
      assert picked[..|picked|] == picked;
    }
  }

  /** The sum of the n best counts, and the n-th. */
  method Ideal(v: seq<Ranked>, exact: map<nat, nat>, k: nat, n: nat) returns (ideal: nat, threshold: nat)
    requires Lists(v, exact) && 0 < n == (if k < |v| then k else |v|)
    ensures forall top :: IsTop(exact, k, top) ==> ideal == Sum(exact, top)
    ensures IsThreshold(exact, n, threshold)
  {
    hide Sum, SumSeq, IsThreshold, IsTop;
    var w := PartialSort(v, n);
    SortedStillLists(v, w, exact);
    TakeIsTop(w, exact, k, n);
    ThresholdAt(w, exact, n);
    IdealIsUnique(exact, k, KeysOf(w[..n]));
    ideal := SumScores(w[..n], exact);
    threshold := w[n - 1].score;
  }

  method SumScores(w: seq<Ranked>, ghost exact: map<nat, nat>) returns (sum: nat)
    requires forall i :: 0 <= i < |w| ==> w[i].key in exact && exact[w[i].key] == w[i].score
    ensures sum == SumSeq(exact, KeysOf(w))
  {
    sum := 0;
    ghost var keys := KeysOf(w);
    for i := 0 to |w|
      invariant sum == SumSeq(exact, keys[..i])
    {
      assert keys[..i + 1][..i] == keys[..i];
      sum := sum + w[i].score;
    }
    assert keys[..|w|] == keys;
  }

  method Collect(picks: seq<nat>, exact: map<nat, nat>, threshold: nat) returns (total: nat, hits: nat)
    ensures total == SumSeq(exact, picks) && hits == AtLeast(exact, picks, threshold)
  {
    total, hits := 0, 0;
    for i := 0 to |picks|
      invariant total == SumSeq(exact, picks[..i]) && hits == AtLeast(exact, picks[..i], threshold)
    {
      assert picks[..i + 1][..i] == picks[..i];
      if picks[i] in exact {
        total := total + exact[picks[i]];
        if exact[picks[i]] >= threshold { hits := hits + 1; }
      }
    }
    assert picks[..|picks|] == picks;
  }

  /** All maximal selections have the same sum. */
  lemma IdealIsUnique(f: map<nat, nat>, k: nat, keys: seq<nat>)
    requires Counting.Distinct(keys) && IsTop(f, k, Counting.Elements(keys))
    ensures forall top :: IsTop(f, k, top) ==> SumSeq(f, keys) == Sum(f, top)
    ensures SumSeq(f, keys) == Sum(f, Counting.Elements(keys))
  {
    SumSeqIsSum(f, keys);
    forall top | IsTop(f, k, top) ensures Sum(f, top) == Sum(f, Counting.Elements(keys)) {
      TopIsBest(f, k, top, Counting.Elements(keys));
      TopIsBest(f, k, Counting.Elements(keys), top);
    }
  }

  lemma {:induction false} NothingToPick(f: map<nat, nat>, k: nat, picks: seq<nat>)
    requires k == 0 || f == map[]
    requires |picks| <= k
    ensures SumSeq(f, picks) == 0
    ensures forall top :: IsTop(f, k, top) ==> Sum(f, top) == 0
  {
    if picks != [] { NothingToPick(f, k, picks[..|picks| - 1]); }
  }
}
