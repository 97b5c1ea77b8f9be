/** Choosing the k best-scored keys: the partial sort used everywhere, and why no other choice of
    at most k distinct keys scores more. */
module Selection {
  import Counting

  datatype Ranked = Ranked(key: nat, score: nat)

  /** The first n entries hold the n best scores in descending order; the rest follow in any order. */
  ghost predicate PartlySorted(w: seq<Ranked>, n: nat) {
    forall i, j :: 0 <= i < n && i < j < |w| ==> w[i].score >= w[j].score
  }

  /** Stands for std::partial_sort with a descending comparison of scores. */
  method PartialSort(v: seq<Ranked>, n: nat) returns (w: seq<Ranked>)
    requires n <= |v|
    ensures |w| == |v| && multiset(w) == multiset(v) && PartlySorted(w, n)
  {
    w := v;
    for i := 0 to n
      invariant |w| == |v| && multiset(w) == multiset(v)
      invariant PartlySorted(w, i)
    {
      var best := i;
      for j := i + 1 to |w|
        invariant i <= best < |w|
        invariant forall m :: i <= m < j ==> w[best].score >= w[m].score
      {
        if w[j].score > w[best].score { best := j; }
      }
      Exchange(w, i, best);
      w := w[i := w[best]][best := w[i]];
    }
  }

  lemma Exchange(w: seq<Ranked>, i: nat, best: nat)
    requires i <= best < |w| && PartlySorted(w, i)
    requires forall m :: i <= m < |w| ==> w[best].score >= w[m].score
    ensures var w' := w[i := w[best]][best := w[i]];
      multiset(w') == multiset(w) && PartlySorted(w', i + 1)
  {
  }

  lemma {:induction false} SortedKeysDistinct(v: seq<Ranked>, w: seq<Ranked>)
    requires multiset(v) == multiset(w)
    requires forall i, j :: 0 <= i < j < |v| ==> v[i].key != v[j].key
    ensures |v| == |w| && (forall x :: x in v <==> x in w)
    ensures forall i, j :: 0 <= i < j < |w| ==> w[i].key != w[j].key
  {
    assert |v| == |multiset(v)| == |multiset(w)| == |w|;
    forall x ensures x in v <==> x in w {
      assert x in v <==> x in multiset(v);
      assert x in w <==> x in multiset(w);
    }
    forall i, j | 0 <= i < j < |w| ensures w[i].key != w[j].key {
      assert w[i] in v && w[j] in v;
      if w[i].key == w[j].key {
        var a := PositionIn(v, w[i]);
        var b := PositionIn(v, w[j]);
        assert a == b;
        CountTwice(w, i, j);
        CountOnce(v, a);
        assert false;
      }
    }
  }

  lemma PositionIn<T>(v: seq<T>, x: T) returns (a: nat)
    requires x in v
    ensures a < |v| && v[a] == x
  {
    a :| 0 <= a < |v| && v[a] == x;
  }

  lemma CountTwice<T>(s: seq<T>, i: nat, j: nat)
    requires i < j < |s| && s[i] == s[j]
    ensures multiset(s)[s[i]] >= 2
  {
    assert s == s[..j] + [s[j]] + s[j + 1..];
    assert s[..j][i] == s[i];
    assert s[i] in s[..j];
  }

  lemma {:induction false} CountOnce(s: seq<Ranked>, a: nat)
    requires a < |s| && forall i, j :: 0 <= i < j < |s| ==> s[i].key != s[j].key
    ensures multiset(s)[s[a]] == 1
  {
    assert s == s[..a] + [s[a]] + s[a + 1..];
    assert s[a] !in s[..a] && s[a] !in s[a + 1..];
  }

  // ---------- scores of sets ----------

  function ScoreOf(f: map<nat, nat>, k: nat): nat {
    if k in f then f[k] else 0
  }

  ghost function Sum(f: map<nat, nat>, s: set<nat>): nat {
    if s == {} then 0 else var k :| k in s; ScoreOf(f, k) + Sum(f, s - {k})
  }

  lemma {:induction false} SumSplit(f: map<nat, nat>, s: set<nat>, k: nat)
    requires k in s
    ensures Sum(f, s) == ScoreOf(f, k) + Sum(f, s - {k})
    decreases |s|
  {
    var j :| j in s && Sum(f, s) == ScoreOf(f, j) + Sum(f, s - {j});
    if j != k {
      SumSplit(f, s - {j}, k);
      SumSplit(f, s - {k}, j);
      assert s - {j} - {k} == s - {k} - {j};
    }
  }

  lemma {:induction false} SumUnion(f: map<nat, nat>, a: set<nat>, b: set<nat>)
    requires a !! b
    ensures Sum(f, a + b) == Sum(f, a) + Sum(f, b)
    decreases |a|
  {
    if a == {} {
      assert a + b == b;
    } else {
      var k :| k in a;
      SumSplit(f, a, k);
      SumSplit(f, a + b, k);
      assert a + b - {k} == (a - {k}) + b;
      SumUnion(f, a - {k}, b);
    }
  }

  /** A smaller set of no better-scored keys has no larger sum. */
  lemma {:induction false} SumLe(f: map<nat, nat>, a: set<nat>, b: set<nat>)
    requires |a| <= |b|
    requires forall x, y :: x in a && y in b ==> ScoreOf(f, x) <= ScoreOf(f, y)
    ensures Sum(f, a) <= Sum(f, b)
    decreases |a|
  {
    if a != {} {
      var x :| x in a;
      var y :| y in b;
      SumSplit(f, a, x);
      SumSplit(f, b, y);
      SumLe(f, a - {x}, b - {y});
    }
  }

  lemma {:induction false} SumZero(f: map<nat, nat>, a: set<nat>)
    requires forall x :: x in a ==> ScoreOf(f, x) == 0
    ensures Sum(f, a) == 0
    decreases |a|
  {
    if a != {} {
      var x :| x in a;
      SumSplit(f, a, x);
      SumZero(f, a - {x});
    }
  }

  /** A maximal selection of k keys of f: nothing left out scores more than anything taken. */
  ghost predicate IsTop(f: map<nat, nat>, k: nat, s: set<nat>) {
    && s <= f.Keys
    && |s| == (if k < |f.Keys| then k else |f.Keys|)
    && forall p, q :: p in s && q in f.Keys - s ==> f[q] <= f[p]
  }

  /** No set of at most k keys sums to more than a maximal selection of k. */
  lemma TopIsBest(f: map<nat, nat>, k: nat, top: set<nat>, s: set<nat>)
    requires IsTop(f, k, top) && |s| <= k
    ensures Sum(f, s) <= Sum(f, top)
  {
    var both, only, rest := s * top, s - top, top - s;
    assert s == both + only && top == both + rest;
    SumUnion(f, both, only);
    SumUnion(f, both, rest);
    if k <= |f.Keys| {
      assert |s| == |both| + |only| && |top| == |both| + |rest|;
      SumLe(f, only, rest);
    } else {
      Counting.SubsetSize(top, f.Keys);
      SumZero(f, only);
    }
  }

  lemma {:induction false} TopExists(f: map<nat, nat>, k: nat)
    ensures exists s :: IsTop(f, k, s)
    decreases k
  {
    if k == 0 {
      assert IsTop(f, 0, {});
    } else {
      TopExists(f, k - 1);
      var s :| IsTop(f, k - 1, s);
      if k > |f.Keys| {
        assert IsTop(f, k, s);
      } else {
        Counting.SubsetSize(s, f.Keys);
        var rest := f.Keys - s;
        assert |rest| == |f.Keys| - |s|;
        var m := Best(f, rest);
        assert |s + {m}| == |s| + 1;
        assert IsTop(f, k, s + {m});
      }
    }
  }

  lemma {:induction false} Best(f: map<nat, nat>, rest: set<nat>) returns (m: nat)
    requires rest != {} && rest <= f.Keys
    ensures m in rest && forall q :: q in rest ==> f[q] <= f[m]
    decreases |rest|
  {
    m :| m in rest;
    if rest != {m} {
      var n := Best(f, rest - {m});
      if f[n] > f[m] { m := n; }
    }
  }

  /** w lists exactly the entries of f, each once. */
  ghost predicate Lists(w: seq<Ranked>, f: map<nat, nat>) {
    && (forall i, j :: 0 <= i < j < |w| ==> w[i].key != w[j].key)
    && (forall i :: 0 <= i < |w| ==> w[i].key in f && f[w[i].key] == w[i].score)
    && (forall k :: k in f ==> Ranked(k, f[k]) in w)
  }

  function KeysOf(w: seq<Ranked>): seq<nat> {
    seq(|w|, i requires 0 <= i < |w| => w[i].key)
  }

  lemma SortedStillLists(v: seq<Ranked>, w: seq<Ranked>, f: map<nat, nat>)
    requires Lists(v, f) && multiset(w) == multiset(v)
    ensures Lists(w, f)
  {
    SortedKeysDistinct(v, w);
    forall i | 0 <= i < |w| ensures w[i].key in f && f[w[i].key] == w[i].score {
      var a := PositionIn(v, w[i]);
    }
  }

  lemma ListsSize(w: seq<Ranked>, f: map<nat, nat>)
    requires Lists(w, f)
    ensures |w| == |f.Keys|
  {
    var keys := KeysOf(w);
    Counting.DistinctSize(keys);
    assert Counting.Elements(keys) == f.Keys by {
      forall k | k in f.Keys ensures k in keys {
        var i := PositionIn(w, Ranked(k, f[k]));
        assert keys[i] == k;
      }
    }
  }

  /** Taking the first n of a partly sorted listing is a maximal selection, best first. */
  lemma TakeIsTop(w: seq<Ranked>, f: map<nat, nat>, k: nat, n: nat)
    requires Lists(w, f) && n == (if k < |w| then k else |w|) && PartlySorted(w, n)
    ensures IsTop(f, k, Counting.Elements(KeysOf(w[..n]))) && Counting.Distinct(KeysOf(w[..n]))
  {
    var keys := KeysOf(w[..n]);
    var s := Counting.Elements(keys);
    DistinctTaken(w, f, n);
    ListsSize(w, f);
    hide Lists, PartlySorted, KeysOf;
    forall p, q | p in s && q in f.Keys - s ensures p in f && f[q] <= f[p] { TakenBeatsLeft(w, f, n, p, q); }
  }

  lemma DistinctTaken(w: seq<Ranked>, f: map<nat, nat>, n: nat)
    requires Lists(w, f) && n <= |w|
    ensures var keys := KeysOf(w[..n]);
      && Counting.Distinct(keys) && |Counting.Elements(keys)| == n && Counting.Elements(keys) <= f.Keys
  {
    Counting.DistinctSize(KeysOf(w[..n]));
  }

  lemma TakenBeatsLeft(w: seq<Ranked>, f: map<nat, nat>, n: nat, p: nat, q: nat)
    requires Lists(w, f) && n <= |w| && PartlySorted(w, n)
    requires p in KeysOf(w[..n]) && q in f && q !in KeysOf(w[..n])
    ensures p in f && f[q] <= f[p]
  {
    var keys := KeysOf(w[..n]);
    var i :| 0 <= i < n && keys[i] == p;
    var j := PositionIn(w, Ranked(q, f[q]));
    assert forall m :: 0 <= m < n ==> w[m].key == keys[m] && keys[m] != q;
  }
}
