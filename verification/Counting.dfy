/** Cardinality facts about finite sets and duplicate-free sequences, and one about products. */
module Counting {

  function Below(n: nat): set<nat> {
    if n == 0 then {} else Below(n - 1) + {n - 1}
  }

  lemma {:induction false} BelowMembers(n: nat)
    ensures |Below(n)| == n
    ensures forall k: nat :: k in Below(n) <==> k < n
  {
    if n > 0 { BelowMembers(n - 1); }
  }

  ghost predicate Distinct<T>(s: seq<T>) {
    forall i, j :: 0 <= i < j < |s| ==> s[i] != s[j]
  }

  ghost function Elements<T>(s: seq<T>): set<T> {
    set x | x in s
  }

  lemma {:induction false} DistinctSize<T>(s: seq<T>)
    requires Distinct(s)
    ensures |Elements(s)| == |s|
  {
    if s == [] {
      assert Elements(s) == {};
    } else {
      var front := s[..|s| - 1];
      DistinctSize(front);
      assert s == front + [s[|s| - 1]];
      assert Elements(s) == Elements(front) + {s[|s| - 1]};
    }
  }

  lemma SubsetSize<T>(a: set<T>, b: set<T>)
    requires a <= b
    ensures |a| <= |b| && (|a| == |b| ==> a == b)
  {
    assert b == a + (b - a);
    assert |b| == |a| + |b - a|;
  }

  lemma DistinctBelow(s: seq<nat>, n: nat)
    requires Distinct(s) && forall i :: 0 <= i < |s| ==> s[i] < n
    ensures |s| <= n
    ensures |s| == n <==> forall k :: 0 <= k < n ==> k in s
  {
    BelowMembers(n);
    DistinctSize(s);
    SubsetSize(Elements(s), Below(n));
    if forall k :: 0 <= k < n ==> k in s {
      SubsetSize(Below(n), Elements(s));
    }
    assert |s| == n ==> Elements(s) == Below(n);
    assert forall k: nat :: k in s <==> k in Elements(s);
  }

  /** The positions of a sequence whose elements have a property. */
  ghost function Where<T(!new)>(s: seq<T>, p: T -> bool): set<nat> {
    set i | 0 <= i < |s| && p(s[i])
  }

  lemma WhereNext<T(!new)>(s: seq<T>, x: T, p: T -> bool)
    ensures |Where(s + [x], p)| == |Where(s, p)| + if p(x) then 1 else 0
  {
    assert Where(s + [x], p) == Where(s, p) + if p(x) then {|s|} else {};
  }

  lemma WhereLast<T(!new)>(s: seq<T>, p: T -> bool)
    requires s != []
    ensures |Where(s, p)| == |Where(s[..|s| - 1], p)| + if p(s[|s| - 1]) then 1 else 0
  {
    assert s == s[..|s| - 1] + [s[|s| - 1]];
    WhereNext(s[..|s| - 1], s[|s| - 1], p);
  }

  /** The numbers below n with a property. */
  ghost function Among(n: nat, p: nat -> bool): set<nat> {
    set i | 0 <= i < n && p(i)
  }

  lemma AmongNext(n: nat, p: nat -> bool)
    ensures |Among(n + 1, p)| == |Among(n, p)| + if p(n) then 1 else 0
  {
    assert Among(n + 1, p) == Among(n, p) + if p(n) then {n} else {};
  }

  lemma AmongSame(n: nat, p: nat -> bool, q: nat -> bool)
    requires forall i :: 0 <= i < n ==> (p(i) <==> q(i))
    ensures Among(n, p) == Among(n, q)
  {
  }

  lemma MulLe(a: int, b: int, c: nat)
    requires a <= b
    ensures a * c <= b * c
  {
  }
}
