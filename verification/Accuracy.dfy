/** How much a Space-Saving selection can fall short of the ideal one, by exact counts. */
module Accuracy {
  import Counting
  import opened Selection
  import opened SummarySpec
  import opened SpaceSaving

  /** The exact count of every key that occurs. */
  ghost predicate IsExact(exact: map<nat, nat>, stream: seq<nat>) {
    forall k :: ScoreOf(exact, k) == Freq(stream, k)
  }

  /** The count at the root of a full table: what any untracked key may have reached. */
  ghost predicate IsFloor(t: Table, cap: nat, low: nat) {
    if |t| < cap then low == 0 else exists v :: IsMin(t, v) && t[v].count == low
  }

  lemma {:induction false} FloorExists(t: Table)
    requires t != map[]
    ensures exists v :: IsMin(t, v)
    decreases |t|
  {
    var k :| k in t;
    var rest := t - {k};
    assert forall x :: x in t ==> x == k || x in rest;
    if rest == map[] {
      assert IsMin(t, k);
    } else {
      FloorExists(rest);
      var v :| IsMin(rest, v);
      assert IsMin(t, if t[k].count < rest[v].count then k else v);
    }
  }

  lemma {:induction false} SumPointwise(f: map<nat, nat>, g: map<nat, nat>, s: set<nat>, slack: nat)
    requires forall x :: x in s ==> ScoreOf(f, x) <= ScoreOf(g, x) + slack
    ensures Sum(f, s) <= Sum(g, s) + |s| * slack
    decreases |s|
  {
    if s != {} {
      var x :| x in s;
      SumSplit(f, s, x);
      SumSplit(g, s, x);
      SumPointwise(f, g, s - {x}, slack);
      TimesStep(|s| - 1, slack);
    }
  }

  lemma {:induction false} SumConstant(f: map<nat, nat>, s: set<nat>, most: nat)
    requires forall x :: x in s ==> ScoreOf(f, x) <= most
    ensures Sum(f, s) <= |s| * most
    decreases |s|
  {
    if s != {} {
      var x :| x in s;
      SumSplit(f, s, x);
      SumConstant(f, s - {x}, most);
      TimesStep(|s| - 1, most);
    }
  }

  lemma {:induction false} SumSubset(f: map<nat, nat>, a: set<nat>, b: set<nat>)
    requires a <= b
    ensures Sum(f, a) <= Sum(f, b)
  {
    SumUnion(f, a, b - a);
    assert a + (b - a) == b;
  }

  /** The table's best guess: the count if tracked, else the floor. */
  ghost function Guess(t: Table, low: nat, keys: set<nat>): map<nat, nat> {
    map k | k in keys + t.Keys :: if k in t then t[k].count else low
  }

  /** Picking by counts loses at most the floor per pick against the best pick of k keys. */
  lemma PicksNearIdeal(stream: seq<nat>, t: Table, cap: nat, low: nat, exact: map<nat, nat>, k: nat,
                       picks: set<nat>, top: set<nat>)
    requires cap > 0 && Bounds(stream, t, cap) && IsFloor(t, cap, low) && IsExact(exact, stream)
    requires IsTop(Counts(t), k, picks) && IsTop(exact, k, top)
    ensures Sum(exact, top) <= Sum(exact, picks) + k * low
    ensures cap * low <= |stream|
  {
    hide Sum, Bounds, IsFloor, IsTop, IsExact, Counts;
    FloorBound(stream, t, cap, low);
    if k <= |t| {
      TrackedPicks(stream, t, cap, low, exact, k, picks, top);
    } else {
      WholeTablePicks(stream, t, cap, low, exact, k, picks, top);
    }
  }

  lemma WholeTable(t: Table, k: nat, picks: set<nat>)
    requires IsTop(Counts(t), k, picks) && k > |t|
    ensures picks == t.Keys
  {
    assert Counts(t).Keys == t.Keys;
    Counting.SubsetSize(picks, t.Keys);
  }

  lemma WholeTablePicks(stream: seq<nat>, t: Table, cap: nat, low: nat, exact: map<nat, nat>, k: nat,
                        picks: set<nat>, top: set<nat>)
    requires Bounds(stream, t, cap) && IsFloor(t, cap, low) && IsExact(exact, stream)
    requires IsTop(Counts(t), k, picks) && IsTop(exact, k, top) && k > |t|
    ensures Sum(exact, top) <= Sum(exact, picks) + k * low
  {
    hide Sum, Bounds, IsFloor, IsExact, IsTop, Counts;
    WholeTable(t, k, picks);
    TopSize(exact, k, top);
    var inside, outside := top * t.Keys, top - t.Keys;
    SumUnion(exact, inside, outside);
    assert inside + outside == top;
    SumSubset(exact, inside, picks);
    UntrackedLow(stream, t, cap, low, exact, outside);
    SumConstant(exact, outside, low);
    Counting.SubsetSize(outside, top);
    Counting.MulLe(|outside|, k, low);
  }

  lemma UntrackedLow(stream: seq<nat>, t: Table, cap: nat, low: nat, exact: map<nat, nat>, outside: set<nat>)
    requires Bounds(stream, t, cap) && IsFloor(t, cap, low) && IsExact(exact, stream) && outside !! t.Keys
    ensures forall x :: x in outside ==> ScoreOf(exact, x) <= low
  {
    hide Bounds, IsFloor;
    forall x | x in outside ensures ScoreOf(exact, x) <= low { FloorCovers(stream, t, cap, low, x); }
  }

  lemma TrackedPicks(stream: seq<nat>, t: Table, cap: nat, low: nat, exact: map<nat, nat>, k: nat,
                     picks: set<nat>, top: set<nat>)
    requires Bounds(stream, t, cap) && IsFloor(t, cap, low) && IsExact(exact, stream)
    requires IsTop(Counts(t), k, picks) && IsTop(exact, k, top) && k <= |t|
    ensures Sum(exact, top) <= Sum(exact, picks) + k * low
  {
    hide Sum, Bounds, IsFloor, IsExact, Guess, ScoreOf;
    var guess := Guess(t, low, top);
    assert Counts(t).Keys == t.Keys;
    Counting.SubsetSize(t.Keys, t.Keys);
    GuessBounds(stream, t, cap, low, exact, top, picks);
    SumPointwise(exact, guess, top, 0);
    BoundsSize(stream, t, cap);
    GuessTop(t, cap, low, k, picks, top);
    TopSize(exact, k, top);
    TopIsBest(guess, k, picks, top);
    SumPointwise(guess, exact, picks, low);
  }

  lemma TopSize(f: map<nat, nat>, k: nat, top: set<nat>)
    requires IsTop(f, k, top)
    ensures |top| <= k
  {
  }

  /** The guess overstates every key, and the tracked ones by no more than the floor. */
  lemma GuessBounds(stream: seq<nat>, t: Table, cap: nat, low: nat, exact: map<nat, nat>, keys: set<nat>,
                    picks: set<nat>)
    requires Bounds(stream, t, cap) && IsFloor(t, cap, low) && IsExact(exact, stream) && picks <= t.Keys
    ensures forall x :: x in keys ==> ScoreOf(exact, x) <= ScoreOf(Guess(t, low, keys), x)
    ensures forall x :: x in picks ==> ScoreOf(Guess(t, low, keys), x) <= ScoreOf(exact, x) + low
  {
    hide Bounds, IsFloor;
    forall x | x in keys + picks
      ensures x in keys ==> ScoreOf(exact, x) <= ScoreOf(Guess(t, low, keys), x)
      ensures x in picks ==> ScoreOf(Guess(t, low, keys), x) <= ScoreOf(exact, x) + low
    {
      FloorCovers(stream, t, cap, low, x);
      CountCovers(stream, t, cap, x);
    }
  }

  lemma CountCovers(stream: seq<nat>, t: Table, cap: nat, x: nat)
    requires Bounds(stream, t, cap)
    ensures x in t ==> Freq(stream, x) <= t[x].count
  {
  }

  lemma GuessTop(t: Table, cap: nat, low: nat, k: nat, picks: set<nat>, keys: set<nat>)
    requires |t| <= cap && IsFloor(t, cap, low) && IsTop(Counts(t), k, picks) && k <= |t|
    ensures IsTop(Guess(t, low, keys), k, picks)
  {
    var guess := Guess(t, low, keys);
    assert Counts(t).Keys == t.Keys;
    Counting.SubsetSize(t.Keys, guess.Keys);
    forall p, q | p in picks && q in guess.Keys - picks ensures guess[q] <= guess[p] {
      if q in t { assert q in Counts(t).Keys - picks; }
    }
  }

  /** Untracked keys and errors stay at or below the floor, tracked counts at or above. */
  lemma FloorCovers(stream: seq<nat>, t: Table, cap: nat, low: nat, x: nat)
    requires Bounds(stream, t, cap) && IsFloor(t, cap, low)
    ensures x in t ==> low <= t[x].count && t[x].count <= Freq(stream, x) + low
    ensures x !in t ==> Freq(stream, x) <= low
  {
  }

  lemma FloorBound(stream: seq<nat>, t: Table, cap: nat, low: nat)
    requires Bounds(stream, t, cap) && IsFloor(t, cap, low)
    ensures cap * low <= |stream|
  {
    if |t| == cap { FloorTimesSize(t, low); }
  }

  lemma FloorOf(t: Table, cap: nat) returns (low: nat)
    requires cap > 0 && |t| <= cap
    ensures IsFloor(t, cap, low)
  {
    low := 0;
    if |t| == cap {
      FloorExists(t);
      var v :| IsMin(t, v);
      low := t[v].count;
    }
  }

  lemma BoundsSize(stream: seq<nat>, t: Table, cap: nat)
    requires Bounds(stream, t, cap)
    ensures |t| <= cap
  {
  }

  /** Over any stream of n accesses the k keys reported by N slots collect at least the ideal
      count less k * n / N. */
  lemma AccuracyOfRun(cap: nat, stream: seq<nat>, ts: seq<Table>, exact: map<nat, nat>, k: nat,
                      picks: set<nat>, top: set<nat>)
    requires cap > 0 && IsRun(cap, stream, ts) && IsExact(exact, stream)
    requires IsTop(Counts(ts[|stream|]), k, picks) && IsTop(exact, k, top)
    ensures cap * Sum(exact, top) <= cap * Sum(exact, picks) + k * |stream|
  {
    hide Sum, IsTop, IsExact, Bounds, IsFloor, Counts;
    var t := ts[|stream|];
    RunBounds(cap, stream, ts);
    BoundsSize(stream, t, cap);
    var low := FloorOf(t, cap);
    PicksNearIdeal(stream, t, cap, low, exact, k, picks, top);
    Scale(cap, k, low, |stream|, Sum(exact, top), Sum(exact, picks));
  }

  lemma Scale(cap: nat, k: nat, low: nat, n: nat, ideal: nat, picked: nat)
    requires ideal <= picked + k * low && cap * low <= n
    ensures cap * ideal <= cap * picked + k * n
  {
    Counting.MulLe(ideal, picked + k * low, cap);
    Counting.MulLe(cap * low, n, k);
    assert cap * (k * low) == k * (cap * low);
    assert cap * (picked + k * low) == cap * picked + cap * (k * low);
  }
}
