/** The tracker sizing law: a hot set of h keys with c hits each, then a tail of one-hit keys. */
module ColdTail {
  import Counting
  import opened SummarySpec
  import opened Selection
  import SpaceSaving

  /** `hot` holds only keys of H, each exactly c times, in any order. */
  ghost predicate HotPhase(hot: seq<nat>, h: set<nat>, c: nat) {
    && (forall i :: 0 <= i < |hot| ==> hot[i] in h)
    && forall k :: k in h ==> Freq(hot, k) == c
  }

  /** A tail of distinct keys outside H. */
  ghost predicate Tail(cold: seq<nat>, h: set<nat>) {
    && (forall i :: 0 <= i < |cold| ==> cold[i] !in h)
    && Counting.Distinct(cold)
  }

  /** While only hot keys arrive the table is exact. */
  ghost predicate Exact(t: Table, stream: seq<nat>, h: set<nat>) {
    && t.Keys <= h
    && (forall k :: k in t ==> t[k] == Tally(Freq(stream, k), 0))
    && (forall k :: k !in t ==> Freq(stream, k) == 0)
  }

  lemma {:induction false} HotIsExact(cap: nat, hot: seq<nat>, ts: seq<Table>, h: set<nat>)
    requires cap > |h| && IsRun(cap, hot, ts)
    requires forall i :: 0 <= i < |hot| ==> hot[i] in h
    ensures Exact(ts[|hot|], hot, h)
  {
    if hot != [] {
      var n := |hot| - 1;
      RunPrefix(cap, hot, ts, n);
      HotIsExact(cap, hot[..n], ts[..n + 1], h);
      ExactStep(ts[n], cap, hot[..n], h, hot[n], ts[n + 1]);
      assert hot[..n] + [hot[n]] == hot;
    }
  }

  lemma ExactStep(t: Table, cap: nat, stream: seq<nat>, h: set<nat>, key: nat, t': Table)
    requires Exact(t, stream, h) && key in h && cap > |h| && Step(t, cap, key, t')
    ensures Exact(t', stream + [key], h)
  {
    Counting.SubsetSize(t.Keys, h);
    forall k ensures Freq(stream + [key], k) == Freq(stream, k) + if key == k then 1 else 0 {
      FreqExtend(stream, key, k);
    }
  }

  // ---------- the tail ----------

  /** Counts of the keys outside H. */
  ghost function Outside(t: Table, h: set<nat>): Table {
    t - h
  }

  /** After m tail keys: hot keys still tracked are untouched, and only tail keys joined. */
  ghost predicate InTail(t: Table, cap: nat, h: set<nat>, c: nat, cold: seq<nat>, m: nat) {
    && |t| <= cap && m <= |cold|
    && (forall k :: k in h && k in t ==> t[k] == Tally(c, 0))
    && (forall k :: k in t && k !in h ==> k in cold[..m])
  }

  /** While no hot key has left, the tail keys held share exactly the m tail accesses. */
  ghost predicate Whole(t: Table, h: set<nat>, m: nat) {
    h <= t.Keys && Total(Outside(t, h)) == m
  }

  lemma OutsideSize(t: Table, h: set<nat>)
    requires h <= t.Keys
    ensures |Outside(t, h)| == |t| - |h|
  {
    assert Outside(t, h).Keys == t.Keys - h;
    assert |t.Keys - h| == |t.Keys| - |h|;
  }

  lemma NewKey(cold: seq<nat>, h: set<nat>, t: Table, cap: nat, c: nat, m: nat)
    requires Tail(cold, h) && m < |cold| && InTail(t, cap, h, c, cold, m)
    ensures cold[m] !in t
  {
    assert forall i :: 0 <= i < m ==> cold[..m][i] == cold[i];
  }

  /** The table after a new key, by case. */
  ghost predicate NewKeyStep(t: Table, cap: nat, key: nat, t': Table) {
    if |t| < cap then t' == t[key := Tally(1, 0)] else exists v :: IsMin(t, v) && t' == Replaced(t, v, key)
  }

  lemma TailStep(t: Table, cap: nat, h: set<nat>, c: nat, cold: seq<nat>, m: nat, t': Table)
    requires cap > 0 && Tail(cold, h) && m < |cold| && InTail(t, cap, h, c, cold, m) && Step(t, cap, cold[m], t')
    ensures InTail(t', cap, h, c, cold, m + 1)
  {
    NewKey(cold, h, t, cap, c, m);
    assert NewKeyStep(t, cap, cold[m], t');
    TailFits(t, cap, cold[m], t');
    TailMembers(t, cap, h, c, cold, m, t');
  }

  lemma TailFits(t: Table, cap: nat, key: nat, t': Table)
    requires |t| <= cap && key !in t && NewKeyStep(t, cap, key, t')
    ensures |t'| <= cap
  {
    if |t| < cap {
      TotalInsert(t, key, Tally(1, 0));
    } else {
      var v :| IsMin(t, v) && t' == Replaced(t, v, key);
      TotalReplace(t, v, key);
    }
  }

  lemma TailMembers(t: Table, cap: nat, h: set<nat>, c: nat, cold: seq<nat>, m: nat, t': Table)
    requires Tail(cold, h) && m < |cold| && InTail(t, cap, h, c, cold, m) && NewKeyStep(t, cap, cold[m], t')
    ensures forall k :: k in h && k in t' ==> t'[k] == Tally(c, 0)
    ensures forall k :: k in t' && k !in h ==> k in cold[..m + 1]
  {
    assert cold[..m + 1] == cold[..m] + [cold[m]];
    forall k | k in t'
      ensures k in h ==> t'[k] == Tally(c, 0)
      ensures k !in h ==> k in cold[..m + 1]
    {
      assert k != cold[m] ==> k in t && t'[k] == t[k];
    }
  }

  /** A fresh count: one, or one more than something no larger than the average of m over the room. */
  ghost predicate NearAverage(count: nat, room: nat, m: nat) {
    count >= 1 && (count == 1 || (count - 1) * room <= m)
  }

  /** With room for the tail, the minimum a tail key replaces is never a hot key; the new count is
      bounded by the average of the tail counts. */
  lemma WholeStep(t: Table, cap: nat, h: set<nat>, c: nat, cold: seq<nat>, m: nat, t': Table)
    requires cap > |h| && Tail(cold, h) && m < |cold| && InTail(t, cap, h, c, cold, m) && Step(t, cap, cold[m], t')
    requires Whole(t, h, m) && m < (cap - |h|) * c
    ensures Whole(t', h, m + 1)
    ensures cold[m] in t' && NearAverage(t'[cold[m]].count, cap - |h|, m)
    ensures forall k :: k in t' && k != cold[m] ==> k in t && t'[k] == t[k]
  {
    var key := cold[m];
    NewKey(cold, h, t, cap, c, m);
    hide Total, Outside, Tail;
    if |t| < cap {
      InsertOutside(t, h, key);
    } else {
      var v :| IsMin(t, v) && t' == Replaced(t, v, key);
      VictimIsCold(t, cap, h, c, m, v);
      ReplaceOutside(t, h, v, key);
    }
  }

  lemma InsertOutside(t: Table, h: set<nat>, key: nat)
    requires key !in t && key !in h && h <= t.Keys
    ensures h <= t[key := Tally(1, 0)].Keys
    ensures Total(Outside(t[key := Tally(1, 0)], h)) == Total(Outside(t, h)) + 1
  {
    assert Outside(t[key := Tally(1, 0)], h) == Outside(t, h)[key := Tally(1, 0)];
    TotalInsert(Outside(t, h), key, Tally(1, 0));
  }

  lemma ReplaceOutside(t: Table, h: set<nat>, v: nat, key: nat)
    requires v in t && v !in h && key !in t && key !in h && h <= t.Keys
    ensures h <= Replaced(t, v, key).Keys
    ensures Total(Outside(Replaced(t, v, key), h)) == Total(Outside(t, h)) + 1
  {
    assert Outside(Replaced(t, v, key), h) == Replaced(Outside(t, h), v, key);
    TotalReplace(Outside(t, h), v, key);
  }

  lemma VictimIsCold(t: Table, cap: nat, h: set<nat>, c: nat, m: nat, v: nat)
    requires cap > |h| && |t| == cap && IsMin(t, v) && Whole(t, h, m) && m < (cap - |h|) * c
    requires forall k :: k in h && k in t ==> t[k].count == c
    ensures v !in h && t[v].count * (cap - |h|) <= m
  {
    OutsideSize(t, h);
    FloorTimesSize(Outside(t, h), t[v].count);
  }

  // ---------- the whole stream ----------

  ghost predicate Setting(cap: nat, h: set<nat>, c: nat, hot: seq<nat>, cold: seq<nat>, ts: seq<Table>) {
    HotPhase(hot, h, c) && c >= 1 && Tail(cold, h) && cap > |h| && IsRun(cap, hot + cold, ts)
  }

  lemma StartOfTail(cap: nat, h: set<nat>, c: nat, hot: seq<nat>, cold: seq<nat>, ts: seq<Table>)
    requires Setting(cap, h, c, hot, cold, ts)
    ensures InTail(ts[|hot|], cap, h, c, cold, 0) && Whole(ts[|hot|], h, 0)
  {
    var stream := hot + cold;
    RunPrefix(cap, stream, ts, |hot|);
    assert stream[..|hot|] == hot;
    HotIsExact(cap, hot, ts[..|hot| + 1], h);
    var t := ts[|hot|];
    Counting.SubsetSize(t.Keys, h);
    assert Outside(t, h) == map[];
  }

  lemma {:induction false} TailInvariant(cap: nat, h: set<nat>, c: nat, hot: seq<nat>, cold: seq<nat>, ts: seq<Table>,
      m: nat)
    requires Setting(cap, h, c, hot, cold, ts) && m <= |cold|
    ensures InTail(ts[|hot| + m], cap, h, c, cold, m)
  {
    hide InTail, Tail, Step, HotPhase;
    if m == 0 {
      StartOfTail(cap, h, c, hot, cold, ts);
    } else {
      TailInvariant(cap, h, c, hot, cold, ts, m - 1);
      TailStepAt(cap, h, c, hot, cold, ts, m);
      TailStep(ts[|hot| + m - 1], cap, h, c, cold, m - 1, ts[|hot| + m]);
    }
  }

  lemma {:induction false} WholeInvariant(cap: nat, h: set<nat>, c: nat, hot: seq<nat>, cold: seq<nat>, ts: seq<Table>,
      m: nat)
    requires Setting(cap, h, c, hot, cold, ts) && m <= |cold| && m <= (cap - |h|) * c
    ensures Whole(ts[|hot| + m], h, m)
    ensures m <= (cap - |h|) * (c - 1) ==> TailBelow(ts[|hot| + m], h, c)
  {
    hide Whole, InTail, TailBelow, Tail, Step;
    if m == 0 {
      StartOfTail(cap, h, c, hot, cold, ts);
      NothingAdded(cap, h, c, cold, ts[|hot|]);
    } else {
      WholeInvariant(cap, h, c, hot, cold, ts, m - 1);
      TailInvariant(cap, h, c, hot, cold, ts, m - 1);
      TailStepAt(cap, h, c, hot, cold, ts, m);
      WholeAdvance(cap, h, c, cold, m, ts[|hot| + m - 1], ts[|hot| + m]);
    }
  }

  lemma NothingAdded(cap: nat, h: set<nat>, c: nat, cold: seq<nat>, t: Table)
    requires InTail(t, cap, h, c, cold, 0)
    ensures TailBelow(t, h, c)
  {
  }

  lemma TailStepAt(cap: nat, h: set<nat>, c: nat, hot: seq<nat>, cold: seq<nat>, ts: seq<Table>, m: nat)
    requires Setting(cap, h, c, hot, cold, ts) && 0 < m <= |cold|
    ensures |ts| > |hot| + m && Step(ts[|hot| + m - 1], cap, cold[m - 1], ts[|hot| + m])
    ensures cap > |h| && c >= 1 && Tail(cold, h)
  {
    assert (hot + cold)[|hot| + m - 1] == cold[m - 1];
  }

  lemma WholeAdvance(cap: nat, h: set<nat>, c: nat, cold: seq<nat>, m: nat, t: Table, t': Table)
    requires cap > |h| && c >= 1 && Tail(cold, h) && 0 < m <= |cold| && InTail(t, cap, h, c, cold, m - 1)
    requires Step(t, cap, cold[m - 1], t') && Whole(t, h, m - 1) && m <= (cap - |h|) * c
    requires m <= (cap - |h|) * (c - 1) ==> TailBelow(t, h, c)
    ensures Whole(t', h, m)
    ensures m <= (cap - |h|) * (c - 1) ==> TailBelow(t', h, c)
  {
    hide Whole, InTail, Tail, Step, TailBelow, NearAverage;
    WholeStep(t, cap, h, c, cold, m - 1, t');
    if m <= (cap - |h|) * (c - 1) {
      NewCountSmall(cap - |h|, c, m, t'[cold[m - 1]].count);
      BelowStays(t, h, c, cold[m - 1], t');
    }
  }

  lemma BelowStays(t: Table, h: set<nat>, c: nat, key: nat, t': Table)
    requires TailBelow(t, h, c) && key in t' && t'[key].count < c
    requires forall k :: k in t' && k != key ==> k in t && t'[k] == t[k]
    ensures TailBelow(t', h, c)
  {
  }

  ghost predicate TailBelow(t: Table, h: set<nat>, c: nat) {
    forall k :: k in t && k !in h ==> t[k].count < c
  }

  lemma NewCountSmall(room: nat, c: nat, m: nat, count: nat)
    requires 0 < m <= room * (c - 1) && c >= 1 && NearAverage(count, room, m - 1)
    ensures count < c
  {
    if count != 1 {
      MulCancel(room, count - 1, c - 1);
    }
  }

  lemma MulCancel(room: nat, a: nat, b: nat)
    requires a * room < room * b
    ensures a < b
  {
    if a >= b { Counting.MulLe(b, a, room); }
  }

  /** Sizing law, first half. If N > h and the tail is no longer than (N - h) * c, every hot key is
      tracked at the end with its exact count and no error, however ties were broken. In particular
      this holds under the strict bound N > h + n_cold / c. */
  lemma HotKeysSurvive(cap: nat, h: set<nat>, c: nat, hot: seq<nat>, cold: seq<nat>, ts: seq<Table>)
    requires Setting(cap, h, c, hot, cold, ts) && |cold| <= (cap - |h|) * c
    ensures forall k :: k in h ==> k in ts[|hot| + |cold|] && ts[|hot| + |cold|][k] == Tally(c, 0)
  {
    WholeInvariant(cap, h, c, hot, cold, ts, |cold|);
    TailInvariant(cap, h, c, hot, cold, ts, |cold|);
  }

  // ---------- the loss beyond it ----------

  /** While a hot key is still tracked no tail key has a count above c + 1. */
  ghost predicate Capped(t: Table, h: set<nat>, c: nat) {
    (exists k :: k in h && k in t) ==> forall q :: q in t && q !in h ==> t[q].count <= c + 1
  }

  lemma CappedStep(t: Table, cap: nat, h: set<nat>, c: nat, cold: seq<nat>, m: nat, t': Table)
    requires cap > 0 && c >= 1 && Tail(cold, h) && m < |cold| && InTail(t, cap, h, c, cold, m)
    requires Step(t, cap, cold[m], t') && Capped(t, h, c)
    ensures Capped(t', h, c)
  {
    NewKey(cold, h, t, cap, c, m);
    if k :| k in h && k in t' {
      assert k in t;
      assert t[k].count == c;
    }
  }

  lemma {:induction false} TailCapped(cap: nat, h: set<nat>, c: nat, hot: seq<nat>, cold: seq<nat>, ts: seq<Table>,
      m: nat)
    requires Setting(cap, h, c, hot, cold, ts) && m <= |cold|
    ensures Capped(ts[|hot| + m], h, c)
  {
    hide InTail, Tail, Step;
    if m == 0 {
      StartOfTail(cap, h, c, hot, cold, ts);
      NothingCapped(cap, h, c, cold, ts[|hot|]);
    } else {
      TailCapped(cap, h, c, hot, cold, ts, m - 1);
      TailInvariant(cap, h, c, hot, cold, ts, m - 1);
      TailStepAt(cap, h, c, hot, cold, ts, m);
      CappedStep(ts[|hot| + m - 1], cap, h, c, cold, m - 1, ts[|hot| + m]);
    }
  }

  lemma NothingCapped(cap: nat, h: set<nat>, c: nat, cold: seq<nat>, t: Table)
    requires InTail(t, cap, h, c, cold, 0)
    ensures Capped(t, h, c)
  {
  }

  /** Sizing law, third part: the hot set is lost beyond the law. If the tail is longer than
      (N - h) * (c + 1), some hot key is gone however ties were broken; if hot and tail accesses
      together exceed c + (N - 1) * (c + 1), every hot key is. */
  lemma HotKeysAreLost(cap: nat, h: set<nat>, c: nat, hot: seq<nat>, cold: seq<nat>, ts: seq<Table>)
    requires Setting(cap, h, c, hot, cold, ts)
    ensures h != {} && |cold| > (cap - |h|) * (c + 1) ==> !(h <= ts[|hot| + |cold|].Keys)
    ensures |h| * c + |cold| > c + (cap - 1) * (c + 1) ==> h !! ts[|hot| + |cold|].Keys
  {
    if h != {} && h <= ts[|hot| + |cold|].Keys { AllLeft(cap, h, c, hot, cold, ts); }
    if k :| k in h && k in ts[|hot| + |cold|] { OneLeft(cap, h, c, hot, cold, ts, k); }
  }

  lemma AllLeft(cap: nat, h: set<nat>, c: nat, hot: seq<nat>, cold: seq<nat>, ts: seq<Table>)
    requires Setting(cap, h, c, hot, cold, ts) && h != {} && h <= ts[|hot| + |cold|].Keys
    ensures |cold| <= (cap - |h|) * (c + 1)
  {
    hide Step, Tail, HotPhase, Total;
    var t := ts[|hot| + |cold|];
    TailInvariant(cap, h, c, hot, cold, ts, |cold|);
    TailCapped(cap, h, c, hot, cold, ts, |cold|);
    var k :| k in h;
    assert k in t;
    TailTotal(cap, h, c, hot, cold, ts);
    OutsideSize(t, h);
    CeilingTimesSize(Outside(t, h), c + 1);
    Counting.MulLe(|Outside(t, h)|, cap - |h|, c + 1);
  }

  lemma OneLeft(cap: nat, h: set<nat>, c: nat, hot: seq<nat>, cold: seq<nat>, ts: seq<Table>, k: nat)
    requires Setting(cap, h, c, hot, cold, ts) && k in h && k in ts[|hot| + |cold|]
    ensures |h| * c + |cold| <= c + (cap - 1) * (c + 1)
  {
    hide Step, Tail, HotPhase, Total;
    var t := ts[|hot| + |cold|];
    TailInvariant(cap, h, c, hot, cold, ts, |cold|);
    TailCapped(cap, h, c, hot, cold, ts, |cold|);
    TotalOfRun(cap, h, c, hot, cold, ts);
    TotalSplit(t, k);
    CeilingTimesSize(t - {k}, c + 1);
    assert (t - {k}).Keys == t.Keys - {k};
    assert |t - {k}| == |t| - 1;
    Counting.MulLe(|t - {k}|, cap - 1, c + 1);
  }

  lemma TotalOfRun(cap: nat, h: set<nat>, c: nat, hot: seq<nat>, cold: seq<nat>, ts: seq<Table>)
    requires Setting(cap, h, c, hot, cold, ts)
    ensures Total(ts[|hot| + |cold|]) == |h| * c + |cold|
  {
    RunBounds(cap, hot + cold, ts);
    HotLength(hot, h, c);
  }

  /** The self-test's figures: with 64 hot pages of 400 hits and a tail of 100000 pages, 256 entries
      hold none of the hot pages and 512 entries recover exactly them. */
  lemma SelfTestFigures(h: set<nat>, hot: seq<nat>, cold: seq<nat>, small: seq<Table>, large: seq<Table>)
    requires |h| == 64 && |cold| == 100000
    requires Setting(256, h, 400, hot, cold, small) && Setting(512, h, 400, hot, cold, large)
    ensures h !! small[|hot| + |cold|].Keys
    ensures OnlyTop(SpaceSaving.Counts(large[|hot| + |cold|]), h)
  {
    hide Setting;
    HotKeysAreLost(256, h, 400, hot, cold, small);
    assert h != {};
    TopIsHotSet(512, h, 400, hot, cold, large);
  }

  /** Sizing law, second half. Every maximal selection of h keys is the hot set, so `topK(h)` returns
      it whatever it does with ties, exactly if the tail is no longer than (N - h) * (c - 1). */
  lemma TopIsHotSet(cap: nat, h: set<nat>, c: nat, hot: seq<nat>, cold: seq<nat>, ts: seq<Table>)
    requires Setting(cap, h, c, hot, cold, ts) && h != {}
    ensures OnlyTop(SpaceSaving.Counts(ts[|hot| + |cold|]), h) <==> |cold| <= (cap - |h|) * (c - 1)
  {
    if |cold| <= (cap - |h|) * (c - 1) {
      ShortTailWins(cap, h, c, hot, cold, ts);
    } else {
      LongTailTies(cap, h, c, hot, cold, ts);
    }
  }

  /** The threshold N > h + n_cold / c alone lets a tail key tie: one hot key hit twice, three tail
      keys and three slots satisfy it, and whatever ties did, another selection is as good. */
  lemma StatedThresholdAllowsTies(ts: seq<Table>)
    requires IsRun(3, [0, 0] + [1, 2, 3], ts)
    ensures 3 > 1 + 3 / 2 && (3 - 1) * 2 > 3
    ensures !OnlyTop(SpaceSaving.Counts(ts[5]), {0})
  {
    assert Freq([0, 0], 0) == 2 by {
      FreqExtend([0], 0, 0);
      FreqExtend([], 0, 0);
      assert [0] + [0] == [0, 0] && [] + [0] == [0];
    }
    TopIsHotSet(3, {0}, 2, [0, 0], [1, 2, 3], ts);
  }

  /** H is the one maximal selection of its size. */
  ghost predicate OnlyTop(f: map<nat, nat>, h: set<nat>) {
    forall s :: IsTop(f, |h|, s) ==> s == h
  }

  lemma ShortTailWins(cap: nat, h: set<nat>, c: nat, hot: seq<nat>, cold: seq<nat>, ts: seq<Table>)
    requires Setting(cap, h, c, hot, cold, ts) && |cold| <= (cap - |h|) * (c - 1)
    ensures OnlyTop(SpaceSaving.Counts(ts[|hot| + |cold|]), h)
  {
    Counting.MulLe(c - 1, c, cap - |h|);
    WholeInvariant(cap, h, c, hot, cold, ts, |cold|);
    HotKeysSurvive(cap, h, c, hot, cold, ts);
    var f := SpaceSaving.Counts(ts[|hot| + |cold|]);
    Counting.SubsetSize(h, f.Keys);
    forall s | IsTop(f, |h|, s) ensures s == h {
      HotterIsTop(f, h, c, s);
    }
  }

  /** If the keys of H alone reach c, they are the only maximal selection of their number. */
  lemma HotterIsTop(f: map<nat, nat>, h: set<nat>, c: nat, s: set<nat>)
    requires h <= f.Keys && |h| <= |f.Keys|
    requires forall k :: k in f ==> (f[k] >= c <==> k in h)
    requires IsTop(f, |h|, s)
    ensures s == h
  {
    if s <= h {
      Counting.SubsetSize(s, h);
    } else {
      var p :| p in s && p !in h;
      assert forall q :: q in h && q !in s ==> f[q] <= f[p];
      assert h <= s;
      Counting.SubsetSize(h, s);
    }
  }

  lemma LongTailTies(cap: nat, h: set<nat>, c: nat, hot: seq<nat>, cold: seq<nat>, ts: seq<Table>)
    requires Setting(cap, h, c, hot, cold, ts) && |cold| > (cap - |h|) * (c - 1) && h != {}
    ensures !OnlyTop(SpaceSaving.Counts(ts[|hot| + |cold|]), h)
  {
    var t := ts[|hot| + |cold|];
    var f := SpaceSaving.Counts(t);
    TailInvariant(cap, h, c, hot, cold, ts, |cold|);
    TopExists(f, |h|);
    var s :| IsTop(f, |h|, s);
    if s == h {
      var q := TiedTailKey(cap, h, c, hot, cold, ts);
      SwapOne(f, h, c, q);
    }
  }

  lemma SwapOne(f: map<nat, nat>, h: set<nat>, c: nat, q: nat)
    requires h != {} && IsTop(f, |h|, h) && q in f && q !in h && f[q] >= c && forall k :: k in h ==> f[k] == c
    ensures !OnlyTop(f, h)
  {
    var p :| p in h;
    var s := h - {p} + {q};
    assert |s| == |h|;
    assert IsTop(f, |h|, s);
  }

  /** With all hot keys tracked and a longer tail, some tail key has a count of at least c. */
  lemma TiedTailKey(cap: nat, h: set<nat>, c: nat, hot: seq<nat>, cold: seq<nat>, ts: seq<Table>) returns (q: nat)
    requires Setting(cap, h, c, hot, cold, ts) && |cold| > (cap - |h|) * (c - 1)
    requires h <= ts[|hot| + |cold|].Keys
    ensures q in ts[|hot| + |cold|] && q !in h && ts[|hot| + |cold|][q].count >= c
  {
    var t := ts[|hot| + |cold|];
    TailInvariant(cap, h, c, hot, cold, ts, |cold|);
    TailTotal(cap, h, c, hot, cold, ts);
    OutsideSize(t, h);
    q := AboveAverage(Outside(t, h), cap - |h|, c);
  }

  lemma TailTotal(cap: nat, h: set<nat>, c: nat, hot: seq<nat>, cold: seq<nat>, ts: seq<Table>)
    requires Setting(cap, h, c, hot, cold, ts) && h <= ts[|hot| + |cold|].Keys
    ensures Total(Outside(ts[|hot| + |cold|], h)) == |cold|
  {
    var t, stream := ts[|hot| + |cold|], hot + cold;
    TailInvariant(cap, h, c, hot, cold, ts, |cold|);
    assert Total(t) == |stream| by { RunBounds(cap, stream, ts); }
    assert |hot| == |h| * c by { HotLength(hot, h, c); }
    TotalParts(t, h, c);
  }

  lemma AboveAverage(t: Table, room: nat, c: nat) returns (q: nat)
    requires c >= 1 && |t| <= room && Total(t) > room * (c - 1)
    ensures q in t && t[q].count >= c
  {
    if forall k :: k in t ==> t[k].count <= c - 1 {
      CeilingTimesSize(t, c - 1);
      Counting.MulLe(|t|, room, c - 1);
      assert false;
    }
    q :| q in t && t[q].count > c - 1;
  }

  lemma {:induction false} CeilingTimesSize(t: Table, high: nat)
    requires forall k :: k in t ==> t[k].count <= high
    ensures Total(t) <= |t| * high
    decreases |t|
  {
    if t != map[] {
      var k :| k in t;
      TotalSplit(t, k);
      CeilingTimesSize(t - {k}, high);
      assert |t - {k}| == |t| - 1;
      TimesStep(|t| - 1, high);
    }
  }

  lemma {:induction false} TotalParts(t: Table, h: set<nat>, c: nat)
    requires h <= t.Keys && forall k :: k in h ==> t[k].count == c
    ensures Total(t) == |h| * c + Total(Outside(t, h))
    decreases |h|
  {
    if h == {} {
      assert Outside(t, h) == t;
    } else {
      var k :| k in h;
      TotalSplit(t, k);
      TotalParts(t - {k}, h - {k}, c);
      assert Outside(t - {k}, h - {k}) == Outside(t, h);
      TimesStep(|h| - 1, c);
    }
  }

  /** The hot phase has h * c accesses. */
  lemma {:induction false} HotLength(hot: seq<nat>, h: set<nat>, c: nat)
    requires HotPhase(hot, h, c)
    ensures |hot| == |h| * c
  {
    FreqSum(hot, h);
    SumConstant(hot, h, c);
  }

  ghost function Occurrences(stream: seq<nat>, h: set<nat>): nat {
    if h == {} then 0 else var k :| k in h; Freq(stream, k) + Occurrences(stream, h - {k})
  }

  lemma {:induction false} SumConstant(stream: seq<nat>, h: set<nat>, c: nat)
    requires forall k :: k in h ==> Freq(stream, k) == c
    ensures Occurrences(stream, h) == |h| * c
    decreases |h|
  {
    if h != {} {
      var k :| k in h && Occurrences(stream, h) == Freq(stream, k) + Occurrences(stream, h - {k});
      SumConstant(stream, h - {k}, c);
      TimesStep(|h| - 1, c);
    }
  }

  lemma {:induction false} OccurrencesSplit(stream: seq<nat>, h: set<nat>, k: nat)
    requires k in h
    ensures Occurrences(stream, h) == Freq(stream, k) + Occurrences(stream, h - {k})
    decreases |h|
  {
    var j :| j in h && Occurrences(stream, h) == Freq(stream, j) + Occurrences(stream, h - {j});
    if j != k {
      OccurrencesSplit(stream, h - {j}, k);
      OccurrencesSplit(stream, h - {k}, j);
      assert h - {j} - {k} == h - {k} - {j};
    }
  }

  lemma {:induction false} OccurrencesSame(a: seq<nat>, b: seq<nat>, h: set<nat>)
    requires forall k :: k in h ==> Freq(a, k) == Freq(b, k)
    ensures Occurrences(a, h) == Occurrences(b, h)
    decreases |h|
  {
    if h != {} {
      var k :| k in h;
      OccurrencesSplit(a, h, k);
      OccurrencesSplit(b, h, k);
      OccurrencesSame(a, b, h - {k});
    }
  }

  lemma {:induction false} FreqSum(stream: seq<nat>, h: set<nat>)
    requires forall i :: 0 <= i < |stream| ==> stream[i] in h
    ensures Occurrences(stream, h) == |stream|
  {
    if stream == [] {
      SumConstant(stream, h, 0);
    } else {
      var init, k := stream[..|stream| - 1], stream[|stream| - 1];
      FreqSum(init, h);
      OccurrencesSplit(stream, h, k);
      OccurrencesSplit(init, h, k);
      OccurrencesSame(stream, init, h - {k});
    }
  }
}
