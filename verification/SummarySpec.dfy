/** Space-Saving as a relation on tables of counts, and its guarantees over every stream. */
module SummarySpec {
  import Counting

  datatype Tally = Tally(count: nat, error: nat)

  type Table = map<nat, Tally>

  ghost predicate IsMin(t: Table, v: nat) {
    v in t && forall k :: k in t ==> t[v].count <= t[k].count
  }

  /** The victim's slot goes to the new key with count one more, and the old count as its error. */
  function Replaced(t: Table, v: nat, key: nat): Table
    requires v in t
  {
    (t - {v})[key := Tally(t[v].count + 1, t[v].count)]
  }

  /** One access: count a tracked key, else use a free slot, else replace some minimum. */
  ghost predicate Step(t: Table, cap: nat, key: nat, t': Table) {
    if key in t then t' == t[key := Tally(t[key].count + 1, t[key].error)]
    else if |t| < cap then t' == t[key := Tally(1, 0)]
    else exists v :: IsMin(t, v) && t' == Replaced(t, v, key)
  }

  /** A run over a stream, with the table before and after every access. */
  ghost predicate IsRun(cap: nat, stream: seq<nat>, ts: seq<Table>) {
    && |ts| == |stream| + 1 && ts[0] == map[]
    && forall i :: 0 <= i < |stream| ==> Step(ts[i], cap, stream[i], ts[i + 1])
  }

  lemma RunPrefix(cap: nat, stream: seq<nat>, ts: seq<Table>, n: nat)
    requires IsRun(cap, stream, ts) && n <= |stream|
    ensures IsRun(cap, stream[..n], ts[..n + 1])
  {
  }

  lemma RunExtend(cap: nat, stream: seq<nat>, ts: seq<Table>, key: nat, t: Table)
    requires IsRun(cap, stream, ts) && Step(ts[|stream|], cap, key, t)
    ensures IsRun(cap, stream + [key], ts + [t])
  {
    var s', ts' := stream + [key], ts + [t];
    forall i | 0 <= i < |s'| ensures Step(ts'[i], cap, s'[i], ts'[i + 1]) {
      if i < |stream| { assert ts'[i] == ts[i] && ts'[i + 1] == ts[i + 1]; }
    }
  }

  /** How often a key really occurred. */
  function Freq(stream: seq<nat>, k: nat): nat {
    if stream == [] then 0
    else Freq(stream[..|stream| - 1], k) + if stream[|stream| - 1] == k then 1 else 0
  }

  lemma FreqExtend(stream: seq<nat>, key: nat, k: nat)
    ensures Freq(stream + [key], k) == Freq(stream, k) + if key == k then 1 else 0
  {
    assert (stream + [key])[..|stream|] == stream;
  }

  /** A frequency is a multiplicity. */
  lemma {:induction false} FreqIsMultiplicity(stream: seq<nat>, k: nat)
    ensures Freq(stream, k) == multiset(stream)[k]
  {
    if stream != [] {
      FreqIsMultiplicity(stream[..|stream| - 1], k);
      assert stream == stream[..|stream| - 1] + [stream[|stream| - 1]];
    }
  }

  /** With a slot for every key that occurs nothing is ever replaced: all counts are exact. */
  lemma {:induction false} RoomyRun(cap: nat, stream: seq<nat>, ts: seq<Table>)
    requires IsRun(cap, stream, ts) && |Counting.Elements(stream)| <= cap
    ensures IsCount(ts[|stream|], stream)
  {
    hide IsCount, Step;
    if stream == [] {
      NothingCounted();
    } else {
      var n := |stream| - 1;
      var init, key := stream[..n], stream[n];
      RunPrefix(cap, stream, ts, n);
      assert stream == init + [key];
      assert Counting.Elements(stream) == Counting.Elements(init) + {key};
      Counting.SubsetSize(Counting.Elements(init), Counting.Elements(stream));
      RoomyRun(cap, init, ts[..n + 1]);
      OneCounted(cap, init, key, ts[n], ts[n + 1]);
    }
  }

  /** The table holds exactly the keys that occur, with their true counts. */
  ghost predicate IsCount(t: Table, stream: seq<nat>) {
    t.Keys == Counting.Elements(stream) && forall k :: k in t ==> t[k] == Tally(Freq(stream, k), 0)
  }

  lemma NothingCounted()
    ensures IsCount(map[], [])
  {
  }

  lemma OneCounted(cap: nat, stream: seq<nat>, key: nat, t: Table, t': Table)
    requires IsCount(t, stream) && Step(t, cap, key, t') && |Counting.Elements(stream + [key])| <= cap
    ensures IsCount(t', stream + [key])
  {
    hide Freq;
    var all := Counting.Elements(stream + [key]);
    assert all == Counting.Elements(stream) + {key};
    assert |t| == |t.Keys|;
    forall k ensures Freq(stream + [key], k) == Freq(stream, k) + if key == k then 1 else 0 {
      FreqExtend(stream, key, k);
    }
    if key !in t { NeverOccurs(stream, key); }
  }

  lemma {:induction false} NeverOccurs(stream: seq<nat>, k: nat)
    ensures Freq(stream, k) == 0 <==> k !in stream
  {
    if stream != [] {
      NeverOccurs(stream[..|stream| - 1], k);
      assert stream == stream[..|stream| - 1] + [stream[|stream| - 1]];
    }
  }

  // ---------- sums of counts ----------

  ghost function Total(t: Table): nat {
    if t == map[] then 0 else var k :| k in t; t[k].count + Total(t - {k})
  }

  lemma {:induction false} TotalSplit(t: Table, k: nat)
    requires k in t
    ensures Total(t) == t[k].count + Total(t - {k})
    decreases |t|
  {
    var j :| j in t && Total(t) == t[j].count + Total(t - {j});
    if j != k {
      TotalSplit(t - {j}, k);
      TotalSplit(t - {k}, j);
      assert t - {j} - {k} == t - {k} - {j};
    }
  }

  lemma TotalPut(t: Table, k: nat, x: Tally)
    requires k !in t
    ensures Total(t[k := x]) == Total(t) + x.count
  {
    TotalSplit(t[k := x], k);
    assert t[k := x] - {k} == t;
  }

  lemma TimesStep(n: nat, x: nat)
    ensures (n + 1) * x == n * x + x
  {
  }

  lemma {:induction false} FloorTimesSize(t: Table, low: nat)
    requires forall k :: k in t ==> low <= t[k].count
    ensures |t| * low <= Total(t)
    decreases |t|
  {
    if t != map[] {
      var k :| k in t;
      TotalSplit(t, k);
      FloorTimesSize(t - {k}, low);
      assert |t - {k}| == |t| - 1;
      TimesStep(|t| - 1, low);
    }
  }

  lemma TotalChange(t: Table, k: nat, x: Tally)
    requires k in t
    ensures Total(t[k := x]) == Total(t) - t[k].count + x.count
    ensures |t[k := x]| == |t|
  {
    TotalSplit(t, k);
    TotalPut(t - {k}, k, x);
    assert t[k := x] == (t - {k})[k := x];
    assert t[k := x].Keys == t.Keys;
  }

  lemma TotalInsert(t: Table, k: nat, x: Tally)
    requires k !in t
    ensures Total(t[k := x]) == Total(t) + x.count
    ensures |t[k := x]| == |t| + 1
  {
    TotalPut(t, k, x);
    assert t[k := x].Keys == t.Keys + {k};
  }

  lemma TotalReplace(t: Table, v: nat, key: nat)
    requires v in t && key !in t
    ensures Total(Replaced(t, v, key)) == Total(t) + 1
    ensures |Replaced(t, v, key)| == |t|
  {
    TotalSplit(t, v);
    assert (t - {v}).Keys == t.Keys - {v};
    TotalInsert(t - {v}, key, Tally(t[v].count + 1, t[v].count));
  }

  // ---------- the heavy-hitter guarantees ----------

  /** No more than the least count when full, zero otherwise. */
  ghost predicate AtMostMin(t: Table, cap: nat, f: nat) {
    if |t| < cap then f == 0 else forall k :: k in t ==> f <= t[k].count
  }

  ghost predicate Bounds(stream: seq<nat>, t: Table, cap: nat) {
    && |t| <= cap
    && Total(t) == |stream|
    && (forall k :: k in t ==>
          t[k].error <= t[k].count && t[k].count - t[k].error <= Freq(stream, k) <= t[k].count)
    && (forall k :: k in t ==> t[k].count >= 1 && AtMostMin(t, cap, t[k].error))
    && (forall k :: k !in t ==> AtMostMin(t, cap, Freq(stream, k)))
  }

  /** The bounds of one key, tracked or not. */
  ghost predicate KeyBounds(t: Table, cap: nat, k: nat, f: nat) {
    if k in t then
      && t[k].error <= t[k].count && t[k].count - t[k].error <= f <= t[k].count
      && t[k].count >= 1 && AtMostMin(t, cap, t[k].error)
    else AtMostMin(t, cap, f)
  }

  lemma BoundsOfKey(stream: seq<nat>, t: Table, cap: nat, k: nat)
    requires Bounds(stream, t, cap)
    ensures |t| <= cap && Total(t) == |stream| && KeyBounds(t, cap, k, Freq(stream, k))
  {
    hide AtMostMin, Freq, Total;
  }

  lemma BoundsOfKeys(stream: seq<nat>, t: Table, cap: nat)
    requires |t| <= cap && Total(t) == |stream| && forall k :: KeyBounds(t, cap, k, Freq(stream, k))
    ensures Bounds(stream, t, cap)
  {
    hide AtMostMin, Freq, Total;
    forall k ensures k in t ==> t[k].error <= t[k].count && t[k].count - t[k].error <= Freq(stream, k) <= t[k].count
      ensures k in t ==> t[k].count >= 1 && AtMostMin(t, cap, t[k].error)
      ensures k !in t ==> AtMostMin(t, cap, Freq(stream, k))
    {
      assert KeyBounds(t, cap, k, Freq(stream, k));
    }
  }

  /** Counts that only grow raise the floor. */
  lemma FloorStays(t: Table, t': Table, cap: nat, f: nat)
    requires AtMostMin(t, cap, f) && |t'| == |t| && t'.Keys == t.Keys
    requires forall k :: k in t ==> t[k].count <= t'[k].count
    ensures AtMostMin(t', cap, f)
  {
  }

  lemma BoundsHit(stream: seq<nat>, t: Table, cap: nat, key: nat)
    requires cap > 0 && Bounds(stream, t, cap) && key in t
    ensures Bounds(stream + [key], t[key := Tally(t[key].count + 1, t[key].error)], cap)
  {
    hide Bounds, Total, Freq, AtMostMin, KeyBounds;
    var t' := t[key := Tally(t[key].count + 1, t[key].error)];
    BoundsOfKey(stream, t, cap, key);
    TotalChange(t, key, t'[key]);
    forall k ensures KeyBounds(t', cap, k, Freq(stream + [key], k)) {
      FreqExtend(stream, key, k);
      BoundsOfKey(stream, t, cap, k);
      KeyHit(t, cap, key, k, Freq(stream, k));
    }
    BoundsOfKeys(stream + [key], t', cap);
  }

  lemma KeyHit(t: Table, cap: nat, key: nat, k: nat, f: nat)
    requires key in t && KeyBounds(t, cap, k, f)
    ensures KeyBounds(t[key := Tally(t[key].count + 1, t[key].error)], cap, k, f + if key == k then 1 else 0)
  {
    hide AtMostMin;
    var t' := t[key := Tally(t[key].count + 1, t[key].error)];
    assert t'.Keys == t.Keys;
    assert |t'| == |t'.Keys|;
    FloorStays(t, t', cap, if k in t then t[k].error else f);
  }

  lemma FloorIsZero(t: Table, cap: nat, f: nat)
    requires |t| < cap && AtMostMin(t, cap, f)
    ensures f == 0
  {
  }

  lemma ZeroIsFloor(t: Table, cap: nat)
    ensures AtMostMin(t, cap, 0)
  {
  }

  lemma KeyInserted(t: Table, cap: nat, key: nat, k: nat, f: nat)
    requires key !in t && |t| < cap && KeyBounds(t, cap, k, f)
    ensures KeyBounds(t[key := Tally(1, 0)], cap, k, f + if key == k then 1 else 0)
  {
    hide AtMostMin;
    ZeroIsFloor(t[key := Tally(1, 0)], cap);
    FloorIsZero(t, cap, if k in t then t[k].error else f);
  }

  lemma BoundsInsert(stream: seq<nat>, t: Table, cap: nat, key: nat)
    requires Bounds(stream, t, cap) && key !in t && |t| < cap
    ensures Bounds(stream + [key], t[key := Tally(1, 0)], cap)
  {
    hide Bounds, Total, Freq, AtMostMin, KeyBounds;
    var t' := t[key := Tally(1, 0)];
    TotalInsert(t, key, Tally(1, 0));
    BoundsOfKey(stream, t, cap, key);
    forall k ensures KeyBounds(t', cap, k, Freq(stream + [key], k)) {
      FreqExtend(stream, key, k);
      BoundsOfKey(stream, t, cap, k);
      KeyInserted(t, cap, key, k, Freq(stream, k));
    }
    BoundsOfKeys(stream + [key], t', cap);
  }

  lemma KeyReplaced(t: Table, cap: nat, key: nat, v: nat, k: nat, f: nat)
    requires key !in t && |t| == cap && IsMin(t, v) && KeyBounds(t, cap, k, f)
    requires k == key ==> f <= t[v].count
    requires |Replaced(t, v, key)| == |t|
    ensures KeyBounds(Replaced(t, v, key), cap, k, f + if key == k then 1 else 0)
  {
    var t', low := Replaced(t, v, key), t[v].count;
    assert forall k :: k in t' ==> low <= t'[k].count;
    StillAtMostMin(t, t', cap, if k in t && k != v then t[k].error else if k == v || k == key then low else f, low, v);
  }

  lemma BoundsReplace(stream: seq<nat>, t: Table, cap: nat, key: nat, v: nat)
    requires Bounds(stream, t, cap) && key !in t && |t| == cap && IsMin(t, v)
    ensures Bounds(stream + [key], Replaced(t, v, key), cap)
  {
    hide Bounds, Total, Freq, KeyBounds, Replaced;
    TotalReplace(t, v, key);
    NewKeyBound(stream, t, cap, key, v);
    forall k ensures KeyBounds(Replaced(t, v, key), cap, k, Freq(stream + [key], k)) {
      FreqExtend(stream, key, k);
      BoundsOfKey(stream, t, cap, k);
      KeyReplaced(t, cap, key, v, k, Freq(stream, k));
    }
    BoundsOfKeys(stream + [key], Replaced(t, v, key), cap);
  }

  lemma NewKeyBound(stream: seq<nat>, t: Table, cap: nat, key: nat, v: nat)
    requires Bounds(stream, t, cap) && key !in t && |t| == cap && IsMin(t, v)
    ensures Freq(stream, key) <= t[v].count && |t| <= cap && Total(t) == |stream|
  {
    assert AtMostMin(t, cap, Freq(stream, key));
  }

  lemma StillAtMostMin(t: Table, t': Table, cap: nat, f: nat, low: nat, v: nat)
    requires |t| == cap == |t'| && IsMin(t, v) && t[v].count == low && AtMostMin(t, cap, f)
    requires forall k :: k in t' ==> low <= t'[k].count
    ensures AtMostMin(t', cap, f)
  {
  }

  lemma BoundsStep(stream: seq<nat>, t: Table, cap: nat, key: nat, t': Table)
    requires cap > 0 && Bounds(stream, t, cap) && Step(t, cap, key, t')
    ensures Bounds(stream + [key], t', cap)
  {
    if key in t {
      BoundsHit(stream, t, cap, key);
    } else if |t| < cap {
      BoundsInsert(stream, t, cap, key);
    } else {
      var v :| IsMin(t, v) && t' == Replaced(t, v, key);
      BoundsReplace(stream, t, cap, key, v);
    }
  }

  lemma {:induction false} RunBounds(cap: nat, stream: seq<nat>, ts: seq<Table>)
    requires cap > 0 && IsRun(cap, stream, ts)
    ensures Bounds(stream, ts[|stream|], cap)
  {
    if stream != [] {
      var n := |stream| - 1;
      RunPrefix(cap, stream, ts, n);
      RunBounds(cap, stream[..n], ts[..n + 1]);
      BoundsStep(stream[..n], ts[n], cap, stream[n], ts[n + 1]);
      assert stream[..n] + [stream[n]] == stream;
    }
  }

  /** Over any stream of n accesses, however ties are broken: every key occurring more than n/N
      times is tracked, and no count overstates its key by more than n/N. */
  lemma HeavyHitters(cap: nat, stream: seq<nat>, ts: seq<Table>, key: nat)
    requires cap > 0 && IsRun(cap, stream, ts)
    ensures var t := ts[|stream|];
      && (cap * Freq(stream, key) > |stream| ==> key in t)
      && (key in t ==> cap * t[key].error <= |stream|)
      && (key in t ==> t[key].count - t[key].error <= Freq(stream, key) <= t[key].count)
  {
    RunBounds(cap, stream, ts);
    var t := ts[|stream|];
    MinTimesCap(t, cap, if key in t then t[key].error else Freq(stream, key));
  }

  lemma MinTimesCap(t: Table, cap: nat, f: nat)
    requires |t| <= cap && AtMostMin(t, cap, f)
    ensures cap * f <= Total(t)
  {
    if |t| == cap { FloorTimesSize(t, f); }
  }
}
