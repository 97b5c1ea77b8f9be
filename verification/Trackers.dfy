/** Either kind of bounded tracker behind one interface, and its score against the exact counts. */
module Trackers {
  import Counting
  import opened CacheSpec
  import opened Selection
  import opened Scoring
  import opened SummarySpec
  import opened SpaceSaving
  import opened CountMin
  import opened Accuracy

  datatype Tracker = Saving(ss: SpaceSaving) | Sketch(cm: CountMinTopK)

  ghost function Repr(t: Tracker): set<object> {
    match t
    case Saving(ss) => {ss}
    case Sketch(cm) => {cm, cm.counters}
  }

  /** What a well-formed tracker has been fed since it was last reset. */
  ghost function Seen(t: Tracker): Option<seq<nat>>
    reads Repr(t)
  {
    match t
    case Saving(ss) => if ss.Valid() then Some(ss.stream) else None
    case Sketch(cm) => if cm.Valid() && Keeps(cm.cam, cm.stream, cm.k) then Some(cm.stream) else None
  }

  method Feed(t: Tracker, key: nat)
    requires Seen(t).Some?
    modifies Repr(t)
    ensures Seen(t) == Some(old(Seen(t).value) + [key])
  {
    match t {
      case Saving(ss) =>
        hide ss.Valid;
        ss.Access(key);
      case Sketch(cm) =>
        hide cm.Valid, Keeps, OfferedNow, Refreshed;
        cm.Access(key);
    }
  }

  method Clear(t: Tracker)
    requires Seen(t).Some?
    modifies Repr(t)
    ensures Seen(t) == Some([])
  {
    match t {
      case Saving(ss) =>
        hide ss.Valid;
        ss.Reset();
      case Sketch(cm) =>
        hide cm.Valid;
        cm.Reset();
    }
  }

  /** The k best keys of a Space-Saving table after some run over the stream. */
  ghost predicate TopOfRun(cap: nat, stream: seq<nat>, k: nat, out: seq<nat>) {
    exists ts :: IsRun(cap, stream, ts) && IsTop(Counts(ts[|stream|]), k, Counting.Elements(out))
  }

  /** The k best keys, by estimate, of those a CAM holds: keys of the stream, and all of them unless it is
      full. */
  ghost predicate TopOfHeld(cm: CountMinTopK, stream: seq<nat>, held: set<nat>, k: nat, out: seq<nat>) {
    && held <= Counting.Elements(stream) && |held| <= cm.k && (|held| == cm.k || held == Counting.Elements(stream))
    && cm.width > 0 && cm.depth > 0
    && IsTop(Estimates(cm.hash, cm.width, cm.depth, stream, held), k, Counting.Elements(out))
  }

  /** What a tracker may report for the stream: at most k keys, each once, the best by what it counts. */
  ghost predicate Picked(t: Tracker, stream: seq<nat>, k: nat, out: seq<nat>) {
    && Counting.Distinct(out) && |out| <= k
    && match t
       case Saving(ss) => ss.cap > 0 && TopOfRun(ss.cap, stream, k, out)
       case Sketch(cm) => exists held :: TopOfHeld(cm, stream, held, k, out)
  }

  method Pick(t: Tracker, k: nat) returns (out: seq<nat>)
    requires Seen(t).Some?
    modifies Repr(t)
    ensures Seen(t) == old(Seen(t)) && Picked(t, Seen(t).value, k, out)
    ensures t.Sketch? ==> TopOfHeld(t.cm, Seen(t).value, KeySet(t.cm.cam), k, out)
  {
    match t {
      case Saving(ss) =>
        out := ss.TopK(k);
        Counting.DistinctSize(out);
        assert IsRun(ss.cap, ss.stream, ss.trail);
      case Sketch(cm) =>
        out := PickHeld(cm, k);
    }
  }

  method PickHeld(cm: CountMinTopK, k: nat) returns (out: seq<nat>)
    requires cm.Valid() && Keeps(cm.cam, cm.stream, cm.k)
    modifies cm, cm.counters
    ensures cm.Valid() && Keeps(cm.cam, cm.stream, cm.k) && cm.stream == old(cm.stream)
    ensures Counting.Distinct(out) && |out| <= k && TopOfHeld(cm, cm.stream, KeySet(cm.cam), k, out)
  {
    hide Estimates;
    out := cm.TopK(k);
    Counting.DistinctSize(out);
    KeySetSize(cm.cam);
  }

  /** The score is that of keys the tracker may report: their exact counts, and how many of them fewer than
      k keys exceed. It never exceeds the ideal; a Space-Saving tracker of N slots fed n accesses falls
      short of it by at most k * n / N. */
  ghost predicate Scored(t: Tracker, stream: seq<nat>, exact: map<nat, nat>, k: nat, s: Score) {
    && s.k == k && s.hits <= k && s.picked <= s.ideal
    && (forall top :: IsTop(exact, k, top) ==> s.ideal == Sum(exact, top))
    && (exists out :: Picked(t, stream, k, out) && ScoreIs(exact, k, out, s))
    && (t.Saving? && IsExact(exact, stream) ==> t.ss.cap * s.ideal <= t.ss.cap * s.picked + k * |stream|)
  }

  ghost predicate ScoreIs(exact: map<nat, nat>, k: nat, out: seq<nat>, s: Score) {
    s.picked == Sum(exact, Counting.Elements(out)) && s.hits == |AmongBest(exact, k, out)|
  }

  method ScoreTracker(t: Tracker, exact: map<nat, nat>, k: nat) returns (s: Score)
    requires Seen(t).Some?
    modifies Repr(t)
    ensures Seen(t) == old(Seen(t)) && Scored(t, Seen(t).value, exact, k, s)
  {
    hide Seen, Sum, IsTop, IsExact, TopOfRun, TopOfHeld, AmongBest, AtLeast;
    var picked := Pick(t, k);
    ghost var low;
    s, low := ScoreTopK(picked, exact, k);
    assert picked[..|picked|] == picked;
    SumSeqIsSum(exact, picked);
    assert ScoreIs(exact, k, picked, s);
    if t.Saving? && IsExact(exact, Seen(t).value) {
      PickAccuracy(t.ss.cap, Seen(t).value, exact, k, picked);
      ghost var top := SomeTop(exact, k);
    }
  }

  lemma SomeTop(f: map<nat, nat>, k: nat) returns (top: set<nat>)
    ensures IsTop(f, k, top)
  {
    TopExists(f, k);
    top :| IsTop(f, k, top);
  }

  lemma PickAccuracy(cap: nat, stream: seq<nat>, exact: map<nat, nat>, k: nat, out: seq<nat>)
    requires cap > 0 && IsExact(exact, stream) && TopOfRun(cap, stream, k, out)
    ensures forall top :: IsTop(exact, k, top) ==>
      cap * Sum(exact, top) <= cap * Sum(exact, Counting.Elements(out)) + k * |stream|
  {
    var ts :| IsRun(cap, stream, ts) && IsTop(Counts(ts[|stream|]), k, Counting.Elements(out));
    forall top | IsTop(exact, k, top)
      ensures cap * Sum(exact, top) <= cap * Sum(exact, Counting.Elements(out)) + k * |stream|
    {
      AccuracyOfRun(cap, stream, ts, exact, k, Counting.Elements(out), top);
    }
  }

  /** The tracker can tell all keys of the stream apart: it has a slot for each, and in a sketch each key
      has a row where no other shares its cell. */
  ghost predicate Roomy(t: Tracker, stream: seq<nat>) {
    match t
    case Saving(ss) => |Counting.Elements(stream)| <= ss.cap
    case Sketch(cm) =>
      && |Counting.Elements(stream)| <= cm.k && cm.width > 0
      && forall x :: x in stream ==> exists r :: 0 <= r < cm.depth && Alone(cm.hash, cm.width, stream, r, x)
  }

  /** Such a tracker scores perfectly: it collects the ideal sum and hits with every pick. */
  lemma RoomyIsPerfect(t: Tracker, stream: seq<nat>, exact: map<nat, nat>, k: nat, s: Score)
    requires Scored(t, stream, exact, k, s) && IsExact(exact, stream) && Roomy(t, stream)
    ensures s.picked == s.ideal
    ensures var n := |Counting.Elements(stream)|; s.hits == if k < n then k else n
  {
    hide Picked, IsTop, IsExact, Roomy, Sum, AmongBest;
    var out :| Picked(t, stream, k, out) && ScoreIs(exact, k, out, s);
    var f := RoomyCounts(t, stream, k, out);
    var top := SomeTop(exact, k);
    PerfectPicks(f, exact, stream, k, out, top);
  }

  /** What it ranks by are the true frequencies. */
  lemma RoomyCounts(t: Tracker, stream: seq<nat>, k: nat, out: seq<nat>) returns (f: map<nat, nat>)
    requires Roomy(t, stream) && Picked(t, stream, k, out)
    ensures f.Keys == Counting.Elements(stream) && forall x :: x in f ==> f[x] == Freq(stream, x)
    ensures Counting.Distinct(out) && IsTop(f, k, Counting.Elements(out))
  {
    hide IsTop;
    match t {
      case Saving(ss) =>
        var ts :| IsRun(ss.cap, stream, ts) && IsTop(Counts(ts[|stream|]), k, Counting.Elements(out));
        RoomyRun(ss.cap, stream, ts);
        f := Counts(ts[|stream|]);
      case Sketch(cm) =>
        var held :| TopOfHeld(cm, stream, held, k, out);
        Counting.SubsetSize(held, Counting.Elements(stream));
        f := Estimates(cm.hash, cm.width, cm.depth, stream, held);
        forall x | x in f ensures f[x] == Freq(stream, x) {
          EstimateIsExact(cm.hash, cm.width, cm.depth, stream, x);
        }
    }
  }

  lemma PerfectPicks(f: map<nat, nat>, exact: map<nat, nat>, stream: seq<nat>, k: nat, out: seq<nat>, top: set<nat>)
    requires f.Keys == Counting.Elements(stream) && forall x :: x in f ==> f[x] == Freq(stream, x)
    requires IsExact(exact, stream) && Counting.Distinct(out) && IsTop(f, k, Counting.Elements(out))
    requires IsTop(exact, k, top)
    ensures Sum(exact, Counting.Elements(out)) == Sum(exact, top)
    ensures var n := |Counting.Elements(stream)|; |AmongBest(exact, k, out)| == if k < n then k else n
  {
    hide Sum, AmongBest;
    forall x ensures ScoreOf(f, x) == ScoreOf(exact, x) == Freq(stream, x) && (x in f ==> f[x] > 0) {
      NeverOccurs(stream, x);
      assert ScoreOf(exact, x) == Freq(stream, x);
    }
    var picks := Counting.Elements(out);
    SameSums(f, exact, picks);
    SameSums(f, exact, top);
    TopIsBest(f, k, picks, top);
    TopIsBest(exact, k, top, picks);
    TopHits(f, k, out);
    Counting.DistinctSize(out);
    SameBest(f, exact, k, out);
  }

  lemma SameSums(f: map<nat, nat>, g: map<nat, nat>, s: set<nat>)
    requires forall x :: ScoreOf(f, x) == ScoreOf(g, x)
    ensures Sum(f, s) == Sum(g, s)
  {
    SumPointwise(f, g, s, 0);
    SumPointwise(g, f, s, 0);
  }

  /** Keys that never occur exceed nothing. */
  lemma SameBest(f: map<nat, nat>, g: map<nat, nat>, k: nat, out: seq<nat>)
    requires (forall x :: ScoreOf(f, x) == ScoreOf(g, x)) && forall x :: x in f ==> f[x] > 0
    requires Counting.Elements(out) <= f.Keys
    ensures AmongBest(f, k, out) == AmongBest(g, k, out)
  {
    forall x | x in f ensures x in g && Above(f, f[x]) == Above(g, g[x]) {
      assert ScoreOf(f, x) == ScoreOf(g, x);
      forall y ensures y in Above(f, f[x]) <==> y in Above(g, g[x]) { assert ScoreOf(f, y) == ScoreOf(g, y); }
    }
  }
}
