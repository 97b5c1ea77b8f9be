/** More LLC ways, same sets, same references: LRU inclusion and what follows for DRAM traffic. */
module Ways {
  import Bits
  import CacheModel
  import Counting
  import opened CacheSpec
  import opened Hierarchy
  import opened Lru
  import opened Cascade

  /** Each set of `a` is the recent part of the same set of `b`, and `b` keeps every dirty mark. */
  ghost predicate SetWithin(x: seq<Entry>, y: seq<Entry>, assoc: nat) {
    && |x| == (if |y| < assoc then |y| else assoc)
    && forall i :: 0 <= i < |x| ==> x[i].line == y[i].line && (x[i].dirty ==> y[i].dirty)
  }

  ghost predicate Within(a: Level, b: Level) {
    && |a.sets| == |b.sets| && a.assoc <= b.assoc
    && forall s :: 0 <= s < |a.sets| ==> SetWithin(a.sets[s], b.sets[s], a.assoc)
  }

  lemma SetStep(x: seq<Entry>, y: seq<Entry>, a: nat, b: nat, line: Line, t: AccessType)
    requires 1 <= a <= b && |y| <= b && SetWithin(x, y, a)
    ensures SetWithin(SetAccess(x, a, line, t).0, SetAccess(y, b, line, t).0, a)
    ensures SetAccess(x, a, line, t).1.hit ==> SetAccess(y, b, line, t).1.hit
  {
    SameIndex(x, y, line);
    var i, j := IndexOf(x, line), IndexOf(y, line);
    SetAccessIs(x, a, line, t);
    SetAccessIs(y, b, line, t);
    hide SetAccess, IndexOf, SetWithin;
    if i < |x| {
      BothHit(x, y, a, i, line, t);
    } else if j < |y| {
      LargerHits(x, y, a, j, line, t);
    } else {
      BothMiss(x, y, a, b, line, t);
    }
  }

  lemma BothHit(x: seq<Entry>, y: seq<Entry>, a: nat, i: nat, line: Line, t: AccessType)
    requires SetWithin(x, y, a) && i < |x|
    ensures SetWithin(ToFront(x, i, line, t), ToFront(y, i, line, t), a)
  {
  }

  lemma LargerHits(x: seq<Entry>, y: seq<Entry>, a: nat, j: nat, line: Line, t: AccessType)
    requires 1 <= a && SetWithin(x, y, a) && |x| <= j < |y|
    ensures SetWithin(Added(x, a, line, t), ToFront(y, j, line, t), a)
  {
  }

  lemma BothMiss(x: seq<Entry>, y: seq<Entry>, a: nat, b: nat, line: Line, t: AccessType)
    requires 1 <= a <= b && |y| <= b && SetWithin(x, y, a)
    ensures SetWithin(Added(x, a, line, t), Added(y, b, line, t), a)
  {
  }

  lemma SameIndex(x: seq<Entry>, y: seq<Entry>, line: Line)
    requires |x| <= |y| && forall i :: 0 <= i < |x| ==> x[i].line == y[i].line
    ensures IndexOf(x, line) < |x| ==> IndexOf(y, line) == IndexOf(x, line)
    ensures IndexOf(x, line) == |x| ==> IndexOf(y, line) >= |x|
  {
  }

  /** Stack inclusion, one access at a time: the smaller level hits only where the larger one does,
      holds no other lines, and marks no other lines dirty. */
  lemma Inclusion(a: Level, b: Level, line: Line, t: AccessType)
    requires Ok(a) && Ok(b) && Within(a, b)
    ensures Within(Access(a, line, t).0, Access(b, line, t).0)
    ensures Access(a, line, t).1.hit ==> Access(b, line, t).1.hit
  {
    var s := line % |a.sets|;
    SetStep(a.sets[s], b.sets[s], a.assoc, b.assoc, line, t);
  }

  lemma WithinLines(a: Level, b: Level, x: Line)
    requires Ok(a) && Ok(b) && Within(a, b)
    ensures Holds(a, x) ==> Holds(b, x)
    ensures IsDirty(a, x) ==> IsDirty(b, x)
  {
    SameIndex(a.sets[x % |a.sets|], b.sets[x % |b.sets|], x);
  }

  lemma DirtyWithin(a: Level, b: Level)
    requires Ok(a) && Ok(b) && Within(a, b)
    ensures DirtyLines(a) <= DirtyLines(b)
    ensures |DirtyLines(a)| <= |DirtyLines(b)|
  {
    forall x: Line | IsDirty(a, x) ensures IsDirty(b, x) { WithinLines(a, b, x); }
    Counting.SubsetSize(DirtyLines(a), DirtyLines(b));
  }


  /** Writebacks already made plus dirty lines still held. */
  ghost function Owed(l: Level, es: seq<Event>): nat
    requires |l.sets| > 0
  {
    Writebacks(es) + |DirtyLines(l)|
  }

  lemma ServeOwed(l: Level, es: seq<Event>, q: Ref)
    requires Ok(l)
    ensures Owed(Serve(l, q).0, es + Serve(l, q).1) == Owed(l, es) + One(q.t.Write? && !IsDirty(l, q.line))
  {
    Effect(l, q.line, q.t);
    TokenBalance(l, q.line, q.t, Access(l, q.line, q.t).0, Access(l, q.line, q.t).1);
    ServeCounts(l, q);
    CountConcat(es, Serve(l, q).1);
  }

  /** Serving the same requests keeps the larger level ahead on every count. */
  ghost predicate Ahead(a: Level, ea: seq<Event>, b: Level, eb: seq<Event>) {
    && Ok(a) && Ok(b) && Within(a, b)
    && Owed(b, eb) <= Owed(a, ea)
    && Fills(eb) <= Fills(ea)
  }

  lemma AheadStep(a: Level, ea: seq<Event>, b: Level, eb: seq<Event>, q: Ref)
    requires Ahead(a, ea, b, eb)
    ensures Ahead(Serve(a, q).0, ea + Serve(a, q).1, Serve(b, q).0, eb + Serve(b, q).1)
  {
    Inclusion(a, b, q.line, q.t);
    WithinLines(a, b, q.line);
    ServeOwed(a, ea, q);
    ServeOwed(b, eb, q);
    ServeCounts(a, q);
    ServeCounts(b, q);
    CountConcat(ea, Serve(a, q).1);
    CountConcat(eb, Serve(b, q).1);
  }

  lemma {:induction false} AheadAll(a: Level, ea: seq<Event>, b: Level, eb: seq<Event>, qs: seq<Ref>)
    requires Ahead(a, ea, b, eb)
    ensures Ahead(ServeAll(a, qs).0, ea + ServeAll(a, qs).1, ServeAll(b, qs).0, eb + ServeAll(b, qs).1)
    decreases qs
  {
    if qs == [] {
      assert ea + [] == ea && eb + [] == eb;
    } else {
      var (a', e) := Serve(a, qs[0]);
      var (b', f) := Serve(b, qs[0]);
      AheadStep(a, ea, b, eb, qs[0]);
      AheadAll(a', ea + e, b', eb + f, qs[1..]);
      ServeFirst(a, qs);
      ServeFirst(b, qs);
      Associate(ea, e, ServeAll(a', qs[1..]).1);
      Associate(eb, f, ServeAll(b', qs[1..]).1);
    }
  }

  // ---------- the whole system ----------

  lemma TxnAhead(y: Sys, ea: seq<Event>, z: Sys, eb: seq<Event>, x: Txn)
    requires SysOk(y) && SysOk(z) && y.threads == z.threads && x.tid < |y.threads|
    requires Ahead(y.llc, ea, z.llc, eb)
    ensures Step(y, x).0.threads == Step(z, x).0.threads
    ensures Ahead(Step(y, x).0.llc, ea + Step(y, x).1, Step(z, x).0.llc, eb + Step(z, x).1)
  {
    var res := PrivateStep(y.threads[x.tid], x.line, x.t).1;
    SharedServes(y.llc, x.line, res);
    SharedServes(z.llc, x.line, res);
    AheadAll(y.llc, ea, z.llc, eb, Requests(x.line, res));
  }

  lemma {:induction false} RunAhead(y: Sys, z: Sys, trace: seq<Txn>)
    requires SysOk(y) && SysOk(z) && y.threads == z.threads && TidsIn(trace, |y.threads|)
    requires Ahead(y.llc, [], z.llc, [])
    ensures Run(y, trace).0.threads == Run(z, trace).0.threads
    ensures Ahead(Run(y, trace).0.llc, Run(y, trace).1, Run(z, trace).0.llc, Run(z, trace).1)
  {
    if trace != [] {
      var init, x := trace[..|trace| - 1], trace[|trace| - 1];
      RunAhead(y, z, init);
      TxnAhead(Run(y, init).0, Run(y, init).1, Run(z, init).0, Run(z, init).1, x);
    }
  }

  lemma ColdAhead(sets: nat, a: nat, b: nat)
    requires 1 <= sets && 1 <= a <= b
    ensures Ahead(Cold(a, sets), [], Cold(b, sets), [])
  {
    ColdHoldsNothing(a, sets);
    ColdHoldsNothing(b, sets);
    assert DirtyLines(Cold(b, sets)) == {};
  }

  /** From a cold LLC and the same private caches, after any trace (so at every prefix of one) the
      LLC with more ways has made no more fills, no more writebacks and no more transactions. */
  lemma MoreWaysLessTraffic(threads: seq<Private>, sets: nat, a: nat, b: nat, trace: seq<Txn>)
    requires (forall i :: 0 <= i < |threads| ==> PrivateOk(threads[i])) && TidsIn(trace, |threads|)
    requires 1 <= sets && 1 <= a <= b
    ensures Ok(Cold(a, sets)) && Ok(Cold(b, sets))
    ensures var few, many := Run(Sys(threads, Cold(a, sets)), trace), Run(Sys(threads, Cold(b, sets)), trace);
      && Fills(many.1) <= Fills(few.1)
      && Writebacks(many.1) <= Writebacks(few.1)
      && |many.1| <= |few.1|
      && many.0.threads == few.0.threads
  {
    ColdAhead(sets, a, b);
    var y, z := Sys(threads, Cold(a, sets)), Sys(threads, Cold(b, sets));
    RunAhead(y, z, trace);
    DirtyWithin(Run(y, trace).0.llc, Run(z, trace).0.llc);
    EventsSplit(Run(y, trace).1);
    EventsSplit(Run(z, trace).1);
  }

  /** And no single transaction fills a line with more ways that it would not fill with fewer. */
  lemma MoreWaysAddNoFill(threads: seq<Private>, sets: nat, a: nat, b: nat, trace: seq<Txn>, x: Txn)
    requires (forall i :: 0 <= i < |threads| ==> PrivateOk(threads[i])) && TidsIn(trace, |threads|)
    requires 1 <= sets && 1 <= a <= b && x.tid < |threads|
    ensures Ok(Cold(a, sets)) && Ok(Cold(b, sets))
    ensures var few, many := Run(Sys(threads, Cold(a, sets)), trace).0, Run(Sys(threads, Cold(b, sets)), trace).0;
      forall line: Line :: Event(line, false) in Step(many, x).1 ==> Event(line, false) in Step(few, x).1
  {
    ColdAhead(sets, a, b);
    var y, z := Sys(threads, Cold(a, sets)), Sys(threads, Cold(b, sets));
    RunAhead(y, z, trace);
    var few, many := Run(y, trace).0, Run(z, trace).0;
    var res := PrivateStep(few.threads[x.tid], x.line, x.t).1;
    SharedServes(few.llc, x.line, res);
    SharedServes(many.llc, x.line, res);
    FillsWithin(few.llc, many.llc, Requests(x.line, res));
  }

  lemma {:induction false} FillsWithin(a: Level, b: Level, qs: seq<Ref>)
    requires Ok(a) && Ok(b) && Within(a, b)
    ensures forall line: Line :: Event(line, false) in ServeAll(b, qs).1 ==> Event(line, false) in ServeAll(a, qs).1
    decreases qs
  {
    if qs != [] {
      Inclusion(a, b, qs[0].line, qs[0].t);
      FillsWithin(Serve(a, qs[0]).0, Serve(b, qs[0]).0, qs[1..]);
    }
  }

  /** The campaign's sweep over w ways of 4096 KB each is accepted for every w and never changes the
      number of sets, so its configurations are comparable. */
  lemma SweepKeepsSets(w: nat)
    requires w > 0
    ensures CacheModel.Representable(4096 * w * 1024, w, 64) && CacheModel.SetsOf(4096 * w * 1024, 64 * w) == 65536
  {
    Bits.ModuloUnique(4096 * w * 1024, 64 * w, 65536, 0);
    assert Bits.Pow2(6) == 64;
    assert Bits.Pow2(8) == 256;
    Bits.Pow2Product(8, 8);
  }
}
