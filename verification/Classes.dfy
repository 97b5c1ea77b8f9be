/** Lines that are congruent modulo a divisor g of every level's number of sets form a class. Classes do
    not interact: each is served by sets of its own at every level, and these behave as a hierarchy of
    that many sets, in which the lines are numbered within the class. */
module Classes {
  import Bits
  import Counting
  import opened CacheSpec
  import opened Hierarchy
  import opened Cascade

  // ---------- one level ----------

  function Quot(es: seq<Entry>, g: nat): (q: seq<Entry>)
    requires g > 0
    ensures |q| == |es|
  {
    seq(|es|, i requires 0 <= i < |es| => Entry(Within(es[i].line, g), es[i].dirty))
  }

  /** The number of a line within its class. */
  function Within(line: Line, g: nat): Line
    requires g > 0
  {
    Shrinks(line, g);
    line / g
  }

  function QuotOutcome(o: Outcome, g: nat): Outcome
    requires g > 0
  {
    Outcome(o.hit, o.wroteBack, Within(o.wbLine, g))
  }

  lemma Shrinks(x: nat, g: nat)
    requires g > 0
    ensures x / g <= x && 0 / g == 0
  {
    var q := x / g;
    assert x == q * g + x % g;
    assert q <= q * g by { Counting.MulLe(1, g, q); }
    Bits.ModuloUnique(0, g, 0, 0);
  }

  lemma Apart(x: nat, y: nat, g: nat)
    requires g > 0 && x % g == y % g
    ensures x / g == y / g <==> x == y
  {
    assert x == x / g * g + x % g && y == y / g * g + y % g;
  }

  /** The set of a line is its class plus g times the set of its number. */
  lemma SetOfLine(x: nat, g: nat, m: nat)
    requires g > 0 && m > 0
    ensures g * m > 0 && x % (g * m) == x % g + g * (x / g % m) && x % (g * m) % g == x % g
  {
    var q, r := x / g, x % g;
    var k, j := q / m, q % m;
    assert q == k * m + j;
    assert x == q * g + r;
    assert q * g == k * m * g + j * g;
    assert k * m * g == k * (g * m);
    InRow(r, j, g, m);
    Bits.ModuloUnique(x, g * m, k, r + g * j);
    Bits.ModuloUnique(r + g * j, g, j, r);
  }

  lemma InRow(s: nat, j: nat, g: nat, m: nat)
    requires s < g && j < m
    ensures s + g * j < g * m && 0 < g * m
  {
    Counting.MulLe(j + 1, m, g);
    assert (j + 1) * g == g * j + g && m * g == g * m;
  }

  lemma InColumn(s: nat, t: nat, i: nat, j: nat, g: nat)
    requires s < g && t < g
    ensures s + g * i == t + g * j <==> s == t && i == j
  {
    Bits.ModuloUnique(s + g * i, g, i, s);
    Bits.ModuloUnique(t + g * j, g, j, t);
  }

  /** The level has m sets for each of the g classes. */
  ghost predicate Rows(l: Level, g: nat, m: nat) {
    Ok(l) && g > 0 && m > 0 && |l.sets| == g * m
  }

  /** Class s of a level, as a level. */
  function PartOf(l: Level, g: nat, m: nat, s: nat): Level
    requires s < g && |l.sets| == g * m
  {
    Level(l.assoc, seq(m, j requires 0 <= j < m => (InRow(s, j, g, m); Quot(l.sets[s + g * j], g))))
  }

  lemma {:induction false} IndexQuot(es: seq<Entry>, g: nat, line: Line)
    requires g > 0 && forall i :: 0 <= i < |es| ==> es[i].line % g == line % g
    ensures IndexOf(Quot(es, g), Within(line, g)) == IndexOf(es, line)
  {
    if es != [] {
      Apart(es[0].line, line, g);
      IndexQuot(es[1..], g, line);
      assert Quot(es, g)[1..] == Quot(es[1..], g);
    }
  }

  lemma QuotMoved(es: seq<Entry>, e: Entry, i: nat, g: nat)
    requires g > 0 && i < |es|
    ensures Quot([e] + es[..i] + es[i + 1..], g)
      == [Entry(Within(e.line, g), e.dirty)] + Quot(es, g)[..i] + Quot(es, g)[i + 1..]
  {
  }

  lemma QuotAdded(es: seq<Entry>, e: Entry, k: nat, g: nat)
    requires g > 0 && k <= |es|
    ensures Quot([e] + es[..k], g) == [Entry(Within(e.line, g), e.dirty)] + Quot(es, g)[..k]
  {
  }

  lemma SetQuot(es: seq<Entry>, assoc: nat, g: nat, line: Line, t: AccessType)
    requires g > 0 && 1 <= assoc && |es| <= assoc && forall i :: 0 <= i < |es| ==> es[i].line % g == line % g
    ensures var (es', o) := SetAccess(es, assoc, line, t);
      && SetAccess(Quot(es, g), assoc, Within(line, g), t) == (Quot(es', g), QuotOutcome(o, g))
      && (o.wroteBack ==> o.wbLine % g == line % g)
  {
    IndexQuot(es, g, line);
    Shrinks(0, g);
    var i, q := IndexOf(es, line), Quot(es, g);
    hide IndexOf, Quot, Within;
    if i < |es| {
      assert q[i].dirty == es[i].dirty by { QuotAt(es, g, i); }
      QuotMoved(es, Entry(line, es[i].dirty || t.Write?), i, g);
    } else if |es| < assoc {
      QuotAdded(es, Entry(line, t.Write?), |es|, g);
      assert es[..|es|] == es && q[..|es|] == q;
    } else {
      QuotAt(es, g, |es| - 1);
      QuotAdded(es, Entry(line, t.Write?), |es| - 1, g);
    }
  }

  lemma QuotAt(es: seq<Entry>, g: nat, i: nat)
    requires g > 0 && i < |es|
    ensures Quot(es, g)[i] == Entry(Within(es[i].line, g), es[i].dirty)
  {
  }

  lemma SetQuotOk(es: seq<Entry>, assoc: nat, g: nat, m: nat, s: nat, j: nat)
    requires s < g && j < m && g * m > 0 && SetOk(es, assoc, g * m, s + g * j)
    ensures SetOk(Quot(es, g), assoc, m, j) && forall i :: 0 <= i < |es| ==> es[i].line % g == s
  {
    forall i | 0 <= i < |es| ensures es[i].line % g == s && es[i].line / g % m == j {
      SetOfLine(es[i].line, g, m);
      InColumn(es[i].line % g, s, es[i].line / g % m, j, g);
    }
    forall i, k | 0 <= i < k < |es| ensures es[i].line / g != es[k].line / g {
      Apart(es[i].line, es[k].line, g);
    }
  }

  lemma PartOk(l: Level, g: nat, m: nat, s: nat)
    requires Rows(l, g, m) && s < g
    ensures Ok(PartOf(l, g, m, s))
  {
    forall j | 0 <= j < m ensures SetOk(PartOf(l, g, m, s).sets[j], l.assoc, m, j) {
      InRow(s, j, g, m);
      assert SetOk(l.sets[s + g * j], l.assoc, g * m, s + g * j);
      SetQuotOk(l.sets[s + g * j], l.assoc, g, m, s, j);
    }
  }

  ghost predicate OthersKept(l: Level, l': Level, g: nat, m: nat, s: nat) {
    |l.sets| == |l'.sets| == g * m && forall i :: 0 <= i < g && i != s ==> PartOf(l', g, m, i) == PartOf(l, g, m, i)
  }

  lemma PartUpdated(l: Level, g: nat, m: nat, s: nat, j: nat, es: seq<Entry>)
    requires s < g && j < m && |l.sets| == g * m
    ensures s + g * j < |l.sets|
    ensures var l' := l.(sets := l.sets[s + g * j := es]);
      && PartOf(l', g, m, s) == PartOf(l, g, m, s).(sets := PartOf(l, g, m, s).sets[j := Quot(es, g)])
      && OthersKept(l, l', g, m, s)
  {
    InRow(s, j, g, m);
    var l' := l.(sets := l.sets[s + g * j := es]);
    forall i, k | 0 <= i < g && 0 <= k < m
      ensures PartOf(l', g, m, i).sets[k] == if i == s && k == j then Quot(es, g) else PartOf(l, g, m, i).sets[k]
    {
      InRow(i, k, g, m);
      InColumn(i, s, k, j, g);
    }
    assert PartOf(l', g, m, s).sets == PartOf(l, g, m, s).sets[j := Quot(es, g)];
    forall i | 0 <= i < g && i != s ensures PartOf(l', g, m, i) == PartOf(l, g, m, i) {
      assert PartOf(l', g, m, i).sets == PartOf(l, g, m, i).sets;
    }
  }

  lemma AccessInPart(l: Level, g: nat, m: nat, line: Line, t: AccessType)
    requires Rows(l, g, m)
    ensures var (l', o), s := Access(l, line, t), line % g;
      && Rows(l', g, m) && Ok(PartOf(l, g, m, s))
      && Access(PartOf(l, g, m, s), Within(line, g), t) == (PartOf(l', g, m, s), QuotOutcome(o, g))
      && OthersKept(l, l', g, m, s)
      && (o.wroteBack ==> o.wbLine % g == s)
  {
    var s, j := line % g, line / g % m;
    SetOfLine(line, g, m);
    InRow(s, j, g, m);
    PartOk(l, g, m, s);
    var es := l.sets[s + g * j];
    assert SetOk(es, l.assoc, g * m, s + g * j);
    SetQuotOk(es, l.assoc, g, m, s, j);
    SetQuot(es, l.assoc, g, line, t);
    PartUpdated(l, g, m, s, j, SetAccess(es, l.assoc, line, t).0);
    assert PartOf(l, g, m, s).sets[j] == Quot(es, g);
    hide SetAccess, Quot, PartOf, SetOk;
  }

  // ---------- the hierarchy ----------

  /** Sets for each class at L1, L2 and the LLC. */
  datatype Shape = Shape(m1: nat, m2: nat, m3: nat)

  ghost predicate PrivateRows(p: Private, g: nat, h: Shape) {
    Rows(p.l1, g, h.m1) && Rows(p.l2, g, h.m2)
  }

  function PrivatePart(p: Private, g: nat, h: Shape, s: nat): Private
    requires s < g && |p.l1.sets| == g * h.m1 && |p.l2.sets| == g * h.m2
  {
    Private(PartOf(p.l1, g, h.m1, s), PartOf(p.l2, g, h.m2, s))
  }

  function QuotResult(r: PrivateResult, g: nat): PrivateResult
    requires g > 0
  {
    PrivateResult(QuotOutcome(r.eviction, g), QuotOutcome(r.demand, g), r.visitedL2)
  }

  function QuotEvents(es: seq<Event>, g: nat): (q: seq<Event>)
    requires g > 0
    ensures |q| == |es|
  {
    seq(|es|, i requires 0 <= i < |es| => Event(Within(es[i].line, g), es[i].write))
  }

  lemma QuotConcat(a: seq<Event>, b: seq<Event>, g: nat)
    requires g > 0
    ensures QuotEvents(a + b, g) == QuotEvents(a, g) + QuotEvents(b, g)
  {
  }

  lemma NoQuotEvents(g: nat)
    requires g > 0
    ensures QuotEvents([], g) == []
  {
  }

  lemma OneQuotEvent(line: Line, write: bool, g: nat)
    requires g > 0
    ensures QuotEvents([Event(line, write)], g) == [Event(Within(line, g), write)]
  {
  }

  lemma PrivateInPart(p: Private, g: nat, h: Shape, line: Line, t: AccessType)
    requires PrivateRows(p, g, h)
    ensures var (p', r), s := PrivateStep(p, line, t), line % g;
      && PrivateRows(p', g, h) && PrivateOk(PrivatePart(p, g, h, s))
      && PrivateStep(PrivatePart(p, g, h, s), Within(line, g), t) == (PrivatePart(p', g, h, s), QuotResult(r, g))
      && OthersKept(p.l1, p'.l1, g, h.m1, s) && OthersKept(p.l2, p'.l2, g, h.m2, s)
      && (r.eviction.wroteBack ==> r.eviction.wbLine % g == s)
      && (r.demand.wroteBack ==> r.demand.wbLine % g == s)
  {
    hide Access, PartOf, Ok;
    AccessInPart(p.l1, g, h.m1, line, t);
    PartOk(p.l2, g, h.m2, line % g);
    QuietQuot(g);
    var first := Access(p.l1, line, t).1;
    if first.wroteBack { AccessInPart(p.l2, g, h.m2, first.wbLine, Write); }
    var m := if first.wroteBack then Access(p.l2, first.wbLine, Write).0 else p.l2;
    AccessInPart(m, g, h.m2, line, Read);
  }

  lemma QuietQuot(g: nat)
    requires g > 0
    ensures QuotOutcome(Quiet, g) == Quiet
  {
    Shrinks(0, g);
  }

  lemma OutgoingInPart(llc: Level, g: nat, m: nat, s: nat, o: Outcome)
    requires Rows(llc, g, m) && s < g && (o.wroteBack ==> o.wbLine % g == s)
    ensures var (llc', es) := Outgoing(llc, o);
      && Rows(llc', g, m) && Ok(PartOf(llc, g, m, s))
      && Outgoing(PartOf(llc, g, m, s), QuotOutcome(o, g)) == (PartOf(llc', g, m, s), QuotEvents(es, g))
      && OthersKept(llc, llc', g, m, s)
  {
    hide Access, PartOf, Ok, QuotEvents;
    PartOk(llc, g, m, s);
    NoQuotEvents(g);
    OneQuotEvent(Access(llc, o.wbLine, Write).1.wbLine, true, g);
    if o.wroteBack { AccessInPart(llc, g, m, o.wbLine, Write); }
  }

  lemma FillInPart(llc: Level, g: nat, m: nat, line: Line)
    requires Rows(llc, g, m)
    ensures var (llc', es), s := DemandFill(llc, line), line % g;
      && Rows(llc', g, m) && Ok(PartOf(llc, g, m, s))
      && DemandFill(PartOf(llc, g, m, s), Within(line, g)) == (PartOf(llc', g, m, s), QuotEvents(es, g))
      && OthersKept(llc, llc', g, m, s)
  {
    hide Access, PartOf, Ok, QuotEvents;
    AccessInPart(llc, g, m, line, Read);
    var o := Access(llc, line, Read).1;
    NoQuotEvents(g);
    OneQuotEvent(o.wbLine, true, g);
    OneQuotEvent(line, false, g);
    QuotConcat(if o.wroteBack then [Event(o.wbLine, true)] else [], if o.hit then [] else [Event(line, false)], g);
  }

  lemma SharedInPart(llc: Level, g: nat, m: nat, line: Line, r: PrivateResult)
    requires Rows(llc, g, m)
    requires r.eviction.wroteBack ==> r.eviction.wbLine % g == line % g
    requires r.demand.wroteBack ==> r.demand.wbLine % g == line % g
    ensures var (llc', es), s := SharedStep(llc, line, r), line % g;
      && Rows(llc', g, m) && Ok(PartOf(llc, g, m, s))
      && SharedStep(PartOf(llc, g, m, s), Within(line, g), QuotResult(r, g))
           == (PartOf(llc', g, m, s), QuotEvents(es, g))
      && OthersKept(llc, llc', g, m, s)
  {
    hide Outgoing, DemandFill, PartOf, Ok, QuotEvents;
    var s := line % g;
    OutgoingInPart(llc, g, m, s, r.eviction);
    var (c1, e1) := Outgoing(llc, r.eviction);
    OutgoingInPart(c1, g, m, s, r.demand);
    var (c2, e2) := Outgoing(c1, r.demand);
    QuotConcat(e1, e2, g);
    if !r.demand.hit {
      FillInPart(c2, g, m, line);
      QuotConcat(e1 + e2, DemandFill(c2, line).1, g);
    }
  }

  /** One thread, and so many sets for each class. */
  ghost predicate Even(y: Sys, g: nat, h: Shape) {
    && SysOk(y) && |y.threads| == 1 && g > 0
    && PrivateRows(y.threads[0], g, h) && Rows(y.llc, g, h.m3)
  }

  /** Class s of every level, as a hierarchy. */
  function Part(y: Sys, g: nat, h: Shape, s: nat): (z: Sys)
    requires |y.threads| == 1 && s < g
    requires |y.threads[0].l1.sets| == g * h.m1 && |y.threads[0].l2.sets| == g * h.m2 && |y.llc.sets| == g * h.m3
    ensures |z.threads| == 1
  {
    Sys([PrivatePart(y.threads[0], g, h, s)], PartOf(y.llc, g, h.m3, s))
  }

  ghost predicate OnlyPart(y: Sys, y': Sys, g: nat, h: Shape, s: nat)
    requires Even(y, g, h) && Even(y', g, h)
  {
    forall j :: 0 <= j < g && j != s ==> Part(y', g, h, j) == Part(y, g, h, j)
  }

  lemma PartsKept(y: Sys, y': Sys, g: nat, h: Shape, s: nat)
    requires Even(y, g, h) && Even(y', g, h) && OthersKept(y.llc, y'.llc, g, h.m3, s)
    requires OthersKept(y.threads[0].l1, y'.threads[0].l1, g, h.m1, s)
    requires OthersKept(y.threads[0].l2, y'.threads[0].l2, g, h.m2, s)
    ensures OnlyPart(y, y', g, h, s)
  {
    hide PartOf, Ok;
  }

  lemma PartIsOk(y: Sys, g: nat, h: Shape, s: nat)
    requires Even(y, g, h) && s < g
    ensures SysOk(Part(y, g, h, s))
  {
    PartOk(y.threads[0].l1, g, h.m1, s);
    PartOk(y.threads[0].l2, g, h.m2, s);
    PartOk(y.llc, g, h.m3, s);
  }

  function QuotTxn(x: Txn, g: nat): Txn
    requires g > 0
  {
    Txn(x.tid, Within(x.line, g), x.t)
  }

  /** A transaction works on one class of the hierarchy as it does on that class alone. */
  lemma StepInPart(y: Sys, g: nat, h: Shape, x: Txn)
    requires Even(y, g, h) && x.tid == 0
    ensures var (y', es), s := Step(y, x), x.line % g;
      && Even(y', g, h) && SysOk(Part(y, g, h, s))
      && Step(Part(y, g, h, s), QuotTxn(x, g)) == (Part(y', g, h, s), QuotEvents(es, g))
      && OnlyPart(y, y', g, h, s)
  {
    var s, z := x.line % g, Part(y, g, h, x.line % g);
    PartIsOk(y, g, h, s);
    hide PrivateStep, SharedStep, PartOf, Ok, PrivateOk, QuotEvents;
    var (p, r) := PrivateStep(y.threads[0], x.line, x.t);
    PrivateInPart(y.threads[0], g, h, x.line, x.t);
    SharedInPart(y.llc, g, h.m3, x.line, r);
    assert y.threads[0 := p] == [p];
    assert z.threads[0 := PrivatePart(p, g, h, s)] == [PrivatePart(p, g, h, s)];
    PartsKept(y, Step(y, x).0, g, h, s);
  }

  ghost predicate InClass(trace: seq<Txn>, g: nat, s: nat)
    requires g > 0
  {
    forall i :: 0 <= i < |trace| ==> trace[i].tid == 0 && trace[i].line % g == s
  }

  function QuotTrace(trace: seq<Txn>, g: nat): (q: seq<Txn>)
    requires g > 0
    ensures |q| == |trace| && forall i :: 0 <= i < |q| ==> q[i] == QuotTxn(trace[i], g)
  {
    seq(|trace|, i requires 0 <= i < |trace| => QuotTxn(trace[i], g))
  }

  /** So does any run within the class: same events up to the numbering, all other classes untouched. */
  lemma {:induction false} RunInPart(y: Sys, g: nat, h: Shape, s: nat, trace: seq<Txn>)
    requires Even(y, g, h) && s < g && InClass(trace, g, s)
    ensures SysOk(Part(y, g, h, s)) && TidsIn(trace, 1) && TidsIn(QuotTrace(trace, g), 1)
    ensures var (y', es) := Run(y, trace);
      && Even(y', g, h) && OnlyPart(y, y', g, h, s)
      && Run(Part(y, g, h, s), QuotTrace(trace, g)) == (Part(y', g, h, s), QuotEvents(es, g))
  {
    hide Step, Part, Ok, PrivateOk, PrivateRows, Rows, QuotEvents;
    PartIsOk(y, g, h, s);
    if trace == [] {
      NoQuotEvents(g);
    } else {
      var init, x := trace[..|trace| - 1], trace[|trace| - 1];
      RunInPart(y, g, h, s, init);
      StepInPart(Run(y, init).0, g, h, x);
      assert QuotTrace(trace, g)[..|trace| - 1] == QuotTrace(init, g);
      QuotConcat(Run(y, init).1, Step(Run(y, init).0, x).1, g);
    }
  }

  // ---------- every class in turn ----------

  /** Numbers below `few` stand for lines in every class. */
  ghost predicate MovesOk(moves: seq<Txn>, few: nat) {
    forall i :: 0 <= i < |moves| ==> moves[i].tid == 0 && moves[i].line < few
  }

  function LineAt(g: nat, s: nat, k: nat, few: nat): (x: Line)
    requires s < g && k < few && g * few <= LINE_LIMIT
    ensures x % g == s && Within(x, g) == k
  {
    InRow(s, k, g, few);
    Bits.ModuloUnique(s + g * k, g, k, s);
    s + g * k
  }

  /** The moves in class s. */
  function Play(moves: seq<Txn>, g: nat, s: nat, few: nat): (trace: seq<Txn>)
    requires MovesOk(moves, few) && s < g && g * few <= LINE_LIMIT
    ensures InClass(trace, g, s) && |trace| == |moves| && QuotTrace(trace, g) == moves
    ensures forall i :: 0 <= i < |moves| ==> trace[i].t == moves[i].t
  {
    seq(|moves|, i requires 0 <= i < |moves| => Txn(0, LineAt(g, s, moves[i].line, few), moves[i].t))
  }

  ghost predicate PlanOk(plan: seq<seq<Txn>>, few: nat) {
    forall s :: 0 <= s < |plan| ==> MovesOk(plan[s], few)
  }

  /** The first moves in class 0, then the second in class 1, and so on. */
  function PlayAll(plan: seq<seq<Txn>>, g: nat, few: nat): (trace: seq<Txn>)
    requires PlanOk(plan, few) && |plan| <= g && g * few <= LINE_LIMIT
    ensures TidsIn(trace, 1)
  {
    if plan == [] then []
    else PlayAll(plan[..|plan| - 1], g, few) + Play(plan[|plan| - 1], g, |plan| - 1, few)
  }

  /** After the plan, every class is where its own moves alone take it. */
  ghost predicate Played(y: Sys, y': Sys, g: nat, h: Shape, plan: seq<seq<Txn>>, few: nat)
    requires Even(y, g, h) && Even(y', g, h) && PlanOk(plan, few) && |plan| <= g
    requires forall s :: 0 <= s < g ==> SysOk(Part(y, g, h, s))
  {
    forall s :: 0 <= s < g ==>
      Part(y', g, h, s) == if s < |plan| then Run(Part(y, g, h, s), plan[s]).0 else Part(y, g, h, s)
  }

  /** The events of all classes, each on its own. */
  ghost function PartEvents(y: Sys, g: nat, h: Shape, plan: seq<seq<Txn>>, few: nat): nat
    requires Even(y, g, h) && PlanOk(plan, few) && |plan| <= g
    requires forall s :: 0 <= s < g ==> SysOk(Part(y, g, h, s))
  {
    if plan == [] then 0
    else
      var n := |plan| - 1;
      PartEvents(y, g, h, plan[..n], few) + |Run(Part(y, g, h, n), plan[n]).1|
  }

  lemma PlayedNext(y: Sys, y1: Sys, y2: Sys, g: nat, h: Shape, plan: seq<seq<Txn>>, few: nat)
    requires Even(y, g, h) && Even(y1, g, h) && Even(y2, g, h)
    requires PlanOk(plan, few) && plan != [] && |plan| <= g
    requires forall s :: 0 <= s < g ==> SysOk(Part(y, g, h, s))
    requires Played(y, y1, g, h, plan[..|plan| - 1], few) && OnlyPart(y1, y2, g, h, |plan| - 1)
    requires Part(y2, g, h, |plan| - 1) == Run(Part(y, g, h, |plan| - 1), plan[|plan| - 1]).0
    ensures Played(y, y2, g, h, plan, few)
  {
    hide Run, Ok, PrivateOk, Part, PrivateRows, Rows;
  }

  /** Classes take their turns independently. */
  lemma {:induction false} PlayedEverywhere(y: Sys, g: nat, h: Shape, plan: seq<seq<Txn>>, few: nat)
    requires Even(y, g, h) && PlanOk(plan, few) && |plan| <= g && g * few <= LINE_LIMIT
    ensures forall s :: 0 <= s < g ==> SysOk(Part(y, g, h, s))
    ensures var (y', es) := Run(y, PlayAll(plan, g, few));
      Even(y', g, h) && Played(y, y', g, h, plan, few) && |es| == PartEvents(y, g, h, plan, few)
  {
    hide Run, SysOk, Part, Play, QuotEvents, Ok;
    forall s | 0 <= s < g ensures SysOk(Part(y, g, h, s)) { PartIsOk(y, g, h, s); }
    if plan == [] {
      Cascade.RunNothing(y);
    } else {
      var n := |plan| - 1;
      var trace, more := PlayAll(plan[..n], g, few), Play(plan[n], g, n, few);
      PlayedEverywhere(y, g, h, plan[..n], few);
      var y1 := Run(y, trace).0;
      RunInPart(y1, g, h, n, more);
      RunAppend(y, trace, more);
      PlayedNext(y, y1, Run(y1, more).0, g, h, plan, few);
    }
  }
}
