/** What runs from cold caches lead to: states from which the bound on warm traffic is met, and from
    which the audited three events an access fail by one, for runs of every length. */
module WarmRuns {
  import opened CacheSpec
  import opened Hierarchy
  import opened Lru
  import opened Cascade
  import opened Tokens
  import opened Classes
  import Warm

  // ---------- one class of sets, computed ----------

  datatype Copy = Gone | Held(line: Line, dirty: bool)

  /** A two-way L1 set, and two one-way sets of L2 and of the LLC for its even and its odd lines. */
  datatype Small = Small(front: Copy, back: Copy, even2: Copy, odd2: Copy, even3: Copy, odd3: Copy)

  const EMPTY := Small(Gone, Gone, Gone, Gone, Gone, Gone)

  const SHAPE := Shape(1, 2, 2)

  const FEW: nat := 4

  function Row(c: Copy): seq<Entry> {
    if c.Gone? then [] else [Entry(c.line, c.dirty)]
  }

  function Pair(even: Copy, odd: Copy): Level {
    Level(1, [Row(even), Row(odd)])
  }

  function Top(front: Copy, back: Copy): Level {
    Level(2, [Row(front) + Row(back)])
  }

  function AsSys(z: Small): Sys {
    Sys([Private(Top(z.front, z.back), Pair(z.even2, z.odd2))], Pair(z.even3, z.odd3))
  }

  ghost predicate PairOk(even: Copy, odd: Copy) {
    (even.Held? ==> even.line % 2 == 0) && (odd.Held? ==> odd.line % 2 == 1)
  }

  ghost predicate TopOk(front: Copy, back: Copy) {
    back.Held? ==> front.Held? && front.line != back.line
  }

  ghost predicate SmallOk(z: Small) {
    TopOk(z.front, z.back) && PairOk(z.even2, z.odd2) && PairOk(z.even3, z.odd3)
  }

  /** What leaves with a displaced copy. */
  function Displaced(c: Copy): Outcome {
    if c.Held? && c.dirty then Outcome(false, true, c.line) else Outcome(false, false, 0)
  }

  function OnlyWay(c: Copy, line: Line, t: AccessType): (Copy, Outcome) {
    if c.Held? && c.line == line then (Held(line, c.dirty || t.Write?), Outcome(true, false, 0))
    else (Held(line, t.Write?), Displaced(c))
  }

  function AtPair(even: Copy, odd: Copy, line: Line, t: AccessType): (Copy, Copy, Outcome) {
    if line % 2 == 0 then
      var (c, o) := OnlyWay(even, line, t); (c, odd, o)
    else
      var (c, o) := OnlyWay(odd, line, t); (even, c, o)
  }

  function AtTop(front: Copy, back: Copy, line: Line, t: AccessType): (Copy, Copy, Outcome) {
    if front.Held? && front.line == line then
      (Held(line, front.dirty || t.Write?), back, Outcome(true, false, 0))
    else if back.Held? && back.line == line then
      (Held(line, back.dirty || t.Write?), front, Outcome(true, false, 0))
    else (Held(line, t.Write?), front, Displaced(back))
  }

  lemma RowAccess(c: Copy, line: Line, t: AccessType)
    ensures var (c', o) := OnlyWay(c, line, t); SetAccess(Row(c), 1, line, t) == (Row(c'), o)
  {
    var (c', o) := OnlyWay(c, line, t);
    var es := Row(c);
    if c.Held? { assert es[1..] == [] && es[..0] == []; }
    assert SetAccess(es, 1, line, t).0 == Row(c');
  }

  lemma PairIsOk(even: Copy, odd: Copy)
    requires PairOk(even, odd)
    ensures Ok(Pair(even, odd))
  {
    var l := Pair(even, odd);
    assert SetOk(l.sets[0], 1, 2, 0) && SetOk(l.sets[1], 1, 2, 1);
  }

  lemma PairAccess(even: Copy, odd: Copy, line: Line, t: AccessType)
    requires PairOk(even, odd)
    ensures var (e, d, o) := AtPair(even, odd, line, t);
      && PairOk(e, d) && Ok(Pair(even, odd)) && Access(Pair(even, odd), line, t) == (Pair(e, d), o)
      && (o.wroteBack ==> o.wbLine % 2 == line % 2)
  {
    hide SetAccess, SetOk;
    PairIsOk(even, odd);
    RowAccess(if line % 2 == 0 then even else odd, line, t);
    var (e, d, o) := AtPair(even, odd, line, t);
    if line % 2 == 0 {
      assert [Row(even), Row(odd)][0 := Row(e)] == [Row(e), Row(odd)];
    } else {
      assert [Row(even), Row(odd)][1 := Row(d)] == [Row(even), Row(d)];
    }
  }

  lemma TopIsOk(front: Copy, back: Copy)
    requires TopOk(front, back)
    ensures Ok(Top(front, back))
  {
    assert SetOk(Row(front) + Row(back), 2, 1, 0);
  }

  lemma TopRow(front: Copy, back: Copy, line: Line, t: AccessType)
    requires TopOk(front, back)
    ensures var (f, b, o) := AtTop(front, back, line, t);
      && TopOk(f, b) && SetAccess(Row(front) + Row(back), 2, line, t) == (Row(f) + Row(b), o)
  {
    var es := Row(front) + Row(back);
    var (f, b, o) := AtTop(front, back, line, t);
    if front.Gone? {
      assert es == [];
    } else if front.line == line {
      assert es[0] == Entry(front.line, front.dirty) && es[1..] == Row(back);
      assert SetAccess(es, 2, line, t).0 == Row(f) + Row(b);
    } else if back.Gone? {
      assert es == [Entry(front.line, front.dirty)];
      assert IndexOf(es[1..], line) == 0;
      assert SetAccess(es, 2, line, t).0 == Row(f) + Row(b);
    } else {
      assert es == [Entry(front.line, front.dirty), Entry(back.line, back.dirty)];
      assert es[1..] == [Entry(back.line, back.dirty)];
      assert es[1..][1..] == [];
      assert es[..1] == [Entry(front.line, front.dirty)] && es[2..] == [];
      assert SetAccess(es, 2, line, t).0 == Row(f) + Row(b);
    }
  }

  lemma TopAccess(front: Copy, back: Copy, line: Line, t: AccessType)
    requires TopOk(front, back)
    ensures var (f, b, o) := AtTop(front, back, line, t);
      TopOk(f, b) && Ok(Top(front, back)) && Access(Top(front, back), line, t) == (Top(f, b), o)
  {
    hide SetAccess, SetOk;
    TopIsOk(front, back);
    TopRow(front, back, line, t);
    var (f, b, o) := AtTop(front, back, line, t);
    var es := Row(front) + Row(back);
    assert [es][0 := Row(f) + Row(b)] == [Row(f) + Row(b)];
  }

  /** The LLC's part of an outgoing line, and the number of lines that reach memory. */
  function SendSmall(even: Copy, odd: Copy, o: Outcome): (Copy, Copy, nat) {
    if !o.wroteBack then (even, odd, 0)
    else
      var (e, d, wb) := AtPair(even, odd, o.wbLine, Write);
      (e, d, One(wb.wroteBack))
  }

  function FillSmall(even: Copy, odd: Copy, line: Line): (Copy, Copy, nat) {
    var (e, d, o) := AtPair(even, odd, line, Read);
    (e, d, One(o.wroteBack) + One(!o.hit))
  }

  function SharedSmall(even: Copy, odd: Copy, line: Line, r: PrivateResult): (Copy, Copy, nat) {
    var (e1, d1, n1) := SendSmall(even, odd, r.eviction);
    var (e2, d2, n2) := SendSmall(e1, d1, r.demand);
    if r.demand.hit then (e2, d2, n1 + n2)
    else
      var (e3, d3, n3) := FillSmall(e2, d2, line);
      (e3, d3, n1 + n2 + n3)
  }

  /** One transaction, and the number of its events. */
  function SmallStep(z: Small, line: Line, t: AccessType): (Small, nat) {
    var (f, b, first) := AtTop(z.front, z.back, line, t);
    if first.hit then (z.(front := f, back := b), 0)
    else
      var (e1, d1, eviction) := if first.wroteBack then AtPair(z.even2, z.odd2, first.wbLine, Write)
                                else (z.even2, z.odd2, Quiet);
      var (e2, d2, demand) := AtPair(e1, d1, line, Read);
      var (e3, d3, n) := SharedSmall(z.even3, z.odd3, line, PrivateResult(eviction, demand, true));
      (Small(f, b, e2, d2, e3, d3), n)
  }

  lemma SendIsSmall(even: Copy, odd: Copy, o: Outcome)
    requires PairOk(even, odd)
    ensures var (e, d, n) := SendSmall(even, odd, o);
      && PairOk(e, d) && Ok(Pair(even, odd))
      && Outgoing(Pair(even, odd), o).0 == Pair(e, d) && |Outgoing(Pair(even, odd), o).1| == n
  {
    hide Access, Ok, Pair, AtPair;
    PairIsOk(even, odd);
    if o.wroteBack { PairAccess(even, odd, o.wbLine, Write); }
  }

  lemma FillIsSmall(even: Copy, odd: Copy, line: Line)
    requires PairOk(even, odd)
    ensures var (e, d, n) := FillSmall(even, odd, line);
      && PairOk(e, d) && Ok(Pair(even, odd))
      && DemandFill(Pair(even, odd), line).0 == Pair(e, d) && |DemandFill(Pair(even, odd), line).1| == n
  {
    hide Access, Ok, Pair, AtPair;
    PairAccess(even, odd, line, Read);
  }

  lemma SharedIsSmall(even: Copy, odd: Copy, line: Line, r: PrivateResult)
    requires PairOk(even, odd)
    ensures var (e, d, n) := SharedSmall(even, odd, line, r);
      && PairOk(e, d) && Ok(Pair(even, odd))
      && SharedStep(Pair(even, odd), line, r).0 == Pair(e, d) && |SharedStep(Pair(even, odd), line, r).1| == n
  {
    hide Outgoing, DemandFill, Ok, Pair, SendSmall, FillSmall, PairOk;
    SendIsSmall(even, odd, r.eviction);
    var (e1, d1, n1) := SendSmall(even, odd, r.eviction);
    SendIsSmall(e1, d1, r.demand);
    var (e2, d2, n2) := SendSmall(e1, d1, r.demand);
    if !r.demand.hit { FillIsSmall(e2, d2, line); }
  }

  lemma QuietIsSmall(even: Copy, odd: Copy, line: Line)
    ensures SharedSmall(even, odd, line, PrivateResult(Quiet, Quiet, false)) == (even, odd, 0)
  {
  }

  /** The computed step is the step of the hierarchy. */
  lemma StepIsSmall(z: Small, line: Line, t: AccessType)
    requires SmallOk(z)
    ensures var (w, n) := SmallStep(z, line, t);
      && SmallOk(w) && SysOk(AsSys(z))
      && Step(AsSys(z), Txn(0, line, t)).0 == AsSys(w) && |Step(AsSys(z), Txn(0, line, t)).1| == n
  {
    hide Access, Ok, Pair, Top, AtTop, AtPair, SharedSmall, SharedStep, PairOk, TopOk;
    TopAccess(z.front, z.back, line, t);
    PairIsOk(z.even2, z.odd2);
    PairIsOk(z.even3, z.odd3);
    var (f, b, first) := AtTop(z.front, z.back, line, t);
    if first.wroteBack { PairAccess(z.even2, z.odd2, first.wbLine, Write); }
    var (e1, d1, eviction) := if first.wroteBack then AtPair(z.even2, z.odd2, first.wbLine, Write)
                              else (z.even2, z.odd2, Quiet);
    PairAccess(e1, d1, line, Read);
    var (p, r) := PrivateStep(AsSys(z).threads[0], line, t);
    SharedIsSmall(z.even3, z.odd3, line, r);
    QuietIsSmall(z.even3, z.odd3, line);
    assert AsSys(z).threads[0 := p] == [p];
  }

  // ---------- the runs in one class ----------

  /** The moves lead from z to w with n events. */
  ghost predicate Leads(z: Small, moves: seq<Txn>, w: Small, n: nat) {
    && SmallOk(w) && MovesOk(moves, FEW) && SysOk(AsSys(z)) && TidsIn(moves, 1)
    && Run(AsSys(z), moves).0 == AsSys(w) && |Run(AsSys(z), moves).1| == n
  }

  lemma StandsStill(z: Small)
    requires SmallOk(z)
    ensures Leads(z, [], z, 0)
  {
    StepIsSmall(z, 0, Read);
  }

  lemma LeadsOn(z: Small, moves: seq<Txn>, i: nat, w: Small, n: nat)
    requires i < |moves| && MovesOk(moves, FEW) && Leads(z, moves[..i], w, n)
    ensures var (w', k) := SmallStep(w, moves[i].line, moves[i].t); Leads(z, moves[..i + 1], w', n + k)
  {
    hide Step, SmallOk, SmallStep, SysOk;
    StepIsSmall(w, moves[i].line, moves[i].t);
    assert moves[..i + 1][..i] == moves[..i];
    RunUnfolds(AsSys(z), moves[..i + 1]);
  }

  function W(line: Line): Txn { Txn(0, line, Write) }

  function R(line: Line): Txn { Txn(0, line, Read) }

  function C(line: Line): Copy { Held(line, false) }

  function D(line: Line): Copy { Held(line, true) }

  /** A class is primed for the accesses to come in it: four that make twelve events, three that make
      ten, one that makes four, or one that makes three. */
  datatype Kind = Quad | Triple | Single | Extra

  function Prime(k: Kind): seq<Txn> {
    match k
    case Quad => [W(0), W(2), W(1), R(3), R(2), W(3), W(1), W(2)]
    case Triple => [W(0), W(2), W(1), R(3), R(2), W(3), W(1), W(2)]
    case Single => [W(0), R(2), R(1), W(2), W(0), R(1)]
    case Extra => [W(0), W(2), R(1)]
  }

  const FULL := Small(D(2), D(1), D(2), D(3), D(0), D(1))

  function Primed(k: Kind): Small {
    match k
    case Quad => FULL
    case Triple => FULL
    case Single => Small(C(1), D(0), D(2), C(1), D(0), C(1))
    case Extra => Small(C(1), D(2), D(0), C(1), C(2), C(1))
  }

  function Next(k: Kind): seq<Txn> {
    match k
    case Quad => [W(0), W(3), W(2), W(1)]
    case Triple => [W(0), W(3), W(2)]
    case Single => [W(2)]
    case Extra => [W(0)]
  }

  /** What is counted: the accesses of the run, its events, and the dirty copies left by the priming,
      each from a store of its own. */
  datatype Measure = Accesses | Events | Copies

  function Count(k: Kind, m: Measure): nat {
    match k
    case Quad => (match m case Accesses => 4 case Events => 12 case Copies => 6)
    case Triple => (match m case Accesses => 3 case Events => 10 case Copies => 6)
    case Single => (match m case Accesses => 1 case Events => 4 case Copies => 3)
    case Extra => (match m case Accesses => 1 case Events => 3 case Copies => 2)
  }

  lemma FullIsPrimed()
    ensures Leads(EMPTY, Prime(Quad), FULL, 4)
  {
    hide Leads;
    var m := Prime(Quad);
    StandsStill(EMPTY);
    assert m[..0] == [];
    LeadsOn(EMPTY, m, 0, EMPTY, 0);
    LeadsOn(EMPTY, m, 1, Small(D(0), Gone, C(0), Gone, C(0), Gone), 1);
    LeadsOn(EMPTY, m, 2, Small(D(2), D(0), C(2), Gone, C(2), Gone), 2);
    LeadsOn(EMPTY, m, 3, Small(D(1), D(2), D(0), C(1), C(2), C(1)), 3);
    LeadsOn(EMPTY, m, 4, Small(C(3), D(1), D(2), C(3), D(0), C(3)), 4);
    LeadsOn(EMPTY, m, 5, Small(C(2), C(3), D(2), D(1), D(0), C(3)), 4);
    LeadsOn(EMPTY, m, 6, Small(D(3), C(2), D(2), D(1), D(0), C(3)), 4);
    LeadsOn(EMPTY, m, 7, Small(D(1), D(3), D(2), D(1), D(0), C(3)), 4);
    assert m[..8] == m;
  }

  lemma QuadRuns()
    ensures exists w :: Leads(FULL, Next(Quad), w, 12)
    ensures exists w :: Leads(FULL, Next(Triple), w, 10)
  {
    hide Leads;
    var m := Next(Quad);
    StandsStill(FULL);
    assert m[..0] == [];
    LeadsOn(FULL, m, 0, FULL, 0);
    LeadsOn(FULL, m, 1, Small(D(0), D(2), C(0), D(1), C(0), D(3)), 4);
    LeadsOn(FULL, m, 2, Small(D(3), D(0), D(2), C(3), C(0), C(3)), 7);
    LeadsOn(FULL, m, 3, Small(D(2), D(3), C(2), C(3), C(2), C(3)), 10);
    assert m[..4] == m;
    assert m[..3] == Next(Triple);
  }

  lemma SingleIsPrimed()
    ensures Leads(EMPTY, Prime(Single), Primed(Single), 3)
  {
    hide Leads;
    var m := Prime(Single);
    StandsStill(EMPTY);
    assert m[..0] == [];
    LeadsOn(EMPTY, m, 0, EMPTY, 0);
    LeadsOn(EMPTY, m, 1, Small(D(0), Gone, C(0), Gone, C(0), Gone), 1);
    LeadsOn(EMPTY, m, 2, Small(C(2), D(0), C(2), Gone, C(2), Gone), 2);
    LeadsOn(EMPTY, m, 3, Small(C(1), C(2), D(0), C(1), C(2), C(1)), 3);
    LeadsOn(EMPTY, m, 4, Small(D(2), C(1), D(0), C(1), C(2), C(1)), 3);
    LeadsOn(EMPTY, m, 5, Small(D(0), D(2), D(0), C(1), C(2), C(1)), 3);
    assert m[..6] == m;
  }

  lemma ExtraIsPrimed()
    ensures Leads(EMPTY, Prime(Extra), Primed(Extra), 3)
  {
    hide Leads;
    var m := Prime(Extra);
    StandsStill(EMPTY);
    assert m[..0] == [];
    LeadsOn(EMPTY, m, 0, EMPTY, 0);
    LeadsOn(EMPTY, m, 1, Small(D(0), Gone, C(0), Gone, C(0), Gone), 1);
    LeadsOn(EMPTY, m, 2, Small(D(2), D(0), C(2), Gone, C(2), Gone), 2);
    assert m[..3] == m;
  }

  lemma KindPrimes(k: Kind)
    ensures exists n :: Leads(EMPTY, Prime(k), Primed(k), n)
  {
    hide Leads;
    FullIsPrimed();
    SingleIsPrimed();
    ExtraIsPrimed();
    assert Prime(Triple) == Prime(Quad);
    match k {
      case Quad => assert Leads(EMPTY, Prime(k), Primed(k), 4);
      case Triple => assert Leads(EMPTY, Prime(k), Primed(k), 4);
      case Single => assert Leads(EMPTY, Prime(k), Primed(k), 3);
      case Extra => assert Leads(EMPTY, Prime(k), Primed(k), 3);
    }
  }

  lemma KindRuns(k: Kind)
    ensures exists w :: Leads(Primed(k), Next(k), w, Count(k, Events))
  {
    hide Leads;
    match k {
      case Quad =>
        QuadRuns();
        var w :| Leads(FULL, Next(Quad), w, 12);
        assert Leads(Primed(k), Next(k), w, Count(k, Events));
      case Triple =>
        QuadRuns();
        var w :| Leads(FULL, Next(Triple), w, 10);
        assert Leads(Primed(k), Next(k), w, Count(k, Events));
      case Single => OneRuns(k);
      case Extra => OneRuns(k);
    }
  }

  lemma OneRuns(k: Kind)
    requires k.Single? || k.Extra?
    ensures exists w :: Leads(Primed(k), Next(k), w, Count(k, Events))
  {
    hide Leads;
    var m := Next(k);
    StandsStill(Primed(k));
    assert m[..0] == [] && m[..1] == m;
    LeadsOn(Primed(k), m, 0, Primed(k), 0);
    var (w, n) := SmallStep(Primed(k), m[0].line, m[0].t);
    assert Leads(Primed(k), m, w, n) && n == Count(k, Events);
  }

  // ---------- the runs in all classes ----------

  /** One thread over cold caches: g two-way sets at L1, and 2 * g one-way sets at L2 and in the LLC. */
  function ColdOneThread(g: nat): Sys {
    Sys([Private(Cold(2, g), Cold(1, g * 2))], Cold(1, g * 2))
  }

  lemma ColdPart(w: nat, g: nat, m: nat, s: nat)
    requires w > 0 && m > 0 && s < g
    ensures Rows(Cold(w, g * m), g, m) && PartOf(Cold(w, g * m), g, m, s) == Cold(w, m)
  {
    InRow(s, 0, g, m);
    ColdHoldsNothing(w, g * m);
    var l := Cold(w, g * m);
    forall j | 0 <= j < m ensures PartOf(l, g, m, s).sets[j] == [] { InRow(s, j, g, m); }
    assert PartOf(l, g, m, s).sets == Cold(w, m).sets;
  }

  lemma ColdClasses(g: nat)
    requires g > 0
    ensures var y := ColdOneThread(g);
      Even(y, g, SHAPE) && IsCold(y) && forall s :: 0 <= s < g ==> Part(y, g, SHAPE, s) == AsSys(EMPTY)
  {
    hide Ok, PartOf, Holds;
    ColdHoldsNothing(2, g);
    ColdHoldsNothing(1, g * 2);
    assert g * 1 == g;
    ColdPart(2, g, 1, 0);
    ColdPart(1, g, 2, 0);
    assert Row(Gone) + Row(Gone) == [];
    assert Top(Gone, Gone).sets == Cold(2, 1).sets && Pair(Gone, Gone).sets == Cold(1, 2).sets;
    forall s | 0 <= s < g ensures Part(ColdOneThread(g), g, SHAPE, s) == AsSys(EMPTY) {
      ColdPart(2, g, 1, s);
      ColdPart(1, g, 2, s);
    }
  }

  function Primes(ks: seq<Kind>): (plan: seq<seq<Txn>>)
    ensures |plan| == |ks| && forall i :: 0 <= i < |ks| ==> plan[i] == Prime(ks[i])
  {
    seq(|ks|, i requires 0 <= i < |ks| => Prime(ks[i]))
  }

  function Nexts(ks: seq<Kind>): (plan: seq<seq<Txn>>)
    ensures |plan| == |ks| && forall i :: 0 <= i < |ks| ==> plan[i] == Next(ks[i])
  {
    seq(|ks|, i requires 0 <= i < |ks| => Next(ks[i]))
  }

  function Sum(ks: seq<Kind>, m: Measure): nat {
    if ks == [] then 0 else Sum(ks[..|ks| - 1], m) + Count(ks[|ks| - 1], m)
  }

  lemma PlansOk(ks: seq<Kind>)
    ensures PlanOk(Primes(ks), FEW) && PlanOk(Nexts(ks), FEW)
  {
    hide Leads;
    forall i | 0 <= i < |ks| ensures MovesOk(Prime(ks[i]), FEW) && MovesOk(Next(ks[i]), FEW) {}
  }

  /** The run that primes a class for each kind, and the run that follows. */
  function Priming(ks: seq<Kind>, g: nat): (trace: seq<Txn>)
    requires |ks| <= g && g * FEW <= LINE_LIMIT
    ensures TidsIn(trace, 1)
  {
    PlansOk(ks);
    PlayAll(Primes(ks), g, FEW)
  }

  function Following(ks: seq<Kind>, g: nat): (trace: seq<Txn>)
    requires |ks| <= g && g * FEW <= LINE_LIMIT
    ensures TidsIn(trace, 1)
  {
    PlansOk(ks);
    PlayAll(Nexts(ks), g, FEW)
  }

  lemma {:induction false} StoresConcat(a: seq<Txn>, b: seq<Txn>)
    ensures Stores(a + b) == Stores(a) + Stores(b)
  {
    if b == [] {
      assert a + b == a;
    } else {
      var init := b[..|b| - 1];
      StoresConcat(a, init);
      assert (a + b)[..|a + b| - 1] == a + init;
    }
  }

  lemma {:induction false} SameStores(a: seq<Txn>, b: seq<Txn>)
    requires |a| == |b| && forall i :: 0 <= i < |a| ==> a[i].t == b[i].t
    ensures Stores(a) == Stores(b)
  {
    if a != [] { SameStores(a[..|a| - 1], b[..|b| - 1]); }
  }

  lemma PrimeStores(k: Kind)
    ensures Stores(Prime(k)) == Count(k, Copies)
  {
    match k {
      case Quad => FullStores();
      case Triple => FullStores();
      case Single =>
        assert Prime(k) == [W(0), R(2), R(1)] + [W(2), W(0), R(1)];
        StoresConcat([W(0), R(2), R(1)], [W(2), W(0), R(1)]);
        StoresOfThree(W(0), R(2), R(1));
        StoresOfThree(W(2), W(0), R(1));
      case Extra => StoresOfThree(W(0), W(2), R(1));
    }
  }

  lemma FullStores()
    ensures Stores(Prime(Quad)) == 6 && Prime(Triple) == Prime(Quad)
  {
    assert Prime(Quad) == [W(0), W(2), W(1)] + ([R(3), R(2), W(3)] + [W(1), W(2)]);
    StoresConcat([W(0), W(2), W(1)], [R(3), R(2), W(3)] + [W(1), W(2)]);
    StoresConcat([R(3), R(2), W(3)], [W(1), W(2)]);
    StoresOfThree(W(0), W(2), W(1));
    StoresOfThree(R(3), R(2), W(3));
    assert [W(1), W(2)][..1] == [W(1)];
  }

  lemma StoresOfThree(x: Txn, y: Txn, z: Txn)
    ensures Stores([x, y, z]) == One(x.t.Write?) + One(y.t.Write?) + One(z.t.Write?)
  {
    assert [x, y, z][..2] == [x, y] && [x, y][..1] == [x] && [x][..0] == [];
    assert Stores([x]) == One(x.t.Write?);
    assert Stores([x, y]) == Stores([x]) + One(y.t.Write?);
  }

  lemma {:induction false} PrimingStores(ks: seq<Kind>, g: nat)
    requires |ks| <= g && g * FEW <= LINE_LIMIT
    ensures Stores(Priming(ks, g)) == Sum(ks, Copies)
  {
    PlansOk(ks);
    if ks != [] {
      var init, n := ks[..|ks| - 1], |ks| - 1;
      PlansOk(init);
      PrimingStores(init, g);
      assert Primes(ks)[..n] == Primes(init);
      var more := Play(Prime(ks[n]), g, n, FEW);
      StoresConcat(Priming(init, g), more);
      SameStores(more, Prime(ks[n]));
      PrimeStores(ks[n]);
    }
  }

  lemma {:induction false} FollowingLength(ks: seq<Kind>, g: nat)
    requires |ks| <= g && g * FEW <= LINE_LIMIT
    ensures |Following(ks, g)| == Sum(ks, Accesses)
  {
    PlansOk(ks);
    if ks != [] {
      var init, n := ks[..|ks| - 1], |ks| - 1;
      PlansOk(init);
      FollowingLength(init, g);
      assert Nexts(ks)[..n] == Nexts(init);
    }
  }

  /** The classes of y that the kinds name are primed for them. */
  ghost predicate IsPrimed(y: Sys, g: nat, ks: seq<Kind>) {
    && Even(y, g, SHAPE) && |ks| <= g
    && forall s :: 0 <= s < |ks| ==> Part(y, g, SHAPE, s) == AsSys(Primed(ks[s]))
  }

  lemma PrimedAll(g: nat, ks: seq<Kind>)
    requires g > 0 && |ks| <= g && g * FEW <= LINE_LIMIT
    ensures SysOk(ColdOneThread(g)) && IsPrimed(Run(ColdOneThread(g), Priming(ks, g)).0, g, ks)
  {
    hide Run, Part, AsSys, SysOk, Ok, Leads, PlanOk, PlayAll;
    var y := ColdOneThread(g);
    ColdClasses(g);
    PlansOk(ks);
    PlayedEverywhere(y, g, SHAPE, Primes(ks), FEW);
    forall s | 0 <= s < |ks|
      ensures Part(Run(y, Priming(ks, g)).0, g, SHAPE, s) == AsSys(Primed(ks[s]))
    {
      PrimedPart(ks[s]);
    }
  }

  lemma PrimedPart(k: Kind)
    ensures SysOk(AsSys(EMPTY)) && TidsIn(Prime(k), 1) && Run(AsSys(EMPTY), Prime(k)).0 == AsSys(Primed(k))
  {
    KindPrimes(k);
  }

  lemma FollowingPart(k: Kind)
    ensures SysOk(AsSys(Primed(k))) && TidsIn(Next(k), 1) && |Run(AsSys(Primed(k)), Next(k)).1| == Count(k, Events)
  {
    KindRuns(k);
  }

  lemma {:induction false} FollowingEvents(y: Sys, g: nat, ks: seq<Kind>)
    requires IsPrimed(y, g, ks) && g * FEW <= LINE_LIMIT && PlanOk(Nexts(ks), FEW)
    requires forall s :: 0 <= s < g ==> SysOk(Part(y, g, SHAPE, s))
    ensures PartEvents(y, g, SHAPE, Nexts(ks), FEW) == Sum(ks, Events)
  {
    hide Run, Part, AsSys, SysOk, Ok, Count;
    if ks != [] {
      var n := |ks| - 1;
      assert Nexts(ks)[..n] == Nexts(ks[..n]);
      FollowingEvents(y, g, ks[..n]);
      FollowingPart(ks[n]);
    }
  }

  /** From cold caches, the priming leaves at most the copies of its kinds dirty and the run that
      follows makes their events. */
  lemma RunOfKinds(g: nat, ks: seq<Kind>)
    requires g > 0 && |ks| <= g && g * FEW <= LINE_LIMIT
    ensures var y := ColdOneThread(g);
      && SysOk(y) && IsCold(y)
      && var warm := Run(y, Priming(ks, g)).0;
      && Dirty(warm) <= Sum(ks, Copies)
      && |Following(ks, g)| == Sum(ks, Accesses) && |Run(warm, Following(ks, g)).1| == Sum(ks, Events)
  {
    hide Run, Part, AsSys, SysOk, Dirty, PlayAll, PlanOk, Ok, IsCold, Sum;
    var y := ColdOneThread(g);
    ColdClasses(g);
    PrimedAll(g, ks);
    var warm := Run(y, Priming(ks, g)).0;
    Conservation(y, Priming(ks, g));
    ColdIsClean(y);
    PrimingStores(ks, g);
    PlansOk(ks);
    PlayedEverywhere(warm, g, SHAPE, Nexts(ks), FEW);
    FollowingEvents(warm, g, ks);
    FollowingLength(ks, g);
  }

  // ---------- runs of every length ----------

  function Same(k: Kind, n: nat): (ks: seq<Kind>)
    ensures |ks| == n
  {
    if n == 0 then [] else Same(k, n - 1) + [k]
  }

  lemma {:induction false} SumSame(k: Kind, n: nat, m: Measure)
    ensures Sum(Same(k, n), m) == Count(k, m) * n
  {
    hide Count;
    if n > 0 {
      SumSame(k, n - 1, m);
      SumMore(Same(k, n - 1), k, m);
      NextMultiple(Count(k, m), n);
    }
  }

  lemma NextMultiple(each: nat, n: nat)
    requires n > 0
    ensures each * n == each * (n - 1) + each
  {
  }

  lemma SumMore(ks: seq<Kind>, k: Kind, m: Measure)
    ensures Sum(ks + [k], m) == Sum(ks, m) + Count(k, m)
  {
    assert (ks + [k])[..|ks|] == ks;
  }

  /** Fours as far as they go, then three or one, and an extra one if the length is even. */
  function KindsFor(n: nat): seq<Kind>
    requires n > 0
  {
    var k, r := (n - 1) / 4, (n - 1) % 4;
    var ks := Same(Quad, k) + [if r >= 2 then Triple else Single];
    if r % 2 == 1 then ks + [Extra] else ks
  }

  lemma KindsSum(n: nat, m: Measure)
    requires n > 0
    ensures var k, r := (n - 1) / 4, (n - 1) % 4;
      && |KindsFor(n)| <= k + 2
      && Sum(KindsFor(n), m) == Count(Quad, m) * k + Count(if r >= 2 then Triple else Single, m)
           + (if r % 2 == 1 then Count(Extra, m) else 0)
  {
    hide Count, Sum;
    var k, r := (n - 1) / 4, (n - 1) % 4;
    var fours, last := Same(Quad, k), if r >= 2 then Triple else Single;
    SumSame(Quad, k, m);
    SumMore(fours, last, m);
    SumMore(fours + [last], Extra, m);
  }

  lemma KindsAddUp(n: nat)
    requires n > 0
    ensures |KindsFor(n)| <= n / 4 + 2
    ensures Sum(KindsFor(n), Accesses) == n && Sum(KindsFor(n), Events) == 3 * n + 1
    ensures 2 * Sum(KindsFor(n), Copies) <= 3 * n + 4
  {
    hide Sum, KindsFor;
    KindsSum(n, Accesses);
    KindsSum(n, Events);
    KindsSum(n, Copies);
  }

  /** The condition under which the audited three events an access hold from warm starts cannot be
      weakened, not even for states that runs from cold caches lead to: for every n such a run leaves
      the least number of dirty copies beyond the condition, and the next n accesses make 3 * n + 1
      events. So it is for every number of sets that has room for the run. */
  lemma WarmBoundIsMet(g: nat, n: nat)
    requires n > 0 && n / 4 + 2 <= g && g * FEW <= LINE_LIMIT
    ensures var y := ColdOneThread(g);
      && SysOk(y) && IsCold(y)
      && exists prefix: seq<Txn>, trace: seq<Txn> ::
           && TidsIn(prefix, 1) && TidsIn(trace, 1) && |trace| == n
           && 3 * n + 3 <= 2 * Dirty(Run(y, prefix).0) <= 3 * n + 4
           && |Run(Run(y, prefix).0, trace).1| == 3 * n + 1
  {
    hide Run, Dirty, SysOk, IsCold, KindsFor, Sum, Priming, Following;
    var y, ks := ColdOneThread(g), KindsFor(n);
    KindsAddUp(n);
    RunOfKinds(g, ks);
    var prefix, trace := Priming(ks, g), Following(ks, g);
    Warm.WarmTrafficBound(Run(y, prefix).0, trace);
    assert 3 * n + 3 <= 2 * Dirty(Run(y, prefix).0) <= 3 * n + 4;
  }

  lemma SinglesAddUp(n: nat)
    ensures Sum(Same(Single, n), Accesses) == n && Sum(Same(Single, n), Events) == 4 * n
    ensures Sum(Same(Single, n), Copies) == 3 * n
  {
    hide Sum;
    SumSame(Single, n, Accesses);
    SumSame(Single, n, Events);
    SumSame(Single, n, Copies);
  }

  /** The bound itself is met with equality: for every n a run from cold caches leaves 3 * n dirty
      copies, and the next n accesses make 4 * n events. */
  lemma WarmRunsExceedTheBound(g: nat, n: nat)
    requires 1 <= n <= g && g * FEW <= LINE_LIMIT
    ensures var y := ColdOneThread(g);
      && SysOk(y) && IsCold(y)
      && exists prefix: seq<Txn>, trace: seq<Txn> ::
           && TidsIn(prefix, 1) && TidsIn(trace, 1) && |trace| == n
           && Dirty(Run(y, prefix).0) == 3 * n && |Run(Run(y, prefix).0, trace).1| == 4 * n > 3 * n
  {
    hide Run, Dirty, SysOk, IsCold, Sum, Priming, Following;
    var y, ks := ColdOneThread(g), Same(Single, n);
    SinglesAddUp(n);
    RunOfKinds(g, ks);
    var prefix, trace := Priming(ks, g), Following(ks, g);
    Warm.WarmTrafficBound(Run(y, prefix).0, trace);
    assert Dirty(Run(y, prefix).0) == 3 * n;
  }
}
