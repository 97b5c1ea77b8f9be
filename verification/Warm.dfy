/** How much a warm start can add to the traffic of a run: a potential over the cache contents that
    every transaction pays for, so that two thirds of the dirty copies held at the start are the
    whole excess over the bound that holds from cold caches. */
module Warm {
  import Counting
  import opened CacheSpec
  import opened Hierarchy
  import opened Lru
  import opened Cascade
  import opened Tokens

  ghost function CleanLines(l: Level): set<Line>
    requires |l.sets| > 0
  {
    set x: Line | Holds(l, x) && !IsDirty(l, x)
  }

  /** Two credits for a dirty copy, less one for every clean copy of a line that is dirty above. */
  ghost function Credit(l: Level, above: set<Line>): int
    requires |l.sets| > 0
  {
    2 * |DirtyLines(l)| - |CleanLines(l) * above|
  }

  /** The line one access displaces, if any. */
  ghost function Gone(l: Level, line: Line): set<Line>
    requires Ok(l)
  {
    match Victim(l, line) case None => {} case Some(v) => {v}
  }

  lemma MemberAfter(l: Level, line: Line, t: AccessType)
    requires Ok(l)
    ensures var (l', o), gone := Access(l, line, t), Gone(l, line);
      && line !in gone && (o.hit <==> Holds(l, line)) && (o.hit ==> gone == {}) && |gone| <= 1
      && (forall x: Line :: IsDirty(l', x) <==> x !in gone && (IsDirty(l, x) || (x == line && t.Write?)))
      && (forall x: Line :: Holds(l', x) <==> x !in gone && (Holds(l, x) || x == line))
      && (if o.wroteBack then gone == {o.wbLine} && IsDirty(l, o.wbLine)
          else forall x :: x in gone ==> Holds(l, x) && !IsDirty(l, x))
      && forall x: Line :: IsDirty(l, x) ==> Holds(l, x)
  {
    Effect(l, line, t);
    hide Access, Ok;
  }

  lemma DirtyAfterAccess(l: Level, line: Line, t: AccessType)
    requires Ok(l)
    ensures var l' := Access(l, line, t).0;
      DirtyLines(l') == if t.Write? then DirtyLines(l) - Gone(l, line) + {line} else DirtyLines(l) - Gone(l, line)
  {
    MemberAfter(l, line, t);
    hide Access, Ok, Holds, IsDirty, Victim, Gone;
  }

  lemma CleanAfterAccess(l: Level, line: Line, t: AccessType)
    requires Ok(l)
    ensures var (l', o) := Access(l, line, t);
      CleanLines(l') == if t.Write? then CleanLines(l) - Gone(l, line) - {line}
                        else if o.hit then CleanLines(l)
                        else CleanLines(l) - Gone(l, line) + {line}
  {
    MemberAfter(l, line, t);
    var (l', o) := Access(l, line, t);
    CleanMember(l);
    CleanMember(l');
    hide Access, Ok, Holds, IsDirty, Victim, Gone, CleanLines;
  }

  lemma CleanMember(l: Level)
    requires |l.sets| > 0
    ensures forall x: Line :: x in CleanLines(l) <==> Holds(l, x) && !IsDirty(l, x)
  {
  }

  lemma Split(l: Level, line: Line)
    requires Ok(l)
    ensures DirtyLines(l) !! CleanLines(l)
    ensures Holds(l, line) <==> line in DirtyLines(l) + CleanLines(l)
    ensures IsDirty(l, line) <==> line in DirtyLines(l)
  {
  }

  lemma Loses<T>(a: set<T>, b: set<T>, lost: set<T>)
    requires a <= b + lost
    ensures |a| <= |b| + |lost|
  {
    Counting.SubsetSize(a, b + lost);
    assert |b + lost| <= |b| + |lost|;
  }

  /** Writing a line that left the level above costs three credits at most, its own two included. */
  lemma WriteCost(l: Level, line: Line, above: set<Line>, above': set<Line>)
    requires Ok(l) && above <= above' + {line}
    ensures var (l', o) := Access(l, line, Write);
      Credit(l', above') + 3 * One(o.wroteBack) <= Credit(l, above) + 3
  {
    var (l', o) := Access(l, line, Write);
    MemberAfter(l, line, Write);
    DirtyAfterAccess(l, line, Write);
    CleanAfterAccess(l, line, Write);
    Split(l, line);
    GoneIsDirtyOrClean(l, line, Write);
    hide Access, Ok, Holds, IsDirty, Victim, Gone, DirtyLines, CleanLines;
    WriteSets(DirtyLines(l), CleanLines(l), Gone(l, line), line, above, above', o.wroteBack);
  }

  lemma GoneIsDirtyOrClean(l: Level, line: Line, t: AccessType)
    requires Ok(l)
    ensures var o, gone := Access(l, line, t).1, Gone(l, line);
      |gone| <= 1 && (o.hit ==> gone == {}) && (o.wroteBack ==> |gone| == 1)
      && if o.wroteBack then gone <= DirtyLines(l) else gone <= CleanLines(l)
  {
    MemberAfter(l, line, t);
    CleanMember(l);
    hide Access, Ok, Holds, Victim, Gone, CleanLines;
  }

  lemma WriteSets(d: set<Line>, c: set<Line>, gone: set<Line>, line: Line, above: set<Line>, above': set<Line>,
      wrote: bool)
    requires d !! c && line !in gone && |gone| <= 1 && above <= above' + {line}
    requires if wrote then gone <= d && |gone| == 1 && line !in d + c else gone <= c && (line in d + c ==> gone == {})
    ensures 2 * |d - gone + {line}| - |(c - gone - {line}) * above'| + 3 * One(wrote) <= 2 * |d| - |c * above| + 3
  {
    var lost := if line in c then {line} else if wrote then {} else gone;
    forall x | x in c * above && x !in lost ensures x in (c - gone - {line}) * above' {}
    Loses(c * above, (c - gone - {line}) * above', lost);
    DirtyLeft(d, c, gone, wrote);
    Insert(d - gone, line);
  }

  lemma DirtyLeft(d: set<Line>, c: set<Line>, gone: set<Line>, wrote: bool)
    requires d !! c && if wrote then gone <= d && |gone| == 1 else gone <= c
    ensures |d - gone| == |d| - One(wrote)
  {
    assert !wrote ==> d - gone == d;
  }

  /** A demand read costs one credit if it misses, and nothing if the line is also stored above. */
  lemma ReadCost(l: Level, line: Line, above: set<Line>, above': set<Line>)
    requires Ok(l) && above <= above'
    ensures var (l', o) := Access(l, line, Read);
      Credit(l', above') + 3 * One(o.wroteBack) <= Credit(l, above) + One(!o.hit && line !in above')
  {
    var (l', o) := Access(l, line, Read);
    ReadContents(l, line);
    var d, c, gone := DirtyLines(l), CleanLines(l), Gone(l, line);
    hide Access, Ok, Gone, DirtyLines, CleanLines;
    if o.hit {
      Loses(c * above, c * above', {});
    } else {
      ReadSets(d, c, gone, line, above, above', o.wroteBack);
    }
  }

  lemma ReadContents(l: Level, line: Line)
    requires Ok(l)
    ensures var (l', o), d, c, gone := Access(l, line, Read), DirtyLines(l), CleanLines(l), Gone(l, line);
      && DirtyLines(l') == d - gone && CleanLines(l') == (if o.hit then c else c - gone + {line})
      && d !! c && line !in gone && |gone| <= 1
      && (if o.hit then !o.wroteBack && gone == {} else line !in d + c)
      && if o.wroteBack then gone <= d && |gone| == 1 else gone <= c
  {
    MemberAfter(l, line, Read);
    DirtyAfterAccess(l, line, Read);
    CleanAfterAccess(l, line, Read);
    Split(l, line);
    GoneIsDirtyOrClean(l, line, Read);
    hide Access, Ok, Holds, IsDirty, Victim, Gone, DirtyLines, CleanLines;
  }

  lemma ReadSets(d: set<Line>, c: set<Line>, gone: set<Line>, line: Line, above: set<Line>, above': set<Line>,
      wrote: bool)
    requires d !! c && line !in gone + d + c && |gone| <= 1 && above <= above'
    requires if wrote then gone <= d && |gone| == 1 else gone <= c
    ensures 2 * |d - gone| - |(c - gone + {line}) * above'| + 3 * One(wrote)
      <= 2 * |d| - |c * above| + One(line !in above')
  {
    var lost := if wrote then {} else gone;
    KeptBelow(c, gone, lost, above, above');
    Loses(c * above, (c - gone) * above', lost);
    DirtyLeft(d, c, gone, wrote);
    OneMore(c - gone, line, above');
  }

  lemma KeptBelow(c: set<Line>, gone: set<Line>, lost: set<Line>, above: set<Line>, above': set<Line>)
    requires above <= above' && gone * c <= lost
    ensures c * above <= (c - gone) * above' + lost
  {
  }

  lemma OneMore(c: set<Line>, line: Line, above: set<Line>)
    requires line !in c
    ensures |(c + {line}) * above| == |c * above| + One(line in above)
  {
    if line in above {
      assert (c + {line}) * above == c * above + {line};
    } else {
      assert (c + {line}) * above == c * above;
    }
  }

  lemma CreditFalls(l: Level, above: set<Line>, above': set<Line>)
    requires |l.sets| > 0 && above <= above'
    ensures Credit(l, above') <= Credit(l, above)
  {
    Loses(CleanLines(l) * above, CleanLines(l) * above', {});
  }

  // ---------- one thread ----------

  ghost function DirtyAbove(p: Private): set<Line>
    requires PrivateOk(p)
  {
    DirtyLines(p.l1) + DirtyLines(p.l2)
  }

  ghost function Value(p: Private): int
    requires PrivateOk(p)
  {
    2 * |DirtyLines(p.l1)| + Credit(p.l2, DirtyLines(p.l1))
  }

  function Out(o: Outcome): set<Line> {
    if o.wroteBack then {o.wbLine} else {}
  }

  lemma FirstLevel(l: Level, line: Line, t: AccessType)
    requires Ok(l)
    ensures var (l', o), d := Access(l, line, t), DirtyLines(l);
      && Out(o) <= d && |d - Out(o)| == |d| - One(o.wroteBack)
      && DirtyLines(l') == (if t.Write? then d - Out(o) + {line} else d - Out(o))
      && (!o.hit ==> line !in d) && (o.hit ==> !o.wroteBack)
  {
    Effect(l, line, t);
    var (l', o) := Access(l, line, t);
    CarriedWasDirty(l, line, t, l', o);
    DirtyLinesAfter(l, line, t, l', o);
    MissIsNotDirty(l, line, t);
    hide Access, Ok, Effects, DirtyLines;
    assert !o.wroteBack ==> DirtyLines(l) - {} == DirtyLines(l);
  }

  lemma MissIsNotDirty(l: Level, line: Line, t: AccessType)
    requires Ok(l)
    ensures var o := Access(l, line, t).1; (!o.hit ==> line !in DirtyLines(l)) && (o.hit ==> !o.wroteBack)
  {
    MemberAfter(l, line, t);
    hide Access, Ok, Holds, Victim;
  }

  lemma SecondLevel(l2: Level, first: Outcome, line: Line, d: set<Line>, d': set<Line>)
    requires Ok(l2) && !first.hit && Out(first) <= d && d - Out(first) <= d'
    ensures var (l', eviction, demand) := L2Step(l2, first, line);
      && Credit(l', d') + 3 * One(eviction.wroteBack) + 3 * One(demand.wroteBack)
           <= Credit(l2, d) + 3 * One(first.wroteBack) + One(!demand.hit && line !in d')
      && DirtyLines(l2) + Out(first) <= DirtyLines(l') + Out(eviction) + Out(demand)
  {
    var e := d - Out(first);
    var m := if first.wroteBack then Access(l2, first.wbLine, Write).0 else l2;
    if first.wroteBack {
      WriteCost(l2, first.wbLine, d, e);
      FirstLevel(l2, first.wbLine, Write);
    } else {
      assert e == d;
    }
    ReadCost(m, line, e, d');
    FirstLevel(m, line, Read);
  }

  lemma PrivateCost(p: Private, line: Line, t: AccessType)
    requires PrivateOk(p)
    ensures var (p', r) := PrivateStep(p, line, t);
      && Value(p') + 3 * One(r.eviction.wroteBack) + 3 * One(r.demand.wroteBack)
           <= Value(p) + 3 - One(!r.demand.hit && t.Read?)
      && DirtyAbove(p) <= DirtyAbove(p') + Out(r.eviction) + Out(r.demand)
      && (t.Write? ==> line in DirtyAbove(p'))
  {
    if Access(p.l1, line, t).1.hit { HitCost(p, line, t); } else { MissCost(p, line, t); }
  }

  /** A hit in L1 can only add a dirty copy of the line, at two credits. */
  lemma HitCost(p: Private, line: Line, t: AccessType)
    requires PrivateOk(p) && Access(p.l1, line, t).1.hit
    ensures var p' := PrivateStep(p, line, t).0;
      && Value(p') <= Value(p) + 2
      && DirtyAbove(p) <= DirtyAbove(p') && (t.Write? ==> line in DirtyAbove(p'))
  {
    FirstLevel(p.l1, line, t);
    var (l1, first) := Access(p.l1, line, t);
    var d, d' := DirtyLines(p.l1), DirtyLines(l1);
    hide Access, Ok, DirtyLines, Credit;
    assert d - {} == d;
    Insert(d, line);
    CreditFalls(p.l2, d, d');
  }

  lemma MissCost(p: Private, line: Line, t: AccessType)
    requires PrivateOk(p) && !Access(p.l1, line, t).1.hit
    ensures var (p', r) := PrivateStep(p, line, t);
      && Value(p') + 3 * One(r.eviction.wroteBack) + 3 * One(r.demand.wroteBack)
           <= Value(p) + 3 - One(!r.demand.hit && t.Read?)
      && DirtyAbove(p) <= DirtyAbove(p') + Out(r.eviction) + Out(r.demand)
      && (t.Write? ==> line in DirtyAbove(p'))
  {
    hide Access, SetOk, DirtyLines, Credit, L2Step, Out;
    FirstLevel(p.l1, line, t);
    var (l1, first) := Access(p.l1, line, t);
    var d, d' := DirtyLines(p.l1), DirtyLines(l1);
    StoredAbove(d, Out(first), line, t, d');
    SecondLevel(p.l2, first, line, d, d');
    var (l2, eviction, demand) := L2Step(p.l2, first, line);
    UnionsBelow(d, DirtyLines(p.l2), Out(first), d', DirtyLines(l2), Out(eviction), Out(demand));
  }

  /** What remains above after a miss, and its number. */
  lemma StoredAbove(d: set<Line>, gone: set<Line>, line: Line, t: AccessType, d': set<Line>)
    requires gone <= d && line !in d && d' == if t.Write? then d - gone + {line} else d - gone
    ensures d - gone <= d' && d <= d' + gone && (line in d' <==> t.Write?)
    ensures |d'| == |d - gone| + One(t.Write?)
  {
    Insert(d - gone, line);
  }

  lemma UnionsBelow(d: set<Line>, d2: set<Line>, gone: set<Line>, d': set<Line>, d2': set<Line>,
      out1: set<Line>, out2: set<Line>)
    requires d <= d' + gone && d2 + gone <= d2' + out1 + out2
    ensures d + d2 <= d' + d2' + out1 + out2
  {
  }

  // ---------- the shared level ----------

  lemma OutgoingCost(llc: Level, o: Outcome, above: set<Line>, above': set<Line>)
    requires Ok(llc) && above <= above' + Out(o)
    ensures var (llc', es) := Outgoing(llc, o);
      Credit(llc', above') + 3 * Writebacks(es) <= Credit(llc, above) + 3 * One(o.wroteBack)
  {
    if o.wroteBack {
      WriteCost(llc, o.wbLine, above, above');
      OneEvent(Event(Access(llc, o.wbLine, Write).1.wbLine, true));
    } else {
      assert above' + {} == above';
      CreditFalls(llc, above, above');
    }
  }

  lemma OneEvent(e: Event)
    ensures Writebacks([e]) == One(e.write)
  {
    assert [e][..0] == [];
  }

  lemma FillCost(llc: Level, line: Line, above: set<Line>, above': set<Line>)
    requires Ok(llc) && above <= above'
    ensures var (llc', es) := DemandFill(llc, line);
      Credit(llc', above') + 3 * Writebacks(es) <= Credit(llc, above) + One(line !in above')
  {
    ReadCost(llc, line, above, above');
    var o := Access(llc, line, Read).1;
    OneEvent(Event(o.wbLine, true));
    OneEvent(Event(line, false));
    CountConcat(if o.wroteBack then [Event(o.wbLine, true)] else [], if o.hit then [] else [Event(line, false)]);
  }

  lemma SharedCost(llc: Level, line: Line, r: PrivateResult, above: set<Line>, above': set<Line>)
    requires Ok(llc) && above <= above' + Out(r.eviction) + Out(r.demand)
    ensures var (llc', es) := SharedStep(llc, line, r);
      Credit(llc', above') + 3 * Writebacks(es)
        <= Credit(llc, above) + 3 * One(r.eviction.wroteBack) + 3 * One(r.demand.wroteBack)
           + One(!r.demand.hit && line !in above')
  {
    var mid := above' + Out(r.demand);
    OutgoingCost(llc, r.eviction, above, mid);
    var (c1, e1) := Outgoing(llc, r.eviction);
    OutgoingCost(c1, r.demand, mid, above');
    var (c2, e2) := Outgoing(c1, r.demand);
    CountConcat(e1, e2);
    if !r.demand.hit {
      FillCost(c2, line, above', above');
      CountConcat(e1 + e2, DemandFill(c2, line).1);
    }
  }

  // ---------- the whole system ----------

  ghost function AllValues(ps: seq<Private>): int
    requires forall i :: 0 <= i < |ps| ==> PrivateOk(ps[i])
  {
    if ps == [] then 0 else Value(ps[0]) + AllValues(ps[1..])
  }

  ghost function AllDirtyAbove(ps: seq<Private>): set<Line>
    requires forall i :: 0 <= i < |ps| ==> PrivateOk(ps[i])
  {
    if ps == [] then {} else DirtyAbove(ps[0]) + AllDirtyAbove(ps[1..])
  }

  /** Two credits for every dirty copy anywhere, less one for every line that L2 holds clean under a
      dirty L1 copy and one for every line that the LLC holds clean under a dirty private copy. */
  ghost function Credits(y: Sys): int
    requires SysOk(y)
  {
    Credit(y.llc, AllDirtyAbove(y.threads)) + AllValues(y.threads)
  }

  lemma {:induction false} OneThreadChanged(ps: seq<Private>, i: nat, p: Private)
    requires i < |ps| && PrivateOk(p) && forall j :: 0 <= j < |ps| ==> PrivateOk(ps[j])
    ensures var qs := ps[i := p]; forall j :: 0 <= j < |qs| ==> PrivateOk(qs[j])
    ensures AllValues(ps[i := p]) == AllValues(ps) - Value(ps[i]) + Value(p)
    ensures AllDirtyAbove(ps) <= AllDirtyAbove(ps[i := p]) + (DirtyAbove(ps[i]) - DirtyAbove(p))
    ensures DirtyAbove(p) <= AllDirtyAbove(ps[i := p])
  {
    hide Value, DirtyAbove, PrivateOk;
    var qs := ps[i := p];
    if i == 0 {
      assert qs[1..] == ps[1..];
    } else {
      assert qs[1..] == ps[1..][i - 1 := p];
      OneThreadChanged(ps[1..], i - 1, p);
    }
  }

  /** A transaction earns three credits and each writeback to memory spends three. */
  lemma TxnCredits(y: Sys, x: Txn)
    requires SysOk(y) && x.tid < |y.threads|
    ensures var (y', es) := Step(y, x); Credits(y') + 3 * Writebacks(es) <= Credits(y) + 3
  {
    var (p, r) := PrivateStep(y.threads[x.tid], x.line, x.t);
    var ps := y.threads[x.tid := p];
    PrivateCost(y.threads[x.tid], x.line, x.t);
    OneThreadChanged(y.threads, x.tid, p);
    SharedCost(y.llc, x.line, r, AllDirtyAbove(y.threads), AllDirtyAbove(ps));
  }

  lemma {:induction false} RunCredits(y: Sys, trace: seq<Txn>)
    requires SysOk(y) && TidsIn(trace, |y.threads|)
    ensures var (y', es) := Run(y, trace); Credits(y') + 3 * Writebacks(es) <= Credits(y) + 3 * |trace|
  {
    if trace != [] {
      var init, x := trace[..|trace| - 1], trace[|trace| - 1];
      RunCredits(y, init);
      TxnCredits(Run(y, init).0, x);
      CountConcat(Run(y, init).1, Step(Run(y, init).0, x).1);
    }
  }

  lemma ValueBounds(p: Private)
    requires PrivateOk(p)
    ensures |DirtyAbove(p)| <= Value(p) <= 2 * PrivateDirty(p)
  {
    hide DirtyLines, CleanLines;
    Loses(CleanLines(p.l2) * DirtyLines(p.l1), DirtyLines(p.l1), {});
    assert |DirtyAbove(p)| <= |DirtyLines(p.l1)| + |DirtyLines(p.l2)|;
  }

  lemma {:induction false} AllValueBounds(ps: seq<Private>)
    requires forall i :: 0 <= i < |ps| ==> PrivateOk(ps[i])
    ensures |AllDirtyAbove(ps)| <= AllValues(ps) <= 2 * AllPrivateDirty(ps)
  {
    if ps != [] {
      ValueBounds(ps[0]);
      AllValueBounds(ps[1..]);
      assert |AllDirtyAbove(ps)| <= |DirtyAbove(ps[0])| + |AllDirtyAbove(ps[1..])|;
    }
  }

  lemma CreditBounds(y: Sys)
    requires SysOk(y)
    ensures 0 <= Credits(y) <= 2 * Dirty(y)
  {
    hide DirtyLines, CleanLines;
    AllValueBounds(y.threads);
    var above := AllDirtyAbove(y.threads);
    Loses(CleanLines(y.llc) * above, above, {});
  }

  /** From a warm start two thirds of the dirty copies held are the whole excess over the bound that
      holds from cold caches, and the audited three events an access hold over every run long enough
      for the start: 2 * Dirty(y) <= 3 * |trace| + 2. */
  lemma WarmTrafficBound(y: Sys, trace: seq<Txn>)
    requires SysOk(y) && TidsIn(trace, |y.threads|)
    ensures 3 * |Run(y, trace).1| <= 6 * |trace| + 2 * Dirty(y)
    ensures 2 * Dirty(y) <= 3 * |trace| + 2 ==> |Run(y, trace).1| <= 3 * |trace|
  {
    RunCredits(y, trace);
    CreditBounds(y);
    CreditBounds(Run(y, trace).0);
    Conservation(y, trace);
    EventsSplit(Run(y, trace).1);
  }
}
