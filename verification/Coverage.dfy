/** Which lines reach memory over a whole run: a line's first reference misses every level. */
module Coverage {
  import opened CacheSpec
  import opened Hierarchy
  import opened Cascade
  import Tokens

  ghost predicate HeldIn(l: Level, s: set<Line>)
    requires Ok(l)
  {
    forall x: Line :: Holds(l, x) ==> x in s
  }

  ghost predicate PrivateIn(p: Private, s: set<Line>)
    requires PrivateOk(p)
  {
    HeldIn(p.l1, s) && HeldIn(p.l2, s)
  }

  /** Every copy anywhere in the system is of a line in s. */
  ghost predicate AllIn(y: Sys, s: set<Line>)
    requires SysOk(y)
  {
    HeldIn(y.llc, s) && forall i :: 0 <= i < |y.threads| ==> PrivateIn(y.threads[i], s)
  }

  function Accessed(trace: seq<Txn>): set<Line> {
    set i | 0 <= i < |trace| :: trace[i].line
  }

  function FillLines(es: seq<Event>): set<Line> {
    set i | 0 <= i < |es| && !es[i].write :: es[i].line
  }

  function TrafficLines(es: seq<Event>): set<Line> {
    set i | 0 <= i < |es| :: es[i].line
  }

  lemma AccessIn(l: Level, line: Line, t: AccessType, s: set<Line>)
    requires Ok(l) && HeldIn(l, s)
    ensures var (l', o) := Access(l, line, t);
      && HeldIn(l', s + {line})
      && (o.hit ==> line in s)
      && (o.wroteBack ==> o.wbLine in s)
  {
    Effect(l, line, t);
    AfterIn(l, line, t, Access(l, line, t).0, Access(l, line, t).1, s);
  }

  lemma AfterIn(l: Level, line: Line, t: AccessType, l': Level, o: Outcome, s: set<Line>)
    requires Ok(l) && Ok(l') && HeldIn(l, s) && Effects(l, line, t, l', o)
    ensures HeldIn(l', s + {line})
    ensures (o.hit ==> line in s) && (o.wroteBack ==> o.wbLine in s)
  {
  }

  lemma PrivateStepIn(p: Private, line: Line, t: AccessType, s: set<Line>)
    requires PrivateOk(p) && PrivateIn(p, s)
    ensures var (p', r) := PrivateStep(p, line, t);
      && PrivateIn(p', s + {line})
      && (r.eviction.wroteBack ==> r.eviction.wbLine in s)
      && (r.demand.wroteBack ==> r.demand.wbLine in s)
      && (r.demand.hit ==> line in s)
  {
    AccessIn(p.l1, line, t, s);
    var first := Access(p.l1, line, t).1;
    if !first.hit {
      if first.wroteBack { AccessIn(p.l2, first.wbLine, Write, s); }
      var l2 := if first.wroteBack then Access(p.l2, first.wbLine, Write).0 else p.l2;
      assert s + {first.wbLine} == s || !first.wroteBack;
      AccessIn(l2, line, Read, s);
    }
  }

  ghost predicate EventsIn(es: seq<Event>, s: set<Line>) {
    forall i :: 0 <= i < |es| ==> es[i].line in s
  }

  lemma OutgoingIn(llc: Level, o: Outcome, s: set<Line>)
    requires Ok(llc) && HeldIn(llc, s) && (o.wroteBack ==> o.wbLine in s)
    ensures HeldIn(Outgoing(llc, o).0, s)
    ensures EventsIn(Outgoing(llc, o).1, s) && FillLines(Outgoing(llc, o).1) == {}
  {
    if o.wroteBack {
      AccessIn(llc, o.wbLine, Write, s);
      assert s + {o.wbLine} == s;
    }
  }

  lemma DemandIn(llc: Level, line: Line, s: set<Line>)
    requires Ok(llc) && HeldIn(llc, s)
    ensures var (llc', es) := DemandFill(llc, line);
      && HeldIn(llc', s + {line}) && EventsIn(es, s + {line})
      && FillLines(es) <= {line} && (line !in s ==> line in FillLines(es))
  {
    AccessIn(llc, line, Read, s);
    var fill := Access(llc, line, Read).1;
    var es := DemandFill(llc, line).1;
    if !fill.hit { assert es[|es| - 1] == Event(line, false); }
  }

  lemma LinesConcat(a: seq<Event>, b: seq<Event>)
    ensures FillLines(a + b) == FillLines(a) + FillLines(b)
    ensures TrafficLines(a + b) == TrafficLines(a) + TrafficLines(b)
  {
    var c := a + b;
    assert forall i :: 0 <= i < |a| ==> c[i] == a[i];
    assert forall i :: 0 <= i < |b| ==> c[|a| + i] == b[i];
  }

  lemma SharedIn(llc: Level, line: Line, r: PrivateResult, s: set<Line>)
    requires Ok(llc) && HeldIn(llc, s)
    requires r.eviction.wroteBack ==> r.eviction.wbLine in s
    requires r.demand.wroteBack ==> r.demand.wbLine in s
    requires r.demand.hit ==> line in s
    ensures var (llc', es) := SharedStep(llc, line, r);
      && HeldIn(llc', s + {line}) && EventsIn(es, s + {line})
      && FillLines(es) <= {line} && (line !in s ==> line in FillLines(es))
  {
    var (c1, e1) := Outgoing(llc, r.eviction);
    var (c2, e2) := Outgoing(c1, r.demand);
    OutgoingIn(llc, r.eviction, s);
    OutgoingIn(c1, r.demand, s);
    LinesConcat(e1, e2);
    if !r.demand.hit {
      DemandIn(c2, line, s);
      LinesConcat(e1 + e2, DemandFill(c2, line).1);
    }
  }

  lemma StepIn(y: Sys, x: Txn, s: set<Line>)
    requires SysOk(y) && x.tid < |y.threads| && AllIn(y, s)
    ensures var (y', es) := Step(y, x);
      && AllIn(y', s + {x.line}) && EventsIn(es, s + {x.line})
      && FillLines(es) <= {x.line} && (x.line !in s ==> x.line in FillLines(es))
  {
    PrivateStepIn(y.threads[x.tid], x.line, x.t, s);
    SharedIn(y.llc, x.line, PrivateStep(y.threads[x.tid], x.line, x.t).1, s);
  }

  /** Over any run that starts with copies of lines in `warm` only: every fill is of an accessed
      line, every accessed line outside `warm` is filled, and no other line appears in the traffic. */
  lemma {:induction false} LinesOfRun(y: Sys, trace: seq<Txn>, warm: set<Line>)
    requires SysOk(y) && TidsIn(trace, |y.threads|) && AllIn(y, warm)
    ensures var (y', es) := Run(y, trace);
      && AllIn(y', warm + Accessed(trace))
      && Accessed(trace) - warm <= FillLines(es) <= Accessed(trace)
      && TrafficLines(es) <= warm + Accessed(trace)
  {
    if trace == [] {
      assert warm + Accessed(trace) == warm;
    } else {
      var init, x := trace[..|trace| - 1], trace[|trace| - 1];
      LinesOfRun(y, init, warm);
      var (y', es) := Run(y, init);
      var s := warm + Accessed(init);
      StepIn(y', x, s);
      LinesConcat(es, Step(y', x).1);
      AccessedInit(trace);
      assert s + {x.line} == warm + Accessed(trace);
    }
  }

  lemma AccessedInit(trace: seq<Txn>)
    requires trace != []
    ensures Accessed(trace) == Accessed(trace[..|trace| - 1]) + {trace[|trace| - 1].line}
  {
    var init := trace[..|trace| - 1];
    assert forall i :: 0 <= i < |init| ==> init[i] == trace[i];
  }

  /** From cold caches the whole-run line sets of accesses, fills and traffic are the same. */
  lemma ColdLineSetsAgree(y: Sys, trace: seq<Txn>)
    requires SysOk(y) && TidsIn(trace, |y.threads|) && Tokens.IsCold(y)
    ensures FillLines(Run(y, trace).1) == Accessed(trace)
    ensures TrafficLines(Run(y, trace).1) == Accessed(trace)
  {
    forall i | 0 <= i < |y.threads| ensures PrivateIn(y.threads[i], {}) {
      assert Tokens.IsColdPrivate(y.threads[i]);
    }
    LinesOfRun(y, trace, {});
    assert forall es :: FillLines(es) <= TrafficLines(es);
  }
}
