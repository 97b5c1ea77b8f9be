/** The L1/L2/LLC cascade: private work on a thread's own levels, then the shared transaction. */
module Hierarchy {
  import opened CacheSpec
  import opened CacheModel

  datatype PrivateResult = PrivateResult(eviction: Outcome, demand: Outcome, visitedL2: bool)

  datatype Private = Private(l1: Level, l2: Level)

  const Quiet := Outcome(true, false, 0)

  ghost predicate PrivateOk(p: Private) {
    Ok(p.l1) && Ok(p.l2)
  }

  /** L2's part of an L1 miss: the dirty L1 victim is written first, then the line is read. */
  function L2Step(l2: Level, first: Outcome, line: Line): (r: (Level, Outcome, Outcome))
    requires Ok(l2)
    ensures Ok(r.0)
  {
    var (l2', eviction) := if first.wroteBack then Access(l2, first.wbLine, Write) else (l2, Quiet);
    var (l2'', demand) := Access(l2', line, Read);
    (l2'', eviction, demand)
  }

  function PrivateStep(p: Private, line: Line, t: AccessType): (r: (Private, PrivateResult))
    requires PrivateOk(p)
    ensures PrivateOk(r.0)
  {
    var (l1, first) := Access(p.l1, line, t);
    if first.hit then (Private(l1, p.l2), PrivateResult(Quiet, Quiet, false))
    else
      var (l2, eviction, demand) := L2Step(p.l2, first, line);
      (Private(l1, l2), PrivateResult(eviction, demand, true))
  }

  /** A line leaving L2 is written to the LLC, which may push another line to memory. */
  function Outgoing(llc: Level, o: Outcome): (r: (Level, seq<Event>))
    requires Ok(llc)
    ensures Ok(r.0)
  {
    if !o.wroteBack then (llc, [])
    else
      var (llc', wb) := Access(llc, o.wbLine, Write);
      (llc', if wb.wroteBack then [Event(wb.wbLine, true)] else [])
  }

  function DemandFill(llc: Level, line: Line): (r: (Level, seq<Event>))
    requires Ok(llc)
    ensures Ok(r.0)
  {
    var (llc', fill) := Access(llc, line, Read);
    (llc', (if fill.wroteBack then [Event(fill.wbLine, true)] else []) + if fill.hit then [] else [Event(line, false)])
  }

  function SharedStep(llc: Level, line: Line, r: PrivateResult): (s: (Level, seq<Event>))
    requires Ok(llc)
    ensures Ok(s.0)
  {
    var (c1, e1) := Outgoing(llc, r.eviction);
    var (c2, e2) := Outgoing(c1, r.demand);
    if r.demand.hit then (c2, e1 + e2)
    else
      var (c3, e3) := DemandFill(c2, line);
      (c3, e1 + e2 + e3)
  }

  method VisitL2(l2: CacheLevel, first: Outcome, line: Line) returns (eviction: Outcome, demand: Outcome)
    requires l2.Valid()
    modifies l2.Repr()
    ensures l2.Valid() && l2.Repr() == old(l2.Repr())
    ensures (l2.View(), eviction, demand) == L2Step(old(l2.View()), first, line)
  {
    hide l2.Valid, l2.View, CacheSpec.Access;
    eviction := Quiet;
    if first.wroteBack { eviction := l2.Access(first.wbLine, Write); }
    demand := l2.Access(line, Read);
  }

  method AccessPrivate(l1: CacheLevel, l2: CacheLevel, line: Line, t: AccessType) returns (r: PrivateResult)
    requires l1.Valid() && l2.Valid() && l1.Repr() !! l2.Repr()
    modifies l1.Repr(), l2.Repr()
    ensures l1.Valid() && l2.Valid() && l1.Repr() == old(l1.Repr()) && l2.Repr() == old(l2.Repr())
    ensures (Private(l1.View(), l2.View()), r) == PrivateStep(old(Private(l1.View(), l2.View())), line, t)
  {
    hide l1.Valid, l1.View, L2Step, CacheSpec.Access;
    var first := l1.Access(line, t);
    if first.hit {
      r := PrivateResult(Quiet, Quiet, false);
    } else {
      var eviction, demand := VisitL2(l2, first, line);
      r := PrivateResult(eviction, demand, true);
    }
  }

  method SendOut(llc: CacheLevel, o: Outcome) returns (events: seq<Event>)
    requires llc.Valid()
    modifies llc.Repr()
    ensures llc.Valid() && llc.Repr() == old(llc.Repr())
    ensures (llc.View(), events) == Outgoing(old(llc.View()), o)
  {
    events := [];
    if o.wroteBack {
      var wb := llc.Access(o.wbLine, Write);
      if wb.wroteBack { events := [Event(wb.wbLine, true)]; }
    }
  }

  method Demand(llc: CacheLevel, line: Line) returns (events: seq<Event>)
    requires llc.Valid()
    modifies llc.Repr()
    ensures llc.Valid() && llc.Repr() == old(llc.Repr())
    ensures (llc.View(), events) == DemandFill(old(llc.View()), line)
  {
    var fill := llc.Access(line, Read);
    events := if fill.wroteBack then [Event(fill.wbLine, true)] else [];
    events := events + if fill.hit then [] else [Event(line, false)];
  }

  /** The two outgoing lines in order, then the demand fill; the events are returned in the order
      the recorder is called. */
  method AccessShared(llc: CacheLevel, line: Line, r: PrivateResult) returns (events: seq<Event>)
    requires llc.Valid()
    modifies llc.Repr()
    ensures llc.Valid() && llc.Repr() == old(llc.Repr())
    ensures (llc.View(), events) == SharedStep(old(llc.View()), line, r)
  {
    events := SendOut(llc, r.eviction);
    var more := SendOut(llc, r.demand);
    events := events + more;
    if !r.demand.hit {
      more := Demand(llc, line);
      events := events + more;
    }
  }
}
