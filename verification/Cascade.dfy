/** Whole runs of the cascade: any number of threads, one shared LLC, transactions in lock order. */
module Cascade {
  import opened CacheSpec
  import opened Hierarchy
  import opened Lru

  datatype Txn = Txn(tid: nat, line: Line, t: AccessType)

  datatype Sys = Sys(threads: seq<Private>, llc: Level)

  ghost predicate SysOk(y: Sys) {
    Ok(y.llc) && forall i :: 0 <= i < |y.threads| ==> PrivateOk(y.threads[i])
  }

  ghost predicate TidsIn(trace: seq<Txn>, threads: nat) {
    forall i :: 0 <= i < |trace| ==> trace[i].tid < threads
  }

  function Step(y: Sys, x: Txn): (r: (Sys, seq<Event>))
    requires SysOk(y) && x.tid < |y.threads|
    ensures SysOk(r.0) && |r.0.threads| == |y.threads|
  {
    var (p, res) := PrivateStep(y.threads[x.tid], x.line, x.t);
    var (llc, events) := SharedStep(y.llc, x.line, res);
    (Sys(y.threads[x.tid := p], llc), events)
  }

  /** The state after a trace and all DRAM events of it in order. */
  function Run(y: Sys, trace: seq<Txn>): (r: (Sys, seq<Event>))
    requires SysOk(y) && TidsIn(trace, |y.threads|)
    ensures SysOk(r.0) && |r.0.threads| == |y.threads|
  {
    if trace == [] then (y, [])
    else
      var (y', events) := Run(y, trace[..|trace| - 1]);
      var (y'', more) := Step(y', trace[|trace| - 1]);
      (y'', events + more)
  }

  lemma {:induction false} RunAppend(y: Sys, a: seq<Txn>, b: seq<Txn>)
    requires SysOk(y) && TidsIn(a, |y.threads|) && TidsIn(b, |y.threads|)
    ensures TidsIn(a + b, |y.threads|)
    ensures Run(y, a + b).0 == Run(Run(y, a).0, b).0
    ensures Run(y, a + b).1 == Run(y, a).1 + Run(Run(y, a).0, b).1
    decreases |b|
  {
    TidsJoin(a, b, |y.threads|);
    hide Step, SysOk, Run, TidsIn;
    if b == [] {
      assert a + b == a;
      RunNothing(Run(y, a).0);
      NoMore(Run(y, a).1);
    } else {
      var init, x := b[..|b| - 1], b[|b| - 1];
      RunAppend(y, a, init);
      FrontOfJoin(a, b);
      RunUnfolds(y, a + b);
      RunUnfolds(Run(y, a).0, b);
      Associate(Run(y, a).1, Run(Run(y, a).0, init).1, Step(Run(y, a + init).0, x).1);
    }
  }

  lemma RunNothing(y: Sys)
    requires SysOk(y)
    ensures Run(y, []) == (y, [])
  {
  }

  lemma NoMore(es: seq<Event>)
    ensures es + [] == es
  {
  }

  lemma FrontOfJoin(a: seq<Txn>, b: seq<Txn>)
    requires b != []
    ensures (a + b)[..|a + b| - 1] == a + b[..|b| - 1] && (a + b)[|a + b| - 1] == b[|b| - 1]
  {
  }

  lemma TidsJoin(a: seq<Txn>, b: seq<Txn>, threads: nat)
    requires TidsIn(a, threads) && TidsIn(b, threads)
    ensures TidsIn(a + b, threads)
    ensures b != [] ==> TidsIn(b[..|b| - 1], threads) && b[|b| - 1].tid < threads
  {
  }

  lemma RunUnfolds(y: Sys, trace: seq<Txn>)
    requires SysOk(y) && TidsIn(trace, |y.threads|) && trace != []
    ensures var (y', es) := Run(y, trace[..|trace| - 1]); var x := trace[|trace| - 1];
      Run(y, trace) == (Step(y', x).0, es + Step(y', x).1)
  {
    hide Step, SysOk;
  }

  // ---------- the LLC as a server of requests ----------

  /** The requests one transaction sends to the LLC. They depend on private outcomes only. */
  function Requests(line: Line, r: PrivateResult): seq<Ref> {
    (if r.eviction.wroteBack then [Ref(r.eviction.wbLine, Write)] else [])
    + (if r.demand.wroteBack then [Ref(r.demand.wbLine, Write)] else [])
    + if r.demand.hit then [] else [Ref(line, Read)]
  }

  function Serve(llc: Level, q: Ref): (r: (Level, seq<Event>))
    requires Ok(llc)
    ensures Ok(r.0)
  {
    var (llc', o) := Access(llc, q.line, q.t);
    (llc', (if o.wroteBack then [Event(o.wbLine, true)] else [])
           + if q.t.Read? && !o.hit then [Event(q.line, false)] else [])
  }

  function ServeAll(llc: Level, qs: seq<Ref>): (r: (Level, seq<Event>))
    requires Ok(llc)
    ensures Ok(r.0)
    decreases qs
  {
    if qs == [] then (llc, [])
    else
      var (llc', e) := Serve(llc, qs[0]);
      var (llc'', es) := ServeAll(llc', qs[1..]);
      (llc'', e + es)
  }

  lemma {:induction false} ServeConcat(llc: Level, a: seq<Ref>, b: seq<Ref>)
    requires Ok(llc)
    ensures var (l1, e1) := ServeAll(llc, a);
      var (l2, e2) := ServeAll(l1, b);
      ServeAll(llc, a + b) == (l2, e1 + e2)
    decreases a
  {
    if a == [] {
      assert a + b == b;
      assert [] + ServeAll(llc, b).1 == ServeAll(llc, b).1;
    } else {
      var llc' := Serve(llc, a[0]).0;
      ServeConcat(llc', a[1..], b);
      ServeFirst(llc, a);
      ServeFirst(llc, a + b);
      assert (a + b)[1..] == a[1..] + b && (a + b)[0] == a[0];
      Associate(Serve(llc, a[0]).1, ServeAll(llc', a[1..]).1, ServeAll(ServeAll(llc, a).0, b).1);
    }
  }

  lemma ServeFirst(llc: Level, qs: seq<Ref>)
    requires Ok(llc) && qs != []
    ensures var (llc', e) := Serve(llc, qs[0]);
      ServeAll(llc, qs) == (ServeAll(llc', qs[1..]).0, e + ServeAll(llc', qs[1..]).1)
  {
  }

  lemma Associate(a: seq<Event>, b: seq<Event>, c: seq<Event>)
    ensures (a + b) + c == a + (b + c)
  {
  }

  lemma ServeOne(llc: Level, q: Ref)
    requires Ok(llc)
    ensures ServeAll(llc, [q]) == Serve(llc, q)
  {
    assert [q][1..] == [];
    var (llc', e) := Serve(llc, q);
    assert e + [] == e;
  }

  /** The shared half of a transaction is exactly the serving of its requests. */
  lemma SharedServes(llc: Level, line: Line, r: PrivateResult)
    requires Ok(llc)
    ensures SharedStep(llc, line, r) == ServeAll(llc, Requests(line, r))
  {
    hide ServeAll, Outgoing, DemandFill, Ok;
    var a := if r.eviction.wroteBack then [Ref(r.eviction.wbLine, Write)] else [];
    var b := if r.demand.wroteBack then [Ref(r.demand.wbLine, Write)] else [];
    var c := if r.demand.hit then [] else [Ref(line, Read)];
    OutgoingServes(llc, r.eviction);
    ServeConcat(llc, a, b);
    OutgoingServes(ServeAll(llc, a).0, r.demand);
    ServeConcat(llc, a + b, c);
    DemandServes(ServeAll(llc, a + b).0, line, r.demand.hit, ServeAll(llc, a + b).1);
  }

  lemma DemandServes(llc: Level, line: Line, hit: bool, es: seq<Event>)
    requires Ok(llc)
    ensures var (l, more) := ServeAll(llc, if hit then [] else [Ref(line, Read)]);
      (l, es + more) == if hit then (llc, es) else (DemandFill(llc, line).0, es + DemandFill(llc, line).1)
  {
    hide Access, Ok;
    if hit {
      assert es + [] == es;
    } else {
      ServeOne(llc, Ref(line, Read));
    }
  }

  lemma OutgoingServes(llc: Level, o: Outcome)
    requires Ok(llc)
    ensures Outgoing(llc, o) == ServeAll(llc, if o.wroteBack then [Ref(o.wbLine, Write)] else [])
  {
    if o.wroteBack {
      ServeOne(llc, Ref(o.wbLine, Write));
      var w := Access(llc, o.wbLine, Write).1;
      var e := if w.wroteBack then [Event(w.wbLine, true)] else [];
      assert e + [] == e;
    }
  }

  // ---------- counting events ----------

  function Writebacks(es: seq<Event>): nat {
    if es == [] then 0 else Writebacks(es[..|es| - 1]) + One(es[|es| - 1].write)
  }

  function Fills(es: seq<Event>): nat {
    if es == [] then 0 else Fills(es[..|es| - 1]) + One(!es[|es| - 1].write)
  }

  lemma {:induction false} EventsSplit(es: seq<Event>)
    ensures |es| == Fills(es) + Writebacks(es)
  {
    if es != [] { EventsSplit(es[..|es| - 1]); }
  }

  lemma {:induction false} CountConcat(a: seq<Event>, b: seq<Event>)
    ensures Writebacks(a + b) == Writebacks(a) + Writebacks(b)
    ensures Fills(a + b) == Fills(a) + Fills(b)
    decreases |b|
  {
    if b == [] {
      assert a + b == a;
    } else {
      assert (a + b)[..|a + b| - 1] == a + b[..|b| - 1];
      CountConcat(a, b[..|b| - 1]);
    }
  }

  lemma ServeCounts(llc: Level, q: Ref)
    requires Ok(llc)
    ensures var (l, o), es := Access(llc, q.line, q.t), Serve(llc, q).1;
      Writebacks(es) == One(o.wroteBack) && Fills(es) == One(q.t.Read? && !o.hit)
  {
    var (l, o) := Access(llc, q.line, q.t);
    var a := if o.wroteBack then [Event(o.wbLine, true)] else [];
    var b := if q.t.Read? && !o.hit then [Event(q.line, false)] else [];
    CountConcat(a, b);
    assert forall e: Event :: [e][..0] == [];
  }
}
