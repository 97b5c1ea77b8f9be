/** Conservation of dirty copies through the cascade, and the traffic bounds it gives. */
module Tokens {
  import opened CacheSpec
  import opened Hierarchy
  import opened Lru
  import opened Cascade

  function Stores(trace: seq<Txn>): nat {
    if trace == [] then 0 else Stores(trace[..|trace| - 1]) + One(trace[|trace| - 1].t.Write?)
  }

  ghost function PrivateDirty(p: Private): nat
    requires PrivateOk(p)
  {
    |DirtyLines(p.l1)| + |DirtyLines(p.l2)|
  }

  ghost function AllPrivateDirty(ps: seq<Private>): nat
    requires forall i :: 0 <= i < |ps| ==> PrivateOk(ps[i])
  {
    if ps == [] then 0 else PrivateDirty(ps[0]) + AllPrivateDirty(ps[1..])
  }

  /** Dirty copies at all levels of all threads. */
  ghost function Dirty(y: Sys): nat
    requires SysOk(y)
  {
    |DirtyLines(y.llc)| + AllPrivateDirty(y.threads)
  }

  lemma AccessTokens(l: Level, line: Line, t: AccessType)
    requires Ok(l)
    ensures var (l', o) := Access(l, line, t);
      |DirtyLines(l')| + One(o.wroteBack) == |DirtyLines(l)| + One(t.Write? && !IsDirty(l, line))
  {
    Effect(l, line, t);
    TokenBalance(l, line, t, Access(l, line, t).0, Access(l, line, t).1);
  }

  /** Private work turns a store into at most one token; what leaves L2 leaves the thread. */
  lemma PrivateTokens(p: Private, line: Line, t: AccessType)
    requires PrivateOk(p)
    ensures var (p', r) := PrivateStep(p, line, t);
      PrivateDirty(p') + One(r.eviction.wroteBack) + One(r.demand.wroteBack) <= PrivateDirty(p) + One(t.Write?)
  {
    AccessTokens(p.l1, line, t);
    var first := Access(p.l1, line, t).1;
    if !first.hit {
      if first.wroteBack { AccessTokens(p.l2, first.wbLine, Write); }
      var l2 := if first.wroteBack then Access(p.l2, first.wbLine, Write).0 else p.l2;
      AccessTokens(l2, line, Read);
    }
  }

  function Writes(qs: seq<Ref>): nat {
    if qs == [] then 0 else One(qs[0].t.Write?) + Writes(qs[1..])
  }

  function Reads(qs: seq<Ref>): nat {
    if qs == [] then 0 else One(qs[0].t.Read?) + Reads(qs[1..])
  }

  lemma {:induction false} ServeAllTokens(l: Level, qs: seq<Ref>)
    requires Ok(l)
    ensures var (l', es) := ServeAll(l, qs);
      Writebacks(es) + |DirtyLines(l')| <= |DirtyLines(l)| + Writes(qs) && Fills(es) <= Reads(qs)
    decreases qs
  {
    if qs != [] {
      var (m, e) := Serve(l, qs[0]);
      AccessTokens(l, qs[0].line, qs[0].t);
      ServeCounts(l, qs[0]);
      ServeAllTokens(m, qs[1..]);
      CountConcat(e, ServeAll(m, qs[1..]).1);
    }
  }

  lemma RequestCounts(line: Line, r: PrivateResult)
    ensures Writes(Requests(line, r)) == One(r.eviction.wroteBack) + One(r.demand.wroteBack)
    ensures Reads(Requests(line, r)) == One(!r.demand.hit)
  {
    var a := if r.eviction.wroteBack then [Ref(r.eviction.wbLine, Write)] else [];
    var b := if r.demand.wroteBack then [Ref(r.demand.wbLine, Write)] else [];
    var c := if r.demand.hit then [] else [Ref(line, Read)];
    RefsConcat(a + b, c);
    RefsConcat(a, b);
    assert forall q: Ref :: [q][1..] == [];
  }

  lemma {:induction false} RefsConcat(a: seq<Ref>, b: seq<Ref>)
    ensures Writes(a + b) == Writes(a) + Writes(b) && Reads(a + b) == Reads(a) + Reads(b)
  {
    if a == [] {
      assert a + b == b;
    } else {
      assert (a + b)[1..] == a[1..] + b;
      RefsConcat(a[1..], b);
    }
  }

  lemma {:induction false} OnePrivateChanged(ps: seq<Private>, i: nat, p: Private)
    requires i < |ps| && PrivateOk(p) && forall j :: 0 <= j < |ps| ==> PrivateOk(ps[j])
    ensures var qs := ps[i := p]; forall j :: 0 <= j < |qs| ==> PrivateOk(qs[j])
    ensures AllPrivateDirty(ps[i := p]) + PrivateDirty(ps[i]) == AllPrivateDirty(ps) + PrivateDirty(p)
  {
    var qs := ps[i := p];
    if i == 0 {
      assert qs[1..] == ps[1..];
    } else {
      assert qs[1..] == ps[1..][i - 1 := p];
      OnePrivateChanged(ps[1..], i - 1, p);
    }
  }

  lemma AtMostFour(llc: Level, line: Line, r: PrivateResult)
    requires Ok(llc)
    ensures |SharedStep(llc, line, r).1| <= 4
  {
    hide Access;
  }

  lemma TxnTokens(y: Sys, x: Txn)
    requires SysOk(y) && x.tid < |y.threads|
    ensures var (y', es) := Step(y, x);
      && Writebacks(es) + Dirty(y') <= Dirty(y) + One(x.t.Write?)
      && Fills(es) <= 1 && |es| <= 4
  {
    hide PrivateStep, SharedStep, ServeAll, DirtyLines, PrivateDirty, AllPrivateDirty, Ok, PrivateOk, Requests;
    var (p, r) := PrivateStep(y.threads[x.tid], x.line, x.t);
    PrivateTokens(y.threads[x.tid], x.line, x.t);
    OnePrivateChanged(y.threads, x.tid, p);
    AtMostFour(y.llc, x.line, r);
    SharedServes(y.llc, x.line, r);
    ServeAllTokens(y.llc, Requests(x.line, r));
    RequestCounts(x.line, r);
  }

  /** Over any run from any state: writebacks to memory plus dirty copies left never exceed the
      dirty copies at the start plus the stores made. */
  lemma {:induction false} Conservation(y: Sys, trace: seq<Txn>)
    requires SysOk(y) && TidsIn(trace, |y.threads|)
    ensures var (y', es) := Run(y, trace);
      && Writebacks(es) + Dirty(y') <= Dirty(y) + Stores(trace)
      && Fills(es) <= |trace|
  {
    if trace != [] {
      var init, x := trace[..|trace| - 1], trace[|trace| - 1];
      Conservation(y, init);
      TxnTokens(Run(y, init).0, x);
      CountConcat(Run(y, init).1, Step(Run(y, init).0, x).1);
    }
  }

  lemma {:induction false} StoresBound(trace: seq<Txn>)
    ensures Stores(trace) <= |trace|
  {
    if trace != [] { StoresBound(trace[..|trace| - 1]); }
  }

  ghost predicate IsCold(y: Sys)
    requires SysOk(y)
  {
    && (forall x: Line :: !Holds(y.llc, x))
    && forall i :: 0 <= i < |y.threads| ==> IsColdPrivate(y.threads[i])
  }

  ghost predicate IsColdPrivate(p: Private)
    requires PrivateOk(p)
  {
    forall x: Line :: !Holds(p.l1, x) && !Holds(p.l2, x)
  }

  lemma ColdIsClean(y: Sys)
    requires SysOk(y) && IsCold(y)
    ensures Dirty(y) == 0
  {
    assert DirtyLines(y.llc) == {};
    ColdPrivate(y.threads);
  }

  lemma {:induction false} ColdPrivate(ps: seq<Private>)
    requires forall i :: 0 <= i < |ps| ==> PrivateOk(ps[i])
    requires forall i :: 0 <= i < |ps| ==> IsColdPrivate(ps[i])
    ensures AllPrivateDirty(ps) == 0
  {
    if ps != [] {
      assert DirtyLines(ps[0].l1) == {} && DirtyLines(ps[0].l2) == {};
      ColdPrivate(ps[1..]);
    }
  }

  /** From cold caches the traffic of a run is at most its fills plus its stores, hence at most twice
      its accesses, although a single transaction may emit four events. */
  lemma ColdTrafficBound(y: Sys, trace: seq<Txn>)
    requires SysOk(y) && IsCold(y) && TidsIn(trace, |y.threads|)
    ensures var (y', es) := Run(y, trace);
      && Writebacks(es) + Dirty(y') <= Stores(trace)
      && Fills(es) <= |es| <= Fills(es) + Stores(trace)
      && |es| <= 2 * |trace|
  {
    Conservation(y, trace);
    ColdIsClean(y);
    StoresBound(trace);
    EventsSplit(Run(y, trace).1);
  }
}
