/** What the closing reports of a paired run hold: the arrays of the profiler object after any run
    from its constructor satisfy the equations that the audit checks. */
module Reports {
  import opened Observation
  import opened PairedObserver
  import opened ProfilerSpec
  import opened ProfilerRuns
  import opened Agreement
  import opened Profiler
  import opened CacheModel
  import opened Hierarchy
  import Audit

  /** A row of the pooled array, added up to n distinct words. */
  ghost function RowSum(pooled: array3<nat>, stream: nat, population: nat, words: nat): nat
    requires pooled.Length0 == 3 && pooled.Length1 == 3 && pooled.Length2 == 65
    requires stream < 3 && population < 3 && words <= 64
    reads pooled
  {
    pooled[stream, population, words] + if words == 0 then 0 else RowSum(pooled, stream, population, words - 1)
  }

  lemma {:induction false} RowIsCumulative(pooled: array3<nat>, ps: seq<Pages>, stream: nat, population: nat,
                                           words: nat)
    requires IsPooled(pooled, ps) && stream < 3 && population < 3 && words <= 64
    ensures RowSum(pooled, stream, population, words) == PooledCumulative(ps, stream, population, words)
  {
    if words > 0 { RowIsCumulative(pooled, ps, stream, population, words - 1); }
  }

  /** The object is in a state that its run of callbacks from start-up leads to. */
  ghost predicate Reached(p: Profiler, m: Machine, roi: bool, actions: seq<Action>)
    reads p, p.uniqueHist, p.llc, p.llc.Repr(), p.counters, p.counters.owned, p.pair.Repr()
  {
    && p.Valid() && MachineOk(m) && TidsIn(actions, |m.threads|)
    && m.shared == Initial(p.c, m.shared.llc, roi)
    && p.View() == Run(p.c, m, actions).shared
  }

  /** What Valid says about the arrays of a paired run. */
  lemma ArraysMean(p: Profiler)
    requires p.Valid() && p.c.paired
    ensures p.pair.pooled.Length0 == 3 && p.pair.pooled.Length1 == 3 && p.pair.pooled.Length2 == 65
    ensures p.uniqueHist.Length == 65 && p.pair.totalEvents.Length == 3
    ensures var s := p.View();
      && IsPooled(p.pair.pooled, PagesOfAll(MarkWindows(s.closed)))
      && Tallies(p.pair.totalEvents, AllMarks(s))
      && (forall n :: 0 <= n <= 64 ==> p.uniqueHist[n] == SummaryHist(s.closed, n))
      && p.accessesTotal == TotalDrams(s.closed)
  {
    hide SummaryHist, PagesOfAll, TotalDrams, Flatten;
  }

  /** The same equations in the reached state. */
  lemma StateAgrees(c: Config, m: Machine, roi: bool, actions: seq<Action>, n: nat)
    requires MachineOk(m) && TidsIn(actions, |m.threads|) && m.shared == Initial(c, m.shared.llc, roi)
    requires Accepted(c) && c.paired
    ensures WindowsOk(MarkWindows(Run(c, m, actions).shared.closed))
    ensures var s := Run(c, m, actions).shared; var ps := PagesOfAll(MarkWindows(s.closed));
      && Pooled(ps, TRAFFIC, OWN, n) == SummaryHist(s.closed, n)
      && PooledCumulative(ps, ACCESSES, FILL_PAGES, n) <= PooledCumulative(ps, FILLS, FILL_PAGES, n)
      && PooledCumulative(ps, ACCESSES, FILL_PAGES, 64) == PooledCumulative(ps, FILLS, FILL_PAGES, 64)
      && EventsOf(AllMarks(s), TRAFFIC) == TotalDrams(s.closed) + s.dramAccesses
      && EventsOf(AllMarks(s), ACCESSES) == s.refs
      && (actions != [] && actions[|actions| - 1].Fini? ==> s.dramAccesses == 0)
  {
    hide SummaryHist, Pooled, PooledCumulative;
    InitialInv(c, m.shared.llc, roi);
    RecordersAgree(c, m, actions, 0, n);
    RefsAreAccesses(c, m, actions);
    TrafficOfState(c, m, actions);
    ClosedAtTheEnd(c, m, actions);
  }

  lemma TrafficOfState(c: Config, m: Machine, actions: seq<Action>)
    requires Accepted(c) && c.paired && MachineOk(m) && TidsIn(actions, |m.threads|) && Inv(c, m.shared)
    ensures var s := Run(c, m, actions).shared;
      EventsOf(AllMarks(s), TRAFFIC) == TotalDrams(s.closed) + s.dramAccesses
  {
    hide Matching, WindowOk;
    RunKeeps(c, m, actions);
    Audit.MarksAreRecorded(c, Run(c, m, actions).shared);
  }

  lemma ClosedAtTheEnd(c: Config, m: Machine, actions: seq<Action>)
    requires Accepted(c) && MachineOk(m) && TidsIn(actions, |m.threads|) && Inv(c, m.shared)
    ensures actions != [] && actions[|actions| - 1].Fini? ==> Run(c, m, actions).shared.dramAccesses == 0
  {
    hide WindowOk, Matching, Work, Shared;
    if actions != [] && actions[|actions| - 1].Fini? {
      var init := actions[..|actions| - 1];
      RunKeeps(c, m, init);
      ControlKeeps(c, Run(c, m, init).shared, Fini);
    }
  }

  /** The pooled own-traffic bins are the summary's unique-word bins, the event counters are the
      summary's totals, and the access row lies nowhere above the fill row and ends level with it. */
  lemma ReportsAgree(p: Profiler, m: Machine, roi: bool, actions: seq<Action>, n: nat)
    requires Reached(p, m, roi, actions) && Accepted(p.c) && p.c.paired && n <= 64
    ensures p.pair.pooled.Length0 == 3 && p.pair.pooled.Length1 == 3 && p.pair.pooled.Length2 == 65
    ensures p.uniqueHist.Length == 65 && p.pair.totalEvents.Length == 3
    ensures p.pair.pooled[TRAFFIC, OWN, n] == p.uniqueHist[n]
    ensures p.pair.totalEvents[TRAFFIC] == p.accessesTotal + p.dramAccesses
    ensures p.pair.totalEvents[ACCESSES] == p.refs
    ensures RowSum(p.pair.pooled, ACCESSES, FILL_PAGES, n) <= RowSum(p.pair.pooled, FILLS, FILL_PAGES, n)
    ensures RowSum(p.pair.pooled, ACCESSES, FILL_PAGES, 64) == RowSum(p.pair.pooled, FILLS, FILL_PAGES, 64)
    ensures actions != [] && actions[|actions| - 1].Fini? ==> p.dramAccesses == 0
  {
    hide p.Valid, p.View, SummaryHist, Run, Pooled, PooledCumulative, RowSum;
    ArraysMean(p);
    StateAgrees(p.c, m, roi, actions, n);
    var ps := PagesOfAll(MarkWindows(p.View().closed));
    RowIsCumulative(p.pair.pooled, ps, ACCESSES, FILL_PAGES, n);
    RowIsCumulative(p.pair.pooled, ps, FILLS, FILL_PAGES, n);
    RowIsCumulative(p.pair.pooled, ps, ACCESSES, FILL_PAGES, 64);
    RowIsCumulative(p.pair.pooled, ps, FILLS, FILL_PAGES, 64);
    FieldsOfView(p);
  }

  lemma FieldsOfView(p: Profiler)
    requires p.Valid()
    ensures p.View().dramAccesses == p.dramAccesses && p.View().refs == p.refs
  {
    hide p.Valid;
  }

  /** The audited equations, on the arrays. */
  ghost predicate Audited(p: Profiler)
    reads p, p.uniqueHist, p.pair, p.pair.pooled, p.pair.totalEvents
  {
    && p.pair.pooled.Length0 == 3 && p.pair.pooled.Length1 == 3 && p.pair.pooled.Length2 == 65
    && p.uniqueHist.Length == 65 && p.pair.totalEvents.Length == 3
    && (forall n :: 0 <= n <= 64 ==> p.pair.pooled[TRAFFIC, OWN, n] == p.uniqueHist[n])
    && p.pair.totalEvents[TRAFFIC] == p.accessesTotal + p.dramAccesses
    && p.pair.totalEvents[ACCESSES] == p.refs
    && (forall n: nat :: n <= 64 ==>
          RowSum(p.pair.pooled, ACCESSES, FILL_PAGES, n) <= RowSum(p.pair.pooled, FILLS, FILL_PAGES, n))
    && RowSum(p.pair.pooled, ACCESSES, FILL_PAGES, 64) == RowSum(p.pair.pooled, FILLS, FILL_PAGES, 64)
  }

  lemma IsAudited(p: Profiler, m: Machine, roi: bool, actions: seq<Action>)
    requires Reached(p, m, roi, actions) && Accepted(p.c) && p.c.paired
    ensures Audited(p)
  {
    hide Reached, RowSum;
    ReportsAgree(p, m, roi, actions, 64);
    forall n: nat | n <= 64
      ensures p.pair.pooled[TRAFFIC, OWN, n] == p.uniqueHist[n]
      ensures RowSum(p.pair.pooled, ACCESSES, FILL_PAGES, n) <= RowSum(p.pair.pooled, FILLS, FILL_PAGES, n)
    {
      ReportsAgree(p, m, roi, actions, n);
    }
  }

  method Start(config: Config, cache: CacheLevel, l1: CacheLevel, l2: CacheLevel, roi: bool) returns (p: Profiler)
    requires cache.Valid() && l1.Valid() && l2.Valid()
    requires l1.Repr() !! l2.Repr() && l1.Repr() + l2.Repr() !! cache.Repr()
    ensures p.c == config && p.llc == cache && p.Valid() && p.PrivateApart(l1, l2)
    ensures p.Whole(l1, l2) == Machine([Private(l1.View(), l2.View())], Initial(config, cache.View(), roi))
    ensures fresh(p) && fresh(p.uniqueHist) && fresh(p.counters) && fresh(p.counters.owned) && fresh(p.pair.Repr())
  {
    hide p.Valid, p.View, l1.Valid, l1.View, Initial;
    p := new Profiler(config, cache, roi);
  }

  /** A whole session of one thread: the profiler is built over the given levels and receives the
      callbacks in turn. It ends where the machine ends, and its arrays satisfy the audit. */
  method Session(config: Config, cache: CacheLevel, l1: CacheLevel, l2: CacheLevel, roi: bool, actions: seq<Action>)
    returns (p: Profiler)
    requires cache.Valid() && l1.Valid() && l2.Valid() && TidsIn(actions, 1)
    requires l1.Repr() !! l2.Repr() && l1.Repr() + l2.Repr() !! cache.Repr()
    modifies cache.Repr(), l1.Repr(), l2.Repr()
    ensures p.c == config
    ensures var start := Machine([Private(old(l1.View()), old(l2.View()))], Initial(config, old(cache.View()), roi));
      Reached(p, start, roi, actions)
    ensures Accepted(config) && config.paired ==> Audited(p)
  {
    hide p.Valid, p.View, l1.Valid, l1.View, l1.Repr, Run, Step, Audited;
    p := Start(config, cache, l1, l2, roi);
    ghost var start := p.Whole(l1, l2);
    RunNothing(config, start, actions);
    for i := 0 to |actions|
      invariant p.Valid() && p.PrivateApart(l1, l2) && p.Whole(l1, l2) == Run(config, start, actions[..i])
      invariant l1.Repr() == old(l1.Repr()) && l2.Repr() == old(l2.Repr()) && p.llc.Repr() == old(cache.Repr())
      invariant fresh(p.counters.owned)
    {
      ghost var held := p.counters.owned;
      p.Callback(l1, l2, actions[i]);
      forall o | o in p.counters.owned ensures fresh(o) { assert o in held || o in p.counters.owned - held; }
      RunOne(config, start, actions, i);
    }
    assert actions[..|actions|] == actions;
    if Accepted(config) && config.paired { IsAudited(p, start, roi, actions); }
  }
}
