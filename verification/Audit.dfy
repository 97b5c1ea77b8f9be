/** The audited traffic bound over whole profiled runs: recorded DRAM traffic against recorded
    references, from cold and from warm caches. */
module Audit {
  import opened CacheSpec
  import opened Hierarchy
  import opened Lru
  import opened Observation
  import Cascade
  import Tokens
  import Warm
  import opened ProfilerSpec
  import opened ProfilerRuns
  import opened Agreement
  import opened ColdRuns

  /** All DRAM accesses recorded so far, in closed windows and in the open one. */
  function Recorded(s: State): nat {
    TotalDrams(s.closed) + |s.current.drams|
  }

  /** The reference passes through the caches. */
  predicate Served(m: Machine, a: Action) {
    a.Reference? && !m.shared.phase.Done?
  }

  /** References of a run that pass through the caches, and how many of them are not recorded. */
  function Unrecorded(c: Config, m: Machine, actions: seq<Action>): nat
    requires MachineOk(m) && TidsIn(actions, |m.threads|)
  {
    if actions == [] then 0
    else
      var init, a := actions[..|actions| - 1], actions[|actions| - 1];
      var before := Run(c, m, init);
      Unrecorded(c, m, init) + One(Served(before, a) && !Recording(before.shared))
  }

  function UnrecordedStores(c: Config, m: Machine, actions: seq<Action>): nat
    requires MachineOk(m) && TidsIn(actions, |m.threads|)
  {
    if actions == [] then 0
    else
      var init, a := actions[..|actions| - 1], actions[|actions| - 1];
      var before := Run(c, m, init);
      UnrecordedStores(c, m, init) + One(Served(before, a) && !Recording(before.shared) && a.t.Write?)
  }

  lemma FinishRecorded(c: Config, s: State)
    ensures Recorded(FinishEpoch(c, s)) == Recorded(s)
  {
    if !Nothing(c, s) { assert (s.closed + [s.current])[..|s.closed|] == s.closed; }
  }

  lemma ControlRecorded(c: Config, s: State, a: Action)
    requires !a.Reference?
    ensures Recorded(Control(c, s, a)) == Recorded(s) && Control(c, s, a).refs == s.refs
  {
    match a {
      case Retire(n) => FinishRecorded(c, s.(insCount := s.insCount + n, epochStart := s.insCount + n));
      case RoiEnter =>
      case RoiExit => FinishRecorded(c, s.(roi := false));
      case Fini => FinishRecorded(c, s);
    }
  }

  lemma SharedRecorded(c: Config, s: State, line: Line, t: AccessType, r: PrivateResult)
    requires Ok(s.llc) && !s.phase.Done?
    ensures var s', es := Shared(c, s, line, t, r), Emitted(c, s.llc, line, t, r).1;
      && Recorded(s') == Recorded(s) + (if Recording(s) then |es| else 0)
      && s'.refs == s.refs + One(Recording(s))
  {
    hide Emitted;
    if Recording(s) { FinishRecorded(c, Transacted(c, Arrive(c, s, line), line, t, r, true)); }
  }

  /** What one step adds to the recorded traffic is paid by the reference, the store and the credits. */
  lemma StepTraffic(c: Config, m: Machine, a: Action)
    requires c.useCache && MachineOk(m) && (a.Reference? ==> a.tid < |m.threads|)
    ensures var m' := Step(c, m, a);
      var refs, more := m'.shared.refs - m.shared.refs, Recorded(m'.shared) - Recorded(m.shared);
      && refs == One(Served(m, a) && Recording(m.shared))
      && more + Tokens.Dirty(Caches(m')) <= Tokens.Dirty(Caches(m)) + refs + One(Served(m, a) && a.t.Write?)
      && 3 * more + Warm.Credits(Caches(m')) <= Warm.Credits(Caches(m)) + 3 * refs + 3 * One(Served(m, a))
  {
    if !a.Reference? {
      ControlRecorded(c, m.shared, a);
    } else if !m.shared.phase.Done? {
      ServedTraffic(c, m, a);
    }
  }

  lemma ServedTraffic(c: Config, m: Machine, a: Action)
    requires c.useCache && MachineOk(m) && a.Reference? && a.tid < |m.threads| && !m.shared.phase.Done?
    ensures var m' := Step(c, m, a);
      var refs, more := m'.shared.refs - m.shared.refs, Recorded(m'.shared) - Recorded(m.shared);
      && refs == One(Recording(m.shared))
      && more + Tokens.Dirty(Caches(m')) <= Tokens.Dirty(Caches(m)) + refs + One(a.t.Write?)
      && 3 * more + Warm.Credits(Caches(m')) <= Warm.Credits(Caches(m)) + 3 * refs + 3
  {
    hide Tokens.Dirty, Warm.Credits, Shared, Ok, PrivateOk;
    var x := Cascade.Txn(a.tid, a.line, a.t);
    var es := Cascade.Step(Caches(m), x).1;
    SharedCaches(c, m, a);
    Tokens.TxnTokens(Caches(m), x);
    Warm.TxnCredits(Caches(m), x);
    Cascade.EventsSplit(es);
    KeptShape(c, es);
    SharedRecorded(c, m.shared, a.line, a.t, PrivateStep(m.threads[a.tid], a.line, a.t).1);
  }

  /** Over any run: recorded traffic is at most twice the recorded references, plus the dirty copies
      held at the start and the stores that were not recorded; and the copies count for two thirds
      if unrecorded loads are counted as well. */
  lemma {:induction false} TrafficOfRun(c: Config, m: Machine, actions: seq<Action>)
    requires c.useCache && MachineOk(m) && TidsIn(actions, |m.threads|)
    ensures var m' := Run(c, m, actions);
      var refs, more := m'.shared.refs - m.shared.refs, Recorded(m'.shared) - Recorded(m.shared);
      && 0 <= refs
      && more + Tokens.Dirty(Caches(m')) <= 2 * refs + Tokens.Dirty(Caches(m)) + UnrecordedStores(c, m, actions)
      && 3 * more + Warm.Credits(Caches(m'))
           <= 6 * refs + Warm.Credits(Caches(m)) + 3 * Unrecorded(c, m, actions)
  {
    hide Step, Tokens.Dirty, Warm.Credits, Ok, PrivateOk, Recorded;
    if actions != [] {
      var init, a := actions[..|actions| - 1], actions[|actions| - 1];
      TrafficOfRun(c, m, init);
      StepTraffic(c, Run(c, m, init), a);
    }
  }

  /** In a paired run from an empty recorder, with every reference recorded: the traffic events are
      at most three times the access events if the start held few enough dirty copies, and at most
      twice from cold caches. The events are those of the observer, the accesses those of the
      summary. */
  lemma AuditedTraffic(c: Config, m: Machine, actions: seq<Action>)
    requires Accepted(c) && c.paired && MachineOk(m) && TidsIn(actions, |m.threads|) && Inv(c, m.shared)
    requires AllMarks(m.shared) == [] && m.shared.refs == 0 && Recorded(m.shared) == 0
    requires Unrecorded(c, m, actions) == 0
    ensures var s := Run(c, m, actions).shared;
      var accesses, traffic := EventsOf(AllMarks(s), ACCESSES), EventsOf(AllMarks(s), TRAFFIC);
      && accesses == s.refs && traffic == Recorded(s) && EventsOf(AllMarks(s), FILLS) <= traffic
      && 3 * traffic <= 6 * accesses + 2 * Tokens.Dirty(Caches(m))
      && (Tokens.IsCold(Caches(m)) ==> traffic <= 2 * accesses)
      && (2 * Tokens.Dirty(Caches(m)) <= 3 * accesses + 2 ==> traffic <= 3 * accesses)
  {
    var m' := Run(c, m, actions);
    TrafficOfRun(c, m, actions);
    NoStoreIsMissed(c, m, actions);
    Warm.CreditBounds(Caches(m));
    Warm.CreditBounds(Caches(m'));
    if Tokens.IsCold(Caches(m)) { Tokens.ColdIsClean(Caches(m)); }
    RefsAreAccesses(c, m, actions);
    RunKeeps(c, m, actions);
    MarksAreRecorded(c, m'.shared);
  }

  lemma {:induction false} NoStoreIsMissed(c: Config, m: Machine, actions: seq<Action>)
    requires MachineOk(m) && TidsIn(actions, |m.threads|)
    ensures UnrecordedStores(c, m, actions) <= Unrecorded(c, m, actions)
  {
    if actions != [] { NoStoreIsMissed(c, m, actions[..|actions| - 1]); }
  }

  lemma MarksAreRecorded(c: Config, s: State)
    requires c.paired && Inv(c, s)
    ensures EventsOf(AllMarks(s), TRAFFIC) == Recorded(s)
    ensures EventsOf(AllMarks(s), FILLS) <= Recorded(s)
  {
    assert AllMatching(s.closed) by {
      forall i | 0 <= i < |s.closed| ensures Matching(s.closed[i]) { assert WindowOk(c, s.closed[i]); }
    }
    hide WindowOk;
    FlattenMarks(MarkWindows(s.closed));
    TrafficTotal(s.closed);
    FillsTotal(s.closed);
    AccessEvents(s.current.marks, TRAFFIC);
    WindowFills(s.current);
    EventsConcat(Flatten(MarkWindows(s.closed)), s.current.marks, TRAFFIC);
    EventsConcat(Flatten(MarkWindows(s.closed)), s.current.marks, FILLS);
  }

  lemma WindowFills(w: Window)
    requires Matching(w)
    ensures EventsOf(w.marks, FILLS) <= |w.drams|
  {
    AccessEvents(w.marks, FILLS);
    FewerReads(w.drams);
  }

  lemma {:induction false} FewerReads(es: seq<Event>)
    ensures |ReadsOf(es)| <= |es|
  {
    if es != [] { FewerReads(es[..|es| - 1]); }
  }

  lemma {:induction false} FillsTotal(ws: seq<Window>)
    requires AllMatching(ws)
    ensures SumEvents(MarkWindows(ws), FILLS) <= TotalDrams(ws)
  {
    if ws != [] {
      FillsTotal(ws[..|ws| - 1]);
      MarkWindowsInit(ws);
      WindowFills(ws[|ws| - 1]);
    }
  }
}
