/** What a run of the profiler records, told from its references alone: which ones are recorded, what
    each adds, where windows end, and when the phases change. */
module RunLog {
  import Cascade
  import opened CacheSpec
  import opened Hierarchy
  import opened Observation
  import opened CounterSpec
  import opened ProfilerSpec
  import opened ProfilerRuns
  import opened Agreement
  import ColdRuns

  /** The DRAM accesses of some windows, and all recorded so far. */
  function DramsOf(ws: seq<Window>): seq<Event> {
    if ws == [] then [] else DramsOf(ws[..|ws| - 1]) + ws[|ws| - 1].drams
  }

  function AllDrams(s: State): seq<Event> {
    DramsOf(s.closed) + s.current.drams
  }

  /** The reference comes in the profile phase, inside the region of interest. */
  predicate InRegion(s: State) {
    s.phase == Profile && s.roi
  }

  /** The DRAM accesses of one reference: its own line without caches; otherwise what the cascade makes
      of it, or the fills among that. */
  function DramsOfRef(c: Config, m: Machine, a: Action): seq<Event>
    requires MachineOk(m) && a.Reference? && a.tid < |m.threads|
  {
    if !c.useCache then [Event(a.line, a.t == Write)]
    else
      var es := Cascade.Step(Caches(m), Cascade.Txn(a.tid, a.line, a.t)).1;
      if c.countWB then es else ReadsOf(es)
  }

  /** The recorded references, as accesses of their lines. */
  function RecordedRefs(c: Config, m: Machine, actions: seq<Action>): seq<Event>
    requires MachineOk(m) && TidsIn(actions, |m.threads|)
  {
    if actions == [] then []
    else
      var init, a := actions[..|actions| - 1], actions[|actions| - 1];
      var before := Run(c, m, init);
      RecordedRefs(c, m, init)
      + if a.Reference? && InRegion(before.shared) then [Event(a.line, a.t == Write)] else []
  }

  function RecordedDrams(c: Config, m: Machine, actions: seq<Action>): seq<Event>
    requires MachineOk(m) && TidsIn(actions, |m.threads|)
  {
    if actions == [] then []
    else
      var init, a := actions[..|actions| - 1], actions[|actions| - 1];
      var before := Run(c, m, init);
      RecordedDrams(c, m, init) + if a.Reference? && InRegion(before.shared) then DramsOfRef(c, before, a) else []
  }

  /** The references that pass through the caches: all until the end of profiling. */
  function ServedRefs(c: Config, m: Machine, actions: seq<Action>): (trace: seq<Cascade.Txn>)
    requires MachineOk(m) && TidsIn(actions, |m.threads|)
    ensures Cascade.TidsIn(trace, |m.threads|)
  {
    if actions == [] then []
    else
      var init, a := actions[..|actions| - 1], actions[|actions| - 1];
      ServedRefs(c, m, init)
      + if a.Reference? && Run(c, m, init).shared.phase != Done then [Cascade.Txn(a.tid, a.line, a.t)] else []
  }

  // ---------- writebacks that are not counted ----------

  lemma {:induction false} KeptIsReads(c: Config, es: seq<Event>)
    ensures Kept(c, es) == if c.countWB then es else ReadsOf(es)
  {
    if !c.countWB && es != [] { KeptIsReads(c, es[..|es| - 1]); }
  }

  /** What is kept of a transaction: every fill as often as it occurs, every writeback as often if they
      are counted and never otherwise; and what is kept of two lists is kept of each. */
  lemma {:induction false} KeptMeans(c: Config, a: seq<Event>, b: seq<Event>, e: Event)
    ensures multiset(Kept(c, a))[e] == if e.write && !c.countWB then 0 else multiset(a)[e]
    ensures Kept(c, a + b) == Kept(c, a) + Kept(c, b)
  {
    KeptIsReads(c, a);
    KeptIsReads(c, b);
    KeptIsReads(c, a + b);
    ReadsConcat(a, b);
    ReadsMultiplicity(a, e);
  }

  lemma {:induction false} ReadsMultiplicity(es: seq<Event>, e: Event)
    ensures multiset(ReadsOf(es))[e] == if e.write then 0 else multiset(es)[e]
  {
    hide ReadsOf;
    LastRead(es);
    if es != [] {
      var init, x := es[..|es| - 1], es[|es| - 1];
      ReadsMultiplicity(init, e);
      OneMore(init, x, e);
      OneMore(ReadsOf(init), x, e);
    }
  }

  lemma LastRead(es: seq<Event>)
    ensures es == [] ==> ReadsOf(es) == []
    ensures es != [] ==>
      var init, x := es[..|es| - 1], es[|es| - 1];
      es == init + [x] && ReadsOf(es) == if x.write then ReadsOf(init) else ReadsOf(init) + [x]
  {
  }

  lemma OneMore(es: seq<Event>, x: Event, e: Event)
    ensures multiset(es + [x])[e] == multiset(es)[e] + One(x == e)
  {
  }

  // ---------- what is recorded ----------

  lemma FinishDrams(c: Config, s: State)
    ensures AllDrams(FinishEpoch(c, s)) == AllDrams(s) && FinishEpoch(c, s).refs == s.refs
  {
    if !Nothing(c, s) {
      assert (s.closed + [s.current])[..|s.closed|] == s.closed;
      assert DramsOf(s.closed + [s.current]) + [] == DramsOf(s.closed) + s.current.drams;
    }
  }

  lemma ControlDrams(c: Config, s: State, a: Action)
    requires !a.Reference?
    ensures AllDrams(Control(c, s, a)) == AllDrams(s) && Control(c, s, a).refs == s.refs
  {
    hide FinishEpoch, DramsOf;
    match a {
      case Retire(n) => FinishDrams(c, s.(insCount := s.insCount + n, epochStart := s.insCount + n));
      case RoiEnter =>
      case RoiExit => FinishDrams(c, s.(roi := false));
      case Fini => FinishDrams(c, s);
    }
  }

  lemma SharedDrams(c: Config, s: State, line: Line, t: AccessType, r: PrivateResult)
    requires Ok(s.llc) && s.phase != Done
    ensures var s', es := Shared(c, s, line, t, r), Emitted(c, s.llc, line, t, r).1;
      && AllDrams(s') == AllDrams(s) + (if InRegion(s) then es else [])
      && s'.refs == s.refs + if InRegion(s) then 1 else 0
  {
    hide Emitted, FinishEpoch, DramsOf;
    var es := Emitted(c, s.llc, line, t, r).1;
    if InRegion(s) {
      var s1 := Transacted(c, Arrive(c, s, line), line, t, r, true);
      FinishDrams(c, s1);
      assert DramsOf(s.closed) + (s.current.drams + es) == DramsOf(s.closed) + s.current.drams + es;
    } else {
      assert AllDrams(s) + [] == AllDrams(s);
    }
  }

  lemma EmittedIs(c: Config, m: Machine, a: Action)
    requires MachineOk(m) && a.Reference? && a.tid < |m.threads|
    ensures Emitted(c, m.shared.llc, a.line, a.t, Work(c, m.threads[a.tid], a.line, a.t).1).1 == DramsOfRef(c, m, a)
  {
    hide PrivateStep, SharedStep;
    if c.useCache {
      KeptIsReads(c, SharedStep(m.shared.llc, a.line, PrivateStep(m.threads[a.tid], a.line, a.t).1).1);
    }
  }

  lemma StepDrams(c: Config, m: Machine, a: Action)
    requires MachineOk(m) && (a.Reference? ==> a.tid < |m.threads|)
    ensures var s, s' := m.shared, Step(c, m, a).shared;
      var recorded := a.Reference? && InRegion(s);
      && AllDrams(s') == AllDrams(s) + (if recorded then DramsOfRef(c, m, a) else [])
      && s'.refs == s.refs + if recorded then 1 else 0
  {
    hide Emitted, AllDrams, DramsOfRef, Shared, Control, Work;
    assert AllDrams(m.shared) + [] == AllDrams(m.shared);
    if !a.Reference? {
      ControlDrams(c, m.shared, a);
    } else {
      EmittedIs(c, m, a);
      if m.shared.phase != Done {
        SharedDrams(c, m.shared, a.line, a.t, Work(c, m.threads[a.tid], a.line, a.t).1);
      }
    }
  }

  lemma Regroup<T>(a: seq<T>, b: seq<T>, c: seq<T>)
    ensures (a + b) + c == a + (b + c) && a + [] == a && b + [] == b
  {
  }

  lemma Uncached(c: Config, m: Machine, a: Action)
    requires MachineOk(m) && a.Reference? && a.tid < |m.threads| && !c.useCache
    ensures DramsOfRef(c, m, a) == [Event(a.line, a.t == Write)]
  {
  }

  /** Exactly the references of the profile phase inside the region are counted, and the recorded DRAM
      accesses are theirs, in order: with caches what the cascade makes of them, without caches one
      access of the line itself. */
  lemma {:induction false} DramsOfRun(c: Config, m: Machine, actions: seq<Action>)
    requires MachineOk(m) && TidsIn(actions, |m.threads|)
    ensures var s, s' := m.shared, Run(c, m, actions).shared;
      && AllDrams(s') == AllDrams(s) + RecordedDrams(c, m, actions)
      && s'.refs == s.refs + |RecordedRefs(c, m, actions)|
      && (!c.useCache ==> RecordedDrams(c, m, actions) == RecordedRefs(c, m, actions))
  {
    hide Step, AllDrams, InRegion, MachineOk;
    Regroup(AllDrams(m.shared), [], []);
    if actions != [] {
      var init, a := actions[..|actions| - 1], actions[|actions| - 1];
      var before, drams := Run(c, m, init), RecordedDrams(c, m, init);
      DramsOfRun(c, m, init);
      StepDrams(c, before, a);
      hide DramsOfRef;
      Regroup(AllDrams(m.shared), drams,
              if a.Reference? && InRegion(before.shared) then DramsOfRef(c, before, a) else []);
      if a.Reference? && !c.useCache { Uncached(c, before, a); }
    }
  }

  lemma StepMarks(c: Config, m: Machine, a: Action)
    requires c.paired && MachineOk(m) && (a.Reference? ==> a.tid < |m.threads|)
    ensures var s, s' := m.shared, Step(c, m, a).shared;
      AllMarks(s') == AllMarks(s)
        + if a.Reference? && InRegion(s) then RefMarks(a.line, DramsOfRef(c, m, a)) else []
  {
    hide Emitted, AllMarks, DramsOfRef, Shared, Control, Work, RefMarks;
    assert AllMarks(m.shared) + [] == AllMarks(m.shared);
    if !a.Reference? {
      ControlMarks(c, m.shared, a);
    } else {
      EmittedIs(c, m, a);
      if m.shared.phase != Done {
        SharedMarks(c, m.shared, a.line, a.t, Work(c, m.threads[a.tid], a.line, a.t).1);
      }
    }
  }

  lemma NoLines(stream: nat)
    ensures LinesOn([], stream) == [] && LineStream([]) == [] && ReadsOf([]) == []
  {
  }

  /** So for the three streams of a paired run: the recorded references, their fills, their traffic. */
  lemma {:induction false} MarksOfRun(c: Config, m: Machine, actions: seq<Action>)
    requires c.paired && MachineOk(m) && TidsIn(actions, |m.threads|)
    ensures var was, now := AllMarks(m.shared), AllMarks(Run(c, m, actions).shared);
      var drams := RecordedDrams(c, m, actions);
      && LinesOn(now, ACCESSES) == LinesOn(was, ACCESSES) + LineStream(RecordedRefs(c, m, actions))
      && LinesOn(now, FILLS) == LinesOn(was, FILLS) + LineStream(ReadsOf(drams))
      && LinesOn(now, TRAFFIC) == LinesOn(was, TRAFFIC) + LineStream(drams)
  {
    hide Step, AllMarks, InRegion, MachineOk, LinesOn, LineStream, ReadsOf, RefMarks, DramsOfRef;
    NoLines(ACCESSES);
    if actions != [] {
      var init, a := actions[..|actions| - 1], actions[|actions| - 1];
      var before := Run(c, m, init);
      MarksOfRun(c, m, init);
      StepMarks(c, before, a);
      var was, refs, drams := AllMarks(m.shared), RecordedRefs(c, m, init), RecordedDrams(c, m, init);
      Regroup(AllMarks(before.shared), [], []);
      Regroup(refs, drams, []);
      if a.Reference? && InRegion(before.shared) {
        var es := DramsOfRef(c, before, a);
        Regroup(LinesOn(was, ACCESSES), LineStream(refs), [a.line as nat]);
        Regroup(LinesOn(was, FILLS), LineStream(ReadsOf(drams)), LineStream(ReadsOf(es)));
        Regroup(LinesOn(was, TRAFFIC), LineStream(drams), LineStream(es));
        MoreMarks(c, AllMarks(before.shared), a, RecordedRefs(c, m, init), RecordedDrams(c, m, init),
                  DramsOfRef(c, before, a));
      }
    }
  }

  lemma MoreMarks(c: Config, marks: seq<Marked>, a: Action, refs: seq<Event>, drams: seq<Event>, es: seq<Event>)
    requires a.Reference?
    ensures var more, e := marks + RefMarks(a.line, es), Event(a.line, a.t == Write);
      && LinesOn(more, ACCESSES) == LinesOn(marks, ACCESSES) + [a.line as nat]
      && LinesOn(more, FILLS) == LinesOn(marks, FILLS) + LineStream(ReadsOf(es))
      && LinesOn(more, TRAFFIC) == LinesOn(marks, TRAFFIC) + LineStream(es)
      && LineStream(refs + [e]) == LineStream(refs) + [a.line as nat]
      && LineStream(drams + es) == LineStream(drams) + LineStream(es)
      && LineStream(ReadsOf(drams + es)) == LineStream(ReadsOf(drams)) + LineStream(ReadsOf(es))
  {
    hide RefMarks, LinesOn, ReadsOf;
    LinesOnConcat(marks, RefMarks(a.line, es), ACCESSES);
    LinesOnConcat(marks, RefMarks(a.line, es), FILLS);
    LinesOnConcat(marks, RefMarks(a.line, es), TRAFFIC);
    RefLines(a.line, es, ACCESSES);
    RefLines(a.line, es, FILLS);
    RefLines(a.line, es, TRAFFIC);
    ReadsConcat(drams, es);
    LineStreamConcat(drams, es);
    LineStreamConcat(ReadsOf(drams), ReadsOf(es));
  }

  /** All references pass through the caches until the end of profiling, recorded or not. */
  lemma {:induction false} CachesOfRun(c: Config, m: Machine, actions: seq<Action>)
    requires MachineOk(m) && TidsIn(actions, |m.threads|)
    ensures Caches(Run(c, m, actions))
      == if c.useCache then Cascade.Run(Caches(m), ServedRefs(c, m, actions)).0 else Caches(m)
  {
    hide Cascade.Step, Step, MachineOk, Caches;
    if actions != [] {
      var init, a := actions[..|actions| - 1], actions[|actions| - 1];
      var trace := ServedRefs(c, m, init);
      CachesOfRun(c, m, init);
      OneServed(c, Run(c, m, init), a);
      assert trace + [] == trace && forall x :: (trace + [x])[..|trace|] == trace;
    }
  }

  lemma OneServed(c: Config, m: Machine, a: Action)
    requires MachineOk(m) && (a.Reference? ==> a.tid < |m.threads|)
    ensures Caches(Step(c, m, a))
      == if c.useCache && a.Reference? && m.shared.phase != Done
         then Cascade.Step(Caches(m), Cascade.Txn(a.tid, a.line, a.t)).0 else Caches(m)
  {
    hide PrivateStep, SharedStep;
    if a.Reference? { assert m.threads[a.tid := m.threads[a.tid]] == m.threads; }
    if c.useCache && a.Reference? && m.shared.phase != Done { ColdRuns.SharedCaches(c, m, a); }
  }

  // ---------- where windows end ----------

  /** Something was recorded in the open window. */
  predicate IsOpen(c: Config, s: State) {
    s.current.drams != [] || (c.paired && s.current.marks != [])
  }

  /** The callback closes whatever is open: leaving the region if so configured, the end of the program,
      and the instruction clock inside the region unless the profile phase is over. */
  predicate Closes(c: Config, s: State, a: Action)
    requires !a.Reference?
  {
    match a
    case RoiEnter => false
    case RoiExit => c.roiEpoch
    case Fini => true
    case Retire(n) =>
      var ins := s.insCount + n;
      && s.phase == Profile && s.roi && c.epochIns > 0 && ins - s.epochStart >= c.epochIns
      && !(c.length > 0 && ins - s.profileStart >= c.length)
  }

  /** Such a callback adds the open window to the closed ones and starts an empty one; any other
      callback, and one that finds nothing recorded, leaves the windows alone. */
  lemma ControlWindows(c: Config, s: State, a: Action)
    requires Inv(c, s) && !a.Reference?
    ensures var s' := Control(c, s, a);
      if IsOpen(c, s) && Closes(c, s, a) then
        && s'.closed == s.closed + [s.current] && s'.current == Window([], [], [])
        && s'.dramAccesses == 0 && s'.epochRefs == 0 && s'.epochId == s.epochId + 1
      else
        && s'.closed == s.closed && s'.current == s.current
        && s'.dramAccesses == s.dramAccesses && s'.epochRefs == s.epochRefs && s'.epochId == s.epochId
  {
    hide Matching, WindowOk;
  }

  /** Leaving the region, with windows per visit: the region is over, nothing stays open, and what was
      recorded in it is the last closed window. */
  lemma ExitCloses(c: Config, s: State)
    requires Inv(c, s) && c.roiEpoch
    ensures var s' := Control(c, s, RoiExit);
      && !s'.roi && !IsOpen(c, s')
      && s'.closed == s.closed + if IsOpen(c, s) then [s.current] else []
  {
    hide Inv, Control;
    ControlWindows(c, s, RoiExit);
    RoiMoves(c, s, RoiExit);
    assert s.closed + [] == s.closed;
  }

  /** The open window after a recorded reference. */
  function WindowAfter(c: Config, w: Window, line: Line, es: seq<Event>): Window {
    Window(w.marks + (if c.paired then RefMarks(line, es) else []), w.drams + es, w.byRef + [|es|])
  }

  /** The window has reached its clock of DRAM accesses or of references. */
  predicate IsDue(c: Config, w: Window) {
    || (c.epochEvents > 0 && |w.drams| >= c.epochEvents)
    || (c.epochRefs > 0 && |w.byRef| >= c.epochRefs)
  }

  /** A reference outside the region, or not in the profile phase, leaves the windows alone. One inside
      extends the open window, and closes it if it is due and anything was recorded in it. */
  lemma ReferenceWindows(c: Config, m: Machine, a: Action)
    requires MachineOk(m) && Inv(c, m.shared) && a.Reference? && a.tid < |m.threads|
    ensures var s, s' := m.shared, Step(c, m, a).shared;
      var w := WindowAfter(c, s.current, a.line, DramsOfRef(c, m, a));
      if !InRegion(s) then s'.closed == s.closed && s'.current == s.current
      else if IsDue(c, w) && (w.drams != [] || (c.paired && w.marks != [])) then
        s'.closed == s.closed + [w] && s'.current == Window([], [], [])
      else s'.closed == s.closed && s'.current == w
  {
    hide Emitted, DramsOfRef, Work, Matching, WindowOk;
    EmittedIs(c, m, a);
    if InRegion(m.shared) {
      var r := Work(c, m.threads[a.tid], a.line, a.t).1;
      var (llc, es) := Emitted(c, m.shared.llc, a.line, a.t, r);
      ExtendedWindow(c, m.shared, a.line, es, llc);
    }
  }

  // ---------- phases and regions ----------

  /** The region of interest follows its markers and nothing else; entering it restarts the clock of
      instructions. */
  lemma RoiMoves(c: Config, s: State, a: Action)
    requires !a.Reference?
    ensures Control(c, s, a).roi == (a.RoiEnter? || (s.roi && !a.RoiExit?))
    ensures a.RoiEnter? ==> Control(c, s, a).epochStart == s.insCount
  {
  }

  function RoiAfter(roi: bool, actions: seq<Action>): bool {
    if actions == [] then roi
    else
      var a := actions[|actions| - 1];
      a.RoiEnter? || (RoiAfter(roi, actions[..|actions| - 1]) && !a.RoiExit?)
  }

  /** Over any run the region is the one that the last marker left. */
  lemma {:induction false} RoiOfRun(c: Config, m: Machine, actions: seq<Action>)
    requires MachineOk(m) && TidsIn(actions, |m.threads|)
    ensures Run(c, m, actions).shared.roi == RoiAfter(m.shared.roi, actions)
  {
    hide Control, Shared, Work;
    if actions != [] {
      var init, a := actions[..|actions| - 1], actions[|actions| - 1];
      var before := Run(c, m, init);
      RoiOfRun(c, m, init);
      if !a.Reference? {
        RoiMoves(c, before.shared, a);
      } else {
        ReferenceKeeps(c, before.shared, a.line, a.t, Work(c, before.threads[a.tid], a.line, a.t).1);
      }
    }
  }

  /** A reference moves no phase, except that closing the last window ends profiling. */
  lemma ReferenceKeeps(c: Config, s: State, line: Line, t: AccessType, r: PrivateResult)
    requires Ok(s.llc)
    ensures var s' := Shared(c, s, line, t, r);
      && s'.roi == s.roi && s'.insCount == s.insCount && s'.profileStart == s.profileStart
      && s'.epochStart == s.epochStart && s'.epochId >= s.epochId
      && (s'.phase == s.phase || (s'.phase == Done && c.maxEpochs > 0 && s'.epochId >= c.maxEpochs))
  {
    hide Emitted;
  }

  /** Retiring instructions moves the phase exactly when its target is reached, and a new phase starts
      its clocks there. */
  lemma RetireMoves(c: Config, s: State, n: nat)
    requires s.profileStart <= s.insCount && s.epochStart <= s.insCount
    ensures var s', ins := Control(c, s, Retire(n)), s.insCount + n;
      var closes := IsOpen(c, s) && Closes(c, s, Retire(n));
      && s'.insCount == ins
      && (s.phase == FastForward ==>
            s'.phase == if ins < c.ff then FastForward else if c.warmup > 0 then Warmup else Profile)
      && (s.phase == Warmup ==> s'.phase == if ins < c.ff + c.warmup then Warmup else Profile)
      && (s.phase == Profile ==> (s'.phase == Done <==>
            || (c.length > 0 && ins - s.profileStart >= c.length)
            || (closes && c.maxEpochs > 0 && s.epochId + 1 >= c.maxEpochs)))
      && (s.phase == Profile ==> s'.phase == Profile || s'.phase == Done)
      && (s.phase == Done ==> s'.phase == Done)
      && (s.phase != Profile && s'.phase != s.phase ==> s'.profileStart == s'.epochStart == ins)
      && (s'.phase == s.phase || s.phase == Profile ==> s'.profileStart == s.profileStart)
      && (s.phase == Profile ==> s'.epochStart == if Closes(c, s, Retire(n)) then ins else s.epochStart)
  {
  }

  /** Profiling is over only because the profile phase has had its full length, or the last window was
      closed. */
  predicate Over(c: Config, s: State) {
    s.phase == Done ==>
      || (c.length > 0 && s.insCount - s.profileStart >= c.length)
      || (c.maxEpochs > 0 && s.epochId >= c.maxEpochs)
  }

  lemma {:induction false} EndsOnTime(c: Config, m: Machine, actions: seq<Action>)
    requires MachineOk(m) && TidsIn(actions, |m.threads|) && Inv(c, m.shared) && Accepted(c) && Over(c, m.shared)
    ensures Over(c, Run(c, m, actions).shared)
  {
    hide Control, Shared, Work, Inv;
    if actions != [] {
      var init, a := actions[..|actions| - 1], actions[|actions| - 1];
      var before := Run(c, m, init);
      EndsOnTime(c, m, init);
      RunKeeps(c, m, init);
      if a.Reference? {
        ReferenceKeeps(c, before.shared, a.line, a.t, Work(c, before.threads[a.tid], a.line, a.t).1);
      } else {
        ControlOver(c, before.shared, a);
      }
    }
  }

  lemma ControlOver(c: Config, s: State, a: Action)
    requires Inv(c, s) && Over(c, s) && !a.Reference?
    ensures Over(c, Control(c, s, a))
  {
    hide Matching, WindowOk;
  }
}
