/** What holds of the profiler's windows in every reachable state. */
module ProfilerRuns {
  import opened CacheSpec
  import opened Hierarchy
  import opened Observation
  import opened CounterSpec
  import opened ProfilerSpec

  // ---------- the two recorders of one window ----------

  /** The lines marked on a stream, in order. */
  function LinesOn(marks: seq<Marked>, stream: nat): seq<nat> {
    if marks == [] then []
    else LinesOn(marks[..|marks| - 1], stream)
         + if marks[|marks| - 1].stream == stream then [marks[|marks| - 1].line] else []
  }

  function ReadsOf(es: seq<Event>): seq<Event> {
    if es == [] then [] else ReadsOf(es[..|es| - 1]) + if es[|es| - 1].write then [] else [es[|es| - 1]]
  }

  /** The paired observer saw what the counters saw: the same traffic in the same order, its reads
      as fills, and no fill of a line that was not accessed in the window. */
  ghost predicate Matching(w: Window) {
    && MarksOk(w.marks)
    && LinesOn(w.marks, TRAFFIC) == LineStream(w.drams)
    && LinesOn(w.marks, FILLS) == LineStream(ReadsOf(w.drams))
    && forall x :: x in LinesOn(w.marks, FILLS) ==> x in LinesOn(w.marks, ACCESSES)
  }

  lemma {:induction false} LinesOnConcat(a: seq<Marked>, b: seq<Marked>, stream: nat)
    ensures LinesOn(a + b, stream) == LinesOn(a, stream) + LinesOn(b, stream)
    decreases |b|
  {
    if b == [] {
      assert a + b == a;
    } else {
      assert (a + b)[..|a + b| - 1] == a + b[..|b| - 1];
      LinesOnConcat(a, b[..|b| - 1], stream);
    }
  }

  lemma {:induction false} ReadsConcat(a: seq<Event>, b: seq<Event>)
    ensures ReadsOf(a + b) == ReadsOf(a) + ReadsOf(b)
    decreases |b|
  {
    if b == [] {
      assert a + b == a;
    } else {
      assert (a + b)[..|a + b| - 1] == a + b[..|b| - 1];
      ReadsConcat(a, b[..|b| - 1]);
    }
  }

  lemma LinesOnOne(m: Marked, stream: nat)
    ensures LinesOn([m], stream) == if m.stream == stream then [m.line as nat] else []
  {
    assert [m][..0] == [];
  }

  lemma LineStreamConcat(a: seq<Event>, b: seq<Event>)
    ensures LineStream(a + b) == LineStream(a) + LineStream(b)
  {
  }

  lemma OneDramMarks(e: Event)
    ensures MarksOk(MarksOfDram(e))
    ensures LinesOn(MarksOfDram(e), ACCESSES) == []
    ensures LinesOn(MarksOfDram(e), FILLS) == if e.write then [] else [e.line as nat]
    ensures LinesOn(MarksOfDram(e), TRAFFIC) == [e.line as nat]
  {
    var ms := MarksOfDram(e);
    if e.write {
      forall s ensures LinesOn(ms, s) == if s == TRAFFIC then [e.line as nat] else [] { LinesOnOne(ms[0], s); }
    } else {
      assert ms[..1] == [ms[0]];
      forall s ensures LinesOn(ms, s) == if s == TRAFFIC || s == FILLS then [e.line as nat] else [] {
        LinesOnOne(ms[0], s);
      }
    }
  }

  /** The lines a list of DRAM accesses puts on each stream. */
  function DramOn(es: seq<Event>, stream: nat): seq<nat> {
    if stream == FILLS then LineStream(ReadsOf(es)) else if stream == TRAFFIC then LineStream(es) else []
  }

  lemma OneLine(e: Event)
    ensures LineStream([e]) == [e.line as nat]
  {
  }

  lemma ReadsStep(es: seq<Event>, e: Event)
    ensures ReadsOf(es + [e]) == ReadsOf(es) + if e.write then [] else [e]
  {
    assert (es + [e])[..|es|] == es;
  }

  lemma FillsStep(es: seq<Event>, e: Event)
    ensures LineStream(ReadsOf(es + [e])) == LineStream(ReadsOf(es)) + if e.write then [] else [e.line as nat]
  {
    ReadsStep(es, e);
    if e.write {
      assert ReadsOf(es) + [] == ReadsOf(es);
    } else {
      LineStreamConcat(ReadsOf(es), [e]);
      OneLine(e);
    }
  }

  lemma DramOnStep(es: seq<Event>, e: Event, stream: nat)
    requires stream < 3
    ensures DramOn(es + [e], stream) == DramOn(es, stream) + LinesOn(MarksOfDram(e), stream)
  {
    hide LineStream, ReadsOf, LinesOn, MarksOfDram;
    OneDramMarks(e);
    OneLine(e);
    FillsStep(es, e);
    LineStreamConcat(es, [e]);
  }

  lemma NoDram(stream: nat)
    ensures DramOn([], stream) == [] && LinesOn([], stream) == []
  {
  }

  lemma {:induction false} DramLines(es: seq<Event>, stream: nat)
    requires stream < 3
    ensures MarksOk(DramMarks(es)) && LinesOn(DramMarks(es), stream) == DramOn(es, stream)
  {
    hide MarksOfDram, ReadsOf, LineStream, LinesOn, DramOn;
    if es == [] {
      NoDram(stream);
    } else {
      var init, e := es[..|es| - 1], es[|es| - 1];
      DramLines(init, stream);
      OneDramMarks(e);
      LinesOnConcat(DramMarks(init), MarksOfDram(e), stream);
      DramOnStep(init, e, stream);
      assert es == init + [e];
    }
  }

  /** The marks of one recorded reference: its own line, then its DRAM accesses. */
  function RefMarks(line: Line, es: seq<Event>): seq<Marked> {
    [Marked(line, ACCESSES)] + DramMarks(es)
  }

  lemma RefLines(line: Line, es: seq<Event>, stream: nat)
    requires stream < 3
    ensures MarksOk(RefMarks(line, es))
    ensures LinesOn(RefMarks(line, es), stream) == if stream == ACCESSES then [line as nat] else DramOn(es, stream)
  {
    DramLines(es, stream);
    LinesOnConcat([Marked(line, ACCESSES)], DramMarks(es), stream);
    LinesOnOne(Marked(line, ACCESSES), stream);
  }

  lemma MatchingStep(w: Window, line: Line, es: seq<Event>)
    requires Matching(w)
    requires forall i :: 0 <= i < |es| && !es[i].write ==> es[i].line == line
    ensures Matching(w.(marks := w.marks + RefMarks(line, es), drams := w.drams + es))
  {
    hide LinesOn, ReadsOf, RefMarks;
    var a := RefMarks(line, es);
    RefLines(line, es, ACCESSES);
    RefLines(line, es, FILLS);
    RefLines(line, es, TRAFFIC);
    LinesOnConcat(w.marks, a, ACCESSES);
    LinesOnConcat(w.marks, a, FILLS);
    LinesOnConcat(w.marks, a, TRAFFIC);
    ReadsConcat(w.drams, es);
    LineStreamConcat(w.drams, es);
    LineStreamConcat(ReadsOf(w.drams), ReadsOf(es));
    ReadLines(es, line);
  }

  lemma {:induction false} ReadLines(es: seq<Event>, line: Line)
    requires forall i :: 0 <= i < |es| && !es[i].write ==> es[i].line == line
    ensures forall i :: 0 <= i < |ReadsOf(es)| ==> ReadsOf(es)[i].line == line
  {
    if es != [] { ReadLines(es[..|es| - 1], line); }
  }

  // ---------- one transaction ----------

  ghost predicate OwnFills(es: seq<Event>, line: Line, most: nat) {
    |es| <= most && forall i :: 0 <= i < |es| && !es[i].write ==> es[i].line == line
  }

  lemma OutgoingShape(llc: Level, o: Outcome, line: Line)
    requires Ok(llc)
    ensures OwnFills(Outgoing(llc, o).1, line, 1)
  {
  }

  lemma DemandShape(llc: Level, line: Line)
    requires Ok(llc)
    ensures OwnFills(DemandFill(llc, line).1, line, 2)
  {
  }

  lemma SharedShape(llc: Level, line: Line, r: PrivateResult)
    requires Ok(llc)
    ensures OwnFills(SharedStep(llc, line, r).1, line, 4)
  {
    var (c1, e1) := Outgoing(llc, r.eviction);
    var (c2, e2) := Outgoing(c1, r.demand);
    OutgoingShape(llc, r.eviction, line);
    OutgoingShape(c1, r.demand, line);
    DemandShape(c2, line);
  }

  /** One transaction emits at most four DRAM accesses, and fills nothing but its own line. */
  lemma EmittedShape(c: Config, llc: Level, line: Line, t: AccessType, r: PrivateResult)
    requires Ok(llc)
    ensures OwnFills(Emitted(c, llc, line, t, r).1, line, 4)
  {
    if c.useCache {
      SharedShape(llc, line, r);
      KeptShape(c, SharedStep(llc, line, r).1);
    }
  }

  lemma {:induction false} KeptShape(c: Config, es: seq<Event>)
    ensures |Kept(c, es)| <= |es| && forall i :: 0 <= i < |Kept(c, es)| ==> Kept(c, es)[i] in es
  {
    if !c.countWB && es != [] {
      var init := es[..|es| - 1];
      KeptShape(c, init);
      assert forall e :: e in init ==> e in es;
      assert es[|es| - 1] in es;
    }
  }

  // ---------- the invariant ----------

  /** No reference reached DRAM. */
  ghost predicate Silent(byRef: seq<nat>) {
    forall i :: 0 <= i < |byRef| ==> byRef[i] == 0
  }

  /** A window closed by a clock of E accesses or R references holds E to E + 3, or exactly R unless
      an unpaired window was still silent after R references: then its last one broke the silence. */
  ghost predicate InTime(c: Config, w: Window) {
    && (c.epochEvents > 0 ==> |w.drams| <= c.epochEvents + 3)
    && (c.epochRefs > 0 && c.paired ==> EventsOf(w.marks, ACCESSES) <= c.epochRefs)
    && (c.epochRefs > 0 && !c.paired && |w.byRef| > c.epochRefs ==> Silent(w.byRef[..|w.byRef| - 1]))
  }

  ghost predicate WindowOk(c: Config, w: Window) {
    && (if c.paired then Matching(w) else w.marks == [])
    && (w.drams != [] || w.marks != []) && (w.drams == [] <==> Silent(w.byRef))
    && InTime(c, w)
  }

  ghost predicate OpenOk(c: Config, s: State) {
    && (if c.paired then Matching(s.current) && s.epochRefs == EventsOf(s.current.marks, ACCESSES)
        else s.current.marks == [])
    && s.dramAccesses == |s.current.drams|
    && s.epochRefs == |s.current.byRef| && (s.current.drams == [] <==> Silent(s.current.byRef))
  }

  /** The open window has not reached its clock. */
  ghost predicate NotDue(c: Config, s: State) {
    && (c.epochEvents > 0 ==> s.dramAccesses < c.epochEvents)
    && (c.epochRefs > 0 ==> s.epochRefs < c.epochRefs || (!c.paired && s.current.drams == []))
  }

  ghost predicate Limited(c: Config, s: State) {
    && s.epochId == |s.closed|
    && (c.maxEpochs > 0 ==> s.epochId <= c.maxEpochs && (s.epochId == c.maxEpochs ==> s.phase.Done? && Nothing(c, s)))
  }

  ghost predicate Inv(c: Config, s: State) {
    && s.profileStart <= s.insCount && s.epochStart <= s.insCount
    && OpenOk(c, s) && NotDue(c, s) && Limited(c, s)
    && forall i :: 0 <= i < |s.closed| ==> WindowOk(c, s.closed[i])
  }

  lemma NothingOk(c: Config)
    ensures c.paired ==> Matching(EMPTY)
  {
  }

  /** Closing a window keeps the invariant, provided the clock overran by one transaction at most. */
  lemma FinishKeeps(c: Config, s: State)
    requires OpenOk(c, s) && Limited(c, s) && s.profileStart <= s.insCount && s.epochStart <= s.insCount
    requires InTime(c, s.current)
    requires c.maxEpochs > 0 ==> s.epochId < c.maxEpochs || Nothing(c, s)
    requires forall i :: 0 <= i < |s.closed| ==> WindowOk(c, s.closed[i])
    requires Nothing(c, s) ==> NotDue(c, s)
    ensures Inv(c, FinishEpoch(c, s)) && Nothing(c, FinishEpoch(c, s))
  {
    if !Nothing(c, s) {
      var s' := FinishEpoch(c, s);
      assert WindowOk(c, s.current);
      NothingOk(c);
    }
  }

  lemma {:induction false} AccessEvents(marks: seq<Marked>, stream: nat)
    ensures EventsOf(marks, stream) == |LinesOn(marks, stream)|
  {
    if marks != [] { AccessEvents(marks[..|marks| - 1], stream); }
  }

  function Extended(c: Config, w: Window, line: Line, es: seq<Event>): Window {
    Window(w.marks + (if c.paired then RefMarks(line, es) else []), w.drams + es, w.byRef + [|es|])
  }

  lemma ExtendedWindow(c: Config, s: State, line: Line, es: seq<Event>, llc: Level)
    ensures RecordAll(c, Arrive(c, s, line).(llc := llc), es).current == Extended(c, s.current, line, es)
  {
    if c.paired {
      assert s.current.marks + [Marked(line, ACCESSES)] + DramMarks(es) == s.current.marks + RefMarks(line, es);
    } else {
      assert s.current.marks + [] + [] == s.current.marks + [];
    }
  }

  lemma RefEvents(marks: seq<Marked>, line: Line, es: seq<Event>)
    ensures EventsOf(marks + RefMarks(line, es), ACCESSES) == EventsOf(marks, ACCESSES) + 1
  {
    EventsConcat(marks, RefMarks(line, es), ACCESSES);
    RefLines(line, es, ACCESSES);
    AccessEvents(RefMarks(line, es), ACCESSES);
  }

  lemma SilentStep(byRef: seq<nat>, n: nat)
    ensures Silent(byRef + [n]) <==> Silent(byRef) && n == 0
    ensures (byRef + [n])[..|byRef|] == byRef
  {
    var more := byRef + [n];
    assert more[|byRef|] == n && forall i :: 0 <= i < |byRef| ==> more[i] == byRef[i];
  }

  lemma RecordedRef(c: Config, s: State, line: Line, es: seq<Event>, llc: Level)
    requires OpenOk(c, s) && NotDue(c, s) && OwnFills(es, line, 4)
    ensures var s1 := RecordAll(c, Arrive(c, s, line).(llc := llc), es);
      && OpenOk(c, s1) && InTime(c, s1.current)
      && (c.epochRefs > 0 && c.paired ==> s1.epochRefs <= c.epochRefs)
      && (c.paired ==> s1.current.marks != [])
  {
    ExtendedWindow(c, s, line, es, llc);
    SilentStep(s.current.byRef, |es|);
    if c.paired {
      MatchingStep(s.current, line, es);
      RefEvents(s.current.marks, line, es);
    }
  }

  lemma SharedKeeps(c: Config, s: State, line: Line, t: AccessType, r: PrivateResult)
    requires Accepted(c) && Ok(s.llc) && Inv(c, s)
    ensures Inv(c, Shared(c, s, line, t, r))
  {
    if !s.phase.Done? && Recording(s) {
      var (llc, es) := Emitted(c, s.llc, line, t, r);
      EmittedShape(c, s.llc, line, t, r);
      RecordedRef(c, s, line, es, llc);
      var s1 := RecordAll(c, Arrive(c, s, line).(llc := llc), es);
      if ClockDue(c, s1) { FinishKeeps(c, s1); }
    }
  }

  /** The instruction clocks and the phase may move without touching what was recorded. */
  lemma MovedKeeps(c: Config, s: State, ins: nat, start: nat, epochStart: nat, phase: Phase)
    requires Inv(c, s) && start <= ins && epochStart <= ins && (s.phase.Done? ==> phase.Done?)
    ensures Inv(c, s.(insCount := ins, profileStart := start, epochStart := epochStart, phase := phase))
  {
    hide WindowOk, Matching;
  }

  lemma Clocks(c: Config, s: State)
    requires Inv(c, s)
    ensures s.profileStart <= s.insCount && s.epochStart <= s.insCount
  {
  }

  lemma ClosingKeeps(c: Config, s: State)
    requires Inv(c, s)
    ensures Inv(c, FinishEpoch(c, s))
  {
    hide FinishEpoch, WindowOk, Matching;
    FinishKeeps(c, s);
  }

  lemma RetiredKeeps(c: Config, s: State, n: nat)
    requires Inv(c, s)
    ensures Inv(c, Retired(c, s, n))
  {
    hide FinishEpoch, Inv;
    Clocks(c, s);
    var ins := s.insCount + n;
    MovedKeeps(c, s, ins, s.profileStart, s.epochStart, s.phase);
    if s.phase.Profile? {
      MovedKeeps(c, s, ins, s.profileStart, s.epochStart, Done);
      MovedKeeps(c, s, ins, s.profileStart, ins, Profile);
      ClosingKeeps(c, s.(insCount := ins, epochStart := ins));
    } else if !s.phase.Done? {
      MovedKeeps(c, s, ins, ins, ins, Warmup);
      MovedKeeps(c, s, ins, ins, ins, Profile);
    }
  }

  /** The end of the program closes the window, whatever was open. */
  lemma ControlKeeps(c: Config, s: State, a: Action)
    requires Inv(c, s) && !a.Reference?
    ensures Inv(c, Control(c, s, a))
    ensures a.Fini? ==> Nothing(c, Control(c, s, a))
  {
    match a {
      case Retire(n) => RetiredKeeps(c, s, n);
      case RoiEnter =>
      case RoiExit => ClosingKeeps(c, s.(roi := false));
      case Fini => ClosingKeeps(c, s);
    }
  }

  lemma {:induction false} RunKeeps(c: Config, m: Machine, actions: seq<Action>)
    requires Accepted(c) && MachineOk(m) && TidsIn(actions, |m.threads|) && Inv(c, m.shared)
    ensures Inv(c, Run(c, m, actions).shared)
  {
    if actions != [] {
      var init, a := actions[..|actions| - 1], actions[|actions| - 1];
      RunKeeps(c, m, init);
      var before := Run(c, m, init);
      if a.Reference? {
        SharedKeeps(c, before.shared, a.line, a.t, Work(c, before.threads[a.tid], a.line, a.t).1);
      } else {
        ControlKeeps(c, before.shared, a);
      }
    }
  }

  lemma InitialInv(c: Config, llc: Level, roi: bool)
    requires Accepted(c)
    ensures Inv(c, Initial(c, llc, roi))
  {
    NothingOk(c);
  }

  // ---------- phases and instruction clocks ----------

  function Rank(p: Phase): nat {
    match p case FastForward => 0 case Warmup => 1 case Profile => 2 case Done => 3
  }

  ghost predicate Untouched(s: State) {
    s.closed == [] && s.current == EMPTY && s.refs == 0 && s.dramAccesses == 0 && s.epochId == 0
  }

  /** Nothing is recorded before the profile phase, which starts after the fast-forward and warmup
      instructions; while it lasts neither the length nor the instruction window has run out. */
  ghost predicate Timed(c: Config, s: State) {
    && s.profileStart <= s.insCount && s.epochStart <= s.insCount
    && (s.phase.FastForward? ==> s.insCount < c.ff && Untouched(s))
    && (s.phase.Warmup? ==> s.insCount >= c.ff && c.warmup > 0 && Untouched(s))
    && (s.phase.Profile? ==>
          && s.insCount >= c.ff + c.warmup
          && (c.length > 0 ==> s.insCount - s.profileStart < c.length)
          && (c.epochIns > 0 && s.roi ==> s.insCount - s.epochStart < c.epochIns))
  }

  lemma FinishTimed(c: Config, s: State)
    requires Timed(c, s)
    ensures Timed(c, FinishEpoch(c, s)) && Rank(FinishEpoch(c, s).phase) >= Rank(s.phase)
  {
  }

  lemma SharedTimed(c: Config, s: State, line: Line, t: AccessType, r: PrivateResult)
    requires Ok(s.llc) && Timed(c, s)
    ensures var s' := Shared(c, s, line, t, r);
      Timed(c, s') && Rank(s'.phase) >= Rank(s.phase)
  {
    hide FinishEpoch, Emitted;
    if Recording(s) {
      var s1 := Transacted(c, Arrive(c, s, line), line, t, r, true);
      FinishTimed(c, s1);
    }
  }

  lemma ControlTimed(c: Config, s: State, a: Action)
    requires Timed(c, s) && !a.Reference?
    ensures Timed(c, Control(c, s, a)) && Rank(Control(c, s, a).phase) >= Rank(s.phase)
  {
    hide FinishEpoch;
    match a {
      case Retire(n) => RetiredTimed(c, s, n);
      case RoiEnter =>
      case RoiExit => FinishTimed(c, s.(roi := false));
      case Fini => FinishTimed(c, s);
    }
  }

  lemma RetiredTimed(c: Config, s: State, n: nat)
    requires Timed(c, s)
    ensures Timed(c, Retired(c, s, n)) && Rank(Retired(c, s, n).phase) >= Rank(s.phase)
  {
    hide FinishEpoch;
    var s' := s.(insCount := s.insCount + n, epochStart := s.insCount + n);
    if s.phase.Profile? && !(c.length > 0 && s'.insCount - s.profileStart >= c.length) { FinishTimed(c, s'); }
  }

  /** Phases advance in order over every run, and each keeps its instruction bounds. */
  lemma {:induction false} PhasesInOrder(c: Config, m: Machine, actions: seq<Action>)
    requires MachineOk(m) && TidsIn(actions, |m.threads|) && Timed(c, m.shared)
    ensures Timed(c, Run(c, m, actions).shared) && Rank(Run(c, m, actions).shared.phase) >= Rank(m.shared.phase)
  {
    hide Work, Shared;
    if actions != [] {
      var init, a := actions[..|actions| - 1], actions[|actions| - 1];
      PhasesInOrder(c, m, init);
      var before := Run(c, m, init);
      if a.Reference? {
        SharedTimed(c, before.shared, a.line, a.t, Work(c, before.threads[a.tid], a.line, a.t).1);
      } else {
        ControlTimed(c, before.shared, a);
      }
    }
  }

  lemma InitialTimed(c: Config, llc: Level, roi: bool)
    ensures Timed(c, Initial(c, llc, roi))
  {
  }

  /** From program start the bounds hold throughout, and phases never go back between two moments. */
  lemma PhasesFromStart(c: Config, m: Machine, actions: seq<Action>, more: seq<Action>, roi: bool)
    requires MachineOk(m) && m.shared == Initial(c, m.shared.llc, roi)
    requires TidsIn(actions, |m.threads|) && TidsIn(more, |m.threads|)
    ensures var earlier := Run(c, m, actions); var later := Run(c, earlier, more);
      && Timed(c, earlier.shared) && Timed(c, later.shared)
      && Rank(earlier.shared.phase) <= Rank(later.shared.phase)
  {
    hide Timed, Initial, Run;
    InitialTimed(c, m.shared.llc, roi);
    PhasesInOrder(c, m, actions);
    PhasesInOrder(c, Run(c, m, actions), more);
  }
}
