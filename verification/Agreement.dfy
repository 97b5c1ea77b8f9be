/** The two recorders agree: what the audit checks on output files, proved for every run. */
module Agreement {
  import opened CacheSpec
  import opened Hierarchy
  import opened Observation
  import opened CounterSpec
  import opened ProfilerSpec
  import opened ProfilerRuns

  // ---------- one window ----------

  lemma {:induction false} MarkedIsOn(marks: seq<Marked>, page: nat, stream: nat, b: nat)
    ensures WasMarked(marks, page, stream, b) <==> b < 64 && LineNo(page, b) in LinesOn(marks, stream)
  {
    if marks != [] {
      var init, m := marks[..|marks| - 1], marks[|marks| - 1];
      MarkedIsOn(init, page, stream, b);
      MarkedConcat(init, [m], page, stream, b);
      assert marks == init + [m];
      assert WasMarked([m], page, stream, b) <==> b < 64 && m.stream == stream && m.line == LineNo(page, b) by {
        assert [m][0] == m;
      }
    }
  }

  lemma CountedIsInStream(drams: seq<Event>, line: nat)
    ensures LineCount(drams, line) > 0 <==> line in LineStream(drams)
  {
    CountedIsRecorded(drams, line);
    assert forall i :: 0 <= i < |drams| ==> LineStream(drams)[i] == drams[i].line;
  }

  /** The traffic mask of every page is the counter table's touched mask of that page. */
  lemma MasksAgree(w: Window, page: nat)
    requires Matching(w)
    ensures MasksAt(PagesOf(w.marks), page)[TRAFFIC] == RecOf(w.drams, page).mask
  {
    RecOfDescribes(w.drams, page);
    forall b: nat ensures b in MasksAt(PagesOf(w.marks), page)[TRAFFIC] <==> b in RecOf(w.drams, page).mask {
      BitMeaning(w.marks, page, TRAFFIC, b);
      MarkedIsOn(w.marks, page, TRAFFIC, b);
      CountedIsInStream(w.drams, LineNo(page, b));
    }
  }

  /** Pages of a window with exactly n distinct words touched. */
  ghost function UniquePages(drams: seq<Event>, n: nat): set<nat> {
    set p | p in TouchedPages(drams) && |RecOf(drams, p).mask| == n
  }

  lemma HistogramsAgree(w: Window, n: nat)
    requires Matching(w)
    ensures Hist(PagesOf(w.marks), TRAFFIC, OWN, n) == |UniquePages(w.drams, n)|
  {
    var pages := PagesOf(w.marks);
    forall p ensures p in PagesWith(pages, TRAFFIC, OWN, n) <==> p in UniquePages(w.drams, n) {
      MasksAgree(w, p);
      MaskIsTouched(w.drams, p);
    }
    assert PagesWith(pages, TRAFFIC, OWN, n) == UniquePages(w.drams, n);
  }

  lemma FillsWereAccessed(w: Window)
    requires Matching(w)
    ensures FillsAccessed(PagesOf(w.marks))
  {
    var pages := PagesOf(w.marks);
    forall p, b | p in pages && b in pages[p][FILLS] ensures b in pages[p][ACCESSES] {
      BitMeaning(w.marks, p, FILLS, b);
      BitMeaning(w.marks, p, ACCESSES, b);
      MarkedIsOn(w.marks, p, FILLS, b);
      MarkedIsOn(w.marks, p, ACCESSES, b);
    }
  }

  // ---------- all windows ----------

  function MarkWindows(ws: seq<Window>): (ms: seq<seq<Marked>>)
    ensures |ms| == |ws|
  {
    seq(|ws|, i requires 0 <= i < |ws| => ws[i].marks)
  }

  function AllMarks(s: State): seq<Marked> {
    Flatten(MarkWindows(s.closed)) + s.current.marks
  }

  /** The summary's histogram: unique-word counts accumulated over the closed windows. */
  ghost function SummaryHist(ws: seq<Window>, n: nat): nat {
    if ws == [] then 0 else SummaryHist(ws[..|ws| - 1], n) + |UniquePages(ws[|ws| - 1].drams, n)|
  }

  function TotalDrams(ws: seq<Window>): nat {
    if ws == [] then 0 else TotalDrams(ws[..|ws| - 1]) + |ws[|ws| - 1].drams|
  }

  ghost predicate AllMatching(ws: seq<Window>) {
    forall i :: 0 <= i < |ws| ==> Matching(ws[i])
  }

  lemma MarkWindowsInit(ws: seq<Window>)
    requires ws != []
    ensures MarkWindows(ws)[..|ws| - 1] == MarkWindows(ws[..|ws| - 1])
  {
  }

  /** The pooled own-traffic histogram is the summary's unique-word histogram. */
  lemma {:induction false} PooledIsSummary(ws: seq<Window>, n: nat)
    requires AllMatching(ws)
    ensures WindowsOk(MarkWindows(ws)) && Pooled(PagesOfAll(MarkWindows(ws)), TRAFFIC, OWN, n) == SummaryHist(ws, n)
  {
    hide Hist, PagesOf, UniquePages;
    if ws != [] {
      var init := ws[..|ws| - 1];
      PooledIsSummary(init, n);
      MarkWindowsInit(ws);
      assert PagesOfAll(MarkWindows(ws))[..|ws| - 1] == PagesOfAll(MarkWindows(init));
      HistogramsAgree(ws[|ws| - 1], n);
    }
  }

  /** The traffic events of all windows are the DRAM accesses the summary counted. */
  lemma {:induction false} TrafficTotal(ws: seq<Window>)
    requires AllMatching(ws)
    ensures SumEvents(MarkWindows(ws), TRAFFIC) == TotalDrams(ws)
  {
    if ws != [] {
      TrafficTotal(ws[..|ws| - 1]);
      MarkWindowsInit(ws);
      AccessEvents(ws[|ws| - 1].marks, TRAFFIC);
    }
  }

  lemma PooledCdfs(ws: seq<Window>, words: nat)
    requires AllMatching(ws)
    ensures WindowsOk(MarkWindows(ws))
    ensures var ps := PagesOfAll(MarkWindows(ws));
      && PooledCumulative(ps, ACCESSES, FILL_PAGES, words) <= PooledCumulative(ps, FILLS, FILL_PAGES, words)
      && PooledCumulative(ps, ACCESSES, FILL_PAGES, 64) == PooledCumulative(ps, FILLS, FILL_PAGES, 64)
  {
    var ps := PagesOfAll(MarkWindows(ws));
    forall i | 0 <= i < |ps| ensures PagesOk(ps[i]) && FillsAccessed(ps[i]) { FillsWereAccessed(ws[i]); }
    PooledAccessBelowFill(ps, words);
  }

  // ---------- over every run ----------

  lemma FinishKeepsMarks(c: Config, s: State)
    ensures AllMarks(FinishEpoch(c, s)) == AllMarks(s)
  {
    if !Nothing(c, s) {
      MarkWindowsInit(s.closed + [s.current]);
      assert (s.closed + [s.current])[..|s.closed|] == s.closed;
    }
  }

  /** What one transaction adds to the marks. */
  lemma SharedMarks(c: Config, s: State, line: Line, t: AccessType, r: PrivateResult)
    requires Ok(s.llc) && c.paired
    ensures AllMarks(Shared(c, s, line, t, r))
      == AllMarks(s) + if Recording(s) then RefMarks(line, Emitted(c, s.llc, line, t, r).1) else []
    ensures Shared(c, s, line, t, r).refs == s.refs + if Recording(s) then 1 else 0
  {
    if Recording(s) {
      var (llc, es) := Emitted(c, s.llc, line, t, r);
      var s1 := RecordAll(c, Arrive(c, s, line).(llc := llc), es);
      ExtendedWindow(c, s, line, es, llc);
      assert AllMarks(s1) == AllMarks(s) + RefMarks(line, es);
      FinishKeepsMarks(c, s1);
    } else {
      assert AllMarks(s) + [] == AllMarks(s);
    }
  }

  lemma ControlMarks(c: Config, s: State, a: Action)
    requires c.paired && !a.Reference?
    ensures AllMarks(Control(c, s, a)) == AllMarks(s) && Control(c, s, a).refs == s.refs
  {
    match a {
      case Retire(n) => FinishKeepsMarks(c, s.(insCount := s.insCount + n, epochStart := s.insCount + n));
      case RoiEnter =>
      case RoiExit => FinishKeepsMarks(c, s.(roi := false));
      case Fini => FinishKeepsMarks(c, s);
    }
  }

  /** The accesses recorded by the paired observer are the profiled references. */
  lemma {:induction false} RefsAreAccesses(c: Config, m: Machine, actions: seq<Action>)
    requires c.paired && MachineOk(m) && TidsIn(actions, |m.threads|)
    requires m.shared.refs == EventsOf(AllMarks(m.shared), ACCESSES)
    ensures var s := Run(c, m, actions).shared;
      s.refs == EventsOf(AllMarks(s), ACCESSES)
  {
    if actions != [] {
      var init, a := actions[..|actions| - 1], actions[|actions| - 1];
      RefsAreAccesses(c, m, init);
      var before := Run(c, m, init);
      var s := before.shared;
      if a.Reference? {
        var r := Work(c, before.threads[a.tid], a.line, a.t).1;
        SharedMarks(c, s, a.line, a.t, r);
        RefEvents(AllMarks(s), a.line, Emitted(c, s.llc, a.line, a.t, r).1);
        assert AllMarks(s) + [] == AllMarks(s);
      } else {
        ControlMarks(c, s, a);
      }
    }
  }

  /** In a paired run, in every state the run reaches: the masks of the traffic stream are those of
      the counters in the open window and in every closed one, the pooled histograms are the
      summary's, the windows' events add up to the totals, and the access CDF on fill-touched pages
      lies nowhere above the fill CDF. */
  lemma RecordersAgree(c: Config, m: Machine, actions: seq<Action>, page: nat, words: nat)
    requires Accepted(c) && c.paired && MachineOk(m) && TidsIn(actions, |m.threads|) && Inv(c, m.shared)
    requires m.shared.refs == EventsOf(AllMarks(m.shared), ACCESSES)
    ensures var s := Run(c, m, actions).shared;
      && AllMatching(s.closed) && WindowsOk(MarkWindows(s.closed)) && MarksOk(s.current.marks)
      && MasksAt(PagesOf(s.current.marks), page)[TRAFFIC] == RecOf(s.current.drams, page).mask
      && (forall i :: 0 <= i < |s.closed| ==>
            MasksAt(PagesOf(s.closed[i].marks), page)[TRAFFIC] == RecOf(s.closed[i].drams, page).mask)
    ensures var s := Run(c, m, actions).shared;
      var ps := PagesOfAll(MarkWindows(s.closed));
      && Pooled(ps, TRAFFIC, OWN, words) == SummaryHist(s.closed, words)
      && PooledCumulative(ps, ACCESSES, FILL_PAGES, words) <= PooledCumulative(ps, FILLS, FILL_PAGES, words)
      && PooledCumulative(ps, ACCESSES, FILL_PAGES, 64) == PooledCumulative(ps, FILLS, FILL_PAGES, 64)
    ensures var s := Run(c, m, actions).shared;
      && SumEvents(MarkWindows(s.closed), TRAFFIC) + EventsOf(s.current.marks, TRAFFIC)
           == TotalDrams(s.closed) + s.dramAccesses
      && SumEvents(MarkWindows(s.closed), ACCESSES) + EventsOf(s.current.marks, ACCESSES) == s.refs
  {
    var s := Run(c, m, actions).shared;
    RunKeeps(c, m, actions);
    assert AllMatching(s.closed) by {
      forall i | 0 <= i < |s.closed| ensures Matching(s.closed[i]) { assert WindowOk(c, s.closed[i]); }
    }
    MasksAgree(s.current, page);
    forall i | 0 <= i < |s.closed|
      ensures MasksAt(PagesOf(s.closed[i].marks), page)[TRAFFIC] == RecOf(s.closed[i].drams, page).mask
    {
      MasksAgree(s.closed[i], page);
    }
    PooledIsSummary(s.closed, words);
    PooledCdfs(s.closed, words);
    TrafficTotal(s.closed);
    AccessEvents(s.current.marks, TRAFFIC);
    RefsAreAccesses(c, m, actions);
    FlattenMarks(MarkWindows(s.closed));
    EventsConcat(Flatten(MarkWindows(s.closed)), s.current.marks, ACCESSES);
  }

  /** After the closing step the whole-run pages never outnumber the pooled ones. */
  lemma WholeWithinPooled(c: Config, m: Machine, actions: seq<Action>, stream: nat)
    requires Accepted(c) && c.paired && MachineOk(m) && TidsIn(actions, |m.threads|) && Inv(c, m.shared) && stream < 3
    ensures var s := Run(c, m, actions + [Fini]).shared;
      && s.current.marks == [] && WindowsOk(MarkWindows(s.closed)) && MarksOk(AllMarks(s))
      && Cumulative(PagesOf(AllMarks(s)), stream, OWN, 64)
           <= PooledCumulative(PagesOfAll(MarkWindows(s.closed)), stream, OWN, 64)
  {
    var all := actions + [Fini];
    assert all[..|all| - 1] == actions;
    var s := Run(c, m, all).shared;
    RunKeeps(c, m, actions);
    ControlKeeps(c, Run(c, m, actions).shared, Fini);
    var ms := MarkWindows(s.closed);
    forall i | 0 <= i < |ms| ensures MarksOk(ms[i]) { assert WindowOk(c, s.closed[i]); }
    FlattenMarks(ms);
    assert AllMarks(s) == Flatten(ms);
    WholeIsUnion(ms);
    WholeAtMostPooled(PagesOf(Flatten(ms)), PagesOfAll(ms), stream);
  }

  /** Windows closed by a transaction were closed by the clock and hold E to E + 3 DRAM accesses,
      or exactly R references in a paired run; any other step closes them before the clock. */
  lemma ClosedOnTime(c: Config, m: Machine, a: Action)
    requires Accepted(c) && MachineOk(m) && Inv(c, m.shared) && (a.Reference? ==> a.tid < |m.threads|)
    requires |Step(c, m, a).shared.closed| > |m.shared.closed|
    ensures var w := Step(c, m, a).shared.closed[|m.shared.closed|];
      && Step(c, m, a).shared.closed == m.shared.closed + [w]
      && (a.Reference? && c.epochEvents > 0 ==> c.epochEvents <= |w.drams| <= c.epochEvents + 3)
      && (a.Reference? && c.epochRefs > 0 && c.paired ==> EventsOf(w.marks, ACCESSES) == c.epochRefs)
      && (!a.Reference? && c.epochEvents > 0 ==> |w.drams| < c.epochEvents)
      && (!a.Reference? && c.epochRefs > 0 && c.paired ==> EventsOf(w.marks, ACCESSES) < c.epochRefs)
  {
    if a.Reference? {
      var r := Work(c, m.threads[a.tid], a.line, a.t).1;
      TransactionClosesOnTime(c, m.shared, a.line, a.t, r);
    } else {
      assert Step(c, m, a).shared == Control(c, m.shared, a);
    }
  }

  lemma TransactionClosesOnTime(c: Config, s: State, line: Line, t: AccessType, r: PrivateResult)
    requires Accepted(c) && Ok(s.llc) && Inv(c, s)
    requires |Shared(c, s, line, t, r).closed| > |s.closed|
    ensures var w := Shared(c, s, line, t, r).closed[|s.closed|];
      && Shared(c, s, line, t, r).closed == s.closed + [w]
      && (c.epochEvents > 0 ==> c.epochEvents <= |w.drams| <= c.epochEvents + 3)
      && (c.epochRefs > 0 && c.paired ==> EventsOf(w.marks, ACCESSES) == c.epochRefs)
  {
    var (llc, es) := Emitted(c, s.llc, line, t, r);
    EmittedShape(c, s.llc, line, t, r);
    RecordedRef(c, s, line, es, llc);
  }

  /** Once the epoch limit is reached no later step opens or closes a window. */
  lemma {:induction false} LimitIsFinal(c: Config, m: Machine, actions: seq<Action>)
    requires MachineOk(m) && TidsIn(actions, |m.threads|) && Inv(c, m.shared)
    requires c.maxEpochs > 0 && m.shared.epochId == c.maxEpochs
    ensures var s := Run(c, m, actions).shared;
      s.closed == m.shared.closed && s.epochId == c.maxEpochs && s.phase.Done? && Nothing(c, s) && s.dramAccesses == 0
  {
    hide Work, Shared, WindowOk, Step, Nothing, MachineOk;
    if actions == [] {
      LimitReached(c, m.shared);
    } else {
      var before := Run(c, m, actions[..|actions| - 1]);
      LimitIsFinal(c, m, actions[..|actions| - 1]);
      StuckStep(c, before, actions[|actions| - 1]);
    }
  }

  lemma LimitReached(c: Config, s: State)
    requires Inv(c, s) && c.maxEpochs > 0 && s.epochId == c.maxEpochs
    ensures s.phase.Done? && Nothing(c, s) && s.dramAccesses == 0
  {
    hide WindowOk, Matching;
  }

  /** Once profiling is over with nothing open, no step reopens it. */
  lemma StuckStep(c: Config, m: Machine, a: Action)
    requires MachineOk(m) && (a.Reference? ==> a.tid < |m.threads|)
    requires m.shared.phase.Done? && Nothing(c, m.shared)
    ensures var s, s' := m.shared, Step(c, m, a).shared;
      s'.closed == s.closed && s'.epochId == s.epochId && s'.phase.Done? && Nothing(c, s')
      && s'.dramAccesses == s.dramAccesses
  {
    hide Work, Shared;
  }
}
