/** Whole-run line sets of a profiled run: from cold caches, with every transaction recorded, the
    accessed, filled and transferred lines are the same. */
module ColdRuns {
  import Tokens
  import opened CacheSpec
  import opened Hierarchy
  import opened Observation
  import Cascade
  import opened Coverage
  import opened ProfilerSpec
  import opened ProfilerRuns
  import opened Agreement

  function Lines(marks: seq<Marked>, stream: nat): set<Line> {
    set i | 0 <= i < |marks| && marks[i].stream == stream :: marks[i].line
  }

  lemma MarksUnion(a: seq<Marked>, b: seq<Marked>, stream: nat)
    ensures Lines(a + b, stream) == Lines(a, stream) + Lines(b, stream)
  {
    var c := a + b;
    assert forall i :: 0 <= i < |a| ==> c[i] == a[i];
    assert forall i :: 0 <= i < |b| ==> c[|a| + i] == b[i];
  }

  lemma OneDramLines(e: Event)
    ensures Lines(MarksOfDram(e), ACCESSES) == {}
    ensures Lines(MarksOfDram(e), FILLS) == FillLines([e]) && Lines(MarksOfDram(e), TRAFFIC) == TrafficLines([e])
  {
    var ms := MarksOfDram(e);
    assert [e][0] == e && ms[|ms| - 1] == Marked(e.line, TRAFFIC);
    if !e.write { assert ms[0] == Marked(e.line, FILLS); }
  }

  lemma {:induction false} DramLineSets(es: seq<Event>)
    ensures Lines(DramMarks(es), ACCESSES) == {}
    ensures Lines(DramMarks(es), FILLS) == FillLines(es) && Lines(DramMarks(es), TRAFFIC) == TrafficLines(es)
  {
    if es != [] {
      var init, e := es[..|es| - 1], es[|es| - 1];
      DramLineSets(init);
      OneDramLines(e);
      MarksUnion(DramMarks(init), MarksOfDram(e), ACCESSES);
      MarksUnion(DramMarks(init), MarksOfDram(e), FILLS);
      MarksUnion(DramMarks(init), MarksOfDram(e), TRAFFIC);
      LinesConcat(init, [e]);
      assert es == init + [e];
    }
  }

  lemma RefLineSets(line: Line, es: seq<Event>)
    ensures Lines(RefMarks(line, es), ACCESSES) == {line}
    ensures Lines(RefMarks(line, es), FILLS) == FillLines(es) && Lines(RefMarks(line, es), TRAFFIC) == TrafficLines(es)
  {
    var a := [Marked(line, ACCESSES)];
    assert a[0] == Marked(line, ACCESSES);
    assert Lines(a, ACCESSES) == {line} && Lines(a, FILLS) == {} && Lines(a, TRAFFIC) == {};
    DramLineSets(es);
    MarksUnion(a, DramMarks(es), ACCESSES);
    MarksUnion(a, DramMarks(es), FILLS);
    MarksUnion(a, DramMarks(es), TRAFFIC);
  }

  /** Every reference the run serves is recorded. */
  ghost predicate AlwaysRecording(c: Config, m: Machine, actions: seq<Action>)
    requires MachineOk(m) && TidsIn(actions, |m.threads|)
  {
    actions == []
    || (var init, a := actions[..|actions| - 1], actions[|actions| - 1];
        && AlwaysRecording(c, m, init)
        && (a.Reference? ==> var s := Run(c, m, init).shared; s.phase.Done? || Recording(s)))
  }

  /** Accessed lines were filled unless warm, filled lines were accessed, and traffic is of lines
      warm or accessed. */
  ghost predicate Nested(accesses: set<Line>, fills: set<Line>, traffic: set<Line>, warm: set<Line>) {
    accesses - warm <= fills <= accesses && fills <= traffic <= warm + accesses
  }

  ghost predicate LineSets(marks: seq<Marked>, warm: set<Line>) {
    Nested(Lines(marks, ACCESSES), Lines(marks, FILLS), Lines(marks, TRAFFIC), warm)
  }

  ghost predicate CachesIn(m: Machine, s: set<Line>)
    requires MachineOk(m)
  {
    AllIn(Cascade.Sys(m.threads, m.shared.llc), s)
  }

  /** One transaction's marks: its line, its fills of that line, its traffic of held lines. */
  lemma LineSetsStep(marks: seq<Marked>, line: Line, es: seq<Event>, warm: set<Line>)
    requires LineSets(marks, warm)
    requires EventsIn(es, warm + Lines(marks, ACCESSES) + {line}) && FillLines(es) <= {line}
    requires line !in warm + Lines(marks, ACCESSES) ==> line in FillLines(es)
    ensures LineSets(marks + RefMarks(line, es), warm)
    ensures Lines(marks + RefMarks(line, es), ACCESSES) == Lines(marks, ACCESSES) + {line}
  {
    RefLineSets(line, es);
    MarksUnion(marks, RefMarks(line, es), ACCESSES);
    MarksUnion(marks, RefMarks(line, es), FILLS);
    MarksUnion(marks, RefMarks(line, es), TRAFFIC);
    assert FillLines(es) <= TrafficLines(es) <= warm + Lines(marks, ACCESSES) + {line};
  }

  lemma RecordedStep(c: Config, m: Machine, a: Action, warm: set<Line>)
    requires Accepted(c) && c.paired && MachineOk(m) && a.Reference? && a.tid < |m.threads|
    requires Recording(m.shared) && LineSets(AllMarks(m.shared), warm)
    requires CachesIn(m, warm + Lines(AllMarks(m.shared), ACCESSES))
    ensures LineSets(AllMarks(Step(c, m, a).shared), warm)
    ensures CachesIn(Step(c, m, a), warm + Lines(AllMarks(Step(c, m, a).shared), ACCESSES))
  {
    var marks := AllMarks(m.shared);
    var s := warm + Lines(marks, ACCESSES);
    Coverage.StepIn(Cascade.Sys(m.threads, m.shared.llc), Cascade.Txn(a.tid, a.line, a.t), s);
    var r := PrivateStep(m.threads[a.tid], a.line, a.t).1;
    var es := SharedStep(m.shared.llc, a.line, r).1;
    LineSetsStep(marks, a.line, es, warm);
    SharedMarks(c, m.shared, a.line, a.t, r);
    assert warm + (Lines(marks, ACCESSES) + {a.line}) == s + {a.line};
    SharedCaches(c, m, a);
  }

  /** The profiler's caches move as the bare cascade's do. */
  lemma SharedCaches(c: Config, m: Machine, a: Action)
    requires c.useCache && MachineOk(m) && a.Reference? && a.tid < |m.threads| && !m.shared.phase.Done?
    ensures var m' := Step(c, m, a);
      Cascade.Sys(m'.threads, m'.shared.llc)
        == Cascade.Step(Cascade.Sys(m.threads, m.shared.llc), Cascade.Txn(a.tid, a.line, a.t)).0
  {
  }

  /** Any run that records all it serves, from any state whose caches hold lines of `warm` only. */
  lemma {:induction false} LineSetsOfRun(c: Config, m: Machine, actions: seq<Action>, warm: set<Line>)
    requires Accepted(c) && c.paired && MachineOk(m) && TidsIn(actions, |m.threads|)
    requires AlwaysRecording(c, m, actions) && AllMarks(m.shared) == [] && CachesIn(m, warm)
    ensures var m' := Run(c, m, actions);
      && LineSets(AllMarks(m'.shared), warm)
      && (!m'.shared.phase.Done? ==> CachesIn(m', warm + Lines(AllMarks(m'.shared), ACCESSES)))
  {
    if actions == [] {
      assert warm + Lines(AllMarks(m.shared), ACCESSES) == warm;
    } else {
      var init, a := actions[..|actions| - 1], actions[|actions| - 1];
      LineSetsOfRun(c, m, init, warm);
      var before := Run(c, m, init);
      if !a.Reference? {
        ControlMarks(c, before.shared, a);
        DoneStays(c, before, a);
      } else if !before.shared.phase.Done? {
        RecordedStep(c, before, a, warm);
      }
    }
  }

  /** No step leaves the final phase. */
  lemma DoneStays(c: Config, m: Machine, a: Action)
    requires MachineOk(m) && (a.Reference? ==> a.tid < |m.threads|)
    ensures m.shared.phase.Done? ==> Step(c, m, a).shared.phase.Done?
  {
  }

  /** Equal line sets have equal histograms. */
  lemma SameLinesSameHist(marks: seq<Marked>, a: nat, b: nat, words: nat)
    requires MarksOk(marks) && a < 3 && b < 3 && Lines(marks, a) == Lines(marks, b)
    ensures Hist(PagesOf(marks), a, OWN, words) == Hist(PagesOf(marks), b, OWN, words)
  {
    var pages := PagesOf(marks);
    forall p, x | p in pages ensures x in pages[p][a] <==> x in pages[p][b] {
      BitMeaning(marks, p, a, x);
      BitMeaning(marks, p, b, x);
      MarkedInLines(marks, p, a, x);
      MarkedInLines(marks, p, b, x);
    }
    assert forall p :: p in pages ==> pages[p][a] == pages[p][b];
    assert PagesWith(pages, a, OWN, words) == PagesWith(pages, b, OWN, words);
  }

  lemma MarkedInLines(marks: seq<Marked>, page: nat, stream: nat, x: nat)
    ensures WasMarked(marks, page, stream, x) <==>
      exists l :: l in Lines(marks, stream) && l / 64 == page && l % 64 == x
  {
    if WasMarked(marks, page, stream, x) {
      var i :| 0 <= i < |marks| && marks[i].line / 64 == page && marks[i].line % 64 == x && marks[i].stream == stream;
      assert marks[i].line in Lines(marks, stream);
    }
  }

  /** From cold caches the whole-run histograms of accesses, fills and traffic are equal. */
  lemma ColdHistogramsAgree(c: Config, m: Machine, actions: seq<Action>, words: nat)
    requires Accepted(c) && c.paired && MachineOk(m) && TidsIn(actions, |m.threads|)
    requires AlwaysRecording(c, m, actions) && AllMarks(m.shared) == []
    requires Tokens.IsCold(Cascade.Sys(m.threads, m.shared.llc)) && Inv(c, m.shared)
    ensures var marks := AllMarks(Run(c, m, actions).shared);
      && MarksOk(marks) && Lines(marks, ACCESSES) == Lines(marks, FILLS) == Lines(marks, TRAFFIC)
      && Hist(PagesOf(marks), ACCESSES, OWN, words) == Hist(PagesOf(marks), FILLS, OWN, words)
      && Hist(PagesOf(marks), ACCESSES, OWN, words) == Hist(PagesOf(marks), TRAFFIC, OWN, words)
  {
    var s := Run(c, m, actions).shared;
    var marks := AllMarks(s);
    forall i | 0 <= i < |m.threads| ensures PrivateIn(m.threads[i], {}) {
      assert Tokens.IsColdPrivate(m.threads[i]);
    }
    LineSetsOfRun(c, m, actions, {});
    RunKeeps(c, m, actions);
    forall i | 0 <= i < |s.closed| ensures MarksOk(MarkWindows(s.closed)[i]) { assert WindowOk(c, s.closed[i]); }
    FlattenMarks(MarkWindows(s.closed));
    SameLinesSameHist(marks, ACCESSES, FILLS, words);
    SameLinesSameHist(marks, ACCESSES, TRAFFIC, words);
  }
}
