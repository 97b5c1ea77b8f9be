/** The profiler's locked callbacks over the real structures, each proved to be one step of the
    state machine. The trackers it can also drive are left to the probe, which feeds them alike. */
module Profiler {
  import Bits
  import opened CacheSpec
  import opened CacheModel
  import opened Hierarchy
  import opened CounterTable
  import opened Observation
  import opened PairedObserver
  import opened ProfilerSpec
  import opened Agreement
  import Recorders
  import Summary

  class Profiler {
    const c: Config
    const llc: CacheLevel
    const counters: CounterTable
    const pair: PairedObserver
    const uniqueHist: array<nat>
    var phase: Phase
    var roi: bool
    var insCount: nat
    var profileStart: nat
    var epochStart: nat
    var dramAccesses: nat
    var epochRefs: nat
    var epochId: nat
    var refs: nat
    var accessesTotal: nat
    ghost var byRef: seq<nat>
    ghost var closed: seq<Window>

    /** No object is shared between the parts. */
    ghost predicate Apart()
      reads llc, counters`owned
    {
      && llc.Repr() !! pair.Repr() && llc.Repr() !! counters.owned && pair.Repr() !! counters.owned
      && uniqueHist !in llc.Repr() + pair.Repr() + counters.owned
      && this !in counters.owned
    }

    /** The paired observer and the summary have the same closed windows. */
    ghost predicate Consistent(seen: Seen)
      reads `accessesTotal, `closed, uniqueHist
    {
      && seen.closed == (if c.paired then MarkWindows(closed) else []) && (!c.paired ==> seen.marks == [])
      && (!c.paired ==> forall i :: 0 <= i < |closed| ==> closed[i].marks == [])
      && uniqueHist.Length == 65 && (forall n :: 0 <= n <= 64 ==> uniqueHist[n] == SummaryHist(closed, n))
      && accessesTotal == TotalDrams(closed)
    }

    ghost predicate Valid()
      reads `accessesTotal, `closed, uniqueHist, llc, llc.Repr(), counters, counters.owned, pair.Repr()
    {
      && Apart() && llc.Valid() && counters.Contents().Some? && pair.Contents().Some?
      && Consistent(pair.Contents().value)
    }

    lemma Separated()
      requires Valid()
      ensures this !in llc.Repr() + pair.Repr() + counters.owned
    {
    }

    ghost function View(): (s: State)
      requires Valid()
      reads this, uniqueHist, llc, llc.Repr(), counters, counters.owned, pair.Repr()
      ensures Ok(s.llc)
    {
      State(llc.View(), phase, roi, insCount, profileStart, epochStart, dramAccesses, epochRefs, epochId, refs,
            Window(pair.Contents().value.marks, counters.Contents().value, byRef), closed)
    }

    /** Starts with an initialised LLC, empty recorders and the phase the targets call for. */
    constructor (config: Config, cache: CacheLevel, enabled: bool)
      requires cache.Valid()
      ensures Valid() && c == config && llc == cache
      ensures View() == Initial(config, cache.View(), enabled)
      ensures fresh(uniqueHist) && fresh(counters) && fresh(counters.owned) && fresh(pair.Repr())
    {
      hide llc.Valid, llc.View, counters.Contents, pair.Contents, SummaryHist, TotalDrams, MarkWindows;
      c, llc, roi := config, cache, enabled;
      phase := if config.ff > 0 then FastForward else if config.warmup > 0 then Warmup else Profile;
      insCount, profileStart, epochStart, dramAccesses := 0, 0, 0, 0;
      epochRefs, epochId, refs, accessesTotal := 0, 0, 0, 0;
      uniqueHist := new nat[65](_ => 0);
      counters := new CounterTable();
      pair := new PairedObserver();
      byRef, closed := [], [];
      new;
      Started();
    }

    /** A new object is consistent. */
    lemma Started()
      requires Apart() && llc.Valid() && counters.Contents() == Some([]) && pair.Contents() == Some(Seen([], []))
      requires closed == [] && accessesTotal == 0 && uniqueHist.Length == 65
      requires forall n :: 0 <= n <= 64 ==> uniqueHist[n] == 0
      ensures Valid()
    {
      hide Apart, llc.Valid, counters.Contents, pair.Contents, MarkWindows, TotalDrams, SummaryHist;
      NoWindows();
    }

    /** The locked part of one reference; r is the outcome of its private part. */
    method Reference(line: Line, t: AccessType, r: PrivateResult)
      requires Valid()
      modifies this, uniqueHist, llc.Repr(), counters, counters.owned, pair.Repr()
      ensures Valid() && View() == Shared(c, old(View()), line, t, r)
      ensures llc.Repr() == old(llc.Repr()) && fresh(counters.owned - old(counters.owned))
    {
      hide Valid, Emitted, llc.View, counters.Contents, pair.Contents, ProfilerSpec.FinishEpoch;
      if phase.Done? { return; }
      if phase.Profile? && roi {
        RecordReference(line, t, r);
      } else {
        Transact(line, t, r, false);
      }
    }

    /** One line of one thread's reference, with the private part inside the lock. */
    method AnalyzeLine(l1: CacheLevel, l2: CacheLevel, line: Line, t: AccessType)
      requires Valid() && PrivateApart(l1, l2)
      modifies this, uniqueHist, llc.Repr(), counters, counters.owned, pair.Repr(), l1.Repr(), l2.Repr()
      ensures Valid() && PrivateApart(l1, l2)
      ensures Whole(l1, l2) == Step(c, old(Whole(l1, l2)), ProfilerSpec.Reference(0, line, t))
      ensures l1.Repr() == old(l1.Repr()) && l2.Repr() == old(l2.Repr()) && llc.Repr() == old(llc.Repr())
      ensures fresh(counters.owned - old(counters.owned))
    {
      hide Valid, View, PrivateApart, l1.View, l2.View, Work, Shared, Step;
      OneThread(c, Whole(l1, l2).threads[0], Whole(l1, l2).shared, line, t);
      var done := IsDone();
      if done { return; }
      var r := PrivatePart(l1, l2, line, t);
      LockedPart(l1, l2, line, t, r);
    }

    /** Every 64-byte line that the bytes addr .. addr + size - 1 touch, in ascending order. */
    method AnalyzeMemRef(l1: CacheLevel, l2: CacheLevel, addr: nat, size: nat, t: AccessType)
      requires Valid() && PrivateApart(l1, l2) && addr < ADDRESSES && size < 0x1_0000_0000
      modifies this, uniqueHist, llc.Repr(), counters, counters.owned, pair.Repr(), l1.Repr(), l2.Repr()
      ensures Valid() && PrivateApart(l1, l2)
      ensures Whole(l1, l2) == Run(c, old(Whole(l1, l2)), LinesTouched(addr, size, t))
    {
      hide Valid, View, PrivateApart, Whole, Step, LinesFrom;
      if size == 0 { return; }
      var first, count := Span(addr, size);
      AnalyzeLines(l1, l2, first, count, t);
    }

    /** The first line and the number of lines of an operand; 64-bit addition wraps. */
    static method Span(addr: nat, size: nat) returns (first: nat, count: nat)
      requires addr < ADDRESSES && 0 < size < 0x1_0000_0000
      ensures first == addr / 64 && first + count <= LINE_LIMIT
      ensures count == if addr + size > ADDRESSES then 0 else (addr + size - 1) / 64 - first + 1
    {
      assert Bits.Pow2(6) == 64;
      first := Bits.ShiftRight(addr, 6);
      var last := Bits.ShiftRight((addr + size - 1) % ADDRESSES, 6);
      count := if first <= last then last - first + 1 else 0;
    }

    /** Lines after the end of profiling change nothing. */
    method AnalyzeLines(l1: CacheLevel, l2: CacheLevel, first: nat, count: nat, t: AccessType)
      requires Valid() && PrivateApart(l1, l2) && first + count <= LINE_LIMIT
      modifies this, uniqueHist, llc.Repr(), counters, counters.owned, pair.Repr(), l1.Repr(), l2.Repr()
      ensures Valid() && PrivateApart(l1, l2)
      ensures Whole(l1, l2) == Run(c, old(Whole(l1, l2)), LinesFrom(first, count, t))
    {
      hide Valid, View, PrivateApart, Whole, Step, Run, l1.Repr, pair.Repr, LinesFrom;
      ghost var before, steps := Whole(l1, l2), LinesFrom(first, count, t);
      ghost var mine := counters.owned;
      RunNothing(c, before, steps);
      for i := 0 to count
        invariant Valid() && PrivateApart(l1, l2) && Whole(l1, l2) == Run(c, before, steps[..i])
        invariant l1.Repr() == old(l1.Repr()) && l2.Repr() == old(l2.Repr()) && llc.Repr() == old(llc.Repr())
        invariant forall o :: o in counters.owned ==> o in mine || fresh(o)
      {
        ghost var held := counters.owned;
        AnalyzeLine(l1, l2, first + i, t);
        forall o | o in counters.owned ensures o in mine || fresh(o) {
          if o !in held { assert o in counters.owned - held; }
        }
        RunOne(c, before, steps, i);
      }
      assert steps[..count] == steps;
    }

    method IsDone() returns (b: bool)
      requires Valid()
      ensures b <==> View().phase.Done?
      ensures Valid() && View() == old(View())
    {
      hide Valid, llc.View, counters.Contents, pair.Contents;
      b := phase.Done?;
    }

    method PrivatePart(l1: CacheLevel, l2: CacheLevel, line: Line, t: AccessType) returns (r: PrivateResult)
      requires Valid() && PrivateApart(l1, l2)
      modifies l1.Repr(), l2.Repr()
      ensures Valid() && PrivateApart(l1, l2) && View() == old(View())
      ensures llc.Repr() == old(llc.Repr()) && counters.owned == old(counters.owned)
      ensures l1.Repr() == old(l1.Repr()) && l2.Repr() == old(l2.Repr())
      ensures (Private(l1.View(), l2.View()), r) == Work(c, old(Private(l1.View(), l2.View())), line, t)
    {
      hide llc.Valid, llc.View, counters.Contents, pair.Contents, Consistent, PrivateStep;
      r := PrivateResult(Quiet, Quiet, false);
      if c.useCache { r := AccessPrivate(l1, l2, line, t); }
    }

    method LockedPart(l1: CacheLevel, l2: CacheLevel, line: Line, t: AccessType, r: PrivateResult)
      requires Valid() && PrivateApart(l1, l2)
      modifies this, uniqueHist, llc.Repr(), counters, counters.owned, pair.Repr()
      ensures Valid() && PrivateApart(l1, l2) && View() == Shared(c, old(View()), line, t, r)
      ensures l1.View() == old(l1.View()) && l2.View() == old(l2.View())
      ensures l1.Repr() == old(l1.Repr()) && l2.Repr() == old(l2.Repr()) && llc.Repr() == old(llc.Repr())
      ensures fresh(counters.owned - old(counters.owned))
    {
      hide Valid, View, Shared, l1.Valid, l1.View, llc.View;
      Reference(line, t, r);
    }

    /** A thread's private levels are valid and share nothing with the profiler. */
    ghost predicate PrivateApart(l1: CacheLevel, l2: CacheLevel)
      reads this, llc, counters`owned, l1, l1.Repr(), l2, l2.Repr()
    {
      && l1.Valid() && l2.Valid() && l1.Repr() !! l2.Repr()
      && l1.Repr() + l2.Repr() !! llc.Repr() + pair.Repr() + counters.owned + {uniqueHist}
    }

    ghost function Whole(l1: CacheLevel, l2: CacheLevel): (m: Machine)
      requires Valid() && PrivateApart(l1, l2)
      reads this, uniqueHist, llc, llc.Repr(), counters, counters.owned, pair.Repr(), l1, l1.Repr(), l2, l2.Repr()
      ensures MachineOk(m) && |m.threads| == 1
    {
      Machine([Private(l1.View(), l2.View())], View())
    }

    method RecordReference(line: Line, t: AccessType, r: PrivateResult)
      requires Valid()
      modifies this, uniqueHist, llc.Repr(), counters, counters.owned, pair.Repr()
      ensures Valid() && View() == RecordedShared(c, old(View()), line, t, r)
      ensures llc.Repr() == old(llc.Repr()) && fresh(counters.owned - old(counters.owned))
    {
      hide Valid, View, Transacted, ProfilerSpec.FinishEpoch;
      Arrived(line);
      Transact(line, t, r, true);
      var due := ClockIsDue();
      if due { FinishEpoch(); }
    }

    method ClockIsDue() returns (b: bool)
      requires Valid()
      ensures b <==> ClockDue(c, View())
      ensures Valid() && View() == old(View())
    {
      hide Valid, llc.View, counters.Contents, pair.Contents;
      b := (c.epochEvents > 0 && dramAccesses >= c.epochEvents) || (c.epochRefs > 0 && epochRefs >= c.epochRefs);
    }

    method Arrived(line: Line)
      requires Valid()
      modifies `refs, `epochRefs, pair, pair.epochEvents, pair.totalEvents
      ensures Valid() && View() == Arrive(c, old(View()), line)
      ensures llc.Repr() == old(llc.Repr()) && counters.owned == old(counters.owned)
    {
      hide llc.Valid, llc.View, counters.Contents, pair.Contents, SummaryHist, TotalDrams, MarkWindows;
      refs, epochRefs := refs + 1, epochRefs + 1;
      if c.paired { pair.Record(line, ACCESSES); }
    }

    method Transact(line: Line, t: AccessType, r: PrivateResult, recording: bool)
      requires Valid()
      modifies `dramAccesses, `byRef, llc.Repr(), counters, counters.owned, pair, pair.epochEvents, pair.totalEvents
      ensures Valid() && View() == Transacted(c, old(View()), line, t, r, recording)
      ensures llc.Repr() == old(llc.Repr()) && fresh(counters.owned - old(counters.owned))
    {
      hide Valid, View, Kept, SharedStep, ProfilerSpec.RecordAll;
      if !c.useCache {
        if recording { RecordOne(Event(line, t.Write?)); }
      } else {
        var es := Cascade(line, r);
        if recording { RecordAll(es); }
      }
    }

    method RecordOne(e: Event)
      requires Valid()
      modifies `dramAccesses, `byRef, counters, counters.owned, pair, pair.epochEvents, pair.totalEvents
      ensures Valid() && View() == ProfilerSpec.RecordAll(c, old(View()), [e])
      ensures llc.Repr() == old(llc.Repr()) && fresh(counters.owned - old(counters.owned))
    {
      hide llc.Valid, llc.View, counters.Contents, pair.Contents, SummaryHist, TotalDrams, MarkWindows;
      Recorders.RecordDram(c, counters, pair, e);
      dramAccesses, byRef := dramAccesses + 1, byRef + [1];
      Recorders.OneDram(e);
    }

    method RecordAll(es: seq<Event>)
      requires Valid()
      modifies `dramAccesses, `byRef, counters, counters.owned, pair, pair.epochEvents, pair.totalEvents
      ensures Valid() && View() == ProfilerSpec.RecordAll(c, old(View()), Kept(c, es))
      ensures llc.Repr() == old(llc.Repr()) && fresh(counters.owned - old(counters.owned))
    {
      hide llc.Valid, llc.View, counters.Contents, pair.Contents, SummaryHist, TotalDrams, MarkWindows;
      hide Kept, DramMarks;
      var n := Recorders.RecordEvents(c, counters, pair, es);
      dramAccesses, byRef := dramAccesses + n, byRef + [n];
    }

    method Cascade(line: Line, r: PrivateResult) returns (es: seq<Event>)
      requires Valid()
      modifies llc.Repr()
      ensures Valid() && View() == old(View()).(llc := SharedStep(old(View()).llc, line, r).0)
      ensures es == SharedStep(old(View()).llc, line, r).1 && llc.Repr() == old(llc.Repr())
    {
      hide llc.Valid, llc.View, counters.Contents, pair.Contents, SummaryHist, TotalDrams, MarkWindows;
      es := AccessShared(llc, line, r);
    }

    method FinishEpoch()
      requires Valid()
      modifies this, uniqueHist, counters, counters.owned, pair.Repr()
      ensures Valid() && View() == ProfilerSpec.FinishEpoch(c, old(View()))
      ensures counters.owned == old(counters.owned) && llc.Repr() == old(llc.Repr())
    {
      hide Valid, View;
      var empty := IsEmpty();
      if !empty { CloseWindow(); }
    }

    method IsEmpty() returns (b: bool)
      requires Valid()
      ensures b <==> Nothing(c, View())
      ensures Valid() && View() == old(View())
    {
      hide llc.Valid, llc.View, counters.Contents, pair.Contents, SummaryHist, TotalDrams, MarkWindows;
      var empty := pair.Empty();
      var total := counters.TotalAccesses();
      b := total == 0 && (!c.paired || empty);
    }

    method CloseWindow()
      requires Valid() && !Nothing(c, View())
      modifies this, uniqueHist, counters, counters.owned, pair.Repr()
      ensures Valid() && View() == ProfilerSpec.FinishEpoch(c, old(View()))
      ensures counters.owned == old(counters.owned) && llc.Repr() == old(llc.Repr())
    {
      hide Valid, View;
      Summarize();
      NextEpoch();
    }

    /** Moves the open window into the summary and clears both recorders. */
    method Summarize()
      requires Valid()
      modifies `accessesTotal, `closed, `byRef, uniqueHist, counters, counters.owned, pair.Repr()
      ensures Valid() && View() == Summarized(old(View()))
      ensures counters.owned == old(counters.owned) && llc.Repr() == old(llc.Repr())
    {
      hide llc.Valid, llc.View, counters.Contents, pair.Contents, SummaryHist, TotalDrams, MarkWindows, UniquePages;
      ghost var w := View().current;
      Summary.OneMoreWindow(closed, w);
      CloseRecorders();
      closed, byRef := closed + [w], [];
    }

    method NextEpoch()
      requires Valid()
      modifies `dramAccesses, `epochRefs, `epochId, `phase
      ensures Valid() && View() == NextWindow(c, old(View()))
    {
      hide Valid, llc.View, counters.Contents, pair.Contents;
      Separated();
      dramAccesses, epochRefs, epochId := 0, 0, epochId + 1;
      if c.maxEpochs > 0 && epochId >= c.maxEpochs { phase := Done; }
    }

    method CloseRecorders()
      requires counters.Contents().Some? && pair.Contents().Some? && pair.Repr() !! counters.owned
      requires uniqueHist.Length == 65 && uniqueHist !in pair.Repr() + counters.owned && this !in counters.owned
      modifies `accessesTotal, uniqueHist, counters, counters.owned, pair.Repr()
      ensures counters.Contents() == Some([]) && counters.owned == old(counters.owned)
      ensures var was := old(pair.Contents().value);
        pair.Contents() == Some(if c.paired then Seen(was.closed + [was.marks], []) else was)
      ensures var drams := old(counters.Contents().value);
        && (forall n :: 0 <= n <= 64 ==> uniqueHist[n] == old(uniqueHist[n]) + |UniquePages(drams, n)|)
        && accessesTotal == old(accessesTotal) + |drams|
    {
      hide counters.Contents, pair.Contents, UniquePages;
      if c.paired { var hist, events := pair.EndEpoch(); }
      var vs := counters.TouchedPageList();
      var accesses := Summary.AddPages(uniqueHist, vs, counters.Contents().value);
      accessesTotal := accessesTotal + accesses;
      counters.ResetCounters();
    }

    /** Instructions retired by one basic block. */
    method CountBbl(n: nat)
      requires Valid()
      modifies this, uniqueHist, counters, counters.owned, pair.Repr()
      ensures Valid() && View() == Retired(c, old(View()), n)
      ensures counters.owned == old(counters.owned)
    {
      hide Valid, llc.View, counters.Contents, pair.Contents, ProfilerSpec.FinishEpoch;
      Advance(n);
      match phase {
        case FastForward =>
          if insCount >= c.ff { StartProfiling(if c.warmup > 0 then Warmup else Profile); }
        case Warmup =>
          if insCount >= c.ff + c.warmup { StartProfiling(Profile); }
        case Profile =>
          if c.length > 0 && insCount - profileStart >= c.length {
            Stop();
          } else if c.epochIns > 0 && roi && insCount - epochStart >= c.epochIns {
            RestartClock();
            FinishEpoch();
          }
        case Done =>
      }
    }

    method Advance(n: nat)
      requires Valid()
      modifies `insCount
      ensures Valid() && View() == old(View()).(insCount := old(insCount) + n)
    {
      hide Valid, llc.View, counters.Contents, pair.Contents;
      Separated();
      insCount := insCount + n;
    }

    method Stop()
      requires Valid()
      modifies `phase
      ensures Valid() && View() == old(View()).(phase := Done)
    {
      hide Valid, llc.View, counters.Contents, pair.Contents;
      Separated();
      phase := Done;
    }

    method RestartClock()
      requires Valid()
      modifies `epochStart
      ensures Valid() && View() == old(View()).(epochStart := insCount)
    {
      hide Valid, llc.View, counters.Contents, pair.Contents;
      Separated();
      epochStart := insCount;
    }

    method StartProfiling(next: Phase)
      requires Valid()
      modifies `phase, `profileStart, `epochStart
      ensures Valid() && View() == StartProfile(old(View()), next)
    {
      hide Valid, llc.View, counters.Contents, pair.Contents;
      Separated();
      phase, profileStart, epochStart := next, insCount, insCount;
    }

    method RoiEnter()
      requires Valid()
      modifies `roi, `epochStart
      ensures Valid() && View() == EnterRoi(old(View()))
    {
      hide Valid, llc.View, counters.Contents, pair.Contents;
      Separated();
      roi, epochStart := true, insCount;
    }

    method RoiExit()
      requires Valid()
      modifies this, uniqueHist, counters, counters.owned, pair.Repr()
      ensures Valid() && View() == LeaveRoi(c, old(View()))
      ensures counters.owned == old(counters.owned)
    {
      hide llc.Valid, llc.View, counters.Contents, pair.Contents, SummaryHist, TotalDrams, MarkWindows;
      roi := false;
      var empty := pair.Empty();
      if c.roiEpoch && (dramAccesses > 0 || (c.paired && !empty)) { FinishEpoch(); }
    }

    method Fini()
      requires Valid()
      modifies this, uniqueHist, counters, counters.owned, pair.Repr()
      ensures Valid() && View() == Finish(c, old(View()))
      ensures counters.owned == old(counters.owned)
    {
      hide llc.Valid, llc.View, counters.Contents, pair.Contents, SummaryHist, TotalDrams, MarkWindows;
      var empty := pair.Empty();
      if dramAccesses > 0 || (c.paired && !empty) || epochId == 0 { FinishEpoch(); }
    }

    /** Any callback but a reference. */
    method ControlCallback(a: Action)
      requires Valid() && !a.Reference?
      modifies this, uniqueHist, counters, counters.owned, pair.Repr()
      ensures Valid() && View() == Control(c, old(View()), a)
      ensures counters.owned == old(counters.owned) && llc.Repr() == old(llc.Repr())
    {
      hide llc.Valid, llc.View, counters.Contents, pair.Contents, Consistent, View, Retired, EnterRoi, LeaveRoi, Finish;
      match a {
        case Retire(n) => CountBbl(n);
        case RoiEnter => RoiEnter();
        case RoiExit => RoiExit();
        case Fini => Fini();
      }
    }

    /** Any callback of a run with one thread, as one step of the machine. */
    method Callback(l1: CacheLevel, l2: CacheLevel, a: Action)
      requires Valid() && PrivateApart(l1, l2) && (a.Reference? ==> a.tid == 0)
      modifies this, uniqueHist, llc.Repr(), counters, counters.owned, pair.Repr(), l1.Repr(), l2.Repr()
      ensures Valid() && PrivateApart(l1, l2)
      ensures Whole(l1, l2) == Step(c, old(Whole(l1, l2)), a)
      ensures l1.Repr() == old(l1.Repr()) && l2.Repr() == old(l2.Repr()) && llc.Repr() == old(llc.Repr())
      ensures fresh(counters.owned - old(counters.owned))
    {
      hide Valid, View, l1.Valid, l1.View, Control, Step;
      if a.Reference? {
        AnalyzeLine(l1, l2, a.line, a.t);
      } else {
        ControlIsStep(c, Whole(l1, l2), a);
        ControlCallback(a);
      }
    }
  }

  lemma NoWindows()
    ensures MarkWindows([]) == [] && TotalDrams([]) == 0 && forall n :: SummaryHist([], n) == 0
  {
  }
}
