/** The profiler as a state machine: each callback that holds the lock is one atomic step. */
module ProfilerSpec {
  import Cascade
  import opened CacheSpec
  import opened Hierarchy
  import opened Observation

  datatype Phase = FastForward | Warmup | Profile | Done

  /** Targets of zero are switched off. */
  datatype Config = Config(useCache: bool, countWB: bool, paired: bool, roiEpoch: bool,
                           ff: nat, warmup: nat, length: nat,
                           epochEvents: nat, epochRefs: nat, epochIns: nat, maxEpochs: nat)

  /** What start-up leaves of the options: paired runs see all traffic, and one clock closes windows. */
  predicate Accepted(c: Config) {
    && (c.paired ==> c.useCache && c.countWB)
    && (c.epochRefs > 0 ==> c.epochEvents == 0 && c.epochIns == 0)
    && (c.epochIns > 0 ==> c.epochEvents == 0)
  }

  /** One measurement window: the paired observer's marks, the counters' stream, and how many DRAM
      accesses each recorded reference made. */
  datatype Window = Window(marks: seq<Marked>, drams: seq<Event>, byRef: seq<nat>)

  const EMPTY := Window([], [], [])

  datatype State = State(llc: Level, phase: Phase, roi: bool,
                         insCount: nat, profileStart: nat, epochStart: nat,
                         dramAccesses: nat, epochRefs: nat, epochId: nat, refs: nat,
                         current: Window, closed: seq<Window>)

  predicate Recording(s: State) {
    s.phase.Profile? && s.roi
  }

  // ---------- recording ----------

  /** The marks one DRAM access leaves: fills are also traffic, writebacks are traffic only. */
  function MarksOfDram(e: Event): seq<Marked> {
    if e.write then [Marked(e.line, TRAFFIC)] else [Marked(e.line, FILLS), Marked(e.line, TRAFFIC)]
  }

  function DramMarks(es: seq<Event>): seq<Marked> {
    if es == [] then [] else DramMarks(es[..|es| - 1]) + MarksOfDram(es[|es| - 1])
  }

  function RecordAll(c: Config, s: State, es: seq<Event>): State {
    s.(current := Window(s.current.marks + (if c.paired then DramMarks(es) else []), s.current.drams + es,
                         s.current.byRef + [|es|]),
       dramAccesses := s.dramAccesses + |es|)
  }

  function Arrive(c: Config, s: State, line: Line): State {
    s.(epochRefs := s.epochRefs + 1, refs := s.refs + 1,
       current := s.current.(marks := s.current.marks + if c.paired then [Marked(line, ACCESSES)] else []))
  }

  /** The DRAM accesses that are recorded: writebacks only if they are counted. */
  function Kept(c: Config, es: seq<Event>): seq<Event> {
    if c.countWB then es
    else if es == [] then []
    else Kept(c, es[..|es| - 1]) + if es[|es| - 1].write then [] else [es[|es| - 1]]
  }

  // ---------- windows ----------

  predicate Nothing(c: Config, s: State) {
    s.current.drams == [] && (!c.paired || s.current.marks == [])
  }

  function Summarized(s: State): State {
    s.(closed := s.closed + [s.current], current := EMPTY)
  }

  function NextWindow(c: Config, s: State): State {
    s.(dramAccesses := 0, epochRefs := 0, epochId := s.epochId + 1,
       phase := if c.maxEpochs > 0 && s.epochId + 1 >= c.maxEpochs then Done else s.phase)
  }

  /** Closes the window, unless nothing was recorded in it. */
  function FinishEpoch(c: Config, s: State): State {
    if Nothing(c, s) then s else NextWindow(c, Summarized(s))
  }

  predicate ClockDue(c: Config, s: State) {
    || (c.epochEvents > 0 && s.dramAccesses >= c.epochEvents)
    || (c.epochRefs > 0 && s.epochRefs >= c.epochRefs)
  }

  // ---------- the locked steps ----------

  /** What one transaction does to the LLC, and the DRAM accesses it would record. */
  function Emitted(c: Config, llc: Level, line: Line, t: AccessType, r: PrivateResult): (x: (Level, seq<Event>))
    requires Ok(llc)
    ensures Ok(x.0)
  {
    if !c.useCache then (llc, [Event(line, t.Write?)])
    else
      var (llc', es) := SharedStep(llc, line, r);
      (llc', Kept(c, es))
  }

  function Transacted(c: Config, s: State, line: Line, t: AccessType, r: PrivateResult, recording: bool): (s': State)
    requires Ok(s.llc)
    ensures Ok(s'.llc)
  {
    var (llc', es) := Emitted(c, s.llc, line, t, r);
    if recording then RecordAll(c, s.(llc := llc'), es) else s.(llc := llc')
  }

  function RecordedShared(c: Config, s: State, line: Line, t: AccessType, r: PrivateResult): (s': State)
    requires Ok(s.llc)
    ensures Ok(s'.llc)
  {
    var s1 := Transacted(c, Arrive(c, s, line), line, t, r, true);
    if ClockDue(c, s1) then FinishEpoch(c, s1) else s1
  }

  /** The locked part of one reference; r is the outcome of its private part. */
  function Shared(c: Config, s: State, line: Line, t: AccessType, r: PrivateResult): (s': State)
    requires Ok(s.llc)
    ensures Ok(s'.llc)
  {
    if s.phase.Done? then s
    else if Recording(s) then RecordedShared(c, s, line, t, r)
    else Transacted(c, s, line, t, r, false)
  }

  function StartProfile(s: State, phase: Phase): State {
    s.(phase := phase, profileStart := s.insCount, epochStart := s.insCount)
  }

  /** n instructions retire. */
  function Retired(c: Config, s: State, n: nat): State {
    var s := s.(insCount := s.insCount + n);
    match s.phase
    case FastForward =>
      if s.insCount >= c.ff then StartProfile(s, if c.warmup > 0 then Warmup else Profile) else s
    case Warmup =>
      if s.insCount >= c.ff + c.warmup then StartProfile(s, Profile) else s
    case Profile =>
      if c.length > 0 && s.insCount - s.profileStart >= c.length then s.(phase := Done)
      else if c.epochIns > 0 && s.roi && s.insCount - s.epochStart >= c.epochIns then
        FinishEpoch(c, s.(epochStart := s.insCount))
      else s
    case Done => s
  }

  function EnterRoi(s: State): State {
    s.(roi := true, epochStart := s.insCount)
  }

  function LeaveRoi(c: Config, s: State): State {
    var s := s.(roi := false);
    if c.roiEpoch && (s.dramAccesses > 0 || (c.paired && s.current.marks != [])) then FinishEpoch(c, s) else s
  }

  function Finish(c: Config, s: State): State {
    if s.dramAccesses > 0 || (c.paired && s.current.marks != []) || s.epochId == 0 then FinishEpoch(c, s) else s
  }

  // ---------- the whole machine ----------

  datatype Action = Reference(tid: nat, line: Line, t: AccessType) | Retire(n: nat) | RoiEnter | RoiExit | Fini

  datatype Machine = Machine(threads: seq<Private>, shared: State)

  ghost predicate MachineOk(m: Machine) {
    Ok(m.shared.llc) && forall i :: 0 <= i < |m.threads| ==> PrivateOk(m.threads[i])
  }

  /** The cascade that the threads and the shared state make up. */
  function Caches(m: Machine): (y: Cascade.Sys)
    ensures MachineOk(m) <==> Cascade.SysOk(y)
  {
    Cascade.Sys(m.threads, m.shared.llc)
  }

  /** The private part of a reference. */
  function Work(c: Config, p: Private, line: Line, t: AccessType): (x: (Private, PrivateResult))
    requires PrivateOk(p)
    ensures PrivateOk(x.0)
  {
    if c.useCache then PrivateStep(p, line, t) else (p, PrivateResult(Quiet, Quiet, false))
  }

  /** Every step but a reference concerns the shared state only. */
  function Control(c: Config, s: State, a: Action): (s': State)
    requires !a.Reference?
    ensures s'.llc == s.llc
  {
    match a
    case Retire(n) => Retired(c, s, n)
    case RoiEnter => EnterRoi(s)
    case RoiExit => LeaveRoi(c, s)
    case Fini => Finish(c, s)
  }

  /** One step with the private part computed inside the lock, after the phase is checked. */
  function Step(c: Config, m: Machine, a: Action): (m': Machine)
    requires MachineOk(m) && (a.Reference? ==> a.tid < |m.threads|)
    ensures MachineOk(m') && |m'.threads| == |m.threads|
  {
    if !a.Reference? then m.(shared := Control(c, m.shared, a))
    else if m.shared.phase.Done? then m
    else
      var (p, r) := Work(c, m.threads[a.tid], a.line, a.t);
      Machine(m.threads[a.tid := p], Shared(c, m.shared, a.line, a.t, r))
  }

  ghost predicate TidsIn(actions: seq<Action>, threads: nat) {
    forall i :: 0 <= i < |actions| && actions[i].Reference? ==> actions[i].tid < threads
  }

  function Run(c: Config, m: Machine, actions: seq<Action>): (m': Machine)
    requires MachineOk(m) && TidsIn(actions, |m.threads|)
    ensures MachineOk(m') && |m'.threads| == |m.threads|
  {
    if actions == [] then m else Step(c, Run(c, m, actions[..|actions| - 1]), actions[|actions| - 1])
  }

  lemma RunNothing(c: Config, m: Machine, actions: seq<Action>)
    requires MachineOk(m)
    ensures Run(c, m, actions[..0]) == m
  {
  }

  lemma RunOne(c: Config, m: Machine, actions: seq<Action>, i: nat)
    requires MachineOk(m) && TidsIn(actions, |m.threads|) && i < |actions|
    ensures Run(c, m, actions[..i + 1]) == Step(c, Run(c, m, actions[..i]), actions[i])
  {
    assert actions[..i + 1][..i] == actions[..i];
  }

  function LinesFrom(first: nat, count: nat, t: AccessType): (s: seq<Action>)
    requires first + count <= LINE_LIMIT
    ensures TidsIn(s, 1) && |s| == count && forall i :: 0 <= i < count ==> s[i] == Reference(0, first + i, t)
  {
    seq(count, i requires 0 <= i < count => Reference(0, first + i, t))
  }

  /** One reference for every line that the bytes addr .. addr + size - 1 touch; an operand that runs
      past the top of the address space touches none. */
  function LinesTouched(addr: nat, size: nat, t: AccessType): (s: seq<Action>)
    requires addr < ADDRESSES
    ensures TidsIn(s, 1)
  {
    if size == 0 || addr + size > ADDRESSES then []
    else LinesFrom(addr / 64, (addr + size - 1) / 64 - addr / 64 + 1, t)
  }

  /** An operand inside the address space references exactly the lines that its bytes lie in, each once
      and in ascending order; one that wraps references none. */
  lemma TouchedLines(addr: nat, size: nat, t: AccessType)
    requires addr < ADDRESSES
    ensures var s := LinesTouched(addr, size, t);
      && (forall x: Line :: Action.Reference(0, x, t) in s <==> addr + size <= ADDRESSES && HasByteIn(addr, size, x))
      && (forall i :: 0 <= i < |s| ==> s[i].Reference? && s[i].tid == 0 && s[i].t == t)
      && (forall i, j :: 0 <= i < j < |s| ==> s[i].line < s[j].line)
  {
    var s := LinesTouched(addr, size, t);
    forall x: Line
      ensures Action.Reference(0, x, t) in s <==> addr + size <= ADDRESSES && HasByteIn(addr, size, x)
    {
      SpanMembers(addr, size, x);
      if size > 0 && addr + size <= ADDRESSES {
        var first, last := addr / 64, (addr + size - 1) / 64;
        if first <= x <= last { assert s[x - first] == Action.Reference(0, x, t); }
      }
    }
  }

  /** A reference of the only thread. */
  lemma OneThread(c: Config, p: Private, s: State, line: Line, t: AccessType)
    requires MachineOk(Machine([p], s))
    ensures Step(c, Machine([p], s), Action.Reference(0, line, t))
      == if s.phase.Done? then Machine([p], s)
         else Machine([Work(c, p, line, t).0], Shared(c, s, line, t, Work(c, p, line, t).1))
  {
    hide Work, Shared;
  }

  lemma ControlIsStep(c: Config, m: Machine, a: Action)
    requires MachineOk(m) && !a.Reference?
    ensures Step(c, m, a) == m.(shared := Control(c, m.shared, a))
  {
  }

  /** Threads meet in the shared state only: what a reference does to any thread of any machine is
      what it does to that thread alone. */
  lemma AnyThread(c: Config, m: Machine, tid: nat, line: Line, t: AccessType)
    requires MachineOk(m) && tid < |m.threads|
    ensures MachineOk(Machine([m.threads[tid]], m.shared))
    ensures var alone := Step(c, Machine([m.threads[tid]], m.shared), Action.Reference(0, line, t));
      Step(c, m, Action.Reference(tid, line, t)) == Machine(m.threads[tid := alone.threads[0]], alone.shared)
  {
    hide Work, Shared;
    assert m.threads[tid := m.threads[tid]] == m.threads;
  }

  /** The state at program start. */
  function Initial(c: Config, llc: Level, roi: bool): State {
    State(llc, if c.ff > 0 then FastForward else if c.warmup > 0 then Warmup else Profile, roi,
          0, 0, 0, 0, 0, 0, 0, EMPTY, [])
  }
}
