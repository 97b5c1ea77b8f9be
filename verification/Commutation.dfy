/** Private cache work done ahead of the lock: each thread computes its private outcomes whenever it
    likes and commits them, in its own order, as locked transactions. Every interleaving is
    equivalent to doing all the work inside the lock in the order of the commits. */
module Commutation {
  import opened CacheSpec
  import opened Hierarchy
  import opened ProfilerSpec

  /** An outcome computed and not yet committed. */
  datatype Waiting = Waiting(line: Line, t: AccessType, r: PrivateResult)

  datatype Split = Split(threads: seq<Private>, queues: seq<seq<Waiting>>, shared: State)

  datatype SplitAction = Ahead(tid: nat, line: Line, t: AccessType) | Commit(tid: nat) | Other(a: Action)

  ghost predicate SplitOk(x: Split) {
    && Ok(x.shared.llc) && |x.queues| == |x.threads|
    && forall i :: 0 <= i < |x.threads| ==> PrivateOk(x.threads[i])
  }

  ghost predicate ActionOk(a: SplitAction, threads: nat) {
    match a
    case Ahead(tid, _, _) => tid < threads
    case Commit(tid) => tid < threads
    case Other(b) => !b.Reference?
  }

  ghost predicate ActionsOk(actions: seq<SplitAction>, threads: nat) {
    forall i :: 0 <= i < |actions| ==> ActionOk(actions[i], threads)
  }

  /** One step; a commit with nothing waiting does nothing. */
  function SplitStep(c: Config, x: Split, a: SplitAction): (x': Split)
    requires SplitOk(x) && ActionOk(a, |x.threads|)
    ensures SplitOk(x') && |x'.threads| == |x.threads|
  {
    match a
    case Ahead(tid, line, t) =>
      var (p, r) := Work(c, x.threads[tid], line, t);
      x.(threads := x.threads[tid := p], queues := x.queues[tid := x.queues[tid] + [Waiting(line, t, r)]])
    case Commit(tid) =>
      if x.queues[tid] == [] then x
      else
        var w := x.queues[tid][0];
        x.(queues := x.queues[tid := x.queues[tid][1..]], shared := Shared(c, x.shared, w.line, w.t, w.r))
    case Other(b) => x.(shared := Control(c, x.shared, b))
  }

  function SplitRun(c: Config, x: Split, actions: seq<SplitAction>): (x': Split)
    requires SplitOk(x) && ActionsOk(actions, |x.threads|)
    ensures SplitOk(x') && |x'.threads| == |x.threads|
  {
    if actions == [] then x else SplitStep(c, SplitRun(c, x, actions[..|actions| - 1]), actions[|actions| - 1])
  }

  /** The locked action a step amounts to, if any. */
  function Locked(x: Split, a: SplitAction): seq<Action>
    requires SplitOk(x) && ActionOk(a, |x.threads|)
  {
    match a
    case Ahead(_, _, _) => []
    case Commit(tid) =>
      if x.queues[tid] == [] then [] else [Reference(tid, x.queues[tid][0].line, x.queues[tid][0].t)]
    case Other(b) => [b]
  }

  /** The run's locked actions in lock order. */
  function Serial(c: Config, x: Split, actions: seq<SplitAction>): (s: seq<Action>)
    requires SplitOk(x) && ActionsOk(actions, |x.threads|)
    ensures TidsIn(s, |x.threads|)
  {
    if actions == [] then []
    else
      var init := actions[..|actions| - 1];
      Serial(c, x, init) + Locked(SplitRun(c, x, init), actions[|actions| - 1])
  }

  function Idle(m: Machine): Split {
    Split(m.threads, seq(|m.threads|, _ => []), m.shared)
  }

  /** Doing the waiting work from p yields exactly the waiting outcomes and ends in p'. */
  ghost predicate Leads(c: Config, p: Private, q: seq<Waiting>, p': Private)
    requires PrivateOk(p)
    decreases |q|
  {
    if q == [] then p == p'
    else
      var (p1, r) := Work(c, p, q[0].line, q[0].t);
      r == q[0].r && Leads(c, p1, q[1..], p')
  }

  lemma {:induction false} LeadsFurther(c: Config, p: Private, q: seq<Waiting>, p': Private, line: Line, t: AccessType)
    requires PrivateOk(p) && PrivateOk(p') && Leads(c, p, q, p')
    ensures var (p2, r) := Work(c, p', line, t);
      Leads(c, p, q + [Waiting(line, t, r)], p2)
    decreases q
  {
    var (p2, r) := Work(c, p', line, t);
    var q' := q + [Waiting(line, t, r)];
    if q == [] {
      assert q'[1..] == [];
    } else {
      LeadsFurther(c, Work(c, p, q[0].line, q[0].t).0, q[1..], p', line, t);
      assert q'[1..] == q[1..] + [Waiting(line, t, r)] && q'[0] == q[0];
    }
  }

  /** Equal shared states; until the end, each thread's lead is the work it has waiting. */
  ghost predicate Simulates(c: Config, x: Split, m: Machine)
    requires SplitOk(x) && MachineOk(m)
  {
    && x.shared == m.shared && |x.threads| == |m.threads|
    && (!m.shared.phase.Done? ==>
          forall i :: 0 <= i < |m.threads| ==> Leads(c, m.threads[i], x.queues[i], x.threads[i]))
  }

  lemma AheadSimulates(c: Config, x: Split, m: Machine, a: SplitAction)
    requires SplitOk(x) && MachineOk(m) && Simulates(c, x, m) && a.Ahead? && a.tid < |x.threads|
    ensures Simulates(c, SplitStep(c, x, a), m)
  {
    if !m.shared.phase.Done? {
      LeadsFurther(c, m.threads[a.tid], x.queues[a.tid], x.threads[a.tid], a.line, a.t);
    }
  }

  lemma CommitSimulates(c: Config, x: Split, m: Machine, tid: nat)
    requires SplitOk(x) && MachineOk(m) && Simulates(c, x, m) && tid < |x.threads| && x.queues[tid] != []
    ensures var p := x.queues[tid][0];
      Simulates(c, SplitStep(c, x, Commit(tid)), Step(c, m, Reference(tid, p.line, p.t)))
  {
    if !m.shared.phase.Done? {
      assert Leads(c, m.threads[tid], x.queues[tid], x.threads[tid]);
    }
  }

  lemma StepSimulates(c: Config, x: Split, m: Machine, a: SplitAction)
    requires SplitOk(x) && MachineOk(m) && Simulates(c, x, m) && ActionOk(a, |x.threads|)
    ensures Simulates(c, SplitStep(c, x, a), if Locked(x, a) == [] then m else Step(c, m, Locked(x, a)[0]))
  {
    match a {
      case Ahead(_, _, _) => AheadSimulates(c, x, m, a);
      case Commit(tid) => if x.queues[tid] != [] { CommitSimulates(c, x, m, tid); }
      case Other(b) =>
    }
  }

  /** Work done ahead of the lock is not observable: for every interleaving the LLC, the windows,
      the events in them and all clocks are those of the serialized run over the same commits. */
  lemma {:induction false} WorkAheadIsInvisible(c: Config, m: Machine, actions: seq<SplitAction>)
    requires MachineOk(m) && ActionsOk(actions, |m.threads|)
    ensures Simulates(c, SplitRun(c, Idle(m), actions), Run(c, m, Serial(c, Idle(m), actions)))
  {
    var x0 := Idle(m);
    if actions == [] {
    } else {
      var init, a := actions[..|actions| - 1], actions[|actions| - 1];
      WorkAheadIsInvisible(c, m, init);
      var x, done := SplitRun(c, x0, init), Serial(c, x0, init);
      StepSimulates(c, x, Run(c, m, done), a);
      OneMore(c, m, done, Locked(x, a));
    }
  }

  lemma OneMore(c: Config, m: Machine, done: seq<Action>, more: seq<Action>)
    requires MachineOk(m) && TidsIn(done + more, |m.threads|) && TidsIn(done, |m.threads|) && |more| <= 1
    requires more != [] && more[0].Reference? ==> more[0].tid < |m.threads|
    ensures Run(c, m, done + more) == if more == [] then Run(c, m, done) else Step(c, Run(c, m, done), more[0])
  {
    if more == [] {
      assert done + more == done;
    } else {
      assert (done + more)[..|done + more| - 1] == done;
    }
  }

  /** Interleavings with the same lock order are indistinguishable, however far threads ran ahead. */
  lemma OnlyLockOrderMatters(c: Config, m: Machine, a: seq<SplitAction>, b: seq<SplitAction>)
    requires MachineOk(m) && ActionsOk(a, |m.threads|) && ActionsOk(b, |m.threads|)
    requires Serial(c, Idle(m), a) == Serial(c, Idle(m), b)
    ensures SplitRun(c, Idle(m), a).shared == SplitRun(c, Idle(m), b).shared
  {
    WorkAheadIsInvisible(c, m, a);
    WorkAheadIsInvisible(c, m, b);
  }

  // ---------- each thread's own order ----------

  datatype Demand = Demand(line: Line, t: AccessType)

  function AheadOf(actions: seq<SplitAction>, tid: nat): seq<Demand> {
    if actions == [] then []
    else
      var a := actions[|actions| - 1];
      AheadOf(actions[..|actions| - 1], tid) + AheadPart(a, tid)
  }

  function LockedOf(actions: seq<Action>, tid: nat): seq<Demand> {
    if actions == [] then []
    else
      var a := actions[|actions| - 1];
      LockedOf(actions[..|actions| - 1], tid) + if a.Reference? && a.tid == tid then [Demand(a.line, a.t)] else []
  }

  function WaitingDemands(q: seq<Waiting>): seq<Demand> {
    seq(|q|, i requires 0 <= i < |q| => Demand(q[i].line, q[i].t))
  }

  /** The reference of one thread among at most one locked action. */
  function OwnPart(more: seq<Action>, tid: nat): seq<Demand> {
    if more != [] && more[0].Reference? && more[0].tid == tid then [Demand(more[0].line, more[0].t)] else []
  }

  function AheadPart(a: SplitAction, tid: nat): seq<Demand> {
    if a.Ahead? && a.tid == tid then [Demand(a.line, a.t)] else []
  }

  lemma LockedOfMore(done: seq<Action>, more: seq<Action>, tid: nat)
    requires |more| <= 1
    ensures LockedOf(done + more, tid) == LockedOf(done, tid) + OwnPart(more, tid)
  {
    if more == [] {
      assert done + more == done;
    } else {
      assert (done + more)[..|done + more| - 1] == done;
    }
  }

  /** What a thread has committed, followed by what it has waiting, is what it computed, in order. */
  lemma {:induction false} ThreadOrderKept(c: Config, m: Machine, actions: seq<SplitAction>, tid: nat)
    requires MachineOk(m) && ActionsOk(actions, |m.threads|) && tid < |m.threads|
    ensures AheadOf(actions, tid)
      == LockedOf(Serial(c, Idle(m), actions), tid) + WaitingDemands(SplitRun(c, Idle(m), actions).queues[tid])
  {
    if actions != [] {
      var init, a := actions[..|actions| - 1], actions[|actions| - 1];
      ThreadOrderKept(c, m, init, tid);
      var x := SplitRun(c, Idle(m), init);
      var done, more := Serial(c, Idle(m), init), Locked(x, a);
      LockedOfMore(done, more, tid);
      QueueStep(c, x, a, tid);
      Regroup(LockedOf(done, tid), WaitingDemands(x.queues[tid]), AheadPart(a, tid), OwnPart(more, tid),
              WaitingDemands(SplitStep(c, x, a).queues[tid]));
    }
  }

  lemma Regroup(done: seq<Demand>, waiting: seq<Demand>, ahead: seq<Demand>, own: seq<Demand>, waiting': seq<Demand>)
    requires waiting + ahead == own + waiting'
    ensures done + waiting + ahead == done + own + waiting'
  {
    assert done + waiting + ahead == done + (waiting + ahead);
    assert done + own + waiting' == done + (own + waiting');
  }

  lemma QueueStep(c: Config, x: Split, a: SplitAction, tid: nat)
    requires SplitOk(x) && ActionOk(a, |x.threads|) && tid < |x.threads|
    ensures WaitingDemands(x.queues[tid]) + AheadPart(a, tid)
      == OwnPart(Locked(x, a), tid) + WaitingDemands(SplitStep(c, x, a).queues[tid])
  {
  }
}
