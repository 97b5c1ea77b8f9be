/** Windows closed by the reference clock of an unpaired run: when they hold exactly the configured
    number of references, and how they come to hold more. */
module RefWindows {
  import Cascade
  import Coverage
  import Tokens
  import opened CacheSpec
  import opened Hierarchy
  import opened ProfilerSpec
  import opened ProfilerRuns

  /** In any run, an unpaired window closed by the clock of R references holds exactly R of them if
      and only if something reached DRAM among its first R. Otherwise it went on, and its last
      reference is the only one that reached DRAM. */
  lemma ReferenceWindow(c: Config, m: Machine, actions: seq<Action>, a: Action)
    requires Accepted(c) && !c.paired && c.epochRefs > 0
    requires MachineOk(m) && Inv(c, m.shared) && TidsIn(actions + [a], |m.threads|) && a.Reference?
    requires |Run(c, m, actions + [a]).shared.closed| > |Prefix(c, m, actions, a).shared.closed|
    ensures var w := Run(c, m, actions + [a]).shared.closed[|Prefix(c, m, actions, a).shared.closed|];
      && |w.byRef| >= c.epochRefs
      && (|w.byRef| == c.epochRefs <==> !Silent(w.byRef[..c.epochRefs]))
      && (|w.byRef| > c.epochRefs ==> Silent(w.byRef[..|w.byRef| - 1]) && w.byRef[|w.byRef| - 1] > 0)
  {
    hide Work, Emitted, Matching, Run;
    var before := Prefix(c, m, actions, a);
    PrefixRun(c, m, actions, a);
    RunKeeps(c, m, actions);
    ClosedByReference(c, before.shared, a.line, a.t, Work(c, before.threads[a.tid], a.line, a.t).1);
  }

  /** The machine before the last action. */
  function Prefix(c: Config, m: Machine, actions: seq<Action>, a: Action): Machine
    requires MachineOk(m) && TidsIn(actions + [a], |m.threads|)
  {
    assert forall i :: 0 <= i < |actions| ==> (actions + [a])[i] == actions[i];
    Run(c, m, actions)
  }

  lemma PrefixRun(c: Config, m: Machine, actions: seq<Action>, a: Action)
    requires MachineOk(m) && TidsIn(actions + [a], |m.threads|)
    ensures TidsIn(actions, |m.threads|) && (a.Reference? ==> a.tid < |m.threads|)
    ensures Run(c, m, actions + [a]) == Step(c, Prefix(c, m, actions, a), a)
  {
    assert (actions + [a])[..|actions|] == actions;
    assert (actions + [a])[|actions|] == a;
    assert forall i :: 0 <= i < |actions| ==> (actions + [a])[i] == actions[i];
  }

  lemma ClosedByReference(c: Config, s: State, line: Line, t: AccessType, r: PrivateResult)
    requires Accepted(c) && !c.paired && c.epochRefs > 0 && Ok(s.llc) && Inv(c, s)
    requires |Shared(c, s, line, t, r).closed| > |s.closed|
    ensures var w := Shared(c, s, line, t, r).closed[|s.closed|];
      && |w.byRef| >= c.epochRefs
      && (|w.byRef| == c.epochRefs <==> !Silent(w.byRef[..c.epochRefs]))
      && (|w.byRef| > c.epochRefs ==> Silent(w.byRef[..|w.byRef| - 1]) && w.byRef[|w.byRef| - 1] > 0)
  {
    hide Matching, Emitted;
    var (llc, es) := Emitted(c, s.llc, line, t, r);
    SilentStep(s.current.byRef, |es|);
    var byRef := s.current.byRef + [|es|];
    assert |byRef| == c.epochRefs ==> byRef[..c.epochRefs] == byRef;
    if |s.current.byRef| >= c.epochRefs { SilentPrefix(s.current.byRef, |es|, c.epochRefs); }
  }

  lemma SilentPrefix(byRef: seq<nat>, n: nat, k: nat)
    requires k <= |byRef| && Silent(byRef)
    ensures Silent((byRef + [n])[..k])
  {
  }

  // ---------- a window that stretches ----------

  /** An unpaired run that profiles from its first reference under the clock of R references. */
  ghost predicate Clocked(c: Config) {
    && Accepted(c) && c.useCache && !c.paired && c.epochRefs > 0
    && c.ff == 0 && c.warmup == 0 && c.maxEpochs != 1
  }

  /** n reads of line x. */
  function Repeated(n: nat, x: Line): (s: seq<Action>)
    ensures TidsIn(s, 1)
  {
    if n == 0 then [] else Repeated(n - 1, x) + [Action.Reference(0, x, Read)]
  }

  /** After n reads of line x from cold caches: the first window closed with R references, the next
      is open and silent. */
  ghost predicate Stuck(c: Config, m: Machine, n: nat, x: Line)
    requires MachineOk(m)
  {
    && |m.threads| > 0 && Recording(m.shared)
    && Coverage.AllIn(Caches(m), if n == 0 then {} else {x})
    && (n > 0 ==> Holds(m.threads[0].l1, x))
    && m.shared.epochId == |m.shared.closed|
    && m.shared.epochRefs == |m.shared.current.byRef|
    && if n < c.epochRefs then
         m.shared.closed == [] && |m.shared.current.byRef| == n && (n > 0 ==> m.shared.current.drams != [])
       else |m.shared.closed| == 1 && |m.shared.closed[0].byRef| == c.epochRefs
            && |m.shared.current.byRef| == n - c.epochRefs && m.shared.current.drams == []
  }

  lemma {:induction false} FillIsKept(c: Config, es: seq<Event>)
    ensures Coverage.FillLines(es) != {} ==> Kept(c, es) != []
  {
    if !c.countWB && es != [] {
      var init := es[..|es| - 1];
      FillIsKept(c, init);
      Coverage.LinesConcat(init, [es[|es| - 1]]);
      assert es == init + [es[|es| - 1]];
      assert [es[|es| - 1]][0] == es[|es| - 1];
    }
  }

  /** A line no cache holds reaches DRAM; a line in L1 does not. */
  lemma Reached(c: Config, m: Machine, x: Line, s: set<Line>)
    requires MachineOk(m) && c.useCache && |m.threads| > 0 && Coverage.AllIn(Caches(m), s)
    ensures var (p, r) := Work(c, m.threads[0], x, Read);
      var (llc, es) := Emitted(c, m.shared.llc, x, Read, r);
      && Holds(p.l1, x)
      && Coverage.AllIn(Cascade.Sys(m.threads[0 := p], llc), s + {x})
      && (x !in s ==> es != [])
      && (Holds(m.threads[0].l1, x) ==> es == [])
  {
    Coverage.StepIn(Caches(m), Cascade.Txn(0, x, Read), s);
    Effect(m.threads[0].l1, x, Read);
    var r := PrivateStep(m.threads[0], x, Read).1;
    var es := SharedStep(m.shared.llc, x, r).1;
    FillIsKept(c, es);
    if Holds(m.threads[0].l1, x) {
      assert r == PrivateResult(Quiet, Quiet, false);
      assert es == [];
      assert Kept(c, []) == [];
    }
  }

  lemma StuckStep(c: Config, m: Machine, n: nat, x: Line)
    requires Clocked(c) && MachineOk(m) && Stuck(c, m, n, x)
    ensures Stuck(c, Step(c, m, Action.Reference(0, x, Read)), n + 1, x)
  {
    hide Emitted, Work, Coverage.AllIn, Ok, PrivateOk, Holds;
    var s := if n == 0 then {} else {x};
    Reached(c, m, x, s);
    assert s + {x} == {x};
  }

  lemma {:induction false} StuckRun(c: Config, m: Machine, n: nat, x: Line)
    requires Clocked(c) && MachineOk(m) && |m.threads| > 0 && Stuck(c, m, 0, x)
    ensures TidsIn(Repeated(n, x), |m.threads|) && Stuck(c, Run(c, m, Repeated(n, x)), n, x)
  {
    hide Stuck, Step, Run, Clocked, MachineOk;
    if n == 0 {
      NothingRun(c, m);
    } else {
      StuckRun(c, m, n - 1, x);
      StuckNext(c, m, n, x);
    }
  }

  lemma NothingRun(c: Config, m: Machine)
    requires MachineOk(m)
    ensures Run(c, m, []) == m
  {
  }

  lemma StuckNext(c: Config, m: Machine, n: nat, x: Line)
    requires Clocked(c) && MachineOk(m) && |m.threads| > 0 && n > 0
    requires TidsIn(Repeated(n - 1, x), |m.threads|) && Stuck(c, Run(c, m, Repeated(n - 1, x)), n - 1, x)
    ensures TidsIn(Repeated(n, x), |m.threads|) && Stuck(c, Run(c, m, Repeated(n, x)), n, x)
  {
    hide Stuck, Step, Run, Clocked, MachineOk;
    StuckStep(c, Run(c, m, Repeated(n - 1, x)), n - 1, x);
    PrefixRun(c, m, Repeated(n - 1, x), Action.Reference(0, x, Read));
  }

  lemma ColdIsStuck(c: Config, m: Machine, llc: Level, x: Line)
    requires Clocked(c) && MachineOk(m) && |m.threads| > 0 && m.shared == Initial(c, llc, true)
    requires Tokens.IsCold(Caches(m))
    ensures Stuck(c, m, 0, x)
  {
    forall i | 0 <= i < |m.threads| ensures Coverage.PrivateIn(m.threads[i], {}) {
      assert Tokens.IsColdPrivate(m.threads[i]);
    }
  }

  lemma Released(c: Config, m: Machine, n: nat, x: Line, y: Line)
    requires Clocked(c) && MachineOk(m) && Stuck(c, m, n, x) && x != y && n >= 2 * c.epochRefs
    ensures var s := Step(c, m, Action.Reference(0, y, Read)).shared;
      |s.closed| == 2 && |s.closed[0].byRef| == c.epochRefs && |s.closed[1].byRef| == n - c.epochRefs + 1
  {
    hide Emitted, Work, Coverage.AllIn, Ok, PrivateOk, Holds;
    Reached(c, m, y, {x});
  }

  /** From cold caches, for every R and every k: R references close the first window, R + k - 1 more
      to the same line leave the second one open, and the next line closes it with R + k. */
  lemma WindowStretches(c: Config, m: Machine, llc: Level, k: nat, x: Line, y: Line)
    requires Clocked(c) && MachineOk(m) && |m.threads| > 0 && m.shared == Initial(c, llc, true)
    requires Tokens.IsCold(Caches(m)) && x != y && k > 0
    ensures var actions := Repeated(2 * c.epochRefs + k - 1, x) + [Action.Reference(0, y, Read)];
      && TidsIn(actions, |m.threads|)
      && var closed := Run(c, m, actions).shared.closed;
      |closed| == 2 && |closed[0].byRef| == c.epochRefs && |closed[1].byRef| == c.epochRefs + k
  {
    hide Step;
    var n := 2 * c.epochRefs + k - 1;
    ColdIsStuck(c, m, llc, x);
    StuckRun(c, m, n, x);
    Released(c, Run(c, m, Repeated(n, x)), n, x, y);
    PrefixRun(c, m, Repeated(n, x), Action.Reference(0, y, Read));
  }
}
