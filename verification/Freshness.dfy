/** Data versions carried along the cascade, moved in the order the levels are visited. With one
    thread every demand access obtains the version last stored to its line. */
module Freshness {
  import opened CacheSpec
  import opened Hierarchy

  type Data = map<Line, int>

  /** The version stored for a line; memory and caches start at version zero. */
  function Ver(d: Data, x: Line): int {
    if x in d then d[x] else 0
  }

  /** What a reader sees at a level: its own copy if it has one, else what is visible below. */
  ghost function Visible(l: Level, d: Data, below: Line -> int): Line -> int
    requires Ok(l)
  {
    (x: Line) => if Holds(l, x) then Ver(d, x) else below(x)
  }

  /** A clean copy may be dropped at any time: it agrees with what is visible below. */
  ghost predicate Coherent(l: Level, d: Data, below: Line -> int)
    requires Ok(l)
  {
    forall x: Line :: Holds(l, x) && !IsDirty(l, x) ==> Ver(d, x) == below(x)
  }

  ghost function Put(f: Line -> int, b: bool, line: Line, v: int): Line -> int {
    (x: Line) => if b && x == line then v else f(x)
  }

  ghost predicate Equal(f: Line -> int, g: Line -> int) {
    forall x: Line :: f(x) == g(x)
  }

  /** One access of a level above a memory: the version that leaves is put below, the version `u`
      arrives at the line; nothing else changes as seen from above. */
  lemma LayerAccess(l: Level, d: Data, below: Line -> int, below': Line -> int, line: Line, t: AccessType, u: int)
    requires Ok(l) && Coherent(l, d, below)
    requires var o := Access(l, line, t).1; Equal(below', Put(below, o.wroteBack, o.wbLine, Ver(d, o.wbLine)))
    requires t.Read? && Access(l, line, t).1.hit ==> u == Ver(d, line)
    requires t.Read? && !Access(l, line, t).1.hit ==> u == below'(line)
    ensures var l' := Access(l, line, t).0;
      && Equal(Visible(l', d[line := u], below'), Put(Visible(l, d, below), true, line, u))
      && Coherent(l', d[line := u], below')
    ensures Access(l, line, t).1.wroteBack ==> Access(l, line, t).1.wbLine != line
  {
    Effect(l, line, t);
    LayerEffect(l, d, below, below', line, t, u, Access(l, line, t).0, Access(l, line, t).1);
  }

  lemma LayerEffect(l: Level, d: Data, below: Line -> int, below': Line -> int, line: Line, t: AccessType, u: int,
                    l': Level, o: Outcome)
    requires Ok(l) && Ok(l') && Coherent(l, d, below) && Effects(l, line, t, l', o)
    requires Equal(below', Put(below, o.wroteBack, o.wbLine, Ver(d, o.wbLine)))
    requires t.Read? && o.hit ==> u == Ver(d, line)
    requires t.Read? && !o.hit ==> u == below'(line)
    ensures Equal(Visible(l', d[line := u], below'), Put(Visible(l, d, below), true, line, u))
    ensures Coherent(l', d[line := u], below')
    ensures o.wroteBack ==> o.wbLine != line
  {
    forall x: Line
      ensures Visible(l', d[line := u], below')(x) == Put(Visible(l, d, below), true, line, u)(x)
      ensures Holds(l', x) && !IsDirty(l', x) ==> Ver(d[line := u], x) == below'(x)
    {
      LayerAt(l, d, below, below', line, t, u, l', o, x);
    }
  }

  lemma LayerAt(l: Level, d: Data, below: Line -> int, below': Line -> int, line: Line, t: AccessType, u: int,
                l': Level, o: Outcome, x: Line)
    requires Ok(l) && Ok(l') && Coherent(l, d, below) && Effects(l, line, t, l', o)
    requires below'(x) == if o.wroteBack && x == o.wbLine then Ver(d, o.wbLine) else below(x)
    requires t.Read? && o.hit ==> u == Ver(d, line)
    requires t.Read? && !o.hit && x == line ==> u == below'(line)
    ensures (if Holds(l', x) then Ver(d[line := u], x) else below'(x))
      == if x == line then u else if Holds(l, x) then Ver(d, x) else below(x)
    ensures Holds(l', x) && !IsDirty(l', x) ==> Ver(d[line := u], x) == below'(x)
  {
    if x == line {
      assert o.wroteBack ==> o.wbLine != line;
    } else if Victim(l, line) == Some(x) {
      assert !Holds(l', x) && Holds(l, x);
    } else {
      assert Holds(l', x) <==> Holds(l, x);
      assert IsDirty(l', x) <==> IsDirty(l, x);
      assert o.wroteBack ==> o.wbLine != x;
    }
  }

  // ---------- the machine with data ----------

  datatype Machine = Machine(p: Private, llc: Level, d1: Data, d2: Data, d3: Data, mem: Data)

  ghost predicate MachineOk(m: Machine) {
    PrivateOk(m.p) && Ok(m.llc)
  }

  /** LLC contents, LLC data and memory. */
  datatype Shared = Shared(llc: Level, d3: Data, mem: Data)

  /** A memory write carries the version the LLC held. */
  function Spill(s: Shared, o: Outcome): Data {
    if o.wroteBack then s.mem[o.wbLine := Ver(s.d3, o.wbLine)] else s.mem
  }

  /** A line leaving L2 with version v is written to the LLC. */
  function SendData(s: Shared, o: Outcome, v: int): Shared
    requires Ok(s.llc)
  {
    if !o.wroteBack then s
    else
      var (llc, wb) := Access(s.llc, o.wbLine, Write);
      Shared(llc, s.d3[o.wbLine := v], Spill(s, wb))
  }

  /** The demand fill, and the version it delivers: the LLC's on a hit, memory's on a miss. */
  function FillData(s: Shared, line: Line): (Shared, int)
    requires Ok(s.llc)
  {
    var (llc, fill) := Access(s.llc, line, Read);
    var mem := Spill(s, fill);
    var v := if fill.hit then Ver(s.d3, line) else Ver(mem, line);
    (Shared(llc, s.d3[line := v], mem), v)
  }

  /** The shared half in the code's order: L1-writeback victim, demand victim, then the fill. */
  function SharedData(s: Shared, line: Line, r: PrivateResult, v1: int, v2: int): (q: (Shared, int))
    requires Ok(s.llc)
  {
    var s1 := SendData(s, r.eviction, v1);
    var s2 := SendData(s1, r.demand, v2);
    if r.demand.hit then (s2, 0) else FillData(s2, line)
  }

  /** One access with store version v (used by stores only); the second result is what the demand
      access obtained before any store to the line. */
  function Transact(m: Machine, line: Line, t: AccessType, v: int): (q: (Machine, int))
    requires MachineOk(m)
    ensures MachineOk(q.0)
  {
    var (p, r) := PrivateStep(m.p, line, t);
    if !r.visitedL2 then
      var got := Ver(m.d1, line);
      (Machine(p, m.llc, m.d1[line := if t.Write? then v else got], m.d2, m.d3, m.mem), got)
    else
      var first := Access(m.p.l1, line, t).1;
      var v1 := Ver(m.d2, r.eviction.wbLine);
      var d2 := if first.wroteBack then m.d2[first.wbLine := Ver(m.d1, first.wbLine)] else m.d2;
      var v2 := Ver(d2, r.demand.wbLine);
      var (s, filled) := SharedData(Shared(m.llc, m.d3, m.mem), line, r, v1, v2);
      var got := if r.demand.hit then Ver(d2, line) else filled;
      (Machine(p, s.llc, m.d1[line := if t.Write? then v else got], d2[line := got], s.d3, s.mem), got)
  }

  function WrittenLines(es: seq<Event>): set<Line> {
    set i | 0 <= i < |es| && es[i].write :: es[i].line
  }

  lemma WrittenConcat(a: seq<Event>, b: seq<Event>)
    ensures WrittenLines(a + b) == WrittenLines(a) + WrittenLines(b)
  {
    var c := a + b;
    assert forall i :: 0 <= i < |a| ==> c[i] == a[i];
    assert forall i :: 0 <= i < |b| ==> c[|a| + i] == b[i];
  }

  /** Memory is written at exactly these lines, and nowhere else changed. */
  ghost predicate WroteOnly(mem: Data, mem': Data, lines: set<Line>) {
    mem'.Keys == mem.Keys + lines && forall x :: x in mem && x !in lines ==> mem'[x] == mem[x]
  }

  lemma SendWrites(s: Shared, o: Outcome, v: int)
    requires Ok(s.llc)
    ensures SendData(s, o, v).llc == Outgoing(s.llc, o).0
    ensures WroteOnly(s.mem, SendData(s, o, v).mem, WrittenLines(Outgoing(s.llc, o).1))
  {
    hide Access;
    if o.wroteBack { OneWrite(Access(s.llc, o.wbLine, Write).1.wbLine); }
  }

  lemma OneWrite(x: Line)
    ensures WrittenLines([Event(x, true)]) == {x} && WrittenLines([Event(x, false)]) == {}
  {
    assert [Event(x, true)][0] == Event(x, true);
  }

  lemma FillWrites(s: Shared, line: Line)
    requires Ok(s.llc)
    ensures FillData(s, line).0.llc == DemandFill(s.llc, line).0
    ensures WroteOnly(s.mem, FillData(s, line).0.mem, WrittenLines(DemandFill(s.llc, line).1))
  {
    hide Access;
    var o := Access(s.llc, line, Read).1;
    OneWrite(o.wbLine);
    OneWrite(line);
    WrittenConcat(if o.wroteBack then [Event(o.wbLine, true)] else [], if o.hit then [] else [Event(line, false)]);
  }

  /** The shared step with data moves the tags exactly as the shared step without, and writes memory at
      exactly the lines whose writebacks that step emits. */
  lemma DataFollowsTags(s: Shared, line: Line, r: PrivateResult, v1: int, v2: int)
    requires Ok(s.llc)
    ensures var (llc, es) := SharedStep(s.llc, line, r);
      && SharedData(s, line, r, v1, v2).0.llc == llc
      && WroteOnly(s.mem, SharedData(s, line, r, v1, v2).0.mem, WrittenLines(es))
  {
    hide SendData, FillData, Outgoing, DemandFill, WrittenLines;
    var s1 := SendData(s, r.eviction, v1);
    SendWrites(s, r.eviction, v1);
    var s2 := SendData(s1, r.demand, v2);
    SendWrites(s1, r.demand, v2);
    var (c1, e1) := Outgoing(s.llc, r.eviction);
    var (c2, e2) := Outgoing(c1, r.demand);
    WrittenConcat(e1, e2);
    if !r.demand.hit {
      FillWrites(s2, line);
      WrittenConcat(e1 + e2, DemandFill(c2, line).1);
    }
  }

  // ---------- what is visible at each height ----------

  ghost function AtMemory(mem: Data): Line -> int {
    (x: Line) => Ver(mem, x)
  }

  ghost function AtLlc(s: Shared): Line -> int
    requires Ok(s.llc)
  {
    Visible(s.llc, s.d3, AtMemory(s.mem))
  }

  ghost predicate SharedCoherent(s: Shared)
    requires Ok(s.llc)
  {
    Coherent(s.llc, s.d3, AtMemory(s.mem))
  }

  ghost function AtL2(m: Machine): Line -> int
    requires MachineOk(m)
  {
    Visible(m.p.l2, m.d2, AtLlc(Shared(m.llc, m.d3, m.mem)))
  }

  ghost function AtL1(m: Machine): Line -> int
    requires MachineOk(m)
  {
    Visible(m.p.l1, m.d1, AtL2(m))
  }

  ghost predicate Fresh(m: Machine)
    requires MachineOk(m)
  {
    var s := Shared(m.llc, m.d3, m.mem);
    SharedCoherent(s) && Coherent(m.p.l2, m.d2, AtLlc(s)) && Coherent(m.p.l1, m.d1, AtL2(m))
  }

  lemma SendKeeps(s: Shared, o: Outcome, v: int)
    requires Ok(s.llc) && SharedCoherent(s)
    ensures var s' := SendData(s, o, v);
      Ok(s'.llc) && SharedCoherent(s') && Equal(AtLlc(s'), Put(AtLlc(s), o.wroteBack, o.wbLine, v))
  {
    if o.wroteBack {
      var s' := SendData(s, o, v);
      LayerAccess(s.llc, s.d3, AtMemory(s.mem), AtMemory(s'.mem), o.wbLine, Write, v);
    }
  }

  lemma FillKeeps(s: Shared, line: Line)
    requires Ok(s.llc) && SharedCoherent(s)
    ensures var (s', v) := FillData(s, line);
      Ok(s'.llc) && SharedCoherent(s') && v == AtLlc(s)(line) && Equal(AtLlc(s'), AtLlc(s))
  {
    var (s', v) := FillData(s, line);
    LayerAccess(s.llc, s.d3, AtMemory(s.mem), AtMemory(s'.mem), line, Read, v);
    Effect(s.llc, line, Read);
  }

  /** Both outgoing versions reach the LLC before the fill reads it, so the fill sees them. */
  lemma SharedKeeps(s: Shared, line: Line, r: PrivateResult, v1: int, v2: int, after: Line -> int)
    requires Ok(s.llc) && SharedCoherent(s)
    requires Equal(after, Put(Put(AtLlc(s), r.eviction.wroteBack, r.eviction.wbLine, v1),
                              r.demand.wroteBack, r.demand.wbLine, v2))
    ensures var (s', v) := SharedData(s, line, r, v1, v2);
      && Ok(s'.llc) && SharedCoherent(s') && Equal(AtLlc(s'), after)
      && (!r.demand.hit ==> v == after(line))
  {
    hide SharedCoherent, SendData, FillData, Ok;
    SendKeeps(s, r.eviction, v1);
    var s1 := SendData(s, r.eviction, v1);
    SendKeeps(s1, r.demand, v2);
    var s2 := SendData(s1, r.demand, v2);
    if !r.demand.hit { FillKeeps(s2, line); }
  }

  /** L2's half of a miss. `below` changes as its two outgoing lines leave; the demanded version is
      its own on a hit and the one below, after both have left, on a miss. */
  lemma L2Keeps(l2: Level, d2: Data, below: Line -> int, below': Line -> int, below'': Line -> int,
                first: Outcome, line: Line, v: int, got: int)
    requires Ok(l2) && Coherent(l2, d2, below) && (first.wroteBack ==> first.wbLine != line)
    requires var (l2'', eviction, demand) := L2Step(l2, first, line);
      var d2' := if first.wroteBack then d2[first.wbLine := v] else d2;
      && Equal(below', Put(below, eviction.wroteBack, eviction.wbLine, Ver(d2, eviction.wbLine)))
      && Equal(below'', Put(below', demand.wroteBack, demand.wbLine, Ver(d2', demand.wbLine)))
      && got == (if demand.hit then Ver(d2', line) else below''(line))
    ensures var (l2'', eviction, demand) := L2Step(l2, first, line);
      var d2' := if first.wroteBack then d2[first.wbLine := v] else d2;
      && Coherent(l2'', d2'[line := got], below'')
      && Equal(Visible(l2'', d2'[line := got], below''), Put(Visible(l2, d2, below), first.wroteBack, first.wbLine, v))
      && got == Visible(l2, d2, below)(line)
  {
    var l2', d2' := l2, d2;
    if first.wroteBack {
      l2', d2' := Access(l2, first.wbLine, Write).0, d2[first.wbLine := v];
      LayerAccess(l2, d2, below, below', first.wbLine, Write, v);
    }
    LayerAccess(l2', d2', below', below'', line, Read, got);
    ReadDelivers(l2', d2', below', below'', line, got);
  }

  /** What a read obtains is what was visible before it. */
  lemma ReadDelivers(l: Level, d: Data, below: Line -> int, below': Line -> int, line: Line, got: int)
    requires Ok(l)
    requires var o := Access(l, line, Read).1;
      && Equal(below', Put(below, o.wroteBack, o.wbLine, Ver(d, o.wbLine)))
      && got == (if o.hit then Ver(d, line) else below'(line))
    ensures got == Visible(l, d, below)(line)
  {
    Effect(l, line, Read);
    var o := Access(l, line, Read).1;
    assert o.hit <==> Holds(l, line);
    assert o.wroteBack ==> o.wbLine != line;
  }

  /** One access of the whole machine: it obtains what was visible to it, and afterwards exactly the
      accessed line may have changed, to the stored version. */
  lemma TransactKeeps(m: Machine, line: Line, t: AccessType, v: int)
    requires MachineOk(m) && Fresh(m)
    ensures var (m', got) := Transact(m, line, t, v);
      && Fresh(m')
      && got == AtL1(m)(line)
      && Equal(AtL1(m'), Put(AtL1(m), t.Write?, line, v))
  {
    var (m', got) := Transact(m, line, t, v);
    var first := Access(m.p.l1, line, t).1;
    var u := if t.Write? then v else got;
    Effect(m.p.l1, line, t);
    if first.hit {
      LayerAccess(m.p.l1, m.d1, AtL2(m), AtL2(m'), line, t, u);
    } else {
      MissKeeps(m, line, t, v);
      LayerAccess(m.p.l1, m.d1, AtL2(m), AtL2(m'), line, t, u);
    }
  }

  lemma MissKeeps(m: Machine, line: Line, t: AccessType, v: int)
    requires MachineOk(m) && Fresh(m) && !Access(m.p.l1, line, t).1.hit
    ensures var (m', got) := Transact(m, line, t, v);
      var first := Access(m.p.l1, line, t).1;
      && var s' := Shared(m'.llc, m'.d3, m'.mem);
      && SharedCoherent(s') && Coherent(m'.p.l2, m'.d2, AtLlc(s'))
      && Equal(AtL2(m'), Put(AtL2(m), first.wroteBack, first.wbLine, Ver(m.d1, first.wbLine)))
      && got == AtL2(m)(line)
  {
    var (m', got) := Transact(m, line, t, v);
    var first := Access(m.p.l1, line, t).1;
    Effect(m.p.l1, line, t);
    var s := Shared(m.llc, m.d3, m.mem);
    var r := PrivateStep(m.p, line, t).1;
    var v1 := Ver(m.d2, r.eviction.wbLine);
    var d2 := if first.wroteBack then m.d2[first.wbLine := Ver(m.d1, first.wbLine)] else m.d2;
    var v2 := Ver(d2, r.demand.wbLine);
    var below' := Put(AtLlc(s), r.eviction.wroteBack, r.eviction.wbLine, v1);
    var below'' := Put(below', r.demand.wroteBack, r.demand.wbLine, v2);
    SharedKeeps(s, line, r, v1, v2, below'');
    L2Keeps(m.p.l2, m.d2, AtLlc(s), below', AtLlc(Shared(m'.llc, m'.d3, m'.mem)), first, line,
            Ver(m.d1, first.wbLine), got);
  }

  // ---------- whole runs of one thread ----------

  datatype Op = Op(line: Line, t: AccessType, v: int)

  function Run(m: Machine, ops: seq<Op>): (q: (Machine, seq<int>))
    requires MachineOk(m)
    ensures MachineOk(q.0) && |q.1| == |ops|
  {
    if ops == [] then (m, [])
    else
      var (m', got) := Run(m, ops[..|ops| - 1]);
      var op := ops[|ops| - 1];
      var (m'', g) := Transact(m', op.line, op.t, op.v);
      (m'', got + [g])
  }

  /** The version most recently stored to x, or `initial`. */
  function LastStored(ops: seq<Op>, x: Line, initial: int): int {
    if ops == [] then initial
    else
      var op := ops[|ops| - 1];
      if op.t.Write? && op.line == x then op.v else LastStored(ops[..|ops| - 1], x, initial)
  }

  lemma {:induction false} RunKeeps(m: Machine, ops: seq<Op>)
    requires MachineOk(m) && Fresh(m)
    ensures Fresh(Run(m, ops).0)
    ensures forall x: Line :: AtL1(Run(m, ops).0)(x) == LastStored(ops, x, AtL1(m)(x))
  {
    if ops != [] {
      var init, op := ops[..|ops| - 1], ops[|ops| - 1];
      RunKeeps(m, init);
      TransactKeeps(Run(m, init).0, op.line, op.t, op.v);
    }
  }

  lemma {:induction false} Delivered(m: Machine, ops: seq<Op>, i: nat)
    requires MachineOk(m) && Fresh(m) && i < |ops|
    ensures Run(m, ops).1[i] == LastStored(ops[..i], ops[i].line, AtL1(m)(ops[i].line))
  {
    hide Fresh, AtL1, Transact;
    var init, op := ops[..|ops| - 1], ops[|ops| - 1];
    if i < |init| {
      Delivered(m, init, i);
      assert init[..i] == ops[..i];
    } else {
      RunKeeps(m, init);
      TransactKeeps(Run(m, init).0, op.line, op.t, op.v);
    }
  }

  ghost predicate ColdMachine(m: Machine)
    requires MachineOk(m)
  {
    && m.mem == map[]
    && forall x: Line :: !Holds(m.p.l1, x) && !Holds(m.p.l2, x) && !Holds(m.llc, x)
  }

  /** From cold caches over zero memory, every demand access of one thread obtains exactly the
      version last stored to its line. */
  lemma DemandIsFresh(m: Machine, ops: seq<Op>, i: nat)
    requires MachineOk(m) && ColdMachine(m) && i < |ops|
    ensures Run(m, ops).1[i] == LastStored(ops[..i], ops[i].line, 0)
  {
    assert Fresh(m) && AtL1(m)(ops[i].line) == 0;
    Delivered(m, ops, i);
  }
}
