/** The abstract meaning of one writeback, write-allocate, true-LRU level: per set, a list of
    entries with the most recently used first. */
module CacheSpec {

  /** Line numbers are 64-bit byte addresses shifted right by six. */
  const LINE_LIMIT: nat := 0x0400_0000_0000_0000
  type Line = n: nat | n < LINE_LIMIT

  /** Byte addresses have 64 bits. */
  const ADDRESSES: nat := 0x1_0000_0000_0000_0000

  /** Some byte of the operand lies in line x. */
  ghost predicate HasByteIn(addr: nat, size: nat, x: nat) {
    exists b: nat :: addr <= b < addr + size && b / 64 == x
  }

  lemma SpanMembers(addr: nat, size: nat, x: nat)
    ensures HasByteIn(addr, size, x) <==> size > 0 && addr / 64 <= x <= (addr + size - 1) / 64
  {
    if size > 0 && addr / 64 <= x <= (addr + size - 1) / 64 {
      var b := if addr / 64 == x then addr else 64 * x;
      assert addr <= b < addr + size && b / 64 == x;
    }
  }

  datatype Option<T> = None | Some(value: T)

  datatype AccessType = Read | Write

  datatype Outcome = Outcome(hit: bool, wroteBack: bool, wbLine: Line)

  /** One DRAM transaction: a writeback of `line`, or a fill of it. */
  datatype Event = Event(line: Line, write: bool)

  datatype Entry = Entry(line: Line, dirty: bool)

  datatype Level = Level(assoc: nat, sets: seq<seq<Entry>>)

  function One(b: bool): nat { if b then 1 else 0 }

  /** Position of `line` in the list, or its length. */
  function IndexOf(es: seq<Entry>, line: Line): (i: nat)
    ensures i <= |es|
    ensures i < |es| ==> es[i].line == line
    ensures forall j :: 0 <= j < i ==> es[j].line != line
  {
    if es == [] then 0
    else if es[0].line == line then 0
    else 1 + IndexOf(es[1..], line)
  }

  function SetAccess(es: seq<Entry>, assoc: nat, line: Line, t: AccessType): (seq<Entry>, Outcome)
    requires 1 <= assoc && |es| <= assoc
  {
    var i := IndexOf(es, line);
    if i < |es| then
      ([Entry(line, es[i].dirty || t.Write?)] + es[..i] + es[i + 1..], Outcome(true, false, 0))
    else if |es| < assoc then
      ([Entry(line, t.Write?)] + es, Outcome(false, false, 0))
    else
      var victim := es[|es| - 1];
      ([Entry(line, t.Write?)] + es[..|es| - 1],
       if victim.dirty then Outcome(false, true, victim.line) else Outcome(false, false, 0))
  }

  ghost predicate SetOk(es: seq<Entry>, assoc: nat, sets: nat, s: nat)
    requires sets > 0
  {
    && |es| <= assoc
    && (forall i :: 0 <= i < |es| ==> es[i].line % sets == s)
    && (forall i, j :: 0 <= i < j < |es| ==> es[i].line != es[j].line)
  }

  ghost predicate Ok(l: Level) {
    && 1 <= l.assoc
    && 1 <= |l.sets|
    && forall s :: 0 <= s < |l.sets| ==> SetOk(l.sets[s], l.assoc, |l.sets|, s)
  }

  function Access(l: Level, line: Line, t: AccessType): (r: (Level, Outcome))
    requires Ok(l)
    ensures Ok(r.0) && r.0.assoc == l.assoc && |r.0.sets| == |l.sets|
  {
    var s := line % |l.sets|;
    SetEffect(l.sets[s], l.assoc, |l.sets|, s, line, t);
    var (es, out) := SetAccess(l.sets[s], l.assoc, line, t);
    (l.(sets := l.sets[s := es]), out)
  }

  function Cold(assoc: nat, sets: nat): Level {
    Level(assoc, seq(sets, _ => []))
  }

  // ---------- what a level holds ----------

  ghost predicate Holds(l: Level, line: Line)
    requires |l.sets| > 0
  {
    var es := l.sets[line % |l.sets|];
    IndexOf(es, line) < |es|
  }

  ghost predicate IsDirty(l: Level, line: Line)
    requires |l.sets| > 0
  {
    var es := l.sets[line % |l.sets|];
    Holds(l, line) && es[IndexOf(es, line)].dirty
  }

  ghost predicate Same(l: Level, l': Level, except: set<Line>)
    requires |l.sets| > 0 && |l'.sets| > 0
  {
    forall x: Line :: x !in except ==> (Holds(l', x) <==> Holds(l, x)) && (IsDirty(l', x) <==> IsDirty(l, x))
  }

  /** The line whose copy leaves the level, clean or dirty, if any. */
  ghost function Victim(l: Level, line: Line): Option<Line>
    requires Ok(l)
  {
    var es := l.sets[line % |l.sets|];
    if Holds(l, line) || |es| < l.assoc then None else Some(es[|es| - 1].line)
  }

  /** Everything one access does to the contents of a level: the accessed line ends up held, at
      most one other line leaves, and it is handed down exactly if its copy was dirty. */
  ghost predicate Effects(l: Level, line: Line, t: AccessType, l': Level, o: Outcome)
    requires Ok(l) && |l'.sets| > 0
  {
    && (o.hit <==> Holds(l, line))
    && Holds(l', line)
    && (IsDirty(l', line) <==> t.Write? || IsDirty(l, line))
    && match Victim(l, line)
       case None => Same(l, l', {line}) && !o.wroteBack
       case Some(v) =>
         && v != line && !o.hit && Holds(l, v) && !Holds(l', v) && Same(l, l', {line, v})
         && (o.wroteBack <==> IsDirty(l, v)) && (o.wroteBack ==> o.wbLine == v)
  }

  lemma Effect(l: Level, line: Line, t: AccessType)
    requires Ok(l)
    ensures Effects(l, line, t, Access(l, line, t).0, Access(l, line, t).1)
  {
    LineAfter(l, line, t);
    VictimAfter(l, line, t);
    var l' := Access(l, line, t).0;
    forall x: Line | x != line && Victim(l, line) != Some(x)
      ensures (Holds(l', x) <==> Holds(l, x)) && (IsDirty(l', x) <==> IsDirty(l, x))
    {
      OtherAfter(l, line, t, x);
    }
    hide Access, Ok, Holds, IsDirty, Victim;
  }

  lemma LineAfter(l: Level, line: Line, t: AccessType)
    requires Ok(l)
    ensures var (l', o) := Access(l, line, t);
      && (o.hit <==> Holds(l, line)) && Holds(l', line) && (IsDirty(l', line) <==> t.Write? || IsDirty(l, line))
  {
    var s := line % |l.sets|;
    SetAccessIs(l.sets[s], l.assoc, line, t);
    SetEffect(l.sets[s], l.assoc, |l.sets|, s, line, t);
    IndexIs(SetAccess(l.sets[s], l.assoc, line, t).0, line, 0);
    hide SetAccess, SetOk;
  }

  lemma VictimAfter(l: Level, line: Line, t: AccessType)
    requires Ok(l)
    ensures var (l', o) := Access(l, line, t);
      match Victim(l, line)
      case None => !o.wroteBack
      case Some(v) =>
        && v != line && !o.hit && Holds(l, v) && !Holds(l', v)
        && (o.wroteBack <==> IsDirty(l, v)) && (o.wroteBack ==> o.wbLine == v)
  {
    var s := line % |l.sets|;
    var es := l.sets[s];
    if |es| == l.assoc && IndexOf(es, line) == |es| {
      IndexUnique(es, |es| - 1);
      assert SetOk(es, l.assoc, |l.sets|, s);
      SetVictimGone(es, l.assoc, |l.sets|, s, line, t);
    }
  }

  lemma OtherAfter(l: Level, line: Line, t: AccessType, x: Line)
    requires Ok(l) && x != line && Victim(l, line) != Some(x)
    ensures var l' := Access(l, line, t).0;
      (Holds(l', x) <==> Holds(l, x)) && (IsDirty(l', x) <==> IsDirty(l, x))
  {
    var s := line % |l.sets|;
    if x % |l.sets| == s {
      assert SetOk(l.sets[s], l.assoc, |l.sets|, s);
      SetUnaffected(l.sets[s], l.assoc, |l.sets|, s, line, t, x);
      hide SetAccess, SetOk;
    }
  }

  lemma IndexUnique(es: seq<Entry>, i: nat)
    requires i < |es|
    requires forall i, j :: 0 <= i < j < |es| ==> es[i].line != es[j].line
    ensures IndexOf(es, es[i].line) == i
  {
  }

  /** The list after an access, by case. */
  lemma SetAccessIs(es: seq<Entry>, assoc: nat, line: Line, t: AccessType)
    requires 1 <= assoc && |es| <= assoc
    ensures var i := IndexOf(es, line);
      && SetAccess(es, assoc, line, t).0 == (if i < |es| then ToFront(es, i, line, t) else Added(es, assoc, line, t))
      && (SetAccess(es, assoc, line, t).1.hit <==> i < |es|)
  {
  }

  function ToFront(es: seq<Entry>, i: nat, line: Line, t: AccessType): seq<Entry>
    requires i < |es|
  {
    [Entry(line, es[i].dirty || t.Write?)] + es[..i] + es[i + 1..]
  }

  function Added(es: seq<Entry>, assoc: nat, line: Line, t: AccessType): seq<Entry>
    requires 1 <= assoc && |es| <= assoc
  {
    [Entry(line, t.Write?)] + if |es| < assoc then es else es[..|es| - 1]
  }

  lemma SetEffect(es: seq<Entry>, assoc: nat, sets: nat, s: nat, line: Line, t: AccessType)
    requires 1 <= assoc && sets > 0 && line % sets == s && SetOk(es, assoc, sets, s)
    ensures SetOk(SetAccess(es, assoc, line, t).0, assoc, sets, s)
    ensures SetAccess(es, assoc, line, t).0[0] ==
      Entry(line, t.Write? || (IndexOf(es, line) < |es| && es[IndexOf(es, line)].dirty))
  {
    SetAccessIs(es, assoc, line, t);
    hide SetAccess;
    var i := IndexOf(es, line);
    if i < |es| { FrontOk(es, assoc, sets, s, i, t); } else { AddedOk(es, assoc, sets, s, line, t); }
  }

  lemma FrontOk(es: seq<Entry>, assoc: nat, sets: nat, s: nat, i: nat, t: AccessType)
    requires sets > 0 && SetOk(es, assoc, sets, s) && i < |es|
    ensures SetOk(ToFront(es, i, es[i].line, t), assoc, sets, s)
  {
    var es' := ToFront(es, i, es[i].line, t);
    assert forall m :: 1 <= m < |es'| ==> es'[m] == if m <= i then es[m - 1] else es[m];
  }

  lemma AddedOk(es: seq<Entry>, assoc: nat, sets: nat, s: nat, line: Line, t: AccessType)
    requires 1 <= assoc && sets > 0 && SetOk(es, assoc, sets, s) && line % sets == s
    requires forall m :: 0 <= m < |es| ==> es[m].line != line
    ensures SetOk(Added(es, assoc, line, t), assoc, sets, s)
  {
    var es' := Added(es, assoc, line, t);
    assert forall m :: 1 <= m < |es'| ==> es'[m] == es[m - 1];
  }

  lemma SetVictimGone(es: seq<Entry>, assoc: nat, sets: nat, s: nat, line: Line, t: AccessType)
    requires 1 <= assoc && sets > 0 && SetOk(es, assoc, sets, s)
    requires IndexOf(es, line) == |es| == assoc
    ensures var es' := SetAccess(es, assoc, line, t).0;
      IndexOf(es', es[|es| - 1].line) == |es'|
  {
  }

  /** `line` moves or comes to the front; where another line stands afterwards. */
  lemma FrontIndex(es: seq<Entry>, i: nat, line: Line, t: AccessType, x: Line)
    requires i < |es| && es[i].line == line && x != line
    ensures var es', n := ToFront(es, i, line, t), IndexOf(es, x);
      var n' := IndexOf(es', x);
      (n < |es| <==> n' < |es'|) && (n < |es| ==> es'[n'] == es[n] && n' == if i < n then n else n + 1)
  {
    var es', n := ToFront(es, i, line, t), IndexOf(es, x);
    assert forall m :: 1 <= m < |es'| ==> es'[m] == if m <= i then es[m - 1] else es[m];
    IndexIs(es', x, if n == |es| then |es'| else if i < n then n else n + 1);
  }

  lemma AddedIndex(es: seq<Entry>, assoc: nat, line: Line, t: AccessType, x: Line)
    requires 1 <= assoc && |es| <= assoc && x != line
    requires |es| == assoc ==> x != es[|es| - 1].line
    ensures var es', n := Added(es, assoc, line, t), IndexOf(es, x);
      var n' := IndexOf(es', x);
      (n < |es| <==> n' < |es'|) && (n < |es| ==> es'[n'] == es[n] && n' == n + 1)
  {
    var es', n := Added(es, assoc, line, t), IndexOf(es, x);
    assert forall m :: 1 <= m < |es'| ==> es'[m] == es[m - 1];
    IndexIs(es', x, if n == |es| then |es'| else n + 1);
  }

  lemma IndexIs(es: seq<Entry>, x: Line, n: nat)
    requires n <= |es| && forall m :: 0 <= m < n ==> es[m].line != x
    requires n < |es| ==> es[n].line == x
    ensures IndexOf(es, x) == n
  {
  }

  lemma SetUnaffected(es: seq<Entry>, assoc: nat, sets: nat, s: nat, line: Line, t: AccessType, x: Line)
    requires 1 <= assoc && sets > 0 && SetOk(es, assoc, sets, s)
    requires x != line
    requires IndexOf(es, line) == |es| == assoc ==> x != es[|es| - 1].line
    ensures var es' := SetAccess(es, assoc, line, t).0;
      var i, i' := IndexOf(es, x), IndexOf(es', x);
      (i < |es| <==> i' < |es'|) && (i < |es| ==> es'[i'] == es[i] && i' == if IndexOf(es, line) < i then i else i + 1)
  {
    SetAccessIs(es, assoc, line, t);
    hide SetAccess;
    var k := IndexOf(es, line);
    if k < |es| {
      FrontIndex(es, k, line, t, x);
    } else {
      AddedIndex(es, assoc, line, t, x);
    }
  }

  lemma ColdHoldsNothing(assoc: nat, sets: nat)
    requires assoc > 0 && sets > 0
    ensures Ok(Cold(assoc, sets))
    ensures forall x: Line :: !Holds(Cold(assoc, sets), x)
  {
  }
}
