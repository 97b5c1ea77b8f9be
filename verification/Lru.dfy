/** Whole reference streams through one level: which lines are resident after any stream, and the
    token balance of dirty copies. */
module Lru {
  import opened CacheSpec

  datatype Ref = Ref(line: Line, t: AccessType)

  function Feed(l: Level, refs: seq<Ref>): (l': Level)
    requires Ok(l)
    ensures Ok(l') && l'.assoc == l.assoc && |l'.sets| == |l.sets|
  {
    if refs == [] then l
    else
      var before := Feed(l, refs[..|refs| - 1]);
      var r := refs[|refs| - 1];
      Effect(before, r.line, r.t);
      Access(before, r.line, r.t).0
  }

  ghost predicate Touched(refs: seq<Ref>, x: Line) {
    exists i :: 0 <= i < |refs| && refs[i].line == x
  }

  /** The distinct lines of x's set referenced after the last reference to x. */
  ghost function Since(refs: seq<Ref>, sets: nat, x: Line): set<Line>
    requires sets > 0
  {
    if refs == [] then {}
    else
      var y := refs[|refs| - 1].line;
      if y == x then {}
      else Since(refs[..|refs| - 1], sets, x) + if y % sets == x % sets then {y} else {}
  }

  ghost function LinesOf(es: seq<Entry>): set<Line> {
    set i | 0 <= i < |es| :: es[i].line
  }

  lemma {:induction false} DistinctCount(es: seq<Entry>)
    requires forall i, j :: 0 <= i < j < |es| ==> es[i].line != es[j].line
    ensures |LinesOf(es)| == |es|
  {
    if es != [] {
      var front := es[..|es| - 1];
      DistinctCount(front);
      assert LinesOf(es) == LinesOf(front) + {es[|es| - 1].line};
    }
  }

  /** Where x stands in the list of its set, in terms of the reference stream alone. */
  ghost predicate Placed(es: seq<Entry>, assoc: nat, refs: seq<Ref>, sets: nat, x: Line)
    requires sets > 0
  {
    var i := IndexOf(es, x);
    if i < |es| then Touched(refs, x) && Since(refs, sets, x) == LinesOf(es[..i])
    else Touched(refs, x) ==> |Since(refs, sets, x)| >= assoc
  }

  lemma PlacedStep(es: seq<Entry>, assoc: nat, refs: seq<Ref>, sets: nat, s: nat, r: Ref, x: Line)
    requires 1 <= assoc && sets > 0 && SetOk(es, assoc, sets, s)
    requires r.line % sets == s == x % sets
    requires Placed(es, assoc, refs, sets, x)
    ensures Placed(SetAccess(es, assoc, r.line, r.t).0, assoc, refs + [r], sets, x)
  {
    var h := refs + [r];
    assert h[..|h| - 1] == refs;
    TouchedAppend(refs, r, x);
    var i := IndexOf(es, x);
    if x == r.line {
      PlacedFirst(es, assoc, refs, sets, r);
    } else if IndexOf(es, r.line) == |es| == assoc && i == |es| - 1 {
      PlacedEvicted(es, assoc, refs, sets, s, r);
    } else {
      SetUnaffected(es, assoc, sets, s, r.line, r.t, x);
      if i < |es| {
        ShiftedPrefix(es, assoc, sets, s, r.line, r.t, x);
      } else {
        SinceGrows(refs, sets, x, r);
      }
    }
  }

  lemma TouchedAppend(refs: seq<Ref>, r: Ref, x: Line)
    ensures Touched(refs + [r], x) <==> Touched(refs, x) || r.line == x
  {
    var h := refs + [r];
    assert h[|refs|] == r;
    assert forall i :: 0 <= i < |refs| ==> h[i] == refs[i];
  }

  lemma PlacedFirst(es: seq<Entry>, assoc: nat, refs: seq<Ref>, sets: nat, r: Ref)
    requires 1 <= assoc && sets > 0 && |es| <= assoc
    ensures Placed(SetAccess(es, assoc, r.line, r.t).0, assoc, refs + [r], sets, r.line)
  {
    var es' := SetAccess(es, assoc, r.line, r.t).0;
    TouchedAppend(refs, r, r.line);
    assert IndexOf(es', r.line) == 0;
    assert LinesOf(es'[..0]) == {};
    assert (refs + [r])[|refs|] == r;
  }

  lemma PlacedEvicted(es: seq<Entry>, assoc: nat, refs: seq<Ref>, sets: nat, s: nat, r: Ref)
    requires 1 <= assoc == |es| && sets > 0 && SetOk(es, assoc, sets, s)
    requires r.line % sets == s && IndexOf(es, r.line) == |es|
    requires Placed(es, assoc, refs, sets, es[|es| - 1].line)
    ensures Placed(SetAccess(es, assoc, r.line, r.t).0, assoc, refs + [r], sets, es[|es| - 1].line)
  {
    var x := es[|es| - 1].line;
    IndexUnique(es, |es| - 1);
    SetVictimGone(es, assoc, sets, s, r.line, r.t);
    DistinctCount(es[..|es| - 1]);
    assert r.line !in LinesOf(es[..|es| - 1]);
    assert (refs + [r])[..|refs|] == refs;
    assert Since(refs + [r], sets, x) == LinesOf(es[..|es| - 1]) + {r.line};
  }

  lemma LinesOfConcat(a: seq<Entry>, b: seq<Entry>)
    ensures LinesOf(a + b) == LinesOf(a) + LinesOf(b)
  {
    var c := a + b;
    assert forall i :: 0 <= i < |a| ==> c[i] == a[i];
    assert forall i :: 0 <= i < |b| ==> c[|a| + i] == b[i];
  }

  lemma ShiftedPrefix(es: seq<Entry>, assoc: nat, sets: nat, s: nat, line: Line, t: AccessType, x: Line)
    requires 1 <= assoc && sets > 0 && SetOk(es, assoc, sets, s)
    requires x != line && IndexOf(es, x) < |es|
    requires IndexOf(es, line) == |es| == assoc ==> x != es[|es| - 1].line
    ensures var es' := SetAccess(es, assoc, line, t).0;
      && IndexOf(es', x) < |es'|
      && LinesOf(es'[..IndexOf(es', x)]) == LinesOf(es[..IndexOf(es, x)]) + {line}
  {
    SetUnaffected(es, assoc, sets, s, line, t, x);
    var i, k := IndexOf(es, x), IndexOf(es, line);
    FrontSlices(es, assoc, line, t, i);
    var es' := SetAccess(es, assoc, line, t).0;
    if k < i {
      MovedLines(es[..i], k, es'[0]);
    } else {
      LinesOfConcat([es'[0]], es[..i]);
      LinesOfOne(es'[0]);
    }
  }

  lemma FrontSlices(es: seq<Entry>, assoc: nat, line: Line, t: AccessType, i: nat)
    requires 1 <= assoc && |es| <= assoc && i < |es| && i != IndexOf(es, line)
    requires IndexOf(es, line) == |es| == assoc ==> i < |es| - 1
    ensures var es', k := SetAccess(es, assoc, line, t).0, IndexOf(es, line);
      && es'[0].line == line
      && if k < i then es'[..i] == [es'[0]] + es[..i][..k] + es[..i][k + 1..]
         else i + 1 <= |es'| && es'[..i + 1] == [es'[0]] + es[..i]
  {
    SetAccessIs(es, assoc, line, t);
    hide SetAccess;
    var k := IndexOf(es, line);
    if k < |es| {
      MovedSlices(es, k, line, t, i);
    } else {
      AddedSlices(es, assoc, line, t, i);
    }
  }

  lemma MovedSlices(es: seq<Entry>, k: nat, line: Line, t: AccessType, i: nat)
    requires k < |es| && i < |es| && i != k
    ensures var es' := ToFront(es, k, line, t);
      && es'[0].line == line
      && if k < i then es'[..i] == [es'[0]] + es[..i][..k] + es[..i][k + 1..]
         else i + 1 <= |es'| && es'[..i + 1] == [es'[0]] + es[..i]
  {
    var es' := ToFront(es, k, line, t);
    assert forall m :: 1 <= m < |es'| ==> es'[m] == if m <= k then es[m - 1] else es[m];
  }

  lemma AddedSlices(es: seq<Entry>, assoc: nat, line: Line, t: AccessType, i: nat)
    requires 1 <= assoc && |es| <= assoc && i < |es| && (|es| == assoc ==> i < |es| - 1)
    ensures var es' := Added(es, assoc, line, t);
      es'[0].line == line && i + 1 <= |es'| && es'[..i + 1] == [es'[0]] + es[..i]
  {
    var es' := Added(es, assoc, line, t);
    assert forall m :: 1 <= m < |es'| ==> es'[m] == es[m - 1];
  }

  lemma LinesOfOne(e: Entry)
    ensures LinesOf([e]) == {e.line}
  {
    assert [e][0] == e;
  }

  lemma MovedLines(a: seq<Entry>, k: nat, e: Entry)
    requires k < |a| && e.line == a[k].line
    ensures LinesOf([e] + a[..k] + a[k + 1..]) == LinesOf(a)
  {
    LinesOfOne(e);
    LinesOfOne(a[k]);
    LinesOfConcat([e] + a[..k], a[k + 1..]);
    LinesOfConcat([e], a[..k]);
    LinesOfConcat(a[..k] + [a[k]], a[k + 1..]);
    LinesOfConcat(a[..k], [a[k]]);
    assert a == a[..k] + [a[k]] + a[k + 1..];
  }

  lemma SinceGrows(refs: seq<Ref>, sets: nat, x: Line, r: Ref)
    requires sets > 0 && r.line != x
    ensures Since(refs, sets, x) <= Since(refs + [r], sets, x)
    ensures |Since(refs, sets, x)| <= |Since(refs + [r], sets, x)|
  {
    var h := refs + [r];
    assert h[..|h| - 1] == refs;
    var a, b := Since(refs, sets, x), Since(h, sets, x);
    assert b == a || b == a + {r.line};
  }

  lemma PlacedByAccess(l: Level, refs: seq<Ref>, r: Ref, x: Line)
    requires Ok(l) && Placed(l.sets[x % |l.sets|], l.assoc, refs, |l.sets|, x)
    ensures Placed(Access(l, r.line, r.t).0.sets[x % |l.sets|], l.assoc, refs + [r], |l.sets|, x)
  {
    hide Placed, SetAccess, Since;
    var sets := |l.sets|;
    if r.line % sets == x % sets {
      assert SetOk(l.sets[x % sets], l.assoc, sets, x % sets);
      PlacedStep(l.sets[x % sets], l.assoc, refs, sets, x % sets, r, x);
    } else {
      PlacedElsewhere(l.sets[x % sets], l.assoc, refs, sets, r, x);
    }
  }

  lemma PlacedElsewhere(es: seq<Entry>, assoc: nat, refs: seq<Ref>, sets: nat, r: Ref, x: Line)
    requires sets > 0 && r.line % sets != x % sets && Placed(es, assoc, refs, sets, x)
    ensures Placed(es, assoc, refs + [r], sets, x)
  {
    TouchedAppend(refs, r, x);
    assert (refs + [r])[..|refs|] == refs;
  }

  lemma {:induction false} AllPlaced(assoc: nat, sets: nat, refs: seq<Ref>, x: Line)
    requires 1 <= assoc && 1 <= sets
    ensures Placed(Feed(Cold(assoc, sets), refs).sets[x % sets], assoc, refs, sets, x)
  {
    if refs == [] {
    } else {
      var init, r := refs[..|refs| - 1], refs[|refs| - 1];
      AllPlaced(assoc, sets, init, x);
      PlacedByAccess(Feed(Cold(assoc, sets), init), init, r, x);
      assert refs == init + [r];
    }
  }

  /** Reuse distance. After any stream from cold, a line is resident exactly if it was referenced
      and fewer than `assoc` distinct lines of its set have been referenced since. */
  lemma Residency(assoc: nat, sets: nat, refs: seq<Ref>, x: Line)
    requires 1 <= assoc && 1 <= sets
    ensures Holds(Feed(Cold(assoc, sets), refs), x) <==>
      Touched(refs, x) && |Since(refs, sets, x)| < assoc
  {
    AllPlaced(assoc, sets, refs, x);
    var l := Feed(Cold(assoc, sets), refs);
    var es := l.sets[x % sets];
    if Holds(l, x) {
      DistinctCount(es[..IndexOf(es, x)]);
    }
  }

  /** The list order is the recency order: an entry's position counts the distinct lines of its set
      referenced after it. */
  lemma PositionIsReuseDistance(assoc: nat, sets: nat, refs: seq<Ref>, s: nat, i: nat)
    requires 1 <= assoc && s < sets
    requires i < |Feed(Cold(assoc, sets), refs).sets[s]|
    ensures |Since(refs, sets, Feed(Cold(assoc, sets), refs).sets[s][i].line)| == i
  {
    var es := Feed(Cold(assoc, sets), refs).sets[s];
    AllPlaced(assoc, sets, refs, es[i].line);
    IndexUnique(es, i);
    DistinctCount(es[..i]);
  }

  // ---------- dirty tokens ----------

  ghost function DirtyLines(l: Level): set<Line>
    requires |l.sets| > 0
  {
    set x: Line | IsDirty(l, x)
  }

  /** A store to a line that is not yet dirty here creates one token; a writeback carries one away;
      nothing else changes their number. */
  lemma TokenBalance(l: Level, line: Line, t: AccessType, l': Level, o: Outcome)
    requires Ok(l) && |l'.sets| > 0 && Effects(l, line, t, l', o)
    ensures |DirtyLines(l')| + One(o.wroteBack) == |DirtyLines(l)| + One(t.Write? && !IsDirty(l, line))
  {
    DirtyLinesAfter(l, line, t, l', o);
    CarriedWasDirty(l, line, t, l', o);
    hide DirtyLines, Effects, IsDirty, Ok;
    var d := if o.wroteBack then DirtyLines(l) - {o.wbLine} else DirtyLines(l);
    assert |d| + One(o.wroteBack) == |DirtyLines(l)|;
    assert line in d <==> line in DirtyLines(l);
    if t.Write? { Insert(d, line); }
  }

  lemma Insert<T>(s: set<T>, x: T)
    ensures |s + {x}| == |s| + if x in s then 0 else 1
  {
    if x in s { assert s + {x} == s; }
  }

  lemma CarriedWasDirty(l: Level, line: Line, t: AccessType, l': Level, o: Outcome)
    requires Ok(l) && |l'.sets| > 0 && Effects(l, line, t, l', o)
    ensures o.wroteBack ==> o.wbLine in DirtyLines(l) && o.wbLine != line
    ensures line in DirtyLines(l) <==> IsDirty(l, line)
  {
  }

  lemma DirtyLinesAfter(l: Level, line: Line, t: AccessType, l': Level, o: Outcome)
    requires Ok(l) && |l'.sets| > 0 && Effects(l, line, t, l', o)
    ensures var d := if o.wroteBack then DirtyLines(l) - {o.wbLine} else DirtyLines(l);
      DirtyLines(l') == if t.Write? then d + {line} else d
  {
    CarriedWasDirty(l, line, t, l', o);
    hide IsDirty, Effects, Ok;
    forall x: Line
      ensures IsDirty(l', x) <==>
        if x == line then t.Write? || IsDirty(l, x) else IsDirty(l, x) && !(o.wroteBack && x == o.wbLine)
    {
      DirtyAfter(l, line, t, l', o, x);
    }
  }

  lemma DirtyAfter(l: Level, line: Line, t: AccessType, l': Level, o: Outcome, x: Line)
    requires Ok(l) && |l'.sets| > 0 && Effects(l, line, t, l', o)
    ensures IsDirty(l', x) <==>
      if x == line then t.Write? || IsDirty(l, x) else IsDirty(l, x) && !(o.wroteBack && x == o.wbLine)
  {
  }
}
