/** One set-associative level as the profiler stores it: flat arrays of tags, stamps, valid and
    dirty flags, and a running clock. Every access refines `CacheSpec.Access`. */
module CacheModel {
  import opened CacheSpec
  import Bits
  import Counting
  import opened Flat

  /** The ways of one set. */
  datatype Ways = Ways(tag: seq<nat>, stamp: seq<nat>, valid: seq<bool>, dirty: seq<bool>)

  /** `order` lists the valid ways from the most to the least recently stamped. */
  ghost predicate Ranked(w: Ways, order: seq<nat>, assoc: nat, clock: nat, sets: nat, s: nat) {
    && |w.tag| == |w.stamp| == |w.valid| == |w.dirty| == assoc
    && |order| <= assoc
    && (forall i :: 0 <= i < |order| ==> order[i] < assoc)
    && (forall i, j :: 0 <= i < j < |order| ==> w.stamp[order[i]] > w.stamp[order[j]])
    && (forall i :: 0 <= i < |order| ==> w.stamp[order[i]] < clock)
    && (forall k :: 0 <= k < assoc ==> (w.valid[k] <==> k in order))
    && (forall k :: 0 <= k < assoc && w.dirty[k] ==> w.valid[k])
    && (forall i :: 0 <= i < |order| ==> w.tag[order[i]] * sets + s < LINE_LIMIT)
    && (forall i, j :: 0 <= i < j < |order| ==> w.tag[order[i]] != w.tag[order[j]])
  }

  ghost function LineAt(w: Ways, k: nat, sets: nat, s: nat): Line
    requires k < |w.tag| && w.tag[k] * sets + s < LINE_LIMIT
  {
    w.tag[k] * sets + s
  }

  ghost function ListOf(w: Ways, order: seq<nat>, assoc: nat, clock: nat, sets: nat, s: nat): (es: seq<Entry>)
    requires Ranked(w, order, assoc, clock, sets, s)
    ensures |es| == |order|
    ensures forall i :: 0 <= i < |es| ==> es[i] == Entry(LineAt(w, order[i], sets, s), w.dirty[order[i]])
  {
    seq(|order|, i requires 0 <= i < |order| => Entry(LineAt(w, order[i], sets, s), w.dirty[order[i]]))
  }

  function TagOf(line: nat, sets: nat): nat
    requires sets > 0
  {
    line / sets
  }

  lemma SplitLine(line: nat, sets: nat)
    requires sets > 0
    ensures TagOf(line, sets) * sets + line % sets == line
  {
  }

  lemma JoinUnique(t: nat, t': nat, sets: nat, s: nat)
    requires s < sets && t * sets + s == t' * sets + s
    ensures t == t'
  {
    Bits.ModuloUnique(t * sets + s, sets, t, s);
    Bits.ModuloUnique(t' * sets + s, sets, t', s);
  }

  lemma ProbeFinds(w: Ways, order: seq<nat>, assoc: nat, clock: nat, sets: nat, s: nat, line: Line, p: nat)
    requires Ranked(w, order, assoc, clock, sets, s) && sets > 0 && line % sets == s
    requires p < |order| && w.tag[order[p]] == TagOf(line, sets)
    ensures IndexOf(ListOf(w, order, assoc, clock, sets, s), line) == p
  {
    SplitLine(line, sets);
    var es := ListOf(w, order, assoc, clock, sets, s);
    forall i | 0 <= i < p ensures es[i].line != line {
      if es[i].line == line {
        JoinUnique(w.tag[order[i]], TagOf(line, sets), sets, s);
        assert false;
      }
    }
  }

  lemma ProbeMisses(w: Ways, order: seq<nat>, assoc: nat, clock: nat, sets: nat, s: nat, line: Line)
    requires Ranked(w, order, assoc, clock, sets, s) && sets > 0 && line % sets == s
    requires forall k :: 0 <= k < assoc && w.valid[k] ==> w.tag[k] != TagOf(line, sets)
    ensures IndexOf(ListOf(w, order, assoc, clock, sets, s), line) == |order|
  {
    SplitLine(line, sets);
    var es := ListOf(w, order, assoc, clock, sets, s);
    var i := IndexOf(es, line);
    if i < |es| {
      assert w.valid[order[i]];
      JoinUnique(w.tag[order[i]], TagOf(line, sets), sets, s);
      assert false;
    }
  }

  // ---------- one set, before and after ----------

  lemma HitStep(w: Ways, order: seq<nat>, assoc: nat, clock: nat, sets: nat, s: nat,
                line: Line, t: AccessType, p: nat, w': Ways, order': seq<nat>)
    requires Ranked(w, order, assoc, clock, sets, s) && sets > 0 && line % sets == s && assoc > 0
    requires p < |order| && w.tag[order[p]] == TagOf(line, sets)
    requires var k := order[p];
      w' == w.(stamp := w.stamp[k := clock], dirty := if t.Write? then w.dirty[k := true] else w.dirty)
    requires order' == [order[p]] + order[..p] + order[p + 1..]
    ensures Ranked(w', order', assoc, clock + 1, sets, s)
    ensures SetAccess(ListOf(w, order, assoc, clock, sets, s), assoc, line, t)
      == (ListOf(w', order', assoc, clock + 1, sets, s), Outcome(true, false, 0))
  {
    Moved(order, p, order');
    SplitLine(line, sets);
    ProbeFinds(w, order, assoc, clock, sets, s, line, p);
    HitRanked(w, order, assoc, clock, sets, s, t, p, w', order');
    var es, es' := ListOf(w, order, assoc, clock, sets, s), ListOf(w', order', assoc, clock + 1, sets, s);
    HitEntries(w, order, assoc, clock, sets, s, line, t, p, w', order');
    HitList(es, assoc, line, t, p, es');
  }

  lemma HitEntries(w: Ways, order: seq<nat>, assoc: nat, clock: nat, sets: nat, s: nat,
                   line: Line, t: AccessType, p: nat, w': Ways, order': seq<nat>)
    requires Ranked(w, order, assoc, clock, sets, s) && Ranked(w', order', assoc, clock + 1, sets, s)
    requires p < |order| == |order'| && w.tag[order[p]] * sets + s == line
    requires var k := order[p];
      w' == w.(stamp := w.stamp[k := clock], dirty := if t.Write? then w.dirty[k := true] else w.dirty)
    requires forall i :: 0 <= i < |order| ==> order'[i] == order[Source(i, p)]
    ensures var es, es' := ListOf(w, order, assoc, clock, sets, s), ListOf(w', order', assoc, clock + 1, sets, s);
      && es'[0] == Entry(line, es[p].dirty || t.Write?)
      && forall i :: 0 < i < |es| ==> es'[i] == es[Source(i, p)]
  {
    forall i | 0 < i < |order|
      ensures ListOf(w', order', assoc, clock + 1, sets, s)[i] == ListOf(w, order, assoc, clock, sets, s)[Source(i, p)]
    {
      assert order'[i] != order[p];
    }
  }

  lemma HitList(es: seq<Entry>, assoc: nat, line: Line, t: AccessType, p: nat, es': seq<Entry>)
    requires 1 <= assoc && |es| <= assoc && |es'| == |es| && p < |es| && IndexOf(es, line) == p
    requires es'[0] == Entry(line, es[p].dirty || t.Write?)
    requires forall i :: 0 < i < |es| ==> es'[i] == es[Source(i, p)]
    ensures SetAccess(es, assoc, line, t) == (es', Outcome(true, false, 0))
  {
    assert es' == [Entry(line, es[p].dirty || t.Write?)] + es[..p] + es[p + 1..];
  }

  /** Where an element of the reordered list came from. */
  function Source(i: nat, p: nat): nat {
    if i == 0 then p else if i <= p then i - 1 else i
  }

  lemma Moved(order: seq<nat>, p: nat, order': seq<nat>)
    requires p < |order| && order' == [order[p]] + order[..p] + order[p + 1..]
    ensures |order'| == |order|
    ensures forall i :: 0 <= i < |order| ==> order'[i] == order[Source(i, p)]
    ensures forall k :: k in order' <==> k in order
  {
    assert order == order[..p] + [order[p]] + order[p + 1..];
  }

  lemma HitRanked(w: Ways, order: seq<nat>, assoc: nat, clock: nat, sets: nat, s: nat,
                  t: AccessType, p: nat, w': Ways, order': seq<nat>)
    requires Ranked(w, order, assoc, clock, sets, s) && p < |order| == |order'|
    requires var k := order[p];
      w' == w.(stamp := w.stamp[k := clock], dirty := if t.Write? then w.dirty[k := true] else w.dirty)
    requires forall i :: 0 <= i < |order| ==> order'[i] == order[Source(i, p)]
    requires forall k :: k in order' <==> k in order
    ensures Ranked(w', order', assoc, clock + 1, sets, s)
  {
    var k := order[p];
    assert k in order;
    HitOrder(w, order, clock, p, w', order');
  }

  lemma HitOrder(w: Ways, order: seq<nat>, clock: nat, p: nat, w': Ways, order': seq<nat>)
    requires p < |order| == |order'| && |w.tag| == |w.stamp|
    requires forall i :: 0 <= i < |order| ==> order[i] < |w.stamp| && w.stamp[order[i]] < clock
    requires forall i, j :: 0 <= i < j < |order| ==> w.stamp[order[i]] > w.stamp[order[j]]
    requires forall i, j :: 0 <= i < j < |order| ==> w.tag[order[i]] != w.tag[order[j]]
    requires w'.stamp == w.stamp[order[p] := clock] && w'.tag == w.tag
    requires forall i :: 0 <= i < |order| ==> order'[i] == order[Source(i, p)]
    ensures forall i :: 0 <= i < |order| ==> order'[i] < |w.stamp|
    ensures forall i, j :: 0 <= i < j < |order| ==> w'.stamp[order'[i]] > w'.stamp[order'[j]]
    ensures forall i :: 0 <= i < |order| ==> w'.stamp[order'[i]] <= clock
    ensures forall i, j :: 0 <= i < j < |order| ==> w'.tag[order'[i]] != w'.tag[order'[j]]
  {
    forall i | 0 < i < |order|
      ensures order'[i] != order[p] && w'.stamp[order'[i]] == w.stamp[order[Source(i, p)]] < clock
    {
    }
    forall i, j | 0 <= i < j < |order|
      ensures w'.stamp[order'[i]] > w'.stamp[order'[j]] && w'.tag[order'[i]] != w'.tag[order'[j]]
    {
      if i > 0 { assert Source(i, p) < Source(j, p); }
    }
  }

  lemma FillStep(w: Ways, order: seq<nat>, assoc: nat, clock: nat, sets: nat, s: nat,
                 line: Line, t: AccessType, k: nat, w': Ways, order': seq<nat>)
    requires Ranked(w, order, assoc, clock, sets, s) && sets > 0 && line % sets == s && k < assoc
    requires forall k :: 0 <= k < assoc && w.valid[k] ==> w.tag[k] != TagOf(line, sets)
    requires w' == Ways(w.tag[k := TagOf(line, sets)], w.stamp[k := clock], w.valid[k := true], w.dirty[k := t.Write?])
    requires |order| < assoc ==> !w.valid[k] && order' == [k] + order
    requires |order| == assoc ==> k == order[|order| - 1] && order' == [k] + order[..|order| - 1]
    ensures Ranked(w', order', assoc, clock + 1, sets, s)
    ensures SetAccess(ListOf(w, order, assoc, clock, sets, s), assoc, line, t)
      == (ListOf(w', order', assoc, clock + 1, sets, s),
          if |order| == assoc && w.dirty[k] then Outcome(false, true, LineAt(w, k, sets, s))
          else Outcome(false, false, 0))
  {
    hide ListOf, SetAccess, TagOf, LineAt;
    var rest := if |order| == assoc then order[..|order| - 1] else order;
    FillRest(w, order, assoc, clock, sets, s, k, rest);
    FillStepRanked(w, order, assoc, clock, sets, s, line, t, k, w', order', rest);
    FillEntries(w, order, assoc, clock, sets, s, line, t, k, w', order', rest);
    ProbeMisses(w, order, assoc, clock, sets, s, line);
    FillList(ListOf(w, order, assoc, clock, sets, s), assoc, line, t, ListOf(w', order', assoc, clock + 1, sets, s));
  }

  lemma FillStepRanked(w: Ways, order: seq<nat>, assoc: nat, clock: nat, sets: nat, s: nat,
                       line: Line, t: AccessType, k: nat, w': Ways, order': seq<nat>, rest: seq<nat>)
    requires Ranked(w, order, assoc, clock, sets, s) && sets > 0 && line % sets == s && k < assoc
    requires forall j :: 0 <= j < assoc && w.valid[j] ==> w.tag[j] != TagOf(line, sets)
    requires w' == Ways(w.tag[k := TagOf(line, sets)], w.stamp[k := clock], w.valid[k := true], w.dirty[k := t.Write?])
    requires order' == [k] + rest && |rest| < assoc && (order == rest || order == rest + [k])
    requires forall i :: 0 <= i < |rest| ==> rest[i] == order[i] && rest[i] != k && w.valid[rest[i]]
    ensures Ranked(w', order', assoc, clock + 1, sets, s)
  {
    FillValid(order, k, rest, w, w', assoc, order');
    FillRanked(w, order, assoc, clock, sets, s, line, t, k, w', order', rest);
  }

  lemma FillRest(w: Ways, order: seq<nat>, assoc: nat, clock: nat, sets: nat, s: nat, k: nat, rest: seq<nat>)
    requires Ranked(w, order, assoc, clock, sets, s) && k < assoc
    requires |order| < assoc ==> !w.valid[k] && rest == order
    requires |order| == assoc ==> k == order[|order| - 1] && rest == order[..|order| - 1]
    ensures |rest| < assoc && (order == rest || order == rest + [k])
    ensures forall i :: 0 <= i < |rest| ==> rest[i] == order[i] && rest[i] != k && w.valid[rest[i]]
  {
    assert forall i :: 0 <= i < |order| ==> order[i] in order;
  }

  lemma FillEntries(w: Ways, order: seq<nat>, assoc: nat, clock: nat, sets: nat, s: nat,
                    line: Line, t: AccessType, k: nat, w': Ways, order': seq<nat>, rest: seq<nat>)
    requires Ranked(w, order, assoc, clock, sets, s) && Ranked(w', order', assoc, clock + 1, sets, s)
    requires sets > 0 && line % sets == s && k < assoc
    requires w' == Ways(w.tag[k := TagOf(line, sets)], w.stamp[k := clock], w.valid[k := true], w.dirty[k := t.Write?])
    requires order' == [k] + rest && |rest| <= |order|
    requires forall i :: 0 <= i < |rest| ==> rest[i] == order[i] && rest[i] != k
    ensures var es, es' := ListOf(w, order, assoc, clock, sets, s), ListOf(w', order', assoc, clock + 1, sets, s);
      && es'[0] == Entry(line, t.Write?)
      && forall i :: 0 < i < |es'| ==> es'[i] == es[i - 1]
  {
    SplitLine(line, sets);
    var es' := ListOf(w', order', assoc, clock + 1, sets, s);
    forall i | 0 < i < |es'| ensures es'[i] == ListOf(w, order, assoc, clock, sets, s)[i - 1] {
      assert order'[i] == rest[i - 1];
    }
  }

  lemma FillRanked(w: Ways, order: seq<nat>, assoc: nat, clock: nat, sets: nat, s: nat,
                   line: Line, t: AccessType, k: nat, w': Ways, order': seq<nat>, rest: seq<nat>)
    requires Ranked(w, order, assoc, clock, sets, s) && sets > 0 && line % sets == s && k < assoc
    requires forall j :: 0 <= j < assoc && w.valid[j] ==> w.tag[j] != TagOf(line, sets)
    requires w' == Ways(w.tag[k := TagOf(line, sets)], w.stamp[k := clock], w.valid[k := true], w.dirty[k := t.Write?])
    requires order' == [k] + rest && |rest| < assoc && |rest| <= |order|
    requires forall i :: 0 <= i < |rest| ==> rest[i] == order[i] && rest[i] != k && w.valid[rest[i]]
    requires forall j :: 0 <= j < assoc ==> (w'.valid[j] <==> j in order')
    ensures Ranked(w', order', assoc, clock + 1, sets, s)
  {
    SplitLine(line, sets);
    assert forall i :: 0 < i < |order'| ==> order'[i] == rest[i - 1] == order[i - 1];
  }

  lemma FillList(es: seq<Entry>, assoc: nat, line: Line, t: AccessType, es': seq<Entry>)
    requires 1 <= assoc && |es| <= assoc && IndexOf(es, line) == |es|
    requires |es'| == if |es| == assoc then assoc else |es| + 1
    requires es'[0] == Entry(line, t.Write?)
    requires forall i :: 0 < i < |es'| ==> es'[i] == es[i - 1]
    ensures SetAccess(es, assoc, line, t).0 == es'
    ensures SetAccess(es, assoc, line, t).1
      == if |es| == assoc && es[|es| - 1].dirty then Outcome(false, true, es[|es| - 1].line)
         else Outcome(false, false, 0)
  {
    assert es' == [Entry(line, t.Write?)] + if |es| == assoc then es[..|es| - 1] else es;
  }

  lemma FillValid(order: seq<nat>, k: nat, rest: seq<nat>, w: Ways, w': Ways, assoc: nat, order': seq<nat>)
    requires |w.valid| == assoc && k < assoc && w'.valid == w.valid[k := true]
    requires forall j :: 0 <= j < assoc ==> (w.valid[j] <==> j in order)
    requires order' == [k] + rest && (order == rest || order == rest + [k])
    ensures forall j :: 0 <= j < assoc ==> (w'.valid[j] <==> j in order')
  {
  }

  ghost function PositionOf(order: seq<nat>, k: nat): (p: nat)
    requires k in order
    ensures p < |order| && order[p] == k
  {
    if order[0] == k then 0 else 1 + PositionOf(order[1..], k)
  }

  lemma FreeWay(w: Ways, order: seq<nat>, assoc: nat, clock: nat, sets: nat, s: nat, k: nat)
    requires Ranked(w, order, assoc, clock, sets, s) && k < assoc && !w.valid[k]
    ensures |order| < assoc
  {
    Counting.DistinctBelow(order, assoc);
  }

  lemma StampBelow(w: Ways, order: seq<nat>, assoc: nat, clock: nat, sets: nat, s: nat, k: nat)
    requires Ranked(w, order, assoc, clock, sets, s) && k < assoc && w.valid[k]
    ensures w.stamp[k] < clock
  {
    var i :| 0 <= i < |order| && order[i] == k;
  }

  lemma OldestIsLast(w: Ways, order: seq<nat>, assoc: nat, clock: nat, sets: nat, s: nat, k: nat)
    requires Ranked(w, order, assoc, clock, sets, s) && k < assoc
    requires forall j :: 0 <= j < assoc ==> w.valid[j] && w.stamp[k] <= w.stamp[j]
    ensures |order| == assoc && k == order[|order| - 1]
  {
    Counting.DistinctBelow(order, assoc);
    var i :| 0 <= i < |order| && order[i] == k;
    assert w.stamp[k] <= w.stamp[order[|order| - 1]];
  }

  // ---------- a whole level as stored, as a value ----------

  datatype Store = Store(sets: nat, assoc: nat, tag: seq<nat>, stamp: seq<nat>, valid: seq<bool>, dirty: seq<bool>,
                         clock: nat, ghost order: seq<seq<nat>>)

  ghost predicate Shaped(m: Store) {
    && m.sets > 0 && m.assoc > 0 && |m.order| == m.sets
    && |m.tag| == |m.stamp| == |m.valid| == |m.dirty| == Base(m.sets, m.assoc)
  }

  ghost function WaysAt(m: Store, s: nat): (w: Ways)
    requires Shaped(m) && s < m.sets
    ensures |w.tag| == |w.stamp| == |w.valid| == |w.dirty| == m.assoc
  {
    Ways(Slice(m.tag, s, m.sets, m.assoc), Slice(m.stamp, s, m.sets, m.assoc),
         Slice(m.valid, s, m.sets, m.assoc), Slice(m.dirty, s, m.sets, m.assoc))
  }

  ghost predicate SetRanked(m: Store, s: nat)
    requires Shaped(m) && s < m.sets
  {
    Ranked(WaysAt(m, s), m.order[s], m.assoc, m.clock, m.sets, s)
  }

  ghost predicate StoreOk(m: Store) {
    Shaped(m) && forall s :: 0 <= s < m.sets ==> SetRanked(m, s)
  }

  ghost function ListAt(m: Store, s: nat): (es: seq<Entry>)
    requires Shaped(m) && s < m.sets && SetRanked(m, s)
    ensures SetOk(es, m.assoc, m.sets, s)
  {
    ListIsOk(WaysAt(m, s), m.order[s], m.assoc, m.clock, m.sets, s);
    ListOf(WaysAt(m, s), m.order[s], m.assoc, m.clock, m.sets, s)
  }

  /** The level as move-to-front lists of full line numbers. */
  ghost function ViewOf(m: Store): (l: Level)
    requires StoreOk(m)
    ensures Ok(l) && l.assoc == m.assoc && |l.sets| == m.sets
    ensures forall s :: 0 <= s < m.sets ==> l.sets[s] == ListAt(m, s)
  {
    Level(m.assoc, seq(m.sets, s requires 0 <= s < m.sets => ListAt(m, s)))
  }

  /** The level a stored state stands for, if it is consistent. */
  ghost function Meaning(m: Store): (l: Option<Level>)
    ensures l.Some? <==> StoreOk(m)
    ensures l.Some? ==> l.value == ViewOf(m) && Ok(l.value)
  {
    if StoreOk(m) then Some(ViewOf(m)) else None
  }

  /** Rewriting one set at the next clock tick is rewriting one list of the view. */
  lemma OneSet(m: Store, m': Store, s: nat)
    requires StoreOk(m) && Shaped(m') && s < m.sets == m'.sets && m'.assoc == m.assoc && m'.clock == m.clock + 1
    requires forall s' :: 0 <= s' < m.sets && s' != s ==> WaysAt(m', s') == WaysAt(m, s') && m'.order[s'] == m.order[s']
    requires SetRanked(m', s)
    ensures StoreOk(m')
    ensures ViewOf(m') == ViewOf(m).(sets := ViewOf(m).sets[s := ListAt(m', s)])
  {
    forall s' | 0 <= s' < m.sets && s' != s ensures SetRanked(m', s') && ListAt(m', s') == ListAt(m, s') {
      assert SetRanked(m, s');
    }
    assert ViewOf(m').sets == ViewOf(m).sets[s := ListAt(m', s)];
  }

  /** The stored level after way w of set s is stamped, and after it is refilled. */
  ghost function Stamped(m: Store, s: nat, w: nat, t: AccessType): Store
    requires Shaped(m) && s < m.sets && w < m.assoc && w in m.order[s]
  {
    BaseBound(s, m.sets, m.assoc);
    var i, o, p := Base(s, m.assoc) + w, m.order[s], PositionOf(m.order[s], w);
    m.(stamp := m.stamp[i := m.clock], dirty := if t.Write? then m.dirty[i := true] else m.dirty,
       clock := m.clock + 1, order := m.order[s := [w] + o[..p] + o[p + 1..]])
  }

  ghost function Filled(m: Store, s: nat, w: nat, tg: nat, t: AccessType): Store
    requires Shaped(m) && s < m.sets && w < m.assoc
  {
    BaseBound(s, m.sets, m.assoc);
    var i, o := Base(s, m.assoc) + w, m.order[s];
    m.(tag := m.tag[i := tg], stamp := m.stamp[i := m.clock], valid := m.valid[i := true],
       dirty := m.dirty[i := t.Write?], clock := m.clock + 1,
       order := m.order[s := [w] + if |o| == m.assoc && |o| > 0 then o[..|o| - 1] else o])
  }

  lemma HitStore(m: Store, s: nat, w: nat, line: Line, t: AccessType)
    requires StoreOk(m) && s < m.sets && line % m.sets == s && w < m.assoc && w in m.order[s]
    requires WaysAt(m, s).tag[w] == TagOf(line, m.sets)
    ensures var (l, o) := Access(ViewOf(m), line, t);
      Meaning(Stamped(m, s, w, t)) == Some(l) && o == Outcome(true, false, 0)
  {
    assert SetRanked(m, s);
    var m' := Stamped(m, s, w, t);
    StampedWays(m, s, w, t);
    HitStep(WaysAt(m, s), m.order[s], m.assoc, m.clock, m.sets, s, line, t, PositionOf(m.order[s], w),
            WaysAt(m', s), m'.order[s]);
    OneSet(m, m', s);
  }

  lemma StampedWays(m: Store, s: nat, w: nat, t: AccessType)
    requires Shaped(m) && s < m.sets && w < m.assoc && w in m.order[s]
    ensures var m', ws := Stamped(m, s, w, t), WaysAt(m, s);
      && Shaped(m')
      && WaysAt(m', s)
           == ws.(stamp := ws.stamp[w := m.clock], dirty := if t.Write? then ws.dirty[w := true] else ws.dirty)
      && (forall s' :: 0 <= s' < m.sets && s' != s ==> WaysAt(m', s') == WaysAt(m, s'))
  {
    var m' := Stamped(m, s, w, t);
    BaseBound(s, m.sets, m.assoc);
    assert |m'.stamp| == |m.stamp| && |m'.dirty| == |m.dirty|;
    SliceUpdate(m.stamp, m'.stamp, s, m.sets, m.assoc, w);
    SliceUpdate(m.dirty, m'.dirty, s, m.sets, m.assoc, w);
  }

  /** Way w of set s lies at Base(s) + w. */
  lemma WayAt(m: Store, s: nat, w: nat)
    requires Shaped(m) && s < m.sets && w < m.assoc
    ensures Base(s, m.assoc) + w < |m.tag|
    ensures var ws, i := WaysAt(m, s), Base(s, m.assoc) + w;
      && ws.tag[w] == m.tag[i] && ws.stamp[w] == m.stamp[i] && ws.valid[w] == m.valid[i] && ws.dirty[w] == m.dirty[i]
  {
    BaseBound(s, m.sets, m.assoc);
  }

  /** A set with an invalid way is not full. */
  lemma FreeInSet(m: Store, s: nat, k: nat)
    requires StoreOk(m) && s < m.sets && k < m.assoc && !WaysAt(m, s).valid[k]
    ensures |m.order[s]| < m.assoc
  {
    hide WaysAt;
    assert SetRanked(m, s);
    FreeWay(WaysAt(m, s), m.order[s], m.assoc, m.clock, m.sets, s, k);
  }

  lemma ValidIsOrdered(m: Store, s: nat, k: nat)
    requires StoreOk(m) && s < m.sets && k < m.assoc && WaysAt(m, s).valid[k]
    ensures k in m.order[s]
  {
    assert SetRanked(m, s);
  }

  lemma LastHasLine(m: Store, s: nat)
    requires StoreOk(m) && s < m.sets && |m.order[s]| == m.assoc
    ensures m.order[s][m.assoc - 1] < m.assoc
    ensures WaysAt(m, s).tag[m.order[s][m.assoc - 1]] * m.sets + s < LINE_LIMIT
  {
    assert SetRanked(m, s);
  }

  ghost predicate Full(m: Store, s: nat)
    requires Shaped(m) && s < m.sets
  {
    forall k :: 0 <= k < m.assoc ==> WaysAt(m, s).valid[k]
  }

  lemma StampsBelow(m: Store, s: nat, k: nat)
    requires StoreOk(m) && s < m.sets && Full(m, s) && k < m.assoc
    ensures WaysAt(m, s).stamp[k] < m.clock
  {
    hide WaysAt;
    assert SetRanked(m, s);
    StampBelow(WaysAt(m, s), m.order[s], m.assoc, m.clock, m.sets, s, k);
  }

  /** The way with the least stamp of a full set is the last in order. */
  lemma LeastIsLast(m: Store, s: nat, v: nat)
    requires StoreOk(m) && s < m.sets && Full(m, s) && v < m.assoc
    requires forall k :: 0 <= k < m.assoc ==> WaysAt(m, s).stamp[v] <= WaysAt(m, s).stamp[k]
    ensures |m.order[s]| == m.assoc && v == m.order[s][m.assoc - 1]
  {
    hide WaysAt;
    assert SetRanked(m, s);
    OldestIsLast(WaysAt(m, s), m.order[s], m.assoc, m.clock, m.sets, s, v);
  }

  /** No valid way of set s holds the tag. */
  ghost predicate Absent(m: Store, s: nat, tg: nat)
    requires Shaped(m) && s < m.sets
  {
    var ws := WaysAt(m, s);
    forall k :: 0 <= k < m.assoc && ws.valid[k] ==> ws.tag[k] != tg
  }

  lemma FillStore(m: Store, s: nat, w: nat, line: Line, t: AccessType)
    requires StoreOk(m) && s < m.sets && line % m.sets == s && w < m.assoc
    requires Absent(m, s, TagOf(line, m.sets))
    requires if |m.order[s]| == m.assoc then w == m.order[s][m.assoc - 1] else !WaysAt(m, s).valid[w]
    ensures var (l, o) := Access(ViewOf(m), line, t);
      Meaning(Filled(m, s, w, TagOf(line, m.sets), t)) == Some(l) && IsEviction(m, s, w, o)
  {
    assert SetRanked(m, s);
    var m' := Filled(m, s, w, TagOf(line, m.sets), t);
    FilledWays(m, s, w, TagOf(line, m.sets), t);
    FillStep(WaysAt(m, s), m.order[s], m.assoc, m.clock, m.sets, s, line, t, w, WaysAt(m', s), m'.order[s]);
    OneSet(m, m', s);
  }

  lemma FilledWays(m: Store, s: nat, w: nat, tg: nat, t: AccessType)
    requires Shaped(m) && s < m.sets && w < m.assoc
    ensures var m', ws := Filled(m, s, w, tg, t), WaysAt(m, s);
      && Shaped(m')
      && WaysAt(m', s) == Ways(ws.tag[w := tg], ws.stamp[w := m.clock], ws.valid[w := true], ws.dirty[w := t.Write?])
      && (forall s' :: 0 <= s' < m.sets && s' != s ==> WaysAt(m', s') == WaysAt(m, s'))
  {
    var m' := Filled(m, s, w, tg, t);
    BaseBound(s, m.sets, m.assoc);
    assert |m'.tag| == |m'.stamp| == |m'.valid| == |m'.dirty| == |m.tag|;
    SliceUpdate(m.tag, m'.tag, s, m.sets, m.assoc, w);
    SliceUpdate(m.stamp, m'.stamp, s, m.sets, m.assoc, w);
    SliceUpdate(m.valid, m'.valid, s, m.sets, m.assoc, w);
    SliceUpdate(m.dirty, m'.dirty, s, m.sets, m.assoc, w);
  }

  /** What filling way w of set s hands down: the line of a dirty victim, under its full number. */
  ghost predicate IsEviction(m: Store, s: nat, w: nat, o: Outcome)
    requires Shaped(m) && s < m.sets && w < m.assoc
  {
    && !o.hit
    && o.wroteBack == (|m.order[s]| == m.assoc && WaysAt(m, s).dirty[w])
    && o.wbLine == if o.wroteBack then WaysAt(m, s).tag[w] * m.sets + s else 0
  }

  lemma OneEviction(m: Store, s: nat, w: nat, a: Outcome, b: Outcome)
    requires Shaped(m) && s < m.sets && w < m.assoc && IsEviction(m, s, w, a) && IsEviction(m, s, w, b)
    ensures a == b
  {
  }

  lemma ColdStore(m: Store)
    requires Shaped(m) && m.clock == 1 && m.order == NoOrders(m.sets)
    requires forall i :: 0 <= i < |m.valid| ==> !m.valid[i] && !m.dirty[i]
    ensures Meaning(m) == Some(Cold(m.assoc, m.sets))
  {
    forall s | 0 <= s < m.sets ensures SetRanked(m, s) && ListAt(m, s) == [] {
      ColdRanked(WaysAt(m, s), m.assoc, m.sets, s);
    }
    assert ViewOf(m).sets == Cold(m.assoc, m.sets).sets;
  }

  /** Hits, misses and writebacks after one more outcome. */
  function Tallied(c: (nat, nat, nat), out: Outcome): (nat, nat, nat) {
    (c.0 + if out.hit then 1 else 0, c.1 + if out.hit then 0 else 1, c.2 + if out.wroteBack then 1 else 0)
  }

  class CacheLevel {
    var numSets: nat
    var assoc: nat
    var lineShift: nat
    var setBits: nat
    var setMask: nat
    var clock: nat
    var tag: array<nat>
    var stamp: array<nat>
    var valid: array<bool>
    var dirty: array<bool>
    var hits: nat
    var misses: nat
    var writebacks: nat
    ghost var order: seq<seq<nat>>

    ghost function Repr(): set<object>
      reads `tag, `stamp, `valid, `dirty
    {
      {this, tag, stamp, valid, dirty}
    }

    ghost function Stored(): Store
      reads `numSets, `assoc, `tag, `stamp, `valid, `dirty, `clock, `order, tag, stamp, valid, dirty
    {
      Store(numSets, assoc, tag[..], stamp[..], valid[..], dirty[..], clock, order)
    }

    ghost predicate Valid()
      reads `numSets, `assoc, `setBits, `setMask, `tag, `stamp, `valid, `dirty, `clock, `order, tag, stamp, valid, dirty
    {
      && numSets == Bits.Pow2(setBits) && setMask == numSets - 1
      && tag != stamp && valid != dirty
      && Meaning(Stored()).Some?
    }

    ghost function View(): (l: Level)
      requires Valid()
      reads `numSets, `assoc, `setBits, `setMask, `tag, `stamp, `valid, `dirty, `clock, `order, tag, stamp, valid, dirty
      ensures Ok(l) && l.assoc == assoc && |l.sets| == numSets
    {
      Meaning(Stored()).value
    }

    constructor ()
      ensures numSets == 0 && fresh(Repr())
    {
      numSets, assoc, lineShift, setBits, setMask, clock := 0, 0, 6, 0, 0, 0;
      tag, stamp := new nat[0], new nat[0];
      valid, dirty := new bool[0], new bool[0];
      hits, misses, writebacks := 0, 0, 0;
      order := [];
    }

    /** Accepts exactly the representable geometries and then starts cold. The set count is kept in
        32 bits: a larger one is accepted all the same but leaves the level disabled. A rejected
        geometry leaves the level as it was, except that associativity and line shift are already
        replaced if only the number of sets was at fault. */
    method Init(sizeBytes: nat, ways: nat, lineBytes: nat) returns (ok: bool)
      modifies this
      ensures !ok ==> unchanged(`numSets, `setBits, `setMask, `clock, `order, `tag, `stamp, `valid, `dirty)
      ensures !ok ==> unchanged(`hits, `misses, `writebacks)
      ensures !ok && !Divides(sizeBytes, ways, lineBytes) ==> unchanged(`assoc, `lineShift)
      ensures !ok && Divides(sizeBytes, ways, lineBytes) ==> assoc == ways && lineBytes == Bits.Pow2(lineShift)
      ensures ok <==> Representable(sizeBytes, ways, lineBytes)
      ensures ok ==> fresh(Repr() - {this}) && hits == misses == writebacks == 0
      ensures ok ==> var sets := SetsOf(sizeBytes, lineBytes * ways);
        if sets < 0x1_0000_0000 then Valid() && View() == Cold(ways, sets) && lineBytes == Bits.Pow2(lineShift)
        else numSets == 0
    {
      hide Valid, View, Bits.Pow2, Bits.IsPow2, Cold;
      var divides, sets, bits, mask, shift;
      divides, ok, sets, bits, mask, shift := Geometry(sizeBytes, ways, lineBytes);
      if divides { assoc, lineShift := ways, shift; }
      if !ok { return; }
      var cells := sets * ways;
      assert cells == Base(sets, ways) by { BaseIsProduct(sets, ways); }
      var t, p, v, d := EmptyWays(cells);
      hits, misses, writebacks := 0, 0, 0;
      Install(sets, ways, bits, mask, t, p, v, d);
    }

    method Install(sets: nat, ways: nat, bits: nat, mask: nat,
                   t: array<nat>, p: array<nat>, v: array<bool>, d: array<bool>)
      requires t.Length == p.Length == v.Length == d.Length == Base(sets, ways) && t != p && v != d
      requires sets > 0 ==> ways > 0 && sets == Bits.Pow2(bits) && mask == sets - 1
      requires forall i :: 0 <= i < v.Length ==> !v[i] && !d[i]
      modifies `numSets, `assoc, `setBits, `setMask, `tag, `stamp, `valid, `dirty, `clock, `order
      ensures numSets == sets && tag == t && stamp == p && valid == v && dirty == d
      ensures sets > 0 ==> Valid() && View() == Cold(ways, sets)
    {
      hide Meaning, Cold, NoOrders, Base, Bits.Pow2;
      numSets, assoc, setBits, setMask := sets, ways, bits, mask;
      tag, stamp, valid, dirty := t, p, v, d;
      clock, order := 1, NoOrders(sets);
      if sets > 0 { ColdStore(Stored()); }
    }

    /** Access one cache line. The new state and the outcome are those of the move-to-front list. */
    method Access(lineAddr: Line, t: AccessType) returns (out: Outcome)
      requires Valid()
      modifies `clock, `hits, `misses, `writebacks, `order, tag, stamp, valid, dirty
      ensures Valid() && (View(), out) == CacheSpec.Access(old(View()), lineAddr, t)
      ensures (hits, misses, writebacks) == Tallied(old((hits, misses, writebacks)), out)
    {
      hide Valid, View;
      out := Lookup(lineAddr, t);
      Tally(out);
    }

    method Tally(out: Outcome)
      modifies `hits, `misses, `writebacks
      ensures (hits, misses, writebacks) == Tallied(old((hits, misses, writebacks)), out)
    {
      if out.hit { hits := hits + 1; } else { misses := misses + 1; }
      if out.wroteBack { writebacks := writebacks + 1; }
    }

    method Lookup(lineAddr: Line, t: AccessType) returns (out: Outcome)
      requires Valid()
      modifies `clock, `order, tag, stamp, valid, dirty
      ensures Valid() && (View(), out) == CacheSpec.Access(old(View()), lineAddr, t)
    {
      hide WaysAt, SetRanked, Stamped, CacheSpec.Access, Absent, Base, TagOf;
      var s, tg, base := Indices(lineAddr);
      var found, w := Probe(s, base, tg);
      if found {
        HitStore(Stored(), s, w, lineAddr, t);
        Touch(s, base, w, t);
        out := Outcome(true, false, 0);
      } else {
        out := Replace(s, base, tg, lineAddr, t);
      }
    }

    /** Set index and tag by mask and shift, and the first way of the set. */
    method Indices(lineAddr: Line) returns (s: nat, tg: nat, base: nat)
      requires Valid()
      ensures s == lineAddr % numSets && s < numSets && tg == TagOf(lineAddr, numSets) && base == Base(s, assoc)
    {
      hide Meaning;
      s := Bits.And(lineAddr, setMask);
      tg := Bits.ShiftRight(lineAddr, setBits);
      Bits.MaskIsModulo(lineAddr, setBits);
      base := s * assoc;
      BaseIsProduct(s, assoc);
    }

    method Replace(s: nat, base: nat, tg: nat, ghost line: Line, t: AccessType) returns (out: Outcome)
      requires Valid() && s < numSets && base == Base(s, assoc)
      requires s == line % numSets && tg == TagOf(line, numSets)
      requires Absent(Stored(), s, tg)
      modifies `clock, `order, tag, stamp, valid, dirty
      ensures (Meaning(Stored()), out)
        == (Some(CacheSpec.Access(old(View()), line, t).0), CacheSpec.Access(old(View()), line, t).1)
    {
      hide WaysAt, SetRanked, Filled, CacheSpec.Access, Absent, IsEviction, Full;
      var full, victim := PickVictim(s, base);
      FillStore(Stored(), s, victim, line, t);
      out := Evicted(s, base, victim, full);
      OneEviction(Stored(), s, victim, out, CacheSpec.Access(View(), line, t).1);
      Fill(s, base, victim, tg, t);
    }

    method Probe(s: nat, base: nat, tg: nat) returns (found: bool, w: nat)
      requires Valid() && s < numSets && base == Base(s, assoc)
      ensures found ==> w < assoc && w in order[s] && WaysAt(Stored(), s).tag[w] == tg
      ensures !found ==> Absent(Stored(), s, tg)
    {
      hide WaysAt, SetRanked;
      ghost var ws := WaysAt(Stored(), s);
      found, w := false, 0;
      while w < assoc
        invariant w <= assoc
        invariant forall k :: 0 <= k < w && ws.valid[k] ==> ws.tag[k] != tg
      {
        WayAt(Stored(), s, w);
        if valid[base + w] && tag[base + w] == tg {
          ValidIsOrdered(Stored(), s, w);
          return true, w;
        }
        w := w + 1;
      }
    }

    /** The first invalid way, else the least recently stamped one. */
    method PickVictim(s: nat, base: nat) returns (full: bool, victim: nat)
      requires Valid() && s < numSets && base == Base(s, assoc)
      ensures victim < assoc && full == (|order[s]| == assoc)
      ensures if full then victim == order[s][assoc - 1] else !WaysAt(Stored(), s).valid[victim]
      ensures !full ==> forall k :: 0 <= k < victim ==> WaysAt(Stored(), s).valid[k]
    {
      hide WaysAt, SetRanked;
      var found;
      found, victim := FirstFree(s, base);
      if found {
        FreeInSet(Stored(), s, victim);
        return false, victim;
      }
      victim := Oldest(s, base);
      LeastIsLast(Stored(), s, victim);
      full := true;
    }

    method FirstFree(s: nat, base: nat) returns (found: bool, w: nat)
      requires Valid() && s < numSets && base == Base(s, assoc)
      ensures found ==> w < assoc && !WaysAt(Stored(), s).valid[w]
      ensures found ==> forall k :: 0 <= k < w ==> WaysAt(Stored(), s).valid[k]
      ensures !found ==> Full(Stored(), s)
    {
      hide WaysAt, SetRanked;
      ghost var ws := WaysAt(Stored(), s);
      found, w := false, 0;
      while w < assoc
        invariant w <= assoc
        invariant forall k :: 0 <= k < w ==> ws.valid[k]
      {
        WayAt(Stored(), s, w);
        if !valid[base + w] { return true, w; }
        w := w + 1;
      }
    }

    method Oldest(s: nat, base: nat) returns (victim: nat)
      requires Valid() && s < numSets && base == Base(s, assoc) && Full(Stored(), s)
      ensures victim < assoc
      ensures var ws := WaysAt(Stored(), s); forall k :: 0 <= k < assoc ==> ws.stamp[victim] <= ws.stamp[k]
    {
      hide WaysAt, SetRanked, Full;
      ghost var ws := WaysAt(Stored(), s);
      victim := 0;
      var w, oldest := 0, clock;
      while w < assoc
        invariant w <= assoc && victim < assoc
        invariant forall k :: 0 <= k < w ==> oldest <= ws.stamp[k]
        invariant if w == 0 then oldest == clock else oldest == ws.stamp[victim]
      {
        WayAt(Stored(), s, w);
        StampsBelow(Stored(), s, w);
        if stamp[base + w] < oldest { oldest, victim := stamp[base + w], w; }
        w := w + 1;
      }
    }

    /** A full set hands down its dirty victim under the address rebuilt from tag and set. */
    method Evicted(s: nat, base: nat, w: nat, full: bool) returns (out: Outcome)
      requires Valid() && s < numSets && base == Base(s, assoc) && w < assoc
      requires full == (|order[s]| == assoc) && (full ==> w == order[s][assoc - 1])
      ensures IsEviction(Stored(), s, w, out)
    {
      hide WaysAt, SetRanked;
      WayAt(Stored(), s, w);
      if full { LastHasLine(Stored(), s); }
      if full && dirty[base + w] {
        Bits.JoinIsSum(tag[base + w], setBits, s);
        return Outcome(false, true, Bits.Or(Bits.ShiftLeft(tag[base + w], setBits), s));
      }
      return Outcome(false, false, 0);
    }

    method Touch(s: nat, base: nat, w: nat, t: AccessType)
      requires Valid() && s < numSets && base == Base(s, assoc) && w < assoc && w in order[s]
      modifies `clock, `order, stamp, dirty
      ensures Stored() == Stamped(old(Stored()), s, w, t)
    {
      BaseBound(s, numSets, assoc);
      ghost var o, p := order[s], PositionOf(order[s], w);
      stamp[base + w] := clock;
      clock := clock + 1;
      if t.Write? { dirty[base + w] := true; }
      order := order[s := [w] + o[..p] + o[p + 1..]];
    }

    method Fill(s: nat, base: nat, w: nat, tg: nat, t: AccessType)
      requires Valid() && s < numSets && base == Base(s, assoc) && w < assoc
      modifies `clock, `order, tag, stamp, valid, dirty
      ensures Stored() == Filled(old(Stored()), s, w, tg, t)
    {
      BaseBound(s, numSets, assoc);
      ghost var o := order[s];
      tag[base + w] := tg;
      valid[base + w] := true;
      dirty[base + w] := t.Write?;
      stamp[base + w] := clock;
      clock := clock + 1;
      order := order[s := [w] + if |o| == assoc && |o| > 0 then o[..|o| - 1] else o];
    }
  }

  /** Zeroed storage for the ways of a level. */
  method EmptyWays(cells: nat) returns (t: array<nat>, p: array<nat>, v: array<bool>, d: array<bool>)
    ensures fresh(t) && fresh(p) && fresh(v) && fresh(d) && t != p && v != d
    ensures t.Length == p.Length == v.Length == d.Length == cells
    ensures forall i :: 0 <= i < cells ==> !v[i] && !d[i]
  {
    t := Repeat(cells, 0);
    p := Repeat(cells, 0);
    v := Repeat(cells, false);
    d := Repeat(cells, false);
  }

  method Repeat<T>(cells: nat, x: T) returns (a: array<T>)
    ensures fresh(a) && a.Length == cells
    ensures forall i :: 0 <= i < cells ==> a[i] == x
  {
    a := new T[cells](_ => x);
  }

  lemma ColdRanked(w: Ways, assoc: nat, sets: nat, s: nat)
    requires |w.tag| == |w.stamp| == |w.valid| == |w.dirty| == assoc
    requires forall k :: 0 <= k < assoc ==> !w.valid[k] && !w.dirty[k]
    ensures Ranked(w, [], assoc, 1, sets, s)
  {
  }

  ghost function NoOrders(n: nat): (r: seq<seq<nat>>)
    ensures |r| == n && forall i :: 0 <= i < n ==> r[i] == []
  {
    if n == 0 then [] else NoOrders(n - 1) + [[]]
  }

  /** The geometry test, and the derived set count (as stored in 32 bits), index width, mask and
      line shift. */
  method Geometry(sizeBytes: nat, ways: nat, lineBytes: nat)
    returns (divides: bool, ok: bool, sets: nat, bits: nat, mask: nat, shift: nat)
    ensures divides <==> Divides(sizeBytes, ways, lineBytes)
    ensures ok <==> Representable(sizeBytes, ways, lineBytes)
    ensures divides ==> lineBytes == Bits.Pow2(shift)
    ensures ok ==>
      var n := SetsOf(sizeBytes, lineBytes * ways);
      sets == (if n < 0x1_0000_0000 then n else 0) && (sets > 0 ==> sets == Bits.Pow2(bits) && mask == sets - 1)
  {
    divides, ok, sets, bits, mask, shift := false, false, 0, 0, 0, 0;
    PowerTestOf(lineBytes);
    if ways == 0 || lineBytes == 0 || Bits.And(lineBytes, lineBytes - 1) != 0 { return; }
    shift := Bits.Log2(lineBytes);
    var setBytes := lineBytes * ways;
    assert setBytes > 0 by { Counting.MulLe(1, ways, lineBytes); }
    if sizeBytes % setBytes != 0 { return; }
    divides := true;
    ok, sets, bits, mask := Indexing(sizeBytes / setBytes);
  }

  method Indexing(n: nat) returns (ok: bool, sets: nat, bits: nat, mask: nat)
    ensures ok <==> n > 0 && Bits.IsPow2(n)
    ensures ok ==> sets == if n < 0x1_0000_0000 then n else 0
    ensures ok && sets > 0 ==> sets == Bits.Pow2(bits) && mask == sets - 1
  {
    ok, sets, bits, mask := false, 0, 0, 0;
    PowerTestOf(n);
    if n == 0 || Bits.And(n, n - 1) != 0 { return; }
    ok := true;
    sets := n % 0x1_0000_0000;
    if n >= 0x1_0000_0000 {
      Bits.PowerTruncates(n);
      mask := 0xFFFF_FFFF;
    } else {
      bits := Bits.Log2(n);
      mask := sets - 1;
    }
  }

  function SetsOf(sizeBytes: nat, setBytes: nat): nat {
    if setBytes == 0 then 0 else sizeBytes / setBytes
  }

  /** The size is a whole number of sets of lines of a power of two bytes. */
  ghost predicate Divides(sizeBytes: nat, ways: nat, lineBytes: nat) {
    var setBytes := lineBytes * ways;
    && ways > 0 && lineBytes > 0 && Bits.IsPow2(lineBytes)
    && setBytes > 0 && sizeBytes % setBytes == 0
  }

  ghost predicate Representable(sizeBytes: nat, ways: nat, lineBytes: nat) {
    var sets := SetsOf(sizeBytes, lineBytes * ways);
    Divides(sizeBytes, ways, lineBytes) && sets > 0 && Bits.IsPow2(sets)
  }

  /** A geometry is representable if and only if it is 2^i sets of so many ways of lines of 2^j bytes. */
  lemma GeometryMeans(sizeBytes: nat, ways: nat, lineBytes: nat)
    ensures Representable(sizeBytes, ways, lineBytes) <==>
      && ways > 0 && Bits.IsPow2(lineBytes)
      && exists sets: nat :: Bits.IsPow2(sets) && sizeBytes == sets * (lineBytes * ways)
    ensures Representable(sizeBytes, ways, lineBytes) ==>
      sizeBytes == SetsOf(sizeBytes, lineBytes * ways) * (lineBytes * ways)
  {
    var setBytes := lineBytes * ways;
    if Representable(sizeBytes, ways, lineBytes) {
      assert sizeBytes == sizeBytes / setBytes * setBytes + sizeBytes % setBytes;
    }
    if ways > 0 && Bits.IsPow2(lineBytes) {
      assert lineBytes > 0;
      assert setBytes > 0 by { Counting.MulLe(1, ways, lineBytes); }
      forall sets: nat | Bits.IsPow2(sets) && sizeBytes == sets * setBytes
        ensures Representable(sizeBytes, ways, lineBytes)
      {
        Bits.ModuloUnique(sizeBytes, setBytes, sets, 0);
      }
    }
  }

  lemma PowerTestOf(v: nat)
    ensures v > 0 ==> (Bits.And(v, v - 1) == 0 <==> Bits.IsPow2(v))
  {
    if v > 0 { Bits.PowerTest(v); }
  }

  lemma ListIsOk(w: Ways, order: seq<nat>, assoc: nat, clock: nat, sets: nat, s: nat)
    requires Ranked(w, order, assoc, clock, sets, s) && s < sets
    ensures SetOk(ListOf(w, order, assoc, clock, sets, s), assoc, sets, s)
  {
    var es := ListOf(w, order, assoc, clock, sets, s);
    forall i | 0 <= i < |es| ensures es[i].line % sets == s {
      Bits.ModuloUnique(es[i].line, sets, w.tag[order[i]], s);
    }
    forall i, j | 0 <= i < j < |es| ensures es[i].line != es[j].line {
      if es[i].line == es[j].line {
        JoinUnique(w.tag[order[i]], w.tag[order[j]], sets, s);
        assert false;
      }
    }
  }
}
