/** The Space-Saving tracker as it is implemented: an indexed binary min-heap and a map from key to
    heap position. Every access is a step of `SummarySpec`. */
module SpaceSaving {
  import Counting
  import opened SummarySpec
  import opened Selection

  datatype Slot = Slot(key: nat, count: nat, error: nat)

  /** `pos` is an exact bijection between tracked keys and heap indices. */
  ghost predicate Indexed(heap: seq<Slot>, pos: map<nat, nat>) {
    && (forall i :: 0 <= i < |heap| ==> heap[i].key in pos && pos[heap[i].key] == i)
    && (forall k :: k in pos ==> pos[k] < |heap| && heap[pos[k]].key == k)
  }

  ghost function TableOf(heap: seq<Slot>, pos: map<nat, nat>): Table
    requires Indexed(heap, pos)
  {
    map k | k in pos :: Tally(heap[pos[k]].count, heap[pos[k]].error)
  }

  lemma SameSize(heap: seq<Slot>, pos: map<nat, nat>)
    requires Indexed(heap, pos)
    ensures |TableOf(heap, pos)| == |pos| == |heap|
  {
    var keys := seq(|heap|, i requires 0 <= i < |heap| => heap[i].key);
    assert forall i, j :: 0 <= i < j < |keys| ==> pos[keys[i]] != pos[keys[j]];
    Counting.DistinctSize(keys);
    assert Counting.Elements(keys) == pos.Keys by {
      forall k | k in pos.Keys ensures k in keys { assert keys[pos[k]] == k; }
    }
    assert TableOf(heap, pos).Keys == pos.Keys;
  }

  lemma RunLength(cap: nat, stream: seq<nat>, ts: seq<Table>)
    requires IsRun(cap, stream, ts)
    ensures |ts| == |stream| + 1
  {
  }

  lemma PushTable(heap: seq<Slot>, pos: map<nat, nat>, x: Slot)
    requires Indexed(heap, pos) && x.key !in pos
    ensures var heap', pos' := heap + [x], pos[x.key := |heap|];
      Indexed(heap', pos') && TableOf(heap', pos') == TableOf(heap, pos)[x.key := Tally(x.count, x.error)]
  {
  }

  lemma RootReplaced(heap: seq<Slot>, pos: map<nat, nat>, key: nat)
    requires Indexed(heap, pos) && heap != [] && key !in pos
    ensures var v := heap[0].key;
      var heap', pos' := heap[0 := Slot(key, heap[0].count + 1, heap[0].count)], (pos - {v})[key := 0];
      && v in pos && Indexed(heap', pos') && TableOf(heap', pos') == Replaced(TableOf(heap, pos), v, key)
  {
  }

  lemma KeysOfTable(heap: seq<Slot>, pos: map<nat, nat>)
    requires Indexed(heap, pos)
    ensures TableOf(heap, pos).Keys == pos.Keys
  {
  }

  function Parent(i: nat): nat
    requires i > 0
  {
    (i - 1) / 2
  }

  ghost predicate Ordered(heap: seq<Slot>, i: nat)
    requires 0 < i < |heap|
  {
    heap[Parent(i)].count <= heap[i].count
  }

  /** Min-heap on counts. */
  ghost predicate IsHeap(heap: seq<Slot>) {
    forall i :: 0 < i < |heap| ==> Ordered(heap, i)
  }

  /** A heap except that slot i may be too large for its children. */
  ghost predicate HeapBelow(heap: seq<Slot>, i: nat) {
    && (forall j :: 0 < j < |heap| && Parent(j) != i ==> Ordered(heap, j))
    && (forall j :: 0 < j < |heap| && Parent(j) == i && i > 0 ==> heap[Parent(i)].count <= heap[j].count)
  }

  /** A heap except that slot i may be too small for its parent. */
  ghost predicate HeapAbove(heap: seq<Slot>, i: nat) {
    && (forall j :: 0 < j < |heap| && j != i ==> Ordered(heap, j))
    && (forall j :: 0 < j < |heap| && Parent(j) == i && i > 0 ==> heap[Parent(i)].count <= heap[j].count)
  }

  lemma {:induction false} RootIsMin(heap: seq<Slot>, i: nat)
    requires IsHeap(heap) && i < |heap|
    ensures heap[0].count <= heap[i].count
    decreases i
  {
    if i > 0 {
      assert Ordered(heap, i);
      RootIsMin(heap, Parent(i));
    }
  }

  ghost function Swapped(heap: seq<Slot>, i: nat, j: nat): seq<Slot>
    requires i < |heap| && j < |heap|
  {
    heap[i := heap[j]][j := heap[i]]
  }

  lemma SwapKeepsTable(heap: seq<Slot>, pos: map<nat, nat>, i: nat, j: nat)
    requires Indexed(heap, pos) && i < |heap| && j < |heap| && i != j
    ensures var pos' := pos[heap[j].key := i][heap[i].key := j];
      Indexed(Swapped(heap, i, j), pos') && TableOf(Swapped(heap, i, j), pos') == TableOf(heap, pos)
  {
  }

  /** Moving a too-small slot up one level, or a too-large one down to its smaller child. */
  lemma UpStep(heap: seq<Slot>, i: nat)
    requires 0 < i < |heap| && HeapAbove(heap, i) && heap[Parent(i)].count > heap[i].count
    ensures HeapAbove(Swapped(heap, i, Parent(i)), Parent(i))
  {
    var p, h := Parent(i), Swapped(heap, i, Parent(i));
    forall j | 0 < j < |h| && j != p ensures Ordered(h, j) {
      if j != i { assert Ordered(heap, j); }
    }
    if p > 0 { assert Ordered(heap, p); }
    forall j | 0 < j < |h| && Parent(j) == p && p > 0 ensures h[Parent(p)].count <= h[j].count {
      if j != i { assert Ordered(heap, j); }
    }
  }

  lemma DownStep(heap: seq<Slot>, i: nat, m: nat)
    requires i < |heap| && 0 < m < |heap| && Parent(m) == i && HeapBelow(heap, i)
    requires heap[m].count < heap[i].count
    requires forall j :: 0 < j < |heap| && Parent(j) == i ==> heap[m].count <= heap[j].count
    ensures HeapBelow(Swapped(heap, i, m), m)
  {
    var h := Swapped(heap, i, m);
    forall j | 0 < j < |h| && Parent(j) != m ensures Ordered(h, j) {
      if j != i && j != m && Parent(j) != i { assert Ordered(heap, j); }
    }
    forall j | 0 < j < |h| && Parent(j) == m ensures h[Parent(m)].count <= h[j].count {
      assert Ordered(heap, j);
    }
  }

  /** A slot no larger than its children ends the descent. */
  lemma Settled(heap: seq<Slot>, i: nat)
    requires i < |heap| && HeapBelow(heap, i)
    requires 2 * i + 1 < |heap| ==> heap[i].count <= heap[2 * i + 1].count
    requires 2 * i + 2 < |heap| ==> heap[i].count <= heap[2 * i + 2].count
    ensures IsHeap(heap)
  {
    forall j | 0 < j < |heap| ensures Ordered(heap, j) {
      assert Parent(j) == i ==> j == 2 * i + 1 || j == 2 * i + 2;
    }
  }

  lemma LeastChild(heap: seq<Slot>, i: nat, m: nat)
    requires i < |heap| && m < |heap| && (m == 2 * i + 1 || m == 2 * i + 2)
    requires 2 * i + 1 < |heap| ==> heap[m].count <= heap[2 * i + 1].count
    requires 2 * i + 2 < |heap| ==> heap[m].count <= heap[2 * i + 2].count
    ensures Parent(m) == i && forall j :: 0 < j < |heap| && Parent(j) == i ==> heap[m].count <= heap[j].count
  {
    forall j | 0 < j < |heap| && Parent(j) == i ensures heap[m].count <= heap[j].count {
      assert j == 2 * i + 1 || j == 2 * i + 2;
    }
  }

  lemma RootIsLeast(heap: seq<Slot>, pos: map<nat, nat>)
    requires Indexed(heap, pos) && IsHeap(heap) && heap != []
    ensures IsMin(TableOf(heap, pos), heap[0].key)
  {
    hide IsHeap;
    forall k | k in pos ensures heap[0].count <= heap[pos[k]].count { RootIsMin(heap, pos[k]); }
  }

  class SpaceSaving {
    const cap: nat
    var heap: seq<Slot>
    var pos: map<nat, nat>
    var evictions: nat
    ghost var stream: seq<nat>
    ghost var trail: seq<Table>

    ghost predicate Valid()
      reads this
    {
      && cap > 0 && |heap| <= cap
      && Indexed(heap, pos) && IsHeap(heap)
      && IsRun(cap, stream, trail) && trail[|stream|] == TableOf(heap, pos)
    }

    ghost function Table(): SummarySpec.Table
      requires Indexed(heap, pos)
      reads this
    {
      TableOf(heap, pos)
    }

    constructor (capacity: nat)
      requires capacity > 0
      ensures Valid() && cap == capacity && stream == [] && heap == []
    {
      cap, heap, pos, evictions := capacity, [], map[], 0;
      stream, trail := [], [map[]];
    }

    method Reset()
      requires Valid()
      modifies this
      ensures Valid() && stream == [] && heap == [] && evictions == 0
    {
      heap, pos, evictions := [], map[], 0;
      stream, trail := [], [map[]];
    }

    method SwapAt(i: nat, j: nat)
      requires Indexed(heap, pos) && i < |heap| && j < |heap| && i != j
      modifies `heap, `pos
      ensures heap == Swapped(old(heap), i, j)
      ensures Indexed(heap, pos) && Table() == old(Table())
    {
      SwapKeepsTable(heap, pos, i, j);
      heap := heap[i := heap[j]][j := heap[i]];
      pos := pos[heap[i].key := i];
      pos := pos[heap[j].key := j];
    }

    method SiftUp(start: nat)
      requires Indexed(heap, pos) && start < |heap| && HeapAbove(heap, start)
      modifies `heap, `pos
      ensures Indexed(heap, pos) && Table() == old(Table()) && |heap| == old(|heap|) && IsHeap(heap)
    {
      var i := start;
      while i > 0
        invariant 0 <= i < |heap| == old(|heap|) && Indexed(heap, pos) && Table() == old(Table())
        invariant HeapAbove(heap, i)
        decreases i
      {
        var p := (i - 1) / 2;
        if heap[p].count <= heap[i].count { break; }
        UpStep(heap, i);
        SwapAt(i, p);
        i := p;
      }
    }

    method SiftDown(start: nat)
      requires Indexed(heap, pos) && start < |heap| && HeapBelow(heap, start)
      modifies `heap, `pos
      ensures Indexed(heap, pos) && Table() == old(Table()) && |heap| == old(|heap|) && IsHeap(heap)
    {
      hide HeapBelow, IsHeap, Indexed, TableOf;
      var i := start;
      while true
        invariant i < |heap| == old(|heap|) && Indexed(heap, pos) && Table() == old(Table())
        invariant HeapBelow(heap, i)
        decreases |heap| - i
      {
        var l, r, m := 2 * i + 1, 2 * i + 2, i;
        if l < |heap| && heap[l].count < heap[m].count { m := l; }
        if r < |heap| && heap[r].count < heap[m].count { m := r; }
        if m == i {
          Settled(heap, i);
          break;
        }
        LeastChild(heap, i, m);
        DownStep(heap, i, m);
        SwapAt(i, m);
        i := m;
      }
    }

    /** One access. A single sift restores both the heap order and the index. */
    method Access(key: nat)
      requires Valid()
      modifies this
      ensures Valid() && stream == old(stream) + [key]
      ensures Step(old(Table()), cap, key, Table())
      ensures evictions == old(evictions) + (if key !in old(pos) && old(|heap|) == cap then 1 else 0)
    {
      hide IsHeap, IsRun, TableOf, Replaced;
      SameSize(heap, pos);
      KeysOfTable(heap, pos);
      if key in pos {
        Increment(key);
      } else if |heap| < cap {
        Insert(key);
      } else {
        Evict(key);
        evictions := evictions + 1;
      }
      SameSize(heap, pos);
      RunLength(cap, stream, trail);
      RunExtend(cap, stream, trail, key, Table());
      stream := stream + [key];
      trail := trail + [Table()];
    }

    method Increment(key: nat)
      requires Indexed(heap, pos) && IsHeap(heap) && key in pos
      modifies `heap, `pos
      ensures Indexed(heap, pos) && IsHeap(heap) && |heap| == old(|heap|)
      ensures Table() == old(Table()[key := Tally(Table()[key].count + 1, Table()[key].error)])
    {
      var i := pos[key];
      RaiseStep(heap, i, heap[i].(count := heap[i].count + 1));
      heap := heap[i := heap[i].(count := heap[i].count + 1)];
      assert Table() == old(Table()[key := Tally(Table()[key].count + 1, Table()[key].error)]);
      SiftDown(i);
    }

    method Insert(key: nat)
      requires Indexed(heap, pos) && IsHeap(heap) && key !in pos
      modifies `heap, `pos
      ensures Indexed(heap, pos) && IsHeap(heap) && |heap| == old(|heap|) + 1
      ensures Table() == old(Table()[key := Tally(1, 0)])
    {
      hide IsHeap, HeapAbove, Indexed, TableOf;
      PushStep(heap, Slot(key, 1, 0));
      PushTable(heap, pos, Slot(key, 1, 0));
      heap := heap + [Slot(key, 1, 0)];
      pos := pos[key := |heap| - 1];
      SiftUp(|heap| - 1);
    }

    /** The heap root is a minimum; the new key takes its slot. */
    method Evict(key: nat)
      requires Indexed(heap, pos) && IsHeap(heap) && key !in pos && |heap| > 0
      modifies `heap, `pos
      ensures Indexed(heap, pos) && IsHeap(heap) && |heap| == old(|heap|)
      ensures IsMin(old(Table()), old(heap[0].key)) && Table() == Replaced(old(Table()), old(heap[0].key), key)
    {
      hide IsHeap, HeapBelow, Indexed, TableOf, Replaced, IsMin;
      RootIsLeast(heap, pos);
      RaiseStep(heap, 0, Slot(key, heap[0].count + 1, heap[0].count));
      RootReplaced(heap, pos, key);
      pos := pos - {heap[0].key};
      heap := heap[0 := Slot(key, heap[0].count + 1, heap[0].count)];
      pos := pos[key := 0];
      SiftDown(0);
    }

    /** The k keys with the highest counts, best first. */
    method TopK(k: nat) returns (out: seq<nat>)
      requires Valid()
      ensures Counting.Distinct(out) && IsTop(Counts(Table()), k, Counting.Elements(out))
      ensures forall i, j :: 0 <= i < j < |out| ==> Counts(Table())[out[i]] >= Counts(Table())[out[j]]
    {
      var v := seq(|heap|, i requires 0 <= i < |heap| reads this => Ranked(heap[i].key, heap[i].count));
      var n := if k < |v| then k else |v|;
      assert Lists(v, Counts(Table())) by {
        forall key | key in Counts(Table()) ensures Ranked(key, Counts(Table())[key]) in v {
          assert v[pos[key]] == Ranked(key, Counts(Table())[key]);
        }
      }
      var w := PartialSort(v, n);
      SortedStillLists(v, w, Counts(Table()));
      TakeIsTop(w, Counts(Table()), k, n);
      out := KeysOf(w[..n]);
    }

    method Contains(key: nat) returns (b: bool)
      requires Valid()
      ensures b <==> key in Table()
      ensures cap * Freq(stream, key) > |stream| ==> b
    {
      HeavyHitters(cap, stream, trail, key);
      b := key in pos;
    }
  }

  ghost function Counts(t: Table): map<nat, nat> {
    map k | k in t :: t[k].count
  }

  /** Raising the count of one slot of a heap leaves it at most too large for its children. */
  lemma RaiseStep(heap: seq<Slot>, i: nat, x: Slot)
    requires IsHeap(heap) && i < |heap| && heap[i].count <= x.count
    ensures HeapBelow(heap[i := x], i)
  {
    var h := heap[i := x];
    forall j | 0 < j < |h| && Parent(j) != i ensures Ordered(h, j) { assert Ordered(heap, j); }
    forall j | 0 < j < |h| && Parent(j) == i && i > 0 ensures h[Parent(i)].count <= h[j].count {
      assert Ordered(heap, j) && Ordered(heap, i);
    }
  }

  lemma PushStep(heap: seq<Slot>, x: Slot)
    requires IsHeap(heap)
    ensures HeapAbove(heap + [x], |heap|)
  {
    var h := heap + [x];
    forall j | 0 < j < |h| && j != |heap| ensures Ordered(h, j) { assert Ordered(heap, j); }
  }
}
