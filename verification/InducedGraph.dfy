/** The induced subgraph on a compressed sparse row graph: some vertices are chosen, renumbered in
    ascending order, and every edge between chosen vertices is kept. */
module InducedGraph {

  /** The arrays of a graph file; the header's counts must match their lengths. */
  datatype Csr = Csr(directed: bool, nodes: int, edges: int, offsets: seq<int>, neighbors: seq<int>)

  datatype Error = NotUndirected | SizeMismatch | BadOffsets | EmptySelection | BadNeighbor | BadRow

  datatype Result = Ok(graph: Csr) | Err(error: Error)

  ghost predicate OffsetsOk(g: Csr) {
    && g.nodes >= 0 && |g.offsets| == g.nodes + 1 && |g.neighbors| == g.edges
    && g.offsets[0] == 0 && g.offsets[g.nodes] == g.edges
    && forall i :: 0 <= i < g.nodes ==> g.offsets[i] <= g.offsets[i + 1]
  }

  lemma OffsetsOrdered(g: Csr, i: nat, j: nat)
    requires OffsetsOk(g) && i <= j <= g.nodes
    ensures 0 <= g.offsets[i] <= g.offsets[j] <= g.edges
  {
    Ordered(g, 0, i);
    Ordered(g, i, j);
    Ordered(g, j, g.nodes);
  }

  lemma {:induction false} Ordered(g: Csr, i: nat, j: nat)
    requires OffsetsOk(g) && i <= j <= g.nodes
    ensures g.offsets[i] <= g.offsets[j]
    decreases j
  {
    if i < j { Ordered(g, i, j - 1); }
  }

  ghost function Row(g: Csr, v: nat): seq<int>
    requires OffsetsOk(g) && v < g.nodes
  {
    OffsetsOrdered(g, v, v + 1);
    g.neighbors[g.offsets[v]..g.offsets[v + 1]]
  }

  predicate Ascending(s: seq<int>) {
    forall i :: 0 < i < |s| ==> s[i - 1] < s[i]
  }

  lemma {:induction false} AscendingFar(s: seq<int>, i: nat, j: nat)
    requires Ascending(s) && i < j < |s|
    ensures s[i] < s[j]
    decreases j
  {
    if i < j - 1 { AscendingFar(s, i, j - 1); }
  }

  // ---------- renumbering ----------

  /** The new number of a vertex: its position among the chosen ones, or -1. */
  function Rank(chosen: seq<int>, x: int): (r: int)
    ensures -1 <= r < |chosen|
    ensures r >= 0 ==> chosen[r] == x
    ensures r == -1 ==> x !in chosen
  {
    if chosen == [] then -1
    else if chosen[|chosen| - 1] == x then |chosen| - 1
    else Rank(chosen[..|chosen| - 1], x)
  }

  function Retained(chosen: seq<int>, row: seq<int>): seq<int> {
    if row == [] then []
    else
      var r := Rank(chosen, row[|row| - 1]);
      Retained(chosen, row[..|row| - 1]) + if r >= 0 then [r] else []
  }

  lemma RankOf(chosen: seq<int>, j: nat)
    requires Ascending(chosen) && j < |chosen|
    ensures Rank(chosen, chosen[j]) == j
  {
    var r := Rank(chosen, chosen[j]);
    if r < j { AscendingFar(chosen, r, j); }
    if r > j { AscendingFar(chosen, j, r); }
  }

  /** A retained entry is the number of a chosen neighbour, and every chosen neighbour is retained. */
  lemma {:induction false} RetainedMembers(chosen: seq<int>, row: seq<int>, j: nat)
    requires Ascending(chosen) && j < |chosen|
    ensures j in Retained(chosen, row) <==> chosen[j] in row
  {
    if row != [] {
      var init, x := row[..|row| - 1], row[|row| - 1];
      RetainedMembers(chosen, init, j);
      RankOf(chosen, j);
      assert row == init + [x];
    }
  }

  lemma {:induction false} RetainedBounds(chosen: seq<int>, row: seq<int>)
    ensures forall k :: 0 <= k < |Retained(chosen, row)| ==> 0 <= Retained(chosen, row)[k] < |chosen|
  {
    if row != [] { RetainedBounds(chosen, row[..|row| - 1]); }
  }

  ghost predicate CameFrom(chosen: seq<int>, row: seq<int>, kept: seq<int>) {
    forall k :: 0 <= k < |kept| ==> 0 <= kept[k] < |chosen| && chosen[kept[k]] in row
  }

  lemma {:induction false} RetainedFrom(chosen: seq<int>, row: seq<int>)
    ensures CameFrom(chosen, row, Retained(chosen, row))
  {
    hide Rank;
    if row != [] {
      RetainedFrom(chosen, row[..|row| - 1]);
      assert row == row[..|row| - 1] + [row[|row| - 1]];
    }
  }

  /** Numbers ascend with the vertices they stand for. */
  lemma RankAscends(chosen: seq<int>, row: seq<int>, a: int, b: int)
    requires Ascending(chosen) && Ascending(row) && row != []
    requires 0 <= a < |chosen| && 0 <= b < |chosen|
    requires chosen[a] in row[..|row| - 1] && chosen[b] == row[|row| - 1]
    ensures a < b
  {
    var i :| 0 <= i < |row| - 1 && row[i] == chosen[a];
    AscendingFar(row, i, |row| - 1);
    if b < a { AscendingFar(chosen, b, a); }
  }

  /** Renumbering in ascending order keeps sorted rows sorted. */
  lemma {:induction false} RelabelKeepsOrder(chosen: seq<int>, row: seq<int>)
    requires Ascending(chosen) && Ascending(row)
    ensures Ascending(Retained(chosen, row))
  {
    hide Rank;
    if row != [] {
      var init := row[..|row| - 1];
      RelabelKeepsOrder(chosen, init);
      RetainedFrom(chosen, init);
      var kept, r := Retained(chosen, init), Rank(chosen, row[|row| - 1]);
      if r >= 0 && kept != [] { RankAscends(chosen, row, kept[|kept| - 1], r); }
    }
  }

  // ---------- what the construction promises ----------

  ghost predicate InRange(row: seq<int>, nodes: int) {
    forall k :: 0 <= k < |row| ==> 0 <= row[k] < nodes
  }

  /** The condition on one chosen vertex: neighbours exist, and the kept ones are sorted, unique
      and not the vertex itself. */
  ghost predicate RowAccepted(g: Csr, chosen: seq<int>, i: nat)
    requires OffsetsOk(g) && i < |chosen| && 0 <= chosen[i] < g.nodes
  {
    var row := Row(g, chosen[i]);
    InRange(row, g.nodes) && Ascending(Retained(chosen, row)) && i !in Retained(chosen, row)
  }

  ghost predicate Selects(chosen: seq<int>, nodes: int) {
    Ascending(chosen) && InRange(chosen, nodes)
  }

  ghost predicate Accepted(g: Csr, chosen: seq<int>)
    requires Selects(chosen, g.nodes)
  {
    && !g.directed && g.nodes > 0 && OffsetsOk(g) && chosen != []
    && forall i :: 0 <= i < |chosen| ==> RowAccepted(g, chosen, i)
  }

  /** The induced graph: row i holds the kept neighbours of the i-th chosen vertex. */
  ghost predicate Induced(g: Csr, chosen: seq<int>, h: Csr)
    requires Selects(chosen, g.nodes) && OffsetsOk(g)
  {
    && OffsetsOk(h) && h.nodes == |chosen| && !h.directed
    && forall i :: 0 <= i < |chosen| ==> Row(h, i) == Retained(chosen, Row(g, chosen[i]))
  }

  ghost predicate Edge(g: Csr, a: int, b: int)
    requires OffsetsOk(g)
  {
    0 <= a < g.nodes && b in Row(g, a)
  }

  ghost predicate Symmetric(g: Csr)
    requires OffsetsOk(g)
  {
    forall a, b :: 0 <= b < g.nodes && Edge(g, a, b) ==> Edge(g, b, a)
  }

  /** Exactly the edges between chosen vertices survive, under the new numbers. */
  lemma EdgesKept(g: Csr, chosen: seq<int>, h: Csr, i: nat, j: nat)
    requires Selects(chosen, g.nodes) && OffsetsOk(g) && Induced(g, chosen, h) && i < |chosen| && j < |chosen|
    ensures Edge(h, i, j) <==> Edge(g, chosen[i], chosen[j])
  {
    RetainedMembers(chosen, Row(g, chosen[i]), j);
  }

  lemma SymmetryKept(g: Csr, chosen: seq<int>, h: Csr)
    requires Selects(chosen, g.nodes) && OffsetsOk(g) && Induced(g, chosen, h) && Symmetric(g)
    ensures Symmetric(h)
  {
    forall a, b | 0 <= b < h.nodes && Edge(h, a, b) ensures Edge(h, b, a) {
      EdgesKept(g, chosen, h, a, b);
      EdgesKept(g, chosen, h, b, a);
      assert Edge(g, chosen[b], chosen[a]);
    }
  }

  /** A sorted, loop-free source with valid neighbours is never turned down. */
  lemma SortedSourceAccepted(g: Csr, chosen: seq<int>)
    requires Selects(chosen, g.nodes) && chosen != [] && !g.directed && g.nodes > 0 && OffsetsOk(g)
    requires forall v :: 0 <= v < g.nodes ==> InRange(Row(g, v), g.nodes) && Ascending(Row(g, v)) && v !in Row(g, v)
    ensures Accepted(g, chosen)
  {
    forall i | 0 <= i < |chosen| ensures RowAccepted(g, chosen, i) {
      var row := Row(g, chosen[i]);
      RelabelKeepsOrder(chosen, row);
      RetainedMembers(chosen, row, i);
    }
  }

  /** Whatever was accepted comes out sorted, loop-free and in range, so it is accepted again. */
  lemma OutputWellFormed(g: Csr, chosen: seq<int>, h: Csr)
    requires Selects(chosen, g.nodes) && Accepted(g, chosen) && Induced(g, chosen, h)
    ensures forall i :: 0 <= i < h.nodes ==> InRange(Row(h, i), h.nodes) && Ascending(Row(h, i)) && i !in Row(h, i)
    ensures forall again :: Selects(again, h.nodes) && again != [] ==> Accepted(h, again)
  {
    forall i | 0 <= i < h.nodes ensures InRange(Row(h, i), h.nodes) && Ascending(Row(h, i)) && i !in Row(h, i) {
      assert RowAccepted(g, chosen, i);
      RetainedBounds(chosen, Row(g, chosen[i]));
    }
    forall again | Selects(again, h.nodes) && again != [] ensures Accepted(h, again) { SortedSourceAccepted(h, again); }
  }

  // ---------- the construction ----------

  function Selected(nodes: nat, keep: int -> bool): (s: seq<int>)
    ensures forall k :: 0 <= k < |s| ==> 0 <= s[k] < nodes
  {
    if nodes == 0 then [] else Selected(nodes - 1, keep) + if keep(nodes - 1) then [nodes - 1] else []
  }

  lemma {:induction false} SelectedIs(nodes: nat, keep: int -> bool)
    ensures Selects(Selected(nodes, keep), nodes)
    ensures forall v :: 0 <= v < nodes ==> (v in Selected(nodes, keep) <==> keep(v))
  {
    if nodes > 0 { SelectedIs(nodes - 1, keep); }
  }

  method Select(nodes: nat, keep: int -> bool) returns (chosen: seq<int>)
    ensures chosen == Selected(nodes, keep) && Selects(chosen, nodes)
  {
    chosen := [];
    for v := 0 to nodes
      invariant chosen == Selected(v, keep)
    {
      if keep(v) { chosen := chosen + [v]; }
    }
    SelectedIs(nodes, keep);
  }

  ghost predicate Maps(m: array<int>, nodes: nat, chosen: seq<int>)
    reads m
  {
    m.Length == nodes && forall x :: 0 <= x < nodes ==> m[x] == Rank(chosen, x)
  }

  method MapChosen(nodes: nat, chosen: seq<int>) returns (m: array<int>)
    requires Selects(chosen, nodes)
    ensures fresh(m) && Maps(m, nodes, chosen)
  {
    m := new int[nodes](_ => -1);
    for i := 0 to |chosen|
      invariant forall x :: 0 <= x < nodes ==> m[x] == Rank(chosen[..i], x)
    {
      assert chosen[..i + 1][..i] == chosen[..i];
      m[chosen[i]] := i;
    }
    assert chosen[..|chosen|] == chosen;
  }

  method CheckOffsets(g: Csr) returns (ok: bool)
    requires g.nodes > 0 && |g.offsets| == g.nodes + 1 && |g.neighbors| == g.edges
    ensures ok <==> OffsetsOk(g)
  {
    if g.offsets[0] != 0 || g.offsets[g.nodes] != g.edges { return false; }
    for i := 0 to g.nodes
      invariant forall k :: 0 <= k < i ==> g.offsets[k] <= g.offsets[k + 1]
    {
      if g.offsets[i] > g.offsets[i + 1] { return false; }
    }
    return true;
  }

  /** One row: its neighbours must exist; those not chosen are dropped, the rest renumbered. */
  method Remap(row: seq<int>, nodes: nat, mapping: array<int>, ghost chosen: seq<int>)
    returns (ok: bool, retained: seq<int>)
    requires Maps(mapping, nodes, chosen)
    ensures ok <==> InRange(row, nodes)
    ensures ok ==> retained == Retained(chosen, row)
  {
    retained := [];
    for k := 0 to |row|
      invariant InRange(row[..k], nodes) && retained == Retained(chosen, row[..k])
    {
      if row[k] < 0 || row[k] >= nodes { return false, []; }
      assert row[..k + 1][..k] == row[..k];
      if mapping[row[k]] >= 0 { retained := retained + [mapping[row[k]]]; }
    }
    ok := true;
    assert row[..|row|] == row;
  }

  method CheckRow(retained: seq<int>, index: int) returns (ok: bool)
    ensures ok <==> Ascending(retained) && index !in retained
  {
    for k := 0 to |retained|
      invariant Ascending(retained[..k]) && index !in retained[..k]
    {
      if retained[k] == index || (k > 0 && retained[k] <= retained[k - 1]) { return false; }
      assert retained[..k + 1] == retained[..k] + [retained[k]];
    }
    assert retained[..|retained|] == retained;
    return true;
  }

  /** The rows written so far: row i of the output is entries[offsets[i]..offsets[i + 1]]. */
  ghost predicate Written(g: Csr, chosen: seq<int>, n: nat, offsets: seq<int>, entries: seq<int>)
    requires Selects(chosen, g.nodes) && OffsetsOk(g) && n <= |chosen|
  {
    && |offsets| == n + 1 && offsets[0] == 0 && offsets[n] == |entries|
    && forall i :: 0 <= i < n ==> RowWritten(g, chosen, i, offsets, entries)
  }

  ghost predicate RowWritten(g: Csr, chosen: seq<int>, i: nat, offsets: seq<int>, entries: seq<int>)
    requires Selects(chosen, g.nodes) && OffsetsOk(g) && i < |chosen| && i + 1 < |offsets|
  {
    && 0 <= offsets[i] <= offsets[i + 1] <= |entries|
    && entries[offsets[i]..offsets[i + 1]] == Retained(chosen, Row(g, chosen[i]))
  }

  lemma WriteRow(g: Csr, chosen: seq<int>, n: nat, offsets: seq<int>, entries: seq<int>, row: seq<int>)
    requires Selects(chosen, g.nodes) && OffsetsOk(g) && n < |chosen| && Written(g, chosen, n, offsets, entries)
    requires row == Retained(chosen, Row(g, chosen[n]))
    ensures Written(g, chosen, n + 1, offsets + [offsets[n] + |row|], entries + row)
  {
    hide Selects, OffsetsOk, Retained, Row;
    var offsets', entries' := offsets + [offsets[n] + |row|], entries + row;
    forall i | 0 <= i < n ensures RowWritten(g, chosen, i, offsets', entries') {
      assert RowWritten(g, chosen, i, offsets, entries);
      SliceOfConcat(entries, row, offsets[i], offsets[i + 1]);
    }
    assert entries'[offsets[n]..offsets[n] + |row|] == row;
    assert RowWritten(g, chosen, n, offsets', entries');
  }

  lemma SliceOfConcat(a: seq<int>, b: seq<int>, lo: int, hi: int)
    requires 0 <= lo <= hi <= |a|
    ensures (a + b)[lo..hi] == a[lo..hi]
  {
  }

  lemma WrittenIsInduced(g: Csr, chosen: seq<int>, offsets: seq<int>, entries: seq<int>)
    requires Selects(chosen, g.nodes) && OffsetsOk(g) && Written(g, chosen, |chosen|, offsets, entries)
    ensures Induced(g, chosen, Csr(false, |chosen|, |entries|, offsets, entries))
  {
    var h := Csr(false, |chosen|, |entries|, offsets, entries);
    forall i | 0 <= i < |chosen| ensures offsets[i] <= offsets[i + 1] {
      assert RowWritten(g, chosen, i, offsets, entries);
    }
    forall i | 0 <= i < |chosen| ensures Row(h, i) == Retained(chosen, Row(g, chosen[i])) {
      assert RowWritten(g, chosen, i, offsets, entries);
    }
  }

  /** The header describes a non-empty undirected graph, and the file has the size it declares. */
  predicate HeaderOk(g: Csr) {
    !g.directed && g.nodes > 0 && g.edges >= 0
  }

  predicate SizesOk(g: Csr) {
    |g.offsets| == g.nodes + 1 && |g.neighbors| == g.edges
  }

  /** The first chosen row that is turned down. */
  ghost predicate FirstBad(g: Csr, chosen: seq<int>, i: nat)
    requires Selects(chosen, g.nodes) && OffsetsOk(g)
  {
    i < |chosen| && !RowAccepted(g, chosen, i) && forall j :: 0 <= j < i ==> RowAccepted(g, chosen, j)
  }

  /** Why an input is turned down: the first of the checks that fails. */
  ghost predicate Because(g: Csr, chosen: seq<int>, e: Error)
    requires g.nodes > 0 ==> Selects(chosen, g.nodes)
  {
    match e
    case NotUndirected => !HeaderOk(g)
    case SizeMismatch => HeaderOk(g) && !SizesOk(g)
    case BadOffsets => HeaderOk(g) && SizesOk(g) && !OffsetsOk(g)
    case EmptySelection => HeaderOk(g) && OffsetsOk(g) && chosen == []
    case BadNeighbor =>
      && HeaderOk(g) && OffsetsOk(g)
      && exists i: nat :: FirstBad(g, chosen, i) && !InRange(Row(g, chosen[i]), g.nodes)
    case BadRow =>
      && HeaderOk(g) && OffsetsOk(g)
      && exists i: nat :: FirstBad(g, chosen, i) && InRange(Row(g, chosen[i]), g.nodes)
  }

  /** An input is accepted if and only if there is no reason against it, and there is never more than one. */
  lemma OneReason(g: Csr, chosen: seq<int>, a: Error, b: Error)
    requires g.nodes > 0 ==> Selects(chosen, g.nodes)
    ensures Because(g, chosen, a) && Because(g, chosen, b) ==> a == b
    ensures g.nodes > 0 && Accepted(g, chosen) <==> forall e :: !Because(g, chosen, e)
  {
    if Because(g, chosen, a) && Because(g, chosen, b) && g.nodes > 0 && OffsetsOk(g) {
      assert forall i: nat, j: nat :: FirstBad(g, chosen, i) && FirstBad(g, chosen, j) ==> i == j;
    }
    if g.nodes > 0 && !Accepted(g, chosen) {
      SomeReason(g, chosen);
    } else if g.nodes <= 0 {
      assert Because(g, chosen, NotUndirected);
    }
  }

  lemma SomeReason(g: Csr, chosen: seq<int>)
    requires g.nodes > 0 && Selects(chosen, g.nodes) && !Accepted(g, chosen)
    ensures exists e :: Because(g, chosen, e)
  {
    if !HeaderOk(g) {
      assert Because(g, chosen, NotUndirected);
    } else if !SizesOk(g) {
      assert Because(g, chosen, SizeMismatch);
    } else if !OffsetsOk(g) {
      assert Because(g, chosen, BadOffsets);
    } else if chosen == [] {
      assert Because(g, chosen, EmptySelection);
    } else {
      var i := SomeBad(g, chosen, |chosen|);
      assert Because(g, chosen, if InRange(Row(g, chosen[i]), g.nodes) then BadRow else BadNeighbor);
    }
  }

  lemma {:induction false} SomeBad(g: Csr, chosen: seq<int>, n: nat) returns (i: nat)
    requires Selects(chosen, g.nodes) && OffsetsOk(g) && n <= |chosen|
    requires exists j :: 0 <= j < n && !RowAccepted(g, chosen, j)
    ensures FirstBad(g, chosen, i)
  {
    if j :| 0 <= j < n - 1 && !RowAccepted(g, chosen, j) {
      i := SomeBad(g, chosen, n - 1);
    } else {
      i := n - 1;
    }
  }

  /** Builds the subgraph induced by the vertices to keep, or says why the input is turned down. */
  method Induce(g: Csr, keep: int -> bool) returns (r: Result)
    ensures var chosen := Selected(if g.nodes > 0 then g.nodes else 0, keep);
      && (g.nodes > 0 ==> Selects(chosen, g.nodes) && (r.Ok? <==> Accepted(g, chosen)))
      && (r.Ok? ==> g.nodes > 0 && OffsetsOk(g) && Induced(g, chosen, r.graph))
      && (r.Err? ==> Because(g, chosen, r.error))
  {
    if g.nodes > 0 { SelectedIs(g.nodes, keep); }
    if g.directed || g.nodes <= 0 || g.edges < 0 { return Err(NotUndirected); }
    if |g.offsets| != g.nodes + 1 || |g.neighbors| != g.edges { return Err(SizeMismatch); }
    var fine := CheckOffsets(g);
    if !fine { return Err(BadOffsets); }
    var chosen := Select(g.nodes, keep);
    if chosen == [] { return Err(EmptySelection); }
    r := Rows(g, chosen);
  }

  method Rows(g: Csr, chosen: seq<int>) returns (r: Result)
    requires Selects(chosen, g.nodes) && OffsetsOk(g)
    ensures r.Ok? <==> forall i :: 0 <= i < |chosen| ==> RowAccepted(g, chosen, i)
    ensures r.Ok? ==> Induced(g, chosen, r.graph)
    ensures r.Err? ==> (r.error == BadNeighbor || r.error == BadRow) && exists i: nat ::
      FirstBad(g, chosen, i) && (r.error == BadNeighbor <==> !InRange(Row(g, chosen[i]), g.nodes))
  {
    var mapping := MapChosen(g.nodes, chosen);
    var offsets, entries := [0], [];
    for index := 0 to |chosen|
      invariant Maps(mapping, g.nodes, chosen) && Written(g, chosen, index, offsets, entries)
      invariant forall i :: 0 <= i < index ==> RowAccepted(g, chosen, i)
    {
      var vertex := chosen[index];
      OffsetsOrdered(g, vertex, vertex + 1);
      var ok, retained := Remap(g.neighbors[g.offsets[vertex]..g.offsets[vertex + 1]], g.nodes, mapping, chosen);
      if !ok {
        assert FirstBad(g, chosen, index);
        return Err(BadNeighbor);
      }
      var sorted := CheckRow(retained, index);
      if !sorted {
        assert FirstBad(g, chosen, index);
        return Err(BadRow);
      }
      WriteRow(g, chosen, index, offsets, entries, retained);
      offsets := offsets + [offsets[index] + |retained|];
      entries := entries + retained;
    }
    WrittenIsInduced(g, chosen, offsets, entries);
    r := Ok(Csr(false, |chosen|, |entries|, offsets, entries));
  }
}
