/** The Count-Min sketch with its CAM of candidate keys. The hash is an arbitrary fixed function. */
module CountMin {
  import Counting
  import opened Flat
  import opened Selection
  import opened SummarySpec

  type Hash = (nat, nat) -> nat

  datatype CamEntry = CamEntry(key: nat, est: nat)

  // ---------- what the sketch means, over a stream ----------

  /** How many accesses of the stream fall into cell i of row r. */
  function Hits(hash: Hash, width: nat, stream: seq<nat>, r: nat, i: nat): nat
    requires width > 0
  {
    if stream == [] then 0
    else Hits(hash, width, stream[..|stream| - 1], r, i) + if hash(stream[|stream| - 1], r) % width == i then 1 else 0
  }

  /** The smallest of the key's cells over the first `depth` rows. */
  function Estimate(hash: Hash, width: nat, depth: nat, stream: seq<nat>, key: nat): nat
    requires width > 0 && depth > 0
  {
    var c := Hits(hash, width, stream, depth - 1, hash(key, depth - 1) % width);
    if depth == 1 then c
    else
      var e := Estimate(hash, width, depth - 1, stream, key);
      if c < e then c else e
  }

  lemma HitsExtend(hash: Hash, width: nat, stream: seq<nat>, key: nat, r: nat, i: nat)
    requires width > 0
    ensures Hits(hash, width, stream + [key], r, i)
      == Hits(hash, width, stream, r, i) + if hash(key, r) % width == i then 1 else 0
  {
    assert (stream + [key])[..|stream|] == stream;
  }

  /** A key's cell counts at least its own occurrences. */
  lemma {:induction false} CellCoversKey(hash: Hash, width: nat, stream: seq<nat>, r: nat, key: nat)
    requires width > 0
    ensures Freq(stream, key) <= Hits(hash, width, stream, r, hash(key, r) % width)
  {
    if stream != [] { CellCoversKey(hash, width, stream[..|stream| - 1], r, key); }
  }

  /** The estimate never understates. */
  lemma {:induction false} NeverUnder(hash: Hash, width: nat, depth: nat, stream: seq<nat>, key: nat)
    requires width > 0 && depth > 0
    ensures Freq(stream, key) <= Estimate(hash, width, depth, stream, key) <= |stream|
  {
    CellCoversKey(hash, width, stream, depth - 1, key);
    CellAtMost(hash, width, stream, depth - 1, hash(key, depth - 1) % width);
    if depth > 1 { NeverUnder(hash, width, depth - 1, stream, key); }
  }

  /** A cell counts the accesses that its row maps to it. */
  lemma {:induction false} HitsCount(hash: Hash, width: nat, stream: seq<nat>, r: nat, i: nat)
    requires width > 0
    ensures Hits(hash, width, stream, r, i) == |Counting.Where(stream, (x: nat) => hash(x, r) % width == i)|
  {
    if stream != [] {
      HitsCount(hash, width, stream[..|stream| - 1], r, i);
      Counting.WhereLast(stream, (x: nat) => hash(x, r) % width == i);
    }
  }

  /** The estimate is the smallest of the key's counters, one in each row. */
  lemma {:induction false} EstimateIsLowest(hash: Hash, width: nat, depth: nat, stream: seq<nat>, key: nat)
    requires width > 0 && depth > 0
    ensures forall r :: 0 <= r < depth ==>
      Estimate(hash, width, depth, stream, key) <= Hits(hash, width, stream, r, hash(key, r) % width)
    ensures exists r ::
      0 <= r < depth && Estimate(hash, width, depth, stream, key) == Hits(hash, width, stream, r, hash(key, r) % width)
  {
    var c := Hits(hash, width, stream, depth - 1, hash(key, depth - 1) % width);
    if depth > 1 { EstimateIsLowest(hash, width, depth - 1, stream, key); }
    assert Estimate(hash, width, depth, stream, key) == c || depth > 1;
  }

  /** No other key of the stream falls into the key's cell of row r. */
  ghost predicate Alone(hash: Hash, width: nat, stream: seq<nat>, r: nat, key: nat)
    requires width > 0
  {
    forall x :: x in stream && x != key ==> hash(x, r) % width != hash(key, r) % width
  }

  /** A cell holds the exact frequency if and only if the key has it to itself. */
  lemma {:induction false} CellIsExact(hash: Hash, width: nat, stream: seq<nat>, r: nat, key: nat)
    requires width > 0
    ensures Hits(hash, width, stream, r, hash(key, r) % width) == Freq(stream, key)
      <==> Alone(hash, width, stream, r, key)
  {
    if stream != [] {
      var init, x := stream[..|stream| - 1], stream[|stream| - 1];
      CellIsExact(hash, width, init, r, key);
      CellCoversKey(hash, width, init, r, key);
      assert stream == init + [x];
      assert forall y :: y in stream <==> y in init || y == x;
    }
  }

  /** The estimate is exact if and only if some row keeps the key apart from all others. */
  lemma EstimateIsExact(hash: Hash, width: nat, depth: nat, stream: seq<nat>, key: nat)
    requires width > 0 && depth > 0
    ensures Estimate(hash, width, depth, stream, key) == Freq(stream, key)
      <==> exists r :: 0 <= r < depth && Alone(hash, width, stream, r, key)
  {
    hide Estimate, Hits, Alone;
    EstimateIsLowest(hash, width, depth, stream, key);
    NeverUnder(hash, width, depth, stream, key);
    forall r | 0 <= r < depth
      ensures Hits(hash, width, stream, r, hash(key, r) % width) == Freq(stream, key)
        <==> Alone(hash, width, stream, r, key)
    {
      CellIsExact(hash, width, stream, r, key);
    }
  }

  lemma {:induction false} CellAtMost(hash: Hash, width: nat, stream: seq<nat>, r: nat, i: nat)
    requires width > 0
    ensures Hits(hash, width, stream, r, i) <= |stream|
  {
    if stream != [] { CellAtMost(hash, width, stream[..|stream| - 1], r, i); }
  }

  /** More accesses never lower an estimate. */
  lemma {:induction false} EstimateGrows(hash: Hash, width: nat, depth: nat, stream: seq<nat>, next: nat, key: nat)
    requires width > 0 && depth > 0
    ensures Estimate(hash, width, depth, stream, key) <= Estimate(hash, width, depth, stream + [next], key)
  {
    HitsExtend(hash, width, stream, next, depth - 1, hash(key, depth - 1) % width);
    if depth > 1 { EstimateGrows(hash, width, depth - 1, stream, next, key); }
  }

  function RowSum(cells: seq<nat>): nat {
    if cells == [] then 0 else RowSum(cells[..|cells| - 1]) + cells[|cells| - 1]
  }

  ghost function RowOf(hash: Hash, width: nat, stream: seq<nat>, r: nat): seq<nat>
    requires width > 0
  {
    seq(width, i requires 0 <= i < width => Hits(hash, width, stream, r, i))
  }

  lemma {:induction false} RowSumBump(cells: seq<nat>, i: nat)
    requires i < |cells|
    ensures RowSum(cells[i := cells[i] + 1]) == RowSum(cells) + 1
  {
    var n := |cells| - 1;
    var up := cells[i := cells[i] + 1];
    if i < n {
      assert up[..n] == cells[..n][i := cells[i] + 1];
      RowSumBump(cells[..n], i);
    } else {
      assert up[..n] == cells[..n];
    }
  }

  lemma {:induction false} RowSumZero(cells: seq<nat>)
    requires forall i :: 0 <= i < |cells| ==> cells[i] == 0
    ensures RowSum(cells) == 0
  {
    if cells != [] { RowSumZero(cells[..|cells| - 1]); }
  }

  /** Every row's counters sum to the length of the stream. */
  lemma {:induction false} RowSumsToStream(hash: Hash, width: nat, stream: seq<nat>, r: nat)
    requires width > 0
    ensures RowSum(RowOf(hash, width, stream, r)) == |stream|
  {
    var row := RowOf(hash, width, stream, r);
    if stream == [] {
      RowSumZero(row);
    } else {
      var init, key := stream[..|stream| - 1], stream[|stream| - 1];
      RowSumsToStream(hash, width, init, r);
      var before, i := RowOf(hash, width, init, r), hash(key, r) % width;
      RowSumBump(before, i);
      assert row == before[i := before[i] + 1];
    }
  }

  /** So do the counters of a row that holds the hit counts. */
  lemma CountersSumToStream(hash: Hash, width: nat, depth: nat, cells: seq<nat>, stream: seq<nat>, r: nat)
    requires width > 0 && r < depth && |cells| == Base(depth, width) && RowCounts(hash, width, depth, cells, stream, r)
    ensures RowSum(Slice(cells, r, depth, width)) == |stream|
  {
    assert Slice(cells, r, depth, width) == RowOf(hash, width, stream, r);
    RowSumsToStream(hash, width, stream, r);
  }

  // ---------- what the CAM means ----------

  ghost predicate CamOk(cam: seq<CamEntry>, k: nat) {
    |cam| <= k && forall i, j :: 0 <= i < j < |cam| ==> cam[i].key != cam[j].key
  }

  /** Total of the current estimates of the keys held. */
  ghost function Weight(hash: Hash, width: nat, depth: nat, stream: seq<nat>, cam: seq<CamEntry>): nat
    requires width > 0 && depth > 0
  {
    if cam == [] then 0
    else
      var last := Estimate(hash, width, depth, stream, cam[|cam| - 1].key);
      Weight(hash, width, depth, stream, cam[..|cam| - 1]) + last
  }

  lemma {:induction false} WeightGrows(hash: Hash, width: nat, depth: nat, stream: seq<nat>, next: nat,
                                       cam: seq<CamEntry>)
    requires width > 0 && depth > 0
    ensures Weight(hash, width, depth, stream, cam) <= Weight(hash, width, depth, stream + [next], cam)
  {
    if cam != [] {
      WeightGrows(hash, width, depth, stream, next, cam[..|cam| - 1]);
      EstimateGrows(hash, width, depth, stream, next, cam[|cam| - 1].key);
    }
  }

  lemma {:induction false} WeightSameKeys(hash: Hash, width: nat, depth: nat, stream: seq<nat>,
                                          a: seq<CamEntry>, b: seq<CamEntry>)
    requires width > 0 && depth > 0 && |a| == |b| && forall i :: 0 <= i < |a| ==> a[i].key == b[i].key
    ensures Weight(hash, width, depth, stream, a) == Weight(hash, width, depth, stream, b)
  {
    if a != [] { WeightSameKeys(hash, width, depth, stream, a[..|a| - 1], b[..|b| - 1]); }
  }

  lemma {:induction false} WeightReplace(hash: Hash, width: nat, depth: nat, stream: seq<nat>,
                                         cam: seq<CamEntry>, i: nat, x: CamEntry)
    requires width > 0 && depth > 0 && i < |cam|
    ensures Weight(hash, width, depth, stream, cam[i := x]) + Estimate(hash, width, depth, stream, cam[i].key)
      == Weight(hash, width, depth, stream, cam) + Estimate(hash, width, depth, stream, x.key)
  {
    var n := |cam| - 1;
    if i < n {
      assert cam[i := x][..n] == cam[..n][i := x];
      WeightReplace(hash, width, depth, stream, cam[..n], i, x);
    } else {
      assert cam[i := x][..n] == cam[..n];
    }
  }

  /** The first of the entries with the lowest cached estimate. */
  ghost predicate IsLowest(cam: seq<CamEntry>, at: nat)
    requires at < |cam|
  {
    && (forall i :: 0 <= i < |cam| ==> cam[at].est <= cam[i].est)
    && forall i :: 0 <= i < at ==> cam[at].est < cam[i].est
  }

  /** Every entry with its current estimate. */
  ghost function Refreshed(hash: Hash, width: nat, depth: nat, stream: seq<nat>, cam: seq<CamEntry>): seq<CamEntry>
    requires width > 0 && depth > 0
  {
    seq(|cam|, i requires 0 <= i < |cam| =>
      CamEntry(cam[i].key, Estimate(hash, width, depth, stream, cam[i].key)))
  }

  /** Offering a key against current estimates. */
  ghost predicate OfferedNow(hash: Hash, width: nat, depth: nat, stream: seq<nat>, cam: seq<CamEntry>, k: nat,
      key: nat, cam': seq<CamEntry>)
    requires width > 0 && depth > 0
  {
    exists at: nat, incumbent: nat ::
      && Offered(cam, k, key, Estimate(hash, width, depth, stream, key), incumbent, at, cam')
      && (at < |cam| ==> incumbent == Estimate(hash, width, depth, stream, cam[at].key))
  }

  /** Which entry yields, and to what, is fully determined. */
  lemma OfferIsDetermined(hash: Hash, width: nat, depth: nat, stream: seq<nat>, cam: seq<CamEntry>, k: nat, key: nat,
      a: seq<CamEntry>, b: seq<CamEntry>)
    requires width > 0 && depth > 0 && CamOk(cam, k)
    requires OfferedNow(hash, width, depth, stream, cam, k, key, a)
    requires OfferedNow(hash, width, depth, stream, cam, k, key, b)
    ensures a == b
  {
    var est := Estimate(hash, width, depth, stream, key);
    var i: nat, x: nat :| Offered(cam, k, key, est, x, i, a)
      && (i < |cam| ==> x == Estimate(hash, width, depth, stream, cam[i].key));
    var j: nat, y: nat :| Offered(cam, k, key, est, y, j, b)
      && (j < |cam| ==> y == Estimate(hash, width, depth, stream, cam[j].key));
    if i < |cam| && j < |cam| {
      assert (exists n :: 0 <= n < |cam| && cam[n].key == key) ==> i == j;
      assert IsLowest(cam, i) && IsLowest(cam, j) ==> i == j;
    }
  }

  /** What an offer does to the keys held: a held key stays, a free entry is taken, and in a full CAM
      the key whose cached estimate is lowest, the first of them, yields to a strictly better one. */
  lemma OfferMeans(hash: Hash, width: nat, depth: nat, stream: seq<nat>, cam: seq<CamEntry>, k: nat, key: nat,
      cam': seq<CamEntry>, at: nat)
    requires width > 0 && depth > 0 && CamOk(cam, k)
    requires OfferedNow(hash, width, depth, stream, cam, k, key, cam')
    ensures key in KeySet(cam) ==> KeySet(cam') == KeySet(cam)
    ensures key !in KeySet(cam) && |cam| < k ==> KeySet(cam') == KeySet(cam) + {key}
    ensures (
      && key !in KeySet(cam) && |cam| == k && at < k
      && (forall i :: 0 <= i < k ==> cam[at].est <= cam[i].est)
      && (forall i :: 0 <= i < at ==> cam[at].est < cam[i].est)) ==>
        KeySet(cam') == if Estimate(hash, width, depth, stream, key) > Estimate(hash, width, depth, stream, cam[at].key)
                        then KeySet(cam) - {cam[at].key} + {key} else KeySet(cam)
  {
    hide Estimate, KeySet, Offered;
    var est := Estimate(hash, width, depth, stream, key);
    var j: nat, x: nat :| Offered(cam, k, key, est, x, j, cam')
      && (j < |cam| ==> x == Estimate(hash, width, depth, stream, cam[j].key));
    OfferedKeys(cam, k, key, est, x, j, cam');
  }

  lemma OfferedKeys(cam: seq<CamEntry>, k: nat, key: nat, est: nat, incumbent: nat, at: nat, cam': seq<CamEntry>)
    requires CamOk(cam, k) && Offered(cam, k, key, est, incumbent, at, cam')
    ensures key in KeySet(cam) ==> KeySet(cam') == KeySet(cam)
    ensures key !in KeySet(cam) && |cam| < k ==> KeySet(cam') == KeySet(cam) + {key}
    ensures key !in KeySet(cam) && |cam| == k ==>
      && at < k
      && (forall i :: 0 <= i < k ==> cam[at].est <= cam[i].est)
      && (forall i :: 0 <= i < at ==> cam[at].est < cam[i].est)
      && KeySet(cam') == if est > incumbent then KeySet(cam) - {cam[at].key} + {key} else KeySet(cam)
  {
    if key in KeySet(cam) {
      SameKeySet(cam, cam');
    } else if |cam| < k {
      MoreKeySet(cam, CamEntry(key, est));
    } else {
      OtherKeySet(cam, at, cam'[at]);
    }
  }

  lemma SameKeySet(a: seq<CamEntry>, b: seq<CamEntry>)
    requires |a| == |b| && forall i :: 0 <= i < |a| ==> a[i].key == b[i].key
    ensures KeySet(a) == KeySet(b)
  {
    forall x ensures x in KeySet(a) <==> x in KeySet(b) {
      if x in KeySet(a) { var i :| 0 <= i < |a| && a[i].key == x; assert b[i].key == x; }
      if x in KeySet(b) { var i :| 0 <= i < |b| && b[i].key == x; assert a[i].key == x; }
    }
  }

  lemma MoreKeySet(a: seq<CamEntry>, e: CamEntry)
    ensures KeySet(a + [e]) == KeySet(a) + {e.key}
  {
    var b := a + [e];
    forall x | x in KeySet(a) + {e.key} ensures x in KeySet(b) {
      if x == e.key { assert b[|a|].key == x; } else { var i :| 0 <= i < |a| && a[i].key == x; assert b[i].key == x; }
    }
  }

  lemma OtherKeySet(a: seq<CamEntry>, at: nat, e: CamEntry)
    requires at < |a| && forall i, j :: 0 <= i < j < |a| ==> a[i].key != a[j].key
    ensures KeySet(a[at := e]) == KeySet(a) - {a[at].key} + {e.key}
  {
    var b := a[at := e];
    forall x | x in KeySet(a) - {a[at].key} + {e.key} ensures x in KeySet(b) {
      if x == e.key { assert b[at].key == x; } else { var i :| 0 <= i < |a| && a[i].key == x; assert b[i].key == x; }
    }
    forall x | x in KeySet(b) ensures x in KeySet(a) - {a[at].key} + {e.key} {
      var i :| 0 <= i < |b| && b[i].key == x;
      assert i != at ==> a[i].key == x;
    }
  }

  /** The CAM holds keys of the stream only, and all of them unless it is full. */
  ghost predicate Keeps(cam: seq<CamEntry>, stream: seq<nat>, k: nat) {
    && KeySet(cam) <= Counting.Elements(stream)
    && (|cam| == k || KeySet(cam) == Counting.Elements(stream))
  }

  lemma OfferKeeps(hash: Hash, width: nat, depth: nat, stream: seq<nat>, cam: seq<CamEntry>, k: nat, key: nat,
      cam': seq<CamEntry>)
    requires width > 0 && depth > 0 && CamOk(cam, k) && Keeps(cam, stream, k)
    requires OfferedNow(hash, width, depth, stream + [key], cam, k, key, cam')
    ensures Keeps(cam', stream + [key], k)
  {
    hide Estimate, KeySet, Offered, IsLowest;
    var est := Estimate(hash, width, depth, stream + [key], key);
    var j: nat, x: nat :| Offered(cam, k, key, est, x, j, cam')
      && (j < |cam| ==> x == Estimate(hash, width, depth, stream + [key], cam[j].key));
    OfferedKeys(cam, k, key, est, x, j, cam');
    OfferedSize(cam, k, key, est, x, j, cam');
    assert Counting.Elements(stream + [key]) == Counting.Elements(stream) + {key};
  }

  lemma OfferedSize(cam: seq<CamEntry>, k: nat, key: nat, est: nat, incumbent: nat, at: nat, cam': seq<CamEntry>)
    requires |cam| <= k && Offered(cam, k, key, est, incumbent, at, cam')
    ensures |cam'| == |cam| + if key in KeySet(cam) || |cam| == k then 0 else 1
  {
  }

  /** A CAM with room for every key of the stream holds them all. */
  lemma KeepsAll(cam: seq<CamEntry>, stream: seq<nat>, k: nat)
    requires CamOk(cam, k) && Keeps(cam, stream, k) && |Counting.Elements(stream)| <= k
    ensures KeySet(cam) == Counting.Elements(stream)
  {
    KeySetSize(cam);
    Counting.SubsetSize(KeySet(cam), Counting.Elements(stream));
  }

  lemma KeySetSize(cam: seq<CamEntry>)
    requires forall i, j :: 0 <= i < j < |cam| ==> cam[i].key != cam[j].key
    ensures |KeySet(cam)| == |cam|
  {
    var keys := seq(|cam|, i requires 0 <= i < |cam| => cam[i].key);
    Counting.DistinctSize(keys);
    assert KeySet(cam) == Counting.Elements(keys) by {
      forall x | x in KeySet(cam) ensures x in keys {
        var i :| 0 <= i < |cam| && cam[i].key == x;
        assert keys[i] == x;
      }
      forall x | x in keys ensures x in KeySet(cam) {
        var i :| 0 <= i < |keys| && keys[i] == x;
        assert cam[i].key == x;
      }
    }
  }

  /** The effect of offering a key whose current estimate is `est`. */
  ghost predicate Offered(cam: seq<CamEntry>, k: nat, key: nat, est: nat, incumbent: nat, at: nat,
      cam': seq<CamEntry>)
  {
    if exists i :: 0 <= i < |cam| && cam[i].key == key then
      at < |cam| && cam[at].key == key && cam' == cam[at := CamEntry(key, est)]
    else if |cam| < k then cam' == cam + [CamEntry(key, est)]
    else
      && at < |cam| && IsLowest(cam, at)
      && cam' == cam[at := if est > incumbent then CamEntry(key, est) else CamEntry(cam[at].key, incumbent)]
  }

  lemma OfferKeepsWeight(hash: Hash, width: nat, depth: nat, stream: seq<nat>, cam: seq<CamEntry>, k: nat,
                         key: nat, est: nat, incumbent: nat, at: nat, cam': seq<CamEntry>)
    requires width > 0 && depth > 0 && k > 0 && CamOk(cam, k)
    requires Offered(cam, k, key, est, incumbent, at, cam')
    requires est == Estimate(hash, width, depth, stream, key)
    requires at < |cam| ==> incumbent == Estimate(hash, width, depth, stream, cam[at].key)
    ensures CamOk(cam', k)
    ensures Weight(hash, width, depth, stream, cam) <= Weight(hash, width, depth, stream, cam')
  {
    if exists i :: 0 <= i < |cam| && cam[i].key == key {
      WeightSameKeys(hash, width, depth, stream, cam, cam');
    } else if |cam| < k {
      assert cam'[..|cam|] == cam;
    } else {
      WeightReplace(hash, width, depth, stream, cam, at, cam'[at]);
    }
  }

  /** A held key takes its new estimate. */
  lemma Renewed(hash: Hash, width: nat, depth: nat, stream: seq<nat>, cam: seq<CamEntry>, k: nat, key: nat, i: nat)
    requires width > 0 && depth > 0 && k > 0 && CamOk(cam, k) && i < |cam| && cam[i].key == key
    ensures var cam' := cam[i := CamEntry(key, Estimate(hash, width, depth, stream, key))];
      && CamOk(cam', k) && OfferedNow(hash, width, depth, stream, cam, k, key, cam')
      && Weight(hash, width, depth, stream, cam) <= Weight(hash, width, depth, stream, cam')
  {
    hide Weight, Estimate;
    var est := Estimate(hash, width, depth, stream, key);
    var cam' := cam[i := CamEntry(key, est)];
    assert Offered(cam, k, key, est, est, i, cam');
    OfferKeepsWeight(hash, width, depth, stream, cam, k, key, est, est, i, cam');
  }

  /** A new key takes a free entry. */
  lemma Added(hash: Hash, width: nat, depth: nat, stream: seq<nat>, cam: seq<CamEntry>, k: nat, key: nat)
    requires width > 0 && depth > 0 && k > 0 && CamOk(cam, k) && |cam| < k
    requires forall i :: 0 <= i < |cam| ==> cam[i].key != key
    ensures var cam' := cam + [CamEntry(key, Estimate(hash, width, depth, stream, key))];
      && CamOk(cam', k) && OfferedNow(hash, width, depth, stream, cam, k, key, cam')
      && Weight(hash, width, depth, stream, cam) <= Weight(hash, width, depth, stream, cam')
  {
    hide Weight, Estimate;
    var est := Estimate(hash, width, depth, stream, key);
    var cam' := cam + [CamEntry(key, est)];
    assert Offered(cam, k, key, est, 0, |cam|, cam');
    OfferKeepsWeight(hash, width, depth, stream, cam, k, key, est, 0, |cam|, cam');
  }

  /** The counters, row by row, are the hit counts of the stream; rows up to `done` also count one
      access more. */
  ghost predicate Sketches(hash: Hash, width: nat, depth: nat, cells: seq<nat>, stream: seq<nat>, next: seq<nat>,
      done: nat)
    requires width > 0
  {
    && |cells| == Base(depth, width)
    && (forall r :: 0 <= r < done && r < depth ==> RowCounts(hash, width, depth, cells, next, r))
    && (forall r :: done <= r < depth ==> RowCounts(hash, width, depth, cells, stream, r))
  }

  ghost predicate RowCounts(hash: Hash, width: nat, depth: nat, cells: seq<nat>, stream: seq<nat>, r: nat)
    requires width > 0 && r < depth && |cells| == Base(depth, width)
  {
    var row := Slice(cells, r, depth, width);
    forall i :: 0 <= i < width ==> row[i] == Hits(hash, width, stream, r, i)
  }

  lemma WriteRow(hash: Hash, width: nat, depth: nat, cells: seq<nat>, stream: seq<nat>, next: seq<nat>, r: nat, i: nat)
    requires width > 0 && r < depth && i < width && Sketches(hash, width, depth, cells, stream, next, r)
    requires forall j :: 0 <= j < width ==>
      Hits(hash, width, next, r, j) == Hits(hash, width, stream, r, j) + if j == i then 1 else 0
    ensures Base(r, width) + i < |cells|
    ensures var cells' := cells[Base(r, width) + i := cells[Base(r, width) + i] + 1];
      && Sketches(hash, width, depth, cells', stream, next, r + 1)
      && cells'[Base(r, width) + i] == Hits(hash, width, next, r, i)
  {
    assert RowCounts(hash, width, depth, cells, stream, r);
    var row := Slice(cells, r, depth, width);
    assert row[i] == cells[Base(r, width) + i];
    var x := row[i] + 1;
    SliceWrite(cells, r, depth, width, i, x);
    var cells' := cells[Base(r, width) + i := x];
    assert Slice(cells', r, depth, width) == row[i := x];
    assert RowCounts(hash, width, depth, cells', next, r);
    forall q | 0 <= q < r ensures RowCounts(hash, width, depth, cells', next, q) {
      OtherRow(hash, width, depth, cells, next, q, r, i, x);
    }
    forall q | r < q < depth ensures RowCounts(hash, width, depth, cells', stream, q) {
      OtherRow(hash, width, depth, cells, stream, q, r, i, x);
    }
  }

  lemma OtherRow(hash: Hash, width: nat, depth: nat, cells: seq<nat>, stream: seq<nat>, q: nat, r: nat, i: nat, x: nat)
    requires width > 0 && q < depth && r < depth && q != r && i < width && |cells| == Base(depth, width)
    requires RowCounts(hash, width, depth, cells, stream, q)
    ensures Base(r, width) + i < |cells|
    ensures RowCounts(hash, width, depth, cells[Base(r, width) + i := x], stream, q)
  {
    SliceWrite(cells, r, depth, width, i, x);
  }

  lemma RowAfter(hash: Hash, width: nat, stream: seq<nat>, key: nat, r: nat)
    requires width > 0
    ensures forall j :: 0 <= j < width ==>
      Hits(hash, width, stream + [key], r, j)
        == Hits(hash, width, stream, r, j) + if j == hash(key, r) % width then 1 else 0
  {
    forall j | 0 <= j < width
      ensures Hits(hash, width, stream + [key], r, j)
        == Hits(hash, width, stream, r, j) + if j == hash(key, r) % width then 1 else 0
    {
      HitsExtend(hash, width, stream, key, r, j);
    }
  }

  class CountMinTopK {
    const hash: Hash
    const depth: nat
    const width: nat
    const k: nat
    const refresh: nat
    var sinceRefresh: nat
    const counters: array<nat>
    var cam: seq<CamEntry>
    ghost var stream: seq<nat>

    ghost predicate Shaped()
      reads this, counters
    {
      && depth > 0 && width > 0 && k > 0 && refresh > 0
      && Sketches(hash, width, depth, counters[..], stream, stream, 0)
    }

    /** Cached estimates may be stale, but never exceed the current ones. */
    ghost predicate Valid()
      reads this, counters
    {
      && Shaped() && CamOk(cam, k)
      && forall i :: 0 <= i < |cam| ==> cam[i].est <= Current(cam[i].key)
    }

    /** Every row of the sketch adds up to the number of accesses since the last reset. */
    lemma RowsSumToStream(r: nat)
      requires Valid() && r < depth
      ensures |counters[..]| == Base(depth, width) && RowSum(Slice(counters[..], r, depth, width)) == |stream|
    {
      CountersSumToStream(hash, width, depth, counters[..], stream, r);
    }

    ghost function Current(key: nat): nat
      requires depth > 0 && width > 0
      reads this
    {
      Estimate(hash, width, depth, stream, key)
    }

    ghost function Held(): nat
      requires depth > 0 && width > 0
      reads this
    {
      Weight(hash, width, depth, stream, cam)
    }

    constructor (h: Hash, d: nat, w: nat, capacity: nat, interval: nat)
      requires d > 0 && w > 0 && capacity > 0
      ensures Valid() && fresh(counters) && stream == [] && cam == [] && k == capacity && Keeps(cam, stream, k)
      ensures hash == h && depth == d && width == w && sinceRefresh == 0
      ensures refresh == if interval > 0 then interval else 1
    {
      hash := h;
      depth, width, k := d, w, capacity;
      refresh := if interval > 0 then interval else 1;
      sinceRefresh := 0;
      counters := new nat[d * w](_ => 0);
      cam, stream := [], [];
      new;
      BaseIsProduct(d, w);
    }

    method Reset()
      requires Valid()
      modifies this, counters
      ensures Valid() && stream == [] && cam == [] && sinceRefresh == 0 && Keeps(cam, stream, k)
    {
      forall i | 0 <= i < counters.Length { counters[i] := 0; }
      cam, sinceRefresh, stream := [], 0, [];
    }

    /** One access: count it in every row, refresh the CAM when due, then offer the key. */
    method Access(key: nat)
      requires Valid()
      modifies this, counters
      ensures Valid() && stream == old(stream) + [key]
      ensures old(Held()) <= Held()
      ensures sinceRefresh == if old(sinceRefresh) + 1 >= refresh then 0 else old(sinceRefresh) + 1
      ensures var base := if old(sinceRefresh) + 1 >= refresh then Refreshed(hash, width, depth, stream, old(cam))
                          else old(cam);
        OfferedNow(hash, width, depth, stream, base, k, key, cam)
      ensures key in KeySet(cam) || (|cam| == k && exists i :: 0 <= i < |cam| && Current(key) <= Current(cam[i].key))
      ensures old(Keeps(cam, stream, k)) ==> Keeps(cam, stream, k)
    {
      ghost var was, held := stream, cam;
      var est := Bump(key);
      sinceRefresh := sinceRefresh + 1;
      if sinceRefresh >= refresh {
        ghost var before := cam;
        RefreshCam();
        assert cam == Refreshed(hash, width, depth, stream, before);
        sinceRefresh := 0;
      }
      ghost var base := cam;
      OfferToCam(key, est);
      if Keeps(held, was, k) {
        SameKeySet(held, base);
        OfferKeeps(hash, width, depth, was, base, k, key, cam);
      }
    }

    method Bump(key: nat) returns (est: nat)
      requires Valid()
      modifies `stream, counters
      ensures Valid() && stream == old(stream) + [key] && est == Current(key)
      ensures old(Held()) <= Held()
    {
      est := 0;
      ghost var s, s' := stream, stream + [key];
      for r := 0 to depth
        invariant Sketches(hash, width, depth, counters[..], s, s', r)
        invariant r > 0 ==> est == Estimate(hash, width, r, s', key)
      {
        BaseIsProduct(r, width);
        BaseBound(r, depth, width);
        var i := hash(key, r) % width;
        RowAfter(hash, width, s, key, r);
        var c := CountCell(r, i, s, s');
        if r == 0 || c < est { est := c; }
      }
      stream := s';
      WeightGrows(hash, width, depth, s, key, cam);
      forall i | 0 <= i < |cam| ensures cam[i].est <= Current(cam[i].key) {
        EstimateGrows(hash, width, depth, s, key, cam[i].key);
      }
    }

    method CountCell(r: nat, i: nat, ghost s: seq<nat>, ghost next: seq<nat>) returns (c: nat)
      requires width > 0 && r < depth && i < width && Sketches(hash, width, depth, counters[..], s, next, r)
      requires forall j :: 0 <= j < width ==>
        Hits(hash, width, next, r, j) == Hits(hash, width, s, r, j) + if j == i then 1 else 0
      modifies counters
      ensures Sketches(hash, width, depth, counters[..], s, next, r + 1) && c == Hits(hash, width, next, r, i)
    {
      hide Sketches, Hits, Base;
      WriteRow(hash, width, depth, counters[..], s, next, r, i);
      BaseIsProduct(r, width);
      counters[r * width + i] := counters[r * width + i] + 1;
      c := counters[r * width + i];
    }

    method Read(key: nat) returns (est: nat)
      requires Shaped()
      ensures est == Current(key)
    {
      est := 0;
      for r := 0 to depth
        invariant r > 0 ==> est == Estimate(hash, width, r, stream, key)
      {
        BaseIsProduct(r, width);
        BaseBound(r, depth, width);
        var i := hash(key, r) % width;
        assert RowCounts(hash, width, depth, counters[..], stream, r);
        assert Slice(counters[..], r, depth, width)[i] == counters[Base(r, width) + i];
        var c := counters[r * width + i];
        if r == 0 || c < est { est := c; }
      }
    }

    method RefreshCam()
      requires Valid()
      modifies `cam
      ensures Valid() && |cam| == old(|cam|) && Held() == old(Held())
      ensures forall i :: 0 <= i < |cam| ==> cam[i] == CamEntry(old(cam)[i].key, Current(old(cam)[i].key))
    {
      ghost var before := cam;
      for i := 0 to |cam|
        invariant Shaped() && |cam| == |before|
        invariant forall j :: 0 <= j < i ==> cam[j] == CamEntry(before[j].key, Current(before[j].key))
        invariant forall j :: i <= j < |cam| ==> cam[j] == before[j]
      {
        var e := Read(cam[i].key);
        cam := cam[i := CamEntry(cam[i].key, e)];
      }
      WeightSameKeys(hash, width, depth, stream, before, cam);
    }

    method OfferToCam(key: nat, est: nat)
      requires Valid() && est == Current(key)
      modifies `cam
      ensures Valid() && old(Held()) <= Held()
      ensures OfferedNow(hash, width, depth, stream, old(cam), k, key, cam)
      ensures key in KeySet(cam) || (|cam| == k && exists i :: 0 <= i < |cam| && Current(key) <= Current(cam[i].key))
    {
      hide Sketches, Offered, Weight, Estimate;
      ghost var before := cam;
      for i := 0 to |cam|
        invariant cam == before && forall j :: 0 <= j < i ==> cam[j].key != key
      {
        if cam[i].key == key {
          Renewed(hash, width, depth, stream, cam, k, key, i);
          cam := cam[i := CamEntry(key, est)];
          assert cam[i].key == key;
          return;
        }
      }
      if |cam| < k {
        Added(hash, width, depth, stream, cam, k, key);
        cam := cam + [CamEntry(key, est)];
        assert cam[|cam| - 1].key == key;
        return;
      }
      Challenge(key, est);
    }

    /** A full CAM: the lowest cached entry is re-read and yields only to a better estimate. */
    method Challenge(key: nat, est: nat)
      requires Valid() && est == Current(key) && |cam| == k && key !in KeySet(cam)
      modifies `cam
      ensures Valid() && old(Held()) <= Held()
      ensures OfferedNow(hash, width, depth, stream, old(cam), k, key, cam)
      ensures key in KeySet(cam) || (|cam| == k && exists i :: 0 <= i < |cam| && Current(key) <= Current(cam[i].key))
    {
      var min := LowestCached();
      var incumbent := Read(cam[min].key);
      ghost var cam' := cam[min := if est > incumbent then CamEntry(key, est) else CamEntry(cam[min].key, incumbent)];
      assert forall i :: 0 <= i < |cam| ==> cam[i].key in KeySet(cam);
      assert Offered(cam, k, key, est, incumbent, min, cam');
      OfferKeepsWeight(hash, width, depth, stream, cam, k, key, est, incumbent, min, cam');
      cam := cam[min := CamEntry(cam[min].key, incumbent)];
      if est > incumbent { cam := cam[min := CamEntry(key, est)]; }
      assert cam == cam';
      assert cam[min].key == key || Current(key) <= Current(cam[min].key);
    }

    method LowestCached() returns (min: nat)
      requires |cam| > 0
      ensures min < |cam| && IsLowest(cam, min)
    {
      min := 0;
      for i := 1 to |cam|
        invariant min < i && forall j :: 0 <= j < i ==> cam[min].est <= cam[j].est
        invariant forall j :: 0 <= j < min ==> cam[min].est < cam[j].est
      {
        if cam[i].est < cam[min].est { min := i; }
      }
    }

    /** The best n keys of the CAM by current, never cached, estimates. */
    method TopK(n: nat) returns (out: seq<nat>)
      requires Valid()
      modifies `cam
      ensures Valid() && KeySet(cam) == old(KeySet(cam)) && |cam| == old(|cam|) && Held() == old(Held())
      ensures Counting.Distinct(out)
      ensures forall i, j :: 0 <= i < j < |out| ==> Current(out[j]) <= Current(out[i])
      ensures IsTop(Estimates(hash, width, depth, stream, KeySet(cam)), n, Counting.Elements(out))
    {
      RefreshCam();
      assert KeySet(cam) == old(KeySet(cam));
      out := BestOf(cam, n, Estimates(hash, width, depth, stream, KeySet(cam)));
    }
  }

  method BestOf(cam: seq<CamEntry>, n: nat, ghost f: map<nat, nat>) returns (out: seq<nat>)
    requires forall i, j :: 0 <= i < j < |cam| ==> cam[i].key != cam[j].key
    requires f.Keys == KeySet(cam) && forall i :: 0 <= i < |cam| ==> f[cam[i].key] == cam[i].est
    ensures Counting.Distinct(out) && IsTop(f, n, Counting.Elements(out))
    ensures forall i :: 0 <= i < |out| ==> out[i] in f
    ensures forall i, j :: 0 <= i < j < |out| ==> f[out[j]] <= f[out[i]]
  {
    var v := seq(|cam|, i requires 0 <= i < |cam| => Ranked(cam[i].key, cam[i].est));
    CamLists(cam, v, f);
    var m := if n < |v| then n else |v|;
    var w := PartialSort(v, m);
    SortedStillLists(v, w, f);
    TakeIsTop(w, f, n, m);
    out := KeysOf(w[..m]);
  }

  lemma CamLists(cam: seq<CamEntry>, v: seq<Ranked>, f: map<nat, nat>)
    requires |v| == |cam| && forall i :: 0 <= i < |cam| ==> v[i] == Ranked(cam[i].key, cam[i].est)
    requires forall i, j :: 0 <= i < j < |cam| ==> cam[i].key != cam[j].key
    requires f.Keys == KeySet(cam) && forall i :: 0 <= i < |cam| ==> f[cam[i].key] == cam[i].est
    ensures Lists(v, f)
  {
    forall key | key in f ensures Ranked(key, f[key]) in v {
      var i :| 0 <= i < |cam| && cam[i].key == key;
      assert v[i] == Ranked(key, f[key]);
    }
  }

  ghost function KeySet(cam: seq<CamEntry>): set<nat> {
    set i | 0 <= i < |cam| :: cam[i].key
  }

  ghost function Estimates(hash: Hash, width: nat, depth: nat, stream: seq<nat>, keys: set<nat>): map<nat, nat>
    requires width > 0 && depth > 0
  {
    map key | key in keys :: Estimate(hash, width, depth, stream, key)
  }
}
