/** The chunked epoch reader: a file of records is read in fixed-size chunks and handed out one
    epoch at a time, although an epoch may span any number of chunks. */
module EpochReader {

  datatype Record = Record(epoch: nat, page: nat)

  /** The maximal stretches of equal epochs, in order. */
  function Runs(file: seq<Record>): (runs: seq<seq<Record>>)
    ensures AllUniform(runs)
    ensures file != [] ==> runs != []
  {
    if file == [] then [] else Extend(Runs(file[..|file| - 1]), file[|file| - 1])
  }

  ghost predicate Uniform(run: seq<Record>) {
    run != [] && forall i :: 0 <= i < |run| ==> run[i].epoch == run[0].epoch
  }

  ghost predicate AllUniform(runs: seq<seq<Record>>) {
    forall i {:trigger runs[i]} :: 0 <= i < |runs| ==> Uniform(runs[i])
  }

  function Extend(runs: seq<seq<Record>>, r: Record): (longer: seq<seq<Record>>)
    requires AllUniform(runs)
    ensures longer != [] && AllUniform(longer)
  {
    if runs == [] then [[r]]
    else
      var last := runs[|runs| - 1];
      if last[0].epoch == r.epoch then runs[..|runs| - 1] + [last + [r]] else runs + [[r]]
  }

  function Concat(runs: seq<seq<Record>>): seq<Record> {
    if runs == [] then [] else Concat(runs[..|runs| - 1]) + runs[|runs| - 1]
  }

  ghost predicate NeighboursDiffer(runs: seq<seq<Record>>)
    requires AllUniform(runs)
  {
    forall i :: 0 < i < |runs| ==> runs[i][0].epoch != runs[i - 1][0].epoch
  }

  lemma ExtendConcat(runs: seq<seq<Record>>, r: Record)
    requires AllUniform(runs)
    ensures Concat(Extend(runs, r)) == Concat(runs) + [r]
  {
    hide Uniform;
    var longer := Extend(runs, r);
    if runs == [] {
      assert longer[..0] == [];
    } else if |longer| == |runs| {
      var init, last := runs[..|runs| - 1], runs[|runs| - 1];
      assert longer[..|longer| - 1] == init;
      assert Concat(init) + (last + [r]) == Concat(init) + last + [r];
    } else {
      assert longer[..|longer| - 1] == runs;
    }
  }

  lemma ExtendDiffers(runs: seq<seq<Record>>, r: Record)
    requires AllUniform(runs) && NeighboursDiffer(runs)
    ensures NeighboursDiffer(Extend(runs, r))
  {
  }

  /** The runs put together are the file, and neighbouring runs differ in epoch. */
  lemma {:induction false} RunsPartition(file: seq<Record>)
    ensures Concat(Runs(file)) == file && NeighboursDiffer(Runs(file))
  {
    if file != [] {
      var init: seq<Record> := file[..|file| - 1];
      RunsPartition(init);
      ExtendConcat(Runs(init), file[|file| - 1]);
      ExtendDiffers(Runs(init), file[|file| - 1]);
      assert file == init + [file[|file| - 1]];
    }
  }

  /** More records only lengthen the last run and add runs after it. */
  lemma {:induction false} RunsGrow(a: seq<Record>, b: seq<Record>)
    requires a != []
    ensures var r, r' := Runs(a), Runs(a + b);
      var last := |r| - 1;
      |r'| >= |r| && r'[..last] == r[..last] && r'[last][0].epoch == r[last][0].epoch
    decreases |b|
  {
    if b == [] {
      assert a + b == a;
    } else {
      var b' := b[..|b| - 1];
      RunsGrow(a, b');
      assert (a + b)[..|a + b| - 1] == a + b';
    }
  }

  /** Epochs are numbered from zero without gaps. */
  ghost predicate Consecutive(runs: seq<seq<Record>>) {
    forall i :: 0 <= i < |runs| ==> |runs[i]| > 0 && runs[i][0].epoch == i
  }

  /** What has been yielded and what is pending are the runs of the records read so far. */
  ghost predicate ReadSoFar(read: seq<Record>, given: seq<seq<Record>>, pending: seq<Record>) {
    && Runs(read) == (if pending == [] then given else given + [pending])
    && (pending == [] ==> given == [])
    && Consecutive(given)
  }

  /** The records of whole chunks. */
  function Whole(n: nat, size: nat): (w: nat)
    requires size > 0
    ensures w <= n
  {
    if n < size then 0 else size + Whole(n - size, size)
  }

  /** The runs given are those before the first that is not numbered by its place. */
  ghost predicate Misnumbered(runs: seq<seq<Record>>, given: seq<seq<Record>>) {
    && given < runs && Consecutive(given)
    && |runs[|given|]| > 0 && runs[|given|][0].epoch != |given|
  }

  /** What has been given when reading fails: the runs before a misnumbered one, or all runs that the whole
      chunks before an incomplete record complete. */
  ghost predicate Stopped(file: seq<Record>, partial: bool, size: nat, given: seq<seq<Record>>)
    requires size > 0
  {
    || Misnumbered(Runs(file), given)
    || (partial && exists pending :: ReadSoFar(file[..Whole(|file|, size)], given, pending))
  }

  /** Reads the file to its end. `partial` says that an incomplete record follows the last one. */
  method Epochs(file: seq<Record>, partial: bool, size: nat) returns (given: seq<seq<Record>>, ok: bool)
    requires size > 0
    ensures ok <==> !partial && Consecutive(Runs(file))
    ensures ok ==> given == Runs(file)
    ensures !ok ==> Stopped(file, partial, size, given)
    ensures given <= Runs(file)
  {
    hide Runs, Consecutive, ReadSoFar, Whole, Misnumbered;
    given, ok := [], true;
    var pending: seq<Record> := [];
    var pos := 0;
    NothingRead(file);
    while true
      invariant pos <= |file| && ok && (partial ==> Whole(|file|, size) == pos + Whole(|file| - pos, size))
      invariant ReadSoFar(file[..pos], given, pending)
      decreases |file| - pos
    {
      ghost var before := pos;
      Progress(file, pos, given, pending);
      WholeNext(|file| - pos, size);
      if partial && |file| - pos < size { return given, false; }
      var data := if |file| - pos < size then file[pos..] else file[pos..pos + size];
      pos := pos + |data|;
      if pending + data == [] {
        EndOfFile(file, before, given, pending);
        return;
      }
      ghost var n;
      given, pending, ok, n := SplitBlock(pending, data, given, file[..before]);
      ReadOn(file, before, data, n, given, pending);
      Progress(file, before + n, given, pending);
      if !ok {
        WrongEpoch(Runs(file), given);
        return;
      }
      if |data| == 0 {
        EndOfFile(file, pos, given, pending);
        if pending[0].epoch != |given| {
          WrongEpoch(Runs(file), given);
          return given, false;
        }
        given := given + [pending];
        OneMoreEpoch(given);
        return;
      }
    }
  }

  /** After SplitBlock the records read so far include those it looked at. */
  lemma ReadOn(file: seq<Record>, before: nat, data: seq<Record>, n: nat, given: seq<seq<Record>>, rest: seq<Record>)
    requires before + |data| <= |file| && data == file[before..before + |data|] && n <= |data|
    requires Runs(file[..before] + data[..n]) == given + [rest] && rest != [] && Consecutive(given)
    ensures ReadSoFar(file[..before + n], given, rest)
  {
    hide Runs, Consecutive;
    Cuts(file, before, data, n);
  }

  /** What is known of the whole file after some of it has been read. */
  lemma Progress(file: seq<Record>, pos: nat, given: seq<seq<Record>>, pending: seq<Record>)
    requires pos <= |file| && ReadSoFar(file[..pos], given, pending)
    ensures given <= Runs(file) && Consecutive(given)
    ensures pending != [] ==> |Runs(file)| > |given| && |Runs(file)[|given|]| > 0
    ensures pending != [] ==> Runs(file)[|given|][0].epoch == pending[0].epoch
  {
    hide Runs, Consecutive;
    PrefixOfRuns(file, pos, given, pending);
  }

  lemma EndOfFile(file: seq<Record>, pos: nat, given: seq<seq<Record>>, pending: seq<Record>)
    requires pos == |file| && ReadSoFar(file[..pos], given, pending)
    ensures Runs(file) == (if pending == [] then given else given + [pending]) && Consecutive(given)
    ensures pending == [] ==> given == []
    ensures pending != [] ==> (given + [pending])[..|given|] == given && |pending| > 0
  {
    assert file[..pos] == file;
  }

  lemma Cuts(file: seq<Record>, before: nat, data: seq<Record>, n: nat)
    requires before + |data| <= |file| && data == file[before..before + |data|] && n <= |data|
    ensures file[..before] + data[..n] == file[..before + n]
  {
  }

  lemma NothingRead(file: seq<Record>)
    ensures ReadSoFar(file[..0], [], []) && Runs([]) == []
  {
    assert file[..0] == [];
  }

  lemma WrongEpoch(runs: seq<seq<Record>>, given: seq<seq<Record>>)
    requires given < runs && Consecutive(given) && |runs[|given|]| > 0 && runs[|given|][0].epoch != |given|
    ensures !Consecutive(runs) && Misnumbered(runs, given)
  {
  }

  lemma WholeNext(n: nat, size: nat)
    requires size > 0
    ensures Whole(n, size) == if n < size then 0 else size + Whole(n - size, size)
  {
  }

  lemma OneMoreEpoch(runs: seq<seq<Record>>)
    requires runs != [] && Consecutive(runs[..|runs| - 1])
    requires |runs[|runs| - 1]| > 0 && runs[|runs| - 1][0].epoch == |runs| - 1
    ensures Consecutive(runs)
  {
    assert forall i :: 0 <= i < |runs| - 1 ==> runs[i] == runs[..|runs| - 1][i];
  }

  /** The runs given so far are runs of the whole file, and the pending run tells the next epoch. */
  lemma PrefixOfRuns(file: seq<Record>, pos: nat, given: seq<seq<Record>>, pending: seq<Record>)
    requires pos <= |file|
    requires Runs(file[..pos]) == (if pending == [] then given else given + [pending])
    requires pending == [] ==> given == []
    ensures given <= Runs(file)
    ensures pending != [] ==> |Runs(file)| > |given| && |Runs(file)[|given|]| > 0
    ensures pending != [] ==> Runs(file)[|given|][0].epoch == pending[0].epoch
  {
    if pending != [] {
      RunsGrow(file[..pos], file[pos..]);
      assert file[..pos] + file[pos..] == file;
      assert (given + [pending])[..|given|] == given;
    }
  }

  /** Hands out every run that a block completes; the last one stays pending. n counts the records
      of the block looked at. */
  method SplitBlock(pending: seq<Record>, data: seq<Record>, before: seq<seq<Record>>, ghost done: seq<Record>)
    returns (given: seq<seq<Record>>, rest: seq<Record>, ok: bool, ghost n: nat)
    requires ReadSoFar(done, before, pending) && pending + data != []
    ensures n <= |data| && Runs(done + data[..n]) == given + [rest] && rest != [] && Consecutive(given)
    ensures ok ==> n == |data|
    ensures !ok ==> rest[0].epoch != |given|
  {
    hide Scan, Runs, ReadSoFar, Consecutive;
    var all := pending + data;
    given, ok := before, true;
    var start := 0;
    ScanFirst(done, pending, data, before);
    FirstRun(pending, data, before, done);
    for k := 1 to |all|
      invariant start < k && Scan(done, pending, data, before, k, start, given)
    {
      ScanNext(done, pending, data, before, k, start, given);
      if all[k].epoch != all[k - 1].epoch {
        if all[start].epoch != |given| {
          n := k - |pending|;
          return given, all[start..k], false, n;
        }
        given := given + [all[start..k]];
        start := k;
      }
    }
    rest, n := all[start..], |data|;
    ScanLast(done, pending, data, before, start, given);
  }

  /** The records all[..k] have been looked at; the current run starts at `start`. */
  ghost predicate Scan(done: seq<Record>, pending: seq<Record>, data: seq<Record>, before: seq<seq<Record>>,
      k: nat, start: nat, given: seq<seq<Record>>)
  {
    var all := pending + data;
    && start < k <= |all| && Consecutive(given)
    && (forall i :: 0 <= i < |pending| ==> pending[i].epoch == pending[0].epoch)
    && (k <= |pending| ==> start == 0 && given == before)
    && (k >= |pending| ==> Runs(done + data[..k - |pending|]) == given + [all[start..k]])
  }

  lemma ScanFirst(done: seq<Record>, pending: seq<Record>, data: seq<Record>, before: seq<seq<Record>>)
    requires ReadSoFar(done, before, pending) && pending + data != []
    ensures Scan(done, pending, data, before, 1, 0, before)
  {
    hide Runs, ReadSoFar, Consecutive;
    StartsConsecutive(done, before, pending);
    FirstRun(pending, data, before, done);
    var all := pending + data;
    if pending == [] {
      assert all[0..1] == data[..1];
    } else {
      assert |pending| == 1 ==> all[0..1] == pending;
    }
  }

  lemma ScanNext(done: seq<Record>, pending: seq<Record>, data: seq<Record>, before: seq<seq<Record>>,
      k: nat, start: nat, given: seq<seq<Record>>)
    requires Scan(done, pending, data, before, k, start, given) && k < |pending + data|
    requires pending != [] ==> Runs(done + data[..0]) == before + [pending]
    ensures var all := pending + data;
      if all[k].epoch == all[k - 1].epoch then Scan(done, pending, data, before, k + 1, start, given)
      else
        && k >= |pending|
        && all[start..k] != [] && all[start..k][0] == all[start]
        && Consecutive(given) && Runs(done + data[..k - |pending|]) == given + [all[start..k]]
        && (all[start].epoch == |given| ==> Scan(done, pending, data, before, k + 1, k, given + [all[start..k]]))
  {
    hide Runs, Consecutive;
    var all := pending + data;
    Slices(all, start, k);
    if k < |pending| {
      assert all[k] == pending[k] && all[k - 1] == pending[k - 1];
      assert k + 1 == |pending| ==> all[0..k + 1] == pending;
    } else {
      assert data[k - |pending|] == all[k];
      NextRecord(done, data, k - |pending|, given, all[start..k]);
      if all[k].epoch != all[k - 1].epoch && all[start].epoch == |given| { NextConsecutive(given, all[start..k]); }
    }
  }

  lemma ScanLast(done: seq<Record>, pending: seq<Record>, data: seq<Record>, before: seq<seq<Record>>,
      start: nat, given: seq<seq<Record>>)
    requires Scan(done, pending, data, before, |pending + data|, start, given)
    ensures Runs(done + data[..|data|]) == given + [(pending + data)[start..]]
    ensures (pending + data)[start..] != [] && Consecutive(given)
  {
    hide Runs, Consecutive;
    var all := pending + data;
    assert all[start..|all|] == all[start..];
  }

  /** Where a run is extended by its next record, or ends before it. */
  lemma Slices(all: seq<Record>, start: nat, k: nat)
    requires start < k < |all|
    ensures all[start..k + 1] == all[start..k] + [all[k]] && all[k..k + 1] == [all[k]]
    ensures all[start..k] != [] && all[start..k][0] == all[start] && all[start..k][|all[start..k]| - 1] == all[k - 1]
  {
  }

  lemma StartsConsecutive(done: seq<Record>, before: seq<seq<Record>>, pending: seq<Record>)
    requires ReadSoFar(done, before, pending)
    ensures Consecutive(before)
  {
  }

  lemma NextConsecutive(given: seq<seq<Record>>, run: seq<Record>)
    requires Consecutive(given) && run != [] && run[0].epoch == |given|
    ensures Consecutive(given + [run])
  {
  }

  lemma FirstRun(pending: seq<Record>, data: seq<Record>, before: seq<seq<Record>>, done: seq<Record>)
    requires ReadSoFar(done, before, pending) && pending + data != []
    ensures pending != [] ==> Runs(done + data[..0]) == before + [pending]
    ensures forall i :: 0 <= i < |pending| ==> pending[i].epoch == pending[0].epoch
    ensures pending == [] ==> |data| > 0 && Runs(done + data[..1]) == before + [data[..1]]
  {
    assert done + data[..0] == done;
    if pending == [] {
      FirstRecord(data, before, done);
    } else {
      hide Runs;
      assert (before + [pending])[|before|] == pending;
      assert Uniform(Runs(done)[|before|]);
    }
  }

  lemma FirstRecord(data: seq<Record>, before: seq<seq<Record>>, done: seq<Record>)
    requires ReadSoFar(done, before, []) && data != []
    ensures Runs(done + data[..1]) == before + [data[..1]]
  {
    hide Consecutive;
    assert done == [] && before == [];
    assert done + data[..1] == [data[0]] == data[..1];
    assert [data[0]][..0] == [];
  }

  lemma NextRecord(done: seq<Record>, data: seq<Record>, i: nat, given: seq<seq<Record>>, run: seq<Record>)
    requires i < |data| && Runs(done + data[..i]) == given + [run]
    ensures run != [] && run[|run| - 1].epoch == run[0].epoch
    ensures Runs(done + data[..i + 1])
      == if run[0].epoch == data[i].epoch then given + [run + [data[i]]] else given + [run] + [[data[i]]]
  {
    var s := done + data[..i + 1];
    assert s[..|s| - 1] == done + data[..i];
    assert (given + [run])[|given|] == run;
    assert Uniform(Runs(done + data[..i])[|given|]);
    assert (given + [run])[..|given|] == given;
  }

  // ---------- what the reader accepts ----------

  /** Epochs start at zero and go on from one to the same or the next. */
  ghost predicate Counts(file: seq<Record>) {
    && (file != [] ==> file[0].epoch == 0)
    && forall i :: 0 < i < |file| ==> file[i].epoch == file[i - 1].epoch || file[i].epoch == file[i - 1].epoch + 1
  }

  lemma CountsNext(file: seq<Record>)
    requires |file| > 1
    ensures var init, x, y := file[..|file| - 1], file[|file| - 2], file[|file| - 1];
      Counts(file) <==> Counts(init) && (y.epoch == x.epoch || y.epoch == x.epoch + 1)
  {
    var init := file[..|file| - 1];
    assert forall i :: 0 <= i < |init| ==> init[i] == file[i];
  }

  lemma ExtendCounts(runs: seq<seq<Record>>, r: Record)
    requires AllUniform(runs)
    ensures var longer := Extend(runs, r); var last := longer[|longer| - 1];
      && last != [] && last[0].epoch == r.epoch
      && (Consecutive(longer) ==> Consecutive(runs))
      && (Consecutive(runs) ==>
            (Consecutive(longer) <==>
              r.epoch == |runs| || (runs != [] && r.epoch == runs[|runs| - 1][0].epoch)))
  {
    var longer := Extend(runs, r);
    if runs != [] {
      var last := runs[|runs| - 1];
      assert Uniform(last);
      assert forall i :: 0 <= i < |runs| - 1 ==> longer[i] == runs[i];
      assert longer[|runs| - 1][0] == last[0];
    }
  }

  /** The runs of a file are numbered from zero if and only if its epochs count so. */
  lemma {:induction false} ConsecutiveMeans(file: seq<Record>)
    ensures Consecutive(Runs(file)) <==> Counts(file)
    ensures file != [] ==>
      Runs(file)[|Runs(file)| - 1] != [] && Runs(file)[|Runs(file)| - 1][0].epoch == file[|file| - 1].epoch
  {
    hide Consecutive, Counts, Extend;
    if file == [] {
      NothingCounts();
    } else {
      var init, r := file[..|file| - 1], file[|file| - 1];
      ConsecutiveMeans(init);
      ExtendCounts(Runs(init), r);
      if init == [] {
        OneCounts(file);
      } else {
        CountsNext(file);
        if Consecutive(Runs(init)) { LastOfConsecutive(Runs(init)); }
      }
    }
  }

  lemma NothingCounts()
    ensures Consecutive([]) && Counts([])
  {
  }

  lemma OneCounts(file: seq<Record>)
    requires |file| == 1
    ensures Counts(file) <==> file[0].epoch == 0
    ensures Consecutive([])
  {
  }

  lemma LastOfConsecutive(runs: seq<seq<Record>>)
    requires Consecutive(runs) && runs != []
    ensures runs[|runs| - 1] != [] && runs[|runs| - 1][0].epoch == |runs| - 1
  {
  }
}
