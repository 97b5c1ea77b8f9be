/** The simulator-facing probe: exact counters and bounded trackers fed the same requests, scored
    against each other and reset together at the end of every epoch. */
module Probe {
  import Bits
  import Counting
  import opened CacheSpec
  import opened Scoring
  import opened CounterSpec
  import opened CounterTable
  import opened CountMin
  import opened SpaceSaving
  import opened Trackers
  import opened ProbeSpec
  import opened Agreement
  import Summary

  datatype EpochResult = EpochResult(epoch: nat, pages: nat, accesses: nat, words: nat, uniqueHist: seq<nat>,
                                     hpt: seq<Score>, hwt: seq<Score>)

  /** What a report says about the requests of its epoch. */
  ghost predicate Reports(r: EpochResult, stream: seq<Event>) {
    && r.pages == |TouchedPages(stream)| && r.accesses == |stream|
    && r.words == |LinesIn(stream, TouchedPages(stream))|
    && |r.uniqueHist| == 65 && forall n :: 0 <= n <= 64 ==> r.uniqueHist[n] == |UniquePages(stream, n)|
  }

  /** Every page tracker is scored on the page stream and every word tracker on the line stream. */
  ghost predicate AllScored(ts: seq<Tracker>, stream: seq<nat>, exact: map<nat, nat>, k: nat, scores: seq<Score>) {
    |scores| == |ts| && forall i :: 0 <= i < |ts| ==> Scored(ts[i], stream, exact, k, scores[i])
  }

  // ---------- lists of trackers ----------

  ghost function AllRepr(ts: seq<Tracker>): set<object> {
    set i, o | 0 <= i < |ts| && o in Repr(ts[i]) :: o
  }

  ghost predicate Separate(ts: seq<Tracker>) {
    forall i, j :: 0 <= i < j < |ts| ==> Repr(ts[i]) !! Repr(ts[j])
  }

  /** All of the trackers have seen the same stream. */
  ghost predicate AllSeen(ts: seq<Tracker>, stream: seq<nat>)
    reads AllRepr(ts)
  {
    forall i :: 0 <= i < |ts| ==> Seen(ts[i]) == Some(stream)
  }

  method FeedAll(ts: seq<Tracker>, key: nat, ghost stream: seq<nat>)
    requires Separate(ts) && AllSeen(ts, stream)
    modifies AllRepr(ts)
    ensures AllSeen(ts, stream + [key])
  {
    hide Seen;
    for i := 0 to |ts|
      invariant forall j :: 0 <= j < |ts| ==> Seen(ts[j]) == Some(if j < i then stream + [key] else stream)
    {
      Feed(ts[i], key);
    }
  }

  method ClearAll(ts: seq<Tracker>, ghost stream: seq<nat>)
    requires Separate(ts) && AllSeen(ts, stream)
    modifies AllRepr(ts)
    ensures AllSeen(ts, [])
  {
    hide Seen;
    for i := 0 to |ts|
      invariant forall j :: 0 <= j < |ts| ==> Seen(ts[j]) == Some(if j < i then [] else stream)
    {
      Clear(ts[i]);
    }
  }

  method ScoreAll(ts: seq<Tracker>, exact: map<nat, nat>, k: nat, ghost stream: seq<nat>) returns (scores: seq<Score>)
    requires Separate(ts) && AllSeen(ts, stream)
    modifies AllRepr(ts)
    ensures AllSeen(ts, stream) && AllScored(ts, stream, exact, k, scores)
  {
    hide Seen, Scored;
    scores := [];
    for i := 0 to |ts|
      invariant forall j :: 0 <= j < |ts| ==> Seen(ts[j]) == Some(stream)
      invariant |scores| == i && forall j :: 0 <= j < i ==> Scored(ts[j], stream, exact, k, scores[j])
    {
      var s := ScoreTracker(ts[i], exact, k);
      scores := scores + [s];
    }
  }

  /** The requests of the open epoch and of the closed ones. */
  datatype Log = Log(closed: seq<seq<Event>>, stream: seq<Event>)

  function Closed(g: Log): Log {
    if g.stream == [] then g else Log(g.closed + [g.stream], [])
  }

  /** One request, with an epoch closed after every n requests if n is positive. */
  function Logged(n: nat, g: Log, e: Event): Log {
    var g' := Log(g.closed, g.stream + [e]);
    if n > 0 && |g'.stream| >= n then Closed(g') else g'
  }

  function LoggedAll(n: nat, g: Log, es: seq<Event>): Log {
    if es == [] then g else Logged(n, LoggedAll(n, g, es[..|es| - 1]), es[|es| - 1])
  }

  lemma LoggedNothing(n: nat, g: Log, es: seq<Event>)
    ensures LoggedAll(n, g, es[..0]) == g
  {
  }

  lemma LoggedOne(n: nat, g: Log, es: seq<Event>, i: nat)
    requires i < |es|
    ensures LoggedAll(n, g, es[..i + 1]) == Logged(n, LoggedAll(n, g, es[..i]), es[i])
  {
    assert es[..i + 1][..i] == es[..i];
  }

  /** One event for every line that the bytes touch; a request that runs past the top of the address
      space touches none. */
  function RequestLines(addr: nat, bytes: nat, write: bool): seq<Event>
    requires addr < ADDRESSES
  {
    if bytes == 0 || addr + bytes > ADDRESSES then []
    else
      var first, last := addr / 64, (addr + bytes - 1) / 64;
      seq(last - first + 1, i requires 0 <= i <= last - first => Event(first + i, write))
  }

  /** A request inside the address space is one event for exactly the lines that its bytes lie in, each
      once, in ascending order and of its kind; one that wraps is none. */
  lemma RequestedLines(addr: nat, bytes: nat, write: bool)
    requires addr < ADDRESSES
    ensures var es := RequestLines(addr, bytes, write);
      && (forall x: Line ::
            Event(x, write) in es <==> addr + bytes <= ADDRESSES && HasByteIn(addr, bytes, x))
      && (forall i :: 0 <= i < |es| ==> es[i].write == write)
      && (forall i, j :: 0 <= i < j < |es| ==> es[i].line < es[j].line)
  {
    var es := RequestLines(addr, bytes, write);
    forall x: Line
      ensures Event(x, write) in es <==> addr + bytes <= ADDRESSES && HasByteIn(addr, bytes, x)
    {
      SpanMembers(addr, bytes, x);
      if bytes > 0 && addr + bytes <= ADDRESSES {
        var first, last := addr / 64, (addr + bytes - 1) / 64;
        if first <= x <= last { assert es[x - first] == Event(x, write); }
      }
    }
  }

  function Concat(parts: seq<seq<Event>>): seq<Event> {
    if parts == [] then [] else Concat(parts[..|parts| - 1]) + parts[|parts| - 1]
  }

  /** No request is lost or counted twice, and the clock closes epochs of exactly n requests. */
  lemma {:induction false} EpochsPartitionRequests(n: nat, es: seq<Event>)
    ensures var g := LoggedAll(n, Log([], []), es);
      && Concat(g.closed) + g.stream == es
      && (n > 0 ==> |g.stream| < n && forall i :: 0 <= i < |g.closed| ==> |g.closed[i]| == n)
      && (n == 0 ==> g.closed == [])
  {
    if es != [] {
      var init, e := es[..|es| - 1], es[|es| - 1];
      EpochsPartitionRequests(n, init);
      var g := LoggedAll(n, Log([], []), init);
      var full := g.stream + [e];
      assert (g.closed + [full])[..|g.closed|] == g.closed;
      assert Concat(g.closed + [full]) + [] == Concat(g.closed) + full;
      assert Concat(g.closed) + full == Concat(g.closed) + g.stream + [e];
      assert init + [e] == es;
    }
  }

  ghost predicate NoneEmpty(closed: seq<seq<Event>>) {
    forall i :: 0 <= i < |closed| ==> closed[i] != []
  }

  lemma {:induction false} LoggedNotEmpty(n: nat, es: seq<Event>)
    ensures NoneEmpty(LoggedAll(n, Log([], []), es).closed)
  {
    if es != [] { LoggedNotEmpty(n, es[..|es| - 1]); }
  }

  /** No epoch without requests is ever closed, by the clock or by a call; closing loses nothing and
      leaves nothing open. */
  lemma ClosedEpochsAreNotEmpty(n: nat, es: seq<Event>)
    ensures var g := LoggedAll(n, Log([], []), es);
      && NoneEmpty(g.closed) && NoneEmpty(Closed(g).closed)
      && Closed(g).stream == [] && Concat(Closed(g).closed) == es
  {
    hide LoggedAll;
    var g := LoggedAll(n, Log([], []), es);
    EpochsPartitionRequests(n, es);
    LoggedNotEmpty(n, es);
    assert (g.closed + [g.stream])[..|g.closed|] == g.closed;
    assert g.stream == [] ==> Concat(g.closed) + g.stream == Concat(g.closed);
  }

  function Zeroes(n: nat, k: nat): seq<Score> {
    seq(n, _ => Score(0, 0, 0, k))
  }

  class Probe {
    const topK: nat
    const trackWords: bool
    const epochAccesses: nat
    const hpt: seq<Tracker>
    const hwt: seq<Tracker>
    const counters: CounterTable
    var epoch: nat
    var sinceEpoch: nat
    var results: seq<EpochResult>
    ghost const pageParts: set<object>
    ghost const wordParts: set<object>
    ghost var closed: seq<seq<Event>>

    ghost predicate Apart()
      reads counters`owned
    {
      && Separate(hpt) && Separate(hwt) && |hwt| == |hpt|
      && pageParts == AllRepr(hpt) && wordParts == AllRepr(hwt) && pageParts !! wordParts
      && counters.owned !! pageParts + wordParts && {this, counters} !! counters.owned + pageParts + wordParts
    }

    ghost predicate Reported(r: EpochResult, stream: seq<Event>) {
      && Reports(r, stream)
      && AllScored(hpt, PageStream(stream), ExactPages(stream), topK, r.hpt)
      && if trackWords then
           AllScored(hwt, LineStream(stream), ExactWords(stream, TouchedPages(stream)), topK, r.hwt)
         else r.hwt == Zeroes(|hwt|, topK)
    }

    function WordStream(stream: seq<Event>): seq<nat> {
      if trackWords then LineStream(stream) else []
    }

    /** The trackers have seen exactly what the counters counted since the last epoch. */
    ghost predicate InStep()
      requires Apart()
      reads counters, counters.owned, pageParts, wordParts
    {
      && counters.Contents().Some?
      && AllSeen(hpt, PageStream(counters.Contents().value))
      && AllSeen(hwt, WordStream(counters.Contents().value))
    }

    ghost predicate Valid()
      reads this, counters, counters.owned, pageParts, wordParts
    {
      && Apart() && InStep()
      && |results| == |closed| == epoch
      && forall i :: 0 <= i < epoch ==> results[i].epoch == i && Reported(results[i], closed[i])
    }

    ghost function Contents(): Log
      requires Valid()
      reads this, counters, counters.owned, pageParts, wordParts
    {
      Log(closed, counters.Contents().value)
    }

    /** The automatic clock counts the requests of the open epoch. */
    ghost predicate Clocked()
      requires Valid()
      reads this, counters, counters.owned, pageParts, wordParts
    {
      epochAccesses > 0 ==> sinceEpoch == |Contents().stream| < epochAccesses
    }

    /** In every report: a Space-Saving page tracker of N slots falls short of the ideal by at most
        k * n / N for the n requests of its epoch, and so does a word tracker unless some word was
        requested more often than its counter can hold. */
    lemma ScoresAreAccurate(e: nat, i: nat)
      requires Valid() && e < epoch && i < |hpt|
      ensures |results[e].hpt| == |results[e].hwt| == |hpt| == |hwt|
      ensures var n, s := |closed[e]|, results[e].hpt[i];
        hpt[i].Saving? ==> hpt[i].ss.cap * s.ideal <= hpt[i].ss.cap * s.picked + topK * n
      ensures var n, s := |closed[e]|, results[e].hwt[i];
        trackWords && hwt[i].Saving? && (forall l: nat :: LineCount(closed[e], l) <= WORD_MAX) ==>
          hwt[i].ss.cap * s.ideal <= hwt[i].ss.cap * s.picked + topK * n
    {
      var stream := closed[e];
      assert Reported(results[e], stream);
      hide Apart, InStep, Reports;
      PagesAreExact(stream);
      WordsAreExact(stream, TouchedPages(stream));
      StreamSizes(stream);
    }

    /** A tracker that can tell all pages of an epoch apart reports the ideal sum and hits with every pick;
        so does a word tracker unless some word was requested more often than its counter can hold. */
    lemma RoomyScoresArePerfect(e: nat, i: nat)
      requires Valid() && e < epoch && i < |hpt|
      ensures |results[e].hpt| == |results[e].hwt| == |hpt| == |hwt|
      ensures var n, s := |TouchedPages(closed[e])|, results[e].hpt[i];
        Roomy(hpt[i], PageStream(closed[e])) ==> s.picked == s.ideal && s.hits == if topK < n then topK else n
      ensures var n, s := |LinesIn(closed[e], TouchedPages(closed[e]))|, results[e].hwt[i];
        trackWords && Roomy(hwt[i], LineStream(closed[e])) && (forall l: nat :: LineCount(closed[e], l) <= WORD_MAX) ==>
          s.picked == s.ideal && s.hits == if topK < n then topK else n
    {
      var stream := closed[e];
      assert Reported(results[e], stream);
      hide Apart, InStep, Reports, Roomy, Scored, LinesIn;
      PagesAreExact(stream);
      WordsAreExact(stream, TouchedPages(stream));
      KeysOfStreams(stream);
      if Roomy(hpt[i], PageStream(stream)) {
        RoomyIsPerfect(hpt[i], PageStream(stream), ExactPages(stream), topK, results[e].hpt[i]);
      }
      if trackWords && Roomy(hwt[i], LineStream(stream)) && forall l: nat :: LineCount(stream, l) <= WORD_MAX {
        RoomyIsPerfect(hwt[i], LineStream(stream), ExactWords(stream, TouchedPages(stream)), topK, results[e].hwt[i]);
      }
    }

    constructor (k: nat, words: bool, interval: nat, pages: seq<Tracker>, lines: seq<Tracker>)
      requires Separate(pages) && Separate(lines) && AllRepr(pages) !! AllRepr(lines) && |pages| == |lines|
      requires AllSeen(pages, []) && AllSeen(lines, [])
      ensures Valid() && Clocked() && Contents() == Log([], [])
      ensures topK == k && trackWords == words && epochAccesses == interval && hpt == pages && hwt == lines
    {
      hide AllSeen, Separate, Reported, counters.Contents;
      assert PageStream([]) == [] && LineStream([]) == [];
      pageParts, wordParts := AllRepr(pages), AllRepr(lines);
      topK, trackWords, epochAccesses, hpt, hwt := k, words, interval, pages, lines;
      epoch, sinceEpoch, results, closed := 0, 0, [], [];
      counters := new CounterTable();
    }

    /** Records one line in the counters and feeds it to every tracker. */
    method Note(line: Line, write: bool)
      requires Valid()
      modifies counters, counters.owned, pageParts, wordParts
      ensures Valid() && Contents() == Log(old(closed), old(Contents().stream) + [Event(line, write)])
      ensures fresh(counters.owned - old(counters.owned))
    {
      hide counters.Contents, AllSeen, AllRepr, Separate, Reported;
      ghost var stream, e := counters.Contents().value, Event(line, write);
      OneMoreKey(stream, e);
      counters.Record(line, write);
      var page := PageOf(line);
      FeedAll(hpt, page, PageStream(stream));
      if trackWords { FeedAll(hwt, line, LineStream(stream)); }
    }

    /** One line-sized request; closes the epoch when its clock is due. */
    method OnLine(physAddr: nat, write: bool)
      requires physAddr < ADDRESSES && Valid() && Clocked()
      modifies this, counters, counters.owned, pageParts, wordParts
      ensures Valid() && Clocked() && fresh(counters.owned - old(counters.owned))
      ensures Contents() == Logged(epochAccesses, old(Contents()), Event(physAddr / 64, write))
    {
      hide counters.Contents, AllSeen, AllRepr, Separate, Reported;
      var line := LineOf(physAddr);
      Note(line, write);
      if epochAccesses > 0 {
        Tick();
        if sinceEpoch >= epochAccesses { EndEpoch(); }
      }
    }

    /** A request of several bytes is one request for every line it touches. */
    method OnRequest(physAddr: nat, write: bool, bytes: nat)
      requires physAddr < ADDRESSES && bytes < 0x1_0000_0000 && Valid() && Clocked()
      modifies this, counters, counters.owned, pageParts, wordParts
      ensures Valid() && Clocked() && fresh(counters.owned - old(counters.owned))
      ensures Contents() == LoggedAll(epochAccesses, old(Contents()), RequestLines(physAddr, bytes, write))
    {
      hide Valid, Contents, Clocked, Logged;
      if bytes == 0 { return; }
      var first: nat := LineOf(physAddr);
      var last: nat := LineOf((physAddr + bytes - 1) % ADDRESSES);
      var count := if first <= last then last - first + 1 else 0;
      ghost var before, requests := Contents(), RequestLines(physAddr, bytes, write);
      ghost var mine := counters.owned;
      LoggedNothing(epochAccesses, before, requests);
      assert |requests| == count;
      for i := 0 to count
        invariant Valid() && Clocked() && Contents() == LoggedAll(epochAccesses, before, requests[..i])
        invariant forall o :: o in counters.owned ==> o in mine || fresh(o)
      {
        var byteAddr := ByteAddress(first + i);
        ghost var held := counters.owned;
        OnLine(byteAddr, write);
        forall o | o in counters.owned ensures o in mine || fresh(o) {
          if o !in held { assert o in counters.owned - held; }
        }
        LoggedOne(epochAccesses, before, requests, i);
      }
      assert requests[..|requests|] == requests;
    }

    method Tick()
      requires Valid()
      modifies `sinceEpoch
      ensures Valid() && Contents() == old(Contents()) && sinceEpoch == old(sinceEpoch) + 1
    {
      sinceEpoch := sinceEpoch + 1;
    }

    method Measure() returns (r: EpochResult)
      requires Valid()
      modifies pageParts, wordParts
      ensures Valid() && Contents() == old(Contents())
      ensures r.epoch == epoch && Reported(r, Contents().stream)
    {
      hide counters.Contents, AllSeen, AllRepr, Separate, AllScored, UniquePages, TouchedPages, LinesIn;
      hide Zeroes, ExactPages, ExactWords;
      ghost var stream := counters.Contents().value;
      var vs := counters.TouchedPageList();
      var pages, accesses, words, hist := Describe(vs, stream);
      var exact := BuildPages(vs, stream);
      var h := ScoreAll(hpt, exact, topK, PageStream(stream));
      var w := Zeroes(|hwt|, topK);
      if trackWords {
        var exactWords := BuildWords(vs, stream);
        w := ScoreAll(hwt, exactWords, topK, LineStream(stream));
      }
      r := EpochResult(epoch, pages, accesses, words, hist, h, w);
    }

    method Reset(r: EpochResult)
      requires Valid() && r.epoch == epoch && Reported(r, Contents().stream)
      modifies this, counters, counters.owned, pageParts, wordParts
      ensures Valid() && Contents() == Log(old(closed) + [old(Contents().stream)], [])
      ensures sinceEpoch == 0 && counters.owned == old(counters.owned)
    {
      hide counters.Contents, AllSeen, AllRepr, Separate, Reported;
      ghost var stream := counters.Contents().value;
      ClearTrackers();
      counters.ResetCounters();
      results, closed := results + [r], closed + [stream];
      epoch, sinceEpoch := epoch + 1, 0;
      assert PageStream([]) == [] && LineStream([]) == [];
    }

    method ClearTrackers()
      requires Apart() && InStep()
      modifies pageParts, wordParts
      ensures AllSeen(hpt, []) && AllSeen(hwt, []) && counters.Contents() == old(counters.Contents())
    {
      hide counters.Contents, AllSeen, AllRepr, Separate;
      ghost var stream := counters.Contents().value;
      ClearAll(hpt, PageStream(stream));
      ClearAll(hwt, WordStream(stream));
    }

    /** Scores the trackers against the exact counts, reports and resets both; an epoch without
        requests is not reported. */
    method EndEpoch()
      requires Valid()
      modifies this, counters, counters.owned, pageParts, wordParts
      ensures Valid() && Contents() == Closed(old(Contents()))
      ensures old(Contents()).stream != [] ==> sinceEpoch == 0
      ensures old(Contents()).stream == [] ==> sinceEpoch == old(sinceEpoch)
      ensures counters.owned == old(counters.owned)
    {
      hide counters.Contents, AllSeen, AllRepr, Separate, AllScored;
      var r := Measure();
      SomePages(Contents().stream);
      if r.pages == 0 { return; }
      Reset(r);
    }
  }

  lemma StreamSizes(stream: seq<Event>)
    ensures |PageStream(stream)| == |LineStream(stream)| == |stream|
  {
  }

  lemma KeysOfStreams(stream: seq<Event>)
    ensures Counting.Elements(PageStream(stream)) == TouchedPages(stream)
    ensures Counting.Elements(LineStream(stream)) == LinesIn(stream, TouchedPages(stream))
  {
    forall x ensures x in PageStream(stream) <==> x in TouchedPages(stream) {
      if x in TouchedPages(stream) {
        var i :| 0 <= i < |stream| && stream[i].line / 64 == x;
        assert PageStream(stream)[i] == x;
      }
    }
    forall x ensures x in LineStream(stream) <==> x in LinesIn(stream, TouchedPages(stream)) {
      if x in LinesIn(stream, TouchedPages(stream)) {
        var i :| 0 <= i < |stream| && stream[i].line == x;
        assert LineStream(stream)[i] == x;
      }
    }
  }

  // ---------- building the trackers ----------

  /** What a configuration asks of one slot. */
  ghost predicate Sized(t: Tracker, n: nat, sketch: bool, depth: nat, k: nat, hash: Hash) {
    if sketch then
      && t.Sketch? && t.cm.k == k && t.cm.hash == hash && t.cm.refresh == 4096
      && t.cm.depth == (if depth > 0 then depth else 1)
      && t.cm.width == (if n / t.cm.depth > 0 then n / t.cm.depth else 1)
    else t.Saving? && t.ss.cap == n
  }

  /** A tracker spends its budget and no more: as many slots, or rows of equal width that another cell in
      each would overdraw. A budget below the depth still gets one cell a row. */
  lemma SizedWithinBudget(t: Tracker, n: nat, sketch: bool, depth: nat, k: nat, hash: Hash)
    requires Sized(t, n, sketch, depth, k, hash)
    ensures t.Saving? ==> !sketch && t.ss.cap == n
    ensures t.Sketch? ==> var d, w := t.cm.depth, t.cm.width;
      && d > 0 && w > 0 && (depth > 0 ==> d == depth) && n < d * (w + 1)
      && (if n >= d then d * w <= n else w == 1)
  {
    if t.Sketch? {
      var d := t.cm.depth;
      assert n == n / d * d + n % d;
      assert d * (n / d + 1) == n / d * d + d && d * (n / d) == n / d * d;
    }
  }

  method BuildTracker(n: nat, sketch: bool, depth: nat, k: nat, hash: Hash) returns (t: Tracker)
    requires if sketch then k > 0 else n > 0
    ensures fresh(Repr(t)) && Seen(t) == Some([]) && Sized(t, n, sketch, depth, k, hash)
  {
    if sketch {
      var d := if depth > 0 then depth else 1;
      var w := if n / d > 0 then n / d else 1;
      var cm := new CountMinTopK(hash, d, w, k, 4096);
      t := Sketch(cm);
    } else {
      var ss := new SpaceSaving(n);
      t := Saving(ss);
    }
  }

  method BuildList(ns: seq<nat>, sketch: bool, depth: nat, k: nat, hash: Hash) returns (ts: seq<Tracker>)
    requires if sketch then k > 0 else forall i :: 0 <= i < |ns| ==> ns[i] > 0
    ensures |ts| == |ns| && forall i :: 0 <= i < |ns| ==> Sized(ts[i], ns[i], sketch, depth, k, hash)
    ensures Separate(ts) && fresh(AllRepr(ts)) && AllSeen(ts, [])
  {
    hide Seen, Sized;
    ts := [];
    for i := 0 to |ns|
      invariant |ts| == i && Separate(ts)
      invariant forall j :: 0 <= j < i ==> Sized(ts[j], ns[j], sketch, depth, k, hash)
      invariant forall j :: 0 <= j < i ==> fresh(Repr(ts[j])) && Seen(ts[j]) == Some([])
    {
      var t := BuildTracker(ns[i], sketch, depth, k, hash);
      ts := ts + [t];
    }
    ReprsOf(ts);
  }

  lemma ReprsOf(ts: seq<Tracker>)
    ensures forall o :: o in AllRepr(ts) ==> exists i :: 0 <= i < |ts| && o in Repr(ts[i])
  {
  }

  /** A page tracker and a word tracker for every budget; one of 512 entries if none is given. */
  method BuildTrackers(budgets: seq<nat>, sketch: bool, depth: nat, k: nat, hash: Hash)
    returns (pages: seq<Tracker>, lines: seq<Tracker>)
    requires if sketch then k > 0 else forall i :: 0 <= i < |budgets| ==> budgets[i] > 0
    ensures var ns := if budgets == [] then [512] else budgets;
      && |pages| == |lines| == |ns|
      && forall i :: 0 <= i < |ns| ==>
           Sized(pages[i], ns[i], sketch, depth, k, hash) && Sized(lines[i], ns[i], sketch, depth, k, hash)
    ensures Separate(pages) && Separate(lines) && AllRepr(pages) !! AllRepr(lines)
    ensures fresh(AllRepr(pages)) && fresh(AllRepr(lines)) && AllSeen(pages, []) && AllSeen(lines, [])
  {
    hide Seen, Sized, Separate;
    var ns := if budgets == [] then [512] else budgets;
    pages := BuildList(ns, sketch, depth, k, hash);
    lines := BuildList(ns, sketch, depth, k, hash);
  }

  method ByteAddress(line: nat) returns (addr: nat)
    requires line < LINE_LIMIT
    ensures addr < ADDRESSES && addr / 64 == line
  {
    assert Bits.Pow2(6) == 64;
    addr := Bits.ShiftLeft(line, 6);
  }

  method Describe(vs: seq<Visit>, ghost stream: seq<Event>)
    returns (pages: nat, accesses: nat, words: nat, uniqueHist: seq<nat>)
    requires Visits(vs, stream, TouchedPages(stream))
    ensures pages == |TouchedPages(stream)| && accesses == |stream| && words == |LinesIn(stream, TouchedPages(stream))|
    ensures |uniqueHist| == 65 && forall n :: 0 <= n <= 64 ==> uniqueHist[n] == |UniquePages(stream, n)|
  {
    Counting.DistinctSize(PagesIn(vs));
    pages := |vs|;
    words := CountWords(vs, stream);
    var hist := new nat[65](_ => 0);
    accesses := Summary.AddPages(hist, vs, stream);
    uniqueHist := hist[..];
  }

  lemma SomePages(stream: seq<Event>)
    ensures |TouchedPages(stream)| == 0 <==> stream == []
  {
    if stream != [] { assert stream[0].line / 64 in TouchedPages(stream); }
  }

  method LineOf(physAddr: nat) returns (line: Line)
    requires physAddr < ADDRESSES
    ensures line == physAddr / 64
  {
    assert Bits.Pow2(6) == 64;
    line := Bits.ShiftRight(physAddr, 6);
  }

  lemma OneMoreKey(stream: seq<Event>, e: Event)
    ensures PageStream(stream + [e]) == PageStream(stream) + [e.line / 64]
    ensures LineStream(stream + [e]) == LineStream(stream) + [e.line as nat]
  {
  }

  method PageOf(line: Line) returns (page: nat)
    ensures page == line / 64
  {
    assert Bits.Pow2(6) == 64;
    page := Bits.ShiftRight(line, 6);
  }
}
