/** Exact counters in two levels: a map of 2 MB regions, each an array of 512 page records, with the
    last region cached. */
module CounterTable {
  import Bits
  import opened CacheSpec
  import opened CounterSpec

  method Parts(line: Line) returns (regionId: nat, pageIdx: nat, wordIdx: nat)
    ensures regionId == line / 64 / 512 && pageIdx == line / 64 % 512 && wordIdx == line % 64
  {
    AddressParts(line);
    var byteAddr := Bits.ShiftLeft(line, 6);
    regionId := Bits.ShiftRight(byteAddr, 21);
    pageIdx := Bits.And(Bits.ShiftRight(byteAddr, 12), 511);
    wordIdx := Bits.And(Bits.ShiftRight(byteAddr, 6), 63);
  }

  class CounterTable {
    var regions: map<nat, array<PageRec>>
    var arena: seq<array<PageRec>>
    var lastRegionId: nat
    var lastRegion: array?<PageRec>
    var totalAccesses: nat
    var wacSaturations: nat
    ghost var owned: set<object>
    ghost var stream: seq<Event>

    /** Regions do not share arrays, and the arena lists every one of them. */
    ghost predicate Linked()
      reads `regions, `arena, `owned
    {
      && (forall r :: r in regions ==> regions[r] in owned && regions[r] in arena)
      && (forall r, q :: r in regions && q in regions && regions[r] == regions[q] ==> r == q)
      && (forall i :: 0 <= i < |arena| ==> arena[i] in owned)
    }

    /** The cached region is the one its id names. */
    ghost predicate Cached()
      reads `regions, `lastRegionId, `lastRegion
    {
      if lastRegion == null then lastRegionId == NO_REGION
      else lastRegionId in regions && regions[lastRegionId] == lastRegion
    }

    ghost function Values(): Regions
      requires Linked()
      reads `regions, `arena, `owned, owned
    {
      map r | r in regions :: regions[r][..]
    }

    ghost predicate Valid()
      reads this, owned
    {
      && this !in owned && Linked() && Cached()
      && Values() == RegionsOf(stream, regions.Keys) && Touched(stream) <= regions.Keys
      && totalAccesses == |stream|
      && wacSaturations == Lost(stream)
    }

    /** What a well-formed table has recorded since it was last reset. */
    ghost function Contents(): Option<seq<Event>>
      reads this, owned
    {
      if Valid() then Some(stream) else None
    }

    constructor ()
      ensures Contents() == Some([]) && owned == {}
    {
      regions, arena, lastRegionId, lastRegion := map[], [], NO_REGION, null;
      totalAccesses, wacSaturations, stream, owned := 0, 0, [], {};
    }

    /** One DRAM access to a 64-byte word. */
    method Record(line: Line, write: bool)
      requires Contents().Some?
      modifies this, owned
      ensures Contents() == Some(old(Contents().value) + [Event(line, write)])
      ensures fresh(owned - old(owned))
    {
      hide Valid;
      var regionId, pageIdx, wordIdx := Parts(line);
      var r := Open(regionId);
      Enter(r, regionId, pageIdx, wordIdx, line, write);
    }

    method Open(regionId: nat) returns (r: array<PageRec>)
      requires Valid() && regionId != NO_REGION
      modifies `regions, `arena, `owned, `lastRegionId, `lastRegion
      ensures Valid() && fresh(owned - old(owned)) && regionId in regions && regions[regionId] == r && r in owned
    {
      OpenedRegions(stream, regions.Keys, regionId);
      r := Find(regionId);
    }

    method Enter(r: array<PageRec>, regionId: nat, pageIdx: nat, wordIdx: nat, ghost line: Line, write: bool)
      requires Valid() && regionId in regions && regions[regionId] == r
      requires regionId == line / 64 / 512 && pageIdx == line / 64 % 512 && wordIdx == line % 64
      modifies r, `totalAccesses, `wacSaturations, `stream
      ensures Valid() && stream == old(stream) + [Event(line, write)]
    {
      hide RegionOf, RegionsOf, Lost, Touched, Cached, Bumped;
      RecordedIn(stream, regions.Keys, Event(line, write));
      assert Values()[regionId] == r[..];
      Count(r, regionId, pageIdx, wordIdx, write);
      stream := stream + [Event(line, write)];
    }

    /** The region's array, through the one-entry cache. */
    method Find(regionId: nat) returns (r: array<PageRec>)
      requires Linked() && Cached() && regionId != NO_REGION && this !in owned
      modifies `regions, `arena, `owned, `lastRegionId, `lastRegion
      ensures Linked() && Cached() && this !in owned && fresh(owned - old(owned))
      ensures regionId in regions && regions[regionId] == r && regions.Keys == old(regions.Keys) + {regionId}
      ensures Values() == Opened(old(Values()), regionId)
    {
      hide Linked, Opened;
      if regionId == lastRegionId {
        SameRegions(Values(), regionId);
        return lastRegion;
      }
      r := LookupRegion(regionId);
      lastRegionId, lastRegion := regionId, r;
    }

    method LookupRegion(regionId: nat) returns (r: array<PageRec>)
      requires Linked() && this !in owned
      modifies `regions, `arena, `owned
      ensures Linked() && this !in owned && fresh(owned - old(owned))
      ensures regionId in regions && regions[regionId] == r && regions.Keys == old(regions.Keys) + {regionId}
      ensures Values() == Opened(old(Values()), regionId)
    {
      hide Blank;
      if regionId in regions { return regions[regionId]; }
      r := NewArray();
      arena, owned := arena + [r], owned + {r};
      regions := regions[regionId := r];
    }

    method TotalAccesses() returns (n: nat)
      requires Contents().Some?
      ensures n == |Contents().value|
    {
      n := totalAccesses;
    }

    /** Zeroes every counter but keeps the regions. */
    method ResetCounters()
      requires Contents().Some?
      modifies `totalAccesses, `wacSaturations, `stream, `lastRegionId, `lastRegion, owned
      ensures Contents() == Some([]) && owned == old(owned)
    {
      hide Valid;
      Clear();
    }

    method Clear()
      requires Valid()
      modifies `totalAccesses, `wacSaturations, `stream, `lastRegionId, `lastRegion, owned
      ensures Valid() && stream == [] && owned == old(owned)
    {
      hide RegionOf, RegionsOf, Linked, Values, Lost, Touched;
      ZeroRegions(stream);
      NothingRecorded();
      totalAccesses, wacSaturations, stream := 0, 0, [];
      lastRegionId, lastRegion := NO_REGION, null;
    }

    method ZeroRegions(ghost stream: seq<Event>)
      requires Linked() && this !in owned && Values() == RegionsOf(stream, regions.Keys)
      modifies owned
      ensures Values() == RegionsOf([], regions.Keys)
    {
      forall r | r in regions ensures regions[r].Length == 512 {
        assert Values()[r] == RegionOf(stream, r);
        assert |RegionOf(stream, r)| == 512;
        assert Values()[r] == regions[r][..];
      }
      ClearArena(arena);
      forall r | r in regions ensures Values()[r] == RegionOf([], r) {
        assert regions[r][..] == Blank();
        BlankRegion(r);
      }
    }

    /** Every touched page once, regions in no particular order. */
    method TouchedPageList() returns (vs: seq<Visit>)
      requires Contents().Some?
      ensures Visits(vs, Contents().value, TouchedPages(Contents().value))
    {
      hide Valid;
      vs := VisitRegions();
    }

    method VisitRegions() returns (vs: seq<Visit>)
      requires Valid()
      ensures Visits(vs, stream, TouchedPages(stream))
    {
      hide Visits, PagesOfRegions, FirstPages, TouchedPages, Touched, Lost;
      vs := [];
      var rest := regions.Keys;
      NothingVisited(stream);
      assert regions.Keys - rest == {};
      while rest != {}
        invariant rest <= regions.Keys
        invariant Visits(vs, stream, PagesOfRegions(stream, regions.Keys - rest))
        decreases |rest|
      {
        var r :| r in rest;
        assert regions[r][..] == Values()[r];
        var more := VisitRegion(r, regions[r], stream);
        ghost var done := regions.Keys - rest;
        MoreRegions(stream, done, r);
        VisitsConcat(vs, more, stream, PagesOfRegions(stream, done), FirstPages(stream, r, 512));
        vs := vs + more;
        rest := rest - {r};
        assert regions.Keys - rest == done + {r};
      }
      assert regions.Keys - rest == regions.Keys;
      AllRegions(stream, regions.Keys);
    }

    method Count(r: array<PageRec>, regionId: nat, pageIdx: nat, wordIdx: nat, write: bool)
      requires Linked() && regionId in regions && regions[regionId] == r
      requires pageIdx < r.Length && wordIdx < |r[pageIdx].word|
      modifies r, `totalAccesses, `wacSaturations
      ensures var p := old(r[pageIdx]);
        && Values() == old(Values())[regionId := old(r[..])[pageIdx := Bumped(p, wordIdx, write)]]
        && wacSaturations == old(wacSaturations) + One(p.word[wordIdx] == WORD_MAX)
      ensures totalAccesses == old(totalAccesses) + 1
    {
      var p := r[pageIdx];
      if p.word[wordIdx] == WORD_MAX { wacSaturations := wacSaturations + 1; }
      r[pageIdx] := Bumped(p, wordIdx, write);
      totalAccesses := totalAccesses + 1;
    }
  }

  lemma SameRegions(v: Regions, r: nat)
    requires r in v
    ensures Opened(v, r) == v
    ensures v.Keys + {r} == v.Keys
  {
  }

  lemma NothingVisited(stream: seq<Event>)
    ensures Visits([], stream, PagesOfRegions(stream, {}))
  {
    assert PagesOfRegions(stream, {}) == {};
  }

  lemma NothingRecorded()
    ensures Lost([]) == 0 && Touched([]) == {}
  {
  }

  lemma BlankRegion(r: nat)
    ensures RegionOf([], r) == Blank()
  {
    forall i | 0 <= i < 512 ensures RegionOf([], r)[i] == Zero {
      ZeroDescribes(PageNo(r, i));
      DescribedIsRecOf(Zero, [], PageNo(r, i));
    }
  }

  method ClearArena(arena: seq<array<PageRec>>)
    modifies arena
    ensures forall a :: a in arena ==> a[..] == seq(a.Length, _ => Zero)
  {
    for i := 0 to |arena|
      invariant forall k :: 0 <= k < i ==> arena[k][..] == seq(arena[k].Length, _ => Zero)
    {
      ClearRegion(arena[i]);
    }
  }

  method ClearRegion(a: array<PageRec>)
    modifies a
    ensures a[..] == seq(a.Length, _ => Zero)
  {
    forall i | 0 <= i < a.Length { a[i] := Zero; }
  }

  /** The touched pages of one region, in order. */
  method VisitRegion(r: nat, a: array<PageRec>, ghost stream: seq<Event>) returns (vs: seq<Visit>)
    requires a[..] == RegionOf(stream, r)
    ensures Visits(vs, stream, FirstPages(stream, r, 512))
  {
    vs := [];
    assert FirstPages(stream, r, 0) == {};
    for i := 0 to 512
      invariant Visits(vs, stream, FirstPages(stream, r, i))
    {
      ghost var page := PageNo(r, i);
      assert a[..][i] == RecOf(stream, page);
      MaskIsTouched(stream, page);
      NextPage(stream, r, i);
      if a[i].mask != {} {
        VisitOne(stream, page);
        VisitsConcat(vs, [Visit(page, a[i])], stream, FirstPages(stream, r, i), {page});
        var pageNo := PageNumber(r, i);
        vs := vs + [Visit(pageNo, a[i])];
      }
    }
  }

  method PageNumber(r: nat, i: nat) returns (page: nat)
    requires i < 512
    ensures page == PageNo(r, i)
  {
    assert Bits.Pow2(9) == 512;
    Bits.JoinIsSum(r, 9, i);
    page := Bits.Or(Bits.ShiftLeft(r, 9), i);
  }

  method NewArray() returns (r: array<PageRec>)
    ensures fresh(r) && r[..] == Blank()
  {
    r := new PageRec[512](_ => Zero);
  }
}
