/** The database object: paged storage with its two caches, the insertion routine and the sequential
    search, each proved against the functions of Insertion, Eviction and Probes. */
module Databases {
  import opened Arithmetic
  import opened Vectors
  import opened Entries
  import opened Pages
  import opened Insertion
  import opened Eviction
  import opened TopK
  import opened Heaps
  import opened SphereBound
  import opened Probes
  import opened Prefill
  import opened FilePlan

  /** Cached anchors agree with slot 0 of every non-empty page. */
  ghost predicate AnchorsAgree(pages: seq<Page>, cached: seq<Vec>, n: nat)
    requires n <= |pages|
  {
    && n <= |cached|
    && forall i :: 0 <= i < n && pages[i].slots != [] ==> cached[i] == pages[i].slots[0].vec
  }

  /** floor(max_num_vectors_per_page * density) */
  function EffectiveCapacity(capacity: nat, density: real): int {
    (capacity as real * density).Floor
  }

  lemma EffectiveCapacityIs(capacity: nat, density: real, n: int)
    ensures n == EffectiveCapacity(capacity, density) <==> n as real <= capacity as real * density < n as real + 1.0
  {
  }

  /** A density between 0 and 1 never asks for more than a page holds. */
  lemma {:induction false} DensityFits(capacity: nat, density: real)
    requires 0.0 <= density <= 1.0
    ensures 0 <= EffectiveCapacity(capacity, density) <= capacity
  {
    ProductNonNegative(capacity as real, density);
    ProductNonNegative(capacity as real, 1.0 - density);
  }

  ghost predicate SameIdSeq(a: seq<Entry>, r: seq<Entry>) {
    |a| == |r| && forall j :: 0 <= j < |a| ==> a[j].id == r[j].id
  }

  lemma {:induction false} SameIds(pages: seq<Page>, q: Vec, n: nat)
    requires n <= |pages|
    ensures SameIdSeq(AnchorEntriesUpTo(pages, q, n), RadiusEntriesUpTo(pages, n))
  {
    hide *;
    if n == 0 {
      SameIdsNowhere(pages, q);
    } else {
      SameIds(pages, q, n - 1);
      SameIdsNextPage(pages, q, n - 1);
    }
  }

  lemma SameIdsNowhere(pages: seq<Page>, q: Vec)
    ensures SameIdSeq(AnchorEntriesUpTo(pages, q, 0), RadiusEntriesUpTo(pages, 0))
  {
  }

  lemma SameIdsNextPage(pages: seq<Page>, q: Vec, n: nat)
    requires n < |pages| && SameIdSeq(AnchorEntriesUpTo(pages, q, n), RadiusEntriesUpTo(pages, n))
    ensures SameIdSeq(AnchorEntriesUpTo(pages, q, n + 1), RadiusEntriesUpTo(pages, n + 1))
  {
    if pages[n].slots != [] {
      var x, y := Entry(Dist(q, pages[n].slots[0].vec), n), Entry(pages[n].maxDist, n);
      assert AnchorEntriesUpTo(pages, q, n + 1) == AnchorEntriesUpTo(pages, q, n) + [x];
      assert RadiusEntriesUpTo(pages, n + 1) == RadiusEntriesUpTo(pages, n) + [y];
      assert SameIdSeq([x], [y]);
      hide *;
      SameIdsMore(AnchorEntriesUpTo(pages, q, n), RadiusEntriesUpTo(pages, n), [x], [y]);
    }
  }

  lemma SameIdsMore(a: seq<Entry>, r: seq<Entry>, x: seq<Entry>, y: seq<Entry>)
    requires SameIdSeq(a, r) && SameIdSeq(x, y)
    ensures SameIdSeq(a + x, r + y)
  {
  }

  /** Fewer cached radii than pages means an empty page, and only then. */
  lemma {:induction false} CacheShorterThanPages(pages: seq<Page>, n: nat)
    requires n <= |pages|
    ensures |RadiusEntriesUpTo(pages, n)| < n <==> exists i :: 0 <= i < n && pages[i].slots == []
  {
    if n > 0 { CacheShorterThanPages(pages, n - 1); }
  }

  lemma {:induction false} CachedIffNonEmpty(pages: seq<Page>, n: nat, i: nat)
    requires n <= |pages| && i < n
    ensures pages[i].slots != [] <==> Entry(pages[i].maxDist, i) in RadiusEntriesUpTo(pages, n)
  {
    if pages[i].slots != [] && i < n - 1 { CachedIffNonEmpty(pages, n - 1, i); }
  }

  /** The cached radii come in page order. */
  lemma {:induction false} CachedInPageOrder(pages: seq<Page>, n: nat, i: nat, j: nat)
    requires n <= |pages| && i < j < |RadiusEntriesUpTo(pages, n)|
    ensures RadiusEntriesUpTo(pages, n)[i].id < RadiusEntriesUpTo(pages, n)[j].id
  {
    var r := RadiusEntriesUpTo(pages, n - 1);
    if j < |r| {
      CachedInPageOrder(pages, n - 1, i, j);
    } else {
      assert r[i] in r;
    }
  }

  class Database {
    const dim: nat
    const pagesPerFile: nat
    const maxVectorsPerPage: nat
    var nFiles: nat
    var pages: seq<Page>
    var cachedVectors: seq<Vec>
    var cachedMaxDists: seq<Entry>
    var distToAnchor: seq<Entry>

    ghost predicate Valid()
      reads this
    {
      && 0 < pagesPerFile && 2 <= maxVectorsPerPage && 0 < nFiles
      && |pages| == nFiles * pagesPerFile && 0 < |pages|
      && PagesOk(pages, dim, maxVectorsPerPage)
      && AnchorsAgree(pages, cachedVectors, |pages|)
      && cachedMaxDists == RadiusEntriesUpTo(pages, |pages|)
    }

    /** A new database: one zeroed file, empty caches. */
    constructor (dim: nat, pagesPerFile: nat, maxVectorsPerPage: nat)
      requires 0 < pagesPerFile && 2 <= maxVectorsPerPage
      ensures Valid() && Contents(pages) == multiset{} && |pages| == pagesPerFile
      ensures this.dim == dim && this.pagesPerFile == pagesPerFile && this.maxVectorsPerPage == maxVectorsPerPage
    {
      this.dim, this.pagesPerFile, this.maxVectorsPerPage := dim, pagesPerFile, maxVectorsPerPage;
      nFiles := 1;
      pages := NewFile(pagesPerFile);
      cachedVectors := seq(pagesPerFile, _ => []);
      cachedMaxDists := [];
      distToAnchor := [];
      new;
      EmptyPageOk(dim, maxVectorsPerPage);
      ContentsEmpty(pages);
      NothingCached(pages, |pages|);
    }

    static lemma {:induction false} NothingCached(pages: seq<Page>, n: nat)
      requires n <= |pages| && forall i :: 0 <= i < |pages| ==> pages[i].slots == []
      ensures RadiusEntriesUpTo(pages, n) == []
    {
      if n > 0 { NothingCached(pages, n - 1); }
    }

    // ---------- Caches ----------

    method UpdateAnchorCache()
      modifies this`cachedVectors
      ensures AnchorsAgree(pages, cachedVectors, |pages|)
      ensures |cachedVectors| == (if old(|cachedVectors|) < |pages| then |pages| else old(|cachedVectors|))
      ensures forall i :: (0 <= i < old(|cachedVectors|) && (i < |pages| ==> pages[i].slots == [])) ==>
        cachedVectors[i] == old(cachedVectors)[i]
    {
      if |cachedVectors| < |pages| {
        cachedVectors := cachedVectors + seq(|pages| - |cachedVectors|, _ => []);
      }
      ghost var resized := cachedVectors;
      for i := 0 to |pages|
        invariant |cachedVectors| == |resized|
        invariant AnchorsAgree(pages, cachedVectors, i)
        invariant forall j :: 0 <= j < |resized| && (j < |pages| ==> pages[j].slots == []) ==>
          cachedVectors[j] == resized[j]
      {
        if |pages[i].slots| == 0 {
          continue;
        }
        cachedVectors := cachedVectors[i := pages[i].slots[0].vec];
      }
    }

    method UpdateCachedMaxDists()
      modifies this`cachedMaxDists
      ensures cachedMaxDists == RadiusEntriesUpTo(pages, |pages|)
    {
      cachedMaxDists := [];
      for i := 0 to |pages|
        invariant cachedMaxDists == RadiusEntriesUpTo(pages, i)
      {
        if |pages[i].slots| > 0 {
          cachedMaxDists := cachedMaxDists + [Entry(pages[i].maxDist, i)];
        }
      }
    }

    /** Distances from a query to the cached anchors, optionally sorted into visiting order. */
    method FillDistToAnchor(query: Vec, sort: bool) returns (buffer: seq<Entry>)
      requires AnchorsAgree(pages, cachedVectors, |pages|)
      requires cachedMaxDists == RadiusEntriesUpTo(pages, |pages|)
      requires PagesOk(pages, dim, maxVectorsPerPage) && |query| == dim
      ensures buffer == if sort then VisitOrder(pages, query) else AnchorEntriesUpTo(pages, query, |pages|)
    {
      hide PagesOk, AnchorsAgree, Sort, AnchorEntriesUpTo, RadiusEntriesUpTo;
      buffer := [];
      ghost var target := AnchorEntriesUpTo(pages, query, |pages|);
      SameIds(pages, query, |pages|);
      for j := 0 to |cachedMaxDists|
        invariant buffer == target[..j]
      {
        var i := cachedMaxDists[j].id;
        CachedAnchorEntry(pages, cachedVectors, dim, maxVectorsPerPage, query, j);
        var d := SquaredL2Distance(query, cachedVectors[i]);
        buffer := buffer + [Entry(d, i)];
      }
      assert buffer == target;
      if sort {
        buffer := Sort(buffer);
      }
    }

    // ---------- Page edits ----------

    method CalculateNewMaxDist(i: nat) returns (maxDist: real)
      requires i < |pages| && pages[i].slots != []
      requires forall j :: 0 <= j < |pages[i].slots| ==> |pages[i].slots[j].vec| == dim
      ensures maxDist == Radius(pages[i].slots)
    {
      var slots := pages[i].slots;
      maxDist := 0.0;
      for j := 1 to |slots|
        invariant maxDist == RadiusUpTo(slots, j)
      {
        var d := SquaredL2Distance(slots[j].vec, slots[0].vec);
        if maxDist < d {
          maxDist := d;
        }
      }
    }

    method FindVictim(i: nat) returns (v: nat)
      requires i < |pages| && pages[i].slots != []
      requires forall j :: 0 <= j < |pages[i].slots| ==> |pages[i].slots[j].vec| == dim
      ensures v == VictimFrom(pages[i], 1)
    {
      var p := pages[i];
      v := 1;
      while v < |p.slots|
        invariant 1 <= v <= |p.slots|
        invariant VictimFrom(p, v) == VictimFrom(p, 1)
      {
        var d := SquaredL2Distance(p.slots[v].vec, p.slots[0].vec);
        if p.maxDist == d {
          return;
        }
        v := v + 1;
      }
    }

    method AppendNewVector(s: Slot, i: nat)
      requires i < |pages|
      modifies this`pages
      ensures pages == old(pages)[i := Page(old(pages)[i].slots + [s], old(pages)[i].maxDist)]
    {
      pages := pages[i := Page(pages[i].slots + [s], pages[i].maxDist)];
    }

    method PlaceNewVectorAt(s: Slot, i: nat, v: nat)
      requires i < |pages| && v < |pages[i].slots|
      modifies this`pages
      ensures pages == old(pages)[i := Page(old(pages)[i].slots[v := s], old(pages)[i].maxDist)]
    {
      pages := pages[i := Page(pages[i].slots[v := s], pages[i].maxDist)];
    }

    method UpdateInPageMaxDist(i: nat, maxDist: real)
      requires i < |pages|
      modifies this`pages
      ensures pages == old(pages)[i := Page(old(pages)[i].slots, maxDist)]
    {
      pages := pages[i := Page(pages[i].slots, maxDist)];
    }

    method CreateStorageFile()
      modifies this`pages, this`nFiles
      ensures pages == old(pages) + NewFile(pagesPerFile) && nFiles == old(nFiles) + 1
    {
      pages := pages + NewFile(pagesPerFile);
      nFiles := nFiles + 1;
    }

    /** Marks every cached page and returns the first unmarked index, which exists whenever fewer pages
        are cached than exist. */
    method FindEmptyPage() returns (e: nat)
      requires cachedMaxDists == RadiusEntriesUpTo(pages, |pages|)
      ensures e == FirstEmptyFrom(pages, 0)
      ensures |cachedMaxDists| < |pages| <==> e < |pages|
    {
      var free := new bool[|pages|](_ => true);
      for j := 0 to |cachedMaxDists|
        invariant forall i :: 0 <= i < |pages| ==>
          (free[i] <==> forall m :: 0 <= m < j ==> cachedMaxDists[m].id != i)
      {
        assert cachedMaxDists[j] in cachedMaxDists;
        free[cachedMaxDists[j].id] := false;
      }
      forall i | 0 <= i < |pages| ensures free[i] <==> pages[i].slots == [] {
        CachedIffNonEmpty(pages, |pages|, i);
        assert forall m :: 0 <= m < |cachedMaxDists| ==> cachedMaxDists[m] in cachedMaxDists;
      }
      CacheShorterThanPages(pages, |pages|);
      e := 0;
      while e < |pages| && !free[e]
        invariant 0 <= e <= |pages|
        invariant FirstEmptyFrom(pages, e) == FirstEmptyFrom(pages, 0)
      {
        e := e + 1;
      }
    }

    // ---------- Insertion ----------

    method AppendAndTighten(s: Slot, i: nat)
      requires i < |pages| && |s.vec| == dim
      requires forall j :: 0 <= j < |pages[i].slots| ==> |pages[i].slots[j].vec| == dim
      modifies this`pages
      ensures pages == old(pages)[i := Tightened(old(pages)[i].slots + [s])]
    {
      AppendNewVector(s, i);
      var newMaxDist := CalculateNewMaxDist(i);
      UpdateInPageMaxDist(i, newMaxDist);
    }

    method ReplaceFarthest(s: Slot, i: nat) returns (victim: Slot, ghost v: nat)
      requires i < |pages| && |s.vec| == dim
      requires forall j :: 0 <= j < |pages[i].slots| ==> |pages[i].slots[j].vec| == dim
      requires pages[i].slots != [] && VictimFrom(pages[i], 1) < |pages[i].slots|
      modifies this`pages
      ensures v == VictimFrom(old(pages)[i], 1) && victim == old(pages)[i].slots[v]
      ensures pages == old(pages)[i := Tightened(old(pages)[i].slots[v := s])]
    {
      var index := FindVictim(i);
      v := index;
      victim := pages[i].slots[index];
      PlaceNewVectorAt(s, i, index);
      var newMaxDist := CalculateNewMaxDist(i);
      UpdateInPageMaxDist(i, newMaxDist);
    }

    method OpenInNewFile(s: Slot)
      requires 0 < pagesPerFile && |pages| == nFiles * pagesPerFile
      modifies this`pages, this`nFiles
      ensures pages == old(pages) + NewFile(pagesPerFile)[0 := Page([s], 0.0)]
      ensures nFiles == old(nFiles) + 1 && |pages| == nFiles * pagesPerFile
    {
      ghost var before := pages;
      CreateStorageFile();
      assert (nFiles - 1) * pagesPerFile + pagesPerFile == nFiles * pagesPerFile;
      AppendNewVector(s, (nFiles - 1) * pagesPerFile);
      assert [] + [s] == [s];
      assert pages == before + NewFile(pagesPerFile)[0 := Page([s], 0.0)];
    }

    /** Inserts one vector, given the visiting order of that vector. Afterwards the pages are exactly the
        result of Inserted, and every cache agrees with them. */
    method InsertAVector(newId: nat, newVec: Vec, density: real)
      requires Valid() && |newVec| == dim && 0 <= EffectiveCapacity(maxVectorsPerPage, density) <= maxVectorsPerPage
      requires distToAnchor == VisitOrder(pages, newVec)
      modifies this
      ensures Valid()
      ensures pages == Inserted(old(pages), pagesPerFile, dim, maxVectorsPerPage,
                                EffectiveCapacity(maxVectorsPerPage, density), Slot(newId, newVec))
      decreases Potential(pages, Universe(pages, Slot(newId, newVec)))
    {
      hide Inserted, PagesOk, AnchorsAgree, VisitOrder, Radius, Contents, VictimFrom, FirstEmptyFrom;
      hide Potential, Universe, RadiusEntriesUpTo, Dist, EffectiveCapacity;
      ghost var before := pages;
      var s := Slot(newId, newVec);
      var limit := EffectiveCapacity(maxVectorsPerPage, density);
      StepIsReady(pages, pagesPerFile, dim, maxVectorsPerPage, limit, s);
      InsertedUnfolds(pages, pagesPerFile, dim, maxVectorsPerPage, limit, s);
      if |distToAnchor| == 0 {
        AppendNewVector(s, 0);
        assert before[0].slots + [s] == [s];
        assert pages == Step(before, pagesPerFile, limit, s).pages;
        RefreshCaches();
        return;
      }
      var best := distToAnchor[0];
      assert best in distToAnchor;
      var i := best.id;
      var n := |pages[i].slots|;
      MembersHaveDim(pages, dim, maxVectorsPerPage, i);
      if n == 1 {
        AppendAndTighten(s, i);
        assert pages == Step(before, pagesPerFile, limit, s).pages;
        AnchorStays(before, i, pages[i], cachedVectors);
        UpdateCachedMaxDists();
        return;
      }
      var maxDist := pages[i].maxDist;
      if best.dist < maxDist && n + 1 <= limit {
        AppendNewVector(s, i);
        assert pages == Step(before, pagesPerFile, limit, s).pages;
        AnchorStays(before, i, pages[i], cachedVectors);
        SameRadiusEntries(before, pages, |pages|);
        return;
      }
      if best.dist < maxDist && n + 1 > limit {
        var victim, v := ReplaceFarthest(s, i);
        assert Step(before, pagesPerFile, limit, s) == Evicted(pages, victim);
        AnchorStays(before, i, pages[i], cachedVectors);
        UpdateCachedMaxDists();
        distToAnchor := FillDistToAnchor(victim.vec, true);
        EvictionDecreases(before, pagesPerFile, limit, s, i, v);
        InsertAVector(victim.id, victim.vec, density);
        return;
      }
      if best.dist >= maxDist && |cachedMaxDists| < |pages| {
        var e := FindEmptyPage();
        AppendNewVector(s, e);
        assert before[e].slots + [s] == [s];
        assert pages == Step(before, pagesPerFile, limit, s).pages;
        RefreshCaches();
        return;
      }
      if best.dist >= maxDist && |cachedMaxDists| >= |pages| {
        CacheShorterThanPages(pages, |pages|);
        OpenInNewFile(s);
        assert pages == Step(before, pagesPerFile, limit, s).pages;
        RefreshCaches();
        return;
      }
      // the source's cases 7 and 8 and its closing throw
      assert false;
    }

    // ---------- Greedy prefill ----------

    /** The heap of the nearest remaining vectors of one round. */
    method NearestRemaining(r: seq<Slot>, m: nat) returns (heap: array<Entry>, n: nat)
      requires r != [] && 0 < m && forall i :: 0 <= i < |r| ==> |r[i].vec| == dim
      ensures fresh(heap) && n <= heap.Length && IsHeap(Span(heap, 0, n)) && Sort(Span(heap, 0, n)) == Nearest(r, m)
    {
      heap := new Entry[m](_ => Entry(0.0, 0));
      n := 0;
      ghost var es := Candidates(r);
      assert es[..0] == [] && Span(heap, 0, 0) == [];
      assert es[..|r| - 1] == es;
      EmptySearch(Span(heap, 0, 0), m);
      hide IsHeap, Sort, Offer, OfferAll, Span;
      assert Sort(Span(heap, 0, 0)) == OfferAll([], m, es[..0]) by { NothingOffered(Span(heap, 0, 0), m); }
      for j := 1 to |r|
        invariant n <= m && IsHeap(Span(heap, 0, n))
        invariant Sort(Span(heap, 0, n)) == OfferAll([], m, es[..j - 1])
      {
        OfferOneMore([], m, es, j - 1);
        var d := SquaredL2Distance(r[0].vec, r[j].vec);
        n := OfferToHeap(heap, 0, n, m, Entry(d, j));
      }
    }

    /** Keeps the vectors whose positions were not taken, in order. */
    method EraseTaken(r: seq<Slot>, taken: set<nat>) returns (rest: seq<Slot>)
      ensures rest == Without(r, taken, |r|)
    {
      rest := [];
      for counter := 0 to |r|
        invariant rest == Without(r, taken, counter)
      {
        if counter !in taken {
          rest := rest + [r[counter]];
        }
      }
    }

    /** Appends the picks of a round behind the anchor and notes their positions. */
    method AppendPicks(r: seq<Slot>, es: seq<Entry>, i: nat) returns (taken: set<nat>)
      requires i < |pages| && forall j :: 0 <= j < |es| ==> es[j].id < |r|
      modifies this`pages
      ensures pages == old(pages)[i := Page(old(pages)[i].slots + Picks(r, es), old(pages)[i].maxDist)]
      ensures taken == {0} + Indices(es)
    {
      ghost var picks, before, slots := Picks(r, es), pages, pages[i].slots;
      taken := {0};
      assert slots + picks[..0] == slots && pages[i := Page(slots, pages[i].maxDist)] == pages;
      for j := 0 to |es|
        invariant pages == before[i := Page(slots + picks[..j], before[i].maxDist)]
        invariant taken == {0} + Indices(es[..j])
      {
        AppendNewVector(r[es[j].id], i);
        taken := taken + {es[j].id};
        assert es[..j + 1] == es[..j] + [es[j]];
        assert slots + picks[..j] + [picks[j]] == slots + picks[..j + 1];
      }
      assert picks[..|es|] == picks && es[..|es|] == es;
    }

    /** One round: writes on page i and returns what is left. */
    method PrefillRound(r: seq<Slot>, m: nat, i: nat) returns (rest: seq<Slot>, ghost g: Page)
      requires r != [] && 0 < m && i < |pages|
      requires forall j :: 0 <= j < |r| ==> |r[j].vec| == dim
      modifies this`pages
      ensures rest == Rest(r, m) && GreedyPage(r, m, g)
      ensures pages == old(pages)[i := Onto(old(pages)[i], g)]
    {
      hide GreedyPage, IsHeap, Sort, Nearest, Without, Indices, Span;
      ghost var was := pages[i].slots;
      var heap, n := NearestRemaining(r, m);
      var es := Span(heap, 0, n);
      HeapPageIsGreedy(r, m, es);
      assert multiset(es) == multiset(Nearest(r, m));
      SameBagSameIndices(es, Nearest(r, m));
      AppendNewVector(r[0], i);
      var maxDist := 0.0;
      if n > 0 {
        SpanAt(heap, 0, n, 0);
        maxDist := heap[0].dist;
      }
      g := Page([r[0]] + Picks(r, es), maxDist);
      var taken := AppendPicks(r, es, i);
      assert was + [r[0]] + Picks(r, es) == was + g.slots;
      UpdateInPageMaxDist(i, maxDist);
      rest := EraseTaken(r, taken);
    }

    /** The round loop, given enough pages. */
    method WriteRounds(items: seq<Slot>, limit: nat) returns (ghost written: seq<Page>)
      requires 2 <= limit && Rounds(|items|, limit) <= |pages|
      requires forall i :: 0 <= i < |items| ==> |items[i].vec| == dim
      modifies this`pages
      ensures |written| <= |old(pages)| && pages == Overlay(old(pages), written)
      ensures GreedyRounds(items, limit - 1, written, [])
    {
      var r := items;
      var i := 0;
      written := [];
      NoRoundYet(items, limit, pages, dim);
      while |r| > 0
        invariant i == |written| && Between(items, limit, old(pages), pages, written, r, dim)
        decreases |r|
      {
        hide GreedyRounds, GreedyPage, Rest, Rounds, Onto;
        RoundFits(|items|, limit, i, |r|);
        ghost var before, was, g := pages, r, EMPTY_PAGE;
        r, g := PrefillRound(r, limit - 1, i);
        RoundDone(items, limit, old(pages), before, written, was, g, dim);
        written := written + [g];
        i := i + 1;
      }
    }

    /** All but the validity of the pages: the files are whole and the caches agree with the pages. */
    ghost predicate Refreshed()
      reads this
    {
      && 0 < pagesPerFile && 2 <= maxVectorsPerPage && 0 < nFiles
      && |pages| == nFiles * pagesPerFile && 0 < |pages|
      && AnchorsAgree(pages, cachedVectors, |pages|)
      && cachedMaxDists == RadiusEntriesUpTo(pages, |pages|)
    }

    /** Prefill: the files are created first, then pages are written on round by round until nothing is left,
        and the caches are refreshed. All is stored in any case; the database stays valid if the pages written
        on were empty (see RoundsKeepPageIff). The requires on the file layout is exactly the condition of
        FilesSufficeIff. */
    method BatchPrefill(items: seq<Slot>, density: real, fileSize: nat, pageSize: nat)
        returns (ghost written: seq<Page>)
      requires Valid() && forall i :: 0 <= i < |items| ==> |items[i].vec| == dim
      requires 2 <= EffectiveCapacity(maxVectorsPerPage, density) <= maxVectorsPerPage
      requires FilesFit(EffectiveCapacity(maxVectorsPerPage, density), fileSize, pageSize, pagesPerFile)
      modifies this
      ensures Refreshed() && |old(pages)| <= |pages| && |written| <= |pages|
      ensures GreedyRounds(items, EffectiveCapacity(maxVectorsPerPage, density) - 1, written, [])
      ensures pages == Overlay(old(pages) + NewFile(|pages| - |old(pages)|), written)
      ensures Contents(pages) == Contents(old(pages)) + multiset(items)
      ensures var limit, added := EffectiveCapacity(maxVectorsPerPage, density), nFiles - old(nFiles);
        added * (limit * fileSize / pageSize) <= |items| < (added + 1) * (limit * fileSize / pageSize)
      ensures (forall i :: 0 <= i < |written| && i < |old(pages)| ==> old(pages)[i].slots == []) ==> Valid()
    {
      hide *;
      written := PrefillUpTo(items, EffectiveCapacity(maxVectorsPerPage, density), fileSize, pageSize);
    }

    method PrefillUpTo(items: seq<Slot>, limit: nat, fileSize: nat, pageSize: nat)
        returns (ghost written: seq<Page>)
      requires Valid() && forall i :: 0 <= i < |items| ==> |items[i].vec| == dim
      requires 2 <= limit <= maxVectorsPerPage && FilesFit(limit, fileSize, pageSize, pagesPerFile)
      modifies this
      ensures Refreshed() && |old(pages)| <= |pages| && |written| <= |pages|
      ensures GreedyRounds(items, limit - 1, written, [])
      ensures pages == Overlay(old(pages) + NewFile(|pages| - |old(pages)|), written)
      ensures Contents(pages) == Contents(old(pages)) + multiset(items)
      ensures var added := nFiles - old(nFiles);
        added * (limit * fileSize / pageSize) <= |items| < (added + 1) * (limit * fileSize / pageSize)
      ensures (forall i :: 0 <= i < |written| && i < |old(pages)| ==> old(pages)[i].slots == []) ==> Valid()
    {
      hide GreedyRounds, Rounds, FilesFit, PagesOk, AnchorsAgree, RadiusEntriesUpTo, Contents;
      ghost var was := pages;
      ReserveFiles(|items|, limit, fileSize, pageSize);
      written := WriteRounds(items, limit);
      RefreshCaches();
      PrefillDone(items, limit, was, pages, written, dim, maxVectorsPerPage);
    }

    /** Both caches are rebuilt from the pages. */
    method RefreshCaches()
      requires 0 < pagesPerFile && 2 <= maxVectorsPerPage && 0 < nFiles
      requires |pages| == nFiles * pagesPerFile && 0 < |pages|
      modifies this`cachedVectors, this`cachedMaxDists
      ensures Refreshed()
    {
      hide AnchorsAgree, RadiusEntriesUpTo;
      UpdateAnchorCache();
      UpdateCachedMaxDists();
    }

    /** Creates the files before any page is written; they hold all rounds. */
    method ReserveFiles(n: nat, limit: nat, fileSize: nat, pageSize: nat)
      requires 0 < nFiles && |pages| == nFiles * pagesPerFile
      requires 0 < limit && FilesFit(limit, fileSize, pageSize, pagesPerFile)
      modifies this`pages, this`nFiles
      ensures 0 < nFiles && |pages| == nFiles * pagesPerFile && |pages| >= |old(pages)|
      ensures pages == old(pages) + NewFile(|pages| - |old(pages)|)
      ensures Rounds(n, limit) <= |pages|
      ensures var perFile, added := limit * fileSize / pageSize, nFiles - old(nFiles);
        added * perFile <= n < (added + 1) * perFile
    {
      hide Rounds, VectorsPerFile;
      FilesSufficeIff(limit, fileSize, pageSize);
      assert Suffices(n, limit, fileSize, pageSize);
      PrepareFiles(n / VectorsPerFile(limit, fileSize, pageSize));
      QuotientBounds(n, VectorsPerFile(limit, fileSize, pageSize));
      PerFileIs(limit, fileSize, pageSize);
      MulMonotone(1 + n / VectorsPerFile(limit, fileSize, pageSize), nFiles, pagesPerFile);
    }

    method PrepareFiles(n: nat)
      requires |pages| == nFiles * pagesPerFile
      modifies this`pages, this`nFiles
      ensures nFiles == old(nFiles) + n && |pages| == nFiles * pagesPerFile && |pages| >= |old(pages)|
      ensures pages == old(pages) + NewFile(|pages| - |old(pages)|)
    {
      assert pages + NewFile(0) == pages;
      for i := 0 to n
        invariant nFiles == old(nFiles) + i && |pages| == nFiles * pagesPerFile && |pages| >= |old(pages)|
        invariant pages == old(pages) + NewFile(|pages| - |old(pages)|)
      {
        assert (nFiles + 1) * pagesPerFile == nFiles * pagesPerFile + pagesPerFile;
        ghost var more := |pages| - |old(pages)|;
        CreateStorageFile();
        assert NewFile(more) + NewFile(pagesPerFile) == NewFile(more + pagesPerFile);
      }
    }

    // ---------- Sequential search ----------

    /** One query of the batch worker: visits at most nPagesToProbe pages in anchor order, pruned pages
        counting against the budget, and leaves the k nearest of them in the heap, a span from lo on. */
    method FindKnnOne(query: Vec, k: nat, nPagesToProbe: nat, heap: array<Entry>, lo: nat) returns (nOutputs: nat)
      requires Valid() && |query| == dim && 0 < k && lo + k <= heap.Length
      modifies heap
      ensures nOutputs <= k && IsHeap(Span(heap, lo, nOutputs))
      ensures var ps := ProbesFor(pages, query);
        Sort(Span(heap, lo, nOutputs)) == Search(if nPagesToProbe < |ps| then ps[..nPagesToProbe] else ps, k)
      ensures forall j :: 0 <= j < heap.Length && !(lo <= j < lo + k) ==> heap[j] == old(heap[j])
    {
      var buffer := FillDistToAnchor(query, true);
      assert forall e :: e in buffer ==> e.id < |pages| && CanVisit(pages, query, e);
      hide IsHeap, Sort, Search, VisitOrder, PagesOk, AnchorsAgree, RadiusEntriesUpTo, Span, CanVisit, ProbesOf;
      nOutputs := VisitInOrder(query, k, nPagesToProbe, buffer, heap, lo);
    }

    /** The loop over the pages of a visiting order. */
    method VisitInOrder(query: Vec, k: nat, nPagesToProbe: nat, buffer: seq<Entry>, heap: array<Entry>, lo: nat)
        returns (nOutputs: nat)
      requires PagesOk(pages, dim, maxVectorsPerPage) && |query| == dim && 0 < k && lo + k <= heap.Length
      requires forall e :: e in buffer ==> e.id < |pages| && CanVisit(pages, query, e)
      modifies heap
      ensures nOutputs <= k && IsHeap(Span(heap, lo, nOutputs))
      ensures var ps := ProbesOf(pages, query, buffer);
        Sort(Span(heap, lo, nOutputs)) == Search(if nPagesToProbe < |ps| then ps[..nPagesToProbe] else ps, k)
      ensures forall j :: 0 <= j < heap.Length && !(lo <= j < lo + k) ==> heap[j] == old(heap[j])
    {
      EmptySearch(Span(heap, lo, 0), k);
      ghost var ps := ProbesOf(pages, query, buffer);
      assert ps[..0] == [];
      hide IsHeap, Sort, Search, Visit, PagesOk, Span;
      var nProbed := 0;
      nOutputs := 0;
      while nProbed < |buffer| && nProbed != nPagesToProbe
        invariant 0 <= nProbed <= |buffer| && nProbed <= nPagesToProbe
        invariant nOutputs <= k && IsHeap(Span(heap, lo, nOutputs))
        invariant Sort(Span(heap, lo, nOutputs)) == Search(ps[..nProbed], k)
        invariant forall j :: 0 <= j < heap.Length && !(lo <= j < lo + k) ==> heap[j] == old(heap[j])
        decreases |buffer| - nProbed
      {
        assert CanVisit(pages, query, buffer[nProbed]);
        SearchOneMore(ps, nProbed, k);
        nOutputs := VisitPage(query, k, buffer[nProbed], heap, lo, nOutputs);
        nProbed := nProbed + 1;
      }
      assert ps[..|ps|] == ps;
    }

    /** Prunes or scans one page: only a full heap has a worst distance to prune by. */
    method VisitPage(query: Vec, k: nat, e: Entry, heap: array<Entry>, lo: nat, n: nat) returns (nOutputs: nat)
      requires PagesOk(pages, dim, maxVectorsPerPage) && |query| == dim && CanVisit(pages, query, e)
      requires 0 < k && lo + k <= heap.Length && n <= k && IsHeap(Span(heap, lo, n))
      modifies heap
      ensures nOutputs <= k && IsHeap(Span(heap, lo, nOutputs))
      ensures Sort(Span(heap, lo, nOutputs)) == Visit(old(Sort(Span(heap, lo, n))), k, ProbeOf(pages, query, e))
      ensures forall j :: 0 <= j < heap.Length && !(lo <= j < lo + k) ==> heap[j] == old(heap[j])
    {
      hide IsHeap, Sort, OfferAll, Visit, PagesOk, Prune, Span;
      ghost var p, kept := ProbeOf(pages, query, e), Sort(Span(heap, lo, n));
      var maxDist := pages[e.id].maxDist;
      if n == k {
        RootIsLast(Span(heap, lo, n));
        SpanAt(heap, lo, n, 0);
        if Prune(e.dist, maxDist, heap[lo].dist) {
          VisitPruned(kept, k, p);
          return n;
        }
      }
      VisitScanned(kept, k, p);
      MembersHaveDim(pages, dim, maxVectorsPerPage, e.id);
      nOutputs := ScanPage(query, k, pages[e.id], e.dist, heap, lo, n);
    }

    /** Offers the anchor, whose distance is already known, and then every other member of a page. */
    static method ScanPage(query: Vec, k: nat, p: Page, anchorDist: real, heap: array<Entry>, lo: nat, n: nat)
        returns (nOutputs: nat)
      requires p.slots != [] && forall i :: 0 <= i < |p.slots| ==> |p.slots[i].vec| == |query|
      requires anchorDist == Dist(query, p.slots[0].vec)
      requires 0 < k && lo + k <= heap.Length && n <= k && IsHeap(Span(heap, lo, n))
      modifies heap
      ensures nOutputs <= k && IsHeap(Span(heap, lo, nOutputs))
      ensures Sort(Span(heap, lo, nOutputs)) == OfferAll(old(Sort(Span(heap, lo, n))), k, EntriesOf(query, p.slots))
      ensures forall j :: 0 <= j < heap.Length && !(lo <= j < lo + k) ==> heap[j] == old(heap[j])
    {
      hide IsHeap, Sort, Offer, Span;
      ghost var es, kept := EntriesOf(query, p.slots), Sort(Span(heap, lo, n));
      DistSymmetric(query, p.slots[0].vec);
      nOutputs := OfferToHeap(heap, lo, n, k, Entry(anchorDist, p.slots[0].id));
      OfferOneMore(kept, k, es, 0);
      assert es[..0] == [];
      for i := 1 to |p.slots|
        invariant nOutputs <= k && IsHeap(Span(heap, lo, nOutputs))
        invariant Sort(Span(heap, lo, nOutputs)) == OfferAll(kept, k, es[..i])
        invariant forall j :: 0 <= j < heap.Length && !(lo <= j < lo + k) ==> heap[j] == old(heap[j])
      {
        OfferOneMore(kept, k, es, i);
        var d := SquaredL2Distance(p.slots[i].vec, query);
        nOutputs := OfferToHeap(heap, lo, nOutputs, k, Entry(d, p.slots[i].id));
      }
      assert es[..|p.slots|] == es;
    }
  }

  /** An entry of a visiting order: a non-empty page with the distance to its anchor. */
  predicate CanVisit(pages: seq<Page>, query: Vec, e: Entry) {
    e.id < |pages| && pages[e.id].slots != [] && e.dist == Dist(query, pages[e.id].slots[0].vec)
  }

  lemma NewFileEmpty(n: nat, dim: nat, capacity: nat)
    ensures PagesOk(NewFile(n), dim, capacity) && Contents(NewFile(n)) == multiset{}
  {
    EmptyPageOk(dim, capacity);
    ContentsEmpty(NewFile(n));
  }

  lemma PrefillStoresAll(items: seq<Slot>, m: nat, was: seq<Page>, written: seq<Page>)
    requires |written| <= |was| && 0 < m && GreedyRounds(items, m, written, [])
    ensures Contents(Overlay(was, written)) == Contents(was) + multiset(items)
  {
    hide *;
    OverlayConserves(was, written);
    RoundsConserve(items, m, written, []);
    assert Contents(written) + multiset([]) == Contents(written);
  }

  lemma NewPages(was: seq<Page>, n: nat, dim: nat, capacity: nat)
    requires PagesOk(was, dim, capacity)
    ensures PagesOk(was + NewFile(n), dim, capacity) && Contents(was + NewFile(n)) == Contents(was)
    ensures forall i :: |was| <= i < |was + NewFile(n)| ==> (was + NewFile(n))[i].slots == []
  {
    hide PageOk, Contents;
    NewFileEmpty(n, dim, capacity);
    ContentsAppend(was, NewFile(n));
  }

  /** What a prefill leaves: everything stored before and all items, on valid pages if those written on were
      empty. */
  lemma PrefillDone(items: seq<Slot>, limit: nat, was: seq<Page>, pages: seq<Page>, written: seq<Page>, dim: nat,
                    capacity: nat)
    requires PagesOk(was, dim, capacity) && |was| <= |pages| && |written| <= |pages| && 2 <= limit <= capacity
    requires forall i :: 0 <= i < |items| ==> |items[i].vec| == dim
    requires pages == Overlay(was + NewFile(|pages| - |was|), written) && GreedyRounds(items, limit - 1, written, [])
    ensures Contents(pages) == Contents(was) + multiset(items)
    ensures (forall i :: 0 <= i < |written| && i < |was| ==> was[i].slots == []) ==> PagesOk(pages, dim, capacity)
  {
    hide GreedyRounds, PagesOk, Contents, Overlay;
    NewPages(was, |pages| - |was|, dim, capacity);
    PrefillStoresAll(items, limit - 1, was + NewFile(|pages| - |was|), written);
    if forall i :: 0 <= i < |written| && i < |was| ==> was[i].slots == [] {
      GreedyPagesOk(items, limit - 1, written, [], dim, capacity);
      OverlayOnEmpty(was + NewFile(|pages| - |was|), written, dim, capacity);
    }
  }

  lemma RoundFits(n: nat, limit: nat, i: nat, left: nat)
    requires 0 < limit && 0 < left && left + i * limit == n
    ensures i < Rounds(n, limit)
  {
    RoundsAtMost(n, limit, i);
  }

  lemma NothingOffered(s: seq<Entry>, k: nat)
    requires 0 < k && s == []
    ensures Sort(s) == OfferAll([], k, [])
  {
  }

  /** The pages a probe budget reaches. */
  function FirstPages(ps: seq<Probe>, budget: nat): (r: seq<Probe>)
    ensures |r| <= budget && |r| <= |ps| && r == ps[..|r|]
    ensures |r| < budget ==> |r| == |ps|
  {
    if budget < |ps| then ps[..budget] else ps
  }

  lemma EmptySearch(s: seq<Entry>, k: nat)
    requires 0 < k && s == []
    ensures IsHeap(s) && Search([], k) == Sort(s)
  {
  }

  lemma SearchOneMore(ps: seq<Probe>, n: nat, k: nat)
    requires 0 < k && n < |ps|
    ensures Search(ps[..n + 1], k) == Visit(Search(ps[..n], k), k, ps[n])
  {
    assert ps[..n + 1][..n] == ps[..n];
  }

  lemma VisitPruned(kept: seq<Entry>, k: nat, p: Probe)
    requires 0 < k == |kept| && Prune(p.anchorDist, p.maxDist, kept[k - 1].dist)
    ensures Visit(kept, k, p) == kept
  {
  }

  lemma VisitScanned(kept: seq<Entry>, k: nat, p: Probe)
    requires 0 < k && (|kept| == k ==> !Prune(p.anchorDist, p.maxDist, kept[k - 1].dist))
    ensures Visit(kept, k, p) == OfferAll(kept, k, p.entries)
  {
  }

  lemma MembersHaveDim(pages: seq<Page>, dim: nat, capacity: nat, i: nat)
    requires PagesOk(pages, dim, capacity) && i < |pages|
    ensures forall j :: 0 <= j < |pages[i].slots| ==> |pages[i].slots[j].vec| == dim
  {
    assert PageOk(pages[i], dim, capacity);
  }

  lemma CachedAnchorEntry(pages: seq<Page>, cached: seq<Vec>, dim: nat, capacity: nat, q: Vec, j: nat)
    requires PagesOk(pages, dim, capacity) && AnchorsAgree(pages, cached, |pages|) && |q| == dim
    requires j < |RadiusEntriesUpTo(pages, |pages|)|
    ensures var i := RadiusEntriesUpTo(pages, |pages|)[j].id;
      && i < |cached| && |cached[i]| == dim
      && j < |AnchorEntriesUpTo(pages, q, |pages|)|
      && AnchorEntriesUpTo(pages, q, |pages|)[j] == Entry(SqDist(q, cached[i]), i)
  {
    var r, a := RadiusEntriesUpTo(pages, |pages|), AnchorEntriesUpTo(pages, q, |pages|);
    SameIds(pages, q, |pages|);
    assert r[j] in r && a[j] in a;
    MembersHaveDim(pages, dim, capacity, r[j].id);
    hide PagesOk, RadiusEntriesUpTo, AnchorEntriesUpTo;
  }

  lemma AnchorStays(pages: seq<Page>, i: nat, p: Page, cached: seq<Vec>)
    requires AnchorsAgree(pages, cached, |pages|) && i < |pages|
    requires pages[i].slots != [] && p.slots != [] && p.slots[0] == pages[i].slots[0]
    ensures AnchorsAgree(pages[i := p], cached, |pages|)
  {
  }

  lemma {:induction false} SameRadiusEntries(a: seq<Page>, b: seq<Page>, n: nat)
    requires n <= |a| == |b|
    requires forall i :: 0 <= i < |a| ==> a[i].maxDist == b[i].maxDist && (a[i].slots == [] <==> b[i].slots == [])
    ensures RadiusEntriesUpTo(a, n) == RadiusEntriesUpTo(b, n)
  {
    if n > 0 { SameRadiusEntries(a, b, n - 1); }
  }
}
