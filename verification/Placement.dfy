/** Where an insertion puts a vector, said on the pages alone: the nearest anchor decides, the farthest member
    gives way, the lowest empty page is opened. */
module Placement {
  import opened Vectors
  import opened Entries
  import opened Pages
  import opened Insertion
  import opened Eviction

  /** Page i holds vectors, and no anchor is nearer to x; among equally near ones it is the lowest page. */
  ghost predicate IsNearest(pages: seq<Page>, x: Vec, i: nat) {
    && i < |pages| && pages[i].slots != []
    && forall j :: 0 <= j < |pages| && pages[j].slots != [] ==>
      var d, d' := Dist(x, pages[i].slots[0].vec), Dist(x, pages[j].slots[0].vec);
      d < d' || (d == d' && i <= j)
  }

  /** Slot v is the first one behind the anchor that lies as far from it as any. */
  ghost predicate IsFarthest(slots: seq<Slot>, v: nat) {
    && 1 <= v < |slots|
    && (forall j :: 0 <= j < |slots| ==> AnchorDist(slots, j) <= AnchorDist(slots, v))
    && (forall j :: 1 <= j < v ==> AnchorDist(slots, j) < AnchorDist(slots, v))
  }

  ghost predicate IsFirstEmpty(pages: seq<Page>, e: nat) {
    e < |pages| && pages[e].slots == [] && forall j :: 0 <= j < e ==> pages[j].slots != []
  }

  ghost predicate NoneEmpty(pages: seq<Page>) {
    forall j :: 0 <= j < |pages| ==> pages[j].slots != []
  }

  // ---------- The head of the visiting order ----------

  lemma {:induction false} AnchorListed(pages: seq<Page>, q: Vec, n: nat, i: nat)
    requires n <= |pages| && i < n && pages[i].slots != []
    ensures Entry(Dist(q, pages[i].slots[0].vec), i) in AnchorEntriesUpTo(pages, q, n)
  {
    if i < n - 1 { AnchorListed(pages, q, n - 1, i); }
  }

  lemma FirstInOrder(order: seq<Entry>, u: seq<Entry>, e: Entry)
    requires Sorted(order) && multiset(order) == multiset(u) && e in u
    ensures order != [] && Le(order[0], e) && order[0] in order
  {
    assert e in multiset(u);
    assert e in order;
  }

  /** The visiting order of a vector starts with its nearest page. */
  lemma NearestComesFirst(pages: seq<Page>, x: Vec, i: nat)
    requires IsNearest(pages, x, i)
    ensures VisitOrder(pages, x) != [] && VisitOrder(pages, x)[0] == Entry(Dist(x, pages[i].slots[0].vec), i)
  {
    var order, e := VisitOrder(pages, x), Entry(Dist(x, pages[i].slots[0].vec), i);
    AnchorListed(pages, x, |pages|, i);
    FirstInOrder(order, AnchorEntriesUpTo(pages, x, |pages|), e);
    hide Sort, AnchorEntriesUpTo, Dist;
  }

  /** Unless all pages are empty there is a nearest one. */
  lemma NearestExists(pages: seq<Page>, x: Vec, j: nat) returns (i: nat)
    requires j < |pages| && pages[j].slots != []
    ensures IsNearest(pages, x, i)
  {
    var order := VisitOrder(pages, x);
    var u := AnchorEntriesUpTo(pages, x, |pages|);
    AnchorListed(pages, x, |pages|, j);
    FirstInOrder(order, u, Entry(Dist(x, pages[j].slots[0].vec), j));
    i := order[0].id;
    hide Sort, AnchorEntriesUpTo, Dist;
    forall k | 0 <= k < |pages| && pages[k].slots != []
      ensures Le(order[0], Entry(Dist(x, pages[k].slots[0].vec), k))
    {
      AnchorListed(pages, x, |pages|, k);
      FirstInOrder(order, u, Entry(Dist(x, pages[k].slots[0].vec), k));
    }
  }

  // ---------- The victim and the empty page ----------

  lemma FarthestIsVictim(p: Page, v: nat)
    requires p.maxDist == Radius(p.slots) && IsFarthest(p.slots, v)
    ensures VictimFrom(p, 1) == v && AnchorDist(p.slots, v) == p.maxDist
  {
    var i :| 1 <= i < |p.slots| && AnchorDist(p.slots, i) == p.maxDist;
  }

  /** A page of two vectors or more has a farthest member. */
  lemma FarthestExists(p: Page) returns (v: nat)
    requires p.maxDist == Radius(p.slots) && |p.slots| >= 2
    ensures IsFarthest(p.slots, v)
  {
    v := VictimFrom(p, 1);
    VictimExists(p);
  }

  lemma FirstEmptyIs(pages: seq<Page>, e: nat)
    requires IsFirstEmpty(pages, e)
    ensures FirstEmptyFrom(pages, 0) == e
  {
  }

  // ---------- Where the vector goes ----------

  lemma RadiusOfTwo(a: Slot, s: Slot)
    ensures Radius([a] + [s]) == Dist(s.vec, a.vec)
  {
    var slots := [a] + [s];
    assert RadiusUpTo(slots, 1) == 0.0;
    assert AnchorDist(slots, 1) == Dist(s.vec, a.vec);
  }

  lemma PageOkOf(pages: seq<Page>, dim: nat, capacity: nat, i: nat)
    requires PagesOk(pages, dim, capacity) && i < |pages|
    ensures pages[i].maxDist == Radius(pages[i].slots)
  {
    assert PageOk(pages[i], dim, capacity);
  }

  lemma NearestDecides(pages: seq<Page>, limit: nat, s: Slot, i: nat)
    requires IsNearest(pages, s.vec, i) && pages[i].maxDist == Radius(pages[i].slots)
    ensures var slots, e := pages[i].slots, FirstEmptyFrom(pages, 0);
      Classify(pages, limit, s) ==
        if |slots| == 1 then Case2_JoinLoneAnchor(i)
        else if Dist(s.vec, slots[0].vec) < Radius(slots) then
          if |slots| < limit then Case3_JoinInside(i) else Case4_Evict(i, VictimFrom(pages[i], 1))
        else if e < |pages| then Case5_OpenPage(e) else Case6_NewFile
  {
    NearestComesFirst(pages, s.vec, i);
    hide VisitOrder, Radius, Dist, VictimFrom, FirstEmptyFrom, IsNearest;
  }

  /** The first vector opens page 0. */
  lemma FirstVectorPlaced(pages: seq<Page>, perFile: nat, dim: nat, capacity: nat, limit: nat, s: Slot)
    requires 0 < perFile && Ready(pages, dim, capacity, limit, s)
    requires forall j :: 0 <= j < |pages| ==> pages[j].slots == []
    ensures Inserted(pages, perFile, dim, capacity, limit, s) == pages[0 := Page([s], 0.0)]
  {
    ClassifyFits(pages, dim, capacity, limit, s);
    EmptyIsZeroed(pages[0], dim, capacity);
    hide VisitOrder, PagesOk, Contents, Potential, Universe;
    InsertedUnfolds(pages, perFile, dim, capacity, limit, s);
  }

  /** A vector joins its nearest page if that is a lone anchor, which gets its first radius, or has the vector
      inside its radius and room under the limit. No other page changes. */
  lemma VectorJoins(pages: seq<Page>, perFile: nat, dim: nat, capacity: nat, limit: nat, s: Slot, i: nat)
    requires 0 < perFile && Ready(pages, dim, capacity, limit, s) && IsNearest(pages, s.vec, i)
    ensures var slots, d, r := pages[i].slots, Dist(s.vec, pages[i].slots[0].vec),
                               Inserted(pages, perFile, dim, capacity, limit, s);
      && (|slots| == 1 ==> r == pages[i := Page(slots + [s], d)])
      && (|slots| >= 2 && d < Radius(slots) && |slots| < limit ==> r == pages[i := Page(slots + [s], Radius(slots))])
  {
    PageOkOf(pages, dim, capacity, i);
    NearestDecides(pages, limit, s, i);
    ClassifyFits(pages, dim, capacity, limit, s);
    var slots := pages[i].slots;
    if |slots| == 1 {
      RadiusOfTwo(slots[0], s);
      assert slots == [slots[0]];
    }
    hide Classify, PagesOk, Contents, Potential, Universe, Radius, Dist, VictimFrom, FirstEmptyFrom, IsNearest;
    InsertedUnfolds(pages, perFile, dim, capacity, limit, s);
  }

  /** A vector inside the radius of a nearest page without room takes the slot of its farthest member, and that
      member is inserted next. */
  lemma VectorDisplaces(pages: seq<Page>, perFile: nat, dim: nat, capacity: nat, limit: nat, s: Slot, i: nat, v: nat)
    requires 0 < perFile && Ready(pages, dim, capacity, limit, s) && IsNearest(pages, s.vec, i)
    requires |pages[i].slots| >= limit && |pages[i].slots| >= 2 && IsFarthest(pages[i].slots, v)
    requires Dist(s.vec, pages[i].slots[0].vec) < Radius(pages[i].slots)
    ensures var slots := pages[i].slots;
      var now, victim := pages[i := Page(slots[v := s], Radius(slots[v := s]))], slots[v];
      && Ready(now, dim, capacity, limit, victim)
      && Inserted(pages, perFile, dim, capacity, limit, s) == Inserted(now, perFile, dim, capacity, limit, victim)
  {
    PageOkOf(pages, dim, capacity, i);
    NearestDecides(pages, limit, s, i);
    FarthestIsVictim(pages[i], v);
    StepIsReady(pages, perFile, dim, capacity, limit, s);
    hide Classify, PagesOk, Contents, Potential, Universe, Radius, Dist, VictimFrom, FirstEmptyFrom, IsNearest;
    InsertedUnfolds(pages, perFile, dim, capacity, limit, s);
  }

  /** A vector on or outside the radius of its nearest page becomes the anchor of the lowest empty page. */
  lemma VectorOpensPage(pages: seq<Page>, perFile: nat, dim: nat, capacity: nat, limit: nat, s: Slot, i: nat, e: nat)
    requires 0 < perFile && Ready(pages, dim, capacity, limit, s) && IsNearest(pages, s.vec, i)
    requires |pages[i].slots| >= 2 && Dist(s.vec, pages[i].slots[0].vec) >= Radius(pages[i].slots)
    requires IsFirstEmpty(pages, e)
    ensures Inserted(pages, perFile, dim, capacity, limit, s) == pages[e := Page([s], 0.0)]
  {
    PageOkOf(pages, dim, capacity, i);
    NearestDecides(pages, limit, s, i);
    ClassifyFits(pages, dim, capacity, limit, s);
    FirstEmptyIs(pages, e);
    EmptyIsZeroed(pages[e], dim, capacity);
    hide Classify, PagesOk, Contents, Potential, Universe, Radius, Dist, VictimFrom, FirstEmptyFrom, IsNearest;
    InsertedUnfolds(pages, perFile, dim, capacity, limit, s);
  }

  /** When no page is empty it becomes the anchor of the first page of a new file. */
  lemma VectorOpensFile(pages: seq<Page>, perFile: nat, dim: nat, capacity: nat, limit: nat, s: Slot, i: nat)
    requires 0 < perFile && Ready(pages, dim, capacity, limit, s) && IsNearest(pages, s.vec, i)
    requires |pages[i].slots| >= 2 && Dist(s.vec, pages[i].slots[0].vec) >= Radius(pages[i].slots)
    requires NoneEmpty(pages)
    ensures var r := Inserted(pages, perFile, dim, capacity, limit, s);
      && |r| == |pages| + perFile && r[..|pages|] == pages && r[|pages|] == Page([s], 0.0)
      && forall j :: |pages| < j < |r| ==> r[j] == EMPTY_PAGE
  {
    PageOkOf(pages, dim, capacity, i);
    NearestDecides(pages, limit, s, i);
    ClassifyFits(pages, dim, capacity, limit, s);
    assert FirstEmptyFrom(pages, 0) == |pages|;
    hide Classify, PagesOk, Contents, Potential, Universe, Radius, Dist, VictimFrom, FirstEmptyFrom, IsNearest;
    InsertedUnfolds(pages, perFile, dim, capacity, limit, s);
    hide CaseFits, Ready, Inserted;
    assert Step(pages, perFile, limit, s) == Done(pages + NewFile(perFile)[0 := Page([s], 0.0)]);
  }
}
