/** The whole insertion: evictions follow one another until some vector finds room. Every eviction
    replaces the farthest member of a page by a strictly closer one while no anchor moves, so the sum
    of the ranks of all member-to-anchor distances, within the finite set of distances that can occur,
    strictly falls. */
module Eviction {
  import opened Vectors
  import opened Entries
  import opened Pages
  import opened Insertion

  /** Slot 0 of every page, where there is one. */
  ghost function Anchors(pages: seq<Page>): (r: seq<seq<Slot>>)
    ensures |r| == |pages|
    ensures forall i :: 0 <= i < |pages| ==> r[i] == (if pages[i].slots == [] then [] else [pages[i].slots[0]])
  {
    seq(|pages|, i requires 0 <= i < |pages| => if pages[i].slots == [] then [] else [pages[i].slots[0]])
  }

  ghost function Distances(bag: multiset<Slot>, anchors: seq<seq<Slot>>): set<real> {
    set s, i | s in bag && 0 <= i < |anchors| && anchors[i] != [] :: Dist(s.vec, anchors[i][0].vec)
  }

  /** Every distance from a vector in play to an anchor. */
  ghost function Universe(pages: seq<Page>, s: Slot): set<real> {
    Distances(Contents(pages) + multiset{s}, Anchors(pages))
  }

  ghost function Below(d: real, ds: set<real>): set<real> {
    set x | x in ds && x < d
  }

  ghost function Rank(d: real, ds: set<real>): nat {
    |Below(d, ds)|
  }

  lemma SmallerSet(a: set<real>, b: set<real>)
    requires a < b
    ensures |a| < |b|
  {
    assert b == a + (b - a);
  }

  lemma RankStrict(c: real, d: real, ds: set<real>)
    requires c < d && c in ds
    ensures Rank(c, ds) < Rank(d, ds)
  {
    assert c in Below(d, ds) && c !in Below(c, ds);
    SmallerSet(Below(c, ds), Below(d, ds));
  }

  ghost function PagePotential(slots: seq<Slot>, n: nat, ds: set<real>): nat
    requires n <= |slots|
  {
    if n == 0 then 0 else PagePotential(slots, n - 1, ds) + Rank(AnchorDist(slots, n - 1), ds)
  }

  ghost function Potential(pages: seq<Page>, ds: set<real>): nat {
    if pages == [] then 0
    else
      var p := pages[|pages| - 1];
      Potential(pages[..|pages| - 1], ds) + PagePotential(p.slots, |p.slots|, ds)
  }

  lemma {:induction false} PagePotentialReplaced(slots: seq<Slot>, n: nat, v: nat, s: Slot, ds: set<real>)
    requires n <= |slots| && 1 <= v < |slots|
    ensures PagePotential(slots[v := s], n, ds) + (if v < n then Rank(AnchorDist(slots, v), ds) else 0)
      == PagePotential(slots, n, ds) + (if v < n then Rank(Dist(s.vec, slots[0].vec), ds) else 0)
  {
    hide Rank, Dist;
    if n > 0 { PagePotentialReplaced(slots, n - 1, v, s, ds); }
  }

  lemma {:induction false} PotentialReplaced(pages: seq<Page>, i: nat, p: Page, ds: set<real>)
    requires i < |pages|
    ensures Potential(pages[i := p], ds) + PagePotential(pages[i].slots, |pages[i].slots|, ds)
      == Potential(pages, ds) + PagePotential(p.slots, |p.slots|, ds)
  {
    var n := |pages| - 1;
    if i < n {
      assert pages[i := p][..n] == pages[..n][i := p];
      PotentialReplaced(pages[..n], i, p, ds);
    } else {
      assert pages[i := p][..n] == pages[..n];
    }
  }

  lemma DistanceOccurs(pages: seq<Page>, s: Slot, i: nat)
    requires i < |pages| && pages[i].slots != []
    ensures Dist(s.vec, pages[i].slots[0].vec) in Universe(pages, s)
  {
    assert s in Contents(pages) + multiset{s} && Anchors(pages)[i] == [pages[i].slots[0]];
  }

  lemma EvictionKeepsUniverse(pages: seq<Page>, perFile: nat, limit: nat, s: Slot, i: nat, v: nat)
    requires 0 < perFile && CaseFits(pages, limit, s, Case4_Evict(i, v))
    ensures var out := Apply(pages, perFile, limit, s, Case4_Evict(i, v));
      Anchors(out.pages) == Anchors(pages) && Universe(out.pages, out.victim) == Universe(pages, s)
  {
    hide Contents, Radius;
    var p := Tightened(pages[i].slots[v := s]);
    assert Anchors(pages[i := p]) == Anchors(pages);
    StepConserves(pages, perFile, limit, s, Case4_Evict(i, v));
  }

  /** The eviction step moves no anchor, keeps the universe of distances and lowers the potential. */
  lemma EvictionDecreases(pages: seq<Page>, perFile: nat, limit: nat, s: Slot, i: nat, v: nat)
    requires 0 < perFile && CaseFits(pages, limit, s, Case4_Evict(i, v))
    ensures var out := Apply(pages, perFile, limit, s, Case4_Evict(i, v));
      && Anchors(out.pages) == Anchors(pages)
      && Universe(out.pages, out.victim) == Universe(pages, s)
      && Potential(out.pages, Universe(pages, s)) < Potential(pages, Universe(pages, s))
  {
    EvictionKeepsUniverse(pages, perFile, limit, s, i, v);
    DistanceOccurs(pages, s, i);
    hide Contents, Radius, Universe, Rank, Potential, PagePotential, Anchors;
    var slots, ds := pages[i].slots, Universe(pages, s);
    RankStrict(Dist(s.vec, slots[0].vec), AnchorDist(slots, v), ds);
    PagePotentialReplaced(slots, |slots|, v, s, ds);
    PotentialReplaced(pages, i, Tightened(slots[v := s]), ds);
  }

  /** All the pages after an insertion, with every eviction it triggers. */
  function Inserted(pages: seq<Page>, perFile: nat, dim: nat, capacity: nat, limit: nat, s: Slot): (r: seq<Page>)
    requires 0 < perFile && Ready(pages, dim, capacity, limit, s)
    ensures PagesOk(r, dim, capacity) && |pages| <= |r| <= |pages| + perFile
    ensures Contents(r) == Contents(pages) + multiset{s}
    decreases Potential(pages, Universe(pages, s))
  {
    var c := Classify(pages, limit, s);
    ClassifyFits(pages, dim, capacity, limit, s);
    StepKeepsOk(pages, perFile, dim, capacity, limit, s, c);
    StepConserves(pages, perFile, limit, s, c);
    match Step(pages, perFile, limit, s)
    case Done(pages') => pages'
    case Evicted(pages', victim) =>
      EvictionDecreases(pages, perFile, limit, s, c.page, c.victim);
      Inserted(pages', perFile, dim, capacity, limit, victim)
  }

  lemma StepIsReady(pages: seq<Page>, perFile: nat, dim: nat, capacity: nat, limit: nat, s: Slot)
    requires 0 < perFile && Ready(pages, dim, capacity, limit, s)
    ensures CaseFits(pages, limit, s, Classify(pages, limit, s))
    ensures var out := Step(pages, perFile, limit, s);
      PagesOk(out.pages, dim, capacity) && (out.Evicted? ==> Ready(out.pages, dim, capacity, limit, out.victim))
  {
    hide Radius, Classify;
    ClassifyFits(pages, dim, capacity, limit, s);
    StepKeepsOk(pages, perFile, dim, capacity, limit, s, Classify(pages, limit, s));
  }

  lemma InsertedUnfolds(pages: seq<Page>, perFile: nat, dim: nat, capacity: nat, limit: nat, s: Slot)
    requires 0 < perFile && Ready(pages, dim, capacity, limit, s)
    requires CaseFits(pages, limit, s, Classify(pages, limit, s))
    ensures match Step(pages, perFile, limit, s)
      case Done(pages') => Inserted(pages, perFile, dim, capacity, limit, s) == pages'
      case Evicted(pages', victim) =>
        Ready(pages', dim, capacity, limit, victim) ==>
          Inserted(pages, perFile, dim, capacity, limit, s) == Inserted(pages', perFile, dim, capacity, limit, victim)
  {
    hide Step, Classify, CaseFits, PagesOk, Contents, Potential, Universe;
  }

  /** A fill bound of at least the page limit survives insertions, however large the pages are. */
  lemma {:induction false} InsertedWithinFill(pages: seq<Page>, perFile: nat, dim: nat, capacity: nat, limit: nat,
                                              s: Slot, fill: nat)
    requires 0 < perFile && Ready(pages, dim, capacity, limit, s)
    requires 2 <= fill && limit <= fill && PagesOk(pages, dim, fill)
    ensures PagesOk(Inserted(pages, perFile, dim, capacity, limit, s), dim, fill)
    decreases Potential(pages, Universe(pages, s))
  {
    var c := Classify(pages, limit, s);
    ClassifyFits(pages, dim, capacity, limit, s);
    StepKeepsOk(pages, perFile, dim, capacity, limit, s, c);
    StepKeepsOk(pages, perFile, dim, fill, limit, s, c);
    match Step(pages, perFile, limit, s)
    case Done(_) =>
    case Evicted(pages', victim) =>
      EvictionDecreases(pages, perFile, limit, s, c.page, c.victim);
      InsertedWithinFill(pages', perFile, dim, capacity, limit, victim, fill);
  }

  ghost predicate AnchorsKept(pages: seq<Page>, r: seq<Page>) {
    && |pages| <= |r|
    && forall i :: 0 <= i < |pages| && pages[i].slots != [] ==>
      r[i].slots != [] && r[i].slots[0] == pages[i].slots[0]
  }

  lemma StepKeepsAnchors(pages: seq<Page>, perFile: nat, limit: nat, s: Slot, c: Case)
    requires 0 < perFile && CaseFits(pages, limit, s, c)
    ensures AnchorsKept(pages, Apply(pages, perFile, limit, s, c).pages)
  {
    hide Radius, Dist;
  }

  lemma AnchorsKeptTransitive(a: seq<Page>, b: seq<Page>, c: seq<Page>)
    requires AnchorsKept(a, b) && AnchorsKept(b, c)
    ensures AnchorsKept(a, c)
  {
  }

  /** Anchors never move: a page that held vectors keeps its slot 0 through every insertion. */
  lemma {:induction false} InsertedKeepsAnchors(pages: seq<Page>, perFile: nat, dim: nat, capacity: nat, limit: nat,
                                                s: Slot)
    requires 0 < perFile && Ready(pages, dim, capacity, limit, s)
    ensures AnchorsKept(pages, Inserted(pages, perFile, dim, capacity, limit, s))
    decreases Potential(pages, Universe(pages, s))
  {
    hide AnchorsKept, Radius, Contents, Classify, Potential, Universe;
    var c := Classify(pages, limit, s);
    ClassifyFits(pages, dim, capacity, limit, s);
    StepKeepsOk(pages, perFile, dim, capacity, limit, s, c);
    StepKeepsAnchors(pages, perFile, limit, s, c);
    match Step(pages, perFile, limit, s)
    case Done(_) =>
    case Evicted(pages', victim) =>
      EvictionDecreases(pages, perFile, limit, s, c.page, c.victim);
      InsertedKeepsAnchors(pages', perFile, dim, capacity, limit, victim);
      AnchorsKeptTransitive(pages, pages', Inserted(pages', perFile, dim, capacity, limit, victim));
  }

  /** Insertions one after another, each with the effective capacity of its own call. */
  function InsertedAll(pages: seq<Page>, perFile: nat, dim: nat, capacity: nat, items: seq<Slot>, limits: seq<nat>)
      : (r: seq<Page>)
    requires 0 < perFile && PagesOk(pages, dim, capacity) && 0 < |pages| && 2 <= capacity
    requires |limits| == |items| && forall i :: 0 <= i < |items| ==> |items[i].vec| == dim && limits[i] <= capacity
    ensures PagesOk(r, dim, capacity) && 0 < |r|
    ensures Contents(r) == Contents(pages) + multiset(items)
  {
    if items == [] then pages
    else
      var n := |items| - 1;
      assert items == items[..n] + [items[n]];
      var before := InsertedAll(pages, perFile, dim, capacity, items[..n], limits[..n]);
      Inserted(before, perFile, dim, capacity, limits[n], items[n])
  }

  /** One item more is one insertion more, after all the others: the order of the calls is that of the list. */
  lemma InsertedAllOneMore(pages: seq<Page>, perFile: nat, dim: nat, capacity: nat, items: seq<Slot>, limits: seq<nat>,
                           s: Slot, limit: nat)
    requires 0 < perFile && PagesOk(pages, dim, capacity) && 0 < |pages| && 2 <= capacity
    requires |limits| == |items| && forall i :: 0 <= i < |items| ==> |items[i].vec| == dim && limits[i] <= capacity
    requires |s.vec| == dim && limit <= capacity
    ensures InsertedAll(pages, perFile, dim, capacity, [], []) == pages
    ensures InsertedAll(pages, perFile, dim, capacity, items + [s], limits + [limit])
      == Inserted(InsertedAll(pages, perFile, dim, capacity, items, limits), perFile, dim, capacity, limit, s)
  {
    assert (items + [s])[..|items|] == items && (limits + [limit])[..|items|] == limits;
    hide Inserted, PagesOk, Contents;
  }
}
