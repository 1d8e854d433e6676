/** Stored vectors, pages and the values the index derives from them. A page keeps its anchor in slot 0
    and, in maxDist, the largest squared distance from the anchor to another slot. */
module Pages {
  import opened Vectors
  import opened Entries

  datatype Slot = Slot(id: nat, vec: Vec)

  datatype Page = Page(slots: seq<Slot>, maxDist: real)

  /** A page of a new, zeroed file. */
  const EMPTY_PAGE: Page := Page([], 0.0)

  /** The squared distance of two vectors of one database, which all have its dimension. */
  function Dist(x: Vec, y: Vec): (r: real)
    ensures r >= 0.0
  {
    if |x| == |y| then SqDist(x, y) else 0.0
  }

  lemma DistSymmetric(x: Vec, y: Vec)
    ensures Dist(x, y) == Dist(y, x)
  {
    if |x| == |y| { SqDistSymmetric(x, y); }
  }

  lemma SqDistSelfUpTo(x: Vec, n: nat)
    requires n <= |x|
    ensures SqDistUpTo(x, x, n) == 0.0
  {
  }

  lemma DistSelf(x: Vec)
    ensures Dist(x, x) == 0.0
  {
    SqDistSelfUpTo(x, |x|);
  }

  /** Distance of slot i to the anchor. */
  function AnchorDist(slots: seq<Slot>, i: nat): (r: real)
    requires i < |slots|
    ensures r >= 0.0
  {
    Dist(slots[i].vec, slots[0].vec)
  }

  /** Largest distance to the anchor among the first n slots. */
  function RadiusUpTo(slots: seq<Slot>, n: nat): (r: real)
    requires n <= |slots|
    ensures forall i :: 0 <= i < n ==> AnchorDist(slots, i) <= r
    ensures n > 1 ==> exists i :: 1 <= i < n && AnchorDist(slots, i) == r
    ensures n <= 1 ==> r == 0.0
  {
    if n <= 1 then
      if n == 1 then DistSelf(slots[0].vec); 0.0 else 0.0
    else
      var r := RadiusUpTo(slots, n - 1);
      var d := AnchorDist(slots, n - 1);
      if r < d then d else r
  }

  function Radius(slots: seq<Slot>): real {
    RadiusUpTo(slots, |slots|)
  }

  /** Tight radius, one dimension, bounded fill. Empty pages are zeroed. */
  ghost predicate PageOk(p: Page, dim: nat, capacity: nat) {
    && |p.slots| <= capacity
    && (forall i :: 0 <= i < |p.slots| ==> |p.slots[i].vec| == dim)
    && p.maxDist == Radius(p.slots)
  }

  ghost predicate PagesOk(pages: seq<Page>, dim: nat, capacity: nat) {
    forall i :: 0 <= i < |pages| ==> PageOk(pages[i], dim, capacity)
  }

  /** Everything stored, as a bag of (id, vector). */
  function Contents(pages: seq<Page>): multiset<Slot> {
    if pages == [] then multiset{} else Contents(pages[..|pages| - 1]) + multiset(pages[|pages| - 1].slots)
  }

  lemma BagCancel(x: multiset<Slot>, y: multiset<Slot>, w: multiset<Slot>)
    requires x + w == y + w
    ensures x == y
  {
    assert x == (x + w) - w;
    assert y == (y + w) - w;
  }

  lemma ContentsSnoc(pages: seq<Page>, p: Page)
    ensures Contents(pages + [p]) == Contents(pages) + multiset(p.slots)
  {
    assert (pages + [p])[..|pages|] == pages;
  }

  lemma {:induction false} ContentsUpdate(pages: seq<Page>, i: nat, p: Page)
    requires i < |pages|
    ensures Contents(pages[i := p]) + multiset(pages[i].slots) == Contents(pages) + multiset(p.slots)
  {
    hide Contents;
    var n := |pages| - 1;
    var front := pages[..n];
    assert pages == front + [pages[n]];
    ContentsSnoc(front, pages[n]);
    if i < n {
      assert pages[i := p] == front[i := p] + [pages[n]];
      ContentsUpdate(front, i, p);
      ContentsSnoc(front[i := p], pages[n]);
      var last, was, now := multiset(pages[n].slots), multiset(pages[i].slots), multiset(p.slots);
      assert (Contents(front[i := p]) + last) + was == (Contents(front[i := p]) + was) + last;
      assert (Contents(front) + now) + last == (Contents(front) + last) + now;
    } else {
      assert pages[i := p] == front + [p];
      ContentsSnoc(front, p);
    }
  }

  lemma {:induction false} ContentsAppend(pages: seq<Page>, more: seq<Page>)
    ensures Contents(pages + more) == Contents(pages) + Contents(more)
  {
    if more == [] {
      assert pages + more == pages;
    } else {
      var n := |more| - 1;
      assert pages + more == (pages + more[..n]) + [more[n]];
      ContentsAppend(pages, more[..n]);
      ContentsSnoc(pages + more[..n], more[n]);
    }
  }

  lemma {:induction false} ContentsEmpty(pages: seq<Page>)
    requires forall i :: 0 <= i < |pages| ==> pages[i].slots == []
    ensures Contents(pages) == multiset{}
  {
    if pages != [] { ContentsEmpty(pages[..|pages| - 1]); }
  }

  /** Anchor distances of the non-empty pages among the first n, tagged with the page index. */
  function AnchorEntriesUpTo(pages: seq<Page>, q: Vec, n: nat): (r: seq<Entry>)
    requires n <= |pages|
    ensures forall e :: e in r ==>
      e.id < n && pages[e.id].slots != [] && e.dist == Dist(q, pages[e.id].slots[0].vec)
  {
    if n == 0 then []
    else
      var r := AnchorEntriesUpTo(pages, q, n - 1);
      if pages[n - 1].slots == [] then r
      else r + [Entry(Dist(q, pages[n - 1].slots[0].vec), n - 1)]
  }

  lemma {:induction false} NoAnchorsWhenEmpty(pages: seq<Page>, q: Vec, n: nat)
    requires n <= |pages|
    ensures AnchorEntriesUpTo(pages, q, n) == [] <==> forall i :: 0 <= i < n ==> pages[i].slots == []
  {
    if n > 0 { NoAnchorsWhenEmpty(pages, q, n - 1); }
  }

  /** The pages in the order a query visits them: by anchor distance, then by page index. */
  function VisitOrder(pages: seq<Page>, q: Vec): (r: seq<Entry>)
    ensures forall e :: e in r ==>
      e.id < |pages| && pages[e.id].slots != [] && e.dist == Dist(q, pages[e.id].slots[0].vec)
    ensures r == [] <==> forall i :: 0 <= i < |pages| ==> pages[i].slots == []
    ensures Sorted(r)
  {
    var u := AnchorEntriesUpTo(pages, q, |pages|);
    var r := Sort(u);
    assert forall e :: e in r ==> e in multiset(u);
    assert r == [] <==> u == [];
    NoAnchorsWhenEmpty(pages, q, |pages|);
    r
  }

  /** The cached radii of the non-empty pages among the first n, tagged with the page index. */
  function RadiusEntriesUpTo(pages: seq<Page>, n: nat): (r: seq<Entry>)
    requires n <= |pages|
    ensures |r| <= n
    ensures forall e :: e in r ==> e.id < n && pages[e.id].slots != [] && e.dist == pages[e.id].maxDist
  {
    if n == 0 then []
    else
      var r := RadiusEntriesUpTo(pages, n - 1);
      if pages[n - 1].slots == [] then r else r + [Entry(pages[n - 1].maxDist, n - 1)]
  }
}
