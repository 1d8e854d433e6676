/** Indexes on a line, seen from a query at 0: every page is anchored at one position and holds its other
    vectors at another. They realise what a search can meet, so that failing runs are runs over an index. */
module LineIndex {
  import opened Vectors
  import opened Entries
  import opened Pages
  import opened SphereBound
  import opened Probes

  function Copies(e: Entry, n: nat): (r: seq<Entry>)
    ensures |r| == n && forall i :: 0 <= i < n ==> r[i] == e
  {
    seq(n, _ => e)
  }

  function Slots(a: real, x: real, n: nat): (r: seq<Slot>)
    ensures |r| == n
    ensures forall i :: 0 <= i < n ==> r[i] == if i == 0 then Slot(0, [a]) else Slot(1, [x])
  {
    seq(n, i => if i == 0 then Slot(0, [a]) else Slot(1, [x]))
  }

  /** Square of the distance between the anchor and the others, once there are others. */
  function Spread(a: real, x: real, n: nat): real {
    if n >= 2 then (x - a) * (x - a) else 0.0
  }

  function LinePage(a: real, x: real, n: nat): Page {
    Page(Slots(a, x, n), Spread(a, x, n))
  }

  function LinePages(anchors: seq<real>, members: seq<real>, sizes: seq<nat>): (r: seq<Page>)
    requires |anchors| == |members| == |sizes|
    ensures |r| == |sizes|
    ensures forall c :: 0 <= c < |r| ==> r[c] == LinePage(anchors[c], members[c], sizes[c])
  {
    seq(|sizes|, c requires 0 <= c < |sizes| => LinePage(anchors[c], members[c], sizes[c]))
  }

  const ORIGIN: Vec := [0.0]

  function LineProbe(a: real, x: real, n: nat): (r: Probe)
    ensures |r.entries| == n
  {
    Probe(a * a, Spread(a, x, n), if n == 0 then [] else [Entry(a * a, 0)] + Copies(Entry(x * x, 1), n - 1))
  }

  lemma DistOf(x: real, y: real)
    ensures Dist([x], [y]) == (x - y) * (x - y)
  {
    DistOnALine(x, y);
  }

  lemma DistToOrigin(x: real)
    ensures Dist([x], ORIGIN) == x * x == Dist(ORIGIN, [x])
  {
    DistOf(x, 0.0);
    DistSymmetric([x], ORIGIN);
  }

  lemma {:induction false} RadiusOfSpread(slots: seq<Slot>, d: real, n: nat)
    requires 2 <= n <= |slots| && forall i :: 1 <= i < |slots| ==> AnchorDist(slots, i) == d
    ensures RadiusUpTo(slots, n) == d
  {
    if n > 2 { RadiusOfSpread(slots, d, n - 1); }
  }

  lemma LinePageOk(a: real, x: real, n: nat, capacity: nat)
    requires n <= capacity
    ensures PageOk(LinePage(a, x, n), 1, capacity)
  {
    if n >= 2 {
      DistOf(x, a);
      RadiusOfSpread(Slots(a, x, n), Spread(a, x, n), n);
    }
  }

  lemma LineEntries(a: real, x: real, n: nat)
    ensures EntriesOf(ORIGIN, Slots(a, x, n)) == LineProbe(a, x, n).entries
  {
    DistToOrigin(a);
    DistToOrigin(x);
    hide Dist;
  }

  /** Anchors farther and farther out, no page empty. */
  ghost predicate Outward(anchors: seq<real>, sizes: seq<nat>) {
    && |anchors| == |sizes|
    && (forall c :: 0 <= c < |sizes| ==> 0 < sizes[c] && 0.0 <= anchors[c])
    && forall c, e :: 0 <= c < e < |anchors| ==> anchors[c] <= anchors[e]
  }

  /** The anchor distances in page order. */
  function LineOrder(anchors: seq<real>, n: nat): (r: seq<Entry>)
    requires n <= |anchors|
    ensures |r| == n && forall c :: 0 <= c < n ==> r[c] == Entry(anchors[c] * anchors[c], c)
  {
    seq(n, c requires 0 <= c < n => Entry(anchors[c] * anchors[c], c))
  }

  lemma AnchorOnLine(anchors: seq<real>, members: seq<real>, sizes: seq<nat>, c: nat)
    requires |anchors| == |members| == |sizes| && c < |sizes| && 0 < sizes[c]
    ensures var slots := LinePages(anchors, members, sizes)[c].slots;
      slots != [] && Entry(Dist(ORIGIN, slots[0].vec), c) == Entry(anchors[c] * anchors[c], c)
  {
    DistToOrigin(anchors[c]);
  }

  lemma LineOrderMore(anchors: seq<real>, n: nat)
    requires n < |anchors|
    ensures LineOrder(anchors, n + 1) == LineOrder(anchors, n) + [Entry(anchors[n] * anchors[n], n)]
  {
  }

  lemma {:induction false} AnchorsOnLine(anchors: seq<real>, members: seq<real>, sizes: seq<nat>, n: nat)
    requires Outward(anchors, sizes) && |members| == |sizes| && n <= |sizes|
    ensures AnchorEntriesUpTo(LinePages(anchors, members, sizes), ORIGIN, n) == LineOrder(anchors, n)
  {
    if n > 0 {
      hide Dist, LinePages, LineOrder;
      AnchorsOnLine(anchors, members, sizes, n - 1);
      AnchorOnLine(anchors, members, sizes, n - 1);
      LineOrderMore(anchors, n - 1);
    } else {
      assert LineOrder(anchors, 0) == [];
    }
  }

  lemma LineOrderSorted(anchors: seq<real>, sizes: seq<nat>)
    requires Outward(anchors, sizes)
    ensures Sorted(LineOrder(anchors, |anchors|))
  {
    forall c, e | 0 <= c < e < |anchors| ensures anchors[c] * anchors[c] <= anchors[e] * anchors[e] {
      SquareOfSmaller(anchors[c], anchors[e]);
    }
  }

  lemma VisitOrderOnLine(anchors: seq<real>, members: seq<real>, sizes: seq<nat>)
    requires Outward(anchors, sizes) && |members| == |sizes|
    ensures VisitOrder(LinePages(anchors, members, sizes), ORIGIN) == LineOrder(anchors, |anchors|)
  {
    var pages := LinePages(anchors, members, sizes);
    AnchorsOnLine(anchors, members, sizes, |sizes|);
    LineOrderSorted(anchors, sizes);
    SortedUnique(Sort(AnchorEntriesUpTo(pages, ORIGIN, |pages|)), LineOrder(anchors, |anchors|));
  }

  /** The index is valid, and the query at 0 sees its pages in order as plain line probes. */
  lemma IndexOnLine(anchors: seq<real>, members: seq<real>, sizes: seq<nat>, capacity: nat)
    requires Outward(anchors, sizes) && |members| == |sizes|
    requires forall c :: 0 <= c < |sizes| ==> sizes[c] <= capacity
    ensures PagesOk(LinePages(anchors, members, sizes), 1, capacity)
    ensures var ps := ProbesFor(LinePages(anchors, members, sizes), ORIGIN);
      |ps| == |sizes| && forall c :: 0 <= c < |ps| ==> ps[c] == LineProbe(anchors[c], members[c], sizes[c])
  {
    var pages := LinePages(anchors, members, sizes);
    forall c | 0 <= c < |pages| ensures PageOk(pages[c], 1, capacity) {
      LinePageOk(anchors[c], members[c], sizes[c], capacity);
    }
    VisitOrderOnLine(anchors, members, sizes);
    hide Sort, VisitOrder, LinePage;
    var ps := ProbesFor(pages, ORIGIN);
    forall c | 0 <= c < |ps| ensures ps[c] == LineProbe(anchors[c], members[c], sizes[c]) {
      var order := VisitOrder(pages, ORIGIN);
      assert order[c] in order;
      LineProbeSeen(anchors, members, sizes, c);
    }
  }

  lemma LineProbeSeen(anchors: seq<real>, members: seq<real>, sizes: seq<nat>, c: nat)
    requires |anchors| == |members| == |sizes| && c < |sizes|
    ensures ProbeOf(LinePages(anchors, members, sizes), ORIGIN, Entry(anchors[c] * anchors[c], c))
      == LineProbe(anchors[c], members[c], sizes[c])
  {
    LineEntries(anchors[c], members[c], sizes[c]);
  }
}
