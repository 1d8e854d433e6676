/** The three distance functions a database can be created with, each with its pruning test. On the vectors a
    metric is meant for, searching with it is searching on squared distances, seen through a monotone map. */
module Metrics {
  import opened Vectors
  import opened Entries
  import opened Pages
  import opened SphereBound
  import opened TopK
  import opened Probes
  import opened Baseline
  import opened Exactness

  datatype Metric = NormalizedL2 | SquaredNormalizedL2 | SquaredL2

  /** A metric, and the square root the plain one uses. */
  datatype Space = Space(metric: Metric, root: real -> real)

  /** All that is asked of the root: it is one, on non-negative reals. */
  ghost predicate SpaceOk(sp: Space) {
    forall x: real :: x >= 0.0 ==> sp.root(x) >= 0.0 && sp.root(x) * sp.root(x) == x
  }

  function Clamped(x: Vec, y: Vec): real
    requires |x| == |y|
  {
    var d := 2.0 - 2.0 * Dot(x, y);
    if d <= 0.0 then 0.0 else d
  }

  /** dist_func */
  function DistFunc(sp: Space, x: Vec, y: Vec): real {
    if |x| != |y| then 0.0
    else
      match sp.metric
      case NormalizedL2 => sp.root(Clamped(x, y))
      case SquaredNormalizedL2 => Clamped(x, y)
      case SquaredL2 => SqDist(x, y)
  }

  /** prune_check_func */
  predicate PruneCheck(sp: Space, d: real, m: real, w: real) {
    if sp.metric.NormalizedL2? then PruneByDifference(d, m, w) else Prune(d, m, w)
  }

  /** The normalized metrics are meant for vectors that normalize has made unit vectors. */
  predicate Suits(sp: Space, v: Vec) {
    sp.metric.SquaredL2? || Dot(v, v) == 1.0
  }

  /** How a metric shows a squared distance. */
  function Lift(sp: Space, x: real): real {
    if sp.metric.NormalizedL2? then sp.root(x) else x
  }

  /** On any two vectors, unit or not: the normalized metrics correct the squared distance by how far the squared
      lengths are from 1, and clamp it at zero. */
  lemma NormalizedDistIs(sp: Space, x: Vec, y: Vec)
    requires SpaceOk(sp) && |x| == |y| && !sp.metric.SquaredL2?
    ensures var d := SqDist(x, y) + 2.0 - Dot(x, x) - Dot(y, y);
      var clamped := if d <= 0.0 then 0.0 else d;
      && (sp.metric.SquaredNormalizedL2? ==> DistFunc(sp, x, y) == clamped)
      && (sp.metric.NormalizedL2? ==> DistFunc(sp, x, y) >= 0.0 && DistFunc(sp, x, y) * DistFunc(sp, x, y) == clamped)
  {
    SqDistExpandsUpTo(x, y, |x|);
    assert Clamped(x, y) >= 0.0;
  }

  lemma DistIsLifted(sp: Space, x: Vec, y: Vec)
    requires SpaceOk(sp) && |x| == |y| && Suits(sp, x) && Suits(sp, y)
    ensures DistFunc(sp, x, y) == Lift(sp, Dist(x, y))
  {
    SqDistExpandsUpTo(x, y, |x|);
  }

  lemma LiftMonotone(sp: Space, x: real, y: real)
    requires SpaceOk(sp) && x >= 0.0 && y >= 0.0
    ensures Lift(sp, x) >= 0.0
    ensures x < y <==> Lift(sp, x) < Lift(sp, y)
    ensures x == y <==> Lift(sp, x) == Lift(sp, y)
  {
    var a, b := Lift(sp, x), Lift(sp, y);
    if sp.metric.NormalizedL2? {
      assert a >= 0.0 && b >= 0.0 && a * a == x && b * b == y;
      if a < b { StrictSquares(a, b); }
      if b < a { StrictSquares(b, a); }
    }
  }

  /** Each metric's test, on what the metric shows, is the squared test. */
  lemma PruneLifted(sp: Space, d: real, m: real, w: real)
    requires SpaceOk(sp) && d >= 0.0 && m >= 0.0 && w >= 0.0
    ensures PruneCheck(sp, Lift(sp, d), Lift(sp, m), Lift(sp, w)) <==> Prune(d, m, w)
  {
    if sp.metric.NormalizedL2? { PruneOnSquares(sp.root(d), sp.root(m), sp.root(w)); }
  }

  // ---------- Entries and buffers ----------

  function LiftEntry(sp: Space, e: Entry): Entry {
    Entry(Lift(sp, e.dist), e.id)
  }

  function LiftAll(sp: Space, s: seq<Entry>): (r: seq<Entry>)
    ensures |r| == |s| && forall i :: 0 <= i < |s| ==> r[i] == LiftEntry(sp, s[i])
  {
    seq(|s|, i requires 0 <= i < |s| => LiftEntry(sp, s[i]))
  }

  ghost predicate NonNegative(s: seq<Entry>) {
    forall i :: 0 <= i < |s| ==> s[i].dist >= 0.0
  }

  lemma LeLifted(sp: Space, a: Entry, b: Entry)
    requires SpaceOk(sp) && a.dist >= 0.0 && b.dist >= 0.0
    ensures Le(LiftEntry(sp, a), LiftEntry(sp, b)) <==> Le(a, b)
  {
    LiftMonotone(sp, a.dist, b.dist);
  }

  lemma LiftCons(sp: Space, e: Entry, s: seq<Entry>)
    ensures LiftAll(sp, [e] + s) == [LiftEntry(sp, e)] + LiftAll(sp, s)
  {
    hide LiftEntry;
  }

  lemma NonNegativeBag(s: seq<Entry>, m: multiset<Entry>)
    requires multiset(s) == m && forall x :: x in m ==> x.dist >= 0.0
    ensures NonNegative(s)
  {
    forall i | 0 <= i < |s| ensures s[i].dist >= 0.0 {
      assert s[i] in multiset(s);
    }
  }

  lemma InsertNonNegative(s: seq<Entry>, e: Entry)
    requires NonNegative(s) && e.dist >= 0.0
    ensures NonNegative(Insert(s, e))
  {
    forall x | x in multiset(s) + multiset{e} ensures x.dist >= 0.0 {
      assert x in s || x == e;
    }
    NonNegativeBag(Insert(s, e), multiset(s) + multiset{e});
  }

  lemma {:induction false} InsertLifted(sp: Space, s: seq<Entry>, e: Entry)
    requires SpaceOk(sp) && NonNegative(s) && e.dist >= 0.0
    ensures Insert(LiftAll(sp, s), LiftEntry(sp, e)) == LiftAll(sp, Insert(s, e))
    ensures NonNegative(Insert(s, e))
  {
    InsertNonNegative(s, e);
    if s == [] {
      LiftCons(sp, e, s);
      assert LiftAll(sp, s) == [];
    } else {
      LeLifted(sp, e, s[0]);
      assert s == [s[0]] + s[1..];
      if Le(e, s[0]) {
        LiftCons(sp, e, s);
      } else {
        InsertLifted(sp, s[1..], e);
        hide SpaceOk, Le, LiftEntry, LiftAll, NonNegative;
        LiftCons(sp, s[0], s[1..]);
        LiftCons(sp, s[0], Insert(s[1..], e));
        assert LiftAll(sp, s)[1..] == LiftAll(sp, s[1..]);
      }
    }
  }

  lemma {:induction false} SortLifted(sp: Space, s: seq<Entry>)
    requires SpaceOk(sp) && NonNegative(s)
    ensures Sort(LiftAll(sp, s)) == LiftAll(sp, Sort(s)) && NonNegative(Sort(s))
  {
    hide Insert, LiftEntry, SpaceOk, Sorted;
    if s != [] {
      var n := |s| - 1;
      SortLifted(sp, s[..n]);
      assert LiftAll(sp, s)[..n] == LiftAll(sp, s[..n]);
      InsertLifted(sp, Sort(s[..n]), s[n]);
    } else {
      assert LiftAll(sp, s) == [];
    }
  }

  lemma OfferLifted(sp: Space, kept: seq<Entry>, k: nat, e: Entry)
    requires SpaceOk(sp) && 0 < k && NonNegative(kept) && e.dist >= 0.0
    ensures Offer(LiftAll(sp, kept), k, LiftEntry(sp, e)) == LiftAll(sp, Offer(kept, k, e))
    ensures NonNegative(Offer(kept, k, e))
  {
    if |kept| < k {
      InsertLifted(sp, kept, e);
    } else {
      var n := |kept| - 1;
      LiftMonotone(sp, e.dist, kept[n].dist);
      assert LiftAll(sp, kept)[..n] == LiftAll(sp, kept[..n]);
      InsertLifted(sp, kept[..n], e);
      hide Insert, Lift;
    }
  }

  lemma {:induction false} OfferAllLifted(sp: Space, kept: seq<Entry>, k: nat, es: seq<Entry>)
    requires SpaceOk(sp) && 0 < k && NonNegative(kept) && NonNegative(es)
    ensures OfferAll(LiftAll(sp, kept), k, LiftAll(sp, es)) == LiftAll(sp, OfferAll(kept, k, es))
    ensures NonNegative(OfferAll(kept, k, es))
  {
    hide Offer, LiftEntry;
    if es != [] {
      var n := |es| - 1;
      OfferAllLifted(sp, kept, k, es[..n]);
      assert LiftAll(sp, es)[..n] == LiftAll(sp, es[..n]);
      OfferLifted(sp, OfferAll(kept, k, es[..n]), k, es[n]);
    }
  }

  // ---------- The search ----------

  /** Visiting a page with the metric's test. */
  function MetricVisit(sp: Space, kept: seq<Entry>, k: nat, p: Probe): seq<Entry>
    requires 0 < k
  {
    if |kept| == k && PruneCheck(sp, p.anchorDist, p.maxDist, kept[k - 1].dist) then kept
    else OfferAll(kept, k, p.entries)
  }

  function MetricSearch(sp: Space, ps: seq<Probe>, k: nat): seq<Entry>
    requires 0 < k
  {
    if ps == [] then [] else MetricVisit(sp, MetricSearch(sp, ps[..|ps| - 1], k), k, ps[|ps| - 1])
  }

  function LiftProbe(sp: Space, p: Probe): Probe {
    Probe(Lift(sp, p.anchorDist), Lift(sp, p.maxDist), LiftAll(sp, p.entries))
  }

  function LiftProbes(sp: Space, ps: seq<Probe>): (r: seq<Probe>)
    ensures |r| == |ps| && forall i :: 0 <= i < |ps| ==> r[i] == LiftProbe(sp, ps[i])
  {
    seq(|ps|, i requires 0 <= i < |ps| => LiftProbe(sp, ps[i]))
  }

  ghost predicate ProbesNonNegative(ps: seq<Probe>) {
    forall i :: 0 <= i < |ps| ==> ps[i].anchorDist >= 0.0 && ps[i].maxDist >= 0.0 && NonNegative(ps[i].entries)
  }

  lemma VisitLifted(sp: Space, kept: seq<Entry>, k: nat, p: Probe)
    requires SpaceOk(sp) && 0 < k && NonNegative(kept) && NonNegative(p.entries)
    requires p.anchorDist >= 0.0 && p.maxDist >= 0.0
    ensures MetricVisit(sp, LiftAll(sp, kept), k, LiftProbe(sp, p)) == LiftAll(sp, Visit(kept, k, p))
    ensures NonNegative(Visit(kept, k, p))
  {
    hide Prune, PruneCheck, Lift, OfferAll;
    OfferAllLifted(sp, kept, k, p.entries);
    if |kept| == k { PruneLifted(sp, p.anchorDist, p.maxDist, kept[k - 1].dist); }
  }

  /** Searching with a metric finds what the squared search finds, shown as the metric shows it. */
  lemma {:induction false} SearchLifted(sp: Space, ps: seq<Probe>, k: nat)
    requires SpaceOk(sp) && 0 < k && ProbesNonNegative(ps)
    ensures MetricSearch(sp, LiftProbes(sp, ps), k) == LiftAll(sp, Search(ps, k)) && NonNegative(Search(ps, k))
  {
    hide SpaceOk, Visit, MetricVisit, LiftProbe, LiftEntry, NonNegative;
    if ps == [] {
      NothingFound(sp);
    } else {
      var n := |ps| - 1;
      SearchLifted(sp, ps[..n], k);
      assert LiftProbes(sp, ps)[..n] == LiftProbes(sp, ps[..n]);
      VisitLifted(sp, Search(ps[..n], k), k, ps[n]);
    }
  }

  lemma NothingFound(sp: Space)
    ensures LiftAll(sp, []) == [] && LiftProbes(sp, []) == [] && NonNegative([])
  {
  }

  // ---------- From an index to its probes ----------

  function MetricEntries(sp: Space, q: Vec, slots: seq<Slot>): (r: seq<Entry>)
    ensures |r| == |slots|
    ensures forall i :: 0 <= i < |slots| ==> r[i] == Entry(DistFunc(sp, slots[i].vec, q), slots[i].id)
  {
    seq(|slots|, i requires 0 <= i < |slots| => Entry(DistFunc(sp, slots[i].vec, q), slots[i].id))
  }

  /** The distances to the anchors of the non-empty pages among the first n. */
  function MetricAnchorsUpTo(sp: Space, pages: seq<Page>, q: Vec, n: nat): (r: seq<Entry>)
    requires n <= |pages|
    ensures forall e :: e in r ==> e.id < n
  {
    if n == 0 then []
    else
      var r := MetricAnchorsUpTo(sp, pages, q, n - 1);
      if pages[n - 1].slots == [] then r else r + [Entry(DistFunc(sp, q, pages[n - 1].slots[0].vec), n - 1)]
  }

  function MetricOrder(sp: Space, pages: seq<Page>, q: Vec): (r: seq<Entry>)
    ensures forall e :: e in r ==> e.id < |pages|
  {
    var u := MetricAnchorsUpTo(sp, pages, q, |pages|);
    assert forall e :: e in Sort(u) ==> e in multiset(u);
    Sort(u)
  }

  /** What a query sees of an index whose distances are those of the metric. */
  function MetricProbesFor(sp: Space, pages: seq<Page>, q: Vec): (r: seq<Probe>)
    ensures |r| == |MetricOrder(sp, pages, q)|
  {
    var order := MetricOrder(sp, pages, q);
    seq(|order|, i requires 0 <= i < |order| =>
      assert order[i] in order;
      var p := pages[order[i].id]; Probe(order[i].dist, p.maxDist, MetricEntries(sp, q, p.slots)))
  }

  /** The largest distance to the anchor, as the metric measures it. */
  function MetricRadiusUpTo(sp: Space, slots: seq<Slot>, n: nat): real
    requires n <= |slots|
  {
    if n <= 1 then 0.0
    else
      var r, d := MetricRadiusUpTo(sp, slots, n - 1), DistFunc(sp, slots[n - 1].vec, slots[0].vec);
      if r < d then d else r
  }

  /** A page whose radius was computed with the metric. */
  ghost predicate MetricPageOk(sp: Space, p: Page, dim: nat, capacity: nat) {
    && |p.slots| <= capacity
    && (forall i :: 0 <= i < |p.slots| ==> |p.slots[i].vec| == dim && Suits(sp, p.slots[i].vec))
    && p.maxDist == MetricRadiusUpTo(sp, p.slots, |p.slots|)
  }

  ghost predicate MetricPagesOk(sp: Space, pages: seq<Page>, dim: nat, capacity: nat) {
    forall i :: 0 <= i < |pages| ==> MetricPageOk(sp, pages[i], dim, capacity)
  }

  /** The same pages with their squared radii. */
  function Squared(pages: seq<Page>): (r: seq<Page>)
    ensures |r| == |pages|
    ensures forall i :: 0 <= i < |r| ==> r[i] == Page(pages[i].slots, Radius(pages[i].slots))
  {
    seq(|pages|, i requires 0 <= i < |pages| => Page(pages[i].slots, Radius(pages[i].slots)))
  }

  lemma {:induction false} RadiusLifted(sp: Space, slots: seq<Slot>, n: nat, dim: nat)
    requires SpaceOk(sp) && n <= |slots|
    requires forall i :: 0 <= i < |slots| ==> |slots[i].vec| == dim && Suits(sp, slots[i].vec)
    ensures MetricRadiusUpTo(sp, slots, n) == Lift(sp, RadiusUpTo(slots, n)) && RadiusUpTo(slots, n) >= 0.0
  {
    if n <= 1 {
      LiftZero(sp);
    } else {
      RadiusLifted(sp, slots, n - 1, dim);
      DistIsLifted(sp, slots[n - 1].vec, slots[0].vec);
      LiftMonotone(sp, RadiusUpTo(slots, n - 1), AnchorDist(slots, n - 1));
      hide Lift, DistFunc, Dist, Suits, SpaceOk;
    }
  }

  lemma OnlyZeroSquaresToZero(z: real)
    requires z >= 0.0 && z * z == 0.0
    ensures z == 0.0
  {
    SquareMonotone(z, 0.0);
  }

  lemma LiftZero(sp: Space)
    requires SpaceOk(sp)
    ensures Lift(sp, 0.0) == 0.0
  {
    if sp.metric.NormalizedL2? { OnlyZeroSquaresToZero(sp.root(0.0)); }
  }

  lemma SquaredOk(sp: Space, pages: seq<Page>, dim: nat, capacity: nat)
    requires MetricPagesOk(sp, pages, dim, capacity)
    ensures PagesOk(Squared(pages), dim, capacity)
  {
    hide Radius;
  }

  lemma {:induction false} SameContents(a: seq<Page>, b: seq<Page>)
    requires |a| == |b| && forall i :: 0 <= i < |a| ==> a[i].slots == b[i].slots
    ensures Contents(a) == Contents(b)
  {
    if a != [] { SameContents(a[..|a| - 1], b[..|b| - 1]); }
  }

  lemma {:induction false} ContentsSuit(sp: Space, pages: seq<Page>, dim: nat, capacity: nat)
    requires MetricPagesOk(sp, pages, dim, capacity)
    ensures forall x :: x in Contents(pages) ==> |x.vec| == dim && Suits(sp, x.vec)
  {
    if pages != [] {
      var n := |pages| - 1;
      ContentsSuit(sp, pages[..n], dim, capacity);
      forall x | x in Contents(pages) ensures |x.vec| == dim && Suits(sp, x.vec) {
        assert x in Contents(pages[..n]) || x in pages[n].slots;
      }
    }
  }

  lemma EntriesLifted(sp: Space, q: Vec, slots: seq<Slot>)
    requires SpaceOk(sp) && Suits(sp, q)
    requires forall i :: 0 <= i < |slots| ==> |slots[i].vec| == |q| && Suits(sp, slots[i].vec)
    ensures MetricEntries(sp, q, slots) == LiftAll(sp, EntriesOf(q, slots)) && NonNegative(EntriesOf(q, slots))
  {
    forall i | 0 <= i < |slots| ensures MetricEntries(sp, q, slots)[i] == LiftAll(sp, EntriesOf(q, slots))[i] {
      DistIsLifted(sp, slots[i].vec, q);
    }
  }

  lemma LiftSnoc(sp: Space, s: seq<Entry>, e: Entry)
    ensures LiftAll(sp, s + [e]) == LiftAll(sp, s) + [LiftEntry(sp, e)]
  {
    hide LiftEntry;
  }

  /** Page n adds its anchor, if it has one. */
  lemma AnchorLifted(sp: Space, pages: seq<Page>, q: Vec, n: nat, capacity: nat)
    requires SpaceOk(sp) && Suits(sp, q) && MetricPagesOk(sp, pages, |q|, capacity) && n < |pages|
    requires MetricAnchorsUpTo(sp, pages, q, n) == LiftAll(sp, AnchorEntriesUpTo(Squared(pages), q, n))
    ensures MetricAnchorsUpTo(sp, pages, q, n + 1) == LiftAll(sp, AnchorEntriesUpTo(Squared(pages), q, n + 1))
  {
    if pages[n].slots == [] { return; }
    var a := pages[n].slots[0].vec;
    assert MetricPageOk(sp, pages[n], |q|, capacity);
    DistIsLifted(sp, q, a);
    LiftSnoc(sp, AnchorEntriesUpTo(Squared(pages), q, n), Entry(Dist(q, a), n));
    hide SpaceOk, MetricPageOk, MetricPagesOk, LiftAll, DistFunc, Lift, Suits;
  }

  lemma NoAnchorsLifted(sp: Space, pages: seq<Page>, q: Vec)
    ensures MetricAnchorsUpTo(sp, pages, q, 0) == LiftAll(sp, AnchorEntriesUpTo(Squared(pages), q, 0))
  {
  }

  lemma {:induction false} AnchorsLifted(sp: Space, pages: seq<Page>, q: Vec, n: nat, capacity: nat)
    requires SpaceOk(sp) && Suits(sp, q) && MetricPagesOk(sp, pages, |q|, capacity) && n <= |pages|
    ensures MetricAnchorsUpTo(sp, pages, q, n) == LiftAll(sp, AnchorEntriesUpTo(Squared(pages), q, n))
  {
    hide *;
    if n == 0 {
      NoAnchorsLifted(sp, pages, q);
    } else {
      AnchorsLifted(sp, pages, q, n - 1, capacity);
      AnchorLifted(sp, pages, q, n - 1, capacity);
    }
  }

  lemma AnchorsNonNegative(pages: seq<Page>, q: Vec)
    ensures NonNegative(AnchorEntriesUpTo(pages, q, |pages|))
  {
    var u := AnchorEntriesUpTo(pages, q, |pages|);
    forall i | 0 <= i < |u| ensures u[i].dist >= 0.0 {
      assert u[i] in u;
    }
  }

  lemma OrderLifted(sp: Space, pages: seq<Page>, q: Vec, capacity: nat)
    requires SpaceOk(sp) && Suits(sp, q) && MetricPagesOk(sp, pages, |q|, capacity)
    ensures MetricOrder(sp, pages, q) == LiftAll(sp, VisitOrder(Squared(pages), q))
    ensures NonNegative(VisitOrder(Squared(pages), q))
  {
    AnchorsLifted(sp, pages, q, |pages|, capacity);
    AnchorsNonNegative(Squared(pages), q);
    hide SpaceOk, MetricPagesOk, LiftAll, NonNegative, Sorted;
    SortLifted(sp, AnchorEntriesUpTo(Squared(pages), q, |pages|));
  }

  lemma OneProbeLifted(sp: Space, pages: seq<Page>, q: Vec, capacity: nat, e: Entry)
    requires SpaceOk(sp) && Suits(sp, q) && MetricPagesOk(sp, pages, |q|, capacity) && e.id < |pages|
    ensures var p, sq := pages[e.id], ProbeOf(Squared(pages), q, e);
      && Probe(Lift(sp, e.dist), p.maxDist, MetricEntries(sp, q, p.slots)) == LiftProbe(sp, sq)
      && sq.maxDist >= 0.0 && NonNegative(sq.entries)
  {
    var p := pages[e.id];
    assert MetricPageOk(sp, p, |q|, capacity);
    RadiusLifted(sp, p.slots, |p.slots|, |q|);
    EntriesLifted(sp, q, p.slots);
  }

  lemma ProbeLifted(sp: Space, pages: seq<Page>, q: Vec, capacity: nat, i: nat)
    requires SpaceOk(sp) && Suits(sp, q) && MetricPagesOk(sp, pages, |q|, capacity)
    requires MetricOrder(sp, pages, q) == LiftAll(sp, VisitOrder(Squared(pages), q))
    requires i < |VisitOrder(Squared(pages), q)|
    ensures var p := ProbesFor(Squared(pages), q)[i];
      && MetricProbesFor(sp, pages, q)[i] == LiftProbe(sp, p)
      && p.anchorDist == VisitOrder(Squared(pages), q)[i].dist && p.maxDist >= 0.0 && NonNegative(p.entries)
  {
    var order := VisitOrder(Squared(pages), q);
    assert order[i] in order;
    hide SpaceOk, MetricPagesOk, MetricEntries, VisitOrder, MetricOrder, Lift, NonNegative, LiftProbe, Suits, Radius;
    OneProbeLifted(sp, pages, q, capacity, order[i]);
  }

  lemma ProbesLifted(sp: Space, pages: seq<Page>, q: Vec, capacity: nat)
    requires SpaceOk(sp) && Suits(sp, q) && MetricPagesOk(sp, pages, |q|, capacity)
    ensures MetricProbesFor(sp, pages, q) == LiftProbes(sp, ProbesFor(Squared(pages), q))
    ensures ProbesNonNegative(ProbesFor(Squared(pages), q))
  {
    var order, ps := VisitOrder(Squared(pages), q), ProbesFor(Squared(pages), q);
    OrderLifted(sp, pages, q, capacity);
    hide SpaceOk, MetricPagesOk, VisitOrder, MetricOrder, MetricProbesFor, ProbesFor, Lift, LiftProbe, Suits;
    forall i | 0 <= i < |order|
      ensures MetricProbesFor(sp, pages, q)[i] == LiftProbe(sp, ps[i])
      ensures ps[i].anchorDist >= 0.0 && ps[i].maxDist >= 0.0 && NonNegative(ps[i].entries)
    {
      ProbeLifted(sp, pages, q, capacity, i);
    }
  }

  // ---------- Agreement with the scan ----------

  /** Brute force with the metric. */
  function MetricBruteForce(sp: Space, q: Vec, items: seq<Slot>, k: nat): seq<Entry>
    requires 0 < k
  {
    OfferAll([], k, MetricEntries(sp, q, items))
  }

  lemma ScanLifted(sp: Space, q: Vec, items: seq<Slot>, k: nat)
    requires SpaceOk(sp) && 0 < k && Suits(sp, q)
    requires forall i :: 0 <= i < |items| ==> |items[i].vec| == |q| && Suits(sp, items[i].vec)
    ensures MetricBruteForce(sp, q, items, k) == LiftAll(sp, BruteForce(q, items, k))
  {
    EntriesLifted(sp, q, items);
    OfferAllLifted(sp, [], k, EntriesOf(q, items));
    assert LiftAll(sp, []) == [];
  }

  lemma LiftedDists(sp: Space, a: seq<Entry>, b: seq<Entry>)
    requires Dists(a) == Dists(b)
    ensures Dists(LiftAll(sp, a)) == Dists(LiftAll(sp, b))
  {
    assert |a| == |b| && forall i :: 0 <= i < |a| ==> a[i].dist == Dists(a)[i] == Dists(b)[i] == b[i].dist;
  }

  /** For each of the three metrics, on the vectors it is meant for, the index returns the distances of the
      brute-force scan with that metric. */
  lemma MetricIndexAgreesWithScan(sp: Space, pages: seq<Page>, dim: nat, capacity: nat, items: seq<Slot>, q: Vec,
                                  k: nat)
    requires SpaceOk(sp) && MetricPagesOk(sp, pages, dim, capacity) && |q| == dim && Suits(sp, q) && 0 < k
    requires Contents(pages) == multiset(items)
    ensures Dists(MetricSearch(sp, MetricProbesFor(sp, pages, q), k)) == Dists(MetricBruteForce(sp, q, items, k))
  {
    ContentsSuit(sp, pages, dim, capacity);
    forall i | 0 <= i < |items| ensures |items[i].vec| == dim && Suits(sp, items[i].vec) {
      assert items[i] in multiset(items);
    }
    SameContents(Squared(pages), pages);
    SquaredOk(sp, pages, dim, capacity);
    hide SpaceOk, MetricPagesOk, PagesOk, Suits, Contents, Search, MetricSearch, BruteForce, MetricBruteForce;
    ProbesLifted(sp, pages, q, capacity);
    SearchLifted(sp, ProbesFor(Squared(pages), q), k);
    ScanLifted(sp, q, items, k);
    IndexAgreesWithScan(Squared(pages), dim, capacity, items, q, k);
    LiftedDists(sp, Search(ProbesFor(Squared(pages), q), k), BruteForce(q, items, k));
  }
}
