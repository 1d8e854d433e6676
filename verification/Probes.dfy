/** A query's view of the pages it visits, and the search over them as a function: pages in anchor
    order, each one either pruned against the worst kept distance or scanned into the buffer. */
module Probes {
  import opened Vectors
  import opened Entries
  import opened Pages
  import opened SphereBound
  import opened TopK

  /** One page as the query sees it; entries[0] is its anchor. */
  datatype Probe = Probe(anchorDist: real, maxDist: real, entries: seq<Entry>)

  /** What pruning relies on: whatever the test prunes lies strictly beyond the bound. */
  ghost predicate ProbeOk(p: Probe) {
    && p.entries != []
    && p.entries[0].dist == p.anchorDist
    && forall w: real, i :: Prune(p.anchorDist, p.maxDist, w) && 0 <= i < |p.entries| ==> p.entries[i].dist > w
  }

  ghost predicate ProbesOk(ps: seq<Probe>) {
    forall i :: 0 <= i < |ps| ==> ProbeOk(ps[i])
  }

  /** Visiting one page with k entries to keep. */
  function Visit(kept: seq<Entry>, k: nat, p: Probe): seq<Entry>
    requires 0 < k
  {
    if |kept| == k && Prune(p.anchorDist, p.maxDist, kept[k - 1].dist) then kept
    else OfferAll(kept, k, p.entries)
  }

  /** The sequential search over pages in visiting order. */
  function Search(ps: seq<Probe>, k: nat): seq<Entry>
    requires 0 < k
  {
    if ps == [] then [] else Visit(Search(ps[..|ps| - 1], k), k, ps[|ps| - 1])
  }

  /** Every entry of the pages visited, pruned ones included. */
  ghost function AllEntries(ps: seq<Probe>): multiset<Entry> {
    if ps == [] then multiset{} else AllEntries(ps[..|ps| - 1]) + multiset(ps[|ps| - 1].entries)
  }

  lemma PrunedIsFar(p: Probe, w: real)
    requires ProbeOk(p) && Prune(p.anchorDist, p.maxDist, w)
    ensures forall x :: x in multiset(p.entries) ==> w < x.dist
  {
    forall x | x in multiset(p.entries) ensures w < x.dist {
      assert x in p.entries;
    }
  }

  lemma SkipKeepsBest(kept: seq<Entry>, all: multiset<Entry>, k: nat, p: Probe)
    requires 0 < k == |kept| && ProbeOk(p)
    requires Sorted(kept) && KeepsBest(multiset(kept), all, k)
    requires Prune(p.anchorDist, p.maxDist, kept[k - 1].dist)
    ensures KeepsBest(multiset(kept), all + multiset(p.entries), k)
  {
    SortedLast(kept);
    PrunedIsFar(p, kept[k - 1].dist);
    hide ProbeOk, Prune, Sorted, KeepsBest;
    forall x, y | x in multiset(p.entries) && y in multiset(kept) ensures y.dist <= x.dist {
      assert Le(y, kept[k - 1]);
    }
    assert |multiset(kept)| == k;
    PrunedKeepsBest(multiset(kept), all, multiset(p.entries), k);
  }

  lemma VisitKeepsBest(kept: seq<Entry>, all: multiset<Entry>, k: nat, p: Probe)
    requires 0 < k && ProbeOk(p)
    requires Sorted(kept) && KeepsBest(multiset(kept), all, k)
    ensures Sorted(Visit(kept, k, p)) && KeepsBest(multiset(Visit(kept, k, p)), all + multiset(p.entries), k)
  {
    hide ProbeOk, Prune, Sorted, KeepsBest, OfferAll;
    if |kept| == k && Prune(p.anchorDist, p.maxDist, kept[k - 1].dist) {
      SkipKeepsBest(kept, all, k, p);
    } else {
      OfferAllKeepsBest(kept, all, k, p.entries);
    }
  }

  /** The search keeps the k nearest of everything on the visited pages, although it skips some. */
  lemma {:induction false} SearchKeepsBest(ps: seq<Probe>, k: nat)
    requires 0 < k && ProbesOk(ps)
    ensures Sorted(Search(ps, k)) && KeepsBest(multiset(Search(ps, k)), AllEntries(ps), k)
  {
    if ps != [] {
      var n := |ps| - 1;
      SearchKeepsBest(ps[..n], k);
      VisitKeepsBest(Search(ps[..n], k), AllEntries(ps[..n]), k, ps[n]);
    }
  }

  // ---------- From pages to probes ----------

  function EntryOf(q: Vec, s: Slot): Entry {
    Entry(Dist(s.vec, q), s.id)
  }

  function EntriesOf(q: Vec, slots: seq<Slot>): (r: seq<Entry>)
    ensures |r| == |slots|
    ensures forall i :: 0 <= i < |slots| ==> r[i] == EntryOf(q, slots[i])
  {
    seq(|slots|, i requires 0 <= i < |slots| => EntryOf(q, slots[i]))
  }

  function ProbeOf(pages: seq<Page>, q: Vec, e: Entry): Probe
    requires e.id < |pages|
  {
    Probe(e.dist, pages[e.id].maxDist, EntriesOf(q, pages[e.id].slots))
  }

  function ProbesOf(pages: seq<Page>, q: Vec, order: seq<Entry>): (r: seq<Probe>)
    requires forall e :: e in order ==> e.id < |pages|
    ensures |r| == |order|
    ensures forall i :: 0 <= i < |order| ==> r[i] == ProbeOf(pages, q, order[i])
  {
    seq(|order|, i requires 0 <= i < |order| => ProbeOf(pages, q, order[i]))
  }

  /** The probes of a query over the whole index. */
  function ProbesFor(pages: seq<Page>, q: Vec): (r: seq<Probe>)
    ensures |r| == |VisitOrder(pages, q)|
  {
    ProbesOf(pages, q, VisitOrder(pages, q))
  }

  /** A tight page is safe to prune: the sphere bound holds for each of its members. */
  lemma TightPageIsSafe(p: Page, dim: nat, capacity: nat, q: Vec)
    requires PageOk(p, dim, capacity) && p.slots != [] && |q| == dim
    ensures ProbeOk(Probe(Dist(q, p.slots[0].vec), p.maxDist, EntriesOf(q, p.slots)))
  {
    var a := p.slots[0].vec;
    DistSymmetric(q, a);
    var es := EntriesOf(q, p.slots);
    forall w: real, i | Prune(Dist(q, a), p.maxDist, w) && 0 <= i < |es| ensures es[i].dist > w {
      MemberBeyond(p, dim, capacity, q, w, i);
    }
  }

  lemma MemberBeyond(p: Page, dim: nat, capacity: nat, q: Vec, w: real, i: nat)
    requires PageOk(p, dim, capacity) && |q| == dim && i < |p.slots|
    requires Prune(Dist(q, p.slots[0].vec), p.maxDist, w)
    ensures Dist(p.slots[i].vec, q) > w
  {
    var v := p.slots[i].vec;
    DistSymmetric(q, v);
    if w >= 0.0 {
      assert AnchorDist(p.slots, i) <= p.maxDist;
      SphereBoundSound(q, p.slots[0].vec, v, p.maxDist, w);
    }
  }

  lemma ProbesForOk(pages: seq<Page>, dim: nat, capacity: nat, q: Vec)
    requires PagesOk(pages, dim, capacity) && |q| == dim
    ensures ProbesOk(ProbesFor(pages, q))
  {
    var order := VisitOrder(pages, q);
    forall i | 0 <= i < |order| ensures ProbeOk(ProbesFor(pages, q)[i]) {
      assert order[i] in order;
      TightPageIsSafe(pages[order[i].id], dim, capacity, q);
    }
  }
}
