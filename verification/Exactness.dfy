/** The index against the plain scan: the pruned search returns the same distances as brute force, for
    any probe budget over the pages it reaches and after any insertions over everything inserted. */
module Exactness {
  import opened Vectors
  import opened Entries
  import opened Pages
  import opened Insertion
  import opened Eviction
  import opened TopK
  import opened Probes
  import opened Baseline
  import opened Databases
  import opened Prefill
  import opened ParallelSearch
  import opened ParallelExactness

  /** The entries of the pages named by an order, whatever the order. */
  ghost function Gathered(pages: seq<Page>, q: Vec, order: seq<Entry>): multiset<Entry>
    requires forall e :: e in order ==> e.id < |pages|
  {
    if order == [] then multiset{}
    else
      var n := |order| - 1;
      Gathered(pages, q, order[..n]) + multiset(EntriesOf(q, pages[order[n].id].slots))
  }

  lemma {:induction false} GatheredIsAllEntries(pages: seq<Page>, q: Vec, order: seq<Entry>)
    requires forall e :: e in order ==> e.id < |pages|
    ensures AllEntries(ProbesOf(pages, q, order)) == Gathered(pages, q, order)
  {
    if order != [] {
      hide AllEntries, Gathered;
      var n := |order| - 1;
      var ps := ProbesOf(pages, q, order);
      assert order[n] in order && order == order[..n] + [order[n]];
      GatheredIsAllEntries(pages, q, order[..n]);
      assert ps == ProbesOf(pages, q, order[..n]) + [ProbeOf(pages, q, order[n])];
      AllEntriesSnoc(ProbesOf(pages, q, order[..n]), ProbeOf(pages, q, order[n]));
      GatheredSnoc(pages, q, order[..n], order[n]);
    }
  }

  lemma GatheredSnoc(pages: seq<Page>, q: Vec, order: seq<Entry>, e: Entry)
    requires e.id < |pages| && forall x :: x in order ==> x.id < |pages|
    ensures Gathered(pages, q, order + [e]) == Gathered(pages, q, order) + multiset(EntriesOf(q, pages[e.id].slots))
  {
    assert (order + [e])[..|order|] == order;
  }

  lemma {:induction false} GatheredWithout(pages: seq<Page>, q: Vec, order: seq<Entry>, j: nat)
    requires j < |order| && forall e :: e in order ==> e.id < |pages|
    ensures Gathered(pages, q, order)
      == Gathered(pages, q, order[..j] + order[j + 1..]) + multiset(EntriesOf(q, pages[order[j].id].slots))
  {
    hide Gathered, EntriesOf;
    var n := |order| - 1;
    var front := order[..n];
    assert order == front + [order[n]];
    GatheredSnoc(pages, q, front, order[n]);
    if j < n {
      var rest := front[..j] + front[j + 1..];
      assert order[..j] + order[j + 1..] == rest + [order[n]];
      GatheredWithout(pages, q, front, j);
      GatheredSnoc(pages, q, rest, order[n]);
      Swapped(Gathered(pages, q, rest), multiset(EntriesOf(q, pages[order[j].id].slots)),
              multiset(EntriesOf(q, pages[order[n].id].slots)));
    } else {
      assert order[..j] + order[j + 1..] == front;
    }
  }

  lemma {:induction false} OrderIsIrrelevant(pages: seq<Page>, q: Vec, a: seq<Entry>, b: seq<Entry>)
    requires multiset(a) == multiset(b)
    requires forall e :: e in a ==> e.id < |pages|
    requires forall e :: e in b ==> e.id < |pages|
    ensures Gathered(pages, q, a) == Gathered(pages, q, b)
  {
    assert |multiset(b)| == |b|;
    hide Gathered, EntriesOf;
    if a != [] {
      var n := |a| - 1;
      var j := Rearranged(a, b);
      assert a == a[..n] + [a[n]];
      GatheredSnoc(pages, q, a[..n], a[n]);
      GatheredWithout(pages, q, b, j);
      OrderIsIrrelevant(pages, q, a[..n], b[..j] + b[j + 1..]);
    }
  }

  /** All slots of the first n pages, page after page. */
  function SlotsUpTo(pages: seq<Page>, n: nat): seq<Slot>
    requires n <= |pages|
  {
    if n == 0 then [] else SlotsUpTo(pages, n - 1) + pages[n - 1].slots
  }

  lemma {:induction false} SlotsAreContents(pages: seq<Page>, n: nat)
    requires n <= |pages|
    ensures multiset(SlotsUpTo(pages, n)) == Contents(pages[..n])
  {
    if n > 0 {
      SlotsAreContents(pages, n - 1);
      assert pages[..n][..n - 1] == pages[..n - 1];
    }
  }

  lemma EntriesOfConcat(q: Vec, a: seq<Slot>, b: seq<Slot>)
    ensures EntriesOf(q, a + b) == EntriesOf(q, a) + EntriesOf(q, b)
    ensures multiset(EntriesOf(q, a + b)) == multiset(EntriesOf(q, a)) + multiset(EntriesOf(q, b))
  {
  }

  lemma GatheredNextPage(pages: seq<Page>, q: Vec, n: nat)
    requires n < |pages| && pages[n].slots != []
    ensures Gathered(pages, q, AnchorEntriesUpTo(pages, q, n + 1))
      == Gathered(pages, q, AnchorEntriesUpTo(pages, q, n)) + multiset(EntriesOf(q, pages[n].slots))
  {
    GatheredSnoc(pages, q, AnchorEntriesUpTo(pages, q, n), Entry(Dist(q, pages[n].slots[0].vec), n));
  }

  lemma GatheredNone(pages: seq<Page>, q: Vec)
    ensures Gathered(pages, q, AnchorEntriesUpTo(pages, q, 0)) == multiset(EntriesOf(q, SlotsUpTo(pages, 0)))
  {
  }

  lemma EmptyPageAddsNothing(pages: seq<Page>, q: Vec, n: nat)
    requires n < |pages| && pages[n].slots == []
    ensures SlotsUpTo(pages, n + 1) == SlotsUpTo(pages, n)
    ensures AnchorEntriesUpTo(pages, q, n + 1) == AnchorEntriesUpTo(pages, q, n)
  {
  }

  lemma NextPageEntries(pages: seq<Page>, q: Vec, n: nat)
    requires n < |pages|
    ensures multiset(EntriesOf(q, SlotsUpTo(pages, n + 1)))
      == multiset(EntriesOf(q, SlotsUpTo(pages, n))) + multiset(EntriesOf(q, pages[n].slots))
  {
    EntriesOfConcat(q, SlotsUpTo(pages, n), pages[n].slots);
  }

  lemma {:induction false} GatheredByIndex(pages: seq<Page>, q: Vec, n: nat)
    requires n <= |pages|
    ensures Gathered(pages, q, AnchorEntriesUpTo(pages, q, n)) == multiset(EntriesOf(q, SlotsUpTo(pages, n)))
  {
    hide Gathered, EntriesOf, AnchorEntriesUpTo, SlotsUpTo;
    if n == 0 {
      GatheredNone(pages, q);
    } else {
      GatheredByIndex(pages, q, n - 1);
      if pages[n - 1].slots == [] {
        EmptyPageAddsNothing(pages, q, n - 1);
      } else {
        GatheredNextPage(pages, q, n - 1);
        NextPageEntries(pages, q, n - 1);
      }
    }
  }

  lemma EntriesOfWithout(q: Vec, b: seq<Slot>, j: nat)
    requires j < |b|
    ensures multiset(EntriesOf(q, b)) == multiset(EntriesOf(q, b[..j] + b[j + 1..])) + multiset{EntryOf(q, b[j])}
  {
    var es := EntriesOf(q, b);
    assert es == es[..j] + [es[j]] + es[j + 1..];
    assert EntriesOf(q, b[..j] + b[j + 1..]) == es[..j] + es[j + 1..];
  }

  /** The same slots in another order give the same entries. */
  lemma {:induction false} SameSlotsSameEntries(q: Vec, a: seq<Slot>, b: seq<Slot>)
    requires multiset(a) == multiset(b)
    ensures multiset(EntriesOf(q, a)) == multiset(EntriesOf(q, b))
  {
    assert |multiset(b)| == |b|;
    hide EntriesOf, EntryOf;
    if a != [] {
      var n := |a| - 1;
      var j := Rearranged(a, b);
      assert a[..n] + a[n + 1..] == a[..n];
      EntriesOfWithout(q, a, n);
      EntriesOfWithout(q, b, j);
      SameSlotsSameEntries(q, a[..n], b[..j] + b[j + 1..]);
    }
  }

  /** The probes of a query hold exactly the entries of everything stored. */
  lemma ProbesHoldContents(pages: seq<Page>, q: Vec, items: seq<Slot>)
    requires Contents(pages) == multiset(items)
    ensures AllEntries(ProbesFor(pages, q)) == multiset(EntriesOf(q, items))
  {
    var u, order := AnchorEntriesUpTo(pages, q, |pages|), VisitOrder(pages, q);
    GatheredIsAllEntries(pages, q, order);
    OrderIsIrrelevant(pages, q, u, order);
    GatheredByIndex(pages, q, |pages|);
    SlotsAreContents(pages, |pages|);
    assert pages[..|pages|] == pages;
    SameSlotsSameEntries(q, SlotsUpTo(pages, |pages|), items);
  }

  lemma FirstPagesOk(ps: seq<Probe>, budget: nat)
    requires ProbesOk(ps)
    ensures ProbesOk(FirstPages(ps, budget))
  {
  }

  /** Under a budget the search keeps the k nearest of everything on the first p pages in anchor order, although
      it may prune some of them; p is the budget, or the number of cached pages if that is less. */
  lemma SearchUnderBudget(pages: seq<Page>, dim: nat, capacity: nat, q: Vec, k: nat, budget: nat)
    requires PagesOk(pages, dim, capacity) && |q| == dim && 0 < k
    ensures var ps := ProbesFor(pages, q);
      var p := if budget < |ps| then budget else |ps|;
      && FirstPages(ps, budget) == ps[..p]
      && Sorted(Search(ps[..p], k)) && KeepsBest(multiset(Search(ps[..p], k)), AllEntries(ps[..p]), k)
  {
    ProbesForOk(pages, dim, capacity, q);
    FirstPagesOk(ProbesFor(pages, q), budget);
    SearchKeepsBest(FirstPages(ProbesFor(pages, q), budget), k);
    assert ProbesFor(pages, q)[..|ProbesFor(pages, q)|] == ProbesFor(pages, q);
  }

  lemma AllEntriesSnoc(ps: seq<Probe>, p: Probe)
    ensures AllEntries(ps + [p]) == AllEntries(ps) + multiset(p.entries)
  {
    assert (ps + [p])[..|ps|] == ps;
  }

  lemma SliceAndLast<T>(s: seq<T>, n: nat)
    requires n < |s|
    ensures var front, last := s[..|s| - 1], s[|s| - 1];
      s == front + [last] && s[n..] == front[n..] + [last] && s[..n] == front[..n]
  {
  }

  lemma {:induction false} AllEntriesSplit(ps: seq<Probe>, n: nat)
    requires n <= |ps|
    ensures AllEntries(ps) == AllEntries(ps[..n]) + AllEntries(ps[n..])
  {
    if n == |ps| {
      assert ps[..n] == ps && ps[n..] == [];
    } else {
      hide AllEntries;
      var front, last := ps[..|ps| - 1], ps[|ps| - 1];
      SliceAndLast(ps, n);
      AllEntriesSplit(front, n);
      AllEntriesSnoc(front, last);
      AllEntriesSnoc(front[n..], last);
    }
  }

  lemma FirstPagesNested(ps: seq<Probe>, p1: nat, p2: nat)
    requires p1 <= p2 <= |ps|
    ensures AllEntries(ps[..p2]) == AllEntries(ps[..p1]) + AllEntries(ps[p1..p2])
  {
    assert ps[..p2][..p1] == ps[..p1] && ps[..p2][p1..] == ps[p1..p2];
    AllEntriesSplit(ps[..p2], p1);
  }

  /** A larger budget never worsens the i-th nearest distance. */
  lemma LargerBudgetNeverWorse(pages: seq<Page>, dim: nat, capacity: nat, q: Vec, k: nat, p1: nat, p2: nat, i: nat)
    requires PagesOk(pages, dim, capacity) && |q| == dim && 0 < k && p1 <= p2 <= |ProbesFor(pages, q)|
    requires i < |Search(ProbesFor(pages, q)[..p1], k)|
    ensures i < |Search(ProbesFor(pages, q)[..p2], k)|
    ensures Search(ProbesFor(pages, q)[..p2], k)[i].dist <= Search(ProbesFor(pages, q)[..p1], k)[i].dist
  {
    hide Search, AllEntries, ProbesFor, PagesOk, KeepsBest, Sorted;
    var ps := ProbesFor(pages, q);
    SearchUnderBudget(pages, dim, capacity, q, k, p1);
    SearchUnderBudget(pages, dim, capacity, q, k, p2);
    FirstPagesNested(ps, p1, p2);
    MoreNeverWorse(Search(ps[..p1], k), Search(ps[..p2], k), AllEntries(ps[..p1]), AllEntries(ps[p1..p2]), k, i);
  }

  /** With every page within budget the index and the brute-force scan return the same distances. */
  lemma IndexAgreesWithScan(pages: seq<Page>, dim: nat, capacity: nat, items: seq<Slot>, q: Vec, k: nat)
    requires PagesOk(pages, dim, capacity) && |q| == dim && 0 < k
    requires Contents(pages) == multiset(items)
    ensures Dists(Search(ProbesFor(pages, q), k)) == Dists(BruteForce(q, items, k))
    ensures multiset(Search(ProbesFor(pages, q), k)) <= multiset(EntriesOf(q, items))
  {
    ProbesHoldContents(pages, q, items);
    ProbesForOk(pages, dim, capacity, q);
    SearchKeepsBest(ProbesFor(pages, q), k);
    BruteForceKeepsBest(q, items, k);
    hide Search, BruteForce, ProbesFor;
    SameDistances(Search(ProbesFor(pages, q), k), BruteForce(q, items, k), multiset(EntriesOf(q, items)), k);
  }

  /** Searching after any sequence of insertions into a new database, each with a density of its own, equals
      brute force over everything inserted. */
  lemma SearchAfterInsertions(perFile: nat, dim: nat, capacity: nat, items: seq<Slot>, limits: seq<nat>, q: Vec, k: nat)
    requires 0 < perFile && 2 <= capacity && |q| == dim && 0 < k
    requires |limits| == |items| && forall i :: 0 <= i < |items| ==> |items[i].vec| == dim && limits[i] <= capacity
    ensures PagesOk(NewFile(perFile), dim, capacity)
    ensures var pages := InsertedAll(NewFile(perFile), perFile, dim, capacity, items, limits);
      Dists(Search(ProbesFor(pages, q), k)) == Dists(BruteForce(q, items, k))
  {
    EmptyPageOk(dim, capacity);
    ContentsEmpty(NewFile(perFile));
    var pages := InsertedAll(NewFile(perFile), perFile, dim, capacity, items, limits);
    IndexAgreesWithScan(pages, dim, capacity, items, q, k);
  }

  /** The same after a prefill, which may find the database occupied beyond the pages it writes on. */
  lemma SearchAfterPrefill(was: seq<Page>, written: seq<Page>, stored: seq<Slot>, items: seq<Slot>, m: nat, dim: nat,
                           capacity: nat, q: Vec, k: nat)
    requires PagesOk(was, dim, capacity) && Contents(was) == multiset(stored) && |q| == dim && 0 < k
    requires 0 < m && m + 1 <= capacity && |written| <= |was| && GreedyRounds(items, m, written, [])
    requires forall i :: 0 <= i < |items| ==> |items[i].vec| == dim
    requires forall i :: 0 <= i < |written| ==> was[i].slots == []
    ensures Contents(Overlay(was, written)) == multiset(stored + items)
    ensures Dists(Search(ProbesFor(Overlay(was, written), q), k)) == Dists(BruteForce(q, stored + items, k))
  {
    hide GreedyRounds, PagesOk, Contents, Search, BruteForce, ProbesFor, Overlay;
    RoundsConserve(items, m, written, []);
    GreedyPagesOk(items, m, written, [], dim, capacity);
    OverlayConserves(was, written);
    OverlayOnEmpty(was, written, dim, capacity);
    assert Contents(written) + multiset([]) == Contents(written);
    IndexAgreesWithScan(Overlay(was, written), dim, capacity, stored + items, q, k);
  }

  /** A finished parallel search over every page of the index returns the distances brute force finds
      over the stored vectors, whatever the workers and their interleaving. */
  lemma ParallelAgreesWithScan(pages: seq<Page>, dim: nat, capacity: nat, items: seq<Slot>, q: Vec,
                               cfg: Config, stale: seq<real>, sched: seq<Move>)
    requires PagesOk(pages, dim, capacity) && |q| == dim && Contents(pages) == multiset(items)
    requires cfg.probes == ProbesFor(pages, q) && cfg.maxMorsel == |cfg.probes|
    requires 0 < cfg.step && 0 < cfg.k <= |items| && 0 < cfg.nWorkers == |stale|
    requires cfg.guarded || AlwaysPublishesFull(cfg, stale, sched)
    requires AllFinished(Exec(cfg, stale, sched))
    ensures |Merged(Exec(cfg, stale, sched))| >= cfg.k
    ensures Dists(Merged(Exec(cfg, stale, sched))[..cfg.k]) == Dists(BruteForce(q, items, cfg.k))
    ensures multiset(Merged(Exec(cfg, stale, sched))[..cfg.k]) <= multiset(EntriesOf(q, items))
  {
    ProbesForOk(pages, dim, capacity, q);
    ProbesHoldContents(pages, q, items);
    assert cfg.probes[..cfg.maxMorsel] == cfg.probes;
    assert |multiset(EntriesOf(q, items))| == |items|;
    ParallelSearchExact(cfg, stale, sched);
    BruteForceKeepsBest(q, items, cfg.k);
    var merged := Merged(Exec(cfg, stale, sched));
    SortedPrefix(merged, cfg.k);
    hide Exec, BruteForce, ProbesFor, KeepsBest, Sorted, Merged;
    SameDistances(merged[..cfg.k], BruteForce(q, items, cfg.k), multiset(EntriesOf(q, items)), cfg.k);
  }

  lemma SortedPrefix(s: seq<Entry>, n: nat)
    requires Sorted(s) && n <= |s|
    ensures Sorted(s[..n])
  {
  }
}
