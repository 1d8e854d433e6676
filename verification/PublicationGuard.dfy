/** The source publishes a bound from any buffer, full or not. This module settles when that is harmless, for
    any number of workers, pages of any sizes and every k and step: exactly when the first morsel holds k
    vectors and, besides, there is one worker, or two morsels hold all pages, or there are two workers, k is
    at most the step and every page beyond the first morsel holds its anchor alone. */
module PublicationGuard {
  import opened Vectors
  import opened Entries
  import opened Pages
  import opened SphereBound
  import opened TopK
  import opened Probes
  import opened ParallelSearch
  import opened ParallelExactness
  import opened MorselAccounting
  import opened Schedules
  import opened LineIndex
  import opened UnguardedWorkers
  import opened LateSnapshots
  import opened LoneAnchors

  lemma PublishesFullMore(cfg: Config, stale: seq<real>, sched: seq<Move>, n: nat)
    requires 0 < cfg.k && |stale| == cfg.nWorkers && n + 1 == |sched|
    requires AlwaysPublishesFull(cfg, stale, sched[..n]) && PublishesFull(cfg, Exec(cfg, stale, sched[..n]), sched[n])
    ensures AlwaysPublishesFull(cfg, stale, sched)
  {
    hide Exec, PublishesFull;
    forall i | 0 <= i < |sched| ensures PublishesFull(cfg, Exec(cfg, stale, sched[..i]), sched[i]) {
      if i < n { assert sched[..n][..i] == sched[..i] && sched[..n][i] == sched[i]; }
    }
  }

  // ---------- One worker ----------

  /** A search over pages of the given sizes whose first morsel alone holds k vectors. */
  ghost predicate FullFirstMorsel(cfg: Config, sizes: seq<nat>) {
    && ConfigOk(cfg) && cfg.maxMorsel == |cfg.probes| && HasSizes(cfg.probes, sizes)
    && FirstMorsel(sizes, cfg.step) >= cfg.k
  }

  /** Until the buffer is full the only worker is still on its first morsel, pruning nothing. */
  ghost predicate SoloInv(cfg: Config, sizes: seq<nat>, s: State)
    requires |sizes| == cfg.maxMorsel
  {
    && |s.workers| == 1
    && var wk := s.workers[0];
       && |wk.kept| <= cfg.k
       && (|wk.kept| == cfg.k ||
           match wk.pc
           case Claiming => s.nextMorsel == 0 && s.shared == Infinity
           case Snapshotting(morsel) => morsel == 0 && s.shared == Infinity
           case Scanning(morsel, c, snapshot) =>
             morsel == 0 && snapshot == Infinity && c <= MorselEnd(cfg, 0) && SumTo(sizes, c) <= |wk.kept|
           case _ => false)
  }

  lemma SoloInvKept(cfg: Config, sizes: seq<nat>, s: State, m: Move)
    requires FullFirstMorsel(cfg, sizes) && cfg.nWorkers == 1 && Shape(cfg, s) && SoloInv(cfg, sizes, s)
    ensures SoloInv(cfg, sizes, Advance(cfg, s, m)) && PublishesFull(cfg, s, m)
  {
    hide OfferAll, ProbesOk, Prune, Harmless;
    var wk := s.workers[0];
    if m.worker == 0 && wk.pc.Scanning? && wk.pc.current < |cfg.probes| {
      OfferAllLength(wk.kept, cfg.k, cfg.probes[wk.pc.current].entries);
    }
  }

  lemma {:induction false} SoloRunsPublishFull(cfg: Config, sizes: seq<nat>, stale: seq<real>, sched: seq<Move>)
    requires FullFirstMorsel(cfg, sizes) && cfg.nWorkers == 1 == |stale|
    ensures SoloInv(cfg, sizes, Exec(cfg, stale, sched)) && AlwaysPublishesFull(cfg, stale, sched)
  {
    hide PublishesFull, Advance, Claims, Balanced;
    if sched != [] {
      var n := |sched| - 1;
      SoloRunsPublishFull(cfg, sizes, stale, sched[..n]);
      ShapeOfRun(cfg, stale, sched[..n]);
      SoloInvKept(cfg, sizes, Exec(cfg, stale, sched[..n]), sched[n]);
      PublishesFullMore(cfg, stale, sched, n);
    }
  }

  // ---------- Any number of workers, two morsels ----------

  ghost predicate MorselDone(cfg: Config, s: State, m: nat) {
    && m < cfg.maxMorsel && |s.status| == cfg.maxMorsel
    && forall c :: m <= c < MorselEnd(cfg, m) ==> !Undecided(s.status[c])
  }

  /** Worker w decided the pages from m up to end. */
  ghost predicate DecidedBy(s: State, w: nat, m: nat, end: nat) {
    end <= |s.status| && forall c :: m <= c < end ==> !Undecided(s.status[c]) && s.status[c].w == w
  }

  ghost predicate DoneBy(cfg: Config, s: State, w: nat, m: nat) {
    m < cfg.maxMorsel && DecidedBy(s, w, m, MorselEnd(cfg, m))
  }

  /** The start of the other of two morsels. */
  function Other(cfg: Config, m: nat): nat {
    if m < cfg.step then cfg.step else 0
  }

  ghost predicate TwoMorselWorker(cfg: Config, s: State, w: nat)
    requires w < |s.workers|
  {
    match s.workers[w].pc
    case Snapshotting(m) => m == 0 || m == cfg.step
    case Scanning(m, c, snapshot) =>
      && (m == 0 || m == cfg.step) && DecidedBy(s, w, m, c)
      && (snapshot.At? ==> MorselDone(cfg, s, Other(cfg, m)))
    case Comparing(_) => DoneBy(cfg, s, w, 0) || DoneBy(cfg, s, w, cfg.step)
    case Reloading => DoneBy(cfg, s, w, 0) || DoneBy(cfg, s, w, cfg.step)
    case Swapping(_) => DoneBy(cfg, s, w, 0) || DoneBy(cfg, s, w, cfg.step)
    case _ => true
  }

  /** A bound is published only after a whole morsel, so it can only prune pages of the other one. */
  ghost predicate TwoMorselInv(cfg: Config, s: State) {
    && |s.workers| == cfg.nWorkers && |s.status| == cfg.maxMorsel
    && (s.nextMorsel == 0 || s.nextMorsel == cfg.step || s.nextMorsel >= 2 * cfg.step)
    && (s.shared.At? ==> MorselDone(cfg, s, 0) || MorselDone(cfg, s, cfg.step))
    && (forall c :: 0 <= c < |s.status| && s.status[c].PrunedShared? ==> MorselDone(cfg, s, Other(cfg, c)))
    && forall w :: 0 <= w < cfg.nWorkers ==> TwoMorselWorker(cfg, s, w)
  }

  ghost predicate DecidedStays(s: State, s': State) {
    && |s'.status| == |s.status|
    && forall c :: 0 <= c < |s.status| && !Undecided(s.status[c]) ==> s'.status[c] == s.status[c]
  }

  lemma AdvanceKeepsDecided(cfg: Config, s: State, m: Move)
    requires 0 < cfg.k && Claims(cfg, s) && cfg.maxMorsel <= |cfg.probes|
    ensures DecidedStays(s, Advance(cfg, s, m))
  {
    hide OfferAll, PruneBy, Prune;
    var w := m.worker;
    if w < cfg.nWorkers && s.workers[w].pc.Scanning? {
      if s.workers[w].pc.current < MorselEnd(cfg, s.workers[w].pc.morsel) { PageKeepsClaims(cfg, s, w); }
    }
  }

  lemma DoneStays(cfg: Config, s: State, s': State)
    requires DecidedStays(s, s')
    ensures forall m: nat :: MorselDone(cfg, s, m) ==> MorselDone(cfg, s', m)
    ensures forall w: nat, m: nat, end: nat :: DecidedBy(s, w, m, end) ==> DecidedBy(s', w, m, end)
  {
  }

  /** A worker about to read the shared bound still has its own morsel before it. */
  lemma OwnMorselUndecided(cfg: Config, s: State, w: nat)
    requires ConfigOk(cfg) && Claims(cfg, s) && w < cfg.nWorkers && s.workers[w].pc.Snapshotting?
    ensures !MorselDone(cfg, s, s.workers[w].pc.morsel)
  {
    var m := s.workers[w].pc.morsel;
    assert Pending(cfg, s.workers[w].pc, m);
    assert s.status[m] == Claimed(w);
  }

  lemma VisitorFits(cfg: Config, s: State, w: nat)
    requires ConfigOk(cfg) && Claims(cfg, s) && TwoMorselInv(cfg, s) && w < cfg.nWorkers
    requires s.workers[w].pc.Scanning? && s.workers[w].pc.current < MorselEnd(cfg, s.workers[w].pc.morsel)
    requires DecidedStays(s, PageStep(cfg, s, w))
    ensures TwoMorselWorker(cfg, PageStep(cfg, s, w), w)
  {
    hide OfferAll, PruneBy, Prune, ProbesOk, MorselDone, Frontier, Owners;
    assert TwoMorselWorker(cfg, s, w);
    PageKeepsClaims(cfg, s, w);
    DoneStays(cfg, s, PageStep(cfg, s, w));
    var pc := s.workers[w].pc;
    assert DecidedBy(PageStep(cfg, s, w), w, pc.morsel, pc.current);
  }

  lemma MoverFits(cfg: Config, s: State, m: Move)
    requires ConfigOk(cfg) && Claims(cfg, s) && TwoMorselInv(cfg, s) && cfg.maxMorsel <= 2 * cfg.step
    requires m.worker < cfg.nWorkers && DecidedStays(s, Advance(cfg, s, m))
    ensures TwoMorselWorker(cfg, Advance(cfg, s, m), m.worker)
  {
    var s', w := Advance(cfg, s, m), m.worker;
    var pc := s.workers[w].pc;
    if pc.Scanning? && pc.current < MorselEnd(cfg, pc.morsel) {
      VisitorFits(cfg, s, w);
    } else {
      hide PageStep, PruneBy, ProbesOk, MorselDone, Frontier, Owners;
      assert TwoMorselWorker(cfg, s, w);
      DoneStays(cfg, s, s');
      if pc.Snapshotting? { OwnMorselUndecided(cfg, s, w); }
      assert pc.Scanning? ==> DoneBy(cfg, s', w, pc.morsel);
    }
  }

  lemma OthersFit(cfg: Config, s: State, m: Move)
    requires 0 < cfg.k && TwoMorselInv(cfg, s) && DecidedStays(s, Advance(cfg, s, m))
    ensures forall v :: 0 <= v < cfg.nWorkers && v != m.worker ==> TwoMorselWorker(cfg, Advance(cfg, s, m), v)
  {
    hide OfferAll, Prune, PruneBy, MorselDone;
    var s' := Advance(cfg, s, m);
    DoneStays(cfg, s, s');
    forall v | 0 <= v < cfg.nWorkers && v != m.worker ensures TwoMorselWorker(cfg, s', v) {
      assert TwoMorselWorker(cfg, s, v) && s'.workers[v] == s.workers[v];
    }
  }

  lemma SharedFits(cfg: Config, s: State, m: Move)
    requires 0 < cfg.k && 0 < cfg.step && TwoMorselInv(cfg, s) && DecidedStays(s, Advance(cfg, s, m))
    ensures var s' := Advance(cfg, s, m);
      s'.shared.At? ==> MorselDone(cfg, s', 0) || MorselDone(cfg, s', cfg.step)
  {
    hide OfferAll, Prune, PruneBy;
    var w := m.worker;
    if w < cfg.nWorkers { assert TwoMorselWorker(cfg, s, w); }
    DoneStays(cfg, s, Advance(cfg, s, m));
  }

  lemma PrunedFits(cfg: Config, s: State, m: Move)
    requires ConfigOk(cfg) && Claims(cfg, s) && TwoMorselInv(cfg, s) && DecidedStays(s, Advance(cfg, s, m))
    requires cfg.maxMorsel <= 2 * cfg.step
    ensures var s' := Advance(cfg, s, m);
      forall c :: 0 <= c < |s'.status| && s'.status[c].PrunedShared? ==> MorselDone(cfg, s', Other(cfg, c))
  {
    var s', w := Advance(cfg, s, m), m.worker;
    DoneStays(cfg, s, s');
    if w < cfg.nWorkers { assert TwoMorselWorker(cfg, s, w); }
    hide OfferAll, Prune, MorselDone, DecidedBy, Frontier, Owners, ProbesOk;
    forall c | 0 <= c < |s'.status| && s'.status[c].PrunedShared? ensures MorselDone(cfg, s', Other(cfg, c)) {
      if !s.status[c].PrunedShared? {
        assert s.workers[w].pc.Scanning? && s.workers[w].pc.current == c;
      }
    }
  }

  lemma TwoMorselStep(cfg: Config, s: State, m: Move)
    requires ConfigOk(cfg) && Claims(cfg, s) && TwoMorselInv(cfg, s) && cfg.maxMorsel <= 2 * cfg.step
    ensures TwoMorselInv(cfg, Advance(cfg, s, m))
  {
    AdvanceKeepsDecided(cfg, s, m);
    hide DecidedStays, TwoMorselWorker, MorselDone, OfferAll, Prune, PruneBy, ProbesOk, Claims;
    OthersFit(cfg, s, m);
    SharedFits(cfg, s, m);
    PrunedFits(cfg, s, m);
    if m.worker < cfg.nWorkers { MoverFits(cfg, s, m); }
  }

  // ---------- What a short buffer can publish ----------

  lemma {:induction false} VisitedCount(ps: seq<Probe>, sizes: seq<nat>, status: seq<Status>, w: nat, n: nat, m: nat)
    requires HasSizes(ps, sizes) && m <= n <= |ps| && n <= |status|
    requires forall c :: 0 <= c < m ==> VisitedBy(status[c], {w})
    ensures |Gather(ps, status, {w}, n)| >= SumTo(sizes, m)
    decreases n
  {
    if n > 0 { VisitedCount(ps, sizes, status, w, n - 1, if m < n then m else n - 1); }
  }

  lemma {:induction false} VisitedEntry(ps: seq<Probe>, status: seq<Status>, w: nat, n: nat, c: nat, e: Entry)
    requires c < n <= |ps| && n <= |status| && VisitedBy(status[c], {w}) && e in ps[c].entries
    ensures e in Gather(ps, status, {w}, n)
  {
    if c < n - 1 { VisitedEntry(ps, status, w, n - 1, c, e); }
  }

  /** Pages in anchor order that fit in two morsels, the first of which holds k vectors. */
  ghost predicate TwoMorselSearch(cfg: Config, sizes: seq<nat>) {
    FullFirstMorsel(cfg, sizes) && Ascending(cfg.probes) && cfg.maxMorsel <= 2 * cfg.step && !cfg.guarded
  }

  /** The publisher finished one morsel. If the other one is undecided, it visited every page of its own. */
  lemma OwnMorselVisited(cfg: Config, s: State, w: nat, c: nat) returns (m: nat)
    requires ConfigOk(cfg) && TwoMorselInv(cfg, s) && cfg.maxMorsel <= 2 * cfg.step
    requires w < cfg.nWorkers && s.workers[w].pc.Comparing?
    requires c < cfg.maxMorsel && Undecided(s.status[c])
    ensures m == Other(cfg, c) < cfg.maxMorsel
    ensures forall e :: m <= e < MorselEnd(cfg, m) ==> VisitedBy(s.status[e], {w})
  {
    assert TwoMorselWorker(cfg, s, w);
    m := Other(cfg, c);
    forall e | m <= e < MorselEnd(cfg, m) ensures VisitedBy(s.status[e], {w}) {
      assert !s.status[e].PrunedShared?;
    }
  }

  /** A worker that visited the whole first morsel has a full buffer. */
  lemma FirstMorselFills(cfg: Config, sizes: seq<nat>, s: State, w: nat)
    requires TwoMorselSearch(cfg, sizes) && Inv(cfg, s) && w < cfg.nWorkers
    requires forall e :: 0 <= e < MorselEnd(cfg, 0) ==> VisitedBy(s.status[e], {w})
    ensures |s.workers[w].kept| == cfg.k
  {
    VisitedCount(cfg.probes, sizes, s.status, w, cfg.maxMorsel, MorselEnd(cfg, 0));
    assert |multiset(s.workers[w].kept)| == |s.workers[w].kept|;
  }

  /** A short buffer that holds the second morsel has a top no nearer than any anchor of the first. */
  lemma SecondMorselReaches(cfg: Config, s: State, w: nat, c: nat)
    requires ConfigOk(cfg) && Inv(cfg, s) && w < cfg.nWorkers && |s.workers[w].kept| < cfg.k
    requires c < cfg.maxMorsel && VisitedBy(s.status[c], {w})
    ensures s.workers[w].kept != [] && Top(s.workers[w]) >= cfg.probes[c].anchorDist
  {
    var kept, e := s.workers[w].kept, cfg.probes[c].entries[0];
    assert |multiset(kept)| == |kept|;
    SmallBagKeepsAll(multiset(kept), SeenBy(cfg, s, w), cfg.k);
    VisitedEntry(cfg.probes, s.status, w, cfg.maxMorsel, c, e);
    assert e in multiset(kept) && e in kept;
    SortedLast(kept);
  }

  lemma TwoMorselsPublish(cfg: Config, sizes: seq<nat>, s: State, m: Move)
    requires TwoMorselSearch(cfg, sizes) && Inv(cfg, s) && TwoMorselInv(cfg, s)
    ensures PublishesFull(cfg, s, m)
  {
    hide Inv, TwoMorselInv, ProbesOk, HasSizes, PruneBy, SumTo;
    var w := m.worker;
    if w < |s.workers| && s.workers[w].pc.Comparing? {
      ShapeOfInv(cfg, s);
      forall c | 0 <= c < cfg.maxMorsel && Undecided(s.status[c])
        ensures |s.workers[w].kept| == cfg.k || !PruneBy(cfg.probes[c], At(Top(s.workers[w])))
      {
        ShortTopHarmless(cfg, sizes, s, w, c);
      }
    }
  }

  lemma ShapeOfInv(cfg: Config, s: State)
    requires Inv(cfg, s)
    ensures |s.workers| == cfg.nWorkers && |s.status| == cfg.maxMorsel
    ensures forall w :: 0 <= w < cfg.nWorkers ==> |s.workers[w].kept| <= cfg.k
  {
    forall w | 0 <= w < cfg.nWorkers ensures |s.workers[w].kept| <= cfg.k {
      assert |multiset(s.workers[w].kept)| == |s.workers[w].kept|;
    }
  }

  lemma ShortTopHarmless(cfg: Config, sizes: seq<nat>, s: State, w: nat, c: nat)
    requires TwoMorselSearch(cfg, sizes) && Inv(cfg, s) && TwoMorselInv(cfg, s)
    requires w < cfg.nWorkers && s.workers[w].pc.Comparing? && c < cfg.maxMorsel && Undecided(s.status[c])
    ensures |s.workers[w].kept| == cfg.k || !PruneBy(cfg.probes[c], At(Top(s.workers[w])))
  {
    var mo := OwnMorselVisited(cfg, s, w, c);
    ShapeOfInv(cfg, s);
    hide Inv, TwoMorselInv, HasSizes, SumTo, Prune;
    if mo == 0 {
      FirstMorselFills(cfg, sizes, s, w);
    } else if |s.workers[w].kept| < cfg.k {
      SecondMorselReaches(cfg, s, w, mo);
      assert ProbeOk(cfg.probes[c]);
    }
  }

  lemma {:induction false} TwoMorselRunsPublish(cfg: Config, sizes: seq<nat>, stale: seq<real>, sched: seq<Move>)
    requires TwoMorselSearch(cfg, sizes) && |stale| == cfg.nWorkers
    ensures TwoMorselInv(cfg, Exec(cfg, stale, sched)) && AlwaysPublishesFull(cfg, stale, sched)
  {
    hide PublishesFull, Advance, Inv, Claims;
    if sched != [] {
      var n := |sched| - 1;
      TwoMorselRunsPublish(cfg, sizes, stale, sched[..n]);
      ExecInv(cfg, stale, sched[..n]);
      TwoMorselsPublish(cfg, sizes, Exec(cfg, stale, sched[..n]), sched[n]);
      ClaimsOfInv(cfg, Exec(cfg, stale, sched[..n]));
      TwoMorselStep(cfg, Exec(cfg, stale, sched[..n]), sched[n]);
      PublishesFullMore(cfg, stale, sched, n);
    }
  }

  lemma ClaimsOfInv(cfg: Config, s: State)
    requires Inv(cfg, s)
    ensures Claims(cfg, s)
  {
  }

  // ---------- The results, over indexes ----------

  lemma ProbesAscend(pages: seq<Page>, q: Vec)
    ensures Ascending(ProbesFor(pages, q))
  {
    var order, ps := VisitOrder(pages, q), ProbesFor(pages, q);
    forall c, e | 0 <= c < e < |ps| ensures ps[c].anchorDist <= ps[e].anchorDist {
      assert order[c] in order && order[e] in order && Le(order[c], order[e]);
    }
  }

  /** The run returns the k nearest of the pages within the budget, if it is a whole one. */
  ghost predicate ExactWhenDone(cfg: Config, stale: seq<real>, sched: seq<Move>)
    requires 0 < cfg.k && |stale| == cfg.nWorkers && cfg.maxMorsel <= |cfg.probes|
  {
    AllFinished(Exec(cfg, stale, sched)) ==> Exact(cfg, Exec(cfg, stale, sched))
  }

  /** Once all workers are done, the first k merged entries are the k nearest of these pages. */
  ghost predicate ReturnsBest(ps: seq<Probe>, s: State, k: nat) {
    AllFinished(s) ==> |Merged(s)| >= k && KeepsBest(multiset(Merged(s)[..k]), AllEntries(ps), k)
  }

  /** Every search of the code as it stands over an index whose pages within the budget have these sizes, in
      visiting order, returns the k nearest of them, however its threads interleave. */
  ghost predicate AlwaysExact(sizes: seq<nat>, step: nat, k: nat, stale: seq<real>)
    requires 0 < k
  {
    forall pages: seq<Page>, dim: nat, capacity: nat, q: Vec, budget: nat, sched: seq<Move> ::
      PagesOk(pages, dim, capacity) && |q| == dim && budget <= |ProbesFor(pages, q)| ==>
        var ps := if budget == 0 then ProbesFor(pages, q) else ProbesFor(pages, q)[..budget];
        HasSizes(ps, sizes) ==>
          ReturnsBest(ps, Exec(CallOf(pages, q, budget, step, k, |stale|, false), stale, sched), k)
  }

  lemma CallReaches(pages: seq<Page>, q: Vec, budget: nat, step: nat, k: nat, nWorkers: nat)
    requires budget <= |ProbesFor(pages, q)|
    ensures var cfg := CallOf(pages, q, budget, step, k, nWorkers, false);
      && cfg.maxMorsel <= |cfg.probes| && cfg.k == k && cfg.nWorkers == nWorkers
      && Probed(cfg) == if budget == 0 then ProbesFor(pages, q) else ProbesFor(pages, q)[..budget]
  {
  }

  /** What the search of a call has to do with an index. */
  ghost predicate Searches(cfg: Config, sizes: seq<nat>, step: nat, k: nat, nWorkers: nat) {
    && cfg.step == step && cfg.k == k && cfg.nWorkers == nWorkers && !cfg.guarded
    && cfg.maxMorsel == |cfg.probes| && HasSizes(cfg.probes, sizes) && ProbesOk(cfg.probes) && Ascending(cfg.probes)
  }

  lemma CallSearches(pages: seq<Page>, dim: nat, capacity: nat, q: Vec, budget: nat, sizes: seq<nat>, step: nat,
                     k: nat, nWorkers: nat)
    requires PagesOk(pages, dim, capacity) && |q| == dim && budget <= |ProbesFor(pages, q)|
    requires HasSizes(Probed(CallOf(pages, q, budget, step, k, nWorkers, false)), sizes)
    ensures Searches(Trimmed(CallOf(pages, q, budget, step, k, nWorkers, false)), sizes, step, k, nWorkers)
  {
    ProbesForOk(pages, dim, capacity, q);
    ProbesAscend(pages, q);
    hide ProbesFor, ProbeOk, PagesOk;
  }

  lemma TrimmedExact(cfg: Config, stale: seq<real>, sched: seq<Move>)
    requires 0 < cfg.k && |stale| == cfg.nWorkers && cfg.maxMorsel <= |cfg.probes|
    requires ExactWhenDone(Trimmed(cfg), stale, sched)
    ensures ExactWhenDone(cfg, stale, sched)
  {
    TrimmedRun(cfg, stale, sched);
    assert Probed(cfg)[..cfg.maxMorsel] == Probed(cfg);
    hide Exec, KeepsBest;
  }

  lemma ExactReturnsBest(cfg: Config, stale: seq<real>, sched: seq<Move>)
    requires 0 < cfg.k && |stale| == cfg.nWorkers && cfg.maxMorsel <= |cfg.probes|
    ensures ExactWhenDone(cfg, stale, sched) <==> ReturnsBest(Probed(cfg), Exec(cfg, stale, sched), cfg.k)
  {
    hide Exec, KeepsBest, AllEntries, Merged, AllFinished;
  }

  lemma CallReturnsBest(sizes: seq<nat>, pages: seq<Page>, dim: nat, capacity: nat, q: Vec, budget: nat, step: nat,
                        k: nat, stale: seq<real>, sched: seq<Move>)
    requires 0 < k && PagesOk(pages, dim, capacity) && |q| == dim && budget <= |ProbesFor(pages, q)|
    requires HasSizes(if budget == 0 then ProbesFor(pages, q) else ProbesFor(pages, q)[..budget], sizes)
    requires forall cfg :: Searches(cfg, sizes, step, k, |stale|) ==> ExactWhenDone(cfg, stale, sched)
    ensures ReturnsBest(if budget == 0 then ProbesFor(pages, q) else ProbesFor(pages, q)[..budget],
                        Exec(CallOf(pages, q, budget, step, k, |stale|, false), stale, sched), k)
  {
    hide ExactWhenDone, ReturnsBest, HasSizes, ProbesFor, PagesOk, ProbesOk, Ascending, CallOf, Probed, Exec;
    var cfg := CallOf(pages, q, budget, step, k, |stale|, false);
    CallReaches(pages, q, budget, step, k, |stale|);
    CallSearches(pages, dim, capacity, q, budget, sizes, step, k, |stale|);
    assert ExactWhenDone(Trimmed(cfg), stale, sched);
    TrimmedExact(cfg, stale, sched);
    ExactReturnsBest(cfg, stale, sched);
  }

  /** What holds of every search over pages of these sizes holds of every call. */
  lemma AlwaysExactIf(sizes: seq<nat>, step: nat, k: nat, stale: seq<real>)
    requires 0 < k
    requires forall cfg, sched :: Searches(cfg, sizes, step, k, |stale|) ==> ExactWhenDone(cfg, stale, sched)
    ensures AlwaysExact(sizes, step, k, stale)
  {
    hide ExactWhenDone, ReturnsBest, HasSizes, ProbesFor, PagesOk, ProbesOk, Ascending, Exec;
    forall pages: seq<Page>, dim: nat, capacity: nat, q: Vec, budget: nat, sched: seq<Move>
      | PagesOk(pages, dim, capacity) && |q| == dim && budget <= |ProbesFor(pages, q)|
      ensures var ps := if budget == 0 then ProbesFor(pages, q) else ProbesFor(pages, q)[..budget];
        HasSizes(ps, sizes) ==>
          ReturnsBest(ps, Exec(CallOf(pages, q, budget, step, k, |stale|, false), stale, sched), k)
    {
      if HasSizes(if budget == 0 then ProbesFor(pages, q) else ProbesFor(pages, q)[..budget], sizes) {
        CallReturnsBest(sizes, pages, dim, capacity, q, budget, step, k, stale, sched);
      }
    }
  }

  /** One inexact run over one index is enough. */
  lemma OneRunLoses(sizes: seq<nat>, step: nat, k: nat, stale: seq<real>, pages: seq<Page>, capacity: nat, q: Vec,
                    sched: seq<Move>)
    requires 0 < k && PagesOk(pages, |q|, capacity) && HasSizes(ProbesFor(pages, q), sizes)
    requires var cfg := CallOf(pages, q, 0, step, k, |stale|, false);
      AllFinished(Exec(cfg, stale, sched)) && !Exact(cfg, Exec(cfg, stale, sched))
    ensures !AlwaysExact(sizes, step, k, stale)
  {
    var cfg := CallOf(pages, q, 0, step, k, |stale|, false);
    CallReaches(pages, q, 0, step, k, |stale|);
    assert !ExactWhenDone(cfg, stale, sched);
    ExactReturnsBest(cfg, stale, sched);
    hide ExactWhenDone, ReturnsBest, HasSizes, ProbesFor, PagesOk, Exec, Exact, AllFinished;
    assert !ReturnsBest(ProbesFor(pages, q), Exec(CallOf(pages, q, 0, step, k, |stale|, false), stale, sched), k);
  }

  lemma FullFirstMorselRun(cfg: Config, sizes: seq<nat>, stale: seq<real>, sched: seq<Move>)
    requires FullFirstMorsel(cfg, sizes) && Ascending(cfg.probes) && !cfg.guarded && cfg.nWorkers == |stale| > 0
    requires |stale| == 1 || cfg.maxMorsel <= 2 * cfg.step
    requires AllFinished(Exec(cfg, stale, sched))
    ensures Exact(cfg, Exec(cfg, stale, sched))
  {
    SizesCountEntries(cfg.probes, sizes, |sizes|);
    SumToMonotone(sizes, if cfg.step < |sizes| then cfg.step else |sizes|, |sizes|);
    hide Exec, Exact, AlwaysPublishesFull, HasSizes, Ascending, AllEntries, AllFinished, SumTo, ProbesOk;
    if |stale| == 1 {
      SoloRunsPublishFull(cfg, sizes, stale, sched);
    } else {
      TwoMorselRunsPublish(cfg, sizes, stale, sched);
    }
    ParallelSearchExact(cfg, stale, sched);
  }

  /** Enough vectors in the first morsel: exact with one worker, and with any number over two morsels. */
  lemma FullFirstMorselExact(cfg: Config, sizes: seq<nat>, step: nat, k: nat, stale: seq<real>, sched: seq<Move>)
    requires 0 < step && 0 < k && stale != [] && (|stale| == 1 || |sizes| <= 2 * step)
    requires Searches(cfg, sizes, step, k, |stale|) && FirstMorsel(sizes, step) >= k
    ensures ExactWhenDone(cfg, stale, sched)
  {
    hide Exec, Exact, AllFinished, ProbesOk, Ascending, FirstMorsel;
    if AllFinished(Exec(cfg, stale, sched)) { FullFirstMorselRun(cfg, sizes, stale, sched); }
  }

  /** With one worker, or with all pages in two morsels, the code as it stands is exact if and only if the
      first morsel holds k vectors. */
  lemma ExactIffFirstMorsel(sizes: seq<nat>, step: nat, k: nat, stale: seq<real>)
    requires 0 < step && 0 < k && stale != [] && (|stale| == 1 || |sizes| <= 2 * step)
    requires sizes != [] && forall c :: 0 <= c < |sizes| ==> 0 < sizes[c]
    ensures AlwaysExact(sizes, step, k, stale) <==> FirstMorsel(sizes, step) >= k
  {
    hide AlwaysExact, ExactWhenDone, FirstMorsel, SumTo, Exec, Exact, AllFinished, HasSizes, ProbesFor;
    hide ProbesOk, Ascending;
    if FirstMorsel(sizes, step) >= k {
      forall cfg, sched | Searches(cfg, sizes, step, k, |stale|) ensures ExactWhenDone(cfg, stale, sched) {
        FullFirstMorselExact(cfg, sizes, step, k, stale, sched);
      }
      AlwaysExactIf(sizes, step, k, stale);
    } else {
      var pages, sched := ShortFirstMorselLoses(sizes, step, k, stale);
      OneRunLoses(sizes, step, k, stale, pages, SumTo(sizes, |sizes|), ORIGIN, sched);
    }
  }

  /** Every page beyond the first morsel holds its anchor alone. */
  predicate AnchorsOnly(sizes: seq<nat>, step: nat) {
    forall c :: step <= c < |sizes| ==> sizes[c] == 1
  }

  /** Two workers over lone anchors, of which k fit in the first morsel. */
  predicate TwoOverAnchors(sizes: seq<nat>, step: nat, k: nat, nWorkers: nat) {
    nWorkers == 2 && k <= step && AnchorsOnly(sizes, step)
  }

  /** Beyond two morsels more workers spoil it, but for two workers over lone anchors. */
  lemma ThirdMorselNeverExact(sizes: seq<nat>, step: nat, k: nat, stale: seq<real>)
    requires 0 < step && 0 < k && |stale| >= 2 && 2 * step < |sizes|
    requires !TwoOverAnchors(sizes, step, k, |stale|)
    requires forall i :: 0 <= i < |sizes| ==> 0 < sizes[i]
    ensures !AlwaysExact(sizes, step, k, stale)
  {
    hide AlwaysExact, Exec, Exact, AllFinished, HasSizes, ProbesFor, PagesOk, SumTo, FirstMorsel;
    var pages, sched;
    if FirstMorsel(sizes, step) < k {
      pages, sched := ShortFirstMorselLoses(sizes, step, k, stale);
    } else if |stale| >= 3 {
      pages, sched := ThirdWorkerLoses(sizes, step, k, stale);
    } else if step < k || exists c :: step <= c < 2 * step && sizes[c] >= 2 {
      pages, sched := LateSnapshotLoses(sizes, step, k, stale);
    } else {
      var c :| step <= c < |sizes| && sizes[c] != 1;
      pages, sched := ThirdMorselLoses(sizes, step, k, stale, c);
    }
    OneRunLoses(sizes, step, k, stale, pages, SumTo(sizes, |sizes|), ORIGIN, sched);
  }

  lemma LoneSearches(cfg: Config, sizes: seq<nat>, step: nat, k: nat)
    requires 0 < k <= step < |sizes| && AnchorsOnly(sizes, step) && Searches(cfg, sizes, step, k, 2)
    ensures LoneSearch(cfg)
  {
    hide ProbeOk, Ascending;
  }

  lemma AnchorsOnlyExact(sizes: seq<nat>, step: nat, k: nat, stale: seq<real>)
    requires 0 < k && TwoOverAnchors(sizes, step, k, |stale|) && step < |sizes|
    ensures AlwaysExact(sizes, step, k, stale)
  {
    hide AlwaysExact, Exec, Exact, AllFinished, AnchorsOnly, LoneSearch, ProbesOk, Ascending, HasSizes;
    forall cfg, sched | Searches(cfg, sizes, step, k, |stale|) ensures ExactWhenDone(cfg, stale, sched) {
      LoneSearches(cfg, sizes, step, k);
      if AllFinished(Exec(cfg, stale, sched)) { LoneSearchExact(cfg, stale, sched); }
    }
    AlwaysExactIf(sizes, step, k, stale);
  }

  lemma {:induction false} SumToAtLeast(sizes: seq<nat>, n: nat)
    requires n <= |sizes| && forall c :: 0 <= c < n ==> 0 < sizes[c]
    ensures SumTo(sizes, n) >= n
  {
    if n > 0 { SumToAtLeast(sizes, n - 1); }
  }

  /** When the code as it stands is exact over every index with pages of these sizes, under every interleaving
      and whatever earlier searches left in the buffers: exactly when the first morsel holds k vectors and,
      besides, there is one worker, or two morsels hold all pages, or two workers search lone anchors. */
  lemma ExactIff(sizes: seq<nat>, step: nat, k: nat, stale: seq<real>)
    requires 0 < step && 0 < k && stale != []
    requires sizes != [] && forall c :: 0 <= c < |sizes| ==> 0 < sizes[c]
    ensures AlwaysExact(sizes, step, k, stale) <==>
      && FirstMorsel(sizes, step) >= k
      && (|stale| == 1 || |sizes| <= 2 * step || TwoOverAnchors(sizes, step, k, |stale|))
  {
    hide AlwaysExact, AnchorsOnly;
    if |stale| == 1 || |sizes| <= 2 * step {
      ExactIffFirstMorsel(sizes, step, k, stale);
    } else if TwoOverAnchors(sizes, step, k, |stale|) {
      AnchorsOnlyExact(sizes, step, k, stale);
      SumToAtLeast(sizes, step);
    } else {
      ThirdMorselNeverExact(sizes, step, k, stale);
    }
  }

  /** Every search over an index of p pages that hold at least k vectors each returns the k nearest. */
  ghost predicate FullPagesExact(p: nat, step: nat, k: nat, stale: seq<real>)
    requires 0 < k
  {
    forall sizes: seq<nat> :: |sizes| == p && (forall c :: 0 <= c < p ==> sizes[c] >= k) ==>
      AlwaysExact(sizes, step, k, stale)
  }

  /** Over p pages of at least k vectors each, the code as it stands is exact under every interleaving if and
      only if it runs one worker or two morsels hold all pages: for every k, every step, any number of
      workers and whatever earlier searches left in the buffers. */
  lemma FullPagesExactIff(p: nat, step: nat, k: nat, stale: seq<real>)
    requires 0 < p && 0 < step && 0 < k && stale != []
    ensures FullPagesExact(p, step, k, stale) <==> |stale| == 1 || p <= 2 * step
  {
    hide AlwaysExact, FirstMorsel;
    if |stale| == 1 || p <= 2 * step {
      forall sizes: seq<nat> | |sizes| == p && forall c :: 0 <= c < p ==> sizes[c] >= k
        ensures AlwaysExact(sizes, step, k, stale)
      {
        FullPageFillsFirstMorsel(sizes, step, k);
        ExactIffFirstMorsel(sizes, step, k, stale);
      }
    } else {
      var sizes: seq<nat> := seq(p, _ => k + 1);
      assert sizes[2 * step] >= 2;
      ThirdMorselNeverExact(sizes, step, k, stale);
    }
  }

  lemma FullPageFillsFirstMorsel(sizes: seq<nat>, step: nat, k: nat)
    requires 0 < step && sizes != [] && sizes[0] >= k
    ensures FirstMorsel(sizes, step) >= k
  {
    assert SumTo(sizes, 1) == SumTo(sizes, 0) + sizes[0];
    SumToMonotone(sizes, 1, if step < |sizes| then step else |sizes|);
  }
}
