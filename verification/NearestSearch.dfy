/** find_k_nearest from end to end: the fill of the anchor distances, the threads' search in their parts of
    the local buffer, and the merge, for every interleaving. */
module NearestSearch {
  import opened Arithmetic
  import opened Vectors
  import opened Entries
  import opened Pages
  import opened TopK
  import opened Heaps
  import opened Probes
  import opened Databases
  import opened Baseline
  import opened Exactness
  import opened ParallelSearch
  import opened ParallelExactness
  import opened ParallelRun
  import opened ParallelFill
  import opened ResultMerge

  /** What the threads' parts of the local buffer hold first when the search begins. */
  function Leftovers(buffer: seq<Entry>, size: nat, nThreads: nat): (r: seq<real>)
    requires 0 < size && |buffer| == nThreads * size
    ensures |r| == nThreads && LeftOver(buffer, size, nThreads, r)
  {
    FirstsInside(nThreads, size, |buffer|);
    seq(nThreads, w requires 0 <= w < nThreads => buffer[Offset(w, size)].dist)
  }

  lemma FirstsInside(nThreads: nat, size: nat, length: nat)
    requires 0 < size && length == nThreads * size
    ensures forall w: nat :: w < nThreads ==> Offset(w, size) < length
  {
    forall w: nat | w < nThreads ensures Offset(w, size) < length {
      PartInside(w, nThreads, size, 1, length);
    }
  }

  function OutputCounts(threads: seq<Thread>): (r: seq<nat>)
    ensures |r| == |threads| && forall w :: 0 <= w < |r| ==> r[w] == threads[w].nOutputs
  {
    seq(|threads|, w requires 0 <= w < |threads| => threads[w].nOutputs)
  }

  lemma PrefixOfSlice(s: seq<Entry>, lo: nat, k: nat, n: nat)
    requires n <= k && lo + k <= |s|
    ensures s[lo..lo + k][..n] == s[lo..lo + n]
  {
  }

  lemma AgreeingPartHolds(threads: seq<Thread>, workers: seq<Worker>, buffer: seq<Entry>, size: nat, k: nat, w: nat)
    requires AllAgree(threads, workers, buffer, size, k) && w < |threads|
    ensures PartHolds(buffer, size, w, threads[w].nOutputs, workers[w])
  {
    var n, part := threads[w].nOutputs, Part(buffer, w, |threads|, size, k);
    PartInside(w, |threads|, size, k, |buffer|);
    assert ThreadAgrees(threads[w], workers[w], part, k);
    hide Offset, AllAgree, IsHeap;
    PrefixOfSlice(buffer, Offset(w, size), k, n);
  }

  /** The parts of agreeing threads hold what the workers kept. */
  lemma AgreeingPartsHold(threads: seq<Thread>, workers: seq<Worker>, buffer: seq<Entry>, size: nat, k: nat)
    requires AllAgree(threads, workers, buffer, size, k)
    ensures HoldsKept(buffer, size, OutputCounts(threads), workers)
  {
    hide PartHolds, ThreadAgrees, Part, Offset;
    forall w: nat | w < |threads| ensures PartHolds(buffer, size, w, threads[w].nOutputs, workers[w]) {
      AgreeingPartHolds(threads, workers, buffer, size, k, w);
    }
  }

  /** The distances to the anchors, sorted: by the threads when there are enough pages, else by the caller. */
  method FillSorted(db: Database, query: Vec, nThreads: nat, fillSched: seq<nat>) returns (order: seq<Entry>)
    requires db.Valid() && |query| == db.dim && 0 < nThreads
    requires (forall t :: t in fillSched ==> t < nThreads) && EnoughTurns(fillSched, |db.cachedMaxDists|, nThreads)
    ensures order == VisitOrder(db.pages, query)
  {
    hide PagesOk, AnchorsAgree, Sort, VisitOrder, AnchorEntriesUpTo, RadiusEntriesUpTo, EnoughTurns;
    if |db.cachedMaxDists| > nThreads * 2 {
      var buffer := FillInterleaved(db, query, nThreads, fillSched);
      order := Sort(buffer[..]);
    } else {
      order := db.FillDistToAnchor(query, true);
    }
  }

  /** Runs the threads of a context under a schedule. */
  method RunThreads(ctx: Context, ghost cfg: Config, ghost stale: seq<real>, sched: seq<Move>)
    requires ctx.Valid() && ctx.Search() == cfg && cfg.nWorkers == ctx.nThreads == |stale| && 0 < cfg.k
    requires ctx.s == Init(cfg, stale) && forall m :: m in sched ==> m.worker < ctx.nThreads
    modifies ctx, ctx.local
    ensures ctx.Valid() && ctx.s == Exec(cfg, stale, sched)
  {
    hide Advance, Init;
    assert Exec(cfg, stale, sched[..0]) == Init(cfg, stale);
    for i := 0 to |sched|
      invariant ctx.Valid() && ctx.s == Exec(cfg, stale, sched[..i])
    {
      assert sched[i] in sched;
      assert sched[..i + 1][..i] == sched[..i];
      ctx.Turn(sched[i].worker, sched[i].spurious);
    }
    assert sched[..|sched|] == sched;
  }

  /** What every query needs of the pages it may visit. */
  lemma OrderIsVisitable(pages: seq<Page>, dim: nat, capacity: nat, query: Vec)
    requires PagesOk(pages, dim, capacity) && |query| == dim
    ensures forall e :: e in VisitOrder(pages, query) ==>
      && e.id < |pages| && CanVisit(pages, query, e)
      && forall i :: 0 <= i < |pages[e.id].slots| ==> |pages[e.id].slots[i].vec| == |query|
  {
    forall e | e in VisitOrder(pages, query)
      ensures forall i :: 0 <= i < |pages[e.id].slots| ==> |pages[e.id].slots[i].vec| == |query|
    {
      MembersHaveDim(pages, dim, capacity, e.id);
    }
  }

  predicate ThreadsDone(threads: seq<Thread>) {
    forall w :: 0 <= w < |threads| ==> threads[w].pc.Finished?
  }

  function TotalOutputs(nOutputs: seq<nat>): nat {
    if nOutputs == [] then 0 else TotalOutputs(nOutputs[..|nOutputs| - 1]) + nOutputs[|nOutputs| - 1]
  }

  lemma {:induction false} UsedPartsLength(buffers: seq<Entry>, size: nat, nOutputs: seq<nat>, n: nat)
    requires n <= |nOutputs| && |buffers| == |nOutputs| * size
    requires forall t :: 0 <= t < |nOutputs| ==> nOutputs[t] <= size
    ensures |UsedParts(buffers, size, nOutputs, n)| == TotalOutputs(nOutputs[..n])
  {
    if n > 0 {
      UsedPartsLength(buffers, size, nOutputs, n - 1);
      NextPart(buffers, size, nOutputs, n - 1);
      assert nOutputs[..n][..n - 1] == nOutputs[..n - 1];
    }
  }

  lemma ThreadsAndWorkersDone(threads: seq<Thread>, workers: seq<Worker>, buffer: seq<Entry>, size: nat, k: nat)
    requires AllAgree(threads, workers, buffer, size, k)
    ensures ThreadsDone(threads) <==> forall w :: 0 <= w < |workers| ==> workers[w].pc.Finished?
  {
    forall w: nat | w < |threads| ensures threads[w].pc == workers[w].pc {
      OneAgrees(threads, workers, buffer, size, k, w);
    }
    hide ThreadAgrees, Part, AllAgree;
  }

  /** The merged buffer counts what the threads report, and sorts into the merge of the state machine. */
  lemma MergeFacts(threads: seq<Thread>, s: State, buffer: seq<Entry>, size: nat, k: nat)
    requires AllAgree(threads, s.workers, buffer, size, k)
    ensures var nOutputs := OutputCounts(threads);
      && |buffer| == |nOutputs| * size && (forall t :: 0 <= t < |nOutputs| ==> nOutputs[t] <= size)
      && |UsedParts(buffer, size, nOutputs, |nOutputs|)| == TotalOutputs(nOutputs) == |Merged(s)|
      && Sort(UsedParts(buffer, size, nOutputs, |nOutputs|)) == Merged(s)
      && (ThreadsDone(threads) <==> AllFinished(s))
  {
    var nOutputs := OutputCounts(threads);
    AgreeingPartsHold(threads, s.workers, buffer, size, k);
    ThreadsAndWorkersDone(threads, s.workers, buffer, size, k);
    CountsFit(buffer, size, nOutputs, s.workers);
    hide Sort, UsedParts, Collected, AllAgree, TotalOutputs, HoldsKept, OutputCounts, ThreadsDone;
    ResultIsMergedPrefix(buffer, size, nOutputs, s);
    UsedPartsLength(buffer, size, nOutputs, |nOutputs|);
    assert nOutputs[..|nOutputs|] == nOutputs;
  }

  /** What the caller makes of the buffers once all threads are done. The source reads k entries of the merged
      buffer without counting them; done says that they are there. */
  method Collect(ctx: Context) returns (done: bool, result: seq<Entry>)
    requires ctx.Valid()
    ensures done <==> AllFinished(ctx.s) && |Merged(ctx.s)| >= ctx.k
    ensures done ==> result == Merged(ctx.s)[..ctx.k]
  {
    MergeFacts(ctx.threads, ctx.s, ctx.local[..], ctx.size, ctx.k);
    hide Sort, UsedParts, AllAgree, TotalOutputs, AllFinished, ThreadsDone, Merged;
    var nOutputs := OutputCounts(ctx.threads);
    done := ThreadsDone(ctx.threads) && TotalOutputs(nOutputs) >= ctx.k;
    result := [];
    if done {
      result := FindKNearestResult(ctx.local, ctx.size, nOutputs, ctx.k);
    }
  }

  lemma OrderLength(pages: seq<Page>, query: Vec)
    ensures |VisitOrder(pages, query)| == |RadiusEntriesUpTo(pages, |pages|)|
  {
    SameIds(pages, query, |pages|);
    hide AnchorEntriesUpTo, RadiusEntriesUpTo;
  }

  /** A context ready to search the pages in the given order. */
  method NewContext(pages: seq<Page>, query: Vec, order: seq<Entry>, ghost dim: nat, ghost capacity: nat,
                    nPagesToProbe: nat, step: nat, k: nat, guarded: bool, nThreads: nat, local: array<Entry>, size: nat)
      returns (ctx: Context)
    requires PagesOk(pages, dim, capacity) && |query| == dim && order == VisitOrder(pages, query)
    requires nPagesToProbe <= |order| && 0 < k <= size && 0 < step && local.Length == nThreads * size
    ensures fresh(ctx) && ctx.Valid() && ctx.local == local && ctx.k == k && ctx.nThreads == nThreads
    ensures ctx.Search() == CallOf(pages, query, nPagesToProbe, step, k, nThreads, guarded)
    ensures ctx.s == Init(ctx.Search(), Leftovers(local[..], size, nThreads))
  {
    OrderIsVisitable(pages, dim, capacity, query);
    ghost var stale := Leftovers(local[..], size, nThreads);
    hide PagesOk, VisitOrder, CanVisit, LeftOver;
    var maxMorsel := if nPagesToProbe == 0 then |order| else nPagesToProbe;
    ctx := new Context(pages, query, order, maxMorsel, step, k, guarded, nThreads, local, size, stale);
  }

  /** With the check on publication and no budget, a finished run returns k entries at the distances of brute
      force over what is stored. */
  ghost predicate AgreesWithScan(pages: seq<Page>, query: Vec, k: nat, done: bool, result: seq<Entry>)
    requires 0 < k
  {
    forall items: seq<Slot> :: Contents(pages) == multiset(items) && k <= |items| ==>
      done && Dists(result) == Dists(BruteForce(query, items, k))
      && multiset(result) <= multiset(EntriesOf(query, items))
  }

  lemma FinishedAgreesWithScan(pages: seq<Page>, dim: nat, capacity: nat, query: Vec, k: nat, step: nat,
                               nThreads: nat, stale: seq<real>, sched: seq<Move>, done: bool, result: seq<Entry>)
    requires PagesOk(pages, dim, capacity) && |query| == dim && 0 < k && 0 < step && 0 < nThreads == |stale|
    requires var s := Exec(CallOf(pages, query, 0, step, k, nThreads, true), stale, sched);
      && AllFinished(s) && (done <==> |Merged(s)| >= k)
      && (done ==> result == Merged(s)[..k])
    ensures AgreesWithScan(pages, query, k, done, result)
  {
    var cfg := CallOf(pages, query, 0, step, k, nThreads, true);
    hide Exec, Merged, AllFinished, BruteForce, ProbesFor, PagesOk, Contents;
    forall items: seq<Slot> | Contents(pages) == multiset(items) && k <= |items|
      ensures done && Dists(result) == Dists(BruteForce(query, items, k))
      ensures multiset(result) <= multiset(EntriesOf(query, items))
    {
      ParallelAgreesWithScan(pages, dim, capacity, items, query, cfg, stale, sched);
    }
  }

  /** With the check on publication, a finished run within a budget of p pages returns k of the nearest entries of
      these p pages, if they hold that many. */
  ghost predicate BestOfBudget(pages: seq<Page>, query: Vec, k: nat, p: nat, done: bool, result: seq<Entry>) {
    && p <= |ProbesFor(pages, query)|
    && var all := AllEntries(ProbesFor(pages, query)[..p]);
       |all| >= k ==> done && |result| == k && Sorted(result) && KeepsBest(multiset(result), all, k)
  }

  lemma FinishedIsBest(pages: seq<Page>, dim: nat, capacity: nat, query: Vec, nPagesToProbe: nat, k: nat, step: nat,
                       nThreads: nat, stale: seq<real>, sched: seq<Move>, done: bool, result: seq<Entry>)
    requires PagesOk(pages, dim, capacity) && |query| == dim && 0 < k && 0 < step && 0 < nThreads == |stale|
    requires nPagesToProbe <= |ProbesFor(pages, query)|
    requires var s := Exec(CallOf(pages, query, nPagesToProbe, step, k, nThreads, true), stale, sched);
      && AllFinished(s) && (done <==> |Merged(s)| >= k)
      && (done ==> result == Merged(s)[..k])
    ensures var p := if nPagesToProbe == 0 then |ProbesFor(pages, query)| else nPagesToProbe;
      BestOfBudget(pages, query, k, p, done, result)
  {
    var cfg := CallOf(pages, query, nPagesToProbe, step, k, nThreads, true);
    ProbesForOk(pages, dim, capacity, query);
    hide Exec, AllFinished, ProbesFor, PagesOk, AllEntries, KeepsBest, ProbesOk, Sort, Collected;
    if |AllEntries(cfg.probes[..cfg.maxMorsel])| >= k {
      GuardedSearchExact(cfg, stale, sched);
      SortedPrefix(Merged(Exec(cfg, stale, sched)), k);
    }
  }

  /** The threads search the pages in the given order, and the caller merges their buffers. */
  method SearchAndMerge(pages: seq<Page>, query: Vec, order: seq<Entry>, ghost dim: nat, ghost capacity: nat,
                        nPagesToProbe: nat, step: nat, k: nat, guarded: bool, nThreads: nat, local: array<Entry>,
                        size: nat, sched: seq<Move>)
      returns (done: bool, result: seq<Entry>)
    requires PagesOk(pages, dim, capacity) && |query| == dim && order == VisitOrder(pages, query)
    requires nPagesToProbe <= |order| && 0 < k <= size && 0 < step && local.Length == nThreads * size
    requires forall m :: m in sched ==> m.worker < nThreads
    modifies local
    ensures var cfg := CallOf(pages, query, nPagesToProbe, step, k, nThreads, guarded);
      var s := Exec(cfg, Leftovers(old(local[..]), size, nThreads), sched);
      && (done <==> AllFinished(s) && |Merged(s)| >= k)
      && (done ==> result == Merged(s)[..k])
  {
    ghost var stale := Leftovers(local[..], size, nThreads);
    ghost var cfg := CallOf(pages, query, nPagesToProbe, step, k, nThreads, guarded);
    hide PagesOk, VisitOrder, CallOf, Leftovers;
    var ctx := NewContext(pages, query, order, dim, capacity, nPagesToProbe, step, k, guarded, nThreads, local, size);
    CallFields(pages, query, nPagesToProbe, step, k, nThreads, guarded);
    RunThreads(ctx, cfg, stale, sched);
    done, result := Collect(ctx);
  }

  /** The whole call. Under any schedule of the fill and any schedule of the search, its result is the first k
      merged entries of the state machine's run, whenever all threads are done and there are k of them. With the
      check on publication these are the nearest of the pages within the budget, and without a budget they are
      brute force's. */
  method FindKNearest(db: Database, query: Vec, k: nat, nPagesToProbe: nat, step: nat, nThreads: nat, guarded: bool,
                      local: array<Entry>, size: nat, fillSched: seq<nat>, sched: seq<Move>)
      returns (done: bool, result: seq<Entry>)
    requires db.Valid() && |query| == db.dim && 0 < k <= size && 0 < step && 0 < nThreads
    requires local.Length == nThreads * size && nPagesToProbe <= |db.cachedMaxDists|
    requires (forall t :: t in fillSched ==> t < nThreads) && EnoughTurns(fillSched, |db.cachedMaxDists|, nThreads)
    requires forall m :: m in sched ==> m.worker < nThreads
    modifies local
    ensures var cfg := CallOf(db.pages, query, nPagesToProbe, step, k, nThreads, guarded);
      var s := Exec(cfg, Leftovers(old(local[..]), size, nThreads), sched);
      && (done <==> AllFinished(s) && |Merged(s)| >= k)
      && (done ==> result == Merged(s)[..k])
      && (guarded && nPagesToProbe == 0 && AllFinished(s) ==> AgreesWithScan(db.pages, query, k, done, result))
      && (guarded && AllFinished(s) ==>
          var p := if nPagesToProbe == 0 then |db.cachedMaxDists| else nPagesToProbe;
          BestOfBudget(db.pages, query, k, p, done, result))
  {
    var order := FillSorted(db, query, nThreads, fillSched);
    OrderLength(db.pages, query);
    ghost var stale := Leftovers(local[..], size, nThreads);
    ghost var cfg := CallOf(db.pages, query, nPagesToProbe, step, k, nThreads, guarded);
    ghost var dim, capacity := db.dim, db.maxVectorsPerPage;
    hide PagesOk, AnchorsAgree, VisitOrder, RadiusEntriesUpTo, EnoughTurns, Leftovers, Exec, AgreesWithScan, Merged;
    hide BestOfBudget;
    done, result := SearchAndMerge(db.pages, query, order, dim, capacity, nPagesToProbe, step, k, guarded, nThreads,
                                   local, size, sched);
    if guarded && AllFinished(Exec(cfg, stale, sched)) {
      FinishedIsBest(db.pages, dim, capacity, query, nPagesToProbe, k, step, nThreads, stale, sched, done, result);
      if nPagesToProbe == 0 {
        FinishedAgreesWithScan(db.pages, dim, capacity, query, k, step, nThreads, stale, sched, done, result);
      }
    }
  }

  lemma CallFields(pages: seq<Page>, query: Vec, nPagesToProbe: nat, step: nat, k: nat, nThreads: nat, guarded: bool)
    ensures var cfg := CallOf(pages, query, nPagesToProbe, step, k, nThreads, guarded);
      cfg.k == k && cfg.nWorkers == nThreads
  {
  }
}
