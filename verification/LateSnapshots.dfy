/** Runs of the code as it stands, with two workers and a third morsel, that lose the second morsel: worker 0
    claims it but reads the shared bound only after worker 1 has published what an earlier search left. */
module LateSnapshots {
  import opened Vectors
  import opened Entries
  import opened Pages
  import opened SphereBound
  import opened TopK
  import opened Probes
  import opened ParallelSearch
  import opened ParallelExactness
  import opened Schedules
  import opened LineIndex
  import opened UnguardedWorkers

  /** The first morsel fills a buffer up to d; b prunes the second morsel, which holds something nearer; d and
      b prune the rest. */
  ghost predicate Snare(ps: seq<Probe>, step: nat, k: nat, d: real, b: real, near: Entry)
    requires 0 < k && step <= |ps|
  {
    && TopOf(Search(ps[..step], k), d)
    && near in AllEntries(ps[..|ps|]) && near !in AllEntries(ps[..step]) && near.dist < d
    && (forall c :: step <= c < |ps| && c < 2 * step ==> PruneBy(ps[c], At(b)))
    && BothPrune(ps, step, d, b)
  }

  lemma SnareOf(ps: seq<Probe>, step: nat, k: nat, d: real, b: real, near: Entry)
    requires 0 < k && step <= |ps| && TopOf(Search(ps[..step], k), d) && near.dist < d
    requires near in AllEntries(ps[..|ps|]) && near !in AllEntries(ps[..step])
    requires forall c :: step <= c < |ps| && c < 2 * step ==> PruneBy(ps[c], At(b))
    requires BothPrune(ps, step, d, b)
    ensures Snare(ps, step, k, d, b, near)
  {
  }

  predicate TopOf(kept: seq<Entry>, d: real) {
    kept != [] && kept[|kept| - 1].dist == d
  }

  lemma FirstMorselSearched(cfg: Config, stale: seq<real>) returns (sched: seq<Move>, s: State)
    requires 0 < cfg.k && 0 < cfg.step && cfg.nWorkers == |stale| > 0
    requires cfg.maxMorsel == |cfg.probes| > cfg.step
    ensures s == Exec(cfg, stale, sched) && OnlyMoved(Init(cfg, stale), s, 0)
    ensures s.workers[0].pc == Scanning(0, cfg.step, Infinity)
    ensures s.workers[0].kept == Search(cfg.probes[..cfg.step], cfg.k)
    ensures s.shared == Infinity && s.nextMorsel == cfg.step
  {
    NoMoves(cfg, stale);
    hide Exec, Search, Prune, PruneBy, OfferAll;
    s := Init(cfg, stale);
    assert cfg.probes[..0] == [];
    assert s.workers[0].kept == Search(cfg.probes[..0], cfg.k) by { NothingSearched(cfg.k); }
    sched, s := ClaimMorsel(cfg, stale, [], s, 0);
    sched, s := SearchFromMorsel(cfg, stale, sched, s, 0, 0);
  }

  /** Worker 0 searches the first morsel, publishes, and claims the second one. */
  lemma SecondMorselHeld(cfg: Config, stale: seq<real>, d: real) returns (sched: seq<Move>, s: State)
    requires 0 < cfg.k && 0 < cfg.step && cfg.nWorkers == |stale| > 0 && !cfg.guarded
    requires cfg.maxMorsel == |cfg.probes| > cfg.step && TopOf(Search(cfg.probes[..cfg.step], cfg.k), d)
    ensures s == Exec(cfg, stale, sched) && OnlyMoved(Init(cfg, stale), s, 0)
    ensures s.workers[0].pc == Snapshotting(cfg.step) && s.workers[0].kept == Search(cfg.probes[..cfg.step], cfg.k)
    ensures s.shared == At(d) && s.nextMorsel == 2 * cfg.step
  {
    hide Exec, Search, Prune, PruneBy, OfferAll;
    sched, s := FirstMorselSearched(cfg, stale);
    sched, s := EndMorsel(cfg, stale, sched, s, 0);
    sched, s := Step(cfg, stale, sched, s, 0);
  }

  lemma NothingSearched(k: nat)
    requires 0 < k
    ensures Search([], k) == []
  {
  }

  lemma SecondMorselLost(cfg: Config, stale: seq<real>, d: real, near: Entry) returns (sched: seq<Move>, s: State)
    requires 0 < cfg.k && 0 < cfg.step && cfg.nWorkers == |stale| >= 2 && !cfg.guarded
    requires cfg.maxMorsel == |cfg.probes| > 2 * cfg.step && Snare(cfg.probes, cfg.step, cfg.k, d, stale[1], near)
    ensures s == Exec(cfg, stale, sched) && AllFinished(s) && |s.workers| == |stale|
    ensures s.workers[0].kept == Search(cfg.probes[..cfg.step], cfg.k)
    ensures forall v :: 1 <= v < |stale| ==> s.workers[v].kept == []
  {
    hide Exec, Prune, PruneBy, AllEntries, Search;
    sched, s := SecondMorselHeld(cfg, stale, d);
    sched, s := StaleBoundPublished(cfg, stale, sched, s, d, 1);
    sched, s := HeldMorselPruned(cfg, stale, sched, s, 0, cfg.step);
    sched, s := ExitAll(cfg, stale, sched, s, |stale|);
  }

  /** A buffer with an entry at d that lacks a nearer one is not the answer. */
  lemma LackingIsInexact(cfg: Config, s: State, d: real, near: Entry)
    requires 0 < cfg.k && cfg.maxMorsel <= |cfg.probes| && |s.workers| > 0 && TopOf(s.workers[0].kept, d)
    requires |s.workers[0].kept| <= cfg.k && near !in s.workers[0].kept
    requires forall v :: 1 <= v < |s.workers| ==> s.workers[v].kept == []
    requires near in AllEntries(cfg.probes[..cfg.maxMorsel]) && near.dist < d
    ensures !Exact(cfg, s)
  {
    hide AllEntries, Sort, Collected;
    OneBuffer(s.workers, |s.workers|);
    assert s.workers[..|s.workers|] == s.workers;
    var kept, merged := s.workers[0].kept, Merged(s);
    assert multiset(merged) == multiset(kept);
    if |merged| >= cfg.k {
      assert |multiset(merged)| == |multiset(kept)|;
      assert merged[..cfg.k] == merged;
      var all := AllEntries(cfg.probes[..cfg.maxMorsel]);
      assert near !in multiset(kept) && near in all - multiset(kept);
      assert kept[|kept| - 1] in multiset(kept);
    }
  }

  lemma SnareSprung(cfg: Config, stale: seq<real>, d: real, near: Entry) returns (sched: seq<Move>)
    requires ConfigOk(cfg) && cfg.nWorkers == |stale| >= 2 && !cfg.guarded
    requires cfg.maxMorsel == |cfg.probes| > 2 * cfg.step && Snare(cfg.probes, cfg.step, cfg.k, d, stale[1], near)
    ensures AllFinished(Exec(cfg, stale, sched)) && !Exact(cfg, Exec(cfg, stale, sched))
  {
    var s;
    sched, s := SecondMorselLost(cfg, stale, d, near);
    var kept := Search(cfg.probes[..cfg.step], cfg.k);
    SearchKeepsBest(cfg.probes[..cfg.step], cfg.k);
    assert |multiset(kept)| == |kept|;
    assert near !in multiset(kept);
    hide Exec, AllFinished, Exact, Search, AllEntries, Prune, PruneBy, ProbesOk;
    LackingIsInexact(cfg, s, d, near);
  }

  // ---------- Such pages on a line ----------

  /** Pages anchored at a whose other vectors lie at x. */
  ghost predicate RingOf(ps: seq<Probe>, sizes: seq<nat>, n: nat, a: real, x: real) {
    n <= |ps| == |sizes| && forall c :: 0 <= c < n ==> 0 < sizes[c] && ps[c] == LineProbe(a, x, sizes[c])
  }

  /** A bag of n entries for anchors at a and others for members at x. */
  ghost predicate TwoKinds(bag: multiset<Entry>, a: real, x: real, n: nat) {
    && bag[Entry(Square(a), 0)] == n
    && forall e :: e in bag ==> e == Entry(Square(a), 0) || e == Entry(Square(x), 1)
  }

  lemma LineProbeKinds(a: real, x: real, n: nat)
    requires 0 < n
    ensures TwoKinds(multiset(LineProbe(a, x, n).entries), a, x, 1)
  {
    var copies := Copies(Entry(x * x, 1), n - 1);
    assert Entry(a * a, 0) !in copies;
    assert multiset([Entry(a * a, 0)] + copies) == multiset{Entry(a * a, 0)} + multiset(copies);
  }

  lemma MoreKinds(bag: multiset<Entry>, more: multiset<Entry>, a: real, x: real, n: nat)
    requires TwoKinds(bag, a, x, n) && TwoKinds(more, a, x, 1)
    ensures TwoKinds(bag + more, a, x, n + 1)
  {
    hide Square;
  }

  lemma NoKinds(ps: seq<Probe>, a: real, x: real)
    ensures TwoKinds(AllEntries(ps[..0]), a, x, 0)
  {
    hide Square;
  }

  lemma {:induction false} RingKinds(ps: seq<Probe>, sizes: seq<nat>, n: nat, a: real, x: real)
    requires RingOf(ps, sizes, n, a, x)
    ensures TwoKinds(AllEntries(ps[..n]), a, x, n)
  {
    hide LineProbe, Square, TwoKinds, AllEntries;
    if n == 0 {
      NoKinds(ps, a, x);
    } else {
      RingKinds(ps, sizes, n - 1, a, x);
      AllEntriesMore(ps, n - 1);
      LineProbeKinds(a, x, sizes[n - 1]);
      MoreKinds(AllEntries(ps[..n - 1]), multiset(ps[n - 1].entries), a, x, n - 1);
    }
  }

  /** The first ring fills the buffer up to its members, when its anchors alone do not. */
  lemma RingTop(ps: seq<Probe>, sizes: seq<nat>, n: nat, k: nat, a: real, x: real)
    requires RingOf(ps, sizes, n, a, x) && ProbesOk(ps) && HasSizes(ps, sizes)
    requires 0 < k && 0 < n && 0.0 <= a <= x && (a == x || n < k <= SumTo(sizes, n))
    ensures TopOf(Search(ps[..n], k), Square(x))
  {
    var kept, all := Search(ps[..n], k), AllEntries(ps[..n]);
    RingKinds(ps, sizes, n, a, x);
    SearchKeepsBest(ps[..n], k);
    SizesCountEntries(ps, sizes, n);
    SumToPositive(sizes, n);
    assert a < x ==> Square(a) < Square(x) by { if a < x { SquaresAscend(a, x); } }
    hide Search, AllEntries, Square, HasSizes, ProbesOk;
    RingLast(kept, all, n, k, a, x);
  }

  lemma SumToPositive(sizes: seq<nat>, n: nat)
    requires 0 < n <= |sizes| && forall c :: 0 <= c < n ==> 0 < sizes[c]
    ensures 0 < SumTo(sizes, n)
  {
  }

  lemma RingLast(kept: seq<Entry>, all: multiset<Entry>, n: nat, k: nat, a: real, x: real)
    requires Sorted(kept) && KeepsBest(multiset(kept), all, k) && TwoKinds(all, a, x, n)
    requires 0 < k && 0 < |all| && (Square(a) == Square(x) || (Square(a) < Square(x) && n < k <= |all|))
    ensures TopOf(kept, Square(x))
  {
    hide Square;
    var anchor := Entry(Square(a), 0);
    assert |multiset(kept)| == |kept|;
    SortedLast(kept);
    var last := kept[|kept| - 1];
    assert last in multiset(kept) && last in all;
    if last.dist != Square(x) {
      forall e | e in multiset(kept) ensures e == anchor {
        assert Le(e, last) && e in all;
      }
      OneKind(multiset(kept), anchor);
    }
  }

  lemma OneKind(m: multiset<Entry>, e: Entry)
    requires forall x :: x in m ==> x == e
    ensures |m| == m[e]
  {
    assert m == multiset{}[e := m[e]];
  }

  ghost predicate OnRings(ps: seq<Probe>, sizes: seq<nat>, step: nat, anchors: (real, real, real),
                          members: (real, real, real)) {
    && 0 < step && 2 * step < |sizes| && (forall c :: 0 <= c < |sizes| ==> 0 < sizes[c])
    && HasSizes(ps, sizes) && ProbesOk(ps)
    && OnLine(ps, Rings(|sizes|, step, anchors.0, anchors.1, anchors.2),
              Rings(|sizes|, step, members.0, members.1, members.2), sizes)
  }

  lemma IndexOnRings(sizes: seq<nat>, step: nat, anchors: (real, real, real), members: (real, real, real))
      returns (pages: seq<Page>)
    requires 0 < step && 2 * step < |sizes| && forall c :: 0 <= c < |sizes| ==> 0 < sizes[c]
    requires 0.0 <= anchors.0 <= anchors.1 <= anchors.2
    ensures PagesOk(pages, 1, SumTo(sizes, |sizes|)) && |ProbesFor(pages, ORIGIN)| == |sizes|
    ensures OnRings(ProbesFor(pages, ORIGIN), sizes, step, anchors, members)
  {
    var a := Rings(|sizes|, step, anchors.0, anchors.1, anchors.2);
    var m := Rings(|sizes|, step, members.0, members.1, members.2);
    assert Outward(a, sizes);
    hide Outward, LinePages, ProbesFor, PagesOk, HasSizes, ProbesOk, SumTo;
    pages := LinePages(a, m, sizes);
    RealIndex(a, m, sizes);
    ProbesForOk(pages, 1, SumTo(sizes, |sizes|), ORIGIN);
  }

  lemma FirstRing(ps: seq<Probe>, sizes: seq<nat>, step: nat, anchors: (real, real, real), members: (real, real, real))
    requires OnRings(ps, sizes, step, anchors, members)
    ensures RingOf(ps, sizes, step, anchors.0, members.0)
    ensures 0 < step <= |ps| && HasSizes(ps, sizes) && ProbesOk(ps)
  {
    hide LineProbe, ProbesOk;
  }

  /** The wide pages of the second morsel reach in to x, nearer than the flat pages of the first. */
  lemma WideProbe(x: real, n: nat, b: real)
    requires Beyond(x, b) && 0 < n
    ensures PruneBy(LineProbe(x + 3.0, x, n), At(b)) && PruneBy(LineProbe(x + 3.0, x + 3.0, n), At(b))
    ensures PruneBy(LineProbe(x + 3.0, x + 3.0, n), At(Square(x + 1.0)))
  {
    BeyondIsFar(x, b);
    SquaresAscend(x + 1.0, x + 3.0);
    hide LineProbe, PruneBy, Square, Beyond;
    TrapPruned(x, n, b);
    FlatProbe(x + 3.0, n, b);
    FlatProbe(x + 3.0, n, Square(x + 1.0));
  }

  lemma WidePages(ps: seq<Probe>, sizes: seq<nat>, step: nat, x: real, b: real)
    requires Beyond(x, b) && OnRings(ps, sizes, step, (x + 1.0, x + 3.0, x + 3.0), (x + 1.0, x, x + 3.0))
    ensures forall p :: step <= p < |ps| && p < 2 * step ==> PruneBy(ps[p], At(b))
    ensures BothPrune(ps, step, Square(x + 1.0), b)
  {
    BeyondIsFar(x, b);
    hide LineProbe, PruneBy, Square, Beyond, HasSizes, ProbesOk;
    forall p | step <= p < |ps|
      ensures p < 2 * step ==> PruneBy(ps[p], At(b))
      ensures 2 * step <= p ==> PruneBy(ps[p], At(Square(x + 1.0))) && PruneBy(ps[p], At(b))
    {
      WideProbe(x, sizes[p], b);
    }
  }

  lemma WideNear(ps: seq<Probe>, sizes: seq<nat>, step: nat, x: real, c: nat)
    requires step <= c < 2 * step && 2 * step < |sizes| && sizes[c] >= 2 && x >= 1.0
    requires OnRings(ps, sizes, step, (x + 1.0, x + 3.0, x + 3.0), (x + 1.0, x, x + 3.0))
    ensures Entry(Square(x), 1) in AllEntries(ps[..|ps|]) && Entry(Square(x), 1) !in AllEntries(ps[..step])
  {
    FirstRing(ps, sizes, step, (x + 1.0, x + 3.0, x + 3.0), (x + 1.0, x, x + 3.0));
    RingKinds(ps, sizes, step, x + 1.0, x + 1.0);
    SquaresAscend(x, x + 1.0);
    MemberEntry(x + 3.0, x, sizes[c]);
    hide LineProbe, Square, AllEntries, HasSizes, ProbesOk, RingOf;
    PageEntriesIn(ps, |ps|, c, Entry(Square(x), 1));
  }

  lemma WideSnare(ps: seq<Probe>, sizes: seq<nat>, step: nat, k: nat, x: real, b: real, c: nat)
    requires 0 < k && Beyond(x, b) && step <= c < 2 * step && 2 * step < |sizes| && sizes[c] >= 2
    requires OnRings(ps, sizes, step, (x + 1.0, x + 3.0, x + 3.0), (x + 1.0, x, x + 3.0))
    ensures Snare(ps, step, k, Square(x + 1.0), b, Entry(Square(x), 1))
  {
    hide *;
    BeyondIsFar(x, b);
    FirstRing(ps, sizes, step, (x + 1.0, x + 3.0, x + 3.0), (x + 1.0, x, x + 3.0));
    RingTop(ps, sizes, step, k, x + 1.0, x + 1.0);
    WidePages(ps, sizes, step, x, b);
    WideNear(ps, sizes, step, x, c);
    SnareOf(ps, step, k, Square(x + 1.0), b, Entry(Square(x), 1));
  }

  /** The anchors of the second morsel lie between those of the first and their members. */
  lemma BetweenProbe(x: real, n: nat, b: real)
    requires Beyond(x, b) && 0 < n
    ensures PruneBy(LineProbe(x + 1.0, x + 1.0, n), At(b)) && PruneBy(LineProbe(x + 3.0, x + 3.0, n), At(b))
    ensures PruneBy(LineProbe(x + 3.0, x + 3.0, n), At(Square(x + 2.0)))
  {
    BeyondIsFar(x, b);
    SquaresAscend(x + 1.0, x + 2.0);
    SquaresAscend(x + 2.0, x + 3.0);
    hide LineProbe, PruneBy, Square, Beyond;
    FlatProbe(x + 1.0, n, b);
    FlatProbe(x + 3.0, n, b);
    FlatProbe(x + 3.0, n, Square(x + 2.0));
  }

  lemma BetweenPages(ps: seq<Probe>, sizes: seq<nat>, step: nat, x: real, b: real)
    requires Beyond(x, b) && OnRings(ps, sizes, step, (x, x + 1.0, x + 3.0), (x + 2.0, x + 1.0, x + 3.0))
    ensures forall p :: step <= p < |ps| && p < 2 * step ==> PruneBy(ps[p], At(b))
    ensures BothPrune(ps, step, Square(x + 2.0), b)
  {
    BeyondIsFar(x, b);
    SquaresAscend(x + 1.0, x + 2.0);
    hide LineProbe, PruneBy, Square, Beyond, HasSizes, ProbesOk;
    forall p | step <= p < |ps|
      ensures p < 2 * step ==> PruneBy(ps[p], At(b))
      ensures 2 * step <= p ==> PruneBy(ps[p], At(Square(x + 2.0))) && PruneBy(ps[p], At(b))
    {
      BetweenProbe(x, sizes[p], b);
    }
  }

  lemma BetweenNear(ps: seq<Probe>, sizes: seq<nat>, step: nat, x: real)
    requires 2 * step < |sizes| && x >= 1.0
    requires OnRings(ps, sizes, step, (x, x + 1.0, x + 3.0), (x + 2.0, x + 1.0, x + 3.0))
    ensures Entry(Square(x + 1.0), 0) in AllEntries(ps[..|ps|])
    ensures Entry(Square(x + 1.0), 0) !in AllEntries(ps[..step])
  {
    FirstRing(ps, sizes, step, (x, x + 1.0, x + 3.0), (x + 2.0, x + 1.0, x + 3.0));
    RingKinds(ps, sizes, step, x, x + 2.0);
    SquaresAscend(x, x + 1.0);
    AnchorEntry(x + 1.0, sizes[step]);
    hide LineProbe, Square, AllEntries, HasSizes, ProbesOk, RingOf;
    PageEntriesIn(ps, |ps|, step, Entry(Square(x + 1.0), 0));
  }

  lemma FirstMorselSum(sizes: seq<nat>, step: nat)
    requires step < |sizes|
    ensures FirstMorsel(sizes, step) == SumTo(sizes, step)
  {
    hide SumTo;
  }

  lemma BetweenSnare(ps: seq<Probe>, sizes: seq<nat>, step: nat, k: nat, x: real, b: real)
    requires Beyond(x, b) && step < k && 2 * step < |sizes| && FirstMorsel(sizes, step) >= k
    requires OnRings(ps, sizes, step, (x, x + 1.0, x + 3.0), (x + 2.0, x + 1.0, x + 3.0))
    ensures Snare(ps, step, k, Square(x + 2.0), b, Entry(Square(x + 1.0), 0))
  {
    hide *;
    FirstMorselSum(sizes, step);
    BeyondIsFar(x, b);
    SquaresAscend(x + 1.0, x + 2.0);
    FirstRing(ps, sizes, step, (x, x + 1.0, x + 3.0), (x + 2.0, x + 1.0, x + 3.0));
    RingTop(ps, sizes, step, k, x, x + 2.0);
    BetweenPages(ps, sizes, step, x, b);
    BetweenNear(ps, sizes, step, x);
    SnareOf(ps, step, k, Square(x + 2.0), b, Entry(Square(x + 1.0), 0));
  }

  /** With a second worker and a third morsel, the second morsel can be lost as soon as one of its pages holds
      two vectors or more, or the first morsel needs more than its anchors to fill a buffer, whatever earlier
      searches left in the buffers. */
  lemma LateSnapshotLoses(sizes: seq<nat>, step: nat, k: nat, stale: seq<real>)
      returns (pages: seq<Page>, sched: seq<Move>)
    requires 0 < step && 0 < k && |stale| >= 2 && 2 * step < |sizes| && FirstMorsel(sizes, step) >= k
    requires step < k || exists c :: step <= c < 2 * step && sizes[c] >= 2
    requires forall i :: 0 <= i < |sizes| ==> 0 < sizes[i]
    ensures PagesOk(pages, 1, SumTo(sizes, |sizes|)) && HasSizes(ProbesFor(pages, ORIGIN), sizes)
    ensures var cfg := CallOf(pages, ORIGIN, 0, step, k, |stale|, false);
      AllFinished(Exec(cfg, stale, sched)) && !Exact(cfg, Exec(cfg, stale, sched))
  {
    var d, near;
    pages, d, near := SnareIndex(sizes, step, k, stale[1]);
    hide HasSizes, PagesOk, ProbesFor, Exec, Exact, AllFinished, SumTo, Snare;
    sched := SnareSprung(CallOf(pages, ORIGIN, 0, step, k, |stale|, false), stale, d, near);
  }

  lemma SnareIndex(sizes: seq<nat>, step: nat, k: nat, b: real) returns (pages: seq<Page>, d: real, near: Entry)
    requires 0 < step && 0 < k && 2 * step < |sizes| && FirstMorsel(sizes, step) >= k
    requires step < k || exists c :: step <= c < 2 * step && sizes[c] >= 2
    requires forall i :: 0 <= i < |sizes| ==> 0 < sizes[i]
    ensures PagesOk(pages, 1, SumTo(sizes, |sizes|)) && HasSizes(ProbesFor(pages, ORIGIN), sizes)
    ensures ProbesOk(ProbesFor(pages, ORIGIN)) && |ProbesFor(pages, ORIGIN)| == |sizes|
    ensures Snare(ProbesFor(pages, ORIGIN), step, k, d, b, near)
  {
    var x := PickBeyond(b);
    assert x >= 1.0;
    hide Beyond, Square, Snare, ProbesFor, PagesOk, HasSizes, ProbesOk, FirstMorsel, SumTo, OnLine;
    if step < k {
      pages := IndexOnRings(sizes, step, (x, x + 1.0, x + 3.0), (x + 2.0, x + 1.0, x + 3.0));
      d, near := Square(x + 2.0), Entry(Square(x + 1.0), 0);
      BetweenSnare(ProbesFor(pages, ORIGIN), sizes, step, k, x, b);
    } else {
      var c :| step <= c < 2 * step && sizes[c] >= 2;
      pages := IndexOnRings(sizes, step, (x + 1.0, x + 3.0, x + 3.0), (x + 1.0, x, x + 3.0));
      d, near := Square(x + 1.0), Entry(Square(x), 1);
      WideSnare(ProbesFor(pages, ORIGIN), sizes, step, k, x, b, c);
    }
  }
}
