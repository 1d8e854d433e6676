/** Runs of the code as it stands that lose vectors, each over an index on a line: one needs a first morsel
    that is too small, one a second worker and a third morsel, one a third worker. */
module UnguardedWorkers {
  import opened Vectors
  import opened Entries
  import opened Pages
  import opened SphereBound
  import opened TopK
  import opened Probes
  import opened ParallelSearch
  import opened ParallelExactness
  import opened Schedules
  import opened LineIndex

  /** How many vectors the first morsel holds. */
  function FirstMorsel(sizes: seq<nat>, step: nat): nat {
    SumTo(sizes, if step < |sizes| then step else |sizes|)
  }

  /** The probes of an index on a line. */
  ghost predicate OnLine(ps: seq<Probe>, anchors: seq<real>, members: seq<real>, sizes: seq<nat>) {
    && |ps| == |anchors| == |members| == |sizes|
    && forall c :: 0 <= c < |ps| ==> ps[c] == LineProbe(anchors[c], members[c], sizes[c])
  }

  /** One position for each of the first two morsels, and one for the rest. */
  function Rings(n: nat, step: nat, first: real, second: real, rest: real): (r: seq<real>)
    ensures |r| == n
    ensures forall c :: 0 <= c < n ==> r[c] == if c < step then first else if c < 2 * step then second else rest
  {
    seq(n, c => if c < step then first else if c < 2 * step then second else rest)
  }

  lemma SquareAbove(x: real, y: real)
    requires x > 0.0 && y == 0.0
    ensures x * x > y
  {
    StrictSquares(0.0, x);
  }

  lemma FlatPruned(d: real, m: real, w: real)
    requires 0.0 < d && m == 0.0 && w < d
    ensures Prune(d, m, w)
  {
    assert 4.0 * d * m == 0.0;
    SquareAbove(d + m - w, 4.0 * d * m);
  }

  lemma FlatProbe(a: real, n: nat, w: real)
    requires 0.0 < a && 0 < n
    ensures FlatAt(LineProbe(a, a, n), Square(a))
    ensures w < Square(a) ==> PruneBy(LineProbe(a, a, n), At(w))
  {
    StrictSquares(0.0, a);
    assert Spread(a, a, n) == 0.0;
    if w < a * a { FlatPruned(a * a, 0.0, w); }
  }

  lemma SquaresAscend(x: real, y: real)
    requires 0.0 <= x < y
    ensures Square(x) < Square(y)
  {
    StrictSquares(x, y);
  }

  // ---------- The first morsel holds fewer than k vectors ----------

  function FarAnchors(n: nat, step: nat): seq<real> {
    Rings(n, step, 1.0, 10.0, 10.0)
  }

  lemma FarProbes(ps: seq<Probe>, sizes: seq<nat>, step: nat)
    requires var far := FarAnchors(|sizes|, step); OnLine(ps, far, far, sizes)
    requires forall c :: 0 <= c < |sizes| ==> 0 < sizes[c]
    ensures forall c :: 0 <= c < |ps| && c < step ==> FlatAt(ps[c], 1.0)
    ensures forall c :: step <= c < |ps| ==> PruneBy(ps[c], At(1.0))
  {
    hide LineProbe, FlatAt, PruneBy;
    forall c | 0 <= c < |ps| && c < step ensures FlatAt(ps[c], 1.0) {
      FlatProbe(1.0, sizes[c], 0.0);
    }
    forall c | step <= c < |ps| ensures PruneBy(ps[c], At(1.0)) {
      FlatProbe(10.0, sizes[c], 1.0);
    }
  }

  /** Worker 0 scans the first morsel and publishes its distance, which prunes everything else. */
  lemma FirstMorselOnly(cfg: Config, sizes: seq<nat>, stale: seq<real>) returns (sched: seq<Move>)
    requires 0 < cfg.k && 0 < cfg.step && cfg.nWorkers == |stale| > 0 && !cfg.guarded
    requires 0 < cfg.maxMorsel == |cfg.probes| && HasSizes(cfg.probes, sizes)
    requires var far := FarAnchors(|sizes|, cfg.step); OnLine(cfg.probes, far, far, sizes)
    requires forall c :: 0 <= c < |sizes| ==> 0 < sizes[c]
    requires FirstMorsel(sizes, cfg.step) < cfg.k
    ensures AllFinished(Exec(cfg, stale, sched)) && !Exact(cfg, Exec(cfg, stale, sched))
  {
    FarProbes(cfg.probes, sizes, cfg.step);
    NoMoves(cfg, stale);
    hide Exec, Prune, PruneBy, FlatAt, OnLine, LineProbe, HasSizes, SumTo, Exact;
    var s := Init(cfg, stale);
    sched, s := ClaimMorsel(cfg, stale, [], s, 0);
    sched, s := FillFromMorsel(cfg, stale, sched, s, 0, 0, 1.0, sizes);
    ghost var kept := s.workers[0].kept;
    assert kept[|kept| - 1].dist == 1.0;
    sched, s := EndMorsel(cfg, stale, sched, s, 0);
    sched, s := PruneRest(cfg, stale, sched, s, 0);
    sched, s := ExitAll(cfg, stale, sched, s, |stale|);
    ShortIsInexact(cfg, s);
  }

  lemma {:induction false} SizeBelowSum(sizes: seq<nat>, n: nat, c: nat)
    requires c < n <= |sizes|
    ensures sizes[c] <= SumTo(sizes, n)
  {
    if c < n - 1 { SizeBelowSum(sizes, n - 1, c); }
  }

  /** An index with pages of the given sizes, valid on any capacity that holds them. */
  lemma RealIndex(anchors: seq<real>, members: seq<real>, sizes: seq<nat>)
    requires Outward(anchors, sizes) && |members| == |sizes|
    ensures var pages := LinePages(anchors, members, sizes);
      && PagesOk(pages, 1, SumTo(sizes, |sizes|))
      && OnLine(ProbesFor(pages, ORIGIN), anchors, members, sizes) && HasSizes(ProbesFor(pages, ORIGIN), sizes)
  {
    forall c | 0 <= c < |sizes| ensures sizes[c] <= SumTo(sizes, |sizes|) {
      SizeBelowSum(sizes, |sizes|, c);
    }
    IndexOnLine(anchors, members, sizes, SumTo(sizes, |sizes|));
  }

  lemma ShortFirstMorselLoses(sizes: seq<nat>, step: nat, k: nat, stale: seq<real>)
      returns (pages: seq<Page>, sched: seq<Move>)
    requires 0 < step && 0 < k && stale != [] && sizes != [] && FirstMorsel(sizes, step) < k
    requires forall c :: 0 <= c < |sizes| ==> 0 < sizes[c]
    ensures PagesOk(pages, 1, SumTo(sizes, |sizes|)) && HasSizes(ProbesFor(pages, ORIGIN), sizes)
    ensures var cfg := CallOf(pages, ORIGIN, 0, step, k, |stale|, false);
      AllFinished(Exec(cfg, stale, sched)) && !Exact(cfg, Exec(cfg, stale, sched))
  {
    var far := FarAnchors(|sizes|, step);
    pages := LinePages(far, far, sizes);
    RealIndex(far, far, sizes);
    hide Exec, Exact, AllFinished, OnLine, HasSizes;
    sched := FirstMorselOnly(CallOf(pages, ORIGIN, 0, step, k, |stale|, false), sizes, stale);
  }

  // ---------- A second worker and a third morsel ----------

  /** A position beyond what is left in a buffer. */
  predicate Beyond(x: real, stale: real) {
    x >= 1.0 && stale < x * x && stale <= (x - 0.5) * (x - 0.5)
  }

  lemma PickBeyond(stale: real) returns (x: real)
    ensures Beyond(x, stale)
  {
    var t := if stale < 0.0 then 0.0 else stale;
    x := t + 1.0;
    ProductNonNegative(t, t);
    assert x * x == t * t + 2.0 * t + 1.0;
    assert (x - 0.5) * (x - 0.5) == t * t + t + 0.25;
  }

  function TrapAnchors(n: nat, step: nat, x: real): seq<real> {
    Rings(n, step, x + 1.0, x + 2.0, x + 3.0)
  }

  /** From the third morsel on the pages reach in to x, nearer than every anchor. */
  function TrapMembers(n: nat, step: nat, x: real): seq<real> {
    Rings(n, step, x + 1.0, x + 2.0, x)
  }

  lemma PruneLowerBound(d: real, m: real, w: real, v: real)
    requires Prune(d, m, v) && w <= v
    ensures Prune(d, m, w)
  {
    SquareOfSmaller(d + m - v, d + m - w);
  }

  lemma SpreadIsNine(a: real, x: real)
    requires a == x + 3.0
    ensures (x - a) * (x - a) == 9.0
  {
  }

  /** A page that reaches in to x is pruned by any bound below x * x. */
  lemma TrapPruned(x: real, n: nat, w: real)
    requires Beyond(x, w) && 0 < n
    ensures PruneBy(LineProbe(x + 3.0, x, n), At(w))
  {
    SpreadIsNine(x + 3.0, x);
    StrictSquares(x, x + 3.0);
    if n >= 2 {
      PruneOnSquares(x + 3.0, 3.0, x - 0.5);
      PruneLowerBound((x + 3.0) * (x + 3.0), 9.0, w, (x - 0.5) * (x - 0.5));
    } else {
      FlatPruned((x + 3.0) * (x + 3.0), 0.0, w);
    }
  }

  /** Flat pages at d, then pages that d prunes, then pages that b prunes. */
  ghost predicate Trap(ps: seq<Probe>, step: nat, d: real, b: real) {
    && b < d
    && (forall c :: 0 <= c < |ps| && c < step ==> FlatAt(ps[c], d))
    && (forall c :: step <= c < |ps| && c < 2 * step ==> PruneBy(ps[c], At(d)))
    && (forall c :: 2 * step <= c < |ps| ==> PruneBy(ps[c], At(b)))
  }

  lemma BeyondIsFar(x: real, b: real)
    requires Beyond(x, b)
    ensures x >= 1.0 && b < Square(x) < Square(x + 1.0)
  {
    SquaresAscend(x, x + 1.0);
  }

  lemma TrapProbe(x: real, n: nat, b: real)
    requires Beyond(x, b) && 0 < n
    ensures FlatAt(LineProbe(x + 1.0, x + 1.0, n), Square(x + 1.0))
    ensures PruneBy(LineProbe(x + 2.0, x + 2.0, n), At(Square(x + 1.0)))
    ensures PruneBy(LineProbe(x + 3.0, x, n), At(b))
  {
    BeyondIsFar(x, b);
    SquaresAscend(x + 1.0, x + 2.0);
    hide LineProbe, FlatAt, PruneBy, Square, Beyond;
    FlatProbe(x + 1.0, n, 0.0);
    FlatProbe(x + 2.0, n, Square(x + 1.0));
    TrapPruned(x, n, b);
  }

  lemma TrapProbes(ps: seq<Probe>, sizes: seq<nat>, step: nat, x: real, b: real)
    requires OnLine(ps, TrapAnchors(|sizes|, step, x), TrapMembers(|sizes|, step, x), sizes)
    requires Beyond(x, b) && forall c :: 0 <= c < |sizes| ==> 0 < sizes[c]
    ensures Trap(ps, step, Square(x + 1.0), b)
  {
    BeyondIsFar(x, b);
    hide LineProbe, FlatAt, PruneBy, Square, Beyond;
    forall c | 0 <= c < |ps|
      ensures c < step ==> FlatAt(ps[c], Square(x + 1.0))
      ensures step <= c < 2 * step ==> PruneBy(ps[c], At(Square(x + 1.0)))
      ensures 2 * step <= c ==> PruneBy(ps[c], At(b))
    {
      TrapProbe(x, sizes[c], b);
    }
  }

  lemma LastIsAt(kept: seq<Entry>, d: real)
    requires AllAt(kept, d) && kept != []
    ensures kept[|kept| - 1].dist == d
  {
  }

  /** Worker 0 fills its buffer from the first morsel and publishes. */
  lemma FirstMorselFilled(cfg: Config, sizes: seq<nat>, stale: seq<real>, d: real, b: real)
      returns (sched: seq<Move>, s: State)
    requires 0 < cfg.k && 0 < cfg.step && cfg.nWorkers == |stale| >= 2 && !cfg.guarded
    requires cfg.maxMorsel == |cfg.probes| == |sizes| > 2 * cfg.step && HasSizes(cfg.probes, sizes)
    requires Trap(cfg.probes, cfg.step, d, b) && forall c :: 0 <= c < |sizes| ==> 0 < sizes[c]
    ensures s == Exec(cfg, stale, sched) && OnlyMoved(Init(cfg, stale), s, 0)
    ensures s.workers[0].pc.Claiming? && AllAt(s.workers[0].kept, d)
    ensures s.shared == At(d) && s.nextMorsel == cfg.step
  {
    NoMoves(cfg, stale);
    NothingAt(d);
    hide Exec, Prune, PruneBy, FlatAt, HasSizes, SumTo, AllAt;
    s := Init(cfg, stale);
    sched, s := ClaimMorsel(cfg, stale, [], s, 0);
    sched, s := FillFromMorsel(cfg, stale, sched, s, 0, 0, d, sizes);
    LastIsAt(s.workers[0].kept, d);
    sched, s := EndMorsel(cfg, stale, sched, s, 0);
  }

  /** Then worker 1 prunes the second morsel and publishes what an earlier search left in its buffer; that
      bound prunes all the rest. */
  lemma NearestLost(cfg: Config, sizes: seq<nat>, stale: seq<real>, d: real) returns (sched: seq<Move>, s: State)
    requires 0 < cfg.k && 0 < cfg.step && cfg.nWorkers == |stale| >= 2 && !cfg.guarded
    requires cfg.maxMorsel == |cfg.probes| == |sizes| > 2 * cfg.step && HasSizes(cfg.probes, sizes)
    requires Trap(cfg.probes, cfg.step, d, stale[1]) && forall c :: 0 <= c < |sizes| ==> 0 < sizes[c]
    ensures s == Exec(cfg, stale, sched) && AllFinished(s) && |s.workers| == |stale|
    ensures AllAt(s.workers[0].kept, d) && forall v :: 1 <= v < |stale| ==> s.workers[v].kept == []
  {
    sched, s := FirstMorselFilled(cfg, sizes, stale, d, stale[1]);
    hide Exec, Prune, PruneBy, FlatAt, HasSizes, SumTo, AllAt;
    sched, s := ClaimMorsel(cfg, stale, sched, s, 1);
    sched, s := PruneMorsel(cfg, stale, sched, s, 1, cfg.step);
    sched, s := EndMorsel(cfg, stale, sched, s, 1);
    sched, s := PruneRest(cfg, stale, sched, s, 1);
    sched, s := ExitAll(cfg, stale, sched, s, |stale|);
  }

  lemma NothingAt(d: real)
    ensures AllAt([], d)
  {
  }

  lemma MemberEntry(a: real, x: real, n: nat)
    requires n >= 2
    ensures LineProbe(a, x, n).entries[1] == Entry(Square(x), 1)
  {
  }

  lemma NearIsProbed(ps: seq<Probe>, sizes: seq<nat>, step: nat, x: real, c: nat)
    requires OnLine(ps, TrapAnchors(|sizes|, step, x), TrapMembers(|sizes|, step, x), sizes)
    requires 2 * step <= c < |sizes| && sizes[c] >= 2
    ensures Entry(Square(x), 1) in AllEntries(ps[..|ps|])
  {
    var near := Entry(Square(x), 1);
    MemberEntry(x + 3.0, x, sizes[c]);
    hide LineProbe, AllEntries, Square;
    assert ps[c] == LineProbe(x + 3.0, x, sizes[c]);
    PageEntriesIn(ps, |ps|, c, near);
  }

  /** With a second worker and a page of two vectors or more beyond the second morsel, the nearest vectors
      can be lost, whatever earlier searches left in the buffers. */
  lemma ThirdMorselLoses(sizes: seq<nat>, step: nat, k: nat, stale: seq<real>, c: nat)
      returns (pages: seq<Page>, sched: seq<Move>)
    requires 0 < step && 0 < k && |stale| >= 2 && 2 * step <= c < |sizes| && sizes[c] >= 2
    requires forall i :: 0 <= i < |sizes| ==> 0 < sizes[i]
    ensures PagesOk(pages, 1, SumTo(sizes, |sizes|)) && HasSizes(ProbesFor(pages, ORIGIN), sizes)
    ensures var cfg := CallOf(pages, ORIGIN, 0, step, k, |stale|, false);
      AllFinished(Exec(cfg, stale, sched)) && !Exact(cfg, Exec(cfg, stale, sched))
  {
    var d, near;
    pages, d, near := BaitedIndex(sizes, step, stale[1], c);
    hide HasSizes, PagesOk, ProbesFor, Exec, Exact, AllFinished, SumTo, Baited;
    sched := TrapSprung(CallOf(pages, ORIGIN, 0, step, k, |stale|, false), sizes, stale, d, near);
  }

  /** An index of pages of the given sizes that baits a trap for the bound b. */
  lemma BaitedIndex(sizes: seq<nat>, step: nat, b: real, c: nat) returns (pages: seq<Page>, d: real, near: Entry)
    requires 2 * step <= c < |sizes| && sizes[c] >= 2 && forall i :: 0 <= i < |sizes| ==> 0 < sizes[i]
    ensures PagesOk(pages, 1, SumTo(sizes, |sizes|)) && HasSizes(ProbesFor(pages, ORIGIN), sizes)
    ensures |ProbesFor(pages, ORIGIN)| == |sizes| && Baited(ProbesFor(pages, ORIGIN), step, d, b, near)
  {
    var x := PickBeyond(b);
    assert x >= 1.0;
    hide *;
    d, near := Square(x + 1.0), Entry(Square(x), 1);
    pages := TrapIndex(sizes, step, x);
    TrapOnLine(ProbesFor(pages, ORIGIN), sizes, step, x, b, c);
  }

  lemma TrapIndex(sizes: seq<nat>, step: nat, x: real) returns (pages: seq<Page>)
    requires x >= 1.0 && forall i :: 0 <= i < |sizes| ==> 0 < sizes[i]
    ensures PagesOk(pages, 1, SumTo(sizes, |sizes|)) && HasSizes(ProbesFor(pages, ORIGIN), sizes)
    ensures OnLine(ProbesFor(pages, ORIGIN), TrapAnchors(|sizes|, step, x), TrapMembers(|sizes|, step, x), sizes)
    ensures |ProbesFor(pages, ORIGIN)| == |sizes|
  {
    var anchors, members := TrapAnchors(|sizes|, step, x), TrapMembers(|sizes|, step, x);
    assert Outward(anchors, sizes);
    pages := LinePages(anchors, members, sizes);
    RealIndex(anchors, members, sizes);
  }

  /** A trap with something nearer than its bait. */
  ghost predicate Baited(ps: seq<Probe>, step: nat, d: real, b: real, near: Entry) {
    Trap(ps, step, d, b) && near in AllEntries(ps[..|ps|]) && near.dist < d
  }

  lemma TrapOnLine(ps: seq<Probe>, sizes: seq<nat>, step: nat, x: real, b: real, c: nat)
    requires OnLine(ps, TrapAnchors(|sizes|, step, x), TrapMembers(|sizes|, step, x), sizes) && Beyond(x, b)
    requires 2 * step <= c < |sizes| && sizes[c] >= 2 && forall i :: 0 <= i < |sizes| ==> 0 < sizes[i]
    ensures Baited(ps, step, Square(x + 1.0), b, Entry(Square(x), 1))
  {
    hide Trap, AllEntries, OnLine, Square, Beyond, TrapAnchors, TrapMembers;
    TrapProbes(ps, sizes, step, x, b);
    NearIsProbed(ps, sizes, step, x, c);
    BeyondIsFar(x, b);
  }

  lemma TrapSprung(cfg: Config, sizes: seq<nat>, stale: seq<real>, d: real, near: Entry) returns (sched: seq<Move>)
    requires 0 < cfg.k && 0 < cfg.step && cfg.nWorkers == |stale| >= 2 && !cfg.guarded
    requires cfg.maxMorsel == |cfg.probes| == |sizes| > 2 * cfg.step && HasSizes(cfg.probes, sizes)
    requires Baited(cfg.probes, cfg.step, d, stale[1], near) && forall c :: 0 <= c < |sizes| ==> 0 < sizes[c]
    ensures AllFinished(Exec(cfg, stale, sched)) && !Exact(cfg, Exec(cfg, stale, sched))
  {
    assert Trap(cfg.probes, cfg.step, d, stale[1]);
    assert near in AllEntries(cfg.probes[..|cfg.probes|]) && near.dist < d;
    hide *;
    var s;
    sched, s := NearestLost(cfg, sizes, stale, d);
    LostIsInexact(cfg, s, d, near);
  }

  // ---------- A third worker ----------

  function RingAnchors(n: nat, step: nat, x: real): seq<real> {
    Rings(n, step, x, x + 1.0, x + 2.0)
  }

  /** Pages that b prunes, then flat pages at d, then pages that d and b prune. */
  ghost predicate Ambush(ps: seq<Probe>, step: nat, d: real, b: real) {
    && b < d
    && (forall c :: 0 <= c < |ps| && c < step ==> PruneBy(ps[c], At(b)))
    && (forall c :: step <= c < |ps| && c < 2 * step ==> FlatAt(ps[c], d))
    && (forall c :: 2 * step <= c < |ps| ==> PruneBy(ps[c], At(d)) && PruneBy(ps[c], At(b)))
  }

  lemma RingProbe(x: real, n: nat, b: real)
    requires Beyond(x, b) && 0 < n
    ensures PruneBy(LineProbe(x, x, n), At(b)) && FlatAt(LineProbe(x + 1.0, x + 1.0, n), Square(x + 1.0))
    ensures PruneBy(LineProbe(x + 2.0, x + 2.0, n), At(Square(x + 1.0)))
    ensures PruneBy(LineProbe(x + 2.0, x + 2.0, n), At(b))
  {
    BeyondIsFar(x, b);
    SquaresAscend(x + 1.0, x + 2.0);
    hide LineProbe, FlatAt, PruneBy, Square, Beyond;
    FlatProbe(x, n, b);
    FlatProbe(x + 1.0, n, 0.0);
    FlatProbe(x + 2.0, n, Square(x + 1.0));
    FlatProbe(x + 2.0, n, b);
  }

  lemma AnchorEntry(a: real, n: nat)
    requires n >= 1
    ensures LineProbe(a, a, n).entries[0] == Entry(Square(a), 0)
  {
  }

  /** A page nearer than the flat ones, in the first morsel. */
  ghost predicate Ambushed(ps: seq<Probe>, step: nat, d: real, b: real, near: Entry) {
    Ambush(ps, step, d, b) && near in AllEntries(ps[..|ps|]) && near.dist < d
  }

  lemma RingIsAmbush(ps: seq<Probe>, sizes: seq<nat>, step: nat, x: real, b: real)
    requires var ring := RingAnchors(|sizes|, step, x); OnLine(ps, ring, ring, sizes)
    requires Beyond(x, b) && forall c :: 0 <= c < |sizes| ==> 0 < sizes[c]
    ensures Ambush(ps, step, Square(x + 1.0), b)
  {
    BeyondIsFar(x, b);
    hide LineProbe, FlatAt, PruneBy, Square, Beyond;
    forall c | 0 <= c < |ps|
      ensures c < step ==> PruneBy(ps[c], At(b))
      ensures step <= c < 2 * step ==> FlatAt(ps[c], Square(x + 1.0))
      ensures 2 * step <= c ==> PruneBy(ps[c], At(Square(x + 1.0))) && PruneBy(ps[c], At(b))
    {
      RingProbe(x, sizes[c], b);
    }
  }

  lemma RingHasNear(ps: seq<Probe>, sizes: seq<nat>, step: nat, x: real)
    requires var ring := RingAnchors(|sizes|, step, x); OnLine(ps, ring, ring, sizes)
    requires 0 < step && sizes != [] && 0 < sizes[0]
    ensures Entry(Square(x), 0) in AllEntries(ps[..|ps|])
  {
    AnchorEntry(x, sizes[0]);
    assert ps[0] == LineProbe(x, x, sizes[0]);
    hide LineProbe, Square, AllEntries, OnLine;
    PageEntriesIn(ps, |ps|, 0, Entry(Square(x), 0));
  }

  lemma RingIsAmbushed(ps: seq<Probe>, sizes: seq<nat>, step: nat, x: real, b: real)
    requires var ring := RingAnchors(|sizes|, step, x); OnLine(ps, ring, ring, sizes)
    requires Beyond(x, b) && 0 < step && sizes != [] && forall c :: 0 <= c < |sizes| ==> 0 < sizes[c]
    ensures Ambushed(ps, step, Square(x + 1.0), b, Entry(Square(x), 0))
  {
    hide Ambush, AllEntries, OnLine, Square, Beyond, RingAnchors;
    RingIsAmbush(ps, sizes, step, x, b);
    RingHasNear(ps, sizes, step, x);
    BeyondIsFar(x, b);
  }

  lemma RingIndex(sizes: seq<nat>, step: nat, b: real) returns (pages: seq<Page>, d: real, near: Entry)
    requires 0 < step && sizes != [] && forall i :: 0 <= i < |sizes| ==> 0 < sizes[i]
    ensures PagesOk(pages, 1, SumTo(sizes, |sizes|)) && HasSizes(ProbesFor(pages, ORIGIN), sizes)
    ensures |ProbesFor(pages, ORIGIN)| == |sizes| && Ambushed(ProbesFor(pages, ORIGIN), step, d, b, near)
  {
    var x := PickBeyond(b);
    assert x >= 1.0;
    pages := RingPages(sizes, step, x);
    hide *;
    d, near := Square(x + 1.0), Entry(Square(x), 0);
    RingIsAmbushed(ProbesFor(pages, ORIGIN), sizes, step, x, b);
  }

  lemma RingPages(sizes: seq<nat>, step: nat, x: real) returns (pages: seq<Page>)
    requires x >= 1.0 && forall i :: 0 <= i < |sizes| ==> 0 < sizes[i]
    ensures PagesOk(pages, 1, SumTo(sizes, |sizes|)) && HasSizes(ProbesFor(pages, ORIGIN), sizes)
    ensures var ring := RingAnchors(|sizes|, step, x); OnLine(ProbesFor(pages, ORIGIN), ring, ring, sizes)
    ensures |ProbesFor(pages, ORIGIN)| == |sizes|
  {
    var ring := RingAnchors(|sizes|, step, x);
    assert Outward(ring, sizes);
    pages := LinePages(ring, ring, sizes);
    RealIndex(ring, ring, sizes);
  }

  /** Worker 1 claims the first morsel and is held up before it reads the bound; worker 0 fills its buffer from
      the second morsel and publishes. */
  lemma SecondMorselFilled(cfg: Config, sizes: seq<nat>, stale: seq<real>, d: real, b: real)
      returns (sched: seq<Move>, s: State)
    requires 0 < cfg.k && 0 < cfg.step && cfg.nWorkers == |stale| >= 3 && !cfg.guarded
    requires cfg.maxMorsel == |cfg.probes| == |sizes| > 2 * cfg.step && HasSizes(cfg.probes, sizes)
    requires Ambush(cfg.probes, cfg.step, d, b) && forall c :: 0 <= c < |sizes| ==> 0 < sizes[c]
    ensures s == Exec(cfg, stale, sched) && |s.workers| == |stale| && |s.status| == cfg.maxMorsel
    ensures s.workers[0].pc.Claiming? && AllAt(s.workers[0].kept, d)
    ensures s.workers[1] == Worker(Snapshotting(0), [], 0, stale[1])
    ensures forall v :: 2 <= v < |stale| ==> s.workers[v] == Worker(Claiming, [], 0, stale[v])
    ensures s.shared == At(d) && s.nextMorsel == 2 * cfg.step
  {
    NoMoves(cfg, stale);
    NothingAt(d);
    hide Exec, Prune, PruneBy, FlatAt, HasSizes, SumTo, AllAt;
    s := Init(cfg, stale);
    sched, s := Step(cfg, stale, [], s, 1);
    sched, s := ClaimMorsel(cfg, stale, sched, s, 0);
    sched, s := FillFromMorsel(cfg, stale, sched, s, 0, cfg.step, d, sizes);
    LastIsAt(s.workers[0].kept, d);
    sched, s := EndMorsel(cfg, stale, sched, s, 0);
  }

  /** Pages from the third morsel on that the bounds d and b prune. */
  ghost predicate BothPrune(ps: seq<Probe>, step: nat, d: real, b: real) {
    b < d && forall c :: 2 * step <= c < |ps| ==> PruneBy(ps[c], At(d)) && PruneBy(ps[c], At(b))
  }

  /** A worker that has done nothing prunes the third morsel and publishes what an earlier search left in its
      buffer; that bound prunes all the rest. */
  lemma StaleBoundPublished(cfg: Config, stale: seq<real>, start: seq<Move>, was: State, d: real, v: nat)
      returns (sched: seq<Move>, s: State)
    requires 0 < cfg.k && 0 < cfg.step && v < cfg.nWorkers == |stale| && !cfg.guarded
    requires cfg.maxMorsel == |cfg.probes| > 2 * cfg.step && BothPrune(cfg.probes, cfg.step, d, stale[v])
    requires was == Exec(cfg, stale, start) && |was.workers| == |stale| && |was.status| == cfg.maxMorsel
    requires was.workers[v] == Worker(Claiming, [], 0, stale[v])
    requires was.shared == At(d) && was.nextMorsel == 2 * cfg.step
    ensures s == Exec(cfg, stale, sched) && OnlyMoved(was, s, v)
    ensures s.workers[v].pc.Claiming? && s.workers[v].kept == []
    ensures s.shared == At(stale[v]) && s.nextMorsel >= cfg.maxMorsel
  {
    hide Exec, Prune, PruneBy;
    sched, s := ClaimMorsel(cfg, stale, start, was, v);
    sched, s := PruneMorsel(cfg, stale, sched, s, v, 2 * cfg.step);
    sched, s := EndMorsel(cfg, stale, sched, s, v);
    sched, s := PruneRest(cfg, stale, sched, s, v);
  }

  lemma AmbushParts(ps: seq<Probe>, step: nat, d: real, b: real)
    requires Ambush(ps, step, d, b)
    ensures BothPrune(ps, step, d, b) && forall c :: 0 <= c < |ps| && c < step ==> PruneBy(ps[c], At(b))
  {
    hide PruneBy, FlatAt;
  }

  /** The stale bound prunes the first morsel too, when worker 1 goes on. */
  lemma FirstMorselLost(cfg: Config, sizes: seq<nat>, stale: seq<real>, d: real) returns (sched: seq<Move>, s: State)
    requires 0 < cfg.k && 0 < cfg.step && cfg.nWorkers == |stale| >= 3 && !cfg.guarded
    requires cfg.maxMorsel == |cfg.probes| == |sizes| > 2 * cfg.step && HasSizes(cfg.probes, sizes)
    requires Ambush(cfg.probes, cfg.step, d, stale[2]) && forall c :: 0 <= c < |sizes| ==> 0 < sizes[c]
    ensures s == Exec(cfg, stale, sched) && AllFinished(s) && |s.workers| == |stale|
    ensures AllAt(s.workers[0].kept, d) && forall v :: 1 <= v < |stale| ==> s.workers[v].kept == []
  {
    hide Exec, PruneBy, HasSizes, AllAt, Ambush, BothPrune;
    AmbushParts(cfg.probes, cfg.step, d, stale[2]);
    sched, s := SecondMorselFilled(cfg, sizes, stale, d, stale[2]);
    sched, s := StaleBoundPublished(cfg, stale, sched, s, d, 2);
    sched, s := HeldMorselPruned(cfg, stale, sched, s, 1, 0);
    sched, s := ExitAll(cfg, stale, sched, s, |stale|);
  }

  /** A worker held up since it claimed its morsel reads a bound that prunes it. */
  lemma HeldMorselPruned(cfg: Config, stale: seq<real>, sched: seq<Move>, s: State, w: nat, m: nat)
      returns (more: seq<Move>, t: State)
    requires 0 < cfg.k && 0 < cfg.step && |stale| == cfg.nWorkers && Exec(cfg, stale, sched) == s && !cfg.guarded
    requires |s.workers| > w && s.workers[w].pc == Snapshotting(m) && m < cfg.maxMorsel
    requires |s.status| == |cfg.probes| == cfg.maxMorsel
    requires forall c :: m <= c < MorselEnd(cfg, m) ==> PruneBy(cfg.probes[c], s.shared)
    ensures Exec(cfg, stale, more) == t && OnlyMoved(s, t, w) && t.nextMorsel == s.nextMorsel
    ensures t.workers[w].pc.Claiming? && t.workers[w].kept == s.workers[w].kept
  {
    hide Exec, PruneBy;
    more, t := Step(cfg, stale, sched, s, w);
    more, t := PruneMorsel(cfg, stale, more, t, w, m);
    more, t := EndMorsel(cfg, stale, more, t, w);
  }

  /** With a third worker and a third morsel the nearest vectors can be lost, whatever the pages hold and
      whatever earlier searches left in the buffers. */
  lemma ThirdWorkerLoses(sizes: seq<nat>, step: nat, k: nat, stale: seq<real>)
      returns (pages: seq<Page>, sched: seq<Move>)
    requires 0 < step && 0 < k && |stale| >= 3 && 2 * step < |sizes|
    requires forall i :: 0 <= i < |sizes| ==> 0 < sizes[i]
    ensures PagesOk(pages, 1, SumTo(sizes, |sizes|)) && HasSizes(ProbesFor(pages, ORIGIN), sizes)
    ensures var cfg := CallOf(pages, ORIGIN, 0, step, k, |stale|, false);
      AllFinished(Exec(cfg, stale, sched)) && !Exact(cfg, Exec(cfg, stale, sched))
  {
    var d, near;
    pages, d, near := RingIndex(sizes, step, stale[2]);
    hide HasSizes, PagesOk, ProbesFor, Exec, Exact, AllFinished, SumTo, Ambushed;
    sched := AmbushSprung(CallOf(pages, ORIGIN, 0, step, k, |stale|, false), sizes, stale, d, near);
  }

  lemma AmbushSprung(cfg: Config, sizes: seq<nat>, stale: seq<real>, d: real, near: Entry) returns (sched: seq<Move>)
    requires 0 < cfg.k && 0 < cfg.step && cfg.nWorkers == |stale| >= 3 && !cfg.guarded
    requires cfg.maxMorsel == |cfg.probes| == |sizes| > 2 * cfg.step && HasSizes(cfg.probes, sizes)
    requires Ambushed(cfg.probes, cfg.step, d, stale[2], near) && forall c :: 0 <= c < |sizes| ==> 0 < sizes[c]
    ensures AllFinished(Exec(cfg, stale, sched)) && !Exact(cfg, Exec(cfg, stale, sched))
  {
    assert Ambush(cfg.probes, cfg.step, d, stale[2]);
    assert near in AllEntries(cfg.probes[..|cfg.probes|]) && near.dist < d;
    hide *;
    var s;
    sched, s := FirstMorselLost(cfg, sizes, stale, d);
    LostIsInexact(cfg, s, d, near);
  }
}
