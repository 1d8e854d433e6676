/** What every interleaving of the parallel search keeps, and what it returns when all workers are done. */
module ParallelExactness {
  import opened Entries
  import opened SphereBound
  import opened TopK
  import opened Probes
  import opened ParallelSearch

  // ---------- Claims: every page has at most one owner ----------

  /** Pages a worker has claimed and not yet decided. */
  ghost predicate Pending(cfg: Config, pc: Pc, c: int) {
    match pc
    case Snapshotting(morsel) => morsel <= c < MorselEnd(cfg, morsel)
    case Scanning(morsel, current, _) => current <= c < MorselEnd(cfg, morsel)
    case _ => false
  }

  ghost predicate PcOk(cfg: Config, s: State, pc: Pc) {
    match pc
    case Snapshotting(morsel) => morsel < cfg.maxMorsel
    case Scanning(morsel, current, _) => morsel < cfg.maxMorsel && current <= MorselEnd(cfg, morsel)
    case Reporting => s.nextMorsel >= cfg.maxMorsel
    case Finished => s.nextMorsel >= cfg.maxMorsel
    case _ => true
  }

  ghost predicate Shape(cfg: Config, s: State) {
    && |s.workers| == cfg.nWorkers && |s.status| == cfg.maxMorsel
    && forall w :: 0 <= w < cfg.nWorkers ==> PcOk(cfg, s, s.workers[w].pc)
  }

  ghost predicate Frontier(cfg: Config, s: State)
    requires Shape(cfg, s)
  {
    forall c :: 0 <= c < cfg.maxMorsel ==> (s.status[c].Unclaimed? <==> s.nextMorsel <= c)
  }

  ghost predicate Owners(cfg: Config, s: State)
    requires Shape(cfg, s)
  {
    && (forall c :: 0 <= c < cfg.maxMorsel && !s.status[c].Unclaimed? ==> s.status[c].w < cfg.nWorkers)
    && (forall c, w :: 0 <= c < cfg.maxMorsel && 0 <= w < cfg.nWorkers ==>
        (s.status[c] == Claimed(w) <==> Pending(cfg, s.workers[w].pc, c)))
  }

  ghost predicate Claims(cfg: Config, s: State) {
    Shape(cfg, s) && Frontier(cfg, s) && Owners(cfg, s)
  }

  /** Every move but a claim and a page visit leaves the pages alone. */
  ghost predicate Quiet(cfg: Config, s: State, w: nat) {
    && w < |s.workers|
    && !s.workers[w].pc.Claiming?
    && (s.workers[w].pc.Scanning? ==> s.workers[w].pc.current >= MorselEnd(cfg, s.workers[w].pc.morsel))
  }

  lemma QuietKeepsClaims(cfg: Config, s: State, m: Move)
    requires 0 < cfg.k && Claims(cfg, s) && Quiet(cfg, s, m.worker)
    ensures Claims(cfg, Advance(cfg, s, m))
    ensures Advance(cfg, s, m).status == s.status && Advance(cfg, s, m).nextMorsel == s.nextMorsel
    ensures forall w :: 0 <= w < cfg.nWorkers ==> Advance(cfg, s, m).workers[w].kept == s.workers[w].kept
  {
    var s', w := Advance(cfg, s, m), m.worker;
    assert s'.status == s.status && s'.nextMorsel == s.nextMorsel;
    assert forall v :: 0 <= v < cfg.nWorkers && v != w ==> s'.workers[v] == s.workers[v];
    assert forall c :: Pending(cfg, s'.workers[w].pc, c) <==> Pending(cfg, s.workers[w].pc, c);
  }

  /** A morsel is claimed from pages nobody has claimed before. */
  lemma ClaimKeepsClaims(cfg: Config, s: State, w: nat)
    requires Claims(cfg, s) && 0 < cfg.step && w < cfg.nWorkers && s.workers[w].pc.Claiming?
    ensures Claims(cfg, ClaimStep(cfg, s, w))
    ensures forall c :: s.nextMorsel <= c < cfg.maxMorsel ==> s.status[c].Unclaimed?
  {
    var s' := ClaimStep(cfg, s, w);
    assert forall v :: 0 <= v < cfg.nWorkers && v != w ==> s'.workers[v] == s.workers[v];
    forall c, v | 0 <= c < cfg.maxMorsel && 0 <= v < cfg.nWorkers
      ensures s'.status[c] == Claimed(v) <==> Pending(cfg, s'.workers[v].pc, c)
    {
      assert s.status[c] == Claimed(v) <==> Pending(cfg, s.workers[v].pc, c);
      assert s.status[c].Unclaimed? <==> s.nextMorsel <= c;
    }
  }

  lemma PageKeepsClaims(cfg: Config, s: State, w: nat)
    requires 0 < cfg.k && Claims(cfg, s) && cfg.maxMorsel <= |cfg.probes|
    requires w < cfg.nWorkers && s.workers[w].pc.Scanning?
    requires s.workers[w].pc.current < MorselEnd(cfg, s.workers[w].pc.morsel)
    ensures Claims(cfg, PageStep(cfg, s, w))
    ensures s.status[s.workers[w].pc.current] == Claimed(w)
  {
    var s', c := PageStep(cfg, s, w), s.workers[w].pc.current;
    assert Pending(cfg, s.workers[w].pc, c);
    PageDecides(cfg, s, w);
    hide PageStep;
    forall d | 0 <= d < cfg.maxMorsel ensures s'.status[d].Unclaimed? <==> s'.nextMorsel <= d {
      assert s.status[d].Unclaimed? <==> s.nextMorsel <= d;
    }
    forall d, v | 0 <= d < cfg.maxMorsel && 0 <= v < cfg.nWorkers
      ensures s'.status[d] == Claimed(v) <==> Pending(cfg, s'.workers[v].pc, d)
    {
      assert s.status[d] == Claimed(v) <==> Pending(cfg, s.workers[v].pc, d);
    }
  }

  /** Worker w decides its current page and goes on to the next. */
  lemma PageDecides(cfg: Config, s: State, w: nat)
    requires 0 < cfg.k && w < |s.workers| && s.workers[w].pc.Scanning?
    requires s.workers[w].pc.current < |s.status| && s.workers[w].pc.current < |cfg.probes|
    ensures var s', wk, c := PageStep(cfg, s, w), s.workers[w], s.workers[w].pc.current;
      && s'.nextMorsel == s.nextMorsel && |s'.workers| == |s.workers| && |s'.status| == |s.status|
      && (forall v :: 0 <= v < |s.workers| && v != w ==> s'.workers[v] == s.workers[v])
      && s'.workers[w].pc == wk.pc.(current := c + 1)
      && (forall d :: 0 <= d < |s.status| && d != c ==> s'.status[d] == s.status[d])
      && !s'.status[c].Unclaimed? && !s'.status[c].Claimed? && s'.status[c].w == w
  {
    hide Prune, OfferAll;
  }

  // ---------- Contents: buffers, bounds and dropped pages ----------

  ghost function Seen(cfg: Config, s: State): multiset<Entry>
    requires cfg.maxMorsel <= |cfg.probes| && Shape(cfg, s)
  {
    Gather(cfg.probes, s.status, Everyone(cfg.nWorkers), cfg.maxMorsel)
  }

  ghost function SeenBy(cfg: Config, s: State, w: nat): multiset<Entry>
    requires cfg.maxMorsel <= |cfg.probes| && Shape(cfg, s)
  {
    Gather(cfg.probes, s.status, {w}, cfg.maxMorsel)
  }

  /** What the workers have read: the entries of the pages they scanned. */
  ghost function Read(cfg: Config, s: State): multiset<Entry>
    requires cfg.maxMorsel <= |cfg.probes| && Shape(cfg, s)
  {
    Gather(cfg.probes, ScannedOnly(s.status), Everyone(cfg.nWorkers), cfg.maxMorsel)
  }

  ghost function ReadBy(cfg: Config, s: State, w: nat): multiset<Entry>
    requires cfg.maxMorsel <= |cfg.probes| && Shape(cfg, s)
  {
    Gather(cfg.probes, ScannedOnly(s.status), {w}, cfg.maxMorsel)
  }

  lemma ReadIsSeen(cfg: Config, s: State)
    requires cfg.maxMorsel <= |cfg.probes| && Shape(cfg, s)
    ensures Read(cfg, s) <= Seen(cfg, s)
  {
    ScannedAreVisited(cfg.probes, s.status, Everyone(cfg.nWorkers), cfg.maxMorsel);
  }

  predicate Publishing(pc: Pc) {
    pc.Reloading? || pc.Swapping?
  }

  predicate Visited(t: Status) {
    t.Scanned? || t.PrunedLocally?
  }

  predicate Undecided(t: Status) {
    t.Unclaimed? || t.Claimed?
  }

  /** Without the guard: a bound that prunes no page still to be decided. */
  ghost predicate Harmless(cfg: Config, s: State, b: Bound) {
    && !cfg.guarded
    && forall c :: 0 <= c < |s.status| && c < |cfg.probes| && Undecided(s.status[c]) ==> !PruneBy(cfg.probes[c], b)
  }

  /** Each buffer holds the k nearest of the pages its worker visited, all of them read. */
  ghost predicate Kept(cfg: Config, s: State)
    requires cfg.maxMorsel <= |cfg.probes| && Shape(cfg, s)
  {
    forall w :: 0 <= w < cfg.nWorkers ==>
      && Sorted(s.workers[w].kept) && KeepsBest(multiset(s.workers[w].kept), SeenBy(cfg, s, w), cfg.k)
      && multiset(s.workers[w].kept) <= ReadBy(cfg, s, w)
  }

  /** A buffer about to be published is full, or its top is harmless. */
  ghost predicate Buffers(cfg: Config, s: State)
    requires cfg.maxMorsel <= |cfg.probes| && Shape(cfg, s)
  {
    && Kept(cfg, s)
    && forall w :: 0 <= w < cfg.nWorkers ==>
      (Publishing(s.workers[w].pc) ==> |s.workers[w].kept| == cfg.k || Harmless(cfg, s, At(Top(s.workers[w]))))
  }

  ghost predicate BoundOk(cfg: Config, s: State, b: Bound)
    requires cfg.maxMorsel <= |cfg.probes| && Shape(cfg, s)
  {
    b.At? ==> HasK(Read(cfg, s), cfg.k, b.d)
  }

  ghost predicate BoundSafe(cfg: Config, s: State, b: Bound)
    requires cfg.maxMorsel <= |cfg.probes| && Shape(cfg, s)
  {
    BoundOk(cfg, s, b) || Harmless(cfg, s, b)
  }

  /** The shared bound and every snapshot in use are infinite, or reach k entries that were read, or are
      harmless. */
  ghost predicate Bounds(cfg: Config, s: State)
    requires cfg.maxMorsel <= |cfg.probes| && Shape(cfg, s)
  {
    && BoundSafe(cfg, s, s.shared)
    && forall w :: 0 <= w < cfg.nWorkers && s.workers[w].pc.Scanning? ==> BoundSafe(cfg, s, s.workers[w].pc.snapshot)
  }

  /** Everything on a page dropped for the shared bound is outdone by k visited entries. */
  ghost predicate Losses(cfg: Config, s: State)
    requires cfg.maxMorsel <= |cfg.probes| && Shape(cfg, s)
  {
    forall c, x :: 0 <= c < cfg.maxMorsel && s.status[c].PrunedShared? && x in multiset(cfg.probes[c].entries) ==>
      HasK(Seen(cfg, s), cfg.k, x.dist)
  }

  ghost predicate Inv(cfg: Config, s: State) {
    && Claims(cfg, s)
    && cfg.maxMorsel <= |cfg.probes|
    && Buffers(cfg, s) && Bounds(cfg, s) && Losses(cfg, s)
  }

  /** The part of the invariant that needs no premise on what is published. */
  ghost predicate Kernel(cfg: Config, s: State) {
    Claims(cfg, s) && cfg.maxMorsel <= |cfg.probes| && Kept(cfg, s)
  }

  /** The premise the code leaves implicit: a worker that goes on to publish has a full buffer, or at
      least a top that prunes no page still to be decided. */
  ghost predicate PublishesFull(cfg: Config, s: State, m: Move) {
    m.worker < |s.workers| && s.workers[m.worker].pc.Comparing? && Publishes(cfg, s.workers[m.worker]) ==>
      |s.workers[m.worker].kept| == cfg.k || Harmless(cfg, s, At(Top(s.workers[m.worker])))
  }

  lemma HarmlessStays(cfg: Config, s: State, s': State, b: Bound)
    requires Harmless(cfg, s, b) && |s'.status| == |s.status|
    requires forall c :: 0 <= c < |s.status| && Undecided(s'.status[c]) ==> Undecided(s.status[c])
    ensures Harmless(cfg, s', b)
  {
  }

  lemma BoundsGrow(cfg: Config, s: State, s': State, b: Bound)
    requires cfg.maxMorsel <= |cfg.probes| && Shape(cfg, s) && Shape(cfg, s')
    requires Read(cfg, s) <= Read(cfg, s') && BoundOk(cfg, s, b)
    ensures BoundOk(cfg, s', b)
  {
    if b.At? { HasKGrows(Read(cfg, s), Read(cfg, s'), cfg.k, b.d, b.d); }
  }

  /** The top of a full buffer is a bound that k entries reach that were read. */
  lemma FullTopIsBound(cfg: Config, s: State, w: nat)
    requires cfg.maxMorsel <= |cfg.probes| && Shape(cfg, s) && Buffers(cfg, s) && 0 < cfg.k
    requires w < cfg.nWorkers && |s.workers[w].kept| == cfg.k
    ensures BoundOk(cfg, s, At(Top(s.workers[w])))
  {
    var kept := s.workers[w].kept;
    SortedLast(kept);
    GatherPart(cfg.probes, ScannedOnly(s.status), w, cfg.nWorkers, cfg.maxMorsel);
    assert |multiset(kept)| == cfg.k;
    assert IsWitness(multiset(kept), Read(cfg, s), cfg.k, Top(s.workers[w]));
  }

  lemma QuietKeepsBuffers(cfg: Config, s: State, m: Move)
    requires 0 < cfg.k && Inv(cfg, s) && Quiet(cfg, s, m.worker) && PublishesFull(cfg, s, m)
    requires var s' := Advance(cfg, s, m);
      && Shape(cfg, s') && s'.status == s.status
      && forall w :: 0 <= w < cfg.nWorkers ==> s'.workers[w].kept == s.workers[w].kept
    ensures Buffers(cfg, Advance(cfg, s, m))
  {
    hide KeepsBest, Sorted, Gather, PruneBy;
    var s', w := Advance(cfg, s, m), m.worker;
    assert forall v :: 0 <= v < cfg.nWorkers && v != w ==> s'.workers[v] == s.workers[v];
    assert forall v :: 0 <= v < cfg.nWorkers ==> SeenBy(cfg, s', v) == SeenBy(cfg, s, v);
    assert forall v :: 0 <= v < cfg.nWorkers ==> ReadBy(cfg, s', v) == ReadBy(cfg, s, v);
    assert Top(s'.workers[w]) == Top(s.workers[w]);
    assert forall b :: Harmless(cfg, s', b) <==> Harmless(cfg, s, b);
  }

  /** Where the bounds come from after a move that leaves the pages alone. */
  lemma QuietBounds(cfg: Config, s: State, m: Move)
    requires 0 < cfg.k && Shape(cfg, s) && Quiet(cfg, s, m.worker)
    ensures var s', w := Advance(cfg, s, m), m.worker;
      && |s'.workers| == |s.workers|
      && (s'.shared == s.shared || (Publishing(s.workers[w].pc) && s'.shared == At(Top(s.workers[w]))))
      && forall v :: 0 <= v < |s.workers| && s'.workers[v].pc.Scanning? ==>
        || s'.workers[v].pc.snapshot == s.shared
        || (s.workers[v].pc.Scanning? && s'.workers[v].pc.snapshot == s.workers[v].pc.snapshot)
  {
    hide PageStep, PcOk;
  }

  lemma SameSafe(cfg: Config, s: State, s': State)
    requires cfg.maxMorsel <= |cfg.probes| && Shape(cfg, s) && Shape(cfg, s') && s'.status == s.status
    ensures forall b :: BoundSafe(cfg, s', b) <==> BoundSafe(cfg, s, b)
  {
    hide Gather, HasK, PruneBy, PcOk;
    assert Read(cfg, s') == Read(cfg, s);
    assert forall b :: Harmless(cfg, s', b) <==> Harmless(cfg, s, b);
  }

  lemma QuietKeepsBounds(cfg: Config, s: State, m: Move)
    requires 0 < cfg.k && Inv(cfg, s) && Quiet(cfg, s, m.worker)
    requires var s' := Advance(cfg, s, m); Shape(cfg, s') && s'.status == s.status
    ensures Bounds(cfg, Advance(cfg, s, m))
  {
    var s', w := Advance(cfg, s, m), m.worker;
    QuietBounds(cfg, s, m);
    SameSafe(cfg, s, s');
    if |s.workers[w].kept| == cfg.k { FullTopIsBound(cfg, s, w); }
    hide Advance, Quiet, Frontier, Owners, Kept, Losses, Harmless, BoundOk, PcOk;
  }

  lemma QuietKeepsInv(cfg: Config, s: State, m: Move)
    requires 0 < cfg.k && Inv(cfg, s) && Quiet(cfg, s, m.worker) && PublishesFull(cfg, s, m)
    ensures Inv(cfg, Advance(cfg, s, m))
  {
    hide KeepsBest, Sorted, Gather, HasK;
    QuietKeepsClaims(cfg, s, m);
    QuietKeepsBuffers(cfg, s, m);
    QuietKeepsBounds(cfg, s, m);
    assert Seen(cfg, Advance(cfg, s, m)) == Seen(cfg, s);
  }

  /** A step that makes no page visited leaves what was seen and what was read alone. */
  lemma SameVisited(cfg: Config, s: State, s': State)
    requires cfg.maxMorsel <= |cfg.probes| && Shape(cfg, s) && Shape(cfg, s')
    requires forall c :: 0 <= c < cfg.maxMorsel ==>
      s'.status[c] == s.status[c] || !(Visited(s.status[c]) || Visited(s'.status[c]))
    ensures Seen(cfg, s') == Seen(cfg, s) && Read(cfg, s') == Read(cfg, s)
    ensures forall w :: 0 <= w < cfg.nWorkers ==>
      SeenBy(cfg, s', w) == SeenBy(cfg, s, w) && ReadBy(cfg, s', w) == ReadBy(cfg, s, w)
  {
    hide Gather;
    forall who: set<nat>
      ensures Gather(cfg.probes, s'.status, who, cfg.maxMorsel) == Gather(cfg.probes, s.status, who, cfg.maxMorsel)
      ensures Gather(cfg.probes, ScannedOnly(s'.status), who, cfg.maxMorsel)
        == Gather(cfg.probes, ScannedOnly(s.status), who, cfg.maxMorsel)
    {
      GatherSame(cfg.probes, s'.status, s.status, who, cfg.maxMorsel);
      GatherSame(cfg.probes, ScannedOnly(s'.status), ScannedOnly(s.status), who, cfg.maxMorsel);
    }
  }

  /** From s to s' nothing is taken back: no page becomes undecided, nothing read is lost, nothing is published,
      and no snapshot is taken. */
  ghost predicate GoesOn(cfg: Config, s: State, s': State)
    requires cfg.maxMorsel <= |cfg.probes| && Shape(cfg, s) && Shape(cfg, s')
  {
    && s'.shared == s.shared && Read(cfg, s) <= Read(cfg, s') && Seen(cfg, s) <= Seen(cfg, s')
    && (forall c :: 0 <= c < cfg.maxMorsel && Undecided(s'.status[c]) ==> Undecided(s.status[c]))
    && (forall w :: 0 <= w < cfg.nWorkers && s'.workers[w].pc.Scanning? ==>
        s.workers[w].pc.Scanning? && s'.workers[w].pc.snapshot == s.workers[w].pc.snapshot)
    && (forall w :: 0 <= w < cfg.nWorkers && Publishing(s'.workers[w].pc) ==> s'.workers[w] == s.workers[w])
  }

  lemma BoundsStay(cfg: Config, s: State, s': State)
    requires cfg.maxMorsel <= |cfg.probes| && Shape(cfg, s) && Shape(cfg, s') && Bounds(cfg, s) && GoesOn(cfg, s, s')
    ensures Bounds(cfg, s')
  {
    hide Read, Seen, HasK, PruneBy, PcOk;
    forall b | BoundSafe(cfg, s, b) ensures BoundSafe(cfg, s', b) {
      if BoundOk(cfg, s, b) { BoundsGrow(cfg, s, s', b); } else { HarmlessStays(cfg, s, s', b); }
    }
  }

  lemma BuffersStay(cfg: Config, s: State, s': State)
    requires cfg.maxMorsel <= |cfg.probes| && Shape(cfg, s) && Shape(cfg, s') && Buffers(cfg, s) && GoesOn(cfg, s, s')
    requires Kept(cfg, s')
    ensures Buffers(cfg, s')
  {
    hide Kept, Read, Seen, PruneBy, PcOk;
    forall w | 0 <= w < cfg.nWorkers && Publishing(s'.workers[w].pc)
      ensures |s'.workers[w].kept| == cfg.k || Harmless(cfg, s', At(Top(s'.workers[w])))
    {
      if |s.workers[w].kept| != cfg.k { HarmlessStays(cfg, s, s', At(Top(s.workers[w]))); }
    }
  }

  lemma LossesStay(cfg: Config, s: State, s': State)
    requires cfg.maxMorsel <= |cfg.probes| && Shape(cfg, s) && Shape(cfg, s') && Losses(cfg, s)
    requires Seen(cfg, s) <= Seen(cfg, s')
    requires forall c :: 0 <= c < cfg.maxMorsel && s'.status[c].PrunedShared? ==> s.status[c].PrunedShared?
    ensures Losses(cfg, s')
  {
    hide Seen, HasK, PcOk;
    forall d, x | 0 <= d < cfg.maxMorsel && s'.status[d].PrunedShared? && x in multiset(cfg.probes[d].entries)
      ensures HasK(Seen(cfg, s'), cfg.k, x.dist)
    {
      HasKGrows(Seen(cfg, s), Seen(cfg, s'), cfg.k, x.dist, x.dist);
    }
  }

  /** The pages and buffers after a step that visits nothing. */
  ghost predicate NothingVisited(cfg: Config, s: State, s': State)
    requires Shape(cfg, s) && Shape(cfg, s')
  {
    && (forall w :: 0 <= w < cfg.nWorkers ==> s'.workers[w].kept == s.workers[w].kept)
    && forall c :: 0 <= c < cfg.maxMorsel ==>
      s'.status[c] == s.status[c] || !(Visited(s.status[c]) || Visited(s'.status[c]))
  }

  lemma SamePagesKept(cfg: Config, s: State, s': State)
    requires cfg.maxMorsel <= |cfg.probes| && Shape(cfg, s) && Shape(cfg, s') && Kept(cfg, s)
    requires NothingVisited(cfg, s, s')
    ensures Kept(cfg, s')
  {
    hide KeepsBest, Sorted, SeenBy, ReadBy, PcOk;
    SameVisited(cfg, s, s');
  }

  lemma InvParts(cfg: Config, s: State)
    requires Inv(cfg, s)
    ensures Claims(cfg, s) && Shape(cfg, s) && cfg.maxMorsel <= |cfg.probes|
    ensures Kept(cfg, s) && Buffers(cfg, s) && Bounds(cfg, s) && Losses(cfg, s)
  {
    hide Frontier, Owners, PcOk, Kept, Bounds, Losses;
  }

  /** The invariant after a step that takes nothing back. */
  lemma InvGoesOn(cfg: Config, s: State, s': State)
    requires Inv(cfg, s) && Claims(cfg, s') && Shape(cfg, s) && cfg.maxMorsel <= |cfg.probes|
    requires Shape(cfg, s') && GoesOn(cfg, s, s') && Kept(cfg, s') && Losses(cfg, s')
    ensures Inv(cfg, s')
  {
    InvParts(cfg, s);
    hide Claims, Shape, Kept, Buffers, Bounds, Losses, GoesOn;
    BuffersStay(cfg, s, s');
    BoundsStay(cfg, s, s');
  }

  lemma ClaimGoesOn(cfg: Config, s: State, w: nat)
    requires Claims(cfg, s) && cfg.maxMorsel <= |cfg.probes| && 0 < cfg.step
    requires w < cfg.nWorkers && s.workers[w].pc.Claiming?
    ensures var s' := ClaimStep(cfg, s, w);
      && Claims(cfg, s') && Shape(cfg, s') && NothingVisited(cfg, s, s') && GoesOn(cfg, s, s')
      && forall c :: 0 <= c < cfg.maxMorsel && s'.status[c].PrunedShared? ==> s.status[c].PrunedShared?
  {
    var s' := ClaimStep(cfg, s, w);
    ClaimKeepsClaims(cfg, s, w);
    hide Frontier, Owners, Seen, SeenBy, Read, ReadBy, PcOk;
    SameVisited(cfg, s, s');
  }

  lemma ClaimKeepsInv(cfg: Config, s: State, w: nat)
    requires 0 < cfg.k && 0 < cfg.step && Inv(cfg, s) && w < cfg.nWorkers && s.workers[w].pc.Claiming?
    ensures Inv(cfg, ClaimStep(cfg, s, w))
  {
    hide Inv, Claims, Kept, Buffers, Bounds, Losses, Seen, Read, PcOk, ClaimStep;
    InvParts(cfg, s);
    ClaimGoesOn(cfg, s, w);
    var s' := ClaimStep(cfg, s, w);
    SamePagesKept(cfg, s, s');
    LossesStay(cfg, s, s');
    InvGoesOn(cfg, s, s');
  }

  /** Visiting a page keeps the visitor's buffer the k nearest of what it visited, pruned or scanned. */
  lemma VisitKeepsKept(cfg: Config, s: State, w: nat)
    requires 0 < cfg.k && ProbesOk(cfg.probes) && Claims(cfg, s) && cfg.maxMorsel <= |cfg.probes| && Kept(cfg, s)
    requires w < cfg.nWorkers && s.workers[w].pc.Scanning?
    requires s.workers[w].pc.current < MorselEnd(cfg, s.workers[w].pc.morsel)
    requires !PruneBy(cfg.probes[s.workers[w].pc.current], s.workers[w].pc.snapshot)
    ensures Claims(cfg, PageStep(cfg, s, w)) && Kept(cfg, PageStep(cfg, s, w))
  {
    hide KeepsBest, Sorted, Gather, Prune, OfferAll, ProbeOk;
    var s', c := PageStep(cfg, s, w), s.workers[w].pc.current;
    var p := cfg.probes[c];
    PageKeepsClaims(cfg, s, w);
    assert s'.status == s.status[c := s'.status[c]] && VisitedBy(s'.status[c], {w});
    assert s'.workers[w].kept == Visit(s.workers[w].kept, cfg.k, p);
    assert forall v :: 0 <= v < cfg.nWorkers && v != w ==> s'.workers[v] == s.workers[v];
    forall v | 0 <= v < cfg.nWorkers
      ensures SeenBy(cfg, s', v) == (if v == w then SeenBy(cfg, s, v) + multiset(p.entries) else SeenBy(cfg, s, v))
    {
      GatherVisited(cfg.probes, s.status, {v}, cfg.maxMorsel, c, s'.status[c]);
    }
    PageRead(cfg, s, w);
    hide Visit;
    VisitKeepsBest(s.workers[w].kept, SeenBy(cfg, s, w), cfg.k, p);
  }

  /** What a visit brings into the buffer was read, and nothing read is lost. */
  lemma PageRead(cfg: Config, s: State, w: nat)
    requires 0 < cfg.k && Claims(cfg, s) && cfg.maxMorsel <= |cfg.probes|
    requires w < cfg.nWorkers && s.workers[w].pc.Scanning?
    requires s.workers[w].pc.current < MorselEnd(cfg, s.workers[w].pc.morsel)
    requires !PruneBy(cfg.probes[s.workers[w].pc.current], s.workers[w].pc.snapshot)
    ensures var s' := PageStep(cfg, s, w);
      && Shape(cfg, s') && Read(cfg, s) <= Read(cfg, s')
      && forall v :: 0 <= v < cfg.nWorkers && multiset(s.workers[v].kept) <= ReadBy(cfg, s, v) ==>
        multiset(s'.workers[v].kept) <= ReadBy(cfg, s', v)
  {
    var s', c := PageStep(cfg, s, w), s.workers[w].pc.current;
    var p := cfg.probes[c];
    PageKeepsClaims(cfg, s, w);
    OfferAllWithin(s.workers[w].kept, cfg.k, p.entries);
    hide Gather, Prune, OfferAll;
    var was, t := ScannedOnly(s.status), ScannedOnly(s'.status)[c];
    assert ScannedOnly(s'.status) == was[c := t] && !VisitedBy(was[c], {w});
    assert forall v :: 0 <= v < cfg.nWorkers && v != w ==> s'.workers[v] == s.workers[v];
    GatherVisited(cfg.probes, was, Everyone(cfg.nWorkers), cfg.maxMorsel, c, t);
    forall v | 0 <= v < cfg.nWorkers
      ensures ReadBy(cfg, s', v)
        == ReadBy(cfg, s, v) + (if VisitedBy(t, {v}) then multiset(p.entries) else multiset{})
    {
      GatherVisited(cfg.probes, was, {v}, cfg.maxMorsel, c, t);
    }
  }

  /** A page visit changes the visitor's position and buffer and the status of the page. */
  lemma PageMoves(cfg: Config, s: State, w: nat)
    requires 0 < cfg.k && w < |s.workers| && s.workers[w].pc.Scanning?
    requires s.workers[w].pc.current < |s.status| && s.workers[w].pc.current < |cfg.probes|
    ensures var s', wk, c := PageStep(cfg, s, w), s.workers[w], s.workers[w].pc.current;
      && s'.shared == s.shared && |s'.workers| == |s.workers|
      && (forall v :: 0 <= v < |s.workers| && v != w ==> s'.workers[v] == s.workers[v])
      && s'.workers[w].pc == wk.pc.(current := c + 1)
      && s'.status == s.status[c := s'.status[c]] && !Undecided(s'.status[c])
      && (s'.status[c].PrunedShared? <==> PruneBy(cfg.probes[c], wk.pc.snapshot))
  {
    hide Prune, OfferAll;
  }

  /** The bound that drops a page reaches k entries that were read, all nearer than the page. */
  lemma DroppedIsFar(cfg: Config, s: State, w: nat, x: Entry)
    requires ProbesOk(cfg.probes) && cfg.maxMorsel <= |cfg.probes| && Shape(cfg, s) && Bounds(cfg, s)
    requires w < cfg.nWorkers && s.workers[w].pc.Scanning? && s.workers[w].pc.current < cfg.maxMorsel
    requires var p := cfg.probes[s.workers[w].pc.current];
      PruneBy(p, s.workers[w].pc.snapshot) && x in multiset(p.entries)
    requires Undecided(s.status[s.workers[w].pc.current])
    ensures HasK(Seen(cfg, s), cfg.k, x.dist)
  {
    var c, b := s.workers[w].pc.current, s.workers[w].pc.snapshot;
    assert BoundOk(cfg, s, b);
    PrunedIsFar(cfg.probes[c], b.d);
    ReadIsSeen(cfg, s);
    hide HasK, Seen, Read, PcOk;
    HasKGrows(Read(cfg, s), Seen(cfg, s), cfg.k, b.d, x.dist);
  }

  lemma DropGoesOn(cfg: Config, s: State, w: nat)
    requires 0 < cfg.k && Claims(cfg, s) && cfg.maxMorsel <= |cfg.probes|
    requires w < cfg.nWorkers && s.workers[w].pc.Scanning?
    requires s.workers[w].pc.current < MorselEnd(cfg, s.workers[w].pc.morsel)
    requires PruneBy(cfg.probes[s.workers[w].pc.current], s.workers[w].pc.snapshot)
    ensures var s', c := PageStep(cfg, s, w), s.workers[w].pc.current;
      && Claims(cfg, s') && Shape(cfg, s') && NothingVisited(cfg, s, s') && GoesOn(cfg, s, s')
      && c < cfg.maxMorsel && Undecided(s.status[c]) && s'.status == s.status[c := s'.status[c]]
      && Seen(cfg, s') == Seen(cfg, s)
  {
    var s', c := PageStep(cfg, s, w), s.workers[w].pc.current;
    PageKeepsClaims(cfg, s, w);
    PageMoves(cfg, s, w);
    assert s'.workers[w].kept == s.workers[w].kept;
    hide PageStep, Frontier, Owners, Seen, SeenBy, Read, ReadBy, PcOk, PruneBy;
    SameVisited(cfg, s, s');
  }

  lemma PageDropped(cfg: Config, s: State, w: nat)
    requires 0 < cfg.k && ProbesOk(cfg.probes) && Inv(cfg, s)
    requires w < cfg.nWorkers && s.workers[w].pc.Scanning?
    requires s.workers[w].pc.current < MorselEnd(cfg, s.workers[w].pc.morsel)
    requires PruneBy(cfg.probes[s.workers[w].pc.current], s.workers[w].pc.snapshot)
    ensures Inv(cfg, PageStep(cfg, s, w))
  {
    hide Inv, Claims, Kept, Buffers, Bounds, Losses, Seen, PcOk, PageStep, PruneBy, ProbesOk, GoesOn, NothingVisited;
    InvParts(cfg, s);
    DropGoesOn(cfg, s, w);
    var s' := PageStep(cfg, s, w);
    SamePagesKept(cfg, s, s');
    DroppedStaysOutdone(cfg, s, s', w);
    InvGoesOn(cfg, s, s');
  }

  lemma DroppedStaysOutdone(cfg: Config, s: State, s': State, w: nat)
    requires ProbesOk(cfg.probes) && cfg.maxMorsel <= |cfg.probes| && Shape(cfg, s) && Shape(cfg, s')
    requires Bounds(cfg, s) && Losses(cfg, s) && Seen(cfg, s') == Seen(cfg, s)
    requires w < cfg.nWorkers && s.workers[w].pc.Scanning? && s.workers[w].pc.current < cfg.maxMorsel
    requires PruneBy(cfg.probes[s.workers[w].pc.current], s.workers[w].pc.snapshot)
    requires Undecided(s.status[s.workers[w].pc.current])
    requires s'.status == s.status[s.workers[w].pc.current := s'.status[s.workers[w].pc.current]]
    ensures Losses(cfg, s')
  {
    hide Bounds, Seen, HasK, PcOk, ProbesOk, PruneBy;
    forall d, x | 0 <= d < cfg.maxMorsel && s'.status[d].PrunedShared? && x in multiset(cfg.probes[d].entries)
      ensures HasK(Seen(cfg, s'), cfg.k, x.dist)
    {
      if d == s.workers[w].pc.current { DroppedIsFar(cfg, s, w, x); }
    }
  }

  lemma VisitGoesOn(cfg: Config, s: State, w: nat)
    requires 0 < cfg.k && Claims(cfg, s) && cfg.maxMorsel <= |cfg.probes|
    requires w < cfg.nWorkers && s.workers[w].pc.Scanning?
    requires s.workers[w].pc.current < MorselEnd(cfg, s.workers[w].pc.morsel)
    requires !PruneBy(cfg.probes[s.workers[w].pc.current], s.workers[w].pc.snapshot)
    ensures var s' := PageStep(cfg, s, w);
      && Claims(cfg, s') && Shape(cfg, s') && GoesOn(cfg, s, s') && Seen(cfg, s) <= Seen(cfg, s')
      && forall c :: 0 <= c < cfg.maxMorsel && s'.status[c].PrunedShared? ==> s.status[c].PrunedShared?
  {
    var s', c := PageStep(cfg, s, w), s.workers[w].pc.current;
    PageKeepsClaims(cfg, s, w);
    PageMoves(cfg, s, w);
    hide PageStep, Frontier, Owners, Read, ReadBy, PcOk, PruneBy, Gather;
    PageRead(cfg, s, w);
    GatherVisited(cfg.probes, s.status, Everyone(cfg.nWorkers), cfg.maxMorsel, c, s'.status[c]);
    assert Seen(cfg, s) <= Seen(cfg, s');
    hide Seen;
  }

  lemma PageVisited(cfg: Config, s: State, w: nat)
    requires 0 < cfg.k && ProbesOk(cfg.probes) && Inv(cfg, s)
    requires w < cfg.nWorkers && s.workers[w].pc.Scanning?
    requires s.workers[w].pc.current < MorselEnd(cfg, s.workers[w].pc.morsel)
    requires !PruneBy(cfg.probes[s.workers[w].pc.current], s.workers[w].pc.snapshot)
    ensures Inv(cfg, PageStep(cfg, s, w))
  {
    hide Inv, Claims, Kept, Buffers, Bounds, Losses, Seen, PcOk, PageStep, PruneBy, ProbesOk, GoesOn;
    InvParts(cfg, s);
    VisitGoesOn(cfg, s, w);
    VisitKeepsKept(cfg, s, w);
    LossesStay(cfg, s, PageStep(cfg, s, w));
    InvGoesOn(cfg, s, PageStep(cfg, s, w));
  }

  // ---------- Runs ----------

  lemma VisitKeepsKernel(cfg: Config, s: State, w: nat)
    requires 0 < cfg.k && ProbesOk(cfg.probes) && Kernel(cfg, s)
    requires w < cfg.nWorkers && s.workers[w].pc.Scanning?
    requires s.workers[w].pc.current < MorselEnd(cfg, s.workers[w].pc.morsel)
    ensures Kernel(cfg, PageStep(cfg, s, w))
  {
    hide KeepsBest, Sorted, Gather, Prune, OfferAll, ProbeOk;
    var c := s.workers[w].pc.current;
    if PruneBy(cfg.probes[c], s.workers[w].pc.snapshot) {
      PageKeepsClaims(cfg, s, w);
      SamePagesKept(cfg, s, PageStep(cfg, s, w));
    } else {
      VisitKeepsKept(cfg, s, w);
    }
  }

  /** Whatever is published, each buffer holds the k nearest of the pages its worker visited. */
  lemma AdvanceKeepsKernel(cfg: Config, s: State, m: Move)
    requires ConfigOk(cfg) && Kernel(cfg, s)
    ensures Kernel(cfg, Advance(cfg, s, m))
  {
    hide KeepsBest, Sorted, Gather, OfferAll, ProbesOk, Frontier, Owners, Prune;
    var w := m.worker;
    if w < cfg.nWorkers {
      if s.workers[w].pc.Claiming? {
        ClaimKeepsClaims(cfg, s, w);
        SamePagesKept(cfg, s, ClaimStep(cfg, s, w));
      } else if Quiet(cfg, s, w) {
        QuietKeepsClaims(cfg, s, m);
        SamePagesKept(cfg, s, Advance(cfg, s, m));
      } else {
        VisitKeepsKernel(cfg, s, w);
      }
    }
  }

  lemma {:induction false} ExecKernel(cfg: Config, stale: seq<real>, sched: seq<Move>)
    requires ConfigOk(cfg) && |stale| == cfg.nWorkers
    ensures Kernel(cfg, Exec(cfg, stale, sched))
  {
    if sched == [] {
      InitInv(cfg, stale);
    } else {
      var n := |sched| - 1;
      ExecKernel(cfg, stale, sched[..n]);
      hide Kernel, Advance;
      AdvanceKeepsKernel(cfg, Exec(cfg, stale, sched[..n]), sched[n]);
    }
  }

  lemma AdvanceKeepsInv(cfg: Config, s: State, m: Move)
    requires ConfigOk(cfg) && Inv(cfg, s) && PublishesFull(cfg, s, m)
    ensures Inv(cfg, Advance(cfg, s, m))
  {
    hide Buffers, Bounds, Losses, Frontier, Owners, ProbesOk;
    var w := m.worker;
    if w < cfg.nWorkers {
      if s.workers[w].pc.Claiming? {
        ClaimKeepsInv(cfg, s, w);
      } else if Quiet(cfg, s, w) {
        QuietKeepsInv(cfg, s, m);
      } else if PruneBy(cfg.probes[s.workers[w].pc.current], s.workers[w].pc.snapshot) {
        PageDropped(cfg, s, w);
      } else {
        PageVisited(cfg, s, w);
      }
    }
  }

  lemma InitInv(cfg: Config, stale: seq<real>)
    requires ConfigOk(cfg) && |stale| == cfg.nWorkers
    ensures Inv(cfg, Init(cfg, stale))
  {
    var s := Init(cfg, stale);
    forall w | 0 <= w < cfg.nWorkers ensures KeepsBest(multiset(s.workers[w].kept), SeenBy(cfg, s, w), cfg.k) {
      GatherNobody(cfg.probes, s.status, {w}, cfg.maxMorsel);
    }
  }

  /** Every publication of the run comes from a full buffer or is harmless. */
  ghost predicate AlwaysPublishesFull(cfg: Config, stale: seq<real>, sched: seq<Move>)
    requires 0 < cfg.k && |stale| == cfg.nWorkers
  {
    forall i :: 0 <= i < |sched| ==> PublishesFull(cfg, Exec(cfg, stale, sched[..i]), sched[i])
  }

  lemma PublishesFullBefore(cfg: Config, stale: seq<real>, sched: seq<Move>, n: nat)
    requires 0 < cfg.k && |stale| == cfg.nWorkers && n + 1 == |sched| && AlwaysPublishesFull(cfg, stale, sched)
    ensures AlwaysPublishesFull(cfg, stale, sched[..n])
    ensures PublishesFull(cfg, Exec(cfg, stale, sched[..n]), sched[n])
  {
    hide Exec, PublishesFull;
    forall i | 0 <= i < n ensures PublishesFull(cfg, Exec(cfg, stale, sched[..n][..i]), sched[..n][i]) {
      assert sched[..n][..i] == sched[..i];
    }
  }

  lemma {:induction false} ExecInv(cfg: Config, stale: seq<real>, sched: seq<Move>)
    requires ConfigOk(cfg) && |stale| == cfg.nWorkers && AlwaysPublishesFull(cfg, stale, sched)
    ensures Inv(cfg, Exec(cfg, stale, sched))
  {
    if sched == [] {
      InitInv(cfg, stale);
    } else {
      var n := |sched| - 1;
      hide Inv, Advance, PublishesFull;
      PublishesFullBefore(cfg, stale, sched, n);
      ExecInv(cfg, stale, sched[..n]);
      AdvanceKeepsInv(cfg, Exec(cfg, stale, sched[..n]), sched[n]);
    }
  }

  // ---------- The result ----------

  lemma CollectedMore(workers: seq<Worker>, n: nat)
    requires n < |workers|
    ensures multiset(Collected(workers[..n + 1])) == multiset(Collected(workers[..n])) + multiset(workers[n].kept)
  {
    assert workers[..n + 1][..n] == workers[..n];
  }

  lemma GatherMore(cfg: Config, s: State, w: nat)
    requires cfg.maxMorsel <= |cfg.probes| && Shape(cfg, s)
    ensures Gather(cfg.probes, s.status, Everyone(w + 1), cfg.maxMorsel)
      == Gather(cfg.probes, s.status, Everyone(w), cfg.maxMorsel) + SeenBy(cfg, s, w)
  {
    GatherUnion(cfg.probes, s.status, Everyone(w), {w}, cfg.maxMorsel);
  }

  lemma NothingCollected(cfg: Config, s: State)
    requires cfg.maxMorsel <= |cfg.probes| && Shape(cfg, s)
    ensures Covers(multiset(Collected(s.workers[..0])), Gather(cfg.probes, s.status, Everyone(0), cfg.maxMorsel), cfg.k)
  {
    GatherNobody(cfg.probes, s.status, {}, cfg.maxMorsel);
  }

  lemma {:induction false} CollectedCovers(cfg: Config, s: State, n: nat)
    requires Kernel(cfg, s) && n <= cfg.nWorkers
    ensures Covers(multiset(Collected(s.workers[..n])), Gather(cfg.probes, s.status, Everyone(n), cfg.maxMorsel), cfg.k)
  {
    assert Shape(cfg, s) && |s.workers| == cfg.nWorkers && |s.status| == cfg.maxMorsel <= |cfg.probes|;
    hide *;
    if n == 0 {
      NothingCollected(cfg, s);
    } else {
      CollectedCovers(cfg, s, n - 1);
      KeptCovers(cfg, s, n - 1);
      CoversUnion(multiset(Collected(s.workers[..n - 1])), Gather(cfg.probes, s.status, Everyone(n - 1), cfg.maxMorsel),
                  multiset(s.workers[n - 1].kept), SeenBy(cfg, s, n - 1), cfg.k);
      CollectedMore(s.workers, n - 1);
      GatherMore(cfg, s, n - 1);
    }
  }

  lemma KeptCovers(cfg: Config, s: State, w: nat)
    requires Kernel(cfg, s) && w < cfg.nWorkers
    ensures Covers(multiset(s.workers[w].kept), SeenBy(cfg, s, w), cfg.k)
  {
    KeepsBestCovers(multiset(s.workers[w].kept), SeenBy(cfg, s, w), cfg.k);
  }

  lemma AllEntriesMore(ps: seq<Probe>, n: nat)
    requires n < |ps|
    ensures AllEntries(ps[..n + 1]) == AllEntries(ps[..n]) + multiset(ps[n].entries)
  {
    assert ps[..n + 1][..n] == ps[..n];
  }

  lemma NothingProbed(ps: seq<Probe>)
    ensures AllEntries(ps[..0]) == multiset{}
  {
  }

  /** Page n adds its entries to one of the two bags. */
  lemma VisitedOrDroppedMore(cfg: Config, s: State, n: nat)
    requires n < |cfg.probes| && n < |s.status|
    requires VisitedBy(s.status[n], Everyone(cfg.nWorkers)) <==> !s.status[n].PrunedShared?
    ensures var ps, st, who := cfg.probes, s.status, Everyone(cfg.nWorkers);
      Gather(ps, st, who, n + 1) + Dropped(ps, st, n + 1)
        == (Gather(ps, st, who, n) + Dropped(ps, st, n)) + multiset(ps[n].entries)
  {
    var ps, st, who := cfg.probes, s.status, Everyone(cfg.nWorkers);
    var g, d, e := Gather(ps, st, who, n), Dropped(ps, st, n), multiset(ps[n].entries);
    assert Gather(ps, st, who, n + 1) == g + (if VisitedBy(st[n], who) then e else multiset{});
    assert Dropped(ps, st, n + 1) == d + (if st[n].PrunedShared? then e else multiset{});
    hide Gather, Dropped, VisitedBy;
  }

  lemma {:induction false} VisitedOrDropped(cfg: Config, s: State, n: nat)
    requires n <= cfg.maxMorsel <= |cfg.probes| && |s.status| == cfg.maxMorsel
    requires forall c :: 0 <= c < n ==> (VisitedBy(s.status[c], Everyone(cfg.nWorkers)) <==> !s.status[c].PrunedShared?)
    ensures AllEntries(cfg.probes[..n])
      == Gather(cfg.probes, s.status, Everyone(cfg.nWorkers), n) + Dropped(cfg.probes, s.status, n)
  {
    if n == 0 {
      NothingProbed(cfg.probes);
    } else {
      hide *;
      VisitedOrDropped(cfg, s, n - 1);
      AllEntriesMore(cfg.probes, n - 1);
      VisitedOrDroppedMore(cfg, s, n - 1);
    }
  }

  lemma {:induction false} DroppedIsOutdone(cfg: Config, s: State, n: nat)
    requires Kernel(cfg, s) && Losses(cfg, s) && n <= cfg.maxMorsel
    ensures forall x :: x in Dropped(cfg.probes, s.status, n) ==> HasK(Seen(cfg, s), cfg.k, x.dist)
  {
    hide Frontier, Owners, Kept, Seen, HasK;
    if n > 0 { DroppedIsOutdone(cfg, s, n - 1); }
  }

  lemma FinishedDecidesAll(cfg: Config, s: State)
    requires Claims(cfg, s) && AllFinished(s) && 0 < cfg.nWorkers
    ensures forall c :: 0 <= c < cfg.maxMorsel ==>
      (VisitedBy(s.status[c], Everyone(cfg.nWorkers)) <==> !s.status[c].PrunedShared?)
  {
    assert s.workers[0].pc.Finished?;
    forall c | 0 <= c < cfg.maxMorsel ensures !s.status[c].Unclaimed? && !s.status[c].Claimed? {
      assert forall w :: 0 <= w < cfg.nWorkers ==> s.workers[w].pc.Finished? && !Pending(cfg, s.workers[w].pc, c);
    }
  }

  /** What the caller is promised: k entries, the nearest of all the probed pages. */
  ghost predicate Exact(cfg: Config, s: State)
    requires cfg.maxMorsel <= |cfg.probes|
  {
    && |Merged(s)| >= cfg.k
    && KeepsBest(multiset(Merged(s)[..cfg.k]), AllEntries(cfg.probes[..cfg.maxMorsel]), cfg.k)
  }

  lemma FinishedCovers(cfg: Config, s: State)
    requires ConfigOk(cfg) && Kernel(cfg, s) && Losses(cfg, s) && AllFinished(s) && 0 < cfg.nWorkers
    ensures Covers(multiset(Collected(s.workers)), AllEntries(cfg.probes[..cfg.maxMorsel]), cfg.k)
  {
    FinishedDecidesAll(cfg, s);
    VisitedOrDropped(cfg, s, cfg.maxMorsel);
    DroppedIsOutdone(cfg, s, cfg.maxMorsel);
    CollectedCovers(cfg, s, cfg.nWorkers);
    assert s.workers[..cfg.nWorkers] == s.workers;
    hide Kept, Losses, Frontier, Owners, AllFinished, AllEntries, Gather, Dropped, Covers, Collected;
    CoversDropped(multiset(Collected(s.workers)), Seen(cfg, s), Dropped(cfg.probes, s.status, cfg.maxMorsel), cfg.k);
  }

  lemma FinishedIsExact(cfg: Config, s: State)
    requires ConfigOk(cfg) && Kernel(cfg, s) && Losses(cfg, s) && AllFinished(s) && 0 < cfg.nWorkers
    requires |AllEntries(cfg.probes[..cfg.maxMorsel])| >= cfg.k
    ensures Exact(cfg, s)
  {
    hide Kernel, Losses, AllFinished, AllEntries, Covers, KeepsBest, Collected, Sorted;
    FinishedCovers(cfg, s);
    SortedPrefixKeepsBest(Merged(s), AllEntries(cfg.probes[..cfg.maxMorsel]), cfg.k);
  }

  /** Every run of the code as it stands, with any number of workers and any interleaving, returns the
      k nearest of the probed pages, provided every bound it publishes comes from a full buffer or is harmless. */
  lemma ParallelSearchExact(cfg: Config, stale: seq<real>, sched: seq<Move>)
    requires ConfigOk(cfg) && |stale| == cfg.nWorkers && 0 < cfg.nWorkers
    requires |AllEntries(cfg.probes[..cfg.maxMorsel])| >= cfg.k
    requires AlwaysPublishesFull(cfg, stale, sched)
    requires AllFinished(Exec(cfg, stale, sched))
    ensures Exact(cfg, Exec(cfg, stale, sched))
  {
    ExecInv(cfg, stale, sched);
    FinishedIsExact(cfg, Exec(cfg, stale, sched));
  }

  /** With the guard on publication the premise holds of every run, so every interleaving is exact. */
  lemma GuardedSearchExact(cfg: Config, stale: seq<real>, sched: seq<Move>)
    requires ConfigOk(cfg) && |stale| == cfg.nWorkers && 0 < cfg.nWorkers
    requires |AllEntries(cfg.probes[..cfg.maxMorsel])| >= cfg.k
    requires cfg.guarded && AllFinished(Exec(cfg, stale, sched))
    ensures Exact(cfg, Exec(cfg, stale, sched))
  {
    ParallelSearchExact(cfg, stale, sched);
  }

  /** With the guard the shared bound is infinite or at least the largest of k distances that were read, in
      every reachable state, and so is every snapshot in use. */
  lemma GuardedBoundsReachK(cfg: Config, stale: seq<real>, sched: seq<Move>)
    requires ConfigOk(cfg) && |stale| == cfg.nWorkers && cfg.guarded
    ensures var s := Exec(cfg, stale, sched);
      && Shape(cfg, s) && BoundOk(cfg, s, s.shared)
      && forall w :: 0 <= w < cfg.nWorkers && s.workers[w].pc.Scanning? ==> BoundOk(cfg, s, s.workers[w].pc.snapshot)
  {
    ExecInv(cfg, stale, sched);
  }
}
