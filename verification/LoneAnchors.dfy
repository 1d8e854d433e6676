/** Two workers over an index whose pages beyond the first morsel hold nothing but their anchors: the bounds
    that are published too early can only drop anchors that the first morsel outdoes anyway. */
module LoneAnchors {
  import opened Entries
  import opened SphereBound
  import opened TopK
  import opened Probes
  import opened ParallelSearch
  import opened ParallelExactness
  import opened Schedules

  ghost predicate Ascending(ps: seq<Probe>) {
    forall c, e :: 0 <= c < e < |ps| ==> ps[c].anchorDist <= ps[e].anchorDist
  }

  /** Pages in anchor order, k of them in the first morsel, lone anchors after it. */
  ghost predicate LoneSearch(cfg: Config) {
    && ConfigOk(cfg) && cfg.maxMorsel == |cfg.probes| && Ascending(cfg.probes) && cfg.nWorkers == 2
    && cfg.k <= cfg.step < cfg.maxMorsel
    && forall c :: cfg.step <= c < |cfg.probes| ==> |cfg.probes[c].entries| == 1
  }

  // ---------- The first morsel is never pruned by a shared bound ----------

  /** No anchor of the first morsel lies beyond d. */
  ghost predicate Far(cfg: Config, d: real) {
    forall c :: 0 <= c < cfg.step && c < |cfg.probes| ==> cfg.probes[c].anchorDist <= d
  }

  ghost predicate FarBound(cfg: Config, b: Bound) {
    b.At? ==> Far(cfg, b.d)
  }

  ghost predicate AllFar(cfg: Config, kept: seq<Entry>) {
    forall i :: 0 <= i < |kept| ==> Far(cfg, kept[i].dist)
  }

  predicate OnFirst(pc: Pc) {
    (pc.Snapshotting? && pc.morsel == 0) || (pc.Scanning? && pc.morsel == 0)
  }

  /** A worker that has visited nothing will find the shared bound infinite. */
  ghost predicate Fresh(cfg: Config, s: State, wk: Worker) {
    && wk.kept == [] && s.shared == Infinity
    && match wk.pc
       case Claiming => s.nextMorsel == cfg.step
       case Snapshotting(m) => m >= cfg.step
       case Scanning(m, c, snapshot) => c == m >= cfg.step && snapshot == Infinity
       case _ => false
  }

  /** A worker that has visited only pages beyond the first morsel. */
  ghost predicate Behind(cfg: Config, wk: Worker) {
    wk.kept != [] && AllFar(cfg, wk.kept) && !OnFirst(wk.pc)
  }

  /** While w holds the first morsel, all that the other worker can publish lies beyond its anchors. */
  ghost predicate FirstHeld(cfg: Config, s: State, w: nat)
    requires |s.workers| == 2 && w < 2
  {
    OnFirst(s.workers[w].pc) ==>
      && FarBound(cfg, s.shared) && s.nextMorsel >= cfg.step
      && (s.workers[w].pc.Scanning? ==> FarBound(cfg, s.workers[w].pc.snapshot))
      && (Fresh(cfg, s, s.workers[1 - w]) || Behind(cfg, s.workers[1 - w]))
  }

  ghost predicate MorselOk(cfg: Config, pc: Pc) {
    match pc
    case Snapshotting(m) => m == 0 || m >= cfg.step
    case Scanning(m, c, _) => (m == 0 || m >= cfg.step) && m <= c
    case _ => true
  }

  ghost predicate NothingYet(s: State) {
    s.shared == Infinity && forall w :: 0 <= w < |s.workers| ==> s.workers[w].pc == Claiming && s.workers[w].kept == []
  }

  ghost predicate FirstKept(cfg: Config, s: State) {
    forall c :: 0 <= c < cfg.step && c < |s.status| ==> !s.status[c].PrunedShared?
  }

  ghost predicate LoneInv(cfg: Config, s: State) {
    && |s.workers| == 2
    && (s.nextMorsel == 0 || s.nextMorsel >= cfg.step)
    && (s.nextMorsel == 0 ==> NothingYet(s))
    && MorselOk(cfg, s.workers[0].pc) && MorselOk(cfg, s.workers[1].pc)
    && FirstHeld(cfg, s, 0) && FirstHeld(cfg, s, 1)
    && FirstKept(cfg, s)
  }

  lemma PageIsFar(cfg: Config, c: nat)
    requires LoneSearch(cfg) && cfg.step <= c < |cfg.probes|
    ensures AllFar(cfg, cfg.probes[c].entries)
  {
    assert ProbeOk(cfg.probes[c]);
  }

  /** A far bound prunes no page of the first morsel, for it does not lie before the page's own anchor. */
  lemma FarPrunesNothing(cfg: Config, b: Bound, c: nat)
    requires LoneSearch(cfg) && FarBound(cfg, b) && c < cfg.step
    ensures !PruneBy(cfg.probes[c], b)
  {
    assert ProbeOk(cfg.probes[c]);
    hide Prune;
  }

  lemma OneFar(cfg: Config, kept: seq<Entry>, e: Entry)
    requires 0 < cfg.k && AllFar(cfg, kept) && Far(cfg, e.dist)
    ensures AllFar(cfg, Offer(kept, cfg.k, e))
  {
    var r := Offer(kept, cfg.k, e);
    hide Far;
    forall i | 0 <= i < |r| ensures Far(cfg, r[i].dist) {
      assert r[i] in multiset(kept) + multiset{e};
    }
  }

  lemma {:induction false} OfferFar(cfg: Config, kept: seq<Entry>, es: seq<Entry>)
    requires 0 < cfg.k && AllFar(cfg, kept) && AllFar(cfg, es)
    ensures AllFar(cfg, OfferAll(kept, cfg.k, es))
  {
    hide Far, Offer;
    if es != [] {
      var n := |es| - 1;
      OfferFar(cfg, kept, es[..n]);
      OneFar(cfg, OfferAll(kept, cfg.k, es[..n]), es[n]);
    }
  }

  lemma RivalIsBeyond(cfg: Config, s: State, v: nat)
    requires LoneInv(cfg, s) && 0 < cfg.step && v < 2 && OnFirst(s.workers[1 - v].pc) && s.workers[v].pc.Scanning?
    ensures var wk := s.workers[v];
      && cfg.step <= wk.pc.morsel <= wk.pc.current
      && AllFar(cfg, wk.kept) && (wk.kept == [] ==> wk.pc.snapshot == Infinity)
  {
    assert FirstHeld(cfg, s, 1 - v);
  }

  lemma KeptFits(cfg: Config, s: State, w: nat)
    requires Kernel(cfg, s) && w < cfg.nWorkers
    ensures |s.workers[w].kept| <= cfg.k
  {
    assert |multiset(s.workers[w].kept)| == |s.workers[w].kept|;
  }

  lemma PageLeaves(cfg: Config, s: State, v: nat)
    requires 0 < cfg.k && v < |s.workers| && s.workers[v].pc.Scanning?
    requires s.workers[v].pc.current < |s.status| && s.workers[v].pc.current < |cfg.probes|
    ensures var wk, t := s.workers[v], PageStep(cfg, s, v).workers[v];
      && t.pc == wk.pc.(current := wk.pc.current + 1)
      && (|| t.kept == OfferAll(wk.kept, cfg.k, cfg.probes[wk.pc.current].entries)
          || (t.kept == wk.kept && (wk.pc.snapshot.At? || |wk.kept| == cfg.k)))
  {
    hide Prune, OfferAll;
  }

  lemma FarPageKept(cfg: Config, kept: seq<Entry>, es: seq<Entry>)
    requires 0 < cfg.k && |kept| <= cfg.k && es != [] && AllFar(cfg, kept) && AllFar(cfg, es)
    ensures OfferAll(kept, cfg.k, es) != [] && AllFar(cfg, OfferAll(kept, cfg.k, es))
  {
    OfferFar(cfg, kept, es);
    OfferAllLength(kept, cfg.k, es);
  }

  /** The other worker visits a page while w holds the first morsel. */
  lemma RivalVisits(cfg: Config, s: State, v: nat)
    requires LoneSearch(cfg) && Kernel(cfg, s) && LoneInv(cfg, s) && v < 2 && OnFirst(s.workers[1 - v].pc)
    requires s.workers[v].pc.Scanning? && s.workers[v].pc.current < MorselEnd(cfg, s.workers[v].pc.morsel)
    ensures Behind(cfg, PageStep(cfg, s, v).workers[v])
  {
    var wk := s.workers[v];
    var c := wk.pc.current;
    LoneBasics(cfg, c);
    ScanningFits(cfg, s, v);
    hide AllFar, LoneInv, Kernel, LoneSearch, PageStep, OfferAll;
    RivalIsBeyond(cfg, s, v);
    KeptFits(cfg, s, v);
    PageIsFar(cfg, c);
    PageLeaves(cfg, s, v);
    FarPageKept(cfg, wk.kept, cfg.probes[c].entries);
  }

  lemma LoneBasics(cfg: Config, c: nat)
    requires LoneSearch(cfg)
    ensures cfg.nWorkers == 2 && 0 < cfg.k && 0 < cfg.step && cfg.maxMorsel == |cfg.probes|
    ensures c < |cfg.probes| ==> cfg.probes[c].entries != []
  {
    assert c < |cfg.probes| ==> ProbeOk(cfg.probes[c]);
  }

  /** The holder of the first morsel moves. */
  lemma HolderMoves(cfg: Config, s: State, m: Move)
    requires 0 < cfg.k && 0 < cfg.step && LoneInv(cfg, s) && m.worker < 2
    ensures var s' := Advance(cfg, s, m); |s'.workers| == 2 && FirstHeld(cfg, s', m.worker)
  {
    hide Prune, PruneBy, OfferAll, Far, AllFar, FirstKept;
    if s.workers[m.worker].pc.Scanning? {
      HolderScans(cfg, s, m);
    } else {
      hide PageStep;
      assert FirstHeld(cfg, s, m.worker);
    }
  }

  lemma HolderScans(cfg: Config, s: State, m: Move)
    requires 0 < cfg.k && LoneInv(cfg, s) && m.worker < 2 && s.workers[m.worker].pc.Scanning?
    ensures var s' := Advance(cfg, s, m); |s'.workers| == 2 && FirstHeld(cfg, s', m.worker)
  {
    assert FirstHeld(cfg, s, m.worker);
    hide Prune, PruneBy, OfferAll, FarBound, Behind, FirstKept, NothingYet;
  }

  /** The other worker moves without scanning. */
  lemma RivalGoesOn(cfg: Config, s: State, m: Move)
    requires 0 < cfg.k && 0 < cfg.step < cfg.maxMorsel && LoneInv(cfg, s) && m.worker < 2
    requires OnFirst(s.workers[1 - m.worker].pc) && !s.workers[m.worker].pc.Scanning?
    ensures var s' := Advance(cfg, s, m); |s'.workers| == 2 && FirstHeld(cfg, s', 1 - m.worker)
  {
    hide Prune, PruneBy, OfferAll, Far, PageStep, FirstKept, NothingYet;
    assert FirstHeld(cfg, s, 1 - m.worker);
  }

  /** The other worker ends a morsel. */
  lemma RivalEnds(cfg: Config, s: State, v: nat)
    requires LoneInv(cfg, s) && v < 2 && OnFirst(s.workers[1 - v].pc) && s.workers[v].pc.Scanning?
    requires s.workers[v].pc.morsel < cfg.maxMorsel && 0 < cfg.step
    requires s.workers[v].pc.current >= MorselEnd(cfg, s.workers[v].pc.morsel)
    ensures Behind(cfg, s.workers[v].(pc := Comparing(s.workers[v].pc.snapshot)))
  {
    assert FirstHeld(cfg, s, 1 - v);
  }

  /** What scanning does to the rest of the state. */
  lemma ScanLeaves(cfg: Config, s: State, m: Move)
    requires 0 < cfg.k && m.worker < |s.workers| && s.workers[m.worker].pc.Scanning?
    ensures var s' := Advance(cfg, s, m);
      && s'.shared == s.shared && s'.nextMorsel == s.nextMorsel && OnlyMoved(s, s', m.worker)
      && (var pc := s.workers[m.worker].pc;
          if pc.current < MorselEnd(cfg, pc.morsel) && pc.current < |s.status| && pc.current < |cfg.probes|
          then s' == PageStep(cfg, s, m.worker)
          else s'.workers[m.worker] == s.workers[m.worker].(pc := Comparing(pc.snapshot)))
  {
    hide Prune, PruneBy, OfferAll;
  }

  lemma HeldByOther(cfg: Config, s: State, s': State, v: nat)
    requires v < 2 == |s.workers| && OnlyMoved(s, s', v) && FirstHeld(cfg, s, 1 - v)
    requires s'.shared == s.shared && s'.nextMorsel == s.nextMorsel && Behind(cfg, s'.workers[v])
    ensures FirstHeld(cfg, s', 1 - v)
  {
    hide Behind, Fresh, FarBound;
  }

  lemma ScanningFits(cfg: Config, s: State, w: nat)
    requires Kernel(cfg, s) && w < cfg.nWorkers && s.workers[w].pc.Scanning?
    ensures s.workers[w].pc.morsel < cfg.maxMorsel <= |cfg.probes| && |s.status| == cfg.maxMorsel
  {
    assert PcOk(cfg, s, s.workers[w].pc);
  }

  lemma HeldFacts(cfg: Config, s: State)
    requires LoneInv(cfg, s)
    ensures |s.workers| == 2 && FirstHeld(cfg, s, 0) && FirstHeld(cfg, s, 1)
  {
    hide FirstHeld;
  }

  /** The other worker scans while w holds the first morsel. */
  lemma RivalScans(cfg: Config, s: State, m: Move)
    requires LoneSearch(cfg) && Kernel(cfg, s) && LoneInv(cfg, s) && m.worker < 2
    requires OnFirst(s.workers[1 - m.worker].pc) && s.workers[m.worker].pc.Scanning?
    ensures var s' := Advance(cfg, s, m); |s'.workers| == 2 && FirstHeld(cfg, s', 1 - m.worker)
  {
    var v := m.worker;
    hide Advance, PageStep, Behind, LoneInv, FirstHeld, Kernel, LoneSearch;
    LoneBasics(cfg, 0);
    HeldFacts(cfg, s);
    ScanLeaves(cfg, s, m);
    ScanningFits(cfg, s, v);
    if s.workers[v].pc.current < MorselEnd(cfg, s.workers[v].pc.morsel) {
      RivalVisits(cfg, s, v);
    } else {
      RivalEnds(cfg, s, v);
    }
    HeldByOther(cfg, s, Advance(cfg, s, m), v);
  }

  /** The other worker moves. */
  lemma RivalMoves(cfg: Config, s: State, m: Move)
    requires LoneSearch(cfg) && Kernel(cfg, s) && LoneInv(cfg, s) && m.worker < 2
    ensures var s' := Advance(cfg, s, m); |s'.workers| == 2 && FirstHeld(cfg, s', 1 - m.worker)
  {
    OneMoves(cfg, s, m);
    hide Advance, Kernel;
    if OnFirst(s.workers[1 - m.worker].pc) {
      if s.workers[m.worker].pc.Scanning? { RivalScans(cfg, s, m); } else { RivalGoesOn(cfg, s, m); }
    }
  }

  lemma FirstStaysKept(cfg: Config, s: State, m: Move)
    requires LoneSearch(cfg) && Kernel(cfg, s) && LoneInv(cfg, s)
    ensures FirstKept(cfg, Advance(cfg, s, m))
  {
    hide Prune, OfferAll, Far, ProbesOk, Ascending, Frontier, Owners, Kept;
    var w := m.worker;
    if w < 2 && s.workers[w].pc.Scanning? && s.workers[w].pc.current < cfg.step {
      assert FirstHeld(cfg, s, w);
      FarPrunesNothing(cfg, s.workers[w].pc.snapshot, s.workers[w].pc.current);
    }
  }

  /** The other worker stays where it is, and the first morsel is claimed. */
  ghost predicate MovedOn(cfg: Config, s: State, s': State, w: nat) {
    && w < |s.workers| == |s'.workers| && (forall v :: 0 <= v < |s.workers| && v != w ==> s'.workers[v] == s.workers[v])
    && MorselOk(cfg, s'.workers[w].pc) && s'.nextMorsel >= cfg.step
  }

  lemma WorkerMovesOn(cfg: Config, s: State, m: Move)
    requires 0 < cfg.k && 0 < cfg.step && LoneInv(cfg, s) && m.worker < 2
    ensures MovedOn(cfg, s, Advance(cfg, s, m), m.worker)
  {
    assert MorselOk(cfg, s.workers[m.worker].pc);
    OneMoves(cfg, s, m);
    if s.workers[m.worker].pc.Scanning? {
      ScanLeaves(cfg, s, m);
      hide Prune, PruneBy, OfferAll, FirstHeld, FirstKept, Advance;
    } else {
      hide PageStep, FirstHeld, FirstKept;
    }
  }

  lemma LoneAgain(cfg: Config, s: State, s': State, w: nat)
    requires LoneInv(cfg, s) && 0 < cfg.step && w < 2 && MovedOn(cfg, s, s', w)
    requires FirstHeld(cfg, s', 0) && FirstHeld(cfg, s', 1) && FirstKept(cfg, s')
    ensures LoneInv(cfg, s')
  {
    hide FirstHeld, FirstKept, MorselOk;
  }

  lemma LoneFacts(cfg: Config, s: State, m: Move)
    requires LoneSearch(cfg) && LoneInv(cfg, s)
    ensures |s.workers| == 2 && 0 < cfg.k && 0 < cfg.step && (m.worker >= 2 ==> Advance(cfg, s, m) == s)
  {
    hide PageStep, Ascending, ProbesOk, FirstHeld, FirstKept;
  }

  lemma LoneStep(cfg: Config, s: State, m: Move)
    requires LoneSearch(cfg) && Kernel(cfg, s) && LoneInv(cfg, s)
    ensures LoneInv(cfg, Advance(cfg, s, m))
  {
    hide *;
    LoneFacts(cfg, s, m);
    if m.worker < 2 {
      FirstStaysKept(cfg, s, m);
      HolderMoves(cfg, s, m);
      RivalMoves(cfg, s, m);
      WorkerMovesOn(cfg, s, m);
      LoneAgain(cfg, s, Advance(cfg, s, m), m.worker);
    }
  }

  lemma {:induction false} ExecLone(cfg: Config, stale: seq<real>, sched: seq<Move>)
    requires LoneSearch(cfg) && |stale| == 2
    ensures LoneInv(cfg, Exec(cfg, stale, sched))
  {
    if sched != [] {
      var n := |sched| - 1;
      ExecLone(cfg, stale, sched[..n]);
      ExecKernel(cfg, stale, sched[..n]);
      hide LoneInv, Kernel, Advance;
      LoneStep(cfg, Exec(cfg, stale, sched[..n]), sched[n]);
    }
  }

  // ---------- What is dropped is outdone ----------

  /** The anchors of the first n pages. */
  ghost function FirstAnchors(ps: seq<Probe>, n: nat): multiset<Entry>
    requires n <= |ps| && forall c :: 0 <= c < n ==> ps[c].entries != []
  {
    if n == 0 then multiset{} else FirstAnchors(ps, n - 1) + multiset{ps[n - 1].entries[0]}
  }

  lemma OneOfPage(a: multiset<Entry>, b: multiset<Entry>, es: seq<Entry>)
    requires a <= b && es != []
    ensures a + multiset{es[0]} <= b + multiset(es) && |a + multiset{es[0]}| == |a| + 1
  {
    assert multiset{es[0]} <= multiset(es);
  }

  lemma {:induction false} AnchorsGathered(ps: seq<Probe>, status: seq<Status>, who: set<nat>, n: nat)
    requires n <= |ps| && n <= |status|
    requires forall c :: 0 <= c < n ==> ps[c].entries != [] && VisitedBy(status[c], who)
    ensures |FirstAnchors(ps, n)| == n && FirstAnchors(ps, n) <= Gather(ps, status, who, n)
  {
    if n > 0 {
      AnchorsGathered(ps, status, who, n - 1);
      OneOfPage(FirstAnchors(ps, n - 1), Gather(ps, status, who, n - 1), ps[n - 1].entries);
    }
  }

  lemma {:induction false} GatherGrows(ps: seq<Probe>, status: seq<Status>, who: set<nat>, n: nat, m: nat)
    requires m <= n <= |ps| && n <= |status|
    ensures Gather(ps, status, who, m) <= Gather(ps, status, who, n)
  {
    if m < n { GatherGrows(ps, status, who, n - 1, m); }
  }

  lemma {:induction false} AnchorsNear(ps: seq<Probe>, n: nat, d: real)
    requires n <= |ps| && forall c :: 0 <= c < n ==> ProbeOk(ps[c]) && ps[c].anchorDist <= d
    requires forall c :: 0 <= c < n ==> ps[c].entries != []
    ensures forall x :: x in FirstAnchors(ps, n) ==> x.dist <= d
  {
    if n > 0 { AnchorsNear(ps, n - 1, d); }
  }

  lemma FirstVisited(cfg: Config, s: State)
    requires LoneSearch(cfg) && Kernel(cfg, s) && LoneInv(cfg, s) && AllFinished(s)
    ensures cfg.k <= cfg.maxMorsel == |cfg.probes| == |s.status|
    ensures forall c :: 0 <= c < cfg.k ==> ProbeOk(cfg.probes[c]) && VisitedBy(s.status[c], Everyone(2))
  {
    FinishedDecidesAll(cfg, s);
    hide Kept, Frontier, Owners, PcOk, Prune, Ascending, AllFinished, FirstHeld;
  }

  /** The first k anchors, once visited, are k visited entries up to any distance beyond the first morsel. */
  lemma AnchorsReach(cfg: Config, s: State, d: real)
    requires cfg.maxMorsel <= |cfg.probes| && Shape(cfg, s) && cfg.nWorkers == 2 && cfg.k <= cfg.step
    requires cfg.k <= cfg.maxMorsel == |s.status| && Far(cfg, d)
    requires forall c :: 0 <= c < cfg.k ==> ProbeOk(cfg.probes[c]) && VisitedBy(s.status[c], Everyone(2))
    ensures HasK(Seen(cfg, s), cfg.k, d)
  {
    hide Prune, Everyone, VisitedBy, PcOk;
    AnchorsGathered(cfg.probes, s.status, Everyone(2), cfg.k);
    GatherGrows(cfg.probes, s.status, Everyone(2), cfg.maxMorsel, cfg.k);
    AnchorsNear(cfg.probes, cfg.k, d);
    hide Gather, FirstAnchors;
    assert IsWitness(FirstAnchors(cfg.probes, cfg.k), Seen(cfg, s), cfg.k, d);
  }

  lemma EntryIsFar(cfg: Config, c: nat, x: Entry)
    requires LoneSearch(cfg) && cfg.step <= c < cfg.maxMorsel && x in multiset(cfg.probes[c].entries)
    ensures Far(cfg, x.dist) && cfg.k <= cfg.step && cfg.nWorkers == 2
  {
    PageIsFar(cfg, c);
    assert x in cfg.probes[c].entries;
    hide Far;
  }

  /** Once the workers are done the first k anchors have been visited, and they outdo every page beyond the
      first morsel. */
  lemma BeyondIsOutdone(cfg: Config, s: State, c: nat, x: Entry)
    requires LoneSearch(cfg) && Kernel(cfg, s) && LoneInv(cfg, s) && AllFinished(s)
    requires cfg.step <= c < cfg.maxMorsel && x in multiset(cfg.probes[c].entries)
    ensures HasK(Seen(cfg, s), cfg.k, x.dist)
  {
    assert Shape(cfg, s);
    hide *;
    EntryIsFar(cfg, c, x);
    FirstVisited(cfg, s);
    AnchorsReach(cfg, s, x.dist);
  }

  lemma LoneLosses(cfg: Config, s: State)
    requires LoneSearch(cfg) && Kernel(cfg, s) && LoneInv(cfg, s) && AllFinished(s)
    ensures Losses(cfg, s)
  {
    hide Kept, Frontier, Owners, PcOk, ProbesOk, Ascending, HasK, Seen, FirstHeld, AllFinished;
    forall c, x | 0 <= c < cfg.maxMorsel && s.status[c].PrunedShared? && x in multiset(cfg.probes[c].entries)
      ensures HasK(Seen(cfg, s), cfg.k, x.dist)
    {
      BeyondIsOutdone(cfg, s, c, x);
    }
  }

  lemma {:induction false} NoPageEmpty(ps: seq<Probe>)
    requires ProbesOk(ps)
    ensures |AllEntries(ps)| >= |ps|
  {
    if ps != [] { NoPageEmpty(ps[..|ps| - 1]); }
  }

  /** Two workers and lone anchors: every interleaving of the code as it stands is exact. */
  lemma LoneSearchExact(cfg: Config, stale: seq<real>, sched: seq<Move>)
    requires LoneSearch(cfg) && |stale| == 2 && AllFinished(Exec(cfg, stale, sched))
    ensures Exact(cfg, Exec(cfg, stale, sched))
  {
    var s := Exec(cfg, stale, sched);
    ExecLone(cfg, stale, sched);
    ExecKernel(cfg, stale, sched);
    NoPageEmpty(cfg.probes);
    assert cfg.probes[..cfg.maxMorsel] == cfg.probes;
    hide LoneInv, Kernel, Exec, Losses, Exact, AllEntries, AllFinished;
    LoneLosses(cfg, s);
    FinishedIsExact(cfg, s);
  }
}
