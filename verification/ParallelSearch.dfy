/** The parallel search as a state machine: any number of workers claim morsels of pages with a
    fetch-and-add, prune against a snapshot of a shared bound and against their own buffer, and lower
    the shared bound with a compare-and-swap loop. A schedule lists which worker moves next, so a
    statement about all schedules is a statement about all interleavings. */
module ParallelSearch {
  import opened Vectors
  import opened Entries
  import opened Pages
  import opened SphereBound
  import opened TopK
  import opened Probes

  datatype Bound = Infinity | At(d: real)

  predicate PruneBy(p: Probe, b: Bound) {
    b.At? && Prune(p.anchorDist, p.maxDist, b.d)
  }

  predicate IsBelow(d: real, b: Bound) {
    b.Infinity? || d < b.d
  }

  /** One search: the pages in visiting order, how many of them to probe, the morsel step, k and the
      number of workers. The source publishes a bound whenever the top of the buffer is below the
      snapshot; with guarded set it does so only from a buffer that holds k entries. */
  datatype Config = Config(probes: seq<Probe>, maxMorsel: nat, step: nat, k: nat, nWorkers: nat, guarded: bool)

  /** The search of a call over an index: a budget of 0 means every cached page. */
  function CallOf(pages: seq<Page>, q: Vec, nPagesToProbe: nat, step: nat, k: nat, nWorkers: nat, guarded: bool)
      : Config
  {
    var ps := ProbesFor(pages, q);
    Config(ps, if nPagesToProbe == 0 then |ps| else nPagesToProbe, step, k, nWorkers, guarded)
  }

  datatype Pc =
    | Claiming
    | Snapshotting(morsel: nat)
    | Scanning(morsel: nat, current: nat, snapshot: Bound)
    | Comparing(snapshot: Bound)
    | Reloading
    | Swapping(seen: Bound)
    | Reporting
    | Finished

  /** kept is the used part of the local buffer in sorted order; stale is what its first cell holds
      before anything is pushed, for the buffer is not cleared between searches. */
  datatype Worker = Worker(pc: Pc, kept: seq<Entry>, nPruned: nat, stale: real)

  /** What became of a page: a history the code does not keep. */
  datatype Status =
    | Unclaimed
    | Claimed(w: nat)
    | Scanned(w: nat)
    | PrunedLocally(w: nat)
    | PrunedShared(w: nat)

  datatype State = State(nextMorsel: nat, shared: Bound, nPruned: nat, workers: seq<Worker>, status: seq<Status>)

  /** A move: which worker, and whether its compare-and-swap, should it come to one, fails spuriously. */
  datatype Move = Move(worker: nat, spurious: bool)

  ghost predicate ConfigOk(cfg: Config) {
    && cfg.maxMorsel <= |cfg.probes| && ProbesOk(cfg.probes)
    && 0 < cfg.step && 0 < cfg.k
  }

  function MorselEnd(cfg: Config, morsel: nat): nat {
    if morsel + cfg.step < cfg.maxMorsel then morsel + cfg.step else cfg.maxMorsel
  }

  /** heap[0].first */
  function Top(wk: Worker): real {
    if wk.kept == [] then wk.stale else wk.kept[|wk.kept| - 1].dist
  }

  function Init(cfg: Config, stale: seq<real>): (s: State)
    requires |stale| == cfg.nWorkers
  {
    State(0, Infinity, 0,
          seq(cfg.nWorkers, i requires 0 <= i < cfg.nWorkers => Worker(Claiming, [], 0, stale[i])),
          seq(cfg.maxMorsel, _ => Unclaimed))
  }

  // ---------- Steps of worker w ----------

  function SetWorker(s: State, w: nat, wk: Worker): State
    requires w < |s.workers|
  {
    s.(workers := s.workers[w := wk])
  }

  function Goto(s: State, w: nat, pc: Pc): State
    requires w < |s.workers|
  {
    SetWorker(s, w, s.workers[w].(pc := pc))
  }

  function MarkClaimed(status: seq<Status>, w: nat, from: nat, to: nat): (r: seq<Status>)
    ensures |r| == |status|
    ensures forall c :: 0 <= c < |r| ==> r[c] == (if from <= c < to then Claimed(w) else status[c])
  {
    seq(|status|, c requires 0 <= c < |status| => if from <= c < to then Claimed(w) else status[c])
  }

  /** next_morsel.fetch_add(step) */
  function ClaimStep(cfg: Config, s: State, w: nat): State
    requires w < |s.workers|
  {
    var morsel := s.nextMorsel;
    var s' := s.(nextMorsel := morsel + cfg.step);
    if morsel >= cfg.maxMorsel then Goto(s', w, Reporting)
    else Goto(s'.(status := MarkClaimed(s.status, w, morsel, MorselEnd(cfg, morsel))), w, Snapshotting(morsel))
  }

  /** One page of the morsel. */
  function PageStep(cfg: Config, s: State, w: nat): State
    requires w < |s.workers| && s.workers[w].pc.Scanning? && 0 < cfg.k
    requires s.workers[w].pc.current < |s.status| && s.workers[w].pc.current < |cfg.probes|
  {
    var wk := s.workers[w];
    var c, p := wk.pc.current, cfg.probes[wk.pc.current];
    var pc := wk.pc.(current := c + 1);
    if PruneBy(p, wk.pc.snapshot) then
      SetWorker(s, w, wk.(pc := pc, nPruned := wk.nPruned + 1)).(status := s.status[c := PrunedShared(w)])
    else if |wk.kept| == cfg.k && Prune(p.anchorDist, p.maxDist, wk.kept[cfg.k - 1].dist) then
      SetWorker(s, w, wk.(pc := pc, nPruned := wk.nPruned + 1)).(status := s.status[c := PrunedLocally(w)])
    else
      SetWorker(s, w, wk.(pc := pc, kept := OfferAll(wk.kept, cfg.k, p.entries))).(status := s.status[c := Scanned(w)])
  }

  /** Whether the worker goes on to publish the top of its buffer. */
  predicate Publishes(cfg: Config, wk: Worker)
    requires wk.pc.Comparing?
  {
    IsBelow(Top(wk), wk.pc.snapshot) && (cfg.guarded ==> |wk.kept| == cfg.k)
  }

  /** One round of the compare-and-swap loop. */
  function SwapStep(s: State, w: nat, spurious: bool): State
    requires w < |s.workers| && s.workers[w].pc.Swapping?
  {
    var wk := s.workers[w];
    if !IsBelow(Top(wk), wk.pc.seen) then Goto(s, w, Claiming)
    else if !spurious && s.shared == wk.pc.seen then Goto(s.(shared := At(Top(wk))), w, Claiming)
    else Goto(s, w, Swapping(s.shared))
  }

  function ReportStep(s: State, w: nat): State
    requires w < |s.workers|
  {
    Goto(s.(nPruned := s.nPruned + s.workers[w].nPruned), w, Finished)
  }

  /** The state after one move; a move of a finished or unknown worker changes nothing. */
  function Advance(cfg: Config, s: State, m: Move): State
    requires 0 < cfg.k
  {
    var w := m.worker;
    if w >= |s.workers| then s
    else
      var wk := s.workers[w];
      match wk.pc
      case Claiming => ClaimStep(cfg, s, w)
      case Snapshotting(morsel) => Goto(s, w, Scanning(morsel, morsel, s.shared))
      case Scanning(morsel, c, snapshot) =>
        if c < MorselEnd(cfg, morsel) && c < |s.status| && c < |cfg.probes| then PageStep(cfg, s, w)
        else Goto(s, w, Comparing(snapshot))
      case Comparing(_) => Goto(s, w, if Publishes(cfg, wk) then Reloading else Claiming)
      case Reloading => Goto(s, w, Swapping(s.shared))
      case Swapping(_) => SwapStep(s, w, m.spurious)
      case Reporting => ReportStep(s, w)
      case Finished => s
  }

  function Exec(cfg: Config, stale: seq<real>, sched: seq<Move>): State
    requires 0 < cfg.k && |stale| == cfg.nWorkers
  {
    if sched == [] then Init(cfg, stale)
    else Advance(cfg, Exec(cfg, stale, sched[..|sched| - 1]), sched[|sched| - 1])
  }

  predicate AllFinished(s: State) {
    forall w :: 0 <= w < |s.workers| ==> s.workers[w].pc.Finished?
  }

  /** The local buffers one after another, as the caller copies them. */
  function Collected(workers: seq<Worker>): seq<Entry> {
    if workers == [] then [] else Collected(workers[..|workers| - 1]) + workers[|workers| - 1].kept
  }

  /** What the caller sorts and cuts after k. */
  function Merged(s: State): seq<Entry> {
    Sort(Collected(s.workers))
  }

  // ---------- The entries of visited pages ----------

  predicate VisitedBy(t: Status, who: set<nat>) {
    (t.Scanned? || t.PrunedLocally?) && t.w in who
  }

  ghost function Gather(ps: seq<Probe>, status: seq<Status>, who: set<nat>, n: nat): multiset<Entry>
    requires n <= |ps| && n <= |status|
  {
    if n == 0 then multiset{}
    else
      Gather(ps, status, who, n - 1)
      + (if VisitedBy(status[n - 1], who) then multiset(ps[n - 1].entries) else multiset{})
  }

  /** Entries of the pages dropped because of a shared bound. */
  ghost function Dropped(ps: seq<Probe>, status: seq<Status>, n: nat): multiset<Entry>
    requires n <= |ps| && n <= |status|
  {
    if n == 0 then multiset{}
    else Dropped(ps, status, n - 1) + (if status[n - 1].PrunedShared? then multiset(ps[n - 1].entries) else multiset{})
  }

  ghost function Everyone(n: nat): (r: set<nat>)
    ensures forall i: nat :: i in r <==> i < n
  {
    if n == 0 then {} else Everyone(n - 1) + {n - 1}
  }

  lemma {:induction false} GatherVisited(ps: seq<Probe>, status: seq<Status>, who: set<nat>, n: nat, c: nat, t: Status)
    requires c < n <= |ps| && n <= |status| && !VisitedBy(status[c], who)
    ensures Gather(ps, status[c := t], who, n)
      == Gather(ps, status, who, n) + (if VisitedBy(t, who) then multiset(ps[c].entries) else multiset{})
  {
    if c < n - 1 {
      GatherVisited(ps, status, who, n - 1, c, t);
    } else {
      GatherSame(ps, status, status[c := t], who, n - 1);
    }
  }

  lemma {:induction false} GatherSame(ps: seq<Probe>, a: seq<Status>, b: seq<Status>, who: set<nat>, n: nat)
    requires n <= |ps| && n <= |a| == |b|
    requires forall c :: 0 <= c < n ==> (VisitedBy(a[c], who) <==> VisitedBy(b[c], who))
    ensures Gather(ps, a, who, n) == Gather(ps, b, who, n)
  {
    if n > 0 { GatherSame(ps, a, b, who, n - 1); }
  }

  lemma {:induction false} GatherNobody(ps: seq<Probe>, status: seq<Status>, who: set<nat>, n: nat)
    requires n <= |ps| && n <= |status|
    requires forall c :: 0 <= c < n ==> !VisitedBy(status[c], who)
    ensures Gather(ps, status, who, n) == multiset{}
  {
    if n > 0 { GatherNobody(ps, status, who, n - 1); }
  }

  lemma {:induction false} GatherUnion(ps: seq<Probe>, status: seq<Status>, a: set<nat>, b: set<nat>, n: nat)
    requires n <= |ps| && n <= |status| && a !! b
    ensures Gather(ps, status, a + b, n) == Gather(ps, status, a, n) + Gather(ps, status, b, n)
  {
    if n > 0 { GatherUnion(ps, status, a, b, n - 1); }
  }

  lemma GatherPart(ps: seq<Probe>, status: seq<Status>, w: nat, nWorkers: nat, n: nat)
    requires n <= |ps| && n <= |status| && w < nWorkers
    ensures Gather(ps, status, {w}, n) <= Gather(ps, status, Everyone(nWorkers), n)
  {
    GatherUnion(ps, status, {w}, Everyone(nWorkers) - {w}, n);
    assert {w} + (Everyone(nWorkers) - {w}) == Everyone(nWorkers);
  }

  /** A page pruned locally counts as visited, but nobody read its entries. With those pages left out, the
      visited pages are the scanned ones. */
  function ScannedOnly(status: seq<Status>): (r: seq<Status>)
    ensures |r| == |status|
    ensures forall c :: 0 <= c < |r| ==> r[c] == if status[c].PrunedLocally? then Unclaimed else status[c]
  {
    seq(|status|, c requires 0 <= c < |status| => if status[c].PrunedLocally? then Unclaimed else status[c])
  }

  lemma {:induction false} ScannedAreVisited(ps: seq<Probe>, status: seq<Status>, who: set<nat>, n: nat)
    requires n <= |ps| && n <= |status|
    ensures Gather(ps, ScannedOnly(status), who, n) <= Gather(ps, status, who, n)
  {
    if n > 0 { ScannedAreVisited(ps, status, who, n - 1); }
  }
}
