/** Facts about every run of the parallel search, guarded or not: morsels never overlap and leave no
    page out, the pruning counter adds up, and the shared bound only falls. */
module MorselAccounting {
  import opened Entries
  import opened TopK
  import opened Probes
  import opened ParallelSearch
  import opened ParallelExactness

  function CountPruned(status: seq<Status>, n: nat): nat
    requires n <= |status|
  {
    if n == 0 then 0
    else CountPruned(status, n - 1) + (if status[n - 1].PrunedLocally? || status[n - 1].PrunedShared? then 1 else 0)
  }

  function CountScanned(status: seq<Status>, n: nat): nat
    requires n <= |status|
  {
    if n == 0 then 0 else CountScanned(status, n - 1) + (if status[n - 1].Scanned? then 1 else 0)
  }

  /** Local counts not yet added to the shared counter. */
  function Owed(wk: Worker): nat {
    if wk.pc.Finished? then 0 else wk.nPruned
  }

  function Unreported(workers: seq<Worker>): nat {
    if workers == [] then 0 else Unreported(workers[..|workers| - 1]) + Owed(workers[|workers| - 1])
  }

  lemma {:induction false} UnreportedUpdate(workers: seq<Worker>, w: nat, wk: Worker)
    requires w < |workers|
    ensures Unreported(workers[w := wk]) + Owed(workers[w]) == Unreported(workers) + Owed(wk)
  {
    var n := |workers| - 1;
    if w < n {
      assert workers[w := wk][..n] == workers[..n][w := wk];
      UnreportedUpdate(workers[..n], w, wk);
    } else {
      assert workers[w := wk][..n] == workers[..n];
    }
  }

  lemma {:induction false} CountSame(a: seq<Status>, b: seq<Status>, n: nat)
    requires n <= |a| == |b|
    requires forall c :: 0 <= c < n ==>
      ((a[c].PrunedLocally? || a[c].PrunedShared?) <==> (b[c].PrunedLocally? || b[c].PrunedShared?))
    ensures CountPruned(a, n) == CountPruned(b, n)
  {
    if n > 0 { CountSame(a, b, n - 1); }
  }

  lemma {:induction false} CountUpdate(status: seq<Status>, n: nat, c: nat, t: Status)
    requires c < n <= |status| && status[c].Claimed?
    ensures CountPruned(status[c := t], n)
      == CountPruned(status, n) + (if t.PrunedLocally? || t.PrunedShared? then 1 else 0)
  {
    if c < n - 1 {
      CountUpdate(status, n - 1, c, t);
    } else {
      CountSame(status, status[c := t], n - 1);
    }
  }

  ghost predicate Balanced(cfg: Config, s: State) {
    |s.status| == cfg.maxMorsel && s.nPruned + Unreported(s.workers) == CountPruned(s.status, cfg.maxMorsel)
  }

  lemma PageKeepsBalance(cfg: Config, s: State, w: nat)
    requires 0 < cfg.k && Claims(cfg, s) && Balanced(cfg, s) && cfg.maxMorsel <= |cfg.probes|
    requires w < cfg.nWorkers && s.workers[w].pc.Scanning?
    requires s.workers[w].pc.current < MorselEnd(cfg, s.workers[w].pc.morsel)
    ensures Balanced(cfg, PageStep(cfg, s, w))
  {
    hide OfferAll, Unreported, CountPruned;
    var s', c := PageStep(cfg, s, w), s.workers[w].pc.current;
    PageKeepsClaims(cfg, s, w);
    UnreportedUpdate(s.workers, w, s'.workers[w]);
    CountUpdate(s.status, cfg.maxMorsel, c, s'.status[c]);
  }

  lemma OtherKeepsBalance(cfg: Config, s: State, m: Move)
    requires 0 < cfg.k && Claims(cfg, s) && Balanced(cfg, s) && m.worker < cfg.nWorkers
    requires s.workers[m.worker].pc.Claiming? || Quiet(cfg, s, m.worker)
    ensures Balanced(cfg, Advance(cfg, s, m))
  {
    hide Unreported, CountPruned;
    var s', w := Advance(cfg, s, m), m.worker;
    if !s.workers[w].pc.Finished? { UnreportedUpdate(s.workers, w, s'.workers[w]); }
    CountSame(s'.status, s.status, cfg.maxMorsel);
  }

  lemma {:induction false} RunsStayBalanced(cfg: Config, stale: seq<real>, sched: seq<Move>)
    requires ConfigOk(cfg) && |stale| == cfg.nWorkers
    ensures Claims(cfg, Exec(cfg, stale, sched)) && Balanced(cfg, Exec(cfg, stale, sched))
  {
    if sched == [] {
      var s := Init(cfg, stale);
      NothingOwed(s.workers);
      NothingPruned(s.status, cfg.maxMorsel);
    } else {
      var n := |sched| - 1;
      RunsStayBalanced(cfg, stale, sched[..n]);
      MoveKeepsBalance(cfg, Exec(cfg, stale, sched[..n]), sched[n]);
    }
  }

  lemma MoveKeepsBalance(cfg: Config, s: State, m: Move)
    requires ConfigOk(cfg) && Claims(cfg, s) && Balanced(cfg, s)
    ensures Claims(cfg, Advance(cfg, s, m)) && Balanced(cfg, Advance(cfg, s, m))
  {
    hide Owners, Frontier, Balanced, ProbesOk;
    var w := m.worker;
    if w < cfg.nWorkers {
      if s.workers[w].pc.Claiming? {
        ClaimKeepsClaims(cfg, s, w);
        OtherKeepsBalance(cfg, s, m);
      } else if Quiet(cfg, s, w) {
        QuietKeepsClaims(cfg, s, m);
        OtherKeepsBalance(cfg, s, m);
      } else {
        PageKeepsClaims(cfg, s, w);
        PageKeepsBalance(cfg, s, w);
      }
    }
  }

  lemma {:induction false} NothingOwed(workers: seq<Worker>)
    requires forall w :: 0 <= w < |workers| ==> workers[w].nPruned == 0
    ensures Unreported(workers) == 0
  {
    if workers != [] { NothingOwed(workers[..|workers| - 1]); }
  }

  lemma {:induction false} NothingOwedAtEnd(workers: seq<Worker>)
    requires forall w :: 0 <= w < |workers| ==> workers[w].pc.Finished?
    ensures Unreported(workers) == 0
  {
    if workers != [] { NothingOwedAtEnd(workers[..|workers| - 1]); }
  }

  lemma {:induction false} NothingPruned(status: seq<Status>, n: nat)
    requires n <= |status| && forall c :: 0 <= c < n ==> status[c].Unclaimed?
    ensures CountPruned(status, n) == 0
  {
    if n > 0 { NothingPruned(status, n - 1); }
  }

  lemma {:induction false} ScannedOrPruned(status: seq<Status>, n: nat)
    requires n <= |status|
    requires forall c :: 0 <= c < n ==> !status[c].Unclaimed? && !status[c].Claimed?
    ensures CountScanned(status, n) + CountPruned(status, n) == n
  {
    if n > 0 { ScannedOrPruned(status, n - 1); }
  }

  /** In every run, a worker about to claim finds the pages of its morsel unclaimed: no page belongs to
      two morsels. */
  lemma MorselsAreDisjoint(cfg: Config, stale: seq<real>, sched: seq<Move>, w: nat, c: nat)
    requires ConfigOk(cfg) && |stale| == cfg.nWorkers && w < cfg.nWorkers
    requires var s := Exec(cfg, stale, sched);
      w < |s.workers| && s.workers[w].pc.Claiming? && s.nextMorsel <= c < cfg.maxMorsel
    ensures c < |Exec(cfg, stale, sched).status| && Exec(cfg, stale, sched).status[c].Unclaimed?
  {
    RunsStayBalanced(cfg, stale, sched);
  }

  /** When all workers are done every page has been scanned or pruned, and the counter says how many. */
  lemma EveryPageIsCounted(cfg: Config, stale: seq<real>, sched: seq<Move>)
    requires ConfigOk(cfg) && |stale| == cfg.nWorkers && 0 < cfg.nWorkers
    requires AllFinished(Exec(cfg, stale, sched))
    ensures var s := Exec(cfg, stale, sched);
      && |s.status| == cfg.maxMorsel
      && (forall c :: 0 <= c < cfg.maxMorsel ==> !s.status[c].Unclaimed? && !s.status[c].Claimed?)
      && s.nPruned == CountPruned(s.status, cfg.maxMorsel)
      && CountScanned(s.status, cfg.maxMorsel) + s.nPruned == cfg.maxMorsel
  {
    var s := Exec(cfg, stale, sched);
    RunsStayBalanced(cfg, stale, sched);
    FinishedDecidesAll(cfg, s);
    NothingOwedAtEnd(s.workers);
    ScannedOrPruned(s.status, cfg.maxMorsel);
  }

  predicate AtMost(a: Bound, b: Bound) {
    b.Infinity? || (a.At? && a.d <= b.d)
  }

  /** The compare-and-swap loop never raises the shared bound, whatever the workers do. */
  lemma {:induction false} SharedBoundOnlyFalls(cfg: Config, stale: seq<real>, sched: seq<Move>, n: nat)
    requires 0 < cfg.k && |stale| == cfg.nWorkers && n <= |sched|
    ensures AtMost(Exec(cfg, stale, sched).shared, Exec(cfg, stale, sched[..n]).shared)
  {
    if n == |sched| {
      assert sched[..n] == sched;
    } else {
      var m := |sched| - 1;
      SharedBoundOnlyFalls(cfg, stale, sched[..m], n);
      assert sched[..m][..n] == sched[..n];
      var s := Exec(cfg, stale, sched[..m]);
      assert AtMost(Advance(cfg, s, sched[m]).shared, s.shared);
    }
  }

  // ---------- What a morsel leaves of the bound ----------

  /** Bounds that workers have read and still use are not below the shared one. */
  ghost predicate ReadBefore(s: State) {
    forall w :: 0 <= w < |s.workers| ==>
      match s.workers[w].pc
      case Scanning(_, _, snapshot) => AtMost(s.shared, snapshot)
      case Comparing(snapshot) => AtMost(s.shared, snapshot)
      case Swapping(seen) => AtMost(s.shared, seen)
      case _ => true
  }

  lemma ReadBeforeKept(cfg: Config, s: State, m: Move)
    requires 0 < cfg.k && ReadBefore(s)
    ensures ReadBefore(Advance(cfg, s, m))
  {
    hide OfferAll, PruneBy;
    var s', v := Advance(cfg, s, m), m.worker;
    assert AtMost(s'.shared, s.shared);
    forall w | 0 <= w < |s'.workers| && w != v ensures s'.workers[w] == s.workers[w] {}
  }

  lemma {:induction false} ExecReadBefore(cfg: Config, stale: seq<real>, sched: seq<Move>)
    requires 0 < cfg.k && |stale| == cfg.nWorkers
    ensures ReadBefore(Exec(cfg, stale, sched))
  {
    if sched != [] {
      var n := |sched| - 1;
      ExecReadBefore(cfg, stale, sched[..n]);
      hide ReadBefore, Advance;
      ReadBeforeKept(cfg, Exec(cfg, stale, sched[..n]), sched[n]);
    }
  }

  lemma ReturnsPublished(cfg: Config, s: State, m: Move)
    requires 0 < cfg.k && ReadBefore(s) && m.worker < |s.workers|
    requires s.workers[m.worker].pc.Comparing? || s.workers[m.worker].pc.Swapping?
    requires Advance(cfg, s, m).workers[m.worker].pc.Claiming?
    requires s.workers[m.worker].pc.Comparing? && cfg.guarded ==> |s.workers[m.worker].kept| == cfg.k
    ensures AtMost(Advance(cfg, s, m).shared, At(Top(s.workers[m.worker])))
  {
    hide PageStep;
  }

  /** A morsel is not over before the shared bound is down to the worst entry of its worker: whatever
      compare-and-swaps fail on the way, once the worker goes back to claiming the bound is no greater, and it
      stays so. With the check on publication this takes a full buffer. */
  lemma MorselLowersBound(cfg: Config, stale: seq<real>, sched: seq<Move>, i: nat, n: nat)
    requires 0 < cfg.k && |stale| == cfg.nWorkers && i < n <= |sched|
    requires var s, w := Exec(cfg, stale, sched[..i]), sched[i].worker;
      && w < |s.workers| && (s.workers[w].pc.Comparing? || s.workers[w].pc.Swapping?)
      && (s.workers[w].pc.Comparing? && cfg.guarded ==> |s.workers[w].kept| == cfg.k)
      && w < |Exec(cfg, stale, sched[..i + 1]).workers|
      && Exec(cfg, stale, sched[..i + 1]).workers[w].pc.Claiming?
    ensures AtMost(Exec(cfg, stale, sched[..n]).shared, At(Top(Exec(cfg, stale, sched[..i]).workers[sched[i].worker])))
  {
    assert sched[..i + 1][..i] == sched[..i] && sched[..n][..i + 1] == sched[..i + 1];
    ExecReadBefore(cfg, stale, sched[..i]);
    SharedBoundOnlyFalls(cfg, stale, sched[..n], i + 1);
    hide Advance, ReadBefore;
    ReturnsPublished(cfg, Exec(cfg, stale, sched[..i]), sched[i]);
  }
}
