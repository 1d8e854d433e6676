/** Pieces of runs of the parallel search: a worker claims a morsel, prunes or fills from its pages, and
    ends it; every run can be continued until all workers are done. */
module Schedules {
  import opened Arithmetic
  import opened Entries
  import opened SphereBound
  import opened TopK
  import opened Probes
  import opened ParallelSearch
  import opened ParallelExactness
  import opened MorselAccounting

  lemma ExecOneMore(cfg: Config, stale: seq<real>, sched: seq<Move>, m: Move)
    requires 0 < cfg.k && |stale| == cfg.nWorkers
    ensures Exec(cfg, stale, sched + [m]) == Advance(cfg, Exec(cfg, stale, sched), m)
  {
    assert (sched + [m])[..|sched|] == sched;
  }

  lemma NoMoves(cfg: Config, stale: seq<real>)
    requires 0 < cfg.k && |stale| == cfg.nWorkers
    ensures Exec(cfg, stale, []) == Init(cfg, stale)
  {
  }

  lemma ShapeOfRun(cfg: Config, stale: seq<real>, sched: seq<Move>)
    requires ConfigOk(cfg) && |stale| == cfg.nWorkers
    ensures Shape(cfg, Exec(cfg, stale, sched))
  {
    RunsStayBalanced(cfg, stale, sched);
  }

  /** Worker w moved, nobody else. */
  predicate OnlyMoved(s: State, t: State, w: nat) {
    && |t.workers| == |s.workers| && |t.status| == |s.status|
    && forall v :: 0 <= v < |s.workers| && v != w ==> t.workers[v] == s.workers[v]
  }

  lemma Step(cfg: Config, stale: seq<real>, sched: seq<Move>, s: State, w: nat) returns (more: seq<Move>, t: State)
    requires 0 < cfg.k && |stale| == cfg.nWorkers && Exec(cfg, stale, sched) == s
    ensures t == Advance(cfg, s, Move(w, false)) && Exec(cfg, stale, more) == t && sched <= more
  {
    more := sched + [Move(w, false)];
    ExecOneMore(cfg, stale, sched, Move(w, false));
    t := Advance(cfg, s, Move(w, false));
  }

  // ---------- The pages beyond the budget ----------

  /** The pages a search may visit. */
  function Probed(cfg: Config): seq<Probe>
    requires cfg.maxMorsel <= |cfg.probes|
  {
    cfg.probes[..cfg.maxMorsel]
  }

  /** The same search over nothing but these pages. */
  function Trimmed(cfg: Config): Config
    requires cfg.maxMorsel <= |cfg.probes|
  {
    cfg.(probes := Probed(cfg))
  }

  lemma TrimmedMove(cfg: Config, s: State, m: Move)
    requires 0 < cfg.k && cfg.maxMorsel <= |cfg.probes|
    ensures Advance(Trimmed(cfg), s, m) == Advance(cfg, s, m)
  {
    hide OfferAll, Prune;
  }

  /** Pages beyond the budget make no difference to any run. */
  lemma {:induction false} TrimmedRun(cfg: Config, stale: seq<real>, sched: seq<Move>)
    requires 0 < cfg.k && |stale| == cfg.nWorkers && cfg.maxMorsel <= |cfg.probes|
    ensures Exec(Trimmed(cfg), stale, sched) == Exec(cfg, stale, sched)
  {
    if sched != [] {
      hide Advance;
      var n := |sched| - 1;
      TrimmedRun(cfg, stale, sched[..n]);
      TrimmedMove(cfg, Exec(cfg, stale, sched[..n]), sched[n]);
    }
  }

  // ---------- Every run comes to an end ----------

  /** A compare-and-swap that would succeed fails spuriously: the one kind of move that gets nowhere. */
  predicate FailsSpuriously(s: State, m: Move) {
    && m.worker < |s.workers| && s.workers[m.worker].pc.Swapping? && m.spurious
    && IsBelow(Top(s.workers[m.worker]), s.workers[m.worker].pc.seen) && s.shared == s.workers[m.worker].pc.seen
  }

  /** A move of a worker that has not finished, other than a spurious failure. */
  predicate Effective(s: State, m: Move) {
    m.worker < |s.workers| && !s.workers[m.worker].pc.Finished? && !FailsSpuriously(s, m)
  }

  function PagesToClaim(cfg: Config, s: State): nat {
    if s.nextMorsel < cfg.maxMorsel then cfg.maxMorsel - s.nextMorsel else 0
  }

  function PagesLeft(cfg: Config, c: nat, morsel: nat): nat {
    if c < MorselEnd(cfg, morsel) then MorselEnd(cfg, morsel) - c else 0
  }

  /** How many moves a worker can still make before it claims again. A publication may cost every other
      worker one more turn of its compare-and-swap loop, so it weighs as much as there are workers. */
  function Load(cfg: Config, shared: Bound, wk: Worker): nat {
    match wk.pc
    case Snapshotting(morsel) => cfg.nWorkers + 8 + PagesLeft(cfg, morsel, morsel)
    case Scanning(morsel, c, _) => cfg.nWorkers + 7 + PagesLeft(cfg, c, morsel)
    case Comparing(_) => cfg.nWorkers + 6
    case Reloading => cfg.nWorkers + 5
    case Swapping(seen) => cfg.nWorkers + (if seen == shared then 3 else 4)
    case Claiming => 2
    case Reporting => 1
    case Finished => 0
  }

  function Loads(cfg: Config, shared: Bound, workers: seq<Worker>): nat {
    if workers == [] then 0
    else Loads(cfg, shared, workers[..|workers| - 1]) + Load(cfg, shared, workers[|workers| - 1])
  }

  /** What is left to do: each page still to be claimed may lead to a publication of its own. */
  function Budget(cfg: Config, s: State): nat {
    PagesToClaim(cfg, s) * (cfg.nWorkers + 9) + Loads(cfg, s.shared, s.workers)
  }

  lemma {:induction false} LoadsUpdate(cfg: Config, shared: Bound, workers: seq<Worker>, w: nat, wk: Worker)
    requires w < |workers|
    ensures Loads(cfg, shared, workers[w := wk]) + Load(cfg, shared, workers[w])
      == Loads(cfg, shared, workers) + Load(cfg, shared, wk)
  {
    hide Load;
    var n := |workers| - 1;
    if w < n {
      assert workers[w := wk][..n] == workers[..n][w := wk];
      LoadsUpdate(cfg, shared, workers[..n], w, wk);
    } else {
      assert workers[w := wk][..n] == workers[..n];
    }
  }

  /** A new shared bound costs each worker at most one move. */
  lemma {:induction false} LoadsRaised(cfg: Config, was: Bound, now: Bound, workers: seq<Worker>)
    ensures Loads(cfg, now, workers) <= Loads(cfg, was, workers) + |workers|
  {
    if workers != [] { LoadsRaised(cfg, was, now, workers[..|workers| - 1]); }
  }

  /** Moves that neither claim nor publish make the mover's load smaller. */
  lemma LoadFalls(cfg: Config, s: State, m: Move)
    requires 0 < cfg.k && Shape(cfg, s) && cfg.maxMorsel <= |cfg.probes| && Effective(s, m)
    requires !s.workers[m.worker].pc.Claiming?
    ensures var s' := Advance(cfg, s, m);
      && s'.workers == s.workers[m.worker := s'.workers[m.worker]] && s'.nextMorsel == s.nextMorsel
      && (if s'.shared == s.shared
          then Load(cfg, s.shared, s'.workers[m.worker]) < Load(cfg, s.shared, s.workers[m.worker])
          else Load(cfg, s.shared, s'.workers[m.worker]) + cfg.nWorkers < Load(cfg, s.shared, s.workers[m.worker]))
  {
    hide OfferAll, Prune;
    assert PcOk(cfg, s, s.workers[m.worker].pc);
  }

  lemma ClaimUsesBudget(cfg: Config, s: State, w: nat)
    requires 0 < cfg.step && w < |s.workers| == cfg.nWorkers && s.workers[w].pc.Claiming?
    ensures Budget(cfg, ClaimStep(cfg, s, w)) < Budget(cfg, s)
  {
    var s' := ClaimStep(cfg, s, w);
    LoadsUpdate(cfg, s.shared, s.workers, w, s'.workers[w]);
    var a, b := PagesToClaim(cfg, s), PagesToClaim(cfg, s');
    hide Loads;
    if s.nextMorsel < cfg.maxMorsel {
      assert a - b == PagesLeft(cfg, s.nextMorsel, s.nextMorsel) >= 1;
      FallingProduct(b, a, cfg.nWorkers + 9);
    }
  }

  lemma FallingProduct(b: nat, a: nat, weight: nat)
    requires b < a && 1 <= weight
    ensures b * weight + weight - 1 + (a - b) <= a * weight
  {
    MulMonotone(b, a - 1, weight - 1);
  }

  /** Every move of a worker that has not finished uses up some of the budget, whoever moved before. */
  lemma MoveUsesBudget(cfg: Config, s: State, m: Move)
    requires ConfigOk(cfg) && Shape(cfg, s) && Effective(s, m)
    ensures Budget(cfg, Advance(cfg, s, m)) < Budget(cfg, s)
  {
    var w := m.worker;
    if s.workers[w].pc.Claiming? {
      hide Budget;
      ClaimUsesBudget(cfg, s, w);
    } else {
      var s' := Advance(cfg, s, m);
      LoadFalls(cfg, s, m);
      hide Advance, Load, Loads, ProbesOk, PcOk, Effective;
      LoadsUpdate(cfg, s.shared, s.workers, w, s'.workers[w]);
      LoadsRaised(cfg, s.shared, s'.shared, s'.workers);
    }
  }

  function EffectiveMoves(cfg: Config, stale: seq<real>, sched: seq<Move>): nat
    requires 0 < cfg.k && |stale| == cfg.nWorkers
  {
    if sched == [] then 0
    else
      var n := |sched| - 1;
      EffectiveMoves(cfg, stale, sched[..n]) + (if Effective(Exec(cfg, stale, sched[..n]), sched[n]) then 1 else 0)
  }

  lemma {:induction false} LoadsAtStart(cfg: Config, workers: seq<Worker>)
    requires forall w :: 0 <= w < |workers| ==> workers[w].pc.Claiming?
    ensures Loads(cfg, Infinity, workers) == 2 * |workers|
  {
    if workers != [] { LoadsAtStart(cfg, workers[..|workers| - 1]); }
  }

  lemma IdleMove(cfg: Config, s: State, m: Move)
    requires 0 < cfg.k && !Effective(s, m)
    ensures Advance(cfg, s, m) == s
  {
    hide PageStep;
  }

  lemma {:induction false} RunsUseBudget(cfg: Config, stale: seq<real>, sched: seq<Move>)
    requires ConfigOk(cfg) && |stale| == cfg.nWorkers
    ensures EffectiveMoves(cfg, stale, sched) + Budget(cfg, Exec(cfg, stale, sched)) <= Budget(cfg, Init(cfg, stale))
  {
    if sched != [] {
      hide Advance, Budget, Effective, ProbesOk;
      var n := |sched| - 1;
      var s := Exec(cfg, stale, sched[..n]);
      RunsUseBudget(cfg, stale, sched[..n]);
      ShapeOfRun(cfg, stale, sched[..n]);
      if Effective(s, sched[n]) { MoveUsesBudget(cfg, s, sched[n]); } else { IdleMove(cfg, s, sched[n]); }
    }
  }

  /** No run, whatever its interleaving, makes more than this many moves of unfinished workers, spurious
      failures aside: the search is lock-free and cannot be kept from finishing. */
  lemma RunsEnd(cfg: Config, stale: seq<real>, sched: seq<Move>)
    requires ConfigOk(cfg) && |stale| == cfg.nWorkers
    ensures EffectiveMoves(cfg, stale, sched) <= cfg.maxMorsel * (cfg.nWorkers + 9) + 2 * cfg.nWorkers
  {
    RunsUseBudget(cfg, stale, sched);
    LoadsAtStart(cfg, Init(cfg, stale).workers);
  }

  lemma {:induction false} FinishOne(cfg: Config, stale: seq<real>, sched: seq<Move>, s: State, w: nat)
      returns (done: seq<Move>, t: State)
    requires ConfigOk(cfg) && |stale| == cfg.nWorkers && w < cfg.nWorkers
    requires s == Exec(cfg, stale, sched) && Shape(cfg, s)
    ensures sched <= done && t == Exec(cfg, stale, done) && Shape(cfg, t)
    ensures OnlyMoved(s, t, w) && t.workers[w].pc.Finished?
    decreases Budget(cfg, s)
  {
    hide Exec, Advance, ProbesOk, PcOk, Budget;
    if s.workers[w].pc.Finished? {
      done, t := sched, s;
    } else {
      MoveUsesBudget(cfg, s, Move(w, false));
      OneMoves(cfg, s, Move(w, false));
      var more, s' := Step(cfg, stale, sched, s, w);
      ShapeOfRun(cfg, stale, more);
      done, t := FinishOne(cfg, stale, more, s', w);
    }
  }

  /** A move changes no worker but the mover. */
  lemma OneMoves(cfg: Config, s: State, m: Move)
    requires 0 < cfg.k && m.worker < |s.workers|
    ensures OnlyMoved(s, Advance(cfg, s, m), m.worker)
  {
    hide Prune, PruneBy, OfferAll;
  }

  /** Whatever has happened so far, some continuation of the run finishes all workers, guarded or not. */
  lemma {:induction false} RunsCanFinish(cfg: Config, stale: seq<real>, sched: seq<Move>, n: nat)
      returns (done: seq<Move>)
    requires ConfigOk(cfg) && |stale| == cfg.nWorkers && n <= cfg.nWorkers
    ensures sched <= done
    ensures var t := Exec(cfg, stale, done);
      |t.workers| == cfg.nWorkers && forall v :: 0 <= v < n ==> t.workers[v].pc.Finished?
  {
    hide Exec, Advance;
    if n == 0 {
      done := sched;
      ShapeOfRun(cfg, stale, done);
    } else {
      var more := RunsCanFinish(cfg, stale, sched, n - 1);
      ShapeOfRun(cfg, stale, more);
      var t;
      done, t := FinishOne(cfg, stale, more, Exec(cfg, stale, more), n - 1);
    }
  }

  // ---------- Claiming, pruning and ending a morsel ----------

  lemma ClaimMorsel(cfg: Config, stale: seq<real>, sched: seq<Move>, s: State, w: nat)
      returns (more: seq<Move>, t: State)
    requires 0 < cfg.k && |stale| == cfg.nWorkers && Exec(cfg, stale, sched) == s
    requires w < |s.workers| && s.workers[w].pc.Claiming? && s.nextMorsel < cfg.maxMorsel
    ensures Exec(cfg, stale, more) == t && OnlyMoved(s, t, w)
    ensures t.workers[w] == s.workers[w].(pc := Scanning(s.nextMorsel, s.nextMorsel, s.shared))
    ensures t.shared == s.shared && t.nextMorsel == s.nextMorsel + cfg.step
  {
    hide Exec;
    more, t := Step(cfg, stale, sched, s, w);
    more, t := Step(cfg, stale, more, t, w);
  }

  predicate AtPage(cfg: Config, s: State, w: nat, c: nat) {
    && w < |s.workers| && s.workers[w].pc.Scanning? && s.workers[w].pc.current == c
    && c <= MorselEnd(cfg, s.workers[w].pc.morsel) <= |s.status| && |s.status| == |cfg.probes| == cfg.maxMorsel
  }

  /** A morsel whose pages the snapshot prunes leaves the buffer alone. */
  lemma {:induction false} PruneMorsel(cfg: Config, stale: seq<real>, sched: seq<Move>, s: State, w: nat, c: nat)
      returns (more: seq<Move>, t: State)
    requires 0 < cfg.k && |stale| == cfg.nWorkers && Exec(cfg, stale, sched) == s && AtPage(cfg, s, w, c)
    requires forall p :: c <= p < MorselEnd(cfg, s.workers[w].pc.morsel) ==>
      PruneBy(cfg.probes[p], s.workers[w].pc.snapshot)
    ensures Exec(cfg, stale, more) == t && OnlyMoved(s, t, w)
    ensures t.workers[w].pc == s.workers[w].pc.(current := MorselEnd(cfg, s.workers[w].pc.morsel))
    ensures t.workers[w].kept == s.workers[w].kept && t.workers[w].stale == s.workers[w].stale
    ensures t.shared == s.shared && t.nextMorsel == s.nextMorsel
    decreases MorselEnd(cfg, s.workers[w].pc.morsel) - c
  {
    hide Exec, PruneBy;
    if c == MorselEnd(cfg, s.workers[w].pc.morsel) {
      more, t := sched, s;
    } else {
      more, t := Step(cfg, stale, sched, s, w);
      more, t := PruneMorsel(cfg, stale, more, t, w, c + 1);
    }
  }

  /** The end of a morsel whose snapshot is still the shared bound: the top of the buffer is published
      if it lies below. */
  lemma EndMorsel(cfg: Config, stale: seq<real>, sched: seq<Move>, s: State, w: nat) returns (more: seq<Move>, t: State)
    requires 0 < cfg.k && |stale| == cfg.nWorkers && Exec(cfg, stale, sched) == s && !cfg.guarded
    requires w < |s.workers| && s.workers[w].pc.Scanning? && s.workers[w].pc.snapshot == s.shared
    requires s.workers[w].pc.current == MorselEnd(cfg, s.workers[w].pc.morsel)
    ensures Exec(cfg, stale, more) == t && OnlyMoved(s, t, w)
    ensures t.workers[w] == s.workers[w].(pc := Claiming) && t.nextMorsel == s.nextMorsel
    ensures t.shared == if IsBelow(Top(s.workers[w]), s.shared) then At(Top(s.workers[w])) else s.shared
  {
    hide Exec;
    more, t := Step(cfg, stale, sched, s, w);
    more, t := Step(cfg, stale, more, t, w);
    if IsBelow(Top(s.workers[w]), s.shared) {
      more, t := Step(cfg, stale, more, t, w);
      more, t := Step(cfg, stale, more, t, w);
    }
  }

  /** A worker alone prunes all the rest of the pages against the shared bound. */
  lemma {:induction false} PruneRest(cfg: Config, stale: seq<real>, sched: seq<Move>, s: State, w: nat)
      returns (more: seq<Move>, t: State)
    requires 0 < cfg.k && 0 < cfg.step && |stale| == cfg.nWorkers && Exec(cfg, stale, sched) == s && !cfg.guarded
    requires w < |s.workers| && s.workers[w].pc.Claiming? && |s.status| == |cfg.probes| == cfg.maxMorsel
    requires !IsBelow(Top(s.workers[w]), s.shared)
    requires forall p :: s.nextMorsel <= p < cfg.maxMorsel ==> PruneBy(cfg.probes[p], s.shared)
    ensures Exec(cfg, stale, more) == t && OnlyMoved(s, t, w)
    ensures t.nextMorsel >= cfg.maxMorsel && t.shared == s.shared
    ensures t.workers[w].pc.Claiming? && t.workers[w].kept == s.workers[w].kept
    decreases cfg.maxMorsel - s.nextMorsel
  {
    hide Exec, PruneBy, IsBelow;
    if s.nextMorsel >= cfg.maxMorsel {
      more, t := sched, s;
    } else {
      more, t := ClaimMorsel(cfg, stale, sched, s, w);
      more, t := PruneMorsel(cfg, stale, more, t, w, s.nextMorsel);
      more, t := EndMorsel(cfg, stale, more, t, w);
      more, t := PruneRest(cfg, stale, more, t, w);
    }
  }

  /** Once no morsel is left the workers exit one after another with the buffers they have. */
  lemma {:induction false} ExitAll(cfg: Config, stale: seq<real>, sched: seq<Move>, s: State, n: nat)
      returns (more: seq<Move>, t: State)
    requires 0 < cfg.k && |stale| == cfg.nWorkers && Exec(cfg, stale, sched) == s
    requires n <= |s.workers| && s.nextMorsel >= cfg.maxMorsel
    requires forall v :: 0 <= v < n ==> s.workers[v].pc.Claiming?
    requires forall v :: n <= v < |s.workers| ==> s.workers[v].pc.Finished?
    ensures Exec(cfg, stale, more) == t && AllFinished(t) && |t.workers| == |s.workers|
    ensures forall v :: 0 <= v < |s.workers| ==> t.workers[v].kept == s.workers[v].kept
    decreases n
  {
    hide Exec;
    if n == 0 {
      more, t := sched, s;
    } else {
      more, t := Step(cfg, stale, sched, s, n - 1);
      more, t := Step(cfg, stale, more, t, n - 1);
      more, t := ExitAll(cfg, stale, more, t, n - 1);
    }
  }

  // ---------- Filling from a morsel of pages at one distance ----------

  predicate AllAt(es: seq<Entry>, d: real) {
    forall i :: 0 <= i < |es| ==> es[i].dist == d
  }

  lemma {:induction false} OfferEqual(kept: seq<Entry>, k: nat, es: seq<Entry>, d: real)
    requires 0 < k && AllAt(kept, d) && AllAt(es, d)
    ensures AllAt(OfferAll(kept, k, es), d)
  {
    if es != [] {
      var n := |es| - 1;
      var kept', e := OfferAll(kept, k, es[..n]), es[n];
      OfferEqual(kept, k, es[..n], d);
      var r := Offer(kept', k, e);
      if |kept'| < k {
        forall i | 0 <= i < |r| ensures r[i].dist == d {
          assert r[i] in multiset(kept') + multiset{e};
        }
      }
    }
  }

  function SumTo(sizes: seq<nat>, n: nat): nat
    requires n <= |sizes|
  {
    if n == 0 then 0 else SumTo(sizes, n - 1) + sizes[n - 1]
  }

  lemma {:induction false} SumToMonotone(sizes: seq<nat>, a: nat, b: nat)
    requires a <= b <= |sizes|
    ensures SumTo(sizes, a) <= SumTo(sizes, b)
  {
    if a < b { SumToMonotone(sizes, a, b - 1); }
  }

  /** How many vectors the pages hold, in visiting order. */
  ghost predicate HasSizes(ps: seq<Probe>, sizes: seq<nat>) {
    |ps| == |sizes| && forall c :: 0 <= c < |ps| ==> |ps[c].entries| == sizes[c]
  }

  lemma {:induction false} SizesCountEntries(ps: seq<Probe>, sizes: seq<nat>, n: nat)
    requires HasSizes(ps, sizes) && n <= |ps|
    ensures |AllEntries(ps[..n])| == SumTo(sizes, n)
  {
    if n > 0 {
      SizesCountEntries(ps, sizes, n - 1);
      AllEntriesMore(ps, n - 1);
    }
  }

  /** A page of radius zero. */
  predicate FlatAt(p: Probe, d: real) {
    p.anchorDist == d && p.maxDist == 0.0 && AllAt(p.entries, d)
  }

  /** A morsel of flat pages leaves only their distance in the buffer, and no more than they hold. */
  lemma {:induction false} FillFromMorsel(cfg: Config, stale: seq<real>, sched: seq<Move>, s: State, w: nat, c: nat,
                                          d: real, sizes: seq<nat>)
      returns (more: seq<Move>, t: State)
    requires 0 < cfg.k && |stale| == cfg.nWorkers && Exec(cfg, stale, sched) == s && AtPage(cfg, s, w, c)
    requires HasSizes(cfg.probes, sizes) && forall p :: 0 <= p < |sizes| ==> 0 < sizes[p]
    requires s.workers[w].pc.snapshot == Infinity && AllAt(s.workers[w].kept, d)
    requires |s.workers[w].kept| <= cfg.k && |s.workers[w].kept| <= SumTo(sizes, c)
    requires forall p :: c <= p < MorselEnd(cfg, s.workers[w].pc.morsel) ==> FlatAt(cfg.probes[p], d)
    requires c < MorselEnd(cfg, s.workers[w].pc.morsel) || s.workers[w].kept != []
    ensures Exec(cfg, stale, more) == t && OnlyMoved(s, t, w)
    ensures t.workers[w].pc == s.workers[w].pc.(current := MorselEnd(cfg, s.workers[w].pc.morsel))
    ensures AllAt(t.workers[w].kept, d) && t.workers[w].kept != []
    ensures |t.workers[w].kept| <= SumTo(sizes, MorselEnd(cfg, s.workers[w].pc.morsel))
    ensures t.shared == s.shared && t.nextMorsel == s.nextMorsel
    decreases MorselEnd(cfg, s.workers[w].pc.morsel) - c
  {
    hide Exec, OfferAll, AllAt;
    if c == MorselEnd(cfg, s.workers[w].pc.morsel) {
      more, t := sched, s;
    } else {
      var kept := s.workers[w].kept;
      OfferEqual(kept, cfg.k, cfg.probes[c].entries, d);
      OfferAllLength(kept, cfg.k, cfg.probes[c].entries);
      more, t := Step(cfg, stale, sched, s, w);
      more, t := FillFromMorsel(cfg, stale, more, t, w, c + 1, d, sizes);
    }
  }

  /** Scanning against an infinite bound goes like the search with one thread. */
  lemma {:induction false} SearchFromMorsel(cfg: Config, stale: seq<real>, sched: seq<Move>, s: State, w: nat, c: nat)
      returns (more: seq<Move>, t: State)
    requires 0 < cfg.k && |stale| == cfg.nWorkers && Exec(cfg, stale, sched) == s && AtPage(cfg, s, w, c)
    requires s.workers[w].pc.snapshot == Infinity && s.workers[w].kept == Search(cfg.probes[..c], cfg.k)
    ensures Exec(cfg, stale, more) == t && OnlyMoved(s, t, w)
    ensures t.workers[w].pc == s.workers[w].pc.(current := MorselEnd(cfg, s.workers[w].pc.morsel))
    ensures t.workers[w].kept == Search(cfg.probes[..MorselEnd(cfg, s.workers[w].pc.morsel)], cfg.k)
    ensures t.shared == s.shared && t.nextMorsel == s.nextMorsel
    decreases MorselEnd(cfg, s.workers[w].pc.morsel) - c
  {
    hide Exec, OfferAll, Prune;
    if c == MorselEnd(cfg, s.workers[w].pc.morsel) {
      more, t := sched, s;
    } else {
      assert cfg.probes[..c + 1][..c] == cfg.probes[..c];
      more, t := Step(cfg, stale, sched, s, w);
      more, t := SearchFromMorsel(cfg, stale, more, t, w, c + 1);
    }
  }

  // ---------- What a run that filled one buffer returns ----------

  lemma {:induction false} OneBuffer(workers: seq<Worker>, n: nat)
    requires 1 <= n <= |workers| && forall v :: 1 <= v < |workers| ==> workers[v].kept == []
    ensures Collected(workers[..n]) == workers[0].kept
  {
    assert workers[..n][..n - 1] == workers[..n - 1];
    if n > 1 { OneBuffer(workers, n - 1); }
  }

  lemma {:induction false} PageEntriesIn(ps: seq<Probe>, n: nat, c: nat, e: Entry)
    requires c < n <= |ps| && e in ps[c].entries
    ensures e in AllEntries(ps[..n])
  {
    assert ps[..n][..n - 1] == ps[..n - 1];
    if c < n - 1 { PageEntriesIn(ps, n - 1, c, e); }
  }

  lemma MissesNearer(kept: multiset<Entry>, all: multiset<Entry>, k: nat, d: real, near: Entry)
    requires 0 < |kept| && forall y: Entry :: y in kept ==> y.dist == d
    requires near in all && near.dist < d
    ensures !KeepsBest(kept, all, k)
  {
    var y :| y in kept;
    assert near in all - kept;
  }

  /** One buffer whose entries are all farther than some probed one is not the answer. */
  lemma LostIsInexact(cfg: Config, s: State, d: real, near: Entry)
    requires 0 < cfg.k && cfg.maxMorsel <= |cfg.probes| && |s.workers| > 0
    requires AllAt(s.workers[0].kept, d) && forall v :: 1 <= v < |s.workers| ==> s.workers[v].kept == []
    requires near in AllEntries(cfg.probes[..cfg.maxMorsel]) && near.dist < d
    ensures !Exact(cfg, s)
  {
    hide AllEntries, KeepsBest, Sort, Collected;
    OneBuffer(s.workers, |s.workers|);
    assert s.workers[..|s.workers|] == s.workers;
    var merged := Merged(s);
    assert multiset(merged) == multiset(s.workers[0].kept);
    if |merged| >= cfg.k {
      var top := merged[..cfg.k];
      forall y: Entry | y in multiset(top) ensures y.dist == d {
        assert y in multiset(merged);
      }
      MissesNearer(multiset(top), AllEntries(cfg.probes[..cfg.maxMorsel]), cfg.k, d, near);
    }
  }

  lemma ShortIsInexact(cfg: Config, s: State)
    requires 0 < cfg.k && cfg.maxMorsel <= |cfg.probes| && |s.workers| > 0
    requires |s.workers[0].kept| < cfg.k && forall v :: 1 <= v < |s.workers| ==> s.workers[v].kept == []
    ensures !Exact(cfg, s)
  {
    OneBuffer(s.workers, |s.workers|);
    assert s.workers[..|s.workers|] == s.workers;
  }
}
