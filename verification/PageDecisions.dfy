/** How every page of a run came to be scanned or pruned. */
module PageDecisions {
  import opened Entries
  import opened SphereBound
  import opened TopK
  import opened Probes
  import opened ParallelSearch
  import opened ParallelExactness
  import opened MorselAccounting

  /** The bound a worker read when it began its morsel rules the page out. */
  predicate RuledOutByBound(p: Probe, wk: Worker) {
    wk.pc.Scanning? && wk.pc.snapshot.At? && Prune(p.anchorDist, p.maxDist, wk.pc.snapshot.d)
  }

  /** The worst entry of a worker's full buffer rules the page out. */
  predicate RuledOutByBuffer(p: Probe, wk: Worker, k: nat) {
    0 < k == |wk.kept| && Prune(p.anchorDist, p.maxDist, wk.kept[k - 1].dist)
  }

  /** Move i is the one with which a worker came to page c, and t is what became of the page there. */
  ghost predicate DecidedAt(cfg: Config, stale: seq<real>, sched: seq<Move>, c: nat, t: Status, i: nat)
    requires 0 < cfg.k && |stale| == cfg.nWorkers
  {
    && i < |sched| && c < |cfg.probes|
    && var s, w := Exec(cfg, stale, sched[..i]), sched[i].worker;
       && w < |s.workers|
       && var wk, p := s.workers[w], cfg.probes[c];
          && wk.pc.Scanning? && wk.pc.current == c
          && t == (if RuledOutByBound(p, wk) then PrunedShared(w)
                   else if RuledOutByBuffer(p, wk, cfg.k) then PrunedLocally(w)
                   else Scanned(w))
  }

  lemma DecidedStays(cfg: Config, stale: seq<real>, sched: seq<Move>, m: Move, c: nat, t: Status, i: nat)
    requires 0 < cfg.k && |stale| == cfg.nWorkers && DecidedAt(cfg, stale, sched, c, t, i)
    ensures DecidedAt(cfg, stale, sched + [m], c, t, i)
  {
    assert (sched + [m])[..i] == sched[..i] && (sched + [m])[i] == sched[i];
    hide Exec;
  }

  /** A move decides at most the page its worker has come to. */
  lemma MoveDecides(cfg: Config, s: State, m: Move, c: nat)
    requires ConfigOk(cfg) && Claims(cfg, s) && c < cfg.maxMorsel
    ensures var s' := Advance(cfg, s, m);
      && |s'.status| == cfg.maxMorsel
      && (|| Undecided(s'.status[c]) || (s'.status[c] == s.status[c] && !Undecided(s.status[c]))
          || (m.worker < |s.workers|
              && var wk, p := s.workers[m.worker], cfg.probes[c];
                 && wk.pc.Scanning? && wk.pc.current == c
                 && s'.status[c] == (if RuledOutByBound(p, wk) then PrunedShared(m.worker)
                                     else if RuledOutByBuffer(p, wk, cfg.k) then PrunedLocally(m.worker)
                                     else Scanned(m.worker))))
  {
    hide OfferAll, Prune, Owners, ProbesOk;
    assert s.status[c].Unclaimed? <==> s.nextMorsel <= c;
  }

  /** In every run, a page that is no longer undecided was decided once, by a worker that had come to it: it was
      pruned for the bound the worker had read if that rules the page out, else for the worker's own full buffer if
      that does, and scanned otherwise. */
  lemma {:induction false} PageWasDecided(cfg: Config, stale: seq<real>, sched: seq<Move>, c: nat) returns (i: nat)
    requires ConfigOk(cfg) && |stale| == cfg.nWorkers && c < cfg.maxMorsel
    requires c < |Exec(cfg, stale, sched).status| && !Undecided(Exec(cfg, stale, sched).status[c])
    ensures DecidedAt(cfg, stale, sched, c, Exec(cfg, stale, sched).status[c], i)
  {
    i := 0;
    if sched != [] {
      var n := |sched| - 1;
      var s, m := Exec(cfg, stale, sched[..n]), sched[n];
      RunsStayBalanced(cfg, stale, sched[..n]);
      MoveDecides(cfg, s, m, c);
      assert sched == sched[..n] + [m];
      hide Advance, Prune, Balanced, Frontier, Owners, ProbesOk, RuledOutByBound, RuledOutByBuffer;
      if !Undecided(s.status[c]) && Exec(cfg, stale, sched).status[c] == s.status[c] {
        i := PageWasDecided(cfg, stale, sched[..n], c);
        DecidedStays(cfg, stale, sched[..n], m, c, s.status[c], i);
      } else {
        i := n;
      }
    }
  }
}
