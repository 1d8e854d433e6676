/** Which of equally near entries is kept. The bounded buffer replaces its worst entry only by a strictly nearer
    one, so among entries offered in the order of their ids it keeps those with the lowest ids. */
module Ties {
  import opened Vectors
  import opened Entries
  import opened Pages
  import opened SphereBound
  import opened TopK
  import opened Probes
  import opened Baseline
  import opened Prefill

  ghost predicate AscendingIds(es: seq<Entry>) {
    forall i, j :: 0 <= i < j < |es| ==> es[i].id < es[j].id
  }

  /** e belongs behind the first k entries. */
  lemma {:induction false} InsertBehind(s: seq<Entry>, e: Entry, k: nat)
    requires k <= |s| && forall j :: 0 <= j < k ==> !Le(e, s[j])
    ensures Insert(s, e)[..k] == s[..k]
  {
    if k > 0 {
      InsertBehind(s[1..], e, k - 1);
      var rest := Insert(s[1..], e);
      assert ([s[0]] + rest)[..k] == [s[0]] + rest[..k - 1];
      assert s[..k] == [s[0]] + s[1..][..k - 1];
    }
  }

  /** e belongs among the first k entries, and pushes out the last of them. */
  lemma {:induction false} InsertAmong(s: seq<Entry>, e: Entry, k: nat)
    requires 0 < k <= |s| && Le(e, s[k - 1])
    ensures Insert(s, e)[..k] == Insert(s[..k - 1], e)
  {
    if !Le(e, s[0]) {
      InsertAmong(s[1..], e, k - 1);
      var rest := Insert(s[1..], e);
      assert ([s[0]] + rest)[..k] == [s[0]] + rest[..k - 1];
      assert s[..k - 1][0] == s[0] && s[..k - 1][1..] == s[1..][..k - 2];
    } else {
      assert ([e] + s)[..k] == [e] + s[..k - 1];
    }
  }

  lemma IdsBelow(es: seq<Entry>, n: nat, s: seq<Entry>)
    requires AscendingIds(es) && n < |es| && multiset(s) == multiset(es[..n])
    ensures forall j :: 0 <= j < |s| ==> s[j].id < es[n].id
  {
    forall j | 0 <= j < |s| ensures s[j].id < es[n].id {
      assert s[j] in multiset(s);
      assert s[j] in es[..n];
    }
  }

  lemma OneMoreOffer(s: seq<Entry>, k: nat, e: Entry)
    requires 0 < k && Sorted(s) && forall j :: 0 <= j < |s| ==> s[j].id < e.id
    ensures var kept := if |s| < k then s else s[..k];
      Offer(kept, k, e) == if |s| + 1 < k then Insert(s, e) else Insert(s, e)[..k]
  {
    if |s| < k {
      assert Insert(s, e)[..|s| + 1] == Insert(s, e);
    } else {
      assert s[..k][..k - 1] == s[..k - 1];
      if e.dist < s[k - 1].dist {
        InsertAmong(s, e, k);
      } else {
        forall j | 0 <= j < k ensures !Le(e, s[j]) {
          assert j < k - 1 ==> Le(s[j], s[k - 1]);
        }
        InsertBehind(s, e, k);
      }
    }
  }

  lemma SortSnoc(es: seq<Entry>)
    requires es != []
    ensures Sort(es) == Insert(Sort(es[..|es| - 1]), es[|es| - 1])
  {
  }

  lemma OfferAllSnoc(kept: seq<Entry>, k: nat, es: seq<Entry>, e: Entry)
    requires 0 < k
    ensures OfferAll(kept, k, es + [e]) == Offer(OfferAll(kept, k, es), k, e)
  {
    assert (es + [e])[..|es|] == es;
    hide Offer;
  }

  lemma PrefixAscends(es: seq<Entry>, n: nat)
    requires AscendingIds(es) && n <= |es|
    ensures AscendingIds(es[..n])
  {
  }

  lemma NothingToOffer(k: nat)
    requires 0 < k
    ensures OfferAll([], k, []) == Sort([])
  {
  }

  /** Entries offered in the order of their ids: the buffer ends with the first k of them in sorted order, ties
      broken towards the lower id. */
  lemma {:induction false} OfferAllIsSortedPrefix(k: nat, es: seq<Entry>)
    requires 0 < k && AscendingIds(es)
    ensures OfferAll([], k, es) == if |es| < k then Sort(es) else Sort(es)[..k]
  {
    hide *;
    if es == [] {
      NothingToOffer(k);
    } else {
      var n := |es| - 1;
      assert es == es[..n] + [es[n]];
      PrefixAscends(es, n);
      OfferAllIsSortedPrefix(k, es[..n]);
      IdsBelow(es, n, Sort(es[..n]));
      OneMoreOffer(Sort(es[..n]), k, es[n]);
      OfferAllSnoc([], k, es[..n], es[n]);
      SortSnoc(es);
    }
  }

  /** The ids brute force reports are the first k in order of distance and then number. */
  lemma BruteForceIsSortedPrefix(q: Vec, vectors: seq<Vec>, k: nat)
    requires 0 < k
    ensures var all := Sort(EntriesOf(q, Numbered(vectors)));
      BruteForce(q, Numbered(vectors), k) == if |all| < k then all else all[..k]
  {
    OfferAllIsSortedPrefix(k, EntriesOf(q, Numbered(vectors)));
  }

  /** A prefill round takes the m nearest remaining vectors, of equally near ones those that come first. */
  lemma NearestIsSortedPrefix(r: seq<Slot>, m: nat)
    requires r != [] && 0 < m
    ensures var all := Sort(Candidates(r));
      Nearest(r, m) == if |all| < m then all else all[..m]
  {
    OfferAllIsSortedPrefix(m, Candidates(r));
  }

  // ---------- Pruning leaves no trace ----------

  /** The entries of all pages, page after page. */
  function Listed(ps: seq<Probe>): seq<Entry> {
    if ps == [] then [] else Listed(ps[..|ps| - 1]) + ps[|ps| - 1].entries
  }

  lemma {:induction false} OfferAllSplit(kept: seq<Entry>, k: nat, a: seq<Entry>, b: seq<Entry>)
    requires 0 < k
    ensures OfferAll(kept, k, a + b) == OfferAll(OfferAll(kept, k, a), k, b)
  {
    if b == [] {
      assert a + b == a;
    } else {
      hide *;
      var n := |b| - 1;
      assert b == b[..n] + [b[n]] && a + b == (a + b[..n]) + [b[n]];
      OfferAllSplit(kept, k, a, b[..n]);
      OfferAllSnoc(kept, k, a + b[..n], b[n]);
      OfferAllSnoc(OfferAll(kept, k, a), k, b[..n], b[n]);
    }
  }

  lemma {:induction false} FarOffersChangeNothing(kept: seq<Entry>, k: nat, es: seq<Entry>)
    requires 0 < k == |kept| && forall i :: 0 <= i < |es| ==> es[i].dist >= kept[k - 1].dist
    ensures OfferAll(kept, k, es) == kept
  {
    if es != [] { FarOffersChangeNothing(kept, k, es[..|es| - 1]); }
  }

  /** The search returns exactly what it would return had it scanned every page in its order: the same entries,
      ties included. */
  lemma {:induction false} SearchIsScanInOrder(ps: seq<Probe>, k: nat)
    requires 0 < k && ProbesOk(ps)
    ensures Search(ps, k) == OfferAll([], k, Listed(ps))
  {
    if ps != [] {
      var n := |ps| - 1;
      SearchIsScanInOrder(ps[..n], k);
      var kept, p := Search(ps[..n], k), ps[n];
      OfferAllSplit([], k, Listed(ps[..n]), p.entries);
      hide OfferAll, Search, Prune;
      VisitIsScan(kept, k, p);
      SearchSnoc(ps, k);
    }
  }

  lemma SearchSnoc(ps: seq<Probe>, k: nat)
    requires 0 < k && ps != []
    ensures Search(ps, k) == Visit(Search(ps[..|ps| - 1], k), k, ps[|ps| - 1])
  {
  }

  lemma VisitIsScan(kept: seq<Entry>, k: nat, p: Probe)
    requires 0 < k && ProbeOk(p)
    ensures Visit(kept, k, p) == OfferAll(kept, k, p.entries)
  {
    if |kept| == k && Prune(p.anchorDist, p.maxDist, kept[k - 1].dist) { FarOffersChangeNothing(kept, k, p.entries); }
  }
}
