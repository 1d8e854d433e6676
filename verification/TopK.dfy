/** What it means to keep the k nearest of a bag of entries, and the bounded-buffer step every search
    of the source performs. */
module TopK {
  import opened Entries

  /** h is a choice of the min(k, |all|) nearest entries of all: nothing left out is strictly nearer
      than anything kept. Entries carry their ids, so h names distinct stored slots. */
  ghost predicate KeepsBest(h: multiset<Entry>, all: multiset<Entry>, k: nat) {
    && h <= all
    && |h| == (if |all| < k then |all| else k)
    && forall x, y :: x in all - h && y in h ==> y.dist <= x.dist
  }

  /** All of m, none of it beyond d. */
  ghost predicate IsWitness(w: multiset<Entry>, m: multiset<Entry>, k: nat, d: real) {
    w <= m && |w| == k && forall x :: x in w ==> x.dist <= d
  }

  /** At least k entries of m have distance at most d. */
  ghost predicate HasK(m: multiset<Entry>, k: nat, d: real) {
    exists w: multiset<Entry> :: IsWitness(w, m, k, d)
  }

  /** h may be searched instead of all: whatever it misses is outdone by k entries it holds. */
  ghost predicate Covers(h: multiset<Entry>, all: multiset<Entry>, k: nat) {
    h <= all && forall x :: x in all - h ==> HasK(h, k, x.dist)
  }

  lemma HasKGrows(m: multiset<Entry>, m': multiset<Entry>, k: nat, d: real, d': real)
    requires HasK(m, k, d) && m <= m' && d <= d'
    ensures HasK(m', k, d')
  {
    var w :| IsWitness(w, m, k, d);
    assert IsWitness(w, m', k, d');
  }

  lemma KeepsBestCovers(h: multiset<Entry>, all: multiset<Entry>, k: nat)
    requires KeepsBest(h, all, k)
    ensures Covers(h, all, k)
  {
    forall x | x in all - h ensures HasK(h, k, x.dist) {
      assert all == h + (all - h);
      assert |all| == |h| + |all - h|;
      assert IsWitness(h, h, k, x.dist);
    }
  }

  /** Two buffers, each searched over its own share, cover the union. */
  lemma CoversUnion(h1: multiset<Entry>, a1: multiset<Entry>, h2: multiset<Entry>, a2: multiset<Entry>, k: nat)
    requires Covers(h1, a1, k) && Covers(h2, a2, k)
    ensures Covers(h1 + h2, a1 + a2, k)
  {
    forall x | x in (a1 + a2) - (h1 + h2) ensures HasK(h1 + h2, k, x.dist) {
      if x in a1 - h1 {
        HasKGrows(h1, h1 + h2, k, x.dist, x.dist);
      } else {
        assert x in a2 - h2;
        HasKGrows(h2, h1 + h2, k, x.dist, x.dist);
      }
    }
  }

  /** k near entries of the whole leave k near entries in the covering part. */
  lemma WitnessInCover(h: multiset<Entry>, all: multiset<Entry>, k: nat, d: real)
    requires Covers(h, all, k) && HasK(all, k, d)
    ensures HasK(h, k, d)
  {
    var w :| IsWitness(w, all, k, d);
    if w <= h {
      assert IsWitness(w, h, k, d);
    } else {
      var x :| x in w && w[x] > h[x];
      assert x in all - h;
      HasKGrows(h, h, k, x.dist, d);
    }
  }

  /** Entries outdone by k others may be dropped. */
  lemma CoversDropped(h: multiset<Entry>, all: multiset<Entry>, lost: multiset<Entry>, k: nat)
    requires Covers(h, all, k)
    requires forall x :: x in lost ==> HasK(all, k, x.dist)
    ensures Covers(h, all + lost, k)
  {
    forall x | x in (all + lost) - h ensures HasK(h, k, x.dist) {
      if x !in all - h {
        assert x in lost;
        WitnessInCover(h, all, k, x.dist);
      }
    }
  }

  lemma SubBagIsSmaller(a: multiset<Entry>, b: multiset<Entry>)
    requires a <= b
    ensures |a| <= |b|
  {
    assert b == a + (b - a);
  }

  /** Entries of a sorted sequence strictly nearer than its j-th are among its first j. */
  lemma NearerSitBefore(s: seq<Entry>, w: multiset<Entry>, j: nat)
    requires Sorted(s) && j < |s| && w <= multiset(s)
    requires forall z :: z in w ==> z.dist < s[j].dist
    ensures |w| <= j
  {
    assert s == s[..j] + s[j..];
    var b := multiset(s[..j]);
    assert multiset(s) == b + multiset(s[j..]);
    forall z | z in multiset(s[j..]) ensures s[j].dist <= z.dist {
      assert z in s[j..];
      var i :| 0 <= i < |s| - j && s[j..][i] == z;
      assert s[j + i] == z && (i > 0 ==> Le(s[j], s[j + i]));
    }
    assert w <= b;
    SubBagIsSmaller(w, b);
  }

  /** What a covering buffer misses or holds behind position j is not nearer than its j-th entry. */
  lemma BehindIsFar(s: seq<Entry>, all: multiset<Entry>, k: nat, j: nat, x: Entry)
    requires Sorted(s) && Covers(multiset(s), all, k) && j < k <= |s|
    requires x in all - multiset(s) || x in s[k..]
    ensures s[j].dist <= x.dist
  {
    if x in s[k..] {
      assert Le(s[j], x);
    } else {
      var w :| IsWitness(w, multiset(s), k, x.dist);
      if x.dist < s[j].dist { NearerSitBefore(s, w, j); }
    }
  }

  lemma PrefixNearest(s: seq<Entry>, all: multiset<Entry>, k: nat, x: Entry, y: Entry)
    requires Sorted(s) && Covers(multiset(s), all, k) && k <= |s|
    requires x in all - multiset(s) || x in s[k..]
    requires y in s[..k]
    ensures y.dist <= x.dist
  {
    hide Sorted, Covers;
    var j :| 0 <= j < k && s[..k][j] == y;
    BehindIsFar(s, all, k, j, x);
  }

  lemma LeftOfSplit(all: multiset<Entry>, p: multiset<Entry>, rest: multiset<Entry>, x: Entry)
    requires p + rest <= all && x in all - p
    ensures x in all - (p + rest) || x in rest
  {
  }

  lemma SplitBag(s: seq<Entry>, k: nat)
    requires k <= |s|
    ensures multiset(s[..k]) + multiset(s[k..]) == multiset(s)
  {
    assert s == s[..k] + s[k..];
  }

  /** The first k of a sorted covering buffer are the k nearest of all. */
  lemma SortedPrefixKeepsBest(s: seq<Entry>, all: multiset<Entry>, k: nat)
    requires Sorted(s) && Covers(multiset(s), all, k) && |all| >= k
    ensures |s| >= k && KeepsBest(multiset(s[..k]), all, k)
  {
    CoverIsLarge(s, all, k);
    assert multiset(s) <= all;
    hide Sorted, Covers;
    SplitBag(s, k);
    var p, rest := multiset(s[..k]), multiset(s[k..]);
    forall x, y | x in all - p && y in p ensures y.dist <= x.dist {
      LeftOfSplit(all, p, rest, x);
      PrefixNearest(s, all, k, x, y);
    }
  }

  lemma CoverIsLarge(s: seq<Entry>, all: multiset<Entry>, k: nat)
    requires Covers(multiset(s), all, k) && |all| >= k
    ensures |s| >= k
  {
    var h := multiset(s);
    assert |h| == |s|;
    if all <= h {
      SubBagIsSmaller(all, h);
    } else {
      var x :| x in all && all[x] > h[x];
      assert x in all - h;
      var w :| IsWitness(w, h, k, x.dist);
      SubBagIsSmaller(w, h);
    }
  }

  lemma PrefixBag(s: seq<Entry>, i: nat)
    requires Sorted(s) && i < |s|
    ensures |multiset(s[..i + 1])| == i + 1 && multiset(s[..i + 1]) <= multiset(s)
    ensures forall z :: z in multiset(s[..i + 1]) ==> z.dist <= s[i].dist
  {
    assert s == s[..i + 1] + s[i + 1..];
    forall z | z in multiset(s[..i + 1]) ensures z.dist <= s[i].dist {
      assert z in s[..i + 1];
    }
  }

  /** Looking at more entries never worsens the i-th nearest distance. */
  lemma MoreNeverWorse(s1: seq<Entry>, s2: seq<Entry>, all: multiset<Entry>, more: multiset<Entry>, k: nat, i: nat)
    requires Sorted(s1) && Sorted(s2) && i < |s1|
    requires KeepsBest(multiset(s1), all, k) && KeepsBest(multiset(s2), all + more, k)
    ensures i < |s2| && s2[i].dist <= s1[i].dist
  {
    var a, h := multiset(s1[..i + 1]), multiset(s2);
    assert |multiset(s1)| == |s1| && |h| == |s2|;
    assert |all + more| == |all| + |more|;
    PrefixBag(s1, i);
    if a <= h {
      if s1[i].dist < s2[i].dist { NearerSitBefore(s2, a, i); }
    } else {
      LeftOutIsFar(a, h, all + more, k, s2[i], s1[i].dist);
    }
  }

  lemma LeftOutIsFar(a: multiset<Entry>, h: multiset<Entry>, all: multiset<Entry>, k: nat, y: Entry, d: real)
    requires a <= all && !(a <= h) && KeepsBest(h, all, k) && y in h
    requires forall z :: z in a ==> z.dist <= d
    ensures y.dist <= d
  {
    var z :| z in a && a[z] > h[z];
    assert z in all - h;
  }

  /** The k nearest distances are determined by the bag, whichever entries win the ties. */
  lemma SameDistances(s1: seq<Entry>, s2: seq<Entry>, all: multiset<Entry>, k: nat)
    requires Sorted(s1) && Sorted(s2)
    requires KeepsBest(multiset(s1), all, k) && KeepsBest(multiset(s2), all, k)
    ensures Dists(s1) == Dists(s2)
  {
    assert |s1| == |multiset(s1)| && |s2| == |multiset(s2)|;
    assert all + multiset{} == all;
    forall i | 0 <= i < |s1| ensures s1[i].dist == s2[i].dist {
      MoreNeverWorse(s1, s2, all, multiset{}, k, i);
      MoreNeverWorse(s2, s1, all, multiset{}, k, i);
    }
  }

  /** Keeping one more entry: fill up to k, then replace the worst by anything strictly nearer. */
  function Offer(kept: seq<Entry>, k: nat, e: Entry): seq<Entry>
    requires 0 < k
  {
    if |kept| < k then Insert(kept, e)
    else if e.dist < kept[|kept| - 1].dist then Insert(kept[..|kept| - 1], e)
    else kept
  }

  function OfferAll(kept: seq<Entry>, k: nat, es: seq<Entry>): seq<Entry>
    requires 0 < k
  {
    if es == [] then kept else Offer(OfferAll(kept, k, es[..|es| - 1]), k, es[|es| - 1])
  }

  lemma {:induction false} OfferAllLength(kept: seq<Entry>, k: nat, es: seq<Entry>)
    requires 0 < k && |kept| <= k
    ensures |OfferAll(kept, k, es)| == (if |kept| + |es| < k then |kept| + |es| else k)
  {
    if es != [] { OfferAllLength(kept, k, es[..|es| - 1]); }
  }

  /** Nothing but the offered entries comes into the buffer. */
  lemma {:induction false} OfferAllWithin(kept: seq<Entry>, k: nat, es: seq<Entry>)
    requires 0 < k
    ensures multiset(OfferAll(kept, k, es)) <= multiset(kept) + multiset(es)
  {
    if es != [] {
      var n := |es| - 1;
      OfferAllWithin(kept, k, es[..n]);
      assert multiset(es[..n]) + multiset{es[n]} == multiset(es) by { assert es == es[..n] + [es[n]]; }
      OfferWithin(OfferAll(kept, k, es[..n]), k, es[n]);
    }
  }

  lemma OfferWithin(kept: seq<Entry>, k: nat, e: Entry)
    requires 0 < k
    ensures multiset(Offer(kept, k, e)) <= multiset(kept) + multiset{e}
  {
    if kept != [] {
      assert kept == kept[..|kept| - 1] + [kept[|kept| - 1]];
    }
  }

  lemma OfferOneMore(kept: seq<Entry>, k: nat, es: seq<Entry>, n: nat)
    requires 0 < k && n < |es|
    ensures OfferAll(kept, k, es[..n + 1]) == Offer(OfferAll(kept, k, es[..n]), k, es[n])
  {
    assert es[..n + 1][..n] == es[..n];
  }

  lemma SortedLast(s: seq<Entry>)
    requires Sorted(s) && s != []
    ensures Sorted(s[..|s| - 1])
    ensures multiset(s[..|s| - 1]) == multiset(s) - multiset{s[|s| - 1]}
    ensures forall y :: y in multiset(s) ==> Le(y, s[|s| - 1])
  {
    var n := |s| - 1;
    assert s == s[..n] + [s[n]];
    forall y | y in multiset(s) ensures Le(y, s[n]) {
      assert y in s;
    }
  }

  lemma OfferSorted(kept: seq<Entry>, k: nat, e: Entry)
    requires 0 < k && Sorted(kept)
    ensures Sorted(Offer(kept, k, e))
  {
    if |kept| < k {
      InsertSorted(kept, e);
    } else {
      SortedLast(kept);
      InsertSorted(kept[..|kept| - 1], e);
    }
  }

  lemma OfferKeepsBest(kept: seq<Entry>, all: multiset<Entry>, k: nat, e: Entry)
    requires 0 < k && Sorted(kept) && KeepsBest(multiset(kept), all, k)
    ensures Sorted(Offer(kept, k, e))
    ensures KeepsBest(multiset(Offer(kept, k, e)), all + multiset{e}, k)
  {
    OfferSorted(kept, k, e);
    var h := multiset(kept);
    assert |h| == |kept|;
    if |kept| < k {
      SmallBagKeepsAll(h, all, k);
      assert (all + multiset{e}) - (h + multiset{e}) == multiset{};
    } else {
      SortedLast(kept);
      var worst := kept[|kept| - 1];
      if e.dist < worst.dist {
        ReplaceWorst(h, all, k, worst, e);
      } else {
        PrunedKeepsBest(h, all, multiset{e}, k);
      }
    }
  }

  lemma SmallBagKeepsAll(h: multiset<Entry>, all: multiset<Entry>, k: nat)
    requires KeepsBest(h, all, k) && |h| < k
    ensures h == all
  {
    assert all == h + (all - h);
    assert |all - h| == 0;
  }

  lemma ReplaceWorst(h: multiset<Entry>, all: multiset<Entry>, k: nat, worst: Entry, e: Entry)
    requires KeepsBest(h, all, k) && |h| == k
    requires worst in h && e.dist < worst.dist && forall y :: y in h ==> y.dist <= worst.dist
    ensures KeepsBest(h - multiset{worst} + multiset{e}, all + multiset{e}, k)
  {
    var h' := h - multiset{worst} + multiset{e};
    assert |h'| == |h|;
    SubBagIsSmaller(h, all);
    assert (all + multiset{e}) - h' == (all - h) + multiset{worst};
  }

  lemma {:induction false} OfferAllKeepsBest(kept: seq<Entry>, all: multiset<Entry>, k: nat, es: seq<Entry>)
    requires 0 < k && Sorted(kept) && KeepsBest(multiset(kept), all, k)
    ensures Sorted(OfferAll(kept, k, es))
    ensures KeepsBest(multiset(OfferAll(kept, k, es)), all + multiset(es), k)
  {
    if es != [] {
      var n := |es| - 1;
      assert es == es[..n] + [es[n]];
      OfferAllKeepsBest(kept, all, k, es[..n]);
      OfferKeepsBest(OfferAll(kept, k, es[..n]), all + multiset(es[..n]), k, es[n]);
      assert all + multiset(es[..n]) + multiset{es[n]} == all + multiset(es);
    }
  }

  /** A full buffer may ignore entries beyond its worst distance. */
  lemma PrunedKeepsBest(h: multiset<Entry>, all: multiset<Entry>, far: multiset<Entry>, k: nat)
    requires KeepsBest(h, all, k) && |h| == k
    requires forall x, y :: x in far && y in h ==> y.dist <= x.dist
    ensures KeepsBest(h, all + far, k)
  {
    assert (all + far) - h == (all - h) + far;
    assert all == h + (all - h);
  }
}
