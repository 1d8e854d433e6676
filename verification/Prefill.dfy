/** The greedy prefill as a relation between the vectors handed in and the pages written: round by round
    the first remaining vector becomes an anchor and takes its nearest remaining ones with it. */
module Prefill {
  import opened Vectors
  import opened Entries
  import opened Pages
  import opened TopK
  import opened Heaps

  /** Distances from the first remaining vector to the others, tagged with their positions. */
  function Candidates(r: seq<Slot>): (es: seq<Entry>)
    requires r != []
    ensures |es| == |r| - 1
    ensures forall i :: 0 <= i < |es| ==> es[i] == Entry(Dist(r[0].vec, r[i + 1].vec), i + 1)
  {
    seq(|r| - 1, i requires 0 <= i < |r| - 1 => Entry(Dist(r[0].vec, r[i + 1].vec), i + 1))
  }

  /** The at most m candidates a round takes. */
  function Nearest(r: seq<Slot>, m: nat): seq<Entry>
    requires r != [] && 0 < m
  {
    OfferAll([], m, Candidates(r))
  }

  function Indices(es: seq<Entry>): set<nat> {
    set e | e in es :: e.id
  }

  ghost predicate InRange(r: seq<Slot>, es: seq<Entry>) {
    r != [] && forall i :: 0 <= i < |es| ==>
      0 < es[i].id < |r| && es[i].dist == Dist(r[0].vec, r[es[i].id].vec)
  }

  function Picks(r: seq<Slot>, es: seq<Entry>): (p: seq<Slot>)
    requires forall i :: 0 <= i < |es| ==> es[i].id < |r|
    ensures |p| == |es| && forall i :: 0 <= i < |es| ==> p[i] == r[es[i].id]
  {
    seq(|es|, i requires 0 <= i < |es| => r[es[i].id])
  }

  /** The elements at positions below n outside s, in order. */
  function Without(r: seq<Slot>, s: set<nat>, n: nat): seq<Slot>
    requires n <= |r|
  {
    if n == 0 then [] else if n - 1 in s then Without(r, s, n - 1) else Without(r, s, n - 1) + [r[n - 1]]
  }

  /** What a round leaves for the next. */
  function Rest(r: seq<Slot>, m: nat): seq<Slot>
    requires r != [] && 0 < m
  {
    Without(r, {0} + Indices(Nearest(r, m)), |r|)
  }

  /** The page a round writes: the first vector as anchor, the nearest ones behind it, a tight radius. */
  ghost predicate GreedyPage(r: seq<Slot>, m: nat, p: Page)
    requires r != [] && 0 < m
  {
    && p.slots != [] && p.slots[0] == r[0]
    && InRange(r, Nearest(r, m))
    && multiset(p.slots[1..]) == multiset(Picks(r, Nearest(r, m)))
    && p.maxDist == Radius(p.slots)
  }

  /** Pages written round by round, and what is left after them. */
  ghost predicate GreedyRounds(items: seq<Slot>, m: nat, ps: seq<Page>, rest: seq<Slot>)
    requires 0 < m
    decreases |ps|
  {
    if ps == [] then rest == items
    else items != [] && GreedyPage(items, m, ps[0]) && GreedyRounds(Rest(items, m), m, ps[1..], rest)
  }

  /** A round appends its page to whatever is there and stores its own radius. */
  function Onto(was: Page, g: Page): (r: Page)
    ensures was.slots <= r.slots && r.slots[|was.slots|..] == g.slots && r.maxDist == g.maxDist
  {
    Page(was.slots + g.slots, g.maxDist)
  }

  /** The pages after rounds that were written from the first page on. */
  function Overlay(was: seq<Page>, written: seq<Page>): (r: seq<Page>)
    requires |written| <= |was|
    ensures |r| == |was|
    ensures forall i :: 0 <= i < |r| ==> r[i] == if i < |written| then Onto(was[i], written[i]) else was[i]
  {
    seq(|was|, i requires 0 <= i < |was| => if i < |written| then Onto(was[i], written[i]) else was[i])
  }

  // ---------- One round ----------

  ghost predicate DistinctIds(s: seq<Entry>) {
    forall i, j :: 0 <= i < j < |s| ==> s[i].id != s[j].id
  }

  lemma {:induction false} DistinctOnce(s: seq<Entry>, x: Entry)
    requires DistinctIds(s)
    ensures multiset(s)[x] <= 1
  {
    if s != [] {
      var n := |s| - 1;
      assert s == s[..n] + [s[n]];
      DistinctOnce(s[..n], x);
      if x == s[n] { assert x !in s[..n]; }
    }
  }

  lemma TwiceInBag(s: seq<Entry>, i: nat, j: nat)
    requires i < j < |s| && s[i] == s[j]
    ensures multiset(s)[s[i]] >= 2
  {
    assert s == s[..j] + s[j..];
    assert s[..j][i] in s[..j] && s[j..][0] in s[j..];
  }

  lemma CandidateById(r: seq<Slot>, x: Entry)
    requires r != [] && x in multiset(Candidates(r))
    ensures 0 < x.id < |r| && x == Entry(Dist(r[0].vec, r[x.id].vec), x.id)
  {
    assert x in Candidates(r);
  }

  /** Some of the candidates, each as often as it occurs: positions in range, none twice. */
  lemma SomeCandidates(r: seq<Slot>, es: seq<Entry>)
    requires r != [] && multiset(es) <= multiset(Candidates(r))
    ensures DistinctIds(es) && InRange(r, es)
  {
    forall i | 0 <= i < |es| ensures es[i] in multiset(Candidates(r)) {
      assert es[i] in multiset(es);
    }
    forall i | 0 <= i < |es| ensures 0 < es[i].id < |r| && es[i].dist == Dist(r[0].vec, r[es[i].id].vec) {
      CandidateById(r, es[i]);
    }
    forall i, j | 0 <= i < j < |es| ensures es[i].id != es[j].id {
      if es[i].id == es[j].id {
        CandidateById(r, es[i]);
        CandidateById(r, es[j]);
        TwiceInBag(es, i, j);
        DistinctOnce(Candidates(r), es[i]);
      }
    }
  }

  /** The round takes the nearest of the candidates, each at most once. */
  lemma NearestAreNearest(r: seq<Slot>, m: nat)
    requires r != [] && 0 < m
    ensures Sorted(Nearest(r, m)) && KeepsBest(multiset(Nearest(r, m)), multiset(Candidates(r)), m)
    ensures DistinctIds(Nearest(r, m)) && InRange(r, Nearest(r, m))
  {
    assert KeepsBest(multiset{}, multiset{}, m);
    OfferAllKeepsBest([], multiset{}, m, Candidates(r));
    assert multiset{} + multiset(Candidates(r)) == multiset(Candidates(r));
    SomeCandidates(r, Nearest(r, m));
  }

  /** The bag of the elements at positions below n inside s. */
  function With(r: seq<Slot>, s: set<nat>, n: nat): multiset<Slot>
    requires n <= |r|
  {
    if n == 0 then multiset{} else if n - 1 in s then With(r, s, n - 1) + multiset{r[n - 1]} else With(r, s, n - 1)
  }

  function Outside(r: seq<Slot>, s: set<nat>, n: nat): multiset<Slot>
    requires n <= |r|
  {
    if n == 0 then multiset{}
    else if n - 1 in s then Outside(r, s, n - 1)
    else Outside(r, s, n - 1) + multiset{r[n - 1]}
  }

  lemma {:induction false} WithoutIsOutside(r: seq<Slot>, s: set<nat>, n: nat)
    requires n <= |r|
    ensures multiset(Without(r, s, n)) == Outside(r, s, n)
  {
    if n > 0 { WithoutIsOutside(r, s, n - 1); }
  }

  lemma PrefixBag(r: seq<Slot>, n: nat)
    requires 0 < n <= |r|
    ensures multiset(r[..n]) == multiset(r[..n - 1]) + multiset{r[n - 1]}
  {
    assert r[..n] == r[..n - 1] + [r[n - 1]];
  }

  lemma {:induction false} WithAndOutside(r: seq<Slot>, s: set<nat>, n: nat)
    requires n <= |r|
    ensures With(r, s, n) + Outside(r, s, n) == multiset(r[..n])
  {
    if n > 0 {
      WithAndOutside(r, s, n - 1);
      PrefixBag(r, n);
      Swapped(With(r, s, n - 1), Outside(r, s, n - 1), multiset{r[n - 1]});
      assert With(r, s, n - 1) + (Outside(r, s, n - 1) + multiset{r[n - 1]}) == multiset(r[..n]);
    }
  }

  lemma WithAndWithout(r: seq<Slot>, s: set<nat>)
    ensures With(r, s, |r|) + multiset(Without(r, s, |r|)) == multiset(r)
  {
    WithAndOutside(r, s, |r|);
    WithoutIsOutside(r, s, |r|);
    assert r[..|r|] == r;
  }

  lemma {:induction false} WithSame(r: seq<Slot>, s: set<nat>, t: set<nat>, n: nat)
    requires n <= |r| && forall i: nat :: i < n ==> (i in s <==> i in t)
    ensures With(r, s, n) == With(r, t, n)
  {
    if n > 0 { WithSame(r, s, t, n - 1); }
  }

  lemma {:induction false} WithOneMore(r: seq<Slot>, s: set<nat>, x: nat, n: nat)
    requires x < n <= |r| && x !in s
    ensures With(r, s + {x}, n) == With(r, s, n) + multiset{r[x]}
  {
    if x == n - 1 {
      WithSame(r, s, s + {x}, n - 1);
    } else {
      WithOneMore(r, s, x, n - 1);
      Swapped(With(r, s, n - 1), multiset{r[x]}, multiset{r[n - 1]});
    }
  }

  lemma {:induction false} WithNone(r: seq<Slot>, n: nat)
    requires n <= |r|
    ensures With(r, {}, n) == multiset{}
  {
    if n > 0 { WithNone(r, n - 1); }
  }

  lemma {:induction false} PicksAreWith(r: seq<Slot>, es: seq<Entry>)
    requires DistinctIds(es) && forall i :: 0 <= i < |es| ==> es[i].id < |r|
    ensures multiset(Picks(r, es)) == With(r, Indices(es), |r|)
  {
    if es == [] {
      assert Indices(es) == {};
      WithNone(r, |r|);
    } else {
      var n := |es| - 1;
      var front := es[..n];
      PicksAreWith(r, front);
      assert es == front + [es[n]];
      assert Indices(es) == Indices(front) + {es[n].id};
      WithOneMore(r, Indices(front), es[n].id, |r|);
      assert Picks(r, es) == Picks(r, front) + [r[es[n].id]];
    }
  }

  lemma PageBag(r: seq<Slot>, es: seq<Entry>, p: Page)
    requires InRange(r, es) && DistinctIds(es)
    requires p.slots != [] && p.slots[0] == r[0] && multiset(p.slots[1..]) == multiset(Picks(r, es))
    ensures multiset(p.slots) == With(r, {0} + Indices(es), |r|)
  {
    PicksAreWith(r, es);
    assert 0 !in Indices(es);
    assert Indices(es) + {0} == {0} + Indices(es);
    WithOneMore(r, Indices(es), 0, |r|);
    assert p.slots == [p.slots[0]] + p.slots[1..];
  }

  /** A round neither loses nor repeats a vector. */
  lemma RoundConserves(r: seq<Slot>, m: nat, p: Page)
    requires r != [] && 0 < m && GreedyPage(r, m, p)
    ensures multiset(p.slots) + multiset(Rest(r, m)) == multiset(r)
  {
    NearestAreNearest(r, m);
    hide Nearest, With, Without, Indices, KeepsBest, Sorted;
    PageBag(r, Nearest(r, m), p);
    WithAndWithout(r, {0} + Indices(Nearest(r, m)));
  }

  /** Every round takes m + 1 vectors as long as there are that many. */
  lemma RoundSize(r: seq<Slot>, m: nat, p: Page)
    requires r != [] && 0 < m && GreedyPage(r, m, p)
    ensures |p.slots| == (if m + 1 < |r| then m + 1 else |r|)
    ensures |Rest(r, m)| == |r| - |p.slots|
  {
    RoundConserves(r, m, p);
    OfferAllLength([], m, Candidates(r));
    assert |multiset(p.slots[1..])| == |multiset(Picks(r, Nearest(r, m)))|;
    assert |multiset(p.slots) + multiset(Rest(r, m))| == |p.slots| + |Rest(r, m)|;
  }

  lemma SameBagSameIndices(a: seq<Entry>, b: seq<Entry>)
    requires multiset(a) == multiset(b)
    ensures Indices(a) == Indices(b)
  {
    assert forall x :: x in a <==> x in multiset(a);
    assert forall x :: x in b <==> x in multiset(b);
  }

  lemma SameBagSamePicks(r: seq<Slot>, a: seq<Entry>, b: seq<Entry>)
    requires multiset(a) == multiset(b) && InRange(r, a) && InRange(r, b) && DistinctIds(a) && DistinctIds(b)
    ensures multiset(Picks(r, a)) == multiset(Picks(r, b))
  {
    SameBagSameIndices(a, b);
    PicksAreWith(r, a);
    PicksAreWith(r, b);
  }

  lemma PicksMatchNearest(r: seq<Slot>, m: nat, es: seq<Entry>)
    requires r != [] && 0 < m && multiset(es) == multiset(Nearest(r, m))
    ensures InRange(r, es) && InRange(r, Nearest(r, m))
    ensures multiset(Picks(r, es)) == multiset(Picks(r, Nearest(r, m)))
  {
    hide Nearest, Candidates, KeepsBest, Sorted;
    NearestAreNearest(r, m);
    SomeCandidates(r, es);
    SameBagSamePicks(r, es, Nearest(r, m));
  }

  /** A page filled from the heap is a greedy page, in whatever order the heap holds the picks: its root
      is the radius. */
  lemma HeapPageIsGreedy(r: seq<Slot>, m: nat, es: seq<Entry>)
    requires r != [] && 0 < m && IsHeap(es) && Sort(es) == Nearest(r, m)
    ensures InRange(r, es)
    ensures GreedyPage(r, m, Page([r[0]] + Picks(r, es), if es == [] then 0.0 else es[0].dist))
  {
    assert multiset(es) == multiset(Nearest(r, m));
    hide IsHeap, Sort, Nearest, Radius, Picks;
    PicksMatchNearest(r, m, es);
    var slots := [r[0]] + Picks(r, es);
    assert slots[1..] == Picks(r, es);
    RootIsRadius(r, es);
  }

  lemma RootIsRadius(r: seq<Slot>, es: seq<Entry>)
    requires InRange(r, es) && IsHeap(es)
    ensures Radius([r[0]] + Picks(r, es)) == (if es == [] then 0.0 else es[0].dist)
  {
    var slots := [r[0]] + Picks(r, es);
    forall i | 0 < i < |slots| ensures AnchorDist(slots, i) == es[i - 1].dist {
      DistSymmetric(r[0].vec, slots[i].vec);
    }
    if es != [] {
      forall i | 1 <= i < |slots| ensures AnchorDist(slots, i) <= es[0].dist {
        RootDominates(es, i - 1);
      }
      assert AnchorDist(slots, 1) == es[0].dist;
    }
  }

  // ---------- All rounds ----------

  lemma TailOfSnoc<T>(s: seq<T>, x: T)
    requires s != []
    ensures (s + [x])[0] == s[0] && (s + [x])[1..] == s[1..] + [x]
  {
  }

  lemma {:induction false} OneMoreRound(items: seq<Slot>, m: nat, ps: seq<Page>, r: seq<Slot>, p: Page)
    requires 0 < m && GreedyRounds(items, m, ps, r) && r != [] && GreedyPage(r, m, p)
    ensures GreedyRounds(items, m, ps + [p], Rest(r, m))
    decreases |ps|
  {
    hide GreedyPage, Rest;
    if ps == [] {
      assert [] + [p] == [p] && [p][1..] == [];
    } else {
      TailOfSnoc(ps, p);
      OneMoreRound(Rest(items, m), m, ps[1..], r, p);
    }
  }

  /** The rounds partition their input: each vector is on exactly one page, exactly once, or left. */
  lemma {:induction false} RoundsConserve(items: seq<Slot>, m: nat, ps: seq<Page>, rest: seq<Slot>)
    requires 0 < m && GreedyRounds(items, m, ps, rest)
    ensures Contents(ps) + multiset(rest) == multiset(items)
    decreases |ps|
  {
    assert Contents([]) == multiset{};
    hide Contents, GreedyPage, Rest;
    if ps != [] {
      var p, tail := ps[0], ps[1..];
      RoundsConserve(Rest(items, m), m, tail, rest);
      RoundConserves(items, m, p);
      assert ps == [p] + tail;
      ContentsAppend([p], tail);
      ContentsOfOne(p);
      AddAssociates(multiset(p.slots), Contents(tail), multiset(rest));
    }
  }

  lemma AddAssociates<T>(a: multiset<T>, b: multiset<T>, c: multiset<T>)
    ensures (a + b) + c == a + (b + c)
  {
  }

  lemma ContentsOfOne(p: Page)
    ensures Contents([p]) == multiset(p.slots)
  {
    assert [p][..0] == [];
  }

  lemma GreedyPageOk(r: seq<Slot>, m: nat, p: Page, dim: nat, capacity: nat)
    requires r != [] && 0 < m && GreedyPage(r, m, p) && m + 1 <= capacity
    requires forall i :: 0 <= i < |r| ==> |r[i].vec| == dim
    ensures PageOk(p, dim, capacity)
    ensures forall i :: 0 <= i < |Rest(r, m)| ==> |Rest(r, m)[i].vec| == dim
  {
    RoundSize(r, m, p);
    RoundConserves(r, m, p);
    forall x | x in multiset(r) ensures |x.vec| == dim {
      assert x in r;
    }
    assert p.maxDist == Radius(p.slots);
    hide GreedyPage, Rest;
    forall i | 0 <= i < |p.slots| ensures |p.slots[i].vec| == dim {
      assert p.slots[i] in multiset(p.slots) + multiset(Rest(r, m));
    }
    forall i | 0 <= i < |Rest(r, m)| ensures |Rest(r, m)[i].vec| == dim {
      assert Rest(r, m)[i] in multiset(p.slots) + multiset(Rest(r, m));
    }
  }

  lemma {:induction false} GreedyPagesOk(items: seq<Slot>, m: nat, ps: seq<Page>, rest: seq<Slot>, dim: nat,
                                         capacity: nat)
    requires 0 < m && m + 1 <= capacity && GreedyRounds(items, m, ps, rest)
    requires forall i :: 0 <= i < |items| ==> |items[i].vec| == dim
    ensures PagesOk(ps, dim, capacity)
    decreases |ps|
  {
    hide GreedyPage, Rest, PageOk;
    if ps != [] {
      GreedyPageOk(items, m, ps[0], dim, capacity);
      GreedyPagesOk(Rest(items, m), m, ps[1..], rest, dim, capacity);
      assert forall i :: 1 <= i < |ps| ==> ps[i] == ps[1..][i - 1];
    }
  }

  // ---------- The pages written on ----------

  /** Nothing is lost, even where pages were occupied. */
  lemma {:induction false} OverlayConserves(was: seq<Page>, written: seq<Page>)
    requires |written| <= |was|
    ensures Contents(Overlay(was, written)) == Contents(was) + Contents(written)
    decreases |written|
  {
    hide Contents;
    if written == [] {
      assert Overlay(was, []) == was;
      assert Contents([]) == multiset{} by { ContentsEmpty([]); }
    } else {
      var n := |written| - 1;
      var before := Overlay(was, written[..n]);
      OverlayConserves(was, written[..n]);
      assert Overlay(was, written) == before[n := Onto(was[n], written[n])];
      ContentsUpdate(before, n, Onto(was[n], written[n]));
      ContentsSnoc(written[..n], written[n]);
      assert written == written[..n] + [written[n]];
      BagCancel(Contents(Overlay(was, written)), Contents(was) + Contents(written), multiset(was[n].slots));
    }
  }

  /** Pages that were empty end up as their rounds wrote them. */
  lemma OverlayOnEmpty(was: seq<Page>, written: seq<Page>, dim: nat, capacity: nat)
    requires |written| <= |was| && PagesOk(was, dim, capacity) && PagesOk(written, dim, capacity)
    requires forall i :: 0 <= i < |written| ==> was[i].slots == []
    ensures Overlay(was, written)[..|written|] == written && PagesOk(Overlay(was, written), dim, capacity)
  {
    hide PageOk;
    forall i | 0 <= i < |written| ensures Overlay(was, written)[i] == written[i] {
      assert was[i].slots + written[i].slots == written[i].slots;
    }
  }

  /** Whatever is left to write, a round leaves the page valid. */
  ghost predicate RoundsKeepPage(p: Page, m: nat, dim: nat, capacity: nat)
    requires 0 < m
  {
    forall r: seq<Slot>, g: Page ::
      r != [] && (forall i :: 0 <= i < |r| ==> |r[i].vec| == dim) && GreedyPage(r, m, g) ==>
        PageOk(Onto(p, g), dim, capacity)
  }

  lemma {:induction false} FirstCoordinate(x: Vec, y: Vec, n: nat)
    requires 0 < n <= |x| == |y| && x[0] == y[0] + 1.0
    ensures SqDistUpTo(x, y, n) >= 1.0
  {
    if n > 1 {
      FirstCoordinate(x, y, n - 1);
    } else {
      assert SqDistUpTo(x, y, 1) == SqDistUpTo(x, y, 0) + (x[0] - y[0]) * (x[0] - y[0]);
    }
  }

  /** A lone vector written on an occupied page gets no share in the stored radius. */
  lemma OccupiedPageSpoilt(p: Page, m: nat, dim: nat, capacity: nat)
    requires 0 < dim && 0 < m && PageOk(p, dim, capacity) && p.slots != []
    ensures !RoundsKeepPage(p, m, dim, capacity)
  {
    var a := p.slots[0].vec;
    var v := a[0 := a[0] + 1.0];
    var r, g := [Slot(0, v)], Page([Slot(0, v)], 0.0);
    LoneRound(r, m);
    FirstCoordinate(v, a, dim);
    var slots := Onto(p, g).slots;
    assert AnchorDist(slots, |p.slots|) >= 1.0;
    assert Radius(slots) >= AnchorDist(slots, |p.slots|);
    assert !PageOk(Onto(p, g), dim, capacity);
  }

  lemma LoneRound(r: seq<Slot>, m: nat)
    requires |r| == 1 && 0 < m
    ensures GreedyPage(r, m, Page(r, 0.0))
  {
    assert Candidates(r) == [];
  }

  /** The source does not check that the pages it writes on are empty. A round leaves a valid page valid, for
      every input, if and only if the page was empty. */
  lemma RoundsKeepPageIff(p: Page, m: nat, dim: nat, capacity: nat)
    requires 0 < dim && 0 < m && m + 1 <= capacity && PageOk(p, dim, capacity)
    ensures RoundsKeepPage(p, m, dim, capacity) <==> p.slots == []
  {
    if p.slots == [] {
      forall r: seq<Slot>, g: Page
        | r != [] && (forall i :: 0 <= i < |r| ==> |r[i].vec| == dim) && GreedyPage(r, m, g)
        ensures PageOk(Onto(p, g), dim, capacity)
      {
        GreedyPageOk(r, m, g, dim, capacity);
        assert p.slots + g.slots == g.slots;
      }
    } else {
      OccupiedPageSpoilt(p, m, dim, capacity);
    }
  }

  // ---------- The loop ----------

  /** What holds between two rounds of the prefill loop. */
  ghost predicate Between(items: seq<Slot>, limit: nat, was: seq<Page>, pages: seq<Page>, written: seq<Page>,
                          r: seq<Slot>, dim: nat)
    requires 2 <= limit
  {
    && |written| <= |was| && pages == Overlay(was, written)
    && GreedyRounds(items, limit - 1, written, r)
    && (r != [] ==> |r| + |written| * limit == |items|)
    && (forall j :: 0 <= j < |r| ==> |r[j].vec| == dim)
  }

  lemma RoundDone(items: seq<Slot>, limit: nat, was: seq<Page>, pages: seq<Page>, written: seq<Page>, r: seq<Slot>,
                  g: Page, dim: nat)
    requires 2 <= limit && Between(items, limit, was, pages, written, r, dim)
    requires r != [] && |written| < |was| && GreedyPage(r, limit - 1, g)
    ensures |Rest(r, limit - 1)| < |r|
    ensures var i := |written|;
      Between(items, limit, was, pages[i := Onto(pages[i], g)], written + [g], Rest(r, limit - 1), dim)
  {
    hide GreedyRounds, GreedyPage, Rest, PageOk, Onto;
    RoundSize(r, limit - 1, g);
    GreedyPageOk(r, limit - 1, g, dim, limit);
    OneMoreRound(items, limit - 1, written, r, g);
    assert (|written| + 1) * limit == |written| * limit + limit;
    assert Overlay(was, written + [g]) == pages[|written| := Onto(pages[|written|], g)];
  }

  lemma NoRoundYet(items: seq<Slot>, limit: nat, pages: seq<Page>, dim: nat)
    requires 2 <= limit && forall j :: 0 <= j < |items| ==> |items[j].vec| == dim
    ensures Between(items, limit, pages, pages, [], items, dim)
  {
    assert Overlay(pages, []) == pages;
  }
}
