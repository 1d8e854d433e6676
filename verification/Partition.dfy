/** The greedy prefill as a partition of the input positions: which vector anchors each page, and which ones
    go with it. */
module Partition {
  import opened Vectors
  import opened Entries
  import opened Pages
  import opened TopK
  import opened Prefill
  import opened Ties

  ghost predicate Ascending(pos: seq<nat>) {
    forall i, j :: 0 <= i < j < |pos| ==> pos[i] < pos[j]
  }

  // ---------- What a round leaves, in order ----------

  /** The positions below n outside s, in order. */
  function PositionsLeft(pos: seq<nat>, s: set<nat>, n: nat): seq<nat>
    requires n <= |pos|
  {
    if n == 0 then []
    else if n - 1 in s then PositionsLeft(pos, s, n - 1)
    else PositionsLeft(pos, s, n - 1) + [pos[n - 1]]
  }

  lemma {:induction false} PositionsLeftHold(pos: seq<nat>, s: set<nat>, n: nat)
    requires n <= |pos| && Ascending(pos)
    ensures Ascending(PositionsLeft(pos, s, n))
    ensures forall x :: x in PositionsLeft(pos, s, n) <==> exists j: nat :: j < n && j !in s && pos[j] == x
  {
    if n > 0 {
      PositionsLeftHold(pos, s, n - 1);
      var before := PositionsLeft(pos, s, n - 1);
      forall i | 0 <= i < |before| ensures before[i] < pos[n - 1] {
        assert before[i] in before;
        var j: nat :| j < n - 1 && j !in s && pos[j] == before[i];
      }
    }
  }

  /** r lists the items at the positions pos. */
  ghost predicate Lists(items: seq<Slot>, pos: seq<nat>, r: seq<Slot>) {
    |pos| == |r| && Ascending(pos) && forall j :: 0 <= j < |pos| ==> pos[j] < |items| && r[j] == items[pos[j]]
  }

  lemma {:induction false} WithoutLists(items: seq<Slot>, pos: seq<nat>, r: seq<Slot>, s: set<nat>, n: nat)
    requires Lists(items, pos, r) && n <= |r|
    ensures |Without(r, s, n)| == |PositionsLeft(pos, s, n)|
    ensures forall j :: 0 <= j < |PositionsLeft(pos, s, n)| ==>
      PositionsLeft(pos, s, n)[j] < |items| && Without(r, s, n)[j] == items[PositionsLeft(pos, s, n)[j]]
  {
    if n > 0 { WithoutLists(items, pos, r, s, n - 1); }
  }

  /** The positions a round takes among the remaining vectors. */
  function TakenBy(r: seq<Slot>, m: nat): set<nat>
    requires r != [] && 0 < m
  {
    {0} + Indices(Nearest(r, m))
  }

  function Identity(n: nat): (pos: seq<nat>)
    ensures |pos| == n && forall i :: 0 <= i < n ==> pos[i] == i
  {
    seq(n, i => i)
  }

  /** What a round leaves are the vectors it did not take, each once, in the order in which they came. */
  lemma RestInOrder(r: seq<Slot>, m: nat) returns (pos: seq<nat>)
    requires r != [] && 0 < m
    ensures Lists(r, pos, Rest(r, m))
    ensures forall x: nat :: x in pos <==> x < |r| && x != 0 && forall e :: e in Nearest(r, m) ==> e.id != x
  {
    var all := Identity(|r|);
    pos := PositionsLeft(all, TakenBy(r, m), |r|);
    hide Nearest, Without, PositionsLeft;
    PositionsLeftHold(all, TakenBy(r, m), |r|);
    WithoutLists(r, all, r, TakenBy(r, m), |r|);
    forall x: nat
      ensures x in pos <==> x < |r| && x != 0 && forall e :: e in Nearest(r, m) ==> e.id != x
    {
      assert x < |r| ==> all[x] == x;
    }
  }

  // ---------- What a round takes ----------

  /** Seen from the item at a, the one at x is nearer than the one at y, or as near and earlier. */
  ghost predicate Nearer(items: seq<Slot>, a: nat, x: nat, y: nat)
    requires a < |items| && x < |items| && y < |items|
  {
    var d, d' := Dist(items[a].vec, items[x].vec), Dist(items[a].vec, items[y].vec);
    d < d' || (d == d' && x < y)
  }

  /** With the positions in gone on earlier pages, page p takes the positions in t. Its anchor is the lowest position
      left; it takes up to m more, the nearest to the anchor that are left; its radius is tight. */
  ghost predicate Takes(items: seq<Slot>, m: nat, gone: set<nat>, t: set<nat>, a: nat, p: Page) {
    && a < |items| && a in t && t !! gone && (forall i: nat :: i < a ==> i in gone)
    && (forall x :: x in t ==> x < |items|)
    && p.slots != [] && p.slots[0] == items[a] && multiset(p.slots) == With(items, t, |items|)
    && (forall x, y: nat :: x in t && x != a && y < |items| && y !in gone && y !in t ==> Nearer(items, a, x, y))
    && |p.slots| <= m + 1 && (|p.slots| == m + 1 || forall i: nat :: i < |items| ==> i in gone || i in t)
    && p.maxDist == Radius(p.slots)
  }

  function At(pos: seq<nat>, s: set<nat>, n: nat): (t: set<nat>)
    requires n <= |pos|
    ensures forall x :: x in t <==> exists j: nat :: j < n && j in s && pos[j] == x
  {
    if n == 0 then {} else if n - 1 in s then At(pos, s, n - 1) + {pos[n - 1]} else At(pos, s, n - 1)
  }

  lemma {:induction false} TakenBag(items: seq<Slot>, pos: seq<nat>, r: seq<Slot>, s: set<nat>, n: nat)
    requires Lists(items, pos, r) && n <= |r|
    ensures With(items, At(pos, s, n), |items|) == With(r, s, n)
  {
    if n == 0 {
      WithNone(items, |items|);
    } else {
      TakenBag(items, pos, r, s, n - 1);
      if n - 1 in s {
        hide With;
        WithOneMore(items, At(pos, s, n - 1), pos[n - 1], |items|);
        WithTaken(r, s, n);
      }
    }
  }

  lemma WithTaken(r: seq<Slot>, s: set<nat>, n: nat)
    requires 0 < n <= |r| && n - 1 in s
    ensures With(r, s, n) == With(r, s, n - 1) + multiset{r[n - 1]}
  {
  }

  lemma CandidateAt(r: seq<Slot>, y: nat)
    requires r != [] && 0 < y < |r|
    ensures Entry(Dist(r[0].vec, r[y].vec), y) in Candidates(r)
  {
    assert Candidates(r)[y - 1] == Entry(Dist(r[0].vec, r[y].vec), y);
  }

  lemma PrefixIsFirst(all: seq<Entry>, near: seq<Entry>, e: Entry, f: Entry)
    requires Sorted(all) && near <= all && e in near && f in all && f !in near
    ensures Le(e, f)
  {
    var i :| 0 <= i < |near| && near[i] == e;
    var j :| 0 <= j < |all| && all[j] == f;
    assert forall n :: 0 <= n < |near| ==> all[n] == near[n];
  }

  lemma NearestIsPrefix(r: seq<Slot>, m: nat)
    requires r != [] && 0 < m
    ensures Nearest(r, m) <= Sort(Candidates(r))
    ensures forall e :: e in Nearest(r, m) ==> 0 < e.id < |r| && e.dist == Dist(r[0].vec, r[e.id].vec)
  {
    NearestIsSortedPrefix(r, m);
    NearestAreNearest(r, m);
    hide Sort, Nearest, Candidates;
  }

  lemma NotTaken(r: seq<Slot>, m: nat, y: nat) returns (f: Entry)
    requires r != [] && 0 < m && 0 < y < |r| && y !in Indices(Nearest(r, m))
    ensures f == Entry(Dist(r[0].vec, r[y].vec), y) && f in Sort(Candidates(r)) && f !in Nearest(r, m)
  {
    f := Entry(Dist(r[0].vec, r[y].vec), y);
    CandidateAt(r, y);
    assert f in multiset(Sort(Candidates(r)));
    hide Sort, Nearest, Candidates;
  }

  lemma TakenEntry(r: seq<Slot>, m: nat, x: nat) returns (e: Entry)
    requires r != [] && 0 < m && x in Indices(Nearest(r, m))
    ensures e in Nearest(r, m) && e.id == x
  {
    hide Nearest;
    e :| e in Nearest(r, m) && e.id == x;
  }

  lemma NearerByEntries(r: seq<Slot>, e: Entry, f: Entry)
    requires 0 < e.id < |r| && 0 < f.id < |r| && e.id != f.id && Le(e, f)
    requires e.dist == Dist(r[0].vec, r[e.id].vec) && f.dist == Dist(r[0].vec, r[f.id].vec)
    ensures Nearer(r, 0, e.id, f.id)
  {
  }

  /** A remaining vector that was not taken is behind every one that was. */
  lemma TakenAreNearer(r: seq<Slot>, m: nat, x: nat, y: nat)
    requires r != [] && 0 < m && x in Indices(Nearest(r, m)) && 0 < y < |r| && y !in Indices(Nearest(r, m))
    ensures x < |r| && Nearer(r, 0, x, y)
  {
    hide *;
    NearestIsPrefix(r, m);
    var f := NotTaken(r, m, y);
    var e := TakenEntry(r, m, x);
    PrefixIsFirst(Sort(Candidates(r)), Nearest(r, m), e, f);
    NearerByEntries(r, e, f);
  }

  lemma AllTaken(r: seq<Slot>, m: nat, y: nat)
    requires r != [] && 0 < m && |r| <= m + 1 && y < |r|
    ensures y in TakenBy(r, m)
  {
    if y > 0 {
      NearestIsSortedPrefix(r, m);
      CandidateAt(r, y);
      var f := Entry(Dist(r[0].vec, r[y].vec), y);
      assert f in multiset(Candidates(r));
      assert Nearest(r, m) == Sort(Candidates(r));
      assert f in Nearest(r, m);
    }
  }

  /** gone are the positions that are not in pos. */
  ghost predicate Gone(items: seq<Slot>, pos: seq<nat>, gone: set<nat>) {
    forall i: nat :: i < |items| ==> (i in gone <==> i !in pos)
  }

  lemma RoundBag(items: seq<Slot>, m: nat, pos: seq<nat>, r: seq<Slot>, p: Page)
    requires Lists(items, pos, r) && r != [] && 0 < m && GreedyPage(r, m, p)
    ensures multiset(p.slots) == With(items, At(pos, TakenBy(r, m), |r|), |items|)
  {
    NearestAreNearest(r, m);
    hide Nearest, With, At, Indices, KeepsBest, Sorted;
    PageBag(r, Nearest(r, m), p);
    TakenBag(items, pos, r, TakenBy(r, m), |r|);
  }

  lemma RoundNearer(items: seq<Slot>, m: nat, pos: seq<nat>, r: seq<Slot>, gone: set<nat>, x: nat, y: nat)
    requires Lists(items, pos, r) && r != [] && 0 < m && Gone(items, pos, gone)
    requires x in At(pos, TakenBy(r, m), |r|) && x != pos[0] && y < |items| && y !in gone
    requires y !in At(pos, TakenBy(r, m), |r|)
    ensures x < |items| && Nearer(items, pos[0], x, y)
  {
    hide Nearest, Indices;
    var j: nat :| j < |r| && j in TakenBy(r, m) && pos[j] == x;
    var k :| 0 <= k < |pos| && pos[k] == y;
    assert k !in TakenBy(r, m);
    TakenAreNearer(r, m, j, k);
    assert j < k ==> pos[j] < pos[k];
  }

  lemma RoundTakes(items: seq<Slot>, m: nat, pos: seq<nat>, r: seq<Slot>, gone: set<nat>, p: Page)
    requires Lists(items, pos, r) && r != [] && 0 < m && GreedyPage(r, m, p) && Gone(items, pos, gone)
    ensures Takes(items, m, gone, At(pos, TakenBy(r, m), |r|), pos[0], p)
  {
    var t := At(pos, TakenBy(r, m), |r|);
    RoundBag(items, m, pos, r, p);
    RoundSize(r, m, p);
    hide Nearest, With, Indices, Rest, Nearer, InRange, Radius;
    forall x, y: nat | x in t && x != pos[0] && y < |items| && y !in gone && y !in t
      ensures Nearer(items, pos[0], x, y)
    {
      RoundNearer(items, m, pos, r, gone, x, y);
    }
    if |p.slots| != m + 1 {
      forall i: nat | i < |items| && i !in gone ensures i in t {
        var k :| 0 <= k < |pos| && pos[k] == i;
        AllTaken(r, m, k);
      }
    }
  }

  // ---------- All rounds ----------

  function Together(taken: seq<set<nat>>, n: nat): set<nat>
    requires n <= |taken|
  {
    if n == 0 then {} else Together(taken, n - 1) + taken[n - 1]
  }

  lemma {:induction false} TogetherCons(t: set<nat>, taken: seq<set<nat>>, n: nat)
    requires n <= |taken|
    ensures Together([t] + taken, n + 1) == t + Together(taken, n)
  {
    if n > 0 { TogetherCons(t, taken, n - 1); }
  }

  /** The positions left after a round. */
  lemma RoundLeaves(items: seq<Slot>, m: nat, pos: seq<nat>, r: seq<Slot>, gone: set<nat>)
    requires Lists(items, pos, r) && r != [] && 0 < m && Gone(items, pos, gone)
    ensures var s := TakenBy(r, m);
      Lists(items, PositionsLeft(pos, s, |r|), Rest(r, m))
      && Gone(items, PositionsLeft(pos, s, |r|), gone + At(pos, s, |r|))
  {
    var s := TakenBy(r, m);
    PositionsLeftHold(pos, s, |r|);
    WithoutLists(items, pos, r, s, |r|);
    hide Nearest, Indices, Without, PositionsLeft, At;
    forall i: nat | i < |items| ensures i in gone + At(pos, s, |r|) <==> i !in PositionsLeft(pos, s, |r|) {
      if i in pos {
        var k :| 0 <= k < |pos| && pos[k] == i;
        assert forall j: nat :: j < |r| && pos[j] == i ==> j == k;
      }
    }
  }

  /** Page after page takes its positions, with those in gone taken before. */
  ghost predicate AllTake(items: seq<Slot>, m: nat, gone: set<nat>, taken: seq<set<nat>>, anchors: seq<nat>,
                          ps: seq<Page>)
  {
    && |taken| == |anchors| == |ps|
    && forall p :: 0 <= p < |ps| ==> Takes(items, m, gone + Together(taken, p), taken[p], anchors[p], ps[p])
  }

  lemma FirstRound(r: seq<Slot>, m: nat, ps: seq<Page>, rest: seq<Slot>)
    requires 0 < m && ps != [] && GreedyRounds(r, m, ps, rest)
    ensures r != [] && GreedyPage(r, m, ps[0]) && GreedyRounds(Rest(r, m), m, ps[1..], rest)
    ensures ps == [ps[0]] + ps[1..]
  {
    hide GreedyPage, Rest;
  }

  lemma NobodyTakes(items: seq<Slot>, m: nat, gone: set<nat>)
    ensures AllTake(items, m, gone, [], [], [])
  {
  }

  lemma {:induction false} RoundsTake(items: seq<Slot>, m: nat, pos: seq<nat>, r: seq<Slot>, gone: set<nat>,
                                      ps: seq<Page>, rest: seq<Slot>)
      returns (taken: seq<set<nat>>, anchors: seq<nat>)
    requires 0 < m && Lists(items, pos, r) && Gone(items, pos, gone) && GreedyRounds(r, m, ps, rest)
    ensures AllTake(items, m, gone, taken, anchors, ps)
    decreases |ps|
  {
    assert |pos| == |r|;
    hide *;
    if ps == [] {
      taken, anchors := [], [];
      NobodyTakes(items, m, gone);
    } else {
      FirstRound(r, m, ps, rest);
      var t := At(pos, TakenBy(r, m), |r|);
      RoundTakes(items, m, pos, r, gone, ps[0]);
      RoundLeaves(items, m, pos, r, gone);
      var left := PositionsLeft(pos, TakenBy(r, m), |r|);
      taken, anchors := RoundsTake(items, m, left, Rest(r, m), gone + t, ps[1..], rest);
      RoundsJoin(items, m, gone, t, pos[0], ps[0], taken, anchors, ps[1..]);
      taken, anchors := [t] + taken, [pos[0]] + anchors;
    }
  }

  lemma JoinAt(items: seq<Slot>, m: nat, gone: set<nat>, t: set<nat>, taken: seq<set<nat>>, anchors: seq<nat>,
               ps: seq<Page>, p: nat)
    requires p < |ps| && AllTake(items, m, gone + t, taken, anchors, ps)
    ensures Takes(items, m, gone + Together([t] + taken, p + 1), taken[p], anchors[p], ps[p])
  {
    hide Takes;
    TogetherCons(t, taken, p);
    assert gone + (t + Together(taken, p)) == gone + t + Together(taken, p);
  }

  lemma FirstTakes(items: seq<Slot>, m: nat, gone: set<nat>, t: set<nat>, a: nat, page: Page, taken: seq<set<nat>>)
    requires Takes(items, m, gone, t, a, page)
    ensures Takes(items, m, gone + Together([t] + taken, 0), t, a, page)
  {
    assert gone + Together([t] + taken, 0) == gone;
    hide Takes;
  }

  lemma RoundsJoin(items: seq<Slot>, m: nat, gone: set<nat>, t: set<nat>, a: nat, page: Page, taken: seq<set<nat>>,
                   anchors: seq<nat>, ps: seq<Page>)
    requires Takes(items, m, gone, t, a, page) && AllTake(items, m, gone + t, taken, anchors, ps)
    ensures AllTake(items, m, gone, [t] + taken, [a] + anchors, [page] + ps)
  {
    hide Takes, Together;
    var taken', anchors', ps' := [t] + taken, [a] + anchors, [page] + ps;
    forall p | 0 <= p < |ps'| ensures Takes(items, m, gone + Together(taken', p), taken'[p], anchors'[p], ps'[p]) {
      if p == 0 {
        FirstTakes(items, m, gone, t, a, page, taken);
      } else {
        JoinAt(items, m, gone, t, taken, anchors, ps, p - 1);
      }
    }
  }

  lemma NothingGone(items: seq<Slot>)
    ensures Lists(items, Identity(|items|), items) && Gone(items, Identity(|items|), {})
  {
    forall i: nat | i < |items| ensures i in Identity(|items|) {
      assert Identity(|items|)[i] == i;
    }
  }

  /** A prefill in full: each page takes positions no earlier page took; its anchor is the lowest position left, and
      with it go the m nearest of what is left, ties broken towards the lower position, or all that is left. */
  lemma GreedyPartition(items: seq<Slot>, m: nat, ps: seq<Page>, rest: seq<Slot>)
      returns (taken: seq<set<nat>>, anchors: seq<nat>)
    requires 0 < m && GreedyRounds(items, m, ps, rest)
    ensures |taken| == |anchors| == |ps|
    ensures forall p :: 0 <= p < |ps| ==> Takes(items, m, Together(taken, p), taken[p], anchors[p], ps[p])
  {
    NothingGone(items);
    taken, anchors := RoundsTake(items, m, Identity(|items|), items, {}, ps, rest);
    hide GreedyRounds, Takes, Together;
    forall p | 0 <= p < |ps| ensures Takes(items, m, Together(taken, p), taken[p], anchors[p], ps[p]) {
      assert {} + Together(taken, p) == Together(taken, p);
    }
  }
}
