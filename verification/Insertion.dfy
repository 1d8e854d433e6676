/** Insertion into the paged index as a function of the pages: one step per call of the source's
    recursive routine, and the run of steps an eviction can trigger. */
module Insertion {
  import opened Vectors
  import opened Entries
  import opened Pages

  datatype Outcome =
    | Done(pages: seq<Page>)
    | Evicted(pages: seq<Page>, victim: Slot)

  /** The cases of one call, numbered as in the source. Its cases 7 and 8 cannot arise: 5 and 6 take
      every vector that lies outside the radius of its nearest page. */
  datatype Case =
    | Case1_FirstVector
    | Case2_JoinLoneAnchor(page: nat)
    | Case3_JoinInside(page: nat)
    | Case4_Evict(page: nat, victim: nat)
    | Case5_OpenPage(page: nat)
    | Case6_NewFile

  /** The first slot behind the anchor that attains the page's radius. */
  function VictimFrom(p: Page, i: nat): (r: nat)
    requires i <= |p.slots|
    ensures i <= r <= |p.slots|
    ensures forall j :: i <= j < r ==> p.maxDist != AnchorDist(p.slots, j)
    ensures r < |p.slots| ==> p.maxDist == AnchorDist(p.slots, r)
    decreases |p.slots| - i
  {
    if i == |p.slots| || p.maxDist == AnchorDist(p.slots, i) then i else VictimFrom(p, i + 1)
  }

  lemma VictimExists(p: Page)
    requires |p.slots| >= 2 && p.maxDist == Radius(p.slots)
    ensures 1 <= VictimFrom(p, 1) < |p.slots|
  {
    var i :| 1 <= i < |p.slots| && AnchorDist(p.slots, i) == p.maxDist;
  }

  /** The lowest empty page at or after i. */
  function FirstEmptyFrom(pages: seq<Page>, i: nat): (r: nat)
    requires i <= |pages|
    ensures i <= r <= |pages|
    ensures forall j :: i <= j < r ==> pages[j].slots != []
    ensures r < |pages| ==> pages[r].slots == []
    decreases |pages| - i
  {
    if i == |pages| || pages[i].slots == [] then i else FirstEmptyFrom(pages, i + 1)
  }

  function Tightened(slots: seq<Slot>): Page {
    Page(slots, Radius(slots))
  }

  function NewFile(perFile: nat): (r: seq<Page>)
    ensures |r| == perFile && forall i :: 0 <= i < perFile ==> r[i] == EMPTY_PAGE
  {
    seq(perFile, _ => EMPTY_PAGE)
  }

  /** The vector joins its nearest page when that page is a lone anchor or has it inside its radius; a
      full page gives up its farthest member instead; and a vector outside the radius starts a page of
      its own, in a new file when every page is taken. */
  function Classify(pages: seq<Page>, limit: nat, s: Slot): Case {
    var order := VisitOrder(pages, s.vec);
    if order == [] then Case1_FirstVector
    else
      var best := order[0];
      assert best in order;
      var p := pages[best.id];
      if |p.slots| == 1 then Case2_JoinLoneAnchor(best.id)
      else if best.dist < p.maxDist then
        if |p.slots| + 1 <= limit then Case3_JoinInside(best.id)
        else Case4_Evict(best.id, VictimFrom(p, 1))
      else
        var e := FirstEmptyFrom(pages, 0);
        if e < |pages| then Case5_OpenPage(e) else Case6_NewFile
  }

  ghost predicate CaseFits(pages: seq<Page>, limit: nat, s: Slot, c: Case) {
    match c
    case Case1_FirstVector => 0 < |pages| && pages[0].slots == []
    case Case2_JoinLoneAnchor(i) => i < |pages| && |pages[i].slots| == 1
    case Case3_JoinInside(i) =>
      && i < |pages| && 2 <= |pages[i].slots| < limit
      && Dist(s.vec, pages[i].slots[0].vec) < pages[i].maxDist
    case Case4_Evict(i, v) =>
      && i < |pages| && 1 <= v < |pages[i].slots| && limit <= |pages[i].slots|
      && Dist(s.vec, pages[i].slots[0].vec) < pages[i].maxDist == AnchorDist(pages[i].slots, v)
    case Case5_OpenPage(e) => e < |pages| && pages[e].slots == []
    case Case6_NewFile => forall i :: 0 <= i < |pages| ==> pages[i].slots != []
  }

  function Apply(pages: seq<Page>, perFile: nat, limit: nat, s: Slot, c: Case): Outcome
    requires 0 < perFile && CaseFits(pages, limit, s, c)
  {
    match c
    case Case1_FirstVector => Done(pages[0 := Page([s], pages[0].maxDist)])
    case Case2_JoinLoneAnchor(i) => Done(pages[i := Tightened(pages[i].slots + [s])])
    case Case3_JoinInside(i) => Done(pages[i := Page(pages[i].slots + [s], pages[i].maxDist)])
    case Case4_Evict(i, v) => Evicted(pages[i := Tightened(pages[i].slots[v := s])], pages[i].slots[v])
    case Case5_OpenPage(e) => Done(pages[e := Page([s], pages[e].maxDist)])
    case Case6_NewFile => Done(pages + NewFile(perFile)[0 := Page([s], 0.0)])
  }

  /** One call on pages with tight radii. */
  function Step(pages: seq<Page>, perFile: nat, limit: nat, s: Slot): Outcome
    requires 0 < perFile && CaseFits(pages, limit, s, Classify(pages, limit, s))
  {
    Apply(pages, perFile, limit, s, Classify(pages, limit, s))
  }

  // ---------- What every step keeps ----------

  /** Pages a step may start from: a database with room for two vectors per page. */
  ghost predicate Ready(pages: seq<Page>, dim: nat, capacity: nat, limit: nat, s: Slot) {
    && PagesOk(pages, dim, capacity) && 0 < |pages|
    && 2 <= capacity && limit <= capacity
    && |s.vec| == dim
  }

  lemma VictimFits(pages: seq<Page>, dim: nat, capacity: nat, i: nat)
    requires PagesOk(pages, dim, capacity) && i < |pages| && |pages[i].slots| >= 2
    ensures 1 <= VictimFrom(pages[i], 1) < |pages[i].slots|
  {
    assert PageOk(pages[i], dim, capacity);
    VictimExists(pages[i]);
  }

  lemma ClassifyFits(pages: seq<Page>, dim: nat, capacity: nat, limit: nat, s: Slot)
    requires Ready(pages, dim, capacity, limit, s)
    ensures CaseFits(pages, limit, s, Classify(pages, limit, s))
  {
    hide PagesOk, VisitOrder, Dist, VictimFrom, FirstEmptyFrom;
    var order := VisitOrder(pages, s.vec);
    if order != [] {
      var best := order[0];
      assert best in order;
      if |pages[best.id].slots| != 1 { VictimFits(pages, dim, capacity, best.id); }
    }
  }

  lemma {:induction false} RadiusUpToPrefix(a: seq<Slot>, b: seq<Slot>, n: nat)
    requires n <= |a| && n <= |b| && forall i :: 0 <= i < n ==> a[i] == b[i]
    ensures RadiusUpTo(a, n) == RadiusUpTo(b, n)
  {
    if n > 1 { RadiusUpToPrefix(a, b, n - 1); }
  }

  lemma RadiusInside(slots: seq<Slot>, s: Slot)
    requires slots != [] && Dist(s.vec, slots[0].vec) < Radius(slots)
    ensures Radius(slots + [s]) == Radius(slots)
  {
    RadiusUpToPrefix(slots, slots + [s], |slots|);
  }

  lemma PagesOkUpdate(pages: seq<Page>, dim: nat, capacity: nat, i: nat, p: Page)
    requires PagesOk(pages, dim, capacity) && i < |pages| && PageOk(p, dim, capacity)
    ensures PagesOk(pages[i := p], dim, capacity)
  {
  }

  lemma SingletonOk(s: Slot, dim: nat, capacity: nat)
    requires |s.vec| == dim && 1 <= capacity
    ensures PageOk(Page([s], 0.0), dim, capacity)
  {
  }

  /** A step keeps every radius tight and every page within capacity. */
  lemma StepKeepsOk(pages: seq<Page>, perFile: nat, dim: nat, capacity: nat, limit: nat, s: Slot, c: Case)
    requires 0 < perFile && Ready(pages, dim, capacity, limit, s) && CaseFits(pages, limit, s, c)
    ensures PagesOk(Apply(pages, perFile, limit, s, c).pages, dim, capacity)
  {
    SingletonOk(s, dim, capacity);
    hide Radius;
    match c
    case Case1_FirstVector =>
      EmptyIsZeroed(pages[0], dim, capacity);
      PagesOkUpdate(pages, dim, capacity, 0, Page([s], 0.0));
    case Case2_JoinLoneAnchor(i) =>
      PagesOkUpdate(pages, dim, capacity, i, Tightened(pages[i].slots + [s]));
    case Case3_JoinInside(i) =>
      DistSymmetric(s.vec, pages[i].slots[0].vec);
      RadiusInside(pages[i].slots, s);
      PagesOkUpdate(pages, dim, capacity, i, Page(pages[i].slots + [s], pages[i].maxDist));
    case Case4_Evict(i, v) =>
      PagesOkUpdate(pages, dim, capacity, i, Tightened(pages[i].slots[v := s]));
    case Case5_OpenPage(e) =>
      EmptyIsZeroed(pages[e], dim, capacity);
      PagesOkUpdate(pages, dim, capacity, e, Page([s], 0.0));
    case Case6_NewFile =>
      EmptyPageOk(dim, capacity);
      PagesOkUpdate(NewFile(perFile), dim, capacity, 0, Page([s], 0.0));
  }

  lemma EmptyIsZeroed(p: Page, dim: nat, capacity: nat)
    requires PageOk(p, dim, capacity) && p.slots == []
    ensures p.maxDist == 0.0
  {
  }

  lemma EmptyPageOk(dim: nat, capacity: nat)
    ensures PageOk(EMPTY_PAGE, dim, capacity)
  {
  }

  /** A step stores the new vector and gives up at most its victim. */
  lemma StepConserves(pages: seq<Page>, perFile: nat, limit: nat, s: Slot, c: Case)
    requires 0 < perFile && CaseFits(pages, limit, s, c)
    ensures match Apply(pages, perFile, limit, s, c)
      case Done(pages') => Contents(pages') == Contents(pages) + multiset{s}
      case Evicted(pages', v) => Contents(pages') + multiset{v} == Contents(pages) + multiset{s}
  {
    hide Contents, Radius;
    match c
    case Case1_FirstVector => ReplacePage(pages, 0, Page([s], pages[0].maxDist), s);
    case Case2_JoinLoneAnchor(i) => ReplacePage(pages, i, Tightened(pages[i].slots + [s]), s);
    case Case3_JoinInside(i) => ReplacePage(pages, i, Page(pages[i].slots + [s], pages[i].maxDist), s);
    case Case4_Evict(i, v) => ReplaceSlot(pages, i, v, s);
    case Case5_OpenPage(e) => ReplacePage(pages, e, Page([s], pages[e].maxDist), s);
    case Case6_NewFile =>
      ContentsEmpty(NewFile(perFile));
      ReplacePage(NewFile(perFile), 0, Page([s], 0.0), s);
      ContentsAppend(pages, NewFile(perFile)[0 := Page([s], 0.0)]);
  }

  lemma ReplacePage(pages: seq<Page>, i: nat, p: Page, s: Slot)
    requires i < |pages| && p.slots == pages[i].slots + [s]
    ensures Contents(pages[i := p]) == Contents(pages) + multiset{s}
  {
    hide Contents;
    ContentsUpdate(pages, i, p);
    var was := multiset(pages[i].slots);
    assert multiset(p.slots) == was + multiset{s};
    assert Contents(pages) + (was + multiset{s}) == (Contents(pages) + multiset{s}) + was;
    BagCancel(Contents(pages[i := p]), Contents(pages) + multiset{s}, was);
  }

  lemma ReplaceSlot(pages: seq<Page>, i: nat, v: nat, s: Slot)
    requires i < |pages| && v < |pages[i].slots|
    ensures Contents(pages[i := Tightened(pages[i].slots[v := s])]) + multiset{pages[i].slots[v]}
      == Contents(pages) + multiset{s}
  {
    hide Contents, Radius;
    var p := Tightened(pages[i].slots[v := s]);
    ContentsUpdate(pages, i, p);
    var was, out := multiset(pages[i].slots), multiset{pages[i].slots[v]};
    assert multiset(p.slots) + out == was + multiset{s};
    var now := Contents(pages[i := p]);
    assert (now + out) + was == (now + was) + out;
    assert (Contents(pages) + multiset(p.slots)) + out == Contents(pages) + (multiset(p.slots) + out);
    assert (Contents(pages) + multiset{s}) + was == Contents(pages) + (was + multiset{s});
    BagCancel(now + out, Contents(pages) + multiset{s}, was);
  }
}
