/** How many vectors a call may ask a page to take: the density is the caller's, and nothing in an
    insertion compares it with the room of a page. */
module FillLimit {
  import opened Vectors
  import opened Entries
  import opened Pages
  import opened Insertion
  import opened LineIndex

  /** Every insertion into a valid database leaves every page within its capacity. */
  ghost predicate NeverOverfills(perFile: nat, capacity: nat, limit: nat)
    requires 0 < perFile
  {
    forall pages: seq<Page>, dim: nat, s: Slot ::
      && PagesOk(pages, dim, capacity) && 0 < |pages| && |s.vec| == dim
      && CaseFits(pages, limit, s, Classify(pages, limit, s)) ==>
        PagesOk(Step(pages, perFile, limit, s).pages, dim, capacity)
  }

  lemma LineFitsOne(capacity: nat) returns (pages: seq<Page>, order: seq<Entry>)
    requires 2 <= capacity
    ensures pages == [LinePage(0.0, 10.0, capacity)] && PagesOk(pages, 1, capacity)
    ensures order == VisitOrder(pages, [1.0]) == [Entry(1.0, 0)]
  {
    pages := [LinePage(0.0, 10.0, capacity)];
    LinePageOk(0.0, 10.0, capacity, capacity);
    DistOf(1.0, 0.0);
    order := VisitOrder(pages, [1.0]);
    assert AnchorEntriesUpTo(pages, [1.0], 1) == AnchorEntriesUpTo(pages, [1.0], 0) + [Entry(1.0, 0)];
    SortedUnique(order, [Entry(1.0, 0)]);
  }

  /** Beyond its capacity a page takes one vector more, as long as the limit lets it. */
  lemma FullPageTakesMore(perFile: nat, capacity: nat, limit: nat)
    requires 0 < perFile && 2 <= capacity < limit
    ensures !NeverOverfills(perFile, capacity, limit)
  {
    var pages, order := LineFitsOne(capacity);
    var s := Slot(7, [1.0]);
    DistOf(1.0, 0.0);
    assert Spread(0.0, 10.0, capacity) == 100.0;
    assert Classify(pages, limit, s) == Case3_JoinInside(0);
    var r := Step(pages, perFile, limit, s).pages;
    assert |r[0].slots| == capacity + 1 && !PageOk(r[0], 1, capacity);
    assert !PagesOk(r, 1, capacity);
    assert |s.vec| == 1 && CaseFits(pages, limit, s, Classify(pages, limit, s));
    hide Step, Classify, CaseFits, PagesOk, LinePage;
  }

  /** Insertions keep every page within its capacity if and only if the limit of the call does. */
  lemma NeverOverfillsIff(perFile: nat, capacity: nat, limit: nat)
    requires 0 < perFile && 2 <= capacity
    ensures NeverOverfills(perFile, capacity, limit) <==> limit <= capacity
  {
    if limit <= capacity {
      forall pages: seq<Page>, dim: nat, s: Slot
        | && PagesOk(pages, dim, capacity) && 0 < |pages| && |s.vec| == dim
          && CaseFits(pages, limit, s, Classify(pages, limit, s))
        ensures PagesOk(Step(pages, perFile, limit, s).pages, dim, capacity)
      {
        StepKeepsOk(pages, perFile, dim, capacity, limit, s, Classify(pages, limit, s));
      }
    } else {
      FullPageTakesMore(perFile, capacity, limit);
    }
  }
}
