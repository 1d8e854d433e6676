# SpheresDB's page-pruned nearest-neighbour index, modelled and proved

SpheresDB stores vectors in pages ("spheres"). Slot 0 of a page is its anchor, and the page carries the
squared radius around that anchor. A query visits pages by distance to their anchors, skips a page when a
square-root-free test on squared distances says that no member can be near enough, and keeps the best k
entries in a bounded max-heap. This project models that index, the two ways of filling it, its sequential,
batch and parallel searches, its thread pool, and the BPE tokenizer that ships with it. It proves that the
index returns what the brute-force scan returns, and says exactly where the code as written does not.

`dafny verify dfyconfig.toml` checks everything.

## Files

| file | content |
|---|---|
| `Vectors.dfy` | the eight-lane distance loops against the plain sums |
| `SphereBound.dfy` | the page-pruning tests: Cauchy-Schwarz, soundness, exactness, the legacy shortcut |
| `Entries.dfy`, `TopK.dfy`, `Heaps.dfy` | (distance, id) pairs, what "keeps the best k" means, the heap on a span of an array |
| `Pages.dfy`, `Insertion.dfy`, `Eviction.dfy`, `FillLimit.dfy` | pages, one step of an insertion, the whole eviction cascade as a function, how far a density may fill a page |
| `Placement.dfy` | where an insertion puts a vector, said on the pages alone |
| `Database.dfy` | the database class: caches, insertion, greedy prefill and sequential search as methods |
| `Prefill.dfy`, `Partition.dfy`, `FilePlan.dfy` | the greedy rounds, the partition of the input positions they make, and how many files it needs |
| `Probes.dfy`, `Baseline.dfy`, `Exactness.dfy`, `Ties.dfy` | the search as a function, brute force, their agreement, and which of equally near entries is kept |
| `ParallelSearch.dfy`, `ParallelExactness.dfy`, `MorselAccounting.dfy`, `PageDecisions.dfy`, `Schedules.dfy` | the parallel search as a state machine, its invariants, its page counts, how each page was decided, pieces of its runs |
| `ParallelRun.dfy`, `ParallelFill.dfy`, `ResultMerge.dfy`, `NearestSearch.dfy` | the parallel search on arrays: each step refines the state machine; fill, search and merge composed into one call |
| `BatchSearch.dfy` | batch search under every schedule |
| `PublicationGuard.dfy`, `LoneAnchors.dfy` | when publishing a bound from a buffer that is not full is harmless |
| `UnguardedWorkers.dfy`, `LateSnapshots.dfy`, `LineIndex.dfy` | the failing runs, over indexes on a line |
| `ThreadPool.dfy` | the submit/worker/destructor handshake as a state machine with parked threads and notifications |
| `PageLayout.dfy`, `PageBytes.dfy` | the bytes of a page, and the page they stand for |
| `Metrics.dfy` | the three distance functions a database can be created with |
| `Tokenizer.dfy`, `ByteTables.dfy` | byte mapping, segmentation and the merge loop against pair merging on a list |
| `Arithmetic.dfy` | products that several layouts share |

## How the source is read

* The distance is the squared L2 distance, except in `Metrics.dfy`, which carries the exactness of the index over to the
  two normalized metrics, for unit vectors and any function that takes square roots.
* Coordinates and distances are `real`: no rounding, no infinities or NaN inside the data. The initial shared
  bound (infinity) is a separate constructor of `Bound`. Sizes and indices are unbounded integers.
* A database is an object whose methods reassign `pages` and the two caches; a page is the sequence of its
  slots and its stored radius, `page_idx` indexes all files in order, and a new file is a block of zeroed pages.
  Ids and vectors, parallel arrays in the source, travel as pairs.
* `std::push_heap` and `std::pop_heap` are implemented in `Heaps.dfy` and proved; `std::ranges::sort` on
  (distance, id) pairs is the insertion sort `Sort`, whose result is the only sorted arrangement. Buffers in heap
  order are compared through `Sort`.
* "The k nearest" is `KeepsBest(h, all, k)`: h is a part of the multiset `all`, has k entries (or all of them when
  there are fewer), and everything left out is at least as far as everything in h. `SameDistances` shows that this
  fixes the sorted distances; ids may differ at ties, but each returned pair is a stored id with its true
  distance, and a stored slot is returned at most once.
* Concurrent code is a state machine: `Advance` is one atomic step of one thread, a schedule is a list of who moves
  next, and `Exec` runs it, so a lemma about every schedule is about every interleaving. Atomics are
  sequentially consistent. An atomic wait is a check that passes or parks the thread. Histories that the code does
  not keep (`status` of a page, `ran`, `submitted`) are state fields that no step reads to decide what to do.
* On arrays a buffer is a span: an array and an offset. The threads' buffers are parts of one local array, as in the
  source, and each step of a thread there is proved to be a step of the state machine (`Context.Turn`).
* The generated functions `find_in_merge` and `get_id_for_token` are parameters of the tokenizer (on the token itself,
  not its hash); the two byte tables are given in closed form and, in `ByteTables.dfy`, entry by entry.
* A prefilled page lists its members behind the anchor in heap order, which the library leaves open, so they are stated
  as a bag.

## What is proved about the whole, and where the code falls short

* **Index against scan.** With tight radii and every page within budget, sequential, batch and parallel search return
  the distances brute force returns (`IndexAgreesWithScan`, `RowAgreesWithScan`, `ParallelAgreesWithScan` with
  `FindKNearest`), after any insertions (`SearchAfterInsertions`) and after a prefill (`SearchAfterPrefill`). With a
  budget, search is exact on the pages the budget reaches, pruned ones included, and a larger budget never makes the
  i-th distance worse.
* **Bound publication.** `find_knn_worker` publishes `heap[0]` (lines 795-806) without checking that the heap holds k
  entries, and the local buffer is not cleared between searches. Parallel exactness therefore has an explicit
  premise: either the check is there (`guarded`), or every bound the run publishes comes from a full buffer or
  prunes no page still to be decided. Without the check vectors can be lost, and `ExactIff` says when: for pages of
  any sizes, every budget, k, step, number of workers and left-over buffers, the search is exact over every index
  under every interleaving if and only if the first morsel holds k vectors and one of three things is true: there is
  one worker; two morsels hold all pages within the budget; or there are two workers, k is at most the step, and every
  page beyond the first morsel holds its anchor alone. For p pages that hold k vectors or more each, whatever their
  sizes, this is one worker or p <= 2 * step (`FullPagesExactIff`). The failing halves are runs over valid indexes on a
  line, in anchor order, for every k, step and content of the buffers.
* **Insertion.** The header comment at lines 350-355 speaks of dense and sparse files; the code tests no such thing, and
  cases 7 and 8 and the closing `throw` cannot be reached: `InsertAVector` asserts `false` there. The contract at
  line 393 (the distance buffer holds the visiting order of the vector being inserted) is a `requires`, and so is
  a page capacity of at least 2. The density is the caller's and is not compared with the room of a page: every page
  stays within its capacity if and only if `floor(capacity * density)` does (`NeverOverfillsIff`), so that is required
  of each call; a density between 0 and 1 meets it (`DensityFits`).
* **Prefill.** `batch_prefill_single_threaded` computes the number of files from the bytes of a file, while a file has
  `file_size / page_size` whole pages. The files suffice for every number of vectors if and only if the effective
  page capacity times `file_size % page_size` is below `page_size` (`FilesSufficeIff`); in particular when the page
  size divides the file size. Nothing checks that the database is empty (line 441 has a todo): the greedy pages are
  appended to what the first pages hold and their radii overwrite the stored ones. All vectors are kept
  (`OverlayConserves`), but a page stays valid for every input if and only if it was empty (`RoundsKeepPageIff`).
* **Legacy shortcut.** `D - M > W` prunes whenever the exact test does. It is safe for all W only if the radius is zero or
  the query is inside the sphere (`LegacyIsMoreAggressive`), as the repository's README says in words.

## Model

| member | source | states |
|---|---|---|
| `Vectors.SquaredL2Distance` | spheres_with_pruning_count_and_customized_main/modules/distance/distance.cppm:77-109 | the eight-lane loop with its remainder loop returns the plain sum of squared differences, for every length |
| `Vectors.DotProductNaive` | spheres_with_pruning_count_and_customized_main/modules/distance/distance.cppm:13-35 | the eight-lane dot product equals the plain sum of products |
| `Vectors.SqDistExpandsUpTo` | spheres_with_pruning_count_and_customized_main/modules/distance/distance.cppm:66-73 | the squared distance is x.x + y.y - 2 x.y, the identity behind the normalized distance |
| `Vectors.SquaredNormalizedL2Distance` | spheres_with_pruning_count_and_customized_main/modules/distance/distance.cppm:66-73 | on any vectors the squared distance corrected by 2 - x.x - y.y and clamped at zero; on unit vectors the squared L2 distance |
| `SphereBound.CauchySchwarz` | spheres_with_pruning_count_and_customized_main/modules/database/database.cppm:66-69 | in any dimension the squared cross term is at most the product of the two squared distances, with no square root |
| `SphereBound.SphereBoundSound` | spheres_with_pruning_count_and_customized_main/modules/database/database.cppm:64-70 | any dimension: if M is at least the squared distance of v to a, W >= 0 and the squared test fires, then q is farther than W from v |
| `SphereBound.PruneOnSquares` | README.md:124-129 | on d^2, m^2, w^2 the squared test holds if and only if d - m > w |
| `SphereBound.SphereBoundExact` | README.md:124-129 | the test fires if and only if no vector that a page of that radius could hold lies within w: sound, and the strongest sound test on these numbers |
| `SphereBound.DifferenceBoundSound` | spheres_with_pruning_count_and_customized_main/modules/database/database.cppm:53-56 | the plain-distance test of the normalized metric: with true distances, d - m > w puts every member beyond w |
| `SphereBound.LegacyFiresWheneverExactDoes` | README.md:131-134 | whenever the squared test fires, the shortcut D - M > W fires too |
| `SphereBound.LegacyIsMoreAggressive` | README.md:131-134 | the shortcut is safe for every w if and only if m = 0 or d <= m; otherwise it prunes a page the exact bound keeps |
| `Entries.SortedUnique` | spheres_with_pruning_count_and_customized_main/modules/interface/interface.cppm:213 | two sorted arrangements of the same pairs are equal, so what std::ranges::sort returns is determined |
| `TopK.OfferKeepsBest` | spheres_with_pruning_count_and_customized_main/modules/execution/execution.cppm:783-792 | replacing the worst kept entry only by a strictly closer one keeps the k best of everything offered |
| `TopK.OfferAllKeepsBest` | spheres_with_pruning_count_and_customized_main/modules/execution/execution.cppm:780-793 | the same for a whole page of entries |
| `Ties.OfferAllIsSortedPrefix` | spheres_with_pruning_count_and_customized_main/modules/execution/execution.cppm:783-792 | entries offered by ascending id: the buffer ends with the first k in order of distance and then id |
| `TopK.SameDistances` | baseline/baseline.cpp:47-77 | any two sorted answers that keep the k best of the same entries have the same distances |
| `TopK.CoversUnion` | spheres_with_pruning_count_and_customized_main/modules/interface/interface.cppm:203-213 | buffers that each keep enough of their part keep, together, enough of the whole |
| `TopK.SortedPrefixKeepsBest` | spheres_with_pruning_count_and_customized_main/modules/interface/interface.cppm:213-217 | the first k of the sorted union of such buffers are the k best of everything |
| `TopK.MoreNeverWorse` | spheres_with_pruning_count_and_customized_main/modules/execution/execution.cppm:698-702 | adding entries never makes the i-th best distance worse |
| `Heaps.PushHeap` | spheres_with_pruning_count_and_customized_main/modules/execution/execution.cppm:789-791 | on the array: restores the heap order, keeps the entries, touches nothing past n |
| `Heaps.PopHeap` | spheres_with_pruning_count_and_customized_main/modules/execution/execution.cppm:784-787 | on the array: the largest entry ends up last, the rest is a heap, nothing past n changes |
| `Heaps.RootDominates` | spheres_with_pruning_count_and_customized_main/modules/execution/execution.cppm:768 | heap[0] is the largest entry of a heap |
| `Heaps.OfferToHeap` | spheres_with_pruning_count_and_customized_main/modules/execution/execution.cppm:783-792 | one bounded push on the array: the kept entries, sorted, are those of Offer |
| `Databases.EffectiveCapacityIs` | spheres_with_pruning_count_and_customized_main/modules/execution/execution.cppm:376 | for any density the effective capacity is the one whole number n with n <= capacity * density < n + 1 |
| `FillLimit.NeverOverfillsIff` | spheres_with_pruning_count_and_customized_main/modules/execution/execution.cppm:376-381 | insertions keep every page within its capacity if and only if the effective capacity of the call does; otherwise a full page takes one vector more |
| `Databases.DensityFits` | spheres_with_pruning_count_and_customized_main/modules/execution/execution.cppm:376 | a density between 0 and 1 gives an effective capacity between 0 and the room of a page |
| `Databases.CacheShorterThanPages` | spheres_with_pruning_count_and_customized_main/modules/execution/execution.cppm:397-397 | fewer cached radii than pages if and only if some page is empty |
| `Databases.CachedIffNonEmpty` | spheres_with_pruning_count_and_customized_main/modules/execution/execution.cppm:281-293 | a page is cached if and only if it is non-empty |
| `Databases.CachedInPageOrder` | spheres_with_pruning_count_and_customized_main/modules/execution/execution.cppm:281-293 | the cached radii come in page order |
| `Databases.Database.constructor` | spheres_with_pruning_count_and_customized_main/modules/database/database.cppm:93-108 | a new database is valid, empty, and one file long |
| `Databases.Database.UpdateAnchorCache` | spheres_with_pruning_count_and_customized_main/modules/execution/execution.cppm:268-279 | afterwards the cached anchor of every non-empty page is its slot 0; the cache only grows, and entries of empty pages stay |
| `Databases.Database.UpdateCachedMaxDists` | spheres_with_pruning_count_and_customized_main/modules/execution/execution.cppm:281-293 | afterwards the radius cache lists exactly the non-empty pages in order, with their stored radii |
| `Databases.Database.FillDistToAnchor` | spheres_with_pruning_count_and_customized_main/modules/execution/execution.cppm:315-333 | the buffer holds the distance to each non-empty page's anchor, in page order or sorted into visiting order |
| `Databases.Database.CalculateNewMaxDist` | spheres_with_pruning_count_and_customized_main/modules/execution/execution.cppm:243-258 | returns the largest distance of a member to the anchor |
| `Databases.Database.FindVictim` | spheres_with_pruning_count_and_customized_main/modules/execution/execution.cppm:196-211 | returns the first member whose distance is the stored radius, or the count when there is none |
| `Insertion.VictimExists` | spheres_with_pruning_count_and_customized_main/modules/execution/execution.cppm:199-211 | with two members and a tight radius the victim search always succeeds, and never returns the anchor |
| `Databases.Database.FindEmptyPage` | spheres_with_pruning_count_and_customized_main/modules/execution/execution.cppm:397-405 | the marking loop returns the first empty page; it lies below n_pages if and only if fewer pages are cached than exist |
| `Insertion.ClassifyFits` | spheres_with_pruning_count_and_customized_main/modules/execution/execution.cppm:357-433 | on a valid index every vector meets the guard of one of cases 1 to 6, with victim and empty page in range: the rest is unreachable |
| `Insertion.StepKeepsOk` | spheres_with_pruning_count_and_customized_main/modules/execution/execution.cppm:357-417 | every case keeps radii tight, counts within capacity and dimensions right |
| `Insertion.StepConserves` | spheres_with_pruning_count_and_customized_main/modules/execution/execution.cppm:357-417 | every case adds exactly the new pair; the eviction case adds it and takes out exactly the victim |
| `Eviction.EvictionDecreases` | spheres_with_pruning_count_and_customized_main/modules/execution/execution.cppm:384-396 | an eviction keeps all anchors and strictly lowers the summed ranks of slot-to-anchor distances: the recursion terminates |
| `Eviction.Inserted` | spheres_with_pruning_count_and_customized_main/modules/execution/execution.cppm:337-434 | the whole cascade keeps every page valid, adds exactly the new pair to the stored multiset and at most one file of pages |
| `Eviction.InsertedWithinFill` | spheres_with_pruning_count_and_customized_main/modules/execution/execution.cppm:376-395 | the cascade never fills a page beyond the effective capacity (or two, which case 2 allows) |
| `Eviction.InsertedKeepsAnchors` | spheres_with_pruning_count_and_customized_main/modules/execution/execution.cppm:377-395 | no cascade ever replaces the anchor of a non-empty page |
| `Eviction.InsertedAll` | spheres_with_pruning_count_and_customized_main/modules/execution/execution.cppm:337-434 | after any sequence of insertions, each with a density of its own, the index is valid and holds exactly the old contents plus everything inserted |
| `Eviction.InsertedAllOneMore` | spheres_with_pruning_count_and_customized_main/modules/execution/execution.cppm:337-434 | one item more is one insertion more after all the others: the order of the calls is the order of the list |
| `Placement.NearestExists` | spheres_with_pruning_count_and_customized_main/modules/execution/execution.cppm:315-333 | unless all pages are empty one page is nearest to a vector: no anchor is nearer, and it is the lowest among equals |
| `Placement.FirstVectorPlaced` | spheres_with_pruning_count_and_customized_main/modules/execution/execution.cppm:357-363 | the first vector becomes the anchor of page 0 |
| `Placement.VectorJoins` | spheres_with_pruning_count_and_customized_main/modules/execution/execution.cppm:364-382 | a vector joins its nearest page if that is a lone anchor, or has it inside its radius and room under the limit; no other page changes |
| `Placement.VectorDisplaces` | spheres_with_pruning_count_and_customized_main/modules/execution/execution.cppm:385-396 | inside the radius of a nearest page without room it takes the slot of the farthest member, the first one of those, and that member is inserted next |
| `Placement.FarthestExists` | spheres_with_pruning_count_and_customized_main/modules/execution/execution.cppm:196-211 | a page of two members or more with a tight radius has a first farthest member behind its anchor |
| `Placement.VectorOpensPage` | spheres_with_pruning_count_and_customized_main/modules/execution/execution.cppm:397-409 | on or outside the radius it becomes the anchor of the lowest empty page |
| `Placement.VectorOpensFile` | spheres_with_pruning_count_and_customized_main/modules/execution/execution.cppm:410-416 | when no page is empty it becomes the anchor of the first page of a new file, the others staying empty |
| `Databases.Database.InsertAVector` | spheres_with_pruning_count_and_customized_main/modules/execution/execution.cppm:337-434 | the recursive method: caches and radii valid again, pages equal to Inserted, cases 7, 8 and the throw unreachable |
| `Databases.Database.ReplaceFarthest` | spheres_with_pruning_count_and_customized_main/modules/execution/execution.cppm:386-391 | returns the farthest member and leaves the page with the new vector in its slot and a recomputed radius |
| `Databases.Database.OpenInNewFile` | spheres_with_pruning_count_and_customized_main/modules/execution/execution.cppm:410-413 | appends one file of empty pages whose first page holds just the new vector |
| `Prefill.NearestAreNearest` | spheres_with_pruning_count_and_customized_main/modules/execution/execution.cppm:462-472 | one round picks distinct positions that are the m nearest remaining vectors to the first one |
| `Ties.NearestIsSortedPrefix` | spheres_with_pruning_count_and_customized_main/modules/execution/execution.cppm:462-472 | of equally near vectors a round takes those that come first |
| `Prefill.HeapPageIsGreedy` | spheres_with_pruning_count_and_customized_main/modules/execution/execution.cppm:473-483 | the page written from the heap has the first remaining vector as anchor, the picked ones behind it and the heap top as radius |
| `Prefill.RootIsRadius` | spheres_with_pruning_count_and_customized_main/modules/execution/execution.cppm:475-483 | the top of the heap of a round is exactly the largest distance of a page member to the anchor, so the stored radius is tight |
| `Prefill.RoundConserves` | spheres_with_pruning_count_and_customized_main/modules/execution/execution.cppm:473-489 | page plus remaining vectors are the remaining vectors of before: each pair goes to one place, once |
| `Prefill.RoundSize` | spheres_with_pruning_count_and_customized_main/modules/execution/execution.cppm:458-491 | a round takes m + 1 vectors while there are that many, otherwise all |
| `Prefill.RoundsConserve` | spheres_with_pruning_count_and_customized_main/modules/execution/execution.cppm:458-491 | over all rounds the pages and what is left are exactly the input |
| `Partition.RestInOrder` | spheres_with_pruning_count_and_customized_main/modules/execution/execution.cppm:484-487 | a round leaves exactly the vectors it did not take, in the order in which they came |
| `Partition.GreedyPartition` | spheres_with_pruning_count_and_customized_main/modules/execution/execution.cppm:458-491 | the prefill in input positions: no position on two pages; each anchor is the lowest position left; with it go the m nearest of what is left, equal ones by lower position, or all; radius tight |
| `Prefill.GreedyPageOk` | spheres_with_pruning_count_and_customized_main/modules/execution/execution.cppm:473-483 | a greedy page meets the invariant insertion and search rely on |
| `Databases.Database.PrefillRound` | spheres_with_pruning_count_and_customized_main/modules/execution/execution.cppm:462-490 | one round on the database: appends the greedy page to whatever its page holds, stores its radius, erases exactly what it took, leaves all other pages |
| `Databases.Database.BatchPrefill` | spheres_with_pruning_count_and_customized_main/modules/interface/interface.cppm:65-74 | on any valid database: adds as many files as the source's formula says, appends the greedy pages one by one to the first pages, stores all vectors next to those already there, refreshes both caches, and leaves a valid database when the pages written on were empty |
| `Prefill.RoundsKeepPageIff` | spheres_with_pruning_count_and_customized_main/modules/execution/execution.cppm:441-485 | the code does not check that the database is empty: a round leaves a valid page valid for every input if and only if the page was empty |
| `Prefill.OverlayConserves` | spheres_with_pruning_count_and_customized_main/modules/execution/execution.cppm:473-479 | nothing stored is lost, whatever the pages held before |
| `FilePlan.FilesSufficeIff` | spheres_with_pruning_count_and_customized_main/modules/execution/execution.cppm:442-448 | the files created suffice for every number of vectors if and only if capacity * (file_size % page_size) < page_size |
| `FilePlan.AddressingIsBijective` | spheres_with_pruning_count_and_customized_main/modules/execution/execution.cppm:105-111 | (file, page in file) and page_idx determine each other, and indices below n_pages are those in existing files |
| `PageLayout.SlotInsidePage` | spheres_with_pruning_count_and_customized_main/modules/execution/execution.cppm:63-65 | id and vector of every slot lie behind the header and inside the page, the id region before the vector region |
| `PageLayout.CapacityIsLargest` | spheres_with_pruning_count_and_customized_main/modules/execution/execution.cppm:63-65 | as many vectors as the 16-byte header leaves room for at 8 bytes for each id, and not one less |
| `PageLayout.RegionsAreAdjacent` | spheres_with_pruning_count_and_customized_main/modules/execution/execution.cppm:63-65 | ids start at byte 16, one after another, vectors right behind the last id |
| `PageLayout.SlotsApart` | spheres_with_pruning_count_and_customized_main/modules/execution/execution.cppm:63-65 | ids and vectors of all slots occupy disjoint bytes |
| `PageLayout.PlaceNewVectorAt` | spheres_with_pruning_count_and_customized_main/modules/execution/execution.cppm:97-103 | writing a slot reads back the same id and vector and changes neither the header nor any other slot |
| `PageBytes.ZeroedPage` | spheres_with_pruning_count_and_customized_main/modules/execution/execution.cppm:39-47 | the bytes of a new file read as empty pages |
| `PageBytes.ByteOf` | spheres_with_pruning_count_and_customized_main/modules/execution/execution.cppm:97-103 | byte i of a stored number is n / 256^i modulo 256 |
| `PageBytes.PlaceVector` | spheres_with_pruning_count_and_customized_main/modules/execution/execution.cppm:97-103 | on the bytes, writing slot v is replacing slot v of the page they stand for |
| `PageBytes.AppendVector` | spheres_with_pruning_count_and_customized_main/modules/execution/execution.cppm:157-163 | on the bytes, writing behind the last slot and raising the count is appending to the page they stand for |
| `PageBytes.UpdateRadius` | spheres_with_pruning_count_and_customized_main/modules/execution/execution.cppm:128-131 | on the bytes, clearing and writing the radius is replacing the radius of the page, whatever the element size |
| `Metrics.DistIsLifted` | spheres_with_pruning_count_and_customized_main/modules/distance/distance.cppm:64-73 | on unit vectors the normalized metrics are the squared L2 distance and its root |
| `Metrics.NormalizedDistIs` | spheres_with_pruning_count_and_customized_main/modules/distance/distance.cppm:64-73 | on any vectors the normalized metrics are the squared distance corrected by 2 - x.x - y.y, clamped at zero, and its root |
| `Metrics.PruneLifted` | spheres_with_pruning_count_and_customized_main/modules/database/database.cppm:50-72 | each metric's pruning test, on what that metric stores, is the squared test |
| `Metrics.SearchLifted` | spheres_with_pruning_count_and_customized_main/modules/execution/execution.cppm:698-732 | searching with a metric finds what the squared search finds, shown as the metric shows it |
| `Metrics.MetricIndexAgreesWithScan` | spheres_with_pruning_count_and_customized_main/modules/database/database.cppm:50-72 | for each of the three metrics, on the vectors it is meant for, the index returns the distances of brute force with that metric |
| `Probes.TightPageIsSafe` | spheres_with_pruning_count_and_customized_main/modules/database/database.cppm:64-70 | a page with a tight radius may be pruned: whatever the test drops is beyond the bound |
| `Probes.VisitKeepsBest` | spheres_with_pruning_count_and_customized_main/modules/execution/execution.cppm:703-731 | pruning or scanning one page keeps the k best of all visited pages, pruned ones counted |
| `Probes.SearchKeepsBest` | spheres_with_pruning_count_and_customized_main/modules/execution/execution.cppm:698-732 | so does the whole loop over pages |
| `Ties.SearchIsScanInOrder` | spheres_with_pruning_count_and_customized_main/modules/execution/execution.cppm:698-732 | pruning leaves no trace: the search returns the very entries, ties included, that scanning every page in its order would |
| `Databases.Database.VisitPage` | spheres_with_pruning_count_and_customized_main/modules/execution/execution.cppm:703-731 | one page on the heap array: the sorted heap is what Visit says |
| `Databases.Database.FindKnnOne` | spheres_with_pruning_count_and_customized_main/modules/execution/execution.cppm:692-732 | one query of the batch worker: the heap holds the search over the first pages in anchor order, as many as the budget allows and there are |
| `Exactness.ProbesHoldContents` | spheres_with_pruning_count_and_customized_main/modules/execution/execution.cppm:315-333 | the sorted visiting order covers every stored pair exactly once |
| `Exactness.SearchUnderBudget` | spheres_with_pruning_count_and_customized_main/modules/execution/execution.cppm:698-702 | under a budget the answer is the k best of all vectors on the first p pages in anchor order, p the smaller of budget and number of cached pages |
| `Exactness.LargerBudgetNeverWorse` | spheres_with_pruning_count_and_customized_main/modules/execution/execution.cppm:698-702 | a larger budget never worsens any rank of the answer |
| `Exactness.IndexAgreesWithScan` | spheres_with_pruning_count_and_customized_main/modules/execution/execution.cppm:670-735 | with every page in budget the distances are those of brute force over the same vectors, and each answer is a stored pair |
| `Exactness.SearchAfterInsertions` | spheres_with_pruning_count_and_customized_main/modules/execution/execution.cppm:337-434 | searching after any sequence of insertions, each with a density of its own, equals brute force over everything inserted |
| `Exactness.SearchAfterPrefill` | spheres_with_pruning_count_and_customized_main/modules/execution/execution.cppm:438-492 | searching after a prefill onto empty pages equals brute force over what was stored elsewhere and the input |
| `Exactness.ParallelAgreesWithScan` | spheres_with_pruning_count_and_customized_main/modules/interface/interface.cppm:171-219 | a finished parallel search over all pages returns stored pairs, each slot at most once, at brute force's k distances, for every interleaving that meets the publication premise |
| `Baseline.SquaredL2` | baseline/baseline.cpp:16-23 | the accumulator loop is the same squared distance |
| `Baseline.Run` | baseline/baseline.cpp:47-77 | for one query the reported ids are those of BruteForce, nearest first |
| `Baseline.BruteForceKeepsBest` | baseline/baseline.cpp:55-69 | brute force keeps the k best of all vectors |
| `Ties.BruteForceIsSortedPrefix` | baseline/baseline.cpp:55-77 | the reported ids are the first k in order of distance and then number |
| `BatchSearch.SearchOne` | spheres_with_pruning_count_and_customized_main/modules/execution/execution.cppm:692-732 | in the thread's part of the local buffer, fills the row of a query with its answer and changes nothing outside part and row |
| `BatchSearch.FindKnnBatch` | spheres_with_pruning_count_and_customized_main/modules/interface/interface.cppm:149-168 | for every schedule of claims and queries: once all threads exited, every query's row holds its search over the first pages, as many as the budget allows, budget 0 meaning all |
| `BatchSearch.NextMorsel` | spheres_with_pruning_count_and_customized_main/modules/execution/execution.cppm:684-688 | a claim keeps every query answered or ahead of one thread only, and never claims one twice |
| `BatchSearch.NextQuery` | spheres_with_pruning_count_and_customized_main/modules/execution/execution.cppm:688-692 | a thread answers a query nobody has answered, and all others stay answered or ahead of one thread |
| `BatchSearch.RowAgreesWithScan` | spheres_with_pruning_count_and_customized_main/modules/interface/interface.cppm:149-168 | with budget 0 the row holds brute force's distances |
| `ParallelFill.ChunksAreConsecutive` | spheres_with_pruning_count_and_customized_main/modules/execution/execution.cppm:837-850 | each thread's chunk ends where the next begins, the last one at the end of the list; the clamp never fires |
| `ParallelFill.ChunksTile` | spheres_with_pruning_count_and_customized_main/modules/execution/execution.cppm:837-850 | an index is below the list length if and only if it lies in some chunk, and in only one |
| `ParallelFill.ChunksAreEven` | spheres_with_pruning_count_and_customized_main/modules/execution/execution.cppm:837-850 | the first total % n threads have one entry more than the others |
| `ParallelFill.FillInterleaved` | spheres_with_pruning_count_and_customized_main/modules/interface/interface.cppm:178-190 | for every schedule that gives each thread enough turns the buffer is the single-threaded one, and sorts into the visiting order |
| `ParallelExactness.ClaimKeepsClaims` | spheres_with_pruning_count_and_customized_main/modules/execution/execution.cppm:748-755 | a fetch-and-add claims only unclaimed pages, and every page has at most one owner |
| `ParallelExactness.PageVisited` | spheres_with_pruning_count_and_customized_main/modules/execution/execution.cppm:763-793 | scanning a page, or pruning it by the own worst entry, keeps every buffer the k best of the pages its worker visited, and the whole invariant |
| `ParallelExactness.ExecInv` | spheres_with_pruning_count_and_customized_main/modules/execution/execution.cppm:739-808 | over every run that meets the premise: claims, buffers and bounds; the shared bound and each snapshot in use are infinite, or reach k entries of scanned pages, or prune nothing still undecided |
| `ParallelExactness.FinishedDecidesAll` | spheres_with_pruning_count_and_customized_main/modules/execution/execution.cppm:748-762 | when all workers are done every page was scanned, or pruned locally, or pruned by the shared bound |
| `ParallelExactness.ParallelSearchExact` | spheres_with_pruning_count_and_customized_main/modules/execution/execution.cppm:739-808 | for any number of workers, any step >= 1 and every interleaving that publishes only full buffers, the first k merged entries are the k best of all probed vectors |
| `ParallelExactness.GuardedSearchExact` | spheres_with_pruning_count_and_customized_main/modules/execution/execution.cppm:795-806 | with the missing check on the heap size the premise holds in every run |
| `ParallelExactness.GuardedBoundsReachK` | spheres_with_pruning_count_and_customized_main/modules/execution/execution.cppm:754-806 | with the check, in every reachable state the shared bound and each snapshot in use are infinite or at least the largest of k distances on scanned pages |
| `MorselAccounting.MorselsAreDisjoint` | spheres_with_pruning_count_and_customized_main/modules/execution/execution.cppm:749-753 | in every run the pages from next_morsel on are unclaimed when a worker is about to claim |
| `MorselAccounting.EveryPageIsCounted` | spheres_with_pruning_count_and_customized_main/modules/execution/execution.cppm:746-762 | when all are done each page was decided once, and scanned pages plus n_pruned are all claimed pages |
| `PageDecisions.PageWasDecided` | spheres_with_pruning_count_and_customized_main/modules/execution/execution.cppm:757-793 | in every run each decided page was decided when a worker came to it: pruned for the bound it had read if that rules the page out, else for its own full buffer if that does, scanned otherwise |
| `MorselAccounting.SharedBoundOnlyFalls` | spheres_with_pruning_count_and_customized_main/modules/execution/execution.cppm:795-806 | the shared bound never rises between any two points of a run |
| `MorselAccounting.MorselLowersBound` | spheres_with_pruning_count_and_customized_main/modules/execution/execution.cppm:794-806 | when a worker goes back to claiming after a morsel, the shared bound is no greater than its heap top, whatever compare-and-swaps failed, and stays so; with the check this takes a full buffer |
| `PublicationGuard.ExactIff` | spheres_with_pruning_count_and_customized_main/modules/execution/execution.cppm:739-808 | no check, any budget, pages of any sizes within it: exact over every index under every interleaving if and only if the first morsel holds k vectors and there is one worker, or two morsels hold all pages, or two workers with k <= step have only lone anchors beyond the first morsel |
| `PublicationGuard.ExactIffFirstMorsel` | spheres_with_pruning_count_and_customized_main/modules/execution/execution.cppm:795-806 | one worker, or any number over at most two morsels: exact if and only if the first morsel holds k vectors |
| `PublicationGuard.TwoMorselRunsPublish` | spheres_with_pruning_count_and_customized_main/modules/execution/execution.cppm:748-806 | over at most two morsels in anchor order, the first holding k vectors, every bound any interleaving publishes is from a full buffer or harmless |
| `PublicationGuard.ThirdMorselNeverExact` | spheres_with_pruning_count_and_customized_main/modules/execution/execution.cppm:795-806 | several workers and more than two morsels: some index and interleaving lose vectors, unless two workers with k <= step have only lone anchors beyond the first morsel |
| `LoneAnchors.LoneSearchExact` | spheres_with_pruning_count_and_customized_main/modules/execution/execution.cppm:748-806 | two workers, k <= step, lone anchors beyond the first morsel: every interleaving is exact without the check, although bounds are published too early |
| `ParallelExactness.ExecKernel` | spheres_with_pruning_count_and_customized_main/modules/execution/execution.cppm:757-793 | in every run, whatever is published, each page has at most one owner, each buffer holds the k nearest of the pages its worker visited, and all it holds was read on a scanned page |
| `PublicationGuard.FullPagesExactIff` | spheres_with_pruning_count_and_customized_main/modules/execution/execution.cppm:739-808 | over a budget of p pages of at least k vectors each: exact if and only if there is one worker or p <= 2 * step |
| `UnguardedWorkers.ShortFirstMorselLoses` | spheres_with_pruning_count_and_customized_main/modules/execution/execution.cppm:795-806 | a valid index of pages of the given sizes and a run over it that returns fewer than k vectors, when the first morsel holds fewer |
| `UnguardedWorkers.ThirdMorselLoses` | spheres_with_pruning_count_and_customized_main/modules/execution/execution.cppm:795-806 | a valid index of pages of the given sizes and a run of two or more workers over it that loses the nearest vectors, when a page beyond the second morsel holds two |
| `UnguardedWorkers.ThirdWorkerLoses` | spheres_with_pruning_count_and_customized_main/modules/execution/execution.cppm:795-806 | the same for three or more workers and pages of any sizes |
| `LateSnapshots.LateSnapshotLoses` | spheres_with_pruning_count_and_customized_main/modules/execution/execution.cppm:748-806 | the same for two or more workers when a page of the second morsel holds two vectors or k exceeds the step: the worker that claims the second morsel reads the bound late |
| `LineIndex.IndexOnLine` | spheres_with_pruning_count_and_customized_main/modules/execution/execution.cppm:315-333 | pages laid out on a line are a valid index, and a query at 0 visits them in order with the expected distances and radii |
| `Schedules.TrimmedRun` | spheres_with_pruning_count_and_customized_main/modules/interface/interface.cppm:195-196 | pages beyond the budget make no difference to any run |
| `Schedules.MoveUsesBudget` | spheres_with_pruning_count_and_customized_main/modules/execution/execution.cppm:739-808 | in any interleaving every move of an unfinished worker, other than a spurious failure of the compare-and-swap, lowers one global measure |
| `Schedules.RunsEnd` | spheres_with_pruning_count_and_customized_main/modules/execution/execution.cppm:739-808 | no run has more than pages * (workers + 9) + 2 * workers such moves: the search cannot be kept from finishing |
| `Schedules.RunsCanFinish` | spheres_with_pruning_count_and_customized_main/modules/execution/execution.cppm:748-808 | every run, guarded or not, with any number of workers, can be continued until all have finished |
| `ParallelRun.Context.constructor` | spheres_with_pruning_count_and_customized_main/modules/interface/interface.cppm:191-201 | a search starts in the initial state of the state machine, whatever earlier searches left in the buffers |
| `ParallelRun.Context.Turn` | spheres_with_pruning_count_and_customized_main/modules/execution/execution.cppm:739-808 | one atomic step of a thread on the shared fields and its part of the local buffer is one step of the state machine, and every cell outside that part is as before |
| `ResultMerge.FindKNearestResult` | spheres_with_pruning_count_and_customized_main/modules/interface/interface.cppm:203-218 | the copies at running offsets, sorted and cut, are the first k of the sorted used parts |
| `ResultMerge.ResultIsMergedPrefix` | spheres_with_pruning_count_and_customized_main/modules/interface/interface.cppm:203-213 | whatever order the heaps leave in the buffers, sorting their used parts gives the merge of what the workers kept |
| `NearestSearch.FindKNearest` | spheres_with_pruning_count_and_customized_main/modules/interface/interface.cppm:171-219 | the whole call on arrays: for every schedule of fill and search the result is the first k entries of the merged run, whenever all threads are done and k entries are there; with the check it is the k best of the first p pages for a budget of p, and brute force's distances without one |
| `ThreadPool.SubmitRunsEverywhereOnce` | spheres_with_pruning_count_and_customized_main/modules/execution/execution.cppm:858-869 | when the caller is back, every worker has run exactly the submitted tasks in order and its output count belongs to the last one |
| `ThreadPool.OutputsOfLastTask` | spheres_with_pruning_count_and_customized_main/modules/execution/execution.cppm:820-854 | when the caller is back, a worker's output count is the one named by the move with which it ended the last submitted task, or 0 for a task that has none |
| `ThreadPool.NoTaskSkippedOrRepeated` | spheres_with_pruning_count_and_customized_main/modules/execution/execution.cppm:814-856 | at any moment each worker has run a prefix of the submitted tasks, at most one behind |
| `ThreadPool.NothingUsedAfterDeletion` | spheres_with_pruning_count_and_customized_main/modules/execution/execution.cppm:561-573 | no worker touches the task counter or the context after the destructor deleted it |
| `ThreadPool.AwaitedWorkerIsAwake` | spheres_with_pruning_count_and_customized_main/modules/execution/execution.cppm:858-869 | no lost wake-up: when the caller is parked on a done flag, the worker that will notify it can move |
| `ThreadPool.SomebodyCanMove` | spheres_with_pruning_count_and_customized_main/modules/execution/execution.cppm:812-870 | until all have returned some step is enabled, although parked threads move only after a notification: no deadlock |
| `ThreadPool.EveryMoveUsesBudget` | spheres_with_pruning_count_and_customized_main/modules/execution/execution.cppm:812-870 | every move but a new submission lowers a measure: each submission and the destructor finish |
| `Tokenizer.UnicodeToByte` | spheres_with_pruning_count_and_customized_main/modules/builtin_qwen_embedding/tokenizer/builtin_qwen_tokenizer.cppm:66-76 | returns a byte with that table entry if there is one, 0 otherwise, small codes unchanged |
| `Tokenizer.ByteToUnicodeInjective` | spheres_with_pruning_count_and_customized_main/modules/builtin_qwen_embedding/tokenizer/builtin_qwen_tokenizer.cppm:62-64 | no two bytes share a table entry |
| `ByteTables.ByteToUnicodeIsTable` | spheres_with_pruning_count_and_customized_main/modules/builtin_qwen_embedding/tokenizer/builtin_qwen_tokenizer.cppm:29-58 | the closed form is the table at all 256 bytes |
| `ByteTables.UseNBytesIsTable` | spheres_with_pruning_count_and_customized_main/modules/builtin_qwen_embedding/tokenizer/builtin_qwen_tokenizer.cppm:17-27 | the character lengths are the table at all 256 bytes |
| `ByteTables.MappedIsTable` | spheres_with_pruning_count_and_customized_main/modules/builtin_qwen_embedding/tokenizer/builtin_qwen_tokenizer.cppm:98-105 | a byte becomes its table entry: one byte below 128, otherwise the low byte and then the high one |
| `Tokenizer.ByteRoundTrip` | spheres_with_pruning_count_and_customized_main/modules/builtin_qwen_embedding/tokenizer/builtin_qwen_tokenizer.cppm:62-76 | mapping a byte and looking it up gives the byte back |
| `Tokenizer.Replace` | spheres_with_pruning_count_and_customized_main/modules/builtin_qwen_embedding/tokenizer/builtin_qwen_tokenizer.cppm:96-105 | the replaced text is the concatenation of the mapped bytes |
| `Tokenizer.Segment` | spheres_with_pruning_count_and_customized_main/modules/builtin_qwen_embedding/tokenizer/builtin_qwen_tokenizer.cppm:106-112 | the views are non-empty, tile the replaced text, and are one mapped byte each |
| `Tokenizer.FindBestPair` | spheres_with_pruning_count_and_customized_main/modules/builtin_qwen_embedding/tokenizer/builtin_qwen_tokenizer.cppm:117-139 | the scan over tombstoned views finds the leftmost lowest-rank adjacent pair of the list of live views |
| `Tokenizer.BestIsLeftmostLowest` | spheres_with_pruning_count_and_customized_main/modules/builtin_qwen_embedding/tokenizer/builtin_qwen_tokenizer.cppm:131-137 | that pair is minimal in rank, strictly below every earlier mergeable pair, and missing only when nothing merges |
| `Tokenizer.ListBpeMerges` | spheres_with_pruning_count_and_customized_main/modules/builtin_qwen_embedding/tokenizer/builtin_qwen_tokenizer.cppm:131-146 | when pair j has the lowest rank, lower than any before it, the round joins exactly parts j and j + 1 |
| `Tokenizer.ListBpeStops` | spheres_with_pruning_count_and_customized_main/modules/builtin_qwen_embedding/tokenizer/builtin_qwen_tokenizer.cppm:114-147 | when no pair merges the parts are final |
| `Tokenizer.RoundIsOneMerge` | spheres_with_pruning_count_and_customized_main/modules/builtin_qwen_embedding/tokenizer/builtin_qwen_tokenizer.cppm:140-146 | with empty views dropped, a round is one merge at that pair: one view fewer, still tiling the text |
| `Tokenizer.MergeAll` | spheres_with_pruning_count_and_customized_main/modules/builtin_qwen_embedding/tokenizer/builtin_qwen_tokenizer.cppm:114-147 | the loop terminates with the list that textbook pair merging gives |
| `Tokenizer.ListBpeResult` | spheres_with_pruning_count_and_customized_main/modules/builtin_qwen_embedding/tokenizer/builtin_qwen_tokenizer.cppm:114-147 | pair merging keeps the text, never adds parts, and ends with no mergeable neighbours |
| `Tokenizer.Encode` | spheres_with_pruning_count_and_customized_main/modules/builtin_qwen_embedding/tokenizer/builtin_qwen_tokenizer.cppm:92-155 | the ids are those of the parts of pair merging, in order |
| `Tokenizer.EncodedPartsSpellText` | spheres_with_pruning_count_and_customized_main/modules/builtin_qwen_embedding/tokenizer/builtin_qwen_tokenizer.cppm:92-155 | the encoded parts concatenate to the mapped text and no two neighbours can be merged |
| `Tokenizer.EncodedPartsDetermineText` | spheres_with_pruning_count_and_customized_main/modules/builtin_qwen_embedding/tokenizer/builtin_qwen_tokenizer.cppm:92-155 | two texts with the same parts are the same text |

## Left out

- Exactness.ParallelAgreesWithScan: asks for the publication premise, without which the code can lose vectors, and for a budget of all cached pages; smaller budgets are the subject of ParallelExactness.ParallelSearchExact, and larger ones, with which the source reads past its buffer, are not modelled.
- NearestSearch.FindKNearest: the source reads k entries of the merged buffer without counting them; the model returns no result when fewer are there.
- Databases.Database.InsertAVector: asks for the visiting order of the new vector, which the interface wrapper `insert_a_vector` (interface.cppm:137-146) passes on without refilling; the wrapper is not modelled.
- Databases.Database.FindKnnOne: asks for k >= 1; with k = 0 the source reads the top of an empty heap.
- ThreadPool.EveryMoveUsesBudget: fairness of the scheduler is not modelled, only that every enabled move uses up part of a budget.
- BatchSearch.FindKnnBatch: answering one query is one step, since a thread writes only its part of the local buffer and the row of its query.
- Rounding, infinities and NaN in the data, fixed-width integers, and memory orders weaker than sequential consistency.
- `batch_prefill_parallel` and `batch_prefill_worker`: the single-threaded prefill is the reference.
- `find_victim_vector_index_worker`, which no dispatcher in the repository calls.
- Files, memory maps, configuration, `load_database`'s mapping of existing files, timers, metrics and argument parsing; a new file is a block of zeroed pages.
- `normalize`: unit vectors are a premise of the normalized metrics, and the square root is a parameter of which only root(x) * root(x) == x is assumed.
- Metrics.MetricIndexAgreesWithScan: takes pages whose radii were computed with the metric; insertion, prefill and the parallel search are proved for the squared L2 distance.
- Databases.Database.BatchPrefill: on a page that is already occupied the model has room for what is appended; the source writes past the page when there is none.
- The Qwen transformer and its generated token tables; the FAISS, hnswlib, DuckDB and pgvector harnesses.
