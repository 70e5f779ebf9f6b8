/**
 * The crawl loop of `process_all_products` (main.py:134-250) with the browser
 * replaced by its answers: each listing query returns an item count (or
 * times out), and each listed item shows an image source. Pagination for a
 * category ends as soon as a count fails to grow (main.py:165, 175-185,
 * 242-245). Every item whose image is read goes through the claim step,
 * and a claimed item is recorded on disk before it is opened (main.py:199-208).
 * A fault the item loop does not catch ends the whole run.
 */
module Crawl {
  import opened Dedup

  /**
   * The answer to one wait for the listing's items. The wait returns only a
   * non-empty list: on an empty listing it times out (`Plausible`).
   */
  datatype Query = Found(count: nat) | TimedOut

  /** Why pagination of a category ended. */
  datatype Stop =
    | NotGrown          // the count was not above `old_count` (main.py:182-183)
    | NoNewAfterBatch   // the re-query after a batch did not exceed it (main.py:244-245)
    | Aborted           // a wait timed out; its exception ends the whole run

  /** The batches processed (their item counts), the queries issued, and why it stopped. */
  datatype Pages = Pages(batches: seq<nat>, queries: nat, stop: Stop)

  /**
   * Answers the listing wait can give: `presence_of_all_elements_located`
   * returns a non-empty list or raises `TimeoutException`, so a found count
   * is positive, and the site never lists more than `bound` items. With no
   * found count of 0, `if not products` (main.py:179-181) never fires.
   */
  ghost predicate Plausible(query: nat -> Query, bound: nat)
  {
    forall k :: query(k).Found? ==> 0 < query(k).count <= bound
  }

  predicate Increasing(s: seq<nat>)
  {
    forall i, j :: 0 <= i < j < |s| ==> s[i] < s[j]
  }

  /**
   * The pagination rule from `old_count = oldCount`, query number `next`
   * being the next query: query, stop unless the count exceeds `old_count`,
   * process the batch, re-query, stop unless the count grew again.
   * Each batch exceeds the `old_count` before it (BatchesIncrease), so with
   * counts bounded by `bound` there are at most `bound` batches: the loop ends.
   */
  function Paginate(query: nat -> Query, bound: nat, oldCount: nat, next: nat): Pages
    requires Plausible(query, bound) && oldCount <= bound
    decreases bound - oldCount
  {
    match query(next)
    case TimedOut => Pages([], 1, Aborted)
    case Found(c) =>
      if c <= oldCount then Pages([], 1, NotGrown)
      else
        match query(next + 1)
        case TimedOut => Pages([c], 2, Aborted)
        case Found(c2) =>
          if c2 <= c then Pages([c], 2, NoNewAfterBatch)
          else
            var rest := Paginate(query, bound, c, next + 2);
            Pages([c] + rest.batches, 2 + rest.queries, rest.stop)
  }

  /**
   * Every batch exceeds `old_count` and stays within the bound, so there are
   * at most `bound - oldCount` batches; two queries are issued per batch,
   * plus one for the top query that ends the loop unless a re-query did.
   */
  lemma {:induction false} PaginateShape(query: nat -> Query, bound: nat, oldCount: nat, next: nat)
    requires Plausible(query, bound) && oldCount <= bound
    ensures var p := Paginate(query, bound, oldCount, next);
      && (forall i :: 0 <= i < |p.batches| ==> oldCount < p.batches[i] <= bound)
      && |p.batches| <= bound - oldCount
      && (p.queries == 2 * |p.batches| + 1 || (p.queries == 2 * |p.batches| && |p.batches| > 0))
    decreases bound - oldCount
  {
    match query(next)
    case TimedOut =>
    case Found(c) =>
      if 0 < c && oldCount < c && query(next + 1).Found? && c < query(next + 1).count {
        var p := Paginate(query, bound, oldCount, next);
        var rest := Paginate(query, bound, c, next + 2);
        assert p.batches == [c] + rest.batches;
        PaginateShape(query, bound, c, next + 2);
      }
  }

  /** The batch counts strictly increase. */
  lemma {:induction false} BatchesIncrease(query: nat -> Query, bound: nat, oldCount: nat, next: nat)
    requires Plausible(query, bound) && oldCount <= bound
    ensures Increasing(Paginate(query, bound, oldCount, next).batches)
    decreases bound - oldCount
  {
    match query(next)
    case TimedOut =>
    case Found(c) =>
      if 0 < c && oldCount < c && query(next + 1).Found? && c < query(next + 1).count {
        var p := Paginate(query, bound, oldCount, next);
        var rest := Paginate(query, bound, c, next + 2);
        assert p.batches == [c] + rest.batches;
        PaginateShape(query, bound, c, next + 2);
        BatchesIncrease(query, bound, c, next + 2);
      }
  }

  /** The query opening batch i of a pagination whose first query is number `next`. */
  function TopQuery(query: nat -> Query, next: nat, i: nat): Query
  {
    query(next + 2 * i)
  }

  /** The re-query that closes batch i. */
  function ReQuery(query: nat -> Query, next: nat, i: nat): Query
  {
    query(next + 2 * i + 1)
  }

  /** Batch i is the answer to the query that opened it. */
  lemma {:induction false} BatchAnswersQuery(query: nat -> Query, bound: nat, oldCount: nat, next: nat, i: nat)
    requires Plausible(query, bound) && oldCount <= bound
    requires i < |Paginate(query, bound, oldCount, next).batches|
    ensures TopQuery(query, next, i) == Found(Paginate(query, bound, oldCount, next).batches[i])
    decreases i
  {
    var p := Paginate(query, bound, oldCount, next);
    var c := query(next).count;
    assert query(next) == Found(c) && p.batches[0] == c;
    if i > 0 {
      assert query(next + 1).Found? && query(next + 1).count > c;
      var rest := Paginate(query, bound, c, next + 2);
      assert p.batches == [c] + rest.batches;
      BatchAnswersQuery(query, bound, c, next + 2, i - 1);
      assert next + 2 * i == (next + 2) + 2 * (i - 1);
    }
  }

  /** Every batch is the answer to the query that opened it. */
  lemma BatchesAnswerQueries(query: nat -> Query, bound: nat, oldCount: nat, next: nat)
    requires Plausible(query, bound) && oldCount <= bound
    ensures var p := Paginate(query, bound, oldCount, next);
      forall i: nat :: i < |p.batches| ==> TopQuery(query, next, i) == Found(p.batches[i])
  {
    forall i: nat | i < |Paginate(query, bound, oldCount, next).batches|
      ensures TopQuery(query, next, i) == Found(Paginate(query, bound, oldCount, next).batches[i])
    {
      BatchAnswersQuery(query, bound, oldCount, next, i);
    }
  }

  /** Batch i, when another follows it, was followed by a re-query that exceeded it. */
  lemma {:induction false} RequeryGrew(query: nat -> Query, bound: nat, oldCount: nat, next: nat, i: nat)
    requires Plausible(query, bound) && oldCount <= bound
    requires i + 1 < |Paginate(query, bound, oldCount, next).batches|
    ensures ReQuery(query, next, i).Found?
    ensures ReQuery(query, next, i).count > Paginate(query, bound, oldCount, next).batches[i]
    decreases i
  {
    var p := Paginate(query, bound, oldCount, next);
    var c := query(next).count;
    assert query(next) == Found(c) && query(next + 1).Found? && query(next + 1).count > c;
    var rest := Paginate(query, bound, c, next + 2);
    assert p.batches == [c] + rest.batches;
    if i > 0 {
      RequeryGrew(query, bound, c, next + 2, i - 1);
      assert next + 2 * i + 1 == (next + 2) + 2 * (i - 1) + 1;
    }
  }

  /** Every batch but the last was followed by a re-query that exceeded it. */
  lemma RequeriesGrew(query: nat -> Query, bound: nat, oldCount: nat, next: nat)
    requires Plausible(query, bound) && oldCount <= bound
    ensures var p := Paginate(query, bound, oldCount, next);
      forall i: nat :: i + 1 < |p.batches| ==>
        ReQuery(query, next, i).Found? && ReQuery(query, next, i).count > p.batches[i]
  {
    forall i: nat | i + 1 < |Paginate(query, bound, oldCount, next).batches|
      ensures ReQuery(query, next, i).Found?
      ensures ReQuery(query, next, i).count > Paginate(query, bound, oldCount, next).batches[i]
    {
      RequeryGrew(query, bound, oldCount, next, i);
    }
  }

  /** The last query issued explains why pagination stopped. */
  lemma {:induction false} LastQueryExplainsStop(query: nat -> Query, bound: nat, oldCount: nat, next: nat)
    requires Plausible(query, bound) && oldCount <= bound
    ensures var p := Paginate(query, bound, oldCount, next);
      var last := query(next + p.queries - 1);
      var n := |p.batches|;
      && (p.stop == Aborted <==> last.TimedOut?)
      && (p.stop == NotGrown ==>
            (last.Found? && 0 < last.count && last.count <= (if n == 0 then oldCount else p.batches[n - 1])))
      && (p.stop == NoNewAfterBatch ==> (n > 0 && last.Found? && last.count <= p.batches[n - 1]))
    decreases bound - oldCount
  {
    match query(next)
    case TimedOut =>
    case Found(c) =>
      if 0 < c && oldCount < c && query(next + 1).Found? && c < query(next + 1).count {
        var p := Paginate(query, bound, oldCount, next);
        var rest := Paginate(query, bound, c, next + 2);
        assert p == Pages([c] + rest.batches, 2 + rest.queries, rest.stop);
        LastQueryExplainsStop(query, bound, c, next + 2);
        if |rest.batches| > 0 {
          assert p.batches[|p.batches| - 1] == rest.batches[|rest.batches| - 1];
        }
      }
  }

  /** A listing that shows 10 items, then 18, then stays at 18: two batches, four queries. */
  lemma PaginateExample()
    ensures var query := (k: nat) => Found(if k == 0 then 10 else 18);
      Paginate(query, 18, 0, 0) == Pages([10, 18], 4, NoNewAfterBatch)
  {
    var query := (k: nat) => Found(if k == 0 then 10 else 18);
    assert Paginate(query, 18, 18, 4) == Pages([], 1, NotGrown);
    assert Paginate(query, 18, 10, 2) == Pages([18], 2, NoNewAfterBatch);
  }

  /**
   * What the browser does with one listed item inside the `try` of
   * main.py:188-216. `recovers` says whether the stale handler's
   * re-resolution, scroll and click (main.py:219-224) succeed; when they do
   * not, their exception is not caught and ends the run.
   */
  datatype Fault =
    | Clean                          // every call succeeds
    | StaleAtScroll(recovers: bool)  // the handle is stale at the scroll, before the image is read (main.py:190)
    | NoImage                        // the image lookup raises `NoSuchElementException` (main.py:193-195)
    | StaleAtClick(recovers: bool)   // the handle is stale at `product.click()`, after the claim step (main.py:208)
    | ClickFails                     // `product.click()` raises anything else (main.py:208)

  /** A listed item: the `src` of its image (`""` for none) and what the browser does with it. */
  datatype Item = Item(src: string, fault: Fault)

  /** An opened item: its source, whether it went through the claim step, and whether its source was on disk when it was opened. */
  datatype Visit = Visit(src: string, checked: bool, saved: bool)

  /**
   * What the crawl carries from item to item: the in-memory set, the set on
   * disk, the items opened so far, and whether an uncaught exception ended
   * the run.
   */
  datatype Progress = Progress(processed: set<string>, disk: set<string>, visits: seq<Visit>, aborted: bool)

  /** The item's image is read, so it goes through the claim step. */
  predicate Reaches(it: Item)
  {
    it.fault.Clean? || it.fault.StaleAtClick? || it.fault.ClickFails?
  }

  /** The click raises an exception that the stale handler does not absorb. */
  predicate ClickAborts(f: Fault)
  {
    f.ClickFails? || (f.StaleAtClick? && !f.recovers)
  }

  /**
   * One item of `for p_index, product in enumerate(products)`. A stale
   * handle at the scroll skips the claim step and, if the handler recovers,
   * opens the item; a missing image ends the run. Otherwise the claim step
   * runs (a new non-empty source is added and saved), a known source is
   * skipped, and the item is then clicked: a click fault the handler does
   * not absorb ends the run with the claim already on disk.
   */
  function Step(pr: Progress, it: Item): Progress
  {
    if !Reaches(it) then
      if it.fault.StaleAtScroll? && it.fault.recovers then
        pr.(visits := pr.visits + [Visit(it.src, false, it.src in pr.disk)])
      else
        pr.(aborted := true)
    else
      var d := Decide(pr.processed, it.src);
      if d == Skip then pr
      else
        var processed := AfterClaim(pr.processed, it.src);
        var disk := if d == Claimed then pr.disk + processed else pr.disk;
        if ClickAborts(it.fault) then
          pr.(processed := processed, disk := disk, aborted := true)
        else
          pr.(processed := processed, disk := disk, visits := pr.visits + [Visit(it.src, true, it.src in disk)])
  }

  /** The items of a batch from index `from` on, up to the first uncaught exception. */
  function RunBatch(pr: Progress, items: seq<Item>, from: nat): Progress
    decreases |items| - from
  {
    if from >= |items| then pr
    else
      var next := Step(pr, items[from]);
      if next.aborted then next else RunBatch(next, items, from + 1)
  }

  /** The items a listing of `count` rows shows for batch number `batch`. */
  function Listed(item: (nat, nat) -> Item, batch: nat, count: nat): seq<Item>
  {
    seq(count, k requires 0 <= k < count => item(batch, k))
  }

  /** The batches of a category from number `from` on, each over its listing, up to the first uncaught exception. */
  function RunBatches(pr: Progress, item: (nat, nat) -> Item, counts: seq<nat>, from: nat): Progress
    decreases |counts| - from
  {
    if from >= |counts| then pr
    else
      var next := RunBatch(pr, Listed(item, from, counts[from]), 0);
      if next.aborted then next else RunBatches(next, item, counts, from + 1)
  }

  /**
   * One category as the browser shows it: whether its card opens, its
   * listing queries, their bound, and its items. `opens` is false when the
   * card is not found again after `driver.back()` (`categories[c_index]`
   * raises), its name, its scroll or its click fails, or the stale retry of
   * the click fails (main.py:145-162); none of these is caught.
   */
  datatype Category = Category(opens: bool, query: nat -> Query, bound: nat, item: (nat, nat) -> Item)

  ghost predicate AllPlausible(cats: seq<Category>)
  {
    forall i :: 0 <= i < |cats| ==> Plausible(cats[i].query, cats[i].bound)
  }

  /**
   * A category: a card that does not open ends the run; otherwise the
   * batches `Paginate` yields, and a timed-out listing wait ends the run
   * after them.
   */
  function RunCategory(pr: Progress, cat: Category): Progress
    requires Plausible(cat.query, cat.bound)
  {
    if !cat.opens then pr.(aborted := true)
    else
    var p := Paginate(cat.query, cat.bound, 0, 0);
    var r := RunBatches(pr, cat.item, p.batches, 0);
    if p.stop == Aborted then r.(aborted := true) else r
  }

  /**
   * A category whose first listing wait times out, as it does on an empty
   * listing, ends the run without claiming anything.
   */
  lemma EmptyListingEndsRun(pr: Progress, cat: Category)
    requires Plausible(cat.query, cat.bound) && cat.opens && cat.query(0).TimedOut?
    ensures RunCategory(pr, cat) == pr.(aborted := true)
  {
  }

  /** The categories from number `from` on, up to the first that ends the run. */
  function RunCategories(pr: Progress, cats: seq<Category>, from: nat): Progress
    requires AllPlausible(cats)
    decreases |cats| - from
  {
    if from >= |cats| then pr
    else
      var next := RunCategory(pr, cats[from]);
      if next.aborted then next else RunCategories(next, cats, from + 1)
  }

  /** No non-empty source that passed the claim step was opened twice. */
  predicate NoRepeats(visits: seq<Visit>)
  {
    forall i, j :: 0 <= i < j < |visits| && visits[i].checked && visits[j].checked && visits[i].src != "" ==>
      visits[i].src != visits[j].src
  }

  /** Every checked, non-empty source opened is in `now` and was not in `before`. */
  ghost predicate NewlyRecorded(visits: seq<Visit>, before: set<string>, now: set<string>)
  {
    forall i :: 0 <= i < |visits| && visits[i].checked && visits[i].src != "" ==>
      visits[i].src in now && visits[i].src !in before
  }

  /** Every checked, non-empty source was on disk when its item was opened. */
  ghost predicate SavedWhenOpened(visits: seq<Visit>)
  {
    forall i :: 0 <= i < |visits| && visits[i].checked && visits[i].src != "" ==> visits[i].saved
  }

  /**
   * The invariant of a run that started from the set `base`: nothing is
   * lost from memory, memory is persisted, and every item opened through
   * the claim step was new, opened once, and saved before it was opened.
   */
  ghost predicate Sound(base: set<string>, pr: Progress)
  {
    && base <= pr.processed
    && pr.processed <= pr.disk
    && NoRepeats(pr.visits)
    && NewlyRecorded(pr.visits, base, pr.processed)
    && SavedWhenOpened(pr.visits)
  }

  /** Neither set loses an entry and the items opened earlier stay as they were. */
  ghost predicate Grows(a: Progress, b: Progress)
  {
    a.processed <= b.processed && a.disk <= b.disk && a.visits <= b.visits
  }

  /** One item keeps the run's invariant. */
  lemma StepSound(base: set<string>, pr: Progress, it: Item)
    requires Sound(base, pr)
    ensures Sound(base, Step(pr, it))
  {
    var r := Step(pr, it);
    if Reaches(it) && Decide(pr.processed, it.src) != Skip && |r.visits| > |pr.visits| {
      var v := Visit(it.src, true, it.src in r.disk);
      assert r.visits == pr.visits + [v];
      if it.src != "" {
        assert it.src !in pr.processed && it.src in r.processed && it.src in r.disk;
        forall i | 0 <= i < |pr.visits| && pr.visits[i].checked && pr.visits[i].src != ""
          ensures pr.visits[i].src != it.src
        {
          assert pr.visits[i].src in pr.processed;
        }
      }
    }
  }

  /** One item changes nothing it should keep. */
  lemma StepGrows(pr: Progress, it: Item)
    ensures Grows(pr, Step(pr, it))
  {
  }

  /** A batch keeps the run's invariant. */
  lemma {:induction false} BatchSound(base: set<string>, pr: Progress, items: seq<Item>, from: nat)
    requires Sound(base, pr)
    ensures Sound(base, RunBatch(pr, items, from))
    decreases |items| - from
  {
    if from < |items| {
      StepSound(base, pr, items[from]);
      if !Step(pr, items[from]).aborted {
        BatchSound(base, Step(pr, items[from]), items, from + 1);
      }
    }
  }

  /** A batch loses nothing. */
  lemma {:induction false} BatchGrows(pr: Progress, items: seq<Item>, from: nat)
    ensures Grows(pr, RunBatch(pr, items, from))
    decreases |items| - from
  {
    if from < |items| {
      var next := Step(pr, items[from]);
      StepGrows(pr, items[from]);
      if !next.aborted {
        BatchGrows(next, items, from + 1);
        assert pr.visits <= next.visits <= RunBatch(next, items, from + 1).visits;
      }
    }
  }

  /** The batches of a category keep the run's invariant. */
  lemma {:induction false} BatchesSound(base: set<string>, pr: Progress, item: (nat, nat) -> Item, counts: seq<nat>, from: nat)
    requires Sound(base, pr)
    ensures Sound(base, RunBatches(pr, item, counts, from))
    decreases |counts| - from
  {
    if from < |counts| {
      var next := RunBatch(pr, Listed(item, from, counts[from]), 0);
      BatchSound(base, pr, Listed(item, from, counts[from]), 0);
      if !next.aborted {
        BatchesSound(base, next, item, counts, from + 1);
      }
    }
  }

  /** The batches of a category lose nothing. */
  lemma {:induction false} BatchesGrow(pr: Progress, item: (nat, nat) -> Item, counts: seq<nat>, from: nat)
    ensures Grows(pr, RunBatches(pr, item, counts, from))
    decreases |counts| - from
  {
    if from < |counts| {
      var next := RunBatch(pr, Listed(item, from, counts[from]), 0);
      BatchGrows(pr, Listed(item, from, counts[from]), 0);
      if !next.aborted {
        BatchesGrow(next, item, counts, from + 1);
        assert pr.visits <= next.visits <= RunBatches(next, item, counts, from + 1).visits;
      }
    }
  }

  /** The categories of a run keep its invariant. */
  lemma {:induction false} CategoriesSound(base: set<string>, pr: Progress, cats: seq<Category>, from: nat)
    requires AllPlausible(cats) && Sound(base, pr)
    ensures Sound(base, RunCategories(pr, cats, from))
    decreases |cats| - from
  {
    if from < |cats| {
      var cat := cats[from];
      BatchesSound(base, pr, cat.item, Paginate(cat.query, cat.bound, 0, 0).batches, 0);
      var next := RunCategory(pr, cat);
      if !next.aborted {
        CategoriesSound(base, next, cats, from + 1);
      }
    }
  }

  /** The categories of a run lose nothing. */
  lemma {:induction false} CategoriesGrow(pr: Progress, cats: seq<Category>, from: nat)
    requires AllPlausible(cats)
    ensures Grows(pr, RunCategories(pr, cats, from))
    decreases |cats| - from
  {
    if from < |cats| {
      var cat := cats[from];
      BatchesGrow(pr, cat.item, Paginate(cat.query, cat.bound, 0, 0).batches, 0);
      var next := RunCategory(pr, cat);
      if !next.aborted {
        CategoriesGrow(next, cats, from + 1);
        assert pr.visits <= next.visits <= RunCategories(next, cats, from + 1).visits;
      }
    }
  }

  /** Every item of `items` whose image is read and whose source is non-empty is recorded in `s`. */
  ghost predicate Covered(items: seq<Item>, s: set<string>)
  {
    forall k :: 0 <= k < |items| && Reaches(items[k]) && items[k].src != "" ==> items[k].src in s
  }

  /** Every batch of every category of `cats` from `from` on is covered by `s`. */
  ghost predicate CategoriesCovered(cats: seq<Category>, from: nat, s: set<string>)
    requires AllPlausible(cats)
  {
    forall i, j :: from <= i < |cats| && 0 <= j < |Paginate(cats[i].query, cats[i].bound, 0, 0).batches| ==>
      Covered(Listed(cats[i].item, j, Paginate(cats[i].query, cats[i].bound, 0, 0).batches[j]), s)
  }

  /** A batch that runs to its end leaves every source it read recorded. */
  lemma {:induction false} BatchRecords(pr: Progress, items: seq<Item>, from: nat)
    requires !RunBatch(pr, items, from).aborted
    ensures forall k :: from <= k < |items| && Reaches(items[k]) && items[k].src != "" ==>
      items[k].src in RunBatch(pr, items, from).processed
    decreases |items| - from
  {
    if from < |items| {
      var next := Step(pr, items[from]);
      BatchRecords(next, items, from + 1);
      BatchGrows(next, items, from + 1);
    }
  }

  /** A batch whose read sources are all recorded already claims nothing: neither set changes. */
  lemma {:induction false} BatchKnown(pr: Progress, items: seq<Item>, from: nat)
    requires forall k :: from <= k < |items| && Reaches(items[k]) && items[k].src != "" ==> items[k].src in pr.processed
    ensures RunBatch(pr, items, from).processed == pr.processed
    ensures RunBatch(pr, items, from).disk == pr.disk
    decreases |items| - from
  {
    if from < |items| {
      var next := Step(pr, items[from]);
      assert next.processed == pr.processed && next.disk == pr.disk;
      if !next.aborted {
        BatchKnown(next, items, from + 1);
      }
    }
  }

  /** Batches that run to their end leave every source they read recorded. */
  lemma {:induction false} BatchesRecord(pr: Progress, item: (nat, nat) -> Item, counts: seq<nat>, from: nat)
    requires !RunBatches(pr, item, counts, from).aborted
    ensures forall j :: from <= j < |counts| ==>
      Covered(Listed(item, j, counts[j]), RunBatches(pr, item, counts, from).processed)
    decreases |counts| - from
  {
    if from < |counts| {
      var items := Listed(item, from, counts[from]);
      var next := RunBatch(pr, items, 0);
      BatchRecords(pr, items, 0);
      BatchesRecord(next, item, counts, from + 1);
      BatchesGrow(next, item, counts, from + 1);
    }
  }

  /** Batches whose read sources are all recorded already claim nothing. */
  lemma {:induction false} BatchesKnown(pr: Progress, item: (nat, nat) -> Item, counts: seq<nat>, from: nat)
    requires forall j :: from <= j < |counts| ==> Covered(Listed(item, j, counts[j]), pr.processed)
    ensures RunBatches(pr, item, counts, from).processed == pr.processed
    ensures RunBatches(pr, item, counts, from).disk == pr.disk
    decreases |counts| - from
  {
    if from < |counts| {
      var items := Listed(item, from, counts[from]);
      BatchKnown(pr, items, 0);
      var next := RunBatch(pr, items, 0);
      if !next.aborted {
        BatchesKnown(next, item, counts, from + 1);
      }
    }
  }

  /** A run that completes leaves every source it read recorded. */
  lemma {:induction false} CategoriesRecord(pr: Progress, cats: seq<Category>, from: nat)
    requires AllPlausible(cats)
    requires !RunCategories(pr, cats, from).aborted
    ensures CategoriesCovered(cats, from, RunCategories(pr, cats, from).processed)
    decreases |cats| - from
  {
    if from < |cats| {
      var cat := cats[from];
      var next := RunCategory(pr, cat);
      BatchesRecord(pr, cat.item, Paginate(cat.query, cat.bound, 0, 0).batches, 0);
      CategoriesRecord(next, cats, from + 1);
      CategoriesGrow(next, cats, from + 1);
    }
  }

  /** A run over categories whose read sources are all recorded already claims nothing. */
  lemma {:induction false} CategoriesKnown(pr: Progress, cats: seq<Category>, from: nat)
    requires AllPlausible(cats)
    requires CategoriesCovered(cats, from, pr.processed)
    ensures RunCategories(pr, cats, from).processed == pr.processed
    ensures RunCategories(pr, cats, from).disk == pr.disk
    decreases |cats| - from
  {
    if from < |cats| {
      var cat := cats[from];
      BatchesKnown(pr, cat.item, Paginate(cat.query, cat.bound, 0, 0).batches, 0);
      var next := RunCategory(pr, cat);
      if !next.aborted {
        CategoriesKnown(next, cats, from + 1);
      }
    }
  }

  /**
   * Dedup convergence: starting the scraper again on the file a completed
   * run left behind (which it loads as its processed set) claims and saves
   * nothing, whatever the file held before the first run.
   */
  lemma RerunClaimsNothing(seen: set<string>, cats: seq<Category>)
    requires AllPlausible(cats)
    requires !RunCategories(Progress(seen, seen, [], false), cats, 0).aborted
    ensures var first := RunCategories(Progress(seen, seen, [], false), cats, 0);
      var again := RunCategories(Progress(first.disk, first.disk, [], false), cats, 0);
      again.processed == first.disk && again.disk == first.disk
  {
    var first := RunCategories(Progress(seen, seen, [], false), cats, 0);
    CategoriesRecord(Progress(seen, seen, [], false), cats, 0);
    CategoriesSound(seen, Progress(seen, seen, [], false), cats, 0);
    assert first.processed <= first.disk;
    CategoriesKnown(Progress(first.disk, first.disk, [], false), cats, 0);
  }

  /** An item that never ends the run: no fault, or a stale handle the handler recovers from. */
  predicate Safe(it: Item)
  {
    it.fault.Clean? || (it.fault.StaleAtScroll? && it.fault.recovers) || (it.fault.StaleAtClick? && it.fault.recovers)
  }

  /** Every category from `from` on opens, paginates without a timed-out wait and lists only safe items. */
  ghost predicate Quiet(cats: seq<Category>, from: nat)
    requires AllPlausible(cats)
  {
    forall i :: from <= i < |cats| ==>
      && cats[i].opens
      && Paginate(cats[i].query, cats[i].bound, 0, 0).stop != Aborted
      && forall j: nat, k: nat ::
           (j < |Paginate(cats[i].query, cats[i].bound, 0, 0).batches| && k < Paginate(cats[i].query, cats[i].bound, 0, 0).batches[j])
           ==> Safe(cats[i].item(j, k))
  }

  /** A batch of safe items runs to its end. */
  lemma {:induction false} SafeBatchCompletes(pr: Progress, items: seq<Item>, from: nat)
    requires !pr.aborted
    requires forall k :: from <= k < |items| ==> Safe(items[k])
    ensures !RunBatch(pr, items, from).aborted
    decreases |items| - from
  {
    if from < |items| {
      SafeBatchCompletes(Step(pr, items[from]), items, from + 1);
    }
  }

  /** Batches of safe items run to their end. */
  lemma {:induction false} SafeBatchesComplete(pr: Progress, item: (nat, nat) -> Item, counts: seq<nat>, from: nat)
    requires !pr.aborted
    requires forall j: nat, k: nat :: from <= j < |counts| && k < counts[j] ==> Safe(item(j, k))
    ensures !RunBatches(pr, item, counts, from).aborted
    decreases |counts| - from
  {
    if from < |counts| {
      var items := Listed(item, from, counts[from]);
      SafeBatchCompletes(pr, items, 0);
      SafeBatchesComplete(RunBatch(pr, items, 0), item, counts, from + 1);
    }
  }

  /** A run whose cards all open, with no timed-out wait and no unrecovered item fault, completes. */
  lemma {:induction false} QuietRunCompletes(pr: Progress, cats: seq<Category>, from: nat)
    requires AllPlausible(cats) && !pr.aborted && Quiet(cats, from)
    ensures !RunCategories(pr, cats, from).aborted
    decreases |cats| - from
  {
    if from < |cats| {
      var cat := cats[from];
      SafeBatchesComplete(pr, cat.item, Paginate(cat.query, cat.bound, 0, 0).batches, 0);
      QuietRunCompletes(RunCategory(pr, cat), cats, from + 1);
    }
  }

  /** A run that completes opened every card and met no timed-out listing wait. */
  lemma {:induction false} CompletedRunNoTimeout(pr: Progress, cats: seq<Category>, from: nat)
    requires AllPlausible(cats)
    requires !RunCategories(pr, cats, from).aborted
    ensures forall i :: from <= i < |cats| ==>
      cats[i].opens && Paginate(cats[i].query, cats[i].bound, 0, 0).stop != Aborted
    decreases |cats| - from
  {
    if from < |cats| {
      CompletedRunNoTimeout(RunCategory(pr, cats[from]), cats, from + 1);
    }
  }

  /**
   * One pass over the items of a batch (`for p_index, product in
   * enumerate(products)`, main.py:187-236), appending the items it opens to
   * `earlier`, the items opened earlier in the run. `aborted` is true when an
   * exception the loop does not catch ends the run.
   */
  method ProcessBatch(store: ProcessedStore, items: seq<Item>, earlier: seq<Visit>)
    returns (visits: seq<Visit>, aborted: bool)
    modifies store
    ensures var r := RunBatch(Progress(old(store.processed), OnDisk(old(store.file)), earlier, false), items, 0);
      && visits == r.visits && aborted == r.aborted
      && store.processed == r.processed && OnDisk(store.file) == r.disk
    ensures old(store.processed) <= store.processed && OnDisk(old(store.file)) <= OnDisk(store.file)
  {
    ghost var start := Progress(store.processed, OnDisk(store.file), earlier, false);
    BatchGrows(start, items, 0);
    visits := earlier;
    var pIndex := 0;
    while pIndex < |items|
      invariant pIndex <= |items|
      invariant RunBatch(start, items, 0) == RunBatch(Progress(store.processed, OnDisk(store.file), visits, false), items, pIndex)
    {
      var it := items[pIndex];
      if it.fault.StaleAtScroll? {
        if !it.fault.recovers {
          return visits, true;
        }
        visits := visits + [Visit(it.src, false, it.src in OnDisk(store.file))];
      } else if it.fault.NoImage? {
        return visits, true;
      } else {
        var d := store.Claim(it.src);
        if d != Skip {
          if ClickAborts(it.fault) {
            return visits, true;
          }
          visits := visits + [Visit(it.src, true, it.src in OnDisk(store.file))];
        }
      }
      pIndex := pIndex + 1;
    }
    aborted := false;
  }

  /** Ties the pagination done so far to the rule: `done` followed by the pagination still to come. */
  ghost predicate Continues(query: nat -> Query, bound: nat, batches: seq<nat>, oldCount: nat, next: nat)
    requires Plausible(query, bound) && oldCount <= bound
  {
    var rest := Paginate(query, bound, oldCount, next);
    Paginate(query, bound, 0, 0) == Pages(batches + rest.batches, next + rest.queries, rest.stop)
  }

  /** A query at the top of the loop that ends pagination. */
  lemma StopAtTop(query: nat -> Query, bound: nat, batches: seq<nat>, oldCount: nat, next: nat)
    requires Plausible(query, bound) && oldCount <= bound
    requires Continues(query, bound, batches, oldCount, next)
    requires query(next).TimedOut? || query(next).count <= oldCount
    ensures Paginate(query, bound, 0, 0) == Pages(batches, next + 1, if query(next).TimedOut? then Aborted else NotGrown)
  {
    assert batches + [] == batches;
  }

  /** A top query that exceeds `old_count` opens the next batch of the pagination. */
  lemma BatchOpens(query: nat -> Query, bound: nat, batches: seq<nat>, oldCount: nat, next: nat, c: nat)
    requires Plausible(query, bound) && oldCount <= bound
    requires Continues(query, bound, batches, oldCount, next)
    requires query(next) == Found(c) && 0 < c && oldCount < c
    ensures batches + [c] <= Paginate(query, bound, 0, 0).batches
  {
    var rest := Paginate(query, bound, oldCount, next);
    assert rest.batches[0] == c;
    assert (batches + rest.batches)[..|batches| + 1] == batches + [c];
  }

  /** A re-query after a batch that ends pagination. */
  lemma StopAfterBatch(query: nat -> Query, bound: nat, batches: seq<nat>, oldCount: nat, next: nat, c: nat)
    requires Plausible(query, bound) && oldCount <= bound
    requires Continues(query, bound, batches, oldCount, next)
    requires query(next) == Found(c) && 0 < c && oldCount < c
    requires query(next + 1).TimedOut? || query(next + 1).count <= c
    ensures Paginate(query, bound, 0, 0) ==
      Pages(batches + [c], next + 2, if query(next + 1).TimedOut? then Aborted else NoNewAfterBatch)
  {
  }

  /** A round that goes on: the batch joins those done and `old_count` becomes its count. */
  lemma GoOn(query: nat -> Query, bound: nat, batches: seq<nat>, oldCount: nat, next: nat, c: nat)
    requires Plausible(query, bound) && oldCount <= bound
    requires Continues(query, bound, batches, oldCount, next)
    requires query(next) == Found(c) && 0 < c && oldCount < c
    requires query(next + 1).Found? && query(next + 1).count > c
    ensures c <= bound
    ensures Continues(query, bound, batches + [c], c, next + 2)
  {
    var more := Paginate(query, bound, c, next + 2);
    assert batches + ([c] + more.batches) == (batches + [c]) + more.batches;
  }

  /**
   * A category visit from `start` ended with `pages` and the state `end`:
   * the state is that of the batches of `Paginate` run from `start`, and
   * `pages.stop` is `Aborted` exactly when one of them or a listing wait
   * ended the run. The pages are a prefix of `Paginate`'s, and all of them
   * unless a batch ended the run.
   */
  ghost predicate CategoryDone(cat: Category, start: Progress, pages: Pages, end: Progress)
    requires Plausible(cat.query, cat.bound)
  {
    var p := Paginate(cat.query, cat.bound, 0, 0);
    var b := RunBatches(start, cat.item, p.batches, 0);
    && end.visits == b.visits && end.processed == b.processed && end.disk == b.disk
    && (pages.stop == Aborted <==> b.aborted || p.stop == Aborted)
    && pages.batches <= p.batches
    && (!b.aborted ==> pages == p)
  }

  /**
   * The loop of a category visit at the top of a round: the pagination so
   * far is `batches` with `old_count = oldCount` and query number `next`
   * next, and running the batches still to come from `cur` gives what
   * running all of them from `start` gives.
   */
  ghost predicate Midway(cat: Category, start: Progress, batches: seq<nat>, oldCount: nat, next: nat, cur: Progress)
    requires Plausible(cat.query, cat.bound)
  {
    && oldCount <= cat.bound
    && Continues(cat.query, cat.bound, batches, oldCount, next)
    && !cur.aborted
    && RunBatches(start, cat.item, Paginate(cat.query, cat.bound, 0, 0).batches, 0) ==
       RunBatches(cur, cat.item, Paginate(cat.query, cat.bound, 0, 0).batches, |batches|)
  }

  /** Before the first round nothing is paginated. */
  lemma CategoryStarts(cat: Category, start: Progress)
    requires Plausible(cat.query, cat.bound) && !start.aborted
    ensures Midway(cat, start, [], 0, 0, start)
  {
    assert [] + Paginate(cat.query, cat.bound, 0, 0).batches == Paginate(cat.query, cat.bound, 0, 0).batches;
  }

  /** A top query that ends pagination ends the visit as `Paginate` does. */
  lemma CategoryStopsAtTop(cat: Category, start: Progress, batches: seq<nat>, oldCount: nat, next: nat, cur: Progress)
    requires Plausible(cat.query, cat.bound) && Midway(cat, start, batches, oldCount, next, cur)
    requires cat.query(next).TimedOut? || cat.query(next).count <= oldCount
    ensures CategoryDone(cat, start, Pages(batches, next + 1, if cat.query(next).TimedOut? then Aborted else NotGrown), cur)
  {
    StopAtTop(cat.query, cat.bound, batches, oldCount, next);
  }

  /** A batch that ends the run ends the visit with its state. */
  lemma CategoryBatchAborts(cat: Category, start: Progress, batches: seq<nat>, oldCount: nat, next: nat, cur: Progress,
                            c: nat, after: Progress)
    requires Plausible(cat.query, cat.bound) && Midway(cat, start, batches, oldCount, next, cur)
    requires cat.query(next) == Found(c) && oldCount < c
    requires after == RunBatch(cur, Listed(cat.item, |batches|, c), 0) && after.aborted
    ensures CategoryDone(cat, start, Pages(batches + [c], next + 1, Aborted), after)
  {
    BatchOpens(cat.query, cat.bound, batches, oldCount, next, c);
  }

  /** A re-query that ends pagination after a batch ends the visit as `Paginate` does. */
  lemma CategoryStopsAfterBatch(cat: Category, start: Progress, batches: seq<nat>, oldCount: nat, next: nat,
                                cur: Progress, c: nat, after: Progress)
    requires Plausible(cat.query, cat.bound) && Midway(cat, start, batches, oldCount, next, cur)
    requires cat.query(next) == Found(c) && oldCount < c
    requires after == RunBatch(cur, Listed(cat.item, |batches|, c), 0) && !after.aborted
    requires cat.query(next + 1).TimedOut? || cat.query(next + 1).count <= c
    ensures CategoryDone(cat, start,
      Pages(batches + [c], next + 2, if cat.query(next + 1).TimedOut? then Aborted else NoNewAfterBatch), after)
  {
    StopAfterBatch(cat.query, cat.bound, batches, oldCount, next, c);
    var p := Paginate(cat.query, cat.bound, 0, 0);
    assert p.batches[|batches|] == c;
    assert RunBatches(cur, cat.item, p.batches, |batches|) == RunBatches(after, cat.item, p.batches, |batches| + 1) == after;
  }

  /** A round that goes on keeps the loop's invariant with the batch appended. */
  lemma CategoryGoesOn(cat: Category, start: Progress, batches: seq<nat>, oldCount: nat, next: nat,
                       cur: Progress, c: nat, after: Progress)
    requires Plausible(cat.query, cat.bound) && Midway(cat, start, batches, oldCount, next, cur)
    requires cat.query(next) == Found(c) && oldCount < c
    requires after == RunBatch(cur, Listed(cat.item, |batches|, c), 0) && !after.aborted
    requires cat.query(next + 1).Found? && cat.query(next + 1).count > c
    ensures Midway(cat, start, batches + [c], c, next + 2, after)
  {
    BatchOpens(cat.query, cat.bound, batches, oldCount, next, c);
    GoOn(cat.query, cat.bound, batches, oldCount, next, c);
  }

  /**
   * One category visit once its card has opened (main.py:165-247): paginate
   * as `Paginate` says, running each batch through `ProcessBatch`;
   * `pages.stop` is `Aborted` when a timed-out wait or an item's uncaught
   * fault ends the run.
   */
  method ProcessCategory(store: ProcessedStore, cat: Category, earlier: seq<Visit>)
    returns (pages: Pages, visits: seq<Visit>)
    requires Plausible(cat.query, cat.bound)
    modifies store
    ensures CategoryDone(cat, Progress(old(store.processed), OnDisk(old(store.file)), earlier, false), pages,
                         Progress(store.processed, OnDisk(store.file), visits, false))
  {
    var query, item := cat.query, cat.item;
    ghost var start := Progress(store.processed, OnDisk(store.file), earlier, false);
    var oldCount: nat := 0;
    var next: nat := 0;
    var batches: seq<nat> := [];
    visits := earlier;
    CategoryStarts(cat, start);
    while true
      invariant Midway(cat, start, batches, oldCount, next, Progress(store.processed, OnDisk(store.file), visits, false))
      decreases cat.bound - oldCount
    {
      ghost var cur := Progress(store.processed, OnDisk(store.file), visits, false);
      var products := query(next);
      // A found count is positive, so `if not products` never breaks here.
      if products.TimedOut? || products.count <= oldCount {
        CategoryStopsAtTop(cat, start, batches, oldCount, next, cur);
        pages := Pages(batches, next + 1, if products.TimedOut? then Aborted else NotGrown);
        return;
      }
      var count := products.count;

      var aborted;
      visits, aborted := ProcessBatch(store, Listed(item, |batches|, count), visits);
      ghost var after := Progress(store.processed, OnDisk(store.file), visits, aborted);
      if aborted {
        CategoryBatchAborts(cat, start, batches, oldCount, next, cur, count, after);
        pages := Pages(batches + [count], next + 1, Aborted);
        return;
      }

      var newProducts := query(next + 1);
      if newProducts.TimedOut? || newProducts.count <= count {
        CategoryStopsAfterBatch(cat, start, batches, oldCount, next, cur, count, after);
        pages := Pages(batches + [count], next + 2, if newProducts.TimedOut? then Aborted else NoNewAfterBatch);
        return;
      }
      CategoryGoesOn(cat, start, batches, oldCount, next, cur, count, after);
      batches, oldCount, next := batches + [count], count, next + 2;
    }
  }

  /**
   * `process_all_products` (main.py:134-250): load the processed set, then
   * visit the categories in order until one ends the run. A corrupt dedup
   * file ends it before anything is opened, and so does the wait for the
   * category cards, which times out when there are none (main.py:138-139).
   * Otherwise `completed` is false exactly when a card that does not open, a
   * timed-out listing wait or an item's uncaught fault ended it.
   */
  method ProcessAllProducts(store: ProcessedStore, categories: seq<Category>)
    returns (visits: seq<Visit>, completed: bool)
    requires AllPlausible(categories)
    modifies store
    ensures old(store.file).Corrupt? ==>
      !completed && visits == [] && store.processed == old(store.processed) && store.file == old(store.file)
    ensures !old(store.file).Corrupt? ==>
      var seen := OnDisk(old(store.file));
      var r := RunCategories(Progress(seen, seen, [], false), categories, 0);
      && visits == r.visits && completed == (0 < |categories| && !r.aborted)
      && store.processed == r.processed && OnDisk(store.file) == r.disk
    ensures !old(store.file).Corrupt? ==>
      && store.Persisted()
      && OnDisk(old(store.file)) <= store.processed
      && NoRepeats(visits) && NewlyRecorded(visits, OnDisk(old(store.file)), store.processed)
      && SavedWhenOpened(visits)
  {
    var loaded := store.Load();
    if !loaded {
      return [], false;
    }
    visits := [];
    ghost var seen := store.processed;
    ghost var start := Progress(seen, seen, [], false);
    CategoriesSound(seen, start, categories, 0);
    if |categories| == 0 {
      return visits, false;
    }
    var cIndex := 0;
    while cIndex < |categories|
      invariant cIndex <= |categories|
      invariant RunCategories(start, categories, 0) ==
        RunCategories(Progress(store.processed, OnDisk(store.file), visits, false), categories, cIndex)
    {
      if !categories[cIndex].opens {
        return visits, false;
      }
      var pages;
      ghost var before := Progress(store.processed, OnDisk(store.file), visits, false);
      pages, visits := ProcessCategory(store, categories[cIndex], visits);
      assert Progress(store.processed, OnDisk(store.file), visits, pages.stop == Aborted) == RunCategory(before, categories[cIndex]);
      if pages.stop == Aborted {
        return visits, false;
      }
      cIndex := cIndex + 1;
    }
    completed := true;
  }
}
