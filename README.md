# buskool scraper — the decision rules of `main.py`, modelled in Dafny

The scraper walks the categories of a produce marketplace, pages through
each listing, opens every item it has not handled before, reads the item's
fields, sends the record to a text-generation webhook and types the
generated reply into the seller chat. Almost all of this happens in the
browser, over HTTP or on disk. This project models the deterministic rules
in between. The browser, the server, the clock and the files are replaced by
their answers, which are passed in as parameters:

- **Outbound gateway** (`send_to_api`), in `gateway.dfy`. A rate-limit gate
  runs once per call. After it come at most `retries + 1` POST requests,
  driven by a sequence of abstract responses. The module-level
  `LAST_API_CALL` becomes the field `lastApiCall` of an `ApiClient` object,
  and it changes only when text comes back. Time is counted in integer
  milliseconds, so `API_INTERVAL` is 1000.
- **Location parse** (in `scrape_single_product`), in `location.dfy`, on
  Python's `str` semantics from `strings.dfy`. A `"<state> - <city>"` text is
  split on `-`. The prefix words استان (province) and شهر (city) are deleted
  and both halves are stripped of white space. Nothing is assigned unless
  the text holds exactly one `-`.
- **Reply typing** (`send_message_text`), in `keys.dfy`. Each line of the
  reply is typed, SHIFT+ENTER goes between lines, and a final ENTER submits.
- **Dedup store and claim step** (`load_processed`, `save_processed`, and
  main.py:199-205), in `dedup.dfy`. The JSON file is a value, which may be
  missing or corrupt. `PROCESSED_PRODUCTS` is a field of a `ProcessedStore`
  object. Save writes the union of the file read afresh and the in-memory
  set.
- **Crawl loop** (`process_all_products`), in `crawl.dfy`. The pagination
  rule is the function `Paginate` over the listing counts the browser would
  report. The item loop is the function `Step`, folded over the items of a
  batch (`RunBatch`), the batches of a category (`RunBatches`,
  `RunCategory`) and the categories of the run (`RunCategories`).
  `ProcessBatch`, `ProcessCategory` and `ProcessAllProducts` run the loops
  as the source does and are proved equal to these folds. `ProcessCategory`
  also paginates exactly as `Paginate` says unless an item ends the run.
  Every item whose image is read goes through the claim step. An item whose
  handle is stale at the scroll is re-resolved and opened without it.
- **Browser guards**, in `browser.dfy`: the forbidden-page check and the
  cookie bootstrap.
- **One product** (`scrape_single_product`), in `product.dfy`. The record is
  filled field by field, then sent through the gateway, and the reply is
  typed.

Behaviour of `main.py` that the model keeps:

- A corrupt dedup file ends the run. `load_processed` does not catch
  `JSONDecodeError` (main.py:432-436); only `save_processed` reads a corrupt
  file as empty (main.py:442-447).
- The rate-limit gate runs once per call, before the first attempt
  (main.py:270-276). Retries are not spaced by it.
- `LAST_API_CALL` is stamped only after a successful attempt
  (main.py:306). So only a successful call guarantees that the next call
  waits `API_INTERVAL`.
- A listing answering 10 on the first query and 18 on every later query
  takes four queries. It processes batches of 10 and 18 items
  (`Crawl.PaginateExample`).
- The listing wait (main.py:177-178, 242-243) returns only a non-empty
  list; on an empty listing it raises `TimeoutException`, which ends the
  run. `if not products` (main.py:179-181) therefore never fires, and the
  model has no stop reason for it (`Crawl.Plausible`).
- The category step is not guarded either. The wait for the category cards
  times out when there are none (main.py:138-139). A card that is not found
  again after `driver.back()`, whose name or scroll fails, or whose click and
  stale retry fail (main.py:145-162) also ends the run (`Crawl.Category`,
  field `opens`).
- Several faults in the item loop are not caught by its
  `except StaleElementReferenceException` (main.py:218), and they end the
  whole run: a missing image (main.py:193-195), a click that fails for
  another reason (main.py:208), and a failure inside the stale handler
  (main.py:219-232). When the click fails, the item's claim has already been
  saved, so the item stays recorded but is never opened.

## Model

| member | source | states |
|---|---|---|
| Strings.FindFrom | main.py:342 | the leftmost occurrence of a pattern at or after a position, or the absence of any occurrence there |
| Strings.Split | main.py:343 | `str.split(sep)`: at least one piece, and the pieces joined with `sep` give the text back |
| Strings.SplitPiecesFree | main.py:254 | no piece of a split holds the separator |
| Strings.SplitAtFirst | main.py:343 | a split cuts at the leftmost occurrence of the separator |
| Strings.SplitNone | main.py:343 | a text without the separator splits into itself alone |
| Strings.NoEarlierOccurrence | main.py:343 | the piece before the leftmost occurrence holds no occurrence |
| Strings.SplitCount | main.py:343 | splitting on one character gives one more piece than the text has occurrences of it |
| Strings.ContainsChar | main.py:342 | `c in s` for a one-character pattern is membership of that character |
| Strings.RemoveAll | main.py:344-345 | `replace(pat, "")` leaves a text without `pat` unchanged and shortens one with `pat` by at least its length |
| Strings.JoinLonger | main.py:344-345 | joining with a separator is at least as long as plain concatenation, and longer by a separator once there are two pieces |
| Strings.JoinWithSnoc | main.py:254-259 | joining a list extended by one piece appends the separator and that piece |
| Strings.SkipSpace | main.py:344-345 | the first index at or after a position that is not white space; everything skipped is white space |
| Strings.TrimEndAt | main.py:344-345 | the end of a slice once trailing white space is cut; everything cut is white space |
| Strings.Strip | main.py:344-345 | `strip()` yields the slice left after leading and trailing white space is cut, which starts and ends with a non-space |
| Strings.Lower | main.py:93 | `lower()` keeps the length, leaves no ASCII capital, and keeps every character that is not one |
| Strings.LowerIdempotent | main.py:93 | lower-casing an already lower-cased text changes nothing |
| Strings.LowerOccurs | main.py:93-94 | an occurrence in the text is an occurrence of the lower-cased pattern in the lower-cased text |
| Strings.LowerSlice | main.py:93-94 | lower-casing a slice equals slicing the lower-cased text |
| Location.ParseLocation | main.py:342-348 | definition, no contract: the (state, city) pair assigned, or none; its properties are stated by Location.ParseDefinedIffOneDash, ParseAtDash, NoDashNoLocation and ManyDashesNoLocation |
| Location.ParseDefinedIffOneDash | main.py:342-348 | a (state, city) pair is assigned exactly when the text holds exactly one `-` |
| Location.TwoDashes | main.py:343 | two `-` at different places are counted twice |
| Location.OnlyDashAt | main.py:343 | the only `-` of a text sits at one index |
| Location.NoDashNoSeparator | main.py:343 | where no character is `-`, the separator does not occur |
| Location.SplitAtSoleDash | main.py:343 | a text whose only `-` is at `i` splits into the text before and after `i` |
| Location.SplitAtOnlyDash | main.py:343 | the same, for a text counting one `-` |
| Location.ParseAtDash | main.py:342-346 | with its only `-` at `i`, the state is the cleaned-up left part (استان removed, stripped) and the city the cleaned-up right part (شهر removed, stripped) |
| Location.NoDashNoLocation | main.py:342 | without `-` both fields keep their empty defaults |
| Location.ManyDashesNoLocation | main.py:343-348 | with two or more `-` the unpacking fails, the handler swallows it and nothing is assigned |
| Keys.Typed | main.py:255-259 | definition, no contract: the text a sequence of key events leaves in the chat box; stated by Keys.TypedSnoc, ReplayChorded, Submit and TypeLines |
| Keys.TypedSnoc | main.py:256-259 | one more key event adds its own text at the end of the chat box |
| Keys.ReplayChorded | main.py:255-258 | replaying the first m lines and the chords between them types those lines joined by line breaks |
| Keys.LaidStep | main.py:255-258 | typing a line, plus a chord unless it is the last, keeps the layout invariant of the loop |
| Keys.Submit | main.py:259 | after the final ENTER: 2n events, lines in order, n - 1 chords, one ENTER, and the lines joined by line breaks in the chat box |
| Keys.TypeLines | main.py:255-259 | the loop emits line k at position 2k, a SHIFT+ENTER between consecutive lines, exactly n - 1 chords, one trailing ENTER, and the text of the lines joined by line breaks |
| Keys.SendMessageText | main.py:253-259 | for the lines of `text.split("\n")` the same layout, replaying the keys gives `text` back, and no typed line holds a line break |
| Gateway.IsRun | main.py:278-318 | definition, no contract: a complete attempt run for given responses; Gateway.RunIsUnique shows it fixes the request count and result, and Gateway.Attempts meets it |
| Gateway.Attempts | main.py:278-318 | a complete run: at most `retries + 1` requests, every one but the last retryable, an early stop only on a non-retryable response, and text returned exactly when the last response delivered it |
| Gateway.RunIsUnique | main.py:278-318 | the responses determine the number of requests and the result |
| Gateway.RejectionStops | main.py:284-287 | a non-200 ends the run at that attempt with nothing, whatever retries remain |
| Gateway.FirstDeliveryReturned | main.py:296-308 | the first response with non-empty `output` ends the run and is returned unchanged |
| Gateway.AllRetryableExhausts | main.py:310-318 | when every response is retryable, all `retries + 1` attempts are made and nothing is returned |
| Gateway.EmptyOutputTwice | main.py:296-304 | with `retries = 1` and empty output twice, exactly two requests are made and the result is None |
| Gateway.DispatchTime | main.py:270-276 | the first request leaves no earlier than now and no earlier than `API_INTERVAL` after the last stamp, at now or exactly at that point |
| Gateway.ApiClient.constructor | main.py:264 | `LAST_API_CALL` starts at 0 |
| Gateway.ApiClient.SendToApi | main.py:268-318 | the gate once, then a complete run; `LAST_API_CALL` takes the success clock on success and is unchanged on every failure path |
| Gateway.SpacedAfterSuccess | main.py:268-276 | after a successful call the next first request leaves at least `API_INTERVAL` after the previous one |
| Dedup.OnDisk | main.py:441-447 | definition, no contract: the set a file holds, empty when missing or corrupt; used by Dedup.ProcessedStore.Load, Save and Claim |
| Dedup.LoadProcessed | main.py:432-436 | definition, no contract: the file's set, the empty set when missing, a failure when corrupt; stated by Dedup.ProcessedStore.Load |
| Dedup.Decide | main.py:199-205 | definition, no contract: skip, claim or pass an image source; stated by Dedup.ProcessedStore.Claim and the Crawl soundness lemmas |
| Dedup.AfterClaim | main.py:203-205 | definition, no contract: the processed set after the claim step; stated by Dedup.ProcessedStore.Claim |
| Dedup.ListOf | main.py:450 | `list(a_set)` holds each element of the set exactly once |
| Dedup.ProcessedStore.constructor | main.py:22 | the in-memory set starts empty |
| Dedup.ProcessedStore.Load | main.py:432-436 | the set becomes the file's set, or the load fails on a corrupt file and the set is kept |
| Dedup.ProcessedStore.Save | main.py:439-454 | the file becomes a list without repeats whose set is the union of the old file's set and the in-memory set, so nothing is lost and everything in memory is persisted |
| Dedup.ProcessedStore.Claim | main.py:199-205 | a known source is skipped with nothing changed; a new non-empty source is added and saved before the item is opened; an empty one passes unrecorded |
| Crawl.Paginate | main.py:165-245 | definition, no contract: the pagination rule over the listing answers; stated by Crawl.PaginateShape, BatchesIncrease, BatchesAnswerQueries, RequeriesGrew, LastQueryExplainsStop and PaginateExample |
| Crawl.PaginateShape | main.py:175-245 | every batch exceeds `old_count` and stays under the bound, there are at most `bound - old_count` batches, and two queries are made per batch plus possibly one |
| Crawl.BatchesIncrease | main.py:182-185 | the batch counts strictly increase |
| Crawl.BatchAnswersQuery | main.py:177-185 | batch i is the count answered by the query that opened it |
| Crawl.BatchesAnswerQueries | main.py:177-185 | every batch is the answer to the query that opened it |
| Crawl.RequeryGrew | main.py:242-245 | the re-query after batch i, when another batch follows, exceeded batch i |
| Crawl.RequeriesGrew | main.py:242-245 | every batch but the last was followed by a re-query that exceeded it |
| Crawl.LastQueryExplainsStop | main.py:175-245 | the last query explains the stop: a timeout, a count not above `old_count`, or a re-query not above the batch |
| Crawl.PaginateExample | main.py:175-245 | a listing answering 10, then 18 forever, gives batches of 10 and 18 after four queries |
| Crawl.Step | main.py:187-236 | definition, no contract: one item of the batch loop (claim step, opening, uncaught faults); stated by Crawl.StepSound and StepGrows |
| Crawl.RunBatch | main.py:187-236 | definition, no contract: the items of a batch up to the first uncaught fault; stated by Crawl.BatchSound, BatchGrows, BatchRecords, BatchKnown and SafeBatchCompletes, and met by Crawl.ProcessBatch |
| Crawl.RunBatches | main.py:175-245 | definition, no contract: the batches of a category up to the first uncaught fault; stated by Crawl.BatchesSound, BatchesGrow, BatchesRecord, BatchesKnown and SafeBatchesComplete |
| Crawl.RunCategory | main.py:145-247 | definition, no contract: one category (card, pagination, batches); stated by Crawl.EmptyListingEndsRun, and met by Crawl.ProcessCategory |
| Crawl.RunCategories | main.py:145-250 | definition, no contract: the categories up to the first that ends the run; stated by Crawl.CategoriesSound, CategoriesGrow, CategoriesRecord, CategoriesKnown, RerunClaimsNothing, QuietRunCompletes and CompletedRunNoTimeout, and met by Crawl.ProcessAllProducts |
| Crawl.StepSound | main.py:187-236 | one item keeps the run's invariant: memory is persisted and loses nothing, and every item opened through the claim step was new, is opened once, and was saved before it was opened |
| Crawl.StepGrows | main.py:199-205 | one item loses no entry of memory or of the file and keeps the items opened before it |
| Crawl.BatchSound | main.py:187-236 | a batch keeps the same invariant |
| Crawl.BatchGrows | main.py:187-236 | a batch loses no entry and keeps the items opened before it |
| Crawl.BatchesSound | main.py:175-245 | the batches of a category keep the invariant |
| Crawl.BatchesGrow | main.py:175-245 | the batches of a category lose no entry |
| Crawl.CategoriesSound | main.py:145-250 | a whole run keeps the invariant |
| Crawl.CategoriesGrow | main.py:145-250 | a whole run loses no entry |
| Crawl.BatchRecords | main.py:193-205 | a batch that runs to its end leaves every non-empty source it read recorded |
| Crawl.BatchKnown | main.py:199-205 | a batch whose read sources are already recorded changes neither memory nor the file |
| Crawl.BatchesRecord | main.py:175-245 | batches that run to their end leave every source they read recorded |
| Crawl.BatchesKnown | main.py:175-245 | batches whose read sources are recorded change nothing |
| Crawl.CategoriesRecord | main.py:145-250 | a completed run leaves every source it read recorded |
| Crawl.CategoriesKnown | main.py:145-250 | a run over recorded sources changes neither memory nor the file |
| Crawl.RerunClaimsNothing | main.py:134-250 | starting the scraper again on the file a completed run left behind claims and saves nothing |
| Crawl.SafeBatchCompletes | main.py:187-232 | a batch with no unrecovered fault runs to its end |
| Crawl.SafeBatchesComplete | main.py:175-245 | batches with no unrecovered fault run to their end |
| Crawl.QuietRunCompletes | main.py:145-250 | a run whose category cards all open, with no timed-out wait and no unrecovered item fault, completes |
| Crawl.CompletedRunNoTimeout | main.py:145-245 | a completed run opened every category card and met no timed-out listing wait |
| Crawl.EmptyListingEndsRun | main.py:177-178 | a category whose first listing wait times out, as on an empty listing, ends the run and changes nothing else |
| Crawl.ProcessBatch | main.py:187-236 | the loop over a batch is `RunBatch`: the items opened, whether an uncaught fault ended the run, and the new memory and file; neither loses an entry |
| Crawl.StopAtTop | main.py:177-183 | a top query that times out (as it does on an empty listing) or does not exceed `old_count` ends pagination there |
| Crawl.BatchOpens | main.py:177-185 | a top query above `old_count` is the next batch of the pagination |
| Crawl.StopAfterBatch | main.py:242-245 | a re-query that times out or does not exceed the batch ends pagination after that batch |
| Crawl.GoOn | main.py:182-245 | a round that goes on appends its batch and raises `old_count` to it |
| Crawl.CategoryStarts | main.py:165-166 | before the first round nothing is paginated and the batches still to come are all of `Paginate`'s |
| Crawl.CategoryStopsAtTop | main.py:177-183 | a top query that ends pagination ends the visit with the state reached so far and the pages `Paginate` gives |
| Crawl.CategoryBatchAborts | main.py:185-240 | a batch whose item ends the run ends the visit with that batch's state, stopped as `Aborted` |
| Crawl.CategoryStopsAfterBatch | main.py:242-245 | a re-query that ends pagination after a completed batch ends the visit with that batch's state and the pages `Paginate` gives |
| Crawl.CategoryGoesOn | main.py:182-245 | a completed batch followed by a grown listing keeps the loop's invariant, with the batch appended and `old_count` raised to it |
| Crawl.ProcessCategory | main.py:165-247 | the new store, disk and visits are those of `RunBatches` over `Paginate`'s batches from the old ones; `pages.stop` is `Aborted` exactly when a batch or a listing wait ended the run; its pages are a prefix of `Paginate`'s, and all of them unless a batch ended the run |
| Crawl.ProcessAllProducts | main.py:134-250 | a corrupt file, or no category card to wait for, ends the run before anything is opened; otherwise the run is `RunCategories` from the file's set, its completion flag is that fold's, memory is persisted, nothing on disk is lost, and every item opened through the claim step was new, opened once and saved before it was opened |
| Browser.IsForbidden | main.py:93-94 | definition, no contract: the lower-cased page holds "error 403" or "forbidden"; stated by Browser.ForbiddenInAnyCase and CleanPagePasses |
| Browser.ForbiddenInAnyCase | main.py:93-97 | a marker in any letter case stops the run |
| Browser.CleanPagePasses | main.py:93-99 | a page without either marker in any case passes |
| Browser.Eligible | main.py:69-74 | the sanitised cookies with a name and a value, at most one per cookie in the file |
| Browser.Accepted | main.py:75-80 | the cookies the driver accepts, drawn from those offered |
| Browser.EligibleSnoc | main.py:69-74 | eligibility of a file extended by one cookie |
| Browser.EligiblePrefix | main.py:69-74 | the eligible cookies among the first i + 1 of a file |
| Browser.AcceptedSnoc | main.py:75-80 | acceptance of a list extended by one cookie |
| Browser.LoadCookiesFromFile | main.py:58-89 | no file means False and nothing added; otherwise the result is the refresh's outcome, the accepted eligible cookies are added in file order, and success plus failure counts equal the eligible cookies |
| Product.ExtractFields | main.py:321-401 | each field is its own element's text or `""` when missing; state and city are the location parse or `""`; category and sub-category come from the first two breadcrumbs or stay `""`; the phone is the placeholder |
| Product.ScrapeSingleProduct | main.py:321-429 | the gateway is called once with `retries = 1`; a reply is typed exactly when text came back and the chat opens, and it types that text and ends in ENTER |

## Left out

- Browser automation: the driver, waits, clicks, scrolling, window handles, `scroll_until_end` and `start_browser`. Each lookup is replaced by its answer: a count, a string, `None` or a timeout.
- The HTTP requests themselves, and `p.py`, a one-shot test script. Responses come in as a sequence.
- File contents as bytes, JSON encoding, `ensure_ascii` and indentation. A file is a value: missing, corrupt, or a list of strings.
- `write_log` and `print`, which do not affect control flow.
- `time.sleep` and the float clock. Time is integer milliseconds passed in. The clock reading at success is a parameter of `SendToApi`.
- A JSON body whose `output` is not a string, or is not a dict: the model treats both as no text. A truthy non-string `output` would be returned by the source.
- Strings.Lower: ASCII letters only. Both markers and every ASCII spelling of them are covered, but non-ASCII case mappings are not.
- Strings.RemoveAll: its contract states the no-occurrence case and the length drop. The exact result, the split pieces concatenated, is its definition, which the location lemmas use.
- Product.ScrapeSingleProduct: states only the title and price fields of the record. All fields are stated by `Product.ExtractFields`, which it calls.
- The per-item scrape inside the crawl (main.py:234) and its tab handling. `Crawl.ProcessBatch` records which items are opened; `Product.ScrapeSingleProduct` models one scrape. An exception escaping the scrape itself is not modelled as ending the run.
- Crawl.ProcessBatch: the stale handler rebinds `products` to the re-resolved list, and the re-query check at main.py:244 then compares against that list's length. The model compares against the batch count. Faults are kept at the scroll, the image lookup and the click; a stale image element between the lookup and the click is not modelled separately.
- The category-card lookup and its stale retry (main.py:145-162) are reduced to one flag, `Crawl.Category`'s `opens`: any failure there ends the run. The optional "new products" button (main.py:167-173) swallows its own failure and does not change control flow.
- Pagination termination assumes the site reports at most `bound` items per listing (`Crawl.Plausible`). The source has no such bound and relies on the site.
- An image source of `None` is modelled as `""`. Both are falsy and are never added. They differ only when the file itself holds `""`: the model then skips an image without `src`, whereas the code opens it, because `None in {""}` is false.
- The placeholder phone (main.py:375) is stated but not reasoned about. The reply chain's catch-all, which logs "success" (main.py:425-426), is a swallowed failure: no reply keys.
- Category and cookie attribute values are strings. The other JSON types a cookie file may hold are not modelled, nor is a cookie file that fails to parse (the source raises).
- The `__main__` block and its cleanup.
