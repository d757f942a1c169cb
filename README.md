# Incremental catalog sync of an anime crawler, modelled in Dafny

`scraper.py` crawls the "Latest Update" listing of an anime site. For each
show it opens the detail page and the watch page, and records the player
source of each episode in a JSON catalog. Each run does only part of the work:
- it skips shows whose stored record is complete;
- it retries only the episodes whose status is `error` or `pending`;
- it attempts at most five episodes per show;
- it carries over every stored show it did not visit.

This project models that bookkeeping as plain data. Browser interaction
becomes inputs:
- whether each page of the walk could be reached;
- for each slot, whether it vanished, could not be clicked, opened (with its
  badge text and the last player `src` read), or raised an exception;
- for each listing item, how its visit ended.

Modules, by the part of the program they follow:

- `PyStr`: the Python string and integer semantics the code relies on:
  - `strip` with Python's whitespace set;
  - `isdigit`, `replace`, `split`, `startswith`, `find`;
  - `int(text)`, including signs, surrounding whitespace and `_` digit
    separators;
  - `str(n)`.
- `Catalog`: the stored records (show, episode, the four statuses) and the
  records the crawler writes: a scraped episode, a failed one, a `pending`
  placeholder.
- `Freshness`: looking a show up by its detail URL and the need-update
  predicate.
- `Pagination`: the blank-option filter and the episode-page label filter.
  Also the total episode count, the global range a page label covers, and the
  list of pages walked.
- `Scheduler`: the episode loop. It covers:
  - per-page selection of slots that need work;
  - the in-place list `episodes_data` (class `EpisodeList`), with the padding
    success write and the appending error write;
  - the budget of five attempts, and the page and slot loops with their
    `break`s and `continue`s.

  The methods `SelectSlots`, `RunPage` and `RunEpisodeLoop` are proved equal
  to the specification functions `SelectFrom`, `PageStep` and `Sweep`. The
  lemmas about those functions give the budget bound and the stop at the
  budget. They also show that selection is exact, that settled entries are
  never rewritten, that the `success` count never drops, and that every
  record written is well formed.
- `Merge`: the listing loop and the final reconciliation. A stored record
  is a Python dictionary. It is shared by `existing_data`, by
  `existing_anime`, and by every entry of `scraped_data` that appended it.
  The episode loop and `existing_anime.update` change it in place. The model
  keeps that sharing:
  - the stored catalog is threaded from item to item (`Listing.catalog`);
  - an entry of `scraped_data` is either a reference to a catalog position
    (`Stored`) or a record built during the run (`Fresh`);
  - references are read only when the loop is over (`Resolve`), so an
    earlier entry sees later updates of its record;
  - `existing_anime` is carried from one item to the next (`Binding`), since
    the exception handler reads whatever value it last held.

  `CollectVisits`, `HandleVisit` and `SyncCatalog` are proved equal to the
  specification functions `Collected`, `ListingStep` and `Saved`. The
  episode loop of a visit is `Scheduler.RunEpisodeLoop`, run on the show's
  own stored list.
- `Details`: the genre, metadata and poster-`style` filters.

Python semantics kept explicit:
- **Wrap-around start.** A label `0-n` gives a page start of -1. The
  crawler's list indexing then reaches the last entry (Python's negative
  indices). On an empty list it raises IndexError. That error escapes the
  episode loop to the show's exception handler. `PyIndex` models the
  indexing and `Progress.aborted` the escaped exception.
- **Error write.** The slot handler's error write appends one entry when the
  index is past the end, so the record for index `g` can land at a smaller
  position (`FailedWriteMisaligned`). The success write pads with `pending`
  placeholders and stays aligned (`WriteScrapedEffect`).
- **Pending counts as present.** A `pending` entry counts as present in the
  need-update check. A long enough list of placeholders with no `error`
  passes as complete (`PlaceholdersCountAsPresent`).

What the code does, as modelled:
- **Page detection.**
  - With no page dropdown, the total is 5 and the walk is the single label
    `01-100`.
  - When every option was read, the walk is the kept labels, or the current
    selection's label when none is kept. The total comes from the last kept
    label, or is 100 when none is kept.
  - When reading an option raises, the walk is the non-blank texts read so
    far. They are unfiltered, because the filter never ran. The total is 5.
  - When closing the dropdown raises, the walk is the filtered labels and
    the total is 5.
- **Label filter.** Plain digit labels are kept as well as labels with `-`.
  Spaces and extra dashes are ignored, and the labels are not sorted. A label
  with two or more dashes is kept, but it does not unpack into a start and an
  end. As the last label it makes the total 100 per kept page, and its page
  is placed by position (`ThreePartLabelFallsBack`).
- **Range end.** The end bound a page label gives (`page_end_episode`) is only
  printed. Selection runs over the slots actually found on the page.
- **Page outcomes.**
  - A page that cannot be switched to, whose option is not found, or whose
    slots do not appear within the wait is skipped (`PageView.Unreachable`).
  - Listing the slots after the wait (line 315) is outside every `try` of the
    page loop. When it raises, the episode loop is abandoned and the item's
    exception handler runs (`PageView.ListingRaised`, `Progress.aborted`,
    `Merge.Rescue`).
- **Slot outcomes.**
  - A slot that cannot be clicked, or that has vanished, is skipped. It
    writes no record and uses no budget.
  - An opened slot is written by the success path. Its status is `success`
    when the last source read is playable and `error` otherwise, so it is
    padded and aligned like any success-path write.
  - An exception inside the slot handler writes the handler's `error` record.
  - A source is playable when it is present, non-empty and not
    `about:blank`. There is no allow-list and no sub/dub variant switching.
- **Known show appended twice.** After a completed visit two things can
  raise: the progress line divides by the total, so a total of 0 raises, and
  closing the pages can fail. Either way the record has already been
  appended, and the handler appends a known show's record once more
  (`ZeroTotalAppendsKnownShowTwice`).
- **Later lookups see in-place updates.** A later item with the same URL
  finds the rewritten record. It can then judge the show up to date and
  append it again (`LaterLookupSeesUpdate`).
- **Failure before the lookup.** An exception while reading an item's poster
  or title link comes before `existing_anime` is assigned for that item.
  - The handler then re-appends the previous item's known show
    (`FailureRepeatsLastShow`).
  - If no earlier item was looked up, the handler's own test raises
    UnboundLocalError. That escapes the listing loop, and no catalog is
    written (`NothingSavedExactly`).
  - One way this happens: the label loop reuses the name `page` (line 229).
    A later item's poster retry then calls `wait_for_timeout` on a string
    and raises. The model takes such exceptions as an input
    (`Visit.RaisedBeforeLookup`).

## Model

| member | source | states |
|---|---|---|
| `Freshness.LookUp` | scraper.py:84-100 | Returns `Absent` exactly when no stored record has the URL. Otherwise it classifies the first record with that URL, and the result is `Outdated` exactly when that record needs an update. |
| `Freshness.Classify` | scraper.py:84-100 | `Absent` exactly when no stored record has the URL. Otherwise the result carries the first record with that URL, and it is `Outdated` exactly when that record needs an update. |
| `Freshness.NeedsUpdate` | scraper.py:90-96 | A show with an `error` entry needs an update. A show that does not need one has at least `total_episodes` entries and no `error` entry. |
| `Freshness.FirstMatch` | scraper.py:84-88 | The index returned holds the URL and no earlier record does; `None` means no record from `from` on holds it. |
| `Freshness.DoneOrPendingAll` | scraper.py:90 | When every entry is `success` or `pending`, all of them count as present. |
| `Freshness.ShortListNeedsUpdate` | scraper.py:90-96 | A show whose list is shorter than its `total_episodes` always needs an update. |
| `Freshness.CompleteShowIsUpToDate` | scraper.py:90-99 | A show with at least `total_episodes` entries, all `success`, does not need an update. |
| `Freshness.PlaceholdersCountAsPresent` | scraper.py:90-95 | A long-enough list of `pending` placeholders with one `success` and no `error` passes as up to date. |
| `Pagination.NonBlank` | scraper.py:220-223 | Every option text collected is non-empty and not all whitespace. |
| `Pagination.NonBlankMembership` | scraper.py:220-223 | A text is collected if and only if it is among the options and is non-blank. |
| `Pagination.NonBlankIsSubsequence` | scraper.py:220-223 | The collected texts are a subsequence of the options, in their order. |
| `Pagination.EpisodePageLabels` | scraper.py:228-232 | Every label kept is a digit run, or contains `-` and is all digits once `-` and spaces are removed. |
| `Pagination.FilterPageLabels` | scraper.py:228-234 | The filtering loop computes exactly the kept labels. |
| `Pagination.EpisodePageLabelsMembership` | scraper.py:228-232 | A label is kept if and only if it is in the input and passes the episode-page test. |
| `Pagination.EpisodePageLabelsIsSubsequence` | scraper.py:228-234 | The kept labels are a subsequence of the input, in the input's order. |
| `Pagination.EpisodePageLabelIsNonBlank` | scraper.py:222-231 | Every label passing the episode-page test also passes the blank-option check. |
| `Pagination.BlankOptionsNeverKept` | scraper.py:220-234 | Dropping blank options first does not change which labels are kept. |
| `Pagination.TotalFromLabels` | scraper.py:238-253 | No kept label gives 100. A last label with `-` gives its end when it unpacks into two parts whose second is an integer. Otherwise it gives 100 per kept label. |
| `Pagination.DetectedPages` | scraper.py:203-263 | No dropdown gives no labels. A dropdown read in full, or one whose closing raised, gives the episode-page labels of its options. A read that raised gives exactly the non-blank texts read before the raise, in order. |
| `Pagination.WalkedPages` | scraper.py:199-273 | At least one page is walked. Without a dropdown the walk is `01-100`. Otherwise it is the detected labels, or the current selection alone when none was detected. |
| `Pagination.TotalEpisodes` | scraper.py:236-263 | The total is 5 when there is no dropdown or the detection raised. Otherwise it is the total from the kept labels, however many blank options there were. |
| `Pagination.TotalOfRangeLabel` | scraper.py:238-243 | A last kept label `a-b` written in decimal, leading zeros allowed, gives the total `b`. |
| `Pagination.TotalOfPlainLabel` | scraper.py:247-249 | A last kept label that is a decimal numeral `n` gives the total `n`. |
| `Pagination.TotalWithoutEpisodeOptions` | scraper.py:251-252 | A dropdown read in full, none of whose options is an episode-page label, gives the total 100 whatever its current selection. |
| `Pagination.TotalEpisodesNonNegative` | scraper.py:236-263 | The detected total is never negative. |
| `Pagination.PageRange` | scraper.py:320-331 | The start of every page range is at least -1. |
| `Pagination.PageRangeOfNumerals` | scraper.py:320-325 | A label `a-b` covers global indices `a-1` up to `b`, whatever its position and slot count. |
| `Pagination.PageRangeByPosition` | scraper.py:321-331 | A label that is not two integers around one `-` starts at `page_index * 100` and spans exactly the page's slots. This covers labels without `-` as well as failed unpackings. |
| `Pagination.DashedDigitsAreLabels` | scraper.py:231 | A text of digits and `-` that starts with a digit and holds a `-` passes the label filter, whatever its number of dashes. |
| `Pagination.ThreePartLabelFallsBack` | scraper.py:238-247 | A last label `x-y-z` is kept. It gives the total `len(available_pages) * 100`, and its page starts at `page_index * 100` with one index per slot. |
| `Pagination.TotalIsLastPageEnd` | scraper.py:240-243 | When the last label is a well-formed `a-b`, the total equals the end bound of that page's range. |
| `Pagination.PagesToWalk` | scraper.py:272-273 | The walk has at least one page. It is the kept labels whenever any were kept, and the current page label alone otherwise. |
| `Catalog.SubdubLabel` | scraper.py:424 | The `subdub` written is the detected variant if it is non-empty, else `"None"`. |
| `Catalog.Placeholder` | scraper.py:435-441 | A padding entry at position `k` is `pending` and numbered `EP k+1`. |
| `Catalog.FailedEpisode` | scraper.py:449-456 | The handler's record for index `g` is `error`, numbered `EP g+1`, with no qualities. |
| `Catalog.ScrapedEpisode` | scraper.py:405-427 | The record is `success` exactly when the last source read is playable, and `error` otherwise. A `success` record holds that source, and it is well formed. |
| `Scheduler.SelectFrom` | scraper.py:336-343 | Every selected slot is in range and needs work. The selection is strictly increasing. |
| `Scheduler.SelectSlots` | scraper.py:336-343 | The append loop computes the selection, or `None` when a status lookup raises IndexError. |
| `Scheduler.SelectExactly` | scraper.py:338-343 | A slot is selected iff its global index is past the end of the list, or that entry is `error` or `pending`. |
| `Scheduler.SettledNeverSelected` | scraper.py:342 | An in-range entry that is `success` (or has any status other than `error` or `pending`) is never selected. |
| `Scheduler.SelectRaisesOnlyOnEmptyWrap` | scraper.py:322-343 | The selection raises if and only if the page starts at -1 and the list is empty. |
| `Scheduler.WriteScraped` | scraper.py:430-442 | The success write raises only below `-len`. Past the end it makes the list exactly `g+1` long, and the record lands at `g`. |
| `Scheduler.WriteFailed` | scraper.py:458-461 | The handler write raises only below `-len`. Past the end it appends the record once, whatever `g` is. |
| `Scheduler.SlotStep` | scraper.py:363-464 | No slot shortens the list. An opened slot at `g >= 0` counts one attempt and writes at `g` a record whose status is `success` exactly when its source is playable. A raising slot inside the list writes the handler record at `g` and counts one. |
| `Scheduler.FailSlot` | scraper.py:447-464 | The handler's write raises past the loop exactly when `g` is below `-len`, leaving list and count as they were. Otherwise it counts one attempt and never shortens the list. Inside the list it writes the handler record at `g`. |
| `Scheduler.PageStep` | scraper.py:352-464 | The slot loop never shortens the list or lowers the count. |
| `Scheduler.SweepFrom` | scraper.py:277-469 | The page loop never shortens the list or lowers the count. |
| `Scheduler.Sweep` | scraper.py:266-469 | The episode loop over the pages walked never shortens the list. Its budget, settled-entry and success-count properties are the lemmas `RunWithinBudget`, `RunKeepsSettled` and `RunNeverLosesSuccesses`. |
| `Scheduler.EpisodeList.constructor` | scraper.py:266 | The list starts as the given episodes. |
| `Scheduler.EpisodeList.StoreScraped` | scraper.py:430-442 | The new list is the success write of the old one: pad, then assign. If the assignment raises, the list is unchanged. |
| `Scheduler.EpisodeList.StoreFailed` | scraper.py:458-461 | The new list is the handler's write of the old one: assign, or append once past the end. If the assignment raises, the list is unchanged. |
| `Scheduler.WriteScrapedEffect` | scraper.py:430-442 | A success write at index `g >= 0` leaves the list longer than `g`, with the record at `g` and every other old entry unchanged. Every added position `k < g` holds a `pending` placeholder `EP k+1`. |
| `Scheduler.NegativeIndexWrites` | scraper.py:430-431 | A negative index rewrites the entry counted from the end. It raises exactly when the index is below `-len`, and both writes agree there. |
| `Scheduler.FailedWriteMisaligned` | scraper.py:458-461 | An error write past the end places the record for `g` at position `len(items)`, which is below `g`. |
| `Scheduler.SlotStepCounts` | scraper.py:363-464 | A vanished or unclickable slot changes nothing and counts nothing. An abort leaves the list and count as they were. A completed attempt counts exactly one. |
| `Scheduler.PageStepWithinBudget` | scraper.py:352-464 | The slot loop never lowers the count and never takes it beyond 5. |
| `Scheduler.RunWithinBudget` | scraper.py:266-469 | Within one show, `total_scraped_in_this_run` never exceeds 5. |
| `Scheduler.SweepStopsAtBudget` | scraper.py:352-469 | Once the count reaches 5, later pages leave the list and the count unchanged. |
| `Scheduler.SkippedSlotsCountNothing` | scraper.py:363-402 | A run of vanished or unclickable slots leaves the state unchanged. |
| `Scheduler.AttemptsCountUntilBudget` | scraper.py:352-464 | Suppose every remaining slot opens or raises and nothing aborts. Then the count rises by one per slot until it reaches 5. |
| `Scheduler.RunPage` | scraper.py:352-464 | The slot loop of one page computes the page step: new list, count, abort flag. |
| `Scheduler.AttemptSlot` | scraper.py:360-464 | The body for one slot leaves the list, the count and the abort flag as the slot step says. |
| `Scheduler.RunEpisodeLoop` | scraper.py:266-469 | The page loop computes the whole sweep over the pages walked, updating the list in place. |
| `Scheduler.WriteProtects` | scraper.py:338-461 | A write at a slot selected against list `b` keeps every settled entry of `b`, including when index -1 wraps around. |
| `Scheduler.RunKeepsSettled` | scraper.py:336-461 | The episode loop never shortens the list and never rewrites an entry that was `success` when it began. |
| `Scheduler.ProtectsKeepsSuccessCount` | scraper.py:336-461 | A list that keeps every settled entry of another has at least as many `success` entries. |
| `Scheduler.RunNeverLosesSuccesses` | scraper.py:336-461 | The number of `success` entries never drops during the episode loop. |
| `Scheduler.RunKeepsWellFormed` | scraper.py:420-461 | If every stored `success` entry holds a playable source as its only quality, that still holds after the loop. |
| `Scheduler.DefaultPageStartsAtZero` | scraper.py:200 | The default page label `01-100` starts at global index 0. |
| `Scheduler.RetriesFailedAndPending` | scraper.py:336-469 | A show stored as `[success, error, pending]` on a page starting at 0: the run keeps index 0, and the list is the slot step at index 1 followed by the slot step at index 2. Neither rewritten entry is left `pending`, and the run uses two attempts. |
| `Merge.InitialEpisodes` | scraper.py:266 | The loop starts from the stored episodes of a known show, or from an empty list. |
| `Merge.FreshInfo` | scraper.py:472-486 | The refreshed record has a stripped title and synopsis, the visited URL, the detected total, and 100 episodes per page. |
| `Merge.FreshRecord` | scraper.py:472-486 | The built record has the visited URL, the list the episode loop left, the detected total and the walked pages. |
| `Merge.Crawl` | scraper.py:266-469 | The episode loop of a visit, run from the known show's stored list or from an empty one, uses at most 5 attempts and keeps every settled stored entry in place. |
| `Merge.WithEpisodes` | scraper.py:266-469 | A known show's record keeps its info and now holds the list the episode loop left, because that list is the record's own. No other record and no `scraped_data` entry changes. |
| `Merge.Finish` | scraper.py:489-493 | A known show's record becomes the built record and a reference to it is appended. A new show's record is appended as built, and the catalog is unchanged. No other position changes. |
| `Merge.Rescue` | scraper.py:509-513 | The handler appends a reference to the last looked-up show when it was stored, and otherwise appends nothing. |
| `Merge.VisitStep` | scraper.py:80-513 | `existing_anime` becomes the first stored position of the URL, or `None`. Catalog positions stay the same, and every reference stays in range. |
| `Merge.CrawledStep` | scraper.py:266-513 | After a crawled visit `existing_anime` is unchanged, the catalog keeps its length, and every reference stays in range. |
| `Merge.ListingStep` | scraper.py:54-513 | A failure before the lookup raises past the loop exactly when `existing_anime` was never assigned. It re-appends a known show. An item without a title link changes nothing. |
| `Merge.Collected` | scraper.py:49-518 | After any prefix of the items the catalog keeps its length and every reference is in range. |
| `Merge.HandleVisit` | scraper.py:54-518 | The loop body, with its lookup loop and its in-place episode loop, computes the listing step. |
| `Merge.Resolve` | scraper.py:520-544 | Each entry reads as the current catalog record it refers to, or as the built record. |
| `Merge.CollectVisits` | scraper.py:49-518 | The listing loop computes the listing state after all items, or `None` once an exception escapes it. |
| `Merge.UpToDateCarriedOver` | scraper.py:84-105 | An item found up to date appends a reference to the first stored record of its URL, which is that record as found. It changes no record. |
| `Merge.LaterLookupSeesUpdate` | scraper.py:84-491 | A completed visit of an outdated show rewrites its record in place. A later lookup of the URL classifies the rewritten record, and if that record is complete, a second item appends the same reference again. |
| `Merge.ZeroTotalAppendsKnownShowTwice` | scraper.py:489-513 | With a total of 0 a completed visit appends a known show twice, whose record now holds the new list. It appends a new show once. |
| `Merge.SavedKeepsStoredRecords` | scraper.py:84-544 | Whenever a catalog is written, it holds, for every first stored record of a URL, a record with that URL. That record keeps every settled entry of the stored list and at least as many `success` entries. |
| `Merge.SavedAddsStoredRecordsAsLoaded` | scraper.py:84-544 | Whenever a catalog is written, the records reconciliation adds are the stored records as loaded whose URL was not collected, in stored order. A record the run changed in place was also appended, so its URL is collected. |
| `Merge.CollectedFailsExactly` | scraper.py:49-550 | The listing loop fails exactly when some item fails before its lookup while no earlier item was looked up. Otherwise `existing_anime` is unassigned exactly when no item was looked up. |
| `Merge.NothingSavedExactly` | scraper.py:509-550 | No catalog is written exactly when some item fails before its lookup ahead of every looked-up item. |
| `Merge.FailureRepeatsLastShow` | scraper.py:54-513 | An item failing before its lookup, after a stored show was looked up, appends that show's reference again and changes nothing else. |
| `Merge.Urls` | scraper.py:521 | The URL list has one entry per record, in order. |
| `Merge.Reconcile` | scraper.py:520-524 | The result is this run's records followed by the stored records whose URL was not collected, in stored order. |
| `Merge.Unvisited` | scraper.py:522-524 | The added records are at most the stored ones, and none has a collected URL. |
| `Merge.SyncCatalog` | scraper.py:49-544 | The listing loop followed by the reconciliation computes what is written, or `None` when nothing is. |
| `Merge.UnvisitedMembership` | scraper.py:522-524 | A record is added if and only if it is stored and its URL was not collected. |
| `Merge.ReconcileCoversExisting` | scraper.py:520-524 | After reconciliation every stored show's URL is present. |
| `Merge.UnvisitedOnce` | scraper.py:521-524 | When stored URLs are distinct, so are the URLs of the added records. |
| `Details.Genres` | scraper.py:128-129 | No genre kept is a listed tag or starts with `EP`. |
| `Details.GenresMembership` | scraper.py:128-129 | A chip text is kept if and only if it is present, not listed, and does not start with `EP`. |
| `Details.Metadata` | scraper.py:138 | No entry is the mis-decoded bullet. |
| `Details.MetadataMembership` | scraper.py:138 | A text is a metadata entry if and only if it is the strip of some kept text. |
| `Details.MetadataEntriesStripped` | scraper.py:138 | Every metadata entry is already stripped. |
| `Details.BlankMetadataKeptEmpty` | scraper.py:138 | A text of blanks only is kept as the empty string. |
| `Details.PosterPath` | scraper.py:62-65 | A path is found exactly when the `style` is present, non-empty and contains `url("`. The path holds no `")`. |
| `Details.PosterOfStyle` | scraper.py:62-65 | A `style` of the form `prefix url("path") suffix` yields `path`. The prefix must hold no `url("` and the path neither `"` nor `(`. |

## Left out

- Browser automation: navigation, selectors, clicks, keyboard presses, timeouts and their retry loops (scraper.py:12-28, 56-68, 108-196, 283-318, 363-418). Their results are inputs: `PageView`, `SlotOutcome`, `Merge.Attempt`, `Merge.Visit`, `Pagination.PageDetection`.
- Sub/dub detection (scraper.py:157-196). It only reads labels and falls back to defaults; the detected value is an input (`optimalSubdub`).
- Loading and saving the JSON catalog and the `os.path.exists` check (scraper.py:31-45, 541-547): file I/O. The catalog is a `seq<Show>`, and `Merge.Saved` assumes the write succeeds.
- `time.time()` (scraper.py:485): the clock reading is a parameter of `Merge.FreshInfo`. `last_updated` is an `int` standing for that floating-point reading, since only its value is stored.
- `urljoin`: `Details.PosterPath` returns the path before joining, and URLs are compared as given.
- Progress and success-rate statistics and all console output (scraper.py:495-501, 526-538). The division at line 499 is kept only as the exception it raises when the total is 0 (`Merge.VisitStep`).
- asyncio and the entry point (scraper.py:1-2, 554-555), and the limit of 36 listing items, which only truncates the input sequence.
- Extra keys of a stored JSON record that `dict.update` would keep; a record is exactly the fields of `ShowInfo` plus its episodes.
- A stored record without an `episodes` key: in Python that list would be fresh rather than shared with the record.
- Unicode digits: `isdigit` and `int` are modelled for ASCII digits only.
- An exception raised after the success-path write inside the slot handler (only a `print` can raise there).
- An exception raised by the item handler's own page closing (scraper.py:515-518). It would escape the listing loop; the model assumes closing inside the handler succeeds.
- The walk's own page switching and waits (scraper.py:281-318): how each page ended is an input (`PageView`): skipped, listing raised, or listed with its slots.
