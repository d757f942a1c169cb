/** The episode loop of one show: which slots of each page are selected for
    another attempt, how a result is written into the show's episode list,
    and how the per-run budget stops the slot and page loops. Browser
    interaction is replaced by what it yields: for each page whether it
    could be reached and, for each of its slots, what opening it gave. */
module Scheduler {
  import opened Wrappers
  import opened Catalog
  import opened Pagination

  /** `max_episodes_per_run`: attempts allowed per show and run. */
  const MaxEpisodesPerRun := 5

  /** The position Python's `xs[g]` reaches in a list of length `n`,
      negative indices counting from the end; `None` where it raises IndexError. */
  function PyIndex(n: nat, g: int): (r: Option<nat>)
    ensures r.Some? <==> -(n as int) <= g < n
    ensures r.Some? ==> r.value < n
    ensures r.Some? && g >= 0 ==> r.value == g
    ensures r.Some? && g < 0 ==> r.value == n + g
  {
    if 0 <= g < n then Some(g) else if -(n as int) <= g < 0 then Some(n + g) else None
  }

  /** The selection test for local slot `i` of a page starting at `start`:
      `g >= len(items) or items[g].status in ['error', 'pending']` with
      `g = start + i`, evaluated left to right; `None` where the list access
      raises IndexError. */
  function SlotNeeds(items: seq<Episode>, start: int, i: nat): Option<bool> {
    var g := start + i;
    if g >= |items| then Some(true)
    else match PyIndex(|items|, g)
      case Some(p) => Some(IsRetry(items[p].status))
      case None => None
  }

  /** The slots from `i` on that the selection keeps, in increasing order;
      `None` when one of the tests raises. */
  function SelectFrom(items: seq<Episode>, start: int, i: nat, count: nat): (r: Option<seq<nat>>)
    decreases count - i
    ensures r.Some? ==> forall j :: 0 <= j < |r.value| ==>
      i <= r.value[j] < count && SlotNeeds(items, start, r.value[j]) == Some(true)
    ensures r.Some? ==> forall j, k :: 0 <= j < k < |r.value| ==> r.value[j] < r.value[k]
  {
    if i >= count then Some([])
    else match SlotNeeds(items, start, i)
      case None => None
      case Some(b) =>
        match SelectFrom(items, start, i + 1, count)
        case None => None
        case Some(rest) => Some(if b then [i] + rest else rest)
  }

  function Prepend(acc: seq<nat>, o: Option<seq<nat>>): Option<seq<nat>> {
    match o
    case Some(s) => Some(acc + s)
    case None => None
  }

  lemma PrependKept(acc: seq<nat>, i: nat, o: Option<seq<nat>>)
    ensures Prepend(acc, (match o case Some(rest) => Some([i] + rest) case None => None)) == Prepend(acc + [i], o)
  {
    if o.Some? {
      assert acc + ([i] + o.value) == acc + [i] + o.value;
    }
  }

  /** The loop that builds `episodes_to_scrape_in_page` for a page of
      `count` slots; `None` when a status lookup raises IndexError. */
  method SelectSlots(items: seq<Episode>, start: int, count: nat) returns (r: Option<seq<nat>>)
    ensures r == SelectFrom(items, start, 0, count)
  {
    var acc: seq<nat> := [];
    assert Prepend(acc, SelectFrom(items, start, 0, count)) == SelectFrom(items, start, 0, count) by {
      if SelectFrom(items, start, 0, count).Some? {
        assert [] + SelectFrom(items, start, 0, count).value == SelectFrom(items, start, 0, count).value;
      }
    }
    for i := 0 to count
      invariant SelectFrom(items, start, 0, count) == Prepend(acc, SelectFrom(items, start, i, count))
    {
      var g := start + i;
      if g >= |items| {
        PrependKept(acc, i, SelectFrom(items, start, i + 1, count));
        acc := acc + [i];
      } else {
        var p := PyIndex(|items|, g);
        if p.None? {
          return None;
        }
        if IsRetry(items[p.value].status) {
          PrependKept(acc, i, SelectFrom(items, start, i + 1, count));
          acc := acc + [i];
        }
      }
    }
    assert acc + [] == acc;
    return Some(acc);
  }

  /** Python's `items[g] = rec`; `None` where it raises IndexError. */
  function Assign(items: seq<Episode>, g: int, rec: Episode): Option<seq<Episode>> {
    match PyIndex(|items|, g)
    case Some(p) => Some(items[p := rec])
    case None => None
  }

  /** `count` placeholders for the positions `from`, `from + 1`, ... */
  function Placeholders(from: nat, count: nat): seq<Episode> {
    seq(count, k requires 0 <= k < count => Placeholder(from + k))
  }

  /** `items` after the padding loop has appended placeholders until its
      length is at least `n`. */
  function Padded(items: seq<Episode>, n: nat): seq<Episode> {
    if n <= |items| then items else items + Placeholders(|items|, n - |items|)
  }

  /** The success-path write at global index `g`: an assignment when `g` is
      below the length, otherwise padding up to `g` and then the assignment. */
  function WriteScraped(items: seq<Episode>, g: int, rec: Episode): (r: Option<seq<Episode>>)
    ensures r.None? <==> g < -(|items| as int)
    ensures r.Some? ==> |r.value| == (if g < |items| then |items| else g + 1)
    ensures r.Some? && g >= 0 ==> r.value[g] == rec
  {
    if g < |items| then Assign(items, g, rec)
    else Some(Padded(items, g + 1)[g := rec])
  }

  /** The exception handler's write at global index `g`: an assignment when
      `g` is below the length, otherwise a single append at the end. */
  function WriteFailed(items: seq<Episode>, g: int, rec: Episode): (r: Option<seq<Episode>>)
    ensures r.None? <==> g < -(|items| as int)
    ensures r.Some? ==> |r.value| == (if g < |items| then |items| else |items| + 1)
    ensures r.Some? && g >= |items| ==> r.value == items + [rec]
  {
    if g < |items| then Assign(items, g, rec)
    else Some(items + [rec])
  }

  /** `episodes_data`, the list the episode loop updates in place. */
  class EpisodeList {
    var items: seq<Episode>

    constructor (initial: seq<Episode>)
      ensures items == initial
    {
      items := initial;
    }

    /** The success-path write, padding included; `raised` when the
        assignment raises IndexError, leaving the list as it was. */
    method StoreScraped(g: int, rec: Episode) returns (raised: bool)
      modifies this
      ensures raised <==> WriteScraped(old(items), g, rec).None?
      ensures !raised ==> items == WriteScraped(old(items), g, rec).value
      ensures raised ==> items == old(items)
    {
      raised := false;
      if g < |items| {
        if 0 <= g {
          items := items[g := rec];
        } else if -|items| <= g {
          items := items[|items| + g := rec];
        } else {
          raised := true;
        }
      } else {
        while |items| <= g
          invariant |old(items)| <= |items| <= g + 1
          invariant items == old(items) + Placeholders(|old(items)|, |items| - |old(items)|)
          decreases g - |items|
        {
          ghost var before := items;
          items := items + [Placeholder(|items|)];
          assert items == old(items) + Placeholders(|old(items)|, |items| - |old(items)|) by {
            assert before == old(items) + Placeholders(|old(items)|, |before| - |old(items)|);
          }
        }
        items := items[g := rec];
      }
    }

    /** The exception handler's write; `raised` when the assignment raises
        IndexError, leaving the list as it was. */
    method StoreFailed(g: int, rec: Episode) returns (raised: bool)
      modifies this
      ensures raised <==> WriteFailed(old(items), g, rec).None?
      ensures !raised ==> items == WriteFailed(old(items), g, rec).value
      ensures raised ==> items == old(items)
    {
      raised := false;
      if g < |items| {
        if 0 <= g {
          items := items[g := rec];
        } else if -|items| <= g {
          items := items[|items| + g := rec];
        } else {
          raised := true;
        }
      } else {
        items := items + [rec];
      }
    }
  }

  /** What the browser yielded for one selected slot. */
  datatype SlotOutcome =
    | Vanished                                           // the slot is missing from the refreshed list
    | ClickFailed                                        // three clicks never reached an episode URL
    | Opened(badge: Option<string>, src: Option<string>) // the episode opened: its badge text and last player `src`
    | Raised                                             // an exception inside the slot's handler

  /** What the browser yielded for one page of the walk. */
  datatype PageView =
    | Unreachable                    // switching to the page, finding its option or waiting for its slots failed
    | ListingRaised                  // listing the slots after the wait raised: the show is abandoned
    | Listed(slots: seq<SlotOutcome>) // one outcome per slot found on the page

  /** The episode loop's state: the list, `total_scraped_in_this_run`, and
      whether an exception escaped to the show's own handler. */
  datatype Progress = Progress(items: seq<Episode>, used: nat, aborted: bool)

  /** The exception handler of a slot: write an `error` record and count
      the attempt; the show is aborted when that write raises too. */
  function FailSlot(items: seq<Episode>, used: nat, g: int, subdub: string): (r: Progress)
    ensures r.aborted <==> g < -(|items| as int)
    ensures r.aborted ==> r.items == items && r.used == used
    ensures !r.aborted ==> r.used == used + 1 && |r.items| >= |items|
    ensures 0 <= g < |items| ==> r.items == items[g := FailedEpisode(g, subdub)]
  {
    match WriteFailed(items, g, FailedEpisode(g, subdub))
    case Some(next) => Progress(next, used + 1, false)
    case None => Progress(items, used, true)
  }

  /** One selected slot at global index `g`. The two early `continue`s count
      nothing; a write counts one attempt, whatever its status. */
  function SlotStep(items: seq<Episode>, used: nat, g: int, outcome: SlotOutcome, subdub: string): (r: Progress)
    ensures |r.items| >= |items|
    ensures outcome.Opened? && g >= 0 ==>
      && !r.aborted && r.used == used + 1 && g < |r.items|
      && r.items[g].status == (if IsPlayable(outcome.src) then Success else Error)
      && r.items[g].subdub == subdub
    ensures outcome.Raised? && 0 <= g < |items| ==>
      !r.aborted && r.used == used + 1 && r.items == items[g := FailedEpisode(g, subdub)]
  {
    match outcome
    case Vanished => Progress(items, used, false)
    case ClickFailed => Progress(items, used, false)
    case Raised => FailSlot(items, used, g, subdub)
    case Opened(badge, src) =>
      var number := if badge.Some? then badge.value else EpisodeLabel(g + 1);
      match WriteScraped(items, g, ScrapedEpisode(number, src, subdub))
      case Some(next) => Progress(next, used + 1, false)
      case None => FailSlot(items, used, g, subdub)
  }

  /** The slot loop of a page from the `j`-th selected slot on: it stops
      before a slot once the budget is used up, and when the show aborts. */
  function PageStep(p: Progress, start: int, sel: seq<nat>, slots: seq<SlotOutcome>, subdub: string, j: nat): (r: Progress)
    requires forall k :: 0 <= k < |sel| ==> sel[k] < |slots|
    decreases |sel| - j
    ensures |r.items| >= |p.items| && r.used >= p.used
  {
    if j >= |sel| || p.used >= MaxEpisodesPerRun then p
    else
      var q := SlotStep(p.items, p.used, start + sel[j], slots[sel[j]], subdub);
      if q.aborted then q else PageStep(q, start, sel, slots, subdub, j + 1)
  }

  /** The page loop from the `k`-th page on. */
  function SweepFrom(pages: seq<string>, views: seq<PageView>, subdub: string, k: nat, p: Progress): (r: Progress)
    requires |views| == |pages|
    decreases |pages| - k
    ensures |r.items| >= |p.items| && r.used >= p.used
  {
    if k >= |pages| then p
    else match views[k]
      case Unreachable => SweepFrom(pages, views, subdub, k + 1, p)
      case ListingRaised => Progress(p.items, p.used, true)
      case Listed(slots) =>
        var start := PageRange(pages[k], k, |slots|).start;
        match SelectFrom(p.items, start, 0, |slots|)
        case None => Progress(p.items, p.used, true)
        case Some(sel) =>
          if sel == [] then SweepFrom(pages, views, subdub, k + 1, p)
          else
            var q := PageStep(p, start, sel, slots, subdub, 0);
            if q.aborted || q.used >= MaxEpisodesPerRun then q
            else SweepFrom(pages, views, subdub, k + 1, q)
  }

  /** The whole episode loop of one show, starting from `items` with nothing used. */
  function Sweep(pages: seq<string>, views: seq<PageView>, subdub: string, items: seq<Episode>): (r: Progress)
    requires |views| == |pages|
    ensures |r.items| >= |items|
  {
    SweepFrom(pages, views, subdub, 0, Progress(items, 0, false))
  }

  /** The body of the slot loop for one selected slot at global index `g`,
      with `total0` attempts used so far. */
  method AttemptSlot(episodes: EpisodeList, g: int, outcome: SlotOutcome, subdub: string, total0: nat)
    returns (total: nat, aborted: bool)
    modifies episodes
    ensures Progress(episodes.items, total, aborted) == SlotStep(old(episodes.items), total0, g, outcome, subdub)
  {
    if outcome.Vanished? || outcome.ClickFailed? {
      return total0, false;
    }
    var failed := true;
    if outcome.Opened? {
      var number := if outcome.badge.Some? then outcome.badge.value else EpisodeLabel(g + 1);
      failed := episodes.StoreScraped(g, ScrapedEpisode(number, outcome.src, subdub));
    }
    if failed {
      var raised := episodes.StoreFailed(g, FailedEpisode(g, subdub));
      if raised {
        return total0, true;
      }
    }
    return total0 + 1, false;
  }

  /** The slot loop of one page over the selected slots `sel`, starting
      with `total` attempts used. */
  method RunPage(episodes: EpisodeList, start: int, sel: seq<nat>, slots: seq<SlotOutcome>,
                 subdub: string, total0: nat)
    returns (total: nat, aborted: bool)
    requires forall k :: 0 <= k < |sel| ==> sel[k] < |slots|
    modifies episodes
    ensures Progress(episodes.items, total, aborted)
         == PageStep(Progress(old(episodes.items), total0, false), start, sel, slots, subdub, 0)
  {
    total := total0;
    var j := 0;
    while j < |sel|
      invariant 0 <= j <= |sel|
      invariant PageStep(Progress(episodes.items, total, false), start, sel, slots, subdub, j)
             == PageStep(Progress(old(episodes.items), total0, false), start, sel, slots, subdub, 0)
      decreases |sel| - j
    {
      if total >= MaxEpisodesPerRun {
        break;
      }
      var slotAborted;
      total, slotAborted := AttemptSlot(episodes, start + sel[j], slots[sel[j]], subdub, total);
      if slotAborted {
        return total, true;
      }
      j := j + 1;
    }
    return total, false;
  }

  /** The episode loop as the crawler runs it: walk the kept page labels (or
      the current page alone), select the slots needing work on each, and
      attempt them until the budget is used up. Returns the attempt count and
      whether an exception escaped to the show's handler; the list is
      updated in place. */
  method RunEpisodeLoop(episodes: EpisodeList, found: seq<string>, currentPage: string,
                        views: seq<PageView>, optimalSubdub: Option<string>)
    returns (scraped: nat, aborted: bool)
    requires |views| == |PagesToWalk(found, currentPage)|
    modifies episodes
    ensures Progress(episodes.items, scraped, aborted)
         == Sweep(PagesToWalk(found, currentPage), views, SubdubLabel(optimalSubdub), old(episodes.items))
  {
    var pages := PagesToWalk(found, currentPage);
    var subdub := SubdubLabel(optimalSubdub);
    ghost var goal := Sweep(pages, views, subdub, episodes.items);
    var total: nat := 0;
    var k := 0;
    while k < |pages|
      invariant 0 <= k <= |pages|
      invariant SweepFrom(pages, views, subdub, k, Progress(episodes.items, total, false)) == goal
      decreases |pages| - k
    {
      if views[k].Unreachable? {
        k := k + 1;
        continue;
      }
      if views[k].ListingRaised? {
        return total, true;
      }
      var slots := views[k].slots;
      var start := PageRange(pages[k], k, |slots|).start;
      var selected := SelectSlots(episodes.items, start, |slots|);
      if selected.None? {
        return total, true;
      }
      var sel := selected.value;
      if sel == [] {
        k := k + 1;
        continue;
      }
      var pageAborted;
      total, pageAborted := RunPage(episodes, start, sel, slots, subdub, total);
      if pageAborted {
        return total, true;
      }
      if total >= MaxEpisodesPerRun {
        return total, false;
      }
      k := k + 1;
    }
    return total, false;
  }

  // ---------------------------------------------------------------------
  // The selection

  /** A local slot is selected exactly when its test yields true: the index
      is past the end of the list, or its entry is `error` or `pending`. */
  lemma SelectExactly(items: seq<Episode>, start: int, count: nat, sel: seq<nat>, k: nat)
    requires SelectFrom(items, start, 0, count) == Some(sel)
    requires k < count
    ensures k in sel <==> SlotNeeds(items, start, k) == Some(true)
  {
    if SlotNeeds(items, start, k) == Some(true) {
      SelectComplete(items, start, 0, count, sel, k);
    }
  }

  lemma {:induction false} SelectComplete(items: seq<Episode>, start: int, i: nat, count: nat, sel: seq<nat>, k: nat)
    requires SelectFrom(items, start, i, count) == Some(sel)
    requires i <= k < count && SlotNeeds(items, start, k) == Some(true)
    ensures k in sel
    decreases count - i
  {
    var rest := SelectFrom(items, start, i + 1, count);
    if k > i {
      SelectComplete(items, start, i + 1, count, rest.value, k);
    }
  }

  /** An in-range index whose entry is `success` (or any status other than
      `error` and `pending`) is never selected. */
  lemma SettledNeverSelected(items: seq<Episode>, start: int, count: nat, sel: seq<nat>, k: nat)
    requires SelectFrom(items, start, 0, count) == Some(sel)
    requires k < count && 0 <= start + k < |items| && !IsRetry(items[start + k].status)
    ensures k !in sel
  {
    SelectExactly(items, start, count, sel, k);
  }

  /** For a page starting at -1 or later, the selection raises IndexError
      only in one case: a label "0-n" (start -1) read against an empty list. */
  lemma SelectRaisesOnlyOnEmptyWrap(items: seq<Episode>, start: int, count: nat)
    requires start >= -1
    ensures SelectFrom(items, start, 0, count).None? <==> count > 0 && start == -1 && items == []
  {
    SelectRaisesFrom(items, start, 0, count);
  }

  lemma {:induction false} SelectRaisesFrom(items: seq<Episode>, start: int, i: nat, count: nat)
    requires start >= -1
    ensures SelectFrom(items, start, i, count).None? <==> i < count && start + i == -1 && items == []
    decreases count - i
  {
    if i < count {
      SelectRaisesFrom(items, start, i + 1, count);
    }
  }

  // ---------------------------------------------------------------------
  // The writes

  /** The success-path write at a non-negative index `g` always succeeds;
      afterwards the list is longer than `g`, holds the record at `g`,
      keeps every other entry, and every position added below `g` holds the
      `pending` placeholder "EP k+1". */
  lemma WriteScrapedEffect(items: seq<Episode>, g: nat, rec: Episode)
    ensures WriteScraped(items, g, rec).Some?
    ensures var r := WriteScraped(items, g, rec).value;
      && |r| == (if g < |items| then |items| else g + 1)
      && r[g] == rec
      && (forall k :: 0 <= k < |items| && k != g ==> r[k] == items[k])
      && (forall k :: |items| <= k < g ==> r[k] == Placeholder(k))
      && (forall k :: |items| <= k < g ==> r[k].status == Pending && r[k].number == EpisodeLabel(k + 1))
  {
  }

  /** A negative index counts from the end: index -1 rewrites the last
      entry, and raises IndexError on an empty list. Both writes agree here. */
  lemma NegativeIndexWrites(items: seq<Episode>, g: int, rec: Episode)
    requires g < 0
    ensures WriteScraped(items, g, rec) == WriteFailed(items, g, rec)
    ensures WriteScraped(items, g, rec).None? <==> g < -(|items| as int)
    ensures WriteScraped(items, g, rec).Some? ==> WriteScraped(items, g, rec).value == items[|items| + g := rec]
  {
  }

  /** The exception handler's write past the end appends a single entry, so
      the record for `g` lands at position `len(items)`, which is not `g`
      whenever `g` is beyond the end: alignment holds only on the success path. */
  lemma FailedWriteMisaligned(items: seq<Episode>, g: int, subdub: string)
    requires g > |items|
    ensures WriteFailed(items, g, FailedEpisode(g, subdub)).Some?
    ensures var r := WriteFailed(items, g, FailedEpisode(g, subdub)).value;
      && |r| == |items| + 1 && |r| <= g
      && r[|items|].number == EpisodeLabel(g + 1)
      && r[..|items|] == items
  {
  }

  // ---------------------------------------------------------------------
  // The budget

  /** One slot either counts nothing (the two early `continue`s, or an
      abort, which also leaves the list untouched) or counts exactly one. */
  lemma SlotStepCounts(items: seq<Episode>, used: nat, g: int, outcome: SlotOutcome, subdub: string)
    ensures var q := SlotStep(items, used, g, outcome, subdub);
      && (outcome.Vanished? || outcome.ClickFailed? ==> q == Progress(items, used, false))
      && (q.aborted ==> q.items == items && q.used == used)
      && (!q.aborted && (outcome.Opened? || outcome.Raised?) ==> q.used == used + 1)
  {
  }

  lemma {:induction false} PageStepWithinBudget(p: Progress, start: int, sel: seq<nat>, slots: seq<SlotOutcome>, subdub: string, j: nat)
    requires forall k :: 0 <= k < |sel| ==> sel[k] < |slots|
    requires p.used <= MaxEpisodesPerRun
    ensures p.used <= PageStep(p, start, sel, slots, subdub, j).used <= MaxEpisodesPerRun
    decreases |sel| - j
  {
    if j < |sel| && p.used < MaxEpisodesPerRun {
      var q := SlotStep(p.items, p.used, start + sel[j], slots[sel[j]], subdub);
      SlotStepCounts(p.items, p.used, start + sel[j], slots[sel[j]], subdub);
      if !q.aborted {
        PageStepWithinBudget(q, start, sel, slots, subdub, j + 1);
      }
    }
  }

  lemma {:induction false} SweepFromWithinBudget(pages: seq<string>, views: seq<PageView>, subdub: string, k: nat, p: Progress)
    requires |views| == |pages|
    requires p.used <= MaxEpisodesPerRun
    ensures SweepFrom(pages, views, subdub, k, p).used <= MaxEpisodesPerRun
    decreases |pages| - k
  {
    if k < |pages| {
      match views[k]
      case Unreachable =>
        SweepFromWithinBudget(pages, views, subdub, k + 1, p);
      case ListingRaised =>
      case Listed(slots) =>
        var start := PageRange(pages[k], k, |slots|).start;
        match SelectFrom(p.items, start, 0, |slots|)
        case None =>
        case Some(sel) =>
          if sel == [] {
            SweepFromWithinBudget(pages, views, subdub, k + 1, p);
          } else {
            var q := PageStep(p, start, sel, slots, subdub, 0);
            PageStepWithinBudget(p, start, sel, slots, subdub, 0);
            if !q.aborted && q.used < MaxEpisodesPerRun {
              SweepFromWithinBudget(pages, views, subdub, k + 1, q);
            }
          }
    }
  }

  /** Within one show, `total_scraped_in_this_run` never exceeds five. */
  lemma RunWithinBudget(pages: seq<string>, views: seq<PageView>, subdub: string, items: seq<Episode>)
    requires |views| == |pages|
    ensures Sweep(pages, views, subdub, items).used <= MaxEpisodesPerRun
  {
    SweepFromWithinBudget(pages, views, subdub, 0, Progress(items, 0, false));
  }

  /** Once the budget is used up, no later page writes anything or counts
      anything: the slot loop breaks before its first slot and the page
      loop breaks after it. */
  lemma {:induction false} SweepStopsAtBudget(pages: seq<string>, views: seq<PageView>, subdub: string, k: nat, p: Progress)
    requires |views| == |pages|
    requires p.used >= MaxEpisodesPerRun
    ensures SweepFrom(pages, views, subdub, k, p).items == p.items
    ensures SweepFrom(pages, views, subdub, k, p).used == p.used
    decreases |pages| - k
  {
    if k < |pages| {
      match views[k]
      case Unreachable =>
        SweepStopsAtBudget(pages, views, subdub, k + 1, p);
      case ListingRaised =>
      case Listed(slots) =>
        var start := PageRange(pages[k], k, |slots|).start;
        match SelectFrom(p.items, start, 0, |slots|)
        case None =>
        case Some(sel) =>
          if sel == [] {
            SweepStopsAtBudget(pages, views, subdub, k + 1, p);
          }
    }
  }

  /** Slots that vanished or could not be clicked are skipped without
      counting: a page made only of them changes nothing. */
  lemma {:induction false} SkippedSlotsCountNothing(p: Progress, start: int, sel: seq<nat>, slots: seq<SlotOutcome>, subdub: string, j: nat)
    requires forall k :: 0 <= k < |sel| ==> sel[k] < |slots|
    requires forall k :: j <= k < |sel| ==> slots[sel[k]].Vanished? || slots[sel[k]].ClickFailed?
    requires !p.aborted
    ensures PageStep(p, start, sel, slots, subdub, j) == p
    decreases |sel| - j
  {
    if j < |sel| && p.used < MaxEpisodesPerRun {
      SkippedSlotsCountNothing(p, start, sel, slots, subdub, j + 1);
    }
  }

  function Min(a: int, b: int): int {
    if a <= b then a else b
  }

  /** When every remaining selected slot is opened or raises and nothing
      aborts, each one is counted until the budget is reached. */
  lemma {:induction false} AttemptsCountUntilBudget(p: Progress, start: int, sel: seq<nat>, slots: seq<SlotOutcome>, subdub: string, j: nat)
    requires forall k :: 0 <= k < |sel| ==> sel[k] < |slots|
    requires forall k :: j <= k < |sel| ==> slots[sel[k]].Opened? || slots[sel[k]].Raised?
    requires j <= |sel| && p.used <= MaxEpisodesPerRun
    requires !PageStep(p, start, sel, slots, subdub, j).aborted
    ensures PageStep(p, start, sel, slots, subdub, j).used == Min(MaxEpisodesPerRun, p.used + |sel| - j)
    decreases |sel| - j, 1
  {
    if j < |sel| && p.used < MaxEpisodesPerRun {
      AttemptCounts(p, start, sel, slots, subdub, j);
    } else {
      assert PageStep(p, start, sel, slots, subdub, j) == p;
    }
  }

  /** The step of `AttemptsCountUntilBudget` when a slot remains and budget
      is left: the slot counts one and the rest is counted from there. */
  lemma {:induction false} AttemptCounts(p: Progress, start: int, sel: seq<nat>, slots: seq<SlotOutcome>, subdub: string, j: nat)
    requires forall k :: 0 <= k < |sel| ==> sel[k] < |slots|
    requires forall k :: j <= k < |sel| ==> slots[sel[k]].Opened? || slots[sel[k]].Raised?
    requires j < |sel| && p.used < MaxEpisodesPerRun
    requires !PageStep(p, start, sel, slots, subdub, j).aborted
    ensures PageStep(p, start, sel, slots, subdub, j).used == Min(MaxEpisodesPerRun, p.used + |sel| - j)
    decreases |sel| - j, 0
  {
    var q := PageStepNext(p, start, sel, slots, subdub, j);
    assert !q.aborted;
    AttemptsCountUntilBudget(q, start, sel, slots, subdub, j + 1);
  }

  // ---------------------------------------------------------------------
  // Settled entries are never rewritten

  /** `x` keeps every entry of `b` that the selection would not pick again
      (`success`, or any status other than `error` and `pending`), in place. */
  predicate Protects(b: seq<Episode>, x: seq<Episode>) {
    |x| >= |b| && forall q {:trigger b[q]} :: 0 <= q < |b| && !IsRetry(b[q].status) ==> x[q] == b[q]
  }

  lemma ProtectsTransitive(a: seq<Episode>, b: seq<Episode>, c: seq<Episode>)
    requires Protects(a, b) && Protects(b, c)
    ensures Protects(a, c)
  {
    forall q | 0 <= q < |a| && !IsRetry(a[q].status)
      ensures c[q] == a[q]
    {
      assert b[q] == a[q];
    }
  }

  /** A write at a slot selected against `b` keeps what `b` protects, even
      when index -1 wraps around to the last entry. */
  lemma WriteProtects(b: seq<Episode>, cur: seq<Episode>, start: int, i: nat, rec: Episode, next: seq<Episode>)
    requires Protects(b, cur) && start >= -1 && SlotNeeds(b, start, i) == Some(true)
    requires WriteScraped(cur, start + i, rec) == Some(next) || WriteFailed(cur, start + i, rec) == Some(next)
    ensures Protects(b, next)
  {
    var g := start + i;
    if g < |cur| {
      var p := PyIndex(|cur|, g).value;
      assert next == cur[p := rec];
      forall q | 0 <= q < |b| && !IsRetry(b[q].status)
        ensures next[q] == b[q]
      {
        if g >= 0 {
          assert q != p;
        } else {
          assert b != [] && IsRetry(b[|b| - 1].status);
          assert q != p;
        }
      }
    } else {
      forall q | 0 <= q < |b| && !IsRetry(b[q].status)
        ensures next[q] == b[q]
      {
        assert q < |cur|;
      }
    }
  }

  lemma SlotStepProtects(b: seq<Episode>, items: seq<Episode>, used: nat, start: int, i: nat,
                         outcome: SlotOutcome, subdub: string)
    requires Protects(b, items) && start >= -1 && SlotNeeds(b, start, i) == Some(true)
    ensures Protects(b, SlotStep(items, used, start + i, outcome, subdub).items)
  {
    var g := start + i;
    var failed := WriteFailed(items, g, FailedEpisode(g, subdub));
    if failed.Some? {
      WriteProtects(b, items, start, i, FailedEpisode(g, subdub), failed.value);
    }
    if outcome.Opened? {
      var number := if outcome.badge.Some? then outcome.badge.value else EpisodeLabel(g + 1);
      var written := WriteScraped(items, g, ScrapedEpisode(number, outcome.src, subdub));
      if written.Some? {
        WriteProtects(b, items, start, i, ScrapedEpisode(number, outcome.src, subdub), written.value);
      }
    }
  }

  lemma {:induction false} PageStepProtects(b: seq<Episode>, p: Progress, start: int, sel: seq<nat>,
                                            slots: seq<SlotOutcome>, subdub: string, j: nat)
    requires forall k :: 0 <= k < |sel| ==> sel[k] < |slots| && SlotNeeds(b, start, sel[k]) == Some(true)
    requires start >= -1 && Protects(b, p.items)
    ensures Protects(b, PageStep(p, start, sel, slots, subdub, j).items)
    decreases |sel| - j
  {
    if j < |sel| && p.used < MaxEpisodesPerRun {
      var q := SlotStep(p.items, p.used, start + sel[j], slots[sel[j]], subdub);
      SlotStepProtects(b, p.items, p.used, start, sel[j], slots[sel[j]], subdub);
      if !q.aborted {
        PageStepProtects(b, q, start, sel, slots, subdub, j + 1);
      }
    }
  }

  /** One page of the page loop keeps the settled entries of the list it
      starts from; `more` says whether the loop goes on with `q`. */
  lemma SweepStep(pages: seq<string>, views: seq<PageView>, subdub: string, k: nat, p: Progress)
    returns (q: Progress, more: bool)
    requires |views| == |pages| && k < |pages|
    ensures Protects(p.items, q.items)
    ensures SweepFrom(pages, views, subdub, k, p) == if more then SweepFrom(pages, views, subdub, k + 1, q) else q
  {
    q, more := p, true;
    match views[k]
    case Unreachable =>
    case ListingRaised =>
      q, more := Progress(p.items, p.used, true), false;
    case Listed(slots) =>
      var start := PageRange(pages[k], k, |slots|).start;
      match SelectFrom(p.items, start, 0, |slots|)
      case None =>
        q, more := Progress(p.items, p.used, true), false;
      case Some(sel) =>
        if sel != [] {
          q := PageStep(p, start, sel, slots, subdub, 0);
          PageStepProtects(p.items, p, start, sel, slots, subdub, 0);
          more := !q.aborted && q.used < MaxEpisodesPerRun;
        }
  }

  lemma {:induction false} SweepFromProtects(pages: seq<string>, views: seq<PageView>, subdub: string, k: nat, p: Progress)
    requires |views| == |pages|
    ensures Protects(p.items, SweepFrom(pages, views, subdub, k, p).items)
    decreases |pages| - k, 1
  {
    if k < |pages| {
      PageProtects(pages, views, subdub, k, p);
    }
  }

  /** The step of `SweepFromProtects` at a page that remains: the page keeps
      what the list protects, and so does the rest of the walk. */
  lemma {:induction false} PageProtects(pages: seq<string>, views: seq<PageView>, subdub: string, k: nat, p: Progress)
    requires |views| == |pages| && k < |pages|
    ensures Protects(p.items, SweepFrom(pages, views, subdub, k, p).items)
    decreases |pages| - k, 0
  {
    var q, more := SweepStep(pages, views, subdub, k, p);
    if more {
      SweepFromProtects(pages, views, subdub, k + 1, q);
      ProtectsTransitive(p.items, q.items, SweepFrom(pages, views, subdub, k + 1, q).items);
    }
  }

  /** The episode loop never shortens the list and never rewrites an entry
      that was `success` when it began: with the selection, this is what
      makes a rerun idempotent on finished episodes. */
  lemma RunKeepsSettled(pages: seq<string>, views: seq<PageView>, subdub: string, items: seq<Episode>)
    requires |views| == |pages|
    ensures var r := Sweep(pages, views, subdub, items).items;
      && |r| >= |items|
      && forall q :: 0 <= q < |items| && items[q].status == Success ==> r[q] == items[q]
  {
    SweepFromProtects(pages, views, subdub, 0, Progress(items, 0, false));
  }

  // ---------------------------------------------------------------------
  // Every record the loop writes is well formed

  predicate AllWellFormed(items: seq<Episode>) {
    forall k :: 0 <= k < |items| ==> WellFormed(items[k])
  }

  lemma WriteWellFormed(cur: seq<Episode>, g: int, rec: Episode, next: seq<Episode>)
    requires AllWellFormed(cur) && WellFormed(rec)
    requires WriteScraped(cur, g, rec) == Some(next) || WriteFailed(cur, g, rec) == Some(next)
    ensures AllWellFormed(next)
  {
    forall k | 0 <= k < |next|
      ensures WellFormed(next[k])
    {
      if k < |cur| && next[k] != cur[k] {
        assert next[k] == rec;
      } else if k >= |cur| && next[k] != rec {
        assert next[k] == Placeholder(k);
      }
    }
  }

  lemma SlotStepWellFormed(items: seq<Episode>, used: nat, g: int, outcome: SlotOutcome, subdub: string)
    requires AllWellFormed(items)
    ensures AllWellFormed(SlotStep(items, used, g, outcome, subdub).items)
  {
    var failed := WriteFailed(items, g, FailedEpisode(g, subdub));
    if failed.Some? {
      WriteWellFormed(items, g, FailedEpisode(g, subdub), failed.value);
    }
    if outcome.Opened? {
      var number := if outcome.badge.Some? then outcome.badge.value else EpisodeLabel(g + 1);
      var written := WriteScraped(items, g, ScrapedEpisode(number, outcome.src, subdub));
      if written.Some? {
        WriteWellFormed(items, g, ScrapedEpisode(number, outcome.src, subdub), written.value);
      }
    }
  }

  /** One step of the slot loop, when a slot remains and budget is left:
      the loop goes on from the slot's step `q` unless it aborted, and an
      opened or raising slot that does not abort counts one. */
  lemma PageStepNext(p: Progress, start: int, sel: seq<nat>, slots: seq<SlotOutcome>, subdub: string, j: nat)
    returns (q: Progress)
    requires forall k :: 0 <= k < |sel| ==> sel[k] < |slots|
    requires j < |sel| && p.used < MaxEpisodesPerRun
    ensures PageStep(p, start, sel, slots, subdub, j) == if q.aborted then q else PageStep(q, start, sel, slots, subdub, j + 1)
    ensures !q.aborted && (slots[sel[j]].Opened? || slots[sel[j]].Raised?) ==> q.used == p.used + 1
  {
    q := SlotStep(p.items, p.used, start + sel[j], slots[sel[j]], subdub);
    SlotStepCounts(p.items, p.used, start + sel[j], slots[sel[j]], subdub);
  }

  lemma {:induction false} PageStepWellFormed(p: Progress, start: int, sel: seq<nat>, slots: seq<SlotOutcome>, subdub: string, j: nat)
    requires forall k :: 0 <= k < |sel| ==> sel[k] < |slots|
    requires AllWellFormed(p.items)
    ensures AllWellFormed(PageStep(p, start, sel, slots, subdub, j).items)
    decreases |sel| - j, 1
  {
    if j < |sel| && p.used < MaxEpisodesPerRun {
      SlotWellFormed(p, start, sel, slots, subdub, j);
    }
  }

  /** The step of `PageStepWellFormed` when a slot remains and budget is
      left. */
  lemma {:induction false} SlotWellFormed(p: Progress, start: int, sel: seq<nat>, slots: seq<SlotOutcome>, subdub: string, j: nat)
    requires forall k :: 0 <= k < |sel| ==> sel[k] < |slots|
    requires j < |sel| && p.used < MaxEpisodesPerRun
    requires AllWellFormed(p.items)
    ensures AllWellFormed(PageStep(p, start, sel, slots, subdub, j).items)
    decreases |sel| - j, 0
  {
    var q := SlotStep(p.items, p.used, start + sel[j], slots[sel[j]], subdub);
    SlotStepWellFormed(p.items, p.used, start + sel[j], slots[sel[j]], subdub);
    if !q.aborted {
      PageStepWellFormed(q, start, sel, slots, subdub, j + 1);
    }
  }

  lemma {:induction false} SweepFromWellFormed(pages: seq<string>, views: seq<PageView>, subdub: string, k: nat, p: Progress)
    requires |views| == |pages|
    requires AllWellFormed(p.items)
    ensures AllWellFormed(SweepFrom(pages, views, subdub, k, p).items)
    decreases |pages| - k
  {
    if k < |pages| {
      match views[k]
      case Unreachable =>
        SweepFromWellFormed(pages, views, subdub, k + 1, p);
      case ListingRaised =>
      case Listed(slots) =>
        var start := PageRange(pages[k], k, |slots|).start;
        match SelectFrom(p.items, start, 0, |slots|)
        case None =>
        case Some(sel) =>
          if sel == [] {
            SweepFromWellFormed(pages, views, subdub, k + 1, p);
          } else {
            var q := PageStep(p, start, sel, slots, subdub, 0);
            PageStepWellFormed(p, start, sel, slots, subdub, 0);
            if !q.aborted && q.used < MaxEpisodesPerRun {
              SweepFromWellFormed(pages, views, subdub, k + 1, q);
            }
          }
    }
  }

  /** Every `success` entry the loop leaves holds a playable source and that
      source as its only quality, provided the stored ones did. */
  lemma RunKeepsWellFormed(pages: seq<string>, views: seq<PageView>, subdub: string, items: seq<Episode>)
    requires |views| == |pages|
    requires AllWellFormed(items)
    ensures AllWellFormed(Sweep(pages, views, subdub, items).items)
  {
    SweepFromWellFormed(pages, views, subdub, 0, Progress(items, 0, false));
  }

  lemma {:induction false} CountSuccessAppend(a: seq<Episode>, b: seq<Episode>)
    ensures CountSuccess(a + b) == CountSuccess(a) + CountSuccess(b)
  {
    if a == [] {
      assert a + b == b;
    } else {
      assert (a + b)[0] == a[0] && (a + b)[1..] == a[1..] + b;
      CountSuccessAppend(a[1..], b);
    }
  }

  lemma {:induction false} CountSuccessPointwise(a: seq<Episode>, b: seq<Episode>)
    requires |a| == |b|
    requires forall q :: 0 <= q < |a| && a[q].status == Success ==> b[q].status == Success
    ensures CountSuccess(a) <= CountSuccess(b)
  {
    if a != [] {
      CountSuccessPointwise(a[1..], b[1..]);
    }
  }

  /** A list that keeps the settled entries of `a` has at least as many
      `success` entries as `a`. */
  lemma ProtectsKeepsSuccessCount(a: seq<Episode>, b: seq<Episode>)
    requires Protects(a, b)
    ensures CountSuccess(a) <= CountSuccess(b)
  {
    assert b == b[..|a|] + b[|a|..];
    CountSuccessAppend(b[..|a|], b[|a|..]);
    CountSuccessPointwise(a, b[..|a|]);
  }

  /** The number of `success` entries never drops during an episode loop. */
  lemma RunNeverLosesSuccesses(pages: seq<string>, views: seq<PageView>, subdub: string, items: seq<Episode>)
    requires |views| == |pages|
    ensures CountSuccess(items) <= CountSuccess(Sweep(pages, views, subdub, items).items)
  {
    SweepFromProtects(pages, views, subdub, 0, Progress(items, 0, false));
    ProtectsKeepsSuccessCount(items, Sweep(pages, views, subdub, items).items);
  }

  // ---------------------------------------------------------------------
  // A worked run

  /** The default page label "01-100" starts at global index 0. */
  lemma DefaultPageStartsAtZero(slotCount: nat)
    ensures PageRange(DefaultPageLabel, 0, slotCount).start == 0
  {
    assert DefaultPageLabel == PyStr.Numeral(1, 1) + "-" + PyStr.Numeral(0, 100) by {
      assert PyStr.Dec(100) == PyStr.Dec(10) + ['0'];
      assert PyStr.Dec(10) == PyStr.Dec(1) + ['0'];
    }
    PageRangeOfNumerals(1, 1, 0, 100, 0, slotCount);
  }

  /** An attempt at an in-range, non-negative index rewrites that entry
      alone, counts one, and leaves no `pending` there. */
  lemma AttemptInRange(items: seq<Episode>, used: nat, g: nat, outcome: SlotOutcome, subdub: string)
    requires g < |items| && (outcome.Opened? || outcome.Raised?)
    ensures var q := SlotStep(items, used, g, outcome, subdub);
      && !q.aborted && q.used == used + 1 && |q.items| == |items|
      && (forall k :: 0 <= k < |items| && k != g ==> q.items[k] == items[k])
      && q.items[g].status != Pending
  {
  }

  /** A walk of one reachable page covering `start` onward is that page's slot loop. */
  lemma SinglePageSweep(name: string, slots: seq<SlotOutcome>, subdub: string, items: seq<Episode>,
                        start: int, sel: seq<nat>)
    requires PageRange(name, 0, |slots|).start == start
    requires SelectFrom(items, start, 0, |slots|) == Some(sel) && sel != []
    ensures SweepFrom([name], [Listed(slots)], subdub, 0, Progress(items, 0, false))
         == PageStep(Progress(items, 0, false), start, sel, slots, subdub, 0)
  {
  }

  /** A stored show with entries `[success, error, pending]` and one page
      starting at index 0 (the default "01-100" when there is no
      dropdown): the run selects exactly slots 1 and 2, writes both, leaves
      the `success` entry untouched and uses two attempts. */
  lemma RetriesFailedAndPending(name: string, a: Episode, b: Episode, c: Episode,
                                o0: SlotOutcome, o1: SlotOutcome, o2: SlotOutcome, subdub: string)
    requires PageRange(name, 0, 3).start == 0
    requires a.status == Success && b.status == Error && c.status == Pending
    requires (o1.Opened? || o1.Raised?) && (o2.Opened? || o2.Raised?)
    ensures var r := Sweep([name], [Listed([o0, o1, o2])], subdub, [a, b, c]);
      && !r.aborted && r.used == 2 && |r.items| == 3 && r.items[0] == a
      && r.items[1].status != Pending && r.items[2].status != Pending
      && r.items == SlotStep(SlotStep([a, b, c], 0, 1, o1, subdub).items, 1, 2, o2, subdub).items
  {
    var items := [a, b, c];
    var slots := [o0, o1, o2];
    assert SelectFrom(items, 0, 3, 3) == Some([]);
    assert SlotNeeds(items, 0, 2) == Some(true) && [2] + [] == [2];
    assert SelectFrom(items, 0, 2, 3) == Some([2]);
    assert SlotNeeds(items, 0, 1) == Some(true) && [1] + [2] == [1, 2];
    assert SelectFrom(items, 0, 1, 3) == Some([1, 2]);
    assert SlotNeeds(items, 0, 0) == Some(false);
    assert SelectFrom(items, 0, 0, 3) == Some([1, 2]);
    var q1 := SlotStep(items, 0, 1, o1, subdub);
    AttemptInRange(items, 0, 1, o1, subdub);
    var q2 := SlotStep(q1.items, 1, 2, o2, subdub);
    AttemptInRange(q1.items, 1, 2, o2, subdub);
    var p0 := Progress(items, 0, false);
    assert PageStep(q2, 0, [1, 2], slots, subdub, 2) == q2;
    assert PageStep(q1, 0, [1, 2], slots, subdub, 1) == q2;
    assert PageStep(p0, 0, [1, 2], slots, subdub, 0) == q2;
    SinglePageSweep(name, slots, subdub, items, 0, [1, 2]);
  }
}
