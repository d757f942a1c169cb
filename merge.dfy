/** What one run writes back. The listing loop looks every item up in the
    stored catalog, runs the episode loop of the shows it visits and appends
    records to `scraped_data`; the reconciliation then carries over every
    stored show the run did not visit.

    A stored record is a dictionary shared by `existing_data`, by
    `existing_anime` and by every entry of `scraped_data` that appended it,
    and the episode loop and `existing_anime.update` change it in place. The
    model keeps that sharing: the catalog is threaded from item to item, a
    stored record in `scraped_data` is a reference to its position in the
    catalog, and references are read only when the loop is over. */
module Merge {
  import opened Wrappers
  import opened PyStr
  import opened Catalog
  import opened Freshness
  import opened Pagination
  import opened Scheduler
  import opened Details

  /** What the detail page yielded: the title and synopsis texts (or their
      fallbacks), the chip texts and the metadata texts. */
  datatype DetailPage = DetailPage(title: string, synopsis: string, tags: seq<string>, metaTexts: seq<string>)

  /** What the watch page yielded. `views` holds one entry per walked page;
      `closeRaised` says that closing the pages, after the record was
      appended, raised. */
  datatype WatchPage = WatchPage(availableSubdub: seq<string>, optimalSubdub: Option<string>,
                                 detection: PageDetection, views: seq<PageView>, closeRaised: bool)

  /** How the visit of one show ended, once it was looked up and found
      absent or outdated. */
  datatype Attempt =
    | NoWatchButton      // no "Watch Now" link: skipped without a record
    | RaisedBeforeLoop   // an exception before the episode loop: opening or reading a page, closing the detail page
    | Crawled(detail: DetailPage, watch: WatchPage, now: int) // the episode loop ran; `now` is the clock reading

  /** One item of the listing page. `poster` is the poster URL the item
      yielded, or its fallback text. */
  datatype Visit =
    | RaisedBeforeLookup // scrolling to the item, reading its poster or its title link raised
    | NoDetailLink       // the item has no title link: skipped before any lookup
    | Visited(url: string, poster: string, attempt: Attempt)

  /** The walked pages of the watch page and its views correspond. */
  predicate WellShaped(v: Visit) {
    v.Visited? && v.attempt.Crawled? ==> |v.attempt.watch.views| == |WalkedPages(v.attempt.watch.detection)|
  }

  /** An entry of `scraped_data`: the stored record at a catalog position,
      read as it is when the loop ends, or a record built during the run. */
  datatype Entry = Stored(index: nat) | Fresh(show: Show)

  /** The value `existing_anime` carries from one item to the next: never
      assigned yet, `None`, or the stored record at a catalog position. */
  datatype Binding = Unbound | NoShow | KnownShow(index: nat)

  /** The listing loop's state: the stored records as the run has changed
      them, `scraped_data`, and `existing_anime`. */
  datatype Listing = Listing(catalog: seq<Show>, scraped: seq<Entry>, last: Binding)

  /** Every catalog position the state refers to exists. */
  predicate Bounded(s: Listing) {
    && (forall k :: 0 <= k < |s.scraped| && s.scraped[k].Stored? ==> s.scraped[k].index < |s.catalog|)
    && (s.last.KnownShow? ==> s.last.index < |s.catalog|)
  }

  /** `episodes_data` when the episode loop begins: the stored list of a
      known show, or an empty one. */
  function InitialEpisodes(found: Lookup): (r: seq<Episode>)
    ensures found.Absent? ==> r == []
    ensures !found.Absent? ==> r == found.record.episodes
  {
    if found.Absent? then [] else found.record.episodes
  }

  /** The fields refreshed at the end of a visit: title and synopsis are
      stripped, the episodes-per-page value is the constant 100, and the
      clock reading is a parameter. */
  function FreshInfo(title: string, synopsis: string, genres: seq<string>, metadata: seq<string>,
                     poster: string, url: string, total: int, availableSubdub: seq<string>,
                     optimalSubdub: Option<string>, pages: seq<string>, now: int): (r: ShowInfo)
    ensures r.title == Strip(title) && r.synopsis == Strip(synopsis)
    ensures r.urlDetail == url && r.totalEpisodes == total && r.episodesPerPage == 100
  {
    ShowInfo(Strip(title), Strip(synopsis), genres, metadata, poster, url, total,
             availableSubdub, optimalSubdub, pages, 100, now)
  }

  /** The record a completed visit builds, holding the list the episode
      loop left. */
  function FreshRecord(url: string, poster: string, d: DetailPage, w: WatchPage, now: int,
                       items: seq<Episode>): (r: Show)
    ensures r.info.urlDetail == url && r.episodes == items
    ensures r.info.totalEpisodes == TotalEpisodes(w.detection)
    ensures r.info.availablePages == WalkedPages(w.detection)
  {
    Show(FreshInfo(d.title, d.synopsis, Genres(d.tags), Metadata(d.metaTexts), poster, url,
                   TotalEpisodes(w.detection), w.availableSubdub, w.optimalSubdub,
                   WalkedPages(w.detection), now),
         items)
  }

  /** The episode loop of a visit, started from the stored list of a known
      show or from an empty list. */
  function Crawl(found: Lookup, w: WatchPage): (r: Progress)
    requires |w.views| == |WalkedPages(w.detection)|
    ensures r.used <= MaxEpisodesPerRun
    ensures Protects(InitialEpisodes(found), r.items)
  {
    RunWithinBudget(WalkedPages(w.detection), w.views, SubdubLabel(w.optimalSubdub), InitialEpisodes(found));
    SweepFromProtects(WalkedPages(w.detection), w.views, SubdubLabel(w.optimalSubdub), 0,
                      Progress(InitialEpisodes(found), 0, false));
    Sweep(WalkedPages(w.detection), w.views, SubdubLabel(w.optimalSubdub), InitialEpisodes(found))
  }

  /** The item's exception handler: a known show's record is appended. */
  function Rescue(s: Listing): (r: Listing)
    ensures r.catalog == s.catalog && r.last == s.last
    ensures s.last.KnownShow? ==> r.scraped == s.scraped + [Stored(s.last.index)]
    ensures !s.last.KnownShow? ==> r.scraped == s.scraped
  {
    if s.last.KnownShow? then s.(scraped := s.scraped + [Stored(s.last.index)]) else s
  }

  /** A known show's record after the episode loop changed its list in
      place; nothing changes for a new show, whose list is its own. */
  function WithEpisodes(s: Listing, items: seq<Episode>): (r: Listing)
    requires s.last.KnownShow? ==> s.last.index < |s.catalog|
    ensures r.scraped == s.scraped && r.last == s.last && |r.catalog| == |s.catalog|
    ensures s.last.KnownShow? ==> r.catalog[s.last.index] == Show(s.catalog[s.last.index].info, items)
    ensures forall j :: 0 <= j < |s.catalog| && !(s.last.KnownShow? && j == s.last.index) ==> r.catalog[j] == s.catalog[j]
  {
    if s.last.KnownShow? then
      s.(catalog := s.catalog[s.last.index := Show(s.catalog[s.last.index].info, items)])
    else s
  }

  /** The end of a completed visit: a known show's record is replaced field
      by field and appended; a new show's record is appended. */
  function Finish(s: Listing, rec: Show): (r: Listing)
    requires s.last.KnownShow? ==> s.last.index < |s.catalog|
    ensures r.last == s.last && |r.catalog| == |s.catalog|
    ensures s.last.KnownShow? ==> r.catalog[s.last.index] == rec && r.scraped == s.scraped + [Stored(s.last.index)]
    ensures !s.last.KnownShow? ==> r.catalog == s.catalog && r.scraped == s.scraped + [Fresh(rec)]
    ensures forall j :: 0 <= j < |s.catalog| && !(s.last.KnownShow? && j == s.last.index) ==> r.catalog[j] == s.catalog[j]
  {
    if s.last.KnownShow? then
      Listing(s.catalog[s.last.index := rec], s.scraped + [Stored(s.last.index)], s.last)
    else s.(scraped := s.scraped + [Fresh(rec)])
  }

  /** One visited item: look it up, carry an up-to-date record over, and
      otherwise end as the attempt did. After a completed visit the progress
      line divides by the total, so a total of 0 raises, as does a failure
      to close the pages; the handler then appends a known show once more. */
  function VisitStep(s: Listing, url: string, poster: string, a: Attempt): (r: Listing)
    requires a.Crawled? ==> |a.watch.views| == |WalkedPages(a.watch.detection)|
    ensures |r.catalog| == |s.catalog|
    ensures r.last == (match FirstMatch(s.catalog, url, 0) case Some(i) => KnownShow(i) case None => NoShow)
    ensures Bounded(s) ==> Bounded(r)
  {
    var m := FirstMatch(s.catalog, url, 0);
    var found := Classify(s.catalog, url);
    var t := s.(last := if m.Some? then KnownShow(m.value) else NoShow);
    if found.UpToDate? then t.(scraped := t.scraped + [Stored(m.value)])
    else
      match a
      case NoWatchButton => t
      case RaisedBeforeLoop => Rescue(t)
      case Crawled(d, w, now) => CrawledStep(t, found, url, poster, d, w, now)
  }

  /** The rest of an item whose show was crawled: the episode loop, then the
      record's write and the division by `total_episodes`. */
  function CrawledStep(t: Listing, found: Lookup, url: string, poster: string,
                       d: DetailPage, w: WatchPage, now: int): (r: Listing)
    requires |w.views| == |WalkedPages(w.detection)|
    requires t.last.KnownShow? ==> t.last.index < |t.catalog|
    ensures r.last == t.last && |r.catalog| == |t.catalog|
    ensures Bounded(t) ==> Bounded(r)
  {
    var p := Crawl(found, w);
    if p.aborted then Rescue(WithEpisodes(t, p.items))
    else
      var u := Finish(t, FreshRecord(url, poster, d, w, now, p.items));
      if TotalEpisodes(w.detection) == 0 || w.closeRaised then Rescue(u) else u
  }

  /** One item of the listing loop; `None` when an exception escapes the
      loop: an item that fails before its lookup, while `existing_anime`
      was never assigned, makes the handler's own test raise. */
  function ListingStep(s: Listing, v: Visit): (r: Option<Listing>)
    requires WellShaped(v)
    ensures v.RaisedBeforeLookup? ==> (r.None? <==> s.last.Unbound?)
    ensures v.RaisedBeforeLookup? && s.last.KnownShow? ==> r == Some(s.(scraped := s.scraped + [Stored(s.last.index)]))
    ensures v.NoDetailLink? ==> r == Some(s)
    ensures r.Some? ==> |r.value.catalog| == |s.catalog| && (Bounded(s) ==> Bounded(r.value))
  {
    match v
    case RaisedBeforeLookup => if s.last.Unbound? then None else Some(Rescue(s))
    case NoDetailLink => Some(s)
    case Visited(url, poster, a) => Some(VisitStep(s, url, poster, a))
  }

  /** The listing loop's state after the items `visits`; `None` once an
      exception has escaped it. */
  function Collected(existing: seq<Show>, visits: seq<Visit>): (r: Option<Listing>)
    requires forall k :: 0 <= k < |visits| ==> WellShaped(visits[k])
    ensures r.Some? ==> |r.value.catalog| == |existing| && Bounded(r.value)
  {
    if visits == [] then Some(Listing(existing, [], Unbound))
    else
      match Collected(existing, visits[..|visits| - 1])
      case None => None
      case Some(s) => ListingStep(s, visits[|visits| - 1])
  }

  /** The records of `scraped_data` as they read when the loop is over. */
  function Resolve(catalog: seq<Show>, scraped: seq<Entry>): (r: seq<Show>)
    requires forall k :: 0 <= k < |scraped| && scraped[k].Stored? ==> scraped[k].index < |catalog|
    ensures |r| == |scraped|
    ensures forall k :: 0 <= k < |scraped| && scraped[k].Stored? ==> r[k] == catalog[scraped[k].index]
    ensures forall k :: 0 <= k < |scraped| && scraped[k].Fresh? ==> r[k] == scraped[k].show
  {
    if scraped == [] then []
    else
      [if scraped[0].Stored? then catalog[scraped[0].index] else scraped[0].show]
        + Resolve(catalog, scraped[1..])
  }

  /** `[anime.get('url_detail') for anime in shows]` */
  function Urls(shows: seq<Show>): (r: seq<string>)
    ensures |r| == |shows|
    ensures forall k :: 0 <= k < |shows| ==> r[k] == shows[k].info.urlDetail
  {
    if shows == [] then [] else [shows[0].info.urlDetail] + Urls(shows[1..])
  }

  /** The stored shows, in order, whose URL is not among `urls`. */
  function Unvisited(existing: seq<Show>, urls: seq<string>): (r: seq<Show>)
    ensures |r| <= |existing|
    ensures forall k :: 0 <= k < |r| ==> r[k].info.urlDetail !in urls
  {
    if existing == [] then []
    else if existing[0].info.urlDetail !in urls then [existing[0]] + Unvisited(existing[1..], urls)
    else Unvisited(existing[1..], urls)
  }

  /** What the run writes to the catalog file: `scraped_data` as it reads
      when the listing loop is over, followed by the stored records whose
      URL it does not hold; `None` when nothing is written. */
  function Saved(existing: seq<Show>, visits: seq<Visit>): Option<seq<Show>>
    requires forall k :: 0 <= k < |visits| ==> WellShaped(visits[k])
  {
    match Collected(existing, visits)
    case None => None
    case Some(s) =>
      var out := Resolve(s.catalog, s.scraped);
      Some(out + Unvisited(s.catalog, Urls(out)))
  }

  // ---------------------------------------------------------------------
  // The loops

  /** The body of the listing loop for one item. The episode loop runs on
      the show's own list object, which a known show's record shares. */
  method HandleVisit(s: Listing, v: Visit) returns (r: Option<Listing>)
    requires WellShaped(v)
    ensures r == ListingStep(s, v)
  {
    match v
    case RaisedBeforeLookup =>
      if s.last.Unbound? {
        return None;
      }
      return Some(Rescue(s));
    case NoDetailLink =>
      return Some(s);
    case Visited(url, poster, a) =>
      var found, at := LookUp(s.catalog, url);
      var t := s.(last := if at.Some? then KnownShow(at.value) else NoShow);
      if found.UpToDate? {
        return Some(t.(scraped := t.scraped + [Stored(at.value)]));
      }
      match a
      case NoWatchButton =>
        return Some(t);
      case RaisedBeforeLoop =>
        return Some(Rescue(t));
      case Crawled(d, w, now) =>
        var episodes := new EpisodeList(InitialEpisodes(found));
        var used, aborted := RunEpisodeLoop(episodes, DetectedPages(w.detection), CurrentPage(w.detection),
                                            w.views, w.optimalSubdub);
        if aborted {
          return Some(Rescue(WithEpisodes(t, episodes.items)));
        }
        var u := Finish(t, FreshRecord(url, poster, d, w, now, episodes.items));
        if TotalEpisodes(w.detection) == 0 || w.closeRaised {
          return Some(Rescue(u));
        }
        return Some(u);
  }

  /** The listing loop over the items. */
  method CollectVisits(existing: seq<Show>, visits: seq<Visit>) returns (r: Option<Listing>)
    requires forall k :: 0 <= k < |visits| ==> WellShaped(visits[k])
    ensures r == Collected(existing, visits)
  {
    var s := Listing(existing, [], Unbound);
    for i := 0 to |visits|
      invariant Collected(existing, visits[..i]) == Some(s)
    {
      assert visits[..i + 1][..i] == visits[..i];
      var next := HandleVisit(s, visits[i]);
      if next.None? {
        assert Collected(existing, visits[..i + 1]) == None;
        CollectedStaysNone(existing, visits, i + 1);
        return None;
      }
      s := next.value;
    }
    assert visits[..|visits|] == visits;
    return Some(s);
  }

  /** Once an exception has escaped the listing loop, nothing is collected. */
  lemma {:induction false} CollectedStaysNone(existing: seq<Show>, visits: seq<Visit>, n: nat)
    requires forall k :: 0 <= k < |visits| ==> WellShaped(visits[k])
    requires n <= |visits| && Collected(existing, visits[..n]) == None
    ensures Collected(existing, visits) == None
    decreases |visits| - n
  {
    if n < |visits| {
      assert visits[..n + 1][..n] == visits[..n];
      CollectedStaysNone(existing, visits, n + 1);
    } else {
      assert visits[..n] == visits;
    }
  }

  /** The reconciliation loop: the URLs are taken once, before any append. */
  method Reconcile(scraped: seq<Show>, existing: seq<Show>) returns (merged: seq<Show>)
    ensures merged == scraped + Unvisited(existing, Urls(scraped))
  {
    var updated := Urls(scraped);
    merged := scraped;
    for i := 0 to |existing|
      invariant merged + Unvisited(existing[i..], updated) == scraped + Unvisited(existing, updated)
    {
      assert existing[i..][1..] == existing[i + 1..];
      if existing[i].info.urlDetail !in updated {
        assert merged + ([existing[i]] + Unvisited(existing[i + 1..], updated))
            == (merged + [existing[i]]) + Unvisited(existing[i + 1..], updated);
        merged := merged + [existing[i]];
      }
    }
    assert existing[|existing|..] == [];
    assert merged + [] == merged;
  }

  /** The whole run after the listing page was read: the listing loop, then
      the reconciliation; `None` when no catalog is written. */
  method SyncCatalog(existing: seq<Show>, visits: seq<Visit>) returns (saved: Option<seq<Show>>)
    requires forall k :: 0 <= k < |visits| ==> WellShaped(visits[k])
    ensures saved == Saved(existing, visits)
  {
    var collected := CollectVisits(existing, visits);
    if collected.None? {
      return None;
    }
    var s := collected.value;
    var merged := Reconcile(Resolve(s.catalog, s.scraped), s.catalog);
    return Some(merged);
  }

  // ---------------------------------------------------------------------
  // What a visit does to the catalog

  /** A visit that finds its show up to date changes no record and appends
      the stored one as it stands. */
  lemma UpToDateCarriedOver(s: Listing, url: string, poster: string, a: Attempt)
    requires a.Crawled? ==> |a.watch.views| == |WalkedPages(a.watch.detection)|
    requires Classify(s.catalog, url).UpToDate?
    ensures FirstMatch(s.catalog, url, 0).Some?
    ensures var i := FirstMatch(s.catalog, url, 0).value;
      && s.catalog[i] == Classify(s.catalog, url).record
      && VisitStep(s, url, poster, a) == Listing(s.catalog, s.scraped + [Stored(i)], KnownShow(i))
  {
  }

  /** A completed visit of an outdated show rewrites its record in place,
      and a later item with the same URL looks up the rewritten record. If
      that record is up to date, the later item appends the same record a
      second time. */
  lemma LaterLookupSeesUpdate(s: Listing, url: string, poster: string, d: DetailPage, w: WatchPage, now: int,
                              poster2: string, a2: Attempt)
    requires |w.views| == |WalkedPages(w.detection)|
    requires a2.Crawled? ==> |a2.watch.views| == |WalkedPages(a2.watch.detection)|
    requires FirstMatch(s.catalog, url, 0).Some? && Classify(s.catalog, url).Outdated?
    requires !Crawl(Classify(s.catalog, url), w).aborted
    requires TotalEpisodes(w.detection) != 0 && !w.closeRaised
    ensures var i := FirstMatch(s.catalog, url, 0).value;
      var rec := FreshRecord(url, poster, d, w, now, Crawl(Classify(s.catalog, url), w).items);
      var t := VisitStep(s, url, poster, Crawled(d, w, now));
      && t == Listing(s.catalog[i := rec], s.scraped + [Stored(i)], KnownShow(i))
      && Classify(t.catalog, url) == (if NeedsUpdate(rec) then Outdated(rec) else UpToDate(rec))
      && (!NeedsUpdate(rec) ==> VisitStep(t, url, poster2, a2).scraped == s.scraped + [Stored(i), Stored(i)])
  {
    var i := FirstMatch(s.catalog, url, 0).value;
    var rec := FreshRecord(url, poster, d, w, now, Crawl(Classify(s.catalog, url), w).items);
    var t := VisitStep(s, url, poster, Crawled(d, w, now));
    assert t == Listing(s.catalog[i := rec], s.scraped + [Stored(i)], KnownShow(i));
    FirstMatchSameUrls(s.catalog, t.catalog, url, 0);
    if !NeedsUpdate(rec) {
      UpToDateCarriedOver(t, url, poster2, a2);
    }
  }

  /** A completed visit whose total is 0 raises in the progress line after
      the record was appended: a known show is appended twice, a new show
      once. */
  lemma ZeroTotalAppendsKnownShowTwice(s: Listing, url: string, poster: string, d: DetailPage, w: WatchPage, now: int)
    requires |w.views| == |WalkedPages(w.detection)|
    requires !Classify(s.catalog, url).UpToDate? && !Crawl(Classify(s.catalog, url), w).aborted
    requires TotalEpisodes(w.detection) == 0
    ensures var t := VisitStep(s, url, poster, Crawled(d, w, now));
      var rec := FreshRecord(url, poster, d, w, now, Crawl(Classify(s.catalog, url), w).items);
      match FirstMatch(s.catalog, url, 0)
      case Some(i) => t.scraped == s.scraped + [Stored(i), Stored(i)] && t.catalog == s.catalog[i := rec]
      case None => t.scraped == s.scraped + [Fresh(rec)] && t.catalog == s.catalog
  {
  }

  // ---------------------------------------------------------------------
  // What the run keeps of the stored catalog

  /** `i` is the first stored position holding its URL: the one every
      lookup of that URL finds. */
  predicate FirstAt(existing: seq<Show>, i: nat) {
    i < |existing| && FirstMatch(existing, existing[i].info.urlDetail, 0) == Some(i)
  }

  /** The listing loop's state relative to the stored catalog: the same
      positions and URLs; every record keeps the settled entries of its
      stored list; stored entries of `scraped_data` and `existing_anime`
      refer to the first record of their URL, and built records carry URLs
      the catalog does not hold; a record that differs from the stored one
      has been appended to `scraped_data`. */
  predicate Faithful(existing: seq<Show>, s: Listing) {
    && |s.catalog| == |existing|
    && (forall j :: 0 <= j < |existing| ==> s.catalog[j].info.urlDetail == existing[j].info.urlDetail)
    && (forall j :: 0 <= j < |existing| ==> Protects(existing[j].episodes, s.catalog[j].episodes))
    && (forall k :: 0 <= k < |s.scraped| && s.scraped[k].Stored? ==> FirstAt(existing, s.scraped[k].index))
    && (forall k :: 0 <= k < |s.scraped| && s.scraped[k].Fresh? ==>
          FirstMatch(existing, s.scraped[k].show.info.urlDetail, 0).None?)
    && (s.last.KnownShow? ==> FirstAt(existing, s.last.index))
    && (forall j :: 0 <= j < |existing| && s.catalog[j] != existing[j] ==> Stored(j) in s.scraped)
  }

  lemma RescueFaithful(existing: seq<Show>, s: Listing)
    requires Faithful(existing, s)
    ensures Faithful(existing, Rescue(s))
  {
  }

  /** Replacing the first record of a URL by one with the same URL that
      keeps its settled entries, and appending a reference to it, keeps the
      state faithful. */
  lemma ReplaceFaithful(existing: seq<Show>, s: Listing, i: nat, rec: Show)
    requires Faithful(existing, s) && FirstAt(existing, i)
    requires rec.info.urlDetail == s.catalog[i].info.urlDetail
    requires Protects(s.catalog[i].episodes, rec.episodes)
    ensures Faithful(existing, Listing(s.catalog[i := rec], s.scraped + [Stored(i)], s.last))
  {
    ProtectsTransitive(existing[i].episodes, s.catalog[i].episodes, rec.episodes);
    var scraped := s.scraped + [Stored(i)];
    assert scraped[|s.scraped|] == Stored(i);
    forall j | 0 <= j < |existing| && s.catalog[i := rec][j] != existing[j]
      ensures Stored(j) in scraped
    {
      if j != i {
        assert Stored(j) in s.scraped;
      }
    }
  }

  /** A crawled visit, from a faithful state whose `existing_anime` is the
      looked-up show, ends in a faithful state however it ends. */
  lemma CrawledFaithful(existing: seq<Show>, t: Listing, found: Lookup, url: string, poster: string,
                        d: DetailPage, w: WatchPage, now: int)
    requires |w.views| == |WalkedPages(w.detection)|
    requires Faithful(existing, t)
    requires t.last.KnownShow? ==> !found.Absent? && found.record == t.catalog[t.last.index]
    requires t.last.KnownShow? ==> t.catalog[t.last.index].info.urlDetail == url
    requires !t.last.KnownShow? ==> found.Absent? && FirstMatch(existing, url, 0).None?
    ensures Faithful(existing, CrawledStep(t, found, url, poster, d, w, now))
  {
    var p := Crawl(found, w);
    var rec := FreshRecord(url, poster, d, w, now, p.items);
    if t.last.KnownShow? {
      var i := t.last.index;
      SweepFromProtects(WalkedPages(w.detection), w.views, SubdubLabel(w.optimalSubdub), 0,
                        Progress(InitialEpisodes(found), 0, false));
      assert InitialEpisodes(found) == t.catalog[i].episodes;
      ReplaceFaithful(existing, t, i, Show(t.catalog[i].info, p.items));
      assert Rescue(WithEpisodes(t, p.items))
          == Listing(t.catalog[i := Show(t.catalog[i].info, p.items)], t.scraped + [Stored(i)], t.last);
      ReplaceFaithful(existing, t, i, rec);
      assert Finish(t, rec) == Listing(t.catalog[i := rec], t.scraped + [Stored(i)], t.last);
    }
    RescueFaithful(existing, Finish(t, rec));
  }

  lemma VisitFaithful(existing: seq<Show>, s: Listing, url: string, poster: string, a: Attempt)
    requires a.Crawled? ==> |a.watch.views| == |WalkedPages(a.watch.detection)|
    requires Faithful(existing, s)
    ensures Faithful(existing, VisitStep(s, url, poster, a))
  {
    var m := FirstMatch(s.catalog, url, 0);
    FirstMatchSameUrls(s.catalog, existing, url, 0);
    var found := Classify(s.catalog, url);
    var t := s.(last := if m.Some? then KnownShow(m.value) else NoShow);
    assert Faithful(existing, t);
    if found.UpToDate? {
      assert VisitStep(s, url, poster, a) == t.(scraped := t.scraped + [Stored(m.value)]);
    } else {
      match a
      case NoWatchButton =>
        assert VisitStep(s, url, poster, a) == t;
      case RaisedBeforeLoop =>
        RescueFaithful(existing, t);
        assert VisitStep(s, url, poster, a) == Rescue(t);
      case Crawled(d, w, now) =>
        CrawledFaithful(existing, t, found, url, poster, d, w, now);
    }
  }

  lemma {:induction false} CollectedFaithful(existing: seq<Show>, visits: seq<Visit>)
    requires forall k :: 0 <= k < |visits| ==> WellShaped(visits[k])
    ensures Collected(existing, visits).Some? ==> Faithful(existing, Collected(existing, visits).value)
  {
    if visits == [] {
      assert Faithful(existing, Listing(existing, [], Unbound));
    } else {
      var init := visits[..|visits| - 1];
      CollectedFaithful(existing, init);
      var c := Collected(existing, init);
      if c.Some? {
        var v := visits[|visits| - 1];
        match v
        case RaisedBeforeLookup => RescueFaithful(existing, c.value);
        case NoDetailLink =>
        case Visited(url, poster, a) => VisitFaithful(existing, c.value, url, poster, a);
      }
    }
  }

  /** From a faithful state, the written catalog holds the current record
      of every first stored position. */
  lemma FaithfulOutputHolds(existing: seq<Show>, s: Listing, i: nat)
    requires Faithful(existing, s) && FirstAt(existing, i)
    ensures var out := Resolve(s.catalog, s.scraped);
      s.catalog[i] in out + Unvisited(s.catalog, Urls(out))
  {
    var out := Resolve(s.catalog, s.scraped);
    var saved := out + Unvisited(s.catalog, Urls(out));
    var u := existing[i].info.urlDetail;
    var rec := s.catalog[i];
    if u in Urls(out) {
      var m :| 0 <= m < |out| && Urls(out)[m] == u;
      assert FirstMatch(existing, u, 0) == Some(i);
      assert s.scraped[m].Stored?;
      var j := s.scraped[m].index;
      assert existing[j].info.urlDetail == u;
      assert saved[m] == rec;
    } else {
      UnvisitedMembership(s.catalog, Urls(out), rec);
      var added := Unvisited(s.catalog, Urls(out));
      var m :| 0 <= m < |added| && added[m] == rec;
      assert saved[|out| + m] == rec;
    }
  }

  /** Every stored show reaches the written catalog, under its URL, with
      every entry that was `success` (or otherwise settled) still in place
      and at least as many `success` entries. For a URL stored more than
      once this holds of the first record, the one every lookup finds. */
  lemma SavedKeepsStoredRecords(existing: seq<Show>, visits: seq<Visit>, i: nat)
    requires forall k :: 0 <= k < |visits| ==> WellShaped(visits[k])
    requires FirstAt(existing, i)
    requires Saved(existing, visits).Some?
    ensures exists r :: (r in Saved(existing, visits).value
      && r.info.urlDetail == existing[i].info.urlDetail
      && Protects(existing[i].episodes, r.episodes)
      && CountSuccess(existing[i].episodes) <= CountSuccess(r.episodes))
  {
    var s := Collected(existing, visits).value;
    CollectedFaithful(existing, visits);
    FaithfulOutputHolds(existing, s, i);
    var rec := s.catalog[i];
    ProtectsKeepsSuccessCount(existing[i].episodes, rec.episodes);
    assert rec in Saved(existing, visits).value;
  }

  // ---------------------------------------------------------------------
  // When nothing is written

  /** Some item fails before its lookup while no earlier item was looked up. */
  predicate FailsBeforeAnyLookup(visits: seq<Visit>) {
    exists k :: 0 <= k < |visits| && visits[k].RaisedBeforeLookup? && forall j :: 0 <= j < k ==> !visits[j].Visited?
  }

  /** One item either lets an exception escape, exactly when it fails
      before its lookup while `existing_anime` is unassigned, or leaves
      `existing_anime` unassigned exactly when it was and no lookup ran. */
  lemma StepBinding(s: Listing, v: Visit)
    requires WellShaped(v)
    ensures ListingStep(s, v).None? <==> v.RaisedBeforeLookup? && s.last.Unbound?
    ensures ListingStep(s, v).Some? ==> (ListingStep(s, v).value.last.Unbound? <==> s.last.Unbound? && !v.Visited?)
  {
  }

  lemma {:induction false} CollectedFailsExactly(existing: seq<Show>, visits: seq<Visit>)
    requires forall k :: 0 <= k < |visits| ==> WellShaped(visits[k])
    ensures Collected(existing, visits).None? <==> FailsBeforeAnyLookup(visits)
    ensures Collected(existing, visits).Some? ==>
      (Collected(existing, visits).value.last.Unbound? <==> forall j :: 0 <= j < |visits| ==> !visits[j].Visited?)
  {
    if visits != [] {
      var n := |visits| - 1;
      var init := visits[..n];
      var v := visits[n];
      CollectedFailsExactly(existing, init);
      assert forall j :: 0 <= j < n ==> init[j] == visits[j];
      var c := Collected(existing, init);
      if c.None? {
        assert Collected(existing, visits).None?;
        var k :| 0 <= k < |init| && init[k].RaisedBeforeLookup? && forall j :: 0 <= j < k ==> !init[j].Visited?;
        assert visits[k].RaisedBeforeLookup? && forall j :: 0 <= j < k ==> !visits[j].Visited?;
      } else {
        assert Collected(existing, visits) == ListingStep(c.value, v);
        StepBinding(c.value, v);
        assert !FailsBeforeAnyLookup(init);
        if FailsBeforeAnyLookup(visits) {
          var k :| 0 <= k < |visits| && visits[k].RaisedBeforeLookup? && forall j :: 0 <= j < k ==> !visits[j].Visited?;
          assert k == n;
        }
        if v.RaisedBeforeLookup? && c.value.last.Unbound? {
          assert visits[n].RaisedBeforeLookup? && forall j :: 0 <= j < n ==> !visits[j].Visited?;
        }
      }
    }
  }

  /** The catalog file is not written exactly when an item fails before its
      lookup ahead of every looked-up item: the exception handler then tests
      a variable never assigned, and the error escapes the listing loop. */
  lemma NothingSavedExactly(existing: seq<Show>, visits: seq<Visit>)
    requires forall k :: 0 <= k < |visits| ==> WellShaped(visits[k])
    ensures Saved(existing, visits).None? <==> FailsBeforeAnyLookup(visits)
  {
    CollectedFailsExactly(existing, visits);
  }

  /** An item that fails before its lookup, after some item was looked up,
      appends the last looked-up show's record again when that show was
      stored. */
  lemma FailureRepeatsLastShow(existing: seq<Show>, visits: seq<Visit>, v: Visit)
    requires forall k :: 0 <= k < |visits| ==> WellShaped(visits[k])
    requires v.RaisedBeforeLookup? && Collected(existing, visits).Some?
    requires Collected(existing, visits).value.last.KnownShow?
    ensures var s := Collected(existing, visits).value;
      Collected(existing, visits + [v]) == Some(s.(scraped := s.scraped + [Stored(s.last.index)]))
  {
    assert (visits + [v])[..|visits|] == visits;
  }

  // ---------------------------------------------------------------------
  // Reconciliation

  /** A show is added by reconciliation exactly when it is in the list
      reconciled against and its URL was not collected. */
  lemma {:induction false} UnvisitedMembership(existing: seq<Show>, urls: seq<string>, s: Show)
    ensures s in Unvisited(existing, urls) <==> s in existing && s.info.urlDetail !in urls
  {
    if existing != [] {
      UnvisitedMembership(existing[1..], urls, s);
      assert s in existing <==> s == existing[0] || s in existing[1..];
    }
  }

  /** Reconciling against two lists with the same URLs position by
      position adds the same records when they agree wherever the URL was
      not collected. */
  lemma {:induction false} UnvisitedAgree(a: seq<Show>, b: seq<Show>, urls: seq<string>)
    requires |a| == |b|
    requires forall j :: 0 <= j < |a| ==> a[j].info.urlDetail == b[j].info.urlDetail
    requires forall j :: 0 <= j < |a| && a[j].info.urlDetail !in urls ==> a[j] == b[j]
    ensures Unvisited(a, urls) == Unvisited(b, urls)
  {
    if a != [] {
      assert forall j :: 0 <= j < |a| - 1 ==> a[1..][j] == a[j + 1] && b[1..][j] == b[j + 1];
      UnvisitedAgree(a[1..], b[1..], urls);
    }
  }

  /** A catalog position that `scraped_data` refers to has its URL collected. */
  lemma StoredUrlCollected(catalog: seq<Show>, scraped: seq<Entry>, j: nat)
    requires forall k :: 0 <= k < |scraped| && scraped[k].Stored? ==> scraped[k].index < |catalog|
    requires j < |catalog|
    ensures Stored(j) in scraped ==> catalog[j].info.urlDetail in Urls(Resolve(catalog, scraped))
  {
    if Stored(j) in scraped {
      var m :| 0 <= m < |scraped| && scraped[m] == Stored(j);
      assert Urls(Resolve(catalog, scraped))[m] == catalog[j].info.urlDetail;
    }
  }

  /** The records reconciliation adds are the stored records as loaded,
      whose URL was not collected, in stored order: a record the run changed
      in place was also appended, so its URL is collected. */
  lemma SavedAddsStoredRecordsAsLoaded(existing: seq<Show>, visits: seq<Visit>)
    requires forall k :: 0 <= k < |visits| ==> WellShaped(visits[k])
    ensures Saved(existing, visits).Some? ==>
      var s := Collected(existing, visits).value;
      var out := Resolve(s.catalog, s.scraped);
      Saved(existing, visits).value == out + Unvisited(existing, Urls(out))
    ensures Saved(existing, visits).Some? ==>
      var s := Collected(existing, visits).value;
      var out := Resolve(s.catalog, s.scraped);
      forall r :: r in Unvisited(s.catalog, Urls(out)) ==> r in existing
  {
    if Collected(existing, visits).Some? {
      var s := Collected(existing, visits).value;
      CollectedFaithful(existing, visits);
      var out := Resolve(s.catalog, s.scraped);
      forall j | 0 <= j < |s.catalog| && s.catalog[j].info.urlDetail !in Urls(out)
        ensures s.catalog[j] == existing[j]
      {
        StoredUrlCollected(s.catalog, s.scraped, j);
      }
      UnvisitedAgree(s.catalog, existing, Urls(out));
      forall r | r in Unvisited(s.catalog, Urls(out))
        ensures r in existing
      {
        UnvisitedMembership(existing, Urls(out), r);
      }
    }
  }

  /** After reconciliation every stored show's URL is present. */
  lemma ReconcileCoversExisting(scraped: seq<Show>, existing: seq<Show>, k: nat)
    requires k < |existing|
    ensures existing[k].info.urlDetail in Urls(scraped + Unvisited(existing, Urls(scraped)))
  {
    var merged := scraped + Unvisited(existing, Urls(scraped));
    var u := existing[k].info.urlDetail;
    if u in Urls(scraped) {
      var m :| 0 <= m < |scraped| && Urls(scraped)[m] == u;
      assert merged[m] == scraped[m];
    } else {
      UnvisitedMembership(existing, Urls(scraped), existing[k]);
      var added := Unvisited(existing, Urls(scraped));
      var m :| 0 <= m < |added| && added[m] == existing[k];
      assert merged[|scraped| + m] == existing[k];
    }
  }

  /** No two shows carry the same URL. */
  predicate DistinctUrls(shows: seq<Show>) {
    forall i, j :: 0 <= i < |shows| && 0 <= j < |shows| && i != j ==> shows[i].info.urlDetail != shows[j].info.urlDetail
  }

  /** When the stored URLs are distinct, reconciliation adds each unvisited
      URL once. */
  lemma {:induction false} UnvisitedOnce(existing: seq<Show>, urls: seq<string>)
    requires DistinctUrls(existing)
    ensures DistinctUrls(Unvisited(existing, urls))
  {
    if existing != [] {
      var rest := existing[1..];
      assert DistinctUrls(rest) by {
        forall i, j | 0 <= i < |rest| && 0 <= j < |rest| && i != j
          ensures rest[i].info.urlDetail != rest[j].info.urlDetail
        {
          assert rest[i] == existing[i + 1] && rest[j] == existing[j + 1];
        }
      }
      UnvisitedOnce(rest, urls);
      if existing[0].info.urlDetail !in urls {
        var tail := Unvisited(rest, urls);
        forall m | 0 <= m < |tail|
          ensures tail[m].info.urlDetail != existing[0].info.urlDetail
        {
          UnvisitedMembership(rest, urls, tail[m]);
          var n :| 0 <= n < |rest| && rest[n] == tail[m];
          assert existing[n + 1] == tail[m];
        }
      }
    }
  }
}
