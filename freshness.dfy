/** The need-update check: find the stored record of a show by its detail
    URL and decide whether the show must be visited again. */
module Freshness {
  import opened Wrappers
  import opened Catalog

  /** `[ep for ep in episodes if ep.status in ['success', 'pending']]` */
  function DoneOrPending(episodes: seq<Episode>): (r: seq<Episode>)
    ensures |r| <= |episodes|
  {
    if episodes == [] then []
    else if IsDoneOrPending(episodes[0].status) then [episodes[0]] + DoneOrPending(episodes[1..])
    else DoneOrPending(episodes[1..])
  }

  predicate HasError(episodes: seq<Episode>) {
    exists i :: 0 <= i < |episodes| && episodes[i].status == Error
  }

  /** A stored show is revisited when fewer episodes are present than it
      expects, or when one of them failed. */
  function NeedsUpdate(show: Show): (r: bool)
    ensures HasError(show.episodes) ==> r
    ensures !r ==> |show.episodes| >= show.info.totalEpisodes
    ensures !r ==> forall i :: 0 <= i < |show.episodes| ==> show.episodes[i].status != Error
  {
    |DoneOrPending(show.episodes)| < show.info.totalEpisodes || HasError(show.episodes)
  }

  /** The outcome of looking a show up among the stored records. */
  datatype Lookup =
    | Absent                 // never stored: scrape from scratch
    | Outdated(record: Show) // stored but incomplete: scrape, seeded with its episodes
    | UpToDate(record: Show) // stored and complete: carried over unchanged

  /** The position of the first stored record with this URL. */
  function FirstMatch(existing: seq<Show>, url: string, from: nat): (r: Option<nat>)
    decreases |existing| - from
    ensures r.Some? ==> from <= r.value < |existing| && existing[r.value].info.urlDetail == url
    ensures r.Some? ==> forall j :: from <= j < r.value ==> existing[j].info.urlDetail != url
    ensures r.None? ==> forall j :: from <= j < |existing| ==> existing[j].info.urlDetail != url
  {
    if from >= |existing| then None
    else if existing[from].info.urlDetail == url then Some(from)
    else FirstMatch(existing, url, from + 1)
  }

  /** The search depends on the records' URLs alone. */
  lemma {:induction false} FirstMatchSameUrls(a: seq<Show>, b: seq<Show>, url: string, from: nat)
    requires |a| == |b| && forall j :: 0 <= j < |a| ==> a[j].info.urlDetail == b[j].info.urlDetail
    ensures FirstMatch(a, url, from) == FirstMatch(b, url, from)
    decreases |a| - from
  {
    if from < |a| {
      FirstMatchSameUrls(a, b, url, from + 1);
    }
  }

  /** The classification of the first stored record with this URL. */
  function Classify(existing: seq<Show>, url: string): (r: Lookup)
    ensures r.Absent? <==> FirstMatch(existing, url, 0).None?
    ensures !r.Absent? ==> r.record == existing[FirstMatch(existing, url, 0).value]
    ensures !r.Absent? ==> (r.Outdated? <==> NeedsUpdate(r.record))
  {
    match FirstMatch(existing, url, 0)
    case None => Absent
    case Some(k) => if NeedsUpdate(existing[k]) then Outdated(existing[k]) else UpToDate(existing[k])
  }

  /** The search loop: stop at the first record with the URL and classify it. */
  method LookUp(existing: seq<Show>, url: string) returns (r: Lookup, at: Option<nat>)
    ensures at == FirstMatch(existing, url, 0)
    ensures r == Classify(existing, url)
    ensures r.Absent? <==> forall j :: 0 <= j < |existing| ==> existing[j].info.urlDetail != url
    ensures !r.Absent? ==> Some(r.record) == (match FirstMatch(existing, url, 0)
                                              case Some(k) => Some(existing[k])
                                              case None => None)
    ensures !r.Absent? ==> (r.Outdated? <==> NeedsUpdate(r.record))
  {
    r, at := Absent, None;
    assert FirstMatch(existing, url, 0).None? ==> Classify(existing, url) == Absent;
    var i := 0;
    while i < |existing|
      invariant 0 <= i <= |existing|
      invariant forall j :: 0 <= j < i ==> existing[j].info.urlDetail != url
    {
      var show := existing[i];
      if show.info.urlDetail == url {
        r, at := if NeedsUpdate(show) then Outdated(show) else UpToDate(show), Some(i);
        assert FirstMatch(existing, url, 0) == Some(i);
        return;
      }
      i := i + 1;
    }
  }

  /** With only `success` and `pending` entries, every entry counts as present. */
  lemma {:induction false} DoneOrPendingAll(episodes: seq<Episode>)
    requires forall i :: 0 <= i < |episodes| ==> IsDoneOrPending(episodes[i].status)
    ensures |DoneOrPending(episodes)| == |episodes|
  {
    if episodes != [] {
      DoneOrPendingAll(episodes[1..]);
    }
  }

  /** A show whose list is shorter than its expected count is always revisited. */
  lemma ShortListNeedsUpdate(show: Show)
    requires |show.episodes| < show.info.totalEpisodes
    ensures NeedsUpdate(show)
  {
  }

  /** A show whose expected episodes all succeeded is carried over, never revisited. */
  lemma CompleteShowIsUpToDate(show: Show)
    requires |show.episodes| >= show.info.totalEpisodes
    requires forall i :: 0 <= i < |show.episodes| ==> show.episodes[i].status == Success
    ensures !NeedsUpdate(show)
  {
    DoneOrPendingAll(show.episodes);
  }

  /** `pending` placeholders count as present: a show whose list is long
      enough and has no `error` entry is carried over although every entry
      but the last is still a placeholder that was never scraped. */
  lemma {:induction false} PlaceholdersCountAsPresent(show: Show)
    requires |show.episodes| >= show.info.totalEpisodes && |show.episodes| > 0
    requires forall i :: 0 <= i < |show.episodes| - 1 ==> show.episodes[i].status == Pending
    requires show.episodes[|show.episodes| - 1].status == Success
    ensures !NeedsUpdate(show)
    ensures CountSuccess(show.episodes) == 1
  {
    DoneOrPendingAll(show.episodes);
    OnlyLastSucceeds(show.episodes);
  }

  lemma {:induction false} OnlyLastSucceeds(episodes: seq<Episode>)
    requires |episodes| > 0
    requires forall i :: 0 <= i < |episodes| - 1 ==> episodes[i].status == Pending
    requires episodes[|episodes| - 1].status == Success
    ensures CountSuccess(episodes) == 1
  {
    if |episodes| > 1 {
      OnlyLastSucceeds(episodes[1..]);
    }
  }
}
