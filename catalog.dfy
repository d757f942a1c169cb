/** The catalog's records as the crawler stores them in its JSON file: one
    show record per detail-page URL, each holding its episode records in
    global episode order. */
module Catalog {
  import opened Wrappers
  import PyStr

  /** An episode's `status`. `Other` stands for any value this code never
      writes itself (a missing key, or a string from an older catalog). */
  datatype Status = Success | Error | Pending | Other

  /** The statuses the per-page selection picks for another attempt. */
  predicate IsRetry(s: Status) {
    s == Error || s == Pending
  }

  /** The statuses the need-update check counts as present. */
  predicate IsDoneOrPending(s: Status) {
    s == Success || s == Pending
  }

  /** One entry of a show's `episodes` list. */
  datatype Episode = Episode(
    number: string,
    iframe: string,
    subdub: string,
    status: Status,
    allQualities: map<string, string>)

  /** Everything a show record holds besides its episode list. */
  datatype ShowInfo = ShowInfo(
    title: string,
    synopsis: string,
    genres: seq<string>,
    metadata: seq<string>,
    poster: string,
    urlDetail: string,
    totalEpisodes: int,
    availableSubdub: seq<string>,
    optimalSubdub: Option<string>,
    availablePages: seq<string>,
    episodesPerPage: int,
    lastUpdated: int)

  datatype Show = Show(info: ShowInfo, episodes: seq<Episode>)

  const NotFetched := "Gagal diambil"
  const NotYetScraped := "Belum di-scrape"
  const NoSubdub := "None"
  const BlankFrame := "about:blank"
  const CurrentQuality := "Current"

  /** The label "EP n" the crawler gives an episode it has no badge text for. */
  function EpisodeLabel(n: int): string {
    "EP " + PyStr.PyStrInt(n)
  }

  /** The value written into `subdub`: the detected variant, or "None" when
      there is none or it is empty. */
  function SubdubLabel(optimal: Option<string>): (r: string)
    ensures optimal.Some? && optimal.value != "" ==> r == optimal.value
    ensures optimal.None? || optimal.value == "" ==> r == NoSubdub
  {
    match optimal
    case Some(v) => if v != "" then v else NoSubdub
    case None => NoSubdub
  }

  /** The placeholder the padding loop appends at position `k`. */
  function Placeholder(k: nat): (e: Episode)
    ensures e.status == Pending && e.number == EpisodeLabel(k + 1)
  {
    Episode(EpisodeLabel(k + 1), NotYetScraped, NoSubdub, Pending, map[])
  }

  /** The record the exception handler writes for global index `g`. */
  function FailedEpisode(g: int, subdub: string): (e: Episode)
    ensures e.status == Error && e.number == EpisodeLabel(g + 1) && e.allQualities == map[]
  {
    Episode(EpisodeLabel(g + 1), NotFetched, subdub, Error, map[])
  }

  /** The number of `success` entries. */
  function CountSuccess(episodes: seq<Episode>): nat {
    if episodes == [] then 0
    else (if episodes[0].status == Success then 1 else 0) + CountSuccess(episodes[1..])
  }

  /** A source read from the player counts as playable when it is present,
      non-empty and not the blank page. */
  predicate IsPlayable(src: Option<string>) {
    src.Some? && src.value != "" && src.value != BlankFrame
  }

  /** A `success` record always holds a playable source, also listed as its
      only quality. */
  predicate WellFormed(e: Episode) {
    e.status == Success ==>
      e.iframe != "" && e.iframe != BlankFrame && e.allQualities == map[CurrentQuality := e.iframe]
  }

  /** The record written after an episode was opened: `src` is the last
      `src` attribute read from the player, if any. */
  function ScrapedEpisode(number: string, src: Option<string>, subdub: string): (e: Episode)
    ensures e.status == Success <==> IsPlayable(src)
    ensures e.status == Success || e.status == Error
    ensures e.status == Success ==> Some(e.iframe) == src
    ensures WellFormed(e)
  {
    var present := src.Some? && src.value != "";
    Episode(
      number,
      if present then src.value else NotFetched,
      subdub,
      if IsPlayable(src) then Success else Error,
      if present then map[CurrentQuality := src.value] else map[])
  }
}
