/** The episode player page: where the current episode sits in its season, the
    previous/next navigation that follows from it, the show name, and what the
    Watch Now button does with the selected server. `season` and `episodeNum`
    are the route parameters after `Number(...)`, taken to be integers. */
module EpisodePlayerPage {
  import opened Wrappers
  import opened Text
  import opened Js
  import opened Records
  import opened Api
  import EpisodeCard
  import TvShowDetailPage

  /** The base show: the first entry of the app's list whose `imdb_id` is the
      route id, the same lookup the detail page makes. */
  function BaseShow(tvShows: seq<Item>, id: string): (r: Option<Item>)
    ensures r.Some? ==> r.value in tvShows && r.value.imdbId == Some(id)
    ensures r.None? <==> forall i :: 0 <= i < |tvShows| ==> tvShows[i].imdbId != Some(id)
    ensures r.Some? ==> exists i :: 0 <= i < |tvShows| && tvShows[i] == r.value
                                    && forall j :: 0 <= j < i ==> tvShows[j].imdbId != Some(id)
  {
    TvShowDetailPage.FindByImdbId(tvShows, id)
  }

  /** What the page renders before the player itself. */
  datatype Screen = Failed(message: string) | Loading | Player

  /** The early returns of lines 57-67, in their order: the not-found check reads
      only the two show records, so it wins even while loading. */
  function PageScreen(tvShow: Option<Item>, details: Option<Item>, loading: bool,
                      episode: Option<Episode>): (s: Screen)
    ensures tvShow.None? && details.None? ==> s == Failed("TV Show not found")
    ensures (tvShow.Some? || details.Some?) && loading ==> s == Loading
    ensures s == Player <==> (tvShow.Some? || details.Some?) && !loading && episode.Some?
    ensures (tvShow.Some? || details.Some?) && !loading && episode.None? ==> s == Failed("Episode not found")
  {
    if tvShow.None? && details.None? then Failed("TV Show not found")
    else if loading then Loading
    else if episode.None? then Failed("Episode not found")
    else Player
  }

  /** `episodes.findIndex(ep => ep.number === episodeNum)`, as a reference
      definition. */
  function FirstIndex(eps: seq<Episode>, n: int): (k: int)
    ensures -1 <= k < |eps|
    ensures k == -1 <==> forall i :: 0 <= i < |eps| ==> eps[i].number != n
    ensures k >= 0 ==> eps[k].number == n && forall j :: 0 <= j < k ==> eps[j].number != n
  {
    if eps == [] then -1
    else if eps[0].number == n then 0
    else
      var k := FirstIndex(eps[1..], n);
      assert forall i :: 1 <= i < |eps| ==> eps[1..][i - 1] == eps[i];
      if k == -1 then -1 else k + 1
  }

  /** The scan `findIndex` performs. */
  method FindEpisodeIndex(eps: seq<Episode>, n: int) returns (k: int)
    ensures -1 <= k < |eps|
    ensures k == -1 <==> forall i :: 0 <= i < |eps| ==> eps[i].number != n
    ensures k >= 0 ==> eps[k].number == n && forall j :: 0 <= j < k ==> eps[j].number != n
    ensures k == FirstIndex(eps, n)
  {
    var i := 0;
    while i < |eps|
      invariant 0 <= i <= |eps|
      invariant forall j :: 0 <= j < i ==> eps[j].number != n
    {
      if eps[i].number == n {
        return i;
      }
      i := i + 1;
    }
    return -1;
  }

  /** The navigation state: both flags and the neighbouring episode numbers
      (`None` for `null`). */
  datatype Navigation = Navigation(isFirst: bool, isLast: bool, prev: Option<int>, next: Option<int>)

  /** Lines 99-104 for `currentEpisodeIndex == k`. Every index read lies inside
      `eps`: the precondition is what `findIndex` guarantees. */
  function Navigate(eps: seq<Episode>, k: int): (nav: Navigation)
    requires -1 <= k < |eps|
    ensures nav.isFirst <==> k <= 0
    ensures nav.isLast <==> k >= |eps| - 1
    ensures nav.prev.None? <==> nav.isFirst
    ensures nav.next.None? <==> nav.isLast
    ensures nav.prev.Some? ==> 0 <= k - 1 && nav.prev.value == eps[k - 1].number
    ensures nav.next.Some? ==> k + 1 < |eps| && nav.next.value == eps[k + 1].number
  {
    var isFirst := k <= 0;
    var isLast := k >= |eps| - 1;
    Navigation(isFirst, isLast,
               if isFirst then None else Some(eps[k - 1].number),
               if isLast then None else Some(eps[k + 1].number))
  }

  /** The navigation of the page showing episode `n`. */
  function NavigationFor(eps: seq<Episode>, n: int): (nav: Navigation)
    ensures nav == Navigate(eps, FirstIndex(eps, n))
  {
    Navigate(eps, FirstIndex(eps, n))
  }

  /** An empty season disables both buttons. */
  lemma EmptySeasonDisablesBoth(n: int)
    ensures var nav := NavigationFor([], n);
      nav.isFirst && nav.isLast && nav.prev.None? && nav.next.None?
  {
  }

  /** An episode missing from a non-empty season has no previous episode, and its
      next episode is the first of the season. */
  lemma MissingEpisodeStartsSeason(eps: seq<Episode>, n: int)
    requires |eps| > 0 && forall i :: 0 <= i < |eps| ==> eps[i].number != n
    ensures var nav := NavigationFor(eps, n);
      nav.isFirst && nav.prev.None? && !nav.isLast && nav.next == Some(eps[0].number)
  {
  }

  /** In a season whose episode numbers are distinct, going to the next episode
      and then back returns to the episode one started from, and vice versa. */
  lemma NextThenPrev(eps: seq<Episode>, k: nat)
    requires k + 1 < |eps|
    requires forall i, j :: 0 <= i < j < |eps| ==> eps[i].number != eps[j].number
    ensures NavigationFor(eps, eps[k].number).next == Some(eps[k + 1].number)
    ensures NavigationFor(eps, eps[k + 1].number).prev == Some(eps[k].number)
  {
    assert FirstIndex(eps, eps[k].number) == k;
    assert FirstIndex(eps, eps[k + 1].number) == k + 1;
  }

  /** The target of the previous/next button, when it is enabled. */
  function NavigationTargets(id: string, season: int, nav: Navigation): (t: (Option<string>, Option<string>))
    ensures t.0.Some? <==> nav.prev.Some?
    ensures t.1.Some? <==> nav.next.Some?
    ensures nav.prev.Some? ==> t.0 == Some(EpisodeCard.EpisodeRoute(id, season, nav.prev.value))
    ensures nav.next.Some? ==> t.1 == Some(EpisodeCard.EpisodeRoute(id, season, nav.next.value))
  {
    (if nav.prev.Some? then Some(EpisodeCard.EpisodeRoute(id, season, nav.prev.value)) else None,
     if nav.next.Some? then Some(EpisodeCard.EpisodeRoute(id, season, nav.next.value)) else None)
  }

  /** `tvShowDetails?.name || tvShow?.title || 'Unknown Show'`. */
  function ShowName(tvShow: Option<Item>, details: Option<Item>): (s: string)
    ensures details.Some? && Truthy(details.value.name) ==> s == details.value.name.value
    ensures !(details.Some? && Truthy(details.value.name)) && tvShow.Some? && Truthy(tvShow.value.title) ==>
      s == tvShow.value.title.value
    ensures !(details.Some? && Truthy(details.value.name)) && !(tvShow.Some? && Truthy(tvShow.value.title)) ==>
      s == "Unknown Show"
  {
    var name := if details.Some? then details.value.name else None;
    var title := if tvShow.Some? then tvShow.value.title else None;
    OrElse(Or(name, title), "Unknown Show")
  }

  /** What a click on Watch Now leads to. */
  datatype WatchAction = Open(url: string) | ShowError(message: string) | Nothing

  const TmdbRequired: string :=
    "The selected server requires a TMDB ID, which is not available for this TV Show."

  /** The tmdb id handed to the server: `tvShow?.tmdb_id || id`. */
  function TmdbFor(tvShow: Option<Item>, id: string): (t: Option<string>)
    ensures tvShow.Some? && Truthy(tvShow.value.tmdbId) ==> t == tvShow.value.tmdbId
    ensures !(tvShow.Some? && Truthy(tvShow.value.tmdbId)) ==> t == Some(id)
  {
    Or(if tvShow.Some? then tvShow.value.tmdbId else None, Some(id))
  }

  /** `handleWatchNow()` with server `selected` chosen: an unknown server id does
      nothing; a server without a URL reports that a TMDB id is needed. */
  function HandleWatchNow(selected: string, id: string, tvShow: Option<Item>,
                          season: int, episodeNum: int): (a: WatchAction)
    ensures a.Nothing? <==> FindServer(selected).None?
    ensures FindServer(selected).Some? ==>
      var url := TvUrl(FindServer(selected).value, Some(id), TmdbFor(tvShow, id),
                       IntToString(season), IntToString(episodeNum));
      && (url.None? ==> a == ShowError(TmdbRequired))
      && (url.Some? ==> a == Open(url.value))
  {
    match FindServer(selected)
    case None => Nothing
    case Some(server) =>
      match TvUrl(server, Some(id), TmdbFor(tvShow, id), IntToString(season), IntToString(episodeNum))
      case None => ShowError(TmdbRequired)
      case Some(url) => Open(url)
  }

  /** The error is shown only for VidLink, and only when both the base show's
      `tmdb_id` and the route id are empty: with a non-empty route id every server
      opens a URL. */
  lemma ErrorOnlyWithoutAnyId(selected: string, id: string, tvShow: Option<Item>,
                              season: int, episodeNum: int)
    ensures HandleWatchNow(selected, id, tvShow, season, episodeNum).ShowError? <==>
      && FindServer(selected) == Some(VidLink)
      && !(tvShow.Some? && Truthy(tvShow.value.tmdbId))
      && id == ""
  {
    if FindServer(selected).Some? {
      OnlyVidLinkFails(FindServer(selected).value, Some(id), TmdbFor(tvShow, id),
                       IntToString(season), IntToString(episodeNum));
    }
  }

  /** VidLink is given the base show's `tmdb_id` when it has one, and otherwise
      the IMDb id from the route. */
  lemma VidLinkUsesTmdbOrRouteId(id: string, tvShow: Option<Item>, season: int, episodeNum: int)
    requires id != ""
    ensures var t := if tvShow.Some? && Truthy(tvShow.value.tmdbId) then tvShow.value.tmdbId.value else id;
      HandleWatchNow("server2", id, tvShow, season, episodeNum)
        == Open(VidlinkBase + "/tv/" + t + "/" + IntToString(season) + "/" + IntToString(episodeNum))
  {
  }
}
