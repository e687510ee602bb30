/** The TV show service: the latest-shows list, enrichment of a show from TVMaze,
    the show details record, seasons, episodes and show search. The TVMaze lookups
    (`getTVShowByExternalId`, `getTVShowSeasons`, `getSeasonEpisodes`,
    `getEpisodeByNumber`, `searchTVShows`) turn every failure into `null` or `[]`;
    their answers are parameters here. */
module TvShowService {
  import opened Wrappers
  import opened Text
  import opened Js
  import opened Records
  import opened ImdbService
  import opened MovieService

  /** `getLatestTVShows(page)`: the same `tmdb_id` step as the movie list. */
  function GetLatestTVShows(fetched: Result<Option<seq<Item>>, string>): (r: seq<Item>)
    ensures fetched.Failure? || fetched.value.None? ==> r == []
    ensures fetched.Success? && fetched.value.Some? ==>
      |r| == |fetched.value.value|
      && forall i :: 0 <= i < |r| ==> r[i] == FillTmdbId(fetched.value.value[i])
  {
    GetLatestMovies(fetched)
  }

  /** `tvMazeShow.rating?.average || 'N/A'`: an average of 0 is falsy too. */
  function TvRating(average: Option<real>): (r: Rating)
    ensures r == Label("N/A") <==> average.None? || average.value == 0.0
    ensures r != Label("N/A") ==> r == Average(average.value)
  {
    if average.Some? && average.value != 0.0 then Average(average.value) else Label("N/A")
  }

  /** The poster both enrichment and details use: the TVMaze original image when
      present, else the IMDb poster of `imdbId`. */
  function ShowPoster(t: Show, imdbId: Option<string>): (p: Option<string>)
    ensures Truthy(OriginalOf(t.image)) ==> p == OriginalOf(t.image)
    ensures !Truthy(OriginalOf(t.image)) ==> p == GetImdbPoster(imdbId)
  {
    if Truthy(OriginalOf(t.image)) then OriginalOf(t.image) else GetImdbPoster(imdbId)
  }

  /** `enhanceTVShowData(show)` given what `getTVShowByExternalId(show.imdb_id)`
      answered (`None` for `null`). */
  function EnhanceTVShowData(show: Item, lookup: Option<Show>): (r: Item)
    ensures !Truthy(show.imdbId) || lookup.None? ==> r == show
    ensures Truthy(show.imdbId) && lookup.Some? ==>
      var t := lookup.value;
      && r.tvmazeId == Some(t.id)
      && r.description == Or(t.summary, show.description)
      && r.poster == Or(ShowPoster(t, show.imdbId), show.poster)
      && r.rating == Some(TvRating(t.average))
      && r.status == Some(OrElse(t.status, "Unknown"))
      && r.premiered == Some(OrElse(t.premiered, "Unknown"))
      && r.genres == Some(t.genres.GetOr([]))
    ensures r.(tvmazeId := show.tvmazeId, description := show.description, poster := show.poster,
               rating := show.rating, status := show.status, premiered := show.premiered,
               genres := show.genres) == show
  {
    if !Truthy(show.imdbId) then show
    else match lookup
      case None => show
      case Some(t) =>
        show.(
          tvmazeId := Some(t.id),
          description := Or(t.summary, show.description),
          poster := Or(ShowPoster(t, show.imdbId), show.poster),
          rating := Some(TvRating(t.average)),
          status := Some(OrElse(t.status, "Unknown")),
          premiered := Some(OrElse(t.premiered, "Unknown")),
          genres := Some(t.genres.GetOr([])))
  }

  /** An enriched show never keeps its old poster: it gets the TVMaze image or, for
      want of one, the OMDb poster of its id. */
  lemma EnhancedPosterNeverBase(show: Item, t: Show)
    requires Truthy(show.imdbId)
    ensures var r := EnhanceTVShowData(show, Some(t));
      r.poster == (if Truthy(OriginalOf(t.image)) then OriginalOf(t.image)
                   else Some(OmdbPoster(NormaliseImdbId(show.imdbId.value))))
  {
  }

  /** `getTVShowDetails(imdbId)` given the external-id lookup and the seasons of the
      show it found. */
  function GetTVShowDetails(imdbId: Option<string>, lookup: Option<Show>, seasons: seq<Season>): (r: Option<Item>)
    ensures r.None? <==> lookup.None?
    ensures r.Some? ==>
      var t := lookup.value;
      && r.value.id == Some(JNum(t.id)) && r.value.imdbId == imdbId
      && r.value.name == t.name && r.value.description == t.summary
      && r.value.poster == ShowPoster(t, imdbId)
      && r.value.rating == Some(TvRating(t.average))
      && r.value.status == Some(OrElse(t.status, "Unknown"))
      && r.value.premiered == Some(OrElse(t.premiered, "Unknown"))
      && r.value.genres == Some(t.genres.GetOr([]))
      && r.value.seasons == Some(seasons)
    ensures r.Some? ==>
      r.value.(id := None, imdbId := None, name := None, description := None, poster := None,
               rating := None, status := None, premiered := None, genres := None, seasons := None) == Blank
  {
    match lookup
    case None => None
    case Some(t) =>
      Some(Blank.(
        id := Some(JNum(t.id)),
        imdbId := imdbId,
        name := t.name,
        description := t.summary,
        poster := ShowPoster(t, imdbId),
        rating := Some(TvRating(t.average)),
        status := Some(OrElse(t.status, "Unknown")),
        premiered := Some(OrElse(t.premiered, "Unknown")),
        genres := Some(t.genres.GetOr([])),
        seasons := Some(seasons)))
  }

  /** Details and enrichment agree on every field they both set. */
  lemma DetailsAgreeWithEnrichment(show: Item, t: Show, seasons: seq<Season>)
    requires Truthy(show.imdbId)
    ensures var d := GetTVShowDetails(show.imdbId, Some(t), seasons).value;
      var e := EnhanceTVShowData(show, Some(t));
      && d.rating == e.rating && d.status == e.status
      && d.premiered == e.premiered && d.genres == e.genres
      && (Truthy(d.poster) ==> d.poster == e.poster)
  {
  }

  /** `getTVShowSeasons(imdbId)`. */
  function GetTVShowSeasons(lookup: Option<Show>, seasons: seq<Season>): (r: seq<Season>)
    ensures lookup.None? ==> r == []
    ensures lookup.Some? ==> r == seasons
  {
    if lookup.None? then [] else seasons
  }

  /** `seasons.find(s => s.number === n)`. */
  function FindSeason(seasons: seq<Season>, n: int): (r: Option<Season>)
    ensures r.None? <==> forall i :: 0 <= i < |seasons| ==> seasons[i].number != n
    ensures r.Some? ==> exists i :: 0 <= i < |seasons| && seasons[i] == r.value
                                    && r.value.number == n
                                    && forall j :: 0 <= j < i ==> seasons[j].number != n
  {
    if seasons == [] then None
    else if seasons[0].number == n then Some(seasons[0])
    else
      var r := FindSeason(seasons[1..], n);
      assert forall i :: 1 <= i < |seasons| ==> seasons[1..][i - 1] == seasons[i];
      r
  }

  /** `getSeasonEpisodes(imdbId, seasonNumber)`: the episodes of the first season
      whose number is `parseInt(seasonNumber)`; `episodesOf` answers
      `getSeasonEpisodes(season.id)` of TVMaze. */
  function GetSeasonEpisodes(lookup: Option<Show>, seasons: seq<Season>, seasonNumber: string,
                             episodesOf: int -> seq<Episode>): (r: seq<Episode>)
    ensures lookup.None? || ParseInt(seasonNumber).None? ==> r == []
    ensures lookup.Some? && ParseInt(seasonNumber).Some? ==>
      var found := FindSeason(seasons, ParseInt(seasonNumber).value);
      r == if found.None? then [] else episodesOf(found.value.id)
  {
    if lookup.None? then []
    else match ParseInt(seasonNumber)
      case None => []
      case Some(n) =>
        match FindSeason(seasons, n)
        case None => []
        case Some(s) => episodesOf(s.id)
  }

  /** Asked for season `n` (as the text `String(n)`), the service returns the
      episodes of the first season numbered `n`, and none when there is no such
      season. */
  lemma EpisodesOfFirstMatchingSeason(t: Show, seasons: seq<Season>, n: int,
                                      episodesOf: int -> seq<Episode>)
    ensures var r := GetSeasonEpisodes(Some(t), seasons, IntToString(n), episodesOf);
      && ((forall i :: 0 <= i < |seasons| ==> seasons[i].number != n) ==> r == [])
      && (forall i :: 0 <= i < |seasons| && seasons[i].number == n
                      && (forall j :: 0 <= j < i ==> seasons[j].number != n)
            ==> r == episodesOf(seasons[i].id))
  {
    ParseIntOfIntToString(n);
    var found := FindSeason(seasons, n);
    if found.Some? {
      var k :| 0 <= k < |seasons| && seasons[k] == found.value && found.value.number == n
               && forall j :: 0 <= j < k ==> seasons[j].number != n;
      forall i | 0 <= i < |seasons| && seasons[i].number == n
                 && (forall j :: 0 <= j < i ==> seasons[j].number != n)
        ensures i == k
      {
      }
    }
  }

  /** `getEpisode(imdbId, s, e)`: the TVMaze answer for that episode, once the show
      itself was found. */
  function GetEpisode(lookup: Option<Show>, episode: Option<Episode>): (r: Option<Episode>)
    ensures lookup.None? ==> r.None?
    ensures lookup.Some? ==> r == episode
  {
    if lookup.None? then None else episode
  }

  /** One search hit, reshaped. */
  function SearchHit(s: Show): (it: Item)
    ensures it.id == Some(JNum(s.id)) && it.title == s.name && it.description == s.summary
    ensures it.imdbId == (if Truthy(s.imdb) then s.imdb else None)
    ensures it.poster == (if Truthy(MediumOf(s.image)) then MediumOf(s.image) else None)
    ensures it.rating == Some(TvRating(s.average))
    ensures it.premiered == Some(OrElse(s.premiered, "Unknown")) && it.genres == Some(s.genres.GetOr([]))
    ensures it.(id := None, imdbId := None, title := None, description := None, poster := None,
                rating := None, premiered := None, genres := None) == Blank
  {
    Blank.(
      id := Some(JNum(s.id)),
      imdbId := if Truthy(s.imdb) then s.imdb else None,
      title := s.name,
      description := s.summary,
      poster := if Truthy(MediumOf(s.image)) then MediumOf(s.image) else None,
      rating := Some(TvRating(s.average)),
      premiered := Some(OrElse(s.premiered, "Unknown")),
      genres := Some(s.genres.GetOr([])))
  }

  /** `searchTVShows(query)` given the TVMaze search answer; a `None` entry is a hit
      without a `show`, on which the mapping throws. */
  function SearchTVShows(results: seq<Option<Show>>): (r: seq<Item>)
    ensures (exists i :: 0 <= i < |results| && results[i].None?) ==> r == []
    ensures (forall i :: 0 <= i < |results| ==> results[i].Some?) ==>
      |r| == |results| && forall i :: 0 <= i < |r| ==> r[i] == SearchHit(results[i].value)
  {
    if exists i :: 0 <= i < |results| && results[i].None? then []
    else seq(|results|, i requires 0 <= i < |results| => SearchHit(results[i].value))
  }
}
