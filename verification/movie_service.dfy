/** The movie service: the latest-movies list, enrichment of a movie with its IMDb
    details, the movie details page record, and movie search on top of the IMDb
    search. Answers of the network layer are parameters. */
module MovieService {
  import opened Wrappers
  import opened Text
  import opened Js
  import opened Records
  import opened Api
  import opened Helpers
  import opened ImdbService

  // ----- getLatestMovies -------------------------------------------------------

  /** The per-item step of `getLatestMovies`: a missing or empty `tmdb_id` is filled
      in with the `imdb_id`, when there is one. */
  function FillTmdbId(m: Item): (r: Item)
    ensures Truthy(r.tmdbId) <==> Truthy(m.tmdbId) || Truthy(m.imdbId)
    ensures Truthy(m.tmdbId) || !Truthy(m.imdbId) ==> r == m
    ensures !Truthy(m.tmdbId) && Truthy(m.imdbId) ==> r.tmdbId == m.imdbId
    ensures r.(tmdbId := m.tmdbId) == m
  {
    if !Truthy(m.tmdbId) && Truthy(m.imdbId) then m.(tmdbId := m.imdbId) else m
  }

  lemma FillTmdbIdIdempotent(m: Item)
    ensures FillTmdbId(FillTmdbId(m)) == FillTmdbId(m)
  {
  }

  /** `getLatestMovies(page)` given what `fetchData` settled with; `None` is a body
      whose `result` is missing or not an array. */
  function GetLatestMovies(fetched: Result<Option<seq<Item>>, string>): (r: seq<Item>)
    ensures fetched.Failure? || fetched.value.None? ==> r == []
    ensures fetched.Success? && fetched.value.Some? ==>
      |r| == |fetched.value.value|
      && forall i :: 0 <= i < |r| ==> r[i] == FillTmdbId(fetched.value.value[i])
  {
    match fetched
    case Success(Some(list)) => seq(|list|, i requires 0 <= i < |list| => FillTmdbId(list[i]))
    case _ => []
  }

  /** After the step every item with an `imdb_id` has a `tmdb_id`, so running the
      step again changes nothing. */
  lemma LatestMoviesSettled(fetched: Result<Option<seq<Item>>, string>)
    ensures var r := GetLatestMovies(fetched);
      && (forall i :: 0 <= i < |r| && Truthy(r[i].imdbId) ==> Truthy(r[i].tmdbId))
      && GetLatestMovies(Success(Some(r))) == r
  {
    var r := GetLatestMovies(fetched);
    forall i | 0 <= i < |r|
      ensures FillTmdbId(r[i]) == r[i]
    {
      FillTmdbIdIdempotent(fetched.value.value[i]);
    }
  }

  // ----- enhanceMovieData --------------------------------------------------------

  /** `extractYearFromTitle(title)` of the service, which returns `''` for a missing
      title and otherwise behaves as the helper of the same name. */
  function YearOfTitle(title: Option<string>): (y: string)
    ensures !Truthy(title) ==> y == ""
    ensures Truthy(title) ==> y == ExtractYearFromTitle(title.value)
  {
    ExtractYearFromTitle(title.GetOr(""))
  }

  /** The merged record of `enhanceMovieData`, given the IMDb details, poster and
      trailer answers. */
  function EnhanceMovieWith(movie: Item, details: Option<Item>, posterUrl: Option<string>,
                            trailerUrl: Option<string>): (r: Item)
    ensures !Truthy(movie.imdbId) || details.None? ==> r == movie
    ensures Truthy(movie.imdbId) && details.Some? ==>
      && r.description == Or(details.value.description, movie.description)
      && r.poster == Or(posterUrl, movie.poster)
      && r.trailer == trailerUrl
      && r.rating == RatingOr(details.value.rating, movie.rating)
      && r.year == Some(OrElse(details.value.year, YearOfTitle(movie.title)))
      && r.genres == Some(details.value.genres.GetOr([]))
      && r.runtime == Some(OrElse(details.value.runtime, "N/A"))
    ensures r.(description := movie.description, poster := movie.poster, trailer := movie.trailer,
               rating := movie.rating, year := movie.year, genres := movie.genres,
               runtime := movie.runtime) == movie
  {
    if !Truthy(movie.imdbId) then movie
    else match details
      case None => movie
      case Some(d) =>
        movie.(
          description := Or(d.description, movie.description),
          poster := Or(posterUrl, movie.poster),
          trailer := trailerUrl,
          rating := RatingOr(d.rating, movie.rating),
          year := Some(OrElse(d.year, YearOfTitle(movie.title))),
          genres := Some(d.genres.GetOr([])),
          runtime := Some(OrElse(d.runtime, "N/A")))
  }

  /** `enhanceMovieData(movie)`, with the IMDb lookups resolved from the answers to
      the `tt=` and `q=` requests. */
  function EnhanceMovieData(movie: Item, direct: Response<SearchPayload>,
                            search: Response<SearchPayload>): (r: Item)
    ensures !Truthy(movie.imdbId) ==> r == movie
    ensures Truthy(movie.imdbId) ==> r.poster == Some(OmdbPoster(NormaliseImdbId(movie.imdbId.value)))
    ensures Truthy(movie.imdbId) ==> r.trailer.None? && r.genres.Some? && Truthy(r.runtime)
  {
    EnhanceMovieWith(movie, GetImdbDetails(movie.imdbId, direct, search),
                     GetImdbPoster(movie.imdbId), GetImdbTrailer(movie.imdbId))
  }

  /** With an id, the year is the details' year, or failing that the year in the
      movie's own title; the title itself is never changed. */
  lemma EnhancedYearFallsBackToTitle(movie: Item, direct: Response<SearchPayload>,
                                     search: Response<SearchPayload>)
    requires Truthy(movie.imdbId)
    ensures var d := GetImdbDetails(movie.imdbId, direct, search).value;
      var r := EnhanceMovieData(movie, direct, search);
      && r.title == movie.title
      && (Truthy(d.year) ==> r.year == d.year)
      && (!Truthy(d.year) ==> r.year == Some(YearOfTitle(movie.title)))
  {
  }

  // ----- getMovieDetails ---------------------------------------------------------

  /** The record `getMovieDetails` returns, given the details and poster answers. */
  function MovieDetailsWith(imdbId: Option<string>, details: Option<Item>,
                            posterUrl: Option<string>): (r: Option<Item>)
    ensures r.None? <==> !Truthy(imdbId) || details.None?
    ensures r.Some? ==>
      && r.value.imdbId == imdbId
      && r.value.title == Some(OrElse(details.value.title, "Unknown Title"))
      && r.value.description == Some(OrElse(details.value.description, "No description available"))
      && r.value.poster == Or(posterUrl, details.value.poster)
      && r.value.rating == RatingOr(details.value.rating, Some(Label("N/A")))
      && r.value.year == Some(OrElse(details.value.year, ""))
      && r.value.genres == Some(details.value.genres.GetOr(["Action"]))
      && r.value.runtime == Some(OrElse(details.value.runtime, "N/A"))
      && r.value.trailer == details.value.trailer
    ensures r.Some? ==>
      r.value.(imdbId := None, title := None, description := None, poster := None, trailer := None,
               rating := None, year := None, genres := None, runtime := None) == Blank
  {
    if !Truthy(imdbId) then None
    else match details
      case None => None
      case Some(d) =>
        Some(Blank.(
          imdbId := imdbId,
          title := Some(OrElse(d.title, "Unknown Title")),
          description := Some(OrElse(d.description, "No description available")),
          poster := Or(posterUrl, d.poster),
          trailer := d.trailer,
          rating := RatingOr(d.rating, Some(Label("N/A"))),
          year := Some(OrElse(d.year, "")),
          genres := Some(d.genres.GetOr(["Action"])),
          runtime := Some(OrElse(d.runtime, "N/A"))))
  }

  /** `getMovieDetails(imdbId)` with the IMDb answers as parameters. */
  function GetMovieDetails(imdbId: Option<string>, direct: Response<SearchPayload>,
                           search: Response<SearchPayload>): (r: Option<Item>)
    ensures r.None? <==> !Truthy(imdbId)
    ensures r.Some? ==>
      && r.value.imdbId == imdbId
      && Truthy(r.value.title) && Truthy(r.value.description) && RatingTruthy(r.value.rating)
      && r.value.poster == Some(OmdbPoster(NormaliseImdbId(imdbId.value)))
  {
    MovieDetailsWith(imdbId, GetImdbDetails(imdbId, direct, search), GetImdbPoster(imdbId))
  }

  // ----- searchMovies ----------------------------------------------------------

  /** The filter callback of `searchMovies`: `Some(keep)`, or `None` when it throws
      because `item.id.startsWith` is called on a number. */
  function Classify(item: Item): (c: Option<bool>)
    ensures item.kind == Some("movie") ==> c == Some(true)
    ensures item.kind == Some("tvshow") ==> c != Some(true)
    ensures c.None? ==> item.id.Some? && item.id.value.JNum? && item.id.value.num != 0
    ensures c == Some(true) <==>
      || item.kind == Some("movie")
      || (!Truthy(item.kind) && !Truthy(item.tvSeriesInfo))
      || (OptJsonTruthy(item.id) && item.id.value.JStr? && StartsWith(item.id.value.str, "tt")
          && item.kind != Some("tvshow"))
    ensures c.None? <==>
      && !(item.kind == Some("movie") || (!Truthy(item.kind) && !Truthy(item.tvSeriesInfo)))
      && OptJsonTruthy(item.id) && item.id.value.JNum?
  {
    if item.kind == Some("movie") || (!Truthy(item.kind) && !Truthy(item.tvSeriesInfo)) then Some(true)
    else if !OptJsonTruthy(item.id) then Some(false)
    else match item.id.value
      case JStr(s) => Some(StartsWith(s, "tt") && (!Truthy(item.kind) || item.kind != Some("tvshow")))
      case _ => None
  }

  /** `results.filter(...)`, or `None` when the callback throws on some item. */
  function FilterMovies(items: seq<Item>): (r: Option<seq<Item>>)
    ensures r.None? <==> exists i :: 0 <= i < |items| && Classify(items[i]).None?
    ensures r.Some? ==> |r.value| <= |items|
    ensures r.Some? ==> forall x :: x in r.value <==> x in items && Classify(x) == Some(true)
  {
    if items == [] then Some([])
    else
      var rest := FilterMovies(items[1..]);
      assert forall i :: 1 <= i < |items| ==> items[1..][i - 1] == items[i];
      match Classify(items[0])
      case None => None
      case Some(keep) =>
        match rest
        case None => None
        case Some(tail) => Some(if keep then [items[0]] + tail else tail)
  }

  /** One step of the filter: the head is kept in front of the filtered tail. */
  lemma FilterMoviesCons(s: seq<Item>)
    requires s != [] && Classify(s[0]).Some? && FilterMovies(s[1..]).Some?
    ensures FilterMovies(s) == Some((if Classify(s[0]).value then [s[0]] else []) + FilterMovies(s[1..]).value)
  {
    assert [] + FilterMovies(s[1..]).value == FilterMovies(s[1..]).value;
  }

  /** A filter that does not throw did not throw on the head or on the tail. */
  lemma FilterMoviesUncons(s: seq<Item>)
    requires s != [] && FilterMovies(s).Some?
    ensures Classify(s[0]).Some? && FilterMovies(s[1..]).Some?
  {
  }

  lemma ConcatAssoc(h: seq<Item>, x: seq<Item>, y: seq<Item>)
    ensures h + (x + y) == (h + x) + y
  {
  }

  /** `FilterMoviesCons` for a list whose head comes from its first part. */
  lemma FilterMoviesConsAppend(a: seq<Item>, b: seq<Item>)
    requires a != [] && Classify(a[0]).Some? && FilterMovies(a[1..] + b).Some?
    ensures FilterMovies(a + b) ==
      Some((if Classify(a[0]).value then [a[0]] else []) + FilterMovies(a[1..] + b).value)
  {
    var ab := a + b;
    assert ab[1..] == a[1..] + b;
    FilterMoviesCons(ab);
  }

  /** The filter keeps the survivors in their order: filtering a concatenation is
      filtering each part. */
  lemma {:induction false} FilterMoviesSplits(a: seq<Item>, b: seq<Item>)
    requires FilterMovies(a).Some? && FilterMovies(b).Some?
    ensures FilterMovies(a + b) == Some(FilterMovies(a).value + FilterMovies(b).value)
  {
    if a == [] {
      assert a + b == b;
      assert FilterMovies(a) == Some([]);
      assert [] + FilterMovies(b).value == FilterMovies(b).value;
    } else {
      FilterMoviesUncons(a);
      FilterMoviesSplits(a[1..], b);
      FilterMoviesConsAppend(a, b);
      FilterMoviesCons(a);
      var h := if Classify(a[0]).value then [a[0]] else [];
      ConcatAssoc(h, FilterMovies(a[1..]).value, FilterMovies(b).value);
    }
  }

  /** The standardised search record. */
  function Standardise(m: Item): (s: Item)
    ensures s.imdbId == Some(if OptJsonTruthy(m.id) then JsonText(m.id.value) else "")
    ensures s.quality == Some("HD")
    ensures s.genres == Some(m.genres.GetOr(["Action"]))
    ensures s.description == Some(OrElse(m.description, "No description available"))
    ensures s.title == Some(OrElse(m.title, "")) && s.poster == Some(OrElse(m.poster, ""))
    ensures s.year == Some(OrElse(m.year, ""))
    ensures RatingTruthy(m.rating) ==> s.rating == m.rating
    ensures !RatingTruthy(m.rating) ==> s.rating == Some(Label(""))
    ensures s.(imdbId := None, title := None, description := None, poster := None, rating := None,
               year := None, genres := None, quality := None) == Blank
  {
    Blank.(
      imdbId := Some(if OptJsonTruthy(m.id) then JsonText(m.id.value) else ""),
      title := Some(OrElse(m.title, "")),
      description := Some(OrElse(m.description, "No description available")),
      poster := Some(OrElse(m.poster, "")),
      rating := RatingOr(m.rating, Some(Label(""))),
      year := Some(OrElse(m.year, "")),
      genres := Some(m.genres.GetOr(["Action"])),
      quality := Some("HD"))
  }

  /** `searchMovies(query)` given what `searchIMDB` resolved to; `None` is a value
      that is not an array. */
  function SearchMoviesWith(query: Option<string>, results: Option<seq<Item>>): (r: seq<Item>)
    ensures ShortQuery(query) || results.None? ==> r == []
    ensures results.Some? ==> |r| <= |results.value|
    ensures forall i :: 0 <= i < |r| ==> r[i].quality == Some("HD")
    ensures !ShortQuery(query) && results.Some? && FilterMovies(results.value).Some? ==>
      var kept := FilterMovies(results.value).value;
      |r| == |kept| && forall i :: 0 <= i < |r| ==> r[i] == Standardise(kept[i])
    ensures !ShortQuery(query) && results.Some? && FilterMovies(results.value).None? ==> r == []
  {
    if ShortQuery(query) then []
    else match results
      case None => []
      case Some(items) =>
        match FilterMovies(items)
        case None => []
        case Some(kept) => StandardiseAll(kept)
  }

  /** `movieResults.map(...)`. */
  function StandardiseAll(kept: seq<Item>): (r: seq<Item>)
    ensures |r| == |kept|
    ensures forall i :: 0 <= i < |r| ==> r[i] == Standardise(kept[i])
  {
    seq(|kept|, i requires 0 <= i < |kept| => Standardise(kept[i]))
  }

  /** `searchMovies(query)` on top of the IMDb search. */
  function SearchMovies(query: Option<string>, response: Response<SearchPayload>): (r: seq<Item>)
    ensures |r| == |SearchImdb(query, response)|
    ensures r == StandardiseAll(SearchImdb(query, response))
  {
    var found := SearchImdb(query, response);
    KeepsEveryImdbResult(found);
    SearchMoviesWith(query, Some(found))
  }

  /** Every IMDb search result is typed `movie`, so the filter keeps all of them and
      never throws. */
  lemma {:induction false} KeepsEveryImdbResult(found: seq<Item>)
    requires forall i :: 0 <= i < |found| ==> found[i].kind == Some("movie")
    ensures FilterMovies(found) == Some(found)
  {
    if found != [] {
      KeepsEveryImdbResult(found[1..]);
      assert [found[0]] + found[1..] == found;
    }
  }
}
