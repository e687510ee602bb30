/** The record shapes the services pass around: the app's item, the TVMaze show,
    season and episode objects, and the rating values that end up in an item. */
module Records {
  import opened Wrappers
  import opened Js

  /** A `rating` field. `Label` is a string such as `"N/A"` or `"7.5"`;
      `Average` is TVMaze's numeric `rating.average`; `FromRank(n)` is the string
      `Math.max(1, 10 - n / 1000).toFixed(1)` that `calculateRating` builds, left
      unevaluated (it is a non-empty string, hence truthy). */
  datatype Rating = Label(text: string) | Average(score: real) | FromRank(rank: int)

  predicate RatingTruthy(o: Option<Rating>) {
    match o
    case None => false
    case Some(Label(t)) => t != ""
    case Some(Average(x)) => x != 0.0
    case Some(FromRank(_)) => true
  }

  /** `a || b` on ratings. */
  function RatingOr(a: Option<Rating>, b: Option<Rating>): (r: Option<Rating>)
    ensures RatingTruthy(r) <==> RatingTruthy(a) || RatingTruthy(b)
  {
    if RatingTruthy(a) then a else b
  }

  /** TVMaze's `image` object. */
  datatype Image = Image(medium: Option<string>, original: Option<string>)

  function OriginalOf(img: Option<Image>): Option<string> {
    if img.Some? then img.value.original else None
  }

  function MediumOf(img: Option<Image>): Option<string> {
    if img.Some? then img.value.medium else None
  }

  /** A TVMaze season: its provider-local `id`, its `number` (0 for specials),
      `name` and `episodeOrder`. */
  datatype Season = Season(id: int, number: int, name: Option<string>, episodeOrder: Option<int>)

  /** A TVMaze episode. */
  datatype Episode = Episode(
    id: int, number: int, name: Option<string>, summary: Option<string>,
    image: Option<Image>, airdate: Option<string>)

  /** A TVMaze show. `average` stands for `rating?.average` and `imdb` for
      `externals?.imdb`: the code reads nothing else from those two objects. */
  datatype Show = Show(
    id: int, name: Option<string>, summary: Option<string>, image: Option<Image>,
    average: Option<real>, premiered: Option<string>, genres: Option<seq<string>>,
    status: Option<string>, imdb: Option<string>)

  /** The app's item: one record shape for movies and shows, every field optional.
      Field names follow the JavaScript keys: `imdbId` is `imdb_id`, `tmdbId` is
      `tmdb_id`, `tvmazeId` is `tvmaze_id`, `omdbImdbId` is OMDb's `imdbID` and
      `kind` is `type`. `id` holds a JSON scalar because TVMaze ids are numbers
      while search and synthetic ids are strings. */
  datatype Item = Item(
    id: Option<Json>,
    imdbId: Option<string>,
    tmdbId: Option<string>,
    omdbImdbId: Option<string>,
    tvmazeId: Option<int>,
    title: Option<string>,
    name: Option<string>,
    description: Option<string>,
    poster: Option<string>,
    trailer: Option<string>,
    rating: Option<Rating>,
    year: Option<string>,
    genres: Option<seq<string>>,
    runtime: Option<string>,
    quality: Option<string>,
    kind: Option<string>,
    tvSeriesInfo: Option<string>,
    status: Option<string>,
    premiered: Option<string>,
    seasons: Option<seq<Season>>)

  /** The object literal `{}`: every field absent. */
  const Blank: Item := Item(
    None, None, None, None, None, None, None, None, None, None,
    None, None, None, None, None, None, None, None, None, None)
}
