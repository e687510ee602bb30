# Desmo, modelled in Dafny

Desmo is a React single-page application for browsing and streaming movies and
TV shows. This project models its data layer and the pure logic of its pages:

- **helpers** (`Helpers`): year extraction and removal, HTML tag stripping,
  runtime formatting, ISO-8601-style duration parsing, TVMaze show conversion and
  identifier recognition. Every regular expression is written out as a search
  over positions that follows JavaScript's leftmost-match rule.
- **the network layer** (`Api`): the three streaming servers' embed-URL builders
  and the fifteen-minute response cache of `fetchData`.
- **the IMDb service** (`ImdbService`): key normalisation of raw search records,
  the search mapping, the three-stage details lookup, and the poster, trailer and
  JustWatch stubs.
- **the movie and TV show services** (`MovieService`, `TvShowService`): the latest
  lists, enrichment, detail records, the movie search filter, season and episode
  selection, and show search.
- **the pages** (`SearchPage`, `EpisodePlayerPage`, `TvShowDetailPage`) and
  **components** (`ContentCard`, `EpisodeCard`, `SeasonSelector`): id synthesis,
  filtering and capping of search results, episode navigation, the Watch Now
  action, season filtering and sorting, and the title, year and label fallback
  chains of the cards.

JavaScript's semantics are modelled explicitly in three small modules:

- `Js` holds truthiness, `||`, `String(v)` and template interpolation.
- `Text` holds `parseInt`, `trim`, `toLowerCase` on ASCII, and `substring`/`slice`
  clamping.
- `Records` holds the record shapes.

Every network answer is a parameter of the function that consumes it:

- a `Response` holds a payload, an HTTP status or a rejection;
- an `Option` holds an answer where the service turns every failure into `null`;
- the clock is a parameter `now`.

Exceptions the code throws and then catches are modelled as the values the
catch produces.

## Model

| member | source | states |
|---|---|---|
| Helpers.ExtractYearFromTitle | src/utils/helpers.js:14-17 | empty for an empty title; empty exactly when no `\b(19\|20)\d{2}\b` token exists; otherwise the four characters at the leftmost such token |
| Helpers.CleanTitleFromYear | src/utils/helpers.js:20-23 | a title without a year is returned unchanged; otherwise the result is the title with the leftmost year token and all white space around it cut out, and that token is the extracted year |
| Helpers.CleanMatchIsYearSegment | src/utils/helpers.js:22 | the leftmost match of `\s*\b(19\|20)\d{2}\b\s*` is exactly the maximal white-space segment around the leftmost year token |
| Helpers.CleanTitleJoinsNeighbours | src/utils/helpers.js:22 | `"Movie 2020 Part"` becomes `"MoviePart"`: the neighbours of the year are joined with no space |
| Helpers.CleanTitleNotIdempotent | src/utils/helpers.js:22 | the replace is not global, so cleaning twice can remove more than cleaning once (`"1999 2000"` → `"2000"` → `""`) |
| Helpers.StripTags | src/utils/helpers.js:26-29 | the result is no longer than the input, keeps a text without `<` unchanged, and leaves no position where the tag pattern matches |
| Helpers.StripHtml | src/utils/helpers.js:26-29 | a missing or empty input gives `""`; otherwise the tag-free result of the global replace |
| Helpers.StripTagsIdempotent | src/utils/helpers.js:28 | stripping twice removes nothing more than stripping once |
| Helpers.FormatRuntime | src/utils/helpers.js:32-43 | `N/A` for a falsy runtime; `<m>m` under an hour; `<h>h <m>m` from an hour on, with the minutes part empty on a whole hour; a negative runtime gives only its floored hours, as `Math.floor` and a truncating `%` do |
| Helpers.FormatRuntimeRoundTrip | src/utils/helpers.js:32-43 | every positive runtime's label reads back as the same number of minutes, so distinct runtimes get distinct labels |
| Helpers.FormatRuntimeExamples | src/utils/helpers.js:32-43 | 138 → `2h 18m`, 45 → `45m`, 60 → `1h ` (trailing space), 0 and missing → `N/A` |
| Helpers.ParseDuration | src/utils/helpers.js:46-64 | `null` for a missing or empty input; otherwise 60·(digits before `H`) + (digits before `M`), and `null` when that is 0; the result is never 0 |
| Helpers.ParseDurationDesignators | src/utils/helpers.js:46-64 | `PT<h>H<m>M` parses to `60h+m` minutes, or `null` when that is 0 |
| Helpers.MonthReadAsMinutes | src/utils/helpers.js:58-61 | the first `(\d+)M` is taken as minutes even when it is a month designator: `P1M` gives 1 |
| Helpers.ConvertTVMazeShow | src/utils/helpers.js:75-90 | `null` in, `null` out; otherwise every field of the item as the mapping assigns it, including the `tvmaze-<id>` fallback id, stripped summary and `HD` quality; every field the object literal does not set is absent |
| Helpers.IdKindsDisjoint | src/utils/helpers.js:93-100 | no string is both an IMDb id and a TVMaze id |
| Helpers.ExtractIdUnwraps | src/utils/helpers.js:103-113 | `tvmaze-<digits>` unwraps to exactly its digits |
| Helpers.StripTagsFixpoint | src/utils/helpers.js:28 | a text where the tag pattern matches nowhere is left unchanged |
| Helpers.ExtractId | src/utils/helpers.js:103-113 | the id is changed exactly when it is `tvmaze-<digits>`, and then the digits are returned |
| Helpers.ConvertedIdUnwraps | src/utils/helpers.js:80 | a converted show without an IMDb id gets an id that `extractId` turns back into its TVMaze number |
| Text.ParseIntOfIntToString | src/services/tvShowService.js:165 | `parseInt(String(n))` is `n` for every integer `n` |
| Api.FindServer | src/services/api.js:46-109 | the server found for an id is the one carrying that id, and none for any other id |
| Api.MovieUrl | src/services/api.js:47-77 | VidSrc's URL uses the IMDb id; VidLink gives `null` exactly when the tmdb id is falsy; Embed.su uses `tmdbId \|\| imdbId` |
| Api.TvUrl | src/services/api.js:78-108 | the same three rules for episodes, with season and episode appended |
| Api.OnlyVidLinkFails | src/services/api.js:61-95 | only VidLink can return `null`, and it does so for an episode exactly when it does for a movie |
| Api.TvUrlEndsWithEpisode | src/services/api.js:78-108 | every episode URL is a show prefix independent of season and episode, followed by the season and then the episode |
| Api.VidSrcIgnoresTmdb | src/services/api.js:51-54 | VidSrc's movie URL does not depend on the tmdb id |
| Api.FetchData | src/services/api.js:13-43 | a fresh hit returns the cached data and leaves the cache as it was; a miss with an ok answer stores it under the url at `now`; a miss with an error leaves the cache and fails with `API error: <status>` or with the rejection's own message; no other key changes |
| Api.StoredPayloadServedUntilExpiry | src/services/api.js:10-36 | a payload stored at `t` is served, whatever the network says, until just before `t + 900000`, and not from then on |
| Api.HitIgnoresResponse | src/services/api.js:19-22 | on a hit the network answer plays no part |
| Api.OtherUrlsUnaffected | src/services/api.js:13-43 | fetching one url never changes what a call for another url returns |
| ImdbService.Put | src/services/imdbService.js:43-50 | one step of the key loop: only a `#` key is stored, under its lower-cased name, overwriting an earlier value |
| ImdbService.NormaliseKeysDomain | src/services/imdbService.js:43-50 | a name is in the normalised record exactly when some `#` key is renamed to it |
| ImdbService.NormaliseKeysLastWins | src/services/imdbService.js:43-50 | the value under a name is that of the last `#` key renamed to it |
| ImdbService.CalculateRating | src/services/imdbService.js:87-99 | `''` exactly when the rank is falsy or `parseInt` gives NaN; otherwise the rating derived from exactly the number `parseInt` reads |
| ImdbService.NumericRankRated | src/services/imdbService.js:87-99 | a non-zero numeric rank is always rated from that same number |
| ImdbService.NormaliseImdbId | src/services/imdbService.js:114 | the id gains a `tt` prefix unless it has one, and keeps its text after it |
| ImdbService.NormaliseImdbIdIdempotent | src/services/imdbService.js:114 | normalising twice is normalising once |
| ImdbService.OmdbPosterInjective | src/services/imdbService.js:59 | distinct ids give distinct OMDb poster URLs |
| ImdbService.SearchItem | src/services/imdbService.js:55-64 | each field of a search item: id, title, fixed description, OMDb poster, rating from rank, year, genres from actors, type `movie`; every field the object literal does not set is absent |
| ImdbService.SearchItemPosterFollowsId | src/services/imdbService.js:56-59 | the poster is empty exactly when the id is, and otherwise it is the OMDb URL of that id |
| ImdbService.MapSearchItems | src/services/imdbService.js:36-67 | one item per record in order, and a throw (`None`) exactly when some record is `null` |
| ImdbService.SearchImdb | src/services/imdbService.js:9-80 | `[]` for a short query, an error answer or a missing array; otherwise the mapped records; every result is typed `movie` |
| ImdbService.ShortQueryIgnoresResponse | src/services/imdbService.js:11-13 | a query whose trimmed length is below 2 is answered `[]` without a request |
| ImdbService.DetailsItem | src/services/imdbService.js:143-152 | the details record of a matching raw record, with its defaults `Unknown Title`, the franchise description, rating `7.5` and runtime `120 min`; the year is the record's `year` text or `''`, and the genres are `[actors]` or `['Action']`; every field the object literal does not set is absent |
| ImdbService.FallbackDetails | src/services/imdbService.js:205-214 | the fixed record for the normalised id: title `Fast and Furious Movie`, the franchise description, its OMDb poster, rating `7.5`, empty year, genres `Action` and `Racing`, runtime `120 min`; every other field is absent |
| ImdbService.ScanForStops | src/services/imdbService.js:129-154 | the scan returns the first matching record, throws at a `null` record met first, and finds nothing when it passes every record |
| ImdbService.GetImdbDetails | src/services/imdbService.js:106-219 | `null` exactly for a falsy id; otherwise the record the direct lookup finds, else the one the search lookup finds, else the fallback record; every answer carries the normalised id and its OMDb poster |
| ImdbService.DirectHitWins | src/services/imdbService.js:118-163 | when the direct lookup finds the id, the search answer plays no part |
| ImdbService.DetailsOfNormalisedId | src/services/imdbService.js:114 | an id and its `tt` form have the same details |
| ImdbService.GetImdbPoster | src/services/imdbService.js:226-242 | `null` exactly for a falsy id, else the OMDb URL of the normalised id |
| ImdbService.PosterAgreesWithDetails | src/services/imdbService.js:226-242 | the poster lookup and the details record name the same poster |
| ImdbService.GetImdbTrailer | src/services/imdbService.js:249-253 | always `null` |
| ImdbService.SearchJustWatch | src/services/imdbService.js:261-275 | always `[]` |
| MovieService.FillTmdbId | src/services/movieService.js:16-23 | a missing `tmdb_id` is filled from `imdb_id` when there is one; nothing else changes |
| MovieService.FillTmdbIdIdempotent | src/services/movieService.js:18-22 | filling twice is filling once |
| MovieService.GetLatestMovies | src/services/movieService.js:10-32 | `[]` on failure or without a `result` array; otherwise every item filled, in order |
| MovieService.LatestMoviesSettled | src/services/movieService.js:16-24 | after the step no item needs filling again |
| MovieService.EnhanceMovieWith | src/services/movieService.js:39-76 | without an id or details the movie comes back as it was; otherwise each merged field follows its fallback, and every other field is kept |
| MovieService.EnhanceMovieData | src/services/movieService.js:39-76 | with an id the poster is the OMDb poster, the trailer is `null`, genres are present and the runtime is truthy |
| MovieService.EnhancedYearFallsBackToTitle | src/services/movieService.js:68 | the year is the details' year, else the year in the movie's title, and the title is untouched |
| MovieService.MovieDetailsWith | src/services/movieService.js:83-115 | `null` for a falsy id or no details; otherwise the id, the title, description, rating, year, genres and runtime with their defaults, the fetched poster before the details' one, and the details' trailer; every field the object literal does not set is absent |
| MovieService.GetMovieDetails | src/services/movieService.js:83-115 | `null` exactly for a falsy id |
| MovieService.Classify | src/services/movieService.js:151-162 | an item is kept exactly when it is typed `movie`, or has neither a type nor series info, or has a `tt` string id and is not typed `tvshow`; the callback throws exactly when none of the first two holds and the id is a non-zero number |
| MovieService.FilterMovies | src/services/movieService.js:151-162 | `None` exactly when the callback throws on some item; otherwise exactly the kept items |
| MovieService.FilterMoviesSplits | src/services/movieService.js:151 | filtering keeps the order: the filter of a concatenation is the concatenation of the filters |
| MovieService.Standardise | src/services/movieService.js:169-178 | each standardised field with its default: id, title, description, poster, rating, year and genres, and quality `HD`; every field the object literal does not set is absent |
| MovieService.SearchMoviesWith | src/services/movieService.js:133-191 | `[]` for a short query, a non-array or a throwing filter callback; otherwise the standardised kept items in order; every result has quality `HD` |
| MovieService.SearchMovies | src/services/movieService.js:133-191 | the standardised form of every IMDb search result, one per result, in order |
| MovieService.KeepsEveryImdbResult | src/services/movieService.js:151-162 | results all typed `movie` pass the filter unchanged |
| TvShowService.GetLatestTVShows | src/services/tvShowService.js:11-33 | the same `tmdb_id` filling as the movie list |
| TvShowService.TvRating | src/services/tvShowService.js:70 | `N/A` exactly when the average is missing or 0 |
| TvShowService.EnhanceTVShowData | src/services/tvShowService.js:40-79 | without an id or a TVMaze show, the show is unchanged; otherwise each merged field, and every other field kept |
| TvShowService.EnhancedPosterNeverBase | src/services/tvShowService.js:57-69 | an enriched show's poster is the TVMaze original image, else the OMDb poster, never its old one |
| TvShowService.GetTVShowDetails | src/services/tvShowService.js:86-124 | `null` exactly when the lookup fails; otherwise the TVMaze id, the route id, name, summary, poster, rating, status, premiered, genres and seasons; every field the object literal does not set is absent |
| TvShowService.DetailsAgreeWithEnrichment | src/services/tvShowService.js:107-119 | details and enrichment agree on rating, status, premiered, genres and poster |
| TvShowService.FindSeason | src/services/tvShowService.js:165 | a season of the list carrying the number, and none exactly when no season has it (which one is fixed by `EpisodesOfFirstMatchingSeason`) |
| TvShowService.GetTVShowSeasons | src/services/tvShowService.js:131-146 | `[]` when the TVMaze lookup fails, else the seasons answer |
| TvShowService.GetSeasonEpisodes | src/services/tvShowService.js:154-177 | `[]` without a show or a parsable number; else the episodes of the first matching season |
| TvShowService.EpisodesOfFirstMatchingSeason | src/services/tvShowService.js:164-172 | asked for season `n`, the service returns the episodes of the first season numbered `n`, and `[]` when there is none |
| TvShowService.GetEpisode | src/services/tvShowService.js:186-205 | `null` without a show, else the episode answer |
| TvShowService.SearchHit | src/services/tvShowService.js:217-226 | the TVMaze id, the IMDb id when truthy, name as title, summary, medium image, rating, premiered and genres of a show search result; every field the object literal does not set is absent |
| TvShowService.SearchTVShows | src/services/tvShowService.js:212-231 | `[]` when some hit has no show (the mapping throws); otherwise one item per hit in order |
| SearchPage.AssignIds | src/components/search/SearchPage.jsx:44-58 | same length and order; items with an id are untouched; the others get `<prefix>-<index>-<ts>` |
| SearchPage.AssignedIdsDistinct | src/components/search/SearchPage.jsx:47-55 | with one timestamp, no two id-less items of one list get the same id |
| SearchPage.Search | src/components/search/SearchPage.jsx:25-64 | nothing happens for a query shorter than 2 characters; otherwise both lists get their ids |
| SearchPage.CardItem | src/components/search/SearchPage.jsx:170-174 | `title \|\| name \|\| ''` and `quality \|\| 'HD'`; every other field kept |
| SearchPage.Render | src/components/search/SearchPage.jsx:83-94 | the count is the sum of the visible list lengths, and each shown list is the card items of the first 24 of its visible list |
| SearchPage.RenderBounds | src/components/search/SearchPage.jsx:83-94 | at most 24 cards per category, the first ones of its list, no more than the count, and none for a hidden category |
| SearchPage.AllCountsBoth | src/components/search/SearchPage.jsx:83-89 | the `all` count is the `movies` count plus the `tvshows` count |
| EpisodePlayerPage.FindEpisodeIndex | src/components/tvshows/EpisodePlayerPage.jsx:96 | the first index whose episode has the number, or -1 when none has it |
| EpisodePlayerPage.FirstIndex | src/components/tvshows/EpisodePlayerPage.jsx:96 | the same characterisation, as a function |
| EpisodePlayerPage.Navigate | src/components/tvshows/EpisodePlayerPage.jsx:99-104 | `isFirst` iff the index is ≤ 0, `isLast` iff it is ≥ length-1, and prev and next are the neighbours' numbers, read only inside the list |
| EpisodePlayerPage.EmptySeasonDisablesBoth | src/components/tvshows/EpisodePlayerPage.jsx:99-104 | an empty season is both first and last |
| EpisodePlayerPage.MissingEpisodeStartsSeason | src/components/tvshows/EpisodePlayerPage.jsx:96-104 | an episode absent from a non-empty season has no previous one, and its next is the season's first |
| EpisodePlayerPage.NextThenPrev | src/components/tvshows/EpisodePlayerPage.jsx:96-104 | with distinct episode numbers, next then previous returns to the starting episode |
| EpisodePlayerPage.NavigationTargets | src/components/tvshows/EpisodePlayerPage.jsx:170-178 | an enabled button targets the episode route of its neighbour |
| EpisodePlayerPage.BaseShow | src/components/tvshows/EpisodePlayerPage.jsx:19 | the first show in the list whose `imdb_id` is the route id; none exactly when no show has it |
| EpisodePlayerPage.PageScreen | src/components/tvshows/EpisodePlayerPage.jsx:57-67 | not found without both show records, loading, episode not found, or the player, in that order |
| EpisodePlayerPage.ShowName | src/components/tvshows/EpisodePlayerPage.jsx:70 | the TVMaze name, else the base title, else `Unknown Show` |
| EpisodePlayerPage.HandleWatchNow | src/components/tvshows/EpisodePlayerPage.jsx:78-93 | an unknown server does nothing; a `null` URL shows the TMDB error and opens nothing; otherwise the server's URL opens |
| EpisodePlayerPage.ErrorOnlyWithoutAnyId | src/components/tvshows/EpisodePlayerPage.jsx:82-88 | the error appears exactly for VidLink with no base `tmdb_id` and an empty route id |
| EpisodePlayerPage.VidLinkUsesTmdbOrRouteId | src/components/tvshows/EpisodePlayerPage.jsx:82 | VidLink gets the base show's `tmdb_id` when truthy, else the route id |
| TvShowDetailPage.FindByImdbId | src/components/tvshows/TVShowDetailPage.jsx:21 | the first show whose `imdb_id` is the route id, or none |
| TvShowDetailPage.SeasonsData | src/components/tvshows/TVShowDetailPage.jsx:55 | the details' seasons when present (even if empty), else the fetched ones |
| TvShowDetailPage.VisibleSeasons | src/components/tvshows/TVShowDetailPage.jsx:58 | every kept season has number > 0 and comes from the input, and every such input season is kept |
| TvShowDetailPage.VisibleSeasonsAppend | src/components/tvshows/TVShowDetailPage.jsx:58 | the filter keeps the original order |
| TvShowDetailPage.VisibleSeasonsKeepsRegular | src/components/tvshows/TVShowDetailPage.jsx:58 | a list without specials passes unchanged |
| TvShowDetailPage.DefaultSeason | src/components/tvshows/TVShowDetailPage.jsx:62-64 | the first remaining season's number, else 1 |
| TvShowDetailPage.DefaultSeasonPositive | src/components/tvshows/TVShowDetailPage.jsx:58-64 | the page always opens on a season numbered 1 or more |
| TvShowDetailPage.LoadTVShowDetails | src/components/tvshows/TVShowDetailPage.jsx:44-66 | an error exactly when there are no details; otherwise the filtered seasons and the default season |
| TvShowDetailPage.ShowHeader | src/components/tvshows/TVShowDetailPage.jsx:91-108 | not found without both records; year from `premiered` or the base title; title from `name` or the cleaned base title |
| TvShowDetailPage.DetailsYearIgnoresTitle | src/components/tvshows/TVShowDetailPage.jsx:103-105 | with TVMaze details the year never comes from the title, and is `Unkn` when TVMaze has no date |
| TvShowDetailPage.BaseTitleLosesItsYear | src/components/tvshows/TVShowDetailPage.jsx:103-108 | without details, the title is the base title with its year removed |
| ContentCard.CardId | src/components/shared/ContentCard.jsx:32 | `imdb_id \|\| id \|\| imdbID \|\| ''`, truthy exactly when one of the three is |
| ContentCard.CardTitle | src/components/shared/ContentCard.jsx:46 | `title \|\| name \|\| ''` |
| ContentCard.CardYear | src/components/shared/ContentCard.jsx:52 | the `year` field, else the first four characters of `premiered`, else the title's year |
| ContentCard.RoutePath | src/components/shared/ContentCard.jsx:58 | `/movie/` exactly for type `movie`, else `/tvshow/` |
| ContentCard.TypeLabel | src/components/shared/ContentCard.jsx:61 | `Movie` exactly for type `movie`, else `TV Show` |
| ContentCard.Render | src/components/shared/ContentCard.jsx:17-133 | nothing for a missing item; the link is the type's route followed by the content id; the year; the title cleaned exactly when the year is non-empty; the type badge exactly when `showTypeBadge` is set |
| ContentCard.TitleWithoutYearFields | src/components/shared/ContentCard.jsx:52-55 | without `year` and `premiered` the shown title is always the cleaned title |
| ContentCard.YearMovesOutOfTitle | src/components/shared/ContentCard.jsx:52-55 | a year taken from the title is exactly the token cut out of the shown title |
| ContentCard.UnknownPremieredYear | src/components/shared/ContentCard.jsx:52 | `premiered: "Unknown"` shows the year `Unkn` |
| ContentCard.YearFieldWins | src/components/shared/ContentCard.jsx:52-55 | a `year` field wins over `premiered` and the title |
| ContentCard.ContentId | src/components/shared/ContentCard.jsx:32-43 | the item's identifier when it has one, else `temp-` followed by the random digits |
| ContentCard.LinkFollowsIdentifier | src/components/shared/ContentCard.jsx:32-83 | every card links under its type's route: to the IMDb id when there is one, else to a temporary id that is never an IMDb id, so the `#` fallback is never taken |
| EpisodeCard.EpisodeRoute | src/components/tvshows/EpisodeCard.jsx:10 | the route starts with `/tvshow/<id>/season/` |
| EpisodeCard.EpisodeRouteInjective | src/components/tvshows/EpisodeCard.jsx:10 | two episodes of one show never share a Watch route |
| EpisodeCard.Heading | src/components/tvshows/EpisodeCard.jsx:34 | the name, else `Episode <number>` |
| EpisodeCard.SummaryText | src/components/tvshows/EpisodeCard.jsx:44-50 | a missing summary is replaced; up to 150 characters it is shown as is; beyond, its first 150 plus `...`, 153 in all |
| EpisodeCard.SummaryKeepsOpening | src/components/tvshows/EpisodeCard.jsx:45-48 | what is shown begins with the summary's first 150 characters |
| EpisodeCard.SummaryTextIdempotent | src/components/tvshows/EpisodeCard.jsx:45-48 | cutting a shown summary again changes nothing |
| EpisodeCard.ImageStyle | src/components/tvshows/EpisodeCard.jsx:54-63 | no image without an `image` object; else `url(medium \|\| original)` |
| SeasonSelector.SortSeasonsSorted | src/components/tvshows/SeasonSelector.jsx:5 | the rendered seasons ascend by number |
| SeasonSelector.SortSeasonsPermutes | src/components/tvshows/SeasonSelector.jsx:5 | the rendered seasons are the given ones, each as often |
| SeasonSelector.SortSeasonsStable | src/components/tvshows/SeasonSelector.jsx:5 | seasons with equal numbers keep their order |
| SeasonSelector.NamePart | src/components/tvshows/SeasonSelector.jsx:17 | `- <name>` exactly when the name is truthy and differs from `Season <number>` |
| SeasonSelector.EpisodesPart | src/components/tvshows/SeasonSelector.jsx:18 | ` (<k> episodes)` for a non-zero count, nothing when it is missing, the text `0` for 0 |
| SeasonSelector.OptionLabel | src/components/tvshows/SeasonSelector.jsx:17-18 | every label starts with `Season <number> ` |
| SeasonSelector.DefaultNameAddsNothing | src/components/tvshows/SeasonSelector.jsx:17 | a name that repeats the number adds nothing |
| SeasonSelector.ZeroEpisodesRendersZero | src/components/tvshows/SeasonSelector.jsx:18 | an `episodeOrder` of 0 ends the label with a stray `0` |

## Left out

- `generatePlaceholderColor` (helpers.js), `formatDate` and `formatAirDate`: these are cosmetic or depend on the locale's date formatting.
- `calculateRating`'s `Math.max(1, 10 - rank/1000).toFixed(1)`: this is floating point. The rating stays the unevaluated `FromRank(rank)`, which is a truthy string in the source.
- `formattedRating` in the content card: this is floating point.
- ContentCard's `Math.random` temp id: the random digits are a parameter `random`. The write of `item.temp_id` back into the item is not modelled.
- `Date.now()`:
  - for the cache it is the parameter `now`. The source reads the clock twice, once for the freshness test and once after the fetch for the stored timestamp; the model uses the one `now` for both, so an entry is stored as if the fetch took no time;
  - for the synthetic search ids it is a single `ts` shared by every item of a search.
- `async`/`Promise` ordering, `Promise.all`, the search debounce and stale-response races: these are concurrency and timing.
- Each page's sequence of React state updates: only the values the pages compute are modelled.
- `tvMazeService.js` and the `fetch` of the IMDb requests are not part of this model. Their answers are parameters: `Response`, `Option<Show>`, sequences of seasons and episodes.
- `fetchData`'s `options`: they take no part in the cache key.
- `encodeURIComponent` and the request URLs: the model receives the answers directly.
- `Number(...)` on route parameters: it is taken to give an integer. `NaN` and fractional season or episode numbers are not modelled.
- JSON values are scalars (`null`, string, integer). Nested objects are read only through named fields.
- `null` elements of the latest-movies or latest-shows `result` array: the model's list holds only records. In the source, reading `tmdb_id` of a `null` element throws inside the `try`, and the whole list becomes `[]`.
- A `null` episode `number`, which TVMaze gives to specials: `Episode.number` is an integer. The source would then render `Episode null` and the route `.../episode/null`, and `findIndex` would match no number.
- Non-object elements of a description array: only `null` is modelled, and it throws. Numbers of 10^21 or more are not modelled, where `String(n)` switches to exponent form.
- `toLowerCase` and `trim` cover ASCII letters and the JavaScript white-space set. There is no other Unicode case mapping.
- String lengths are counted in characters, not UTF-16 code units. This matters for the 150-character summary cut.
- MovieDetailPage: its logic repeats the content card's fallbacks and the URL builders modelled here.
- ImdbService.NormaliseKeys: it has no ensures of its own. Its contract is stated per key by `NormaliseKeysDomain` and `NormaliseKeysLastWins`.
- ImdbService.ScanFor: its ensures only fixes the id and poster of a found record. Where the scan stops is stated by `ScanForStops`.
- Behaviours of the code worth noting, which the model keeps:
  - `formatRuntime(60)` is `"1h "` with a trailing space, and `formatRuntime(0)` is `"N/A"`;
  - `cleanTitleFromYear` is not idempotent: a second year survives one pass;
  - a month designator (`P1M`) is read as minutes.
