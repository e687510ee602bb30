/** The TV show detail page: which base show the route id picks, which seasons it
    lists, which season it opens on, and the year and title of its header. */
module TvShowDetailPage {
  import opened Wrappers
  import opened Text
  import opened Js
  import opened Records
  import opened Helpers
  import TvShowService

  /** `tvShows.find(show => show.imdb_id === id)`: an absent `imdb_id` equals no
      string. */
  function FindByImdbId(shows: seq<Item>, id: string): (r: Option<Item>)
    ensures r.None? <==> forall i :: 0 <= i < |shows| ==> shows[i].imdbId != Some(id)
    ensures r.Some? ==> exists i :: 0 <= i < |shows| && shows[i] == r.value
                                    && shows[i].imdbId == Some(id)
                                    && forall j :: 0 <= j < i ==> shows[j].imdbId != Some(id)
  {
    if shows == [] then None
    else if shows[0].imdbId == Some(id) then Some(shows[0])
    else
      var r := FindByImdbId(shows[1..], id);
      assert forall i :: 1 <= i < |shows| ==> shows[1..][i - 1] == shows[i];
      r
  }

  /** `details.seasons || await getTVShowSeasons(id)`: a present array is truthy
      even when empty, so the fetched list is used only when the field is absent. */
  function SeasonsData(details: Item, fetched: seq<Season>): (r: seq<Season>)
    ensures details.seasons.Some? ==> r == details.seasons.value
    ensures details.seasons.None? ==> r == fetched
  {
    match details.seasons
    case Some(s) => s
    case None => fetched
  }

  /** `seasonsData.filter(season => season.number > 0)`: specials (season 0) go. */
  function VisibleSeasons(seasons: seq<Season>): (r: seq<Season>)
    ensures |r| <= |seasons|
    ensures forall i :: 0 <= i < |r| ==> r[i].number > 0 && r[i] in seasons
    ensures forall i :: 0 <= i < |seasons| && seasons[i].number > 0 ==> seasons[i] in r
  {
    if seasons == [] then []
    else
      var rest := VisibleSeasons(seasons[1..]);
      assert forall i :: 1 <= i < |seasons| ==> seasons[i] == seasons[1..][i - 1];
      if seasons[0].number > 0 then [seasons[0]] + rest else rest
  }

  /** The filter keeps the order: filtering a concatenation filters each part. */
  lemma {:induction false} VisibleSeasonsAppend(a: seq<Season>, b: seq<Season>)
    ensures VisibleSeasons(a + b) == VisibleSeasons(a) + VisibleSeasons(b)
  {
    if a == [] {
      assert a + b == b;
    } else {
      assert (a + b)[1..] == a[1..] + b;
      VisibleSeasonsAppend(a[1..], b);
    }
  }

  /** A list without specials passes the filter unchanged. */
  lemma {:induction false} VisibleSeasonsKeepsRegular(seasons: seq<Season>)
    requires forall i :: 0 <= i < |seasons| ==> seasons[i].number > 0
    ensures VisibleSeasons(seasons) == seasons
  {
    if seasons != [] {
      VisibleSeasonsKeepsRegular(seasons[1..]);
    }
  }

  /** `filteredSeasons.length > 0 ? filteredSeasons[0].number : 1`. */
  function DefaultSeason(filtered: seq<Season>): (n: int)
    ensures filtered != [] ==> n == filtered[0].number
    ensures filtered == [] ==> n == 1
  {
    if |filtered| > 0 then filtered[0].number else 1
  }

  /** The page always opens on a season numbered 1 or more. */
  lemma DefaultSeasonPositive(seasons: seq<Season>)
    ensures DefaultSeason(VisibleSeasons(seasons)) >= 1
  {
  }

  /** What `loadTVShowDetails` leaves behind: an error when the details lookup
      answered `null`, otherwise the listed seasons and the selected one. */
  function LoadTVShowDetails(details: Option<Item>, fetched: seq<Season>): (r: Result<(seq<Season>, int), string>)
    ensures details.None? <==> r == Failure("Could not find TV show details.")
    ensures details.Some? ==>
      var listed := VisibleSeasons(SeasonsData(details.value, fetched));
      r == Success((listed, DefaultSeason(listed)))
  {
    match details
    case None => Failure("Could not find TV show details.")
    case Some(d) =>
      var listed := VisibleSeasons(SeasonsData(d, fetched));
      Success((listed, DefaultSeason(listed)))
  }

  /** The year and title the header shows. */
  datatype Header = Header(year: string, title: string)

  /** The header for base show `tvShow` and TVMaze details `tvShowData`; `None` is
      the "TV Show not found" page shown when both are missing. The data shown is
      `tvShowData || tvShow`, while the title fallbacks always read the base show. */
  function ShowHeader(tvShow: Option<Item>, tvShowData: Option<Item>): (h: Option<Header>)
    ensures h.None? <==> tvShow.None? && tvShowData.None?
    ensures h.Some? ==>
      var shown := if tvShowData.Some? then tvShowData.value else tvShow.value;
      var baseTitle := if tvShow.Some? then OrElse(tvShow.value.title, "") else "";
      && (Truthy(shown.premiered) ==> h.value.year == Take(shown.premiered.value, 4))
      && (!Truthy(shown.premiered) ==> h.value.year == ExtractYearFromTitle(baseTitle))
      && (Truthy(shown.name) ==> h.value.title == shown.name.value)
      && (!Truthy(shown.name) ==> h.value.title == CleanTitleFromYear(baseTitle))
  {
    if tvShow.None? && tvShowData.None? then None
    else
      var shown := if tvShowData.Some? then tvShowData.value else tvShow.value;
      var baseTitle := if tvShow.Some? then OrElse(tvShow.value.title, "") else "";
      var year := if Truthy(shown.premiered) then Take(shown.premiered.value, 4)
                  else ExtractYearFromTitle(baseTitle);
      var title := if Truthy(shown.name) then shown.name.value else CleanTitleFromYear(baseTitle);
      Some(Header(year, title))
  }

  /** With TVMaze details present, the year is never read from the title: details
      always carry a `premiered`, `"Unknown"` when TVMaze has none, so the header
      then shows the year `"Unkn"`. */
  lemma DetailsYearIgnoresTitle(tvShow: Option<Item>, imdbId: Option<string>, t: Show,
                                  seasons: seq<Season>)
    ensures var d := TvShowService.GetTVShowDetails(imdbId, Some(t), seasons);
      var h := ShowHeader(tvShow, d);
      && h.Some?
      && (Truthy(t.premiered) ==> h.value.year == Take(t.premiered.value, 4))
      && (!Truthy(t.premiered) ==> h.value.year == "Unkn")
  {
  }

  /** Without details, the title shown is the base title with its year removed. */
  lemma BaseTitleLosesItsYear(tvShow: Item)
    requires !Truthy(tvShow.name)
    ensures var h := ShowHeader(Some(tvShow), None).value;
      h.title == CleanTitleFromYear(OrElse(tvShow.title, ""))
      && (!Truthy(tvShow.premiered) ==> h.year == ExtractYearFromTitle(OrElse(tvShow.title, "")))
  {
  }
}
