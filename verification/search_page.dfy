/** The search page: ids for results that have none, the category filter, the
    result count, the per-category cap and the item handed to each card. */
module SearchPage {
  import opened Wrappers
  import opened Text
  import opened Js
  import opened Records

  /** `!item.imdb_id && !item.id` is false. */
  predicate HasId(it: Item) {
    Truthy(it.imdbId) || OptJsonTruthy(it.id)
  }

  /** `${prefix}-${index}-${ts}`. */
  function SyntheticId(prefix: string, index: nat, ts: int): (s: string)
    ensures StartsWith(s, prefix + "-")
  {
    prefix + "-" + NatToString(index) + "-" + IntToString(ts)
  }

  /** The `map` over one result list; `ts` is the single `Date.now()` value the
      model gives every item. */
  function AssignIds(items: seq<Item>, prefix: string, ts: int): (r: seq<Item>)
    ensures |r| == |items|
    ensures forall i :: 0 <= i < |r| && HasId(items[i]) ==> r[i] == items[i]
    ensures forall i :: 0 <= i < |r| && !HasId(items[i]) ==>
      r[i] == items[i].(id := Some(JStr(SyntheticId(prefix, i, ts))))
  {
    seq(|items|, i requires 0 <= i < |items| =>
      if HasId(items[i]) then items[i] else items[i].(id := Some(JStr(SyntheticId(prefix, i, ts)))))
  }

  /** Two digit runs followed by `-` are equal when the whole texts are. */
  lemma DigitsBeforeDash(a: string, b: string, x: string, y: string)
    requires AllDigits(a) && AllDigits(b) && a + "-" + x == b + "-" + y
    ensures a == b
  {
    var u := a + "-" + x;
    assert u == b + "-" + y;
    assert u[|a|] == '-' && u[|b|] == '-';
    assert forall j :: 0 <= j < |a| ==> u[j] == a[j] && IsDigit(u[j]);
    assert forall j :: 0 <= j < |b| ==> u[j] == b[j] && IsDigit(u[j]);
    assert |a| == |b|;
    assert u[..|a|] == a && u[..|b|] == b;
  }

  /** With one timestamp, different positions get different ids. */
  lemma SyntheticIdsDistinct(prefix: string, i: nat, j: nat, ts: int)
    requires SyntheticId(prefix, i, ts) == SyntheticId(prefix, j, ts)
    ensures i == j
  {
    var p := prefix + "-";
    var t := IntToString(ts);
    var u := SyntheticId(prefix, i, ts);
    assert u == p + (NatToString(i) + "-" + t);
    assert SyntheticId(prefix, j, ts) == p + (NatToString(j) + "-" + t);
    assert NatToString(i) + "-" + t == u[|p|..] == NatToString(j) + "-" + t;
    DigitsBeforeDash(NatToString(i), NatToString(j), t, t);
    NatToStringInjective(i, j);
  }

  /** No two id-less items of one list end up with the same id. */
  lemma AssignedIdsDistinct(items: seq<Item>, prefix: string, ts: int, i: nat, j: nat)
    requires i < j < |items| && !HasId(items[i]) && !HasId(items[j])
    ensures AssignIds(items, prefix, ts)[i].id != AssignIds(items, prefix, ts)[j].id
  {
    if SyntheticId(prefix, i, ts) == SyntheticId(prefix, j, ts) {
      SyntheticIdsDistinct(prefix, i, j, ts);
    }
  }

  /** The lists the page holds after a search. */
  datatype Results = Results(movies: seq<Item>, tvShows: seq<Item>)

  /** The search effect for `query`: nothing happens for a query shorter than two
      characters (it is not trimmed); otherwise both lists get their ids. */
  function Search(query: string, previous: Results, moviesData: seq<Item>,
                  tvShowsData: seq<Item>, ts: int): (r: Results)
    ensures |query| < 2 ==> r == previous
    ensures |query| >= 2 ==>
      r.movies == AssignIds(moviesData, "movie", ts) && r.tvShows == AssignIds(tvShowsData, "tvshow", ts)
  {
    if query == "" || |query| < 2 then previous
    else Results(AssignIds(moviesData, "movie", ts), AssignIds(tvShowsData, "tvshow", ts))
  }

  const MaxResultsPerCategory: nat := 24

  /** The item handed to a card: `title || name || ''` and `quality || 'HD'`. */
  function CardItem(it: Item): (c: Item)
    ensures c.title == Some(OrElse(Or(it.title, it.name), ""))
    ensures c.quality == Some(OrElse(it.quality, "HD"))
    ensures c.(title := it.title, quality := it.quality) == it
  {
    it.(title := Some(OrElse(Or(it.title, it.name), "")), quality := Some(OrElse(it.quality, "HD")))
  }

  function CardItems(items: seq<Item>): (r: seq<Item>)
    ensures |r| == |items| && forall i :: 0 <= i < |r| ==> r[i] == CardItem(items[i])
  {
    seq(|items|, i requires 0 <= i < |items| => CardItem(items[i]))
  }

  /** What the page shows for `activeFilter`. */
  datatype View = View(movies: seq<Item>, tvShows: seq<Item>, totalResults: nat)

  predicate ShowsMovies(activeFilter: string) {
    activeFilter == "all" || activeFilter == "movies"
  }

  predicate ShowsTvShows(activeFilter: string) {
    activeFilter == "all" || activeFilter == "tvshows"
  }

  function Render(results: Results, activeFilter: string): (v: View)
    ensures var fm := if ShowsMovies(activeFilter) then results.movies else [];
      var ft := if ShowsTvShows(activeFilter) then results.tvShows else [];
      && v.totalResults == |fm| + |ft|
      && v.movies == CardItems(Take(fm, MaxResultsPerCategory))
      && v.tvShows == CardItems(Take(ft, MaxResultsPerCategory))
  {
    var fm := if ShowsMovies(activeFilter) then results.movies else [];
    var ft := if ShowsTvShows(activeFilter) then results.tvShows else [];
    View(CardItems(Take(fm, MaxResultsPerCategory)), CardItems(Take(ft, MaxResultsPerCategory)), |fm| + |ft|)
  }

  /** Each category shows at most 24 cards, the first ones of its list, and the
      count covers every visible result, shown or not. */
  lemma RenderBounds(results: Results, activeFilter: string)
    ensures var v := Render(results, activeFilter);
      && |v.movies| <= MaxResultsPerCategory && |v.tvShows| <= MaxResultsPerCategory
      && |v.movies| + |v.tvShows| <= v.totalResults
      && (ShowsMovies(activeFilter) ==> forall i :: 0 <= i < |v.movies| ==> v.movies[i] == CardItem(results.movies[i]))
      && (!ShowsMovies(activeFilter) ==> v.movies == [])
      && (!ShowsTvShows(activeFilter) ==> v.tvShows == [])
  {
  }

  /** The "all" count is the "movies" count plus the "tvshows" count. */
  lemma AllCountsBoth(results: Results)
    ensures Render(results, "all").totalResults
         == Render(results, "movies").totalResults + Render(results, "tvshows").totalResults
  {
  }
}
