/** The card shown for a movie or a TV show in every list: its identifier and
    link, its title with the year taken out, its year, and its type label. */
module ContentCard {
  import opened Wrappers
  import opened Text
  import opened Js
  import opened Records
  import opened Helpers

  /** `item.imdb_id || item.id || item.imdbID || ''`. */
  function CardId(it: Item): (id: Json)
    ensures Truthy(it.imdbId) ==> id == JStr(it.imdbId.value)
    ensures !Truthy(it.imdbId) && OptJsonTruthy(it.id) ==> id == it.id.value
    ensures !Truthy(it.imdbId) && !OptJsonTruthy(it.id) ==> id == JStr(OrElse(it.omdbImdbId, ""))
    ensures JsonTruthy(id) <==> Truthy(it.imdbId) || OptJsonTruthy(it.id) || Truthy(it.omdbImdbId)
  {
    if Truthy(it.imdbId) then JStr(it.imdbId.value)
    else if OptJsonTruthy(it.id) then it.id.value
    else JStr(OrElse(it.omdbImdbId, ""))
  }

  /** `item.title || item.name || ''`. */
  function CardTitle(it: Item): (t: string)
    ensures Truthy(it.title) ==> t == it.title.value
    ensures !Truthy(it.title) ==> t == OrElse(it.name, "")
  {
    OrElse(Or(it.title, it.name), "")
  }

  /** `item.year || (item.premiered ? item.premiered.substring(0, 4) : '') ||
      extractYearFromTitle(title)`. */
  function CardYear(it: Item, title: string): (y: string)
    ensures Truthy(it.year) ==> y == it.year.value
    ensures !Truthy(it.year) && Truthy(it.premiered) ==> y == Take(it.premiered.value, 4) && y != ""
    ensures !Truthy(it.year) && !Truthy(it.premiered) ==> y == ExtractYearFromTitle(title)
  {
    if Truthy(it.year) then it.year.value
    else
      var fromPremiered := if Truthy(it.premiered) then Take(it.premiered.value, 4) else "";
      if fromPremiered != "" then fromPremiered else ExtractYearFromTitle(title)
  }

  /** The route prefix: `/movie/` for the type `movie`, `/tvshow/` for anything else. */
  function RoutePath(kind: string): (p: string)
    ensures p == "/movie/" <==> kind == "movie"
    ensures p == "/tvshow/" <==> kind != "movie"
  {
    if kind == "movie" then "/movie/" else "/tvshow/"
  }

  /** The badge text, chosen by the same test as the route. */
  function TypeLabel(kind: string): (l: string)
    ensures l == "Movie" <==> kind == "movie"
    ensures l == "TV Show" <==> kind != "movie"
  {
    if kind == "movie" then "Movie" else "TV Show"
  }

  /** What a card shows: the id its links use, the link, the title, the year and
      the type badge, which is absent unless the card is asked to show it. */
  datatype Card = Card(contentId: string, link: string, title: string, year: string, badge: Option<string>)

  /** `imdbId || item.temp_id`: an item without an identifier gets
      `temp-<random>`, where `random` stands for the base-36 digits that
      `Math.random()` yields. */
  function ContentId(it: Item, random: string): (c: string)
    ensures JsonTruthy(CardId(it)) ==> c == JsonText(CardId(it))
    ensures !JsonTruthy(CardId(it)) ==> c == "temp-" + random
  {
    if JsonTruthy(CardId(it)) then JsonText(CardId(it)) else "temp-" + random
  }

  /** `ContentCard({item, type, showTypeBadge})`: nothing for a missing item. */
  function Render(item: Option<Item>, kind: string, showTypeBadge: bool, random: string): (c: Option<Card>)
    ensures item.None? <==> c.None?
    ensures c.Some? ==>
      var it := item.value;
      var title := CardTitle(it);
      && c.value.contentId == ContentId(it, random)
      && c.value.link == RoutePath(kind) + c.value.contentId
      && c.value.year == CardYear(it, title)
      && (c.value.year != "" ==> c.value.title == CleanTitleFromYear(title))
      && (c.value.year == "" ==> c.value.title == title)
      && (showTypeBadge ==> c.value.badge == Some(TypeLabel(kind)))
      && (!showTypeBadge ==> c.value.badge.None?)
  {
    match item
    case None => None
    case Some(it) =>
      var contentId := ContentId(it, random);
      var title := CardTitle(it);
      var year := CardYear(it, title);
      Some(Card(contentId, RoutePath(kind) + contentId,
                if year != "" then CleanTitleFromYear(title) else title,
                year, if showTypeBadge then Some(TypeLabel(kind)) else None))
  }

  /** A card without `year` and `premiered` shows the title with its year token
      removed, whatever the title: a title with no year is left unchanged by the
      cleaning anyway. */
  lemma TitleWithoutYearFields(it: Item, kind: string, showTypeBadge: bool, random: string)
    requires !Truthy(it.year) && !Truthy(it.premiered)
    ensures var c := Render(Some(it), kind, showTypeBadge, random).value;
      && c.title == CleanTitleFromYear(CardTitle(it))
      && c.year == ExtractYearFromTitle(CardTitle(it))
  {
  }

  /** When the year comes from the title, the title shown is the title with that
      very year token, and the white space around it, cut out. */
  lemma YearMovesOutOfTitle(it: Item, kind: string, showTypeBadge: bool, random: string)
    requires !Truthy(it.year) && !Truthy(it.premiered)
    requires ExtractYearFromTitle(CardTitle(it)) != ""
    ensures var c := Render(Some(it), kind, showTypeBadge, random).value;
      var t := CardTitle(it);
      exists p: nat, i: nat, q: nat ::
        && YearSegment(t, p, i, q) && t[i..i + 4] == c.year && c.title == t[..p] + t[q..]
  {
    var t := CardTitle(it);
    var c := Render(Some(it), kind, showTypeBadge, random).value;
    assert c.year == ExtractYearFromTitle(t) && c.title == CleanTitleFromYear(t);
  }

  /** `premiered: "Unknown"`, which the TV show enrichment writes when TVMaze has no
      date, gives the card the year `"Unkn"` and removes any year from the title. */
  lemma UnknownPremieredYear(it: Item, kind: string, showTypeBadge: bool, random: string)
    requires !Truthy(it.year) && it.premiered == Some("Unknown")
    ensures var c := Render(Some(it), kind, showTypeBadge, random).value;
      c.year == "Unkn" && c.title == CleanTitleFromYear(CardTitle(it))
  {
  }

  /** A `year` field wins over both `premiered` and the title. */
  lemma YearFieldWins(it: Item, kind: string, showTypeBadge: bool, random: string)
    requires Truthy(it.year)
    ensures var c := Render(Some(it), kind, showTypeBadge, random).value;
      c.year == it.year.value && c.title == CleanTitleFromYear(CardTitle(it))
  {
  }

  /** Every card links, under the route of its type: to the item's identifier when
      it has one, and otherwise to the temporary id, which never looks like an
      IMDb id. */
  lemma LinkFollowsIdentifier(it: Item, kind: string, showTypeBadge: bool, random: string)
    ensures var c := Render(Some(it), kind, showTypeBadge, random).value;
      && StartsWith(c.link, RoutePath(kind))
      && (Truthy(it.imdbId) ==> c.link == RoutePath(kind) + it.imdbId.value)
      && (!(Truthy(it.imdbId) || OptJsonTruthy(it.id) || Truthy(it.omdbImdbId)) ==>
            c.link == RoutePath(kind) + "temp-" + random && !IsImdbId(c.contentId))
  {
    var c := Render(Some(it), kind, showTypeBadge, random).value;
    if !(Truthy(it.imdbId) || OptJsonTruthy(it.id) || Truthy(it.omdbImdbId)) {
      assert c.contentId[1] == 'e';
    }
  }
}
