/** The IMDb search adapter: the provider answers with records whose keys carry a
    `#` prefix (`#IMDB_ID`, `#TITLE`, `#RANK`, ...). The adapter renames those keys,
    maps each record to an item, and resolves one IMDb id through two lookups and
    a fixed fallback record. Provider answers are parameters. */
module ImdbService {
  import opened Wrappers
  import opened Text
  import opened Js
  import opened Records
  import opened Api

  /** One raw provider record: its keys in `Object.keys` order, with their values. */
  type RawItem = seq<(string, Json)>

  /** A parsed search answer. `description` is `None` when the body is `null`, has
      no `description` field, or that field is not an array. A `None` element is a
      `null` entry of the array. */
  datatype SearchPayload = SearchPayload(description: Option<seq<Option<RawItem>>>)

  // ----- key normalisation -----------------------------------------------------

  predicate IsHashKey(key: string) {
    |key| > 0 && key[0] == '#'
  }

  /** `key.substring(1).toLowerCase()`. */
  function CleanKey(key: string): (k: string)
    requires IsHashKey(key)
    ensures |k| == |key| - 1
  {
    ToLower(key[1..])
  }

  /** The raw key `key` is renamed to `k`. */
  predicate Renames(key: string, k: string) {
    IsHashKey(key) && CleanKey(key) == k
  }

  /** The object the `Object.keys(item).forEach` loop builds: each `#` key renamed,
      other keys dropped; a later key overwrites an earlier one with the same new
      name. */
  function NormaliseKeys(raw: RawItem): (d: map<string, Json>)
  {
    if raw == [] then map[]
    else Put(NormaliseKeys(raw[..|raw| - 1]), raw[|raw| - 1])
  }

  /** One step of the loop: store the entry under its new name if it has one. */
  function Put(d: map<string, Json>, entry: (string, Json)): (d': map<string, Json>)
    ensures forall k :: k in d' <==> k in d || Renames(entry.0, k)
    ensures forall k :: k in d' ==> d'[k] == if Renames(entry.0, k) then entry.1 else d[k]
  {
    if IsHashKey(entry.0) then d[CleanKey(entry.0) := entry.1] else d
  }

  /** A name is present exactly when some `#` key is renamed to it. */
  lemma {:induction false} NormaliseKeysDomain(raw: RawItem, k: string)
    ensures k in NormaliseKeys(raw) <==> exists i :: 0 <= i < |raw| && Renames(raw[i].0, k)
  {
    if raw != [] {
      var init := raw[..|raw| - 1];
      NormaliseKeysDomain(init, k);
      assert forall i :: 0 <= i < |init| ==> init[i] == raw[i];
    }
  }

  /** The value under a name is that of the last `#` key renamed to it. */
  lemma {:induction false} NormaliseKeysLastWins(raw: RawItem, i: nat, k: string)
    requires i < |raw| && Renames(raw[i].0, k)
    requires forall j :: i < j < |raw| ==> !Renames(raw[j].0, k)
    ensures k in NormaliseKeys(raw) && NormaliseKeys(raw)[k] == raw[i].1
  {
    var init := raw[..|raw| - 1];
    if i < |raw| - 1 {
      assert init[i] == raw[i];
      assert forall j :: i < j < |init| ==> init[j] == raw[j];
      NormaliseKeysLastWins(init, i, k);
      assert !Renames(raw[|raw| - 1].0, k);
    }
  }

  /** The position of the last entry with key `key`, or -1 when there is none. */
  function LastKeyIndex(raw: RawItem, key: string): (k: int)
    ensures -1 <= k < |raw|
    ensures k == -1 <==> forall i :: 0 <= i < |raw| ==> raw[i].0 != key
    ensures k >= 0 ==> raw[k].0 == key && forall j :: k < j < |raw| ==> raw[j].0 != key
  {
    if raw == [] then -1
    else if raw[|raw| - 1].0 == key then |raw| - 1
    else
      var k := LastKeyIndex(raw[..|raw| - 1], key);
      assert forall i :: 0 <= i < |raw| - 1 ==> raw[..|raw| - 1][i] == raw[i];
      k
  }

  /** `item[key]` on a raw record: the value of the last entry with that key. */
  function RawGet(raw: RawItem, key: string): (r: Option<Json>)
    ensures r.None? <==> forall i :: 0 <= i < |raw| ==> raw[i].0 != key
    ensures r.Some? ==> exists i :: (0 <= i < |raw| && raw[i] == (key, r.value)
                                     && forall j :: i < j < |raw| ==> raw[j].0 != key)
  {
    var k := LastKeyIndex(raw, key);
    if k == -1 then None
    else
      assert raw[k] == (key, raw[k].1);
      Some(raw[k].1)
  }

  /** `details[k]` on a normalised record. */
  function Field(d: map<string, Json>, k: string): Option<Json> {
    if k in d then Some(d[k]) else None
  }

  predicate FieldTruthy(d: map<string, Json>, k: string) {
    OptJsonTruthy(Field(d, k))
  }

  /** `details.k ? String(details.k) : default`, and also `details.k || default`
      where the value is rendered as text. */
  function TextOr(d: map<string, Json>, k: string, default: string): (s: string)
    ensures FieldTruthy(d, k) ==> s == JsonText(d[k])
    ensures !FieldTruthy(d, k) ==> s == default
  {
    if FieldTruthy(d, k) then JsonText(d[k]) else default
  }

  // ----- ratings, ids and posters ---------------------------------------------

  /** `calculateRating(rank)`: `''` for a falsy rank or one `parseInt` reads as
      `NaN`, otherwise the rating derived from the parsed rank. */
  function CalculateRating(rank: Json): (r: Rating)
    ensures r == Label("") <==> !JsonTruthy(rank) || ParseInt(JsonText(rank)).None?
    ensures r.FromRank? ==> Some(r.rank) == ParseInt(JsonText(rank))
    ensures JsonTruthy(rank) && ParseInt(JsonText(rank)).Some? ==> r == FromRank(ParseInt(JsonText(rank)).value)
  {
    if !JsonTruthy(rank) then Label("")
    else match ParseInt(JsonText(rank))
      case None => Label("")
      case Some(n) => FromRank(n)
  }

  /** A numeric rank is always turned into a rating, from that same number. */
  lemma NumericRankRated(n: int)
    requires n != 0
    ensures CalculateRating(JNum(n)) == FromRank(n)
  {
    ParseIntOfIntToString(n);
  }

  /** The id with `tt` put in front unless it is already there. */
  function NormaliseImdbId(id: string): (c: string)
    ensures StartsWith(c, "tt")
    ensures StartsWith(id, "tt") ==> c == id
    ensures !StartsWith(id, "tt") ==> c[2..] == id
  {
    if StartsWith(id, "tt") then id else "tt" + id
  }

  lemma NormaliseImdbIdIdempotent(id: string)
    ensures NormaliseImdbId(NormaliseImdbId(id)) == NormaliseImdbId(id)
  {
  }

  const OmdbPrefix: string := "https://img.omdbapi.com/?apikey=a937d97e&i="
  const OmdbSuffix: string := "&h=600"

  /** The OMDb poster URL for an id. */
  function OmdbPoster(id: string): (u: string)
    ensures |u| == |OmdbPrefix| + |id| + |OmdbSuffix|
    ensures u[|OmdbPrefix|..|OmdbPrefix| + |id|] == id
  {
    OmdbPrefix + id + OmdbSuffix
  }

  /** Distinct ids give distinct poster URLs. */
  lemma OmdbPosterInjective(a: string, b: string)
    requires OmdbPoster(a) == OmdbPoster(b)
    ensures a == b
  {
    assert |a| == |b|;
    assert a == OmdbPoster(a)[|OmdbPrefix|..|OmdbPrefix| + |a|];
  }

  // ----- searchIMDB --------------------------------------------------------------

  const SearchDescription: string := "A Fast and Furious movie"

  /** The item built from one normalised search record. */
  function SearchItem(d: map<string, Json>): (it: Item)
    ensures it.kind == Some("movie") && it.description == Some(SearchDescription)
    ensures it.id == Some(if FieldTruthy(d, "imdb_id") then d["imdb_id"] else JStr(""))
    ensures it.poster == Some(if FieldTruthy(d, "imdb_id") then OmdbPoster(JsonText(d["imdb_id"])) else "")
    ensures it.genres == Some(if FieldTruthy(d, "actors") then [JsonText(d["actors"])] else ["Action"])
    ensures it.rating == Some(if FieldTruthy(d, "rank") then CalculateRating(d["rank"]) else Label(""))
    ensures it.title == Some(TextOr(d, "title", "")) && it.year == Some(TextOr(d, "year", ""))
    ensures it.(id := None, title := None, description := None, poster := None, rating := None,
                year := None, genres := None, kind := None) == Blank
  {
    Blank.(
      id := Some(if FieldTruthy(d, "imdb_id") then d["imdb_id"] else JStr("")),
      title := Some(TextOr(d, "title", "")),
      description := Some(SearchDescription),
      poster := Some(if FieldTruthy(d, "imdb_id") then OmdbPoster(JsonText(d["imdb_id"])) else ""),
      rating := Some(if FieldTruthy(d, "rank") then CalculateRating(d["rank"]) else Label("")),
      year := Some(TextOr(d, "year", "")),
      genres := Some(if FieldTruthy(d, "actors") then [JsonText(d["actors"])] else ["Action"]),
      kind := Some("movie"))
  }

  /** The poster names the same id as the item: it is empty exactly when the id is,
      and otherwise it is the OMDb URL of the id's text. */
  lemma SearchItemPosterFollowsId(d: map<string, Json>)
    ensures var it := SearchItem(d);
      && (it.poster == Some("") <==> it.id == Some(JStr("")))
      && (it.poster != Some("") ==> it.poster == Some(OmdbPoster(JsonText(it.id.value))))
  {
  }

  predicate ShortQuery(query: Option<string>) {
    !Truthy(query) || |Trim(query.value)| < 2
  }

  /** The items of a description array, or `None` when one of them is `null`
      (reading its keys throws). */
  function MapSearchItems(items: seq<Option<RawItem>>): (r: Option<seq<Item>>)
    ensures r.None? <==> exists i :: 0 <= i < |items| && items[i].None?
    ensures r.Some? ==> |r.value| == |items|
    ensures r.Some? ==> forall i :: 0 <= i < |items| ==> r.value[i] == SearchItem(NormaliseKeys(items[i].value))
    ensures r.Some? ==> forall i :: 0 <= i < |r.value| ==> r.value[i].kind == Some("movie")
  {
    if items == [] then Some([])
    else match items[0]
      case None => None
      case Some(raw) =>
        match MapSearchItems(items[1..])
        case None => None
        case Some(rest) => Some([SearchItem(NormaliseKeys(raw))] + rest)
  }

  /** `searchIMDB(query)` given what the search request answers. */
  function SearchImdb(query: Option<string>, response: Response<SearchPayload>): (r: seq<Item>)
    ensures ShortQuery(query) ==> r == []
    ensures !response.Ok? || response.payload.description.None? ==> r == []
    ensures forall i :: 0 <= i < |r| ==> r[i].kind == Some("movie")
    ensures !ShortQuery(query) && response.Ok? && response.payload.description.Some? ==>
      var items := response.payload.description.value;
      if exists i :: 0 <= i < |items| && items[i].None? then r == []
      else |r| == |items| && forall i :: 0 <= i < |items| ==> r[i] == SearchItem(NormaliseKeys(items[i].value))
  {
    if ShortQuery(query) || !response.Ok? || response.payload.description.None? then []
    else
      var mapped := MapSearchItems(response.payload.description.value);
      if mapped.None? then [] else mapped.value
  }

  /** A short query is answered without looking at any response. */
  lemma ShortQueryIgnoresResponse(query: Option<string>, r1: Response<SearchPayload>, r2: Response<SearchPayload>)
    requires ShortQuery(query)
    ensures SearchImdb(query, r1) == SearchImdb(query, r2) == []
  {
  }

  // ----- getIMDBDetails ----------------------------------------------------------

  const DetailsDescription: string := "A movie from the Fast and Furious franchise."

  /** The record built from a matching raw record. */
  function DetailsItem(d: map<string, Json>, clean: string): (it: Item)
    ensures it.imdbId == Some(clean) && it.poster == Some(OmdbPoster(clean))
    ensures it.title == Some(TextOr(d, "title", "Unknown Title"))
    ensures it.description == Some(TextOr(d, "description", DetailsDescription))
    ensures it.rating == Some(if FieldTruthy(d, "rank") then CalculateRating(d["rank"]) else Label("7.5"))
    ensures it.runtime == Some(TextOr(d, "runtime", "120 min"))
    ensures it.year == Some(TextOr(d, "year", ""))
    ensures it.genres == Some(if FieldTruthy(d, "actors") then [JsonText(d["actors"])] else ["Action"])
    ensures it.(imdbId := None, title := None, description := None, poster := None, rating := None,
                year := None, genres := None, runtime := None) == Blank
  {
    Blank.(
      imdbId := Some(clean),
      title := Some(TextOr(d, "title", "Unknown Title")),
      description := Some(TextOr(d, "description", DetailsDescription)),
      poster := Some(OmdbPoster(clean)),
      rating := Some(if FieldTruthy(d, "rank") then CalculateRating(d["rank"]) else Label("7.5")),
      year := Some(TextOr(d, "year", "")),
      genres := Some(if FieldTruthy(d, "actors") then [JsonText(d["actors"])] else ["Action"]),
      runtime := Some(TextOr(d, "runtime", "120 min")))
  }

  /** The record returned when neither lookup finds the id. */
  function FallbackDetails(clean: string): (it: Item)
    ensures it.imdbId == Some(clean) && it.poster == Some(OmdbPoster(clean))
    ensures it.title == Some("Fast and Furious Movie") && it.genres == Some(["Action", "Racing"])
    ensures it.description == Some(DetailsDescription) && it.rating == Some(Label("7.5"))
    ensures it.year == Some("") && it.runtime == Some("120 min")
    ensures it.(imdbId := None, title := None, description := None, poster := None, rating := None,
                year := None, genres := None, runtime := None) == Blank
  {
    Blank.(
      imdbId := Some(clean),
      title := Some("Fast and Furious Movie"),
      description := Some(DetailsDescription),
      poster := Some(OmdbPoster(clean)),
      rating := Some(Label("7.5")),
      year := Some(""),
      genres := Some(["Action", "Racing"]),
      runtime := Some("120 min"))
  }

  /** How one lookup ends: a matching record, no match, or an exception. */
  datatype Lookup = Found(item: Item) | NotFound | Threw

  /** The raw record carries exactly this id under `#IMDB_ID`. */
  predicate Matches(raw: RawItem, clean: string) {
    RawGet(raw, "#IMDB_ID") == Some(JStr(clean))
  }

  /** The `for (const item of data.description)` loop: the first record whose
      `#IMDB_ID` is `clean`; a `null` record met before it throws. */
  function ScanFor(items: seq<Option<RawItem>>, clean: string): (l: Lookup)
    ensures l.Found? ==> l.item.imdbId == Some(clean) && l.item.poster == Some(OmdbPoster(clean))
  {
    if items == [] then NotFound
    else match items[0]
      case None => Threw
      case Some(raw) =>
        if Matches(raw, clean) then Found(DetailsItem(NormaliseKeys(raw), clean))
        else ScanFor(items[1..], clean)
  }

  /** Records before `i` that are present and do not match. */
  predicate PassedOver(items: seq<Option<RawItem>>, clean: string, i: nat)
    requires i <= |items|
  {
    forall j :: 0 <= j < i ==> items[j].Some? && !Matches(items[j].value, clean)
  }

  /** The scan stops at the first record that matches or is `null`, and finds
      nothing when it passes over every record. */
  lemma {:induction false} ScanForStops(items: seq<Option<RawItem>>, clean: string, i: nat)
    requires i <= |items| && PassedOver(items, clean, i)
    ensures i == |items| ==> ScanFor(items, clean) == NotFound
    ensures i < |items| && items[i].None? ==> ScanFor(items, clean) == Threw
    ensures i < |items| && items[i].Some? && Matches(items[i].value, clean) ==>
      ScanFor(items, clean) == Found(DetailsItem(NormaliseKeys(items[i].value), clean))
  {
    if 0 < i {
      var rest := items[1..];
      assert forall j :: 0 <= j < |rest| ==> rest[j] == items[j + 1];
      assert PassedOver(rest, clean, i - 1);
      ScanForStops(rest, clean, i - 1);
    }
  }

  /** One lookup: a non-ok answer, a rejection or a missing array all fall through. */
  function LookupIn(response: Response<SearchPayload>, clean: string): Lookup {
    match response
    case Ok(SearchPayload(Some(items))) => ScanFor(items, clean)
    case _ => NotFound
  }

  /** `getIMDBDetails(imdbId)` given the answers to the `tt=` request (`direct`)
      and the `q=` request (`search`). */
  function GetImdbDetails(imdbId: Option<string>, direct: Response<SearchPayload>,
                          search: Response<SearchPayload>): (r: Option<Item>)
    ensures r.None? <==> !Truthy(imdbId)
    ensures r.Some? ==> r.value.imdbId == Some(NormaliseImdbId(imdbId.value))
    ensures r.Some? ==> r.value.poster == Some(OmdbPoster(NormaliseImdbId(imdbId.value)))
    ensures Truthy(imdbId) && !LookupIn(direct, NormaliseImdbId(imdbId.value)).Found?
                           && !LookupIn(search, NormaliseImdbId(imdbId.value)).Found?
      ==> r == Some(FallbackDetails(NormaliseImdbId(imdbId.value)))
    ensures Truthy(imdbId) && LookupIn(direct, NormaliseImdbId(imdbId.value)).Found?
      ==> r == Some(LookupIn(direct, NormaliseImdbId(imdbId.value)).item)
    ensures Truthy(imdbId) && !LookupIn(direct, NormaliseImdbId(imdbId.value)).Found?
                           && LookupIn(search, NormaliseImdbId(imdbId.value)).Found?
      ==> r == Some(LookupIn(search, NormaliseImdbId(imdbId.value)).item)
  {
    if !Truthy(imdbId) then None
    else
      var clean := NormaliseImdbId(imdbId.value);
      match LookupIn(direct, clean)
      case Found(it) => Some(it)
      case _ =>
        match LookupIn(search, clean)
        case Found(it) => Some(it)
        case _ => Some(FallbackDetails(clean))
  }

  /** A hit in the direct lookup decides the answer whatever the search says. */
  lemma DirectHitWins(imdbId: string, direct: Response<SearchPayload>,
                      s1: Response<SearchPayload>, s2: Response<SearchPayload>)
    requires imdbId != "" && LookupIn(direct, NormaliseImdbId(imdbId)).Found?
    ensures GetImdbDetails(Some(imdbId), direct, s1) == GetImdbDetails(Some(imdbId), direct, s2)
  {
  }

  /** Looking up an id and its `tt` form gives the same answer. */
  lemma DetailsOfNormalisedId(imdbId: string, direct: Response<SearchPayload>, search: Response<SearchPayload>)
    requires imdbId != ""
    ensures GetImdbDetails(Some(NormaliseImdbId(imdbId)), direct, search)
         == GetImdbDetails(Some(imdbId), direct, search)
  {
    NormaliseImdbIdIdempotent(imdbId);
  }

  // ----- the remaining lookups -------------------------------------------------

  /** `getIMDBPoster(imdbId)`. */
  function GetImdbPoster(imdbId: Option<string>): (r: Option<string>)
    ensures r.None? <==> !Truthy(imdbId)
    ensures r.Some? ==> r.value == OmdbPoster(NormaliseImdbId(imdbId.value))
  {
    if !Truthy(imdbId) then None else Some(OmdbPoster(NormaliseImdbId(imdbId.value)))
  }

  /** The poster lookup agrees with the poster of the details record. */
  lemma PosterAgreesWithDetails(imdbId: Option<string>, direct: Response<SearchPayload>,
                                search: Response<SearchPayload>)
    ensures var d := GetImdbDetails(imdbId, direct, search);
      GetImdbPoster(imdbId) == (if d.Some? then d.value.poster else None)
  {
  }

  /** `getIMDBTrailer(imdbId)`: trailers are never looked up. */
  function GetImdbTrailer(imdbId: Option<string>): (r: Option<string>)
    ensures r.None?
  {
    None
  }

  /** `searchJustWatch(query, region)`: the lookup is disabled. */
  function SearchJustWatch(query: Option<string>, region: string): (r: seq<string>)
    ensures r == []
  {
    []
  }
}
