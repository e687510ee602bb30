/** The shared network layer: the three streaming servers' embed-URL builders and
    the in-memory response cache behind `fetchData`. The clock is the parameter
    `now` and the network answer is the parameter `response`. */
module Api {
  import opened Wrappers
  import opened Text
  import opened Js

  const VidsrcBase: string := "https://vidsrc.xyz"
  const VidlinkBase: string := "https://vidlink.pro"
  const EmbedSuBase: string := "https://embed.su/embed"

  /** The entries of `streamingServers.movie` and `streamingServers.tv`, which hold
      the same three providers in the same order. */
  datatype Server = VidSrc | VidLink | EmbedSu

  const Servers: seq<Server> := [VidSrc, VidLink, EmbedSu]

  /** The `id` field of each server entry. */
  function ServerId(s: Server): (id: string)
    ensures id == "server1" || id == "server2" || id == "server3"
  {
    match s
    case VidSrc => "server1"
    case VidLink => "server2"
    case EmbedSu => "server3"
  }

  /** The entry whose `id` is `id`, as `servers.find(s => s.id === id)` picks it. */
  function FindServer(id: string): (r: Option<Server>)
    ensures forall s :: ServerId(s) == id <==> r == Some(s)
  {
    if id == "server1" then Some(VidSrc)
    else if id == "server2" then Some(VidLink)
    else if id == "server3" then Some(EmbedSu)
    else None
  }

  /** The id Embed.su is given: `tmdbId || imdbId`. */
  function EmbedSuId(imdbId: Option<string>, tmdbId: Option<string>): (id: string)
    ensures Truthy(tmdbId) ==> id == tmdbId.value
    ensures !Truthy(tmdbId) ==> id == Interpolate(imdbId)
  {
    Interpolate(Or(tmdbId, imdbId))
  }

  /** `getUrl(imdbId, tmdbId)` of a movie server; `None` is the `null` VidLink
      returns when it has no TMDB id. */
  function MovieUrl(s: Server, imdbId: Option<string>, tmdbId: Option<string>): (r: Option<string>)
    ensures s == VidSrc ==> r == Some(VidsrcBase + "/embed/movie?imdb=" + Interpolate(imdbId))
    ensures s == VidLink ==> (r.None? <==> !Truthy(tmdbId))
    ensures s == VidLink && r.Some? ==> r.value == VidlinkBase + "/movie/" + tmdbId.value
    ensures s == EmbedSu ==> r == Some(EmbedSuBase + "/movie/" + EmbedSuId(imdbId, tmdbId))
  {
    match s
    case VidSrc => Some(VidsrcBase + "/embed/movie?imdb=" + Interpolate(imdbId))
    case VidLink => if !Truthy(tmdbId) then None else Some(VidlinkBase + "/movie/" + tmdbId.value)
    case EmbedSu => Some(EmbedSuBase + "/movie/" + EmbedSuId(imdbId, tmdbId))
  }

  /** `getUrl(imdbId, tmdbId, season, episode)` of a tv server; `season` and
      `episode` are the already rendered template values. */
  function TvUrl(s: Server, imdbId: Option<string>, tmdbId: Option<string>,
                 season: string, episode: string): (r: Option<string>)
    ensures s == VidSrc ==> r == Some(VidsrcBase + "/embed/tv?imdb=" + Interpolate(imdbId)
                                      + "&season=" + season + "&episode=" + episode)
    ensures s == VidLink ==> (r.None? <==> !Truthy(tmdbId))
    ensures s == VidLink && r.Some? ==>
      r.value == VidlinkBase + "/tv/" + tmdbId.value + "/" + season + "/" + episode
    ensures s == EmbedSu ==>
      r == Some(EmbedSuBase + "/tv/" + EmbedSuId(imdbId, tmdbId) + "/" + season + "/" + episode)
  {
    match s
    case VidSrc =>
      Some(VidsrcBase + "/embed/tv?imdb=" + Interpolate(imdbId) + "&season=" + season + "&episode=" + episode)
    case VidLink =>
      if !Truthy(tmdbId) then None
      else Some(VidlinkBase + "/tv/" + tmdbId.value + "/" + season + "/" + episode)
    case EmbedSu =>
      Some(EmbedSuBase + "/tv/" + EmbedSuId(imdbId, tmdbId) + "/" + season + "/" + episode)
  }

  /** VidSrc's movie URL depends on the IMDb id alone. */
  lemma VidSrcIgnoresTmdb(imdbId: Option<string>, t1: Option<string>, t2: Option<string>)
    ensures MovieUrl(VidSrc, imdbId, t1) == MovieUrl(VidSrc, imdbId, t2)
  {
  }

  /** Only VidLink can give no URL, and it gives none for movies exactly when it
      gives none for episodes. */
  lemma OnlyVidLinkFails(s: Server, imdbId: Option<string>, tmdbId: Option<string>,
                         season: string, episode: string)
    ensures MovieUrl(s, imdbId, tmdbId).None? <==> s == VidLink && !Truthy(tmdbId)
    ensures TvUrl(s, imdbId, tmdbId, season, episode).None? <==> MovieUrl(s, imdbId, tmdbId).None?
  {
  }

  /** The last part of a tv URL: the season, then the episode. */
  function EpisodeSuffix(s: Server, season: string, episode: string): string {
    if s == VidSrc then "&season=" + season + "&episode=" + episode
    else "/" + season + "/" + episode
  }

  /** Every tv URL is the server's show prefix followed by the season and then the
      episode; the prefix does not depend on the season or the episode. */
  lemma TvUrlEndsWithEpisode(s: Server, imdbId: Option<string>, tmdbId: Option<string>,
                             season: string, episode: string)
    requires TvUrl(s, imdbId, tmdbId, season, episode).Some?
    ensures TvUrl(s, imdbId, tmdbId, season, episode).value
         == ShowPrefix(s, imdbId, tmdbId) + EpisodeSuffix(s, season, episode)
  {
    var (a, b) := if s == VidSrc then ("&season=", "&episode=") else ("/", "/");
    ConcatRegroups(ShowPrefix(s, imdbId, tmdbId), a, season, b, episode);
  }

  lemma ConcatRegroups(p: string, a: string, x: string, b: string, y: string)
    ensures p + a + x + b + y == p + (a + x + b + y)
  {
  }

  function ShowPrefix(s: Server, imdbId: Option<string>, tmdbId: Option<string>): string {
    match s
    case VidSrc => VidsrcBase + "/embed/tv?imdb=" + Interpolate(imdbId)
    case VidLink => VidlinkBase + "/tv/" + Interpolate(tmdbId)
    case EmbedSu => EmbedSuBase + "/tv/" + EmbedSuId(imdbId, tmdbId)
  }

  // ----- the response cache ----------------------------------------------------

  /** `CACHE_DURATION`: fifteen minutes in milliseconds. */
  const CacheDuration: int := 15 * 60 * 1000

  /** A cached response and the `Date.now()` at which it was stored. */
  datatype Entry<P> = Entry(data: P, timestamp: int)

  type Cache<P> = map<string, Entry<P>>

  /** What `fetch(url, options)` answered: a parsed payload, a non-ok status, or a
      rejection (network failure or a body that is not JSON). */
  datatype Response<P> = Ok(payload: P) | HttpError(status: int) | NetworkError(message: string)

  /** The promise `fetchData` returns, and the cache after it settles. */
  datatype Fetched<P> = Fetched(result: Result<P, string>, cache: Cache<P>)

  /** The cache lookup of line 19: an entry for exactly this url, younger than
      `CacheDuration`. */
  predicate Fresh<P>(cache: Cache<P>, url: string, now: int) {
    url in cache && now - cache[url].timestamp < CacheDuration
  }

  /** `fetchData(url, options)` at time `now`, where `response` is what the network
      would answer; it is consulted only on a cache miss. `options` do not take
      part in the key and are left out. */
  function FetchData<P>(cache: Cache<P>, url: string, now: int, response: Response<P>): (f: Fetched<P>)
    ensures Fresh(cache, url, now) ==> f == Fetched(Success(cache[url].data), cache)
    ensures !Fresh(cache, url, now) && response.Ok? ==>
      f.result == Success(response.payload) && url in f.cache && f.cache[url] == Entry(response.payload, now)
    ensures !Fresh(cache, url, now) && !response.Ok? ==> f.result.Failure? && f.cache == cache
    ensures response.HttpError? && !Fresh(cache, url, now) ==>
      f.result.error == "API error: " + IntToString(response.status)
    ensures response.NetworkError? && !Fresh(cache, url, now) ==> f.result == Failure(response.message)
    ensures f.cache.Keys == cache.Keys || f.cache.Keys == cache.Keys + {url}
    ensures forall k :: k in cache && k != url ==> k in f.cache && f.cache[k] == cache[k]
  {
    if Fresh(cache, url, now) then Fetched(Success(cache[url].data), cache)
    else
      match response
      case Ok(p) => Fetched(Success(p), cache[url := Entry(p, now)])
      case HttpError(status) => Fetched(Failure("API error: " + IntToString(status)), cache)
      case NetworkError(m) => Fetched(Failure(m), cache)
  }

  /** On a hit the network answer plays no part. */
  lemma HitIgnoresResponse<P>(cache: Cache<P>, url: string, now: int, r1: Response<P>, r2: Response<P>)
    requires Fresh(cache, url, now)
    ensures FetchData(cache, url, now, r1) == FetchData(cache, url, now, r2)
  {
  }

  /** A payload fetched at `t` is served from the cache, whatever the network would
      say, to every later call for the same url before `t + CacheDuration`, and to
      none at or after it. */
  lemma StoredPayloadServedUntilExpiry<P>(cache: Cache<P>, url: string, t: int, p: P,
                                          later: int, r: Response<P>)
    requires !Fresh(cache, url, t)
    ensures var c := FetchData(cache, url, t, Ok(p)).cache;
      && (t <= later < t + CacheDuration ==> FetchData(c, url, later, r) == Fetched(Success(p), c))
      && (later >= t + CacheDuration ==> !Fresh(c, url, later))
  {
  }

  /** Fetching one url never changes what a call for another url yields. */
  lemma OtherUrlsUnaffected<P>(cache: Cache<P>, url: string, other: string, now: int,
                               r: Response<P>, later: int, r2: Response<P>)
    requires other != url
    ensures FetchData(FetchData(cache, url, now, r).cache, other, later, r2).result
         == FetchData(cache, other, later, r2).result
  {
  }
}
