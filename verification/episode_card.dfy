/** One episode of the season list: its heading, the summary it shows, its image
    and the route its Watch button navigates to. */
module EpisodeCard {
  import opened Wrappers
  import opened Text
  import opened Js
  import opened Records

  /** `/tvshow/${tvShowId}/season/${seasonNumber}/episode/${episode.number}`. */
  function EpisodeRoute(tvShowId: string, season: int, number: int): (r: string)
    ensures StartsWith(r, "/tvshow/" + tvShowId + "/season/")
  {
    "/tvshow/" + tvShowId + "/season/" + IntToString(season) + "/" + "episode/" + IntToString(number)
  }

  /** The decimal text of an integer has no `/`. */
  lemma NoSlashInNumber(i: int)
    ensures '/' !in IntToString(i)
  {
    var d := NatToString(if i < 0 then -i else i);
    assert forall k :: 0 <= k < |d| ==> IsDigit(d[k]);
  }

  /** Two texts split at the first occurrence of a separator neither prefix holds
      agree on both parts. */
  lemma SplitAtSeparator(a: string, b: string, c: char, x: string, y: string)
    requires c !in a && c !in b && a + [c] + x == b + [c] + y
    ensures a == b && x == y
  {
    var u := a + [c] + x;
    assert u == b + [c] + y;
    assert u[|a|] == c && u[|b|] == c;
    assert forall k :: 0 <= k < |a| ==> u[k] == a[k] && u[k] != c;
    assert forall k :: 0 <= k < |b| ==> u[k] == b[k] && u[k] != c;
    assert |a| == |b|;
    assert u[..|a|] == a && u[..|b|] == b;
    assert u[|a| + 1..] == x && u[|b| + 1..] == y;
  }

  /** The route determines the season and the episode: two episodes of one show
      never share a Watch link. */
  lemma EpisodeRouteInjective(id: string, s1: int, n1: int, s2: int, n2: int)
    requires EpisodeRoute(id, s1, n1) == EpisodeRoute(id, s2, n2)
    ensures s1 == s2 && n1 == n2
  {
    var p := "/tvshow/" + id + "/season/";
    var a1, a2 := IntToString(s1), IntToString(s2);
    var b1, b2 := IntToString(n1), IntToString(n2);
    RouteShape(p, a1, "episode/", b1);
    RouteShape(p, a2, "episode/", b2);
    PrefixCancel(p, a1 + ['/'] + ("episode/" + b1), a2 + ['/'] + ("episode/" + b2));
    NoSlashInNumber(s1);
    NoSlashInNumber(s2);
    SplitAtSeparator(a1, a2, '/', "episode/" + b1, "episode/" + b2);
    PrefixCancel("episode/", b1, b2);
    ParseIntOfIntToString(s1);
    ParseIntOfIntToString(s2);
    ParseIntOfIntToString(n1);
    ParseIntOfIntToString(n2);
  }

  lemma RouteShape(p: string, a: string, m: string, b: string)
    ensures p + a + "/" + m + b == p + (a + ['/'] + (m + b))
  {
  }

  lemma PrefixCancel(p: string, u: string, v: string)
    requires p + u == p + v
    ensures u == v
  {
    assert u == (p + u)[|p|..] && v == (p + v)[|p|..];
  }

  /** `episode.name || `Episode ${episode.number}``. */
  function Heading(e: Episode): (h: string)
    ensures Truthy(e.name) ==> h == e.name.value
    ensures !Truthy(e.name) ==> h == "Episode " + IntToString(e.number)
  {
    OrElse(e.name, "Episode " + IntToString(e.number))
  }

  const SummaryLimit: nat := 150

  /** The summary markup: long summaries are cut to 150 characters and marked with
      an ellipsis; a missing or empty one is replaced. */
  function SummaryText(summary: Option<string>): (r: string)
    ensures !Truthy(summary) ==> r == "No description available."
    ensures Truthy(summary) && |summary.value| <= SummaryLimit ==> r == summary.value
    ensures Truthy(summary) && |summary.value| > SummaryLimit ==>
      |r| == SummaryLimit + 3 && r == summary.value[..SummaryLimit] + "..."
    ensures |r| <= SummaryLimit + 3
  {
    if !Truthy(summary) then "No description available."
    else if |summary.value| > SummaryLimit then summary.value[..SummaryLimit] + "..."
    else summary.value
  }

  /** What is shown always begins like the summary, as far as 150 characters. */
  lemma SummaryKeepsOpening(s: string)
    requires s != ""
    ensures Take(s, SummaryLimit) <= SummaryText(Some(s))
  {
  }

  /** Cutting is idempotent: a shown summary, passed through again, stays as it is. */
  lemma SummaryTextIdempotent(s: string)
    requires s != ""
    ensures SummaryText(Some(SummaryText(Some(s)))) == SummaryText(Some(s))
  {
    if |s| > SummaryLimit {
      var r := SummaryText(Some(s));
      assert r[..SummaryLimit] == s[..SummaryLimit];
    }
  }

  /** The background image: none without an `image` object, else `url(...)` of
      `medium || original`. */
  function ImageStyle(image: Option<Image>): (r: Option<string>)
    ensures image.None? <==> r.None?
    ensures image.Some? && Truthy(image.value.medium) ==> r == Some("url(" + image.value.medium.value + ")")
    ensures image.Some? && !Truthy(image.value.medium) ==>
      r == Some("url(" + Interpolate(image.value.original) + ")")
  {
    match image
    case None => None
    case Some(img) => Some("url(" + Interpolate(Or(img.medium, img.original)) + ")")
  }
}
