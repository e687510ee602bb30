/** The season drop-down: a sorted copy of the seasons and one option label per
    season. `[...seasons].sort((a, b) => a.number - b.number)` sorts a copy, and
    `Array.prototype.sort` is stable, so seasons with equal numbers keep their
    order. `SortSeasons` is that stable sort, done by insertion; the lemmas below
    show it sorted, a permutation of its input and stable. */
module SeasonSelector {
  import opened Wrappers
  import opened Text
  import opened Js
  import opened Records

  predicate SortedByNumber(s: seq<Season>) {
    forall i, j :: 0 <= i < j < |s| ==> s[i].number <= s[j].number
  }

  /** Puts `x` in front of the first season numbered `x.number` or more. */
  function Insert(x: Season, s: seq<Season>): (r: seq<Season>)
    ensures |r| == |s| + 1
  {
    if s == [] then [x]
    else if s[0].number >= x.number then [x] + s
    else [s[0]] + Insert(x, s[1..])
  }

  /** The sorted copy the selector renders. */
  function SortSeasons(s: seq<Season>): (r: seq<Season>)
    ensures |r| == |s|
  {
    if s == [] then [] else Insert(s[0], SortSeasons(s[1..]))
  }

  /** The seasons numbered `n`, in order. */
  function WithNumber(s: seq<Season>, n: int): (r: seq<Season>)
    ensures forall i :: 0 <= i < |r| ==> r[i].number == n
  {
    if s == [] then []
    else if s[0].number == n then [s[0]] + WithNumber(s[1..], n)
    else WithNumber(s[1..], n)
  }

  /** Prepending a season no larger than any in a sorted list keeps it sorted. */
  lemma ConsSorted(a: Season, t: seq<Season>)
    requires SortedByNumber(t) && forall i :: 0 <= i < |t| ==> a.number <= t[i].number
    ensures SortedByNumber([a] + t)
  {
    var r := [a] + t;
    forall i, j | 0 <= i < j < |r|
      ensures r[i].number <= r[j].number
    {
      assert r[j] == t[j - 1];
      if i > 0 {
        assert r[i] == t[i - 1];
      }
    }
  }

  /** Inserting keeps a lower bound every season already meets. */
  lemma {:induction false} InsertLowerBound(x: Season, s: seq<Season>, lo: int)
    requires x.number >= lo && forall i :: 0 <= i < |s| ==> s[i].number >= lo
    ensures forall i :: 0 <= i < |Insert(x, s)| ==> Insert(x, s)[i].number >= lo
  {
    if s != [] && s[0].number < x.number {
      InsertLowerBound(x, s[1..], lo);
      var r := Insert(x, s);
      assert forall i :: 1 <= i < |r| ==> r[i] == Insert(x, s[1..])[i - 1];
    }
  }

  lemma {:induction false} InsertSorted(x: Season, s: seq<Season>)
    requires SortedByNumber(s)
    ensures SortedByNumber(Insert(x, s))
  {
    if s == [] {
    } else if s[0].number >= x.number {
      ConsSorted(x, s);
    } else {
      InsertSorted(x, s[1..]);
      InsertLowerBound(x, s[1..], s[0].number);
      ConsSorted(s[0], Insert(x, s[1..]));
    }
  }

  /** The rendered seasons are in ascending order of number. */
  lemma {:induction false} SortSeasonsSorted(s: seq<Season>)
    ensures SortedByNumber(SortSeasons(s))
  {
    if s != [] {
      SortSeasonsSorted(s[1..]);
      InsertSorted(s[0], SortSeasons(s[1..]));
    }
  }

  lemma {:induction false} InsertPermutes(x: Season, s: seq<Season>)
    ensures multiset(Insert(x, s)) == multiset(s) + multiset{x}
  {
    if s != [] && s[0].number < x.number {
      InsertPermutes(x, s[1..]);
      assert s == [s[0]] + s[1..];
    }
  }

  /** The rendered seasons are the given seasons, each as often as it occurs. */
  lemma {:induction false} SortSeasonsPermutes(s: seq<Season>)
    ensures multiset(SortSeasons(s)) == multiset(s)
  {
    if s != [] {
      SortSeasonsPermutes(s[1..]);
      InsertPermutes(s[0], SortSeasons(s[1..]));
      assert s == [s[0]] + s[1..];
    }
  }

  lemma {:induction false} InsertKeepsTies(x: Season, s: seq<Season>, n: int)
    ensures WithNumber(Insert(x, s), n)
         == (if x.number == n then [x] else []) + WithNumber(s, n)
  {
    if s == [] {
    } else if s[0].number >= x.number {
      assert ([x] + s)[1..] == s;
    } else {
      InsertKeepsTies(x, s[1..], n);
      assert ([s[0]] + Insert(x, s[1..]))[1..] == Insert(x, s[1..]);
    }
  }

  /** The sort is stable: for every number, the seasons carrying it come out in
      the order they came in. */
  lemma {:induction false} SortSeasonsStable(s: seq<Season>, n: int)
    ensures WithNumber(SortSeasons(s), n) == WithNumber(s, n)
  {
    if s != [] {
      SortSeasonsStable(s[1..], n);
      InsertKeepsTies(s[0], SortSeasons(s[1..]), n);
    }
  }

  /** `season.name && season.name !== `Season ${season.number}` && `- ${season.name}``:
      JSX renders `""`, `false` and `undefined` as nothing. */
  function NamePart(season: Season): (p: string)
    ensures p != "" <==> Truthy(season.name) && season.name.value != "Season " + IntToString(season.number)
    ensures p != "" ==> p == "- " + season.name.value
  {
    if Truthy(season.name) && season.name.value != "Season " + IntToString(season.number)
    then "- " + season.name.value
    else ""
  }

  /** `season.episodeOrder && ` (${season.episodeOrder} episodes)``: an
      `episodeOrder` of 0 is falsy but still rendered, as the text `0`. */
  function EpisodesPart(season: Season): (p: string)
    ensures season.episodeOrder.None? ==> p == ""
    ensures season.episodeOrder == Some(0) ==> p == "0"
    ensures IntTruthy(season.episodeOrder) ==>
      p == " (" + IntToString(season.episodeOrder.value) + " episodes)"
  {
    match season.episodeOrder
    case None => ""
    case Some(k) => if k == 0 then "0" else " (" + IntToString(k) + " episodes)"
  }

  /** The text of one option. */
  function OptionLabel(season: Season): (l: string)
    ensures StartsWith(l, "Season " + IntToString(season.number) + " ")
  {
    "Season " + IntToString(season.number) + " " + NamePart(season) + EpisodesPart(season)
  }

  /** A season whose name only repeats its number, and whose episode count is
      unknown, is labelled by its number alone. */
  lemma DefaultNameAddsNothing(season: Season)
    requires season.name == Some("Season " + IntToString(season.number)) && season.episodeOrder.None?
    ensures OptionLabel(season) == "Season " + IntToString(season.number) + " "
  {
  }

  /** A season with an `episodeOrder` of 0 gets a stray `0` at the end of its label. */
  lemma ZeroEpisodesRendersZero(season: Season)
    requires season.episodeOrder == Some(0)
    ensures var l := OptionLabel(season);
      |l| >= 1 && l[|l| - 1] == '0'
  {
  }
}
