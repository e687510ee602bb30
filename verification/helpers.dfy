/** src/utils/helpers.js: year extraction and removal, HTML tag stripping,
    runtime formatting, ISO-8601-style duration parsing, TVMaze record conversion
    and identifier recognition. Every regular expression is written out as a
    search over positions, with JavaScript's leftmost-match rule. */
module Helpers {
  import opened Wrappers
  import opened Text
  import opened Js
  import opened Records

  // ===== /\b(19|20)\d{2}\b/ ==================================================

  /** `\b` at position `i`: a word character on exactly one side. */
  predicate Boundary(s: string, i: nat)
    requires i <= |s|
  {
    (i > 0 && IsWordChar(s[i - 1])) != (i < |s| && IsWordChar(s[i]))
  }

  /** The year pattern matches at `i`: `19` or `20`, two more digits, and a word
      boundary on both sides. */
  predicate YearAt(s: string, i: nat) {
    && i + 4 <= |s|
    && Boundary(s, i)
    && ((s[i] == '1' && s[i + 1] == '9') || (s[i] == '2' && s[i + 1] == '0'))
    && IsDigit(s[i + 2]) && IsDigit(s[i + 3])
    && Boundary(s, i + 4)
  }

  /** `i` is where `match` finds the year: the leftmost position it matches at. */
  predicate LeftmostYear(s: string, i: nat) {
    YearAt(s, i) && forall j: nat :: j < i ==> !YearAt(s, j)
  }

  /** The search `String.prototype.match` runs, from position `from` on. */
  function FindYear(s: string, from: nat): (r: Option<nat>)
    decreases |s| - from
    ensures r.Some? ==> from <= r.value && YearAt(s, r.value)
    ensures r.Some? ==> forall j: nat :: from <= j < r.value ==> !YearAt(s, j)
    ensures r.None? ==> forall j: nat :: from <= j ==> !YearAt(s, j)
  {
    if from + 4 > |s| then None
    else if YearAt(s, from) then Some(from)
    else FindYear(s, from + 1)
  }

  /** `extractYearFromTitle`: the leftmost year token, or `""`. A missing title is
      passed as `""`. */
  function ExtractYearFromTitle(title: string): (r: string)
    ensures title == "" ==> r == ""
    ensures r == "" <==> forall j: nat :: !YearAt(title, j)
    ensures r != "" ==> exists i: nat :: LeftmostYear(title, i) && i + 4 <= |title| && r == title[i..i + 4]
  {
    if title == "" then ""
    else
      match FindYear(title, 0)
      case None => ""
      case Some(i) =>
        assert LeftmostYear(title, i);
        title[i..i + 4]
  }

  // ===== /\s*\b(19|20)\d{2}\b\s*/ ============================================

  /** The end of the run of white space that starts at `p`. */
  function SpaceRunEnd(s: string, p: nat): (e: nat)
    requires p <= |s|
    decreases |s| - p
    ensures p <= e <= |s|
    ensures forall k :: p <= k < e ==> IsSpace(s[k])
    ensures e < |s| ==> !IsSpace(s[e])
  {
    if p == |s| || !IsSpace(s[p]) then p else SpaceRunEnd(s, p + 1)
  }

  /** Where a match of the cleaning pattern that starts at `p` ends, if it matches
      there. The greedy `\s*` stops at a non-space; giving characters back cannot
      help, because the year must start with a digit. */
  function CleanMatchAt(s: string, p: nat): Option<nat>
    requires p <= |s|
  {
    var k := SpaceRunEnd(s, p);
    if YearAt(s, k) then Some(SpaceRunEnd(s, k + 4)) else None
  }

  /** The leftmost match of the cleaning pattern at or after `from`, as (start, end). */
  function FindCleanMatch(s: string, from: nat): (r: Option<(nat, nat)>)
    requires from <= |s|
    decreases |s| - from
    ensures r.Some? ==> from <= r.value.0 <= |s| && CleanMatchAt(s, r.value.0) == Some(r.value.1)
    ensures r.Some? ==> forall j: nat :: from <= j < r.value.0 ==> CleanMatchAt(s, j).None?
    ensures r.None? ==> forall j: nat :: from <= j <= |s| ==> CleanMatchAt(s, j).None?
  {
    match CleanMatchAt(s, from)
    case Some(e) => Some((from, e))
    case None => if from == |s| then None else FindCleanMatch(s, from + 1)
  }

  /** The segment `t[p..q]` the cleaning pattern removes around the year at `i`:
      all the white space just before it, the token, all the white space just after. */
  predicate YearSegment(t: string, p: nat, i: nat, q: nat) {
    && p <= i && i + 4 <= q <= |t|
    && LeftmostYear(t, i)
    && (forall k :: p <= k < i ==> IsSpace(t[k]))
    && (p == 0 || !IsSpace(t[p - 1]))
    && (forall k :: i + 4 <= k < q ==> IsSpace(t[k]))
    && (q == |t| || !IsSpace(t[q]))
  }

  /** A match that starts just after a space also matches one position earlier. */
  lemma CleanMatchExtendsLeft(t: string, p: nat)
    requires 0 < p <= |t| && IsSpace(t[p - 1]) && CleanMatchAt(t, p).Some?
    ensures CleanMatchAt(t, p - 1).Some?
  {
    assert SpaceRunEnd(t, p - 1) == SpaceRunEnd(t, p);
  }

  /** A match of the cleaning pattern exists exactly when a year token does. */
  lemma CleanMatchExists(t: string)
    ensures FindCleanMatch(t, 0).None? <==> FindYear(t, 0).None?
  {
    var y := FindYear(t, 0);
    if y.Some? {
      var i := y.value;
      assert SpaceRunEnd(t, i) == i;
      assert CleanMatchAt(t, i).Some?;
    } else {
      var c := FindCleanMatch(t, 0);
      if c.Some? {
        assert false;
      }
    }
  }

  /** The leftmost cleaning match cannot start just after a space: it would then
      also match one position earlier. */
  lemma CleanMatchStartsAtBoundary(t: string)
    requires FindCleanMatch(t, 0).Some?
    ensures var p := FindCleanMatch(t, 0).value.0;
      p == 0 || !IsSpace(t[p - 1])
  {
    var p := FindCleanMatch(t, 0).value.0;
    if p > 0 && IsSpace(t[p - 1]) {
      CleanMatchExtendsLeft(t, p);
    }
  }

  /** The year inside the leftmost cleaning match is the leftmost year. */
  lemma CleanMatchYearIsLeftmost(t: string)
    requires FindCleanMatch(t, 0).Some?
    ensures FindYear(t, 0).Some?
    ensures SpaceRunEnd(t, FindCleanMatch(t, 0).value.0) == FindYear(t, 0).value
  {
    CleanMatchExists(t);
    var i := FindYear(t, 0).value;
    var p := FindCleanMatch(t, 0).value.0;
    var k := SpaceRunEnd(t, p);
    assert YearAt(t, k);
    assert SpaceRunEnd(t, i) == i;
    assert CleanMatchAt(t, i).Some?;
    assert p <= i && !IsSpace(t[i]);
  }

  /** The leftmost cleaning match is the year segment around the leftmost year. */
  lemma CleanMatchIsYearSegment(t: string)
    requires FindCleanMatch(t, 0).Some?
    ensures var (p, q) := FindCleanMatch(t, 0).value;
      YearSegment(t, p, SpaceRunEnd(t, p), q) && SpaceRunEnd(t, p) == FindYear(t, 0).value
  {
    CleanMatchStartsAtBoundary(t);
    CleanMatchYearIsLeftmost(t);
    var (p, q) := FindCleanMatch(t, 0).value;
    var i := SpaceRunEnd(t, p);
    assert LeftmostYear(t, i);
  }

  /** `cleanTitleFromYear`: removes the first year token together with the white
      space around it, joining its neighbours; keeps everything else. */
  function CleanTitleFromYear(title: string): (r: string)
    ensures title == "" ==> r == ""
    ensures ExtractYearFromTitle(title) == "" ==> r == title
    ensures ExtractYearFromTitle(title) != "" ==>
      exists p: nat, i: nat, q: nat ::
        && YearSegment(title, p, i, q)
        && title[i..i + 4] == ExtractYearFromTitle(title)
        && r == title[..p] + title[q..]
  {
    if title == "" then ""
    else
      CleanMatchExists(title);
      match FindCleanMatch(title, 0)
      case None => title
      case Some((p, q)) =>
        CleanMatchIsYearSegment(title);
        var i := SpaceRunEnd(title, p);
        assert YearSegment(title, p, i, q);
        title[..p] + title[q..]
  }

  /** Where the pattern does not match, the search moves one position on. */
  lemma CleanSearchSkips(s: string, j: nat)
    requires j < |s| && !IsSpace(s[j]) && !YearAt(s, j)
    ensures FindCleanMatch(s, j) == FindCleanMatch(s, j + 1)
  {
    assert SpaceRunEnd(s, j) == j;
  }

  /** A year segment is pinned down by the characters on either side of its spaces. */
  lemma SegmentBetween(t: string, p: nat, i: nat, q: nat, a: nat, b: nat)
    requires YearSegment(t, p, i, q)
    requires 0 < a <= i && !IsSpace(t[a - 1]) && forall k :: a <= k < i ==> IsSpace(t[k])
    requires i + 4 <= b < |t| && !IsSpace(t[b]) && forall k :: i + 4 <= k < b ==> IsSpace(t[k])
    ensures p == a && q == b
  {
    assert !IsSpace(t[a - 1]) && !IsSpace(t[b]);
  }

  /** The year and the spaces on both sides go; the neighbours are joined. */
  lemma CleanTitleJoinsNeighbours()
    ensures CleanTitleFromYear("Movie 2020 Part") == "MoviePart"
  {
    var t := "Movie 2020 Part";
    JoinsNeighboursYear(t);
    var r := CleanTitleFromYear(t);
    var p: nat, i: nat, q: nat :| YearSegment(t, p, i, q) && r == t[..p] + t[q..];
    JoinsNeighboursSegment(t, p, i, q);
  }

  lemma JoinsNeighboursYear(t: string)
    requires t == "Movie 2020 Part"
    ensures LeftmostYear(t, 6) && ExtractYearFromTitle(t) != ""
  {
    assert YearAt(t, 6);
    forall j: nat | j < 6 ensures !YearAt(t, j) {
      if j == 0 {} else if j == 1 {} else if j == 2 {} else if j == 3 {} else if j == 4 {} else {}
    }
  }

  lemma JoinsNeighboursSegment(t: string, p: nat, i: nat, q: nat)
    requires t == "Movie 2020 Part"
    requires YearSegment(t, p, i, q) && LeftmostYear(t, 6)
    ensures t[..p] + t[q..] == "MoviePart"
  {
    assert i == 6;
    assert t[5] == ' ' && t[4] == 'e' && t[10] == ' ' && t[11] == 'P';
    SegmentBetween(t, p, i, q, 5, 11);
    assert t[..5] == "Movie" && t[11..] == "Part";
  }

  /** The first pass over `"1999 2000"` removes only the first year. */
  lemma CleanTitleFirstPass()
    ensures CleanTitleFromYear("1999 2000") == "2000"
  {
    var u := "1999 2000";
    assert CleanMatchAt(u, 0) == Some(5) by {
      assert SpaceRunEnd(u, 0) == 0 && YearAt(u, 0) && SpaceRunEnd(u, 5) == 5 && SpaceRunEnd(u, 4) == 5;
    }
  }

  /** The second pass removes the remaining year. */
  lemma CleanTitleSecondPass()
    ensures CleanTitleFromYear("2000") == ""
  {
    var w := "2000";
    assert CleanMatchAt(w, 0) == Some(4) by {
      assert SpaceRunEnd(w, 0) == 0 && YearAt(w, 0) && SpaceRunEnd(w, 4) == 4;
    }
  }

  /** A title whose one pass leaves a non-empty title that the next pass empties
      witnesses that cleaning is not idempotent. */
  lemma CleanTwiceDiffers(t: string, u: string)
    requires CleanTitleFromYear(t) == u != "" && CleanTitleFromYear(u) == ""
    ensures exists w :: CleanTitleFromYear(CleanTitleFromYear(w)) != CleanTitleFromYear(w)
  {
    assert CleanTitleFromYear(CleanTitleFromYear(t)) != CleanTitleFromYear(t);
  }

  /** Cleaning is not idempotent: a second year behind the first survives one pass. */
  lemma CleanTitleNotIdempotent()
    ensures exists t :: CleanTitleFromYear(CleanTitleFromYear(t)) != CleanTitleFromYear(t)
  {
    CleanTitleFirstPass();
    CleanTitleSecondPass();
    CleanTwiceDiffers("1999 2000", "2000");
  }

  // ===== /<\/?[^>]+(>|$)/g ===================================================

  /** Index just past the first `>` at or after `from`, or `|s|` when there is none. */
  function TagEnd(s: string, from: nat): (e: nat)
    requires from <= |s|
    decreases |s| - from
    ensures from <= e <= |s|
    ensures e == |s| || (e > from && s[e - 1] == '>')
    ensures forall k :: from <= k < e - 1 ==> s[k] != '>'
    ensures e == |s| ==> forall k :: from <= k < |s| - 1 ==> s[k] != '>'
  {
    if from == |s| then from
    else if s[from] == '>' then from + 1
    else TagEnd(s, from + 1)
  }

  /** Every `<` is the last character or is directly followed by `>`, so the tag
      pattern matches nowhere. */
  predicate NoTagStart(s: string) {
    forall k :: 0 <= k < |s| && s[k] == '<' ==> k == |s| - 1 || s[k + 1] == '>'
  }

  /** The global replace with `""`. A match starts at a `<` that is followed by a
      character other than `>` (the optional `/` changes nothing: `[^>]+` would
      consume it anyway) and runs to the next `>` inclusive, or to the end. */
  function StripTags(s: string): (r: string)
    decreases |s|
    ensures |r| <= |s|
    ensures (forall k :: 0 <= k < |s| ==> s[k] != '<') ==> r == s
    ensures |s| > 0 && s[0] != '<' ==> |r| > 0 && r[0] == s[0]
    ensures NoTagStart(r)
  {
    if s == [] then []
    else if s[0] == '<' && |s| >= 2 && s[1] != '>' then StripTags(s[TagEnd(s, 1)..])
    else
      var rest := StripTags(s[1..]);
      assert |s| >= 2 ==> s[1..][0] == s[1];
      [s[0]] + rest
  }

  /** `stripHtml`: `""` for a missing or empty string, else the tags removed. */
  function StripHtml(html: Option<string>): (r: string)
    ensures !Truthy(html) ==> r == ""
    ensures Truthy(html) ==> |r| <= |html.value| && NoTagStart(r)
    ensures Truthy(html) && (forall k :: 0 <= k < |html.value| ==> html.value[k] != '<') ==> r == html.value
  {
    if !Truthy(html) then "" else StripTags(html.value)
  }

  /** A string with no tag start is left alone. */
  lemma {:induction false} StripTagsFixpoint(s: string)
    requires NoTagStart(s)
    ensures StripTags(s) == s
  {
    if s != [] {
      assert NoTagStart(s[1..]) by {
        forall k | 0 <= k < |s[1..]| && s[1..][k] == '<'
          ensures k == |s[1..]| - 1 || s[1..][k + 1] == '>'
        {
          assert s[k + 1] == '<';
        }
      }
      StripTagsFixpoint(s[1..]);
      assert s == [s[0]] + s[1..];
    }
  }

  /** Stripping twice strips nothing more. */
  lemma StripTagsIdempotent(s: string)
    ensures StripTags(StripTags(s)) == StripTags(s)
  {
    StripTagsFixpoint(StripTags(s));
  }

  // ===== formatRuntime ========================================================

  /** JavaScript's `%`, which truncates toward zero (Dafny's is Euclidean). */
  function JsRem(a: int, b: int): (r: int)
    requires b > 0
    ensures a >= 0 ==> r == a % b
    ensures a < 0 ==> -b < r <= 0
  {
    if a >= 0 then a % b else -((-a) % b)
  }

  /** `formatRuntime` on an integer (or missing) number of minutes. `Math.floor(r / 60)`
      is Dafny's `r / 60`, which rounds toward minus infinity for a positive divisor. */
  function FormatRuntime(runtime: Option<int>): (r: string)
    ensures !IntTruthy(runtime) ==> r == "N/A"
    ensures IntTruthy(runtime) && 0 < runtime.value < 60 ==> r == NatToString(runtime.value) + "m"
    ensures IntTruthy(runtime) && runtime.value >= 60 ==>
      var n := runtime.value;
      r == NatToString(n / 60) + "h " + (if n % 60 > 0 then NatToString(n % 60) + "m" else "")
    ensures IntTruthy(runtime) && runtime.value < 0 ==> r == IntToString(runtime.value / 60) + "h "
  {
    if !IntTruthy(runtime) then "N/A"
    else
      var n := runtime.value;
      var hours := n / 60;
      var minutes := JsRem(n, 60);
      if hours == 0 then IntToString(minutes) + "m"
      else IntToString(hours) + "h " + (if minutes > 0 then IntToString(minutes) + "m" else "")
  }

  lemma FormatRuntimeExamples()
    ensures FormatRuntime(Some(138)) == "2h 18m"
    ensures FormatRuntime(Some(45)) == "45m"
    ensures FormatRuntime(Some(60)) == "1h "
    ensures FormatRuntime(Some(0)) == "N/A"
    ensures FormatRuntime(None) == "N/A"
  {
    assert NatToString(2) == "2" && NatToString(18) == "18" && NatToString(45) == "45";
    assert NatToString(1) == "1";
  }

  /** Reads a label `formatRuntime` produces back into minutes: `"<m>m"`,
      `"<h>h "` or `"<h>h <m>m"`. */
  function ParseRuntimeLabel(s: string): Option<nat> {
    var a := DigitPrefixLength(s);
    if a == 0 then None
    else
      var n := DigitsValue(s[..a]);
      var rest := s[a..];
      if rest == "m" then Some(n)
      else if |rest| >= 2 && rest[..2] == "h " then
        var tail := rest[2..];
        var b := DigitPrefixLength(tail);
        if tail == "" then Some(60 * n)
        else if b > 0 && tail[b..] == "m" then Some(60 * n + DigitsValue(tail[..b]))
        else None
      else None
  }

  /** The digit prefix of a numeral followed by a non-digit is that numeral. */
  lemma {:induction false} DigitPrefixOfNumeral(d: string, t: string)
    requires AllDigits(d)
    requires t == [] || !IsDigit(t[0])
    ensures DigitPrefixLength(d + t) == |d|
    ensures (d + t)[..|d|] == d && (d + t)[|d|..] == t
  {
    if d != [] {
      assert (d + t)[1..] == d[1..] + t;
      DigitPrefixOfNumeral(d[1..], t);
    }
  }

  /** A positive runtime's label reads back as the same number of minutes, so
      different runtimes get different labels. */
  lemma FormatRuntimeRoundTrip(n: nat)
    requires n > 0
    ensures ParseRuntimeLabel(FormatRuntime(Some(n))) == Some(n)
  {
    var s := FormatRuntime(Some(n));
    if n < 60 {
      DigitPrefixOfNumeral(NatToString(n), "m");
      DigitsValueOfNatToString(n);
    } else {
      var h := NatToString(n / 60);
      var tail := if n % 60 > 0 then NatToString(n % 60) + "m" else "";
      assert s == h + ("h " + tail);
      DigitPrefixOfNumeral(h, "h " + tail);
      DigitsValueOfNatToString(n / 60);
      assert s[|h|..][2..] == tail;
      if n % 60 > 0 {
        DigitPrefixOfNumeral(NatToString(n % 60), "m");
        DigitsValueOfNatToString(n % 60);
      }
    }
  }

  // ===== parseDuration: /(\d+)H/ and /(\d+)M/ =================================

  /** The end of the digit run that starts at `p`. */
  function DigitRunEnd(s: string, p: nat): (e: nat)
    requires p <= |s|
    decreases |s| - p
    ensures p <= e <= |s|
    ensures forall k :: p <= k < e ==> IsDigit(s[k])
    ensures e < |s| ==> !IsDigit(s[e])
  {
    if p == |s| || !IsDigit(s[p]) then p else DigitRunEnd(s, p + 1)
  }

  /** `(\d+)c` matches at `p`. The greedy run ends at a non-digit; giving digits
      back cannot help because `c` is not a digit. */
  predicate DigitsBeforeAt(s: string, c: char, p: nat) {
    p < |s| && IsDigit(s[p]) && DigitRunEnd(s, p) < |s| && s[DigitRunEnd(s, p)] == c
  }

  /** The leftmost match of `(\d+)c` at or after `from`, as the bounds of the group. */
  function FindDigitsBefore(s: string, c: char, from: nat): (r: Option<(nat, nat)>)
    decreases |s| - from
    ensures r.Some? ==> from <= r.value.0 < |s| && DigitsBeforeAt(s, c, r.value.0)
    ensures r.Some? ==> r.value.1 == DigitRunEnd(s, r.value.0)
    ensures r.Some? ==> forall j: nat :: from <= j < r.value.0 ==> !DigitsBeforeAt(s, c, j)
    ensures r.None? ==> forall j: nat :: from <= j ==> !DigitsBeforeAt(s, c, j)
  {
    if from >= |s| then None
    else if DigitsBeforeAt(s, c, from) then Some((from, DigitRunEnd(s, from)))
    else FindDigitsBefore(s, c, from + 1)
  }

  /** `parseInt` of the captured group, or 0 when the pattern does not match. */
  function DesignatorValue(s: string, c: char): nat {
    match FindDigitsBefore(s, c, 0)
    case None => 0
    case Some((p, e)) => DigitsValue(s[p..e])
  }

  /** `parseDuration`: 60 times the digits before `H` plus the digits before `M`,
      or `null` when that sum is 0 or the input is missing or empty. A month `M`
      counts as minutes. */
  function ParseDuration(duration: Option<string>): (r: Option<nat>)
    ensures !Truthy(duration) ==> r.None?
    ensures Truthy(duration) ==>
      var total := 60 * DesignatorValue(duration.value, 'H') + DesignatorValue(duration.value, 'M');
      r == if total == 0 then None else Some(total)
    ensures r.Some? ==> r.value > 0
  {
    if !Truthy(duration) then None
    else
      var s := duration.value;
      var minutes := 60 * DesignatorValue(s, 'H') + DesignatorValue(s, 'M');
      if minutes == 0 then None else Some(minutes)
  }

  /** If `p` is the first match position, the search finds it. */
  lemma FindDigitsBeforeAt(s: string, c: char, from: nat, p: nat)
    requires from <= p && DigitsBeforeAt(s, c, p)
    requires forall j: nat :: from <= j < p ==> !DigitsBeforeAt(s, c, j)
    ensures FindDigitsBefore(s, c, from) == Some((p, DigitRunEnd(s, p)))
  {
    var r := FindDigitsBefore(s, c, from);
    assert r.Some?;
    if r.value.0 < p {
      assert false;
    } else if r.value.0 > p {
      assert false;
    }
  }

  /** The run that starts anywhere inside a digit block ends where the block ends. */
  lemma DigitRunEndInBlock(s: string, a: nat, b: nat, j: nat)
    requires a <= j < b < |s| || a <= j < b == |s|
    requires forall k :: a <= k < b ==> IsDigit(s[k])
    requires b < |s| ==> !IsDigit(s[b])
    ensures DigitRunEnd(s, j) == b
    decreases b - j
  {
    if j + 1 < b {
      DigitRunEndInBlock(s, a, b, j + 1);
    }
  }

  /** The group of `(\d+)c` found by the search is a digit block `[p, e)` with
      no match before it. */
  lemma DesignatorFromBlock(s: string, c: char, p: nat, e: nat)
    requires p < e < |s| && s[e] == c && !IsDigit(c)
    requires forall k :: p <= k < e ==> IsDigit(s[k])
    requires forall j: nat :: j < p ==> !DigitsBeforeAt(s, c, j)
    ensures DesignatorValue(s, c) == DigitsValue(s[p..e])
  {
    DigitRunEndInBlock(s, p, e, p);
    FindDigitsBeforeAt(s, c, 0, p);
  }

  /** The layout of `PT<h>H<m>M`. */
  lemma DesignatorLayout(hs: string, ms: string)
    ensures var s := "PT" + hs + "H" + ms + "M";
      && |s| == |hs| + |ms| + 4
      && s[0] == 'P' && s[1] == 'T' && s[|hs| + 2] == 'H' && s[|hs| + |ms| + 3] == 'M'
      && s[2..|hs| + 2] == hs && s[|hs| + 3..|hs| + |ms| + 3] == ms
  {
    var s := "PT" + hs + "H" + ms + "M";
    assert s == ("PT" + hs) + ("H" + ms + "M");
    assert s[2..|hs| + 2] == hs;
    assert s[|hs| + 3..|hs| + |ms| + 3] == ms;
  }

  lemma HoursOfDesignators(hs: string, ms: string)
    requires hs != [] && AllDigits(hs) && ms != [] && AllDigits(ms)
    ensures DesignatorValue("PT" + hs + "H" + ms + "M", 'H') == DigitsValue(hs)
  {
    var s := "PT" + hs + "H" + ms + "M";
    DesignatorLayout(hs, ms);
    assert forall k :: 2 <= k < |hs| + 2 ==> IsDigit(s[k]) by {
      forall k | 2 <= k < |hs| + 2 ensures IsDigit(s[k]) {
        assert s[k] == s[2..|hs| + 2][k - 2];
      }
    }
    DesignatorFromBlock(s, 'H', 2, |hs| + 2);
  }

  lemma MinutesOfDesignators(hs: string, ms: string)
    requires hs != [] && AllDigits(hs) && ms != [] && AllDigits(ms)
    ensures DesignatorValue("PT" + hs + "H" + ms + "M", 'M') == DigitsValue(ms)
  {
    var s := "PT" + hs + "H" + ms + "M";
    DesignatorLayout(hs, ms);
    var hEnd := |hs| + 2;
    var mStart := hEnd + 1;
    assert forall k :: 2 <= k < hEnd ==> IsDigit(s[k]) by {
      forall k | 2 <= k < hEnd ensures IsDigit(s[k]) {
        assert s[k] == s[2..hEnd][k - 2];
      }
    }
    assert forall k :: mStart <= k < mStart + |ms| ==> IsDigit(s[k]) by {
      forall k | mStart <= k < mStart + |ms| ensures IsDigit(s[k]) {
        assert s[k] == s[mStart..mStart + |ms|][k - mStart];
      }
    }
    forall j: nat | j < mStart
      ensures !DigitsBeforeAt(s, 'M', j)
    {
      if 2 <= j < hEnd {
        DigitRunEndInBlock(s, 2, hEnd, j);
      }
    }
    DesignatorFromBlock(s, 'M', mStart, mStart + |ms|);
  }

  /** `PT<h>H<m>M` parses to `60*h + m` minutes, and to `null` when that is 0. */
  lemma ParseDurationDesignators(h: nat, m: nat)
    ensures var total := 60 * h + m;
      ParseDuration(Some("PT" + NatToString(h) + "H" + NatToString(m) + "M")) == if total == 0 then None else Some(total)
  {
    var hs, ms := NatToString(h), NatToString(m);
    HoursOfDesignators(hs, ms);
    MinutesOfDesignators(hs, ms);
    DigitsValueOfNatToString(h);
    DigitsValueOfNatToString(m);
    ParseDurationOf("PT" + hs + "H" + ms + "M", h, m);
  }

  lemma ParseDurationOf(s: string, h: nat, m: nat)
    requires s != "" && DesignatorValue(s, 'H') == h && DesignatorValue(s, 'M') == m
    ensures ParseDuration(Some(s)) == if 60 * h + m == 0 then None else Some(60 * h + m)
  {
  }

  /** A month designator is read as minutes. */
  lemma MonthReadAsMinutes()
    ensures ParseDuration(Some("P1M")) == Some(1)
  {
    var s := "P1M";
    assert DigitRunEnd(s, 1) == 2;
    FindDigitsBeforeAt(s, 'M', 0, 1);
    assert !DigitsBeforeAt(s, 'H', 1) && !DigitsBeforeAt(s, 'H', 0) && !DigitsBeforeAt(s, 'H', 2);
    assert s[1..2] == "1";
  }

  // ===== convertTVMazeShow ====================================================

  /** `convertTVMazeShow`: a TVMaze show in the app's item shape. */
  function ConvertTVMazeShow(show: Option<Show>): (r: Option<Item>)
    ensures show.None? <==> r.None?
    ensures show.Some? ==>
      var s := show.value;
      var it := r.value;
      && it.id == Some(JNum(s.id))
      && it.imdbId == Some(if Truthy(s.imdb) then s.imdb.value else "tvmaze-" + IntToString(s.id))
      && it.title == s.name
      && it.description == Some(StripHtml(s.summary))
      && it.poster == (if Truthy(OriginalOf(s.image)) then OriginalOf(s.image) else MediumOf(s.image))
      && it.rating == (if s.average.Some? then Some(Average(s.average.value)) else None)
      && it.genres == Some(s.genres.GetOr([]))
      && it.quality == Some("HD")
      && it.premiered == s.premiered && it.status == s.status
    ensures r.Some? ==>
      r.value.(id := None, imdbId := None, title := None, description := None, poster := None,
               rating := None, premiered := None, genres := None, status := None, quality := None) == Blank
  {
    match show
    case None => None
    case Some(s) =>
      Some(Blank.(
        id := Some(JNum(s.id)),
        imdbId := Some(OrElse(s.imdb, "tvmaze-" + IntToString(s.id))),
        title := s.name,
        description := Some(StripHtml(s.summary)),
        poster := Or(OriginalOf(s.image), MediumOf(s.image)),
        rating := if s.average.Some? then Some(Average(s.average.value)) else None,
        premiered := s.premiered,
        genres := Some(if s.genres.Some? then s.genres.value else []),
        status := s.status,
        quality := Some("HD")))
  }

  // ===== isImdbId / isTVMazeId / extractId ===================================

  /** `/^tt\d+$/`. */
  predicate IsImdbId(id: string) {
    |id| >= 3 && id[..2] == "tt" && AllDigits(id[2..])
  }

  /** `/^tvmaze-\d+$/`. */
  predicate IsTVMazeId(id: string) {
    |id| >= 8 && id[..7] == "tvmaze-" && AllDigits(id[7..])
  }

  /** No identifier is of both kinds. */
  lemma IdKindsDisjoint(id: string)
    ensures !(IsImdbId(id) && IsTVMazeId(id))
  {
    if IsImdbId(id) {
      assert id[1] == id[..2][1] == 't';
    }
    if IsTVMazeId(id) {
      assert id[1] == id[..7][1] == 'v';
    }
  }

  /** `extractId`: unwraps `tvmaze-<digits>` (the first `tvmaze-` of such a string
      is its prefix, which `replace` removes) and returns anything else as it is. */
  function ExtractId(id: string): (r: string)
    ensures r == id <==> !IsTVMazeId(id)
    ensures IsTVMazeId(id) ==> "tvmaze-" + r == id && r != "" && AllDigits(r)
  {
    if IsImdbId(id) then
      IdKindsDisjoint(id);
      id
    else if IsTVMazeId(id) then id[7..]
    else id
  }

  lemma ExtractIdUnwraps(digits: string)
    requires digits != "" && AllDigits(digits)
    ensures ExtractId("tvmaze-" + digits) == digits
  {
    var id := "tvmaze-" + digits;
    assert id[..7] == "tvmaze-" && id[7..] == digits;
  }

  /** A show converted without an IMDB id gets `tvmaze-<id>`, which `extractId`
      turns back into the decimal TVMaze id. */
  lemma ConvertedIdUnwraps(s: Show)
    requires s.id >= 0 && !Truthy(s.imdb)
    ensures ExtractId(ConvertTVMazeShow(Some(s)).value.imdbId.value) == NatToString(s.id)
  {
    ExtractIdUnwraps(NatToString(s.id));
  }
}
