/** `src/app/_components/AppHeader.tsx`: the header as the layout mounts it. The
    location comes from the path `/feed/<country>/<city>` (or `/feed/<country>`), each
    segment decoded, trimmed and lower-cased, with Spain and Barcelona as defaults; the
    calendar is shown on feed pages and the suggest link is hidden on the gig form. The
    header configuration registered by the feed page is passed through and is a
    parameter here. */
module AppHeader {
  import opened Common
  import opened Text
  import opened Uri
  import Header

  const DefaultCountry := "es"
  const DefaultCity := "barcelona"
  const FeedPrefix := "/feed/"

  datatype Location = Location(country: string, city: string)

  /** `[^/]+` at the start of `s`, greedy: everything up to the first '/'. Empty when
      the group cannot match. */
  function Segment(s: string): (r: string)
    ensures |r| <= |s| && r == s[..|r|] && '/' !in r
    ensures |r| < |s| ==> s[|r|] == '/'
  {
    s[..IndexOf(s, '/')]
  }

  /** `/^\/feed\/([^/]+)(?:\/([^/]+))?/.exec(pathname)`: the two captures, the second
      absent when the first is not followed by '/' and a non-empty segment. The pattern
      is not anchored at the end, so whatever follows is ignored. */
  function MatchFeed(path: string): Option<(string, Option<string>)> {
    if !StartsWith(path, FeedPrefix) then None else Captures(path[|FeedPrefix|..])
  }

  /** The two groups of the pattern, matched against what follows `/feed/`. */
  function Captures(rest: string): Option<(string, Option<string>)> {
    var first := Segment(rest);
    if first == "" then None
    else
      var after := rest[|first|..];
      var second := if after == [] then "" else Segment(after[1..]);
      Some((first, if second == "" then None else Some(second)))
  }

  /** `decodeURIComponent(capture ?? '').trim().toLowerCase() || fallback`; None is the
      `URIError` of a malformed escape, which nothing catches. */
  function Part(capture: Option<string>, fallback: string): Option<string> {
    match DecodeComponent(capture.GetOr(""))
    case None => None
    case Some(decoded) =>
      var v := Lower(Trim(decoded));
      Some(if v == "" then fallback else v)
  }

  /** `getLocationFromPath`: the country is decoded before the city. */
  function LocationFromPath(path: string): Option<Location> {
    match MatchFeed(path)
    case None => Some(Location(DefaultCountry, DefaultCity))
    case Some((c1, c2)) =>
      var country := Part(Some(c1), DefaultCountry);
      if country.None? then None
      else
        var city := Part(c2, DefaultCity);
        if city.None? then None else Some(Location(country.value, city.value))
  }

  predicate NoUpper(s: string) {
    forall i :: 0 <= i < |s| ==> !('A' <= s[i] <= 'Z')
  }

  /** A part is missing exactly on a malformed escape; otherwise it is the decoded,
      trimmed text in lower case, or the fallback when that is empty. */
  lemma PartRules(capture: Option<string>, fallback: string)
    ensures Part(capture, fallback).None? <==> DecodeComponent(capture.GetOr("")).None?
    ensures Part(capture, fallback).Some? ==>
      var d := DecodeComponent(capture.GetOr("")).value;
      Part(capture, fallback).value == (if IsBlank(d) then fallback else Lower(Trim(d)))
    ensures capture.None? ==> Part(capture, fallback) == Some(fallback)
  {
    if capture.None? {
      assert DecodeComponent("") == Some("");
      assert IsBlank("");
    }
  }

  /** Every location is in lower case and has both parts. */
  lemma LocationWellFormed(path: string)
    ensures var l := LocationFromPath(path);
      l.Some? ==> l.value.country != "" && l.value.city != "" && NoUpper(l.value.country) && NoUpper(l.value.city)
  {
    var m := MatchFeed(path);
    assert NoUpper(DefaultCountry) && NoUpper(DefaultCity);
    if m.Some? {
      PartWellFormed(Some(m.value.0), DefaultCountry);
      PartWellFormed(m.value.1, DefaultCity);
    }
  }

  lemma PartWellFormed(capture: Option<string>, fallback: string)
    requires fallback != "" && NoUpper(fallback)
    ensures var r := Part(capture, fallback); r.Some? ==> r.value != "" && NoUpper(r.value)
  {
  }

  /** A path outside `/feed/<segment>`, including `/feed` and `/feed//…`, gives the
      defaults. */
  lemma OutsideFeedDefaults(path: string)
    requires !StartsWith(path, FeedPrefix) || (|path| > |FeedPrefix| && path[|FeedPrefix|] == '/')
    ensures LocationFromPath(path) == Some(Location(DefaultCountry, DefaultCity))
  {
    if StartsWith(path, FeedPrefix) {
      assert Segment(path[|FeedPrefix|..]) == "";
    }
  }

  /** `/feed/<a>/<b>` followed by anything that starts a new segment or ends the path:
      the captures are exactly the two segments, and what follows is ignored. */
  lemma MatchTwoSegments(a: string, b: string, rest: string)
    requires a != "" && '/' !in a && b != "" && '/' !in b
    requires rest == "" || rest[0] == '/'
    ensures MatchFeed(FeedPrefix + a + "/" + b + rest) == Some((a, Some(b)))
  {
    var tail := a + ("/" + b + rest);
    assert FeedPrefix + a + "/" + b + rest == FeedPrefix + tail;
    MatchAfterPrefix(tail);
    CapturesOfTwo(a, b, rest);
  }

  lemma MatchAfterPrefix(tail: string)
    ensures MatchFeed(FeedPrefix + tail) == Captures(tail)
  {
    assert (FeedPrefix + tail)[|FeedPrefix|..] == tail;
  }

  lemma CapturesOfTwo(a: string, b: string, rest: string)
    requires a != "" && '/' !in a && b != "" && '/' !in b
    requires rest == "" || rest[0] == '/'
    ensures Captures(a + ("/" + b + rest)) == Some((a, Some(b)))
  {
    SegmentOf(a, "/" + b + rest);
    assert (a + ("/" + b + rest))[|a|..] == "/" + b + rest;
    assert ("/" + b + rest)[1..] == b + rest;
    SegmentOf(b, rest);
  }

  /** A segment without '/' followed by the end or by '/' is matched whole. */
  lemma SegmentOf(a: string, rest: string)
    requires '/' !in a
    requires rest == "" || rest[0] == '/'
    ensures Segment(a + rest) == a
  {
    if rest == "" {
      assert a + rest == a;
    } else {
      assert (a + rest)[..|a|] == a;
      IndexOfAt(a + rest, '/', |a|);
    }
  }

  /** `/feed/<a>`, with or without a trailing '/': only the country is captured. */
  lemma MatchOneSegment(a: string, slash: bool)
    requires a != "" && '/' !in a
    ensures MatchFeed(FeedPrefix + a + (if slash then "/" else "")) == Some((a, None))
  {
    var tail := a + (if slash then "/" else "");
    assert FeedPrefix + a + (if slash then "/" else "") == FeedPrefix + tail;
    MatchAfterPrefix(tail);
    SegmentOf(a, if slash then "/" else "");
    assert tail[|a|..] == (if slash then "/" else "");
  }

  /** So the segments of the path, decoded, trimmed and lower-cased, are the location,
      and extra segments make no difference; a malformed escape in either segment makes
      the header throw. */
  lemma LocationOfSegments(a: string, b: string, rest: string)
    requires a != "" && '/' !in a && b != "" && '/' !in b
    requires rest == "" || rest[0] == '/'
    ensures var l := LocationFromPath(FeedPrefix + a + "/" + b + rest);
      (l.None? <==> DecodeComponent(a).None? || DecodeComponent(b).None?) &&
      (l.Some? ==> l == Some(Location(Part(Some(a), DefaultCountry).value, Part(Some(b), DefaultCity).value)))
    ensures LocationFromPath(FeedPrefix + a + "/" + b + rest) == LocationFromPath(FeedPrefix + a + "/" + b)
  {
    MatchTwoSegments(a, b, rest);
    MatchTwoSegments(a, b, "");
    assert FeedPrefix + a + "/" + b + "" == FeedPrefix + a + "/" + b;
  }

  /** The header's home link leads back to the same location: for a lower-case country
      and city without '/', '%' or surrounding white space, the path `HomeHref` builds
      is read as that country and city (Barcelona for an empty city). */
  lemma HomeHrefRoundTrip(country: string, city: string)
    requires country != "" && Plain(country)
    requires city == "" || Plain(city)
    ensures LocationFromPath(Header.HomeHref(country, city)) ==
      Some(Location(country, if city == "" then DefaultCity else city))
  {
    PlainReadsBack(country, DefaultCountry);
    if city == "" {
      MatchOneSegment(country, false);
      assert Header.HomeHref(country, city) == FeedPrefix + country + "";
    } else {
      PlainReadsBack(city, DefaultCity);
      MatchTwoSegments(country, city, "");
      assert Header.HomeHref(country, city) == FeedPrefix + country + "/" + city + "";
    }
  }

  /** A segment that decoding, trimming and lower-casing leave as it is. */
  predicate Plain(s: string) {
    '/' !in s && '%' !in s && NoUpper(s) && (s == [] || (!IsSpace(s[0]) && !IsSpace(s[|s| - 1])))
  }

  lemma PlainReadsBack(s: string, fallback: string)
    requires s != "" && Plain(s)
    ensures Part(Some(s), fallback) == Some(s)
  {
    DecodeWithoutPercent(s);
    TrimOfTrimmed(s);
    LowerOfLowerCase(s);
  }

  // ---------------------------------------------------------------- the header's switches

  /** `isFeed`. */
  predicate IsFeed(path: string) {
    path == "/feed" || StartsWith(path, "/feed/")
  }

  /** `isGigForm`. */
  predicate IsGigForm(path: string) {
    path == "/gig-form" || StartsWith(path, "/gig-form/")
  }

  /** The header's props for the path (`usePathname() ?? '/'`) and the registered feed
      configuration; None is the error a malformed escape throws. */
  function HeaderProps(pathname: Option<string>, earliestEventDate: Option<string>,
                       availableDates: Option<seq<string>>): Option<Header.Props> {
    var path := pathname.GetOr("/");
    match LocationFromPath(path)
    case None => None
    case Some(l) =>
      Some(Header.Props(l.country, l.city, Some(IsFeed(path)), Some(!IsGigForm(path)), earliestEventDate, availableDates))
  }

  /** The calendar is rendered exactly on feed paths and the suggest link exactly off
      gig-form paths; no path is both. Without a path, neither switch is off for the
      calendar (the root is not a feed page) and the location is the default. */
  lemma HeaderSwitches(pathname: Option<string>, earliest: Option<string>, dates: Option<seq<string>>, link: Option<string>)
    ensures var path := pathname.GetOr("/"); var p := HeaderProps(pathname, earliest, dates);
      p.Some? ==> ((Header.CalendarShown(p.value) <==> IsFeed(path)) &&
        (Header.SuggestGigUrl(p.value, link) == if IsGigForm(path) then None else link))
    ensures var path := pathname.GetOr("/"); !(IsFeed(path) && IsGigForm(path))
    ensures pathname.None? ==> (HeaderProps(pathname, earliest, dates) ==
      Some(Header.Props(DefaultCountry, DefaultCity, Some(false), Some(true), earliest, dates)))
  {
    var path := pathname.GetOr("/");
    if IsFeed(path) {
      assert path[1] == 'f';
      assert !IsGigForm(path);
    }
    if pathname.None? {
      OutsideFeedDefaults("/");
    }
  }
}
