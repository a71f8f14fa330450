/** `middleware.ts`: every page under `/feed` except the default feed redirects to the
    default feed, Barcelona in Spain, keeping the query string. */
module Middleware {
  import opened Common
  import opened Text
  import AppHeader
  import Header

  const DefaultFeedPath := "/feed/es/barcelona"

  /** The parts of `request.nextUrl` the middleware reads or writes; `rest` stands for
      everything else a clone copies (origin, hash, locale). */
  datatype Url = Url(rest: string, pathname: string, search: string)

  datatype Outcome = Next | Redirect(to: Url)

  /** `config.matcher: ['/feed/:path*']`: `/feed` and the paths below it. */
  predicate Matched(pathname: string) {
    pathname == "/feed" || StartsWith(pathname, "/feed/")
  }

  /** `middleware(request)` */
  function Middleware(u: Url): Outcome {
    if u.pathname == DefaultFeedPath || u.pathname == DefaultFeedPath + "/" then Next
    else Redirect(u.(pathname := DefaultFeedPath, search := u.search))
  }

  /** What a request meets: the middleware for a matched path, else nothing. */
  function Route(u: Url): Outcome {
    if Matched(u.pathname) then Middleware(u) else Next
  }

  /** Where the browser ends up: the request's URL, or the one it is redirected to. */
  function Landing(u: Url): Url {
    match Route(u)
    case Next => u
    case Redirect(to) => to
  }

  /** Every request under `/feed` lands, after at most one redirect, on the default
      feed (with or without its trailing '/') with its own query string and the rest of
      its URL; the landing page is let through. A default-feed request is not
      redirected at all. */
  lemma LandsOnDefaultFeed(u: Url)
    requires Matched(u.pathname)
    ensures Landing(u).pathname in {DefaultFeedPath, DefaultFeedPath + "/"}
    ensures Landing(u).search == u.search && Landing(u).rest == u.rest
    ensures Route(Landing(u)) == Next
    ensures u.pathname in {DefaultFeedPath, DefaultFeedPath + "/"} <==> Route(u) == Next
  {
    NoRedirectLoop(u);
  }

  /** The redirect target is itself let through, so there is no redirect loop; and a
      path outside `/feed` is never redirected. */
  lemma NoRedirectLoop(u: Url)
    ensures Middleware(u).Redirect? ==> Route(Middleware(u).to) == Next
    ensures !Matched(u.pathname) ==> Route(u) == Next
    ensures Matched(DefaultFeedPath)
  {
    assert DefaultFeedPath[..6] == "/feed/";
  }

  /** The page a redirect lands on shows Barcelona, Spain in the header. */
  lemma RedirectTargetLocation(u: Url)
    requires Middleware(u).Redirect?
    ensures AppHeader.LocationFromPath(Middleware(u).to.pathname) ==
      Some(AppHeader.Location(AppHeader.DefaultCountry, AppHeader.DefaultCity))
  {
    var country, city := Middleware(u).to.pathname[6..8], Middleware(u).to.pathname[9..];
    PlainSegments(country, city);
    AppHeader.HomeHrefRoundTrip(country, city);
    assert Header.HomeHref(country, city) == Middleware(u).to.pathname;
  }

  lemma PlainSegments(country: string, city: string)
    requires country == "es" && city == "barcelona"
    ensures AppHeader.Plain(country) && AppHeader.Plain(city)
  {
    assert forall i :: 0 <= i < |city| ==> 'a' <= city[i] <= 'z';
    assert forall i :: 0 <= i < |country| ==> 'a' <= country[i] <= 'z';
  }
}
