/** The Next.js edge middleware (src/middleware.ts): a path that looks like a short-link slug is
    rewritten to `/api/r/{slug}`, everything else passes through. Only the function body is
    modelled; the `config.matcher` pattern Next.js applies before calling it is not. */
module Middleware {
  import opened Common

  const ExcludedPrefixes: seq<string> := ["/api", "/dashboard", "/_next", "/favicon"]

  datatype MiddlewareResult = Next | Rewrite(pathname: string)

  predicate IsExcluded(pathname: string)
  {
    exists i :: 0 <= i < |ExcludedPrefixes| && StartsWith(pathname, ExcludedPrefixes[i])
  }

  predicate IsSlugChar(c: char)
  {
    IsAsciiLetter(c) || IsDigit(c) || c == '_' || c == '-'
  }

  /** `SLUG_PATTERN` = `/^\/([a-zA-Z0-9_-]{1,64})$/` */
  predicate MatchesSlugPattern(pathname: string)
  {
    2 <= |pathname| <= 65 && pathname[0] == '/'
    && forall i :: 1 <= i < |pathname| ==> IsSlugChar(pathname[i])
  }

  /** `middleware(request)` (src/middleware.ts:19-45) on `request.nextUrl.pathname`. */
  function HandlePath(pathname: string): (r: MiddlewareResult)
    ensures r.Rewrite? <==> !IsExcluded(pathname) && pathname != "/" && MatchesSlugPattern(pathname)
    ensures r.Rewrite? ==> r.pathname == "/api/r/" + pathname[1..]
  {
    if IsExcluded(pathname) then Next
    else if pathname == "/" then Next
    else if !MatchesSlugPattern(pathname) then Next
    else Rewrite("/api/r/" + pathname[1..])
  }

  /** The exclusion is a prefix test: "/apiary" passes through although it fits the pattern. */
  lemma ApiaryPassesThrough()
    ensures MatchesSlugPattern("/apiary") && HandlePath("/apiary") == Next
  {
    assert StartsWith("/apiary", ExcludedPrefixes[0]);
  }

  /** The root test is subsumed by the pattern, which needs at least one slug character. */
  lemma RootNeverMatches()
    ensures !MatchesSlugPattern("/") && HandlePath("/") == Next
  {
  }

  /** A second '/', a '.', or more than 64 characters after the '/' prevent a rewrite. */
  lemma NotRewritten(pathname: string)
    requires |pathname| > 65 || (exists i :: 1 <= i < |pathname| && (pathname[i] == '/' || pathname[i] == '.'))
    ensures HandlePath(pathname) == Next
  {
  }

  /** A rewritten path starts with "/api", so running the middleware on its own output changes
      nothing further: the rewrite cannot loop. */
  lemma RewriteTargetPassesThrough(pathname: string)
    requires HandlePath(pathname).Rewrite?
    ensures HandlePath(HandlePath(pathname).pathname) == Next
  {
    var t := HandlePath(pathname).pathname;
    assert t[..4] == "/api";
    assert StartsWith(t, ExcludedPrefixes[0]);
  }

  /** The slug the rewrite carries is the path's 1-64 pattern characters. */
  lemma RewriteCarriesSlug(slug: string)
    requires 1 <= |slug| <= 64 && forall i :: 0 <= i < |slug| ==> IsSlugChar(slug[i])
    requires !IsExcluded("/" + slug)
    ensures HandlePath("/" + slug) == Rewrite("/api/r/" + slug)
  {
    var p := "/" + slug;
    assert p[1..] == slug;
    assert forall i :: 1 <= i < |p| ==> p[i] == slug[i - 1];
  }
}
