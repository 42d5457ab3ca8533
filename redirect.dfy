/** The `/:slug` redirect handler of the Fastify API (api/src/redirect/redirect.route.ts). The link
    table is a map from slug to link and the clock is a parameter. Status codes follow RFC 9110:
    301 Moved Permanently (section 15.4.2), 404 Not Found and 410 Gone (section 15.5.11). */
module Redirect {
  import opened Common
  import Geo
  import ClickRecorder

  /** The selected columns of a link; `expiresAt` in milliseconds since the epoch. */
  datatype Link = Link(id: string, destinationUrl: string, expiresAt: Option<int>)

  datatype Outcome =
    | PassToNotFoundHandler                     // reply.callNotFound()
    | NotFound(error: string)                   // 404
    | Gone(error: string)                       // 410
    | MovedPermanently(location: string)        // 301

  const MsgNotFound: string := "Short link not found"
  const MsgExpired: string := "This link has expired"

  predicate IsSkippedSlug(slug: string)
  {
    slug == "api" || slug == "health" || slug == "favicon.ico"
  }

  /** A link is expired once its expiry lies strictly before `now`. */
  predicate Expired(link: Link, now: int)
  {
    link.expiresAt.Some? && link.expiresAt.value < now
  }

  /** The handler's response for `slug` at time `now`. */
  function Decide(slug: string, links: map<string, Link>, now: int): (r: Outcome)
    ensures IsSkippedSlug(slug) ==> r == PassToNotFoundHandler
    ensures !IsSkippedSlug(slug) && slug !in links ==> r == NotFound(MsgNotFound)
    ensures !IsSkippedSlug(slug) && slug in links && Expired(links[slug], now) ==> r == Gone(MsgExpired)
    ensures r.MovedPermanently? <==> !IsSkippedSlug(slug) && slug in links && !Expired(links[slug], now)
    ensures r.MovedPermanently? ==> r.location == links[slug].destinationUrl
  {
    if IsSkippedSlug(slug) then PassToNotFoundHandler
    else if slug !in links then NotFound(MsgNotFound)
    else if links[slug].expiresAt.Some? && links[slug].expiresAt.value < now then Gone(MsgExpired)
    else MovedPermanently(links[slug].destinationUrl)
  }

  /** An expiry equal to `now` still redirects; one millisecond earlier is gone. */
  lemma ExpiryBoundary(slug: string, link: Link, now: int)
    requires !IsSkippedSlug(slug)
    ensures Decide(slug, map[slug := link.(expiresAt := Some(now))], now) == MovedPermanently(link.destinationUrl)
    ensures Decide(slug, map[slug := link.(expiresAt := Some(now - 1))], now) == Gone(MsgExpired)
  {
  }

  /** The skipped slugs never reach the store: what the table holds does not matter. */
  lemma SkippedSlugsIgnoreStore(slug: string, a: map<string, Link>, b: map<string, Link>, now: int)
    requires IsSkippedSlug(slug)
    ensures Decide(slug, a, now) == Decide(slug, b, now) == PassToNotFoundHandler
  {
  }

  /** The handler: decide, then, on the redirect branch only, dispatch one click for the found
      link. The response is fixed before the recorder runs and does not depend on whether the
      recorder's insert succeeds. */
  method Handle(slug: string, links: map<string, Link>, now: int, req: ClickRecorder.RecorderRequest,
                recorder: ClickRecorder.EventStore, ua: string -> ClickRecorder.UaResult,
                lookup: string -> Option<Geo.GeoRecord>, createOk: bool) returns (r: Outcome)
    modifies recorder
    ensures r == Decide(slug, links, now)
    ensures r.MovedPermanently? ==>
      recorder.dispatched == old(recorder.dispatched) + [links[slug].id]
      && recorder.events ==
           old(recorder.events) + (if createOk then [ClickRecorder.EventFor(links[slug].id, req, ua, lookup)] else [])
    ensures !r.MovedPermanently? ==> recorder.dispatched == old(recorder.dispatched) && recorder.events == old(recorder.events)
  {
    if slug == "api" || slug == "health" || slug == "favicon.ico" {
      return PassToNotFoundHandler;
    }
    if slug !in links {
      return NotFound(MsgNotFound);
    }
    var link := links[slug];
    if link.expiresAt.Some? && link.expiresAt.value < now {
      return Gone(MsgExpired);
    }
    recorder.RecordClick(link.id, req, ua, lookup, createOk);
    r := MovedPermanently(link.destinationUrl);
  }
}
