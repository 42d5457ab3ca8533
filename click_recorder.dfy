/** Click recording of the Fastify API (api/src/redirect/click.recorder.ts). `recordClick`
    returns at once; the detached closure derives the row and makes one `clickEvent.create`.
    Here the closure runs to completion inside the call, its insert has an `ok` outcome, and
    no error leaves it. The user-agent parser and `geoip.lookup` are parameters. */
module ClickRecorder {
  import opened Common
  import Geo

  /** A Node header value: a string, or a list when the header was repeated. */
  datatype HeaderField = Single(s: string) | Multiple(values: seq<string>)

  /** The parts of the Fastify request the recorder reads. */
  datatype RecorderRequest = RecorderRequest(
    forwardedFor: Option<HeaderField>, userAgent: Option<string>,
    referer: Option<string>, referrer: Option<string>, ip: string)

  /** What `new UAParser(ua).getResult()` reports; `None` stands for `undefined`. */
  datatype UaResult = UaResult(browser: Option<string>, os: Option<string>, deviceType: Option<string>)

  /** A `ClickEvent` row; `None` is SQL null. */
  datatype ClickEvent = ClickEvent(
    linkId: string, ip: string, userAgent: Option<string>, browser: Option<string>, os: Option<string>,
    deviceType: string, referrer: Option<string>, country: Option<string>, city: Option<string>)

  /** The IP the closure records (click.recorder.ts:14-16): the trimmed first segment of a
      string `x-forwarded-for`, else the socket address; "unknown" when that is empty. */
  function RecordedIp(req: RecorderRequest): (ip: string)
    ensures ip != []
    ensures req.forwardedFor.None? || req.forwardedFor.value.Multiple? ==>
      ip == (if req.ip != [] then req.ip else "unknown")
    ensures req.forwardedFor.Some? && req.forwardedFor.value.Single? ==>
      var first := Trim(BeforeFirst(req.forwardedFor.value.s, ','));
      ip == (if first != [] then first else "unknown")
  {
    var candidate :=
      match req.forwardedFor
      case Some(Single(f)) => Trim(BeforeFirst(f, ','))
      case _ => req.ip;
    if candidate != [] then candidate else "unknown"
  }

  /** A string `x-forwarded-for` decides the IP by its first segment, whatever the socket
      address: the segment trimmed, or "unknown" when it is blank. */
  lemma ForwardedFirstSegment(req: RecorderRequest, first: string, rest: Option<string>)
    requires !ContainsChar(first, ',')
    requires req.forwardedFor == Some(Single(if rest.Some? then first + "," + rest.value else first))
    ensures (forall i :: 0 <= i < |first| ==> IsJsWhitespace(first[i])) ==> RecordedIp(req) == "unknown"
    ensures !(forall i :: 0 <= i < |first| ==> IsJsWhitespace(first[i])) ==> RecordedIp(req) == Trim(first)
  {
    var f := req.forwardedFor.value.s;
    if rest.Some? {
      BeforeFirstOfPrefix(first, ',', rest.value);
      assert f == first + [','] + rest.value;
    } else {
      BeforeFirstOfPrefix(first, ',', "");
    }
    assert BeforeFirst(f, ',') == first;
    var t := Trim(first);
    assert RecordedIp(req) == (if t != [] then t else "unknown");
    TrimEmptyIffAllWhitespace(first);
  }

  /** The geo lookup runs only for a real address. */
  predicate LooksUp(ip: string)
  {
    ip != [] && ip != "unknown" && ip != "127.0.0.1" && ip != "::1"
  }

  /** The row the closure inserts (click.recorder.ts:14-48). */
  function EventFor(linkId: string, req: RecorderRequest, ua: string -> UaResult,
                    lookup: string -> Option<Geo.GeoRecord>): (e: ClickEvent)
    ensures e.linkId == linkId && e.ip == RecordedIp(req)
    ensures !LooksUp(e.ip) ==> e.country.None? && e.city.None?
    ensures LooksUp(e.ip) && lookup(e.ip).Some? ==>
      e.country == OrNull(Some(lookup(e.ip).value.country)) && e.city == OrNull(Some(lookup(e.ip).value.city))
    ensures LooksUp(e.ip) && lookup(e.ip).None? ==> e.country.None? && e.city.None?
    ensures e.userAgent == OrNull(req.userAgent)
    ensures var info := ua(if req.userAgent.Some? then req.userAgent.value else "");
      e.browser == OrNull(info.browser) && e.os == OrNull(info.os)
      && e.deviceType == (if OrNull(info.deviceType).Some? then info.deviceType.value else "desktop")
    ensures e.referrer == (if OrNull(req.referer).Some? then req.referer else OrNull(req.referrer))
  {
    var ip := RecordedIp(req);
    var uaString := if req.userAgent.Some? then req.userAgent.value else "";
    var r := ua(uaString);
    var deviceType := if r.deviceType.Some? && r.deviceType.value != [] then r.deviceType.value else "desktop";
    var referrer := if OrNull(req.referer).Some? then req.referer else OrNull(req.referrer);
    var geo := if LooksUp(ip) then lookup(ip) else None;
    var country := if geo.Some? then OrNull(Some(geo.value.country)) else None;
    var city := if geo.Some? then OrNull(Some(geo.value.city)) else None;
    ClickEvent(linkId, ip, OrNull(Some(uaString)), OrNull(r.browser), OrNull(r.os), deviceType, referrer, country, city)
  }

  /** Loopback and "unknown" addresses never reach the geo database. */
  lemma LoopbackNotLookedUp(linkId: string, req: RecorderRequest, ua: string -> UaResult,
                            l1: string -> Option<Geo.GeoRecord>, l2: string -> Option<Geo.GeoRecord>)
    requires RecordedIp(req) in {"unknown", "127.0.0.1", "::1"}
    ensures EventFor(linkId, req, ua, l1) == EventFor(linkId, req, ua, l2)
    ensures EventFor(linkId, req, ua, l1).country.None? && EventFor(linkId, req, ua, l1).city.None?
  {
  }

  /** The `clickEvent` table, and the link ids `recordClick` was called with. */
  class EventStore {
    var events: seq<ClickEvent>
    ghost var dispatched: seq<string>

    constructor()
      ensures events == [] && dispatched == []
    {
      events := [];
      dispatched := [];
    }

    /** `recordClick(linkId, req)`: one `clickEvent.create` and no link counter; a failed create
        is swallowed. */
    method RecordClick(linkId: string, req: RecorderRequest, ua: string -> UaResult,
                       lookup: string -> Option<Geo.GeoRecord>, createOk: bool)
      modifies this
      ensures events == old(events) + (if createOk then [EventFor(linkId, req, ua, lookup)] else [])
      ensures dispatched == old(dispatched) + [linkId]
    {
      dispatched := dispatched + [linkId];
      var ev := EventFor(linkId, req, ua, lookup);
      if createOk {
        events := events + [ev];
      }
    }
  }
}
