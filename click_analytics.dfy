/** Click recording of the Next.js backend (src/lib/analytics.ts): IP, device, referrer and
    country are derived from the request, then a click row is inserted and the link's
    `clickCount` incremented. The user-agent parser, the geoip database, `crypto.randomUUID` and
    the clock are parameters; the two database writes are sequential here and each has its own
    `ok` outcome. Request headers are a map from lower-case name to value. */
module ClickAnalytics {
  import opened Common
  import Geo

  datatype ClickRequest = ClickRequest(headers: map<string, string>, ip: Option<string>)

  /** `headers.get(name)`, with the empty string and a missing header both falsy. */
  function HeaderValue(headers: map<string, string>, name: string): (r: Option<string>)
    ensures r.Some? <==> name in headers && headers[name] != []
    ensures r.Some? ==> r.value == headers[name]
  {
    if name in headers && headers[name] != [] then Some(headers[name]) else None
  }

  /** `extractIp(req)` (src/lib/analytics.ts:16-27): the first segment of `x-forwarded-for`,
      else `x-real-ip`, both trimmed, else the socket address, else "0.0.0.0". */
  function ExtractIp(req: ClickRequest): (r: string)
    ensures HeaderValue(req.headers, "x-forwarded-for").Some? ==>
      var f := HeaderValue(req.headers, "x-forwarded-for").value;
      r == Trim(BeforeFirst(f, ',')) && !ContainsChar(r, ',')
    ensures HeaderValue(req.headers, "x-forwarded-for").None? && HeaderValue(req.headers, "x-real-ip").Some? ==>
      r == Trim(req.headers["x-real-ip"])
    ensures HeaderValue(req.headers, "x-forwarded-for").None? && HeaderValue(req.headers, "x-real-ip").None? ==>
      r == (if req.ip.Some? && req.ip.value != [] then req.ip.value else "0.0.0.0")
    ensures r == [] ==>
      HeaderValue(req.headers, "x-forwarded-for").Some? || HeaderValue(req.headers, "x-real-ip").Some?
  {
    match HeaderValue(req.headers, "x-forwarded-for")
    case Some(forwarded) =>
      var first := BeforeFirst(forwarded, ',');
      assert !ContainsChar(first, ',');
      TrimAddsNoChar(first, ',');
      Trim(first)
    case None =>
      match HeaderValue(req.headers, "x-real-ip")
      case Some(realIp) => Trim(realIp)
      case None => if req.ip.Some? && req.ip.value != [] then req.ip.value else "0.0.0.0"
  }

  /** A non-empty `x-forwarded-for` decides the IP: a single address as sent, or the first of a
      comma-separated list, trimmed either way. */
  lemma ForwardedForWins(req: ClickRequest, first: string, rest: Option<string>)
    requires !ContainsChar(first, ',')
    requires "x-forwarded-for" in req.headers
    requires req.headers["x-forwarded-for"] == if rest.Some? then first + "," + rest.value else first
    requires req.headers["x-forwarded-for"] != []
    ensures ExtractIp(req) == Trim(first)
  {
    BeforeFirstOfPrefix(first, ',', if rest.Some? then rest.value else "");
  }

  /** Without `x-forwarded-for`, a non-empty `x-real-ip` (trimmed) is next, then `req.ip`, then
      "0.0.0.0". */
  lemma IpFallbackOrder(req: ClickRequest)
    requires HeaderValue(req.headers, "x-forwarded-for").None?
    ensures HeaderValue(req.headers, "x-real-ip").Some? ==> ExtractIp(req) == Trim(req.headers["x-real-ip"])
    ensures HeaderValue(req.headers, "x-real-ip").None? ==>
      ExtractIp(req) == (if req.ip.Some? && req.ip.value != [] then req.ip.value else "0.0.0.0")
  {
  }

  /** What the user-agent parser reports; `None` stands for `undefined`. */
  datatype UaInfo = UaInfo(deviceType: Option<string>, browser: Option<string>, os: Option<string>)

  /** `parseDeviceType(ua)` (src/lib/analytics.ts:33-43) on the parser's `device.type`. */
  function ParseDeviceType(deviceType: Option<string>): (r: string)
    ensures r != []
    ensures deviceType.None? || deviceType == Some("") ==> r == "desktop"
    ensures deviceType.Some? && deviceType.value != [] ==> r == deviceType.value
  {
    if deviceType == Some("mobile") then "mobile"
    else if deviceType == Some("tablet") then "tablet"
    else if deviceType.None? || deviceType.value == [] then "desktop"
    else deviceType.value
  }

  /** The function never invents "unknown", whatever its doc comment says: that label comes
      out only when the parser itself reports it. */
  lemma DeviceTypeNeverUnknown(deviceType: Option<string>)
    ensures ParseDeviceType(deviceType) == "unknown" ==> deviceType == Some("unknown")
    ensures ParseDeviceType(deviceType) in {"mobile", "tablet", "desktop"}
      || Some(ParseDeviceType(deviceType)) == deviceType
  {
  }

  /** A row of the `clicks` table. */
  datatype Click = Click(id: string, linkId: string, ip: string, userAgent: string, referrer: Option<string>,
                         device: string, browser: Option<string>, os: Option<string>, country: Option<string>,
                         createdAt: int)

  /** The row `recordClick` inserts (src/lib/analytics.ts:60-84). */
  function ClickRow(linkId: string, req: ClickRequest, ua: string -> UaInfo, lookup: string -> Option<Geo.GeoRecord>,
                    rowId: string, now: int): (c: Click)
    ensures c.linkId == linkId && c.id == rowId && c.createdAt == now
    ensures c.ip == ExtractIp(req) && c.country == Geo.GetCountry(c.ip, lookup)
    ensures c.userAgent == (if "user-agent" in req.headers then req.headers["user-agent"] else "")
    ensures c.referrer ==
      (if HeaderValue(req.headers, "referer").Some? then HeaderValue(req.headers, "referer")
       else HeaderValue(req.headers, "referrer"))
    ensures c.device == ParseDeviceType(ua(c.userAgent).deviceType)
    ensures c.browser == OrNull(ua(c.userAgent).browser) && c.os == OrNull(ua(c.userAgent).os)
  {
    var ip := ExtractIp(req);
    var userAgent := if "user-agent" in req.headers then req.headers["user-agent"] else "";
    var referrer := if HeaderValue(req.headers, "referer").Some? then HeaderValue(req.headers, "referer")
                    else HeaderValue(req.headers, "referrer");
    var info := ua(userAgent);
    Click(rowId, linkId, ip, userAgent, referrer, ParseDeviceType(info.deviceType),
          OrNull(info.browser), OrNull(info.os), Geo.GetCountry(ip, lookup), now)
  }

  /** Number of rows for a link. */
  function CountFor(clicks: seq<Click>, linkId: string): nat
  {
    if clicks == [] then 0
    else (if clicks[|clicks| - 1].linkId == linkId then 1 else 0) + CountFor(clicks[..|clicks| - 1], linkId)
  }

  /** The `clicks` rows and the `links.clickCount` column the recorder writes. */
  class ClickDb {
    var clicks: seq<Click>
    var clickCount: map<string, int>

    /** Every link's counter equals its number of click rows. */
    ghost predicate Consistent()
      reads this
    {
      forall id :: id in clickCount ==> clickCount[id] == CountFor(clicks, id)
    }

    constructor()
      ensures clicks == [] && clickCount == map[] && Consistent()
    {
      clicks := [];
      clickCount := map[];
    }

    /** `recordClick(linkId, request)` (src/lib/analytics.ts:55-94): never raises. The insert and
        the `clickCount + 1` update are independent: either may land without the other. An
        update for an id that is not in `links` matches no row. */
    method RecordClick(linkId: string, req: ClickRequest, ua: string -> UaInfo,
                       lookup: string -> Option<Geo.GeoRecord>, rowId: string, now: int,
                       insertOk: bool, updateOk: bool)
      modifies this
      ensures clicks == old(clicks) + (if insertOk then [ClickRow(linkId, req, ua, lookup, rowId, now)] else [])
      ensures clickCount ==
        if updateOk && linkId in old(clickCount) then old(clickCount)[linkId := old(clickCount)[linkId] + 1]
        else old(clickCount)
      ensures old(Consistent()) && insertOk && updateOk && linkId in old(clickCount) ==> Consistent()
    {
      Write(linkId, ClickRow(linkId, req, ua, lookup, rowId, now), insertOk, updateOk);
    }

    /** The two writes for one prepared row: the insert, then the increment of its link's
        counter, each on its own outcome. */
    method Write(linkId: string, row: Click, insertOk: bool, updateOk: bool)
      requires row.linkId == linkId
      modifies this
      ensures clicks == old(clicks) + (if insertOk then [row] else [])
      ensures clickCount ==
        if updateOk && linkId in old(clickCount) then old(clickCount)[linkId := old(clickCount)[linkId] + 1]
        else old(clickCount)
      ensures old(Consistent()) && insertOk && updateOk && linkId in old(clickCount) ==> Consistent()
    {
      if insertOk {
        clicks := clicks + [row];
      }
      if updateOk && linkId in clickCount {
        clickCount := clickCount[linkId := clickCount[linkId] + 1];
      }
      if old(Consistent()) && insertOk && updateOk && linkId in old(clickCount) {
        RecordKeepsConsistent(old(clicks), old(clickCount), row);
      }
    }
  }

  /** Appending one row for `linkId` raises that link's count by one and no other. */
  lemma CountForAppend(clicks: seq<Click>, c: Click, id: string)
    ensures CountFor(clicks + [c], id) == CountFor(clicks, id) + (if c.linkId == id then 1 else 0)
  {
    assert (clicks + [c])[..|clicks|] == clicks;
  }

  /** When both writes succeed for a known link, each counter still equals its number of rows:
      the row and the increment are exactly one each. */
  lemma RecordKeepsConsistent(clicks: seq<Click>, counts: map<string, int>, row: Click)
    requires forall id :: id in counts ==> counts[id] == CountFor(clicks, id)
    requires row.linkId in counts
    ensures forall id :: id in counts[row.linkId := counts[row.linkId] + 1] ==>
      counts[row.linkId := counts[row.linkId] + 1][id] == CountFor(clicks + [row], id)
  {
    forall id | id in counts[row.linkId := counts[row.linkId] + 1]
      ensures counts[row.linkId := counts[row.linkId] + 1][id] == CountFor(clicks + [row], id)
    {
      CountForAppend(clicks, row, id);
    }
  }

  /** When only the insert lands, the link's counter falls one behind its rows. */
  lemma InsertWithoutUpdateDiverges(clicks: seq<Click>, counts: map<string, int>, row: Click)
    requires row.linkId in counts && counts[row.linkId] == CountFor(clicks, row.linkId)
    ensures counts[row.linkId] + 1 == CountFor(clicks + [row], row.linkId)
  {
    CountForAppend(clicks, row, row.linkId);
  }
}
