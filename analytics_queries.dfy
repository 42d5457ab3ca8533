/** The analytics queries of the Fastify API (api/src/analytics/analytics.queries.ts). The
    `click_events` and `links` tables are sequences of rows; timestamps are milliseconds since
    the epoch; each SQL statement becomes a function over those rows. `GROUP BY` is
    `Sorting.GroupBy`, `ORDER BY count DESC` is `Sorting.SortDesc`, `ORDER BY bucket ASC` is
    `Sorting.SortBy`, `LIMIT` is `Sorting.Take` and `date_trunc` is `Calendar.Trunc`. */
module AnalyticsQueries {
  import opened Common
  import opened Sorting
  import opened Calendar

  /** A `click_events` row; `None` is SQL null. */
  datatype ClickEventRow = ClickEventRow(
    id: string, linkId: string, ip: string, referrer: Option<string>, country: Option<string>,
    deviceType: Option<string>, browser: Option<string>, os: Option<string>, clickedAt: int)

  /** A `links` row, with the columns the overview reads. */
  datatype LinkRow = LinkRow(id: string, slug: string, destinationUrl: string, userId: string)

  /** The half-open window `[from, to)` of the queries. */
  datatype DateRange = DateRange(from: int, to: int)

  const ThirtyDaysMs: int := 30 * 24 * 60 * 60 * 1000

  /** A query-string value that JavaScript treats as true. */
  predicate Given(v: Option<string>)
  {
    v.Some? && v.value != []
  }

  /** `defaultDateRange(from, to)` (analytics.queries.ts:30-34): a missing end is now, a missing
      start is thirty days before the end. `new Date(s)` is the parameter `parseDate`. */
  function DefaultDateRange(from: Option<string>, to: Option<string>, parseDate: string -> int, now: int): (r: DateRange)
    ensures Given(to) ==> r.to == parseDate(to.value)
    ensures !Given(to) ==> r.to == now
    ensures Given(from) ==> r.from == parseDate(from.value)
    ensures !Given(from) ==> r.to - r.from == ThirtyDaysMs
  {
    var toDate := if Given(to) then parseDate(to.value) else now;
    var fromDate := if Given(from) then parseDate(from.value) else toDate - ThirtyDaysMs;
    DateRange(fromDate, toDate)
  }

  /** With no bounds the window is the thirty days that end now; now itself is outside it. */
  lemma DefaultRangeIsLastThirtyDays(parseDate: string -> int, now: int, t: int)
    ensures var r := DefaultDateRange(None, None, parseDate, now);
      now - ThirtyDaysMs <= t < now <==> r.from <= t < r.to
  {
  }

  /** `WHERE link_id = $linkId AND clicked_at >= $from AND clicked_at < $to` */
  predicate InRange(e: ClickEventRow, linkId: string, range: DateRange)
  {
    e.linkId == linkId && range.from <= e.clickedAt < range.to
  }

  /** The rows of one link inside the window, in table order. */
  function Selected(events: seq<ClickEventRow>, linkId: string, range: DateRange): (r: seq<ClickEventRow>)
    ensures |r| <= |events|
    ensures forall e :: e in r <==> e in events && InRange(e, linkId, range)
  {
    if events == [] then []
    else (if InRange(events[0], linkId, range) then [events[0]] else []) + Selected(events[1..], linkId, range)
  }

  /** The distinct `ip` values of some rows: `COUNT(DISTINCT ip)` is its size. */
  function Ips(s: seq<ClickEventRow>): set<string>
  {
    set e | e in s :: e.ip
  }

  /** There are never more distinct visitors than clicks, and a click has a visitor. */
  lemma {:induction false} IpsBound(s: seq<ClickEventRow>)
    ensures |Ips(s)| <= |s|
    ensures s != [] ==> 1 <= |Ips(s)|
  {
    if s != [] {
      IpsBound(s[1..]);
      assert forall e :: e in s <==> e == s[0] || e in s[1..];
      assert Ips(s) == Ips(s[1..]) + {s[0].ip};
    }
  }

  /** One column of some rows, as the key of a `GROUP BY`. */
  function Column(s: seq<ClickEventRow>, f: ClickEventRow -> Option<string>): (r: seq<Option<string>>)
    ensures |r| == |s|
    ensures forall i :: 0 <= i < |s| ==> r[i] == f(s[i])
  {
    if s == [] then [] else [f(s[0])] + Column(s[1..], f)
  }

  /** A `{ label, count }` row of a breakdown. */
  datatype Counted = Counted(name: string, count: nat)

  function CountOf(c: Counted): int { c.count }

  /** `COALESCE(column, fallback)` */
  function Coalesce(k: Option<string>, fallback: string): string
  {
    if k.Some? then k.value else fallback
  }

  /** The selected `COALESCE(column, fallback), COUNT(*)` of each group. */
  function Labels(gs: seq<Group<Option<string>>>, fallback: string): (r: seq<Counted>)
    ensures |r| == |gs|
    ensures forall i :: 0 <= i < |gs| ==> r[i] == Counted(Coalesce(gs[i].key, fallback), gs[i].count)
  {
    if gs == [] then [] else [Counted(Coalesce(gs[0].key, fallback), gs[0].count)] + Labels(gs[1..], fallback)
  }

  lemma {:induction false} LabelsSum(gs: seq<Group<Option<string>>>, fallback: string)
    ensures SumBy(Labels(gs, fallback), CountOf) == SumBy(gs, GroupCount)
  {
    if gs != [] {
      LabelsSum(gs[1..], fallback);
      assert Labels(gs, fallback)[1..] == Labels(gs[1..], fallback);
    }
  }

  /** The groups of a column, largest first. */
  function RankedGroups(keys: seq<Option<string>>): (r: seq<Group<Option<string>>>)
    ensures |r| == |GroupBy(keys)|
    ensures multiset(r) == multiset(GroupBy(keys))
    ensures forall i, j :: 0 <= i < j < |r| ==> r[i].count >= r[j].count
  {
    SortDesc(GroupBy(keys), GroupCount)
  }

  /** `SELECT COALESCE(col, fallback), COUNT(*) ... GROUP BY col ORDER BY count DESC`. The
      groups are those of the raw column, so a null group and a group whose value equals the
      fallback are two rows with the same label. */
  function Ranked(keys: seq<Option<string>>, fallback: string): (r: seq<Counted>)
    ensures |r| == |GroupBy(keys)|
    ensures forall i, j :: 0 <= i < j < |r| ==> r[i].count >= r[j].count
  {
    Labels(RankedGroups(keys), fallback)
  }

  /** The same statement with `LIMIT limit`. */
  function Breakdown(keys: seq<Option<string>>, fallback: string, limit: nat): (r: seq<Counted>)
    ensures |r| == Min(limit, |GroupBy(keys)|)
    ensures forall i, j :: 0 <= i < j < |r| ==> r[i].count >= r[j].count
    ensures r == Ranked(keys, fallback)[..|r|]
    ensures forall i :: 0 <= i < |r| ==>
      r[i] == Counted(Coalesce(RankedGroups(keys)[i].key, fallback), RankedGroups(keys)[i].count)
  {
    var r := Take(Ranked(keys, fallback), limit);
    assert forall i :: 0 <= i < |r| ==> r[i] == Ranked(keys, fallback)[i];
    r
  }

  /** Each ranked group is one key of the column, counted exactly. */
  lemma RankedGroupsAreGroups(keys: seq<Option<string>>, i: int)
    requires 0 <= i < |RankedGroups(keys)|
    ensures RankedGroups(keys)[i].key in keys
    ensures RankedGroups(keys)[i].count == multiset(keys)[RankedGroups(keys)[i].key] > 0
  {
    var gs := GroupBy(keys);
    var g := RankedGroups(keys)[i];
    assert g in multiset(gs);
    var j :| 0 <= j < |gs| && gs[j] == g;
    GroupByCounts(keys);
    GroupByCovers(keys);
    assert g.key in multiset(keys);
  }

  /** Every row of a breakdown is a value of the column (or the fallback for null) with the
      number of rows holding it. */
  lemma BreakdownRowsAreCounts(keys: seq<Option<string>>, fallback: string, limit: nat, i: int)
    requires 0 <= i < |Breakdown(keys, fallback, limit)|
    ensures exists k ::
      k in keys && Breakdown(keys, fallback, limit)[i] == Counted(Coalesce(k, fallback), multiset(keys)[k])
    ensures Breakdown(keys, fallback, limit)[i].count > 0
  {
    RankedGroupsAreGroups(keys, i);
    var k := RankedGroups(keys)[i].key;
    assert Breakdown(keys, fallback, limit)[i] == Counted(Coalesce(k, fallback), multiset(keys)[k]);
  }

  /** Every key of the column has its group somewhere in the descending order. */
  lemma RankedPosition(keys: seq<Option<string>>, k: Option<string>) returns (p: nat)
    requires k in keys
    ensures p < |RankedGroups(keys)| && RankedGroups(keys)[p] == Group(k, multiset(keys)[k])
  {
    var gs := GroupBy(keys);
    GroupByCovers(keys);
    GroupByCounts(keys);
    var j :| 0 <= j < |gs| && gs[j].key == k;
    assert gs[j] in multiset(RankedGroups(keys));
    p :| 0 <= p < |RankedGroups(keys)| && RankedGroups(keys)[p] == gs[j];
  }

  /** `ORDER BY count DESC LIMIT n` returns the top groups: a key missing from the result has no
      more rows than any row shown, and then the result is full. */
  lemma BreakdownIsTop(keys: seq<Option<string>>, fallback: string, limit: nat, k: Option<string>)
    requires k in keys
    ensures var r := Breakdown(keys, fallback, limit);
      (exists i :: 0 <= i < |r| && r[i] == Counted(Coalesce(k, fallback), multiset(keys)[k]))
      || (|r| == limit && forall i :: 0 <= i < |r| ==> r[i].count >= multiset(keys)[k])
  {
    var p := RankedPosition(keys, k);
    if p < |Breakdown(keys, fallback, limit)| {
      assert Breakdown(keys, fallback, limit)[p] == Counted(Coalesce(k, fallback), multiset(keys)[k]);
    } else {
      CutBelow(keys, fallback, limit, p);
    }
  }

  /** A group ranked past the cut: the result is full of rows counting at least as much. */
  lemma CutBelow(keys: seq<Option<string>>, fallback: string, limit: nat, p: nat)
    requires |Breakdown(keys, fallback, limit)| <= p < |RankedGroups(keys)|
    ensures var r := Breakdown(keys, fallback, limit);
      |r| == limit && forall i :: 0 <= i < |r| ==> r[i].count >= RankedGroups(keys)[p].count
  {
    var sorted := RankedGroups(keys);
    var r := Breakdown(keys, fallback, limit);
    assert forall i :: 0 <= i < |r| ==> r[i].count == sorted[i].count >= sorted[p].count;
  }

  /** With a limit at least the number of groups, the counts add up to the number of rows. */
  lemma BreakdownSums(keys: seq<Option<string>>, fallback: string, limit: nat)
    requires limit >= |GroupBy(keys)|
    ensures SumBy(Breakdown(keys, fallback, limit), CountOf) == |keys|
  {
    assert Breakdown(keys, fallback, limit) == Ranked(keys, fallback);
    LabelsSum(RankedGroups(keys), fallback);
    SumBySortDesc(GroupBy(keys), GroupCount, GroupCount);
    GroupBySum(keys);
  }

  function ReferrerOf(e: ClickEventRow): Option<string> { e.referrer }
  function CountryOf(e: ClickEventRow): Option<string> { e.country }
  function DeviceTypeOf(e: ClickEventRow): Option<string> { e.deviceType }
  function BrowserOf(e: ClickEventRow): Option<string> { e.browser }
  function OsOf(e: ClickEventRow): Option<string> { e.os }

  const DefaultReferrerLimit: nat := 10
  const DefaultCountryLimit: nat := 20
  const BrowserLimit: nat := 10
  const OsLimit: nat := 10

  /** `getTopReferrers` (analytics.queries.ts:257-279): null referrers are "Direct". */
  function GetTopReferrers(events: seq<ClickEventRow>, linkId: string, range: DateRange, limit: nat): (r: seq<Counted>)
    ensures |r| <= limit
    ensures forall i, j :: 0 <= i < j < |r| ==> r[i].count >= r[j].count
  {
    Breakdown(Column(Selected(events, linkId, range), ReferrerOf), "Direct", limit)
  }

  /** `getGeoBreakdown` (analytics.queries.ts:281-303): null countries are "Unknown". */
  function GetGeoBreakdown(events: seq<ClickEventRow>, linkId: string, range: DateRange, limit: nat): (r: seq<Counted>)
    ensures |r| <= limit
    ensures forall i, j :: 0 <= i < j < |r| ==> r[i].count >= r[j].count
  {
    Breakdown(Column(Selected(events, linkId, range), CountryOf), "Unknown", limit)
  }

  /** `getDeviceBreakdown` (analytics.queries.ts:305-323): every device group, largest first,
      null as "unknown". */
  function GetDeviceBreakdown(events: seq<ClickEventRow>, linkId: string, range: DateRange): (r: seq<Counted>)
    ensures forall i, j :: 0 <= i < j < |r| ==> r[i].count >= r[j].count
  {
    Ranked(Column(Selected(events, linkId, range), DeviceTypeOf), "unknown")
  }

  /** With a limit at least the number of distinct countries, the country counts add up to the
      clicks of the window. */
  lemma CountriesSumToTotal(events: seq<ClickEventRow>, linkId: string, range: DateRange, limit: nat)
    requires limit >= |GroupBy(Column(Selected(events, linkId, range), CountryOf))|
    ensures SumBy(GetGeoBreakdown(events, linkId, range, limit), CountOf) == |Selected(events, linkId, range)|
  {
    BreakdownSums(Column(Selected(events, linkId, range), CountryOf), "Unknown", limit);
  }

  /** The same for referrers. */
  lemma ReferrersSumToTotal(events: seq<ClickEventRow>, linkId: string, range: DateRange, limit: nat)
    requires limit >= |GroupBy(Column(Selected(events, linkId, range), ReferrerOf))|
    ensures SumBy(GetTopReferrers(events, linkId, range, limit), CountOf) == |Selected(events, linkId, range)|
  {
    BreakdownSums(Column(Selected(events, linkId, range), ReferrerOf), "Direct", limit);
  }

  /** The `deviceBreakdown` object of the summary. */
  datatype DeviceCounts = DeviceCounts(desktop: int, mobile: int, tablet: int, unknown: int)

  function DeviceTotal(b: DeviceCounts): int
  {
    b.desktop + b.mobile + b.tablet + b.unknown
  }

  /** The value of one of the four properties. */
  function Field(b: DeviceCounts, key: string): int
  {
    if key == "desktop" then b.desktop
    else if key == "mobile" then b.mobile
    else if key == "tablet" then b.tablet
    else if key == "unknown" then b.unknown
    else 0
  }

  predicate IsDeviceKey(key: string)
  {
    key == "desktop" || key == "mobile" || key == "tablet" || key == "unknown"
  }

  /** Lower-case keys that `key in deviceBreakdown` also finds, on `Object.prototype`; the
      assignment then makes a fifth property, outside the four counters. */
  predicate IsInheritedKey(key: string)
  {
    key == "constructor" || key == "__proto__"
  }

  /** One turn of the loop at analytics.queries.ts:88-96: a known key is assigned, any other
      key is added to `unknown`. */
  function DeviceStep(b: DeviceCounts, row: Counted): (r: DeviceCounts)
    ensures var key := ToLower(row.name);
      IsDeviceKey(key) ==>
        Field(r, key) == row.count
        && (key != "desktop" ==> r.desktop == b.desktop) && (key != "mobile" ==> r.mobile == b.mobile)
        && (key != "tablet" ==> r.tablet == b.tablet) && (key != "unknown" ==> r.unknown == b.unknown)
    ensures !IsDeviceKey(ToLower(row.name)) && !IsInheritedKey(ToLower(row.name)) ==> r == b.(unknown := b.unknown + row.count)
    ensures IsInheritedKey(ToLower(row.name)) ==> r == b
  {
    var key := ToLower(row.name);
    if key == "desktop" then b.(desktop := row.count)
    else if key == "mobile" then b.(mobile := row.count)
    else if key == "tablet" then b.(tablet := row.count)
    else if key == "unknown" then b.(unknown := row.count)
    else if IsInheritedKey(key) then b
    else b.(unknown := b.unknown + row.count)
  }

  /** The object after the loop has seen `rows`. */
  function DeviceFold(rows: seq<Counted>): DeviceCounts
  {
    if rows == [] then DeviceCounts(0, 0, 0, 0) else DeviceStep(DeviceFold(rows[..|rows| - 1]), rows[|rows| - 1])
  }

  /** The loop of getClickSummary (analytics.queries.ts:87-96). */
  method BuildDeviceBreakdown(rows: seq<Counted>) returns (b: DeviceCounts)
    ensures b == DeviceFold(rows)
  {
    b := DeviceCounts(0, 0, 0, 0);
    var i := 0;
    while i < |rows|
      invariant 0 <= i <= |rows|
      invariant b == DeviceFold(rows[..i])
    {
      assert rows[..i + 1][..i] == rows[..i];
      var key := ToLower(rows[i].name);
      if key == "desktop" {
        b := b.(desktop := rows[i].count);
      } else if key == "mobile" {
        b := b.(mobile := rows[i].count);
      } else if key == "tablet" {
        b := b.(tablet := rows[i].count);
      } else if key == "unknown" {
        b := b.(unknown := rows[i].count);
      } else if !IsInheritedKey(key) {
        b := b.(unknown := b.unknown + rows[i].count);
      }
      i := i + 1;
    }
    assert rows[..i] == rows;
  }

  /** A counter whose key no row carries stays at zero. */
  lemma {:induction false} DeviceFoldUntouched(rows: seq<Counted>, key: string)
    requires IsDeviceKey(key)
    requires forall i :: 0 <= i < |rows| ==> IsDeviceKey(ToLower(rows[i].name)) && ToLower(rows[i].name) != key
    ensures Field(DeviceFold(rows), key) == 0
  {
    if rows != [] {
      DeviceFoldUntouched(rows[..|rows| - 1], key);
    }
  }

  /** When every row has one of the four keys and no two rows share a key, the four counters
      add up to the rows' counts. */
  lemma {:induction false} DeviceBreakdownSums(rows: seq<Counted>)
    requires forall i :: 0 <= i < |rows| ==> IsDeviceKey(ToLower(rows[i].name))
    requires forall i, j :: 0 <= i < j < |rows| ==> ToLower(rows[i].name) != ToLower(rows[j].name)
    ensures DeviceTotal(DeviceFold(rows)) == SumBy(rows, CountOf)
  {
    if rows != [] {
      var init, last := rows[..|rows| - 1], rows[|rows| - 1];
      assert forall i :: 0 <= i < |init| ==> init[i] == rows[i];
      DeviceBreakdownSums(init);
      DeviceFoldUntouched(init, ToLower(last.name));
      TotalAfterStep(DeviceFold(init), last);
      SumOfCountsLast(rows);
    }
  }

  /** Assigning a counter that is still zero adds the row's count to the total. */
  lemma SumOfCountsLast(rows: seq<Counted>)
    requires rows != []
    ensures SumBy(rows, CountOf) == SumBy(rows[..|rows| - 1], CountOf) + rows[|rows| - 1].count
  {
    var init, last := rows[..|rows| - 1], rows[|rows| - 1];
    SplitLast(rows);
    SumByAppend(init, [last], CountOf);
    assert [last][1..] == [];
  }

  lemma TotalAfterStep(b: DeviceCounts, row: Counted)
    requires IsDeviceKey(ToLower(row.name)) && Field(b, ToLower(row.name)) == 0
    ensures DeviceTotal(DeviceStep(b, row)) == DeviceTotal(b) + row.count
  {
  }

  /** Two rows with the same key: the later one replaces the earlier (a null device group and
      an "unknown" group both read "unknown"). */
  lemma DeviceRowsOverwrite(a: nat, b: nat)
    ensures DeviceFold([Counted("unknown", a), Counted("unknown", b)]).unknown == b
    ensures SumBy([Counted("unknown", a), Counted("unknown", b)], CountOf) == a + b
  {
    var rows := [Counted("unknown", a), Counted("unknown", b)];
    assert rows[..1][..0] == [];
    DeviceKeyIsLower("unknown");
    assert rows[1..] == [Counted("unknown", b)] && rows[1..][1..] == [];
    assert SumBy(rows[1..], CountOf) == b;
  }

  /** The four keys are already lower case. */
  lemma DeviceKeyIsLower(k: string)
    requires IsDeviceKey(k)
    ensures ToLower(k) == k
  {
    if k == "desktop" {
      ToLowerOfLower("desktop");
    } else if k == "mobile" {
      ToLowerOfLower("mobile");
    } else if k == "tablet" {
      ToLowerOfLower("tablet");
    } else {
      ToLowerOfLower("unknown");
    }
  }

  /** When every value of the column is one of the four device types, the rows of the device
      query carry distinct keys, each one of the four. */
  lemma DeviceRowsDistinct(keys: seq<Option<string>>)
    requires forall i :: 0 <= i < |keys| ==> keys[i].Some? && IsDeviceKey(keys[i].value)
    ensures var rows := Ranked(keys, "unknown");
      (forall i :: 0 <= i < |rows| ==> IsDeviceKey(ToLower(rows[i].name)))
      && forall i, j :: 0 <= i < j < |rows| ==> ToLower(rows[i].name) != ToLower(rows[j].name)
  {
    var gs := RankedGroups(keys);
    var rows := Ranked(keys, "unknown");
    DistinctKeysPermutation(GroupBy(keys), gs);
    forall i | 0 <= i < |rows|
      ensures gs[i].key.Some? && rows[i].name == gs[i].key.value && ToLower(rows[i].name) == rows[i].name
      ensures IsDeviceKey(rows[i].name)
    {
      RankedGroupsAreGroups(keys, i);
      DeviceKeyIsLower(gs[i].key.value);
    }
  }

  /** When every clicked row of the window carries one of the four device types (a non-null
      enum value), the device breakdown adds up to the clicks of the window. */
  lemma DevicesSumToTotal(events: seq<ClickEventRow>, linkId: string, range: DateRange)
    requires forall e :: e in Selected(events, linkId, range) ==> e.deviceType.Some? && IsDeviceKey(e.deviceType.value)
    ensures DeviceTotal(DeviceFold(GetDeviceBreakdown(events, linkId, range))) == |Selected(events, linkId, range)|
  {
    var s := Selected(events, linkId, range);
    var keys := Column(s, DeviceTypeOf);
    assert forall i :: 0 <= i < |keys| ==> s[i] in s;
    DeviceRowsDistinct(keys);
    DeviceBreakdownSums(Ranked(keys, "unknown"));
    LabelsSum(RankedGroups(keys), "unknown");
    SumBySortDesc(GroupBy(keys), GroupCount, GroupCount);
    GroupBySum(keys);
  }

  /** The answer of `getClickSummary`. */
  datatype ClickSummary = ClickSummary(
    totalClicks: nat, uniqueVisitors: nat, topReferrers: seq<Counted>, topCountries: seq<Counted>,
    deviceBreakdown: DeviceCounts, browserBreakdown: seq<Counted>, osBreakdown: seq<Counted>)

  /** `getClickSummary(linkId, from, to)` (analytics.queries.ts:36-107), with every statement over
      the same window. */
  method GetClickSummary(events: seq<ClickEventRow>, linkId: string, range: DateRange) returns (r: ClickSummary)
    ensures r.totalClicks == |Selected(events, linkId, range)|
    ensures r.uniqueVisitors == |Ips(Selected(events, linkId, range))| <= r.totalClicks
    ensures r.totalClicks > 0 ==> r.uniqueVisitors > 0
    ensures r.topReferrers == GetTopReferrers(events, linkId, range, DefaultReferrerLimit)
    ensures r.topCountries == GetGeoBreakdown(events, linkId, range, DefaultCountryLimit)
    ensures r.deviceBreakdown == DeviceFold(GetDeviceBreakdown(events, linkId, range))
    ensures r.browserBreakdown == Breakdown(Column(Selected(events, linkId, range), BrowserOf), "Unknown", BrowserLimit)
    ensures r.osBreakdown == Breakdown(Column(Selected(events, linkId, range), OsOf), "Unknown", OsLimit)
  {
    var s := Selected(events, linkId, range);
    IpsBound(s);
    var deviceRows := GetDeviceBreakdown(events, linkId, range);
    var devices := BuildDeviceBreakdown(deviceRows);
    r := ClickSummary(
      |s|, |Ips(s)|,
      GetTopReferrers(events, linkId, range, DefaultReferrerLimit),
      GetGeoBreakdown(events, linkId, range, DefaultCountryLimit),
      devices,
      Breakdown(Column(s, BrowserOf), "Unknown", BrowserLimit),
      Breakdown(Column(s, OsOf), "Unknown", OsLimit));
  }

  // ---- time series ----

  /** The granularity after the guard at analytics.queries.ts:117-121: anything else is a day. */
  function ParseGranularity(s: string): (g: Granularity)
    ensures g == Hour <==> s == "hour"
    ensures g == Week <==> s == "week"
  {
    if s == "hour" then Hour else if s == "week" then Week else Day
  }

  /** `date_trunc(granularity, clicked_at)` of each row. */
  function BucketKeys(s: seq<ClickEventRow>, g: Granularity): (r: seq<int>)
    ensures |r| == |s|
    ensures forall i :: 0 <= i < |s| ==> r[i] == Trunc(g, s[i].clickedAt)
  {
    if s == [] then [] else [Trunc(g, s[0].clickedAt)] + BucketKeys(s[1..], g)
  }

  /** The rows of one bucket. */
  function InBucket(s: seq<ClickEventRow>, g: Granularity, bucket: int): (r: seq<ClickEventRow>)
    ensures forall e :: e in r <==> e in s && Trunc(g, e.clickedAt) == bucket
  {
    if s == [] then []
    else (if Trunc(g, s[0].clickedAt) == bucket then [s[0]] else []) + InBucket(s[1..], g, bucket)
  }

  lemma {:induction false} InBucketCount(s: seq<ClickEventRow>, g: Granularity, bucket: int)
    ensures |InBucket(s, g, bucket)| == multiset(BucketKeys(s, g))[bucket]
  {
    if s != [] {
      InBucketCount(s[1..], g, bucket);
      assert BucketKeys(s, g) == [Trunc(g, s[0].clickedAt)] + BucketKeys(s[1..], g);
    }
  }

  /** A point of the series. */
  datatype Point = Point(date: string, clicks: nat, uniqueVisitors: nat)

  function PointClicks(p: Point): int { p.clicks }

  /** `formatDate` (analytics.queries.ts:165-170). */
  function BucketLabel(g: Granularity, ms: int): (r: string)
    ensures 0 <= Civil(ms).year <= 9999 ==>
      (if g == Hour then IsHourShape(r) && DigitsOf(r[11..13]) == Civil(ms).hour else IsDateShape(r))
      && DigitsOf(r[..4]) == Civil(ms).year && DigitsOf(r[5..7]) == Civil(ms).month
      && DigitsOf(r[8..10]) == Civil(ms).day
  {
    var r := if g == Hour then HourLabel(ms) else DayLabel(ms);
    if 0 <= Civil(ms).year <= 9999 then
      LabelShapes(ms);
      LabelFields(ms);
      r
    else r
  }

  function GroupKey(g: Group<int>): int { g.key }

  /** The buckets of a window in ascending order, with their row counts. */
  function Buckets(s: seq<ClickEventRow>, g: Granularity): (r: seq<Group<int>>)
    ensures multiset(r) == multiset(GroupBy(BucketKeys(s, g)))
    ensures forall i, j :: 0 <= i < j < |r| ==> r[i].key < r[j].key
  {
    var gs := GroupBy(BucketKeys(s, g));
    var sorted := SortBy(gs, GroupKey);
    DistinctKeysPermutation(gs, sorted);
    SortedStrict(sorted);
    sorted
  }

  /** Sorted by key with distinct keys is strictly ascending. */
  lemma SortedStrict(gs: seq<Group<int>>)
    requires SortedBy(gs, GroupKey) && DistinctKeys(gs)
    ensures forall i, j :: 0 <= i < j < |gs| ==> gs[i].key < gs[j].key
  {
    forall i, j | 0 <= i < j < |gs| ensures gs[i].key < gs[j].key {
      assert GroupKey(gs[i]) <= GroupKey(gs[j]);
    }
  }

  /** The points of some buckets. */
  function Points(gs: seq<Group<int>>, s: seq<ClickEventRow>, g: Granularity): (r: seq<Point>)
    ensures |r| == |gs|
    ensures forall i :: 0 <= i < |gs| ==>
      r[i] == Point(BucketLabel(g, gs[i].key), gs[i].count, |Ips(InBucket(s, g, gs[i].key))|)
  {
    if gs == [] then []
    else [Point(BucketLabel(g, gs[0].key), gs[0].count, |Ips(InBucket(s, g, gs[0].key))|)] + Points(gs[1..], s, g)
  }

  lemma {:induction false} PointsSum(gs: seq<Group<int>>, s: seq<ClickEventRow>, g: Granularity)
    ensures SumBy(Points(gs, s, g), PointClicks) == SumBy(gs, GroupCount)
  {
    if gs != [] {
      PointsSum(gs[1..], s, g);
      var p := Points(gs, s, g);
      assert p[0].clicks == gs[0].count;
      assert p[1..] == Points(gs[1..], s, g);
    }
  }

  /** `getTimeSeries(linkId, from, to, granularity)` (analytics.queries.ts:109-179). */
  function GetTimeSeries(events: seq<ClickEventRow>, linkId: string, range: DateRange, granularity: string): (r: seq<Point>)
    ensures |r| == |Buckets(Selected(events, linkId, range), ParseGranularity(granularity))|
  {
    var s := Selected(events, linkId, range);
    var g := ParseGranularity(granularity);
    Points(Buckets(s, g), s, g)
  }

  /** The clicks of the series add up to the summary's total. */
  lemma TimeSeriesSumsToTotal(events: seq<ClickEventRow>, linkId: string, range: DateRange, granularity: string)
    ensures SumBy(GetTimeSeries(events, linkId, range, granularity), PointClicks) == |Selected(events, linkId, range)|
  {
    var s := Selected(events, linkId, range);
    var g := ParseGranularity(granularity);
    PointsSum(Buckets(s, g), s, g);
    SumBySort(GroupBy(BucketKeys(s, g)), GroupKey, GroupCount);
    GroupBySum(BucketKeys(s, g));
  }

  /** A bucket counts exactly its rows, and it has at least one. */
  lemma BucketCounts(s: seq<ClickEventRow>, g: Granularity, i: int)
    requires 0 <= i < |Buckets(s, g)|
    ensures Buckets(s, g)[i].count == |InBucket(s, g, Buckets(s, g)[i].key)| > 0
  {
    var keys := BucketKeys(s, g);
    var gs := GroupBy(keys);
    var b := Buckets(s, g)[i];
    assert b in multiset(gs);
    var j :| 0 <= j < |gs| && gs[j] == b;
    GroupByCounts(keys);
    GroupByCovers(keys);
    InBucketCount(s, g, b.key);
  }

  /** Every point has at least one click, and between one and that many distinct visitors. */
  lemma TimeSeriesPointBounds(events: seq<ClickEventRow>, linkId: string, range: DateRange, granularity: string, i: int)
    requires 0 <= i < |GetTimeSeries(events, linkId, range, granularity)|
    ensures var p := GetTimeSeries(events, linkId, range, granularity)[i];
      1 <= p.uniqueVisitors <= p.clicks
  {
    var s := Selected(events, linkId, range);
    var g := ParseGranularity(granularity);
    BucketCounts(s, g, i);
    IpsBound(InBucket(s, g, Buckets(s, g)[i].key));
  }

  /** Each point's label is its bucket's start in the `YYYY-MM-DDTHH:00` (hour) or `YYYY-MM-DD`
      (day, week) shape for four-digit years. */
  lemma TimeSeriesLabels(events: seq<ClickEventRow>, linkId: string, range: DateRange, granularity: string, i: int)
    requires 0 <= i < |GetTimeSeries(events, linkId, range, granularity)|
    requires 0 <= Civil(Buckets(Selected(events, linkId, range), ParseGranularity(granularity))[i].key).year <= 9999
    ensures var p := GetTimeSeries(events, linkId, range, granularity)[i];
      (granularity == "hour" ==> IsHourShape(p.date)) && (granularity != "hour" ==> IsDateShape(p.date))
  {
    LabelShapes(Buckets(Selected(events, linkId, range), ParseGranularity(granularity))[i].key);
  }

  // ---- overview ----

  /** `WHERE user_id = $userId` on `links`. */
  function UserLinks(links: seq<LinkRow>, userId: string): (r: seq<LinkRow>)
    ensures forall l :: l in r <==> l in links && l.userId == userId
  {
    if links == [] then []
    else (if links[0].userId == userId then [links[0]] else []) + UserLinks(links[1..], userId)
  }

  /** A click of the window on a link of the user (the `JOIN links` and its `WHERE`). */
  predicate UserClick(e: ClickEventRow, links: seq<LinkRow>, userId: string, range: DateRange)
  {
    (exists l :: l in links && l.userId == userId && l.id == e.linkId)
    && range.from <= e.clickedAt < range.to
  }

  function UserClicks(events: seq<ClickEventRow>, links: seq<LinkRow>, userId: string, range: DateRange): (r: seq<ClickEventRow>)
    ensures forall e :: e in r <==> e in events && UserClick(e, links, userId, range)
  {
    if events == [] then []
    else
      var first := if UserClick(events[0], links, userId, range) then [events[0]] else [];
      first + UserClicks(events[1..], links, userId, range)
  }

  /** `COUNT(ce.id)` per link of the `LEFT JOIN`: zero for a link without clicks. */
  function LinkCounts(ls: seq<LinkRow>, events: seq<ClickEventRow>, range: DateRange): (r: seq<Group<LinkRow>>)
    ensures |r| == |ls|
    ensures forall i :: 0 <= i < |ls| ==> r[i] == Group(ls[i], |Selected(events, ls[i].id, range)|)
  {
    if ls == [] then [] else [Group(ls[0], |Selected(events, ls[0].id, range)|)] + LinkCounts(ls[1..], events, range)
  }

  datatype MostClickedLink = MostClickedLink(id: string, slug: string, destinationUrl: string, clicks: nat)

  /** `ORDER BY clicks DESC LIMIT 1`, kept only when it has a click. */
  function MostClicked(links: seq<LinkRow>, events: seq<ClickEventRow>, userId: string, range: DateRange): (r: Option<MostClickedLink>)
    ensures r.Some? ==>
      r.value.clicks > 0
      && exists l :: l in links && l.userId == userId && r.value == MostClickedLink(l.id, l.slug, l.destinationUrl, |Selected(events, l.id, range)|)
    ensures r.Some? ==> forall l :: l in links && l.userId == userId ==> |Selected(events, l.id, range)| <= r.value.clicks
    ensures r.None? <==> forall l :: l in links && l.userId == userId ==> |Selected(events, l.id, range)| == 0
  {
    var ls := UserLinks(links, userId);
    var sorted := SortDesc(LinkCounts(ls, events, range), GroupCount);
    TopLink(ls, events, range, sorted);
    if |sorted| > 0 && sorted[0].count > 0 then
      var l := sorted[0].key;
      Some(MostClickedLink(l.id, l.slug, l.destinationUrl, sorted[0].count))
    else None
  }

  /** The first row of the descending order is a link with the most clicks. */
  lemma TopLink(ls: seq<LinkRow>, events: seq<ClickEventRow>, range: DateRange, sorted: seq<Group<LinkRow>>)
    requires sorted == SortDesc(LinkCounts(ls, events, range), GroupCount)
    ensures |sorted| == |ls|
    ensures |sorted| > 0 ==> sorted[0].key in ls && sorted[0].count == |Selected(events, sorted[0].key.id, range)|
    ensures |sorted| > 0 ==> forall l :: l in ls ==> |Selected(events, l.id, range)| <= sorted[0].count
  {
    var counts := LinkCounts(ls, events, range);
    if |sorted| > 0 {
      assert sorted[0] in multiset(counts);
      var i :| 0 <= i < |counts| && counts[i] == sorted[0];
      TopIsMax(ls, events, range, sorted);
    }
  }

  lemma TopIsMax(ls: seq<LinkRow>, events: seq<ClickEventRow>, range: DateRange, sorted: seq<Group<LinkRow>>)
    requires sorted == SortDesc(LinkCounts(ls, events, range), GroupCount) && |sorted| > 0
    ensures forall l :: l in ls ==> |Selected(events, l.id, range)| <= sorted[0].count
  {
    var counts := LinkCounts(ls, events, range);
    forall l | l in ls ensures |Selected(events, l.id, range)| <= sorted[0].count {
      var j :| 0 <= j < |ls| && ls[j] == l;
      assert counts[j] in multiset(sorted);
      var q :| 0 <= q < |sorted| && sorted[q] == counts[j];
    }
  }

  /** A `clicksPerDay` entry. */
  datatype DayClicks = DayClicks(date: string, clicks: nat)

  function DayCount(d: DayClicks): int { d.clicks }

  function Days(gs: seq<Group<int>>): (r: seq<DayClicks>)
    ensures |r| == |gs|
    ensures forall i :: 0 <= i < |gs| ==> r[i] == DayClicks(DayLabel(gs[i].key), gs[i].count)
  {
    if gs == [] then [] else [DayClicks(DayLabel(gs[0].key), gs[0].count)] + Days(gs[1..])
  }

  lemma {:induction false} DaysSum(gs: seq<Group<int>>)
    ensures SumBy(Days(gs), DayCount) == SumBy(gs, GroupCount)
  {
    if gs != [] {
      DaysSum(gs[1..]);
      assert Days(gs)[1..] == Days(gs[1..]);
    }
  }

  /** The answer of `getOverview`. */
  datatype Overview = Overview(totalClicks: nat, totalLinks: nat, mostClickedLink: Option<MostClickedLink>, clicksPerDay: seq<DayClicks>)

  /** `getOverview(userId, from, to)` (analytics.queries.ts:181-255). The link count is not
      limited to the window; the clicks are. */
  function GetOverview(links: seq<LinkRow>, events: seq<ClickEventRow>, userId: string, range: DateRange): (r: Overview)
    ensures r.totalLinks == |UserLinks(links, userId)|
    ensures r.totalClicks == |UserClicks(events, links, userId, range)|
    ensures r.mostClickedLink == MostClicked(links, events, userId, range)
    ensures |r.clicksPerDay| == |Buckets(UserClicks(events, links, userId, range), Day)|
    ensures r.clicksPerDay == Days(Buckets(UserClicks(events, links, userId, range), Day))
  {
    var clicks := UserClicks(events, links, userId, range);
    Overview(|clicks|, |UserLinks(links, userId)|, MostClicked(links, events, userId, range), Days(Buckets(clicks, Day)))
  }

  /** Entry `i` of `clicksPerDay` is a day of the window in ascending order: its date is the
      day's label and its count the user's clicks of the window on that day, at least one. */
  lemma OverviewDayEntries(links: seq<LinkRow>, events: seq<ClickEventRow>, userId: string, range: DateRange, i: int)
    requires 0 <= i < |GetOverview(links, events, userId, range).clicksPerDay|
    ensures var clicks := UserClicks(events, links, userId, range);
      var b := Buckets(clicks, Day);
      var d := GetOverview(links, events, userId, range).clicksPerDay[i];
      d.date == DayLabel(b[i].key) && d.clicks == |InBucket(clicks, Day, b[i].key)| > 0
      && forall j :: i < j < |b| ==> b[i].key < b[j].key
  {
    BucketCounts(UserClicks(events, links, userId, range), Day, i);
  }

  /** The daily clicks add up to the total clicks. */
  lemma OverviewDaysSumToTotal(links: seq<LinkRow>, events: seq<ClickEventRow>, userId: string, range: DateRange)
    ensures SumBy(GetOverview(links, events, userId, range).clicksPerDay, DayCount)
      == GetOverview(links, events, userId, range).totalClicks
  {
    var clicks := UserClicks(events, links, userId, range);
    DaysSum(Buckets(clicks, Day));
    SumBySort(GroupBy(BucketKeys(clicks, Day)), GroupKey, GroupCount);
    GroupBySum(BucketKeys(clicks, Day));
  }

  /** There is a most clicked link exactly when the user has a click in the window. */
  lemma MostClickedIffClicks(links: seq<LinkRow>, events: seq<ClickEventRow>, userId: string, range: DateRange)
    ensures GetOverview(links, events, userId, range).mostClickedLink.Some?
      <==> GetOverview(links, events, userId, range).totalClicks > 0
  {
    var clicks := UserClicks(events, links, userId, range);
    if |clicks| > 0 {
      var e := clicks[0];
      assert e in clicks;
      var l :| l in links && l.userId == userId && l.id == e.linkId;
      assert e in Selected(events, l.id, range);
    }
    if MostClicked(links, events, userId, range).Some? {
      var m := MostClicked(links, events, userId, range).value;
      var l :| l in links && l.userId == userId
        && m == MostClickedLink(l.id, l.slug, l.destinationUrl, |Selected(events, l.id, range)|);
      var e := Selected(events, l.id, range)[0];
      assert e in Selected(events, l.id, range);
      assert e in clicks;
    }
  }
}
