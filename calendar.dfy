/** UTC calendar arithmetic on millisecond timestamps: what `Date.prototype.toISOString`
    prints and what Postgres `date_trunc('hour' | 'day' | 'week', ts)` computes for a
    timestamp read in UTC. */
module Calendar {
  import opened Common

  const MsPerSecond: int := 1000
  const MsPerMinute: int := 60000
  const MsPerHour: int := 3600000
  const MsPerDay: int := 86400000
  const MsPerWeek: int := 604800000

  predicate IsLeap(y: int)
  {
    (y % 4 == 0 && y % 100 != 0) || y % 400 == 0
  }

  function DaysInYear(y: int): int
  {
    if IsLeap(y) then 366 else 365
  }

  /** Days of year `y` before the first day of month `m` (month 13 = the year's end). */
  function DaysBeforeMonth(y: int, m: int): (r: int)
    requires 1 <= m <= 13
    ensures m == 13 ==> r == DaysInYear(y)
  {
    var common := [0, 31, 59, 90, 120, 151, 181, 212, 243, 273, 304, 334, 365][m - 1];
    if IsLeap(y) && m > 2 then common + 1 else common
  }

  function DaysInMonth(y: int, m: int): (r: int)
    requires 1 <= m <= 12
    ensures 28 <= r <= 31
  {
    DaysBeforeMonth(y, m + 1) - DaysBeforeMonth(y, m)
  }

  /** Days from 1970-01-01 to January 1 of year `y` (negative before 1970). */
  function YearStart(y: int): int
    decreases if y >= 1970 then y - 1970 else 1970 - y
  {
    if y == 1970 then 0
    else if y > 1970 then YearStart(y - 1) + DaysInYear(y - 1)
    else YearStart(y + 1) - DaysInYear(y)
  }

  /** Each year starts where the one before it ends. */
  lemma YearStartStep(y: int)
    ensures YearStart(y + 1) == YearStart(y) + DaysInYear(y)
  {
  }

  /** The year holding day `d` counted from January 1 of year `y`, and the day's index in it. */
  function YearForward(d: nat, y: int): (r: (int, nat))
    ensures r.1 < DaysInYear(r.0)
    ensures YearStart(r.0) + r.1 == YearStart(y) + d
    decreases d
  {
    if d < DaysInYear(y) then (y, d)
    else
      YearStartStep(y);
      YearForward(d - DaysInYear(y), y + 1)
  }

  /** The same for a day before January 1 of year `y`. */
  function YearBackward(d: int, y: int): (r: (int, nat))
    requires d < 0
    ensures r.1 < DaysInYear(r.0)
    ensures YearStart(r.0) + r.1 == YearStart(y) + d
    decreases -d
  {
    YearStartStep(y - 1);
    var d' := d + DaysInYear(y - 1);
    if d' >= 0 then (y - 1, d') else YearBackward(d', y - 1)
  }

  /** Month and day of month of day-of-year `doy`, searching from month `m`. */
  function MonthOf(y: int, doy: int, m: int): (r: (int, int))
    requires 1 <= m <= 12
    requires DaysBeforeMonth(y, m) <= doy < DaysInYear(y)
    ensures 1 <= r.0 <= 12 && 1 <= r.1 <= DaysInMonth(y, r.0)
    ensures DaysBeforeMonth(y, r.0) + r.1 - 1 == doy
    decreases 12 - m
  {
    if doy < DaysBeforeMonth(y, m + 1) then (m, doy - DaysBeforeMonth(y, m) + 1)
    else MonthOf(y, doy, m + 1)
  }

  datatype DateTime = DateTime(year: int, month: int, day: int, hour: int, minute: int, second: int, milli: int)

  predicate WellFormed(t: DateTime)
  {
    1 <= t.month <= 12 && 1 <= t.day <= DaysInMonth(t.year, t.month)
    && 0 <= t.hour < 24 && 0 <= t.minute < 60 && 0 <= t.second < 60 && 0 <= t.milli < 1000
  }

  /** The timestamp of a date and time: its day counted from 1970-01-01, then the time of day. */
  function Timestamp(t: DateTime): int
    requires 1 <= t.month <= 12
  {
    (YearStart(t.year) + DaysBeforeMonth(t.year, t.month) + t.day - 1) * MsPerDay
    + t.hour * MsPerHour + t.minute * MsPerMinute + t.second * MsPerSecond + t.milli
  }

  /** The UTC calendar fields of a timestamp, as `getUTCFullYear` ... `getUTCMilliseconds` give
      them: well-formed fields whose timestamp is `ms` again. */
  function Civil(ms: int): (t: DateTime)
    ensures WellFormed(t)
    ensures Timestamp(t) == ms
  {
    var days := ms / MsPerDay;
    var rest := ms % MsPerDay;
    var yd := if days >= 0 then YearForward(days, 1970) else YearBackward(days, 1970);
    var md := MonthOf(yd.0, yd.1, 1);
    TimeOfDay(rest);
    DateTime(yd.0, md.0, md.1, rest / MsPerHour, rest % MsPerHour / MsPerMinute,
             rest % MsPerMinute / MsPerSecond, rest % MsPerSecond)
  }

  /** The hour, minute, second and millisecond of a time of day add back up to it. */
  lemma TimeOfDay(rest: int)
    requires 0 <= rest < MsPerDay
    ensures rest / MsPerHour * MsPerHour + rest % MsPerHour / MsPerMinute * MsPerMinute
      + rest % MsPerMinute / MsPerSecond * MsPerSecond + rest % MsPerSecond == rest
  {
    var h, m := rest % MsPerHour, rest % MsPerMinute;
    assert rest == rest / MsPerHour * MsPerHour + h;
    assert h == h / MsPerMinute * MsPerMinute + h % MsPerMinute;
    assert h % MsPerMinute == m by {
      assert rest == (rest / MsPerHour * 60 + h / MsPerMinute) * MsPerMinute + h % MsPerMinute;
    }
    assert m == m / MsPerSecond * MsPerSecond + m % MsPerSecond;
    assert m % MsPerSecond == rest % MsPerSecond by {
      assert rest == (rest / MsPerMinute * 60 + m / MsPerSecond) * MsPerSecond + m % MsPerSecond;
    }
  }

  /** The epoch is midnight of 1970-01-01. */
  lemma CivilOfEpoch()
    ensures Civil(0) == DateTime(1970, 1, 1, 0, 0, 0, 0)
  {
    assert YearForward(0, 1970) == (1970, 0);
    assert MonthOf(1970, 0, 1) == (1, 1);
  }

  /** `Civil` is the inverse of `Timestamp` on well-formed dates: two well-formed dates with one
      timestamp are the same date. */
  lemma CivilOfTimestamp(t: DateTime)
    requires WellFormed(t)
    ensures Civil(Timestamp(t)) == t
  {
    var ms := Timestamp(t);
    var doy := DaysBeforeMonth(t.year, t.month) + t.day - 1;
    DaysBeforeMonthMonotone(t.year, t.month + 1, 13);
    var days := YearStart(t.year) + doy;
    var inMinute := t.second * MsPerSecond + t.milli;
    var inHour := t.minute * MsPerMinute + inMinute;
    var rest := t.hour * MsPerHour + inHour;
    DivModUnique(ms, MsPerDay, days, rest);
    DivModUnique(rest, MsPerHour, t.hour, inHour);
    DivModUnique(inHour, MsPerMinute, t.minute, inMinute);
    DivModUnique(rest, MsPerMinute, t.hour * 60 + t.minute, inMinute);
    DivModUnique(inMinute, MsPerSecond, t.second, t.milli);
    DivModUnique(rest, MsPerSecond, (t.hour * 60 + t.minute) * 60 + t.second, t.milli);
    var yd := if days >= 0 then YearForward(days, 1970) else YearBackward(days, 1970);
    SameYear(yd.0, yd.1, t.year, doy);
    var md := MonthOf(yd.0, yd.1, 1);
    SameMonth(t.year, md.0, md.1, t.month, t.day);
  }

  /** Quotient and remainder are the unique pair with `a == q * b + r` and `0 <= r < b`. */
  lemma DivModUnique(a: int, b: int, q: int, r: int)
    requires b > 0 && 0 <= r < b && a == q * b + r
    ensures a / b == q && a % b == r
  {
    var q', r' := a / b, a % b;
    assert (q' - q) * b == r - r';
    if q' != q {
      MulAtLeast(if q' > q then q' - q else q - q', b);
    }
  }

  lemma MulAtLeast(k: int, b: int)
    requires k >= 1 && b > 0
    ensures k * b >= b
  {
  }

  /** `YearStart` never decreases. */
  lemma {:induction false} YearStartMonotone(a: int, b: int)
    requires a <= b
    ensures YearStart(a) <= YearStart(b)
    decreases b - a
  {
    if a < b {
      YearStartStep(a);
      YearStartMonotone(a + 1, b);
    }
  }

  /** A day has one year and one position in it. */
  lemma SameYear(y1: int, k1: int, y2: int, k2: int)
    requires 0 <= k1 < DaysInYear(y1) && 0 <= k2 < DaysInYear(y2)
    requires YearStart(y1) + k1 == YearStart(y2) + k2
    ensures y1 == y2 && k1 == k2
  {
    if y1 < y2 {
      YearStartStep(y1);
      YearStartMonotone(y1 + 1, y2);
    } else if y2 < y1 {
      YearStartStep(y2);
      YearStartMonotone(y2 + 1, y1);
    }
  }

  lemma DaysBeforeMonthMonotone(y: int, a: int, b: int)
    requires 1 <= a <= b <= 13
    ensures DaysBeforeMonth(y, a) <= DaysBeforeMonth(y, b)
  {
  }

  /** A day of the year has one month and one day of that month. */
  lemma SameMonth(y: int, m1: int, d1: int, m2: int, d2: int)
    requires 1 <= m1 <= 12 && 1 <= d1 <= DaysInMonth(y, m1)
    requires 1 <= m2 <= 12 && 1 <= d2 <= DaysInMonth(y, m2)
    requires DaysBeforeMonth(y, m1) + d1 == DaysBeforeMonth(y, m2) + d2
    ensures m1 == m2 && d1 == d2
  {
    if m1 < m2 {
      DaysBeforeMonthMonotone(y, m1 + 1, m2);
    } else if m2 < m1 {
      DaysBeforeMonthMonotone(y, m2 + 1, m1);
    }
  }

  /** `n` in decimal, left-padded with zeros to `width` digits. */
  function Pad(n: nat, width: nat): (r: string)
    ensures |r| >= width && forall i :: 0 <= i < |r| ==> IsDigit(r[i])
    ensures width >= 1 && n < Pow10(width) ==> |r| == width
  {
    var s := NatToString(n);
    assert width >= 1 && n < Pow10(width) ==> |s| <= width by {
      if width >= 1 && n < Pow10(width) { NatToStringLength(n, width); }
    }
    if |s| >= width then s else Zeros(width - |s|) + s
  }

  function Zeros(k: nat): (r: string)
    ensures |r| == k && forall i :: 0 <= i < k ==> r[i] == '0'
  {
    if k == 0 then [] else "0" + Zeros(k - 1)
  }

  function Pow10(k: nat): nat
  {
    if k == 0 then 1 else 10 * Pow10(k - 1)
  }

  lemma {:induction false} NatToStringLength(n: nat, k: nat)
    requires k >= 1 && n < Pow10(k)
    ensures |NatToString(n)| <= k
  {
    if n >= 10 {
      NatToStringLength(n / 10, k - 1);
    }
  }

  /** The year as `toISOString` writes it: four digits for years 0-9999, else a sign and six digits. */
  function IsoYear(y: int): string
  {
    if 0 <= y <= 9999 then Pad(y, 4)
    else if y > 9999 then "+" + Pad(y, 6)
    else "-" + Pad(-y, 6)
  }

  /** `new Date(ms).toISOString()` */
  function IsoString(ms: int): (r: string)
    ensures |r| >= 24
  {
    var t := Civil(ms);
    IsoYear(t.year) + "-" + Pad(t.month, 2) + "-" + Pad(t.day, 2) + "T" + Pad(t.hour, 2)
      + (":" + Pad(t.minute, 2) + ":" + Pad(t.second, 2) + "." + Pad(t.milli, 3) + "Z")
  }

  /** For four-digit years `toISOString` writes `YYYY-MM-DDTHH:mm:ss.sssZ`: 24 characters whose
      digit groups read back as the timestamp's UTC fields. */
  lemma IsoStringFields(ms: int)
    requires 0 <= Civil(ms).year <= 9999
    ensures var r, t := IsoString(ms), Civil(ms);
      |r| == 24 && r[4] == '-' && r[7] == '-' && r[10] == 'T' && r[13] == ':' && r[16] == ':'
      && r[19] == '.' && r[23] == 'Z'
      && DigitsOf(r[..4]) == t.year && DigitsOf(r[5..7]) == t.month && DigitsOf(r[8..10]) == t.day
      && DigitsOf(r[11..13]) == t.hour && DigitsOf(r[14..16]) == t.minute
      && DigitsOf(r[17..19]) == t.second && DigitsOf(r[20..23]) == t.milli
  {
    var t := Civil(ms);
    assert Pow10(2) == 100 && Pow10(3) == 1000 && Pow10(4) == 10000 by {
      assert Pow10(1) == 10;
    }
    var y, mo, d, h := Pad(t.year, 4), Pad(t.month, 2), Pad(t.day, 2), Pad(t.hour, 2);
    var mi, se, ml := Pad(t.minute, 2), Pad(t.second, 2), Pad(t.milli, 3);
    assert IsoYear(t.year) == y;
    StampFields(y, mo, d, h, mi, se, ml);
    PadValue(t.year, 4); PadValue(t.month, 2); PadValue(t.day, 2); PadValue(t.hour, 2);
    PadValue(t.minute, 2); PadValue(t.second, 2); PadValue(t.milli, 3);
  }

  /** The value of a digit string, or -1 for text that is not all digits. */
  function DigitsOf(s: string): int
  {
    if forall i :: 0 <= i < |s| ==> IsDigit(s[i]) then DigitsValue(s) else -1
  }

  /** A padded number reads back as the number. */
  lemma PadValue(n: nat, width: nat)
    ensures DigitsOf(Pad(n, width)) == n
  {
    var s := NatToString(n);
    DigitsValueOfNatToString(n);
    if |s| < width {
      LeadingZeros(width - |s|, s);
    }
  }

  /** Zeros in front do not change the value of a digit string. */
  lemma {:induction false} LeadingZeros(k: nat, s: string)
    requires forall i :: 0 <= i < |s| ==> IsDigit(s[i])
    ensures forall i :: 0 <= i < |Zeros(k) + s| ==> IsDigit((Zeros(k) + s)[i])
    ensures DigitsValue(Zeros(k) + s) == DigitsValue(s)
    decreases |s|, k
  {
    var z := Zeros(k) + s;
    if s == [] {
      assert z == Zeros(k);
      if k > 0 {
        assert z[..k - 1] == Zeros(k - 1) + [];
        LeadingZeros(k - 1, []);
      }
    } else {
      assert z[..|z| - 1] == Zeros(k) + s[..|s| - 1];
      LeadingZeros(k, s[..|s| - 1]);
    }
  }

  /** Where the groups of a `YYYY-MM-DDTHH:mm:ss.sssZ` stamp sit. */
  lemma StampFields(y: string, mo: string, d: string, h: string, mi: string, se: string, ml: string)
    requires |y| == 4 && |mo| == 2 && |d| == 2 && |h| == 2 && |mi| == 2 && |se| == 2 && |ml| == 3
    ensures var r := y + "-" + mo + "-" + d + "T" + h + (":" + mi + ":" + se + "." + ml + "Z");
      |r| == 24 && r[..4] == y && r[4] == '-' && r[5..7] == mo && r[7] == '-' && r[8..10] == d
      && r[10] == 'T' && r[11..13] == h && r[13] == ':' && r[14..16] == mi && r[16] == ':'
      && r[17..19] == se && r[19] == '.' && r[20..23] == ml && r[23] == 'Z'
  {
    var head := y + "-" + mo + "-" + d + "T" + h;
    var tail := ":" + mi + ":" + se + "." + ml + "Z";
    assert head[..4] == y && head[5..7] == mo && head[8..10] == d && head[11..13] == h;
    assert tail[1..3] == mi && tail[4..6] == se && tail[7..10] == ml;
    var r := head + tail;
    assert r[..4] == head[..4] && r[5..7] == head[5..7] && r[8..10] == head[8..10] && r[11..13] == head[11..13];
    assert r[14..16] == tail[1..3] && r[17..19] == tail[4..6] && r[20..23] == tail[7..10];
  }

  /** `d.toISOString().slice(0, 10)`: the label of a day or week bucket. */
  function DayLabel(ms: int): string
  {
    IsoString(ms)[..10]
  }

  /** `d.toISOString().slice(0, 13) + ':00'`: the label of an hour bucket. */
  function HourLabel(ms: int): string
  {
    IsoString(ms)[..13] + ":00"
  }

  /** The shape `YYYY-MM-DD`. */
  predicate IsDateShape(s: string)
  {
    |s| == 10 && s[4] == '-' && s[7] == '-'
    && forall i :: 0 <= i < 10 && i != 4 && i != 7 ==> IsDigit(s[i])
  }

  /** The shape `YYYY-MM-DDTHH:00`. */
  predicate IsHourShape(s: string)
  {
    |s| == 16 && IsDateShape(s[..10]) && s[10] == 'T' && IsDigit(s[11]) && IsDigit(s[12])
    && s[13..] == ":00"
  }

  /** For four-digit years the bucket labels have the `YYYY-MM-DD` and `YYYY-MM-DDTHH:00` shapes. */
  lemma LabelShapes(ms: int)
    requires 0 <= Civil(ms).year <= 9999
    ensures IsDateShape(DayLabel(ms))
    ensures IsHourShape(HourLabel(ms))
  {
    var t := Civil(ms);
    var y, mo, d, h := Pad(t.year, 4), Pad(t.month, 2), Pad(t.day, 2), Pad(t.hour, 2);
    assert Pow10(2) == 100 && Pow10(4) == 10000 by {
      assert Pow10(1) == 10; assert Pow10(3) == 1000;
    }
    var rest := ":" + Pad(t.minute, 2) + ":" + Pad(t.second, 2) + "." + Pad(t.milli, 3) + "Z";
    assert IsoYear(t.year) == y;
    StampShapes(y, mo, d, h, rest);
  }
  /** For four-digit years the date digits of both labels, and the hour digits of the hour
      label, read back as the timestamp's UTC fields. */
  lemma LabelFields(ms: int)
    requires 0 <= Civil(ms).year <= 9999
    ensures var d, h, t := DayLabel(ms), HourLabel(ms), Civil(ms);
      |d| == 10 && |h| == 16
      && DigitsOf(d[..4]) == t.year && DigitsOf(d[5..7]) == t.month && DigitsOf(d[8..10]) == t.day
      && DigitsOf(h[..4]) == t.year && DigitsOf(h[5..7]) == t.month && DigitsOf(h[8..10]) == t.day
      && DigitsOf(h[11..13]) == t.hour
  {
    IsoStringFields(ms);
    var r, d, h := IsoString(ms), DayLabel(ms), HourLabel(ms);
    PrefixSlices(r, d, 10);
    PrefixSlices(r, h, 13);
    assert h[11..13] == r[11..13];
  }

  /** A prefix of at least `n >= 10` characters has the date groups of the whole. */
  lemma PrefixSlices(r: string, p: string, n: int)
    requires 10 <= n <= |r| && |p| >= n && p[..n] == r[..n]
    ensures p[..4] == r[..4] && p[5..7] == r[5..7] && p[8..10] == r[8..10]
  {
    assert p[..4] == p[..n][..4];
    assert p[5..7] == p[..n][5..7];
    assert p[8..10] == p[..n][8..10];
  }



  lemma StampShapes(y: string, mo: string, d: string, h: string, rest: string)
    requires |y| == 4 && |mo| == 2 && |d| == 2 && |h| == 2
    requires forall i :: 0 <= i < 4 ==> IsDigit(y[i])
    requires IsDigit(mo[0]) && IsDigit(mo[1]) && IsDigit(d[0]) && IsDigit(d[1])
    requires IsDigit(h[0]) && IsDigit(h[1])
    ensures IsDateShape((y + "-" + mo + "-" + d + "T" + h + rest)[..10])
    ensures IsHourShape((y + "-" + mo + "-" + d + "T" + h + rest)[..13] + ":00")
  {
    var s := y + "-" + mo + "-" + d + "T" + h + rest;
    assert s[..13] == y + "-" + mo + "-" + d + "T" + h;
    assert s[..10] == y + "-" + mo + "-" + d;
  }

  /** `date_trunc('hour', ts)` */
  function TruncHour(ms: int): (r: int)
    ensures r <= ms < r + MsPerHour && r % MsPerHour == 0
  {
    ms - ms % MsPerHour
  }

  /** `date_trunc('day', ts)` */
  function TruncDay(ms: int): (r: int)
    ensures r <= ms < r + MsPerDay && r % MsPerDay == 0
  {
    ms - ms % MsPerDay
  }

  /** `date_trunc('week', ts)`: midnight of the Monday on or before `ts`
      (1970-01-01 was a Thursday, three days after a Monday). */
  function TruncWeek(ms: int): (r: int)
    ensures r <= ms < r + MsPerWeek
    ensures r % MsPerDay == 0 && (r / MsPerDay + 3) % 7 == 0
  {
    var day := ms / MsPerDay;
    (day - (day + 3) % 7) * MsPerDay
  }

  datatype Granularity = Hour | Day | Week

  /** The bucket of `ms` at the given granularity (the `date_trunc` call). */
  function Trunc(g: Granularity, ms: int): (r: int)
    ensures r <= ms
  {
    match g
    case Hour => TruncHour(ms)
    case Day => TruncDay(ms)
    case Week => TruncWeek(ms)
  }

  /** A later timestamp never falls in an earlier bucket. */
  lemma TruncMonotone(g: Granularity, a: int, b: int)
    requires a <= b
    ensures Trunc(g, a) <= Trunc(g, b)
  {
    match g
    case Hour => HourMonotone(a, b);
    case Day => DayMonotone(a, b);
    case Week => WeekMonotone(a, b);
  }

  lemma HourMonotone(a: int, b: int)
    requires a <= b
    ensures TruncHour(a) <= TruncHour(b)
  {
    assert a / MsPerHour <= b / MsPerHour;
    assert TruncHour(a) == (a / MsPerHour) * MsPerHour && TruncHour(b) == (b / MsPerHour) * MsPerHour;
  }

  lemma DayMonotone(a: int, b: int)
    requires a <= b
    ensures TruncDay(a) <= TruncDay(b)
  {
    assert a / MsPerDay <= b / MsPerDay;
    assert TruncDay(a) == (a / MsPerDay) * MsPerDay && TruncDay(b) == (b / MsPerDay) * MsPerDay;
  }

  lemma WeekMonotone(a: int, b: int)
    requires a <= b
    ensures TruncWeek(a) <= TruncWeek(b)
  {
    var da, db := a / MsPerDay, b / MsPerDay;
    assert da <= db;
    var qa, qb := (da + 3) / 7, (db + 3) / 7;
    assert qa <= qb;
    assert da - (da + 3) % 7 == 7 * qa - 3;
    assert db - (db + 3) % 7 == 7 * qb - 3;
    assert TruncWeek(a) == (7 * qa - 3) * MsPerDay && TruncWeek(b) == (7 * qb - 3) * MsPerDay;
  }

  /** Truncating a bucket start gives the bucket itself. */
  lemma TruncIdempotent(g: Granularity, ms: int)
    ensures Trunc(g, Trunc(g, ms)) == Trunc(g, ms)
  {
  }
}
