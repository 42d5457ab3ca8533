/** The display helpers of the Next.js front end (src/lib/utils.ts): truncation, relative time,
    API-key masking, the CSV text of an export and country flags. The clock, the user's date
    formatting and the download are parameters or left out. */
module Utils {
  import opened Common
  import Calendar

  // ---- truncate ----

  const Ellipsis: char := '…'

  /** `truncate(str, maxLen)` (utils.ts:11-14): the first `maxLen` characters and one '…'. */
  function Truncate(str: string, maxLen: int): (r: string)
    ensures |str| <= maxLen ==> r == str
    ensures |str| > maxLen ==> 1 <= |r| <= |str| + 1 && r[|r| - 1] == Ellipsis && r[..|r| - 1] == str[..|r| - 1]
    ensures |str| > maxLen && maxLen >= 0 ==> |r| == maxLen + 1
    ensures |str| > maxLen && maxLen < 0 ==> |r| == Max(|str| + maxLen, 0) + 1
  {
    if |str| <= maxLen then str else SliceTo(str, maxLen) + [Ellipsis]
  }

  /** Truncating twice with the same length is truncating once. */
  lemma TruncateIdempotent(str: string, maxLen: nat)
    ensures Truncate(Truncate(str, maxLen), maxLen) == Truncate(str, maxLen)
  {
    if |str| > maxLen {
      var t := Truncate(str, maxLen);
      assert t[..maxLen] == str[..maxLen];
    }
  }

  // ---- formatRelative ----

  /** Flooring to seconds, then minutes, hours and days is flooring once by the longer unit. */
  lemma FloorChain(diff: int)
    ensures diff / 1000 / 60 == diff / 60000
    ensures diff / 60000 / 60 == diff / 3600000
    ensures diff / 3600000 / 24 == diff / 86400000
  {
  }

  /** `formatRelative(date)` (utils.ts:37-51) at time `now`. `stamp` is `new Date(date).getTime()`,
      `None` for an invalid date (NaN); `formatted` is `formatDate(date)`. The source floors the
      seconds, minutes, hours and days one after another. */
  function FormatRelative(now: int, stamp: Option<int>, formatted: string): (r: string)
    ensures stamp.None? ==> r == "just now"
    ensures stamp.Some? && now - stamp.value >= 31 * Calendar.MsPerDay ==> r == formatted
    ensures stamp.Some? && Calendar.MsPerDay <= now - stamp.value < 31 * Calendar.MsPerDay ==>
      r == IntToString((now - stamp.value) / Calendar.MsPerDay) + "d ago"
    ensures stamp.Some? && Calendar.MsPerHour <= now - stamp.value < Calendar.MsPerDay ==>
      r == IntToString((now - stamp.value) / Calendar.MsPerHour) + "h ago"
    ensures stamp.Some? && Calendar.MsPerMinute <= now - stamp.value < Calendar.MsPerHour ==>
      r == IntToString((now - stamp.value) / Calendar.MsPerMinute) + "m ago"
    ensures stamp.Some? && now - stamp.value < Calendar.MsPerMinute ==> r == "just now"
  {
    if stamp.None? then "just now"
    else
      var diff := now - stamp.value;
      var seconds := diff / 1000;
      var minutes := seconds / 60;
      var hours := minutes / 60;
      var days := hours / 24;
      FloorChain(diff);
      if days > 30 then formatted
      else if days > 0 then IntToString(days) + "d ago"
      else if hours > 0 then IntToString(hours) + "h ago"
      else if minutes > 0 then IntToString(minutes) + "m ago"
      else "just now"
  }

  /** A date in the future reads "just now". */
  lemma FutureIsJustNow(now: int, stamp: int, formatted: string)
    requires stamp >= now
    ensures FormatRelative(now, Some(stamp), formatted) == "just now"
  {
  }

  // ---- maskApiKey ----

  const Bullet: char := '•'

  function Bullets(n: nat): (r: string)
    ensures |r| == n && forall i :: 0 <= i < n ==> r[i] == Bullet
  {
    if n == 0 then [] else [Bullet] + Bullets(n - 1)
  }

  /** `maskApiKey(key)` (utils.ts:56-59): four bullets for a short key, otherwise eight bullets
      and the last four characters. */
  function MaskApiKey(key: string): (r: string)
    ensures |key| <= 4 ==> r == Bullets(4)
    ensures |key| > 4 ==> |r| == 12 && r[..8] == Bullets(8) && r[8..] == key[|key| - 4..]
  {
    if |key| <= 4 then Bullets(4) else Bullets(8) + key[|key| - 4..]
  }

  /** The mask shows the last four characters and nothing else: two long keys get the same mask
      exactly when they end alike, and all short keys get the same mask. */
  lemma MaskRevealsOnlyLastFour(a: string, b: string)
    requires (|a| > 4 && |b| > 4) || (|a| <= 4 && |b| <= 4)
    ensures |a| > 4 ==> (MaskApiKey(a) == MaskApiKey(b) <==> a[|a| - 4..] == b[|b| - 4..])
    ensures |a| <= 4 ==> MaskApiKey(a) == MaskApiKey(b)
  {
    if |a| > 4 && MaskApiKey(a) == MaskApiKey(b) {
      assert MaskApiKey(a)[8..] == MaskApiKey(b)[8..];
    }
  }

  // ---- downloadCSV ----

  /** A property value: `Missing` is null or undefined, `Text` is `String(value)` of any other. */
  datatype Value = Missing | Text(s: string)

  /** An object, as its `[key, value]` entries in `Object.keys` order. */
  type Row = seq<(string, Value)>

  /** The keys of a row. */
  function Keys(row: Row): (r: seq<string>)
    ensures |r| == |row| && forall i :: 0 <= i < |row| ==> r[i] == row[i].0
  {
    if row == [] then [] else [row[0].0] + Keys(row[1..])
  }

  /** `row[h]`: an absent property is undefined. */
  function Lookup(row: Row, h: string): (v: Value)
    ensures v.Text? ==> exists i :: 0 <= i < |row| && row[i] == (h, v)
    ensures (forall i :: 0 <= i < |row| ==> row[i].0 != h) ==> v == Missing
  {
    if row == [] then Missing else if row[0].0 == h then row[0].1 else Lookup(row[1..], h)
  }

  /** `String(row[h] ?? '')`, wrapped in double quotes when it contains a comma. Nothing inside
      is escaped. */
  function Cell(v: Value): (r: string)
    ensures v.Missing? ==> r == []
    ensures v.Text? && ContainsChar(v.s, ',') ==> r == "\"" + v.s + "\""
    ensures v.Text? && !ContainsChar(v.s, ',') ==> r == v.s
  {
    if v.Missing? then [] else if ContainsChar(v.s, ',') then "\"" + v.s + "\"" else v.s
  }

  function Cells(row: Row, headers: seq<string>): (r: seq<string>)
    ensures |r| == |headers| && forall i :: 0 <= i < |headers| ==> r[i] == Cell(Lookup(row, headers[i]))
  {
    if headers == [] then [] else [Cell(Lookup(row, headers[0]))] + Cells(row, headers[1..])
  }

  function Lines(rows: seq<Row>, headers: seq<string>): (r: seq<string>)
    ensures |r| == |rows| && forall i :: 0 <= i < |rows| ==> r[i] == Join(Cells(rows[i], headers), ",")
  {
    if rows == [] then [] else [Join(Cells(rows[0], headers), ",")] + Lines(rows[1..], headers)
  }

  /** The text `downloadCSV(rows, filename)` puts in its blob (utils.ts:78-89): the keys of the
      first row as the header line, then one line per row; no rows, no file. */
  function Csv(rows: seq<Row>): (r: Option<string>)
    ensures r.None? <==> rows == []
    ensures rows != [] ==> r.value == Join([Join(Keys(rows[0]), ",")] + Lines(rows, Keys(rows[0])), "\n")
  {
    if rows == [] then None
    else
      var headers := Keys(rows[0]);
      Some(Join([Join(headers, ",")] + Lines(rows, headers), "\n"))
  }

  /** The number of times `c` occurs in `s`. */
  function CountChar(s: string, c: char): nat
  {
    if s == [] then 0 else (if s[0] == c then 1 else 0) + CountChar(s[1..], c)
  }

  lemma {:induction false} CountCharAppend(a: string, b: string, c: char)
    ensures CountChar(a + b, c) == CountChar(a, c) + CountChar(b, c)
  {
    if a == [] {
      assert a + b == b;
    } else {
      assert (a + b)[0] == a[0] && (a + b)[1..] == a[1..] + b;
      CountCharAppend(a[1..], b, c);
    }
  }

  /** Joining `n` parts in which `c` never occurs, with the one-character separator `c`, gives
      `n - 1` occurrences of `c`. */
  lemma {:induction false} JoinCount(parts: seq<string>, c: char)
    requires parts != []
    requires forall i :: 0 <= i < |parts| ==> CountChar(parts[i], c) == 0
    ensures CountChar(Join(parts, [c]), c) == |parts| - 1
  {
    if |parts| > 1 {
      JoinCount(parts[1..], c);
      CountCharAppend(parts[0] + [c], Join(parts[1..], [c]), c);
      CountCharAppend(parts[0], [c], c);
    }
  }

  lemma {:induction false} NoCommaNoQuote(v: Value)
    requires v.Text? ==> CountChar(v.s, ',') == 0
    ensures CountChar(Cell(v), ',') == 0
  {
    if v.Text? && ContainsChar(v.s, ',') {
      var i :| 0 <= i < |v.s| && v.s[i] == ',';
      CountPositive(v.s, ',', i);
    }
  }

  lemma {:induction false} CountPositive(s: string, c: char, i: int)
    requires 0 <= i < |s| && s[i] == c
    ensures CountChar(s, c) > 0
  {
    if i > 0 {
      CountPositive(s[1..], c, i - 1);
    }
  }

  /** With no comma in any value, each data line has one field per header. */
  lemma FieldsPerLine(row: Row, headers: seq<string>)
    requires headers != []
    requires forall i :: 0 <= i < |row| ==> row[i].1.Text? ==> CountChar(row[i].1.s, ',') == 0
    ensures CountChar(Join(Cells(row, headers), ","), ',') == |headers| - 1
  {
    var cells := Cells(row, headers);
    forall i | 0 <= i < |cells| ensures CountChar(cells[i], ',') == 0 {
      var v := Lookup(row, headers[i]);
      if v.Text? {
        var k :| 0 <= k < |row| && row[k] == (headers[i], v);
      }
      NoCommaNoQuote(v);
    }
    JoinCount(cells, ',');
  }

  /** With no line break in any key or value, the text has one line per row after the header. */
  lemma LinesPerRow(rows: seq<Row>)
    requires rows != []
    requires forall i :: 0 <= i < |rows[0]| ==> CountChar(rows[0][i].0, '\n') == 0
    requires forall r: Row, i :: r in rows && 0 <= i < |r| && r[i].1.Text? ==> CountChar(r[i].1.s, '\n') == 0
    ensures CountChar(Csv(rows).value, '\n') == |rows|
  {
    var headers := Keys(rows[0]);
    var lines := [Join(headers, ",")] + Lines(rows, headers);
    forall i | 0 <= i < |lines| ensures CountChar(lines[i], '\n') == 0 {
      if i == 0 {
        NoBreakInJoin(headers);
      } else {
        var row := rows[i - 1];
        var cells := Cells(row, headers);
        forall k | 0 <= k < |cells| ensures CountChar(cells[k], '\n') == 0 {
          var v := Lookup(row, headers[k]);
          if v.Text? {
            var j :| 0 <= j < |row| && row[j] == (headers[k], v);
            assert row in rows;
            NoBreakInCell(v.s);
          }
        }
        NoBreakInJoin(cells);
      }
    }
    JoinCount(lines, '\n');
  }

  /** A value without a line break stays without one once quoted. */
  lemma NoBreakInCell(s: string)
    requires CountChar(s, '\n') == 0
    ensures CountChar(Cell(Text(s)), '\n') == 0
  {
    CountCharAppend("\"" + s, "\"", '\n');
    CountCharAppend("\"", s, '\n');
  }

  /** Joining with commas adds no line break. */
  lemma {:induction false} NoBreakInJoin(parts: seq<string>)
    requires forall i :: 0 <= i < |parts| ==> CountChar(parts[i], '\n') == 0
    ensures CountChar(Join(parts, ","), '\n') == 0
  {
    if |parts| > 1 {
      NoBreakInJoin(parts[1..]);
      CountCharAppend(parts[0] + ",", Join(parts[1..], ","), '\n');
      CountCharAppend(parts[0], ",", '\n');
    }
  }

  /** An embedded line break is written as is: one row then spans two lines. */
  lemma LineBreakSplitsRow()
    ensures var rows := [[("note", Text("a\nb"))]];
      CountChar(Csv(rows).value, '\n') == 2
  {
    var rows: seq<Row> := [[("note", Text("a\nb"))]];
    assert Keys(rows[0]) == ["note"];
    assert Lookup(rows[0], "note") == Text("a\nb");
    assert !ContainsChar("a\nb", ',');
    assert Lines(rows, ["note"]) == ["a\nb"];
    assert Csv(rows).value == "note" + ("\n" + "a\nb");
    assert CountChar("b", '\n') == 0;
    assert CountChar("\nb", '\n') == 1;
    assert CountChar("a\nb", '\n') == 1;
    assert CountChar("\n" + "a\nb", '\n') == 2;
    assert CountChar("e", '\n') == 0;
    assert CountChar("te", '\n') == 0;
    assert CountChar("ote", '\n') == 0;
    assert CountChar("note", '\n') == 0;
    CountCharAppend("note", "\n" + "a\nb", '\n');
  }

  // ---- countryFlag ----

  /** U+1F310 GLOBE WITH MERIDIANS. */
  const Globe: int := 0x1F310

  /** REGIONAL INDICATOR SYMBOL LETTER A. */
  const RegionalA: int := 0x1F1E6

  /** `countryFlag(code)` (utils.ts:103-109), as the code points of the result: the globe
      unless the code has two characters, else one regional indicator per upper-cased
      character, offset from 'A'. */
  function CountryFlag(code: string): (r: seq<int>)
    ensures |code| != 2 ==> r == [Globe]
    ensures |code| == 2 ==>
      r == [RegionalA + UpperChar(code[0]) as int - 65, RegionalA + UpperChar(code[1]) as int - 65]
  {
    if |code| != 2 then [Globe]
    else [RegionalA + UpperChar(code[0]) as int - 65, RegionalA + UpperChar(code[1]) as int - 65]
  }

  /** Two ASCII letters give two regional indicator symbols, and two codes give the same flag
      exactly when they are the same letters up to case. */
  lemma FlagOfLetters(a: string, b: string)
    requires |a| == 2 && IsAsciiLetter(a[0]) && IsAsciiLetter(a[1])
    requires |b| == 2 && IsAsciiLetter(b[0]) && IsAsciiLetter(b[1])
    ensures |CountryFlag(a)| == 2 && forall i :: 0 <= i < 2 ==> RegionalA <= CountryFlag(a)[i] <= RegionalA + 25
    ensures CountryFlag(a) == CountryFlag(b) <==> ToUpper(a) == ToUpper(b)
  {
    UpperLetter(a[0]); UpperLetter(a[1]); UpperLetter(b[0]); UpperLetter(b[1]);
    var ua, ub := ToUpper(a), ToUpper(b);
    assert ua == [UpperChar(a[0]), UpperChar(a[1])];
    assert ub == [UpperChar(b[0]), UpperChar(b[1])];
  }

  /** An ASCII letter upper-cased is one of 'A' to 'Z'. */
  lemma UpperLetter(c: char)
    requires IsAsciiLetter(c)
    ensures 'A' <= UpperChar(c) <= 'Z'
  {
  }

  /** The flag does not depend on the case of the code. */
  lemma FlagIgnoresCase(code: string)
    ensures CountryFlag(ToLower(code)) == CountryFlag(code)
  {
  }
}
