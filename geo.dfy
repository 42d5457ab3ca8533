/** Country lookup for click analytics (src/lib/geo.ts): private and loopback
    addresses are recognised by string tests and never looked up; other addresses
    go to the geoip database, which is a parameter here. */
module Geo {
  import opened Common

  /** What the geoip database returns for an address it knows. */
  datatype GeoRecord = GeoRecord(country: string, city: string)

  /** `parseInt(s, 10)`: leading whitespace, an optional sign, then the longest run of
      decimal digits; `None` stands for NaN (no digit). */
  function ParseIntPrefix(s: string): (r: Option<int>)
    ensures r.Some? ==> exists k :: 0 < k <= |TrimStart(s)| && LeadingNumber(TrimStart(s), k, r.value)
  {
    var t := TrimStart(s);
    if t != [] && (t[0] == '-' || t[0] == '+') then
      var n := DigitRun(t[1..]);
      if n == 0 then None
      else
        assert t[1..][..n] == t[1..n + 1];
        var v: int := DigitsValue(t[1..n + 1]);
        assert LeadingNumber(t, n + 1, if t[0] == '-' then -v else v);
        Some(if t[0] == '-' then -v else v)
    else
      var n := DigitRun(t);
      if n == 0 then None
      else
        assert LeadingNumber(t, n, DigitsValue(t[..n]));
        Some(DigitsValue(t[..n]))
  }

  /** `t[..k]` is an optionally signed run of digits worth `v`. */
  ghost predicate LeadingNumber(t: string, k: int, v: int)
  {
    0 < k <= |t|
    && ((t[0] == '-' && k >= 2 && AllDigits(t[1..k]) && v == -(DigitsValue(t[1..k]) as int))
        || (t[0] == '+' && k >= 2 && AllDigits(t[1..k]) && v == DigitsValue(t[1..k]))
        || (AllDigits(t[..k]) && v == DigitsValue(t[..k])))
  }

  predicate AllDigits(s: string)
  {
    forall i :: 0 <= i < |s| ==> IsDigit(s[i])
  }

  /** Length of the run of decimal digits at the start of `s`. */
  function DigitRun(s: string): (n: nat)
    ensures n <= |s| && AllDigits(s[..n])
    ensures n < |s| ==> !IsDigit(s[n])
  {
    if s == [] || !IsDigit(s[0]) then 0
    else
      var n := 1 + DigitRun(s[1..]);
      assert s[..n] == [s[0]] + s[1..][..n - 1];
      n
  }

  /** `isPrivateIp` (src/lib/geo.ts:6-26): three exact loopback names, two prefixes, and the
      172.16-31 block read from the second dot-field with `parseInt`. */
  function IsPrivateIp(ip: string): (r: bool)
    ensures r <==>
              (ip == "127.0.0.1" || ip == "::1" || ip == "localhost"
               || StartsWith(ip, "10.") || StartsWith(ip, "192.168.")
               || (StartsWith(ip, "172.") && PrivateSecondOctet(ParseIntPrefix(BeforeFirst(ip[4..], '.')))))
  {
    if ip == "127.0.0.1" || ip == "::1" || ip == "localhost"
       || StartsWith(ip, "10.") || StartsWith(ip, "192.168.") then true
    else if StartsWith(ip, "172.") then
      SecondFieldOf172(ip);
      var second := SecondField(ip, '.');
      second.Some? && PrivateSecondOctet(ParseIntPrefix(second.value))
    else false
  }

  predicate PrivateSecondOctet(octet: Option<int>)
  {
    octet.Some? && 16 <= octet.value <= 31
  }

  /** `getCountry` (src/lib/geo.ts:32-39): `None` for the empty string and for private
      addresses, else the country of the lookup, `None` when the lookup finds nothing. */
  function GetCountry(ip: string, lookup: string -> Option<GeoRecord>): (r: Option<string>)
    ensures ip == [] || IsPrivateIp(ip) ==> r == None
    ensures ip != [] && !IsPrivateIp(ip) ==>
      r == (if lookup(ip).Some? then Some(lookup(ip).value.country) else None)
  {
    if ip == [] || IsPrivateIp(ip) then None
    else match lookup(ip)
      case Some(rec) => Some(rec.country)
      case None => None
  }

  /** The field after "172." is the text up to the next dot. */
  lemma SecondFieldOf172(ip: string)
    requires StartsWith(ip, "172.")
    ensures SecondField(ip, '.') == Some(BeforeFirst(ip[4..], '.'))
  {
    assert ip[..4] == "172.";
    assert BeforeFirst(ip, '.') == "172" by {
      assert ip[0] == '1' && ip[1] == '7' && ip[2] == '2' && ip[3] == '.';
      assert BeforeFirst(ip[3..], '.') == [];
      assert BeforeFirst(ip[2..], '.') == [ip[2]] + BeforeFirst(ip[3..], '.');
      assert BeforeFirst(ip[1..], '.') == [ip[1]] + BeforeFirst(ip[2..], '.');
    }
  }

  /** An address starting "172." is private exactly when its second dot-field parses
      (as `parseInt` does) to a number from 16 to 31. */
  lemma Private172Iff(ip: string)
    requires StartsWith(ip, "172.")
    ensures IsPrivateIp(ip) <==> PrivateSecondOctet(ParseIntPrefix(BeforeFirst(ip[4..], '.')))
  {
    SecondFieldOf172(ip);
    assert ip[..3] != "10." && !StartsWith(ip, "192.168.") by {
      assert ip[0] == '1' && ip[1] == '7';
    }
    assert ip != "127.0.0.1" && ip != "::1" && ip != "localhost" by {
      assert ip[1] == '7' && ip[3] == '.';
    }
  }

  /** Anything beginning "10." or "192.168." is private, whatever follows. */
  lemma PrefixesArePrivate(rest: string)
    ensures IsPrivateIp("10." + rest) && IsPrivateIp("192.168." + rest)
  {
    assert ("10." + rest)[..3] == "10.";
    assert ("192.168." + rest)[..8] == "192.168.";
  }

  /** The loopback test is an exact match: other 127.x addresses are public. */
  lemma LoopbackIsExact()
    ensures !IsPrivateIp("127.0.0.2")
  {
    assert !StartsWith("127.0.0.2", "172.") by { assert "127.0.0.2"[1] == '2'; }
    assert !StartsWith("127.0.0.2", "10.") by { assert "127.0.0.2"[1] == '2'; }
    assert !StartsWith("127.0.0.2", "192.168.") by { assert "127.0.0.2"[1] == '2'; }
  }

  lemma ParseTwoDigits(a: char, b: char)
    requires IsDigit(a) && IsDigit(b)
    ensures ParseIntPrefix([a, b]) == Some(10 * (a as int - '0' as int) + (b as int - '0' as int))
  {
    var s := [a, b];
    assert !IsJsWhitespace(a);
    assert TrimStart(s) == s;
    assert s[1..] == [b] && [b][1..] == [];
    assert DigitRun([b]) == 1;
    assert DigitRun(s) == 2;
    assert s[..2] == s;
    assert s[..1] == [a] && [a][..0] == [];
    assert DigitsValue(s) == DigitsValue([a]) * 10 + (b as int - '0' as int);
    assert DigitsValue([a]) == a as int - '0' as int;
  }

  /** The 172 block ends at 31: 172.31.x.x is private, 172.32.x.x is not. */
  lemma Block172Upper()
    ensures IsPrivateIp("172.31.255.255") && !IsPrivateIp("172.32.0.1")
  {
    var p, q := "172.31.255.255", "172.32.0.1";
    assert p[..4] == "172." && p[4] == '3' && p[5] == '1' && p[6] == '.';
    assert q[..4] == "172." && q[4] == '3' && q[5] == '2' && q[6] == '.';
    Example172(p, '3', '1');
    Example172(q, '3', '2');
  }

  /** The 172 block starts at 16: 172.16.x.x is private, 172.15.x.x is not. */
  lemma Block172Lower()
    ensures IsPrivateIp("172.16.0.1") && !IsPrivateIp("172.15.0.1")
  {
    var p, q := "172.16.0.1", "172.15.0.1";
    assert p[..4] == "172." && p[4] == '1' && p[5] == '6' && p[6] == '.';
    assert q[..4] == "172." && q[4] == '1' && q[5] == '5' && q[6] == '.';
    Example172(p, '1', '6');
    Example172(q, '1', '5');
  }

  /** For "172.ab." with two digits, private exactly when `ab` is from 16 to 31. */
  lemma Example172(ip: string, a: char, b: char)
    requires |ip| >= 7 && ip[..4] == "172." && ip[4] == a && ip[5] == b && ip[6] == '.'
    requires IsDigit(a) && IsDigit(b)
    ensures IsPrivateIp(ip) <==> 16 <= 10 * (a as int - '0' as int) + (b as int - '0' as int) <= 31
  {
    assert StartsWith(ip, "172.");
    Private172Iff(ip);
    TwoDigitsThenDot(ip[4..], a, b);
    ParseTwoDigits(a, b);
  }

  lemma TwoDigitsThenDot(rest: string, a: char, b: char)
    requires |rest| >= 3 && rest[0] == a && rest[1] == b && rest[2] == '.'
    requires IsDigit(a) && IsDigit(b)
    ensures BeforeFirst(rest, '.') == [a, b]
  {
    assert rest[1..][1..] == rest[2..];
    assert BeforeFirst(rest[2..], '.') == [];
    assert BeforeFirst(rest[1..], '.') == [b];
  }

  /** A private or empty address gets no country whatever the database says: the lookup
      is never consulted. */
  lemma PrivateSkipsLookup(ip: string, l1: string -> Option<GeoRecord>, l2: string -> Option<GeoRecord>)
    requires ip == [] || IsPrivateIp(ip)
    ensures GetCountry(ip, l1) == GetCountry(ip, l2) == None
  {
  }
}
