/** Destination URL checks (src/lib/url-validator.ts): the input must parse, use http or
    https, and not name a loopback host or an address in the private ranges of section 3 of
    RFC 1918, the link-local block 169.254/16 of RFC 3927, 127/8 or 0/8. The WHATWG URL
    parser is a parameter: it yields the protocol, the hostname and the serialization. */
module UrlValidator {
  import opened Common

  /** What `new URL(input)` exposes that the validator reads. */
  datatype ParsedUrl = ParsedUrl(protocol: string, hostname: string, serialization: string)

  /** `{ valid: true, normalized }` or `{ valid: false, error }`. */
  datatype UrlValidation = Valid(normalized: string) | Invalid(error: string)

  const ErrFormat: string := "Invalid URL format."
  const ErrScheme: string := "Only http and https URLs are allowed."
  const ErrLoopback: string := "Localhost and loopback URLs are not allowed."
  const ErrPrivate: string := "Private and reserved IP addresses are not allowed."

  /** BLOCKED_HOSTNAMES */
  predicate IsBlockedHost(h: string)
  {
    h == "localhost" || h == "0.0.0.0" || h == "[::1]" || h == "[::0]"
  }

  /** One entry of PRIVATE_RANGES: a literal prefix, or `^172\.(1[6-9]|2[0-9]|3[01])\.`. */
  datatype Range = Prefix(p: string) | Block172

  const PrivateRanges: seq<Range> :=
    [Prefix("127."), Prefix("10."), Block172, Prefix("192.168."), Prefix("0."), Prefix("169.254.")]

  /** `range.test(h)` */
  predicate RangeTest(r: Range, h: string)
  {
    match r
    case Prefix(p) => StartsWith(h, p)
    case Block172 =>
      |h| >= 7 && h[..4] == "172." && h[6] == '.'
      && ((h[4] == '1' && '6' <= h[5] <= '9') || (h[4] == '2' && IsDigit(h[5]))
          || (h[4] == '3' && (h[5] == '0' || h[5] == '1')))
  }

  /** The `for` over PRIVATE_RANGES finds a matching pattern. */
  predicate InPrivateRange(h: string)
  {
    exists i :: 0 <= i < |PrivateRanges| && RangeTest(PrivateRanges[i], h)
  }

  /** `validateUrl(input)` (src/lib/url-validator.ts:30-56): the checks run in the order parse,
      scheme, blocked host, private range, and the first one that fails decides the error. */
  function ValidateUrl(input: string, parse: string -> Option<ParsedUrl>): (r: UrlValidation)
    ensures r.Valid? <==>
      parse(input).Some? && parse(input).value.protocol in ["http:", "https:"]
      && !IsBlockedHost(ToLower(parse(input).value.hostname))
      && !InPrivateRange(ToLower(parse(input).value.hostname))
    ensures r.Valid? ==> r.normalized == parse(input).value.serialization
    ensures r.Invalid? ==> r.error in [ErrFormat, ErrScheme, ErrLoopback, ErrPrivate]
  {
    match parse(input)
    case None => Invalid(ErrFormat)
    case Some(url) =>
      if url.protocol !in ["http:", "https:"] then Invalid(ErrScheme)
      else
        var hostname := ToLower(url.hostname);
        if IsBlockedHost(hostname) then Invalid(ErrLoopback)
        else if InPrivateRange(hostname) then Invalid(ErrPrivate)
        else Valid(url.serialization)
  }

  /** Each error message belongs to exactly one failed check, and every earlier check passed. */
  lemma ErrorsFollowCheckOrder(input: string, parse: string -> Option<ParsedUrl>)
    ensures ValidateUrl(input, parse) == Invalid(ErrFormat) <==> parse(input).None?
    ensures ValidateUrl(input, parse) == Invalid(ErrScheme) <==>
      parse(input).Some? && parse(input).value.protocol !in ["http:", "https:"]
    ensures ValidateUrl(input, parse) == Invalid(ErrLoopback) <==>
      parse(input).Some? && parse(input).value.protocol in ["http:", "https:"]
      && IsBlockedHost(ToLower(parse(input).value.hostname))
    ensures ValidateUrl(input, parse) == Invalid(ErrPrivate) <==>
      parse(input).Some? && parse(input).value.protocol in ["http:", "https:"]
      && !IsBlockedHost(ToLower(parse(input).value.hostname))
      && InPrivateRange(ToLower(parse(input).value.hostname))
  {
    assert ErrFormat != ErrScheme && ErrFormat != ErrLoopback && ErrFormat != ErrPrivate;
    assert ErrScheme != ErrLoopback && ErrScheme != ErrPrivate && ErrLoopback != ErrPrivate;
  }

  /** The 172 pattern accepts exactly "172." followed by a two-digit number from 16 to 31 and a dot. */
  lemma Block172Iff(h: string)
    ensures RangeTest(Block172, h) <==>
      |h| >= 7 && h[..4] == "172." && IsDigit(h[4]) && IsDigit(h[5]) && h[6] == '.'
      && 16 <= DigitsValue(h[4..6]) <= 31
  {
    if |h| >= 7 && IsDigit(h[4]) && IsDigit(h[5]) {
      var d := h[4..6];
      assert |d| == 2 && d[..1] == [h[4]] && d[1] == h[5] && [h[4]][..0] == [];
      assert DigitsValue([h[4]]) == h[4] as int - '0' as int;
      assert DigitsValue(d) == 10 * (h[4] as int - '0' as int) + (h[5] as int - '0' as int);
    }
  }

  /** The range test is a prefix test on the hostname string, not an address match on whole
      octets: a name such as "10.example.com" is rejected too. */
  lemma PrefixNameRejected(protocol: string, rest: string, serialization: string)
    requires protocol == "http:" || protocol == "https:"
    ensures ValidateUrl("", _ => Some(ParsedUrl(protocol, "10." + rest, serialization))) == Invalid(ErrPrivate)
  {
    var h := ToLower("10." + rest);
    assert h[..3] == "10." by {
      assert h[0] == LowerChar('1') && h[1] == LowerChar('0') && h[2] == LowerChar('.');
    }
    assert !IsBlockedHost(h) by {
      assert h[0] == '1' && h[1] == '0';
    }
    assert RangeTest(PrivateRanges[1], h);
  }

  /** Hostnames are compared after ASCII lower-casing, so case never changes the verdict. */
  lemma HostCaseIrrelevant(input: string, p1: ParsedUrl, p2: ParsedUrl)
    requires p1.protocol == p2.protocol && p1.serialization == p2.serialization
    requires ToLower(p1.hostname) == ToLower(p2.hostname)
    ensures ValidateUrl(input, _ => Some(p1)) == ValidateUrl(input, _ => Some(p2))
  {
  }
}
