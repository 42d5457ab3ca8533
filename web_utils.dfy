/** The helpers of the React SPA (web/src/lib/utils.ts): truncation. Its `shortUrl(slug)` builds
    the same text as the API's short links, so it is `Common.ShortUrl` with the page's
    `window.location.origin` as the base URL. */
module WebUtils {
  import opened Common

  const DefaultMaxLen: int := 50

  /** The suffix the source appends: U+00E2, U+20AC, U+00A6, which are the UTF-8 bytes
      E2 80 A6 of '…' read as Windows-1252. */
  const WrittenSuffix: string := "\U{E2}\U{20AC}\U{A6}"

  /** The suffix the doc comment promises: one '…' (U+2026). */
  const Ellipsis: char := '\U{2026}'

  /** `truncate(str, maxLen = 50)` as written (utils.ts:6-9); `None` is an omitted `maxLen`. */
  function Truncate(str: string, maxLen: Option<int>): (r: string)
    ensures var n := if maxLen.Some? then maxLen.value else DefaultMaxLen;
      (|str| <= n ==> r == str)
      && (|str| > n && n >= 0 ==> r == str[..n] + WrittenSuffix && |r| == n + 3)
      && (n < 0 ==> r == str[..Max(|str| + n, 0)] + WrittenSuffix)
  {
    var n := if maxLen.Some? then maxLen.value else DefaultMaxLen;
    if |str| <= n then str else SliceTo(str, n) + WrittenSuffix
  }

  /** As written, a cut string ends in three characters, none of them an ellipsis: "abcdef" cut
      to 3 is six characters long. */
  lemma WrittenSuffixIsNotAnEllipsis()
    ensures |WrittenSuffix| == 3 && Ellipsis !in WrittenSuffix
    ensures Truncate("abcdef", Some(3)) == "abc" + WrittenSuffix
    ensures |Truncate("abcdef", Some(3))| == 6
  {
    assert "abcdef"[..3] == "abc";
  }

  /** The intended `truncate`: the first `maxLen` characters and one '…'. */
  function TruncateIntended(str: string, maxLen: Option<int>): (r: string)
    ensures var n := if maxLen.Some? then maxLen.value else DefaultMaxLen;
      (|str| <= n ==> r == str)
      && (|str| > n && n >= 0 ==> r == str[..n] + [Ellipsis] && |r| == n + 1)
      && (n < 0 ==> r == str[..Max(|str| + n, 0)] + [Ellipsis])
  {
    var n := if maxLen.Some? then maxLen.value else DefaultMaxLen;
    if |str| <= n then str else SliceTo(str, n) + [Ellipsis]
  }

  /** The intended truncation never grows a string past `maxLen + 1`, keeps its first `maxLen`
      characters, and cutting twice is cutting once. */
  lemma TruncateIntendedBounds(str: string, n: nat)
    ensures |TruncateIntended(str, Some(n))| <= n + 1
    ensures Min(n, |str|) <= |TruncateIntended(str, Some(n))|
      && TruncateIntended(str, Some(n))[..Min(n, |str|)] == str[..Min(n, |str|)]
    ensures TruncateIntended(TruncateIntended(str, Some(n)), Some(n)) == TruncateIntended(str, Some(n))
  {
    if |str| > n {
      var t := TruncateIntended(str, Some(n));
      assert t[..n] == str[..n];
    }
  }
}
