/** API-key extraction of the Next.js backend (src/lib/auth.ts). */
module Auth {
  import opened Common

  /** `getApiKey(request)` for the value of the `x-api-key` header (`None` when the header is
      missing): the trimmed header, or `None` when that is empty. */
  function GetApiKey(header: Option<string>): (r: Option<string>)
    ensures r.None? <==> header.None? || Trim(header.value) == []
    ensures r.Some? ==> r.value == Trim(header.value) && r.value != []
  {
    if header.None? || header.value == [] || Trim(header.value) == [] then None
    else Some(Trim(header.value))
  }

  /** A header made only of white space (or empty) gives no key. */
  lemma WhitespaceHeaderHasNoKey(h: string)
    requires forall i :: 0 <= i < |h| ==> IsJsWhitespace(h[i])
    ensures GetApiKey(Some(h)) == None
  {
    TrimEmptyIffAllWhitespace(h);
  }

  /** Sending back the key that was extracted yields the same key. */
  lemma GetApiKeyStable(header: Option<string>)
    requires GetApiKey(header).Some?
    ensures GetApiKey(GetApiKey(header)) == GetApiKey(header)
  {
    TrimIdempotent(header.value);
  }

  datatype KeyOrError = Key(key: string) | KeyError(status: int, message: string)

  const MissingKeyMessage: string := "Missing or invalid x-api-key header."

  /** `requireApiKey(request)` (src/lib/auth.ts:16-29). */
  function RequireApiKey(header: Option<string>): (r: KeyOrError)
    ensures r.KeyError? <==> GetApiKey(header).None?
    ensures r.KeyError? ==> r.status == 401 && r.message == MissingKeyMessage
    ensures r.Key? ==> Some(r.key) == GetApiKey(header) && r.key != []
  {
    match GetApiKey(header)
    case None => KeyError(401, MissingKeyMessage)
    case Some(k) => Key(k)
  }
}
