/** The zod request schemas of the Fastify API (api/src/links/links.validation.ts), as
    predicates and parse functions over JSON-like field values. The foreign checks
    (`z.string().url()`, `z.string().datetime()`, `new URL`, the `Number(...)` coercion of
    query strings) are parameters. Failing string checks mark a value invalid without
    stopping later checks, so the alias refinement sees every input (zod 3 behaviour). */
module LinksValidation {
  import opened Common
  import Slug
  import UrlValidator

  const ReservedSlugs: seq<string> := ["api", "auth", "dashboard", "health", "app"]

  const MsgMin: string := "Alias must be at least 3 characters"
  const MsgMax: string := "Alias must be at most 32 characters"
  const MsgRegex: string := "Alias may only contain letters, numbers, and hyphens"
  const MsgReserved: string := "This alias is reserved"

  /** `/^[a-zA-Z0-9-]+$/` */
  predicate AliasChars(s: string)
  {
    |s| >= 1 && forall i :: 0 <= i < |s| ==> Slug.IsAliasChar(s[i])
  }

  /** The issues `aliasSchema` reports for a string, in check order. */
  function AliasIssues(val: string): (r: seq<string>)
    ensures MsgMin in r <==> |val| < 3
    ensures MsgMax in r <==> |val| > 32
    ensures MsgRegex in r <==> !AliasChars(val)
    ensures MsgReserved in r <==> ToLower(val) in ReservedSlugs
    ensures forall m :: m in r ==> m in [MsgMin, MsgMax, MsgRegex, MsgReserved]
    ensures r == [] <==> 3 <= |val| <= 32 && AliasChars(val) && ToLower(val) !in ReservedSlugs
  {
    assert |MsgMin| == 35 && |MsgMax| == 35 && |MsgReserved| == 22 && |MsgRegex| > 40;
    assert MsgMin != MsgMax by { assert MsgMin[22] != MsgMax[22]; }
    (if |val| < 3 then [MsgMin] else [])
    + (if |val| > 32 then [MsgMax] else [])
    + (if !AliasChars(val) then [MsgRegex] else [])
    + (if ToLower(val) in ReservedSlugs then [MsgReserved] else [])
  }

  /** `aliasSchema.safeParse(val).success` for a string value. */
  predicate AliasAccepted(val: string)
  {
    AliasIssues(val) == []
  }

  /** The alias rule: 3 to 32 letters, digits and hyphens whose lower-case form is not reserved. */
  lemma AliasAcceptedIff(val: string)
    ensures AliasAccepted(val) <==>
      3 <= |val| <= 32 && (forall i :: 0 <= i < |val| ==> Slug.IsAliasChar(val[i]))
      && ToLower(val) !in ReservedSlugs
  {
  }

  /** Both backends enforce the same alias format; only the reserved lists differ. */
  lemma SameFormatAsSlug(val: string)
    ensures (MsgMin !in AliasIssues(val) && MsgMax !in AliasIssues(val) && MsgRegex !in AliasIssues(val))
      <==> Slug.AliasFormat(val)
  {
  }

  /** "auth" is reserved here but not in the Next.js backend. */
  lemma AuthReservedOnlyHere()
    ensures !AliasAccepted("auth") && Slug.ValidateAlias("auth") == Slug.AliasValid
  {
    AuthRefusedHere();
    AuthAcceptedBySlug();
  }

  lemma AuthRefusedHere()
    ensures !AliasAccepted("auth")
  {
    ToLowerOfLower("auth");
    assert "auth" == ReservedSlugs[1];
  }

  lemma AuthAcceptedBySlug()
    ensures Slug.ValidateAlias("auth") == Slug.AliasValid
  {
    ToLowerOfLower("auth");
    assert "auth" !in Slug.ReservedWords by {
      assert "auth" != "api" && "auth" != "dashboard" && "auth" != "health";
      assert "auth" != "admin" && "auth" != "login" && "auth" != "settings";
    }
    AllLowerLettersAreAliasChars("auth");
  }

  /** "admin" is reserved in the Next.js backend but accepted here. */
  lemma AdminReservedOnlyThere()
    ensures AliasAccepted("admin") && Slug.ValidateAlias("admin").AliasInvalid?
  {
    ToLowerOfLower("admin");
    AllLowerLettersAreAliasChars("admin");
    assert "admin" !in ReservedSlugs by {
      assert "admin" != ReservedSlugs[0] && "admin" != ReservedSlugs[1] && "admin" != ReservedSlugs[2];
      assert "admin" != ReservedSlugs[3] && "admin" != ReservedSlugs[4];
    }
    AliasAcceptedIff("admin");
    assert "admin" in Slug.ReservedWords;
  }

  /** Lower-case letters are alias characters. */
  lemma AllLowerLettersAreAliasChars(w: string)
    requires forall i :: 0 <= i < |w| ==> 'a' <= w[i] <= 'z'
    ensures forall i :: 0 <= i < |w| ==> Slug.IsAliasChar(w[i])
  {
  }

  /** A JSON field of a request body: missing, `null`, a string, or any other JSON value. */
  datatype Json = Absent | Null | Str(s: string) | Other

  /** The foreign checks the schemas call. */
  datatype Checks = Checks(
    zodUrl: string -> bool,                              // z.string().url()
    parseUrl: string -> Option<UrlValidator.ParsedUrl>,   // new URL(val), None when it throws
    isoDatetime: string -> bool)                         // z.string().datetime()

  /** The url field rule of both object schemas: zod's URL check and an http(s) protocol. */
  predicate HttpUrl(val: string, c: Checks)
  {
    c.zodUrl(val) && c.parseUrl(val).Some? && c.parseUrl(val).value.protocol in ["http:", "https:"]
  }

  datatype CreateBody = CreateBody(url: Json, alias: Json, expiresAt: Json)
  datatype CreateLinkInput = CreateLinkInput(url: string, alias: Option<string>, expiresAt: Option<string>)

  /** `createLinkSchema.safeParse(body)`: `None` when any field fails. */
  function ParseCreate(body: CreateBody, c: Checks): (r: Option<CreateLinkInput>)
    ensures r.Some? <==>
      body.url.Str? && HttpUrl(body.url.s, c)
      && (body.alias.Absent? || (body.alias.Str? && AliasAccepted(body.alias.s)))
      && (body.expiresAt.Absent? || (body.expiresAt.Str? && c.isoDatetime(body.expiresAt.s)))
    ensures r.Some? ==>
      r.value.url == body.url.s
      && (r.value.alias.Some? <==> body.alias.Str?)
      && (r.value.alias.Some? ==> r.value.alias.value == body.alias.s)
      && (r.value.expiresAt.Some? <==> body.expiresAt.Str?)
      && (r.value.expiresAt.Some? ==> r.value.expiresAt.value == body.expiresAt.s)
  {
    var url := if body.url.Str? && HttpUrl(body.url.s, c) then Some(body.url.s) else None;
    var alias := OptionalString(body.alias, AliasAccepted);
    var expires := OptionalString(body.expiresAt, c.isoDatetime);
    if url.Some? && alias.Some? && expires.Some? then
      Some(CreateLinkInput(url.value, alias.value, expires.value))
    else None
  }

  /** `schema.optional()` for a string schema: `Some(None)` when absent, `Some(Some(s))` when a
      string passes, `None` (a failed parse) for `null`, other values and failing strings. */
  function OptionalString(v: Json, ok: string -> bool): (r: Option<Option<string>>)
    ensures r == Some(None) <==> v.Absent?
    ensures r.Some? && r.value.Some? <==> v.Str? && ok(v.s)
    ensures r.Some? && r.value.Some? ==> r.value.value == v.s
  {
    match v
    case Absent => Some(None)
    case Str(s) => if ok(s) then Some(Some(s)) else None
    case _ => None
  }

  /** What an update does to the expiry: leave it, clear it (`null`) or set it. */
  datatype ExpiryPatch = Keep | Clear | SetExpiry(iso: string)

  datatype UpdateBody = UpdateBody(destinationUrl: Json, expiresAt: Json)
  datatype UpdateLinkInput = UpdateLinkInput(destinationUrl: Option<string>, expiresAt: ExpiryPatch)

  /** `updateLinkSchema.safeParse(body)`: both fields optional, and `expiresAt` also nullable. */
  function ParseUpdate(body: UpdateBody, c: Checks): (r: Option<UpdateLinkInput>)
    ensures r.Some? <==>
      (body.destinationUrl.Absent? || (body.destinationUrl.Str? && HttpUrl(body.destinationUrl.s, c)))
      && (body.expiresAt.Absent? || body.expiresAt.Null?
          || (body.expiresAt.Str? && c.isoDatetime(body.expiresAt.s)))
    ensures r.Some? ==>
      (r.value.destinationUrl.Some? <==> body.destinationUrl.Str?)
      && (r.value.destinationUrl.Some? ==> r.value.destinationUrl.value == body.destinationUrl.s)
      && (r.value.expiresAt.Keep? <==> body.expiresAt.Absent?)
      && (r.value.expiresAt.Clear? <==> body.expiresAt.Null?)
      && (r.value.expiresAt.SetExpiry? ==> r.value.expiresAt.iso == body.expiresAt.s)
  {
    var dest := OptionalString(body.destinationUrl, s => HttpUrl(s, c));
    var expires: Option<ExpiryPatch> :=
      match body.expiresAt
      case Absent => Some(Keep)
      case Null => Some(Clear)
      case Str(s) => if c.isoDatetime(s) then Some(SetExpiry(s)) else None
      case Other => None;
    if dest.Some? && expires.Some? then Some(UpdateLinkInput(dest.value, expires.value)) else None
  }

  /** An explicit `null` expiry and a missing one are both accepted and mean different things. */
  lemma NullExpiryDistinctFromAbsent(dest: Json, c: Checks)
    requires dest.Absent? || (dest.Str? && HttpUrl(dest.s, c))
    ensures ParseUpdate(UpdateBody(dest, Null), c).Some?
    ensures ParseUpdate(UpdateBody(dest, Absent), c).Some?
    ensures ParseUpdate(UpdateBody(dest, Null), c) != ParseUpdate(UpdateBody(dest, Absent), c)
  {
  }

  /** A query-string value after `Number(...)`: `None` for NaN and the infinities. */
  type ToNumber = string -> Option<real>

  datatype ListLinksQuery = ListLinksQuery(page: int, limit: int, search: Option<string>)

  predicate IsInteger(x: real)
  {
    x == x.Floor as real
  }

  /** `z.coerce.number().int().min(lo).max(hi).default(d)` on one query parameter. */
  function CoercedInt(v: Option<string>, toNumber: ToNumber, lo: int, hi: Option<int>, d: int): (r: Option<int>)
    ensures v.None? ==> r == Some(d)
    ensures v.Some? ==> (r.Some? <==>
      toNumber(v.value).Some? && IsInteger(toNumber(v.value).value)
      && lo as real <= toNumber(v.value).value && (hi.None? || toNumber(v.value).value <= hi.value as real))
    ensures v.Some? && r.Some? ==> r.value as real == toNumber(v.value).value
  {
    match v
    case None => Some(d)
    case Some(s) =>
      match toNumber(s)
      case None => None
      case Some(x) =>
        if IsInteger(x) && lo as real <= x && (hi.None? || x <= hi.value as real) then Some(x.Floor)
        else None
  }

  /** `listLinksQuerySchema.safeParse(query)` */
  function ParseListQuery(page: Option<string>, limit: Option<string>, search: Option<string>, toNumber: ToNumber)
    : (r: Option<ListLinksQuery>)
    ensures r.Some? ==> r.value.page >= 1 && 1 <= r.value.limit <= 100 && r.value.search == search
    ensures page.None? && limit.None? ==> r == Some(ListLinksQuery(1, 20, search))
    ensures r.None? <==>
      CoercedInt(page, toNumber, 1, None, 1).None? || CoercedInt(limit, toNumber, 1, Some(100), 20).None?
    ensures r.Some? ==>
      Some(r.value.page) == CoercedInt(page, toNumber, 1, None, 1)
      && Some(r.value.limit) == CoercedInt(limit, toNumber, 1, Some(100), 20)
  {
    var p := CoercedInt(page, toNumber, 1, None, 1);
    var l := CoercedInt(limit, toNumber, 1, Some(100), 20);
    if p.Some? && l.Some? then Some(ListLinksQuery(p.value, l.value, search)) else None
  }

  /** A query value the coercion reads as a whole number in range is taken as it is; a fraction,
      zero, or a limit above 100 rejects the whole query. */
  lemma ListQueryRejects(s: string, toNumber: ToNumber)
    ensures toNumber(s) == Some(0.0) ==> ParseListQuery(Some(s), None, None, toNumber).None?
    ensures toNumber(s) == Some(1.5) ==> ParseListQuery(Some(s), None, None, toNumber).None?
    ensures toNumber(s) == Some(101.0) ==> ParseListQuery(None, Some(s), None, toNumber).None?
    ensures toNumber(s) == Some(100.0) ==> ParseListQuery(None, Some(s), None, toNumber) == Some(ListLinksQuery(1, 100, None))
  {
    assert (1.5).Floor == 1;
    assert (100.0).Floor == 100;
  }
}
