/** The link collection route of the Next.js backend (src/app/api/links/route.ts). POST checks
    the request in a fixed order, then picks a slug: the alias, or the first of at most five
    generated slugs that is free. It then inserts the link. GET lists the links of the caller's
    API key. The random bytes of each `generateSlug()` call, `new Date(...)` (`None` for an
    invalid date), `parseInt(..., 10)` (`None` for NaN), `new URL` and the clock are
    parameters. */
module LinksRouteNext {
  import opened Common
  import opened Sorting
  import Auth
  import Slug
  import UrlValidator

  const MaxSlugRetries: nat := 5

  /** A `link` row as this backend writes it. */
  datatype NextLink = NextLink(id: string, slug: string, destinationUrl: string, customAlias: bool,
                               expiresAt: Option<int>, apiKeyId: string, clickCount: int, createdAt: int)

  /** The JSON body's fields; `None` is a missing or `null` field. */
  datatype PostBody = PostBody(url: Option<string>, alias: Option<string>, expiresAt: Option<string>)

  /** A JavaScript truthiness test on a possibly missing string. */
  predicate Truthy(v: Option<string>)
  {
    v.Some? && v.value != []
  }

  const MsgInvalidJson: string := "Invalid JSON body."
  const MsgMissingUrl: string := "Missing required field: url"
  const MsgInvalidDate: string := "Invalid expiresAt date."
  const MsgPastDate: string := "expiresAt must be in the future."
  const MsgNoSlug: string := "Failed to generate unique slug. Please try again."

  function TakenMessage(alias: string): string
  {
    "Alias \"" + alias + "\" is already taken."
  }

  /** The outcome of the checks that need no database. */
  datatype Checked =
    | Rejected(status: int, error: string)
    | Accepted(key: string, normalized: string, expiresAt: Option<int>, alias: Option<string>)

  /** The checks of POST (src/app/api/links/route.ts:14-54) in their order: API key, JSON body,
      url present, url valid, expiresAt a date, expiresAt in the future, alias valid. The first
      that fails decides the response. `body == None` is a body that is not JSON. */
  function CheckPost(apiKey: Option<string>, body: Option<PostBody>, parse: string -> Option<UrlValidator.ParsedUrl>,
                     parseDate: string -> Option<int>, now: int): (r: Checked)
    ensures Auth.GetApiKey(apiKey).None? ==> r == Rejected(401, Auth.MissingKeyMessage)
    ensures Auth.GetApiKey(apiKey).Some? && body.None? ==> r == Rejected(400, MsgInvalidJson)
    ensures Auth.GetApiKey(apiKey).Some? && body.Some? && !Truthy(body.value.url) ==> r == Rejected(400, MsgMissingUrl)
    ensures Auth.GetApiKey(apiKey).Some? && body.Some? && Truthy(body.value.url)
      && UrlValidator.ValidateUrl(body.value.url.value, parse).Invalid?
      ==> r == Rejected(400, UrlValidator.ValidateUrl(body.value.url.value, parse).error)
    ensures r.Accepted? <==>
      Auth.GetApiKey(apiKey).Some? && body.Some? && Truthy(body.value.url)
      && UrlValidator.ValidateUrl(body.value.url.value, parse).Valid?
      && (Truthy(body.value.expiresAt) ==>
            parseDate(body.value.expiresAt.value).Some? && parseDate(body.value.expiresAt.value).value > now)
      && (Truthy(body.value.alias) ==> Slug.ValidateAlias(body.value.alias.value).AliasValid?)
    ensures r.Accepted? ==>
      Some(r.key) == Auth.GetApiKey(apiKey)
      && r.normalized == UrlValidator.ValidateUrl(body.value.url.value, parse).normalized
      && (r.expiresAt.Some? <==> Truthy(body.value.expiresAt))
      && (r.expiresAt.Some? ==> r.expiresAt.value > now)
      && (r.alias.Some? <==> Truthy(body.value.alias))
      && (r.alias.Some? ==> r.alias == body.value.alias)
    ensures Auth.GetApiKey(apiKey).Some? && body.Some? && Truthy(body.value.url)
      && UrlValidator.ValidateUrl(body.value.url.value, parse).Valid?
      && Truthy(body.value.expiresAt) && parseDate(body.value.expiresAt.value).None?
      ==> r == Rejected(400, MsgInvalidDate)
    ensures Auth.GetApiKey(apiKey).Some? && body.Some? && Truthy(body.value.url)
      && UrlValidator.ValidateUrl(body.value.url.value, parse).Valid?
      && Truthy(body.value.expiresAt) && parseDate(body.value.expiresAt.value).Some?
      && parseDate(body.value.expiresAt.value).value <= now
      ==> r == Rejected(400, MsgPastDate)
    ensures Auth.GetApiKey(apiKey).Some? && body.Some? && Truthy(body.value.url)
      && UrlValidator.ValidateUrl(body.value.url.value, parse).Valid?
      && (Truthy(body.value.expiresAt) ==>
            parseDate(body.value.expiresAt.value).Some? && parseDate(body.value.expiresAt.value).value > now)
      && Truthy(body.value.alias) && Slug.ValidateAlias(body.value.alias.value).AliasInvalid?
      ==> r == Rejected(400, Slug.ValidateAlias(body.value.alias.value).error)
    ensures r.Rejected? ==> r.status in {400, 401}
  {
    match Auth.RequireApiKey(apiKey)
    case KeyError(status, message) => Rejected(status, message)
    case Key(key) =>
      if body.None? then Rejected(400, MsgInvalidJson)
      else if !Truthy(body.value.url) then Rejected(400, MsgMissingUrl)
      else
        match UrlValidator.ValidateUrl(body.value.url.value, parse)
        case Invalid(error) => Rejected(400, error)
        case Valid(normalized) =>
          var expires := if Truthy(body.value.expiresAt) then Some(parseDate(body.value.expiresAt.value)) else None;
          if expires == Some(None) then Rejected(400, MsgInvalidDate)
          else if expires.Some? && expires.value.value <= now then Rejected(400, MsgPastDate)
          else
            var expiresAt := if expires.Some? then Some(expires.value.value) else None;
            if Truthy(body.value.alias) then
              match Slug.ValidateAlias(body.value.alias.value)
              case AliasInvalid(error) => Rejected(400, error)
              case AliasValid => Accepted(key, normalized, expiresAt, body.value.alias)
            else Accepted(key, normalized, expiresAt, None)
  }

  /** An expiry equal to the current instant is already in the past. */
  lemma ExpiryNowRejected(apiKey: Option<string>, body: PostBody, parse: string -> Option<UrlValidator.ParsedUrl>,
                          parseDate: string -> Option<int>, now: int)
    requires Auth.GetApiKey(apiKey).Some? && Truthy(body.url) && UrlValidator.ValidateUrl(body.url.value, parse).Valid?
    requires Truthy(body.expiresAt) && parseDate(body.expiresAt.value) == Some(now)
    ensures CheckPost(apiKey, Some(body), parse, parseDate, now) == Rejected(400, MsgPastDate)
  {
  }

  predicate SlugTaken(rows: seq<NextLink>, slug: string)
  {
    exists k :: 0 <= k < |rows| && rows[k].slug == slug
  }

  /** The candidate of the `i`th `generateSlug()` call. */
  function Candidate(draws: seq<seq<Byte>>, i: nat): (c: string)
    requires AllDraws(draws) && i < |draws|
    ensures |c| == Slug.SlugLength
  {
    Slug.GenerateSlug(draws[i])
  }

  /** Every draw holds the seven random bytes of one `generateSlug()` call. */
  predicate AllDraws(draws: seq<seq<Byte>>)
  {
    forall j :: 0 <= j < |draws| ==> |draws[j]| == Slug.SlugLength
  }

  /** The attempt the retry loop settles on, counting from attempt `i`: the first whose
      candidate is free. */
  function FirstFree(rows: seq<NextLink>, draws: seq<seq<Byte>>, i: nat): (r: Option<nat>)
    requires AllDraws(draws) && i <= |draws|
    ensures r.None? <==> forall j :: i <= j < |draws| ==> SlugTaken(rows, Candidate(draws, j))
    ensures r.Some? ==> i <= r.value < |draws| && !SlugTaken(rows, Candidate(draws, r.value))
    ensures r.Some? ==> forall j :: i <= j < r.value ==> SlugTaken(rows, Candidate(draws, j))
    decreases |draws| - i
  {
    if i == |draws| then None
    else if !SlugTaken(rows, Candidate(draws, i)) then Some(i)
    else
      var r := FirstFree(rows, draws, i + 1);
      FirstFreeStep(rows, Candidates(draws), i, r);
      r
  }

  /** The candidates of all the draws, in order. */
  function Candidates(draws: seq<seq<Byte>>): (c: seq<string>)
    requires AllDraws(draws)
    ensures |c| == |draws| && forall j :: 0 <= j < |draws| ==> c[j] == Candidate(draws, j)
  {
    seq(|draws|, j requires 0 <= j < |draws| => Candidate(draws, j))
  }

  /** A taken candidate at `i` moves the search on to `i + 1` without changing its answer. */
  lemma FirstFreeStep(rows: seq<NextLink>, cands: seq<string>, i: nat, r: Option<nat>)
    requires i < |cands| && SlugTaken(rows, cands[i])
    requires r.None? <==> forall j :: i + 1 <= j < |cands| ==> SlugTaken(rows, cands[j])
    requires r.Some? ==> i + 1 <= r.value < |cands| && !SlugTaken(rows, cands[r.value])
    requires r.Some? ==> forall j :: i + 1 <= j < r.value ==> SlugTaken(rows, cands[j])
    ensures r.None? <==> forall j :: i <= j < |cands| ==> SlugTaken(rows, cands[j])
    ensures r.Some? ==> forall j :: i <= j < r.value ==> SlugTaken(rows, cands[j])
  {
    if r.Some? {
      forall j | i <= j < r.value ensures SlugTaken(rows, cands[j]) {
        if j > i { assert i + 1 <= j; }
      }
    } else {
      forall j | i <= j < |cands| ensures SlugTaken(rows, cands[j]) {
        if j > i { assert i + 1 <= j; }
      }
    }
  }

  /** The response of POST. */
  datatype PostReply = PostError(status: int, error: string) | Created(link: NextLink, shortUrl: string)

  /** The response of GET. A NaN page or limit makes the query fail, which Next.js reports as 500. */
  datatype Pagination = Pagination(page: int, limit: int, total: int, totalPages: int)
  datatype ListReply =
    | ListError(status: int, error: string)
    | ServerError
    | Listing(data: seq<NextLink>, baseUrl: string, pagination: Pagination)

  /** `Math.max(1, parseInt(page || '1', 10))`: `None` stays NaN. */
  function NormalPage(v: Option<string>, parseInt: string -> Option<int>): (r: Option<int>)
    ensures !Truthy(v) ==> r == Some(1)
    ensures Truthy(v) ==> (r.Some? <==> parseInt(v.value).Some?)
    ensures r.Some? ==> r.value >= 1
    ensures Truthy(v) && r.Some? ==> r.value == Max(1, parseInt(v.value).value)
  {
    if !Truthy(v) then Some(1)
    else match parseInt(v.value)
      case None => None
      case Some(n) => Some(Max(1, n))
  }

  /** `Math.min(100, Math.max(1, parseInt(limit || '20', 10)))` */
  function NormalLimit(v: Option<string>, parseInt: string -> Option<int>): (r: Option<int>)
    ensures !Truthy(v) ==> r == Some(20)
    ensures Truthy(v) ==> (r.Some? <==> parseInt(v.value).Some?)
    ensures r.Some? ==> 1 <= r.value <= 100
    ensures Truthy(v) && r.Some? && 1 <= parseInt(v.value).value <= 100 ==> r.value == parseInt(v.value).value
  {
    if !Truthy(v) then Some(20)
    else match parseInt(v.value)
      case None => None
      case Some(n) => Some(Min(100, Max(1, n)))
  }

  /** `sort=clicks` orders by `clickCount`; anything else by `createdAt`. */
  function SortKey(sort: Option<string>): (key: NextLink -> int)
    ensures sort == Some("clicks") ==> forall l :: key(l) == l.clickCount
    ensures sort != Some("clicks") ==> forall l :: key(l) == l.createdAt
  {
    if sort == Some("clicks") then (l: NextLink) => l.clickCount else (l: NextLink) => l.createdAt
  }

  /** The caller's rows, and with a non-empty `q` those whose slug or destination contains it
      (case-sensitive). */
  predicate Matches(link: NextLink, key: string, q: string)
  {
    link.apiKeyId == key && (q == [] || Contains(link.slug, q) || Contains(link.destinationUrl, q))
  }

  function Filter(rows: seq<NextLink>, key: string, q: string): (r: seq<NextLink>)
    ensures forall l :: l in r <==> l in rows && Matches(l, key, q)
  {
    if rows == [] then []
    else
      var rest := Filter(rows[1..], key, q);
      if Matches(rows[0], key, q) then [rows[0]] + rest else rest
  }

  /** The caller's matching rows by the sort key, largest first (`orderBy: { [sort]: 'desc' }`). */
  function Ordered(rows: seq<NextLink>, key: string, q: string, sort: Option<string>): (r: seq<NextLink>)
    ensures multiset(r) == multiset(Filter(rows, key, q))
    ensures |r| == |Filter(rows, key, q)|
    ensures forall i, j :: 0 <= i < j < |r| ==> SortKey(sort)(r[i]) >= SortKey(sort)(r[j])
  {
    SortDesc(Filter(rows, key, q), SortKey(sort))
  }

  /** `findMany` with that order, `skip` and `take`: the `limit` rows that follow the first
      `(page - 1) * limit` of the ordered matches. */
  function Page(rows: seq<NextLink>, key: string, q: string, sort: Option<string>, page: int, limit: int)
    : (r: seq<NextLink>)
    requires page >= 1 && limit >= 1
    ensures var ordered := Ordered(rows, key, q, sort); var skip := SkipCount(page, limit);
      r == ordered[Min(skip, |ordered|)..Min(skip + limit, |ordered|)]
    ensures |r| <= limit
    ensures forall l :: l in r ==> l in rows && Matches(l, key, q)
    ensures forall i, j :: 0 <= i < j < |r| ==> SortKey(sort)(r[i]) >= SortKey(sort)(r[j])
  {
    PageFacts(rows, key, q, sort, page, limit);
    Paginate(Ordered(rows, key, q, sort), page, limit)
  }

  /** What a page of the ordered matches is: its slice, in order, of matching rows. */
  lemma PageFacts(rows: seq<NextLink>, key: string, q: string, sort: Option<string>, page: int, limit: int)
    requires page >= 1 && limit >= 1
    ensures var ordered := Ordered(rows, key, q, sort); var skip := SkipCount(page, limit);
      Paginate(ordered, page, limit) == ordered[Min(skip, |ordered|)..Min(skip + limit, |ordered|)]
    ensures forall l :: l in Paginate(Ordered(rows, key, q, sort), page, limit) ==> l in rows && Matches(l, key, q)
    ensures forall i, j :: 0 <= i < j < |Paginate(Ordered(rows, key, q, sort), page, limit)| ==>
      SortKey(sort)(Paginate(Ordered(rows, key, q, sort), page, limit)[i])
        >= SortKey(sort)(Paginate(Ordered(rows, key, q, sort), page, limit)[j])
  {
    var ordered := Ordered(rows, key, q, sort);
    PaginateDesc(ordered, page, limit, SortKey(sort));
    forall l | l in Paginate(ordered, page, limit)
      ensures l in rows && Matches(l, key, q)
    {
      assert l in multiset(ordered);
      assert l in multiset(Filter(rows, key, q));
    }
  }

  /** A matching row has a position in the ordered list. */
  lemma PositionOfMatch(rows: seq<NextLink>, key: string, q: string, sort: Option<string>, l: NextLink)
    returns (k: nat)
    requires l in rows && Matches(l, key, q)
    ensures k < |Ordered(rows, key, q, sort)| && Ordered(rows, key, q, sort)[k] == l
  {
    var ordered := Ordered(rows, key, q, sort);
    assert l in Filter(rows, key, q);
    assert l in multiset(ordered);
    k :| 0 <= k < |ordered| && ordered[k] == l;
  }

  /** Pages cover the matches: every matching row is on some page from 1 to `totalPages`. */
  lemma EveryMatchOnSomePage(rows: seq<NextLink>, key: string, q: string, sort: Option<string>, limit: int,
                             l: NextLink)
    requires limit >= 1
    requires l in rows && Matches(l, key, q)
    ensures exists p :: 1 <= p <= CeilDiv(|Filter(rows, key, q)|, limit) && l in Page(rows, key, q, sort, p, limit)
  {
    var ordered := Ordered(rows, key, q, sort);
    var k := PositionOfMatch(rows, key, q, sort, l);
    PageOfPosition(k, |ordered|, limit);
    PositionOnPage(ordered, limit, k);
    var p := k / limit + 1;
    assert l in Paginate(ordered, p, limit);
    assert l in Page(rows, key, q, sort, p, limit);
  }

  class NextLinkTable {
    var rows: seq<NextLink>

    ghost predicate Valid()
      reads this
    {
      forall i, j :: 0 <= i < j < |rows| ==> rows[i].slug != rows[j].slug && rows[i].id != rows[j].id
    }

    constructor()
      ensures rows == [] && Valid()
    {
      rows := [];
    }

    /** The retry loop of POST (src/app/api/links/route.ts:68-83): up to five generated
        candidates, the first free one wins; `""` when all are taken. */
    method GenerateFreeSlug(draws: seq<seq<Byte>>) returns (slug: string)
      requires |draws| == MaxSlugRetries && AllDraws(draws)
      ensures slug == [] <==> FirstFree(rows, draws, 0).None?
      ensures slug != [] ==> slug == Candidate(draws, FirstFree(rows, draws, 0).value) && !SlugTaken(rows, slug)
    {
      slug := "";
      var i := 0;
      while i < MaxSlugRetries
        invariant 0 <= i <= MaxSlugRetries
        invariant slug == "" ==> FirstFree(rows, draws, 0) == FirstFree(rows, draws, i)
      {
        var candidate := Slug.GenerateSlug(draws[i]);
        if !(exists l :: l in rows && l.slug == candidate) {
          slug := candidate;
          break;
        }
        i := i + 1;
      }
    }

    /** The database half of POST (src/app/api/links/route.ts:46-110) once the checks passed:
        the alias must be free, or the retry loop must find a free slug; then the row is
        inserted with the normalized URL and the caller's key. The database gives the new row a
        fresh id and `createdAt == now`. */
    method Create(c: Checked, draws: seq<seq<Byte>>, newId: string, now: int, baseUrl: string)
      returns (reply: PostReply)
      requires Valid() && c.Accepted?
      requires |draws| == MaxSlugRetries && AllDraws(draws)
      requires forall l :: l in rows ==> l.id != newId
      modifies this
      ensures Valid()
      ensures c.alias.Some? && SlugTaken(old(rows), c.alias.value) ==>
        rows == old(rows) && reply == PostError(409, TakenMessage(c.alias.value))
      ensures c.alias.Some? && !SlugTaken(old(rows), c.alias.value) ==>
        var link := NextLink(newId, c.alias.value, c.normalized, true, c.expiresAt, c.key, 0, now);
        rows == old(rows) + [link] && reply == Created(link, ShortUrl(baseUrl, link.slug))
      ensures c.alias.None? && FirstFree(old(rows), draws, 0).None? ==>
        rows == old(rows) && reply == PostError(500, MsgNoSlug)
      ensures c.alias.None? && FirstFree(old(rows), draws, 0).Some? ==>
        var link := NextLink(newId, Candidate(draws, FirstFree(old(rows), draws, 0).value), c.normalized, false,
                             c.expiresAt, c.key, 0, now);
        rows == old(rows) + [link] && reply == Created(link, ShortUrl(baseUrl, link.slug))
    {
      var slug: string;
      var customAlias := false;
      if c.alias.Some? {
        if exists l :: l in rows && l.slug == c.alias.value {
          return PostError(409, TakenMessage(c.alias.value));
        }
        slug := c.alias.value;
        customAlias := true;
      } else {
        slug := GenerateFreeSlug(draws);
        if slug == "" {
          return PostError(500, MsgNoSlug);
        }
      }
      var link := NextLink(newId, slug, c.normalized, customAlias, c.expiresAt, c.key, 0, now);
      rows := rows + [link];
      reply := Created(link, ShortUrl(baseUrl, link.slug));
    }

    /** `POST /api/links` (src/app/api/links/route.ts:13-111): the checks, then `Create`. `draws`
        holds the bytes of the five `generateSlug()` calls the loop may make. */
    method Post(apiKey: Option<string>, body: Option<PostBody>, parse: string -> Option<UrlValidator.ParsedUrl>,
                parseDate: string -> Option<int>, now: int, draws: seq<seq<Byte>>, newId: string, baseUrl: string)
      returns (reply: PostReply)
      requires Valid()
      requires |draws| == MaxSlugRetries && AllDraws(draws)
      requires forall l :: l in rows ==> l.id != newId
      modifies this
      ensures Valid()
      ensures CheckPost(apiKey, body, parse, parseDate, now).Rejected? ==>
        rows == old(rows)
        && reply == PostError(CheckPost(apiKey, body, parse, parseDate, now).status,
                              CheckPost(apiKey, body, parse, parseDate, now).error)
      ensures CheckPost(apiKey, body, parse, parseDate, now).Accepted? ==>
        var c := CheckPost(apiKey, body, parse, parseDate, now);
        if c.alias.Some? then
          if SlugTaken(old(rows), c.alias.value) then
            rows == old(rows) && reply == PostError(409, TakenMessage(c.alias.value))
          else
            var link := NextLink(newId, c.alias.value, c.normalized, true, c.expiresAt, c.key, 0, now);
            rows == old(rows) + [link] && reply == Created(link, ShortUrl(baseUrl, link.slug))
        else if FirstFree(old(rows), draws, 0).None? then
          rows == old(rows) && reply == PostError(500, MsgNoSlug)
        else
          var link := NextLink(newId, Candidate(draws, FirstFree(old(rows), draws, 0).value), c.normalized, false,
                               c.expiresAt, c.key, 0, now);
          rows == old(rows) + [link] && reply == Created(link, ShortUrl(baseUrl, link.slug))
    {
      var checked := CheckPost(apiKey, body, parse, parseDate, now);
      if checked.Rejected? {
        return PostError(checked.status, checked.error);
      }
      reply := Create(checked, draws, newId, now, baseUrl);
    }

    /** `GET /api/links` (src/app/api/links/route.ts:117-169). */
    function List(apiKey: Option<string>, page: Option<string>, limit: Option<string>, sort: Option<string>,
                  q: Option<string>, parseInt: string -> Option<int>, baseUrl: string): (r: ListReply)
      reads this
      ensures Auth.GetApiKey(apiKey).None? ==> r == ListError(401, Auth.MissingKeyMessage)
      ensures Auth.GetApiKey(apiKey).Some? ==>
        (r == ServerError <==> NormalPage(page, parseInt).None? || NormalLimit(limit, parseInt).None?)
      ensures Auth.GetApiKey(apiKey).Some? && NormalPage(page, parseInt).Some? && NormalLimit(limit, parseInt).Some? ==>
        var key := Auth.GetApiKey(apiKey).value;
        var term := if q.Some? then q.value else "";
        var p, n := NormalPage(page, parseInt).value, NormalLimit(limit, parseInt).value;
        r.Listing? && r.baseUrl == baseUrl
        && r.pagination.page == p && r.pagination.limit == n
        && r.data == Page(rows, key, term, sort, p, n)
      ensures r.Listing? ==>
        var key := Auth.GetApiKey(apiKey).value;
        var term := if q.Some? then q.value else "";
        |r.data| <= r.pagination.limit && 1 <= r.pagination.limit <= 100 && r.pagination.page >= 1
        && (forall l :: l in r.data ==> l in rows && Matches(l, key, term))
        && (forall i, j :: 0 <= i < j < |r.data| ==> SortKey(sort)(r.data[i]) >= SortKey(sort)(r.data[j]))
        && r.pagination.total == |Filter(rows, key, term)|
        && r.pagination.totalPages == CeilDiv(r.pagination.total, r.pagination.limit)
    {
      match Auth.GetApiKey(apiKey)
      case None => ListError(401, Auth.MissingKeyMessage)
      case Some(key) =>
        var p := NormalPage(page, parseInt);
        var n := NormalLimit(limit, parseInt);
        if p.None? || n.None? then ServerError
        else
          var term := if q.Some? then q.value else "";
          var total := |Filter(rows, key, term)|;
          Listing(Page(rows, key, term, sort, p.value, n.value), baseUrl,
                  Pagination(p.value, n.value, total, CeilDiv(total, n.value)))
    }
  }

  /** With no query parameters GET reads the first twenty links, and any page or limit number is
      pulled into range rather than refused. */
  lemma ListDefaultsAndClamps(parseInt: string -> Option<int>, s: string)
    requires s != [] && parseInt(s).Some?
    ensures NormalPage(None, parseInt) == Some(1) && NormalLimit(None, parseInt) == Some(20)
    ensures NormalPage(Some(""), parseInt) == Some(1) && NormalLimit(Some(""), parseInt) == Some(20)
    ensures parseInt(s).value <= 0 ==> NormalPage(Some(s), parseInt) == Some(1) && NormalLimit(Some(s), parseInt) == Some(1)
    ensures parseInt(s).value > 100 ==> NormalLimit(Some(s), parseInt) == Some(100)
  {
  }

  /** The loop makes at most five attempts: when all five candidates are taken, the request fails
      even though other slugs are free. */
  lemma RetriesAreBounded(rows: seq<NextLink>, draws: seq<seq<Byte>>)
    requires |draws| == MaxSlugRetries && AllDraws(draws)
    requires forall j :: 0 <= j < |draws| ==> SlugTaken(rows, Candidate(draws, j))
    ensures FirstFree(rows, draws, 0).None?
  {
  }

  /** A generated slug always passes the alias rules as well, so slugs of both kinds share one
      format. */
  lemma GeneratedSlugsAreAliases(draws: seq<seq<Byte>>, i: nat)
    requires AllDraws(draws) && i < |draws|
    ensures Slug.ValidateAlias(Candidate(draws, i)) == Slug.AliasValid
  {
    Slug.GeneratedSlugIsValidAlias(draws[i]);
  }
}
