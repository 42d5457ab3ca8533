/** The link endpoints of the Fastify API (api/src/links/links.routes.ts): create, list, get,
    patch and delete over the `link` table, each scoped to the authenticated user. The table is a
    sequence of rows in insertion order. Click counts (`_count.clickEvents`) come from the
    recorder's `clickEvent` rows. The generated slug (`nanoid(7)`), the new row id, the clock,
    `new Date(iso)` and the foreign schema checks are parameters. */
module LinksRoutes {
  import opened Common
  import opened Sorting
  import LinksValidation
  import ClickRecorder

  /** A `link` row; times in milliseconds since the epoch. */
  datatype StoredLink = StoredLink(id: string, slug: string, destinationUrl: string, userId: string,
                                   expiresAt: Option<int>, createdAt: int, updatedAt: int)

  const DefaultBaseUrl: string := "http://localhost:3000"

  /** `process.env.BASE_URL || 'http://localhost:3000'` */
  function BaseUrl(env: Option<string>): (r: string)
    ensures r != []
    ensures env.Some? && env.value != [] ==> r == env.value
    ensures env.None? || env.value == [] ==> r == DefaultBaseUrl
  {
    if env.Some? && env.value != [] then env.value else DefaultBaseUrl
  }

  /** Number of `clickEvent` rows of a link. */
  function EventCount(events: seq<ClickRecorder.ClickEvent>, linkId: string): (n: nat)
    ensures n <= |events|
  {
    if events == [] then 0
    else (if events[0].linkId == linkId then 1 else 0) + EventCount(events[1..], linkId)
  }

  /** Ids and slugs are unique columns. */
  ghost predicate UniqueKeys(rows: seq<StoredLink>)
  {
    forall i, j :: 0 <= i < j < |rows| ==> rows[i].id != rows[j].id && rows[i].slug != rows[j].slug
  }

  /** `findUnique({ where: { id } })` as a position. */
  function IndexOfId(rows: seq<StoredLink>, id: string): (r: Option<nat>)
    ensures r.Some? ==> r.value < |rows| && rows[r.value].id == id
    ensures r.None? <==> forall i :: 0 <= i < |rows| ==> rows[i].id != id
  {
    if rows == [] then None
    else if rows[0].id == id then Some(0)
    else
      match IndexOfId(rows[1..], id)
      case None => None
      case Some(k) => Some(k + 1)
  }

  /** The row the caller may see: the id exists and belongs to `userId`. */
  function OwnedIndex(rows: seq<StoredLink>, id: string, userId: string): (r: Option<nat>)
    ensures r.Some? ==> r.value < |rows| && rows[r.value].id == id && rows[r.value].userId == userId
    ensures UniqueKeys(rows) && r.None? ==>
      forall i :: 0 <= i < |rows| && rows[i].id == id ==> rows[i].userId != userId
  {
    match IndexOfId(rows, id)
    case None => None
    case Some(i) => if rows[i].userId == userId then Some(i) else None
  }

  predicate SlugTaken(rows: seq<StoredLink>, slug: string)
  {
    exists l :: l in rows && l.slug == slug
  }

  /** `expiresAt ? new Date(expiresAt) : null` */
  function ExpiryOf(iso: string, parseDate: string -> int): Option<int>
  {
    if iso != [] then Some(parseDate(iso)) else None
  }

  /** The row `prisma.link.create` inserts. */
  function NewLink(input: LinksValidation.CreateLinkInput, slug: string, userId: string, id: string,
                   now: int, parseDate: string -> int): (l: StoredLink)
    ensures l.id == id && l.slug == slug && l.userId == userId && l.destinationUrl == input.url
    ensures input.expiresAt.None? || input.expiresAt == Some("") ==> l.expiresAt.None?
    ensures input.expiresAt.Some? && input.expiresAt.value != [] ==>
      l.expiresAt == Some(parseDate(input.expiresAt.value))
    ensures l.createdAt == now && l.updatedAt == now
  {
    StoredLink(id, slug, input.url, userId,
               if input.expiresAt.Some? then ExpiryOf(input.expiresAt.value, parseDate) else None, now, now)
  }

  /** The row after a patch: provided fields replaced, `null` expiry cleared, all else kept. */
  function Patched(link: StoredLink, input: LinksValidation.UpdateLinkInput, parseDate: string -> int, now: int)
    : (l: StoredLink)
    ensures l.id == link.id && l.slug == link.slug && l.userId == link.userId && l.createdAt == link.createdAt
    ensures l.destinationUrl == (if input.destinationUrl.Some? then input.destinationUrl.value else link.destinationUrl)
    ensures input.expiresAt.Keep? ==> l.expiresAt == link.expiresAt
    ensures input.expiresAt.Clear? ==> l.expiresAt.None?
    ensures input.expiresAt.SetExpiry? ==> l.expiresAt == ExpiryOf(input.expiresAt.iso, parseDate)
    ensures l.updatedAt == now
  {
    var dest := if input.destinationUrl.Some? then input.destinationUrl.value else link.destinationUrl;
    var expires :=
      match input.expiresAt
      case Keep => link.expiresAt
      case Clear => None
      case SetExpiry(iso) => ExpiryOf(iso, parseDate);
    link.(destinationUrl := dest, expiresAt := expires, updatedAt := now)
  }

  /** The table without the row `id`, in the same order. */
  function Without(rows: seq<StoredLink>, id: string): (r: seq<StoredLink>)
    ensures forall l :: l in r <==> l in rows && l.id != id
    ensures |r| <= |rows|
    ensures UniqueKeys(rows) ==> UniqueKeys(r)
  {
    if rows == [] then []
    else
      var rest := Without(rows[1..], id);
      if rows[0].id == id then rest
      else
        assert forall l :: l in rest ==> l in rows[1..];
        [rows[0]] + rest
  }

  /** The list filter: the caller's rows, and with a non-empty search term those whose slug or
      destination contains it, ignoring ASCII case. */
  predicate Matches(link: StoredLink, userId: string, search: Option<string>)
  {
    link.userId == userId
    && (search.None? || search.value == []
        || Contains(ToLower(link.slug), ToLower(search.value))
        || Contains(ToLower(link.destinationUrl), ToLower(search.value)))
  }

  /** The `where` clause of the list, in table order. */
  function Filter(rows: seq<StoredLink>, userId: string, search: Option<string>): (r: seq<StoredLink>)
    ensures forall l :: l in r <==> l in rows && Matches(l, userId, search)
    ensures |r| <= |rows|
  {
    if rows == [] then []
    else
      var rest := Filter(rows[1..], userId, search);
      if Matches(rows[0], userId, search) then [rows[0]] + rest else rest
  }

  function CreatedAt(l: StoredLink): int { l.createdAt }

  /** The matching rows, newest first. */
  function Ordered(rows: seq<StoredLink>, userId: string, search: Option<string>): (r: seq<StoredLink>)
    ensures multiset(r) == multiset(Filter(rows, userId, search))
    ensures |r| == |Filter(rows, userId, search)|
    ensures forall i, j :: 0 <= i < j < |r| ==> r[i].createdAt >= r[j].createdAt
  {
    SortDesc(Filter(rows, userId, search), CreatedAt)
  }

  /** One page of the caller's matching rows, newest first: the `limit` rows that follow the
      first `(page - 1) * limit` of them. */
  function Page(rows: seq<StoredLink>, q: LinksValidation.ListLinksQuery, userId: string): (r: seq<StoredLink>)
    requires q.page >= 1 && q.limit >= 1
    ensures var ordered := Ordered(rows, userId, q.search); var skip := SkipCount(q.page, q.limit);
      r == ordered[Min(skip, |ordered|)..Min(skip + q.limit, |ordered|)]
    ensures |r| <= q.limit
    ensures forall l :: l in r ==> l in rows && Matches(l, userId, q.search)
    ensures forall i, j :: 0 <= i < j < |r| ==> r[i].createdAt >= r[j].createdAt
  {
    PageFacts(Ordered(rows, userId, q.search), rows, userId, q.search, q.page, q.limit);
    Paginate(Ordered(rows, userId, q.search), q.page, q.limit)
  }

  /** What a page of the ordered matches is: its slice, in order, of matching rows. */
  lemma PageFacts(ordered: seq<StoredLink>, rows: seq<StoredLink>, userId: string, search: Option<string>,
                  page: int, limit: int)
    requires page >= 1 && limit >= 1 && ordered == Ordered(rows, userId, search)
    ensures var skip := (page - 1) * limit;
      Paginate(ordered, page, limit) == ordered[Min(skip, |ordered|)..Min(skip + limit, |ordered|)]
    ensures forall l :: l in Paginate(ordered, page, limit) ==> l in rows && Matches(l, userId, search)
    ensures forall i, j :: 0 <= i < j < |Paginate(ordered, page, limit)| ==>
      Paginate(ordered, page, limit)[i].createdAt >= Paginate(ordered, page, limit)[j].createdAt
  {
    PaginateDesc(ordered, page, limit, CreatedAt);
    PageRowsMatch(rows, userId, search, page, limit);
  }

  /** Every row of a page of the ordered list is one of the caller's matching rows. */
  lemma PageRowsMatch(rows: seq<StoredLink>, userId: string, search: Option<string>, page: int, limit: int)
    requires page >= 1 && limit >= 1
    ensures forall l :: l in Paginate(Ordered(rows, userId, search), page, limit) ==> l in rows && Matches(l, userId, search)
  {
    var ordered := Ordered(rows, userId, search);
    forall l | l in Paginate(ordered, page, limit)
      ensures l in rows && Matches(l, userId, search)
    {
      assert l in multiset(ordered);
      assert l in multiset(Filter(rows, userId, search));
    }
  }

  datatype Pagination = Pagination(page: int, limit: int, total: int, totalPages: int)

  /** A response body: the row's columns the endpoint sends, its short URL and, where sent, its
      click count. */
  datatype LinkBody = LinkBody(link: StoredLink, shortUrl: string, clickCount: Option<nat>)

  datatype Reply =
    | Failure(status: int, error: string)
    | Success(status: int, body: LinkBody)
    | Listing(data: seq<LinkBody>, pagination: Pagination)
    | NoContent                                          // 204

  const MsgValidation: string := "Validation failed"
  const MsgInvalidQuery: string := "Invalid query parameters"
  const MsgTaken: string := "Alias already taken"
  const MsgNotFound: string := "Link not found"

  function BodyOf(l: StoredLink, baseUrl: string, events: seq<ClickRecorder.ClickEvent>): (b: LinkBody)
    ensures b.link == l && b.shortUrl == ShortUrl(baseUrl, l.slug) && b.clickCount == Some(EventCount(events, l.id))
  {
    LinkBody(l, ShortUrl(baseUrl, l.slug), Some(EventCount(events, l.id)))
  }

  function Bodies(page: seq<StoredLink>, baseUrl: string, events: seq<ClickRecorder.ClickEvent>): (r: seq<LinkBody>)
    ensures |r| == |page| && forall i :: 0 <= i < |page| ==> r[i] == BodyOf(page[i], baseUrl, events)
  {
    if page == [] then [] else [BodyOf(page[0], baseUrl, events)] + Bodies(page[1..], baseUrl, events)
  }

  class LinkTable {
    var rows: seq<StoredLink>

    ghost predicate Valid()
      reads this
    {
      UniqueKeys(rows)
    }

    constructor()
      ensures rows == [] && Valid()
    {
      rows := [];
    }

    /** `POST /api/links` (api/src/links/links.routes.ts:20-55). The new id is fresh, as the
        database's generated ids are. */
    method Create(body: LinksValidation.CreateBody, c: LinksValidation.Checks, userId: string,
                  generated: string, newId: string, now: int, parseDate: string -> int, baseUrl: string)
      returns (reply: Reply)
      requires Valid()
      requires forall l :: l in rows ==> l.id != newId
      modifies this
      ensures Valid()
      ensures LinksValidation.ParseCreate(body, c).None? ==> reply == Failure(400, MsgValidation) && rows == old(rows)
      ensures LinksValidation.ParseCreate(body, c).Some? ==>
        var input := LinksValidation.ParseCreate(body, c).value;
        var slug := if input.alias.Some? then input.alias.value else generated;
        if SlugTaken(old(rows), slug) then reply == Failure(409, MsgTaken) && rows == old(rows)
        else
          var link := NewLink(input, slug, userId, newId, now, parseDate);
          rows == old(rows) + [link] && reply == Success(201, LinkBody(link, ShortUrl(baseUrl, slug), None))
    {
      var parsed := LinksValidation.ParseCreate(body, c);
      if parsed.None? {
        return Failure(400, MsgValidation);
      }
      var input := parsed.value;
      var slug := if input.alias.Some? then input.alias.value else generated;
      if exists l :: l in rows && l.slug == slug {
        return Failure(409, MsgTaken);
      }
      var link := NewLink(input, slug, userId, newId, now, parseDate);
      rows := rows + [link];
      reply := Success(201, LinkBody(link, ShortUrl(baseUrl, link.slug), None));
    }

    /** `GET /api/links` (api/src/links/links.routes.ts:58-111). */
    function List(page: Option<string>, limit: Option<string>, search: Option<string>,
                  toNumber: LinksValidation.ToNumber, userId: string, baseUrl: string,
                  events: seq<ClickRecorder.ClickEvent>): (r: Reply)
      reads this
      ensures LinksValidation.ParseListQuery(page, limit, search, toNumber).None? ==> r == Failure(400, MsgInvalidQuery)
      ensures LinksValidation.ParseListQuery(page, limit, search, toNumber).Some? ==>
        var q := LinksValidation.ParseListQuery(page, limit, search, toNumber).value;
        r.Listing? && |r.data| <= q.limit
        && r.data == Bodies(Page(rows, q, userId), baseUrl, events)
        && (forall b :: b in r.data ==> b.link.userId == userId && b.link in rows)
        && r.pagination == Pagination(q.page, q.limit, |Filter(rows, userId, search)|,
                                      CeilDiv(|Filter(rows, userId, search)|, q.limit))
    {
      match LinksValidation.ParseListQuery(page, limit, search, toNumber)
      case None => Failure(400, MsgInvalidQuery)
      case Some(q) =>
        var total := |Filter(rows, userId, q.search)|;
        var data := Bodies(Page(rows, q, userId), baseUrl, events);
        assert forall b :: b in data ==> b.link in Page(rows, q, userId);
        Listing(data, Pagination(q.page, q.limit, total, CeilDiv(total, q.limit)))
    }

    /** `GET /api/links/:id` (api/src/links/links.routes.ts:114-137). */
    function Get(id: string, userId: string, baseUrl: string, events: seq<ClickRecorder.ClickEvent>): (r: Reply)
      reads this
      ensures OwnedIndex(rows, id, userId).None? ==> r == Failure(404, MsgNotFound)
      ensures OwnedIndex(rows, id, userId).Some? ==>
        r == Success(200, BodyOf(rows[OwnedIndex(rows, id, userId).value], baseUrl, events))
    {
      match OwnedIndex(rows, id, userId)
      case None => Failure(404, MsgNotFound)
      case Some(i) => Success(200, BodyOf(rows[i], baseUrl, events))
    }

    /** `PATCH /api/links/:id` (api/src/links/links.routes.ts:140-179): the body is validated before
        the row is looked up. */
    method Patch(id: string, userId: string, body: LinksValidation.UpdateBody, c: LinksValidation.Checks,
                 parseDate: string -> int, now: int, baseUrl: string) returns (reply: Reply)
      requires Valid()
      modifies this
      ensures Valid()
      ensures LinksValidation.ParseUpdate(body, c).None? ==> reply == Failure(400, MsgValidation) && rows == old(rows)
      ensures LinksValidation.ParseUpdate(body, c).Some? && OwnedIndex(old(rows), id, userId).None? ==>
        reply == Failure(404, MsgNotFound) && rows == old(rows)
      ensures LinksValidation.ParseUpdate(body, c).Some? && OwnedIndex(old(rows), id, userId).Some? ==>
        var i := OwnedIndex(old(rows), id, userId).value;
        var updated := Patched(old(rows)[i], LinksValidation.ParseUpdate(body, c).value, parseDate, now);
        rows == old(rows)[i := updated] && reply == Success(200, LinkBody(updated, ShortUrl(baseUrl, updated.slug), None))
    {
      var parsed := LinksValidation.ParseUpdate(body, c);
      if parsed.None? {
        return Failure(400, MsgValidation);
      }
      var found := OwnedIndex(rows, id, userId);
      if found.None? {
        return Failure(404, MsgNotFound);
      }
      var i := found.value;
      var updated := Patched(rows[i], parsed.value, parseDate, now);
      rows := rows[i := updated];
      reply := Success(200, LinkBody(updated, ShortUrl(baseUrl, updated.slug), None));
    }

    /** `DELETE /api/links/:id` (api/src/links/links.routes.ts:182-194). */
    method Delete(id: string, userId: string) returns (reply: Reply)
      requires Valid()
      modifies this
      ensures Valid()
      ensures OwnedIndex(old(rows), id, userId).None? ==> reply == Failure(404, MsgNotFound) && rows == old(rows)
      ensures OwnedIndex(old(rows), id, userId).Some? ==> reply == NoContent && rows == Without(old(rows), id)
    {
      var found := OwnedIndex(rows, id, userId);
      if found.None? {
        return Failure(404, MsgNotFound);
      }
      rows := Without(rows, id);
      reply := NoContent;
    }
  }

  /** A created row is found again by its id, for its owner only. */
  lemma CreatedIsOwned(rows: seq<StoredLink>, link: StoredLink, other: string)
    requires forall l :: l in rows ==> l.id != link.id
    requires other != link.userId
    ensures OwnedIndex(rows + [link], link.id, link.userId) == Some(|rows|)
    ensures OwnedIndex(rows + [link], link.id, other).None?
  {
    var all := rows + [link];
    assert forall i :: 0 <= i < |rows| ==> all[i] == rows[i] && rows[i] in rows;
    assert all[|rows|] == link;
    IndexOfIdIsFirst(all, link.id, |rows|);
  }

  /** The position `IndexOfId` finds is the first row with that id. */
  lemma {:induction false} IndexOfIdIsFirst(rows: seq<StoredLink>, id: string, k: nat)
    requires k < |rows| && rows[k].id == id
    requires forall i :: 0 <= i < k ==> rows[i].id != id
    ensures IndexOfId(rows, id) == Some(k)
  {
    if k > 0 {
      IndexOfIdIsFirst(rows[1..], id, k - 1);
    }
  }

  /** Another user's id is never reachable: get, patch and delete all see no row. */
  lemma OtherUsersSeeNothing(rows: seq<StoredLink>, i: nat, userId: string)
    requires UniqueKeys(rows) && i < |rows| && rows[i].userId != userId
    ensures OwnedIndex(rows, rows[i].id, userId).None?
  {
    IndexOfIdIsFirst(rows, rows[i].id, i);
  }

  /** Deleting removes exactly the row with that id. */
  lemma DeleteRemovesOne(rows: seq<StoredLink>, id: string)
    requires UniqueKeys(rows) && IndexOfId(rows, id).Some?
    ensures |Without(rows, id)| == |rows| - 1
    ensures forall l :: l in Without(rows, id) <==> l in rows && l.id != id
  {
    WithoutLength(rows, id);
  }

  lemma {:induction false} WithoutLength(rows: seq<StoredLink>, id: string)
    requires UniqueKeys(rows) && IndexOfId(rows, id).Some?
    ensures |Without(rows, id)| == |rows| - 1
  {
    if rows[0].id == id {
      assert forall i :: 0 <= i < |rows| - 1 ==> rows[1..][i] == rows[i + 1];
      NoIdLeft(rows[1..], id);
    } else {
      WithoutLength(rows[1..], id);
    }
  }

  lemma {:induction false} NoIdLeft(rows: seq<StoredLink>, id: string)
    requires forall i :: 0 <= i < |rows| ==> rows[i].id != id
    ensures Without(rows, id) == rows
  {
    if rows != [] {
      NoIdLeft(rows[1..], id);
    }
  }

  /** A matching row has a position in the ordered list. */
  lemma PositionOfMatch(rows: seq<StoredLink>, userId: string, search: Option<string>, l: StoredLink)
    returns (k: nat)
    requires l in rows && Matches(l, userId, search)
    ensures k < |Ordered(rows, userId, search)| && Ordered(rows, userId, search)[k] == l
  {
    var ordered := Ordered(rows, userId, search);
    assert l in Filter(rows, userId, search);
    assert l in multiset(ordered);
    k :| 0 <= k < |ordered| && ordered[k] == l;
  }

  /** Pages cover the filtered list: every matching row appears on some page from 1 to
      `totalPages`. */
  lemma EveryMatchOnSomePage(rows: seq<StoredLink>, userId: string, search: Option<string>, limit: int, l: StoredLink)
    requires limit >= 1
    requires l in rows && Matches(l, userId, search)
    ensures exists p :: 1 <= p <= CeilDiv(|Filter(rows, userId, search)|, limit)
                        && l in Page(rows, LinksValidation.ListLinksQuery(p, limit, search), userId)
  {
    var ordered := Ordered(rows, userId, search);
    var k := PositionOfMatch(rows, userId, search, l);
    PageOfPosition(k, |ordered|, limit);
    PositionOnPage(ordered, limit, k);
    var p := k / limit + 1;
    assert 1 <= p <= CeilDiv(|ordered|, limit);
    assert |ordered| == |Filter(rows, userId, search)|;
    assert l in Paginate(ordered, p, limit);
    assert l in Page(rows, LinksValidation.ListLinksQuery(p, limit, search), userId);
  }
}
