/** The error-swallowing cache hooks of the Next.js link routes (src/app/api/links/cache-hooks.ts).
    Every hook wraps its commands in try/catch, so none reports a failure: the methods have no
    result, and each Redis command's outcome is an `ok` parameter. A failed command stops the
    rest of its hook. */
module CacheHooksApi {
  import opened Common
  import opened Cache

  function LinkIdKey(slug: string): string
  {
    "linkid:" + slug
  }

  /** `onLinkCreated(slug, url)` (src/app/api/links/cache-hooks.ts:11-18): caches with the
      default one-hour ttl. */
  method OnLinkCreated(c: RedisCache, slug: string, url: string, now: int, setOk: bool)
    modifies c
    ensures c.store == if setOk then old(c.store)[Key(slug) := Entry(url, Some(now + DefaultTtl * 1000))] else old(c.store)
  {
    var _ := c.CacheLink(slug, url, TtlNumber(DefaultTtl), now, setOk);
  }

  /** The store `onLinkUpdated(slug, newUrl?)` leaves: the entry is deleted first, then rewritten
      with the new URL when one is given and the rewrite succeeds. */
  function AfterUpdate(store: map<string, Entry>, slug: string, newUrl: Option<string>, now: int,
                       delOk: bool, setOk: bool): (r: map<string, Entry>)
    ensures forall k :: k != Key(slug) ==> (k in r <==> k in store) && (k in r ==> r[k] == store[k])
    ensures !delOk ==> r == store
    ensures delOk ==> (Key(slug) in r <==> newUrl.Some? && newUrl.value != [] && setOk)
  {
    if !delOk then store
    else if newUrl.Some? && newUrl.value != [] && setOk then
      Del(store, Key(slug))[Key(slug) := Entry(newUrl.value, Some(now + DefaultTtl * 1000))]
    else Del(store, Key(slug))
  }

  /** `onLinkUpdated(slug, newUrl?)` (src/app/api/links/cache-hooks.ts:23-35). */
  method OnLinkUpdated(c: RedisCache, slug: string, newUrl: Option<string>, now: int, delOk: bool, setOk: bool)
    modifies c
    ensures c.store == AfterUpdate(old(c.store), slug, newUrl, now, delOk, setOk)
  {
    var ok := c.InvalidateLink(slug, delOk);
    if !ok {
      return;
    }
    if newUrl.Some? && newUrl.value != [] {
      var _ := c.CacheLink(slug, newUrl.value, TtlNumber(DefaultTtl), now, setOk);
    }
  }

  /** The store `onLinkDeleted(slug)` leaves: `link:<slug>` removed, then `linkid:<slug>`. */
  function AfterDelete(store: map<string, Entry>, slug: string, delOk: bool, delIdOk: bool): (r: map<string, Entry>)
    ensures forall k :: k != Key(slug) && k != LinkIdKey(slug) ==> (k in r <==> k in store) && (k in r ==> r[k] == store[k])
    ensures delOk ==> Key(slug) !in r
    ensures delOk && delIdOk ==> LinkIdKey(slug) !in r
  {
    if !delOk then store
    else if !delIdOk then Del(store, Key(slug))
    else Del(Del(store, Key(slug)), LinkIdKey(slug))
  }

  /** `onLinkDeleted(slug)` (src/app/api/links/cache-hooks.ts:40-51). */
  method OnLinkDeleted(c: RedisCache, slug: string, delOk: bool, delIdOk: bool)
    modifies c
    ensures c.store == AfterDelete(old(c.store), slug, delOk, delIdOk)
  {
    var ok := c.InvalidateLink(slug, delOk);
    if !ok {
      return;
    }
    var _ := c.DelKey(LinkIdKey(slug), delIdOk);
  }

  /** After a successful update the slug resolves to the new URL for the next hour. */
  lemma UpdateThenReadNew(store: map<string, Entry>, slug: string, newUrl: string, t0: int, now: int)
    requires newUrl != [] && t0 <= now < t0 + 3600000
    ensures Lookup(AfterUpdate(store, slug, Some(newUrl), t0, true, true), Key(slug), now) == Some(newUrl)
  {
  }

  /** Because the delete comes first, no outcome of the update leaves the old URL readable unless
      the delete itself failed: a failed re-cache or a missing URL leaves a miss. */
  lemma UpdateNeverServesStale(store: map<string, Entry>, slug: string, newUrl: Option<string>, now: int, setOk: bool)
    ensures Lookup(AfterUpdate(store, slug, newUrl, now, true, setOk), Key(slug), now) == None
      || (newUrl.Some? && Lookup(AfterUpdate(store, slug, newUrl, now, true, setOk), Key(slug), now) == newUrl)
    ensures newUrl.None? || !setOk ==> Lookup(AfterUpdate(store, slug, newUrl, now, true, setOk), Key(slug), now) == None
  {
  }

  /** An update never touches the `linkid:` entry; a delete removes both entries. */
  lemma LinkIdKeyHandling(store: map<string, Entry>, slug: string, newUrl: Option<string>, now: int, delOk: bool, setOk: bool)
    ensures var r := AfterUpdate(store, slug, newUrl, now, delOk, setOk);
      (LinkIdKey(slug) in r <==> LinkIdKey(slug) in store)
      && (LinkIdKey(slug) in r ==> r[LinkIdKey(slug)] == store[LinkIdKey(slug)])
    ensures var r := AfterDelete(store, slug, true, true);
      Lookup(r, Key(slug), now) == None && Lookup(r, LinkIdKey(slug), now) == None
  {
    KeyNotLinkIdKey(slug, slug);
  }
}
