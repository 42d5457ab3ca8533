/** The propagating cache hooks (src/lib/cache-hooks.ts). They have no try/catch: a failed Redis
    command is returned to the caller as `ok == false`. As written, both `onLinkCreated` and
    `onLinkUpdated` hand `linkId` to `cacheLink` in the position of its `ttl` parameter. */
module CacheHooksLib {
  import opened Common
  import opened Cache

  /** `onLinkCreated(slug, destinationUrl, linkId)` (src/lib/cache-hooks.ts:13-19). */
  method OnLinkCreated(c: RedisCache, slug: string, destinationUrl: string, linkId: string, now: int, setOk: bool)
    returns (ok: bool)
    modifies c
    ensures ok == setOk
    ensures c.store == if setOk then old(c.store)[Key(slug) := EntryFor(destinationUrl, TtlText(linkId), now)] else old(c.store)
  {
    ok := c.CacheLink(slug, destinationUrl, TtlText(linkId), now, setOk);
  }

  /** `onLinkUpdated(slug, destinationUrl?, linkId?)` (src/lib/cache-hooks.ts:25-37): with both
      arguments present and non-empty the entry is overwritten in place (nothing is deleted
      first); otherwise it is only invalidated. */
  method OnLinkUpdated(c: RedisCache, slug: string, destinationUrl: Option<string>, linkId: Option<string>,
                       now: int, cmdOk: bool) returns (ok: bool)
    modifies c
    ensures ok == cmdOk
    ensures Recache(destinationUrl, linkId) ==>
      c.store == if cmdOk then old(c.store)[Key(slug) := EntryFor(destinationUrl.value, TtlText(linkId.value), now)] else old(c.store)
    ensures !Recache(destinationUrl, linkId) ==>
      c.store == if cmdOk then Del(old(c.store), Key(slug)) else old(c.store)
  {
    if destinationUrl.Some? && destinationUrl.value != [] && linkId.Some? && linkId.value != [] {
      ok := c.CacheLink(slug, destinationUrl.value, TtlText(linkId.value), now, cmdOk);
    } else {
      ok := c.InvalidateLink(slug, cmdOk);
    }
  }

  /** `destinationUrl && linkId`: both present and non-empty. */
  predicate Recache(destinationUrl: Option<string>, linkId: Option<string>)
  {
    destinationUrl.Some? && destinationUrl.value != [] && linkId.Some? && linkId.value != []
  }

  /** `onLinkDeleted(slug)` (src/lib/cache-hooks.ts:42-44). */
  method OnLinkDeleted(c: RedisCache, slug: string, delOk: bool) returns (ok: bool)
    modifies c
    ensures ok == delOk
    ensures c.store == if delOk then Del(old(c.store), Key(slug)) else old(c.store)
  {
    ok := c.InvalidateLink(slug, delOk);
  }

  /** The link id never becomes the cached value: the entry holds the destination, and the id
      only decides the expiry. A non-numeric id, such as a UUID, makes `ttl > 0` false (NaN), so
      the entry is stored with no expiry at all. */
  lemma LinkIdOnlyAffectsExpiry(url: string, linkId: string, now: int)
    ensures EntryFor(url, TtlText(linkId), now).value == url
    ensures ContainsChar(linkId, '-') ==> EntryFor(url, TtlText(linkId), now).expiry == None
  {
  }

  /** With a numeric id the entry expires after `linkId` seconds instead of the default hour:
      link 7 is cached for seven seconds. */
  lemma NumericLinkIdIsTtl(url: string, now: int)
    ensures EntryFor(url, TtlText("7"), now) == Entry(url, Some(now + 7000))
  {
    assert forall i :: 0 <= i < |"7"| ==> IsDigit("7"[i]);
    assert "7"[..0] == [];
    assert DigitsValue("7") == 7;
  }

  /** A successful `onLinkCreated` leaves the URL readable until the entry expires; for a UUID
      link id it stays readable at every later time. */
  lemma CreatedThenReadable(store: map<string, Entry>, slug: string, url: string, linkId: string, t0: int, now: int)
    requires ContainsChar(linkId, '-')
    ensures Lookup(store[Key(slug) := EntryFor(url, TtlText(linkId), t0)], Key(slug), now) == Some(url)
  {
  }

  /** The evidently intended `onLinkCreated`: the link id is not a ttl, so `cacheLink` gets its
      default of one hour. */
  method OnLinkCreatedIntended(c: RedisCache, slug: string, destinationUrl: string, now: int, setOk: bool)
    returns (ok: bool)
    modifies c
    ensures ok == setOk
    ensures c.store == if setOk then old(c.store)[Key(slug) := EntryFor(destinationUrl, TtlNumber(DefaultTtl), now)] else old(c.store)
  {
    ok := c.CacheLink(slug, destinationUrl, TtlNumber(DefaultTtl), now, setOk);
  }

  /** With the default ttl the entry is readable for exactly one hour after the write. */
  lemma IntendedExpiresAfterOneHour(store: map<string, Entry>, slug: string, url: string, t0: int, now: int)
    ensures Lookup(store[Key(slug) := EntryFor(url, TtlNumber(DefaultTtl), t0)], Key(slug), now) ==
      (if now < t0 + 3600000 then Some(url) else None)
  {
  }
}
