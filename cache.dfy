/** The Redis redirect cache (src/lib/cache.ts): destination URLs under `link:`-prefixed keys,
    with an optional expiry. The Redis key space is a map from key to value and absolute
    expiry time in milliseconds, read against an explicit clock `now`. A Redis command that
    fails (the promise rejects) is an `ok` parameter that is false; it leaves the store as it
    was and is reported back to the caller as `false`. */
module Cache {
  import opened Common

  const CachePrefix: string := "link:"
  const DefaultTtl: int := 3600

  /** A stored string and, for `SET ... EX`, the instant it expires. */
  datatype Entry = Entry(value: string, expiry: Option<int>)

  /** The cache key of a slug. */
  function Key(slug: string): (k: string)
    ensures StartsWith(k, CachePrefix) && k[|CachePrefix|..] == slug
  {
    CachePrefix + slug
  }

  /** Distinct slugs never share an entry. */
  lemma KeyInjective(a: string, b: string)
    requires Key(a) == Key(b)
    ensures a == b
  {
    assert a == Key(a)[5..] && b == Key(b)[5..];
  }

  /** No cache key is a `linkid:` key. */
  lemma KeyNotLinkIdKey(slug: string, other: string)
    ensures Key(slug) != "linkid:" + other
  {
    assert Key(slug)[4] == ':';
    assert ("linkid:" + other)[4] == 'i';
  }

  /** The `ttl` argument: a number, or (when a caller passes a string) a string that `ttl > 0`
      converts with `Number(...)`. */
  datatype Ttl = TtlNumber(seconds: int) | TtlText(text: string)

  /** `Number(text)` for the strings the model distinguishes: a run of decimal digits is its
      value, the empty string is 0, and anything else (a UUID, say) is NaN (`None`). */
  function TextToNumber(text: string): (r: Option<int>)
    ensures text == [] ==> r == Some(0)
    ensures ContainsChar(text, '-') ==> r == None
  {
    if forall i :: 0 <= i < |text| ==> IsDigit(text[i]) then Some(DigitsValue(text)) else None
  }

  /** The number of seconds `SET ... EX` receives when `ttl > 0`, `None` when `ttl > 0` fails. */
  function PositiveTtl(ttl: Ttl): (r: Option<int>)
    ensures r.Some? ==> r.value > 0
  {
    match ttl
    case TtlNumber(n) => if n > 0 then Some(n) else None
    case TtlText(t) => var v := TextToNumber(t); if v.Some? && v.value > 0 then Some(v.value) else None
  }

  /** The entry `cacheLink` writes at time `now`. */
  function EntryFor(url: string, ttl: Ttl, now: int): (e: Entry)
    ensures e.value == url
    ensures PositiveTtl(ttl).Some? ==> e.expiry == Some(now + PositiveTtl(ttl).value * 1000)
    ensures PositiveTtl(ttl).None? ==> e.expiry == None
  {
    match PositiveTtl(ttl)
    case Some(s) => Entry(url, Some(now + s * 1000))
    case None => Entry(url, None)
  }

  /** A key with an expiry is gone from the moment the expiry is reached. */
  predicate Live(e: Entry, now: int)
  {
    e.expiry.None? || now < e.expiry.value
  }

  /** `GET key`: the value of a live entry, else `None` (null). */
  function Lookup(store: map<string, Entry>, key: string, now: int): (r: Option<string>)
    ensures r.Some? <==> key in store && Live(store[key], now)
    ensures r.Some? ==> r.value == store[key].value
  {
    if key in store && Live(store[key], now) then Some(store[key].value) else None
  }

  /** `DEL key` on a store. */
  function Del(store: map<string, Entry>, key: string): (r: map<string, Entry>)
    ensures key !in r
    ensures forall k :: k != key ==> (k in r <==> k in store) && (k in r ==> r[k] == store[k])
  {
    store - {key}
  }

  /** Deleting twice is deleting once. */
  lemma DelIdempotent(store: map<string, Entry>, key: string)
    ensures Del(Del(store, key), key) == Del(store, key)
  {
  }

  /** The Redis key space the cache functions share. */
  class RedisCache {
    var store: map<string, Entry>

    constructor()
      ensures store == map[]
    {
      store := map[];
    }

    /** `cacheLink(slug, url, ttl)` (src/lib/cache.ts:12-25): `SET link:<slug> url EX ttl` when
        `ttl > 0`, plain `SET` otherwise; the default ttl is `TtlNumber(DefaultTtl)`. */
    method CacheLink(slug: string, url: string, ttl: Ttl, now: int, setOk: bool) returns (ok: bool)
      modifies this
      ensures ok == setOk
      ensures store == if setOk then old(store)[Key(slug) := EntryFor(url, ttl, now)] else old(store)
    {
      var key := Key(slug);
      ok := setOk;
      if !setOk {
        return;
      }
      match PositiveTtl(ttl)
      case Some(seconds) =>
        store := store[key := Entry(url, Some(now + seconds * 1000))];
      case None =>
        store := store[key := Entry(url, None)];
    }

    /** `getCachedLink(slug)` (src/lib/cache.ts:31-34): `None` on a miss, and `ok == false`
        when the `GET` fails. */
    method GetCachedLink(slug: string, now: int, getOk: bool) returns (ok: bool, r: Option<string>)
      ensures ok == getOk
      ensures ok ==> r == Lookup(store, Key(slug), now)
      ensures !ok ==> r == None
    {
      ok := getOk;
      r := None;
      if getOk {
        var key := Key(slug);
        if key in store && (store[key].expiry.None? || now < store[key].expiry.value) {
          r := Some(store[key].value);
        }
      }
    }

    /** `invalidateLink(slug)` (src/lib/cache.ts:40-43): `DEL link:<slug>`. */
    method InvalidateLink(slug: string, delOk: bool) returns (ok: bool)
      modifies this
      ensures ok == delOk
      ensures store == if delOk then Del(old(store), Key(slug)) else old(store)
    {
      ok := delOk;
      if delOk {
        store := store - {Key(slug)};
      }
    }

    /** `DEL key` for a key outside the `link:` space. */
    method DelKey(key: string, delOk: bool) returns (ok: bool)
      modifies this
      ensures ok == delOk
      ensures store == if delOk then Del(old(store), key) else old(store)
    {
      ok := delOk;
      if delOk {
        store := store - {key};
      }
    }
  }

  /** Read after write: until it expires, the entry just written is what a lookup returns, and a
      later write to the same slug replaces it (last write wins). */
  lemma ReadYourWrite(store: map<string, Entry>, slug: string, url: string, ttl: Ttl, t0: int, now: int)
    requires PositiveTtl(ttl).None? || now < t0 + PositiveTtl(ttl).value * 1000
    ensures Lookup(store[Key(slug) := EntryFor(url, ttl, t0)], Key(slug), now) == Some(url)
  {
  }

  /** A lookup misses exactly when the key was never set (or was deleted) or has expired. */
  lemma MissIff(store: map<string, Entry>, slug: string, now: int)
    ensures Lookup(store, Key(slug), now) == None <==>
      Key(slug) !in store || (store[Key(slug)].expiry.Some? && store[Key(slug)].expiry.value <= now)
  {
  }

  /** Invalidation makes the next lookup miss and leaves every other key, the `linkid:` entry of
      the same slug included, as it was. */
  lemma InvalidateOnlyThatKey(store: map<string, Entry>, slug: string, now: int)
    ensures Lookup(Del(store, Key(slug)), Key(slug), now) == None
    ensures forall k :: k != Key(slug) ==> Lookup(Del(store, Key(slug)), k, now) == Lookup(store, k, now)
    ensures forall other :: Lookup(Del(store, Key(slug)), "linkid:" + other, now) == Lookup(store, "linkid:" + other, now)
  {
    forall other ensures Lookup(Del(store, Key(slug)), "linkid:" + other, now) == Lookup(store, "linkid:" + other, now) {
      KeyNotLinkIdKey(slug, other);
    }
  }

  /** The ttl rules: a positive number of seconds expires the entry that many seconds after the
      write, zero or a negative number stores it with no expiry; the default ttl is one hour. */
  lemma TtlRules(url: string, n: int, now: int)
    ensures n > 0 ==> EntryFor(url, TtlNumber(n), now) == Entry(url, Some(now + n * 1000))
    ensures n <= 0 ==> EntryFor(url, TtlNumber(n), now) == Entry(url, None)
    ensures EntryFor(url, TtlNumber(DefaultTtl), now) == Entry(url, Some(now + 3600000))
  {
  }
}
