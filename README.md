# Link shortener core, modelled in Dafny

This project models the request-independent rules of a link shortener that exists in three near-duplicate forms: a Fastify API (`api/`), a Next.js backend (`src/`) and a React single-page app (`web/`). The model covers:

- the `/:slug` redirect decision and the two click recorders;
- the Redis redirect cache and its two sets of invalidation hooks;
- the alias, slug, URL, private-IP, path-rewrite, API-key and Bearer-token checks;
- the sliding-window rate limiter;
- the two link stores and their create, list, get, patch and delete handlers, including the bounded retry loop for generated slugs;
- the SQL analytics queries, as aggregations over a sequence of click rows;
- the toast queue, the Redis client singleton and its retry rule;
- the string helpers: truncation, masking, relative time, CSV text and flag emoji.

There is one Dafny module per source file. Three helper modules complete it:

- `Common`: JavaScript string operations, decimal text and `Math.ceil`;
- `Sorting`: `ORDER BY`, `GROUP BY`, `LIMIT` and pagination;
- `Calendar`: UTC calendar fields, `toISOString` and `date_trunc`.

Code whose state changes in place is written as classes with `modifies` clauses: the cache, the rate-limit store, the link tables, the click stores, the toast store, the Redis holder, and the request and reply objects of the auth middleware. Loops are written as methods with invariants: the slug retry loop and the device-breakdown loop. Everything else is written as functions and lemmas.

Libraries and the environment are parameters of the model, never modelled themselves:

- UAParser results, geoip-lite lookups, the WHATWG URL parser, zod's `url`/`datetime` checks and `z.coerce.number`;
- `new Date(s)`, `parseInt`, `jwt.verify` and `formatDate`;
- the random bytes and `Math.random` strings;
- the clock (`now`);
- the success or failure of each Redis or database round trip.

Behaviour of the code worth noting (the model follows the code):

- `parseDeviceType` passes unrecognised parser types through and never produces "unknown".
- The Next.js cache stores only the URL under `link:<slug>`. `invalidateLink` clears only that key; just one hook variant also deletes `linkid:<slug>`.
- The hooks in `src/lib/cache-hooks.ts` let cache failures propagate; they are not best-effort.
- The Fastify recorder never increments a link counter. Its counts come from `_count.clickEvents`.
- `isPrivateIp` knows `::1`, and no other IPv6 address.
- The cache-backed redirect handler that the middleware rewrites to is not part of this model. Its cache-hit path is therefore not modelled.

## Model

| member | source | states |
|---|---|---|
| Auth.GetApiKey | src/lib/auth.ts:7-11 | no key exactly when the `x-api-key` header is missing or trims to empty; otherwise the key is the trimmed header and is non-empty |
| Auth.WhitespaceHeaderHasNoKey | src/lib/auth.ts:9 | a header made only of JavaScript white space yields no key |
| Auth.GetApiKeyStable | src/lib/auth.ts:10 | sending the extracted key back as the header yields the same key (trimming is idempotent) |
| Auth.RequireApiKey | src/lib/auth.ts:16-29 | a 401 with the fixed message exactly when `getApiKey` finds no key; otherwise that non-empty key |
| AuthMiddleware.Token | api/src/auth/auth.middleware.ts:26 | `slice(7)` of a header starting with "Bearer " is the rest, so prefix plus token gives back the header |
| AuthMiddleware.Authorize | api/src/auth/auth.middleware.ts:19-33 | missing header or no "Bearer " prefix: the missing-header rejection; otherwise the verified user id, or the invalid-token rejection when verification fails |
| AuthMiddleware.SchemeIsCaseSensitive | api/src/auth/auth.middleware.ts:21 | "bearer …" and a bare "Bearer" are both rejected as a missing header |
| AuthMiddleware.TokenRoundTrip | api/src/auth/auth.middleware.ts:26-29 | the token passed to `jwt.verify` is exactly what follows "Bearer ", and the outcome is that verification's outcome |
| AuthMiddleware.RequireAuth | api/src/auth/auth.middleware.ts:15-34 | on success `request.userId` is set and no reply is sent; on rejection `userId` is unchanged and a 401 with the message is sent; a reply is sent iff rejected |
| Middleware.HandlePath | src/middleware.ts:19-45 | a rewrite exactly when the path has no excluded prefix, is not "/" and matches the slug pattern; the rewrite target is "/api/r/" followed by the slug |
| Middleware.ApiaryPassesThrough | src/middleware.ts:14-23 | the exclusion is a prefix test: "/apiary" fits the slug pattern but passes through |
| Middleware.RootNeverMatches | src/middleware.ts:17-30 | "/" never fits the pattern and passes through |
| Middleware.NotRewritten | src/middleware.ts:17-36 | a path with a second '/', a '.', or more than 64 slug characters passes through |
| Middleware.RewriteTargetPassesThrough | src/middleware.ts:14-42 | the rewritten path starts with "/api", so the middleware leaves its own output alone |
| Middleware.RewriteCarriesSlug | src/middleware.ts:17-44 | a non-excluded "/" plus 1-64 pattern characters is rewritten to "/api/r/" plus those characters |
| Redis.RetryStrategy | src/lib/redis.ts:14-17 | no retry exactly after the tenth attempt; otherwise a delay of at most 2000 ms and at most `times * 200` |
| Redis.RetryMonotone | src/lib/redis.ts:14-17 | up to the tenth attempt the delay never shrinks |
| Redis.RetryCapNeverBinds | src/lib/redis.ts:15-16 | for every attempt that retries the delay is exactly `times * 200`, and it reaches 2000 only at attempt ten |
| Redis.RedisHolder.GetRedis | src/lib/redis.ts:9-30 | with a client held, that client and nothing built; otherwise a new client for `REDIS_URL`, or the default when it is unset or empty, which is then held |
| Redis.RedisHolder.DisconnectRedis | src/lib/redis.ts:35-40 | with no client nothing happens; otherwise the client is forgotten exactly when `quit` succeeds, and its failure is reported |
| Redis.GetRedisTwice | src/lib/redis.ts:9-30 | two calls in a row return the same instance and build at most one |
| Redis.ReconnectBuildsNew | src/lib/redis.ts:9-40 | after a successful disconnect the next `getRedis` builds a client later than the earlier one |
| Geo.GetCountry | src/lib/geo.ts:32-39 | no country for the empty string or a private address; otherwise the lookup's country, or none when the lookup finds nothing |
| Geo.PrivateSkipsLookup | src/lib/geo.ts:33-35 | for an empty or private address the result is none whatever the lookup would say |
| Geo.IsPrivateIp | src/lib/geo.ts:6-26 | private exactly for "127.0.0.1", "::1" and "localhost" (exact matches), for anything starting "10." or "192.168.", and for a "172." address whose second dot-field `parseInt`s to 16..31 |
| Geo.Private172Iff | src/lib/geo.ts:18-23 | an address starting "172." is private exactly when its second dot-field, parsed as `parseInt` does, is from 16 to 31 |
| Geo.SecondFieldOf172 | src/lib/geo.ts:19 | `ip.split('.')[1]` of a "172." address is the text after "172." up to the next dot |
| Geo.PrefixesArePrivate | src/lib/geo.ts:11-12 | anything starting "10." or "192.168." is private |
| Geo.LoopbackIsExact | src/lib/geo.ts:8 | the loopback test is an exact match: "127.0.0.2" is not private |
| Geo.Block172Upper | src/lib/geo.ts:18-22 | "172.31.255.255" is private and "172.32.0.1" is not |
| Geo.Block172Lower | src/lib/geo.ts:18-22 | "172.16.0.1" is private and "172.15.0.1" is not |
| Geo.Example172 | src/lib/geo.ts:18-22 | "172." followed by two digits and a dot is private exactly when those digits read 16 to 31 |
| Geo.ParseIntPrefix | src/lib/geo.ts:19 | a parsed value is the value of a signed run of digits at the start of the trimmed text |
| Slug.Base62Alphabet | src/lib/slug.ts:1 | the alphabet has 62 characters, each an ASCII letter or digit |
| Slug.GenerateSlug | src/lib/slug.ts:10-15 | seven characters, the i-th being `BASE62_CHARS[bytes[i] % 62]` |
| Slug.GeneratedSlugAlphanumeric | src/lib/slug.ts:10-15 | every character of a generated slug is an ASCII letter or digit |
| Slug.ValidateAlias | src/lib/slug.ts:25-41 | valid exactly when the alias fits `/^[a-zA-Z0-9-]{3,32}$/` and its lower-case form is not reserved; a malformed alias gets the format error, a reserved one the message quoting it |
| Slug.FormatCheckedFirst | src/lib/slug.ts:26-38 | the reserved-word error is only given to well-formed reserved aliases, and it differs from the format error |
| Slug.ReservedAnyCase | src/lib/slug.ts:33 | "API" and "Admin" are refused as reserved, quoted as given |
| Slug.UnderscoreRejected | src/lib/slug.ts:5-26 | any alias containing '_' gets the format error |
| Slug.GeneratedSlugIsValidAlias | src/lib/slug.ts:10-41 | every generated slug passes `validateAlias` |
| UrlValidator.ValidateUrl | src/lib/url-validator.ts:30-56 | valid exactly when the URL parses, uses http or https, and its lower-cased hostname is neither blocked nor in a private range; then the normalized form is `url.toString()`; otherwise one of the four fixed messages |
| UrlValidator.ErrorsFollowCheckOrder | src/lib/url-validator.ts:32-53 | each of the four messages is given exactly when its check fails and every earlier check passed |
| UrlValidator.Block172Iff | src/lib/url-validator.ts:5 | the 172 pattern matches exactly "172.", two digits reading 16 to 31, and a dot |
| UrlValidator.PrefixNameRejected | src/lib/url-validator.ts:49-53 | the ranges are prefix tests on the hostname text, so "10.example.com" is rejected too, with the private-address error |
| UrlValidator.HostCaseIrrelevant | src/lib/url-validator.ts:42 | two hostnames equal after lower-casing get the same verdict |
| Cache.Key | src/lib/cache.ts:3-18 | the key is "link:" followed by the slug, which can be read back from it |
| Cache.KeyInjective | src/lib/cache.ts:18 | distinct slugs never share a cache key |
| Cache.KeyNotLinkIdKey | src/lib/cache.ts:3-18 | no `link:` key equals a `linkid:` key |
| Cache.TextToNumber | src/lib/cache.ts:20 | the number `ttl > 0` reads from a string: "" is 0, and a UUID-shaped text, one holding a '-', is NaN |
| Cache.PositiveTtl | src/lib/cache.ts:20-21 | a ttl passes `ttl > 0` only as a positive number of seconds |
| Cache.EntryFor | src/lib/cache.ts:20-24 | the entry holds the URL and expires `ttl` seconds after the write when `ttl > 0`, and never otherwise |
| Cache.Lookup | src/lib/cache.ts:31-34 | `GET` finds a value exactly when the key is present and not expired, and gives the stored URL |
| Cache.Del | src/lib/cache.ts:42 | `DEL` removes the key and leaves every other key as it was |
| Cache.DelIdempotent | src/lib/cache.ts:40-43 | invalidating twice is invalidating once |
| Cache.RedisCache.CacheLink | src/lib/cache.ts:12-25 | on success `link:<slug>` holds the entry for the URL and ttl and nothing else changes; on failure the store is unchanged and the failure is reported |
| Cache.RedisCache.GetCachedLink | src/lib/cache.ts:31-34 | on success the live value of `link:<slug>` or none on a miss; nothing changes |
| Cache.RedisCache.InvalidateLink | src/lib/cache.ts:40-43 | on success the store without `link:<slug>`; on failure unchanged |
| Cache.ReadYourWrite | src/lib/cache.ts:12-34 | until its expiry, the entry just written is what `getCachedLink` returns |
| Cache.MissIff | src/lib/cache.ts:29-34 | a lookup misses exactly when the key is absent or expired |
| Cache.InvalidateOnlyThatKey | src/lib/cache.ts:36-43 | after invalidation the slug misses, and every other key, the `linkid:` entries included, reads as before |
| Cache.TtlRules | src/lib/cache.ts:4-24 | a positive ttl expires the entry that many seconds later, zero or negative stores it forever, and the default is one hour |
| Cache.RedisCache.DelKey | src/app/api/links/cache-hooks.ts:47 | `DEL` of a key outside the `link:` space removes that key alone on success and reports the outcome |
| CacheHooksLib.OnLinkCreated | src/lib/cache-hooks.ts:13-19 | on success `link:<slug>` holds the destination with the link id passed as the ttl; on failure nothing changes |
| CacheHooksLib.OnLinkUpdated | src/lib/cache-hooks.ts:25-37 | with both values present and non-empty the entry is rewritten (again with the id as ttl); otherwise it is invalidated; a failed command changes nothing |
| CacheHooksLib.OnLinkDeleted | src/lib/cache-hooks.ts:42-44 | on success the slug's entry is removed; on failure nothing changes |
| CacheHooksLib.LinkIdOnlyAffectsExpiry | src/lib/cache-hooks.ts:18 | the cached value is the destination; a UUID link id (it contains '-') makes `ttl > 0` false, so the entry never expires |
| CacheHooksLib.NumericLinkIdIsTtl | src/lib/cache-hooks.ts:18 | a numeric link id is taken as seconds: id "7" expires the entry after 7 s |
| CacheHooksLib.CreatedThenReadable | src/lib/cache-hooks.ts:13-19 | after `onLinkCreated` with a UUID id the URL stays readable at every later time |
| CacheHooksLib.OnLinkCreatedIntended | src/lib/cache-hooks.ts:13-19 | the corrected hook: the entry gets the default one-hour ttl |
| CacheHooksLib.IntendedExpiresAfterOneHour | src/lib/cache.ts:4 | with the corrected hook the URL is readable for exactly one hour after the write |
| CacheHooksApi.OnLinkCreated | src/app/api/links/cache-hooks.ts:11-18 | on success the slug caches the URL for the default hour; a failure is swallowed and changes nothing |
| CacheHooksApi.AfterUpdate | src/app/api/links/cache-hooks.ts:23-35 | only `link:<slug>` can change; a failed delete changes nothing; after the delete the key is present exactly when a non-empty new URL was re-cached successfully |
| CacheHooksApi.OnLinkUpdated | src/app/api/links/cache-hooks.ts:23-35 | the store becomes `AfterUpdate` of the old store |
| CacheHooksApi.AfterDelete | src/app/api/links/cache-hooks.ts:40-51 | only the `link:` and `linkid:` keys of the slug can change, and each is gone when its delete succeeded |
| CacheHooksApi.OnLinkDeleted | src/app/api/links/cache-hooks.ts:40-51 | the store becomes `AfterDelete` of the old store |
| CacheHooksApi.UpdateThenReadNew | src/app/api/links/cache-hooks.ts:26-31 | after a successful update with a new URL, that URL is served for the next hour |
| CacheHooksApi.UpdateNeverServesStale | src/app/api/links/cache-hooks.ts:25-31 | once the delete succeeded, a lookup gives a miss or the new URL, never the old one; a miss when no URL was given or the re-cache failed |
| CacheHooksApi.LinkIdKeyHandling | src/app/api/links/cache-hooks.ts:23-51 | an update never touches `linkid:<slug>`; a successful delete makes both keys miss |
| ClickAnalytics.HeaderValue | src/lib/analytics.ts:17-24 | a header counts exactly when it is present and non-empty (the `if (forwarded)` truthiness), and then it is the header's value |
| ClickAnalytics.ExtractIp | src/lib/analytics.ts:16-27 | a non-empty `x-forwarded-for` gives its first comma-separated segment trimmed, which holds no comma; without it a non-empty `x-real-ip` trimmed; without both `req.ip` when non-empty, else "0.0.0.0"; the IP is empty only when a header was present |
| ClickAnalytics.ForwardedForWins | src/lib/analytics.ts:18-21 | a non-empty `x-forwarded-for` decides the IP: a single address trimmed, or the first address of a comma-separated list trimmed |
| ClickAnalytics.IpFallbackOrder | src/lib/analytics.ts:23-26 | without `x-forwarded-for`, a non-empty `x-real-ip` trimmed, else `req.ip` when non-empty, else "0.0.0.0" |
| ClickAnalytics.ParseDeviceType | src/lib/analytics.ts:33-43 | never empty; "desktop" when the parser reports no type; otherwise the parser's type |
| ClickAnalytics.DeviceTypeNeverUnknown | src/lib/analytics.ts:29-43 | the function never invents "unknown": it comes out only when the parser reports it; every result is mobile, tablet, desktop or the parser's own type |
| ClickAnalytics.ClickRow | src/lib/analytics.ts:60-84 | the inserted row carries the link id, the row id and the time given, the extracted IP and its country, the sent user agent or an empty one, `referer` before `referrer`, the parsed device type, and the parser's browser and OS names with an empty name stored as null |
| ClickAnalytics.ClickDb.RecordClick | src/lib/analytics.ts:55-94 | the row is appended when the insert lands; the link's `clickCount` rises by one when the update lands and the link exists; with both, every counter still equals its rows |
| ClickAnalytics.CountForAppend | src/lib/analytics.ts:72-89 | appending a row raises its link's row count by one and no other |
| ClickAnalytics.RecordKeepsConsistent | src/lib/analytics.ts:72-89 | when both writes land for a known link, every counter still equals its number of rows |
| ClickAnalytics.InsertWithoutUpdateDiverges | src/lib/analytics.ts:72-89 | when only the insert lands, the link's counter falls one behind its rows |
| ClickRecorder.RecordedIp | api/src/redirect/click.recorder.ts:14-16 | the recorded IP is never empty; a string `x-forwarded-for` gives its first segment trimmed, or "unknown" when that is empty; otherwise `req.ip`, or "unknown" when that is empty |
| ClickRecorder.EventFor | api/src/redirect/click.recorder.ts:14-54 | the row carries the link id and the recorded IP; country and city come from the lookup only for an address other than "unknown", 127.0.0.1 and ::1, and are null otherwise or when the lookup finds nothing; an empty user agent is stored as null; browser and OS are the parser's names with an empty one stored as null; the device type is the parser's, or "desktop" when it reports none; `referer` comes before `referrer` |
| ClickRecorder.ForwardedFirstSegment | api/src/redirect/click.recorder.ts:14-16 | whatever the socket address, a string `x-forwarded-for` (one address or a list) gives its first segment trimmed, and "unknown" when that segment is all whitespace |
| ClickRecorder.LoopbackNotLookedUp | api/src/redirect/click.recorder.ts:34-40 | for loopback and "unknown" addresses the row does not depend on the geo database, and country and city are null |
| ClickRecorder.EventStore.RecordClick | api/src/redirect/click.recorder.ts:10-60 | one `clickEvent.create` and no link counter; the row is appended only when the create succeeds, and a failure is swallowed while the call still returns |
| Redirect.Decide | api/src/redirect/redirect.route.ts:13-36 | "api", "health" and "favicon.ico" go to the not-found handler; an unknown slug gives 404 "Short link not found"; a link whose expiry lies before now gives 410 "This link has expired"; the response is a 301 to the destination exactly when the slug is not skipped, is known and has not expired |
| Redirect.ExpiryBoundary | api/src/redirect/redirect.route.ts:28-30 | expiry is compared strictly: an expiry equal to now still redirects, one millisecond earlier gives 410 |
| Redirect.SkippedSlugsIgnoreStore | api/src/redirect/redirect.route.ts:14-16 | the skipped slugs never reach the store, whatever it holds |
| Redirect.Handle | api/src/redirect/redirect.route.ts:10-37 | the response is `Decide`'s; exactly on a 301 one click is dispatched for the found link's id (with the recorder's row appended when its insert succeeds); on every other response the recorder is untouched |
| RateLimit.RateKey | src/lib/rate-limit.ts:23 | the key is `rl:`, the key id, `:` and the action, each readable back at its place |
| RateLimit.RateKeyInjective | src/lib/rate-limit.ts:13-23 | for key ids without ':', distinct `(keyId, action)` pairs never share a sorted set |
| RateLimit.Prune | src/lib/rate-limit.ts:25-33 | `ZREMRANGEBYSCORE key 0 windowStart` keeps exactly the members scored outside 0..windowStart, with their scores |
| RateLimit.Store | src/lib/rate-limit.ts:33-54 | writing one sorted set changes that key only |
| RateLimit.StoreTwice | src/lib/rate-limit.ts:33-54 | a second write of the same key replaces the first |
| RateLimit.Verdict | src/lib/rate-limit.ts:49-50 | allowed exactly when the count, which includes this request, is at most the limit; `remaining` is `max(0, limit - count)` |
| RateLimit.Added | src/lib/rate-limit.ts:33-37 | after the pipeline the set holds this request's member scored `now`, and otherwise exactly the members that survived the prune |
| RateLimit.Check | src/lib/rate-limit.ts:23-62 | `resetAt` is now plus the window; a failed pipeline allows with the full limit and changes nothing; once the pipeline lands, a request within the limit, or any request whose ZREM lands, gets the verdict on the count of the set after the pipeline; an allowed request leaves the pruned set plus its member, a denied one the set without its member |
| RateLimit.RateLimitStore.CheckRateLimit | src/lib/rate-limit.ts:17-63 | the result and the new sorted sets are `Check`'s; the key's expiry is set to the window in whole seconds, rounded up, whenever the pipeline ran |
| RateLimit.CountIncludesRequest | src/lib/rate-limit.ts:36-50 | with a fresh member the count is the surviving entries plus one, so the request is allowed exactly when that fits the limit |
| RateLimit.DeniedLeavesPruned | src/lib/rate-limit.ts:52-55 | removing a denied request's member leaves exactly the pruned set |
| RateLimit.CheckAgainstWindow | src/lib/rate-limit.ts:17-63 | with both round trips succeeding, a check is allowed exactly when the requests still in the window plus this one fit the limit; `remaining` is what is left; a denied request leaves the set as if it had never been made; other keys are untouched |
| RateLimit.CheckAsWritten | src/lib/rate-limit.ts:2-62 | as written the imported `redis` is not exported, so every check fails open: allowed, the full limit remaining, no sorted set changed |
| RateLimit.AsWrittenNeverLimits | src/lib/rate-limit.ts:2-62 | with a full window the check as written still allows the request, where the intended check denies it |
| RateLimit.FailOpen | src/lib/rate-limit.ts:58-62 | any Redis failure, in the pipeline or in the ZREM of a denied request, answers allowed with the full limit remaining |
| RateLimit.RemainingBounds | src/lib/rate-limit.ts:49-50 | `remaining` lies between 0 and the limit, and is `limit - count` when allowed |
| RateLimit.WindowStartIsExcluded | src/lib/rate-limit.ts:25-33 | an entry scored exactly at the window start is pruned: the window is half-open |
| RateLimit.WithRateLimitHeaders | src/lib/rate-limit.ts:73-75 | the three headers are added, holding the limit, `remaining`, and the reset time in seconds rounded up; every other header stays with its value |
| RateLimit.ApplyRateLimitHeaders | src/lib/rate-limit.ts:68-77 | the response's headers become `WithRateLimitHeaders` of the old ones; status and body are untouched |
| RateLimit.RetryAfter | src/lib/rate-limit.ts:83 | the smallest whole number of seconds covering the time left until reset |
| RateLimit.RateLimitedResponse | src/lib/rate-limit.ts:82-96 | a fresh 429 whose body message, `retryAfter` and `Retry-After` header carry the same seconds, plus the three rate-limit headers |
| RateLimit.RetryAfterIsWindow | src/lib/rate-limit.ts:83 | built in the same millisecond as the check, the 429 asks the client to wait the window rounded up to whole seconds |
| LinksValidation.AliasIssues | api/src/links/links.validation.ts:5-12 | each of the four messages is reported exactly when its rule fails (fewer than 3 characters, more than 32, a character outside `[a-zA-Z0-9-]`, a reserved lower-case form), and there are no issues exactly when all four rules hold |
| LinksValidation.AliasAcceptedIff | api/src/links/links.validation.ts:3-12 | an alias is accepted exactly when it has 3 to 32 letters, digits and hyphens and its lower-case form is not one of api, auth, dashboard, health, app |
| LinksValidation.SameFormatAsSlug | api/src/links/links.validation.ts:7-9 | the length and character rules agree with the Next.js backend's `isValidAlias` format check |
| LinksValidation.AuthReservedOnlyHere | api/src/links/links.validation.ts:3-10 | "auth" is refused by the Fastify schema but accepted by the Next.js backend |
| LinksValidation.AdminReservedOnlyThere | api/src/links/links.validation.ts:3-10 | "admin" is accepted by the Fastify schema but refused by the Next.js backend |
| LinksValidation.ParseCreate | api/src/links/links.validation.ts:14-34 | a create body parses exactly when `url` is an http(s) URL, `alias` is absent or an accepted string, and `expiresAt` is absent or an ISO datetime; the parsed fields are the body's own |
| LinksValidation.OptionalString | api/src/links/links.validation.ts:29-51 | `.optional()` yields "no value" exactly for an absent field and a value exactly for a string that passes; `null` fails |
| LinksValidation.ParseUpdate | api/src/links/links.validation.ts:36-57 | an update body parses exactly when `destinationUrl` is absent or an http(s) URL and `expiresAt` is absent, `null` or an ISO datetime; absent means keep, `null` means clear |
| LinksValidation.NullExpiryDistinctFromAbsent | api/src/links/links.validation.ts:52-56 | an explicit `null` expiry and a missing one are both accepted and parse differently |
| LinksValidation.CoercedInt | api/src/links/links.validation.ts:60-61 | a missing value takes the default; a given one is accepted exactly when it coerces to a whole number within the bounds, and is that number |
| LinksValidation.ParseListQuery | api/src/links/links.validation.ts:59-63 | the query is rejected exactly when the page or the limit fails its coercion; a parsed query carries the coerced page (at least 1) and limit (1 to 100) and the search as given; with no page and no limit it is page 1, limit 20 |
| LinksValidation.ListQueryRejects | api/src/links/links.validation.ts:60-61 | a page of 0 or 1.5 or a limit of 101 rejects the query; a limit of 100 is taken |
| LinksRoutes.BaseUrl | api/src/links/links.routes.ts:13 | never empty; a non-empty `BASE_URL` is used as it is, otherwise the localhost default |
| LinksRoutes.IndexOfId | api/src/links/links.routes.ts:118 | a position found holds the id; none is found exactly when no row has it |
| LinksRoutes.IndexOfIdIsFirst | api/src/links/links.routes.ts:118 | the position found is the first row with that id |
| LinksRoutes.OwnedIndex | api/src/links/links.routes.ts:123 | a row found has the id and belongs to the caller; with unique ids, none is found only when every row with that id belongs to someone else |
| LinksRoutes.NewLink | api/src/links/links.routes.ts:39-46 | the inserted row has the generated id, the slug, the caller as owner, the parsed URL, the parsed date of a non-empty `expiresAt` and no expiry otherwise, and both timestamps set to now |
| LinksRoutes.Patched | api/src/links/links.routes.ts:157-168 | a patch replaces the destination only when one was given, keeps the expiry when it was absent, clears it on `null`, sets it from the date otherwise, and keeps id, slug, owner and creation time |
| LinksRoutes.Without | api/src/links/links.routes.ts:191 | deleting keeps every other row and keeps the keys unique |
| LinksRoutes.Filter | api/src/links/links.routes.ts:71-77 | exactly the caller's rows, and with a non-empty search those whose slug or destination contains it ignoring case |
| LinksRoutes.Ordered | api/src/links/links.routes.ts:80-82 | the matching rows, as a permutation, newest first |
| LinksRoutes.Page | api/src/links/links.routes.ts:69-84 | the page is the slice of the newest-first matches from position `(page - 1) * limit`, at most `limit` rows, all the caller's and matching, newest first |
| LinksRoutes.BodyOf | api/src/links/links.routes.ts:92-136 | a body shows the row, its short URL and its number of click events |
| LinksRoutes.Bodies | api/src/links/links.routes.ts:92-100 | one body per row of the page, in order |
| LinksRoutes.LinkTable.Create | api/src/links/links.routes.ts:20-55 | an invalid body gives 400 and changes nothing; a taken slug gives 409 and changes nothing; otherwise the alias, or the generated slug, is inserted as a new row and returned with 201 |
| LinksRoutes.LinkTable.List | api/src/links/links.routes.ts:58-111 | an invalid query gives 400; otherwise the data is the body (row, short URL, click count) of each row of the requested page in order, and the pagination echoes page and limit, counts every matching row and rounds the page count up |
| LinksRoutes.LinkTable.Get | api/src/links/links.routes.ts:114-137 | 404 "Link not found" unless the id exists and belongs to the caller; otherwise that row's body with its click count |
| LinksRoutes.LinkTable.Patch | api/src/links/links.routes.ts:140-179 | the body is validated before the lookup: 400 first, then 404 for a missing or foreign id; otherwise only that row is replaced by its patched form and returned |
| LinksRoutes.LinkTable.Delete | api/src/links/links.routes.ts:182-194 | 404 for a missing or foreign id and nothing changes; otherwise 204 and exactly the rows without that id remain |
| LinksRoutes.CreatedIsOwned | api/src/links/links.routes.ts:118-125 | a created row is found again by its id for its owner, and for nobody else |
| LinksRoutes.OtherUsersSeeNothing | api/src/links/links.routes.ts:123 | another user's row is never reachable by get, patch or delete |
| LinksRoutes.DeleteRemovesOne | api/src/links/links.routes.ts:186-191 | deleting an existing id removes exactly one row, the one with that id |
| LinksRoutes.NoIdLeft | api/src/links/links.routes.ts:191 | deleting an id no row has leaves the table unchanged |
| LinksRoutes.EveryMatchOnSomePage | api/src/links/links.routes.ts:69-108 | every matching row appears on some page from 1 to `totalPages` |
| LinksRouteNext.CheckPost | src/app/api/links/route.ts:14-54 | the first failing check decides: no API key gives 401; a body that is not JSON, a missing url and an invalid url give 400 with their messages; then an unreadable date, a date not after now, and an alias `validateAlias` refuses give 400 with their messages; the request passes exactly when every check holds, carrying the key, the normalized URL, the future expiry and the alias |
| LinksRouteNext.ExpiryNowRejected | src/app/api/links/route.ts:41-43 | an expiry equal to the current instant is already refused |
| LinksRouteNext.Candidate | src/app/api/links/route.ts:71 | each generated candidate has the slug length of `generateSlug` |
| LinksRouteNext.FirstFree | src/app/api/links/route.ts:70-77 | the loop settles on the first attempt whose candidate is free, every earlier one being taken; it finds none exactly when every candidate is taken |
| LinksRouteNext.NextLinkTable.GenerateFreeSlug | src/app/api/links/route.ts:68-83 | the slug is empty exactly when all five candidates are taken; otherwise it is the first free candidate |
| LinksRouteNext.NextLinkTable.Create | src/app/api/links/route.ts:46-110 | a taken alias gives 409 with the alias in the message; a free one is inserted as a custom alias; with no alias, five taken candidates give 500 and otherwise the first free candidate is inserted; the row carries the normalized URL, the expiry and the caller's key, and the reply its short URL |
| LinksRouteNext.NextLinkTable.Post | src/app/api/links/route.ts:13-111 | a rejected check is answered with its status and message and changes nothing; otherwise the table and the reply are `Create`'s |
| LinksRouteNext.RetriesAreBounded | src/app/api/links/route.ts:70-83 | when all five candidates are taken the request fails, however many other slugs are free |
| LinksRouteNext.GeneratedSlugsAreAliases | src/app/api/links/route.ts:71 | every generated slug also passes the alias rules |
| LinksRouteNext.NormalPage | src/app/api/links/route.ts:122 | a missing or empty page is 1; a given one is at least 1 and is `max(1, parseInt(page))`; an unparseable one stays NaN |
| LinksRouteNext.NormalLimit | src/app/api/links/route.ts:123 | a missing or empty limit is 20; a given one is clamped into 1..100, unchanged when already there; an unparseable one stays NaN |
| LinksRouteNext.ListDefaultsAndClamps | src/app/api/links/route.ts:122-123 | with no parameters the first twenty links are read; page and limit numbers are pulled into range rather than refused |
| LinksRouteNext.SortKey | src/app/api/links/route.ts:124 | `sort=clicks` orders by click count, anything else by creation time |
| LinksRouteNext.Filter | src/app/api/links/route.ts:127-137 | exactly the caller's links, and with a non-empty `q` those whose slug or destination contains it, case-sensitively |
| LinksRouteNext.Page | src/app/api/links/route.ts:139-145 | the page is the slice of the matches ordered by the sort key, largest first, from position `(page - 1) * limit`: at most `limit` of the caller's matching rows |
| LinksRouteNext.Ordered | src/app/api/links/route.ts:139-145 | `orderBy: { [sort]: 'desc' }`: a permutation of the matches, largest sort key first |
| LinksRouteNext.EveryMatchOnSomePage | src/app/api/links/route.ts:139-161 | every matching row appears on some page from 1 to `totalPages` |
| LinksRouteNext.NextLinkTable.List | src/app/api/links/route.ts:117-169 | no key gives 401; an unparseable page or limit gives a server error; otherwise a listing whose data is the page for the normalized page and limit, whose pagination echoes those two, and whose total counts every match with the page count rounded up |
| AnalyticsQueries.DefaultDateRange | api/src/analytics/analytics.queries.ts:30-34 | a given bound is parsed; a missing end is now; a missing start lies thirty days before the end |
| AnalyticsQueries.DefaultRangeIsLastThirtyDays | api/src/analytics/analytics.queries.ts:30-52 | with no bounds the window holds exactly the instants of the thirty days before now, now excluded |
| AnalyticsQueries.Selected | api/src/analytics/analytics.queries.ts:49-52 | exactly the rows of the link with `from <= clicked_at < to` |
| AnalyticsQueries.IpsBound | api/src/analytics/analytics.queries.ts:47-48 | there are never more distinct visitors than clicks, and at least one when there is a click |
| AnalyticsQueries.Column | api/src/analytics/analytics.queries.ts:68 | the grouped column holds one value per selected row, in order |
| AnalyticsQueries.Labels | api/src/analytics/analytics.queries.ts:63 | each group is shown as `COALESCE(value, fallback)` with its count |
| AnalyticsQueries.LabelsSum | api/src/analytics/analytics.queries.ts:63 | labelling the groups keeps the sum of their counts |
| AnalyticsQueries.RankedGroups | api/src/analytics/analytics.queries.ts:68-69 | the groups of the column as a permutation, ordered by count descending |
| AnalyticsQueries.RankedGroupsAreGroups | api/src/analytics/analytics.queries.ts:68 | each ranked group is a value of the column with exactly its number of rows, which is positive |
| AnalyticsQueries.Ranked | api/src/analytics/analytics.queries.ts:314-320 | one row per group, by count descending |
| AnalyticsQueries.Breakdown | api/src/analytics/analytics.queries.ts:61-83 | `min(limit, groups)` rows by count descending: the first groups of the ranked order, each labelled with its coalesced value |
| AnalyticsQueries.BreakdownRowsAreCounts | api/src/analytics/analytics.queries.ts:63-70 | every shown row is a value of the column (or the fallback for null) with the number of rows holding it |
| AnalyticsQueries.RankedPosition | api/src/analytics/analytics.queries.ts:68-69 | every value of the column has its group in the ranked order |
| AnalyticsQueries.BreakdownIsTop | api/src/analytics/analytics.queries.ts:69-70 | `ORDER BY count DESC LIMIT n` keeps the top groups: a value not shown has no more rows than any row shown, and then the result is full |
| AnalyticsQueries.CutBelow | api/src/analytics/analytics.queries.ts:69-70 | a group ranked past the cut means a full result whose rows all count at least as much |
| AnalyticsQueries.BreakdownSums | api/src/analytics/analytics.queries.ts:63-70 | when the limit covers every group, the counts add up to the number of rows |
| AnalyticsQueries.GetTopReferrers | api/src/analytics/analytics.queries.ts:257-279 | at most `limit` rows (default 10), by count descending |
| AnalyticsQueries.GetGeoBreakdown | api/src/analytics/analytics.queries.ts:281-303 | at most `limit` rows (default 20), by count descending |
| AnalyticsQueries.GetDeviceBreakdown | api/src/analytics/analytics.queries.ts:305-323 | every device group, by count descending |
| AnalyticsQueries.CountriesSumToTotal | api/src/analytics/analytics.queries.ts:289-300 | with a limit covering every country, the country counts add up to the clicks of the window |
| AnalyticsQueries.ReferrersSumToTotal | api/src/analytics/analytics.queries.ts:265-276 | with a limit covering every referrer, the referrer counts add up to the clicks of the window |
| AnalyticsQueries.DeviceStep | api/src/analytics/analytics.queries.ts:89-96 | a row whose lower-cased name is one of the four keys sets that counter to its count and leaves the other three; any other name adds its count to `unknown`; a name that is an inherited property of the object changes none of the four |
| AnalyticsQueries.BuildDeviceBreakdown | api/src/analytics/analytics.queries.ts:87-96 | the loop's object is the fold of `DeviceStep` over the rows from all zeros |
| AnalyticsQueries.DeviceFoldUntouched | api/src/analytics/analytics.queries.ts:88-96 | a counter whose key no row carries stays zero |
| AnalyticsQueries.DeviceBreakdownSums | api/src/analytics/analytics.queries.ts:87-96 | when every row has one of the four keys and no two rows share one, the four counters add up to the rows' counts |
| AnalyticsQueries.DeviceRowsOverwrite | api/src/analytics/analytics.queries.ts:90-92 | two rows with the same key (a null group and an "unknown" group) keep only the later count, so the counters can add up to less than the clicks |
| AnalyticsQueries.DeviceKeyIsLower | api/src/analytics/analytics.queries.ts:88-90 | the four keys are their own lower case |
| AnalyticsQueries.DeviceRowsDistinct | api/src/analytics/analytics.queries.ts:314-319 | when every device value is one of the four types, the device query's rows carry distinct keys among the four |
| AnalyticsQueries.DevicesSumToTotal | api/src/analytics/analytics.queries.ts:87-96 | when every clicked row carries a device type, the device breakdown adds up to the clicks of the window |
| AnalyticsQueries.GetClickSummary | api/src/analytics/analytics.queries.ts:36-107 | total clicks are the rows of the window; unique visitors their distinct IPs, between 1 and the total when there is a click; the referrer (10), country (20), browser (10) and OS (10) breakdowns and the device object are the queries above over the same window |
| AnalyticsQueries.ParseGranularity | api/src/analytics/analytics.queries.ts:117-121 | the granularity is an hour exactly for "hour" and a week exactly for "week"; anything else is a day |
| AnalyticsQueries.BucketKeys | api/src/analytics/analytics.queries.ts:128-153 | each row's bucket is `date_trunc` of its click time |
| AnalyticsQueries.InBucket | api/src/analytics/analytics.queries.ts:135-160 | exactly the rows whose click time truncates to the bucket |
| AnalyticsQueries.InBucketCount | api/src/analytics/analytics.queries.ts:129-135 | a bucket holds as many rows as its key occurs among the truncated times |
| AnalyticsQueries.Buckets | api/src/analytics/analytics.queries.ts:135-161 | the groups of the truncated times as a permutation, strictly ascending |
| AnalyticsQueries.SortedStrict | api/src/analytics/analytics.queries.ts:136-161 | ascending order with distinct buckets is strict |
| AnalyticsQueries.Points | api/src/analytics/analytics.queries.ts:172-177 | one point per bucket: its label, its row count and its distinct visitors |
| AnalyticsQueries.PointsSum | api/src/analytics/analytics.queries.ts:172-177 | the points' clicks add up to the buckets' counts |
| AnalyticsQueries.GetTimeSeries | api/src/analytics/analytics.queries.ts:109-179 | one point per bucket of the window at the parsed granularity |
| AnalyticsQueries.TimeSeriesSumsToTotal | api/src/analytics/analytics.queries.ts:124-163 | the series' clicks add up to the summary's total clicks |
| AnalyticsQueries.BucketCounts | api/src/analytics/analytics.queries.ts:129-135 | a bucket counts exactly its rows, and has at least one |
| AnalyticsQueries.TimeSeriesPointBounds | api/src/analytics/analytics.queries.ts:129-130 | every point has at least one click and between one and that many distinct visitors |
| AnalyticsQueries.BucketLabel | api/src/analytics/analytics.queries.ts:165-170 | for four-digit years an hour bucket's label has the `YYYY-MM-DDTHH:00` shape and any other the `YYYY-MM-DD` shape, and its digit groups read back as the bucket start's UTC year, month, day (and hour) |
| AnalyticsQueries.TimeSeriesLabels | api/src/analytics/analytics.queries.ts:165-170 | an hourly label has the `YYYY-MM-DDTHH:00` shape and a daily or weekly one the `YYYY-MM-DD` shape, for four-digit years |
| AnalyticsQueries.UserLinks | api/src/analytics/analytics.queries.ts:190 | exactly the user's links |
| AnalyticsQueries.UserClicks | api/src/analytics/analytics.queries.ts:194-203 | exactly the clicks of the window on a link of the user |
| AnalyticsQueries.LinkCounts | api/src/analytics/analytics.queries.ts:210-216 | each of the user's links with its clicks in the window, zero when it has none (`LEFT JOIN`) |
| AnalyticsQueries.MostClicked | api/src/analytics/analytics.queries.ts:206-249 | a most clicked link is one of the user's links with a positive count that no other link of the user exceeds; there is none exactly when no link of the user has a click in the window |
| AnalyticsQueries.TopLink | api/src/analytics/analytics.queries.ts:217-218 | the first row of the descending order is a link whose count is its clicks and that no link exceeds |
| AnalyticsQueries.TopIsMax | api/src/analytics/analytics.queries.ts:217-218 | no link has more clicks than the first row of the descending order |
| AnalyticsQueries.Days | api/src/analytics/analytics.queries.ts:250-253 | one entry per day bucket with its label and count |
| AnalyticsQueries.DaysSum | api/src/analytics/analytics.queries.ts:250-253 | the daily entries add up to the buckets' counts |
| AnalyticsQueries.GetOverview | api/src/analytics/analytics.queries.ts:181-255 | total links count all the user's links whatever the window; total clicks the clicks of the window on them; the most clicked link as above; `clicksPerDay` is the day buckets of those clicks, each as its date label and its count |
| AnalyticsQueries.OverviewDayEntries | api/src/analytics/analytics.queries.ts:218-236 | each `clicksPerDay` entry is a distinct day in ascending order, dated by its `YYYY-MM-DD` label, counting the user's clicks of the window on that day, at least one |
| AnalyticsQueries.OverviewDaysSumToTotal | api/src/analytics/analytics.queries.ts:194-236 | the daily clicks add up to the total clicks |
| AnalyticsQueries.MostClickedIffClicks | api/src/analytics/analytics.queries.ts:241-249 | there is a most clicked link exactly when the user has a click in the window |
| Toast.KindOrDefault | src/lib/toast.ts:21 | a missing `type` is "info"; a given one is kept |
| Toast.Without | src/lib/toast.ts:26 | exactly the toasts with another id remain, and the list does not grow |
| Toast.WithoutKeepsOrder | src/lib/toast.ts:26 | filtering keeps the ids increasing and does not lower the first id |
| Toast.WithoutRemovesOne | src/lib/toast.ts:22-26 | with increasing ids, filtering an id that is present removes exactly one toast; an id that is absent leaves the list as it is |
| Toast.ExpireUndoesAdd | src/lib/toast.ts:21-28 | adding a toast with a fresh, largest id and then firing its timer gives back the earlier list |
| Toast.Deliveries | src/lib/toast.ts:17-19 | each listener, in the order it subscribed, receives the same copy of the list |
| Toast.Removed | src/lib/toast.ts:33 | `Set.delete` removes exactly that element and keeps the set duplicate-free |
| Toast.ToastStore.AddToast | src/lib/toast.ts:21-29 | the counter's value is the new id and the counter moves on; the toast goes at the end with the default type applied; every listener is told the new list; its timer is pending; ids stay increasing and below the counter |
| Toast.ToastStore.Expire | src/lib/toast.ts:25-28 | when a toast's timer fires, only the toasts with that id go, the timer is gone, every listener is told, and the store stays valid |
| Toast.ToastStore.Subscribe | src/lib/toast.ts:31-32 | a new listener is added at the end; one already present stays where it is; nothing else changes |
| Toast.ToastStore.Unsubscribe | src/lib/toast.ts:33 | the listener is removed, and the result is true exactly when it was subscribed; nothing else changes |
| Toast.ToastStore.GetToasts | src/lib/toast.ts:36-38 | the current list, oldest first, with ids increasing and below the counter |
| Utils.Truncate | src/lib/utils.ts:11-14 | a string within `maxLen` is returned as it is; a longer one keeps its first `maxLen` characters (`slice` counting a negative length from the end) and ends in one '…' |
| Utils.TruncateIdempotent | src/lib/utils.ts:11-14 | truncating twice with the same length is truncating once |
| Utils.FloorChain | src/lib/utils.ts:41-44 | flooring seconds, minutes, hours and days one after another is flooring once by the longer unit |
| Utils.FormatRelative | src/lib/utils.ts:37-51 | more than 30 whole days ago gives the formatted date; otherwise the largest whole unit above zero as "Nd ago", "Nh ago" or "Nm ago"; under a minute, in the future, or an invalid date gives "just now" |
| Utils.FutureIsJustNow | src/lib/utils.ts:40-50 | a date in the future reads "just now" |
| Utils.MaskApiKey | src/lib/utils.ts:56-59 | a key of at most four characters is four bullets; a longer one is eight bullets and its last four characters |
| Utils.MaskRevealsOnlyLastFour | src/lib/utils.ts:56-59 | two long keys get the same mask exactly when their last four characters agree; all short keys get the same mask |
| Utils.Lookup | src/lib/utils.ts:85 | a value found belongs to a property of the row with that name; a name the row lacks is undefined |
| Utils.Cell | src/lib/utils.ts:85-86 | an undefined value is empty; a value with a comma is wrapped in double quotes, with nothing escaped; any other is kept |
| Utils.Csv | src/lib/utils.ts:78-89 | no rows, no file; otherwise the first row's keys joined by commas, then one line per row of its cells in header order, joined by line breaks |
| Utils.CountCharAppend | src/lib/utils.ts:82-89 | counting a character over a concatenation adds the counts |
| Utils.JoinCount | src/lib/utils.ts:82-89 | joining n parts free of the separator gives n - 1 separators |
| Utils.FieldsPerLine | src/lib/utils.ts:84-87 | with no comma in any value, each data line has one field per header |
| Utils.LinesPerRow | src/lib/utils.ts:81-89 | with no line break in any key or value, the text has one line per row after the header |
| Utils.NoBreakInCell | src/lib/utils.ts:86 | quoting adds no line break |
| Utils.NoBreakInJoin | src/lib/utils.ts:87 | joining with commas adds no line break |
| Utils.LineBreakSplitsRow | src/lib/utils.ts:85-89 | a value with a line break is written as it is, so its row spans two lines |
| Utils.CountryFlag | src/lib/utils.ts:103-109 | a code not of length 2 gives the globe; two characters give two code points, each the regional indicator offset of its upper-cased character |
| Utils.FlagOfLetters | src/lib/utils.ts:103-109 | two ASCII letters give two regional indicator symbols, and two codes give the same flag exactly when they are the same letters up to case |
| Utils.FlagIgnoresCase | src/lib/utils.ts:105 | the flag does not depend on the case of the code |
| WebUtils.Truncate | web/src/lib/utils.ts:6-9 | a string within `maxLen` (default 50) is kept; a longer one keeps its first `maxLen` characters followed by the three characters the source writes; a negative `maxLen` keeps all but the last `-maxLen` characters before that suffix, as `slice` does |
| WebUtils.WrittenSuffixIsNotAnEllipsis | web/src/lib/utils.ts:8 | the written suffix is three characters, none of them '…': "abcdef" cut to 3 becomes six characters |
| WebUtils.TruncateIntended | web/src/lib/utils.ts:3-9 | the intended truncation: the first `maxLen` characters and one '…'; a negative `maxLen` keeps all but the last `-maxLen` characters before it |
| WebUtils.TruncateIntendedBounds | web/src/lib/utils.ts:3-9 | the intended truncation is at most `maxLen + 1` long, keeps the first `maxLen` characters, and cutting twice is cutting once |
| Sorting.SortBy | api/src/analytics/analytics.queries.ts:136-161 | `ORDER BY key ASC`: sorted, and a permutation of its input |
| Sorting.SortDesc | api/src/analytics/analytics.queries.ts:69 | `ORDER BY key DESC`: descending, and a permutation of its input |
| Sorting.Take | api/src/analytics/analytics.queries.ts:70 | `LIMIT n`: the first min(n, length) rows of the input |
| Sorting.SumBySortDesc | api/src/analytics/analytics.queries.ts:69 | reordering keeps a sum |
| Sorting.GroupBy | api/src/analytics/analytics.queries.ts:68 | `GROUP BY` yields each key at most once |
| Sorting.GroupByCounts | api/src/analytics/analytics.queries.ts:63-68 | each group counts exactly the rows carrying its key |
| Sorting.GroupByCovers | api/src/analytics/analytics.queries.ts:68 | every key of the input has a group, and every group is non-empty |
| Sorting.GroupBySum | api/src/analytics/analytics.queries.ts:63-68 | the group counts add up to the number of rows |
| Sorting.Paginate | api/src/links/links.routes.ts:69-84 | `skip (page - 1) * limit, take limit`: exactly the rows from the skip up to the skip plus `limit`, cut at the end |
| Sorting.PaginateDesc | api/src/links/links.routes.ts:82-84 | a page of a descending list is descending |
| Sorting.PageOfPosition | api/src/links/links.routes.ts:69-108 | position k lies on page `k / limit + 1`, which is at most `ceil(n / limit)` |
| Sorting.PositionOnPage | api/src/links/links.routes.ts:69-84 | the row at position k is on page `k / limit + 1` |
| Calendar.Civil | api/src/analytics/analytics.queries.ts:167 | the UTC calendar fields of a timestamp are well formed (month 1..12, day within the month, and so on), and counting their days from 1970-01-01 plus the time of day gives the timestamp back |
| Calendar.CivilOfEpoch | api/src/analytics/analytics.queries.ts:167 | the epoch is 1970-01-01 at midnight |
| Calendar.CivilOfTimestamp | api/src/analytics/analytics.queries.ts:167 | the fields are unique: a well-formed date is the one `Civil` finds for its own timestamp |
| Calendar.Pad | api/src/analytics/analytics.queries.ts:167-169 | zero-padded decimal: all digits, exactly `width` long when the number fits |
| Calendar.IsoString | api/src/analytics/analytics.queries.ts:167 | `toISOString()` is at least 24 characters long; its layout is stated by Calendar.IsoStringFields |
| Calendar.IsoStringFields | api/src/analytics/analytics.queries.ts:167 | for four-digit years `toISOString()` is 24 characters `YYYY-MM-DDTHH:mm:ss.sssZ` whose digit groups read back as the UTC year, month, day, hour, minute, second and millisecond |
| Calendar.LabelFields | api/src/analytics/analytics.queries.ts:165-170 | for four-digit years the date digits of both labels and the hour digits of the hour label read back as the UTC year, month, day and hour |
| Calendar.LabelShapes | api/src/analytics/analytics.queries.ts:165-170 | for four-digit years the day label is `YYYY-MM-DD` and the hour label `YYYY-MM-DDTHH:00` |
| Calendar.TruncHour | api/src/analytics/analytics.queries.ts:128 | the start of the hour holding the instant |
| Calendar.TruncDay | api/src/analytics/analytics.queries.ts:153 | the start of the UTC day holding the instant |
| Calendar.TruncWeek | api/src/analytics/analytics.queries.ts:141 | midnight of the Monday on or before the instant |
| Calendar.Trunc | api/src/analytics/analytics.queries.ts:125-162 | a bucket never starts after its instant |
| Calendar.TruncMonotone | api/src/analytics/analytics.queries.ts:135-136 | a later instant never falls in an earlier bucket |
| Calendar.TruncIdempotent | api/src/analytics/analytics.queries.ts:128-153 | truncating a bucket start gives the bucket itself |
| Common.Trim | src/lib/analytics.ts:20-24 | `trim()` is the infix of the input after the leading whitespace, with only whitespace after it, and starts and ends with a non-whitespace character |
| Common.TrimEmptyIffAllWhitespace | src/lib/analytics.ts:20-24 | a trimmed string is empty exactly when it was all whitespace |
| Common.TrimIdempotent | src/lib/analytics.ts:20-24 | trimming twice is trimming once |
| Common.BeforeFirst | src/lib/analytics.ts:20 | `split(sep)[0]`: the longest prefix without the separator, followed by it when shorter |
| Common.BeforeFirstOfPrefix | src/lib/analytics.ts:20 | `split(sep)[0]` of a separator-free text, alone or followed by the separator and more, is that text |
| Common.OrNull | src/lib/analytics.ts:68-69 | the `or null` fallback keeps a value exactly when it is a non-empty string |
| Common.ShortUrl | api/src/links/links.routes.ts:51 | the short URL is the base URL, one '/', and the slug, and nothing else; the web client's `shortUrl` builds the same text from the page origin |
| Common.ShortUrlInjective | web/src/lib/utils.ts:35-37 | for one base URL, distinct slugs give distinct short URLs |
| Common.ToLower | api/src/links/links.validation.ts:10 | `toLowerCase()` character by character on ASCII letters |
| Common.SliceTo | src/lib/utils.ts:13 | `slice(0, end)`, a negative end counting from the back |
| Common.IntToString | src/lib/rate-limit.ts:73-75 | `toString()` of an integer: its decimal digits, with a '-' when negative |
| Common.DigitsValueOfNatToString | src/lib/rate-limit.ts:73-75 | reading back the decimal digits of a number gives the number |
| Common.CeilDiv | src/lib/rate-limit.ts:83 | `Math.ceil(a / b)`: the least r with `a <= r * b` |

## Left out

- Concurrency and timing. `Promise.all`, the detached recorder closures and the cache writes run one after another here. Each database or Redis round trip is atomic, with its success given as a boolean. The races between a uniqueness check and its insert are not modelled.
- Clock and parsing. The analytics queries take one window that every statement shares, and `new Date(s)` is a parameter (`parseDate`). An unreadable date string is not modelled inside the Fastify analytics.
- AnalyticsQueries.DevicesSumToTotal: the device counters add up to the clicks only when no two device rows share a lower-case key. This is because the loop assigns rather than adds; `DeviceRowsOverwrite` shows the counterexample.
- SQL ties. `ORDER BY count DESC` and `ORDER BY createdAt DESC` leave the order of equal keys open. The model picks one stable order, and its contracts state only the descending order and the permutation.
- AnalyticsQueries.GetOverview: the `JOIN links` is taken on unique link ids. The model does not say which of several equally clicked links is the most clicked one.
- GetTopReferrers, GetGeoBreakdown and GetDeviceBreakdown state only the order and the limit. What the rows are is stated by the `Breakdown` lemmas, which these functions are built from.
- `GetTimeSeries` states only its length. Its sums, bounds and labels are stated by the `TimeSeries…` lemmas.
- Case conversion. `toLowerCase` and `toUpperCase` are modelled on ASCII letters only. Prisma's `mode: 'insensitive'` is modelled as ASCII lower-casing of both sides.
- Common.ToLower states only the ASCII mapping; other characters are left unchanged.
- Text is a sequence of Unicode scalar values, while JavaScript's `length`, `slice` and `charCodeAt` count UTF-16 code units. The two agree on the Basic Multilingual Plane. A character above it, such as an emoji, is one character here and two code units in the source. Each member below is therefore stated for scalar values.
- Utils.Truncate counts length and cuts in characters, not UTF-16 code units. `truncate("😀😀", 3)` is cut by the source and kept as it is by the model.
- WebUtils.Truncate counts length and cuts in characters, not UTF-16 code units. It also differs from the source on text beyond the Basic Multilingual Plane.
- Utils.MaskApiKey takes `length` and `slice(-4)` in characters, not UTF-16 code units. A key with characters beyond the Basic Multilingual Plane is masked differently.
- LinksValidation.AliasIssues checks `min(3)` and `max(32)` in characters, not UTF-16 code units. For "😀a" the source reports no length issue, while the model reports fewer than three characters. The character rule refuses that alias in both.
- Utils.CountryFlag tests length 2 in characters, not UTF-16 code units. For `countryFlag("😀")` the source sees two code units and returns one code point, built from the high surrogate. The model sees one character and returns the globe. The result is given as code points, not as a string, and upper-casing outside ASCII is not modelled.
- Calendar.IsoString: its own contract states only the length. The full layout, read back field by field, is stated by `IsoStringFields` for four-digit years only; six-digit years are not read back.
- Locale and DOM output. `formatDate`, `formatNumber` (Intl), the web `relativeTime` and `fullDate` (date-fns) and `cn` are outside the model. `formatDate`'s text is a parameter of `FormatRelative`. The Blob, anchor and download steps of `downloadCSV` are left out as well.
- `debounce` is out: it is timers only.
- CacheHooksLib.OnLinkUpdated passes the link id as the ttl, as written at src/lib/cache-hooks.ts:32. Only the creation hook has a corrected form in the model.
- Toast.ToastStore.AddToast returns the new id, which the source does not. This lets the model name the pending timer. `setTimeout` is modelled as `Expire`, the timer firing at some later point. Listener functions are named by numeric ids.
- The `config.matcher` of the middleware is Next.js routing configuration and is not modelled. Only the function body is.
- LinksRouteNext.NextLinkTable.List answers a server error for a non-numeric page or limit. This is where `NaN` reaches Prisma; what Prisma then does is not modelled.
- Database and Redis failures inside the link handlers are not modelled. Only the cache, rate-limit and recorder code handles failures, and there they are parameters.
- Zod is modelled with the semantics of version 3: string checks report each failing rule and refinements still run. `z.coerce.number` is a parameter. zod's `fieldErrors` details are not modelled, only the status and the error message.
- Cache.TextToNumber: `Number(text)` is modelled for digit strings, the empty string and texts with a '-' (UUIDs). Other strings, such as ones with spaces or exponents, read as NaN here.
- RateLimit.Check assumes an exported Redis client with the Upstash-style calls the code makes: `zadd(key, { score, member })` and plain values in `results[2]`. src/lib/redis.ts builds an ioredis client, whose `exec` returns `[error, value]` pairs; that client API is not modelled.
- AnalyticsQueries.DeviceStep: for a device type "constructor" the source's `key in deviceBreakdown` holds through the prototype, and the assignment adds an own `constructor` field that is sent with the response. The model keeps the four counters unchanged and does not model that extra field.
- Geo.ParseIntPrefix states one direction only: a parsed value is a signed run of leading digits. That the run is the longest is not stated.
- AuthMiddleware.RequireAuth: a token that verifies but decodes without `userId` is modelled as a verify failure.
- Request bodies that are not strings where strings are expected are not modelled, except for the `null` expiry of an update. Numbers or objects in a JSON body are among them.
- `updatedAt` is set to the request time by the database; the model takes it as `now`.
- The model does not track rate-limit entries expiring by the key's `EXPIRE` over time, only the TTL that is set.
- `src/app/api/r/[slug]/route.ts`, the cache-backed redirect handler, is not part of this model.
- The React pages and contexts, the HTTP client wrappers, the auth routes, the analytics routes, bootstrap and configuration are not part of this model.

## Findings

| source | as written | input that shows it | evidently intended | confidence | as-written member | corrected member |
|---|---|---|---|---|---|---|
| src/lib/cache-hooks.ts:18 | `onLinkCreated` calls `cacheLink(slug, destinationUrl, linkId)`, so the link id lands in the `ttl` parameter | `linkId = "3f2a-…"` (a UUID): `ttl > 0` is false and the entry never expires; `linkId = "7"` expires it after 7 seconds | cache the URL with the default one-hour ttl | high; not executed | CacheHooksLib.LinkIdOnlyAffectsExpiry, CacheHooksLib.CreatedThenReadable | CacheHooksLib.OnLinkCreatedIntended, CacheHooksLib.IntendedExpiresAfterOneHour |
| src/lib/rate-limit.ts:2 | `import { redis } from './redis'`, a name src/lib/redis.ts does not export (it exports `getRedis`) | any check: `redis.multi()` throws, the catch allows; a window already holding `limit` requests still allows the next one | prune, add, count and deny over the limit, with a client from `getRedis()` | high; not executed | RateLimit.CheckAsWritten, RateLimit.AsWrittenNeverLimits | RateLimit.Check, RateLimit.CheckAgainstWindow |
| web/src/lib/utils.ts:8 | the suffix is the three characters `â€¦`, the UTF-8 bytes of '…' read as Windows-1252 | `truncate("abcdef", 3)` gives "abc" and three stray characters, six in all | "abc…", the first `maxLen` characters and one ellipsis | high; not executed | WebUtils.WrittenSuffixIsNotAnEllipsis, WebUtils.Truncate | WebUtils.TruncateIntended, WebUtils.TruncateIntendedBounds |
