/** The sliding-window rate limiter (src/lib/rate-limit.ts). Each `(keyId, action)` has a
    Redis sorted set of request members scored by their timestamp. A check prunes the members
    that left the window, adds the current request, counts, and takes the request back out
    when it is over the limit. `Check` takes an exported Redis client whose pipeline results
    are plain values (`results[2]` is the count). The code as written imports a `redis` that
    src/lib/redis.ts does not export, so its pipeline always throws: `CheckAsWritten`. The
    clock and the random member suffix are parameters, and so is the outcome of each Redis
    round trip: the MULTI pipeline and the later ZREM. */
module RateLimit {
  import opened Common

  /** The sorted-set key `rl:{keyId}:{action}`. */
  function RateKey(keyId: string, action: string): (k: string)
    ensures |k| == |keyId| + |action| + 4 && k[..3] == "rl:"
    ensures k[3..3 + |keyId|] == keyId && k[3 + |keyId|] == ':' && k[|keyId| + 4..] == action
  {
    "rl:" + keyId + ":" + action
  }

  /** Key ids without ':' never share a sorted set: each `(keyId, action)` pair has its own key. */
  lemma RateKeyInjective(keyId1: string, action1: string, keyId2: string, action2: string)
    requires !ContainsChar(keyId1, ':') && !ContainsChar(keyId2, ':')
    requires RateKey(keyId1, action1) == RateKey(keyId2, action2)
    ensures keyId1 == keyId2 && action1 == action2
  {
  }

  /** `ZREMRANGEBYSCORE key 0 windowStart`: drops members scored from 0 to `windowStart`
      inclusive. */
  function Prune(members: map<string, int>, windowStart: int): (r: map<string, int>)
    ensures forall m :: m in r <==> m in members && !(0 <= members[m] <= windowStart)
    ensures forall m :: m in r ==> r[m] == members[m]
  {
    map m | m in members && !(0 <= members[m] <= windowStart) :: members[m]
  }

  /** Members of a key; a missing key is the empty set. */
  function Members(sets: map<string, map<string, int>>, key: string): map<string, int>
  {
    if key in sets then sets[key] else map[]
  }

  /** Stores a sorted set; Redis removes a key whose set becomes empty. */
  function Store(sets: map<string, map<string, int>>, key: string, members: map<string, int>)
    : (r: map<string, map<string, int>>)
    ensures Members(r, key) == members
    ensures forall k :: k != key ==> Members(r, k) == Members(sets, k) && (k in r <==> k in sets)
  {
    if members == map[] then sets - {key} else sets[key := members]
  }

  /** A second write of the same key replaces the first. */
  lemma StoreTwice(sets: map<string, map<string, int>>, key: string, a: map<string, int>, b: map<string, int>)
    ensures Store(Store(sets, key, a), key, b) == Store(sets, key, b)
  {
    var l, r := Store(Store(sets, key, a), key, b), Store(sets, key, b);
    assert l.Keys == r.Keys;
    assert forall k | k in l :: l[k] == r[k];
  }

  datatype RateLimitResult = RateLimitResult(allowed: bool, remaining: int, resetAt: int)

  /** `allowed` and `remaining` for a count that includes the current request. */
  function Verdict(count: int, limit: int, resetAt: int): (r: RateLimitResult)
    ensures r.allowed <==> count <= limit
    ensures r.remaining == Max(0, limit - count)
    ensures r.resetAt == resetAt
  {
    RateLimitResult(count <= limit, Max(0, limit - count), resetAt)
  }

  /** The member of the current request: `${now}:${random}`. */
  function Member(now: int, random: string): string
  {
    IntToString(now) + ":" + random
  }

  /** The state of one key after the MULTI pipeline: pruned, then the request added. */
  function Added(members: map<string, int>, windowMs: int, now: int, random: string): (r: map<string, int>)
    ensures Member(now, random) in r && r[Member(now, random)] == now
    ensures forall m :: m != Member(now, random) ==> (m in r <==> m in Prune(members, now - windowMs))
  {
    Prune(members, now - windowMs)[Member(now, random) := now]
  }

  /** What `checkRateLimit` answers and the sorted sets it leaves, given the outcome of the
      pipeline and of the ZREM. */
  function Check(sets: map<string, map<string, int>>, key: string, limit: int, windowMs: int,
                 now: int, random: string, pipelineOk: bool, zremOk: bool)
    : (r: (RateLimitResult, map<string, map<string, int>>))
    ensures r.0.resetAt == now + windowMs
    ensures !pipelineOk ==> r == (RateLimitResult(true, limit, now + windowMs), sets)
    ensures pipelineOk && (zremOk || |Added(Members(sets, key), windowMs, now, random)| <= limit) ==>
      r.0 == Verdict(|Added(Members(sets, key), windowMs, now, random)|, limit, now + windowMs)
    ensures r.0.allowed ==> r.1 == (if pipelineOk then Store(sets, key, Added(Members(sets, key), windowMs, now, random)) else sets)
    ensures !r.0.allowed ==>
      r.1 == Store(sets, key, Added(Members(sets, key), windowMs, now, random) - {Member(now, random)})
  {
    if !pipelineOk then (RateLimitResult(true, limit, now + windowMs), sets)
    else
      var added := Added(Members(sets, key), windowMs, now, random);
      var count := |added|;
      if count <= limit then (Verdict(count, limit, now + windowMs), Store(sets, key, added))
      else if zremOk then (Verdict(count, limit, now + windowMs), Store(sets, key, added - {Member(now, random)}))
      else (RateLimitResult(true, limit, now + windowMs), Store(sets, key, added))
  }

  class RateLimitStore {
    var sets: map<string, map<string, int>>
    var keyTtl: map<string, int>

    constructor()
      ensures sets == map[] && keyTtl == map[]
    {
      sets := map[];
      keyTtl := map[];
    }

    /** `checkRateLimit(keyId, action, limit, windowMs)` (src/lib/rate-limit.ts:17-63). A
        failed pipeline applies nothing; a failed ZREM leaves the member in place. Both fail
        open. The key's EXPIRE, in whole seconds, is recorded in `keyTtl`. */
    method CheckRateLimit(keyId: string, action: string, limit: int, windowMs: int,
                          now: int, random: string, pipelineOk: bool, zremOk: bool)
      returns (r: RateLimitResult)
      modifies this
      ensures (r, sets) == Check(old(sets), RateKey(keyId, action), limit, windowMs, now, random, pipelineOk, zremOk)
      ensures keyTtl == if pipelineOk then old(keyTtl)[RateKey(keyId, action) := CeilDiv(windowMs, 1000)] else old(keyTtl)
    {
      var key := RateKey(keyId, action);
      var windowStart := now - windowMs;
      var resetAt := now + windowMs;
      if !pipelineOk {
        return RateLimitResult(true, limit, resetAt);
      }
      var member := Member(now, random);
      var pruned := Prune(Members(sets, key), windowStart);
      var added := pruned[member := now];
      assert added == Added(Members(old(sets), key), windowMs, now, random);
      ghost var expected := Check(old(sets), key, limit, windowMs, now, random, pipelineOk, zremOk);
      sets := Store(sets, key, added);
      keyTtl := keyTtl[key := CeilDiv(windowMs, 1000)];
      var count := |added|;
      var allowed := count <= limit;
      var remaining := Max(0, limit - count);
      if !allowed {
        if !zremOk {
          assert expected == (RateLimitResult(true, limit, resetAt), sets);
          return RateLimitResult(true, limit, resetAt);
        }
        StoreTwice(old(sets), key, added, added - {member});
        sets := Store(sets, key, added - {member});
      }
      r := RateLimitResult(allowed, remaining, resetAt);
      assert expected == (r, sets);
    }
  }

  /** For a fresh member the count is the surviving entries plus one, so the request is allowed
      exactly when that is at most the limit. */
  lemma CountIncludesRequest(members: map<string, int>, windowStart: int, member: string, now: int, limit: int)
    requires member !in Prune(members, windowStart)
    ensures |Prune(members, windowStart)[member := now]| == |Prune(members, windowStart)| + 1
    ensures Verdict(|Prune(members, windowStart)[member := now]|, limit, 0).allowed <==>
      |Prune(members, windowStart)| + 1 <= limit
  {
  }

  /** A denied request whose ZREM succeeds leaves exactly the pruned set. */
  lemma DeniedLeavesPruned(members: map<string, int>, windowStart: int, member: string, now: int)
    requires member !in Prune(members, windowStart)
    ensures Prune(members, windowStart)[member := now] - {member} == Prune(members, windowStart)
  {
  }

  /** With both round trips succeeding and a fresh member, a check counts the requests still
      inside the window plus this one: it is allowed exactly when that fits the limit, and a
      denied request leaves the set as pruned, as if it had never been made. */
  lemma CheckAgainstWindow(sets: map<string, map<string, int>>, key: string, limit: int, windowMs: int,
                           now: int, random: string)
    requires Member(now, random) !in Prune(Members(sets, key), now - windowMs)
    ensures var inWindow := Prune(Members(sets, key), now - windowMs);
      var r := Check(sets, key, limit, windowMs, now, random, true, true);
      (r.0.allowed <==> |inWindow| + 1 <= limit)
      && r.0.remaining == Max(0, limit - |inWindow| - 1)
      && Members(r.1, key) == (if r.0.allowed then inWindow[Member(now, random) := now] else inWindow)
      && (forall k :: k != key ==> Members(r.1, k) == Members(sets, k))
  {
    var inWindow := Prune(Members(sets, key), now - windowMs);
    CountIncludesRequest(Members(sets, key), now - windowMs, Member(now, random), now, limit);
    DeniedLeavesPruned(Members(sets, key), now - windowMs, Member(now, random), now);
  }

  /** Any Redis failure fails open: the request is allowed with the full limit remaining. */
  lemma FailOpen(sets: map<string, map<string, int>>, key: string, limit: int, windowMs: int,
                 now: int, random: string, pipelineOk: bool, zremOk: bool)
    requires !pipelineOk || (!zremOk && |Added(Members(sets, key), windowMs, now, random)| > limit)
    ensures Check(sets, key, limit, windowMs, now, random, pipelineOk, zremOk).0 == RateLimitResult(true, limit, now + windowMs)
  {
  }

  /** `checkRateLimit` as written: `redis` is not exported by src/lib/redis.ts, so
      `redis.multi()` throws and the catch allows the request. No request is ever limited and
      no sorted set changes. */
  function CheckAsWritten(sets: map<string, map<string, int>>, key: string, limit: int, windowMs: int,
                          now: int, random: string): (r: (RateLimitResult, map<string, map<string, int>>))
    ensures r == (RateLimitResult(true, limit, now + windowMs), sets)
  {
    Check(sets, key, limit, windowMs, now, random, false, false)
  }

  /** A window that is already full: the check as written still allows the request with the
      full limit remaining, where the intended check denies it. */
  lemma AsWrittenNeverLimits(sets: map<string, map<string, int>>, key: string, limit: int, windowMs: int,
                             now: int, random: string)
    requires Member(now, random) !in Prune(Members(sets, key), now - windowMs)
    requires |Prune(Members(sets, key), now - windowMs)| >= limit
    ensures CheckAsWritten(sets, key, limit, windowMs, now, random).0.allowed
    ensures CheckAsWritten(sets, key, limit, windowMs, now, random).0.remaining == limit
    ensures !Check(sets, key, limit, windowMs, now, random, true, true).0.allowed
  {
    CheckAgainstWindow(sets, key, limit, windowMs, now, random);
  }

  /** `remaining` stays between 0 and the limit. */
  lemma RemainingBounds(count: int, limit: int, resetAt: int)
    requires count >= 1 && limit >= 0
    ensures 0 <= Verdict(count, limit, resetAt).remaining <= limit
    ensures Verdict(count, limit, resetAt).allowed ==> Verdict(count, limit, resetAt).remaining == limit - count
  {
  }

  /** An entry scored exactly at the window start is out of the window. */
  lemma WindowStartIsExcluded(members: map<string, int>, m: string, windowStart: int)
    requires m in members && members[m] == windowStart && windowStart >= 0
    ensures m !in Prune(members, windowStart)
  {
  }

  /** The body of the 429 response. */
  datatype TooManyBody = TooManyBody(error: string, message: string, retryAfter: int)

  /** The response the helpers write into. */
  class Response {
    var status: int
    var headers: map<string, string>
    var body: Option<TooManyBody>

    constructor(status: int)
      ensures this.status == status && headers == map[] && body == None
    {
      this.status := status;
      headers := map[];
      body := None;
    }
  }

  /** The three headers `applyRateLimitHeaders` sets, as a function of the input map. */
  function WithRateLimitHeaders(headers: map<string, string>, limit: int, result: RateLimitResult): (h: map<string, string>)
    ensures h.Keys == headers.Keys + {"X-RateLimit-Limit", "X-RateLimit-Remaining", "X-RateLimit-Reset"}
    ensures h["X-RateLimit-Limit"] == IntToString(limit)
    ensures h["X-RateLimit-Remaining"] == IntToString(result.remaining)
    ensures h["X-RateLimit-Reset"] == IntToString(CeilDiv(result.resetAt, 1000))
    ensures forall k :: k in headers && k !in {"X-RateLimit-Limit", "X-RateLimit-Remaining", "X-RateLimit-Reset"} ==>
      h[k] == headers[k]
  {
    headers["X-RateLimit-Limit" := IntToString(limit)]
           ["X-RateLimit-Remaining" := IntToString(result.remaining)]
           ["X-RateLimit-Reset" := IntToString(CeilDiv(result.resetAt, 1000))]
  }

  /** `applyRateLimitHeaders(response, limit, result)` (src/lib/rate-limit.ts:68-77). */
  method ApplyRateLimitHeaders(response: Response, limit: int, result: RateLimitResult)
    modifies response
    ensures response.headers == WithRateLimitHeaders(old(response.headers), limit, result)
    ensures response.status == old(response.status) && response.body == old(response.body)
  {
    response.headers := response.headers["X-RateLimit-Limit" := IntToString(limit)];
    response.headers := response.headers["X-RateLimit-Remaining" := IntToString(result.remaining)];
    response.headers := response.headers["X-RateLimit-Reset" := IntToString(CeilDiv(result.resetAt, 1000))];
  }

  /** Seconds until the window resets, rounded up. */
  function RetryAfter(resetAt: int, now: int): (s: int)
    ensures (s - 1) * 1000 < resetAt - now <= s * 1000
  {
    CeilDiv(resetAt - now, 1000)
  }

  /** `rateLimitedResponse(limit, result)` (src/lib/rate-limit.ts:82-96) at time `now`: a 429
      (section 4 of RFC 6585) whose body and `Retry-After` carry the same number of seconds. */
  method RateLimitedResponse(limit: int, result: RateLimitResult, now: int) returns (response: Response)
    ensures fresh(response) && response.status == 429
    ensures response.body == Some(TooManyBody("Too Many Requests",
      "Rate limit exceeded. Try again in " + IntToString(RetryAfter(result.resetAt, now)) + " seconds.",
      RetryAfter(result.resetAt, now)))
    ensures response.headers ==
      WithRateLimitHeaders(map["Retry-After" := IntToString(RetryAfter(result.resetAt, now))], limit, result)
  {
    var retryAfterSeconds := CeilDiv(result.resetAt - now, 1000);
    response := new Response(429);
    response.body := Some(TooManyBody("Too Many Requests",
      "Rate limit exceeded. Try again in " + IntToString(retryAfterSeconds) + " seconds.", retryAfterSeconds));
    response.headers := response.headers["Retry-After" := IntToString(retryAfterSeconds)];
    ApplyRateLimitHeaders(response, limit, result);
  }

  /** Built in the same millisecond as the check, the 429 asks the client to wait the window
      rounded up to whole seconds. */
  lemma RetryAfterIsWindow(now: int, windowMs: int)
    ensures RetryAfter(now + windowMs, now) == CeilDiv(windowMs, 1000)
  {
  }
}
