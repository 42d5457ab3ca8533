/** The Redis connection helper (src/lib/redis.ts): the reconnect back-off rule and the
    module-level client singleton. A client is represented by its construction number and the
    URL it was built for; connecting and the event handlers are not modelled. */
module Redis {
  import opened Common

  const DefaultUrl: string := "redis://localhost:6379"

  /** `retryStrategy(times)`: milliseconds before reconnection attempt `times`, `None` (null)
      to stop retrying. */
  function RetryStrategy(times: int): (r: Option<int>)
    ensures r.None? <==> times > 10
    ensures r.Some? ==> r.value <= 2000 && r.value <= times * 200
  {
    if times > 10 then None else Some(Min(times * 200, 2000))
  }

  /** The delay never shrinks from one attempt to the next, up to the last one. */
  lemma RetryMonotone(a: int, b: int)
    requires a <= b <= 10
    ensures RetryStrategy(a).value <= RetryStrategy(b).value
  {
  }

  /** Because attempts past the tenth stop first, the 2000 ms cap is only ever reached
      exactly, at attempt ten: for every attempt that retries the delay is `times * 200`. */
  lemma RetryCapNeverBinds(times: int)
    requires times <= 10
    ensures RetryStrategy(times) == Some(times * 200)
    ensures RetryStrategy(times).value == 2000 <==> times == 10
  {
  }

  datatype Client = Client(serial: nat, url: string)

  /** The module-level `redis` variable, and the number of clients built so far. */
  class RedisHolder {
    var client: Option<Client>
    var built: nat

    ghost predicate Valid()
      reads this
    {
      client.Some? ==> client.value.serial < built
    }

    constructor()
      ensures Valid() && client == None && built == 0
    {
      client := None;
      built := 0;
    }

    /** `getRedis()`: the held client, or a new one for `REDIS_URL || default` when none is held. */
    method GetRedis(redisUrl: Option<string>) returns (c: Client)
      requires Valid()
      modifies this
      ensures Valid()
      ensures old(client).Some? ==> c == old(client).value && client == old(client) && built == old(built)
      ensures old(client).None? ==>
        c == Client(old(built), if redisUrl.Some? && redisUrl.value != [] then redisUrl.value else DefaultUrl)
        && client == Some(c) && built == old(built) + 1
    {
      if client.None? {
        var url := if redisUrl.Some? && redisUrl.value != [] then redisUrl.value else DefaultUrl;
        client := Some(Client(built, url));
        built := built + 1;
      }
      c := client.value;
    }

    /** `disconnectRedis()`: quits and forgets the held client. When `quit` rejects, the error
        propagates (`ok` is false) and the client stays held. */
    method DisconnectRedis(quitOk: bool) returns (ok: bool)
      requires Valid()
      modifies this
      ensures Valid() && built == old(built)
      ensures old(client).None? ==> ok && client == None
      ensures old(client).Some? ==> ok == quitOk && client == (if quitOk then None else old(client))
    {
      ok := true;
      if client.Some? {
        if !quitOk {
          ok := false;
          return;
        }
        client := None;
      }
    }
  }

  /** Two calls in a row hand out the same instance and build it at most once. */
  method GetRedisTwice(h: RedisHolder, redisUrl: Option<string>) returns (a: Client, b: Client)
    requires h.Valid()
    modifies h
    ensures a == b && h.built <= old(h.built) + 1
  {
    a := h.GetRedis(redisUrl);
    b := h.GetRedis(redisUrl);
  }

  /** After a successful disconnect the next `getRedis` builds a new client, distinct from
      every earlier one. */
  method ReconnectBuildsNew(h: RedisHolder, redisUrl: Option<string>) returns (before: Client, after: Client)
    requires h.Valid()
    modifies h
    ensures before.serial < after.serial
  {
    before := h.GetRedis(redisUrl);
    var ok := h.DisconnectRedis(true);
    after := h.GetRedis(redisUrl);
  }
}
