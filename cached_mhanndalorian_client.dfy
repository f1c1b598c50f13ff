/**
 * The caching facade over the game-data HTTP client
 * (src/services/mhanndalorian/cached-mhanndalorian-client.ts): retry with
 * exponential backoff on transient HTTP failures, the cache keys and
 * lifetimes of the two reads, and the process-wide single instance.
 *
 * The wrapped operation is a function from the attempt number to what that
 * attempt produced, and the waits are returned instead of slept. The cache
 * itself is an oracle here: each read is described by the key and the
 * lifetime it hands to the cache.
 */
module CachedMhanndalorian {
  import opened Js
  import MhanndalorianClient

  const MaxRetries: nat := 3
  const BaseDelay: nat := 1000
  const TbCacheTtl: nat := 15 * 60 * 1000

  /** What the retry loop reads from a thrown error: `message` and
      `response.status`, either of which may be missing. */
  datatype Failure = Failure(message: Option<string>, status: Option<int>)

  datatype Outcome<T> = Success(value: T) | Thrown(error: Failure)

  /** `message?.includes(code)` */
  predicate MessageHas(e: Failure, code: string)
  {
    e.message.Some? && Includes(e.message.value, code)
  }

  /** The status code the retry loop derives from an error: a non-zero
      `response.status` first, otherwise the first of 503, 502, 504, 429
      whose digits occur in the message, otherwise none. */
  function ExtractStatus(e: Failure): (code: Option<int>)
    ensures e.status.Some? && e.status.value != 0 ==> code == e.status
    ensures (e.status.None? || e.status.value == 0) ==>
      (code.None? <==> !MessageHas(e, "503") && !MessageHas(e, "502") && !MessageHas(e, "504") && !MessageHas(e, "429"))
    ensures (e.status.None? || e.status.value == 0) ==>
      (code == Some(503) ==> MessageHas(e, "503")) &&
      (code == Some(502) ==> MessageHas(e, "502") && !MessageHas(e, "503")) &&
      (code == Some(504) ==> MessageHas(e, "504") && !MessageHas(e, "503") && !MessageHas(e, "502")) &&
      (code == Some(429) ==> MessageHas(e, "429") && !MessageHas(e, "503") && !MessageHas(e, "502") && !MessageHas(e, "504"))
  {
    if e.status.Some? && e.status.value != 0 then e.status
    else if MessageHas(e, "503") then Some(503)
    else if MessageHas(e, "502") then Some(502)
    else if MessageHas(e, "504") then Some(504)
    else if MessageHas(e, "429") then Some(429)
    else None
  }

  predicate IsTransientCode(code: Option<int>)
  {
    code == Some(503) || code == Some(502) || code == Some(504) || code == Some(429)
  }

  predicate IsTransient(e: Failure)
  {
    IsTransientCode(ExtractStatus(e))
  }

  /** An error is transient iff its non-zero status is one of 429, 502, 503,
      504, or, without such a status, its message mentions one of them. */
  lemma TransientIff(e: Failure)
    ensures IsTransient(e) <==>
      if e.status.Some? && e.status.value != 0 then e.status.value in {429, 502, 503, 504}
      else MessageHas(e, "503") || MessageHas(e, "502") || MessageHas(e, "504") || MessageHas(e, "429")
  {
  }

  function Pow2(k: nat): (r: nat)
    ensures r >= 1
  {
    if k == 0 then 1 else 2 * Pow2(k - 1)
  }

  /** `retryWithBackoff`: calls `operation(0)`, `operation(1)`, ... until an
      attempt succeeds, fails with a non-transient error, or the fourth
      attempt has been made; the result is the last attempt's, rethrown
      unchanged when it failed. Before retry k it waits 1000 * 2^k ms. */
  method RetryWithBackoff<T>(operation: nat -> Outcome<T>) returns (result: Outcome<T>, calls: nat, delays: seq<nat>)
    ensures 1 <= calls <= MaxRetries + 1
    ensures result == operation(calls - 1)
    ensures forall k :: 0 <= k < calls - 1 ==> operation(k).Thrown? && IsTransient(operation(k).error)
    ensures result.Thrown? && IsTransient(result.error) ==> calls == MaxRetries + 1
    ensures |delays| == calls - 1
    ensures forall k :: 0 <= k < |delays| ==> delays[k] == BaseDelay * Pow2(k)
  {
    delays := [];
    for attempt := 0 to MaxRetries + 1
      invariant attempt <= MaxRetries
      invariant |delays| == attempt
      invariant forall k :: 0 <= k < attempt ==> operation(k).Thrown? && IsTransient(operation(k).error)
      invariant forall k :: 0 <= k < |delays| ==> delays[k] == BaseDelay * Pow2(k)
    {
      var outcome := operation(attempt);
      if outcome.Success? {
        return outcome, attempt + 1, delays;
      }
      var statusCode := ExtractStatus(outcome.error);
      var isTransientError := statusCode == Some(503) || statusCode == Some(502) ||
                              statusCode == Some(504) || statusCode == Some(429);
      if isTransientError && attempt < MaxRetries {
        var delay := BaseDelay * Pow2(attempt);
        delays := delays + [delay];
        continue;
      }
      return outcome, attempt + 1, delays;
    }
    assert false;
  }

  /** The first attempt that succeeds ends the loop with its value; a fatal
      first error ends it after one call. */
  lemma RetryStopsEarly<T>(operation: nat -> Outcome<T>, calls: nat, result: Outcome<T>)
    requires 1 <= calls <= MaxRetries + 1 && result == operation(calls - 1)
    requires forall k :: 0 <= k < calls - 1 ==> operation(k).Thrown? && IsTransient(operation(k).error)
    requires result.Thrown? && IsTransient(result.error) ==> calls == MaxRetries + 1
    ensures operation(0).Success? ==> calls == 1 && result == operation(0)
    ensures operation(0).Thrown? && !IsTransient(operation(0).error) ==> calls == 1 && result == operation(0)
    ensures (forall k :: 0 <= k <= MaxRetries ==> operation(k).Thrown? && IsTransient(operation(k).error)) ==>
              calls == MaxRetries + 1 && result == operation(MaxRetries)
  {
  }

  /** The total waiting time of a run with r retries is 1000 * (2^r - 1) ms
      (7000 ms for the full three retries). */
  lemma {:induction false} DelaysTotal(delays: seq<nat>)
    requires forall k :: 0 <= k < |delays| ==> delays[k] == BaseDelay * Pow2(k)
    ensures Sum(delays) == BaseDelay * (Pow2(|delays|) - 1)
  {
    if delays != [] {
      var init := delays[..|delays| - 1];
      DelaysTotal(init);
      assert delays == init + [delays[|delays| - 1]];
      SumSnoc(init, delays[|delays| - 1]);
    }
  }

  function Sum(s: seq<nat>): nat
  {
    if s == [] then 0 else s[0] + Sum(s[1..])
  }

  lemma {:induction false} SumSnoc(s: seq<nat>, x: nat)
    ensures Sum(s + [x]) == Sum(s) + x
  {
    if s != [] {
      assert (s + [x])[1..] == s[1..] + [x];
      SumSnoc(s[1..], x);
    }
  }

  // ---------------------------------------------------------------------
  // Cache keys

  /** `allyCode || "default"` */
  function KeyPart(allyCode: Option<string>): string
  {
    if allyCode.Some? && allyCode.value != "" then allyCode.value else "default"
  }

  function BoolText(b: bool): string
  {
    if b then "true" else "false"
  }

  /** What a read hands to the cache: the key and the lifetime (`None`
      leaves the cache's default). */
  datatype CacheRequest = CacheRequest(key: string, ttl: Option<nat>)

  /** `getPlayer`: key `mhanndalorian:player:<code or default>:<enums>`,
      default lifetime. */
  function PlayerRequest(allyCode: Option<string>, enums: bool): (r: CacheRequest)
    ensures r.ttl.None?
  {
    CacheRequest("mhanndalorian:player:" + KeyPart(allyCode) + ":" + BoolText(enums), None)
  }

  /** `getTB`: key `mhanndalorian:tb:<code or default>:<enums>`, 15 minutes. */
  function TbRequest(allyCode: Option<string>, enums: bool): (r: CacheRequest)
    ensures r.ttl == Some(900000)
  {
    CacheRequest("mhanndalorian:tb:" + KeyPart(allyCode) + ":" + BoolText(enums), Some(TbCacheTtl))
  }

  /** The pieces of a key `prefix + part + ":" + flag` sit at fixed places:
      the part right after the prefix, and the fourth character from the
      end telling "true" from "false". */
  lemma KeyLayout(prefix: string, part: string, flag: bool)
    ensures var key := prefix + part + ":" + BoolText(flag);
      |key| == |prefix| + |part| + 1 + |BoolText(flag)| &&
      key[|prefix|..|prefix| + |part|] == part &&
      key[|key| - 4] == (if flag then 't' else 'a')
  {
  }

  /** A key of the form prefix + part + ":" + flag determines part and flag. */
  lemma KeyDecomposes(prefix: string, a: string, e: bool, b: string, f: bool)
    requires prefix + a + ":" + BoolText(e) == prefix + b + ":" + BoolText(f)
    ensures a == b && e == f
  {
    KeyLayout(prefix, a, e);
    KeyLayout(prefix, b, f);
  }

  /** Two player reads share a cache entry iff they name the same ally code
      (an absent or empty code both meaning the default) and the same enums
      flag; likewise for territory-battle reads; a player read and a
      territory-battle read never share one. */
  lemma CacheKeysDistinct(a: Option<string>, e: bool, b: Option<string>, f: bool)
    ensures PlayerRequest(a, e).key == PlayerRequest(b, f).key <==> KeyPart(a) == KeyPart(b) && e == f
    ensures TbRequest(a, e).key == TbRequest(b, f).key <==> KeyPart(a) == KeyPart(b) && e == f
    ensures PlayerRequest(a, e).key != TbRequest(b, f).key
  {
    if PlayerRequest(a, e).key == PlayerRequest(b, f).key {
      KeyDecomposes("mhanndalorian:player:", KeyPart(a), e, KeyPart(b), f);
    }
    if TbRequest(a, e).key == TbRequest(b, f).key {
      KeyDecomposes("mhanndalorian:tb:", KeyPart(a), e, KeyPart(b), f);
    }
    assert PlayerRequest(a, e).key[14] == 'p';
    assert TbRequest(b, f).key[14] == 't';
  }

  /** Reads that share a cache entry send the same request payload, as long
      as no caller passes the literal ally code "default" (which shares the
      key of the configured code). */
  lemma SameKeySamePayload(config: MhanndalorianClient.Config, a: Option<string>, e: bool, b: Option<string>, f: bool)
    requires a != Some("default") && b != Some("default")
    requires PlayerRequest(a, e).key == PlayerRequest(b, f).key
    ensures MhanndalorianClient.RequestPayload(config, a, e) == MhanndalorianClient.RequestPayload(config, b, f)
  {
    CacheKeysDistinct(a, e, b, f);
  }

  // ---------------------------------------------------------------------
  // The single instance

  class CachedMhanndalorianClient {
    const client: MhanndalorianClient.Config

    constructor(client: MhanndalorianClient.Config)
      ensures this.client == client
    {
      this.client := client;
    }
  }

  /** The static `instance` field. */
  class InstanceHolder {
    var instance: CachedMhanndalorianClient?

    constructor()
      ensures instance == null
    {
      instance := null;
    }

    /** `getInstance`: the first call creates the instance around its
        client; every later call returns that same instance and ignores its
        argument. */
    method GetInstance(client: MhanndalorianClient.Config) returns (c: CachedMhanndalorianClient)
      modifies this
      ensures instance == c
      ensures old(instance) != null ==> c == old(instance)
      ensures old(instance) == null ==> fresh(c) && c.client == client
    {
      if instance == null {
        instance := new CachedMhanndalorianClient(client);
      }
      c := instance;
    }
  }
}
