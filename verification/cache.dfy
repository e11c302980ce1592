/** The cache-aside store (`CacheManager` backed by Redis). Redis is modelled
    as a timed map from physical keys to values with an absolute expiry, plus
    whether the server can be reached; the clock is an explicit parameter in
    nanoseconds, the unit of Go's `time.Duration`. */
module Cache {
  import opened Results

  const Second: int := 1_000_000_000

  /** `DEFAULT_EXPIRY_SECONDS`: 20 seconds (`20 * time.Second`). */
  const DefaultExpiry: int := 20 * Second

  /** The status reply Redis gives to a plain SET. */
  const OkReply: string := "OK"

  datatype Entry = Entry(value: string, expiresAt: int)

  datatype Redis = Redis(entries: map<string, Entry>, reachable: bool)

  datatype CacheManager = RedisCacheManager(client: Redis)

  /** The physical key `keyStore + ":" + key`. */
  function Key(keyStore: string, key: string): (k: string)
    ensures |k| == |keyStore| + 1 + |key|
    ensures k[..|keyStore|] == keyStore && k[|keyStore|] == ':' && k[|keyStore| + 1..] == key
  {
    keyStore + ":" + key
  }

  /** The value Redis returns for a physical key at time `now`: keys live up
      to and including their expiry instant (Redis expires a key once the
      clock is past it). */
  function Lookup(redis: Redis, k: string, now: int): Option<string> {
    if k in redis.entries && now <= redis.entries[k].expiresAt then Some(redis.entries[k].value) else None
  }

  /** `Get`: a missing or expired key is "absent" (redis.Nil); a server that
      cannot be reached is an error. */
  function Get(cm: CacheManager, keyStore: string, key: string, now: int): (r: Result<Option<string>, Error>)
    ensures r.Failure? <==> !cm.client.reachable
    ensures r.Failure? ==> r.error == CacheUnavailable
    ensures r == Success(None) <==>
      cm.client.reachable && (Key(keyStore, key) !in cm.client.entries || now > cm.client.entries[Key(keyStore, key)].expiresAt)
    ensures r.Success? && r.value.Some? ==>
      Key(keyStore, key) in cm.client.entries
      && cm.client.entries[Key(keyStore, key)] == Entry(r.value.value, cm.client.entries[Key(keyStore, key)].expiresAt)
      && now <= cm.client.entries[Key(keyStore, key)].expiresAt
  {
    if !cm.client.reachable then Failure(CacheUnavailable)
    else Success(Lookup(cm.client, Key(keyStore, key), now))
  }

  /** The check `Set` applies to the server's reply. */
  function CheckSetReply(reply: string, k: string): (o: Outcome<Error>)
    ensures o.Pass? <==> reply == OkReply
    ensures o.Fail? ==> o.error == UnexpectedReply(k)
  {
    if reply != OkReply then Fail(UnexpectedReply(k)) else Pass
  }

  /** `Set`: overwrites the physical key with a fresh expiry of
      `DefaultExpiry` from `now`; an unreachable server is an error and
      changes nothing. */
  function Set(cm: CacheManager, keyStore: string, key: string, value: string, now: int): (r: (Outcome<Error>, CacheManager))
    ensures r.0.Fail? <==> !cm.client.reachable
    ensures r.0.Fail? ==> r.0.error == CacheUnavailable && r.1 == cm
    ensures r.0.Pass? ==>
      && r.1.client.reachable
      && r.1.client.entries.Keys == cm.client.entries.Keys + {Key(keyStore, key)}
      && r.1.client.entries[Key(keyStore, key)] == Entry(value, now + DefaultExpiry)
      && forall k :: k in cm.client.entries && k != Key(keyStore, key) ==> r.1.client.entries[k] == cm.client.entries[k]
  {
    var k := Key(keyStore, key);
    if !cm.client.reachable then (Fail(CacheUnavailable), cm)
    else
      var client' := cm.client.(entries := cm.client.entries[k := Entry(value, now + DefaultExpiry)]);
      match CheckSetReply(OkReply, k)
      case Fail(e) => (Fail(e), RedisCacheManager(client'))
      case Pass => (Pass, RedisCacheManager(client'))
  }

  /** `NewRedisCacheManager`: a nil client or one whose ping fails is refused. */
  function NewRedisCacheManager(client: Option<Redis>): (r: Result<CacheManager, Error>)
    ensures client.None? ==> r == Failure(NilClient)
    ensures client.Some? && !client.value.reachable ==> r == Failure(RedisUnreachable)
    ensures r.Success? <==> client.Some? && client.value.reachable
    ensures r.Success? ==> r.value.client == client.value
  {
    match client
    case None => Failure(NilClient)
    case Some(c) => if !c.reachable then Failure(RedisUnreachable) else Success(RedisCacheManager(c))
  }

  // ---------------------------------------------------------------------
  // Properties
  // ---------------------------------------------------------------------

  /** Set then Get within the expiry window returns the value set. */
  lemma SetThenGet(cm: CacheManager, keyStore: string, key: string, value: string, t0: int, t: int)
    requires Set(cm, keyStore, key, value, t0).0.Pass?
    requires t0 <= t <= t0 + DefaultExpiry
    ensures Get(Set(cm, keyStore, key, value, t0).1, keyStore, key, t) == Success(Some(value))
  {
  }

  /** Once the window has passed, Get reports "absent" although nothing
      deleted the key. */
  lemma SetThenGetAfterExpiry(cm: CacheManager, keyStore: string, key: string, value: string, t0: int, t: int)
    requires Set(cm, keyStore, key, value, t0).0.Pass?
    requires t > t0 + DefaultExpiry
    ensures Get(Set(cm, keyStore, key, value, t0).1, keyStore, key, t) == Success(None)
  {
  }

  /** An overwrite replaces the value and restarts the window: after a second
      Set the second value is returned for a full window from the second write. */
  lemma OverwriteResetsExpiry(cm: CacheManager, keyStore: string, key: string, v1: string, v2: string, t1: int, t2: int, t: int)
    requires Set(cm, keyStore, key, v1, t1).0.Pass?
    requires t1 <= t2 <= t <= t2 + DefaultExpiry
    ensures var cm1 := Set(cm, keyStore, key, v1, t1).1;
      Set(cm1, keyStore, key, v2, t2).0.Pass?
      && Get(Set(cm1, keyStore, key, v2, t2).1, keyStore, key, t) == Success(Some(v2))
  {
  }

  /** A Set leaves every other physical key as it was. */
  lemma SetLeavesOtherKeys(cm: CacheManager, keyStore: string, key: string, value: string, t0: int,
                           otherStore: string, otherKey: string, t: int)
    requires Key(otherStore, otherKey) != Key(keyStore, key)
    ensures Get(Set(cm, keyStore, key, value, t0).1, otherStore, otherKey, t) == Get(cm, otherStore, otherKey, t)
  {
  }

  /** The same key in two stores never collides. */
  lemma StoresAreSeparate(s1: string, s2: string, key: string)
    requires Key(s1, key) == Key(s2, key)
    ensures s1 == s2
  {
    assert |s1| == |s2|;
    assert s1 == Key(s1, key)[..|s1|];
  }

  /** Within one store, distinct keys never collide. */
  lemma KeysAreSeparate(keyStore: string, k1: string, k2: string)
    requires Key(keyStore, k1) == Key(keyStore, k2)
    ensures k1 == k2
  {
    assert k1 == Key(keyStore, k1)[|keyStore| + 1..];
  }

  /** Namespacing is injective on (store, key) pairs when store names contain
      no ':' (the only store used is "aliases"). */
  lemma KeyInjectiveForColonFreeStores(s1: string, k1: string, s2: string, k2: string)
    requires ':' !in s1 && ':' !in s2
    requires Key(s1, k1) == Key(s2, k2)
    ensures s1 == s2 && k1 == k2
  {
    var k := Key(s1, k1);
    if |s1| != |s2| {
      assert false;
    }
    assert s1 == k[..|s1|] == s2;
    assert k1 == k[|s1| + 1..] == k2;
  }

  /** With a ':' inside a store name, different pairs can share a physical
      key: key "c" of store "a:b" is key "b:c" of store "a". */
  lemma ColonInStoreNameCollides()
    ensures Key("a:b", "c") == Key("a", "b:c")
  {
  }
}
