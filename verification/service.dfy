/** The service end to end: the cache-aside handlers run against the sharded
    store and the Redis cache. A request's clock reading and its random source
    are parameters; the cache write that the read path starts in the
    background is applied at the request's clock. */
module Service {
  import opened Results
  import RecordStore
  import Cache
  import Aliasing
  import Handlers
  import LegacyHandlers

  datatype State = State(dao: RecordStore.UrlAliasDao, cache: Cache.CacheManager)

  /** Every alias can be routed: a manager that is present has a shard (a
      loaded configuration always names one). */
  predicate Routable(dao: RecordStore.UrlAliasDao) {
    dao.connManager.Some? ==> |dao.connManager.value.shards| > 0
  }

  /** The application environment over this state. */
  function Env(st: State, rng: nat -> nat, now: int): Handlers.AppEnv
    requires Routable(st.dao)
  {
    Handlers.AppEnv(
      url => RecordStore.FindByOriginalUrl(st.dao, url),
      url => Aliasing.GenerateShortUrl(url, Aliasing.SimpleAliasingStrategy(rng)),
      (alias, url) => RecordStore.CreateUrlAlias(st.dao, alias, url, now).0,
      (store, key) => Cache.Get(st.cache, store, key, now),
      alias => RecordStore.FindByAlias(st.dao, alias))
  }

  /** The alias the simple strategy draws from `rng` for `url`. */
  function Generated(url: string, rng: nat -> nat): string {
    Aliasing.GenerateShortUrl(url, Aliasing.SimpleAliasingStrategy(rng)).value
  }

  /** `POST /create`: the create handler, and the store after its insert. A
      reused alias or a failed lookup leaves the state alone; otherwise the
      generated alias is inserted and answered, or the failed insert answers
      500. */
  function ServeCreate(st: State, url: string, rng: nat -> nat, now: int): (r: (Handlers.Reply, State))
    requires Routable(st.dao)
    ensures Handlers.Answers(r.0)
    ensures Routable(r.1.dao) && r.1.cache == st.cache
    ensures RecordStore.WellFormed(st.dao) ==> RecordStore.WellFormed(r.1.dao)
    ensures var found := RecordStore.FindByOriginalUrl(st.dao, url);
      && (found.Failure? ==> r.0.writes == [Handlers.InternalServerError] && r.1 == st)
      && (found.Success? && found.value.Some? ==> r.0.writes == [Handlers.AliasJson(found.value.value.alias)] && r.1 == st)
    ensures RecordStore.FindByOriginalUrl(st.dao, url) == Success(None) ==>
      var inserted := RecordStore.CreateUrlAlias(st.dao, Generated(url, rng), url, now);
      && r.1.dao == inserted.1
      && (inserted.0.Success? ==> r.0.writes == [Handlers.AliasJson(Generated(url, rng))])
      && (inserted.0.Failure? ==> r.0.writes == [Handlers.InternalServerError])
  {
    var reply := Handlers.CreateUrlAliasHandler(Some(Env(st, rng, now)), url);
    if RecordStore.FindByOriginalUrl(st.dao, url) == Success(None) then
      (reply, st.(dao := RecordStore.CreateUrlAlias(st.dao, Generated(url, rng), url, now).1))
    else (reply, st)
  }

  /** `GET /{alias}`: the read handler, and the cache after the write it
      starts on a database hit. */
  function ServeGet(st: State, alias: string, rng: nat -> nat, now: int): (r: (Handlers.Reply, State))
    requires Routable(st.dao)
    ensures Handlers.Answers(r.0)
    ensures r.1.dao == st.dao
    ensures forall s, k, v :: Handlers.CacheSet(s, k, v) in r.0.calls ==> r.1.cache == Cache.Set(st.cache, s, k, v, now).1
    ensures (forall s, k, v :: Handlers.CacheSet(s, k, v) !in r.0.calls) ==> r.1.cache == st.cache
  {
    var reply := Handlers.GetUrlAliasHandler(Some(Env(st, rng, now)), alias);
    var last := reply.calls[|reply.calls| - 1];
    if last.CacheSet? then
      assert last in reply.calls;
      (reply, st.(cache := Cache.Set(st.cache, last.store, last.key, last.value, now).1))
    else (reply, st)
  }

  // ---------------------------------------------------------------------
  // Cache coherence
  // ---------------------------------------------------------------------

  /** The database maps `alias` to `url` on the shard that owns the alias. */
  predicate Stored(dao: RecordStore.UrlAliasDao, alias: string, url: string) {
    && dao.connManager.Some? && alias != "" && |dao.connManager.value.shards| > 0
    && var cm := dao.connManager.value;
       var rows := cm.shards[RecordStore.Owner(cm, alias)].rows;
       alias in RecordStore.AliasMap(rows) && RecordStore.AliasMap(rows)[alias] == url
  }

  /** Every cached alias, live or expired, holds the URL the database has for
      it. */
  ghost predicate Coherent(st: State) {
    forall alias :: Cache.Key(Handlers.AliasCacheStore, alias) in st.cache.client.entries ==>
      Stored(st.dao, alias, st.cache.client.entries[Cache.Key(Handlers.AliasCacheStore, alias)].value)
  }

  /** An insert never changes what the database already maps. */
  lemma StoredSurvivesCreate(d: RecordStore.UrlAliasDao, alias: string, url: string, now: int, other: string, u: string)
    requires RecordStore.CanRoute(d, alias)
    requires Stored(d, other, u)
    ensures Stored(RecordStore.CreateUrlAlias(d, alias, url, now).1, other, u)
  {
    var (res, d') := RecordStore.CreateUrlAlias(d, alias, url, now);
    if res.Success? {
      var cm := d.connManager.value;
      var cm' := d'.connManager.value;
      var k := RecordStore.Owner(cm, alias);
      var j := RecordStore.Owner(cm, other);
      assert RecordStore.Owner(cm', other) == j;
      if j == k {
        RecordStore.AliasMapAppend(cm.shards[k].rows, res.value);
      }
    }
  }

  /** The create path keeps the cache coherent. */
  lemma ServeCreateKeepsCoherent(st: State, url: string, rng: nat -> nat, now: int)
    requires Routable(st.dao) && Coherent(st)
    ensures Coherent(ServeCreate(st, url, rng, now).1)
  {
    var st' := ServeCreate(st, url, rng, now).1;
    if RecordStore.FindByOriginalUrl(st.dao, url) == Success(None) {
      var a := Generated(url, rng);
      forall other | Cache.Key(Handlers.AliasCacheStore, other) in st'.cache.client.entries
        ensures Stored(st'.dao, other, st'.cache.client.entries[Cache.Key(Handlers.AliasCacheStore, other)].value)
      {
        StoredSurvivesCreate(st.dao, a, url, now, other, st.cache.client.entries[Cache.Key(Handlers.AliasCacheStore, other)].value);
      }
    }
  }

  /** The read path keeps the cache coherent: it caches only what the
      database returned for the alias. */
  lemma ServeGetKeepsCoherent(st: State, alias: string, rng: nat -> nat, now: int)
    requires Routable(st.dao) && Coherent(st)
    ensures Coherent(ServeGet(st, alias, rng, now).1)
  {
    var st' := ServeGet(st, alias, rng, now).1;
    var reply := Handlers.GetUrlAliasHandler(Some(Env(st, rng, now)), alias);
    var last := reply.calls[|reply.calls| - 1];
    if last.CacheSet? {
      assert last in reply.calls;
      var found := RecordStore.FindByAlias(st.dao, alias);
      assert found.Success? && found.value.Some? && last == Handlers.CacheSet(Handlers.AliasCacheStore, alias, found.value.value.originalUrl);
      var written := Cache.Set(st.cache, Handlers.AliasCacheStore, alias, found.value.value.originalUrl, now);
      if written.0.Pass? {
        forall other | Cache.Key(Handlers.AliasCacheStore, other) in st'.cache.client.entries
          ensures Stored(st'.dao, other, st'.cache.client.entries[Cache.Key(Handlers.AliasCacheStore, other)].value)
        {
          if other != alias {
            if Cache.Key(Handlers.AliasCacheStore, other) == Cache.Key(Handlers.AliasCacheStore, alias) {
              Cache.KeysAreSeparate(Handlers.AliasCacheStore, other, alias);
            }
          }
        }
      }
    }
  }

  /** The owning shard of a routable alias answers queries. */
  predicate OwnerOnline(dao: RecordStore.UrlAliasDao, alias: string)
    requires Routable(dao)
  {
    dao.connManager.Some? && alias != "" ==>
      dao.connManager.value.shards[RecordStore.Owner(dao.connManager.value, alias)].online
  }

  /** With a coherent cache the cache is invisible: while the owning shard is
      reachable, the cached read path answers exactly as the database-only
      read path does. */
  lemma CachedGetMatchesDatabase(st: State, alias: string, rng: nat -> nat, now: int)
    requires Routable(st.dao) && Coherent(st) && OwnerOnline(st.dao, alias)
    ensures ServeGet(st, alias, rng, now).0.writes == LegacyGet(st, alias, rng, now).writes
  {
    var env := Env(st, rng, now);
    var cached := env.cacheGet(Handlers.AliasCacheStore, alias);
    if cached.Success? && cached.value.Some? {
      var k := Cache.Key(Handlers.AliasCacheStore, alias);
      assert k in st.cache.client.entries;
      assert Stored(st.dao, alias, cached.value.value);
      var cm := st.dao.connManager.value;
      RecordStore.SelectByAliasIsMapLookup(cm.shards[RecordStore.Owner(cm, alias)].rows, alias);
    } else {
      LegacyHandlers.GetAgreesOnCacheMiss(env, alias);
    }
  }

  /** The database-only read path over the same state. */
  function LegacyGet(st: State, alias: string, rng: nat -> nat, now: int): (reply: Handlers.Reply)
    requires Routable(st.dao)
    ensures Handlers.Answers(reply)
    ensures reply.calls == [Handlers.FindByAlias(alias)]
  {
    LegacyHandlers.GetUrlAliasHandler(Some(Env(st, rng, now)), alias)
  }

  /** A cache hit keeps answering while the owning shard is down, where the
      database-only path answers 500. */
  lemma CacheServesWhileShardDown(st: State, alias: string, rng: nat -> nat, now: int, url: string)
    requires Routable(st.dao) && st.dao.connManager.Some? && alias != ""
    requires !OwnerOnline(st.dao, alias)
    requires Cache.Get(st.cache, Handlers.AliasCacheStore, alias, now) == Success(Some(url))
    ensures ServeGet(st, alias, rng, now).0.writes == [Handlers.Redirect(url)]
    ensures LegacyGet(st, alias, rng, now).writes == [Handlers.InternalServerError]
  {
  }

  // ---------------------------------------------------------------------
  // Create, then read
  // ---------------------------------------------------------------------

  /** A stored alias is found by point lookup while its shard is reachable. */
  lemma StoredIsFound(dao: RecordStore.UrlAliasDao, alias: string, url: string)
    requires Routable(dao) && Stored(dao, alias, url) && OwnerOnline(dao, alias)
    ensures RecordStore.FindByAlias(dao, alias).Success?
    ensures RecordStore.FindByAlias(dao, alias).value.Some?
    ensures RecordStore.FindByAlias(dao, alias).value.value.originalUrl == url
  {
    var cm := dao.connManager.value;
    RecordStore.SelectByAliasIsMapLookup(cm.shards[RecordStore.Owner(cm, alias)].rows, alias);
  }

  /** The alias a create answers with is stored for the URL afterwards,
      whether it was reused or freshly inserted. */
  lemma AnsweredAliasIsStored(st: State, url: string, rng: nat -> nat, now: int, alias: string)
    requires Routable(st.dao) && RecordStore.WellFormed(st.dao)
    requires ServeCreate(st, url, rng, now).0.writes == [Handlers.AliasJson(alias)]
    ensures Stored(ServeCreate(st, url, rng, now).1.dao, alias, url)
  {
    var found := RecordStore.FindByOriginalUrl(st.dao, url);
    var cm := st.dao.connManager.value;
    if found.Success? && found.value.Some? {
      var row := found.value.value;
      var k :| 0 <= k < |cm.shards| && row in cm.shards[k].rows;
      var i :| 0 <= i < |cm.shards[k].rows| && cm.shards[k].rows[i] == row;
      RecordStore.UniqueRowIsMapped(cm.shards[k].rows, i);
    } else {
      var a := Generated(url, rng);
      var (res, d') := RecordStore.CreateUrlAlias(st.dao, a, url, now);
      var k := RecordStore.Owner(cm, a);
      RecordStore.AliasMapAppend(cm.shards[k].rows, res.value);
    }
  }

  /** An alias handed out by create redirects to its URL on the next read. */
  lemma CreateThenGet(st: State, url: string, rng: nat -> nat, t1: int, alias: string, rng2: nat -> nat, t2: int)
    requires Routable(st.dao) && RecordStore.WellFormed(st.dao) && Coherent(st)
    requires ServeCreate(st, url, rng, t1).0.writes == [Handlers.AliasJson(alias)]
    requires OwnerOnline(ServeCreate(st, url, rng, t1).1.dao, alias)
    ensures ServeGet(ServeCreate(st, url, rng, t1).1, alias, rng2, t2).0.writes == [Handlers.Redirect(url)]
  {
    var st' := ServeCreate(st, url, rng, t1).1;
    AnsweredAliasIsStored(st, url, rng, t1, alias);
    ServeCreateKeepsCoherent(st, url, rng, t1);
    CachedGetMatchesDatabase(st', alias, rng2, t2);
    StoredIsFound(st'.dao, alias, url);
  }

  /** Creating the same URL twice hands out the same alias and leaves the
      state as the first create left it. */
  lemma CreateIsIdempotent(st: State, url: string, rng: nat -> nat, t1: int, alias: string, rng2: nat -> nat, t2: int)
    requires Routable(st.dao) && RecordStore.WellFormed(st.dao)
    requires ServeCreate(st, url, rng, t1).0.writes == [Handlers.AliasJson(alias)]
    ensures var st' := ServeCreate(st, url, rng, t1).1;
      && ServeCreate(st', url, rng2, t2).0.writes == [Handlers.AliasJson(alias)]
      && ServeCreate(st', url, rng2, t2).1 == st'
  {
    var st' := ServeCreate(st, url, rng, t1).1;
    var found := RecordStore.FindByOriginalUrl(st.dao, url);
    if found == Success(None) {
      var a := Generated(url, rng);
      var (res, d') := RecordStore.CreateUrlAlias(st.dao, a, url, t1);
      assert res.Success? && d' == st'.dao;
      var cm := st.dao.connManager.value;
      var cm' := d'.connManager.value;
      var k := RecordStore.Owner(cm, a);
      assert !RecordStore.HoldsUrl(cm.shards[k], url);
      RecordStore.SelectFirstAppend(cm.shards[k].rows, res.value, RecordStore.UrlColumn, url);
      assert RecordStore.HoldsUrl(cm'.shards[k], url) by {
        assert cm'.shards[k].rows[|cm.shards[k].rows|] == res.value;
      }
      RecordStore.FindByOriginalUrlLowestShard(d', url, k);
    }
  }
}
