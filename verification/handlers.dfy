/** The request decision logic of the HTTP handlers, over the answers of the
    services they reach through the application environment. A handler's
    effect is its `Reply`: the responses it writes in order, the service calls
    it issues in order, and whether it ends in a runtime panic. */
module Handlers {
  import opened Results
  import RecordStore

  type UrlAlias = RecordStore.UrlAlias

  /** `ALIAS_CACHE_STORE`: the cache namespace of alias -> original URL. */
  const AliasCacheStore: string := "aliases"

  /** What a handler writes to the client. */
  datatype Response =
    | InternalServerError          // status 500
    | AliasJson(alias: string)     // status 200, body {"urlAlias": alias}
    | Redirect(location: string)   // status 302 Found
    | NotFound                     // status 404

  /** A call a handler makes into a service. */
  datatype Call =
    | FindByOriginalUrl(url: string)
    | GenerateAlias(url: string)
    | CreateUrlAlias(alias: string, url: string)
    | CacheGet(store: string, key: string)
    | FindByAlias(alias: string)
    | CacheSet(store: string, key: string, value: string)

  datatype Reply = Reply(writes: seq<Response>, calls: seq<Call>, panicked: bool)

  /** The services of the application environment, as the answers they give. */
  datatype AppEnv = AppEnv(
    findByOriginalUrl: string -> Result<Option<UrlAlias>, Error>,
    generateAlias: string -> Result<string, Error>,
    createUrlAlias: (string, string) -> Result<UrlAlias, Error>,
    cacheGet: (string, string) -> Result<Option<string>, Error>,
    findByAlias: string -> Result<Option<UrlAlias>, Error>)

  /** A well-behaved reply: exactly one response and no panic. */
  predicate Answers(reply: Reply) {
    |reply.writes| == 1 && !reply.panicked
  }

  /** `CreateUrlAliasHandler`: reuse the alias of an existing record for the
      URL; otherwise generate an alias and insert it. Every failure answers
      500 and stops. A missing environment (`env == None`) answers 500 before
      any call. */
  function CreateUrlAliasHandler(env: Option<AppEnv>, url: string): (reply: Reply)
    ensures Answers(reply)
    ensures env.None? ==> reply.calls == []
    ensures env.Some? ==> 1 <= |reply.calls| <= 3 && reply.calls[0] == FindByOriginalUrl(url)
    ensures reply.writes == [InternalServerError] <==>
      || env.None?
      || env.value.findByOriginalUrl(url).Failure?
      || (env.value.findByOriginalUrl(url) == Success(None)
          && (|| env.value.generateAlias(url).Failure?
              || env.value.createUrlAlias(env.value.generateAlias(url).value, url).Failure?))
    ensures env.Some? && env.value.findByOriginalUrl(url).Success? && env.value.findByOriginalUrl(url).value.Some? ==>
      && reply.writes == [AliasJson(env.value.findByOriginalUrl(url).value.value.alias)]
      && reply.calls == [FindByOriginalUrl(url)]
    ensures GenerateAlias(url) in reply.calls <==>
      env.Some? && env.value.findByOriginalUrl(url) == Success(None)
    ensures forall a, u :: CreateUrlAlias(a, u) in reply.calls <==>
      && env.Some? && env.value.findByOriginalUrl(url) == Success(None)
      && env.value.generateAlias(url) == Success(a) && u == url
    ensures forall a :: AliasJson(a) in reply.writes && env.Some? && env.value.findByOriginalUrl(url) == Success(None) ==>
      && env.value.generateAlias(url).Success?
      && env.value.createUrlAlias(env.value.generateAlias(url).value, url).Success?
      && a == env.value.createUrlAlias(env.value.generateAlias(url).value, url).value.alias
  {
    match env
    case None => Reply([InternalServerError], [], false)
    case Some(e) =>
      var lookup := [FindByOriginalUrl(url)];
      match e.findByOriginalUrl(url)
      case Failure(_) => Reply([InternalServerError], lookup, false)
      case Success(Some(existing)) => Reply([AliasJson(existing.alias)], lookup, false)
      case Success(None) =>
        match e.generateAlias(url)
        case Failure(_) => Reply([InternalServerError], lookup + [GenerateAlias(url)], false)
        case Success(shortUrl) =>
          var calls := lookup + [GenerateAlias(url), CreateUrlAlias(shortUrl, url)];
          match e.createUrlAlias(shortUrl, url)
          case Failure(_) => Reply([InternalServerError], calls, false)
          case Success(created) => Reply([AliasJson(created.alias)], calls, false)
  }

  /** `GetUrlAliasHandler`: cache first, then the database. A cache error is
      treated as a miss; a database hit redirects and asks the cache to keep
      the URL under the alias, whatever becomes of that request. */
  function GetUrlAliasHandler(env: Option<AppEnv>, alias: string): (reply: Reply)
    ensures Answers(reply)
    ensures env.None? ==> reply.calls == [] && reply.writes == [InternalServerError]
    ensures env.Some? ==> |reply.calls| >= 1 && reply.calls[0] == CacheGet(AliasCacheStore, alias)
    ensures env.Some? && env.value.cacheGet(AliasCacheStore, alias).Success?
                      && env.value.cacheGet(AliasCacheStore, alias).value.Some? ==>
      && reply.writes == [Redirect(env.value.cacheGet(AliasCacheStore, alias).value.value)]
      && reply.calls == [CacheGet(AliasCacheStore, alias)]
    ensures FindByAlias(alias) in reply.calls <==>
      env.Some? && !(env.value.cacheGet(AliasCacheStore, alias).Success? && env.value.cacheGet(AliasCacheStore, alias).value.Some?)
    ensures FindByAlias(alias) in reply.calls ==>
      var found := env.value.findByAlias(alias);
      && (found.Failure? <==> reply.writes == [InternalServerError])
      && (found == Success(None) <==> reply.writes == [NotFound])
      && (found.Success? && found.value.Some? ==> reply.writes == [Redirect(found.value.value.originalUrl)])
    ensures forall s, k, v :: CacheSet(s, k, v) in reply.calls <==>
      && FindByAlias(alias) in reply.calls
      && env.value.findByAlias(alias).Success? && env.value.findByAlias(alias).value.Some?
      && s == AliasCacheStore && k == alias && v == env.value.findByAlias(alias).value.value.originalUrl
  {
    match env
    case None => Reply([InternalServerError], [], false)
    case Some(e) =>
      var probe := [CacheGet(AliasCacheStore, alias)];
      var cached := e.cacheGet(AliasCacheStore, alias);
      if cached.Success? && cached.value.Some? then Reply([Redirect(cached.value.value)], probe, false)
      else
        var calls := probe + [FindByAlias(alias)];
        match e.findByAlias(alias)
        case Failure(_) => Reply([InternalServerError], calls, false)
        case Success(None) => Reply([NotFound], calls, false)
        case Success(Some(row)) =>
          Reply([Redirect(row.originalUrl)], calls + [CacheSet(AliasCacheStore, alias, row.originalUrl)], false)
  }

  /** Create never writes before it has looked the URL up, and never inserts
      an alias it did not generate: the calls follow lookup, generate, insert,
      stopping at the first failure or at a reused alias. */
  lemma CreateCallsArePrefixOfPipeline(env: AppEnv, url: string)
    ensures var reply := CreateUrlAliasHandler(Some(env), url);
      var pipeline := [FindByOriginalUrl(url), GenerateAlias(url)]
                      + (if env.generateAlias(url).Success? then [CreateUrlAlias(env.generateAlias(url).value, url)] else []);
      reply.calls <= pipeline
  {
  }

  /** A cache error answers exactly as a cache miss does. */
  lemma CacheErrorIsMiss(env: AppEnv, alias: string, err: Error)
    requires env.cacheGet(AliasCacheStore, alias) == Failure(err)
    ensures GetUrlAliasHandler(Some(env), alias).writes
         == GetUrlAliasHandler(Some(env.(cacheGet := (s, k) => Success(None))), alias).writes
  {
  }
}
