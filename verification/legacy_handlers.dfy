/** The legacy handlers (no cache). Their create handler writes a 500 after a
    generation or save error but does not return: control falls through to the
    insert and to the final JSON encode, and after a save error the DAO's nil
    result is dereferenced, which panics. */
module LegacyHandlers {
  import opened Results
  import opened Handlers

  /** Legacy `CreateUrlAliasHandler`, as written. After a failed generation the
      empty string (Go's zero value) is inserted as the alias. */
  function CreateUrlAliasHandler(env: Option<AppEnv>, url: string): (reply: Reply)
    ensures env.None? ==> reply == Reply([InternalServerError], [], false)
    ensures env.Some? && env.value.findByOriginalUrl(url).Failure? ==>
      reply == Reply([InternalServerError], [FindByOriginalUrl(url)], false)
    ensures env.Some? && env.value.findByOriginalUrl(url).Success? && env.value.findByOriginalUrl(url).value.Some? ==>
      reply == Reply([AliasJson(env.value.findByOriginalUrl(url).value.value.alias)], [FindByOriginalUrl(url)], false)
    ensures env.Some? && env.value.findByOriginalUrl(url) == Success(None) ==>
      var shortUrl := if env.value.generateAlias(url).Success? then env.value.generateAlias(url).value else "";
      var inserted := env.value.createUrlAlias(shortUrl, url);
      && reply.calls == [FindByOriginalUrl(url), GenerateAlias(url), CreateUrlAlias(shortUrl, url)]
      && (reply.panicked <==> inserted.Failure?)
      && |reply.writes| == (if env.value.generateAlias(url).Failure? then 1 else 0) + 1
      && (env.value.generateAlias(url).Failure? ==> reply.writes[0] == InternalServerError)
      && (inserted.Failure? ==> reply.writes[|reply.writes| - 1] == InternalServerError)
      && (inserted.Success? ==> reply.writes[|reply.writes| - 1] == AliasJson(inserted.value.alias))
  {
    match env
    case None => Reply([InternalServerError], [], false)
    case Some(e) =>
      var lookup := [FindByOriginalUrl(url)];
      match e.findByOriginalUrl(url)
      case Failure(_) => Reply([InternalServerError], lookup, false)
      case Success(Some(existing)) => Reply([AliasJson(existing.alias)], lookup, false)
      case Success(None) =>
        var generated := e.generateAlias(url);
        var shortUrl := if generated.Success? then generated.value else "";
        var afterGenerate := if generated.Failure? then [InternalServerError] else [];
        var calls := lookup + [GenerateAlias(url), CreateUrlAlias(shortUrl, url)];
        match e.createUrlAlias(shortUrl, url)
        case Failure(_) => Reply(afterGenerate + [InternalServerError], calls, true)
        case Success(created) => Reply(afterGenerate + [AliasJson(created.alias)], calls, false)
  }

  /** Legacy `GetUrlAliasHandler`: the database only. */
  function GetUrlAliasHandler(env: Option<AppEnv>, alias: string): (reply: Reply)
    ensures Answers(reply)
    ensures env.None? ==> reply == Reply([InternalServerError], [], false)
    ensures env.Some? ==>
      var found := env.value.findByAlias(alias);
      && reply.calls == [FindByAlias(alias)]
      && (found.Failure? <==> reply.writes == [InternalServerError])
      && (found == Success(None) <==> reply.writes == [NotFound])
      && (found.Success? && found.value.Some? ==> reply.writes == [Redirect(found.value.value.originalUrl)])
  {
    match env
    case None => Reply([InternalServerError], [], false)
    case Some(e) =>
      match e.findByAlias(alias)
      case Failure(_) => Reply([InternalServerError], [FindByAlias(alias)], false)
      case Success(None) => Reply([NotFound], [FindByAlias(alias)], false)
      case Success(Some(row)) => Reply([Redirect(row.originalUrl)], [FindByAlias(alias)], false)
  }

  // ---------------------------------------------------------------------
  // The fall-through paths, against the handler that returns
  // ---------------------------------------------------------------------

  /** A save error after a clean lookup and generation panics on the nil
      result, where the returning handler answers one 500. */
  lemma SaveErrorPanics(env: AppEnv, url: string)
    requires env.findByOriginalUrl(url) == Success(None)
    requires env.generateAlias(url).Success?
    requires env.createUrlAlias(env.generateAlias(url).value, url).Failure?
    ensures CreateUrlAliasHandler(Some(env), url).panicked
    ensures CreateUrlAliasHandler(Some(env), url).writes == [InternalServerError]
    ensures Handlers.CreateUrlAliasHandler(Some(env), url) ==
      Reply([InternalServerError], [FindByOriginalUrl(url), GenerateAlias(url), CreateUrlAlias(env.generateAlias(url).value, url)], false)
  {
  }

  /** A generation error does not stop the handler: it still inserts (with
      the empty alias), and writes a second response after the 500. */
  lemma GenerationErrorStillInserts(env: AppEnv, url: string)
    requires env.findByOriginalUrl(url) == Success(None)
    requires env.generateAlias(url).Failure?
    ensures CreateUrlAlias("", url) in CreateUrlAliasHandler(Some(env), url).calls
    ensures !Answers(CreateUrlAliasHandler(Some(env), url))
    ensures CreateUrlAliasHandler(Some(env), url).writes[0] == InternalServerError
    ensures forall a, u :: CreateUrlAlias(a, u) !in Handlers.CreateUrlAliasHandler(Some(env), url).calls
  {
  }

  /** A concrete environment that drives the legacy handler into the panic:
      no record for the URL, alias "aBcDeFg1" generated, the owning shard
      unreachable on insert. */
  lemma PanicExample()
    ensures var env := AppEnv(
        u => Success(None),
        u => Success("aBcDeFg1"),
        (a, u) => Failure(ShardUnavailable),
        (s, k) => Success(None),
        a => Success(None));
      && CreateUrlAliasHandler(Some(env), "https://example.com").panicked
      && Answers(Handlers.CreateUrlAliasHandler(Some(env), "https://example.com"))
  {
  }

  /** Where neither generation nor the save fails, the legacy create handler
      behaves exactly like the one that returns. */
  lemma CreateAgreesWithoutLateErrors(env: AppEnv, url: string)
    requires env.findByOriginalUrl(url) == Success(None) ==>
      env.generateAlias(url).Success? && env.createUrlAlias(env.generateAlias(url).value, url).Success?
    ensures CreateUrlAliasHandler(Some(env), url) == Handlers.CreateUrlAliasHandler(Some(env), url)
  {
  }

  /** The legacy create handler panics exactly on a save error after a clean
      lookup; on every other path it ends normally. */
  lemma PanicsIffSaveFails(env: Option<AppEnv>, url: string)
    ensures CreateUrlAliasHandler(env, url).panicked <==>
      && env.Some? && env.value.findByOriginalUrl(url) == Success(None)
      && var generated := env.value.generateAlias(url);
         env.value.createUrlAlias(if generated.Success? then generated.value else "", url).Failure?
  {
  }

  /** The cached read path answers as the legacy one does whenever the cache
      has nothing for the alias (a miss or a cache error). */
  lemma GetAgreesOnCacheMiss(env: AppEnv, alias: string)
    requires !(env.cacheGet(AliasCacheStore, alias).Success? && env.cacheGet(AliasCacheStore, alias).value.Some?)
    ensures Handlers.GetUrlAliasHandler(Some(env), alias).writes == GetUrlAliasHandler(Some(env), alias).writes
    ensures Handlers.GetUrlAliasHandler(Some(env), alias).calls[1..2] == GetUrlAliasHandler(Some(env), alias).calls
  {
  }
}
