# go-short in Dafny: sharded alias store, cache-aside reads, configuration

This project models the core of the go-short URL shortener. The shortener hands out an 8-symbol alias for a long URL and redirects requests for the alias back to the URL. Alias records live in several Postgres shards. A record is placed by the 64-bit FNV-1a hash of its alias, taken modulo the shard count. Lookups by original URL scan every shard in order. Reads go through a Redis cache first.

The modules follow the program's structure:

- `Utf8` and `Fnv`: the byte view of a string and the FNV-1a hash (`utils/hashing.go`).
- `Router`: the `ConnectionManager` (`internal/db/connection_manager.go`). It covers construction, routing by key, the fail-fast first-match scan, migrations and closing. Opening, pinging, migrating and closing a connection are function parameters.
- `RecordStore`: the `UrlAliasDao` (`db/dao/url_aliases.go`). Each shard is an abstract `url_aliases` table: its rows in physical order plus whether it answers. `AliasMap` is the map view of a table.
- `Aliasing`: the 62-symbol pool, the simple aliasing strategy and `GenerateShortUrl` (`core/strategies.go`, `core/core.go`). The random number generator is an oracle `rng: nat -> nat`.
- `Cache`: the Redis cache manager (`cache/cache_manager.go`). Redis is a timed map with an explicit clock in nanoseconds.
- `Config`: `Load`, `loadRedisConfig` and `loadDBConfigs` as functions of the environment (`internal/config/config.go`). `strings.Split`, `strings.TrimSpace` and `strconv.Atoi` are written out.
- `Handlers`: the decision logic of the current handlers (`internal/handlers/urls.go`).
- `LegacyHandlers`: the older handlers (`handlers/urls.go`), including their fall-through paths.
  - A handler is a pure function of the answers its services give; these are the `AppEnv` function fields.
  - Its result is a `Reply`: the responses written, the service calls made, and whether it ends in a panic.
- `Service`: the handlers run against the concrete store and cache. It proves the following:
  - the cache stays coherent with the database;
  - a created alias redirects to its URL on the next read;
  - creating the same URL twice is idempotent.

Notes on the code:

- FNV-1a("abc") = 0xe71fa2190541574b, which is 0 modulo 3, so "abc" goes to shard 0 of 3 (`Router.RouteAbcWithThreeShards`).
- The comment on `DEFAULT_EXPIRY_SECONDS` says 20 minutes. The value is `20 * time.Second`, and the model uses 20 seconds.
- The doc comment of `Load` says it panics on bad input. The code returns the error, and so does the model.
- `core/core.go` calls a `ShorteningStrategy.Shorten` that `core/strategies.go` does not define, and both handler files call `core.GenerateAlias`, which neither core file defines. The model takes `AliasingStrategy.Alias` as the one strategy interface. It uses `GenerateShortUrl` over it as the generator that the handlers reach.

## Model

| member | source | states |
|---|---|---|
| Utf8.EncodeChar | utils/hashing.go:7 | A character becomes one byte below U+0080 (its code), two below U+0800, three below U+10000 and four above. The lead byte announces that length (110xxxxx, 1110xxxx, 11110xxx), and every later byte is a continuation byte 10xxxxxx. |
| Utf8.DecodeEncodeChar | utils/hashing.go:7 | Decoding the bytes of a character (the lead byte's payload bits, then six bits per continuation byte) gives back its code point. |
| Utf8.Encode | utils/hashing.go:7 | Go's `[]byte(value)`: each character gives one to four bytes, so a string gives between `|s|` and `4|s|` bytes. It gives exactly `|s|` bytes if and only if the string is ASCII. |
| Utf8.EncodeAppend | utils/hashing.go:7 | The byte view of `s + t` is the byte view of `s` followed by that of `t`. |
| Utf8.EncodeAscii | utils/hashing.go:7 | An ASCII string (every alias is one) has one byte per character, equal to the character's code. |
| Fnv.FoldAppend | utils/hashing.go:6-8 | The FNV-1a byte fold is incremental: folding `a + b` is folding `b` from the state `a` left. |
| Fnv.HashEmpty | utils/hashing.go:6-8 | The hash of "" is the offset basis 14695981039346656037. |
| Fnv.HashAppend | utils/hashing.go:7-8 | `Hash(s + t)` continues the fold from `Hash(s)` over the bytes of `t`. |
| Fnv.Hash | utils/hashing.go:5-8 | FNV-1a 64 over the UTF-8 bytes of the string. The empty string hashes to the offset basis. A non-empty string continues the fold of its prefix over the bytes of its last character (the published vectors are in `Fnv.TestVectors`). |
| Fnv.HashBytes | utils/hashing.go:6-8 | The byte loop of `New64a().Write` then `Sum64` (xor the byte in, multiply by the prime mod 2^64) computes the fold. |
| Fnv.TestVectors | utils/hashing.go:5-8 | The published FNV-1a 64 vectors hold: "a" hashes to 0xaf63dc4c8601ec8c and "abc" to 0xe71fa2190541574b. |
| Router.NewConnectionManager | internal/db/connection_manager.go:25-45 | Success holds exactly when every config opens and pings. On success `shards[i]` is the connection of `configs[i]`, and each name maps to the last index configured under it. Otherwise the error is that of the first config that fails. |
| Router.OverwrittenNameDropsShard | internal/db/connection_manager.go:41 | A shard whose name is configured again later is the target of no name, so migration by name never visits it. |
| Router.ShardIndex | internal/db/connection_manager.go:54-55 | The unsigned hash modulo a positive shard count is a valid shard index. |
| Router.GetShardByShardKey | internal/db/connection_manager.go:48-58 | The result is an error exactly for the empty key. Otherwise it is the in-range index `Hash(key) mod N`. |
| Router.RoutingDependsOnlyOnCount | internal/db/connection_manager.go:54-57 | Two routers with the same shard count route every key alike; routing reads no other state. |
| Router.RouteAbcWithThreeShards | internal/db/connection_manager.go:54-57 | With three shards the key "abc" goes to shard 0. |
| Router.ForEachWithResult | internal/db/connection_manager.go:62-73 | The result is "absent" exactly when every shard answers absent, including when there are none. Otherwise it is the answer, error or value, of a shard that all earlier shards answered absent. |
| Router.ScanStopsAtFirstDecisive | internal/db/connection_manager.go:63-71 | The scan returns exactly the first decisive answer. An earlier error beats a later match, and an earlier match beats a later error. |
| Router.ScanIgnoresLaterShards | internal/db/connection_manager.go:63-71 | Shards after the first decisive one are never consulted: changing their answers does not change the result. |
| Router.MigrateInOrder | internal/db/connection_manager.go:98-105 | Shards are migrated in the given name order, each at the index its name maps to, stopping at the first failure. That failure names the shard. |
| Router.ApplyMigrations | internal/db/connection_manager.go:78-109 | An unset migration directory, an unset driver or a rejected dialect fails before any shard is touched. Only indices that some name maps to are visited. Once those checks pass, the shards are migrated in the given order. The run passes exactly when every named shard migrates, and then every named shard was attempted. |
| Router.MigrateEveryName | internal/db/connection_manager.go:98-105 | When the order lists every name once, the run passes exactly when every named shard migrates, and then every named shard was attempted. |
| Router.CloseAll | internal/db/connection_manager.go:112-118 | Close is tried on every shard whatever earlier closes did. The error log has one entry per failed close, in shard order. Entry `k` is the error of the `k`-th failing shard. |
| RecordStore.SelectFirst | db/dao/url_aliases.go:80-95 | A point query returns the first matching row in physical order, and "absent" exactly when no row matches. |
| RecordStore.SelectFirstAppend | db/dao/url_aliases.go:54-66 | Appending a row changes a lookup only when no earlier row matched. |
| RecordStore.AliasMap | db/dao/url_aliases.go:80 | The map view of a table has exactly the table's aliases as keys. |
| RecordStore.SelectByAliasIsMapLookup | db/dao/url_aliases.go:80-95 | A lookup by alias is absent exactly when the alias is not in the map view. Otherwise it returns that alias with the URL the map gives. |
| RecordStore.AliasMapAppend | db/dao/url_aliases.go:54-55 | Inserting a row adds its alias to the map view unless already there. Every existing entry is kept. |
| RecordStore.UniqueRowIsMapped | db/dao/url_aliases.go:80-95 | In an alias-unique table, the map view gives every row's own URL for its alias. |
| RecordStore.QueryRow | db/dao/url_aliases.go:83-93 | The query fails exactly on an unreachable shard. `sql.ErrNoRows` becomes "absent", and a result is a matching row of the table. |
| RecordStore.InsertRow | db/dao/url_aliases.go:54-66 | The insert succeeds exactly on a reachable shard without that alias. The returned row carries the inputs, and it is appended. A failure leaves the table unchanged. Alias uniqueness is preserved. |
| RecordStore.CreateUrlAlias | db/dao/url_aliases.go:45-68 | A nil manager or an empty alias fails with no write. Success holds exactly when the owning shard is reachable and free of the alias; then only that shard gains exactly the new row. The placement invariant is preserved. |
| RecordStore.InsertKeepsPlacement | db/dao/url_aliases.go:49-63 | Appending a row to the shard that owns its alias keeps every row on its owning shard and keeps every table alias-unique. |
| RecordStore.FindByAlias | db/dao/url_aliases.go:71-96 | A nil manager or an empty alias fails. Otherwise only the owning shard is asked. An unreachable shard is an error. A missing alias is "absent", not an error. A hit carries the URL the map view holds. |
| RecordStore.FindByOriginalUrl | db/dao/url_aliases.go:101-138 | A nil manager fails. "Absent" holds exactly when every shard answers and none holds the URL. An error is a shard error. A hit is a row for the URL on some shard. |
| RecordStore.CreateThenFindByAlias | db/dao/url_aliases.go:49-95 | After a successful create, a lookup of the same alias returns exactly the created record. |
| RecordStore.PlacedRowsAreFound | db/dao/url_aliases.go:75-95 | Under the placement invariant, every row on a reachable shard is found by a lookup of its alias. |
| RecordStore.FindByOriginalUrlLowestShard | db/dao/url_aliases.go:107-137 | The answer is the first row for the URL on the lowest-index shard holding one, whichever shard that is. |
| RecordStore.FindByOriginalUrlFailsFast | db/dao/url_aliases.go:118-130 | An unreachable shard before the first holder fails the whole lookup, though a later shard would match. |
| RecordStore.TwoAliasesForOneUrl | db/dao/url_aliases.go:45-68 | Two creates for one URL with distinct free aliases both succeed. Each alias then finds its own record, so the URL has two aliases. |
| Aliasing.CharPoolLayout | core/strategies.go:14-15 | The pool has 62 symbols, symbol `i` is the i-th of 0-9, A-Z, a-z, and every alphanumeric occurs in it. |
| Aliasing.CharPoolIsAlphanumericSet | core/strategies.go:14-15 | The pool's symbols are pairwise distinct, and a character is in the pool exactly when it is alphanumeric. |
| Aliasing.Draw | core/strategies.go:32 | Every drawn index is below the pool size, so the pool is never indexed out of range. |
| Aliasing.SimpleAlias | core/strategies.go:27-36 | The alias has the requested length, or is empty for a negative length. Symbol `i` is the pool symbol chosen by draw `i`. |
| Aliasing.AliasIgnoresInput | core/strategies.go:24-27 | The input string is ignored: two inputs give the same alias from the same random source. |
| Aliasing.GenerateShortUrl | core/core.go:4-8 | Generation never fails. It returns the strategy's alias for the URL at length 8, and that alias consists of 8 alphanumerics. |
| Aliasing.GeneratedAliasIsRoutable | core/core.go:7-8 | A generated alias is non-empty and ASCII, so it is always accepted as a routing key. |
| Cache.Key | cache/cache_manager.go:33 | The physical key is the store name, a ':' and the key. |
| Cache.Get | cache/cache_manager.go:32-45 | An error comes exactly from an unreachable server. "Absent" holds exactly for a missing or expired key. A value is the one stored under the physical key and not yet expired. |
| Cache.CheckSetReply | cache/cache_manager.go:55-57 | Any reply other than "OK" is an error naming the key. |
| Cache.Set | cache/cache_manager.go:47-61 | An unreachable server is an error and changes nothing. Otherwise the physical key holds the value with expiry now + 20 s, and every other key is unchanged. |
| Cache.NewRedisCacheManager | cache/cache_manager.go:63-76 | A nil client and a client whose ping fails are refused. Any other client is wrapped unchanged. |
| Cache.SetThenGet | cache/cache_manager.go:15-24 | A Set followed by a Get of the same store and key within 20 s returns the value set. |
| Cache.SetThenGetAfterExpiry | cache/cache_manager.go:12-13 | Once 20 s have passed, Get reports "absent". |
| Cache.OverwriteResetsExpiry | cache/cache_manager.go:19 | A second Set replaces the value and restarts the 20 s window. |
| Cache.SetLeavesOtherKeys | cache/cache_manager.go:47-61 | A Set does not change what Get returns for any other physical key. |
| Cache.StoresAreSeparate | cache/cache_manager.go:17-18 | The same key in two stores never collides. |
| Cache.KeysAreSeparate | cache/cache_manager.go:33 | Within one store, distinct keys never collide. |
| Cache.KeyInjectiveForColonFreeStores | cache/cache_manager.go:33 | For store names without ':', distinct (store, key) pairs give distinct physical keys. |
| Cache.ColonInStoreNameCollides | cache/cache_manager.go:48 | With ':' in a store name, key "c" of store "a:b" and key "b:c" of store "a" share a physical key. |
| Config.Split | internal/config/config.go:87-88 | A split gives one part more than the commas, no part contains a comma, and joining the parts restores the input. |
| Config.SplitJoin | internal/config/config.go:98-100 | Splitting a comma-joined list of comma-free parts gives the parts back. |
| Config.TrimSpace | internal/config/config.go:56-58 | Trimming gives the infix left once the white space at both ends is cut off. It neither starts nor ends with white space. |
| Config.TrimSpaceIdempotent | internal/config/config.go:109-113 | Trimming twice is trimming once. |
| Config.TrimSpaceOfBlank | internal/config/config.go:60-65 | All-white-space text, unset variables included, trims to "". |
| Config.Atoi | internal/config/config.go:68 | A parse succeeds exactly when the text is an optional sign, at least one digit and a value in the signed 64-bit range; the value is the signed decimal value. A syntax error means an empty body or a non-digit met before any overflow. A range error means a value outside the signed range or a run of leading digits beyond 2^64 - 1. |
| Config.ScanUint | internal/config/config.go:68 | The digit loop yields the value exactly when the body is all digits within 2^64 - 1. It stops with a syntax error only at a non-digit whose preceding digits fit, and with a range error only at a digit that overflows. |
| Config.ScanFailuresExclusive | internal/config/config.go:68 | A non-digit reached before any overflow and a digit run that overflows never occur in the same text, so the kind of error is fixed by the text. |
| Config.DigitsFit | internal/config/config.go:68 | A digit string within 2^64 - 1 meets neither a syntax nor a range error in the loop. |
| Config.AtoiOverflowBeforeGarbage | internal/config/config.go:68 | A run of digits beyond 2^64 - 1 makes the text a range error, whatever follows it, a non-digit included. |
| Config.AtoiItoa | internal/config/config.go:91 | Parsing the decimal rendering of any 64-bit integer gives it back. |
| Config.AtoiEmptyFails | internal/config/config.go:91 | The empty string is a syntax error. |
| Config.ParseAll | internal/config/config.go:89-96 | On success, entry `i` is the parse of text `i`. A failure is the failure of the first text that does not parse. |
| Config.ParsePort | internal/config/config.go:91 | One port entry is trimmed and then parsed. It succeeds exactly when the trimmed text is an optional sign, digits and an int64 value, and then it yields that signed value. A failure is a syntax or range error on the trimmed text. |
| Config.ParsePorts | internal/config/config.go:89-96 | On success there is one port per entry, and port `i` is entry `i` trimmed and parsed. |
| Config.LoadDBConfigs | internal/config/config.go:80-118 | Success holds exactly when every port parses and the five lists have equal length. A port error comes first; otherwise a length mismatch is an error. On success there is one shard per host, and shard `i` is assembled from entry `i` of every list. |
| Config.LoadedShardConfig | internal/config/config.go:106-115 | Each field of loaded shard `i` is the trimmed entry `i` of its variable. Its port is entry `i` of the port list, parsed. |
| Config.UnsetPortListFails | internal/config/config.go:82-96 | An unset port list splits into one empty entry, so loading fails with a syntax error on "". |
| Config.LoadRedisConfig | internal/config/config.go:55-78 | Values are trimmed. An empty host becomes "localhost" and an empty port becomes "6379". The result is an error exactly when the port text does not parse. |
| Config.RedisDefaults | internal/config/config.go:60-66 | With no Redis variables set, the configuration is localhost:6379 with an empty password. |
| Config.DefaultRedisPort | internal/config/config.go:64-68 | The default port text parses to 6379. |
| Config.Load | internal/config/config.go:37-53 | A database-list error is returned before the Redis variables are read. A Redis error is returned next. Otherwise both configurations are returned. |
| Config.LoadedConfigHasAShard | internal/config/config.go:87-117 | A loaded configuration names at least one shard, so routing never divides by zero. |
| Handlers.CreateUrlAliasHandler | internal/handlers/urls.go:50-97 | One response, no panic. A missing environment makes no call. An existing record's alias is reused with no generation or insert. A generated alias is inserted only after an absent lookup. The answer is 500 exactly on a missing environment, a failed lookup, or a failed generation or insert. |
| Handlers.GetUrlAliasHandler | internal/handlers/urls.go:114-167 | One response, no panic. A cache hit redirects with no database call, and a cache error counts as a miss. A database error answers 500, absence 404, and a hit redirects. Exactly a database hit asks the cache to store the URL under "aliases". |
| Handlers.CreateCallsArePrefixOfPipeline | internal/handlers/urls.go:60-92 | The calls are a prefix of lookup, generate, insert-the-generated-alias. |
| Handlers.CacheErrorIsMiss | internal/handlers/urls.go:127-130 | A cache error answers exactly as a cache miss does. |
| LegacyHandlers.CreateUrlAliasHandler | handlers/urls.go:31-74 | Described per path. After an absent lookup the insert is always attempted, with "" after a failed generation. A failed generation writes an extra 500 first. A failed save writes 500 and then panics. |
| LegacyHandlers.GetUrlAliasHandler | handlers/urls.go:76-102 | The database is asked once. An error answers 500, absence 404, and a hit redirects. |
| LegacyHandlers.SaveErrorPanics | handlers/urls.go:64-73 | After a clean lookup and generation, a save error writes 500 and then panics. The returning handler answers a single 500. |
| LegacyHandlers.GenerationErrorStillInserts | handlers/urls.go:57-64 | A generation error still inserts the alias "" and writes more than one response. The returning handler never inserts. |
| LegacyHandlers.PanicExample | handlers/urls.go:59-73 | A concrete environment drives the legacy handler into the panic: no record, alias "aBcDeFg1", an unreachable owning shard. The returning handler answers normally there. |
| LegacyHandlers.CreateAgreesWithoutLateErrors | handlers/urls.go:31-74 | Without generation or save errors, the legacy create handler behaves exactly like the returning one. |
| LegacyHandlers.PanicsIffSaveFails | handlers/urls.go:64-73 | The legacy create handler panics exactly when the save fails after an absent lookup. |
| LegacyHandlers.GetAgreesOnCacheMiss | handlers/urls.go:88-101 | On a cache miss or error, the cached read path writes what the legacy read path writes. |
| Service.ServeCreate | internal/handlers/urls.go:60-96 | A failed or successful lookup leaves the state alone and answers 500 or the existing alias. Otherwise the generated alias is inserted on its owning shard and answered, or the failed insert answers 500. The cache is unchanged and the placement invariant is kept. |
| Service.ServeGet | internal/handlers/urls.go:127-161 | The database is unchanged. The cache changes exactly by the Set the handler issues, or not at all. |
| Service.StoredSurvivesCreate | db/dao/url_aliases.go:54-67 | An insert never changes what the database already maps. |
| Service.ServeCreateKeepsCoherent | internal/handlers/urls.go:86-96 | The create path keeps every cached alias equal to its database URL. |
| Service.ServeGetKeepsCoherent | internal/handlers/urls.go:147-159 | The read path caches only what the database returned, so the cache stays coherent. |
| Service.LegacyGet | handlers/urls.go:76-102 | The database-only read path answers once, after a single alias lookup. |
| Service.CachedGetMatchesDatabase | internal/handlers/urls.go:127-161 | With a coherent cache and a reachable owning shard, the cached read path answers exactly as the database-only one. |
| Service.CacheServesWhileShardDown | internal/handlers/urls.go:132-136 | A cache hit still redirects while the owning shard is down, where the database-only path answers 500. |
| Service.StoredIsFound | db/dao/url_aliases.go:71-96 | A stored alias on a reachable shard is found with its URL. |
| Service.AnsweredAliasIsStored | internal/handlers/urls.go:68-96 | The alias a create answers with, reused or new, is stored for the URL afterwards. |
| Service.CreateThenGet | internal/handlers/urls.go:50-167 | An alias handed out by create redirects to its URL on the next read. |
| Service.CreateIsIdempotent | internal/handlers/urls.go:60-75 | A second create of the same URL answers the same alias and leaves the state unchanged. |

## Left out

- SQL text, the Postgres driver, `sql.Open`, `Ping`, `goose.SetDialect` and `goose.Up`: they are effects outside the model. They arrive as function parameters of the router (open, ping, setDialect, up, close) or as a shard's `online` flag.
- Server-assigned timestamps: `created_at` and `updated_at` are both set to the insert time, which is a parameter.
- Alias uniqueness within a table is taken as the table's constraint, and a duplicate insert fails. The migration files that define the table are not part of this model.
- Query failures: a shard either answers every query or fails every query. Scan errors and partial outages are not distinguished from an unreachable shard.
- Router.GetShardByShardKey: a non-empty key requires at least one shard, because Go's `%` by zero panics. A loaded configuration always has one (`Config.LoadedConfigHasAShard`).
- Router.ApplyMigrations: Go's map iteration order is unspecified, so the order is a parameter that lists the names once each.
- Log output (connections, migrations, closes, cache hits) is not modelled, except that `CloseAll` returns its error log.
- Error texts and `%w` wrapping: errors are constructors of one `Error` datatype.
- Aliasing.Draw: `r.Intn(62)` is modelled as the i-th oracle value modulo 62. `math/rand` seeding from the clock and Intn's rejection sampling are not modelled.
- RecordStore.SelectFirst: the lookup by URL has no ORDER BY, so Postgres may return any matching row. The model returns the first in physical order. `RecordStore.FindByOriginalUrlLowestShard`'s "first row" rests on that choice. So does `Service.CreateIsIdempotent`'s "same alias" when a shard holds two rows for one URL.
- Config.Atoi: Go takes a shortcut loop for texts under 19 bytes. The model always follows `strconv.ParseInt`. The two agree, because 18 digits never overflow. Error texts do not record which function failed.
- Utf8.EncodeChar: the model's strings hold Unicode scalar values. Go strings that are not valid UTF-8 cannot be expressed.
- Cache: the Redis client, the network and server-side eviction are not modelled. Only reachability is: an unreachable server fails Get and Set and is refused by the constructor's ping.
- Cache.Set: the server's reply to a successful SET is "OK", so the non-"OK" branch of `CheckSetReply` is not reachable from `Set`.
- Service.ServeGet: the goroutine that writes the cache runs at an unspecified later time and may fail. The model applies its Set at the request's clock, once the response is decided. The response never depends on it.
- LegacyHandlers.CreateUrlAliasHandler: after a failed generation the handler uses the alias Go's zero value leaves, "". This is taken as what the unseen `core.GenerateAlias` returns with its error.
- JSON encoding, headers and status codes: they become the `Response` datatype. Request-body validation, panic-recovery middleware and context injection are not modelled.
- main.go (environment loading, DSN formatting, server wiring), routes, health and error-response helpers, and the stub `db/dao/short_urls.go` are not part of this model.

## Findings

| source | as written | input that shows it | evidently intended | confidence | as-written member | corrected member |
|---|---|---|---|---|---|---|
| handlers/urls.go:59-73 | The legacy create handler writes a 500 after a generation or save error but does not return. After a save error, `urlAlias` is nil, and `urlAlias.Alias` is dereferenced at line 72. | No record for the URL; the generated alias is "aBcDeFg1"; the insert fails because the owning shard is unreachable. | Return after each 500, as the current handler at internal/handlers/urls.go:78-96 does. | not executed | LegacyHandlers.PanicExample | Handlers.CreateUrlAliasHandler |
