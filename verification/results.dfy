/** Failure-carrying values shared by every part of the model, and the error
    taxonomy of the URL shortener. Go's `(value, error)` pairs become `Result`,
    a bare `error` return becomes `Outcome`, and a nil pointer becomes `None`. */
module Results {

  datatype Option<+T> = None | Some(value: T)

  datatype Result<+T, +E> = Success(value: T) | Failure(error: E)

  datatype Outcome<+E> = Pass | Fail(error: E)

  /** Every error the modelled code can return. */
  datatype Error =
    // routing
    | EmptyShardKey
    | NotInitialized
    // migrations
    | MigrationDirUnset
    | DriverUnset
    | DialectRejected(driver: string)
    | MigrationFailed(shardName: string)
    // per-shard queries
    | ShardUnavailable
    | DuplicateAlias(alias: string)
    // cache
    | CacheUnavailable
    | UnexpectedReply(key: string)
    | NilClient
    | RedisUnreachable
    // configuration
    | InvalidSyntax(text: string)
    | OutOfRange(text: string)
    | InconsistentLengths
}
