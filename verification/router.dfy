/** The shard router (`ConnectionManager`): an ordered list of shard
    connections plus a name-to-index map. A shard handle is modelled as the
    shard itself (type parameter `S`); the record store instantiates `S` with
    an abstract table. Opening, pinging, migrating and closing a connection are
    external effects and arrive as function parameters. */
module Router {
  import opened Results
  import Fnv

  datatype ConnectionConfig = ConnectionConfig(dsn: string, shardName: string)

  datatype ConnectionManager<S> = ConnectionManager(shards: seq<S>, shardsByName: map<string, nat>)

  /** Every name points at an existing shard. */
  ghost predicate Valid<S>(cm: ConnectionManager<S>) {
    forall n :: n in cm.shardsByName ==> cm.shardsByName[n] < |cm.shards|
  }

  // ---------------------------------------------------------------------
  // Construction
  // ---------------------------------------------------------------------

  /** Whether both `sql.Open` and `Ping` succeed for a configuration. */
  predicate Connects<S>(c: ConnectionConfig, open: ConnectionConfig -> Result<S, Error>, ping: S -> Outcome<Error>) {
    open(c).Success? && ping(open(c).value).Pass?
  }

  /** The error the constructor returns for a configuration that does not connect. */
  function ConnectError<S>(c: ConnectionConfig, open: ConnectionConfig -> Result<S, Error>, ping: S -> Outcome<Error>): Error
    requires !Connects(c, open, ping)
  {
    if open(c).Failure? then open(c).error else ping(open(c).value).error
  }

  /** `shardsByName` maps exactly the configured names, each to the LAST index
      configured under that name. */
  ghost predicate IndexesLastOccurrence(configs: seq<ConnectionConfig>, byName: map<string, nat>) {
    && (forall i :: 0 <= i < |configs| ==> configs[i].shardName in byName)
    && (forall n :: n in byName ==>
          && byName[n] < |configs|
          && configs[byName[n]].shardName == n
          && forall j :: byName[n] < j < |configs| ==> configs[j].shardName != n)
  }

  /** Opens and pings every configured shard in order; shard `i` is the
      connection of `configs[i]`. The first failing configuration aborts the
      construction with its error. */
  method NewConnectionManager<S>(configs: seq<ConnectionConfig>,
                                 open: ConnectionConfig -> Result<S, Error>,
                                 ping: S -> Outcome<Error>)
    returns (r: Result<ConnectionManager<S>, Error>)
    ensures r.Success? <==> forall i :: 0 <= i < |configs| ==> Connects(configs[i], open, ping)
    ensures r.Success? ==>
      && |r.value.shards| == |configs|
      && (forall i :: 0 <= i < |configs| ==> r.value.shards[i] == open(configs[i]).value)
      && IndexesLastOccurrence(configs, r.value.shardsByName)
      && Valid(r.value)
    ensures r.Failure? ==>
      exists i :: 0 <= i < |configs| && !Connects(configs[i], open, ping)
        && r.error == ConnectError(configs[i], open, ping)
        && forall j :: 0 <= j < i ==> Connects(configs[j], open, ping)
  {
    var shards: seq<S> := [];
    var byName: map<string, nat> := map[];
    var idx := 0;
    while idx < |configs|
      invariant 0 <= idx <= |configs|
      invariant |shards| == idx
      invariant forall i :: 0 <= i < idx ==> Connects(configs[i], open, ping)
      invariant forall i :: 0 <= i < idx ==> shards[i] == open(configs[i]).value
      invariant forall i :: 0 <= i < idx ==> configs[i].shardName in byName
      invariant forall n :: n in byName ==>
        && byName[n] < idx
        && configs[byName[n]].shardName == n
        && forall j :: byName[n] < j < idx ==> configs[j].shardName != n
    {
      var config := configs[idx];
      var db := open(config);
      if db.Failure? {
        return Failure(db.error);
      }
      var pinged := ping(db.value);
      if pinged.Fail? {
        return Failure(pinged.error);
      }
      shards := shards + [db.value];
      byName := byName[config.shardName := idx];
      idx := idx + 1;
    }
    r := Success(ConnectionManager(shards, byName));
  }

  /** A shard whose name is configured again later is unreachable by name:
      no name maps to it, so name-driven administration never visits it. */
  lemma OverwrittenNameDropsShard(configs: seq<ConnectionConfig>, byName: map<string, nat>, i: nat, j: nat)
    requires IndexesLastOccurrence(configs, byName)
    requires i < j < |configs| && configs[i].shardName == configs[j].shardName
    ensures i !in byName.Values
  {
    forall n | n in byName
      ensures byName[n] != i
    {
      assert configs[j].shardName == configs[i].shardName;
    }
  }

  // ---------------------------------------------------------------------
  // Routing
  // ---------------------------------------------------------------------

  /** `hash(key) mod n`, the unsigned 64-bit remainder Go computes. */
  function ShardIndex(key: string, n: nat): (idx: nat)
    requires n > 0
    ensures idx < n
  {
    (Fnv.Hash(key) as int) % n
  }

  /** The shard owning `key`, as its index in the connection list. The empty
      key is rejected before any hashing; with no shards Go's `%` panics, so a
      non-empty key requires at least one shard. */
  function GetShardByShardKey<S>(cm: ConnectionManager<S>, key: string): (r: Result<nat, Error>)
    requires key == "" || |cm.shards| > 0
    ensures r.Failure? <==> key == ""
    ensures r.Failure? ==> r.error == EmptyShardKey
    ensures r.Success? ==> r.value < |cm.shards| && r.value == ShardIndex(key, |cm.shards|)
  {
    if key == "" then Failure(EmptyShardKey)
    else Success(ShardIndex(key, |cm.shards|))
  }

  /** Routing depends on the key and the shard count only: two routers with
      the same number of shards agree on every key. */
  lemma RoutingDependsOnlyOnCount<S, T>(a: ConnectionManager<S>, b: ConnectionManager<T>, key: string)
    requires |a.shards| == |b.shards| > 0
    ensures GetShardByShardKey(a, key) == GetShardByShardKey(b, key)
  {
  }

  /** With three shards the key "abc" always lands on shard 0, since
      FNV-1a("abc") = 0xe71fa2190541574b and that value is 0 modulo 3. */
  lemma RouteAbcWithThreeShards<S>(cm: ConnectionManager<S>)
    requires |cm.shards| == 3
    ensures GetShardByShardKey(cm, "abc") == Success(0)
  {
    Fnv.TestVectors();
    assert Fnv.Hash("abc") as int == 0xe71f_a219_0541_574b;
  }

  // ---------------------------------------------------------------------
  // Fan-out
  // ---------------------------------------------------------------------

  /** Whether the first `k` shards all answered "nothing here, no error". */
  ghost predicate AllAbsentBefore<S, R>(shards: seq<S>, fn: S -> Result<Option<R>, Error>, k: int)
    requires k <= |shards|
  {
    forall j :: 0 <= j < k ==> fn(shards[j]).Success? && fn(shards[j]).value.None?
  }

  /** Whether an answer ends the scan: an error or a found value. */
  predicate Decisive<R>(o: Result<Option<R>, Error>) {
    o.Failure? || o.value.Some?
  }

  /** `ForEachWithResult`: visits the shards in index order and returns the
      first answer that is an error or a value; if every shard answers
      "absent" (including when there are none) the result is absent. */
  function ForEachWithResult<S, R>(shards: seq<S>, fn: S -> Result<Option<R>, Error>): (r: Result<Option<R>, Error>)
    ensures !Decisive(r) <==> AllAbsentBefore(shards, fn, |shards|)
    ensures Decisive(r) ==>
      exists i :: 0 <= i < |shards| && AllAbsentBefore(shards, fn, i) && fn(shards[i]) == r
    ensures !Decisive(r) ==> r == Success(None)
    decreases |shards|
  {
    if |shards| == 0 then Success(None)
    else
      var o := fn(shards[0]);
      if Decisive(o) then o
      else
        var rest := ForEachWithResult(shards[1..], fn);
        assert forall j :: 0 < j < |shards| ==> shards[j] == shards[1..][j - 1];
        rest
  }

  /** The scan returns exactly the answer of the first decisive shard: a
      later match cannot override an earlier error, nor a later error an
      earlier match. */
  lemma {:induction false} ScanStopsAtFirstDecisive<S, R>(shards: seq<S>, fn: S -> Result<Option<R>, Error>, k: nat)
    requires k < |shards|
    requires AllAbsentBefore(shards, fn, k)
    requires Decisive(fn(shards[k]))
    ensures ForEachWithResult(shards, fn) == fn(shards[k])
    decreases k
  {
    if k > 0 {
      assert !Decisive(fn(shards[0])) by {
        assert fn(shards[0]).Success? && fn(shards[0]).value.None?;
      }
      var tail := shards[1..];
      assert AllAbsentBefore(tail, fn, k - 1) by {
        forall j | 0 <= j < k - 1 ensures fn(tail[j]).Success? && fn(tail[j]).value.None? {
          assert tail[j] == shards[j + 1];
        }
      }
      assert tail[k - 1] == shards[k];
      ScanStopsAtFirstDecisive(tail, fn, k - 1);
    }
  }

  /** Shards after the first decisive one are never consulted: replacing the
      query by any other that agrees up to and including that shard leaves the
      result unchanged. */
  lemma ScanIgnoresLaterShards<S, R>(shards: seq<S>, fn: S -> Result<Option<R>, Error>, g: S -> Result<Option<R>, Error>, k: nat)
    requires k < |shards|
    requires AllAbsentBefore(shards, fn, k)
    requires Decisive(fn(shards[k]))
    requires forall j :: 0 <= j <= k ==> g(shards[j]) == fn(shards[j])
    ensures ForEachWithResult(shards, g) == ForEachWithResult(shards, fn)
  {
    ScanStopsAtFirstDecisive(shards, fn, k);
    assert AllAbsentBefore(shards, g, k) by {
      forall j | 0 <= j < k ensures g(shards[j]).Success? && g(shards[j]).value.None? {
        assert g(shards[j]) == fn(shards[j]);
      }
    }
    ScanStopsAtFirstDecisive(shards, g, k);
  }

  // ---------------------------------------------------------------------
  // Administration
  // ---------------------------------------------------------------------

  /** What a migration run did: its outcome and the shard indices on which a
      migration was attempted, in the order attempted. */
  datatype MigrationRun = MigrationRun(outcome: Outcome<Error>, attempted: seq<nat>)

  /** `order` enumerates the names of `byName` once each (Go's map iteration
      order is unspecified, so it is a parameter). */
  ghost predicate EnumeratesNames(order: seq<string>, byName: map<string, nat>) {
    && (forall i, j :: 0 <= i < j < |order| ==> order[i] != order[j])
    && (forall i :: 0 <= i < |order| ==> order[i] in byName)
    && (forall n :: n in byName ==> n in order)
  }

  /** Runs `up` on the shards named by `order`, stopping at the first failure. */
  function MigrateInOrder<S>(cm: ConnectionManager<S>, order: seq<string>, up: S -> Outcome<Error>): (run: MigrationRun)
    requires Valid(cm)
    requires forall i :: 0 <= i < |order| ==> order[i] in cm.shardsByName
    ensures |run.attempted| <= |order|
    ensures forall i :: 0 <= i < |run.attempted| ==> run.attempted[i] == cm.shardsByName[order[i]]
    ensures forall i :: 0 <= i < |run.attempted| - 1 ==> up(cm.shards[run.attempted[i]]).Pass?
    ensures run.outcome.Pass? <==> forall i :: 0 <= i < |order| ==> up(cm.shards[cm.shardsByName[order[i]]]).Pass?
    ensures run.outcome.Pass? ==> |run.attempted| == |order|
    ensures run.outcome.Fail? ==>
      && |run.attempted| > 0
      && var last := cm.shards[run.attempted[|run.attempted| - 1]];
         up(last).Fail? && run.outcome == Fail(MigrationFailed(order[|run.attempted| - 1]))
    decreases |order|
  {
    if |order| == 0 then MigrationRun(Pass, [])
    else
      var idx := cm.shardsByName[order[0]];
      if up(cm.shards[idx]).Fail? then MigrationRun(Fail(MigrationFailed(order[0])), [idx])
      else
        var tail := order[1..];
        var rest := MigrateInOrder(cm, tail, up);
        assert forall i :: 0 < i < |order| ==> order[i] == tail[i - 1];
        var run := MigrationRun(rest.outcome, [idx] + rest.attempted);
        assert forall i :: 0 < i < |run.attempted| ==> run.attempted[i] == rest.attempted[i - 1];
        assert run.outcome.Fail? ==> run.attempted[|run.attempted| - 1] == rest.attempted[|rest.attempted| - 1];
        assert rest.outcome.Pass? ==> forall i :: 0 <= i < |order| ==> up(cm.shards[cm.shardsByName[order[i]]]).Pass? by {
          if rest.outcome.Pass? {
            forall i | 0 < i < |order| ensures up(cm.shards[cm.shardsByName[order[i]]]).Pass? {
              assert order[i] == tail[i - 1];
            }
          }
        }
        run
  }

  /** When the order lists every name, the run passes exactly when every
      named shard migrates, and then every named shard was attempted. */
  lemma MigrateEveryName<S>(cm: ConnectionManager<S>, order: seq<string>, up: S -> Outcome<Error>)
    requires Valid(cm)
    requires EnumeratesNames(order, cm.shardsByName)
    ensures var run := MigrateInOrder(cm, order, up);
      && (run.outcome.Pass? <==> forall n :: n in cm.shardsByName ==> up(cm.shards[cm.shardsByName[n]]).Pass?)
      && (run.outcome.Pass? ==> forall n :: n in cm.shardsByName ==> cm.shardsByName[n] in run.attempted)
  {
    var run := MigrateInOrder(cm, order, up);
    if run.outcome.Pass? {
      forall n | n in cm.shardsByName
        ensures up(cm.shards[cm.shardsByName[n]]).Pass? && cm.shardsByName[n] in run.attempted
      {
        var i :| 0 <= i < |order| && order[i] == n;
        assert run.attempted[i] == cm.shardsByName[n];
      }
    } else {
      var i :| 0 <= i < |order| && up(cm.shards[cm.shardsByName[order[i]]]).Fail?;
      assert order[i] in cm.shardsByName;
    }
  }

  /** `ApplyMigrations`: both environment values must be set and the dialect
      accepted before any shard is touched; then every NAMED shard is migrated
      once, in the unspecified map order, stopping at the first failure. */
  function ApplyMigrations<S>(cm: ConnectionManager<S>, migrationsDir: string, dbDriver: string,
                              setDialect: string -> Outcome<Error>, up: S -> Outcome<Error>,
                              order: seq<string>): (run: MigrationRun)
    requires Valid(cm)
    requires EnumeratesNames(order, cm.shardsByName)
    ensures migrationsDir == "" ==> run == MigrationRun(Fail(MigrationDirUnset), [])
    ensures migrationsDir != "" && dbDriver == "" ==> run == MigrationRun(Fail(DriverUnset), [])
    ensures migrationsDir != "" && dbDriver != "" && setDialect(dbDriver).Fail? ==>
      run == MigrationRun(Fail(DialectRejected(dbDriver)), [])
    ensures migrationsDir != "" && dbDriver != "" && setDialect(dbDriver).Pass? ==>
      run == MigrateInOrder(cm, order, up)
    ensures forall i :: 0 <= i < |run.attempted| ==> run.attempted[i] in cm.shardsByName.Values
    ensures |run.attempted| <= |order|
    ensures run.outcome.Pass? <==>
      && migrationsDir != "" && dbDriver != "" && setDialect(dbDriver).Pass?
      && forall n :: n in cm.shardsByName ==> up(cm.shards[cm.shardsByName[n]]).Pass?
    ensures run.outcome.Pass? ==> forall n :: n in cm.shardsByName ==> cm.shardsByName[n] in run.attempted
  {
    if migrationsDir == "" then MigrationRun(Fail(MigrationDirUnset), [])
    else if dbDriver == "" then MigrationRun(Fail(DriverUnset), [])
    else if setDialect(dbDriver).Fail? then MigrationRun(Fail(DialectRejected(dbDriver)), [])
    else
      MigrateEveryName(cm, order, up);
      MigrateInOrder(cm, order, up)
  }

  /** The indices, from `from` on, of the shards whose close fails, in
      increasing order. */
  function FailedCloses<S>(shards: seq<S>, close: S -> Outcome<Error>, from: nat): (failed: seq<nat>)
    requires from <= |shards|
    ensures forall k :: 0 <= k < |failed| ==> from <= failed[k] < |shards| && close(shards[failed[k]]).Fail?
    ensures forall k, l :: 0 <= k < l < |failed| ==> failed[k] < failed[l]
    ensures forall i :: from <= i < |shards| && close(shards[i]).Fail? ==> i in failed
    decreases |shards| - from
  {
    if from == |shards| then []
    else (if close(shards[from]).Fail? then [from] else []) + FailedCloses(shards, close, from + 1)
  }

  /** The close loop from shard `from` on: the errors of the failed closes,
      position by position. */
  function CloseFrom<S>(shards: seq<S>, close: S -> Outcome<Error>, from: nat): (log: seq<Error>)
    requires from <= |shards|
    ensures |log| <= |shards| - from
    ensures var failed := FailedCloses(shards, close, from);
      && |log| == |failed|
      && forall k :: 0 <= k < |log| ==> close(shards[failed[k]]) == Fail(log[k])
    decreases |shards| - from
  {
    if from == |shards| then []
    else
      var first := close(shards[from]);
      (if first.Fail? then [first.error] else []) + CloseFrom(shards, close, from + 1)
  }

  /** `CloseAll`: closes every shard, logging and skipping past failures. The
      result is the log of close errors: one entry per failed shard, in shard
      order. */
  function CloseAll<S>(shards: seq<S>, close: S -> Outcome<Error>): (log: seq<Error>)
    ensures |log| <= |shards|
    ensures log == [] <==> forall i :: 0 <= i < |shards| ==> close(shards[i]).Pass?
    ensures var failed := FailedCloses(shards, close, 0);
      && |log| == |failed|
      && forall k :: 0 <= k < |log| ==> close(shards[failed[k]]) == Fail(log[k])
  {
    var log := CloseFrom(shards, close, 0);
    var failed := FailedCloses(shards, close, 0);
    assert (forall i :: 0 <= i < |shards| ==> close(shards[i]).Pass?) ==> log == [] by {
      if |log| > 0 { assert close(shards[failed[0]]).Fail?; }
    }
    log
  }
}
