/** The alias record store (`UrlAliasDao`) on top of the shard router. Each
    shard is an abstract `url_aliases` table: its rows in physical order and
    whether the shard answers at all. A point query (`QueryRow`) returns the
    first row matching its WHERE clause; SQL text, drivers and server-assigned
    timestamps are abstracted (the insert time is a parameter). */
module RecordStore {
  import opened Results
  import Router

  type Timestamp = int

  datatype UrlAlias = UrlAlias(alias: string, originalUrl: string, createdAt: Timestamp, updatedAt: Timestamp)

  datatype Shard = Shard(rows: seq<UrlAlias>, online: bool)

  /** The column a lookup filters on. */
  datatype Column = AliasColumn | UrlColumn

  type Connections = Router.ConnectionManager<Shard>

  /** A DAO whose connection manager may be nil. */
  datatype UrlAliasDao = UrlAliasDao(connManager: Option<Connections>)

  // ---------------------------------------------------------------------
  // One table
  // ---------------------------------------------------------------------

  predicate Matches(row: UrlAlias, col: Column, v: string) {
    match col
    case AliasColumn => row.alias == v
    case UrlColumn => row.originalUrl == v
  }

  /** The first row satisfying `col = v`, as `QueryRow(...).Scan` sees it. */
  function SelectFirst(rows: seq<UrlAlias>, col: Column, v: string): (r: Option<UrlAlias>)
    ensures r.None? <==> forall i :: 0 <= i < |rows| ==> !Matches(rows[i], col, v)
    ensures r.Some? ==>
      exists i :: 0 <= i < |rows| && rows[i] == r.value && Matches(rows[i], col, v)
        && forall j :: 0 <= j < i ==> !Matches(rows[j], col, v)
    decreases |rows|
  {
    if |rows| == 0 then None
    else if Matches(rows[0], col, v) then Some(rows[0])
    else
      var r := SelectFirst(rows[1..], col, v);
      assert forall i :: 0 < i < |rows| ==> rows[i] == rows[1..][i - 1];
      r
  }

  /** Appending a row changes a lookup only if no earlier row matched. */
  lemma {:induction false} SelectFirstAppend(rows: seq<UrlAlias>, x: UrlAlias, col: Column, v: string)
    ensures SelectFirst(rows + [x], col, v) ==
      if SelectFirst(rows, col, v).Some? then SelectFirst(rows, col, v)
      else if Matches(x, col, v) then Some(x) else None
    decreases |rows|
  {
    if |rows| > 0 {
      assert (rows + [x])[0] == rows[0];
      assert (rows + [x])[1..] == rows[1..] + [x];
      SelectFirstAppend(rows[1..], x, col, v);
    } else {
      assert rows + [x] == [x];
    }
  }

  /** The table as the abstract map alias -> original URL; for a repeated
      alias the first row counts, as in `SelectFirst`. */
  function AliasMap(rows: seq<UrlAlias>): (m: map<string, string>)
    ensures m.Keys == set i | 0 <= i < |rows| :: rows[i].alias
    decreases |rows|
  {
    if |rows| == 0 then map[]
    else
      var init := rows[..|rows| - 1];
      var prefix := AliasMap(init);
      var last := rows[|rows| - 1];
      assert (set i | 0 <= i < |rows| :: rows[i].alias) == (set i | 0 <= i < |init| :: init[i].alias) + {last.alias} by {
        assert forall i :: 0 <= i < |init| ==> init[i] == rows[i];
      }
      if last.alias in prefix then prefix else prefix[last.alias := last.originalUrl]
  }

  /** Point lookup by alias reads the map view. */
  lemma {:induction false} SelectByAliasIsMapLookup(rows: seq<UrlAlias>, a: string)
    ensures SelectFirst(rows, AliasColumn, a).None? <==> a !in AliasMap(rows)
    ensures SelectFirst(rows, AliasColumn, a).Some? ==>
      SelectFirst(rows, AliasColumn, a).value.alias == a
      && SelectFirst(rows, AliasColumn, a).value.originalUrl == AliasMap(rows)[a]
    decreases |rows|
  {
    if |rows| > 0 {
      var init := rows[..|rows| - 1];
      var last := rows[|rows| - 1];
      assert rows == init + [last];
      var prefix := AliasMap(init);
      assert AliasMap(rows) == if last.alias in prefix then prefix else prefix[last.alias := last.originalUrl];
      SelectByAliasIsMapLookup(init, a);
      SelectFirstAppend(init, last, AliasColumn, a);
    }
  }

  /** Appending a row adds its alias to the map view unless the alias is
      already there; every existing entry is kept. */
  lemma AliasMapAppend(rows: seq<UrlAlias>, x: UrlAlias)
    ensures AliasMap(rows + [x]) ==
      if x.alias in AliasMap(rows) then AliasMap(rows) else AliasMap(rows)[x.alias := x.originalUrl]
  {
    assert (rows + [x])[..|rows|] == rows;
  }

  /** No alias appears twice in a table (the primary-key constraint). */
  ghost predicate UniqueAliases(rows: seq<UrlAlias>) {
    forall i, j :: 0 <= i < j < |rows| ==> rows[i].alias != rows[j].alias
  }

  /** In an alias-unique table every row is what the map view says for its
      alias. */
  lemma UniqueRowIsMapped(rows: seq<UrlAlias>, i: nat)
    requires UniqueAliases(rows) && i < |rows|
    ensures rows[i].alias in AliasMap(rows) && AliasMap(rows)[rows[i].alias] == rows[i].originalUrl
  {
    var a := rows[i].alias;
    SelectByAliasIsMapLookup(rows, a);
    var r := SelectFirst(rows, AliasColumn, a);
    assert Matches(rows[i], AliasColumn, a);
    var i' :| 0 <= i' < |rows| && rows[i'] == r.value && Matches(rows[i'], AliasColumn, a);
    assert i' == i;
  }

  /** `SELECT ... WHERE col = $1` with `QueryRow`: an unreachable shard fails;
      otherwise `sql.ErrNoRows` becomes "absent". */
  function QueryRow(s: Shard, col: Column, v: string): (r: Result<Option<UrlAlias>, Error>)
    ensures r.Failure? <==> !s.online
    ensures r.Failure? ==> r.error == ShardUnavailable
    ensures r.Success? ==> (r.value.None? <==> forall i :: 0 <= i < |s.rows| ==> !Matches(s.rows[i], col, v))
    ensures r.Success? && r.value.Some? ==> r.value.value in s.rows && Matches(r.value.value, col, v)
  {
    if !s.online then Failure(ShardUnavailable) else Success(SelectFirst(s.rows, col, v))
  }

  /** `INSERT ... RETURNING`: fails on an unreachable shard or a duplicate
      alias; otherwise appends the row with both timestamps set to `now`. */
  function InsertRow(s: Shard, alias: string, url: string, now: Timestamp): (r: (Result<UrlAlias, Error>, Shard))
    ensures r.0.Failure? ==> r.1 == s
    ensures r.0.Success? <==> s.online && forall i :: 0 <= i < |s.rows| ==> s.rows[i].alias != alias
    ensures r.0.Success? ==> r.0.value == UrlAlias(alias, url, now, now) && r.1 == s.(rows := s.rows + [r.0.value])
    ensures UniqueAliases(s.rows) ==> UniqueAliases(r.1.rows)
  {
    if !s.online then (Failure(ShardUnavailable), s)
    else if SelectFirst(s.rows, AliasColumn, alias).Some? then (Failure(DuplicateAlias(alias)), s)
    else
      var row := UrlAlias(alias, url, now, now);
      (Success(row), s.(rows := s.rows + [row]))
  }

  // ---------------------------------------------------------------------
  // The store
  // ---------------------------------------------------------------------

  /** A routed call cannot hit Go's modulo-by-zero panic. */
  predicate CanRoute(d: UrlAliasDao, key: string) {
    d.connManager.None? || key == "" || |d.connManager.value.shards| > 0
  }

  /** The index of the shard that owns a non-empty alias. */
  function Owner(cm: Connections, alias: string): (k: nat)
    requires |cm.shards| > 0
    ensures k < |cm.shards|
  {
    Router.ShardIndex(alias, |cm.shards|)
  }

  /** The placement invariant: every table is alias-unique, and every row
      sits on the shard that routing assigns to its (non-empty) alias. */
  ghost predicate WellFormed(d: UrlAliasDao) {
    d.connManager.Some? ==>
      var shards := d.connManager.value.shards;
      forall k :: 0 <= k < |shards| ==>
        && UniqueAliases(shards[k].rows)
        && forall i :: 0 <= i < |shards[k].rows| ==>
             shards[k].rows[i].alias != "" && Owner(d.connManager.value, shards[k].rows[i].alias) == k
  }

  /** `CreateUrlAlias`: routes on the alias and inserts into that shard only. */
  function CreateUrlAlias(d: UrlAliasDao, alias: string, url: string, now: Timestamp): (r: (Result<UrlAlias, Error>, UrlAliasDao))
    requires CanRoute(d, alias)
    ensures d.connManager.None? ==> r.0 == Failure(NotInitialized)
    ensures d.connManager.Some? && alias == "" ==> r.0 == Failure(EmptyShardKey)
    ensures r.0.Failure? ==> r.1 == d
    ensures r.0.Success? <==>
      && d.connManager.Some? && alias != ""
      && var cm := d.connManager.value;
         cm.shards[Owner(cm, alias)].online && alias !in AliasMap(cm.shards[Owner(cm, alias)].rows)
    ensures r.0.Success? ==>
      && r.0.value.alias == alias && r.0.value.originalUrl == url && r.0.value.createdAt == now
      && r.1.connManager.Some?
      && var cm := d.connManager.value;
         var cm' := r.1.connManager.value;
         var k := Owner(cm, alias);
         && cm'.shardsByName == cm.shardsByName
         && |cm'.shards| == |cm.shards|
         && cm'.shards[k].rows == cm.shards[k].rows + [r.0.value]
         && cm'.shards[k].online
         && forall j :: 0 <= j < |cm.shards| && j != k ==> cm'.shards[j] == cm.shards[j]
    ensures WellFormed(d) ==> WellFormed(r.1)
  {
    match d.connManager
    case None => (Failure(NotInitialized), d)
    case Some(cm) =>
      match Router.GetShardByShardKey(cm, alias)
      case Failure(e) => (Failure(e), d)
      case Success(k) =>
        SelectByAliasIsMapLookup(cm.shards[k].rows, alias);
        var (res, shard') := InsertRow(cm.shards[k], alias, url, now);
        if res.Failure? then (Failure(res.error), d)
        else
          InsertKeepsPlacement(d, alias, res.value, shard');
          (res, UrlAliasDao(Some(cm.(shards := cm.shards[k := shard']))))
  }

  /** Appending a row to the shard that owns its alias keeps the placement
      invariant. */
  lemma InsertKeepsPlacement(d: UrlAliasDao, alias: string, row: UrlAlias, shard': Shard)
    requires d.connManager.Some? && |d.connManager.value.shards| > 0 && alias != "" && row.alias == alias
    requires var cm := d.connManager.value;
      shard'.rows == cm.shards[Owner(cm, alias)].rows + [row]
      && (UniqueAliases(cm.shards[Owner(cm, alias)].rows) ==> UniqueAliases(shard'.rows))
    ensures var cm := d.connManager.value;
      WellFormed(d) ==> WellFormed(UrlAliasDao(Some(cm.(shards := cm.shards[Owner(cm, alias) := shard']))))
  {
    var cm := d.connManager.value;
    var k := Owner(cm, alias);
    var d' := UrlAliasDao(Some(cm.(shards := cm.shards[k := shard'])));
    if WellFormed(d) {
      var shards' := d'.connManager.value.shards;
      forall j, i | 0 <= j < |shards'| && 0 <= i < |shards'[j].rows|
        ensures shards'[j].rows[i].alias != "" && Owner(d'.connManager.value, shards'[j].rows[i].alias) == j
      {
        if j == k && i == |cm.shards[k].rows| {
          assert shards'[j].rows[i] == row;
        } else {
          assert shards'[j].rows[i] == cm.shards[j].rows[i];
        }
      }
    }
  }

  /** `FindByAlias`: a single-shard lookup on the owning shard; a missing row
      is "absent", not an error. */
  function FindByAlias(d: UrlAliasDao, alias: string): (r: Result<Option<UrlAlias>, Error>)
    requires CanRoute(d, alias)
    ensures d.connManager.None? ==> r == Failure(NotInitialized)
    ensures d.connManager.Some? && alias == "" ==> r == Failure(EmptyShardKey)
    ensures d.connManager.Some? && alias != "" ==>
      var cm := d.connManager.value;
      var shard := cm.shards[Owner(cm, alias)];
      && (!shard.online <==> r.Failure?)
      && (!shard.online ==> r == Failure(ShardUnavailable))
      && (shard.online ==> (r == Success(None) <==> alias !in AliasMap(shard.rows)))
      && (r.Success? && r.value.Some? ==>
            r.value.value.alias == alias && r.value.value.originalUrl == AliasMap(shard.rows)[alias])
  {
    match d.connManager
    case None => Failure(NotInitialized)
    case Some(cm) =>
      match Router.GetShardByShardKey(cm, alias)
      case Failure(e) => Failure(e)
      case Success(k) =>
        SelectByAliasIsMapLookup(cm.shards[k].rows, alias);
        QueryRow(cm.shards[k], AliasColumn, alias)
  }

  /** The per-shard query of `FindByOriginalUrl`. */
  function QueryByUrl(url: string): Shard -> Result<Option<UrlAlias>, Error> {
    s => QueryRow(s, UrlColumn, url)
  }

  /** Whether an online shard holds a row for `url`. */
  predicate HoldsUrl(s: Shard, url: string) {
    exists i :: 0 <= i < |s.rows| && s.rows[i].originalUrl == url
  }

  /** `FindByOriginalUrl`: no single shard owns a URL, so every shard is
      asked in index order (fail-fast fan-out). */
  function FindByOriginalUrl(d: UrlAliasDao, url: string): (r: Result<Option<UrlAlias>, Error>)
    ensures d.connManager.None? ==> r == Failure(NotInitialized)
    ensures d.connManager.Some? ==>
      var shards := d.connManager.value.shards;
      && (r == Success(None) <==> forall k :: 0 <= k < |shards| ==> shards[k].online && !HoldsUrl(shards[k], url))
      && (r.Failure? ==> r == Failure(ShardUnavailable))
      && (r.Success? && r.value.Some? ==>
            && r.value.value.originalUrl == url
            && exists k :: 0 <= k < |shards| && r.value.value in shards[k].rows)
  {
    match d.connManager
    case None => Failure(NotInitialized)
    case Some(cm) =>
      var r := Router.ForEachWithResult(cm.shards, QueryByUrl(url));
      assert forall k :: 0 <= k < |cm.shards| ==> QueryByUrl(url)(cm.shards[k]) == QueryRow(cm.shards[k], UrlColumn, url);
      r
  }

  // ---------------------------------------------------------------------
  // Properties
  // ---------------------------------------------------------------------

  /** Create then point lookup: both route on the same alias, so the lookup
      finds exactly the row that was created. */
  lemma CreateThenFindByAlias(d: UrlAliasDao, alias: string, url: string, now: Timestamp)
    requires CanRoute(d, alias)
    requires CreateUrlAlias(d, alias, url, now).0.Success?
    ensures CanRoute(CreateUrlAlias(d, alias, url, now).1, alias)
    ensures FindByAlias(CreateUrlAlias(d, alias, url, now).1, alias)
         == Success(Some(CreateUrlAlias(d, alias, url, now).0.value))
  {
    var (res, d') := CreateUrlAlias(d, alias, url, now);
    var cm := d.connManager.value;
    var k := Owner(cm, alias);
    SelectByAliasIsMapLookup(cm.shards[k].rows, alias);
    SelectFirstAppend(cm.shards[k].rows, res.value, AliasColumn, alias);
  }

  /** Every row is found by point lookup: the placement invariant puts it on
      the shard that routing consults. */
  lemma PlacedRowsAreFound(d: UrlAliasDao, k: nat, i: nat)
    requires WellFormed(d) && d.connManager.Some?
    requires k < |d.connManager.value.shards| && d.connManager.value.shards[k].online
    requires i < |d.connManager.value.shards[k].rows|
    ensures var row := d.connManager.value.shards[k].rows[i];
      CanRoute(d, row.alias) && FindByAlias(d, row.alias) == Success(Some(row))
  {
    var rows := d.connManager.value.shards[k].rows;
    var row := rows[i];
    var r := SelectFirst(rows, AliasColumn, row.alias);
    assert r.Some?;
    var i' :| 0 <= i' < |rows| && rows[i'] == r.value && Matches(rows[i'], AliasColumn, row.alias);
    assert i' == i;
  }

  /** `FindByOriginalUrl` answers with the first `url` row of the LOWEST-index
      shard that holds one, provided every shard before it answered. */
  lemma FindByOriginalUrlLowestShard(d: UrlAliasDao, url: string, k: nat)
    requires d.connManager.Some?
    requires var shards := d.connManager.value.shards;
      && k < |shards| && shards[k].online && HoldsUrl(shards[k], url)
      && forall j :: 0 <= j < k ==> shards[j].online && !HoldsUrl(shards[j], url)
    ensures var shards := d.connManager.value.shards;
      FindByOriginalUrl(d, url) == Success(SelectFirst(shards[k].rows, UrlColumn, url))
      && SelectFirst(shards[k].rows, UrlColumn, url).Some?
  {
    var shards := d.connManager.value.shards;
    var fn := QueryByUrl(url);
    assert Router.AllAbsentBefore(shards, fn, k) by {
      forall j | 0 <= j < k ensures fn(shards[j]).Success? && fn(shards[j]).value.None? {
        assert fn(shards[j]) == QueryRow(shards[j], UrlColumn, url);
      }
    }
    assert fn(shards[k]) == QueryRow(shards[k], UrlColumn, url);
    Router.ScanStopsAtFirstDecisive(shards, fn, k);
  }

  /** Fail-fast fan-out: an unreachable shard before the first holder of the
      URL fails the whole lookup, although a later shard would have matched. */
  lemma FindByOriginalUrlFailsFast(d: UrlAliasDao, url: string, k: nat)
    requires d.connManager.Some?
    requires var shards := d.connManager.value.shards;
      && k < |shards| && !shards[k].online
      && forall j :: 0 <= j < k ==> shards[j].online && !HoldsUrl(shards[j], url)
    ensures FindByOriginalUrl(d, url) == Failure(ShardUnavailable)
  {
    var shards := d.connManager.value.shards;
    var fn := QueryByUrl(url);
    assert Router.AllAbsentBefore(shards, fn, k) by {
      forall j | 0 <= j < k ensures fn(shards[j]).Success? && fn(shards[j]).value.None? {
        assert fn(shards[j]) == QueryRow(shards[j], UrlColumn, url);
      }
    }
    assert fn(shards[k]) == QueryRow(shards[k], UrlColumn, url);
    Router.ScanStopsAtFirstDecisive(shards, fn, k);
  }

  /** The accepted race: two creates for one URL that both saw "absent" both
      succeed (with distinct aliases on reachable, free owning shards), and the
      URL then has two aliases. */
  lemma TwoAliasesForOneUrl(d: UrlAliasDao, a1: string, a2: string, url: string, t1: Timestamp, t2: Timestamp)
    requires WellFormed(d) && d.connManager.Some? && |d.connManager.value.shards| > 0
    requires a1 != "" && a2 != "" && a1 != a2
    requires var cm := d.connManager.value;
      && cm.shards[Owner(cm, a1)].online && a1 !in AliasMap(cm.shards[Owner(cm, a1)].rows)
      && cm.shards[Owner(cm, a2)].online && a2 !in AliasMap(cm.shards[Owner(cm, a2)].rows)
    ensures var (r1, d1) := CreateUrlAlias(d, a1, url, t1);
      && r1.Success? && CanRoute(d1, a2)
      && var (r2, d2) := CreateUrlAlias(d1, a2, url, t2);
         && r2.Success?
         && CanRoute(d2, a1) && CanRoute(d2, a2)
         && FindByAlias(d2, a1) == Success(Some(r1.value))
         && FindByAlias(d2, a2) == Success(Some(r2.value))
         && r1.value.originalUrl == r2.value.originalUrl == url
  {
    var cm := d.connManager.value;
    var (r1, d1) := CreateUrlAlias(d, a1, url, t1);
    var cm1 := d1.connManager.value;
    var k1 := Owner(cm, a1);
    var k2 := Owner(cm, a2);
    assert cm1.shards[k2].online;
    assert a2 !in AliasMap(cm1.shards[k2].rows) by {
      if k1 == k2 {
        SelectByAliasIsMapLookup(cm.shards[k2].rows, a2);
        SelectFirstAppend(cm.shards[k2].rows, r1.value, AliasColumn, a2);
        SelectByAliasIsMapLookup(cm1.shards[k2].rows, a2);
      }
    }
    var (r2, d2) := CreateUrlAlias(d1, a2, url, t2);
    CreateThenFindByAlias(d1, a2, url, t2);
    CreateThenFindByAlias(d, a1, url, t1);
    var cm2 := d2.connManager.value;
    assert FindByAlias(d2, a1) == Success(Some(r1.value)) by {
      assert cm2.shards[k1].rows == cm1.shards[k1].rows
          || cm2.shards[k1].rows == cm1.shards[k1].rows + [r2.value];
      SelectFirstAppend(cm1.shards[k1].rows, r2.value, AliasColumn, a1);
    }
  }
}
