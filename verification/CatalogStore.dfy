/** The pool tables of one provider: internal/store/catalog.go. Rows are identified by their unique key;
    the content hash is a parameter, and nothing here needs it to be free of collisions. */
module CatalogStore {
  import opened Domain

  type Hash = string -> string

  datatype RowKey = RowKey(pool: int, timeMillis: int, contentHash: string)

  datatype Row = Row(content: string, data: DanmakuData, blocked: bool, created: int, updated: int)

  datatype PoolTimes = PoolTimes(lastAttempt: Option<int>, lastSync: Option<int>, updated: int)

  datatype Tables = Tables(pools: map<int, PoolTimes>, rows: map<RowKey, Row>)

  datatype MergeResult = Merged(tables: Tables, inserted: nat) | Failed

  // ----- specification -----

  /** Rounds to the nearest integer, halves away from zero. */
  function Round(x: real): int {
    if x >= 0.0 then (x + 0.5).Floor else -(-x + 0.5).Floor
  }

  function KeyOf(hash: Hash, pool: int, item: DanmakuData): RowKey
    requires item.time.Finite?
  {
    RowKey(pool, Round(item.time.value * 1000.0), hash(PointerValue(item.text)))
  }

  /** The items that can be encoded: JSON has no infinities and no NaN. */
  predicate Encodable(items: seq<DanmakuData>) {
    forall item | item in items :: item.time.Finite?
  }

  function NewRow(item: DanmakuData, now: int): Row {
    Row(PointerValue(item.text), item, false, now, now)
  }

  function InsertOrIgnore(rows: map<RowKey, Row>, key: RowKey, row: Row): map<RowKey, Row> {
    if key in rows then rows else rows[key := row]
  }

  ghost function MergeRows(hash: Hash, rows: map<RowKey, Row>, pool: int, items: seq<DanmakuData>, now: int)
    : map<RowKey, Row>
    requires Encodable(items)
  {
    if items == [] then rows
    else
      var last := items[|items| - 1];
      InsertOrIgnore(MergeRows(hash, rows, pool, items[..|items| - 1], now), KeyOf(hash, pool, last), NewRow(last, now))
  }

  function Touch(pools: map<int, PoolTimes>, pool: int, now: int): map<int, PoolTimes> {
    if pool in pools then pools[pool := pools[pool].(lastSync := Some(now), updated := now)] else pools
  }

  /** A merge fails as a whole for an item that cannot be encoded and for rows of a pool that does not exist. */
  predicate Accepts(pools: set<int>, pool: int, items: seq<DanmakuData>) {
    Encodable(items) && (items == [] || pool in pools)
  }

  ghost function Merge(hash: Hash, tables: Tables, pool: int, items: seq<DanmakuData>, now: int): MergeResult {
    if !Accepts(tables.pools.Keys, pool, items) then Failed
    else
      var rows := MergeRows(hash, tables.rows, pool, items, now);
      MergeGrows(hash, tables.rows, pool, items, now);
      Merged(Tables(Touch(tables.pools, pool, now), rows), |rows| - |tables.rows|)
  }

  /** An attempt is due when it is forced, the first, or the interval after the last granted one. */
  predicate Due(last: Option<int>, now: int, interval: int, force: bool) {
    force || last.None? || last.value <= now - interval
  }

  predicate Claims(tables: Tables, pool: int, now: int, interval: int, force: bool) {
    pool in tables.pools && Due(tables.pools[pool].lastAttempt, now, interval, force)
  }

  function Claim(tables: Tables, pool: int, now: int, interval: int, force: bool): Tables {
    if Claims(tables, pool, now, interval, force)
    then tables.(pools := tables.pools[pool := tables.pools[pool].(lastAttempt := Some(now), updated := now)])
    else tables
  }

  function SetBlocked(tables: Tables, key: RowKey, blocked: bool, now: int): Tables {
    if key in tables.rows
    then tables.(rows := tables.rows[key := tables.rows[key].(blocked := blocked, updated := now)])
    else tables
  }

  lemma {:induction false} MergeGrows(hash: Hash, rows: map<RowKey, Row>, pool: int, items: seq<DanmakuData>, now: int)
    requires Encodable(items)
    ensures var merged := MergeRows(hash, rows, pool, items, now);
            && rows.Keys <= merged.Keys && |rows| <= |merged|
            && forall key | key in rows :: merged[key] == rows[key]
  {
    if items != [] {
      MergeGrows(hash, rows, pool, items[..|items| - 1], now);
    }
  }

  // ----- all histories -----

  datatype Operation =
    | MergeItems(pool: int, items: seq<DanmakuData>, mergedAt: int)
    | Block(key: RowKey, blocked: bool, blockedAt: int)
    | ClaimPool(pool: int, now: int, interval: int, force: bool)

  ghost function Run(hash: Hash, tables: Tables, operation: Operation): Tables {
    match operation
    case MergeItems(pool, items, now) =>
      var result := Merge(hash, tables, pool, items, now);
      if result.Merged? then result.tables else tables
    case Block(key, blocked, now) => SetBlocked(tables, key, blocked, now)
    case ClaimPool(pool, now, interval, force) => Claim(tables, pool, now, interval, force)
  }

  ghost function After(hash: Hash, tables: Tables, history: seq<Operation>): Tables {
    if history == [] then tables
    else Run(hash, After(hash, tables, history[..|history| - 1]), history[|history| - 1])
  }

  /** The inserts one operation reports. */
  ghost function Reported(hash: Hash, tables: Tables, operation: Operation): nat {
    if operation.MergeItems? then
      var result := Merge(hash, tables, operation.pool, operation.items, operation.mergedAt);
      if result.Merged? then result.inserted else 0
    else 0
  }

  ghost function ReportedSum(hash: Hash, tables: Tables, history: seq<Operation>): nat {
    if history == [] then 0
    else
      var front := history[..|history| - 1];
      ReportedSum(hash, tables, front) + Reported(hash, After(hash, tables, front), history[|history| - 1])
  }

  /** The first item of a list with this key. */
  ghost function FirstWith(hash: Hash, pool: int, items: seq<DanmakuData>, key: RowKey): Option<DanmakuData>
    requires Encodable(items)
  {
    if items == [] then None
    else if KeyOf(hash, pool, items[0]) == key then Some(items[0])
    else FirstWith(hash, pool, items[1..], key)
  }

  /** The life of one row, told without the tables: the first accepted item with its key creates it, blocking
      changes its flag, and nothing else touches it. */
  ghost function RowAfter(hash: Hash, pools: set<int>, history: seq<Operation>, key: RowKey): Option<Row> {
    if history == [] then None
    else
      var before := RowAfter(hash, pools, history[..|history| - 1], key);
      match history[|history| - 1]
      case MergeItems(pool, items, now) =>
        if before.Some? || !Accepts(pools, pool, items) then before
        else
          (match FirstWith(hash, pool, items, key)
           case None => None
           case Some(item) => Some(NewRow(item, now)))
      case Block(blockedKey, blocked, now) =>
        if blockedKey == key && before.Some? then Some(before.value.(blocked := blocked, updated := now)) else before
      case ClaimPool(_, _, _, _) => before
  }

  ghost function Lookup(rows: map<RowKey, Row>, key: RowKey): Option<Row> {
    if key in rows then Some(rows[key]) else None
  }

  lemma {:induction false} FirstWithAppend(hash: Hash, pool: int, items: seq<DanmakuData>, last: DanmakuData,
                                           key: RowKey)
    requires Encodable(items + [last]) && Encodable(items) && last.time.Finite?
    ensures FirstWith(hash, pool, items + [last], key) ==
              if FirstWith(hash, pool, items, key).Some? then FirstWith(hash, pool, items, key)
              else if KeyOf(hash, pool, last) == key then Some(last) else None
  {
    if items != [] {
      assert (items + [last])[1..] == items[1..] + [last];
      FirstWithAppend(hash, pool, items[1..], last, key);
    }
  }

  lemma {:induction false} MergeLookup(hash: Hash, rows: map<RowKey, Row>, pool: int, items: seq<DanmakuData>,
                                       now: int, key: RowKey)
    requires Encodable(items)
    ensures Lookup(MergeRows(hash, rows, pool, items, now), key) ==
              if key in rows then Some(rows[key])
              else
                match FirstWith(hash, pool, items, key)
                case None => None
                case Some(item) => Some(NewRow(item, now))
  {
    if items != [] {
      var front, last := items[..|items| - 1], items[|items| - 1];
      MergeLookup(hash, rows, pool, front, now, key);
      assert items == front + [last];
      FirstWithAppend(hash, pool, front, last, key);
    }
  }

  /** The times of one pool, told without the tables: a due claim sets the last attempt, an accepted merge the
      last synchronization. */
  ghost function PoolAfter(initial: map<int, PoolTimes>, history: seq<Operation>, pool: int): PoolTimes
    requires pool in initial
  {
    if history == [] then initial[pool]
    else
      var before := PoolAfter(initial, history[..|history| - 1], pool);
      match history[|history| - 1]
      case ClaimPool(claimed, now, interval, force) =>
        if claimed == pool && Due(before.lastAttempt, now, interval, force)
        then before.(lastAttempt := Some(now), updated := now)
        else before
      case MergeItems(merged, items, now) =>
        if merged == pool && Accepts(initial.Keys, merged, items) then before.(lastSync := Some(now), updated := now)
        else before
      case Block(_, _, _) => before
  }

  /** The tables hold exactly what the history tells of every pool and every row. */
  ghost predicate Represents(hash: Hash, initial: map<int, PoolTimes>, tables: Tables, history: seq<Operation>) {
    && tables.pools.Keys == initial.Keys
    && (forall pool | pool in initial :: tables.pools[pool] == PoolAfter(initial, history, pool))
    && (forall key :: Lookup(tables.rows, key) == RowAfter(hash, initial.Keys, history, key))
  }

  lemma MergeRepresents(hash: Hash, initial: map<int, PoolTimes>, tables: Tables, history: seq<Operation>,
                        pool: int, items: seq<DanmakuData>, now: int)
    requires Represents(hash, initial, tables, history)
    ensures Represents(hash, initial, Run(hash, tables, MergeItems(pool, items, now)),
                       history + [MergeItems(pool, items, now)])
  {
    var longer := history + [MergeItems(pool, items, now)];
    assert longer[..|longer| - 1] == history;
    if Accepts(initial.Keys, pool, items) {
      forall key
        ensures Lookup(MergeRows(hash, tables.rows, pool, items, now), key) == RowAfter(hash, initial.Keys, longer, key)
      {
        MergeLookup(hash, tables.rows, pool, items, now, key);
        assert Lookup(tables.rows, key) == RowAfter(hash, initial.Keys, history, key);
      }
    }
  }

  lemma RunRepresents(hash: Hash, initial: map<int, PoolTimes>, tables: Tables, history: seq<Operation>,
                      operation: Operation)
    requires Represents(hash, initial, tables, history)
    ensures Represents(hash, initial, Run(hash, tables, operation), history + [operation])
  {
    var longer := history + [operation];
    assert longer[..|longer| - 1] == history;
    if operation.MergeItems? {
      MergeRepresents(hash, initial, tables, history, operation.pool, operation.items, operation.mergedAt);
    }
  }

  /** The history leaves no freedom in the tables. */
  lemma TablesDetermined(hash: Hash, initial: map<int, PoolTimes>, a: Tables, b: Tables, history: seq<Operation>)
    requires Represents(hash, initial, a, history) && Represents(hash, initial, b, history)
    ensures a == b
  {
    forall key
      ensures key in a.rows <==> key in b.rows
      ensures key in a.rows ==> a.rows[key] == b.rows[key]
    {
      assert Lookup(a.rows, key) == RowAfter(hash, initial.Keys, history, key) == Lookup(b.rows, key);
    }
    assert a.rows == b.rows;
    assert a.pools.Keys == b.pools.Keys;
    forall pool | pool in a.pools
      ensures a.pools[pool] == b.pools[pool]
    {
      assert pool in a.pools.Keys;
    }
    assert a.pools == b.pools;
  }

  /** After any history every row is exactly what its own life story says: the first version of a key wins,
      manual blocks survive every merge, and the keys are those of all accepted merges. */
  lemma {:induction false} RowsFollowTheirHistory(hash: Hash, pools: map<int, PoolTimes>, history: seq<Operation>)
    ensures Represents(hash, pools, After(hash, Tables(pools, map[]), history), history)
  {
    if history != [] {
      var front, last := history[..|history| - 1], history[|history| - 1];
      RowsFollowTheirHistory(hash, pools, front);
      RunRepresents(hash, pools, After(hash, Tables(pools, map[]), front), front, last);
      assert front + [last] == history;
    }
  }

  /** Some accepted merge of the history brings this key. */
  ghost predicate Brings(hash: Hash, pools: set<int>, operation: Operation, key: RowKey) {
    && operation.MergeItems? && Accepts(pools, operation.pool, operation.items)
    && exists item :: item in operation.items && KeyOf(hash, operation.pool, item) == key
  }

  lemma {:induction false} FirstWithFinds(hash: Hash, pool: int, items: seq<DanmakuData>, key: RowKey)
    requires Encodable(items)
    ensures FirstWith(hash, pool, items, key).Some? <==> exists item :: item in items && KeyOf(hash, pool, item) == key
  {
    if items != [] {
      FirstWithFinds(hash, pool, items[1..], key);
      assert items == [items[0]] + items[1..];
    }
  }

  /** The keys after any history are the union of the keys of all accepted merges. */
  lemma {:induction false} KeysAreTheUnion(hash: Hash, pools: map<int, PoolTimes>, history: seq<Operation>, key: RowKey)
    ensures key in After(hash, Tables(pools, map[]), history).rows <==>
            exists operation :: operation in history && Brings(hash, pools.Keys, operation, key)
  {
    RowsFollowTheirHistory(hash, pools, history);
    assert Lookup(After(hash, Tables(pools, map[]), history).rows, key) == RowAfter(hash, pools.Keys, history, key);
    if history != [] {
      var front, last := history[..|history| - 1], history[|history| - 1];
      KeysAreTheUnion(hash, pools, front, key);
      RowsFollowTheirHistory(hash, pools, front);
      assert Lookup(After(hash, Tables(pools, map[]), front).rows, key) == RowAfter(hash, pools.Keys, front, key);
      assert history == front + [last];
      if last.MergeItems? && Accepts(pools.Keys, last.pool, last.items) {
        FirstWithFinds(hash, last.pool, last.items, key);
      }
      assert Brings(hash, pools.Keys, last, key) ==> RowAfter(hash, pools.Keys, history, key).Some?;
    }
  }

  /** The reported inserts add up to the growth of the table. */
  lemma {:induction false} ReportsAddUp(hash: Hash, tables: Tables, history: seq<Operation>)
    ensures |After(hash, tables, history).rows| == |tables.rows| + ReportedSum(hash, tables, history)
  {
    if history != [] {
      ReportsAddUp(hash, tables, history[..|history| - 1]);
    }
  }

  /** Merging what is already there inserts nothing and changes no row. */
  lemma RemergeInsertsNothing(hash: Hash, tables: Tables, pool: int, items: seq<DanmakuData>, now: int, later: int)
    requires Merge(hash, tables, pool, items, now).Merged?
    ensures var again := Merge(hash, Merge(hash, tables, pool, items, now).tables, pool, items, later);
            && again.Merged? && again.inserted == 0
            && again.tables.rows == Merge(hash, tables, pool, items, now).tables.rows
  {
    var rows := MergeRows(hash, tables.rows, pool, items, now);
    var again := MergeRows(hash, rows, pool, items, later);
    MergeGrows(hash, rows, pool, items, later);
    forall key | key in again
      ensures key in rows
    {
      MergeLookup(hash, tables.rows, pool, items, now, key);
      MergeLookup(hash, rows, pool, items, later, key);
    }
    assert again == rows;
  }

  // ----- what the tables hold, told of the items alone -----

  /** The integer nearest to x, with halves away from zero. */
  predicate Nearest(n: int, x: real) {
    if x >= 0.0 then n as real - 0.5 <= x < n as real + 0.5 else n as real - 0.5 < x <= n as real + 0.5
  }

  lemma RoundIsNearest(n: int, x: real)
    ensures n == Round(x) <==> Nearest(n, x)
  {
    if x >= 0.0 {
      FloorMeaning(n, x + 0.5);
    } else {
      FloorMeaning(-n, -x + 0.5);
    }
  }

  lemma FloorMeaning(n: int, x: real)
    ensures n == x.Floor <==> n as real <= x < n as real + 1.0
  {
  }

  /** A key stands for a pool, the nearest millisecond and the hash of a text. */
  lemma KeyMeaning(hash: Hash, pool: int, item: DanmakuData, key: RowKey)
    requires item.time.Finite?
    ensures KeyOf(hash, pool, item) == key <==>
              (key.pool == pool && key.contentHash == hash(PointerValue(item.text))
               && Nearest(key.timeMillis, item.time.value * 1000.0))
  {
    hide Round, Nearest;
    RoundIsNearest(key.timeMillis, item.time.value * 1000.0);
  }

  lemma {:induction false} FirstWithIs(hash: Hash, pool: int, items: seq<DanmakuData>, key: RowKey) returns (i: nat)
    requires Encodable(items) && FirstWith(hash, pool, items, key).Some?
    ensures i < |items| && FirstWith(hash, pool, items, key) == Some(items[i])
    ensures KeyOf(hash, pool, items[i]) == key && forall j | 0 <= j < i :: KeyOf(hash, pool, items[j]) != key
  {
    if KeyOf(hash, pool, items[0]) == key {
      i := 0;
    } else {
      var k := FirstWithIs(hash, pool, items[1..], key);
      i := k + 1;
      forall j | 0 <= j < i
        ensures KeyOf(hash, pool, items[j]) != key
      {
        if j > 0 {
          assert items[j] == items[1..][j - 1];
        }
      }
    }
  }

  /** Every row that a merge adds is the first item of its key, starting unblocked. */
  lemma AddedRow(hash: Hash, rows: map<RowKey, Row>, pool: int, items: seq<DanmakuData>, now: int, key: RowKey)
    returns (i: nat)
    requires Encodable(items)
    requires key !in rows && key in MergeRows(hash, rows, pool, items, now)
    ensures i < |items| && key.pool == pool && key.contentHash == hash(PointerValue(items[i].text))
    ensures Nearest(key.timeMillis, items[i].time.value * 1000.0)
    ensures MergeRows(hash, rows, pool, items, now)[key] == Row(PointerValue(items[i].text), items[i], false, now, now)
    ensures forall j | 0 <= j < i ::
              hash(PointerValue(items[j].text)) == key.contentHash ==>
                !Nearest(key.timeMillis, items[j].time.value * 1000.0)
  {
    hide MergeRows, FirstWith, Nearest, KeyOf;
    MergeLookup(hash, rows, pool, items, now, key);
    i := FirstWithIs(hash, pool, items, key);
    KeyMeaning(hash, pool, items[i], key);
    forall j | 0 <= j < i
      ensures hash(PointerValue(items[j].text)) == key.contentHash ==>
                !Nearest(key.timeMillis, items[j].time.value * 1000.0)
    {
      KeyMeaning(hash, pool, items[j], key);
    }
  }

  /** Every merged item has a row under its own millisecond and its own text. */
  lemma ItemHasRow(hash: Hash, rows: map<RowKey, Row>, pool: int, items: seq<DanmakuData>, now: int, i: nat)
    returns (key: RowKey)
    requires Encodable(items) && i < |items|
    ensures key in MergeRows(hash, rows, pool, items, now)
    ensures key.pool == pool && key.contentHash == hash(PointerValue(items[i].text))
    ensures Nearest(key.timeMillis, items[i].time.value * 1000.0)
  {
    hide MergeRows, FirstWith, Nearest, KeyOf;
    key := KeyOf(hash, pool, items[i]);
    KeyMeaning(hash, pool, items[i], key);
    MergeLookup(hash, rows, pool, items, now, key);
    FirstWithFinds(hash, pool, items, key);
  }

  /** Different texts at one time stay apart as far as the hash tells them apart. */
  lemma TextsStayApart(hash: Hash, tables: Tables, pool: int, items: seq<DanmakuData>, now: int, i: nat, j: nat)
    returns (a: RowKey, b: RowKey)
    requires i < |items| && j < |items| && items[i].time == items[j].time
    requires hash(PointerValue(items[i].text)) != hash(PointerValue(items[j].text))
    requires Merge(hash, tables, pool, items, now).Merged?
    ensures a != b && a in Merge(hash, tables, pool, items, now).tables.rows
    ensures b in Merge(hash, tables, pool, items, now).tables.rows
    ensures a.pool == b.pool == pool && a.timeMillis == b.timeMillis
  {
    hide MergeRows, Nearest, Round;
    a := ItemHasRow(hash, tables.rows, pool, items, now, i);
    b := ItemHasRow(hash, tables.rows, pool, items, now, j);
    RoundIsNearest(a.timeMillis, items[i].time.value * 1000.0);
    RoundIsNearest(b.timeMillis, items[j].time.value * 1000.0);
  }

  // ----- the program -----

  class Store {
    const hash: Hash
    var pools: map<int, PoolTimes>
    var rows: map<RowKey, Row>
    ghost const initial: map<int, PoolTimes>
    ghost var history: seq<Operation>

    ghost function Contents(): Tables
      reads this
    {
      Tables(pools, rows)
    }

    ghost predicate Valid()
      reads this
    {
      Represents(hash, initial, Contents(), history)
    }

    constructor (hash: Hash, pools: map<int, PoolTimes>)
      ensures Valid() && history == [] && initial == pools && this.hash == hash
    {
      this.hash, this.pools, rows := hash, pools, map[];
      initial, history := pools, [];
    }

    /** Granted exactly when due after the last grant of the history. */
    method ClaimCatalogPoolSync(pool: int, now: int, interval: int, force: bool) returns (claimed: bool)
      requires Valid()
      modifies `pools, `history
      ensures Valid() && history == old(history) + [ClaimPool(pool, now, interval, force)]
      ensures claimed <==>
                pool in initial && Due(PoolAfter(initial, old(history), pool).lastAttempt, now, interval, force)
      ensures claimed <==>
                (pool in old(pools) && (force || old(pools[pool].lastAttempt).None?
                                        || old(pools[pool].lastAttempt).value <= now - interval))
      ensures pools ==
                if claimed then old(pools)[pool := PoolTimes(Some(now), old(pools)[pool].lastSync, now)]
                else old(pools)
    {
      RunRepresents(hash, initial, Contents(), history, ClaimPool(pool, now, interval, force));
      history := history + [ClaimPool(pool, now, interval, force)];
      if pool !in pools {
        return false;
      }
      var times := pools[pool];
      claimed := force || times.lastAttempt.None? || times.lastAttempt.value <= now - interval;
      if claimed {
        pools := pools[pool := times.(lastAttempt := Some(now), updated := now)];
      }
    }

    /** All or nothing, and reports by how many rows the table has grown. */
    method MergeCatalogDanmaku(pool: int, items: seq<DanmakuData>, now: int) returns (inserted: Option<nat>)
      requires Valid()
      modifies `pools, `rows, `history
      ensures Valid() && history == old(history) + [MergeItems(pool, items, now)]
      ensures inserted.Some? <==>
                ((items == [] || pool in old(pools)) && forall i | 0 <= i < |items| :: items[i].time.Finite?)
      ensures |rows| == |old(rows)| + if inserted.Some? then inserted.value else 0
      ensures inserted == None ==> Contents() == old(Contents())
      ensures inserted.Some? ==>
                pools == if pool in old(pools)
                         then old(pools)[pool := PoolTimes(old(pools)[pool].lastAttempt, Some(now), now)]
                         else old(pools)
      ensures forall key | key in old(rows) :: key in rows && rows[key] == old(rows)[key]
      ensures forall key | key in rows && key !in old(rows) ::
                exists i ::
                  && 0 <= i < |items| && items[i].time.Finite?
                  && rows[key] == Row(PointerValue(items[i].text), items[i], false, now, now)
                  && key.pool == pool && key.contentHash == hash(PointerValue(items[i].text))
                  && Nearest(key.timeMillis, items[i].time.value * 1000.0)
                  && forall j | 0 <= j < i && hash(PointerValue(items[j].text)) == key.contentHash ::
                       items[j].time.Finite? && !Nearest(key.timeMillis, items[j].time.value * 1000.0)
      ensures inserted.Some? ==> forall i | 0 <= i < |items| ::
                exists key ::
                  && key in rows && key.pool == pool && key.contentHash == hash(PointerValue(items[i].text))
                  && Nearest(key.timeMillis, items[i].time.value * 1000.0)
    {
      RunRepresents(hash, initial, Contents(), history, MergeItems(pool, items, now));
      history := history + [MergeItems(pool, items, now)];
      if !Accepts(pools.Keys, pool, items) {
        return None;
      }
      ghost var stored := rows;
      MergeGrows(hash, stored, pool, items, now);
      var count;
      rows, count := InsertAll(rows, pool, items, now);
      pools := Touch(pools, pool, now);
      hide MergeRows, Nearest, Represents;
      forall key | key in rows && key !in stored
        ensures exists i ::
                  && 0 <= i < |items|
                  && rows[key] == Row(PointerValue(items[i].text), items[i], false, now, now)
                  && key.pool == pool && key.contentHash == hash(PointerValue(items[i].text))
                  && Nearest(key.timeMillis, items[i].time.value * 1000.0)
                  && forall j | 0 <= j < i && hash(PointerValue(items[j].text)) == key.contentHash ::
                       !Nearest(key.timeMillis, items[j].time.value * 1000.0)
      {
        var i := AddedRow(hash, stored, pool, items, now, key);
      }
      forall i | 0 <= i < |items|
        ensures exists key ::
                  && key in rows && key.pool == pool && key.contentHash == hash(PointerValue(items[i].text))
                  && Nearest(key.timeMillis, items[i].time.value * 1000.0)
      {
        var key := ItemHasRow(hash, stored, pool, items, now, i);
      }
      return Some(count);
    }

    /** The batch of inserts, each ignored when its key is there. */
    method InsertAll(stored: map<RowKey, Row>, pool: int, items: seq<DanmakuData>, now: int)
      returns (merged: map<RowKey, Row>, count: nat)
      requires Encodable(items)
      ensures merged == MergeRows(hash, stored, pool, items, now)
      ensures |merged| == |stored| + count
    {
      merged, count := stored, 0;
      for n := 0 to |items|
        invariant merged == MergeRows(hash, stored, pool, items[..n], now)
        invariant |merged| == |stored| + count
      {
        assert items[..n + 1][..n] == items[..n];
        var key := KeyOf(hash, pool, items[n]);
        if key !in merged {
          merged := merged[key := NewRow(items[n], now)];
          count := count + 1;
        }
      }
      assert items[..|items|] == items;
    }

    /** Reaches exactly the rows that the history has created, one at a time. */
    method SetCatalogDanmakuBlocked(key: RowKey, blocked: bool, now: int) returns (found: bool)
      requires Valid()
      modifies `rows, `history
      ensures Valid() && history == old(history) + [Block(key, blocked, now)]
      ensures found <==> RowAfter(hash, initial.Keys, old(history), key).Some?
      ensures found <==> key in old(rows)
      ensures rows ==
                if found
                then
                  (var row := old(rows)[key]; old(rows)[key := Row(row.content, row.data, blocked, row.created, now)])
                else old(rows)
    {
      assert Lookup(rows, key) == RowAfter(hash, initial.Keys, history, key);
      RunRepresents(hash, initial, Contents(), history, Block(key, blocked, now));
      history := history + [Block(key, blocked, now)];
      found := key in rows;
      if found {
        rows := rows[key := rows[key].(blocked := blocked, updated := now)];
      }
    }
  }

  // ----- claims over time -----

  datatype Attempt = Attempt(now: int, force: bool)

  /** The times of the attempts on one pool that win, with whether they were forced. */
  ghost function Wins(last: Option<int>, attempts: seq<Attempt>, interval: int): seq<Attempt>
    decreases |attempts|
  {
    if attempts == [] then []
    else
      var a := attempts[0];
      if Due(last, a.now, interval, a.force)
      then [a] + Wins(Some(a.now), attempts[1..], interval)
      else Wins(last, attempts[1..], interval)
  }

  /** The attempts that the store grants, one after the other. */
  ghost function Granted(tables: Tables, pool: int, attempts: seq<Attempt>, interval: int): seq<Attempt>
    decreases |attempts|
  {
    if attempts == [] then []
    else
      var a := attempts[0];
      (if Claims(tables, pool, a.now, interval, a.force) then [a] else [])
      + Granted(Claim(tables, pool, a.now, interval, a.force), pool, attempts[1..], interval)
  }

  /** The store grants exactly these wins. */
  lemma {:induction false} GrantedAreWins(tables: Tables, pool: int, attempts: seq<Attempt>, interval: int)
    requires pool in tables.pools
    ensures Granted(tables, pool, attempts, interval) == Wins(tables.pools[pool].lastAttempt, attempts, interval)
    decreases |attempts|
  {
    if attempts != [] {
      var a := attempts[0];
      GrantedAreWins(Claim(tables, pool, a.now, interval, a.force), pool, attempts[1..], interval);
    }
  }

  lemma {:induction false} WinsSpaced(last: Option<int>, attempts: seq<Attempt>, interval: int, i: nat)
    requires i < |Wins(last, attempts, interval)| && !Wins(last, attempts, interval)[i].force
    ensures i == 0 && last.Some? ==> Wins(last, attempts, interval)[0].now >= last.value + interval
    ensures i > 0 ==> Wins(last, attempts, interval)[i].now >= Wins(last, attempts, interval)[i - 1].now + interval
    decreases attempts
  {
    var a := attempts[0];
    if Due(last, a.now, interval, a.force) {
      if i > 0 {
        WinsSpaced(Some(a.now), attempts[1..], interval, i - 1);
      }
    } else {
      WinsSpaced(last, attempts[1..], interval, i);
    }
  }

  lemma {:induction false} SpacedTimes(wins: seq<Attempt>, interval: nat)
    requires wins != []
    requires forall i | 0 < i < |wins| :: wins[i].now >= wins[i - 1].now + interval
    ensures wins[|wins| - 1].now >= wins[0].now + (|wins| - 1) * interval
  {
    if |wins| > 1 {
      var front := wins[..|wins| - 1];
      SpacedTimes(front, interval);
      assert (|wins| - 1) * interval == (|front| - 1) * interval + interval;
    }
  }

  /** With a positive interval, unforced claims in a span T number at most 1 + T / interval, whatever the
      order of the clock readings. */
  lemma ClaimsAreBounded(tables: Tables, pool: int, attempts: seq<Attempt>, interval: nat, start: int, span: nat)
    requires pool in tables.pools && interval > 0
    requires forall a | a in attempts :: !a.force && start <= a.now <= start + span
    ensures |Granted(tables, pool, attempts, interval)| <= 1 + span / interval
  {
    GrantedAreWins(tables, pool, attempts, interval);
    var last := tables.pools[pool].lastAttempt;
    var wins := Wins(last, attempts, interval);
    if wins != [] {
      WinsAreAttempts(last, attempts, interval);
      forall i | 0 < i < |wins|
        ensures wins[i].now >= wins[i - 1].now + interval
      {
        assert wins[i] in wins;
        WinsSpaced(last, attempts, interval, i);
      }
      SpacedTimes(wins, interval);
      assert wins[0] in wins && wins[|wins| - 1] in wins;
      DivisionBound(|wins| - 1, interval, span);
    }
  }

  lemma DivisionBound(n: nat, d: nat, span: nat)
    requires d > 0 && n * d <= span
    ensures n <= span / d
  {
    assert span < (span / d + 1) * d;
    if n > span / d {
      MultiplyOrdered(span / d + 1, n, d);
    }
  }

  lemma MultiplyOrdered(a: nat, b: nat, d: nat)
    requires a <= b
    ensures a * d <= b * d
  {
  }

  lemma {:induction false} WinsAreAttempts(last: Option<int>, attempts: seq<Attempt>, interval: int)
    ensures forall a | a in Wins(last, attempts, interval) :: a in attempts
    decreases attempts
  {
    if attempts != [] {
      var a := attempts[0];
      WinsAreAttempts(Some(a.now), attempts[1..], interval);
      WinsAreAttempts(last, attempts[1..], interval);
      assert attempts == [a] + attempts[1..];
    }
  }
}
