/**
 * Catalogue synchronisation: collapsing duplicates, binding a batch to the
 * placeholders of one statement, and the upserts that statement performs.
 */
module AssetSync {
  import opened Options
  import opened Slices

  datatype MarketDataEntry = MarketDataEntry(
    coinGeckoId: string, symbol: string, name: string, imageUrl: Option<string>,
    currentPrice: Option<string>, marketCap: Option<string>, marketCapRank: Option<int>,
    totalVolume: Option<string>, circulatingSupply: Option<string>, totalSupply: Option<string>,
    maxSupply: Option<string>, priceChange24h: Option<string>, priceChangePercentage24h: Option<string>)

  datatype SyncData = SyncData(entry: MarketDataEntry, lastSyncedAt: int) {
    function Id(): string {
      entry.coinGeckoId
    }
  }

  datatype Column =
    | CoinGeckoId | Symbol | Name | ImageUrl | CurrentPrice | MarketCap | MarketCapRank | TotalVolume
    | CirculatingSupply | TotalSupply | MaxSupply | PriceChange24h | PriceChangePercentage24h | LastSyncedAt

  const COLUMNS: seq<Column> := [
    CoinGeckoId, Symbol, Name, ImageUrl, CurrentPrice, MarketCap, MarketCapRank, TotalVolume,
    CirculatingSupply, TotalSupply, MaxSupply, PriceChange24h, PriceChangePercentage24h, LastSyncedAt]

  const WIDTH := 14
  const BATCH_SIZE := 1000

  datatype Value = Null | Text(text: string) | Number(number: int) | Time(time: int)

  function Nullable(text: Option<string>): Value {
    if text.None? then Null else Text(text.value)
  }

  /** `asset[column]`. */
  function Get(a: SyncData, c: Column): Value {
    match c
    case CoinGeckoId => Text(a.entry.coinGeckoId)
    case Symbol => Text(a.entry.symbol)
    case Name => Text(a.entry.name)
    case ImageUrl => Nullable(a.entry.imageUrl)
    case CurrentPrice => Nullable(a.entry.currentPrice)
    case MarketCap => Nullable(a.entry.marketCap)
    case MarketCapRank => if a.entry.marketCapRank.None? then Null else Number(a.entry.marketCapRank.value)
    case TotalVolume => Nullable(a.entry.totalVolume)
    case CirculatingSupply => Nullable(a.entry.circulatingSupply)
    case TotalSupply => Nullable(a.entry.totalSupply)
    case MaxSupply => Nullable(a.entry.maxSupply)
    case PriceChange24h => Nullable(a.entry.priceChange24h)
    case PriceChangePercentage24h => Nullable(a.entry.priceChangePercentage24h)
    case LastSyncedAt => Time(a.lastSyncedAt)
  }

  // ------------------------------------------------------ parameters of a query

  /** What is sent to the database: the placeholder numbers of each `VALUES` row, and the parameters. */
  datatype Query = Query(rows: seq<seq<nat>>, params: seq<Value>)

  /** The value bound to column c of row r: that of `$n` for the number written there. */
  function Slot(q: Query, r: nat, c: nat): Value {
    if r < |q.rows| && c < |q.rows[r]| && 1 <= q.rows[r][c] <= |q.params| then q.params[q.rows[r][c] - 1] else Null
  }

  function TextOf(v: Value): string {
    if v.Text? then v.text else ""
  }

  function OptionalText(v: Value): Option<string> {
    if v.Text? then Some(v.text) else None
  }

  /** The record a row of values inserts, column by column in the order of the statement. */
  function RecordFrom(slot: nat -> Value): SyncData {
    SyncData(
      MarketDataEntry(
        TextOf(slot(0)), TextOf(slot(1)), TextOf(slot(2)), OptionalText(slot(3)), OptionalText(slot(4)),
        OptionalText(slot(5)), if slot(6).Number? then Some(slot(6).number) else None, OptionalText(slot(7)),
        OptionalText(slot(8)), OptionalText(slot(9)), OptionalText(slot(10)), OptionalText(slot(11)),
        OptionalText(slot(12))),
      if slot(13).Time? then slot(13).time else 0)
  }

  function RecordAt(q: Query, r: nat): SyncData {
    RecordFrom((c: nat) => Slot(q, r, c))
  }

  function Records(q: Query): seq<SyncData> {
    seq(|q.rows|, r requires r >= 0 => RecordAt(q, r))
  }

  /** Every slot is bound to the value of its own row and column. */
  predicate Binds(q: Query, batch: seq<SyncData>) {
    && |q.rows| == |batch|
    && forall r, c :: 0 <= r < |batch| && 0 <= c < WIDTH ==> Slot(q, r, c) == Get(batch[r], COLUMNS[c])
  }

  lemma FirstColumns(a: SyncData, slot: nat -> Value)
    requires forall c :: 0 <= c < WIDTH ==> slot(c) == Get(a, COLUMNS[c])
    ensures slot(0) == Get(a, CoinGeckoId) && slot(1) == Get(a, Symbol) && slot(2) == Get(a, Name)
    ensures slot(3) == Get(a, ImageUrl) && slot(4) == Get(a, CurrentPrice) && slot(5) == Get(a, MarketCap)
    ensures slot(6) == Get(a, MarketCapRank) && slot(7) == Get(a, TotalVolume)
    ensures slot(8) == Get(a, CirculatingSupply) && slot(9) == Get(a, TotalSupply) && slot(10) == Get(a, MaxSupply)
    ensures slot(11) == Get(a, PriceChange24h) && slot(12) == Get(a, PriceChangePercentage24h)
    ensures slot(13) == Get(a, LastSyncedAt)
  {
    hide Get;
  }

  lemma RowIsItsRecord(a: SyncData, slot: nat -> Value)
    requires forall c :: 0 <= c < WIDTH ==> slot(c) == Get(a, COLUMNS[c])
    ensures RecordFrom(slot) == a
  {
    hide Get, TextOf, OptionalText;
    FirstColumns(a, slot);
    NamesDecode(a);
    AmountsDecode(a);
    ChangesDecode(a);
  }

  lemma NamesDecode(a: SyncData)
    ensures TextOf(Get(a, CoinGeckoId)) == a.entry.coinGeckoId && TextOf(Get(a, Symbol)) == a.entry.symbol
    ensures TextOf(Get(a, Name)) == a.entry.name && OptionalText(Get(a, ImageUrl)) == a.entry.imageUrl
    ensures Get(a, MarketCapRank)
         == if a.entry.marketCapRank.Some? then Number(a.entry.marketCapRank.value) else Null
    ensures Get(a, LastSyncedAt) == Time(a.lastSyncedAt)
  {
  }

  lemma AmountsDecode(a: SyncData)
    ensures OptionalText(Get(a, CurrentPrice)) == a.entry.currentPrice
    ensures OptionalText(Get(a, MarketCap)) == a.entry.marketCap
    ensures OptionalText(Get(a, TotalVolume)) == a.entry.totalVolume
    ensures OptionalText(Get(a, CirculatingSupply)) == a.entry.circulatingSupply
  {
  }

  lemma ChangesDecode(a: SyncData)
    ensures OptionalText(Get(a, TotalSupply)) == a.entry.totalSupply
    ensures OptionalText(Get(a, MaxSupply)) == a.entry.maxSupply
    ensures OptionalText(Get(a, PriceChange24h)) == a.entry.priceChange24h
    ensures OptionalText(Get(a, PriceChangePercentage24h)) == a.entry.priceChangePercentage24h
  {
  }

  /** A query that binds a batch slot by slot inserts exactly the batch. */
  lemma BoundQueryIsTheBatch(q: Query, batch: seq<SyncData>)
    requires Binds(q, batch)
    ensures Records(q) == batch
  {
    hide Get, RecordFrom;
    forall r | 0 <= r < |batch|
      ensures Records(q)[r] == batch[r]
    {
      RowIsItsRecord(batch[r], (c: nat) => Slot(q, r, c));
    }
  }

  // ------------------------------------------------------------ one statement

  /** A stored asset; `updatedAt` is the statement time of the last write. */
  datatype Row = Row(data: SyncData, createdAt: int, updatedAt: int)

  type Table = map<string, Row>

  /** `SET`: every column from the new record, except a price that it does not report. */
  function Merged(stored: SyncData, a: SyncData): SyncData {
    if a.entry.currentPrice.Some? then a
    else a.(entry := a.entry.(currentPrice := stored.entry.currentPrice))
  }

  /** `WHERE`: some column other than the key would change. */
  predicate Differs(stored: SyncData, a: SyncData) {
    exists c :: c in COLUMNS && c != CoinGeckoId && Get(stored, c) != Get(Merged(stored, a), c)
  }

  function Upserted(stored: Option<Row>, a: SyncData, now: int): Row {
    if stored.None? then Row(a, now, now)
    else if Differs(stored.value.data, a) then Row(Merged(stored.value.data, a), stored.value.createdAt, now)
    else stored.value
  }

  function Stored(table: Table, id: string): Option<Row> {
    if id in table then Some(table[id]) else None
  }

  predicate DistinctIds(batch: seq<SyncData>) {
    forall i, j :: 0 <= i < j < |batch| ==> batch[i].Id() != batch[j].Id()
  }

  function IdsOf(batch: seq<SyncData>): set<string> {
    set a | a in batch :: a.Id()
  }

  /** The record a batch holds for an identifier. */
  function RecordFor(batch: seq<SyncData>, id: string): (a: SyncData)
    requires id in IdsOf(batch)
    ensures a in batch && a.Id() == id
  {
    if batch[0].Id() == id then batch[0] else RecordFor(batch[1..], id)
  }

  /**
   * One `INSERT ... ON CONFLICT DO UPDATE`: all rows at once, each against the
   * table before the statement. Postgres refuses a statement that would touch
   * one row twice; `None` stands for that error.
   */
  function Statement(table: Table, batch: seq<SyncData>, now: int): Option<Table> {
    if !DistinctIds(batch) then None
    else
      var ids := IdsOf(batch);
      Some(map id | id in table.Keys + ids ::
             if id in ids then Upserted(Stored(table, id), RecordFor(batch, id), now) else table[id])
  }

  /** One statement per batch, each at its own time; a refused one ends the work but undoes nothing. */
  function UpsertBatches(table: Table, assets: seq<SyncData>, size: nat, clock: nat -> int, k: nat): (Table, bool)
    requires size > 0
    decreases |assets|
  {
    if assets == [] then (table, true)
    else
      var after := Statement(table, Take(assets, size), clock(k));
      if after.None? then (table, false)
      else UpsertBatches(after.value, Drop(assets, size), size, clock, k + 1)
  }

  // -------------------------------------------------------- deduplication

  function Stamp(e: MarketDataEntry, now: int): SyncData {
    SyncData(e, now)
  }

  /** `Map.set`: an existing key keeps its place, a new one goes to the end. */
  function MapSet(values: seq<SyncData>, a: SyncData): seq<SyncData> {
    if values == [] then [a]
    else if values[0].Id() == a.Id() then [a] + values[1..]
    else [values[0]] + MapSet(values[1..], a)
  }

  function ToSyncData(entries: seq<MarketDataEntry>, now: int): seq<SyncData> {
    if entries == [] then []
    else MapSet(ToSyncData(entries[..|entries| - 1], now), Stamp(entries[|entries| - 1], now))
  }

  // -------------------------------------------------------------- the classes

  class AssetRepository {
    var rows: Table

    constructor ()
      ensures rows == map[]
    {
      rows := map[];
    }

    /** `clock(k)` is `now()` in the k-th statement. */
    method UpsertMany(assets: seq<SyncData>, clock: nat -> int) returns (ok: bool)
      modifies this
      ensures (rows, ok) == UpsertBatches(old(rows), assets, 1000, clock, 0)
    {
      hide Statement, Records, Binds;
      var index, k := 0, 0;
      while index < |assets|
        invariant 0 <= index
        invariant UpsertBatches(old(rows), assets, BATCH_SIZE, clock, 0)
               == UpsertBatches(rows, Drop(assets, index), BATCH_SIZE, clock, k)
      {
        var batch := Take(assets[index..], BATCH_SIZE);
        assert Drop(Drop(assets, index), BATCH_SIZE) == Drop(assets, index + BATCH_SIZE);
        var query := BuildQuery(batch);
        BoundQueryIsTheBatch(query, batch);
        var after := Statement(rows, Records(query), clock(k));
        if after.None? {
          return false;
        }
        rows := after.value;
        index, k := index + BATCH_SIZE, k + 1;
      }
      return true;
    }

    /** The placeholder numbers of the statement's `VALUES` rows. */
    method BuildPlaceholders(rowCount: nat) returns (rows: seq<seq<nat>>)
      ensures |rows| == rowCount
      ensures forall r :: 0 <= r < rowCount ==> |rows[r]| == WIDTH
      ensures forall r, c :: 0 <= r < rowCount && 0 <= c < WIDTH ==> rows[r][c] == Place(r, c)
    {
      rows := [];
      var param := 1;
      for row := 0 to rowCount
        invariant |rows| == row && param == Place(row, 0)
        invariant forall r :: 0 <= r < row ==> |rows[r]| == WIDTH
        invariant forall r, c :: 0 <= r < row && 0 <= c < WIDTH ==> rows[r][c] == Place(r, c)
      {
        var placeholders := [];
        for column := 0 to WIDTH
          invariant |placeholders| == column && param == Place(row, column)
          invariant forall c :: 0 <= c < column ==> placeholders[c] == Place(row, c)
        {
          placeholders := placeholders + [param];
          param := param + 1;
        }
        rows := rows + [placeholders];
      }
    }

    /** The parameter list of the statement. */
    method Flatten(batch: seq<SyncData>) returns (params: seq<Value>)
      ensures |params| == |batch| * WIDTH
      ensures forall r, c :: 0 <= r < |batch| && 0 <= c < WIDTH ==> params[Place(r, c) - 1] == Get(batch[r], COLUMNS[c])
    {
      hide Get;
      params := [];
      for row := 0 to |batch|
        invariant |params| == row * WIDTH
        invariant forall r, c :: 0 <= r < row && 0 <= c < WIDTH ==> params[Place(r, c) - 1] == Get(batch[r], COLUMNS[c])
      {
        for column := 0 to WIDTH
          invariant |params| == row * WIDTH + column
          invariant forall r, c :: 0 <= r < row && 0 <= c < WIDTH ==> params[Place(r, c) - 1] == Get(batch[r], COLUMNS[c])
          invariant forall c :: 0 <= c < column ==> params[Place(row, c) - 1] == Get(batch[row], COLUMNS[c])
        {
          params := params + [Get(batch[row], COLUMNS[column])];
        }
      }
    }

    /** The statement for one batch, with its parameters. */
    method BuildQuery(batch: seq<SyncData>) returns (q: Query)
      ensures Binds(q, batch)
      ensures |q.params| == |batch| * WIDTH
      ensures forall r, c :: 0 <= r < |batch| && 0 <= c < WIDTH ==> |q.rows[r]| == WIDTH && q.rows[r][c] == Place(r, c)
    {
      hide Get;
      var rows := BuildPlaceholders(|batch|);
      var params := Flatten(batch);
      q := Query(rows, params);
      forall r, c | 0 <= r < |batch| && 0 <= c < WIDTH
        ensures Slot(q, r, c) == Get(batch[r], COLUMNS[c])
      {
        PlaceIsInRange(|batch|, r, c);
        assert rows[r][c] == Place(r, c);
      }
    }
  }

  /** The number of the placeholder for column c of row r. */
  function Place(r: nat, c: nat): (n: nat)
    ensures n >= 1
  {
    r * WIDTH + c + 1
  }

  lemma PlaceIsInRange(rows: nat, r: nat, c: nat)
    requires r < rows && c < WIDTH
    ensures 1 <= Place(r, c) <= rows * WIDTH
  {
  }

  datatype SyncResult = EmptySync | Unavailable | Rejected | Synchronized(receivedCount: nat, synchronizedCount: nat)

  class SyncAssetsUseCase {
    const assets: AssetRepository

    constructor (assets: AssetRepository)
      ensures this.assets == assets
    {
      this.assets := assets;
    }

    method CollectSyncData(entries: seq<MarketDataEntry>, lastSyncedAt: int) returns (unique: seq<SyncData>)
      ensures unique == ToSyncData(entries, lastSyncedAt)
    {
      unique := [];
      for i := 0 to |entries|
        invariant unique == ToSyncData(entries[..i], lastSyncedAt)
      {
        assert entries[..i + 1][..i] == entries[..i];
        unique := MapSet(unique, Stamp(entries[i], lastSyncedAt));
      }
      assert entries[..|entries|] == entries;
    }

    /** `fetched` is the provider's answer, or `None` if it throws. */
    method Execute(fetched: Option<seq<MarketDataEntry>>, now: int, clock: nat -> int) returns (r: SyncResult)
      modifies assets
      ensures fetched.None? || fetched.value == [] ==>
                assets.rows == old(assets.rows) && r == (if fetched.None? then Unavailable else EmptySync)
      ensures fetched.Some? && fetched.value != [] ==>
                var unique := ToSyncData(fetched.value, now);
                && r == Synchronized(|fetched.value|, |unique|)
                && (assets.rows, true) == UpsertBatches(old(assets.rows), unique, BATCH_SIZE, clock, 0)
    {
      if fetched.None? {
        return Unavailable;
      }
      hide ToSyncData, UpsertBatches;
      var unique := CollectSyncData(fetched.value, now);
      SyncDataIsDistinct(fetched.value, now);
      if |unique| == 0 {
        return EmptySync;
      }
      DistinctNeverFails(assets.rows, unique, BATCH_SIZE, clock, 0);
      var ok := assets.UpsertMany(unique, clock);
      return Synchronized(|fetched.value|, |unique|);
    }
  }

  // ---------------------------------------------------- deduplication lemmas

  lemma {:induction false} MapSetIds(values: seq<SyncData>, a: SyncData)
    requires DistinctIds(values)
    ensures DistinctIds(MapSet(values, a))
    ensures forall x :: x in MapSet(values, a) <==> x == a || (x in values && x.Id() != a.Id())
  {
    if values != [] {
      var head, tail := values[0], values[1..];
      assert values == [head] + tail;
      assert head !in tail && forall x :: x in tail ==> x.Id() != head.Id();
      if head.Id() != a.Id() {
        MapSetIds(tail, a);
        ConsDistinct(head, MapSet(tail, a));
        assert forall x :: x in MapSet(tail, a) ==> x == a || x in tail;
      } else {
        ConsDistinct(a, tail);
      }
    }
  }

  lemma ConsDistinct(head: SyncData, tail: seq<SyncData>)
    requires DistinctIds(tail) && forall x :: x in tail ==> x.Id() != head.Id()
    ensures DistinctIds([head] + tail)
  {
  }

  /** The last entry for an identifier. */
  function LastEntry(entries: seq<MarketDataEntry>, id: string): Option<MarketDataEntry> {
    if entries == [] then None
    else
      var last := entries[|entries| - 1];
      if last.coinGeckoId == id then Some(last) else LastEntry(entries[..|entries| - 1], id)
  }

  /** Identifiers come out distinct, and for each one the last record received wins, stamped with the run's time. */
  lemma {:induction false} SyncDataIsDistinct(entries: seq<MarketDataEntry>, now: int)
    ensures DistinctIds(ToSyncData(entries, now))
    ensures entries != [] ==> ToSyncData(entries, now) != []
    ensures forall a :: a in ToSyncData(entries, now) <==>
              LastEntry(entries, a.Id()) == Some(a.entry) && a.lastSyncedAt == now
  {
    if entries != [] {
      var n := |entries| - 1;
      SyncDataIsDistinct(entries[..n], now);
      MapSetIds(ToSyncData(entries[..n], now), Stamp(entries[n], now));
    }
  }

  // ------------------------------------------------------------- the filter

  lemma TextColumns(x: SyncData, y: SyncData)
    requires Get(x, Symbol) == Get(y, Symbol) && Get(x, Name) == Get(y, Name) && Get(x, ImageUrl) == Get(y, ImageUrl)
    requires Get(x, MarketCapRank) == Get(y, MarketCapRank) && Get(x, LastSyncedAt) == Get(y, LastSyncedAt)
    ensures x.entry.symbol == y.entry.symbol && x.entry.name == y.entry.name && x.entry.imageUrl == y.entry.imageUrl
    ensures x.entry.marketCapRank == y.entry.marketCapRank && x.lastSyncedAt == y.lastSyncedAt
  {
  }

  lemma AmountColumns(x: SyncData, y: SyncData)
    requires Get(x, CurrentPrice) == Get(y, CurrentPrice) && Get(x, MarketCap) == Get(y, MarketCap)
    requires Get(x, TotalVolume) == Get(y, TotalVolume) && Get(x, CirculatingSupply) == Get(y, CirculatingSupply)
    ensures x.entry.currentPrice == y.entry.currentPrice && x.entry.marketCap == y.entry.marketCap
    ensures x.entry.totalVolume == y.entry.totalVolume && x.entry.circulatingSupply == y.entry.circulatingSupply
  {
  }

  lemma SupplyColumns(x: SyncData, y: SyncData)
    requires Get(x, TotalSupply) == Get(y, TotalSupply) && Get(x, MaxSupply) == Get(y, MaxSupply)
    requires Get(x, PriceChange24h) == Get(y, PriceChange24h)
    requires Get(x, PriceChangePercentage24h) == Get(y, PriceChangePercentage24h)
    ensures x.entry.totalSupply == y.entry.totalSupply && x.entry.maxSupply == y.entry.maxSupply
    ensures x.entry.priceChange24h == y.entry.priceChange24h
    ensures x.entry.priceChangePercentage24h == y.entry.priceChangePercentage24h
  {
  }

  lemma EveryColumnListed(c: Column)
    ensures c in COLUMNS
  {
    assert COLUMNS[0] == CoinGeckoId && COLUMNS[1] == Symbol && COLUMNS[2] == Name && COLUMNS[3] == ImageUrl;
    assert COLUMNS[4] == CurrentPrice && COLUMNS[5] == MarketCap && COLUMNS[6] == MarketCapRank;
    assert COLUMNS[7] == TotalVolume && COLUMNS[8] == CirculatingSupply && COLUMNS[9] == TotalSupply;
    assert COLUMNS[10] == MaxSupply && COLUMNS[11] == PriceChange24h && COLUMNS[12] == PriceChangePercentage24h;
    assert COLUMNS[13] == LastSyncedAt;
  }

  lemma SameColumns(x: SyncData, y: SyncData)
    requires forall c :: c in COLUMNS && c != CoinGeckoId ==> Get(x, c) == Get(y, c)
    requires x.Id() == y.Id()
    ensures x == y
  {
    hide Get;
    forall c: Column | c != CoinGeckoId
      ensures Get(x, c) == Get(y, c)
    {
      EveryColumnListed(c);
    }
    TextColumns(x, y);
    AmountColumns(x, y);
    SupplyColumns(x, y);
  }

  /** Column by column: `EXCLUDED`, and for the price `COALESCE(EXCLUDED, stored)`. */
  lemma MergedColumnwise(stored: SyncData, a: SyncData, c: Column)
    ensures Get(Merged(stored, a), c) == if c == CurrentPrice && Get(a, c) == Null then Get(stored, c) else Get(a, c)
  {
  }

  lemma DiffersIffChanged(stored: SyncData, a: SyncData)
    requires stored.Id() == a.Id()
    ensures Differs(stored, a) <==> Merged(stored, a) != stored
  {
    hide Get;
    if !Differs(stored, a) { SameColumns(stored, Merged(stored, a)); }
  }

  /** Leaving the filter out would change no column but `updatedAt`, and that only where nothing else changes. */
  lemma FilterOnlySparesUpdatedAt(stored: Row, a: SyncData, now: int)
    requires stored.data.Id() == a.Id()
    ensures var unfiltered := Row(Merged(stored.data, a), stored.createdAt, now);
            && Upserted(Some(stored), a, now)
               == (if Merged(stored.data, a) == stored.data
                   then unfiltered.(updatedAt := stored.updatedAt) else unfiltered)
  {
    DiffersIffChanged(stored.data, a);
  }

  /** The stamp is one of the compared columns, so a run with a new time rewrites `updatedAt` of every row it brings. */
  lemma NewStampAlwaysWrites(stored: Row, a: SyncData, now: int)
    requires stored.data.Id() == a.Id() && stored.data.lastSyncedAt != a.lastSyncedAt
    ensures Upserted(Some(stored), a, now).updatedAt == now
    ensures a.entry.currentPrice.None? ==>
              && Upserted(Some(stored), a, now).data.entry.currentPrice == stored.data.entry.currentPrice
              && Upserted(Some(stored), a, now).data.lastSyncedAt == a.lastSyncedAt
  {
    DiffersIffChanged(stored.data, a);
  }

  // ------------------------------------------------- batches and single rows

  /** One row after another, each seeing what the ones before it left. */
  function Fold(table: Table, assets: seq<SyncData>, now: int): Table
    decreases |assets|
  {
    if assets == [] then table
    else
      var a := assets[0];
      Fold(table[a.Id() := Upserted(Stored(table, a.Id()), a, now)], assets[1..], now)
  }

  lemma HeadAndTail(batch: seq<SyncData>)
    requires batch != [] && DistinctIds(batch)
    ensures DistinctIds(batch[1..]) && batch[0].Id() !in IdsOf(batch[1..])
    ensures IdsOf(batch) == {batch[0].Id()} + IdsOf(batch[1..])
  {
    assert batch == [batch[0]] + batch[1..];
  }

  lemma {:induction false} FoldAt(table: Table, assets: seq<SyncData>, now: int, id: string)
    requires DistinctIds(assets)
    ensures id in Fold(table, assets, now) <==> id in table || id in IdsOf(assets)
    ensures id in IdsOf(assets) ==> Fold(table, assets, now)[id] == Upserted(Stored(table, id), RecordFor(assets, id), now)
    ensures id !in IdsOf(assets) && id in table ==> Fold(table, assets, now)[id] == table[id]
    decreases |assets|
  {
    hide Upserted;
    if assets != [] {
      HeadAndTail(assets);
      var a := assets[0];
      FoldAt(table[a.Id() := Upserted(Stored(table, a.Id()), a, now)], assets[1..], now, id);
    }
  }

  /** A statement over distinct identifiers, all rows at once, does what its rows would do one by one. */
  lemma StatementIsAFold(table: Table, batch: seq<SyncData>, now: int)
    ensures Statement(table, batch, now) == if DistinctIds(batch) then Some(Fold(table, batch, now)) else None
  {
    hide Upserted, RecordFor;
    if DistinctIds(batch) {
      var after := Statement(table, batch, now).value;
      forall id
        ensures id in after <==> id in Fold(table, batch, now)
        ensures id in after ==> after[id] == Fold(table, batch, now)[id]
      {
        FoldAt(table, batch, now, id);
      }
      assert after == Fold(table, batch, now);
    }
  }

  lemma Cut(assets: seq<SyncData>, size: nat)
    requires DistinctIds(assets)
    ensures assets == Take(assets, size) + Drop(assets, size)
    ensures DistinctIds(Take(assets, size)) && DistinctIds(Drop(assets, size))
    ensures IdsOf(Take(assets, size)) !! IdsOf(Drop(assets, size))
    ensures IdsOf(assets) == IdsOf(Take(assets, size)) + IdsOf(Drop(assets, size))
  {
    var b, r := Take(assets, size), Drop(assets, size);
    assert assets == b + r;
    forall x, y | x in b && y in r
      ensures x.Id() != y.Id()
    {
      var i :| 0 <= i < |b| && b[i] == x;
      var j :| 0 <= j < |r| && r[j] == y;
      assert assets[i] == x && assets[|b| + j] == y;
    }
  }

  lemma SameRecord(assets: seq<SyncData>, part: seq<SyncData>, id: string)
    requires DistinctIds(assets) && id in IdsOf(assets) && id in IdsOf(part)
    requires forall x :: x in part ==> x in assets
    ensures RecordFor(part, id) == RecordFor(assets, id)
  {
    var x, y := RecordFor(part, id), RecordFor(assets, id);
    var i :| 0 <= i < |assets| && assets[i] == x;
    var j :| 0 <= j < |assets| && assets[j] == y;
  }

  lemma {:induction false} DistinctNeverFails(table: Table, assets: seq<SyncData>, size: nat, clock: nat -> int, k: nat)
    requires size > 0 && DistinctIds(assets)
    ensures UpsertBatches(table, assets, size, clock, k).1
    decreases |assets|
  {
    hide Statement, DistinctIds;
    if assets != [] {
      Cut(assets, size);
      StatementIsAFold(table, Take(assets, size), clock(k));
      DistinctNeverFails(Statement(table, Take(assets, size), clock(k)).value, Drop(assets, size), size, clock, k + 1);
    }
  }

  /** The row came out of exactly one upsert against the original row, at the time of one of the statements. */
  ghost predicate OneUpsert(stored: Option<Row>, a: SyncData, after: Row, clock: nat -> int) {
    exists j: nat :: after == Upserted(stored, a, clock(j))
  }

  /**
   * Whatever the batch size and the statement times: every identifier among the
   * records is upserted exactly once, against the row stored at the start, and
   * every other row is left alone.
   */
  lemma {:induction false} EachRowOnce(
    table: Table, assets: seq<SyncData>, size: nat, clock: nat -> int, k: nat, id: string)
    requires size > 0 && DistinctIds(assets)
    ensures var after := UpsertBatches(table, assets, size, clock, k).0;
            && (id in after <==> id in table || id in IdsOf(assets))
            && (id in IdsOf(assets) ==> OneUpsert(Stored(table, id), RecordFor(assets, id), after[id], clock))
            && (id !in IdsOf(assets) && id in table ==> after[id] == table[id])
    decreases |assets|
  {
    hide Statement, DistinctIds, Upserted, RecordFor, Fold, Take, Drop;
    if assets != [] {
      var batch, rest := Take(assets, size), Drop(assets, size);
      Shorter(assets, size);
      Cut(assets, size);
      StatementIsAFold(table, batch, clock(k));
      FoldAt(table, batch, clock(k), id);
      EachRowOnce(Fold(table, batch, clock(k)), rest, size, clock, k + 1, id);
      if id in IdsOf(batch) { SameRecord(assets, batch, id); }
      if id in IdsOf(rest) { SameRecord(assets, rest, id); }
    }
  }

  lemma Shorter(assets: seq<SyncData>, size: nat)
    requires size > 0 && assets != []
    ensures |Drop(assets, size)| < |assets|
  {
  }

  /** With one statement time throughout, any batch size gives exactly the row-by-row fold. */
  lemma BatchSizeIsInvisible(table: Table, assets: seq<SyncData>, size: nat, clock: nat -> int, now: int)
    requires size > 0 && DistinctIds(assets) && forall j :: clock(j) == now
    ensures UpsertBatches(table, assets, size, clock, 0) == (Fold(table, assets, now), true)
  {
    hide UpsertBatches, DistinctIds, Upserted, RecordFor, Fold;
    DistinctNeverFails(table, assets, size, clock, 0);
    var after := UpsertBatches(table, assets, size, clock, 0).0;
    forall id
      ensures id in after <==> id in Fold(table, assets, now)
      ensures id in after ==> after[id] == Fold(table, assets, now)[id]
    {
      EachRowOnce(table, assets, size, clock, 0, id);
      FoldAt(table, assets, now, id);
    }
    assert after == Fold(table, assets, now);
  }

  predicate Keyed(table: Table) {
    forall id :: id in table ==> table[id].data.Id() == id
  }

  /** What a record leaves in the row: itself, but for a price it does not report. */
  function Settled(stored: Option<Row>, a: SyncData): SyncData {
    if stored.None? then a else Merged(stored.value.data, a)
  }

  lemma UpsertedData(stored: Option<Row>, a: SyncData, now: int)
    requires stored.Some? ==> stored.value.data.Id() == a.Id()
    ensures Upserted(stored, a, now).data == Settled(stored, a)
    ensures Upserted(stored, a, now).createdAt == if stored.Some? then stored.value.createdAt else now
    ensures stored.None? ==> Upserted(stored, a, now).updatedAt == now
  {
    if stored.Some? { DiffersIffChanged(stored.value.data, a); }
  }

  /** Two ways of batching the same records, at any statement times, leave the same data. */
  lemma AnyBatchingSameData(
    table: Table, assets: seq<SyncData>, size: nat, clock: nat -> int,
    otherSize: nat, otherClock: nat -> int, id: string)
    requires size > 0 && otherSize > 0 && DistinctIds(assets) && Keyed(table)
    ensures var one := UpsertBatches(table, assets, size, clock, 0).0;
            var other := UpsertBatches(table, assets, otherSize, otherClock, 0).0;
            && (id in one <==> id in other)
            && (id in one ==> one[id].data == other[id].data)
            && (id in one && id in table ==> one[id].createdAt == other[id].createdAt == table[id].createdAt)
  {
    hide UpsertBatches, DistinctIds, Upserted, RecordFor;
    DataAfter(table, assets, size, clock, id);
    DataAfter(table, assets, otherSize, otherClock, id);
  }

  lemma DataAfter(table: Table, assets: seq<SyncData>, size: nat, clock: nat -> int, id: string)
    requires size > 0 && DistinctIds(assets) && Keyed(table)
    ensures var after := UpsertBatches(table, assets, size, clock, 0).0;
            && (id in after <==> id in table || id in IdsOf(assets))
            && (id in IdsOf(assets) ==> after[id].data == Settled(Stored(table, id), RecordFor(assets, id)))
            && (id in after && id !in IdsOf(assets) ==> after[id].data == table[id].data)
            && (id in table ==> after[id].createdAt == table[id].createdAt)
  {
    hide UpsertBatches, DistinctIds, Upserted, Settled, Differs, Merged;
    EachRowOnce(table, assets, size, clock, 0, id);
    if id in IdsOf(assets) {
      var after := UpsertBatches(table, assets, size, clock, 0).0;
      var a := RecordFor(assets, id);
      var j: nat :| after[id] == Upserted(Stored(table, id), a, clock(j));
      UpsertedData(Stored(table, id), a, clock(j));
    }
  }

  // ---------------------------------------------------------- whole histories

  /** The records of the first n batches. */
  function Landing(assets: seq<SyncData>, size: nat, n: nat): seq<SyncData>
    requires size > 0
    decreases n
  {
    if n == 0 then [] else Take(assets, size) + Landing(Drop(assets, size), size, n - 1)
  }

  /** The work cut short after n statements. */
  function FirstBatches(table: Table, assets: seq<SyncData>, size: nat, clock: nat -> int, k: nat, n: nat): Table
    requires size > 0
    decreases n
  {
    if n == 0 || assets == [] then table
    else
      var after := Statement(table, Take(assets, size), clock(k));
      if after.None? then table
      else FirstBatches(after.value, Drop(assets, size), size, clock, k + 1, n - 1)
  }

  lemma {:induction false} LandingIsAPrefix(assets: seq<SyncData>, size: nat, n: nat)
    requires size > 0
    ensures Landing(assets, size, n) <= assets
    ensures n >= |assets| ==> Landing(assets, size, n) == assets
    decreases n
  {
    hide Take, Drop;
    if n > 0 {
      LandingIsAPrefix(Drop(assets, size), size, n - 1);
      CutOnce(assets, size);
      PrefixOfSum(Take(assets, size), Landing(Drop(assets, size), size, n - 1), Drop(assets, size));
    }
  }

  lemma CutOnce(assets: seq<SyncData>, size: nat)
    ensures assets == Take(assets, size) + Drop(assets, size)
    ensures size > 0 ==> Drop(assets, size) == [] || |Drop(assets, size)| < |assets|
  {
  }

  lemma PrefixOfSum(a: seq<SyncData>, b: seq<SyncData>, c: seq<SyncData>)
    requires b <= c
    ensures a + b <= a + c
  {
  }

  /** Stopping after n statements is doing the whole work on the records that landed. */
  lemma {:induction false} StoppingIsLanding(
    table: Table, assets: seq<SyncData>, size: nat, clock: nat -> int, k: nat, n: nat)
    requires size > 0
    ensures FirstBatches(table, assets, size, clock, k, n)
         == UpsertBatches(table, Landing(assets, size, n), size, clock, k).0
    decreases n
  {
    hide Statement;
    if n > 0 && assets != [] {
      LandingStarts(assets, size, n);
      var after := Statement(table, Take(assets, size), clock(k));
      if after.Some? { StoppingIsLanding(after.value, Drop(assets, size), size, clock, k + 1, n - 1); }
    } else {
      NothingLands(assets, size, n);
    }
  }

  lemma LandingStarts(assets: seq<SyncData>, size: nat, n: nat)
    requires size > 0 && n > 0 && assets != []
    ensures var landing := Landing(assets, size, n);
            && landing != [] && Take(landing, size) == Take(assets, size)
            && Drop(landing, size) == Landing(Drop(assets, size), size, n - 1)
  {
    LandingIsAPrefix(Drop(assets, size), size, n - 1);
  }

  lemma {:induction false} NothingLands(assets: seq<SyncData>, size: nat, n: nat)
    requires size > 0 && (n == 0 || assets == [])
    ensures Landing(assets, size, n) == []
    decreases n
  {
    if n > 0 { NothingLands([], size, n - 1); }
  }

  /**
   * One run of the job: what the provider answered, the clock reading, the
   * statement times, and after how many statements it stops; any number from
   * that of the batches on is a run that finishes.
   */
  datatype Sync = Sync(fetched: Option<seq<MarketDataEntry>>, now: int, clock: nat -> int, statements: nat)

  function AfterSync(table: Table, s: Sync): Table {
    if s.fetched.None? || s.fetched.value == [] then table
    else FirstBatches(table, ToSyncData(s.fetched.value, s.now), BATCH_SIZE, s.clock, 0, s.statements)
  }

  function AfterSyncs(table: Table, syncs: seq<Sync>): Table {
    if syncs == [] then table
    else AfterSync(AfterSyncs(table, syncs[..|syncs| - 1]), syncs[|syncs| - 1])
  }

  /** The records a run gets into the table. */
  function Landed(s: Sync): seq<SyncData> {
    if s.fetched.None? then [] else Landing(ToSyncData(s.fetched.value, s.now), BATCH_SIZE, s.statements)
  }

  function LandedRecord(s: Sync, id: string): Option<SyncData> {
    if id in IdsOf(Landed(s)) then Some(RecordFor(Landed(s), id)) else None
  }

  function PriceOf(table: Table, id: string): Option<string> {
    if id in table then table[id].data.entry.currentPrice else None
  }

  /** The price a run's record for `id` reports, if one lands and reports it. */
  function Reported(s: Sync, id: string): Option<string> {
    if LandedRecord(s, id).None? then None else LandedRecord(s, id).value.entry.currentPrice
  }

  /** The most recent price reported in any of the runs, else the one known before. */
  function Latest(known: Option<string>, syncs: seq<Sync>, id: string): Option<string> {
    if syncs == [] then known
    else
      var last := |syncs| - 1;
      if Reported(syncs[last], id).Some? then Reported(syncs[last], id) else Latest(known, syncs[..last], id)
  }

  lemma LandedIsDistinct(s: Sync)
    ensures DistinctIds(Landed(s))
  {
    if s.fetched.Some? {
      var unique := ToSyncData(s.fetched.value, s.now);
      SyncDataIsDistinct(s.fetched.value, s.now);
      LandingIsAPrefix(unique, BATCH_SIZE, s.statements);
      hide ToSyncData, Landing, LastEntry;
    }
  }

  /** A record that lands is the last one received for its identifier, stamped with the run's time. */
  lemma LandedRecordIsTheLast(s: Sync, id: string)
    ensures LandedRecord(s, id).Some? ==>
              && s.fetched.Some? && LastEntry(s.fetched.value, id).Some?
              && LandedRecord(s, id).value == Stamp(LastEntry(s.fetched.value, id).value, s.now)
  {
    if LandedRecord(s, id).Some? {
      var unique := ToSyncData(s.fetched.value, s.now);
      LandingIsAPrefix(unique, BATCH_SIZE, s.statements);
      SyncDataIsDistinct(s.fetched.value, s.now);
      hide ToSyncData, Landing, LastEntry, DistinctIds;
      var a := RecordFor(Landed(s), id);
      assert a in unique;
    }
  }

  /** What one run does to one row, wherever it stops. */
  lemma AfterOneSync(table: Table, s: Sync, id: string)
    requires Keyed(table)
    ensures var after, a := AfterSync(table, s), LandedRecord(s, id);
            && (id in after <==> id in table || a.Some?)
            && (a.Some? ==> after[id].data == Settled(Stored(table, id), a.value) && a.value.Id() == id)
            && (a.None? && id in table ==> after[id].data == table[id].data)
            && (id in table ==> after[id].createdAt == table[id].createdAt)
  {
    hide ToSyncData, UpsertBatches, FirstBatches, Keyed, IdsOf, DistinctIds, RecordFor, Landing;
    if s.fetched.Some? && s.fetched.value != [] {
      LandedIsDistinct(s);
      StoppingIsLanding(table, ToSyncData(s.fetched.value, s.now), BATCH_SIZE, s.clock, 0, s.statements);
      DataAfter(table, Landed(s), BATCH_SIZE, s.clock, id);
    } else {
      NothingLanded(s, id);
    }
  }

  lemma {:induction false} NothingLanded(s: Sync, id: string)
    requires s.fetched.None? || s.fetched.value == []
    ensures LandedRecord(s, id) == None
  {
    if s.fetched.Some? { NothingLands([], BATCH_SIZE, s.statements); }
  }

  lemma KeyedAfter(table: Table, s: Sync)
    requires Keyed(table)
    ensures Keyed(AfterSync(table, s))
  {
    hide AfterSync, LandedRecord;
    forall id | id in AfterSync(table, s)
      ensures AfterSync(table, s)[id].data.Id() == id
    {
      AfterOneSync(table, s, id);
    }
  }

  /** After any history of runs, wherever each one stops, the price is the latest that landed, else the one known before. */
  lemma {:induction false} PriceIsTheLatestReported(table: Table, syncs: seq<Sync>, id: string)
    requires Keyed(table)
    ensures Keyed(AfterSyncs(table, syncs))
    ensures PriceOf(AfterSyncs(table, syncs), id) == Latest(PriceOf(table, id), syncs, id)
  {
    if syncs != [] {
      hide AfterSync, LandedRecord, Keyed;
      var last := |syncs| - 1;
      PriceIsTheLatestReported(table, syncs[..last], id);
      AfterOneSync(AfterSyncs(table, syncs[..last]), syncs[last], id);
      KeyedAfter(AfterSyncs(table, syncs[..last]), syncs[last]);
    }
  }

  /** A known price never becomes null, runs that only partially succeed included. */
  lemma {:induction false} KnownPriceStays(table: Table, syncs: seq<Sync>, id: string)
    requires Keyed(table) && PriceOf(table, id).Some?
    ensures PriceOf(AfterSyncs(table, syncs), id).Some?
  {
    hide AfterSyncs, PriceOf, Keyed;
    PriceIsTheLatestReported(table, syncs, id);
    LatestIsKnown(PriceOf(table, id), syncs, id);
  }

  lemma {:induction false} LatestIsKnown(known: Option<string>, syncs: seq<Sync>, id: string)
    requires known.Some?
    ensures Latest(known, syncs, id).Some?
  {
    if syncs != [] { LatestIsKnown(known, syncs[..|syncs| - 1], id); }
  }

  function ColumnOf(table: Table, id: string, c: Column): Value {
    if id in table then Get(table[id].data, c) else Null
  }

  /** The value of the last record that landed, passing over missing prices. */
  function LatestValue(known: Value, syncs: seq<Sync>, id: string, c: Column): Value {
    if syncs == [] then known
    else
      var last := |syncs| - 1;
      var a := LandedRecord(syncs[last], id);
      if a.Some? && !(c == CurrentPrice && Get(a.value, c) == Null) then Get(a.value, c)
      else LatestValue(known, syncs[..last], id, c)
  }

  /** Column by column: after any history of runs the table holds the last value that landed, else the one known before. */
  lemma {:induction false} ColumnsAreTheLatestLanded(table: Table, syncs: seq<Sync>, id: string, c: Column)
    requires Keyed(table)
    ensures ColumnOf(AfterSyncs(table, syncs), id, c) == LatestValue(ColumnOf(table, id, c), syncs, id, c)
  {
    if syncs != [] {
      hide AfterSync, LandedRecord, Keyed, Get, PriceOf, Latest, Merged;
      var last := |syncs| - 1;
      var before := AfterSyncs(table, syncs[..last]);
      ColumnsAreTheLatestLanded(table, syncs[..last], id, c);
      PriceIsTheLatestReported(table, syncs[..last], id);
      AfterOneSync(before, syncs[last], id);
      var a := LandedRecord(syncs[last], id);
      if a.Some? && id in before { MergedColumnwise(before[id].data, a.value, c); }
    }
  }

  // ------------------------------------------------------- price and its stamp

  /** Price and stamp come from one record: both the new one's, or both as they were stored. */
  predicate OneRecord(after: SyncData, stored: SyncData, a: SyncData) {
    || (after.entry.currentPrice == a.entry.currentPrice && after.lastSyncedAt == a.lastSyncedAt)
    || (after.entry.currentPrice == stored.entry.currentPrice && after.lastSyncedAt == stored.lastSyncedAt)
  }

  /** They do exactly if the record reports a price, there was none to keep, or it repeats the stored stamp. */
  lemma OneRecordIff(stored: Row, a: SyncData, now: int)
    requires stored.data.Id() == a.Id()
    ensures OneRecord(Upserted(Some(stored), a, now).data, stored.data, a) <==>
              || a.entry.currentPrice.Some? || stored.data.entry.currentPrice.None?
              || a.lastSyncedAt == stored.data.lastSyncedAt
  {
    UpsertedData(Some(stored), a, now);
    hide Upserted;
  }

  const Bitcoin := MarketDataEntry(
    "bitcoin", "btc", "Bitcoin", None, Some("60000"), None, Some(1), None, None, None, None, None, None)

  /** A price fetched at 10 is stamped 20 by a later record that reports none. */
  lemma PriceUnderAnotherStamp()
    ensures var stored := Row(SyncData(Bitcoin, 10), 10, 10);
            var a := SyncData(Bitcoin.(currentPrice := None), 20);
            && Upserted(Some(stored), a, 20) == Row(SyncData(Bitcoin, 20), 10, 20)
            && !OneRecord(Upserted(Some(stored), a, 20).data, stored.data, a)
  {
    var stored := Row(SyncData(Bitcoin, 10), 10, 10);
    var a := SyncData(Bitcoin.(currentPrice := None), 20);
    NewStampAlwaysWrites(stored, a, 20);
    UpsertedData(Some(stored), a, 20);
    OneRecordIff(stored, a, 20);
  }
}
