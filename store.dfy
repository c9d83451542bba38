/**
 * The observation store with its schema: the tables, the columns of `market_data`, the indexes and
 * views present, the version ledger (`schema_version`), the stored rows and the backups taken.
 * `_get_schema_version`, `_set_schema_version`, `_create_initial_schema`, `_migrate_schema_v1_to_v2`,
 * `_migrate_database`, `insert_market_data` and `cleanup_old_data` change or read this state.
 * The model treats a failed operation as leaving the state as it was, except that a backup taken
 * before it stays. Only the version-1-to-2 step runs in an explicit transaction; that the initial
 * schema creation keeps what it made before failing is not modelled.
 */
module Store {
  import opened Wrappers
  import opened Text
  import opened Observation

  const CurrentSchemaVersion: int := 2

  datatype Table = MarketDataTable | SchemaVersionTable

  const MarketTable: Table := MarketDataTable
  const VersionTable: Table := SchemaVersionTable

  /** A column of `market_data`: `id`, `skin`, `timestamp`, `lowest_price`, `median_price`, `volume`,
    * `spread_absolute`, `spread_percentage`, or a column of any other name. */
  datatype Column = IdColumn | SkinColumn | TimestampColumn | LowestPriceColumn | MedianPriceColumn
                  | VolumeColumn | SpreadAbsoluteColumn | SpreadPercentageColumn | ColumnNamed(text: string)

  /** The indexes `idx_skin_timestamp`, `idx_timestamp`, `idx_skin`, `idx_skin_latest`,
    * `idx_price_range`, `idx_volume_analysis` and the views `daily_summary`, `latest_prices`. */
  datatype ObjectName = IdxSkinTimestamp | IdxTimestamp | IdxSkin | IdxSkinLatest | IdxPriceRange
                      | IdxVolumeAnalysis | DailySummary | LatestPrices

  /** The columns of `market_data` in every schema version. */
  const BaseColumns: set<Column> := {IdColumn, SkinColumn, TimestampColumn, LowestPriceColumn}

  /** A column added by the v1→v2 step: its name and its definition, `type constraints`. */
  datatype ColumnDef = ColumnDef(name: Column, typeName: string, constraints: string)

  /** `new_columns` of the v1→v2 step. */
  const MetricColumns: seq<ColumnDef> := [
    ColumnDef(MedianPriceColumn, "REAL", "NOT NULL DEFAULT 0.0"),
    ColumnDef(VolumeColumn, "INTEGER", "NOT NULL DEFAULT 0"),
    ColumnDef(SpreadAbsoluteColumn, "REAL", "NOT NULL DEFAULT 0.0"),
    ColumnDef(SpreadPercentageColumn, "REAL", "NOT NULL DEFAULT 0.0")
  ]

  const MetricNames: set<Column> := {MedianPriceColumn, VolumeColumn, SpreadAbsoluteColumn, SpreadPercentageColumn}

  /** The columns of the current `market_data` table. */
  const AllColumns: set<Column> := BaseColumns + MetricNames

  /** SQLite resolves an index's columns at `CREATE INDEX`, but only stores a view's `SELECT` and
    * resolves its columns when the view is first used. */
  datatype ObjectKind = Index | View

  /** An index or view and the columns its definition refers to. */
  datatype SchemaObject = SchemaObject(kind: ObjectKind, name: ObjectName, columns: set<Column>)

  const Indexes: seq<SchemaObject> := [
    SchemaObject(Index, IdxSkinTimestamp, {SkinColumn, TimestampColumn}),
    SchemaObject(Index, IdxTimestamp, {TimestampColumn}),
    SchemaObject(Index, IdxSkin, {SkinColumn}),
    SchemaObject(Index, IdxSkinLatest, {SkinColumn, TimestampColumn}),
    SchemaObject(Index, IdxPriceRange, {LowestPriceColumn, TimestampColumn}),
    SchemaObject(Index, IdxVolumeAnalysis, {VolumeColumn, TimestampColumn})
  ]

  const Views: seq<SchemaObject> := [
    SchemaObject(View, DailySummary, {SkinColumn, TimestampColumn, LowestPriceColumn, VolumeColumn}),
    SchemaObject(View, LatestPrices, {SkinColumn, TimestampColumn, LowestPriceColumn, MedianPriceColumn, VolumeColumn})
  ]

  function Names(defs: seq<SchemaObject>): (names: set<ObjectName>)
    ensures forall k :: 0 <= k < |defs| ==> defs[k].name in names
    ensures forall n :: n in names ==> exists k :: 0 <= k < |defs| && defs[k].name == n
  {
    if defs == [] then {}
    else
      var init := defs[..|defs| - 1];
      assert forall k :: 0 <= k < |init| ==> init[k] == defs[k];
      Names(init) + {defs[|defs| - 1].name}
  }

  // ----- the version ledger -----

  /** A row of `schema_version` (the time stamps and durations are not modelled). */
  datatype LedgerEntry = LedgerEntry(version: int, description: string)

  /** `version` is the primary key. */
  predicate DistinctVersions(ledger: seq<LedgerEntry>) {
    forall i, j :: 0 <= i < j < |ledger| ==> ledger[i].version != ledger[j].version
  }

  function MaxVersion(ledger: seq<LedgerEntry>): (v: int)
    requires ledger != []
    ensures exists i :: 0 <= i < |ledger| && ledger[i].version == v
    ensures forall i :: 0 <= i < |ledger| ==> ledger[i].version <= v
  {
    if |ledger| == 1 then ledger[0].version
    else
      var rest := MaxVersion(ledger[1..]);
      assert forall i :: 1 <= i < |ledger| ==> ledger[i] == ledger[1..][i - 1];
      if ledger[0].version >= rest then ledger[0].version else rest
  }

  /** `_get_schema_version`: the greatest recorded version, 0 without a ledger table or entry. */
  function VersionOf(tables: set<Table>, ledger: seq<LedgerEntry>): int
  {
    if VersionTable !in tables || ledger == [] then 0 else MaxVersion(ledger)
  }

  function WithoutVersion(ledger: seq<LedgerEntry>, v: int): (r: seq<LedgerEntry>)
    ensures forall e :: e in r <==> e in ledger && e.version != v
    ensures DistinctVersions(ledger) ==> DistinctVersions(r)
  {
    if ledger == [] then []
    else
      var rest := WithoutVersion(ledger[1..], v);
      assert forall e :: e in ledger <==> e == ledger[0] || e in ledger[1..];
      if ledger[0].version == v then rest
      else
        ConsDistinct(ledger, rest);
        [ledger[0]] + rest
  }

  lemma ConsDistinct(ledger: seq<LedgerEntry>, rest: seq<LedgerEntry>)
    requires ledger != [] && forall e :: e in rest ==> e in ledger[1..]
    requires DistinctVersions(ledger) ==> DistinctVersions(rest)
    ensures DistinctVersions(ledger) ==> DistinctVersions([ledger[0]] + rest)
  {
    if DistinctVersions(ledger) {
      var u := [ledger[0]] + rest;
      forall k | 0 <= k < |rest| ensures rest[k].version != ledger[0].version {
        assert rest[k] in ledger[1..];
        var m :| 0 <= m < |ledger[1..]| && ledger[1..][m] == rest[k];
        assert ledger[m + 1] == rest[k];
      }
      forall i, j | 0 <= i < j < |u| ensures u[i].version != u[j].version {
        if i > 0 { assert u[i] == rest[i - 1]; }
        assert u[j] == rest[j - 1];
      }
    }
  }

  /** `INSERT OR REPLACE INTO schema_version`: the entry for `e.version` is replaced or added. */
  function Upsert(ledger: seq<LedgerEntry>, e: LedgerEntry): seq<LedgerEntry>
  {
    WithoutVersion(ledger, e.version) + [e]
  }

  /** The ledger keeps one entry per version; the new entry is the only one for its version, every
    * other entry stays; recording a version not below any recorded one makes it the schema version. */
  lemma UpsertSpec(tables: set<Table>, ledger: seq<LedgerEntry>, e: LedgerEntry)
    requires DistinctVersions(ledger)
    ensures DistinctVersions(Upsert(ledger, e))
    ensures forall x :: x in Upsert(ledger, e) <==> x == e || (x in ledger && x.version != e.version)
    ensures VersionTable in tables && (forall i :: 0 <= i < |ledger| ==> ledger[i].version <= e.version) ==>
              VersionOf(tables, Upsert(ledger, e)) == e.version
  {
    var rest := WithoutVersion(ledger, e.version);
    var u := rest + [e];
    forall i, j | 0 <= i < j < |u| ensures u[i].version != u[j].version {
      assert u[i] == rest[i];
      if j < |rest| { assert u[j] == rest[j]; } else { assert rest[i] in rest; }
    }
    if VersionTable in tables && (forall i :: 0 <= i < |ledger| ==> ledger[i].version <= e.version) {
      forall i | 0 <= i < |u| ensures u[i].version <= e.version {
        if i < |rest| {
          assert u[i] in rest;
          var k :| 0 <= k < |ledger| && ledger[k] == u[i];
        }
      }
      assert u[|u| - 1] == e;
    }
  }

  // ----- the v1→v2 column step -----

  /** The name `ALTER TABLE market_data ADD COLUMN ...` gives the new column: the intended column
    * name, or, as the statement is written (`ADD COLUMN {column_def}`), the first word of the
    * definition, which SQLite takes for the name. */
  datatype Naming = ByName | AsWritten

  function AddedName(d: ColumnDef, naming: Naming): Column
  {
    if naming == ByName then d.name else ColumnNamed(d.typeName)
  }

  /** The column loop: each definition whose name is not among the `existing` columns (read once
    * before the loop) is added; adding a name the table already has fails. */
  function AlterColumns(existing: set<Column>, defs: seq<ColumnDef>, naming: Naming): Result<set<Column>, StoreError>
  {
    if defs == [] then Ok(existing)
    else
      match AlterColumns(existing, defs[..|defs| - 1], naming)
      case Err(e) => Err(e)
      case Ok(cols) =>
        var d := defs[|defs| - 1];
        if d.name in existing then Ok(cols)
        else if AddedName(d, naming) in cols then Err(OperationFailed("duplicate column name"))
        else Ok(cols + {AddedName(d, naming)})
  }

  function ColumnNames(defs: seq<ColumnDef>): (names: set<Column>)
    ensures forall n :: n in names ==> exists k :: 0 <= k < |defs| && defs[k].name == n
  {
    if defs == [] then {}
    else
      var init := defs[..|defs| - 1];
      var rest := ColumnNames(init);
      assert forall k :: 0 <= k < |init| ==> init[k] == defs[k];
      rest + {defs[|defs| - 1].name}
  }

  /** Adding by name adds exactly the missing columns and cannot fail. */
  lemma {:induction false} AlterByNameAddsMissing(existing: set<Column>, defs: seq<ColumnDef>)
    requires forall i, j :: 0 <= i < j < |defs| ==> defs[i].name != defs[j].name
    ensures AlterColumns(existing, defs, ByName) == Ok(existing + ColumnNames(defs))
  {
    if defs == [] {
      assert existing + ColumnNames(defs) == existing;
    } else {
      var init, d := defs[..|defs| - 1], defs[|defs| - 1];
      AlterByNameAddsMissing(existing, init);
      forall k | 0 <= k < |init| ensures init[k].name != d.name {
        assert init[k] == defs[k];
      }
      if d.name in existing {
        assert existing + ColumnNames(init) == existing + ColumnNames(defs);
      } else {
        assert existing + ColumnNames(init) + {d.name} == existing + ColumnNames(defs);
      }
    }
  }

  lemma MetricColumnNames()
    ensures ColumnNames(MetricColumns) == MetricNames
    ensures forall i, j :: 0 <= i < j < |MetricColumns| ==> MetricColumns[i].name != MetricColumns[j].name
  {
    var m := MetricColumns;
    assert m[..1][..0] == [];
    assert ColumnNames(m[..1]) == {MedianPriceColumn};
    assert m[..2][..1] == m[..1];
    assert ColumnNames(m[..2]) == {MedianPriceColumn, VolumeColumn};
    assert m[..3][..2] == m[..2];
    assert ColumnNames(m[..3]) == {MedianPriceColumn, VolumeColumn, SpreadAbsoluteColumn};
    assert m[..4][..3] == m[..3] && m[..4] == m;
  }

  /** Adding by name adds exactly the missing metric columns and cannot fail; a second run adds
    * nothing. */
  lemma AlterColumnsByName(existing: set<Column>)
    ensures AlterColumns(existing, MetricColumns, ByName) == Ok(existing + MetricNames)
    ensures AlterColumns(existing + MetricNames, MetricColumns, ByName) == Ok(existing + MetricNames)
  {
    MetricColumnNames();
    AlterByNameAddsMissing(existing, MetricColumns);
    AlterByNameAddsMissing(existing + MetricNames, MetricColumns);
  }

  /** When every column is already there, the loop adds nothing and cannot fail, however it names
    * the columns. */
  lemma {:induction false} AlterColumnsPresent(existing: set<Column>, defs: seq<ColumnDef>, naming: Naming)
    requires forall k :: 0 <= k < |defs| ==> defs[k].name in existing
    ensures AlterColumns(existing, defs, naming) == Ok(existing)
  {
    if defs != [] {
      var init := defs[..|defs| - 1];
      forall k | 0 <= k < |init| ensures init[k].name in existing {
        assert init[k] == defs[k];
      }
      AlterColumnsPresent(existing, init, naming);
    }
  }

  lemma MetricColumnsPresent(existing: set<Column>, naming: Naming)
    requires MetricNames <= existing
    ensures AlterColumns(existing, MetricColumns, naming) == Ok(existing)
  {
    assert forall k :: 0 <= k < |MetricColumns| ==> MetricColumns[k].name in MetricNames;
    AlterColumnsPresent(existing, MetricColumns, naming);
  }

  // ----- indexes and views -----

  /** The `CREATE ... IF NOT EXISTS` loop: an object already present is skipped, a new index needs
    * every column it refers to, a new view is created whatever its columns. */
  function CreateObjects(present: set<ObjectName>, cols: set<Column>, defs: seq<SchemaObject>): Result<set<ObjectName>, StoreError>
  {
    if defs == [] then Ok(present)
    else
      match CreateObjects(present, cols, defs[..|defs| - 1])
      case Err(e) => Err(e)
      case Ok(made) =>
        var d := defs[|defs| - 1];
        if d.name in made then Ok(made)
        else if d.kind == View || d.columns <= cols then Ok(made + {d.name})
        else Err(OperationFailed("no such column"))
  }

  /** When every column an index refers to exists, all objects end up present and nothing fails. */
  lemma {:induction false} CreateObjectsSucceeds(present: set<ObjectName>, cols: set<Column>, defs: seq<SchemaObject>)
    requires forall k :: 0 <= k < |defs| && defs[k].kind == Index ==> defs[k].columns <= cols
    ensures CreateObjects(present, cols, defs) == Ok(present + Names(defs))
  {
    if defs == [] {
      assert present + Names(defs) == present;
    } else {
      var init, d := defs[..|defs| - 1], defs[|defs| - 1];
      CreateObjectsSucceeds(present, cols, init);
      assert d.kind == View || d.columns <= cols;
      if d.name in present + Names(init) {
        assert present + Names(init) == present + Names(defs);
      } else {
        assert present + Names(init) + {d.name} == present + Names(defs);
      }
    }
  }

  /** A new index that refers to a missing column makes the loop fail. */
  lemma {:induction false} CreateObjectsFails(present: set<ObjectName>, cols: set<Column>, defs: seq<SchemaObject>, k: int)
    requires 0 <= k < |defs| && defs[k].kind == Index && !(defs[k].columns <= cols)
    requires forall i :: 0 <= i < |defs| ==> defs[i].name !in present
    requires forall i, j :: 0 <= i < j < |defs| ==> defs[i].name != defs[j].name
    ensures CreateObjects(present, cols, defs).Err?
  {
    var init := defs[..|defs| - 1];
    if k < |defs| - 1 {
      CreateObjectsFails(present, cols, init, k);
    } else if CreateObjects(present, cols, init).Ok? {
      NamesMade(present, cols, init);
      forall i | 0 <= i < |init| ensures init[i].name != defs[k].name {
        assert init[i] == defs[i];
      }
    }
  }

  lemma {:induction false} NamesMade(present: set<ObjectName>, cols: set<Column>, defs: seq<SchemaObject>)
    requires CreateObjects(present, cols, defs).Ok?
    ensures CreateObjects(present, cols, defs).value <= present + Names(defs)
  {
    if defs == [] {
      assert present + Names(defs) == present;
    } else {
      NamesMade(present, cols, defs[..|defs| - 1]);
    }
  }

  // ----- the median backfill -----

  /** `UPDATE market_data SET median_price = lowest_price WHERE median_price = 0.0 AND lowest_price > 0`. */
  function Backfill(rows: seq<Row>): seq<Row>
  {
    seq(|rows|, i requires 0 <= i < |rows| =>
      if rows[i].medianPrice == 0.0 && rows[i].lowestPrice > 0.0 then rows[i].(medianPrice := rows[i].lowestPrice) else rows[i])
  }

  /** The backfill changes only the median, exactly on rows with a zero median and a positive lowest
    * price, and a second backfill changes nothing. */
  lemma BackfillSpec(rows: seq<Row>)
    ensures |Backfill(rows)| == |rows|
    ensures forall i :: 0 <= i < |rows| ==>
              Backfill(rows)[i].(medianPrice := rows[i].medianPrice) == rows[i]
              && (Backfill(rows)[i] != rows[i] <==> rows[i].medianPrice == 0.0 && rows[i].lowestPrice > 0.0)
              && (rows[i].medianPrice == 0.0 && rows[i].lowestPrice > 0.0 ==>
                    Backfill(rows)[i].medianPrice == rows[i].lowestPrice)
    ensures Backfill(Backfill(rows)) == Backfill(rows)
  {
  }

  // ----- insert_market_data -----

  /** The attributes of the object passed to `insert_market_data`, with their numeric values. */
  datatype Payload = Payload(attributes: map<string, real>)

  const RequiredAttributes: seq<string> := ["lowest_price", "median_price", "volume", "spread_absolute", "spread_percentage"]

  /** The first required attribute the object lacks. */
  function FirstMissing(p: Payload, names: seq<string>): (m: Option<string>)
    ensures m.None? <==> forall i :: 0 <= i < |names| ==> names[i] in p.attributes
    ensures m.Some? ==> m.value in names && m.value !in p.attributes
  {
    if names == [] then None
    else if names[0] !in p.attributes then Some(names[0])
    else FirstMissing(p, names[1..])
  }

  /** Python's `int()` of a float: truncation toward zero. */
  function TruncateToInt(x: real): (n: int)
    ensures (n as real) <= x < (n as real) + 1.0 || (n as real) - 1.0 < x <= (n as real)
    ensures x >= 0.0 ==> n >= 0
  {
    if x >= 0.0 then x.Floor else -((-x).Floor)
  }

  function NewRow(skin: string, timestamp: string, p: Payload): Row
    requires FirstMissing(p, RequiredAttributes).None?
  {
    assert forall i :: 0 <= i < |RequiredAttributes| ==> RequiredAttributes[i] in p.attributes;
    assert RequiredAttributes[0] == "lowest_price" && RequiredAttributes[1] == "median_price" && RequiredAttributes[2] == "volume"
        && RequiredAttributes[3] == "spread_absolute" && RequiredAttributes[4] == "spread_percentage";
    var a := p.attributes;
    Row(skin, timestamp, a["lowest_price"], a["median_price"], TruncateToInt(a["volume"]),
        a["spread_absolute"], a["spread_percentage"])
  }

  /** The argument checks of `insert_market_data`, in order. */
  function InsertArgumentError(skin: string, data: Option<Payload>): (e: Option<StoreError>)
  {
    if Trim(skin) == [] then Some(InvalidArgument("skin"))
    else if data.None? then Some(InvalidArgument("market_data"))
    else match FirstMissing(data.value, RequiredAttributes)
      case Some(a) => Some(InvalidArgument(a))
      case None => None
  }

  // ----- cleanup_old_data -----

  predicate Older(r: Row, cutoff: string) { TextLt(r.timestamp, cutoff) }

  /** `SELECT COUNT(*) FROM market_data WHERE timestamp < ?`. */
  function OlderCount(rows: seq<Row>, cutoff: string): (n: nat)
    ensures n <= |rows|
    ensures n == 0 <==> forall r :: r in rows ==> !Older(r, cutoff)
  {
    if rows == [] then 0
    else
      assert forall r :: r in rows <==> r == rows[0] || r in rows[1..];
      (if Older(rows[0], cutoff) then 1 else 0) + OlderCount(rows[1..], cutoff)
  }

  /** The rows `DELETE FROM market_data WHERE timestamp < ?` leaves, in their order. */
  function KeepRecent(rows: seq<Row>, cutoff: string): (kept: seq<Row>)
    ensures |kept| + OlderCount(rows, cutoff) == |rows|
    ensures forall r :: multiset(kept)[r] == if Older(r, cutoff) then 0 else multiset(rows)[r]
  {
    if rows == [] then []
    else
      assert rows == [rows[0]] + rows[1..];
      (if Older(rows[0], cutoff) then [] else [rows[0]]) + KeepRecent(rows[1..], cutoff)
  }

  /** No row older than the cutoff remains, every other row stays (as often as it was stored), and
    * with nothing to delete the rows are untouched. */
  lemma KeepRecentSpec(rows: seq<Row>, cutoff: string)
    ensures forall r :: r in KeepRecent(rows, cutoff) ==> !Older(r, cutoff)
    ensures forall r :: r in rows && !Older(r, cutoff) ==> r in KeepRecent(rows, cutoff)
    ensures OlderCount(rows, cutoff) == 0 ==> KeepRecent(rows, cutoff) == rows
  {
    forall r | r in KeepRecent(rows, cutoff) ensures !Older(r, cutoff) {
      assert r in multiset(KeepRecent(rows, cutoff));
    }
    forall r | r in rows && !Older(r, cutoff) ensures r in KeepRecent(rows, cutoff) {
      assert r in multiset(rows);
      assert r in multiset(KeepRecent(rows, cutoff));
    }
    if OlderCount(rows, cutoff) == 0 {
      KeepAllRecent(rows, cutoff);
    }
  }

  lemma {:induction false} KeepAllRecent(rows: seq<Row>, cutoff: string)
    requires OlderCount(rows, cutoff) == 0
    ensures KeepRecent(rows, cutoff) == rows
  {
    if rows != [] {
      assert rows[0] in rows;
      assert OlderCount(rows[1..], cutoff) == 0;
      KeepAllRecent(rows[1..], cutoff);
      assert rows == [rows[0]] + rows[1..];
    }
  }

  /** A metric column that does not exist reads as its default, 0, in the row. */
  predicate DefaultsWhereAbsent(columns: set<Column>, r: Row) {
    && (MedianPriceColumn !in columns ==> r.medianPrice == 0.0)
    && (VolumeColumn !in columns ==> r.volume == 0)
    && (SpreadAbsoluteColumn !in columns ==> r.spreadAbsolute == 0.0)
    && (SpreadPercentageColumn !in columns ==> r.spreadPercentage == 0.0)
  }

  /** The column loop of the v1→v2 step (`for column_name, column_def in new_columns`). */
  method AddColumns(existing: set<Column>, defs: seq<ColumnDef>, naming: Naming) returns (r: Result<set<Column>, StoreError>)
    ensures r == AlterColumns(existing, defs, naming)
  {
    var cols := existing;
    var i := 0;
    while i < |defs|
      invariant 0 <= i <= |defs|
      invariant AlterColumns(existing, defs[..i], naming) == Ok(cols)
    {
      assert defs[..i + 1][..i] == defs[..i];
      var d := defs[i];
      if d.name !in existing {
        var added := AddedName(d, naming);
        if added in cols {
          AlterStaysFailed(existing, defs, naming, i + 1);
          return Err(OperationFailed("duplicate column name"));
        }
        cols := cols + {added};
      }
      i := i + 1;
    }
    assert defs[..i] == defs;
    return Ok(cols);
  }

  lemma {:induction false} AlterStaysFailed(existing: set<Column>, defs: seq<ColumnDef>, naming: Naming, n: nat)
    requires n <= |defs| && AlterColumns(existing, defs[..n], naming).Err?
    ensures AlterColumns(existing, defs, naming) == AlterColumns(existing, defs[..n], naming)
    decreases |defs| - n
  {
    if n < |defs| {
      assert defs[..n + 1][..n] == defs[..n];
      AlterStaysFailed(existing, defs, naming, n + 1);
    } else {
      assert defs[..n] == defs;
    }
  }

  /** A `CREATE INDEX` / `CREATE VIEW ... IF NOT EXISTS` loop. */
  method CreateAll(present: set<ObjectName>, cols: set<Column>, defs: seq<SchemaObject>) returns (r: Result<set<ObjectName>, StoreError>)
    ensures r == CreateObjects(present, cols, defs)
  {
    var made := present;
    var i := 0;
    while i < |defs|
      invariant 0 <= i <= |defs|
      invariant CreateObjects(present, cols, defs[..i]) == Ok(made)
    {
      assert defs[..i + 1][..i] == defs[..i];
      var d := defs[i];
      if d.name !in made {
        if d.kind == Index && !(d.columns <= cols) {
          CreateObjectsStaysFailed(present, cols, defs, i + 1);
          return Err(OperationFailed("no such column"));
        }
        made := made + {d.name};
      }
      i := i + 1;
    }
    assert defs[..i] == defs;
    return Ok(made);
  }

  /** The view loop never fails: both views are created over any columns, the missing ones
    * included. */
  lemma ViewsAlwaysCreated(present: set<ObjectName>, cols: set<Column>)
    ensures CreateObjects(present, cols, Views) == Ok(present + {DailySummary, LatestPrices})
  {
    CreateObjectsSucceeds(present, cols, Views);
    assert Names(Views) == {DailySummary, LatestPrices};
  }

  /** Every index and view refers only to columns of the current table, and the kinds are as
    * their statements say. */
  lemma SchemaObjectsUseCurrentColumns()
    ensures forall k :: 0 <= k < |Indexes| ==> Indexes[k].columns <= AllColumns
    ensures forall k :: 0 <= k < |Views| ==> Views[k].columns <= AllColumns
    ensures forall k :: 0 <= k < |Indexes| ==> Indexes[k].kind == Index
    ensures forall k :: 0 <= k < |Views| ==> Views[k].kind == View
  {
  }

  // ----- the schema steps -----

  /** The schema objects of the database file: its tables, the columns of `market_data`, the indexes
    * and the views. */
  datatype Schema = Schema(tables: set<Table>, columns: set<Column>, indexes: set<ObjectName>, views: set<ObjectName>)

  /** A database file nothing has been created in yet. */
  const NoSchema: Schema := Schema({}, {}, {}, {})

  /** The schema a fresh database file has after `_create_initial_schema`. */
  const CurrentSchema: Schema := Schema({VersionTable, MarketTable}, AllColumns, Names(Indexes), Names(Views))

  /** Without `market_data` it has no columns; with it, at least those every version has. */
  predicate WellFormed(s: Schema) {
    && (MarketTable !in s.tables ==> s.columns == {})
    && (MarketTable in s.tables ==> BaseColumns <= s.columns)
  }

  /** `_create_initial_schema` on the schema: both tables `IF NOT EXISTS` (an existing `market_data`
    * keeps its columns), then the index loop, then the view loop. */
  function InitialSchema(s: Schema): Result<Schema, StoreError>
  {
    var cols := if MarketTable in s.tables then s.columns else AllColumns;
    match CreateObjects(s.indexes, cols, Indexes)
    case Err(e) => Err(e)
    case Ok(idx) =>
      match CreateObjects(s.views, cols, Views)
      case Err(e) => Err(e)
      case Ok(vws) => Ok(Schema(s.tables + {VersionTable, MarketTable}, cols, idx, vws))
  }

  /** Without `market_data` the initial schema cannot fail: it creates the current table and every
    * index and view. */
  lemma InitialSchemaOnNewFile(s: Schema)
    requires MarketTable !in s.tables
    ensures InitialSchema(s) == Ok(Schema(s.tables + {VersionTable, MarketTable}, AllColumns,
                                          s.indexes + Names(Indexes), s.views + Names(Views)))
    ensures s == NoSchema ==> InitialSchema(s) == Ok(CurrentSchema)
  {
    SchemaObjectsUseCurrentColumns();
    CreateObjectsSucceeds(s.indexes, AllColumns, Indexes);
    CreateObjectsSucceeds(s.views, AllColumns, Views);
    if s == NoSchema {
      assert s.tables + {VersionTable, MarketTable} == CurrentSchema.tables;
      assert s.indexes + Names(Indexes) == CurrentSchema.indexes;
      assert s.views + Names(Views) == CurrentSchema.views;
    }
  }

  /** A `market_data` table without `volume` (a version-1 table) and without `idx_volume_analysis`
    * makes the initial schema fail: the index needs the column. */
  lemma {:induction false} InitialSchemaFailsWithoutVolume(s: Schema)
    requires MarketTable in s.tables && VolumeColumn !in s.columns && IdxVolumeAnalysis !in s.indexes
    ensures InitialSchema(s).Err?
  {
    var init := Indexes[..5];
    assert Indexes[..|Indexes| - 1] == init;
    assert Indexes[5] == SchemaObject(Index, IdxVolumeAnalysis, {VolumeColumn, TimestampColumn});
    match CreateObjects(s.indexes, s.columns, init)
    case Err(_) =>
    case Ok(made) =>
      NamesMade(s.indexes, s.columns, init);
      forall n | n in Names(init) ensures n != IdxVolumeAnalysis {
        var k :| 0 <= k < |init| && init[k].name == n;
      }
  }

  /** A `market_data` table with `volume`, even one without `median_price`, gets every index and
    * view: the indexes need only the columns every version has and `volume`, and the view over
    * `median_price` is not checked until it is used. */
  lemma InitialSchemaWithVolume(s: Schema)
    requires WellFormed(s) && MarketTable in s.tables && VolumeColumn in s.columns
    ensures InitialSchema(s) == Ok(Schema(s.tables + {VersionTable, MarketTable}, s.columns,
                                          s.indexes + Names(Indexes), s.views + Names(Views)))
  {
    SchemaObjectsUseCurrentColumns();
    CreateObjectsSucceeds(s.indexes, s.columns, Indexes);
    CreateObjectsSucceeds(s.views, s.columns, Views);
  }

  /** A successful initial schema has both tables, keeps every index and view present and is well formed. */
  lemma {:induction false} InitialSchemaKeeps(s: Schema)
    requires WellFormed(s) && InitialSchema(s).Ok?
    ensures var t := InitialSchema(s).value;
            && WellFormed(t) && t.tables == s.tables + {VersionTable, MarketTable}
            && s.indexes <= t.indexes && s.views <= t.views
            && (MarketTable in s.tables ==> t.columns == s.columns)
  {
    var cols := if MarketTable in s.tables then s.columns else AllColumns;
    CreateObjectsGrows(s.indexes, cols, Indexes);
    CreateObjectsGrows(s.views, cols, Views);
  }

  lemma {:induction false} CreateObjectsGrows(present: set<ObjectName>, cols: set<Column>, defs: seq<SchemaObject>)
    requires CreateObjects(present, cols, defs).Ok?
    ensures present <= CreateObjects(present, cols, defs).value
  {
    if defs != [] {
      CreateObjectsGrows(present, cols, defs[..|defs| - 1]);
    }
  }

  /** `_migrate_schema_v1_to_v2` on the schema: the column loop, the index loop, the view loop and the
    * backfill, which needs `median_price`; `naming` says how `ADD COLUMN` names the new column. */
  function MigratedSchema(s: Schema, naming: Naming): Result<Schema, StoreError>
  {
    if MarketTable !in s.tables then Err(OperationFailed("no such table: market_data"))
    else
      match AlterColumns(s.columns, MetricColumns, naming)
      case Err(e) => Err(e)
      case Ok(cols) =>
        match CreateObjects(s.indexes, cols, Indexes)
        case Err(e) => Err(e)
        case Ok(idx) =>
          match CreateObjects(s.views, cols, Views)
          case Err(e) => Err(e)
          case Ok(vws) =>
            if MedianPriceColumn !in cols then Err(OperationFailed("no such column: median_price"))
            else Ok(s.(columns := cols, indexes := idx, views := vws))
  }

  /** With the column named, the step cannot fail on a well-formed table: it adds exactly the
    * missing metric columns and every index and view. */
  lemma MigratedSchemaByName(s: Schema)
    requires WellFormed(s) && MarketTable in s.tables
    ensures MigratedSchema(s, ByName) ==
              Ok(s.(columns := s.columns + MetricNames, indexes := s.indexes + Names(Indexes), views := s.views + Names(Views)))
  {
    AlterColumnsByName(s.columns);
    SchemaObjectsUseCurrentColumns();
    CreateObjectsSucceeds(s.indexes, s.columns + MetricNames, Indexes);
    CreateObjectsSucceeds(s.views, s.columns + MetricNames, Views);
  }

  /** Migrating a migrated schema changes nothing. */
  lemma MigratedSchemaIdempotent(s: Schema)
    requires WellFormed(s) && MarketTable in s.tables
    ensures MigratedSchema(s, ByName).Ok?
    ensures MigratedSchema(MigratedSchema(s, ByName).value, ByName) == MigratedSchema(s, ByName)
  {
    MigratedSchemaByName(s);
    var t := MigratedSchema(s, ByName).value;
    MigratedSchemaByName(t);
    assert t.columns + MetricNames == t.columns;
    assert t.indexes + Names(Indexes) == t.indexes;
    assert t.views + Names(Views) == t.views;
  }

  /** As written, the step fails on every table missing both `median_price` and `spread_absolute`,
    * a version-1 table among them. */
  lemma MigratedSchemaAsWrittenFails(s: Schema)
    requires MarketTable in s.tables && MedianPriceColumn !in s.columns && SpreadAbsoluteColumn !in s.columns
    ensures MigratedSchema(s, AsWritten).Err?
    ensures s.columns == V1Columns ==> MigratedSchema(s, ByName).Ok?
  {
    AlterAsWrittenFailsWithoutTwoRealColumns(s.columns);
    if s.columns == V1Columns {
      MigratedSchemaByName(s);
    }
  }

  /** A step that succeeds keeps a well-formed schema well formed, only grows it and has `median_price`. */
  lemma {:induction false} MigratedSchemaKeeps(s: Schema, naming: Naming)
    requires WellFormed(s) && MigratedSchema(s, naming).Ok?
    ensures var t := MigratedSchema(s, naming).value;
            && WellFormed(t) && t.tables == s.tables && s.columns <= t.columns
            && s.indexes <= t.indexes && s.views <= t.views && MedianPriceColumn in t.columns
  {
    AlterColumnsGrows(s.columns, MetricColumns, naming);
    var cols := AlterColumns(s.columns, MetricColumns, naming).value;
    CreateObjectsGrows(s.indexes, cols, Indexes);
    CreateObjectsGrows(s.views, cols, Views);
  }

  lemma {:induction false} AlterColumnsGrows(existing: set<Column>, defs: seq<ColumnDef>, naming: Naming)
    requires AlterColumns(existing, defs, naming).Ok?
    ensures existing <= AlterColumns(existing, defs, naming).value
  {
    if defs != [] {
      AlterColumnsGrows(existing, defs[..|defs| - 1], naming);
    }
  }

  class ObservationStore {
    var schema: Schema
    var ledger: seq<LedgerEntry>
    var rows: seq<Row>
    var backups: seq<seq<Row>>

    ghost predicate Valid()
      reads this
    {
      && WellFormed(schema)
      && (MarketTable !in schema.tables ==> rows == [])
      && (VersionTable !in schema.tables ==> ledger == [])
      && DistinctVersions(ledger)
      && (forall r :: r in rows ==> DefaultsWhereAbsent(schema.columns, r))
    }

    /** A database file that has not been created yet. */
    constructor ()
      ensures Valid()
      ensures schema == NoSchema && ledger == [] && rows == [] && backups == []
    {
      schema, ledger, rows, backups := NoSchema, [], [], [];
    }

    function SchemaVersion(): int
      reads this
    {
      VersionOf(schema.tables, ledger)
    }

    /** `_set_schema_version`: upserts the ledger entry; without the ledger table the statement fails. */
    method SetSchemaVersion(version: int, description: string) returns (r: Outcome<StoreError>)
      requires Valid()
      modifies this
      ensures Valid()
      ensures schema == old(schema) && rows == old(rows) && backups == old(backups)
      ensures VersionTable !in old(schema.tables) ==> r.Fail? && ledger == old(ledger)
      ensures VersionTable in old(schema.tables) ==> r.Pass? && ledger == Upsert(old(ledger), LedgerEntry(version, description))
    {
      if VersionTable !in schema.tables {
        return Fail(OperationFailed("no such table: schema_version"));
      }
      UpsertSpec(schema.tables, ledger, LedgerEntry(version, description));
      ledger := Upsert(ledger, LedgerEntry(version, description));
      return Pass;
    }

    /** `_create_initial_schema`; the model treats a failure as leaving the schema unchanged. */
    method CreateInitialSchema() returns (r: Outcome<StoreError>)
      requires Valid()
      modifies this
      ensures Valid()
      ensures ledger == old(ledger) && rows == old(rows) && backups == old(backups)
      ensures r.Pass? <==> InitialSchema(old(schema)).Ok?
      ensures r.Pass? ==> schema == InitialSchema(old(schema)).value
      ensures r.Fail? ==> schema == old(schema)
    {
      var cols := if MarketTable in schema.tables then schema.columns else AllColumns;
      var idx := CreateAll(schema.indexes, cols, Indexes);
      if idx.Err? {
        return Fail(idx.error);
      }
      var vws := CreateAll(schema.views, cols, Views);
      if vws.Err? {
        return Fail(vws.error);
      }
      InitialSchemaKeeps(schema);
      schema := Schema(schema.tables + {VersionTable, MarketTable}, cols, idx.value, vws.value);
      r := Pass;
    }

    /** `_migrate_schema_v1_to_v2`: a backup first, then in one transaction the missing metric
      * columns (named as `naming` says), the indexes, the views and the median backfill. */
    method MigrateV1ToV2(naming: Naming) returns (r: Outcome<StoreError>)
      requires Valid()
      modifies this
      ensures Valid()
      ensures backups == old(backups) + [old(rows)] && ledger == old(ledger)
      ensures r.Pass? <==> MigratedSchema(old(schema), naming).Ok?
      ensures r.Pass? ==> schema == MigratedSchema(old(schema), naming).value && rows == Backfill(old(rows))
      ensures r.Fail? ==> schema == old(schema) && rows == old(rows)
    {
      backups := backups + [rows];
      if MarketTable !in schema.tables {
        return Fail(OperationFailed("no such table: market_data"));
      }
      var added := AddColumns(schema.columns, MetricColumns, naming);
      if added.Err? {
        return Fail(added.error);
      }
      var cols := added.value;
      var idx := CreateAll(schema.indexes, cols, Indexes);
      if idx.Err? {
        return Fail(idx.error);
      }
      var vws := CreateAll(schema.views, cols, Views);
      if vws.Err? {
        return Fail(vws.error);
      }
      if MedianPriceColumn !in cols {
        return Fail(OperationFailed("no such column: median_price"));
      }
      MigratedSchemaKeeps(schema, naming);
      BackfillKeepsDefaults(schema.columns, cols, rows);
      schema, rows := schema.(columns := cols, indexes := idx.value, views := vws.value), Backfill(rows);
      r := Pass;
    }

    /** The v0→v1 block of `_migrate_database`: `_create_initial_schema`, then version 1 recorded. */
    method UpgradeToV1() returns (r: Outcome<StoreError>)
      requires Valid() && SchemaVersion() < 1
      modifies this
      ensures Valid()
      ensures rows == old(rows) && backups == old(backups)
      ensures r.Pass? <==> InitialSchema(old(schema)).Ok?
      ensures r.Pass? ==> schema == InitialSchema(old(schema)).value && SchemaVersion() == 1
                          && ledger == Upsert(old(ledger), LedgerEntry(1, InitialDescription))
      ensures r.Fail? ==> schema == old(schema) && ledger == old(ledger)
    {
      r := CreateInitialSchema();
      if r.Fail? {
        return;
      }
      AllBelow(schema.tables, ledger, 1);
      UpsertSpec(schema.tables, ledger, LedgerEntry(1, InitialDescription));
      var recorded := SetSchemaVersion(1, InitialDescription);
    }

    /** The v1→v2 block of `_migrate_database`: `_migrate_schema_v1_to_v2` with the columns named as
      * `naming` says, then version 2 recorded (which fails, after the committed step, when there is no
      * ledger table). As written (`AsWritten`) the step fails on every version-1 table. */
    method UpgradeToV2(naming: Naming) returns (r: Outcome<StoreError>)
      requires Valid() && SchemaVersion() <= 1
      modifies this
      ensures Valid()
      ensures backups == old(backups) + [old(rows)]
      ensures r.Pass? <==> MigratedSchema(old(schema), naming).Ok? && VersionTable in old(schema.tables)
      ensures MigratedSchema(old(schema), naming).Ok? ==>
                schema == MigratedSchema(old(schema), naming).value && rows == Backfill(old(rows))
      ensures MigratedSchema(old(schema), naming).Err? ==>
                r.Fail? && schema == old(schema) && rows == old(rows) && ledger == old(ledger)
      ensures naming == ByName ==> (MigratedSchema(old(schema), ByName).Ok? <==> MarketTable in old(schema.tables))
      ensures naming == ByName && MarketTable in old(schema.tables) ==>
                AllColumns <= schema.columns && Names(Indexes) <= schema.indexes && Names(Views) <= schema.views
      ensures naming == AsWritten && MarketTable in old(schema.tables)
              && MedianPriceColumn !in old(schema.columns) && SpreadAbsoluteColumn !in old(schema.columns) ==>
                r.Fail? && schema == old(schema) && rows == old(rows) && ledger == old(ledger)
      ensures r.Pass? ==> ledger == Upsert(old(ledger), LedgerEntry(2, EnhancedDescription)) && SchemaVersion() == 2
    {
      AllBelow(schema.tables, ledger, 2);
      if MarketTable in schema.tables {
        MigratedSchemaByName(schema);
        if MedianPriceColumn !in schema.columns && SpreadAbsoluteColumn !in schema.columns {
          MigratedSchemaAsWrittenFails(schema);
        }
      }
      r := MigrateV1ToV2(naming);
      if r.Fail? {
        return;
      }
      UpsertSpec(schema.tables, ledger, LedgerEntry(2, EnhancedDescription));
      r := SetSchemaVersion(2, EnhancedDescription);
    }

    /** `_migrate_database`: from the recorded version step by step to `CURRENT_SCHEMA_VERSION`, with the
      * v1→v2 columns named as `naming` says. A fresh file needs no column added, so it reaches the
      * current schema either way; a version-1 table reaches version 2 only with the columns named. */
    method Migrate(naming: Naming) returns (r: Outcome<StoreError>)
      requires Valid()
      modifies this
      ensures Valid()
      ensures old(SchemaVersion()) == CurrentSchemaVersion ==> r.Pass? && unchanged(this)
      ensures old(SchemaVersion()) > CurrentSchemaVersion ==> r.Fail? && unchanged(this)
      ensures old(SchemaVersion()) < CurrentSchemaVersion && r.Pass? ==>
                SchemaVersion() == CurrentSchemaVersion && rows == Backfill(old(rows))
      ensures naming == ByName && old(SchemaVersion()) < CurrentSchemaVersion && r.Pass? ==>
                AllColumns <= schema.columns && Names(Indexes) <= schema.indexes && Names(Views) <= schema.views
      ensures naming == ByName && old(SchemaVersion()) == 1 && MarketTable in old(schema.tables) ==> r.Pass?
      ensures naming == AsWritten && old(SchemaVersion()) == 1 && MarketTable in old(schema.tables)
              && MedianPriceColumn !in old(schema.columns) && SpreadAbsoluteColumn !in old(schema.columns) ==>
                r.Fail? && schema == old(schema) && rows == old(rows) && ledger == old(ledger)
      ensures old(schema) == NoSchema ==>
                r.Pass? && schema == CurrentSchema && rows == []
                && ledger == [LedgerEntry(1, InitialDescription), LedgerEntry(2, EnhancedDescription)]
      ensures r.Fail? ==> rows == old(rows)
    {
      var current := SchemaVersion();
      if current == CurrentSchemaVersion {
        return Pass;
      }
      if current > CurrentSchemaVersion {
        return Fail(InvalidArgument("schema version newer than supported"));
      }
      if current < 1 {
        if old(schema) == NoSchema {
          InitialSchemaOnNewFile(schema);
          FreshLedger();
        }
        r := UpgradeToV1();
        if r.Fail? {
          return;
        }
      }
      if old(schema) == NoSchema {
        MigratedCurrentSchema(naming);
      }
      r := UpgradeToV2(naming);
    }

    /** `insert_market_data(skin, market_data)` at time `now`: the argument checks in order, then one
      * row with the stripped name appended; a table or column missing makes the statement fail. */
    method InsertMarketData(skin: string, data: Option<Payload>, now: string) returns (r: Outcome<StoreError>)
      requires Valid()
      modifies this
      ensures Valid()
      ensures schema == old(schema) && ledger == old(ledger) && backups == old(backups)
      ensures InsertArgumentError(skin, data).Some? ==> r == Fail(InsertArgumentError(skin, data).value)
      ensures r.Pass? <==> InsertArgumentError(skin, data).None? && MarketTable in old(schema.tables) && AllColumns <= old(schema.columns)
      ensures r.Pass? ==> rows == old(rows) + [NewRow(Trim(skin), now, data.value)]
      ensures r.Fail? ==> rows == old(rows)
    {
      var error := InsertArgumentError(skin, data);
      if error.Some? {
        return Fail(error.value);
      }
      if MarketTable !in schema.tables || !(AllColumns <= schema.columns) {
        return Fail(OperationFailed("no such table or column"));
      }
      rows := rows + [NewRow(Trim(skin), now, data.value)];
      r := Pass;
    }

    /** `cleanup_old_data` with the deletion committed before `VACUUM`: a backup first, then the
      * number of rows older than the cutoff, which are deleted when there are any. */
    method CleanupOldData(cutoff: string) returns (r: Result<nat, StoreError>)
      requires Valid()
      modifies this
      ensures Valid()
      ensures schema == old(schema) && ledger == old(ledger) && backups == old(backups) + [old(rows)]
      ensures MarketTable !in old(schema.tables) ==> r.Err? && rows == old(rows)
      ensures MarketTable in old(schema.tables) ==> r == Ok(OlderCount(old(rows), cutoff)) && rows == KeepRecent(old(rows), cutoff)
    {
      backups := backups + [rows];
      if MarketTable !in schema.tables {
        return Err(OperationFailed("no such table: market_data"));
      }
      var count := OlderCount(rows, cutoff);
      if count == 0 {
        KeepRecentSpec(rows, cutoff);
        return Ok(0);
      }
      KeepRecentKeepsDefaults(schema.columns, rows, cutoff);
      rows := KeepRecent(rows, cutoff);
      r := Ok(count);
    }

    /** `cleanup_old_data` as written: `VACUUM` runs inside the transaction the `DELETE` opened,
      * which SQLite refuses, so whenever there is something to delete the deletion is rolled back
      * and the call fails. */
    method CleanupOldDataAsWritten(cutoff: string) returns (r: Result<nat, StoreError>)
      requires Valid()
      modifies this
      ensures Valid()
      ensures schema == old(schema) && ledger == old(ledger) && backups == old(backups) + [old(rows)]
      ensures rows == old(rows)
      ensures r.Ok? <==> MarketTable in old(schema.tables) && OlderCount(old(rows), cutoff) == 0
      ensures r.Ok? ==> r.value == 0
    {
      backups := backups + [rows];
      if MarketTable !in schema.tables {
        return Err(OperationFailed("no such table: market_data"));
      }
      var count := OlderCount(rows, cutoff);
      if count == 0 {
        return Ok(0);
      }
      return Err(OperationFailed("cannot VACUUM from within a transaction"));
    }
  }

  const InitialDescription: string := "Initial schema creation"
  const EnhancedDescription: string := "Enhanced market data with spread analysis"

  /** Migrating the current schema changes nothing, however the columns are named: none is missing. */
  lemma MigratedCurrentSchema(naming: Naming)
    ensures MigratedSchema(CurrentSchema, naming) == Ok(CurrentSchema)
  {
    var c := CurrentSchema;
    MetricColumnsPresent(c.columns, naming);
    MetricColumnsPresent(c.columns, ByName);
    MigratedSchemaByName(c);
    assert c.columns + MetricNames == c.columns;
    assert c.indexes + Names(Indexes) == c.indexes;
    assert c.views + Names(Views) == c.views;
  }

  /** Recording versions 1 and 2 into an empty ledger leaves exactly those two entries. */
  lemma FreshLedger()
    ensures Upsert(Upsert([], LedgerEntry(1, InitialDescription)), LedgerEntry(2, EnhancedDescription))
            == [LedgerEntry(1, InitialDescription), LedgerEntry(2, EnhancedDescription)]
  {
    var e1 := LedgerEntry(1, InitialDescription);
    assert Upsert([], e1) == [e1];
    assert WithoutVersion([e1], 2) == [e1];
  }

  /** Below version `v` every recorded version is at most `v`. */
  lemma AllBelow(tables: set<Table>, ledger: seq<LedgerEntry>, v: int)
    requires VersionTable !in tables ==> ledger == []
    requires VersionOf(tables, ledger) <= v
    ensures forall i :: 0 <= i < |ledger| ==> ledger[i].version <= v
  {
  }

  /** The backfill only fills in the median, so with more columns and `median_price` present the
    * absent metric columns still read as 0. */
  lemma BackfillKeepsDefaults(before: set<Column>, after: set<Column>, rows: seq<Row>)
    requires before <= after && MedianPriceColumn in after
    requires forall r :: r in rows ==> DefaultsWhereAbsent(before, r)
    ensures forall r :: r in Backfill(rows) ==> DefaultsWhereAbsent(after, r)
  {
    forall r | r in Backfill(rows) ensures DefaultsWhereAbsent(after, r) {
      var i :| 0 <= i < |rows| && Backfill(rows)[i] == r;
      assert rows[i] in rows;
    }
  }

  lemma KeepRecentKeepsDefaults(columns: set<Column>, rows: seq<Row>, cutoff: string)
    requires forall r :: r in rows ==> DefaultsWhereAbsent(columns, r)
    ensures forall r :: r in KeepRecent(rows, cutoff) ==> DefaultsWhereAbsent(columns, r)
  {
    forall r | r in KeepRecent(rows, cutoff) ensures DefaultsWhereAbsent(columns, r) {
      assert r in multiset(KeepRecent(rows, cutoff));
      assert r in multiset(rows);
    }
  }

  // ----- the ALTER TABLE statement as written -----

  /** The `market_data` columns of a version-1 table. */
  const V1Columns: set<Column> := BaseColumns

  /** As written, the statement names the first new column `REAL`, the second `INTEGER`, and the third
    * again `REAL`, which SQLite rejects: a version-1 table cannot be migrated. */
  lemma AlterAsWrittenFailsOnV1Table()
    ensures AlterColumns(V1Columns, MetricColumns, AsWritten).Err?
    ensures AlterColumns(V1Columns, MetricColumns, ByName) == Ok(AllColumns)
  {
    var m := MetricColumns;
    assert m[..1][..0] == [] && m[..2][..1] == m[..1] && m[..3][..2] == m[..2] && m[..4][..3] == m[..3] && m[..4] == m;
    assert AlterColumns(V1Columns, m[..1], AsWritten) == Ok(V1Columns + {ColumnNamed("REAL")});
    assert AlterColumns(V1Columns, m[..2], AsWritten) == Ok(V1Columns + {ColumnNamed("REAL")} + {ColumnNamed("INTEGER")});
    AlterColumnsByName(V1Columns);
  }

  /** As written, whenever both `median_price` and `spread_absolute` are missing the step fails. */
  lemma AlterAsWrittenFailsWithoutTwoRealColumns(existing: set<Column>)
    requires MedianPriceColumn !in existing && SpreadAbsoluteColumn !in existing
    ensures AlterColumns(existing, MetricColumns, AsWritten).Err?
  {
    var m := MetricColumns;
    assert m[..1][..0] == [] && m[..2][..1] == m[..1] && m[..3][..2] == m[..2] && m[..4][..3] == m[..3] && m[..4] == m;
    if AlterColumns(existing, m[..3], AsWritten).Ok? {
      assert ColumnNamed("REAL") in AlterColumns(existing, m[..2], AsWritten).value;
    }
  }

  /** As written, no metric column is ever added: even a step that succeeds leaves every missing
    * metric column missing. */
  lemma {:induction false} AlterAsWrittenAddsNoMetric(existing: set<Column>, defs: seq<ColumnDef>)
    requires AlterColumns(existing, defs, AsWritten).Ok?
    ensures AlterColumns(existing, defs, AsWritten).value * MetricNames == existing * MetricNames
  {
    if defs != [] {
      AlterAsWrittenAddsNoMetric(existing, defs[..|defs| - 1]);
    }
  }

  /** Once a prefix of the loop fails, the whole loop fails. */
  lemma {:induction false} CreateObjectsStaysFailed(present: set<ObjectName>, cols: set<Column>, defs: seq<SchemaObject>, n: nat)
    requires n <= |defs| && CreateObjects(present, cols, defs[..n]).Err?
    ensures CreateObjects(present, cols, defs) == CreateObjects(present, cols, defs[..n])
    decreases |defs| - n
  {
    if n < |defs| {
      assert defs[..n + 1][..n] == defs[..n];
      CreateObjectsStaysFailed(present, cols, defs, n + 1);
    } else {
      assert defs[..n] == defs;
    }
  }
}
