/** The SQL Server side of the service: the warehouse's tables as mutable
    state, and the two helpers that change them. */
module SqlServer {
  import opened Wrappers
  import opened JsText
  import opened Coercion
  import opened Schema
  import opened Loader

  class Warehouse {
    /** The tables of schema `dbo`. */
    var tables: Tables

    constructor (initial: Tables)
      ensures tables == initial
    {
      tables := initial;
    }

    /** One `ALTER TABLE ... ADD` statement as the warehouse executes it. */
    method AlterAdd(name: string, c: ColumnDef) returns (outcome: Outcome<SchemaError>)
      requires name in tables
      modifies this
      ensures name in tables
      ensures c.name == "" ==> outcome == Fail(EmptyName) && tables == old(tables)
      ensures c.name != "" && HasColumn(old(tables)[name].columns, c.name) ==>
        outcome == Fail(DuplicateColumn(c.name)) && tables == old(tables)
      ensures c.name != "" && !HasColumn(old(tables)[name].columns, c.name) && !c.nullable && |old(tables)[name].records| > 0 ==>
        outcome == Fail(NotNullOnNonEmpty(c.name)) && tables == old(tables)
      ensures c.name != "" && !HasColumn(old(tables)[name].columns, c.name) && (c.nullable || |old(tables)[name].records| == 0) ==>
        outcome == Pass && tables == old(tables)[name := old(tables)[name].(columns := old(tables)[name].columns + [c])]
    {
      var t := tables[name];
      if c.name == "" {
        // `[]` is not an identifier SQL Server accepts
        return Fail(EmptyName);
      }
      if HasColumn(t.columns, c.name) {
        return Fail(DuplicateColumn(c.name));
      }
      if !c.nullable && |t.records| > 0 {
        return Fail(NotNullOnNonEmpty(c.name));
      }
      tables := tables[name := t.(columns := t.columns + [c])];
      return Pass;
    }

    /** `ensureTableWithColumns(pool, name, headers)`. */
    method EnsureTableWithColumns(name: string, headers: seq<string>) returns (outcome: Outcome<SchemaError>)
      modifies this
      ensures (outcome, tables) == Reconcile(old(tables), name, headers)
    {
      if name !in tables {
        var (o, cols) := CreateColumns(headers);
        if o.Fail? {
          return o;
        }
        tables := tables[name := TableState(cols, [])];
        return Pass;
      }
      var existing := LowerNames(tables[name].columns);
      ghost var t := tables[name];
      var o := AlterMissing(name, MissingHeaders(existing, headers));
      if o.Fail? {
        return o;
      }
      ghost var cols := AddColumns(t.columns, MissingHeaders(existing, headers)).1;
      assert tables[name] == t.(columns := cols);
      if SnapshotColumn !in existing {
        outcome := AlterAdd(name, SnapshotDef);
        assert outcome.Pass? ==> tables == old(tables)[name := t.(columns := cols + [SnapshotDef])];
      } else {
        outcome := Pass;
      }
    }

    /** The `for (const h of toAdd)` loop: one ALTER per missing header, the
        first failure ending the loop with the earlier columns in place. */
    method AlterMissing(name: string, toAdd: seq<string>) returns (outcome: Outcome<SchemaError>)
      requires name in tables
      modifies this
      ensures name in tables
      ensures var (o, cols) := AddColumns(old(tables)[name].columns, toAdd);
        outcome == o && tables == old(tables)[name := old(tables)[name].(columns := cols)]
    {
      var i := 0;
      while i < |toAdd|
        invariant 0 <= i <= |toAdd|
        invariant name in tables
        invariant tables == old(tables)[name := old(tables)[name].(columns := tables[name].columns)]
        invariant AddColumns(old(tables)[name].columns, toAdd) == AddColumns(tables[name].columns, toAdd[i..])
      {
        assert toAdd[i..][1..] == toAdd[i + 1..];
        var o := AlterAdd(name, TextColumn(toAdd[i]));
        if o.Fail? {
          return o;
        }
        i := i + 1;
      }
      assert toAdd[i..] == [];
      outcome := Pass;
    }

    /** `bulkInsertToSQL(rows, name, mappings)` on the day numbered `today`;
        `sent` is the bulk table handed to the driver. */
    method BulkInsertToSql(rt: Runtime, rows: seq<seq<Value>>, name: string,
                           mappings: map<string, SqlType>, today: int)
      returns (result: Result<Option<LoadSummary>, LoadError>, sent: Option<BulkTable>)
      modifies this
      ensures LoadStep(result, tables, sent) == Load(rt, old(tables), rows, name, mappings, today)
    {
      if |rows| <= 1 {
        return Success(None), None;
      }
      var headerTexts := HeaderTexts(rows[0]);
      if headerTexts.None? {
        return Failure(HeaderNotText), None;
      }
      var headers := headerTexts.value;
      if name !in tables {
        // the DELETE fails on a table that does not exist
        return Failure(MissingTable(name)), None;
      }
      if !HasColumn(tables[name].columns, SnapshotColumn) {
        // the DELETE's WHERE clause names a column the table lacks
        return Failure(MissingSnapshotColumn(name)), None;
      }
      result, sent := ReplaceDay(rt, headers, rows, name, mappings, today);
      LoadSends(rt, old(tables), rows, name, mappings, today);
    }

    /** The part of `bulkInsertToSQL` from the DELETE on: delete the rows of
        today, build the bulk table, and store its rows if the warehouse
        accepts it. A refused bulk call leaves the DELETE in effect. */
    method ReplaceDay(rt: Runtime, headers: seq<string>, rows: seq<seq<Value>>, name: string,
                      mappings: map<string, SqlType>, today: int)
      returns (result: Result<Option<LoadSummary>, LoadError>, sent: Option<BulkTable>)
      requires PassesDelete(tables, rows, name) && HeaderTexts(rows[0]) == Some(headers)
      modifies this
      ensures sent == Some(BulkFor(rt, old(tables), rows, name, mappings, today))
      ensures var cleared := DeleteDay(old(tables), name, today);
        if rt.bulkAccepts(sent.value) then
          && result == Success(Some(LoadSummary(|rows| - 1, name, today)))
          && tables == cleared[name := cleared[name].(records := cleared[name].records + Stamp(sent.value.rows, today))]
        else
          result == Failure(BulkRejected(name)) && tables == cleared
    {
      var valid := LowerNames(tables[name].columns);
      DeleteDayRows(name, today);
      var columns := DeclareColumns(InsertableColumns(headers, valid), mappings);
      var bulkRows := BuildBulkRows(rt, headers, valid, mappings, rows[1..], today);
      var bulk := BulkTable(name, columns, bulkRows);
      sent := Some(bulk);
      if !rt.bulkAccepts(bulk) {
        // `request.bulk` throws; the DELETE stays committed
        result := Failure(BulkRejected(name));
        return;
      }
      AppendRows(name, bulkRows, today);
      result := Success(Some(LoadSummary(|rows| - 1, name, today)));
    }

    /** `DELETE FROM dbo.[name] WHERE [snapshot_date] = @snap`. */
    method DeleteDayRows(name: string, day: int)
      requires name in tables
      modifies this
      ensures tables == DeleteDay(old(tables), name, day)
    {
      var t := tables[name];
      tables := tables[name := t.(records := RecordsNotOn(t.records, day))];
    }

    /** `request.bulk(table)` once the warehouse accepts it: the rows are
        stored, stamped with the snapshot day, after the ones already there. */
    method AppendRows(name: string, bulkRows: seq<seq<Value>>, day: int)
      requires name in tables
      modifies this
      ensures tables == old(tables)[name := old(tables)[name].(records := old(tables)[name].records + Stamp(bulkRows, day))]
    {
      var t := tables[name];
      tables := tables[name := t.(records := t.records + Stamp(bulkRows, day))];
    }
  }

  /** `insertableColumns.forEach(...)`: declare each name that has a type
      mapping, with that type. */
  method DeclareColumns(insertable: seq<string>, mappings: map<string, SqlType>)
    returns (columns: seq<(string, SqlType)>)
    ensures columns == DeclaredColumns(insertable, mappings)
  {
    columns := [];
    var i := 0;
    while i < |insertable|
      invariant 0 <= i <= |insertable|
      invariant columns == DeclaredColumns(insertable[..i], mappings)
    {
      assert insertable[..i + 1][..i] == insertable[..i];
      var col := insertable[i];
      if col in mappings {
        columns := columns + [(col, mappings[col])];
      }
      i := i + 1;
    }
    assert insertable[..|insertable|] == insertable;
  }

  /** `filteredRow` for one data row: the converted cell of every valid
      header, then the snapshot date. */
  method FilterRow(rt: Runtime, headers: seq<string>, valid: seq<string>, mappings: map<string, SqlType>,
                   row: seq<Value>, today: int) returns (filtered: seq<Value>)
    ensures filtered == BuildRow(rt, headers, valid, mappings, row, today)
  {
    filtered := [];
    var j := 0;
    while j < |headers|
      invariant 0 <= j <= |headers|
      invariant filtered == Cells(rt, headers[..j], valid, mappings, row)
    {
      assert headers[..j + 1][..j] == headers[..j];
      if Lower(headers[j]) in valid {
        filtered := filtered + [ConvertValue(rt, CellAt(row, j), Lookup(mappings, headers[j]))];
      }
      j := j + 1;
    }
    assert headers[..|headers|] == headers;
    filtered := filtered + [SnapshotValue(today)];
  }

  /** The rows added to the bulk table, one per data row, in order. */
  method BuildBulkRows(rt: Runtime, headers: seq<string>, valid: seq<string>, mappings: map<string, SqlType>,
                       dataRows: seq<seq<Value>>, today: int) returns (bulkRows: seq<seq<Value>>)
    ensures bulkRows == BulkRows(rt, headers, valid, mappings, dataRows, today)
  {
    bulkRows := [];
    var r := 0;
    while r < |dataRows|
      invariant 0 <= r <= |dataRows|
      invariant bulkRows == BulkRows(rt, headers, valid, mappings, dataRows[..r], today)
    {
      var filtered := FilterRow(rt, headers, valid, mappings, dataRows[r], today);
      bulkRows := bulkRows + [filtered];
      r := r + 1;
    }
    assert dataRows[..|dataRows|] == dataRows;
  }
}
