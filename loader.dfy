/** What `bulkInsertToSQL` sends and what it leaves in the warehouse: the
    header row picks the columns the destination table knows, the rows of
    today's snapshot date are deleted, and every data row goes in converted
    and stamped with today's date. */
module Loader {
  import opened Wrappers
  import opened JsText
  import opened Coercion
  import opened Schema
  import opened Seqs

  datatype LoadError =
    | HeaderNotText                      // a header cell is null: `h.toLowerCase` throws
    | MissingTable(table: string)        // the DELETE names a table that does not exist
    | MissingSnapshotColumn(table: string)  // the DELETE filters on a column the table lacks
    | BulkRejected(table: string)        // `request.bulk` throws after the DELETE is done

  /** `{ inserted, table, snapshotDate }`, the date as a day number. */
  datatype LoadSummary = LoadSummary(inserted: nat, table: string, snapshotDay: int)

  /** What one call returns or throws, the warehouse afterwards, and the
      bulk table it sent (None when it sent none). */
  datatype LoadStep = LoadStep(result: Result<Option<LoadSummary>, LoadError>, tables: Tables, sent: Option<BulkTable>)

  const MillisPerDay := 86400000

  /** `new Date(snapshotDate)`: midnight UTC of the day. */
  function SnapshotValue(day: int): Value {
    Timestamp(day * MillisPerDay)
  }

  /** The header row as names; None when a cell is not text. */
  function HeaderTexts(row: seq<Value>): (r: Option<seq<string>>)
    ensures r.Some? <==> forall i :: 0 <= i < |row| ==> row[i].Str?
    ensures r.Some? ==> |r.value| == |row| && forall i :: 0 <= i < |row| ==> row[i] == Str(r.value[i])
  {
    if row == [] then Some([])
    else match (row[0], HeaderTexts(row[1..]))
      case (Str(s), Some(rest)) => Some([s] + rest)
      case _ => None
  }

  /** The positions of the headers the table has a column for. */
  function ValidIndices(headers: seq<string>, valid: seq<string>): (r: seq<nat>)
    ensures forall k :: 0 <= k < |r| ==> r[k] < |headers| && Lower(headers[r[k]]) in valid
    ensures forall k, l :: 0 <= k < l < |r| ==> r[k] < r[l]
    ensures forall i :: 0 <= i < |headers| && Lower(headers[i]) in valid ==> i in r
    decreases |headers|
  {
    if headers == [] then []
    else
      var n := |headers| - 1;
      ValidIndices(headers[..n], valid) + (if Lower(headers[n]) in valid then [n] else [])
  }

  /** `headers.filter((h) => validColumns.includes(h.toLowerCase()))`. */
  function ValidHeaders(headers: seq<string>, valid: seq<string>): (r: seq<string>)
    ensures forall h :: h in r <==> h in headers && Lower(h) in valid
    ensures var idx := ValidIndices(headers, valid);
      |r| == |idx| && forall k :: 0 <= k < |r| ==> r[k] == headers[idx[k]]
  {
    var idx := ValidIndices(headers, valid);
    var r := seq(|idx|, k requires 0 <= k < |idx| => headers[idx[k]]);
    assert forall h :: h in headers && Lower(h) in valid ==> h in r by {
      forall h | h in headers && Lower(h) in valid ensures h in r {
        var i :| 0 <= i < |headers| && headers[i] == h;
        var k :| 0 <= k < |idx| && idx[k] == i;
        assert r[k] == h;
      }
    }
    r
  }

  /** The valid headers followed by `snapshot_date`. */
  function InsertableColumns(headers: seq<string>, valid: seq<string>): seq<string> {
    ValidHeaders(headers, valid) + [SnapshotColumn]
  }

  /** The columns declared on the bulk table: only the names with a type
      mapping, in order. */
  function DeclaredColumns(cols: seq<string>, mappings: map<string, SqlType>): (r: seq<(string, SqlType)>)
    ensures |r| <= |cols|
    ensures forall k :: 0 <= k < |r| ==> r[k].0 in cols && r[k].0 in mappings && r[k].1 == mappings[r[k].0]
    ensures forall c :: c in cols && c in mappings ==> (c, mappings[c]) in r
    decreases |cols|
  {
    if cols == [] then []
    else
      var c := cols[|cols| - 1];
      assert cols == cols[..|cols| - 1] + [c];
      DeclaredColumns(cols[..|cols| - 1], mappings) + (if c in mappings then [(c, mappings[c])] else [])
  }

  /** `row[index]`, `undefined` past the end of a short row. */
  function CellAt(row: seq<Value>, i: nat): Value {
    if i < |row| then row[i] else Undefined
  }

  /** The converted cells of one data row, one per valid header. */
  function Cells(rt: Runtime, headers: seq<string>, valid: seq<string>, mappings: map<string, SqlType>,
                 row: seq<Value>): seq<Value>
    decreases |headers|
  {
    if headers == [] then []
    else
      var n := |headers| - 1;
      Cells(rt, headers[..n], valid, mappings, row) +
        (if Lower(headers[n]) in valid then [ConvertValue(rt, CellAt(row, n), Lookup(mappings, headers[n]))] else [])
  }

  /** `filteredRow`: the converted cells, then the snapshot date. */
  function BuildRow(rt: Runtime, headers: seq<string>, valid: seq<string>, mappings: map<string, SqlType>,
                    row: seq<Value>, today: int): seq<Value> {
    Cells(rt, headers, valid, mappings, row) + [SnapshotValue(today)]
  }

  function BulkRows(rt: Runtime, headers: seq<string>, valid: seq<string>, mappings: map<string, SqlType>,
                    data: seq<seq<Value>>, today: int): (r: seq<seq<Value>>)
    ensures |r| == |data|
  {
    seq(|data|, i requires 0 <= i < |data| => BuildRow(rt, headers, valid, mappings, data[i], today))
  }

  /** The stored rows dated `day`. */
  function RecordsOn(records: seq<Record>, day: int): seq<Record> {
    if records == [] then []
    else (if records[0].snapshotDay == day then [records[0]] else []) + RecordsOn(records[1..], day)
  }

  /** `DELETE ... WHERE snapshot_date = @snap`: the stored rows of other
      days. Exactly the rows dated `day` are removed. */
  function RecordsNotOn(records: seq<Record>, day: int): (r: seq<Record>)
    ensures forall x :: x in r <==> x in records && x.snapshotDay != day
    decreases |records|
  {
    if records == [] then []
    else
      assert records == [records[0]] + records[1..];
      (if records[0].snapshotDay != day then [records[0]] else []) + RecordsNotOn(records[1..], day)
  }

  /** Sent rows as stored rows of `day`. */
  function Stamp(rows: seq<seq<Value>>, day: int): (r: seq<Record>)
    ensures |r| == |rows|
  {
    seq(|rows|, i requires 0 <= i < |rows| => Record(rows[i], day))
  }

  /** The call gets past the DELETE: there is a data row, every header is
      text, and the table exists with a `snapshot_date` column. */
  predicate PassesDelete(tables: Tables, rows: seq<seq<Value>>, name: string) {
    && |rows| > 1
    && HeaderTexts(rows[0]).Some?
    && name in tables
    && HasColumn(tables[name].columns, SnapshotColumn)
  }

  /** The bulk table built once the DELETE is done. */
  function BulkFor(rt: Runtime, tables: Tables, rows: seq<seq<Value>>, name: string,
                   mappings: map<string, SqlType>, today: int): BulkTable
    requires PassesDelete(tables, rows, name)
  {
    var headers := HeaderTexts(rows[0]).value;
    var valid := LowerNames(tables[name].columns);
    BulkTable(name, DeclaredColumns(InsertableColumns(headers, valid), mappings),
              BulkRows(rt, headers, valid, mappings, rows[1..], today))
  }

  /** The warehouse right after the DELETE of the table's rows of `day`. */
  function DeleteDay(tables: Tables, name: string, day: int): (r: Tables)
    requires name in tables
    ensures r.Keys == tables.Keys && r[name].columns == tables[name].columns
    ensures forall t :: t in tables && t != name ==> r[t] == tables[t]
    ensures forall x :: x in r[name].records <==> x in tables[name].records && x.snapshotDay != day
  {
    tables[name := tables[name].(records := RecordsNotOn(tables[name].records, day))]
  }

  /** `bulkInsertToSQL(rows, name, mappings)` on a day numbered `today`. */
  function Load(rt: Runtime, tables: Tables, rows: seq<seq<Value>>, name: string,
                mappings: map<string, SqlType>, today: int): (r: LoadStep)
    ensures r.result == Success(None) <==> |rows| <= 1
    ensures r.result == Failure(HeaderNotText) <==> |rows| > 1 && HeaderTexts(rows[0]).None?
    ensures r.result == Failure(MissingTable(name)) <==>
      |rows| > 1 && HeaderTexts(rows[0]).Some? && name !in tables
    ensures r.result == Failure(MissingSnapshotColumn(name)) <==>
      |rows| > 1 && HeaderTexts(rows[0]).Some? && name in tables && !HasColumn(tables[name].columns, SnapshotColumn)
    ensures r.sent.Some? <==> PassesDelete(tables, rows, name)
    ensures r.result.Success? && r.result.value.Some? <==>
      PassesDelete(tables, rows, name) && rt.bulkAccepts(r.sent.value)
    ensures r.result == Failure(BulkRejected(name)) <==>
      PassesDelete(tables, rows, name) && !rt.bulkAccepts(r.sent.value)
    ensures !PassesDelete(tables, rows, name) ==> r.tables == tables
    ensures r.result == Failure(BulkRejected(name)) ==> r.tables == DeleteDay(tables, name, today)
  {
    if |rows| <= 1 then LoadStep(Success(None), tables, None)
    else match HeaderTexts(rows[0])
      case None => LoadStep(Failure(HeaderNotText), tables, None)
      case Some(headers) =>
        if name !in tables then LoadStep(Failure(MissingTable(name)), tables, None)
        else if !HasColumn(tables[name].columns, SnapshotColumn) then
          LoadStep(Failure(MissingSnapshotColumn(name)), tables, None)
        else
          var t := tables[name];
          var valid := LowerNames(t.columns);
          var data := rows[1..];
          var bulk := BulkTable(name, DeclaredColumns(InsertableColumns(headers, valid), mappings),
                                BulkRows(rt, headers, valid, mappings, data, today));
          var cleared := RecordsNotOn(t.records, today);
          if !rt.bulkAccepts(bulk) then
            LoadStep(Failure(BulkRejected(name)), tables[name := t.(records := cleared)], Some(bulk))
          else
            LoadStep(Success(Some(LoadSummary(|data|, name, today))),
                     tables[name := t.(records := cleared + Stamp(bulk.rows, today))], Some(bulk))
  }

  /** The bulk table declares one column per value of each row: when the
      load gets past the DELETE, `snapshot_date` and every valid header have
      a type mapping (see `BulkAlignedIff`). */
  predicate SendsAligned(tables: Tables, rows: seq<seq<Value>>, name: string, mappings: map<string, SqlType>) {
    PassesDelete(tables, rows, name) ==>
      var headers := HeaderTexts(rows[0]).value;
      var valid := LowerNames(tables[name].columns);
      SnapshotColumn in mappings && forall h :: h in headers && Lower(h) in valid ==> h in mappings
  }

  /* ---------- lemmas ---------- */

  /** How a load that gets past the DELETE is made up. */
  lemma LoadSends(rt: Runtime, tables: Tables, rows: seq<seq<Value>>, name: string,
                  mappings: map<string, SqlType>, today: int)
    requires PassesDelete(tables, rows, name)
    ensures var bulk := BulkFor(rt, tables, rows, name, mappings, today);
      var cleared := DeleteDay(tables, name, today);
      Load(rt, tables, rows, name, mappings, today) ==
        if rt.bulkAccepts(bulk) then
          LoadStep(Success(Some(LoadSummary(|rows| - 1, name, today))),
                   cleared[name := cleared[name].(records := cleared[name].records + Stamp(bulk.rows, today))],
                   Some(bulk))
        else
          LoadStep(Failure(BulkRejected(name)), cleared, Some(bulk))
  {
  }

  /** Declaring is done name by name, so it keeps the order of the names. */
  lemma {:induction false} DeclaredColumnsAppend(a: seq<string>, b: seq<string>, mappings: map<string, SqlType>)
    ensures DeclaredColumns(a + b, mappings) == DeclaredColumns(a, mappings) + DeclaredColumns(b, mappings)
    decreases |b|
  {
    if b == [] {
      assert a + b == a;
    } else {
      var n := |b| - 1;
      assert (a + b)[..|a + b| - 1] == a + b[..n];
      DeclaredColumnsAppend(a, b[..n], mappings);
      var tail := if b[n] in mappings then [(b[n], mappings[b[n]])] else [];
      AppendAssoc(DeclaredColumns(a, mappings), DeclaredColumns(b[..n], mappings), tail);
    }
  }

  /** The k-th converted cell belongs to the k-th valid header: it is that
      header's raw cell converted with that header's type mapping. */
  lemma {:induction false} CellsFollowValidHeaders(rt: Runtime, headers: seq<string>, valid: seq<string>,
                                                  mappings: map<string, SqlType>, row: seq<Value>)
    ensures var idx := ValidIndices(headers, valid);
      var cells := Cells(rt, headers, valid, mappings, row);
      && |cells| == |idx|
      && forall k :: 0 <= k < |idx| ==>
           cells[k] == ConvertValue(rt, CellAt(row, idx[k]), Lookup(mappings, headers[idx[k]]))
    decreases |headers|
  {
    if headers != [] {
      var n := |headers| - 1;
      CellsFollowValidHeaders(rt, headers[..n], valid, mappings, row);
      var idx0 := ValidIndices(headers[..n], valid);
      var cells0 := Cells(rt, headers[..n], valid, mappings, row);
      var extra := if Lower(headers[n]) in valid then [n] else [];
      var idx := ValidIndices(headers, valid);
      var cells := Cells(rt, headers, valid, mappings, row);
      assert idx == idx0 + extra;
      assert cells == cells0 + (if extra == [] then [] else [ConvertValue(rt, CellAt(row, n), Lookup(mappings, headers[n]))]);
      forall k | 0 <= k < |idx|
        ensures cells[k] == ConvertValue(rt, CellAt(row, idx[k]), Lookup(mappings, headers[idx[k]]))
      {
        if k < |idx0| {
          assert idx[k] == idx0[k] && cells[k] == cells0[k];
          assert headers[..n][idx0[k]] == headers[idx0[k]];
        }
      }
    }
  }

  /** Every sent row holds one cell per valid header, then the snapshot date. */
  lemma RowShape(rt: Runtime, headers: seq<string>, valid: seq<string>, mappings: map<string, SqlType>,
                 row: seq<Value>, today: int)
    ensures var r := BuildRow(rt, headers, valid, mappings, row, today);
      |r| == |ValidHeaders(headers, valid)| + 1 && r[|r| - 1] == SnapshotValue(today)
  {
    CellsFollowValidHeaders(rt, headers, valid, mappings, row);
  }

  /** Every name is declared exactly when every name has a type mapping. */
  lemma {:induction false} DeclaredAllIff(cols: seq<string>, mappings: map<string, SqlType>)
    ensures |DeclaredColumns(cols, mappings)| == |cols| <==> forall c :: c in cols ==> c in mappings
    decreases |cols|
  {
    if cols != [] {
      var n := |cols| - 1;
      DeclaredAllIff(cols[..n], mappings);
      assert cols == cols[..n] + [cols[n]];
      assert forall c :: c in cols <==> c in cols[..n] || c == cols[n];
    }
  }

  /** The bulk table declares as many columns as each row has cells exactly
      when every valid header and `snapshot_date` have a type mapping;
      otherwise it declares fewer. */
  lemma BulkAlignedIff(rt: Runtime, tables: Tables, rows: seq<seq<Value>>, name: string,
                       mappings: map<string, SqlType>, today: int, i: nat)
    requires Load(rt, tables, rows, name, mappings, today).sent.Some?
    requires i < |Load(rt, tables, rows, name, mappings, today).sent.value.rows|
    ensures var b := Load(rt, tables, rows, name, mappings, today).sent.value;
      var headers := HeaderTexts(rows[0]).value;
      var valid := LowerNames(tables[name].columns);
      && |b.columns| <= |b.rows[i]|
      && (|b.columns| == |b.rows[i]| <==>
           SnapshotColumn in mappings && forall h :: h in headers && Lower(h) in valid ==> h in mappings)
  {
    var headers := HeaderTexts(rows[0]).value;
    var valid := LowerNames(tables[name].columns);
    var ins := InsertableColumns(headers, valid);
    RowShape(rt, headers, valid, mappings, rows[1..][i], today);
    DeclaredAllIff(ins, mappings);
    assert forall c :: c in ins <==> c in ValidHeaders(headers, valid) || c == SnapshotColumn;
  }

  lemma {:induction false} RecordsOnAppend(a: seq<Record>, b: seq<Record>, day: int)
    ensures RecordsOn(a + b, day) == RecordsOn(a, day) + RecordsOn(b, day)
    decreases |a|
  {
    var ab := a + b;
    if a == [] {
      EmptyHead(a, b);
    } else {
      ConsTail(a, b);
      RecordsOnAppend(a[1..], b, day);
      var h := if a[0].snapshotDay == day then [a[0]] else [];
      var x, y := RecordsOn(a[1..], day), RecordsOn(b, day);
      assert RecordsOn(ab, day) == h + (x + y);
      assert RecordsOn(a, day) == h + x;
      AppendAssoc(h, x, y);
    }
  }

  lemma {:induction false} RecordsNotOnAppend(a: seq<Record>, b: seq<Record>, day: int)
    ensures RecordsNotOn(a + b, day) == RecordsNotOn(a, day) + RecordsNotOn(b, day)
    decreases |a|
  {
    var ab := a + b;
    if a == [] {
      EmptyHead(a, b);
    } else {
      ConsTail(a, b);
      RecordsNotOnAppend(a[1..], b, day);
      var h := if a[0].snapshotDay != day then [a[0]] else [];
      var x, y := RecordsNotOn(a[1..], day), RecordsNotOn(b, day);
      assert RecordsNotOn(ab, day) == h + (x + y);
      assert RecordsNotOn(a, day) == h + x;
      AppendAssoc(h, x, y);
    }
  }

  lemma {:induction false} StampedAllOn(rows: seq<seq<Value>>, day: int)
    ensures RecordsOn(Stamp(rows, day), day) == Stamp(rows, day)
    ensures RecordsNotOn(Stamp(rows, day), day) == []
    decreases |rows|
  {
    if rows != [] {
      StampedAllOn(rows[1..], day);
      assert Stamp(rows, day)[1..] == Stamp(rows[1..], day);
    }
  }

  lemma {:induction false} NotOnTwice(records: seq<Record>, day: int)
    ensures RecordsOn(RecordsNotOn(records, day), day) == []
    ensures RecordsNotOn(RecordsNotOn(records, day), day) == RecordsNotOn(records, day)
    decreases |records|
  {
    if records != [] {
      NotOnTwice(records[1..], day);
      var head := if records[0].snapshotDay != day then [records[0]] else [];
      RecordsOnAppend(head, RecordsNotOn(records[1..], day), day);
      RecordsNotOnAppend(head, RecordsNotOn(records[1..], day), day);
    }
  }

  /** A successful load replaces the table's rows dated today with exactly
      the rows it sent, keeps the rows of every other day, leaves the
      columns and every other table alone, and reports one inserted row per
      data row. */
  lemma LoadReplacesToday(rt: Runtime, tables: Tables, rows: seq<seq<Value>>, name: string,
                          mappings: map<string, SqlType>, today: int)
    requires Load(rt, tables, rows, name, mappings, today).result.Success?
    requires Load(rt, tables, rows, name, mappings, today).result.value.Some?
    requires SendsAligned(tables, rows, name, mappings)
    ensures var step := Load(rt, tables, rows, name, mappings, today);
      var summary := step.result.value.value;
      && step.sent.Some?
      && summary == LoadSummary(|rows| - 1, name, today)
      && |step.sent.value.rows| == summary.inserted
      && step.tables.Keys == tables.Keys
      && (forall t :: t in tables && t != name ==> step.tables[t] == tables[t])
      && step.tables[name].columns == tables[name].columns
      && RecordsOn(step.tables[name].records, today) == Stamp(step.sent.value.rows, today)
      && RecordsNotOn(step.tables[name].records, today) == RecordsNotOn(tables[name].records, today)
  {
    LoadSends(rt, tables, rows, name, mappings, today);
    var step := Load(rt, tables, rows, name, mappings, today);
    var old_ := tables[name].records;
    var sent := step.sent.value.rows;
    RecordsOnAppend(RecordsNotOn(old_, today), Stamp(sent, today), today);
    RecordsNotOnAppend(RecordsNotOn(old_, today), Stamp(sent, today), today);
    NotOnTwice(old_, today);
    StampedAllOn(sent, today);
  }

  /** What a load sends depends on the destination's columns only. */
  lemma SameColumnsSameBulk(rt: Runtime, tables: Tables, other: Tables, rows: seq<seq<Value>>, name: string,
                            mappings: map<string, SqlType>, today: int)
    requires PassesDelete(tables, rows, name) && name in other
    requires other[name].columns == tables[name].columns
    ensures PassesDelete(other, rows, name)
    ensures BulkFor(rt, tables, rows, name, mappings, today) == BulkFor(rt, other, rows, name, mappings, today)
  {
  }

  /** A load reads only the columns of the destination table, never its
      rows: two warehouses that differ only in that table's rows get the
      same result and the same bulk table. */
  lemma LoadIgnoresStoredRows(rt: Runtime, tables: Tables, rows: seq<seq<Value>>, name: string,
                              mappings: map<string, SqlType>, today: int, records: seq<Record>)
    requires name in tables
    ensures var other := tables[name := tables[name].(records := records)];
      var a := Load(rt, tables, rows, name, mappings, today);
      var b := Load(rt, other, rows, name, mappings, today);
      a.result == b.result && a.sent == b.sent
      && (a.result.Success? && a.result.value.Some? ==>
            b.tables == tables[name := tables[name].(records := RecordsNotOn(records, today) + Stamp(a.sent.value.rows, today))])
      && (a.result == Failure(BulkRejected(name)) ==>
            b.tables == tables[name := tables[name].(records := RecordsNotOn(records, today))])
  {
    var other := tables[name := tables[name].(records := records)];
    if PassesDelete(tables, rows, name) {
      SameColumnsSameBulk(rt, tables, other, rows, name, mappings, today);
      LoadSends(rt, tables, rows, name, mappings, today);
      LoadSends(rt, other, rows, name, mappings, today);
      var t := tables[name];
      var bulk := BulkFor(rt, tables, rows, name, mappings, today);
      var cleared := RecordsNotOn(records, today);
      MapUpdateTwice(tables, name, t.(records := records), t.(records := cleared));
      MapUpdateTwice(tables, name, t.(records := cleared), t.(records := cleared + Stamp(bulk.rows, today)));
    } else if |rows| > 1 && HeaderTexts(rows[0]).Some? {
      assert !HasColumn(other[name].columns, SnapshotColumn);
    }
  }

  /** Loading the same rows twice on the same day leaves the warehouse as
      loading them once, and reports the same. */
  lemma LoadIdempotent(rt: Runtime, tables: Tables, rows: seq<seq<Value>>, name: string,
                       mappings: map<string, SqlType>, today: int)
    requires SendsAligned(tables, rows, name, mappings)
    ensures var once := Load(rt, tables, rows, name, mappings, today);
      Load(rt, once.tables, rows, name, mappings, today) == once
  {
    var once := Load(rt, tables, rows, name, mappings, today);
    if once.result.Success? && once.result.value.Some? {
      var sent := once.sent.value.rows;
      var kept := RecordsNotOn(tables[name].records, today);
      var stored := kept + Stamp(sent, today);
      assert once.tables == tables[name := tables[name].(records := stored)];
      LoadIgnoresStoredRows(rt, tables, rows, name, mappings, today, stored);
      RecordsNotOnAppend(kept, Stamp(sent, today), today);
      NotOnTwice(tables[name].records, today);
      StampedAllOn(sent, today);
      assert RecordsNotOn(stored, today) == kept;
    } else if once.result == Failure(BulkRejected(name)) {
      var kept := RecordsNotOn(tables[name].records, today);
      LoadIgnoresStoredRows(rt, tables, rows, name, mappings, today, kept);
      NotOnTwice(tables[name].records, today);
    }
  }
}
