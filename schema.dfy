/** The destination warehouse as data, and what `ensureTableWithColumns`
    does to it: create a missing table from the header row plus a
    `snapshot_date` column, or add the header columns it lacks. */
module Schema {
  import opened Wrappers
  import opened JsText
  import opened Coercion
  import opened Seqs

  /** A column of a destination table. */
  datatype ColumnDef = ColumnDef(name: string, sqlType: SqlType, nullable: bool)

  /** A stored row: the cells as the bulk load sent them, and its snapshot
      date as a day number (days since 1970-01-01, UTC). */
  datatype Record = Record(cells: seq<Value>, snapshotDay: int)

  datatype TableState = TableState(columns: seq<ColumnDef>, records: seq<Record>)

  /** The tables of schema `dbo`, by name. */
  type Tables = map<string, TableState>

  /** Statements the warehouse refuses: a column name used twice in a table
      (names compare without case), adding a NOT NULL column without a
      default to a table that already has rows, the zero-length identifier
      `[]`, and a CREATE TABLE whose column list opens with a bare comma
      because there were no headers. */
  datatype SchemaError =
    | DuplicateColumn(name: string)
    | NotNullOnNonEmpty(name: string)
    | EmptyName
    | EmptyColumnList

  const SnapshotColumn := "snapshot_date"

  /** `NVARCHAR(MAX) NULL`. */
  function TextColumn(name: string): ColumnDef {
    ColumnDef(name, NVarChar(None), true)
  }

  /** `snapshot_date DATE NOT NULL`. */
  const SnapshotDef := ColumnDef(SnapshotColumn, Date, false)

  function TextColumns(names: seq<string>): (r: seq<ColumnDef>)
    ensures |r| == |names|
  {
    seq(|names|, i requires 0 <= i < |names| => TextColumn(names[i]))
  }

  /** The lower-cased column names, as the source's schema queries see them. */
  function LowerNames(cols: seq<ColumnDef>): (r: seq<string>)
    ensures |r| == |cols|
  {
    seq(|cols|, i requires 0 <= i < |cols| => Lower(cols[i].name))
  }

  predicate HasColumn(cols: seq<ColumnDef>, name: string) {
    Lower(name) in LowerNames(cols)
  }

  /** `headers.filter((h) => !existing.has(h.toLowerCase()))`. */
  function MissingHeaders(existing: seq<string>, headers: seq<string>): (r: seq<string>)
    ensures forall h :: h in r ==> h in headers && Lower(h) !in existing
    ensures forall h :: h in headers && Lower(h) !in existing ==> h in r
  {
    if headers == [] then []
    else if Lower(headers[0]) in existing then MissingHeaders(existing, headers[1..])
    else [headers[0]] + MissingHeaders(existing, headers[1..])
  }

  /** The filter works header by header, so it keeps header order. */
  lemma {:induction false} MissingHeadersAppend(existing: seq<string>, a: seq<string>, b: seq<string>)
    ensures MissingHeaders(existing, a + b) == MissingHeaders(existing, a) + MissingHeaders(existing, b)
    decreases |a|
  {
    if a == [] {
      assert a + b == b;
    } else {
      assert (a + b)[0] == a[0] && (a + b)[1..] == a[1..] + b;
      MissingHeadersAppend(existing, a[1..], b);
      if Lower(a[0]) !in existing {
        AppendAssoc([a[0]], MissingHeaders(existing, a[1..]), MissingHeaders(existing, b));
      }
    }
  }

  /** One `ADD <col> NVARCHAR(MAX) NULL` after another, stopping at the first
      statement the warehouse refuses; the ones before it stay applied. */
  function AddColumns(cols: seq<ColumnDef>, toAdd: seq<string>): (Outcome<SchemaError>, seq<ColumnDef>)
    decreases |toAdd|
  {
    if toAdd == [] then (Pass, cols)
    else if toAdd[0] == "" then (Fail(EmptyName), cols)
    else if HasColumn(cols, toAdd[0]) then (Fail(DuplicateColumn(toAdd[0])), cols)
    else AddColumns(cols + [TextColumn(toAdd[0])], toAdd[1..])
  }

  /** The names can be added one after another to a table with columns
      `cols`: none is empty, none is a column already, and no two are equal
      without case. */
  predicate Addable(cols: seq<ColumnDef>, names: seq<string>) {
    && (forall i :: 0 <= i < |names| ==> names[i] != "" && !HasColumn(cols, names[i]))
    && (forall i, j :: 0 <= i < j < |names| ==> Lower(names[i]) != Lower(names[j]))
  }

  /** CREATE TABLE with every header as a text column and `snapshot_date`.
      The statement fails as a whole: on a syntax error when there are no
      headers, on an empty name, or when two of its names clash. */
  function CreateColumns(headers: seq<string>): (r: (Outcome<SchemaError>, seq<ColumnDef>))
    ensures r.0.Pass? <==>
      headers != [] && Addable([], headers) && forall h :: h in headers ==> Lower(h) != SnapshotColumn
    ensures r.0.Pass? ==> r.1 == TextColumns(headers) + [SnapshotDef]
    ensures r.0 == Fail(EmptyColumnList) <==> headers == []
  {
    if headers == [] then (Fail(EmptyColumnList), [])
    else if "" in headers then (Fail(EmptyName), [])
    else
      var (o, cols) := AddColumns([], headers);
      AddColumnsPassIff([], headers);
      assert o.Pass? ==> cols == TextColumns(headers);
      SnapshotAmongText(headers);
      if o.Fail? then (o, [])
      else if HasColumn(cols, SnapshotColumn) then (Fail(DuplicateColumn(SnapshotColumn)), [])
      else (Pass, cols + [SnapshotDef])
  }

  /** `ensureTableWithColumns(pool, name, headers)`: the outcome and the
      warehouse afterwards. */
  function Reconcile(tables: Tables, name: string, headers: seq<string>): (r: (Outcome<SchemaError>, Tables))
    ensures r.0.Pass? ==> name in r.1
    ensures name in tables ==> r.1.Keys == tables.Keys
    ensures name !in tables ==>
      && (r.0.Pass? <==>
            headers != [] && Addable([], headers) && forall h :: h in headers ==> Lower(h) != SnapshotColumn)
      && (r.0.Pass? ==> r.1 == tables[name := TableState(TextColumns(headers) + [SnapshotDef], [])])
      && (r.0.Fail? ==> r.1 == tables)
  {
    if name !in tables then
      var (o, cols) := CreateColumns(headers);
      if o.Fail? then (o, tables) else (Pass, tables[name := TableState(cols, [])])
    else
      var t := tables[name];
      var existing := LowerNames(t.columns);
      var (o, cols) := AddColumns(t.columns, MissingHeaders(existing, headers));
      var altered := tables[name := t.(columns := cols)];
      if o.Fail? then (o, altered)
      else if SnapshotColumn in existing then (Pass, altered)
      else if HasColumn(cols, SnapshotColumn) then (Fail(DuplicateColumn(SnapshotColumn)), altered)
      else if |t.records| > 0 then (Fail(NotNullOnNonEmpty(SnapshotColumn)), altered)
      else (Pass, tables[name := t.(columns := cols + [SnapshotDef])])
  }

  /* ---------- lemmas ---------- */

  lemma HasColumnKept(cols: seq<ColumnDef>, more: seq<ColumnDef>, name: string)
    requires HasColumn(cols, name)
    ensures HasColumn(cols + more, name)
  {
    var i :| 0 <= i < |cols| && LowerNames(cols)[i] == Lower(name);
    assert LowerNames(cols + more)[i] == Lower(name);
  }

  lemma HasColumnAdded(cols: seq<ColumnDef>, c: ColumnDef)
    ensures HasColumn(cols + [c], c.name)
  {
    assert LowerNames(cols + [c])[|cols|] == Lower(c.name);
  }

  lemma HasColumnSnoc(cols: seq<ColumnDef>, c: ColumnDef, name: string)
    ensures HasColumn(cols + [c], name) <==> HasColumn(cols, name) || Lower(name) == Lower(c.name)
  {
    var all := cols + [c];
    assert LowerNames(all) == LowerNames(cols) + [Lower(c.name)];
  }

  /** The ALTER loop (and the column list of a CREATE) goes through exactly
      when the names are addable, and then it appends all of them as text
      columns, in order. */
  lemma {:induction false} AddColumnsPassIff(cols: seq<ColumnDef>, toAdd: seq<string>)
    ensures AddColumns(cols, toAdd).0.Pass? <==> Addable(cols, toAdd)
    ensures AddColumns(cols, toAdd).0.Pass? ==> AddColumns(cols, toAdd).1 == cols + TextColumns(toAdd)
    ensures AddColumns(cols, toAdd).0 != Fail(EmptyColumnList)
    decreases |toAdd|
  {
    if toAdd == [] {
      assert TextColumns(toAdd) == [];
    } else if toAdd[0] == "" || HasColumn(cols, toAdd[0]) {
      assert !Addable(cols, toAdd);
    } else {
      var x, rest := toAdd[0], toAdd[1..];
      var next := cols + [TextColumn(x)];
      AddColumnsPassIff(next, rest);
      if Addable(cols, toAdd) {
        forall i | 0 <= i < |rest| ensures rest[i] != "" && !HasColumn(next, rest[i]) {
          assert rest[i] == toAdd[i + 1];
          HasColumnSnoc(cols, TextColumn(x), rest[i]);
        }
        forall i, j | 0 <= i < j < |rest| ensures Lower(rest[i]) != Lower(rest[j]) {
          assert rest[i] == toAdd[i + 1] && rest[j] == toAdd[j + 1];
        }
      }
      if Addable(next, rest) {
        forall i | 0 <= i < |toAdd| ensures toAdd[i] != "" && !HasColumn(cols, toAdd[i]) {
          if i > 0 {
            assert toAdd[i] == rest[i - 1];
            HasColumnSnoc(cols, TextColumn(x), toAdd[i]);
          }
        }
        forall i, j | 0 <= i < j < |toAdd| ensures Lower(toAdd[i]) != Lower(toAdd[j]) {
          assert toAdd[j] == rest[j - 1];
          if i == 0 {
            HasColumnSnoc(cols, TextColumn(x), toAdd[j]);
          } else {
            assert toAdd[i] == rest[i - 1];
          }
        }
      }
      if AddColumns(cols, toAdd).0.Pass? {
        TextColumnsCons(toAdd, |rest|);
        assert rest[..|rest|] == rest && toAdd[..|rest| + 1] == toAdd;
        AppendAssoc(cols, [TextColumn(x)], TextColumns(rest));
      }
    }
  }

  /** `snapshot_date` is among the text columns of some headers exactly
      when it is one of the headers, without case. */
  lemma SnapshotAmongText(headers: seq<string>)
    ensures HasColumn(TextColumns(headers), SnapshotColumn) <==> exists h :: h in headers && Lower(h) == SnapshotColumn
  {
    assert Lower(SnapshotColumn) == SnapshotColumn;
    var names := LowerNames(TextColumns(headers));
    assert forall i :: 0 <= i < |headers| ==> names[i] == Lower(headers[i]);
    if SnapshotColumn in names {
      var i :| 0 <= i < |names| && names[i] == SnapshotColumn;
      assert headers[i] in headers;
    }
    if exists h :: h in headers && Lower(h) == SnapshotColumn {
      var h :| h in headers && Lower(h) == SnapshotColumn;
      var i :| 0 <= i < |headers| && headers[i] == h;
      assert names[i] == SnapshotColumn;
    }
  }

  /** The ALTER loop only appends: the old columns stay first and in place,
      what is added is a prefix of the missing headers as text columns, and
      on success it is all of them. */
  lemma {:induction false} AddColumnsAppends(cols: seq<ColumnDef>, toAdd: seq<string>)
    ensures var (o, r) := AddColumns(cols, toAdd);
      exists k :: 0 <= k <= |toAdd| && r == cols + TextColumns(toAdd[..k]) && (o.Pass? ==> k == |toAdd|)
    decreases |toAdd|
  {
    var (o, r) := AddColumns(cols, toAdd);
    if toAdd == [] {
      assert r == cols + TextColumns(toAdd[..0]);
    } else if toAdd[0] == "" || HasColumn(cols, toAdd[0]) {
      assert r == cols + TextColumns(toAdd[..0]);
    } else {
      var next := cols + [TextColumn(toAdd[0])];
      AddColumnsAppends(next, toAdd[1..]);
      var k :| 0 <= k <= |toAdd[1..]| && r == next + TextColumns(toAdd[1..][..k]) && (o.Pass? ==> k == |toAdd[1..]|);
      TextColumnsCons(toAdd, k);
      AppendAssoc(cols, [TextColumn(toAdd[0])], TextColumns(toAdd[1..][..k]));
      assert r == cols + TextColumns(toAdd[..k + 1]);
    }
  }

  lemma TextColumnsCons(names: seq<string>, k: nat)
    requires k < |names|
    ensures [TextColumn(names[0])] + TextColumns(names[1..][..k]) == TextColumns(names[..k + 1])
  {
  }

  /** After a successful ALTER loop every name that was to be added is a
      column. */
  lemma {:induction false} AddColumnsCovers(cols: seq<ColumnDef>, toAdd: seq<string>, h: string)
    requires AddColumns(cols, toAdd).0.Pass?
    requires h in toAdd || HasColumn(cols, h)
    ensures HasColumn(AddColumns(cols, toAdd).1, h)
    decreases |toAdd|
  {
    if toAdd != [] {
      var next := cols + [TextColumn(toAdd[0])];
      if HasColumn(cols, h) {
        HasColumnKept(cols, [TextColumn(toAdd[0])], h);
      } else if h == toAdd[0] {
        HasColumnAdded(cols, TextColumn(toAdd[0]));
      }
      if h !in toAdd[1..] {
        assert h == toAdd[0] || HasColumn(cols, h);
      }
      AddColumnsCovers(next, toAdd[1..], h);
    }
  }

  /** Reconciling never drops, renames, retypes or reorders a column of an
      existing table, never touches its rows, and leaves every other table
      alone, whether it succeeds or not. */
  lemma ReconcileOnlyAdds(tables: Tables, name: string, headers: seq<string>)
    requires name in tables
    ensures var (o, after) := Reconcile(tables, name, headers);
      && after.Keys == tables.Keys
      && (forall t :: t in tables && t != name ==> after[t] == tables[t])
      && after[name].records == tables[name].records
      && tables[name].columns <= after[name].columns
  {
    var t := tables[name];
    AddColumnsAppends(t.columns, MissingHeaders(LowerNames(t.columns), headers));
  }

  /** When reconciling succeeds, every header and `snapshot_date` are
      columns of the table (names compared without case). */
  lemma ReconcileCovers(tables: Tables, name: string, headers: seq<string>)
    requires Reconcile(tables, name, headers).0.Pass?
    ensures var after := Reconcile(tables, name, headers).1;
      && name in after
      && HasColumn(after[name].columns, SnapshotColumn)
      && forall h :: h in headers ==> HasColumn(after[name].columns, h)
  {
    var after := Reconcile(tables, name, headers).1;
    if name !in tables {
      var (o, cols) := AddColumns([], headers);
      forall h | h in headers ensures HasColumn(after[name].columns, h) {
        AddColumnsCovers([], headers, h);
        HasColumnKept(cols, [SnapshotDef], h);
      }
      HasColumnAdded(cols, SnapshotDef);
    } else {
      var t := tables[name];
      var existing := LowerNames(t.columns);
      var toAdd := MissingHeaders(existing, headers);
      var (o, cols) := AddColumns(t.columns, toAdd);
      AddColumnsAppends(t.columns, toAdd);
      forall h | h in headers ensures HasColumn(after[name].columns, h) {
        AddColumnsCovers(t.columns, toAdd, h);
        if SnapshotColumn !in existing {
          HasColumnKept(cols, [SnapshotDef], h);
        }
      }
      if SnapshotColumn in existing {
        assert Lower(SnapshotColumn) == SnapshotColumn;
        HasColumnKept(t.columns, cols[|t.columns|..], SnapshotColumn);
        assert t.columns + cols[|t.columns|..] == cols;
      } else {
        HasColumnAdded(cols, SnapshotDef);
      }
    }
  }

  /** On an existing table, a successful run appends the missing headers in
      header order, then `snapshot_date` if it was missing. */
  lemma ReconcileAppendsInHeaderOrder(tables: Tables, name: string, headers: seq<string>)
    requires name in tables && Reconcile(tables, name, headers).0.Pass?
    ensures var t := tables[name];
      var missing := MissingHeaders(LowerNames(t.columns), headers);
      Reconcile(tables, name, headers).1[name].columns ==
        t.columns + TextColumns(missing) + (if SnapshotColumn in LowerNames(t.columns) then [] else [SnapshotDef])
  {
    var t := tables[name];
    var missing := MissingHeaders(LowerNames(t.columns), headers);
    AddColumnsAppends(t.columns, missing);
    var cols := AddColumns(t.columns, missing).1;
    var k :| 0 <= k <= |missing| && cols == t.columns + TextColumns(missing[..k]) && k == |missing|;
    assert missing[..k] == missing;
  }

  lemma {:induction false} NothingMissing(existing: seq<string>, headers: seq<string>)
    requires forall h :: h in headers ==> Lower(h) in existing
    ensures MissingHeaders(existing, headers) == []
    decreases |headers|
  {
    if headers != [] {
      assert headers[0] in headers;
      assert forall h :: h in headers[1..] ==> h in headers;
      NothingMissing(existing, headers[1..]);
    }
  }

  /** A second run with the same headers right after a successful one
      changes nothing. */
  lemma ReconcileIdempotent(tables: Tables, name: string, headers: seq<string>)
    requires Reconcile(tables, name, headers).0.Pass?
    ensures var after := Reconcile(tables, name, headers).1;
      Reconcile(after, name, headers) == (Pass, after)
  {
    var after := Reconcile(tables, name, headers).1;
    ReconcileCovers(tables, name, headers);
    var t := after[name];
    var existing := LowerNames(t.columns);
    NothingMissing(existing, headers);
    assert Lower(SnapshotColumn) == SnapshotColumn;
    assert after[name := t.(columns := t.columns)] == after;
  }
}
