/**
 How ExecuteQuery and SelectData turn a cursor into rows (internal/service/postgres.go), and how
 the server turns the rows into a response (internal/server/postgres_server.go).
 */
module RowAssembly {
  import opened Wrappers
  import opened Values
  import opened Convert

  /** One record of a cursor: its values, or None when scanning it fails. */
  type Record = Option<seq<Native>>

  /** Scanning fills one value per column, so it fails on a record of another width. */
  predicate IsScannable(columns: seq<string>, record: Record) {
    record.Some? && |record.value| == |columns|
  }

  /** The row has exactly the columns' names, and each value is that of the last column of its name. */
  ghost predicate IsRowOf(row: Row, columns: seq<string>, values: seq<Native>)
    requires |values| == |columns|
  {
    && (forall k :: k in row <==> k in columns)
    && forall i | 0 <= i < |columns| && (forall j | i < j < |columns| :: columns[j] != columns[i]) ::
         columns[i] in row && row[columns[i]] == values[i]
  }

  lemma ExtendRow(row: Row, columns: seq<string>, values: seq<Native>, column: string, value: Native)
    requires |values| == |columns| && IsRowOf(row, columns, values)
    ensures IsRowOf(row[column := value], columns + [column], values + [value])
  {
    var n := |columns|;
    var all := columns + [column];
    assert forall k :: k in all <==> k in columns || k == column;
    forall i | 0 <= i < n + 1 && (forall j | i < j < n + 1 :: all[j] != all[i])
      ensures all[i] in row[column := value] && row[column := value][all[i]] == (values + [value])[i]
    {
      if i < n {
        assert all[n] != all[i];
        assert forall j | i < j < n :: all[j] == columns[j];
      }
    }
  }

  lemma NoColumns()
    ensures IsRowOf(map[], [], [])
  {
  }

  method ScanRow(columns: seq<string>, values: seq<Native>) returns (row: Row)
    requires |values| == |columns|
    ensures IsRowOf(row, columns, values)
  {
    row := map[];
    NoColumns();
    hide IsRowOf;
    assert columns[..0] == [] && values[..0] == [];
    for i := 0 to |columns|
      invariant IsRowOf(row, columns[..i], values[..i])
    {
      ExtendRow(row, columns[..i], values[..i], columns[i], values[i]);
      row := row[columns[i] := values[i]];
      assert columns[..i + 1] == columns[..i] + [columns[i]];
      assert values[..i + 1] == values[..i] + [values[i]];
    }
    assert columns[..|columns|] == columns && values[..|columns|] == values;
  }

  /** A row is determined by its columns and values. */
  lemma RowIsUnique(a: Row, b: Row, columns: seq<string>, values: seq<Native>)
    requires |values| == |columns| && IsRowOf(a, columns, values) && IsRowOf(b, columns, values)
    ensures a == b
  {
    forall k | k in a ensures k in b && a[k] == b[k] {
      var i := LastColumn(columns, k);
      assert columns[i] == k;
    }
  }

  lemma {:induction false} LastColumn(columns: seq<string>, k: string) returns (i: nat)
    requires k in columns
    ensures i < |columns| && columns[i] == k && forall j | i < j < |columns| :: columns[j] != k
  {
    var n := |columns| - 1;
    if columns[n] == k {
      i := n;
    } else {
      assert k in columns[..n];
      i := LastColumn(columns[..n], k);
    }
  }

  /** The positions of the records that can be scanned, in order. */
  ghost function Scanned(columns: seq<string>, records: seq<Record>): (p: seq<nat>)
    ensures forall i | 0 <= i < |p| :: p[i] < |records| && IsScannable(columns, records[p[i]])
    ensures forall i, j | 0 <= i < j < |p| :: p[i] < p[j]
    ensures forall i: nat | i < |records| && IsScannable(columns, records[i]) :: i in p
  {
    if records == [] then []
    else
      var n := |records| - 1;
      var before := Scanned(columns, records[..n]);
      if IsScannable(columns, records[n]) then before + [n] else before
  }

  /**
   The rows are the scannable records in the cursor's order, and no others: the i-th row is the
   row of the i-th scannable record.
   */
  ghost predicate Assembles(results: seq<Row>, columns: seq<string>, records: seq<Record>) {
    var p := Scanned(columns, records);
    && |results| == |p|
    && forall i | 0 <= i < |p| :: IsRowOf(results[i], columns, records[p[i]].value)
  }

  lemma AssemblesSkipped(results: seq<Row>, columns: seq<string>, records: seq<Record>, record: Record)
    requires Assembles(results, columns, records) && !IsScannable(columns, record)
    ensures Assembles(results, columns, records + [record])
  {
    assert (records + [record])[..|records|] == records;
    hide IsScannable, IsRowOf;
  }

  lemma AssemblesMore(results: seq<Row>, columns: seq<string>, records: seq<Record>, record: Record, row: Row)
    requires Assembles(results, columns, records) && IsScannable(columns, record)
    requires IsRowOf(row, columns, record.value)
    ensures Assembles(results + [row], columns, records + [record])
  {
    assert (records + [record])[..|records|] == records;
    hide IsRowOf;
  }

  /** The loop over rows.Next(): a record that fails to scan is skipped. */
  method AssembleRows(columns: seq<string>, records: seq<Record>) returns (results: seq<Row>)
    ensures Assembles(results, columns, records)
  {
    results := [];
    assert Assembles(results, columns, records[..0]);
    hide Assembles, IsRowOf;
    for n := 0 to |records|
      invariant Assembles(results, columns, records[..n])
    {
      assert records[..n + 1] == records[..n] + [records[n]];
      if !IsScannable(columns, records[n]) {
        AssemblesSkipped(results, columns, records[..n], records[n]);
        continue;
      }
      var row := ScanRow(columns, records[n].value);
      AssemblesMore(results, columns, records[..n], records[n], row);
      results := results + [row];
    }
    assert records[..|records|] == records;
  }

  /** The result is determined by the cursor. */
  lemma AssemblyIsUnique(a: seq<Row>, b: seq<Row>, columns: seq<string>, records: seq<Record>)
    requires Assembles(a, columns, records) && Assembles(b, columns, records)
    ensures a == b
  {
    var p := Scanned(columns, records);
    forall i | 0 <= i < |p| ensures a[i] == b[i] {
      RowIsUnique(a[i], b[i], columns, records[p[i]].value);
    }
  }

  // ----- the response -----

  datatype Rows = Rows(data: seq<Fields>, count: nat)

  ghost predicate Packs(data: seq<Fields>, rows: seq<Row>, format: Format) {
    |data| == |rows| && forall i | 0 <= i < |rows| :: data[i] == RowToProto(rows[i], format)
  }

  /** The result loop of ExecuteQuery, SelectData and FindDocuments. */
  method ToResponse(rows: seq<Row>, format: Format) returns (response: Rows)
    ensures response.count == |response.data| && Packs(response.data, rows, format)
  {
    var protoRows := new Fields[|rows|](_ => map[]);
    for i := 0 to |rows|
      invariant forall j | 0 <= j < i :: protoRows[j] == RowToProto(rows[j], format)
    {
      var fields := RowToProtoFields(rows[i], format);
      protoRows[i] := fields;
    }
    return Rows(protoRows[..], |rows|);
  }
}
