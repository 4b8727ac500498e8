/// The table of the cache package (cache.AbstractTable): an ordered list of
/// rows, where they were last read from (and by which worker and over which
/// connection), and the database's last-modified stamp for the table.
///
/// Cache file of a table: the row count, then every row as the row encoding
/// writes it. Because a DateTime cell that holds a date does not decode, a
/// table file is read back whole exactly when none of its rows holds a date.
module CacheTable {

  import opened Wrappers
  import opened Text
  import opened JavaTime
  import opened PropertyTypes
  import opened Properties
  import opened BitStores
  import opened Jdbc
  import opened CacheTableData
  import Disks
  import LegacyTable

  /** TableReadSource: where the rows of a table were last read from. */
  datatype TableReadSource = DB | Disk | Unknown

  /** The fields of a table besides its rows: SOURCE, SourceThread,
    * SourceConnection and lastModified (null as None). */
  datatype TableMeta = TableMeta(source: TableReadSource, sourceThread: string, sourceConnection: string,
                                 lastModified: Option<DateTime>)

  /** The cells of a table's rows, in list order. */
  type Rows = seq<seq<Cell>>

  /** A table as a value: its rows' cells and its other fields. */
  datatype TableState = TableState(rows: Rows, meta: TableMeta)

  predicate AllRowsMatch(schema: seq<NamedPropertyType>, rows: Rows)
  {
    forall i :: 0 <= i < |rows| ==> RowMatches(schema, rows[i])
  }

  predicate AllRowsWritable(rows: Rows)
  {
    forall i :: 0 <= i < |rows| ==> AllWritable(rows[i])
  }

  /** The cells of row objects, in list order. */
  function ColumnsOf(rows: seq<TableData>): (r: Rows)
    reads rows
    ensures |r| == |rows|
    ensures forall i :: 0 <= i < |rows| ==> r[i] == rows[i].columns
  {
    if rows == [] then [] else ColumnsOf(rows[..|rows| - 1]) + [rows[|rows| - 1].columns]
  }

  lemma ColumnsOfAppend(rows: seq<TableData>, row: TableData)
    ensures ColumnsOf(rows + [row]) == ColumnsOf(rows) + [row.columns]
  {
    assert (rows + [row])[..|rows|] == rows;
  }

  // ------------------------------------------------------ add(ResultSet)

  /** The rows add(ResultSet) appends: per result row a blank row filled by
    * setFromResultSet, in result order, until the first row that cannot be
    * filled; that row's error ends the loop. */
  function RowsFromResultSet(schema: seq<NamedPropertyType>, rs: seq<ResultRow>): (r: (Rows, Outcome))
  {
    if |rs| == 0 then ([], Success)
    else match FillFromRow(InitialCells(schema), rs[0], 0)
      case Err(e) => ([], Failure(e))
      case Ok(cells) =>
        var rest := RowsFromResultSet(schema, rs[1..]);
        ([cells] + rest.0, rest.1)
  }

  /** add(ResultSet) keeps the rows filled before the first bad result row,
    * each the filling of its own result row, and fails exactly when some
    * result row is bad, with the first bad row's error. */
  lemma {:induction false} RowsFromResultSetMeaning(schema: seq<NamedPropertyType>, rs: seq<ResultRow>)
    ensures var r := RowsFromResultSet(schema, rs);
            |r.0| <= |rs|
            && (forall i :: 0 <= i < |r.0| ==> FillFromRow(InitialCells(schema), rs[i], 0) == Ok(r.0[i]))
            && (r.1.Success? <==> forall i :: 0 <= i < |rs| ==> FillFromRow(InitialCells(schema), rs[i], 0).Ok?)
            && (r.1.Success? ==> |r.0| == |rs|)
            && (r.1.Failure? ==> |r.0| < |rs| && FillFromRow(InitialCells(schema), rs[|r.0|], 0) == Err(r.1.error))
    decreases |rs|
  {
    var blank := InitialCells(schema);
    if |rs| > 0 && FillFromRow(blank, rs[0], 0).Ok? {
      var tail := rs[1..];
      RowsFromResultSetMeaning(schema, tail);
      var rest := RowsFromResultSet(schema, tail);
      var r := RowsFromResultSet(schema, rs);
      assert r == ([FillFromRow(blank, rs[0], 0).value] + rest.0, rest.1);
      forall i | 0 < i < |r.0|
        ensures FillFromRow(blank, rs[i], 0) == Ok(r.0[i])
      {
        assert rs[i] == tail[i - 1];
      }
      if r.1.Success? {
        forall i | 0 < i < |rs|
          ensures FillFromRow(blank, rs[i], 0).Ok?
        {
          assert rs[i] == tail[i - 1];
        }
      } else {
        assert rs[|r.0|] == tail[|rest.0|];
      }
      if forall i :: 0 <= i < |rs| ==> FillFromRow(blank, rs[i], 0).Ok? {
        forall i | 0 <= i < |tail|
          ensures FillFromRow(blank, tail[i], 0).Ok?
        {
          assert tail[i] == rs[i + 1];
        }
      }
    }
  }

  /** Every row add(ResultSet) appends holds, in each cell, the value of the
    * result column of that cell's name (a date to the second). */
  lemma RowsFromResultSetCells(schema: seq<NamedPropertyType>, rs: seq<ResultRow>, i: nat, j: nat)
    requires var r := RowsFromResultSet(schema, rs); i < |r.0| && j < |schema|
    ensures var r := RowsFromResultSet(schema, rs);
            i < |rs| && j < |r.0[i]| && r.0[i][j].named == schema[j]
            && ReadColumn(schema[j], rs[i]).Ok?
            && Canonical(r.0[i][j].value) == Canonical(ReadColumn(schema[j], rs[i]).value)
  {
    RowsFromResultSetMeaning(schema, rs);
    var blank := InitialCells(schema);
    FillFromRowReads(blank, rs[i], 0);
  }

  lemma RowsStep(schema: seq<NamedPropertyType>, rs: seq<ResultRow>, i: nat)
    requires i < |rs|
    ensures var first := FillFromRow(InitialCells(schema), rs[i], 0);
            var rest := RowsFromResultSet(schema, rs[i + 1..]);
            RowsFromResultSet(schema, rs[i..])
              == if first.Err? then ([], Failure(first.error)) else ([first.value] + rest.0, rest.1)
  {
    assert rs[i..][0] == rs[i] && rs[i..][1..] == rs[i + 1..];
  }

  // ------------------------------------------------------ the cache file

  /** The rows' serialisations, in list order. */
  function EncodeRows(rows: Rows): (ts: seq<Token>)
    requires AllRowsWritable(rows)
  {
    if |rows| == 0 then [] else EncodeRow(rows[0]) + EncodeRows(rows[1..])
  }

  lemma EncodeRowsStep(rows: Rows, i: nat)
    requires AllRowsWritable(rows) && i < |rows|
    ensures EncodeRows(rows[i..]) == EncodeRow(rows[i]) + EncodeRows(rows[i + 1..])
  {
    assert rows[i..][0] == rows[i] && rows[i..][1..] == rows[i + 1..];
  }

  /** Writing row i moves it from the rows still to write to the tokens written. */
  lemma WrittenRow(before: seq<Token>, rows: Rows, i: nat)
    requires AllRowsWritable(rows) && i < |rows|
    ensures (before + EncodeRow(rows[i])) + EncodeRows(rows[i + 1..]) == before + EncodeRows(rows[i..])
  {
    EncodeRowsStep(rows, i);
  }

  /** What saveToDisk writes: the row count, then every row. */
  function EncodeTable(rows: Rows): (ts: seq<Token>)
    requires AllRowsWritable(rows)
    ensures |ts| >= 1 && ts[0] == IntToken(|rows|)
  {
    [IntToken(|rows|)] + EncodeRows(rows)
  }

  /** n rows read from pos on, each into a blank row of the schema with
    * setFromBitStore: the rows read before the first failure, and either the
    * position after the last one or that failure. */
  function DecodeRows(schema: seq<NamedPropertyType>, ts: seq<Token>, pos: nat, n: nat): (r: (Rows, Result<nat>))
    ensures |r.0| <= n
    ensures r.1.Ok? <==> |r.0| == n
    decreases n
  {
    if n == 0 then ([], Ok(pos))
    else match DecodeRow(InitialCells(schema), ts, pos)
      case Err(e) => ([], Err(e))
      case Ok(first) =>
        var rest := DecodeRows(schema, ts, first.1, n - 1);
        ([first.0] + rest.0, rest.1)
  }

  /** What loadFromDisk appends from a cache file's content: the count, then
    * that many rows (none for a negative count); a failure keeps the rows
    * read so far. */
  function DecodeTableFile(schema: seq<NamedPropertyType>, ts: seq<Token>): (r: (Rows, Outcome))
    ensures ReadIntAt(ts, 0).Err? ==> r == ([], Failure(ReadIntAt(ts, 0).error))
    ensures r.1.Success? ==> ReadIntAt(ts, 0).Ok? && |r.0| == LegacyTable.Pad(ReadIntAt(ts, 0).value.0)
  {
    match ReadIntAt(ts, 0)
    case Err(e) => ([], Failure(e))
    case Ok(count) =>
      var r := DecodeRows(schema, ts, count.1, LegacyTable.Pad(count.0));
      (r.0, if r.1.Ok? then Success else Failure(r.1.error))
  }

  /** loadFromDisk on a folder: the rows appended and the folder after it. A
    * missing file changes nothing; a failed read deletes the file. */
  function DiskLoad(schema: seq<NamedPropertyType>, tableName: string, files: map<string, seq<Token>>)
    : (r: (Rows, map<string, seq<Token>>))
    ensures Disks.CacheFileName(tableName) !in files ==> r == ([], files)
    ensures r.1 == files || r.1 == files - {Disks.CacheFileName(tableName)}
  {
    var name := Disks.CacheFileName(tableName);
    if name !in files then ([], files)
    else
      var d := DecodeTableFile(schema, files[name]);
      (d.0, if d.1.Success? then files else files - {name})
  }

  // ------------------------------------------------------ the round trip

  /** No DateTime cell of the row holds a date. */
  predicate NoDates(cells: seq<Cell>)
  {
    forall j :: 0 <= j < |cells| ==> !HoldsDateTime(cells[j])
  }

  /** The position of the first row with a date, or the row count. */
  function FirstDated(rows: Rows): (k: nat)
    ensures k <= |rows|
    ensures forall i :: 0 <= i < k ==> NoDates(rows[i])
    ensures k < |rows| ==> !NoDates(rows[k])
  {
    if |rows| == 0 then 0
    else if NoDates(rows[0]) then
      var k := 1 + FirstDated(rows[1..]);
      assert forall i :: 1 <= i < k ==> rows[i] == rows[1..][i - 1];
      k
    else 0
  }

  /** Two rows with the same columns holding the same values. */
  predicate SameCells(a: seq<Cell>, b: seq<Cell>)
  {
    |a| == |b| && forall j :: 0 <= j < |a| ==> a[j].named == b[j].named && a[j].value == b[j].value
  }

  /** Each row of a pairwise holds the values of the row of b at its index. */
  predicate SamePrefix(a: Rows, b: Rows)
  {
    |a| <= |b| && forall i :: 0 <= i < |a| ==> SameCells(a[i], b[i])
  }

  /** The rows of a list are encoded one after the other from pos on. */
  predicate EncodedAt(ts: seq<Token>, pos: nat, rows: Rows)
    decreases |rows|
  {
    |rows| == 0
    || (AllWritable(rows[0]) && pos + |EncodeRow(rows[0])| <= |ts|
        && ts[pos..pos + |EncodeRow(rows[0])|] == EncodeRow(rows[0])
        && EncodedAt(ts, pos + |EncodeRow(rows[0])|, rows[1..]))
  }

  lemma {:induction false} EncodedAtOfSlice(ts: seq<Token>, pos: nat, rows: Rows)
    requires AllRowsWritable(rows)
    requires pos + |EncodeRows(rows)| <= |ts| && ts[pos..pos + |EncodeRows(rows)|] == EncodeRows(rows)
    ensures EncodedAt(ts, pos, rows)
    decreases |rows|
  {
    if |rows| > 0 {
      LegacyTable.SliceSplit(ts, pos, EncodeRow(rows[0]), EncodeRows(rows[1..]));
      EncodedAtOfSlice(ts, pos + |EncodeRow(rows[0])|, rows[1..]);
    }
  }

  /** The first row of encoded rows, and where the others start. */
  lemma EncodedAtFirst(ts: seq<Token>, pos: nat, rows: Rows) returns (next: nat)
    requires |rows| > 0 && EncodedAt(ts, pos, rows)
    ensures AllWritable(rows[0]) && next == pos + |EncodeRow(rows[0])| <= |ts|
    ensures ts[pos..next] == EncodeRow(rows[0]) && EncodedAt(ts, next, rows[1..])
  {
    next := pos + |EncodeRow(rows[0])|;
  }

  /** Reading n rows is reading the first, then n - 1 from where it ends. */
  lemma DecodeRowsFirst(schema: seq<NamedPropertyType>, ts: seq<Token>, pos: nat, n: nat,
                        cells: seq<Cell>, next: nat)
    requires n > 0 && DecodeRow(InitialCells(schema), ts, pos) == Ok((cells, next))
    ensures var rest := DecodeRows(schema, ts, next, n - 1);
            DecodeRows(schema, ts, pos, n) == ([cells] + rest.0, rest.1)
  {
  }

  /** A row encoding decodes into the row's own values, ending where the
    * encoding ends, unless the row holds a date. */
  lemma DecodeEncodedRow(schema: seq<NamedPropertyType>, first: seq<Cell>, ts: seq<Token>, pos: nat, next: nat)
    returns (cells: seq<Cell>)
    requires UniqueNames(schema) && RowMatches(schema, first) && AllWritable(first)
    requires next == pos + |EncodeRow(first)| <= |ts| && ts[pos..next] == EncodeRow(first)
    ensures DecodeRow(InitialCells(schema), ts, pos).Ok? <==> NoDates(first)
    ensures NoDates(first) ==> SameCells(cells, first) && DecodeRow(InitialCells(schema), ts, pos) == Ok((cells, next))
  {
    RowRoundTrip(schema, first, ts, pos);
    var r := DecodeRow(InitialCells(schema), ts, pos);
    if r.Ok? {
      cells := r.value.0;
      assert r.value.1 == next;
      assert r.value == (cells, next);
    } else {
      cells := first;
    }
  }

  /** Decoding encoded rows stops at the first row with a date, and restores
    * every row before it. */
  lemma {:induction false} DecodeEncodedRows(schema: seq<NamedPropertyType>, rows: Rows, ts: seq<Token>, pos: nat)
    requires UniqueNames(schema) && AllRowsMatch(schema, rows) && EncodedAt(ts, pos, rows)
    ensures var r := DecodeRows(schema, ts, pos, |rows|);
            |r.0| == FirstDated(rows) && SamePrefix(r.0, rows)
    decreases |rows|
  {
    if |rows| > 0 {
      var next := EncodedAtFirst(ts, pos, rows);
      assert RowMatches(schema, rows[0]);
      var cells := DecodeEncodedRow(schema, rows[0], ts, pos, next);
      if NoDates(rows[0]) {
        assert AllRowsMatch(schema, rows[1..]);
        DecodeEncodedRows(schema, rows[1..], ts, next);
        DecodeRowsCons(schema, rows, ts, pos, cells, next);
      } else {
        assert DecodeRows(schema, ts, pos, |rows|).0 == [] && FirstDated(rows) == 0;
      }
    }
  }

  /** One more restored row in front of the restored rows after it. */
  lemma DecodeRowsCons(schema: seq<NamedPropertyType>, rows: Rows, ts: seq<Token>, pos: nat,
                       cells: seq<Cell>, next: nat)
    requires |rows| > 0 && NoDates(rows[0]) && SameCells(cells, rows[0])
    requires DecodeRow(InitialCells(schema), ts, pos) == Ok((cells, next))
    requires var rest := DecodeRows(schema, ts, next, |rows[1..]|);
             |rest.0| == FirstDated(rows[1..]) && SamePrefix(rest.0, rows[1..])
    ensures var r := DecodeRows(schema, ts, pos, |rows|);
            |r.0| == FirstDated(rows) && SamePrefix(r.0, rows)
  {
    var rest := DecodeRows(schema, ts, next, |rows[1..]|);
    assert |rows[1..]| == |rows| - 1;
    DecodeRowsFirst(schema, ts, pos, |rows|, cells, next);
    var r := DecodeRows(schema, ts, pos, |rows|);
    assert r.0 == [cells] + rest.0;
    assert r.0[0] == cells && r.0[1..] == rest.0;
    assert FirstDated(rows) == 1 + FirstDated(rows[1..]);
    forall i | 0 < i < |r.0|
      ensures SameCells(r.0[i], rows[i])
    {
      assert r.0[i] == rest.0[i - 1] && rows[i] == rows[1..][i - 1];
    }
  }

  /** A table file written by saveToDisk is read back by loadFromDisk up to
    * the first row that holds a date: the rows before it come back with their
    * values, and the file survives exactly when no row holds a date. */
  lemma TableRoundTrip(schema: seq<NamedPropertyType>, tableName: string, rows: Rows, files: map<string, seq<Token>>)
    requires UniqueNames(schema) && AllRowsMatch(schema, rows)
    ensures AllRowsWritable(rows)
    ensures var name := Disks.CacheFileName(tableName);
            var saved := files[name := EncodeTable(rows)];
            var r := DiskLoad(schema, tableName, saved);
            |r.0| == FirstDated(rows)
            && (forall i :: 0 <= i < |r.0| ==> SameCells(r.0[i], rows[i]))
            && (r.1 == saved <==> forall i :: 0 <= i < |rows| ==> NoDates(rows[i]))
            && (r.1 != saved ==> r.1 == files - {name})
  {
    assert AllRowsWritable(rows);
    var name := Disks.CacheFileName(tableName);
    var ts := EncodeTable(rows);
    var saved := files[name := ts];
    assert ts[1..1 + |EncodeRows(rows)|] == EncodeRows(rows);
    EncodedAtOfSlice(ts, 1, rows);
    DecodeEncodedRows(schema, rows, ts, 1);
    var d := DecodeRows(schema, ts, 1, |rows|);
    assert saved - {name} == files - {name};
    assert name in saved && name !in saved - {name};
  }

  // ------------------------------------------------------ equality

  /** The other side of equals: a table of this package, a table of the older
    * table_data package, or any other object. */
  datatype Comparand =
    | CacheTableObject(t: Table)
    | LegacyTableObject(legacy: LegacyTable.Table)
    | OtherObject

  class Table {
    const tableName: string
    /** getColumnTypes: the schema of the table's rows. */
    const schema: seq<NamedPropertyType>
    var tableData: seq<TableData>
    var source: TableReadSource
    var sourceThread: string
    var sourceConnection: string
    var lastModified: Option<DateTime>

    ghost predicate Valid()
      reads this`tableData, tableData
    {
      forall i :: 0 <= i < |tableData| ==> tableData[i].schema == schema && tableData[i].Valid()
    }

    /** Everything about the table but its rows. */
    function Meta(): TableMeta
      reads this
    {
      TableMeta(source, sourceThread, sourceConnection, lastModified)
    }

    /** The rows and the other fields, as values. */
    function State(): TableState
      reads this, tableData
    {
      TableState(Rows(), Meta())
    }

    function Rows(): (rows: Rows)
      reads this`tableData, tableData
      ensures Valid() ==> AllRowsMatch(schema, rows) && AllRowsWritable(rows)
    {
      ColumnsOf(tableData)
    }

    /** A new table: no rows, source unknown, no worker or connection noted,
      * last modified MAX. */
    constructor (tableName: string, schema: seq<NamedPropertyType>)
      ensures Valid() && tableData == [] && source == Unknown
      ensures sourceThread == "" && sourceConnection == "" && lastModified == Some(MAX)
      ensures this.tableName == tableName && this.schema == schema
    {
      this.tableName := tableName;
      this.schema := schema;
      tableData := [];
      source := Unknown;
      sourceThread := "";
      sourceConnection := "";
      lastModified := Some(MAX);
    }

    method IsEmpty() returns (b: bool)
      ensures b <==> Rows() == []
    {
      b := |tableData| == 0;
    }

    method Size() returns (n: nat)
      ensures n == |Rows()|
    {
      n := |tableData|;
    }

    method GetDbLastModify() returns (t: Option<DateTime>)
      ensures t == lastModified
    {
      t := lastModified;
    }

    method SetDbLastModify(t: Option<DateTime>)
      modifies this
      ensures Meta() == old(Meta()).(lastModified := t) && tableData == old(tableData)
    {
      lastModified := t;
    }

    method Clear()
      modifies this
      ensures Valid() && tableData == [] && Meta() == old(Meta())
    {
      tableData := [];
    }

    method Add(row: TableData)
      requires Valid() && row.Valid() && row.schema == schema
      modifies this
      ensures Valid() && tableData == old(tableData) + [row] && Rows() == old(Rows()) + [row.columns]
      ensures Meta() == old(Meta())
    {
      ColumnsOfAppend(tableData, row);
      tableData := tableData + [row];
    }

    /** add(ResultSet): per result row a blank row filled from it, appended in
      * result order; a row that cannot be filled stops the loop with its
      * error, keeping the rows appended before it. */
    method AddResultSet(rs: seq<ResultRow>) returns (r: Outcome)
      requires Valid()
      modifies this
      ensures Valid() && Meta() == old(Meta())
      ensures var spec := RowsFromResultSet(schema, rs);
              Rows() == old(Rows()) + spec.0 && r == spec.1
    {
      ghost var spec := RowsFromResultSet(schema, rs);
      ghost var added: Rows := [];
      LegacyTable.ExtendNothing(spec);
      var i := 0;
      while i < |rs|
        invariant i <= |rs| && Valid()
        invariant spec == LegacyTable.Extend(added, RowsFromResultSet(schema, rs[i..]))
        invariant Rows() == old(Rows()) + added
        invariant Meta() == old(Meta())
      {
        RowsStep(schema, rs, i);
        var cells := AddRow(rs[i]);
        if cells.Err? {
          return Failure(cells.error);
        }
        LegacyTable.ExtendStep(added, cells.value, RowsFromResultSet(schema, rs[i + 1..]));
        added := added + [cells.value];
        i := i + 1;
      }
      r := Success;
    }

    /** create(ResultSet) then add: a blank row filled from a result row is
      * appended; a row that cannot be filled appends nothing. */
    method AddRow(row: ResultRow) returns (r: Result<seq<Cell>>)
      requires Valid()
      modifies this
      ensures Valid() && Meta() == old(Meta())
      ensures r == FillFromRow(InitialCells(schema), row, 0)
      ensures Rows() == old(Rows()) + (if r.Ok? then [r.value] else [])
    {
      var data, o := CreateFromResultSet(schema, row);
      if o.Failure? {
        assert Rows() == old(Rows()) + [];
        return Err(o.error);
      }
      Add(data);
      r := Ok(data.columns);
    }

    /** create(ResultSet): a blank row of the schema filled from a result row. */
    static method CreateFromResultSet(schema: seq<NamedPropertyType>, row: ResultRow)
      returns (data: TableData, o: Outcome)
      ensures fresh(data) && data.Valid() && data.schema == schema
      ensures var spec := FillFromRow(InitialCells(schema), row, 0);
              (spec.Ok? ==> o.Success? && data.columns == spec.value)
              && (spec.Err? ==> o == Failure(spec.error))
    {
      data := new TableData(schema);
      o := data.SetFromResultSet(row);
    }

    /** saveToDisk: the table's file becomes the count and every row in order. */
    method SaveToDisk(disk: Disks.Disk)
      requires Valid()
      modifies disk
      ensures disk.files == old(disk.files)[Disks.CacheFileName(tableName) := EncodeTable(old(Rows()))]
    {
      ghost var rows := Rows();
      var store := new Store.Writer();
      store.WriteInt(|tableData|);
      WriteRows(store, rows);
      assert store.tokens == EncodeTable(rows);
      disk.files := disk.files[Disks.CacheFileName(tableName) := store.tokens];
    }

    /** Every row serialised into the store, in list order. */
    method WriteRows(store: Store, ghost rows: Rows)
      requires Valid() && rows == Rows()
      modifies store
      ensures AllRowsWritable(rows) && store.tokens == old(store.tokens) + EncodeRows(rows)
    {
      var i := 0;
      while i < |tableData|
        invariant i <= |tableData| && Valid() && rows == Rows() && AllRowsWritable(rows)
        invariant store.tokens + EncodeRows(rows[i..]) == old(store.tokens) + EncodeRows(rows)
      {
        ghost var before := store.tokens;
        WriteRowAt(store, rows, i);
        WrittenRow(before, rows, i);
        i := i + 1;
      }
      assert rows[i..] == [];
    }

    /** serialize of the i-th row. */
    method WriteRowAt(store: Store, ghost rows: Rows, i: nat)
      requires Valid() && rows == Rows() && i < |tableData|
      modifies store
      ensures Valid() && rows == Rows()
      ensures AllWritable(rows[i]) && store.tokens == old(store.tokens) + EncodeRow(rows[i])
    {
      tableData[i].Serialize(store);
    }

    /** loadFromDisk: appends what the table's file holds, never clearing
      * first; a file that cannot be read is deleted, keeping the rows read
      * from it. */
    method LoadFromDisk(disk: Disks.Disk)
      requires Valid()
      modifies this, disk
      ensures Valid() && Meta() == old(Meta())
      ensures var spec := DiskLoad(schema, tableName, old(disk.files));
              Rows() == old(Rows()) + spec.0 && disk.files == spec.1
    {
      var name := Disks.CacheFileName(tableName);
      if name !in disk.files {
        assert Rows() == old(Rows()) + [];
        return;
      }
      var store := new Store.Reader(disk.files[name]);
      var count := store.ReadInt();
      if count.Err? {
        assert Rows() == old(Rows()) + [];
        disk.files := disk.files - {name};
        return;
      }
      var r := ReadRows(store, LegacyTable.Pad(count.value));
      if r.Failure? {
        disk.files := disk.files - {name};
      }
    }

    /** n rows read with create(BitStore) and appended in stored order. */
    method ReadRows(store: Store, n: nat) returns (r: Outcome)
      requires Valid()
      modifies this, store
      ensures Valid() && store.tokens == old(store.tokens)
      ensures Meta() == old(Meta())
      ensures var spec := DecodeRows(schema, store.tokens, old(store.pos), n);
              Rows() == old(Rows()) + spec.0
              && (spec.1.Ok? ==> r.Success?) && (spec.1.Err? ==> r == Failure(spec.1.error))
    {
      ghost var ts := store.tokens;
      ghost var spec := DecodeRows(schema, ts, store.pos, n);
      ghost var added: Rows := [];
      LegacyTable.ExtendNothing(spec);
      var i := 0;
      while i < n
        invariant i <= n && Valid() && store.tokens == ts
        invariant spec == LegacyTable.Extend(added, DecodeRows(schema, ts, store.pos, n - i))
        invariant Rows() == old(Rows()) + added
        invariant Meta() == old(Meta())
      {
        var cells := ReadRowStep(store, old(Rows()), added, spec, n - i);
        if cells.Err? {
          return Failure(cells.error);
        }
        added := added + [cells.value];
        i := i + 1;
      }
      r := Success;
    }

    /** One turn of the loop of loadFromDisk, m rows before its end: a row
      * read and appended, or the failure that ends the loop. */
    method ReadRowStep(store: Store, ghost start: Rows, ghost added: Rows, ghost spec: (Rows, Result<nat>), m: nat)
      returns (cells: Result<seq<Cell>>)
      requires Valid() && m > 0 && Rows() == start + added
      requires spec == LegacyTable.Extend(added, DecodeRows(schema, store.tokens, store.pos, m))
      modifies this, store
      ensures Valid() && store.tokens == old(store.tokens) && Meta() == old(Meta())
      ensures cells.Err? ==> spec == (added, Err(cells.error)) && Rows() == start + added
      ensures cells.Ok? ==> spec == LegacyTable.Extend(added + [cells.value], DecodeRows(schema, store.tokens, store.pos, m - 1))
                            && Rows() == start + (added + [cells.value])
    {
      cells := ReadRow(store);
      if cells.Err? {
        assert added + [] == added;
        return;
      }
      LegacyTable.ExtendStep(added, cells.value, DecodeRows(schema, store.tokens, store.pos, m - 1));
      assert (start + added) + [cells.value] == start + (added + [cells.value]);
    }

    /** create(BitStore) then add: a blank row read from the store is
      * appended; a row that cannot be read appends nothing. */
    method ReadRow(store: Store) returns (r: Result<seq<Cell>>)
      requires Valid()
      modifies this, store
      ensures Valid() && store.tokens == old(store.tokens)
      ensures Meta() == old(Meta())
      ensures var spec := DecodeRow(InitialCells(schema), store.tokens, old(store.pos));
              (spec.Ok? ==> r == Ok(spec.value.0) && store.pos == spec.value.1)
              && (spec.Err? ==> r == Err(spec.error))
      ensures Rows() == old(Rows()) + (if r.Ok? then [r.value] else [])
    {
      var data, o := CreateFromBitStore(schema, store);
      if o.Failure? {
        assert Rows() == old(Rows()) + [];
        return Err(o.error);
      }
      Add(data);
      r := Ok(data.columns);
    }

    /** create(BitStore): a blank row of the schema read from the store. */
    static method CreateFromBitStore(schema: seq<NamedPropertyType>, store: Store)
      returns (data: TableData, o: Outcome)
      modifies store
      ensures fresh(data) && data.Valid() && data.schema == schema && store.tokens == old(store.tokens)
      ensures var spec := DecodeRow(InitialCells(schema), store.tokens, old(store.pos));
              (spec.Ok? ==> o.Success? && data.columns == spec.value.0 && store.pos == spec.value.1)
              && (spec.Err? ==> o == Failure(spec.error))
    {
      data := new TableData(schema);
      o := data.SetFromBitStore(store);
    }

    /** equals: only a table of the older package can be equal, and then only
      * when the two row lists are equal element by element. The rows of this
      * package keep Object's identity equality, so no row of this table equals
      * an entry of the other: the lists are equal exactly when both are empty.
      * Not even a table equals itself. */
    method Equals(other: Comparand) returns (b: bool)
      ensures b <==> other.LegacyTableObject? && tableData == [] && other.legacy.tableData == []
    {
      if !other.LegacyTableObject? {
        return false;
      }
      b := |tableData| == 0 && |other.legacy.tableData| == 0;
    }

    /** toString, given each row's own text. */
    method ToString(texts: seq<string>) returns (s: string)
      requires |texts| == |tableData|
      ensures s == LegacyTable.TableText(texts)
    {
      if |tableData| == 0 {
        return "[]";
      }
      var buffer := "[" + texts[0];
      assert texts[..1] == [texts[0]];
      var i := 1;
      while i < |tableData|
        invariant 1 <= i <= |tableData|
        invariant buffer == "[" + Join(texts[..i], ", ")
      {
        assert texts[..i + 1][..i] == texts[..i];
        buffer := buffer + ", " + texts[i];
        i := i + 1;
      }
      assert texts[..i] == texts;
      s := buffer + "]";
    }
  }
}
