/// A row of a cache table (cache.AbstractTableData): one cell per column of
/// the table, in column order, filled from a result set or from a cache file,
/// and written to a cache file.
///
/// Row encoding: the number of cells, then per cell its kind id, its name and
/// its value (a Bool, Integer or String cell directly; a Double cell as its
/// text; a DateTime cell as getAsString, i.e. "NULL", a sentinel name or
/// dd.MM.yyyy HH:mm:ss). Decoding reads a DateTime cell with getDateTime, which
/// expects yyyy-MM-dd HH:mm:ss, so a non-null DateTime cell does not decode.
module CacheTableData {

  import opened Wrappers
  import opened Text
  import opened JavaTime
  import opened JavaDoubles
  import opened PropertyTypes
  import opened Properties
  import opened AbstractDatabase
  import opened BitStores
  import opened Jdbc

  /** Bool, Integer and Double cells of a row always hold a value: they are only
    * ever set from primitive reads. */
  predicate NullOnlyWhereAllowed(v: Value)
  {
    v.BoolValue? || v.IntegerValue? || v.DoubleValue? ==> !IsNull(v)
  }

  /** The cells of a row of a table with this schema. */
  predicate RowMatches(schema: seq<NamedPropertyType>, cells: seq<Cell>)
  {
    |cells| == |schema|
    && forall i :: 0 <= i < |cells| ==>
         cells[i].named == schema[i] && cells[i].Valid() && NullOnlyWhereAllowed(cells[i].value)
  }

  /** initialColumns: one fresh cell per column. */
  function InitialCells(schema: seq<NamedPropertyType>): (cells: seq<Cell>)
    ensures RowMatches(schema, cells)
    ensures forall i :: 0 <= i < |cells| ==> cells[i] == Create(schema[i])
  {
    seq(|schema|, i requires 0 <= i < |schema| => Create(schema[i]))
  }

  /** The position of the first cell with this name (a null name matches none). */
  function ColumnIndex(cells: seq<Cell>, name: Option<string>): (r: Option<nat>)
    ensures r.Some? ==> r.value < |cells| && name == Some(cells[r.value].named.name)
    ensures r.Some? ==> forall j :: 0 <= j < r.value ==> name != Some(cells[j].named.name)
    ensures r.None? ==> forall j :: 0 <= j < |cells| ==> name != Some(cells[j].named.name)
  {
    if cells == [] then None
    else if name == Some(cells[0].named.name) then Some(0)
    else match ColumnIndex(cells[1..], name)
      case None => None
      case Some(k) => Some(k + 1)
  }

  /** get / getColumn: the first cell with this name, or a RuntimeException. */
  function GetColumn(cells: seq<Cell>, name: Option<string>): (r: Result<Cell>)
    ensures r.Ok? <==> exists j :: 0 <= j < |cells| && name == Some(cells[j].named.name)
    ensures r.Ok? ==> r.value == cells[ColumnIndex(cells, name).value]
  {
    match ColumnIndex(cells, name)
    case Some(k) => Ok(cells[k])
    case None => Err(Runtime("can't find column with name"))
  }

  // ------------------------------------------------------------------ encoding

  /** The token a cell's value is written as. */
  function EncodeValue(v: Value): Token
    requires NullOnlyWhereAllowed(v)
  {
    match v
    case BoolValue(b) => BoolToken(b.value)
    case IntegerValue(i) => IntToken(i.value)
    case StringValue(s) => StringToken(s)
    case DoubleValue(d) => StringToken(Some(DoubleText(d.value)))
    case DateTimeValue(t) => StringToken(Some(DateTimeAsString(t)))
  }

  function EncodeCell(c: Cell): seq<Token>
    requires NullOnlyWhereAllowed(c.value)
  {
    [IntToken(Id(c.named.kind)), StringToken(Some(c.named.name)), EncodeValue(c.value)]
  }

  predicate AllWritable(cells: seq<Cell>)
  {
    forall i :: 0 <= i < |cells| ==> NullOnlyWhereAllowed(cells[i].value)
  }

  function EncodeCells(cells: seq<Cell>): (ts: seq<Token>)
    requires AllWritable(cells)
    ensures |ts| == 3 * |cells|
  {
    if cells == [] then []
    else EncodeCells(cells[..|cells| - 1]) + EncodeCell(cells[|cells| - 1])
  }

  /** serialize: the cell count, then every cell in column order. */
  function EncodeRow(cells: seq<Cell>): (ts: seq<Token>)
    requires AllWritable(cells)
    ensures |ts| == 1 + 3 * |cells|
  {
    [IntToken(|cells|)] + EncodeCells(cells)
  }

  /** Writing cell i after the first i cells writes the first i + 1. */
  lemma WrittenStep(head: seq<Token>, cells: seq<Cell>, i: nat)
    requires AllWritable(cells) && i < |cells|
    ensures head + EncodeCells(cells[..i]) + EncodeCell(cells[i]) == head + EncodeCells(cells[..i + 1])
  {
    assert cells[..i + 1][..i] == cells[..i];
    var e, c := EncodeCells(cells[..i]), EncodeCell(cells[i]);
    assert head + e + c == head + (e + c);
  }

  lemma {:induction false} EncodeCellsFront(cells: seq<Cell>)
    requires AllWritable(cells) && cells != []
    ensures EncodeCells(cells) == EncodeCell(cells[0]) + EncodeCells(cells[1..])
    decreases |cells|
  {
    if |cells| > 1 {
      var init := cells[..|cells| - 1];
      EncodeCellsFront(init);
      assert init[1..] == cells[1..][..|cells[1..]| - 1];
    } else {
      assert cells[1..] == [];
    }
  }

  // ------------------------------------------------------------------ decoding

  /** Read a value of the column's kind (the switch over the column in setFromBitStore). */
  function ReadValue(kind: PropertyType, ts: seq<Token>, pos: nat): (r: Result<(Value, nat)>)
    ensures r.Ok? ==> KindOf(r.value.0) == kind && NullOnlyWhereAllowed(r.value.0) && r.value.1 == pos + 1
  {
    match kind
    case Bool =>
      var (b, p) :- ReadBoolAt(ts, pos);
      Ok((BoolValue(Some(b)), p))
    case Integer =>
      var (i, p) :- ReadIntAt(ts, pos);
      Ok((IntegerValue(Some(i)), p))
    case String =>
      var (s, p) :- ReadStringAt(ts, pos);
      Ok((StringValue(s), p))
    case Double =>
      var (s, p) :- ReadStringAt(ts, pos);
      if s.None? then Err(NullPointer)
      else
        var d :- ParseDouble(s.value);
        Ok((DoubleValue(Some(d)), p))
    case LocalDateTime =>
      var (s, p) :- ReadStringAt(ts, pos);
      var t :- GetDateTime(s);
      Ok((DateTimeValue(t), p))
  }

  /** One stored cell: kind id, name, value; the named column must exist and
    * have that kind. */
  function DecodeEntry(cells: seq<Cell>, ts: seq<Token>, pos: nat): (r: Result<(seq<Cell>, nat)>)
    requires forall i :: 0 <= i < |cells| ==> cells[i].Valid()
    ensures r.Ok? ==> |r.value.0| == |cells| && r.value.1 == pos + 3
    ensures r.Ok? ==> forall i :: 0 <= i < |cells| ==> r.value.0[i].named == cells[i].named && r.value.0[i].Valid()
  {
    var (id, p1) :- ReadIntAt(ts, pos);
    var kind :- FromId(id);
    var (name, p2) :- ReadStringAt(ts, p1);
    match ColumnIndex(cells, name)
    case None => Err(Runtime("can't find column with name"))
    case Some(k) =>
      if kind != cells[k].named.kind then Err(Runtime("Property type of stored column is not equal to type of column in table"))
      else
        var (v, p3) :- ReadValue(kind, ts, p2);
        var c :- CellSetValue(cells[k], v);
        Ok((cells[k := c], p3))
  }

  /** The remaining `n` stored cells. */
  function DecodeEntries(cells: seq<Cell>, ts: seq<Token>, pos: nat, n: nat): (r: Result<(seq<Cell>, nat)>)
    requires forall i :: 0 <= i < |cells| ==> cells[i].Valid()
    ensures r.Ok? ==> |r.value.0| == |cells| && r.value.1 == pos + 3 * n
    ensures r.Ok? ==> forall i :: 0 <= i < |cells| ==> r.value.0[i].named == cells[i].named && r.value.0[i].Valid()
    decreases n
  {
    if n == 0 then Ok((cells, pos))
    else
      var (cells1, p1) :- DecodeEntry(cells, ts, pos);
      DecodeEntries(cells1, ts, p1, n - 1)
  }

  lemma DecodeEntriesStep(cells: seq<Cell>, ts: seq<Token>, pos: nat, n: nat)
    requires forall i :: 0 <= i < |cells| ==> cells[i].Valid()
    requires n > 0
    ensures DecodeEntry(cells, ts, pos).Err? ==> DecodeEntries(cells, ts, pos, n) == Err(DecodeEntry(cells, ts, pos).error)
    ensures DecodeEntry(cells, ts, pos).Ok? ==>
              DecodeEntries(cells, ts, pos, n)
              == DecodeEntries(DecodeEntry(cells, ts, pos).value.0, ts, DecodeEntry(cells, ts, pos).value.1, n - 1)
  {
  }

  /** setFromBitStore: the cell count, then that many stored cells (none for a
    * negative count). */
  function DecodeRow(cells: seq<Cell>, ts: seq<Token>, pos: nat): (r: Result<(seq<Cell>, nat)>)
    requires forall i :: 0 <= i < |cells| ==> cells[i].Valid()
    ensures r.Ok? ==> |r.value.0| == |cells|
    ensures r.Ok? ==> forall i :: 0 <= i < |cells| ==> r.value.0[i].named == cells[i].named && r.value.0[i].Valid()
  {
    var (count, p) :- ReadIntAt(ts, pos);
    DecodeEntries(cells, ts, p, if count < 0 then 0 else count)
  }

  /** A DateTime cell that holds a value: the one kind of cell that does not decode. */
  predicate HoldsDateTime(c: Cell)
  {
    c.value.DateTimeValue? && c.value.t.Some?
  }

  lemma ReadEncodedValue(v: Value, ts: seq<Token>, pos: nat)
    requires NullOnlyWhereAllowed(v) && pos < |ts| && ts[pos] == EncodeValue(v)
    ensures ReadValue(KindOf(v), ts, pos).Ok? <==> !(v.DateTimeValue? && v.t.Some?)
    ensures ReadValue(KindOf(v), ts, pos).Ok? ==> ReadValue(KindOf(v), ts, pos).value == (v, pos + 1)
  {
    match v
    case DoubleValue(d) => DoubleTextRoundTrip(d.value);
    case DateTimeValue(t) =>
      if t.Some? {
        var s := DateTimeAsString(t);
        if t.value != MIN && t.value != MAX {
          GermanTextIsNotSql(t.value);
          assert IsDigit(s[0]);
        } else {
          assert |s| == 17;
        }
        assert GetDateTime(Some(s)).Err?;
      }
    case _ =>
  }

  /** The three tokens of one encoded cell. */
  lemma CellTokens(c: Cell, ts: seq<Token>, pos: nat)
    requires NullOnlyWhereAllowed(c.value)
    requires pos + 3 <= |ts| && ts[pos..pos + 3] == EncodeCell(c)
    ensures ts[pos] == IntToken(Id(c.named.kind)) && ts[pos + 1] == StringToken(Some(c.named.name))
    ensures ts[pos + 2] == EncodeValue(c.value)
  {
    assert ts[pos..pos + 3][0] == ts[pos] && ts[pos..pos + 3][1] == ts[pos + 1] && ts[pos..pos + 3][2] == ts[pos + 2];
  }

  /** In a row of a table with unique column names, a column's name finds
    * that column. */
  lemma ColumnFound(schema: seq<NamedPropertyType>, cur: seq<Cell>, k: nat)
    requires UniqueNames(schema) && RowMatches(schema, cur) && k < |cur|
    ensures ColumnIndex(cur, Some(schema[k].name)) == Some(k)
  {
    forall j | 0 <= j < k
      ensures cur[j].named.name != schema[k].name
    {
      assert cur[j].named == schema[j];
    }
  }

  /** One encoded cell decodes into the fresh cell of its column, unless it holds a date. */
  lemma DecodeEncodedEntry(schema: seq<NamedPropertyType>, cells: seq<Cell>,
                           cur: seq<Cell>, ts: seq<Token>, pos: nat, k: nat)
    requires UniqueNames(schema) && RowMatches(schema, cells) && RowMatches(schema, cur)
    requires k < |cells| && cur[k] == Create(schema[k])
    requires pos + 3 <= |ts| && ts[pos..pos + 3] == EncodeCell(cells[k])
    ensures HoldsDateTime(cells[k]) ==> DecodeEntry(cur, ts, pos).Err?
    ensures !HoldsDateTime(cells[k]) ==>
              CellSetValue(cur[k], cells[k].value).Ok?
              && CellSetValue(cur[k], cells[k].value).value.value == cells[k].value
              && DecodeEntry(cur, ts, pos) == Ok((cur[k := CellSetValue(cur[k], cells[k].value).value], pos + 3))
  {
    var c := cells[k];
    CellTokens(c, ts, pos);
    FromIdOfId(c.named.kind);
    ColumnFound(schema, cur, k);
    ReadEncodedValue(c.value, ts, pos + 2);
  }

  /** The encoding of cells k.. is cell k's tokens, then those of cells k + 1... */
  lemma EncodedSplit(cells: seq<Cell>, k: nat, ts: seq<Token>, pos: nat)
    requires AllWritable(cells) && k < |cells|
    requires pos + 3 * (|cells| - k) <= |ts| && ts[pos..pos + 3 * (|cells| - k)] == EncodeCells(cells[k..])
    ensures ts[pos..pos + 3] == EncodeCell(cells[k])
    ensures ts[pos + 3..pos + 3 + 3 * (|cells| - (k + 1))] == EncodeCells(cells[k + 1..])
  {
    var whole := ts[pos..pos + 3 * (|cells| - k)];
    EncodeCellsFront(cells[k..]);
    assert cells[k..][1..] == cells[k + 1..];
    assert ts[pos..pos + 3] == whole[..3];
    assert ts[pos + 3..pos + 3 + 3 * (|cells| - (k + 1))] == whole[3..];
  }

  /** Decoding the encoding of cells k.. into a row whose first k cells are
    * restored and whose other cells are fresh succeeds exactly when none of
    * cells k.. holds a date, and then restores every value. */
  lemma {:induction false} DecodeEncodedEntries(schema: seq<NamedPropertyType>, cells: seq<Cell>,
                                               cur: seq<Cell>, ts: seq<Token>, pos: nat, k: nat)
    requires UniqueNames(schema) && RowMatches(schema, cells) && RowMatches(schema, cur)
    requires k <= |cells|
    requires forall j :: 0 <= j < k ==> cur[j].value == cells[j].value
    requires forall j :: k <= j < |cells| ==> cur[j] == Create(schema[j])
    requires pos + 3 * (|cells| - k) <= |ts| && ts[pos..pos + 3 * (|cells| - k)] == EncodeCells(cells[k..])
    ensures var r := DecodeEntries(cur, ts, pos, |cells| - k);
            (r.Ok? <==> forall j :: k <= j < |cells| ==> !HoldsDateTime(cells[j]))
            && (r.Ok? ==> r.value.1 == pos + 3 * (|cells| - k)
                          && forall j :: 0 <= j < |cells| ==> r.value.0[j].value == cells[j].value)
    decreases |cells| - k
  {
    if k < |cells| {
      EncodedSplit(cells, k, ts, pos);
      DecodeEncodedEntry(schema, cells, cur, ts, pos, k);
      DecodeEntriesStep(cur, ts, pos, |cells| - k);
      if !HoldsDateTime(cells[k]) {
        var cur1 := cur[k := CellSetValue(cur[k], cells[k].value).value];
        DecodeEncodedEntries(schema, cells, cur1, ts, pos + 3, k + 1);
      }
    }
  }

  /** The count token of an encoded row, and the cells' tokens after it. */
  lemma RowHeader(cells: seq<Cell>, ts: seq<Token>, pos: nat)
    requires AllWritable(cells)
    requires pos + |EncodeRow(cells)| <= |ts| && ts[pos..pos + |EncodeRow(cells)|] == EncodeRow(cells)
    ensures ReadIntAt(ts, pos) == Ok((|cells|, pos + 1))
    ensures ts[pos + 1..pos + 1 + 3 * |cells|] == EncodeCells(cells)
  {
    var enc := EncodeRow(cells);
    assert ts[pos] == enc[0] == IntToken(|cells|) by {
      assert ts[pos..pos + |enc|][0] == ts[pos];
    }
    assert ts[pos + 1..pos + 1 + 3 * |cells|] == ts[pos..pos + |enc|][1..];
  }

  /** Round trip of a row: decoding what serialize wrote into a fresh row of the
    * same table succeeds exactly when no DateTime cell holds a date, and then
    * restores every cell's value. */
  lemma RowRoundTrip(schema: seq<NamedPropertyType>, cells: seq<Cell>, ts: seq<Token>, pos: nat)
    requires UniqueNames(schema) && RowMatches(schema, cells)
    requires pos + |EncodeRow(cells)| <= |ts| && ts[pos..pos + |EncodeRow(cells)|] == EncodeRow(cells)
    ensures var r := DecodeRow(InitialCells(schema), ts, pos);
            (r.Ok? <==> forall j :: 0 <= j < |cells| ==> !HoldsDateTime(cells[j]))
            && (r.Ok? ==> r.value.1 == pos + |EncodeRow(cells)|
                          && forall j :: 0 <= j < |cells| ==> r.value.0[j].value == cells[j].value)
  {
    RowHeader(cells, ts, pos);
    assert cells[0..] == cells;
    DecodeEncodedEntries(schema, cells, InitialCells(schema), ts, pos + 1, 0);
    assert DecodeRow(InitialCells(schema), ts, pos) == DecodeEntries(InitialCells(schema), ts, pos + 1, |cells|);
  }

  // ---------------------------------------------------------- from a result set

  /** The value setFromResultSet reads for a column, by its kind. */
  function ReadColumn(named: NamedPropertyType, row: ResultRow): (r: Result<Value>)
    ensures r.Ok? ==> KindOf(r.value) == named.kind && NullOnlyWhereAllowed(r.value)
  {
    match named.kind
    case Bool => var b :- GetBoolean(row, named.name); Ok(BoolValue(Some(b)))
    case Integer => var i :- GetInt(row, named.name); Ok(IntegerValue(Some(i)))
    case String => var s :- GetString(row, named.name); Ok(StringValue(s))
    case Double => var d :- GetDouble(row, named.name); Ok(DoubleValue(Some(d)))
    case LocalDateTime =>
      var s :- GetString(row, named.name);
      var t :- GetDateTime(s);
      Ok(DateTimeValue(t))
  }

  /** setFromResultSet from column i on: each cell is set from its own column. */
  function FillFromRow(cells: seq<Cell>, row: ResultRow, i: nat): (r: Result<seq<Cell>>)
    requires i <= |cells| && forall j :: 0 <= j < |cells| ==> cells[j].Valid()
    ensures r.Ok? ==> |r.value| == |cells|
    ensures r.Ok? ==> forall j :: 0 <= j < |cells| ==> r.value[j].named == cells[j].named && r.value[j].Valid()
    decreases |cells| - i
  {
    if i == |cells| then Ok(cells)
    else
      var v :- ReadColumn(cells[i].named, row);
      var c :- CellSetValue(cells[i], v);
      FillFromRow(cells[i := c], row, i + 1)
  }

  /** A fresh row filled from a result row holds, in every cell, the value read
    * from the column of that cell's name (dates to the second). */
  lemma {:induction false} FillFromRowReads(cells: seq<Cell>, row: ResultRow, i: nat)
    requires i <= |cells| && forall j :: 0 <= j < |cells| ==> cells[j].Valid()
    requires forall j :: i <= j < |cells| ==> cells[j] == Create(cells[j].named)
    requires FillFromRow(cells, row, i).Ok?
    ensures forall j :: i <= j < |cells| ==>
              ReadColumn(cells[j].named, row).Ok?
              && Canonical(FillFromRow(cells, row, i).value[j].value) == Canonical(ReadColumn(cells[j].named, row).value)
    ensures forall j :: 0 <= j < i ==> FillFromRow(cells, row, i).value[j] == cells[j]
    decreases |cells| - i
  {
    if i < |cells| {
      var v := ReadColumn(cells[i].named, row).value;
      var c := CellSetValue(cells[i], v).value;
      FillFromRowReads(cells[i := c], row, i + 1);
    }
  }

  // ------------------------------------------------------------------ the row

  class TableData {
    const schema: seq<NamedPropertyType>
    var columns: seq<Cell>
    var isNewRow: bool

    ghost predicate Valid()
      reads this
    {
      RowMatches(schema, columns)
    }

    /** A new row of a table with this schema: fresh cells, marked new. */
    constructor (schema: seq<NamedPropertyType>)
      ensures Valid() && this.schema == schema && columns == InitialCells(schema) && isNewRow
    {
      this.schema := schema;
      var cells: seq<Cell> := [];
      var i := 0;
      while i < |schema|
        invariant i <= |schema| && |cells| == i
        invariant forall j :: 0 <= j < i ==> cells[j] == Create(schema[j])
      {
        cells := cells + [Create(schema[i])];
        i := i + 1;
      }
      columns := cells;
      isNewRow := true;
    }

    method IsNewEntry() returns (b: bool)
      ensures b == isNewRow
    {
      b := isNewRow;
    }

    method Get(name: Option<string>) returns (r: Result<Cell>)
      ensures r == GetColumn(columns, name)
    {
      var i := 0;
      while i < |columns|
        invariant i <= |columns|
        invariant forall j :: 0 <= j < i ==> name != Some(columns[j].named.name)
      {
        if Some(columns[i].named.name) == name {
          return Ok(columns[i]);
        }
        i := i + 1;
      }
      r := Err(Runtime("can't find column with name"));
    }

    /** setFromResultSet: every cell from the same-named result column. On failure the cells
      * before the failing one keep their new values, as in the source; the contract leaves
      * the columns unspecified on that path, since every caller drops the row. */
    method SetFromResultSet(row: ResultRow) returns (r: Outcome)
      requires Valid()
      modifies this
      ensures Valid()
      ensures var spec := FillFromRow(old(columns), row, 0);
              (spec.Ok? ==> r.Success? && columns == spec.value && !isNewRow)
              && (spec.Err? ==> r == Failure(spec.error) && isNewRow == old(isNewRow))
    {
      var i := 0;
      while i < |columns|
        invariant i <= |columns| && Valid() && isNewRow == old(isNewRow)
        invariant FillFromRow(old(columns), row, 0) == FillFromRow(columns, row, i)
      {
        var v := ReadColumn(columns[i].named, row);
        if v.Err? {
          assert FillFromRow(columns, row, i) == Err(v.error);
          return Failure(v.error);
        }
        var c := CellSetValue(columns[i], v.value);
        if c.Err? {
          assert FillFromRow(columns, row, i) == Err(c.error);
          return Failure(c.error);
        }
        columns := columns[i := c.value];
        i := i + 1;
      }
      isNewRow := false;
      r := Success;
    }

    /** The value part of a stored cell, read as its declared kind. */
    static method ReadStoredValue(store: Store, kind: PropertyType) returns (r: Result<Value>)
      modifies store
      ensures store.tokens == old(store.tokens)
      ensures var spec := ReadValue(kind, store.tokens, old(store.pos));
              (spec.Ok? ==> r == Ok(spec.value.0) && store.pos == spec.value.1)
              && (spec.Err? ==> r == Err(spec.error))
    {
      match kind {
        case Bool =>
          var b := store.ReadBool();
          if b.Err? { return Err(b.error); }
          r := Ok(BoolValue(Some(b.value)));
        case Integer =>
          var i := store.ReadInt();
          if i.Err? { return Err(i.error); }
          r := Ok(IntegerValue(Some(i.value)));
        case String =>
          var s := store.ReadString();
          if s.Err? { return Err(s.error); }
          r := Ok(StringValue(s.value));
        case Double =>
          var s := store.ReadString();
          if s.Err? { return Err(s.error); }
          if s.value.None? { return Err(NullPointer); }
          var d := ParseDouble(s.value.value);
          if d.Err? { return Err(d.error); }
          r := Ok(DoubleValue(Some(d.value)));
        case LocalDateTime =>
          var s := store.ReadString();
          if s.Err? { return Err(s.error); }
          var t := GetDateTime(s.value);
          if t.Err? { return Err(t.error); }
          r := Ok(DateTimeValue(t.value));
      }
    }

    /** One stored cell read from the store into this row. */
    method ReadEntry(store: Store) returns (r: Outcome)
      requires Valid()
      modifies this, store
      ensures Valid() && store.tokens == old(store.tokens) && isNewRow == old(isNewRow)
      ensures var spec := DecodeEntry(old(columns), store.tokens, old(store.pos));
              (spec.Ok? ==> r.Success? && columns == spec.value.0 && store.pos == spec.value.1)
              && (spec.Err? ==> r == Failure(spec.error))
    {
      var id := store.ReadInt();
      if id.Err? { return Failure(id.error); }
      var kind := FromId(id.value);
      if kind.Err? { return Failure(kind.error); }
      var name := store.ReadString();
      if name.Err? { return Failure(name.error); }
      var k := ColumnIndex(columns, name.value);
      if k.None? { return Failure(Runtime("can't find column with name")); }
      if kind.value != columns[k.value].named.kind {
        return Failure(Runtime("Property type of stored column is not equal to type of column in table"));
      }
      var v := ReadStoredValue(store, kind.value);
      if v.Err? { return Failure(v.error); }
      var c := CellSetValue(columns[k.value], v.value);
      if c.Err? { return Failure(c.error); }
      columns := columns[k.value := c.value];
      r := Success;
    }

    /** setFromBitStore: the count, then each stored cell in turn. On failure the cells read
      * before the failing one keep their new values, as in the source; the contract leaves
      * the columns unspecified on that path, since every caller drops the row. */
    method SetFromBitStore(store: Store) returns (r: Outcome)
      requires Valid()
      modifies this, store
      ensures Valid() && store.tokens == old(store.tokens)
      ensures var spec := DecodeRow(old(columns), store.tokens, old(store.pos));
              (spec.Ok? ==> r.Success? && columns == spec.value.0 && store.pos == spec.value.1 && !isNewRow)
              && (spec.Err? ==> r == Failure(spec.error) && isNewRow == old(isNewRow))
    {
      var count := store.ReadInt();
      if count.Err? {
        return Failure(count.error);
      }
      var n: nat := if count.value < 0 then 0 else count.value;
      ghost var spec := DecodeEntries(columns, store.tokens, store.pos, n);
      assert spec == DecodeRow(old(columns), store.tokens, old(store.pos));
      var i := 0;
      while i < n
        invariant i <= n && Valid() && store.tokens == old(store.tokens) && isNewRow == old(isNewRow)
        invariant spec == DecodeEntries(columns, store.tokens, store.pos, n - i)
      {
        ghost var before := columns;
        ghost var at := store.pos;
        DecodeEntriesStep(before, store.tokens, at, n - i);
        var e := ReadEntry(store);
        if e.Failure? {
          return e;
        }
        i := i + 1;
      }
      isNewRow := false;
      r := Success;
    }

    /** One cell as serialize writes it: type id, name, value. */
    static method WriteCell(store: Store, c: Cell)
      requires NullOnlyWhereAllowed(c.value)
      modifies store
      ensures store.tokens == old(store.tokens) + EncodeCell(c) && store.pos == old(store.pos)
    {
      store.WriteInt(Id(c.named.kind));
      store.WriteString(Some(c.named.name));
      match c.value {
        case BoolValue(b) => store.WriteBool(b.value);
        case IntegerValue(n) => store.WriteInt(n.value);
        case StringValue(s) => store.WriteString(s);
        case DoubleValue(d) => store.WriteString(Some(DoubleText(d.value)));
        case DateTimeValue(t) => store.WriteString(Some(DateTimeAsString(t)));
      }
    }

    method Serialize(store: Store)
      requires Valid()
      modifies store
      ensures store.tokens == old(store.tokens) + EncodeRow(columns) && store.pos == old(store.pos)
    {
      store.WriteInt(|columns|);
      ghost var head := store.tokens;
      var i := 0;
      while i < |columns|
        invariant i <= |columns| && store.pos == old(store.pos)
        invariant store.tokens == head + EncodeCells(columns[..i])
      {
        WriteCell(store, columns[i]);
        WrittenStep(head, columns, i);
        i := i + 1;
      }
      assert columns[..i] == columns;
    }
  }
}
