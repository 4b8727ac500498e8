/// The table of the older cache package (table_data.AbstractTable): an ordered
/// list of entries, where they were last read from, and the database's
/// last-modified stamp for the table, plus the text line it contributes to the
/// cache's info table.
module LegacyTable {

  import opened Wrappers
  import opened Text
  import opened JavaTime
  import opened PropertyTypes
  import opened BitStores
  import opened Jdbc
  import opened AbstractDatabase
  import opened Properties
  import opened LegacyEntry
  import Disks

  /** Where the rows of a table were last read from. */
  datatype Source = DB | Disk | Unknown

  /** The property lists of a table's entries, in list order. */
  type Rows = seq<seq<ObjProperty>>

  predicate AllRowsValid(rows: Rows)
  {
    forall i :: 0 <= i < |rows| ==> AllValid(rows[i])
  }

  function PropsOf(entries: seq<Entry>): (rows: Rows)
    ensures |rows| == |entries|
    ensures forall i :: 0 <= i < |entries| ==> rows[i] == entries[i].properties
  {
    seq(|entries|, i requires 0 <= i < |entries| => entries[i].properties)
  }

  lemma PropsOfAppend(entries: seq<Entry>, e: Entry)
    ensures PropsOf(entries + [e]) == PropsOf(entries) + [e.properties]
  {
  }

  // ------------------------------------------------------ partial results

  /** The whole outcome of a loop once the first elements are known. */
  function Extend<T, O>(done: seq<T>, rest: (seq<T>, O)): (seq<T>, O)
  {
    (done + rest.0, rest.1)
  }

  lemma ExtendNothing<T, O>(r: (seq<T>, O))
    ensures Extend([], r) == r
  {
    assert [] + r.0 == r.0;
  }

  lemma ExtendStep<T, O>(done: seq<T>, x: T, rest: (seq<T>, O))
    ensures Extend(done + [x], rest) == Extend(done, ([x] + rest.0, rest.1))
  {
    assert done + [x] + rest.0 == done + ([x] + rest.0);
  }

  // ------------------------------------------------------ add(ResultSet)

  /** The entries add(ResultSet) appends: one per result row, in result order,
    * until the first row whose entry cannot be built; that row's error ends
    * the loop. */
  function EntriesFromResultSet(columns: seq<string>, kinds: seq<NamedPropertyType>, rs: seq<ResultRow>)
    : (r: (Rows, Outcome))
    ensures AllRowsValid(r.0)
  {
    if |rs| == 0 then ([], Success)
    else match FillFrom(columns, kinds, rs[0], 0)
      case Err(e) => ([], Failure(e))
      case Ok(props) =>
        var rest := EntriesFromResultSet(columns, kinds, rs[1..]);
        ([props] + rest.0, rest.1)
  }

  /** add(ResultSet) keeps the entries of the rows before the first bad one,
    * each the row's own entry, and fails exactly when some row is bad, with
    * the first bad row's error. */
  lemma {:induction false} EntriesFromResultSetMeaning(columns: seq<string>, kinds: seq<NamedPropertyType>, rs: seq<ResultRow>)
    ensures var r := EntriesFromResultSet(columns, kinds, rs);
            |r.0| <= |rs|
            && (forall i :: 0 <= i < |r.0| ==> FillFrom(columns, kinds, rs[i], 0) == Ok(r.0[i]))
            && (r.1.Success? <==> forall i :: 0 <= i < |rs| ==> FillFrom(columns, kinds, rs[i], 0).Ok?)
            && (r.1.Failure? ==> |r.0| < |rs| && FillFrom(columns, kinds, rs[|r.0|], 0) == Err(r.1.error))
            && (r.1.Success? ==> |r.0| == |rs|)
    decreases |rs|
  {
    if |rs| > 0 && FillFrom(columns, kinds, rs[0], 0).Ok? {
      var tail := rs[1..];
      EntriesFromResultSetMeaning(columns, kinds, tail);
      var rest := EntriesFromResultSet(columns, kinds, tail);
      var r := EntriesFromResultSet(columns, kinds, rs);
      assert r == ([FillFrom(columns, kinds, rs[0], 0).value] + rest.0, rest.1);
      forall i | 0 < i < |r.0|
        ensures FillFrom(columns, kinds, rs[i], 0) == Ok(r.0[i])
      {
        assert rs[i] == tail[i - 1];
      }
      if r.1.Success? {
        forall i | 0 < i < |rs|
          ensures FillFrom(columns, kinds, rs[i], 0).Ok?
        {
          assert rs[i] == tail[i - 1];
        }
      } else {
        assert rs[|r.0|] == tail[|rest.0|];
      }
      if forall i :: 0 <= i < |rs| ==> FillFrom(columns, kinds, rs[i], 0).Ok? {
        forall i | 0 <= i < |tail|
          ensures FillFrom(columns, kinds, tail[i], 0).Ok?
        {
          assert tail[i] == rs[i + 1];
        }
      }
    }
  }

  lemma EntriesStep(columns: seq<string>, kinds: seq<NamedPropertyType>, rs: seq<ResultRow>, i: nat)
    requires i < |rs|
    ensures var first := FillFrom(columns, kinds, rs[i], 0);
            var rest := EntriesFromResultSet(columns, kinds, rs[i + 1..]);
            EntriesFromResultSet(columns, kinds, rs[i..])
              == if first.Err? then ([], Failure(first.error)) else ([first.value] + rest.0, rest.1)
  {
    assert rs[i..][0] == rs[i] && rs[i..][1..] == rs[i + 1..];
  }

  // ------------------------------------------------------ the cache file

  /** The entries' serialisations, in list order. */
  function EncodeRows(rows: Rows): (ts: seq<Token>)
    requires AllRowsValid(rows)
  {
    if |rows| == 0 then [] else EncodeEntry(rows[0]) + EncodeRows(rows[1..])
  }

  lemma EncodeRowsStep(rows: Rows, i: nat)
    requires AllRowsValid(rows) && i < |rows|
    ensures EncodeRows(rows[i..]) == EncodeEntry(rows[i]) + EncodeRows(rows[i + 1..])
  {
    assert rows[i..][0] == rows[i] && rows[i..][1..] == rows[i + 1..];
  }

  /** What saveToDisk writes: the entry count, then every entry. */
  function EncodeTable(rows: Rows): (ts: seq<Token>)
    requires AllRowsValid(rows)
    ensures |ts| >= 1 && ts[0] == IntToken(|rows|)
  {
    [IntToken(|rows|)] + EncodeRows(rows)
  }

  /** n entries read with the binary constructor from pos on: the entries read
    * before the first failure, and either the position after the last one or
    * that failure. */
  function DecodeRows(kinds: seq<NamedPropertyType>, tableName: string, ts: seq<Token>, pos: nat, n: nat)
    : (r: (Rows, Result<nat>))
    ensures |r.0| <= n && AllRowsValid(r.0)
    ensures r.1.Ok? <==> |r.0| == n
    ensures r.1.Ok? ==> r.1.value >= pos + n
    decreases n
  {
    if n == 0 then ([], Ok(pos))
    else match DecodeEntry(kinds, tableName, ts, pos)
      case Err(e) => ([], Err(e))
      case Ok(first) =>
        var rest := DecodeRows(kinds, tableName, ts, first.1, n - 1);
        ([first.0] + rest.0, rest.1)
  }

  /** What loadFromDisk appends from a cache file's content: the count, then
    * that many entries (none for a negative count); a failure keeps the
    * entries read so far. */
  function DecodeTableFile(kinds: seq<NamedPropertyType>, tableName: string, ts: seq<Token>): (r: (Rows, Outcome))
    ensures AllRowsValid(r.0)
    ensures ReadIntAt(ts, 0).Err? ==> r == ([], Failure(ReadIntAt(ts, 0).error))
    ensures r.1.Success? ==> ReadIntAt(ts, 0).Ok? && |r.0| == Pad(ReadIntAt(ts, 0).value.0)
  {
    match ReadIntAt(ts, 0)
    case Err(e) => ([], Failure(e))
    case Ok(count) =>
      var r := DecodeRows(kinds, tableName, ts, count.1, Pad(count.0));
      (r.0, if r.1.Ok? then Success else Failure(r.1.error))
  }

  /** A Java int used as a loop bound or a pad width: negative counts as 0. */
  function Pad(k: int): nat
  {
    if k < 0 then 0 else k
  }

  /** loadFromDisk on a folder: the entries appended and the folder after it.
    * A missing file changes nothing; a failed read deletes the file. */
  function DiskLoad(kinds: seq<NamedPropertyType>, tableName: string, files: map<string, seq<Token>>)
    : (r: (Rows, map<string, seq<Token>>))
    ensures AllRowsValid(r.0)
    ensures Disks.CacheFileName(tableName) !in files ==> r == ([], files)
    ensures r.1 == files || r.1 == files - {Disks.CacheFileName(tableName)}
  {
    var name := Disks.CacheFileName(tableName);
    if name !in files then ([], files)
    else
      var d := DecodeTableFile(kinds, tableName, files[name]);
      (d.0, if d.1.Success? then files else files - {name})
  }

  /** Every property of an entry can be read back under its own column. */
  predicate RowDecodable(kinds: seq<NamedPropertyType>, props: seq<ObjProperty>)
  {
    AllValid(props) && forall j :: 0 <= j < |props| ==> Decodable(kinds, props[j])
  }

  /** Every entry of a row list can be read back under its own columns. */
  predicate AllRowsDecodable(kinds: seq<NamedPropertyType>, rows: Rows)
  {
    |rows| == 0 || (RowDecodable(kinds, rows[0]) && AllRowsDecodable(kinds, rows[1..]))
  }

  /** Two property lists with the same columns and equal values (a date to
    * the second). */
  predicate SameValues(a: seq<ObjProperty>, b: seq<ObjProperty>)
  {
    |a| == |b| && forall j :: 0 <= j < |a| ==> a[j].named == b[j].named && Canonical(a[j].value) == Canonical(b[j].value)
  }

  /** Two row lists whose rows pairwise have the same values. */
  predicate AllSameValues(a: Rows, b: Rows)
  {
    |a| == |b| && (|a| == 0 || (SameValues(a[0], b[0]) && AllSameValues(a[1..], b[1..])))
  }

  lemma {:induction false} AllSameValuesAt(a: Rows, b: Rows)
    requires AllSameValues(a, b)
    ensures |a| == |b| && forall i :: 0 <= i < |a| ==> SameValues(a[i], b[i])
    decreases |a|
  {
    if |a| > 0 {
      AllSameValuesAt(a[1..], b[1..]);
      forall i | 0 < i < |a|
        ensures SameValues(a[i], b[i])
      {
        assert a[i] == a[1..][i - 1] && b[i] == b[1..][i - 1];
      }
    }
  }

  lemma CombineRows(r: (Rows, Result<nat>), props: seq<ObjProperty>, rest: (Rows, Result<nat>), rows: Rows)
    requires |rows| > 0 && r == ([props] + rest.0, rest.1) && SameValues(props, rows[0])
    requires rest.1.Ok? && AllSameValues(rest.0, rows[1..])
    ensures r.1.Ok? && AllSameValues(r.0, rows)
  {
    assert r.0[1..] == rest.0;
  }

  /** A slice holding two encodings back to back holds each in place. */
  lemma SliceSplit(ts: seq<Token>, pos: nat, a: seq<Token>, b: seq<Token>)
    requires pos + |a| + |b| <= |ts| && ts[pos..pos + |a| + |b|] == a + b
    ensures ts[pos..pos + |a|] == a && ts[pos + |a|..pos + |a| + |b|] == b
  {
    assert ts[pos..pos + |a|] == ts[pos..pos + |a| + |b|][..|a|];
    assert ts[pos + |a|..pos + |a| + |b|] == ts[pos..pos + |a| + |b|][|a|..];
  }

  /** The entries of a row list are encoded one after the other from pos on. */
  predicate EncodedAt(ts: seq<Token>, pos: nat, rows: Rows)
    decreases |rows|
  {
    |rows| == 0
    || (AllValid(rows[0]) && pos + |EncodeEntry(rows[0])| <= |ts|
        && ts[pos..pos + |EncodeEntry(rows[0])|] == EncodeEntry(rows[0])
        && EncodedAt(ts, pos + |EncodeEntry(rows[0])|, rows[1..]))
  }

  lemma {:induction false} EncodedAtOfSlice(ts: seq<Token>, pos: nat, rows: Rows)
    requires AllRowsValid(rows)
    requires pos + |EncodeRows(rows)| <= |ts| && ts[pos..pos + |EncodeRows(rows)|] == EncodeRows(rows)
    ensures EncodedAt(ts, pos, rows)
    decreases |rows|
  {
    if |rows| > 0 {
      SliceSplit(ts, pos, EncodeEntry(rows[0]), EncodeRows(rows[1..]));
      EncodedAtOfSlice(ts, pos + |EncodeEntry(rows[0])|, rows[1..]);
    }
  }

  /** An entry's encoding decodes to its own values and ends where the
    * encoding ends. */
  lemma DecodeEncodedEntry(kinds: seq<NamedPropertyType>, tableName: string, first: seq<ObjProperty>, ts: seq<Token>,
                           pos: nat, enc: seq<Token>, next: nat)
    returns (props: seq<ObjProperty>)
    requires RowDecodable(kinds, first) && enc == EncodeEntry(first)
    requires next == pos + |enc| && next <= |ts| && ts[pos..next] == enc
    ensures SameValues(props, first)
    ensures DecodeEntry(kinds, tableName, ts, pos) == Ok((props, next))
  {
    EntryRoundTrip(kinds, tableName, first, ts, pos);
    var r := DecodeEntry(kinds, tableName, ts, pos);
    props := r.value.0;
    assert r.value.1 == next;
    assert r.value == (props, next);
  }

  /** Reading n entries is reading the first, then n - 1 from where it ends. */
  lemma DecodeRowsFirst(kinds: seq<NamedPropertyType>, tableName: string, ts: seq<Token>, pos: nat, n: nat,
                        props: seq<ObjProperty>, next: nat)
    requires n > 0 && DecodeEntry(kinds, tableName, ts, pos) == Ok((props, next))
    ensures var rest := DecodeRows(kinds, tableName, ts, next, n - 1);
            DecodeRows(kinds, tableName, ts, pos, n) == ([props] + rest.0, rest.1)
  {
  }

  lemma {:induction false} DecodeEncodedRows(kinds: seq<NamedPropertyType>, tableName: string, rows: Rows,
                                             ts: seq<Token>, pos: nat)
    requires AllRowsDecodable(kinds, rows) && EncodedAt(ts, pos, rows)
    ensures var r := DecodeRows(kinds, tableName, ts, pos, |rows|);
            r.1.Ok? && AllSameValues(r.0, rows)
    decreases |rows|
  {
    if |rows| > 0 {
      var first, rest := rows[0], rows[1..];
      var enc := EncodeEntry(first);
      var next := pos + |enc|;
      assert RowDecodable(kinds, first) && AllRowsDecodable(kinds, rest);
      assert next <= |ts| && ts[pos..next] == enc && EncodedAt(ts, next, rest);
      var props := DecodeEncodedEntry(kinds, tableName, first, ts, pos, enc, next);
      DecodeRowsFirst(kinds, tableName, ts, pos, |rows|, props, next);
      DecodeEncodedRows(kinds, tableName, rest, ts, next);
      assert |rest| == |rows| - 1;
      CombineRows(DecodeRows(kinds, tableName, ts, pos, |rows|), props, DecodeRows(kinds, tableName, ts, next, |rest|), rows);
    }
  }

  /** A table file written by saveToDisk is read back by loadFromDisk whole:
    * every entry, each property under its own column with its value, and the
    * file is kept. */
  lemma TableRoundTrip(kinds: seq<NamedPropertyType>, tableName: string, rows: Rows, files: map<string, seq<Token>>)
    requires AllRowsValid(rows) && AllRowsDecodable(kinds, rows)
    ensures var saved := files[Disks.CacheFileName(tableName) := EncodeTable(rows)];
            var r := DiskLoad(kinds, tableName, saved);
            r.1 == saved && |r.0| == |rows| && forall i :: 0 <= i < |rows| ==> SameValues(r.0[i], rows[i])
  {
    var ts := EncodeTable(rows);
    assert ts[1..1 + |EncodeRows(rows)|] == EncodeRows(rows);
    EncodedAtOfSlice(ts, 1, rows);
    DecodeEncodedRows(kinds, tableName, rows, ts, 1);
    AllSameValuesAt(DecodeRows(kinds, tableName, ts, 1, |rows|).0, rows);
  }

  // ------------------------------------------------------ the info table

  /** The "from DB" column of an info line. */
  function DbColumn(s: Source): (c: string)
    ensures |c| == 9 && c[8] == '|'
  {
    match s
    case DB => "    ✓   |"
    case Disk => "        |"
    case Unknown => "    ?   |"
  }

  /** The "from disk" column of an info line. */
  function DiskColumn(s: Source): (c: string)
    ensures |c| == 11 && c[10] == '|'
  {
    match s
    case DB => "          |"
    case Disk => "     ✓    |"
    case Unknown => "     ?    |"
  }

  /** The line writeInfoTable appends for a table. */
  function InfoLine(name: string, count: nat, source: Source, lastModified: Option<DateTime>): string
  {
    InfoHead(name, NatToDecimal(count)) + DbColumn(source) + DiskColumn(source)
    + "  " + GetDateString(lastModified) + "   |" + "\n"
  }

  /** The name and count columns of an info line. */
  function InfoHead(name: string, count: string): string
  {
    "| " + name + Spaces(Pad(33 - |name|)) + "|" + Spaces(Pad(8 - |count|)) + count + " |"
  }

  /** The border line of the info table: a '+' around dashes as wide as each
    * column. */
  const Border := "+" + Dashes(34) + "+" + Dashes(9) + "+" + Dashes(8) + "+" + Dashes(10) + "+" + Dashes(24) + "+"

  function Dashes(k: nat): (s: string)
    ensures |s| == k
  {
    seq(k, _ => '-')
  }

  /** Where the border has a '+': the column separators. */
  const ColumnStops: seq<nat> := [0, 35, 45, 54, 65, 90]

  lemma BorderStops()
    ensures |Border| == 91
    ensures forall j :: 0 <= j < |ColumnStops| ==> ColumnStops[j] < |Border| && Border[ColumnStops[j]] == '+'
  {
    var b1 := "+" + Dashes(34) + "+";
    var b2 := b1 + Dashes(9) + "+";
    var b3 := b2 + Dashes(8) + "+";
    var b4 := b3 + Dashes(10) + "+";
    assert b1[0] == '+' && b1[35] == '+' && |b1| == 36;
    assert b2[0] == '+' && b2[35] == '+' && b2[45] == '+' && |b2| == 46;
    assert b3[0] == '+' && b3[35] == '+' && b3[45] == '+' && b3[54] == '+' && |b3| == 55;
    assert b4[0] == '+' && b4[35] == '+' && b4[45] == '+' && b4[54] == '+' && b4[65] == '+' && |b4| == 66;
    assert Border == b4 + Dashes(24) + "+";
  }

  lemma TailLayout(p4: string, d: string)
    requires |p4| == 66 && |d| == 19
    ensures var line := p4 + "  " + d + "   |" + "\n";
            |line| == 92 && line[90] == '|' && line[91] == '\n' && line[..66] == p4
  {
  }

  lemma HeadLayout(name: string, count: string)
    requires |name| <= 33 && |count| <= 8
    ensures var h := InfoHead(name, count);
            |h| == 46 && h[0] == '|' && h[35] == '|' && h[45] == '|'
  {
    var p1 := "| " + name + Spaces(33 - |name|);
    assert |p1| == 35;
    var h := InfoHead(name, count);
    assert h == p1 + "|" + Spaces(8 - |count|) + count + " |";
  }

  /** A table name of at most 33 characters, a count below 10^8 and a stamp
    * with a four-digit year give a line as wide as the border, with its '|'
    * separators under the border's '+' signs. */
  lemma InfoLineAligned(name: string, count: nat, source: Source, t: DateTime)
    requires |name| <= 33 && count < Pow10(8) && 1 <= t.year <= 9999
    ensures var line := InfoLine(name, count, source, Some(t));
            |line| == |Border| + 1 && line[|Border|] == '\n'
            && forall j :: 0 <= j < |ColumnStops| ==> ColumnStops[j] < |Border| && Border[ColumnStops[j]] == '+' && line[ColumnStops[j]] == '|'
  {
    DecimalLength(count, 8);
    SqlTextLayout(t);
    BorderStops();
    var h := InfoHead(name, NatToDecimal(count));
    HeadLayout(name, NatToDecimal(count));
    var p3 := h + DbColumn(source);
    var p4 := p3 + DiskColumn(source);
    assert p3[35] == '|' && p3[45] == '|' && p3[54] == '|';
    assert p4[35] == '|' && p4[45] == '|' && p4[54] == '|' && p4[65] == '|' && |p4| == 66;
    TailLayout(p4, JavaTime.SqlText(t));
    var line := InfoLine(name, count, source, Some(t));
    assert line == p4 + "  " + JavaTime.SqlText(t) + "   |" + "\n";
    assert line[0] == p4[0] && line[35] == p4[35] && line[45] == p4[45];
    assert line[54] == p4[54] && line[65] == p4[65];
  }

  /** toString over the entries' texts: "[]" for none, otherwise the texts in
    * order between brackets, separated by ", ". */
  function TableText(texts: seq<string>): (s: string)
    ensures |s| >= 2 && s[0] == '[' && s[|s| - 1] == ']'
    ensures |texts| == 0 ==> s == "[]"
  {
    "[" + Join(texts, ", ") + "]"
  }

  /** The text of a table of more than one entry is the first entry's text,
    * ", ", and the rest as they would be listed on their own. */
  lemma TableTextFront(head: string, rest: seq<string>)
    requires |rest| >= 1
    ensures TableText([head] + rest) == "[" + head + ", " + TableText(rest)[1..]
  {
    JoinFront(head, rest, ", ");
    var s := TableText(rest);
    assert s[1..] == Join(rest, ", ") + "]";
  }

  /** equals on two row lists: the same length and pairwise equal entries. */
  predicate SameEntries(a: seq<Entry>, b: seq<Entry>)
  {
    |a| == |b| && forall i :: 0 <= i < |a| ==> EntryEquals(a[i], b[i])
  }

  lemma SameEntriesIsEquivalence(a: seq<Entry>, b: seq<Entry>, c: seq<Entry>)
    ensures SameEntries(a, a)
    ensures SameEntries(a, b) ==> SameEntries(b, a)
    ensures SameEntries(a, b) && SameEntries(b, c) ==> SameEntries(a, c)
  {
  }

  /** The other side of equals: a table of this package or any other object. */
  datatype Comparand = TableObject(t: Table) | OtherObject

  /** A table's entries and its other fields, as values. */
  datatype TableState = TableState(rows: Rows, source: Source, lastModified: Option<DateTime>)

  class Table {
    const tableName: string
    /** The runtime class of the entries this table creates. */
    const dataClass: string
    /** getColumnNames: the columns add(ResultSet) reads. */
    const columnNames: seq<string>
    /** The property descriptors the entries' createProperty knows. */
    const kinds: seq<NamedPropertyType>
    var tableData: seq<Entry>
    var source: Source
    var lastModified: Option<DateTime>

    ghost predicate Valid()
      reads this
    {
      forall i :: 0 <= i < |tableData| ==> tableData[i].Valid()
    }

    function Rows(): (rows: Rows)
      reads this
      ensures Valid() ==> AllRowsValid(rows)
    {
      PropsOf(tableData)
    }

    function State(): TableState
      reads this
    {
      TableState(Rows(), source, lastModified)
    }

    /** A new table: no entries, source unknown, last modified MAX. */
    constructor (tableName: string, dataClass: string, columnNames: seq<string>, kinds: seq<NamedPropertyType>)
      ensures Valid() && tableData == [] && source == Unknown && lastModified == Some(MAX)
      ensures this.tableName == tableName && this.dataClass == dataClass
      ensures this.columnNames == columnNames && this.kinds == kinds
    {
      this.tableName := tableName;
      this.dataClass := dataClass;
      this.columnNames := columnNames;
      this.kinds := kinds;
      tableData := [];
      source := Unknown;
      lastModified := Some(MAX);
    }

    method IsEmpty() returns (b: bool)
      ensures b <==> Rows() == []
    {
      b := |tableData| == 0;
    }

    method Size() returns (n: nat)
      ensures n == |Rows()|
    {
      n := |tableData|;
    }

    method GetDbLastModify() returns (t: Option<DateTime>)
      ensures t == lastModified
    {
      t := lastModified;
    }

    method SetDbLastModify(t: Option<DateTime>)
      modifies this
      ensures lastModified == t && tableData == old(tableData) && source == old(source)
    {
      lastModified := t;
    }

    method Clear()
      modifies this
      ensures Valid() && tableData == [] && source == old(source) && lastModified == old(lastModified)
    {
      tableData := [];
    }

    method Add(e: Entry)
      requires Valid() && e.Valid()
      modifies this
      ensures Valid() && tableData == old(tableData) + [e]
      ensures source == old(source) && lastModified == old(lastModified)
    {
      tableData := tableData + [e];
    }

    /** add(ResultSet): one entry per result row, appended in result order;
      * a row that cannot be read stops the loop with its error, keeping the
      * entries appended before it. */
    method AddResultSet(rs: seq<ResultRow>) returns (r: Outcome)
      requires Valid()
      modifies this
      ensures Valid() && source == old(source) && lastModified == old(lastModified)
      ensures var spec := EntriesFromResultSet(columnNames, kinds, rs);
              Rows() == old(Rows()) + spec.0 && r == spec.1
    {
      ghost var spec := EntriesFromResultSet(columnNames, kinds, rs);
      ghost var added: Rows := [];
      ExtendNothing(spec);
      var i := 0;
      while i < |rs|
        invariant i <= |rs| && Valid()
        invariant spec == Extend(added, EntriesFromResultSet(columnNames, kinds, rs[i..]))
        invariant Rows() == old(Rows()) + added
        invariant source == old(source) && lastModified == old(lastModified)
      {
        EntriesStep(columnNames, kinds, rs, i);
        var props := AddRow(rs[i]);
        if props.Err? {
          return Failure(props.error);
        }
        ExtendStep(added, props.value, EntriesFromResultSet(columnNames, kinds, rs[i + 1..]));
        added := added + [props.value];
        i := i + 1;
      }
      r := Success;
    }

    /** One step of add(ResultSet): the entry built from a result row is
      * appended; a row that cannot be read appends nothing. */
    method AddRow(row: ResultRow) returns (r: Result<seq<ObjProperty>>)
      requires Valid()
      modifies this
      ensures Valid() && source == old(source) && lastModified == old(lastModified)
      ensures r == FillFrom(columnNames, kinds, row, 0)
      ensures Rows() == old(Rows()) + (if r.Ok? then [r.value] else [])
    {
      var e := Entry.FromResultSet(dataClass, tableName, columnNames, kinds, row);
      if e.Err? {
        assert Rows() == old(Rows()) + [];
        return Err(e.error);
      }
      PropsOfAppend(tableData, e.value);
      tableData := tableData + [e.value];
      r := Ok(e.value.properties);
    }

    /** saveToDisk: the table's file becomes the count and every entry in order. */
    method SaveToDisk(disk: Disks.Disk)
      requires Valid()
      modifies disk
      ensures disk.files == old(disk.files)[Disks.CacheFileName(tableName) := EncodeTable(Rows())]
    {
      var store := new Store.Writer();
      store.WriteInt(|tableData|);
      WriteEntries(store);
      assert store.tokens == EncodeTable(Rows());
      disk.files := disk.files[Disks.CacheFileName(tableName) := store.tokens];
    }

    /** Every entry serialised into the store, in list order. */
    method WriteEntries(store: Store)
      requires Valid()
      modifies store
      ensures store.tokens == old(store.tokens) + EncodeRows(Rows())
    {
      var rows := Rows();
      var i := 0;
      while i < |tableData|
        invariant i <= |tableData|
        invariant store.tokens + EncodeRows(rows[i..]) == old(store.tokens) + EncodeRows(rows)
      {
        EncodeRowsStep(rows, i);
        ghost var before := store.tokens;
        tableData[i].Serialize(store);
        assert store.tokens + EncodeRows(rows[i + 1..]) == before + EncodeRows(rows[i..]);
        i := i + 1;
      }
      assert rows[i..] == [];
    }

    /** loadFromDisk: appends what the table's file holds, never clearing first;
      * a file that cannot be read is deleted, keeping the entries read from it. */
    method LoadFromDisk(disk: Disks.Disk)
      requires Valid()
      modifies this, disk
      ensures Valid() && source == old(source) && lastModified == old(lastModified)
      ensures var spec := DiskLoad(kinds, tableName, old(disk.files));
              Rows() == old(Rows()) + spec.0 && disk.files == spec.1
      ensures |tableData| >= |old(tableData)| && tableData[..|old(tableData)|] == old(tableData)
    {
      var name := Disks.CacheFileName(tableName);
      if name !in disk.files {
        assert Rows() == old(Rows()) + [];
        return;
      }
      var store := new Store.Reader(disk.files[name]);
      var count := store.ReadInt();
      if count.Err? {
        assert Rows() == old(Rows()) + [];
        disk.files := disk.files - {name};
        return;
      }
      var r := ReadEntries(store, Pad(count.value));
      if r.Failure? {
        disk.files := disk.files - {name};
      }
    }

    /** n entries read with the binary constructor and appended in stored order. */
    method ReadEntries(store: Store, n: nat) returns (r: Outcome)
      requires Valid()
      modifies this, store
      ensures Valid() && store.tokens == old(store.tokens)
      ensures source == old(source) && lastModified == old(lastModified)
      ensures var spec := DecodeRows(kinds, tableName, store.tokens, old(store.pos), n);
              Rows() == old(Rows()) + spec.0
              && (spec.1.Ok? ==> r.Success?) && (spec.1.Err? ==> r == Failure(spec.1.error))
      ensures |tableData| >= |old(tableData)| && tableData[..|old(tableData)|] == old(tableData)
    {
      ghost var ts := store.tokens;
      ghost var spec := DecodeRows(kinds, tableName, ts, store.pos, n);
      ghost var added: Rows := [];
      ExtendNothing(spec);
      var i := 0;
      while i < n
        invariant i <= n && Valid() && store.tokens == ts
        invariant spec == Extend(added, DecodeRows(kinds, tableName, ts, store.pos, n - i))
        invariant Rows() == old(Rows()) + added
        invariant |tableData| >= |old(tableData)| && tableData[..|old(tableData)|] == old(tableData)
        invariant source == old(source) && lastModified == old(lastModified)
      {
        var e := Entry.FromStore(dataClass, tableName, kinds, store);
        if e.Err? {
          return Failure(e.error);
        }
        ExtendStep(added, e.value.properties, DecodeRows(kinds, tableName, ts, store.pos, n - i - 1));
        PropsOfAppend(tableData, e.value);
        tableData := tableData + [e.value];
        added := added + [e.value.properties];
        i := i + 1;
      }
      r := Success;
    }

    /** equals: another table of this package whose entries are pairwise equal. */
    method Equals(other: Comparand) returns (b: bool)
      ensures b <==> other.TableObject? && SameEntries(tableData, other.t.tableData)
    {
      if other.OtherObject? {
        return false;
      }
      var theirs := other.t.tableData;
      if |tableData| != |theirs| {
        return false;
      }
      var i := 0;
      while i < |tableData|
        invariant i <= |tableData|
        invariant forall k :: 0 <= k < i ==> EntryEquals(tableData[k], theirs[k])
      {
        var same := tableData[i].Equals(theirs[i]);
        if !same {
          return false;
        }
        i := i + 1;
      }
      b := true;
    }

    /** toString, given each entry's own text. */
    method ToString(texts: seq<string>) returns (s: string)
      requires |texts| == |tableData|
      ensures s == TableText(texts)
    {
      if |tableData| == 0 {
        return "[]";
      }
      var buffer := "[" + texts[0];
      assert texts[..1] == [texts[0]];
      var i := 1;
      while i < |tableData|
        invariant 1 <= i <= |tableData|
        invariant buffer == "[" + Join(texts[..i], ", ")
      {
        assert texts[..i + 1][..i] == texts[..i];
        buffer := buffer + ", " + texts[i];
        i := i + 1;
      }
      assert texts[..i] == texts;
      s := buffer + "]";
    }

    /** writeInfoTable: the builder's text followed by this table's info line. */
    method WriteInfoTable(sb: string) returns (r: string)
      ensures r == sb + InfoLine(tableName, |tableData|, source, lastModified)
    {
      var line := "| " + tableName;
      line := AppendSpaces(line, 33 - |tableName|);
      line := line + "|";
      var countString := NatToDecimal(|tableData|);
      line := AppendSpaces(line, 8 - |countString|);
      line := line + countString + " |";
      assert line == InfoHead(tableName, countString);
      line := line + DbColumn(source);
      line := line + DiskColumn(source);
      line := line + "  " + GetDateString(lastModified) + "   |" + "\n";
      r := sb + line;
    }
  }

  /** append(k, sb): k spaces, none for a negative k. */
  method AppendSpaces(sb: string, k: int) returns (r: string)
    ensures r == sb + Spaces(Pad(k))
  {
    r := sb;
    var i := 0;
    while i < k
      invariant 0 <= i <= Pad(k) && r == sb + Spaces(i)
    {
      r := r + " ";
      i := i + 1;
    }
  }
}
