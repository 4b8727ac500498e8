/// The cache of the `cache` package (de.longri.database.cache.AbstractCache):
/// the tables of an application, the last-modified stamps read from the
/// server, the snapshot kept in the cache folder (a manifest naming every
/// table with its stamp, and one file per table), and the rule that decides,
/// table by table, whether the snapshot is fresh enough to be used.
///
/// The source hands every table to a pool of twelve workers and waits for them;
/// here the tables are visited one after the other, in the order the source
/// submits them, and a worker's exception is swallowed as the pool swallows it.
module CacheEngine {

  import opened Wrappers
  import opened Text
  import opened JavaTime
  import opened PropertyTypes
  import opened BitStores
  import opened Jdbc
  import AbstractDatabase
  import Disks
  import opened CacheTable
  import opened CacheTableData

  // ------------------------------------------------------ getConnectionInfo

  /** The text the pattern jdbc:mysql://([^/,:]+:\d+) starts with. */
  const UrlPrefix := "jdbc:mysql://"

  /** [^/,:] */
  predicate IsHostChar(c: char) { c != '/' && c != ',' && c != ':' }

  /** The number of host characters from i on. */
  function HostRun(s: string, i: nat): (n: nat)
    requires i <= |s|
    ensures i + n <= |s| && (i + n == |s| || !IsHostChar(s[i + n]))
    ensures forall k :: i <= k < i + n ==> IsHostChar(s[k])
    decreases |s| - i
  {
    if i < |s| && IsHostChar(s[i]) then 1 + HostRun(s, i + 1) else 0
  }

  /** The number of digits from i on. */
  function DigitRun(s: string, i: nat): (n: nat)
    requires i <= |s|
    ensures i + n <= |s| && (i + n == |s| || !IsDigit(s[i + n]))
    ensures forall k :: i <= k < i + n ==> IsDigit(s[k])
    decreases |s| - i
  {
    if i < |s| && IsDigit(s[i]) then 1 + DigitRun(s, i + 1) else 0
  }

  /** The pattern matched from i on with group 1 ending at e: the prefix, at
    * least one host character, a colon, at least one digit. */
  ghost predicate GroupAt(s: string, i: nat, e: nat)
  {
    var h := i + |UrlPrefix|;
    OccursAt(s, UrlPrefix, i) && h < e <= |s|
    && exists c :: h < c < e - 1 && s[c] == ':'
         && (forall k :: h <= k < c ==> IsHostChar(s[k]))
         && (forall k :: c < k < e ==> IsDigit(s[k]))
  }

  /** Where group 1 ends when the pattern matches from i on: the host part
    * cannot contain a colon, so it is the whole run of host characters, and the
    * greedy \d+ takes every digit after the colon. */
  function MatchAt(s: string, i: nat): (r: Option<nat>)
    requires i <= |s|
    ensures r.Some? ==> GroupAt(s, i, r.value) && (r.value == |s| || !IsDigit(s[r.value]))
  {
    if !OccursAt(s, UrlPrefix, i) then None
    else
      var h := i + |UrlPrefix|;
      var hn := HostRun(s, h);
      if hn == 0 || h + hn == |s| || s[h + hn] != ':' then None
      else
        var dn := DigitRun(s, h + hn + 1);
        if dn == 0 then None
        else
          assert s[h + hn] == ':';
          Some(h + hn + 1 + dn)
  }

  /** The colon of a match is the first character after the host run. */
  lemma ColonAfterHostRun(s: string, h: nat, c: nat)
    requires h <= c < |s| && s[c] == ':' && forall k :: h <= k < c ==> IsHostChar(s[k])
    ensures c == h + HostRun(s, h)
  {
    var n := HostRun(s, h);
    var stop := if h + n < |s| then s[h + n] else ':';
    assert !IsHostChar(stop) && !IsHostChar(s[c]);
  }

  /** Wherever the pattern matches, MatchAt finds it, and a match whose digits
    * run to the end of the digits ends where MatchAt says. */
  lemma MatchAtComplete(s: string, i: nat, e: nat)
    requires i <= |s| && GroupAt(s, i, e)
    ensures MatchAt(s, i).Some?
    ensures (e == |s| || !IsDigit(s[e])) ==> MatchAt(s, i) == Some(e)
  {
    var h := i + |UrlPrefix|;
    var c :| h < c < e - 1 && s[c] == ':'
              && (forall k :: h <= k < c ==> IsHostChar(s[k]))
              && (forall k :: c < k < e ==> IsDigit(s[k]));
    ColonAfterHostRun(s, h, c);
    var dn := DigitRun(s, c + 1);
    assert IsDigit(s[c + 1]);
    assert dn > 0;
    var stop := if c + 1 + dn < |s| then s[c + 1 + dn] else ':';
    var last := if e < |s| then s[e] else ':';
    assert !IsDigit(stop);
  }

  /** Matcher.find: the leftmost position from `from` on where the pattern
    * matches, with the end of group 1 there. */
  function FindMatch(s: string, from: nat): (r: Option<(nat, nat)>)
    requires from <= |s|
    ensures r.Some? ==> from <= r.value.0 <= |s| && MatchAt(s, r.value.0) == Some(r.value.1)
    ensures forall i :: from <= i <= |s| && (r.None? || i < r.value.0) ==> MatchAt(s, i).None?
    decreases |s| - from
  {
    match MatchAt(s, from)
    case Some(e) => Some((from, e))
    case None => if from == |s| then None else FindMatch(s, from + 1)
  }

  /** getConnectionInfo: "host:port" of the first address of a jdbc:mysql URL,
    * marked as a cluster when a comma follows it; the URL itself otherwise. */
  function ConnectionInfo(url: string): (r: string)
  {
    match FindMatch(url, 0)
    case Some((i, e)) =>
      var group := url[i + |UrlPrefix|..e];
      if ContainsChar(url[e..], ',') then "CLUSTER " + group + ",..." else group
    case None => "No match found for URL: " + url
  }

  /** The leftmost match of the pattern, with every digit of its port, is the
    * connection info; "CLUSTER " and ",..." mark a comma anywhere after it. */
  lemma ConnectionInfoOfFirstMatch(url: string, i: nat, e: nat)
    requires i <= |url| && GroupAt(url, i, e) && (e == |url| || !IsDigit(url[e]))
    requires forall j, f :: 0 <= j < i ==> !GroupAt(url, j, f)
    ensures ConnectionInfo(url) ==
              if ContainsChar(url[e..], ',') then "CLUSTER " + url[i + |UrlPrefix|..e] + ",..."
              else url[i + |UrlPrefix|..e]
  {
    MatchAtComplete(url, i, e);
    var m := FindMatch(url, 0);
    assert m.Some?;
    var (j, f) := m.value;
    assert GroupAt(url, j, f);
    assert j == i;
  }

  /** Without a match anywhere, the URL is reported as not matched. */
  lemma ConnectionInfoWithoutMatch(url: string)
    requires forall i, e :: 0 <= i <= |url| ==> !GroupAt(url, i, e)
    ensures ConnectionInfo(url) == "No match found for URL: " + url
  {
  }

  // ------------------------------------------------------ the staleness rule

  /** The branch loadTableFromDisk takes for a manifest entry: Ok(true) to read
    * the table from the server, Ok(false) to read its file. With a connection,
    * a missing server stamp or one strictly after the snapshot's means the
    * server; isAfter(null) throws when the snapshot has no stamp. */
  function LoadsFromDb(connected: bool, dbStamp: Option<DateTime>, diskStamp: Option<DateTime>): (r: Result<bool>)
  {
    if !connected then Ok(false)
    else if dbStamp.None? then Ok(true)
    else if diskStamp.None? then Err(NullPointer)
    else Ok(IsAfter(dbStamp.value, diskStamp.value))
  }

  /** The rule in full: the server exactly when connected and the server's
    * stamp is missing or strictly later; a failure exactly when only the
    * snapshot's stamp is missing. */
  lemma StalenessRule(connected: bool, dbStamp: Option<DateTime>, diskStamp: Option<DateTime>)
    ensures LoadsFromDb(connected, dbStamp, diskStamp) == Ok(true)
            <==> connected && (dbStamp.None? || (diskStamp.Some? && IsAfter(dbStamp.value, diskStamp.value)))
    ensures LoadsFromDb(connected, dbStamp, diskStamp).Err?
            <==> connected && dbStamp.Some? && diskStamp.None?
    ensures !connected ==> LoadsFromDb(connected, dbStamp, diskStamp) == Ok(false)
  {
  }

  /** Equal stamps keep the snapshot, and so does any server stamp before it. */
  lemma {:induction false} SnapshotKeptUnlessNewer(connected: bool, dbStamp: DateTime, diskStamp: DateTime)
    ensures dbStamp == diskStamp ==> LoadsFromDb(connected, Some(dbStamp), Some(diskStamp)) == Ok(false)
    ensures IsAfter(diskStamp, dbStamp) ==> LoadsFromDb(connected, Some(dbStamp), Some(diskStamp)) == Ok(false)
  {
    IsAfterTrichotomy(dbStamp, diskStamp);
  }

  /** A server stamp that keeps the snapshot keeps it for every earlier stamp. */
  lemma StalenessMonotone(connected: bool, later: DateTime, earlier: DateTime, diskStamp: Option<DateTime>)
    requires IsAfter(later, earlier) && LoadsFromDb(connected, Some(later), diskStamp) == Ok(false)
    ensures LoadsFromDb(connected, Some(earlier), diskStamp) == Ok(false)
  {
    if connected && diskStamp.Some? && IsAfter(earlier, diskStamp.value) {
      IsAfterTransitive(later, earlier, diskStamp.value);
    }
  }

  // ------------------------------------------------------ the last-modified map

  /** LAST_MODIFY_MAP: table name to stamp; a null name and a null stamp can
    * both be put. */
  type StampMap = map<Option<string>, Option<DateTime>>

  /** getLastModifiedOnDb: HashMap.get, null when absent. */
  function Lookup(stamps: StampMap, name: string): (r: Option<DateTime>)
    ensures Some(name) !in stamps ==> r.None?
    ensures Some(name) in stamps ==> r == stamps[Some(name)]
  {
    if Some(name) in stamps then stamps[Some(name)] else None
  }

  /** The entry a row of last_modified puts: the stamp parsed from column
    * localDateTime by getDateTime, under the name in column tableName. */
  function StampEntry(row: ResultRow): (r: Result<(Option<string>, Option<DateTime>)>)
    ensures r.Ok? ==> GetString(row, "localDateTime").Ok? && GetString(row, "tableName").Ok?
                      && AbstractDatabase.GetDateTime(GetString(row, "localDateTime").value) == Ok(r.value.1)
                      && r.value.0 == GetString(row, "tableName").value
  {
    var text :- GetString(row, "localDateTime");
    var stamp :- AbstractDatabase.GetDateTime(text);
    var name :- GetString(row, "tableName");
    Ok((name, stamp))
  }

  /** The map after putting the entries of the rows in order; the first row
    * that cannot be read stops the loop with its error. */
  function MergeStamps(stamps: StampMap, rows: seq<ResultRow>): (r: (StampMap, Outcome))
    decreases |rows|
  {
    if rows == [] then (stamps, Success)
    else match StampEntry(rows[0])
      case Err(e) => (stamps, Failure(e))
      case Ok(entry) => MergeStamps(stamps[entry.0 := entry.1], rows[1..])
  }

  /** loadLAstModifiedFromDB: the rows of last_modified merged into the map;
    * a failed query changes nothing. */
  function StampsFromDb(stamps: StampMap, conn: DbConnection): (r: (StampMap, Outcome))
    ensures Query(conn, LastModifiedTable).Err? ==> r == (stamps, Failure(Query(conn, LastModifiedTable).error))
    ensures Query(conn, LastModifiedTable).Ok? ==> r == MergeStamps(stamps, conn.server[LastModifiedTable])
  {
    match Query(conn, LastModifiedTable)
    case Err(e) => (stamps, Failure(e))
    case Ok(rows) => MergeStamps(stamps, rows)
  }

  /** The merge never removes a name, and a name no row mentions keeps its stamp. */
  lemma {:induction false} MergeKeeps(stamps: StampMap, rows: seq<ResultRow>, name: Option<string>)
    ensures stamps.Keys <= MergeStamps(stamps, rows).0.Keys
    ensures name in stamps && (forall i :: 0 <= i < |rows| && StampEntry(rows[i]).Ok? ==> StampEntry(rows[i]).value.0 != name)
            ==> MergeStamps(stamps, rows).0[name] == stamps[name]
    decreases |rows|
  {
    if rows != [] && StampEntry(rows[0]).Ok? {
      var entry := StampEntry(rows[0]).value;
      MergeKeeps(stamps[entry.0 := entry.1], rows[1..], name);
      if name in stamps && (forall i :: 0 <= i < |rows| && StampEntry(rows[i]).Ok? ==> StampEntry(rows[i]).value.0 != name) {
        forall i | 0 <= i < |rows[1..]| && StampEntry(rows[1..][i]).Ok?
          ensures StampEntry(rows[1..][i]).value.0 != name
        {
          assert rows[1..][i] == rows[i + 1];
        }
      }
    }
  }

  /** When every row reads, each row's name ends with the stamp of the last row
    * that mentions it: a later row wins. */
  lemma {:induction false} MergeLaterWins(stamps: StampMap, rows: seq<ResultRow>, i: nat)
    requires MergeStamps(stamps, rows).1.Success? && i < |rows|
    ensures StampEntry(rows[i]).Ok?
    ensures var entry := StampEntry(rows[i]).value;
            (forall j :: i < j < |rows| && StampEntry(rows[j]).Ok? ==> StampEntry(rows[j]).value.0 != entry.0)
            ==> entry.0 in MergeStamps(stamps, rows).0 && MergeStamps(stamps, rows).0[entry.0] == entry.1
    decreases |rows|
  {
    var first := StampEntry(rows[0]);
    assert first.Ok?;
    var next := stamps[first.value.0 := first.value.1];
    if i == 0 {
      var entry := first.value;
      MergeKeeps(next, rows[1..], entry.0);
      if forall j :: 0 < j < |rows| && StampEntry(rows[j]).Ok? ==> StampEntry(rows[j]).value.0 != entry.0 {
        forall j | 0 <= j < |rows[1..]| && StampEntry(rows[1..][j]).Ok?
          ensures StampEntry(rows[1..][j]).value.0 != entry.0
        {
          assert rows[1..][j] == rows[j + 1];
        }
      }
    } else {
      MergeLaterWins(next, rows[1..], i - 1);
      assert rows[1..][i - 1] == rows[i];
      var entry := StampEntry(rows[i]).value;
      if forall j :: i < j < |rows| && StampEntry(rows[j]).Ok? ==> StampEntry(rows[j]).value.0 != entry.0 {
        forall j | i - 1 < j < |rows[1..]| && StampEntry(rows[1..][j]).Ok?
          ensures StampEntry(rows[1..][j]).value.0 != entry.0
        {
          assert rows[1..][j] == rows[j + 1];
        }
      }
    }
  }

  // ------------------------------------------------------ the manifest

  /** One manifest entry: a table name and the stamp the snapshot was taken at. */
  datatype ManifestEntry = ManifestEntry(name: Option<string>, stamp: Option<DateTime>)

  function EncodeEntries(entries: seq<ManifestEntry>): (ts: seq<Token>)
    ensures |ts| == 2 * |entries|
  {
    if entries == [] then []
    else [StringToken(entries[0].name), DateTimeToken(entries[0].stamp)] + EncodeEntries(entries[1..])
  }

  /** The manifest saveAllToDisk writes: the table count, then per table its
    * name and its lastModified. */
  function EncodeManifest(entries: seq<ManifestEntry>): (ts: seq<Token>)
    ensures |ts| == 1 + 2 * |entries| && ts[0] == IntToken(|entries|)
  {
    [IntToken(|entries|)] + EncodeEntries(entries)
  }

  /** One entry read with readString and readLocalDateTime. */
  function ReadEntryAt(ts: seq<Token>, pos: nat): (r: Result<(ManifestEntry, nat)>)
    ensures r.Ok? ==> r.value.1 == pos + 2
  {
    var name :- ReadStringAt(ts, pos);
    var stamp :- ReadDateTimeAt(ts, name.1);
    Ok((ManifestEntry(name.0, stamp.0), stamp.1))
  }

  /** n entries read from pos on: the entries read before the first failure,
    * and that failure if there is one. */
  function ReadEntries(ts: seq<Token>, pos: nat, n: nat): (r: (seq<ManifestEntry>, Outcome))
    ensures |r.0| <= n && (r.1.Success? <==> |r.0| == n)
    decreases n
  {
    if n == 0 then ([], Success)
    else match ReadEntryAt(ts, pos)
      case Err(e) => ([], Failure(e))
      case Ok(first) =>
        var rest := ReadEntries(ts, first.1, n - 1);
        ([first.0] + rest.0, rest.1)
  }

  /** The entries of a manifest as loadAllFromDisk reads them: the count, then
    * that many entries; a negative count fails (a CountDownLatch cannot count
    * below zero) before any entry is read. */
  function ReadManifest(ts: seq<Token>): (r: (seq<ManifestEntry>, Outcome))
    ensures ReadIntAt(ts, 0).Err? || ReadIntAt(ts, 0).value.0 < 0 ==> r.0 == [] && r.1.Failure?
  {
    match ReadIntAt(ts, 0)
    case Err(e) => ([], Failure(e))
    case Ok(count) =>
      if count.0 < 0 then ([], Failure(IllegalArgument("count < 0")))
      else ReadEntries(ts, count.1, count.0)
  }

  /** The entries written are the entries read, from any position. */
  lemma {:induction false} EntriesRoundTrip(entries: seq<ManifestEntry>, ts: seq<Token>, pos: nat)
    requires pos + 2 * |entries| <= |ts| && ts[pos..pos + 2 * |entries|] == EncodeEntries(entries)
    ensures ReadEntries(ts, pos, |entries|) == (entries, Success)
    decreases |entries|
  {
    if entries != [] {
      assert ts[pos] == EncodeEntries(entries)[0] && ts[pos + 1] == EncodeEntries(entries)[1];
      assert ts[pos + 2..pos + 2 + 2 * |entries[1..]|] == EncodeEntries(entries[1..]) by {
        assert ts[pos + 2..pos + 2 + 2 * |entries[1..]|] == ts[pos..pos + 2 * |entries|][2..];
      }
      EntriesRoundTrip(entries[1..], ts, pos + 2);
      assert [entries[0]] + entries[1..] == entries;
    }
  }

  /** A manifest written by saveAllToDisk reads back as the same entries. */
  lemma ManifestRoundTrip(entries: seq<ManifestEntry>)
    ensures ReadManifest(EncodeManifest(entries)) == (entries, Success)
  {
    var ts := EncodeManifest(entries);
    assert ts[1..1 + 2 * |entries|] == EncodeEntries(entries);
    EntriesRoundTrip(entries, ts, 1);
  }

  lemma {:induction false} EncodeEntriesAppend(entries: seq<ManifestEntry>, e: ManifestEntry)
    ensures EncodeEntries(entries + [e]) == EncodeEntries(entries) + [StringToken(e.name), DateTimeToken(e.stamp)]
    decreases |entries|
  {
    if entries != [] {
      assert (entries + [e])[1..] == entries[1..] + [e];
      EncodeEntriesAppend(entries[1..], e);
    } else {
      assert [] + [e] == [e];
    }
  }

  // ------------------------------------------------------ the tables, as values

  /** What getTables declares about one table: its name and its row schema. */
  datatype TableDecl = TableDecl(name: string, schema: seq<NamedPropertyType>)

  /** The tables' names, in order. */
  function Names(decls: seq<TableDecl>): (names: seq<string>)
    ensures |names| == |decls| && forall k :: 0 <= k < |decls| ==> names[k] == decls[k].name
  {
    seq(|decls|, k requires 0 <= k < |decls| => decls[k].name)
  }

  /** The index of the first table named name from i on. */
  function FirstNamed(names: seq<string>, name: string, i: nat): (r: Option<nat>)
    requires i <= |names|
    ensures r.Some? ==> i <= r.value < |names| && names[r.value] == name
    ensures r.Some? ==> forall k :: i <= k < r.value ==> names[k] != name
    ensures r.None? ==> forall k :: i <= k < |names| ==> names[k] != name
    decreases |names| - i
  {
    if i == |names| then None
    else if names[i] == name then Some(i)
    else FirstNamed(names, name, i + 1)
  }

  /** getTable: the first table of TABLES with that name; a null or empty
    * name and a name no table has are errors. */
  function FindTable(names: seq<string>, name: Option<string>): (r: Result<nat>)
    ensures name.None? || name.value == "" ==> r == Err(IllegalArgument("Table name cannot be null or empty"))
    ensures name.Some? && name.value != "" ==>
              (r.Ok? <==> exists k :: 0 <= k < |names| && names[k] == name.value)
    ensures r.Err? && name.Some? && name.value != "" ==> r == Err(Runtime("Table " + name.value + " not found"))
    ensures r.Ok? ==> name.Some? && r.value < |names| && names[r.value] == name.value
                      && forall k :: 0 <= k < r.value ==> names[k] != name.value
  {
    if name.None? || name.value == "" then Err(IllegalArgument("Table name cannot be null or empty"))
    else match FirstNamed(names, name.value, 0)
      case None => Err(Runtime("Table " + name.value + " not found"))
      case Some(k) => Ok(k)
  }

  /** loadTableFromDB on one table: cleared, then filled from its query; only
    * a complete read sets its source to DB, its worker and connection, and
    * its stamp to the one read from the server. A failure keeps the rows
    * appended before it. */
  function TableFromDb(decl: TableDecl, t: TableState, stamps: StampMap, conn: DbConnection, worker: string)
    : (r: (TableState, Outcome))
  {
    match Query(conn, decl.name)
    case Err(e) => (TableState([], t.meta), Failure(e))
    case Ok(rs) =>
      var rows := RowsFromResultSet(decl.schema, rs);
      if rows.1.Failure? then (TableState(rows.0, t.meta), rows.1)
      else (TableState(rows.0, TableMeta(DB, worker, ConnectionInfo(conn.url), Lookup(stamps, decl.name))), Success)
  }

  /** The read succeeds exactly when the table is on the server and every
    * result row can be filled; then it holds one row per result row, each the
    * filling of its result row, and notes the server as its source. A failed
    * read keeps the table's other fields. */
  lemma TableFromDbMeaning(decl: TableDecl, t: TableState, stamps: StampMap, conn: DbConnection, worker: string)
    ensures var r := TableFromDb(decl, t, stamps, conn, worker);
            (r.1.Success? <==> decl.name in conn.server
                               && forall i :: 0 <= i < |conn.server[decl.name]| ==>
                                    FillFromRow(InitialCells(decl.schema), conn.server[decl.name][i], 0).Ok?)
            && (decl.name !in conn.server ==> r.0 == TableState([], t.meta))
            && (decl.name in conn.server ==>
                  |r.0.rows| <= |conn.server[decl.name]|
                  && forall i :: 0 <= i < |r.0.rows| ==>
                       FillFromRow(InitialCells(decl.schema), conn.server[decl.name][i], 0) == Ok(r.0.rows[i]))
            && (r.1.Failure? ==> r.0.meta == t.meta)
            && (r.1.Success? ==>
                  r.0.meta == TableMeta(DB, worker, ConnectionInfo(conn.url), Lookup(stamps, decl.name))
                  && |r.0.rows| == |conn.server[decl.name]|)
  {
    if decl.name in conn.server {
      RowsFromResultSetMeaning(decl.schema, conn.server[decl.name]);
    }
  }

  /** Reading a table twice from the same server ends where reading it once does. */
  lemma TableFromDbIdempotent(decl: TableDecl, t: TableState, stamps: StampMap, conn: DbConnection, worker: string)
    ensures var once := TableFromDb(decl, t, stamps, conn, worker);
            TableFromDb(decl, once.0, stamps, conn, worker) == once
  {
  }

  /** loadAllFromDB: every table read from the server on its own; a worker's
    * failure is swallowed and leaves that table as its read left it. */
  function AllFromDb(decls: seq<TableDecl>, tables: seq<TableState>, stamps: StampMap, conn: DbConnection, worker: string)
    : (r: seq<TableState>)
    requires |tables| == |decls|
    ensures |r| == |tables|
    ensures forall k :: 0 <= k < |r| ==> r[k] == TableFromDb(decls[k], tables[k], stamps, conn, worker).0
  {
    seq(|tables|, k requires 0 <= k < |tables| => TableFromDb(decls[k], tables[k], stamps, conn, worker).0)
  }

  /** The tables and the cache folder. */
  datatype CacheState = CacheState(tables: seq<TableState>, files: map<string, seq<Token>>)

  /** loadTableFromDisk once the table is found: the table cleared; with a
    * connection, a server stamp that is missing or newer than the snapshot's
    * sends it to the server, otherwise it is read from its file; then it gets
    * the server's stamp. The result tells whether it came from the server; a
    * missing snapshot stamp next to a server stamp and a failed server read
    * are errors, after which the table keeps no stamp change. */
  function TableStep(decl: TableDecl, t: TableState, files: map<string, seq<Token>>, stamps: StampMap,
                     conn: Option<DbConnection>, worker: string, diskStamp: Option<DateTime>)
    : (r: (TableState, map<string, seq<Token>>, Result<bool>))
  {
    var cleared := TableState([], t.meta);
    var dbStamp := if conn.None? then None else Lookup(stamps, decl.name);
    match LoadsFromDb(conn.Some?, dbStamp, diskStamp)
    case Err(e) => (cleared, files, Err(e))
    case Ok(fromDb) =>
      if fromDb then
        var db := TableFromDb(decl, cleared, stamps, conn.value, worker);
        (db.0, files, if db.1.Success? then Ok(true) else Err(db.1.error))
      else
        var d := DiskLoad(decl.schema, decl.name, files);
        (TableState(d.0, TableMeta(Disk, worker, "HDD", Lookup(stamps, decl.name))), d.1, Ok(false))
  }

  /** The step's outcome: the server exactly under the staleness rule, with a
    * read that succeeds; offline, the table's file; the stamp set whenever
    * nothing failed, and the folder touched only by a file read. */
  lemma TableStepMeaning(decl: TableDecl, t: TableState, files: map<string, seq<Token>>, stamps: StampMap,
                         conn: Option<DbConnection>, worker: string, diskStamp: Option<DateTime>)
    ensures var r := TableStep(decl, t, files, stamps, conn, worker, diskStamp);
            (r.2.Ok? ==> r.0.meta.lastModified == Lookup(stamps, decl.name))
            && (r.2.Err? ==> r.0.meta == t.meta && r.1 == files)
            && (r.2 == Ok(true) <==> conn.Some? && LoadsFromDb(true, Lookup(stamps, decl.name), diskStamp) == Ok(true)
                                     && TableFromDb(decl, t, stamps, conn.value, worker).1.Success?)
            && (r.2 == Ok(true) ==> r.1 == files
                                    && r.0.meta == TableMeta(DB, worker, ConnectionInfo(conn.value.url), Lookup(stamps, decl.name)))
            && (conn.None? ==>
                  var d := DiskLoad(decl.schema, decl.name, files);
                  r == (TableState(d.0, TableMeta(Disk, worker, "HDD", Lookup(stamps, decl.name))), d.1, Ok(false)))
  {
  }

  /** loadTableFromDisk for one manifest entry: the step above on the table
    * the entry names; a name no table has is an error that changes nothing. */
  function TableFromDisk(decls: seq<TableDecl>, st: CacheState, stamps: StampMap, conn: Option<DbConnection>,
                         worker: string, entry: ManifestEntry): (r: (CacheState, Result<bool>))
    requires |st.tables| == |decls|
    ensures |r.0.tables| == |decls|
  {
    match FindTable(Names(decls), entry.name)
    case Err(e) => (st, Err(e))
    case Ok(k) =>
      var step := TableStep(decls[k], st.tables[k], st.files, stamps, conn, worker, entry.stamp);
      (CacheState(st.tables[k := step.0], step.1), step.2)
  }

  /** The two outcomes of loadTableFromDisk: the name not found, or the table
    * it finds stepped. */
  lemma TableFromDiskCases(decls: seq<TableDecl>, st: CacheState, stamps: StampMap, conn: Option<DbConnection>,
                           worker: string, entry: ManifestEntry)
    requires |st.tables| == |decls|
    ensures var found := FindTable(Names(decls), entry.name);
            var r := TableFromDisk(decls, st, stamps, conn, worker, entry);
            (found.Err? ==> r == (st, Err(found.error)))
            && (found.Ok? ==>
                  var step := TableStep(decls[found.value], st.tables[found.value], st.files, stamps, conn, worker, entry.stamp);
                  r == (CacheState(st.tables[found.value := step.0], step.1), step.2))
  {
  }

  /** The manifest's entries handed to loadTableFromDisk one after the other,
    * each worker's failure swallowed: the state after them, and whether any
    * table came from the server. */
  function VisitEntries(decls: seq<TableDecl>, st: CacheState, stamps: StampMap, conn: Option<DbConnection>,
                        worker: string, entries: seq<ManifestEntry>): (r: (CacheState, bool))
    requires |st.tables| == |decls|
    ensures |r.0.tables| == |decls|
    decreases |entries|
  {
    if entries == [] then (st, false)
    else
      var before := VisitEntries(decls, st, stamps, conn, worker, entries[..|entries| - 1]);
      var last := TableFromDisk(decls, before.0, stamps, conn, worker, entries[|entries| - 1]);
      (last.0, before.1 || last.1 == Ok(true))
  }

  /** loadAllFromDisk: without a manifest, every table from the server (when
    * there is a connection) and a change reported; with one, its entries
    * visited; a manifest that cannot be read empties the cache folder after
    * the entries read before the failure, reads every table from the server
    * (when there is a connection) and reports a change. */
  function AllFromDisk(decls: seq<TableDecl>, st: CacheState, stamps: StampMap, conn: Option<DbConnection>, worker: string)
    : (r: (CacheState, bool))
    requires |st.tables| == |decls|
    ensures |r.0.tables| == |decls|
  {
    if Disks.ManifestName !in st.files then
      (if conn.Some? then st.(tables := AllFromDb(decls, st.tables, stamps, conn.value, worker)) else st, true)
    else
      var manifest := ReadManifest(st.files[Disks.ManifestName]);
      var visited := VisitEntries(decls, st, stamps, conn, worker, manifest.0);
      if manifest.1.Success? then visited
      else
        var wiped := visited.0.(files := map[]);
        (if conn.Some? then wiped.(tables := AllFromDb(decls, wiped.tables, stamps, conn.value, worker)) else wiped, true)
  }

  /** A missing or unreadable manifest always reports a change, and an
    * unreadable one leaves the cache folder empty. */
  lemma SnapshotFallback(decls: seq<TableDecl>, st: CacheState, stamps: StampMap, conn: Option<DbConnection>, worker: string)
    requires |st.tables| == |decls|
    ensures Disks.ManifestName !in st.files || ReadManifest(st.files[Disks.ManifestName]).1.Failure? ==>
              AllFromDisk(decls, st, stamps, conn, worker).1
    ensures Disks.ManifestName in st.files && ReadManifest(st.files[Disks.ManifestName]).1.Failure? ==>
              AllFromDisk(decls, st, stamps, conn, worker).0.files == map[]
  {
  }

  /** Entry i of the manifest brings its table from the server, in the state
    * the entries before it left. */
  predicate ServerLoadAt(decls: seq<TableDecl>, st: CacheState, stamps: StampMap, conn: Option<DbConnection>,
                         worker: string, entries: seq<ManifestEntry>, i: nat)
    requires |st.tables| == |decls| && i < |entries|
  {
    var before := VisitEntries(decls, st, stamps, conn, worker, entries[..i]);
    TableFromDisk(decls, before.0, stamps, conn, worker, entries[i]).1 == Ok(true)
  }

  /** The visit reports a change exactly when some entry brought its table
    * from the server. */
  lemma {:induction false} VisitReportsServerLoads(decls: seq<TableDecl>, st: CacheState, stamps: StampMap,
                                                   conn: Option<DbConnection>, worker: string,
                                                   entries: seq<ManifestEntry>)
    requires |st.tables| == |decls|
    ensures (VisitEntries(decls, st, stamps, conn, worker, entries).1)
              <==> (exists i :: 0 <= i < |entries| && ServerLoadAt(decls, st, stamps, conn, worker, entries, i))
    decreases |entries|
  {
    if entries != [] {
      var n := |entries|;
      var front := entries[..n - 1];
      assert entries[..n - 1] == front;
      VisitReportsServerLoads(decls, st, stamps, conn, worker, front);
      forall i | 0 <= i < n - 1
        ensures ServerLoadAt(decls, st, stamps, conn, worker, entries, i)
                == ServerLoadAt(decls, st, stamps, conn, worker, front, i)
      {
        assert entries[..i] == front[..i];
      }
      var before := VisitEntries(decls, st, stamps, conn, worker, front);
      var r := VisitEntries(decls, st, stamps, conn, worker, entries);
      assert r.1 == (before.1 || ServerLoadAt(decls, st, stamps, conn, worker, entries, n - 1));
      if r.1 {
        if before.1 {
          var i :| 0 <= i < n - 1 && ServerLoadAt(decls, st, stamps, conn, worker, front, i);
          assert ServerLoadAt(decls, st, stamps, conn, worker, entries, i);
        }
      } else {
        forall i | 0 <= i < n ensures !ServerLoadAt(decls, st, stamps, conn, worker, entries, i) {
          if i < n - 1 {
            assert !ServerLoadAt(decls, st, stamps, conn, worker, front, i);
          }
        }
      }
    }
  }

  /** loadAllFromDisk reports a change exactly when there is no manifest, the
    * manifest cannot be read, or an entry brings its table from the server. */
  lemma AllFromDiskChanged(decls: seq<TableDecl>, st: CacheState, stamps: StampMap, conn: Option<DbConnection>,
                           worker: string)
    requires |st.tables| == |decls|
    ensures (AllFromDisk(decls, st, stamps, conn, worker).1)
              <==> (Disks.ManifestName !in st.files
                    || (var manifest := ReadManifest(st.files[Disks.ManifestName]);
                        manifest.1.Failure?
                        || exists i :: 0 <= i < |manifest.0| && ServerLoadAt(decls, st, stamps, conn, worker, manifest.0, i)))
  {
    if Disks.ManifestName in st.files {
      VisitReportsServerLoads(decls, st, stamps, conn, worker, ReadManifest(st.files[Disks.ManifestName]).0);
    }
  }

  /** Without a connection no table comes from the server. */
  lemma {:induction false} OfflineVisitReportsNoChange(decls: seq<TableDecl>, st: CacheState, stamps: StampMap,
                                                         worker: string, entries: seq<ManifestEntry>)
    requires |st.tables| == |decls|
    ensures !VisitEntries(decls, st, stamps, None, worker, entries).1
    decreases |entries|
  {
    if entries != [] {
      OfflineVisitReportsNoChange(decls, st, stamps, worker, entries[..|entries| - 1]);
    }
  }

  /** A table no manifest entry names is left as it was. */
  lemma {:induction false} UnlistedTableKept(decls: seq<TableDecl>, st: CacheState, stamps: StampMap,
                                             conn: Option<DbConnection>, worker: string,
                                             entries: seq<ManifestEntry>, k: nat)
    requires |st.tables| == |decls| && k < |decls|
    requires forall i :: 0 <= i < |entries| ==> entries[i].name != Some(decls[k].name)
    ensures VisitEntries(decls, st, stamps, conn, worker, entries).0.tables[k] == st.tables[k]
    decreases |entries|
  {
    if entries != [] {
      UnlistedTableKept(decls, st, stamps, conn, worker, entries[..|entries| - 1], k);
    }
  }

  // ------------------------------------------------------ saving a snapshot

  /** The tables' rows are theirs to write: each row matches its table's schema. */
  predicate WellFormed(decls: seq<TableDecl>, tables: seq<TableState>)
  {
    |tables| == |decls|
    && forall k :: 0 <= k < |decls| ==>
         AllRowsMatch(decls[k].schema, tables[k].rows) && AllRowsWritable(tables[k].rows)
  }

  /** The manifest entries of the tables: each name with its lastModified. */
  function ManifestOf(decls: seq<TableDecl>, tables: seq<TableState>): (entries: seq<ManifestEntry>)
    requires |tables| == |decls|
    ensures |entries| == |decls|
    ensures forall k :: 0 <= k < |decls| ==>
              entries[k] == ManifestEntry(Some(decls[k].name), tables[k].meta.lastModified)
  {
    seq(|decls|, k requires 0 <= k < |decls| => ManifestEntry(Some(decls[k].name), tables[k].meta.lastModified))
  }

  /** The folder after the first n tables have written their files. */
  function TableFiles(decls: seq<TableDecl>, tables: seq<TableState>, files: map<string, seq<Token>>, n: nat)
    : (r: map<string, seq<Token>>)
    requires WellFormed(decls, tables) && n <= |decls|
    ensures forall k :: 0 <= k < n ==> Disks.CacheFileName(decls[k].name) in r
    ensures forall f :: f in files ==> f in r
  {
    if n == 0 then files
    else TableFiles(decls, tables, files, n - 1)[Disks.CacheFileName(decls[n - 1].name) := EncodeTable(tables[n - 1].rows)]
  }

  /** saveAllToDisk: every table's file, in order, then the manifest. */
  function SaveAll(decls: seq<TableDecl>, tables: seq<TableState>, files: map<string, seq<Token>>)
    : (r: map<string, seq<Token>>)
    requires WellFormed(decls, tables)
    ensures Disks.ManifestName in r && ReadManifest(r[Disks.ManifestName]) == (ManifestOf(decls, tables), Success)
    ensures forall k :: 0 <= k < |decls| ==> Disks.CacheFileName(decls[k].name) in r
  {
    ManifestRoundTrip(ManifestOf(decls, tables));
    TableFiles(decls, tables, files, |decls|)[Disks.ManifestName := EncodeManifest(ManifestOf(decls, tables))]
  }

  /** A snapshot just saved, reloaded without a connection, reports no change. */
  lemma SavedSnapshotReloadsOffline(decls: seq<TableDecl>, tables: seq<TableState>, files: map<string, seq<Token>>,
                                    stamps: StampMap, worker: string)
    requires WellFormed(decls, tables)
    ensures !AllFromDisk(decls, CacheState(tables, SaveAll(decls, tables, files)), stamps, None, worker).1
  {
    var st := CacheState(tables, SaveAll(decls, tables, files));
    OfflineVisitReportsNoChange(decls, st, stamps, worker, ManifestOf(decls, tables));
  }

  /** The manifest tokens of the first i + 1 tables extend those of the first i. */
  lemma ManifestStep(decls: seq<TableDecl>, tables: seq<TableState>, i: nat)
    requires |tables| == |decls| && i < |decls|
    ensures var entries := ManifestOf(decls, tables);
            EncodeEntries(entries[..i + 1])
            == EncodeEntries(entries[..i]) + [StringToken(Some(decls[i].name)), DateTimeToken(tables[i].meta.lastModified)]
  {
    var entries := ManifestOf(decls, tables);
    assert entries[..i + 1] == entries[..i] + [entries[i]];
    EncodeEntriesAppend(entries[..i], entries[i]);
  }

  /** The entries of a manifest whose count reads as n >= 0 are the n entries after it. */
  lemma ManifestStart(ts: seq<Token>, n: int)
    requires ReadIntAt(ts, 0) == Ok((n, 1)) && n >= 0
    ensures ReadManifest(ts) == ([] + ReadEntries(ts, 1, n).0, ReadEntries(ts, 1, n).1)
  {
    assert [] + ReadEntries(ts, 1, n).0 == ReadEntries(ts, 1, n).0;
  }

  /** One more entry read. */
  lemma EntriesNext(ts: seq<Token>, pos: nat, n: nat, read: seq<ManifestEntry>, e: ManifestEntry)
    requires n > 0 && ReadEntryAt(ts, pos) == Ok((e, pos + 2))
    ensures var rest := ReadEntries(ts, pos, n);
            var next := ReadEntries(ts, pos + 2, n - 1);
            (read + rest.0, rest.1) == ((read + [e]) + next.0, next.1)
  {
    var next := ReadEntries(ts, pos + 2, n - 1);
    assert read + ([e] + next.0) == (read + [e]) + next.0;
  }

  /** An entry that cannot be read ends the entries read. */
  lemma EntriesStop(ts: seq<Token>, pos: nat, n: nat, read: seq<ManifestEntry>)
    requires n > 0 && ReadEntryAt(ts, pos).Err?
    ensures var rest := ReadEntries(ts, pos, n);
            (read + rest.0) == read && rest.1.Failure?
  {
    assert read + [] == read;
  }

  lemma EntriesDone(ts: seq<Token>, pos: nat, read: seq<ManifestEntry>)
    ensures var rest := ReadEntries(ts, pos, 0);
            (read + rest.0, rest.1) == (read, Success)
  {
    assert read + [] == read;
  }

  /** One more entry visited. */
  lemma VisitNext(decls: seq<TableDecl>, st: CacheState, stamps: StampMap, conn: Option<DbConnection>,
                  worker: string, entries: seq<ManifestEntry>, e: ManifestEntry)
    requires |st.tables| == |decls|
    ensures var before := VisitEntries(decls, st, stamps, conn, worker, entries);
            var last := TableFromDisk(decls, before.0, stamps, conn, worker, e);
            VisitEntries(decls, st, stamps, conn, worker, entries + [e]) == (last.0, before.1 || last.1 == Ok(true))
  {
    assert (entries + [e])[..|entries|] == entries;
  }

  // ------------------------------------------------------ AbstractCache

  /** The row objects held by the tables. */
  ghost function RowObjects(ts: seq<Table>): (r: set<TableData>)
    reads ts
    ensures forall k, d :: 0 <= k < |ts| && d in ts[k].tableData ==> d in r
  {
    set k, d | 0 <= k < |ts| && d in ts[k].tableData :: d
  }

  class Cache {
    /** TABLES, as chkTables fills it from getTables when the cache is made. */
    const tables: seq<Table>
    /** The cache folder, CACHE_FOLDER. */
    const folder: Disks.Disk
    /** LAST_MODIFY_MAP. */
    var stamps: StampMap

    ghost predicate Valid()
      reads tables, RowObjects(tables)
    {
      (forall i, j :: 0 <= i < j < |tables| ==> tables[i] != tables[j])
      && forall k :: 0 <= k < |tables| ==> tables[k].Valid()
    }

    /** Each table's name and schema. */
    function Decls(): (decls: seq<TableDecl>)
      ensures |decls| == |tables|
      ensures forall k :: 0 <= k < |tables| ==> decls[k] == TableDecl(tables[k].tableName, tables[k].schema)
    {
      seq(|tables|, k requires 0 <= k < |tables| => TableDecl(tables[k].tableName, tables[k].schema))
    }

    /** Each table's rows and fields, as values. */
    ghost function TablesState(): (states: seq<TableState>)
      reads tables, RowObjects(tables)
      ensures |states| == |tables|
      ensures forall k :: 0 <= k < |tables| ==> states[k] == tables[k].State()
    {
      seq(|tables|, k requires 0 <= k < |tables| reads tables, RowObjects(tables) => tables[k].State())
    }

    /** The rows of valid tables match their schemas. */
    lemma ValidTablesWellFormed()
      requires Valid()
      ensures WellFormed(Decls(), TablesState())
    {
      forall k | 0 <= k < |tables|
        ensures AllRowsMatch(tables[k].schema, tables[k].Rows()) && AllRowsWritable(tables[k].Rows())
      {
      }
    }

    /** The tables and the cache folder, as values. */
    ghost function State(): CacheState
      reads tables, RowObjects(tables), folder
    {
      CacheState(TablesState(), folder.files)
    }

    /** AbstractCache(cacheFolder): TABLES filled from getTables, an empty
      * last-modified map. */
    constructor (tables: seq<Table>, folder: Disks.Disk)
      requires forall i, j :: 0 <= i < j < |tables| ==> tables[i] != tables[j]
      requires forall k :: 0 <= k < |tables| ==> tables[k].Valid()
      ensures Valid() && this.tables == tables && this.folder == folder && stamps == map[]
    {
      this.tables := tables;
      this.folder := folder;
      stamps := map[];
    }

    /** getTable. */
    method GetTable(name: Option<string>) returns (r: Result<Table>)
      ensures var spec := FindTable(Names(Decls()), name);
              (spec.Ok? ==> r == Ok(tables[spec.value])) && (spec.Err? ==> r == Err(spec.error))
    {
      if name.None? || name.value == "" {
        return Err(IllegalArgument("Table name cannot be null or empty"));
      }
      var i := 0;
      while i < |tables|
        invariant 0 <= i <= |tables|
        invariant forall k :: 0 <= k < i ==> Decls()[k].name != name.value
      {
        if tables[i].tableName == name.value {
          assert FirstNamed(Names(Decls()), name.value, 0) == Some(i);
          return Ok(tables[i]);
        }
        i := i + 1;
      }
      return Err(Runtime("Table " + name.value + " not found"));
    }

    /** loadLAstModifiedFromDB: the rows of last_modified put into the map one
      * by one; a row that cannot be read ends the loop with its error. */
    method LoadLastModifiedFromDb(conn: DbConnection) returns (o: Outcome)
      modifies this
      ensures (stamps, o) == StampsFromDb(old(stamps), conn)
    {
      var q := Query(conn, LastModifiedTable);
      if q.Err? {
        return Failure(q.error);
      }
      var rows := q.value;
      var i := 0;
      while i < |rows|
        invariant 0 <= i <= |rows|
        invariant MergeStamps(old(stamps), rows) == MergeStamps(stamps, rows[i..])
      {
        assert rows[i..][0] == rows[i] && rows[i..][1..] == rows[i + 1..];
        var entry := StampEntry(rows[i]);
        if entry.Err? {
          return Failure(entry.error);
        }
        stamps := stamps[entry.value.0 := entry.value.1];
        i := i + 1;
      }
      return Success;
    }

    /** loadTableFromDB: the table cleared and filled from its query; after a
      * complete read, its source, worker, connection and stamp set. */
    method LoadTableFromDb(conn: DbConnection, table: Table, worker: string) returns (o: Outcome)
      requires table.Valid()
      modifies table
      ensures table.Valid()
      ensures var spec := TableFromDb(TableDecl(table.tableName, table.schema), old(table.State()), stamps, conn, worker);
              table.State() == spec.0 && o == spec.1
    {
      table.Clear();
      var q := Query(conn, table.tableName);
      if q.Err? {
        return Failure(q.error);
      }
      o := table.AddResultSet(q.value);
      if o.Failure? {
        return;
      }
      MarkFromDb(conn, table, worker);
    }

    /** The end of a complete read in loadTableFromDB: the server noted as the
      * table's source, with the worker, the connection and the stamp. */
    method MarkFromDb(conn: DbConnection, table: Table, worker: string)
      requires table.Valid()
      modifies table
      ensures table.Valid() && table.Rows() == old(table.Rows())
      ensures table.Meta() == TableMeta(DB, worker, ConnectionInfo(conn.url), Lookup(stamps, table.tableName))
    {
      table.source := DB;
      table.sourceThread := worker;
      table.sourceConnection := ConnectionInfo(conn.url);
      table.SetDbLastModify(Lookup(stamps, table.tableName));
    }

    /** loadAllFromDB: every table read from the server; a table whose read
      * fails is left as the read left it. */
    method LoadAllFromDb(conn: DbConnection, worker: string)
      requires Valid()
      modifies tables
      ensures Valid() && TablesState() == AllFromDb(Decls(), old(TablesState()), stamps, conn, worker)
    {
      ghost var spec := AllFromDb(Decls(), old(TablesState()), stamps, conn, worker);
      ghost var current := old(TablesState());
      var i := 0;
      while i < |tables|
        invariant 0 <= i <= |tables| && Valid() && TablesState() == current && |current| == |tables|
        invariant forall j :: 0 <= j < |tables| ==> current[j] == if j < i then spec[j] else old(TablesState())[j]
      {
        LoadTableAt(conn, i, worker);
        current := current[i := spec[i]];
        i := i + 1;
      }
    }
  
    /** One worker of loadAllFromDB: the k-th table read from the server. */
    method LoadTableAt(conn: DbConnection, k: nat, worker: string)
      requires Valid() && k < |tables|
      modifies tables[k]
      ensures Valid()
      ensures TablesState() == old(TablesState())[k := TableFromDb(Decls()[k], old(TablesState())[k], stamps, conn, worker).0]
    {
      var _ := LoadTableFromDb(conn, tables[k], worker);
      forall j | 0 <= j < |tables| && j != k
        ensures tables[j].Valid() && tables[j].State() == old(tables[j].State())
      {
        assert tables[j] != tables[k];
      }
      assert TablesState() == old(TablesState())[k := tables[k].State()];
    }

    /** loadTableFromDisk: the named table, found with getTable, refreshed. */
    method LoadTableFromDisk(name: Option<string>, diskStamp: Option<DateTime>, conn: Option<DbConnection>,
                             worker: string) returns (r: Result<bool>)
      requires Valid()
      modifies tables, folder
      ensures Valid()
      ensures (State(), r) == TableFromDisk(Decls(), old(State()), stamps, conn, worker, ManifestEntry(name, diskStamp))
    {
      var g := GetTable(name);
      assert State() == old(State());
      TableFromDiskCases(Decls(), State(), stamps, conn, worker, ManifestEntry(name, diskStamp));
      if g.Err? {
        return Err(g.error);
      }
      r := RefreshAt(g.value, FindTable(Names(Decls()), name).value, diskStamp, conn, worker);
    }

    /** The k-th table refreshed; the others are left as they were. */
    method RefreshAt(table: Table, ghost k: nat, diskStamp: Option<DateTime>, conn: Option<DbConnection>, worker: string)
      returns (r: Result<bool>)
      requires Valid() && k < |tables| && table == tables[k]
      modifies table, folder
      ensures Valid()
      ensures var st := old(State());
              var spec := TableStep(Decls()[k], st.tables[k], st.files, stamps, conn, worker, diskStamp);
              (State(), r) == (CacheState(st.tables[k := spec.0], spec.1), spec.2)
    {
      r := RefreshTable(table, diskStamp, conn, worker);
      forall j | 0 <= j < |tables| && j != k
        ensures tables[j].Valid() && tables[j].State() == old(tables[j].State())
      {
        assert tables[j] != tables[k];
      }
      assert TablesState() == old(TablesState())[k := tables[k].State()];
    }

    /** The body of loadTableFromDisk after getTable. Its server branch
      * repeats the body of loadTableFromDB. */
    method RefreshTable(table: Table, diskStamp: Option<DateTime>, conn: Option<DbConnection>, worker: string)
      returns (r: Result<bool>)
      requires table.Valid()
      modifies table, folder
      ensures table.Valid()
      ensures var spec := TableStep(TableDecl(table.tableName, table.schema), old(table.State()), old(folder.files),
                                    stamps, conn, worker, diskStamp);
              table.State() == spec.0 && folder.files == spec.1 && r == spec.2
    {
      ghost var meta := table.Meta();
      table.Clear();
      assert table.State() == TableState([], meta);
      var dbStamp := if conn.None? then None else Lookup(stamps, table.tableName);
      var fromDb := false;
      if conn.Some? {
        if dbStamp.None? {
          fromDb := true;
        } else if diskStamp.None? {
          return Err(NullPointer);
        } else {
          fromDb := IsAfter(dbStamp.value, diskStamp.value);
        }
      }
      if fromDb {
        r := RefreshFromDb(conn.value, table, worker);
      } else {
        RefreshFromFile(table, worker);
        r := Ok(false);
      }
    }

    /** The server branch of loadTableFromDisk: loadTableFromDB, then the stamp
      * set again. */
    method RefreshFromDb(conn: DbConnection, table: Table, worker: string) returns (r: Result<bool>)
      requires table.Valid()
      modifies table
      ensures table.Valid()
      ensures var db := TableFromDb(TableDecl(table.tableName, table.schema), old(table.State()), stamps, conn, worker);
              table.State() == db.0 && r == if db.1.Success? then Ok(true) else Err(db.1.error)
    {
      var o := LoadTableFromDb(conn, table, worker);
      if o.Failure? {
        return Err(o.error);
      }
      r := Ok(true);
      table.SetDbLastModify(Lookup(stamps, table.tableName));
    }

    /** The file branch of loadTableFromDisk on a cleared table: its file
      * read, then the stamp set. */
    method RefreshFromFile(table: Table, worker: string)
      requires table.Valid() && table.Rows() == []
      modifies table, folder
      ensures table.Valid()
      ensures var d := DiskLoad(table.schema, table.tableName, old(folder.files));
              table.State() == TableState(d.0, TableMeta(Disk, worker, "HDD", Lookup(stamps, table.tableName)))
              && folder.files == d.1
    {
      ReadTableFile(table, worker);
      table.SetDbLastModify(Lookup(stamps, table.tableName));
    }

    /** The file branch of loadTableFromDisk: loadFromDisk, then the source
      * Disk, the worker and the connection "HDD" noted. */
    method ReadTableFile(table: Table, worker: string)
      requires table.Valid()
      modifies table, folder
      ensures table.Valid()
      ensures var d := DiskLoad(table.schema, table.tableName, old(folder.files));
              table.Rows() == old(table.Rows()) + d.0 && folder.files == d.1
              && table.Meta() == old(table.Meta()).(source := Disk, sourceThread := worker, sourceConnection := "HDD")
    {
      table.LoadFromDisk(folder);
      table.source := Disk;
      table.sourceThread := worker;
      table.sourceConnection := "HDD";
    }

    /** One manifest entry read with readString and readLocalDateTime. */
    method ReadEntry(store: Store) returns (r: Result<ManifestEntry>)
      requires Valid()
      modifies store
      ensures Valid() && State() == old(State()) && store.tokens == old(store.tokens)
      ensures var spec := ReadEntryAt(store.tokens, old(store.pos));
              (spec.Ok? ==> r == Ok(spec.value.0) && store.pos == spec.value.1) && (spec.Err? ==> r.Err?)
    {
      var name := store.ReadString();
      if name.Err? {
        return Err(name.error);
      }
      var stamp := store.ReadDateTime();
      assert State() == old(State());
      if stamp.Err? {
        return Err(stamp.error);
      }
      return Ok(ManifestEntry(name.value, stamp.value));
    }

    /** loadAllFromDisk: a missing manifest sends every table to the server
      * (when there is a connection); otherwise its entries are visited, and a
      * manifest that cannot be read empties the cache folder and sends every
      * table to the server (when there is a connection). The result tells
      * whether any table came from the server, or the snapshot was missing or
      * unreadable. */
    method LoadAllFromDisk(conn: Option<DbConnection>, worker: string) returns (any: bool)
      requires Valid()
      modifies tables, folder
      ensures Valid()
      ensures (State(), any) == AllFromDisk(Decls(), old(State()), stamps, conn, worker)
    {
      if Disks.ManifestName !in folder.files {
        if conn.Some? {
          LoadAllFromDb(conn.value, worker);
        }
        return true;
      }
      var failed;
      any, failed := VisitManifest(folder.files[Disks.ManifestName], conn, worker);
      if failed {
        ghost var visited := TablesState();
        folder.files := map[];
        assert TablesState() == visited;
        if conn.Some? {
          LoadAllFromDb(conn.value, worker);
        }
        any := true;
      }
    }

    /** The try block of loadAllFromDisk: the table count read from the
      * manifest, then per entry its name and stamp, each handed to
      * loadTableFromDisk with the worker's failure swallowed; a read that
      * fails ends the block. */
    method VisitManifest(manifest: seq<Token>, conn: Option<DbConnection>, worker: string)
      returns (any: bool, failed: bool)
      requires Valid()
      modifies tables, folder
      ensures Valid()
      ensures var m := ReadManifest(manifest);
              failed == m.1.Failure?
              && (State(), any) == VisitEntries(Decls(), old(State()), stamps, conn, worker, m.0)
    {
      var store, count := OpenManifest(manifest);
      any := false;
      if count.Err? || count.value < 0 {
        return any, true;
      }
      ManifestStart(manifest, count.value);
      ghost var read: seq<ManifestEntry> := [];
      ghost var left: nat := count.value;
      var i := 0;
      while i < count.value
        invariant 0 <= i <= count.value && left == count.value - i
        invariant Visiting(manifest, store, left, old(State()), read, any, conn, worker)
      {
        var entry;
        entry, any, read, left := NextEntry(store, conn, worker, manifest, left, old(State()), read, any);
        if entry.Err? {
          return any, true;
        }
        i := i + 1;
      }
      EntriesDone(manifest, store.pos, read);
      failed := false;
    }

    /** The state of the loop of loadAllFromDisk after the entries read: what
      * the manifest still holds from the store's position, and the tables
      * and folder as visiting the entries read leaves them. */
    ghost predicate Visiting(manifest: seq<Token>, store: Store, left: nat, start: CacheState,
                             read: seq<ManifestEntry>, any: bool, conn: Option<DbConnection>, worker: string)
      reads this, tables, RowObjects(tables), folder, store
    {
      Valid() && store.tokens == manifest && |start.tables| == |tables|
      && (var rest := ReadEntries(manifest, store.pos, left);
          ReadManifest(manifest) == (read + rest.0, rest.1))
      && (State(), any) == VisitEntries(Decls(), start, stamps, conn, worker, read)
    }

    /** The manifest opened as a bit store and its table count read. */
    method OpenManifest(manifest: seq<Token>) returns (store: Store, count: Result<int>)
      requires Valid()
      ensures fresh(store) && Valid() && State() == old(State()) && store.tokens == manifest
      ensures var spec := ReadIntAt(manifest, 0);
              (spec.Ok? ==> count == Ok(spec.value.0) && store.pos == spec.value.1) && (spec.Err? ==> count.Err?)
    {
      store := new Store.Reader(manifest);
      count := store.ReadInt();
      assert State() == old(State());
    }

    /** One turn of the loop of loadAllFromDisk: an entry read and handed to
      * loadTableFromDisk; any turns true when the table came from the server.
      * An entry that cannot be read ends the manifest. */
    method NextEntry(store: Store, conn: Option<DbConnection>, worker: string, ghost manifest: seq<Token>,
                     ghost left: nat, ghost start: CacheState, ghost read: seq<ManifestEntry>, anyBefore: bool)
      returns (entry: Result<ManifestEntry>, any: bool, ghost next: seq<ManifestEntry>, ghost nextLeft: nat)
      requires left > 0 && Visiting(manifest, store, left, start, read, anyBefore, conn, worker)
      modifies tables, folder, store
      ensures nextLeft == left - 1
      ensures entry.Err? ==> Valid() && ReadManifest(manifest).1.Failure?
                             && (State(), any) == VisitEntries(Decls(), start, stamps, conn, worker, ReadManifest(manifest).0)
      ensures entry.Ok? ==> Visiting(manifest, store, nextLeft, start, next, any, conn, worker)
    {
      nextLeft := left - 1;
      ghost var pos := store.pos;
      entry := ReadEntry(store);
      if entry.Err? {
        EntriesStop(manifest, pos, left, read);
        return entry, anyBefore, read, nextLeft;
      }
      EntriesNext(manifest, pos, left, read, entry.value);
      var r := LoadTableFromDisk(entry.value.name, entry.value.stamp, conn, worker);
      any := anyBefore || r == Ok(true);
      VisitNext(Decls(), start, stamps, conn, worker, read, entry.value);
      next := read + [entry.value];
    }

    /** saveAllToDisk: per table its name and lastModified written to the
      * manifest store and its own file saved, then the manifest file
      * written. */
    method SaveAllToDisk()
      requires Valid()
      modifies folder
      ensures Valid() && TablesState() == old(TablesState())
      ensures WellFormed(Decls(), TablesState()) && folder.files == SaveAll(Decls(), TablesState(), old(folder.files))
    {
      ValidTablesWellFormed();
      var store := SaveTables();
      WriteManifest(store.tokens);
    }

    /** The loop of saveAllToDisk: every table's file saved and its manifest
      * entry written to a new store. */
    method SaveTables() returns (store: Store)
      requires Valid()
      modifies folder
      ensures fresh(store) && Valid() && TablesState() == old(TablesState()) && WellFormed(Decls(), TablesState())
      ensures store.tokens == EncodeManifest(ManifestOf(Decls(), TablesState()))
      ensures folder.files == TableFiles(Decls(), TablesState(), old(folder.files), |tables|)
    {
      ValidTablesWellFormed();
      ghost var ts := TablesState();
      ghost var entries := ManifestOf(Decls(), ts);
      ghost var files := folder.files;
      store := NewManifestStore();
      var i := 0;
      while i < |tables|
        invariant TablesSaved(i, ts, entries, files) && EntriesWritten(store, |tables|, entries, i)
      {
        SaveTableAt(store, i, ts, entries, files);
        i := i + 1;
      }
      assert entries[..i] == entries;
    }

    /** The cache's side of saveAllToDisk after i turns: the tables as they
      * were and the first i table files saved. */
    ghost predicate TablesSaved(i: nat, ts: seq<TableState>, entries: seq<ManifestEntry>, files: map<string, seq<Token>>)
      reads this, tables, RowObjects(tables), folder
    {
      i <= |tables| && Valid() && TablesState() == ts && WellFormed(Decls(), ts)
      && entries == ManifestOf(Decls(), ts)
      && folder.files == TableFiles(Decls(), ts, files, i)
    }

    /** The manifest store's side after i turns: the count and the first i entries. */
    static ghost predicate EntriesWritten(store: Store, count: int, entries: seq<ManifestEntry>, i: nat)
      reads store
    {
      i <= |entries| && store.tokens == [IntToken(count)] + EncodeEntries(entries[..i])
    }

    /** One turn of the loop of saveAllToDisk: the i-th table's manifest
      * entry written and its file saved. */
    method SaveTableAt(store: Store, i: nat, ghost ts: seq<TableState>, ghost entries: seq<ManifestEntry>,
                       ghost files: map<string, seq<Token>>)
      requires i < |tables| && TablesSaved(i, ts, entries, files) && EntriesWritten(store, |tables|, entries, i)
      modifies store, folder
      ensures TablesSaved(i + 1, ts, entries, files) && EntriesWritten(store, |tables|, entries, i + 1)
    {
      assert ts[i].meta.lastModified == tables[i].lastModified;
      WriteEntry(store, tables[i].tableName, tables[i].lastModified, |tables|, entries, i);
      SaveTableFile(i, ts, entries, files);
    }

    /** The manifest store with the table count written. */
    method NewManifestStore() returns (store: Store)
      requires Valid()
      ensures fresh(store) && store.tokens == [IntToken(|tables|)]
      ensures Valid() && TablesState() == old(TablesState())
    {
      store := new Store.Writer();
      store.WriteInt(|tables|);
      forall j | 0 <= j < |tables|
        ensures tables[j].Valid() && tables[j].State() == old(tables[j].State())
      {
      }
    }

    /** A table's name and lastModified written to the manifest store as its
      * entry, the i-th. */
    static method WriteEntry(store: Store, name: string, stamp: Option<DateTime>, ghost count: int,
                             ghost entries: seq<ManifestEntry>, ghost i: nat)
      requires EntriesWritten(store, count, entries, i) && i < |entries| && entries[i] == ManifestEntry(Some(name), stamp)
      modifies store
      ensures EntriesWritten(store, count, entries, i + 1)
    {
      assert entries[..i + 1] == entries[..i] + [entries[i]];
      EncodeEntriesAppend(entries[..i], entries[i]);
      store.WriteString(Some(name));
      store.WriteDateTime(stamp);
    }

    /** saveToDisk of the i-th table. */
    method SaveTableFile(i: nat, ghost ts: seq<TableState>, ghost entries: seq<ManifestEntry>,
                         ghost files: map<string, seq<Token>>)
      requires i < |tables| && TablesSaved(i, ts, entries, files)
      modifies folder
      ensures TablesSaved(i + 1, ts, entries, files)
    {
      tables[i].SaveToDisk(folder);
      forall j | 0 <= j < |tables|
        ensures tables[j].Valid() && tables[j].State() == old(tables[j].State())
      {
      }
    }

    /** The manifest file written. */
    method WriteManifest(tokens: seq<Token>)
      requires Valid()
      modifies folder
      ensures folder.files == old(folder.files)[Disks.ManifestName := tokens]
      ensures Valid() && TablesState() == old(TablesState())
    {
      folder.files := folder.files[Disks.ManifestName := tokens];
      forall j | 0 <= j < |tables|
        ensures tables[j].Valid() && tables[j].State() == old(tables[j].State())
      {
      }
    }

    /** loadCache: the stamps read from the server; then the snapshot loaded,
      * and saved again when anything changed. A failure to read the stamps
      * ends it before any table is touched. */
    method LoadCache(conn: DbConnection, worker: string) returns (o: Outcome)
      requires Valid()
      modifies this, tables, folder
      ensures Valid()
      ensures (stamps, o) == StampsFromDb(old(stamps), conn)
      ensures o.Failure? ==> State() == old(State())
      ensures o.Success? ==>
                var loaded := AllFromDisk(Decls(), old(State()), stamps, Some(conn), worker);
                TablesState() == loaded.0.tables
                && WellFormed(Decls(), TablesState())
                && folder.files == if loaded.1 then SaveAll(Decls(), TablesState(), loaded.0.files) else loaded.0.files
    {
      o := LoadLastModifiedFromDb(conn);
      assert State() == old(State());
      if o.Failure? {
        return;
      }
      var any := LoadAllFromDisk(Some(conn), worker);
      ValidTablesWellFormed();
      if any {
        SaveAllToDisk();
      }
    }

    /** forceReloadCache: the stamps read from the server, every table read
      * from the server, and the snapshot saved. */
    method ForceReloadCache(conn: DbConnection, worker: string) returns (o: Outcome)
      requires Valid()
      modifies this, tables, folder
      ensures Valid()
      ensures (stamps, o) == StampsFromDb(old(stamps), conn)
      ensures o.Failure? ==> State() == old(State())
      ensures o.Success? ==>
                TablesState() == AllFromDb(Decls(), old(TablesState()), stamps, conn, worker)
                && WellFormed(Decls(), TablesState())
                && folder.files == SaveAll(Decls(), TablesState(), old(folder.files))
    {
      o := LoadLastModifiedFromDb(conn);
      assert State() == old(State());
      if o.Failure? {
        return;
      }
      LoadAllFromDb(conn, worker);
      SaveAllToDisk();
    }
  }
}
