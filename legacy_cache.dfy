/// The cache of the older `table_data` package
/// (de.longri.database.table_data.AbstractCache). It keeps the snapshot layout
/// of the newer cache (a manifest naming every table with its stamp, one file
/// per table) and the same last-modified map, but it differs in three ways:
/// its tables are read one after the other on the caller's thread, so the
/// first failure ends a server read of all tables; it has no offline mode, so
/// the staleness rule always consults the server's stamps; and TABLES stays
/// null until a load runs, so getTable and saveAllToDisk fail on a cache that
/// was never loaded.
module LegacyCache {

  import opened Wrappers
  import opened JavaTime
  import opened PropertyTypes
  import opened BitStores
  import opened Jdbc
  import opened LegacyEntry
  import opened LegacyTable
  import CacheEngine
  import Disks

  type StampMap = CacheEngine.StampMap
  type ManifestEntry = CacheEngine.ManifestEntry

  // ------------------------------------------------------ the tables, as values

  /** What getTables declares about one table: its name, the columns
    * add(ResultSet) reads and the property descriptors of its entries. */
  datatype TableDecl = TableDecl(name: string, columns: seq<string>, kinds: seq<NamedPropertyType>)

  /** The tables and the cache folder. */
  datatype CacheState = CacheState(tables: seq<TableState>, files: map<string, seq<Token>>)

  function Names(decls: seq<TableDecl>): (names: seq<string>)
    ensures |names| == |decls| && forall k :: 0 <= k < |decls| ==> names[k] == decls[k].name
  {
    seq(|decls|, k requires 0 <= k < |decls| => decls[k].name)
  }

  /** getTable: the name is checked first, then that TABLES is set, then
    * the tables are searched as in the newer cache. */
  function FindTable(initialized: bool, decls: seq<TableDecl>, name: Option<string>): (r: Result<nat>)
  {
    if name.Some? && name.value != "" && !initialized then Err(Runtime("Tables not initialized"))
    else CacheEngine.FindTable(Names(decls), name)
  }

  /** The errors of getTable, in the order they are checked, and the table
    * found: the first one with the name. */
  lemma FindTableMeaning(initialized: bool, decls: seq<TableDecl>, name: Option<string>)
    ensures var r := FindTable(initialized, decls, name);
            (name.None? || name.value == "" ==> r == Err(IllegalArgument("Table name cannot be null or empty")))
            && (name.Some? && name.value != "" && !initialized ==> r == Err(Runtime("Tables not initialized")))
            && (name.Some? && name.value != "" && initialized ==>
                  (r.Ok? <==> exists k :: 0 <= k < |decls| && decls[k].name == name.value)
                  && (r.Err? ==> r == Err(Runtime("Table " + name.value + " not found"))))
            && (r.Ok? ==> initialized && name.Some? && r.value < |decls| && decls[r.value].name == name.value
                          && forall k :: 0 <= k < r.value ==> decls[k].name != name.value)
  {
    var names := Names(decls);
    if name.Some? && name.value != "" && initialized {
      if exists k :: 0 <= k < |decls| && decls[k].name == name.value {
        var k :| 0 <= k < |decls| && decls[k].name == name.value;
        assert names[k] == name.value;
      }
    }
  }

  /** loadTableFromDB: the table cleared and filled from its query; a
    * complete read sets its source to DB and its stamp to the one read from
    * the server. A failure keeps the entries appended before it. */
  function TableFromDb(decl: TableDecl, t: TableState, stamps: StampMap, conn: DbConnection): (r: (TableState, Outcome))
  {
    match Query(conn, decl.name)
    case Err(e) => (TableState([], t.source, t.lastModified), Failure(e))
    case Ok(rs) =>
      var rows := EntriesFromResultSet(decl.columns, decl.kinds, rs);
      if rows.1.Failure? then (TableState(rows.0, t.source, t.lastModified), rows.1)
      else (TableState(rows.0, DB, CacheEngine.Lookup(stamps, decl.name)), Success)
  }

  /** The read succeeds exactly when the table is on the server and every
    * result row makes an entry; each entry is the one its row makes; a failed
    * read keeps the source and the stamp. */
  lemma TableFromDbMeaning(decl: TableDecl, t: TableState, stamps: StampMap, conn: DbConnection)
    ensures var r := TableFromDb(decl, t, stamps, conn);
            (r.1.Success? <==> decl.name in conn.server
                               && forall i :: 0 <= i < |conn.server[decl.name]| ==>
                                    FillFrom(decl.columns, decl.kinds, conn.server[decl.name][i], 0).Ok?)
            && (decl.name !in conn.server ==> r.0.rows == [])
            && (decl.name in conn.server ==>
                  |r.0.rows| <= |conn.server[decl.name]|
                  && forall i :: 0 <= i < |r.0.rows| ==>
                       FillFrom(decl.columns, decl.kinds, conn.server[decl.name][i], 0) == Ok(r.0.rows[i]))
            && (r.1.Failure? ==> r.0.source == t.source && r.0.lastModified == t.lastModified)
            && (r.1.Success? ==> r.0.source == DB && r.0.lastModified == CacheEngine.Lookup(stamps, decl.name)
                                 && |r.0.rows| == |conn.server[decl.name]|)
  {
    if decl.name in conn.server {
      EntriesFromResultSetMeaning(decl.columns, decl.kinds, conn.server[decl.name]);
    }
  }

  /** loadAllFromDB from the i-th table on: each table read from the server
    * in turn; the first failure ends the loop, leaving the later tables as
    * they were. */
  function AllFromDbFrom(decls: seq<TableDecl>, tables: seq<TableState>, stamps: StampMap, conn: DbConnection, i: nat)
    : (r: (seq<TableState>, Outcome))
    requires |tables| == |decls| && i <= |decls|
    ensures |r.0| == |tables|
    decreases |decls| - i
  {
    if i == |decls| then (tables, Success)
    else
      var step := TableFromDb(decls[i], tables[i], stamps, conn);
      if step.1.Failure? then (tables[i := step.0], step.1)
      else AllFromDbFrom(decls, tables[i := step.0], stamps, conn, i + 1)
  }

  function AllFromDb(decls: seq<TableDecl>, tables: seq<TableState>, stamps: StampMap, conn: DbConnection)
    : (r: (seq<TableState>, Outcome))
    requires |tables| == |decls|
    ensures |r.0| == |tables|
  {
    AllFromDbFrom(decls, tables, stamps, conn, 0)
  }

  /** Whether a table's read succeeds does not depend on what the table held. */
  predicate ReadsCleanly(decl: TableDecl, stamps: StampMap, conn: DbConnection)
  {
    TableFromDb(decl, TableState([], Unknown, None), stamps, conn).1.Success?
  }

  lemma ReadsCleanlyAnyState(decl: TableDecl, t: TableState, stamps: StampMap, conn: DbConnection)
    ensures TableFromDb(decl, t, stamps, conn).1.Success? <==> ReadsCleanly(decl, stamps, conn)
  {
  }

  /** The loop fails exactly when some table from i on cannot be read; every
    * table up to and including the first that cannot be read is the result
    * of its own read, the tables after it and before i are kept. */
  lemma {:induction false} AllFromDbFromMeaning(decls: seq<TableDecl>, tables: seq<TableState>, stamps: StampMap,
                                                conn: DbConnection, i: nat)
    requires |tables| == |decls| && i <= |decls|
    ensures var r := AllFromDbFrom(decls, tables, stamps, conn, i);
            (r.1.Success? <==> forall k :: i <= k < |decls| ==> ReadsCleanly(decls[k], stamps, conn))
            && (forall k :: 0 <= k < i ==> r.0[k] == tables[k])
            && (forall k :: i <= k < |decls| ==>
                  if forall j :: i <= j < k ==> ReadsCleanly(decls[j], stamps, conn)
                  then r.0[k] == TableFromDb(decls[k], tables[k], stamps, conn).0
                  else r.0[k] == tables[k])
    decreases |decls| - i
  {
    if i < |decls| {
      ReadsCleanlyAnyState(decls[i], tables[i], stamps, conn);
      var step := TableFromDb(decls[i], tables[i], stamps, conn);
      if step.1.Success? {
        AllFromDbFromMeaning(decls, tables[i := step.0], stamps, conn, i + 1);
      }
    }
  }

  // ------------------------------------------------------ the manifest

  /** The entries of a manifest as this cache reads them: the count, then
    * that many entries; a negative count is a loop that never runs. */
  function ReadManifest(ts: seq<Token>): (r: (seq<ManifestEntry>, Outcome))
  {
    match ReadIntAt(ts, 0)
    case Err(e) => ([], Failure(e))
    case Ok(count) => CacheEngine.ReadEntries(ts, count.1, Pad(count.0))
  }

  /** Both caches read a manifest with a count of zero or more alike; a
    * negative count is an empty manifest here and a failure in the newer
    * cache. */
  lemma ReadManifestAgainstNewer(ts: seq<Token>)
    ensures ReadIntAt(ts, 0).Ok? && ReadIntAt(ts, 0).value.0 >= 0 ==> ReadManifest(ts) == CacheEngine.ReadManifest(ts)
    ensures ReadIntAt(ts, 0).Ok? && ReadIntAt(ts, 0).value.0 < 0 ==>
              ReadManifest(ts) == ([], Success) && CacheEngine.ReadManifest(ts).1.Failure?
    ensures ReadIntAt(ts, 0).Err? ==> ReadManifest(ts) == CacheEngine.ReadManifest(ts)
  {
  }

  /** The manifest written is the manifest read. */
  lemma ManifestRoundTrip(entries: seq<ManifestEntry>)
    ensures ReadManifest(CacheEngine.EncodeManifest(entries)) == (entries, Success)
  {
    CacheEngine.ManifestRoundTrip(entries);
    ReadManifestAgainstNewer(CacheEngine.EncodeManifest(entries));
  }

  // ------------------------------------------------------ loadAllFromDisk

  /** One pass of the loop of loadAllFromDisk once the table is found: the
    * table cleared; a server stamp that is missing or newer than the
    * snapshot's sends it to the server, otherwise it is read from its file;
    * then it gets the server's stamp. The result tells whether it came from
    * the server; a missing snapshot stamp next to a server stamp and a failed
    * server read are errors. */
  function TableStep(decl: TableDecl, t: TableState, files: map<string, seq<Token>>, stamps: StampMap,
                     conn: DbConnection, diskStamp: Option<DateTime>)
    : (r: (TableState, map<string, seq<Token>>, Result<bool>))
  {
    var cleared := TableState([], t.source, t.lastModified);
    match CacheEngine.LoadsFromDb(true, CacheEngine.Lookup(stamps, decl.name), diskStamp)
    case Err(e) => (cleared, files, Err(e))
    case Ok(fromDb) =>
      if fromDb then
        var db := TableFromDb(decl, cleared, stamps, conn);
        (db.0, files, if db.1.Success? then Ok(true) else Err(db.1.error))
      else
        var d := DiskLoad(decl.kinds, decl.name, files);
        (TableState(d.0, Disk, CacheEngine.Lookup(stamps, decl.name)), d.1, Ok(false))
  }

  /** The step's outcome: from the server exactly under the staleness rule
    * with a read that succeeds, the folder touched only by a file read, and
    * the server's stamp whenever nothing failed. */
  lemma TableStepMeaning(decl: TableDecl, t: TableState, files: map<string, seq<Token>>, stamps: StampMap,
                         conn: DbConnection, diskStamp: Option<DateTime>)
    ensures var r := TableStep(decl, t, files, stamps, conn, diskStamp);
            var dbStamp := CacheEngine.Lookup(stamps, decl.name);
            (r.2.Ok? ==> r.0.lastModified == dbStamp)
            && (r.2 == Ok(true) <==> CacheEngine.LoadsFromDb(true, dbStamp, diskStamp) == Ok(true)
                                     && ReadsCleanly(decl, stamps, conn))
            && (r.2 == Ok(true) ==> r.1 == files && r.0.source == DB)
            && (r.2 == Ok(false) ==> r.0.source == Disk && r.0.rows == DiskLoad(decl.kinds, decl.name, files).0)
            && (dbStamp.Some? && diskStamp.None? ==> r.2 == Err(NullPointer))
  {
    ReadsCleanlyAnyState(decl, TableState([], t.source, t.lastModified), stamps, conn);
  }

  /** One manifest entry: the step above on the table it names; a name no
    * table has is an error that changes nothing. */
  function TableFromDisk(decls: seq<TableDecl>, st: CacheState, stamps: StampMap, conn: DbConnection,
                         entry: ManifestEntry): (r: (CacheState, Result<bool>))
    requires |st.tables| == |decls|
    ensures |r.0.tables| == |decls|
  {
    match FindTable(true, decls, entry.name)
    case Err(e) => (st, Err(e))
    case Ok(k) =>
      var step := TableStep(decls[k], st.tables[k], st.files, stamps, conn, entry.stamp);
      (CacheState(st.tables[k := step.0], step.1), step.2)
  }

  /** The manifest's entries handled one after the other: the state after
    * them, whether any table came from the server, and the failure that ended
    * the loop if one did. */
  function VisitEntries(decls: seq<TableDecl>, st: CacheState, stamps: StampMap, conn: DbConnection,
                        entries: seq<ManifestEntry>): (r: (CacheState, bool, Outcome))
    requires |st.tables| == |decls|
    ensures |r.0.tables| == |decls|
    decreases |entries|
  {
    if entries == [] then (st, false, Success)
    else
      var before := VisitEntries(decls, st, stamps, conn, entries[..|entries| - 1]);
      if before.2.Failure? then before
      else
        var last := TableFromDisk(decls, before.0, stamps, conn, entries[|entries| - 1]);
        (last.0, before.1 || last.1 == Ok(true), if last.1.Err? then Failure(last.1.error) else Success)
  }

  /** loadAllFromDisk: without a manifest, every table from the server and a
    * change reported; with one, its entries visited; a manifest that cannot
    * be read or an entry that fails empties the cache folder, reads every
    * table from the server and reports a change. A failure of that server
    * read is the failure of the whole. */
  function AllFromDisk(decls: seq<TableDecl>, st: CacheState, stamps: StampMap, conn: DbConnection)
    : (r: (CacheState, bool, Outcome))
    requires |st.tables| == |decls|
    ensures |r.0.tables| == |decls|
  {
    if Disks.ManifestName !in st.files then
      var db := AllFromDb(decls, st.tables, stamps, conn);
      (st.(tables := db.0), true, db.1)
    else
      var manifest := ReadManifest(st.files[Disks.ManifestName]);
      var visited := VisitEntries(decls, st, stamps, conn, manifest.0);
      if manifest.1.Success? && visited.2.Success? then visited
      else
        var db := AllFromDb(decls, visited.0.tables, stamps, conn);
        (CacheState(db.0, map[]), true, db.1)
  }

  /** A missing, unreadable or failing snapshot always reports a change, and
    * after a broken one the cache folder is empty. */
  lemma SnapshotFallback(decls: seq<TableDecl>, st: CacheState, stamps: StampMap, conn: DbConnection)
    requires |st.tables| == |decls|
    ensures var r := AllFromDisk(decls, st, stamps, conn);
            (Disks.ManifestName !in st.files ==> r.1)
            && (Disks.ManifestName in st.files ==>
                  var manifest := ReadManifest(st.files[Disks.ManifestName]);
                  manifest.1.Failure? || VisitEntries(decls, st, stamps, conn, manifest.0).2.Failure? ==>
                    r.1 && r.0.files == map[])
  {
  }

  /** Entry i of the manifest is reached (no entry before it failed) and
    * brings its table from the server. */
  predicate ServerLoadAt(decls: seq<TableDecl>, st: CacheState, stamps: StampMap, conn: DbConnection,
                         entries: seq<ManifestEntry>, i: nat)
    requires |st.tables| == |decls| && i < |entries|
  {
    var before := VisitEntries(decls, st, stamps, conn, entries[..i]);
    before.2.Success? && TableFromDisk(decls, before.0, stamps, conn, entries[i]).1 == Ok(true)
  }

  /** The visit reports a change exactly when some entry it reached brought
    * its table from the server. */
  lemma {:induction false} VisitReportsServerLoads(decls: seq<TableDecl>, st: CacheState, stamps: StampMap,
                                                   conn: DbConnection, entries: seq<ManifestEntry>)
    requires |st.tables| == |decls|
    ensures (VisitEntries(decls, st, stamps, conn, entries).1)
              <==> (exists i :: 0 <= i < |entries| && ServerLoadAt(decls, st, stamps, conn, entries, i))
    decreases |entries|
  {
    if entries != [] {
      var n := |entries|;
      var front := entries[..n - 1];
      assert entries[..n - 1] == front;
      VisitReportsServerLoads(decls, st, stamps, conn, front);
      forall i | 0 <= i < n - 1
        ensures ServerLoadAt(decls, st, stamps, conn, entries, i) == ServerLoadAt(decls, st, stamps, conn, front, i)
      {
        assert entries[..i] == front[..i];
      }
      var before := VisitEntries(decls, st, stamps, conn, front);
      var last := TableFromDisk(decls, before.0, stamps, conn, entries[n - 1]);
      var r := VisitEntries(decls, st, stamps, conn, entries);
      assert r.1 == (before.1 || (before.2.Success? && last.1 == Ok(true)));
      assert ServerLoadAt(decls, st, stamps, conn, entries, n - 1) == (before.2.Success? && last.1 == Ok(true));
      if r.1 {
        if before.1 {
          var i :| 0 <= i < n - 1 && ServerLoadAt(decls, st, stamps, conn, front, i);
          assert ServerLoadAt(decls, st, stamps, conn, entries, i);
        } else {
          assert ServerLoadAt(decls, st, stamps, conn, entries, n - 1);
        }
      } else {
        forall i | 0 <= i < n ensures !ServerLoadAt(decls, st, stamps, conn, entries, i) {
          if i < n - 1 {
            assert !ServerLoadAt(decls, st, stamps, conn, front, i);
          }
        }
      }
    }
  }

  /** loadAllFromDisk reports a change exactly when there is no manifest, the
    * manifest cannot be read, an entry fails, or an entry reached brings its
    * table from the server. */
  lemma AllFromDiskChanged(decls: seq<TableDecl>, st: CacheState, stamps: StampMap, conn: DbConnection)
    requires |st.tables| == |decls|
    ensures (AllFromDisk(decls, st, stamps, conn).1)
              <==> (Disks.ManifestName !in st.files
                    || (var manifest := ReadManifest(st.files[Disks.ManifestName]);
                        manifest.1.Failure? || VisitEntries(decls, st, stamps, conn, manifest.0).2.Failure?
                        || exists i :: 0 <= i < |manifest.0| && ServerLoadAt(decls, st, stamps, conn, manifest.0, i)))
  {
    if Disks.ManifestName in st.files {
      VisitReportsServerLoads(decls, st, stamps, conn, ReadManifest(st.files[Disks.ManifestName]).0);
    }
  }

  /** A failed entry ends the loop: later entries change nothing. */
  lemma {:induction false} VisitStopsAtFailure(decls: seq<TableDecl>, st: CacheState, stamps: StampMap,
                                               conn: DbConnection, entries: seq<ManifestEntry>, more: seq<ManifestEntry>)
    requires |st.tables| == |decls|
    requires VisitEntries(decls, st, stamps, conn, entries).2.Failure?
    ensures VisitEntries(decls, st, stamps, conn, entries + more) == VisitEntries(decls, st, stamps, conn, entries)
    decreases |more|
  {
    if more == [] {
      assert entries + more == entries;
    } else {
      var front := more[..|more| - 1];
      assert entries + more == (entries + front) + [more[|more| - 1]];
      VisitStopsAtFailure(decls, st, stamps, conn, entries, front);
      VisitNext(decls, st, stamps, conn, entries + front, more[|more| - 1]);
    }
  }

  /** A failed entry ends the visit of a manifest read in full. */
  lemma VisitStopsInManifest(decls: seq<TableDecl>, st: CacheState, stamps: StampMap, conn: DbConnection,
                             m: (seq<ManifestEntry>, Outcome), read: seq<ManifestEntry>, rest: (seq<ManifestEntry>, Outcome))
    requires |st.tables| == |decls| && m == (read + rest.0, rest.1)
    requires VisitEntries(decls, st, stamps, conn, read).2.Failure?
    ensures VisitEntries(decls, st, stamps, conn, m.0) == VisitEntries(decls, st, stamps, conn, read)
  {
    VisitStopsAtFailure(decls, st, stamps, conn, read, rest.0);
  }

  lemma VisitNext(decls: seq<TableDecl>, st: CacheState, stamps: StampMap, conn: DbConnection,
                  entries: seq<ManifestEntry>, e: ManifestEntry)
    requires |st.tables| == |decls|
    ensures var before := VisitEntries(decls, st, stamps, conn, entries);
            var last := TableFromDisk(decls, before.0, stamps, conn, e);
            VisitEntries(decls, st, stamps, conn, entries + [e])
              == if before.2.Failure? then before
                 else (last.0, before.1 || last.1 == Ok(true), if last.1.Err? then Failure(last.1.error) else Success)
  {
    assert (entries + [e])[..|entries|] == entries;
  }

  // ------------------------------------------------------ saveAllToDisk

  /** The tables' entries are theirs to write. */
  predicate WellFormed(decls: seq<TableDecl>, tables: seq<TableState>)
  {
    |tables| == |decls| && forall k :: 0 <= k < |decls| ==> AllRowsValid(tables[k].rows)
  }

  /** The manifest entries of the tables: each name with its lastModified. */
  function ManifestOf(decls: seq<TableDecl>, tables: seq<TableState>): (entries: seq<ManifestEntry>)
    requires |tables| == |decls|
    ensures |entries| == |decls|
    ensures forall k :: 0 <= k < |decls| ==>
              entries[k] == CacheEngine.ManifestEntry(Some(decls[k].name), tables[k].lastModified)
  {
    seq(|decls|, k requires 0 <= k < |decls| => CacheEngine.ManifestEntry(Some(decls[k].name), tables[k].lastModified))
  }

  /** The manifest entries of the first i + 1 tables: those of the first i,
    * then the i-th table's name and stamp. */
  lemma ManifestStep(decls: seq<TableDecl>, tables: seq<TableState>, i: nat)
    requires |tables| == |decls| && i < |decls|
    ensures var entries := ManifestOf(decls, tables);
            CacheEngine.EncodeEntries(entries[..i + 1])
            == CacheEngine.EncodeEntries(entries[..i]) + [StringToken(Some(decls[i].name)), DateTimeToken(tables[i].lastModified)]
  {
    var entries := ManifestOf(decls, tables);
    assert entries[..i + 1] == entries[..i] + [entries[i]];
    CacheEngine.EncodeEntriesAppend(entries[..i], entries[i]);
  }

  /** The folder after the first n tables have written their files. */
  function TableFiles(decls: seq<TableDecl>, tables: seq<TableState>, files: map<string, seq<Token>>, n: nat)
    : (r: map<string, seq<Token>>)
    requires WellFormed(decls, tables) && n <= |decls|
    ensures forall k :: 0 <= k < n ==> Disks.CacheFileName(decls[k].name) in r
    ensures forall f :: f in files ==> f in r
  {
    if n == 0 then files
    else TableFiles(decls, tables, files, n - 1)[Disks.CacheFileName(decls[n - 1].name) := EncodeTable(tables[n - 1].rows)]
  }

  /** saveAllToDisk: every table's file, in order, then the manifest. */
  function SaveAll(decls: seq<TableDecl>, tables: seq<TableState>, files: map<string, seq<Token>>)
    : (r: map<string, seq<Token>>)
    requires WellFormed(decls, tables)
    ensures Disks.ManifestName in r && ReadManifest(r[Disks.ManifestName]) == (ManifestOf(decls, tables), Success)
    ensures forall k :: 0 <= k < |decls| ==> Disks.CacheFileName(decls[k].name) in r
  {
    ManifestRoundTrip(ManifestOf(decls, tables));
    TableFiles(decls, tables, files, |decls|)[Disks.ManifestName := CacheEngine.EncodeManifest(ManifestOf(decls, tables))]
  }

  /** Tables each stamped with the server's stamp for their name, and every
    * such stamp present: what a complete load leaves. */
  predicate StampedAsServer(decls: seq<TableDecl>, tables: seq<TableState>, stamps: StampMap)
    requires |tables| == |decls|
  {
    forall k :: 0 <= k < |decls| ==>
      tables[k].lastModified == CacheEngine.Lookup(stamps, decls[k].name) && tables[k].lastModified.Some?
  }

  /** Entries naming known tables, each with the server's present stamp for
    * that name, never send a table to the server and never fail. */
  lemma {:induction false} VisitCurrentEntries(decls: seq<TableDecl>, st: CacheState, stamps: StampMap,
                                               conn: DbConnection, entries: seq<ManifestEntry>)
    requires |st.tables| == |decls|
    requires forall i :: 0 <= i < |entries| ==>
               entries[i].name.Some? && entries[i].name.value != "" && (exists k :: 0 <= k < |decls| && decls[k].name == entries[i].name.value)
               && entries[i].stamp == CacheEngine.Lookup(stamps, entries[i].name.value) && entries[i].stamp.Some?
    ensures var r := VisitEntries(decls, st, stamps, conn, entries);
            !r.1 && r.2.Success?
    decreases |entries|
  {
    if entries != [] {
      var front := entries[..|entries| - 1];
      assert forall i :: 0 <= i < |front| ==> front[i] == entries[i];
      VisitCurrentEntries(decls, st, stamps, conn, front);
      var before := VisitEntries(decls, st, stamps, conn, front);
      var e := entries[|entries| - 1];
      assert entries == front + [e];
      VisitNext(decls, st, stamps, conn, front, e);
      FindTableMeaning(true, decls, e.name);
      var k := FindTable(true, decls, e.name).value;
      IsAfterTrichotomy(e.stamp.value, e.stamp.value);
      assert decls[k].name == e.name.value;
      assert TableStep(decls[k], before.0.tables[k], before.0.files, stamps, conn, e.stamp).2 == Ok(false);
    }
  }

  /** A snapshot saved right after a complete load, reloaded while the
    * server's stamps are unchanged, is used as it is: no table comes from
    * the server and no change is reported. */
  lemma SavedSnapshotReloadsUnchanged(decls: seq<TableDecl>, tables: seq<TableState>,
                                      files: map<string, seq<Token>>, stamps: StampMap, conn: DbConnection)
    requires WellFormed(decls, tables) && StampedAsServer(decls, tables, stamps)
    requires forall k :: 0 <= k < |decls| ==> decls[k].name != ""
    ensures var r := AllFromDisk(decls, CacheState(tables, SaveAll(decls, tables, files)), stamps, conn);
            !r.1 && r.2.Success?
  {
    var entries := ManifestOf(decls, tables);
    forall i | 0 <= i < |entries|
      ensures exists k :: 0 <= k < |decls| && decls[k].name == entries[i].name.value
    {
      assert decls[i].name == entries[i].name.value;
    }
    VisitCurrentEntries(decls, CacheState(tables, SaveAll(decls, tables, files)), stamps, conn, entries);
  }

  // ------------------------------------------------------ the cache object

  class Cache {
    /** What getTables returns; chkTables puts it into TABLES. */
    const declared: seq<Table>
    /** The cache folder, CACHE_FOLDER. */
    const folder: Disks.Disk
    /** Whether TABLES is set (it is null until chkTables runs). */
    var initialized: bool
    /** LAST_MODIFY_MAP. */
    var stamps: StampMap

    ghost predicate Valid()
      reads declared
    {
      (forall i, j :: 0 <= i < j < |declared| ==> declared[i] != declared[j])
      && forall k :: 0 <= k < |declared| ==> declared[k].Valid()
    }

    /** Each table's name, columns and property descriptors. */
    function Decls(): (decls: seq<TableDecl>)
      ensures |decls| == |declared|
      ensures forall k :: 0 <= k < |declared| ==>
                decls[k] == TableDecl(declared[k].tableName, declared[k].columnNames, declared[k].kinds)
    {
      seq(|declared|, k requires 0 <= k < |declared| =>
            TableDecl(declared[k].tableName, declared[k].columnNames, declared[k].kinds))
    }

    /** Each table's entries and fields, as values. */
    function TablesState(): (states: seq<TableState>)
      reads declared
      ensures |states| == |declared|
      ensures forall k :: 0 <= k < |declared| ==> states[k] == declared[k].State()
    {
      seq(|declared|, k requires 0 <= k < |declared| reads declared => declared[k].State())
    }

    /** The entries of valid tables can be written. */
    lemma ValidTablesWellFormed()
      requires Valid()
      ensures WellFormed(Decls(), TablesState())
    {
      forall k | 0 <= k < |declared|
        ensures AllRowsValid(declared[k].Rows())
      {
      }
    }

    /** The tables and the cache folder, as values. */
    function State(): CacheState
      reads declared, folder
    {
      CacheState(TablesState(), folder.files)
    }

    /** AbstractCache(cacheFolder): TABLES still null, an empty
      * last-modified map. */
    constructor (declared: seq<Table>, folder: Disks.Disk)
      requires forall i, j :: 0 <= i < j < |declared| ==> declared[i] != declared[j]
      requires forall k :: 0 <= k < |declared| ==> declared[k].Valid()
      ensures Valid() && this.declared == declared && this.folder == folder
      ensures !initialized && stamps == map[]
    {
      this.declared := declared;
      this.folder := folder;
      initialized := false;
      stamps := map[];
    }

    /** chkTables: TABLES set from getTables when it is still null. */
    method ChkTables()
      modifies this
      ensures initialized && stamps == old(stamps)
    {
      if !initialized {
        initialized := true;
      }
    }

    /** getTable. */
    method GetTable(name: Option<string>) returns (r: Result<Table>)
      ensures var spec := FindTable(initialized, Decls(), name);
              (spec.Ok? ==> r == Ok(declared[spec.value])) && (spec.Err? ==> r == Err(spec.error))
    {
      if name.None? || name.value == "" {
        return Err(IllegalArgument("Table name cannot be null or empty"));
      }
      if !initialized {
        return Err(Runtime("Tables not initialized"));
      }
      var i := 0;
      while i < |declared|
        invariant 0 <= i <= |declared|
        invariant forall k :: 0 <= k < i ==> Decls()[k].name != name.value
      {
        if declared[i].tableName == name.value {
          assert CacheEngine.FirstNamed(Names(Decls()), name.value, 0) == Some(i);
          return Ok(declared[i]);
        }
        i := i + 1;
      }
      return Err(Runtime("Table " + name.value + " not found"));
    }

    /** loadLAstModifiedFromDB: the rows of last_modified put into the map one
      * by one; a row that cannot be read ends the loop with its error. */
    method LoadLastModifiedFromDb(conn: DbConnection) returns (o: Outcome)
      modifies this
      ensures (stamps, o) == CacheEngine.StampsFromDb(old(stamps), conn) && initialized == old(initialized)
    {
      var q := Query(conn, LastModifiedTable);
      if q.Err? {
        return Failure(q.error);
      }
      var rows := q.value;
      var i := 0;
      while i < |rows|
        invariant 0 <= i <= |rows| && initialized == old(initialized)
        invariant CacheEngine.MergeStamps(old(stamps), rows) == CacheEngine.MergeStamps(stamps, rows[i..])
      {
        assert rows[i..][0] == rows[i] && rows[i..][1..] == rows[i + 1..];
        var entry := CacheEngine.StampEntry(rows[i]);
        if entry.Err? {
          return Failure(entry.error);
        }
        stamps := stamps[entry.value.0 := entry.value.1];
        i := i + 1;
      }
      return Success;
    }

    /** loadTableFromDB: the table cleared and filled from its query; after a
      * complete read, its source and stamp set. */
    method LoadTableFromDb(conn: DbConnection, table: Table) returns (o: Outcome)
      requires table.Valid()
      modifies table
      ensures table.Valid()
      ensures var spec := TableFromDb(TableDecl(table.tableName, table.columnNames, table.kinds), old(table.State()), stamps, conn);
              table.State() == spec.0 && o == spec.1
    {
      table.Clear();
      var q := Query(conn, table.tableName);
      if q.Err? {
        return Failure(q.error);
      }
      o := table.AddResultSet(q.value);
      if o.Failure? {
        return;
      }
      table.source := DB;
      table.SetDbLastModify(CacheEngine.Lookup(stamps, table.tableName));
    }

    /** loadAllFromDB: chkTables, then every table read from the server in
      * turn; the first failure ends the loop and is the result. */
    method LoadAllFromDb(conn: DbConnection) returns (o: Outcome)
      requires Valid()
      modifies this, declared
      ensures Valid() && initialized && stamps == old(stamps)
      ensures (TablesState(), o) == AllFromDb(Decls(), old(TablesState()), stamps, conn)
    {
      ChkTables();
      assert TablesState() == old(TablesState());
      var i := 0;
      while i < |declared|
        invariant 0 <= i <= |declared| && Valid() && initialized && stamps == old(stamps)
        invariant AllFromDb(Decls(), old(TablesState()), stamps, conn) == AllFromDbFrom(Decls(), TablesState(), stamps, conn, i)
      {
        o := LoadTableAt(conn, i);
        if o.Failure? {
          return;
        }
        i := i + 1;
      }
      return Success;
    }

    /** One turn of the loop of loadAllFromDB: the i-th table read, and the
      * loop's result from i on unchanged. */
    method LoadTableAt(conn: DbConnection, i: nat) returns (o: Outcome)
      requires Valid() && i < |declared|
      modifies declared[i]
      ensures Valid()
      ensures var step := TableFromDb(Decls()[i], old(TablesState())[i], stamps, conn);
              TablesState() == old(TablesState())[i := step.0] && o == step.1
              && AllFromDbFrom(Decls(), old(TablesState()), stamps, conn, i)
                 == if o.Failure? then (TablesState(), o) else AllFromDbFrom(Decls(), TablesState(), stamps, conn, i + 1)
    {
      o := LoadTableFromDb(conn, declared[i]);
      forall j | 0 <= j < |declared| && j != i
        ensures declared[j].Valid() && declared[j].State() == old(declared[j].State())
      {
        assert declared[j] != declared[i];
      }
      assert TablesState() == old(TablesState())[i := declared[i].State()];
    }

    /** loadAllFromDisk: chkTables; without a manifest every table from the
      * server; with one, its entries visited, and a manifest that cannot be
      * read or an entry that fails empties the cache folder and sends every
      * table to the server. The result tells whether anything changed; a
      * failure of a server read of all tables is the failure of the whole. */
    method LoadAllFromDisk(conn: DbConnection) returns (any: bool, o: Outcome)
      requires Valid()
      modifies this, declared, folder
      ensures Valid() && initialized && stamps == old(stamps)
      ensures (State(), any, o) == AllFromDisk(Decls(), old(State()), stamps, conn)
    {
      ChkTables();
      assert State() == old(State());
      if Disks.ManifestName !in folder.files {
        o := LoadAllFromDb(conn);
        return true, o;
      }
      var failed;
      any, failed := VisitManifest(folder.files[Disks.ManifestName], conn);
      o := Success;
      if failed {
        ghost var visited := TablesState();
        folder.files := map[];
        assert TablesState() == visited;
        o := LoadAllFromDb(conn);
        any := true;
      }
    }

    /** The try block of loadAllFromDisk: the table count, then per entry its
      * name and stamp and the table refreshed; the first failure ends it. */
    method VisitManifest(manifest: seq<Token>, conn: DbConnection) returns (any: bool, failed: bool)
      requires Valid() && initialized
      modifies declared, folder
      ensures Valid()
      ensures var m := ReadManifest(manifest);
              var v := VisitEntries(Decls(), old(State()), stamps, conn, m.0);
              failed == (m.1.Failure? || v.2.Failure?) && State() == v.0 && any == v.1
    {
      var store, count := OpenManifest(manifest);
      if count.Err? {
        assert VisitEntries(Decls(), old(State()), stamps, conn, []) == (State(), false, Success);
        return false, true;
      }
      if count.value < 0 {
        assert VisitEntries(Decls(), old(State()), stamps, conn, []) == (State(), false, Success);
        return false, false;
      }
      CacheEngine.ManifestStart(manifest, count.value);
      ghost var entries := CacheEngine.ReadEntries(manifest, 1, count.value);
      assert ReadManifest(manifest) == entries by {
        assert [] + entries.0 == entries.0;
      }
      any, failed := VisitLoop(store, conn, count.value, entries, old(State()));
    }

    /** The loop of loadAllFromDisk over the n entries the store holds. */
    method VisitLoop(store: Store, conn: DbConnection, n: int, ghost m: (seq<ManifestEntry>, Outcome),
                     ghost start: CacheState) returns (any: bool, failed: bool)
      requires Valid() && initialized && n >= 0 && State() == start
      requires m == CacheEngine.ReadEntries(store.tokens, store.pos, n)
      modifies declared, folder, store
      ensures Valid()
      ensures var v := VisitEntries(Decls(), start, stamps, conn, m.0);
              failed == (m.1.Failure? || v.2.Failure?) && State() == v.0 && any == v.1
    {
      ghost var manifest := store.tokens;
      ghost var read: seq<ManifestEntry> := [];
      assert read + m.0 == m.0;
      any := false;
      var i := 0;
      while i < n
        invariant 0 <= i <= n && Valid() && store.tokens == manifest
        invariant var rest := CacheEngine.ReadEntries(manifest, store.pos, n - i);
                  m == (read + rest.0, rest.1)
        invariant (State(), any, Success) == VisitEntries(Decls(), start, stamps, conn, read)
      {
        var stop;
        any, stop, read := VisitStep(store, conn, n - i, m, start, read, any);
        if stop {
          return any, true;
        }
        i := i + 1;
      }
      CacheEngine.EntriesDone(manifest, store.pos, read);
      failed := false;
    }

    /** One turn of the loop of loadAllFromDisk with k entries left: the
      * next entry read and visited; stop when the read or the visit failed. */
    method VisitStep(store: Store, conn: DbConnection, k: nat, ghost m: (seq<ManifestEntry>, Outcome),
                     ghost start: CacheState, ghost read: seq<ManifestEntry>, anyBefore: bool)
      returns (any: bool, stop: bool, ghost next: seq<ManifestEntry>)
      requires Valid() && initialized && |start.tables| == |declared| && k > 0
      requires var rest := CacheEngine.ReadEntries(store.tokens, store.pos, k); m == (read + rest.0, rest.1)
      requires (State(), anyBefore, Success) == VisitEntries(Decls(), start, stamps, conn, read)
      modifies declared, folder, store
      ensures Valid() && store.tokens == old(store.tokens)
      ensures stop ==> var v := VisitEntries(Decls(), start, stamps, conn, m.0);
                       (m.1.Failure? || v.2.Failure?) && State() == v.0 && any == v.1
      ensures !stop ==> (var rest := CacheEngine.ReadEntries(store.tokens, store.pos, k - 1); m == (next + rest.0, rest.1))
                        && (State(), any, Success) == VisitEntries(Decls(), start, stamps, conn, next)
    {
      ghost var manifest := store.tokens;
      ghost var pos := store.pos;
      var entry, r;
      entry, any, r := NextEntry(store, conn, start, read, anyBefore);
      if entry.Err? {
        CacheEngine.EntriesStop(manifest, pos, k, read);
        return any, true, read;
      }
      CacheEngine.EntriesNext(manifest, pos, k, read, entry.value);
      next := read + [entry.value];
      ghost var rest := CacheEngine.ReadEntries(manifest, store.pos, k - 1);
      assert m == (next + rest.0, rest.1);
      stop := r.Err?;
      if stop {
        assert VisitEntries(Decls(), start, stamps, conn, next).2.Failure?;
        VisitStopsInManifest(Decls(), start, stamps, conn, m, next, rest);
      }
    }

    /** The manifest opened as a bit store and its table count read. */
    method OpenManifest(manifest: seq<Token>) returns (store: Store, count: Result<int>)
      requires Valid()
      ensures fresh(store) && Valid() && State() == old(State()) && store.tokens == manifest
      ensures var spec := ReadIntAt(manifest, 0);
              (spec.Ok? ==> count == Ok(spec.value.0) && store.pos == spec.value.1) && (spec.Err? ==> count.Err?)
    {
      store := new Store.Reader(manifest);
      count := store.ReadInt();
      assert State() == old(State());
    }

    /** One manifest entry read with readString and readLocalDateTime. */
    method ReadEntry(store: Store) returns (r: Result<ManifestEntry>)
      requires Valid()
      modifies store
      ensures Valid() && State() == old(State()) && store.tokens == old(store.tokens)
      ensures var spec := CacheEngine.ReadEntryAt(store.tokens, old(store.pos));
              (spec.Ok? ==> r == Ok(spec.value.0) && store.pos == spec.value.1) && (spec.Err? ==> r.Err?)
    {
      var name := store.ReadString();
      if name.Err? {
        return Err(name.error);
      }
      var stamp := store.ReadDateTime();
      assert State() == old(State());
      if stamp.Err? {
        return Err(stamp.error);
      }
      return Ok(CacheEngine.ManifestEntry(name.value, stamp.value));
    }

    /** One turn of the loop of loadAllFromDisk: an entry read, its table
      * found and refreshed; any turns true when the table came from the
      * server. */
    method NextEntry(store: Store, conn: DbConnection, ghost start: CacheState, ghost read: seq<ManifestEntry>,
                     anyBefore: bool)
      returns (entry: Result<ManifestEntry>, any: bool, r: Result<bool>)
      requires Valid() && initialized && |start.tables| == |declared|
      requires (State(), anyBefore, Success) == VisitEntries(Decls(), start, stamps, conn, read)
      modifies declared, folder, store
      ensures Valid() && store.tokens == old(store.tokens)
      ensures var spec := CacheEngine.ReadEntryAt(store.tokens, old(store.pos));
              (spec.Err? ==> entry.Err? && State() == old(State()) && any == anyBefore)
              && (spec.Ok? ==> entry == Ok(spec.value.0) && store.pos == spec.value.1
                               && (State(), any, if r.Err? then Failure(r.error) else Success)
                                    == VisitEntries(Decls(), start, stamps, conn, read + [spec.value.0]))
    {
      entry := ReadEntry(store);
      if entry.Err? {
        return entry, anyBefore, Ok(false);
      }
      r := LoadTableFromDisk(entry.value.name, entry.value.stamp, conn);
      any := anyBefore || r == Ok(true);
      VisitNext(Decls(), start, stamps, conn, read, entry.value);
    }

    /** The body of the loop of loadAllFromDisk after the entry is read: the
      * table found with getTable and refreshed. */
    method LoadTableFromDisk(name: Option<string>, diskStamp: Option<DateTime>, conn: DbConnection)
      returns (r: Result<bool>)
      requires Valid() && initialized
      modifies declared, folder
      ensures Valid()
      ensures (State(), r) == TableFromDisk(Decls(), old(State()), stamps, conn, CacheEngine.ManifestEntry(name, diskStamp))
    {
      var g := GetTable(name);
      if g.Err? {
        assert FindTable(true, Decls(), name).Err? && State() == old(State());
        return Err(g.error);
      }
      ghost var k := FindTable(true, Decls(), name).value;
      ghost var st := State();
      assert st == old(State());
      ghost var step := TableStep(Decls()[k], st.tables[k], st.files, stamps, conn, diskStamp);
      assert TableFromDisk(Decls(), st, stamps, conn, CacheEngine.ManifestEntry(name, diskStamp))
             == (CacheState(st.tables[k := step.0], step.1), step.2);
      r := RefreshAt(g.value, k, diskStamp, conn);
    }

    /** The k-th table refreshed; the others are left as they were. */
    method RefreshAt(table: Table, ghost k: nat, diskStamp: Option<DateTime>, conn: DbConnection)
      returns (r: Result<bool>)
      requires Valid() && k < |declared| && table == declared[k]
      modifies table, folder
      ensures Valid()
      ensures var st := old(State());
              var spec := TableStep(Decls()[k], st.tables[k], st.files, stamps, conn, diskStamp);
              (State(), r) == (CacheState(st.tables[k := spec.0], spec.1), spec.2)
    {
      r := RefreshTable(table, diskStamp, conn);
      forall j | 0 <= j < |declared| && j != k
        ensures declared[j].Valid() && declared[j].State() == old(declared[j].State())
      {
        assert declared[j] != declared[k];
      }
      assert TablesState() == old(TablesState())[k := declared[k].State()];
    }

    /** One table of loadAllFromDisk: cleared; sent to the server when the
      * server's stamp is missing or later than the snapshot's, read from its
      * file otherwise; then given the server's stamp. */
    method RefreshTable(table: Table, diskStamp: Option<DateTime>, conn: DbConnection) returns (r: Result<bool>)
      requires table.Valid()
      modifies table, folder
      ensures table.Valid()
      ensures var spec := TableStep(TableDecl(table.tableName, table.columnNames, table.kinds), old(table.State()),
                                    old(folder.files), stamps, conn, diskStamp);
              table.State() == spec.0 && folder.files == spec.1 && r == spec.2
    {
      table.Clear();
      var dbStamp := CacheEngine.Lookup(stamps, table.tableName);
      var fromDb;
      if dbStamp.None? {
        fromDb := true;
      } else if diskStamp.None? {
        return Err(NullPointer);
      } else {
        fromDb := IsAfter(dbStamp.value, diskStamp.value);
      }
      if fromDb {
        var q := Query(conn, table.tableName);
        if q.Err? {
          return Err(q.error);
        }
        var o := table.AddResultSet(q.value);
        if o.Failure? {
          return Err(o.error);
        }
        table.source := DB;
        r := Ok(true);
      } else {
        table.LoadFromDisk(folder);
        table.source := Disk;
        r := Ok(false);
      }
      table.SetDbLastModify(dbStamp);
    }
  
    /** saveAllToDisk: with TABLES null, a NullPointerException before
      * anything is written; otherwise per table its name and lastModified
      * written to the manifest store and its own file saved, then the
      * manifest file written. */
    method SaveAllToDisk() returns (o: Outcome)
      requires Valid()
      modifies folder
      ensures Valid() && TablesState() == old(TablesState())
      ensures !initialized ==> o == Failure(NullPointer) && folder.files == old(folder.files)
      ensures initialized ==> o == Success && WellFormed(Decls(), TablesState())
                              && folder.files == SaveAll(Decls(), TablesState(), old(folder.files))
    {
      if !initialized {
        return Failure(NullPointer);
      }
      ValidTablesWellFormed();
      ghost var ts := TablesState();
      ghost var entries := ManifestOf(Decls(), ts);
      var store := NewManifestStore();
      var i := 0;
      while i < |declared|
        invariant 0 <= i <= |declared| && Valid() && TablesState() == ts
        invariant store.tokens == [IntToken(|declared|)] + CacheEngine.EncodeEntries(entries[..i])
        invariant folder.files == TableFiles(Decls(), ts, old(folder.files), i)
      {
        SaveTableAt(store, i, ts, entries, old(folder.files));
        i := i + 1;
      }
      assert entries[..i] == entries;
      WriteManifest(store.tokens);
      o := Success;
    }

    /** The manifest store with the table count written. */
    method NewManifestStore() returns (store: Store)
      requires Valid()
      ensures fresh(store) && store.tokens == [IntToken(|declared|)]
      ensures Valid() && TablesState() == old(TablesState())
    {
      store := new Store.Writer();
      store.WriteInt(|declared|);
      forall j | 0 <= j < |declared|
        ensures declared[j].Valid() && declared[j].State() == old(declared[j].State())
      {
      }
    }

    /** One turn of the loop of saveAllToDisk: the i-th table's manifest
      * entry written and its file saved. */
    method SaveTableAt(store: Store, i: nat, ghost ts: seq<TableState>, ghost entries: seq<ManifestEntry>,
                       ghost files: map<string, seq<Token>>)
      requires Valid() && i < |declared| && TablesState() == ts && WellFormed(Decls(), ts)
      requires entries == ManifestOf(Decls(), ts)
      requires store.tokens == [IntToken(|declared|)] + CacheEngine.EncodeEntries(entries[..i])
      requires folder.files == TableFiles(Decls(), ts, files, i)
      modifies store, folder
      ensures Valid() && TablesState() == ts
      ensures store.tokens == [IntToken(|declared|)] + CacheEngine.EncodeEntries(entries[..i + 1])
      ensures folder.files == TableFiles(Decls(), ts, files, i + 1)
    {
      ManifestStep(Decls(), ts, i);
      WriteEntryAt(store, i);
      SaveTableFile(i);
    }

    /** The i-th table's name and lastModified written to the manifest store. */
    method WriteEntryAt(store: Store, i: nat)
      requires Valid() && i < |declared|
      modifies store
      ensures store.tokens == old(store.tokens) + [StringToken(Some(declared[i].tableName)), DateTimeToken(declared[i].lastModified)]
      ensures Valid() && TablesState() == old(TablesState())
    {
      store.WriteString(Some(declared[i].tableName));
      store.WriteDateTime(declared[i].lastModified);
      forall j | 0 <= j < |declared|
        ensures declared[j].Valid() && declared[j].State() == old(declared[j].State())
      {
      }
    }

    /** saveToDisk of the i-th table. */
    method SaveTableFile(i: nat)
      requires Valid() && i < |declared|
      modifies folder
      ensures folder.files == old(folder.files)[Disks.CacheFileName(declared[i].tableName) := EncodeTable(declared[i].Rows())]
      ensures Valid() && TablesState() == old(TablesState())
    {
      declared[i].SaveToDisk(folder);
      forall j | 0 <= j < |declared|
        ensures declared[j].Valid() && declared[j].State() == old(declared[j].State())
      {
      }
    }

    /** The manifest file written. */
    method WriteManifest(tokens: seq<Token>)
      requires Valid()
      modifies folder
      ensures folder.files == old(folder.files)[Disks.ManifestName := tokens]
      ensures Valid() && TablesState() == old(TablesState())
    {
      folder.files := folder.files[Disks.ManifestName := tokens];
      forall j | 0 <= j < |declared|
        ensures declared[j].Valid() && declared[j].State() == old(declared[j].State())
      {
      }
    }

    /** loadCache: the stamps read from the server; then the snapshot loaded,
      * and saved again when anything changed. A failure of either read ends
      * it, so nothing is saved after a failed load. */
    method LoadCache(conn: DbConnection) returns (o: Outcome)
      requires Valid()
      modifies this, declared, folder
      ensures Valid()
      ensures var read := CacheEngine.StampsFromDb(old(stamps), conn);
              stamps == read.0
              && (read.1.Failure? ==> o == read.1 && State() == old(State()) && initialized == old(initialized))
              && (read.1.Success? ==>
                    var loaded := AllFromDisk(Decls(), old(State()), stamps, conn);
                    initialized && o == loaded.2 && TablesState() == loaded.0.tables
                    && folder.files == if loaded.2.Success? && loaded.1 then SaveAll(Decls(), TablesState(), loaded.0.files)
                                       else loaded.0.files)
    {
      o := LoadLastModifiedFromDb(conn);
      assert State() == old(State());
      if o.Failure? {
        return;
      }
      var any;
      any, o := LoadAllFromDisk(conn);
      if o.Failure? {
        return;
      }
      if any {
        o := SaveAllToDisk();
      }
    }

    /** forceReloadCache: the stamps read from the server, every table read
      * from the server, and the snapshot saved; a failure of either read
      * ends it before anything is saved. */
    method ForceReloadCache(conn: DbConnection) returns (o: Outcome)
      requires Valid()
      modifies this, declared, folder
      ensures Valid()
      ensures var read := CacheEngine.StampsFromDb(old(stamps), conn);
              stamps == read.0
              && (read.1.Failure? ==> o == read.1 && State() == old(State()) && initialized == old(initialized))
              && (read.1.Success? ==>
                    var loaded := AllFromDb(Decls(), old(TablesState()), stamps, conn);
                    initialized && o == loaded.1 && TablesState() == loaded.0
                    && folder.files == if o.Success? then SaveAll(Decls(), TablesState(), old(folder.files))
                                       else old(folder.files))
    {
      o := LoadLastModifiedFromDb(conn);
      assert State() == old(State());
      if o.Failure? {
        return;
      }
      o := LoadAllFromDb(conn);
      if o.Failure? {
        return;
      }
      ValidTablesWellFormed();
      o := SaveAllToDisk();
    }
  }
}
