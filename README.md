# Longri database — a verified model

This project models the core of a Java database-access library. It has five parts:

- **Property cells** (`PropertyType`, `PropertyBuilder`, the `Named…Property` classes). A cell is a named, typed value with a sticky "changed" flag.
- **The table cache** (package `cache`):
  - a row (`AbstractTableData`) is a list of cells;
  - a table (`AbstractTable`) holds its rows and the time it was last modified;
  - the cache (`AbstractCache`) decides for each table whether to load it from the database or from a serialised file on disk, and keeps a manifest of the saved tables.
- **The older table cache** (package `table_data`): `AbstractTableDataEntry`, `AbstractTable` and `AbstractCache`, with their own file layout and info text.
- **Connections**:
  - `ConnectionPool` hands out connections last-in first-out.
  - `MariaDB_Cluster_Connection` creates connections in turn over a list of hosts.
  - `DatabaseConnection` counts who is using a connection and closes it when the last user leaves.
  - `MySqlConnection` and `MariaDBConnection` build connection strings, import dumps in one transaction, and probe for databases.
- **Date helpers** of `Abstract_Database`: conversions between `LocalDateTime` and the SQL text form, including the MIN/MAX sentinels and NULL.

Pure Java code (the property kinds, the conversions, the byte layouts) is modelled as datatypes and functions. Objects whose fields change (properties, rows, tables, caches, pools, connections, the store cursor) are modelled as classes with `modifies` and `reads` frames. Each method is proved against the function that specifies it.

What the outside world supplies is passed in as parameters:

- the JDBC driver and server: `Jdbc.DbConnection` with the server's tables and the driver's answers;
- the file system: `Disks.Disk`, a map from file names to stored token streams;
- the clock and the current thread's name.

`BitStores` models the serializer of the `de.longri.serializable` library as a stream of typed tokens.

## Model

| member | source | states |
|---|---|---|
| PropertyTypes.FromId | src/main/java/de/longri/database/properties/PropertyType.java:16-23 | the type whose id is given; IllegalArgumentException for any other id |
| PropertyTypes.FromIdAccepts | src/main/java/de/longri/database/properties/PropertyType.java:3-23 | fromId succeeds exactly for the ids 0..4, and returns the constant declared with that id |
| PropertyTypes.FromIdOfId | src/main/java/de/longri/database/properties/PropertyType.java:16-23 | fromId of a type's own id is that type |
| PropertyTypes.IdIsPosition | src/main/java/de/longri/database/properties/PropertyType.java:4-8 | each type's id is its position in the declaration order, and no two types share an id |
| Properties.DefaultValue | src/main/java/de/longri/database/properties/PropertyBuilder.java:7-13 | the initial value has the cell's kind and is null only for a LocalDateTime cell |
| Properties.Create | src/main/java/de/longri/database/properties/PropertyBuilder.java:5-14 | a new cell of the given name and kind holds that kind's initial value and is not changed |
| Properties.CellValueEquals | src/main/java/de/longri/database/properties/NamedStringProperty.java:16-18 | valueEquals throws a NullPointerException exactly when a String cell holds null; otherwise it is true iff both values are equal (DateTime to the second, see NamedLocalDateTimeProperty.java:24-29) |
| Properties.CellSetValue | src/main/java/de/longri/database/properties/AbstractProperty.java:50-56 | setValue leaves an equal value and the flag alone; a different value is stored and raises changed; a String cell holding null throws |
| Properties.SetValueIdempotent | src/main/java/de/longri/database/properties/AbstractProperty.java:50-56 | setting the same value twice is the same as setting it once (a null String then throws on the second call) |
| Properties.ChangedIsSticky | src/main/java/de/longri/database/properties/AbstractProperty.java:50-56 | once raised, changed is never lowered by later setValue calls; if it stays down, the cell is unchanged |
| Properties.DateTimeFromString | src/main/java/de/longri/database/properties/NamedLocalDateTimeProperty.java:46-60 | "NULL" gives null; a null text fails; any other date it accepts is the German-layout parse of the text |
| Properties.DateTimeStringRoundTrip | src/main/java/de/longri/database/properties/NamedLocalDateTimeProperty.java:39-60 | setFromString(getAsString()) restores the value to the second; null, MIN and MAX exactly |
| Properties.CellText | src/main/java/de/longri/database/properties/AbstractProperty.java:84-86 | toString is "Property " + name + " =" followed by the value's text |
| Properties.Property.Build | src/main/java/de/longri/database/properties/PropertyBuilder.java:5-14 | a fresh property object whose state is the created cell |
| Properties.Property.GetValue | src/main/java/de/longri/database/properties/AbstractProperty.java:38-42 | the stored value |
| Properties.Property.IsChanged | src/main/java/de/longri/database/properties/AbstractProperty.java:72-76 | the changed flag, which is raised exactly when some setValue stored a value |
| Properties.Property.ValueEquals | src/main/java/de/longri/database/properties/NamedStringProperty.java:16-18 | the cell's valueEquals, as CellValueEquals states |
| Properties.Property.SetValue | src/main/java/de/longri/database/properties/AbstractProperty.java:50-56 | the new state is CellSetValue of the old one; on the error path nothing changes; changed stays raised |
| Properties.Property.ToString | src/main/java/de/longri/database/properties/AbstractProperty.java:84-86 | the text CellText gives the current state |
| Properties.Property.GetBool | src/main/java/de/longri/database/properties/NamedBoolProperty.java:20-22 | the value, or a NullPointerException from unboxing null |
| Properties.Property.GetInteger | src/main/java/de/longri/database/properties/NamedIntegerProperty.java:22-24 | the value, or a NullPointerException from unboxing null |
| Properties.Property.GetDouble | src/main/java/de/longri/database/properties/NamedDoubleProperty.java:21-23 | the value, or a NullPointerException from unboxing null |
| Properties.Property.GetString | src/main/java/de/longri/database/properties/NamedStringProperty.java:20-22 | the nullable value |
| Properties.Property.GetDateTime | src/main/java/de/longri/database/properties/NamedLocalDateTimeProperty.java:62-64 | the nullable value |
| Properties.Property.GetAsString | src/main/java/de/longri/database/properties/NamedLocalDateTimeProperty.java:39-44 | "NULL", "LocalDateTime.MIN", "LocalDateTime.MAX" or the dd.MM.yyyy HH:mm:ss text |
| Properties.Property.SetFromString | src/main/java/de/longri/database/properties/NamedLocalDateTimeProperty.java:46-60 | a text that does not parse fails and changes nothing; otherwise the parsed value is set as setValue would |
| AbstractDatabase.GetDateTime | src/main/java/de/longri/database/Abstract_Database.java:214-219 | null, empty or any case of "NULL" give null; otherwise the SQL-layout parse, and an exception exactly when that parse fails |
| AbstractDatabase.GetDateString | src/main/java/de/longri/database/Abstract_Database.java:221-226 | "NULL" exactly for null |
| AbstractDatabase.DateStringRoundTrip | src/main/java/de/longri/database/Abstract_Database.java:214-226 | getDateTime(getDateString(d)) is d truncated to the second; null stays null |
| AbstractDatabase.DateTimeRoundTrip | src/main/java/de/longri/database/Abstract_Database.java:214-226 | a well-formed SQL text parses, and formats back to itself |
| JavaTime.SqlRoundTrip | src/main/java/de/longri/database/Abstract_Database.java:212 | parsing the yyyy-MM-dd HH:mm:ss text of a date gives the date truncated to the second |
| JavaTime.GermanRoundTrip | src/main/java/de/longri/database/properties/NamedLocalDateTimeProperty.java:9 | parsing the dd.MM.yyyy HH:mm:ss text of a date gives the date truncated to the second |
| JavaTime.SqlTextLayout | src/main/java/de/longri/database/Abstract_Database.java:212 | the SQL text has its layout and every field at its fixed position |
| JavaTime.GermanTextLayout | src/main/java/de/longri/database/properties/NamedLocalDateTimeProperty.java:9 | the German text has its layout and every field at its fixed position |
| JavaTime.GermanTextIsNotSql | src/main/java/de/longri/database/Abstract_Database.java:212 | a German-layout text never parses in the SQL layout |
| JavaTime.SqlTextOfParse | src/main/java/de/longri/database/Abstract_Database.java:212 | a well-formed SQL text is the formatting of its own parse |
| JavaTime.ParseUsText | src/main/java/de/longri/database/properties/NamedLocalDateTimeProperty.java:10 | the 12-hour fallback layout without an AM/PM field never resolves a date |
| JavaTime.TruncatedToSeconds | src/main/java/de/longri/database/properties/NamedLocalDateTimeProperty.java:27-28 | the nanoseconds become zero and every other field is kept |
| JavaTime.IsAfterTrichotomy | src/main/java/de/longri/database/cache/AbstractCache.java:289 | isAfter is a strict total order: exactly one of after, equal, before |
| JavaDoubles.DoubleTextRoundTrip | src/main/java/de/longri/database/table_data/AbstractTableDataEntry.java:111-112 | Double.valueOf of the text Double.toString writes gives the double back |
| Jdbc.GetBoolean | src/main/java/de/longri/database/table_data/AbstractTableDataEntry.java:63 | SQL NULL reads as false, a boolean as itself, an unknown column throws |
| Jdbc.GetInt | src/main/java/de/longri/database/table_data/AbstractTableDataEntry.java:65 | SQL NULL reads as 0, an integer as itself, an unknown column throws |
| Jdbc.GetString | src/main/java/de/longri/database/table_data/AbstractTableDataEntry.java:67 | SQL NULL reads as null, a text as itself, an unknown column throws |
| Jdbc.GetDouble | src/main/java/de/longri/database/table_data/AbstractTableDataEntry.java:69 | SQL NULL reads as 0.0, a double as itself, an unknown column throws |
| CacheTableData.InitialCells | src/main/java/de/longri/database/cache/AbstractTableData.java:72-76 | one fresh cell per column type, in column order, each as PropertyBuilder.create makes it |
| CacheTableData.ColumnIndex | src/main/java/de/longri/database/cache/AbstractTableData.java:86-92 | the position of the first column with that name, or none when no column has it |
| CacheTableData.GetColumn | src/main/java/de/longri/database/cache/AbstractTableData.java:78-84 | the first column of that name; an error exactly when no column has it |
| CacheTableData.ReadValue | src/main/java/de/longri/database/cache/AbstractTableData.java:53-64 | the value read for a column kind has that kind, and the read moves one token on |
| CacheTableData.DecodeEntry | src/main/java/de/longri/database/cache/AbstractTableData.java:47-67 | one stored property: the type is checked against the column of that name, which keeps its name and kind |
| CacheTableData.DecodeRow | src/main/java/de/longri/database/cache/AbstractTableData.java:44-70 | setFromBitStore: every column keeps its name and kind, and the read fails on a bad type, name or token |
| CacheTableData.EncodeRow | src/main/java/de/longri/database/cache/AbstractTableData.java:94-108 | serialize writes the count and then three tokens per column |
| CacheTableData.ReadEncodedValue | src/main/java/de/longri/database/cache/AbstractTableData.java:53-64 | a written value reads back as itself, except a non-null date: getAsString writes the German layout and getDateTime reads only the SQL layout |
| CacheTableData.DecodeEncodedEntry | src/main/java/de/longri/database/cache/AbstractTableData.java:47-67 | one written column reads back into the column of its name: a non-null date fails, anything else is set to the written value |
| CacheTableData.DecodeEncodedEntries | src/main/java/de/longri/database/cache/AbstractTableData.java:44-70 | the written columns read back succeed exactly when none holds a non-null date, and then every column holds its written value |
| CacheTableData.RowRoundTrip | src/main/java/de/longri/database/cache/AbstractTableData.java:44-70 | setFromBitStore on a fresh row reads what serialize wrote: it succeeds exactly when no cell holds a non-null date, and then every cell holds its written value and the read ends after the row |
| CacheTableData.ReadColumn | src/main/java/de/longri/database/cache/AbstractTableData.java:26-40 | the value a ResultSet column gives a cell has the cell's kind; a DATETIME text goes through getDateTime |
| CacheTableData.FillFromRow | src/main/java/de/longri/database/cache/AbstractTableData.java:26-42 | setFromResultSet sets every column, keeping its name and kind |
| CacheTableData.FillFromRowReads | src/main/java/de/longri/database/cache/AbstractTableData.java:26-42 | after setFromResultSet every column holds (to the second) what the ResultSet holds for its name |
| CacheTableData.TableData.IsNewEntry | src/main/java/de/longri/database/cache/AbstractTableData.java:110-112 | the new-row flag |
| CacheTableData.TableData.Get | src/main/java/de/longri/database/cache/AbstractTableData.java:78-84 | the column as GetColumn finds it, or its error |
| CacheTableData.TableData.SetFromResultSet | src/main/java/de/longri/database/cache/AbstractTableData.java:26-42 | the columns become FillFromRow of the old ones and the row is no longer new; a failing read is reported |
| CacheTableData.TableData.ReadStoredValue | src/main/java/de/longri/database/cache/AbstractTableData.java:53-64 | the value ReadValue gives, with the store moved past it |
| CacheTableData.TableData.ReadEntry | src/main/java/de/longri/database/cache/AbstractTableData.java:47-67 | the columns become what DecodeEntry gives, and the store moves past the entry |
| CacheTableData.TableData.SetFromBitStore | src/main/java/de/longri/database/cache/AbstractTableData.java:44-70 | the columns become DecodeRow of the old ones and the row is no longer new; on failure the flag is kept |
| CacheTableData.TableData.WriteCell | src/main/java/de/longri/database/cache/AbstractTableData.java:96-106 | appends the three tokens of one column |
| CacheTableData.TableData.Serialize | src/main/java/de/longri/database/cache/AbstractTableData.java:94-108 | appends exactly EncodeRow of the columns |
| CacheTable.RowsFromResultSetMeaning | src/main/java/de/longri/database/cache/AbstractTable.java:68-72 | add(ResultSet) adds one row per result row, each set from it as setFromResultSet does; it fails exactly when some row cannot be read, and then it keeps the rows before that one |
| CacheTable.RowsFromResultSetCells | src/main/java/de/longri/database/cache/AbstractTable.java:68-72 | every cell of an added row holds (to the second) what its column holds in the matching result row |
| CacheTable.EncodeTable | src/main/java/de/longri/database/cache/AbstractTable.java:118-128 | the file starts with the row count |
| CacheTable.DecodeRows | src/main/java/de/longri/database/cache/AbstractTable.java:151-156 | reads at most the announced number of rows, and all of them exactly when no read failed |
| CacheTable.DecodeTableFile | src/main/java/de/longri/database/cache/AbstractTable.java:149-156 | an unreadable count reads nothing; a complete read holds as many rows as the count (none for a negative count) |
| CacheTable.DiskLoad | src/main/java/de/longri/database/cache/AbstractTable.java:141-163 | no file leaves rows and folder alone; otherwise the folder is kept or loses exactly this table's file |
| CacheTable.FirstDated | src/main/java/de/longri/database/cache/AbstractTable.java:141-163 | the position of the first row holding a non-null date, the row whose load fails |
| CacheTable.DecodeEncodedRow | src/main/java/de/longri/database/cache/AbstractTable.java:103-116 | a written row reads back exactly when it holds no non-null date, and then with the same cells, ending right after it |
| CacheTable.DecodeEncodedRows | src/main/java/de/longri/database/cache/AbstractTable.java:151-156 | reading the written rows back gives exactly the rows before the first one holding a non-null date |
| CacheTable.TableRoundTrip | src/main/java/de/longri/database/cache/AbstractTable.java:118-163 | loadFromDisk after saveToDisk adds the saved rows up to the first one with a non-null date; the file is kept exactly when there is none, and deleted otherwise |
| CacheTable.Table.Rows | src/main/java/de/longri/database/cache/AbstractTable.java:48 | the rows of a valid table match its schema and can be written |
| CacheTable.Table.IsEmpty | src/main/java/de/longri/database/cache/AbstractTable.java:32-34 | true iff the table has no rows |
| CacheTable.Table.Size | src/main/java/de/longri/database/cache/AbstractTable.java:36-38 | the number of rows |
| CacheTable.Table.GetDbLastModify | src/main/java/de/longri/database/cache/AbstractTable.java:56-58 | the stored lastModified |
| CacheTable.Table.SetDbLastModify | src/main/java/de/longri/database/cache/AbstractTable.java:173-175 | only lastModified changes |
| CacheTable.Table.Clear | src/main/java/de/longri/database/cache/AbstractTable.java:60-62 | no rows are left and the metadata is kept |
| CacheTable.Table.Add | src/main/java/de/longri/database/cache/AbstractTable.java:64-66 | the row is appended; nothing else changes |
| CacheTable.Table.AddResultSet | src/main/java/de/longri/database/cache/AbstractTable.java:68-72 | the rows RowsFromResultSet gives are appended, and its outcome is returned |
| CacheTable.Table.AddRow | src/main/java/de/longri/database/cache/AbstractTable.java:88-101 | one row is created from the result row and appended when its read succeeds |
| CacheTable.Table.CreateFromResultSet | src/main/java/de/longri/database/cache/AbstractTable.java:88-101 | a fresh row whose cells are FillFromRow of a new row, or the read's failure |
| CacheTable.Table.SaveToDisk | src/main/java/de/longri/database/cache/AbstractTable.java:118-139 | the table's file is set to EncodeTable of its rows; no other file changes |
| CacheTable.Table.WriteRows | src/main/java/de/longri/database/cache/AbstractTable.java:125-127 | appends every row's encoding, in order |
| CacheTable.Table.LoadFromDisk | src/main/java/de/longri/database/cache/AbstractTable.java:141-163 | the rows DiskLoad reads are appended and the folder becomes what DiskLoad leaves |
| CacheTable.Table.ReadRows | src/main/java/de/longri/database/cache/AbstractTable.java:153-156 | the rows DecodeRows reads are appended, and a failed read is reported |
| CacheTable.Table.ReadRow | src/main/java/de/longri/database/cache/AbstractTable.java:103-116 | one row is created from the store and appended when DecodeRow succeeds |
| CacheTable.Table.CreateFromBitStore | src/main/java/de/longri/database/cache/AbstractTable.java:103-116 | a fresh row whose cells are DecodeRow of a new row, or the read's failure |
| CacheTable.Table.Equals | src/main/java/de/longri/database/cache/AbstractTable.java:165-171 | true iff the other is a legacy table and both row lists are empty: rows of this package keep identity equality, so no row equals an entry of the other list |
| CacheTable.Table.ToString | src/main/java/de/longri/database/cache/AbstractTable.java:178-193 | "[]" or the row texts joined by ", " in brackets, as TableText gives |
| CacheEngine.HostRun | src/main/java/de/longri/database/cache/AbstractCache.java:185 | the longest run of characters other than '/', ',' and ':' from a position: all of them are host characters and the run stops at the end or at a non-host character |
| CacheEngine.DigitRun | src/main/java/de/longri/database/cache/AbstractCache.java:185 | the longest run of digits from a position, stopping at the end or at a non-digit |
| CacheEngine.MatchAt | src/main/java/de/longri/database/cache/AbstractCache.java:185-192 | a match of jdbc:mysql://([^/,:]+:\d+) at a position is a real occurrence of the pattern, and its digit run is maximal as the greedy \d+ makes it |
| CacheEngine.MatchAtComplete | src/main/java/de/longri/database/cache/AbstractCache.java:185-192 | wherever the pattern occurs the matcher finds a match, and one ending before a non-digit is the one it finds |
| CacheEngine.FindMatch | src/main/java/de/longri/database/cache/AbstractCache.java:189-192 | Matcher.find: the first position with a match, and no match at any earlier position |
| CacheEngine.ConnectionInfoOfFirstMatch | src/main/java/de/longri/database/cache/AbstractCache.java:182-198 | for the first occurrence, the result is host:port, prefixed "CLUSTER " and suffixed ",..." exactly when a ',' follows the group |
| CacheEngine.ConnectionInfoWithoutMatch | src/main/java/de/longri/database/cache/AbstractCache.java:199-201 | a URL without an occurrence gives "No match found for URL: " followed by the URL |
| CacheEngine.StalenessRule | src/main/java/de/longri/database/cache/AbstractCache.java:287-289 | the server is read exactly when connected and its stamp is missing or after the disk stamp; connected with a server stamp but no disk stamp throws (isAfter(null)); offline never reads the server |
| CacheEngine.SnapshotKeptUnlessNewer | src/main/java/de/longri/database/cache/AbstractCache.java:289 | an equal or older server stamp keeps the disk snapshot |
| CacheEngine.StalenessMonotone | src/main/java/de/longri/database/cache/AbstractCache.java:289 | if a later server stamp keeps the snapshot, so does an earlier one |
| CacheEngine.Lookup | src/main/java/de/longri/database/cache/AbstractCache.java:382-384 | HashMap.get: the stored stamp, or null for an unknown name |
| CacheEngine.StampEntry | src/main/java/de/longri/database/cache/AbstractCache.java:375-377 | one last_modified row gives the tableName text and the getDateTime parse of its localDateTime text |
| CacheEngine.StampsFromDb | src/main/java/de/longri/database/cache/AbstractCache.java:368-380 | a failing query leaves the map and reports the error; otherwise every row is merged into the map |
| CacheEngine.MergeKeeps | src/main/java/de/longri/database/cache/AbstractCache.java:375-378 | no key is ever removed, and a key no row names keeps its stamp |
| CacheEngine.MergeLaterWins | src/main/java/de/longri/database/cache/AbstractCache.java:375-378 | after a complete read, a table name holds the stamp of the last row naming it (HashMap.put overwrites) |
| CacheEngine.EncodeManifest | src/main/java/de/longri/database/cache/AbstractCache.java:315-322 | tables_cache.bin is the table count followed by a name and a stamp per table |
| CacheEngine.ReadEntries | src/main/java/de/longri/database/cache/AbstractCache.java:234-236 | reads at most the announced number of entries, and all of them exactly when no read failed |
| CacheEngine.ReadManifest | src/main/java/de/longri/database/cache/AbstractCache.java:224-236 | an unreadable or negative count reads no entry and fails (the latch of a negative count throws) |
| CacheEngine.EntriesRoundTrip | src/main/java/de/longri/database/cache/AbstractCache.java:234-236 | the written entries read back as themselves |
| CacheEngine.ManifestRoundTrip | src/main/java/de/longri/database/cache/AbstractCache.java:224-236 | reading a written manifest gives back its entries without failure |
| CacheEngine.FirstNamed | src/main/java/de/longri/database/cache/AbstractCache.java:105-109 | the first table with the name, and none before it; none when no table has it |
| CacheEngine.FindTable | src/main/java/de/longri/database/cache/AbstractCache.java:96-111 | getTable: a null or empty name throws IllegalArgumentException; a known name gives its first table; an unknown one throws "Table ... not found" |
| CacheEngine.TableFromDbMeaning | src/main/java/de/longri/database/cache/AbstractCache.java:159-178 | loadTableFromDB clears the table, adds one row per server row, and on success records DB, the worker, the connection info and the server stamp; a failing read keeps the metadata |
| CacheEngine.TableFromDbIdempotent | src/main/java/de/longri/database/cache/AbstractCache.java:159-178 | loading a table from the server twice gives the same table as loading it once |
| CacheEngine.AllFromDb | src/main/java/de/longri/database/cache/AbstractCache.java:131-157 | every table becomes what loadTableFromDB makes of it; a worker's failure touches no other table |
| CacheEngine.TableStepMeaning | src/main/java/de/longri/database/cache/AbstractCache.java:278-309 | the table is read from the server exactly when connected, stale and the read succeeds; offline it is read from its file and marked Disk/"HDD"; the server stamp is set whenever the step succeeds |
| CacheEngine.TableFromDiskCases | src/main/java/de/longri/database/cache/AbstractCache.java:278-309 | an unknown or empty name fails and changes nothing; otherwise only the named table and the folder change |
| CacheEngine.SnapshotFallback | src/main/java/de/longri/database/cache/AbstractCache.java:257-271 | a missing or unreadable manifest reports a change; an unreadable one also deletes the cache folder |
| CacheEngine.VisitReportsServerLoads | src/main/java/de/longri/database/cache/AbstractCache.java:234-249 | the visit reports a change exactly when some entry's table was loaded from the server |
| CacheEngine.AllFromDiskChanged | src/main/java/de/longri/database/cache/AbstractCache.java:208-276 | loadAllFromDisk returns true exactly when the manifest is missing or unreadable, or some listed table was reloaded from the server |
| CacheEngine.OfflineVisitReportsNoChange | src/main/java/de/longri/database/cache/AbstractCache.java:204-206 | without a connection a readable manifest never reports a change |
| CacheEngine.UnlistedTableKept | src/main/java/de/longri/database/cache/AbstractCache.java:234-249 | a table the manifest does not list is left as it was |
| CacheEngine.ManifestOf | src/main/java/de/longri/database/cache/AbstractCache.java:318-320 | one entry per table, in table order, with its name and stamp |
| CacheEngine.TableFiles | src/main/java/de/longri/database/cache/AbstractCache.java:318-322 | every table gets its file and no file is removed |
| CacheEngine.SaveAll | src/main/java/de/longri/database/cache/AbstractCache.java:311-338 | saveAllToDisk leaves a manifest that reads back as the tables' names and stamps, and a file for every table |
| CacheEngine.SavedSnapshotReloadsOffline | src/main/java/de/longri/database/cache/AbstractCache.java:204-338 | loading a freshly saved snapshot without a connection reports no change |
| CacheEngine.Cache.Decls | src/main/java/de/longri/database/cache/AbstractCache.java:57 | the name and schema of each table, in order |
| CacheEngine.Cache.constructor | src/main/java/de/longri/database/cache/AbstractCache.java:61-68 | a cache over the given tables and folder with an empty stamp map |
| CacheEngine.Cache.GetTable | src/main/java/de/longri/database/cache/AbstractCache.java:96-111 | the table FindTable selects, or its error |
| CacheEngine.Cache.LoadLastModifiedFromDb | src/main/java/de/longri/database/cache/AbstractCache.java:368-380 | the stamp map becomes what StampsFromDb gives |
| CacheEngine.Cache.LoadTableFromDb | src/main/java/de/longri/database/cache/AbstractCache.java:159-178 | the table becomes TableFromDb of its old state |
| CacheEngine.Cache.MarkFromDb | src/main/java/de/longri/database/cache/AbstractCache.java:171-177 | the rows stay, the metadata becomes DB, the worker, the connection info and the server stamp |
| CacheEngine.Cache.LoadAllFromDb | src/main/java/de/longri/database/cache/AbstractCache.java:131-157 | the tables become AllFromDb of their old states |
| CacheEngine.Cache.LoadTableAt | src/main/java/de/longri/database/cache/AbstractCache.java:140-148 | one worker's unit: only table k changes, as TableFromDb says |
| CacheEngine.Cache.LoadTableFromDisk | src/main/java/de/longri/database/cache/AbstractCache.java:278-309 | the cache state and result become TableFromDisk of the old state |
| CacheEngine.Cache.RefreshAt | src/main/java/de/longri/database/cache/AbstractCache.java:285-308 | only table k and the folder change, as TableStep says |
| CacheEngine.Cache.RefreshTable | src/main/java/de/longri/database/cache/AbstractCache.java:285-308 | the table, the folder and the result become what TableStep gives |
| CacheEngine.Cache.RefreshFromDb | src/main/java/de/longri/database/cache/AbstractCache.java:289-300 | the table becomes TableFromDb of its state; true on success, the error otherwise |
| CacheEngine.Cache.RefreshFromFile | src/main/java/de/longri/database/cache/AbstractCache.java:301-307 | the cleared table gets the rows DiskLoad reads, marked Disk/"HDD" with the server stamp, and the folder becomes what DiskLoad leaves |
| CacheEngine.Cache.ReadTableFile | src/main/java/de/longri/database/cache/AbstractCache.java:302-305 | the rows DiskLoad reads are appended and the source becomes Disk/"HDD" |
| CacheEngine.Cache.ReadEntry | src/main/java/de/longri/database/cache/AbstractCache.java:235-236 | one manifest entry, as ReadEntryAt reads it, with the store moved past it |
| CacheEngine.Cache.LoadAllFromDisk | src/main/java/de/longri/database/cache/AbstractCache.java:208-276 | the cache state and the change flag become AllFromDisk of the old state |
| CacheEngine.Cache.VisitManifest | src/main/java/de/longri/database/cache/AbstractCache.java:224-256 | every entry the manifest holds is visited in order; the flag reports an unreadable manifest |
| CacheEngine.Cache.OpenManifest | src/main/java/de/longri/database/cache/AbstractCache.java:224-225 | a store over the manifest positioned after its count, or the count's error |
| CacheEngine.Cache.NextEntry | src/main/java/de/longri/database/cache/AbstractCache.java:234-248 | one loop round: reads an entry and visits its table, or ends the visit on a read failure |
| CacheEngine.Cache.SaveAllToDisk | src/main/java/de/longri/database/cache/AbstractCache.java:311-338 | the tables are kept and the folder becomes SaveAll of the old one |
| CacheEngine.Cache.SaveTables | src/main/java/de/longri/database/cache/AbstractCache.java:315-322 | writes every table's file and returns the manifest's tokens |
| CacheEngine.Cache.NewManifestStore | src/main/java/de/longri/database/cache/AbstractCache.java:315-316 | a fresh store holding only the table count |
| CacheEngine.Cache.WriteManifest | src/main/java/de/longri/database/cache/AbstractCache.java:324-332 | tables_cache.bin is set to the tokens and no other file changes |
| CacheEngine.Cache.LoadCache | src/main/java/de/longri/database/cache/AbstractCache.java:79-94 | the stamps are read first; on success the tables are loaded from disk and the snapshot is saved exactly when that reported a change |
| CacheEngine.Cache.ForceReloadCache | src/main/java/de/longri/database/cache/AbstractCache.java:70-77 | the stamps are read, every table is loaded from the server, and the snapshot is saved |
| LegacyCache.FindTableMeaning | src/main/java/de/longri/database/table_data/AbstractCache.java:59-74 | getTable: a null or empty name throws IllegalArgumentException; before chkTables it throws "Tables not initialized"; a known name gives its first table; an unknown one throws "Table ... not found" |
| LegacyCache.TableFromDbMeaning | src/main/java/de/longri/database/table_data/AbstractCache.java:107-120 | loadTableFromDB clears the table and adds one entry per server row; on success the source is DB, the stamp the server's and every row was read; a failing read keeps source and stamp |
| LegacyCache.AllFromDb | src/main/java/de/longri/database/table_data/AbstractCache.java:95-105 | one table state per table; the first failing table stops the load |
| LegacyCache.ReadsCleanlyAnyState | src/main/java/de/longri/database/table_data/AbstractCache.java:107-120 | whether a table loads from the server does not depend on what it held before |
| LegacyCache.AllFromDbFromMeaning | src/main/java/de/longri/database/table_data/AbstractCache.java:99-101 | the sequential loop succeeds exactly when every table reads cleanly; the tables before the first failure are loaded, the one that fails is left partly read, and the ones after it are untouched |
| LegacyCache.ReadManifestAgainstNewer | src/main/java/de/longri/database/table_data/AbstractCache.java:138-139 | the manifest reader agrees with the cache package except on a negative count, which this loop simply skips while the latch of the other package throws |
| LegacyCache.ManifestRoundTrip | src/main/java/de/longri/database/table_data/AbstractCache.java:137-141 | a written manifest reads back as its entries without failure |
| LegacyCache.TableStepMeaning | src/main/java/de/longri/database/table_data/AbstractCache.java:142-161 | the table is read from the server exactly when the server stamp is missing or after the disk stamp and the read succeeds; otherwise it comes from its file marked Disk; a server stamp with no disk stamp throws NullPointerException |
| LegacyCache.VisitStopsAtFailure | src/main/java/de/longri/database/table_data/AbstractCache.java:139-169 | once a table fails, no later entry is visited |
| LegacyCache.VisitNext | src/main/java/de/longri/database/table_data/AbstractCache.java:139-162 | one more entry is visited only while no earlier one failed, and raises the flag when its table came from the server |
| LegacyCache.SnapshotFallback | src/main/java/de/longri/database/table_data/AbstractCache.java:163-175 | a missing manifest reports a change; an unreadable manifest or a failing table reports a change and deletes the cache folder |
| LegacyCache.VisitReportsServerLoads | src/main/java/de/longri/database/table_data/AbstractCache.java:139-162 | the visit raises the flag exactly when some entry's table was loaded from the server before any failure |
| LegacyCache.AllFromDiskChanged | src/main/java/de/longri/database/table_data/AbstractCache.java:122-181 | loadAllFromDisk returns true exactly when the manifest is missing or unreadable, some table failed, or some listed table was reloaded from the server |
| LegacyCache.ManifestOf | src/main/java/de/longri/database/table_data/AbstractCache.java:190-192 | one entry per table, in table order, with its name and stamp |
| LegacyCache.TableFiles | src/main/java/de/longri/database/table_data/AbstractCache.java:190-194 | every table gets its file and no file is removed |
| LegacyCache.SaveAll | src/main/java/de/longri/database/table_data/AbstractCache.java:183-210 | saveAllToDisk leaves a manifest that reads back as the tables' names and stamps, and a file for every table |
| LegacyCache.VisitCurrentEntries | src/main/java/de/longri/database/table_data/AbstractCache.java:139-162 | entries naming known tables with the server's own non-null stamps load every table from disk, report no change and do not fail |
| LegacyCache.SavedSnapshotReloadsUnchanged | src/main/java/de/longri/database/table_data/AbstractCache.java:122-210 | loading a snapshot just saved with the server's stamps reports no change and no failure |
| LegacyCache.Cache.Decls | src/main/java/de/longri/database/table_data/AbstractCache.java:24-28 | the name, columns and kinds of each declared table, in order |
| LegacyCache.Cache.constructor | src/main/java/de/longri/database/table_data/AbstractCache.java:31-37 | a cache over the declared tables and folder, not yet initialized, with an empty stamp map |
| LegacyCache.Cache.ChkTables | src/main/java/de/longri/database/table_data/AbstractCache.java:87-93 | the table list is initialized and the stamps are kept |
| LegacyCache.Cache.GetTable | src/main/java/de/longri/database/table_data/AbstractCache.java:59-74 | the table FindTable selects, or its error |
| LegacyCache.Cache.LoadLastModifiedFromDb | src/main/java/de/longri/database/table_data/AbstractCache.java:238-250 | the stamp map becomes what the last_modified query merges into it |
| LegacyCache.Cache.LoadTableFromDb | src/main/java/de/longri/database/table_data/AbstractCache.java:107-120 | the table becomes TableFromDb of its old state |
| LegacyCache.Cache.LoadAllFromDb | src/main/java/de/longri/database/table_data/AbstractCache.java:95-105 | the tables and the outcome become AllFromDb of the old tables |
| LegacyCache.Cache.LoadTableAt | src/main/java/de/longri/database/table_data/AbstractCache.java:99-101 | one loop round: only table i changes, and the rest of the loop continues exactly when it succeeded |
| LegacyCache.Cache.LoadAllFromDisk | src/main/java/de/longri/database/table_data/AbstractCache.java:122-181 | the cache state, change flag and outcome become AllFromDisk of the old state |
| LegacyCache.Cache.VisitManifest | src/main/java/de/longri/database/table_data/AbstractCache.java:137-162 | the manifest's entries are visited in order; the flag reports an unreadable manifest or a failed table |
| LegacyCache.Cache.VisitLoop | src/main/java/de/longri/database/table_data/AbstractCache.java:139-162 | the loop visits exactly the entries read, stopping at the first failure |
| LegacyCache.Cache.VisitStep | src/main/java/de/longri/database/table_data/AbstractCache.java:140-161 | one round: reads an entry and visits its table, or stops on a read or table failure |
| LegacyCache.Cache.OpenManifest | src/main/java/de/longri/database/table_data/AbstractCache.java:137-138 | a store over the manifest positioned after its count, or the count's error |
| LegacyCache.Cache.ReadEntry | src/main/java/de/longri/database/table_data/AbstractCache.java:140-141 | one manifest entry, with the store moved past it |
| LegacyCache.Cache.NextEntry | src/main/java/de/longri/database/table_data/AbstractCache.java:140-161 | an entry is read and its table visited as VisitEntries says, or the read fails and nothing changes |
| LegacyCache.Cache.LoadTableFromDisk | src/main/java/de/longri/database/table_data/AbstractCache.java:142-161 | the cache state and result become TableFromDisk of the old state |
| LegacyCache.Cache.RefreshAt | src/main/java/de/longri/database/table_data/AbstractCache.java:145-161 | only table k and the folder change, as TableStep says |
| LegacyCache.Cache.RefreshTable | src/main/java/de/longri/database/table_data/AbstractCache.java:145-161 | the table, the folder and the result become what TableStep gives |
| LegacyCache.Cache.SaveAllToDisk | src/main/java/de/longri/database/table_data/AbstractCache.java:183-210 | before chkTables it throws NullPointerException and writes nothing; afterwards the folder becomes SaveAll of the old one |
| LegacyCache.Cache.NewManifestStore | src/main/java/de/longri/database/table_data/AbstractCache.java:187-188 | a fresh store holding only the table count |
| LegacyCache.Cache.SaveTableAt | src/main/java/de/longri/database/table_data/AbstractCache.java:190-194 | one round: the table's manifest entry and file are written |
| LegacyCache.Cache.WriteEntryAt | src/main/java/de/longri/database/table_data/AbstractCache.java:191-192 | appends the table's name and stamp |
| LegacyCache.Cache.SaveTableFile | src/main/java/de/longri/database/table_data/AbstractCache.java:193 | the table's file is set to the encoding of its rows and nothing else changes |
| LegacyCache.Cache.WriteManifest | src/main/java/de/longri/database/table_data/AbstractCache.java:196-204 | tables_cache.bin is set to the tokens and no other file changes |
| LegacyCache.Cache.LoadCache | src/main/java/de/longri/database/table_data/AbstractCache.java:48-57 | the stamps are read first; on success the tables are loaded from disk and the snapshot is saved exactly when that reported a change without failing |
| LegacyCache.Cache.ForceReloadCache | src/main/java/de/longri/database/table_data/AbstractCache.java:39-46 | the stamps are read, every table is loaded from the server, and the snapshot is saved when that succeeded |
| LegacyEntry.Tag | src/main/java/de/longri/database/table_data/AbstractTableDataEntry.java:132-136 | the tag written for each kind is that kind's PropertyType id |
| LegacyEntry.FindKind | src/main/java/de/longri/database/table_data/AbstractTableDataEntry.java:40 | createProperty: the first column descriptor with the name, and none exactly when no descriptor has it |
| LegacyEntry.SetProperty | src/main/java/de/longri/database/table_data/AbstractTableDataEntry.java:48 | set succeeds exactly when the value has the property's kind, and then the property holds the value under the same name and kind |
| LegacyEntry.FirstNamed | src/main/java/de/longri/database/table_data/AbstractTableDataEntry.java:88-94 | the first property with the name, and none exactly when no property has it |
| LegacyEntry.CopyForwardFrom | src/main/java/de/longri/database/table_data/AbstractTableDataEntry.java:36-51 | one property per column, created from the table's descriptors, holding the value of the first given property of that name or the default; it fails exactly when some column has no descriptor or a mismatched value |
| LegacyEntry.FillFrom | src/main/java/de/longri/database/table_data/AbstractTableDataEntry.java:53-76 | one property per column, created from the table's descriptors, holding what the ResultSet reads for it (getBoolean, getInt, getString, getDouble, or getDateTime of the text) |
| LegacyEntry.EncodeProperties | src/main/java/de/longri/database/table_data/AbstractTableDataEntry.java:140-177 | three tokens per property |
| LegacyEntry.EncodeEntry | src/main/java/de/longri/database/table_data/AbstractTableDataEntry.java:138-178 | the property count followed by three tokens per property |
| LegacyEntry.DecodeProperty | src/main/java/de/longri/database/table_data/AbstractTableDataEntry.java:96-119 | readProperty: the property is created by its stored name, holds a value of its kind and of the kind its tag names, and the read moves three tokens on |
| LegacyEntry.DecodeProperties | src/main/java/de/longri/database/table_data/AbstractTableDataEntry.java:82-84 | n properties read one after the other, each valid, ending 3n tokens on |
| LegacyEntry.DecodeEntry | src/main/java/de/longri/database/table_data/AbstractTableDataEntry.java:79-85 | as many properties as the stored count (none for a negative count), ending right after them |
| LegacyEntry.DecodeEncodedProperty | src/main/java/de/longri/database/table_data/AbstractTableDataEntry.java:96-178 | a written property reads back under the same name and kind with the same value (dates to the second) |
| LegacyEntry.DecodeEncodedProperties | src/main/java/de/longri/database/table_data/AbstractTableDataEntry.java:82-84 | written properties read back in order, each with its name, kind and value |
| LegacyEntry.EntryRoundTrip | src/main/java/de/longri/database/table_data/AbstractTableDataEntry.java:79-178 | the binary constructor reads what serialize wrote: the same number of properties, each with its name, kind and value, ending right after the entry |
| LegacyEntry.PropertyNamed | src/main/java/de/longri/database/table_data/AbstractTableDataEntry.java:123-130 | getProperty(name): an entry without properties throws "properties not initialized"; otherwise the first property of the name, and an error exactly when none has it |
| LegacyEntry.Entry.Init | src/main/java/de/longri/database/table_data/AbstractTableDataEntry.java:36-37 | an entry of the given class and table holding the given properties |
| LegacyEntry.Entry.CopyForward | src/main/java/de/longri/database/table_data/AbstractTableDataEntry.java:36-51 | a fresh entry holding CopyForwardFrom of the given properties, or its error |
| LegacyEntry.Entry.FromResultSet | src/main/java/de/longri/database/table_data/AbstractTableDataEntry.java:53-76 | a fresh entry holding FillFrom of the result row, or its error |
| LegacyEntry.Entry.FromStore | src/main/java/de/longri/database/table_data/AbstractTableDataEntry.java:79-85 | a fresh entry holding DecodeEntry of the store, which moves past the entry, or its error |
| LegacyEntry.Entry.ReadProperties | src/main/java/de/longri/database/table_data/AbstractTableDataEntry.java:81-84 | the n properties DecodeProperties reads, with the store moved past them, or the first error |
| LegacyEntry.Entry.ReadNext | src/main/java/de/longri/database/table_data/AbstractTableDataEntry.java:82-83 | one loop round: the next property is appended and the rest still reads as the whole entry would, or the whole read fails with this error |
| LegacyEntry.Entry.ReadProperty | src/main/java/de/longri/database/table_data/AbstractTableDataEntry.java:96-119 | the property DecodeProperty reads, with the store moved past it, or its error |
| LegacyEntry.Entry.GetProperty | src/main/java/de/longri/database/table_data/AbstractTableDataEntry.java:123-130 | the property PropertyNamed selects, or its error |
| LegacyEntry.Entry.Serialize | src/main/java/de/longri/database/table_data/AbstractTableDataEntry.java:138-178 | appends exactly EncodeEntry of the properties |
| LegacyEntry.Entry.WriteProperty | src/main/java/de/longri/database/table_data/AbstractTableDataEntry.java:141-171 | appends the tag, the name and the value text of one property |
| LegacyEntry.Entry.Equals | src/main/java/de/longri/database/table_data/AbstractTableDataEntry.java:181-192 | true iff the other entry is this one, or of the same class with equal properties in the same order |
| LegacyTable.PropsOf | src/main/java/de/longri/database/table_data/AbstractTable.java:86 | the properties of each entry, in order |
| LegacyTable.EntriesFromResultSet | src/main/java/de/longri/database/table_data/AbstractTable.java:112-116 | every entry add(ResultSet) builds is valid |
| LegacyTable.EntriesFromResultSetMeaning | src/main/java/de/longri/database/table_data/AbstractTable.java:112-116 | one entry per result row, each built as the ResultSet constructor builds it; it fails exactly when some row cannot be read, and then it keeps the entries before the first such row and reports that row's error |
| LegacyTable.EncodeTable | src/main/java/de/longri/database/table_data/AbstractTable.java:118-128 | the file starts with the entry count |
| LegacyTable.DecodeRows | src/main/java/de/longri/database/table_data/AbstractTable.java:153-155 | reads at most the announced number of entries, all of them exactly when no read failed, and then ends after them |
| LegacyTable.DecodeTableFile | src/main/java/de/longri/database/table_data/AbstractTable.java:149-155 | an unreadable count reads nothing and fails; a complete read holds as many entries as the count (none for a negative count) |
| LegacyTable.DiskLoad | src/main/java/de/longri/database/table_data/AbstractTable.java:141-162 | no file leaves rows and folder alone; otherwise the folder is kept or loses exactly this table's file |
| LegacyTable.DecodeEncodedRows | src/main/java/de/longri/database/table_data/AbstractTable.java:153-155 | the written entries read back in order with the same values |
| LegacyTable.TableRoundTrip | src/main/java/de/longri/database/table_data/AbstractTable.java:118-162 | loadFromDisk after saveToDisk reads back as many entries as were saved, each with the same values, and keeps the file |
| LegacyTable.DbColumn | src/main/java/de/longri/database/table_data/AbstractTable.java:33-43 | the fromDB column is nine characters ending in '\|' for every source |
| LegacyTable.DiskColumn | src/main/java/de/longri/database/table_data/AbstractTable.java:44-54 | the fromDisk column is eleven characters ending in '\|' for every source |
| LegacyTable.BorderStops | src/main/java/de/longri/database/table_data/AbstractCache.java:215-217 | the border of the info table is 91 characters with a '+' at every column stop |
| LegacyTable.InfoLineAligned | src/main/java/de/longri/database/table_data/AbstractTable.java:24-60 | for a name of at most 33 characters, a count of at most 8 digits and a four-digit year, the info line is as wide as the border with a '\|' under every '+' |
| LegacyTable.TableText | src/main/java/de/longri/database/table_data/AbstractTable.java:178-192 | the text is bracketed, and "[]" for no entries |
| LegacyTable.TableTextFront | src/main/java/de/longri/database/table_data/AbstractTable.java:183-189 | the first entry's text is followed by ", " and the texts of the others |
| LegacyTable.SameEntriesIsEquivalence | src/main/java/de/longri/database/table_data/AbstractTable.java:164-170 | equality of two tables' entry lists is reflexive, symmetric and transitive |
| LegacyTable.Table.Rows | src/main/java/de/longri/database/table_data/AbstractTable.java:86 | the entries' properties; valid when the table is |
| LegacyTable.Table.constructor | src/main/java/de/longri/database/table_data/AbstractTable.java:82-92 | an empty table of unknown source whose stamp is LocalDateTime.MAX |
| LegacyTable.Table.IsEmpty | src/main/java/de/longri/database/table_data/AbstractTable.java:68-70 | true iff the table has no entries |
| LegacyTable.Table.Size | src/main/java/de/longri/database/table_data/AbstractTable.java:74-76 | the number of entries |
| LegacyTable.Table.GetDbLastModify | src/main/java/de/longri/database/table_data/AbstractTable.java:100-102 | the stored stamp |
| LegacyTable.Table.SetDbLastModify | src/main/java/de/longri/database/table_data/AbstractTable.java:172-174 | only the stamp changes |
| LegacyTable.Table.Clear | src/main/java/de/longri/database/table_data/AbstractTable.java:104-106 | no entries are left; source and stamp are kept |
| LegacyTable.Table.Add | src/main/java/de/longri/database/table_data/AbstractTable.java:108-110 | the entry is appended; nothing else changes |
| LegacyTable.Table.AddResultSet | src/main/java/de/longri/database/table_data/AbstractTable.java:112-116 | the entries EntriesFromResultSet builds are appended, and its outcome is returned |
| LegacyTable.Table.AddRow | src/main/java/de/longri/database/table_data/AbstractTable.java:114 | one entry is built from the result row and appended when that succeeds |
| LegacyTable.Table.SaveToDisk | src/main/java/de/longri/database/table_data/AbstractTable.java:118-139 | the table's file is set to EncodeTable of its entries; no other file changes |
| LegacyTable.Table.WriteEntries | src/main/java/de/longri/database/table_data/AbstractTable.java:125-127 | appends every entry's encoding, in order |
| LegacyTable.Table.LoadFromDisk | src/main/java/de/longri/database/table_data/AbstractTable.java:141-162 | the entries DiskLoad reads are appended and the folder becomes what DiskLoad leaves |
| LegacyTable.Table.ReadEntries | src/main/java/de/longri/database/table_data/AbstractTable.java:153-155 | the entries DecodeRows reads are appended, and a failed read is reported |
| LegacyTable.Table.Equals | src/main/java/de/longri/database/table_data/AbstractTable.java:164-170 | true iff the other object is a table whose entry list is equal, entry by entry |
| LegacyTable.Table.ToString | src/main/java/de/longri/database/table_data/AbstractTable.java:178-192 | the text TableText gives for the entries' texts |
| LegacyTable.Table.WriteInfoTable | src/main/java/de/longri/database/table_data/AbstractTable.java:24-60 | appends exactly the info line of the table's name, entry count, source and stamp |
| LegacyTable.AppendSpaces | src/main/java/de/longri/database/table_data/AbstractTable.java:62-66 | appends as many spaces as the count, none for a negative count |
| ConnectionPools.Created | src/main/java/de/longri/database/ConnectionPool.java:41-48 | a created connection is pushed; an SQLException gives null (no error); a security or I/O error is rethrown wrapped in a RuntimeException; any other error propagates |
| ConnectionPools.ReturnThenGet | src/main/java/de/longri/database/ConnectionPool.java:39-58 | a returned connection is the next one handed out, and the pool is as before; returning null changes nothing |
| ConnectionPools.GetNeverGrows | src/main/java/de/longri/database/ConnectionPool.java:39-51 | getConnection shrinks a non-empty pool by one without calling the creator, and leaves an empty pool empty |
| ConnectionPools.DrainMeaning | src/main/java/de/longri/database/ConnectionPool.java:61-66 | shutdown succeeds exactly when every pooled connection closes, and then the pool is empty; otherwise it stops at the top-most failing one, which is popped, with a NullPointerException for a null entry or the close error |
| ConnectionPools.Pool.constructor | src/main/java/de/longri/database/ConnectionPool.java:31-35 | an empty pool |
| ConnectionPools.Pool.IsEmpty | src/main/java/de/longri/database/ConnectionPool.java:40 | true iff the stack is empty |
| ConnectionPools.Pool.GetConnection | src/main/java/de/longri/database/ConnectionPool.java:39-51 | the stack and the result become what Get gives |
| ConnectionPools.Pool.Take | src/main/java/de/longri/database/ConnectionPool.java:50 | Stack.pop: the top connection, removed |
| ConnectionPools.Pool.ReturnConnection | src/main/java/de/longri/database/ConnectionPool.java:54-58 | a non-null connection is pushed; null changes nothing |
| ConnectionPools.Pool.Push | src/main/java/de/longri/database/ConnectionPool.java:68-70 | the connection is pushed on top |
| ConnectionPools.Pool.Shutdown | src/main/java/de/longri/database/ConnectionPool.java:61-66 | the stack and the outcome become what Drain gives |
| DatabaseConnections.RemoveFirst | src/main/java/de/longri/database/DatabaseConnection.java:69-71 | ArrayList.remove(Object): the first occurrence is removed; a missing element changes nothing |
| DatabaseConnections.RemoveFirstDistinct | src/main/java/de/longri/database/DatabaseConnection.java:69-71 | on a list without duplicates the element is gone afterwards and every other element stays |
| DatabaseConnections.RemoveAppended | src/main/java/de/longri/database/DatabaseConnection.java:65-71 | removing what was just appended restores the list |
| DatabaseConnections.ListenerRegistry | src/main/java/de/longri/database/DatabaseConnection.java:65-71 | the listener list never holds a duplicate; an added listener is present and a removed one absent; adding then removing a new listener restores the list |
| DatabaseConnections.ConnectMeaning | src/main/java/de/longri/database/DatabaseConnection.java:76-101 | connect fails, changing nothing, exactly when no connection was open and opening one failed; it reports a new connection exactly when none was open; the id is then registered once |
| DatabaseConnections.DisconnectMeaning | src/main/java/de/longri/database/DatabaseConnection.java:103-136 | with no connection nothing happens; otherwise the id is removed and the connection is closed exactly when no id is left, a failing close propagating |
| DatabaseConnections.ConnectThenDisconnect | src/main/java/de/longri/database/DatabaseConnection.java:76-136 | connect then disconnect with a fresh id restores the ids and the connection, and reports closing exactly when none was open before |
| DatabaseConnections.ConnectedEvents | src/main/java/de/longri/database/DatabaseConnection.java:96-98 | one databaseConnected call per listener, in order |
| DatabaseConnections.DisconnectedEvents | src/main/java/de/longri/database/DatabaseConnection.java:131-133 | one databaseDisconnected call per listener, in order |
| DatabaseConnections.DatabaseConnection.constructor | src/main/java/de/longri/database/DatabaseConnection.java:62-74 | no connection, no open ids, no listeners |
| DatabaseConnections.DatabaseConnection.AddConnectionListener | src/main/java/de/longri/database/DatabaseConnection.java:65-67 | the listener is appended unless present; nothing else changes |
| DatabaseConnections.DatabaseConnection.RemoveConnectionListener | src/main/java/de/longri/database/DatabaseConnection.java:69-71 | the first occurrence of the listener is removed; nothing else changes |
| DatabaseConnections.DatabaseConnection.Connect | src/main/java/de/longri/database/DatabaseConnection.java:76-101 | the session becomes AfterConnect of the old one and, unless it failed, every listener is told in order |
| DatabaseConnections.DatabaseConnection.NotifyConnected | src/main/java/de/longri/database/DatabaseConnection.java:96-98 | appends one databaseConnected event per listener |
| DatabaseConnections.DatabaseConnection.Disconnect | src/main/java/de/longri/database/DatabaseConnection.java:103-136 | the session becomes AfterDisconnect of the old one; listeners are told unless there was no connection or the close failed |
| DatabaseConnections.DatabaseConnection.NotifyDisconnected | src/main/java/de/longri/database/DatabaseConnection.java:131-133 | appends one databaseDisconnected event per listener |
| DatabaseConnections.DatabaseConnection.CreateStatement | src/main/java/de/longri/database/DatabaseConnection.java:140-145 | "no connection to Database" without a connection, a statement on it otherwise |
| ClusterConnections.HostList | src/main/java/de/longri/database/MariaDB_Cluster_Connection.java:178 | each host written as host:port, in order |
| ClusterConnections.RotatedAt | src/main/java/de/longri/database/MariaDB_Cluster_Connection.java:175-177 | position i of the rotated host list is host (k + i) mod n |
| ClusterConnections.RotatedPermutation | src/main/java/de/longri/database/MariaDB_Cluster_Connection.java:175-180 | the rotated host list is a permutation of the configured one |
| ClusterConnections.RotatedMod | src/main/java/de/longri/database/MariaDB_Cluster_Connection.java:176 | rotating by k is rotating by k mod n |
| ClusterConnections.RotatedPeriod | src/main/java/de/longri/database/MariaDB_Cluster_Connection.java:176 | rotating by n more gives the same order |
| ClusterConnections.ClusterUrlHosts | src/main/java/de/longri/database/MariaDB_Cluster_Connection.java:173-185 | the URL names every configured host exactly once, and splitting its host part at ',' gives the rotated hosts back |
| ClusterConnections.RotationAfterMeaning | src/main/java/de/longri/database/MariaDB_Cluster_Connection.java:183 | after some calls the rotation index is (start + calls) mod n, always below n |
| ClusterConnections.UrlAfter | src/main/java/de/longri/database/MariaDB_Cluster_Connection.java:170-185 | the URL built after some calls is the one for start + calls |
| ClusterConnections.UrlMod | src/main/java/de/longri/database/MariaDB_Cluster_Connection.java:176 | the URL for k is the URL for k mod n |
| ClusterConnections.UrlPeriod | src/main/java/de/longri/database/MariaDB_Cluster_Connection.java:176 | the URL repeats every n calls |
| ClusterConnections.TestRotation | src/test/java/de/longri/database/MariaDB_Cluster_ConnectionTest.java:69-85 | starting from rotation index 1, three connections built one by one name the hosts in the orders 2-3-1, 3-1-2 and 1-2-3 |
| ClusterConnections.FillPushed | src/main/java/de/longri/database/MariaDB_Cluster_Connection.java:55-62 | the pool receives, in order, one connection per successful creation, each built with the rotation index of its call |
| ClusterConnections.FillEnds | src/main/java/de/longri/database/MariaDB_Cluster_Connection.java:55-62 | a failed creation ends the fill with its error; the rotation index has advanced once per call made |
| ClusterConnections.FillMeaning | src/main/java/de/longri/database/MariaDB_Cluster_Connection.java:55-62 | fillPool pushes the created connections until the first failure, which it reports, and advances the rotation once per call |
| ClusterConnections.FillStops | src/main/java/de/longri/database/MariaDB_Cluster_Connection.java:55-62 | nothing after the first failed creation is attempted |
| ClusterConnections.IterateRotation | src/main/java/de/longri/database/MariaDB_Cluster_Connection.java:183 | repeated updates of the rotation index give (start + calls) mod n |
| ClusterConnections.FillRunMeaning | src/main/java/de/longri/database/MariaDB_Cluster_Connection.java:55-62 | filling from rotation index r pushes, for the j-th call, a connection whose URL is the one for r + j, until the first failed driver call |
| ClusterConnections.FilledPoolTop | src/test/java/de/longri/database/MariaDB_Cluster_ConnectionTest.java:69-85 | after a complete fill of 3n connections the top of the pool lists the hosts in their configured order |
| ClusterConnections.FillEnded | src/main/java/de/longri/database/MariaDB_Cluster_Connection.java:55-62 | once a fill failed, more planned calls do not change its result |
| ClusterConnections.BuiltUrl | src/main/java/de/longri/database/MariaDB_Cluster_Connection.java:173-185 | the StringBuilder loop builds exactly the cluster URL of the rotation |
| ClusterConnections.ClusterConnection.constructor | src/main/java/de/longri/database/MariaDB_Cluster_Connection.java:39-53 | an empty pool, rotation index 1 and start index 0 |
| ClusterConnections.ClusterConnection.CreateNewPooledConnection | src/main/java/de/longri/database/MariaDB_Cluster_Connection.java:170-193 | a connection for the URL of the current rotation, or the driver's error; the rotation index moves on |
| ClusterConnections.ClusterConnection.GetNextHosts | src/main/java/de/longri/database/MariaDB_Cluster_Connection.java:197-205 | the hosts rotated by the start index, which moves on modulo n; an empty host list throws ArithmeticException |
| ClusterConnections.ClusterConnection.FillPool | src/main/java/de/longri/database/MariaDB_Cluster_Connection.java:55-62 | the pool gains what FillRun pushes and the rotation index and outcome are FillRun's |
| ClusterConnections.ClusterConnection.FillRound | src/main/java/de/longri/database/MariaDB_Cluster_Connection.java:58-60 | one round over the host list, continuing the fill or ending it as FillRun says |
| ClusterConnections.ClusterConnection.FillStep | src/main/java/de/longri/database/MariaDB_Cluster_Connection.java:59 | one push, as FillRun of one more call says |
| ClusterConnections.ClusterConnection.GetConnection | src/main/java/de/longri/database/MariaDB_Cluster_Connection.java:163-165 | the pool's getConnection with this connection as creator; the rotation index moves only when a connection had to be created |
| ClusterConnections.ClusterConnection.CreateStatement | src/main/java/de/longri/database/MariaDB_Cluster_Connection.java:219-229 | a statement on a connection from the pool: an error when creation failed, NullPointerException when the pool handed out null |
| ClusterConnections.ClusterConnection.Connect | src/main/java/de/longri/database/MariaDB_Cluster_Connection.java:232-234 | always throws "not implemented" |
| ClusterConnections.ClusterConnection.Disconnect | src/main/java/de/longri/database/MariaDB_Cluster_Connection.java:237-239 | always throws "not implemented" |
| MySqlConnections.ConnectionString | src/main/java/de/longri/database/MySqlConnection.java:45 | the URL starts with "jdbc:mysql://" |
| MySqlConnections.ConnectionStringRoundTrip | src/main/java/de/longri/database/MySqlConnection.java:45 | address, port and database name can be read back from the URL when the address has no ':' and the port no '/' |
| MySqlConnections.ParsedConnectionString | src/main/java/de/longri/database/MySqlConnection.java:45 | any URL the reader accepts is the URL of what it reads |
| MySqlConnections.Describe | src/main/java/de/longri/database/MySqlConnection.java:255-257 | toString is "MySqlConnection: " followed by the URL |
| MySqlConnections.PreparedMeaning | src/main/java/de/longri/database/MySqlConnection.java:110-116 | a piece is skipped exactly when it trims to nothing; otherwise the command is the trimmed piece, with a leading INSERT INTO `SCHEME` rewritten to INSERT IGNORE INTO `SCHEME`; preparing it again changes nothing |
| MySqlConnections.InsertRewritten | src/main/java/de/longri/database/MySqlConnection.java:113-115 | a rewritten insert starts with INSERT IGNORE and no longer with the plain insert |
| MySqlConnections.CollectFrom | src/main/java/de/longri/database/MySqlConnection.java:110-118 | every collected command comes from some piece |
| MySqlConnections.CollectNone | src/main/java/de/longri/database/MySqlConnection.java:110-118 | nothing is collected exactly when every piece is skipped |
| MySqlConnections.Statements | src/main/java/de/longri/database/MySqlConnection.java:101-116 | at most one command per ";\n"-separated piece |
| MySqlConnections.StatementsPrepared | src/main/java/de/longri/database/MySqlConnection.java:110-116 | every command run comes from some piece, is non-empty and is never a plain INSERT INTO `SCHEME` |
| MySqlConnections.StatementsNone | src/main/java/de/longri/database/MySqlConnection.java:110-112 | no command runs exactly when every piece is blank |
| MySqlConnections.FirstFailure | src/main/java/de/longri/database/MySqlConnection.java:109-120 | the commands before the first failing one all succeed |
| MySqlConnections.ClosingMeaning | src/main/java/de/longri/database/MySqlConnection.java:119-126 | the closing calls run no command and end with setAutoCommit(true); commit is called exactly when no command failed, rollback exactly when one failed or the commit did |
| MySqlConnections.AttemptedMeaning | src/main/java/de/longri/database/MySqlConnection.java:109-120 | the commands run are a prefix of the dump's commands: all but the last succeeded, and the run stops early only at a failure |
| MySqlConnections.ImportRunMeaning | src/main/java/de/longri/database/MySqlConnection.java:100-136 | importDumbString switches auto-commit off and back on, runs the commands in order up to the first failure, commits exactly when all succeeded, and succeeds exactly when all did and the commit did; a failure carries "With command:" and the last command run |
| MySqlConnections.DatabaseExistsMeaning | src/main/java/de/longri/database/MySqlConnection.java:152-164 | databaseExist is true when a connection is open or can be opened and closed, false when opening fails, and leaves the session as it found it |
| MySqlConnections.CreateNewDatabaseGuard | src/main/java/de/longri/database/MySqlConnection.java:218-252 | nothing is done unless both admin name and password are given; then three statements run over "jdbc:mysql://address:port/?" |
| MySqlConnections.MySqlConnection.constructor | src/main/java/de/longri/database/MySqlConnection.java:39-46 | the fields as given, the URL built from them, no connection and no listeners |
| MySqlConnections.MySqlConnection.ImportDumbString | src/main/java/de/longri/database/MySqlConnection.java:100-136 | without a connection "no connection to Database" and no action; otherwise the actions and outcome ImportRun gives for the dump's commands |
| MySqlConnections.MySqlConnection.Finish | src/main/java/de/longri/database/MySqlConnection.java:119-130 | appends the closing calls and reports the command failure, else the commit failure |
| MySqlConnections.MySqlConnection.RunPieces | src/main/java/de/longri/database/MySqlConnection.java:110-118 | runs the prepared commands up to and including the first failing one, keeping the last command run |
| MySqlConnections.MySqlConnection.RunPiece | src/main/java/de/longri/database/MySqlConnection.java:111-117 | one loop round over one piece |
| MySqlConnections.MySqlConnection.DatabaseExist | src/main/java/de/longri/database/MySqlConnection.java:152-164 | the answer and the new session are those DatabaseExists gives |
| MariaDbConnections.HostPorts | src/main/java/de/longri/database/MariaDBConnection.java:49-53 | each address and port trimmed and joined by ':', in order |
| MariaDbConnections.ClusterConnectionString | src/main/java/de/longri/database/MariaDBConnection.java:42-58 | the cluster URL fails with ArrayIndexOutOfBounds exactly when there is no address or fewer ports than addresses |
| MariaDbConnections.SingleHostCluster | src/main/java/de/longri/database/MariaDBConnection.java:39-58 | a one-host cluster URL is the single-host URL of the trimmed address and port |
| MariaDbConnections.ClusterHosts | src/main/java/de/longri/database/MariaDBConnection.java:47-57 | the cluster URL is "jdbc:mysql://" + the host:port pairs joined by ',' + "/" + the database, and splitting the hosts at ',' gives the pairs back |
| MariaDbConnections.TrimKeeps | src/main/java/de/longri/database/MariaDBConnection.java:50 | trimming never introduces a character |
| MariaDbConnections.MariaDbConnection.Single | src/main/java/de/longri/database/MariaDBConnection.java:34-40 | the parent and this connection hold the single-host URL; no cluster lists |
| MariaDbConnections.MariaDbConnection.Cluster | src/main/java/de/longri/database/MariaDBConnection.java:42-58 | the parent holds the first host's URL; this connection holds the cluster URL |
| MariaDbConnections.MariaDbConnection.ConnectionUrl | src/main/java/de/longri/database/MariaDBConnection.java:61-74 | getConnection uses the parent's URL for a single host and the cluster URL otherwise |
| MariaDbConnections.MariaDbConnection.ToString | src/main/java/de/longri/database/MariaDBConnection.java:76-78 | "MariaDBConnection: " followed by the URL |
| MariaDbConnections.NewCluster | src/main/java/de/longri/database/MariaDBConnection.java:42-58 | the cluster constructor fails exactly when the URL cannot be built, and otherwise connects to that URL |
| MariaDbConnections.BuildingStep | src/main/java/de/longri/database/MariaDBConnection.java:49-53 | one loop round appends one host and a ',' unless it is the last |
| BitStores.ReadIntAt | src/main/java/de/longri/database/table_data/AbstractTableDataEntry.java:97 | readInt succeeds exactly on an integer token, which it returns, moving one token on |
| BitStores.ReadBoolAt | src/main/java/de/longri/database/table_data/AbstractTableDataEntry.java:105 | readBool succeeds exactly on a boolean token, which it returns, moving one token on |
| BitStores.ReadStringAt | src/main/java/de/longri/database/table_data/AbstractTableDataEntry.java:98 | readString succeeds exactly on a string token, null included, moving one token on |
| BitStores.ReadDateTimeAt | src/main/java/de/longri/database/table_data/AbstractCache.java:141 | readLocalDateTime succeeds exactly on a date token, null included, moving one token on |
| BitStores.Store.WriteInt | src/main/java/de/longri/database/table_data/AbstractTableDataEntry.java:139 | appends one integer token; the read position is kept |
| BitStores.Store.WriteBool | src/main/java/de/longri/database/table_data/AbstractTableDataEntry.java:144 | appends one boolean token |
| BitStores.Store.WriteString | src/main/java/de/longri/database/table_data/AbstractTableDataEntry.java:143 | appends one string token, null included |
| BitStores.Store.WriteDateTime | src/main/java/de/longri/database/table_data/AbstractCache.java:192 | appends one date token, null included |
| BitStores.Store.ReadInt | src/main/java/de/longri/database/table_data/AbstractTableDataEntry.java:97 | the value ReadIntAt gives, with the position moved past it; on failure the position is kept |
| BitStores.Store.ReadBool | src/main/java/de/longri/database/table_data/AbstractTableDataEntry.java:105 | the value ReadBoolAt gives, with the position moved past it |
| BitStores.Store.ReadString | src/main/java/de/longri/database/table_data/AbstractTableDataEntry.java:98 | the value ReadStringAt gives, with the position moved past it |
| BitStores.Store.ReadDateTime | src/main/java/de/longri/database/table_data/AbstractCache.java:141 | the value ReadDateTimeAt gives, with the position moved past it |
| Text.NatToDecimal | src/main/java/de/longri/database/table_data/AbstractTable.java:29 | Integer.toString of a count: digits only, without a leading zero |
| Text.DecimalRoundTrip | src/main/java/de/longri/database/table_data/AbstractTable.java:29 | the decimal text of a number reads back as that number |
| Text.DecimalLength | src/main/java/de/longri/database/table_data/AbstractTable.java:29-30 | a number below 10^w has at most w digits |
| Text.ZeroPadValue | src/main/java/de/longri/database/Abstract_Database.java:212 | a zero-padded field reads back as its number, and has exactly the field's width when the number fits |
| Text.PadOfValue | src/main/java/de/longri/database/Abstract_Database.java:212 | a digit field is the zero-padding of its own value |
| Text.Trim | src/main/java/de/longri/database/MySqlConnection.java:111 | String.trim: drops the characters up to ' ' at both ends and keeps a string that has none there |
| Text.IndexOf | src/main/java/de/longri/database/MySqlConnection.java:113-114 | the first occurrence from a position, and none before it |
| Text.ReplaceAll | src/main/java/de/longri/database/MySqlConnection.java:114 | String.replace leaves a string without an occurrence unchanged |
| Text.ReplaceAllPrefix | src/main/java/de/longri/database/MySqlConnection.java:113-114 | a string starting with the target starts with the replacement afterwards |
| Text.ReplaceAllIsSplitJoin | src/main/java/de/longri/database/MySqlConnection.java:114 | String.replace cuts the text at the same left-to-right, non-overlapping occurrences as the full split and joins the pieces with the replacement |
| Text.ReplaceAllBySelf | src/main/java/de/longri/database/MySqlConnection.java:114 | replacing the target by itself gives back the original text |
| Text.DropTrailingEmpty | src/main/java/de/longri/database/MySqlConnection.java:101 | String.split drops the trailing empty pieces and only those |
| Text.JoinSplitAll | src/main/java/de/longri/database/MySqlConnection.java:101 | joining the pieces with the separator gives the text back |
| Text.SplitAllJoin | src/main/java/de/longri/database/MariaDBConnection.java:49-53 | splitting ','-joined pieces that hold no ',' gives the pieces back |
| JavaTime.DaysInMonth | src/main/java/de/longri/database/Abstract_Database.java:212 | every month has 28 to 31 days |
| JavaTime.IsAfterTransitive | src/main/java/de/longri/database/cache/AbstractCache.java:289 | isAfter is transitive |
| JavaTime.NextDay | src/main/java/de/longri/database/Abstract_Database.java:212 | the day after a valid date is a valid date (the 24:00:00 rollover) |
| JavaTime.Resolve | src/main/java/de/longri/database/Abstract_Database.java:212 | a resolved date has no nanoseconds |
| JavaTime.FourDigitYear | src/main/java/de/longri/database/Abstract_Database.java:212 | a year from 1 to 9999 is written with four digits that read back as the year |
| CacheTable.Table.constructor | src/main/java/de/longri/database/cache/AbstractTable.java:40-54 | a new table has no rows, an unknown read source, empty thread and connection texts, and last-modified MAX |
| CacheTableData.TableData.constructor | src/main/java/de/longri/database/cache/AbstractTableData.java:20-24 | a new row has one freshly created cell per declared column type, in order, and is flagged as a new row |

## Left out

- Connection bracketing: the model does not capture the `connect`/`disconnect` calls around cache loads (`cache/AbstractCache.java:134,154,216,265,373,379`; `table_data/AbstractCache.java:98,102,129,170,243,249`). The caches receive an open connection, or none, as a parameter. In `table_data/AbstractCache.loadAllFromDisk` the `connect` at line 129 sits outside the `try` block, so a failure there escapes the method instead of reaching the DB-reload fallback; the model does not capture that failure.
- Concurrency:
  - The 12-worker executor and its countdown latch in `cache/AbstractCache.loadAll` are modelled as a sequential loop over the tables.
  - In the `cache` package a failing worker's exception is swallowed. In `table_data` it propagates.
  - Interleavings of workers are not modelled.
  - `synchronized` blocks are not modelled.
- Dates and doubles:
  - Parsing of date text accepts 4-digit years only. The formatter does write longer years, with a `+` sign above 9999.
  - `Double.toString` and `Double.valueOf` are replaced by a decimal text of the double's 64 bits. That text round-trips, but it is not Java's text.
  - The 12-hour US fallback pattern of `getDateTime` is modelled as always failing: it has no AM/PM field, so `java.time` cannot resolve a `LocalDateTime` from it.
- Listener ids: `DatabaseConnection` listeners receive a snapshot of the id list at the time of the call. The aliased `ArrayList` that later calls would change is not modelled.
- DatabaseConnections.DatabaseConnection.NotifyConnected: a listener that throws inside the notification loop is not modelled. In the source such an exception aborts `connect()` after the id and the connection have already been updated (`DatabaseConnection.java:96-98`); the model records only the events.
- DatabaseConnections.DatabaseConnection.NotifyDisconnected: likewise, a throwing listener aborts `disconnect()` after the id was removed and the connection possibly closed (`DatabaseConnection.java:130-133`); the model records only the events.
- CacheTableData.TableData.Get: a row holds its cells by value, so `Get` returns a copy of the cell. In the source `get(name)` returns the row's own property object (`cache/AbstractTableData.java:78-84`), and a `setValue` on it changes the row: its `changed` flag and later `serialize`, `equals` and `toString`. Edits made through the returned cell do not reach the row in the model.
- LegacyEntry.Entry.GetProperty: likewise, the entry holds its properties by value, and `GetProperty` returns a copy. In the source `getProperty(name)` returns the entry's own property object (`table_data/AbstractTableDataEntry.java:123-130`), so edits through it change the entry; in the model they do not.
- Pool creator: a connection creator that returns `null` without throwing cannot be represented. A creator either yields a connection or fails.
- NamedObjectProperty: `de.longri.utils.NamedObjectProperty` is not part of this model. The entries of the older cache are given a concrete property with the behaviour listed in the next three lines.
- LegacyEntry.SetProperty: assumes that the external property's `set` accepts only a value of the property's own kind. It fails with a ClassCast error otherwise, which is not shown by any source in this model.
- LegacyEntry.Entry.ReadProperty: assumes that the external property's `setFromString`/`getAsString` behave as those of `NamedLocalDateTimeProperty` and the other named properties. The entry round-trip relies on that pair being inverse.
- LegacyEntry.Entry.Serialize: the raw-String fallback for a DateTime value that cannot be formatted (`table_data/AbstractTableDataEntry.java:159-170`) is not reachable in the model, because `Valid` forbids a String value in a DateTime property and `DateTimeAsString` is total; a null date gives "NULL" on both paths, since `DateTimeAsString(None) == "NULL"`.
- Logging, the `SleepCall` timer that pre-warms the cluster pool, and `logCacheInfo` are left out. They only print or schedule.
- Credentials: `DatabaseUser` and `getProperties` are left out, as are the JDBC internals (drivers, statements, result-set cursors). The driver's answers are parameters of `Jdbc.DbConnection`.
- Transaction failures: failures of `setAutoCommit`, `rollback` and `close` inside the import are not modelled beyond the error of the statement itself.
- Database administration: `dropDatabase`, `createDatabase` and `MySqlConnection.tableExist` are left out. They send a single statement whose outcome belongs to the server.
- Cluster: `importDumbString`, `databaseExist` and `tableExist` of `MariaDB_Cluster_Connection` are left out. They delegate to a pooled connection.
  - `connect(String, boolean)` is left out.
  - The statement returned by the cluster's `createStatement` is identified with the connection it was made on.
- Cache folder:
  - `getCacheFolder` and `mkdirs` are left out: the disk is a flat map of file names.
  - `deleteDirectory` is modelled as removing every file.
