/// What the code reads from a database server: result sets as sequences of
/// rows, a row as a map from column name to a typed SQL value, and a connection
/// as the rows each table query returns. Driver conversions between column
/// kinds are not modelled.
module Jdbc {

  import opened Wrappers
  import opened JavaDoubles

  datatype SqlValue =
    | SqlNull
    | SqlBool(b: bool)
    | SqlInt(i: int)
    | SqlText(s: string)
    | SqlDouble(d: Float64)

  type ResultRow = map<string, SqlValue>

  /** getBoolean: SQL NULL reads as false; an unknown column throws. */
  function GetBoolean(row: ResultRow, column: string): (r: Result<bool>)
    ensures column in row && row[column] == SqlNull ==> r == Ok(false)
    ensures column in row && row[column].SqlBool? ==> r == Ok(row[column].b)
    ensures column !in row ==> r.Err?
  {
    if column !in row then Err(Sql("unknown column " + column))
    else match row[column]
      case SqlNull => Ok(false)
      case SqlBool(b) => Ok(b)
      case _ => Err(Sql("not a boolean column " + column))
  }

  /** getInt: SQL NULL reads as 0. */
  function GetInt(row: ResultRow, column: string): (r: Result<int>)
    ensures column in row && row[column] == SqlNull ==> r == Ok(0)
    ensures column in row && row[column].SqlInt? ==> r == Ok(row[column].i)
    ensures column !in row ==> r.Err?
  {
    if column !in row then Err(Sql("unknown column " + column))
    else match row[column]
      case SqlNull => Ok(0)
      case SqlInt(i) => Ok(i)
      case _ => Err(Sql("not an integer column " + column))
  }

  /** getString: SQL NULL reads as null. */
  function GetString(row: ResultRow, column: string): (r: Result<Option<string>>)
    ensures column in row && row[column] == SqlNull ==> r == Ok(None)
    ensures column in row && row[column].SqlText? ==> r == Ok(Some(row[column].s))
    ensures column !in row ==> r.Err?
  {
    if column !in row then Err(Sql("unknown column " + column))
    else match row[column]
      case SqlNull => Ok(None)
      case SqlText(s) => Ok(Some(s))
      case _ => Err(Sql("not a text column " + column))
  }

  /** getDouble: SQL NULL reads as 0.0. */
  function GetDouble(row: ResultRow, column: string): (r: Result<Float64>)
    ensures column in row && row[column] == SqlNull ==> r == Ok(Zero)
    ensures column in row && row[column].SqlDouble? ==> r == Ok(row[column].d)
    ensures column !in row ==> r.Err?
  {
    if column !in row then Err(Sql("unknown column " + column))
    else match row[column]
      case SqlNull => Ok(Zero)
      case SqlDouble(d) => Ok(d)
      case _ => Err(Sql("not a double column " + column))
  }

  /** A connection as the caches see it: whether it is a cluster connection, the
    * URL its statements report, and the rows a query of each table returns. */
  datatype DbConnection = DbConnection(isCluster: bool, url: string, server: map<string, seq<ResultRow>>)

  /** Execute the query of one table: its rows, or an SQLException. */
  function Query(conn: DbConnection, table: string): (r: Result<seq<ResultRow>>)
    ensures r.Ok? <==> table in conn.server
    ensures r.Ok? ==> r.value == conn.server[table]
  {
    if table in conn.server then Ok(conn.server[table]) else Err(Sql("query of " + table))
  }

  /** The table the last-modified stamps are read from. */
  const LastModifiedTable := "last_modified"
}
