/// The static date helpers of Abstract_Database: the SQL text of a
/// LocalDateTime and back, with "NULL" standing for a missing value.
module AbstractDatabase {

  import opened Wrappers
  import opened Text
  import opened JavaTime

  /** getDateTime: null, "" and any spelling of "NULL" give null; anything else
    * must parse in the layout yyyy-MM-dd HH:mm:ss or the call throws. */
  function GetDateTime(s: Option<string>): (r: Result<Option<DateTime>>)
    ensures r.Ok? && r.value.None? <==> s.None? || s.value == [] || EqualsIgnoreCaseNull(s.value)
    ensures r.Ok? && r.value.Some? ==> ParseSqlText(s.value) == r.value
    ensures r.Err? <==> s.Some? && s.value != [] && !EqualsIgnoreCaseNull(s.value) && ParseSqlText(s.value).None?
  {
    if s.None? || s.value == [] || EqualsIgnoreCaseNull(s.value) then Ok(None)
    else match ParseSqlText(s.value)
      case Some(d) => Ok(Some(d))
      case None => Err(DateTimeParse(s.value))
  }

  /** getDateString: "NULL" for null, otherwise the yyyy-MM-dd HH:mm:ss text. */
  function GetDateString(d: Option<DateTime>): (r: string)
    ensures d.None? <==> r == "NULL"
  {
    match d
    case None => "NULL"
    case Some(t) => SqlText(t)
  }

  /** A date written with getDateString reads back with getDateTime, to the second;
    * a null reads back as null. */
  lemma DateStringRoundTrip(d: Option<DateTime>)
    requires d.Some? ==> 1 <= d.value.year <= 9999
    ensures d.None? ==> GetDateTime(Some(GetDateString(d))) == Ok(None)
    ensures d.Some? ==> GetDateTime(Some(GetDateString(d))) == Ok(Some(TruncatedToSeconds(d.value)))
  {
    if d.Some? {
      var s := SqlText(d.value);
      SqlRoundTrip(d.value);
      SqlTextLayout(d.value);
      assert IsDigit(s[0]) && s[0] == s[0..4][0];
    }
  }

  /** A well-formed SQL text read with getDateTime is written back unchanged. */
  lemma DateTimeRoundTrip(s: string)
    requires WellFormedSqlText(s)
    ensures GetDateTime(Some(s)).Ok? && GetDateString(GetDateTime(Some(s)).value) == s
  {
    SqlTextOfParse(s);
    assert IsDigit(s[0]) && s[0] == s[0..4][0];
  }
}
