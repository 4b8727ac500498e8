/// java.time.LocalDateTime as a value of calendar fields, with the two
/// text layouts the database code formats and parses:
///   "yyyy-MM-dd HH:mm:ss"   (the SQL layout)
///   "dd.MM.yyyy HH:mm:ss"   (the German layout)
/// Parsing follows java.time's default SMART resolver: a day 29..31 beyond the
/// end of its month is clamped to the last day, and 24:00:00 is midnight of the
/// next day.
module JavaTime {

  import opened Wrappers
  import opened Text

  datatype DateTimeFields = DateTimeFields(year: int, month: int, day: int,
                                           hour: int, minute: int, second: int, nano: int)

  predicate IsLeap(y: int)
  {
    y % 4 == 0 && (y % 100 != 0 || y % 400 == 0)
  }

  function DaysInMonth(y: int, m: int): (n: int)
    requires 1 <= m <= 12
    ensures 28 <= n <= 31
  {
    if m == 2 then (if IsLeap(y) then 29 else 28)
    else if m == 4 || m == 6 || m == 9 || m == 11 then 30
    else 31
  }

  const MinYear := -999999999
  const MaxYear := 999999999

  predicate ValidFields(f: DateTimeFields)
  {
    MinYear <= f.year <= MaxYear && 1 <= f.month <= 12 && 1 <= f.day <= DaysInMonth(f.year, f.month)
    && 0 <= f.hour <= 23 && 0 <= f.minute <= 59 && 0 <= f.second <= 59 && 0 <= f.nano <= 999999999
  }

  /** A LocalDateTime: every value java.time can hold. */
  type DateTime = f: DateTimeFields | ValidFields(f) witness DateTimeFields(1970, 1, 1, 0, 0, 0, 0)

  /** LocalDateTime.MIN and LocalDateTime.MAX. */
  const MIN: DateTime := DateTimeFields(MinYear, 1, 1, 0, 0, 0, 0)
  const MAX: DateTime := DateTimeFields(MaxYear, 12, 31, 23, 59, 59, 999999999)

  /** truncatedTo(ChronoUnit.SECONDS). */
  function TruncatedToSeconds(d: DateTime): (r: DateTime)
    ensures r.nano == 0
    ensures r.(nano := d.nano) == d
  {
    d.(nano := 0)
  }

  /** isAfter: strictly later on the time line. */
  predicate IsAfter(a: DateTime, b: DateTime)
  {
    if a.year != b.year then a.year > b.year
    else if a.month != b.month then a.month > b.month
    else if a.day != b.day then a.day > b.day
    else if a.hour != b.hour then a.hour > b.hour
    else if a.minute != b.minute then a.minute > b.minute
    else if a.second != b.second then a.second > b.second
    else a.nano > b.nano
  }

  /** isAfter is a strict total order: exactly one of a > b, a == b, b > a. */
  lemma IsAfterTrichotomy(a: DateTime, b: DateTime)
    ensures IsAfter(a, b) || a == b || IsAfter(b, a)
    ensures !(IsAfter(a, b) && IsAfter(b, a))
    ensures !IsAfter(a, a)
  {
  }

  lemma IsAfterTransitive(a: DateTime, b: DateTime, c: DateTime)
    requires IsAfter(a, b) && IsAfter(b, c)
    ensures IsAfter(a, c)
  {
  }

  // ---------------------------------------------------------------- formatting

  /** "yyyy": the year of era, at least four digits, '+' once it needs more. */
  function YearText(y: int): string
  {
    var yoe: nat := if y >= 1 then y else 1 - y;
    if yoe <= 9999 then ZeroPad(yoe, 4) else "+" + NatToDecimal(yoe)
  }

  /** "MM", "dd", "HH", "mm", "ss": two digits. */
  function Two(n: nat): string
  {
    ZeroPad(n, 2)
  }

  /** Format "yyyy-MM-dd HH:mm:ss". */
  function SqlText(d: DateTime): string
  {
    YearText(d.year) + "-" + Two(d.month) + "-" + Two(d.day) + " "
    + Two(d.hour) + ":" + Two(d.minute) + ":" + Two(d.second)
  }

  /** Format "dd.MM.yyyy HH:mm:ss". */
  function GermanText(d: DateTime): string
  {
    Two(d.day) + "." + Two(d.month) + "." + YearText(d.year) + " "
    + Two(d.hour) + ":" + Two(d.minute) + ":" + Two(d.second)
  }

  // ------------------------------------------------------------------- parsing

  predicate DigitsAt(s: string, i: nat, j: nat)
  {
    i <= j <= |s| && AllDigits(s[i..j])
  }

  function FieldAt(s: string, i: nat, j: nat): nat
    requires DigitsAt(s, i, j)
  {
    DecimalValue(s[i..j])
  }

  function NextDay(y: int, m: int, d: int): (r: (int, int, int))
    requires 1 <= m <= 12 && 1 <= d <= DaysInMonth(y, m)
    ensures 1 <= r.1 <= 12 && 1 <= r.2 <= DaysInMonth(r.0, r.1)
  {
    if d < DaysInMonth(y, m) then (y, m, d + 1)
    else if m < 12 then (y, m + 1, 1)
    else (y + 1, 1, 1)
  }

  /** The SMART resolution of parsed fields (year of era, month, day, hour, minute,
    * second) to a LocalDateTime; None where java.time throws. */
  function Resolve(yoe: nat, month: nat, day: nat, hour: nat, minute: nat, second: nat): (r: Option<DateTime>)
    requires yoe <= 9999
    ensures r.Some? ==> r.value.nano == 0
  {
    if yoe < 1 || month < 1 || month > 12 || day < 1 || day > 31 || minute > 59 then None
    else
      var dom := if day <= DaysInMonth(yoe, month) then day else DaysInMonth(yoe, month);
      if hour == 24 && minute == 0 && second == 0 then
        var next := NextDay(yoe, month, dom);
        Some(DateTimeFields(next.0, next.1, next.2, 0, 0, 0, 0))
      else if hour > 23 || second > 59 then None
      else Some(DateTimeFields(yoe, month, dom, hour, minute, second, 0))
  }

  predicate SqlLayout(s: string)
  {
    |s| == 19 && DigitsAt(s, 0, 4) && s[4] == '-' && DigitsAt(s, 5, 7) && s[7] == '-'
    && DigitsAt(s, 8, 10) && s[10] == ' ' && DigitsAt(s, 11, 13) && s[13] == ':'
    && DigitsAt(s, 14, 16) && s[16] == ':' && DigitsAt(s, 17, 19)
  }

  /** LocalDateTime.parse(s, "yyyy-MM-dd HH:mm:ss"); None where it throws. */
  function ParseSqlText(s: string): Option<DateTime>
  {
    if SqlLayout(s) then
      DecimalValueBound(s[0..4]);
      Resolve(FieldAt(s, 0, 4), FieldAt(s, 5, 7), FieldAt(s, 8, 10),
              FieldAt(s, 11, 13), FieldAt(s, 14, 16), FieldAt(s, 17, 19))
    else None
  }

  predicate GermanLayout(s: string)
  {
    |s| == 19 && DigitsAt(s, 0, 2) && s[2] == '.' && DigitsAt(s, 3, 5) && s[5] == '.'
    && DigitsAt(s, 6, 10) && s[10] == ' ' && DigitsAt(s, 11, 13) && s[13] == ':'
    && DigitsAt(s, 14, 16) && s[16] == ':' && DigitsAt(s, 17, 19)
  }

  /** LocalDateTime.parse(s, "dd.MM.yyyy HH:mm:ss"); None where it throws. */
  function ParseGermanText(s: string): Option<DateTime>
  {
    if GermanLayout(s) then
      DecimalValueBound(s[6..10]);
      Resolve(FieldAt(s, 6, 10), FieldAt(s, 3, 5), FieldAt(s, 0, 2),
              FieldAt(s, 11, 13), FieldAt(s, 14, 16), FieldAt(s, 17, 19))
    else None
  }

  /** LocalDateTime.parse(s, "yyyy-MM-dd hh:mm:ss"): the pattern has a clock hour of
    * am/pm but no am/pm marker, so java.time cannot resolve an hour of the day and
    * every input fails. */
  function ParseUsText(s: string): (r: Option<DateTime>)
    ensures r.None?
  {
    None
  }

  // ------------------------------------------------------------------ lemmas

  lemma TwoDigits(n: nat)
    requires n < 100
    ensures |Two(n)| == 2 && AllDigits(Two(n)) && DecimalValue(Two(n)) == n
  {
    assert Pow10(2) == 100;
    ZeroPadValue(n, 2);
  }

  lemma FourDigitYear(y: int)
    requires 1 <= y <= 9999
    ensures |YearText(y)| == 4 && AllDigits(YearText(y)) && DecimalValue(YearText(y)) == y
  {
    assert Pow10(4) == 10000;
    ZeroPadValue(y, 4);
  }

  /** A date with a four-digit year formats to 19 characters in the SQL layout. */
  lemma SqlTextLayout(d: DateTime)
    requires 1 <= d.year <= 9999
    ensures SqlLayout(SqlText(d))
    ensures FieldAt(SqlText(d), 0, 4) == d.year && FieldAt(SqlText(d), 5, 7) == d.month
    ensures FieldAt(SqlText(d), 8, 10) == d.day && FieldAt(SqlText(d), 11, 13) == d.hour
    ensures FieldAt(SqlText(d), 14, 16) == d.minute && FieldAt(SqlText(d), 17, 19) == d.second
  {
    FourDigitYear(d.year);
    TwoDigits(d.month); TwoDigits(d.day); TwoDigits(d.hour); TwoDigits(d.minute); TwoDigits(d.second);
    var s := SqlText(d);
    assert s[0..4] == YearText(d.year);
    assert s[5..7] == Two(d.month);
    assert s[8..10] == Two(d.day);
    assert s[11..13] == Two(d.hour);
    assert s[14..16] == Two(d.minute);
    assert s[17..19] == Two(d.second);
  }

  /** A date with a four-digit year formats to 19 characters in the German layout. */
  lemma GermanTextLayout(d: DateTime)
    requires 1 <= d.year <= 9999
    ensures GermanLayout(GermanText(d))
    ensures FieldAt(GermanText(d), 6, 10) == d.year && FieldAt(GermanText(d), 3, 5) == d.month
    ensures FieldAt(GermanText(d), 0, 2) == d.day && FieldAt(GermanText(d), 11, 13) == d.hour
    ensures FieldAt(GermanText(d), 14, 16) == d.minute && FieldAt(GermanText(d), 17, 19) == d.second
  {
    FourDigitYear(d.year);
    TwoDigits(d.month); TwoDigits(d.day); TwoDigits(d.hour); TwoDigits(d.minute); TwoDigits(d.second);
    var s := GermanText(d);
    assert s[0..2] == Two(d.day);
    assert s[3..5] == Two(d.month);
    assert s[6..10] == YearText(d.year);
    assert s[11..13] == Two(d.hour);
    assert s[14..16] == Two(d.minute);
    assert s[17..19] == Two(d.second);
  }

  /** Format then parse in the SQL layout gives the date back, to the second. */
  lemma SqlRoundTrip(d: DateTime)
    requires 1 <= d.year <= 9999
    ensures ParseSqlText(SqlText(d)) == Some(TruncatedToSeconds(d))
  {
    SqlTextLayout(d);
  }

  /** Format then parse in the German layout gives the date back, to the second. */
  lemma GermanRoundTrip(d: DateTime)
    requires 1 <= d.year <= 9999
    ensures ParseGermanText(GermanText(d)) == Some(TruncatedToSeconds(d))
  {
    GermanTextLayout(d);
  }

  /** The German text of any date is rejected by the SQL parser: the third
    * character is a '.', where the SQL layout has a year digit. */
  lemma GermanTextIsNotSql(d: DateTime)
    ensures ParseSqlText(GermanText(d)).None?
    ensures |GermanText(d)| > 0 && IsDigit(GermanText(d)[0])
  {
    TwoDigits(d.day);
    var s := GermanText(d);
    assert s[2] == '.';
    assert !IsDigit(s[2]);
    assert s[0..4][2] == s[2];
    assert !SqlLayout(s);
  }

  /** A well-formed SQL text: the layout, and fields that need no SMART correction. */
  predicate WellFormedSqlText(s: string)
  {
    SqlLayout(s) && 1 <= FieldAt(s, 0, 4) && 1 <= FieldAt(s, 5, 7) <= 12
    && 1 <= FieldAt(s, 8, 10) <= DaysInMonth(FieldAt(s, 0, 4), FieldAt(s, 5, 7))
    && FieldAt(s, 11, 13) <= 23 && FieldAt(s, 14, 16) <= 59 && FieldAt(s, 17, 19) <= 59
  }

  /** Parse then format in the SQL layout gives a well-formed text back unchanged. */
  lemma SqlTextOfParse(s: string)
    requires WellFormedSqlText(s)
    ensures ParseSqlText(s).Some? && SqlText(ParseSqlText(s).value) == s
  {
    DecimalValueBound(s[0..4]);
    var d := ParseSqlText(s).value;
    PadOfValue(s[0..4]); PadOfValue(s[5..7]); PadOfValue(s[8..10]);
    PadOfValue(s[11..13]); PadOfValue(s[14..16]); PadOfValue(s[17..19]);
    assert YearText(d.year) == s[0..4];
    assert s == s[0..4] + "-" + s[5..7] + "-" + s[8..10] + " " + s[11..13] + ":" + s[14..16] + ":" + s[17..19];
  }
}
