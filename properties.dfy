/// The typed cells (AbstractProperty and its five Named*Property subclasses)
/// and PropertyBuilder.create.
///
/// A cell holds a nullable value of its column's kind and a `changed` flag that
/// setValue raises the first time it stores a value the cell does not already
/// hold. Equality is per kind: a DateTime cell compares to the second, a String
/// cell dereferences its current value, the others compare null-safely.
module Properties {

  import opened Wrappers
  import opened Text
  import opened JavaTime
  import opened JavaDoubles
  import opened PropertyTypes

  /** A cell's value: one nullable Java value of one of the five kinds. */
  datatype Value =
    | BoolValue(b: Option<bool>)
    | IntegerValue(i: Option<int>)
    | StringValue(s: Option<string>)
    | DoubleValue(d: Option<Float64>)
    | DateTimeValue(t: Option<DateTime>)

  function KindOf(v: Value): PropertyType
  {
    match v
    case BoolValue(_) => Bool
    case IntegerValue(_) => Integer
    case StringValue(_) => String
    case DoubleValue(_) => Double
    case DateTimeValue(_) => LocalDateTime
  }

  predicate IsNull(v: Value)
  {
    match v
    case BoolValue(b) => b.None?
    case IntegerValue(i) => i.None?
    case StringValue(s) => s.None?
    case DoubleValue(d) => d.None?
    case DateTimeValue(t) => t.None?
  }

  /** A cell: its column, its value and whether setValue has changed it. */
  datatype Cell = Cell(named: NamedPropertyType, value: Value, changed: bool)
  {
    predicate Valid() { KindOf(value) == named.kind }
  }

  /** The value PropertyBuilder.create gives a fresh cell of each kind. */
  function DefaultValue(kind: PropertyType): (v: Value)
    ensures KindOf(v) == kind
    ensures IsNull(v) <==> kind == LocalDateTime
  {
    match kind
    case Bool => BoolValue(Some(false))
    case Double => DoubleValue(Some(Zero))
    case Integer => IntegerValue(Some(0))
    case LocalDateTime => DateTimeValue(None)
    case String => StringValue(Some(""))
  }

  /** PropertyBuilder.create: a fresh, unchanged cell holding its kind's default. */
  function Create(named: NamedPropertyType): (c: Cell)
    ensures c.Valid() && c.named == named && !c.changed
    ensures c.value == DefaultValue(named.kind)
  {
    Cell(named, DefaultValue(named.kind), false)
  }

  /** What a value is compared by: a date and time only to the second. */
  function Canonical(v: Value): Value
  {
    match v
    case DateTimeValue(Some(t)) => DateTimeValue(Some(TruncatedToSeconds(t)))
    case _ => v
  }

  /** valueEquals: the current value against a candidate of the same kind.
    * NamedStringProperty dereferences its current value, so a String cell
    * holding null throws. */
  function CellValueEquals(current: Value, v: Value): (r: Result<bool>)
    requires KindOf(current) == KindOf(v)
    ensures r.Err? <==> current.StringValue? && current.s.None?
    ensures r.Err? ==> r.error == NullPointer
    ensures r.Ok? ==> (r.value <==> Canonical(current) == Canonical(v))
  {
    match current
    case BoolValue(b) => Ok(b == v.b)
    case IntegerValue(i) => Ok(i == v.i)
    case DoubleValue(d) => Ok(d == v.d)
    case StringValue(s) => if s.None? then Err(NullPointer) else Ok(v.s == s)
    case DateTimeValue(t) =>
      if t.None? && v.t.None? then Ok(true)
      else if t.None? || v.t.None? then Ok(false)
      else
        assert t.value.(nano := 0) == v.t.value.(nano := 0) ==> TruncatedToSeconds(t.value) == TruncatedToSeconds(v.t.value);
        Ok(TruncatedToSeconds(t.value) == TruncatedToSeconds(v.t.value))
  }

  /** setValue: a value equal to the current one changes nothing; any other is
    * stored and raises the changed flag. */
  function CellSetValue(c: Cell, v: Value): (r: Result<Cell>)
    requires KindOf(v) == c.named.kind && c.Valid()
    ensures r.Err? <==> c.value.StringValue? && c.value.s.None?
    ensures r.Ok? ==> r.value.Valid() && r.value.named == c.named
    ensures r.Ok? ==> Canonical(r.value.value) == Canonical(v)
    ensures r.Ok? ==> (r.value.changed <==> c.changed || Canonical(c.value) != Canonical(v))
    ensures r.Ok? && Canonical(c.value) == Canonical(v) ==> r.value == c
    ensures r.Ok? && Canonical(c.value) != Canonical(v) ==> r.value.value == v
  {
    var same :- CellValueEquals(c.value, v);
    if same then Ok(c) else Ok(c.(value := v, changed := true))
  }

  /** Setting the same value twice is the same as setting it once, except that a
    * String cell set to null throws on the next setValue. */
  lemma SetValueIdempotent(c: Cell, v: Value)
    requires KindOf(v) == c.named.kind && c.Valid() && CellSetValue(c, v).Ok?
    ensures v != StringValue(None) ==> CellSetValue(CellSetValue(c, v).value, v) == CellSetValue(c, v)
    ensures v == StringValue(None) ==> CellSetValue(CellSetValue(c, v).value, v) == Err(NullPointer)
  {
  }

  /** setValue applied to each value of a sequence in turn. */
  function CellSetValues(c: Cell, vs: seq<Value>): Result<Cell>
    requires c.Valid() && forall i :: 0 <= i < |vs| ==> KindOf(vs[i]) == c.named.kind
    decreases |vs|
  {
    if vs == [] then Ok(c)
    else
      var c1 :- CellSetValue(c, vs[0]);
      CellSetValues(c1, vs[1..])
  }

  /** The changed flag is never lowered, and a cell that ends unchanged still
    * holds the value it started with. */
  lemma {:induction false} ChangedIsSticky(c: Cell, vs: seq<Value>)
    requires c.Valid() && forall i :: 0 <= i < |vs| ==> KindOf(vs[i]) == c.named.kind
    requires CellSetValues(c, vs).Ok?
    ensures c.changed ==> CellSetValues(c, vs).value.changed
    ensures !CellSetValues(c, vs).value.changed ==> CellSetValues(c, vs).value == c
    decreases |vs|
  {
    if vs != [] {
      var c1 := CellSetValue(c, vs[0]).value;
      ChangedIsSticky(c1, vs[1..]);
    }
  }

  // --------------------------------------------------- NamedLocalDateTimeProperty

  /** getAsString: "NULL", the two sentinel names, or the dd.MM.yyyy HH:mm:ss text. */
  function DateTimeAsString(t: Option<DateTime>): string
  {
    if t.None? then "NULL"
    else if t.value == MIN then "LocalDateTime.MIN"
    else if t.value == MAX then "LocalDateTime.MAX"
    else GermanText(t.value)
  }

  /** The value setFromString stores: the three literal names, otherwise the text
    * parsed as dd.MM.yyyy HH:mm:ss, then as yyyy-MM-dd hh:mm:ss, whose failure
    * propagates. A null text fails both parses. */
  function DateTimeFromString(s: Option<string>): (r: Result<Option<DateTime>>)
    ensures s == Some("NULL") ==> r == Ok(None)
    ensures s.None? ==> r.Err?
    ensures r.Ok? && r.value.Some? && r.value.value != MIN && r.value.value != MAX ==> ParseGermanText(s.value) == r.value
  {
    if s == Some("NULL") then Ok(None)
    else if s == Some("LocalDateTime.MIN") then Ok(Some(MIN))
    else if s == Some("LocalDateTime.MAX") then Ok(Some(MAX))
    else if s.None? then Err(NullPointer)
    else match ParseGermanText(s.value)
      case Some(t) => Ok(Some(t))
      case None =>
        match ParseUsText(s.value)
        case Some(t) => Ok(Some(t))
        case None => Err(DateTimeParse(s.value))
  }

  /** What getAsString writes, setFromString reads back: null and the sentinels
    * exactly, any date with a four-digit year to the second. */
  lemma DateTimeStringRoundTrip(t: Option<DateTime>)
    requires t.Some? && t.value != MIN && t.value != MAX ==> 1 <= t.value.year <= 9999
    ensures DateTimeFromString(Some(DateTimeAsString(t))).Ok?
    ensures var r := DateTimeFromString(Some(DateTimeAsString(t))).value;
            Canonical(DateTimeValue(r)) == Canonical(DateTimeValue(t))
    ensures t.None? || t.value == MIN || t.value == MAX ==> DateTimeFromString(Some(DateTimeAsString(t))) == Ok(t)
  {
    if t.Some? && t.value != MIN && t.value != MAX {
      var s := GermanText(t.value);
      GermanRoundTrip(t.value);
      GermanTextIsNotSql(t.value);
      assert s != "NULL" && s != "LocalDateTime.MIN" && s != "LocalDateTime.MAX" by {
        assert IsDigit(s[0]);
      }
    }
  }

  // ------------------------------------------------------------------ toString

  /** The text `"" + value` gives for each kind; a DateTime cell prints "NULL" or
    * the dd.MM.yyyy HH:mm:ss text instead. */
  function ValueText(v: Value): string
  {
    match v
    case BoolValue(b) => if b.None? then "null" else if b.value then "true" else "false"
    case IntegerValue(i) => if i.None? then "null" else IntToDecimal(i.value)
    case StringValue(s) => if s.None? then "null" else s.value
    case DoubleValue(d) => if d.None? then "null" else DoubleText(d.value)
    case DateTimeValue(t) => if t.None? then "NULL" else GermanText(t.value)
  }

  /** toString: "Property <name> =<value text>". */
  function CellText(c: Cell): (r: string)
    ensures StartsWith(r, "Property " + c.named.name + " =")
    ensures r[|"Property " + c.named.name + " ="|..] == ValueText(c.value)
  {
    "Property " + c.named.name + " =" + ValueText(c.value)
  }

  // ----------------------------------------------------------- the cell object

  /** An AbstractProperty object. `stored` records, oldest first, every value
    * setValue has stored into it. */
  class Property {
    const named: NamedPropertyType
    var value: Value
    var changed: bool
    ghost var stored: seq<Value>

    ghost predicate Valid()
      reads this
    {
      KindOf(value) == named.kind
      && (changed <==> stored != [])
      && (stored != [] ==> stored[|stored| - 1] == value)
    }

    function State(): Cell
      reads this
    {
      Cell(named, value, changed)
    }

    constructor (named: NamedPropertyType, value: Value)
      requires KindOf(value) == named.kind
      ensures Valid() && State() == Cell(named, value, false) && stored == []
    {
      this.named := named;
      this.value := value;
      this.changed := false;
      this.stored := [];
    }

    /** PropertyBuilder.create(type). */
    static method Build(named: NamedPropertyType) returns (p: Property)
      ensures fresh(p) && p.Valid() && p.State() == Create(named) && p.stored == []
    {
      p := new Property(named, DefaultValue(named.kind));
    }

    method GetValue() returns (v: Value)
      ensures v == value
    {
      v := value;
    }

    function GetName(): string
    {
      named.name
    }

    function GetType(): PropertyType
    {
      named.kind
    }

    function GetNamedType(): NamedPropertyType
    {
      named
    }

    method IsChanged() returns (b: bool)
      requires Valid()
      ensures b == changed && (b <==> stored != [])
    {
      b := changed;
    }

    method ValueEquals(v: Value) returns (r: Result<bool>)
      requires KindOf(v) == named.kind && Valid()
      ensures r == CellValueEquals(value, v)
    {
      r := CellValueEquals(value, v);
    }

    method SetValue(v: Value) returns (r: Outcome)
      requires Valid() && KindOf(v) == named.kind
      modifies this
      ensures Valid()
      ensures var spec := CellSetValue(old(State()), v);
              (spec.Ok? ==> r.Success? && State() == spec.value)
              && (spec.Err? ==> r == Failure(spec.error) && State() == old(State()))
      ensures stored == old(stored) || stored == old(stored) + [v]
      ensures stored != old(stored) <==> State() != old(State())
      ensures old(changed) ==> changed
    {
      var same := CellValueEquals(value, v);
      if same.Err? {
        return Failure(same.error);
      }
      r := Success;
      if same.value {
        return;
      }
      changed := true;
      value := v;
      stored := stored + [v];
    }

    method ToString() returns (s: string)
      ensures s == CellText(State())
    {
      s := "Property " + named.name + " =" + ValueText(value);
    }

    /** NamedBoolProperty.get: unboxing a null throws. */
    method GetBool() returns (r: Result<bool>)
      requires named.kind == Bool && Valid()
      ensures r.Ok? <==> value.b.Some?
      ensures r.Ok? ==> r.value == value.b.value
    {
      r := if value.b.Some? then Ok(value.b.value) else Err(NullPointer);
    }

    /** NamedIntegerProperty.get: unboxing a null throws. */
    method GetInteger() returns (r: Result<int>)
      requires named.kind == Integer && Valid()
      ensures r.Ok? <==> value.i.Some?
      ensures r.Ok? ==> r.value == value.i.value
    {
      r := if value.i.Some? then Ok(value.i.value) else Err(NullPointer);
    }

    /** NamedDoubleProperty.get: unboxing a null throws. */
    method GetDouble() returns (r: Result<Float64>)
      requires named.kind == Double && Valid()
      ensures r.Ok? <==> value.d.Some?
      ensures r.Ok? ==> r.value == value.d.value
    {
      r := if value.d.Some? then Ok(value.d.value) else Err(NullPointer);
    }

    /** NamedStringProperty.get. */
    method GetString() returns (s: Option<string>)
      requires named.kind == String && Valid()
      ensures StringValue(s) == value
    {
      s := value.s;
    }

    /** NamedLocalDateTimeProperty.get. */
    method GetDateTime() returns (t: Option<DateTime>)
      requires named.kind == LocalDateTime && Valid()
      ensures DateTimeValue(t) == value
    {
      t := value.t;
    }

    method GetAsString() returns (s: string)
      requires named.kind == LocalDateTime && Valid()
      ensures s == DateTimeAsString(value.t)
    {
      if value.t.None? {
        s := "NULL";
      } else if value.t.value == MIN {
        s := "LocalDateTime.MIN";
      } else if value.t.value == MAX {
        s := "LocalDateTime.MAX";
      } else {
        s := GermanText(value.t.value);
      }
    }

    method SetFromString(s: Option<string>) returns (r: Outcome)
      requires named.kind == LocalDateTime && Valid()
      modifies this
      ensures Valid()
      ensures var parsed := DateTimeFromString(s);
              (parsed.Err? ==> r == Failure(parsed.error) && State() == old(State()))
              && (parsed.Ok? ==> r.Success? && State() == CellSetValue(old(State()), DateTimeValue(parsed.value)).value)
      ensures old(changed) ==> changed
    {
      var parsed := DateTimeFromString(s);
      if parsed.Err? {
        return Failure(parsed.error);
      }
      r := SetValue(DateTimeValue(parsed.value));
    }
  }
}
