/// A row of the older cache package (table_data.AbstractTableDataEntry): a list
/// of named, typed properties built from a table's column names, from a result
/// set, or from a cache file, and written back to a cache file.
///
/// The properties are instances of an external class (NamedObjectProperty). The
/// model holds each as a column descriptor and a value; a table's createProperty
/// is its list of column descriptors (the first one with the asked name), and
/// `set` accepts only a value of the property's own kind.
module LegacyEntry {

  import opened Wrappers
  import opened Text
  import opened JavaTime
  import opened JavaDoubles
  import opened PropertyTypes
  import opened Properties
  import opened BitStores
  import opened Jdbc
  import CacheTableData

  /** The type tags written before each property. */
  const BoolTag := 0
  const IntegerTag := 1
  const StringTag := 2
  const LocalDateTimeTag := 3
  const DoubleTag := 4

  /** The tag of a kind: the tags agree with the PropertyType ids. */
  function Tag(kind: PropertyType): (t: int)
    ensures t == Id(kind)
  {
    match kind
    case Bool => BoolTag
    case Integer => IntegerTag
    case String => StringTag
    case LocalDateTime => LocalDateTimeTag
    case Double => DoubleTag
  }

  /** A property: its column and its value. */
  datatype ObjProperty = ObjProperty(named: NamedPropertyType, value: Value)
  {
    predicate Valid() { KindOf(value) == named.kind && CacheTableData.NullOnlyWhereAllowed(value) }
  }

  /** The first column descriptor with this name. */
  function FindKind(kinds: seq<NamedPropertyType>, name: string): (r: Option<NamedPropertyType>)
    ensures r.Some? ==> r.value in kinds && r.value.name == name
    ensures r.None? <==> forall k :: 0 <= k < |kinds| ==> kinds[k].name != name
  {
    if kinds == [] then None
    else if kinds[0].name == name then Some(kinds[0])
    else FindKind(kinds[1..], name)
  }

  /** createProperty: a property holding its kind's default value, or none for
    * a name (or null) the table does not know. */
  function CreateProperty(kinds: seq<NamedPropertyType>, name: Option<string>): Option<ObjProperty>
  {
    if name.None? then None
    else match FindKind(kinds, name.value)
      case None => None
      case Some(n) => Some(ObjProperty(n, DefaultValue(n.kind)))
  }

  /** set: the property holding v; a value of another kind is refused. */
  function SetProperty(p: ObjProperty, v: Value): (r: Result<ObjProperty>)
    ensures r.Ok? <==> KindOf(v) == p.named.kind
    ensures r.Ok? ==> r.value == ObjProperty(p.named, v)
  {
    if KindOf(v) == p.named.kind then Ok(p.(value := v)) else Err(ClassCast)
  }

  /** The private getProperty(list, name): the first property with that name. */
  function FirstNamed(props: seq<ObjProperty>, name: string): (r: Option<ObjProperty>)
    ensures r.Some? ==> r.value in props && r.value.named.name == name
    ensures r.None? <==> forall k :: 0 <= k < |props| ==> props[k].named.name != name
  {
    if props == [] then None
    else if props[0].named.name == name then Some(props[0])
    else FirstNamed(props[1..], name)
  }

  /** The text Java concatenation gives a nullable name. */
  function NameText(name: Option<string>): string
  {
    if name.None? then "null" else name.value
  }

  // --------------------------------------------------- copy-forward constructor

  /** The copy-forward constructor from column i on: one property per column
    * name, holding the value of the first same-named given property when there
    * is one. */
  function CopyForwardFrom(columns: seq<string>, kinds: seq<NamedPropertyType>,
                           props: seq<ObjProperty>, i: nat): (r: Result<seq<ObjProperty>>)
    requires i <= |columns|
    ensures r.Ok? ==> |r.value| == |columns| - i
    ensures r.Ok? ==> forall j :: 0 <= j < |r.value| ==>
              FindKind(kinds, columns[i + j]) == Some(r.value[j].named)
              && r.value[j].value == (if FirstNamed(props, columns[i + j]).Some?
                                      then FirstNamed(props, columns[i + j]).value.value
                                      else DefaultValue(r.value[j].named.kind))
    ensures r.Err? <==> exists j :: i <= j < |columns| && !CopyForwardAccepts(kinds, props, columns[j])
    decreases |columns| - i
  {
    if i == |columns| then Ok([])
    else
      match CreateProperty(kinds, Some(columns[i]))
      case None => Err(Runtime("Cant't create property for column: " + columns[i]))
      case Some(p) =>
        var q :- CopyValue(p, FirstNamed(props, columns[i]));
        var rest :- CopyForwardFrom(columns, kinds, props, i + 1);
        Ok([q] + rest)
  }

  /** A column the copy-forward constructor can fill: the table knows it, and a
    * same-named given property holds a value of its kind. */
  predicate CopyForwardAccepts(kinds: seq<NamedPropertyType>, props: seq<ObjProperty>, column: string)
  {
    FindKind(kinds, column).Some?
    && (FirstNamed(props, column).Some? ==> KindOf(FirstNamed(props, column).value.value) == FindKind(kinds, column).value.kind)
  }

  function CopyValue(p: ObjProperty, source: Option<ObjProperty>): (r: Result<ObjProperty>)
  {
    if source.None? then Ok(p) else SetProperty(p, source.value.value)
  }

  // ---------------------------------------------------- result-set constructor

  /** The result-set constructor from column i on: each property is read from
    * the same-named result column according to its kind. */
  function FillFrom(columns: seq<string>, kinds: seq<NamedPropertyType>, row: ResultRow, i: nat): (r: Result<seq<ObjProperty>>)
    requires i <= |columns|
    ensures r.Ok? ==> |r.value| == |columns| - i
    ensures r.Ok? ==> forall j :: 0 <= j < |r.value| ==>
              r.value[j].Valid()
              && FindKind(kinds, columns[i + j]) == Some(r.value[j].named)
              && CacheTableData.ReadColumn(r.value[j].named, row) == Ok(r.value[j].value)
    decreases |columns| - i
  {
    if i == |columns| then Ok([])
    else
      match CreateProperty(kinds, Some(columns[i]))
      case None => Err(Runtime("Cant't create property for column: " + columns[i]))
      case Some(p) =>
        var v :- CacheTableData.ReadColumn(p.named, row);
        var q :- SetProperty(p, v);
        var rest :- FillFrom(columns, kinds, row, i + 1);
        Ok([q] + rest)
  }

  // ------------------------------------------------------------------ encoding

  function EncodeProperty(p: ObjProperty): seq<Token>
    requires p.Valid()
  {
    [IntToken(Tag(p.named.kind)), StringToken(Some(p.named.name)), CacheTableData.EncodeValue(p.value)]
  }

  predicate AllValid(props: seq<ObjProperty>)
  {
    forall i :: 0 <= i < |props| ==> props[i].Valid()
  }

  function EncodeProperties(props: seq<ObjProperty>): (ts: seq<Token>)
    requires AllValid(props)
    ensures |ts| == 3 * |props|
  {
    if props == [] then [] else EncodeProperty(props[0]) + EncodeProperties(props[1..])
  }

  /** serialize: the property count, then each property's tag, name and value. */
  function EncodeEntry(props: seq<ObjProperty>): (ts: seq<Token>)
    requires AllValid(props)
    ensures |ts| == 1 + 3 * |props|
  {
    [IntToken(|props|)] + EncodeProperties(props)
  }

  // ------------------------------------------------------------------ decoding

  /** readProperty: tag, name, then a value read the way the tag says. The name
    * must be a column; a tag outside 0..4 or a value of another kind than the
    * column's fails. */
  function DecodeProperty(kinds: seq<NamedPropertyType>, tableName: string, ts: seq<Token>, pos: nat)
    : (r: Result<(ObjProperty, nat)>)
    ensures r.Ok? ==> r.value.0.Valid() && r.value.1 == pos + 3
    ensures r.Ok? ==> FindKind(kinds, r.value.0.named.name) == Some(r.value.0.named)
    ensures r.Ok? ==> ReadIntAt(ts, pos).Ok? && FromId(ReadIntAt(ts, pos).value.0) == Ok(r.value.0.named.kind)
  {
    var (tag, p1) :- ReadIntAt(ts, pos);
    var (name, p2) :- ReadStringAt(ts, p1);
    match CreateProperty(kinds, name)
    case None => Err(Runtime("Property " + NameText(name) + " not found for table " + tableName))
    case Some(p) =>
      if tag == BoolTag then
        var (b, p3) :- ReadBoolAt(ts, p2);
        var q :- SetProperty(p, BoolValue(Some(b)));
        Ok((q, p3))
      else if tag == IntegerTag then
        var (i, p3) :- ReadIntAt(ts, p2);
        var q :- SetProperty(p, IntegerValue(Some(i)));
        Ok((q, p3))
      else if tag == StringTag then
        var (s, p3) :- ReadStringAt(ts, p2);
        var q :- SetProperty(p, StringValue(s));
        Ok((q, p3))
      else if tag == DoubleTag then
        var (s, p3) :- ReadStringAt(ts, p2);
        if s.None? then Err(NullPointer)
        else
          var d :- ParseDouble(s.value);
          var q :- SetProperty(p, DoubleValue(Some(d)));
          Ok((q, p3))
      else if tag == LocalDateTimeTag then
        if p.named.kind != LocalDateTime then Err(ClassCast)
        else
          var (s, p3) :- ReadStringAt(ts, p2);
          var t :- DateTimeFromString(s);
          Ok((p.(value := DateTimeValue(t)), p3))
      else Err(Runtime("Unknown property type " + IntToDecimal(tag)))
  }

  /** n properties read one after the other. */
  function DecodeProperties(kinds: seq<NamedPropertyType>, tableName: string, ts: seq<Token>, pos: nat, n: nat)
    : (r: Result<(seq<ObjProperty>, nat)>)
    ensures r.Ok? ==> |r.value.0| == n && AllValid(r.value.0) && r.value.1 == pos + 3 * n
    decreases n
  {
    if n == 0 then Ok(([], pos))
    else
      var (p, p1) :- DecodeProperty(kinds, tableName, ts, pos);
      var (rest, end) :- DecodeProperties(kinds, tableName, ts, p1, n - 1);
      Ok(([p] + rest, end))
  }

  lemma DecodePropertiesStep(kinds: seq<NamedPropertyType>, tableName: string, ts: seq<Token>, pos: nat, n: nat)
    requires n > 0
    ensures var first := DecodeProperty(kinds, tableName, ts, pos);
            (first.Err? ==> DecodeProperties(kinds, tableName, ts, pos, n) == Err(first.error))
            && (first.Ok? ==> DecodeProperties(kinds, tableName, ts, pos, n)
                              == PrependAt([first.value.0], DecodeProperties(kinds, tableName, ts, first.value.1, n - 1)))
  {
  }

  /** The step of the reading loop once the first property was read. */
  lemma PropertiesStepOk(kinds: seq<NamedPropertyType>, tableName: string, ts: seq<Token>, pos: nat, n: nat,
                         first: Result<(ObjProperty, nat)>, next: Result<(seq<ObjProperty>, nat)>)
    requires n > 0 && first == DecodeProperty(kinds, tableName, ts, pos) && first.Ok?
    requires next == DecodeProperties(kinds, tableName, ts, first.value.1, n - 1)
    ensures DecodeProperties(kinds, tableName, ts, pos, n) == PrependAt([first.value.0], next)
  {
    DecodePropertiesStep(kinds, tableName, ts, pos, n);
  }

  /** The reading loop stops at the first property that cannot be read. */
  lemma PropertiesStepErr(kinds: seq<NamedPropertyType>, tableName: string, ts: seq<Token>, pos: nat, n: nat, e: Error)
    requires n > 0
    requires DecodeProperty(kinds, tableName, ts, pos) == Err(e)
    ensures DecodeProperties(kinds, tableName, ts, pos, n) == Err(e)
  {
    DecodePropertiesStep(kinds, tableName, ts, pos, n);
  }

  /** The binary constructor: a count, then that many properties in stored
    * order (a negative count reads none). */
  function DecodeEntry(kinds: seq<NamedPropertyType>, tableName: string, ts: seq<Token>, pos: nat)
    : (r: Result<(seq<ObjProperty>, nat)>)
    ensures r.Ok? ==> AllValid(r.value.0) && r.value.1 == pos + 1 + 3 * |r.value.0|
    ensures r.Ok? ==> ReadIntAt(ts, pos).Ok? && |r.value.0| == (if ReadIntAt(ts, pos).value.0 < 0 then 0 else ReadIntAt(ts, pos).value.0)
  {
    var (count, p) :- ReadIntAt(ts, pos);
    DecodeProperties(kinds, tableName, ts, p, if count < 0 then 0 else count)
  }

  // ---------------------------------------------------------------- round trip

  /** A value getAsString writes and setFromString reads back: any but a date
    * whose year has other than four digits. */
  predicate DateRoundTrips(v: Value)
  {
    v.DateTimeValue? && v.t.Some? && v.t.value != MIN && v.t.value != MAX ==> 1 <= v.t.value.year <= 9999
  }

  /** A property the table would create under its own name. */
  predicate Decodable(kinds: seq<NamedPropertyType>, p: ObjProperty)
  {
    p.Valid() && FindKind(kinds, p.named.name) == Some(p.named) && DateRoundTrips(p.value)
  }

  lemma DecodeEncodedProperty(kinds: seq<NamedPropertyType>, tableName: string, p: ObjProperty, ts: seq<Token>, pos: nat)
    requires Decodable(kinds, p)
    requires pos + 3 <= |ts| && ts[pos..pos + 3] == EncodeProperty(p)
    ensures DecodeProperty(kinds, tableName, ts, pos).Ok?
    ensures var q := DecodeProperty(kinds, tableName, ts, pos).value;
            q.1 == pos + 3 && q.0.named == p.named && Canonical(q.0.value) == Canonical(p.value)
  {
    assert ts[pos] == IntToken(Tag(p.named.kind)) && ts[pos + 1] == StringToken(Some(p.named.name))
      && ts[pos + 2] == CacheTableData.EncodeValue(p.value) by {
      assert ts[pos..pos + 3][0] == ts[pos] && ts[pos..pos + 3][1] == ts[pos + 1] && ts[pos..pos + 3][2] == ts[pos + 2];
    }
    match p.value
    case DoubleValue(d) => DoubleTextRoundTrip(d.value);
    case DateTimeValue(t) => DateTimeStringRoundTrip(t);
    case _ =>
  }

  lemma {:induction false} DecodeEncodedProperties(kinds: seq<NamedPropertyType>, tableName: string,
                                                   props: seq<ObjProperty>, ts: seq<Token>, pos: nat)
    requires AllValid(props) && forall i :: 0 <= i < |props| ==> Decodable(kinds, props[i])
    requires pos + 3 * |props| <= |ts| && ts[pos..pos + 3 * |props|] == EncodeProperties(props)
    ensures var r := DecodeProperties(kinds, tableName, ts, pos, |props|);
            r.Ok? && r.value.1 == pos + 3 * |props|
            && forall i :: 0 <= i < |props| ==>
                 r.value.0[i].named == props[i].named && Canonical(r.value.0[i].value) == Canonical(props[i].value)
    decreases |props|
  {
    if props != [] {
      var whole := ts[pos..pos + 3 * |props|];
      assert ts[pos..pos + 3] == whole[..3];
      DecodeEncodedProperty(kinds, tableName, props[0], ts, pos);
      assert ts[pos + 3..pos + 3 + 3 * |props[1..]|] == whole[3..];
      DecodeEncodedProperties(kinds, tableName, props[1..], ts, pos + 3);
      PropertiesCons(kinds, tableName, props, ts, pos);
    }
  }

  /** The first property read back in front of the others read back. */
  lemma {:induction false} PropertiesCons(kinds: seq<NamedPropertyType>, tableName: string, props: seq<ObjProperty>, ts: seq<Token>, pos: nat)
    requires |props| > 0
    requires var q := DecodeProperty(kinds, tableName, ts, pos);
             q.Ok? && q.value.1 == pos + 3 && q.value.0.named == props[0].named
             && Canonical(q.value.0.value) == Canonical(props[0].value)
    requires var r := DecodeProperties(kinds, tableName, ts, pos + 3, |props[1..]|);
             r.Ok? && r.value.1 == pos + 3 + 3 * |props[1..]|
             && forall i :: 0 <= i < |props[1..]| ==>
                  r.value.0[i].named == props[1..][i].named && Canonical(r.value.0[i].value) == Canonical(props[1..][i].value)
    ensures var r := DecodeProperties(kinds, tableName, ts, pos, |props|);
            r.Ok? && r.value.1 == pos + 3 * |props|
            && forall i :: 0 <= i < |props| ==>
                 r.value.0[i].named == props[i].named && Canonical(r.value.0[i].value) == Canonical(props[i].value)
  {
    var tail := props[1..];
    var first := DecodeProperty(kinds, tableName, ts, pos).value;
    var rest := DecodeProperties(kinds, tableName, ts, pos + 3, |tail|);
    assert |tail| == |props| - 1;
    DecodePropertiesStep(kinds, tableName, ts, pos, |props|);
    var out := [first.0] + rest.value.0;
    assert DecodeProperties(kinds, tableName, ts, pos, |props|) == Ok((out, rest.value.1));
    assert |out| == |props|;
    forall i | 0 <= i < |props|
      ensures out[i].named == props[i].named && Canonical(out[i].value) == Canonical(props[i].value)
    {
      if i > 0 {
        var j := i - 1;
        assert out[i] == rest.value.0[j];
        assert tail[j] == props[i];
      }
    }
  }

  /** Round trip of an entry: what serialize writes, the binary constructor
    * reads back, every property with its own column and its value (a date to
    * the second). */
  lemma EntryRoundTrip(kinds: seq<NamedPropertyType>, tableName: string, props: seq<ObjProperty>, ts: seq<Token>, pos: nat)
    requires AllValid(props) && forall i :: 0 <= i < |props| ==> Decodable(kinds, props[i])
    requires pos + |EncodeEntry(props)| <= |ts| && ts[pos..pos + |EncodeEntry(props)|] == EncodeEntry(props)
    ensures var r := DecodeEntry(kinds, tableName, ts, pos);
            r.Ok? && r.value.1 == pos + |EncodeEntry(props)| && |r.value.0| == |props|
            && forall i :: 0 <= i < |props| ==>
                 r.value.0[i].named == props[i].named && Canonical(r.value.0[i].value) == Canonical(props[i].value)
  {
    var enc := EncodeEntry(props);
    assert ts[pos] == IntToken(|props|) by {
      assert ts[pos..pos + |enc|][0] == ts[pos];
    }
    assert ts[pos + 1..pos + 1 + 3 * |props|] == EncodeProperties(props) by {
      assert ts[pos + 1..pos + 1 + 3 * |props|] == ts[pos..pos + |enc|][1..];
    }
    DecodeEncodedProperties(kinds, tableName, props, ts, pos + 1);
  }

  // ----------------------------------------------------------------- the entry

  /** getProperty(name): the first property with that name; an entry without
    * properties, or without one of that name, fails. */
  function PropertyNamed(props: seq<ObjProperty>, name: Option<string>, tableName: string): (r: Result<ObjProperty>)
    ensures |props| == 0 ==> r == Err(Runtime("properties not initialized"))
    ensures r.Ok? <==> |props| > 0 && name.Some? && exists k :: 0 <= k < |props| && props[k].named.name == name.value
    ensures r.Ok? ==> r.value.named.name == name.value && r.value in props
  {
    if |props| == 0 then Err(Runtime("properties not initialized"))
    else if name.Some? && FirstNamed(props, name.value).Some? then Ok(FirstNamed(props, name.value).value)
    else Err(Runtime("Property " + NameText(name) + " not found for table " + tableName))
  }

  class Entry {
    /** The entry's runtime class; equals compares it. */
    const dataClass: string
    const tableName: string
    const kinds: seq<NamedPropertyType>
    const properties: seq<ObjProperty>

    ghost predicate Valid()
    {
      AllValid(properties)
    }

    constructor Init(dataClass: string, tableName: string, kinds: seq<NamedPropertyType>, properties: seq<ObjProperty>)
      requires AllValid(properties)
      ensures Valid() && this.dataClass == dataClass && this.tableName == tableName
      ensures this.kinds == kinds && this.properties == properties
    {
      this.dataClass := dataClass;
      this.tableName := tableName;
      this.kinds := kinds;
      this.properties := properties;
    }

    /** The copy-forward constructor: one property per column name, carrying the
      * value of a same-named property of the given list. */
    static method CopyForward(dataClass: string, tableName: string, columns: seq<string>,
                              kinds: seq<NamedPropertyType>, props: seq<ObjProperty>) returns (r: Result<Entry>)
      requires AllValid(props)
      ensures var spec := CopyForwardFrom(columns, kinds, props, 0);
              (spec.Err? ==> r == Err(spec.error))
              && (spec.Ok? ==> r.Ok? && fresh(r.value) && r.value.Valid() && r.value.properties == spec.value
                               && r.value.dataClass == dataClass && r.value.tableName == tableName && r.value.kinds == kinds)
    {
      var built: seq<ObjProperty> := [];
      PrependNothing(CopyForwardFrom(columns, kinds, props, 0));
      var i := 0;
      while i < |columns|
        invariant i <= |columns| && AllValid(built)
        invariant CopyForwardFrom(columns, kinds, props, 0) == Prepend(built, CopyForwardFrom(columns, kinds, props, i))
      {
        var p := CreateProperty(kinds, Some(columns[i]));
        if p.None? {
          return Err(Runtime("Cant't create property for column: " + columns[i]));
        }
        var q := CopyValue(p.value, FirstNamed(props, columns[i]));
        if q.Err? {
          return Err(q.error);
        }
        assert q.value.Valid() by {
          var src := FirstNamed(props, columns[i]);
          if src.Some? {
            assert src.value.Valid();
          }
        }
        PrependStep(built, q.value, CopyForwardFrom(columns, kinds, props, i + 1));
        built := built + [q.value];
        i := i + 1;
      }
      var e := new Entry.Init(dataClass, tableName, kinds, built);
      r := Ok(e);
    }

    /** The result-set constructor. */
    static method FromResultSet(dataClass: string, tableName: string, columns: seq<string>,
                                kinds: seq<NamedPropertyType>, row: ResultRow) returns (r: Result<Entry>)
      ensures var spec := FillFrom(columns, kinds, row, 0);
              (spec.Err? ==> r == Err(spec.error))
              && (spec.Ok? ==> r.Ok? && fresh(r.value) && r.value.Valid() && r.value.properties == spec.value
                               && r.value.dataClass == dataClass && r.value.tableName == tableName && r.value.kinds == kinds)
    {
      var built: seq<ObjProperty> := [];
      PrependNothing(FillFrom(columns, kinds, row, 0));
      var i := 0;
      while i < |columns|
        invariant i <= |columns| && AllValid(built)
        invariant FillFrom(columns, kinds, row, 0) == Prepend(built, FillFrom(columns, kinds, row, i))
      {
        var p := CreateProperty(kinds, Some(columns[i]));
        if p.None? {
          return Err(Runtime("Cant't create property for column: " + columns[i]));
        }
        var v := CacheTableData.ReadColumn(p.value.named, row);
        if v.Err? {
          return Err(v.error);
        }
        var q := SetProperty(p.value, v.value);
        PrependStep(built, q.value, FillFrom(columns, kinds, row, i + 1));
        built := built + [q.value];
        i := i + 1;
      }
      var e := new Entry.Init(dataClass, tableName, kinds, built);
      r := Ok(e);
    }

    /** The binary constructor. The store is left after the entry on success. */
    static method FromStore(dataClass: string, tableName: string, kinds: seq<NamedPropertyType>,
                            store: Store) returns (r: Result<Entry>)
      modifies store
      ensures store.tokens == old(store.tokens)
      ensures var spec := DecodeEntry(kinds, tableName, store.tokens, old(store.pos));
              (spec.Err? ==> r == Err(spec.error))
              && (spec.Ok? ==> r.Ok? && fresh(r.value) && r.value.Valid() && r.value.properties == spec.value.0
                               && store.pos == spec.value.1
                               && r.value.dataClass == dataClass && r.value.tableName == tableName && r.value.kinds == kinds)
    {
      var count := store.ReadInt();
      if count.Err? {
        return Err(count.error);
      }
      var n: nat := if count.value < 0 then 0 else count.value;
      var props := ReadProperties(kinds, tableName, store, n);
      if props.Err? {
        return Err(props.error);
      }
      var e := new Entry.Init(dataClass, tableName, kinds, props.value);
      r := Ok(e);
    }

    /** n properties read from the store, in stored order. */
    static method ReadProperties(kinds: seq<NamedPropertyType>, tableName: string, store: Store, n: nat)
      returns (r: Result<seq<ObjProperty>>)
      modifies store
      ensures store.tokens == old(store.tokens)
      ensures var spec := DecodeProperties(kinds, tableName, store.tokens, old(store.pos), n);
              (spec.Err? ==> r == Err(spec.error))
              && (spec.Ok? ==> r == Ok(spec.value.0) && store.pos == spec.value.1)
    {
      ghost var ts := store.tokens;
      ghost var spec := DecodeProperties(kinds, tableName, ts, store.pos, n);
      ghost var rest := spec;
      PrependAtNothing(spec);
      var built: seq<ObjProperty> := [];
      var i := 0;
      ghost var left := n;
      while i < n
        invariant i <= n && left == n - i && store.tokens == ts
        invariant rest == DecodeProperties(kinds, tableName, ts, store.pos, left)
        invariant spec == PrependAt(built, rest)
      {
        var p;
        p, built, rest, left := ReadNext(kinds, tableName, store, ts, spec, built, rest, left);
        if p.Err? {
          return Err(p.error);
        }
        i := i + 1;
      }
      assert built + [] == built;
      r := Ok(built);
    }

    /** One turn of the reading loop: the next property, or the failure that
      * ends the whole read. */
    static method ReadNext(kinds: seq<NamedPropertyType>, tableName: string, store: Store, ghost ts: seq<Token>,
                           ghost spec: Result<(seq<ObjProperty>, nat)>, built: seq<ObjProperty>,
                           ghost rest: Result<(seq<ObjProperty>, nat)>, ghost k: nat)
      returns (r: Result<ObjProperty>, more: seq<ObjProperty>, ghost next: Result<(seq<ObjProperty>, nat)>, ghost j: nat)
      requires store.tokens == ts
      requires k > 0 && rest == DecodeProperties(kinds, tableName, ts, store.pos, k) && spec == PrependAt(built, rest)
      modifies store
      ensures store.tokens == ts
      ensures r.Err? ==> spec == Err(r.error)
      ensures j == k - 1
      ensures r.Ok? ==> more == built + [r.value]
                        && next == DecodeProperties(kinds, tableName, ts, store.pos, j) && spec == PrependAt(more, next)
    {
      ghost var pos := store.pos;
      r := ReadProperty(kinds, tableName, store);
      ghost var first := DecodeProperty(kinds, tableName, ts, pos);
      j := k - 1;
      if r.Ok? {
        assert first.Ok? && first.value.0 == r.value && first.value.1 == store.pos;
        more := built + [r.value];
        ghost var p1 := store.pos;
        next := DecodeProperties(kinds, tableName, ts, p1, j);
        assert p1 == first.value.1 && j == k - 1;
        PropertiesStepOk(kinds, tableName, ts, pos, k, first, next);
        PrependAtShift(built, r.value, next, rest);
      } else {
        PropertiesStepErr(kinds, tableName, ts, pos, k, r.error);
        more := built;
        next := rest;
      }
    }

    /** readProperty on the store. */
    static method ReadProperty(kinds: seq<NamedPropertyType>, tableName: string, store: Store) returns (r: Result<ObjProperty>)
      modifies store
      ensures store.tokens == old(store.tokens)
      ensures var spec := DecodeProperty(kinds, tableName, store.tokens, old(store.pos));
              (spec.Err? ==> r == Err(spec.error))
              && (spec.Ok? ==> r == Ok(spec.value.0) && store.pos == spec.value.1)
    {
      var tag := store.ReadInt();
      if tag.Err? { return Err(tag.error); }
      var name := store.ReadString();
      if name.Err? { return Err(name.error); }
      var p := CreateProperty(kinds, name.value);
      if p.None? {
        return Err(Runtime("Property " + NameText(name.value) + " not found for table " + tableName));
      }
      var v: Value;
      if tag.value == BoolTag {
        var b := store.ReadBool();
        if b.Err? { return Err(b.error); }
        v := BoolValue(Some(b.value));
      } else if tag.value == IntegerTag {
        var i := store.ReadInt();
        if i.Err? { return Err(i.error); }
        v := IntegerValue(Some(i.value));
      } else if tag.value == StringTag {
        var s := store.ReadString();
        if s.Err? { return Err(s.error); }
        v := StringValue(s.value);
      } else if tag.value == DoubleTag {
        var s := store.ReadString();
        if s.Err? { return Err(s.error); }
        if s.value.None? { return Err(NullPointer); }
        var d := ParseDouble(s.value.value);
        if d.Err? { return Err(d.error); }
        v := DoubleValue(Some(d.value));
      } else if tag.value == LocalDateTimeTag {
        if p.value.named.kind != LocalDateTime {
          return Err(ClassCast);
        }
        var s := store.ReadString();
        if s.Err? { return Err(s.error); }
        var t := DateTimeFromString(s.value);
        if t.Err? { return Err(t.error); }
        v := DateTimeValue(t.value);
      } else {
        return Err(Runtime("Unknown property type " + IntToDecimal(tag.value)));
      }
      r := SetProperty(p.value, v);
    }

    /** getProperty(name). */
    method GetProperty(name: Option<string>) returns (r: Result<ObjProperty>)
      ensures r == PropertyNamed(properties, name, tableName)
    {
      if |properties| == 0 {
        return Err(Runtime("properties not initialized"));
      }
      var i := 0;
      while i < |properties|
        invariant i <= |properties|
        invariant name.Some? ==> FirstNamed(properties, name.value) == FirstNamed(properties[i..], name.value)
      {
        if Some(properties[i].named.name) == name {
          return Ok(properties[i]);
        }
        assert properties[i..][1..] == properties[i + 1..];
        i := i + 1;
      }
      r := Err(Runtime("Property " + NameText(name) + " not found for table " + tableName));
    }

    /** serialize. */
    method Serialize(store: Store)
      requires Valid()
      modifies store
      ensures store.tokens == old(store.tokens) + EncodeEntry(properties) && store.pos == old(store.pos)
    {
      store.WriteInt(|properties|);
      var i := 0;
      while i < |properties|
        invariant i <= |properties| && store.pos == old(store.pos)
        invariant store.tokens + EncodeProperties(properties[i..]) == old(store.tokens) + EncodeEntry(properties)
      {
        WriteProperty(store, properties[i]);
        assert properties[i..][1..] == properties[i + 1..];
        i := i + 1;
      }
    }

    /** One property: its tag, its name, its value. */
    static method WriteProperty(store: Store, p: ObjProperty)
      requires p.Valid()
      modifies store
      ensures store.tokens == old(store.tokens) + EncodeProperty(p) && store.pos == old(store.pos)
    {
      store.WriteInt(Tag(p.named.kind));
      store.WriteString(Some(p.named.name));
      match p.value {
        case BoolValue(b) => store.WriteBool(b.value);
        case IntegerValue(n) => store.WriteInt(n.value);
        case StringValue(s) => store.WriteString(s);
        case DoubleValue(d) => store.WriteString(Some(DoubleText(d.value)));
        case DateTimeValue(t) => store.WriteString(Some(DateTimeAsString(t)));
      }
    }

    /** equals: the same object, or an entry of the same runtime class whose
      * properties are pairwise equal. */
    method Equals(o: Entry?) returns (b: bool)
      ensures b <==> o != null && EntryEquals(this, o)
    {
      if o == this { return true; }
      if o == null || o.dataClass != dataClass { return false; }
      if |properties| != |o.properties| { return false; }
      var i := 0;
      while i < |properties|
        invariant i <= |properties|
        invariant forall k :: 0 <= k < i ==> properties[k] == o.properties[k]
      {
        if properties[i] != o.properties[i] {
          return false;
        }
        i := i + 1;
      }
      b := true;
    }
  }

  /** Entry equality: the same object, or the same runtime class with equal
    * properties in the same order. */
  predicate EntryEquals(a: Entry, b: Entry)
  {
    a == b || (a.dataClass == b.dataClass && a.properties == b.properties)
  }

  /** The whole result once the first elements are known. */
  function Prepend<T>(done: seq<T>, rest: Result<seq<T>>): Result<seq<T>>
  {
    if rest.Ok? then Ok(done + rest.value) else rest
  }

  function PrependAt<T>(done: seq<T>, rest: Result<(seq<T>, nat)>): Result<(seq<T>, nat)>
  {
    if rest.Ok? then Ok((done + rest.value.0, rest.value.1)) else rest
  }

  lemma PrependNothing<T>(r: Result<seq<T>>)
    ensures Prepend([], r) == r
  {
    if r.Ok? {
      assert [] + r.value == r.value;
    }
  }

  lemma PrependStep<T>(done: seq<T>, x: T, rest: Result<seq<T>>)
    ensures Prepend(done + [x], rest) == Prepend(done, if rest.Ok? then Ok([x] + rest.value) else rest)
  {
    if rest.Ok? {
      assert done + [x] + rest.value == done + ([x] + rest.value);
    }
  }

  lemma PrependAtNothing<T>(r: Result<(seq<T>, nat)>)
    ensures PrependAt([], r) == r
  {
    if r.Ok? {
      assert [] + r.value.0 == r.value.0;
    }
  }

  /** Moving one element from the front of the rest to the end of what is done. */
  lemma PrependAtShift<T>(done: seq<T>, x: T, next: Result<(seq<T>, nat)>, rest: Result<(seq<T>, nat)>)
    requires rest == PrependAt([x], next)
    ensures PrependAt(done, rest) == PrependAt(done + [x], next)
  {
    PrependAtStep(done, x, next);
  }

  lemma PrependAtStep<T>(done: seq<T>, x: T, rest: Result<(seq<T>, nat)>)
    ensures PrependAt(done + [x], rest) == PrependAt(done, if rest.Ok? then Ok(([x] + rest.value.0, rest.value.1)) else rest)
  {
    if rest.Ok? {
      assert done + [x] + rest.value.0 == done + ([x] + rest.value.0);
    }
  }
}
