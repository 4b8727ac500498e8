/// PropertyType: the five column kinds with their stable wire ids, and
/// NamedPropertyType, a column's name paired with its kind.
module PropertyTypes {

  import opened Wrappers
  import opened Text

  datatype PropertyType = Bool | Integer | String | LocalDateTime | Double

  /** The id each kind carries on the wire. */
  function Id(t: PropertyType): int
  {
    match t
    case Bool => 0
    case Integer => 1
    case String => 2
    case LocalDateTime => 3
    case Double => 4
  }

  /** PropertyType.values(): the kinds in declaration order. */
  const Values: seq<PropertyType> := [Bool, Integer, String, LocalDateTime, Double]

  /** The first kind in `vals` carrying `id`. */
  function FindById(vals: seq<PropertyType>, id: int): (r: Option<PropertyType>)
    ensures r.Some? ==> r.value in vals && Id(r.value) == id
    ensures r.None? ==> forall t :: t in vals ==> Id(t) != id
  {
    if vals == [] then None
    else if Id(vals[0]) == id then Some(vals[0])
    else FindById(vals[1..], id)
  }

  /** fromId: the kind with the given id; IllegalArgumentException for any other number. */
  function FromId(id: int): (r: Result<PropertyType>)
    ensures r.Ok? ==> Id(r.value) == id
  {
    match FindById(Values, id)
    case Some(t) => Ok(t)
    case None => Err(IllegalArgument("Ungültiger Wert: " + IntToDecimal(id)))
  }

  /** The ids are pairwise distinct and are the declaration positions. */
  lemma IdIsPosition(t: PropertyType)
    ensures 0 <= Id(t) < |Values| && Values[Id(t)] == t
    ensures forall u :: Id(u) == Id(t) ==> u == t
  {
  }

  /** fromId inverts the id of every kind. */
  lemma FromIdOfId(t: PropertyType)
    ensures FromId(Id(t)) == Ok(t)
  {
    IdIsPosition(t);
  }

  /** fromId accepts exactly the ids 0 to 4. */
  lemma FromIdAccepts(id: int)
    ensures FromId(id).Ok? <==> 0 <= id <= 4
    ensures FromId(id).Ok? ==> Values[id] == FromId(id).value
  {
    if 0 <= id <= 4 {
      assert Id(Values[id]) == id;
    }
  }

  /** A column: its name and its kind. */
  datatype NamedPropertyType = NamedPropertyType(name: string, kind: PropertyType)

  /** Column names are unique within a schema. */
  predicate UniqueNames(schema: seq<NamedPropertyType>)
  {
    forall i, j :: 0 <= i < j < |schema| ==> schema[i].name != schema[j].name
  }
}
