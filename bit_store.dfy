/// The serialisation stream (de.longri.serializable BitStore/StoreBase) as a
/// sequence of typed tokens. A write appends one token; a read consumes the
/// next token and fails at the end of the stream or on a token of another kind.
/// The byte layout of the library is not modelled.
module BitStores {

  import opened Wrappers
  import opened JavaTime

  datatype Token =
    | IntToken(i: int)
    | BoolToken(b: bool)
    | StringToken(s: Option<string>)
    | DateTimeToken(t: Option<DateTime>)

  function ReadIntAt(ts: seq<Token>, pos: nat): (r: Result<(int, nat)>)
    ensures r.Ok? <==> pos < |ts| && ts[pos].IntToken?
    ensures r.Ok? ==> r.value == (ts[pos].i, pos + 1)
  {
    if pos < |ts| && ts[pos].IntToken? then Ok((ts[pos].i, pos + 1)) else Err(Runtime("readInt"))
  }

  function ReadBoolAt(ts: seq<Token>, pos: nat): (r: Result<(bool, nat)>)
    ensures r.Ok? <==> pos < |ts| && ts[pos].BoolToken?
    ensures r.Ok? ==> r.value == (ts[pos].b, pos + 1)
  {
    if pos < |ts| && ts[pos].BoolToken? then Ok((ts[pos].b, pos + 1)) else Err(Runtime("readBool"))
  }

  function ReadStringAt(ts: seq<Token>, pos: nat): (r: Result<(Option<string>, nat)>)
    ensures r.Ok? <==> pos < |ts| && ts[pos].StringToken?
    ensures r.Ok? ==> r.value == (ts[pos].s, pos + 1)
  {
    if pos < |ts| && ts[pos].StringToken? then Ok((ts[pos].s, pos + 1)) else Err(Runtime("readString"))
  }

  function ReadDateTimeAt(ts: seq<Token>, pos: nat): (r: Result<(Option<DateTime>, nat)>)
    ensures r.Ok? <==> pos < |ts| && ts[pos].DateTimeToken?
    ensures r.Ok? ==> r.value == (ts[pos].t, pos + 1)
  {
    if pos < |ts| && ts[pos].DateTimeToken? then Ok((ts[pos].t, pos + 1)) else Err(Runtime("readLocalDateTime"))
  }

  /** A store being written (from empty) or read (from the start of a file). */
  class Store {
    var tokens: seq<Token>
    var pos: nat

    ghost predicate Valid()
      reads this
    {
      pos <= |tokens|
    }

    /** new BitStore() */
    constructor Writer()
      ensures Valid() && tokens == [] && pos == 0
    {
      tokens := [];
      pos := 0;
    }

    /** new BitStore(bytes) */
    constructor Reader(ts: seq<Token>)
      ensures Valid() && tokens == ts && pos == 0
    {
      tokens := ts;
      pos := 0;
    }

    method WriteInt(i: int)
      modifies this
      ensures tokens == old(tokens) + [IntToken(i)] && pos == old(pos)
    {
      tokens := tokens + [IntToken(i)];
    }

    method WriteBool(b: bool)
      modifies this
      ensures tokens == old(tokens) + [BoolToken(b)] && pos == old(pos)
    {
      tokens := tokens + [BoolToken(b)];
    }

    method WriteString(s: Option<string>)
      modifies this
      ensures tokens == old(tokens) + [StringToken(s)] && pos == old(pos)
    {
      tokens := tokens + [StringToken(s)];
    }

    method WriteDateTime(t: Option<DateTime>)
      modifies this
      ensures tokens == old(tokens) + [DateTimeToken(t)] && pos == old(pos)
    {
      tokens := tokens + [DateTimeToken(t)];
    }

    method ReadInt() returns (r: Result<int>)
      modifies this
      ensures tokens == old(tokens)
      ensures var spec := ReadIntAt(tokens, old(pos));
              (spec.Ok? ==> r == Ok(spec.value.0) && pos == spec.value.1)
              && (spec.Err? ==> r == Err(spec.error) && pos == old(pos))
    {
      var spec := ReadIntAt(tokens, pos);
      if spec.Ok? {
        r := Ok(spec.value.0);
        pos := spec.value.1;
      } else {
        r := Err(spec.error);
      }
    }

    method ReadBool() returns (r: Result<bool>)
      modifies this
      ensures tokens == old(tokens)
      ensures var spec := ReadBoolAt(tokens, old(pos));
              (spec.Ok? ==> r == Ok(spec.value.0) && pos == spec.value.1)
              && (spec.Err? ==> r == Err(spec.error) && pos == old(pos))
    {
      var spec := ReadBoolAt(tokens, pos);
      if spec.Ok? {
        r := Ok(spec.value.0);
        pos := spec.value.1;
      } else {
        r := Err(spec.error);
      }
    }

    method ReadString() returns (r: Result<Option<string>>)
      modifies this
      ensures tokens == old(tokens)
      ensures var spec := ReadStringAt(tokens, old(pos));
              (spec.Ok? ==> r == Ok(spec.value.0) && pos == spec.value.1)
              && (spec.Err? ==> r == Err(spec.error) && pos == old(pos))
    {
      var spec := ReadStringAt(tokens, pos);
      if spec.Ok? {
        r := Ok(spec.value.0);
        pos := spec.value.1;
      } else {
        r := Err(spec.error);
      }
    }

    method ReadDateTime() returns (r: Result<Option<DateTime>>)
      modifies this
      ensures tokens == old(tokens)
      ensures var spec := ReadDateTimeAt(tokens, old(pos));
              (spec.Ok? ==> r == Ok(spec.value.0) && pos == spec.value.1)
              && (spec.Err? ==> r == Err(spec.error) && pos == old(pos))
    {
      var spec := ReadDateTimeAt(tokens, pos);
      if spec.Ok? {
        r := Ok(spec.value.0);
        pos := spec.value.1;
      } else {
        r := Err(spec.error);
      }
    }
  }
}
