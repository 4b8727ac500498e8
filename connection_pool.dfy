/// ConnectionPool: an unbounded LIFO stack of pooled connections that asks
/// its creator for a new connection whenever it is empty.
module ConnectionPools {

  import opened Wrappers

  /** A PooledConnection: the URL it was opened with and the driver's handle
    * for the physical connection. */
  datatype PooledConnection = PooledConnection(url: string, handle: nat)

  /** A stack slot; push accepts null, so a slot may hold none. */
  type Slot = Option<PooledConnection>

  /** What getConnection makes of the creator's answer: an SQLException is
    * swallowed and null returned, a GeneralSecurityException or IOException
    * is rethrown wrapped in a RuntimeException, and an unchecked exception
    * passes through as it is. */
  function Created(created: Result<PooledConnection>): (r: Result<Slot>)
    ensures r.Ok? <==> created.Ok? || created.error.Sql?
    ensures created.Ok? ==> r == Ok(Some(created.value))
    ensures created.Err? && created.error.Security? ==> r == Err(Wrapped(created.error))
    ensures created.Err? && !created.error.Sql? && !created.error.Security? ==> r == Err(created.error)
  {
    if created.Ok? then Ok(Some(created.value))
    else if created.error.Sql? then Ok(None)
    else if created.error.Security? then Err(Wrapped(created.error))
    else Err(created.error)
  }

  /** getConnection on a stack whose top is its last element: the top popped;
    * on an empty stack the creator's connection, pushed and popped again. */
  function Get(stack: seq<Slot>, created: Result<PooledConnection>): (r: (seq<Slot>, Result<Slot>))
  {
    if stack == [] then ([], Created(created))
    else (stack[..|stack| - 1], Ok(stack[|stack| - 1]))
  }

  /** returnConnection: pushed unless null. */
  function Returned(stack: seq<Slot>, c: Slot): (r: seq<Slot>)
  {
    if c.Some? then stack + [c] else stack
  }

  /** A connection handed back is the next one handed out, and the pool is
    * as before; handing back null changes nothing. */
  lemma ReturnThenGet(stack: seq<Slot>, c: Slot, created: Result<PooledConnection>)
    ensures c.Some? ==> Get(Returned(stack, c), created) == (stack, Ok(c))
    ensures c.None? ==> Returned(stack, c) == stack
  {
    if c.Some? {
      assert (stack + [c])[..|stack|] == stack;
    }
  }

  /** A non-empty pool never consults the creator, an empty one stays empty. */
  lemma GetNeverGrows(stack: seq<Slot>, created: Result<PooledConnection>, other: Result<PooledConnection>)
    ensures |Get(stack, created).0| == if stack == [] then 0 else |stack| - 1
    ensures stack != [] ==> Get(stack, created) == Get(stack, other)
  {
  }

  /** shutdown: slots popped from the top and closed until the pool is
    * empty; a null slot fails with a NullPointerException and a failing
    * close propagates, each after its slot is popped. */
  function Drain(stack: seq<Slot>, close: PooledConnection -> Outcome): (r: (seq<Slot>, Outcome))
    decreases |stack|
  {
    if stack == [] then ([], Success)
    else
      var top := stack[|stack| - 1];
      var rest := stack[..|stack| - 1];
      if top.None? then (rest, Failure(NullPointer))
      else if close(top.value).Failure? then (rest, close(top.value))
      else Drain(rest, close)
  }

  /** Whether a slot closes cleanly. */
  predicate Closes(s: Slot, close: PooledConnection -> Outcome)
  {
    s.Some? && close(s.value).Success?
  }

  /** shutdown succeeds exactly when every slot holds a connection that
    * closes, and then empties the pool; otherwise it stops at the topmost
    * slot that does not close, leaving the slots below it pooled. */
  lemma {:induction false} DrainMeaning(stack: seq<Slot>, close: PooledConnection -> Outcome)
    ensures var r := Drain(stack, close);
            (r.1.Success? <==> forall i :: 0 <= i < |stack| ==> Closes(stack[i], close))
            && (r.1.Success? ==> r.0 == [])
            && (r.1.Failure? ==>
                  |r.0| < |stack| && r.0 == stack[..|r.0|] && !Closes(stack[|r.0|], close)
                  && (stack[|r.0|].None? ==> r.1 == Failure(NullPointer))
                  && (stack[|r.0|].Some? ==> r.1 == close(stack[|r.0|].value))
                  && forall i :: |r.0| < i < |stack| ==> Closes(stack[i], close))
    decreases |stack|
  {
    if stack != [] {
      var rest := stack[..|stack| - 1];
      DrainMeaning(rest, close);
      var top := stack[|stack| - 1];
      if Closes(top, close) {
        var r := Drain(rest, close);
        assert Drain(stack, close) == r;
        if r.1.Failure? {
          assert rest[..|r.0|] == stack[..|r.0|];
          assert stack[|r.0|] == rest[|r.0|];
          forall i | |r.0| < i < |stack|
            ensures Closes(stack[i], close)
          {
            if i < |rest| {
              assert stack[i] == rest[i];
            }
          }
        } else {
          forall i | 0 <= i < |stack|
            ensures Closes(stack[i], close)
          {
            if i < |rest| {
              assert stack[i] == rest[i];
            }
          }
        }
      } else {
        assert rest == stack[..|rest|];
      }
    }
  }

  class Pool {
    /** connectionPool, a java.util.Stack; its top is the last element. */
    var stack: seq<Slot>

    /** ConnectionPool(creater): an empty stack. */
    constructor ()
      ensures stack == []
    {
      stack := [];
    }

    method IsEmpty() returns (b: bool)
      ensures b <==> stack == []
    {
      b := stack == [];
    }

    /** getConnection, with `created` the creator's answer, which only an
      * empty pool asks for. */
    method GetConnection(created: Result<PooledConnection>) returns (r: Result<Slot>)
      modifies this
      ensures (stack, r) == Get(old(stack), created)
    {
      if stack == [] {
        r := Created(created);
        return;
      }
      r := Ok(stack[|stack| - 1]);
      stack := stack[..|stack| - 1];
    }

    /** getConnection on a pool known not to be empty: the top popped. */
    method Take() returns (c: Slot)
      requires stack != []
      modifies this
      ensures stack == old(stack)[..|old(stack)| - 1] && c == old(stack)[|old(stack)| - 1]
    {
      c := stack[|stack| - 1];
      stack := stack[..|stack| - 1];
    }

    /** returnConnection. */
    method ReturnConnection(c: Slot)
      modifies this
      ensures stack == Returned(old(stack), c)
    {
      if c.Some? {
        stack := stack + [c];
      }
    }

    /** push: on top, null included. */
    method Push(c: Slot)
      modifies this
      ensures stack == old(stack) + [c]
    {
      stack := stack + [c];
    }

    /** shutdown, with `close` the outcome of closing each physical
      * connection. */
    method Shutdown(close: PooledConnection -> Outcome) returns (o: Outcome)
      modifies this
      ensures (stack, o) == Drain(old(stack), close)
    {
      while stack != []
        invariant Drain(old(stack), close) == Drain(stack, close)
        decreases |stack|
      {
        var top := stack[|stack| - 1];
        stack := stack[..|stack| - 1];
        if top.None? {
          return Failure(NullPointer);
        }
        var closed := close(top.value);
        if closed.Failure? {
          return closed;
        }
      }
      o := Success;
    }
  }
}
