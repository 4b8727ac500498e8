/// DatabaseConnection: a reference-counted physical connection. Every
/// connect records its caller's unique ID and opens the connection if there
/// is none; every disconnect removes the ID and closes the connection when
/// no ID is left. Registered listeners hear of each step.
module DatabaseConnections {

  import opened Wrappers

  /** A physical java.sql.Connection, by identity. */
  type Handle = nat

  /** A registered ConnectionListener, by identity. */
  type Listener = nat

  /** A call on a listener, with the arguments it gets. */
  datatype Event =
    | Connected(listener: Listener, newCreated: bool, id: string, openIds: seq<string>)
    | Disconnected(listener: Listener, closed: bool, id: string, openIds: seq<string>)

  /** The connection field and OPEN_CONNECTION_IDs. */
  datatype Session = Session(connection: Option<Handle>, openIds: seq<string>)

  predicate Distinct<T(==)>(s: seq<T>)
  {
    forall i, j :: 0 <= i < j < |s| ==> s[i] != s[j]
  }

  /** ArrayList.remove(Object): the first occurrence removed, if any. */
  function RemoveFirst<T(==)>(s: seq<T>, x: T): (r: seq<T>)
    ensures x !in s ==> r == s
    ensures x in s ==> |r| == |s| - 1
    ensures forall y :: y in r ==> y in s
  {
    if s == [] then []
    else if s[0] == x then s[1..]
    else [s[0]] + RemoveFirst(s[1..], x)
  }

  /** Removing from a list without duplicates takes the element out for good
    * and keeps the list free of duplicates. */
  lemma {:induction false} RemoveFirstDistinct<T>(s: seq<T>, x: T)
    requires Distinct(s)
    ensures x !in RemoveFirst(s, x) && Distinct(RemoveFirst(s, x))
    ensures forall y :: y in s && y != x ==> y in RemoveFirst(s, x)
  {
    if s != [] {
      assert Distinct(s[1..]) by {
        forall i, j | 0 <= i < j < |s[1..]| ensures s[1..][i] != s[1..][j] {
          assert s[1..][i] == s[i + 1] && s[1..][j] == s[j + 1];
        }
      }
      if s[0] == x {
        assert x !in s[1..] by {
          forall i | 0 <= i < |s[1..]| ensures s[1..][i] != x {
            assert s[1..][i] == s[i + 1];
          }
        }
        forall y | y in s && y != x ensures y in s[1..] {
          var k :| 0 <= k < |s| && s[k] == y;
          assert s[1..][k - 1] == y;
        }
      } else {
        RemoveFirstDistinct(s[1..], x);
        var rest := RemoveFirst(s[1..], x);
        assert s[0] !in s[1..] by {
          forall i | 0 <= i < |s[1..]| ensures s[1..][i] != s[0] {
            assert s[1..][i] == s[i + 1];
          }
        }
        forall i, j | 0 <= i < j < |[s[0]] + rest| ensures ([s[0]] + rest)[i] != ([s[0]] + rest)[j] {
          if i == 0 {
            assert ([s[0]] + rest)[j] == rest[j - 1];
          } else {
            assert ([s[0]] + rest)[i] == rest[i - 1] && ([s[0]] + rest)[j] == rest[j - 1];
          }
        }
        forall y | y in s && y != x ensures y in [s[0]] + rest {
          if y != s[0] {
            var k :| 0 <= k < |s| && s[k] == y;
            assert s[1..][k - 1] == y;
          }
        }
      }
    }
  }

  /** An element appended to a list that lacks it is the one removed again. */
  lemma {:induction false} RemoveAppended<T>(s: seq<T>, x: T)
    requires x !in s
    ensures RemoveFirst(s + [x], x) == s
  {
    if s != [] {
      assert (s + [x])[1..] == s[1..] + [x];
      RemoveAppended(s[1..], x);
    }
  }

  /** addConnectionListener: appended unless already registered. */
  function AddListener(ls: seq<Listener>, l: Listener): (r: seq<Listener>)
  {
    if l in ls then ls else ls + [l]
  }

  /** The registry never holds a listener twice, and a listener added and
    * removed again leaves it as it was. */
  lemma ListenerRegistry(ls: seq<Listener>, l: Listener)
    requires Distinct(ls)
    ensures Distinct(AddListener(ls, l)) && l in AddListener(ls, l)
    ensures l !in ls ==> RemoveFirst(AddListener(ls, l), l) == ls
    ensures Distinct(RemoveFirst(ls, l)) && l !in RemoveFirst(ls, l)
  {
    if l !in ls {
      RemoveAppended(ls, l);
    }
    RemoveFirstDistinct(ls, l);
  }

  /** connect: with no connection, `got` is what getConnection gives (an
    * exception, null or a connection); the ID recorded at most once. The
    * flag is NEW_CREATED_CONNECTION. */
  function AfterConnect(st: Session, id: string, got: Result<Option<Handle>>): (r: (Session, Result<bool>))
  {
    if st.connection.None? && got.Err? then (st, Err(got.error))
    else
      var conn := if st.connection.None? then got.value else st.connection;
      var ids := if id in st.openIds then st.openIds else st.openIds + [id];
      (Session(conn, ids), Ok(st.connection.None?))
  }

  /** disconnect: without a connection nothing happens (None); otherwise the
    * ID removed and, when no ID is left, the connection closed and cleared.
    * The flag is CLOSED_CONNECTION. A failing close leaves the connection
    * set. */
  function AfterDisconnect(st: Session, id: string, close: Outcome): (r: (Session, Result<Option<bool>>))
  {
    if st.connection.None? then (st, Ok(None))
    else
      var ids := RemoveFirst(st.openIds, id);
      if ids != [] then (Session(st.connection, ids), Ok(Some(false)))
      else if close.Failure? then (Session(st.connection, ids), Err(close.error))
      else (Session(None, ids), Ok(Some(true)))
  }

  /** A session in step: IDs without duplicates, and a connection exactly
    * while some ID is open. */
  predicate Balanced(st: Session)
  {
    Distinct(st.openIds) && (st.connection.Some? <==> st.openIds != [])
  }

  /** connect asks for a physical connection exactly when there is none, and
    * then records the ID; the IDs stay free of duplicates, and the session
    * stays in step as long as getConnection does not give null. */
  lemma ConnectMeaning(st: Session, id: string, got: Result<Option<Handle>>)
    requires Balanced(st)
    ensures var r := AfterConnect(st, id, got);
            (r.1.Err? <==> st.connection.None? && got.Err?)
            && (r.1.Err? ==> r.0 == st)
            && (r.1 == Ok(true) <==> st.connection.None? && got.Ok?)
            && (r.1.Ok? ==> id in r.0.openIds && Distinct(r.0.openIds))
            && (got.Ok? && got.value.Some? ==> Balanced(r.0))
            && (r.1.Ok? && got.Ok? && got.value.None? && st.connection.None? ==> !Balanced(r.0))
  {
    var r := AfterConnect(st, id, got);
    if r.1.Ok? && id !in st.openIds {
      var ids := st.openIds + [id];
      forall i, j | 0 <= i < j < |ids| ensures ids[i] != ids[j] {
        if j == |st.openIds| {
          assert ids[i] == st.openIds[i];
        } else {
          assert ids[i] == st.openIds[i] && ids[j] == st.openIds[j];
        }
      }
    }
  }

  /** disconnect removes the ID for good and closes exactly when it was the
    * last one; a session in step stays in step unless the close fails. */
  lemma DisconnectMeaning(st: Session, id: string, close: Outcome)
    requires Balanced(st)
    ensures var r := AfterDisconnect(st, id, close);
            (st.connection.None? ==> r == (st, Ok(None)))
            && (st.connection.Some? ==> (
                  id !in r.0.openIds
                  && (r.1 == Ok(Some(true)) <==> RemoveFirst(st.openIds, id) == [] && close.Success?)
                  && (r.1.Err? <==> RemoveFirst(st.openIds, id) == [] && close.Failure?)))
            && (close.Success? ==> Balanced(r.0))
  {
    RemoveFirstDistinct(st.openIds, id);
  }

  /** A connect and a disconnect with a fresh ID, both succeeding, leave the
    * session as it was: the reference count balances. */
  lemma ConnectThenDisconnect(st: Session, id: string, h: Handle, close: Outcome)
    requires Balanced(st) && id !in st.openIds && close.Success?
    ensures var c := AfterConnect(st, id, Ok(Some(h)));
            c.1.Ok? && AfterDisconnect(c.0, id, close) == (st, Ok(Some(st.connection.None?)))
  {
    RemoveAppended(st.openIds, id);
    if st.connection.None? {
      assert st.openIds == [];
    }
  }

  /** The calls databaseConnected makes, one per listener in order. */
  function ConnectedEvents(ls: seq<Listener>, newCreated: bool, id: string, ids: seq<string>): (evs: seq<Event>)
    ensures |evs| == |ls|
    ensures forall i :: 0 <= i < |ls| ==> evs[i] == Connected(ls[i], newCreated, id, ids)
  {
    seq(|ls|, i requires 0 <= i < |ls| => Connected(ls[i], newCreated, id, ids))
  }

  /** The calls databaseDisconnected makes, one per listener in order. */
  function DisconnectedEvents(ls: seq<Listener>, closed: bool, id: string, ids: seq<string>): (evs: seq<Event>)
    ensures |evs| == |ls|
    ensures forall i :: 0 <= i < |ls| ==> evs[i] == Disconnected(ls[i], closed, id, ids)
  {
    seq(|ls|, i requires 0 <= i < |ls| => Disconnected(ls[i], closed, id, ids))
  }

  class DatabaseConnection {
    /** connection; None is null. */
    var connection: Option<Handle>
    /** OPEN_CONNECTION_IDs. */
    var openIds: seq<string>
    /** listeners. */
    var listeners: seq<Listener>
    /** The listener calls made so far. */
    var events: seq<Event>

    function Current(): Session
      reads this
    {
      Session(connection, openIds)
    }

    constructor ()
      ensures connection == None && openIds == [] && listeners == [] && events == []
    {
      connection := None;
      openIds := [];
      listeners := [];
      events := [];
    }

    /** addConnectionListener. */
    method AddConnectionListener(l: Listener)
      modifies this
      ensures listeners == AddListener(old(listeners), l)
      ensures Current() == old(Current()) && events == old(events)
    {
      if l !in listeners {
        listeners := listeners + [l];
      }
    }

    /** removeConnectionListener. */
    method RemoveConnectionListener(l: Listener)
      modifies this
      ensures listeners == RemoveFirst(old(listeners), l)
      ensures Current() == old(Current()) && events == old(events)
    {
      listeners := RemoveFirst(listeners, l);
    }

    /** connect(uniqueID), with `got` what getConnection gives. */
    method Connect(id: string, got: Result<Option<Handle>>) returns (o: Outcome)
      modifies this
      ensures var spec := AfterConnect(old(Current()), id, got);
              Current() == spec.0 && listeners == old(listeners)
              && (spec.1.Err? ==> o == Failure(spec.1.error) && events == old(events))
              && (spec.1.Ok? ==> o == Success && events == old(events) + ConnectedEvents(listeners, spec.1.value, id, openIds))
    {
      var newCreated;
      if connection.None? {
        if got.Err? {
          return Failure(got.error);
        }
        connection := got.value;
        newCreated := true;
      } else {
        newCreated := false;
      }
      if id !in openIds {
        openIds := openIds + [id];
      }
      NotifyConnected(newCreated, id);
      o := Success;
    }

    /** The listener loop of connect. */
    method NotifyConnected(newCreated: bool, id: string)
      modifies this
      ensures Current() == old(Current()) && listeners == old(listeners)
      ensures events == old(events) + ConnectedEvents(listeners, newCreated, id, openIds)
    {
      var i := 0;
      while i < |listeners|
        invariant 0 <= i <= |listeners| && Current() == old(Current()) && listeners == old(listeners)
        invariant events == old(events) + ConnectedEvents(listeners[..i], newCreated, id, openIds)
      {
        events := events + [Connected(listeners[i], newCreated, id, openIds)];
        i := i + 1;
        assert ConnectedEvents(listeners[..i], newCreated, id, openIds)
               == ConnectedEvents(listeners[..i - 1], newCreated, id, openIds) + [Connected(listeners[i - 1], newCreated, id, openIds)];
      }
      assert listeners[..i] == listeners;
    }

    /** disconnect(uniqueID), with `close` the outcome of closing the
      * connection. */
    method Disconnect(id: string, close: Outcome) returns (o: Outcome)
      modifies this
      ensures var spec := AfterDisconnect(old(Current()), id, close);
              Current() == spec.0 && listeners == old(listeners)
              && (spec.1.Err? ==> o == Failure(spec.1.error) && events == old(events))
              && (spec.1 == Ok(None) ==> o == Success && events == old(events))
              && (spec.1.Ok? && spec.1.value.Some? ==>
                    o == Success && events == old(events) + DisconnectedEvents(listeners, spec.1.value.value, id, openIds))
    {
      if connection.None? {
        return Success;
      }
      openIds := RemoveFirst(openIds, id);
      var closed;
      if openIds == [] {
        if close.Failure? {
          return close;
        }
        connection := None;
        closed := true;
      } else {
        closed := false;
      }
      NotifyDisconnected(closed, id);
      o := Success;
    }

    /** The listener loop of disconnect. */
    method NotifyDisconnected(closed: bool, id: string)
      modifies this
      ensures Current() == old(Current()) && listeners == old(listeners)
      ensures events == old(events) + DisconnectedEvents(listeners, closed, id, openIds)
    {
      var i := 0;
      while i < |listeners|
        invariant 0 <= i <= |listeners| && Current() == old(Current()) && listeners == old(listeners)
        invariant events == old(events) + DisconnectedEvents(listeners[..i], closed, id, openIds)
      {
        events := events + [Disconnected(listeners[i], closed, id, openIds)];
        i := i + 1;
        assert DisconnectedEvents(listeners[..i], closed, id, openIds)
               == DisconnectedEvents(listeners[..i - 1], closed, id, openIds) + [Disconnected(listeners[i - 1], closed, id, openIds)];
      }
      assert listeners[..i] == listeners;
    }

    /** createStatement: a statement on the open connection, or a
      * RuntimeException when there is none. */
    method CreateStatement() returns (r: Result<Handle>)
      ensures connection.None? ==> r == Err(Runtime("no connection to Database"))
      ensures connection.Some? ==> r == Ok(connection.value)
    {
      if connection.None? {
        return Err(Runtime("no connection to Database"));
      }
      r := Ok(connection.value);
    }
  }
}
