/// MySqlConnection: the single-host JDBC URL, the dump import that runs a
/// script statement by statement inside one transaction, the existence
/// probe and the admin guard of createNewDatabase.
module MySqlConnections {

  import opened Wrappers
  import opened Text
  import opened DatabaseConnections

  const JdbcScheme := "jdbc:mysql://"

  /** The URL of one database on one server. */
  function ConnectionString(address: string, port: string, databaseName: string): (r: string)
    ensures StartsWith(r, JdbcScheme)
  {
    JdbcScheme + address + ":" + port + "/" + databaseName
  }

  /** Reading a URL back: the address up to the first ':', the port up to
    * the next '/', the database name after it. */
  function ParseConnectionString(url: string): (r: Option<(string, string, string)>)
  {
    if !StartsWith(url, JdbcScheme) then None
    else
      var rest := url[|JdbcScheme|..];
      match IndexOf(rest, ":", 0)
      case None => None
      case Some(i) =>
        var after := rest[i + 1..];
        match IndexOf(after, "/", 0)
        case None => None
        case Some(j) => Some((rest[..i], after[..j], after[j + 1..]))
  }

  /** A URL built from an address without ':' and a port without '/' reads
    * back as its parts. */
  lemma ConnectionStringRoundTrip(address: string, port: string, databaseName: string)
    requires ':' !in address && '/' !in port
    ensures ParseConnectionString(ConnectionString(address, port, databaseName)) == Some((address, port, databaseName))
  {
    var url := ConnectionString(address, port, databaseName);
    var rest := url[|JdbcScheme|..];
    assert StartsWith(url, JdbcScheme);
    assert rest == address + [':'] + (port + "/" + databaseName);
    FirstOccurrence(address, ':', port + "/" + databaseName);
    assert IndexOf(rest, ":", 0) == Some(|address|);
    var after := rest[|address| + 1..];
    assert after == port + ['/'] + databaseName;
    FirstOccurrence(port, '/', databaseName);
    assert IndexOf(after, "/", 0) == Some(|port|);
    assert rest[..|address|] == address;
    assert after[..|port|] == port && after[|port| + 1..] == databaseName;
  }

  /** Whatever reads back as parts is the URL of those parts. */
  lemma ParsedConnectionString(url: string)
    requires ParseConnectionString(url).Some?
    ensures var p := ParseConnectionString(url).value;
            ConnectionString(p.0, p.1, p.2) == url
  {
    var rest := url[|JdbcScheme|..];
    var i := IndexOf(rest, ":", 0).value;
    var after := rest[i + 1..];
    var j := IndexOf(after, "/", 0).value;
    AroundOccurrence(rest, ":", i);
    AroundOccurrence(after, "/", j);
    var p := ParseConnectionString(url).value;
    assert p == (rest[..i], after[..j], after[j + 1..]);
    assert url == JdbcScheme + rest;
    assert rest == p.0 + ":" + after;
    assert after == p.1 + "/" + p.2;
    assert url == JdbcScheme + (p.0 + ":" + (p.1 + "/" + p.2));
    ConnectionStringNested(p.0, p.1, p.2);
  }

  lemma ConnectionStringNested(address: string, port: string, databaseName: string)
    ensures ConnectionString(address, port, databaseName) == JdbcScheme + (address + ":" + (port + "/" + databaseName))
  {
  }

  const ToStringLabel := "MySqlConnection: "

  /** toString. */
  function Describe(connectionString: string): (r: string)
    ensures StartsWith(r, ToStringLabel) && r[|ToStringLabel|..] == connectionString
  {
    ToStringLabel + connectionString
  }

  // ----- importDumbString -----

  const StatementSeparator := ";\n"
  const InsertPrefix := "INSERT INTO `SCHEME`"
  const InsertIgnorePrefix := "INSERT IGNORE INTO `SCHEME`"

  /** One piece of the dump as it is executed: trimmed, skipped when blank,
    * and with its inserts turned into INSERT IGNORE when it starts with one. */
  function Prepared(piece: string): (r: Option<string>)
  {
    var s := Trim(piece);
    if s == [] then None
    else if StartsWith(s, InsertPrefix) then Some(ReplaceAll(s, InsertPrefix, InsertIgnorePrefix))
    else Some(s)
  }

  /** A blank piece is skipped; any other runs non-empty, never as a plain
    * INSERT INTO `SCHEME`, and an insert runs as INSERT IGNORE. Preparing
    * an executed statement once more leaves it as it is. */
  lemma PreparedMeaning(piece: string)
    ensures Prepared(piece).None? <==> Trim(piece) == []
    ensures Prepared(piece).Some? ==> var s := Prepared(piece).value;
              s != [] && !StartsWith(s, InsertPrefix) && Prepared(s) == Some(s)
              && (StartsWith(Trim(piece), InsertPrefix) ==> StartsWith(s, InsertIgnorePrefix))
              && (!StartsWith(Trim(piece), InsertPrefix) ==> s == Trim(piece))
  {
    var t := Trim(piece);
    if t != [] {
      if StartsWith(t, InsertPrefix) {
        InsertRewritten(t);
      } else {
        TrimmedRunsAsIs(t);
      }
    }
  }

  /** Text already trimmed and not a plain insert is prepared as itself. */
  lemma TrimmedRunsAsIs(t: string)
    requires t != [] && !IsTrimmable(t[0]) && !IsTrimmable(t[|t| - 1]) && !StartsWith(t, InsertPrefix)
    ensures Prepared(t) == Some(t)
  {
    assert Trim(t) == t;
  }

  /** An insert into `SCHEME` is rewritten into text that is prepared as itself. */
  lemma InsertRewritten(t: string)
    requires t != [] && !IsTrimmable(t[0]) && !IsTrimmable(t[|t| - 1]) && StartsWith(t, InsertPrefix)
    ensures var s := ReplaceAll(t, InsertPrefix, InsertIgnorePrefix);
            s != [] && StartsWith(s, InsertIgnorePrefix) && !StartsWith(s, InsertPrefix) && Prepared(s) == Some(s)
  {
    var s := ReplaceAll(t, InsertPrefix, InsertIgnorePrefix);
    assert !IsTrimmable(InsertIgnorePrefix[0]) && !IsTrimmable(InsertIgnorePrefix[|InsertIgnorePrefix| - 1]);
    ReplacedTrimmed(t, InsertPrefix, InsertIgnorePrefix);
    IgnoreIsNoPlainInsert(s);
    TrimmedRunsAsIs(s);
  }

  /** Trimmed text that starts with the target stays trimmed once replaced,
    * when the replacement is trimmed too. */
  lemma ReplacedTrimmed(t: string, target: string, replacement: string)
    requires |target| > 0 && |replacement| > 0 && StartsWith(t, target)
    requires t != [] && !IsTrimmable(t[0]) && !IsTrimmable(t[|t| - 1])
    requires !IsTrimmable(replacement[0]) && !IsTrimmable(replacement[|replacement| - 1])
    ensures var s := ReplaceAll(t, target, replacement);
            s != [] && StartsWith(s, replacement) && !IsTrimmable(s[0]) && !IsTrimmable(s[|s| - 1])
  {
    var s := ReplaceAll(t, target, replacement);
    ReplaceAllPrefix(t, target, replacement);
    ReplaceAllLast(t, target, replacement);
    assert s[..|replacement|][0] == s[0];
  }

  lemma IgnoreIsNoPlainInsert(s: string)
    requires StartsWith(s, InsertIgnorePrefix)
    ensures !StartsWith(s, InsertPrefix) && !IsTrimmable(s[0])
  {
    assert s[..|InsertIgnorePrefix|][8] == s[8] == 'G';
    assert s[..|InsertIgnorePrefix|][0] == s[0] == 'I';
    if |InsertPrefix| <= |s| {
      assert s[..|InsertPrefix|][8] == s[8];
    }
  }

  /** What a list of pieces runs, in order, when `prep` prepares each. */
  function Collect(pieces: seq<string>, prep: string -> Option<string>): (r: seq<string>)
    ensures |r| <= |pieces|
  {
    if pieces == [] then []
    else
      var last := prep(pieces[|pieces| - 1]);
      Collect(pieces[..|pieces| - 1], prep) + (if last.Some? then [last.value] else [])
  }

  /** What the first pieces run is the start of what all of them run. */
  lemma {:induction false} CollectPrefix(pieces: seq<string>, prep: string -> Option<string>, i: nat)
    requires i <= |pieces|
    ensures var s := Collect(pieces[..i], prep);
            |s| <= |Collect(pieces, prep)| && Collect(pieces, prep)[..|s|] == s
    decreases |pieces| - i
  {
    if i < |pieces| {
      CollectPrefix(pieces, prep, i + 1);
      assert pieces[..i + 1][..i] == pieces[..i];
    } else {
      assert pieces[..i] == pieces;
    }
  }

  /** Everything run is what some piece prepares to. */
  lemma {:induction false} CollectFrom(pieces: seq<string>, prep: string -> Option<string>)
    ensures forall s :: s in Collect(pieces, prep) ==> exists i :: 0 <= i < |pieces| && prep(pieces[i]) == Some(s)
  {
    if pieces != [] {
      var n := |pieces| - 1;
      CollectFrom(pieces[..n], prep);
      forall s | s in Collect(pieces, prep) ensures exists i :: 0 <= i < |pieces| && prep(pieces[i]) == Some(s) {
        if s in Collect(pieces[..n], prep) {
          var i :| 0 <= i < n && prep(pieces[..n][i]) == Some(s);
          assert pieces[..n][i] == pieces[i];
        } else {
          assert prep(pieces[n]) == Some(s);
        }
      }
    }
  }

  /** Nothing is run exactly when every piece is skipped. */
  lemma {:induction false} CollectNone(pieces: seq<string>, prep: string -> Option<string>)
    ensures Collect(pieces, prep) == [] <==> forall i :: 0 <= i < |pieces| ==> prep(pieces[i]).None?
  {
    if pieces != [] {
      var n := |pieces| - 1;
      CollectNone(pieces[..n], prep);
      assert forall i :: 0 <= i < n ==> pieces[..n][i] == pieces[i];
    }
  }

  /** The statements a list of pieces runs, in order. */
  function Statements(pieces: seq<string>): (r: seq<string>)
    ensures |r| <= |pieces|
  {
    Collect(pieces, Prepared)
  }

  /** Every statement run comes from a piece and is prepared: never blank,
    * never a plain insert into `SCHEME`, and prepared again unchanged. */
  lemma StatementsPrepared(pieces: seq<string>)
    ensures forall s :: s in Statements(pieces) ==>
              (exists i :: 0 <= i < |pieces| && Prepared(pieces[i]) == Some(s))
              && s != [] && !StartsWith(s, InsertPrefix) && Prepared(s) == Some(s)
  {
    CollectFrom(pieces, Prepared);
    forall s | s in Statements(pieces) ensures s != [] && !StartsWith(s, InsertPrefix) && Prepared(s) == Some(s) {
      var i :| 0 <= i < |pieces| && Prepared(pieces[i]) == Some(s);
      PreparedMeaning(pieces[i]);
    }
  }

  /** No statement is run exactly when every piece is blank. */
  lemma StatementsNone(pieces: seq<string>)
    ensures Statements(pieces) == [] <==> forall i :: 0 <= i < |pieces| ==> Trim(pieces[i]) == []
  {
    CollectNone(pieces, Prepared);
    forall i | 0 <= i < |pieces| ensures Prepared(pieces[i]).None? <==> Trim(pieces[i]) == [] {
      PreparedMeaning(pieces[i]);
    }
  }

  /** The statements of a dump. */
  function DumpStatements(dump: string): seq<string>
  {
    Statements(Split(dump, StatementSeparator))
  }

  /** How far execution gets: the index of the first statement that fails,
    * or the number of statements when none does. */
  function FirstFailure(stmts: seq<string>, exec: string -> Outcome): (k: nat)
    ensures k <= |stmts|
    ensures forall i :: 0 <= i < k ==> exec(stmts[i]).Success?
    ensures k < |stmts| ==> exec(stmts[k]).Failure?
  {
    if stmts == [] then 0
    else if exec(stmts[0]).Failure? then 0
    else 1 + FirstFailure(stmts[1..], exec)
  }

  /** A JDBC call on the connection or the statement, in the order made. */
  datatype SqlAction = SetAutoCommit(on: bool) | Execute(sql: string) | Commit | Rollback | CloseStatement

  function Executes(stmts: seq<string>): (r: seq<SqlAction>)
    ensures |r| == |stmts| && forall i :: 0 <= i < |stmts| ==> r[i] == Execute(stmts[i])
  {
    seq(|stmts|, i requires 0 <= i < |stmts| => Execute(stmts[i]))
  }

  /** The statements an action log executes, in order. */
  function Executed(actions: seq<SqlAction>): seq<string>
  {
    if actions == [] then []
    else Executed(actions[..|actions| - 1])
         + (if actions[|actions| - 1].Execute? then [actions[|actions| - 1].sql] else [])
  }

  lemma {:induction false} ExecutedAppend(a: seq<SqlAction>, b: seq<SqlAction>)
    ensures Executed(a + b) == Executed(a) + Executed(b)
    decreases |b|
  {
    if b == [] {
      assert a + b == a;
    } else {
      assert (a + b)[..|a + b| - 1] == a + b[..|b| - 1];
      ExecutedAppend(a, b[..|b| - 1]);
    }
  }

  lemma {:induction false} ExecutedExecutes(stmts: seq<string>)
    ensures Executed(Executes(stmts)) == stmts
    decreases |stmts|
  {
    if stmts != [] {
      var n := |stmts| - 1;
      assert Executes(stmts) == Executes(stmts[..n]) + [Execute(stmts[n])];
      ExecutedAppend(Executes(stmts[..n]), [Execute(stmts[n])]);
      ExecutedExecutes(stmts[..n]);
    }
  }

  lemma {:induction false} ExecutedNone(actions: seq<SqlAction>)
    requires forall i :: 0 <= i < |actions| ==> !actions[i].Execute?
    ensures Executed(actions) == []
  {
    if actions != [] {
      ExecutedNone(actions[..|actions| - 1]);
    }
  }

  function LastCommand(stmts: seq<string>): string
  {
    if stmts == [] then "" else stmts[|stmts| - 1]
  }

  const NotePrefix := "With command:"

  /** The calls after the statements: a commit unless a statement failed, a
    * rollback when a statement or the commit failed, then the statement
    * closed and auto-commit back on. */
  function Closing(failed: bool, commit: Outcome): seq<SqlAction>
  {
    (if failed then [] else [Commit]) + (if failed || commit.Failure? then [Rollback] else [])
    + [CloseStatement, SetAutoCommit(true)]
  }

  lemma ClosingMeaning(failed: bool, commit: Outcome)
    ensures var c := Closing(failed, commit);
            Executed(c) == [] && |c| >= 2 && c[|c| - 1] == SetAutoCommit(true)
            && (Commit in c <==> !failed) && (Rollback in c <==> failed || commit.Failure?)
  {
    ExecutedNone(Closing(failed, commit));
  }

  /** The statements an import executes: all of them, or up to and
    * including the first that fails. */
  function Attempted(stmts: seq<string>, exec: string -> Outcome): (ran: seq<string>)
  {
    var k := FirstFailure(stmts, exec);
    if k < |stmts| then stmts[..k + 1] else stmts
  }

  /** The import of a list of statements: its calls and its outcome. */
  function ImportRun(stmts: seq<string>, exec: string -> Outcome, commit: Outcome): (seq<SqlAction>, Outcome)
  {
    (ImportLog(stmts, exec, commit), ImportOutcome(stmts, exec, commit))
  }

  /** The calls of an import: auto-commit off, the attempted statements,
    * then the closing calls. */
  function ImportLog(stmts: seq<string>, exec: string -> Outcome, commit: Outcome): seq<SqlAction>
  {
    [SetAutoCommit(false)] + Executes(Attempted(stmts, exec)) + Closing(FirstFailure(stmts, exec) < |stmts|, commit)
  }

  /** The outcome of an import: the error of the failing statement, else
    * that of the commit, rethrown with the last command attempted as its
    * note. */
  function ImportOutcome(stmts: seq<string>, exec: string -> Outcome, commit: Outcome): Outcome
  {
    var k := FirstFailure(stmts, exec);
    var note := NotePrefix + LastCommand(Attempted(stmts, exec));
    if k < |stmts| then Failure(Suppressed(exec(stmts[k]).error, note))
    else if commit.Failure? then Failure(Suppressed(commit.error, note))
    else Success
  }

  /** The action log of an import executes exactly the attempted statements. */
  lemma ImportRunExecuted(stmts: seq<string>, exec: string -> Outcome, commit: Outcome)
    ensures Executed(ImportRun(stmts, exec, commit).0) == Attempted(stmts, exec)
  {
    var ran := Attempted(stmts, exec);
    var closing := Closing(FirstFailure(stmts, exec) < |stmts|, commit);
    assert ImportRun(stmts, exec, commit).0 == [SetAutoCommit(false)] + Executes(ran) + closing;
    ExecutedNone(closing);
    ExecutedAppend([SetAutoCommit(false)] + Executes(ran), closing);
    ExecutedAppend([SetAutoCommit(false)], Executes(ran));
    ExecutedNone([SetAutoCommit(false)]);
    ExecutedExecutes(ran);
  }

  /** The attempted statements are a prefix of the statements, all but the
    * last succeeding; they stop short only at a failing one. */
  lemma AttemptedMeaning(stmts: seq<string>, exec: string -> Outcome)
    ensures var ran := Attempted(stmts, exec);
            ran <= stmts
            && (forall i :: 0 <= i < |ran| - 1 ==> exec(ran[i]).Success?)
            && (|ran| < |stmts| ==> |ran| > 0 && exec(ran[|ran| - 1]).Failure?)
            && ((forall i :: 0 <= i < |stmts| ==> exec(stmts[i]).Success?) <==> FirstFailure(stmts, exec) == |stmts|)
            && (FirstFailure(stmts, exec) < |stmts| ==> |ran| > 0 && exec(ran[|ran| - 1]).Failure?)
  {
  }

  /** The import runs a prefix of the statements in order, stopping after the
    * first that fails; it succeeds iff every statement and the commit do;
    * it commits iff no statement failed and rolls back iff it fails;
    * auto-commit is switched off first and back on last on every path, and a
    * failure carries the last command attempted. */
  lemma ImportRunMeaning(stmts: seq<string>, exec: string -> Outcome, commit: Outcome)
    ensures var (actions, o) := ImportRun(stmts, exec, commit);
            var ran := Executed(actions);
            |actions| >= 3 && actions[0] == SetAutoCommit(false) && actions[|actions| - 1] == SetAutoCommit(true)
            && ran <= stmts
            && (forall i :: 0 <= i < |ran| - 1 ==> exec(ran[i]).Success?)
            && (|ran| < |stmts| ==> |ran| > 0 && exec(ran[|ran| - 1]).Failure?)
            && (o.Success? <==> (forall i :: 0 <= i < |stmts| ==> exec(stmts[i]).Success?) && commit.Success?)
            && (Commit in actions <==> forall i :: 0 <= i < |stmts| ==> exec(stmts[i]).Success?)
            && (Rollback in actions <==> o.Failure?)
            && (o.Failure? ==> o.error.Suppressed? && o.error.note == NotePrefix + LastCommand(ran))
  {
    var failed := FirstFailure(stmts, exec) < |stmts|;
    var ran := Attempted(stmts, exec);
    ImportRunExecuted(stmts, exec, commit);
    AttemptedMeaning(stmts, exec);
    ClosingMeaning(failed, commit);
    assert Commit !in Executes(ran) && Rollback !in Executes(ran);
  }

  // ----- databaseExist -----

  const ProbeId := "MySqlConnection.databaseExist()"

  /** databaseExist: connect and disconnect under its own ID; true iff both
    * succeed. */
  function DatabaseExists(st: Session, got: Result<Option<Handle>>, close: Outcome): (bool, Session)
  {
    var c := AfterConnect(st, ProbeId, got);
    if c.1.Err? then (false, c.0)
    else
      var d := AfterDisconnect(c.0, ProbeId, close);
      (d.1.Ok?, d.0)
  }

  /** On a session in step that the probe ID is not part of, the probe
    * leaves the session as it was and answers true when the server can be
    * reached and closed; with no connection open and none to be had it
    * answers false. */
  lemma DatabaseExistsMeaning(st: Session, got: Result<Option<Handle>>, close: Outcome)
    requires Balanced(st) && ProbeId !in st.openIds
    ensures got.Ok? && got.value.Some? && close.Success? ==> DatabaseExists(st, got, close) == (true, st)
    ensures st.connection.Some? ==> DatabaseExists(st, got, close) == (true, st)
    ensures st.connection.None? && got.Err? ==> DatabaseExists(st, got, close) == (false, st)
  {
    if got.Ok? && got.value.Some? && close.Success? {
      ConnectThenDisconnect(st, ProbeId, got.value.value, close);
    }
    if st.connection.Some? {
      var c := AfterConnect(st, ProbeId, got);
      RemoveAppended(st.openIds, ProbeId);
      assert c.0.openIds == st.openIds + [ProbeId];
    }
  }

  // ----- createNewDatabase -----

  /** What createNewDatabase does: nothing when the admin name or password
    * is null; otherwise connect to the server URL (no database) and run the
    * three statements that create the database and the user and grant it
    * the database. */
  function CreateNewDatabasePlan(address: string, port: string, databaseName: string, user: string, userPass: string,
                                 admin: Option<string>, adminPass: Option<string>): (r: Option<(string, seq<string>)>)
  {
    if admin.None? || adminPass.None? then None
    else
      Some((JdbcScheme + address + ":" + port + "/?",
            ["CREATE DATABASE IF NOT EXISTS `" + databaseName + "` CHARACTER SET utf8 COLLATE utf8_general_ci",
             "CREATE USER IF NOT EXISTS '" + user + "' IDENTIFIED BY '" + userPass + "';",
             "GRANT ALL PRIVILEGES ON `" + databaseName + "`.* TO '" + user + "'@'%';"]))
  }

  /** The guard works in both directions, and the server URL is the URL of
    * the database "?" on the same host. */
  lemma CreateNewDatabaseGuard(address: string, port: string, databaseName: string, user: string, userPass: string,
                               admin: Option<string>, adminPass: Option<string>)
    ensures var r := CreateNewDatabasePlan(address, port, databaseName, user, userPass, admin, adminPass);
            (r.None? <==> admin.None? || adminPass.None?)
            && (r.Some? ==> r.value.0 == ConnectionString(address, port, "?") && |r.value.1| == 3)
  {
  }

  class MySqlConnection {
    const address: string
    const port: string
    const databaseName: string
    const connectionString: string
    /** The DatabaseConnection state this connection inherits. */
    const base: DatabaseConnection
    /** The JDBC calls made by imports so far. */
    var actions: seq<SqlAction>

    constructor (address: string, port: string, databaseName: string)
      ensures this.address == address && this.port == port && this.databaseName == databaseName
      ensures connectionString == ConnectionString(address, port, databaseName)
      ensures fresh(base) && base.Current() == Session(None, []) && base.listeners == [] && actions == []
    {
      this.address := address;
      this.port := port;
      this.databaseName := databaseName;
      connectionString := JdbcScheme + address + ":" + port + "/" + databaseName;
      base := new DatabaseConnection();
      actions := [];
    }

    function ToString(): string
    {
      Describe(connectionString)
    }

    /** importDumbString, with `exec` the outcome of executing each
      * statement and `commit` that of the commit. */
    method ImportDumbString(dump: string, exec: string -> Outcome, commit: Outcome) returns (o: Outcome)
      modifies this
      ensures base.connection.None? ==> o == Failure(Runtime("no connection to Database")) && actions == old(actions)
      ensures base.connection.Some? ==>
                actions == old(actions) + ImportLog(DumpStatements(dump), exec, commit)
                && o == ImportOutcome(DumpStatements(dump), exec, commit)
    {
      var statement := base.CreateStatement();
      if statement.Err? {
        return Failure(statement.error);
      }
      var pieces := Split(dump, StatementSeparator);
      ghost var start := actions;
      actions := actions + [SetAutoCommit(false)];
      var lastCommand, failure := RunPieces(pieces, exec);
      ghost var mid, ranFailure := actions, failure;
      failure := Finish(failure, commit);
      if failure.Some? {
        o := Failure(Suppressed(failure.value, NotePrefix + lastCommand));
      } else {
        o := Success;
      }
      ImportSteps(Statements(pieces), exec, commit, start, mid, actions, lastCommand, ranFailure, failure, o);
    }

    /** The end of importDumbString: a commit when no statement failed, a
      * rollback on any failure, then the statement closed and auto-commit
      * back on. */
    method Finish(failed: Option<Error>, commit: Outcome) returns (failure: Option<Error>)
      modifies this
      ensures actions == old(actions) + Closing(failed.Some?, commit)
      ensures failure == if failed.Some? then failed else if commit.Failure? then Some(commit.error) else None
    {
      failure := failed;
      if failure.None? {
        actions := actions + [Commit];
        if commit.Failure? {
          failure := Some(commit.error);
        }
      }
      if failure.Some? {
        actions := actions + [Rollback];
      }
      actions := actions + [CloseStatement, SetAutoCommit(true)];
    }

    /** The statement loop of importDumbString: each piece prepared and, when
      * not skipped, recorded as the last command and executed, until one
      * fails. */
    method RunPieces(pieces: seq<string>, exec: string -> Outcome) returns (lastCommand: string, failure: Option<Error>)
      modifies this
      ensures var stmts := Statements(pieces);
              var ran := Attempted(stmts, exec);
              actions == old(actions) + Executes(ran) && lastCommand == LastCommand(ran)
              && (failure.None? <==> FirstFailure(stmts, exec) == |stmts|)
              && (failure.Some? ==> failure.value == exec(stmts[FirstFailure(stmts, exec)]).error)
    {
      lastCommand := "";
      failure := None;
      var i := 0;
      while i < |pieces| && failure.None?
        invariant 0 <= i <= |pieces|
        invariant Progress(Statements(pieces[..i]), exec, old(actions), actions, lastCommand, failure)
      {
        lastCommand, failure := RunPiece(pieces, i, exec, lastCommand, old(actions));
        i := i + 1;
      }
      RunDone(pieces, i, exec, old(actions), actions, lastCommand, failure);
    }

    /** One turn of the statement loop. */
    method RunPiece(pieces: seq<string>, i: nat, exec: string -> Outcome, lastBefore: string, ghost start: seq<SqlAction>)
      returns (lastCommand: string, failure: Option<Error>)
      requires i < |pieces|
      requires Progress(Statements(pieces[..i]), exec, start, actions, lastBefore, None)
      modifies this
      ensures Progress(Statements(pieces[..i + 1]), exec, start, actions, lastCommand, failure)
    {
      StatementsStep(pieces, i);
      var p := Prepared(pieces[i]);
      if p.None? {
        return lastBefore, None;
      }
      ProgressExtend(Statements(pieces[..i]), exec, start, actions, lastBefore, p.value);
      lastCommand := p.value;
      actions := actions + [Execute(p.value)];
      var e := exec(p.value);
      failure := if e.Failure? then Some(e.error) else None;
    }

    /** databaseExist, with `got` what getConnection gives and `close` the
      * outcome of closing. */
    method DatabaseExist(got: Result<Option<Handle>>, close: Outcome) returns (r: bool)
      modifies base
      ensures (r, base.Current()) == DatabaseExists(old(base.Current()), got, close)
      ensures base.listeners == old(base.listeners)
    {
      var c := base.Connect(ProbeId, got);
      if c.Failure? {
        return false;
      }
      var d := base.Disconnect(ProbeId, close);
      r := d.Success?;
    }
  }

  /** The statement loop after the statements `ran`, started with the log
    * `start`: each executed, the last recorded, and a failure only at the
    * last. */
  ghost predicate Progress(ran: seq<string>, exec: string -> Outcome, start: seq<SqlAction>, actions: seq<SqlAction>,
                           lastCommand: string, failure: Option<Error>)
  {
    actions == start + Executes(ran)
    && lastCommand == LastCommand(ran)
    && (failure.None? ==> FirstFailure(ran, exec) == |ran|)
    && (failure.Some? ==> |ran| > 0 && FirstFailure(ran, exec) == |ran| - 1 && failure.value == exec(ran[|ran| - 1]).error)
  }

  /** The steps of importDumbString, put together, make up the import. */
  lemma ImportSteps(stmts: seq<string>, exec: string -> Outcome, commit: Outcome,
                    start: seq<SqlAction>, mid: seq<SqlAction>, final: seq<SqlAction>,
                    lastCommand: string, ranFailure: Option<Error>, failure: Option<Error>, o: Outcome)
    requires mid == start + [SetAutoCommit(false)] + Executes(Attempted(stmts, exec))
    requires lastCommand == LastCommand(Attempted(stmts, exec))
    requires ranFailure.None? <==> FirstFailure(stmts, exec) == |stmts|
    requires ranFailure.Some? ==> ranFailure.value == exec(stmts[FirstFailure(stmts, exec)]).error
    requires final == mid + Closing(ranFailure.Some?, commit)
    requires failure == if ranFailure.Some? then ranFailure else if commit.Failure? then Some(commit.error) else None
    requires o == if failure.Some? then Failure(Suppressed(failure.value, NotePrefix + lastCommand)) else Success
    ensures final == start + ImportLog(stmts, exec, commit)
    ensures o == ImportOutcome(stmts, exec, commit)
  {
    var head := [SetAutoCommit(false)] + Executes(Attempted(stmts, exec));
    var closing := Closing(FirstFailure(stmts, exec) < |stmts|, commit);
    Assoc(start, [SetAutoCommit(false)], Executes(Attempted(stmts, exec)));
    Assoc(start, head, closing);
  }

  lemma Assoc<T>(a: seq<T>, b: seq<T>, c: seq<T>)
    ensures a + b + c == a + (b + c)
  {
  }

  /** When the statement loop stops, it has run the attempted statements. */
  lemma RunDone(pieces: seq<string>, i: nat, exec: string -> Outcome, start: seq<SqlAction>, actions: seq<SqlAction>,
                lastCommand: string, failure: Option<Error>)
    requires i <= |pieces| && (i == |pieces| || failure.Some?)
    requires Progress(Statements(pieces[..i]), exec, start, actions, lastCommand, failure)
    ensures var stmts := Statements(pieces);
            var ran := Attempted(stmts, exec);
            actions == start + Executes(ran) && lastCommand == LastCommand(ran)
            && (failure.None? <==> FirstFailure(stmts, exec) == |stmts|)
            && (failure.Some? ==> failure.value == exec(stmts[FirstFailure(stmts, exec)]).error)
  {
    var done := Statements(pieces[..i]);
    var all := Statements(pieces);
    CollectPrefix(pieces, Prepared, i);
    if failure.None? {
      assert pieces[..i] == pieces;
    } else {
      FirstFailurePrefix(all, exec, |done| - 1);
      assert done == all[..|done| - 1 + 1];
    }
  }

  /** Executing one more statement after a run with no failure. */
  lemma ProgressExtend(ran: seq<string>, exec: string -> Outcome, start: seq<SqlAction>, actions: seq<SqlAction>,
                       lastCommand: string, x: string)
    requires Progress(ran, exec, start, actions, lastCommand, None)
    ensures Progress(ran + [x], exec, start, actions + [Execute(x)], x,
                     if exec(x).Failure? then Some(exec(x).error) else None)
  {
    assert Executes(ran + [x]) == Executes(ran) + [Execute(x)];
    FirstFailureExtend(ran, exec, x);
  }

  /** One more piece adds what it prepares to, if anything. */
  lemma StatementsStep(pieces: seq<string>, i: nat)
    requires i < |pieces|
    ensures var p := Prepared(pieces[i]);
            Statements(pieces[..i + 1]) == Statements(pieces[..i]) + (if p.Some? then [p.value] else [])
  {
    assert pieces[..i + 1][..i] == pieces[..i];
    assert pieces[..i + 1][i] == pieces[i];
  }

  /** Running one more statement after a run with no failure. */
  lemma FirstFailureExtend(s: seq<string>, exec: string -> Outcome, x: string)
    requires FirstFailure(s, exec) == |s|
    ensures exec(x).Success? ==> FirstFailure(s + [x], exec) == |s| + 1
    ensures exec(x).Failure? ==> FirstFailure(s + [x], exec) == |s|
  {
    var t := s + [x];
    assert forall i :: 0 <= i < |s| ==> t[i] == s[i];
    assert t[|s|] == x;
  }

  /** The first failure seen in a prefix is the first failure of the whole. */
  lemma FirstFailurePrefix(all: seq<string>, exec: string -> Outcome, k: nat)
    requires k < |all| && FirstFailure(all[..k + 1], exec) == k
    ensures FirstFailure(all, exec) == k
  {
    assert forall i :: 0 <= i <= k ==> all[..k + 1][i] == all[i];
  }
}
