/// MariaDB_Cluster_Connection: connections drawn from a pool, each answer
/// with a URL that lists every host of the cluster, the list rotated one
/// step further on every new connection.
module ClusterConnections {

  import opened Wrappers
  import opened Text
  import opened ConnectionPools
  import MySqlConnections
  import MariaDbConnections

  /** Host: an address and a port. */
  datatype Host = Host(host: string, port: string)
  {
    /** toString. */
    function ToString(): string
    {
      host + ":" + port
    }
  }

  /** The hosts as they are written into a URL. */
  function HostList(hosts: seq<Host>): (r: seq<string>)
    ensures |r| == |hosts| && forall i :: 0 <= i < |hosts| ==> r[i] == hosts[i].ToString()
  {
    seq(|hosts|, i requires 0 <= i < |hosts| => hosts[i].ToString())
  }

  // ----- rotation -----

  /** Division by a positive number has one quotient and one remainder. */
  lemma ModUnique(x: int, q: int, r: int, n: int)
    requires n > 0 && 0 <= r < n && x == q * n + r
    ensures x % n == r && x / n == q
  {
    var q', r' := x / n, x % n;
    DivMod(x, n);
    if q' != q {
      var d := if q' > q then q' - q else q - q';
      Distribute(q', q, n);
      AtLeastOnce(d, n);
      assert false;
    }
  }

  lemma DivMod(x: int, n: int)
    requires n > 0
    ensures x == (x / n) * n + x % n && 0 <= x % n < n
  {
  }

  lemma Distribute(a: int, b: int, n: int)
    ensures a * n - b * n == (a - b) * n
  {
  }

  lemma AtLeastOnce(d: int, n: int)
    requires d >= 1 && n > 0
    ensures d * n >= n
  {
  }

  /** The list read from index k mod n on, wrapping around at its end:
    * the tail from there followed by the head before it. */
  function Rotated<T>(xs: seq<T>, k: nat): (r: seq<T>)
    requires |xs| > 0
    ensures |r| == |xs|
  {
    xs[k % |xs|..] + xs[..k % |xs|]
  }

  /** Element i of a rotation is element k + i mod n of the list. */
  lemma RotatedAt<T>(xs: seq<T>, k: nat, i: nat)
    requires 0 <= i < |xs|
    ensures Rotated(xs, k)[i] == xs[(k + i) % |xs|]
  {
    var n, m := |xs|, k % |xs|;
    DivMod(k, n);
    if i < n - m {
      ModUnique(k + i, k / n, m + i, n);
    } else {
      ModUnique(k + i, k / n + 1, m + i - n, n);
    }
  }

  /** A rotation holds every element as often as the list does. */
  lemma RotatedPermutation<T>(xs: seq<T>, k: nat)
    requires |xs| > 0
    ensures multiset(Rotated(xs, k)) == multiset(xs)
  {
    var m := k % |xs|;
    assert xs == xs[..m] + xs[m..];
  }

  /** Rotations by k and by k mod n agree. */
  lemma RotatedMod<T>(xs: seq<T>, k: nat)
    requires |xs| > 0
    ensures Rotated(xs, k) == Rotated(xs, k % |xs|)
  {
    ModUnique(k % |xs|, 0, k % |xs|, |xs|);
  }

  /** Rotating by the length more is the same rotation. */
  lemma RotatedPeriod<T>(xs: seq<T>, k: nat)
    requires |xs| > 0
    ensures Rotated(xs, k + |xs|) == Rotated(xs, k)
  {
    var n := |xs|;
    DivMod(k, n);
    ModUnique(k + n, k / n + 1, k % n, n);
  }

  /** The URL of a new pooled connection when the rotation index is k. */
  function ClusterUrl(hosts: seq<Host>, k: nat, databaseName: string): string
    requires |hosts| > 0
  {
    UrlOf(HostList(Rotated(hosts, k)), databaseName)
  }

  /** A MySQL URL naming several hosts, separated by commas. */
  function UrlOf(names: seq<string>, databaseName: string): string
  {
    MySqlConnections.JdbcScheme + Join(names, ",") + "/" + databaseName
  }

  /** Every URL names every host exactly once, and its host list splits back
    * into the rotated hosts when no host holds a comma. */
  lemma ClusterUrlHosts(hosts: seq<Host>, k: nat, databaseName: string)
    requires |hosts| > 0
    requires forall i :: 0 <= i < |hosts| ==> ',' !in hosts[i].ToString()
    ensures multiset(Rotated(hosts, k)) == multiset(hosts)
    ensures SplitAll(Join(HostList(Rotated(hosts, k)), ","), ",") == HostList(Rotated(hosts, k))
  {
    RotatedPermutation(hosts, k);
    var names := HostList(Rotated(hosts, k));
    forall i | 0 <= i < |names| ensures ',' !in names[i] {
      RotatedAt(hosts, k, i);
    }
    SplitAllJoin(names, ',');
  }

  /** The rotation index after `calls` new connections, from `start`. */
  function RotationAfter(start: nat, calls: nat, n: nat): nat
    requires n > 0
  {
    if calls == 0 then start else (RotationAfter(start, calls - 1, n) + 1) % n
  }

  /** Adding one before or after taking the remainder gives the same
    * remainder. */
  lemma ModNext(x: nat, n: nat)
    requires n > 0
    ensures (x % n + 1) % n == (x + 1) % n
  {
    var q, p := x / n, x % n;
    if p + 1 < n {
      ModUnique(x + 1, q, p + 1, n);
      ModUnique(p + 1, 0, p + 1, n);
    } else {
      assert (q + 1) * n == q * n + n;
      ModUnique(x + 1, q + 1, 0, n);
      ModUnique(p + 1, 1, 0, n);
    }
  }

  /** After at least one call the rotation index is start + calls mod n, so
    * it stays below n. */
  lemma {:induction false} RotationAfterMeaning(start: nat, calls: nat, n: nat)
    requires n > 0 && calls > 0
    ensures RotationAfter(start, calls, n) == (start + calls) % n < n
  {
    if calls > 1 {
      RotationAfterMeaning(start, calls - 1, n);
      ModNext(start + calls - 1, n);
    }
  }

  /** The URL after `calls` new connections is the URL of rotation
    * start + calls. */
  lemma UrlAfter(hosts: seq<Host>, start: nat, calls: nat, databaseName: string)
    requires |hosts| > 0
    ensures ClusterUrl(hosts, RotationAfter(start, calls, |hosts|), databaseName) == ClusterUrl(hosts, start + calls, databaseName)
  {
    if calls > 0 {
      RotationAfterMeaning(start, calls, |hosts|);
      UrlAt(hosts, RotationAfter(start, calls, |hosts|), start + calls, databaseName);
    }
  }

  /** Rotations with the same remainder give the same URL. */
  lemma UrlAt(hosts: seq<Host>, m: nat, k: nat, databaseName: string)
    requires |hosts| > 0 && m == k % |hosts|
    ensures ClusterUrl(hosts, m, databaseName) == ClusterUrl(hosts, k, databaseName)
  {
    UrlMod(hosts, k, databaseName);
  }

  /** The URL of rotation k is the URL of rotation k mod n. */
  lemma UrlMod(hosts: seq<Host>, k: nat, databaseName: string)
    requires |hosts| > 0
    ensures ClusterUrl(hosts, k, databaseName) == ClusterUrl(hosts, k % |hosts|, databaseName)
  {
    RotatedMod(hosts, k);
  }

  /** The URLs repeat with period n. */
  lemma UrlPeriod(hosts: seq<Host>, k: nat, databaseName: string)
    requires |hosts| > 0
    ensures ClusterUrl(hosts, k + |hosts|, databaseName) == ClusterUrl(hosts, k, databaseName)
  {
    RotatedPeriod(hosts, k);
  }

  /** The connection createNewPooledConnection makes with rotation index
    * `rotation`, given what the driver answers for its URL: an
    * ArithmeticException (modulo by zero) when there is no host. */
  function NewConnection(hosts: seq<Host>, rotation: nat, databaseName: string, answer: Result<nat>): (r: Result<PooledConnection>)
  {
    if hosts == [] then Err(Arithmetic)
    else if answer.Err? then Err(answer.error)
    else Ok(PooledConnection(ClusterUrl(hosts, rotation, databaseName), answer.value))
  }

  /** The rotation index after createNewPooledConnection. */
  function NextRotation(hosts: seq<Host>, rotation: nat): nat
  {
    if hosts == [] then rotation else (rotation + 1) % |hosts|
  }

  const TestHosts := [Host("localhost", "13306"), Host("localhost", "23306"), Host("localhost", "33306")]

  /** With the three hosts of the cluster test, a new connection starts at
    * the second host, the next at the third, the one after at the first.
    * This is the order of connections created one by one; once the pool
    * has been filled, the next connection handed out is the one on top of
    * the pool, whose hosts are in their configured order (FilledPoolTop). */
  lemma TestRotation()
    ensures ClusterUrl(TestHosts, RotationAfter(1, 0, 3), "ClusterTestDB")
            == UrlOf(["localhost:23306", "localhost:33306", "localhost:13306"], "ClusterTestDB")
    ensures ClusterUrl(TestHosts, RotationAfter(1, 1, 3), "ClusterTestDB")
            == UrlOf(["localhost:33306", "localhost:13306", "localhost:23306"], "ClusterTestDB")
    ensures ClusterUrl(TestHosts, RotationAfter(1, 2, 3), "ClusterTestDB")
            == UrlOf(["localhost:13306", "localhost:23306", "localhost:33306"], "ClusterTestDB")
  {
    var a, b, c := "localhost:13306", "localhost:23306", "localhost:33306";
    assert TestHosts[0].ToString() == a && TestHosts[1].ToString() == b && TestHosts[2].ToString() == c;
    ModUnique(1, 0, 1, 3);
    ModUnique(2, 0, 2, 3);
    ModUnique(3, 1, 0, 3);
    ModUnique(0, 0, 0, 3);
    assert RotationAfter(1, 1, 3) == 2;
    assert RotationAfter(1, 2, 3) == 0;
    assert HostList(Rotated(TestHosts, 1)) == [b, c, a];
    assert HostList(Rotated(TestHosts, 2)) == [c, a, b];
    assert HostList(Rotated(TestHosts, 0)) == [a, b, c];
  }

  // ----- fillPool -----

  /** What fillPool has done so far: the connections pushed, the rotation
    * index, and the outcome. */
  datatype FillState = FillState(pushed: seq<Slot>, rotation: nat, outcome: Outcome)

  /** A run of fillPool: `make(rotation, answer)` is one new connection
    * made at rotation index `rotation` with the driver's answer `answer`,
    * and `next(rotation)` the rotation index after it. Each connection is
    * pushed as it is made, until one cannot be made. */
  function Fill(make: (nat, Result<nat>) -> Result<PooledConnection>, next: nat -> nat, start: nat, answers: seq<Result<nat>>): FillState
  {
    if answers == [] then FillState([], start, Success)
    else
      var prev := Fill(make, next, start, answers[..|answers| - 1]);
      if prev.outcome.Failure? then prev
      else
        var made := make(prev.rotation, answers[|answers| - 1]);
        if made.Err? then FillState(prev.pushed, next(prev.rotation), Failure(made.error))
        else FillState(prev.pushed + [Some(made.value)], next(prev.rotation), Success)
  }

  /** The rotation index after `calls` steps from `start`. */
  function Iterate(next: nat -> nat, start: nat, calls: nat): nat
  {
    if calls == 0 then start else next(Iterate(next, start, calls - 1))
  }

  /** A run pushes one connection per answer until the first one that
    * cannot be made; the j-th connection is made at the j-th rotation
    * index. */
  lemma {:induction false} FillPushed(make: (nat, Result<nat>) -> Result<PooledConnection>, next: nat -> nat, start: nat, answers: seq<Result<nat>>)
    ensures var r := Fill(make, next, start, answers);
            |r.pushed| <= |answers|
            && (r.outcome.Success? <==> |r.pushed| == |answers|)
            && forall j :: 0 <= j < |r.pushed| ==>
                 make(Iterate(next, start, j), answers[j]).Ok? && r.pushed[j] == Some(make(Iterate(next, start, j), answers[j]).value)
  {
    if answers != [] {
      var front, last := answers[..|answers| - 1], answers[|answers| - 1];
      FillPushed(make, next, start, front);
      assert forall j :: 0 <= j < |front| ==> answers[j] == front[j];
      var prev := Fill(make, next, start, front);
      if prev.outcome.Success? {
        FillEnds(make, next, start, front);
        var made := make(prev.rotation, last);
        if made.Ok? {
          assert Fill(make, next, start, answers).pushed == prev.pushed + [Some(made.value)];
        }
      }
    }
  }

  /** A run that fails ends with the error of the first answer that cannot
    * be made, and the rotation index has moved on once per connection
    * attempted. */
  lemma {:induction false} FillEnds(make: (nat, Result<nat>) -> Result<PooledConnection>, next: nat -> nat, start: nat, answers: seq<Result<nat>>)
    ensures var r := Fill(make, next, start, answers);
            var p := |r.pushed|;
            (r.outcome.Failure? ==>
               p < |answers| && make(Iterate(next, start, p), answers[p]).Err?
               && r.outcome.error == make(Iterate(next, start, p), answers[p]).error)
            && r.rotation == Iterate(next, start, if r.outcome.Success? then p else p + 1)
  {
    if answers != [] {
      var front, last := answers[..|answers| - 1], answers[|answers| - 1];
      FillPushed(make, next, start, front);
      FillEnds(make, next, start, front);
      var prev := Fill(make, next, start, front);
      var r := Fill(make, next, start, answers);
      if prev.outcome.Failure? {
        assert r == prev && answers[|prev.pushed|] == front[|prev.pushed|];
      } else {
        var p := |front|;
        assert prev.rotation == Iterate(next, start, p);
        assert r.rotation == next(prev.rotation) == Iterate(next, start, p + 1);
        if r.outcome.Failure? {
          assert r.pushed == prev.pushed && answers[p] == last;
        }
      }
    }
  }

  /** Both halves. */
  lemma FillMeaning(make: (nat, Result<nat>) -> Result<PooledConnection>, next: nat -> nat, start: nat, answers: seq<Result<nat>>)
    ensures var r := Fill(make, next, start, answers);
            var p := |r.pushed|;
            p <= |answers|
            && (forall j :: 0 <= j < p ==>
                  make(Iterate(next, start, j), answers[j]).Ok? && r.pushed[j] == Some(make(Iterate(next, start, j), answers[j]).value))
            && (r.outcome.Success? <==> p == |answers|)
            && (r.outcome.Failure? ==>
                  make(Iterate(next, start, p), answers[p]).Err? && r.outcome.error == make(Iterate(next, start, p), answers[p]).error)
            && r.rotation == Iterate(next, start, if r.outcome.Success? then p else p + 1)
  {
    FillPushed(make, next, start, answers);
    FillEnds(make, next, start, answers);
  }

  /** A failure ends a run: later answers change nothing. */
  lemma {:induction false} FillStops(make: (nat, Result<nat>) -> Result<PooledConnection>, next: nat -> nat, start: nat, answers: seq<Result<nat>>, m: nat)
    requires m <= |answers|
    requires Fill(make, next, start, answers[..m]).outcome.Failure?
    ensures Fill(make, next, start, answers) == Fill(make, next, start, answers[..m])
    decreases |answers| - m
  {
    if m < |answers| {
      assert answers[..m + 1][..m] == answers[..m];
      FillStops(make, next, start, answers, m + 1);
    } else {
      assert answers[..m] == answers;
    }
  }

  /** createNewPooledConnection as a function of the rotation index and
    * the driver's answer. */
  function Maker(hosts: seq<Host>, databaseName: string): (nat, Result<nat>) -> Result<PooledConnection>
  {
    (rotation: nat, answer: Result<nat>) => NewConnection(hosts, rotation, databaseName, answer)
  }

  /** The move of the rotation index on each new connection. */
  function Stepper(hosts: seq<Host>): nat -> nat
  {
    (rotation: nat) => NextRotation(hosts, rotation)
  }

  /** fillPool of a cluster connection with the driver's answers. */
  function FillRun(hosts: seq<Host>, databaseName: string, start: nat, answers: seq<Result<nat>>): FillState
  {
    Fill(Maker(hosts, databaseName), Stepper(hosts), start, answers)
  }

  /** The rotation index steps of a cluster connection are RotationAfter. */
  lemma {:induction false} IterateRotation(hosts: seq<Host>, start: nat, calls: nat)
    requires |hosts| > 0
    ensures Iterate(Stepper(hosts), start, calls) == RotationAfter(start, calls, |hosts|)
  {
    if calls > 0 {
      IterateRotation(hosts, start, calls - 1);
    }
  }

  /** fillPool pushes one connection per answer until the first failing
    * one, whose error it ends with; the j-th connection has the URL of
    * rotation start + j, and the rotation index has moved on once per
    * connection attempted. */
  lemma FillRunMeaning(hosts: seq<Host>, databaseName: string, start: nat, answers: seq<Result<nat>>)
    requires |hosts| > 0
    ensures var r := FillRun(hosts, databaseName, start, answers);
            var p := |r.pushed|;
            p <= |answers|
            && (forall j :: 0 <= j < p ==>
                  answers[j].Ok? && r.pushed[j] == Some(PooledConnection(ClusterUrl(hosts, start + j, databaseName), answers[j].value)))
            && (r.outcome.Success? <==> p == |answers|)
            && (r.outcome.Failure? ==> answers[p].Err? && r.outcome.error == answers[p].error)
            && r.rotation == RotationAfter(start, if r.outcome.Success? then p else p + 1, |hosts|)
  {
    FillMeaning(Maker(hosts, databaseName), Stepper(hosts), start, answers);
    var r := FillRun(hosts, databaseName, start, answers);
    forall j | 0 <= j < |answers|
      ensures Maker(hosts, databaseName)(Iterate(Stepper(hosts), start, j), answers[j]) == Made(hosts, databaseName, start + j, answers[j])
    {
      MadeAt(hosts, databaseName, start, j, answers[j]);
    }
    IterateRotation(hosts, start, if r.outcome.Success? then |r.pushed| else |r.pushed| + 1);
  }

  /** The j-th new connection from `start`: the driver's error, or a
    * connection with the URL of rotation start + j. */
  function Made(hosts: seq<Host>, databaseName: string, k: nat, answer: Result<nat>): Result<PooledConnection>
    requires |hosts| > 0
  {
    if answer.Err? then Err(answer.error) else Ok(PooledConnection(ClusterUrl(hosts, k, databaseName), answer.value))
  }

  lemma MadeAt(hosts: seq<Host>, databaseName: string, start: nat, j: nat, answer: Result<nat>)
    requires |hosts| > 0
    ensures Maker(hosts, databaseName)(Iterate(Stepper(hosts), start, j), answer) == Made(hosts, databaseName, start + j, answer)
  {
    IterateRotation(hosts, start, j);
    UrlAfter(hosts, start, j, databaseName);
  }

  /** After a full fillPool of a new cluster connection, the connection on
    * top of the pool, the next one handed out, lists the hosts in their
    * configured order. */
  lemma FilledPoolTop(hosts: seq<Host>, databaseName: string, answers: seq<Result<nat>>)
    requires |hosts| > 0 && |answers| == 3 * |hosts|
    requires forall j :: 0 <= j < |answers| ==> answers[j].Ok?
    ensures var r := FillRun(hosts, databaseName, 1, answers);
            r.outcome.Success? && |r.pushed| == 3 * |hosts|
            && r.pushed[|r.pushed| - 1] == Some(PooledConnection(ClusterUrl(hosts, 0, databaseName), answers[|answers| - 1].value))
  {
    var n := |hosts|;
    FillRunMeaning(hosts, databaseName, 1, answers);
    var r := FillRun(hosts, databaseName, 1, answers);
    assert r.pushed[3 * n - 1] == Some(PooledConnection(ClusterUrl(hosts, 3 * n, databaseName), answers[3 * n - 1].value));
    UrlMod(hosts, 3 * n, databaseName);
    ModUnique(3 * n, 3, 0, n);
  }

  /** Row i of fillPool's three rounds over the hosts ends at (i + 1) * n. */
  lemma Rows(i: nat, n: nat)
    requires i < 3
    ensures (i + 1) * n == i * n + n && i * n + n <= 3 * n
  {
  }

  /** A failing fillPool ends with the run up to the failing answer. */
  lemma FillEnded(hosts: seq<Host>, databaseName: string, start: nat, answer: nat -> Result<nat>, k: nat, total: nat)
    requires |hosts| > 0 && k <= total
    requires FillRun(hosts, databaseName, start, Answers(answer, k)).outcome.Failure?
    ensures FillRun(hosts, databaseName, start, Answers(answer, total)) == FillRun(hosts, databaseName, start, Answers(answer, k))
  {
    assert Answers(answer, total)[..k] == Answers(answer, k);
    FillStops(Maker(hosts, databaseName), Stepper(hosts), start, Answers(answer, total), k);
  }

  /** The first k answers. */
  function Answers(answer: nat -> Result<nat>, k: nat): (r: seq<Result<nat>>)
    ensures |r| == k && forall j :: 0 <= j < k ==> r[j] == answer(j)
  {
    seq(k, j requires 0 <= j => answer(j))
  }

  /** createNewPooledConnection's URL builder after `i` hosts: host
    * rotation + j mod n for each j < i, each but the last followed by a
    * comma. */
  ghost function Built(hosts: seq<Host>, rotation: nat, i: nat): string
    requires i <= |hosts|
  {
    if i == 0 then MySqlConnections.JdbcScheme
    else
      var host := hosts[(rotation + i - 1) % |hosts|];
      Built(hosts, rotation, i - 1) + (host.host + ":" + host.port) + (if i < |hosts| then "," else "")
  }

  /** The builder after i hosts is the scheme with the first i rotated hosts
    * joined by commas. */
  lemma {:induction false} BuiltIsBuilding(hosts: seq<Host>, rotation: nat, i: nat)
    requires 0 < |hosts| && i <= |hosts|
    ensures Built(hosts, rotation, i) == MariaDbConnections.Building(HostList(Rotated(hosts, rotation)), i)
  {
    if i > 0 {
      BuiltIsBuilding(hosts, rotation, i - 1);
      RotatedAt(hosts, rotation, i - 1);
      MariaDbConnections.BuildingStep(HostList(Rotated(hosts, rotation)), i - 1);
    }
  }

  /** The full builder, with the database name, is the cluster URL. */
  lemma BuiltUrl(hosts: seq<Host>, rotation: nat, databaseName: string)
    requires |hosts| > 0
    ensures Built(hosts, rotation, |hosts|) + "/" + databaseName == ClusterUrl(hosts, rotation, databaseName)
  {
    var names := HostList(Rotated(hosts, rotation));
    BuiltIsBuilding(hosts, rotation, |hosts|);
    assert names[..|names|] == names;
    assert MariaDbConnections.Building(names, |names|) == MySqlConnections.JdbcScheme + Join(names, ",") + "";
  }

  class ClusterConnection {
    /** DATABASE_NAME. */
    const databaseName: string
    /** HOST_LIST. */
    const hosts: seq<Host>
    const pool: Pool
    var rotationIndex: nat
    var startIndex: nat

    /** The constructor; the timer that fills the pool later is not part of
      * the model. */
    constructor (databaseName: string, hosts: seq<Host>)
      ensures this.databaseName == databaseName && this.hosts == hosts
      ensures fresh(pool) && pool.stack == [] && rotationIndex == 1 && startIndex == 0
    {
      this.databaseName := databaseName;
      this.hosts := hosts;
      pool := new Pool();
      rotationIndex := 1;
      startIndex := 0;
    }

    /** createNewPooledConnection, with `answer` what the driver answers for
      * the URL. */
    method CreateNewPooledConnection(answer: Result<nat>) returns (r: Result<PooledConnection>)
      modifies this
      ensures r == NewConnection(hosts, old(rotationIndex), databaseName, answer)
      ensures rotationIndex == NextRotation(hosts, old(rotationIndex)) && startIndex == old(startIndex)
    {
      var hostCount := |hosts|;
      var builder := MySqlConnections.JdbcScheme;
      var i := 0;
      while i < hostCount
        invariant 0 <= i <= hostCount
        invariant rotationIndex == old(rotationIndex) && startIndex == old(startIndex)
        invariant builder == Built(hosts, rotationIndex, i)
      {
        var index := (rotationIndex + i) % hostCount;
        var host := hosts[index];
        builder := builder + (host.host + ":" + host.port);
        if i < hostCount - 1 {
          builder := builder + ",";
        }
        i := i + 1;
      }
      if hostCount == 0 {
        return Err(Arithmetic);
      }
      BuiltUrl(hosts, rotationIndex, databaseName);
      rotationIndex := (rotationIndex + 1) % hostCount;
      builder := builder + "/" + databaseName;
      if answer.Err? {
        return Err(answer.error);
      }
      r := Ok(PooledConnection(builder, answer.value));
    }

    /** getNextHosts. */
    method GetNextHosts() returns (r: Result<seq<Host>>)
      modifies this
      ensures hosts == [] ==> r == Err(Arithmetic) && startIndex == old(startIndex)
      ensures hosts != [] ==> r == Ok(Rotated(hosts, old(startIndex))) && startIndex == (old(startIndex) + 1) % |hosts|
      ensures rotationIndex == old(rotationIndex)
    {
      var rotated := [];
      var i := 0;
      while i < |hosts|
        invariant 0 <= i <= |hosts| && |rotated| == i
        invariant forall j :: 0 <= j < i ==> rotated[j] == hosts[(startIndex + j) % |hosts|]
        invariant startIndex == old(startIndex) && rotationIndex == old(rotationIndex)
      {
        rotated := rotated + [hosts[(startIndex + i) % |hosts|]];
        i := i + 1;
      }
      if |hosts| == 0 {
        return Err(Arithmetic);
      }
      forall j | 0 <= j < |hosts| ensures rotated[j] == Rotated(hosts, startIndex)[j] {
        RotatedAt(hosts, startIndex, j);
      }
      assert rotated == Rotated(hosts, startIndex);
      startIndex := (startIndex + 1) % |hosts|;
      r := Ok(rotated);
    }

    /** fillPool, with answer(k) what the driver answers for the k-th new
      * connection. */
    method FillPool(answer: nat -> Result<nat>) returns (o: Outcome)
      modifies this, pool
      ensures var run := FillRun(hosts, databaseName, old(rotationIndex), Answers(answer, 3 * |hosts|));
              pool.stack == old(pool.stack) + run.pushed && rotationIndex == run.rotation && o == run.outcome
    {
      ghost var start, r0 := pool.stack, rotationIndex;
      ghost var total := 3 * |hosts|;
      var k: nat := 0;
      var i := 0;
      while i < 3
        invariant 0 <= i <= 3 && k == i * |hosts| && k <= total
        invariant Filled(answer, k, start, r0)
      {
        Rows(i, |hosts|);
        o, k := FillRound(answer, k, start, r0, total);
        if o.Failure? {
          return;
        }
        i := i + 1;
      }
      o := Success;
    }

    /** One round of fillPool over all hosts, from the k-th new connection
      * on. */
    method FillRound(answer: nat -> Result<nat>, k: nat, ghost start: seq<Slot>, ghost r0: nat, ghost total: nat)
      returns (o: Outcome, next: nat)
      requires Filled(answer, k, start, r0) && k + |hosts| <= total
      modifies this, pool
      ensures o.Success? ==> next == k + |hosts| && Filled(answer, next, start, r0)
      ensures o.Failure? ==>
                var run := FillRun(hosts, databaseName, r0, Answers(answer, total));
                pool.stack == start + run.pushed && rotationIndex == run.rotation && o == run.outcome
    {
      next := k;
      o := Success;
      var j := 0;
      while j < |hosts|
        invariant 0 <= j <= |hosts| && next == k + j
        invariant Filled(answer, next, start, r0) && o.Success?
      {
        o := FillStep(answer, next, start, r0);
        if o.Failure? {
          FillEnded(hosts, databaseName, r0, answer, next + 1, total);
          return;
        }
        next := next + 1;
        j := j + 1;
      }
    }

    /** The pool and rotation index after the first k new connections of
      * fillPool, none failing. */
    ghost predicate Filled(answer: nat -> Result<nat>, k: nat, start: seq<Slot>, r0: nat)
      reads this, pool
    {
      (|hosts| > 0 || k == 0) &&
      var run := FillRun(hosts, databaseName, r0, Answers(answer, k));
      pool.stack == start + run.pushed && rotationIndex == run.rotation && run.outcome.Success?
    }

    /** One push of fillPool. */
    method FillStep(answer: nat -> Result<nat>, k: nat, ghost start: seq<Slot>, ghost r0: nat) returns (o: Outcome)
      requires |hosts| > 0 && Filled(answer, k, start, r0)
      modifies this, pool
      ensures var run := FillRun(hosts, databaseName, r0, Answers(answer, k + 1));
              pool.stack == start + run.pushed && rotationIndex == run.rotation && o == run.outcome
    {
      assert Answers(answer, k + 1)[..k] == Answers(answer, k);
      var made := CreateNewPooledConnection(answer(k));
      if made.Err? {
        return Failure(made.error);
      }
      pool.Push(Some(made.value));
      o := Success;
    }

    /** getConnection: the pool's connection; the pool asks this connection
      * for a new one only when it is empty. */
    method GetConnection(answer: Result<nat>) returns (r: Result<Slot>)
      modifies this, pool
      ensures (pool.stack, r) == Get(old(pool.stack), NewConnection(hosts, old(rotationIndex), databaseName, answer))
      ensures rotationIndex == if old(pool.stack) == [] then NextRotation(hosts, old(rotationIndex)) else old(rotationIndex)
    {
      var empty := pool.IsEmpty();
      if empty {
        var made := CreateNewPooledConnection(answer);
        r := pool.GetConnection(made);
      } else {
        var top := pool.Take();
        r := Ok(top);
      }
    }

    /** createStatement: a statement on a connection taken from the pool on
      * every call (the statement is identified with that connection); a
      * null connection fails with a NullPointerException. */
    method CreateStatement(answer: Result<nat>) returns (r: Result<PooledConnection>)
      modifies this, pool
      ensures var got := Get(old(pool.stack), NewConnection(hosts, old(rotationIndex), databaseName, answer));
              pool.stack == got.0
              && r == (if got.1.Err? then Err(got.1.error) else if got.1.value.None? then Err(NullPointer) else Ok(got.1.value.value))
      ensures old(pool.stack) != [] ==> |pool.stack| == |old(pool.stack)| - 1
    {
      var c := GetConnection(answer);
      if c.Err? {
        return Err(c.error);
      }
      if c.value.None? {
        return Err(NullPointer);
      }
      r := Ok(c.value.value);
    }

    /** connect(uniqueID, fireEvent): always refused. */
    method Connect(uniqueId: string, fireEvent: bool) returns (o: Outcome)
      ensures o == Failure(Runtime(NotImplemented))
    {
      o := Failure(Runtime(NotImplemented));
    }

    /** disconnect(uniqueID, fireEvent): always refused. */
    method Disconnect(uniqueId: string, fireEvent: bool) returns (o: Outcome)
      ensures o == Failure(Runtime(NotImplemented))
    {
      o := Failure(Runtime(NotImplemented));
    }
  }

  const NotImplemented := "not implemented! Every create statement call give a new connection"
}
