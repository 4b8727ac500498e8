/// MariaDBConnection: a MySqlConnection that can also name a list of hosts;
/// the driver then gets one URL holding all of them.
module MariaDbConnections {

  import opened Wrappers
  import opened Text
  import opened MySqlConnections

  /** One host of a cluster URL: trimmed address and port. */
  function HostPort(address: string, port: string): string
  {
    Trim(address) + ":" + Trim(port)
  }

  /** The hosts of a cluster, one per address, each with the port at the
    * same index. */
  function HostPorts(addresses: seq<string>, ports: seq<string>): (r: seq<string>)
    requires |ports| >= |addresses|
    ensures |r| == |addresses| && forall i :: 0 <= i < |addresses| ==> r[i] == HostPort(addresses[i], ports[i])
  {
    seq(|addresses|, i requires 0 <= i < |addresses| => HostPort(addresses[i], ports[i]))
  }

  /** The cluster constructor's URL, or the ArrayIndexOutOfBoundsException
    * it ends with when there is no address or a port is missing. */
  function ClusterConnectionString(addresses: seq<string>, ports: seq<string>, databaseName: string): (r: Result<string>)
    ensures r.Err? <==> |addresses| == 0 || |ports| < |addresses|
    ensures r.Err? ==> r.error == IndexOutOfBounds
  {
    if |addresses| == 0 || |ports| < |addresses| then Err(IndexOutOfBounds)
    else Ok(JdbcScheme + Join(HostPorts(addresses, ports), ",") + "/" + databaseName)
  }

  /** A cluster of one host has the single-host URL of its trimmed address
    * and port. */
  lemma SingleHostCluster(address: string, port: string, databaseName: string)
    ensures ClusterConnectionString([address], [port], databaseName)
            == Ok(ConnectionString(Trim(address), Trim(port), databaseName))
  {
    var host := HostPort(address, port);
    assert HostPorts([address], [port]) == [host];
    assert Join([host], ",") == host;
    Regrouped(JdbcScheme, Trim(address), Trim(port), databaseName);
  }

  lemma Regrouped(scheme: string, a: string, p: string, databaseName: string)
    ensures scheme + (a + ":" + p) + "/" + databaseName == scheme + a + ":" + p + "/" + databaseName
  {
  }

  /** The host list of a cluster URL splits back into the hosts, one per
    * address and in order, when no address or port holds a comma. */
  lemma ClusterHosts(addresses: seq<string>, ports: seq<string>, databaseName: string)
    requires |addresses| >= 1 && |ports| >= |addresses|
    requires forall i :: 0 <= i < |addresses| ==> ',' !in addresses[i] && ',' !in ports[i]
    ensures var url := ClusterConnectionString(addresses, ports, databaseName).value;
            var hosts := Join(HostPorts(addresses, ports), ",");
            url == JdbcScheme + hosts + "/" + databaseName
            && SplitAll(hosts, ",") == HostPorts(addresses, ports)
  {
    var hp := HostPorts(addresses, ports);
    forall i | 0 <= i < |hp| ensures ',' !in hp[i] {
      TrimKeeps(addresses[i], ',');
      TrimKeeps(ports[i], ',');
    }
    SplitAllJoin(hp, ',');
  }

  /** Trimming adds no character. */
  lemma TrimKeeps(s: string, c: char)
    requires c !in s
    ensures c !in Trim(s)
  {
    var t := TrimStart(s);
    assert forall k :: 0 <= k < |t| ==> t[k] == s[|s| - |t| + k];
    var r := TrimEnd(t);
    assert forall k :: 0 <= k < |r| ==> r[k] == t[k];
  }

  const DescriptionLabel := "MariaDBConnection: "

  class MariaDbConnection {
    /** The MySqlConnection part, set up with the first address and port as
      * given. */
    const parent: MySqlConnection
    /** ClusterAdresses and ClusterPorts; None when null. */
    const clusterAddresses: Option<seq<string>>
    const clusterPorts: Option<seq<string>>
    /** This class's own connectionString. */
    const connectionString: string

    /** The single-host constructor. */
    constructor Single(address: string, port: string, databaseName: string)
      ensures fresh(parent) && parent.connectionString == ConnectionString(address, port, databaseName)
      ensures clusterAddresses == None && clusterPorts == None
      ensures connectionString == ConnectionString(address, port, databaseName)
    {
      parent := new MySqlConnection(address, port, databaseName);
      clusterAddresses := None;
      clusterPorts := None;
      connectionString := JdbcScheme + address + ":" + port + "/" + databaseName;
    }

    /** The cluster constructor, for the inputs it does not fail on. */
    constructor Cluster(addresses: seq<string>, ports: seq<string>, databaseName: string)
      requires |addresses| >= 1 && |ports| >= |addresses|
      ensures fresh(parent) && parent.connectionString == ConnectionString(addresses[0], ports[0], databaseName)
      ensures clusterAddresses == Some(addresses) && clusterPorts == Some(ports)
      ensures Ok(connectionString) == ClusterConnectionString(addresses, ports, databaseName)
    {
      parent := new MySqlConnection(addresses[0], ports[0], databaseName);
      clusterAddresses := Some(addresses);
      clusterPorts := Some(ports);
      var builder := JdbcScheme;
      ghost var hosts := HostPorts(addresses, ports);
      var i := 0;
      while i < |addresses|
        invariant 0 <= i <= |addresses|
        invariant builder == Building(hosts, i)
      {
        BuildingStep(hosts, i);
        builder := builder + (Trim(addresses[i]) + ":" + Trim(ports[i]));
        if i < |addresses| - 1 {
          builder := builder + ",";
        }
        i := i + 1;
      }
      assert hosts[..i] == hosts;
      assert builder == JdbcScheme + Join(hosts, ",");
      builder := builder + "/" + databaseName;
      connectionString := builder;
    }

    /** The URL getConnection hands the driver: the parent's when the
      * cluster arrays are null, this class's own otherwise. */
    function ConnectionUrl(): (url: string)
      ensures clusterAddresses.None? ==> url == parent.connectionString
      ensures clusterAddresses.Some? ==> url == connectionString
    {
      if clusterAddresses.None? then parent.connectionString else connectionString
    }

    /** toString. */
    function ToString(): (r: string)
      ensures StartsWith(r, DescriptionLabel) && r[|DescriptionLabel|..] == connectionString
    {
      DescriptionLabel + connectionString
    }
  }

  /** Either constructor, for the inputs of the cluster constructor: a
    * connection, or the error it throws. */
  method NewCluster(addresses: seq<string>, ports: seq<string>, databaseName: string) returns (r: Result<MariaDbConnection>)
    ensures r.Err? <==> ClusterConnectionString(addresses, ports, databaseName).Err?
    ensures r.Err? ==> r.error == IndexOutOfBounds
    ensures r.Ok? ==> fresh(r.value) && Ok(r.value.ConnectionUrl()) == ClusterConnectionString(addresses, ports, databaseName)
  {
    if |addresses| == 0 || |ports| < |addresses| {
      return Err(IndexOutOfBounds);
    }
    var c := new MariaDbConnection.Cluster(addresses, ports, databaseName);
    r := Ok(c);
  }

  /** The URL builder after `i` hosts: the scheme, the hosts so far joined
    * by commas, and a comma when more are to come. */
  ghost function Building(hosts: seq<string>, i: nat): string
    requires i <= |hosts|
  {
    JdbcScheme + Join(hosts[..i], ",") + (if 0 < i < |hosts| then "," else "")
  }

  /** One more host on the builder. */
  lemma BuildingStep(hosts: seq<string>, i: nat)
    requires i < |hosts|
    ensures Building(hosts, i) + hosts[i] + (if i < |hosts| - 1 then "," else "") == Building(hosts, i + 1)
  {
    var front := hosts[..i + 1];
    assert front[..i] == hosts[..i];
    assert front[i] == hosts[i];
    var j := Join(hosts[..i], ",");
    assert Join(front, ",") == if i == 0 then hosts[i] else j + "," + hosts[i];
  }
}
