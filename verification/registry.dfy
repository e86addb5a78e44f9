/**
 * Instances and applications as the registry server describes them, and the
 * derivation of the client's per-application views from an instance list
 * (`getActiveInstancesAndIpPorts`).
 */
module Registry {
  import opened GoStrings

  datatype Status = Starting | Up | Down | OutOfService | Unknown

  /** A port and its enabled flag, which the registry transmits as text ("true", "false"). */
  datatype PortInfo = PortInfo(enabled: string, port: int)

  datatype Instance = Instance(
    instanceId: string,
    app: string,
    ipAddr: string,
    hostName: string,
    port: PortInfo,
    securePort: PortInfo,
    status: Status,
    renewalIntervalInSecs: int)

  /** An application: its name and its instances in the order the server listed them. */
  datatype Application = Application(name: string, instances: seq<Instance>)

  /** Keys of the outer endpoint map: plain (http) and secure (https) endpoints. */
  const HttpKey: int := 0
  const HttpsKey: int := 1

  /** The "ip:port" text of an endpoint. */
  function IpPort(ip: string, port: int): string
  {
    ip + ":" + IntToDecimal(port)
  }

  /** For a given address, the endpoint text determines the port: different ports never share an endpoint. */
  lemma IpPortDeterminesPort(ip: string, p: int, q: int)
    requires IpPort(ip, p) == IpPort(ip, q)
    ensures p == q
  {
    var a, b := IpPort(ip, p), IpPort(ip, q);
    assert a[|ip| + 1..] == IntToDecimal(p);
    assert b[|ip| + 1..] == IntToDecimal(q);
    IntDecimalRoundTrip(p);
    IntDecimalRoundTrip(q);
  }

  /** Whether the "only UP instances" filter lets an instance through. */
  predicate Kept(onlyUp: bool, inst: Instance)
  {
    !onlyUp || inst.status == Up
  }

  /** A kept instance gets an http endpoint when its plain port flag reads "true". */
  predicate ListsHttp(inst: Instance)
  {
    inst.port.enabled == "true"
  }

  /**
   * A kept instance gets an https endpoint when its secure port flag reads
   * "false": the condition is inverted with respect to the http one, and this
   * is what the client does.
   */
  predicate ListsHttps(inst: Instance)
  {
    inst.securePort.enabled == "false"
  }

  /** The three maps the derivation loop fills, keyed by position in the instance list. */
  datatype Scan = Scan(
    instances: map<int, Instance>,
    httpIpPorts: map<int, string>,
    httpsIpPorts: map<int, string>)

  /** Number of instances the filter lets through. */
  function CountKept(onlyUp: bool, xs: seq<Instance>): nat
  {
    if |xs| == 0 then 0
    else CountKept(onlyUp, xs[..|xs| - 1]) + (if Kept(onlyUp, xs[|xs| - 1]) then 1 else 0)
  }

  /** Number of instances whose status is UP. */
  function CountUp(xs: seq<Instance>): nat
  {
    if |xs| == 0 then 0
    else CountUp(xs[..|xs| - 1]) + (if xs[|xs| - 1].status == Up then 1 else 0)
  }

  /** One iteration of the derivation loop, for the instance at position `i`. */
  function Admit(onlyUp: bool, i: int, inst: Instance, a: Scan): Scan
  {
    if !Kept(onlyUp, inst) then a
    else
      Scan(
        a.instances[i := inst],
        if ListsHttp(inst) then a.httpIpPorts[i := IpPort(inst.ipAddr, inst.port.port)] else a.httpIpPorts,
        if ListsHttps(inst) then a.httpsIpPorts[i := IpPort(inst.ipAddr, inst.securePort.port)] else a.httpsIpPorts)
  }

  /**
   * The maps after the first `n` iterations of the derivation loop. A
   * position is a key exactly when its instance passes the filter (and, for
   * the endpoint maps, lists the port); the value is the instance, or the
   * "ip:port" of that instance's port.
   */
  function ScanPrefix(onlyUp: bool, xs: seq<Instance>, n: nat): (a: Scan)
    requires n <= |xs|
    ensures forall i :: i in a.instances <==> 0 <= i < n && Kept(onlyUp, xs[i])
    ensures forall i :: i in a.instances ==> a.instances[i] == xs[i]
    ensures forall i :: i in a.httpIpPorts <==> 0 <= i < n && Kept(onlyUp, xs[i]) && ListsHttp(xs[i])
    ensures forall i :: i in a.httpIpPorts ==> a.httpIpPorts[i] == IpPort(xs[i].ipAddr, xs[i].port.port)
    ensures forall i :: i in a.httpsIpPorts <==> 0 <= i < n && Kept(onlyUp, xs[i]) && ListsHttps(xs[i])
    ensures forall i :: i in a.httpsIpPorts ==> a.httpsIpPorts[i] == IpPort(xs[i].ipAddr, xs[i].securePort.port)
    ensures |a.instances| == CountKept(onlyUp, xs[..n])
  {
    if n == 0 then Scan(map[], map[], map[])
    else
      var a := ScanPrefix(onlyUp, xs, n - 1);
      assert xs[..n][..n - 1] == xs[..n - 1];
      assert n - 1 !in a.instances;
      Admit(onlyUp, n - 1, xs[n - 1], a)
  }

  /** The per-application view: instances by position, and endpoints by protocol then position. */
  datatype ActiveView = ActiveView(instances: map<int, Instance>, ipPorts: map<int, map<int, string>>)

  /**
   * `getActiveInstancesAndIpPorts`. Instance keys are the original positions
   * of the kept instances (so they skip the filtered-out ones), both protocol
   * keys are always present, every endpoint belongs to a kept instance, and
   * with the filter on there are exactly as many instances as UP instances.
   */
  function ActiveInstancesAndIpPorts(onlyUp: bool, xs: seq<Instance>): (v: ActiveView)
    ensures v.ipPorts.Keys == {HttpKey, HttpsKey}
    ensures forall i :: i in v.instances <==> 0 <= i < |xs| && Kept(onlyUp, xs[i])
    ensures forall i :: i in v.instances ==> v.instances[i] == xs[i]
    ensures forall i :: i in v.ipPorts[HttpKey] <==> i in v.instances && ListsHttp(xs[i])
    ensures forall i :: i in v.ipPorts[HttpKey] ==> v.ipPorts[HttpKey][i] == IpPort(xs[i].ipAddr, xs[i].port.port)
    ensures forall i :: i in v.ipPorts[HttpsKey] <==> i in v.instances && ListsHttps(xs[i])
    ensures forall i :: i in v.ipPorts[HttpsKey] ==> v.ipPorts[HttpsKey][i] == IpPort(xs[i].ipAddr, xs[i].securePort.port)
    ensures |v.instances| == CountKept(onlyUp, xs)
    ensures onlyUp ==> |v.instances| == CountUp(xs)
    ensures !onlyUp ==> |v.instances| == |xs|
  {
    var a := ScanPrefix(onlyUp, xs, |xs|);
    assert xs[..|xs|] == xs;
    CountKeptOfFilter(xs);
    ActiveView(a.instances, map[HttpKey := a.httpIpPorts, HttpsKey := a.httpsIpPorts])
  }

  /** With the filter on, the kept instances are the UP ones; with it off, all of them. */
  lemma {:induction false} CountKeptOfFilter(xs: seq<Instance>)
    ensures CountKept(true, xs) == CountUp(xs)
    ensures CountKept(false, xs) == |xs|
  {
    if |xs| > 0 {
      CountKeptOfFilter(xs[..|xs| - 1]);
    }
  }

  /** Every endpoint, of either protocol, is under the position of a derived instance. */
  lemma EndpointsBelongToInstances(onlyUp: bool, xs: seq<Instance>)
    ensures var v := ActiveInstancesAndIpPorts(onlyUp, xs);
      forall p, i :: p in v.ipPorts && i in v.ipPorts[p] ==> i in v.instances
  {
    var v := ActiveInstancesAndIpPorts(onlyUp, xs);
    forall p, i | p in v.ipPorts && i in v.ipPorts[p]
      ensures i in v.instances
    {
      assert p == HttpKey || p == HttpsKey;
    }
  }

  /** A single kept instance that lists its plain port yields exactly one http endpoint, under position 0. */
  lemma SingleInstanceHttpEndpoint(onlyUp: bool, inst: Instance)
    requires Kept(onlyUp, inst) && ListsHttp(inst)
    ensures ActiveInstancesAndIpPorts(onlyUp, [inst]).ipPorts[HttpKey] == map[0 := IpPort(inst.ipAddr, inst.port.port)]
  {
    var eps := ActiveInstancesAndIpPorts(onlyUp, [inst]).ipPorts[HttpKey];
    assert [inst][0] == inst;
    assert forall k :: k in eps <==> k == 0;
  }

  /**
   * Without the filter the instance keys are exactly the positions
   * 0 .. |xs| - 1, so any index below the count names an instance.
   */
  lemma UnfilteredKeysAreContiguous(xs: seq<Instance>, k: int)
    requires 0 <= k < |ActiveInstancesAndIpPorts(false, xs).instances|
    ensures k in ActiveInstancesAndIpPorts(false, xs).instances
    ensures ActiveInstancesAndIpPorts(false, xs).instances[k] == xs[k]
  {
  }
}
