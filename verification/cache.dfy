/**
 * The client's registry cache: three maps keyed by application id (raw
 * snapshot, active instances, active endpoints), refreshed wholesale by a bulk
 * fetch or per application on a cache miss. Every operation is one atomic step
 * from a state to a state; the server's answers are parameters.
 */
module Cache {
  import opened Wrappers
  import opened Transport
  import opened GoStrings
  import opened Registry

  /** The configuration switches the modelled operations consult. */
  datatype Config = Config(
    filterOnlyUpInstances: bool,
    fetchRegistry: bool,
    registerWithEureka: bool,
    shouldUnregisterOnShutdown: bool,
    instanceEnabledOnInit: bool)

  /** Errors the lookups report: the application has no instances, or the server call failed. */
  datatype ClientError = NotFound(appId: string) | TransportFailure(reason: string)

  /**
   * The client's mutable state. A Go `nil` map entry is an absent key; the
   * counter is the shared selection counter.
   */
  datatype ClientState = ClientState(
    running: bool,
    counter: nat,
    registryApps: map<string, Application>,
    activeInstances: map<string, map<int, Instance>>,
    activeIpPorts: map<string, map<int, map<int, string>>>)

  /** The state of a freshly constructed client: nothing cached, counter at zero, not running. */
  const Initial := ClientState(false, 0, map[], map[], map[])

  /** A freshly constructed client's empty cache agrees with itself, whatever the filter. */
  lemma InitialIsConsistent(onlyUp: bool)
    ensures Consistent(Initial, onlyUp)
    ensures !Initial.running && Initial.counter == 0
  {
  }

  /** One operation's outcome: the state it leaves behind and what it returns. */
  datatype Step<+T> = Step(state: ClientState, result: Result<T, ClientError>)

  /** `instances` and `ipPorts` are the views derived from `app`. */
  predicate ViewOf(onlyUp: bool, app: Application, instances: map<int, Instance>, ipPorts: map<int, map<int, string>>)
  {
    var v := ActiveInstancesAndIpPorts(onlyUp, app.instances);
    instances == v.instances && ipPorts == v.ipPorts
  }

  /** The instance and endpoint entries under `id` are those derived from the snapshot under `id`. */
  predicate DerivedAt(s: ClientState, onlyUp: bool, id: string)
    requires id in s.registryApps && id in s.activeInstances && id in s.activeIpPorts
  {
    ViewOf(onlyUp, s.registryApps[id], s.activeInstances[id], s.activeIpPorts[id])
  }

  /** The three maps have the same keys and agree with each other, application by application. */
  ghost predicate Consistent(s: ClientState, onlyUp: bool)
  {
    && (forall id :: id in s.registryApps <==> id in s.activeInstances)
    && (forall id :: id in s.registryApps <==> id in s.activeIpPorts)
    && forall id :: id in s.registryApps ==> DerivedAt(s, onlyUp, id)
  }

  /** `s` and `t` differ at most in the entries under `key` of the three maps. */
  ghost predicate SameExcept(s: ClientState, t: ClientState, key: string)
  {
    && t.running == s.running
    && t.counter == s.counter
    && (forall k :: k != key ==> (k in t.registryApps <==> k in s.registryApps))
    && (forall k :: k != key ==> (k in t.activeInstances <==> k in s.activeInstances))
    && (forall k :: k != key ==> (k in t.activeIpPorts <==> k in s.activeIpPorts))
    && (forall k :: k in s.registryApps && k != key ==> t.registryApps[k] == s.registryApps[k])
    && (forall k :: k in s.activeInstances && k != key ==> t.activeInstances[k] == s.activeInstances[k])
    && (forall k :: k in s.activeIpPorts && k != key ==> t.activeIpPorts[k] == s.activeIpPorts[k])
  }

  /**
   * `doRefreshByAppId`: ask the server for one application. On failure the
   * error is returned and nothing changes; on success the snapshot and its
   * derived views are written under the id exactly as it was passed in (not
   * upper-cased), and every other entry is left alone.
   */
  function DoRefreshByAppId(s: ClientState, cfg: Config, appId: string, reply: Reply<Application>): (r: Step<()>)
    ensures reply.Failed? ==> r == Step(s, Err(TransportFailure(reply.reason)))
    ensures reply.Answered? ==> r.result.Ok? && SameExcept(s, r.state, appId)
    ensures reply.Answered? ==>
      && appId in r.state.registryApps && appId in r.state.activeInstances && appId in r.state.activeIpPorts
      && r.state.registryApps[appId] == reply.value
      && DerivedAt(r.state, cfg.filterOnlyUpInstances, appId)
  {
    match reply
    case Failed(reason) => Step(s, Err(TransportFailure(reason)))
    case Answered(app) =>
      var v := ActiveInstancesAndIpPorts(cfg.filterOnlyUpInstances, app.instances);
      var t := s.(registryApps := s.registryApps[appId := app],
                  activeInstances := s.activeInstances[appId := v.instances],
                  activeIpPorts := s.activeIpPorts[appId := v.ipPorts]);
      assert DerivedAt(t, cfg.filterOnlyUpInstances, appId);
      Step(t, Ok(()))
  }

  /** A single-application refresh keeps the three maps in agreement. */
  lemma RefreshPreservesConsistent(s: ClientState, cfg: Config, appId: string, reply: Reply<Application>)
    requires Consistent(s, cfg.filterOnlyUpInstances)
    ensures Consistent(DoRefreshByAppId(s, cfg, appId, reply).state, cfg.filterOnlyUpInstances)
  {
    var t := DoRefreshByAppId(s, cfg, appId, reply).state;
    if reply.Answered? {
      forall id | id in t.registryApps
        ensures DerivedAt(t, cfg.filterOnlyUpInstances, id)
      {
        if id != appId {
          assert DerivedAt(s, cfg.filterOnlyUpInstances, id);
        }
      }
    }
  }

  /**
   * `getActiveInstancesByAppId`: look the upper-cased id up; a present entry
   * (even an empty one) is returned without contacting the server. Otherwise
   * the application is refreshed under the id as given, and the upper-cased
   * id is looked up again, so a refresh for an id with lower-case letters
   * still finds nothing (`None`, Go's nil map).
   */
  function GetActiveInstancesByAppId(s: ClientState, cfg: Config, appId: string, reply: Reply<Application>)
    : (r: Step<Option<map<int, Instance>>>)
    ensures ToUpper(appId) in s.activeInstances ==> r == Step(s, Ok(Some(s.activeInstances[ToUpper(appId)])))
    ensures ToUpper(appId) !in s.activeInstances && reply.Failed? ==> r == Step(s, Err(TransportFailure(reply.reason)))
    ensures ToUpper(appId) !in s.activeInstances && reply.Answered? ==>
      && r.state == DoRefreshByAppId(s, cfg, appId, reply).state
      && (appId == ToUpper(appId) ==>
            r.result == Ok(Some(ActiveInstancesAndIpPorts(cfg.filterOnlyUpInstances, reply.value.instances).instances)))
      && (appId != ToUpper(appId) ==> r.result == Ok(None))
  {
    var id := ToUpper(appId);
    if id in s.activeInstances then Step(s, Ok(Some(s.activeInstances[id])))
    else
      var refreshed := DoRefreshByAppId(s, cfg, appId, reply);
      if refreshed.result.Err? then Step(s, Err(refreshed.result.error))
      else
        var t := refreshed.state;
        Step(t, Ok(if id in t.activeInstances then Some(t.activeInstances[id]) else None))
  }

  /**
   * `getActiveServiceIpPortByAppId`: the same hit-or-refresh lookup, on the
   * endpoint map.
   */
  function GetActiveServiceIpPortByAppId(s: ClientState, cfg: Config, appId: string, reply: Reply<Application>)
    : (r: Step<Option<map<int, map<int, string>>>>)
    ensures ToUpper(appId) in s.activeIpPorts ==> r == Step(s, Ok(Some(s.activeIpPorts[ToUpper(appId)])))
    ensures ToUpper(appId) !in s.activeIpPorts && reply.Failed? ==> r == Step(s, Err(TransportFailure(reply.reason)))
    ensures ToUpper(appId) !in s.activeIpPorts && reply.Answered? ==>
      && r.state == DoRefreshByAppId(s, cfg, appId, reply).state
      && (appId == ToUpper(appId) ==>
            r.result == Ok(Some(ActiveInstancesAndIpPorts(cfg.filterOnlyUpInstances, reply.value.instances).ipPorts)))
      && (appId != ToUpper(appId) ==> r.result == Ok(None))
  {
    var id := ToUpper(appId);
    if id in s.activeIpPorts then Step(s, Ok(Some(s.activeIpPorts[id])))
    else
      var refreshed := DoRefreshByAppId(s, cfg, appId, reply);
      if refreshed.result.Err? then Step(s, Err(refreshed.result.error))
      else
        var t := refreshed.state;
        Step(t, Ok(if id in t.activeIpPorts then Some(t.activeIpPorts[id]) else None))
  }

  /** Neither lookup ever breaks the agreement of the three maps. */
  lemma LookupsPreserveConsistent(s: ClientState, cfg: Config, appId: string, reply: Reply<Application>)
    requires Consistent(s, cfg.filterOnlyUpInstances)
    ensures Consistent(GetActiveInstancesByAppId(s, cfg, appId, reply).state, cfg.filterOnlyUpInstances)
    ensures Consistent(GetActiveServiceIpPortByAppId(s, cfg, appId, reply).state, cfg.filterOnlyUpInstances)
  {
    RefreshPreservesConsistent(s, cfg, appId, reply);
  }

  /**
   * In an agreeing cache every endpoint belongs to a cached instance, and
   * every cached instance is the snapshot's instance at the same position;
   * the endpoint entry always has both protocol keys.
   */
  lemma ConsistentViewsNest(s: ClientState, onlyUp: bool, id: string)
    requires Consistent(s, onlyUp)
    requires id in s.registryApps
    ensures s.activeIpPorts[id].Keys == {HttpKey, HttpsKey}
    ensures forall p, i :: p in s.activeIpPorts[id] && i in s.activeIpPorts[id][p] ==> i in s.activeInstances[id]
    ensures forall i :: i in s.activeInstances[id] ==>
      0 <= i < |s.registryApps[id].instances| && s.activeInstances[id][i] == s.registryApps[id].instances[i]
  {
    assert DerivedAt(s, onlyUp, id);
    var xs := s.registryApps[id].instances;
    var v := ActiveInstancesAndIpPorts(onlyUp, xs);
    assert s.activeInstances[id] == v.instances && s.activeIpPorts[id] == v.ipPorts;
    EndpointsBelongToInstances(onlyUp, xs);
  }

  // ---------------------------------------------------------------------------
  // Bulk refresh
  // ---------------------------------------------------------------------------

  /** The three maps a bulk refresh builds before installing them. */
  datatype Snapshot = Snapshot(
    apps: map<string, Application>,
    instances: map<string, map<int, Instance>>,
    ipPorts: map<string, map<int, map<int, string>>>)

  /** No application after position `i` (and before `n`) has the same name. */
  predicate LastNamed(apps: seq<Application>, n: int, i: int)
    requires 0 <= i < n <= |apps|
  {
    forall j :: i < j < n ==> apps[j].name != apps[i].name
  }

  /** The application map of the first `n` bulk-refresh iterations on its own: each name mapped to its latest application. */
  function LatestByName(apps: seq<Application>, n: nat): map<string, Application>
    requires n <= |apps|
  {
    if n == 0 then map[] else LatestByName(apps, n - 1)[apps[n - 1].name := apps[n - 1]]
  }

  /**
   * Each name holds the last application of that name: a later application
   * with the same name overwrites an earlier one.
   */
  lemma {:induction false} LatestByNameKeepsLast(apps: seq<Application>, n: nat)
    requires n <= |apps|
    ensures forall i {:trigger LastNamed(apps, n, i)} :: 0 <= i < n && LastNamed(apps, n, i) ==>
      apps[i].name in LatestByName(apps, n) && LatestByName(apps, n)[apps[i].name] == apps[i]
  {
    if n > 0 {
      LatestByNameKeepsLast(apps, n - 1);
      forall i | 0 <= i < n && LastNamed(apps, n, i)
        ensures apps[i].name in LatestByName(apps, n) && LatestByName(apps, n)[apps[i].name] == apps[i]
      {
        if i < n - 1 {
          assert apps[n - 1].name != apps[i].name;
          assert LastNamed(apps, n - 1, i);
        }
      }
    }
  }

  /**
   * The maps after the first `n` iterations of the bulk-refresh loop: one
   * entry per application name seen, holding the latest application of that
   * name and its derived views.
   */
  function BuildSnapshot(onlyUp: bool, apps: seq<Application>, n: nat): (b: Snapshot)
    requires n <= |apps|
    ensures b.apps == LatestByName(apps, n)
    ensures forall name :: name in b.apps <==> name in b.instances
    ensures forall name :: name in b.apps <==> name in b.ipPorts
    ensures forall name :: name in b.apps <==> exists i :: 0 <= i < n && apps[i].name == name
    ensures forall name :: name in b.apps ==> ViewOf(onlyUp, b.apps[name], b.instances[name], b.ipPorts[name])
  {
    if n == 0 then Snapshot(map[], map[], map[])
    else
      var b := BuildSnapshot(onlyUp, apps, n - 1);
      var app := apps[n - 1];
      var v := ActiveInstancesAndIpPorts(onlyUp, app.instances);
      assert ViewOf(onlyUp, app, v.instances, v.ipPorts);
      Snapshot(b.apps[app.name := app], b.instances[app.name := v.instances], b.ipPorts[app.name := v.ipPorts])
  }

  /**
   * `fetchRegistry`: ask the server for every application. On failure the
   * error is returned and nothing changes. On success the three maps are
   * replaced wholesale: they hold exactly the returned application names
   * (nothing from the previous cache survives), each under its name as sent,
   * holding the last application of that name, and the maps agree.
   */
  function FetchRegistry(s: ClientState, cfg: Config, reply: Reply<seq<Application>>): (r: Step<()>)
    ensures reply.Failed? ==> r == Step(s, Err(TransportFailure(reply.reason)))
    ensures reply.Answered? ==> r.result.Ok? && r.state.running == s.running && r.state.counter == s.counter
    ensures reply.Answered? ==>
      forall name :: name in r.state.registryApps <==> exists i :: 0 <= i < |reply.value| && reply.value[i].name == name
    ensures reply.Answered? ==>
      forall i {:trigger LastNamed(reply.value, |reply.value|, i)} :: 0 <= i < |reply.value| && LastNamed(reply.value, |reply.value|, i) ==>
        r.state.registryApps[reply.value[i].name] == reply.value[i]
    ensures reply.Answered? ==> Consistent(r.state, cfg.filterOnlyUpInstances)
  {
    match reply
    case Failed(reason) => Step(s, Err(TransportFailure(reason)))
    case Answered(apps) =>
      var b := BuildSnapshot(cfg.filterOnlyUpInstances, apps, |apps|);
      var t := s.(registryApps := b.apps, activeInstances := b.instances, activeIpPorts := b.ipPorts);
      LatestByNameKeepsLast(apps, |apps|);
      assert forall id :: id in t.registryApps ==> DerivedAt(t, cfg.filterOnlyUpInstances, id);
      Step(t, Ok(()))
  }
}
