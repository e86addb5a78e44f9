/**
 * The lookup API callers use: pick the next instance of an application, and
 * rewrite a URL whose host is an application name into one that names a
 * concrete "ip:port". Both consult the cache (refreshing it on a miss) and
 * advance the shared selection counter.
 */
module Lookup {
  import opened Wrappers
  import opened Transport
  import opened GoStrings
  import opened Registry
  import opened Selection
  import opened Cache

  /**
   * `GetNextServerFromEureka`. It fails exactly when the instance lookup
   * fails or finds no instance (no entry, or an empty one). Otherwise the
   * counter goes up by one and the instance under the picked index
   * (new counter modulo the number of instances) is returned; when that index
   * is not a key of the instance map the result is `None`, Go's nil instance
   * returned without an error.
   */
  function GetNextServerFromEureka(s: ClientState, cfg: Config, appId: string, reply: Reply<Application>)
    : (r: Step<Option<Instance>>)
    ensures var l := GetActiveInstancesByAppId(s, cfg, appId, reply);
      r.result.Err? <==> (l.result.Err? || l.result.value.None? || |l.result.value.value| == 0)
    ensures var l := GetActiveInstancesByAppId(s, cfg, appId, reply);
      l.result.Err? ==> r == Step(l.state, Err(l.result.error))
    ensures var l := GetActiveInstancesByAppId(s, cfg, appId, reply);
      l.result.Ok? && (l.result.value.None? || |l.result.value.value| == 0) ==> r == Step(l.state, Err(NotFound(appId)))
    ensures var l := GetActiveInstancesByAppId(s, cfg, appId, reply);
      r.result.Ok? ==>
        var m := l.result.value.value;
        && r.state == l.state.(counter := l.state.counter + 1)
        && (r.result.value.Some? <==> r.state.counter % |m| in m)
        && (r.result.value.Some? ==> r.result.value.value in m.Values)
        && (r.result.value.Some? ==> r.result.value.value == m[r.state.counter % |m|])
  {
    var l := GetActiveInstancesByAppId(s, cfg, appId, reply);
    if l.result.Err? then Step(l.state, Err(l.result.error))
    else if l.result.value.None? || |l.result.value.value| == 0 then Step(l.state, Err(NotFound(appId)))
    else
      var m := l.result.value.value;
      var pick := RandIndex(l.state.counter, |m|);
      Step(l.state.(counter := pick.counter), Ok(if pick.index in m then Some(m[pick.index]) else None))
  }

  /**
   * Without the UP filter, a cached application with instances always yields
   * an instance, and it is the snapshot's instance at position
   * (counter + 1) mod n: successive calls walk round the instance list.
   */
  lemma UnfilteredPickIsRoundRobin(s: ClientState, cfg: Config, appId: string, reply: Reply<Application>,
                                   xs: seq<Instance>)
    requires !cfg.filterOnlyUpInstances
    requires ToUpper(appId) in s.activeInstances
    requires s.activeInstances[ToUpper(appId)] == ActiveInstancesAndIpPorts(false, xs).instances
    requires |xs| > 0
    ensures GetNextServerFromEureka(s, cfg, appId, reply) ==
      Step(s.(counter := s.counter + 1), Ok(Some(xs[(s.counter + 1) % |xs|])))
  {
    var m := ActiveInstancesAndIpPorts(false, xs).instances;
    var k := (s.counter + 1) % |xs|;
    assert k in m && m[k] == xs[k];
  }

  /**
   * With the UP filter on, the instance keys are original positions, so the
   * picked index can miss: an application whose first instance is not UP and
   * whose second is UP yields `None` on every call, never an error.
   */
  lemma FilteredPickCanBeNil(s: ClientState, cfg: Config, appId: string, reply: Reply<Application>,
                             down: Instance, up: Instance)
    requires cfg.filterOnlyUpInstances
    requires down.status != Up && up.status == Up
    requires ToUpper(appId) in s.activeInstances
    requires s.activeInstances[ToUpper(appId)] == ActiveInstancesAndIpPorts(true, [down, up]).instances
    ensures GetNextServerFromEureka(s, cfg, appId, reply) == Step(s.(counter := s.counter + 1), Ok(None))
  {
    var m := ActiveInstancesAndIpPorts(true, [down, up]).instances;
    assert [down, up][0] == down && [down, up][1] == up;
    assert forall i :: i in m <==> i == 1;
    assert m.Keys == {1};
    assert |m| == 1;
  }

  // ---------------------------------------------------------------------------
  // URL rewriting
  // ---------------------------------------------------------------------------

  const HttpPrefix := "http://"
  const HttpsPrefix := "https://"

  /** The application name of a URL: with every scheme prefix deleted, the text before the first '/'. */
  function AppNameOf(url: string): string
  {
    var bare := ReplaceAll(ReplaceAll(url, HttpPrefix, ""), HttpsPrefix, "");
    Split(bare, "/")[0]
  }

  /** The endpoint map a URL selects: https when it starts with "https://", http otherwise. */
  function ProtocolKey(url: string): (k: int)
    ensures k == HttpsKey <==> HasPrefix(url, HttpsPrefix)
    ensures k == HttpKey <==> !HasPrefix(url, HttpsPrefix)
  {
    if HasPrefix(url, HttpsPrefix) then HttpsKey else HttpKey
  }

  /**
   * The application name is the host segment: it holds no '/', it starts the
   * URL once the scheme prefixes are deleted, and a '/' follows it there
   * unless it is the whole rest of the URL.
   */
  lemma AppNameIsHostSegment(url: string)
    ensures var bare := ReplaceAll(ReplaceAll(url, HttpPrefix, ""), HttpsPrefix, "");
      var name := AppNameOf(url);
      && !Contains(name, "/")
      && HasPrefix(bare, name)
      && (|name| < |bare| ==> bare[|name|] == '/')
  {
    var bare := ReplaceAll(ReplaceAll(url, HttpPrefix, ""), HttpsPrefix, "");
    SplitPartsAreFree(bare, "/");
    var parts := Split(bare, "/");
    if |parts| > 1 {
      assert OccursAt(bare, "/", |parts[0]|);
      assert bare[|parts[0]|..|parts[0]| + 1] == "/";
    }
  }

  /** No occurrence of "http://" starts inside "https://". */
  lemma SecurePrefixHasNoPlainPrefix(rest: string)
    ensures NoneBefore(HttpsPrefix + rest, HttpPrefix, |HttpsPrefix|)
  {
    var s := HttpsPrefix + rest;
    forall i | 0 <= i < |HttpsPrefix|
      ensures !OccursAt(s, HttpPrefix, i)
    {
      if i == 0 {
        if |HttpPrefix| <= |s| {
          assert s[..|HttpPrefix|][4] == 's';
        }
      } else if i + |HttpPrefix| <= |s| {
        assert s[i..i + |HttpPrefix|][0] == s[i];
      }
    }
  }

  /** A URL starting with "http://" does not start with "https://". */
  lemma PlainUrlIsNotSecure(rest: string)
    ensures !HasPrefix(HttpPrefix + rest, HttpsPrefix)
  {
    var s := HttpPrefix + rest;
    if |HttpsPrefix| <= |s| {
      assert s[4] == ':';
      assert s[..|HttpsPrefix|][4] == s[4];
    }
  }

  /** A host without '/' is the first piece of host + path when the path starts with '/'. */
  lemma HostIsFirstPiece(host: string, path: string)
    requires !Contains(host, "/")
    requires |path| > 0 && path[0] == '/'
    ensures Split(host + path, "/")[0] == host
  {
    var rest := host + path;
    assert NoneBefore(rest, "/", |host|) by {
      forall i | 0 <= i < |host|
        ensures !OccursAt(rest, "/", i)
      {
        if OccursAt(rest, "/", i) {
          assert rest[i..i + 1] == host[i..i + 1];
          assert OccursAt(host, "/", i);
        }
      }
    }
    assert HasPrefix(path, "/");
    SplitFirstPiece(host, path, "/");
  }

  /**
   * For "http://HOST/PATH" and "https://HOST/PATH" the application name is
   * HOST, when HOST holds no '/' and no scheme prefix occurs after the scheme.
   */
  lemma AppNameOfSchemeUrl(host: string, path: string)
    requires !Contains(host + path, HttpPrefix) && !Contains(host + path, HttpsPrefix)
    requires !Contains(host, "/")
    requires |path| > 0 && path[0] == '/'
    ensures AppNameOf(HttpPrefix + host + path) == host
    ensures AppNameOf(HttpsPrefix + host + path) == host
  {
    var rest := host + path;
    assert HttpPrefix + host + path == HttpPrefix + rest;
    assert HttpsPrefix + host + path == HttpsPrefix + rest;
    var plain := ReplaceAll(HttpPrefix + rest, HttpPrefix, "");
    assert plain == rest by {
      ReplaceAllAtStart(rest, HttpPrefix, "");
      ReplaceAllAbsent(rest, HttpPrefix, "");
    }
    var secure := ReplaceAll(HttpsPrefix + rest, HttpPrefix, "");
    assert secure == HttpsPrefix + rest by {
      SecurePrefixHasNoPlainPrefix(rest);
      ReplaceAllKeepsPrefix(HttpsPrefix, rest, HttpPrefix, "");
      ReplaceAllAbsent(rest, HttpPrefix, "");
    }
    assert ReplaceAll(plain, HttpsPrefix, "") == rest by {
      ReplaceAllAbsent(rest, HttpsPrefix, "");
    }
    assert ReplaceAll(secure, HttpsPrefix, "") == rest by {
      ReplaceAllAtStart(rest, HttpsPrefix, "");
      ReplaceAllAbsent(rest, HttpsPrefix, "");
    }
    HostIsFirstPiece(host, path);
  }

  /**
   * `GetRealHttpUrl`. It fails, always with a not-found error naming the
   * application (a server failure is reported the same way), exactly when the
   * endpoint lookup fails or finds nothing, or the selected protocol has no
   * endpoint. Otherwise the counter goes up by one and every occurrence of the
   * application name in the URL is replaced by the endpoint of the selected
   * protocol under the picked index (new counter modulo the number of
   * endpoints), or by the empty text when that index is not a key.
   */
  function GetRealHttpUrl(s: ClientState, cfg: Config, url: string, reply: Reply<Application>): (r: Step<string>)
    ensures var l := GetActiveServiceIpPortByAppId(s, cfg, AppNameOf(url), reply);
      r.result.Err? <==>
        (|| l.result.Err? || l.result.value.None? || |l.result.value.value| == 0
         || ProtocolKey(url) !in l.result.value.value || |l.result.value.value[ProtocolKey(url)]| == 0)
    ensures var l := GetActiveServiceIpPortByAppId(s, cfg, AppNameOf(url), reply);
      r.result.Err? ==> r == Step(l.state, Err(NotFound(AppNameOf(url))))
    ensures var l := GetActiveServiceIpPortByAppId(s, cfg, AppNameOf(url), reply);
      r.result.Ok? ==>
        var endpoints := l.result.value.value[ProtocolKey(url)];
        && r.state == l.state.(counter := l.state.counter + 1)
        && (exists ep :: (ep in endpoints.Values || ep == "") && r.result.value == Replace(url, AppNameOf(url), ep))
        && var i := r.state.counter % |endpoints|;
          r.result.value == Replace(url, AppNameOf(url), if i in endpoints then endpoints[i] else "")
  {
    var appName := AppNameOf(url);
    var key := ProtocolKey(url);
    var l := GetActiveServiceIpPortByAppId(s, cfg, appName, reply);
    if l.result.Err? || l.result.value.None? || |l.result.value.value| == 0 then
      Step(l.state, Err(NotFound(appName)))
    else
      var ipPortMap := l.result.value.value;
      if key !in ipPortMap || |ipPortMap[key]| == 0 then Step(l.state, Err(NotFound(appName)))
      else
        var realIpPorts := ipPortMap[key];
        var pick := RandIndex(l.state.counter, |realIpPorts|);
        var realIpPort := if pick.index in realIpPorts then realIpPorts[pick.index] else "";
        Step(l.state.(counter := pick.counter), Ok(Replace(url, appName, realIpPort)))
  }

  /**
   * For a cached application, an "https://" URL resolves exactly when some
   * kept instance's secure port flag reads "false" (the inverted condition of
   * the derivation); an instance whose secure port is enabled ("true") never
   * provides an https endpoint.
   */
  lemma HttpsResolvesIffSecureFlagFalse(s: ClientState, cfg: Config, url: string, reply: Reply<Application>,
                                        xs: seq<Instance>)
    requires HasPrefix(url, HttpsPrefix)
    requires ToUpper(AppNameOf(url)) in s.activeIpPorts
    requires s.activeIpPorts[ToUpper(AppNameOf(url))] == ActiveInstancesAndIpPorts(cfg.filterOnlyUpInstances, xs).ipPorts
    ensures GetRealHttpUrl(s, cfg, url, reply).result.Ok? <==>
      exists i :: 0 <= i < |xs| && Kept(cfg.filterOnlyUpInstances, xs[i]) && ListsHttps(xs[i])
  {
    var v := ActiveInstancesAndIpPorts(cfg.filterOnlyUpInstances, xs);
    assert |v.ipPorts| == 2 by {
      assert v.ipPorts.Keys == {HttpKey, HttpsKey};
    }
    var eps := v.ipPorts[HttpsKey];
    ResolvesOnHit(s, cfg, url, reply);
    NonEmptyIffSomeKey(eps);
    if exists i :: 0 <= i < |xs| && Kept(cfg.filterOnlyUpInstances, xs[i]) && ListsHttps(xs[i]) {
      var i :| 0 <= i < |xs| && Kept(cfg.filterOnlyUpInstances, xs[i]) && ListsHttps(xs[i]);
      assert i in eps;
    }
    if exists k :: k in eps {
      var k :| k in eps;
      assert 0 <= k < |xs| && Kept(cfg.filterOnlyUpInstances, xs[k]) && ListsHttps(xs[k]);
    }
  }

  /**
   * On a cache hit the URL resolves exactly when the cached endpoint map is
   * non-empty and the selected protocol has an endpoint.
   */
  lemma ResolvesOnHit(s: ClientState, cfg: Config, url: string, reply: Reply<Application>)
    requires ToUpper(AppNameOf(url)) in s.activeIpPorts
    ensures var m := s.activeIpPorts[ToUpper(AppNameOf(url))];
      GetRealHttpUrl(s, cfg, url, reply).result.Ok? <==>
        |m| > 0 && ProtocolKey(url) in m && |m[ProtocolKey(url)]| > 0
  {
  }

  /**
   * A plain URL "http://HOST/PATH" to an application whose cached view was
   * derived from a single kept instance listing its plain port resolves to
   * "http://IP:PORT/PATH": only the host segment is rewritten, and the
   * counter advances by one.
   */
  lemma SingleInstanceUrlRewrite(s: ClientState, cfg: Config, host: string, path: string,
                                 reply: Reply<Application>, inst: Instance)
    requires |host| > 0 && !Contains(host, "/")
    requires |path| > 0 && path[0] == '/'
    requires !Contains(host + path, HttpPrefix) && !Contains(host + path, HttpsPrefix)
    requires NoneBefore(HttpPrefix + host + path, host, |HttpPrefix|)
    requires !Contains(path, host)
    requires ToUpper(host) in s.activeIpPorts
    requires s.activeIpPorts[ToUpper(host)] == ActiveInstancesAndIpPorts(cfg.filterOnlyUpInstances, [inst]).ipPorts
    requires Kept(cfg.filterOnlyUpInstances, inst) && ListsHttp(inst)
    ensures GetRealHttpUrl(s, cfg, HttpPrefix + host + path, reply) ==
      Step(s.(counter := s.counter + 1), Ok(HttpPrefix + IpPort(inst.ipAddr, inst.port.port) + path))
  {
    var url := HttpPrefix + host + path;
    var ep := IpPort(inst.ipAddr, inst.port.port);
    PlainUrlRewrite(host, path, ep);
    var eps := s.activeIpPorts[ToUpper(host)][HttpKey];
    assert eps == map[0 := ep] by {
      SingleInstanceHttpEndpoint(cfg.filterOnlyUpInstances, inst);
    }
    assert |eps| == 1;
    assert (s.counter + 1) % |eps| == 0;
    RewriteOnHit(s, cfg, url, reply);
  }

  /**
   * An "https://HOST/PATH" URL to an application cached from a single
   * instance whose secure port flag is not "false" fails with HOST not found,
   * and the state, counter included, is unchanged.
   */
  lemma SecureUrlWithoutSecureEndpoint(s: ClientState, cfg: Config, host: string, path: string,
                                       reply: Reply<Application>, inst: Instance)
    requires !Contains(host, "/")
    requires |path| > 0 && path[0] == '/'
    requires !Contains(host + path, HttpPrefix) && !Contains(host + path, HttpsPrefix)
    requires ToUpper(host) in s.activeIpPorts
    requires s.activeIpPorts[ToUpper(host)] == ActiveInstancesAndIpPorts(cfg.filterOnlyUpInstances, [inst]).ipPorts
    requires !ListsHttps(inst)
    ensures GetRealHttpUrl(s, cfg, HttpsPrefix + host + path, reply) == Step(s, Err(NotFound(host)))
  {
    var url := HttpsPrefix + host + path;
    AppNameOfSchemeUrl(host, path);
    assert HasPrefix(url, HttpsPrefix) by {
      assert url == HttpsPrefix + (host + path);
    }
    HttpsResolvesIffSecureFlagFalse(s, cfg, url, reply, [inst]);
    assert [inst][0] == inst;
  }

  /** The text-level half of the rewrite: name, protocol and replacement of "http://HOST/PATH". */
  lemma PlainUrlRewrite(host: string, path: string, ep: string)
    requires |host| > 0 && !Contains(host, "/")
    requires |path| > 0 && path[0] == '/'
    requires !Contains(host + path, HttpPrefix) && !Contains(host + path, HttpsPrefix)
    requires NoneBefore(HttpPrefix + host + path, host, |HttpPrefix|)
    requires !Contains(path, host)
    ensures AppNameOf(HttpPrefix + host + path) == host
    ensures ProtocolKey(HttpPrefix + host + path) == HttpKey
    ensures Replace(HttpPrefix + host + path, host, ep) == HttpPrefix + ep + path
  {
    AppNameOfSchemeUrl(host, path);
    PlainUrlIsNotSecure(host + path);
    assert HttpPrefix + host + path == HttpPrefix + (host + path);
    ReplaceSegment(HttpPrefix, host, path, ep);
  }

  /**
   * On a cache hit whose selected protocol has endpoints, the URL resolves to
   * the endpoint under the new counter modulo the number of endpoints (the
   * empty text when that index is not a key).
   */
  lemma RewriteOnHit(s: ClientState, cfg: Config, url: string, reply: Reply<Application>)
    requires ToUpper(AppNameOf(url)) in s.activeIpPorts
    requires ProtocolKey(url) in s.activeIpPorts[ToUpper(AppNameOf(url))]
    requires |s.activeIpPorts[ToUpper(AppNameOf(url))][ProtocolKey(url)]| > 0
    ensures var eps := s.activeIpPorts[ToUpper(AppNameOf(url))][ProtocolKey(url)];
      var i := (s.counter + 1) % |eps|;
      GetRealHttpUrl(s, cfg, url, reply) ==
        Step(s.(counter := s.counter + 1), Ok(Replace(url, AppNameOf(url), if i in eps then eps[i] else "")))
  {
    NonEmptyIffSomeKey(s.activeIpPorts[ToUpper(AppNameOf(url))]);
  }

  /**
   * The endpoint keys are instance positions even without the UP filter, so
   * the picked index can miss there too: an application whose first instance
   * lists no plain port and whose second does rewrites a plain URL with the
   * empty text in place of the host, and reports no error.
   */
  lemma UnfilteredUrlCanLoseHost(s: ClientState, cfg: Config, url: string, reply: Reply<Application>,
                                 a: Instance, b: Instance)
    requires !cfg.filterOnlyUpInstances
    requires !HasPrefix(url, HttpsPrefix)
    requires ToUpper(AppNameOf(url)) in s.activeIpPorts
    requires s.activeIpPorts[ToUpper(AppNameOf(url))] == ActiveInstancesAndIpPorts(false, [a, b]).ipPorts
    requires !ListsHttp(a) && ListsHttp(b)
    ensures GetRealHttpUrl(s, cfg, url, reply) ==
      Step(s.(counter := s.counter + 1), Ok(Replace(url, AppNameOf(url), "")))
  {
    var eps := ActiveInstancesAndIpPorts(false, [a, b]).ipPorts[HttpKey];
    assert [a, b][0] == a && [a, b][1] == b;
    assert forall i :: i in eps <==> i == 1;
    assert eps.Keys == {1};
    assert |eps| == 1;
    RewriteOnHit(s, cfg, url, reply);
  }

  /** A map has entries exactly when some key is present. */
  lemma NonEmptyIffSomeKey<K, V>(m: map<K, V>)
    ensures |m| > 0 <==> exists k :: k in m
  {
    if forall k :: k !in m {
      assert m.Keys == {};
    } else {
      var k :| k in m;
      assert k in m.Keys;
    }
  }
}
