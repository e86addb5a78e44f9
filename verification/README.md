# Eureka client registry cache — a Dafny model

This project models the core of a Go client for a Eureka-style service
registry (`client.go`): the registry cache and the lookups callers use to
resolve an application name to an instance or to a concrete `ip:port`.

The client keeps three maps keyed by application id:
- the raw application snapshot;
- the *active instances*, keyed by their position in the server's list;
- the *active endpoints*, keyed by protocol (0 = http, 1 = https) and then by position.

The maps are filled in two ways: by a bulk fetch of every application, or, on
a cache miss, by a single-application refresh. A shared counter picks among
candidates round-robin. Around the cache, the model also covers:
- the running flag that `Run` sets and `Shutdown` clears;
- the registration retry loop;
- the promotion of the instance to UP;
- the heartbeat's pacing.

Every operation is a pure function from a state to a state plus a result.
Server answers are parameters: `Reply<T>` holds a value or a failure, and
`Ack` holds an accepted or a rejected call. Loops that retry forever run here
over a finite sequence of such answers, and their sleeps are summed in
seconds instead of taken.

Files, one module each:
- `wrappers.dfy`: `Option` and `Result`.
- `transport.dfy`: the server-answer types.
- `go_strings.dfy`: the parts of Go's `strings` and `fmt` the client uses. These are `HasPrefix`, ASCII `ToUpper`, `Split`, `Join`, `Replace` and `%d`.
- `registry.dfy`: instances and applications, and `getActiveInstancesAndIpPorts`.
- `selection.dfy`: `getRandIndex`.
- `cache.dfy`: the client state, single-application refresh, cached lookups and the bulk fetch.
- `lookup.dfy`: `GetNextServerFromEureka` and `GetRealHttpUrl`.
- `lifecycle.dfy`: `Run`, `Shutdown`, registration, promotion and heartbeat.

The model follows the code as written. In three places that behaviour may
be surprising:
- **https endpoints use an inverted flag.** An instance gets an https endpoint when its secure-port flag reads `"false"` (client.go:458), while the http endpoint needs `"true"`. `Lookup.HttpsResolvesIffSecureFlagFalse` and `Lookup.SecureUrlWithoutSecureEndpoint` state the consequence: an https URL to an instance whose secure port is enabled does not resolve.
- **The heartbeat pause depends on the outcome.** After a failed heartbeat the loop sleeps the 3-second retry interval; only after a successful one does it sleep the lease renewal interval (client.go:427-434).
- **URL resolution reports one error.** `GetRealHttpUrl` reports every failure as "not found", a server failure included (client.go:173-176).

Two quirks of the cache are kept rather than smoothed over:
- **Lookups and refreshes use different keys.** A lookup reads under `ToUpper(appId)`, but a single-application refresh writes under `appId` exactly as given. So a miss on a lower-case id refreshes and still returns nothing: an `Ok(None)` result, which is Go's nil map.
- **Instance keys are original positions.** With the UP filter on, the keys skip filtered-out instances. The round-robin index can then miss, and `GetNextServerFromEureka` returns Go's nil instance with no error. The endpoint maps are keyed the same way, with or without the filter, so `GetRealHttpUrl` can miss as well: when an earlier instance lists no endpoint for the chosen protocol, the host is replaced by the empty text ("http:///path") and no error is reported.

## Model

| member | source | states |
|---|---|---|
| GoStrings.ToUpper | client.go:194 | The upper-cased id has the same length; each lower-case ASCII letter becomes its upper-case letter, every other character stays in place, no lower-case letter is left, and the result equals the input exactly when the input had no lower-case letter |
| GoStrings.ToUpperIdempotent | client.go:194 | Upper-casing an already upper-cased id changes nothing |
| GoStrings.Split | client.go:164-165 | Splitting at '/' yields at least one piece; the first piece is a prefix of the text, all of it when there is no separator, and otherwise followed by the separator |
| GoStrings.SplitPartsAreFree | client.go:164-165 | No piece of a split contains the separator, so the application name never contains '/' |
| GoStrings.JoinSplit | client.go:164-165 | Joining the pieces of a split with the same separator gives back the original text |
| GoStrings.ReplaceAllIsSplitJoin | client.go:162-163 | Replacing every occurrence is the same as splitting at the pattern and joining with the replacement |
| GoStrings.ReplaceAllBySelf | client.go:190 | Replacing a text by itself leaves the URL unchanged |
| GoStrings.ReplaceAllAbsent | client.go:162-163 | A URL with no occurrence of the scheme prefix comes back unchanged |
| GoStrings.InsertAround | client.go:190 | Replacing the empty name grows the URL by one copy of the endpoint per gap (before every character and at the end), and the result starts with the endpoint |
| GoStrings.InsertAroundBlock | client.go:190 | Position by position, the result of replacing the empty name holds a copy of the endpoint followed by the i-th character of the URL, block after block |
| GoStrings.InsertAroundEnd | client.go:190 | After the last character of the URL, the result ends with one more copy of the endpoint |
| GoStrings.ReplaceSegment | client.go:190 | When the name occurs only after the scheme and not in the path, only that segment is rewritten |
| GoStrings.ReplaceSegmentAtStart | client.go:190 | A name at the start of the text that does not occur again is replaced there and nowhere else |
| GoStrings.NatToDecimal | client.go:455-459 | The `%d` text of a port is non-empty, all decimal digits, and has no leading zero unless the port is 0 |
| GoStrings.DecimalRoundTrip | client.go:455-459 | Reading back the decimal text of a natural number gives the number |
| GoStrings.IntDecimalRoundTrip | client.go:455-459 | `%d` of any integer is an optional minus followed by digits, and parsing it back gives the integer |
| Registry.IpPortDeterminesPort | client.go:455-459 | For one address, two ports with the same endpoint text are equal |
| Registry.ScanPrefix | client.go:446-461 | After the first n loop rounds, a position is an instance key iff it passes the filter, and an http/https key iff it is kept and its plain flag is "true" or its secure flag is "false"; values are the instance and its "ip:port"; the count is the number kept so far |
| Registry.ActiveInstancesAndIpPorts | client.go:439-466 | Instance keys are exactly the original positions that pass the filter, both protocol keys are always present, endpoint keys and values follow the port flags, and with the filter on the count equals the number of UP instances (all instances with it off) |
| Registry.CountKeptOfFilter | client.go:449-451 | With the filter on, the instances kept are the UP ones; with it off, all of them |
| Registry.EndpointsBelongToInstances | client.go:453-460 | Every endpoint, of either protocol, is under the position of a derived instance |
| Registry.SingleInstanceHttpEndpoint | client.go:453-457 | A single kept instance with its plain port enabled yields exactly one http endpoint, under position 0 |
| Registry.UnfilteredKeysAreContiguous | client.go:446-453 | Without the filter, every index below the instance count is a key holding the instance at that position |
| Selection.RandIndex | client.go:156-159 | Each pick raises the shared counter by exactly one and returns the new counter modulo the number of candidates, an index in [0, total) |
| Selection.PicksFollowCounter | client.go:156-159 | The j-th of successive picks is (counter + 1 + j) mod total |
| Selection.RoundCoversEveryIndex | client.go:156-159 | Any total successive picks visit every index in [0, total) |
| Selection.RoundPicksNoIndexTwice | client.go:156-159 | Any total successive picks never repeat an index, so they form a permutation of [0, total) |
| Cache.InitialIsConsistent | client.go:75-89 | A new client has nothing cached, which trivially agrees with itself, is not running, and starts its counter at zero |
| Cache.DoRefreshByAppId | client.go:223-244 | A failed server call returns the error and changes nothing; a successful one stores the application and its derived views under the raw id and leaves every other entry, the counter and the running flag alone |
| Cache.RefreshPreservesConsistent | client.go:233-241 | A single-application refresh keeps every cached view equal to the one derived from its snapshot, with the same keys in all three maps |
| Cache.GetActiveInstancesByAppId | client.go:193-206 | A hit under the upper-cased id returns the cached entry without a server call; a miss with a failed call returns the error with the state unchanged; a miss with an answer refreshes, then returns the derived instances when the id was already upper case and nothing otherwise |
| Cache.GetActiveServiceIpPortByAppId | client.go:208-221 | The same hit, miss and error behaviour for the endpoint map |
| Cache.LookupsPreserveConsistent | client.go:193-221 | Neither lookup breaks the agreement of the three maps |
| Cache.ConsistentViewsNest | client.go:233-241 | In an agreeing cache the endpoint entry has exactly the two protocol keys, every endpoint is under a cached instance's position, and every cached instance is the snapshot's instance at that position |
| Cache.LatestByNameKeepsLast | client.go:277-282 | When several applications share a name, the last of them is the one kept |
| Cache.BuildSnapshot | client.go:273-282 | The bulk loop produces one entry per name returned, the same names in all three maps, each holding the latest application of that name and the views derived from it |
| Cache.FetchRegistry | client.go:258-292 | A failed fetch changes nothing; a successful one replaces all three maps wholesale with exactly the returned names, keeps the counter and running flag, and leaves the maps in agreement |
| Lookup.GetNextServerFromEureka | client.go:140-153 | Fails iff the lookup fails or finds no or no non-empty instance map, passing server errors through and otherwise reporting the id as not found; on success the counter advances by one and the result is the instance under the new counter mod the map size, or nil when that index is not a key |
| Lookup.UnfilteredPickIsRoundRobin | client.go:140-159 | Without the filter a cached application always yields an instance, the one at position (counter + 1) mod n of the snapshot |
| Lookup.FilteredPickCanBeNil | client.go:140-159 | With the filter, an application listing a non-UP instance then an UP one yields a nil instance with no error |
| Lookup.ProtocolKey | client.go:167-171 | The https map is chosen iff the URL starts with "https://", the http map otherwise |
| Lookup.AppNameIsHostSegment | client.go:162-165 | The application name holds no '/', starts the URL once scheme prefixes are deleted, and is followed there by '/' unless it is all of it |
| Lookup.AppNameOfSchemeUrl | client.go:162-165 | For "http://HOST/PATH" and "https://HOST/PATH" the application name is HOST |
| Lookup.PlainUrlIsNotSecure | client.go:167-171 | A URL starting with "http://" selects the http map |
| Lookup.GetRealHttpUrl | client.go:161-191 | Fails with the application name not found iff the lookup fails, finds no map, or the chosen protocol has no endpoint, leaving the counter alone; on success the counter advances by one and every occurrence of the name is replaced by the endpoint of the chosen protocol under the new counter mod the endpoint count, or by the empty text when that index is not a key |
| Lookup.RewriteOnHit | client.go:178-190 | On a cache hit with endpoints, the URL is rewritten to the endpoint under the new counter mod the endpoint count |
| Lookup.UnfilteredUrlCanLoseHost | client.go:178-190 | Without the filter, an application whose first instance lists no plain port and whose second does rewrites a plain URL with the host deleted, with no error, and advances the counter |
| Lookup.ResolvesOnHit | client.go:173-184 | On a cache hit, the URL resolves exactly when the endpoint map is non-empty and the chosen protocol has an endpoint |
| Lookup.HttpsResolvesIffSecureFlagFalse | client.go:167-184 | For a cached application, an https URL resolves iff some kept instance's secure flag reads "false" |
| Lookup.PlainUrlRewrite | client.go:161-190 | For "http://HOST/PATH" the name is HOST, the http map is used, and rewriting gives "http://" + endpoint + PATH |
| Lookup.SingleInstanceUrlRewrite | client.go:161-191 | With the application cached from one kept instance listing its plain port, "http://HOST/PATH" resolves to "http://IP:PORT/PATH" and the counter advances by one |
| Lookup.SecureUrlWithoutSecureEndpoint | client.go:167-184 | With the application cached from one instance whose secure flag is not "false", "https://HOST/PATH" fails with HOST not found and the state is unchanged |
| Lifecycle.Run | client.go:91-94 | Starting marks the client running and leaves the cache and counter alone |
| Lifecycle.Shutdown | client.go:106-130 | De-registration is requested iff the client is running and configured to de-register; the running flag is cleared only when the server accepts; nothing else changes |
| Lifecycle.ShutdownTwiceDeregistersOnce | client.go:106-130 | After an accepted shutdown, a second shutdown makes no server call and changes nothing |
| Lifecycle.RejectedShutdownIsRetried | client.go:120-124 | After a rejected de-registration the state is unchanged and a second shutdown calls the server again |
| Lifecycle.RunThenShutdown | client.go:91-130 | A started client de-registers on shutdown iff so configured, and stops running iff it also succeeds |
| Lifecycle.RegisterWithEureka | client.go:296-323 | Disabled self-registration and a missing instance end at once; otherwise registration succeeds at the first accepted attempt, after one 3-second pause per earlier rejection, and goes on retrying while every attempt is rejected |
| Lifecycle.UpdateInstanceStatus | client.go:374-399 | Never reports an error; reports success iff there is an instance and the server accepts |
| Lifecycle.ProbedPort | client.go:347-351 | The secure port is probed when its flag reads "true", and such an instance lists no https endpoint; the plain port is probed otherwise |
| Lifecycle.Promotes | client.go:326-334 | A round promotes the instance iff it is enabled on start-up or its port is in use, there is an instance, and the server accepts |
| Lifecycle.PromoteToUp | client.go:325-339 | The promotion loop stops at the first promoting round, after one 3-second pause per earlier round, and otherwise no round promotes |
| Lifecycle.NoInstanceNeverPromotes | client.go:377-380 | Without an instance `updateInstanceStatus` reports false, so no round promotes whatever the server answers; the client itself never reaches this case, since registration needs an instance first (client.go:303-305) |
| Lifecycle.HeartbeatElapsedCounts | client.go:418-436 | Over any run of heartbeats, the time slept is 3 seconds per rejected one plus the (non-negative) renewal interval per accepted one |

## Left out

- Goroutines, the mutex and signal handling (client.go:97, 101, 325, 342, 471-497): each operation is one atomic step, and `os.Exit` is not modelled.
- The endless `refreshRegistry` timer loop (client.go:246-255): one `FetchRegistry` step is modelled. Its result is ignored by the loop, so nothing else depends on it.
- The network: `Api`/`pickEurekaServerApi` never fail in the code and are folded into the server answer. `PortInUse`/`serverIsStarted` become a boolean per promotion round.
- Logging, configuration parsing and instance construction (client.go:76): not behavioural.
- Selection.RandIndex: the 64-bit counter is an unbounded `nat`. Its wrap-around and the `unsafe.Pointer` cast (client.go:157-158) are not modelled.
- The maps are never created in the constructor (client.go:78-86). A refresh before any bulk fetch would therefore panic at client.go:239. The model starts with empty maps instead.
- `&app` (client.go:279) aliases the loop variable before Go 1.22, so every entry would point at the last application. The model stores each application by value.
- GoStrings.ToUpper: only ASCII letters are upper-cased; Unicode case mapping is not modelled. Strings are sequences of runes, not bytes.
- Lookup.GetNextServerFromEureka: with an error, Go also returns an empty instance; the model returns only the error.
- `Shutdown` logs `client.instance.InstanceId`, which would panic on a nil instance; the model has no nil instance there.
- `updateInstanceStatus` never changes the local instance's status field, and neither does the model.
- The getters `GetApplications` and `GetInstances` (client.go:132-138) have no behaviour to prove.
- The registration loop, the promotion loop and the heartbeat run forever in the code. They are modelled over a finite sequence of server answers. A run that ends with every answer rejected stands for a loop that is still retrying.
