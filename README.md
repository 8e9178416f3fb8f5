# Cluster discovery and session routing (leaf `cluster/discovery.go`)

This project models the part of the leaf cluster package that stays in memory and proves properties of it. That part has four pieces:

- **Directory keys.** `type/name` for membership records and `config/name` for configuration entries.
- **Membership mirror.** `serverMap : prefix -> (directory key -> ServerInfo)`. A bulk read seeds it, and PUT / DELETE watch events keep it current.
- **Connection synchronizer.** The hooks that call `AddClient` / `RemoveClient` when a peer joins or leaves. Which call is made depends on this node's type and the peer's.
- **Session router.** `GetBestServerInfo`, with its idempotency check on a stored assignment and its selection scan, plus `UpdateServerInfo` and `DelServerInfo`.

How the surroundings are modelled:

- The package-level variables become the fields of the class `Discovery.Cluster`: `serverMap`, `serverIdMap`, this node's type and name, and a log of connection-manager calls (`actions`).
- Methods that mutate `serverMap` in Go mutate that field here.
- Each method is proved against a pure function: the mirror methods against `MirrorSpec`, the router methods against `Router`, the hook methods against `Sync`, and `ListConfig` against `Discovery.ConfigEntries`. The properties are lemmas about those functions.
- The directory (etcd) is not modelled as a store. Its answers are parameters:
  - `parse` decodes a value.
  - `readAssignment` / `readRecord` stand for `UnmarshalKey` / `Read`.
  - `writeOk` and `failed` are the outcomes of writes and deletes.
  - The writes the code issues are returned as a sequence of `StoreOp`.
- The iteration order of a Go map is a parameter `order`, required to list every key exactly once.

Modules: `Types` (records, keys, `strings.Join`), `Sync` (the join/leave matrix), `MirrorSpec` (the mirror as a value, one event, an event stream), `Router` (selection, idempotency, batch delete), `Discovery` (the class and `ListConfig`).

Where the code departs from the design it evidently aims at (least-loaded routing, fall-through on any directory error, a symmetric routing matrix supplied as data), the model follows the code:

- The scan returns the **last** eligible server in iteration order, not the least-loaded one. The running minimum is never lowered, so `ClientCount < MaxInt32` stays part of the filter (see Findings).
- A read or parse failure of the authoritative record in the idempotency path is **returned as an error**. It does not fall through to fresh selection. Only a failure to read the stored assignment falls through.
- The leave hook is asymmetric. A chat node removes a front peer even when that peer has no listen address. A front node removes a non-front peer only when it has one.
- The routing matrix is fixed in code (`frontServer`, `chatServer`). It is not supplied as data.
- A fresh assignment is written even when no key was supplied, at the key `""`.
- A reused assignment is returned without checking the server's current load.
- `UpdateServerInfo` looks the record up under the bare server name (see Findings).
- The lease used for the client-count write comes from `serverIdMap`. No code in this file fills that map, so the lease is the zero value unless other code does.

## Model

| member | source | states |
|---|---|---|
| Types.Join | cluster/discovery.go:85 | strings.Join gives "" for no parts, the part itself for one, and `a + sep + b` for two |
| Types.GetEtcdClientKey | cluster/discovery.go:84-86 | the membership key is `Type + "/" + Name`, with the separator right after the type |
| Types.GetConfigPath | cluster/discovery.go:89-91 | the configuration key is `"config/" + name` |
| Types.RegisterRecord | cluster/discovery.go:46-56 | a node registers with 0 clients below its limit, under the key `type/name` |
| Types.SelfKeyIsRegisteredKey | cluster/discovery.go:177 | the key compared on DELETE is the key the node registered its own record under |
| Types.KeyInjective | cluster/discovery.go:84-86 | when no type contains "/", equal directory keys mean equal (type, name) |
| Types.ConfigPathIsNotMemberKey | cluster/discovery.go:89-91 | a configuration path equals a membership key only for a node of type "config" with that name |
| Sync.JoinActions | cluster/discovery.go:186-198 | AddClient(name, listenAddr) is emitted exactly when the listen address is non-empty and the pair is front → non-front or chat → front; otherwise nothing |
| Sync.LeaveActions | cluster/discovery.go:200-210 | RemoveClient(name) is emitted exactly for front → non-front with a listen address, or for chat → front regardless of address; otherwise nothing |
| Sync.LeaveClosesWhatJoinOpened | cluster/discovery.go:186-210 | every connection opened for a record is closed when that record leaves |
| Sync.LeaveWithoutJoin | cluster/discovery.go:205-208 | a chat node removes a front peer without a listen address, which it never added |
| Sync.UncoveredTypeIsNoOp | cluster/discovery.go:186-210 | a node type outside the matrix never calls the connection manager |
| MirrorSpec.Lookup | cluster/discovery.go:171 | the nested lookup finds a record exactly when both prefix and key are present |
| MirrorSpec.PutMirror | cluster/discovery.go:163 | the key is set to the record, the prefix map gains only that key, every other entry of the prefix is kept, and every other prefix's map is equal to the old one |
| MirrorSpec.DelMirror | cluster/discovery.go:171-173 | afterwards the key is absent from the prefix, present or not before; every other entry of the prefix is kept, every other prefix's map is equal to the old one, and the set of prefixes is unchanged |
| MirrorSpec.EnsurePrefix | cluster/discovery.go:116-120 | an existing prefix map is kept untouched; a missing one is created empty |
| MirrorSpec.AddEffect | cluster/discovery.go:155-168 | a parse failure changes neither mirror nor log; otherwise insert or overwrite, and exactly the join-hook calls are appended |
| MirrorSpec.DelEffect | cluster/discovery.go:170-184 | the key is deleted; the leave-hook calls are appended only when a record existed |
| MirrorSpec.HandleEvent | cluster/discovery.go:135-144 | a PUT that parses leaves the parsed record at the key; a DELETE leaves the key absent; any other event type or an unparsable PUT changes nothing; the prefixes are kept and the log only grows |
| MirrorSpec.HandleAll | cluster/discovery.go:135-144 | a stream of events on one prefix keeps the set of prefixes, leaves every other prefix untouched and only appends to the log |
| MirrorSpec.BulkEvents | cluster/discovery.go:146-153 | the bulk read feeds only PUT events to the insert path, at most one per entry |
| MirrorSpec.BulkStep | cluster/discovery.go:146-153 | a nil entry of the bulk read changes nothing; any other entry goes through the PUT insert path |
| MirrorSpec.HandleAllAt | cluster/discovery.go:135-144 | after a stream, a key holds the record of its last parsed PUT, is absent after a last DELETE, and keeps its earlier entry when no event decided it |
| MirrorSpec.DeleteIdempotent | cluster/discovery.go:170-184 | a DELETE repeated has the effect of one DELETE; the second runs no hook |
| MirrorSpec.UpdateCount | cluster/discovery.go:283-285 | if the lookup key is present, only that record's ClientCount changes, to the given value; if it is absent, the mirror is unchanged |
| MirrorSpec.UpdateByNameIsNoOp | cluster/discovery.go:283 | looked up by a bare name without "/", the update never finds a record of a mirror keyed by directory keys |
| MirrorSpec.UpdateByNameMissesRecord | cluster/discovery.go:283 | a chat node mirrored under "chatServer/c1" keeps its count when updated as "c1" |
| MirrorSpec.UpdateByKeyReachesRecord | cluster/discovery.go:283-285 | looked up by `type/name`, the update reaches the record registered under that key |
| Router.LastEligible | cluster/discovery.go:250-257 | the scan's result is None exactly when no visited record is eligible; otherwise an eligible record of the map |
| Router.LastEligibleIsLast | cluster/discovery.go:252-257 | the scan returns the last eligible record in iteration order, whatever the loads of the earlier ones |
| Router.ScanLastEligible | cluster/discovery.go:250-258 | the loop with the frozen minimum computes LastEligible |
| Router.LeastIsUnique | cluster/discovery.go:250-258 | the least-loaded eligible key, ties broken by key order, is unique, so it does not depend on iteration order |
| Router.ScanLeastLoaded | cluster/discovery.go:250-258 | the corrected scan returns the least-loaded eligible key, or None exactly when no record is eligible |
| Router.LastEligibleIsNotLeast | cluster/discovery.go:252-257 | with loads 10, 3, 7 of 100 visited in that order, the scan as written picks 7 while 3 is the least-loaded |
| Router.Decide | cluster/discovery.go:220-248 | no key or an unreadable assignment falls through; a failed read or parse of the authoritative record is an error; the same GlobalId reuses the stored (Name, WSAddr); a different one deletes the assignment and falls through |
| Router.FreshSelect | cluster/discovery.go:250-265 | a returned server is an eligible record of `mirror[serverType]`, it is written at the assignment key, and a failed write is reported with it; otherwise "No T server to alloc" with no write, which happens exactly when the prefix is absent or no key visited in `order` is eligible, and, when `order` is an iteration order of the whole prefix map, exactly when no record of the prefix is eligible |
| Router.Route | cluster/discovery.go:216-266 | a reuse returns the stored assignment's name and client address with no directory write and no error; an authoritative-read failure returns no server and issues no write; without a usable assignment the result is fresh selection's; a restarted server's assignment is deleted first and fresh selection's reply and writes follow |
| Router.RouteSelectsEligible | cluster/discovery.go:250-264 | unless a valid assignment is reused, any returned server is an eligible record of the requested type, and the reply is its name and client address |
| Router.RetryReturnsSameServer | cluster/discovery.go:238-239 | a retry whose stored assignment is the one just written, with an unchanged incarnation id, returns the same server with no scan and no write |
| Router.RestartDiscardsAssignment | cluster/discovery.go:241-244 | on a GlobalId mismatch the stored key is deleted first, and the result is that of fresh selection |
| Router.AuthFailureIsError | cluster/discovery.go:226-236 | a failed read or parse of the authoritative record returns that error, with no server and no write |
| Router.NoKeyWritesEmptyKey | cluster/discovery.go:260-265 | without a key, a fresh assignment is written at the key "" |
| Router.AllFullIsNoServer | cluster/discovery.go:260-261 | with every chat node at its limit the request fails with "No chatServer server to alloc" |
| Router.FailedKeys | cluster/discovery.go:270-275 | every batch entry whose delete failed is logged, and every logged key is a batch entry whose delete failed; the log has exactly as many lines as there are failed entries |
| Router.DelServerInfo | cluster/discovery.go:268-277 | a delete is issued for every key of the batch, in order, whatever the earlier outcomes; the log is FailedKeys of the outcomes |
| Discovery.LeaseOf | cluster/discovery.go:286 | the lease of a server missing from serverIdMap is Go's zero value |
| Discovery.ConfigEntries | cluster/discovery.go:99-105 | a key is listed exactly when some entry with that key has a non-nil value, and it maps to the value of the last non-nil entry with that key |
| Discovery.ListConfig | cluster/discovery.go:94-107 | a failed read returns an error; otherwise the loop collects ConfigEntries |
| Discovery.Cluster.constructor | cluster/discovery.go:29-36 | the mirror, lease map and call log start empty |
| Discovery.Cluster.AddClusterClient | cluster/discovery.go:186-198 | appends exactly JoinActions to the call log |
| Discovery.Cluster.RemoveClusterClient | cluster/discovery.go:200-210 | appends exactly LeaveActions to the call log |
| Discovery.Cluster.AddServerList | cluster/discovery.go:155-168 | the new mirror and log are AddEffect of the old ones; the set of prefixes is kept |
| Discovery.Cluster.DelServerList | cluster/discovery.go:170-184 | the new mirror and log are DelEffect of the old ones; the self-lost flag is set exactly when a record existed and the key is `selfType/selfName` |
| Discovery.Cluster.WatchHandler | cluster/discovery.go:135-144 | the new state is HandleEvent of the old one; self-loss is reported only for a DELETE |
| Discovery.Cluster.ReadServiceList | cluster/discovery.go:146-153 | the bulk read has the effect of its non-nil entries as PUT events, in order |
| Discovery.Cluster.WatchServer | cluster/discovery.go:115-133 | the prefix map exists afterwards; an existing one is kept rather than replaced and is then seeded from the bulk read |
| Discovery.Cluster.GetServerMap | cluster/discovery.go:212-214 | the returned map holds exactly the mirrored records of the prefix and is empty for an unknown prefix |
| Discovery.Cluster.GetBestServerInfo | cluster/discovery.go:216-266 | the reply, the error and the directory writes are those of Route on the current mirror; the mirror is not changed |
| Discovery.Cluster.UpdateAt | cluster/discovery.go:283-290 | the mirror becomes UpdateCount; a found record is written back under its own key with the lease of the server name |
| Discovery.Cluster.UpdateServerInfo | cluster/discovery.go:279-292 | as written: the lookup key is the bare name; only that record's count changes, and nothing changes when it is absent |
| Discovery.Cluster.UpdateServerInfoByKey | cluster/discovery.go:283-286 | corrected: the lookup key is `type/name`, so the record registered as (serverType, serverName) gets the new count |

## Findings

| source | as written | input that shows it | evidently intended | confidence | as-written member | corrected member |
|---|---|---|---|---|---|---|
| cluster/discovery.go:252-257 | `minClientCount` is never lowered, so the loop keeps the last eligible server in iteration order | three chat servers with 10, 3 and 7 clients of 100, visited in that order: the one with 7 is chosen | the eligible server with the fewest clients, independent of iteration order | high (not executed) | Router.LastEligibleIsNotLeast | Router.ScanLeastLoaded |
| cluster/discovery.go:283 | `serverMap[serverType][serverName]` uses the bare name, but the mirror is keyed by the directory key `type/name` | a chat server "c1" mirrored under "chatServer/c1"; `UpdateServerInfo("chatServer", "c1", 5)` finds nothing and the count stays 3 | look the record up under `type/name` | medium (not executed; depends on the etcd wrapper handing out full keys, as the comparison at line 177 implies) | MirrorSpec.UpdateByNameMissesRecord | Discovery.Cluster.UpdateServerInfoByKey |

The rest of the model follows the code as written. `GetBestServerInfo` uses `ScanLastEligible`, and `UpdateServerInfo` uses the bare name. The corrected members stand beside them, and their properties are proved: `ScanLeastLoaded` with `LeastIsUnique`, and `UpdateServerInfoByKey` with `UpdateByKeyReachesRecord`.

## Left out

- Directory I/O is not modelled. This covers `etcd.Dial`, `ReadAll`, `Read`, `UnmarshalKey`, `MarshalKey*`, `Delete`, `BindWatcher`, `Keeplive` and `Revoke`, so `RegisterServer` and `RemoveServer` are left out apart from the record they build (`RegisterRecord`). Reads are parameters and writes are returned as `StoreOp` values.
- `BindWatcher` is absent from `WatchServer`. Its later events are the calls of `WatchHandler`.
- JSON encoding and decoding are not modelled. `parse` is an arbitrary partial function, and no serialisation round trip is proved.
- The JSON value `null` decodes without error to a nil `*ServerInfo`, which the code would store. The model has no nil entries.
- `bson.NewObjectId` is an outside library. `GlobalId` is an opaque string.
- `AddClient` / `RemoveClient` are not modelled beyond recording that they were called.
- Logging is left out, including the process exit of `log.Fatal`. The self-lost branch only logs in the code; here it is returned as `selfLost`.
- Concurrency between watch callbacks and router calls is not modelled. The code has no locking.
- Pointer aliasing is not modelled. The mirror holds `*ServerInfo` and `GetServerMap` returns the live map, while the model works with values. `UpdateServerInfo` changes a record in place, and the model's map update has the same effect on the mirror.
- The runtime type assertions on `interface{}` arguments are replaced by typed parameters.
- TTL and lease timing are left out.
- Go map iteration order is random. It is the parameter `order`.
- Writing into a missing prefix map panics in Go. `AddServerList` and `WatchHandler` therefore require the prefix to exist when the value parses, which is exactly when the write happens.
- Discovery.Cluster.GetServerMap: the result may alias later updates in Go; the contract describes the snapshot at the time of the call only.
