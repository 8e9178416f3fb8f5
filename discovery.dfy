/**
 * The package state of the cluster package and the operations that change it:
 * the membership mirror kept by watch events, the connection synchronizer
 * hooks, and the router's reads and updates of the mirror.
 */
module Discovery {
  import opened Types
  import opened Sync
  import opened MirrorSpec
  import opened Router

  /** Go's zero value for a missing lease id. */
  function LeaseOf(leases: map<string, int>, serverName: string): (lease: int)
    ensures serverName in leases ==> lease == leases[serverName]
    ensures serverName !in leases ==> lease == 0
  {
    if serverName in leases then leases[serverName] else 0
  }

  /** Entry `i` sets `k` to `v`, and no later entry sets `k` again. */
  predicate LastSetAt(kvs: seq<KeyValue>, k: string, i: int, v: string)
    requires 0 <= i < |kvs|
  {
    kvs[i].key == k && kvs[i].value == Some(v)
    && forall j :: i < j < |kvs| && kvs[j].key == k ==> kvs[j].value.None?
  }

  /** An entry that does not set `k` keeps the entry that last set it. */
  lemma LastSetExtends(front: seq<KeyValue>, last: KeyValue, values: map<string, string>)
    requires forall k :: k in values ==> exists i :: 0 <= i < |front| && LastSetAt(front, k, i, values[k])
    ensures forall k :: k in values && (k != last.key || last.value.None?) ==>
      exists i :: 0 <= i < |front + [last]| && LastSetAt(front + [last], k, i, values[k])
  {
    var kvs := front + [last];
    forall k | k in values && (k != last.key || last.value.None?)
      ensures exists i :: 0 <= i < |kvs| && LastSetAt(kvs, k, i, values[k])
    {
      var i :| 0 <= i < |front| && LastSetAt(front, k, i, values[k]);
      assert LastSetAt(kvs, k, i, values[k]);
    }
  }

  /** The value part of a config listing: every non-nil entry, the later of two equal keys winning. */
  function ConfigEntries(kvs: seq<KeyValue>): (r: map<string, string>)
    ensures forall k :: k in r <==> exists i :: 0 <= i < |kvs| && kvs[i].key == k && kvs[i].value.Some?
    ensures forall k :: k in r ==> exists i :: 0 <= i < |kvs| && LastSetAt(kvs, k, i, r[k])
    decreases |kvs|
  {
    if |kvs| == 0 then map[]
    else
      var front := kvs[..|kvs| - 1];
      var last := kvs[|kvs| - 1];
      assert kvs == front + [last];
      var rf := ConfigEntries(front);
      LastSetExtends(front, last, rf);
      match last.value
      case None => rf
      case Some(v) =>
        assert LastSetAt(kvs, last.key, |kvs| - 1, v);
        rf[last.key := v]
  }

  /** ListConfig: a failed read is returned as an error; otherwise the non-nil entries. */
  method ListConfig(read: Option<seq<KeyValue>>) returns (r: Option<map<string, string>>)
    ensures read.None? ==> r.None?
    ensures read.Some? ==> r == Some(ConfigEntries(read.value))
  {
    if read.None? {
      return None;
    }
    var kvs := read.value;
    var retMap: map<string, string> := map[];
    var i := 0;
    while i < |kvs|
      invariant 0 <= i <= |kvs|
      invariant retMap == ConfigEntries(kvs[..i])
    {
      if kvs[i].value.Some? {
        retMap := retMap[kvs[i].key := kvs[i].value.value];
      }
      assert kvs[..i + 1][..i] == kvs[..i];
      i := i + 1;
    }
    assert kvs[..|kvs|] == kvs;
    r := Some(retMap);
  }

  /**
   * The package-level state: serverMap (prefix -> directory key -> record),
   * serverIdMap (server name -> lease id), this node's type and name, and the
   * calls made so far into the connection manager. `parse` decodes a
   * directory value into a record, or fails.
   */
  class Cluster {
    var serverMap: Mirror
    var serverIdMap: map<string, int>
    var actions: seq<Action>
    const selfType: string
    const selfName: string
    const parse: string -> Option<ServerInfo>

    function Abs(): State
      reads this
    {
      State(serverMap, actions)
    }

    constructor (selfType: string, selfName: string, parse: string -> Option<ServerInfo>)
      ensures this.selfType == selfType && this.selfName == selfName && this.parse == parse
      ensures serverMap == map[] && serverIdMap == map[] && actions == []
    {
      this.selfType := selfType;
      this.selfName := selfName;
      this.parse := parse;
      serverMap := map[];
      serverIdMap := map[];
      actions := [];
    }

    /** addClusterClient: open the peer connection the routing matrix asks for. */
    method AddClusterClient(info: ServerInfo)
      modifies this`actions
      ensures actions == old(actions) + JoinActions(selfType, info)
    {
      if selfType == FrontServer && info.Type != FrontServer {
        if info.ListenAddr != "" {
          actions := actions + [AddClient(info.Name, info.ListenAddr)];
        }
      } else if selfType == ChatServer {
        if info.Type == FrontServer {
          if info.ListenAddr != "" {
            actions := actions + [AddClient(info.Name, info.ListenAddr)];
          }
        }
      }
    }

    /** removeClusterClient: close the peer connection the routing matrix asks for. */
    method RemoveClusterClient(info: ServerInfo)
      modifies this`actions
      ensures actions == old(actions) + LeaveActions(selfType, info)
    {
      if selfType == FrontServer && info.Type != FrontServer {
        if info.ListenAddr != "" {
          actions := actions + [RemoveClient(info.Name)];
        }
      } else if selfType == ChatServer {
        if info.Type == FrontServer {
          actions := actions + [RemoveClient(info.Name)];
        }
      }
    }

    /** addServerList: parse the value; on success insert or overwrite the key and run the join hook. */
    method AddServerList(prefix: string, key: string, val: string)
      requires parse(val).Some? ==> prefix in serverMap
      modifies this`serverMap, this`actions
      ensures serverMap.Keys == old(serverMap).Keys
      ensures Abs() == AddEffect(old(Abs()), selfType, parse, prefix, key, val)
    {
      var info := parse(val);
      if info.None? {
        return;
      }
      serverMap := serverMap[prefix := serverMap[prefix][key := info.value]];
      AddClusterClient(info.value);
    }

    /** delServerList: remove the key; if a record was there, run the leave hook and report
        whether the removed key is this node's own. */
    method DelServerList(prefix: string, key: string) returns (selfLost: bool)
      modifies this`serverMap, this`actions
      ensures Abs() == DelEffect(old(Abs()), selfType, prefix, key)
      ensures selfLost == SelfLost(old(serverMap), prefix, key, selfType, selfName)
    {
      var info: Option<ServerInfo> := None;
      if prefix in serverMap && key in serverMap[prefix] {
        info := Some(serverMap[prefix][key]);
      }
      if prefix in serverMap {
        serverMap := serverMap[prefix := serverMap[prefix] - {key}];
      }
      selfLost := false;
      if info.Some? {
        RemoveClusterClient(info.value);
        if Join([selfType, selfName], PathSeparator) == key {
          selfLost := true;
        }
      }
    }

    /** watchHandler: dispatch one watch event of `prefix`. */
    method WatchHandler(prefix: string, e: Event) returns (selfLost: bool)
      requires ParsedPut(e, parse) ==> prefix in serverMap
      modifies this`serverMap, this`actions
      ensures Abs() == HandleEvent(old(Abs()), selfType, parse, prefix, e)
      ensures selfLost == (e.vtype == "DELETE" && SelfLost(old(serverMap), prefix, e.key, selfType, selfName))
    {
      selfLost := false;
      if e.vtype == "PUT" {
        AddServerList(prefix, e.key, e.value);
      } else if e.vtype == "DELETE" {
        selfLost := DelServerList(prefix, e.key);
      }
    }

    /** readServiceList: every non-nil entry of the bulk read goes through addServerList, in order. */
    method ReadServiceList(kvs: seq<KeyValue>, prefix: string)
      requires prefix in serverMap
      modifies this`serverMap, this`actions
      ensures prefix in serverMap
      ensures Abs() == HandleAll(old(Abs()), selfType, parse, prefix, BulkEvents(kvs))
    {
      ghost var st0 := Abs();
      var i := 0;
      while i < |kvs|
        invariant 0 <= i <= |kvs|
        invariant prefix in serverMap
        invariant Abs() == HandleAll(st0, selfType, parse, prefix, BulkEvents(kvs[..i]))
      {
        BulkStep(st0, selfType, parse, prefix, kvs, i);
        if kvs[i].value.Some? {
          ghost var prev := Abs();
          AddServerList(prefix, kvs[i].key, kvs[i].value.value);
          assert Abs() == AddEffect(prev, selfType, parse, prefix, kvs[i].key, kvs[i].value.value);
        }
        i := i + 1;
      }
      assert kvs[..|kvs|] == kvs;
    }

    /** watchServer: create the prefix map if it is missing, then seed it from the bulk read.
        The watch subscription that follows delivers its events to WatchHandler. */
    method WatchServer(prefix: string, bulk: seq<KeyValue>)
      modifies this`serverMap, this`actions
      ensures prefix in serverMap
      ensures Abs() == HandleAll(State(EnsurePrefix(old(serverMap), prefix), old(actions)),
                                 selfType, parse, prefix, BulkEvents(bulk))
    {
      if prefix !in serverMap {
        serverMap := serverMap[prefix := map[]];
      }
      ReadServiceList(bulk, prefix);
    }

    /** GetServerMap: the mirrored records of one prefix; empty when the prefix is unknown. */
    function GetServerMap(prefix: string): (r: map<string, ServerInfo>)
      reads this
      ensures forall k :: k in r <==> Lookup(serverMap, prefix, k).Some?
      ensures forall k :: k in r ==> Lookup(serverMap, prefix, k) == Some(r[k])
    {
      if prefix in serverMap then serverMap[prefix] else map[]
    }

    /**
     * GetBestServerInfo. `key` is the optional assignment key; `readAssignment`,
     * `readRecord` and `writeOk` stand for the directory's answers, `order` for the
     * iteration order of the prefix map. The result and the directory writes issued
     * are those of Route.
     */
    method GetBestServerInfo(serverType: string, key: Option<string>,
                             readAssignment: string -> Option<ServerInfo>, readRecord: string -> AuthRead,
                             writeOk: bool, order: seq<string>)
      returns (out: Outcome, ops: seq<StoreOp>)
      requires serverType in serverMap ==> IsOrderOf(order, serverMap[serverType])
      ensures RouteResult(out, ops) == Route(serverMap, serverType, key, readAssignment, readRecord, writeOk, order)
    {
      ops := [];
      var assignKey := "";
      if key.Some? {
        assignKey := key.value;
        var stored := readAssignment(assignKey);
        if stored.Some? {
          var prior := stored.value;
          var body := readRecord(GetEtcdClientKey(prior));
          if body.ReadFailed? {
            return Outcome(None, Some(AuthReadFailed)), [];
          }
          if body.ParseFailed? {
            return Outcome(None, Some(AuthParseFailed)), [];
          }
          if body.record.GlobalId == prior.GlobalId {
            return Outcome(Some(Reply(prior.Name, prior.WSAddr)), None), [];
          }
          ops := [Delete(assignKey)];
        }
      }

      var best: Option<ServerInfo> := None;
      if serverType in serverMap {
        best := ScanLastEligible(serverMap[serverType], order);
      }
      if best.None? {
        out := Outcome(None, Some(NoServer(NoServerMessage(serverType))));
      } else {
        ops := ops + [Put(assignKey, best.value)];
        out := Outcome(Some(Reply(best.value.Name, best.value.WSAddr)),
                       if writeOk then None else Some(AssignmentWriteFailed));
      }
    }

    /** The shared step of both client-count updates: the record at serverMap[serverType][lookupKey],
        if any, gets the new count and is written back under its own key with the lease of `serverName`. */
    method UpdateAt(serverType: string, lookupKey: string, serverName: string, clientCount: int)
      returns (ops: seq<StoreOp>)
      modifies this`serverMap
      ensures serverMap == UpdateCount(old(serverMap), serverType, lookupKey, clientCount)
      ensures Lookup(old(serverMap), serverType, lookupKey).None? ==> ops == []
      ensures Lookup(old(serverMap), serverType, lookupKey).Some? ==>
        var rec := serverMap[serverType][lookupKey];
        ops == [PutLeased(GetEtcdClientKey(rec), rec, LeaseOf(serverIdMap, serverName))]
    {
      ops := [];
      if serverType in serverMap && lookupKey in serverMap[serverType] {
        var rec := serverMap[serverType][lookupKey].(ClientCount := clientCount);
        serverMap := serverMap[serverType := serverMap[serverType][lookupKey := rec]];
        ops := [PutLeased(GetEtcdClientKey(rec), rec, LeaseOf(serverIdMap, serverName))];
      }
    }

    /** UpdateServerInfo as written: the lookup uses the bare server name as the key. */
    method UpdateServerInfo(serverType: string, serverName: string, clientCount: int) returns (ops: seq<StoreOp>)
      modifies this`serverMap
      ensures serverMap == UpdateCount(old(serverMap), serverType, serverName, clientCount)
      ensures Lookup(old(serverMap), serverType, serverName).None? ==> ops == []
      ensures Lookup(old(serverMap), serverType, serverName).Some? ==>
        var rec := serverMap[serverType][serverName];
        ops == [PutLeased(GetEtcdClientKey(rec), rec, LeaseOf(serverIdMap, serverName))]
    {
      ops := UpdateAt(serverType, serverName, serverName, clientCount);
    }

    /** UpdateServerInfo as intended: the lookup uses the directory key `type/name`, so a mirrored
        record registered as (serverType, serverName) gets the new count. */
    method UpdateServerInfoByKey(serverType: string, serverName: string, clientCount: int) returns (ops: seq<StoreOp>)
      modifies this`serverMap
      ensures var key := Join([serverType, serverName], PathSeparator);
        && serverMap == UpdateCount(old(serverMap), serverType, key, clientCount)
        && (Lookup(old(serverMap), serverType, key).None? ==> ops == [])
        && (Lookup(old(serverMap), serverType, key).Some? ==>
              var rec := serverMap[serverType][key];
              rec.ClientCount == clientCount
              && ops == [PutLeased(GetEtcdClientKey(rec), rec, LeaseOf(serverIdMap, serverName))])
    {
      ops := UpdateAt(serverType, Join([serverType, serverName], PathSeparator), serverName, clientCount);
    }
  }
}
