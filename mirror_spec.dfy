/**
 * The membership mirror as a value: prefix -> (directory key -> record),
 * with the effect of each watch event and of a whole event stream.
 */
module MirrorSpec {
  import opened Types
  import opened Sync

  type Mirror = map<string, map<string, ServerInfo>>

  /** One entry of a bulk read; `value` is None for a nil value. */
  datatype KeyValue = KeyValue(key: string, value: Option<string>)

  /** One watch event: its type ("PUT", "DELETE", ...), key and raw value. */
  datatype Event = Event(vtype: string, key: string, value: string)

  /** The mirror together with the calls made into the connection manager. */
  datatype State = State(mirror: Mirror, actions: seq<Action>)

  /** serverMap[prefix][key], with Go's nil-map lookups. */
  function Lookup(m: Mirror, prefix: string, key: string): (r: Option<ServerInfo>)
    ensures r.Some? <==> prefix in m && key in m[prefix]
    ensures r.Some? ==> r.value == m[prefix][key]
  {
    if prefix in m && key in m[prefix] then Some(m[prefix][key]) else None
  }

  /** serverMap[prefix][key] = info. */
  function PutMirror(m: Mirror, prefix: string, key: string, info: ServerInfo): (r: Mirror)
    requires prefix in m
    ensures r.Keys == m.Keys
    ensures r[prefix].Keys == m[prefix].Keys + {key}
    ensures r[prefix][key] == info
    ensures forall p, k :: p in m && k in m[p] && (p != prefix || k != key) ==> k in r[p] && r[p][k] == m[p][k]
    ensures forall p :: p in m && p != prefix ==> r[p] == m[p]
  {
    m[prefix := m[prefix][key := info]]
  }

  /** delete(serverMap[prefix], key); a missing prefix is a nil map, and the delete does nothing. */
  function DelMirror(m: Mirror, prefix: string, key: string): (r: Mirror)
    ensures r.Keys == m.Keys
    ensures prefix in m ==> r[prefix].Keys == m[prefix].Keys - {key}
    ensures forall p, k :: p in m && k in m[p] && (p != prefix || k != key) ==> k in r[p] && r[p][k] == m[p][k]
    ensures forall p :: p in m && p != prefix ==> r[p] == m[p]
  {
    if prefix in m then m[prefix := m[prefix] - {key}] else m
  }

  /** The first step of watchServer: the map for `prefix` is created if missing, kept otherwise. */
  function EnsurePrefix(m: Mirror, prefix: string): (r: Mirror)
    ensures prefix in r && r.Keys == m.Keys + {prefix}
    ensures prefix in m ==> r == m
    ensures prefix !in m ==> r[prefix] == map[] && forall p :: p in m ==> r[p] == m[p]
  {
    if prefix in m then m else m[prefix := map[]]
  }

  /** The node's own key was deleted while its record was mirrored. */
  predicate SelfLost(m: Mirror, prefix: string, key: string, selfType: string, selfName: string)
  {
    Lookup(m, prefix, key).Some? && Join([selfType, selfName], PathSeparator) == key
  }

  /** addServerList: a parse failure changes nothing; otherwise insert or overwrite, then the join hook. */
  function AddEffect(st: State, selfType: string, parse: string -> Option<ServerInfo>,
                     prefix: string, key: string, val: string): (r: State)
    requires parse(val).Some? ==> prefix in st.mirror
    ensures parse(val).None? ==> r == st
    ensures parse(val).Some? ==>
      r.mirror == PutMirror(st.mirror, prefix, key, parse(val).value)
      && r.actions == st.actions + JoinActions(selfType, parse(val).value)
  {
    match parse(val)
    case None => st
    case Some(info) => State(PutMirror(st.mirror, prefix, key, info), st.actions + JoinActions(selfType, info))
  }

  /** delServerList: remove the key; the leave hook runs only for a record that was there. */
  function DelEffect(st: State, selfType: string, prefix: string, key: string): (r: State)
    ensures r.mirror == DelMirror(st.mirror, prefix, key)
    ensures Lookup(st.mirror, prefix, key).None? ==> r.actions == st.actions
    ensures Lookup(st.mirror, prefix, key).Some? ==>
      r.actions == st.actions + LeaveActions(selfType, st.mirror[prefix][key])
  {
    var hook := match Lookup(st.mirror, prefix, key)
      case None => []
      case Some(info) => LeaveActions(selfType, info);
    State(DelMirror(st.mirror, prefix, key), st.actions + hook)
  }

  /** A PUT whose value parses: the only event that writes into the prefix map. */
  predicate ParsedPut(e: Event, parse: string -> Option<ServerInfo>)
  {
    e.vtype == "PUT" && parse(e.value).Some?
  }

  /** watchHandler: dispatch on the event type; other types change nothing. */
  function HandleEvent(st: State, selfType: string, parse: string -> Option<ServerInfo>,
                       prefix: string, e: Event): (r: State)
    requires ParsedPut(e, parse) ==> prefix in st.mirror
    ensures r.mirror.Keys == st.mirror.Keys
    ensures e.vtype != "PUT" && e.vtype != "DELETE" ==> r == st
    ensures e.vtype == "PUT" && parse(e.value).None? ==> r == st
    ensures ParsedPut(e, parse) ==> Lookup(r.mirror, prefix, e.key) == parse(e.value)
    ensures e.vtype == "DELETE" ==> Lookup(r.mirror, prefix, e.key).None?
    ensures |st.actions| <= |r.actions| && r.actions[..|st.actions|] == st.actions
  {
    if e.vtype == "PUT" then AddEffect(st, selfType, parse, prefix, e.key, e.value)
    else if e.vtype == "DELETE" then DelEffect(st, selfType, prefix, e.key)
    else st
  }

  /** The events of one prefix applied in delivery order. */
  function HandleAll(st: State, selfType: string, parse: string -> Option<ServerInfo>,
                     prefix: string, es: seq<Event>): (r: State)
    requires prefix in st.mirror
    ensures r.mirror.Keys == st.mirror.Keys
    ensures forall p :: p in st.mirror && p != prefix ==> r.mirror[p] == st.mirror[p]
    ensures |st.actions| <= |r.actions| && r.actions[..|st.actions|] == st.actions
    decreases |es|
  {
    if |es| == 0 then st
    else HandleEvent(HandleAll(st, selfType, parse, prefix, es[..|es| - 1]), selfType, parse, prefix, es[|es| - 1])
  }

  lemma HandleAllSnoc(st: State, selfType: string, parse: string -> Option<ServerInfo>,
                      prefix: string, es: seq<Event>, e: Event)
    requires prefix in st.mirror
    ensures HandleAll(st, selfType, parse, prefix, es + [e])
         == HandleEvent(HandleAll(st, selfType, parse, prefix, es), selfType, parse, prefix, e)
  {
    assert (es + [e])[..|es|] == es;
  }

  /** The bulk read as the PUT events it feeds to the insert path; nil values are skipped. */
  function BulkEvents(kvs: seq<KeyValue>): (es: seq<Event>)
    ensures |es| <= |kvs|
    ensures forall i :: 0 <= i < |es| ==> es[i].vtype == "PUT"
    decreases |kvs|
  {
    if |kvs| == 0 then []
    else
      var last := kvs[|kvs| - 1];
      BulkEvents(kvs[..|kvs| - 1])
        + (match last.value case None => [] case Some(v) => [Event("PUT", last.key, v)])
  }

  /** One more entry of a bulk read: a nil value changes nothing, otherwise it goes through addServerList. */
  lemma BulkStep(st: State, selfType: string, parse: string -> Option<ServerInfo>,
                 prefix: string, kvs: seq<KeyValue>, i: nat)
    requires prefix in st.mirror && i < |kvs|
    ensures kvs[i].value.None? ==>
      HandleAll(st, selfType, parse, prefix, BulkEvents(kvs[..i + 1]))
        == HandleAll(st, selfType, parse, prefix, BulkEvents(kvs[..i]))
    ensures kvs[i].value.Some? ==>
      HandleAll(st, selfType, parse, prefix, BulkEvents(kvs[..i + 1]))
        == AddEffect(HandleAll(st, selfType, parse, prefix, BulkEvents(kvs[..i])),
                     selfType, parse, prefix, kvs[i].key, kvs[i].value.value)
  {
    assert kvs[..i + 1][..i] == kvs[..i];
    var before := BulkEvents(kvs[..i]);
    match kvs[i].value
    case None =>
      assert BulkEvents(kvs[..i + 1]) == before;
    case Some(v) =>
      var e := Event("PUT", kvs[i].key, v);
      assert BulkEvents(kvs[..i + 1]) == before + [e];
      HandleAllSnoc(st, selfType, parse, prefix, before, e);
  }

  /** The last event of `es` that decides `key`: None when there is none, Some(None) for a
      DELETE, Some(Some(info)) for a PUT whose value parses to info. */
  function LastEffect(es: seq<Event>, key: string, parse: string -> Option<ServerInfo>): Option<Option<ServerInfo>>
    decreases |es|
  {
    if |es| == 0 then None
    else
      var e := es[|es| - 1];
      if e.key == key && ParsedPut(e, parse) then Some(parse(e.value))
      else if e.key == key && e.vtype == "DELETE" then Some(None)
      else LastEffect(es[..|es| - 1], key, parse)
  }

  /** After a stream of events, each key holds the record of its last parsed PUT, is absent after
      a last DELETE, and keeps its earlier entry when no event decided it. */
  lemma {:induction false} HandleAllAt(st: State, selfType: string, parse: string -> Option<ServerInfo>,
                                       prefix: string, es: seq<Event>, key: string)
    requires prefix in st.mirror
    ensures var r := HandleAll(st, selfType, parse, prefix, es).mirror[prefix];
      match LastEffect(es, key, parse)
      case None => (key in r <==> key in st.mirror[prefix]) && (key in r ==> r[key] == st.mirror[prefix][key])
      case Some(None) => key !in r
      case Some(Some(info)) => key in r && r[key] == info
    decreases |es|
  {
    if |es| > 0 {
      HandleAllAt(st, selfType, parse, prefix, es[..|es| - 1], key);
    }
  }

  /** A DELETE applied twice is the DELETE applied once: no hook runs the second time. */
  lemma DeleteIdempotent(st: State, selfType: string, prefix: string, key: string)
    ensures DelEffect(DelEffect(st, selfType, prefix, key), selfType, prefix, key)
         == DelEffect(st, selfType, prefix, key)
  {
    var once := DelEffect(st, selfType, prefix, key);
    assert Lookup(once.mirror, prefix, key).None?;
    if prefix in once.mirror {
      assert once.mirror[prefix] - {key} == once.mirror[prefix];
    }
  }

  /** The update UpdateServerInfo applies: the record at serverMap[serverType][lookupKey],
      when present, gets the new client count and nothing else changes. */
  function UpdateCount(m: Mirror, serverType: string, lookupKey: string, clientCount: int): (r: Mirror)
    ensures r.Keys == m.Keys
    ensures forall p :: p in m ==> r[p].Keys == m[p].Keys
    ensures Lookup(m, serverType, lookupKey).Some? ==>
      r[serverType][lookupKey].ClientCount == clientCount
      && r[serverType][lookupKey].(ClientCount := m[serverType][lookupKey].ClientCount) == m[serverType][lookupKey]
    ensures forall p, k :: p in m && k in m[p] && (p != serverType || k != lookupKey) ==> k in r[p] && r[p][k] == m[p][k]
    ensures Lookup(m, serverType, lookupKey).None? ==> r == m
  {
    if serverType in m && lookupKey in m[serverType] then
      m[serverType := m[serverType][lookupKey := m[serverType][lookupKey].(ClientCount := clientCount)]]
    else m
  }

  /** Every key of a prefix map is a directory key "type/name". */
  predicate KeysAreDirectoryKeys(m: Mirror)
  {
    forall p, k :: p in m && k in m[p] ==> '/' in k
  }

  /** As written, UpdateServerInfo looks up the bare server name; on a mirror whose keys are
      directory keys it never finds a record, so the count update is lost. */
  lemma {:induction false} UpdateByNameIsNoOp(m: Mirror, serverType: string, serverName: string, clientCount: int)
    requires KeysAreDirectoryKeys(m)
    requires '/' !in serverName
    ensures UpdateCount(m, serverType, serverName, clientCount) == m
  {
    if serverType in m {
      assert serverName !in m[serverType];
    }
  }

  /** The concrete case: chat node "c1" mirrored under "chatServer/c1" keeps its count. */
  lemma UpdateByNameMissesRecord()
    ensures var rec := ServerInfo("c1", ChatServer, "", "", "", 0, 3, 100, "g");
      var m := map[ChatServer := map["chatServer/c1" := rec]];
      UpdateCount(m, ChatServer, "c1", 5) == m && m[ChatServer]["chatServer/c1"].ClientCount != 5
  {
    var rec := ServerInfo("c1", ChatServer, "", "", "", 0, 3, 100, "g");
    var m := map[ChatServer := map["chatServer/c1" := rec]];
    assert "c1" != "chatServer/c1";
    assert Lookup(m, ChatServer, "c1").None?;
  }

  /** Looked up by the directory key `type/name`, the update reaches the record registered under it. */
  lemma UpdateByKeyReachesRecord(m: Mirror, rec: ServerInfo, clientCount: int)
    requires rec.Type in m && GetEtcdClientKey(rec) in m[rec.Type]
    ensures var r := UpdateCount(m, rec.Type, Join([rec.Type, rec.Name], PathSeparator), clientCount);
      r[rec.Type][GetEtcdClientKey(rec)].ClientCount == clientCount
  {
  }
}
