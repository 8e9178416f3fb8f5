/** Records and directory keys of the cluster package. */
module Types {

  datatype Option<T> = None | Some(value: T)

  /** One node's registration record, the value stored under its directory key. */
  datatype ServerInfo = ServerInfo(
    Name: string,
    Type: string,
    TCPAddr: string,
    WSAddr: string,
    ListenAddr: string,
    Weight: int,
    ClientCount: int,
    MaxClientCount: int,
    GlobalId: string)

  /** A write the package issues against the directory. */
  datatype StoreOp =
    | Put(key: string, record: ServerInfo)                     // MarshalKey
    | PutLeased(key: string, record: ServerInfo, lease: int)   // MarshalKeyGrent
    | Delete(key: string)

  const PathSeparator: string := "/"
  const ConfigPath: string := "config"
  const MaxInt32: int := 0x7FFF_FFFF
  /** The client limit every node registers with. */
  const RegisteredMaxClients: int := 65536

  /** strings.Join: the parts with `sep` between each two neighbours. */
  function Join(parts: seq<string>, sep: string): (r: string)
    ensures |parts| == 0 ==> r == ""
    ensures |parts| == 1 ==> r == parts[0]
    ensures |parts| == 2 ==> r == parts[0] + sep + parts[1]
  {
    if |parts| == 0 then ""
    else if |parts| == 1 then parts[0]
    else parts[0] + sep + Join(parts[1..], sep)
  }

  /** The directory key `type/name` a record is registered under. */
  function GetEtcdClientKey(s: ServerInfo): (k: string)
    ensures k == s.Type + "/" + s.Name
    ensures |k| == |s.Type| + 1 + |s.Name| && k[|s.Type|] == '/'
  {
    Join([s.Type, s.Name], PathSeparator)
  }

  /** The directory key `config/name` of a configuration entry. */
  function GetConfigPath(configName: string): (p: string)
    ensures p == "config/" + configName
  {
    Join([ConfigPath, configName], PathSeparator)
  }

  /** The record a node writes for itself at start-up. */
  function RegisterRecord(name: string, serverType: string, tcpAddr: string, wsAddr: string,
                          listenAddr: string, globalId: string): (s: ServerInfo)
    ensures s.Name == name && s.Type == serverType && s.GlobalId == globalId
    ensures s.ClientCount == 0 && s.ClientCount < s.MaxClientCount
    ensures GetEtcdClientKey(s) == serverType + "/" + name
  {
    ServerInfo(name, serverType, tcpAddr, wsAddr, listenAddr, 0, 0, RegisteredMaxClients, globalId)
  }

  /** The key a node compares against on DELETE is the key it registered under. */
  lemma SelfKeyIsRegisteredKey(selfType: string, selfName: string, tcpAddr: string, wsAddr: string,
                               listenAddr: string, globalId: string)
    ensures Join([selfType, selfName], PathSeparator)
         == GetEtcdClientKey(RegisterRecord(selfName, selfType, tcpAddr, wsAddr, listenAddr, globalId))
  {
  }

  /** While no type contains the separator, a directory key determines the (type, name) pair. */
  lemma KeyInjective(a: ServerInfo, b: ServerInfo)
    requires '/' !in a.Type && '/' !in b.Type
    requires GetEtcdClientKey(a) == GetEtcdClientKey(b)
    ensures a.Type == b.Type && a.Name == b.Name
  {
    var k := GetEtcdClientKey(a);
    assert |a.Type| == |b.Type|;
    assert a.Type == k[..|a.Type|] == b.Type;
    assert a.Name == k[|a.Type| + 1..] == b.Name;
  }

  /** A configuration path coincides with a membership key only for a node of type "config". */
  lemma ConfigPathIsNotMemberKey(configName: string, s: ServerInfo)
    requires '/' !in s.Type
    requires GetConfigPath(configName) == GetEtcdClientKey(s)
    ensures s.Type == ConfigPath && s.Name == configName
  {
    var c := ServerInfo(configName, ConfigPath, "", "", "", 0, 0, 0, "");
    KeyInjective(s, c);
  }
}
