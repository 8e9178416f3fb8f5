/**
 * The connection synchronizer: which call into the connection manager a
 * membership change causes, given this node's type and the peer's record.
 */
module Sync {
  import opened Types

  /** A call into the connection manager (AddClient / RemoveClient). */
  datatype Action = AddClient(name: string, addr: string) | RemoveClient(name: string)

  const FrontServer: string := "frontServer"
  const ChatServer: string := "chatServer"

  /** The pairs of node types that keep a peer connection: front to every
      non-front node, and chat to every front node. */
  predicate Connects(selfType: string, peerType: string)
  {
    || (selfType == FrontServer && peerType != FrontServer)
    || (selfType == ChatServer && peerType == FrontServer)
  }

  /** addClusterClient: the calls made when `peer` joins or is updated. */
  function JoinActions(selfType: string, peer: ServerInfo): (r: seq<Action>)
    ensures |r| <= 1
    ensures r != [] <==> peer.ListenAddr != "" && Connects(selfType, peer.Type)
    ensures r != [] ==> r == [AddClient(peer.Name, peer.ListenAddr)]
  {
    if selfType == FrontServer && peer.Type != FrontServer then
      if peer.ListenAddr != "" then [AddClient(peer.Name, peer.ListenAddr)] else []
    else if selfType == ChatServer then
      if peer.Type == FrontServer then
        if peer.ListenAddr != "" then [AddClient(peer.Name, peer.ListenAddr)] else []
      else []
    else []
  }

  /** removeClusterClient: the calls made when `peer` leaves. A front node
      checks the listen address; a chat node removes a front peer regardless. */
  function LeaveActions(selfType: string, peer: ServerInfo): (r: seq<Action>)
    ensures |r| <= 1
    ensures r != [] <==> Connects(selfType, peer.Type) && (peer.ListenAddr != "" || selfType == ChatServer)
    ensures r != [] ==> r == [RemoveClient(peer.Name)]
  {
    if selfType == FrontServer && peer.Type != FrontServer then
      if peer.ListenAddr != "" then [RemoveClient(peer.Name)] else []
    else if selfType == ChatServer then
      if peer.Type == FrontServer then [RemoveClient(peer.Name)] else []
    else []
  }

  /** Every connection opened on join is closed when the same record leaves. */
  lemma LeaveClosesWhatJoinOpened(selfType: string, peer: ServerInfo)
    requires JoinActions(selfType, peer) != []
    ensures LeaveActions(selfType, peer) == [RemoveClient(peer.Name)]
  {
  }

  /** The asymmetry: a chat node removes a front peer with no listen address,
      although it never added one. */
  lemma LeaveWithoutJoin(peer: ServerInfo)
    requires peer.Type == FrontServer && peer.ListenAddr == ""
    ensures JoinActions(ChatServer, peer) == []
    ensures LeaveActions(ChatServer, peer) == [RemoveClient(peer.Name)]
  {
  }

  /** A node type outside the matrix never calls the connection manager. */
  lemma UncoveredTypeIsNoOp(selfType: string, peer: ServerInfo)
    requires selfType != FrontServer && selfType != ChatServer
    ensures JoinActions(selfType, peer) == [] && LeaveActions(selfType, peer) == []
  {
  }
}
