/** Online sessions and their manager (wssession.go). */
module Sessions {
  import opened GoTime
  import opened Protocol
  import opened PushPermission
  import opened Results
  import opened SessionRegistry

  class Session {
    const node: string
    const user: string
    const token: nat
    const nodeId: NodeId
    const natType: int
    const ipv4: string
    var version: string
    var lanIP: string
    var hasIPv4: int
    var hasUPNPorNATPMP: int
    var ipv6: string
    var majorVer: int
    var relayTime: int
    var running: bool
    var writeCh: seq<Message>

    constructor (node: string, user: string, token: nat, nodeId: NodeId, natType: int, ipv4: string, version: string,
                 relayTime: int)
      ensures this.node == node && this.user == user && this.token == token && this.nodeId == nodeId
      ensures this.natType == natType && this.ipv4 == ipv4 && this.relayTime == relayTime
      ensures this.version == version && lanIP == ipv6 == "" && hasIPv4 == hasUPNPorNATPMP == majorVer == 0
      ensures running && writeCh == []
    {
      this.node, this.user, this.token, this.nodeId := node, user, token, nodeId;
      this.natType, this.ipv4, this.relayTime := natType, ipv4, relayTime;
      this.version, lanIP, ipv6 := version, "", "";
      hasIPv4, hasUPNPorNATPMP, majorVer := 0, 0, 0;
      running, writeCh := true, [];
    }

    /** What a query with this token learns: the IPv6 address only if it is the node's own token. */
    function Disclosed(given: nat): PeerInfo
      reads this
    {
      PeerInfo(version, ipv4, lanIP, hasIPv4, hasUPNPorNATPMP, natType, if given == token then ipv6 else "")
    }

    /** write and writeBuff: queue a message unless the session has ended. */
    method Write(msg: Message)
      modifies this`writeCh
      ensures writeCh == if running then old(writeCh) + [msg] else old(writeCh)
    {
      if running {
        writeCh := writeCh + [msg];
      }
    }
  }

  datatype LoginError = NodeNameTooShort | InvalidToken

  class SessionManager {
    const nodeNameToID: string -> NodeId
    var allSessions: map<NodeId, Session>
    var pushPermission: Table

    constructor (nodeNameToID: string -> NodeId)
      ensures Valid() && allSessions == map[] && pushPermission == map[]
      ensures this.nodeNameToID == nodeNameToID
    {
      this.nodeNameToID := nodeNameToID;
      allSessions, pushPermission := map[], map[];
    }

    /** Every session that is online runs, and sits under the id of its own node name. */
    ghost predicate Valid()
      reads this, allSessions.Values
    {
      forall id :: id in allSessions ==>
        allSessions[id].running && allSessions[id].nodeId == id == nodeNameToID(allSessions[id].node)
    }

    ghost function Outboxes(): (outs: Outboxes)
      reads this, allSessions.Values
      ensures outs.Keys == allSessions.Keys
    {
      map id | id in allSessions :: allSessions[id].writeCh
    }

    /**
      * handleLogin: check the name and the token, resolve the owner, and register a new session. `owner` is the
      * user whose token this is, if any; `day` is how far back one calendar day reaches.
      */
    method HandleLogin(node: string, token: nat, natType: int, ipv4: string, version: string, owner: Option<string>,
                       gToken: nat, gUser: string, now: Time, day: nat)
      returns (r: Result<Session, LoginError>)
      requires Valid()
      modifies this`allSessions
      ensures Valid()
      ensures r.Err? ==> allSessions == old(allSessions)
      ensures r == Err(NodeNameTooShort) <==> |node| < 8
      ensures r == Err(InvalidToken) <==> |node| >= 8 && token != gToken && owner == None
      ensures r.Ok? ==>
        var s := r.value;
        && fresh(s) && s.node == node && s.nodeId == nodeNameToID(node) && s.natType == natType && s.ipv4 == ipv4
        && s.version == version && s.token == token
        && s.user == (if owner.Some? then owner.value else gUser)
        && s.relayTime == now - day && s.writeCh == [LoginRsp]
        && allSessions == Registered(old(allSessions), s.nodeId, s) == old(allSessions)[nodeNameToID(node) := s]
    {
      if |node| < 8 {
        return Err(NodeNameTooShort);
      }
      if token != gToken && owner == None {
        return Err(InvalidToken);
      }
      var user := if owner.Some? then owner.value else gUser;
      var s := new Session(node, user, token, nodeNameToID(node), natType, ipv4, version, now - day);
      allSessions := allSessions[s.nodeId := s];
      s.Write(LoginRsp);
      return Ok(s);
    }

    /** The end of readLoop: the session stops, leaves the registry if still in it, and loses its permission. */
    method CleanUp(s: Session)
      requires Valid()
      modifies this, s`running
      ensures Valid() && !s.running
      ensures allSessions == CleanedUp(old(allSessions), s.nodeId, s)
      ensures allSessions == if s.nodeId in old(allSessions) && old(allSessions)[s.nodeId] == s
                             then old(allSessions) - {s.nodeId} else old(allSessions)
      ensures pushPermission == old(pushPermission) - {s.nodeId}
    {
      s.running := false;
      if s.nodeId in allSessions && allSessions[s.nodeId] == s {
        allSessions := allSessions - {s.nodeId};
      }
      pushPermission := pushPermission - {s.nodeId};
    }

    /** Queue a message for a node if it is online. */
    method SendTo(id: NodeId, msg: Message)
      requires Valid()
      modifies allSessions.Values`writeCh
      ensures Valid() && Outboxes() == Queued(old(Outboxes()), id, msg)
      ensures forall k :: k in allSessions ==>
        allSessions[k].writeCh == old(allSessions[k].writeCh) + if k == id then [msg] else []
    {
      if id in allSessions {
        allSessions[id].Write(msg);
      }
    }

    /** pushSDWanRefresh. */
    method PushSDWanRefresh(node: string)
      requires Valid()
      modifies allSessions.Values`writeCh
      ensures Valid() && Outboxes() == Queued(old(Outboxes()), nodeNameToID(node), SdwanRefresh)
      ensures forall k :: k in allSessions ==>
        allSessions[k].writeCh == old(allSessions[k].writeCh) + if k == nodeNameToID(node) then [SdwanRefresh] else []
    {
      SendTo(nodeNameToID(node), SdwanRefresh);
    }
  }
}
