/** The choice of a relay node (relayhandler.go) among the online sessions, in any order the map yields them. */
module Relay {
  import opened GoTime
  import opened Protocol
  import opened Sessions

  const IDLE_TIME: nat := 30 * MINUTE
  const NAT_SYMMETRIC: int := 2

  /** The session may relay between the requester and the peer. */
  predicate Eligible(req: Session, peer: Session, isLoopbackIP: string -> bool, s: Session)
    reads req, s
  {
    && req.majorVer == s.majorVer
    && s.nodeId != req.nodeId && s.nodeId != peer.nodeId
    && s.user == req.user && s.natType != NAT_SYMMETRIC
    && (isLoopbackIP(s.ipv4) || (s.ipv4 != req.ipv4 && s.ipv4 != peer.ipv4))
  }

  /** The ids of the online sessions that may relay. */
  ghost function Candidates(mgr: SessionManager, req: Session, peer: Session, isLoopbackIP: string -> bool): set<NodeId>
    reads mgr, mgr.allSessions.Values, req
  {
    set id | id in mgr.allSessions && Eligible(req, peer, isLoopbackIP, mgr.allSessions[id])
  }

  /** Unused for more than half an hour at the instant of the reading. */
  predicate IdleAt(s: Session, now: Time)
    reads s
  {
    s.relayTime < now - IDLE_TIME
  }

  /** A fair choice: of all that are eligible the least recently used, or one idle for more than half an hour. */
  ghost predicate GoodChoice<R>(times: map<R, int>, eligible: set<R>, chosen: R, at: Time) {
    && chosen in eligible && eligible <= times.Keys
    && ((forall r :: r in eligible ==> times[chosen] <= times[r]) || times[chosen] < at - IDLE_TIME)
  }

  /** When each online session last served as a relay. */
  ghost function RelayTimes(mgr: SessionManager): map<NodeId, int>
    reads mgr, mgr.allSessions.Values
  {
    map id | id in mgr.allSessions :: mgr.allSessions[id].relayTime
  }

  /** The clock as the handler reads it: its i-th reading. */
  ghost predicate NeverBack(clock: nat -> Time) {
    forall i, j :: i <= j ==> clock(i) <= clock(j)
  }

  /**
    * The selection loop. `used` counts its clock readings. Whatever the order of the map: a relay is found exactly
    * when there is a candidate, it is a candidate, and it either is least recently used of all candidates or was
    * idle at one of the readings.
    */
  method SelectRelay(mgr: SessionManager, req: Session, peer: Session, isLoopbackIP: string -> bool, clock: nat -> Time)
    returns (relay: Session?, used: nat)
    requires mgr.Valid() && NeverBack(clock)
    ensures relay == null <==> Candidates(mgr, req, peer, isLoopbackIP) == {}
    ensures relay != null ==>
      && relay.nodeId in Candidates(mgr, req, peer, isLoopbackIP) && mgr.allSessions[relay.nodeId] == relay
      && relay.user == req.user
      && ((forall id :: id in Candidates(mgr, req, peer, isLoopbackIP) ==>
             relay.relayTime <= mgr.allSessions[id].relayTime)
          || (used > 0 && IdleAt(relay, clock(used - 1))))
    ensures relay != null ==>
      && relay.majorVer == req.majorVer && relay.user == req.user && relay.natType != 2
      && relay.nodeId != req.nodeId && relay.nodeId != peer.nodeId
      && (isLoopbackIP(relay.ipv4) || (relay.ipv4 != req.ipv4 && relay.ipv4 != peer.ipv4))
    ensures relay == null ==> forall id :: id in mgr.allSessions ==>
      var s := mgr.allSessions[id];
      || s.majorVer != req.majorVer || s.user != req.user || s.natType == 2
      || s.nodeId == req.nodeId || s.nodeId == peer.nodeId
      || (!isLoopbackIP(s.ipv4) && (s.ipv4 == req.ipv4 || s.ipv4 == peer.ipv4))
    ensures relay != null ==> used > 0
    ensures relay != null && relay.relayTime >= clock(used - 1) - 1_800_000_000_000 ==>
      forall id :: id in Candidates(mgr, req, peer, isLoopbackIP) ==> relay.relayTime <= mgr.allSessions[id].relayTime
  {
    relay, used := null, 0;
    var todo := mgr.allSessions.Keys;
    while todo != {}
      invariant todo <= mgr.allSessions.Keys
      invariant relay == null <==> Candidates(mgr, req, peer, isLoopbackIP) <= todo
      invariant relay != null ==>
        relay.nodeId in Candidates(mgr, req, peer, isLoopbackIP) && mgr.allSessions[relay.nodeId] == relay
      invariant relay != null ==> relay.nodeId !in todo && used > 0
      invariant relay != null ==> forall id :: id in Candidates(mgr, req, peer, isLoopbackIP) && id !in todo ==>
        relay.relayTime <= mgr.allSessions[id].relayTime
    {
      var id :| id in todo;
      todo := todo - {id};
      var sess := mgr.allSessions[id];
      if req.majorVer != sess.majorVer {
        continue;
      }
      if sess.nodeId == req.nodeId || sess.nodeId == peer.nodeId {
        continue;
      }
      if sess.user != req.user || sess.natType == NAT_SYMMETRIC {
        continue;
      }
      if !isLoopbackIP(sess.ipv4) && (sess.ipv4 == req.ipv4 || sess.ipv4 == peer.ipv4) {
        continue;
      }
      assert id in Candidates(mgr, req, peer, isLoopbackIP);
      if relay == null {
        relay := sess;
      } else if sess.relayTime < relay.relayTime {
        relay := sess;
      }
      used := used + 1;
      if sess.relayTime < clock(used - 1) - IDLE_TIME {
        break;
      }
    }
    if relay == null {
      NobodyPasses(mgr, req, peer, isLoopbackIP);
    }
  }

  lemma NobodyPasses(mgr: SessionManager, req: Session, peer: Session, isLoopbackIP: string -> bool)
    requires Candidates(mgr, req, peer, isLoopbackIP) == {}
    ensures forall id :: id in mgr.allSessions ==>
      var s := mgr.allSessions[id];
      || s.majorVer != req.majorVer || s.user != req.user || s.natType == 2
      || s.nodeId == req.nodeId || s.nodeId == peer.nodeId
      || (!isLoopbackIP(s.ipv4) && (s.ipv4 == req.ipv4 || s.ipv4 == peer.ipv4))
  {
    forall id | id in mgr.allSessions ensures !Eligible(req, peer, isLoopbackIP, mgr.allSessions[id]) {
      assert id !in Candidates(mgr, req, peer, isLoopbackIP);
    }
  }

  datatype RelayReply = PeerOffline | Answered(mode: string, name: string, token: nat)

  lemma ChoiceIsGood(mgr: SessionManager, eligible: set<NodeId>, relay: Session, at: Time)
    requires eligible <= mgr.allSessions.Keys && relay.nodeId in eligible && mgr.allSessions[relay.nodeId] == relay
    requires (forall id :: id in eligible ==> relay.relayTime <= mgr.allSessions[id].relayTime)
             || relay.relayTime < at - IDLE_TIME
    ensures GoodChoice(RelayTimes(mgr), eligible, relay.nodeId, at)
  {
  }

  /** Mark a session of the registry as used at an instant. */
  method MarkUsed(mgr: SessionManager, relay: Session, at: Time)
    requires mgr.Valid() && relay.nodeId in mgr.allSessions && mgr.allSessions[relay.nodeId] == relay
    modifies relay`relayTime
    ensures mgr.Valid() && RelayTimes(mgr) == old(RelayTimes(mgr))[relay.nodeId := at]
  {
    relay.relayTime := at;
  }

  /** Queue the answer; no relay time changes. */
  method Reply(mgr: SessionManager, req: Session, reply: RelayReply)
    requires mgr.Valid() && reply.Answered?
    modifies req`writeCh
    ensures mgr.Valid() && RelayTimes(mgr) == old(RelayTimes(mgr))
    ensures req.writeCh == if req.running then old(req.writeCh) + [RelayNodeRsp(reply.mode, reply.name, reply.token)]
                           else old(req.writeCh)
  {
    req.Write(RelayNodeRsp(reply.mode, reply.name, reply.token));
  }

  /** The handler of a relay request: choose, mark the relay as used now, and answer. */
  method HandleRelayNodeReq(mgr: SessionManager, req: Session, peerId: NodeId, isLoopbackIP: string -> bool,
                            clock: nat -> Time, totp: (nat, Time) -> nat)
    returns (reply: RelayReply, relay: Session?, at: Time)
    requires mgr.Valid() && NeverBack(clock)
    modifies mgr.allSessions.Values`relayTime, req`writeCh
    ensures mgr.Valid() && mgr.allSessions == old(mgr.allSessions)
    ensures reply.PeerOffline? <==> peerId !in mgr.allSessions
    ensures reply.PeerOffline? ==> relay == null && req.writeCh == old(req.writeCh)
    ensures relay == null ==> RelayTimes(mgr) == old(RelayTimes(mgr))
    ensures relay == null && reply.Answered? ==> reply.token == 0
    ensures relay != null ==> reply.Answered?
    ensures reply.Answered? ==>
      var cs := old(Candidates(mgr, req, mgr.allSessions[peerId], isLoopbackIP));
      && (relay == null <==> cs == {})
      && reply.mode == "private" && reply.name == (if relay != null then relay.node else "")
      && req.writeCh == (if req.running then old(req.writeCh) + [RelayNodeRsp(reply.mode, reply.name, reply.token)]
                         else old(req.writeCh))
      && (relay != null ==>
            && relay.nodeId in mgr.allSessions && mgr.allSessions[relay.nodeId] == relay
            && GoodChoice(old(RelayTimes(mgr)), cs, relay.nodeId, at)
            && RelayTimes(mgr) == old(RelayTimes(mgr))[relay.nodeId := at])
    ensures relay != null ==>
      var peer := mgr.allSessions[peerId];
      && relay.majorVer == req.majorVer && relay.user == req.user && relay.natType != 2
      && relay.nodeId != req.nodeId && relay.nodeId != peer.nodeId
      && (isLoopbackIP(relay.ipv4) || (relay.ipv4 != req.ipv4 && relay.ipv4 != peer.ipv4))
    ensures reply.Answered? && relay == null ==> forall id :: id in mgr.allSessions ==>
      var peer, s := mgr.allSessions[peerId], mgr.allSessions[id];
      || s.majorVer != req.majorVer || s.user != req.user || s.natType == 2
      || s.nodeId == req.nodeId || s.nodeId == peer.nodeId
      || (!isLoopbackIP(s.ipv4) && (s.ipv4 == req.ipv4 || s.ipv4 == peer.ipv4))
    ensures relay != null ==> exists i: nat :: reply.token == totp(relay.token, clock(i)) && at == clock(i + 1)
  {
    hide Eligible, GoodChoice, RelayTimes;
    at := clock(0);
    if peerId !in mgr.allSessions {
      return PeerOffline, null, at;
    }
    var used;
    relay, used := SelectRelay(mgr, req, mgr.allSessions[peerId], isLoopbackIP, clock);
    var mode, name, token := "private", "", 0;
    if relay != null {
      name := relay.node;
      token := totp(relay.token, clock(used));
      at := clock(used + 1);
      assert used > 0 ==> clock(used - 1) <= at;
      ChoiceIsGood(mgr, Candidates(mgr, req, mgr.allSessions[peerId], isLoopbackIP), relay, at);
      MarkUsed(mgr, relay, at);
      if relay.user != req.user {
        mode := "public";
      }
    }
    reply := Answered(mode, name, token);
    Reply(mgr, req, reply);
  }
}
