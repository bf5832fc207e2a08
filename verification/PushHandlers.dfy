/** The push and query handlers (pushhandler.go, queryhandler.go) on the shared sessions, each run as one step. */
module PushHandlers {
  import opened GoTime
  import opened Protocol
  import opened PushPermission
  import opened Results
  import opened Sessions

  /** The body of a connect request. */
  datatype ConnectReq = ConnectReq(token: nat, fromToken: nat)

  /** A push message; the body matters only for a connect request, and may fail to parse. */
  datatype Push = Push(from: NodeId, to: NodeId, subType: nat, connect: Option<ConnectReq>)

  datatype Outcome = Unsupported | PeerOffline | BadRequest | ConnectDenied | Denied | Forwarded

  /** Whether a one-time token is good for a key at an instant. */
  type Verifier = (nat, nat, Time) -> bool

  predicate ConnectAllowed(verify: Verifier, req: ConnectReq, key: nat, now: Time) {
    verify(req.token, key, now) || key == req.fromToken
  }

  /** The outcome, given the keys of the online nodes, the table, and the instants of the checks. */
  function PushOutcome(keys: map<NodeId, nat>, t: Table, p: Push, verify: Verifier, now: Time): Outcome {
    if !IsSupportMsg(p.subType) then Unsupported
    else if p.to !in keys then PeerOffline
    else if p.subType == MSG_PUSH_CONNECT_REQ then
      if p.connect == None then BadRequest
      else if ConnectAllowed(verify, p.connect.value, keys[p.to], now) then Forwarded
      else ConnectDenied
    else if IsByPassMsg(p.subType) || Granted(t, p.from, now) then Forwarded
    else Denied
  }

  /** The table afterwards: both directions granted, an expired entry dropped, or nothing changed. */
  function PushTable(t: Table, p: Push, outcome: Outcome, now: Time, first: Time, second: Time): Table {
    if outcome.Forwarded? && p.subType == MSG_PUSH_CONNECT_REQ then
      Put(Put(t, p.from, p.to, first), p.to, p.from, second)
    else if outcome.Denied? then AfterCheck(t, p.from, now)
    else t
  }

  ghost function Keys(mgr: SessionManager): map<NodeId, nat>
    reads mgr`allSessions
  {
    map id | id in mgr.allSessions :: mgr.allSessions[id].token
  }

  /**
    * pushHandler.handleMessage: the readings are those of the check and of the two grants. The message reaches the
    * peer exactly when it is forwarded, and the sender is told; no other queue changes.
    */
  method HandlePush(mgr: SessionManager, sender: Session, p: Push, verify: Verifier,
                    now: Time, first: Time, second: Time)
    returns (outcome: Outcome)
    requires mgr.Valid()
    modifies mgr`pushPermission, mgr.allSessions.Values`writeCh, sender`writeCh
    ensures mgr.Valid() && mgr.allSessions == old(mgr.allSessions)
    ensures outcome == PushOutcome(Keys(mgr), old(mgr.pushPermission), p, verify, now)
    ensures mgr.pushPermission == PushTable(old(mgr.pushPermission), p, outcome, now, first, second)
    ensures p.subType == 1 && p.to in mgr.allSessions && p.connect.Some? ==>
      var req, key := p.connect.value, mgr.allSessions[p.to].token;
      var verified := verify(req.token, key, now) || key == req.fromToken;
      && (outcome.Forwarded? <==> verified) && (outcome.ConnectDenied? <==> !verified)
      && mgr.pushPermission
         == if verified then
              old(mgr.pushPermission)[p.from := PushNodeInfo(p.to, first + 60_000_000_000)]
                                     [p.to := PushNodeInfo(p.from, second + 60_000_000_000)]
            else old(mgr.pushPermission)
    ensures outcome.Unsupported? <==> p.subType !in {0, 1, 2, 3, 4, 5, 6, 8, 12, 13, 14, 15, 18, 22}
    ensures outcome.PeerOffline? <==> !outcome.Unsupported? && p.to !in mgr.allSessions
    ensures outcome.BadRequest? <==> p.subType == 1 && p.to in mgr.allSessions && p.connect == None
    ensures outcome.Unsupported? || outcome.PeerOffline? || outcome.BadRequest? ==>
      mgr.pushPermission == old(mgr.pushPermission)
    ensures p.subType in {13, 18} && p.to in mgr.allSessions ==>
      outcome.Forwarded? && mgr.pushPermission == old(mgr.pushPermission)
    ensures p.subType in {0, 2, 3, 4, 5, 6, 8, 12, 14, 15, 22} && p.to in mgr.allSessions ==>
      var t := old(mgr.pushPermission);
      var live := p.from in t && now < t[p.from].expiredAt;
      && (outcome.Forwarded? <==> live) && (outcome.Denied? <==> !live)
      && mgr.pushPermission == if live then t else t - {p.from}
    ensures var forwarded := if outcome.Forwarded? then [Pushed(p.from, p.to, p.subType)] else [];
            var reply := if outcome.BadRequest? || !sender.running then []
                         else [PushRsp(if outcome.Forwarded? then 0 else 1)];
            && (forall id :: id in mgr.allSessions && mgr.allSessions[id] != sender ==>
                  mgr.allSessions[id].writeCh
                    == old(mgr.allSessions[id].writeCh) + if id == p.to then forwarded else [])
            && sender.writeCh == old(sender.writeCh)
                 + (if p.to in mgr.allSessions && mgr.allSessions[p.to] == sender then forwarded else []) + reply
  {
    hide PushOutcome, PushTable;
    outcome := Admit(mgr, p, verify, now, first, second);
    if outcome.BadRequest? {
      return;
    }
    if outcome.Forwarded? {
      mgr.allSessions[p.to].Write(Pushed(p.from, p.to, p.subType));
      sender.Write(PushRsp(0));
    } else {
      sender.Write(PushRsp(1));
    }
  }

  /** Each kind of message by itself: which are let through, and what is written. */
  lemma PushMeans(keys: map<NodeId, nat>, t: Table, p: Push, verify: Verifier, now: Time, first: Time, second: Time)
    ensures var outcome := PushOutcome(keys, t, p, verify, now);
            var after := PushTable(t, p, outcome, now, first, second);
            && (outcome.Unsupported? <==> p.subType !in {0, 1, 2, 3, 4, 5, 6, 8, 12, 13, 14, 15, 18, 22})
            && (outcome.PeerOffline? <==> !outcome.Unsupported? && p.to !in keys)
            && (outcome.BadRequest? <==> p.subType == 1 && p.to in keys && p.connect == None)
            && (outcome.Unsupported? || outcome.PeerOffline? || outcome.BadRequest? ==> after == t)
            && (p.subType in {13, 18} && p.to in keys ==> outcome.Forwarded? && after == t)
    ensures p.subType == 1 && p.to in keys && p.connect.Some? ==>
      var outcome := PushOutcome(keys, t, p, verify, now);
      var after := PushTable(t, p, outcome, now, first, second);
      var req, key := p.connect.value, keys[p.to];
      var verified := verify(req.token, key, now) || key == req.fromToken;
      && (outcome.Forwarded? <==> verified) && (outcome.ConnectDenied? <==> !verified)
      && after == if verified then t[p.from := PushNodeInfo(p.to, first + 60_000_000_000)]
                                    [p.to := PushNodeInfo(p.from, second + 60_000_000_000)]
                  else t
    ensures p.subType in {0, 2, 3, 4, 5, 6, 8, 12, 14, 15, 22} && p.to in keys ==>
      var outcome := PushOutcome(keys, t, p, verify, now);
      var after := PushTable(t, p, outcome, now, first, second);
      var live := p.from in t && now < t[p.from].expiredAt;
      && (outcome.Forwarded? <==> live) && (outcome.Denied? <==> !live)
      && after == if live then t else t - {p.from}
  {
  }

  /** Decide on a message, and bring the table up to date. */
  method Admit(mgr: SessionManager, p: Push, verify: Verifier, now: Time, first: Time, second: Time)
    returns (outcome: Outcome)
    modifies mgr`pushPermission
    ensures outcome == PushOutcome(Keys(mgr), old(mgr.pushPermission), p, verify, now)
    ensures mgr.pushPermission == PushTable(old(mgr.pushPermission), p, outcome, now, first, second)
    ensures outcome.Forwarded? ==> p.to in mgr.allSessions
    ensures p.subType == 1 && p.to in mgr.allSessions && p.connect.Some? ==>
      var req, key := p.connect.value, mgr.allSessions[p.to].token;
      var verified := verify(req.token, key, now) || key == req.fromToken;
      && (outcome.Forwarded? <==> verified) && (outcome.ConnectDenied? <==> !verified)
      && mgr.pushPermission
         == if verified then
              old(mgr.pushPermission)[p.from := PushNodeInfo(p.to, first + 60_000_000_000)]
                                     [p.to := PushNodeInfo(p.from, second + 60_000_000_000)]
            else old(mgr.pushPermission)
    ensures outcome.Unsupported? <==> p.subType !in {0, 1, 2, 3, 4, 5, 6, 8, 12, 13, 14, 15, 18, 22}
    ensures outcome.PeerOffline? <==> !outcome.Unsupported? && p.to !in mgr.allSessions
    ensures outcome.BadRequest? <==> p.subType == 1 && p.to in mgr.allSessions && p.connect == None
    ensures outcome.Unsupported? || outcome.PeerOffline? || outcome.BadRequest? ==>
      mgr.pushPermission == old(mgr.pushPermission)
    ensures p.subType in {13, 18} && p.to in mgr.allSessions ==>
      outcome.Forwarded? && mgr.pushPermission == old(mgr.pushPermission)
    ensures p.subType in {0, 2, 3, 4, 5, 6, 8, 12, 14, 15, 22} && p.to in mgr.allSessions ==>
      var t := old(mgr.pushPermission);
      var live := p.from in t && now < t[p.from].expiredAt;
      && (outcome.Forwarded? <==> live) && (outcome.Denied? <==> !live)
      && mgr.pushPermission == if live then t else t - {p.from}
  {
    PushMeans(Keys(mgr), mgr.pushPermission, p, verify, now, first, second);
    hide IsSupportMsg, IsByPassMsg, Put;
    if !IsSupportMsg(p.subType) {
      return Unsupported;
    }
    if p.to !in mgr.allSessions {
      return PeerOffline;
    }
    var peer := mgr.allSessions[p.to];
    if p.subType == MSG_PUSH_CONNECT_REQ {
      if p.connect == None {
        return BadRequest;
      }
      var req := p.connect.value;
      if !(verify(req.token, peer.token, now) || peer.token == req.fromToken) {
        return ConnectDenied;
      }
      mgr.pushPermission := Put(mgr.pushPermission, p.from, p.to, first);
      mgr.pushPermission := Put(mgr.pushPermission, p.to, p.from, second);
    } else if IsByPassMsg(p.subType) {
    } else {
      var granted := CheckPermission(mgr, p.from, now);
      if !granted {
        return Denied;
      }
    }
    return Forwarded;
  }

  /** Look the sender up, compare with the clock, and drop an entry found expired. */
  method CheckPermission(mgr: SessionManager, from: NodeId, now: Time) returns (granted: bool)
    modifies mgr`pushPermission
    ensures granted == Granted(old(mgr.pushPermission), from, now)
    ensures granted <==> from in old(mgr.pushPermission) && now < old(mgr.pushPermission)[from].expiredAt
    ensures mgr.pushPermission == AfterCheck(old(mgr.pushPermission), from, now)
         == if granted then old(mgr.pushPermission) else old(mgr.pushPermission) - {from}
  {
    granted := false;
    if from in mgr.pushPermission {
      if now < mgr.pushPermission[from].expiredAt {
        granted := true;
      } else {
        mgr.pushPermission := mgr.pushPermission - {from};
      }
    }
  }

  datatype QueryOutcome = Offline | QueryDenied | Online

  /**
    * queryHandler.handleMessage: a verified query grants both directions as a connect request does, and learns the
    * peer's addresses, of which IPv6 only with the peer's own token. A denied query gets no answer.
    */
  method HandleQuery(mgr: SessionManager, sender: Session, peerId: NodeId, token: nat, verify: Verifier,
                     now: Time, first: Time, second: Time)
    returns (outcome: QueryOutcome)
    requires mgr.Valid()
    modifies mgr`pushPermission, sender`writeCh
    ensures mgr.Valid() && mgr.allSessions == old(mgr.allSessions)
    ensures outcome.Offline? <==> peerId !in mgr.allSessions
    ensures outcome.Online? <==> peerId in mgr.allSessions && verify(token, mgr.allSessions[peerId].token, now)
    ensures mgr.pushPermission
         == if outcome.Online? then
              old(mgr.pushPermission)[sender.nodeId := PushNodeInfo(peerId, first + 60_000_000_000)]
                                     [peerId := PushNodeInfo(sender.nodeId, second + 60_000_000_000)]
            else old(mgr.pushPermission)
    ensures outcome.QueryDenied? || !sender.running ==> sender.writeCh == old(sender.writeCh)
    ensures outcome.Offline? && sender.running ==> sender.writeCh == old(sender.writeCh) + [PeerInfoRsp(None)]
    ensures outcome.Online? && sender.running ==>
      var peer := mgr.allSessions[peerId];
      var ipv6 := if token == peer.token then peer.ipv6 else "";
      sender.writeCh == old(sender.writeCh)
        + [PeerInfoRsp(Some(PeerInfo(peer.version, peer.ipv4, peer.lanIP, peer.hasIPv4, peer.hasUPNPorNATPMP,
                                     peer.natType, ipv6)))]
  {
    if peerId !in mgr.allSessions {
      sender.Write(PeerInfoRsp(None));
      return Offline;
    }
    var peer := mgr.allSessions[peerId];
    if !verify(token, peer.token, now) {
      return QueryDenied;
    }
    mgr.pushPermission := Put(mgr.pushPermission, sender.nodeId, peerId, first);
    mgr.pushPermission := Put(mgr.pushPermission, peerId, sender.nodeId, second);
    sender.Write(PeerInfoRsp(Some(peer.Disclosed(token))));
    return Online;
  }

  // ---------- serial runs of the handlers ----------

  /** One handler run from start to end, or the clean-up of a disconnected node. */
  datatype Step =
    | PushStep(keys: map<NodeId, nat>, p: Push, verify: Verifier, now: Time, first: Time, second: Time)
    | QueryStep(from: NodeId, to: NodeId, token: nat, key: nat, verify: Verifier, now: Time, first: Time, second: Time)
    | DisconnectStep(id: NodeId, now: Time)

  function AfterStep(t: Table, s: Step): Table {
    match s
    case PushStep(keys, p, verify, now, first, second) =>
      PushTable(t, p, PushOutcome(keys, t, p, verify, now), now, first, second)
    case QueryStep(from, to, token, key, verify, now, first, second) =>
      if verify(token, key, now) then Put(Put(t, from, to, first), to, from, second) else t
    case DisconnectStep(id, _) => t - {id}
  }

  /** The grants, checks and clean-ups a step amounts to. */
  function EventsOf(t: Table, s: Step): seq<Event> {
    match s
    case PushStep(keys, p, verify, now, first, second) =>
      var outcome := PushOutcome(keys, t, p, verify, now);
      if outcome.Forwarded? && p.subType == MSG_PUSH_CONNECT_REQ then
        [Grant(p.from, p.to, first), Grant(p.to, p.from, second)]
      else if outcome.Denied? then [Check(p.from, now)]
      else []
    case QueryStep(from, to, token, key, verify, now, first, second) =>
      if verify(token, key, now) then [Grant(from, to, first), Grant(to, from, second)] else []
    case DisconnectStep(id, now) => [Cleanup(id, now)]
  }

  function TableOf(steps: seq<Step>): Table {
    if steps == [] then map[] else AfterStep(TableOf(steps[..|steps| - 1]), steps[|steps| - 1])
  }

  function HistoryOf(steps: seq<Step>): seq<Event> {
    if steps == [] then []
    else HistoryOf(steps[..|steps| - 1]) + EventsOf(TableOf(steps[..|steps| - 1]), steps[|steps| - 1])
  }

  lemma OneEvent(h: seq<Event>, e: Event)
    ensures TableAfter(h + [e]) == AfterEvent(TableAfter(h), e)
  {
    assert (h + [e])[..|h|] == h;
  }

  lemma TwoEvents(h: seq<Event>, e: Event, f: Event)
    ensures h + [e, f] == (h + [e]) + [f]
  {
  }

  /** The table the handlers leave is the table of their history. */
  lemma {:induction false} TableIsHistory(steps: seq<Step>)
    ensures TableAfter(HistoryOf(steps)) == TableOf(steps)
  {
    hide TableAfter, Put, PushOutcome;
    if steps == [] {
      EmptyHistory();
    } else {
      var h, s := HistoryOf(steps[..|steps| - 1]), steps[|steps| - 1];
      TableIsHistory(steps[..|steps| - 1]);
      var es := EventsOf(TableOf(steps[..|steps| - 1]), s);
      if |es| == 2 {
        assert es == [es[0], es[1]];
        TwoEvents(h, es[0], es[1]);
        OneEvent(h, es[0]);
        OneEvent(h + [es[0]], es[1]);
      } else if |es| == 1 {
        assert es == [es[0]];
        OneEvent(h, es[0]);
      } else {
        assert h + [] == h;
      }
    }
  }

  lemma EmptyHistory()
    ensures TableAfter([]) == map[]
  {
  }

  function Start(s: Step): Time {
    s.now
  }

  function End(s: Step): Time {
    if s.DisconnectStep? then s.now else s.second
  }

  /** Each step reads a clock that does not go back, and starts after the one before has ended. */
  ghost predicate OneAfterTheOther(steps: seq<Step>) {
    && (forall i :: 0 <= i < |steps| && !steps[i].DisconnectStep? ==> steps[i].now <= steps[i].first <= steps[i].second)
    && (forall i, j :: 0 <= i < j < |steps| ==> End(steps[i]) <= Start(steps[j]))
  }

  lemma {:induction false} HistoryIsOrdered(steps: seq<Step>)
    requires OneAfterTheOther(steps)
    ensures Ordered(HistoryOf(steps))
    ensures steps != [] ==>
      forall i :: 0 <= i < |HistoryOf(steps)| ==> HistoryOf(steps)[i].at <= End(steps[|steps| - 1])
  {
    hide EventsOf;
    if steps != [] {
      HistoryIsOrdered(steps[..|steps| - 1]);
      EventsInStep(TableOf(steps[..|steps| - 1]), steps[|steps| - 1]);
    }
  }

  lemma EventsInStep(t: Table, s: Step)
    requires s.DisconnectStep? || s.now <= s.first <= s.second
    ensures Ordered(EventsOf(t, s))
    ensures forall i :: 0 <= i < |EventsOf(t, s)| ==> Start(s) <= EventsOf(t, s)[i].at <= End(s)
  {
    hide PushOutcome;
  }

  /**
    * After any serial run of the handlers, a gated message to an online peer is forwarded exactly when a verified
    * request granted a permission to the node it claims to come from less than a minute ago, and that node has not
    * disconnected since.
    */
  lemma {:induction false} GateIsHistory(steps: seq<Step>, keys: map<NodeId, nat>, p: Push, verify: Verifier, now: Time)
    requires OneAfterTheOther(steps) && (steps == [] || End(steps[|steps| - 1]) <= now)
    requires IsGated(p.subType) && p.to in keys
    ensures PushOutcome(keys, TableOf(steps), p, verify, now).Forwarded?
        <==> exists i: nat :: LiveGrant(HistoryOf(steps), i, p.from, now)
  {
    hide LiveGrant, TableOf, HistoryOf;
    TableIsHistory(steps);
    HistoryIsOrdered(steps);
    NoStepsNoHistory();
    CheckIsHistory(HistoryOf(steps), p.from, now);
  }

  lemma NoStepsNoHistory()
    ensures HistoryOf([]) == []
  {
  }

  /** The clean-up of a node takes its permission, and no other, and is part of the history. */
  lemma DisconnectRevokes(t: Table, id: NodeId, now: Time)
    ensures AfterStep(t, DisconnectStep(id, now)) == t - {id}
    ensures EventsOf(t, DisconnectStep(id, now)) == [Cleanup(id, now)]
  {
  }

  // ---------- where permissions come from ----------

  /** The step passed the test of its own token, and the grant is one of its two. */
  predicate Justifies(s: Step, g: Event) {
    && g.Grant?
    && match s
       case PushStep(keys, p, verify, now, first, second) =>
         && p.subType == 1 && p.to in keys && p.connect.Some?
         && (verify(p.connect.value.token, keys[p.to], now) || keys[p.to] == p.connect.value.fromToken)
         && (g == Grant(p.from, p.to, first) || g == Grant(p.to, p.from, second))
       case QueryStep(from, to, token, key, verify, now, first, second) =>
         verify(token, key, now) && (g == Grant(from, to, first) || g == Grant(to, from, second))
       case DisconnectStep(_, _) => false
  }

  lemma StepGrants(t: Table, s: Step, i: nat)
    requires i < |EventsOf(t, s)| && EventsOf(t, s)[i].Grant?
    ensures Justifies(s, EventsOf(t, s)[i])
  {
    if s.PushStep? {
      PushMeans(s.keys, t, s.p, s.verify, s.now, s.first, s.second);
    }
  }

  /** Every grant in the history of a run comes from a request whose token passed its test. */
  lemma {:induction false} GrantsAreVerified(steps: seq<Step>, i: nat) returns (k: nat)
    requires i < |HistoryOf(steps)| && HistoryOf(steps)[i].Grant?
    ensures k < |steps| && Justifies(steps[k], HistoryOf(steps)[i])
  {
    hide Justifies, EventsOf, TableOf;
    var init, s := steps[..|steps| - 1], steps[|steps| - 1];
    if i < |HistoryOf(init)| {
      k := GrantsAreVerified(init, i);
    } else {
      k := |steps| - 1;
      StepGrants(TableOf(init), s, i - |HistoryOf(init)|);
    }
  }

  /** So a gated message is only forwarded if a verified request named its claimed sender less than a minute ago. */
  lemma GatedWasVerified(steps: seq<Step>, keys: map<NodeId, nat>, p: Push, verify: Verifier, now: Time)
    returns (k: nat, g: Event)
    requires OneAfterTheOther(steps) && (steps == [] || End(steps[|steps| - 1]) <= now)
    requires IsGated(p.subType) && p.to in keys && PushOutcome(keys, TableOf(steps), p, verify, now).Forwarded?
    ensures k < |steps| && Justifies(steps[k], g) && g.key == p.from && now < g.at + 60_000_000_000
  {
    hide Justifies, PushOutcome;
    GateIsHistory(steps, keys, p, verify, now);
    var i: nat :| LiveGrant(HistoryOf(steps), i, p.from, now);
    g := HistoryOf(steps)[i];
    k := GrantsAreVerified(steps, i);
  }
}
