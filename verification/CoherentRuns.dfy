/** The refresh protocol over whole runs: an online node never rests on an answer that has become impossible. */
module CoherentRuns {
  import opened Coherence
  import opened Networks
  import opened Protocol
  import opened Results
  import opened VirtualIp

  /**
    * An online node: its queue, its requests not yet handled, the answers that handlers have built but not yet
    * queued, and the last configuration it received.
    */
  datatype Client = Client(
    user: string, node: string, outbox: seq<Message>, requests: nat, built: seq<SdwanInfo>, last: Option<SdwanInfo>)

  datatype System = System(networks: Networks, clients: map<NodeId, Client>)

  datatype Event =
    | Manage(user: string, request: Request, freshId: NetworkId)
    | Login(user: string, node: string)
    | Logout(id: NodeId)
    | Ask(id: NodeId)
    | Build(id: NodeId, info: SdwanInfo)
    | Queue(id: NodeId, k: nat)
    | Send(id: NodeId, msg: Message)
    | Deliver(id: NodeId)

  /** When an event can happen; a handler builds any answer the store search may find, and queues it some time later. */
  ghost predicate Possible(s: System, e: Event) {
    match e
    case Manage(_, req, freshId) => req.Save? && req.save.id == 0 ==> freshId !in s.networks
    case Login(_, _) => true
    case Build(id, info) =>
      && id in s.clients && s.clients[id].requests > 0
      && info in Answers(s.networks, s.clients[id].user, s.clients[id].node)
    case Queue(id, k) => id in s.clients && k < |s.clients[id].built|
    case Send(id, msg) => id in s.clients && !msg.SdwanInfoRsp?
    case Deliver(id) => id in s.clients && s.clients[id].outbox != []
    case Logout(id) => id in s.clients
    case Ask(id) => id in s.clients
  }

  function OutboxesOf(clients: map<NodeId, Client>): (outs: Outboxes)
    ensures outs.Keys == clients.Keys
  {
    map id | id in clients :: clients[id].outbox
  }

  function WithOutboxes(clients: map<NodeId, Client>, outs: Outboxes): map<NodeId, Client>
    requires clients.Keys == outs.Keys
  {
    map id | id in clients :: clients[id].(outbox := outs[id])
  }

  /** What a client does with the head of its queue: a refresh makes it ask again. */
  function Received(c: Client): Client
    requires c.outbox != []
  {
    var c1 := c.(outbox := c.outbox[1..]);
    match c.outbox[0]
    case SdwanRefresh => c1.(requests := c.requests + 1)
    case SdwanInfoRsp(info) => c1.(last := Some(info))
    case _ => c1
  }

  /** What an event of its own does to a client. */
  function Moved(c: Client, e: Event): Client
    requires e.Queue? ==> e.k < |c.built|
    requires e.Build? ==> c.requests > 0
    requires e.Deliver? ==> c.outbox != []
  {
    match e
    case Ask(_) => c.(requests := c.requests + 1)
    case Build(_, info) => c.(built := c.built + [info], requests := c.requests - 1)
    case Queue(_, k) => c.(outbox := c.outbox + [SdwanInfoRsp(c.built[k])], built := c.built[..k] + c.built[k + 1..])
    case Send(_, msg) => c.(outbox := c.outbox + [msg])
    case Deliver(_) => Received(c)
    case _ => c
  }

  ghost function Next(s: System, e: Event, idOf: string -> NodeId): System
    requires Possible(s, e)
  {
    match e
    case Manage(user, req, freshId) =>
      var effect := EffectOf(s.networks, user, req, freshId);
      System(effect.networks,
             WithOutboxes(s.clients, RefreshAll(OutboxesOf(s.clients), effect.refreshed, idOf)))
    case Login(user, node) => s.(clients := s.clients[idOf(node) := Client(user, node, [], 0, [], None)])
    case Logout(id) => s.(clients := s.clients - {id})
    case _ => s.(clients := s.clients[e.id := Moved(s.clients[e.id], e)])
  }

  /** The newest configuration on its way to the client, or else the last one it received. */
  function Newest(outbox: seq<Message>, last: Option<SdwanInfo>): Option<SdwanInfo> {
    if outbox == [] then last
    else if outbox[|outbox| - 1].SdwanInfoRsp? then Some(outbox[|outbox| - 1].info)
    else Newest(outbox[..|outbox| - 1], last)
  }

  /** The configuration the client will hold once all that is under way has arrived. */
  function Coming(c: Client): Option<SdwanInfo> {
    if c.built == [] then Newest(c.outbox, c.last) else Some(c.built[|c.built| - 1])
  }

  /** A refresh or a request is under way, or the newest answer built for the client is still a possible one. */
  ghost predicate Coherent(st: Networks, c: Client, newest: Option<SdwanInfo>) {
    || c.requests > 0
    || SdwanRefresh in c.outbox
    || newest == None
    || newest.value in Answers(st, c.user, c.node)
  }

  /** A handler builds an answer only while fewer than `bound` answers for the same client wait to be queued. */
  ghost predicate InTurn(s: System, e: Event, bound: nat) {
    e.Build? && e.id in s.clients ==> |s.clients[e.id].built| < bound
  }

  /** The newest answer built for a node since its login, one event later. */
  function BuiltAfter(newest: Option<SdwanInfo>, e: Event, idOf: string -> NodeId, id: NodeId): Option<SdwanInfo> {
    if e.Login? && idOf(e.node) == id then None
    else if e.Build? && e.id == id then Some(e.info)
    else newest
  }

  ghost predicate Invariant(s: System, idOf: string -> NodeId, id: NodeId, newest: Option<SdwanInfo>) {
    && Keyed(s.networks)
    && (id in s.clients ==> idOf(s.clients[id].node) == id && Coherent(s.networks, s.clients[id], newest))
  }

  lemma {:induction false} NewestDelivered(outbox: seq<Message>, last: Option<SdwanInfo>)
    requires outbox != []
    ensures Newest(outbox, last)
         == Newest(outbox[1..], if outbox[0].SdwanInfoRsp? then Some(outbox[0].info) else last)
  {
    var n := |outbox| - 1;
    if n > 0 && !outbox[n].SdwanInfoRsp? {
      NewestDelivered(outbox[..n], last);
      assert outbox[1..][..n - 1] == outbox[..n][1..];
    } else if n == 0 {
      assert outbox[..0] == [] && outbox[1..] == [];
    }
  }

  lemma {:induction false} NewestKept(outbox: seq<Message>, more: seq<Message>, last: Option<SdwanInfo>)
    requires forall m :: m in more ==> !m.SdwanInfoRsp?
    ensures Newest(outbox + more, last) == Newest(outbox, last)
  {
    if more == [] {
      assert outbox + more == outbox;
    } else {
      var n := |more| - 1;
      assert (outbox + more)[..|outbox| + n] == outbox + more[..n];
      assert more[n] in more;
      NewestKept(outbox, more[..n], last);
    }
  }

  lemma ManageKeepsCoherent(s: System, e: Event, idOf: string -> NodeId, id: NodeId, newest: Option<SdwanInfo>)
    requires Invariant(s, idOf, id, newest) && Possible(s, e) && e.Manage? && id in s.clients
    ensures Coherent(Next(s, e, idOf).networks, Next(s, e, idOf).clients[id], newest)
  {
    var effect := EffectOf(s.networks, e.user, e.request, e.freshId);
    var c := s.clients[id];
    RefreshReaches(OutboxesOf(s.clients), effect.refreshed, idOf, id);
    if c.node in effect.refreshed {
      var i :| 0 <= i < |effect.refreshed| && effect.refreshed[i] == c.node;
      assert idOf(effect.refreshed[i]) == id;
    } else {
      OnlyRefreshedAnswersChange(s.networks, e.user, e.request, e.freshId, c.user, c.node);
    }
  }

  lemma ManageKeepsInvariant(s: System, e: Event, idOf: string -> NodeId, id: NodeId, newest: Option<SdwanInfo>)
    requires Invariant(s, idOf, id, newest) && Possible(s, e) && e.Manage?
    ensures Invariant(Next(s, e, idOf), idOf, id, newest)
  {
    hide Coherent, EffectOf, Keyed;
    EffectKeepsKeys(s.networks, e.user, e.request, e.freshId);
    if id in s.clients {
      ManageKeepsCoherent(s, e, idOf, id, newest);
    }
  }

  /** An event of a client keeps it coherent, in whatever order its answers are queued. */
  lemma ClientStaysCoherent(st: Networks, c: Client, e: Event, newest: Option<SdwanInfo>)
    requires Coherent(st, c, newest)
    requires e.Build? ==> c.requests > 0 && e.info in Answers(st, c.user, c.node)
    requires e.Queue? ==> e.k < |c.built|
    requires e.Deliver? ==> c.outbox != []
    ensures Coherent(st, Moved(c, e), if e.Build? then Some(e.info) else newest) && Moved(c, e).node == c.node
  {
    hide Answers;
    if e.Deliver? {
      assert c.outbox == [c.outbox[0]] + c.outbox[1..];
    }
  }

  lemma StepKeepsInvariant(s: System, e: Event, idOf: string -> NodeId, id: NodeId, newest: Option<SdwanInfo>)
    requires Invariant(s, idOf, id, newest) && Possible(s, e)
    ensures Invariant(Next(s, e, idOf), idOf, id, BuiltAfter(newest, e, idOf, id))
  {
    if e.Manage? {
      ManageKeepsInvariant(s, e, idOf, id, newest);
    } else if !e.Login? && !e.Logout? && e.id == id {
      hide Coherent, Answers, Moved;
      ClientStaysCoherent(s.networks, s.clients[id], e, newest);
    }
  }

  // ---------- runs ----------

  ghost predicate PossibleRun(s: System, events: seq<Event>, idOf: string -> NodeId)
    decreases |events|, 0
  {
    events == []
    || (PossibleRun(s, events[..|events| - 1], idOf)
        && Possible(Run(s, events[..|events| - 1], idOf), events[|events| - 1]))
  }

  ghost function Run(s: System, events: seq<Event>, idOf: string -> NodeId): System
    requires PossibleRun(s, events, idOf)
    decreases |events|, 1
  {
    if events == [] then s else Next(Run(s, events[..|events| - 1], idOf), events[|events| - 1], idOf)
  }

  /** At most `bound` handlers work on requests of the same client at once. */
  ghost predicate Orderly(s: System, events: seq<Event>, idOf: string -> NodeId, bound: nat)
    requires PossibleRun(s, events, idOf)
    decreases |events|
  {
    events == []
    || (Orderly(s, events[..|events| - 1], idOf, bound)
        && InTurn(Run(s, events[..|events| - 1], idOf), events[|events| - 1], bound))
  }

  lemma {:induction false} OrderlyStays(s: System, events: seq<Event>, idOf: string -> NodeId, bound: nat, more: nat)
    requires PossibleRun(s, events, idOf) && Orderly(s, events, idOf, bound) && bound <= more
    ensures Orderly(s, events, idOf, more)
  {
    if events != [] {
      OrderlyStays(s, events[..|events| - 1], idOf, bound, more);
    }
  }

  /** The newest answer built for a node since its last login. */
  function LastBuilt(events: seq<Event>, idOf: string -> NodeId, id: NodeId): Option<SdwanInfo> {
    if events == [] then None
    else BuiltAfter(LastBuilt(events[..|events| - 1], idOf, id), events[|events| - 1], idOf, id)
  }

  lemma {:induction false} RunKeepsInvariant(st: Networks, events: seq<Event>, idOf: string -> NodeId, id: NodeId)
    requires Keyed(st) && PossibleRun(System(st, map[]), events, idOf)
    ensures Invariant(Run(System(st, map[]), events, idOf), idOf, id, LastBuilt(events, idOf, id))
    decreases |events|
  {
    hide Possible, Next, BuiltAfter;
    if events != [] {
      var init, e := events[..|events| - 1], events[|events| - 1];
      RunKeepsInvariant(st, init, idOf, id);
      StepKeepsInvariant(Run(System(st, map[]), init, idOf), e, idOf, id, LastBuilt(init, idOf, id));
    }
  }

  /** Nothing is under way for the client. */
  predicate Resting(c: Client) {
    c.outbox == [] && c.requests == 0 && c.built == []
  }

  /** A client with nothing under way that holds a configuration it could not be given now. */
  ghost predicate Stale(s: System, id: NodeId) {
    && id in s.clients && Resting(s.clients[id]) && s.clients[id].last.Some?
    && s.clients[id].last.value !in Answers(s.networks, s.clients[id].user, s.clients[id].node)
  }

  /**
    * From any store, whatever requests, logins and messages follow, by however many handlers and in whatever order
    * their answers are queued, and whatever names hash to the same id: the newest answer built for a node with
    * nothing under way is possible now.
    */
  lemma {:induction false} NewestAnswerIsPossible(st: Networks, events: seq<Event>, idOf: string -> NodeId, id: NodeId)
    requires Keyed(st) && PossibleRun(System(st, map[]), events, idOf)
    requires id in Run(System(st, map[]), events, idOf).clients
    ensures var s := Run(System(st, map[]), events, idOf);
            var c, newest := s.clients[id], LastBuilt(events, idOf, id);
            Resting(c) && newest.Some? ==> newest.value in Answers(s.networks, c.user, c.node)
  {
    RunKeepsInvariant(st, events, idOf, id);
  }

  // ---------- which answer a client ends with ----------

  /** The answer queued last for a node, one event later. */
  function QueuedAfter(
      s: System, queued: Option<SdwanInfo>, e: Event, idOf: string -> NodeId, id: NodeId): Option<SdwanInfo>
    requires e.Queue? ==> e.id in s.clients && e.k < |s.clients[e.id].built|
  {
    if e.Login? && idOf(e.node) == id then None
    else if e.Queue? && e.id == id then Some(s.clients[id].built[e.k])
    else queued
  }

  /** The answer queued last for a node since its last login. */
  ghost function LastQueued(st: Networks, events: seq<Event>, idOf: string -> NodeId, id: NodeId): Option<SdwanInfo>
    requires PossibleRun(System(st, map[]), events, idOf)
    decreases |events|
  {
    if events == [] then None
    else
      var init, e := events[..|events| - 1], events[|events| - 1];
      QueuedAfter(Run(System(st, map[]), init, idOf), LastQueued(st, init, idOf, id), e, idOf, id)
  }

  ghost predicate EndsWith(s: System, id: NodeId, queued: Option<SdwanInfo>) {
    id in s.clients ==> Newest(s.clients[id].outbox, s.clients[id].last) == queued
  }

  /** Whatever a management request queues, no configuration is among it. */
  lemma ManageKeepsNewest(s: System, e: Event, idOf: string -> NodeId, id: NodeId)
    requires Possible(s, e) && e.Manage? && id in s.clients
    ensures var c, d := s.clients[id], Next(s, e, idOf).clients[id];
            d == c.(outbox := d.outbox) && Newest(d.outbox, d.last) == Newest(c.outbox, c.last)
  {
    hide EffectOf;
    var effect := EffectOf(s.networks, e.user, e.request, e.freshId);
    var added := RefreshOnlyAdds(OutboxesOf(s.clients), effect.refreshed, idOf, id);
    NewestKept(s.clients[id].outbox, added, s.clients[id].last);
  }

  /** What an event of the client does to the configuration it will end with: only a queued answer changes it. */
  lemma MovedNewest(c: Client, e: Event)
    requires e.Queue? ==> e.k < |c.built|
    requires e.Build? ==> c.requests > 0
    requires e.Deliver? ==> c.outbox != []
    requires e.Send? ==> !e.msg.SdwanInfoRsp?
    ensures var d := Moved(c, e);
            Newest(d.outbox, d.last) == if e.Queue? then Some(c.built[e.k]) else Newest(c.outbox, c.last)
  {
    if e.Deliver? {
      NewestDelivered(c.outbox, c.last);
    } else if e.Send? {
      NewestKept(c.outbox, [e.msg], c.last);
    }
  }

  lemma StepEndsWith(s: System, e: Event, idOf: string -> NodeId, id: NodeId, queued: Option<SdwanInfo>)
    requires EndsWith(s, id, queued) && Possible(s, e)
    ensures EndsWith(Next(s, e, idOf), id, QueuedAfter(s, queued, e, idOf, id))
  {
    hide Newest, Moved, Answers;
    if e.Manage? {
      if id in s.clients {
        ManageKeepsNewest(s, e, idOf, id);
      }
    } else if e.Login? {
      NothingNewest();
    } else if !e.Logout? && e.id == id {
      MovedNewest(s.clients[id], e);
    }
  }

  lemma NothingNewest()
    ensures Newest([], None) == None
  {
  }

  /** In every run the last configuration a client will receive is the one queued last for it. */
  lemma {:induction false} RunEndsWith(st: Networks, events: seq<Event>, idOf: string -> NodeId, id: NodeId)
    requires PossibleRun(System(st, map[]), events, idOf)
    ensures EndsWith(Run(System(st, map[]), events, idOf), id, LastQueued(st, events, idOf, id))
    decreases |events|
  {
    hide Possible, Next, QueuedAfter;
    if events != [] {
      var init, e := events[..|events| - 1], events[|events| - 1];
      RunEndsWith(st, init, idOf, id);
      StepEndsWith(Run(System(st, map[]), init, idOf), e, idOf, id, LastQueued(st, init, idOf, id));
    }
  }

  /**
    * In every run: a node with nothing under way holds the answer queued last for it. If that is its newest answer
    * it could be given it now, whatever overtook what before, and at other nodes.
    */
  lemma {:induction false} RestingNodesAreCurrent(st: Networks, events: seq<Event>, idOf: string -> NodeId, id: NodeId)
    requires Keyed(st) && PossibleRun(System(st, map[]), events, idOf)
    requires id in Run(System(st, map[]), events, idOf).clients
    ensures var s := Run(System(st, map[]), events, idOf);
            var c, newest := s.clients[id], LastBuilt(events, idOf, id);
            Resting(c) ==>
              && c.last == LastQueued(st, events, idOf, id)
              && (c.last == newest && newest.Some? ==> newest.value in Answers(s.networks, c.user, c.node))
  {
    NewestAnswerIsPossible(st, events, idOf, id);
    RunEndsWith(st, events, idOf, id);
  }

  /** Since the node last logged in, its answers were queued in the order in which they were built. */
  predicate InBuildOrder(events: seq<Event>, idOf: string -> NodeId, id: NodeId) {
    events == []
    || var e := events[|events| - 1];
       (e.Login? && idOf(e.node) == id)
       || ((e.Queue? && e.id == id ==> e.k == 0) && InBuildOrder(events[..|events| - 1], idOf, id))
  }

  /** While the oldest answer is queued first, what comes last is what was built last. */
  lemma MovedComing(c: Client, e: Event)
    requires e.Queue? ==> e.k == 0 < |c.built|
    requires e.Build? ==> c.requests > 0
    requires e.Deliver? ==> c.outbox != []
    requires e.Send? ==> !e.msg.SdwanInfoRsp?
    ensures Coming(Moved(c, e)) == if e.Build? then Some(e.info) else Coming(c)
  {
    MovedNewest(c, e);
    hide Newest;
    if e.Deliver? {
      ReceivedKeepsBuilt(c);
    }
  }

  lemma {:induction false} InOrderComesLast(st: Networks, events: seq<Event>, idOf: string -> NodeId, id: NodeId)
    requires PossibleRun(System(st, map[]), events, idOf) && InBuildOrder(events, idOf, id)
    ensures var s := Run(System(st, map[]), events, idOf);
            id in s.clients ==> Coming(s.clients[id]) == LastBuilt(events, idOf, id)
    decreases |events|
  {
    hide Coming, Moved, Answers;
    if events != [] {
      var init, e := events[..|events| - 1], events[|events| - 1];
      var s := Run(System(st, map[]), init, idOf);
      if e.Login? && idOf(e.node) == id {
        NothingComes(e.user, e.node);
      } else {
        InOrderComesLast(st, init, idOf, id);
        if e.Manage? && id in s.clients {
          ManageKeepsNewest(s, e, idOf, id);
          SameComing(s.clients[id], Next(s, e, idOf).clients[id]);
        } else if !e.Manage? && !e.Login? && !e.Logout? && e.id == id {
          MovedComing(s.clients[id], e);
        }
      }
    }
  }

  lemma NothingComes(user: string, node: string)
    ensures Coming(Client(user, node, [], 0, [], None)) == None
  {
  }

  lemma SameComing(c: Client, d: Client)
    requires d.built == c.built && Newest(d.outbox, d.last) == Newest(c.outbox, c.last)
    ensures Coming(d) == Coming(c)
  {
  }

  /**
    * So a node can be stale only if, since it logged in, an answer was queued before an older one of its own; the
    * number of handlers and what happens to other nodes do not matter.
    */
  lemma {:induction false} StaleWasOvertaken(st: Networks, events: seq<Event>, idOf: string -> NodeId, id: NodeId)
    requires Keyed(st) && PossibleRun(System(st, map[]), events, idOf)
    requires Stale(Run(System(st, map[]), events, idOf), id)
    ensures LastQueued(st, events, idOf, id) != LastBuilt(events, idOf, id) && !InBuildOrder(events, idOf, id)
  {
    RestingNodesAreCurrent(st, events, idOf, id);
    if InBuildOrder(events, idOf, id) {
      InOrderComesLast(st, events, idOf, id);
    }
  }

  /** With at most `bound` handlers per client, at most as many answers wait to be queued. */
  ghost predicate FewBuilt(s: System, bound: nat) {
    forall id :: id in s.clients ==> |s.clients[id].built| <= bound
  }

  lemma StepKeepsFewBuilt(s: System, e: Event, idOf: string -> NodeId, bound: nat)
    requires FewBuilt(s, bound) && Possible(s, e) && InTurn(s, e, bound)
    ensures FewBuilt(Next(s, e, idOf), bound)
  {
    hide EffectOf, RefreshAll, Answers, Received;
    if e.Deliver? {
      ReceivedKeepsBuilt(s.clients[e.id]);
    }
  }

  lemma ReceivedKeepsBuilt(c: Client)
    requires c.outbox != []
    ensures Received(c).built == c.built
  {
  }

  lemma {:induction false} RunKeepsFewBuilt(s: System, events: seq<Event>, idOf: string -> NodeId, bound: nat)
    requires s.clients == map[] && PossibleRun(s, events, idOf) && Orderly(s, events, idOf, bound)
    ensures FewBuilt(Run(s, events, idOf), bound)
    decreases |events|
  {
    hide FewBuilt, Possible, InTurn, Next;
    if events == [] {
      NobodyBuilt(s, bound);
    } else {
      RunKeepsFewBuilt(s, events[..|events| - 1], idOf, bound);
      StepKeepsFewBuilt(Run(s, events[..|events| - 1], idOf), events[|events| - 1], idOf, bound);
    }
  }

  lemma NobodyBuilt(s: System, bound: nat)
    requires s.clients == map[]
    ensures FewBuilt(s, bound)
  {
  }

  lemma OnlyTheOldest(s: System, e: Event)
    requires FewBuilt(s, 1) && Possible(s, e) && e.Queue?
    ensures e.k == 0
  {
  }

  /** A single handler per client queues its answers in build order. */
  lemma {:induction false} OneHandlerKeepsOrder(s: System, events: seq<Event>, idOf: string -> NodeId, id: NodeId)
    requires s.clients == map[] && PossibleRun(s, events, idOf) && Orderly(s, events, idOf, 1)
    ensures InBuildOrder(events, idOf, id)
    decreases |events|
  {
    if events != [] {
      var init, e := events[..|events| - 1], events[|events| - 1];
      OneHandlerKeepsOrder(s, init, idOf, id);
      RunKeepsFewBuilt(s, init, idOf, 1);
      if e.Queue? {
        OnlyTheOldest(Run(s, init, idOf), e);
      }
      hide Possible, InTurn, Next, FewBuilt;
    }
  }

  // ---------- what overtaking costs ----------

  lemma Extend(s: System, events: seq<Event>, e: Event, idOf: string -> NodeId)
    requires PossibleRun(s, events, idOf) && Possible(Run(s, events, idOf), e)
    requires Orderly(s, events, idOf, 2) && InTurn(Run(s, events, idOf), e, 2)
    ensures PossibleRun(s, events + [e], idOf) && Orderly(s, events + [e], idOf, 2)
    ensures Run(s, events + [e], idOf) == Next(Run(s, events, idOf), e, idOf)
  {
    assert (events + [e])[..|events|] == events;
  }

  // A network with one member, before and after an edit of its MTU.

  const NODE: string := "node-one"

  function Sample(mtu: int): Network {
    var gateway := Gateway("10.2.3.254/24", Ipv4(10, 2, 3, 254, 24));
    Network(1, "user", Settings("net", gateway, "fullmesh", "", 0, 0, 1, 0, mtu),
            [Member(NODE, "10.2.3.1", "", 1)])
  }

  function SampleSystem(mtu: int, c: Client, idOf: string -> NodeId): System {
    System(map[1 := Sample(mtu)], map[idOf(NODE) := c])
  }

  function SampleClient(outbox: seq<Message>, requests: nat, built: seq<SdwanInfo>, last: Option<SdwanInfo>): Client {
    Client("user", NODE, outbox, requests, built, last)
  }

  lemma SampleAnswers(mtu: int)
    ensures Answers(map[1 := Sample(mtu)], "user", NODE) == {Render(Sample(mtu))}
  {
    var st := map[1 := Sample(mtu)];
    assert Names(Sample(mtu).members)[0] == NODE;
    assert Serves(st[1], "user", NODE);
    assert (set id | id in st && Serves(st[id], "user", NODE) :: Render(st[id])) == {Render(st[1])};
  }

  lemma SampleEdit(c: Client, idOf: string -> NodeId) returns (e: Event)
    ensures Possible(SampleSystem(1400, c, idOf), e)
    ensures Next(SampleSystem(1400, c, idOf), e, idOf)
         == SampleSystem(1500, c.(outbox := c.outbox + [SdwanRefresh]), idOf)
  {
    var s := SampleSystem(1400, c, idOf);
    e := Manage("user", Request.Save(SaveRequest(1, Sample(1500).settings)), 0);
    var effect := EffectOf(s.networks, e.user, e.request, e.freshId);
    assert effect.networks == map[1 := Sample(1500)];
    assert effect.refreshed == [NODE] && [NODE][1..] == [];
    var outs := OutboxesOf(s.clients);
    assert RefreshAll(outs, [NODE], idOf) == Queued(outs, idOf(NODE), SdwanRefresh);
  }

  /** The run has led to the sample network with this MTU and its one client in this state. */
  ghost predicate ReachesSample(events: seq<Event>, mtu: int, c: Client, idOf: string -> NodeId) {
    var s0 := System(map[1 := Sample(1400)], map[]);
    PossibleRun(s0, events, idOf) && Orderly(s0, events, idOf, 2) && Run(s0, events, idOf) == SampleSystem(mtu, c, idOf)
  }

  lemma Move(events: seq<Event>, e: Event, mtu: int, c: Client, idOf: string -> NodeId) returns (more: seq<Event>)
    requires ReachesSample(events, mtu, c, idOf)
    requires !e.Manage? && !e.Login? && !e.Logout? && e.id == idOf(NODE) && Possible(SampleSystem(mtu, c, idOf), e)
    requires InTurn(SampleSystem(mtu, c, idOf), e, 2)
    ensures ReachesSample(more, mtu, Moved(c, e), idOf)
  {
    hide Moved;
    Extend(System(map[1 := Sample(1400)], map[]), events, e, idOf);
    more := events + [e];
    assert map[e.id := c][e.id := Moved(c, e)] == map[e.id := Moved(c, e)];
  }

  lemma DoBuild(events: seq<Event>, mtu: int, c: Client, idOf: string -> NodeId) returns (more: seq<Event>)
    requires ReachesSample(events, mtu, c, idOf) && c.user == "user" && c.node == NODE && c.requests > 0
    requires |c.built| < 2
    ensures ReachesSample(more, mtu, c.(requests := c.requests - 1, built := c.built + [Render(Sample(mtu))]), idOf)
  {
    hide ReachesSample, Answers, Render;
    SampleAnswers(mtu);
    more := Move(events, Build(idOf(NODE), Render(Sample(mtu))), mtu, c, idOf);
  }

  lemma DoQueue(events: seq<Event>, k: nat, mtu: int, c: Client, idOf: string -> NodeId) returns (more: seq<Event>)
    requires ReachesSample(events, mtu, c, idOf) && k < |c.built|
    ensures ReachesSample(more, mtu,
              c.(outbox := c.outbox + [SdwanInfoRsp(c.built[k])], built := c.built[..k] + c.built[k + 1..]), idOf)
  {
    hide ReachesSample;
    more := Move(events, Queue(idOf(NODE), k), mtu, c, idOf);
  }

  lemma DoDeliver(events: seq<Event>, mtu: int, c: Client, idOf: string -> NodeId) returns (more: seq<Event>)
    requires ReachesSample(events, mtu, c, idOf) && c.outbox != []
    ensures ReachesSample(more, mtu, Received(c), idOf)
  {
    hide ReachesSample, Received;
    more := Move(events, Deliver(idOf(NODE)), mtu, c, idOf);
  }

  /** A client logs in and asks. */
  lemma FirstRequest(idOf: string -> NodeId) returns (events: seq<Event>)
    ensures ReachesSample(events, 1400, SampleClient([], 1, [], None), idOf)
  {
    var s0 := System(map[1 := Sample(1400)], map[]);
    events := [];
    Extend(s0, events, Login("user", NODE), idOf);
    events := events + [Login("user", NODE)];
    events := Move(events, Ask(idOf(NODE)), 1400, SampleClient([], 0, [], None), idOf);
  }

  lemma DoEdit(events: seq<Event>, c: Client, idOf: string -> NodeId) returns (more: seq<Event>)
    requires ReachesSample(events, 1400, c, idOf)
    ensures ReachesSample(more, 1500, c.(outbox := c.outbox + [SdwanRefresh]), idOf)
  {
    hide Sample;
    var edit := SampleEdit(c, idOf);
    Extend(System(map[1 := Sample(1400)], map[]), events, edit, idOf);
    more := events + [edit];
  }

  /** The client's first answer is built, the network is edited, and the client asks again. */
  lemma SecondRequest(idOf: string -> NodeId) returns (events: seq<Event>)
    ensures ReachesSample(events, 1500, SampleClient([], 1, [Render(Sample(1400))], None), idOf)
  {
    hide ReachesSample, Sample, Render;
    events := FirstRequest(idOf);
    events := DoBuild(events, 1400, SampleClient([], 1, [], None), idOf);
    var c := SampleClient([], 0, [Render(Sample(1400))], None);
    assert [] + [Render(Sample(1400))] == c.built && c.outbox + [SdwanRefresh] == [SdwanRefresh];
    events := DoEdit(events, c, idOf);
    events := DoDeliver(events, 1500, c.(outbox := [SdwanRefresh]), idOf);
    assert [SdwanRefresh][1..] == [];
  }

  /** The answer to the second request is queued before the answer to the first. */
  lemma Overtaken(idOf: string -> NodeId) returns (events: seq<Event>)
    ensures ReachesSample(events, 1500, SampleClient([], 0, [], Some(Render(Sample(1400)))), idOf)
  {
    hide ReachesSample, Sample, Render;
    var o, n := Render(Sample(1400)), Render(Sample(1500));
    events := SecondRequest(idOf);
    events := DoBuild(events, 1500, SampleClient([], 1, [o], None), idOf);
    assert [o] + [n] == [o, n] && [o, n][..1] + [o, n][2..] == [o];
    events := DoQueue(events, 1, 1500, SampleClient([], 0, [o, n], None), idOf);
    assert [] + [SdwanInfoRsp(n)] == [SdwanInfoRsp(n)] && [o][..0] + [o][1..] == [];
    events := DoQueue(events, 0, 1500, SampleClient([SdwanInfoRsp(n)], 0, [o], None), idOf);
    assert [SdwanInfoRsp(n)] + [SdwanInfoRsp(o)] == [SdwanInfoRsp(n), SdwanInfoRsp(o)];
    assert [SdwanInfoRsp(n), SdwanInfoRsp(o)][1..] == [SdwanInfoRsp(o)] && [SdwanInfoRsp(o)][1..] == [];
    events := DoDeliver(events, 1500, SampleClient([SdwanInfoRsp(n), SdwanInfoRsp(o)], 0, [], None), idOf);
    events := DoDeliver(events, 1500, SampleClient([SdwanInfoRsp(o)], 0, [], Some(n)), idOf);
  }

  /**
    * With two handlers at work the protocol can fail: one that is slow to queue its answer is overtaken by the
    * handler of the refresh, and the client rests on a configuration that is no longer possible.
    */
  lemma {:induction false} OverlapLeavesStaleAnswer(idOf: string -> NodeId) returns (st: Networks, events: seq<Event>)
    ensures && Keyed(st) && PossibleRun(System(st, map[]), events, idOf)
            && Orderly(System(st, map[]), events, idOf, 2)
            && Stale(Run(System(st, map[]), events, idOf), idOf(NODE))
  {
    hide Answers, Run, PossibleRun, Orderly;
    st := map[1 := Sample(1400)];
    events := Overtaken(idOf);
    SampleAnswers(1500);
  }

  /** No run with at most `bound` handlers per client leaves a client stale. */
  ghost predicate StaysCurrent(idOf: string -> NodeId, bound: nat) {
    forall st, events, id ::
      Keyed(st) && PossibleRun(System(st, map[]), events, idOf) && Orderly(System(st, map[]), events, idOf, bound)
      ==> !Stale(Run(System(st, map[]), events, idOf), id)
  }

  /** Whatever the hash: the protocol keeps nodes current exactly if no two handlers serve the same client at once. */
  lemma CurrentIffOneHandler(idOf: string -> NodeId, bound: nat)
    ensures StaysCurrent(idOf, bound) <==> bound <= 1
  {
    hide Answers, Run, PossibleRun, Orderly, Keyed, Resting;
    if bound <= 1 {
      forall st, events, id
        | Keyed(st) && PossibleRun(System(st, map[]), events, idOf) && Orderly(System(st, map[]), events, idOf, bound)
        ensures !Stale(Run(System(st, map[]), events, idOf), id)
      {
        OrderlyStays(System(st, map[]), events, idOf, bound, 1);
        OneHandlerKeepsOrder(System(st, map[]), events, idOf, id);
        if Stale(Run(System(st, map[]), events, idOf), id) {
          StaleWasOvertaken(st, events, idOf, id);
        }
      }
    } else {
      var st, events := OverlapLeavesStaleAnswer(idOf);
      OrderlyStays(System(st, map[]), events, idOf, 2, bound);
    }
  }
}
