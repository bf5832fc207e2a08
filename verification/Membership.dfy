/** What holds of the members of every network after any sequence of management requests. */
module Membership {
  import opened Coherence
  import opened Ipv4
  import opened NetworkEffects
  import opened Networks
  import opened VirtualIp

  /** A request as it reaches the gateway: who sends it, and the id a create would use. */
  datatype Sent = Sent(user: string, request: Request, freshId: NetworkId)

  function After(st: Networks, s: Sent): Networks {
    EffectOf(st, s.user, s.request, s.freshId).networks
  }

  function NetworksAfter(st: Networks, log: seq<Sent>): Networks {
    if log == [] then st else After(NetworksAfter(st, log[..|log| - 1]), log[|log| - 1])
  }

  lemma {:induction false} RunKeepsKeys(st: Networks, log: seq<Sent>)
    requires Keyed(st)
    ensures Keyed(NetworksAfter(st, log))
  {
    if log != [] {
      RunKeepsKeys(st, log[..|log| - 1]);
      var s := log[|log| - 1];
      EffectKeepsKeys(NetworksAfter(st, log[..|log| - 1]), s.user, s.request, s.freshId);
    }
  }

  lemma OneMoreRequest(st: Networks, log: seq<Sent>, s: Sent)
    ensures NetworksAfter(st, log + [s]) == After(NetworksAfter(st, log), s)
  {
    assert (log + [s])[..|log|] == log;
  }

  ghost predicate Distinct(xs: seq<string>) {
    forall i, j :: 0 <= i < j < |xs| ==> xs[i] != xs[j]
  }

  // ---------- filtering keeps distinctness ----------

  lemma WithoutKeepsDistinct(members: seq<Member>, name: string)
    ensures Distinct(Names(members)) ==> Distinct(Names(Without(members, name)))
    ensures Distinct(Ips(members)) ==> Distinct(Ips(Without(members, name)))
    ensures forall ip :: ip in Ips(Without(members, name)) ==> ip in Ips(members)
  {
    var kept := Without(members, name);
    var at := WithoutMeans(members, name);
    assert forall i :: 0 <= i < |kept| ==> Names(kept)[i] == Names(members)[at[i]];
    assert forall i :: 0 <= i < |kept| ==> Ips(kept)[i] == Ips(members)[at[i]];
  }

  // ---------- names ----------

  ghost predicate NamesDistinct(st: Networks) {
    forall id :: id in st ==> Distinct(Names(st[id].members))
  }

  lemma WithMemberKeepsNames(members: seq<Member>, req: MemberRequest, ip: string)
    requires Distinct(Names(members))
    ensures Distinct(Names(WithMember(members, req, ip)))
  {
    Known(members, req.name);
    var i, after := IndexOf(members, req.name), WithMember(members, req, ip);
    if i < |members| {
      assert Names(after) == Names(members);
    } else {
      assert Names(after) == Names(members) + [req.name];
    }
  }

  lemma RequestKeepsNames(st: Networks, s: Sent)
    requires NamesDistinct(st)
    ensures NamesDistinct(After(st, s))
  {
    hide Allocation;
    match s.request {
      case AddMember(id, m) =>
        if Owns(st, s.user, id) {
          var ip := if NewIp(st[id], m).Ok? then NewIp(st[id], m).value else "";
          WithMemberKeepsNames(st[id].members, m, ip);
          WithMemberKeepsNames(st[id].members, m, "");
        }
      case DelMember(id, name) =>
        if Owns(st, s.user, id) {
          WithoutKeepsDistinct(st[id].members, name);
        }
      case _ =>
    }
  }

  /** However members are added, removed and edited, no network lists a name twice. */
  lemma {:induction false} NamesStayDistinct(st: Networks, log: seq<Sent>)
    requires NamesDistinct(st)
    ensures NamesDistinct(NetworksAfter(st, log))
  {
    if log != [] {
      NamesStayDistinct(st, log[..|log| - 1]);
      RequestKeepsNames(NetworksAfter(st, log[..|log| - 1]), log[|log| - 1]);
    }
  }

  // ---------- addresses ----------

  /** The text of an address inside the subnet that is neither the gateway nor the network address. */
  ghost predicate Assignable(g: Cidr, ip: string) {
    var u := Unwrapped(g);
    u.Ipv4? && exists v :: Base(u) < v < Base(u) + SubnetSize(u.prefix) && v != GatewayValue(u) && ip == Quad(v)
  }

  ghost predicate IpsDistinct(st: Networks) {
    forall id :: id in st ==> Distinct(Ips(st[id].members))
  }

  ghost predicate IpsAssignable(st: Networks) {
    forall id, ip :: id in st && ip in Ips(st[id].members) ==> Assignable(st[id].settings.gateway.cidr, ip)
  }

  /** The request leaves the choice of every address to the gateway. */
  predicate NoExplicitIp(s: Sent) {
    s.request.AddMember? ==> s.request.member.ip == ""
  }

  /** The request does not edit the gateway of an existing network. */
  predicate KeepsGateways(st: Networks, s: Sent) {
    s.request.Save? && s.request.save.id != 0 && s.request.save.id in st ==>
      s.request.save.settings.gateway.cidr == st[s.request.save.id].settings.gateway.cidr
  }

  lemma AllocatedIp(n: Network, req: MemberRequest)
    requires req.ip == "" && NewIp(n, req).Ok?
    ensures NewIp(n, req).value !in Ips(n.members) && Assignable(n.settings.gateway.cidr, NewIp(n, req).value)
  {
    var v := AllocationIsFresh(n.settings.gateway.cidr, Ips(n.members));
  }

  lemma WithMemberIps(members: seq<Member>, req: MemberRequest, ip: string)
    requires req.ip == ""
    ensures Ips(WithMember(members, req, ip))
         == if IndexOf(members, req.name) < |members| then Ips(members) else Ips(members) + [ip]
  {
  }

  /** An address that a request names is not checked: it stays unique exactly if no other member holds it already. */
  lemma {:induction false} ExplicitIp(members: seq<Member>, req: MemberRequest, ip: string)
    requires req.ip != "" && Distinct(Ips(members))
    ensures Distinct(Ips(WithMember(members, req, ip)))
        <==> forall j :: 0 <= j < |members| && j != IndexOf(members, req.name) ==> members[j].ip != req.ip
  {
    var i, ips := IndexOf(members, req.name), Ips(members);
    var after := Ips(WithMember(members, req, ip));
    assert after == if i < |members| then ips[i := req.ip] else ips + [req.ip];
    assert after[i] == req.ip && forall j :: 0 <= j < |members| && j != i ==> after[j] == members[j].ip;
    if Distinct(after) {
      forall j | 0 <= j < |members| && j != i ensures members[j].ip != req.ip {
        assert if i < j then after[i] != after[j] else after[j] != after[i];
      }
    }
  }

  /** Joining without naming an address keeps addresses distinct and adds at most one, an assignable one. */
  lemma JoinKeepsIps(n: Network, req: MemberRequest)
    requires req.ip == "" && Join(n, req).Ok? && Distinct(Ips(n.members))
    ensures var joined := Join(n, req).value;
            && joined.id == n.id && joined.settings == n.settings && Distinct(Ips(joined.members))
            && forall ip :: ip in Ips(joined.members) ==>
                 ip in Ips(n.members) || Assignable(n.settings.gateway.cidr, ip)
  {
    hide Allocation, Assignable, WithMember, IndexOf;
    if IndexOf(n.members, req.name) < |n.members| {
      WithMemberIps(n.members, req, "");
    } else {
      WithMemberIps(n.members, req, NewIp(n, req).value);
      AllocatedIp(n, req);
    }
  }

  lemma RequestKeepsIps(st: Networks, s: Sent)
    requires IpsDistinct(st) && NoExplicitIp(s)
    ensures var t := After(st, s);
            IpsDistinct(t) && (IpsAssignable(st) && KeepsGateways(st, s) ==> IpsAssignable(t))
  {
    hide Join, Without, Assignable;
    match s.request {
      case AddMember(id, m) =>
        if Owns(st, s.user, id) && Join(st[id], m).Ok? {
          JoinKeepsIps(st[id], m);
        }
      case DelMember(id, name) =>
        if Owns(st, s.user, id) {
          WithoutKeepsDistinct(st[id].members, name);
        }
      case _ =>
    }
  }

  /** While requests leave addresses to the gateway, no two members of a network share one. */
  lemma {:induction false} IpsStayDistinct(st: Networks, log: seq<Sent>)
    requires IpsDistinct(st) && forall s :: s in log ==> NoExplicitIp(s)
    ensures IpsDistinct(NetworksAfter(st, log))
  {
    if log != [] {
      var last := log[|log| - 1];
      assert last in log;
      IpsStayDistinct(st, log[..|log| - 1]);
      RequestKeepsIps(NetworksAfter(st, log[..|log| - 1]), last);
    }
  }

  /** If besides no gateway is edited, every member address is in its subnet, and neither gateway nor network. */
  lemma {:induction false} IpsStayAssignable(st: Networks, log: seq<Sent>)
    requires IpsDistinct(st) && IpsAssignable(st)
    requires forall s :: s in log ==> NoExplicitIp(s)
    requires forall k :: 0 <= k < |log| ==> KeepsGateways(NetworksAfter(st, log[..k]), log[k])
    ensures IpsAssignable(NetworksAfter(st, log))
  {
    if log != [] {
      var init := log[..|log| - 1];
      assert log[|log| - 1] in log;
      assert forall k :: 0 <= k < |init| ==> init[..k] == log[..k];
      IpsStayDistinct(st, init);
      IpsStayAssignable(st, init);
      RequestKeepsIps(NetworksAfter(st, init), log[|log| - 1]);
    }
  }

  // ---------- named addresses ----------

  /** The request is accepted and names an address that another member of the network holds. */
  predicate TakesAnothersIp(st: Networks, s: Sent) {
    && s.request.AddMember? && s.request.member.ip != "" && |s.request.member.name| >= MIN_NODE_NAME_LEN
    && Owns(st, s.user, s.request.id)
    && var members := st[s.request.id].members;
       exists j ::
         0 <= j < |members| && j != IndexOf(members, s.request.member.name) && members[j].ip == s.request.member.ip
  }

  /** Joining with a named address always succeeds, and the address is the one named. */
  lemma NamedJoin(n: Network, req: MemberRequest)
    requires req.ip != "" && Distinct(Ips(n.members))
    ensures Join(n, req).Ok? && Join(n, req).value.id == n.id
    ensures Distinct(Ips(Join(n, req).value.members))
        <==> forall j :: 0 <= j < |n.members| && j != IndexOf(n.members, req.name) ==> n.members[j].ip != req.ip
  {
    ExplicitIp(n.members, req, req.ip);
    ExplicitIp(n.members, req, "");
  }

  /** Exactly the requests that take the address of another member break the distinctness of addresses. */
  lemma RequestKeepsIpsExactly(st: Networks, s: Sent)
    requires Keyed(st) && IpsDistinct(st)
    ensures IpsDistinct(After(st, s)) <==> !TakesAnothersIp(st, s)
  {
    if NoExplicitIp(s) {
      RequestKeepsIps(st, s);
    } else if |s.request.member.name| >= MIN_NODE_NAME_LEN && Owns(st, s.user, s.request.id) {
      hide Join, Distinct, Ips;
      var id, n := s.request.id, st[s.request.id];
      NamedJoin(n, s.request.member);
      assert After(st, s) == st[id := Join(n, s.request.member).value];
      assert Distinct(Ips(After(st, s)[id].members)) <==> !TakesAnothersIp(st, s);
    }
  }

  /** Addresses are distinct after every request of the log. */
  ghost predicate DistinctThroughout(st: Networks, log: seq<Sent>) {
    IpsDistinct(NetworksAfter(st, log)) && (log == [] || DistinctThroughout(st, log[..|log| - 1]))
  }

  /** No request of the log takes another member's address. */
  predicate NoneTaken(st: Networks, log: seq<Sent>) {
    log == []
    || (NoneTaken(st, log[..|log| - 1]) && !TakesAnothersIp(NetworksAfter(st, log[..|log| - 1]), log[|log| - 1]))
  }

  /** Over any sequence of requests: addresses are distinct throughout exactly if no request takes another's. */
  lemma {:induction false} IpsDistinctExactly(st: Networks, log: seq<Sent>)
    requires Keyed(st) && IpsDistinct(st)
    ensures DistinctThroughout(st, log) <==> NoneTaken(st, log)
  {
    hide IpsDistinct, TakesAnothersIp, After;
    if log != [] {
      var init := log[..|log| - 1];
      IpsDistinctExactly(st, init);
      if DistinctThroughout(st, init) {
        RunKeepsKeys(st, init);
        RequestKeepsIpsExactly(NetworksAfter(st, init), log[|log| - 1]);
      }
    }
  }

  /** A request that breaks it: a second member asks for the address of the first. */
  lemma ClashingRequest() returns (st: Networks, s: Sent)
    ensures Keyed(st) && IpsDistinct(st) && !IpsDistinct(After(st, s))
  {
    var gateway := Gateway("10.2.3.254/24", Ipv4(10, 2, 3, 254, 24));
    var settings := Settings("net", gateway, "fullmesh", "", 0, 0, 1, 0, 0);
    st := map[1 := Network(1, "user", settings, [Member("node-one", "10.2.3.1", "", 1)])];
    s := Sent("user", AddMember(1, MemberRequest("node-two", "10.2.3.1", "", 1)), 0);
    RequestKeepsIpsExactly(st, s);
    assert IndexOf(st[1].members, "node-two") != 0;
    assert TakesAnothersIp(st, s);
  }
}
