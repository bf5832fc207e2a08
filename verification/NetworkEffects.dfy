/** What each management request leaves behind, and what an answer holds, field by field. */
module NetworkEffects {
  import opened Coherence
  import opened Networks
  import opened Results
  import opened VirtualIp

  // ---------- filters ----------

  /** kept are the members of was at the positions `at`, in order. */
  ghost predicate Picks(was: seq<Member>, at: seq<nat>, kept: seq<Member>) {
    && |at| == |kept|
    && (forall i :: 0 <= i < |at| ==> at[i] < |was| && kept[i] == was[at[i]])
    && (forall i, j :: 0 <= i < j < |at| ==> at[i] < at[j])
  }

  lemma PicksMore(m: Member, was: seq<Member>, at: seq<nat>, kept: seq<Member>) returns (later: seq<nat>)
    requires Picks(was, at, kept)
    ensures |later| == |at| && forall i :: 0 <= i < |at| ==> later[i] == at[i] + 1
    ensures Picks([m] + was, later, kept) && Picks([m] + was, [0] + later, [m] + kept)
  {
    later := seq(|at|, i requires 0 <= i < |at| => at[i] + 1);
  }

  lemma WithoutFirst(members: seq<Member>, name: string)
    requires members != []
    ensures Without(members, name)
         == (if members[0].name == name then [] else [members[0]]) + Without(members[1..], name)
  {
  }

  lemma EnabledFirst(members: seq<Member>)
    requires members != []
    ensures Enabled(members) == (if members[0].enable == 0 then [] else [members[0]]) + Enabled(members[1..])
  {
  }

  /** Exactly the members of other names stay, in order. */
  lemma {:induction false} WithoutMeans(was: seq<Member>, name: string) returns (at: seq<nat>)
    ensures Picks(was, at, Without(was, name))
    ensures forall j :: 0 <= j < |was| ==> (j in at <==> was[j].name != name)
  {
    if was == [] {
      at := [];
    } else {
      var rest := WithoutMeans(was[1..], name);
      WithoutFirst(was, name);
      hide Picks, Without;
      var later := PicksMore(was[0], was[1..], rest, Without(was[1..], name));
      at := if was[0].name == name then later else [0] + later;
      assert was == [was[0]] + was[1..];
      assert [] + Without(was[1..], name) == Without(was[1..], name);
      Later(rest, later, at, |was|);
    }
  }

  /** Exactly the enabled members are rendered, in order. */
  lemma {:induction false} EnabledMeans(was: seq<Member>) returns (at: seq<nat>)
    ensures Picks(was, at, Enabled(was))
    ensures forall j :: 0 <= j < |was| ==> (j in at <==> was[j].enable != 0)
  {
    if was == [] {
      at := [];
    } else {
      var rest := EnabledMeans(was[1..]);
      EnabledFirst(was);
      hide Picks, Enabled;
      var later := PicksMore(was[0], was[1..], rest, Enabled(was[1..]));
      at := if was[0].enable == 0 then later else [0] + later;
      assert was == [was[0]] + was[1..];
      assert [] + Enabled(was[1..]) == Enabled(was[1..]);
      Later(rest, later, at, |was|);
    }
  }

  lemma Later(rest: seq<nat>, later: seq<nat>, at: seq<nat>, n: nat)
    requires |later| == |rest| && forall i :: 0 <= i < |rest| ==> later[i] == rest[i] + 1
    requires at == later || at == [0] + later
    ensures forall j :: 1 <= j < n ==> (j in at <==> j - 1 in rest)
    ensures 0 in at <==> at == [0] + later
  {
    forall j | 1 <= j < n ensures j in at <==> j - 1 in rest {
      if j - 1 in rest {
        var i :| 0 <= i < |rest| && rest[i] == j - 1;
        assert later[i] == j;
      }
    }
  }

  // ---------- requests ----------

  /** The settings as requested, an empty mode read as a full mesh. */
  lemma ModeMeans(s: Settings)
    ensures DefaultMode(s) == if s.mode == "" then s.(mode := "fullmesh") else s
  {
  }

  lemma SaveMeans(st: Networks, user: string, req: SaveRequest, freshId: NetworkId)
    requires Keyed(st)
    ensures var e := SaveEffect(st, user, req, freshId);
            var complete := req.settings.gateway.text != "" && req.settings.name != "";
            var owned := req.id in st && st[req.id].user == user;
            var s := if req.settings.mode == "" then req.settings.(mode := "fullmesh") else req.settings;
            && (e.reply == Rejected(2) <==> !complete)
            && (e.reply == Rejected(3) <==> complete && req.id != 0 && !owned)
            && (e.reply.Rejected? ==> e.networks == st && e.refreshed == [])
            && (complete && req.id != 0 && owned ==>
                  && e.reply == Saved(req.id) && e.networks == st[req.id := st[req.id].(settings := s)]
                  && e.refreshed == Names(st[req.id].members))
            && (complete && req.id == 0 ==>
                  && e.reply == Saved(freshId) && e.networks == st[freshId := Network(freshId, user, s, [])]
                  && e.refreshed == [])
  {
  }

  /** A delete is done exactly for the owner, and then exactly this network is gone and its members are told. */
  lemma DeleteMeans(st: Networks, user: string, id: NetworkId)
    ensures var e := DeleteEffect(st, user, id);
            && (e.reply == Done <==> id in st && st[id].user == user)
            && (e.reply == Done ==> e.networks == st - {id} && e.refreshed == Names(st[id].members))
            && (e.reply != Done ==> e.reply == Rejected(1) && e.networks == st && e.refreshed == [])
  {
  }

  /** What is rendered under an id that is not in the store is no network at all. */
  lemma GoneIsUnserved(st: Networks, id: NetworkId, owner: string, node: string, info: SdwanInfo)
    requires Keyed(st) && id !in st && info in Answers(st, owner, node)
    ensures info.settings == None || info.id != id
  {
  }

  lemma GoneIsUnservedByAll(st: Networks, id: NetworkId)
    requires Keyed(st) && id !in st
    ensures forall owner, node, info :: info in Answers(st, owner, node) ==> info.settings == None || info.id != id
  {
    forall owner, node, info | info in Answers(st, owner, node) ensures info.settings == None || info.id != id {
      GoneIsUnserved(st, id, owner, node, info);
    }
  }

  lemma DelMeans(st: Networks, user: string, id: NetworkId, name: string)
    requires Keyed(st)
    ensures var e := DelMemberEffect(st, user, id, name);
            && (e.reply == Done <==> id in st && st[id].user == user)
            && (e.reply != Done ==> e.reply == Rejected(2) && e.networks == st && e.refreshed == [])
            && (e.reply == Done ==>
                  && id in e.networks && e.networks == st[id := st[id].(members := e.networks[id].members)]
                  && name !in Names(e.networks[id].members)
                  && e.refreshed == Names(e.networks[id].members) + [name]
                  && exists at :: Picks(st[id].members, at, e.networks[id].members)
                       && forall j :: 0 <= j < |st[id].members| ==> (j in at <==> st[id].members[j].name != name))
  {
    if Owns(st, user, id) {
      var at := WithoutMeans(st[id].members, name);
      WithoutNames(st[id].members, name, name);
      hide Without, Picks;
    }
  }

  /** One member is updated or appended: the i-th, all others staying as they were. */
  ghost predicate Put(was: seq<Member>, now: seq<Member>, i: nat, m: Member) {
    && i <= |was| && |now| == (if i < |was| then |was| else |was| + 1) && now[i] == m
    && forall j :: 0 <= j < |was| && j != i ==> now[j] == was[j]
  }

  /**
    * The first member of the requested name, or else a new one at the end, has the requested resource and switch; its
    * address is the one requested, or else the one it had, or else an allocated one.
    */
  ghost predicate PutInto(n: Network, now: seq<Member>, req: MemberRequest, ip: string) {
    exists i: nat ::
      && Put(n.members, now, i, Member(req.name, ip, req.resource, req.enable))
      && (forall j :: 0 <= j < i && j < |n.members| ==> n.members[j].name != req.name)
      && (i < |n.members| ==> n.members[i].name == req.name && ip == if req.ip != "" then req.ip else n.members[i].ip)
      && (i == |n.members| ==> if req.ip != "" then ip == req.ip
                               else Allocation(n.settings.gateway.cidr, Ips(n.members)) == Ok(ip))
  }

  lemma AddMeans(st: Networks, user: string, id: NetworkId, req: MemberRequest)
    requires Keyed(st)
    ensures var e := AddMemberEffect(st, user, id, req);
            var owned := id in st && st[id].user == user;
            && (e.reply == Rejected(2) <==> |req.name| < 8)
            && (e.reply == Rejected(3) <==> |req.name| >= 8 && !owned)
            && (e.reply == Rejected(4) <==>
                  && |req.name| >= 8 && owned && req.name !in Names(st[id].members) && req.ip == ""
                  && Allocation(st[id].settings.gateway.cidr, Ips(st[id].members)).Err?)
            && (e.reply.Rejected? ==> e.networks == st && e.refreshed == [])
            && (!e.reply.Rejected? ==>
                  && owned && id in e.networks && e.networks == st[id := st[id].(members := e.networks[id].members)]
                  && e.refreshed == Names(e.networks[id].members) && e.reply.Added?)
    ensures var e := AddMemberEffect(st, user, id, req);
            !e.reply.Rejected? ==>
              e.reply.Added? && PutInto(st[id], e.networks[id].members, req, e.reply.ip)
  {
    hide Allocation;
    if |req.name| >= 8 && Owns(st, user, id) {
      var was := st[id].members;
      var i := IndexOf(was, req.name);
      Known(was, req.name);
      if Join(st[id], req).Ok? {
        var now := Join(st[id], req).value.members;
        assert Put(was, now, i, Member(req.name, now[i].ip, req.resource, req.enable));
      }
    }
  }

  lemma Known(members: seq<Member>, name: string)
    ensures IndexOf(members, name) < |members| <==> name in Names(members)
  {
    if name in Names(members) {
      var i :| 0 <= i < |members| && Names(members)[i] == name;
      assert members[i].name == name;
    }
    if IndexOf(members, name) < |members| {
      assert Names(members)[IndexOf(members, name)] == name;
    }
  }

  // ---------- answers ----------

  /** An answer renders a network: its id, its settings, and exactly its enabled members in order. */
  ghost predicate Renders(n: Network, info: SdwanInfo) {
    && info.id == n.id && info.settings == Some(n.settings)
    && exists at :: Picks(n.members, at, info.nodes)
         && forall j :: 0 <= j < |n.members| ==> (j in at <==> n.members[j].enable != 0)
  }

  lemma RenderMeans(n: Network)
    ensures Renders(n, Render(n))
  {
    var at := EnabledMeans(n.members);
  }

  /** The network is the user's, is enabled, and lists the node. */
  ghost predicate Lists(n: Network, user: string, node: string) {
    n.user == user && n.settings.enable != 0 && exists j :: 0 <= j < |n.members| && n.members[j].name == node
  }

  /** An answer renders such a network, and is empty only if there is none. */
  ghost predicate IsAnswer(st: Networks, user: string, node: string, info: SdwanInfo) {
    if info.settings == None then
      info == SdwanInfo(0, None, []) && forall id :: id in st ==> !Lists(st[id], user, node)
    else exists id :: id in st && Lists(st[id], user, node) && Renders(st[id], info)
  }

  lemma AnswerMeans(st: Networks, user: string, node: string, info: SdwanInfo)
    requires info in Answers(st, user, node)
    ensures IsAnswer(st, user, node, info)
  {
    forall id | id in st ensures Lists(st[id], user, node) <==> Serves(st[id], user, node) {
      ListsIsServes(st[id], user, node);
    }
    var served := set id | id in st && Serves(st[id], user, node) :: Render(st[id]);
    assert forall id :: id in st && Serves(st[id], user, node) ==> Render(st[id]) in served;
    hide Lists, Serves;
    if id :| id in st && Serves(st[id], user, node) && info == Render(st[id]) {
      RenderMeans(st[id]);
      hide Renders;
      assert Lists(st[id], user, node) && Renders(st[id], info);
    }
  }

  lemma ListsIsServes(n: Network, user: string, node: string)
    ensures Lists(n, user, node) <==> Serves(n, user, node)
  {
    if j :| 0 <= j < |n.members| && n.members[j].name == node {
      assert Names(n.members)[j] == node;
    }
    if node in Names(n.members) {
      var j :| 0 <= j < |n.members| && Names(n.members)[j] == node;
      assert n.members[j].name == node;
    }
  }
}
