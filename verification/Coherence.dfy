/** Every management request tells exactly the nodes whose answer it may change; what that means over whole runs. */
module Coherence {
  import opened Networks

  /** Each record is stored under its own id. */
  ghost predicate Keyed(st: Networks) {
    forall id :: id in st ==> st[id].id == id
  }

  lemma EffectKeepsKeys(st: Networks, user: string, req: Request, freshId: NetworkId)
    requires Keyed(st)
    ensures Keyed(EffectOf(st, user, req, freshId).networks)
  {
  }

  // ---------- which answers a request changes ----------

  lemma NamesSplit(a: seq<Member>, b: seq<Member>)
    ensures Names(a + b) == Names(a) + Names(b)
  {
  }

  lemma {:induction false} WithoutNames(members: seq<Member>, name: string, node: string)
    ensures node in Names(Without(members, name)) <==> node in Names(members) && node != name
  {
    if members != [] {
      WithoutNames(members[1..], name, node);
      var head := [members[0]];
      assert members == head + members[1..];
      NamesSplit(head, members[1..]);
      NamesSplit(head, Without(members[1..], name));
      assert Names(head) == [members[0].name];
      assert [] + Without(members[1..], name) == Without(members[1..], name);
    }
  }

  lemma WithMemberNames(members: seq<Member>, req: MemberRequest, ip: string, node: string)
    ensures node in Names(WithMember(members, req, ip)) <==> node in Names(members) || node == req.name
  {
    var i, after := IndexOf(members, req.name), WithMember(members, req, ip);
    if i < |members| {
      assert Names(after) == Names(members);
      assert Names(members)[i] == req.name;
    } else {
      var added := [Updated(Member(req.name, ip, "", 0), req)];
      NamesSplit(members, added);
      assert Names(added) == [req.name];
    }
  }

  /** Replacing one network changes the answers only of its old and its new members. */
  lemma ReplacedAnswers(st: Networks, n: Network, user: string, node: string)
    requires node !in Names(n.members) && (n.id in st ==> node !in Names(st[n.id].members))
    ensures Answers(st[n.id := n], user, node) == Answers(st, user, node)
  {
    var t := st[n.id := n];
    assert forall id :: id in t && Serves(t[id], user, node) <==> id in st && Serves(st[id], user, node);
  }

  lemma RemovedAnswers(st: Networks, id: NetworkId, user: string, node: string)
    requires id in st && node !in Names(st[id].members)
    ensures Answers(st - {id}, user, node) == Answers(st, user, node)
  {
    var t := st - {id};
    assert forall i :: i in t && Serves(t[i], user, node) <==> i in st && Serves(st[i], user, node);
  }

  /**
    * A request changes the set of possible answers only of nodes it then tells to refresh; for a create this
    * asks for a fresh id.
    */
  lemma OnlyRefreshedAnswersChange(
    st: Networks, user: string, req: Request, freshId: NetworkId, owner: string, node: string)
    requires Keyed(st) && (req.Save? && req.save.id == 0 ==> freshId !in st)
    requires node !in EffectOf(st, user, req, freshId).refreshed
    ensures Answers(EffectOf(st, user, req, freshId).networks, owner, node) == Answers(st, owner, node)
  {
    var e := EffectOf(st, user, req, freshId);
    if !e.reply.Rejected? {
      match req {
        case Save(s) =>
          ReplacedAnswers(st, e.networks[e.reply.id], owner, node);
        case Delete(id) =>
          RemovedAnswers(st, id, owner, node);
        case AddMember(id, m) =>
          var ip := if IndexOf(st[id].members, m.name) < |st[id].members| then "" else NewIp(st[id], m).value;
          WithMemberNames(st[id].members, m, ip, node);
          ReplacedAnswers(st, e.networks[id], owner, node);
        case DelMember(id, name) =>
          WithoutNames(st[id].members, name, node);
          ReplacedAnswers(st, e.networks[id], owner, node);
      }
    }
  }

  /** Overwriting an enabled network that has members by an empty one takes an answer away from its first member. */
  lemma OverwritingMisses(st: Networks, n: Network)
    requires Keyed(st) && n.id in st && n.members == []
    requires st[n.id].settings.enable != 0 && st[n.id].members != []
    ensures var was := st[n.id];
            Answers(st[n.id := n], was.user, was.members[0].name) != Answers(st, was.user, was.members[0].name)
  {
    hide Render;
    var was, t := st[n.id], st[n.id := n];
    var node := Names(was.members)[0];
    assert Serves(was, was.user, node);
    forall id | id in t && Serves(t[id], was.user, node) ensures Render(t[id]) != Render(was) {
      OtherRender(t[id], was);
    }
    RenderHasId(was);
    assert Serves(st[n.id], was.user, node) && Render(was) in Answers(st, was.user, node);
    assert Render(was) !in Answers(t, was.user, node);
  }

  lemma OtherRender(m: Network, n: Network)
    requires m.id != n.id
    ensures Render(m) != Render(n)
  {
  }

  lemma RenderHasId(n: Network)
    ensures Render(n) != NO_NETWORK
  {
  }

  /** Overwriting a network that serves nobody by one without members changes nothing. */
  lemma OverwritingIsHarmless(st: Networks, n: Network, user: string, node: string)
    requires n.id in st && n.members == []
    requires st[n.id].settings.enable == 0 || st[n.id].members == []
    ensures Answers(st[n.id := n], user, node) == Answers(st, user, node)
  {
    hide Render;
    var t := st[n.id := n];
    assert forall id :: id in t && Serves(t[id], user, node) <==> id in st && Serves(st[id], user, node);
  }

  /**
    * When a create is given an id already in use it overwrites that network and tells nobody: some node's answers
    * then change unseen exactly when the overwritten network is enabled and has members.
    */
  lemma CollidingCreate(st: Networks, user: string, s: SaveRequest, freshId: NetworkId)
    requires Keyed(st) && s.id == 0 && s.settings.gateway.text != "" && s.settings.name != "" && freshId in st
    ensures var e := SaveEffect(st, user, s, freshId);
            (exists owner, node :: node !in e.refreshed && Answers(e.networks, owner, node) != Answers(st, owner, node))
            <==> st[freshId].settings.enable != 0 && st[freshId].members != []
  {
    hide Answers;
    var e, was := SaveEffect(st, user, s, freshId), st[freshId];
    var n := e.networks[freshId];
    assert n.id == freshId && n.members == [] && e.networks == st[n.id := n];
    if was.settings.enable != 0 && was.members != [] {
      OverwritingMisses(st, n);
    } else {
      forall owner, node ensures Answers(e.networks, owner, node) == Answers(st, owner, node) {
        OverwritingIsHarmless(st, n, owner, node);
      }
    }
  }
}
