/** Users do not see each other's requests: what holds of one user's networks after any sequence of requests. */
module Tenants {
  import opened Coherence
  import opened Membership
  import opened Networks

  /** The networks of one user. */
  function Own(st: Networks, user: string): Networks {
    map id | id in st && st[id].user == user :: st[id]
  }

  /** A request that makes a new network. */
  predicate Creates(req: Request) {
    req.Save? && req.save.id == 0 && req.save.settings.gateway.text != "" && req.save.settings.name != ""
  }

  predicate HasFreshId(st: Networks, s: Sent) {
    Creates(s.request) ==> s.freshId !in st
  }

  /** What a request reads and writes is the network it names, or the new one. */
  lemma OneNetwork(st: Networks, s: Sent) returns (id: NetworkId)
    requires Keyed(st)
    ensures forall other :: other != id ==>
      (other in After(st, s) <==> other in st) && (other in st ==> After(st, s)[other] == st[other])
    ensures id in After(st, s) ==> After(st, s)[id].user == s.user || (id in st && After(st, s)[id] == st[id])
    ensures id in st ==> st[id].user == s.user || (id in After(st, s) && After(st, s)[id] == st[id])
                         || (Creates(s.request) && id == s.freshId)
  {
    hide Join, Without;
    id := match s.request
          case Save(save) => if save.id != 0 then save.id else s.freshId
          case Delete(id) => id
          case AddMember(id, _) => id
          case DelMember(id, _) => id;
    if s.request.AddMember? && Owns(st, s.user, id) && Join(st[id], s.request.member).Ok? {
      JoinKeepsOwner(st[id], s.request.member);
    }
  }

  lemma JoinKeepsOwner(n: Network, req: MemberRequest)
    requires Join(n, req).Ok?
    ensures Join(n, req).value.id == n.id && Join(n, req).value.user == n.user
  {
  }

  /** A request leaves the networks of all other users alone, unless it creates over one of them. */
  lemma OthersKeepTheirs(st: Networks, s: Sent, owner: string)
    requires Keyed(st) && owner != s.user
    requires Creates(s.request) && s.freshId in st ==> st[s.freshId].user != owner
    ensures Own(After(st, s), owner) == Own(st, owner)
  {
    hide EffectOf;
    var id := OneNetwork(st, s);
  }

  /** Some other user loses a network exactly if a create collides with it. */
  lemma IsolationFailsExactly(st: Networks, s: Sent)
    requires Keyed(st)
    ensures (exists owner :: owner != s.user && Own(After(st, s), owner) != Own(st, owner))
        <==> Creates(s.request) && s.freshId in st && st[s.freshId].user != s.user
  {
    if Creates(s.request) && s.freshId in st && st[s.freshId].user != s.user {
      var owner := st[s.freshId].user;
      assert s.freshId in Own(st, owner) && s.freshId !in Own(After(st, s), owner);
    } else {
      forall owner | owner != s.user ensures Own(After(st, s), owner) == Own(st, owner) {
        OthersKeepTheirs(st, s, owner);
      }
    }
  }

  /** A request of the user has the same effect, reply and refreshes as if there were no other users. */
  lemma OwnRequestIsLocal(st: Networks, s: Sent)
    requires Keyed(st) && HasFreshId(st, s)
    ensures Own(After(st, s), s.user) == After(Own(st, s.user), s)
    ensures var e := EffectOf(st, s.user, s.request, s.freshId);
            var own := EffectOf(Own(st, s.user), s.user, s.request, s.freshId);
            e.reply == own.reply && e.refreshed == own.refreshed
  {
    hide Without, IndexOf, Join;
    if s.request.AddMember? && Owns(st, s.user, s.request.id) && Join(st[s.request.id], s.request.member).Ok? {
      JoinKeepsOwner(st[s.request.id], s.request.member);
      JoinHasMember(st[s.request.id], s.request.member);
    }
  }

  lemma JoinHasMember(n: Network, req: MemberRequest)
    requires Join(n, req).Ok?
    ensures IndexOf(n.members, req.name) < |Join(n, req).value.members|
  {
  }

  lemma AnswersAreOwn(st: Networks, owner: string, node: string)
    ensures Answers(st, owner, node) == Answers(Own(st, owner), owner, node)
  {
    var own := Own(st, owner);
    assert forall id :: id in own && Serves(own[id], owner, node) <==> id in st && Serves(st[id], owner, node);
  }

  // ---------- runs ----------

  function OwnRequests(log: seq<Sent>, user: string): seq<Sent> {
    if log == [] then []
    else
      OwnRequests(log[..|log| - 1], user) + if log[|log| - 1].user == user then [log[|log| - 1]] else []
  }

  /** Every create is given an id not in use at that moment. */
  predicate FreshIds(st: Networks, log: seq<Sent>) {
    log == []
    || (FreshIds(st, log[..|log| - 1]) && HasFreshId(NetworksAfter(st, log[..|log| - 1]), log[|log| - 1]))
  }

  /**
    * Whatever the users request in whatever order: as long as ids are fresh, the networks of a user, and the answers
    * its nodes may get, are those of the user's own requests alone.
    */
  lemma {:induction false} TenantsAreIsolated(st: Networks, log: seq<Sent>, owner: string, node: string)
    requires Keyed(st) && FreshIds(st, log)
    ensures Own(NetworksAfter(st, log), owner) == NetworksAfter(Own(st, owner), OwnRequests(log, owner))
    ensures Answers(NetworksAfter(st, log), owner, node)
         == Answers(NetworksAfter(Own(st, owner), OwnRequests(log, owner)), owner, node)
  {
    hide EffectOf, Answers, Own;
    AnswersAreOwn(NetworksAfter(st, log), owner, node);
    if log != [] {
      var init, s := log[..|log| - 1], log[|log| - 1];
      TenantsAreIsolated(st, init, owner, node);
      RunKeepsKeys(st, init);
      assert log == init + [s];
      OneMoreRequest(st, init, s);
      if s.user == owner {
        OwnRequestIsLocal(NetworksAfter(st, init), s);
        OneMoreRequest(Own(st, owner), OwnRequests(init, owner), s);
      } else {
        OthersKeepTheirs(NetworksAfter(st, init), s, owner);
        assert OwnRequests(init, owner) + [] == OwnRequests(init, owner);
      }
    }
  }
}
