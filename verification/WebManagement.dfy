/** The management handlers of webmgmt.go and the configuration handler of sdwanhandler.go, on the shared objects. */
module WebManagement {
  import opened Coherence
  import opened NetworkEffects
  import opened Networks
  import opened NetworkStore
  import opened Protocol
  import opened Results
  import opened Sessions
  import opened VirtualIp

  class ControlPlane {
    const store: Store
    const mgr: SessionManager

    constructor (store: Store, mgr: SessionManager)
      ensures this.store == store && this.mgr == mgr
    {
      this.store, this.mgr := store, mgr;
    }

    ghost predicate Valid()
      reads store, store.networks.Values, mgr, mgr.allSessions.Values
    {
      store.Valid() && mgr.Valid()
    }

    /** The request had this effect: on the networks, on the queues as they were, and in its reply. */
    ghost predicate Took(e: Effect, before: Outboxes, reply: Reply)
      reads store, store.networks.Values, store.AllMembers(), mgr, mgr.allSessions.Values
    {
      && store.Contents() == e.networks && reply == e.reply
      && mgr.Outboxes() == RefreshAll(before, e.refreshed, mgr.nodeNameToID)
    }

    /** notifyNetworkMembers: one refresh per member, in order; the store is not touched. */
    method NotifyNetworkMembers(n: NetworkRecord)
      requires Valid()
      modifies mgr.allSessions.Values`writeCh
      ensures Valid() && store.Contents() == old(store.Contents())
      ensures mgr.Outboxes() == RefreshAll(old(mgr.Outboxes()), Names(old(n.Value()).members), mgr.nodeNameToID)
    {
      ghost var st := store.Contents();
      RefreshMembers(n);
      forall k | k in store.networks ensures store.networks[k].Value() == st[k] {
        assert store.networks[k].Value() == old(store.networks[k].Value());
      }
      store.ContentsAre(st);
    }

    method RefreshMembers(n: NetworkRecord)
      requires mgr.Valid()
      modifies mgr.allSessions.Values`writeCh
      ensures mgr.Valid()
      ensures mgr.Outboxes() == RefreshAll(old(mgr.Outboxes()), Names(old(n.Value()).members), mgr.nodeNameToID)
    {
      ghost var names := Names(n.MemberValues());
      for i := 0 to |n.members|
        invariant mgr.Valid() && n.MemberValues() == old(n.MemberValues())
        invariant RefreshAll(mgr.Outboxes(), names[i..], mgr.nodeNameToID)
               == RefreshAll(old(mgr.Outboxes()), names, mgr.nodeNameToID)
      {
        assert names[i..] == [n.members[i].name] + names[i + 1..];
        mgr.PushSDWanRefresh(n.members[i].name);
      }
      assert names[|names|..] == [];
    }

    method SaveNetwork(user: string, req: SaveRequest, freshId: NetworkId) returns (reply: Reply)
      requires Valid()
      modifies store, store.networks.Values, mgr.allSessions.Values`writeCh
      ensures Valid()
      ensures Took(EffectOf(old(store.Contents()), user, Request.Save(req), freshId), old(mgr.Outboxes()), reply)
      ensures var st, complete := old(store.Contents()), req.settings.gateway.text != "" && req.settings.name != "";
              var owned := req.id in st && st[req.id].user == user;
              var s := if req.settings.mode == "" then req.settings.(mode := "fullmesh") else req.settings;
              && (reply == Rejected(2) <==> !complete)
              && (reply == Rejected(3) <==> complete && req.id != 0 && !owned)
              && (reply.Rejected? ==> store.Contents() == st && mgr.Outboxes() == old(mgr.Outboxes()))
              && (complete && req.id != 0 && owned ==>
                    && reply == Saved(req.id) && store.Contents() == st[req.id := st[req.id].(settings := s)]
                    && mgr.Outboxes() == RefreshAll(old(mgr.Outboxes()), Names(st[req.id].members), mgr.nodeNameToID))
              && (complete && req.id == 0 ==>
                    && reply == Saved(freshId) && store.Contents() == st[freshId := Network(freshId, user, s, [])]
                    && mgr.Outboxes() == old(mgr.Outboxes()))
    {
      hide RefreshAll, Names, Store.Contents, Store.ValueAt, NetworkRecord.MemberValues, SessionManager.Outboxes;
      hide Store.Valid, SessionManager.Valid, NetworkRecord.Valid, NetworkRecord.Configuration, DefaultMode;
      store.ContentsAreKeyed();
      SaveMeans(store.Contents(), user, req, freshId);
      ModeMeans(req.settings);
      hide SaveEffect, Store.AllMembers;
      NobodyRefreshes(mgr.Outboxes(), mgr.nodeNameToID);
      if req.settings.gateway.text == "" || req.settings.name == "" {
        return Rejected(2);
      }
      var n: NetworkRecord?;
      if req.id != 0 {
        n := store.GetNetwork(req.id);
        if n == null || n.user != user {
          return Rejected(3);
        }
        n := Edit(n, req.settings);
      } else {
        n := Create(user, req.settings, freshId);
      }
      NotifyNetworkMembers(n);
      return Saved(n.id);
    }

    /** Edit a network of the store; no queue is touched. */
    method Edit(n: NetworkRecord, s: Settings) returns (edited: NetworkRecord)
      requires Valid() && n.id in store.networks && store.networks[n.id] == n
      modifies store, n
      ensures Valid() && edited == n && n.Value() == old(n.Value()).(settings := DefaultMode(s))
      ensures store.Contents() == old(store.Contents())[n.id := n.Value()]
      ensures mgr.allSessions == old(mgr.allSessions) && mgr.Outboxes() == old(mgr.Outboxes())
    {
      hide DefaultMode, Store.Contents, Store.ValueAt, NetworkRecord.Value, NetworkRecord.Valid;
      store.EditNetwork(n, s);
      edited := n;
    }

    /** Create a network; no queue is touched. */
    method Create(user: string, s: Settings, freshId: NetworkId) returns (n: NetworkRecord)
      requires Valid()
      modifies store
      ensures Valid() && n.id == freshId && n.Value() == Network(freshId, user, DefaultMode(s), [])
      ensures store.Contents() == old(store.Contents())[freshId := n.Value()]
      ensures mgr.allSessions == old(mgr.allSessions) && mgr.Outboxes() == old(mgr.Outboxes())
    {
      hide DefaultMode, Store.Contents, Store.ValueAt, NetworkRecord.Valid;
      n := store.CreateNetwork(user, s, freshId);
    }

    /** Delete the network if it is the user's, and tell its members. */
    method DeleteAndNotify(user: string, id: NetworkId) returns (reply: Reply)
      requires Valid()
      modifies store, mgr.allSessions.Values`writeCh
      ensures Valid()
      ensures Took(DeleteEffect(old(store.Contents()), user, id), old(mgr.Outboxes()), reply)
    {
      hide RefreshAll, Names, Store.Contents, Store.ValueAt, NetworkRecord.MemberValues, SessionManager.Outboxes;
      hide Store.Valid, SessionManager.Valid, NetworkRecord.Valid, NetworkRecord.Configuration, DefaultMode;
      NobodyRefreshes(mgr.Outboxes(), mgr.nodeNameToID);
      var n := store.GetNetwork(id);
      if n == null || n.user != user {
        return Rejected(1);
      }
      store.DeleteNetwork(id);
      NotifyNetworkMembers(n);
      return Done;
    }

    method DeleteNetwork(user: string, id: NetworkId) returns (reply: Reply)
      requires Valid()
      modifies store, mgr.allSessions.Values`writeCh
      ensures Valid()
      ensures Took(EffectOf(old(store.Contents()), user, Request.Delete(id), 0), old(mgr.Outboxes()), reply)
      ensures var st := old(store.Contents());
              && (reply == Done <==> id in st && st[id].user == user)
              && (reply == Done ==>
                    && store.Contents() == st - {id}
                    && mgr.Outboxes() == RefreshAll(old(mgr.Outboxes()), Names(st[id].members), mgr.nodeNameToID))
              && (reply != Done ==>
                    reply == Rejected(1) && store.Contents() == st && mgr.Outboxes() == old(mgr.Outboxes()))
      ensures reply == Done ==> forall owner, node, info :: info in Answers(store.Contents(), owner, node) ==>
        info.settings == None || info.id != id
    {
      store.ContentsAreKeyed();
      DeleteMeans(store.Contents(), user, id);
      GoneIsUnservedByAll(store.Contents() - {id}, id);
      hide DeleteEffect, Answers;
      hide RefreshAll, Names, Store.Contents, Store.ValueAt, NetworkRecord.MemberValues, SessionManager.Outboxes;
      hide Store.Valid, SessionManager.Valid, NetworkRecord.Valid, NetworkRecord.Configuration, Store.AllMembers;
      NobodyRefreshes(mgr.Outboxes(), mgr.nodeNameToID);
      reply := DeleteAndNotify(user, id);
    }

    /** Put a member into the user's network; no queue is touched. */
    method PutMember(n: NetworkRecord, req: MemberRequest) returns (r: Result<string, AllocError>)
      requires Valid() && n.id in store.networks && store.networks[n.id] == n
      modifies store, store.networks.Values, store.AllMembers()
      ensures Valid() && n.Valid() && JoinedAs(old(n.Value()), req, n.Value(), r)
      ensures store.Contents() == old(store.Contents())[n.id := n.Value()]
      ensures mgr.allSessions == old(mgr.allSessions) && mgr.Outboxes() == old(mgr.Outboxes())
    {
      hide JoinedAs, Store.Contents, Store.ValueAt, NetworkRecord.Value, NetworkRecord.Valid;
      store.MembersOf(n);
      r := store.PutMember(n, req);
    }

    method DropMember(n: NetworkRecord, name: string)
      requires Valid() && n.id in store.networks && store.networks[n.id] == n
      modifies store, store.networks.Values
      ensures Valid() && n.Valid() && n.Value() == old(n.Value()).(members := Without(old(n.Value()).members, name))
      ensures store.Contents() == old(store.Contents())[n.id := n.Value()]
      ensures mgr.allSessions == old(mgr.allSessions) && mgr.Outboxes() == old(mgr.Outboxes())
    {
      hide Without, Store.Contents, Store.ValueAt, NetworkRecord.Value, NetworkRecord.Valid;
      store.DropMember(n, name);
    }

    /** What joining one network means for the request. */
    static lemma JoinedEffect(st: Networks, user: string, id: NetworkId, req: MemberRequest, now: Network,
                              r: Result<string, AllocError>)
      requires |req.name| >= MIN_NODE_NAME_LEN && Owns(st, user, id) && JoinedAs(st[id], req, now, r)
      ensures AddMemberEffect(st, user, id, req)
           == if r.Ok? then Stored(st, now, Added(r.value)) else Effect(st[id := now], [], Rejected(4))
    {
      assert r.Err? ==> st[id := now] == st;
    }

    static lemma RefusedEffect(st: Networks, user: string, id: NetworkId, req: MemberRequest)
      ensures |req.name| < MIN_NODE_NAME_LEN ==> AddMemberEffect(st, user, id, req) == Effect(st, [], Rejected(2))
      ensures |req.name| >= MIN_NODE_NAME_LEN && !Owns(st, user, id)
          ==> AddMemberEffect(st, user, id, req) == Effect(st, [], Rejected(3))
    {
    }

    /** Add or update the member if it can be done, and tell all members. */
    method AddAndNotify(user: string, id: NetworkId, req: MemberRequest) returns (reply: Reply)
      requires Valid()
      modifies store, store.networks.Values, store.AllMembers(), mgr.allSessions.Values`writeCh
      ensures Valid()
      ensures Took(AddMemberEffect(old(store.Contents()), user, id, req), old(mgr.Outboxes()), reply)
    {
      hide RefreshAll, Names, Store.Contents, Store.ValueAt, NetworkRecord.MemberValues, SessionManager.Outboxes;
      hide Store.Valid, SessionManager.Valid, NetworkRecord.Valid, NetworkRecord.Configuration, AddMemberEffect;
      hide Store.AllMembers;
      NobodyRefreshes(mgr.Outboxes(), mgr.nodeNameToID);
      RefusedEffect(store.Contents(), user, id, req);
      if |req.name| < MIN_NODE_NAME_LEN {
        return Rejected(2);
      }
      var n := store.GetNetwork(id);
      if n == null || n.user != user {
        return Rejected(3);
      }
      assert mgr.Outboxes() == old(mgr.Outboxes()) && store.AllMembers() == old(store.AllMembers());
      reply := JoinAndNotify(user, n, req);
    }

    method AddNetworkMember(user: string, id: NetworkId, req: MemberRequest) returns (reply: Reply)
      requires Valid()
      modifies store, store.networks.Values, store.AllMembers(), mgr.allSessions.Values`writeCh
      ensures Valid()
      ensures Took(EffectOf(old(store.Contents()), user, Request.AddMember(id, req), 0), old(mgr.Outboxes()), reply)
      ensures var st, now := old(store.Contents()), store.Contents();
              var owned := id in st && st[id].user == user;
              && (reply == Rejected(2) <==> |req.name| < 8)
              && (reply == Rejected(3) <==> |req.name| >= 8 && !owned)
              && (reply == Rejected(4) <==>
                    && |req.name| >= 8 && owned && req.name !in Names(st[id].members) && req.ip == ""
                    && Allocation(st[id].settings.gateway.cidr, Ips(st[id].members)).Err?)
              && (reply.Rejected? ==> now == st && mgr.Outboxes() == old(mgr.Outboxes()))
              && (!reply.Rejected? ==>
                    && owned && id in now && now == st[id := st[id].(members := now[id].members)] && reply.Added?
                    && mgr.Outboxes() == RefreshAll(old(mgr.Outboxes()), Names(now[id].members), mgr.nodeNameToID))
      ensures !reply.Rejected? ==>
        id in old(store.Contents()) && id in store.Contents() && reply.Added?
        && PutInto(old(store.Contents())[id], store.Contents()[id].members, req, reply.ip)
    {
      store.ContentsAreKeyed();
      AddMeans(store.Contents(), user, id, req);
      hide PutInto, Allocation, AddMemberEffect;
      hide RefreshAll, Names, Store.Contents, Store.ValueAt, NetworkRecord.MemberValues, SessionManager.Outboxes;
      hide Store.Valid, SessionManager.Valid, NetworkRecord.Valid, NetworkRecord.Configuration, Store.AllMembers;
      NobodyRefreshes(mgr.Outboxes(), mgr.nodeNameToID);
      reply := AddAndNotify(user, id, req);
    }

    /** The request once the network is known to be the user's. */
    method JoinAndNotify(user: string, n: NetworkRecord, req: MemberRequest) returns (reply: Reply)
      requires Valid() && n.id in store.networks && store.networks[n.id] == n
      requires |req.name| >= MIN_NODE_NAME_LEN
      requires Owns(store.Contents(), user, n.id) && store.Contents()[n.id] == n.Value()
      modifies store, store.networks.Values, store.AllMembers(), mgr.allSessions.Values`writeCh
      ensures Valid()
      ensures Took(AddMemberEffect(old(store.Contents()), user, n.id, req), old(mgr.Outboxes()), reply)
    {
      hide RefreshAll, Names, Store.Contents, Store.ValueAt, NetworkRecord.MemberValues, SessionManager.Outboxes;
      hide Store.Valid, SessionManager.Valid, NetworkRecord.Valid, NetworkRecord.Configuration;
      hide JoinedAs, AddMemberEffect;
      NobodyRefreshes(mgr.Outboxes(), mgr.nodeNameToID);
      var added := PutMember(n, req);
      JoinedEffect(old(store.Contents()), user, n.id, req, n.Value(), added);
      if added.Err? {
        return Rejected(4);
      }
      NotifyNetworkMembers(n);
      return Added(added.value);
    }

    /** Remove the member if the network is the user's, and tell those who stay and then the removed node. */
    method DropAndNotify(user: string, id: NetworkId, name: string) returns (reply: Reply)
      requires Valid()
      modifies store, store.networks.Values, mgr.allSessions.Values`writeCh
      ensures Valid()
      ensures Took(DelMemberEffect(old(store.Contents()), user, id, name), old(mgr.Outboxes()), reply)
    {
      hide RefreshAll, Names, Store.Contents, Store.ValueAt, NetworkRecord.MemberValues, SessionManager.Outboxes;
      hide Store.Valid, SessionManager.Valid, NetworkRecord.Valid, NetworkRecord.Configuration, DefaultMode;
      NobodyRefreshes(mgr.Outboxes(), mgr.nodeNameToID);
      hide Without;
      var n := store.GetNetwork(id);
      if n == null || n.user != user {
        return Rejected(2);
      }
      DropMember(n, name);
      ghost var names := Names(n.Value().members);
      NotifyNetworkMembers(n);
      PushSDWanRefresh(name);
      RefreshOneMore(old(mgr.Outboxes()), names, name, mgr.nodeNameToID);
      return Done;
    }

    method DelNetworkMember(user: string, id: NetworkId, name: string) returns (reply: Reply)
      requires Valid()
      modifies store, store.networks.Values, mgr.allSessions.Values`writeCh
      ensures Valid()
      ensures Took(EffectOf(old(store.Contents()), user, Request.DelMember(id, name), 0), old(mgr.Outboxes()), reply)
      ensures var st, now := old(store.Contents()), store.Contents();
              && (reply == Done <==> id in st && st[id].user == user)
              && (reply != Done ==> reply == Rejected(2) && now == st && mgr.Outboxes() == old(mgr.Outboxes()))
              && (reply == Done ==>
                    && id in now && now == st[id := st[id].(members := now[id].members)]
                    && name !in Names(now[id].members)
                    && (exists at :: Picks(st[id].members, at, now[id].members)
                          && forall j :: 0 <= j < |st[id].members| ==> (j in at <==> st[id].members[j].name != name))
                    && mgr.Outboxes()
                       == RefreshAll(old(mgr.Outboxes()), Names(now[id].members) + [name], mgr.nodeNameToID))
    {
      store.ContentsAreKeyed();
      DelMeans(store.Contents(), user, id, name);
      hide Picks, DelMemberEffect;
      hide RefreshAll, Names, Store.Contents, Store.ValueAt, NetworkRecord.MemberValues, SessionManager.Outboxes;
      hide Store.Valid, SessionManager.Valid, NetworkRecord.Valid, NetworkRecord.Configuration, Store.AllMembers;
      NobodyRefreshes(mgr.Outboxes(), mgr.nodeNameToID);
      reply := DropAndNotify(user, id, name);
    }

    /** pushSDWanRefresh; the store is not touched. */
    method PushSDWanRefresh(name: string)
      requires Valid()
      modifies mgr.allSessions.Values`writeCh
      ensures Valid() && store.Contents() == old(store.Contents())
      ensures mgr.Outboxes() == Queued(old(mgr.Outboxes()), mgr.nodeNameToID(name), SdwanRefresh)
    {
      ghost var st := store.Contents();
      mgr.PushSDWanRefresh(name);
      forall k | k in store.networks ensures store.networks[k].Value() == st[k] {
        assert store.networks[k].Value() == old(store.networks[k].Value());
      }
      store.ContentsAre(st);
    }

    /** The handler of a configuration request: queue one of the answers possible now. */
    method HandleSDWANInfoReq(sess: Session)
      requires Valid()
      modifies sess`writeCh
      ensures if old(sess.running)
              then exists info :: info in old(Answers(store.Contents(), sess.user, sess.node))
                               && IsAnswer(old(store.Contents()), sess.user, sess.node, info)
                               && sess.writeCh == old(sess.writeCh) + [SdwanInfoRsp(info)]
              else sess.writeCh == old(sess.writeCh)
    {
      hide Answers, IsAnswer;
      var info := store.BuildSDWANInfo(sess.user, sess.node);
      sess.Write(SdwanInfoRsp(info));
    }
  }
}
