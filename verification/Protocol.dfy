/** Node ids, the messages the gateway queues for a session, and the queues as values. */
module Protocol {
  import opened Networks
  import opened Results

  /** The CRC-64 of a node name; the hash itself is a parameter of the model. */
  type NodeId = nat

  /** What a node may learn of an online peer. */
  datatype PeerInfo = PeerInfo(
    version: string, ipv4: string, lanIP: string, hasIPv4: int, hasUPNPorNATPMP: int, natType: int, ipv6: string)

  datatype Message =
    | LoginRsp
    | SdwanRefresh
    | SdwanInfoRsp(info: SdwanInfo)
    | Pushed(from: NodeId, to: NodeId, subType: nat)
    | PushRsp(error: nat)
    | PeerInfoRsp(peer: Option<PeerInfo>)
    | RelayNodeRsp(mode: string, relay: string, token: nat)

  /** The queue of every online session. */
  type Outboxes = map<NodeId, seq<Message>>

  /** Queue a message for a node; a node that is not online gets nothing. */
  function Queued(outs: Outboxes, id: NodeId, msg: Message): Outboxes {
    if id in outs then outs[id := outs[id] + [msg]] else outs
  }

  /** One refresh per name, in order. */
  function RefreshAll(outs: Outboxes, names: seq<string>, idOf: string -> NodeId): (r: Outboxes)
    ensures r.Keys == outs.Keys
  {
    if names == [] then outs
    else RefreshAll(Queued(outs, idOf(names[0]), SdwanRefresh), names[1..], idOf)
  }

  lemma NobodyRefreshes(outs: Outboxes, idOf: string -> NodeId)
    ensures RefreshAll(outs, [], idOf) == outs
  {
  }

  lemma {:induction false} RefreshOneMore(outs: Outboxes, names: seq<string>, name: string, idOf: string -> NodeId)
    ensures RefreshAll(outs, names + [name], idOf) == Queued(RefreshAll(outs, names, idOf), idOf(name), SdwanRefresh)
  {
    if names == [] {
      assert [name][1..] == [];
    } else {
      assert (names + [name])[1..] == names[1..] + [name];
      RefreshOneMore(Queued(outs, idOf(names[0]), SdwanRefresh), names[1..], name, idOf);
    }
  }

  lemma {:induction false} RefreshReaches(outs: Outboxes, names: seq<string>, idOf: string -> NodeId, id: NodeId)
    requires id in outs
    ensures outs[id] <= RefreshAll(outs, names, idOf)[id]
    ensures RefreshAll(outs, names, idOf)[id] == outs[id] || SdwanRefresh in RefreshAll(outs, names, idOf)[id]
    ensures (exists i :: 0 <= i < |names| && idOf(names[i]) == id)
        ==> SdwanRefresh in RefreshAll(outs, names, idOf)[id]
  {
    if names != [] {
      var outs1 := Queued(outs, idOf(names[0]), SdwanRefresh);
      RefreshReaches(outs1, names[1..], idOf, id);
      if idOf(names[0]) == id {
        assert outs1[id][|outs[id]|] == SdwanRefresh;
      }
      if i :| 0 <= i < |names| && idOf(names[i]) == id {
        assert i > 0 ==> names[1..][i - 1] == names[i];
      }
    }
  }

  /** Whatever a queue gains is a refresh. */
  lemma {:induction false} RefreshOnlyAdds(outs: Outboxes, names: seq<string>, idOf: string -> NodeId, id: NodeId)
    returns (added: seq<Message>)
    requires id in outs
    ensures RefreshAll(outs, names, idOf)[id] == outs[id] + added && forall m :: m in added ==> m == SdwanRefresh
  {
    if names == [] {
      added := [];
    } else {
      var head := if idOf(names[0]) == id then [SdwanRefresh] else [];
      var rest := RefreshOnlyAdds(Queued(outs, idOf(names[0]), SdwanRefresh), names[1..], idOf, id);
      added := head + rest;
      assert outs[id] + head + rest == outs[id] + added;
    }
  }

  /** How many of the names hash to an id. */
  function CountOf(names: seq<string>, idOf: string -> NodeId, id: NodeId): nat {
    if names == [] then 0 else (if idOf(names[0]) == id then 1 else 0) + CountOf(names[1..], idOf, id)
  }

  /** Nobody comes online or goes, and a queue gains one refresh per name that hashes to its id, and nothing else. */
  lemma {:induction false} RefreshCounts(outs: Outboxes, names: seq<string>, idOf: string -> NodeId, id: NodeId)
    ensures id in outs <==> id in RefreshAll(outs, names, idOf)
    ensures id in outs ==>
      RefreshAll(outs, names, idOf)[id] == outs[id] + seq(CountOf(names, idOf, id), _ => SdwanRefresh)
  {
    if names == [] {
      assert id in outs ==> outs[id] + [] == outs[id];
    } else {
      RefreshCounts(Queued(outs, idOf(names[0]), SdwanRefresh), names[1..], idOf, id);
      if id in outs && idOf(names[0]) == id {
        OneMoreRefresh(outs[id], CountOf(names[1..], idOf, id));
      }
    }
  }

  lemma OneMoreRefresh(outbox: seq<Message>, n: nat)
    ensures (outbox + [SdwanRefresh]) + seq(n, _ => SdwanRefresh) == outbox + seq(1 + n, _ => SdwanRefresh)
  {
  }
}
