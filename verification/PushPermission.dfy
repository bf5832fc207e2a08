/** The table of push permissions (pushhandler.go, queryhandler.go, wssession.go), as values and against its history. */
module PushPermission {
  import opened GoTime
  import opened Protocol

  const PERMISSION_TIME: nat := MINUTE

  /** A grant: the other node, which is never looked at again, and the instant it ends. */
  datatype PushNodeInfo = PushNodeInfo(to: NodeId, expiredAt: Time)

  type Table = map<NodeId, PushNodeInfo>

  // ---------- message types ----------

  const MSG_PUSH_RSP: nat := 0
  const MSG_PUSH_CONNECT_REQ: nat := 1
  const MSG_PUSH_CONNECT_RSP: nat := 2
  const MSG_PUSH_HANDSHAKE_START: nat := 3
  const MSG_PUSH_ADD_RELAY_TUNNEL_REQ: nat := 4
  const MSG_PUSH_ADD_RELAY_TUNNEL_RSP: nat := 5
  const MSG_PUSH_UPDATE: nat := 6
  const MSG_PUSH_UNDERLAY_CONNECT: nat := 8
  const MSG_PUSH_EDIT_NODE: nat := 12
  const MSG_PUSH_APP_KEY: nat := 13
  const MSG_PUSH_REPORT_LOG: nat := 14
  const MSG_PUSH_DST_NODE_ONLINE: nat := 15
  const MSG_PUSH_SERVER_SIDE_SAVE_MEM_APP: nat := 18
  const MSG_PUSH_SDWAN_REFRESH: nat := 22

  predicate IsSupportMsg(msgType: nat) {
    || msgType == MSG_PUSH_RSP
    || msgType == MSG_PUSH_CONNECT_REQ
    || msgType == MSG_PUSH_CONNECT_RSP
    || msgType == MSG_PUSH_HANDSHAKE_START
    || msgType == MSG_PUSH_ADD_RELAY_TUNNEL_REQ
    || msgType == MSG_PUSH_ADD_RELAY_TUNNEL_RSP
    || msgType == MSG_PUSH_UNDERLAY_CONNECT
    || msgType == MSG_PUSH_SERVER_SIDE_SAVE_MEM_APP
    || msgType == MSG_PUSH_UPDATE
    || msgType == MSG_PUSH_EDIT_NODE
    || msgType == MSG_PUSH_REPORT_LOG
    || msgType == MSG_PUSH_DST_NODE_ONLINE
    || msgType == MSG_PUSH_SDWAN_REFRESH
    || msgType == MSG_PUSH_APP_KEY
  }

  predicate IsByPassMsg(msgType: nat) {
    msgType == MSG_PUSH_APP_KEY || msgType == MSG_PUSH_SERVER_SIDE_SAVE_MEM_APP
  }

  /** Messages that are forwarded only with a permission. */
  predicate IsGated(msgType: nat) {
    IsSupportMsg(msgType) && msgType != MSG_PUSH_CONNECT_REQ && !IsByPassMsg(msgType)
  }

  // ---------- the table operations ----------

  function Put(t: Table, key: NodeId, to: NodeId, at: Time): Table {
    t[key := PushNodeInfo(to, at + PERMISSION_TIME)]
  }

  predicate Granted(t: Table, key: NodeId, now: Time) {
    key in t && now < t[key].expiredAt
  }

  /** The check of a gated message deletes a permission it finds expired. */
  function AfterCheck(t: Table, key: NodeId, now: Time): Table {
    if Granted(t, key, now) then t else t - {key}
  }

  // ---------- serial runs: the table against its history ----------

  datatype Event =
    | Grant(key: NodeId, to: NodeId, at: Time)
    | Check(key: NodeId, at: Time)
    | Cleanup(key: NodeId, at: Time)

  function TableAfter(history: seq<Event>): Table {
    if history == [] then map[]
    else AfterEvent(TableAfter(history[..|history| - 1]), history[|history| - 1])
  }

  function AfterEvent(t: Table, e: Event): Table {
    match e
    case Grant(k, to, at) => Put(t, k, to, at)
    case Check(k, at) => AfterCheck(t, k, at)
    case Cleanup(k, _) => t - {k}
  }

  /** The clock never goes back along the history. */
  ghost predicate Ordered(history: seq<Event>) {
    forall i, j :: 0 <= i < j < |history| ==> history[i].at <= history[j].at
  }

  /** The i-th event grants the key less than a minute before `now`, and the node has not disconnected since. */
  ghost predicate LiveGrant(history: seq<Event>, i: nat, key: NodeId, now: Time) {
    && i < |history| && history[i].Grant? && history[i].key == key && now < history[i].at + PERMISSION_TIME
    && forall j :: i < j < |history| ==> !(history[j].Cleanup? && history[j].key == key)
  }

  lemma {:induction false} LiveGrantIsFound(history: seq<Event>, i: nat, key: NodeId, now: Time)
    requires Ordered(history) && LiveGrant(history, i, key, now)
    requires forall j :: 0 <= j < |history| ==> history[j].at <= now
    ensures Granted(TableAfter(history), key, now)
  {
    var n := |history| - 1;
    if i < n && !(history[n].Grant? && history[n].key == key) {
      assert LiveGrant(history[..n], i, key, now);
      LiveGrantIsFound(history[..n], i, key, now);
    }
  }

  lemma {:induction false} GrantedIsLive(history: seq<Event>, key: NodeId, now: Time) returns (i: nat)
    requires Granted(TableAfter(history), key, now)
    ensures LiveGrant(history, i, key, now)
  {
    var n := |history| - 1;
    if history[n].Grant? && history[n].key == key {
      i := n;
    } else {
      i := GrantedIsLive(history[..n], key, now);
    }
  }

  /**
    * Serial runs: a gated message passes exactly when the history holds a grant to its claimed sender, younger than
    * a minute and later than the last disconnect of that node; deleting expired entries never matters.
    */
  lemma CheckIsHistory(history: seq<Event>, key: NodeId, now: Time)
    requires Ordered(history) && forall j :: 0 <= j < |history| ==> history[j].at <= now
    ensures Granted(TableAfter(history), key, now) <==> exists i: nat :: LiveGrant(history, i, key, now)
  {
    if Granted(TableAfter(history), key, now) {
      var i := GrantedIsLive(history, key, now);
    }
    if i: nat :| LiveGrant(history, i, key, now) {
      LiveGrantIsFound(history, i, key, now);
    }
  }
}
