/** The virtual networks of store.go and what each management request of webmgmt.go does to them, as values. */
module Networks {
  import opened Results
  import opened VirtualIp

  type NetworkId = nat

  const MIN_NODE_NAME_LEN: nat := 8

  /** The text of a gateway, and what parsing it as an address with a prefix yields. */
  datatype Gateway = Gateway(text: string, cidr: Cidr)

  datatype Member = Member(name: string, ip: string, resource: string, enable: int)

  datatype Settings = Settings(
    name: string, gateway: Gateway, mode: string, centralNode: string, forceRelay: int,
    punchPriority: int, enable: int, tunnelNum: int, mtu: int)

  datatype Network = Network(id: NetworkId, user: string, settings: Settings, members: seq<Member>)

  type Networks = map<NetworkId, Network>

  function Names(members: seq<Member>): (r: seq<string>)
    ensures |r| == |members| && forall i :: 0 <= i < |r| ==> r[i] == members[i].name
  {
    seq(|members|, i requires 0 <= i < |members| => members[i].name)
  }

  function Ips(members: seq<Member>): (r: seq<string>)
    ensures |r| == |members| && forall i :: 0 <= i < |r| ==> r[i] == members[i].ip
  {
    seq(|members|, i requires 0 <= i < |members| => members[i].ip)
  }

  // ---------- the management requests ----------

  /** A request to create (id 0) or edit a network. */
  datatype SaveRequest = SaveRequest(id: NetworkId, settings: Settings)

  datatype MemberRequest = MemberRequest(name: string, ip: string, resource: string, enable: int)

  datatype Request =
    | Save(save: SaveRequest)
    | Delete(id: NetworkId)
    | AddMember(id: NetworkId, member: MemberRequest)
    | DelMember(id: NetworkId, name: string)

  datatype Reply = Done | Saved(id: NetworkId) | Added(ip: string) | Rejected(error: nat)

  /** Outcome of a request: the networks afterwards, the names whose node is told to refresh, and the reply. */
  datatype Effect = Effect(networks: Networks, refreshed: seq<string>, reply: Reply)

  predicate Owns(st: Networks, user: string, id: NetworkId) {
    id in st && st[id].user == user
  }

  function DefaultMode(s: Settings): Settings {
    if s.mode == "" then s.(mode := "fullmesh") else s
  }

  function SaveEffect(st: Networks, user: string, req: SaveRequest, freshId: NetworkId): Effect {
    if req.settings.gateway.text == "" || req.settings.name == "" then Effect(st, [], Rejected(2))
    else if req.id != 0 then
      if !Owns(st, user, req.id) then Effect(st, [], Rejected(3))
      else Stored(st, st[req.id].(settings := DefaultMode(req.settings)), Saved(req.id))
    else Stored(st, Network(freshId, user, DefaultMode(req.settings), []), Saved(freshId))
  }

  /** The record is stored under its id, and all its members are told. */
  function Stored(st: Networks, n: Network, reply: Reply): Effect {
    Effect(st[n.id := n], Names(n.members), reply)
  }

  function DeleteEffect(st: Networks, user: string, id: NetworkId): Effect {
    if !Owns(st, user, id) then Effect(st, [], Rejected(1))
    else Effect(st - {id}, Names(st[id].members), Done)
  }

  /** Index of the first member of that name, or the number of members. */
  function IndexOf(members: seq<Member>, name: string): (i: nat)
    ensures i <= |members|
    ensures i < |members| ==> members[i].name == name
    ensures forall j :: 0 <= j < i ==> members[j].name != name
  {
    if members == [] || members[0].name == name then 0 else 1 + IndexOf(members[1..], name)
  }

  function Updated(m: Member, req: MemberRequest): Member {
    Member(m.name, if req.ip != "" then req.ip else m.ip, req.resource, req.enable)
  }

  /** The address of a new member: the one asked for, or the first free one. */
  function NewIp(n: Network, req: MemberRequest): Result<string, AllocError> {
    if req.ip != "" then Ok(req.ip) else Allocation(n.settings.gateway.cidr, Ips(n.members))
  }

  function WithMember(members: seq<Member>, req: MemberRequest, ip: string): seq<Member> {
    var i := IndexOf(members, req.name);
    if i < |members| then members[i := Updated(members[i], req)]
    else members + [Updated(Member(req.name, ip, "", 0), req)]
  }

  /** The network with the member updated or added, unless a new member finds no address. */
  function Join(n: Network, req: MemberRequest): (r: Result<Network, AllocError>)
    ensures r.Ok? ==> IndexOf(n.members, req.name) < |r.value.members|
  {
    var ip := if IndexOf(n.members, req.name) < |n.members| then Ok("") else NewIp(n, req);
    if ip.Err? then Err(ip.error) else Ok(n.(members := WithMember(n.members, req, ip.value)))
  }

  function AddMemberEffect(st: Networks, user: string, id: NetworkId, req: MemberRequest): Effect {
    if |req.name| < MIN_NODE_NAME_LEN then Effect(st, [], Rejected(2))
    else if !Owns(st, user, id) then Effect(st, [], Rejected(3))
    else
      match Join(st[id], req)
      case Err(_) => Effect(st, [], Rejected(4))
      case Ok(n) => Stored(st, n, Added(n.members[IndexOf(st[id].members, req.name)].ip))
  }

  function Without(members: seq<Member>, name: string): seq<Member> {
    if members == [] then []
    else (if members[0].name == name then [] else [members[0]]) + Without(members[1..], name)
  }

  function DelMemberEffect(st: Networks, user: string, id: NetworkId, name: string): Effect {
    if !Owns(st, user, id) then Effect(st, [], Rejected(2))
    else
      var e := Stored(st, st[id].(members := Without(st[id].members, name)), Done);
      e.(refreshed := e.refreshed + [name])
  }

  /** freshId is the id a create would give its network. */
  function EffectOf(st: Networks, user: string, req: Request, freshId: NetworkId): Effect {
    match req
    case Save(s) => SaveEffect(st, user, s, freshId)
    case Delete(id) => DeleteEffect(st, user, id)
    case AddMember(id, m) => AddMemberEffect(st, user, id, m)
    case DelMember(id, name) => DelMemberEffect(st, user, id, name)
  }

  // ---------- what a node is told about its network ----------

  datatype SdwanInfo = SdwanInfo(id: NetworkId, settings: Option<Settings>, nodes: seq<Member>)

  const NO_NETWORK: SdwanInfo := SdwanInfo(0, None, [])

  function Enabled(members: seq<Member>): seq<Member> {
    if members == [] then []
    else (if members[0].enable == 0 then [] else [members[0]]) + Enabled(members[1..])
  }

  function Render(n: Network): SdwanInfo {
    SdwanInfo(n.id, Some(n.settings), Enabled(n.members))
  }

  /** The network is enabled, belongs to the user and has the node as a member, enabled or not. */
  predicate Serves(n: Network, user: string, node: string) {
    n.user == user && n.settings.enable != 0 && node in Names(n.members)
  }

  /** All the answers a node may get: the store is searched in no particular order. */
  function Answers(st: Networks, user: string, node: string): set<SdwanInfo> {
    var served := set id | id in st && Serves(st[id], user, node) :: Render(st[id]);
    if served == {} then {NO_NETWORK} else served
  }
}
