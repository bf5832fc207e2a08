/** The store's network records as objects that requests change in place (store.go, webmgmt.go). */
module NetworkStore {
  import opened NetworkEffects
  import opened Networks
  import opened Results
  import opened VirtualIp

  class MemberRecord {
    ghost const home: NetworkId  // the network the object belongs to
    const name: string
    var ip: string
    var resource: string
    var enable: int

    constructor (name: string, ip: string, ghost home: NetworkId)
      ensures Value() == Member(name, ip, "", 0) && this.home == home
    {
      this.name, this.ip, resource, enable := name, ip, "", 0;
      this.home := home;
    }

    function Value(): Member
      reads this
    {
      Member(name, ip, resource, enable)
    }

    method Apply(req: MemberRequest)
      modifies this
      ensures Value() == Updated(old(Value()), req)
      ensures resource == req.resource && enable == req.enable && ip == if req.ip != "" then req.ip else old(ip)
    {
      if req.ip != "" {
        ip := req.ip;
      }
      resource := req.resource;
      enable := req.enable;
    }
  }

  /** What adding a member to `was` leaves, and the address reported for the member. */
  ghost predicate JoinedAs(was: Network, req: MemberRequest, now: Network, r: Result<string, AllocError>) {
    match Join(was, req)
    case Err(e) => r == Err(e) && now == was
    case Ok(n) => now == n && r == Ok(n.members[IndexOf(was.members, req.name)].ip)
  }

  /** The ways a join can go: no address, an update of the member found, or an update of a member just appended. */
  lemma JoinCases(was: Network, req: MemberRequest)
    ensures var i, ip := IndexOf(was.members, req.name), NewIp(was, req);
            if i < |was.members| then Applied(was, req, was.members, i)
            else if ip.Err? then JoinedAs(was, req, was, Err(ip.error))
            else Applied(was, req, was.members + [Member(req.name, ip.value, "", 0)], i)
  {
    hide Allocation;
  }

  ghost predicate Applied(was: Network, req: MemberRequest, grown: seq<Member>, i: nat)
    requires i < |grown|
  {
    JoinedAs(was, req, was.(members := grown[i := Updated(grown[i], req)]), Ok(Updated(grown[i], req).ip))
  }

  class NetworkRecord {
    const id: NetworkId
    const user: string
    var name: string
    var gateway: Gateway
    var mode: string
    var centralNode: string
    var forceRelay: int
    var punchPriority: int
    var enable: int
    var tunnelNum: int
    var mtu: int
    var members: seq<MemberRecord>

    /** No member object occurs twice, and none belongs to another network. */
    ghost predicate Valid()
      reads this
    {
      && (forall i, j :: 0 <= i < j < |members| ==> members[i] != members[j])
      && (forall m :: m in members ==> m.home == id)
    }

    function Configuration(): Settings
      reads this
    {
      Settings(name, gateway, mode, centralNode, forceRelay, punchPriority, enable, tunnelNum, mtu)
    }

    ghost function MemberValues(): (r: seq<Member>)
      reads this, members
      ensures |r| == |members| && forall i :: 0 <= i < |r| ==> r[i] == members[i].Value()
    {
      seq(|members|, i requires 0 <= i < |members| reads this, members => members[i].Value())
    }

    ghost function Value(): Network
      reads this, members
    {
      Network(id, user, Configuration(), MemberValues())
    }

    constructor (id: NetworkId, user: string, s: Settings)
      ensures Valid() && members == [] && this.id == id && this.user == user
      ensures Value() == Network(id, user, DefaultMode(s), [])
    {
      this.id, this.user, members := id, user, [];
      new;
      Edit(s);
    }

    /** saveNetwork: every setting is overwritten, an empty mode meaning a full mesh. */
    method Edit(s: Settings)
      modifies this`name, this`gateway, this`mode, this`centralNode, this`forceRelay,
        this`punchPriority, this`enable, this`tunnelNum, this`mtu
      ensures Configuration() == DefaultMode(s) == if s.mode == "" then s.(mode := "fullmesh") else s
    {
      name := s.name;
      gateway := s.gateway;
      mode := s.mode;
      if mode == "" {
        mode := "fullmesh";
      }
      centralNode := s.centralNode;
      forceRelay := s.forceRelay;
      punchPriority := s.punchPriority;
      enable := s.enable;
      tunnelNum := s.tunnelNum;
      mtu := s.mtu;
    }

    method Find(name: string) returns (i: nat)
      ensures i == IndexOf(MemberValues(), name)
    {
      i := 0;
      while i < |members|
        invariant i <= |members|
        invariant forall j :: 0 <= j < i ==> members[j].name != name
      {
        if members[i].name == name {
          break;
        }
        i := i + 1;
      }
      IndexIsFirst(MemberValues(), name, i);
    }

    method HasMember(name: string) returns (found: bool)
      ensures found <==> name in Names(MemberValues())
    {
      for i := 0 to |members|
        invariant name !in Names(MemberValues())[..i]
      {
        if members[i].name == name {
          assert Names(MemberValues())[i] == name;
          return true;
        }
      }
      return false;
    }

    /** buildSDWANInfo: copy the settings, and the enabled members in order. */
    method Info() returns (info: SdwanInfo)
      ensures info == Render(Value()) && Renders(Value(), info)
    {
      RenderMeans(Value());
      hide Renders;
      ghost var all := MemberValues();
      var nodes: seq<Member> := [];
      for i := 0 to |members|
        invariant nodes == Enabled(all[..i])
      {
        EnabledLast(all[..i], all[i]);
        assert all[..i + 1] == all[..i] + [all[i]];
        if members[i].enable == 0 {
          continue;
        }
        nodes := nodes + [members[i].Value()];
      }
      assert all[..|all|] == all;
      return SdwanInfo(id, Some(Configuration()), nodes);
    }

    method MemberIps() returns (ips: seq<string>)
      ensures ips == Ips(MemberValues())
    {
      ips := [];
      for i := 0 to |members|
        invariant |ips| == i && forall j :: 0 <= j < i ==> ips[j] == members[j].ip
      {
        ips := ips + [members[i].ip];
      }
    }

    /** addNetworkMember: update the member of that name, or allocate an address and append a new one. */
    method PutMember(req: MemberRequest) returns (r: Result<string, AllocError>)
      requires Valid()
      modifies this`members, members
      ensures Valid() && (forall m :: m in members ==> m in old(members) || fresh(m))
      ensures JoinedAs(old(Value()), req, Value(), r)
    {
      ghost var was := Value();
      JoinCases(was, req);
      hide Join, JoinedAs, NewIp, Updated, IndexOf;
      var i := Find(req.name);
      if i == |members| {
        var ip := ChooseIp(req);
        if ip.Err? {
          return ip;
        }
        AppendMember(req.name, ip.value);
      }
      ghost var grown := MemberValues();
      members[i].Apply(req);
      assert MemberValues() == grown[i := Updated(grown[i], req)];
      assert Value() == was.(members := grown[i := Updated(grown[i], req)]);
      r := Ok(members[i].ip);
    }

    method ChooseIp(req: MemberRequest) returns (ip: Result<string, AllocError>)
      ensures ip == NewIp(Value(), req)
      ensures ip == if req.ip != "" then Ok(req.ip) else Allocation(gateway.cidr, Ips(MemberValues()))
    {
      hide Allocation;
      if req.ip != "" {
        return Ok(req.ip);
      }
      var ips := MemberIps();
      ip := AllocVirtualIP(gateway.cidr, ips);
    }

    method AppendMember(name: string, ip: string)
      requires Valid()
      modifies this`members
      ensures Valid() && |members| == |old(members)| + 1 && members[..|old(members)|] == old(members)
      ensures fresh(members[|old(members)|])
      ensures MemberValues() == old(MemberValues()) + [Member(name, ip, "", 0)]
    {
      var m := new MemberRecord(name, ip, id);
      members := members + [m];
    }

    /** delNetworkMember: keep the members of other names, in order. */
    method DropMember(name: string)
      requires Valid()
      modifies this`members
      ensures Valid() && (forall m :: m in members ==> m in old(members))
      ensures MemberValues() == Without(old(MemberValues()), name)
      ensures forall m :: m in members <==> m in old(members) && m.name != name
    {
      ghost var was := MemberValues();
      var kept: seq<MemberRecord> := [];
      for i := 0 to |members|
        invariant members == old(members)
        invariant forall m :: m in kept <==> m in members[..i] && m.name != name
        invariant forall a, b :: 0 <= a < b < |kept| ==> kept[a] != kept[b]
        invariant |kept| == |Without(was[..i], name)|
        invariant forall a :: 0 <= a < |kept| ==> kept[a].Value() == Without(was[..i], name)[a]
      {
        WithoutLast(was[..i], was[i], name);
        assert was[..i + 1] == was[..i] + [was[i]];
        assert members[..i + 1] == members[..i] + [members[i]];
        assert members[i] !in members[..i];
        if members[i].name != name {
          kept := kept + [members[i]];
        }
      }
      assert was[..|was|] == was && members[..|members|] == members;
      members := kept;
    }
  }

  class Store {
    var networks: map<NetworkId, NetworkRecord>

    ghost function AllMembers(): set<MemberRecord>
      reads this, networks.Values
    {
      set n, m | n in networks.Values && m in n.members :: m
    }

    /** Every record sits under its own id. */
    ghost predicate Valid()
      reads this, networks.Values
    {
      forall id :: id in networks ==> networks[id].id == id && networks[id].Valid()
    }

    ghost function ValueAt(id: NetworkId): Network
      requires id in networks
      reads this, networks.Values, AllMembers()
    {
      assert forall m :: m in networks[id].members ==> m in AllMembers();
      networks[id].Value()
    }

    ghost function Contents(): (st: Networks)
      reads this, networks.Values, AllMembers()
      ensures st.Keys == networks.Keys
    {
      map id | id in networks :: ValueAt(id)
    }

    constructor ()
      ensures Valid() && Contents() == map[]
    {
      networks := map[];
    }

    method GetNetwork(id: NetworkId) returns (n: NetworkRecord?)
      requires Valid()
      ensures n == if id in networks then networks[id] else null
      ensures Contents() == old(Contents()) && (n == null <==> id !in Contents())
      ensures n != null ==> n.id == id && n.Valid() && Contents()[id] == n.Value() && n.Value().user == n.user
    {
      n := if id in networks then networks[id] else null;
    }

    method SaveNetwork(n: NetworkRecord)
      requires Valid() && n.Valid()
      modifies this
      ensures Valid() && networks == old(networks)[n.id := n]
      ensures Contents() == old(Contents())[n.id := n.Value()]
    {
      networks := networks[n.id := n];
    }

    method DeleteNetwork(id: NetworkId)
      requires Valid()
      modifies this
      ensures Valid() && networks == old(networks) - {id}
      ensures Contents() == old(Contents()) - {id}
    {
      networks := networks - {id};
    }

    lemma ContentsAreKeyed()
      requires Valid()
      ensures forall id :: id in Contents() ==> Contents()[id].id == id
    {
    }

    lemma MembersOf(n: NetworkRecord)
      requires n in networks.Values
      ensures forall m :: m in n.members ==> m in AllMembers()
    {
    }

    lemma ContentsAre(was: Networks)
      requires was.Keys == networks.Keys && forall k :: k in networks ==> networks[k].Value() == was[k]
      ensures Contents() == was
    {
    }

    /** If all records but one still have their former values, the contents change at the id of that one. */
    lemma OneRecordChanged(was: Networks, n: NetworkRecord)
      requires n.id in networks && networks[n.id] == n && was.Keys == networks.Keys
      requires forall k :: k in networks && k != n.id ==> networks[k].Value() == was[k]
      ensures Contents() == was[n.id := n.Value()]
    {
    }

    method ChangeMember(n: NetworkRecord, req: MemberRequest) returns (r: Result<string, AllocError>)
      requires Valid() && n.id in networks && networks[n.id] == n
      modifies n`members, n.members
      ensures Valid() && n.Valid() && networks == old(networks)
      ensures JoinedAs(old(n.Value()), req, n.Value(), r)
      ensures Contents() == old(Contents())[n.id := n.Value()]
    {
      hide JoinedAs;
      ghost var was := Contents();
      ghost var touched := n.members;
      r := n.PutMember(req);
      forall k | k in networks && k != n.id ensures networks[k].Value() == was[k] {
        var other := networks[k];
        assert other.id == k && other != n;
        assert other.members == old(other.members) && other.Configuration() == old(other.Configuration());
        forall m | m in other.members ensures m.Value() == old(m.Value()) {
          assert m.home == k && m !in touched;
        }
        assert other.MemberValues() == old(other.MemberValues());
        assert was[k] == old(other.Value());
      }
      OneRecordChanged(was, n);
    }

    /** Put a member into one network and save it; the others keep theirs. */
    method PutMember(n: NetworkRecord, req: MemberRequest) returns (r: Result<string, AllocError>)
      requires Valid() && n.id in networks && networks[n.id] == n
      modifies this, n`members, n.members
      ensures Valid() && n.Valid() && networks == old(networks)
      ensures JoinedAs(old(n.Value()), req, n.Value(), r)
      ensures Contents() == old(Contents())[n.id := n.Value()]
    {
      hide JoinedAs;
      hide Contents, ValueAt, Valid, NetworkRecord.Value, NetworkRecord.Valid;
      r := ChangeMember(n, req);
      SaveNetwork(n);
    }

    method RemoveMember(n: NetworkRecord, name: string)
      requires Valid() && n.id in networks && networks[n.id] == n
      modifies n`members
      ensures Valid() && n.Valid() && networks == old(networks)
      ensures n.Value() == old(n.Value()).(members := Without(old(n.Value()).members, name))
      ensures Contents() == old(Contents())[n.id := n.Value()]
    {
      hide Without;
      ghost var was := Contents();
      n.DropMember(name);
      forall k | k in networks && k != n.id ensures networks[k].Value() == was[k] {
        assert networks[k] != n && networks[k].MemberValues() == old(networks[k].MemberValues());
      }
      OneRecordChanged(was, n);
    }

    method DropMember(n: NetworkRecord, name: string)
      requires Valid() && n.id in networks && networks[n.id] == n
      modifies this, n`members
      ensures Valid() && n.Valid() && networks == old(networks)
      ensures n.Value() == old(n.Value()).(members := Without(old(n.Value()).members, name))
      ensures Contents() == old(Contents())[n.id := n.Value()]
    {
      hide Without;
      hide Contents, ValueAt, Valid, NetworkRecord.Value, NetworkRecord.Valid;
      RemoveMember(n, name);
      SaveNetwork(n);
    }

    method ChangeSettings(n: NetworkRecord, s: Settings)
      requires Valid() && n.id in networks && networks[n.id] == n
      modifies n
      ensures Valid() && n.Valid() && networks == old(networks)
      ensures n.Value() == old(n.Value()).(settings := DefaultMode(s))
      ensures Contents() == old(Contents())[n.id := n.Value()]
    {
      ghost var was := Contents();
      n.Edit(s);
      assert n.MemberValues() == old(n.MemberValues());
      forall k | k in networks && k != n.id ensures networks[k].Value() == was[k] {
        assert networks[k] != n && networks[k].MemberValues() == old(networks[k].MemberValues());
      }
      OneRecordChanged(was, n);
    }

    method EditNetwork(n: NetworkRecord, s: Settings)
      requires Valid() && n.id in networks && networks[n.id] == n
      modifies this, n
      ensures Valid() && n.Valid() && networks == old(networks)
      ensures n.Value() == old(n.Value()).(settings := DefaultMode(s))
      ensures Contents() == old(Contents())[n.id := n.Value()]
    {
      hide DefaultMode;
      hide Contents, ValueAt, Valid, NetworkRecord.Value, NetworkRecord.Valid;
      ChangeSettings(n, s);
      SaveNetwork(n);
    }

    /** Make a new record and store it; an id already in use is overwritten. */
    method CreateNetwork(user: string, s: Settings, freshId: NetworkId) returns (n: NetworkRecord)
      requires Valid()
      modifies this
      ensures Valid() && n.Valid() && networks == old(networks)[freshId := n]
      ensures n.Value() == Network(freshId, user, DefaultMode(s), [])
      ensures Contents() == old(Contents())[freshId := n.Value()]
    {
      hide DefaultMode;
      ghost var was := Contents();
      n := new NetworkRecord(freshId, user, s);
      forall k | k in networks ensures networks[k].Value() == was[k] {
        assert networks[k].Value() == old(networks[k].Value());
      }
      ContentsAre(was);
      StoreNew(n);
    }

    method StoreNew(n: NetworkRecord)
      requires Valid() && n.Valid()
      modifies this
      ensures Valid() && n.Valid() && networks == old(networks)[n.id := n] && n.Value() == old(n.Value())
      ensures Contents() == old(Contents())[n.id := n.Value()]
    {
      SaveNetwork(n);
    }

    method ListNetworksByUser(user: string) returns (out: seq<NetworkRecord>)
      requires Valid()
      ensures forall n :: n in out <==> n in networks.Values && n.user == user
      ensures forall i, j :: 0 <= i < j < |out| ==> out[i] != out[j]
    {
      out := [];
      var todo := networks.Keys;
      while todo != {}
        invariant todo <= networks.Keys
        invariant forall n :: n in out <==> n in networks.Values && n.id !in todo && n.user == user
        invariant forall i, j :: 0 <= i < j < |out| ==> out[i] != out[j]
      {
        var id :| id in todo;
        if networks[id].user == user {
          out := out + [networks[id]];
        }
        todo := todo - {id};
      }
    }

    /** buildSDWANInfo: one of the possible answers, whichever network the search meets first. */
    method BuildSDWANInfo(user: string, node: string) returns (info: SdwanInfo)
      requires Valid()
      ensures info in Answers(Contents(), user, node) && Contents() == old(Contents())
      ensures IsAnswer(Contents(), user, node, info)
    {
      info := Search(user, node);
      AnswerMeans(Contents(), user, node, info);
    }

    method Search(user: string, node: string) returns (info: SdwanInfo)
      requires Valid()
      ensures info in Answers(Contents(), user, node) && Contents() == old(Contents())
    {
      hide Render, Renders;
      var n := FindNetworkByNode(user, node);
      if n == null {
        return NO_NETWORK;
      }
      info := n.Info();
      assert Contents()[n.id] == n.Value();
    }

    /** findNetworkByNode: any enabled network of the user with that member; the map is searched in no fixed order. */
    method FindNetworkByNode(user: string, node: string) returns (n: NetworkRecord?)
      requires Valid()
      ensures n != null ==> n.id in networks && networks[n.id] == n && Serves(n.Value(), user, node)
      ensures n == null ==> forall id :: id in networks ==> !Serves(networks[id].Value(), user, node)
    {
      var todo := networks.Keys;
      while todo != {}
        invariant todo <= networks.Keys
        invariant forall id :: id in networks && id !in todo ==> !Serves(networks[id].Value(), user, node)
      {
        var id :| id in todo;
        todo := todo - {id};
        n := networks[id];
        if n.user != user || n.enable == 0 {
          continue;
        }
        var found := n.HasMember(node);
        if found {
          return;
        }
      }
      n := null;
    }
  }

  lemma IndexIsFirst(members: seq<Member>, name: string, i: nat)
    requires i <= |members| && (i < |members| ==> members[i].name == name)
    requires forall j :: 0 <= j < i ==> members[j].name != name
    ensures i == IndexOf(members, name)
  {
  }

  lemma {:induction false} EnabledLast(members: seq<Member>, m: Member)
    ensures Enabled(members + [m]) == Enabled(members) + if m.enable == 0 then [] else [m]
  {
    if members == [] {
      assert [m][1..] == [];
    } else {
      EnabledLast(members[1..], m);
      assert (members + [m])[1..] == members[1..] + [m];
    }
  }

  lemma {:induction false} WithoutLast(members: seq<Member>, m: Member, name: string)
    ensures Without(members + [m], name) == Without(members, name) + if m.name == name then [] else [m]
  {
    if members == [] {
      assert [] + [m] == [m] && [m][1..] == [];
    } else {
      WithoutLast(members[1..], m, name);
      WithoutFirst(members, name);
      WithoutFirst(members + [m], name);
      assert (members + [m])[1..] == members[1..] + [m];
      hide Without;
    }
  }
}
