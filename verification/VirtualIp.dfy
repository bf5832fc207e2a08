/** The virtual address allocator of store.go: a byte counter walked over the gateway's subnet. */
module VirtualIp {
  import opened Bytes
  import opened Decimals
  import opened Ipv4
  import opened Results

  type PrefixLength = p: nat | p <= 32

  /** What parsing the text of a gateway such as 10.2.3.254/24 yields. */
  datatype Cidr =
    | Malformed
    | Ipv4(a: byte, b: byte, c: byte, d: byte, prefix: PrefixLength)
    | Ipv6(address: Address6, bits: PrefixLength6)

  datatype AllocError = InvalidGateway | OnlyIpv4 | NoFreeIp

  const SCAN_LIMIT: nat := 0x100_0000

  /** Number of addresses in a subnet, the network address included. */
  function SubnetSize(p: PrefixLength): (n: nat)
    ensures n > 0
  {
    Pow2(32 - p)
  }

  /** Number of addresses the allocator looks at. */
  function Capacity(p: PrefixLength): nat {
    if SubnetSize(p) - 1 < SCAN_LIMIT then SubnetSize(p) - 1 else SCAN_LIMIT
  }

  function Address(g: Cidr): (s: seq<byte>)
    requires g.Ipv4?
    ensures |s| == 4
  {
    [g.a, g.b, g.c, g.d]
  }

  function Mask(g: Cidr): (m: seq<byte>)
    requires g.Ipv4?
    ensures |m| == 4
  {
    PrefixMask(|Address(g)|, g.prefix)
  }

  function Net(g: Cidr): (s: seq<byte>)
    requires g.Ipv4?
    ensures |s| == 4
  {
    Masked(Address(g), Mask(g))
  }

  /** The gateway as a 32-bit number. */
  function GatewayValue(g: Cidr): nat
    requires g.Ipv4?
  {
    ((g.a * 256 + g.b) * 256 + g.c) * 256 + g.d
  }

  /** The network address: the gateway rounded down to its prefix. */
  function Base(g: Cidr): nat
    requires g.Ipv4?
  {
    DropLow(GatewayValue(g), 32 - g.prefix)
  }

  lemma AddressIsValue(g: Cidr)
    requires g.Ipv4?
    ensures BigEndian(Address(g)) == GatewayValue(g) && GatewayValue(g) < SPACE
  {
    ValueOfFour(g.a, g.b, g.c, g.d);
  }

  /** The masked bytes stand for the rounded number. */
  lemma NetIsBase(g: Cidr)
    requires g.Ipv4?
    ensures BigEndian(Net(g)) == Base(g)
  {
    MaskedValue(Address(g), g.prefix);
    AddressIsValue(g);
  }

  /** The strings that are taken: the gateway as printed, and whatever the members hold. */
  function Used(g: Cidr, memberIps: seq<string>): set<string>
    requires g.Ipv4?
  {
    {Dotted(Address(g))} + set s | s in memberIps
  }

  lemma BaseFits(g: Cidr)
    requires g.Ipv4?
    ensures Base(g) + SubnetSize(g.prefix) <= SPACE
    ensures Base(g) <= GatewayValue(g) < Base(g) + SubnetSize(g.prefix)
  {
    hide GatewayValue, BigEndian, DropLow, Pow2;
    AddressIsValue(g);
    Space();
    SameBlock(GatewayValue(g), 0, 32 - g.prefix);
    BlockFits(GatewayValue(g), 32 - g.prefix, 32);
  }

  /** The first index from i to n that is not taken. */
  function FirstFree(taken: nat -> bool, i: nat, n: nat): Option<nat>
    decreases n - i
  {
    if i > n then None
    else if !taken(i) then Some(i)
    else FirstFree(taken, i + 1, n)
  }

  lemma {:induction false} FirstFreeExact(taken: nat -> bool, i: nat, n: nat)
    ensures match FirstFree(taken, i, n)
            case Some(j) => i <= j <= n && !taken(j) && forall k :: i <= k < j ==> taken(k)
            case None => forall k :: i <= k <= n ==> taken(k)
    decreases n - i
  {
    if i <= n && taken(i) {
      FirstFreeExact(taken, i + 1, n);
    }
  }

  /** Whether the text of the j-th address after base is among the used strings. */
  function Taken(base: nat, used: set<string>): nat -> bool {
    (j: nat) => Quad(base + j) in used
  }

  /** An IPv4 network that is written as IPv6 counts as IPv4. */
  function Unwrapped(g: Cidr): Cidr {
    if g.Ipv6? && g.address[..12] == V4_IN_V6 && g.bits >= 96 then
      Ipv4(g.address[12], g.address[13], g.address[14], g.address[15], g.bits - 96)
    else g
  }

  /** The first address above the network address whose text is not used. */
  function Chosen(g: Cidr, used: set<string>): Result<string, AllocError>
    requires g.Ipv4?
  {
    match FirstFree(Taken(Base(g), used), 1, Capacity(g.prefix))
    case Some(j) => Ok(Quad(Base(g) + j))
    case None => Err(NoFreeIp)
  }

  function Allocation(g: Cidr, memberIps: seq<string>): Result<string, AllocError> {
    var u := Unwrapped(g);
    if u.Malformed? then Err(InvalidGateway)
    else if u.Ipv6? then Err(OnlyIpv4)
    else Chosen(u, Used(u, memberIps))
  }

  lemma CounterArithmetic(base: nat, size: nat, i: nat, v: nat)
    requires base + size <= SPACE && i < size && i < SCAN_LIMIT
    requires v == (base + i + 1) % SPACE
    ensures base <= v < base + size <==> i + 1 < size
    ensures i + 1 < size ==> v == base + i + 1
  {
  }

  /** The counter stands i addresses above the network address, still inside the subnet. */
  ghost predicate CounterAt(g: Cidr, i: nat, ip: seq<byte>)
    requires g.Ipv4?
  {
    |ip| == 4 && i < SubnetSize(g.prefix) && BigEndian(ip) == Base(g) + i
  }

  lemma InsideByValue(g: Cidr, ip: seq<byte>)
    requires g.Ipv4? && |ip| == 4
    ensures Contains(Net(g), Mask(g), ip) <==> Base(g) <= BigEndian(ip) < Base(g) + SubnetSize(g.prefix)
  {
    hide Contains, BigEndian, PrefixMask, Masked, DropLow, Pow2, Base;
    ContainsIsInterval(Address(g), g.prefix, ip);
    NetIsBase(g);
  }

  lemma NextValue(g: Cidr, i: nat, was: seq<byte>, ip: seq<byte>)
    requires g.Ipv4? && CounterAt(g, i, was) && i < SCAN_LIMIT
    requires |ip| == |was| && BigEndian(ip) == (BigEndian(was) + 1) % Pow256(|was|)
    ensures Base(g) <= BigEndian(ip) < Base(g) + SubnetSize(g.prefix) <==> i + 1 < SubnetSize(g.prefix)
    ensures i + 1 < SubnetSize(g.prefix) ==> CounterAt(g, i + 1, ip)
  {
    BaseFits(g);
    Space();
    CounterArithmetic(Base(g), SubnetSize(g.prefix), i, BigEndian(ip));
  }

  /** One turn of the counter: it stays inside the subnet just when there is a next address, and then stands on it. */
  lemma CounterStep(g: Cidr, i: nat, ip: seq<byte>)
    requires g.Ipv4? && CounterAt(g, i, ip) && i < SCAN_LIMIT
    ensures Contains(Net(g), Mask(g), Successor(ip)) <==> i + 1 < SubnetSize(g.prefix)
    ensures i + 1 < SubnetSize(g.prefix) ==> CounterAt(g, i + 1, Successor(ip))
  {
    hide Successor, BigEndian, Contains;
    SuccessorAddsOne(ip);
    InsideByValue(g, Successor(ip));
    NextValue(g, i, ip, Successor(ip));
  }

  method CollectUsed(gateway: Cidr, memberIps: seq<string>) returns (used: set<string>)
    requires gateway.Ipv4?
    ensures used == Used(gateway, memberIps)
  {
    used := {Dotted(Address(gateway))};
    for k := 0 to |memberIps|
      invariant used == {Dotted(Address(gateway))} + set s | s in memberIps[..k]
    {
      used := used + {memberIps[k]};
      assert memberIps[..k + 1] == memberIps[..k] + [memberIps[k]];
    }
    assert memberIps[..|memberIps|] == memberIps;
  }

  /** The tail of the search that the loop still has to do. */
  ghost function Remaining(g: Cidr, i: nat, used: set<string>): Option<nat>
    requires g.Ipv4?
  {
    FirstFree(Taken(Base(g), used), i + 1, Capacity(g.prefix))
  }

  lemma RemainingStep(g: Cidr, i: nat, ip: seq<byte>, used: set<string>)
    requires g.Ipv4? && i < SCAN_LIMIT && CounterAt(g, i + 1, ip)
    ensures Remaining(g, i, used) == if Dotted(ip) in used then Remaining(g, i + 1, used) else Some(i + 1)
    ensures Dotted(ip) == Quad(Base(g) + i + 1)
  {
    hide DropLow, Pow2, BigEndian, Quad, Dotted;
    FourBytes(ip);
  }

  /** The mask and the masked address in their 4-byte form, or nothing where there is none. */
  method MaskAndNet(gateway: Cidr) returns (mask: seq<byte>, net: seq<byte>)
    requires !gateway.Malformed?
    ensures if Unwrapped(gateway).Ipv4? then mask == Mask(Unwrapped(gateway)) && net == Net(Unwrapped(gateway))
            else net == []
  {
    if gateway.Ipv4? {
      return Mask(gateway), Net(gateway);
    }
    mask := PrefixMask(16, gateway.bits);
    net := Masked(gateway.address, mask);
    MaskedIsWrapped(gateway.address, gateway.bits);
    if net[..12] != V4_IN_V6 {
      return mask, [];
    }
    WrappedNetwork(gateway.address, gateway.bits);
    assert gateway.address[12..] == Address(Unwrapped(gateway));
    return mask[12..], net[12..];
  }

  /** The counting loop, from the network address on. */
  method CountUp(g: Cidr, net: seq<byte>, mask: seq<byte>, used: set<string>) returns (r: Result<string, AllocError>)
    requires g.Ipv4? && net == Net(g) && mask == Mask(g)
    ensures r == Chosen(g, used)
  {
    hide Contains, BigEndian, Successor, PrefixMask, Numeral, Masked;
    var ip := new byte[4](k requires 0 <= k < 4 => net[k]);
    assert ip[..] == net;
    NetIsBase(g);
    var i := 0;
    while i < SCAN_LIMIT
      invariant i <= SCAN_LIMIT
      invariant CounterAt(g, i, ip[..])
      invariant Remaining(g, 0, used) == Remaining(g, i, used)
    {
      ghost var was := ip[..];
      IncIP(ip);
      CounterStep(g, i, was);
      if !Contains(net, mask, ip[..]) {
        break;
      }
      RemainingStep(g, i, ip[..], used);
      var cand := Dotted(ip[..]);
      if cand !in used {
        return Ok(cand);
      }
      i := i + 1;
    }
    return Err(NoFreeIp);
  }

  lemma ChosenErrors(gateway: Cidr, memberIps: seq<string>)
    ensures var u := Unwrapped(gateway);
            u.Ipv4? && Chosen(u, Used(u, memberIps)).Err? ==> Chosen(u, Used(u, memberIps)) == Err(NoFreeIp)
  {
    hide FirstFree, Taken, Used;
  }

  /** allocVirtualIP: mask the gateway, then count up in place until an address is free. */
  method AllocVirtualIP(gateway: Cidr, memberIps: seq<string>) returns (r: Result<string, AllocError>)
    ensures r == Allocation(gateway, memberIps)
    ensures r == Err(InvalidGateway) <==> gateway.Malformed?
    ensures r == Err(OnlyIpv4) <==> gateway.Ipv6? && !(gateway.address[..12] == V4_IN_V6 && gateway.bits >= 96)
  {
    ChosenErrors(gateway, memberIps);
    hide Mask, Net, Used, Chosen;
    if gateway.Malformed? {
      return Err(InvalidGateway);
    }
    var mask, net := MaskAndNet(gateway);
    if net == [] {
      return Err(OnlyIpv4);
    }
    var used := CollectUsed(Unwrapped(gateway), memberIps);
    r := CountUp(Unwrapped(gateway), net, mask, used);
  }

  // ---------- what the allocator promises ----------

  /** The k-th address above the network address. */
  function AddressAt(g: Cidr, k: nat): (v: nat)
    requires g.Ipv4? && k <= Capacity(g.prefix)
    ensures v < SPACE
  {
    BaseFits(g);
    Base(g) + k
  }

  /** The k-th address is the gateway itself, or some member holds its text. */
  ghost predicate Blocked(g: Cidr, memberIps: seq<string>, k: nat)
    requires g.Ipv4? && k <= Capacity(g.prefix)
  {
    AddressAt(g, k) == GatewayValue(g) || Quad(AddressAt(g, k)) in memberIps
  }

  /** The k-th address above the network address is the lowest one that is not blocked. */
  ghost predicate FirstFit(g: Cidr, memberIps: seq<string>, k: nat)
    requires g.Ipv4?
  {
    && 1 <= k <= Capacity(g.prefix)
    && !Blocked(g, memberIps, k)
    && forall j :: 1 <= j < k ==> Blocked(g, memberIps, j)
  }

  lemma SameText(v: nat, ip: seq<byte>)
    requires v < SPACE && |ip| == 4
    ensures Quad(v) == Dotted(ip) <==> v == BigEndian(ip)
  {
    FourBytes(ip);
    if Quad(v) == Dotted(ip) {
      QuadInjective(v, BigEndian(ip));
    }
  }

  lemma TakenIsBlocked(g: Cidr, memberIps: seq<string>, k: nat)
    requires g.Ipv4? && k <= Capacity(g.prefix)
    ensures Taken(Base(g), Used(g, memberIps))(k) <==> Blocked(g, memberIps, k)
  {
    hide BigEndian, Net, Quad;
    SameText(AddressAt(g, k), Address(g));
    AddressIsValue(g);
  }

  lemma TakenIsBlockedEverywhere(g: Cidr, memberIps: seq<string>)
    requires g.Ipv4?
    ensures var taken := Taken(Base(g), Used(g, memberIps));
            forall k: nat :: k <= Capacity(g.prefix) ==> (taken(k) <==> Blocked(g, memberIps, k))
  {
    forall k: nat | k <= Capacity(g.prefix)
      ensures Taken(Base(g), Used(g, memberIps))(k) <==> Blocked(g, memberIps, k)
    {
      TakenIsBlocked(g, memberIps, k);
    }
  }

  /** The addresses looked at: all of the subnet but the network address, and at most 2^24. */
  lemma CapacityMeans(p: PrefixLength)
    ensures Capacity(p) == if Pow2(32 - p) - 1 < 0x100_0000 then Pow2(32 - p) - 1 else 0x100_0000
  {
  }

  /** Exact first fit: the answer is the lowest unblocked address, and there is none exactly on failure. */
  lemma {:induction false} AllocationIsFirstFit(gateway: Cidr, memberIps: seq<string>) returns (k: nat)
    requires Unwrapped(gateway).Ipv4?
    ensures var g := Unwrapped(gateway);
            match Allocation(gateway, memberIps)
            case Ok(ip) =>
              && 1 <= k < Pow2(32 - g.prefix) && k <= 0x100_0000
              && FirstFit(g, memberIps, k) && ip == Quad(AddressAt(g, k))
            case Err(e) =>
              && e == NoFreeIp
              && forall j :: 1 <= j < Pow2(32 - g.prefix) && j <= 0x100_0000 ==> Blocked(g, memberIps, j)
  {
    hide Blocked, Taken, FirstFree, Used, Quad, Net;
    var g := Unwrapped(gateway);
    CapacityMeans(g.prefix);
    hide Capacity, Pow2;
    var taken := Taken(Base(g), Used(g, memberIps));
    TakenIsBlockedEverywhere(g, memberIps);
    FirstFreeExact(taken, 1, Capacity(g.prefix));
    var found := FirstFree(taken, 1, Capacity(g.prefix));
    k := if found.Some? then found.value else 0;
  }

  function Elements(xs: seq<string>): set<string> {
    set x | x in xs
  }

  lemma {:induction false} DistinctNeedRoom(names: seq<string>, used: set<string>)
    requires forall i, j :: 0 <= i < j < |names| ==> names[i] != names[j]
    requires forall i :: 0 <= i < |names| ==> names[i] in used
    ensures |names| <= |used|
  {
    if names != [] {
      DistinctNeedRoom(names[1..], used - {names[0]});
    }
  }

  lemma {:induction false} FewElements(xs: seq<string>)
    ensures |Elements(xs)| <= |xs|
  {
    if xs != [] {
      FewElements(xs[1..]);
      assert xs == [xs[0]] + xs[1..];
      assert Elements(xs) == {xs[0]} + Elements(xs[1..]);
    }
  }

  /** The texts of the first n addresses above the network address. */
  ghost function Texts(g: Cidr, n: nat): (names: seq<string>)
    requires g.Ipv4? && n <= Capacity(g.prefix)
    ensures |names| == n
    ensures forall i :: 0 <= i < n ==> names[i] == Quad(AddressAt(g, i + 1))
  {
    seq(n, i requires 0 <= i < n => Quad(AddressAt(g, i + 1)))
  }

  lemma TextsDiffer(g: Cidr, n: nat, i: nat, j: nat)
    requires g.Ipv4? && i < j < n <= Capacity(g.prefix)
    ensures Texts(g, n)[i] != Texts(g, n)[j]
  {
    if Texts(g, n)[i] == Texts(g, n)[j] {
      QuadInjective(AddressAt(g, i + 1), AddressAt(g, j + 1));
    }
  }

  lemma TextsUsed(g: Cidr, memberIps: seq<string>, n: nat, i: nat)
    requires g.Ipv4? && i < n <= Capacity(g.prefix) && Blocked(g, memberIps, i + 1)
    ensures Texts(g, n)[i] in Elements(memberIps) + {Dotted(Address(g))}
  {
    SameText(AddressAt(g, i + 1), Address(g));
    AddressIsValue(g);
  }

  lemma ManyBlocked(g: Cidr, memberIps: seq<string>, n: nat)
    requires g.Ipv4? && n <= Capacity(g.prefix)
    requires forall k: nat :: 1 <= k <= n ==> Blocked(g, memberIps, k)
    ensures n <= |memberIps| + 1
  {
    var names, members := Texts(g, n), Elements(memberIps);
    forall i, j | 0 <= i < j < n ensures names[i] != names[j] {
      TextsDiffer(g, n, i, j);
    }
    forall i | 0 <= i < n ensures names[i] in members + {Dotted(Address(g))} {
      TextsUsed(g, memberIps, n, i);
    }
    DistinctNeedRoom(names, members + {Dotted(Address(g))});
    FewElements(memberIps);
  }

  lemma FirstFitIsLow(g: Cidr, memberIps: seq<string>, k: nat)
    requires g.Ipv4? && FirstFit(g, memberIps, k)
    ensures k <= |memberIps| + 2
  {
    ManyBlocked(g, memberIps, k - 1);
  }

  /** Pigeonhole: with k members the allocator succeeds while k+1 < Capacity, and stays within k+2 addresses. */
  lemma AllocationIsCompact(gateway: Cidr, memberIps: seq<string>) returns (k: nat)
    requires Unwrapped(gateway).Ipv4?
    ensures |memberIps| + 2 < Pow2(32 - Unwrapped(gateway).prefix) && |memberIps| + 1 < 0x100_0000 ==>
      Allocation(gateway, memberIps).Ok?
    ensures Allocation(gateway, memberIps).Ok? ==>
      var g := Unwrapped(gateway);
      && 1 <= k <= |memberIps| + 2 && FirstFit(g, memberIps, k)
      && Allocation(gateway, memberIps).value == Quad(AddressAt(g, k))
  {
    k := AllocationIsFirstFit(gateway, memberIps);
    CapacityMeans(Unwrapped(gateway).prefix);
    match Allocation(gateway, memberIps) {
      case Ok(_) => FirstFitIsLow(Unwrapped(gateway), memberIps, k);
      case Err(_) => ManyBlocked(Unwrapped(gateway), memberIps, Capacity(Unwrapped(gateway).prefix));
    }
  }

  /** What an allocated address is good for: new, inside the subnet, and neither the gateway nor the network address. */
  lemma AllocationIsFresh(g: Cidr, memberIps: seq<string>) returns (v: nat)
    requires Allocation(g, memberIps).Ok?
    ensures v < SPACE && Allocation(g, memberIps).value == Quad(v) && Quad(v) !in memberIps
    ensures var u := Unwrapped(g);
            u.Ipv4? && Base(u) < v < Base(u) + SubnetSize(u.prefix) && v != GatewayValue(u)
  {
    var k := AllocationIsFirstFit(g, memberIps);
    v := AddressAt(Unwrapped(g), k);
  }
}

