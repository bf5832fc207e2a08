/** IPv4 addresses as byte strings: counting, prefixes and dotted quads (store.go and the net package under it). */
module Ipv4 {
  import opened Bytes
  import opened Decimals

  // ---------- big-endian byte counters ----------

  function Pow256(n: nat): (r: nat)
    ensures r > 0
  {
    if n == 0 then 1 else 256 * Pow256(n - 1)
  }

  function BigEndian(s: seq<byte>): nat {
    if s == [] then 0 else BigEndian(s[..|s| - 1]) * 256 + s[|s| - 1]
  }

  /** The wrap-around of Go's ++ on a byte. */
  function Increment(b: byte): byte {
    if b == 255 then 0 else b + 1
  }

  /** The byte string of the same length that counts one further, wrapping to all zeros. */
  function Successor(s: seq<byte>): (r: seq<byte>)
    ensures |r| == |s|
  {
    if s == [] then []
    else
      var p, b := s[..|s| - 1], s[|s| - 1];
      if Increment(b) == 0 then Successor(p) + [0] else p + [Increment(b)]
  }

  function Zeros(n: nat): (r: seq<byte>)
    ensures |r| == n
    ensures forall i :: 0 <= i < n ==> r[i] == 0
  {
    if n == 0 then [] else [0] + Zeros(n - 1)
  }

  /** The successor counts one further, and only the all-ones string wraps to zero. */
  lemma {:induction false} SuccessorCounts(s: seq<byte>)
    ensures BigEndian(s) < Pow256(|s|)
    ensures BigEndian(Successor(s)) == if BigEndian(s) + 1 == Pow256(|s|) then 0 else BigEndian(s) + 1
  {
    if s != [] {
      var p, r := s[..|s| - 1], Successor(s);
      SuccessorCounts(p);
      assert r[..|r| - 1] == if s[|s| - 1] == 255 then Successor(p) else p;
    }
  }

  lemma SuccessorAddsOne(s: seq<byte>)
    ensures BigEndian(Successor(s)) == (BigEndian(s) + 1) % Pow256(|s|)
  {
    hide BigEndian, Successor, Pow256;
    SuccessorCounts(s);
    NextRemainder(BigEndian(s), Pow256(|s|));
  }

  lemma NextRemainder(x: nat, m: nat)
    requires x < m
    ensures (x + 1) % m == if x + 1 == m then 0 else x + 1
  {
  }

  /** The loop state of incIP: digits after j have wrapped to zero and digit j is next to count up. */
  ghost predicate CarryAt(was: seq<byte>, j: int, now: seq<byte>) {
    && -1 <= j < |was| == |now|
    && now == was[..j + 1] + Zeros(|was| - 1 - j)
    && Successor(was) == Successor(was[..j + 1]) + Zeros(|was| - 1 - j)
  }

  lemma CarryStep(was: seq<byte>, j: nat, now: seq<byte>, next: seq<byte>)
    requires CarryAt(was, j, now)
    requires next == now[j := Increment(now[j])]
    ensures if next[j] > 0 then next == Successor(was) else CarryAt(was, j - 1, next)
  {
    var p, d, z := was[..j], was[j], Zeros(|was| - 1 - j);
    assert was[..j + 1] == p + [d] && (p + [d])[..j] == p;
    if d == 255 {
      assert (Successor(p) + [0]) + z == Successor(p) + ([0] + z);
      assert next == p + ([0] + z);
    } else {
      assert next == p + [Increment(d)] + z;
    }
  }

  lemma CarryStarts(was: seq<byte>)
    ensures CarryAt(was, |was| - 1, was)
  {
    assert was[..|was|] == was && Zeros(0) == [];
    assert was + [] == was && Successor(was) + [] == Successor(was);
  }

  lemma CarryEnds(was: seq<byte>, now: seq<byte>)
    requires CarryAt(was, -1, now)
    ensures now == Successor(was)
  {
    assert was[..0] == [];
    assert [] + now == now;
  }

  /** incIP: add one to the byte string in place, carrying from the last byte. */
  method IncIP(ip: array<byte>)
    modifies ip
    ensures ip[..] == Successor(old(ip[..]))
    ensures BigEndian(ip[..]) == (BigEndian(old(ip[..])) + 1) % Pow256(ip.Length)
  {
    hide CarryAt, Successor, BigEndian, Pow256;
    ghost var was := ip[..];
    CarryStarts(was);
    SuccessorAddsOne(was);
    var j := ip.Length - 1;
    while j >= 0
      invariant -1 <= j < ip.Length
      invariant CarryAt(was, j, ip[..])
    {
      ghost var now := ip[..];
      ip[j] := Increment(ip[j]);
      CarryStep(was, j, now, ip[..]);
      if ip[j] > 0 {
        return;
      }
      j := j - 1;
    }
    CarryEnds(was, ip[..]);
  }

  // ---------- prefixes (section 3.1 of RFC 4632) ----------

  /** The mask of n bytes whose p leading bits are set. */
  function PrefixMask(n: nat, p: nat): (m: seq<byte>)
    requires p <= 8 * n
    ensures |m| == n
  {
    if n == 0 then []
    else if p <= 8 * (n - 1) then PrefixMask(n - 1, p) + [0]
    else PrefixMask(n - 1, 8 * (n - 1)) + [LeadingBits(p - 8 * (n - 1), 8)]
  }

  /** How many of p leading bits fall into byte i. */
  function BitsAt(p: nat, i: nat): (k: nat)
    ensures k <= 8
  {
    if p <= 8 * i then 0 else if p >= 8 * i + 8 then 8 else p - 8 * i
  }

  lemma {:induction false} MaskAt(n: nat, p: nat, i: nat)
    requires p <= 8 * n && i < n
    ensures LeadingBits(BitsAt(p, i), 8) < 256 && PrefixMask(n, p)[i] == LeadingBits(BitsAt(p, i), 8)
  {
    assert Pow2(8) == 256 && LeadingBits(0, 8) == 0;
    if i < n - 1 {
      MaskAt(n - 1, if p <= 8 * (n - 1) then p else 8 * (n - 1), i);
    }
  }

  function Masked(s: seq<byte>, m: seq<byte>): (r: seq<byte>)
    requires |s| == |m|
    ensures |r| == |s|
  {
    seq(|s|, i requires 0 <= i < |s| => And(s[i], m[i]))
  }

  /** Membership of an address in a network: every byte equal after masking. */
  predicate Contains(net: seq<byte>, m: seq<byte>, ip: seq<byte>)
    requires |net| == |m| == |ip|
  {
    forall i :: 0 <= i < |m| ==> And(net[i], m[i]) == And(ip[i], m[i])
  }

  /** The number a byte string stands for, with all but its p leading bits cleared. */
  function RoundedTo(s: seq<byte>, p: nat): nat
    requires p <= 8 * |s|
  {
    DropLow(BigEndian(s), 8 * |s| - p)
  }

  lemma ShiftByte(x: nat)
    ensures Shift(x, 8) == x * 256 && Pow2(8) == 256
  {
    assert Pow2(4) == 16;
    assert Shift(x, 4) == x * 16;
  }

  lemma LastCleared(x: nat, b: byte, k: nat)
    ensures DropLow(x * 256 + b, 8 + k) == DropLow(x, k) * 256
  {
    ShiftByte(x);
    ShiftByte(DropLow(x, k));
    DropPastLowPart(x, b, 8, k);
  }

  lemma LastKept(x: nat, b: byte, k: nat)
    requires k <= 8
    ensures DropLow(x * 256 + b, k) == x * 256 + DropLow(b, k)
  {
    ShiftByte(x);
    DropInLowPart(x, b, 8, k);
  }

  lemma {:induction false} MaskedValue(s: seq<byte>, p: nat)
    requires p <= 8 * |s|
    ensures BigEndian(Masked(s, PrefixMask(|s|, p))) == RoundedTo(s, p)
  {
    if s != [] {
      var n := |s| - 1;
      var keep := if p <= 8 * n then p else 8 * n;
      MaskedValue(s[..n], keep);
      var m := PrefixMask(|s|, p);
      MaskSplits(|s|, p);
      assert Masked(s, m)[..n] == Masked(s[..n], m[..n]);
      RoundedLast(s, p);
    }
  }

  lemma MaskSplits(n: nat, p: nat)
    requires 0 < n && p <= 8 * n
    ensures var keep := if p <= 8 * (n - 1) then p else 8 * (n - 1);
            var m := PrefixMask(n, p);
            m[..n - 1] == PrefixMask(n - 1, keep) && m[n - 1] == LeadingBits(p - keep, 8)
  {
    assert LeadingBits(0, 8) == 0;
  }

  lemma RoundedLast(s: seq<byte>, p: nat)
    requires s != [] && p <= 8 * |s|
    ensures var n := |s| - 1;
            var keep := if p <= 8 * n then p else 8 * n;
            LeadingBits(p - keep, 8) < 256
            && RoundedTo(s, p) == RoundedTo(s[..n], keep) * 256 + And(s[n], LeadingBits(p - keep, 8))
  {
    hide DropLow, LeadingBits, And;
    var n := |s| - 1;
    var x := BigEndian(s[..n]);
    if p <= 8 * n {
      MaskedByte(s[n], 0);
      ByteCleared(s[n]);
      LastCleared(x, s[n], 8 * n - p);
    } else {
      MaskedByte(s[n], p - 8 * n);
      LastKept(x, s[n], 8 * |s| - p);
      NothingCleared(x);
    }
  }

  lemma ByteCleared(b: byte)
    ensures DropLow(b, 8) == 0
  {
    LastCleared(0, b, 0);
  }

  lemma NothingCleared(x: nat)
    ensures DropLow(x, 0) == x
  {
  }

  lemma {:induction false} BigEndianInjective(s: seq<byte>, t: seq<byte>)
    requires |s| == |t| && BigEndian(s) == BigEndian(t)
    ensures s == t
  {
    if s != [] {
      var n := |s| - 1;
      BigEndianInjective(s[..n], t[..n]);
      assert s == s[..n] + [s[n]] && t == t[..n] + [t[n]];
    }
  }

  lemma SameMasked(s: seq<byte>, t: seq<byte>, m: seq<byte>)
    requires |s| == |t| == |m|
    ensures Contains(s, m, t) <==> BigEndian(Masked(s, m)) == BigEndian(Masked(t, m))
  {
    if BigEndian(Masked(s, m)) == BigEndian(Masked(t, m)) {
      BigEndianInjective(Masked(s, m), Masked(t, m));
      forall i | 0 <= i < |m| ensures And(s[i], m[i]) == And(t[i], m[i]) {
        assert Masked(s, m)[i] == Masked(t, m)[i];
      }
    }
    if Contains(s, m, t) {
      assert Masked(s, m) == Masked(t, m);
    }
  }

  lemma ContainsByRounding(net: seq<byte>, p: nat, ip: seq<byte>)
    requires |net| == |ip| && p <= 8 * |ip|
    ensures Contains(net, PrefixMask(|ip|, p), ip) <==> RoundedTo(net, p) == RoundedTo(ip, p)
  {
    SameMasked(net, ip, PrefixMask(|ip|, p));
    MaskedValue(net, p);
    MaskedValue(ip, p);
  }

  /** For every width, masking decides membership exactly as an interval of numbers does. */
  lemma ContainsIsInterval(gateway: seq<byte>, p: nat, ip: seq<byte>)
    requires |gateway| == |ip| && p <= 8 * |ip|
    ensures var mask := PrefixMask(|ip|, p);
            var net := Masked(gateway, mask);
            var size := Pow2(8 * |ip| - p);
            Contains(net, mask, ip) <==> BigEndian(net) <= BigEndian(ip) < BigEndian(net) + size
  {
    hide Contains, DropLow, Pow2, BigEndian, PrefixMask, Masked;
    var net := Masked(gateway, PrefixMask(|ip|, p));
    ContainsByRounding(net, p, ip);
    MaskedValue(gateway, p);
    DropLowTwice(BigEndian(gateway), 8 * |ip| - p);
    SameBlock(BigEndian(net), BigEndian(ip), 8 * |ip| - p);
  }

  // ---------- IPv4 networks written as IPv6 ----------

  /** The first 12 of the 16 bytes of an IPv4 address in IPv6 form. */
  const V4_IN_V6: seq<byte> := [0, 0, 0, 0, 0, 0, 0, 0, 0, 0, 255, 255]

  type Address6 = s: seq<byte> | |s| == 16 witness V4_IN_V6 + [0, 0, 0, 0]
  type PrefixLength6 = p: nat | p <= 128

  lemma MaskedAt(s: seq<byte>, p: nat, i: nat)
    requires p <= 8 * |s| && i < |s|
    ensures Masked(s, PrefixMask(|s|, p))[i] == DropLow(s[i], 8 - BitsAt(p, i))
  {
    MaskAt(|s|, p, i);
    MaskedByte(s[i], BitsAt(p, i));
  }

  /** A masked network is in IPv4 form exactly if the address is and the mask leaves all of its first 12 bytes. */
  lemma MaskedIsWrapped(s: Address6, p: PrefixLength6)
    ensures Masked(s, PrefixMask(16, p))[..12] == V4_IN_V6 <==> s[..12] == V4_IN_V6 && p >= 96
  {
    hide Masked, PrefixMask, DropLow;
    var m := Masked(s, PrefixMask(16, p));
    MaskedAt(s, p, 11);
    if p < 96 {
      ClearedIsEven(s[11], 8 - BitsAt(p, 11));
      assert m[..12][11] == m[11];
    } else {
      forall i | 0 <= i < 12 ensures m[i] == s[i] {
        MaskedAt(s, p, i);
        NothingCleared(s[i]);
      }
      assert m[..12] == s[..12];
    }
  }

  lemma ClearedIsEven(x: nat, k: nat)
    requires k > 0
    ensures DropLow(x, k) % 2 == 0
  {
    var half := DropLow(x / 2, k - 1);
    assert DropLow(x, k) == 2 * half;
    hide DropLow;
    assert (2 * half) % 2 == 0;
  }

  /** Its last four bytes are then the network of the last four bytes of the address. */
  lemma WrappedNetwork(s: Address6, p: PrefixLength6)
    requires p >= 96
    ensures PrefixMask(16, p)[12..] == PrefixMask(4, p - 96)
    ensures Masked(s, PrefixMask(16, p))[12..] == Masked(s[12..], PrefixMask(4, p - 96))
  {
    var tail, short := PrefixMask(16, p)[12..], PrefixMask(4, p - 96);
    forall i | 0 <= i < 4 ensures tail[i] == short[i] {
      MaskAt(16, p, 12 + i);
      MaskAt(4, p - 96, i);
    }
    hide PrefixMask, And;
    assert tail == short;
  }

  // ---------- dotted quads ----------

  /** The bytes in decimal, with dots between. */
  function Dotted(ip: seq<byte>): string
    requires ip != []
  {
    if |ip| == 1 then Numeral(ip[0]) else Numeral(ip[0]) + "." + Dotted(ip[1..])
  }

  /** The n low bytes of a number, the highest first. */
  function ToBytes(v: nat, n: nat): (r: seq<byte>)
    ensures |r| == n
  {
    if n == 0 then [] else ToBytes(v / 256, n - 1) + [v % 256]
  }

  lemma {:induction false} BytesOfNumber(v: nat, n: nat)
    requires v < Pow256(n)
    ensures BigEndian(ToBytes(v, n)) == v
  {
    if n > 0 {
      BytesOfNumber(v / 256, n - 1);
      assert ToBytes(v, n)[..n - 1] == ToBytes(v / 256, n - 1);
    }
  }

  lemma {:induction false} NumberOfBytes(s: seq<byte>)
    ensures ToBytes(BigEndian(s), |s|) == s && BigEndian(s) < Pow256(|s|)
  {
    if s != [] {
      NumberOfBytes(s[..|s| - 1]);
    }
  }

  const SPACE: nat := 0x1_0000_0000

  lemma Space()
    ensures Pow256(4) == SPACE && Pow2(32) == SPACE
  {
    assert Pow2(8) == 0x100 && Pow2(12) == 0x1000;
    assert Pow2(16) == 0x1_0000 && Pow2(20) == 0x10_0000;
    assert Pow2(24) == 0x100_0000 && Pow2(28) == 0x1000_0000;
  }

  /** The dotted quad of a 32-bit address. */
  function Quad(v: nat): string {
    Dotted(ToBytes(v, 4))
  }

  lemma FourBytes(ip: seq<byte>)
    requires |ip| == 4
    ensures BigEndian(ip) < SPACE && Quad(BigEndian(ip)) == Dotted(ip)
  {
    NumberOfBytes(ip);
    Space();
  }

  lemma ValueOfFour(a: byte, b: byte, c: byte, d: byte)
    ensures BigEndian([a, b, c, d]) == ((a * 256 + b) * 256 + c) * 256 + d
  {
    assert [a, b, c, d][..3] == [a, b, c] && [a, b, c][..2] == [a, b] && [a, b][..1] == [a] && [a][..0] == [];
    assert BigEndian([a]) == a;
    assert BigEndian([a, b]) == a * 256 + b;
  }

  lemma DottedFirst(a: byte, rest: seq<byte>)
    requires rest != []
    ensures Dotted([a] + rest) == Numeral(a) + "." + Dotted(rest)
  {
    assert ([a] + rest)[1..] == rest;
  }

  /** An address prints as its four bytes in decimal with dots between, the highest first. */
  lemma DottedMeans(a: byte, b: byte, c: byte, d: byte)
    ensures Dotted([a, b, c, d]) == Numeral(a) + "." + (Numeral(b) + "." + (Numeral(c) + "." + Numeral(d)))
    ensures Quad(((a * 256 + b) * 256 + c) * 256 + d) == Dotted([a, b, c, d])
  {
    hide Numeral, BigEndian, Dotted;
    DottedFirst(a, [b, c, d]);
    DottedFirst(b, [c, d]);
    DottedFirst(c, [d]);
    assert [a] + [b, c, d] == [a, b, c, d] && [b] + [c, d] == [b, c, d] && [c] + [d] == [c, d];
    DottedByte(d);
    ValueOfFour(a, b, c, d);
    FourBytes([a, b, c, d]);
  }

  lemma DottedByte(d: byte)
    ensures Dotted([d]) == Numeral(d)
  {
  }

  lemma SplitAtDot(a: string, x: string, b: string, y: string)
    requires AllDigits(a) && AllDigits(b) && a + "." + x == b + "." + y
    ensures a == b && x == y
  {
    var s, t := a + "." + x, b + "." + y;
    assert s[|a|] == '.' && t[|b|] == '.';
    assert forall i :: 0 <= i < |a| ==> s[i] == a[i];
    assert forall i :: 0 <= i < |b| ==> t[i] == b[i];
    assert |a| == |b|;
    assert a == s[..|a|] && b == t[..|b|];
    assert x == s[|a| + 1..] && y == t[|b| + 1..];
  }

  lemma NumeralInjective(m: nat, n: nat)
    requires Numeral(m) == Numeral(n)
    ensures m == n
  {
    ValueOfNumeral(m);
    ValueOfNumeral(n);
  }

  lemma SplitNumeral(m: nat, x: string, n: nat, y: string)
    requires Numeral(m) + "." + x == Numeral(n) + "." + y
    ensures m == n && x == y
  {
    ValueOfNumeral(m);
    ValueOfNumeral(n);
    SplitAtDot(Numeral(m), x, Numeral(n), y);
  }

  lemma {:induction false} DottedInjective(s: seq<byte>, t: seq<byte>)
    requires |s| == |t| > 0 && Dotted(s) == Dotted(t)
    ensures s == t
  {
    if |s| == 1 {
      NumeralInjective(s[0], t[0]);
    } else {
      SplitNumeral(s[0], Dotted(s[1..]), t[0], Dotted(t[1..]));
      DottedInjective(s[1..], t[1..]);
      assert s == [s[0]] + s[1..] && t == [t[0]] + t[1..];
    }
  }

  /** Different addresses print differently, so comparing printed addresses compares addresses. */
  lemma QuadInjective(v: nat, w: nat)
    requires v < SPACE && w < SPACE && Quad(v) == Quad(w)
    ensures v == w
  {
    Space();
    DottedInjective(ToBytes(v, 4), ToBytes(w, 4));
    BytesOfNumber(v, 4);
    BytesOfNumber(w, 4);
  }
}
