/**
 The outbound-request guard: an allow-list, the ranges that are never dialled, the check made
 when a URL is saved, and the one made when a connection is dialled.
 */
module Egress {
  import opened Basics
  import opened Text

  /** An address as Go keeps it: four or sixteen bytes. */
  type Address = seq<bv8>

  predicate WellFormed(ip: Address) {
    |ip| == 4 || |ip| == 16
  }

  /** `net.IP.To4`: the four-byte form of an IPv4 or IPv4-mapped address. */
  function To4(ip: Address): Option<Address> {
    if |ip| == 4 then Some(ip)
    else if |ip| == 16 && (forall i :: 0 <= i < 10 ==> ip[i] == 0) && ip[10] == 0xff && ip[11] == 0xff
    then Some(ip[12..])
    else None
  }

  function Narrow(ip: Address): Address {
    if To4(ip).Some? then To4(ip).value else ip
  }

  datatype Network = Network(ip: Address, mask: Address)

  /** A sixteen-byte mask over a four-byte address counts with its last four bytes. */
  function NarrowMask(mask: Address, length: nat): Address {
    if |mask| == 16 && length == 4 then mask[12..] else mask
  }

  /** `net.IPNet.Contains`. */
  predicate Contains(n: Network, ip: Address) {
    var x, number := Narrow(ip), Narrow(n.ip);
    var mask := NarrowMask(n.mask, |number|);
    && |x| == |number| == |mask|
    && forall i :: 0 <= i < |x| ==> EqualUnder(mask[i], x[i], number[i])
  }

  predicate EqualUnder(mask: bv8, a: bv8, b: bv8) {
    a & mask == b & mask
  }

  /** An IPv4-mapped address counts as the IPv4 address it maps, and every other as itself. */
  lemma NarrowExact(a: Address, ip: Address)
    requires |a| == 4 && WellFormed(ip)
    ensures Narrow(ip) == a <==> ip == a || ip == seq(10, _ => 0 as bv8) + [0xff, 0xff] + a
    ensures |Narrow(ip)| != 4 ==> Narrow(ip) == ip
  {
    var mapped := seq(10, _ => 0 as bv8) + [0xff, 0xff] + a;
    assert mapped[12..] == a;
    if |ip| == 16 && To4(ip) == Some(a) {
      assert forall i :: 0 <= i < 16 ==> ip[i] == mapped[i];
    }
  }

  /** The name parsers of the `net` package: a CIDR range, an IP literal. */
  datatype Parsers = Parsers(cidr: string -> Option<Network>, ip: string -> Option<Address>)

  /** IP literals are read without regard to letter case, and into four or sixteen bytes. */
  ghost predicate Lawful(ps: Parsers) {
    && (forall s, t :: EqualFold(s, t) ==> ps.ip(s) == ps.ip(t))
    && (forall s :: ps.ip(s).Some? ==> WellFormed(ps.ip(s).value))
  }

  datatype Guard = Guard(hosts: set<string>, nets: seq<Network>)

  /** The strict policy a nil guard enforces. */
  const STRICT := Guard({}, [])

  // ---- building the guard ----

  datatype Item = Skip | Net(n: Network) | Host(name: string) | Invalid

  function SingleAddress(ip: Address): Network {
    var x := Narrow(ip);
    Network(x, seq(|x|, _ => 0xff as bv8))
  }

  function Classify(ps: Parsers, raw: string): Item {
    var entry := TrimSpace(raw);
    if entry == "" then Skip
    else if ps.cidr(entry).Some? then Net(ps.cidr(entry).value)
    else if ps.ip(entry).Some? then Net(SingleAddress(ps.ip(entry).value))
    else if '/' in entry || ' ' in entry then Invalid
    else Host(Lower(entry))
  }

  function GuardFrom(ps: Parsers, list: seq<string>): Option<Guard> {
    if list == [] then Some(STRICT)
    else Extended(GuardFrom(ps, list[..|list| - 1]), Classify(ps, list[|list| - 1]))
  }

  /** What one more entry does to the guard. */
  function Extended(front: Option<Guard>, item: Item): Option<Guard> {
    if front == None then None
    else match item
      case Skip => front
      case Net(n) => Some(front.value.(nets := front.value.nets + [n]))
      case Host(h) => Some(front.value.(hosts := front.value.hosts + {h}))
      case Invalid => None
  }

  lemma GuardExtends(ps: Parsers, list: seq<string>, i: nat)
    requires i < |list|
    ensures GuardFrom(ps, list[..i + 1]) == Extended(GuardFrom(ps, list[..i]), Classify(ps, list[i]))
  {
    assert list[..i + 1][..i] == list[..i];
  }

  method NewGuard(ps: Parsers, list: seq<string>) returns (guard: Option<Guard>)
    ensures guard == GuardFrom(ps, list)
  {
    var hosts: set<string>, nets: seq<Network> := {}, [];
    var i := 0;
    while i < |list|
      invariant i <= |list|
      invariant GuardFrom(ps, list[..i]) == Some(Guard(hosts, nets))
    {
      var item := Classify(ps, list[i]);
      GuardExtends(ps, list, i);
      i := i + 1;
      match item {
        case Skip =>
        case Net(n) => nets := nets + [n];
        case Host(h) => hosts := hosts + {h};
        case Invalid =>
          InvalidSpoils(ps, list, i);
          return None;
      }
    }
    assert list[..i] == list;
    return Some(Guard(hosts, nets));
  }

  lemma {:induction false} InvalidSpoils(ps: Parsers, list: seq<string>, n: nat)
    requires n <= |list| && GuardFrom(ps, list[..n]) == None
    ensures GuardFrom(ps, list) == None
    decreases |list|
  {
    if n == |list| {
      assert list[..n] == list;
    } else {
      assert list[..|list| - 1][..n] == list[..n];
      InvalidSpoils(ps, list[..|list| - 1], n);
    }
  }

  /** Neither empty, nor a range, nor an address, and with a slash or a space in it. */
  predicate Unusable(ps: Parsers, raw: string) {
    var entry := TrimSpace(raw);
    entry != "" && ps.cidr(entry) == None && ps.ip(entry) == None && ('/' in entry || ' ' in entry)
  }

  /** A list is refused exactly when one of its entries is neither a range, an address nor a plain name. */
  lemma {:induction false} GuardRefusedIff(ps: Parsers, list: seq<string>)
    ensures GuardFrom(ps, list) == None <==> exists i :: 0 <= i < |list| && Unusable(ps, list[i])
  {
    if list != [] {
      var front, last := list[..|list| - 1], list[|list| - 1];
      GuardRefusedIff(ps, front);
      assert forall i :: 0 <= i < |front| ==> list[i] == front[i];
      assert Unusable(ps, last) <==> Classify(ps, last).Invalid?;
    }
  }

  /** The guard holds exactly the names and the ranges that were listed. */
  lemma {:induction false} GuardHoldsList(ps: Parsers, list: seq<string>, name: string, n: Network)
    requires GuardFrom(ps, list).Some?
    ensures var g := GuardFrom(ps, list).value;
            && (name in g.hosts <==> exists i :: 0 <= i < |list| && Classify(ps, list[i]) == Host(name))
            && (n in g.nets <==> exists i :: 0 <= i < |list| && Classify(ps, list[i]) == Net(n))
  {
    if list != [] {
      var front, last := list[..|list| - 1], |list| - 1;
      GuardHoldsList(ps, front, name, n);
      assert forall i :: 0 <= i < |front| ==> list[i] == front[i];
      assert forall i :: 0 <= i < |list| ==> i == last || list[i] == front[i];
    }
  }

  /** No listed name is an IP literal, in any letter case. */
  lemma NoLiteralAmongHosts(ps: Parsers, list: seq<string>, host: string)
    requires Lawful(ps) && GuardFrom(ps, list).Some?
    requires ps.ip(host).Some?
    ensures Lower(host) !in GuardFrom(ps, list).value.hosts
  {
    if Lower(host) in GuardFrom(ps, list).value.hosts {
      GuardHoldsList(ps, list, Lower(host), Network([], []));
      var i :| 0 <= i < |list| && Classify(ps, list[i]) == Host(Lower(host));
      assert EqualFold(TrimSpace(list[i]), host);
    }
  }

  lemma FullMask(b: bv8)
    ensures b & 0xff == b
  {
  }

  /** An allow-listed single address covers that address, in either form, and no other. */
  lemma SingleAddressCovers(ip: Address, other: Address)
    requires WellFormed(ip) && WellFormed(other)
    ensures Contains(SingleAddress(ip), other) <==> Narrow(ip) == Narrow(other)
  {
    var n, x := SingleAddress(ip), Narrow(other);
    assert Narrow(n.ip) == n.ip && NarrowMask(n.mask, |n.ip|) == n.mask;
    if Contains(n, other) {
      forall i | 0 <= i < |x| ensures x[i] == n.ip[i] {
        FullMask(x[i]);
        FullMask(n.ip[i]);
        assert EqualUnder(n.mask[i], x[i], n.ip[i]);
      }
      assert x == n.ip;
    }
  }

  // ---- ranges ----

  /** The `j`-th bit of a byte, the most significant first. */
  predicate BitOfByte(b: bv8, j: nat)
    requires j < 8
  {
    match j
    case 0 => b & 0x80 != 0
    case 1 => b & 0x40 != 0
    case 2 => b & 0x20 != 0
    case 3 => b & 0x10 != 0
    case 4 => b & 0x08 != 0
    case 5 => b & 0x04 != 0
    case 6 => b & 0x02 != 0
    case _ => b & 0x01 != 0
  }

  predicate BitOf(ip: Address, j: nat)
    requires j < 8 * |ip|
  {
    BitOfByte(ip[j / 8], j % 8)
  }

  /** A byte with its first `r` bits set. */
  function ByteMask(r: int): bv8 {
    if r <= 0 then 0x00
    else if r == 1 then 0x80
    else if r == 2 then 0xc0
    else if r == 3 then 0xe0
    else if r == 4 then 0xf0
    else if r == 5 then 0xf8
    else if r == 6 then 0xfc
    else if r == 7 then 0xfe
    else 0xff
  }

  /** `net.CIDRMask`: `bits` ones, then zeros. */
  function PrefixMask(length: nat, bits: nat): Address {
    seq(length, i => ByteMask(bits - 8 * i))
  }

  /** The first `r` bits of two bytes agree. */
  predicate SameBits(a: bv8, b: bv8, r: int)
    decreases r
  {
    r > 0 ==> SameBits(a, b, r - 1) && (r <= 8 ==> SameBit(a, b, r - 1))
  }

  predicate SameBit(a: bv8, b: bv8, j: nat)
    requires j < 8
  {
    BitOfByte(a, j) == BitOfByte(b, j)
  }

  lemma {:induction false} SameBitsAll(a: bv8, b: bv8, r: int)
    ensures SameBits(a, b, r) <==> forall j :: 0 <= j < 8 && j < r ==> SameBit(a, b, j)
    decreases r
  {
    if r > 0 {
      SameBitsAll(a, b, r - 1);
    }
  }

  lemma MasksPeel(a: bv8, b: bv8)
    ensures EqualUnder(0x00, a, b)
    ensures EqualUnder(0x80, a, b) <==> (a & 0x80 != 0) == (b & 0x80 != 0)
    ensures EqualUnder(0xc0, a, b) <==> EqualUnder(0x80, a, b) && (a & 0x40 != 0) == (b & 0x40 != 0)
    ensures EqualUnder(0xe0, a, b) <==> EqualUnder(0xc0, a, b) && (a & 0x20 != 0) == (b & 0x20 != 0)
    ensures EqualUnder(0xf0, a, b) <==> EqualUnder(0xe0, a, b) && (a & 0x10 != 0) == (b & 0x10 != 0)
    ensures EqualUnder(0xf8, a, b) <==> EqualUnder(0xf0, a, b) && (a & 0x08 != 0) == (b & 0x08 != 0)
    ensures EqualUnder(0xfc, a, b) <==> EqualUnder(0xf8, a, b) && (a & 0x04 != 0) == (b & 0x04 != 0)
    ensures EqualUnder(0xfe, a, b) <==> EqualUnder(0xfc, a, b) && (a & 0x02 != 0) == (b & 0x02 != 0)
    ensures EqualUnder(0xff, a, b) <==> EqualUnder(0xfe, a, b) && (a & 0x01 != 0) == (b & 0x01 != 0)
  {
  }

  /** One more bit in the mask is one more bit compared. */
  lemma MaskStep(a: bv8, b: bv8, r: int)
    requires 0 < r <= 8
    ensures EqualUnder(ByteMask(r), a, b) <==> EqualUnder(ByteMask(r - 1), a, b) && SameBit(a, b, r - 1)
  {
    MasksPeel(a, b);
  }

  lemma {:induction false} BytesAgree(a: bv8, b: bv8, r: int)
    ensures EqualUnder(ByteMask(r), a, b) <==> SameBits(a, b, r)
    decreases r
  {
    MasksPeel(a, b);
    if r > 8 {
      BytesAgree(a, b, r - 1);
    } else if r > 0 {
      BytesAgree(a, b, r - 1);
      MaskStep(a, b, r);
    }
  }

  /** Byte by byte, the first `bits` bits of two addresses agree. */
  predicate SameBytes(x: Address, y: Address, bits: nat)
    requires |x| == |y|
  {
    forall i :: 0 <= i < |x| ==> SameBits(x[i], y[i], bits - 8 * i)
  }

  lemma MaskedAgree(x: Address, y: Address, bits: nat)
    requires |x| == |y|
    ensures var mask := PrefixMask(|x|, bits);
            (forall i :: 0 <= i < |x| ==> EqualUnder(mask[i], x[i], y[i])) <==> SameBytes(x, y, bits)
  {
    var mask := PrefixMask(|x|, bits);
    forall i | 0 <= i < |x| ensures EqualUnder(mask[i], x[i], y[i]) <==> SameBits(x[i], y[i], bits - 8 * i) {
      BytesAgree(x[i], y[i], bits - 8 * i);
      assert mask[i] == ByteMask(bits - 8 * i);
    }
  }

  lemma BitsByByte(x: Address, y: Address, bits: nat)
    requires |x| == |y| && bits <= 8 * |x|
    ensures (forall j :: 0 <= j < bits ==> BitOf(x, j) == BitOf(y, j)) <==> SameBytes(x, y, bits)
  {
    if forall j :: 0 <= j < bits ==> BitOf(x, j) == BitOf(y, j) {
      forall i | 0 <= i < |x| ensures SameBits(x[i], y[i], bits - 8 * i) {
        forall j | 0 <= j < 8 && j < bits - 8 * i ensures SameBit(x[i], y[i], j) {
          assert (8 * i + j) / 8 == i && (8 * i + j) % 8 == j;
          assert BitOf(x, 8 * i + j) == BitOf(y, 8 * i + j);
        }
        SameBitsAll(x[i], y[i], bits - 8 * i);
      }
    }
    if SameBytes(x, y, bits) {
      forall k | 0 <= k < bits ensures BitOf(x, k) == BitOf(y, k) {
        SameBitsAll(x[k / 8], y[k / 8], bits - 8 * (k / 8));
        assert SameBit(x[k / 8], y[k / 8], k % 8);
      }
    }
  }

  /** A range covers exactly the addresses of its family that begin with its leading bits. */
  lemma RangeCovers(base: Address, bits: nat, ip: Address)
    requires WellFormed(base) && Narrow(base) == base && bits <= 8 * |base|
    ensures Contains(Network(base, PrefixMask(|base|, bits)), ip) <==>
              |Narrow(ip)| == |base| && forall j :: 0 <= j < bits ==> BitOf(Narrow(ip), j) == BitOf(base, j)
  {
    var mask := PrefixMask(|base|, bits);
    assert NarrowMask(mask, |base|) == mask;
    if |Narrow(ip)| == |base| {
      MaskedAgree(Narrow(ip), base, bits);
      BitsByByte(Narrow(ip), base, bits);
    }
  }

  // ---- denied ranges ----

  predicate IsUnspecified(ip: Address) {
    forall i :: 0 <= i < |ip| ==> ip[i] == 0
  }

  predicate IsLoopback(ip: Address)
    requires WellFormed(ip)
  {
    if |ip| == 4 then ip[0] == 127 else ip[15] == 1 && forall i :: 0 <= i < 15 ==> ip[i] == 0
  }

  predicate IsLinkLocalUnicast(ip: Address)
    requires WellFormed(ip)
  {
    if |ip| == 4 then ip[0] == 169 && ip[1] == 254 else ip[0] == 0xfe && ip[1] & 0xc0 == 0x80
  }

  predicate IsLinkLocalMulticast(ip: Address)
    requires WellFormed(ip)
  {
    if |ip| == 4 then ip[0] == 224 && ip[1] == 0 && ip[2] == 0 else ip[0] == 0xff && ip[1] & 0x0f == 0x02
  }

  predicate IsMulticast(ip: Address)
    requires WellFormed(ip)
  {
    if |ip| == 4 then ip[0] & 0xf0 == 0xe0 else ip[0] == 0xff
  }

  predicate IsPrivate(ip: Address)
    requires WellFormed(ip)
  {
    if |ip| == 4
    then ip[0] == 10 || (ip[0] == 172 && ip[1] & 0xf0 == 16) || (ip[0] == 192 && ip[1] == 168)
    else ip[0] & 0xfe == 0xfc
  }

  /** The range descriptions of `deniedRange`; Public is its empty answer. */
  datatype Range =
    | Public | Loopback | Unspecified | LinkLocal | Multicast | Private | ThisNetwork | CarrierGradeNat | Broadcast

  function DeniedRange(ip: Address): Range
    requires WellFormed(ip)
  {
    var x := Narrow(ip);
    if IsLoopback(x) then Loopback
    else if IsUnspecified(x) then Unspecified
    else if IsLinkLocalUnicast(x) then LinkLocal
    else if IsLinkLocalMulticast(x) || IsMulticast(x) then Multicast
    else if IsPrivate(x) then Private
    else if |x| == 4 && x[0] == 0 then ThisNetwork
    else if |x| == 4 && x[0] == 100 && x[1] & 0xc0 == 64 then CarrierGradeNat
    else if x == [255, 255, 255, 255] then Broadcast
    else Public
  }

  /** The first two bytes lie between two addresses, whatever follows. */
  predicate Between(ip: Address, a: bv8, b: bv8, c: bv8, d: bv8)
    requires |ip| >= 2
  {
    (a < ip[0] || (a == ip[0] && b <= ip[1])) && (ip[0] < c || (ip[0] == c && ip[1] <= d))
  }

  /**
   The non-public ranges as their standards write them, first and last address: loopback,
   section 3 of RFC 1918, link-local, section 7 of RFC 6598, multicast, "this network" and
   broadcast for IPv4; unspecified, loopback, section 3.1 of RFC 4193, link-local and
   multicast for IPv6.
   */
  predicate NonPublic(ip: Address)
    requires WellFormed(ip)
  {
    if |ip| == 4 then
      || Between(ip, 127, 0, 127, 255)
      || Between(ip, 10, 0, 10, 255) || Between(ip, 172, 16, 172, 31) || Between(ip, 192, 168, 192, 168)
      || Between(ip, 169, 254, 169, 254)
      || Between(ip, 100, 64, 100, 127)
      || Between(ip, 224, 0, 239, 255)
      || Between(ip, 0, 0, 0, 255)
      || ip == [255, 255, 255, 255]
    else
      || (ip[15] <= 1 && forall i :: 0 <= i < 15 ==> ip[i] == 0)
      || Between(ip, 0xfc, 0x00, 0xfd, 0xff)
      || Between(ip, 0xfe, 0x80, 0xfe, 0xbf)
      || Between(ip, 0xff, 0x00, 0xff, 0xff)
  }

  lemma MasksAreIntervals(b: bv8)
    ensures b & 0xf0 == 16 <==> 16 <= b <= 31
    ensures b & 0xf0 == 0xe0 <==> 224 <= b <= 239
    ensures b & 0xc0 == 64 <==> 64 <= b <= 127
    ensures b & 0xc0 == 0x80 <==> 0x80 <= b <= 0xbf
    ensures b & 0xfe == 0xfc <==> 0xfc <= b <= 0xfd
  {
  }

  /** The byte tests deny exactly the standards' ranges, an IPv4-mapped address counting as IPv4. */
  lemma DeniedIffNonPublic(ip: Address)
    requires WellFormed(ip)
    ensures !DeniedRange(ip).Public? <==> NonPublic(Narrow(ip))
  {
    var x := Narrow(ip);
    if |x| == 4 {
      Denied4(x);
    } else {
      Denied16(x);
    }
  }

  lemma Denied4(x: Address)
    requires |x| == 4
    ensures NonPublic(x) <==>
              || IsLoopback(x) || IsUnspecified(x) || IsLinkLocalUnicast(x) || IsLinkLocalMulticast(x) || IsMulticast(x)
              || IsPrivate(x) || x[0] == 0 || (x[0] == 100 && x[1] & 0xc0 == 64) || x == [255, 255, 255, 255]
  {
    MasksAreIntervals(x[0]);
    MasksAreIntervals(x[1]);
    assert IsUnspecified(x) ==> x[0] == 0;
  }

  lemma Denied16(x: Address)
    requires |x| == 16
    ensures NonPublic(x) <==>
              || IsLoopback(x) || IsUnspecified(x) || IsLinkLocalUnicast(x) || IsLinkLocalMulticast(x) || IsMulticast(x)
              || IsPrivate(x)
  {
    MasksAreIntervals(x[0]);
    MasksAreIntervals(x[1]);
    assert x[15] <= 1 <==> x[15] == 0 || x[15] == 1;
    assert IsUnspecified(x) <==> x[15] == 0 && forall i :: 0 <= i < 15 ==> x[i] == 0;
  }

  /** Which range is named, for an address in its shorter form. */
  lemma RangeNames(x: Address)
    requires WellFormed(x) && Narrow(x) == x
    ensures var r, v4 := DeniedRange(x), |x| == 4;
            && (r.Loopback? <==> if v4 then Between(x, 127, 0, 127, 255) else x == seq(15, _ => 0 as bv8) + [1])
            && (r.Unspecified? <==> forall i :: 0 <= i < |x| ==> x[i] == 0)
            && (r.LinkLocal? <==> if v4 then Between(x, 169, 254, 169, 254) else Between(x, 0xfe, 0x80, 0xfe, 0xbf))
            && (r.Multicast? <==> if v4 then Between(x, 224, 0, 239, 255) else Between(x, 0xff, 0x00, 0xff, 0xff))
            && (r.CarrierGradeNat? <==> v4 && Between(x, 100, 64, 100, 127))
            && (r.Broadcast? <==> x == [255, 255, 255, 255])
            && (r.ThisNetwork? <==> v4 && x[0] == 0 && x != [0, 0, 0, 0])
  {
    MasksAreIntervals(x[0]);
    MasksAreIntervals(x[1]);
    if |x| == 16 {
      var one := seq(15, _ => 0 as bv8) + [1];
      assert IsLoopback(x) <==> forall i :: 0 <= i < 16 ==> x[i] == one[i];
    }
  }

  // ---- the two checks ----

  predicate IpAllowlisted(g: Guard, ip: Address) {
    exists i :: 0 <= i < |g.nets| && Contains(g.nets[i], ip)
  }

  predicate HostExempt(ps: Parsers, g: Guard, host: string) {
    || Lower(host) in g.hosts
    || (ps.ip(host).Some? && IpAllowlisted(g, ps.ip(host).value))
  }

  predicate CheckIp(g: Guard, ip: Address)
    requires WellFormed(ip)
  {
    IpAllowlisted(g, ip) || DeniedRange(ip).Public?
  }

  /** A resolver's answer, or its failure. */
  type Lookup = Option<seq<Address>>

  ghost predicate LawfulLookup(lookup: Lookup) {
    lookup.Some? ==> forall i :: 0 <= i < |lookup.value| ==> WellFormed(lookup.value[i])
  }

  predicate AllPass(g: Guard, ips: seq<Address>)
    requires forall i :: 0 <= i < |ips| ==> WellFormed(ips[i])
  {
    forall i :: 0 <= i < |ips| ==> CheckIp(g, ips[i])
  }

  datatype Url = Url(scheme: string, host: string)

  /** `ValidateURL` on a parsed URL: made when a target is saved, open when the name does not resolve. */
  predicate ValidateUrl(ps: Parsers, g: Guard, u: Url, lookup: Lookup)
    requires Lawful(ps) && LawfulLookup(lookup)
  {
    && (u.scheme == "http" || u.scheme == "https")
    && u.host != ""
    && (|| HostExempt(ps, g, u.host)
        || (if ps.ip(u.host).Some? then CheckIp(g, ps.ip(u.host).value)
            else lookup == None || AllPass(g, lookup.value)))
  }

  /**
   What a dial is allowed to connect to: the literal itself, whatever the system makes of an
   exempt name, or the checked answers.
   */
  datatype Dial = Refused | Literal(ip: Address) | ByName | Pinned(ips: seq<Address>)

  /** The checks of `DialContext`, before any connection is attempted. */
  function DialChecks(ps: Parsers, g: Guard, host: string, lookup: Lookup): Dial
    requires Lawful(ps) && LawfulLookup(lookup)
  {
    if ps.ip(host).Some? then
      if CheckIp(g, ps.ip(host).value) then Literal(ps.ip(host).value) else Refused
    else if HostExempt(ps, g, host) then ByName
    else if lookup == None || lookup.value == [] || !AllPass(g, lookup.value) then Refused
    else Pinned(lookup.value)
  }

  /** The address answers and none before it does. */
  predicate IsFirstAnswering(ips: seq<Address>, answers: Address -> bool, ip: Address) {
    exists i :: 0 <= i < |ips| && ips[i] == ip && answers(ips[i]) && forall j :: 0 <= j < i ==> !answers(ips[j])
  }

  /** The dial attempts, in order, until one address answers. */
  method FirstAnswering(ips: seq<Address>, answers: Address -> bool) returns (connected: Option<Address>)
    ensures connected.Some? ==> IsFirstAnswering(ips, answers, connected.value)
    ensures connected == None ==> forall i :: 0 <= i < |ips| ==> !answers(ips[i])
  {
    var i := 0;
    while i < |ips|
      invariant i <= |ips|
      invariant forall j :: 0 <= j < i ==> !answers(ips[j])
    {
      if answers(ips[i]) {
        return Some(ips[i]);
      }
      i := i + 1;
    }
    return None;
  }

  /** `DialContext`: the first validated address that answers is the one connected to. */
  method DialContext(ps: Parsers, g: Guard, host: string, lookup: Lookup, answers: Address -> bool)
    returns (refused: bool, connected: Option<Address>, byName: bool)
    requires Lawful(ps) && LawfulLookup(lookup)
    ensures refused <==> DialChecks(ps, g, host, lookup).Refused?
    ensures byName <==> DialChecks(ps, g, host, lookup).ByName?
    ensures connected.Some? ==>
              match DialChecks(ps, g, host, lookup)
              case Literal(ip) => connected.value == ip && answers(ip)
              case Pinned(ips) => IsFirstAnswering(ips, answers, connected.value)
              case _ => false
    ensures connected == None && !refused && !byName ==>
              match DialChecks(ps, g, host, lookup)
              case Literal(ip) => !answers(ip)
              case Pinned(ips) => forall i :: 0 <= i < |ips| ==> !answers(ips[i])
              case _ => false
  {
    refused, connected, byName := false, None, false;
    if ps.ip(host).Some? {
      var ip := ps.ip(host).value;
      if !CheckIp(g, ip) {
        refused := true;
      } else if answers(ip) {
        connected := Some(ip);
      }
      return;
    }
    if HostExempt(ps, g, host) {
      byName := true;
      return;
    }
    if lookup == None || |lookup.value| == 0 {
      refused := true;
      return;
    }
    var ips := lookup.value;
    var i := 0;
    while i < |ips|
      invariant i <= |ips|
      invariant forall j :: 0 <= j < i ==> CheckIp(g, ips[j])
    {
      if !CheckIp(g, ips[i]) {
        refused := true;
        return;
      }
      i := i + 1;
    }
    connected := FirstAnswering(ips, answers);
  }

  /**
   For every allow-list, http or https URL and resolver answer, the check at save time passes
   exactly when the dial's own checks pass, except that a name which the list does not hold and
   which does not resolve, or resolves to nothing, is saved and not dialled.
   */
  lemma ValidateAgreesWithDial(ps: Parsers, list: seq<string>, u: Url, lookup: Lookup)
    requires Lawful(ps) && LawfulLookup(lookup) && GuardFrom(ps, list).Some?
    requires (u.scheme == "http" || u.scheme == "https") && u.host != ""
    ensures var g := GuardFrom(ps, list).value;
            ValidateUrl(ps, g, u, lookup) <==>
              || !DialChecks(ps, g, u.host, lookup).Refused?
              || (ps.ip(u.host) == None && !Named(ps, list, u.host) && (lookup == None || lookup.value == []))
  {
    NamedIff(ps, list, u.host);
    if ps.ip(u.host).Some? {
      NoLiteralAmongHosts(ps, list, u.host);
    }
  }

  /** Every address the dial may connect to, unless its name is exempt, is allow-listed or public. */
  lemma DialledAddressesAreSafe(ps: Parsers, g: Guard, host: string, lookup: Lookup, ip: Address)
    requires Lawful(ps) && LawfulLookup(lookup) && WellFormed(ip)
    requires match DialChecks(ps, g, host, lookup)
             case Literal(x) => ip == x
             case Pinned(ips) => ip in ips
             case _ => false
    ensures IpAllowlisted(g, ip) || !NonPublic(Narrow(ip))
  {
    DeniedIffNonPublic(ip);
  }

  // ---- both checks, from the list ----

  /** The entry is a name, not a range or an address, and spells this host in some letter case. */
  predicate NamesHost(ps: Parsers, raw: string, host: string) {
    var entry := TrimSpace(raw);
    entry != "" && ps.cidr(entry) == None && ps.ip(entry) == None && EqualFold(entry, host)
  }

  /** The entry is a range that holds the address, or that address itself. */
  predicate CoversIp(ps: Parsers, raw: string, ip: Address) {
    var entry := TrimSpace(raw);
    && entry != ""
    && if ps.cidr(entry).Some? then Contains(ps.cidr(entry).value, ip)
       else ps.ip(entry).Some? && Narrow(ps.ip(entry).value) == Narrow(ip)
  }

  ghost predicate Named(ps: Parsers, list: seq<string>, host: string) {
    exists i :: 0 <= i < |list| && NamesHost(ps, list[i], host)
  }

  ghost predicate Covered(ps: Parsers, list: seq<string>, ip: Address) {
    exists i :: 0 <= i < |list| && CoversIp(ps, list[i], ip)
  }

  lemma NamedIff(ps: Parsers, list: seq<string>, host: string)
    requires GuardFrom(ps, list).Some?
    ensures Lower(host) in GuardFrom(ps, list).value.hosts <==> Named(ps, list, host)
  {
    GuardRefusedIff(ps, list);
    GuardHoldsList(ps, list, Lower(host), Network([], []));
    forall i | 0 <= i < |list|
      ensures Classify(ps, list[i]) == Host(Lower(host)) <==> NamesHost(ps, list[i], host)
    {
      assert !Unusable(ps, list[i]);
    }
  }

  /** A host is exempt exactly when an entry names it, or it is an address that an entry covers. */
  lemma HostExemptIff(ps: Parsers, list: seq<string>, host: string)
    requires Lawful(ps) && GuardFrom(ps, list).Some?
    ensures HostExempt(ps, GuardFrom(ps, list).value, host) <==>
              Named(ps, list, host) || (ps.ip(host).Some? && Covered(ps, list, ps.ip(host).value))
  {
    NamedIff(ps, list, host);
    if ps.ip(host).Some? {
      CoveredIff(ps, list, ps.ip(host).value);
    }
  }

  lemma CoversIff(ps: Parsers, raw: string, ip: Address)
    requires Lawful(ps) && WellFormed(ip)
    ensures CoversIp(ps, raw, ip) <==> Classify(ps, raw).Net? && Contains(Classify(ps, raw).n, ip)
  {
    var entry := TrimSpace(raw);
    if ps.cidr(entry) == None && ps.ip(entry).Some? {
      SingleAddressCovers(ps.ip(entry).value, ip);
    }
  }

  lemma CoveredIff(ps: Parsers, list: seq<string>, ip: Address)
    requires Lawful(ps) && GuardFrom(ps, list).Some? && WellFormed(ip)
    ensures IpAllowlisted(GuardFrom(ps, list).value, ip) <==> Covered(ps, list, ip)
  {
    var g := GuardFrom(ps, list).value;
    if IpAllowlisted(g, ip) {
      var k :| 0 <= k < |g.nets| && Contains(g.nets[k], ip);
      GuardHoldsList(ps, list, "", g.nets[k]);
      var i :| 0 <= i < |list| && Classify(ps, list[i]) == Net(g.nets[k]);
      CoversIff(ps, list[i], ip);
    }
    if Covered(ps, list, ip) {
      var i :| 0 <= i < |list| && CoversIp(ps, list[i], ip);
      CoversIff(ps, list[i], ip);
      GuardHoldsList(ps, list, "", Classify(ps, list[i]).n);
    }
  }

  /** The address may be dialled: listed, or outside every non-public range. */
  ghost predicate Permitted(ps: Parsers, list: seq<string>, ip: Address)
    requires WellFormed(ip)
  {
    Covered(ps, list, ip) || !NonPublic(Narrow(ip))
  }

  ghost predicate AllPermitted(ps: Parsers, list: seq<string>, ips: seq<Address>)
    requires forall i :: 0 <= i < |ips| ==> WellFormed(ips[i])
  {
    forall i :: 0 <= i < |ips| ==> Permitted(ps, list, ips[i])
  }

  lemma PermittedIff(ps: Parsers, list: seq<string>, ip: Address)
    requires Lawful(ps) && GuardFrom(ps, list).Some? && WellFormed(ip)
    ensures CheckIp(GuardFrom(ps, list).value, ip) <==> Permitted(ps, list, ip)
  {
    CoveredIff(ps, list, ip);
    DeniedIffNonPublic(ip);
  }

  lemma AllPermittedIff(ps: Parsers, list: seq<string>, ips: seq<Address>)
    requires Lawful(ps) && GuardFrom(ps, list).Some? && forall i :: 0 <= i < |ips| ==> WellFormed(ips[i])
    ensures AllPass(GuardFrom(ps, list).value, ips) <==> AllPermitted(ps, list, ips)
  {
    forall i | 0 <= i < |ips| ensures CheckIp(GuardFrom(ps, list).value, ips[i]) <==> Permitted(ps, list, ips[i]) {
      PermittedIff(ps, list, ips[i]);
    }
  }

  /**
   What a dial does, for every allow-list: a literal goes out exactly when it is permitted; a
   name goes to the system's resolver exactly when an entry of the list names it; any other
   goes to its answers exactly when there are some and all of them are permitted.
   */
  lemma DialDecides(ps: Parsers, list: seq<string>, host: string, lookup: Lookup)
    requires Lawful(ps) && LawfulLookup(lookup) && GuardFrom(ps, list).Some?
    ensures DialChecks(ps, GuardFrom(ps, list).value, host, lookup) ==
              if ps.ip(host).Some? then
                if Permitted(ps, list, ps.ip(host).value) then Literal(ps.ip(host).value) else Refused
              else if Named(ps, list, host) then ByName
              else if lookup == None || lookup.value == [] || !AllPermitted(ps, list, lookup.value) then Refused
              else Pinned(lookup.value)
  {
    NamedIff(ps, list, host);
    if ps.ip(host).Some? {
      PermittedIff(ps, list, ps.ip(host).value);
    } else if lookup.Some? {
      AllPermittedIff(ps, list, lookup.value);
    }
  }

  /** What the check at save time accepts, from the list. */
  lemma ValidateDecides(ps: Parsers, list: seq<string>, u: Url, lookup: Lookup)
    requires Lawful(ps) && LawfulLookup(lookup) && GuardFrom(ps, list).Some?
    ensures ValidateUrl(ps, GuardFrom(ps, list).value, u, lookup) <==>
              && u.scheme in {"http", "https"} && u.host != ""
              && if ps.ip(u.host).Some? then Permitted(ps, list, ps.ip(u.host).value)
                 else Named(ps, list, u.host) || lookup == None || AllPermitted(ps, list, lookup.value)
  {
    NamedIff(ps, list, u.host);
    if ps.ip(u.host).Some? {
      NoLiteralAmongHosts(ps, list, u.host);
      PermittedIff(ps, list, ps.ip(u.host).value);
    } else if lookup.Some? {
      AllPermittedIff(ps, list, lookup.value);
    }
  }

  /** One private answer that the list does not cover is enough to refuse a name that the list does not hold. */
  lemma MixedAnswersRefused(ps: Parsers, list: seq<string>, host: string, ips: seq<Address>, i: nat)
    requires Lawful(ps) && LawfulLookup(Some(ips)) && GuardFrom(ps, list).Some? && ps.ip(host) == None
    requires !Named(ps, list, host) && i < |ips| && NonPublic(Narrow(ips[i])) && !Covered(ps, list, ips[i])
    ensures DialChecks(ps, GuardFrom(ps, list).value, host, Some(ips)).Refused?
    ensures forall scheme :: !ValidateUrl(ps, GuardFrom(ps, list).value, Url(scheme, host), Some(ips))
  {
    assert !Permitted(ps, list, ips[i]);
    DialDecides(ps, list, host, Some(ips));
    forall scheme ensures !ValidateUrl(ps, GuardFrom(ps, list).value, Url(scheme, host), Some(ips)) {
      ValidateDecides(ps, list, Url(scheme, host), Some(ips));
    }
  }

  // ---- redirects ----

  const MAX_REDIRECTS: int := 10

  /** The headers that go no further than the first origin. */
  const CREDENTIALS := {"Authorization", "Proxy-Authorization", "Cookie", "Cookie2"}

  datatype Origin = Origin(scheme: string, host: string)

  predicate SafeToFollow(from: Origin, to: Origin) {
    && EqualFold(from.host, to.host)
    && (EqualFold(from.scheme, to.scheme) || (EqualFold(from.scheme, "http") && EqualFold(to.scheme, "https")))
  }

  /** Along a chain of safe redirects the host never changes and https is never left. */
  lemma SafeRedirectsCompose(a: Origin, b: Origin, c: Origin)
    requires SafeToFollow(a, b) && SafeToFollow(b, c)
    ensures SafeToFollow(a, c)
    ensures EqualFold(a.scheme, "https") ==> EqualFold(c.scheme, "https")
  {
    SchemesDiffer();
  }

  /** A step to another host is never safe; to the same host it is, unless it leaves https for http. */
  lemma SafeIff(from: Origin, to: Origin)
    ensures !EqualFold(from.host, to.host) ==> !SafeToFollow(from, to)
    ensures EqualFold(from.host, to.host) && (Http(from) || Https(from)) && (Http(to) || Https(to)) ==>
              (SafeToFollow(from, to) <==> !(Https(from) && Http(to)))
  {
    SchemesDiffer();
  }

  predicate Http(o: Origin) {
    EqualFold(o.scheme, "http")
  }

  predicate Https(o: Origin) {
    EqualFold(o.scheme, "https")
  }

  /** The request of this hop keeps its credentials: each hop is compared with the request that began the chain. */
  predicate KeepsCredentials(chain: seq<Origin>, k: nat)
    requires k < |chain|
  {
    k == 0 || SafeToFollow(chain[0], chain[k])
  }

  /** Every hop is safe after the one before it. */
  ghost predicate HopByHop(chain: seq<Origin>) {
    forall k :: 0 <= k < |chain| - 1 ==> SafeToFollow(chain[k], chain[k + 1])
  }

  /** A hop from https back to http. */
  predicate Downgrade(chain: seq<Origin>, k: nat) {
    k + 1 < |chain| && Https(chain[k]) && Http(chain[k + 1])
  }

  /** A chain of hops each safe after the last keeps credentials throughout. */
  lemma {:induction false} HopByHopKeeps(chain: seq<Origin>, k: nat)
    requires k < |chain| && HopByHop(chain)
    ensures KeepsCredentials(chain, k)
  {
    if k > 1 {
      HopByHopKeeps(chain, k - 1);
      SafeRedirectsCompose(chain[0], chain[k - 1], chain[k]);
    }
  }

  /** Conversely, a chain that keeps them throughout is safe hop by hop if and only if it never steps back to http. */
  lemma HopByHopIff(chain: seq<Origin>)
    requires forall k :: 0 <= k < |chain| ==> (Http(chain[k]) || Https(chain[k])) && KeepsCredentials(chain, k)
    ensures HopByHop(chain) <==> forall k :: 0 <= k < |chain| ==> !Downgrade(chain, k)
  {
    SchemesDiffer();
    if forall k :: 0 <= k < |chain| ==> !Downgrade(chain, k) {
      forall k | 0 <= k < |chain| - 1 ensures SafeToFollow(chain[k], chain[k + 1]) {
        assert !Downgrade(chain, k) && KeepsCredentials(chain, k) && KeepsCredentials(chain, k + 1);
      }
    }
  }

  lemma SchemesDiffer()
    ensures !EqualFold("http", "https")
  {
    assert |Lower("http")| != |Lower("https")|;
  }

  /**
   A step back from https to http keeps credentials exactly when the chain began at that host
   over http: after an upgrade, and never in a chain that began over https.
   */
  lemma DowngradeKeepsIff(chain: seq<Origin>, k: nat)
    requires Downgrade(chain, k)
    ensures KeepsCredentials(chain, k + 1) <==> Http(chain[0]) && EqualFold(chain[0].host, chain[k + 1].host)
  {
    SchemesDiffer();
  }

  /** The shortest such chain, on any host. */
  lemma UpgradeThenDowngrade(host: string)
    ensures var chain := [Origin("http", host), Origin("https", host), Origin("http", host)];
            Downgrade(chain, 1) && forall k :: 0 <= k < 3 ==> KeepsCredentials(chain, k)
  {
  }

  class Request {
    const url: Url
    const origin: Origin
    const hasBody: bool
    var headers: map<string, string>

    constructor (url: Url, origin: Origin, hasBody: bool, headers: map<string, string>)
      ensures this.url == url && this.origin == origin && this.hasBody == hasBody && this.headers == headers
    {
      this.url, this.origin, this.hasBody, this.headers := url, origin, hasBody, headers;
    }

    /** `CheckRedirect`: `first` is the origin of the request that began the chain of `hops`. */
    method CheckRedirect(ps: Parsers, g: Guard, first: Origin, hops: nat, lookup: Lookup) returns (ok: bool)
      requires Lawful(ps) && LawfulLookup(lookup)
      modifies this
      ensures ok <==>
                && hops < 10
                && ValidateUrl(ps, g, url, lookup)
                && (hops == 0 || SafeToFollow(first, origin) || !hasBody)
      ensures headers == if ok && hops > 0 && !SafeToFollow(first, origin)
                         then old(headers) - CREDENTIALS
                         else old(headers)
      ensures ok && hops > 0 && headers.Keys * CREDENTIALS != {} ==>
                EqualFold(first.host, origin.host) && !(Https(first) && Http(origin))
      ensures ok && hops > 0 && hasBody ==> EqualFold(first.host, origin.host) && !(Https(first) && Http(origin))
      ensures forall h :: h in headers ==> h in old(headers) && headers[h] == old(headers)[h]
    {
      if hops >= MAX_REDIRECTS || !ValidateUrl(ps, g, url, lookup) {
        return false;
      }
      SafeIff(first, origin);
      if hops > 0 && !SafeToFollow(first, origin) {
        if hasBody {
          return false;
        }
        headers := headers - {"Authorization"};
        headers := headers - {"Proxy-Authorization"};
        headers := headers - {"Cookie"};
        headers := headers - {"Cookie2"};
      }
      return true;
    }
  }
}
