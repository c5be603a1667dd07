/** IP addresses and networks (NetworkConnection.h). */
module Addresses {
  import opened Words

  datatype Family = UNKNOWN | IPV4 | IPV6

  function Length(family: Family): nat {
    match family
    case IPV4 => 4
    case IPV6 => 16
    case UNKNOWN => 0
  }

  /** The two 64-bit words of an address, first the high one. */
  datatype Address = Address(family: Family, hi: Word, lo: Word) {
    predicate IsNull() {
      IsZero(hi) && IsZero(lo)
    }

    function Bits(): (b: seq<bool>)
      ensures |b| == 128
    {
      hi + lo
    }

    function WordAt(p: nat): Word
      requires p < 2
    {
      if p == 0 then hi else lo
    }
  }

  const NULL_ADDRESS := Address(UNKNOWN, ZERO, ZERO)

  /** A network as the constructor leaves it: a prefix length that the family
      allows.  The stored masks are a function of address and length (`Mask`). */
  datatype RawNet = Net(address: Address, bits: nat, isAddr: bool) {
    predicate IsNull() {
      bits == 0 && address.IsNull()
    }
  }

  type IPNet = n: RawNet | n.bits <= 8 * Length(n.address.family)
    witness Net(NULL_ADDRESS, 0, false)

  const NULL_NET: IPNet := Net(NULL_ADDRESS, 0, false)

  /** The constructor clamps the prefix length to the width of the family. */
  function MakeNet(address: Address, bits: nat, isAddr: bool): IPNet {
    var width := 8 * Length(address.family);
    Net(address, if bits > width then width else bits, isAddr)
  }

  function HostNet(address: Address): IPNet {
    MakeNet(address, 8 * Length(address.family), true)
  }

  /** How many of the first `bits` bits fall in word `p`. */
  function BitsInWord(bits: nat, p: nat): (n: nat)
    requires bits <= 128 && p < 2
    ensures n <= 64
  {
    if p == 0 then (if bits < 64 then bits else 64)
    else (if bits < 64 then 0 else bits - 64)
  }

  /** The stored mask words of a network. */
  function Mask(net: IPNet, p: nat): Word
    requires p < 2
  {
    And(net.address.WordAt(p), HighMask(BitsInWord(net.bits, p)))
  }

  /** The prefix a network stands for, most significant bit first. */
  function Key(net: IPNet): (k: seq<bool>)
    ensures |k| == net.bits
  {
    net.address.Bits()[..net.bits]
  }

  /** The cases in which a mask word is a whole address word, or empty. */
  lemma WholeWords(net: IPNet)
    ensures net.bits >= 64 ==> Mask(net, 0) == net.address.hi
    ensures net.bits == 128 ==> Mask(net, 1) == net.address.lo
    ensures net.bits == 0 ==> Mask(net, 0) == ZERO
    ensures net.bits <= 64 ==> Mask(net, 1) == ZERO
  {
    FullMasks(net.address.hi);
    FullMasks(net.address.lo);
  }

  /** The mask words of the constructor, computed by its word loop. */
  method BuildMask(net: IPNet) returns (mask: seq<Word>)
    ensures mask == [Mask(net, 0), Mask(net, 1)]
  {
    mask := [ZERO, ZERO];
    WholeWords(net);
    var bitsLeft := net.bits;
    var inP, outP := 0, 0;
    while bitsLeft >= 64
      invariant inP == outP && net.bits == bitsLeft + 64 * outP
      invariant mask == [if outP == 0 then ZERO else net.address.hi, if outP <= 1 then ZERO else net.address.lo]
    {
      mask := mask[outP := net.address.WordAt(inP)];
      inP, outP, bitsLeft := inP + 1, outP + 1, bitsLeft - 64;
    }
    if bitsLeft > 0 {
      var lastMask := Not(Shr(ALL, bitsLeft));
      mask := mask[outP := And(net.address.WordAt(inP), lastMask)];
    }
  }

  /** `IPNet::Contains` in terms of mask words. */
  predicate Contains(net: IPNet, address: Address) {
    address.family == net.address.family && MaskAgrees(net, address, 0) && MaskAgrees(net, address, 1)
  }

  predicate MaskAgrees(net: IPNet, address: Address, p: nat)
    requires p < 2
  {
    And(address.WordAt(p), HighMask(BitsInWord(net.bits, p))) == Mask(net, p)
  }

  lemma WholeWordsAgree(net: IPNet, address: Address)
    ensures net.bits >= 64 ==> (MaskAgrees(net, address, 0) <==> address.hi == Mask(net, 0))
    ensures net.bits == 128 ==> (MaskAgrees(net, address, 1) <==> address.lo == Mask(net, 1))
    ensures net.bits == 0 ==> MaskAgrees(net, address, 0)
    ensures net.bits <= 64 ==> MaskAgrees(net, address, 1)
  {
    WholeWords(net);
    FullMasks(address.hi);
    FullMasks(address.lo);
  }

  /** The word loop of `IPNet::Contains` over the stored mask words. */
  method ContainsByWords(net: IPNet, address: Address) returns (r: bool)
    ensures r == Contains(net, address)
  {
    WholeWordsAgree(net, address);
    if address.family != net.address.family {
      return false;
    }
    var mask := BuildMask(net);
    var bitsLeft, p := net.bits, 0;
    while bitsLeft >= 64
      invariant 0 <= p <= 2 && net.bits == bitsLeft + 64 * p
      invariant forall w: nat :: w < p ==> MaskAgrees(net, address, w)
    {
      assert MaskAgrees(net, address, p) <==> address.WordAt(p) == mask[p];
      if address.WordAt(p) != mask[p] {
        return false;
      }
      p, bitsLeft := p + 1, bitsLeft - 64;
    }
    if bitsLeft > 0 {
      var lastMask := Not(Shr(ALL, bitsLeft));
      assert MaskAgrees(net, address, p) <==> And(address.WordAt(p), lastMask) == mask[p];
      if And(address.WordAt(p), lastMask) != mask[p] {
        return false;
      }
    }
    return true;
  }

  /** Containment is agreement on the network's prefix. */
  lemma ContainsIsPrefix(net: IPNet, address: Address)
    ensures Contains(net, address) <==> address.family == net.address.family && Key(net) <= address.Bits()
  {
    var n0, n1 := BitsInWord(net.bits, 0), BitsInWord(net.bits, 1);
    MaskedEqual(address.hi, net.address.hi, n0);
    MaskedEqual(address.lo, net.address.lo, n1);
    PrefixAcrossWords(net.address, net.bits);
    PrefixAcrossWords(address, net.bits);
    SplitEqual(address.hi[..n0], address.lo[..n1], net.address.hi[..n0], net.address.lo[..n1]);
  }

  lemma PrefixAcrossWords(a: Address, bits: nat)
    requires bits <= 128
    ensures a.Bits()[..bits] == a.hi[..BitsInWord(bits, 0)] + a.lo[..BitsInWord(bits, 1)]
  {
  }

  lemma SplitEqual(a: seq<bool>, b: seq<bool>, c: seq<bool>, d: seq<bool>)
    requires |a| == |c|
    ensures a + b == c + d <==> a == c && b == d
  {
    if a + b == c + d {
      assert a == (a + b)[..|a|] && c == (c + d)[..|c|];
      assert b == (a + b)[|a|..] && d == (c + d)[|c|..];
    }
  }

  // ----- well-known ranges

  /** The `n` low bits of a number, most significant first. */
  function LowBits(b: nat, n: nat): (s: seq<bool>)
    ensures |s| == n
  {
    if n == 0 then [] else LowBits(b / 2, n - 1) + [b % 2 == 1]
  }

  function ByteBits(b: nat): (s: seq<bool>)
    requires b < 256
    ensures |s| == 8
  {
    LowBits(b, 8)
  }

  function Halved(b: nat, i: nat): nat {
    if i == 0 then b else Halved(b / 2, i - 1)
  }

  lemma {:induction false} LowBitsAt(b: nat, n: nat, i: nat)
    requires i < n
    ensures LowBits(b, n)[n - 1 - i] == (Halved(b, i) % 2 == 1)
  {
    if i > 0 {
      LowBitsAt(b / 2, n - 1, i - 1);
    }
  }

  /** The first bits of a byte, one by one. */
  lemma BitsOfByte(b: nat)
    requires b < 256
    ensures var s := ByteBits(b);
            && s[0] == (Halved(b, 7) % 2 == 1) && s[1] == (Halved(b, 6) % 2 == 1) && s[2] == (Halved(b, 5) % 2 == 1)
            && s[3] == (Halved(b, 4) % 2 == 1) && s[4] == (Halved(b, 3) % 2 == 1)
  {
    hide LowBits, Halved;
    LowBitsAt(b, 8, 7);
    LowBitsAt(b, 8, 6);
    LowBitsAt(b, 8, 5);
    LowBitsAt(b, 8, 4);
    LowBitsAt(b, 8, 3);
  }

  function V4(a: nat, b: nat, c: nat, d: nat): Address
    requires a < 256 && b < 256 && c < 256 && d < 256
  {
    Address(IPV4, ByteBits(a) + ByteBits(b) + ByteBits(c) + ByteBits(d) + Fill(32, false), ZERO)
  }

  /** The IPv6 address with two leading bytes and zeros after them. */
  function V6(a: nat, b: nat): Address
    requires a < 256 && b < 256
  {
    Address(IPV6, ByteBits(a) + ByteBits(b) + Fill(48, false), ZERO)
  }

  /** The 32 bits 0000ffff in front of a mapped IPv4 address. */
  const MAPPED_TAG: seq<bool> := Fill(16, false) + Fill(16, true)

  /** The IPv4-mapped form (section 2.5.5.2 of RFC 4291): 80 zero bits, 16 one
      bits, the IPv4 address. */
  function ToV6(a: Address): Address {
    match a.family
    case IPV6 => a
    case IPV4 => Address(IPV6, ZERO, MAPPED_TAG + a.hi[..32])
    case UNKNOWN => NULL_ADDRESS
  }

  /** Loopback: 127.0.0.0/8, ::1, and the IPv4-mapped form of 127.0.0.0/8. */
  predicate IsLocal(a: Address) {
    match a.family
    case IPV4 => a.hi[..8] == ByteBits(127)
    case IPV6 => IsZero(a.hi) && (a.lo == OneHot(63) || a.lo[..40] == MAPPED_TAG + ByteBits(127))
    case UNKNOWN => false
  }

  /** The address that stands for "the rest of the internet". */
  predicate IsCanonicalExternalIp(a: Address) {
    match a.family
    case IPV4 => a.hi[..32] == Fill(32, true)
    case IPV6 => a.hi == ALL && a.lo == ALL
    case UNKNOWN => false
  }

  const CANONICAL_V4 := V4(255, 255, 255, 255)
  const CANONICAL_V6 := Address(IPV6, ALL, ALL)

  /** Ranges of section 3 of RFC 1918, with carrier-grade NAT and link-local. */
  const PRIVATE_V4: seq<IPNet> := [
    MakeNet(V4(10, 0, 0, 0), 8, false),
    MakeNet(V4(100, 64, 0, 0), 10, false),
    MakeNet(V4(169, 254, 0, 0), 16, false),
    MakeNet(V4(172, 16, 0, 0), 12, false),
    MakeNet(V4(192, 168, 0, 0), 16, false)]

  /** fd00::/8, the locally assigned half of section 3.1 of RFC 4193. */
  const ULA: IPNet := MakeNet(Address(IPV6, ByteBits(0xfd) + Fill(56, false), ZERO), 8, false)

  function MappedNet(net: IPNet): IPNet {
    MakeNet(ToV6(net.address), net.bits + 96, false)
  }

  function MappedNets(nets: seq<IPNet>): (r: seq<IPNet>)
    ensures |r| == |nets| && forall i :: 0 <= i < |nets| ==> r[i] == MappedNet(nets[i])
  {
    if nets == [] then [] else [MappedNet(nets[0])] + MappedNets(nets[1..])
  }

  function PrivateNetworks(family: Family): seq<IPNet> {
    match family
    case IPV4 => PRIVATE_V4
    case IPV6 => [ULA] + MappedNets(PRIVATE_V4)
    case UNKNOWN => []
  }

  /** The scan of a list of networks for one that contains the address. */
  predicate ContainedInAny(nets: seq<IPNet>, a: Address) {
    nets != [] && (Contains(nets[0], a) || ContainedInAny(nets[1..], a))
  }

  predicate IsPublic(a: Address) {
    !ContainedInAny(PrivateNetworks(a.family), a)
  }

  /** An IPv4 network contains an address iff its mapped network contains the
      mapped address. */
  lemma MappedContains(net: IPNet, a: Address)
    requires net.address.family == IPV4 && a.family == IPV4
    ensures Contains(MappedNet(net), ToV6(a)) <==> Contains(net, a)
  {
    ContainsIsPrefix(net, a);
    ContainsIsPrefix(MappedNet(net), ToV6(a));
    var n, prefix := net.bits, ZERO + MAPPED_TAG;
    MappedPrefix(a, n);
    MappedPrefix(net.address, n);
    SplitEqual(prefix, a.Bits()[..n], prefix, Key(net));
  }

  lemma MappedPrefix(a: Address, n: nat)
    requires a.family == IPV4 && n <= 32
    ensures ToV6(a).Bits()[..n + 96] == ZERO + MAPPED_TAG + a.Bits()[..n]
  {
    var tag := MAPPED_TAG;
    assert ToV6(a).Bits() == ZERO + tag + a.hi[..32];
    assert a.hi[..32][..n] == a.Bits()[..n];
  }

  lemma ULAIsNotMapped(a: Address)
    requires a.family == IPV4
    ensures !Contains(ULA, ToV6(a))
  {
    ContainsIsPrefix(ULA, ToV6(a));
    assert ByteBits(0xfd)[0];
    assert Key(ULA)[0] == ULA.address.hi[0] == ByteBits(0xfd)[0];
    assert ToV6(a).Bits()[0] == ZERO[0];
  }

  /** Mapping an IPv4 address into IPv6 changes neither classification. */
  lemma MappingKeepsClassification(a: Address)
    requires a.family == IPV4
    ensures IsPublic(a) <==> IsPublic(ToV6(a))
    ensures IsLocal(a) <==> IsLocal(ToV6(a))
  {
    MappedList(PRIVATE_V4, a);
    ULAIsNotMapped(a);
    assert PrivateNetworks(IPV6)[1..] == MappedNets(PRIVATE_V4);
    MappedLocal(a);
  }

  lemma {:induction false} MappedList(nets: seq<IPNet>, a: Address)
    requires a.family == IPV4
    requires forall i :: 0 <= i < |nets| ==> nets[i].address.family == IPV4
    ensures ContainedInAny(nets, a) <==> ContainedInAny(MappedNets(nets), ToV6(a))
  {
    if nets != [] {
      MappedContains(nets[0], a);
      MappedList(nets[1..], a);
      assert MappedNets(nets)[1..] == MappedNets(nets[1..]);
    }
  }

  lemma MappedLocal(a: Address)
    requires a.family == IPV4
    ensures IsLocal(a) <==> IsLocal(ToV6(a))
  {
    var m, tag := ToV6(a), MAPPED_TAG;
    assert m.lo[16] && !OneHot(63)[16];
    assert m.lo[..40] == tag + a.hi[..8];
    SplitEqual(tag, a.hi[..8], tag, ByteBits(127));
  }
}
