/** Which addresses are private and which are loopback, in terms of their bytes. */
module AddressClasses {
  import opened Words
  import opened Addresses
  import opened PrivateRanges

  // ----- bytes and their leading bits

  lemma {:induction false} HalvedTwice(b: nat, i: nat, j: nat)
    ensures Halved(Halved(b, i), j) == Halved(b, i + j)
  {
    if i > 0 {
      HalvedTwice(b / 2, i - 1, j);
    }
  }

  lemma {:induction false} LowBitsPrefix(b: nat, n: nat, k: nat)
    requires k <= n
    ensures LowBits(b, n)[..k] == LowBits(Halved(b, n - k), k)
    decreases n - k
  {
    if k < n {
      LowBitsPrefix(b / 2, n - 1, k);
      assert LowBits(b, n)[..k] == LowBits(b / 2, n - 1)[..k];
    } else {
      assert LowBits(b, n)[..k] == LowBits(b, n);
    }
  }

  lemma {:induction false} LowBitsInjective(a: nat, b: nat, n: nat)
    requires Halved(a, n) == 0 == Halved(b, n) && LowBits(a, n) == LowBits(b, n)
    ensures a == b
  {
    if n > 0 {
      var x, y := LowBits(a, n), LowBits(b, n);
      assert x[..n - 1] == LowBits(a / 2, n - 1) && y[..n - 1] == LowBits(b / 2, n - 1);
      assert x[n - 1] == (a % 2 == 1) && y[n - 1] == (b % 2 == 1);
      LowBitsInjective(a / 2, b / 2, n - 1);
    }
  }

  lemma HalvedIsQuotient(b: nat)
    ensures Halved(b, 2) == b / 4 && Halved(b, 4) == b / 16 && Halved(b, 6) == b / 64 && Halved(b, 8) == b / 256
  {
    HalvedByFour(b);
    HalvedByFour(b / 4);
    HalvedByFour(b / 16);
    HalvedByFour(b / 64);
    HalvedTwice(b, 2, 2);
    HalvedTwice(b, 4, 2);
    HalvedTwice(b, 6, 2);
  }

  lemma HalvedByFour(b: nat)
    ensures Halved(b, 2) == b / 4
  {
    assert Halved(b, 2) == Halved(b / 2, 1) == Halved(b / 2 / 2, 0);
  }

  lemma ByteFits(b: nat)
    requires b < 256
    ensures Halved(b, 8) == 0
  {
    hide Halved;
    HalvedIsQuotient(b);
  }

  /** Two bytes agree on their leading bits iff they agree without the others. */
  lemma LeadingBits(a: nat, b: nat, k: nat)
    requires a < 256 && b < 256 && k <= 8
    ensures ByteBits(a)[..k] == ByteBits(b)[..k] <==> Halved(a, 8 - k) == Halved(b, 8 - k)
  {
    hide LowBits, Halved;
    LowBitsPrefix(a, 8, k);
    LowBitsPrefix(b, 8, k);
    HalvedTwice(a, 8 - k, k);
    HalvedTwice(b, 8 - k, k);
    ByteFits(a);
    ByteFits(b);
    if LowBits(Halved(a, 8 - k), k) == LowBits(Halved(b, 8 - k), k) {
      LowBitsInjective(Halved(a, 8 - k), Halved(b, 8 - k), k);
    }
  }

  lemma SameByte(a: nat, b: nat)
    requires a < 256 && b < 256
    ensures ByteBits(a) == ByteBits(b) <==> a == b
  {
    hide ByteBits;
    LeadingBits(a, b, 8);
    assert ByteBits(a)[..8] == ByteBits(a) && ByteBits(b)[..8] == ByteBits(b);
  }

  // ----- IPv4

  /** A range that fixes the first byte and `k` bits of the second. */
  lemma InRange(a: nat, b: nat, c: nat, d: nat, x: nat, y: nat, k: nat)
    requires a < 256 && b < 256 && c < 256 && d < 256 && x < 256 && y < 256 && k <= 8
    ensures Contains(MakeNet(V4(x, y, 0, 0), 8 + k, false), V4(a, b, c, d)) <==>
              a == x && Halved(b, 8 - k) == Halved(y, 8 - k)
  {
    hide Contains, ByteBits, Halved;
    var net, address := MakeNet(V4(x, y, 0, 0), 8 + k, false), V4(a, b, c, d);
    ContainsIsPrefix(net, address);
    var bits := address.Bits();
    assert Key(net) == ByteBits(x) + ByteBits(y)[..k];
    assert bits[..8 + k] == ByteBits(a) + ByteBits(b)[..k];
    SplitEqual(ByteBits(x), ByteBits(y)[..k], ByteBits(a), ByteBits(b)[..k]);
    LeadingBits(b, y, k);
    SameByte(a, x);
  }

  lemma {:induction false} InAnyIff(nets: seq<IPNet>, a: Address)
    ensures ContainedInAny(nets, a) <==> exists n :: n in nets && Contains(n, a)
  {
    hide Contains;
    if nets != [] {
      InAnyIff(nets[1..], a);
      assert forall n :: n in nets <==> n == nets[0] || n in nets[1..];
    }
  }

  lemma SecondBytes(b: nat)
    requires b < 256
    ensures Halved(b, 6) == Halved(64, 6) <==> 64 <= b < 128
    ensures Halved(b, 4) == Halved(16, 4) <==> 16 <= b < 32
    ensures Halved(b, 8) == Halved(0, 8)
    ensures Halved(b, 0) == b
  {
    hide Halved;
    HalvedIsQuotient(b);
    HalvedIsQuotient(64);
    HalvedIsQuotient(16);
    HalvedIsQuotient(0);
    NotHalved(b);
  }

  lemma NotHalved(b: nat)
    ensures Halved(b, 0) == b
  {
  }

  /** The private IPv4 addresses: 10.0.0.0/8, 172.16.0.0/12 and 192.168.0.0/16 (section 3 of
      RFC 1918), with 100.64.0.0/10 and 169.254.0.0/16. */
  lemma PublicV4Iff(a: nat, b: nat, c: nat, d: nat)
    requires a < 256 && b < 256 && c < 256 && d < 256
    ensures IsPublic(V4(a, b, c, d)) <==>
              !(a == 10 || (a == 172 && 16 <= b < 32) || (a == 192 && b == 168)
                || (a == 100 && 64 <= b < 128) || (a == 169 && b == 254))
  {
    hide Contains, ByteBits, Halved;
    SecondBytes(b);
    SecondBytes(254);
    SecondBytes(168);
    InRange(a, b, c, d, 10, 0, 0);
    InRange(a, b, c, d, 100, 64, 2);
    InRange(a, b, c, d, 169, 254, 8);
    InRange(a, b, c, d, 172, 16, 4);
    InRange(a, b, c, d, 192, 168, 8);
    InAnyIff(PRIVATE_V4, V4(a, b, c, d));
    var nets := PRIVATE_V4;
    assert forall n :: n in nets <==> n in [nets[0], nets[1], nets[2], nets[3], nets[4]];
  }

  lemma LocalV4Iff(a: nat, b: nat, c: nat, d: nat)
    requires a < 256 && b < 256 && c < 256 && d < 256
    ensures IsLocal(V4(a, b, c, d)) <==> a == 127
  {
    hide ByteBits;
    assert V4(a, b, c, d).hi[..8] == ByteBits(a);
    SameByte(a, 127);
  }

  // ----- IPv6

  /** The mapped form, bit by bit (section 2.5.5.2 of RFC 4291). */
  lemma MappedForm(a: Address)
    requires a.family == IPV4
    ensures ToV6(a).family == IPV6
    ensures ToV6(a).Bits() == Fill(80, false) + Fill(16, true) + a.hi[..32]
  {
    var tag := MAPPED_TAG;
    assert ToV6(a).Bits() == ZERO + tag + a.hi[..32];
  }

  /** The IPv4 address in the last 32 bits. */
  function LastFour(a: Address): Address {
    Address(IPV4, a.lo[32..] + Fill(32, false), ZERO)
  }

  predicate IsMapped(a: Address) {
    a.family == IPV6 && a.Bits()[..96] == Fill(80, false) + Fill(16, true)
  }

  lemma MappedIsLastFour(a: Address)
    requires IsMapped(a)
    ensures ToV6(LastFour(a)) == a && LastFour(a).family == IPV4
  {
    var tag := MAPPED_TAG;
    var bits := a.Bits();
    assert bits[..96] == ZERO + tag;
    assert bits[..64] == a.hi && (ZERO + tag)[..64] == ZERO;
    assert bits[..96][64..] == a.lo[..32] && (ZERO + tag)[64..] == tag;
    assert a.lo == a.lo[..32] + a.lo[32..];
    assert LastFour(a).hi[..32] == a.lo[32..];
  }

  /** What lies in a mapped range is a mapped address. */
  lemma InMappedRange(n: IPNet, a: Address)
    requires n.address.family == IPV4 && Contains(MappedNet(n), a)
    ensures IsMapped(a)
  {
    hide Contains;
    var m := MappedNet(n);
    ContainsIsPrefix(m, a);
    MappedForm(n.address);
    assert Key(m)[..96] == m.address.Bits()[..96] == a.Bits()[..96];
  }

  /** The private IPv6 addresses: fd00::/8, of section 3.1 of RFC 4193, and the mapped forms
      of the private IPv4 ones. */
  lemma PublicV6Iff(a: Address)
    requires a.family == IPV6
    ensures IsPublic(a) <==> a.hi[..8] != ByteBits(0xfd) && (IsMapped(a) ==> IsPublic(LastFour(a)))
  {
    hide Contains, ByteBits, IsMapped;
    var nets := PrivateNetworks(IPV6);
    ContainsIsPrefix(ULA, a);
    assert Key(ULA) == ByteBits(0xfd) && a.Bits()[..8] == a.hi[..8];
    assert nets[0] == ULA && nets[1..] == MappedNets(PRIVATE_V4);
    if IsMapped(a) {
      MappedIsLastFour(a);
      MappedList(PRIVATE_V4, LastFour(a));
    } else {
      NoMappedRange(a);
    }
  }

  lemma NoMappedRange(a: Address)
    requires !IsMapped(a)
    ensures !ContainedInAny(MappedNets(PRIVATE_V4), a)
  {
    hide Contains, ByteBits, IsMapped;
    var nets := MappedNets(PRIVATE_V4);
    InAnyIff(nets, a);
    forall n | n in nets ensures !Contains(n, a) {
      var i :| 0 <= i < |nets| && nets[i] == n;
      if Contains(n, a) {
        InMappedRange(PRIVATE_V4[i], a);
        assert false;
      }
    }
  }

  /** The loopback IPv6 addresses: ::1, and the mapped forms of 127.0.0.0/8. */
  lemma LocalV6Iff(a: Address)
    requires a.family == IPV6
    ensures IsLocal(a) <==> a.Bits() == Fill(127, false) + [true] || (IsMapped(a) && IsLocal(LastFour(a)))
  {
    hide ByteBits;
    var tag, bits, b := MAPPED_TAG, a.Bits(), ByteBits(127);
    assert OneHot(63) == Fill(63, false) + [true];
    assert IsZero(a.hi) <==> a.hi == ZERO;
    assert a.hi == ZERO && a.lo == OneHot(63) ==> bits == Fill(127, false) + [true];
    if bits == Fill(127, false) + [true] {
      assert a.hi == bits[..64] == ZERO && a.lo == bits[64..] == OneHot(63);
    }
    MappedTag(a);
    assert a.lo[..40] == a.lo[..32] + a.lo[32..40] && LastFour(a).hi[..8] == a.lo[32..40];
    SplitEqual(a.lo[..32], a.lo[32..40], tag, b);
  }

  lemma MappedTag(a: Address)
    requires a.family == IPV6
    ensures IsMapped(a) <==> a.hi == ZERO && a.lo[..32] == MAPPED_TAG
  {
    var tag, bits := MAPPED_TAG, a.Bits();
    assert bits[..96] == a.hi + a.lo[..32];
    assert Fill(80, false) + Fill(16, true) == ZERO + tag;
    SplitEqual(a.hi, a.lo[..32], ZERO, tag);
  }

  /** The canonical external address of a family is the one with all bits set. */
  lemma CanonicalIff(a: Address)
    ensures IsCanonicalExternalIp(a) <==>
              a.family != UNKNOWN && forall i :: 0 <= i < 8 * Length(a.family) ==> a.Bits()[i]
  {
    var bits := a.Bits();
    assert forall i :: 0 <= i < 32 ==> a.hi[..32][i] == bits[i];
    assert forall i :: 0 <= i < 64 ==> bits[i] == a.hi[i] && bits[64 + i] == a.lo[i];
    if a.family == IPV6 && forall i :: 0 <= i < 128 ==> bits[i] {
      assert forall i :: 0 <= i < 64 ==> a.lo[i] == bits[64 + i];
      assert a.hi == ALL && a.lo == ALL;
    }
  }
}
