/** The wire form of networks (NetworkStatusNotifier.cpp): address bytes in network
    order followed by one byte for the prefix length. */
module Encoding {
  import opened Wrappers
  import opened Words
  import opened Addresses
  import opened AddressClasses
  import opened Normalization

  // ----- bytes and bits

  /** The number a bit string stands for. */
  function ValueOf(s: seq<bool>): nat {
    if s == [] then 0 else 2 * ValueOf(s[..|s| - 1]) + if s[|s| - 1] then 1 else 0
  }

  function Pow2(n: nat): nat {
    if n == 0 then 1 else 2 * Pow2(n - 1)
  }

  lemma {:induction false} ValueRoundTrip(s: seq<bool>)
    ensures LowBits(ValueOf(s), |s|) == s
    ensures ValueOf(s) < Pow2(|s|)
  {
    if s != [] {
      ValueRoundTrip(s[..|s| - 1]);
      assert s == s[..|s| - 1] + [s[|s| - 1]];
    }
  }

  function ByteOf(s: seq<bool>): Byte
    requires |s| == 8
  {
    ValueRoundTrip(s);
    assert Pow2(8) == 256;
    ValueOf(s)
  }

  lemma ByteRoundTrip(s: seq<bool>)
    requires |s| == 8
    ensures ByteBits(ByteOf(s)) == s
  {
    ValueRoundTrip(s);
  }

  function BytesOf(bits: seq<bool>): (r: seq<Byte>)
    requires |bits| % 8 == 0
    ensures 8 * |r| == |bits|
  {
    if bits == [] then [] else [ByteOf(bits[..8])] + BytesOf(bits[8..])
  }

  function BitsOf(bytes: seq<Byte>): (r: seq<bool>)
    ensures |r| == 8 * |bytes|
  {
    if bytes == [] then [] else ByteBits(bytes[0]) + BitsOf(bytes[1..])
  }

  lemma {:induction false} BytesRoundTrip(bits: seq<bool>)
    requires |bits| % 8 == 0
    ensures BitsOf(BytesOf(bits)) == bits
  {
    hide ByteBits, ByteOf;
    if bits != [] {
      ByteRoundTrip(bits[..8]);
      BytesRoundTrip(bits[8..]);
      var r := BytesOf(bits);
      assert r[0] == ByteOf(bits[..8]) && r[1..] == BytesOf(bits[8..]);
      assert bits == bits[..8] + bits[8..];
    }
  }

  // ----- sending

  function AddressData(a: Address): (r: seq<Byte>)
    ensures |r| == Length(a.family)
  {
    BytesOf(a.Bits()[..8 * Length(a.family)])
  }

  function EncodeNet(net: IPNet): (r: seq<Byte>)
    ensures |r| == Length(net.address.family) + 1
  {
    AddressData(net.address) + [net.bits]
  }

  datatype NetworkAddress = NetworkAddress(addressData: Option<seq<Byte>>, ipNetwork: Option<seq<Byte>>, port: nat)

  /** `EndpointToProto`. */
  function EndpointToProto(endpoint: Endpoint): Option<NetworkAddress> {
    if endpoint.port == 0 && endpoint.network.IsNull() then None
    else
      Some(NetworkAddress(
             if endpoint.network.isAddr then Some(AddressData(endpoint.network.address)) else None,
             if endpoint.network.bits > 0 then Some(EncodeNet(endpoint.network)) else None,
             endpoint.port))
  }

  // ----- receiving

  /** A `char` is signed, and a negative prefix length becomes a huge `size_t`, which
      the constructor of the network clamps. */
  function ReceivedLength(b: Byte): nat {
    if b < 128 then b else 0x1_0000_0000_0000_0000 + (b - 256)
  }

  /** The bytes are copied to the front of a zeroed 16-byte address. */
  function AddressFrom(bytes: seq<Byte>, family: Family): Address
    requires |bytes| == Length(family)
  {
    var all := BitsOf(bytes) + Fill(128 - 8 * |bytes|, false);
    Address(family, all[..64], all[64..])
  }

  function DecodeNet(tuple: seq<Byte>, family: Family): IPNet
    requires |tuple| == Length(family) + 1
  {
    var n := Length(family);
    MakeNet(AddressFrom(tuple[..n], family), ReceivedLength(tuple[n]), false)
  }

  function DecodeAll(bytes: seq<Byte>, family: Family): seq<IPNet> {
    var size := Length(family) + 1;
    if |bytes| < size then [] else [DecodeNet(bytes[..size], family)] + DecodeAll(bytes[size..], family)
  }

  lemma TupleInRange(size: int, n: int, i: int)
    requires size > 0 && 0 <= i < n / size
    ensures 0 <= size * i && size * i + size == size * (i + 1) <= n
  {
    var q := n / size;
    assert size * q <= n;
    var rest := q - (i + 1);
    assert size * q == size * (i + 1) + size * rest;
    assert 0 <= size * rest;
    assert 0 <= size * i;
  }

  lemma NothingAfterLastTuple(size: int, n: int)
    requires size > 0 && 0 <= n
    ensures 0 <= size * (n / size) <= n < size * (n / size) + size
  {
  }

  /** `readNetworks`: as many whole tuples as there are. */
  method ReadNetworks(bytes: seq<Byte>, family: Family) returns (nets: seq<IPNet>)
    ensures nets == DecodeAll(bytes, family)
  {
    hide DecodeNet, DecodeAll;
    var size := Length(family) + 1;
    var num := |bytes| / size;
    nets := [];
    NothingAfterLastTuple(size, |bytes|);
    assert bytes[0..] == bytes;
    for i := 0 to num
      invariant 0 <= size * i <= |bytes|
      invariant nets + DecodeAll(bytes[size * i..], family) == DecodeAll(bytes, family)
    {
      TupleInRange(size, |bytes|, i);
      var at := size * i;
      var net := DecodeNet(bytes[at..at + size], family);
      DecodeAllStep(bytes, family, at);
      nets := nets + [net];
    }
    NoWholeTuple(bytes[size * num..], family);
  }

  lemma DecodeAllStep(bytes: seq<Byte>, family: Family, at: nat)
    requires var size := Length(family) + 1; at + size <= |bytes|
    ensures var size := Length(family) + 1;
            DecodeAll(bytes[at..], family)
              == [DecodeNet(bytes[at..at + size], family)] + DecodeAll(bytes[at + size..], family)
  {
    hide DecodeNet;
    var size := Length(family) + 1;
    assert bytes[at..][..size] == bytes[at..at + size] && bytes[at..][size..] == bytes[at + size..];
  }

  lemma NoWholeTuple(bytes: seq<Byte>, family: Family)
    requires |bytes| < Length(family) + 1
    ensures DecodeAll(bytes, family) == []
  {
  }

  /** There are as many networks as whole tuples, and each is read from its own. */
  lemma {:induction false} TuplesInOrder(bytes: seq<Byte>, family: Family, i: nat)
    requires var size := Length(family) + 1; size * i + size <= |bytes|
    ensures var size := Length(family) + 1;
            && |DecodeAll(bytes, family)| == |bytes| / size && i < |bytes| / size
            && DecodeAll(bytes, family)[i] == DecodeNet(bytes[size * i..size * i + size], family)
    decreases |bytes|
  {
    hide DecodeNet, DecodeAll;
    var size := Length(family) + 1;
    CountTuples(bytes, family);
    WholeTuples(|bytes|, family, i);
    assert bytes[0..] == bytes;
    DecodeAllStep(bytes, family, 0);
    if i > 0 {
      var rest, at := bytes[size..], size * i;
      TuplesInOrder(rest, family, i - 1);
      SliceOfRest(bytes, size, at);
    }
  }

  lemma SliceOfRest(bytes: seq<Byte>, size: nat, at: nat)
    requires size <= at && at + size <= |bytes|
    ensures bytes[size..][at - size..at] == bytes[at..at + size]
  {
  }

  /** Tuple `i` in terms of the bytes: family by family, so that sizes are numbers. */
  lemma WholeTuples(n: nat, family: Family, i: nat)
    requires var size := Length(family) + 1; size * i + size <= n
    ensures var size := Length(family) + 1;
            i < n / size && (n >= size ==> n / size == (n - size) / size + 1)
            && (i > 0 ==> size * (i - 1) == size * i - size && size <= size * i)
  {
    match family
    case IPV4 =>
    case IPV6 =>
    case UNKNOWN =>
  }

  lemma {:induction false} CountTuples(bytes: seq<Byte>, family: Family)
    ensures |DecodeAll(bytes, family)| == |bytes| / (Length(family) + 1)
    decreases |bytes|
  {
    hide DecodeNet;
    var size := Length(family) + 1;
    if |bytes| >= size {
      CountTuples(bytes[size..], family);
      WholeTuples(|bytes|, family, 0);
    }
  }

  // ----- the bytes on the wire

  /** Byte `i` of some bits is its eight bits. */
  lemma {:induction false} BytesOfAt(bits: seq<bool>, i: nat)
    requires |bits| % 8 == 0 && 8 * i + 8 <= |bits|
    ensures i < |BytesOf(bits)| && ByteBits(BytesOf(bits)[i]) == bits[8 * i..8 * i + 8]
  {
    hide ByteBits, ByteOf;
    ByteRoundTrip(bits[..8]);
    if i > 0 {
      BytesOfAt(bits[8..], i - 1);
      assert bits[8..][8 * (i - 1)..8 * i] == bits[8 * i..8 * i + 8];
    }
  }

  /** An address goes out in network order, most significant byte first, and a network as its
      address followed by its length. */
  lemma WireBytes(net: IPNet, i: nat)
    requires i < Length(net.address.family)
    ensures ByteBits(AddressData(net.address)[i]) == net.address.Bits()[8 * i..8 * i + 8]
    ensures EncodeNet(net)[i] == AddressData(net.address)[i] && EncodeNet(net)[Length(net.address.family)] == net.bits
  {
    hide ByteBits, BytesOf;
    var n := 8 * Length(net.address.family);
    BytesOfAt(net.address.Bits()[..n], i);
    assert net.address.Bits()[..n][8 * i..8 * i + 8] == net.address.Bits()[8 * i..8 * i + 8];
  }

  /** So a.b.c.d/n goes out as these five bytes. */
  lemma WireFormV4(a: Byte, b: Byte, c: Byte, d: Byte, n: nat)
    requires n <= 32
    ensures EncodeNet(MakeNet(V4(a, b, c, d), n, false)) == [a, b, c, d, n]
  {
    hide ByteBits, BytesOf;
    var net := MakeNet(V4(a, b, c, d), n, false);
    var bits, data := net.address.Bits(), AddressData(net.address);
    assert bits[0..8] == ByteBits(a) && bits[8..16] == ByteBits(b);
    assert bits[16..24] == ByteBits(c) && bits[24..32] == ByteBits(d);
    WireBytes(net, 0);
    WireBytes(net, 1);
    WireBytes(net, 2);
    WireBytes(net, 3);
    SameByte(data[0], a);
    SameByte(data[1], b);
    SameByte(data[2], c);
    SameByte(data[3], d);
    assert data == [a, b, c, d];
  }

  // ----- round trip

  /** An address that uses only the bytes of its family. */
  ghost predicate WellFormed(a: Address) {
    forall i :: 8 * Length(a.family) <= i < 128 ==> !a.Bits()[i]
  }

  lemma AddressRoundTrip(a: Address)
    requires WellFormed(a)
    ensures AddressFrom(AddressData(a), a.family) == a
  {
    var n := 8 * Length(a.family);
    BytesRoundTrip(a.Bits()[..n]);
    var all := a.Bits()[..n] + Fill(128 - n, false);
    assert all == a.Bits();
    assert a.Bits()[..64] == a.hi && a.Bits()[64..] == a.lo;
  }

  /** The length survives, including 128: the sign flips and the clamp undoes it. */
  lemma NetRoundTrip(net: IPNet)
    requires WellFormed(net.address)
    ensures DecodeNet(EncodeNet(net), net.address.family) == net.(isAddr := false)
  {
    AddressRoundTrip(net.address);
    var tuple, n := EncodeNet(net), Length(net.address.family);
    assert tuple[..n] == AddressData(net.address) && tuple[n] == net.bits;
  }

  function EncodeAll(nets: seq<IPNet>): seq<Byte> {
    if nets == [] then [] else EncodeNet(nets[0]) + EncodeAll(nets[1..])
  }

  function AsNetworks(nets: seq<IPNet>): seq<IPNet> {
    if nets == [] then [] else [nets[0].(isAddr := false)] + AsNetworks(nets[1..])
  }

  /** What is sent is what is read: reading the concatenated `ip_network` fields of
      well-formed networks of one family gives the same addresses and lengths. */
  lemma {:induction false} NetworksRoundTrip(nets: seq<IPNet>, family: Family)
    requires forall i :: 0 <= i < |nets| ==> nets[i].address.family == family && WellFormed(nets[i].address)
    ensures DecodeAll(EncodeAll(nets), family) == AsNetworks(nets)
  {
    hide DecodeNet, EncodeNet;
    if nets != [] {
      var size, bytes := Length(family) + 1, EncodeAll(nets);
      NetRoundTrip(nets[0]);
      NetworksRoundTrip(nets[1..], family);
      assert bytes[..size] == EncodeNet(nets[0]) && bytes[size..] == EncodeAll(nets[1..]);
    }
  }

  /** What is sent of an endpoint: nothing exactly if it has neither port nor network; else
      its port, and its address exactly if it stands for one, which is read back. */
  lemma SentEndpointIsRead(endpoint: Endpoint)
    requires WellFormed(endpoint.network.address)
    ensures EndpointToProto(endpoint).None? <==> endpoint.port == 0 && endpoint.network.IsNull()
    ensures EndpointToProto(endpoint).Some? ==>
              var sent, a := EndpointToProto(endpoint).value, endpoint.network.address;
              && sent.port == endpoint.port
              && (sent.addressData.Some? <==> endpoint.network.isAddr)
              && (sent.addressData.Some? ==>
                    |sent.addressData.value| == Length(a.family) && AddressFrom(sent.addressData.value, a.family) == a)
  {
    hide AddressFrom, BytesOf;
    AddressRoundTrip(endpoint.network.address);
  }

  /** The network of an endpoint is sent exactly if its length is not zero, and read
      back as it is. */
  lemma SentNetworkIsRead(endpoint: Endpoint)
    requires WellFormed(endpoint.network.address) && EndpointToProto(endpoint).Some?
    ensures var sent, family := EndpointToProto(endpoint).value.ipNetwork, endpoint.network.address.family;
            && (sent.Some? <==> endpoint.network.bits > 0)
            && (sent.Some? ==> DecodeAll(sent.value, family) == [endpoint.network.(isAddr := false)])
  {
    var net := endpoint.network;
    NetworksRoundTrip([net], net.address.family);
    assert EncodeAll([net]) == EncodeNet(net) + EncodeAll([]) == EncodeNet(net);
    assert AsNetworks([net]) == [net.(isAddr := false)];
  }
}
