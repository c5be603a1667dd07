/** Whether known networks touch the private ranges (ConnTracker.cpp): the test runs
    on radix trees that hold both families. */
module PrivateRanges {
  import opened Wrappers
  import opened Words
  import opened Addresses
  import opened Radix
  import opened Lookup

  /** `PrivateNetworks()`: the ranges of both families, in one list. */
  function AllPrivate(): seq<IPNet> {
    PrivateNetworks(IPV4) + PrivateNetworks(IPV6)
  }

  /** Some network of the family lies in a private range, or some private range has
      one of the family as its longest known prefix. */
  ghost predicate TouchesPrivate(family: Family, c: Contents) {
    FoundIn(family, c, Build(AllPrivate())) || FoundIn(family, Build(AllPrivate()), c)
  }

  /** `ContainsPrivateNetwork`, for a tree of any contents. */
  method ContainsPrivateNetwork(family: Family, tree: NRadixTree) returns (r: bool)
    requires tree.Valid()
    ensures r <==> TouchesPrivate(family, tree.Stored())
  {
    hide Build, SubsetTest, FoundIn, AllPrivate, Stocked, NRadixTree.Valid, NRadixTree.Stored;
    var private := FromList(AllPrivate());
    r := tree.IsAnyIPNetSubset(family, private);
    if !r {
      r := private.IsAnyIPNetSubset(family, tree);
    }
    StoredIsStocked(tree);
    StoredIsStocked(private);
    TwoWayTest(family, tree.Stored(), private.Stored());
  }

  lemma StoredIsStocked(tree: NRadixTree)
    requires tree.Valid()
    ensures Stocked(tree.Stored())
  {
    tree.StoredIsKeyed();
  }

  // ----- no private range of one family lies in one of the other

  /** The first byte tells the IPv4 ranges from the IPv6 ones. */
  predicate LooksV4(k: Path)
    requires |k| >= 8
  {
    (k[0] || k[1] || k[4]) && !(k[2] && k[3])
  }

  predicate Told(n: IPNet) {
    n.bits >= 8 && n.address.family == if LooksV4(Key(n)) then IPV4 else IPV6
  }

  lemma FirstByte(n: IPNet, b: nat)
    requires b < 256 && n.bits >= 8 && n.address.hi[..8] == ByteBits(b)
    ensures Key(n)[..8] == ByteBits(b)
    ensures LooksV4(Key(n)) <==> LooksV4(ByteBits(b))
  {
    assert Key(n)[..8] == n.address.hi[..8];
    assert forall i :: 0 <= i < 8 ==> Key(n)[i] == Key(n)[..8][i];
  }

  lemma FirstBytes()
    ensures LooksV4(ByteBits(10)) && LooksV4(ByteBits(100)) && LooksV4(ByteBits(169)) && LooksV4(ByteBits(172))
    ensures LooksV4(ByteBits(192)) && !LooksV4(ByteBits(0xfd))
  {
    hide ByteBits;
    BitsOfByte(10);
    BitsOfByte(100);
    BitsOfByte(169);
    BitsOfByte(172);
    BitsOfByte(192);
    BitsOfByte(0xfd);
  }

  lemma V4Told(n: IPNet)
    requires n in PRIVATE_V4
    ensures Told(n) && n.address.family == IPV4
  {
    hide ByteBits, LooksV4;
    FirstBytes();
    var nets := PRIVATE_V4;
    assert nets[0].address.hi[..8] == ByteBits(10) && nets[1].address.hi[..8] == ByteBits(100);
    assert nets[2].address.hi[..8] == ByteBits(169) && nets[3].address.hi[..8] == ByteBits(172);
    assert nets[4].address.hi[..8] == ByteBits(192);
    FirstByte(nets[0], 10);
    FirstByte(nets[1], 100);
    FirstByte(nets[2], 169);
    FirstByte(nets[3], 172);
    FirstByte(nets[4], 192);
  }

  lemma MappedTold(n: IPNet)
    requires n.address.family == IPV4
    ensures Told(MappedNet(n)) && MappedNet(n).address.family == IPV6
  {
    var m := MappedNet(n);
    assert forall i :: 0 <= i < 8 ==> Key(m)[i] == m.address.hi[i] == ZERO[i];
  }

  lemma ULATold()
    ensures Told(ULA) && ULA.address.family == IPV6
  {
    hide ByteBits, LooksV4;
    FirstBytes();
    FirstByte(ULA, 0xfd);
  }

  lemma AllTold(n: IPNet)
    requires n in AllPrivate()
    ensures Told(n)
    ensures n in PrivateNetworks(n.address.family)
  {
    hide Told, ByteBits;
    var v4, v6 := PrivateNetworks(IPV4), PrivateNetworks(IPV6);
    if n in v4 {
      V4Told(n);
    } else {
      var i :| 0 <= i < |v6| && v6[i] == n;
      if i == 0 {
        ULATold();
      } else {
        assert n == MappedNet(PRIVATE_V4[i - 1]);
        V4Told(PRIVATE_V4[i - 1]);
        MappedTold(PRIVATE_V4[i - 1]);
      }
    }
  }

  lemma PrivateIsUnmixed()
    ensures Unmixed(Build(AllPrivate()))
  {
    hide PrivateNetworks, Build, AllPrivate;
    var nets := AllPrivate();
    forall m, n | m in nets && n in nets && Key(m) <= Key(n) ensures m.address.family == n.address.family {
      AllTold(m);
      AllTold(n);
    }
    BuildIsUnmixed(nets);
  }

  // ----- what the test is for

  lemma {:induction false} PrivateMeansContained(nets: seq<IPNet>, a: Address)
    requires ContainedInAny(nets, a)
    ensures exists n :: n in nets && Contains(n, a)
  {
    hide Contains;
    if !Contains(nets[0], a) {
      PrivateMeansContained(nets[1..], a);
    }
  }

  /** A private address has its range in the private tree, at a prefix of its path. */
  lemma RangeOf(a: Address) returns (p: Path)
    requires !IsPublic(a)
    ensures p in Build(AllPrivate()) && p <= Key(HostNet(a)) && Build(AllPrivate())[p].address.family == a.family
  {
    hide Contains, Build, PrivateNetworks;
    PrivateMeansContained(PrivateNetworks(a.family), a);
    var n :| n in PrivateNetworks(a.family) && Contains(n, a);
    PrivateFamilies(a, n);
    ContainsIsPrefix(n, a);
    p := Key(n);
    AllTold(n);
    BuildHasKeys(AllPrivate());
    BuildIsKeyed(AllPrivate());
    var stored := Build(AllPrivate())[p];
    AllTold(stored);
    assert Key(stored) == Key(n);
  }

  lemma PrivateFamilies(a: Address, n: IPNet)
    requires n in PrivateNetworks(a.family)
    ensures n in AllPrivate()
  {
  }

  /** If the test is negative for the family of a private address, then no lookup of
      that address finds a known network: the shortcut that the flag allows never
      hides one, whatever the families in the tree. */
  lemma ShortcutFindsNothing(c: Contents, a: Address)
    requires Stocked(c) && !IsPublic(a) && !TouchesPrivate(a.family, c)
    ensures FindNet(c, HostNet(a)).IsNull()
  {
    hide Build, IsPublic, FindNet;
    var private := Build(AllPrivate());
    PrivateIsUnmixed();
    var p := RangeOf(a);
    var path := Key(HostNet(a));
    if !FindNet(c, HostNet(a)).IsNull() {
      FoundMeans(c, HostNet(a));
      DeepestMeaning(c, path, |path|);
      var n := Deepest(c, path).value;
      assert Key(n) == path[..n.bits] && c[Key(n)] == n;
      if |p| <= n.bits {
        RangeAbove(c, private, n, p);
      } else {
        RangeBelow(c, private, n, p, path);
      }
      assert false;
    }
  }

  lemma RangeAbove(c: Contents, private: Contents, n: IPNet, p: Path)
    requires Unmixed(private) && Key(n) in c && c[Key(n)] == n && n.bits >= 1
    requires p in private && p <= Key(n) && private[p].address.family == n.address.family
    ensures FoundIn(n.address.family, c, private)
  {
    hide FindNet;
    var path := Key(n);
    FoundMeans(private, n);
    DeepestMeaning(private, path, |path|);
    assert path[..|p|] == p;
    var d := Deepest(private, path).value;
    assert p <= path[..d.bits];
  }

  lemma RangeBelow(c: Contents, private: Contents, n: IPNet, p: Path, path: Path)
    requires Stocked(c) && Deepest(c, path) == Some(n) && p <= path && n.bits <= |p|
    requires Stocked(private) && p in private && private[p].address.family == n.address.family
    ensures FoundIn(n.address.family, private, c)
  {
    hide FindNet;
    assert path[..|p|] == p;
    DeepestShorter(c, path, |p|);
    FoundMeans(c, private[p]);
  }

  /** The test is documented to find an overlap with a private range.  It never
      invents one, and it misses one exactly when no known network lies in a private
      range and every private range in a known network is hidden behind a longer one
      of the other family. */
  lemma TouchesPrivateIff(family: Family, c: Contents)
    requires Stocked(c)
    ensures var private := Build(AllPrivate());
            var overlap := SomeContains(family, private, c) || SomeContains(family, c, private);
            && (TouchesPrivate(family, c) ==> overlap)
            && (overlap && !TouchesPrivate(family, c) <==>
                  SomeHidden(family, c, private) && !FoundIn(family, private, c) && !SomeContains(family, private, c))
  {
    hide Build, AllPrivate, FoundIn, SomeHidden, SomeContains, HiddenIn;
    var private := Build(AllPrivate());
    PrivateIsUnmixed();
    ContainedIsFoundOrHidden(family, c, private);
    ContainedIsFoundOrHidden(family, private, c);
    NoPairHidden(family, private, c);
  }

  lemma NoPairHidden(family: Family, c1: Contents, c2: Contents)
    requires Unmixed(c1)
    ensures !SomeHidden(family, c1, c2)
  {
    hide HiddenIn;
    forall p, q | p in c1 && q in c2 ensures !HiddenIn(family, c1, c1[p], c2[q]) {
      NothingHidden(family, c1, p, c2[q]);
    }
  }

  /** An IPv4 address whose first byte is that of no private range is public. */
  lemma PublicByFirstByte(a: Address)
    requires a.family == IPV4 && !LooksV4(a.hi[..8])
    ensures IsPublic(a)
  {
    hide Contains, ByteBits;
    if !IsPublic(a) {
      PrivateMeansContained(PrivateNetworks(IPV4), a);
      var n :| n in PRIVATE_V4 && Contains(n, a);
      V4Told(n);
      ContainsIsPrefix(n, a);
      assert forall i :: 0 <= i < 8 ==> Key(n)[i] == a.hi[..8][i];
      assert false;
    }
  }

  /** IPv4 networks whose first byte is that of no private range do not touch any. */
  lemma FarFromPrivate(c: Contents)
    requires Stocked(c) && forall p :: p in c ==> |p| >= 8 && !LooksV4(p)
    ensures !TouchesPrivate(IPV4, c)
  {
    hide Build, AllPrivate, FoundIn, LooksV4;
    var private := Build(AllPrivate());
    PrivateIsUnmixed();
    BuildIsKeyed(AllPrivate());
    forall p, q | p in private && q in c && private[p].address.family == IPV4 ensures !(p <= q) && !(q <= p) {
      AllTold(private[p]);
      if p <= q || q <= p {
        SameFirstByte(p, q);
        assert false;
      }
    }
    ApartFindsNothing(IPV4, c, private);
    ApartFindsNothing(IPV4, private, c);
  }

  lemma ApartFindsNothing(f: Family, nets: Contents, tree: Contents)
    requires Stocked(nets) && Stocked(tree) && f != UNKNOWN
    requires forall p, q :: p in nets && q in tree && nets[p].address.family == f == tree[q].address.family ==>
             !(q <= p)
    ensures !FoundIn(f, nets, tree)
  {
    hide FindNet;
    forall p | p in nets && nets[p].address.family == f ensures FindNet(tree, nets[p]).IsNull() {
      FoundMeans(tree, nets[p]);
      DeepestMeaning(tree, p, |p|);
    }
  }

  lemma SameFirstByte(p: Path, q: Path)
    requires |p| >= 8 && |q| >= 8 && (p <= q || q <= p)
    ensures LooksV4(p) <==> LooksV4(q)
  {
  }
}
