/** What the radix tree is for: its answers against a linear scan of the list of
    networks it was built from. */
module Lookup {
  import opened Wrappers
  import opened Addresses
  import opened Radix

  /** The contents after inserting a list of networks in order. */
  function Build(nets: seq<IPNet>): Contents {
    if nets == [] then map[]
    else
      var c, net := Build(nets[..|nets| - 1]), nets[|nets| - 1];
      if net.bits >= 1 && Key(net) !in c then c[Key(net) := net] else c
  }

  /** The constructor from a list: insert in order, ignoring refusals. */
  method FromList(nets: seq<IPNet>) returns (tree: NRadixTree)
    ensures fresh(tree) && fresh(tree.nodes.Values) && tree.Valid() && tree.Stored() == Build(nets)
  {
    tree := new NRadixTree();
    for i := 0 to |nets|
      invariant fresh(tree) && fresh(tree.nodes.Values) && tree.Valid()
      invariant tree.Stored() == Build(nets[..i])
    {
      assert nets[..i + 1][..i] == nets[..i];
      var inserted := tree.Insert(nets[i]);
    }
    assert nets[..|nets|] == nets;
  }

  // ----- the linear scan

  /** A network of nonzero length that is a prefix of the query; of the same
      family unless `any`. */
  predicate Covers(net: IPNet, q: IPNet, any: bool) {
    1 <= net.bits <= q.bits && Key(net) <= Key(q) && (any || net.address.family == q.address.family)
  }

  lemma CoversIsContains(net: IPNet, q: IPNet)
    ensures Covers(net, q, false) <==> 1 <= net.bits <= q.bits && Contains(net, q.address)
  {
    ContainsIsPrefix(net, q.address);
    assert net.bits <= q.bits ==> Key(q)[..net.bits] == q.address.Bits()[..net.bits];
  }

  /** Scan the list, keeping the first of the longest networks that cover. */
  function Scan(nets: seq<IPNet>, q: IPNet, any: bool): Option<IPNet> {
    if nets == [] then None
    else
      var best, net := Scan(nets[..|nets| - 1], q, any), nets[|nets| - 1];
      if Covers(net, q, any) && (best.None? || best.value.bits < net.bits) then Some(net) else best
  }

  /** The scan finds nothing iff nothing covers, and otherwise the first of the
      longest networks that do. */
  lemma {:induction false} ScanIsFirstLongest(nets: seq<IPNet>, q: IPNet, any: bool)
    ensures Scan(nets, q, any).None? <==> forall i :: 0 <= i < |nets| ==> !Covers(nets[i], q, any)
    ensures Scan(nets, q, any).Some? ==> exists i :: 0 <= i < |nets| && IsFirstLongest(nets, q, any, i)
                                                 && Scan(nets, q, any) == Some(nets[i])
  {
    hide Covers, IsFirstLongest;
    if nets != [] {
      var rest, last := nets[..|nets| - 1], |nets| - 1;
      ScanIsFirstLongest(rest, q, any);
      assert forall i :: 0 <= i < last ==> rest[i] == nets[i];
      var best := Scan(rest, q, any);
      if best.Some? {
        var i :| 0 <= i < last && IsFirstLongest(rest, q, any, i) && best == Some(rest[i]);
        LongerLast(nets, q, any, i);
      } else if Covers(nets[last], q, any) {
        OnlyLast(nets, q, any);
      }
    }
  }

  lemma OnlyLast(nets: seq<IPNet>, q: IPNet, any: bool)
    requires nets != [] && Covers(nets[|nets| - 1], q, any)
    requires forall i :: 0 <= i < |nets| - 1 ==> !Covers(nets[i], q, any)
    ensures IsFirstLongest(nets, q, any, |nets| - 1)
  {
  }

  /** How the last network of a list compares with the best before it. */
  lemma LongerLast(nets: seq<IPNet>, q: IPNet, any: bool, i: int)
    requires nets != [] && 0 <= i < |nets| - 1 && IsFirstLongest(nets[..|nets| - 1], q, any, i)
    ensures Covers(nets[i], q, any)
    ensures var last := |nets| - 1;
            if Covers(nets[last], q, any) && nets[i].bits < nets[last].bits then IsFirstLongest(nets, q, any, last)
            else IsFirstLongest(nets, q, any, i)
  {
    hide Covers;
    var rest := nets[..|nets| - 1];
    assert forall j :: 0 <= j < |rest| ==> rest[j] == nets[j];
  }

  ghost predicate IsFirstLongest(nets: seq<IPNet>, q: IPNet, any: bool, i: int)
    requires 0 <= i < |nets|
  {
    Covers(nets[i], q, any)
    && (forall j :: 0 <= j < |nets| && Covers(nets[j], q, any) ==> nets[j].bits <= nets[i].bits)
    && (forall j :: 0 <= j < i && Covers(nets[j], q, any) ==> nets[j].bits < nets[i].bits)
  }

  // ----- the deepest value on a path

  ghost predicate NoneBetween(c: Contents, path: Path, lo: nat, hi: nat)
    requires hi <= |path|
  {
    forall m :: lo <= m <= hi ==> path[..m] !in c
  }

  lemma {:induction false} DeepestMeaning(c: Contents, path: Path, n: nat)
    requires Keyed(c) && n <= |path|
    ensures match DeepestUpTo(c, path, n)
            case None => NoneBetween(c, path, 0, n)
            case Some(v) => v.bits <= n && path[..v.bits] in c && c[path[..v.bits]] == v
                            && NoneBetween(c, path, v.bits + 1, n)
  {
    if path[..n] in c {
      assert Key(c[path[..n]]) == path[..n];
    } else if n > 0 {
      DeepestMeaning(c, path, n - 1);
    }
  }

  /** A new key becomes the deepest one on the paths below it that had no deeper
      value. */
  lemma DeepestAfterInsert(c: Contents, net: IPNet, path: Path)
    requires Keyed(c) && Key(net) !in c
    ensures Deepest(c[Key(net) := net], path) ==
              var d := Deepest(c, path);
              if Key(net) <= path && (d.None? || d.value.bits < net.bits) then Some(net) else d
  {
    var c', k, n := c[Key(net) := net], Key(net), |path|;
    DeepestMeaning(c, path, n);
    DeepestMeaning(c', path, n);
    assert forall m :: 0 <= m <= n ==> (path[..m] in c' <==> path[..m] in c || path[..m] == k);
    assert k <= path ==> path[..|k|] == k;
    assert forall m :: 0 <= m <= n && path[..m] == k ==> m == |k| && k <= path;
    var d, d' := DeepestUpTo(c, path, n), DeepestUpTo(c', path, n);
    if d.Some? {
      assert path[..d.value.bits] in c';
    }
    if d'.Some? && d'.value.bits == |k| && path[..|k|] == k {
      assert c'[path[..d'.value.bits]] == net;
    }
  }

  lemma {:induction false} BuildIsKeyed(nets: seq<IPNet>)
    ensures Keyed(Build(nets))
    ensures forall q :: q in Build(nets) ==> Build(nets)[q] in nets && q != []
  {
    if nets != [] {
      BuildIsKeyed(nets[..|nets| - 1]);
    }
  }

  /** The deepest value on the query's path is what the family-blind scan finds. */
  lemma {:induction false} DeepestIsScan(nets: seq<IPNet>, q: IPNet)
    ensures Deepest(Build(nets), Key(q)) == Scan(nets, q, true)
  {
    if nets != [] {
      var rest, net := nets[..|nets| - 1], nets[|nets| - 1];
      var c := Build(rest);
      DeepestIsScan(rest, q);
      BuildIsKeyed(rest);
      if net.bits >= 1 {
        if Key(net) in c {
          DeepestMeaning(c, Key(q), |Key(q)|);
          assert Key(net) <= Key(q) ==> Key(q)[..net.bits] == Key(net);
        } else {
          DeepestAfterInsert(c, net, Key(q));
        }
      }
    } else {
      DeepestMeaning(map[], Key(q), |Key(q)|);
    }
  }

  /** The family-blind scan dominates the scan of one family, and they agree when
      it ends on that family. */
  lemma {:induction false} ScansCompare(nets: seq<IPNet>, q: IPNet)
    ensures var any, same := Scan(nets, q, true), Scan(nets, q, false);
            && (same.Some? ==> any.Some? && same.value.bits <= any.value.bits)
            && (any.Some? && any.value.address.family == q.address.family ==> same == any)
            && (same.Some? ==> same.value.address.family == q.address.family)
            && (same.Some? ==> same.value.bits >= 1)
  {
    if nets != [] {
      ScansCompare(nets[..|nets| - 1], q);
    }
  }

  /** Longest-prefix match: a tree built from networks of one family, in any
      order, answers a query of nonzero length as the linear scan does. */
  lemma LongestPrefixMatch(nets: seq<IPNet>, q: IPNet)
    requires q.bits >= 1
    requires forall i :: 0 <= i < |nets| ==> nets[i].address.family == q.address.family
    ensures FindNet(Build(nets), q) == OrNull(Scan(nets, q, false))
    ensures FindNet(Build(nets), q).IsNull() <==>
              !exists i :: 0 <= i < |nets| && 1 <= nets[i].bits <= q.bits && Contains(nets[i], q.address)
  {
    DeepestIsScan(nets, q);
    ScansCompare(nets, q);
    ScanIsFirstLongest(nets, q, true);
    ScanIsFirstLongest(nets, q, false);
    forall i | 0 <= i < |nets|
      ensures Covers(nets[i], q, false) <==> 1 <= nets[i].bits <= q.bits && Contains(nets[i], q.address)
    {
      CoversIsContains(nets[i], q);
    }
  }

  /** With both families in one tree, a lookup agrees with the scan of its own
      family exactly when no foreign network is the longest prefix of the query,
      or when the scan finds nothing anyway. */
  lemma MixedFamilyMatch(nets: seq<IPNet>, q: IPNet)
    requires q.bits >= 1
    ensures FindNet(Build(nets), q) == OrNull(Scan(nets, q, false)) <==>
              var longest := Scan(nets, q, true);
              longest.None? || longest.value.address.family == q.address.family || Scan(nets, q, false).None?
  {
    DeepestIsScan(nets, q);
    ScansCompare(nets, q);
  }

  /** A foreign longest prefix does hide a network: 10.0.0.0/8 contains 10.10.0.1
      and is not found behind a0a::/16. */
  lemma ForeignNetworkHides()
    ensures var own := MakeNet(V4(10, 0, 0, 0), 8, false);
            var foreign := MakeNet(V6(10, 10), 16, false);
            var q := HostNet(V4(10, 10, 0, 1));
            Contains(own, q.address) && FindNet(Build([own, foreign]), q).IsNull()
  {
    hide ByteBits, Contains, Build, Scan;
    var own := MakeNet(V4(10, 0, 0, 0), 8, false);
    var foreign := MakeNet(V6(10, 10), 16, false);
    var q := HostNet(V4(10, 10, 0, 1));
    var b := ByteBits(10);
    assert Key(own) == b && Key(foreign) == b + b;
    assert Key(q) == b + b + (ByteBits(0) + ByteBits(1));
    HiddenBehind(own, foreign, q);
  }

  lemma HiddenBehind(own: IPNet, foreign: IPNet, q: IPNet)
    requires 1 <= own.bits < foreign.bits && own.address.family == q.address.family != foreign.address.family
    requires Key(own) <= Key(foreign) <= Key(q)
    ensures Contains(own, q.address) && FindNet(Build([own, foreign]), q).IsNull()
  {
    hide Contains;
    CoversIsContains(own, q);
    var nets := [own, foreign];
    assert nets[..1] == [own] && [own][..0] == [];
    assert Scan([own], q, true) == Some(own);
    DeepestIsScan(nets, q);
  }

  ghost predicate IsLongestMember(nets: seq<IPNet>, q: IPNet, best: Option<IPNet>) {
    match best
    case None => forall n :: n in nets ==> !Covers(n, q, true)
    case Some(v) => v in nets && Covers(v, q, true) && forall n :: n in nets && Covers(n, q, true) ==> n.bits <= v.bits
  }

  lemma ScanIsLongestMember(nets: seq<IPNet>, q: IPNet)
    ensures IsLongestMember(nets, q, Scan(nets, q, true))
  {
    hide Covers, Scan;
    ScanIsFirstLongest(nets, q, true);
  }

  lemma LongestIsUnique(nets: seq<IPNet>, q: IPNet, a: Option<IPNet>, b: Option<IPNet>)
    requires forall m, n :: m in nets && n in nets && Key(m) == Key(n) ==> m == n
    requires IsLongestMember(nets, q, a) && IsLongestMember(nets, q, b)
    ensures a == b
  {
    if a.Some? && b.Some? {
      assert Key(a.value) == Key(q)[..a.value.bits] && Key(b.value) == Key(q)[..b.value.bits];
    }
  }

  /** The order of insertion does not matter when no prefix is listed twice. */
  lemma OrderDoesNotMatter(nets: seq<IPNet>, nets': seq<IPNet>, q: IPNet)
    requires multiset(nets) == multiset(nets')
    requires forall m, n :: m in nets && n in nets && Key(m) == Key(n) ==> m == n
    ensures FindNet(Build(nets), q) == FindNet(Build(nets'), q)
  {
    hide Covers, Scan, Build;
    DeepestIsScan(nets, q);
    DeepestIsScan(nets', q);
    ScanIsLongestMember(nets, q);
    ScanIsLongestMember(nets', q);
    assert forall x :: x in nets <==> x in multiset(nets);
    assert forall x :: x in nets' <==> x in multiset(nets');
    LongestIsUnique(nets, q, Scan(nets, q, true), Scan(nets', q, true));
  }

  /** A stored network is found again by its own address, unless a network of the
      other family is stored deeper on that address's path. */
  lemma OwnAddressLookup(c: Contents, v: IPNet)
    requires Keyed(c) && Key(v) in c && c[Key(v)] == v && v.bits >= 1
    ensures var d := Deepest(c, Key(HostNet(v.address)));
            d.Some? && v.bits <= d.value.bits
            && (FindNet(c, HostNet(v.address)).IsNull() ==>
                  d.value.address.family != v.address.family && v.bits < d.value.bits)
  {
    var path := Key(HostNet(v.address));
    DeepestMeaning(c, path, |path|);
    assert path[..v.bits] == Key(v);
    var d := Deepest(c, path);
    assert d.value.bits == v.bits ==> d.value == v;
  }

  // ----- subsets

  /** Contents that a tree can have. */
  ghost predicate Stocked(c: Contents) {
    Keyed(c) && [] !in c
  }

  /** Networks of the family, or any networks if that is unknown. */
  predicate Asked(family: Family, net: IPNet) {
    family == UNKNOWN || net.address.family == family
  }

  /** Does some network of the first contents contain one of the second?  This is
      what the subset test is documented to decide. */
  ghost predicate SomeContains(family: Family, c1: Contents, c2: Contents) {
    exists p, q :: p in c1 && q in c2 && Holds(family, c1[p], c2[q])
  }

  predicate Holds(family: Family, outer: IPNet, inner: IPNet) {
    Asked(family, outer) && outer.bits <= inner.bits && Contains(outer, inner.address)
  }

  lemma HoldsIsPrefix(family: Family, outer: IPNet, inner: IPNet)
    ensures Holds(family, outer, inner) <==>
              Asked(family, outer) && outer.address.family == inner.address.family && Key(outer) <= Key(inner)
  {
    hide Contains;
    ContainsIsPrefix(outer, inner.address);
    assert outer.bits <= inner.bits ==> Key(inner)[..outer.bits] == inner.address.Bits()[..outer.bits];
  }

  /** Some network is found when it is looked up in a tree. */
  ghost predicate FoundIn(family: Family, nets: Contents, tree: Contents) {
    exists p :: p in nets && Asked(family, nets[p]) && !FindNet(tree, nets[p]).IsNull()
  }

  /** Some network of the first contents is found in the second, which also holds a
      network, of whatever family, at or below it. */
  ghost predicate Between(family: Family, c1: Contents, c2: Contents) {
    exists p :: p in c1 && Asked(family, c1[p]) && !FindNet(c2, c1[p]).IsNull() && Covered(c2, p)
  }

  lemma FoundMeans(c: Contents, v: IPNet)
    requires Stocked(c) && v.bits >= 1
    ensures !FindNet(c, v).IsNull() <==>
              Deepest(c, Key(v)).Some? && Deepest(c, Key(v)).value.address.family == v.address.family
  {
    var path := Key(v);
    DeepestMeaning(c, path, |path|);
    assert path[..0] == [];
  }

  /** The deepest value on a path is also the deepest on each of its prefixes that
      still holds it. */
  lemma DeepestShorter(c: Contents, s: Path, n: nat)
    requires Keyed(c) && Deepest(c, s).Some? && Deepest(c, s).value.bits <= n <= |s|
    ensures Deepest(c, s[..n]) == Deepest(c, s)
  {
    DeepestMeaning(c, s, |s|);
    DeepestStops(c, s, n, |s|);
    DeepestOfPrefix(c, s, n, n);
  }

  /** The subset test in terms of lookups, for trees of any contents. */
  lemma SubsetTestMeans(family: Family, c1: Contents, c2: Contents)
    requires Stocked(c1) && Stocked(c2)
    ensures SubsetTest(family, c1, c2) <==> FoundIn(family, c2, c1) || Between(family, c1, c2)
  {
    hide FindNet, FoundIn, Between, Covered;
    if SubsetTest(family, c1, c2) {
      var s :| Covered(c2, s) && Matches(family, Deepest(c1, s), Deepest(c2, s));
      MatchIsFound(family, c1, c2, s);
    }
    if FoundIn(family, c2, c1) {
      FoundIsMatch(family, c1, c2);
    }
    if Between(family, c1, c2) {
      BetweenIsMatch(family, c1, c2);
    }
  }

  lemma MatchIsFound(family: Family, c1: Contents, c2: Contents, s: Path)
    requires Stocked(c1) && Stocked(c2) && Covered(c2, s) && Matches(family, Deepest(c1, s), Deepest(c2, s))
    ensures FoundIn(family, c2, c1) || Between(family, c1, c2)
  {
    hide FindNet;
    DeepestMeaning(c1, s, |s|);
    DeepestMeaning(c2, s, |s|);
    var v, w := Deepest(c1, s).value, Deepest(c2, s).value;
    assert Key(v) == s[..v.bits] && Key(w) == s[..w.bits] && s[..0] == [];
    if v.bits <= w.bits {
      DeepestShorter(c1, s, w.bits);
      FoundMeans(c1, w);
      assert Key(w) in c2 && c2[Key(w)] == w;
    } else {
      DeepestShorter(c2, s, v.bits);
      FoundMeans(c2, v);
      var q :| q in c2 && s <= q;
      assert Key(v) <= q;
      assert Key(v) in c1 && c1[Key(v)] == v;
    }
  }

  lemma FoundIsMatch(family: Family, c1: Contents, c2: Contents)
    requires Stocked(c1) && Stocked(c2) && FoundIn(family, c2, c1)
    ensures SubsetTest(family, c1, c2)
  {
    hide FindNet;
    var q :| q in c2 && Asked(family, c2[q]) && !FindNet(c1, c2[q]).IsNull();
    FoundMeans(c1, c2[q]);
    assert q[..|q|] == q && Deepest(c2, q) == Some(c2[q]);
    assert Covered(c2, q);
  }

  lemma BetweenIsMatch(family: Family, c1: Contents, c2: Contents)
    requires Stocked(c1) && Stocked(c2) && Between(family, c1, c2)
    ensures SubsetTest(family, c1, c2)
  {
    hide FindNet, Covered;
    var p :| p in c1 && Asked(family, c1[p]) && !FindNet(c2, c1[p]).IsNull() && Covered(c2, p);
    FoundMeans(c2, c1[p]);
    assert p[..|p|] == p && Deepest(c1, p) == Some(c1[p]);
  }

  lemma FoundIsContained(family: Family, c1: Contents, c2: Contents)
    requires Stocked(c1) && Stocked(c2) && FoundIn(family, c2, c1)
    ensures SomeContains(family, c1, c2)
  {
    hide FindNet, Holds;
    var q :| q in c2 && Asked(family, c2[q]) && !FindNet(c1, c2[q]).IsNull();
    FoundMeans(c1, c2[q]);
    DeepestMeaning(c1, q, |q|);
    var v := Deepest(c1, q).value;
    HoldsIsPrefix(family, v, c2[q]);
    assert Holds(family, c1[q[..v.bits]], c2[q]);
  }

  /** A network lies between one of its family above and foreign ones below, and
      there is no containment. */
  ghost predicate FalseAlarm(family: Family, c1: Contents, c2: Contents) {
    Between(family, c1, c2) && !SomeContains(family, c1, c2)
  }

  /** Some network is contained, but behind a foreign one; no lookup succeeds, and no
      network lies between. */
  ghost predicate AllHidden(family: Family, c1: Contents, c2: Contents) {
    SomeHidden(family, c1, c2) && !FoundIn(family, c2, c1) && !Between(family, c1, c2)
  }

  ghost predicate SomeHidden(family: Family, c1: Contents, c2: Contents) {
    exists p, q :: p in c1 && q in c2 && HiddenIn(family, c1, c1[p], c2[q])
  }

  /** With any mix of families, the test is wrong in exactly two ways. */
  lemma SubsetIsContainmentIff(family: Family, c1: Contents, c2: Contents)
    requires Stocked(c1) && Stocked(c2)
    ensures SubsetTest(family, c1, c2) && !SomeContains(family, c1, c2) <==> FalseAlarm(family, c1, c2)
    ensures !SubsetTest(family, c1, c2) && SomeContains(family, c1, c2) <==> AllHidden(family, c1, c2)
  {
    hide Between, SubsetTest, FoundIn, SomeContains, SomeHidden;
    SubsetTestMeans(family, c1, c2);
    ContainedIsFoundOrHidden(family, c1, c2);
  }

  lemma ContainedIsFoundOrHidden(family: Family, c1: Contents, c2: Contents)
    requires Stocked(c1) && Stocked(c2)
    ensures SomeContains(family, c1, c2) <==> FoundIn(family, c2, c1) || SomeHidden(family, c1, c2)
  {
    hide FindNet, Holds, HiddenIn;
    if FoundIn(family, c2, c1) {
      FoundIsContained(family, c1, c2);
    } else if SomeContains(family, c1, c2) {
      var p, q :| p in c1 && q in c2 && Holds(family, c1[p], c2[q]);
      MissedIsHidden(family, c1, p, c2[q]);
    }
    if SomeHidden(family, c1, c2) {
      var p, q :| p in c1 && q in c2 && HiddenIn(family, c1, c1[p], c2[q]);
      HiddenIsHeld(family, c1, c1[p], c2[q]);
    }
  }

  lemma HiddenIsHeld(family: Family, c: Contents, outer: IPNet, inner: IPNet)
    requires HiddenIn(family, c, outer, inner)
    ensures Holds(family, outer, inner)
  {
  }

  /** A contained network whose longest prefix in the tree is a foreign one. */
  ghost predicate HiddenIn(family: Family, c: Contents, outer: IPNet, inner: IPNet) {
    Holds(family, outer, inner)
    && exists r :: r in c && outer.bits < c[r].bits && r <= Key(inner) && c[r].address.family != inner.address.family
  }

  lemma MissedIsHidden(family: Family, c: Contents, p: Path, inner: IPNet)
    requires Stocked(c) && p in c && Holds(family, c[p], inner)
    requires Asked(family, inner) ==> FindNet(c, inner).IsNull()
    ensures HiddenIn(family, c, c[p], inner)
  {
    hide FindNet;
    hide Holds;
    HoldsIsPrefix(family, c[p], inner);
    FoundMeans(c, inner);
    var path := Key(inner);
    DeepestMeaning(c, path, |path|);
    assert path[..|p|] == p;
    var d := Deepest(c, path).value;
    assert path[..d.bits] in c && path[..d.bits] <= path;
  }

  /** No network has one of the other family below it. */
  ghost predicate Unmixed(c: Contents) {
    Stocked(c) && forall p, q :: p in c && q in c && p <= q ==> c[p].address.family == c[q].address.family
  }

  /** The test answers the question it is documented to answer when neither tree has
      a network of one family below one of the other. */
  lemma SubsetMeansContainment(family: Family, c1: Contents, c2: Contents)
    requires Unmixed(c1) && Unmixed(c2)
    ensures SubsetTest(family, c1, c2) <==> SomeContains(family, c1, c2)
  {
    hide FindNet, Holds, Between, SubsetTest, FoundIn, HiddenIn;
    SubsetIsContainmentIff(family, c1, c2);
    if Between(family, c1, c2) {
      BetweenIsContained(family, c1, c2);
    }
    forall p, q | p in c1 && q in c2 && HiddenIn(family, c1, c1[p], c2[q]) ensures false {
      NothingHidden(family, c1, p, c2[q]);
    }
  }

  lemma NothingHidden(family: Family, c: Contents, p: Path, inner: IPNet)
    requires Unmixed(c) && p in c
    ensures !HiddenIn(family, c, c[p], inner)
  {
    hide Holds;
    HoldsIsPrefix(family, c[p], inner);
    forall r | r in c && c[p].bits < c[r].bits && r <= Key(inner) && Holds(family, c[p], inner)
      ensures c[r].address.family == inner.address.family
    {
      assert p <= r;
    }
  }

  lemma BetweenIsContained(family: Family, c1: Contents, c2: Contents)
    requires Stocked(c1) && Unmixed(c2) && Between(family, c1, c2)
    ensures SomeContains(family, c1, c2)
  {
    hide FindNet, Holds;
    var p :| p in c1 && Asked(family, c1[p]) && !FindNet(c2, c1[p]).IsNull() && Covered(c2, p);
    var q :| q in c2 && p <= q;
    FoundMeans(c2, c1[p]);
    DeepestMeaning(c2, p, |p|);
    var w := Deepest(c2, p).value;
    assert p[..w.bits] in c2 && p[..w.bits] <= q;
    HoldsIsPrefix(family, c1[p], c2[q]);
    assert Holds(family, c1[p], c2[q]);
  }

  /** In particular for trees built from networks of one family. */
  lemma OneFamilySubset(family: Family, f: Family, nets1: seq<IPNet>, nets2: seq<IPNet>)
    requires forall n :: n in nets1 || n in nets2 ==> n.address.family == f
    ensures SubsetTest(family, Build(nets1), Build(nets2)) <==> SomeContains(family, Build(nets1), Build(nets2))
  {
    hide SubsetTest, SomeContains;
    BuildIsUnmixed(nets1);
    BuildIsUnmixed(nets2);
    SubsetMeansContainment(family, Build(nets1), Build(nets2));
  }

  /** Two tests, one each way, succeed exactly if a network of one tree is found in
      the other, whatever the mix of families. */
  lemma TwoWayTest(family: Family, c1: Contents, c2: Contents)
    requires Stocked(c1) && Stocked(c2)
    ensures SubsetTest(family, c1, c2) || SubsetTest(family, c2, c1) <==>
            FoundIn(family, c1, c2) || FoundIn(family, c2, c1)
  {
    hide FindNet, SubsetTest, Covered;
    SubsetTestMeans(family, c1, c2);
    SubsetTestMeans(family, c2, c1);
  }

  /** Every network of the list has its prefix in the tree. */
  lemma {:induction false} BuildHasKeys(nets: seq<IPNet>)
    ensures forall n :: n in nets && n.bits >= 1 ==> Key(n) in Build(nets)
  {
    if nets != [] {
      var rest := nets[..|nets| - 1];
      BuildHasKeys(rest);
      assert forall n :: n in nets ==> n in rest || n == nets[|nets| - 1];
    }
  }

  lemma BuildIsUnmixed(nets: seq<IPNet>)
    requires forall m, n :: m in nets && n in nets && Key(m) <= Key(n) ==> m.address.family == n.address.family
    ensures Unmixed(Build(nets))
  {
    BuildIsKeyed(nets);
  }

  lemma BuildOne(a: IPNet)
    requires a.bits >= 1
    ensures Build([a]) == map[Key(a) := a] && Stocked(Build([a]))
  {
    assert [a][..0] == [];
  }

  lemma BuildTwo(a: IPNet, b: IPNet)
    requires a.bits >= 1 && b.bits >= 1 && Key(a) != Key(b)
    ensures Build([a, b]) == map[Key(a) := a, Key(b) := b] && Stocked(Build([a, b]))
  {
    BuildOne(a);
    assert [a, b][..1] == [a];
  }

  /** A containment behind a foreign network is missed. */
  lemma SubsetMisses(outer: IPNet, foreign: IPNet, inner: IPNet)
    requires 1 <= outer.bits < foreign.bits && outer.address.family == inner.address.family != foreign.address.family
    requires Key(outer) <= Key(foreign) <= Key(inner)
    ensures var c1, c2 := Build([outer, foreign]), Build([inner]);
            forall family :: Asked(family, inner) ==> SomeContains(family, c1, c2) && !SubsetTest(family, c1, c2)
  {
    hide FindNet, Holds, SubsetTest, Build, Contains;
    var c1, c2 := Build([outer, foreign]), Build([inner]);
    BuildTwo(outer, foreign);
    BuildOne(inner);
    HiddenBehind(outer, foreign, inner);
    FoundMeans(c2, outer);
    FoundMeans(c2, foreign);
    DeepestMeaning(c2, Key(outer), outer.bits);
    DeepestMeaning(c2, Key(foreign), foreign.bits);
    forall family | Asked(family, inner) ensures SomeContains(family, c1, c2) && !SubsetTest(family, c1, c2) {
      HoldsIsPrefix(family, outer, inner);
      assert Holds(family, c1[Key(outer)], c2[Key(inner)]);
      SubsetTestMeans(family, c1, c2);
    }
  }

  /** A network between one of its family above and a foreign one below counts as
      containing something. */
  lemma SubsetInvents(above: IPNet, between: IPNet, foreign: IPNet)
    requires 1 <= above.bits < between.bits < foreign.bits
             && above.address.family == between.address.family != foreign.address.family
    requires Key(above) <= Key(between) <= Key(foreign)
    ensures var c1, c2 := Build([between]), Build([above, foreign]);
            forall family :: Asked(family, between) ==> SubsetTest(family, c1, c2) && !SomeContains(family, c1, c2)
  {
    hide FindNet, Holds, SubsetTest, Build, Contains;
    var c1, c2 := Build([between]), Build([above, foreign]);
    BuildOne(between);
    BuildTwo(above, foreign);
    FoundMeans(c2, between);
    DeepestMeaning(c2, Key(between), between.bits);
    assert Key(between)[..above.bits] == Key(above);
    assert Deepest(c2, Key(between)).Some? by { assert Key(between)[..above.bits] in c2; }
    forall family | Asked(family, between) ensures SubsetTest(family, c1, c2) && !SomeContains(family, c1, c2) {
      HoldsIsPrefix(family, between, above);
      HoldsIsPrefix(family, between, foreign);
      SubsetTestMeans(family, c1, c2);
      assert Covered(c2, Key(between)) by { assert Key(foreign) in c2; }
      assert Between(family, c1, c2) by { assert Key(between) in c1; }
    }
  }

  /** 172.0.0.0/8 contains 172.16.0.0/12, which the test misses behind ac00::/10. */
  lemma PrivateRangeMissed()
    ensures var c1 := Build([MakeNet(V4(172, 0, 0, 0), 8, false), MakeNet(V6(172, 0), 10, false)]);
            var c2 := Build([MakeNet(V4(172, 16, 0, 0), 12, false)]);
            SomeContains(IPV4, c1, c2) && !SubsetTest(IPV4, c1, c2)
  {
    hide ByteBits, Build;
    var outer, foreign := MakeNet(V4(172, 0, 0, 0), 8, false), MakeNet(V6(172, 0), 10, false);
    var inner := MakeNet(V4(172, 16, 0, 0), 12, false);
    var b := ByteBits(172);
    assert ByteBits(0)[..2] == ByteBits(16)[..4][..2] by { LeadingZeros(); }
    assert Key(outer) == b && Key(foreign) == b + ByteBits(0)[..2] && Key(inner) == b + ByteBits(16)[..4];
    assert Key(inner)[..10] == b + ByteBits(16)[..4][..2];
    SubsetMisses(outer, foreign, inner);
  }

  lemma LeadingZeros()
    ensures ByteBits(0)[..2] == [false, false] == ByteBits(16)[..4][..2]
    ensures ByteBits(8)[..5] == ByteBits(10)[..5]
  {
    hide ByteBits;
    BitsOfByte(0);
    BitsOfByte(16);
    BitsOfByte(8);
    BitsOfByte(10);
  }

  /** 10.8.0.0/13 contains neither 10.0.0.0/8 nor a0a::/16, but the test says so. */
  lemma ContainmentInvented()
    ensures var c1 := Build([MakeNet(V4(10, 8, 0, 0), 13, false)]);
            var c2 := Build([MakeNet(V4(10, 0, 0, 0), 8, false), MakeNet(V6(10, 10), 16, false)]);
            SubsetTest(IPV4, c1, c2) && !SomeContains(IPV4, c1, c2)
  {
    hide ByteBits, Build;
    var above, foreign := MakeNet(V4(10, 0, 0, 0), 8, false), MakeNet(V6(10, 10), 16, false);
    var between := MakeNet(V4(10, 8, 0, 0), 13, false);
    var b := ByteBits(10);
    assert ByteBits(8)[..5] == ByteBits(10)[..5] by { LeadingZeros(); }
    assert Key(above) == b && Key(between) == b + ByteBits(8)[..5] && Key(foreign) == b + b;
    assert Key(foreign)[..13] == b + ByteBits(10)[..5];
    SubsetInvents(above, between, foreign);
  }
}
