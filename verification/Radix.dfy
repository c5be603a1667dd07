/** The radix tree over IP networks (NRadix.h, NRadix.cpp): a heap of nodes that
    is walked bit by bit with a two-word cursor. */
module Radix {
  import opened Wrappers
  import opened Addresses
  import opened Cursors

  /** A path from the root: `true` is a step to the right. */
  type Path = seq<bool>
  type Contents = map<Path, IPNet>

  class Node {
    var value: Option<IPNet>
    var left: Node?
    var right: Node?

    constructor ()
      ensures value == None && left == null && right == null
    {
      value, left, right := None, null, null;
    }
  }

  // ----- what a tree means

  /** The value stored deepest on a path, among the first `n` steps. */
  function DeepestUpTo(c: Contents, path: Path, n: nat): Option<IPNet>
    requires n <= |path|
  {
    if path[..n] in c then Some(c[path[..n]])
    else if n == 0 then None
    else DeepestUpTo(c, path, n - 1)
  }

  function Deepest(c: Contents, path: Path): Option<IPNet> {
    DeepestUpTo(c, path, |path|)
  }

  /** What `Find` returns: the deepest stored network on the path of the query,
      whatever its family, provided that its family is the query's. */
  function FindNet(c: Contents, query: IPNet): IPNet {
    if query.bits == 0 then NULL_NET
    else match Deepest(c, Key(query))
      case None => NULL_NET
      case Some(net) => if net.address.family == query.address.family then net else NULL_NET
  }

  lemma {:induction false} DeepestStops(c: Contents, path: Path, d: nat, n: nat)
    requires d <= n <= |path|
    requires forall m :: d < m <= n ==> path[..m] !in c
    ensures DeepestUpTo(c, path, n) == DeepestUpTo(c, path, d)
  {
    if d < n {
      DeepestStops(c, path, d, n - 1);
    }
  }

  lemma {:induction false} DeepestOfPrefix(c: Contents, path: Path, n: nat, k: nat)
    requires k <= n <= |path|
    ensures DeepestUpTo(c, path[..n], k) == DeepestUpTo(c, path, k)
  {
    assert path[..n][..k] == path[..k];
    if k > 0 {
      DeepestOfPrefix(c, path, n, k - 1);
    }
  }

  function OrNull(o: Option<IPNet>): IPNet {
    match o
    case None => NULL_NET
    case Some(net) => net
  }

  /** The deepest value strictly above depth `d`. */
  function Above(c: Contents, path: Path, d: nat): Option<IPNet>
    requires d <= |path|
  {
    if d == 0 then None else DeepestUpTo(c, path, d - 1)
  }

  /** Some stored network has `p` as a prefix. */
  ghost predicate Covered(c: Contents, p: Path) {
    exists q :: q in c && p <= q
  }

  /** Every node other than the root has a value at or below it, except that
      the nodes on the way to `pending` may still wait for theirs. */
  ghost predicate Populated(paths: set<Path>, c: Contents, pending: Path) {
    forall p {:trigger Covered(c, p)} :: p in paths && p != [] ==> Covered(c, p) || p <= pending
  }

  lemma PopulatedGrows(paths: set<Path>, c: Contents, path: Path, d: nat)
    requires d < |path| && Populated(paths, c, path[..d])
    ensures Populated(paths + {path[..d + 1]}, c, path[..d + 1])
  {
  }

  /** The networks stored at or below a path. */
  ghost function Under(c: Contents, p: Path): set<IPNet> {
    set q | q in c && p <= q :: c[q]
  }

  ghost predicate Keyed(c: Contents) {
    forall q :: q in c ==> Key(c[q]) == q
  }

  lemma StepsBelow(p: Path, q: Path)
    ensures p <= q <==> p == q || p + [false] <= q || p + [true] <= q
  {
    if p <= q && p != q {
      var b := q[|p|];
      assert p + [b] <= q;
    }
  }

  /** The networks below a node are its own and, separately, those below its
      children. */
  lemma UnderSplits(c: Contents, p: Path)
    requires Keyed(c)
    ensures var own := if p in c then {c[p]} else {};
            var l, r := Under(c, p + [false]), Under(c, p + [true]);
            Under(c, p) == own + l + r && own !! l && own + l !! r
  {
    var own := if p in c then {c[p]} else {};
    var l, r := Under(c, p + [false]), Under(c, p + [true]);
    forall v | v in Under(c, p) ensures v in own + l + r {
      var q :| q in c && p <= q && c[q] == v;
      StepsBelow(p, q);
    }
    forall v | v in l ensures v in Under(c, p) && |Key(v)| > |p| && !Key(v)[|p|] {
      StepsBelow(p, Key(v));
      assert Key(v)[|p|] == (p + [false])[|p|];
    }
    forall v | v in r ensures v in Under(c, p) && |Key(v)| > |p| && Key(v)[|p|] {
      StepsBelow(p, Key(v));
      assert Key(v)[|p|] == (p + [true])[|p|];
    }
    assert p in c ==> Key(c[p]) == p;
    assert own !! l && own !! r && l !! r;
  }

  lemma UnderAsMultiset(c: Contents, p: Path)
    requires Keyed(c)
    ensures multiset(Under(c, p)) == (if p in c then multiset{c[p]} else multiset{})
                                     + multiset(Under(c, p + [false])) + multiset(Under(c, p + [true]))
  {
    hide Under, Keyed;
    UnderSplits(c, p);
  }

  ghost function ChildOf(nodes: map<Path, Node>, p: Path, right: bool): Node? {
    if p + [right] in nodes then nodes[p + [right]] else null
  }

  /** Whether two networks met on a walk answer a subset question. */
  predicate Matches(family: Family, containing: Option<IPNet>, contained: Option<IPNet>) {
    containing.Some? && contained.Some?
    && var f, g := containing.value.address.family, contained.value.address.family;
       if family == UNKNOWN then f == g else f == family && g == family
  }

  /** Some node of the second tree at or below `p` has a network of each tree on
      its path, and the deepest two answer the question. */
  ghost predicate MatchBelow(family: Family, c1: Contents, paths2: set<Path>, c2: Contents, p: Path) {
    exists s :: s in paths2 && p <= s && Matches(family, Deepest(c1, s), Deepest(c2, s))
  }

  /** The answer over the stored networks alone: some prefix of a network of the
      second tree has a network of each tree on its path, and the deepest two match. */
  ghost predicate SubsetTest(family: Family, c1: Contents, c2: Contents) {
    exists s :: Covered(c2, s) && Matches(family, Deepest(c1, s), Deepest(c2, s))
  }

  lemma MatchBelowSplits(family: Family, c1: Contents, paths2: set<Path>, c2: Contents, p: Path)
    ensures MatchBelow(family, c1, paths2, c2, p) <==>
              (p in paths2 && Matches(family, Deepest(c1, p), Deepest(c2, p)))
              || MatchBelow(family, c1, paths2, c2, p + [false])
              || MatchBelow(family, c1, paths2, c2, p + [true])
  {
    forall s | s in paths2
      ensures p <= s <==> p == s || p + [false] <= s || p + [true] <= s
    {
      StepsBelow(p, s);
    }
  }

  lemma NothingMatches(family: Family, containing: Option<IPNet>)
    ensures !Matches(family, containing, None)
  {
  }

  lemma NoMatchBelow(family: Family, c1: Contents, paths2: set<Path>, c2: Contents, p: Path)
    requires forall s :: s in paths2 ==> !(p <= s)
    ensures !MatchBelow(family, c1, paths2, c2, p)
  {
  }

  lemma AboveChild(c: Contents, p: Path, b: bool)
    ensures Above(c, p + [b], |p| + 1) == Deepest(c, p)
    ensures Deepest(c, p) == if p in c then Some(c[p]) else Above(c, p, |p|)
  {
    assert (p + [b])[..|p|] == p && p[..|p|] == p;
    DeepestOfPrefix(c, p + [b], |p|, |p|);
  }

  lemma JoinValues(l: map<Path, Node>, r: map<Path, Node>, copy: Node, p: Path)
    ensures (l + r)[p := copy].Values <= l.Values + r.Values + {copy}
  {
  }

  lemma SnocInjective(p: Path, b: bool, q: Path, c: bool)
    requires p + [b] == q + [c]
    ensures p == q && b == c
  {
    assert |p| == |q|;
    assert p == (p + [b])[..|p|] && q == (q + [c])[..|q|];
    assert (p + [b])[|p|] == b && (q + [c])[|q|] == c;
  }

  class NRadixTree {
    var root: Node
    ghost var nodes: map<Path, Node>

    ghost predicate Shape()
      reads this, nodes.Values
    {
      && [] in nodes && nodes[[]] == root
      && (forall p :: p in nodes ==> |p| <= 128)
      && (forall p, b {:trigger p + [b] in nodes} :: p + [b] in nodes ==> p in nodes)
      && (forall p, q {:trigger nodes[p], nodes[q]} :: p in nodes && q in nodes && nodes[p] == nodes[q] ==> p == q)
      && (forall p {:trigger nodes[p].left} :: p in nodes ==> nodes[p].left == ChildOf(nodes, p, false))
      && (forall p {:trigger nodes[p].right} :: p in nodes ==> nodes[p].right == ChildOf(nodes, p, true))
      && (forall p {:trigger nodes[p].value} :: p in nodes && nodes[p].value.Some? ==>
            Key(nodes[p].value.value) == p && p != [])
    }

    /** A well-formed tree whose every non-root leaf holds a value. */
    ghost predicate Valid()
      reads this, nodes.Values
    {
      Shape() && Populated(nodes.Keys, Stored(), [])
    }

    ghost function Stored(): (c: Contents)
      reads this, nodes.Values
    {
      map p | p in nodes && nodes[p].value.Some? :: nodes[p].value.value
    }

    constructor ()
      ensures Valid() && Stored() == map[] && fresh(nodes.Values)
      ensures nodes.Keys == {[]}
    {
      root := new Node();
      nodes := map[[] := root];
    }

    /** A prefix of an existing path exists. */
    lemma {:induction false} PrefixClosed(p: Path, n: nat)
      requires Shape() && p in nodes && n <= |p|
      ensures p[..n] in nodes
      decreases |p|
    {
      if n < |p| {
        var q := p[..|p| - 1];
        var last := p[|p| - 1];
        assert p == q + [last];
        PrefixClosed(q, n);
        assert q[..n] == p[..n];
      } else {
        assert p[..n] == p;
      }
    }

    lemma AbsentBelow(path: Path, d: nat, n: nat)
      requires Shape() && d <= n <= |path| && path[..d] !in nodes
      ensures path[..n] !in nodes
    {
      assert path[..n][..d] == path[..d];
      if path[..n] in nodes {
        PrefixClosed(path[..n], d);
      }
    }

    lemma NoGrandchild(path: Path, d: nat)
      requires Shape() && d + 1 < |path| && path[..d + 1] !in nodes
      ensures path[..d + 2] !in nodes
    {
      var bit := path[d + 1];
      assert path[..d + 2] == path[..d + 1] + [bit];
    }

    // ----- Insert

    /** The child on the side of the cursor's bit. */
    method Follow(node: Node, c: Cursor, network: IPNet, ghost d: nat) returns (next: Node?)
      requires Shape() && At(c, d) && d < 128
      requires network.address.Bits()[..d] in nodes && node == nodes[network.address.Bits()[..d]]
      ensures next == if network.address.Bits()[..d + 1] in nodes then nodes[network.address.Bits()[..d + 1]] else null
    {
      ghost var path := network.address.Bits();
      var right := TurnsRight(c, network.address, d);
      assert path[..d + 1] == path[..d] + [path[d]];
      if right {
        next := node.right;
      } else {
        next := node.left;
      }
    }

    /** The first loop of `Insert`: follow the bits of the network that already
        exist in the tree. */
    method Descend(network: IPNet) returns (node: Node, next: Node?, c: Cursor, ghost d: nat)
      requires Shape() && network.bits >= 1
      ensures d <= network.bits && At(c, d)
      ensures var path := network.address.Bits();
              path[..d] in nodes && node == nodes[path[..d]]
              && if next != null then d == network.bits else d < network.bits && path[..d + 1] !in nodes
    {
      ghost var path := network.address.Bits();
      c, node, next, d := START, root, root, 0;
      var inside := Inside(c, network.bits, d);
      while inside
        invariant d <= network.bits && At(c, d) && (inside <==> d < network.bits)
        invariant path[..d] in nodes && node == nodes[path[..d]] && next == node
        decreases network.bits - d
      {
        next := Follow(node, c, network, d);
        if next == null {
          return;
        }
        c := Moved(c, network.bits, d);
        node, d := next, d + 1;
        inside := Inside(c, network.bits, d);
      }
    }

    /** The children of every path after a new node was hung below `p`. */
    lemma ChildrenAfter(before: map<Path, Node>, p: Path, right: bool, child: Node, q: Path, b: bool)
      requires p + [right] !in before && forall r, b {:trigger r + [b] in before} :: r + [b] in before ==> r in before
      ensures var after := before[p + [right] := child];
              ChildOf(after, q, b) == if q == p && b == right then child else ChildOf(before, q, b)
      ensures ChildOf(before, p + [right], b) == null
    {
      if q + [b] == p + [right] {
        SnocInjective(q, b, p, right);
      }
    }

    /** Hang a new node below `node`, on the side of bit `right`. */
    method Attach(node: Node, right: bool, ghost p: Path) returns (child: Node)
      requires Shape() && p in nodes && nodes[p] == node && |p| < 128
      requires p + [right] !in nodes
      modifies this`nodes, node
      ensures Shape() && fresh(child) && root == old(root)
      ensures nodes == old(nodes)[p + [right] := child]
      ensures child.value == None && node.value == old(node.value)
    {
      child := new Node();
      ghost var before, q := nodes, p + [right];
      if right {
        node.right := child;
      } else {
        node.left := child;
      }
      nodes := nodes[q := child];
      forall r, b | r in nodes
        ensures ChildOf(nodes, r, b)
                  == if r == p && b == right then child else if r == q then null else ChildOf(before, r, b)
      {
        ChildrenAfter(before, p, right, child, r, b);
      }
      forall r, b | r + [b] in nodes ensures r in nodes {
        if r + [b] == q {
          SnocInjective(r, b, p, right);
        }
      }
    }

    /** One round of the second loop of `Insert`. */
    method ExtendOne(network: IPNet, node: Node, c: Cursor, ghost d: nat) returns (child: Node)
      requires Shape() && At(c, d) && d < network.bits
      requires var path := network.address.Bits();
               path[..d] in nodes && node == nodes[path[..d]] && path[..d + 1] !in nodes
      modifies this`nodes, node
      ensures Shape() && fresh(child) && root == old(root) && child.value == None
      ensures nodes == old(nodes)[network.address.Bits()[..d + 1] := child]
      ensures d + 1 < 128 ==> network.address.Bits()[..d + 2] !in nodes
      ensures Stored() == old(Stored())
    {
      hide Shape, At, Address.Bits, Key;
      ghost var path := network.address.Bits();
      ghost var before, bit := nodes, path[d];
      var right := TurnsRight(c, network.address, d);
      assert path[..d + 1] == path[..d] + [bit];
      if d + 1 < 128 {
        NoGrandchild(path, d);
      }
      child := Attach(node, right, path[..d]);
      assert forall r :: r in before ==> nodes[r] == before[r] && before[r].value == old(before[r].value);
    }

    /** The second loop of `Insert`: add nodes for the remaining bits. */
    method Extend(network: IPNet, start: Node, from: Cursor, ghost d0: nat) returns (node: Node)
      requires Valid() && At(from, d0) && d0 < network.bits
      requires var path := network.address.Bits();
               path[..d0] in nodes && start == nodes[path[..d0]] && path[..d0 + 1] !in nodes
      modifies this`nodes, nodes.Values
      ensures Shape() && Populated(nodes.Keys, Stored(), Key(network)) && Stored() == old(Stored())
      ensures root == old(root) && fresh(nodes.Values - old(nodes.Values))
      ensures Key(network) in nodes && node == nodes[Key(network)] && node.value == None
    {
      hide Shape, At, Stored;
      ghost var path, d := network.address.Bits(), d0;
      var c := from;
      node := start;
      var inside := Inside(c, network.bits, d);
      while inside
        invariant d0 <= d <= network.bits && At(c, d) && (inside <==> d < network.bits)
        invariant Shape() && Populated(nodes.Keys, Stored(), path[..d]) && Stored() == old(Stored())
        invariant root == old(root) && fresh(nodes.Values - old(nodes.Values))
        invariant path[..d] in nodes && node == nodes[path[..d]]
        invariant if d < network.bits then path[..d + 1] !in nodes else node.value == None
        decreases network.bits - d
      {
        PopulatedGrows(nodes.Keys, Stored(), path, d);
        var child := ExtendOne(network, node, c, d);
        c := Moved(c, network.bits, d);
        node, d := child, d + 1;
        inside := Inside(c, network.bits, d);
      }
    }

    /** Store a network at the node of its key. */
    method StoreAt(node: Node, network: IPNet)
      requires Shape() && Populated(nodes.Keys, Stored(), Key(network)) && network.bits >= 1
      requires Key(network) in nodes && node == nodes[Key(network)]
      modifies node
      ensures Valid() && Stored() == old(Stored())[Key(network) := network]
    {
      ghost var key := Key(network);
      node.value := Some(network);
      assert Stored() == old(Stored())[key := network];
      assert key in Stored();
      forall p | p in nodes && p != [] && old(Covered(Stored(), p)) ensures Covered(Stored(), p) {
        ghost var q :| q in old(Stored()) && p <= q;
        assert q in Stored();
      }
    }

    /** Insert a network.  It is refused, and nothing changes, exactly when its
        length is zero or a network with the same prefix is already stored. */
    method Insert(network: IPNet) returns (ok: bool)
      requires Valid()
      modifies this`nodes, nodes.Values
      ensures Valid() && root == old(root) && fresh(nodes.Values - old(nodes.Values))
      ensures ok <==> network.bits >= 1 && Key(network) !in old(Stored())
      ensures Stored() == if ok then old(Stored())[Key(network) := network] else old(Stored())
    {
      if network.IsNull() {
        return false;
      }
      if network.bits < 1 || network.bits > 128 {
        return false;
      }
      var node, next, c, d := Descend(network);
      if next != null {
        if node.value.Some? {
          return false;
        }
        StoreAt(node, network);
        return true;
      }
      AbsentBelow(network.address.Bits(), d + 1, network.bits);
      var last := Extend(network, node, c, d);
      StoreAt(last, network);
      return true;
    }

    // ----- Find

    lemma NothingBelow(path: Path, d: nat, n: nat)
      requires Shape() && 0 < d <= n <= |path| && path[..d] !in nodes
      ensures DeepestUpTo(Stored(), path, n) == Above(Stored(), path, d)
    {
      forall m | d <= m <= n ensures path[..m] !in Stored() {
        AbsentBelow(path, d, m);
      }
      DeepestStops(Stored(), path, d - 1, n);
    }

    /** The value of a node updates the deepest value found so far. */
    method Visit(node: Node, sofar: IPNet, ghost path: Path, ghost d: nat) returns (ret: IPNet)
      requires Shape() && d <= |path| && path[..d] in nodes && node == nodes[path[..d]]
      requires sofar == OrNull(Above(Stored(), path, d))
      ensures ret == OrNull(DeepestUpTo(Stored(), path, d))
    {
      ret := sofar;
      if node.value.Some? {
        ret := node.value.value;
      }
    }

    /** The walk of `Find`, before its family check. */
    method Walk(network: IPNet) returns (ret: IPNet)
      requires Shape() && network.bits >= 1
      ensures ret == OrNull(Deepest(Stored(), Key(network)))
    {
      hide Shape, Stored;
      ghost var path, d := network.address.Bits(), 0;
      DeepestOfPrefix(Stored(), path, network.bits, network.bits);
      var c, node: Node? := START, root;
      ret := NULL_NET;
      assert path[..0] == [];
      RootIsNode();
      while node != null
        invariant d <= network.bits && At(c, d) && d < 128
        invariant node == if path[..d] in nodes then nodes[path[..d]] else null
        invariant node == null ==> d > 0
        invariant ret == OrNull(Above(Stored(), path, d))
        decreases network.bits - d
      {
        ret := Visit(node, ret, path, d);
        node := Follow(node, c, network, d);
        var inside := Inside(c, network.bits, d);
        if !inside {
          return;
        }
        c := Moved(c, network.bits, d);
        d := d + 1;
        var exhausted := Exhausted(c, d);
        if exhausted {
          if node != null {
            ret := Visit(node, ret, path, d);
          } else {
            NothingBelow(path, d, network.bits);
          }
          return;
        }
      }
      NothingBelow(path, d, network.bits);
    }

    lemma RootIsNode()
      requires Shape()
      ensures [] in nodes && nodes[[]] == root
    {
    }

    /** `Find`: the deepest stored network on the query's path if its family is
        the query's, else the null network. */
    method Find(network: IPNet) returns (ret: IPNet)
      requires Valid()
      ensures ret == FindNet(Stored(), network)
    {
      if network.IsNull() {
        return NULL_NET;
      }
      if network.bits == 0 {
        return NULL_NET;
      }
      ret := Walk(network);
      if network.address.family != ret.address.family {
        ret := NULL_NET;
      }
    }

    // ----- copies

    /** `sub` is a copy of the subtree at `p`, node by node. */
    ghost predicate Mirrors(sub: map<Path, Node>, p: Path)
      reads this, nodes.Values, sub.Values
    {
      && (forall q :: q in sub ==> q in nodes && p <= q)
      && (forall q :: q in nodes && p <= q ==> q in sub)
      && (forall q {:trigger sub[q].value} :: q in sub ==> sub[q].value == nodes[q].value)
      && (forall q {:trigger sub[q].left} :: q in sub ==> sub[q].left == ChildOf(sub, q, false))
      && (forall q {:trigger sub[q].right} :: q in sub ==> sub[q].right == ChildOf(sub, q, true))
      && (forall q, r {:trigger sub[q], sub[r]} :: q in sub && r in sub && sub[q] == sub[r] ==> q == r)
    }

    /** Which of the three parts of a joined copy a path belongs to. */
    lemma Parts(l: map<Path, Node>, r: map<Path, Node>, copy: Node, p: Path, q: Path)
      requires Mirrors(l, p + [false]) && Mirrors(r, p + [true])
      ensures var sub := (l + r)[p := copy];
              && (q in l ==> q !in r && q != p && q in sub && sub[q] == l[q]
                             && ChildOf(sub, q, false) == ChildOf(l, q, false)
                             && ChildOf(sub, q, true) == ChildOf(l, q, true))
              && (q in r ==> q !in l && q != p && q in sub && sub[q] == r[q]
                             && ChildOf(sub, q, false) == ChildOf(r, q, false)
                             && ChildOf(sub, q, true) == ChildOf(r, q, true))
              && ChildOf(sub, p, false) == ChildOf(l, p, false) && ChildOf(sub, p, true) == ChildOf(r, p, true)
    {
      forall k | k in l ensures |k| > |p| && !k[|p|] {
        assert k[|p|] == (p + [false])[|p|];
      }
      forall k | k in r ensures |k| > |p| && k[|p|] {
        assert k[|p|] == (p + [true])[|p|];
      }
      assert |q| > |p| ==> (q + [false])[|p|] == q[|p|] && (q + [true])[|p|] == q[|p|];
      assert (p + [false])[|p|] == false && (p + [true])[|p|] == true;
    }

    lemma JoinCopies(l: map<Path, Node>, r: map<Path, Node>, copy: Node, p: Path)
      requires p in nodes && Mirrors(l, p + [false]) && Mirrors(r, p + [true])
      requires copy !in l.Values && copy !in r.Values && l.Values !! r.Values
      requires copy.value == nodes[p].value && copy.left == ChildOf(l, p, false) && copy.right == ChildOf(r, p, true)
      ensures Mirrors((l + r)[p := copy], p)
    {
      hide ChildOf;
      var sub := (l + r)[p := copy];
      forall q | q in sub
        ensures q in nodes && p <= q && sub[q].value == nodes[q].value
        ensures sub[q].left == ChildOf(sub, q, false) && sub[q].right == ChildOf(sub, q, true)
      {
        Parts(l, r, copy, p, q);
        StepsBelow(p, q);
      }
      forall q | q in nodes && p <= q ensures q in sub {
        StepsBelow(p, q);
      }
      forall q, k | q in sub && k in sub && sub[q] == sub[k] ensures q == k {
        JoinIsInjective(l, r, copy, p, q, k);
      }
    }

    lemma JoinIsInjective(l: map<Path, Node>, r: map<Path, Node>, copy: Node, p: Path, q: Path, k: Path)
      requires Mirrors(l, p + [false]) && Mirrors(r, p + [true])
      requires copy !in l.Values && copy !in r.Values && l.Values !! r.Values
      requires var sub := (l + r)[p := copy]; q in sub && k in sub && sub[q] == sub[k]
      ensures q == k
    {
      hide ChildOf;
      Parts(l, r, copy, p, q);
      Parts(l, r, copy, p, k);
      assert q in l ==> l[q] in l.Values;
      assert k in l ==> l[k] in l.Values;
      assert q in r ==> r[q] in r.Values;
      assert k in r ==> r[k] in r.Values;
    }

    /** Nothing is a copy of nothing. */
    lemma NothingToCopy(p: Path)
      requires Shape() && p !in nodes
      ensures Mirrors(map[], p)
    {
      NoPathBelow(p);
    }

    /** The copy constructor of a node copies everything below it; an absent child
        stays absent. */
    method CopyNode(node: Node?, ghost p: Path) returns (copy: Node?, ghost sub: map<Path, Node>)
      requires Shape() && |p| <= 129 && node == if p in nodes then nodes[p] else null
      ensures Mirrors(sub, p) && fresh(sub.Values)
      ensures p in sub <==> p in nodes
      ensures copy == if p in sub then sub[p] else null
      decreases 129 - |p|
    {
      hide Shape, Mirrors;
      if node == null {
        NothingToCopy(p);
        return null, map[];
      }
      ChildNodes(p);
      ghost var l, r;
      var left, right;
      left, l := CopyNode(node.left, p + [false]);
      right, r := CopyNode(node.right, p + [true]);
      var n := new Node();
      n.value, n.left, n.right := node.value, left, right;
      JoinCopies(l, r, n, p);
      JoinValues(l, r, n, p);
      copy, sub := n, (l + r)[p := n];
    }

    /** The copy constructor of a tree: the same networks, and no node shared, so
        that later changes of one tree do not show in the other. */
    constructor Copy(other: NRadixTree)
      requires other.Valid()
      ensures Valid() && Stored() == other.Stored() && fresh(nodes.Values)
    {
      ghost var sub;
      var copy;
      copy, sub := other.CopyNode(other.root, []);
      root, nodes := copy, sub;
      new;
      other.CopyIsValid(this);
    }

    lemma CopyIsValid(copy: NRadixTree)
      requires Valid() && Mirrors(copy.nodes, []) && [] in copy.nodes && copy.nodes[[]] == copy.root
      ensures copy.Valid() && copy.Stored() == Stored()
    {
      assert forall q :: q in copy.nodes <==> q in nodes;
      assert copy.Stored() == Stored();
    }

    // ----- GetAll

    lemma StoredIsKeyed()
      requires Shape()
      ensures Keyed(Stored())
      ensures forall q :: q in Stored() ==> q in nodes
    {
    }

    lemma NoneUnder(p: Path)
      requires Shape() && p !in nodes
      ensures Under(Stored(), p) == {}
    {
      NoPathBelow(p);
      StoredIsKeyed();
    }

    lemma ChildNodes(p: Path)
      requires Shape() && p in nodes
      ensures nodes[p].left == ChildOf(nodes, p, false) && nodes[p].right == ChildOf(nodes, p, true)
      ensures |p| <= 128
      ensures nodes[p].value == if p in Stored() then Some(Stored()[p]) else None
    {
    }

    /** Append the networks below a node to the list. */
    method Collect(node: Node?, acc: seq<IPNet>, ghost p: Path) returns (ret: seq<IPNet>)
      requires Shape() && |p| <= 129 && node == if p in nodes then nodes[p] else null
      ensures multiset(ret) == multiset(acc) + multiset(Under(Stored(), p))
      decreases 129 - |p|
    {
      hide Shape, Stored, Under, Keyed;
      if node == null {
        NoneUnder(p);
        return acc;
      }
      StoredIsKeyed();
      UnderAsMultiset(Stored(), p);
      ChildNodes(p);
      ret := acc;
      if node.value.Some? {
        ret := ret + [node.value.value];
      }
      ret := Collect(node.left, ret, p + [false]);
      ret := Collect(node.right, ret, p + [true]);
    }

    /** Every stored network, exactly once. */
    method GetAll() returns (ret: seq<IPNet>)
      requires Valid()
      ensures multiset(ret) == multiset(Stored().Values)
    {
      ret := Collect(root, [], []);
      assert Under(Stored(), []) == Stored().Values;
    }

    // ----- IsAnyIPNetSubset

    /** The recursion down both trees at once.  `containing` and `contained` are
        the values met last above the current path. */
    method SubsetUtil(family: Family, other: NRadixTree, n1: Node?, n2: Node?,
                      containing: Option<IPNet>, contained: Option<IPNet>, ghost p: Path) returns (r: bool)
      requires Shape() && other.Shape() && |p| <= 129
      requires n1 == if p in nodes then nodes[p] else null
      requires n2 == if p in other.nodes then other.nodes[p] else null
      requires containing == Above(Stored(), p, |p|) && contained == Above(other.Stored(), p, |p|)
      ensures r <==> Matches(family, containing, contained)
                     || MatchBelow(family, Stored(), other.nodes.Keys, other.Stored(), p)
      decreases 129 - |p|
    {
      hide Shape, Stored, MatchBelow, Matches;
      MatchBelowSplits(family, Stored(), other.nodes.Keys, other.Stored(), p);
      if Matches(family, containing, contained) {
        return true;
      }
      if n2 == null {
        other.NoPathBelow(p);
        NoMatchBelow(family, Stored(), other.nodes.Keys, other.Stored(), p);
        return false;
      }
      other.ChildNodes(p);
      var containing', contained' := containing, contained;
      if n1 != null {
        ChildNodes(p);
        if n1.value.Some? {
          containing' := n1.value;
        }
      } else {
        StoredIsKeyed();
      }
      if n2.value.Some? {
        contained' := n2.value;
      }
      AboveChild(Stored(), p, false);
      AboveChild(Stored(), p, true);
      AboveChild(other.Stored(), p, false);
      AboveChild(other.Stored(), p, true);
      if n1 != null {
        r := SubsetUtil(family, other, n1.left, n2.left, containing', contained', p + [false]);
        if !r {
          r := SubsetUtil(family, other, n1.right, n2.right, containing', contained', p + [true]);
        }
      } else {
        AbsentChildren(p);
        r := SubsetUtil(family, other, null, n2.left, containing', contained', p + [false]);
        if !r {
          r := SubsetUtil(family, other, null, n2.right, containing', contained', p + [true]);
        }
      }
    }

    lemma NoPathBelow(p: Path)
      requires Shape() && p !in nodes
      ensures forall q :: q in nodes ==> !(p <= q)
    {
      forall q | q in nodes && p <= q ensures false {
        assert q[..|p|] == p;
        PrefixClosed(q, |p|);
      }
    }

    lemma AbsentChildren(p: Path)
      requires Shape() && p !in nodes
      ensures p + [false] !in nodes && p + [true] !in nodes
    {
    }

    /** The nodes are the prefixes of the stored networks, so they do not show. */
    lemma MatchIsSubsetTest(family: Family, c1: Contents)
      requires Valid()
      ensures MatchBelow(family, c1, nodes.Keys, Stored(), []) <==> SubsetTest(family, c1, Stored())
    {
      hide Matches;
      var c2 := Stored();
      if MatchBelow(family, c1, nodes.Keys, c2, []) {
        var s :| s in nodes && Matches(family, Deepest(c1, s), Deepest(c2, s));
        if s == [] {
          assert [] !in c2;
          NothingMatches(family, Deepest(c1, s));
        }
        assert Covered(c2, s);
      }
      if SubsetTest(family, c1, c2) {
        var s :| Covered(c2, s) && Matches(family, Deepest(c1, s), Deepest(c2, s));
        var q :| q in c2 && s <= q;
        assert q[..|s|] == s;
        PrefixClosed(q, |s|);
        assert [] <= s;
      }
    }

    /** The recursion from both roots answers for any contents. */
    method IsAnyIPNetSubset(family: Family, other: NRadixTree) returns (r: bool)
      requires Valid() && other.Valid()
      ensures r <==> SubsetTest(family, Stored(), other.Stored())
    {
      hide Shape, Stored, MatchBelow, Matches, SubsetTest;
      RootIsNode();
      other.RootIsNode();
      NothingMatches(family, None);
      other.MatchIsSubsetTest(family, Stored());
      r := SubsetUtil(family, other, root, other.root, None, None, []);
    }

    method IsEmpty() returns (r: bool)
      requires Valid()
      ensures r <==> Stored() == map[]
    {
      StoredIsKeyed();
      ChildNodes([]);
      r := root.left == null && root.right == null && root.value == None;
      if root.left != null {
        assert Covered(Stored(), [false]) by { assert [] + [false] in nodes; assert [] + [false] == [false]; }
      }
      if root.right != null {
        assert Covered(Stored(), [true]) by { assert [] + [true] in nodes; assert [] + [true] == [true]; }
      }
      if r {
        forall q | q in Stored() ensures false {
          StepsBelow([], q);
          assert [] + [false] == [false] && [] + [true] == [true];
          NoPathBelow([false]);
          NoPathBelow([true]);
        }
      }
    }
  }
}
