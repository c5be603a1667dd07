/** Normalisation of connections before they are reported, and the closing of
    connections whose normal form changes with the external-IPs setting
    (ConnTracker.cpp). */
module Normalization {
  import opened Words
  import opened Addresses
  import opened Radix
  import opened Lookup
  import opened PrivateRanges
  import opened Status
  import opened Delta

  datatype L4Proto = UNKNOWN_L4 | TCP | UDP | ICMP

  datatype Endpoint = Endpoint(network: IPNet, port: nat)

  datatype Connection = Connection(container: string, local: Endpoint, remote: Endpoint, l4proto: L4Proto,
                                   isServer: bool) {
    function RemoteAddress(): Address {
      remote.network.address
    }
  }

  /** In which directions external addresses are reported individually. */
  datatype ExternalIPs = ExternalIPs(ingress: bool, egress: bool) {
    predicate Enabled(isServer: bool) {
      if isServer then ingress else egress
    }
  }

  /** The network settings of the tracker; each radix tree by its contents. */
  datatype Settings = Settings(
    knownPublicIPs: set<Address>,
    knownNetworks: Contents,
    knownPrivateExists: map<Family, bool>,
    nonAggregated: Contents)

  /** Private addresses, and those explicitly asked for, are kept as they are. */
  predicate KeepsAddress(s: Settings, a: Address) {
    !IsPublic(a) || !FindNet(s.nonAggregated, HostNet(a)).IsNull()
  }

  function NormalizeAddress(s: Settings, a: Address, enableExternalIPs: bool): IPNet {
    if a.IsNull() then NULL_NET
    else if KeepsAddress(s, a) && a.family in s.knownPrivateExists && !s.knownPrivateExists[a.family] then
      MakeNet(a, 0, true)
    else
      var network := FindNet(s.knownNetworks, HostNet(a));
      if KeepsAddress(s, a) || a in s.knownPublicIPs then MakeNet(a, network.bits, true)
      else if !network.IsNull() then network
      else if enableExternalIPs then MakeNet(a, 8 * Length(a.family), false)
      else match a.family
        case IPV4 => MakeNet(CANONICAL_V4, 0, true)
        case IPV6 => MakeNet(CANONICAL_V6, 0, true)
        case UNKNOWN => NULL_NET
  }

  /** How likely a port is ephemeral. */
  function IsEphemeralPort(port: nat): nat {
    if port >= 49152 then 4
    else if port >= 32768 then 3
    else if 1025 <= port <= 5000 then 2
    else if port == 1024 then 1
    else 0
  }

  /** The server role; for UDP it is inferred from the ports. */
  function ServerRole(conn: Connection): bool {
    if conn.l4proto == UDP then IsEphemeralPort(conn.remote.port) > IsEphemeralPort(conn.local.port)
    else conn.isServer
  }

  function NormalizeConnection(s: Settings, ext: ExternalIPs, conn: Connection): Connection {
    var isServer := ServerRole(conn);
    if isServer then
      Connection(conn.container, Endpoint(HostNet(NULL_ADDRESS), conn.local.port),
                 Endpoint(NormalizeAddress(s, conn.RemoteAddress(), ext.ingress), 0), conn.l4proto, true)
    else
      Connection(conn.container, Endpoint(NULL_NET, 0),
                 Endpoint(NormalizeAddress(s, conn.RemoteAddress(), ext.egress), conn.remote.port), conn.l4proto, false)
  }

  predicate ShouldNormalizeConnection(s: Settings, conn: Connection) {
    IsCanonicalExternalIp(NormalizeAddress(s, conn.RemoteAddress(), false).address)
  }

  predicate ShouldClose(s: Settings, conn: Connection, enabling: bool) {
    if enabling then IsCanonicalExternalIp(conn.RemoteAddress())
    else !IsCanonicalExternalIp(conn.RemoteAddress()) && ShouldNormalizeConnection(s, conn)
  }

  /** The connections whose representation a change of the setting affects. */
  predicate ClosedByChange(s: Settings, prev: ExternalIPs, now: ExternalIPs, conn: Connection) {
    now.Enabled(conn.isServer) != prev.Enabled(conn.isServer)
    && ShouldClose(s, conn, now.Enabled(conn.isServer))
  }

  /** Closing for one predicate and then for another closes for either. */
  lemma CloseTwice<K>(old_: State<K>, delta: State<K>, first: K -> bool, second: K -> bool, either: K -> bool)
    requires forall k :: k in old_ ==> (either(k) <==> first(k) || second(k))
    ensures Kept(Kept(old_, first), second) == Kept(old_, either)
    ensures WithClosed(Kept(old_, first), WithClosed(old_, delta, first), second) == WithClosed(old_, delta, either)
  {
    hide ConnStatus.WithStatus;
  }

  /** Only the keys of the old state matter to a closing predicate. */
  lemma CloseSame<K>(old_: State<K>, delta: State<K>, f: K -> bool, g: K -> bool)
    requires forall k :: k in old_ ==> f(k) == g(k)
    ensures Kept(old_, f) == Kept(old_, g) && WithClosed(old_, delta, f) == WithClosed(old_, delta, g)
  {
    hide ConnStatus.WithStatus;
  }

  lemma CloseNone<K>(old_: State<K>, delta: State<K>, none: K -> bool)
    requires forall k :: k in old_ ==> !none(k)
    ensures Kept(old_, none) == old_ && WithClosed(old_, delta, none) == delta
  {
    hide ConnStatus.WithStatus;
  }

  ghost function Affected(s: Settings, changed: bool, enabled: bool, server: bool): Connection -> bool {
    (conn: Connection) => changed && conn.isServer == server && ShouldClose(s, conn, enabled)
  }

  ghost function ClosedBy(s: Settings, prev: ExternalIPs, now: ExternalIPs): Connection -> bool {
    (conn: Connection) => ClosedByChange(s, prev, now, conn)
  }

  /** Close the connections of one direction if its setting changed. */
  method CloseDirection(s: Settings, changed: bool, enabled: bool, server: bool, old_: State<Connection>,
                        delta: State<Connection>)
    returns (old': State<Connection>, delta': State<Connection>)
    ensures old' == Kept(old_, Affected(s, changed, enabled, server))
    ensures delta' == WithClosed(old_, delta, Affected(s, changed, enabled, server))
  {
    hide ShouldClose, Kept, WithClosed;
    if changed {
      var closes := (conn: Connection) => conn.isServer == server && ShouldClose(s, conn, enabled);
      old', delta' := CloseConnections(old_, delta, closes);
      CloseSame(old_, delta, closes, Affected(s, changed, enabled, server));
    } else {
      old', delta' := old_, delta;
      CloseNone(old_, delta, Affected(s, changed, enabled, server));
    }
  }

  /** `CloseConnectionsOnExternalIPsConfigChange`: egress first, then ingress. */
  method CloseOnConfigChange(s: Settings, prev: ExternalIPs, now: ExternalIPs, old_: State<Connection>,
                             delta: State<Connection>)
    returns (old': State<Connection>, delta': State<Connection>)
    ensures old' == Kept(old_, ClosedBy(s, prev, now))
    ensures delta' == WithClosed(old_, delta, ClosedBy(s, prev, now))
  {
    hide ShouldClose, Kept, WithClosed;
    old', delta' := CloseDirection(s, now.egress != prev.egress, now.egress, false, old_, delta);
    old', delta' := CloseDirection(s, now.ingress != prev.ingress, now.ingress, true, old', delta');
    CloseTwice(old_, delta, Affected(s, now.egress != prev.egress, now.egress, false),
               Affected(s, now.ingress != prev.ingress, now.ingress, true), ClosedBy(s, prev, now));
  }

  // ----- freshly normalised connections are not closed

  /** The address is reported as the known network that contains it. */
  predicate UsesKnownNetwork(s: Settings, a: Address) {
    !a.IsNull() && !KeepsAddress(s, a) && a !in s.knownPublicIPs && !FindNet(s.knownNetworks, HostNet(a)).IsNull()
  }

  /** The address belongs to no known network: it is the external-IPs case. */
  predicate FallsThrough(s: Settings, a: Address) {
    !a.IsNull() && !KeepsAddress(s, a) && a !in s.knownPublicIPs && FindNet(s.knownNetworks, HostNet(a)).IsNull()
  }

  lemma CanonicalAddresses()
    ensures IsCanonicalExternalIp(CANONICAL_V4) && IsCanonicalExternalIp(CANONICAL_V6)
    ensures !IsCanonicalExternalIp(NULL_ADDRESS)
  {
    var b := ByteBits(255);
    assert b == Fill(8, true);
    var hi := CANONICAL_V4.hi;
    assert hi[..32] == b + b + b + b;
  }

  /** Which address a connection is reported under. */
  lemma NormalizedAddress(s: Settings, a: Address, ext: bool)
    ensures var r := NormalizeAddress(s, a, ext).address;
            if a.IsNull() then r == NULL_ADDRESS
            else if UsesKnownNetwork(s, a) then r == FindNet(s.knownNetworks, HostNet(a)).address
            else if FallsThrough(s, a)
                && !ext then IsCanonicalExternalIp(r) || (a.family == UNKNOWN && r == NULL_ADDRESS)
            else r == a
  {
    hide IsPublic, FindNet, IsCanonicalExternalIp;
    CanonicalAddresses();
  }

  /** The network under which an address is reported, in full.  Null stays null.  Private
      addresses, those of networks that are not to be aggregated, and known public ones are
      reported as they are, with the length of their known network; for the first two it is
      0 if the flag says that no known network is private.  Others are reported as their
      known network if there is one.  The rest is external: each address by itself with its
      full length, or the all-ones address of the family with length 0. */
  lemma ReportedNetwork(s: Settings, a: Address, ext: bool)
    ensures var r, known := NormalizeAddress(s, a, ext), FindNet(s.knownNetworks, HostNet(a));
            var kept := !IsPublic(a) || !FindNet(s.nonAggregated, HostNet(a)).IsNull();
            var skipped := kept && a.family in s.knownPrivateExists && !s.knownPrivateExists[a.family];
            && (a.IsNull() ==> r == NULL_NET)
            && (!a.IsNull() && (kept || a in s.knownPublicIPs) ==>
                  r.address == a && r.isAddr && r.bits == if skipped then 0 else known.bits)
            && (!a.IsNull() && !kept && a !in s.knownPublicIPs && !known.IsNull() ==> r == known)
            && (!a.IsNull() && !kept && a !in s.knownPublicIPs && known.IsNull() && a.family != UNKNOWN ==>
                  r.address.family == a.family
                  && if ext then r.address == a && r.bits == 8 * Length(a.family) && !r.isAddr
                     else r.bits == 0 && r.isAddr && forall i :: 0 <= i < 8 * Length(a.family) ==> r.address.Bits()[i])
  {
    hide IsPublic, IsCanonicalExternalIp, Deepest;
    AllOnes();
  }

  lemma AllOnes()
    ensures forall i :: 0 <= i < 32 ==> CANONICAL_V4.Bits()[i]
    ensures forall i :: 0 <= i < 128 ==> CANONICAL_V6.Bits()[i]
  {
    CanonicalAddresses();
    var hi := CANONICAL_V4.hi;
    assert hi[..32] == Fill(32, true);
    assert forall i :: 0 <= i < 32 ==> hi[i] == hi[..32][i];
  }

  /** No network of the other family is a longer prefix of the address than the networks of
      its own, or there is none of these. */
  predicate Unhidden(nets: seq<IPNet>, a: Address) {
    var longest := Scan(nets, HostNet(a), true);
    longest.None? || longest.value.address.family == a.family || Scan(nets, HostNet(a), false).None?
  }

  /** The length of the known network is that of the longest listed network that contains
      the address. */
  lemma KnownLengthIsLongest(nets: seq<IPNet>, a: Address)
    requires a.family != UNKNOWN && Unhidden(nets, a)
    ensures var known := FindNet(Build(nets), HostNet(a));
            && (known.bits > 0 ==> known in nets && Contains(known, a))
            && (forall n :: n in nets && n.bits > 0 && Contains(n, a) ==> n.bits <= known.bits)
  {
    hide Contains, Build, Scan;
    var q := HostNet(a);
    MixedFamilyMatch(nets, q);
    ScanIsFirstLongest(nets, q, false);
    forall i | 0 <= i < |nets|
      ensures Covers(nets[i], q, false) <==> 1 <= nets[i].bits <= q.bits && Contains(nets[i], a)
    {
      CoversIsContains(nets[i], q);
    }
    forall n | n in nets && Contains(n, a) ensures n.bits <= q.bits {
      ContainsIsPrefix(n, a);
    }
  }

  lemma NullIsNotCanonical(a: Address)
    requires a.IsNull()
    ensures !IsCanonicalExternalIp(a)
  {
    if a.family == IPV4 {
      assert a.hi[..32][0] == a.hi[0] && Fill(32, true)[0];
    } else if a.family == IPV6 {
      assert !a.hi[0] && ALL[0];
    }
  }

  /** Enabling closes what is reported under the canonical address: here, that of the
      known network or of the connection itself. */
  predicate ClosedOnEnabling(s: Settings, a: Address) {
    IsCanonicalExternalIp(if UsesKnownNetwork(s, a) then FindNet(s.knownNetworks, HostNet(a)).address else a)
  }

  /** Disabling closes what would now be normalised: here, a connection reported as a
      known network whose own address is not found in that network, but in none or in
      one at the canonical address. */
  predicate ClosedOnDisabling(s: Settings, a: Address) {
    UsesKnownNetwork(s, a)
    && var net := FindNet(s.knownNetworks, HostNet(a)).address;
       !IsCanonicalExternalIp(net)
       && ((FallsThrough(s, net) && net.family != UNKNOWN)
           || (UsesKnownNetwork(s, net) && IsCanonicalExternalIp(FindNet(s.knownNetworks, HostNet(net)).address)))
  }

  lemma EnablingClosesFreshIff(s: Settings, ext: ExternalIPs, conn: Connection)
    ensures var normal := NormalizeConnection(s, ext, conn);
            ext.Enabled(normal.isServer) ==>
                (ShouldClose(s, normal, true) <==> ClosedOnEnabling(s, conn.RemoteAddress()))
  {
    hide IsPublic, FindNet, IsCanonicalExternalIp, UsesKnownNetwork, FallsThrough, NormalizeAddress;
    var a := conn.RemoteAddress();
    NormalizedAddress(s, a, true);
    if a.IsNull() {
      NullIsNotCanonical(a);
      NullIsNotCanonical(NULL_ADDRESS);
      NullNotKnown(s, a);
    }
  }

  lemma NullNotKnown(s: Settings, a: Address)
    requires a.IsNull()
    ensures !UsesKnownNetwork(s, a) && !FallsThrough(s, a)
  {
  }

  lemma DisablingClosesFreshIff(s: Settings, ext: ExternalIPs, conn: Connection)
    ensures var normal := NormalizeConnection(s, ext, conn);
            !ext.Enabled(normal.isServer) ==>
                (ShouldClose(s, normal, false) <==> ClosedOnDisabling(s, conn.RemoteAddress()))
  {
    hide IsPublic, FindNet, IsCanonicalExternalIp, UsesKnownNetwork, FallsThrough, NormalizeAddress;
    var a := conn.RemoteAddress();
    var normal := NormalizeConnection(s, ext, conn);
    if !ext.Enabled(normal.isServer) {
      NormalizedAddress(s, a, false);
      var r := NormalizeAddress(s, a, false).address;
      assert normal.RemoteAddress() == r;
      KnownOrNot(s, a);
      if a.IsNull() {
        NullNotKnown(s, a);
      }
      if !IsCanonicalExternalIp(r) {
        RenormalizedIff(s, r);
        if r.IsNull() {
          NullNotKnown(s, r);
        }
      }
    }
  }

  lemma KnownOrNot(s: Settings, a: Address)
    ensures !(UsesKnownNetwork(s, a) && FallsThrough(s, a))
  {
  }

  /** When an address that is not the canonical one is normalised to it. */
  lemma RenormalizedIff(s: Settings, a: Address)
    requires !IsCanonicalExternalIp(a)
    ensures IsCanonicalExternalIp(NormalizeAddress(s, a, false).address) <==>
              (FallsThrough(s, a) && a.family != UNKNOWN)
              || (UsesKnownNetwork(s, a) && IsCanonicalExternalIp(FindNet(s.knownNetworks, HostNet(a)).address))
  {
    hide IsPublic, FindNet, IsCanonicalExternalIp;
    CanonicalAddresses();
  }

  predicate ClosedAtOnce(s: Settings, prev: ExternalIPs, now: ExternalIPs, conn: Connection) {
    var server, a := ServerRole(conn), conn.RemoteAddress();
    now.Enabled(server) != prev.Enabled(server)
    && if now.Enabled(server) then ClosedOnEnabling(s, a) else ClosedOnDisabling(s, a)
  }

  /** Exactly when a freshly normalised connection satisfies the closing predicate. */
  lemma FreshIsClosedIff(s: Settings, prev: ExternalIPs, now: ExternalIPs, conn: Connection)
    ensures ClosedByChange(s, prev, now, NormalizeConnection(s, now, conn)) <==> ClosedAtOnce(s, prev, now, conn)
  {
    hide ShouldClose, ClosedOnEnabling, ClosedOnDisabling, NormalizeAddress;
    EnablingClosesFreshIff(s, now, conn);
    DisablingClosesFreshIff(s, now, conn);
  }

  lemma FoundIsStored(c: Contents, q: IPNet)
    requires Keyed(c) && [] !in c && !FindNet(c, q).IsNull()
    ensures var v := FindNet(c, q); v.bits >= 1 && Key(v) in c && c[Key(v)] == v
  {
    var path := Key(q);
    DeepestMeaning(c, path, |path|);
    var v := FindNet(c, q);
    assert Key(v) == path[..v.bits];
    assert path[..0] == [];
  }

  /** An address is only ever reported under a network that contains it, unless the
      network has length zero; and a reported address is its own or the canonical. */
  lemma ReportedNetworkContains(s: Settings, a: Address, ext: bool)
    requires Keyed(s.knownNetworks) && [] !in s.knownNetworks
    ensures var net := NormalizeAddress(s, a, ext);
            && (net.bits > 0 ==> Contains(net, a))
            && (net.isAddr && !UsesKnownNetwork(s, a) ==> net.address == a || IsCanonicalExternalIp(net.address))
            && (ext && !a.IsNull() && !UsesKnownNetwork(s, a) ==> net.address == a)
  {
    hide IsPublic, Contains, IsCanonicalExternalIp, FindNet;
    NormalizedAddress(s, a, ext);
    var net, found := NormalizeAddress(s, a, ext), FindNet(s.knownNetworks, HostNet(a));
    if UsesKnownNetwork(s, a) {
      FoundContains(s.knownNetworks, a);
    } else if net.bits > 0 {
      ContainsIsPrefix(net, a);
    }
  }

  lemma FoundContains(c: Contents, a: Address)
    requires Keyed(c) && [] !in c && !FindNet(c, HostNet(a)).IsNull()
    ensures Contains(FindNet(c, HostNet(a)), a)
  {
    hide Contains;
    var q := HostNet(a);
    var path, v := Key(q), FindNet(c, q);
    DeepestMeaning(c, path, |path|);
    assert Key(v) == path[..v.bits] && path <= a.Bits();
    ContainsIsPrefix(v, a);
  }

  // ----- normal forms

  /** The server role that a normal form shows.  For UDP it is that of the end whose peer has
      the port from the likelier ephemeral range: 49152 and up, then 32768 and up, then 1025
      to 5000, then 1024. */
  lemma RoleByPorts(s: Settings, ext: ExternalIPs, conn: Connection)
    ensures var r, l, server := conn.remote.port, conn.local.port, NormalizeConnection(s, ext, conn).isServer;
            if conn.l4proto != UDP then server == conn.isServer
            else
              server <==> (r >= 49152 && l < 49152) || (r >= 32768 && l < 32768)
                          || (1025 <= r <= 5000 && (l < 1025 || 5000 < l < 32768))
                          || (r == 1024 && (l < 1024 || 5000 < l < 32768))
  {
    hide NormalizeAddress;
  }

  /** What a normal form is made of.  A server shows its local port and a client the remote
      one; the other port is 0, and the local address is not shown. */
  lemma NormalForm(s: Settings, ext: ExternalIPs, conn: Connection)
    ensures var normal := NormalizeConnection(s, ext, conn);
            var setting := if normal.isServer then ext.ingress else ext.egress;
            && normal.container == conn.container && normal.l4proto == conn.l4proto
            && normal.remote.network == NormalizeAddress(s, conn.RemoteAddress(), setting)
            && normal.local.network.IsNull() && (normal.local.network.isAddr <==> normal.isServer)
            && normal.local.port == (if normal.isServer then conn.local.port else 0)
            && normal.remote.port == (if normal.isServer then 0 else conn.remote.port)
  {
    hide NormalizeAddress;
  }

  /** What the closing on a change is for: a connection whose normal form changes is closed
      under its old one, except that one to the all-ones address itself is not when external
      addresses are disabled (nor is one without a family). */
  lemma StaleFormIsClosedIff(s: Settings, prev: ExternalIPs, now: ExternalIPs, conn: Connection)
    requires NormalizeConnection(s, prev, conn) != NormalizeConnection(s, now, conn)
    ensures ClosedByChange(s, prev, now, NormalizeConnection(s, prev, conn)) <==>
              conn.RemoteAddress().family != UNKNOWN
              && (now.Enabled(ServerRole(conn)) || !IsCanonicalExternalIp(conn.RemoteAddress()))
  {
    hide NormalizeAddress, IsCanonicalExternalIp;
    var server, a := ServerRole(conn), conn.RemoteAddress();
    assert NormalizeAddress(s, a, prev.Enabled(server)) != NormalizeAddress(s, a, now.Enabled(server));
    StaleAddress(s, a);
  }

  /** An address whose reported network depends on the setting is external: itself with the
      setting on, the canonical one of its family with the setting off. */
  lemma StaleAddress(s: Settings, a: Address)
    requires NormalizeAddress(s, a, true) != NormalizeAddress(s, a, false)
    ensures NormalizeAddress(s, a, true).address == a
    ensures IsCanonicalExternalIp(NormalizeAddress(s, a, false).address) <==> a.family != UNKNOWN
    ensures a.family == UNKNOWN ==> !IsCanonicalExternalIp(a)
  {
    hide IsPublic, FindNet;
    CanonicalAddresses();
  }

  /** Two connections that are reported as one: same container, protocol and role, the
      same reported remote network, and the same local port of a server or remote port
      of a client. */
  predicate Alike(s: Settings, ext: ExternalIPs, c: Connection, d: Connection) {
    var server := ServerRole(c);
    && c.container == d.container && c.l4proto == d.l4proto && server == ServerRole(d)
    && NormalizeAddress(s, c.RemoteAddress(), ext.Enabled(server))
         == NormalizeAddress(s, d.RemoteAddress(), ext.Enabled(server))
    && (if server then c.local.port == d.local.port else c.remote.port == d.remote.port)
  }

  lemma NormalFormIdentifies(s: Settings, ext: ExternalIPs, c: Connection, d: Connection)
    ensures NormalizeConnection(s, ext, c) == NormalizeConnection(s, ext, d) <==> Alike(s, ext, c, d)
  {
    hide NormalizeAddress;
  }

  /** No stored network has, deeper on the path of its own address, a network of
      the other family. */
  ghost predicate NoForeignBelow(c: Contents) {
    forall p, q :: p in c && q in c && c[p].bits < c[q].bits && q <= Key(HostNet(c[p].address)) ==>
      c[p].address.family == c[q].address.family
  }

  /** The known networks as the tree holds them, none of them at the canonical
      address and none behind a network of the other family. */
  ghost predicate WellSeparated(s: Settings) {
    Keyed(s.knownNetworks) && [] !in s.knownNetworks
    && (forall p :: p in s.knownNetworks ==> !IsCanonicalExternalIp(s.knownNetworks[p].address))
    && NoForeignBelow(s.knownNetworks)
  }

  /** Known networks of one family, none at the canonical address, are separated. */
  lemma OneFamilyIsSeparated(s: Settings, nets: seq<IPNet>, f: Family)
    requires s.knownNetworks == Build(nets)
    requires forall n :: n in nets ==> n.address.family == f && !IsCanonicalExternalIp(n.address)
    ensures WellSeparated(s)
  {
    hide IsCanonicalExternalIp, Build;
    BuildIsKeyed(nets);
  }

  /** The own address of a known network does not fall through to the canonical
      one. */
  lemma KnownNetworkStays(s: Settings, v: IPNet)
    requires WellSeparated(s) && v.bits >= 1 && Key(v) in s.knownNetworks && s.knownNetworks[Key(v)] == v
    ensures !IsCanonicalExternalIp(NormalizeAddress(s, v.address, false).address)
  {
    hide IsPublic, IsCanonicalExternalIp, NormalizeAddress;
    var c, q := s.knownNetworks, HostNet(v.address);
    NormalizedAddress(s, v.address, false);
    CanonicalAddresses();
    OwnAddressLookup(c, v);
    var path := Key(q);
    DeepestMeaning(c, path, |path|);
    var w := Deepest(c, path).value;
    assert Key(w) == path[..w.bits] && c[Key(w)] == w && c[Key(v)] == v;
    assert !FindNet(c, q).IsNull();
    FoundIsStored(c, q);
  }

  /** No freshly normalised connection satisfies the closing predicate, provided
      that its remote address is not the canonical one. */
  lemma FreshIsNotClosed(s: Settings, prev: ExternalIPs, now: ExternalIPs, conn: Connection)
    requires WellSeparated(s) && !IsCanonicalExternalIp(conn.RemoteAddress())
    ensures !ClosedByChange(s, prev, now, NormalizeConnection(s, now, conn))
  {
    hide IsPublic, IsCanonicalExternalIp, NormalizeAddress, FindNet, ClosedByChange;
    var a := conn.RemoteAddress();
    FreshIsClosedIff(s, prev, now, conn);
    if UsesKnownNetwork(s, a) {
      var net := FindNet(s.knownNetworks, HostNet(a));
      FoundIsStored(s.knownNetworks, HostNet(a));
      KnownNetworkStays(s, net);
      if !IsCanonicalExternalIp(net.address) {
        RenormalizedIff(s, net.address);
      }
    }
  }

  // ----- a known network that is closed although it is fresh

  /** A network of the other family, longer than a known network and on the path of its
      own address, makes that address fall through; every address of the known network
      that it does not cover is then closed on disabling. */
  lemma HiddenNetworkIsClosed(s: Settings, own: IPNet, foreign: IPNet, a: Address)
    requires s.knownNetworks == Build([own, foreign]) && s.nonAggregated == map[] && s.knownPublicIPs == {}
    requires 1 <= own.bits < foreign.bits && own.address.family == a.family != foreign.address.family
    requires Key(own) <= Key(foreign) <= Key(HostNet(own.address)) && own.address.family != UNKNOWN
    requires Key(own) <= Key(HostNet(a)) && !(Key(foreign) <= Key(HostNet(a)))
    requires IsPublic(a) && IsPublic(own.address) && !a.IsNull() && !own.address.IsNull()
             && !IsCanonicalExternalIp(own.address)
    ensures FindNet(s.knownNetworks, HostNet(a)) == own
    ensures UsesKnownNetwork(s, a) && ClosedOnDisabling(s, a)
  {
    hide IsPublic, Contains, IsCanonicalExternalIp, Build, FindNet;
    var q := HostNet(own.address);
    HiddenBehind(own, foreign, q);
    FoundAlone(own, foreign, HostNet(a));
    NothingStored(HostNet(a));
    NothingStored(q);
  }

  lemma NothingStored(q: IPNet)
    ensures FindNet(map[], q) == NULL_NET
  {
    DeepestMeaning(map[], Key(q), |Key(q)|);
  }

  lemma FoundAlone(own: IPNet, foreign: IPNet, q: IPNet)
    requires 1 <= own.bits < foreign.bits && own.address.family == q.address.family
    requires Key(own) <= Key(q) && !(Key(foreign) <= Key(q))
    ensures FindNet(Build([own, foreign]), q) == own
  {
    BuildTwo(own, foreign);
    var c, path := Build([own, foreign]), Key(q);
    DeepestMeaning(c, path, |path|);
    assert path[..own.bits] == Key(own);
    var d := Deepest(c, path);
    assert d.Some? && path[..d.value.bits] <= path;
  }

  const OWN: IPNet := MakeNet(V4(48, 0, 0, 0), 8, false)
  const FOREIGN: IPNet := MakeNet(V6(48, 0), 16, false)
  const REMOTE: Address := V4(48, 8, 8, 8)

  /** 48.0.0.0/8 and 3000::/16 known: a connection to 48.8.8.8 is reported as
      48.0.0.0/8, and that is closed when external addresses are disabled. */
  lemma LiveConnectionIsClosed(s: Settings)
    requires s.knownNetworks == Build([OWN, FOREIGN]) && s.nonAggregated == map[] && s.knownPublicIPs == {}
    ensures FindNet(s.knownNetworks, HostNet(REMOTE)) == OWN
    ensures UsesKnownNetwork(s, REMOTE) && ClosedOnDisabling(s, REMOTE)
  {
    hide ByteBits, IsPublic, Build, LooksV4, ClosedOnDisabling, UsesKnownNetwork, FindNet;
    var b, z, e := ByteBits(48), ByteBits(0), ByteBits(8);
    FirstByteOf48();
    assert Key(OWN) == b && Key(FOREIGN) == b + z;
    assert Key(HostNet(OWN.address)) == b + z + (z + z);
    assert Key(HostNet(REMOTE)) == b + e + (e + e);
    assert (b + e + (e + e))[12] == e[4] && (b + z)[12] == z[4];
    assert OWN.address.hi[..8] == b && REMOTE.hi[..8] == b;
    assert OWN.address.hi[2] == b[2] && REMOTE.hi[2] == b[2];
    assert OWN.address.hi[..32][0] == b[0];
    PublicByFirstByte(OWN.address);
    PublicByFirstByte(REMOTE);
    HiddenNetworkIsClosed(s, OWN, FOREIGN, REMOTE);
  }

  lemma FirstByteOf48()
    ensures !LooksV4(ByteBits(48)) && ByteBits(48)[2] && !ByteBits(48)[0]
    ensures ByteBits(8)[4] && !ByteBits(0)[4]
  {
    hide ByteBits;
    BitsOfByte(48);
    BitsOfByte(8);
    BitsOfByte(0);
  }

  // ----- the flag for known private networks

  /** The flags are what `UpdateKnownIPNetworks` computes from the known networks. */
  ghost predicate HonestFlags(s: Settings) {
    forall f :: f in s.knownPrivateExists ==> (s.knownPrivateExists[f] <==> TouchesPrivate(f, s.knownNetworks))
  }

  /** For private addresses the flag only saves a lookup that finds nothing: they are
      always reported with the length of the known network that contains them. */
  lemma PrivateKeepsNetwork(s: Settings, a: Address, ext: bool)
    requires HonestFlags(s) && Stocked(s.knownNetworks) && !IsPublic(a) && !a.IsNull()
    ensures NormalizeAddress(s, a, ext) == MakeNet(a, FindNet(s.knownNetworks, HostNet(a)).bits, true)
  {
    hide IsPublic, FindNet, TouchesPrivate;
    if a.family in s.knownPrivateExists && !s.knownPrivateExists[a.family] {
      ShortcutFindsNothing(s.knownNetworks, a);
    }
  }

  /** For public addresses that are to be reported one by one it does more: they lose
      the length of their network exactly when there is a flag for the family and no known
      network of it is private. */
  lemma NonAggregatedKeepsNetworkIff(s: Settings, a: Address, ext: bool)
    requires HonestFlags(s) && Stocked(s.knownNetworks) && KeepsAddress(s, a) && !a.IsNull()
    ensures NormalizeAddress(s, a, ext) == MakeNet(a, FindNet(s.knownNetworks, HostNet(a)).bits, true) <==>
              a.family !in s.knownPrivateExists || TouchesPrivate(a.family, s.knownNetworks)
              || FindNet(s.knownNetworks, HostNet(a)).IsNull()
  {
    hide IsPublic, TouchesPrivate;
    if !FindNet(s.knownNetworks, HostNet(a)).IsNull() {
      FoundIsStored(s.knownNetworks, HostNet(a));
    }
  }

  /** 48.0.0.0/8 known and 48.8.8.0/24 not to be aggregated: 48.8.8.8 is reported with
      length 0, not 8. */
  lemma NonAggregatedLosesNetwork(s: Settings, ext: bool)
    requires HonestFlags(s) && IPV4 in s.knownPrivateExists
    requires s.knownNetworks == Build([OWN]) && s.nonAggregated == Build([MakeNet(V4(48, 8, 8, 0), 24, false)])
    ensures FindNet(s.knownNetworks, HostNet(REMOTE)) == OWN
            && NormalizeAddress(s, REMOTE, ext) == MakeNet(REMOTE, 0, true)
  {
    hide ByteBits, IsPublic, Build, LooksV4, TouchesPrivate, FindNet;
    var single, b, e := MakeNet(V4(48, 8, 8, 0), 24, false), ByteBits(48), ByteBits(8);
    FirstByteOf48();
    assert Key(OWN) == b && Key(single) == b + e + e && Key(HostNet(REMOTE)) == b + e + e + e;
    assert REMOTE.hi[2] == b[2];
    BuildOne(OWN);
    FindsOnly(OWN, HostNet(REMOTE));
    FindsOnly(single, HostNet(REMOTE));
    FarFromPrivate(s.knownNetworks);
  }

  lemma FindsOnly(net: IPNet, q: IPNet)
    requires net.bits >= 1 && Key(net) <= Key(q) && net.address.family == q.address.family
    ensures FindNet(Build([net]), q) == net
  {
    BuildOne(net);
    DeepestMeaning(Build([net]), Key(q), |Key(q)|);
    assert Key(q)[..net.bits] == Key(net);
  }
}
