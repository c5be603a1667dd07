/** Sessions that show what the end-to-end theorems exclude: a connection that is closed
    for good while it is open, one that a scrape finds and no message opens, and one that
    is closed before its time. */
module LostConnections {
  import opened Wrappers
  import opened Addresses
  import opened Lookup
  import opened Radix
  import opened Status
  import opened Delta
  import opened Runs
  import opened Normalization
  import opened Tracker
  import opened Observations
  import opened Notifier
  import opened Sessions
  import opened EndToEnd
  import opened KernelToConsumer

  const LIVE: Connection := Connection("c", Endpoint(NULL_NET, 0), Endpoint(HostNet(REMOTE), 443), TCP, false)

  const ON: ExternalIPs := ExternalIPs(true, true)
  const OFF: ExternalIPs := ExternalIPs(false, false)
  const EMPTY: Tables := Tables(map[], map[])

  function Unfiltered(s: Settings, ext: ExternalIPs): Config {
    Config(s, ext, {}, map[])
  }

  // ----- disabling external addresses

  /** A round at time `t` whose scrape finds just this connection. */
  function Round48(s: Settings, ext: ExternalIPs, limit: int, t: Micros): Cycle {
    Fetch([], Some(Scraping([LIVE], [], t)), [], Unfiltered(s, ext), limit, t)
  }

  /** Rounds that all find it, external addresses being disabled after the first. */
  function Rounds48(s: Settings, limits: seq<int>, times: seq<Micros>): (cycles: seq<Cycle>)
    requires |limits| == |times|
    ensures |cycles| == |times|
  {
    if times == [] then []
    else
      var n := |times| - 1;
      Rounds48(s, limits[..n], times[..n]) + [Round48(s, if n == 0 then ON else OFF, limits[n], times[n])]
  }

  ghost predicate Rising(times: seq<Micros>) {
    forall i, j :: 0 <= i < j < |times| ==> times[i] < times[j]
  }

  predicate Known48(s: Settings) {
    s.knownNetworks == Build([OWN, FOREIGN]) && s.nonAggregated == map[] && s.knownPublicIPs == {}
  }

  /** 48.0.0.0/8 and 3000::/16 are known, and a connection to 48.8.8.8 is found by every
      scrape.  External addresses are disabled after the first.  The second message then
      closes the connection although it is open, and no later message opens it again, for
      any number of rounds, any period and any limits. */
  lemma LiveConnectionIsLost(settings: Settings, period: int, limits: seq<int>, times: seq<Micros>, s: Session)
    requires Known48(settings) && |limits| == |times| >= 2 && Rising(times)
    requires IsSession(Params(true, period, 0, ON), EMPTY, Rounds48(settings, limits, times), s)
    ensures var k := NormalizeConnection(settings, OFF, LIVE);
            k in RecentKeys(s.old_, s.last, period) && k !in Replay(ConnReports(s.sent))
  {
    hide ConnStatus.IsActive, NormalizeConnection, SnapshotsOf, Build, ConnReports, EndpointReports, Replay, Due,
      PlainDue, Run, RecentKeys, AllCut, Rounds48, Rising;
    var k := NormalizeConnection(settings, OFF, LIVE);
    AllHeld(settings, limits, times, s.h, s.eps);
    CutIsLimited(ConnReports(s.sent), Due(0, s.h, period), LimitsOf(Rounds48(settings, limits, times)));
    ClosingFreshKeyBreaksReplay(0, s.h, period, k, ConnReports(s.sent));
    LastTime(0, s.h, period);
  }

  /** The name under which the connection is reported. */
  function Name48(s: Settings): Connection {
    NormalizeConnection(s, OFF, LIVE)
  }

  ghost predicate HeldAndClosed(h: seq<Scrape<Connection>>, k: Connection) {
    (forall i :: 0 <= i < |h| ==> Shown(h[i], k)) && (|h| >= 2 ==> h[1].closes(k))
  }

  ghost predicate Shown(x: Scrape<Connection>, k: Connection) {
    k in x.snap && x.snap[k].IsActive()
  }

  /** Every snapshot shows the connection as active, and the second scrape closes it. */
  lemma {:induction false} AllHeld(s: Settings, limits: seq<int>, times: seq<Micros>, h: seq<Scrape<Connection>>,
                                   eps: seq<State<AdvertisedEndpoint>>)
    requires Known48(s) && |limits| == |times| && Rising(times)
    requires SnapshotsOf(EMPTY, Rounds48(s, limits, times), ON, h, eps)
    ensures |h| == |times| && HeldAndClosed(h, Name48(s))
  {
    hide Shown, HeldAndClosed, Name48, ScrapeOf, AfterCycles, LastSetting, Known48, SnapshotsOf, Round48, Rounds48;
    Rounds48Unfold(s, limits, times);
    if times == [] {
      NoSnapshots(h, eps, Name48(s));
    } else {
      var n := |times| - 1;
      var before := Rounds48(s, limits[..n], times[..n]);
      SnapshotsLast(EMPTY, before, Round48(s, if n == 0 then ON else OFF, limits[n], times[n]), ON, h, eps);
      AllHeld(s, limits[..n], times[..n], h[..|h| - 1], eps[..|eps| - 1]);
      LastIsHeld(s, limits, times, h[|h| - 1]);
      HeldSnoc(h, Name48(s));
    }
  }

  lemma Rounds48Unfold(s: Settings, limits: seq<int>, times: seq<Micros>)
    requires |limits| == |times|
    ensures Rounds48(s, limits, times)
              == if times == [] then []
                 else
                   var n := |times| - 1;
                   Rounds48(s, limits[..n], times[..n]) + [Round48(s, if n == 0 then ON else OFF, limits[n], times[n])]
    ensures forall t: Micros, ext, limit :: Round48(s, ext, limit, t).Fetch?
  {
  }

  lemma NoSnapshots(h: seq<Scrape<Connection>>, eps: seq<State<AdvertisedEndpoint>>, k: Connection)
    requires SnapshotsOf(EMPTY, [], ON, h, eps)
    ensures h == [] && HeldAndClosed(h, k)
  {
  }

  lemma HeldSnoc(h: seq<Scrape<Connection>>, k: Connection)
    requires h != [] && HeldAndClosed(h[..|h| - 1], k) && Shown(h[|h| - 1], k) && (|h| == 2 ==> h[1].closes(k))
    ensures HeldAndClosed(h, k)
  {
    hide Shown;
    var before := h[..|h| - 1];
    assert forall i :: 0 <= i < |before| ==> before[i] == h[i];
  }

  lemma LastIsHeld(s: Settings, limits: seq<int>, times: seq<Micros>, x: Scrape<Connection>)
    requires Known48(s) && |limits| == |times| > 0 && Rising(times)
    requires var n := |times| - 1;
             var before := Rounds48(s, limits[..n], times[..n]);
             ScrapeOf(AfterCycles(EMPTY, before), Round48(s, if n == 0 then ON else OFF, limits[n], times[n]),
                 LastSetting(before, ON), x)
    ensures Shown(x, Name48(s)) && (|times| == 2 ==> x.closes(Name48(s)))
  {
    hide ConnStatus.IsActive, ConnStatus.LastActiveTime, NormalizeConnection, Build, ScrapeOf, AfterCycles, LastSetting,
      Rounds48, Known48;
    var n := |times| - 1;
    var before := Rounds48(s, limits[..n], times[..n]);
    SettingBefore(s, limits[..n], times[..n]);
    LiveStays(s, limits[..n], times[..n]);
    SameName(s);
    var ext := if n == 0 then ON else OFF;
    LiveIsHeld(s, ext, limits[n], AfterCycles(EMPTY, before), times[n], LastSetting(before, ON), x);
    if n == 1 {
      LiveIsClosed(s, limits[n], AfterCycles(EMPTY, before), times[n], x);
    }
  }

  lemma SettingBefore(s: Settings, limits: seq<int>, times: seq<Micros>)
    requires |limits| == |times|
    ensures |times| <= 1 ==> LastSetting(Rounds48(s, limits, times), ON) == ON
  {
  }

  /** The table keeps the connection from round to round. */
  lemma {:induction false} LiveStays(s: Settings, limits: seq<int>, times: seq<Micros>)
    requires |limits| == |times| && Rising(times)
    ensures var conns := AfterCycles(EMPTY, Rounds48(s, limits, times)).conns;
            if times == [] then conns == map[]
            else LIVE in conns && conns[LIVE].LastActiveTime() == times[|times| - 1]
  {
    hide ConnStatus.IsActive, ConnStatus.LastActiveTime, AfterCycle;
    if times != [] {
      var n := |times| - 1;
      var cycles, before := Rounds48(s, limits, times), Rounds48(s, limits[..n], times[..n]);
      assert cycles[..n] == before;
      LiveStays(s, limits[..n], times[..n]);
      assert n > 0 ==> times[n - 1] < times[n];
      LiveIsLeft(s, AfterCycles(EMPTY, before), if n == 0 then ON else OFF, limits[n], times[n]);
    }
  }

  /** The setting does not change the name of a connection in a known network. */
  lemma SameName(s: Settings)
    requires Known48(s)
    ensures NormalizeConnection(s, ON, LIVE) == NormalizeConnection(s, OFF, LIVE)
  {
    hide Build, FindNet, KeepsAddress;
    LiveConnectionIsClosed(s);
  }

  lemma LiveIsClosed(s: Settings, limit: int, t: Tables, ts: Micros, x: Scrape<Connection>)
    requires Known48(s) && ScrapeOf(t, Round48(s, OFF, limit, ts), ON, x)
    ensures x.closes(NormalizeConnection(s, OFF, LIVE))
  {
    hide Build, NormalizeConnection, ClosedByChange, ClosedOnDisabling, IsFetched, Fetched;
    LiveConnectionIsClosed(s);
    FreshIsClosedIff(s, ON, OFF, LIVE);
  }

  /** The live connection is in the table of a round, active, and so in the snapshot. */
  lemma LiveIsHeld(s: Settings, ext: ExternalIPs, limit: int, t: Tables, ts: Micros, prev: ExternalIPs,
                   x: Scrape<Connection>)
    requires ScrapeOf(t, Round48(s, ext, limit, ts), prev, x)
    requires LIVE in t.conns ==> t.conns[LIVE].LastActiveTime() < ts
    ensures var k := NormalizeConnection(s, ext, LIVE); k in x.snap && x.snap[k].IsActive()
  {
    hide ConnStatus.IsActive, ConnStatus.LastActiveTime, NormalizeConnection, Fetchable;
    var c := Round48(s, ext, limit, ts);
    var table := Fetched(t, c).conns;
    LiveIsActive(s, t, ext, limit, ts);
    NoFilterFetchesAll(LIVE);
    var k := NormalizeConnection(s, ext, LIVE);
    assert c.config.Name()(LIVE) == k;
    FetchedStatus(table, c.config.Keep(), c.config.Name(), x.snap, k);
    assert IsPreimage(table, c.config.Keep(), c.config.Name(), LIVE, k);
  }

  lemma LiveIsActive(s: Settings, t: Tables, ext: ExternalIPs, limit: int, ts: Micros)
    requires LIVE in t.conns ==> t.conns[LIVE].LastActiveTime() < ts
    ensures var table := Fetched(t, Round48(s, ext, limit, ts)).conns;
            LIVE in table && table[LIVE].IsActive() && table[LIVE].LastActiveTime() == ts
  {
    hide ConnStatus.IsActive, ConnStatus.LastActiveTime, Scraped;
    ScrapeMeaning(t.conns, [LIVE], ts, LIVE);
    NoEvents(t.conns);
    NoEvents(Scraped(t.conns, [LIVE], ts));
  }

  lemma LiveIsLeft(s: Settings, t: Tables, ext: ExternalIPs, limit: int, ts: Micros)
    requires LIVE in t.conns ==> t.conns[LIVE].LastActiveTime() < ts
    ensures var left := AfterCycle(t, Round48(s, ext, limit, ts)).conns;
            LIVE in left && left[LIVE].LastActiveTime() == ts
  {
    hide ConnStatus.IsActive, ConnStatus.LastActiveTime, Fetched;
    LiveIsActive(s, t, ext, limit, ts);
  }

  // ----- an event that overtakes the scrape

  /** The scrape begins at 2, the connection is opened at 3, and the event arrives before
      what the scrape has found. */
  function Overtaken(config: Config, limit: int): Cycle {
    Fetch([Event(LIVE, NewStatus(3, true))], Some(Scraping([LIVE], [], 2)), [], config, limit, 4)
  }

  lemma OneRound(c: Cycle)
    requires c.Fetch?
    ensures RoundsOf([c]) == [Round(c.events, ConnSweep(c.scraping), c.late, c.time)]
            && LastConfig([c]) == Some(c.config)
  {
    assert [c][..0] == [];
    assert PendingEvents([c][..0]) + c.events == c.events;
  }

  /** The open connection is found by the scrape, and told by an event, but the table holds
      it as inactive and drops it; without afterglow the consumer never hears of it. */
  lemma OvertakenConnectionIsLost(period: int, start: int, first: ExternalIPs, config: Config, limit: int, s: Session)
    requires IsSession(Params(false, period, start, first), EMPTY, [Overtaken(config, limit)], s)
    ensures Replay(ConnReports(s.sent)) == {}
    ensures var rounds := RoundsOf([Overtaken(config, limit)]);
            rounds != [] && rounds[0].sweep.Some? && LIVE in rounds[0].sweep.value.seen
                && !LiveAt(EMPTY.conns, rounds, LIVE)
  {
    hide IsSession, Replay, Goal, ConnReports, LiveAt, RoundsOf, LastConfig;
    var c, p := Overtaken(config, limit), Params(false, period, start, first);
    var rounds := RoundsOf([c]);
    OneRound(c);
    forall d ensures !LiveAt(EMPTY.conns, rounds, d) {
      NeverLive(rounds, d);
    }
    forall k ensures k !in Goal(p, s) {
      PlainGoalIsLive(p, EMPTY, [c], s, k);
    }
    NoZombies(p, EMPTY, [c], s);
  }

  lemma NeverLive(rounds: seq<Round<Connection>>, d: Connection)
    requires rounds == [Round([Event(LIVE, NewStatus(3, true))], Some(Sweep([LIVE], 2)), [], 4)]
    ensures !LiveAt(map[], rounds, d)
  {
    hide ConnStatus.LastActiveTime, ConnStatus.IsActive, NewStatus, ApplyEvents, Scraped;
    PackingKeepsBoth(3, true);
    var r, event := rounds[0], Event(LIVE, NewStatus(3, true));
    assert r.events[0] == event && event in r.events;
  }

  // ----- an event that arrives too late

  /** A round whose scrape finds nothing, after an event that the connection was closed at
      time `t`. */
  function Closed48(config: Config, limit: int, t: Micros, time: Micros): Cycle {
    Fetch([Event(LIVE, NewStatus(t, false))], Some(Scraping([], [], time)), [], config, limit, time)
  }

  /** A closing at 10 is reported at 10; then one at 2 arrives.  At 11 the consumer is told
      that the connection has been closed for longer than the period of 5, although it was
      observed at 10. */
  lemma OldEventEndsAfterglow(start: int, config: Config, limits: (int, int), s: Session)
    requires var cycles := [Closed48(config, limits.0, 10, 10), Closed48(config, limits.1, 2, 11)];
             IsSession(Params(true, 5, start, config.externalIPs), EMPTY, cycles, s)
    requires start <= 10 && config.Keep()(LIVE)
    ensures var cycles := [Closed48(config, limits.0, 10, 10), Closed48(config, limits.1, 2, 11)];
            var k := config.Name()(LIVE);
            && k !in Replay(ConnReports(s.sent))
            && RoundsOf(cycles) != [] && Observed(EMPTY.conns, RoundsOf(cycles), LIVE, 10)
            && Outdated(EMPTY.conns, RoundsOf(cycles), config.Keep(), config.Name(), s.h, 5, k)
  {
    hide IsSession, Replay, Goal, ConnReports, Outdated, RoundsOf, LastConfig, Fetchable, Normalizer, LiveAs,
      LiveOrRecent;
    var p := Params(true, 5, start, config.externalIPs);
    var cycles := [Closed48(config, limits.0, 10, 10), Closed48(config, limits.1, 2, 11)];
    var rounds, k := RoundsOf(cycles), config.Name()(LIVE);
    TwoRoundsOf(cycles[0], cycles[1]);
    ObservedAtTen(rounds);
    assert Image(config.Keep(), config.Name(), LIVE, k);
    assert LiveOrRecent(EMPTY.conns, rounds, config.Keep(), config.Name(), 5, k) by {
      assert ObservedAs(EMPTY.conns, rounds, config.Keep(), config.Name(), k, 10);
      RecentEnough(EMPTY.conns, rounds, config.Keep(), config.Name(), 5, k, 10);
    }
    TwoInOrder(start, cycles[0], cycles[1]);
    NotInGoal(p, config, cycles, s, rounds, k);
    RecentGoalIsObservedIff(p, config, EMPTY, cycles, s, k);
    NoZombies(p, EMPTY, cycles, s);
  }

  lemma RecentEnough<K(!new), L>(m0: State<K>, rounds: seq<Round<K>>, keep: K -> bool, f: K -> L, period: int, l: L,
                                 t: int)
    requires rounds != [] && ObservedAs(m0, rounds, keep, f, l, t) && rounds[|rounds| - 1].time - t < period
    ensures LiveOrRecent(m0, rounds, keep, f, period, l)
  {
  }

  function ClosedRound(t: Micros, time: Micros): Round<Connection> {
    Round([Event(LIVE, NewStatus(t, false))], Some(Sweep([], time)), [], time)
  }

  lemma TwoRoundsOf(a: Cycle, b: Cycle)
    requires a.Fetch? && b.Fetch?
    ensures RoundsOf([a, b])
              == [Round(a.events, ConnSweep(a.scraping), a.late, a.time),
                  Round(b.events, ConnSweep(b.scraping), b.late, b.time)]
  {
    OneRound(a);
    assert [a, b][..1] == [a];
    assert PendingEvents([a]) + b.events == b.events;
  }

  lemma TwoInOrder(start: int, a: Cycle, b: Cycle)
    requires a.Fetch? && b.Fetch? && start <= a.time <= b.time
    ensures InOrder(start, [a, b])
  {
    assert [a, b][..1] == [a] && LastFetchTime(start, [a][..0]) == start;
    assert InOrder(start, [a][..0]) && InOrder(start, [a]);
  }

  lemma ObservedAtTen(rounds: seq<Round<Connection>>)
    requires rounds == [ClosedRound(10, 10), ClosedRound(2, 11)]
    ensures Observed(map[], rounds, LIVE, 10)
  {
    hide ConnStatus.LastActiveTime, NewStatus;
    PackingKeepsBoth(10, false);
    var r := rounds[0];
    assert rounds[..1] == [r];
    assert r.events[0] == Event(LIVE, NewStatus(10, false));
    assert Tells(r.events, LIVE, 10);
    assert InRound(r, LIVE, 10);
    assert Observed(map[], rounds[..1], LIVE, 10);
  }

  /** Such a round leaves the connection in the table, inactive, and nothing else; clearing
      leaves nothing. */
  lemma ClosedTable(t: Micros, time: Micros, d: Connection)
    ensures var table := Learned(map[], ClosedRound(t, time));
            && (d in table <==> d == LIVE)
            && (d in table ==> !table[d].IsActive() && table[d].LastActiveTime() == t)
  {
    hide ConnStatus.LastActiveTime, ConnStatus.IsActive, NewStatus, ApplyEvents, Scraped;
    PackingKeepsBoth(t, false);
    var events, m := [Event(LIVE, NewStatus(t, false))], map[];
    EventsSettle(m, events, d);
    assert events[0] in events;
    ScrapeMeaning(ApplyEvents(m, events), [], time, d);
    NoEvents(Scraped(ApplyEvents(m, events), [], time));
  }

  lemma ClosedTables(rounds: seq<Round<Connection>>)
    requires rounds == [ClosedRound(10, 10), ClosedRound(2, 11)]
    ensures AtFetch(map[], rounds) == Learned(map[], ClosedRound(2, 11))
  {
    hide Learned, ConnStatus.IsActive;
    assert rounds[..1] == [rounds[0]] && rounds[..1][..0] == rounds[..0];
    var none: State<Connection> := map[];
    var left := Left(none, rounds[..1]);
    assert Left(none, rounds[..1][..0]) == none;
    assert AtFetch(none, rounds[..1]) == Learned(none, ClosedRound(10, 10));
    forall d ensures d !in left {
      ClosedTable(10, 10, d);
    }
    assert left == map[];
  }

  lemma NotInGoal(p: Params, config: Config, cycles: seq<Cycle>, s: Session, rounds: seq<Round<Connection>>,
                  k: Connection)
    requires IsSession(p, EMPTY, cycles, s) && p.afterglow && p.period == 5 && Steady(config, cycles)
             && InOrder(p.start, cycles)
    requires p.first == config.externalIPs && rounds == RoundsOf(cycles) == [ClosedRound(10, 10), ClosedRound(2, 11)]
    requires config.Keep()(LIVE) && k == config.Name()(LIVE)
    ensures k !in Goal(p, s)
  {
    hide SnapshotsOf, AllCut, RoundsOf, AtFetch, IsFetched, Fetchable, Normalizer, ConnStatus.LastActiveTime,
      ConnStatus.IsActive, Learned,
      Run;
    var h, table := s.h, AtFetch(map[], rounds);
    SnapshotsFollow(config, EMPTY, cycles, h, s.eps);
    InOrderIsMonotone(EMPTY, p, cycles, h, s.eps);
    ClosedTables(rounds);
    ClosedTable(2, 11, LIVE);
    EntryShows(map[], rounds, config.Keep(), config.Name(), h[1].snap, LIVE, k);
    FetchedStatus(table, config.Keep(), config.Name(), h[1].snap, k);
    var d :| d in table && IsPreimage(table, config.Keep(), config.Name(), d, k) && table[d] == h[1].snap[k];
    ClosedTable(2, 11, d);
    RecentIsHistory(p.start, h, 5, k);
    LastTime(p.start, h, 5);
    assert LastHeldAt(h, k, 1);
    forall i | LastHeldAt(h, k, i) ensures i == 1 {
      LastHeldUnique(h, k, i, 1);
    }
  }
}
