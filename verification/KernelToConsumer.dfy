/** From the kernel to the consumer: what the consumer of a session's messages holds, read
    off the events and scrapes that reached the tracker. */
module KernelToConsumer {
  import opened Wrappers
  import opened Status
  import opened Delta
  import opened Runs
  import opened Normalization
  import opened Tracker
  import opened Observations
  import opened Notifier
  import opened Sessions
  import opened EndToEnd

  // ----- the rounds of a session

  /** The events that have arrived since the last fetch. */
  ghost function PendingEvents(cycles: seq<Cycle>): seq<Event<Connection>> {
    if cycles == [] || cycles[|cycles| - 1].Fetch? then []
    else PendingEvents(cycles[..|cycles| - 1]) + cycles[|cycles| - 1].events
  }

  ghost function ConnSweep(scraping: Option<Scraping>): Option<Sweep<Connection>> {
    match scraping
    case None => None
    case Some(s) => Some(Sweep(s.conns, s.ts))
  }

  ghost function EndpointSweep(scraping: Option<Scraping>): Option<Sweep<ContainerEndpoint>> {
    match scraping
    case None => None
    case Some(s) => Some(Sweep(s.endpoints, s.ts))
  }

  /** The rounds that fetched, each with all events since the one before. */
  ghost function RoundsOf(cycles: seq<Cycle>): seq<Round<Connection>> {
    if cycles == [] then []
    else
      var before, c := cycles[..|cycles| - 1], cycles[|cycles| - 1];
      match c
      case Failed(_) => RoundsOf(before)
      case Fetch(events, scraping, late, _, _, time) =>
        RoundsOf(before) + [Round(PendingEvents(before) + events, ConnSweep(scraping), late, time)]
  }

  /** The same for endpoints, which no event tells about. */
  ghost function EndpointRoundsOf(cycles: seq<Cycle>): seq<Round<ContainerEndpoint>> {
    if cycles == [] then []
    else
      var before, c := cycles[..|cycles| - 1], cycles[|cycles| - 1];
      match c
      case Failed(_) => EndpointRoundsOf(before)
      case Fetch(_, scraping, _, _, _, time) =>
        EndpointRoundsOf(before) + [Round([], EndpointSweep(scraping), [], time)]
  }

  lemma {:induction false} ApplyConcat<K>(m: State<K>, a: seq<Event<K>>, b: seq<Event<K>>)
    ensures ApplyEvents(m, a + b) == ApplyEvents(ApplyEvents(m, a), b)
  {
    hide Emplaced;
    if b == [] {
      assert a + b == a;
    } else {
      var n := |b| - 1;
      ApplyConcat(m, a, b[..n]);
      assert (a + b)[..|a + b| - 1] == a + b[..n];
    }
  }

  lemma NoEvents<K>(m: State<K>)
    ensures ApplyEvents(m, []) == m
  {
  }

  lemma LeftUnfolds<K>(m0: State<K>, rounds: seq<Round<K>>)
    ensures Left(m0, rounds) == if rounds == [] then m0 else Cleared(AtFetch(m0, rounds), true)
  {
  }

  /** The tables of the tracker are those of the rounds. */
  lemma {:induction false} TablesAreRounds(t0: Tables, cycles: seq<Cycle>)
    ensures AfterCycles(t0, cycles).conns == ApplyEvents(Left(t0.conns, RoundsOf(cycles)), PendingEvents(cycles))
    ensures AfterCycles(t0, cycles).endpoints == Left(t0.endpoints, EndpointRoundsOf(cycles))
  {
    hide Scraped, ApplyEvents, Cleared, Left, AtFetch, Fetched;
    NoEvents(Left(t0.conns, RoundsOf(cycles)));
    LeftUnfolds(t0.conns, RoundsOf(cycles));
    LeftUnfolds(t0.endpoints, EndpointRoundsOf(cycles));
    if cycles != [] {
      var before, c := cycles[..|cycles| - 1], cycles[|cycles| - 1];
      TablesAreRounds(t0, before);
      if c.Failed? {
        ApplyConcat(Left(t0.conns, RoundsOf(before)), PendingEvents(before), c.events);
      } else {
        FetchedIsRound(t0, cycles);
      }
    }
  }

  /** What a round fetches from is the table of the corresponding round. */
  lemma FetchedIsRound(t0: Tables, cycles: seq<Cycle>)
    requires cycles != [] && cycles[|cycles| - 1].Fetch?
    requires var before := cycles[..|cycles| - 1];
             && AfterCycles(t0, before).conns == ApplyEvents(Left(t0.conns, RoundsOf(before)), PendingEvents(before))
             && AfterCycles(t0, before).endpoints == Left(t0.endpoints, EndpointRoundsOf(before))
    ensures var before, c := cycles[..|cycles| - 1], cycles[|cycles| - 1];
            && RoundsOf(cycles) != [] && EndpointRoundsOf(cycles) != []
            && Fetched(AfterCycles(t0, before), c).conns == AtFetch(t0.conns, RoundsOf(cycles))
            && Fetched(AfterCycles(t0, before), c).endpoints == AtFetch(t0.endpoints, EndpointRoundsOf(cycles))
  {
    hide Scraped, ApplyEvents, Left, AfterCycles;
    var before, c := cycles[..|cycles| - 1], cycles[|cycles| - 1];
    var rounds, epRounds := RoundsOf(cycles), EndpointRoundsOf(cycles);
    ApplyConcat(Left(t0.conns, RoundsOf(before)), PendingEvents(before), c.events);
    assert rounds[..|rounds| - 1] == RoundsOf(before) && epRounds[..|epRounds| - 1] == EndpointRoundsOf(before);
    var left := Left(t0.endpoints, EndpointRoundsOf(before));
    NoEvents(left);
    NoEvents(Swept(left, EndpointSweep(c.scraping)));
  }

  /** The configuration of the last fetch. */
  ghost function LastConfig(cycles: seq<Cycle>): Option<Config> {
    if cycles == [] then None
    else match cycles[|cycles| - 1]
      case Failed(_) => LastConfig(cycles[..|cycles| - 1])
      case Fetch(_, _, _, config, _, _) => Some(config)
  }

  /** The last snapshots are fetched from the tables of the last round, under the
      configuration of the last fetch. */
  lemma {:induction false} LastFetched(t0: Tables, cycles: seq<Cycle>, first: ExternalIPs, h: seq<Scrape<Connection>>,
                                       eps: seq<State<AdvertisedEndpoint>>)
    requires SnapshotsOf(t0, cycles, first, h, eps) && LastConfig(cycles).Some?
    ensures h != [] && eps != [] && RoundsOf(cycles) != [] && EndpointRoundsOf(cycles) != []
    ensures var config := LastConfig(cycles).value;
            && IsFetched(AtFetch(t0.conns, RoundsOf(cycles)), config.Keep(), config.Name(), h[|h| - 1].snap)
            && IsFetched(AtFetch(t0.endpoints, EndpointRoundsOf(cycles)), config.KeepEndpoint(), EndpointNormalizer(),
                eps[|eps| - 1])
  {
    hide AfterCycles, AtFetch, IsFetched, Fetched, LastSetting, PendingEvents, Fetchable, FetchableEndpoint, Normalizer,
      EndpointNormalizer, ClosedBy, Left, ApplyEvents;
    var before, c := cycles[..|cycles| - 1], cycles[|cycles| - 1];
    if c.Failed? {
      LastFetched(t0, before, first, h, eps);
    } else {
      TablesAreRounds(t0, before);
      FetchedIsRound(t0, cycles);
    }
  }

  // ----- endpoints, and connections without afterglow

  /** Without afterglow, whatever the events, scrapes, clocks and changes of the settings:
      the goal is what is reported of the live connections. */
  lemma PlainGoalIsLive(p: Params, t0: Tables, cycles: seq<Cycle>, s: Session, k: Connection)
    requires IsSession(p, t0, cycles, s) && !p.afterglow && LastConfig(cycles).Some?
    ensures RoundsOf(cycles) != []
    ensures var config := LastConfig(cycles).value;
            k in Goal(p, s) <==> LiveAs(t0.conns, RoundsOf(cycles), config.Keep(), config.Name(), k)
  {
    hide SnapshotsOf, AllCut, AtFetch, IsFetched, RoundsOf, EndpointRoundsOf, LiveAs, LastConfig, Fetchable, Normalizer;
    var config := LastConfig(cycles).value;
    LastFetched(t0, cycles, p.first, s.h, s.eps);
    SnapsLast(s.h);
    ActiveIsLive(t0.conns, RoundsOf(cycles), config.Keep(), config.Name(), s.h[|s.h| - 1].snap, k);
  }

  /** In every session the consumer holds exactly the endpoints that are live: those that
      the last scrape found listening, unless the table has them from as late as that. */
  lemma EndpointsAreLive(p: Params, t0: Tables, cycles: seq<Cycle>, s: Session, e: AdvertisedEndpoint)
    requires IsSession(p, t0, cycles, s) && LastConfig(cycles).Some?
    ensures EndpointRoundsOf(cycles) != []
    ensures e in Replay(EndpointReports(s.sent)) <==>
              LiveAs(t0.endpoints, EndpointRoundsOf(cycles), LastConfig(cycles).value.KeepEndpoint(),
                  EndpointNormalizer(), e)
  {
    hide SnapshotsOf, AllCut, AtFetch, IsFetched, RoundsOf, EndpointRoundsOf, Replay, Goal, FetchableEndpoint,
      EndpointNormalizer,
      LiveAs, DueIn, ConnReports, EndpointReports, LastConfig;
    LastFetched(t0, cycles, p.first, s.h, s.eps);
    SessionIsExact(p, t0, cycles, s);
    ActiveIsLive(t0.endpoints, EndpointRoundsOf(cycles), LastConfig(cycles).value.KeepEndpoint(), EndpointNormalizer(),
                 s.eps[|s.eps| - 1], e);
  }

  /** So an endpoint is held exactly if a live one of the same container, family, port,
      protocol and advertised process is, and that protocol and port are not ignored. */
  lemma ListenersAreReported(p: Params, t0: Tables, cycles: seq<Cycle>, s: Session, d: ContainerEndpoint)
    requires IsSession(p, t0, cycles, s) && LastConfig(cycles).Some?
    ensures EndpointRoundsOf(cycles) != []
    ensures EndpointNormalizer()(d) in Replay(EndpointReports(s.sent)) <==>
              exists c :: SameListener(d, c) && (c.l4proto, c.endpoint.port) !in LastConfig(cycles).value.ignoredPorts
                          && LiveAt(t0.endpoints, EndpointRoundsOf(cycles), c)
  {
    hide IsSession, EndpointRoundsOf, Replay, EndpointNormalizer, LiveAt, EndpointReports, LastConfig, SameListener;
    var e, config := EndpointNormalizer()(d), LastConfig(cycles).value;
    EndpointsAreLive(p, t0, cycles, s, e);
    forall c
      ensures Image(config.KeepEndpoint(), EndpointNormalizer(), c, e) <==>
                SameListener(d, c) && (c.l4proto, c.endpoint.port) !in config.ignoredPorts
    {
      EndpointNamesIdentify(d, c);
    }
  }

  /** Endpoints know no events, so a live one was seen by the last scrape, and one that was
      seen is live unless what is left of it is as late as the scrape. */
  lemma EndpointIsLiveIff(m0: State<ContainerEndpoint>, cycles: seq<Cycle>, e: ContainerEndpoint)
    requires EndpointRoundsOf(cycles) != []
    ensures var rounds := EndpointRoundsOf(cycles);
            var left, sweep := Left(m0, rounds[..|rounds| - 1]), rounds[|rounds| - 1].sweep;
            LiveAt(m0, rounds, e) <==>
              match sweep
              case None => e in left && left[e].IsActive()
              case Some(s) => e in s.seen && (e in left ==> left[e].LastActiveTime() < s.ts)
  {
    hide ConnStatus.IsActive, ConnStatus.LastActiveTime, Left, ApplyEvents, Scraped;
    LastEndpointRound(cycles);
  }

  lemma {:induction false} LastEndpointRound(cycles: seq<Cycle>)
    requires EndpointRoundsOf(cycles) != []
    ensures var rounds := EndpointRoundsOf(cycles); rounds[|rounds| - 1].events == [] && rounds[|rounds| - 1].late == []
  {
    if cycles[|cycles| - 1].Failed? {
      LastEndpointRound(cycles[..|cycles| - 1]);
    }
  }

  // ----- connections with afterglow

  /** A configuration that does not change. */
  ghost predicate Steady(config: Config, cycles: seq<Cycle>) {
    forall i :: 0 <= i < |cycles| && cycles[i].Fetch? ==> cycles[i].config == config
  }

  lemma {:induction false} SteadySetting(config: Config, cycles: seq<Cycle>)
    requires Steady(config, cycles)
    ensures LastSetting(cycles, config.externalIPs) == config.externalIPs
    ensures LastConfig(cycles).Some? ==> LastConfig(cycles).value == config
    ensures LastConfig(cycles).Some? <==> RoundsOf(cycles) != []
  {
    if cycles != [] {
      SteadySetting(config, cycles[..|cycles| - 1]);
    }
  }

  /** A setting that stays the same closes nothing. */
  lemma SameSettingClosesNothing(s: Settings, ext: ExternalIPs, conn: Connection)
    ensures !ClosedBy(s, ext, ext)(conn)
  {
  }

  lemma RoundsGrow(cycles: seq<Cycle>)
    requires cycles != [] && cycles[|cycles| - 1].Fetch?
    ensures var before, c, rounds := cycles[..|cycles| - 1], cycles[|cycles| - 1], RoundsOf(cycles);
            && |rounds| == |RoundsOf(before)| + 1 && rounds[..|rounds| - 1] == RoundsOf(before)
            && rounds[|rounds| - 1].time == c.time
  {
  }

  lemma SteadyScrape(config: Config, c: Cycle, t: Tables, x: Scrape<Connection>)
    requires ScrapeOf(t, c, config.externalIPs, x) && c.config == config
    ensures x.time == c.time && forall k :: !x.closes(k)
  {
    hide IsFetched, Fetched, ClosedBy;
    forall k ensures !x.closes(k) {
      SameSettingClosesNothing(config.settings, config.externalIPs, k);
    }
  }

  /** The snapshots of a steady session are fetched after its rounds. */
  lemma {:induction false} SnapshotsFollow(config: Config, t0: Tables, cycles: seq<Cycle>, h: seq<Scrape<Connection>>,
                                           eps: seq<State<AdvertisedEndpoint>>)
    requires Steady(config, cycles) && SnapshotsOf(t0, cycles, config.externalIPs, h, eps)
    ensures Follows(t0.conns, RoundsOf(cycles), config.Keep(), config.Name(), h)
  {
    hide AfterCycles, AtFetch, IsFetched, ScrapeOf, EndpointsOf, LastSetting, PendingEvents, Fetchable,
      FetchableEndpoint, Normalizer,
      EndpointNormalizer;
    if cycles != [] {
      var before, c := cycles[..|cycles| - 1], cycles[|cycles| - 1];
      if c.Failed? {
        SnapshotsFollow(config, t0, before, h, eps);
      } else {
        SnapshotsFollow(config, t0, before, h[..|h| - 1], eps[..|eps| - 1]);
        SteadySetting(config, before);
        SteadyScrape(config, c, AfterCycles(t0, before), h[|h| - 1]);
        LastFetched(t0, cycles, config.externalIPs, h, eps);
        RoundsGrow(cycles);
      }
    }
  }

  /** With afterglow and one configuration, whatever the events and scrapes and their times:
      the goal is live or was observed within the period, and this is all of the goal
      exactly if the name is not outdated. */
  lemma RecentGoalIsObservedIff(p: Params, config: Config, t0: Tables, cycles: seq<Cycle>, s: Session, k: Connection)
    requires IsSession(p, t0, cycles, s) && p.afterglow && Steady(config, cycles) && p.first == config.externalIPs
    requires InOrder(p.start, cycles) && RoundsOf(cycles) != []
    ensures var rounds := RoundsOf(cycles);
            && (k in Goal(p, s) ==> LiveOrRecent(t0.conns, rounds, config.Keep(), config.Name(), p.period, k))
            && ((k in Goal(p, s) <==> LiveOrRecent(t0.conns, rounds, config.Keep(), config.Name(), p.period, k))
                <==> !Outdated(t0.conns, rounds, config.Keep(), config.Name(), s.h, p.period, k))
  {
    hide SnapshotsOf, AllCut, AtFetch, IsFetched, RoundsOf, LiveOrRecent, Outdated, Fetchable, Normalizer;
    SnapshotsFollow(config, t0, cycles, s.h, s.eps);
    InOrderIsMonotone(t0, p, cycles, s.h, s.eps);
    RecentIsObservedIff(p.start, t0.conns, RoundsOf(cycles), config.Keep(), config.Name(), s.h, p.period, k);
    LastTime(p.start, s.h, p.period);
  }

  /** The goal of a session: with afterglow, for one configuration, a clock that does not go
      back and observations of the name in order. */
  lemma GoalIsObserved(p: Params, config: Config, t0: Tables, cycles: seq<Cycle>, s: Session, k: Connection)
    requires IsSession(p, t0, cycles, s) && LastConfig(cycles) == Some(config) && RoundsOf(cycles) != []
    requires p.afterglow ==> Steady(config, cycles) && p.first == config.externalIPs && InOrder(p.start, cycles)
                             && Orderly(t0.conns, RoundsOf(cycles), config.Keep(), config.Name(), k)
    ensures var rounds := RoundsOf(cycles);
            k in Goal(p, s) <==>
              if p.afterglow then LiveOrRecent(t0.conns, rounds, config.Keep(), config.Name(), p.period, k)
              else LiveAs(t0.conns, rounds, config.Keep(), config.Name(), k)
  {
    hide SnapshotsOf, AllCut, AtFetch, IsFetched, RoundsOf, LiveOrRecent, LiveAs, Outdated, Orderly, Goal, Fetchable,
      Normalizer;
    if p.afterglow {
      SnapshotsFollow(config, t0, cycles, s.h, s.eps);
      OrderlyIsNotOutdated(t0.conns, RoundsOf(cycles), config.Keep(), config.Name(), s.h, p.period, k);
      RecentGoalIsObservedIff(p, config, t0, cycles, s, k);
    } else {
      PlainGoalIsLive(p, t0, cycles, s, k);
    }
  }

  lemma {:induction false} FollowedIsFresh<K(!new), L(!new)>(m0: State<K>, rounds: seq<Round<K>>, keep: K -> bool,
                                                             f: K -> L, h: seq<Scrape<L>>)
    requires Follows(m0, rounds, keep, f, h)
    ensures Fresh(h)
  {
    hide AtFetch, IsFetched;
    if h != [] {
      FollowedIsFresh(m0, rounds[..|h| - 1], keep, f, h[..|h| - 1]);
    }
  }

  /** A session of one configuration and a clock that does not go back, within the limits,
      leaves the consumer with the goal; without afterglow any session within them does. */
  lemma SteadySessionIsExact(p: Params, config: Config, t0: Tables, cycles: seq<Cycle>, s: Session)
    requires IsSession(p, t0, cycles, s) && AllWithinLimit(DueIn(p, s.h), LimitsOf(cycles))
    requires p.afterglow ==> Steady(config, cycles) && p.first == config.externalIPs && InOrder(p.start, cycles)
    ensures Replay(ConnReports(s.sent)) == Goal(p, s)
  {
    hide SnapshotsOf, AllCut, AtFetch, IsFetched, RoundsOf, AllWithinLimit, Replay, Goal, FaultyScrape, ConnReports;
    if p.afterglow {
      SnapshotsFollow(config, t0, cycles, s.h, s.eps);
      FollowedIsFresh(t0.conns, RoundsOf(cycles), config.Keep(), config.Name(), s.h);
      InOrderIsMonotone(t0, p, cycles, s.h, s.eps);
      forall i | 0 <= i < |s.h| ensures !FaultyScrape(p.start, s.h, p.period, i) {
        OrderlyIsFaultless(p.start, s.h, p.period, i);
      }
    }
    FaultlessSession(p, t0, cycles, s);
  }

  // ----- every connection is reported

  lemma HeldIsShown<K>(h: seq<Scrape<K>>, k: K, i: int)
    requires LastHeldAt(h, k, i)
    ensures LastShown(SnapsOf(h), k, i)
  {
  }

  /** With one configuration, in both modes, whatever the events and scrapes and their times:
      the name of every connection that passes the filter and was ever observed is in the
      goal, or the consumer was told that it is closed. */
  lemma EveryConnectionIsReported(p: Params, config: Config, t0: Tables, cycles: seq<Cycle>, s: Session,
                                  k: Connection, t: int)
    requires IsSession(p, t0, cycles, s) && Steady(config, cycles) && p.first == config.externalIPs
    requires RoundsOf(cycles) != [] && ObservedAs(t0.conns, RoundsOf(cycles), config.Keep(), config.Name(), k, t)
    ensures var ledger := Ledger(ConnReports(s.sent));
            k in Goal(p, s) || (k in ledger && !ledger[k].IsActive())
  {
    hide SnapshotsOf, AllCut, AtFetch, IsFetched, RoundsOf, Goal, ConnReports, ObservedAs, Ledger, Fetchable,
      Normalizer, LastHeldAt;
    SnapshotsFollow(config, t0, cycles, s.h, s.eps);
    ObservedIsHeld(t0.conns, RoundsOf(cycles), config.Keep(), config.Name(), s.h, k, t);
    var i :| LastHeldAt(s.h, k, i);
    HeldIsShown(s.h, k, i);
    ClosesAreReported(p, t0, cycles, s, k, i);
  }

  // ----- the consumer

  /** A connection that passes the filter and is live at the last fetch or, with afterglow,
      was observed within the period before it. */
  ghost predicate Witnesses(p: Params, config: Config, m0: State<Connection>, rounds: seq<Round<Connection>>,
                            d: Connection)
    requires rounds != []
  {
    config.Keep()(d)
    && (LiveAt(m0, rounds, d)
        || (p.afterglow && exists t :: Observed(m0, rounds, d, t) && rounds[|rounds| - 1].time - t < p.period))
  }

  /** From the kernel to the consumer, within the limits, whatever the events and scrapes
      and their times.  What it holds is reported alike with a connection that is live or,
      with afterglow, was observed within the period.  The converse holds without
      afterglow, also when the clock goes back and the settings change; with it, exactly if
      the name is not outdated. */
  lemma SessionIsObserved(p: Params, config: Config, t0: Tables, cycles: seq<Cycle>, s: Session, conn: Connection)
    requires IsSession(p, t0, cycles, s) && LastConfig(cycles) == Some(config) && RoundsOf(cycles) != []
    requires AllWithinLimit(DueIn(p, s.h), LimitsOf(cycles))
    requires p.afterglow ==> Steady(config, cycles) && p.first == config.externalIPs && InOrder(p.start, cycles)
    ensures var k, rounds := NormalizeConnection(config.settings, config.externalIPs, conn), RoundsOf(cycles);
            var witnessed := exists d :: Alike(config.settings, config.externalIPs, conn, d)
                                         && Witnesses(p, config, t0.conns, rounds, d);
            && (k in Replay(ConnReports(s.sent)) ==> witnessed)
            && ((k in Replay(ConnReports(s.sent)) <==> witnessed)
                <==> (p.afterglow ==> !Outdated(t0.conns, rounds, config.Keep(), config.Name(), s.h, p.period, k)))
  {
    hide IsSession, RoundsOf, AllWithinLimit, Replay, Goal, Fetchable, NormalizeConnection, Alike, ConnReports,
      Witnesses, Outdated, LastConfig,
      LiveAs, LiveOrRecent;
    var k := NormalizeConnection(config.settings, config.externalIPs, conn);
    SteadySessionIsExact(p, config, t0, cycles, s);
    if p.afterglow {
      RecentGoalIsObservedIff(p, config, t0, cycles, s, k);
    } else {
      PlainGoalIsLive(p, t0, cycles, s, k);
    }
    WitnessesAreAlike(p, config, t0.conns, RoundsOf(cycles), conn);
  }

  lemma WitnessesAreAlike(p: Params, config: Config, m0: State<Connection>, rounds: seq<Round<Connection>>,
                          conn: Connection)
    requires rounds != []
    ensures var k := NormalizeConnection(config.settings, config.externalIPs, conn);
            (if p.afterglow then LiveOrRecent(m0, rounds, config.Keep(), config.Name(), p.period, k)
             else LiveAs(m0, rounds, config.Keep(), config.Name(), k))
            <==> exists d :: Alike(config.settings, config.externalIPs, conn, d) && Witnesses(p, config, m0, rounds, d)
  {
    hide Fetchable, NormalizeConnection, Alike, Observed, LiveAt;
    var k, now := NormalizeConnection(config.settings, config.externalIPs, conn), rounds[|rounds| - 1].time;
    forall d
      ensures Image(config.Keep(), config.Name(), d, k)
              <==> Alike(config.settings, config.externalIPs, conn, d) && config.Keep()(d)
    {
      NormalFormIdentifies(config.settings, config.externalIPs, conn, d);
    }
    if LiveAs(m0, rounds, config.Keep(), config.Name(), k) {
      var d :| Image(config.Keep(), config.Name(), d, k) && LiveAt(m0, rounds, d);
      assert Witnesses(p, config, m0, rounds, d);
    } else if p.afterglow && LiveOrRecent(m0, rounds, config.Keep(), config.Name(), p.period, k) {
      var t :| ObservedAs(m0, rounds, config.Keep(), config.Name(), k, t) && now - t < p.period;
      var d :| Image(config.Keep(), config.Name(), d, k) && Observed(m0, rounds, d, t);
      assert Witnesses(p, config, m0, rounds, d);
    }
    if exists d :: Alike(config.settings, config.externalIPs, conn, d) && Witnesses(p, config, m0, rounds, d) {
      var d :| Alike(config.settings, config.externalIPs, conn, d) && Witnesses(p, config, m0, rounds, d);
      assert Image(config.Keep(), config.Name(), d, k);
      if !LiveAt(m0, rounds, d) {
        var t :| Observed(m0, rounds, d, t) && now - t < p.period;
        assert ObservedAs(m0, rounds, config.Keep(), config.Name(), k, t);
      }
    }
  }

  /** In the ordinary case, when the events of the name arrive between the scrapes between
      which they happened, live is what the last scrape has seen, in both modes. */
  lemma TimelyGoalIsSeen(p: Params, config: Config, from: int, t0: Tables, cycles: seq<Cycle>, s: Session,
                         k: Connection)
    requires IsSession(p, t0, cycles, s) && LastConfig(cycles) == Some(config) && RoundsOf(cycles) != []
    requires Timely(from, t0.conns, RoundsOf(cycles), config.Keep(), config.Name(), k)
    requires p.afterglow ==> Steady(config, cycles) && p.first == config.externalIPs && InOrder(p.start, cycles)
    ensures var rounds := RoundsOf(cycles);
            k in Goal(p, s) <==>
              SeenAs(rounds[|rounds| - 1], config.Keep(), config.Name(), k)
              || (p.afterglow && exists t :: ObservedAs(t0.conns, rounds, config.Keep(), config.Name(), k, t)
                                             && rounds[|rounds| - 1].time - t < p.period)
  {
    hide IsSession, RoundsOf, Goal, Fetchable, Normalizer, Orderly, LastConfig, Timely, ObservedAs, LiveAt;
    var rounds := RoundsOf(cycles);
    TimelyIsOrderly(from, t0.conns, rounds, config.Keep(), config.Name(), k);
    GoalIsObserved(p, config, t0, cycles, s, k);
    TimelySweeps(from, t0.conns, rounds, config.Keep(), config.Name(), k);
    forall d | Image(config.Keep(), config.Name(), d, k)
      ensures LiveAt(t0.conns, rounds, d) <==> d in rounds[|rounds| - 1].sweep.value.seen
    {
      TimelyIsSeen(from, t0.conns, rounds, config.Keep(), config.Name(), k, d);
    }
  }

  lemma TimelySweeps<K(!new), L>(from: int, m0: State<K>, rounds: seq<Round<K>>, keep: K -> bool, f: K -> L, l: L)
    requires rounds != [] && Timely(from, m0, rounds, keep, f, l)
    ensures rounds[|rounds| - 1].sweep.Some?
  {
  }
}
