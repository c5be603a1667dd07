/** End to end: what the consumer of a session's messages holds, from the goal it is led
    to down to the kernel events and scrapes that reached the tracker. */
module EndToEnd {
  import opened Addresses
  import opened Delta
  import opened Runs
  import opened Normalization
  import opened Tracker
  import opened Notifier
  import opened Sessions

  // ----- the consumer of a session

  /** What the consumer should hold: the recently active connections, or without
      afterglow the active ones. */
  ghost function Goal(p: Params, s: Session): set<Connection> {
    if p.afterglow then RecentKeys(s.old_, s.last, p.period) else ActiveKeys(s.old_)
  }

  lemma {:induction false} SnapsLast(h: seq<Scrape<Connection>>)
    ensures LastSnapshot(SnapsOf(h)) == if h == [] then map[] else h[|h| - 1].snap
  {
  }

  /** A session follows its goals, at fault only where the clock goes back or a fresh
      connection is closed, which without afterglow never happens. */
  lemma SessionCourse(p: Params, t0: Tables, cycles: seq<Cycle>, s: Session)
    requires IsSession(p, t0, cycles, s)
    ensures Course(DueIn(p, s.h), GoalsIn(p, s.h)) && LastGoal(GoalsIn(p, s.h)) == Goal(p, s)
    ensures Faultless(DueIn(p, s.h), GoalsIn(p, s.h)) <==>
              (p.afterglow ==> forall i :: 0 <= i < |s.h| ==> !FaultyScrape(p.start, s.h, p.period, i))
  {
    hide SnapshotsOf, AllCut, FaultyScrape, Course, Faultless;
    if p.afterglow {
      AfterglowCourse(p.start, s.h, p.period);
      GoalIsRecent(p.start, s.h, p.period);
      LastTime(p.start, s.h, p.period);
    } else {
      PlainCourse(SnapsOf(s.h));
    }
  }

  /** End to end, with nothing assumed of the clock, the settings, the rate limit or the
      scrapes: the consumer of the messages holds exactly the goal, less the connections
      that some report failed to bring and that have been goals ever since.  For
      endpoints it holds exactly what is active. */
  lemma SessionIsExact(p: Params, t0: Tables, cycles: seq<Cycle>, s: Session)
    requires IsSession(p, t0, cycles, s)
    ensures var reports, due, goals := ConnReports(s.sent), DueIn(p, s.h), GoalsIn(p, s.h);
            && |reports| == |due|
            && Replay(reports) == Goal(p, s) - Missing(due, goals, reports)
                && Missing(due, goals, reports) <= Goal(p, s)
            && forall k :: k in Missing(due, goals, reports) <==> exists i :: MissedAt(due, goals, reports, k, i)
    ensures Replay(EndpointReports(s.sent)) == ActiveKeys(s.oldEndpoints)
  {
    hide SnapshotsOf, Course, Limited, Replay, Missing, MissedAt, DueIn, GoalsIn, Goal, CutToLimit, ConnReports,
      EndpointReports, PlainDue;
    var reports, due, goals := ConnReports(s.sent), DueIn(p, s.h), GoalsIn(p, s.h);
    CutIsLimited(reports, due, LimitsOf(cycles));
    SessionCourse(p, t0, cycles, s);
    LimitedReplay(due, goals, reports);
    forall k ensures k in Missing(due, goals, reports) <==> exists i :: MissedAt(due, goals, reports, k, i) {
      MissingIff(due, goals, reports, k);
    }
    PlainReplay(s.eps);
  }

  /** No zombies: whatever the clock does, whatever is closed and whichever opens are held
      back, the consumer holds nothing but the goal. */
  lemma NoZombies(p: Params, t0: Tables, cycles: seq<Cycle>, s: Session)
    requires IsSession(p, t0, cycles, s)
    ensures Replay(ConnReports(s.sent)) <= Goal(p, s)
  {
    hide IsSession, Replay, Missing, DueIn, GoalsIn, Goal, ConnReports, EndpointReports, MissedAt;
    SessionIsExact(p, t0, cycles, s);
  }

  /** Why report `i` fails to bring a connection.  It is dropped only if its container has
      more opens in the report than the limit, which is used up.  And the report is at
      fault for it exactly if, with afterglow, the scrape closes it though it is fresh or
      the clock, set back, revives it. */
  lemma MissedBecause(p: Params, t0: Tables, cycles: seq<Cycle>, s: Session, k: Connection, i: int)
    requires IsSession(p, t0, cycles, s) && 0 <= i < |s.h|
    ensures |s.sent| == |s.h| == |LimitsOf(cycles)|
    ensures k in Dropped(ConnReports(s.sent)[i], DueIn(p, s.h)[i]) ==>
              var all, some := OpensOf(DueIn(p, s.h)[i], k.container), OpensOf(ConnReports(s.sent)[i], k.container);
              |all| > |some| == Max(LimitsOf(cycles)[i], 0)
    ensures k in Faults(LastGoal(GoalsIn(p, s.h)[..i]), DueIn(p, s.h)[i], GoalsIn(p, s.h)[i]) <==>
              p.afterglow
              && var m := Run(p.start, s.h[..i], p.period);
                 k in m.state && (ClosedThoughFresh(m, s.h[i], p.period, k) || RevivedByClock(m, s.h[i], p.period, k))
  {
    hide SnapshotsOf, Replay, DueIn, GoalsIn, Goal, EndpointReports, Dropped, OpensOf, LastGoal, Faults, Run,
      ClosedThoughFresh, RevivedByClock;
    if k in Dropped(ConnReports(s.sent)[i], DueIn(p, s.h)[i]) {
      assert CutToLimit(ConnReports(s.sent)[i], DueIn(p, s.h)[i], LimitsOf(cycles)[i]);
      DroppedOverLimit(ConnReports(s.sent)[i], DueIn(p, s.h)[i], LimitsOf(cycles)[i], k);
    }
    FaultsAt(p, s.h, i);
  }

  lemma FaultsAt(p: Params, h: seq<Scrape<Connection>>, i: int)
    requires 0 <= i < |h|
    ensures Faults(LastGoal(GoalsIn(p, h)[..i]), DueIn(p, h)[i], GoalsIn(p, h)[i])
              == if p.afterglow then FaultyAt(p.start, h, p.period, i) else {}
  {
    hide Faults, LastGoal, FaultyAt;
    if p.afterglow {
      StepAt(p.start, h, p.period, i);
    } else {
      PlainCourse(SnapsOf(h));
    }
  }

  /** The consumer is exact after every message if and only if every report is within the
      limit and, with afterglow, no scrape closes a fresh connection or revives one. */
  lemma SessionIsExactIff(p: Params, t0: Tables, cycles: seq<Cycle>, s: Session)
    requires IsSession(p, t0, cycles, s)
    ensures var reports, due, goals := ConnReports(s.sent), DueIn(p, s.h), GoalsIn(p, s.h);
            && |reports| == |due|
            && ((forall n :: 0 <= n <= |due| ==> Replay(reports[..n]) == LastGoal(goals[..n])) <==>
                  AllWithinLimit(due, LimitsOf(cycles))
                  && (p.afterglow ==> forall i :: 0 <= i < |s.h| ==> !FaultyScrape(p.start, s.h, p.period, i)))
  {
    hide SnapshotsOf, Course, Faultless, Limited, Replay, DueIn, GoalsIn, Goal, CutToLimit, ConnReports,
      EndpointReports,
      WithinLimit, FaultyScrape, LastGoal, PlainDue;
    var reports, due, goals := ConnReports(s.sent), DueIn(p, s.h), GoalsIn(p, s.h);
    CutIsLimited(reports, due, LimitsOf(cycles));
    SessionCourse(p, t0, cycles, s);
    ExactIff(due, goals, reports);
    AllSentInFullIff(reports, due, LimitsOf(cycles));
  }

  /** Every connection that a snapshot of the session ever held is in the goal, or the
      consumer was told that it is closed, with a time that is no earlier than where it was
      held last; so, too, for endpoints.  Nothing is assumed of clock, settings or limits. */
  lemma ClosesAreReported(p: Params, t0: Tables, cycles: seq<Cycle>, s: Session, k: Connection, i: int)
    requires IsSession(p, t0, cycles, s) && LastShown(SnapsOf(s.h), k, i)
    ensures k in Goal(p, s) || ClosedIn(Ledger(ConnReports(s.sent)), k, s.h[i].snap[k].LastActiveTime())
  {
    hide SnapshotsOf, CutToLimit, ConnReports, EndpointReports, Ledger, ClosedIn, Limited, PlainDue, Due, Run;
    CutIsLimited(ConnReports(s.sent), DueIn(p, s.h), LimitsOf(cycles));
    if p.afterglow {
      AfterglowClosesAreReported(p.start, s.h, p.period, ConnReports(s.sent), k, i);
      LastTime(p.start, s.h, p.period);
    } else {
      PlainClosesAreReported(SnapsOf(s.h), ConnReports(s.sent), k, i);
    }
  }

  lemma EndpointClosesAreReported(p: Params, t0: Tables, cycles: seq<Cycle>, s: Session, e: AdvertisedEndpoint, i: int)
    requires IsSession(p, t0, cycles, s) && LastShown(s.eps, e, i)
    ensures e in ActiveKeys(s.oldEndpoints)
            || ClosedIn(Ledger(EndpointReports(s.sent)), e, s.eps[i][e].LastActiveTime())
  {
    hide SnapshotsOf, CutToLimit, ConnReports, EndpointReports, Ledger, ClosedIn, PlainDue;
    SentInFull(PlainDue(s.eps));
    PlainClosesAreReported(s.eps, EndpointReports(s.sent), e, i);
  }

  // ----- rounds that are not at fault

  /** A scrape closes no fresh connection exactly if none that passes the filter is closed
      at once. */
  lemma ScrapeIsFreshIff(t: Tables, c: Cycle, prev: ExternalIPs, x: Scrape<Connection>)
    requires ScrapeOf(t, c, prev, x)
    ensures FreshScrape(x) <==>
              forall conn :: conn in Fetched(t, c).conns && c.config.Keep()(conn) ==>
                !ClosedAtOnce(c.config.settings, prev, c.config.externalIPs, conn)
  {
    hide ClosedByChange, NormalizeConnection, ClosedAtOnce, Fetched;
    var table, keep, f := Fetched(t, c).conns, c.config.Keep(), c.config.Name();
    forall conn ensures x.closes(f(conn)) <==> ClosedAtOnce(c.config.settings, prev, c.config.externalIPs, conn) {
      FreshIsClosedIff(c.config.settings, prev, c.config.externalIPs, conn);
    }
    if forall conn :: conn in table && keep(conn) ==>
        !ClosedAtOnce(c.config.settings, prev, c.config.externalIPs, conn) {
      forall k | k in x.snap ensures !x.closes(k) {
        var conn :| conn in table && IsPreimage(table, keep, f, conn, k) && table[conn] == x.snap[k];
      }
    }
  }

  /** A change of the setting, or none: a scrape after a fetch with the same setting closes
      nothing, and one after a change reports as closed, and forgets, every remembered
      connection under the name that it had before and has no longer. */
  lemma StaleNamesAreForgotten(t: Tables, c: Cycle, prev: ExternalIPs, x: Scrape<Connection>, m: Memory<Connection>,
                               period: int, conn: Connection)
    requires ScrapeOf(t, c, prev, x)
    ensures c.config.externalIPs == prev ==> forall k :: !x.closes(k)
    ensures var settings, now := c.config.settings, c.config.externalIPs;
            var stale := NormalizeConnection(settings, prev, conn);
            stale != NormalizeConnection(settings, now, conn) && stale in m.state && stale !in x.snap
            && conn.RemoteAddress().family != UNKNOWN
            && (now.Enabled(ServerRole(conn)) || !IsCanonicalExternalIp(conn.RemoteAddress())) ==>
              && stale in ReportOf(m, x, period) && !ReportOf(m, x, period)[stale].IsActive()
              && stale !in Next(m, x, period).state
  {
    hide IsFetched, Fetched, NormalizeConnection, ShouldClose, ReportOf, Next, IsCanonicalExternalIp;
    var settings, now := c.config.settings, c.config.externalIPs;
    var stale := NormalizeConnection(settings, prev, conn);
    if stale != NormalizeConnection(settings, now, conn) {
      StaleFormIsClosedIff(settings, prev, now, conn);
      if x.closes(stale) && stale in m.state && stale !in x.snap {
        ClosedIsForgotten(m, x, period, stale);
      }
    }
  }

  /** The assumptions on a round: no connection that is reported has the canonical address
      as its remote one, and the known networks do not hide each other. */
  ghost predicate Sane(t: Tables, c: Cycle) {
    c.Fetch? ==>
      WellSeparated(c.config.settings)
      && forall conn :: conn in Fetched(t, c).conns && c.config.Keep()(conn) ==>
          !IsCanonicalExternalIp(conn.RemoteAddress())
  }

  lemma SaneScrapeIsFresh(t: Tables, c: Cycle, prev: ExternalIPs, x: Scrape<Connection>)
    requires ScrapeOf(t, c, prev, x) && Sane(t, c)
    ensures FreshScrape(x)
  {
    hide WellSeparated, ClosedByChange, NormalizeConnection, IsCanonicalExternalIp, ClosedAtOnce, FreshScrape;
    ScrapeIsFreshIff(t, c, prev, x);
    forall conn | conn in Fetched(t, c).conns && c.config.Keep()(conn)
      ensures !ClosedAtOnce(c.config.settings, prev, c.config.externalIPs, conn)
    {
      FreshIsNotClosed(c.config.settings, prev, c.config.externalIPs, conn);
      FreshIsClosedIff(c.config.settings, prev, c.config.externalIPs, conn);
    }
  }

  ghost function LastFetchTime(start: int, cycles: seq<Cycle>): int {
    if cycles == [] then start
    else if cycles[|cycles| - 1].Fetch? then cycles[|cycles| - 1].time
    else LastFetchTime(start, cycles[..|cycles| - 1])
  }

  /** The clock does not go back. */
  ghost predicate InOrder(start: int, cycles: seq<Cycle>) {
    cycles != [] ==>
      var before, c := cycles[..|cycles| - 1], cycles[|cycles| - 1];
      InOrder(start, before) && (c.Fetch? ==> LastFetchTime(start, before) <= c.time)
  }

  ghost predicate AllSane(t0: Tables, cycles: seq<Cycle>) {
    cycles != [] ==>
      var before := cycles[..|cycles| - 1];
      AllSane(t0, before) && Sane(AfterCycles(t0, before), cycles[|cycles| - 1])
  }

  lemma {:induction false} InOrderIsMonotone(t0: Tables, p: Params, cycles: seq<Cycle>, h: seq<Scrape<Connection>>,
                                             eps: seq<State<AdvertisedEndpoint>>)
    requires InOrder(p.start, cycles) && SnapshotsOf(t0, cycles, p.first, h, eps)
    ensures Monotone(p.start, h) && EndTime(p.start, h) == LastFetchTime(p.start, cycles)
  {
    hide ScrapeOf, EndpointsOf, AfterCycles;
    if cycles != [] {
      var before, c := cycles[..|cycles| - 1], cycles[|cycles| - 1];
      if c.Failed? {
        InOrderIsMonotone(t0, p, before, h, eps);
      } else {
        InOrderIsMonotone(t0, p, before, h[..|h| - 1], eps[..|eps| - 1]);
        FetchesAt(AfterCycles(t0, before), c, LastSetting(before, p.first), h[|h| - 1]);
      }
    }
  }

  lemma {:induction false} SaneIsFresh(t0: Tables, p: Params, cycles: seq<Cycle>, h: seq<Scrape<Connection>>,
                                       eps: seq<State<AdvertisedEndpoint>>)
    requires AllSane(t0, cycles) && SnapshotsOf(t0, cycles, p.first, h, eps)
    ensures Fresh(h)
  {
    hide ScrapeOf, EndpointsOf, AfterCycles, Sane, FreshScrape;
    if cycles != [] {
      var before, c := cycles[..|cycles| - 1], cycles[|cycles| - 1];
      if c.Failed? {
        SaneIsFresh(t0, p, before, h, eps);
      } else {
        SaneIsFresh(t0, p, before, h[..|h| - 1], eps[..|eps| - 1]);
        SaneScrapeIsFresh(AfterCycles(t0, before), c, LastSetting(before, p.first), h[|h| - 1]);
      }
    }
  }

  /** A session whose reports are within the limit and, with afterglow, whose scrapes are
      not at fault leaves the consumer with the goal. */
  lemma FaultlessSession(p: Params, t0: Tables, cycles: seq<Cycle>, s: Session)
    requires IsSession(p, t0, cycles, s) && AllWithinLimit(DueIn(p, s.h), LimitsOf(cycles))
    requires p.afterglow ==> forall i :: 0 <= i < |s.h| ==> !FaultyScrape(p.start, s.h, p.period, i)
    ensures Replay(ConnReports(s.sent)) == Goal(p, s)
  {
    hide SnapshotsOf, Replay, DueIn, GoalsIn, Goal, CutToLimit, ConnReports, EndpointReports, WithinLimit, FaultyScrape,
      LastGoal,
      PlainDue, Course, Faultless;
    var reports, due, goals := ConnReports(s.sent), DueIn(p, s.h), GoalsIn(p, s.h);
    SessionIsExactIff(p, t0, cycles, s);
    SessionCourse(p, t0, cycles, s);
    assert reports[..|due|] == reports && goals[..|due|] == goals;
  }

  /** A sane session with a clock that does not go back, within the limit: through any
      changes of the settings, the consumer holds a function of the fetch history. */
  lemma SaneSessionIsHistory(p: Params, t0: Tables, cycles: seq<Cycle>, s: Session, k: Connection)
    requires IsSession(p, t0, cycles, s) && AllWithinLimit(DueIn(p, s.h), LimitsOf(cycles))
    requires p.afterglow ==> InOrder(p.start, cycles) && AllSane(t0, cycles)
    ensures k in Replay(ConnReports(s.sent)) <==>
              if p.afterglow then OpenByHistory(s.h, p.period, k)
              else s.h != [] && k in s.h[|s.h| - 1].snap && s.h[|s.h| - 1].snap[k].IsActive()
  {
    hide SnapshotsOf, Replay, DueIn, AllCut, ConnReports, EndpointReports, AllWithinLimit, FaultyScrape, PlainDue,
      OpenByHistory;
    if p.afterglow {
      InOrderIsMonotone(t0, p, cycles, s.h, s.eps);
      SaneIsFresh(t0, p, cycles, s.h, s.eps);
      forall i | 0 <= i < |s.h| ensures !FaultyScrape(p.start, s.h, p.period, i) {
        OrderlyIsFaultless(p.start, s.h, p.period, i);
      }
      LastTime(p.start, s.h, p.period);
      RecentIsHistory(p.start, s.h, p.period, k);
    }
    FaultlessSession(p, t0, cycles, s);
    SnapsLast(s.h);
  }
}
