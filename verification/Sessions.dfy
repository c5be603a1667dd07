/** A stream session of the notifier (NetworkStatusNotifier.cpp) over one tracker: the
    scrape loop, and what the consumer of its messages holds. */
module Sessions {
  import opened Wrappers
  import opened Radix
  import opened Status
  import opened Delta
  import opened Runs
  import opened Normalization
  import opened Tracker
  import opened Notifier

  // ----- the tracker between two fetches

  /** What a scrape of procfs that began at `ts` has found. */
  datatype Scraping = Scraping(conns: seq<Connection>, endpoints: seq<ContainerEndpoint>, ts: Micros)

  datatype Config = Config(settings: Settings, externalIPs: ExternalIPs, ignoredPorts: set<(L4Proto, nat)>,
                           ignoredNetworks: Contents) {
    function Keep(): Connection -> bool {
      Fetchable(ignoredPorts, ignoredNetworks)
    }

    function Name(): Connection -> Connection {
      Normalizer(settings, externalIPs)
    }

    function KeepEndpoint(): ContainerEndpoint -> bool {
      FetchableEndpoint(ignoredPorts)
    }
  }

  /** One round of the loop, with the kernel events that arrive before it: the scrape
      failed, or a snapshot was fetched at `time`, after a scrape (unless scraping is
      turned off) and the events that arrived since, under a configuration and the limit
      of opens per container that its message has. */
  datatype Cycle =
    | Failed(events: seq<Event<Connection>>)
    | Fetch(events: seq<Event<Connection>>, scraping: Option<Scraping>, late: seq<Event<Connection>>,
            config: Config, limit: int, time: int)

  datatype Tables = Tables(conns: State<Connection>, endpoints: State<ContainerEndpoint>)

  ghost function TablesOf(tracker: ConnectionTracker): Tables
    reads tracker
  {
    Tables(tracker.connState, tracker.endpointState)
  }

  ghost function Updated(t: Tables, scraping: Option<Scraping>): Tables {
    match scraping
    case None => t
    case Some(s) => Tables(Scraped(t.conns, s.conns, s.ts), Scraped(t.endpoints, s.endpoints, s.ts))
  }

  ghost function WithEvents(t: Tables, events: seq<Event<Connection>>): Tables {
    t.(conns := ApplyEvents(t.conns, events))
  }

  /** The tables when the snapshot of a round is fetched. */
  ghost function Fetched(t: Tables, c: Cycle): Tables
    requires c.Fetch?
  {
    WithEvents(Updated(WithEvents(t, c.events), c.scraping), c.late)
  }

  ghost function AfterCycle(t: Tables, c: Cycle): Tables {
    match c
    case Failed(events) => WithEvents(t, events)
    case Fetch(_, _, _, _, _, _) => Tables(Cleared(Fetched(t, c).conns, true), Cleared(Fetched(t, c).endpoints, true))
  }

  ghost function AfterCycles(t: Tables, cycles: seq<Cycle>): Tables {
    if cycles == [] then t else AfterCycle(AfterCycles(t, cycles[..|cycles| - 1]), cycles[|cycles| - 1])
  }

  method Deliver(tracker: ConnectionTracker, events: seq<Event<Connection>>)
    modifies tracker`connState
    ensures TablesOf(tracker) == WithEvents(old(TablesOf(tracker)), events)
  {
    for i := 0 to |events|
      invariant TablesOf(tracker) == WithEvents(old(TablesOf(tracker)), events[..i])
    {
      var status := events[i].status;
      WithStatusChangesFlagOnly(status, status.IsActive());
      ApplyOne(tracker.connState, events[i]);
      assert events[..i + 1][..i] == events[..i];
      tracker.UpdateConnection(events[i].key, status.LastActiveTime(), status.IsActive());
    }
    assert events[..|events|] == events;
  }

  lemma ApplyOne(m: State<Connection>, e: Event<Connection>)
    ensures ApplyEvents(m, [e]) == Emplaced(m, e.key, e.status)
  {
    assert ApplyEvents(m, [e][..0]) == m;
  }

  // ----- one round

  /** The scrape of a round that finds the tracker's tables as given, when the round
      before had the setting `prev`. */
  ghost predicate ScrapeOf(t: Tables, c: Cycle, prev: ExternalIPs, x: Scrape<Connection>) {
    c.Fetch? && x.time == c.time && x.closes == ClosedBy(c.config.settings, prev, c.config.externalIPs)
    && IsFetched(Fetched(t, c).conns, c.config.Keep(), c.config.Name(), x.snap)
  }

  ghost predicate EndpointsOf(t: Tables, c: Cycle, snap: State<AdvertisedEndpoint>) {
    c.Fetch? && IsFetched(Fetched(t, c).endpoints, c.config.KeepEndpoint(), EndpointNormalizer(), snap)
  }

  /** How a session runs: with or without afterglow, its period, and clock and setting
      when it starts. */
  datatype Params = Params(afterglow: bool, period: int, start: int, first: ExternalIPs)

  /** What a round reports and remembers. */
  ghost predicate Reported(p: Params, limit: int, x: Scrape<Connection>, ep: State<AdvertisedEndpoint>,
                           old_: State<Connection>,
                           oldEndpoints: State<AdvertisedEndpoint>, last: int, msg: Option<Message>,
                           old': State<Connection>)
  {
    && CutToLimit(ConnReport(msg),
                  if p.afterglow then ReportOf(Memory(old_, last), x, p.period) else PlainDelta(x.snap, old_), limit)
    && old' == (if p.afterglow then Next(Memory(old_, last), x, p.period).state else x.snap)
    && EndpointReport(msg) == PlainDelta(ep, oldEndpoints)
  }

  /** What reaches the tracker before the fetch of a round. */
  method Learn(tracker: ConnectionTracker, c: Cycle)
    requires c.Fetch?
    modifies tracker
    ensures TablesOf(tracker) == Fetched(old(TablesOf(tracker)), c)
    ensures tracker.settings == c.config.settings && tracker.externalIPs == c.config.externalIPs
    ensures tracker.ignoredPorts == c.config.ignoredPorts && tracker.ignoredNetworks == c.config.ignoredNetworks
  {
    hide ApplyEvents, Scraped;
    Deliver(tracker, c.events);
    if c.scraping.Some? {
      var s := c.scraping.value;
      tracker.Update(s.conns, s.endpoints, s.ts);
    }
    Deliver(tracker, c.late);
    tracker.Configure(c.config.settings, c.config.ignoredPorts, c.config.ignoredNetworks);
    tracker.SetExternalIPsConfig(c.config.externalIPs);
  }

  /** Compute the deltas of the fetched snapshots, build the message, and update what is
      remembered. */
  method Report(p: Params, limit: int, settings: Settings, prev: ExternalIPs, now: ExternalIPs, snap: State<Connection>,
                time: int, endpoints: State<AdvertisedEndpoint>, old_: State<Connection>,
                oldEndpoints: State<AdvertisedEndpoint>, last: int)
    returns (msg: Option<Message>, old': State<Connection>)
    ensures Reported(p, limit, Scrape(snap, time, ClosedBy(settings, prev, now)), endpoints, old_, oldEndpoints,
                     last, msg, old')
  {
    hide CutToLimit, ConnReport, EndpointReport, PlainDelta, AfterglowDelta, UpdatedOldState, Kept, WithClosed;
    var delta;
    old' := old_;
    if p.afterglow {
      delta := ComputeDeltaAfterglow(snap, old_, time, last, p.period);
      old', delta := CloseOnConfigChange(settings, prev, now, old', delta);
    } else {
      delta := ComputeDelta(snap, old_);
    }
    var endpointDelta := ComputeDelta(endpoints, oldEndpoints);
    msg := CreateInfoMessage(delta, endpointDelta, limit);
    if p.afterglow {
      old' := UpdateOldState(old', snap, time, p.period);
    } else {
      old' := snap;
    }
  }

  /** The body of the loop after a successful scrape. */
  method ScrapeCycle(tracker: ConnectionTracker, p: Params, c: Cycle, old_: State<Connection>,
                     oldEndpoints: State<AdvertisedEndpoint>, last: int, prev: ExternalIPs)
    returns (msg: Option<Message>, old': State<Connection>, endpoints: State<AdvertisedEndpoint>,
             ghost x: Scrape<Connection>)
    requires c.Fetch?
    modifies tracker
    ensures TablesOf(tracker) == AfterCycle(old(TablesOf(tracker)), c)
    ensures ScrapeOf(old(TablesOf(tracker)), c, prev, x) && EndpointsOf(old(TablesOf(tracker)), c, endpoints)
    ensures Reported(p, c.limit, x, endpoints, old_, oldEndpoints, last, msg, old')
  {
    hide IsFetched, Reported, Cleared, Fetched;
    Learn(tracker, c);
    var snap := tracker.FetchConnState(true, true);
    endpoints := tracker.FetchEndpointState(true, true);
    x := Scrape(snap, c.time, ClosedBy(c.config.settings, prev, c.config.externalIPs));
    msg, old' := Report(p, c.limit, tracker.settings, prev, tracker.externalIPs, snap, c.time, endpoints, old_,
                        oldEndpoints, last);
  }

  // ----- sessions

  /** The setting that the next scrape compares with. */
  ghost function LastSetting(cycles: seq<Cycle>, first: ExternalIPs): ExternalIPs {
    if cycles == [] then first
    else match cycles[|cycles| - 1]
      case Failed(_) => LastSetting(cycles[..|cycles| - 1], first)
      case Fetch(_, _, _, config, _, _) => config.externalIPs
  }

  /** Round `i` was the last that did not fail. */
  ghost predicate LastFetch(cycles: seq<Cycle>, i: int) {
    0 <= i < |cycles| && cycles[i].Fetch? && forall j :: i < j < |cycles| ==> cycles[j].Failed?
  }

  /** A scrape compares with the setting of the last round that fetched, or with the first
      one if none did. */
  lemma {:induction false} ComparedWith(cycles: seq<Cycle>, first: ExternalIPs)
    ensures forall i :: LastFetch(cycles, i) ==> LastSetting(cycles, first) == cycles[i].config.externalIPs
    ensures (forall j :: 0 <= j < |cycles| ==> cycles[j].Failed?) ==> LastSetting(cycles, first) == first
  {
    if cycles != [] {
      var before := cycles[..|cycles| - 1];
      ComparedWith(before, first);
      assert forall j :: 0 <= j < |before| ==> before[j] == cycles[j];
      forall i | LastFetch(cycles, i) ensures LastSetting(cycles, first) == cycles[i].config.externalIPs {
        if i < |before| {
          assert LastFetch(before, i);
        }
      }
    }
  }

  /** `h` and `eps` are the snapshots of the rounds that did not fail. */
  ghost predicate SnapshotsOf(t0: Tables, cycles: seq<Cycle>, first: ExternalIPs, h: seq<Scrape<Connection>>,
                              eps: seq<State<AdvertisedEndpoint>>)
  {
    if cycles == [] then h == [] && eps == []
    else
      var before, c := cycles[..|cycles| - 1], cycles[|cycles| - 1];
      if c.Failed? then SnapshotsOf(t0, before, first, h, eps)
      else
        h != [] && eps != [] && SnapshotsOf(t0, before, first, h[..|h| - 1], eps[..|eps| - 1])
        && ScrapeOf(AfterCycles(t0, before), c, LastSetting(before, first), h[|h| - 1])
        && EndpointsOf(AfterCycles(t0, before), c, eps[|eps| - 1])
  }

  /** The limits of the messages of the rounds that did not fail. */
  ghost function LimitsOf(cycles: seq<Cycle>): seq<int> {
    if cycles == [] then []
    else
      var before := LimitsOf(cycles[..|cycles| - 1]);
      match cycles[|cycles| - 1]
      case Failed(_) => before
      case Fetch(_, _, _, _, limit, _) => before + [limit]
  }

  /** The reports due after some scrapes, and what each of them should lead to. */
  ghost function DueIn(p: Params, h: seq<Scrape<Connection>>): (due: seq<State<Connection>>)
    ensures |due| == |h|
  {
    if p.afterglow then Due(p.start, h, p.period) else PlainDue(SnapsOf(h))
  }

  ghost function GoalsIn(p: Params, h: seq<Scrape<Connection>>): (goals: seq<set<Connection>>)
    ensures |goals| == |h|
  {
    if p.afterglow then Goals(p.start, h, p.period) else PlainGoals(SnapsOf(h))
  }

  ghost function RememberedIn(p: Params, h: seq<Scrape<Connection>>): State<Connection> {
    if p.afterglow then Run(p.start, h, p.period).state else LastSnapshot(SnapsOf(h))
  }

  /** What was sent and what is remembered after some rounds with the snapshots `h`
      and `eps`. */
  datatype Session = Session(sent: seq<Option<Message>>, old_: State<Connection>,
      oldEndpoints: State<AdvertisedEndpoint>, last: int,
                             h: seq<Scrape<Connection>>, eps: seq<State<AdvertisedEndpoint>>)

  /** The session went through the rounds: for each that fetched it sent what was due,
      cut down to the limit, and it remembers what the protocol prescribes. */
  ghost predicate IsSession(p: Params, t0: Tables, cycles: seq<Cycle>, s: Session) {
    && SnapshotsOf(t0, cycles, p.first, s.h, s.eps)
    && s.last == EndTime(p.start, s.h) && s.old_ == RememberedIn(p, s.h) && s.oldEndpoints == LastSnapshot(s.eps)
    && AllCut(ConnReports(s.sent), DueIn(p, s.h), LimitsOf(cycles))
    && EndpointReports(s.sent) == PlainDue(s.eps)
  }

  lemma SnapshotsSnoc(t0: Tables, cycles: seq<Cycle>, c: Cycle, first: ExternalIPs, h: seq<Scrape<Connection>>,
                      x: Scrape<Connection>,
                      eps: seq<State<AdvertisedEndpoint>>, ep: State<AdvertisedEndpoint>)
    requires SnapshotsOf(t0, cycles, first, h, eps)
             && ScrapeOf(AfterCycles(t0, cycles), c, LastSetting(cycles, first), x)
    requires EndpointsOf(AfterCycles(t0, cycles), c, ep)
    ensures SnapshotsOf(t0, cycles + [c], first, h + [x], eps + [ep])
    ensures SnapsOf(h + [x]) == SnapsOf(h) + [x.snap] && x.time == c.time
  {
    hide IsFetched, Fetched;
    assert (cycles + [c])[..|cycles|] == cycles && (h + [x])[..|h|] == h && (eps + [ep])[..|eps|] == eps;
  }

  /** What the last round of a session that fetched has found. */
  lemma SnapshotsLast(t0: Tables, cycles: seq<Cycle>, c: Cycle, first: ExternalIPs, h: seq<Scrape<Connection>>,
                      eps: seq<State<AdvertisedEndpoint>>)
    requires c.Fetch? && SnapshotsOf(t0, cycles + [c], first, h, eps)
    ensures h != [] && eps != [] && SnapshotsOf(t0, cycles, first, h[..|h| - 1], eps[..|eps| - 1])
    ensures ScrapeOf(AfterCycles(t0, cycles), c, LastSetting(cycles, first), h[|h| - 1])
  {
    hide ScrapeOf, EndpointsOf;
    assert (cycles + [c])[..|cycles|] == cycles;
  }

  lemma DueSnoc(p: Params, h: seq<Scrape<Connection>>, x: Scrape<Connection>)
    ensures var m := Memory(RememberedIn(p, h), EndTime(p.start, h));
            && DueIn(p, h + [x])
               == DueIn(p, h) + [if p.afterglow then ReportOf(m, x, p.period) else PlainDelta(x.snap, m.state)]
            && RememberedIn(p, h + [x]) == if p.afterglow then Next(m, x, p.period).state else x.snap
  {
    hide ReportOf, Next, PlainDelta;
    assert (h + [x])[..|h|] == h;
    assert (SnapsOf(h) + [x.snap])[..|h|] == SnapsOf(h);
    LastTime(p.start, h, p.period);
  }

  lemma PlainDueSnoc<K>(snaps: seq<State<K>>, snap: State<K>)
    ensures PlainDue(snaps + [snap]) == PlainDue(snaps) + [PlainDelta(snap, LastSnapshot(snaps))]
  {
    hide PlainDelta;
    assert (snaps + [snap])[..|snaps|] == snaps;
  }

  lemma AllCutSnoc(sent: seq<State<Connection>>, due: seq<State<Connection>>, limits: seq<int>,
                   last: State<Connection>, lastDue: State<Connection>, limit: int)
    requires AllCut(sent, due, limits) && CutToLimit(last, lastDue, limit)
    ensures AllCut(sent + [last], due + [lastDue], limits + [limit])
  {
    hide CutToLimit;
  }

  /** A round that fetched extends the session. */
  lemma SessionGrows(p: Params, t0: Tables, cycles: seq<Cycle>, c: Cycle, s: Session, msg: Option<Message>,
                     old': State<Connection>,
                     ep: State<AdvertisedEndpoint>, x: Scrape<Connection>)
    requires IsSession(p, t0, cycles, s)
    requires ScrapeOf(AfterCycles(t0, cycles), c, LastSetting(cycles, p.first), x)
             && EndpointsOf(AfterCycles(t0, cycles), c, ep)
    requires c.Fetch? && Reported(p, c.limit, x, ep, s.old_, s.oldEndpoints, s.last, msg, old')
    ensures IsSession(p, t0, cycles + [c], Session(s.sent + [msg], old', ep, c.time, s.h + [x], s.eps + [ep]))
  {
    hide ReportOf, Next, PlainDelta, ConnReport, EndpointReport, ScrapeOf, EndpointsOf, SnapshotsOf, SnapsOf,
      ConnReports, EndpointReports, DueIn, RememberedIn, AllCut, CutToLimit, PlainDue, LimitsOf;
    FetchesAt(AfterCycles(t0, cycles), c, LastSetting(cycles, p.first), x);
    SnapshotsSnoc(t0, cycles, c, p.first, s.h, x, s.eps, ep);
    ReportsSnoc(s.sent, msg);
    DueSnoc(p, s.h, x);
    PlainDueSnoc(s.eps, ep);
    var due := if p.afterglow then ReportOf(Memory(s.old_, s.last), x, p.period) else PlainDelta(x.snap, s.old_);
    LimitsSnoc(cycles, c);
    AllCutSnoc(ConnReports(s.sent), DueIn(p, s.h), LimitsOf(cycles), ConnReport(msg), due, c.limit);
  }

  lemma LimitsSnoc(cycles: seq<Cycle>, c: Cycle)
    ensures LimitsOf(cycles + [c]) == LimitsOf(cycles) + if c.Fetch? then [c.limit] else []
  {
    assert (cycles + [c])[..|cycles|] == cycles;
  }

  lemma FetchesAt(t: Tables, c: Cycle, prev: ExternalIPs, x: Scrape<Connection>)
    requires ScrapeOf(t, c, prev, x)
    ensures c.Fetch? && x.time == c.time
  {
  }

  lemma SessionSkips(p: Params, t0: Tables, cycles: seq<Cycle>, c: Cycle, s: Session)
    requires IsSession(p, t0, cycles, s) && c.Failed?
    ensures IsSession(p, t0, cycles + [c], s)
  {
    assert (cycles + [c])[..|cycles|] == cycles;
  }

  lemma SessionStarts(p: Params, t0: Tables)
    ensures IsSession(p, t0, [], Session([], map[], map[], p.start, [], []))
  {
  }

  /** How the tables and the setting to compare with go on. */
  lemma CyclesSnoc(t0: Tables, cycles: seq<Cycle>, c: Cycle, first: ExternalIPs)
    ensures AfterCycles(t0, cycles + [c]) == AfterCycle(AfterCycles(t0, cycles), c)
    ensures LastSetting(cycles + [c], first) == if c.Fetch? then c.config.externalIPs else LastSetting(cycles, first)
  {
    hide AfterCycle;
    assert (cycles + [c])[..|cycles|] == cycles;
  }

  /** `RunSingle`: one stream session on a tracker, over any rounds. */
  method RunSingle(tracker: ConnectionTracker, p: Params, cycles: seq<Cycle>)
    returns (sent: seq<Option<Message>>, old_: State<Connection>, oldEndpoints: State<AdvertisedEndpoint>, last: int,
             ghost h: seq<Scrape<Connection>>, ghost eps: seq<State<AdvertisedEndpoint>>)
    modifies tracker
    ensures TablesOf(tracker) == AfterCycles(old(TablesOf(tracker)), cycles)
    ensures IsSession(p, old(TablesOf(tracker)), cycles, Session(sent, old_, oldEndpoints, last, h, eps))
  {
    hide IsSession, LastSetting, ScrapeOf, EndpointsOf, Reported, AfterCycles, AfterCycle;
    ghost var t0 := TablesOf(tracker);
    sent, old_, oldEndpoints, last := [], map[], map[], p.start;
    h, eps := [], [];
    var prev := p.first;
    SessionStarts(p, t0);
    NoCycles(t0, cycles[..0], p.first);
    for i := 0 to |cycles|
      invariant TablesOf(tracker) == AfterCycles(t0, cycles[..i]) && prev == LastSetting(cycles[..i], p.first)
      invariant IsSession(p, t0, cycles[..i], Session(sent, old_, oldEndpoints, last, h, eps))
    {
      var c := cycles[i];
      ghost var s := Session(sent, old_, oldEndpoints, last, h, eps);
      assert cycles[..i + 1] == cycles[..i] + [c];
      CyclesSnoc(t0, cycles[..i], c, p.first);
      if c.Failed? {
        FailedCycle(TablesOf(tracker), c);
        SessionSkips(p, t0, cycles[..i], c, s);
        Deliver(tracker, c.events);
        continue;
      }
      var msg, old', endpoints;
      ghost var x;
      msg, old', endpoints, x := ScrapeCycle(tracker, p, c, old_, oldEndpoints, last, prev);
      SessionGrows(p, t0, cycles[..i], c, s, msg, old', endpoints, x);
      h, eps, sent := h + [x], eps + [endpoints], sent + [msg];
      old_, oldEndpoints, last, prev := old', endpoints, c.time, c.config.externalIPs;
    }
    assert cycles[..|cycles|] == cycles;
  }

  lemma NoCycles(t0: Tables, cycles: seq<Cycle>, first: ExternalIPs)
    requires cycles == []
    ensures AfterCycles(t0, cycles) == t0 && LastSetting(cycles, first) == first
  {
  }

  lemma FailedCycle(t: Tables, c: Cycle)
    requires c.Failed?
    ensures AfterCycle(t, c) == WithEvents(t, c.events)
  {
  }
}
