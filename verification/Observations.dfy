/** From kernel events and scrapes to what is active and recently active: the tracker's
    table, the snapshots fetched from it and the memory of the notifier, read off what
    reached the tracker. */
module Observations {
  import opened Wrappers
  import opened Status
  import opened Delta
  import opened Runs
  import opened Tracker

  /** What a scrape that began at `ts` has seen. */
  datatype Sweep<K> = Sweep(seen: seq<K>, ts: Micros)

  /** What the tracker learns up to one fetch: the events since the last one, a scrape
      unless scraping is off, and the events since.  The fetch is made at `time`. */
  datatype Round<K> = Round(events: seq<Event<K>>, sweep: Option<Sweep<K>>, late: seq<Event<K>>, time: int)

  ghost function Swept<K>(m: State<K>, sweep: Option<Sweep<K>>): State<K> {
    match sweep
    case None => m
    case Some(s) => Scraped(m, s.seen, s.ts)
  }

  ghost function Learned<K>(m: State<K>, r: Round<K>): State<K> {
    ApplyEvents(Swept(ApplyEvents(m, r.events), r.sweep), r.late)
  }

  /** The table before the fetch of the last round, and what clearing leaves of it. */
  ghost function AtFetch<K>(m0: State<K>, rounds: seq<Round<K>>): State<K>
    requires rounds != []
    decreases rounds, 0
  {
    Learned(Left(m0, rounds[..|rounds| - 1]), rounds[|rounds| - 1])
  }

  ghost function Left<K>(m0: State<K>, rounds: seq<Round<K>>): State<K>
    decreases rounds, 1
  {
    if rounds == [] then m0 else Cleared(AtFetch(m0, rounds), true)
  }

  // ----- when a key is active

  /** Events leave a key active: the one that wins opens it, or none wins and it was
      active. */
  ghost predicate StillActive<K>(m: State<K>, events: seq<Event<K>>, k: K) {
    (exists i :: Wins(m, events, k, i) && events[i].status.IsActive())
    || (k in m && m[k].IsActive() && forall i :: !Wins(m, events, k, i))
  }

  /** The scrape has seen the key, and neither the table nor an event has it from as late
      as the scrape. */
  ghost predicate SeenInTime<K>(m: State<K>, events: seq<Event<K>>, s: Sweep<K>, k: K) {
    k in s.seen && (k in m ==> m[k].LastActiveTime() < s.ts)
    && forall e :: e in events && e.key == k ==> e.status.LastActiveTime() < s.ts
  }

  ghost predicate LiveAfter<K>(m: State<K>, r: Round<K>, k: K) {
    var mid := Swept(ApplyEvents(m, r.events), r.sweep);
    (exists i :: Wins(mid, r.late, k, i) && r.late[i].status.IsActive())
    || ((forall i :: !Wins(mid, r.late, k, i))
        && match r.sweep
           case None => StillActive(m, r.events, k)
           case Some(s) => SeenInTime(m, r.events, s, k))
  }

  lemma StillActiveIff<K>(m: State<K>, events: seq<Event<K>>, k: K)
    ensures var r := ApplyEvents(m, events); k in r && r[k].IsActive() <==> StillActive(m, events, k)
  {
    hide ConnStatus.LastActiveTime, ConnStatus.IsActive, ApplyEvents, Wins;
    EventsWin(m, events, k);
  }

  lemma SweptActiveIff<K>(m: State<K>, events: seq<Event<K>>, s: Sweep<K>, k: K)
    ensures var r := Scraped(ApplyEvents(m, events), s.seen, s.ts); k in r && r[k].IsActive() <==>
            SeenInTime(m, events, s, k)
  {
    hide ConnStatus.LastActiveTime, ConnStatus.IsActive, ApplyEvents, Scraped;
    EventsSettle(m, events, k);
    ScrapeMeaning(ApplyEvents(m, events), s.seen, s.ts, k);
  }

  /** A round leaves a key active exactly if an event after the scrape opens it, or none
      decides on it and the scrape has seen it in time (without scraping: the events
      before leave it active). */
  lemma LiveAfterIff<K>(m: State<K>, r: Round<K>, k: K)
    ensures var table := Learned(m, r); k in table && table[k].IsActive() <==> LiveAfter(m, r, k)
  {
    hide ConnStatus.LastActiveTime, ConnStatus.IsActive, ApplyEvents, Scraped, Wins, SeenInTime;
    StillActiveIff(Swept(ApplyEvents(m, r.events), r.sweep), r.late, k);
    match r.sweep
    case None => StillActiveIff(m, r.events, k);
    case Some(s) => SweptActiveIff(m, r.events, s, k);
  }

  ghost predicate LiveAt<K>(m0: State<K>, rounds: seq<Round<K>>, k: K)
    requires rounds != []
  {
    LiveAfter(Left(m0, rounds[..|rounds| - 1]), rounds[|rounds| - 1], k)
  }

  lemma LiveAtIff<K>(m0: State<K>, rounds: seq<Round<K>>, k: K)
    requires rounds != []
    ensures var table := AtFetch(m0, rounds); k in table && table[k].IsActive() <==> LiveAt(m0, rounds, k)
    ensures k in Left(m0, rounds) <==> LiveAt(m0, rounds, k)
    ensures k in Left(m0, rounds) ==> Left(m0, rounds)[k] == AtFetch(m0, rounds)[k]
  {
    hide ConnStatus.IsActive, Learned, LiveAfter;
    LiveAfterIff(Left(m0, rounds[..|rounds| - 1]), rounds[|rounds| - 1], k);
  }

  // ----- when a key was observed

  /** The key was observed at a time: by an event, in a scrape, or it was in the table
      from the start. */
  ghost predicate Observed<K>(m0: State<K>, rounds: seq<Round<K>>, k: K, t: int) {
    if rounds == [] then k in m0 && m0[k].LastActiveTime() == t
    else Observed(m0, rounds[..|rounds| - 1], k, t) || InRound(rounds[|rounds| - 1], k, t)
  }

  ghost predicate InRound<K>(r: Round<K>, k: K, t: int) {
    Tells(r.events, k, t) || Tells(r.late, k, t) || (r.sweep.Some? && k in r.sweep.value.seen && t == r.sweep.value.ts)
  }

  ghost predicate Tells<K>(events: seq<Event<K>>, k: K, t: int) {
    exists e :: e in events && e.key == k && e.status.LastActiveTime() == t
  }

  /** What a round makes of an entry: its time only grows, up to all that the round
      observes and no further. */
  lemma RoundMeans<K>(m: State<K>, r: Round<K>, k: K)
    ensures var table := Learned(m, r);
            && (k in m ==> k in table && m[k].LastActiveTime() <= table[k].LastActiveTime())
            && (forall t :: InRound(r, k, t) ==> k in table && t <= table[k].LastActiveTime())
            && (k in table ==> InRound(r, k, table[k].LastActiveTime())
                               || (k in m && m[k].LastActiveTime() == table[k].LastActiveTime()))
  {
    hide ConnStatus.LastActiveTime, ConnStatus.IsActive, ApplyEvents;
    var base := ApplyEvents(m, r.events);
    var mid := Swept(base, r.sweep);
    EventsTell(m, r.events, k);
    SweepTells(base, r.sweep, k);
    EventsTell(mid, r.late, k);
  }

  lemma EventsTell<K>(m: State<K>, events: seq<Event<K>>, k: K)
    ensures var r := ApplyEvents(m, events);
            && (k in m ==> k in r && m[k].LastActiveTime() <= r[k].LastActiveTime())
            && (forall t :: Tells(events, k, t) ==> k in r && t <= r[k].LastActiveTime())
            && (k in r ==> Tells(events, k, r[k].LastActiveTime()) || (k in m && r[k] == m[k]))
  {
    hide ConnStatus.LastActiveTime, ApplyEvents;
    EventsSettle(m, events, k);
  }

  lemma SweepTells<K>(m: State<K>, sweep: Option<Sweep<K>>, k: K)
    ensures var r := Swept(m, sweep);
            && (k in m ==> k in r && m[k].LastActiveTime() <= r[k].LastActiveTime())
            && (sweep.Some? && k in sweep.value.seen ==> k in r && sweep.value.ts <= r[k].LastActiveTime())
            && (k in r ==> (sweep.Some? && k in sweep.value.seen && r[k].LastActiveTime() == sweep.value.ts)
                           || (k in m && r[k].LastActiveTime() == m[k].LastActiveTime()))
  {
    hide ConnStatus.LastActiveTime, ConnStatus.IsActive, Scraped;
    if sweep.Some? {
      ScrapeMeaning(m, sweep.value.seen, sweep.value.ts, k);
    }
  }

  /** What is in the table, or left of it, was observed at its time. */
  lemma {:induction false} TableIsObserved<K>(m0: State<K>, rounds: seq<Round<K>>, k: K)
    ensures k in Left(m0, rounds) ==> Observed(m0, rounds, k, Left(m0, rounds)[k].LastActiveTime())
    ensures rounds != [] && k in AtFetch(m0, rounds) ==>
            Observed(m0, rounds, k, AtFetch(m0, rounds)[k].LastActiveTime())
  {
    hide ConnStatus.LastActiveTime, ConnStatus.IsActive, Learned, InRound;
    if rounds != [] {
      var before, r := rounds[..|rounds| - 1], rounds[|rounds| - 1];
      TableIsObserved(m0, before, k);
      RoundMeans(Left(m0, before), r, k);
    }
  }

  // ----- names

  /** A connection that is reported, under the name `l`. */
  ghost predicate Image<K, L>(keep: K -> bool, f: K -> L, k: K, l: L) {
    keep(k) && f(k) == l
  }

  ghost predicate LiveAs<K(!new), L>(m0: State<K>, rounds: seq<Round<K>>, keep: K -> bool, f: K -> L, l: L)
    requires rounds != []
  {
    exists k :: Image(keep, f, k, l) && LiveAt(m0, rounds, k)
  }

  ghost predicate ObservedAs<K(!new), L>(m0: State<K>, rounds: seq<Round<K>>, keep: K -> bool, f: K -> L, l: L,
                                         t: int) {
    exists k :: Image(keep, f, k, l) && Observed(m0, rounds, k, t)
  }

  ghost predicate InRoundAs<K(!new), L>(r: Round<K>, keep: K -> bool, f: K -> L, l: L, t: int) {
    exists k :: Image(keep, f, k, l) && InRound(r, k, t)
  }

  lemma ObservedAsSplits<K(!new), L>(m0: State<K>, rounds: seq<Round<K>>, keep: K -> bool, f: K -> L, l: L, t: int)
    requires rounds != []
    ensures ObservedAs(m0, rounds, keep, f, l, t) <==>
              ObservedAs(m0, rounds[..|rounds| - 1], keep, f, l, t) || InRoundAs(rounds[|rounds| - 1], keep, f, l, t)
  {
    hide InRound;
    var before, r := rounds[..|rounds| - 1], rounds[|rounds| - 1];
    forall k ensures Observed(m0, rounds, k, t) <==> Observed(m0, before, k, t) || InRound(r, k, t) {
    }
  }

  /** Whatever the events, scrapes and times: a snapshot shows a name as active exactly if
      a connection of that name is live. */
  lemma ActiveIsLive<K(!new), L>(m0: State<K>, rounds: seq<Round<K>>, keep: K -> bool, f: K -> L, snap: State<L>, l: L)
    requires rounds != [] && IsFetched(AtFetch(m0, rounds), keep, f, snap)
    ensures l in snap && snap[l].IsActive() <==> LiveAs(m0, rounds, keep, f, l)
  {
    hide AtFetch, LiveAt, ConnStatus.IsActive, Left;
    var table := AtFetch(m0, rounds);
    forall k ensures k in table && table[k].IsActive() <==> LiveAt(m0, rounds, k) {
      LiveAtIff(m0, rounds, k);
    }
    if l in snap {
      FetchedStatus(table, keep, f, snap, l);
    }
    if LiveAs(m0, rounds, keep, f, l) {
      var k :| Image(keep, f, k, l) && LiveAt(m0, rounds, k);
      assert IsPreimage(table, keep, f, k, l);
    }
  }

  /** An entry of the table shows in the snapshot, which is dated no earlier unless it is
      active. */
  lemma EntryShows<K(!new), L>(m0: State<K>, rounds: seq<Round<K>>, keep: K -> bool, f: K -> L, snap: State<L>, k: K,
                               l: L)
    requires rounds != [] && IsFetched(AtFetch(m0, rounds), keep, f, snap) && Image(keep, f, k, l)
             && k in AtFetch(m0, rounds)
    ensures l in snap
    ensures !snap[l].IsActive() ==> AtFetch(m0, rounds)[k].LastActiveTime() <= snap[l].LastActiveTime()
  {
    hide AtFetch, ConnStatus.IsActive, ConnStatus.LastActiveTime;
    var table := AtFetch(m0, rounds);
    FetchedStatus(table, keep, f, snap, l);
    assert IsPreimage(table, keep, f, k, l);
  }

  /** The time in a snapshot is one at which the name was observed, and what the round
      observes shows in it. */
  lemma SnapshotIsObserved<K(!new), L>(m0: State<K>, rounds: seq<Round<K>>, keep: K -> bool, f: K -> L, snap: State<L>,
                                       l: L)
    requires rounds != [] && IsFetched(AtFetch(m0, rounds), keep, f, snap)
    ensures l in snap ==> ObservedAs(m0, rounds, keep, f, l, snap[l].LastActiveTime())
    ensures var r := rounds[|rounds| - 1];
            forall t :: InRoundAs(r, keep, f, l, t) ==>
              l in snap && (!snap[l].IsActive() ==> t <= snap[l].LastActiveTime())
  {
    hide ConnStatus.IsActive, ConnStatus.LastActiveTime, Left, Learned, Observed, InRound, IsFetched;
    var table, left, r := AtFetch(m0, rounds), Left(m0, rounds[..|rounds| - 1]), rounds[|rounds| - 1];
    if l in snap {
      FetchedStatus(table, keep, f, snap, l);
      var k :| k in table && IsPreimage(table, keep, f, k, l) && table[k] == snap[l];
      TableIsObserved(m0, rounds, k);
      assert Image(keep, f, k, l);
    }
    forall t | InRoundAs(r, keep, f, l, t)
      ensures l in snap && (!snap[l].IsActive() ==> t <= snap[l].LastActiveTime())
    {
      var k :| Image(keep, f, k, l) && InRound(r, k, t);
      RoundMeans(left, r, k);
      EntryShows(m0, rounds, keep, f, snap, k, l);
    }
  }

  /** What was left by the fetch before shows, too. */
  lemma LeftShows<K(!new), L>(m0: State<K>, rounds: seq<Round<K>>, keep: K -> bool, f: K -> L, snap: State<L>, k: K,
                              l: L)
    requires rounds != [] && IsFetched(AtFetch(m0, rounds), keep, f, snap)
    requires Image(keep, f, k, l) && k in Left(m0, rounds[..|rounds| - 1])
    ensures l in snap
    ensures !snap[l].IsActive() ==> Left(m0, rounds[..|rounds| - 1])[k].LastActiveTime() <= snap[l].LastActiveTime()
  {
    hide ConnStatus.IsActive, ConnStatus.LastActiveTime, Left, Learned, IsFetched;
    RoundMeans(Left(m0, rounds[..|rounds| - 1]), rounds[|rounds| - 1], k);
    EntryShows(m0, rounds, keep, f, snap, k, l);
  }

  // ----- the memory of the notifier

  /** The scrapes of a run that fetches after every round, with settings that do not
      change, so that nothing is closed by force. */
  ghost predicate Follows<K(!new), L(!new)>(m0: State<K>, rounds: seq<Round<K>>, keep: K -> bool, f: K -> L,
                                            h: seq<Scrape<L>>) {
    |h| == |rounds|
    && (rounds != [] ==>
          var n := |rounds| - 1;
          && Follows(m0, rounds[..n], keep, f, h[..n]) && h[n].time == rounds[n].time
          && IsFetched(AtFetch(m0, rounds), keep, f, h[n].snap) && forall l :: !h[n].closes(l))
  }

  lemma LastHeldGrows<L>(h: seq<Scrape<L>>, l: L, i: int)
    requires h != [] && !h[|h| - 1].closes(l)
    ensures l in h[|h| - 1].snap ==> LastHeldAt(h, l, |h| - 1) && (LastHeldAt(h, l, i) ==> i == |h| - 1)
    ensures l !in h[|h| - 1].snap ==> (LastHeldAt(h, l, i) <==> LastHeldAt(h[..|h| - 1], l, i))
    ensures LastHeldAt(h, l, i) ==> 0 <= i < |h| && l in h[i].snap
  {
  }

  /** What was observed was held by some snapshot. */
  lemma {:induction false} ObservedIsHeld<K(!new), L(!new)>(m0: State<K>, rounds: seq<Round<K>>, keep: K -> bool,
                                                            f: K -> L,
                                                           h: seq<Scrape<L>>, l: L, t: int)
    requires rounds != [] && Follows(m0, rounds, keep, f, h) && ObservedAs(m0, rounds, keep, f, l, t)
    ensures exists i :: LastHeldAt(h, l, i)
  {
    hide ConnStatus.IsActive, ConnStatus.LastActiveTime, Learned, InRound, IsFetched, AtFetch, LastHeldAt;
    var n := |rounds| - 1;
    var before, snap := rounds[..n], h[n].snap;
    LastHeldGrows(h, l, n);
    if l !in snap {
      SnapshotIsObserved(m0, rounds, keep, f, snap, l);
      ObservedAsSplits(m0, rounds, keep, f, l, t);
      if before == [] {
        var k :| Image(keep, f, k, l) && Observed(m0, before, k, t);
        LeftShows(m0, rounds, keep, f, snap, k, l);
      } else {
        ObservedIsHeld(m0, before, keep, f, h[..n], l, t);
        var i :| LastHeldAt(h[..n], l, i);
        LastHeldGrows(h, l, i);
      }
    }
  }

  /** What the last snapshot to hold a name says was observed; and if it is not the latest
      snapshot, it does not show the name as active. */
  lemma {:induction false} LastHeldMeans<K(!new), L(!new)>(m0: State<K>, rounds: seq<Round<K>>, keep: K -> bool,
                                                           f: K -> L,
                                                          h: seq<Scrape<L>>, l: L, i: int)
    requires Follows(m0, rounds, keep, f, h) && LastHeldAt(h, l, i)
    ensures ObservedAs(m0, rounds, keep, f, l, h[i].snap[l].LastActiveTime())
    ensures i < |h| - 1 ==> !h[i].snap[l].IsActive()
  {
    hide ConnStatus.IsActive, ConnStatus.LastActiveTime, Learned, InRound, IsFetched, AtFetch, LastHeldAt, LiveAs,
      ObservedAs, LiveAt;
    var n := |rounds| - 1;
    WasHeld(h, l, i);
    var before, snap := rounds[..n], h[n].snap;
    LastHeldGrows(h, l, i);
    if l in snap {
      SnapshotIsObserved(m0, rounds, keep, f, snap, l);
    } else {
      LastHeldMeans(m0, before, keep, f, h[..n], l, i);
      ObservedAsSplits(m0, rounds, keep, f, l, h[i].snap[l].LastActiveTime());
      if i == n - 1 {
        ActiveIsLive(m0, before, keep, f, h[i].snap, l);
        if LiveAs(m0, before, keep, f, l) {
          LiveIsLeft(m0, rounds, keep, f, snap, l);
        }
      }
    }
  }

  lemma WasHeld<L>(h: seq<Scrape<L>>, l: L, i: int)
    requires LastHeldAt(h, l, i)
    ensures 0 <= i < |h| && l in h[i].snap
  {
  }

  /** A name that was live at the fetch before shows at this one. */
  lemma LiveIsLeft<K(!new), L>(m0: State<K>, rounds: seq<Round<K>>, keep: K -> bool, f: K -> L, snap: State<L>, l: L)
    requires |rounds| > 1 && IsFetched(AtFetch(m0, rounds), keep, f, snap)
             && LiveAs(m0, rounds[..|rounds| - 1], keep, f, l)
    ensures l in snap
  {
    hide IsFetched, AtFetch, LiveAt;
    var before := rounds[..|rounds| - 1];
    var k :| Image(keep, f, k, l) && LiveAt(m0, before, k);
    LiveAtIff(m0, before, k);
    LeftShows(m0, rounds, keep, f, snap, k, l);
  }

  /** The name is live at the last fetch, or was observed within the period before it. */
  ghost predicate LiveOrRecent<K(!new), L>(m0: State<K>, rounds: seq<Round<K>>, keep: K -> bool, f: K -> L, period: int,
                                           l: L)
    requires rounds != []
  {
    LiveAs(m0, rounds, keep, f, l)
    || exists t :: ObservedAs(m0, rounds, keep, f, l, t) && rounds[|rounds| - 1].time - t < period
  }

  /** The snapshot that was the last to hold the name says that it is older than the
      period, although it was observed within it. */
  ghost predicate Outdated<K(!new), L>(m0: State<K>, rounds: seq<Round<K>>, keep: K -> bool, f: K -> L,
                                       h: seq<Scrape<L>>,
                                       period: int, l: L)
    requires rounds != []
  {
    var now := rounds[|rounds| - 1].time;
    !LiveAs(m0, rounds, keep, f, l)
    && exists i, t :: LastHeldAt(h, l, i) && ObservedAs(m0, rounds, keep, f, l, t)
                      && now - t < period <= now - h[i].snap[l].LastActiveTime()
  }

  /** Whatever the events and scrapes and their times: what is recently active is live or
      was observed within the period; and the converse holds exactly if the name is not
      outdated. */
  lemma RecentIsObservedIff<K(!new), L(!new)>(start: int, m0: State<K>, rounds: seq<Round<K>>, keep: K -> bool,
                                              f: K -> L,
                                              h: seq<Scrape<L>>, period: int, l: L)
    requires rounds != [] && Follows(m0, rounds, keep, f, h) && Monotone(start, h)
    ensures l in RecentAfter(start, h, period) ==> LiveOrRecent(m0, rounds, keep, f, period, l)
    ensures (l in RecentAfter(start, h, period) <==> LiveOrRecent(m0, rounds, keep, f, period, l))
            <==> !Outdated(m0, rounds, keep, f, h, period, l)
  {
    hide ConnStatus.IsActive, ConnStatus.LastActiveTime, IsFetched, AtFetch, LastHeldAt, LiveAs, ObservedAs,
      RecentAfter;
    var n := |rounds| - 1;
    var now := rounds[n].time;
    RecentIsHistory(start, h, period, l);
    ActiveIsLive(m0, rounds, keep, f, h[n].snap, l);
    LastHeldGrows(h, l, n);
    if exists i :: LastHeldAt(h, l, i) {
      var i :| LastHeldAt(h, l, i);
      LastHeldMeans(m0, rounds, keep, f, h, l, i);
      LastHeldGrows(h, l, i);
      forall j | LastHeldAt(h, l, j) ensures i == j {
        LastHeldUnique(h, l, i, j);
      }
      assert OpenByHistory(h, period, l) <==>
          (i == n && h[i].snap[l].IsActive()) || now - h[i].snap[l].LastActiveTime() < period;
    } else {
      forall t | ObservedAs(m0, rounds, keep, f, l, t) ensures false {
        ObservedIsHeld(m0, rounds, keep, f, h, l, t);
      }
    }
  }

  // ----- observations in order

  /** At the last fetch, some live connection of the name is dated no earlier. */
  ghost predicate LiveSince<K(!new), L>(m0: State<K>, rounds: seq<Round<K>>, keep: K -> bool, f: K -> L, l: L, t: int)
    requires rounds != []
  {
    exists k :: Image(keep, f, k, l) && LiveAt(m0, rounds, k) && k in AtFetch(m0, rounds)
                && t <= AtFetch(m0, rounds)[k].LastActiveTime()
  }

  /** What a round observes of the name is not older than what the rounds before did, and
      whenever the name is live, some live connection is dated as late as anything that
      was observed.  Within a round the order is free. */
  ghost predicate Orderly<K(!new), L>(m0: State<K>, rounds: seq<Round<K>>, keep: K -> bool, f: K -> L, l: L) {
    rounds != [] ==>
      var before, r := rounds[..|rounds| - 1], rounds[|rounds| - 1];
      && Orderly(m0, before, keep, f, l)
      && (forall t, u :: ObservedAs(m0, before, keep, f, l, t) && InRoundAs(r, keep, f, l, u) ==> t <= u)
      && (LiveAs(m0, rounds, keep, f, l) ==>
            forall t :: ObservedAs(m0, rounds, keep, f, l, t) ==> LiveSince(m0, rounds, keep, f, l, t))
  }

  /** Then a name that is not live is up to date where it was held last. */
  lemma {:induction false} OrderlyIsUpToDate<K(!new), L(!new)>(m0: State<K>, rounds: seq<Round<K>>, keep: K -> bool,
                                                               f: K -> L,
                                                              h: seq<Scrape<L>>, l: L, i: int, t: int)
    requires Follows(m0, rounds, keep, f, h) && Orderly(m0, rounds, keep, f, l) && LastHeldAt(h, l, i)
             && !h[i].snap[l].IsActive()
    requires ObservedAs(m0, rounds, keep, f, l, t)
    ensures t <= h[i].snap[l].LastActiveTime()
  {
    hide ConnStatus.IsActive, ConnStatus.LastActiveTime, IsFetched, AtFetch, LastHeldAt, LiveAs, ObservedAs, InRoundAs,
      LiveSince;
    var n := |rounds| - 1;
    WasHeld(h, l, i);
    var before, snap := rounds[..n], h[n].snap;
    LastHeldGrows(h, l, i);
    ObservedAsSplits(m0, rounds, keep, f, l, t);
    SnapshotIsObserved(m0, rounds, keep, f, snap, l);
    if l !in snap {
      OrderlyIsUpToDate(m0, before, keep, f, h[..n], l, i, t);
    } else if ObservedAs(m0, before, keep, f, l, t) {
      EarlierIsCovered(m0, rounds, keep, f, snap, l, t);
    }
  }

  lemma EarlierIsCovered<K(!new), L>(m0: State<K>, rounds: seq<Round<K>>, keep: K -> bool, f: K -> L, snap: State<L>,
                                     l: L, t: int)
    requires rounds != [] && IsFetched(AtFetch(m0, rounds), keep, f, snap) && l in snap && !snap[l].IsActive()
    requires Orderly(m0, rounds, keep, f, l) && ObservedAs(m0, rounds[..|rounds| - 1], keep, f, l, t)
    ensures t <= snap[l].LastActiveTime()
  {
    hide ConnStatus.IsActive, ConnStatus.LastActiveTime, IsFetched, AtFetch, LiveAs, LiveAt, Learned, InRound, Left;
    var before, r := rounds[..|rounds| - 1], rounds[|rounds| - 1];
    if before == [] {
      var k :| Image(keep, f, k, l) && Observed(m0, before, k, t);
      StartIsLeft(m0, before);
      LeftShows(m0, rounds, keep, f, snap, k, l);
    } else if exists u :: InRoundAs(r, keep, f, l, u) {
      var u :| InRoundAs(r, keep, f, l, u);
      SnapshotIsObserved(m0, rounds, keep, f, snap, l);
    } else {
      OldEntryIsLeft(m0, rounds, keep, f, snap, l);
      var k :| Image(keep, f, k, l) && LiveAt(m0, before, k) && k in AtFetch(m0, before)
          && t <= AtFetch(m0, before)[k].LastActiveTime();
      LiveAtIff(m0, before, k);
      LeftShows(m0, rounds, keep, f, snap, k, l);
    }
  }

  lemma StartIsLeft<K>(m0: State<K>, rounds: seq<Round<K>>)
    requires rounds == []
    ensures Left(m0, rounds) == m0
  {
  }

  /** A name that shows, though the round did not observe it, was live at the fetch
      before. */
  lemma OldEntryIsLeft<K(!new), L>(m0: State<K>, rounds: seq<Round<K>>, keep: K -> bool, f: K -> L, snap: State<L>,
                                   l: L)
    requires |rounds| > 1 && IsFetched(AtFetch(m0, rounds), keep, f, snap) && l in snap
    requires var r := rounds[|rounds| - 1]; forall u :: !InRoundAs(r, keep, f, l, u)
    ensures LiveAs(m0, rounds[..|rounds| - 1], keep, f, l)
  {
    hide ConnStatus.IsActive, ConnStatus.LastActiveTime, IsFetched, LiveAt, Learned, InRound, Left;
    var before, r, table := rounds[..|rounds| - 1], rounds[|rounds| - 1], AtFetch(m0, rounds);
    FetchedStatus(table, keep, f, snap, l);
    var k :| k in table && IsPreimage(table, keep, f, k, l) && table[k] == snap[l];
    assert Image(keep, f, k, l);
    RoundMeans(Left(m0, before), r, k);
    var t := table[k].LastActiveTime();
    assert InRound(r, k, t) ==> InRoundAs(r, keep, f, l, t);
    LiveAtIff(m0, before, k);
  }

  lemma OrderlyIsNotOutdated<K(!new), L(!new)>(m0: State<K>, rounds: seq<Round<K>>, keep: K -> bool, f: K -> L,
                                               h: seq<Scrape<L>>, period: int, l: L)
    requires rounds != [] && Follows(m0, rounds, keep, f, h) && Orderly(m0, rounds, keep, f, l)
    ensures !Outdated(m0, rounds, keep, f, h, period, l)
  {
    hide ConnStatus.IsActive, ConnStatus.LastActiveTime, IsFetched, AtFetch, LiveAs, ObservedAs, Orderly;
    var n := |rounds| - 1;
    ActiveIsLive(m0, rounds, keep, f, h[n].snap, l);
    forall i, t | LastHeldAt(h, l, i) && ObservedAs(m0, rounds, keep, f, l, t) && !LiveAs(m0, rounds, keep, f, l)
      ensures t <= h[i].snap[l].LastActiveTime()
    {
      LastHeldGrows(h, l, i);
      LastHeldMeans(m0, rounds, keep, f, h, l, i);
      OrderlyIsUpToDate(m0, rounds, keep, f, h, l, i, t);
    }
  }

  // ----- the ordinary case

  ghost function LastSweep<K>(from: int, rounds: seq<Round<K>>): int {
    if rounds == [] then from
    else match rounds[|rounds| - 1].sweep
      case None => LastSweep(from, rounds[..|rounds| - 1])
      case Some(s) => s.ts
  }

  /** Every round scrapes, later than the round before; the events on connections of the
      name are dated between the two scrapes between which they arrive. */
  ghost predicate Timely<K(!new), L>(from: int, m0: State<K>, rounds: seq<Round<K>>, keep: K -> bool, f: K -> L, l: L) {
    if rounds == [] then forall k :: k in m0 && Image(keep, f, k, l) ==> m0[k].LastActiveTime() <= from
    else
      var before, r := rounds[..|rounds| - 1], rounds[|rounds| - 1];
      && Timely(from, m0, before, keep, f, l) && r.sweep.Some? && LastSweep(from, before) < r.sweep.value.ts
      && (forall e :: e in r.events && Image(keep, f, e.key, l) ==>
            LastSweep(from, before) < e.status.LastActiveTime() < r.sweep.value.ts)
      && (forall e :: e in r.late ==> !Image(keep, f, e.key, l))
  }

  lemma {:induction false} TimelyBound<K(!new), L>(from: int, m0: State<K>, rounds: seq<Round<K>>, keep: K -> bool,
                                                   f: K -> L, l: L, t: int)
    requires Timely(from, m0, rounds, keep, f, l) && ObservedAs(m0, rounds, keep, f, l, t)
    ensures t <= LastSweep(from, rounds)
    ensures rounds != [] && InRoundAs(rounds[|rounds| - 1], keep, f, l, t) ==>
            LastSweep(from, rounds[..|rounds| - 1]) < t
  {
    hide ConnStatus.LastActiveTime;
    if rounds != [] {
      ObservedAsSplits(m0, rounds, keep, f, l, t);
      if ObservedAs(m0, rounds[..|rounds| - 1], keep, f, l, t) {
        TimelyBound(from, m0, rounds[..|rounds| - 1], keep, f, l, t);
      }
    }
  }

  ghost predicate SeenAs<K(!new), L>(r: Round<K>, keep: K -> bool, f: K -> L, l: L) {
    r.sweep.Some? && exists k :: k in r.sweep.value.seen && Image(keep, f, k, l)
  }

  /** In a timely round a connection of the name is live exactly if the scrape has seen it,
      and then it is dated at the scrape. */
  lemma TimelyIsSeen<K(!new), L>(from: int, m0: State<K>, rounds: seq<Round<K>>, keep: K -> bool, f: K -> L, l: L, k: K)
    requires rounds != [] && Timely(from, m0, rounds, keep, f, l) && Image(keep, f, k, l)
    ensures LiveAt(m0, rounds, k) <==> k in rounds[|rounds| - 1].sweep.value.seen
    ensures LiveAt(m0, rounds, k) ==>
              k in AtFetch(m0, rounds) && AtFetch(m0, rounds)[k].LastActiveTime() == LastSweep(from, rounds)
  {
    hide ConnStatus.LastActiveTime, ConnStatus.IsActive, Left, ApplyEvents, Scraped;
    var before, r := rounds[..|rounds| - 1], rounds[|rounds| - 1];
    var left, s := Left(m0, before), r.sweep.value;
    TableIsObserved(m0, before, k);
    if k in left {
      assert ObservedAs(m0, before, keep, f, l, left[k].LastActiveTime());
      TimelyBound(from, m0, before, keep, f, l, left[k].LastActiveTime());
    }
    EventsWin(Swept(ApplyEvents(left, r.events), r.sweep), r.late, k);
    SweptActiveIff(left, r.events, s, k);
    ScrapeMeaning(ApplyEvents(left, r.events), s.seen, s.ts, k);
  }

  /** So timely observations are in order. */
  lemma {:induction false} TimelyIsOrderly<K(!new), L>(from: int, m0: State<K>, rounds: seq<Round<K>>, keep: K -> bool,
                                                       f: K -> L, l: L)
    requires Timely(from, m0, rounds, keep, f, l)
    ensures Orderly(m0, rounds, keep, f, l)
  {
    hide ConnStatus.LastActiveTime, ConnStatus.IsActive, AtFetch, LiveAt, ObservedAs, InRoundAs;
    if rounds != [] {
      var before, r := rounds[..|rounds| - 1], rounds[|rounds| - 1];
      TimelyIsOrderly(from, m0, before, keep, f, l);
      forall t, u | ObservedAs(m0, before, keep, f, l, t) && InRoundAs(r, keep, f, l, u) ensures t <= u {
        ObservedAsSplits(m0, rounds, keep, f, l, u);
        TimelyBound(from, m0, before, keep, f, l, t);
        TimelyBound(from, m0, rounds, keep, f, l, u);
      }
      if LiveAs(m0, rounds, keep, f, l) {
        var k :| Image(keep, f, k, l) && LiveAt(m0, rounds, k);
        TimelyIsSeen(from, m0, rounds, keep, f, l, k);
        forall t | ObservedAs(m0, rounds, keep, f, l, t) ensures LiveSince(m0, rounds, keep, f, l, t) {
          TimelyBound(from, m0, rounds, keep, f, l, t);
        }
      }
    }
  }
}
