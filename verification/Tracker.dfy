/** The connection tracker (ConnTracker.cpp): kernel events and scrapes update
    maps of timestamped statuses; a fetch returns a normalised snapshot and drops
    what is no longer active. */
module Tracker {
  import opened Wrappers
  import opened Addresses
  import opened Radix
  import opened Lookup
  import opened PrivateRanges
  import opened Status
  import opened Delta
  import opened Normalization

  // ----- events

  /** `EmplaceOrUpdate`: a stored status gives way to a strictly later one only. */
  function Emplaced<K(==)>(m: State<K>, k: K, status: ConnStatus): State<K> {
    if k !in m || status.LastActiveTime() > m[k].LastActiveTime() then m[k := status] else m
  }

  datatype Event<K> = Event(key: K, status: ConnStatus)

  function ApplyEvents<K(==)>(m: State<K>, events: seq<Event<K>>): State<K> {
    if events == [] then m
    else
      var e := events[|events| - 1];
      Emplaced(ApplyEvents(m, events[..|events| - 1]), e.key, e.status)
  }

  /** Events on one key with one time agree. */
  ghost predicate TimesIdentify<K>(events: seq<Event<K>>) {
    forall d, e ::
      d in events && e in events && d.key == e.key && d.status.LastActiveTime() == e.status.LastActiveTime() ==>
        d == e
  }

  /** What a key ends up with: the stored status, unless an event is later, and
      then the latest event. */
  ghost predicate Settles<K>(m: State<K>, events: seq<Event<K>>, k: K, r: State<K>) {
    && (k in r <==> k in m || exists e :: e in events && e.key == k)
    && (k in r ==>
          && (forall e :: e in events && e.key == k ==> e.status.LastActiveTime() <= r[k].LastActiveTime())
          && (k in m ==> m[k].LastActiveTime() <= r[k].LastActiveTime())
          && ((k in m && r[k] == m[k])
              || (Event(k, r[k]) in events && (k in m ==> m[k].LastActiveTime() < r[k].LastActiveTime()))))
  }

  lemma {:induction false} EventsSettle<K>(m: State<K>, events: seq<Event<K>>, k: K)
    ensures Settles(m, events, k, ApplyEvents(m, events))
  {
    hide ConnStatus.LastActiveTime;
    if events != [] {
      var n := |events| - 1;
      EventsSettle(m, events[..n], k);
      SettlesStep(m, events[..n], events[n], k, ApplyEvents(m, events[..n]));
      assert events == events[..n] + [events[n]];
    }
  }

  lemma SettlesStep<K>(m: State<K>, events: seq<Event<K>>, last: Event<K>, k: K, r: State<K>)
    requires Settles(m, events, k, r)
    ensures Settles(m, events + [last], k, Emplaced(r, last.key, last.status))
  {
    hide ConnStatus.LastActiveTime;
    var all := events + [last];
    assert forall e :: e in all <==> e in events || e == last;
  }

  /** Event `i` decides on the key: it is later than what is stored, no event on the key
      is later, and it came first among those of its time. */
  ghost predicate Wins<K>(m: State<K>, events: seq<Event<K>>, k: K, i: int) {
    && 0 <= i < |events| && events[i].key == k && (k in m ==> m[k].LastActiveTime() < events[i].status.LastActiveTime())
    && forall j :: 0 <= j < |events| && events[j].key == k ==>
         var t, u := events[i].status.LastActiveTime(), events[j].status.LastActiveTime(); u < t || (u == t && i <= j)
  }

  /** What events leave, read off their list: the status of the event that wins, or what
      was stored if none does. */
  lemma {:induction false} EventsWin<K>(m: State<K>, events: seq<Event<K>>, k: K)
    ensures var r := ApplyEvents(m, events);
            && (forall i :: Wins(m, events, k, i) ==> k in r && r[k] == events[i].status)
            && ((forall i :: !Wins(m, events, k, i)) ==> (k in r <==> k in m) && (k in m ==> r[k] == m[k]))
  {
    hide ConnStatus.LastActiveTime, Wins;
    if events == [] {
      NoWinner(m, events, k);
    } else {
      var n := |events| - 1;
      var before, r' := events[..n], ApplyEvents(m, events[..n]);
      EventsWin(m, before, k);
      if events[n].key != k {
        forall i
          ensures Wins(m, events, k, i) ==> 0 <= i < n && events[i] == before[i]
          ensures Wins(m, events, k, i) <==> Wins(m, before, k, i)
        {
          OtherKeyWins(m, events, k, i);
        }
      } else if exists i :: Wins(m, before, k, i) {
        var i :| Wins(m, before, k, i);
        LastAgainstWinner(m, events, k, i);
        assert Wins(m, events, k,
            if before[i].status.LastActiveTime() < events[n].status.LastActiveTime() then n else i);
      } else {
        EventsSettle(m, before, k);
        LastAgainstStored(m, before, events[n], k);
        assert events == before + [events[n]];
        assert Wins(m, events, k, n) <==> k in m ==> m[k].LastActiveTime() < events[n].status.LastActiveTime();
      }
    }
  }

  lemma NoWinner<K>(m: State<K>, events: seq<Event<K>>, k: K)
    requires events == []
    ensures forall i :: !Wins(m, events, k, i)
  {
  }

  lemma OtherKeyWins<K>(m: State<K>, events: seq<Event<K>>, k: K, i: int)
    requires events != [] && events[|events| - 1].key != k
    ensures Wins(m, events, k, i) ==> 0 <= i < |events| - 1
    ensures Wins(m, events, k, i) <==> Wins(m, events[..|events| - 1], k, i)
  {
    hide ConnStatus.LastActiveTime;
    var before := events[..|events| - 1];
    assert forall j :: 0 <= j < |before| ==> before[j] == events[j];
  }

  lemma LastAgainstWinner<K>(m: State<K>, events: seq<Event<K>>, k: K, i: int)
    requires events != [] && events[|events| - 1].key == k && Wins(m, events[..|events| - 1], k, i)
    ensures var n := |events| - 1;
            0 <= i < n
            && forall j :: Wins(m, events, k, j) <==>
              j == if events[i].status.LastActiveTime() < events[n].status.LastActiveTime() then n else i
  {
    hide ConnStatus.LastActiveTime;
    var before := events[..|events| - 1];
    assert forall j :: 0 <= j < |before| ==> before[j] == events[j];
  }

  lemma LastAgainstStored<K>(m: State<K>, before: seq<Event<K>>, last: Event<K>, k: K)
    requires last.key == k && forall i :: !Wins(m, before, k, i)
    requires var r := ApplyEvents(m, before);
             (k in r <==> k in m) && (k in m ==> r[k] == m[k]) && Settles(m, before, k, r)
    ensures forall j :: Wins(m, before + [last], k, j) <==>
              j == |before| && (k in m ==> m[k].LastActiveTime() < last.status.LastActiveTime())
  {
    hide ConnStatus.LastActiveTime, ApplyEvents;
    var events := before + [last];
    assert forall j :: 0 <= j < |before| ==> before[j] == events[j] && before[j] in before;
  }

  // ----- any order of arrival

  /** The event is the latest on its key, and later than what is stored. */
  ghost predicate Latest<K>(m: State<K>, events: seq<Event<K>>, e: Event<K>) {
    e in events && (e.key in m ==> m[e.key].LastActiveTime() < e.status.LastActiveTime())
    && forall d :: d in events && d.key == e.key ==> d.status.LastActiveTime() <= e.status.LastActiveTime()
  }

  /** No two different events are both the latest on a key. */
  ghost predicate Decided<K>(m: State<K>, events: seq<Event<K>>) {
    forall d, e ::
      d in events && e in events && d.key == e.key && Latest(m, events, d) && Latest(m, events, e) ==> d == e
  }

  lemma SettledIsUnique<K>(m: State<K>, events: seq<Event<K>>, k: K, r: State<K>, r': State<K>)
    requires Decided(m, events) && Settles(m, events, k, r) && Settles(m, events, k, r')
    ensures k in r <==> k in r'
    ensures k in r ==> r[k] == r'[k]
  {
    hide ConnStatus.LastActiveTime;
    if k in r {
      if Event(k, r[k]) in events && Event(k, r'[k]) in events {
        assert Latest(m, events, Event(k, r[k])) <==> (k in m ==> m[k].LastActiveTime() < r[k].LastActiveTime());
      }
    }
  }

  lemma DecidedConverges<K>(m: State<K>, events: seq<Event<K>>, events': seq<Event<K>>)
    requires multiset(events) == multiset(events') && Decided(m, events)
    ensures ApplyEvents(m, events) == ApplyEvents(m, events')
  {
    hide ApplyEvents, Settles, Decided;
    var r, r' := ApplyEvents(m, events), ApplyEvents(m, events');
    forall k | k in r ensures k in r' && r[k] == r'[k] {
      KeyConverges(m, events, events', k);
    }
    forall k | k in r' ensures k in r {
      KeyConverges(m, events, events', k);
    }
  }

  lemma KeyConverges<K>(m: State<K>, events: seq<Event<K>>, events': seq<Event<K>>, k: K)
    requires multiset(events) == multiset(events') && Decided(m, events)
    ensures var r, r' := ApplyEvents(m, events), ApplyEvents(m, events');
            (k in r <==> k in r') && (k in r ==> r[k] == r'[k])
  {
    hide ApplyEvents, Settles, Decided;
    var r, r' := ApplyEvents(m, events), ApplyEvents(m, events');
    EventsSettle(m, events, k);
    EventsSettle(m, events', k);
    SettlesSameEvents(m, events, events', k, r');
    SettledIsUnique(m, events, k, r, r');
  }

  lemma SettlesSameEvents<K>(m: State<K>, events: seq<Event<K>>, events': seq<Event<K>>, k: K, r: State<K>)
    requires multiset(events) == multiset(events') && Settles(m, events', k, r)
    ensures Settles(m, events, k, r)
  {
    hide ConnStatus.LastActiveTime;
    assert forall e :: e in events <==> e in multiset(events);
    assert forall e :: e in events' <==> e in multiset(events');
  }

  /** The list with one event moved to the front. */
  ghost function ToFront<K>(events: seq<Event<K>>, i: nat): seq<Event<K>>
    requires i < |events|
  {
    [events[i]] + events[..i] + events[i + 1..]
  }

  lemma ToFrontSameEvents<K>(events: seq<Event<K>>, i: nat)
    requires i < |events|
    ensures multiset(ToFront(events, i)) == multiset(events)
  {
    assert events == events[..i] + [events[i]] + events[i + 1..];
  }

  /** A latest event that arrives first stays. */
  lemma FirstStays<K>(m: State<K>, events: seq<Event<K>>, i: nat)
    requires i < |events| && Latest(m, events, events[i])
    ensures var r, k := ApplyEvents(m, ToFront(events, i)), events[i].key; k in r && r[k] == events[i].status
  {
    hide ConnStatus.LastActiveTime, ApplyEvents;
    var moved := ToFront(events, i);
    ToFrontSameEvents(events, i);
    forall j | 0 <= j < |moved| ensures moved[j] in events {
      assert moved[j] in multiset(moved);
    }
    EventsWin(m, moved, events[i].key);
    assert Wins(m, moved, events[i].key, 0);
  }

  /** Out-of-order delivery: every arrival order of the events leads to the same state if
      and only if no two different events are both the latest on their key. */
  lemma EventsConvergeIff<K(!new)>(m: State<K>, events: seq<Event<K>>)
    ensures (forall o :: multiset(o) == multiset(events) ==> ApplyEvents(m, o) == ApplyEvents(m, events)) <==>
            Decided(m, events)
  {
    hide ApplyEvents, Decided;
    if Decided(m, events) {
      forall o | multiset(o) == multiset(events) ensures ApplyEvents(m, o) == ApplyEvents(m, events) {
        DecidedConverges(m, events, o);
      }
    } else {
      var o, o' := Undecided(m, events);
      assert ApplyEvents(m, o) != ApplyEvents(m, events) || ApplyEvents(m, o') != ApplyEvents(m, events);
    }
  }

  /** Two different latest events, each moved to the front, leave different states. */
  lemma Undecided<K(!new)>(m: State<K>, events: seq<Event<K>>) returns (o: seq<Event<K>>, o': seq<Event<K>>)
    requires !Decided(m, events)
    ensures multiset(o) == multiset(events) == multiset(o') && ApplyEvents(m, o) != ApplyEvents(m, o')
  {
    hide ApplyEvents, Latest;
    var d, e :| d in events && e in events && d.key == e.key && Latest(m, events, d) && Latest(m, events, e) && d != e;
    var i :| 0 <= i < |events| && events[i] == d;
    var j :| 0 <= j < |events| && events[j] == e;
    o, o' := ToFront(events, i), ToFront(events, j);
    ToFrontSameEvents(events, i);
    ToFrontSameEvents(events, j);
    FirstStays(m, events, i);
    FirstStays(m, events, j);
  }

  /** In particular when events on one key with one time agree. */
  lemma EventsConverge<K(!new)>(m: State<K>, events: seq<Event<K>>, events': seq<Event<K>>)
    requires multiset(events) == multiset(events') && TimesIdentify(events)
    ensures ApplyEvents(m, events) == ApplyEvents(m, events')
  {
    hide ApplyEvents;
    EventsConvergeIff(m, events);
  }

  /** Without distinct times the order shows: the first event of a time wins. */
  lemma SimultaneousEventsDoNotConverge<K>(k: K)
    ensures var open, close := Event(k, NewStatus(1, true)), Event(k, NewStatus(1, false));
            ApplyEvents(map[], [open, close]) != ApplyEvents(map[], [close, open])
  {
    var open, close := Event(k, NewStatus(1, true)), Event(k, NewStatus(1, false));
    PackingKeepsBoth(1, true);
    PackingKeepsBoth(1, false);
    FirstOfTwoWins(open, close);
    FirstOfTwoWins(close, open);
  }

  lemma FirstOfTwoWins<K>(d: Event<K>, e: Event<K>)
    requires d.key == e.key && d.status.LastActiveTime() == e.status.LastActiveTime()
    ensures ApplyEvents(map[], [d, e]) == map[d.key := d.status]
  {
    assert [d, e][..1] == [d] && [d][..0] == [];
    var none: State<K> := map[];
    assert ApplyEvents(none, [d][..0]) == none;
    assert ApplyEvents(none, [d]) == none[d.key := d.status];
  }

  // ----- scrapes

  function AllInactive<K(==)>(m: State<K>): State<K> {
    map k | k in m :: m[k].WithStatus(false)
  }

  function Sightings<K>(items: seq<K>, status: ConnStatus): (r: seq<Event<K>>)
    ensures |r| == |items| && forall i :: 0 <= i < |items| ==> r[i] == Event(items[i], status)
  {
    if items == [] then [] else Sightings(items[..|items| - 1], status) + [Event(items[|items| - 1], status)]
  }

  /** The effect of a scrape on one map. */
  function Scraped<K(==)>(m: State<K>, items: seq<K>, timestamp: Int64): State<K> {
    ApplyEvents(AllInactive(m), Sightings(items, NewStatus(timestamp, true)))
  }

  /** After a scrape exactly those keys are active that were scraped and had no
      status as late as the scrape. */
  lemma ScrapeMeaning<K>(m: State<K>, items: seq<K>, timestamp: Int64, k: K)
    requires 0 <= timestamp
    ensures var r := Scraped(m, items, timestamp);
            && (k in r <==> k in m || k in items)
            && (k in r ==>
                  (r[k].IsActive() <==> k in items && (k !in m || m[k].LastActiveTime() < timestamp)))
            && (k in r ==>
                  r[k].LastActiveTime() == if r[k].IsActive() then timestamp else m[k].LastActiveTime())
  {
    hide ConnStatus.LastActiveTime, ConnStatus.IsActive, ApplyEvents, NewStatus, ConnStatus.WithStatus;
    var status := NewStatus(timestamp, true);
    var events := Sightings(items, status);
    PackingKeepsBoth(timestamp, true);
    if k in m {
      WithStatusChangesFlagOnly(m[k], false);
    }
    EventsSettle(AllInactive(m), events, k);
    assert forall e :: e in events ==> e.status == status;
    if k in items {
      var i :| 0 <= i < |items| && items[i] == k;
      assert events[i] == Event(k, status);
    }
  }

  method Deactivate<K(==)>(m: State<K>) returns (r: State<K>)
    ensures r == AllInactive(m)
  {
    hide ConnStatus.WithStatus;
    r := m;
    var todo := m.Keys;
    while todo != {}
      invariant todo <= m.Keys && r.Keys == m.Keys
      invariant forall k :: k in m ==> r[k] == if k in todo then m[k] else m[k].WithStatus(false)
      decreases |todo|
    {
      var k :| k in todo;
      todo := todo - {k};
      r := r[k := r[k].WithStatus(false)];
    }
  }

  method EmplaceAll<K(==)>(m: State<K>, items: seq<K>, status: ConnStatus) returns (r: State<K>)
    ensures r == ApplyEvents(m, Sightings(items, status))
  {
    r := m;
    for i := 0 to |items|
      invariant r == ApplyEvents(m, Sightings(items[..i], status))
    {
      assert items[..i + 1][..i] == items[..i];
      var seen := Sightings(items[..i + 1], status);
      assert seen[..i] == Sightings(items[..i], status);
      r := Emplaced(r, items[i], status);
    }
    assert items[..|items|] == items;
  }

  // ----- fetching a snapshot

  /** `out` holds, for the image of every kept entry, the largest status of its
      preimages. */
  ghost predicate IsFetched<K, L>(state: State<K>, keep: K -> bool, f: K -> L, out: State<L>) {
    && (forall k :: k in state && keep(k) ==> f(k) in out && state[k].data <= out[f(k)].data)
    && (forall l :: l in out ==> exists k :: k in state && IsPreimage(state, keep, f, k, l) && state[k] == out[l])
  }

  /** `out` holds, for the image of every kept entry, the status of some preimage. */
  ghost predicate IsPicked<K, L>(state: State<K>, keep: K -> bool, f: K -> L, out: State<L>) {
    && (forall k :: k in state && keep(k) ==> f(k) in out)
    && (forall l :: l in out ==> exists k :: k in state && IsPreimage(state, keep, f, k, l) && state[k] == out[l])
  }

  ghost predicate IsPreimage<K, L>(state: State<K>, keep: K -> bool, f: K -> L, k: K, l: L) {
    k in state && keep(k) && f(k) == l
  }

  ghost predicate InjectiveOn<K, L>(state: State<K>, f: K -> L) {
    forall j, k :: j in state && k in state && f(j) == f(k) ==> j == k
  }

  /** The snapshot is determined, so it does not depend on the iteration order. */
  lemma FetchedIsUnique<K, L>(state: State<K>, keep: K -> bool, f: K -> L, out: State<L>, out': State<L>)
    requires IsFetched(state, keep, f, out) && IsFetched(state, keep, f, out')
    ensures out == out'
  {
    forall l | l in out ensures l in out' && out[l] == out'[l] {
      var k :| IsPreimage(state, keep, f, k, l) && state[k] == out[l];
      var k' :| IsPreimage(state, keep, f, k', l) && state[k'] == out'[l];
    }
    forall l | l in out' ensures l in out {
      var k :| IsPreimage(state, keep, f, k, l) && state[k] == out'[l];
    }
  }

  /** A snapshot entry is active iff one of its preimages is; its time is the
      latest among the active preimages if any, and among all otherwise. */
  lemma FetchedStatus<K, L>(state: State<K>, keep: K -> bool, f: K -> L, out: State<L>, l: L)
    requires IsFetched(state, keep, f, out) && l in out
    ensures out[l].IsActive() <==> exists k :: k in state && IsPreimage(state, keep, f, k, l) && state[k].IsActive()
    ensures forall k :: IsPreimage(state, keep, f, k, l) && state[k].IsActive() == out[l].IsActive() ==>
              state[k].LastActiveTime() <= out[l].LastActiveTime()
    ensures exists k :: k in state && IsPreimage(state, keep, f, k, l) && state[k] == out[l]
  {
    hide ConnStatus.IsActive, ConnStatus.LastActiveTime;
    var k :| IsPreimage(state, keep, f, k, l) && state[k] == out[l];
    forall j | IsPreimage(state, keep, f, j, l)
      ensures state[j].IsActive() ==> out[l].IsActive()
      ensures state[j].IsActive() == out[l].IsActive() ==> state[j].LastActiveTime() <= out[l].LastActiveTime()
    {
      MergePrefersActiveThenLater(state[j], out[l]);
    }
  }

  ghost function Cleared<K>(state: State<K>, clearInactive: bool): State<K> {
    map k | k in state && (clearInactive ==> state[k].IsActive()) :: state[k]
  }

  lemma FetchStep<K, L>(seen: State<K>, keep: K -> bool, f: K -> L, out: State<L>, k: K, status: ConnStatus)
    requires IsFetched(seen, keep, f, out) && k !in seen
    ensures var merged := if f(k) in out then out[f(k)].MergeFrom(status) else status;
            IsFetched(seen[k := status], keep, f, if keep(k) then out[f(k) := merged] else out)
  {
    hide ConnStatus.IsActive;
    var seen' := seen[k := status];
    var merged := if f(k) in out then out[f(k)].MergeFrom(status) else status;
    var out' := if keep(k) then out[f(k) := merged] else out;
    forall l | l in out' ensures exists j :: j in seen' && IsPreimage(seen', keep, f, j, l) && seen'[j] == out'[l] {
      if l in out && out'[l] == out[l] {
        var j :| j in seen && IsPreimage(seen, keep, f, j, l) && seen[j] == out[l];
        assert j in seen' && seen'[j] == seen[j];
        assert IsPreimage(seen', keep, f, j, l);
      } else {
        assert IsPreimage(seen', keep, f, k, l) && seen'[k] == out'[l];
      }
    }
  }

  lemma PickStep<K, L>(seen: State<K>, keep: K -> bool, f: K -> L, out: State<L>, k: K, status: ConnStatus,
                       picked: ConnStatus)
    requires IsPicked(seen, keep, f, out) && k !in seen
    requires picked == status || (f(k) in out && picked == out[f(k)])
    ensures IsPicked(seen[k := status], keep, f, if keep(k) then out[f(k) := picked] else out)
  {
    var seen' := seen[k := status];
    var out' := if keep(k) then out[f(k) := picked] else out;
    forall l | l in out' ensures exists j :: j in seen' && IsPreimage(seen', keep, f, j, l) && seen'[j] == out'[l] {
      if l in out && out'[l] == out[l] {
        var j :| j in seen && IsPreimage(seen, keep, f, j, l) && seen[j] == out[l];
        assert j in seen' && seen'[j] == seen[j];
        assert IsPreimage(seen', keep, f, j, l);
      } else {
        assert IsPreimage(seen', keep, f, k, l) && seen'[k] == out'[l];
      }
    }
  }

  /** `FetchState`, over the state in any order.  With normalisation the statuses of
      equal images are merged; without, the first one met stays. */
  method FetchState<K(==), L(==)>(state: State<K>, clearInactive: bool, normalize: bool, f: K -> L, keep: K -> bool)
    returns (fetched: State<L>, rest: State<K>)
    ensures IsPicked(state, keep, f, fetched)
    ensures normalize || InjectiveOn(state, f) ==> IsFetched(state, keep, f, fetched)
    ensures rest == Cleared(state, clearInactive)
  {
    hide IsFetched, IsPicked, ConnStatus.MergeFrom, ConnStatus.IsActive, InjectiveOn;
    fetched, rest := map[], state;
    var todo := state.Keys;
    ghost var seen: State<K> := map[];
    NothingFetched(keep, f);
    while todo != {}
      invariant todo <= state.Keys
      invariant forall k :: k in seen <==> k in state && k !in todo
      invariant forall k :: k in seen ==> seen[k] == state[k]
      invariant forall k :: k in rest <==> k in state && (k in todo || (clearInactive ==> state[k].IsActive()))
      invariant forall k :: k in rest ==> rest[k] == state[k]
      invariant IsPicked(seen, keep, f, fetched)
      invariant normalize || InjectiveOn(state, f) ==> IsFetched(seen, keep, f, fetched)
      decreases |todo|
    {
      var k :| k in todo;
      todo := todo - {k};
      var status := state[k];
      if normalize || InjectiveOn(state, f) {
        FetchStep(seen, keep, f, fetched, k, status);
        if !normalize {
          NewImage(state, seen, keep, f, fetched, k);
        }
      }
      if keep(k) {
        if f(k) !in fetched {
          PickStep(seen, keep, f, fetched, k, status, status);
          fetched := fetched[f(k) := status];
        } else if normalize {
          var merged := fetched[f(k)].MergeFrom(status);
          MergedIsEither(fetched[f(k)], status);
          PickStep(seen, keep, f, fetched, k, status, merged);
          fetched := fetched[f(k) := merged];
        } else {
          PickStep(seen, keep, f, fetched, k, status, fetched[f(k)]);
          assert fetched[f(k) := fetched[f(k)]] == fetched;
        }
      } else {
        PickStep(seen, keep, f, fetched, k, status, status);
      }
      seen := seen[k := status];
      if clearInactive && !status.IsActive() {
        rest := rest - {k};
      }
    }
    assert seen == state;
  }

  lemma MergedIsEither(s: ConnStatus, r: ConnStatus)
    ensures s.MergeFrom(r) == s || s.MergeFrom(r) == r
  {
  }

  /** The image of a new entry is new if images identify their entries. */
  lemma NewImage<K, L>(state: State<K>, seen: State<K>, keep: K -> bool, f: K -> L, out: State<L>, k: K)
    requires InjectiveOn(state, f) && IsPicked(seen, keep, f, out) && seen.Keys <= state.Keys && k in state
             && k !in seen
    ensures f(k) !in out
  {
  }

  lemma NothingFetched<K, L>(keep: K -> bool, f: K -> L)
    ensures IsFetched(map[], keep, f, map[]) && IsPicked(map[], keep, f, map[])
  {
  }

  // ----- endpoints

  datatype Process = Process(pid: nat, comm: string, exePath: string, args: string)

  datatype ContainerEndpoint =
    ContainerEndpoint(container: string, endpoint: Endpoint, l4proto: L4Proto, originator: Option<Process>)

  /** What is sent about a process. */
  datatype AdvertisedProcess = AdvertisedProcess(comm: string, exePath: string, args: string)

  /** The class of an endpoint under the equality of the advertised map. */
  datatype AdvertisedEndpoint =
    AdvertisedEndpoint(container: string, endpoint: Endpoint, l4proto: L4Proto, originator: Option<AdvertisedProcess>)

  function Advertised(cep: ContainerEndpoint): AdvertisedEndpoint {
    AdvertisedEndpoint(cep.container, cep.endpoint, cep.l4proto,
                       match cep.originator
                       case None => None
                       case Some(p) => Some(AdvertisedProcess(p.comm, p.exePath, p.args)))
  }

  /** The equality of the advertised map, as the code tests it. */
  predicate AdvertisedEqual(l: ContainerEndpoint, r: ContainerEndpoint) {
    if l.originator.Some? != r.originator.Some? then false
    else if l.originator.Some?
         && (l.originator.value.comm != r.originator.value.comm
             || l.originator.value.exePath != r.originator.value.exePath
             || l.originator.value.args != r.originator.value.args) then false
    else l.container == r.container && l.endpoint == r.endpoint && l.l4proto == r.l4proto
  }

  /** So a map under that equality is a map keyed by what is advertised. */
  lemma AdvertisedIsTheClass(l: ContainerEndpoint, r: ContainerEndpoint)
    ensures AdvertisedEqual(l, r) <==> Advertised(l) == Advertised(r)
  {
  }

  function NormalizeEndpoint(cep: ContainerEndpoint): ContainerEndpoint {
    var any := Address(cep.endpoint.network.address.family, Words.ZERO, Words.ZERO);
    cep.(endpoint := Endpoint(HostNet(any), cep.endpoint.port))
  }

  // ----- the tracker object

  class ConnectionTracker {
    var connState: State<Connection>
    var endpointState: State<ContainerEndpoint>
    var settings: Settings
    var externalIPs: ExternalIPs
    var ignoredPorts: set<(L4Proto, nat)>
    var ignoredNetworks: Contents

    constructor (settings: Settings)
      ensures connState == map[] && endpointState == map[] && this.settings == settings
      ensures externalIPs == ExternalIPs(false, false) && ignoredPorts == {} && ignoredNetworks == map[]
    {
      connState, endpointState := map[], map[];
      this.settings, externalIPs := settings, ExternalIPs(false, false);
      ignoredPorts, ignoredNetworks := {}, map[];
    }

    /** A kernel event: a connection was added or removed. */
    method UpdateConnection(conn: Connection, timestamp: Int64, added: bool)
      modifies this`connState
      ensures connState == ApplyEvents(old(connState), [Event(conn, NewStatus(timestamp, added))])
    {
      var before := connState;
      connState := Emplaced(connState, conn, NewStatus(timestamp, added));
      assert ApplyEvents(before, [Event(conn, NewStatus(timestamp, added))][..0]) == before;
    }

    /** A scrape: everything known becomes inactive, everything seen active. */
    method Update(allConns: seq<Connection>, allEndpoints: seq<ContainerEndpoint>, timestamp: Int64)
      modifies this`connState, this`endpointState
      ensures connState == Scraped(old(connState), allConns, timestamp)
      ensures endpointState == Scraped(old(endpointState), allEndpoints, timestamp)
    {
      connState := Deactivate(connState);
      endpointState := Deactivate(endpointState);
      var newStatus := NewStatus(timestamp, true);
      connState := EmplaceAll(connState, allConns, newStatus);
      endpointState := EmplaceAll(endpointState, allEndpoints, newStatus);
    }

    method SetExternalIPsConfig(config: ExternalIPs)
      modifies this`externalIPs
      ensures externalIPs == config
    {
      externalIPs := config;
    }

    /** Fetch the connections, under the current settings, and drop the inactive
        ones if asked. */
    method FetchConnState(normalize: bool, clearInactive: bool) returns (cm: State<Connection>)
      modifies this`connState
      ensures connState == Cleared(old(connState), clearInactive)
      ensures IsFetched(old(connState), Fetchable(ignoredPorts, ignoredNetworks),
                        if normalize then Normalizer(settings, externalIPs) else Identity(), cm)
    {
      var f := if normalize then Normalizer(settings, externalIPs) else Identity();
      cm, connState := FetchState(connState, clearInactive, normalize, f, Fetchable(ignoredPorts, ignoredNetworks));
    }

    /** Fetch the endpoints by what is advertised of them.  Without normalisation,
        endpoints that are advertised alike are not merged: one of them stands. */
    method FetchEndpointState(normalize: bool, clearInactive: bool) returns (cem: State<AdvertisedEndpoint>)
      modifies this`endpointState
      ensures endpointState == Cleared(old(endpointState), clearInactive)
      ensures normalize ==> IsFetched(old(endpointState), FetchableEndpoint(ignoredPorts), EndpointNormalizer(), cem)
      ensures !normalize ==> IsPicked(old(endpointState), FetchableEndpoint(ignoredPorts), Advertiser(), cem)
    {
      var f := if normalize then EndpointNormalizer() else Advertiser();
      cem, endpointState := FetchState(endpointState, clearInactive, normalize, f, FetchableEndpoint(ignoredPorts));
    }

    /** Filters and settings as the control messages leave them. */
    method Configure(settings: Settings, ignoredPorts: set<(L4Proto, nat)>, ignoredNetworks: Contents)
      modifies this`settings, this`ignoredPorts, this`ignoredNetworks
      ensures this.settings == settings && this.ignoredPorts == ignoredPorts && this.ignoredNetworks == ignoredNetworks
    {
      this.settings, this.ignoredPorts, this.ignoredNetworks := settings, ignoredPorts, ignoredNetworks;
    }

    /** `UpdateKnownIPNetworks`, with the lists of the families in the order in which
        the source meets them.  The flags are those of `TouchesPrivate`. */
    method UpdateKnownIPNetworks(families: seq<Family>, lists: seq<seq<IPNet>>)
      requires |families| == |lists|
      modifies this`settings
      ensures settings == old(settings).(knownNetworks := Build(Flatten(lists)),
              knownPrivateExists := settings.knownPrivateExists)
      ensures forall f :: f in settings.knownPrivateExists <==> f in families
      ensures HonestFlags(settings)
    {
      hide Build, TouchesPrivate, NRadixTree.Valid, NRadixTree.Stored;
      var nets := Flatten(lists);
      var tree := FromList(nets);
      var flags: map<Family, bool> := map[];
      for i := 0 to |families|
        invariant tree.Valid() && tree.Stored() == Build(nets) && settings == old(settings)
        invariant forall f :: f in flags <==> f in families[..i]
        invariant forall f :: f in flags ==> (flags[f] <==> TouchesPrivate(f, Build(nets)))
      {
        var touches := ContainsPrivateNetwork(families[i], tree);
        flags := flags[families[i] := touches];
      }
      settings := settings.(knownNetworks := Build(nets), knownPrivateExists := flags);
    }
  }

  function Flatten(lists: seq<seq<IPNet>>): seq<IPNet> {
    if lists == [] then [] else lists[0] + Flatten(lists[1..])
  }

  /** The lists one after the other. */
  lemma {:induction false} FlattenConcat(a: seq<seq<IPNet>>, b: seq<seq<IPNet>>)
    ensures Flatten(a + b) == Flatten(a) + Flatten(b)
    ensures |a| == 1 ==> Flatten(a) == a[0]
  {
    if a == [] {
      assert a + b == b;
    } else {
      FlattenConcat(a[1..], b);
      assert (a + b)[1..] == a[1..] + b;
    }
  }

  function Advertiser(): ContainerEndpoint -> AdvertisedEndpoint {
    (cep: ContainerEndpoint) => Advertised(cep)
  }

  function Identity(): Connection -> Connection {
    (conn: Connection) => conn
  }

  function Normalizer(s: Settings, ext: ExternalIPs): Connection -> Connection {
    (conn: Connection) => NormalizeConnection(s, ext, conn)
  }

  function EndpointNormalizer(): ContainerEndpoint -> AdvertisedEndpoint {
    (cep: ContainerEndpoint) => Advertised(NormalizeEndpoint(cep))
  }

  /** `ShouldFetchConnection`; without filters it holds of everything. */
  function Fetchable(ports: set<(L4Proto, nat)>, networks: Contents): Connection -> bool {
    (conn: Connection) =>
      (conn.l4proto, conn.local.port) !in ports
      && (conn.l4proto, conn.remote.port) !in ports
      && FindNet(networks, HostNet(conn.RemoteAddress())).IsNull()
  }

  lemma {:induction false} EmptyTreeFindsNothing(path: Path, n: nat)
    requires n <= |path|
    ensures DeepestUpTo(map[], path, n) == None
  {
    if n > 0 {
      EmptyTreeFindsNothing(path, n - 1);
    }
  }

  /** The code skips the filter when there is none; that fetches the same. */
  lemma NoFilterFetchesAll(conn: Connection)
    ensures Fetchable({}, map[])(conn)
  {
    var q := HostNet(conn.RemoteAddress());
    EmptyTreeFindsNothing(Key(q), |Key(q)|);
  }

  /** Neither end of the connection uses an ignored protocol and port, and no ignored network
      contains the remote address. */
  ghost predicate Unignored(ports: set<(L4Proto, nat)>, nets: seq<IPNet>, conn: Connection) {
    UnignoredPorts(ports, conn) && forall n :: n in nets && n.bits > 0 ==> !Contains(n, conn.RemoteAddress())
  }

  predicate UnignoredPorts(ports: set<(L4Proto, nat)>, conn: Connection) {
    forall port :: port in {conn.local.port, conn.remote.port} ==> (conn.l4proto, port) !in ports
  }

  /** The filter keeps exactly the connections that nothing in the lists ignores, unless a
      longer network of the other family hides the ignored one from the lookup. */
  lemma FilterIsScanIff(ports: set<(L4Proto, nat)>, nets: seq<IPNet>, conn: Connection)
    ensures Unignored(ports, nets, conn) ==> Fetchable(ports, Build(nets))(conn)
    ensures (Fetchable(ports, Build(nets))(conn) <==> Unignored(ports, nets, conn))
            <==> Unhidden(nets, conn.RemoteAddress()) || !UnignoredPorts(ports, conn)
  {
    hide Build, Contains, Scan, FindNet;
    var a := conn.RemoteAddress();
    LookupIsScanIff(nets, a);
    assert (conn.l4proto, conn.local.port) !in ports && (conn.l4proto, conn.remote.port) !in ports <==>
        UnignoredPorts(ports, conn);
  }

  /** A lookup of an address finds nothing exactly if no listed network contains it, unless
      that is hidden. */
  lemma LookupIsScanIff(nets: seq<IPNet>, a: Address)
    ensures var found := !FindNet(Build(nets), HostNet(a)).IsNull();
            var contained := exists n :: n in nets && n.bits > 0 && Contains(n, a);
            (found ==> contained) && ((found <==> contained) <==> Unhidden(nets, a))
  {
    hide Build, Contains, Scan;
    var q := HostNet(a);
    ScanIsFirstLongest(nets, q, true);
    ScanIsFirstLongest(nets, q, false);
    ScansCompare(nets, q);
    DeepestIsScan(nets, q);
    forall n | n in nets ensures Covers(n, q, false) <==> n.bits > 0 && Contains(n, a) {
      CoversIsContains(n, q);
      ContainsIsPrefix(n, a);
    }
  }

  /** What is reported of a listening endpoint: its port, but of its address only the
      family, and of its process what is advertised. */
  lemma EndpointName(cep: ContainerEndpoint)
    ensures var name := EndpointNormalizer()(cep);
            && name.container == cep.container && name.l4proto == cep.l4proto && name.endpoint.port == cep.endpoint.port
            && name.endpoint.network.address.IsNull()
            && name.endpoint.network.address.family == cep.endpoint.network.address.family
            && (name.originator.None? <==> cep.originator.None?)
            && (cep.originator.Some? ==>
                  var sent, process := name.originator.value, cep.originator.value;
                  sent.comm == process.comm && sent.exePath == process.exePath && sent.args == process.args)
  {
  }

  /** Two endpoints that are reported as one. */
  predicate SameListener(c: ContainerEndpoint, d: ContainerEndpoint) {
    && c.container == d.container && c.l4proto == d.l4proto && c.endpoint.port == d.endpoint.port
    && c.endpoint.network.address.family == d.endpoint.network.address.family
    && (c.originator.None? <==> d.originator.None?)
    && (c.originator.Some? ==>
          var p, q := c.originator.value, d.originator.value;
          p.comm == q.comm && p.exePath == q.exePath && p.args == q.args)
  }

  lemma EndpointNamesIdentify(c: ContainerEndpoint, d: ContainerEndpoint)
    ensures EndpointNormalizer()(c) == EndpointNormalizer()(d) <==> SameListener(c, d)
  {
  }

  function FetchableEndpoint(ports: set<(L4Proto, nat)>): ContainerEndpoint -> bool {
    (cep: ContainerEndpoint) => (cep.l4proto, cep.endpoint.port) !in ports
  }
}
