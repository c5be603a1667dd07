/** Whole runs of the delta protocol: what a consumer that only sees the deltas
    holds after any number of scrapes. */
module Runs {
  import opened Status
  import opened Delta

  /** A consumer opens the keys reported active and closes the others. */
  ghost function Apply<K>(open: set<K>, report: State<K>): set<K> {
    (open - (set k | k in report && !report[k].IsActive())) + (set k | k in report && report[k].IsActive())
  }

  /** What a consumer holds after some reports. */
  ghost function Replay<K>(reports: seq<State<K>>): set<K> {
    if reports == [] then {} else Apply(Replay(reports[..|reports| - 1]), reports[|reports| - 1])
  }

  ghost function ActiveKeys<K>(s: State<K>): set<K> {
    set k | k in s && s[k].IsActive()
  }

  ghost function RecentKeys<K>(s: State<K>, time: int, period: int): set<K> {
    set k | k in s && s[k].WasRecentlyActive(time, period)
  }

  // ----- reports that are cut down

  /** A report that may leave out opens, but no close (rate limiting). */
  ghost predicate DropsOnlyOpens<K>(sent: State<K>, due: State<K>) {
    (forall k :: k in sent ==> k in due && sent[k] == due[k])
    && (forall k :: k in due && !due[k].IsActive() ==> k in sent)
  }

  ghost predicate Limited<K>(sent: seq<State<K>>, due: seq<State<K>>) {
    |sent| == |due| && forall i :: 0 <= i < |due| ==> DropsOnlyOpens(sent[i], due[i])
  }

  ghost function Dropped<K>(sent: State<K>, due: State<K>): set<K> {
    due.Keys - sent.Keys
  }

  /** A report on the way from one goal to the next: it opens only what becomes a
      goal, and what was one stays one unless it is closed. */
  ghost predicate Tracks<K>(from: set<K>, due: State<K>, to: set<K>) {
    forall k :: k in due.Keys + from ==> TracksKey(from, due, to, k)
  }

  ghost predicate TracksKey<K>(from: set<K>, due: State<K>, to: set<K>, k: K) {
    if k in due then due[k].IsActive() ==> k in to && k !in from else k in from ==> k in to
  }

  /** Goals that the report itself fails to lead to: it closes them, or it does not
      mention them though they are new. */
  ghost function Faults<K>(from: set<K>, due: State<K>, to: set<K>): set<K> {
    set k | k in to && if k in due then !due[k].IsActive() else k !in from
  }

  ghost function LastGoal<K>(goals: seq<set<K>>): set<K> {
    if goals == [] then {} else goals[|goals| - 1]
  }

  ghost predicate Course<K>(due: seq<State<K>>, goals: seq<set<K>>) {
    |due| == |goals| && forall i :: 0 <= i < |due| ==> Tracks(LastGoal(goals[..i]), due[i], goals[i])
  }

  ghost predicate Faultless<K>(due: seq<State<K>>, goals: seq<set<K>>) {
    |due| == |goals| && forall i :: 0 <= i < |due| ==> Faults(LastGoal(goals[..i]), due[i], goals[i]) == {}
  }

  /** What a consumer misses of goals that it is led to by cut-down reports: once an
      open was dropped, or a report was at fault, the key stays missing for as long
      as it stays a goal. */
  ghost function Missing<K>(due: seq<State<K>>, goals: seq<set<K>>, sent: seq<State<K>>): set<K>
    requires |due| == |goals| == |sent|
  {
    if due == [] then {}
    else
      var n := |due| - 1;
      Missing(due[..n], goals[..n], sent[..n]) * goals[n]
      + Dropped(sent[n], due[n]) + Faults(LastGoal(goals[..n]), due[n], goals[n])
  }

  lemma CourseShrinks<K>(due: seq<State<K>>, goals: seq<set<K>>)
    requires |due| == |goals| > 0
    ensures var n := |due| - 1;
            && (Course(due, goals) <==> Course(due[..n], goals[..n]) && Tracks(LastGoal(goals[..n]), due[n], goals[n]))
            && (Faultless(due, goals) <==>
                  Faultless(due[..n], goals[..n]) && Faults(LastGoal(goals[..n]), due[n], goals[n]) == {})
  {
    hide Tracks, Faults, LastGoal;
    var n := |due| - 1;
    assert forall i :: 0 <= i < n ==> goals[..n][..i] == goals[..i];
  }

  lemma LimitedStep<K>(from: set<K>, due: State<K>, to: set<K>, sent: State<K>, missing: set<K>)
    requires Tracks(from, due, to) && DropsOnlyOpens(sent, due) && missing <= from
    ensures var missing' := missing * to + Dropped(sent, due) + Faults(from, due, to);
            missing' <= to && Apply(from - missing, sent) == to - missing'
  {
    var missing' := missing * to + Dropped(sent, due) + Faults(from, due, to);
    forall k ensures (k in Apply(from - missing, sent) <==> k in to && k !in missing') && (k in missing' ==> k in to) {
      assert TracksKey(from, due, to, k);
    }
  }

  /** The consumer holds exactly the latest goal but the missing keys. */
  lemma {:induction false} LimitedReplay<K>(due: seq<State<K>>, goals: seq<set<K>>, sent: seq<State<K>>)
    requires Course(due, goals) && Limited(sent, due)
    ensures Missing(due, goals, sent) <= LastGoal(goals)
    ensures Replay(sent) == LastGoal(goals) - Missing(due, goals, sent)
  {
    hide Tracks, Faults, DropsOnlyOpens, Apply, Dropped;
    if due != [] {
      var n := |due| - 1;
      CourseShrinks(due, goals);
      LimitedReplay(due[..n], goals[..n], sent[..n]);
      LimitedStep(LastGoal(goals[..n]), due[n], goals[n], sent[n], Missing(due[..n], goals[..n], sent[..n]));
    }
  }

  /** Report `i` did not bring the key, and the key was a goal ever since. */
  ghost predicate MissedAt<K>(due: seq<State<K>>, goals: seq<set<K>>, sent: seq<State<K>>, k: K, i: int)
    requires |due| == |goals| == |sent|
  {
    0 <= i < |due| && k in Dropped(sent[i], due[i]) + Faults(LastGoal(goals[..i]), due[i], goals[i])
    && forall j :: i < j < |due| ==> k in goals[j]
  }

  /** The missing keys, read off the reports and goals alone. */
  lemma {:induction false} MissingIff<K>(due: seq<State<K>>, goals: seq<set<K>>, sent: seq<State<K>>, k: K)
    requires |due| == |goals| == |sent|
    ensures k in Missing(due, goals, sent) <==> exists i :: MissedAt(due, goals, sent, k, i)
  {
    hide Dropped, Faults, LastGoal;
    if due != [] {
      var n := |due| - 1;
      MissingIff(due[..n], goals[..n], sent[..n], k);
      forall i | 0 <= i < n
        ensures MissedAt(due, goals, sent, k, i) <==> MissedAt(due[..n], goals[..n], sent[..n], k, i) && k in goals[n]
      {
        assert goals[..n][..i] == goals[..i];
      }
      if k in Missing(due[..n], goals[..n], sent[..n]) && k in goals[n] {
        var i :| MissedAt(due[..n], goals[..n], sent[..n], k, i);
        assert MissedAt(due, goals, sent, k, i);
      }
      if k in Dropped(sent[n], due[n]) + Faults(LastGoal(goals[..n]), due[n], goals[n]) {
        assert MissedAt(due, goals, sent, k, n);
      }
    }
  }

  /** The consumer is exact after every report if and only if nothing was dropped and
      no report was at fault. */
  lemma {:induction false} ExactIff<K>(due: seq<State<K>>, goals: seq<set<K>>, sent: seq<State<K>>)
    requires Course(due, goals) && Limited(sent, due)
    ensures (forall n :: 0 <= n <= |due| ==> Replay(sent[..n]) == LastGoal(goals[..n])) <==>
            sent == due && Faultless(due, goals)
  {
    hide Tracks, Faults, LastGoal, Replay, Missing, Course, Limited, Faultless;
    if due == [] {
      NothingAtAll(sent, goals);
    } else {
      var n := |due| - 1;
      LimitedShrinks(sent, due, goals);
      CourseShrinks(due, goals);
      ExactIff(due[..n], goals[..n], sent[..n]);
      assert forall i :: 0 <= i <= n ==> sent[..n][..i] == sent[..i] && goals[..n][..i] == goals[..i];
      assert sent[..|due|] == sent && goals[..|due|] == goals;
      if Replay(sent[..n]) == LastGoal(goals[..n]) {
        ExactStep(due, goals, sent);
      }
      assert sent == sent[..n] + [sent[n]] && due == due[..n] + [due[n]];
    }
  }

  lemma NothingAtAll<K>(sent: seq<State<K>>, goals: seq<set<K>>)
    requires Course([], goals) && Limited(sent, [])
    ensures sent == [] && goals == [] && Replay(sent) == LastGoal(goals) && Faultless(sent, goals)
  {
  }

  lemma LimitedShrinks<K>(sent: seq<State<K>>, due: seq<State<K>>, goals: seq<set<K>>)
    requires due != [] && Limited(sent, due) && Course(due, goals)
    ensures var n := |due| - 1;
            |sent| == |due| == |goals| && Limited(sent[..n], due[..n]) && DropsOnlyOpens(sent[n], due[n])
  {
  }

  lemma DroppedNothing<K>(sent: State<K>, due: State<K>)
    requires DropsOnlyOpens(sent, due)
    ensures Dropped(sent, due) == {} <==> sent == due
  {
    if Dropped(sent, due) == {} {
      assert forall k :: k in due ==> k !in Dropped(sent, due);
    }
  }

  lemma ExactStep<K>(due: seq<State<K>>, goals: seq<set<K>>, sent: seq<State<K>>)
    requires due != [] && Course(due, goals) && Limited(sent, due)
    requires var n := |due| - 1; Replay(sent[..n]) == LastGoal(goals[..n])
    ensures var n := |due| - 1;
            Replay(sent) == LastGoal(goals) <==>
                sent[n] == due[n] && Faults(LastGoal(goals[..n]), due[n], goals[n]) == {}
  {
    hide Tracks, Apply, Faults, Dropped, DropsOnlyOpens;
    var n := |due| - 1;
    CourseShrinks(due, goals);
    LimitedStep(LastGoal(goals[..n]), due[n], goals[n], sent[n], {});
    assert LastGoal(goals[..n]) - {} == LastGoal(goals[..n]);
    assert DropsOnlyOpens(sent[n], due[n]);
    DroppedNothing(sent[n], due[n]);
  }

  lemma {:induction false} NothingMissing<K>(due: seq<State<K>>, goals: seq<set<K>>)
    requires Faultless(due, goals)
    ensures Missing(due, goals, due) == {} && Limited(due, due)
  {
    if due != [] {
      CourseShrinks(due, goals);
      NothingMissing(due[..|due| - 1], goals[..|due| - 1]);
    }
  }

  /** Faultless reports that are delivered in full lead a consumer to every goal. */
  lemma FullReplay<K>(due: seq<State<K>>, goals: seq<set<K>>)
    requires Course(due, goals) && Faultless(due, goals)
    ensures Replay(due) == LastGoal(goals)
  {
    NothingMissing(due, goals);
    LimitedReplay(due, goals, due);
  }

  // ----- what a consumer knows of closed keys

  /** The last status that a consumer was told of each key. */
  ghost function Ledger<K>(reports: seq<State<K>>): State<K> {
    if reports == [] then map[] else Ledger(reports[..|reports| - 1]) + reports[|reports| - 1]
  }

  /** The key was reported closed, at `time` or later. */
  ghost predicate ClosedIn<K>(ledger: State<K>, k: K, time: int) {
    k in ledger && !ledger[k].IsActive() && time <= ledger[k].LastActiveTime()
  }

  /** Snapshot `i` was the last to hold the key. */
  ghost predicate LastShown<K>(snaps: seq<State<K>>, k: K, i: int) {
    0 <= i < |snaps| && k in snaps[i] && forall j :: i < j < |snaps| ==> k !in snaps[j]
  }

  lemma LastShownGrows<K>(snaps: seq<State<K>>, k: K, i: int)
    requires snaps != [] && LastShown(snaps, k, i)
    ensures k in snaps[|snaps| - 1] ==> i == |snaps| - 1
    ensures k !in snaps[|snaps| - 1] ==> i < |snaps| - 1 && LastShown(snaps[..|snaps| - 1], k, i)
  {
  }

  // ----- plain deltas

  lemma PlainStep<K>(new_: State<K>, old_: State<K>)
    ensures Tracks(ActiveKeys(old_), PlainDelta(new_, old_), ActiveKeys(new_))
    ensures Faults(ActiveKeys(old_), PlainDelta(new_, old_), ActiveKeys(new_)) == {}
  {
    forall k ensures TracksKey(ActiveKeys(old_), PlainDelta(new_, old_), ActiveKeys(new_), k) {
      if k in old_ {
        WithStatusChangesFlagOnly(old_[k], false);
      }
    }
  }

  ghost function LastSnapshot<K>(snaps: seq<State<K>>): State<K> {
    if snaps == [] then map[] else snaps[|snaps| - 1]
  }

  /** The plain deltas of some snapshots. */
  ghost function PlainDue<K>(snaps: seq<State<K>>): (due: seq<State<K>>)
    ensures |due| == |snaps|
  {
    if snaps == [] then []
    else
      var before := snaps[..|snaps| - 1];
      PlainDue(before) + [PlainDelta(LastSnapshot(snaps), LastSnapshot(before))]
  }

  ghost function PlainGoals<K>(snaps: seq<State<K>>): (goals: seq<set<K>>)
    ensures |goals| == |snaps|
  {
    if snaps == [] then [] else PlainGoals(snaps[..|snaps| - 1]) + [ActiveKeys(LastSnapshot(snaps))]
  }

  /** Whatever the snapshots, plain deltas lead from active keys to active keys. */
  lemma {:induction false} PlainCourse<K>(snaps: seq<State<K>>)
    ensures Course(PlainDue(snaps), PlainGoals(snaps)) && Faultless(PlainDue(snaps), PlainGoals(snaps))
    ensures LastGoal(PlainGoals(snaps)) == ActiveKeys(LastSnapshot(snaps))
  {
    if snaps != [] {
      var before := snaps[..|snaps| - 1];
      PlainCourse(before);
      PlainStep(LastSnapshot(snaps), LastSnapshot(before));
      CourseShrinks(PlainDue(snaps), PlainGoals(snaps));
    }
  }

  /** Replaying plain deltas yields the active keys of the latest snapshot. */
  lemma PlainReplay<K>(snaps: seq<State<K>>)
    ensures Replay(PlainDue(snaps)) == ActiveKeys(LastSnapshot(snaps))
  {
    PlainCourse(snaps);
    FullReplay(PlainDue(snaps), PlainGoals(snaps));
  }

  /** A plain delta tells of every key that the snapshot shows as closed, unless an earlier
      report did, and of every active key that is gone. */
  lemma PlainCloses<K>(new_: State<K>, old_: State<K>, sent: State<K>, ledger: State<K>, k: K, time: int)
    requires DropsOnlyOpens(sent, PlainDelta(new_, old_)) && (k in new_ || k in old_ || ClosedIn(ledger, k, time))
    requires k in new_ ==> time == new_[k].LastActiveTime()
    requires k !in new_ && k in old_ ==> time == old_[k].LastActiveTime()
    requires k in old_ && !old_[k].IsActive() ==> ClosedIn(ledger, k, old_[k].LastActiveTime())
    ensures k in ActiveKeys(new_) || ClosedIn(ledger + sent, k, time)
  {
    hide ConnStatus.IsActive, ConnStatus.LastActiveTime, ConnStatus.WithStatus;
    if k in old_ {
      WithStatusChangesFlagOnly(old_[k], false);
    }
  }

  /** Without afterglow: whichever opens are dropped, every key that a snapshot ever held is
      active, or its close was reported with a time that is no earlier than where it was
      held last. */
  lemma {:induction false} PlainClosesAreReported<K>(snaps: seq<State<K>>, sent: seq<State<K>>, k: K, i: int)
    requires Limited(sent, PlainDue(snaps)) && LastShown(snaps, k, i)
    ensures k in ActiveKeys(LastSnapshot(snaps)) || ClosedIn(Ledger(sent), k, snaps[i][k].LastActiveTime())
  {
    hide ConnStatus.IsActive, ConnStatus.LastActiveTime, PlainDelta, DropsOnlyOpens, ClosedIn;
    var n := |snaps| - 1;
    var before := snaps[..n];
    var old_ := LastSnapshot(before);
    LastShownGrows(snaps, k, i);
    if k in old_ {
      assert LastShown(before, k, n - 1);
      PlainClosesAreReported(before, sent[..n], k, n - 1);
    } else if k !in snaps[n] {
      PlainClosesAreReported(before, sent[..n], k, i);
    }
    assert DropsOnlyOpens(sent[n], PlainDue(snaps)[n]);
    PlainCloses(snaps[n], old_, sent[n], Ledger(sent[..n]), k, snaps[i][k].LastActiveTime());
  }

  /** What a plain delta says of a key: the time at which the snapshot, or else the old
      state, has it; and only if that is news. */
  lemma PlainDeltaIsNews<K>(new_: State<K>, old_: State<K>, k: K)
    requires k in PlainDelta(new_, old_)
    ensures var status := PlainDelta(new_, old_)[k];
            && status.LastActiveTime() == (if k in new_ then new_[k] else old_[k]).LastActiveTime()
            && (status.IsActive() <==> k in new_ && new_[k].IsActive())
            && (k in old_ ==> status.IsActive() != old_[k].IsActive()
                              || (!status.IsActive() && old_[k].LastActiveTime() < status.LastActiveTime()))
  {
    hide ConnStatus.IsActive, ConnStatus.LastActiveTime, ConnStatus.WithStatus;
    if k in old_ {
      WithStatusChangesFlagOnly(old_[k], false);
    }
  }

  // ----- one scrape with afterglow

  /** What the notifier keeps between scrapes. */
  datatype Memory<K> = Memory(state: State<K>, last: int)

  /** One scrape: the snapshot, its time, and the keys that a configuration
      change closes in it. */
  datatype Scrape<!K> = Scrape(snap: State<K>, time: int, closes: K -> bool)

  ghost function ReportOf<K>(m: Memory<K>, x: Scrape<K>, period: int): State<K> {
    WithClosed(m.state, AfterglowDelta(x.snap, m.state, x.time, m.last, period), x.closes)
  }

  ghost function Next<K>(m: Memory<K>, x: Scrape<K>, period: int): Memory<K> {
    Memory(UpdatedOldState(Kept(m.state, x.closes), x.snap, x.time, period), x.time)
  }

  /** A remembered key that is still in the snapshot, still recent, and closed. */
  ghost predicate ClosedThoughFresh<K>(m: Memory<K>, x: Scrape<K>, period: int, k: K) {
    k in m.state && k in x.snap && x.closes(k)
    && m.state[k].WasRecentlyActive(m.last, period) && x.snap[k].WasRecentlyActive(x.time, period)
  }

  /** An expired key that a clock running backwards puts back in its afterglow. */
  ghost predicate RevivedByClock<K>(m: Memory<K>, x: Scrape<K>, period: int, k: K) {
    k in m.state && k !in x.snap && !x.closes(k)
    && !m.state[k].WasRecentlyActive(m.last, period) && m.state[k].IsInAfterglowPeriod(x.time, period)
  }

  ghost function FaultyKeys<K>(m: Memory<K>, x: Scrape<K>, period: int): set<K> {
    set k | k in m.state && (ClosedThoughFresh(m, x, period, k) || RevivedByClock(m, x, period, k))
  }

  /** What one scrape does to one key, seen from the consumer. */
  lemma StepForKey<K>(m: Memory<K>, x: Scrape<K>, period: int, k: K)
    ensures var report, recent' := ReportOf(m, x, period), RecentKeys(Next(m, x, period).state, x.time, period);
            var recent := RecentKeys(m.state, m.last, period);
            && (k in report && report[k].IsActive() ==> k in recent' && k !in recent)
            && (k in report && !report[k].IsActive() ==> (k in recent' <==> ClosedThoughFresh(m, x, period, k)))
            && (k !in report ==> (k in recent' <==> k in recent || RevivedByClock(m, x, period, k)))
            && (ClosedThoughFresh(m, x, period, k) ==> k in report && !report[k].IsActive())
            && (RevivedByClock(m, x, period, k) ==> k !in report && k !in recent)
  {
    hide ConnStatus.IsInAfterglowPeriod, ConnStatus.LastActiveTime, ConnStatus.WithStatus, ConnStatus.IsActive;
    if k in m.state {
      WithStatusChangesFlagOnly(m.state[k], false);
    }
    if k in x.snap {
      WithStatusChangesFlagOnly(x.snap[k], true);
    }
  }

  /** A scrape whatever the clock does and whatever is closed: its report tracks the
      recent keys, and is at fault exactly for the keys that it closes though they
      are fresh or that the clock revives. */
  lemma AfterglowStep<K>(m: Memory<K>, x: Scrape<K>, period: int)
    ensures var recent := RecentKeys(m.state, m.last, period);
            var recent' := RecentKeys(Next(m, x, period).state, x.time, period);
            && Tracks(recent, ReportOf(m, x, period), recent')
            && Faults(recent, ReportOf(m, x, period), recent') == FaultyKeys(m, x, period)
  {
    hide ReportOf, Next, RecentKeys;
    var recent, report := RecentKeys(m.state, m.last, period), ReportOf(m, x, period);
    var recent' := RecentKeys(Next(m, x, period).state, x.time, period);
    forall k | k in report.Keys + recent ensures TracksKey(recent, report, recent', k) {
      StepForKey(m, x, period, k);
    }
    var faulty := FaultyKeys(m, x, period);
    forall k | k in Faults(recent, report, recent') ensures k in faulty {
      StepForKey(m, x, period, k);
    }
    forall k | k in faulty ensures k in Faults(recent, report, recent') {
      StepForKey(m, x, period, k);
    }
  }

  /** A consumer that holds exactly the recent keys before a scrape does so after
      it, if and only if no key is closed although it is fresh and none is revived
      by the clock. */
  lemma StepIsExactIff<K>(m: Memory<K>, x: Scrape<K>, period: int)
    ensures Apply(RecentKeys(m.state, m.last, period), ReportOf(m, x, period))
              == RecentKeys(Next(m, x, period).state, x.time, period)
            <==> forall k :: k in m.state ==> !ClosedThoughFresh(m, x, period, k) && !RevivedByClock(m, x, period, k)
  {
    hide ReportOf, Next, RecentKeys, Apply, Tracks, ClosedThoughFresh, RevivedByClock;
    var recent, report := RecentKeys(m.state, m.last, period), ReportOf(m, x, period);
    var recent' := RecentKeys(Next(m, x, period).state, x.time, period);
    AfterglowStep(m, x, period);
    LimitedStep(recent, report, recent', report, {});
    assert recent - {} == recent;
    var faults := Faults(recent, report, recent');
    assert faults == {} <==> forall k :: k in m.state ==> k !in faults;
  }

  /** A remembered key that a scrape closes, and that the snapshot does not hold, is
      reported closed and forgotten. */
  lemma ClosedIsForgotten<K>(m: Memory<K>, x: Scrape<K>, period: int, k: K)
    requires k in m.state && x.closes(k) && k !in x.snap
    ensures k in ReportOf(m, x, period) && !ReportOf(m, x, period)[k].IsActive()
    ensures k !in Next(m, x, period).state
  {
    WithStatusChangesFlagOnly(m.state[k], false);
  }

  // ----- runs with afterglow

  ghost function EndTime<K>(start: int, h: seq<Scrape<K>>): int {
    if h == [] then start else h[|h| - 1].time
  }

  /** Scrape times do not decrease. */
  ghost predicate Monotone<K>(start: int, h: seq<Scrape<K>>) {
    h != [] ==> Monotone(start, h[..|h| - 1]) && EndTime(start, h[..|h| - 1]) <= EndTime(start, h)
  }

  /** No key of a snapshot is closed by that very scrape. */
  ghost predicate Fresh<K>(h: seq<Scrape<K>>) {
    h != [] ==> Fresh(h[..|h| - 1]) && FreshScrape(h[|h| - 1])
  }

  ghost predicate FreshScrape<K>(x: Scrape<K>) {
    forall k :: k in x.snap ==> !x.closes(k)
  }

  ghost function Run<K>(start: int, h: seq<Scrape<K>>, period: int): Memory<K> {
    if h == [] then Memory(map[], start)
    else Next(Run(start, h[..|h| - 1], period), h[|h| - 1], period)
  }

  /** The reports of a run. */
  ghost function Due<K>(start: int, h: seq<Scrape<K>>, period: int): (due: seq<State<K>>)
    ensures |due| == |h|
  {
    if h == [] then []
    else
      var before := h[..|h| - 1];
      Due(start, before, period) + [ReportOf(Run(start, before, period), h[|h| - 1], period)]
  }

  ghost function RecentAfter<K>(start: int, h: seq<Scrape<K>>, period: int): set<K> {
    var m := Run(start, h, period);
    RecentKeys(m.state, m.last, period)
  }

  /** What a consumer should hold after each scrape. */
  ghost function Goals<K>(start: int, h: seq<Scrape<K>>, period: int): (goals: seq<set<K>>)
    ensures |goals| == |h|
  {
    if h == [] then [] else Goals(start, h[..|h| - 1], period) + [RecentAfter(start, h, period)]
  }

  lemma {:induction false} LastTime<K>(start: int, h: seq<Scrape<K>>, period: int)
    ensures Run(start, h, period).last == EndTime(start, h)
  {
  }

  /** Scrape `i` of a run closes a fresh key or revives an expired one. */
  ghost predicate FaultyScrape<K>(start: int, h: seq<Scrape<K>>, period: int, i: int)
    requires 0 <= i < |h|
  {
    FaultyAt(start, h, period, i) != {}
  }

  /** The keys that scrape `i` closes though they are fresh, or revives. */
  ghost function FaultyAt<K>(start: int, h: seq<Scrape<K>>, period: int, i: int): set<K>
    requires 0 <= i < |h|
  {
    FaultyKeys(Run(start, h[..i], period), h[i], period)
  }

  lemma {:induction false} DuePrefix<K>(start: int, h: seq<Scrape<K>>, period: int, n: nat)
    requires n <= |h|
    ensures Due(start, h, period)[..n] == Due(start, h[..n], period)
    ensures Goals(start, h, period)[..n] == Goals(start, h[..n], period)
    decreases |h|
  {
    if n == |h| {
      assert h[..n] == h;
    } else {
      DuePrefix(start, h[..|h| - 1], period, n);
      assert h[..|h| - 1][..n] == h[..n];
    }
  }

  lemma GoalIsRecent<K>(start: int, h: seq<Scrape<K>>, period: int)
    ensures LastGoal(Goals(start, h, period)) == RecentAfter(start, h, period)
  {
  }

  lemma SameFault<K>(start: int, h: seq<Scrape<K>>, period: int, n: nat, i: int)
    requires 0 <= i < n <= |h|
    ensures FaultyAt(start, h, period, i) == FaultyAt(start, h[..n], period, i)
  {
    assert h[..n][..i] == h[..i];
  }

  lemma LastStep<K>(start: int, h: seq<Scrape<K>>, period: int)
    requires h != []
    ensures var n := |h| - 1;
            var recent, recent' := RecentAfter(start, h[..n], period), RecentAfter(start, h, period);
            var due := Due(start, h, period)[n];
            Tracks(recent, due, recent') && Faults(recent, due, recent') == FaultyAt(start, h, period, n)
  {
    hide ReportOf, Next, RecentKeys, Tracks, Faults, FaultyKeys;
    var n := |h| - 1;
    LastTime(start, h, period);
    AfterglowStep(Run(start, h[..n], period), h[n], period);
  }

  /** Every scrape of every run tracks the recent keys, and is at fault exactly for the
      keys that it closes though they are fresh or revives. */
  lemma StepAt<K>(start: int, h: seq<Scrape<K>>, period: int, i: int)
    requires 0 <= i < |h|
    ensures var due, goals := Due(start, h, period), Goals(start, h, period);
            && Tracks(LastGoal(goals[..i]), due[i], goals[i])
            && Faults(LastGoal(goals[..i]), due[i], goals[i]) == FaultyAt(start, h, period, i)
  {
    hide Tracks, Faults, FaultyAt, Due, Goals, RecentAfter, LastGoal;
    var due, goals, g := Due(start, h, period), Goals(start, h, period), h[..i + 1];
    DuePrefix(start, h, period, i);
    DuePrefix(start, h, period, i + 1);
    GoalIsRecent(start, h[..i], period);
    LastStep(start, g, period);
    SameFault(start, h, period, i + 1, i);
    assert g[..i] == h[..i] && due[i] == due[..i + 1][i];
    GoalAt(start, h, period, i);
  }

  lemma GoalAt<K>(start: int, h: seq<Scrape<K>>, period: int, i: int)
    requires 0 <= i < |h|
    ensures Goals(start, h, period)[i] == RecentAfter(start, h[..i + 1], period)
  {
    hide Goals, RecentAfter, LastGoal;
    DuePrefix(start, h, period, i + 1);
    GoalIsRecent(start, h[..i + 1], period);
    LastOf(Goals(start, h, period)[..i + 1]);
  }

  lemma LastOf<K>(goals: seq<set<K>>)
    requires goals != []
    ensures LastGoal(goals) == goals[|goals| - 1]
  {
  }

  /** So every run, whatever the clock does and whatever is closed, follows its goals. */
  lemma AfterglowCourse<K>(start: int, h: seq<Scrape<K>>, period: int)
    ensures Course(Due(start, h, period), Goals(start, h, period))
    ensures Faultless(Due(start, h, period), Goals(start, h, period)) <==>
              forall i :: 0 <= i < |h| ==> !FaultyScrape(start, h, period, i)
  {
    hide Tracks, Faults, FaultyAt, Due, Goals, LastGoal;
    var due, goals := Due(start, h, period), Goals(start, h, period);
    forall i | 0 <= i < |h|
      ensures Tracks(LastGoal(goals[..i]), due[i], goals[i])
      ensures Faults(LastGoal(goals[..i]), due[i], goals[i]) == {} <==> !FaultyScrape(start, h, period, i)
    {
      StepAt(start, h, period, i);
    }
  }

  /** Over any run at all, a consumer that gets every report is exact after every
      scrape if and only if no scrape closes a fresh key or revives an expired one. */
  lemma ReplayIsExactIff<K>(start: int, h: seq<Scrape<K>>, period: int)
    ensures (forall n :: 0 <= n <= |h| ==> Replay(Due(start, h[..n], period)) == RecentAfter(start, h[..n], period))
            <==> (forall i :: 0 <= i < |h| ==> !FaultyScrape(start, h, period, i))
  {
    hide Replay, RecentAfter, Course, Faultless, FaultyScrape, Limited, Missing, Goals, Due;
    var due, goals := Due(start, h, period), Goals(start, h, period);
    AfterglowCourse(start, h, period);
    SentInFull(due);
    ExactIff(due, goals, due);
    forall n | 0 <= n <= |h|
      ensures due[..n] == Due(start, h[..n], period) && LastGoal(goals[..n]) == RecentAfter(start, h[..n], period)
    {
      DuePrefix(start, h, period, n);
      GoalIsRecent(start, h[..n], period);
    }
    assert forall n :: 0 <= n <= |h| ==>
        (Replay(due[..n]) == LastGoal(goals[..n])
         <==> Replay(Due(start, h[..n], period)) == RecentAfter(start, h[..n], period));
  }

  lemma SentInFull<K>(due: seq<State<K>>)
    ensures Limited(due, due)
  {
  }

  /** A clock that does not go back and scrapes that close no fresh key are enough. */
  lemma {:induction false} OrderlyIsFaultless<K>(start: int, h: seq<Scrape<K>>, period: int, i: int)
    requires Monotone(start, h) && Fresh(h) && 0 <= i < |h|
    ensures !FaultyScrape(start, h, period, i)
  {
    if i == |h| - 1 {
      LastTime(start, h[..i], period);
    } else {
      OrderlyIsFaultless(start, h[..|h| - 1], period, i);
      SameFault(start, h, period, |h| - 1, i);
    }
  }

  /** In a run with a clock that does not go back, and without closing of fresh
      keys, the consumer always holds exactly the recent keys. */
  lemma AfterglowReplay<K>(start: int, h: seq<Scrape<K>>, period: int)
    requires Monotone(start, h) && Fresh(h)
    ensures Replay(Due(start, h, period)) == RecentAfter(start, h, period)
  {
    hide FaultyScrape, Course, Faultless;
    AfterglowCourse(start, h, period);
    forall i | 0 <= i < |h| ensures !FaultyScrape(start, h, period, i) {
      OrderlyIsFaultless(start, h, period, i);
    }
    FullReplay(Due(start, h, period), Goals(start, h, period));
    GoalIsRecent(start, h, period);
  }

  lemma FirstScrape<K>(start: int, x: Scrape<K>, period: int)
    ensures Run(start, [x], period) == Memory(x.snap, x.time)
  {
    assert [x][..0] == [];
    var m: Memory<K> := Memory(map[], start);
    assert Next(m, x, period).state == x.snap;
  }

  /** A key that the last snapshot shows as active is recent. */
  lemma ActiveIsRecent<K>(start: int, h: seq<Scrape<K>>, period: int, k: K)
    requires h != [] && k in h[|h| - 1].snap && h[|h| - 1].snap[k].IsActive()
    ensures k in RecentAfter(start, h, period)
  {
    hide ConnStatus.IsActive;
  }

  /** A run whose every scrape holds a key as active, and whose second scrape closes it:
      the key is missing ever after, whichever opens are dropped. */
  lemma ClosingFreshKeyBreaksReplay<K>(start: int, h: seq<Scrape<K>>, period: int, k: K, sent: seq<State<K>>)
    requires |h| >= 2 && h[1].closes(k) && Limited(sent, Due(start, h, period))
    requires forall i :: 0 <= i < |h| ==> k in h[i].snap && h[i].snap[k].IsActive()
    ensures k in RecentAfter(start, h, period) && k !in Replay(sent)
  {
    hide ConnStatus.IsActive, Limited, Replay, Due, Goals, RecentAfter, Run, Course, LastGoal, Faults, Missing;
    var due, goals := Due(start, h, period), Goals(start, h, period);
    assert h[..1] == [h[0]];
    FirstScrape(start, h[0], period);
    assert k in FaultyAt(start, h, period, 1);
    StepAt(start, h, period, 1);
    forall j | 1 < j < |due| ensures k in goals[j] {
      GoalAt(start, h, period, j);
      ActiveIsRecent(start, h[..j + 1], period, k);
    }
    ActiveIsRecent(start, h, period, k);
    AfterglowCourse(start, h, period);
    LimitedReplay(due, goals, sent);
    SameLength(sent, due);
    assert MissedAt(due, goals, sent, k, 1);
    MissingIff(due, goals, sent, k);
  }

  lemma SameLength<K>(sent: seq<State<K>>, due: seq<State<K>>)
    requires Limited(sent, due)
    ensures |sent| == |due|
  {
  }

  /** The clock assumption is needed: a key that had expired at time 10 and is
      gone at time 3 comes back to the remembered recent keys, unreported. */
  lemma BackwardClockBreaksReplay<K>(k: K, nothing: K -> bool)
    requires !nothing(k)
    ensures var h := [Scrape(map[k := NewStatus(0, false)], 10, nothing), Scrape(map[], 3, nothing)];
            k in RecentAfter(0, h, 5) && k !in Replay(Due(0, h, 5))
  {
    PackingKeepsBoth(0, false);
    var h := [Scrape(map[k := NewStatus(0, false)], 10, nothing), Scrape(map[], 3, nothing)];
    assert h[..1] == [h[0]] && h[..1][..0] == h[..0];
    FirstScrape(0, h[0], 5);
    var m := Run(0, h[..1], 5);
    assert RevivedByClock(m, h[1], 5, k);
    StepForKey(m, h[1], 5, k);
    var due := Due(0, h, 5);
    assert due[..1] == Due(0, h[..1], 5);
    StepForKey(Run(0, h[..0], 5), h[0], 5, k);
    assert Replay(due[..1][..0]) == {};
  }

  // ----- closes

  /** One scrape tells of every key that it holds and that is not recent, unless an earlier
      report did, and of every recent key that is gone and has expired or is closed. */
  lemma AfterglowCloses<K>(m: Memory<K>, x: Scrape<K>, period: int, sent: State<K>, ledger: State<K>, k: K, time: int)
    requires DropsOnlyOpens(sent, ReportOf(m, x, period))
    requires k in x.snap ==> time == x.snap[k].LastActiveTime()
    requires k !in x.snap && k in m.state ==> time == m.state[k].LastActiveTime()
    requires k in m.state && !m.state[k].WasRecentlyActive(m.last, period) ==>
               ClosedIn(ledger, k, m.state[k].LastActiveTime())
    requires k in x.snap || k in m.state || ClosedIn(ledger, k, time)
    ensures k in RecentKeys(Next(m, x, period).state, x.time, period) || ClosedIn(ledger + sent, k, time)
  {
    hide ConnStatus.IsInAfterglowPeriod, ConnStatus.LastActiveTime, ConnStatus.WithStatus, ConnStatus.IsActive;
    if k in m.state {
      WithStatusChangesFlagOnly(m.state[k], false);
    }
    if k in x.snap {
      WithStatusChangesFlagOnly(x.snap[k], true);
    }
  }

  ghost function SnapsOf<K>(h: seq<Scrape<K>>): (r: seq<State<K>>)
    ensures |r| == |h| && forall i :: 0 <= i < |h| ==> r[i] == h[i].snap
  {
    if h == [] then [] else SnapsOf(h[..|h| - 1]) + [h[|h| - 1].snap]
  }

  /** What is remembered is what the last snapshot to hold the key says. */
  lemma {:induction false} MemoryIsLastShown<K>(start: int, h: seq<Scrape<K>>, period: int, k: K, i: int)
    requires k in Run(start, h, period).state && LastShown(SnapsOf(h), k, i)
    ensures Run(start, h, period).state[k] == h[i].snap[k]
  {
    hide ConnStatus.IsInAfterglowPeriod;
    LastShownGrows(SnapsOf(h), k, i);
    if k !in h[|h| - 1].snap {
      MemoryIsLastShown(start, h[..|h| - 1], period, k, i);
    }
  }

  /** Whatever is remembered was held by some snapshot. */
  lemma {:induction false} MemoryWasShown<K>(start: int, h: seq<Scrape<K>>, period: int, k: K) returns (i: int)
    requires k in Run(start, h, period).state
    ensures LastShown(SnapsOf(h), k, i)
  {
    hide ConnStatus.IsInAfterglowPeriod;
    var n := |h| - 1;
    i := n;
    if k !in h[n].snap {
      i := MemoryWasShown(start, h[..n], period, k);
      assert SnapsOf(h)[..n] == SnapsOf(h[..n]);
    }
  }

  /** With afterglow, whatever the clock does, whatever is closed and whichever opens are
      dropped: every key that a snapshot ever held is recent, or its close was reported with
      a time that is no earlier than where it was held last. */
  lemma {:induction false} AfterglowClosesAreReported<K>(start: int, h: seq<Scrape<K>>, period: int,
                                                         sent: seq<State<K>>, k: K, i: int)
    requires Limited(sent, Due(start, h, period)) && LastShown(SnapsOf(h), k, i)
    ensures k in RecentAfter(start, h, period) || ClosedIn(Ledger(sent), k, h[i].snap[k].LastActiveTime())
  {
    hide ConnStatus.LastActiveTime, ConnStatus.WasRecentlyActive, DropsOnlyOpens, ClosedIn, ReportOf, Next;
    var n := |h| - 1;
    var before, m := h[..n], Run(start, h[..n], period);
    assert SnapsOf(h)[..n] == SnapsOf(before);
    LastShownGrows(SnapsOf(h), k, i);
    LastTime(start, h, period);
    if k in m.state {
      var j := MemoryWasShown(start, before, period, k);
      MemoryIsLastShown(start, before, period, k, j);
      AfterglowClosesAreReported(start, before, period, sent[..n], k, j);
      if k !in h[n].snap {
        MemoryIsLastShown(start, before, period, k, i);
      }
    } else if k !in h[n].snap {
      AfterglowClosesAreReported(start, before, period, sent[..n], k, i);
    }
    assert DropsOnlyOpens(sent[n], Due(start, h, period)[n]);
    AfterglowCloses(m, h[n], period, sent[n], Ledger(sent[..n]), k, h[i].snap[k].LastActiveTime());
  }

  /** What an afterglow delta says of a key: the time at which the snapshot, or else the old
      state, has it; open exactly if that is recent; and only if it is news. */
  lemma AfterglowDeltaIsNews<K>(new_: State<K>, old_: State<K>, now: int, last: int, period: int, k: K)
    requires k in AfterglowDelta(new_, old_, now, last, period)
    ensures var status := AfterglowDelta(new_, old_, now, last, period)[k];
            && status.LastActiveTime() == (if k in new_ then new_[k] else old_[k]).LastActiveTime()
            && (status.IsActive() <==> k in new_ && (new_[k].IsActive() || now - new_[k].LastActiveTime() < period))
            && (k in old_ ==>
                  var wasOpen := old_[k].IsActive() || last - old_[k].LastActiveTime() < period;
                  status.IsActive() != wasOpen
                  || (!status.IsActive() && old_[k].LastActiveTime() < status.LastActiveTime()))
  {
    hide ConnStatus.LastActiveTime, ConnStatus.WithStatus, ConnStatus.IsActive;
    if k in old_ {
      WithStatusChangesFlagOnly(old_[k], false);
    }
    if k in new_ {
      WithStatusChangesFlagOnly(new_[k], true);
    }
  }

  // ----- the run as a function of its history

  /** Scrape `i` was the last to hold `k`, and no later one closed it. */
  ghost predicate LastHeldAt<K>(h: seq<Scrape<K>>, k: K, i: int) {
    0 <= i < |h| && k in h[i].snap && forall j :: i < j < |h| ==> k !in h[j].snap && !h[j].closes(k)
  }

  /** Whether a key is reported open, read off the history alone. */
  ghost predicate OpenByHistory<K>(h: seq<Scrape<K>>, period: int, k: K) {
    exists i :: LastHeldAt(h, k, i)
      && var s := h[i].snap[k];
         (i == |h| - 1 && s.IsActive()) || h[|h| - 1].time - s.LastActiveTime() < period
  }

  ghost predicate RememberedFrom<K>(h: seq<Scrape<K>>, period: int, k: K, s: ConnStatus, i: int) {
    LastHeldAt(h, k, i) && h[i].snap[k] == s
    && (i == |h| - 1 || s.IsInAfterglowPeriod(h[|h| - 1].time, period))
  }

  lemma LastHeldUnique<K>(h: seq<Scrape<K>>, k: K, i: int, j: int)
    requires LastHeldAt(h, k, i) && LastHeldAt(h, k, j)
    ensures i == j
  {
  }

  /** What is remembered for a key is its status in the scrape that held it last,
      as long as that is within its afterglow. */
  lemma {:induction false} MemoryIsHistory<K>(start: int, h: seq<Scrape<K>>, period: int, k: K)
    requires Monotone(start, h)
    ensures k in Run(start, h, period).state ==>
              exists i :: RememberedFrom(h, period, k, Run(start, h, period).state[k], i)
    ensures forall i :: LastHeldAt(h, k, i) && RememberedFrom(h, period, k, h[i].snap[k], i) ==>
              k in Run(start, h, period).state && Run(start, h, period).state[k] == h[i].snap[k]
  {
    hide ConnStatus.LastActiveTime;
    if h != [] {
      var n := |h| - 1;
      var before, x := h[..n], h[n];
      var m, m' := Run(start, before, period), Run(start, h, period);
      MemoryIsHistory(start, before, period, k);
      if k in x.snap {
        assert LastHeldAt(h, k, n);
        forall i | LastHeldAt(h, k, i) ensures i == n {
          LastHeldUnique(h, k, i, n);
        }
        assert RememberedFrom(h, period, k, m'.state[k], n);
      } else {
        if k in m'.state {
          var i :| RememberedFrom(before, period, k, m.state[k], i);
          HistoryGrows(h, period, k, m.state[k], i);
        }
        forall i | LastHeldAt(h, k, i) && RememberedFrom(h, period, k, h[i].snap[k], i)
          ensures k in m'.state && m'.state[k] == h[i].snap[k]
        {
          HistoryShrinks(start, h, period, k, h[i].snap[k], i);
        }
      }
    }
  }

  lemma HistoryGrows<K>(h: seq<Scrape<K>>, period: int, k: K, s: ConnStatus, i: int)
    requires h != [] && RememberedFrom(h[..|h| - 1], period, k, s, i)
    requires var x := h[|h| - 1]; k !in x.snap && !x.closes(k) && s.IsInAfterglowPeriod(x.time, period)
    ensures RememberedFrom(h, period, k, s, i)
  {
    var before := h[..|h| - 1];
    assert forall j :: 0 <= j < |before| ==> before[j] == h[j];
  }

  lemma HistoryShrinks<K>(start: int, h: seq<Scrape<K>>, period: int, k: K, s: ConnStatus, i: int)
    requires h != [] && Monotone(start, h) && RememberedFrom(h, period, k, s, i) && k !in h[|h| - 1].snap
    ensures RememberedFrom(h[..|h| - 1], period, k, s, i)
    ensures !h[|h| - 1].closes(k) && s.IsInAfterglowPeriod(h[|h| - 1].time, period)
  {
    var before := h[..|h| - 1];
    assert forall j :: 0 <= j < |before| ==> before[j] == h[j];
  }

  /** The incremental protocol refines a function of the history: a key is open at
      the consumer iff the scrape that held it last did so with a status that is
      active (in the latest scrape) or within the afterglow period now. */
  lemma RecentIsHistory<K>(start: int, h: seq<Scrape<K>>, period: int, k: K)
    requires Monotone(start, h)
    ensures k in RecentAfter(start, h, period) <==> OpenByHistory(h, period, k)
  {
    MemoryIsHistory(start, h, period, k);
    LastTime(start, h, period);
    var m := Run(start, h, period);
    if k in m.state {
      var i :| RememberedFrom(h, period, k, m.state[k], i);
      forall j | LastHeldAt(h, k, j) ensures i == j {
        LastHeldUnique(h, k, i, j);
      }
    }
    if OpenByHistory(h, period, k) {
      var i :| LastHeldAt(h, k, i)
        && var s := h[i].snap[k];
           (i == |h| - 1 && s.IsActive()) || h[|h| - 1].time - s.LastActiveTime() < period;
      assert RememberedFrom(h, period, k, h[i].snap[k], i);
    }
  }

  lemma ConsumerIsHistory<K>(start: int, h: seq<Scrape<K>>, period: int, k: K)
    requires Monotone(start, h) && Fresh(h)
    ensures k in Replay(Due(start, h, period)) <==> OpenByHistory(h, period, k)
  {
    hide Replay, RecentAfter, OpenByHistory;
    AfterglowReplay(start, h, period);
    RecentIsHistory(start, h, period, k);
  }
}
