/** The delta protocol between two scrapes (ConnTracker.h): what the notifier
    remembers, what it reports, and what a consumer of the reports holds. */
module Delta {
  import opened Status

  type State<K> = map<K, ConnStatus>

  // ----- plain deltas

  ghost predicate PlainReports<K>(new_: State<K>, old_: State<K>, k: K)
    requires k in new_ || k in old_
  {
    if k !in new_ then old_[k].IsActive()
    else if k !in old_ then true
    else
      new_[k].IsActive() != old_[k].IsActive()
      || (!new_[k].IsActive() && old_[k].LastActiveTime() < new_[k].LastActiveTime())
  }

  ghost function PlainStatus<K>(new_: State<K>, old_: State<K>, k: K): ConnStatus
    requires k in new_ || k in old_
  {
    if k in new_ then new_[k] else old_[k].WithStatus(false)
  }

  ghost function PlainDelta<K>(new_: State<K>, old_: State<K>): State<K> {
    map k | k in new_.Keys + old_.Keys && PlainReports(new_, old_, k) :: PlainStatus(new_, old_, k)
  }

  /** The first loop of `ComputeDelta`, over the new state in any order. */
  method MergeNewIntoOld<K(==)>(new_: State<K>, old_: State<K>) returns (delta: State<K>)
    ensures forall k :: k in new_ ==> (k in delta <==> PlainReports(new_, old_, k))
    ensures forall k :: k in new_ && k in delta ==> delta[k] == new_[k]
    ensures forall k :: k !in new_ ==> (k in delta <==> k in old_) && (k in old_ ==> delta[k] == old_[k])
  {
    delta := old_;
    var todo := new_.Keys;
    while todo != {}
      invariant todo <= new_.Keys
      invariant forall k :: k in new_ && k !in todo ==> (k in delta <==> PlainReports(new_, old_, k))
      invariant forall k :: k in new_ && k !in todo && k in delta ==> delta[k] == new_[k]
      invariant forall k :: k !in new_ || k in todo ==>
                  (k in delta <==> k in old_) && (k in old_ ==> delta[k] == old_[k])
      decreases |todo|
    {
      var k :| k in todo;
      todo := todo - {k};
      if k !in delta {
        delta := delta[k := new_[k]];
      } else if new_[k].IsActive() != delta[k].IsActive() {
        delta := delta[k := new_[k]];
      } else if new_[k].IsActive() {
        delta := delta - {k};
      } else if delta[k].LastActiveTime() < new_[k].LastActiveTime() {
        delta := delta[k := new_[k]];
      } else {
        delta := delta - {k};
      }
    }
  }

  /** The second loop of `ComputeDelta`, over what the first one left. */
  method CloseVanished<K(==)>(new_: State<K>, merged: State<K>) returns (delta: State<K>)
    ensures forall k :: k in new_ ==> (k in delta <==> k in merged) && (k in delta ==> delta[k] == merged[k])
    ensures forall k :: k !in new_ ==> (k in delta <==> k in merged && merged[k].IsActive())
                                       && (k in delta ==> delta[k] == merged[k].WithStatus(false))
  {
    hide ConnStatus.WithStatus;
    delta := merged;
    var todo := merged.Keys;
    while todo != {}
      invariant todo <= merged.Keys
      invariant forall k :: k in merged && (k in todo || k in new_) ==> k in delta && delta[k] == merged[k]
      invariant forall k :: k in merged && k !in todo && k !in new_ ==>
                  (k in delta <==> merged[k].IsActive()) && (k in delta ==> delta[k] == merged[k].WithStatus(false))
      invariant forall k :: k in delta ==> k in merged
      decreases |todo|
    {
      var k :| k in todo;
      todo := todo - {k};
      if k !in new_ {
        if delta[k].IsActive() {
          delta := delta[k := delta[k].WithStatus(false)];
        } else {
          delta := delta - {k};
        }
      }
    }
  }

  /** `ComputeDelta`: the delta is built in place in the old state. */
  method ComputeDelta<K(==)>(new_: State<K>, old_: State<K>) returns (delta: State<K>)
    ensures delta == PlainDelta(new_, old_)
  {
    hide ConnStatus.WithStatus, ConnStatus.IsActive;
    var merged := MergeNewIntoOld(new_, old_);
    delta := CloseVanished(new_, merged);
  }

  // ----- deltas with afterglow

  ghost predicate Reports<K>(new_: State<K>, old_: State<K>, k: K, now: int, last: int, period: int)
    requires k in new_ || k in old_
  {
    if k !in new_ then
      old_[k].WasRecentlyActive(last, period) && !old_[k].IsInAfterglowPeriod(now, period)
    else if k !in old_ then true
    else
      var newRecent, oldRecent := new_[k].WasRecentlyActive(now, period), old_[k].WasRecentlyActive(last, period);
      newRecent != oldRecent || (!newRecent && old_[k].LastActiveTime() < new_[k].LastActiveTime())
  }

  ghost function ReportedStatus<K>(new_: State<K>, old_: State<K>, k: K, now: int, period: int): ConnStatus
    requires k in new_ || k in old_
  {
    if k in new_ then
      (if new_[k].WasRecentlyActive(now, period) then new_[k].WithStatus(true) else new_[k])
    else old_[k].WithStatus(false)
  }

  ghost function AfterglowDelta<K>(new_: State<K>, old_: State<K>, now: int, last: int, period: int): State<K> {
    map k | k in new_.Keys + old_.Keys && Reports(new_, old_, k, now, last, period) ::
      ReportedStatus(new_, old_, k, now, period)
  }

  /** A status that is going to be reported as open is made active. */
  function ChangeConnToActiveIfNeeded(status: ConnStatus, newRecentlyActive: bool): ConnStatus {
    if newRecentlyActive && !status.IsActive() then NewStatus(status.LastActiveTime(), true) else status
  }

  /** The report for one key of the new state that the old state also has. */
  function DeltaForBoth(status: ConnStatus, oldStatus: ConnStatus, now: int, last: int, period: int)
    : (bool, ConnStatus)
  {
    var newRecent, oldRecent := status.WasRecentlyActive(now, period), oldStatus.WasRecentlyActive(last, period);
    if newRecent != oldRecent then (true, ChangeConnToActiveIfNeeded(status, newRecent))
    else if !newRecent then (oldStatus.LastActiveTime() < status.LastActiveTime(), status)
    else (false, status)
  }

  predicate ShouldBeInactive<K(==)>(k: K, status: ConnStatus, new_: State<K>, now: int, last: int, period: int) {
    k !in new_ && status.WasRecentlyActive(last, period) && !status.IsInAfterglowPeriod(now, period)
  }

  lemma ActivatedIfNeeded(status: ConnStatus, recent: bool)
    requires status.IsActive() ==> recent
    ensures ChangeConnToActiveIfNeeded(status, recent) == if recent then status.WithStatus(true) else status
  {
    WithStatusChangesFlagOnly(status, true);
  }

  /** The first loop of `ComputeDeltaAfterglow`, over the new state in any order. */
  method ReportNew<K(==)>(new_: State<K>, old_: State<K>, now: int, last: int, period: int) returns (delta: State<K>)
    ensures delta.Keys <= new_.Keys
    ensures forall k :: k in new_ ==> (k in delta <==> Reports(new_, old_, k, now, last, period))
    ensures forall k :: k in delta ==> delta[k] == ReportedStatus(new_, old_, k, now, period)
  {
    hide ChangeConnToActiveIfNeeded, ConnStatus.IsInAfterglowPeriod, ConnStatus.WithStatus, ConnStatus.LastActiveTime;
    delta := map[];
    var todo := new_.Keys;
    while todo != {}
      invariant todo <= new_.Keys && delta.Keys <= new_.Keys - todo
      invariant forall k :: k in new_ && k !in todo ==> (k in delta <==> Reports(new_, old_, k, now, last, period))
      invariant forall k :: k in delta ==> delta[k] == ReportedStatus(new_, old_, k, now, period)
      decreases |todo|
    {
      var k :| k in todo;
      todo := todo - {k};
      var recent := new_[k].WasRecentlyActive(now, period);
      ActivatedIfNeeded(new_[k], recent);
      if k in old_ {
        var (report, reported) := DeltaForBoth(new_[k], old_[k], now, last, period);
        if report {
          delta := delta[k := reported];
        }
      } else {
        delta := delta[k := ChangeConnToActiveIfNeeded(new_[k], recent)];
      }
    }
  }

  /** The second loop, over the old state in any order. */
  method ReportExpired<K(==)>(new_: State<K>, old_: State<K>, reported: State<K>, now: int, last: int, period: int)
    returns (delta: State<K>)
    requires forall k :: k in reported ==> k in new_
    ensures forall k :: k in new_ ==> (k in delta <==> k in reported)
    ensures forall k :: k in reported ==> k in delta && delta[k] == reported[k]
    ensures forall k :: k !in new_ ==>
            (k in delta <==> k in old_ && ShouldBeInactive(k, old_[k], new_, now, last, period))
    ensures forall k :: k in delta && k !in new_ ==> delta[k] == old_[k].WithStatus(false)
  {
    hide ConnStatus.IsInAfterglowPeriod, ConnStatus.WasRecentlyActive, ConnStatus.WithStatus, NewStatus;
    delta := reported;
    var todo := old_.Keys;
    while todo != {}
      invariant todo <= old_.Keys
      invariant forall k :: k in new_ ==> (k in delta <==> k in reported)
      invariant forall k :: k in reported ==> k in delta && delta[k] == reported[k]
      invariant forall k :: k !in new_ ==>
                  (k in delta <==> k in old_ && k !in todo && ShouldBeInactive(k, old_[k], new_, now, last, period))
      invariant forall k :: k in delta && k !in new_ ==> delta[k] == old_[k].WithStatus(false)
      decreases |todo|
    {
      var k :| k in todo;
      todo := todo - {k};
      WithStatusChangesFlagOnly(old_[k], false);
      if ShouldBeInactive(k, old_[k], new_, now, last, period) {
        delta := delta[k := NewStatus(old_[k].LastActiveTime(), false)];
      }
    }
  }

  /** `ComputeDeltaAfterglow`. */
  method ComputeDeltaAfterglow<K(==)>(new_: State<K>, old_: State<K>, now: int, last: int, period: int)
    returns (delta: State<K>)
    ensures delta == AfterglowDelta(new_, old_, now, last, period)
  {
    hide ConnStatus.IsInAfterglowPeriod, ConnStatus.WasRecentlyActive, ConnStatus.WithStatus;
    var reported := ReportNew(new_, old_, now, last, period);
    delta := ReportExpired(new_, old_, reported, now, last, period);
  }

  /** What is remembered for the next scrape: the new state, and the old entries
      that are still in the afterglow period. */
  ghost function UpdatedOldState<K>(old_: State<K>, new_: State<K>, now: int, period: int): State<K> {
    map k | k in old_.Keys + new_.Keys && (k in new_ || old_[k].IsInAfterglowPeriod(now, period)) ::
      if k in new_ then new_[k] else old_[k]
  }

  method DropExpired<K(==)>(old_: State<K>, now: int, period: int) returns (r: State<K>)
    ensures forall k :: k in r <==> k in old_ && old_[k].IsInAfterglowPeriod(now, period)
    ensures forall k :: k in r ==> r[k] == old_[k]
  {
    hide ConnStatus.IsInAfterglowPeriod;
    r := old_;
    var todo := old_.Keys;
    while todo != {}
      invariant todo <= old_.Keys
      invariant forall k :: k in r <==> k in old_ && (k in todo || old_[k].IsInAfterglowPeriod(now, period))
      invariant forall k :: k in r ==> r[k] == old_[k]
      decreases |todo|
    {
      var k :| k in todo;
      todo := todo - {k};
      if !r[k].IsInAfterglowPeriod(now, period) {
        r := r - {k};
      }
    }
  }

  method Overwrite<K(==)>(base: State<K>, new_: State<K>) returns (r: State<K>)
    ensures forall k :: k in r <==> k in new_ || k in base
    ensures forall k :: k in r ==> r[k] == if k in new_ then new_[k] else base[k]
  {
    r := base;
    var todo := new_.Keys;
    while todo != {}
      invariant todo <= new_.Keys
      invariant forall k :: k in r <==> (k in new_ && k !in todo) || k in base
      invariant forall k :: k in r ==> r[k] == if k in new_ && k !in todo then new_[k] else base[k]
      decreases |todo|
    {
      var k :| k in todo;
      todo := todo - {k};
      r := r[k := new_[k]];
    }
  }

  /** `UpdateOldState`: drop what has expired, then overwrite with the new state. */
  method UpdateOldState<K(==)>(old_: State<K>, new_: State<K>, now: int, period: int) returns (r: State<K>)
    ensures r == UpdatedOldState(old_, new_, now, period)
  {
    hide ConnStatus.IsInAfterglowPeriod;
    r := DropExpired(old_, now, period);
    r := Overwrite(r, new_);
  }

  // ----- forced closing

  ghost function Kept<K>(old_: State<K>, closes: K -> bool): State<K> {
    map k | k in old_ && !closes(k) :: old_[k]
  }

  /** Entries that are closed join the delta, unless it already reports them. */
  ghost function WithClosed<K>(old_: State<K>, delta: State<K>, closes: K -> bool): State<K> {
    map k | k in delta.Keys + old_.Keys && (k in delta || closes(k)) ::
      if k in delta then delta[k] else old_[k].WithStatus(false)
  }

  /** `CloseConnections`. */
  method CloseConnections<K(==)>(old_: State<K>, delta: State<K>, closes: K -> bool)
    returns (old': State<K>, delta': State<K>)
    ensures old' == Kept(old_, closes) && delta' == WithClosed(old_, delta, closes)
  {
    hide ConnStatus.WithStatus;
    old', delta' := CloseMatching(old_, delta, closes);
  }

  /** The loop of `CloseConnections`, over the old state in any order. */
  method CloseMatching<K(==)>(old_: State<K>, delta: State<K>, closes: K -> bool)
    returns (old': State<K>, delta': State<K>)
    ensures forall k :: k in old' <==> k in old_ && !closes(k)
    ensures forall k :: k in old' ==> old'[k] == old_[k]
    ensures forall k :: k in delta' <==> k in delta || (k in old_ && closes(k))
    ensures forall k :: k in delta ==> delta'[k] == delta[k]
    ensures forall k :: k in delta' && k !in delta ==> delta'[k] == old_[k].WithStatus(false)
  {
    hide ConnStatus.WithStatus, ConnStatus.LastActiveTime;
    old', delta' := old_, delta;
    var todo := old_.Keys;
    while todo != {}
      invariant todo <= old_.Keys
      invariant forall k :: k in old' <==> k in old_ && (k in todo || !closes(k))
      invariant forall k :: k in old' ==> old'[k] == old_[k]
      invariant forall k :: k in delta' <==> k in delta || (k in old_ && k !in todo && closes(k))
      invariant forall k :: k in delta ==> delta'[k] == delta[k]
      invariant forall k :: k in delta' && k !in delta ==> delta'[k] == old_[k].WithStatus(false)
      decreases |todo|
    {
      var k :| k in todo;
      todo := todo - {k};
      if closes(k) {
        var status := Deactivated(old'[k]);
        if k !in delta' {
          delta' := delta'[k := status];
        }
        old' := old' - {k};
      }
    }
  }

  method Deactivated(status: ConnStatus) returns (r: ConnStatus)
    ensures r == status.WithStatus(false)
  {
    WithStatusChangesFlagOnly(status, false);
    r := if status.IsActive() then status.WithStatus(false) else status;
  }
}
