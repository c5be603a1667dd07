/** The scrape loop of the network status notifier (NetworkStatusNotifier.cpp):
    fetch a snapshot, compute what changed, cut it down to the rate limit, send
    it, remember it. */
module Notifier {
  import opened Wrappers
  import opened Status
  import opened Delta
  import opened Runs
  import opened Normalization
  import opened Tracker
  import opened Limits

  // ----- messages

  datatype Update<K> = Update(key: K, status: ConnStatus)

  function AsState<K(==)>(updates: seq<Update<K>>): State<K> {
    if updates == [] then map[]
    else
      var last := updates[|updates| - 1];
      AsState(updates[..|updates| - 1])[last.key := last.status]
  }

  lemma AsStateSnoc<K>(updates: seq<Update<K>>, u: Update<K>)
    ensures AsState(updates + [u]) == AsState(updates)[u.key := u.status]
  {
    assert (updates + [u])[..|updates|] == updates;
  }

  /** The opens of one container. */
  ghost function OpensOf(s: State<Connection>, container: string): set<Connection> {
    set k | k in s && s[k].IsActive() && k.container == container
  }

  ghost function Min(a: int, b: int): int {
    if a < b then a else b
  }

  ghost function Max(a: int, b: int): int {
    if a < b then b else a
  }

  lemma OpensGrow(s: State<Connection>, k: Connection, status: ConnStatus, container: string)
    requires k !in s
    ensures |OpensOf(s[k := status], container)|
              == |OpensOf(s, container)| + if status.IsActive() && k.container == container then 1 else 0
  {
    var s' := s[k := status];
    if status.IsActive() && k.container == container {
      assert OpensOf(s', container) == OpensOf(s, container) + {k};
    } else {
      assert OpensOf(s', container) == OpensOf(s, container);
    }
  }

  /** What may be left out of a delta: of each container, the opens beyond the
      limit; never a close. */
  ghost predicate CutToLimit(sent: State<Connection>, delta: State<Connection>, limit: int) {
    DropsOnlyOpens(sent, delta)
    && forall c :: |OpensOf(sent, c)| == Min(|OpensOf(delta, c)|, Max(limit, 0))
  }

  /** The books of `AddConnections` for one container, after the entries `seen` of
      which `sent` went out: opens seen, sent and held back. */
  ghost predicate AccountedFor(used: map<string, int>, limited: map<string, int>, limit: int,
                               seen: State<Connection>, sent: State<Connection>, c: string)
  {
    && Count(used, c) == |OpensOf(seen, c)|
    && |OpensOf(sent, c)| == Min(|OpensOf(seen, c)|, Max(limit, 0))
    && Count(limited, c) == |OpensOf(seen, c)| - |OpensOf(sent, c)|
  }

  ghost predicate Accounted(used: map<string, int>, limited: map<string, int>, limit: int,
                            seen: State<Connection>, sent: State<Connection>)
  {
    DropsOnlyOpens(sent, seen) && forall c :: AccountedFor(used, limited, limit, seen, sent, c)
  }

  lemma AccountClose(used: map<string, int>, limited: map<string, int>, limit: int,
                     seen: State<Connection>, sent: State<Connection>, k: Connection, status: ConnStatus)
    requires Accounted(used, limited, limit, seen, sent) && k !in seen && !status.IsActive()
    ensures Accounted(used, limited, limit, seen[k := status], sent[k := status])
  {
    hide OpensOf;
    var seen', sent' := seen[k := status], sent[k := status];
    forall c ensures AccountedFor(used, limited, limit, seen', sent', c) {
      assert AccountedFor(used, limited, limit, seen, sent, c);
      OpensGrow(seen, k, status, c);
      OpensGrow(sent, k, status, c);
    }
  }

  lemma AccountSent(used: map<string, int>, used': map<string, int>, limited: map<string, int>, limit: int,
                    seen: State<Connection>, sent: State<Connection>, k: Connection, status: ConnStatus)
    requires Accounted(used, limited, limit, seen, sent) && k !in seen && status.IsActive()
    requires Count(used, k.container) < limit && OneMore(used, used', k.container)
    ensures Accounted(used', limited, limit, seen[k := status], sent[k := status])
  {
    hide OpensOf;
    var seen', sent' := seen[k := status], sent[k := status];
    assert AccountedFor(used, limited, limit, seen, sent, k.container);
    forall c ensures AccountedFor(used', limited, limit, seen', sent', c) {
      assert AccountedFor(used, limited, limit, seen, sent, c);
      OpensGrow(seen, k, status, c);
      OpensGrow(sent, k, status, c);
    }
  }

  lemma AccountHeld(used: map<string, int>, used': map<string, int>, limited: map<string, int>, limit: int,
                    seen: State<Connection>, sent: State<Connection>, k: Connection, status: ConnStatus)
    requires Accounted(used, limited, limit, seen, sent) && k !in seen && status.IsActive()
    requires Count(used, k.container) >= limit && OneMore(used, used', k.container)
    ensures Accounted(used', limited[k.container := Count(limited, k.container) + 1],
                      limit, seen[k := status], sent)
  {
    hide OpensOf;
    var limited' := limited[k.container := Count(limited, k.container) + 1];
    var seen' := seen[k := status];
    assert AccountedFor(used, limited, limit, seen, sent, k.container);
    forall c ensures AccountedFor(used', limited', limit, seen', sent, c) {
      assert AccountedFor(used, limited, limit, seen, sent, c);
      OpensGrow(seen, k, status, c);
    }
  }

  lemma NothingAccounted(limit: int)
    ensures Accounted(map[], map[], limit, map[], map[])
  {
    assert forall c :: OpensOf(map[], c) == {};
  }

  /** How far `AddConnections` has come: `todo` is left of the delta. */
  ghost predicate Progress(delta: State<Connection>, todo: set<Connection>, seen: State<Connection>,
                           sent: State<Connection>,
                           updates: seq<Update<Connection>>, limitedTotal: int)
  {
    && (forall k :: k in seen <==> k in delta && k !in todo)
    && (forall k :: k in seen ==> seen[k] == delta[k])
    && (forall k :: k in sent ==> k in seen)
    && sent == AsState(updates) && |sent| == |updates| && |updates| + limitedTotal == |seen|
  }

  lemma ProgressSend(delta: State<Connection>, todo: set<Connection>, seen: State<Connection>, sent: State<Connection>,
                     updates: seq<Update<Connection>>, limitedTotal: int, k: Connection)
    requires Progress(delta, todo, seen, sent, updates, limitedTotal) && k in todo && k in delta
    ensures k !in seen
    ensures Progress(delta, todo - {k}, seen[k := delta[k]], sent[k := delta[k]], updates + [Update(k, delta[k])],
                     limitedTotal)
  {
    hide AsState;
    AsStateSnoc(updates, Update(k, delta[k]));
  }

  lemma ProgressHold(delta: State<Connection>, todo: set<Connection>, seen: State<Connection>, sent: State<Connection>,
                     updates: seq<Update<Connection>>, limitedTotal: int, k: Connection)
    requires Progress(delta, todo, seen, sent, updates, limitedTotal) && k in todo && k in delta
    ensures Progress(delta, todo - {k}, seen[k := delta[k]], sent, updates, limitedTotal + 1)
  {
    hide AsState;
  }

  lemma ProgressEnds(delta: State<Connection>, seen: State<Connection>, sent: State<Connection>,
                     updates: seq<Update<Connection>>, limitedTotal: int)
    ensures Progress(delta, delta.Keys, map[], map[], [], 0)
    ensures Progress(delta, {}, seen, sent, updates, limitedTotal) ==>
              seen == delta && sent == AsState(updates) && |sent| == |updates| && |updates| + limitedTotal == |delta|
  {
  }

  /** The loop of `AddConnections`, over the delta in any order. */
  method SelectUpdates(delta: State<Connection>, limit: int)
    returns (updates: seq<Update<Connection>>, limited: map<string, int>, limitedTotal: int,
             ghost used: map<string, int>, ghost seen: State<Connection>, ghost sent: State<Connection>)
    ensures Progress(delta, {}, seen, sent, updates, limitedTotal)
    ensures Accounted(used, limited, limit, seen, sent)
  {
    hide Accounted, Progress, ConnStatus.IsActive, Count, OneMore;
    var limiter := new CountLimiter(limit);
    updates, limited, limitedTotal := [], map[], 0;
    var todo := delta.Keys;
    seen, sent := map[], map[];
    ProgressEnds(delta, seen, sent, updates, limitedTotal);
    NothingAccounted(limit);
    while todo != {}
      invariant todo <= delta.Keys && limiter.count == limit && fresh(limiter)
      invariant Progress(delta, todo, seen, sent, updates, limitedTotal)
      invariant Accounted(limiter.cache, limited, limit, seen, sent)
      decreases |todo|
    {
      var k :| k in todo;
      var status := delta[k];
      ProgressSend(delta, todo, seen, sent, updates, limitedTotal, k);
      ProgressHold(delta, todo, seen, sent, updates, limitedTotal, k);
      todo := todo - {k};
      ghost var before := limiter.cache;
      if status.IsActive() {
        var allowed := limiter.Allow(k.container);
        if !allowed {
          AccountHeld(before, limiter.cache, limited, limit, seen, sent, k, status);
          limited := limited[k.container := Count(limited, k.container) + 1];
          limitedTotal := limitedTotal + 1;
          seen := seen[k := status];
          continue;
        }
        AccountSent(before, limiter.cache, limited, limit, seen, sent, k, status);
      } else {
        AccountClose(before, limited, limit, seen, sent, k, status);
      }
      updates := updates + [Update(k, status)];
      seen, sent := seen[k := status], sent[k := status];
    }
    used := limiter.cache;
  }

  /** `AddConnections`: closes always go out, opens up to the limit of their
      container, whatever the iteration order. */
  method AddConnections(delta: State<Connection>, limit: int)
    returns (updates: seq<Update<Connection>>, limited: map<string, int>, limitedTotal: int)
    ensures CutToLimit(AsState(updates), delta, limit)
    ensures |AsState(updates)| == |updates| && |updates| + limitedTotal == |delta|
    ensures forall c :: Count(limited, c) == |OpensOf(delta, c)| - |OpensOf(AsState(updates), c)|
  {
    hide Accounted, Progress, AsState, OpensOf, DropsOnlyOpens;
    ghost var used, seen, sent;
    updates, limited, limitedTotal, used, seen, sent := SelectUpdates(delta, limit);
    ProgressEnds(delta, seen, sent, updates, limitedTotal);
    Settled(used, limited, limit, seen, sent);
  }

  lemma Settled(used: map<string, int>, limited: map<string, int>, limit: int, delta: State<Connection>,
                sent: State<Connection>)
    requires Accounted(used, limited, limit, delta, sent)
    ensures CutToLimit(sent, delta, limit)
    ensures forall c :: Count(limited, c) == |OpensOf(delta, c)| - |OpensOf(sent, c)|
  {
    hide OpensOf, DropsOnlyOpens;
    forall c
      ensures |OpensOf(sent, c)| == Min(|OpensOf(delta, c)|, Max(limit, 0))
      ensures Count(limited, c) == |OpensOf(delta, c)| - |OpensOf(sent, c)|
    {
      assert AccountedFor(used, limited, limit, delta, sent, c);
    }
  }

  /** The updates so far are the part of the delta that is not left in `todo`. */
  ghost predicate Listed<K>(delta: State<K>, todo: set<K>, updates: seq<Update<K>>) {
    var s := AsState(updates);
    |s| == |updates|
    && (forall k :: k in s ==> k in delta && k !in todo && s[k] == delta[k])
    && (forall k :: k in delta && k !in todo ==> k in s)
  }

  lemma ListedStep<K>(delta: State<K>, todo: set<K>, updates: seq<Update<K>>, k: K)
    requires Listed(delta, todo, updates) && k in todo && k in delta
    ensures Listed(delta, todo - {k}, updates + [Update(k, delta[k])])
  {
    hide AsState;
    AsStateSnoc(updates, Update(k, delta[k]));
  }

  lemma ListedEnds<K>(delta: State<K>, updates: seq<Update<K>>)
    ensures Listed(delta, delta.Keys, [])
    ensures Listed(delta, {}, updates) ==> AsState(updates) == delta && |updates| == |delta|
  {
  }

  /** `AddContainerEndpoints`: endpoint updates are not limited. */
  method AddContainerEndpoints<K(==)>(delta: State<K>) returns (updates: seq<Update<K>>)
    ensures AsState(updates) == delta && |updates| == |delta|
  {
    hide AsState, Listed;
    updates := [];
    var todo := delta.Keys;
    ListedEnds(delta, updates);
    while todo != {}
      invariant todo <= delta.Keys && Listed(delta, todo, updates)
      decreases |todo|
    {
      var k :| k in todo;
      ListedStep(delta, todo, updates, k);
      todo := todo - {k};
      updates := updates + [Update(k, delta[k])];
    }
    ListedEnds(delta, updates);
  }

  datatype Message = Message(connections: seq<Update<Connection>>, endpoints: seq<Update<AdvertisedEndpoint>>)

  /** What a consumer reads about connections, and about endpoints, in what was
      sent for a scrape (which may be nothing). */
  function ConnReport(msg: Option<Message>): State<Connection> {
    match msg
    case None => map[]
    case Some(m) => AsState(m.connections)
  }

  function EndpointReport(msg: Option<Message>): State<AdvertisedEndpoint> {
    match msg
    case None => map[]
    case Some(m) => AsState(m.endpoints)
  }

  lemma NothingToCut(limit: int)
    ensures CutToLimit(map[], map[], limit)
  {
    assert forall c :: OpensOf(map[], c) == {};
  }

  /** `CreateInfoMessage`: no message if nothing changed. */
  method CreateInfoMessage(connDelta: State<Connection>, endpointDelta: State<AdvertisedEndpoint>, limit: int)
    returns (msg: Option<Message>)
    ensures msg.None? <==> connDelta == map[] && endpointDelta == map[]
    ensures CutToLimit(ConnReport(msg), connDelta, limit) && EndpointReport(msg) == endpointDelta
  {
    hide CutToLimit, AsState;
    if |connDelta| == 0 && |endpointDelta| == 0 {
      NothingToCut(limit);
      return None;
    }
    var connections, limited, total := AddConnections(connDelta, limit);
    var endpoints := AddContainerEndpoints(endpointDelta);
    msg := Some(Message(connections, endpoints));
  }

  // ----- the messages of a session

  function ConnReports(sent: seq<Option<Message>>): (r: seq<State<Connection>>)
    ensures |r| == |sent|
  {
    if sent == [] then [] else ConnReports(sent[..|sent| - 1]) + [ConnReport(sent[|sent| - 1])]
  }

  function EndpointReports(sent: seq<Option<Message>>): (r: seq<State<AdvertisedEndpoint>>)
    ensures |r| == |sent|
  {
    if sent == [] then [] else EndpointReports(sent[..|sent| - 1]) + [EndpointReport(sent[|sent| - 1])]
  }

  lemma ReportsSnoc(sent: seq<Option<Message>>, msg: Option<Message>)
    ensures ConnReports(sent + [msg]) == ConnReports(sent) + [ConnReport(msg)]
    ensures EndpointReports(sent + [msg]) == EndpointReports(sent) + [EndpointReport(msg)]
  {
    assert (sent + [msg])[..|sent|] == sent;
  }

  /** Every report is what was due, cut down to the limit of its message. */
  ghost predicate AllCut(sent: seq<State<Connection>>, due: seq<State<Connection>>, limits: seq<int>) {
    |sent| == |due| == |limits| && forall i :: 0 <= i < |due| ==> CutToLimit(sent[i], due[i], limits[i])
  }

  lemma CutIsLimited(sent: seq<State<Connection>>, due: seq<State<Connection>>, limits: seq<int>)
    requires AllCut(sent, due, limits)
    ensures Limited(sent, due)
  {
    hide OpensOf, DropsOnlyOpens;
    forall i | 0 <= i < |due| ensures DropsOnlyOpens(sent[i], due[i]) {
      assert CutToLimit(sent[i], due[i], limits[i]);
    }
  }

  /** An open is held back only behind a full share of its container. */
  lemma DroppedOverLimit(sent: State<Connection>, due: State<Connection>, limit: int, k: Connection)
    requires CutToLimit(sent, due, limit) && k in Dropped(sent, due)
    ensures due[k].IsActive() && |OpensOf(due, k.container)| > |OpensOf(sent, k.container)| == Max(limit, 0)
  {
    hide ConnStatus.IsActive;
    var all, some := OpensOf(due, k.container), OpensOf(sent, k.container);
    assert some <= all - {k};
    Subset(some, all - {k});
  }

  lemma {:induction false} Subset<T>(a: set<T>, b: set<T>)
    requires a <= b
    ensures |a| <= |b|
  {
    if a != {} {
      var x :| x in a;
      Subset(a - {x}, b - {x});
    }
  }

  /** No container has more opens in the report than the limit. */
  ghost predicate WithinLimit(due: State<Connection>, limit: int) {
    forall c :: |OpensOf(due, c)| <= Max(limit, 0)
  }

  /** A report goes out in full exactly if it is within the limit. */
  lemma SentInFullIff(sent: State<Connection>, due: State<Connection>, limit: int)
    requires CutToLimit(sent, due, limit)
    ensures sent == due <==> WithinLimit(due, limit)
  {
    hide OpensOf;
    if WithinLimit(due, limit) {
      forall k | k in due ensures k in sent {
        if k !in sent {
          DroppedOverLimit(sent, due, limit, k);
        }
      }
    }
  }

  ghost predicate AllWithinLimit(due: seq<State<Connection>>, limits: seq<int>) {
    |due| == |limits| && forall i :: 0 <= i < |due| ==> WithinLimit(due[i], limits[i])
  }

  lemma AllSentInFullIff(sent: seq<State<Connection>>, due: seq<State<Connection>>, limits: seq<int>)
    requires AllCut(sent, due, limits)
    ensures sent == due <==> AllWithinLimit(due, limits)
  {
    hide CutToLimit, WithinLimit;
    forall i | 0 <= i < |due| ensures sent[i] == due[i] <==> WithinLimit(due[i], limits[i]) {
      SentInFullIff(sent[i], due[i], limits[i]);
    }
  }
}
