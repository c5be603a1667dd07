/** The duplex gRPC client as a state machine over its flags and the completion
    queue (DuplexGRPC.h): which operations are pending, done, outstanding, and what
    was issued and delivered. */
module DuplexMachine {

  datatype Op = START | READ | WRITE | WRITES_DONE | FINISH | SHUTDOWN

  datatype OpError = OK | ALREADY_PENDING | ALREADY_DONE | ILLEGAL_STATE | SHUT_DOWN

  /** What a read hands over: a message, or the null that says there are no more. */
  datatype Delivery = Msg | Null

  /** `outstanding` is the completion queue's view: what was started and has not
      completed.  `issued` and `delivered` are histories. */
  datatype Client = Client(
    callback: bool,
    done: set<Op>,
    pending: set<Op>,
    error: bool,
    bufValid: bool,
    inCallback: bool,
    outstanding: multiset<Op>,
    issued: seq<Op>,
    delivered: seq<Delivery>)

  /** Finish or shutdown was requested. */
  predicate Closing(c: Client) {
    FINISH in c.done + c.pending || SHUTDOWN in c.done + c.pending
  }

  /** `DoAsync`: the checks, in order, and then the operation is started. */
  function DoAsync(c: Client, op: Op, idempotent: bool): (Client, OpError) {
    if idempotent && op in c.done then (c, ALREADY_DONE)
    else if op in c.pending then (c, ALREADY_PENDING)
    else if SHUTDOWN in c.done + c.pending then (c, SHUT_DOWN)
    else if FINISH in c.done + c.pending then (c, ILLEGAL_STATE)
    else
      (c.(done := c.done - {op}, pending := c.pending + {op},
          outstanding := c.outstanding + multiset{op}, issued := c.issued + [op]), OK)
  }

  function WriteAsync(c: Client): (Client, OpError) {
    DoAsync(c, WRITE, false)
  }

  function WritesDoneAsync(c: Client): (Client, OpError) {
    DoAsync(c, WRITES_DONE, true)
  }

  function FinishAsync(c: Client): (Client, OpError) {
    DoAsync(c, FINISH, false)
  }

  function ReadNext(c: Client): Client {
    DoAsync(c.(bufValid := false), READ, false).0
  }

  /** The constructor starts the stream and the first read. */
  function Create(callback: bool): Client {
    ReadNext(Client(callback, {}, {START}, false, false, false, multiset{START}, [START], []))
  }

  /** `Shutdown`. */
  function Shutdown(c: Client): Client {
    if SHUTDOWN in c.done then c else c.(pending := c.pending + {SHUTDOWN})
  }

  function ShutdownAnswer(c: Client): OpError {
    if SHUTDOWN in c.done then ALREADY_DONE else if SHUTDOWN in c.pending then ALREADY_PENDING else OK
  }

  /** `HandleRead`: hand the message to the callback, which may call the client again
      before it returns, or keep it. */
  function HandleRead(c: Client, ok: bool): Client {
    if c.callback then c.(delivered := c.delivered + [if ok then Msg else Null], inCallback := true)
    else c.(bufValid := ok)
  }

  /** The callback returns, and `HandleRead` reads on. */
  function Resume(c: Client): Client {
    ReadNext(c.(inCallback := false))
  }

  /** A failed completion requests finish. */
  function Finishing(c: Client, ok: bool): Client {
    if ok then c else FinishAsync(c).0
  }

  /** The flags of a completed operation. */
  function Marked(c: Client, op: Op, ok: bool): Client {
    c.(pending := c.pending - {op}, done := c.done + {op}, error := c.error || !ok)
  }

  /** `ProcessEvent`: an operation completed. */
  function ProcessEvent(c: Client, op: Op, ok: bool): Client {
    var taken := c.(outstanding := c.outstanding - multiset{op});
    var marked := Marked(Finishing(taken, ok), op, ok);
    if op == READ then HandleRead(marked, ok) else marked
  }

  /** The tail of `Read`, after polling for a completed read. */
  function TakeRead(c: Client): Client {
    if c.callback || READ !in c.done || !c.bufValid then c
    else ReadNext(c.(delivered := c.delivered + [Msg]))
  }

  datatype Event =
    | CallWrite
    | CallWritesDone
    | CallFinish
    | CallShutdown
    | CallRead
    | CallbackReturns
    | Completion(op: Op, ok: bool)
    | QueueShutdown

  /** The queue only completes what is outstanding, and only reports its shutdown
      when that was requested and nothing is left. */
  predicate Possible(c: Client, e: Event) {
    match e
    case Completion(op, _) => op in c.outstanding
    case QueueShutdown => SHUTDOWN in c.pending && c.outstanding == multiset{}
    case CallbackReturns => c.inCallback
    case _ => true
  }

  function Step(c: Client, e: Event): Client {
    match e
    case CallWrite => WriteAsync(c).0
    case CallWritesDone => WritesDoneAsync(c).0
    case CallFinish => FinishAsync(c).0
    case CallShutdown => Shutdown(c)
    case CallRead => TakeRead(c)
    case CallbackReturns => Resume(c)
    case Completion(op, ok) => ProcessEvent(c, op, ok)
    case QueueShutdown => c.(done := c.done + {SHUTDOWN})
  }

  function RunEvents(c: Client, events: seq<Event>): Client {
    if events == [] then c else Step(RunEvents(c, events[..|events| - 1]), events[|events| - 1])
  }

  ghost predicate PossibleRun(c: Client, events: seq<Event>) {
    events != [] ==>
      PossibleRun(c, events[..|events| - 1]) && Possible(RunEvents(c, events[..|events| - 1]), events[|events| - 1])
  }

  // ----- answers

  /** What a call is answered: OK exactly if the operation was started; else nothing changed,
      and the answer names the first obstacle. */
  lemma AnswerMeans(c: Client, op: Op, idempotent: bool)
    ensures var (c', answer) := DoAsync(c, op, idempotent);
            && (answer == OK <==> c'.issued == c.issued + [op])
            && (answer == OK ==> op in c'.pending && op !in c'.done && c'.outstanding == c.outstanding + multiset{op})
            && (answer != OK ==> c' == c)
            && (answer == ALREADY_DONE <==> idempotent && op in c.done)
            && (answer == ALREADY_PENDING <==> op in c.pending && !(idempotent && op in c.done))
            && (answer == SHUT_DOWN <==> op !in c.pending && !(idempotent && op in c.done)
                                         && SHUTDOWN in c.done + c.pending)
            && (answer == ILLEGAL_STATE <==> op !in c.pending && !(idempotent && op in c.done)
                                             && SHUTDOWN !in c.done + c.pending && FINISH in c.done + c.pending)
  {
    assert |c.issued + [op]| != |c.issued|;
  }

  /** When the calls succeed: a write whenever none is under way, and the end of writes only
      once, both while the client is not closing; finish once, as that closes it. */
  lemma CallsSucceedIff(c: Client)
    ensures WriteAsync(c).1 == OK <==> WRITE !in c.pending && !Closing(c)
    ensures WritesDoneAsync(c).1 == OK <==> WRITES_DONE !in c.pending + c.done && !Closing(c)
    ensures FinishAsync(c).1 == OK <==> !Closing(c)
    ensures ShutdownAnswer(c) == OK <==> SHUTDOWN !in c.pending + c.done
    ensures SHUTDOWN in Shutdown(c).pending + c.done
  {
  }

  // ----- safety

  /** Pending is outstanding, `taken` aside; no operation but shutdown is both
      pending and done; no read is under way inside the callback; finish is issued
      at most once, and exactly if it is pending or done; an error means that finish
      or shutdown was requested. */
  ghost predicate SafeBut(c: Client, taken: Op) {
    && (forall op :: c.outstanding[op] == if op in c.pending && op != SHUTDOWN && op != taken then 1 else 0)
    && (forall op :: op in c.pending && op in c.done ==> op == SHUTDOWN)
    && (SHUTDOWN in c.done ==> SHUTDOWN in c.pending)
    && (c.inCallback ==> c.callback && READ !in c.pending)
    && multiset(c.issued)[FINISH] == (if FINISH in c.pending || FINISH in c.done then 1 else 0)
    && (c.error ==> Closing(c))
  }

  ghost predicate Safe(c: Client) {
    SafeBut(c, SHUTDOWN)
  }

  /** Messages first, then at most one null and nothing after it; after the null no
      read is under way and none will be. */
  ghost predicate EndsWithNull(c: Client) {
    && (forall i :: 0 <= i < |c.delivered| - 1 ==> c.delivered[i] == Msg)
    && (c.delivered != [] && c.delivered[|c.delivered| - 1] == Null ==> Closing(c) && READ !in c.pending)
  }

  lemma IssuedCount(issued: seq<Op>, op: Op)
    ensures multiset(issued + [op])[FINISH] == multiset(issued)[FINISH] + if op == FINISH then 1 else 0
  {
    assert multiset(issued + [op]) == multiset(issued) + multiset{op};
  }

  lemma AsyncIsSafe(c: Client, op: Op, idempotent: bool, taken: Op)
    requires SafeBut(c, taken) && op != SHUTDOWN && (op == taken ==> op in c.pending) && (op == READ ==> !c.inCallback)
    ensures SafeBut(DoAsync(c, op, idempotent).0, taken)
  {
    IssuedCount(c.issued, op);
  }

  /** What an asynchronous call leaves alone, and that it is refused while closing. */
  lemma AsyncFacts(c: Client, op: Op, idempotent: bool)
    ensures var c' := DoAsync(c, op, idempotent).0;
            && c'.callback == c.callback && c'.delivered == c.delivered && c'.error == c.error
                && c'.inCallback == c.inCallback
            && (Closing(c) ==> c' == c)
            && (op == FINISH && !idempotent ==> Closing(c'))
            && c'.pending <= c.pending + {op} && c.pending <= c'.pending && c'.done <= c.done
  {
  }

  lemma MarkedIsSafe(c: Client, op: Op, ok: bool)
    requires SafeBut(c, op) && op in c.pending && op != SHUTDOWN && (!ok ==> Closing(c))
    ensures Safe(Marked(c, op, ok))
    ensures Closing(c) ==> Closing(Marked(c, op, ok))
  {
  }

  lemma TakenFromQueue(c: Client, op: Op)
    requires Safe(c) && op in c.outstanding
    ensures op in c.pending && op != SHUTDOWN
    ensures SafeBut(c.(outstanding := c.outstanding - multiset{op}), op)
  {
    assert c.outstanding[op] == 1;
  }

  lemma TakenIsSafe(c: Client, op: Op, ok: bool)
    requires Safe(c) && op in c.outstanding
    ensures op in c.pending && op != SHUTDOWN
    ensures var f := Finishing(c.(outstanding := c.outstanding - multiset{op}), ok);
            SafeBut(f, op) && op in f.pending && (!ok ==> Closing(f)) && (Closing(c) ==> Closing(f))
            && f.callback == c.callback && f.delivered == c.delivered && f.inCallback == c.inCallback
            && (READ in f.pending ==> READ in c.pending)
  {
    hide DoAsync, SafeBut;
    TakenFromQueue(c, op);
    var taken := c.(outstanding := c.outstanding - multiset{op});
    AsyncIsSafe(taken, FINISH, false, op);
    AsyncFacts(taken, FINISH, false);
  }

  lemma CompletionIsSafe(c: Client, op: Op, ok: bool)
    requires Safe(c) && op in c.outstanding
    ensures Safe(ProcessEvent(c, op, ok))
  {
    hide SafeBut, DoAsync, Finishing, Marked;
    TakenIsSafe(c, op, ok);
    var f := Finishing(c.(outstanding := c.outstanding - multiset{op}), ok);
    MarkedIsSafe(f, op, ok);
    if op == READ {
      ReadIsSafe(f, ok);
    }
  }

  lemma ReadIsSafe(c: Client, ok: bool)
    requires Safe(Marked(c, READ, ok))
    ensures Safe(HandleRead(Marked(c, READ, ok), ok))
  {
  }

  /** The callback is not entered again before it returns: no read can complete. */
  lemma NoReadInside(c: Client)
    requires Safe(c) && c.inCallback
    ensures READ !in c.outstanding
  {
  }

  /** Every call and every completion keeps the client safe. */
  lemma StepIsSafe(c: Client, e: Event)
    requires Safe(c) && Possible(c, e)
    ensures Safe(Step(c, e))
  {
    hide DoAsync;
    match e
    case CallWrite => AsyncIsSafe(c, WRITE, false, SHUTDOWN);
    case CallWritesDone => AsyncIsSafe(c, WRITES_DONE, true, SHUTDOWN);
    case CallFinish => AsyncIsSafe(c, FINISH, false, SHUTDOWN);
    case CallShutdown =>
    case CallRead =>
      if !c.callback {
        AsyncIsSafe(c.(delivered := c.delivered + [Msg], bufValid := false), READ, false, SHUTDOWN);
      }
    case CallbackReturns => AsyncIsSafe(c.(inCallback := false, bufValid := false), READ, false, SHUTDOWN);
    case Completion(op, ok) => CompletionIsSafe(c, op, ok);
    case QueueShutdown =>
  }

  lemma CreatedIsSafe(callback: bool)
    ensures Safe(Create(callback)) && EndsWithNull(Create(callback))
  {
    var c := Client(callback, {}, {START}, false, false, false, multiset{START}, [START], []);
    AsyncIsSafe(c, READ, false, SHUTDOWN);
  }

  /** Safety over every sequence of calls and completions. */
  lemma {:induction false} RunsAreSafe(callback: bool, events: seq<Event>)
    requires PossibleRun(Create(callback), events)
    ensures Safe(RunEvents(Create(callback), events))
  {
    hide Safe, Step;
    CreatedIsSafe(callback);
    if events != [] {
      var n := |events| - 1;
      RunsAreSafe(callback, events[..n]);
      StepIsSafe(RunEvents(Create(callback), events[..n]), events[n]);
    }
  }

  /** Once finish or shutdown was requested it stays requested, and nothing more is
      issued: what is outstanding can only complete. */
  lemma ClosingIssuesNothing(c: Client, e: Event)
    requires Safe(c) && Closing(c) && Possible(c, e)
    ensures Closing(Step(c, e)) && Step(c, e).issued == c.issued
    ensures if e.Completion? then Step(c, e).outstanding == c.outstanding - multiset{e.op}
            else Step(c, e).outstanding == c.outstanding
  {
    match e
    case Completion(op, ok) => ClosingCompletion(c, op, ok);
    case _ =>
  }

  lemma ClosingCompletion(c: Client, op: Op, ok: bool)
    requires Closing(c)
    ensures var c' := ProcessEvent(c, op, ok);
            Closing(c') && c'.issued == c.issued && c'.outstanding == c.outstanding - multiset{op}
  {
    hide DoAsync;
    AsyncFacts(c.(outstanding := c.outstanding - multiset{op}), FINISH, false);
  }

  /** How a closing client goes on: nothing new is issued, what is outstanding only
      shrinks, and the queue reports its shutdown only when that is empty. */
  ghost predicate Drains(c: Client, end: Client) {
    && Safe(end) && Closing(end) && end.issued == c.issued && end.outstanding <= c.outstanding
    && (SHUTDOWN in c.pending ==> SHUTDOWN in end.pending)
    && (SHUTDOWN in end.done ==> SHUTDOWN in c.done || end.outstanding == multiset{})
  }

  lemma ClosingStepDrains(c: Client, e: Event)
    requires Safe(c) && Closing(c) && Possible(c, e)
    ensures Drains(c, Step(c, e))
  {
    hide SafeBut;
    StepIsSafe(c, e);
    ClosingIssuesNothing(c, e);
    ShutdownStays(c, e);
  }

  lemma ShutdownStays(c: Client, e: Event)
    requires Safe(c) && Possible(c, e)
    ensures SHUTDOWN in c.pending ==> SHUTDOWN in Step(c, e).pending
    ensures SHUTDOWN in Step(c, e).done ==> SHUTDOWN in c.done || e.QueueShutdown?
  {
    hide DoAsync, SafeBut, ProcessEvent;
    match e
    case CallWrite => AsyncFacts(c, WRITE, false);
    case CallWritesDone => AsyncFacts(c, WRITES_DONE, true);
    case CallFinish => AsyncFacts(c, FINISH, false);
    case CallShutdown =>
    case CallRead => AsyncFacts(c.(delivered := c.delivered + [Msg], bufValid := false), READ, false);
    case CallbackReturns => AsyncFacts(c.(inCallback := false, bufValid := false), READ, false);
    case Completion(op, ok) => CompletionKeepsShutdown(c, op, ok);
    case QueueShutdown =>
  }

  lemma CompletionKeepsShutdown(c: Client, op: Op, ok: bool)
    requires Safe(c) && op in c.outstanding
    ensures SHUTDOWN in c.pending ==> SHUTDOWN in ProcessEvent(c, op, ok).pending
    ensures SHUTDOWN in ProcessEvent(c, op, ok).done ==> SHUTDOWN in c.done
  {
    hide DoAsync, SafeBut;
    TakenFromQueue(c, op);
    AsyncFacts(c.(outstanding := c.outstanding - multiset{op}), FINISH, false);
  }

  lemma {:induction false} ClosingRunIssuesNothing(c: Client, events: seq<Event>)
    requires Safe(c) && Closing(c) && PossibleRun(c, events)
    ensures Drains(c, RunEvents(c, events))
  {
    hide Safe, Step, Closing;
    if events != [] {
      var n := |events| - 1;
      ClosingRunIssuesNothing(c, events[..n]);
      ClosingStepDrains(RunEvents(c, events[..n]), events[n]);
    }
  }

  function Completions(events: seq<Event>): nat {
    if events == [] then 0
    else Completions(events[..|events| - 1]) + if events[|events| - 1].Completion? then 1 else 0
  }

  /** So, once closing, there are exactly as many completions left as operations
      outstanding: draining the queue ends. */
  lemma {:induction false} ClosingRunIsBounded(c: Client, events: seq<Event>)
    requires Safe(c) && Closing(c) && PossibleRun(c, events)
    ensures Completions(events) + |RunEvents(c, events).outstanding| == |c.outstanding|
  {
    hide Safe, Step, Closing;
    if events != [] {
      var n := |events| - 1;
      ClosingRunIsBounded(c, events[..n]);
      ClosingRunIssuesNothing(c, events[..n]);
      ClosingIssuesNothing(RunEvents(c, events[..n]), events[n]);
    }
  }

  // ----- deliveries to a read callback

  lemma StepEndsWithNull(c: Client, e: Event)
    requires c.callback && Safe(c) && EndsWithNull(c) && Possible(c, e)
    ensures Step(c, e).callback && EndsWithNull(Step(c, e))
  {
    hide DoAsync, Safe;
    AsyncFacts(c, WRITE, false);
    AsyncFacts(c, WRITES_DONE, true);
    AsyncFacts(c, FINISH, false);
    AsyncFacts(c.(inCallback := false, bufValid := false), READ, false);
    match e
    case Completion(op, ok) => CompletionEndsWithNull(c, op, ok);
    case _ =>
  }

  lemma CompletionEndsWithNull(c: Client, op: Op, ok: bool)
    requires c.callback && Safe(c) && EndsWithNull(c) && op in c.outstanding
    ensures var c' := ProcessEvent(c, op, ok); c'.callback && EndsWithNull(c')
  {
    hide DoAsync, SafeBut, Finishing;
    TakenIsSafe(c, op, ok);
    var f := Finishing(c.(outstanding := c.outstanding - multiset{op}), ok);
    MarkedIsSafe(f, op, ok);
    if op == READ {
      assert c.delivered != [] ==> c.delivered[|c.delivered| - 1] == Msg;
    }
  }

  lemma {:induction false} CallbackRun(events: seq<Event>)
    requires PossibleRun(Create(true), events)
    ensures var c := RunEvents(Create(true), events); c.callback && Safe(c) && EndsWithNull(c)
  {
    hide Safe, Step, EndsWithNull;
    CreatedIsSafe(true);
    if events == [] {
      CreatedHasCallback();
    } else {
      var n := |events| - 1;
      CallbackRun(events[..n]);
      StepIsSafe(RunEvents(Create(true), events[..n]), events[n]);
      StepEndsWithNull(RunEvents(Create(true), events[..n]), events[n]);
    }
  }

  lemma CreatedHasCallback()
    ensures Create(true).callback
  {
  }

  /** In callback mode every run delivers messages, then at most one null, and
      nothing after it: no later run delivers anything once the null is out. */
  lemma {:induction false} NothingAfterNull(c: Client, events: seq<Event>)
    requires c.callback && Safe(c) && EndsWithNull(c) && PossibleRun(c, events)
    requires c.delivered != [] && c.delivered[|c.delivered| - 1] == Null
    ensures var end := RunEvents(c, events);
            end.delivered == c.delivered && end.callback && Safe(end) && EndsWithNull(end)
  {
    hide Safe, Step, EndsWithNull;
    if events != [] {
      var n := |events| - 1;
      NothingAfterNull(c, events[..n]);
      var mid := RunEvents(c, events[..n]);
      StepIsSafe(mid, events[n]);
      StepEndsWithNull(mid, events[n]);
      NullIsLast(mid, events[n]);
    }
  }

  lemma NullIsLast(c: Client, e: Event)
    requires c.callback && Safe(c) && EndsWithNull(c) && Possible(c, e)
    requires c.delivered != [] && c.delivered[|c.delivered| - 1] == Null
    ensures Step(c, e).delivered == c.delivered
  {
    assert READ !in c.outstanding;
  }

  // ----- what is delivered

  /** What the completed reads of a run bring, in order. */
  function ReadResults(events: seq<Event>): seq<Delivery> {
    if events == [] then []
    else
      var before := ReadResults(events[..|events| - 1]);
      match events[|events| - 1]
      case Completion(READ, ok) => before + [if ok then Msg else Null]
      case _ => before
  }

  /** A callback gets the result of every read, in order and once. */
  lemma {:induction false} CallbackGetsAll(events: seq<Event>)
    ensures var c := RunEvents(Create(true), events); c.callback && c.delivered == ReadResults(events)
  {
    hide Create, Step;
    if events == [] {
      CreatedFresh(true);
    } else {
      var n := |events| - 1;
      CallbackGetsAll(events[..n]);
      CallbackStep(RunEvents(Create(true), events[..n]), events[n]);
    }
  }

  lemma CreatedFresh(callback: bool)
    ensures var c := Create(callback);
            c.callback == callback && c.delivered == [] && !c.bufValid && !c.error && READ !in c.done
            && (forall op :: op in c.issued <==> op in c.pending) && c.done == {}
  {
  }

  lemma CallbackStep(c: Client, e: Event)
    requires c.callback
    ensures Step(c, e).callback
    ensures Step(c, e).delivered
              == c.delivered + if e.Completion? && e.op == READ then [if e.ok then Msg else Null] else []
  {
    hide DoAsync;
    AsyncFacts(c, WRITE, false);
    AsyncFacts(c, WRITES_DONE, true);
    AsyncFacts(c, FINISH, false);
    AsyncFacts(c.(inCallback := false, bufValid := false), READ, false);
    if e.Completion? {
      AsyncFacts(c.(outstanding := c.outstanding - multiset{e.op}), FINISH, false);
    }
  }

  function OkReads(events: seq<Event>): nat {
    if events == [] then 0
    else OkReads(events[..|events| - 1]) + if events[|events| - 1] == Completion(READ, true) then 1 else 0
  }

  /** Of a polled client: a valid buffer holds the result of a read that is done, and while a
      read is under way there is none. */
  ghost predicate Buffered(c: Client) {
    !c.callback && (c.bufValid ==> READ in c.done && READ !in c.pending) && forall d :: d in c.delivered ==> d == Msg
  }

  ghost function InBuffer(c: Client): nat {
    if c.bufValid then 1 else 0
  }

  /** A polled client hands over every message that a read brought, once; at most the last
      one is still in its buffer. */
  lemma {:induction false} PolledGetsAll(events: seq<Event>)
    requires PossibleRun(Create(false), events)
    ensures var c := RunEvents(Create(false), events);
            Safe(c) && Buffered(c) && |c.delivered| + InBuffer(c) == OkReads(events)
  {
    hide Create, Step, Safe, Buffered;
    if events == [] {
      CreatedFresh(false);
      CreatedIsSafe(false);
      CreatedBuffered();
    } else {
      var n := |events| - 1;
      var c := RunEvents(Create(false), events[..n]);
      PolledGetsAll(events[..n]);
      StepIsSafe(c, events[n]);
      PolledStep(c, events[n]);
    }
  }

  lemma CreatedBuffered()
    ensures Buffered(Create(false))
  {
  }

  lemma PolledStep(c: Client, e: Event)
    requires Safe(c) && Buffered(c) && Possible(c, e)
    ensures Buffered(Step(c, e))
    ensures var c' := Step(c, e);
            |c'.delivered| + InBuffer(c') == |c.delivered| + InBuffer(c) + if e == Completion(READ, true) then 1 else 0
  {
    match e
    case Completion(op, ok) => PolledCompletion(c, op, ok);
    case CallRead => PolledRead(c);
    case _ => PolledCall(c, e);
  }

  lemma PolledCall(c: Client, e: Event)
    requires Safe(c) && Buffered(c) && Possible(c, e) && !e.Completion? && !e.CallRead?
    ensures Buffered(Step(c, e)) && Step(c, e).delivered == c.delivered && Step(c, e).bufValid == c.bufValid
  {
  }

  lemma PolledRead(c: Client)
    requires Buffered(c)
    ensures Buffered(TakeRead(c))
    ensures |TakeRead(c).delivered| + InBuffer(TakeRead(c)) == |c.delivered| + InBuffer(c)
  {
  }

  lemma PolledCompletion(c: Client, op: Op, ok: bool)
    requires Safe(c) && Buffered(c) && op in c.outstanding
    ensures var c' := ProcessEvent(c, op, ok);
            Buffered(c') && c'.delivered == c.delivered
            && InBuffer(c') == InBuffer(c) + if op == READ && ok then 1 else 0
  {
    TakenFromQueue(c, op);
  }

  /** A call to read that finds a message takes it, and starts the next read unless the client
      is closing. */
  lemma ReadDelivers(c: Client)
    requires Safe(c) && Buffered(c)
    ensures var c' := TakeRead(c);
            && (c.bufValid ==> c'.delivered == c.delivered + [Msg] && !c'.bufValid)
            && (c.bufValid && !Closing(c) ==> c'.issued == c.issued + [READ])
            && (!c.bufValid ==> c' == c)
  {
  }

  /** A new client starts the stream and the first read. */
  lemma CreatedStarts(callback: bool)
    ensures var c := Create(callback);
            c.issued == [START, READ] && c.pending == {START, READ} && c.outstanding == multiset{START, READ}
            && c.done == {}
  {
  }

  /** A read is under way, or its message waits to be taken or is with the callback. */
  ghost predicate Reading(c: Client) {
    READ in c.pending || c.inCallback || (!c.callback && c.bufValid && READ in c.done)
  }

  /** As long as the client is not closing it reads on. */
  lemma {:induction false} ReadingGoesOn(callback: bool, events: seq<Event>)
    requires PossibleRun(Create(callback), events)
    ensures var c := RunEvents(Create(callback), events); Closing(c) || Reading(c)
  {
    hide Create, Step, Safe, Closing, Reading;
    if events == [] {
      CreatedStarts(callback);
      CreatedReads(callback);
    } else {
      var n := |events| - 1;
      var c := RunEvents(Create(callback), events[..n]);
      ReadingGoesOn(callback, events[..n]);
      RunsAreSafe(callback, events[..n]);
      if Closing(c) {
        ClosingIssuesNothing(c, events[n]);
      } else {
        ReadingStep(c, events[n]);
      }
    }
  }

  lemma CreatedReads(callback: bool)
    ensures Reading(Create(callback))
  {
    CreatedStarts(callback);
  }

  lemma ReadingStep(c: Client, e: Event)
    requires Safe(c) && Reading(c) && !Closing(c) && Possible(c, e)
    ensures Closing(Step(c, e)) || Reading(Step(c, e))
  {
    match e
    case Completion(op, ok) => ReadingCompletion(c, op, ok);
    case _ =>
  }

  lemma ReadingCompletion(c: Client, op: Op, ok: bool)
    requires Safe(c) && Reading(c) && !Closing(c) && op in c.outstanding
    ensures Closing(ProcessEvent(c, op, ok)) || Reading(ProcessEvent(c, op, ok))
  {
    TakenFromQueue(c, op);
  }

  // ----- flags as history

  /** Whether some completion failed. */
  predicate SomeFailed(events: seq<Event>) {
    exists i :: 0 <= i < |events| && events[i].Completion? && !events[i].ok
  }

  /** An operation was started exactly if it is pending or done. */
  ghost predicate Recorded(c: Client) {
    forall op :: op != SHUTDOWN ==> (op in c.issued <==> op in c.pending || op in c.done)
  }

  lemma CreatedIsRecorded(callback: bool)
    ensures Recorded(Create(callback))
  {
    CreatedFresh(callback);
  }

  /** The flags over any run: the error flag says that a completion failed, and an operation
      was started exactly if it is pending or done. */
  lemma {:induction false} FlagsAreHistory(callback: bool, events: seq<Event>)
    requires PossibleRun(Create(callback), events)
    ensures var c := RunEvents(Create(callback), events);
            (c.error <==> SomeFailed(events)) && Recorded(c)
  {
    hide Create, Step, Recorded, Safe;
    if events == [] {
      CreatedFresh(callback);
      CreatedIsRecorded(callback);
    } else {
      var n := |events| - 1;
      var c := RunEvents(Create(callback), events[..n]);
      FlagsAreHistory(callback, events[..n]);
      RunsAreSafe(callback, events[..n]);
      FlagsStep(c, events[n]);
      FailedSnoc(events);
    }
  }

  lemma FailedSnoc(events: seq<Event>)
    requires events != []
    ensures var e := events[|events| - 1];
            SomeFailed(events) <==> SomeFailed(events[..|events| - 1]) || (e.Completion? && !e.ok)
  {
    var n := |events| - 1;
    if SomeFailed(events[..n]) {
      var i :| 0 <= i < n && events[..n][i].Completion? && !events[..n][i].ok;
      assert events[i].Completion? && !events[i].ok;
    }
    if SomeFailed(events) {
      var i :| 0 <= i < |events| && events[i].Completion? && !events[i].ok;
      assert i < n ==> events[..n][i] == events[i];
    }
  }

  lemma FlagsStep(c: Client, e: Event)
    requires Safe(c) && Possible(c, e) && Recorded(c)
    ensures Step(c, e).error <==> c.error || (e.Completion? && !e.ok)
    ensures Recorded(Step(c, e))
  {
    hide DoAsync, SafeBut, Recorded, ProcessEvent;
    match e
    case CallWrite => AsyncIsRecorded(c, WRITE, false);
    case CallWritesDone => AsyncIsRecorded(c, WRITES_DONE, true);
    case CallFinish => AsyncIsRecorded(c, FINISH, false);
    case CallShutdown => SameRecord(c, Shutdown(c));
    case CallRead => TakenIsRecorded(c);
    case CallbackReturns =>
      SameRecord(c, c.(inCallback := false, bufValid := false));
      AsyncIsRecorded(c.(inCallback := false, bufValid := false), READ, false);
    case Completion(op, ok) => CompletionIsRecorded(c, op, ok);
    case QueueShutdown => SameRecord(c, c.(done := c.done + {SHUTDOWN}));
  }

  lemma SameRecord(c: Client, c': Client)
    requires Recorded(c) && c'.issued == c.issued
    requires c'.pending - {SHUTDOWN} == c.pending - {SHUTDOWN} && c'.done - {SHUTDOWN} == c.done - {SHUTDOWN}
    ensures Recorded(c')
  {
    forall op | op != SHUTDOWN ensures op in c'.issued <==> op in c'.pending || op in c'.done {
      assert op in c'.pending <==> op in c'.pending - {SHUTDOWN};
      assert op in c.pending <==> op in c.pending - {SHUTDOWN};
      assert op in c'.done <==> op in c'.done - {SHUTDOWN};
      assert op in c.done <==> op in c.done - {SHUTDOWN};
    }
  }

  lemma TakenIsRecorded(c: Client)
    requires Recorded(c)
    ensures Recorded(TakeRead(c)) && TakeRead(c).error == c.error
  {
    hide DoAsync, Recorded;
    var taken := c.(delivered := c.delivered + [Msg], bufValid := false);
    SameRecord(c, taken);
    AsyncIsRecorded(taken, READ, false);
  }

  lemma CompletionIsRecorded(c: Client, op: Op, ok: bool)
    requires Safe(c) && Recorded(c) && op in c.outstanding
    ensures Recorded(ProcessEvent(c, op, ok)) && (ProcessEvent(c, op, ok).error <==> c.error || !ok)
  {
    hide DoAsync, SafeBut, Recorded, Marked;
    var taken := c.(outstanding := c.outstanding - multiset{op});
    TakenFromQueue(c, op);
    SameRecord(c, taken);
    AsyncIsRecorded(taken, FINISH, false);
    AsyncFacts(taken, FINISH, false);
    var f := Finishing(taken, ok);
    MarkedIsRecorded(f, op, ok);
    SameRecord(Marked(f, op, ok), HandleRead(Marked(f, op, ok), ok));
  }

  lemma MarkedIsRecorded(c: Client, op: Op, ok: bool)
    requires Recorded(c) && op in c.pending && op != SHUTDOWN
    ensures Recorded(Marked(c, op, ok)) && (Marked(c, op, ok).error <==> c.error || !ok)
  {
  }

  lemma AsyncIsRecorded(c: Client, op: Op, idempotent: bool)
    requires op != SHUTDOWN && Recorded(c)
    ensures var c' := DoAsync(c, op, idempotent).0; Recorded(c') && c'.error == c.error
  {
    var c' := DoAsync(c, op, idempotent).0;
    forall o | o != SHUTDOWN ensures o in c'.issued <==> o in c'.pending || o in c'.done {
      assert o in c.issued + [op] <==> o in c.issued || o == op;
    }
  }

  // ----- a second finish

  /** A duplicate finish is reported as pending while the first one is, but as an
      illegal state, not as done, once it is done. */
  lemma DuplicateFinish(c: Client)
    requires Safe(c) && FINISH in c.pending + c.done && SHUTDOWN !in c.pending
    ensures FinishAsync(c) == (c, if FINISH in c.pending then ALREADY_PENDING else ILLEGAL_STATE)
  {
  }

  lemma FinishTwice(c: Client)
    requires !Closing(c)
    ensures var c1 := FinishAsync(c).0;
            var c2 := ProcessEvent(c1, FINISH, true);
            FINISH in c1.outstanding && FinishAsync(c2) == (c2, ILLEGAL_STATE)
  {
    var c1 := FinishAsync(c).0;
    assert c1.outstanding[FINISH] > 0;
  }

  /** A run that gets there: finish, its completion, and finish again. */
  lemma SecondFinishIsIllegal(callback: bool)
    ensures var run := [CallFinish, Completion(FINISH, true)];
            var c := RunEvents(Create(callback), run);
            PossibleRun(Create(callback), run) && FinishAsync(c) == (c, ILLEGAL_STATE)
  {
    hide FinishAsync, ProcessEvent, Create, RunEvents, PossibleRun;
    CreatedIsOpen(callback);
    FinishTwice(Create(callback));
    TwoSteps(Create(callback), CallFinish, Completion(FINISH, true));
  }

  lemma CreatedIsOpen(callback: bool)
    ensures !Closing(Create(callback))
  {
  }

  lemma TwoSteps(c: Client, a: Event, b: Event)
    ensures RunEvents(c, [a, b]) == Step(Step(c, a), b)
    ensures PossibleRun(c, [a, b]) <==> Possible(c, a) && Possible(Step(c, a), b)
  {
    hide Step, Possible;
    assert [a, b][..1] == [a] && [a][..0] == [];
    assert RunEvents(c, [a][..0]) == c && RunEvents(c, [a]) == Step(c, a);
    assert PossibleRun(c, [a]) <==> Possible(c, a) by {
      assert PossibleRun(c, [a][..0]);
    }
  }
}
