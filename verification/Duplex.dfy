/** The duplex client object: all flags in one 32-bit word (DuplexGRPC.h), proved
    to implement the state machine of `DuplexMachine`. */
module Duplex {
  import opened DuplexMachine

  /** A 32-bit word as the set of the positions of its one bits: `|` is union, `&`
      intersection, and `& ~` difference. */
  type Flags = s: set<nat> | forall i :: i in s ==> i < 32

  const NUM_OPS := 6

  function Index(op: Op): nat {
    match op
    case START => 0
    case READ => 1
    case WRITE => 2
    case WRITES_DONE => 3
    case FINISH => 4
    case SHUTDOWN => 5
  }

  function Done(op: Op): Flags {
    {Index(op)}
  }

  function Pending(op: Op): Flags {
    {Index(op) + NUM_OPS}
  }

  const STREAM_ERROR: Flags := {31}

  /** Some flag of the mask is set. */
  predicate Has(flags: Flags, mask: Flags) {
    flags * mask != {}
  }

  ghost function DoneOps(flags: Flags): set<Op> {
    set op: Op | Index(op) in flags
  }

  ghost function PendingOps(flags: Flags): set<Op> {
    set op: Op | Index(op) + NUM_OPS in flags
  }

  /** A mask of one operation tests that operation. */
  lemma HasOp(flags: Flags, op: Op)
    ensures Has(flags, Done(op)) <==> op in DoneOps(flags)
    ensures Has(flags, Pending(op)) <==> op in PendingOps(flags)
    ensures Has(flags, Done(op) + Pending(op)) <==> op in DoneOps(flags) + PendingOps(flags)
    ensures Has(flags, STREAM_ERROR) <==> 31 in flags
  {
    assert op in DoneOps(flags) ==> Index(op) in flags * Done(op) && Index(op) in flags * (Done(op) + Pending(op));
    assert op in PendingOps(flags) ==>
        Index(op) + NUM_OPS in flags * Pending(op) && Index(op) + NUM_OPS in flags * (Done(op) + Pending(op));
    assert 31 in flags ==> 31 in flags * STREAM_ERROR;
  }

  lemma SetDone(flags: Flags, op: Op)
    ensures DoneOps(flags + Done(op)) == DoneOps(flags) + {op} && PendingOps(flags + Done(op)) == PendingOps(flags)
  {
  }

  lemma SetPending(flags: Flags, op: Op)
    ensures DoneOps(flags + Pending(op)) == DoneOps(flags)
            && PendingOps(flags + Pending(op)) == PendingOps(flags) + {op}
  {
  }

  lemma SetError(flags: Flags)
    ensures DoneOps(flags + STREAM_ERROR) == DoneOps(flags) && PendingOps(flags + STREAM_ERROR) == PendingOps(flags)
  {
  }

  lemma ClearDone(flags: Flags, op: Op)
    ensures DoneOps(flags - Done(op)) == DoneOps(flags) - {op} && PendingOps(flags - Done(op)) == PendingOps(flags)
  {
  }

  lemma ClearPending(flags: Flags, op: Op)
    ensures DoneOps(flags - Pending(op)) == DoneOps(flags)
            && PendingOps(flags - Pending(op)) == PendingOps(flags) - {op}
  {
  }

  // ----- the client

  class DuplexClient {
    const hasCallback: bool
    var flags: Flags
    var readBufValid: bool
    /** Whether the read callback is running. */
    var inCallback: bool

    /** The completion queue and the outside world, as far as they matter. */
    var outstanding: multiset<Op>
    var issued: seq<Op>
    var delivered: seq<Delivery>

    ghost function View(): Client
      reads this
    {
      Client(hasCallback, DoneOps(flags), PendingOps(flags), 31 in flags, readBufValid, inCallback,
             outstanding, issued, delivered)
    }

    constructor (callback: bool)
      ensures View() == Create(callback) && Safe(View()) && EndsWithNull(View())
    {
      hasCallback := callback;
      flags, readBufValid, inCallback := {}, false, false;
      outstanding, issued, delivered := multiset{START}, [START], [];
      new;
      NoFlags();
      var newFlags := SetFlags(Pending(START));
      SetPending({}, START);
      ReadNext();
      CreatedIsSafe(callback);
    }

    /** Sets flags and returns the ones that were not set before. */
    method SetFlags(fl: Flags) returns (newFlags: Flags)
      modifies this`flags
      ensures flags == old(flags) + fl && newFlags == fl - old(flags)
    {
      newFlags := fl - flags;
      flags := flags + fl;
    }

    /** Clears flags and returns the ones that were set before. */
    method ClearFlags(fl: Flags) returns (cleared: Flags)
      modifies this`flags
      ensures flags == old(flags) - fl && cleared == fl * old(flags)
    {
      cleared := fl * flags;
      flags := flags - fl;
    }

    method CheckFlags(fl: Flags) returns (set_: bool)
      ensures set_ == Has(flags, fl)
    {
      set_ := flags * fl != {};
    }

    /** Mark an operation as pending and start it. */
    method Issue(op: Op)
      modifies this
      ensures View() == old(View()).(done := old(View()).done - {op}, pending := old(View()).pending + {op},
                                     outstanding := old(outstanding) + multiset{op}, issued := old(issued) + [op])
    {
      ghost var before := flags;
      var cleared := ClearFlags(Done(op));
      ClearDone(before, op);
      ghost var mid := flags;
      var newFlags := SetFlags(Pending(op));
      SetPending(mid, op);
      outstanding := outstanding + multiset{op};
      issued := issued + [op];
    }

    method DoAsync(op: Op, idempotent: bool) returns (err: OpError)
      modifies this
      ensures (View(), err) == DuplexMachine.DoAsync(old(View()), op, idempotent)
    {
      hide Done, Pending, Has;
      HasOp(flags, op);
      HasOp(flags, SHUTDOWN);
      HasOp(flags, FINISH);
      var isDone := CheckFlags(Done(op));
      if idempotent && isDone {
        return ALREADY_DONE;
      }
      var isPending := CheckFlags(Pending(op));
      if isPending {
        return ALREADY_PENDING;
      }
      var shutdown := CheckFlags(Done(SHUTDOWN) + Pending(SHUTDOWN));
      if shutdown {
        return SHUT_DOWN;
      }
      var finish := CheckFlags(Done(FINISH) + Pending(FINISH));
      if finish {
        return ILLEGAL_STATE;
      }
      Issue(op);
      return OK;
    }

    method ReadNext()
      modifies this
      ensures View() == DuplexMachine.ReadNext(old(View()))
    {
      readBufValid := false;
      var err := DoAsync(READ, false);
    }

    method Shutdown() returns (answer: OpError)
      modifies this
      ensures View() == DuplexMachine.Shutdown(old(View())) && answer == ShutdownAnswer(old(View()))
    {
      HasOp(flags, SHUTDOWN);
      var isDone := CheckFlags(Done(SHUTDOWN));
      if isDone {
        return ALREADY_DONE;
      }
      ghost var before := flags;
      var newFlags := SetFlags(Pending(SHUTDOWN));
      SetPending(before, SHUTDOWN);
      answer := if newFlags == {} then ALREADY_PENDING else OK;
    }

    /** The flags of a completed operation. */
    method MarkCompleted(op: Op, ok: bool)
      modifies this`flags
      ensures View() == Marked(old(View()), op, ok)
    {
      ghost var before := flags;
      var fl := Done(op);
      if !ok {
        fl := fl + STREAM_ERROR;
      }
      var cleared := ClearFlags(Pending(op));
      ClearPending(before, op);
      ghost var mid := flags;
      var newFlags := SetFlags(fl);
      SetDone(mid, op);
      if !ok {
        SetError(mid + Done(op));
        assert flags == mid + Done(op) + STREAM_ERROR;
      }
    }

    /** A completion arrives: the operation leaves the queue. */
    method Complete(op: Op, ok: bool)
      modifies this
      ensures View() == Marked(Finishing(old(View()).(outstanding := old(outstanding) - multiset{op}), ok), op, ok)
    {
      outstanding := outstanding - multiset{op};
      if !ok {
        var err := DoAsync(FINISH, false);
      }
      MarkCompleted(op, ok);
    }

    /** The queue reports that it is shut down. */
    method NoteShutdown()
      modifies this`flags
      ensures View() == Step(old(View()), QueueShutdown)
    {
      ghost var before := flags;
      var newFlags := SetFlags(Done(SHUTDOWN));
      SetDone(before, SHUTDOWN);
    }

    /** What the read callback may do: call the client, or poll it for an event, which
        then happens only if the queue has it. */
    method Perform(e: Event) returns (ghost happened: bool)
      requires Safe(View()) && inCallback
      modifies this
      ensures happened ==> Possible(old(View()), e) && e != CallbackReturns && View() == Step(old(View()), e)
      ensures !happened ==> View() == old(View())
    {
      hide DuplexMachine.DoAsync, SafeBut, Marked, Finishing, PendingOps, DoneOps;
      InsideCallback(View());
      happened := true;
      match e {
        case CallWrite => var err := DoAsync(WRITE, false);
        case CallWritesDone => var err := DoAsync(WRITES_DONE, true);
        case CallFinish => var err := DoAsync(FINISH, false);
        case CallShutdown => var answer := Shutdown();
        case CallRead =>
        case CallbackReturns => happened := false;
        case Completion(op, ok) =>
          if op in outstanding {
            Complete(op, ok);
          } else {
            happened := false;
          }
        case QueueShutdown =>
          HasOp(flags, SHUTDOWN);
          var requested := CheckFlags(Pending(SHUTDOWN));
          if requested && outstanding == multiset{} {
            NoteShutdown();
          } else {
            happened := false;
          }
      }
    }

    /** The read callback runs: it does what it likes, one thing after the other. */
    method RunCallback(script: seq<Event>) returns (ghost inner: seq<Event>)
      requires Safe(View()) && inCallback
      modifies this
      ensures PossibleRun(old(View()), inner) && View() == RunEvents(old(View()), inner)
      ensures Safe(View()) && inCallback
    {
      hide SafeBut, Possible, Step;
      inner := [];
      ghost var begun := View();
      for i := 0 to |script|
        invariant PossibleRun(begun, inner) && View() == RunEvents(begun, inner)
        invariant Safe(View()) && inCallback
      {
        ghost var view := View();
        ghost var happened := Perform(script[i]);
        if happened {
          StepIsSafe(view, script[i]);
          StaysInside(view, script[i]);
          RunGrows(begun, inner, script[i]);
          inner := inner + [script[i]];
        }
      }
    }

    /** `HandleRead`: the callback runs synchronously, and then the next read starts. */
    method HandleRead(ok: bool, script: seq<Event>) returns (ghost inner: seq<Event>)
      requires Safe(DuplexMachine.HandleRead(View(), ok)) && !inCallback
      modifies this
      ensures var told := DuplexMachine.HandleRead(old(View()), ok);
              if hasCallback then
                PossibleRun(told, inner + [CallbackReturns]) && View() == RunEvents(told, inner + [CallbackReturns])
              else View() == told && inner == []
      ensures !inCallback
    {
      hide SafeBut, DuplexMachine.DoAsync;
      inner := [];
      if hasCallback {
        delivered := delivered + [if ok then Msg else Null];
        inCallback := true;
        ghost var told := View();
        inner := RunCallback(script);
        RunGrows(told, inner, CallbackReturns);
        ResumeFacts(View());
        inCallback := false;
        ReadNext();
      } else {
        readBufValid := ok;
      }
    }

    /** A completion is processed; the callback of a read makes a run of its own. */
    method ProcessEvent(op: Op, ok: bool, script: seq<Event>) returns (ghost inner: seq<Event>)
      requires Safe(View()) && op in outstanding && !inCallback
      modifies this
      ensures var after := DuplexMachine.ProcessEvent(old(View()), op, ok);
              if hasCallback && op == READ then
                PossibleRun(after, inner + [CallbackReturns]) && View() == RunEvents(after, inner + [CallbackReturns])
              else View() == after && inner == []
      ensures !inCallback
    {
      hide SafeBut, RunEvents, PossibleRun, DuplexMachine.DoAsync;
      CompletionIsSafe(View(), op, ok);
      StaysOutside(View(), op, ok);
      inner := [];
      Complete(op, ok);
      if op == READ {
        inner := HandleRead(ok, script);
      }
    }

    /** The destructor: shut down, then process what the queue still gives, with the
        callback calling back as it likes.  Every completion shrinks the queue, since
        nothing new is issued. */
    method Drain()
      requires Safe(View()) && !inCallback
      modifies this
      ensures SHUTDOWN in View().pending && Drains(old(View()), View())
    {
      hide DuplexMachine.ProcessEvent, SafeBut, DuplexMachine.Shutdown, RunEvents, PossibleRun, Drains;
      ShutdownFacts(View());
      ghost var start := View();
      var answer := Shutdown();
      ghost var begun := View();
      while true
        invariant Drains(begun, View()) && Safe(View()) && Closing(View()) && SHUTDOWN in View().pending && !inCallback
        decreases |outstanding|
      {
        var timeout: bool := *;
        if timeout {
          break;
        }
        ghost var view := View();
        if outstanding == multiset{} {
          ClosingStepDrains(view, QueueShutdown);
          NoteShutdown();
          DrainsOn(begun, view, View());
          break;
        }
        var op :| op in outstanding;
        var ok: bool := *;
        var script: seq<Event> := *;
        ghost var inner := ProcessEvent(op, ok, script);
        DrainStep(view, op, ok, inner, View());
        DrainsOn(begun, view, View());
      }
      DrainsOn(start, begun, View());
    }
  }

  lemma NoFlags()
    ensures DoneOps({}) == {} && PendingOps({}) == {}
  {
  }

  lemma InsideCallback(c: Client)
    requires Safe(c) && c.inCallback
    ensures c.callback && READ !in c.outstanding
  {
    NoReadInside(c);
  }

  lemma StaysInside(c: Client, e: Event)
    requires Safe(c) && c.inCallback && Possible(c, e) && e != CallbackReturns
    ensures Step(c, e).inCallback
  {
    NoReadInside(c);
  }

  lemma StaysOutside(c: Client, op: Op, ok: bool)
    requires !c.inCallback
    ensures !Marked(Finishing(c.(outstanding := c.outstanding - multiset{op}), ok), op, ok).inCallback
  {
  }

  lemma RunGrows(c: Client, events: seq<Event>, e: Event)
    ensures RunEvents(c, events + [e]) == Step(RunEvents(c, events), e)
    ensures PossibleRun(c, events + [e]) <==> PossibleRun(c, events) && Possible(RunEvents(c, events), e)
  {
    hide Step, Possible;
    assert (events + [e])[..|events|] == events;
  }

  lemma ResumeFacts(c: Client)
    requires c.inCallback
    ensures Possible(c, CallbackReturns) && !Resume(c).inCallback
  {
  }

  lemma ShutdownFacts(c: Client)
    requires Safe(c)
    ensures var c' := Shutdown(c);
            Safe(c') && Closing(c') && SHUTDOWN in c'.pending && c'.inCallback == c.inCallback
            && Drains(c, c') && Drains(c', c')
  {
  }

  lemma DrainsOn(a: Client, b: Client, c: Client)
    requires Drains(a, b) && Drains(b, c)
    ensures Drains(a, c)
  {
    hide SafeBut;
  }

  /** Processing one completion, with what the callback does in it, drains further. */
  lemma DrainStep(c: Client, op: Op, ok: bool, inner: seq<Event>, end: Client)
    requires Safe(c) && Closing(c) && SHUTDOWN in c.pending && op in c.outstanding
    requires var after := ProcessEvent(c, op, ok);
             if c.callback && op == READ then
               PossibleRun(after, inner + [CallbackReturns]) && end == RunEvents(after, inner + [CallbackReturns])
             else end == after
    ensures Drains(c, end) && Safe(end) && Closing(end) && SHUTDOWN in end.pending
            && |end.outstanding| < |c.outstanding|
  {
    hide SafeBut, ProcessEvent;
    var after := ProcessEvent(c, op, ok);
    ClosingStepDrains(c, Completion(op, ok));
    ClosingIssuesNothing(c, Completion(op, ok));
    assert after.outstanding == c.outstanding - multiset{op};
    if c.callback && op == READ {
      ClosingRunIssuesNothing(after, inner + [CallbackReturns]);
      ClosingRunIsBounded(after, inner + [CallbackReturns]);
      DrainsOn(c, after, end);
    }
  }
}
