/** The hand-off of the signal stream's writer between the thread that establishes
    the stream and the thread that pushes signals (SignalServiceClient.cpp), as a
    state machine over the single steps of both threads. */
module SignalStream {
  import opened Wrappers

  /** Where the establishing thread stands. */
  datatype Establisher =
    | Waiting          // until the stream is not active
    | Connecting       // for the channel to be ready
    | MakingContext
    | MakingWriter
    | Starting         // until the stream is started
    | GivingUp         // it did not start: drop the writer
    | SettingFirst     // first_write_ = true
    | Publishing       // stream_active_ = true
    | Ended

  /** Where the pushing thread stands. */
  datatype Pusher =
    | Idle
    | CheckingFirst    // it saw an active stream
    | Writing
    | Finishing        // the write failed
    | DroppingWriter
    | Deactivating     // stream_active_ = false

  /** What `PushSignals` did on a stream. */
  datatype Entry = Refreshed(epoch: nat) | Wrote(epoch: nat, ok: bool)

  /** Contexts are numbered as they are made; a writer is known by its context. */
  datatype State = State(
    active: bool,
    context: Option<nat>,
    writer: Option<nat>,
    firstWrite: bool,
    epoch: nat,
    made: nat,
    establisher: Establisher,
    pusher: Pusher,
    log: seq<Entry>)

  const INITIAL := State(false, None, None, false, 0, 0, Waiting, Idle, [])

  /** The steps; `ok` is what the outside world answers. */
  datatype Action =
    | Wake | ChannelReady(ok: bool) | MakeContext | MakeWriter | Started(ok: bool) | GiveUp | SetFirst | Publish
    | Push | CheckFirst | Write(ok: bool) | FinishNow | DropWriter | Deactivate

  predicate Enabled(s: State, a: Action) {
    match a
    case Wake => s.establisher == Waiting && !s.active
    case ChannelReady(_) => s.establisher == Connecting
    case MakeContext => s.establisher == MakingContext
    case MakeWriter => s.establisher == MakingWriter
    case Started(_) => s.establisher == Starting
    case GiveUp => s.establisher == GivingUp
    case SetFirst => s.establisher == SettingFirst
    case Publish => s.establisher == Publishing
    case Push => s.pusher == Idle
    case CheckFirst => s.pusher == CheckingFirst
    case Write(_) => s.pusher == Writing
    case FinishNow => s.pusher == Finishing
    case DropWriter => s.pusher == DroppingWriter
    case Deactivate => s.pusher == Deactivating
  }

  function Next(s: State, a: Action): State {
    match a
    case Wake => s.(establisher := Connecting)
    case ChannelReady(ok) => s.(establisher := if ok then MakingContext else Ended)
    case MakeContext => s.(context := Some(s.made), made := s.made + 1, establisher := MakingWriter)
    case MakeWriter => s.(writer := s.context, establisher := Starting)
    case Started(ok) => s.(establisher := if ok then SettingFirst else GivingUp)
    case GiveUp => s.(writer := None, establisher := Waiting)
    case SetFirst => s.(firstWrite := true, epoch := s.epoch + 1, establisher := Publishing)
    case Publish => s.(active := true, establisher := Waiting)
    case Push => if s.active then s.(pusher := CheckingFirst) else s
    case CheckFirst =>
      if s.firstWrite then s.(firstWrite := false, log := s.log + [Refreshed(s.epoch)], pusher := Idle)
      else s.(pusher := Writing)
    case Write(ok) => s.(log := s.log + [Wrote(s.epoch, ok)], pusher := if ok then Idle else Finishing)
    case FinishNow => s.(pusher := DroppingWriter)
    case DropWriter => s.(writer := None, pusher := Deactivating)
    case Deactivate => s.(active := false, pusher := Idle)
  }

  function Run(actions: seq<Action>): State {
    if actions == [] then INITIAL else Next(Run(actions[..|actions| - 1]), actions[|actions| - 1])
  }

  ghost predicate Possible(actions: seq<Action>) {
    actions != [] ==>
      Possible(actions[..|actions| - 1]) && Enabled(Run(actions[..|actions| - 1]), actions[|actions| - 1])
  }

  // ----- invariants

  /** The establisher is between waking up and publishing. */
  predicate Establishing(s: State) {
    !s.establisher.Waiting? && !s.establisher.Ended?
  }

  /** The pusher is between seeing an active stream and being done with it. */
  predicate Pushing(s: State) {
    !s.pusher.Idle?
  }

  /** The writer exists and its context is the current one. */
  predicate Live(s: State) {
    s.writer.Some? && s.writer == s.context
  }

  /** One thread at a time works on the writer. */
  ghost predicate Owned(s: State) {
    && (Establishing(s) ==> !s.active)
    && (Pushing(s) ==> s.active)
    && (s.active ==> (Live(s) <==> !s.pusher.Deactivating?))
    && (s.pusher.Deactivating? ==> s.writer == None)
    && (!s.active ==> (s.writer.Some? <==> s.establisher in {Starting, GivingUp, SettingFirst, Publishing}))
    && (s.establisher in {Starting, GivingUp, SettingFirst, Publishing} ==> Live(s))
    && (s.establisher == MakingWriter ==> s.context.Some?)
  }

  /** Every entry of a stream comes after the refresh of that stream, which is its
      first entry and its only refresh. */
  ghost predicate RefreshFirst(log: seq<Entry>) {
    forall i :: 0 <= i < |log| ==>
      (log[i].Refreshed? <==> forall j :: 0 <= j < i ==> log[j].epoch != log[i].epoch)
  }

  ghost predicate Logged(s: State) {
    && RefreshFirst(s.log)
    && (forall i :: 0 <= i < |s.log| ==> s.log[i].epoch <= s.epoch)
    && (s.establisher.Publishing? ==> s.firstWrite)
    && (s.active || s.establisher.Publishing? ==>
          (s.firstWrite <==> forall i :: 0 <= i < |s.log| ==> s.log[i].epoch != s.epoch))
    && (s.pusher.Writing? ==> !s.firstWrite)
  }

  lemma StepIsOwned(s: State, a: Action)
    requires Owned(s) && Enabled(s, a)
    ensures Owned(Next(s, a))
  {
  }

  lemma AppendRefresh(log: seq<Entry>, e: Entry)
    requires RefreshFirst(log)
    requires e.Refreshed? <==> forall j :: 0 <= j < |log| ==> log[j].epoch != e.epoch
    ensures RefreshFirst(log + [e])
  {
    var log' := log + [e];
    forall i | 0 <= i < |log'|
      ensures log'[i].Refreshed? <==> forall j :: 0 <= j < i ==> log'[j].epoch != log'[i].epoch
    {
      assert forall j :: 0 <= j < |log| ==> log'[j] == log[j];
      if i < |log| {
        assert log[i].Refreshed? <==> forall j :: 0 <= j < i ==> log[j].epoch != log[i].epoch;
      }
    }
  }

  lemma StepIsLogged(s: State, a: Action)
    requires Owned(s) && Logged(s) && Enabled(s, a)
    ensures Logged(Next(s, a))
  {
    if a.CheckFirst? && s.firstWrite {
      AppendRefresh(s.log, Refreshed(s.epoch));
      assert Next(s, a).log[|s.log|] == Refreshed(s.epoch);
    } else if a.Write? {
      AppendRefresh(s.log, Wrote(s.epoch, a.ok));
      assert Next(s, a).log[|s.log|] == Wrote(s.epoch, a.ok);
    }
  }

  /** In every interleaving the invariants hold. */
  lemma {:induction false} RunsKeepInvariants(actions: seq<Action>)
    requires Possible(actions)
    ensures Owned(Run(actions)) && Logged(Run(actions))
  {
    hide Owned, Logged, Next;
    if actions == [] {
      InitialState();
    } else {
      var n := |actions| - 1;
      RunsKeepInvariants(actions[..n]);
      StepIsOwned(Run(actions[..n]), actions[n]);
      StepIsLogged(Run(actions[..n]), actions[n]);
    }
  }

  lemma InitialState()
    ensures Owned(INITIAL) && Logged(INITIAL)
  {
  }

  // ----- what follows

  /** In every interleaving: the threads never own the writer at once; the pusher
      writes and finishes only on a live writer with its own context; an active
      stream has such a writer exactly until the pusher has dropped it. */
  lemma WriterHandOff(actions: seq<Action>)
    requires Possible(actions)
    ensures var s := Run(actions);
            && !(Establishing(s) && Pushing(s))
            && (s.pusher in {CheckingFirst, Writing, Finishing, DroppingWriter} ==> Live(s))
            && (s.active ==> (Live(s) <==> s.pusher != Deactivating))
  {
    RunsKeepInvariants(actions);
  }

  /** The context is replaced only while no writer exists. */
  lemma ContextReplacedWithoutWriter(actions: seq<Action>, a: Action)
    requires Possible(actions) && Enabled(Run(actions), a) && Next(Run(actions), a).context != Run(actions).context
    ensures Run(actions).writer == None
  {
    RunsKeepInvariants(actions);
  }

  /** The first push on each stream is the refresh: nothing is written on a stream
      before it. */
  lemma RefreshBeforeWrite(actions: seq<Action>, i: nat)
    requires Possible(actions) && i < |Run(actions).log| && Run(actions).log[i].Wrote?
    ensures exists j :: 0 <= j < i && Run(actions).log[j] == Refreshed(Run(actions).log[i].epoch)
  {
    RunsKeepInvariants(actions);
    FirstEntryOfStream(Run(actions).log, i);
  }

  lemma {:induction false} FirstEntryOfStream(log: seq<Entry>, i: nat)
    requires RefreshFirst(log) && i < |log|
    ensures exists j :: 0 <= j <= i && log[j] == Refreshed(log[i].epoch)
  {
    if !log[i].Refreshed? {
      var j :| 0 <= j < i && log[j].epoch == log[i].epoch;
      FirstEntryOfStream(log, j);
    }
  }

  /** How the last start of a stream went. */
  function LastStart(actions: seq<Action>): Option<bool> {
    if actions == [] then None
    else match actions[|actions| - 1]
      case Started(ok) => Some(ok)
      case _ => LastStart(actions[..|actions| - 1])
  }

  lemma {:induction false} EstablisherKnowsStart(actions: seq<Action>)
    requires Possible(actions)
    ensures Run(actions).establisher in {SettingFirst, Publishing} ==> LastStart(actions) == Some(true)
    ensures Run(actions).establisher == GivingUp ==> LastStart(actions) == Some(false)
  {
    if actions != [] {
      EstablisherKnowsStart(actions[..|actions| - 1]);
    }
  }

  /** A stream becomes active only by being published, and it is published only if its start
      succeeded; a start that failed is given up. */
  lemma ActiveOnlyIfStarted(actions: seq<Action>, a: Action)
    requires Possible(actions) && Enabled(Run(actions), a)
    ensures !Run(actions).active && Next(Run(actions), a).active ==> a == Publish && LastStart(actions) == Some(true)
    ensures a == GiveUp ==> LastStart(actions) == Some(false) && Next(Run(actions), a).writer == None
  {
    EstablisherKnowsStart(actions);
  }

  /** How the last wait for the channel went. */
  function LastChannel(actions: seq<Action>): Option<bool> {
    if actions == [] then None
    else match actions[|actions| - 1]
      case ChannelReady(ok) => Some(ok)
      case _ => LastChannel(actions[..|actions| - 1])
  }

  /** Nothing is made without a channel, and once the wait for one has failed the
      establisher has ended. */
  lemma {:induction false} NoStreamWithoutChannel(actions: seq<Action>)
    requires Possible(actions)
    ensures Run(actions).establisher in {MakingContext, MakingWriter, Starting, GivingUp, SettingFirst, Publishing} ==>
              LastChannel(actions) == Some(true)
    ensures LastChannel(actions) == Some(false) <==> Run(actions).establisher == Ended
  {
    if actions != [] {
      NoStreamWithoutChannel(actions[..|actions| - 1]);
    }
  }

  /** A failed write is the last entry of its stream. */
  ghost predicate FailedIsLast(log: seq<Entry>) {
    forall i, j :: 0 <= i < j < |log| && log[i] == Wrote(log[i].epoch, false) ==> log[j].epoch != log[i].epoch
  }

  predicate HasFailed(log: seq<Entry>, epoch: nat) {
    exists i :: 0 <= i < |log| && log[i] == Wrote(epoch, false)
  }

  /** If the current stream had a failed write, the pusher is ending it or has, and no other
      was announced. */
  ghost predicate FailureEnds(s: State) {
    && FailedIsLast(s.log)
    && (HasFailed(s.log, s.epoch) ==>
          s.pusher in {Finishing, DroppingWriter, Deactivating} || (!s.active && s.establisher != Publishing))
    && (s.pusher in {Finishing, DroppingWriter, Deactivating} ==> HasFailed(s.log, s.epoch))
  }

  lemma AppendToStream(log: seq<Entry>, e: Entry)
    requires FailedIsLast(log) && !HasFailed(log, e.epoch)
    ensures FailedIsLast(log + [e]) && (HasFailed(log + [e], e.epoch) <==> e == Wrote(e.epoch, false))
  {
    var log' := log + [e];
    assert forall i :: 0 <= i < |log| ==> log'[i] == log[i];
    assert log'[|log|] == e;
  }

  lemma StepFailureEnds(s: State, a: Action)
    requires Owned(s) && Logged(s) && FailureEnds(s) && Enabled(s, a)
    ensures FailureEnds(Next(s, a))
  {
    hide FailedIsLast, HasFailed, RefreshFirst;
    match a
    case CheckFirst =>
      if s.firstWrite {
        AppendToStream(s.log, Refreshed(s.epoch));
      }
    case Write(ok) => AppendToStream(s.log, Wrote(s.epoch, ok));
    case SetFirst => NewStream(s.log, s.epoch);
    case _ =>
  }

  lemma NewStream(log: seq<Entry>, epoch: nat)
    requires forall i :: 0 <= i < |log| ==> log[i].epoch <= epoch
    ensures !HasFailed(log, epoch + 1)
  {
  }

  /** After a failed write nothing is pushed on that stream any more, and once the pusher is
      idle again the stream is not active. */
  lemma {:induction false} FailedWriteEndsStream(actions: seq<Action>)
    requires Possible(actions)
    ensures FailureEnds(Run(actions))
  {
    hide FailureEnds, Next;
    if actions == [] {
      NoFailure();
    } else {
      var n := |actions| - 1;
      FailedWriteEndsStream(actions[..n]);
      RunsKeepInvariants(actions[..n]);
      StepFailureEnds(Run(actions[..n]), actions[n]);
    }
  }

  lemma NoFailure()
    ensures FailureEnds(INITIAL)
  {
  }

  /** What one push does: nothing on a stream that is not active; on a new stream it only asks
      for a refresh; else it writes. */
  lemma PushMeans(s: State, ok: bool)
    requires s.pusher == Idle
    ensures !s.active ==> Next(s, Push) == s
    ensures s.active && s.firstWrite ==>
              Next(Next(s, Push), CheckFirst) == s.(firstWrite := false, log := s.log + [Refreshed(s.epoch)])
    ensures s.active && !s.firstWrite ==>
              var written := Next(Next(Next(s, Push), CheckFirst), Write(ok));
              written.log == s.log + [Wrote(s.epoch, ok)]
              && (ok ==> written == s.(log := s.log + [Wrote(s.epoch, true)]))
  {
  }

  lemma Do(actions: seq<Action>, a: Action) returns (longer: seq<Action>)
    requires Possible(actions) && Enabled(Run(actions), a)
    ensures longer == actions + [a] && Possible(longer) && Run(longer) == Next(Run(actions), a)
  {
    longer := actions + [a];
    assert longer[..|actions|] == actions;
  }

  /** A stream that was refreshed, with the pusher about to write again. */
  lemma ReachWriting() returns (actions: seq<Action>)
    ensures Possible(actions) && var s := Run(actions); s.active && s.pusher == Writing
  {
    hide Run, Possible;
    actions := [];
    assert Possible(actions) && Run(actions) == INITIAL by { EmptyRun(); }
    actions := Do(actions, Wake);
    actions := Do(actions, ChannelReady(true));
    actions := Do(actions, MakeContext);
    actions := Do(actions, MakeWriter);
    actions := Do(actions, Started(true));
    actions := Do(actions, SetFirst);
    actions := Do(actions, Publish);
    actions := Do(actions, Push);
    actions := Do(actions, CheckFirst);
    actions := Do(actions, Push);
    actions := Do(actions, CheckFirst);
  }

  lemma EmptyRun()
    ensures Possible([]) && Run([]) == INITIAL
  {
  }

  /** The flag alone does not promise a writer: after a failed write the pusher drops
      the writer first and clears the flag afterwards. */
  lemma ActiveWithoutWriter()
    ensures exists actions :: Possible(actions) && Run(actions).active && Run(actions).writer == None
  {
    hide Run, Possible;
    var actions := ReachWriting();
    actions := Do(actions, Write(false));
    actions := Do(actions, FinishNow);
    actions := Do(actions, DropWriter);
  }
}
