/**
The event recorder: any number of Eventf calls, the goroutines they start, and one Shutdown,
interleaved one atomic action at a time. The mutex, the stopped flag, the wait group, the done
channel and the cancelled context are the shared state.
*/
module EventRecorder {

  type Id = nat

  /** Where one Eventf call, and then its goroutine, has got to. */
  datatype Phase =
    | Entering     // before the lock
    | Checking     // holds the lock, about to read the flag
    | Refused      // holds the lock, saw the flag
    | Adding       // holds the lock, about to add to the wait group
    | Tracked      // holds the lock, added
    | Spawning     // released the lock, about to start the goroutine
    | Running      // goroutine, about to record
    | Recorded     // goroutine, about to leave the wait group
    | Finished
    | Dropped      // returned without recording
  {
    predicate HoldsLock() {
      Checking? || Refused? || Adding? || Tracked?
    }

    /** In the wait group. */
    predicate InFlight() {
      Tracked? || Spawning? || Running? || Recorded?
    }

    predicate Accepted() {
      InFlight() || Finished?
    }
  }

  datatype Stop =
    | NotCalled
    | WantsLock
    | HasLock
    | FlagSet      // still holds the lock
    | Released     // about to start the waiter
    | Selecting
    | Drained      // woke up on done
    | TimedOut     // woke up on the context
    | Down
  {
    predicate HoldsLock() {
      HasLock? || FlagSet?
    }

    predicate PastFlag() {
      !NotCalled? && !WantsLock? && !HasLock?
    }
  }

  datatype Waiter = NotStarted | Blocked | Closed

  datatype Owner = Free | Producer(id: Id) | Stopper

  /** What an observer of the recorder sees, in order. */
  datatype Entry =
    | Accept(id: Id)
    | Record(id: Id)
    | Finish(id: Id)
    | SetStopped
    | ShutBroadcaster(flushed: bool)

  datatype State = State(
    events: map<Id, Phase>,
    mutex: Owner,
    stopped: bool,
    wg: int,
    stop: Stop,
    waiter: Waiter,
    cancelled: bool,
    started: bool,
    log: seq<Entry>)

  const INITIAL := State(map[], Free, false, 0, NotCalled, NotStarted, false, false, [])

  datatype Action =
    | Start
    | Call(id: Id) | Lock(id: Id) | Check(id: Id) | Leave(id: Id) | Add(id: Id) | Unlock(id: Id)
    | Spawn(id: Id) | Write(id: Id) | Done(id: Id)
    | CallShutdown | LockShutdown | SetFlag | UnlockShutdown | SpawnWaiter
    | WaitReturns | Cancel | SelectDone | SelectTimeout | CloseBroadcaster

  predicate At(s: State, id: Id, phase: Phase) {
    id in s.events && s.events[id] == phase
  }

  predicate Enabled(s: State, a: Action) {
    match a
    case Start => true
    case Call(id) => id !in s.events
    case Lock(id) => At(s, id, Entering) && s.mutex == Free
    case Check(id) => At(s, id, Checking)
    case Leave(id) => At(s, id, Refused)
    case Add(id) => At(s, id, Adding)
    case Unlock(id) => At(s, id, Tracked)
    case Spawn(id) => At(s, id, Spawning)
    case Write(id) => At(s, id, Running)
    case Done(id) => At(s, id, Recorded)
    case CallShutdown => s.stop == NotCalled
    case LockShutdown => s.stop == WantsLock && s.mutex == Free
    case SetFlag => s.stop == HasLock
    case UnlockShutdown => s.stop == FlagSet
    case SpawnWaiter => s.stop == Released
    case WaitReturns => s.waiter == Blocked && s.wg == 0
    case Cancel => true
    case SelectDone => s.stop == Selecting && s.waiter == Closed
    case SelectTimeout => s.stop == Selecting && s.cancelled
    case CloseBroadcaster => s.stop == Drained || s.stop == TimedOut
  }

  function Move(s: State, id: Id, phase: Phase): State {
    s.(events := s.events[id := phase])
  }

  /** The state after an enabled action. A recorder or broadcaster that was never started is nil and skipped. */
  function Next(s: State, a: Action): State
    requires Enabled(s, a)
  {
    match a
    case Start => s.(started := true)
    case Call(id) => Move(s, id, Entering)
    case Lock(id) => Move(s, id, Checking).(mutex := Producer(id))
    case Check(id) => Move(s, id, if s.stopped then Refused else Adding)
    case Leave(id) => Move(s, id, Dropped).(mutex := Free)
    case Add(id) => Move(s, id, Tracked).(wg := s.wg + 1, log := s.log + [Accept(id)])
    case Unlock(id) => Move(s, id, Spawning).(mutex := Free)
    case Spawn(id) => Move(s, id, Running)
    case Write(id) => Move(s, id, Recorded).(log := if s.started then s.log + [Record(id)] else s.log)
    case Done(id) => Move(s, id, Finished).(wg := s.wg - 1, log := s.log + [Finish(id)])
    case CallShutdown => s.(stop := WantsLock)
    case LockShutdown => s.(stop := HasLock, mutex := Stopper)
    case SetFlag => s.(stop := FlagSet, stopped := true, log := s.log + [SetStopped])
    case UnlockShutdown => s.(stop := Released, mutex := Free)
    case SpawnWaiter => s.(stop := Selecting, waiter := Blocked)
    case WaitReturns => s.(waiter := Closed)
    case Cancel => s.(cancelled := true)
    case SelectDone => s.(stop := Drained)
    case SelectTimeout => s.(stop := TimedOut)
    case CloseBroadcaster =>
      s.(stop := Down, log := if s.started then s.log + [ShutBroadcaster(s.stop == Drained)] else s.log)
  }

  /** The state a run ends in; None when some action was not enabled. */
  function Run(actions: seq<Action>, from: State := INITIAL): (r: Progress) {
    if actions == [] then Reached(from)
    else
      match Run(actions[..|actions| - 1], from)
      case Stuck => Stuck
      case Reached(s) =>
        var a := actions[|actions| - 1];
        if Enabled(s, a) then Reached(Next(s, a)) else Stuck
  }

  datatype Progress = Stuck | Reached(state: State)

  ghost predicate Reachable(s: State) {
    exists actions :: Run(actions) == Reached(s)
  }

  // ---------------------------------------------------------------- the invariant

  function InFlight(s: State): set<Id> {
    set id | id in s.events && s.events[id].InFlight()
  }

  ghost predicate Holder(events: map<Id, Phase>, mutex: Owner, stop: Stop) {
    && (forall id :: id in events && events[id].HoldsLock() <==> mutex == Producer(id))
    && (stop.HoldsLock() <==> mutex == Stopper)
  }

  /** The mutex has the one holder it names. */
  ghost predicate LockInv(s: State) {
    Holder(s.events, s.mutex, s.stop)
  }

  /** The wait group counts the accepted events that have not finished. */
  ghost predicate CountInv(s: State) {
    s.wg == |InFlight(s)|
  }

  /** No event is being admitted. */
  ghost predicate Quiet(events: map<Id, Phase>) {
    forall id :: id in events ==> !events[id].Adding? && !events[id].Tracked?
  }

  /** Once the flag is set nothing is admitted, so a drained wait group stays drained. */
  ghost predicate StopInv(s: State) {
    && (s.stopped <==> s.stop.PastFlag())
    && (s.stopped ==> Quiet(s.events))
    && (s.waiter != NotStarted ==> s.stop.PastFlag() && !s.stop.FlagSet? && !s.stop.Released?)
    && (s.waiter == Closed ==> InFlight(s) == {})
    && (s.stop == Drained ==> s.waiter == Closed)
    && (s.stop == Selecting ==> s.waiter != NotStarted)
  }

  /** The log agrees with the phases. */
  ghost predicate Agrees(events: map<Id, Phase>, log: seq<Entry>) {
    && (forall id :: Accept(id) in log <==> id in events && events[id].Accepted())
    && (forall id :: Finish(id) in log <==> id in events && events[id].Finished?)
    && (forall id :: Record(id) in log ==> id in events && (events[id].Recorded? || events[id].Finished?))
  }

  ghost predicate LogInv(s: State) {
    Agrees(s.events, s.log)
  }

  ghost predicate LogStopInv(s: State) {
    && (SetStopped in s.log <==> s.stopped)
    && (forall f :: ShutBroadcaster(f) in s.log ==> s.stop == Down)
    && (ShutBroadcaster(true) in s.log ==> s.waiter == Closed)
  }

  /** The order of the log. */
  ghost predicate OrderInv(log: seq<Entry>) {
    && (forall i, j :: 0 <= i < j < |log| && log[i] == SetStopped ==> !log[j].Accept?)
    && (forall i :: 0 <= i < |log| && log[i] == ShutBroadcaster(true) ==> i == |log| - 1)
    && (forall i, j :: 0 <= i < j < |log| && log[i].ShutBroadcaster? ==> log[j].Record? || log[j].Finish?)
    && (forall i, f :: 0 <= i < |log| && log[i] == ShutBroadcaster(f) ==> SetStopped in log[..i])
    && (forall j, id :: 0 <= j < |log| && log[j] == Record(id) ==> Accept(id) in log[..j])
    && (forall i, j, id :: 0 <= i < j < |log| && log[i] == Record(id) ==> log[j] != Record(id))
  }

  ghost predicate Inv(s: State) {
    LockInv(s) && CountInv(s) && StopInv(s) && LogInv(s) && LogStopInv(s) && OrderInv(s.log)
  }

  predicate HoldsAt(events: map<Id, Phase>, id: Id) {
    id in events && events[id].HoldsLock()
  }

  lemma KeepsHolder(events: map<Id, Phase>, mutex: Owner, stop: Stop, id: Id, phase: Phase)
    requires Holder(events, mutex, stop) && HoldsAt(events, id) == phase.HoldsLock()
    ensures Holder(events[id := phase], mutex, stop)
  {
  }

  lemma TakesLock(events: map<Id, Phase>, stop: Stop, id: Id, phase: Phase)
    requires Holder(events, Free, stop) && phase.HoldsLock()
    ensures Holder(events[id := phase], Producer(id), stop)
  {
  }

  lemma FreesLock(events: map<Id, Phase>, mutex: Owner, stop: Stop, id: Id, phase: Phase)
    requires Holder(events, mutex, stop) && HoldsAt(events, id) && !phase.HoldsLock()
    ensures Holder(events[id := phase], Free, stop)
  {
  }

  /** Steps of Shutdown, the waiter and the environment leave the events alone. */
  lemma StopperStep(s: State, a: Action)
    requires LockInv(s) && Enabled(s, a) && Next(s, a).events == s.events
    ensures LockInv(Next(s, a))
  {
  }

  lemma LockStep(s: State, a: Action)
    requires LockInv(s) && Enabled(s, a)
    ensures LockInv(Next(s, a))
  {
    hide Holder;
    match a {
      case Call(id) => KeepsHolder(s.events, s.mutex, s.stop, id, Entering);
      case Lock(id) => TakesLock(s.events, s.stop, id, Checking);
      case Check(id) => KeepsHolder(s.events, s.mutex, s.stop, id, if s.stopped then Refused else Adding);
      case Leave(id) => FreesLock(s.events, s.mutex, s.stop, id, Dropped);
      case Add(id) => KeepsHolder(s.events, s.mutex, s.stop, id, Tracked);
      case Unlock(id) => FreesLock(s.events, s.mutex, s.stop, id, Spawning);
      case Spawn(id) => KeepsHolder(s.events, s.mutex, s.stop, id, Running);
      case Write(id) => KeepsHolder(s.events, s.mutex, s.stop, id, Recorded);
      case Done(id) => KeepsHolder(s.events, s.mutex, s.stop, id, Finished);
      case _ => StopperStep(s, a);
    }
  }

  lemma CountStep(s: State, a: Action)
    requires CountInv(s) && Enabled(s, a)
    ensures CountInv(Next(s, a))
  {
    hide InFlight;
    var t := Next(s, a);
    InFlightStep(s, a);
    match a {
      case Add(id) => assert |InFlight(s) + {id}| == |InFlight(s)| + 1;
      case Done(id) => assert |InFlight(t) + {id}| == |InFlight(t)| + 1;
      case _ =>
    }
  }

  /** Only Add and Done change what is in flight. */
  lemma InFlightStep(s: State, a: Action)
    requires Enabled(s, a)
    ensures a.Add? ==> a.id !in InFlight(s) && InFlight(Next(s, a)) == InFlight(s) + {a.id}
    ensures a.Done? ==> a.id !in InFlight(Next(s, a)) && InFlight(s) == InFlight(Next(s, a)) + {a.id}
    ensures !a.Add? && !a.Done? ==> InFlight(Next(s, a)) == InFlight(s)
  {
    match a {
      case Call(id) => SamePlace(s, id, Entering);
      case Lock(id) => SamePlace(s, id, Checking);
      case Check(id) => SamePlace(s, id, if s.stopped then Refused else Adding);
      case Leave(id) => SamePlace(s, id, Dropped);
      case Unlock(id) => SamePlace(s, id, Spawning);
      case Spawn(id) => SamePlace(s, id, Running);
      case Write(id) => SamePlace(s, id, Recorded);
      case Add(id) => Enters(s, id);
      case Done(id) => Leaves(s, id);
      case _ =>
    }
  }

  lemma SamePlace(s: State, id: Id, phase: Phase)
    requires if id in s.events then s.events[id].InFlight() == phase.InFlight() else !phase.InFlight()
    ensures InFlight(Move(s, id, phase)) == InFlight(s)
  {
  }

  lemma Enters(s: State, id: Id)
    requires At(s, id, Adding)
    ensures id !in InFlight(s) && InFlight(Move(s, id, Tracked)) == InFlight(s) + {id}
  {
  }

  lemma Leaves(s: State, id: Id)
    requires At(s, id, Recorded)
    ensures id !in InFlight(Move(s, id, Finished)) && InFlight(s) == InFlight(Move(s, id, Finished)) + {id}
  {
  }

  lemma StaysQuiet(events: map<Id, Phase>, id: Id, phase: Phase)
    requires !phase.Adding? && !phase.Tracked?
    ensures Quiet(events) ==> Quiet(events[id := phase])
  {
  }

  lemma NotQuiet(events: map<Id, Phase>, id: Id)
    requires id in events && events[id].Adding?
    ensures !Quiet(events)
  {
  }

  /** While Shutdown holds the lock no event does. */
  lemma QuietUnderStopper(s: State)
    requires LockInv(s) && s.stop == HasLock
    ensures Quiet(s.events)
  {
    forall id | id in s.events ensures !s.events[id].HoldsLock() {
    }
  }

  lemma StopStep(s: State, a: Action)
    requires LockInv(s) && CountInv(s) && StopInv(s) && Enabled(s, a)
    ensures StopInv(Next(s, a))
  {
    hide InFlight, Quiet, Holder;
    InFlightStep(s, a);
    match a {
      case Call(id) => StaysQuiet(s.events, id, Entering);
      case Lock(id) => StaysQuiet(s.events, id, Checking);
      case Check(id) => StaysQuiet(s.events, id, Refused);
      case Leave(id) => StaysQuiet(s.events, id, Dropped);
      case Add(id) => NotQuiet(s.events, id);
      case Unlock(id) => StaysQuiet(s.events, id, Spawning);
      case Spawn(id) => StaysQuiet(s.events, id, Running);
      case Write(id) => StaysQuiet(s.events, id, Recorded);
      case Done(id) =>
        StaysQuiet(s.events, id, Finished);
        assert id in InFlight(s);
      case SetFlag => QuietUnderStopper(s);
      case WaitReturns => assert InFlight(s) == {};
      case _ =>
    }
  }

  lemma MovesQuietly(events: map<Id, Phase>, log: seq<Entry>, id: Id, phase: Phase)
    requires Agrees(events, log) && !phase.Finished?
    requires id in events ==>
      !events[id].Finished? && !events[id].Recorded? && (events[id].Accepted() <==> phase.Accepted())
    requires id !in events ==> !phase.Accepted()
    ensures Agrees(events[id := phase], log)
  {
  }

  lemma MovesWithEntry(events: map<Id, Phase>, log: seq<Entry>, id: Id, phase: Phase, e: Entry)
    requires Agrees(events, log) && id in events
    requires match events[id]
      case Adding => phase == Tracked && e == Accept(id)
      case Running => phase == Recorded && e == Record(id)
      case Recorded => phase == Finished && e == Finish(id)
      case _ => false
    ensures Agrees(events[id := phase], log + [e])
  {
  }

  lemma EntryWithoutId(events: map<Id, Phase>, log: seq<Entry>, e: Entry)
    requires Agrees(events, log) && (e.SetStopped? || e.ShutBroadcaster?)
    ensures Agrees(events, log + [e])
  {
  }

  lemma LogStep(s: State, a: Action)
    requires LogInv(s) && Enabled(s, a)
    ensures LogInv(Next(s, a))
  {
    hide Agrees;
    match a {
      case Call(id) => MovesQuietly(s.events, s.log, id, Entering);
      case Lock(id) => MovesQuietly(s.events, s.log, id, Checking);
      case Check(id) => MovesQuietly(s.events, s.log, id, if s.stopped then Refused else Adding);
      case Leave(id) => MovesQuietly(s.events, s.log, id, Dropped);
      case Add(id) => MovesWithEntry(s.events, s.log, id, Tracked, Accept(id));
      case Unlock(id) => MovesQuietly(s.events, s.log, id, Spawning);
      case Spawn(id) => MovesQuietly(s.events, s.log, id, Running);
      case Write(id) =>
        if s.started {
          MovesWithEntry(s.events, s.log, id, Recorded, Record(id));
        } else {
          MovesQuietly(s.events, s.log, id, Recorded);
        }
      case Done(id) => MovesWithEntry(s.events, s.log, id, Finished, Finish(id));
      case SetFlag => EntryWithoutId(s.events, s.log, SetStopped);
      case CloseBroadcaster => EntryWithoutId(s.events, s.log, ShutBroadcaster(s.stop == Drained));
      case _ =>
    }
  }

  lemma LogStopStep(s: State, a: Action)
    requires StopInv(s) && LogStopInv(s) && Enabled(s, a)
    ensures LogStopInv(Next(s, a))
  {
    hide InFlight;
    match a {
      case Add(id) => OtherEntry(s.log, Accept(id));
      case Write(id) => OtherEntry(s.log, Record(id));
      case Done(id) => OtherEntry(s.log, Finish(id));
      case SetFlag => EntryOf(s.log, SetStopped);
      case CloseBroadcaster => EntryOf(s.log, ShutBroadcaster(s.stop == Drained));
      case _ =>
    }
  }

  lemma EntryOf(log: seq<Entry>, e: Entry)
    ensures forall x :: x in log + [e] <==> x in log || x == e
  {
  }

  lemma OtherEntry(log: seq<Entry>, e: Entry)
    requires !e.SetStopped? && !e.ShutBroadcaster?
    ensures SetStopped in log + [e] <==> SetStopped in log
    ensures forall f :: ShutBroadcaster(f) in log + [e] <==> ShutBroadcaster(f) in log
  {
  }

  /** What the phases must guarantee of the next entry for the log to stay in order. */
  ghost predicate MayFollow(log: seq<Entry>, e: Entry) {
    && ShutBroadcaster(true) !in log
    && (e.Accept? ==> SetStopped !in log && ShutBroadcaster(false) !in log)
    && (e.Record? ==> Accept(e.id) in log && e !in log)
    && (e.SetStopped? ==> ShutBroadcaster(false) !in log)
    && (e.ShutBroadcaster? ==> SetStopped in log && ShutBroadcaster(false) !in log)
  }

  lemma OrderAppend(log: seq<Entry>, e: Entry)
    requires OrderInv(log) && MayFollow(log, e)
    ensures OrderInv(log + [e])
  {
    var longer := log + [e];
    forall i | 0 <= i < |longer| ensures longer[..i] == if i < |log| then log[..i] else log {
    }
  }

  lemma OrderStep(s: State, a: Action)
    requires StopInv(s) && LogInv(s) && LogStopInv(s) && OrderInv(s.log) && Enabled(s, a)
    ensures OrderInv(Next(s, a).log)
  {
    hide OrderInv;
    match a {
      case Add(id) => OrderAppend(s.log, Accept(id));
      case Write(id) =>
        if s.started {
          assert id in InFlight(s);
          OrderAppend(s.log, Record(id));
        }
      case Done(id) =>
        assert id in InFlight(s);
        OrderAppend(s.log, Finish(id));
      case SetFlag => OrderAppend(s.log, SetStopped);
      case CloseBroadcaster =>
        if s.started {
          OrderAppend(s.log, ShutBroadcaster(s.stop == Drained));
        }
      case _ =>
    }
  }

  lemma InvStep(s: State, a: Action)
    requires Inv(s) && Enabled(s, a)
    ensures Inv(Next(s, a))
  {
    LockStep(s, a);
    CountStep(s, a);
    StopStep(s, a);
    LogStep(s, a);
    LogStopStep(s, a);
    OrderStep(s, a);
  }

  lemma {:induction false} RunsKeepInvariant(actions: seq<Action>)
    ensures Run(actions).Reached? ==> Inv(Run(actions).state)
  {
    if actions != [] {
      var before, a := actions[..|actions| - 1], actions[|actions| - 1];
      RunsKeepInvariant(before);
      if Run(before).Reached? && Enabled(Run(before).state, a) {
        var s := Run(before).state;
        InvStep(s, a);
      }
    }
  }

  lemma ReachableInv(s: State)
    requires Reachable(s)
    ensures Inv(s)
  {
    var actions :| Run(actions) == Reached(s);
    RunsKeepInvariant(actions);
  }

  // ---------------------------------------------------------------- what every run guarantees

  /** Accepted events that have not finished, as the log tells. */
  ghost function Pending(log: seq<Entry>): set<Id> {
    set e | e in log && e.Accept? && Finish(e.id) !in log :: e.id
  }

  /** The wait group counts accepted events that have not finished, and never goes negative. */
  lemma WaitGroupCountsPending(s: State)
    requires Reachable(s)
    ensures s.wg == |Pending(s.log)|
  {
    ReachableInv(s);
    forall id ensures id in Pending(s.log) <==> id in InFlight(s) {
      assert Accept(id) in s.log && Finish(id) !in s.log <==> id in InFlight(s);
    }
    assert Pending(s.log) == InFlight(s);
  }

  /** Once the flag is set no event is accepted. */
  lemma NothingAcceptedOnceStopped(s: State, i: nat, j: nat)
    requires Reachable(s) && i < j < |s.log| && s.log[i] == SetStopped
    ensures !s.log[j].Accept?
  {
    ReachableInv(s);
  }

  /** At most one call is between Lock and Unlock. */
  lemma MutualExclusion(s: State, id: Id, id': Id)
    requires Reachable(s) && id in s.events && s.events[id].HoldsLock()
    ensures !s.stop.HoldsLock()
    ensures id' in s.events && s.events[id'].HoldsLock() ==> id' == id
  {
    ReachableInv(s);
  }

  /** No Add can happen once the waiter exists: the wait group is never reused while waited on. */
  lemma NoAddWhileWaiting(s: State, id: Id)
    requires Reachable(s) && s.waiter != NotStarted
    ensures !Enabled(s, Add(id))
  {
    ReachableInv(s);
  }

  /**
  After a flush every accepted event had finished before the broadcaster shut down, and that is the
  last thing that happens.
  */
  lemma FlushedShutdownComesLast(s: State, i: nat)
    requires Reachable(s) && i < |s.log| && s.log[i] == ShutBroadcaster(true)
    ensures i == |s.log| - 1
    ensures forall id :: Accept(id) in s.log ==> Finish(id) in s.log[..i]
  {
    hide LockInv, CountInv, StopInv, LogInv, LogStopInv, Reachable;
    ReachableInv(s);
    assert s.log == s.log[..i] + [s.log[i]];
    forall id | Accept(id) in s.log ensures Finish(id) in s.log[..i] {
      AcceptedAndDrained(s, id);
    }
  }

  lemma AcceptedAndDrained(s: State, id: Id)
    requires StopInv(s) && LogInv(s) && LogStopInv(s) && ShutBroadcaster(true) in s.log && Accept(id) in s.log
    ensures Finish(id) in s.log
  {
    assert id !in InFlight(s);
  }

  /** After a timeout only events accepted before the flag was set can still be recorded. */
  lemma TimedOutShutdownRecordsOnlyEarlierEvents(s: State, i: nat, j: nat, id: Id) returns (accepted: nat, flag: nat)
    requires Reachable(s) && i < j < |s.log| && s.log[i].ShutBroadcaster? && s.log[j] == Record(id)
    ensures s.log[i] == ShutBroadcaster(false)
    ensures accepted < flag < i && s.log[accepted] == Accept(id) && s.log[flag] == SetStopped
  {
    hide LockInv, CountInv, StopInv, LogInv, LogStopInv, OrderInv, Reachable;
    ReachableInv(s);
    accepted, flag := TimedOutOrder(s.log, i, j, id);
  }

  lemma TimedOutOrder(log: seq<Entry>, i: nat, j: nat, id: Id) returns (accepted: nat, flag: nat)
    requires OrderInv(log) && i < j < |log| && log[i].ShutBroadcaster? && log[j] == Record(id)
    ensures log[i] == ShutBroadcaster(false)
    ensures accepted < flag < i && log[accepted] == Accept(id) && log[flag] == SetStopped
  {
    assert SetStopped in log[..i] && Accept(id) in log[..j];
    flag :| 0 <= flag < i && log[flag] == SetStopped;
    accepted :| 0 <= accepted < j && log[accepted] == Accept(id);
  }

  /** An event is recorded at most once, and only between being accepted and finishing. */
  lemma RecordedOnce(s: State, i: nat, j: nat, id: Id)
    requires Reachable(s) && i < |s.log| && j < |s.log| && s.log[i] == s.log[j] == Record(id)
    ensures i == j && Accept(id) in s.log[..i]
  {
    ReachableInv(s);
  }

  // ---------------------------------------------------------------- what becomes of every call

  lemma {:induction false} RunConcat(a: seq<Action>, b: seq<Action>, s: State)
    requires Run(a, s).Reached?
    ensures Run(a + b, s) == Run(b, Run(a, s).state)
  {
    if b == [] {
      assert a + b == a;
    } else {
      assert (a + b)[..|a + b| - 1] == a + b[..|b| - 1];
      RunConcat(a, b[..|b| - 1], s);
    }
  }

  lemma RunOne(a: Action, s: State)
    requires Enabled(s, a)
    ensures Run([a], s) == Reached(Next(s, a))
  {
    assert Run([], s) == Reached(s);
  }

  lemma {:induction false} PrefixRuns(actions: seq<Action>, k: nat)
    requires Run(actions).Reached? && k <= |actions|
    ensures Run(actions[..k]).Reached?
    decreases |actions|
  {
    if k < |actions| {
      assert actions[..|actions| - 1][..k] == actions[..k];
      PrefixRuns(actions[..|actions| - 1], k);
    } else {
      assert actions[..k] == actions;
    }
  }

  /** The k-th action of a run, and the states before and after it. */
  lemma StepOf(actions: seq<Action>, k: nat)
    requires Run(actions).Reached? && k < |actions|
    ensures Run(actions[..k]).Reached? && Run(actions[..k + 1]).Reached?
    ensures Enabled(Run(actions[..k]).state, actions[k])
    ensures Run(actions[..k + 1]).state == Next(Run(actions[..k]).state, actions[k])
    ensures Reachable(Run(actions[..k]).state) && Reachable(Run(actions[..k + 1]).state)
  {
    PrefixRuns(actions, k);
    PrefixRuns(actions, k + 1);
    assert actions[..k + 1][..k] == actions[..k];
  }

  /** The recorder is started, stopped or cancelled once somebody has done so, and not before. */
  lemma {:induction false} FlagsTell(actions: seq<Action>)
    requires Run(actions).Reached?
    ensures var s := Run(actions).state;
      && (s.started <==> Start in actions)
      && (s.stopped <==> SetFlag in actions)
      && (s.cancelled <==> Cancel in actions)
  {
    hide Enabled, Next;
    if actions != [] {
      var before, a := actions[..|actions| - 1], actions[|actions| - 1];
      assert actions == before + [a];
      FlagsTell(before);
      FlagsStep(Run(before).state, a);
    }
  }

  lemma FlagsStep(s: State, a: Action)
    requires Enabled(s, a)
    ensures Next(s, a).started == (s.started || a == Start)
    ensures Next(s, a).stopped == (s.stopped || a == SetFlag)
    ensures Next(s, a).cancelled == (s.cancelled || a == Cancel)
  {
  }

  predicate Admitted(p: Phase) {
    p.Adding? || p.Accepted()
  }

  predicate TurnedAway(p: Phase) {
    p.Refused? || p.Dropped?
  }

  lemma FateStays(s: State, a: Action, id: Id)
    requires Enabled(s, a) && id in s.events
    ensures id in Next(s, a).events
    ensures Admitted(s.events[id]) ==> Admitted(Next(s, a).events[id])
    ensures TurnedAway(s.events[id]) ==> TurnedAway(Next(s, a).events[id])
  {
    match a {
      case Call(id') => MovedFate(s.events, id', Entering, id);
      case Lock(id') => MovedFate(s.events, id', Checking, id);
      case Check(id') => MovedFate(s.events, id', if s.stopped then Refused else Adding, id);
      case Leave(id') => MovedFate(s.events, id', Dropped, id);
      case Add(id') => MovedFate(s.events, id', Tracked, id);
      case Unlock(id') => MovedFate(s.events, id', Spawning, id);
      case Spawn(id') => MovedFate(s.events, id', Running, id);
      case Write(id') => MovedFate(s.events, id', Recorded, id);
      case Done(id') => MovedFate(s.events, id', Finished, id);
      case _ =>
    }
  }

  lemma MovedFate(events: map<Id, Phase>, moved: Id, phase: Phase, id: Id)
    requires id in events
    requires moved in events ==>
      (Admitted(events[moved]) ==> Admitted(phase))
      && (TurnedAway(events[moved]) ==> TurnedAway(phase))
    ensures Admitted(events[id]) ==> Admitted(events[moved := phase][id])
    ensures TurnedAway(events[id]) ==> TurnedAway(events[moved := phase][id])
  {
  }

  lemma {:induction false} FateSettled(actions: seq<Action>, k: nat, id: Id)
    requires Run(actions).Reached? && k <= |actions| && Run(actions[..k]).Reached?
    requires id in Run(actions[..k]).state.events
    ensures var p := Run(actions[..k]).state.events[id];
      && id in Run(actions).state.events
      && (Admitted(p) ==> Admitted(Run(actions).state.events[id]))
      && (TurnedAway(p) ==> TurnedAway(Run(actions).state.events[id]))
    decreases |actions|
  {
    hide Enabled, Next, Admitted, TurnedAway;
    if k < |actions| {
      var before := actions[..|actions| - 1];
      assert before[..k] == actions[..k];
      FateSettled(before, k, id);
      FateStays(Run(before).state, actions[|actions| - 1], id);
    } else {
      assert actions[..k] == actions;
    }
  }

  /**
  The check decides: a call that reads the flag before it is set is accepted, at the latest when it
  leaves the critical section, and one that reads it later never is.
  */
  lemma CheckDecides(actions: seq<Action>, k: nat, id: Id)
    requires Run(actions).Reached? && k < |actions| && actions[k] == Check(id)
    ensures id in Run(actions).state.events
    ensures var s := Run(actions).state;
      if SetFlag in actions[..k] then TurnedAway(s.events[id]) && Accept(id) !in s.log
      else Admitted(s.events[id]) && (s.events[id].HoldsLock() || Accept(id) in s.log)
  {
    hide Run, Inv, CountInv, StopInv, LogStopInv, OrderInv;
    StepOf(actions, k);
    FlagsTell(actions[..k]);
    FateSettled(actions, k + 1, id);
    RunsKeepInvariant(actions);
    LogAgrees(Run(actions).state);
  }

  lemma LogAgrees(s: State)
    requires Inv(s)
    ensures Agrees(s.events, s.log)
  {
    hide LockInv, CountInv, StopInv, LogStopInv, OrderInv, Agrees;
  }

  lemma LogStepGrows(s: State, a: Action)
    requires Enabled(s, a)
    ensures s.log <= Next(s, a).log
  {
  }

  lemma {:induction false} LogGrows(actions: seq<Action>, k: nat)
    requires Run(actions).Reached? && k <= |actions| && Run(actions[..k]).Reached?
    ensures Run(actions[..k]).state.log <= Run(actions).state.log
    decreases |actions|
  {
    hide Enabled, Next;
    if k < |actions| {
      var before := actions[..|actions| - 1];
      assert before[..k] == actions[..k];
      LogGrows(before, k);
      LogStepGrows(Run(before).state, actions[|actions| - 1]);
    } else {
      assert actions[..k] == actions;
    }
  }

  /** A goroutine that has got past recording has made the call to the recorder. */
  lemma {:induction false} PastWriting(actions: seq<Action>, id: Id) returns (k: nat)
    requires Run(actions).Reached? && Written(Run(actions).state, id)
    ensures k < |actions| && actions[k] == Write(id)
  {
    hide Enabled, Next, Written;
    NothingWritten(id);
    var before, a := actions[..|actions| - 1], actions[|actions| - 1];
    if a == Write(id) {
      k := |actions| - 1;
    } else {
      OnlyWriteWrites(Run(before).state, a, id);
      k := PastWriting(before, id);
    }
  }

  predicate Written(s: State, id: Id) {
    id in s.events && (s.events[id].Recorded? || s.events[id].Finished?)
  }

  lemma NothingWritten(id: Id)
    ensures !Written(INITIAL, id)
  {
  }

  lemma OnlyWriteWrites(s: State, a: Action, id: Id)
    requires Enabled(s, a) && a != Write(id) && Written(Next(s, a), id)
    ensures Written(s, id)
  {
  }

  /** What one call to the recorder adds to the log. */
  lemma WriteAdds(actions: seq<Action>, k: nat, id: Id)
    requires Run(actions).Reached? && k < |actions| && actions[k] == Write(id)
    ensures Run(actions[..k]).Reached? && Run(actions[..k + 1]).Reached?
    ensures var before, after := Run(actions[..k]).state.log, Run(actions[..k + 1]).state.log;
      && after == (if Start in actions[..k] then before + [Record(id)] else before)
      && after <= Run(actions).state.log
      && Accept(id) in before && Finish(id) !in after
  {
    hide Run, Inv, LockInv, CountInv, StopInv, LogStopInv, OrderInv;
    StepOf(actions, k);
    FlagsTell(actions[..k]);
    LogGrows(actions, k + 1);
    RunsKeepInvariant(actions[..k]);
    RunsKeepInvariant(actions[..k + 1]);
    LogAgrees(Run(actions[..k]).state);
    LogAgrees(Run(actions[..k + 1]).state);
  }

  /** No event is lost: one that has finished was recorded in between, if the recorder was started in time. */
  lemma FinishedEventsAreRecorded(actions: seq<Action>, id: Id) returns (accepted: nat, recorded: nat, finished: nat)
    requires Run(actions).Reached? && Finish(id) in Run(actions).state.log
    requires forall k :: 0 <= k < |actions| && actions[k] == Write(id) ==> Start in actions[..k]
    ensures var log := Run(actions).state.log;
      && accepted < recorded < finished < |log|
      && log[accepted] == Accept(id) && log[recorded] == Record(id) && log[finished] == Finish(id)
  {
    hide Run, Inv;
    var log := Run(actions).state.log;
    RunsKeepInvariant(actions);
    LogAgrees(Run(actions).state);
    var k := PastWriting(actions, id);
    WriteAdds(actions, k, id);
    var before := Run(actions[..k]).state.log;
    recorded := |before|;
    accepted :| 0 <= accepted < |before| && before[accepted] == Accept(id);
    finished :| 0 <= finished < |log| && log[finished] == Finish(id);
    var after := before + [Record(id)];
    assert forall i :: 0 <= i < |after| ==> log[i] == after[i] && after[i] != Finish(id);
  }

  /** The goroutine of the event got to the recorder after the start. */
  ghost predicate WrittenInTime(actions: seq<Action>, id: Id) {
    exists k :: 0 <= k < |actions| && actions[k] == Write(id) && Start in actions[..k]
  }

  lemma WrittenStep(before: seq<Action>, a: Action, id: Id)
    ensures WrittenInTime(before + [a], id) <==> WrittenInTime(before, id) || (a == Write(id) && Start in before)
  {
    var actions := before + [a];
    assert actions[..|before|] == before && actions[|before|] == a;
    forall k | 0 <= k < |before| ensures actions[k] == before[k] && actions[..k] == before[..k] {
    }
  }

  lemma RecordStep(s: State, a: Action, id: Id)
    requires Enabled(s, a)
    ensures Record(id) in Next(s, a).log <==> Record(id) in s.log || (a == Write(id) && s.started)
  {
  }

  /** An event is in the recorder's hands exactly when its goroutine got to it after the start. */
  lemma {:induction false} RecordedIff(actions: seq<Action>, id: Id)
    requires Run(actions).Reached?
    ensures Record(id) in Run(actions).state.log <==> WrittenInTime(actions, id)
  {
    hide Enabled, Next, WrittenInTime;
    if actions == [] {
      NothingWrittenInTime(id);
    } else {
      var before, a := actions[..|actions| - 1], actions[|actions| - 1];
      assert actions == before + [a];
      FlagsTell(before);
      RecordedIff(before, id);
      RecordStep(Run(before).state, a, id);
      WrittenStep(before, a, id);
    }
  }

  lemma NothingWrittenInTime(id: Id)
    ensures !WrittenInTime([], id) && Record(id) !in INITIAL.log
  {
  }

  /** A flushed shutdown of a recorder started in time comes after every accepted event was recorded. */
  lemma FlushedShutdownRecordedAll(actions: seq<Action>, i: nat, id: Id)
    requires Run(actions).Reached? && Accept(id) in Run(actions).state.log
    requires i < |Run(actions).state.log| && Run(actions).state.log[i] == ShutBroadcaster(true)
    requires forall k :: 0 <= k < |actions| && actions[k] == Write(id) ==> Start in actions[..k]
    ensures Record(id) in Run(actions).state.log[..i]
  {
    hide Run;
    var s := Run(actions).state;
    assert Reachable(s);
    FlushedShutdownComesLast(s, i);
    var a, r, f := FinishedEventsAreRecorded(actions, id);
    assert s.log[..i][r] == Record(id);
  }

  lemma RunOnto(a: seq<Action>, s: State, next: Action, all: seq<Action>)
    requires Run(a, s).Reached? && Enabled(Run(a, s).state, next) && all == a + [next]
    ensures Run(all, s) == Reached(Next(Run(a, s).state, next))
  {
    assert all[..|a|] == a;
  }

  function Admission(id: Id): seq<Action> {
    [Call(id), Lock(id), Check(id)]
  }

  function Delivery(id: Id): seq<Action> {
    [Add(id), Unlock(id), Spawn(id), Write(id), Done(id)]
  }

  /** A whole call, undisturbed, and what it leaves in the log. */
  lemma EventRunsThrough(s: State, id: Id)
    requires s.mutex == Free && id !in s.events
    ensures s.stopped ==>
      Run(Admission(id) + [Leave(id)], s) == Reached(s.(events := s.events[id := Dropped]))
    ensures !s.stopped ==>
      Run(Admission(id) + Delivery(id), s) == Reached(s.(events := s.events[id := Finished],
        log := s.log + if s.started then [Accept(id), Record(id), Finish(id)] else [Accept(id), Finish(id)]))
  {
    hide Run, Delivery, Admission;
    var entered := EntersAndChecks(s, id);
    if s.stopped {
      RunOnto(Admission(id), s, Leave(id), Admission(id) + [Leave(id)]);
      assert s.events[id := Refused][id := Dropped] == s.events[id := Dropped];
    } else {
      Delivers(entered, id);
      RunConcat(Admission(id), Delivery(id), s);
      assert s.events[id := Adding][id := Finished] == s.events[id := Finished];
    }
  }

  lemma EntersAndChecks(s: State, id: Id) returns (t: State)
    requires s.mutex == Free && id !in s.events
    ensures Run(Admission(id), s) == Reached(t)
    ensures t == s.(events := s.events[id := if s.stopped then Refused else Adding], mutex := Producer(id))
  {
    hide Run;
    RunOne(Call(id), s);
    RunOnto([Call(id)], s, Lock(id), [Call(id), Lock(id)]);
    RunOnto([Call(id), Lock(id)], s, Check(id), Admission(id));
    t := Run(Admission(id), s).state;
    assert t.events == s.events[id := if s.stopped then Refused else Adding];
  }

  lemma Delivers(s: State, id: Id)
    requires At(s, id, Adding)
    ensures Run(Delivery(id), s) == Reached(s.(events := s.events[id := Finished], mutex := Free,
      log := s.log + if s.started then [Accept(id), Record(id), Finish(id)] else [Accept(id), Finish(id)]))
  {
    hide Run, Enabled, Next;
    var spawning := Accepts(s, id);
    Writes(spawning, id);
    RunConcat([Add(id), Unlock(id)], [Spawn(id), Write(id), Done(id)], s);
    assert [Add(id), Unlock(id)] + [Spawn(id), Write(id), Done(id)] == Delivery(id);
    assert s.events[id := Spawning][id := Finished] == s.events[id := Finished];
  }

  lemma Accepts(s: State, id: Id) returns (t: State)
    requires At(s, id, Adding)
    ensures t == s.(events := s.events[id := Spawning], mutex := Free, wg := s.wg + 1, log := s.log + [Accept(id)])
    ensures Run([Add(id), Unlock(id)], s) == Reached(t)
  {
    hide Run;
    RunOne(Add(id), s);
    RunOnto([Add(id)], s, Unlock(id), [Add(id), Unlock(id)]);
    t := Run([Add(id), Unlock(id)], s).state;
    assert t.events == s.events[id := Spawning];
  }

  lemma Writes(s: State, id: Id)
    requires At(s, id, Spawning)
    ensures Run([Spawn(id), Write(id), Done(id)], s) == Reached(s.(events := s.events[id := Finished],
      wg := s.wg - 1, log := s.log + if s.started then [Record(id), Finish(id)] else [Finish(id)]))
  {
    hide Run;
    RunOne(Spawn(id), s);
    RunOnto([Spawn(id)], s, Write(id), [Spawn(id), Write(id)]);
    RunOnto([Spawn(id), Write(id)], s, Done(id), [Spawn(id), Write(id), Done(id)]);
    var t := Run([Spawn(id), Write(id), Done(id)], s).state;
    assert t.events == s.events[id := Finished];
  }

  /** A Shutdown that waits can time out at any moment: the broadcaster then goes down unflushed. */
  lemma ShutdownCanTimeOut(s: State)
    requires s.stop == Selecting
    ensures Run([Cancel, SelectTimeout, CloseBroadcaster], s)
      == Reached(s.(cancelled := true, stop := Down,
           log := if s.started then s.log + [ShutBroadcaster(false)] else s.log))
  {
    hide Run;
    RunOne(Cancel, s);
    RunOnto([Cancel], s, SelectTimeout, [Cancel, SelectTimeout]);
    RunOnto([Cancel, SelectTimeout], s, CloseBroadcaster, [Cancel, SelectTimeout, CloseBroadcaster]);
  }

  // ---------------------------------------------------------------- shutdown can always flush

  /** Steps an in-flight event takes on its own, without the lock. */
  predicate Flushing(a: Action) {
    a.Spawn? || a.Write? || a.Done? || a.WaitReturns? || a.SelectDone? || a.CloseBroadcaster?
  }

  function NextOf(s: State, id: Id): Action
    requires id in InFlight(s)
  {
    match s.events[id]
    case Spawning => Spawn(id)
    case Running => Write(id)
    case Recorded => Done(id)
    case _ => Unlock(id)
  }

  function StepsLeft(p: Phase): nat {
    match p
    case Spawning => 3
    case Running => 2
    case Recorded => 1
    case _ => 0
  }

  lemma FlushStep(s: State, id: Id)
    requires StopInv(s) && s.stop == Selecting && id in InFlight(s)
    ensures var a := NextOf(s, id);
      && Enabled(s, a) && Flushing(a) && Next(s, a).stop == Selecting && Next(s, a).started == s.started
      && if a.Done? then InFlight(Next(s, a)) == InFlight(s) - {id}
         else InFlight(Next(s, a)) == InFlight(s) && StepsLeft(Next(s, a).events[id]) < StepsLeft(s.events[id])
  {
  }

  /** The steps that take one event out of the wait group. */
  lemma FlushOne(s: State, id: Id) returns (actions: seq<Action>)
    requires Inv(s) && s.stop == Selecting && id in InFlight(s)
    ensures forall a :: a in actions ==> Flushing(a)
    ensures Run(actions, s).Reached?
    ensures var t := Run(actions, s).state;
      Inv(t) && t.stop == Selecting && InFlight(t) == InFlight(s) - {id} && t.started == s.started
    decreases StepsLeft(s.events[id])
  {
    hide LockInv, CountInv, StopInv, LogInv, LogStopInv, OrderInv, Enabled, Next, NextOf, Flushing, Run;
    var a := NextOf(s, id);
    FlushStep(s, id);
    InvStep(s, a);
    RunOne(a, s);
    var t := Next(s, a);
    if a.Done? {
      actions := [a];
    } else {
      var rest := FlushOne(t, id);
      actions := [a] + rest;
      RunConcat([a], rest, s);
    }
  }

  lemma FlushAll(s: State) returns (actions: seq<Action>)
    requires Inv(s) && s.stop == Selecting
    ensures forall a :: a in actions ==> Flushing(a)
    ensures Run(actions, s).Reached?
    ensures var t := Run(actions, s).state; Inv(t) && t.stop == Selecting && InFlight(t) == {} && t.started == s.started
    decreases |InFlight(s)|
  {
    if id :| id in InFlight(s) {
      var first := FlushOne(s, id);
      var rest := FlushAll(Run(first, s).state);
      actions := first + rest;
      RunConcat(first, rest, s);
    } else {
      actions := [];
    }
  }

  lemma WakeUp(s: State) returns (actions: seq<Action>)
    requires Inv(s) && s.stop == Selecting && InFlight(s) == {}
    ensures forall a :: a in actions ==> Flushing(a)
    ensures Run(actions, s).Reached?
    ensures var t := Run(actions, s).state;
      Inv(t) && t.stop == Selecting && t.waiter == Closed && InFlight(t) == {} && t.started == s.started
  {
    hide LockInv, LogInv, LogStopInv, OrderInv, Inv, Run;
    assert StopInv(s) && CountInv(s) by {
      InvParts(s);
    }
    if s.waiter == Closed {
      actions := [];
      RunNone(s);
    } else {
      actions := [WaitReturns];
      RunOne(WaitReturns, s);
      InvStep(s, WaitReturns);
    }
  }

  lemma RunNone(s: State)
    ensures Run([], s) == Reached(s)
  {
  }

  lemma InvParts(s: State)
    requires Inv(s)
    ensures StopInv(s) && CountInv(s)
  {
    hide StopInv, CountInv, LockInv, LogInv, LogStopInv, OrderInv;
  }

  /** With the waiter closed, the select can take the flush and the broadcaster goes down. */
  lemma ShutDown(s: State)
    requires Inv(s) && s.stop == Selecting && s.waiter == Closed && InFlight(s) == {}
    ensures Run([SelectDone, CloseBroadcaster], s).Reached?
    ensures var t := Run([SelectDone, CloseBroadcaster], s).state;
      && Inv(t) && t.stop == Down && InFlight(t) == {} && t.started == s.started
      && (s.started ==> ShutBroadcaster(true) in t.log)
  {
    hide Inv, Run;
    var drained := Next(s, SelectDone);
    var down := Next(drained, CloseBroadcaster);
    InvStep(s, SelectDone);
    InvStep(drained, CloseBroadcaster);
    RunOne(SelectDone, s);
    RunOne(CloseBroadcaster, drained);
    RunConcat([SelectDone], [CloseBroadcaster], s);
    assert [SelectDone] + [CloseBroadcaster] == [SelectDone, CloseBroadcaster];
    assert s.started ==> down.log[|drained.log|] == ShutBroadcaster(true);
  }

  /** With nothing in flight, the waiter wakes the select and the broadcaster is shut down as flushed. */
  lemma CloseOut(s: State) returns (actions: seq<Action>)
    requires Inv(s) && s.stop == Selecting && InFlight(s) == {}
    ensures forall a :: a in actions ==> Flushing(a)
    ensures Run(actions, s).Reached?
    ensures var t := Run(actions, s).state; Inv(t) && t.stop == Down && InFlight(t) == {} && t.started == s.started
    ensures s.started ==> ShutBroadcaster(true) in Run(actions, s).state.log
  {
    hide Inv, Run, InFlight;
    var wake := WakeUp(s);
    ShutDown(Run(wake, s).state);
    RunConcat(wake, [SelectDone, CloseBroadcaster], s);
    actions := wake + [SelectDone, CloseBroadcaster];
  }

  /** While Shutdown waits, the in-flight events and the waiter can finish by themselves, and it then flushes. */
  lemma FlushFromSelecting(s: State) returns (actions: seq<Action>)
    requires Inv(s) && s.stop == Selecting
    ensures forall a :: a in actions ==> Flushing(a)
    ensures Run(actions, s).Reached?
    ensures var t := Run(actions, s).state; t.stop == Down && InFlight(t) == {}
    ensures s.started ==> ShutBroadcaster(true) in Run(actions, s).state.log
  {
    hide Run, Inv, Flushing;
    var flush := FlushAll(s);
    var close := CloseOut(Run(flush, s).state);
    RunConcat(flush, close, s);
    actions := flush + close;
  }

  // ---------------------------------------------------------------- shutdown can always finish

  /** Steps of Shutdown, of the events in the wait group and of the call that holds the lock. */
  predicate Settling(a: Action) {
    Flushing(a) || a.Check? || a.Leave? || a.Add? || a.Unlock?
    || a.LockShutdown? || a.SetFlag? || a.UnlockShutdown? || a.SpawnWaiter?
  }

  /** What the holder of the lock does next, or Shutdown itself. */
  function NextToSelect(s: State): Action {
    match s.stop
    case HasLock => SetFlag
    case FlagSet => UnlockShutdown
    case Released => SpawnWaiter
    case _ =>
      if !s.mutex.Producer? || s.mutex.id !in s.events then LockShutdown
      else
        match s.events[s.mutex.id]
        case Checking => Check(s.mutex.id)
        case Refused => Leave(s.mutex.id)
        case Adding => Add(s.mutex.id)
        case _ => Unlock(s.mutex.id)
  }

  /** An upper bound for the number of such steps. */
  function StepsToSelect(s: State): nat {
    match s.stop
    case HasLock => 3
    case FlagSet => 2
    case Released => 1
    case _ =>
      if !s.mutex.Producer? || s.mutex.id !in s.events then 4
      else
        match s.events[s.mutex.id]
        case Checking => 7
        case Adding => 6
        case _ => 5
  }

  /** Shutdown has been called and does not wait yet. */
  predicate Admitting(stop: Stop) {
    stop.WantsLock? || stop.HasLock? || stop.FlagSet? || stop.Released?
  }

  lemma SelectStep(s: State)
    requires LockInv(s) && Admitting(s.stop)
    ensures var a := NextToSelect(s);
      && Settling(a) && Enabled(s, a) && Next(s, a).started == s.started
      && (Next(s, a).stop == Selecting || (Admitting(Next(s, a).stop) && StepsToSelect(Next(s, a)) < StepsToSelect(s)))
  {
  }

  /** The holder of the lock can run to its unlock, and Shutdown gets as far as its select. */
  lemma ToSelecting(s: State) returns (actions: seq<Action>)
    requires Inv(s) && (s.stop == Selecting || Admitting(s.stop))
    ensures forall a :: a in actions ==> Settling(a)
    ensures Run(actions, s).Reached?
    ensures var t := Run(actions, s).state; Inv(t) && t.stop == Selecting && t.started == s.started
    decreases if s.stop == Selecting then 0 else 1 + StepsToSelect(s)
  {
    hide LockInv, CountInv, StopInv, LogInv, LogStopInv, OrderInv, Enabled, Next, NextToSelect, StepsToSelect;
    hide Settling, Admitting, Run;
    if s.stop == Selecting {
      actions := [];
      RunNone(s);
    } else {
      var a := NextToSelect(s);
      SelectStep(s);
      InvStep(s, a);
      RunOne(a, s);
      var rest := ToSelecting(Next(s, a));
      actions := [a] + rest;
      RunConcat([a], rest, s);
    }
  }

  /** Awake, all that is left is to shut the broadcaster down. */
  lemma CloseAwake(s: State)
    requires Inv(s) && (s.stop == Drained || s.stop == TimedOut)
    ensures Run([CloseBroadcaster], s).Reached?
    ensures var t := Run([CloseBroadcaster], s).state;
      && t.stop == Down
      && (s.stop == Drained ==> InFlight(t) == {} && (s.started ==> ShutBroadcaster(true) in t.log))
  {
    hide Inv, Run;
    InvParts(s);
    RunOne(CloseBroadcaster, s);
    var t := Next(s, CloseBroadcaster);
    assert s.started ==> t.log[|s.log|] == ShutBroadcaster(s.stop == Drained);
  }

  /**
  Shutdown never deadlocks: from any reachable state in which it has been called, the holder of the
  lock, the accepted events, the waiter and Shutdown itself can take it to its end, and unless it has
  timed out already nothing is then in flight and the broadcaster went down as flushed.
  */
  lemma ShutdownCanAlwaysFlush(s: State) returns (actions: seq<Action>)
    requires Reachable(s) && s.stop != NotCalled && s.stop != Down
    ensures forall a :: a in actions ==> Settling(a)
    ensures Run(actions, s).Reached? && Run(actions, s).state.stop == Down
    ensures s.stop != TimedOut ==>
      var t := Run(actions, s).state; InFlight(t) == {} && (s.started ==> ShutBroadcaster(true) in t.log)
  {
    hide Run, Inv, Flushing, InFlight;
    ReachableInv(s);
    if s.stop == Drained || s.stop == TimedOut {
      actions := [CloseBroadcaster];
      CloseAwake(s);
      assert Settling(CloseBroadcaster) by {
        ClosingFlushes();
      }
    } else {
      var select := ToSelecting(s);
      var flush := FlushFromSelecting(Run(select, s).state);
      RunConcat(select, flush, s);
      actions := select + flush;
    }
  }

  lemma ClosingFlushes()
    ensures Flushing(CloseBroadcaster)
  {
  }
}
