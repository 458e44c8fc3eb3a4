/** The callback pipeline of adms.go as a transition system: any number of
    dispatchCallback calls, the callback worker, the eviction worker and any number of
    Close calls, interleaved one atomic action at a time.

    A dispatch is named by its index, and so is its callback. The read-write mutex, the
    bounded channel, the close signal and the once-guard are part of the state. A send to
    a closed channel and a second close are not excluded by the steps: they set
    `panicked`, as the Go runtime would panic. */
module Shutdown {

  /** Where a dispatchCallback call stands. */
  datatype Dispatcher =
    | Called                // before taking the read lock
    | Locked                // about to look at closeCh
    | Sending               // saw closeCh open, about to try the non-blocking send
    | Waiting               // in the select of the slow path
    | Leaving(ok: bool)     // about to release the read lock
    | Returned(ok: bool)

  /** Where a Close call stands. */
  datatype Closer =
    | Entering              // at closeOnce.Do
    | Signalling            // about to close closeCh
    | AwaitEviction         // waits for evictionDone
    | Locking               // about to ask for the write lock
    | AwaitReaders          // asked: new readers are held back
    | ClosingChannel        // holds the write lock
    | Unlocking
    | AwaitWorker           // waits for callbackDone
    | Cancelling            // about to cancel the base context
    | Closed                // returned

  datatype Worker = Receiving | Running(callback: nat) | Exited

  datatype Eviction = Selecting | Sweeping | Stopped

  datatype Once = Fresh | Taken(owner: nat) | Finished

  datatype Writer = NoWriter | Pending | Holding

  datatype State = State(
    dispatchers: seq<Dispatcher>, closers: seq<Closer>, worker: Worker, eviction: Eviction,
    once: Once, closeSignalled: bool, readers: set<nat>, writer: Writer,
    buffer: seq<nat>, channelClosed: bool, cancelled: bool, panicked: bool, ticks: nat,
    accepted: seq<nat>, executed: seq<nat>)

  datatype DispatcherAction = RLock | CheckClosed | TrySend | SlowSend | TimeOut | SeeClosed | RUnlock

  datatype WorkerAction = Receive | Finish | WorkerExit

  datatype EvictionAction = Tick | SweepDone | EvictionStop

  datatype Step =
    | ByDispatcher(t: nat, action: DispatcherAction)
    | ByCloser(c: nat)
    | ByWorker(work: WorkerAction)
    | ByEviction(sweep: EvictionAction)

  /** The start: every call that will ever be made is about to be made. */
  ghost predicate Init(s: State) {
    && (forall t | 0 <= t < |s.dispatchers| :: s.dispatchers[t] == Called)
    && (forall c | 0 <= c < |s.closers| :: s.closers[c] == Entering)
    && s.worker == Receiving && s.eviction == Selecting && s.once == Fresh
    && !s.closeSignalled && s.readers == {} && s.writer == NoWriter
    && s.buffer == [] && !s.channelClosed && !s.cancelled && !s.panicked
    && s.accepted == [] && s.executed == []
  }

  // ------------------------------------------------------------------- actions

  predicate DispatcherEnabled(cap: nat, s: State, t: nat, action: DispatcherAction) {
    t < |s.dispatchers| &&
    var pc := s.dispatchers[t];
    match action
    case RLock => pc == Called && s.writer == NoWriter
    case CheckClosed => pc == Locked
    case TrySend => pc == Sending
    case SlowSend => pc == Waiting && (s.channelClosed || |s.buffer| < cap)
    case TimeOut => pc == Waiting
    case SeeClosed => pc == Waiting && s.closeSignalled
    case RUnlock => pc.Leaving?
  }

  function Move(s: State, t: nat, pc: Dispatcher): State
    requires t < |s.dispatchers|
  {
    s.(dispatchers := s.dispatchers[t := pc])
  }

  /** A send that goes through, or panics on a closed channel. */
  function Send(s: State, t: nat): State
    requires t < |s.dispatchers|
  {
    if s.channelClosed then Move(s, t, Leaving(false)).(panicked := true)
    else Move(s, t, Leaving(true)).(buffer := s.buffer + [t], accepted := s.accepted + [t])
  }

  function DispatcherStep(cap: nat, s: State, t: nat, action: DispatcherAction): State
    requires DispatcherEnabled(cap, s, t, action)
  {
    match action
    case RLock => Move(s, t, Locked).(readers := s.readers + {t})
    case CheckClosed => Move(s, t, if s.closeSignalled then Leaving(false) else Sending)
    case TrySend => if s.channelClosed || |s.buffer| < cap then Send(s, t) else Move(s, t, Waiting)
    case SlowSend => Send(s, t)
    case TimeOut => Move(s, t, Leaving(false))
    case SeeClosed => Move(s, t, Leaving(false))
    case RUnlock => Move(s, t, Returned(s.dispatchers[t].ok)).(readers := s.readers - {t})
  }

  predicate CloserEnabled(s: State, c: nat) {
    c < |s.closers| &&
    match s.closers[c]
    case Entering => s.once == Fresh || s.once == Finished
    case AwaitEviction => s.eviction == Stopped
    case Locking => s.writer == NoWriter
    case AwaitReaders => s.readers == {}
    case AwaitWorker => s.worker == Exited
    case Closed => false
    case _ => true
  }

  /** Where a Close call goes next. */
  function CloserNext(s: State, c: nat): Closer
    requires CloserEnabled(s, c)
  {
    match s.closers[c]
    case Entering => if s.once == Fresh then Signalling else Closed
    case Signalling => AwaitEviction
    case AwaitEviction => Locking
    case Locking => AwaitReaders
    case AwaitReaders => ClosingChannel
    case ClosingChannel => Unlocking
    case Unlocking => AwaitWorker
    case AwaitWorker => Cancelling
    case Cancelling => Closed
  }

  /** What it does on the way. */
  function CloserEffect(s: State, c: nat): (s': State)
    requires CloserEnabled(s, c)
    ensures s'.dispatchers == s.dispatchers && s'.readers == s.readers && s'.ticks == s.ticks
    ensures s'.worker == s.worker && s'.buffer == s.buffer && s'.eviction == s.eviction
    ensures s'.accepted == s.accepted && s'.executed == s.executed
  {
    match s.closers[c]
    case Entering => if s.once == Fresh then s.(once := Taken(c)) else s
    case Signalling => s.(closeSignalled := true, panicked := s.panicked || s.closeSignalled)
    case Locking => s.(writer := Pending)
    case AwaitReaders => s.(writer := Holding)
    case ClosingChannel => s.(channelClosed := true, panicked := s.panicked || s.channelClosed)
    case Unlocking => s.(writer := NoWriter)
    case Cancelling => s.(cancelled := true, once := Finished)
    case _ => s
  }

  function CloserStep(s: State, c: nat): State
    requires CloserEnabled(s, c)
  {
    CloserEffect(s, c).(closers := s.closers[c := CloserNext(s, c)])
  }

  predicate WorkerEnabled(s: State, work: WorkerAction) {
    match work
    case Receive => s.worker == Receiving && s.buffer != []
    case Finish => s.worker.Running?
    case WorkerExit => s.worker == Receiving && s.buffer == [] && s.channelClosed
  }

  function WorkerStep(s: State, work: WorkerAction): State
    requires WorkerEnabled(s, work)
  {
    match work
    case Receive => s.(worker := Running(s.buffer[0]), buffer := s.buffer[1..])
    case Finish => s.(worker := Receiving, executed := s.executed + [s.worker.callback])
    case WorkerExit => s.(worker := Exited)
  }

  predicate EvictionEnabled(s: State, sweep: EvictionAction) {
    match sweep
    case Tick => s.eviction == Selecting && s.ticks > 0
    case SweepDone => s.eviction == Sweeping
    case EvictionStop => s.eviction == Selecting && s.closeSignalled
  }

  function EvictionStep(s: State, sweep: EvictionAction): State
    requires EvictionEnabled(s, sweep)
  {
    match sweep
    case Tick => s.(eviction := Sweeping, ticks := s.ticks - 1)
    case SweepDone => s.(eviction := Selecting)
    case EvictionStop => s.(eviction := Stopped)
  }

  predicate Enabled(cap: nat, s: State, step: Step) {
    match step
    case ByDispatcher(t, action) => DispatcherEnabled(cap, s, t, action)
    case ByCloser(c) => CloserEnabled(s, c)
    case ByWorker(work) => WorkerEnabled(s, work)
    case ByEviction(sweep) => EvictionEnabled(s, sweep)
  }

  function Next(cap: nat, s: State, step: Step): State
    requires Enabled(cap, s, step)
  {
    match step
    case ByDispatcher(t, action) => DispatcherStep(cap, s, t, action)
    case ByCloser(c) => CloserStep(s, c)
    case ByWorker(work) => WorkerStep(s, work)
    case ByEviction(sweep) => EvictionStep(s, sweep)
  }

  /** A run: states linked by steps, from any state on. */
  ghost predicate Path(cap: nat, states: seq<State>, steps: seq<Step>) {
    && |states| == |steps| + 1
    && forall i {:trigger steps[i]} | 0 <= i < |steps| ::
         Enabled(cap, states[i], steps[i]) && states[i + 1] == Next(cap, states[i], steps[i])
  }

  ghost predicate Run(cap: nat, states: seq<State>, steps: seq<Step>) {
    cap > 0 && Path(cap, states, steps) && Init(states[0])
  }

  // ---------------------------------------------------------------- invariants

  predicate HoldsReadLock(pc: Dispatcher) {
    pc.Locked? || pc.Sending? || pc.Waiting? || pc.Leaving?
  }

  predicate PastCheck(pc: Dispatcher) {
    pc.Sending? || pc.Waiting?
  }

  predicate Succeeded(pc: Dispatcher) {
    (pc.Leaving? || pc.Returned?) && pc.ok
  }

  /** The read lock is held by exactly the dispatches inside it, and never together with
      the write lock. */
  ghost predicate LockInv(s: State) {
    && (forall t | t in s.readers :: t < |s.dispatchers|)
    && (forall t | 0 <= t < |s.dispatchers| :: t in s.readers <==> HoldsReadLock(s.dispatchers[t]))
    && (s.writer == Holding ==> s.readers == {})
  }

  /** The Close call that the once-guard let in is the only one on its way. */
  ghost predicate OnceInv(s: State) {
    && (s.once.Taken? ==> s.once.owner < |s.closers|)
    && (forall c | 0 <= c < |s.closers| :: (s.closers[c] != Entering && s.closers[c] != Closed) <==> s.once == Taken(c))
    && (forall c | 0 <= c < |s.closers| && s.closers[c] == Closed :: s.once == Finished)
  }

  function StageOf(pc: Closer): nat {
    match pc
    case Entering => 0
    case Signalling => 1
    case AwaitEviction => 2
    case Locking => 3
    case AwaitReaders => 4
    case ClosingChannel => 5
    case Unlocking => 6
    case AwaitWorker => 7
    case Cancelling => 8
    case Closed => 9
  }

  /** How far the shutdown has come. */
  function Stage(s: State): nat {
    match s.once
    case Fresh => 0
    case Taken(c) => if c < |s.closers| then StageOf(s.closers[c]) else 0
    case Finished => 9
  }

  /** What each stage of the shutdown guarantees. */
  ghost predicate StageInv(s: State) {
    && (s.closeSignalled <==> Stage(s) >= 2)
    && (s.writer == Pending <==> Stage(s) == 4)
    && (s.writer == Holding <==> Stage(s) == 5 || Stage(s) == 6)
    && (s.channelClosed <==> Stage(s) >= 6)
    && (s.cancelled <==> Stage(s) == 9)
    && (Stage(s) >= 3 ==> s.eviction == Stopped)
    && (Stage(s) >= 8 ==> s.worker == Exited)
    && (s.eviction == Stopped ==> s.closeSignalled)
  }

  /** No dispatch stands at a send once the channel is closed, and nothing has panicked. */
  ghost predicate SendInv(s: State) {
    && (s.channelClosed ==> forall t | 0 <= t < |s.dispatchers| :: !PastCheck(s.dispatchers[t]))
    && !s.panicked
  }

  function InFlight(worker: Worker): seq<nat> {
    if worker.Running? then [worker.callback] else []
  }

  /** Accepted callbacks are executed, running or buffered, in acceptance order. */
  ghost predicate WorkInv(cap: nat, s: State) {
    && s.accepted == s.executed + InFlight(s.worker) + s.buffer
    && |s.buffer| <= cap
    && (s.worker == Exited ==> s.buffer == [] && s.channelClosed)
  }

  predicate Distinct(tags: seq<nat>) {
    forall i, j | 0 <= i < j < |tags| :: tags[i] != tags[j]
  }

  /** A callback is accepted exactly when its dispatch succeeds, and then once. */
  ghost predicate TagInv(s: State) {
    && (forall t | t in s.accepted :: t < |s.dispatchers|)
    && (forall t | 0 <= t < |s.dispatchers| :: t in s.accepted <==> Succeeded(s.dispatchers[t]))
    && Distinct(s.accepted)
  }

  ghost predicate Inv(cap: nat, s: State) {
    LockInv(s) && OnceInv(s) && StageInv(s) && SendInv(s) && WorkInv(cap, s) && TagInv(s)
  }

  // ---------------------------------------------------- every step keeps them

  lemma InitInv(cap: nat, s: State)
    requires Init(s)
    ensures Inv(cap, s)
  {
  }

  lemma DispatcherKeepsLocks(cap: nat, s: State, t: nat, action: DispatcherAction)
    requires Inv(cap, s) && DispatcherEnabled(cap, s, t, action)
    ensures var s' := DispatcherStep(cap, s, t, action); LockInv(s') && OnceInv(s') && StageInv(s')
  {
  }

  lemma DispatcherKeepsSends(cap: nat, s: State, t: nat, action: DispatcherAction)
    requires Inv(cap, s) && DispatcherEnabled(cap, s, t, action)
    ensures var s' := DispatcherStep(cap, s, t, action); SendInv(s') && WorkInv(cap, s')
  {
  }

  lemma DispatcherKeepsTags(cap: nat, s: State, t: nat, action: DispatcherAction)
    requires Inv(cap, s) && DispatcherEnabled(cap, s, t, action)
    ensures TagInv(DispatcherStep(cap, s, t, action))
  {
    var s' := DispatcherStep(cap, s, t, action);
    assert forall u | 0 <= u < |s.dispatchers| && u != t :: s'.dispatchers[u] == s.dispatchers[u];
    if s'.accepted != s.accepted {
      assert s'.accepted == s.accepted + [t] && t !in s.accepted;
    }
  }

  lemma CloserKeepsStages(cap: nat, s: State, c: nat)
    requires Inv(cap, s) && CloserEnabled(s, c)
    ensures OnceInv(CloserStep(s, c)) && StageInv(CloserStep(s, c))
  {
  }

  lemma CloserKeepsRest(cap: nat, s: State, c: nat)
    requires Inv(cap, s) && CloserEnabled(s, c)
    ensures var s' := CloserStep(s, c); LockInv(s') && SendInv(s') && WorkInv(cap, s') && TagInv(s')
  {
  }

  lemma WorkerKeepsInv(cap: nat, s: State, work: WorkerAction)
    requires Inv(cap, s) && WorkerEnabled(s, work)
    ensures Inv(cap, WorkerStep(s, work))
  {
  }

  lemma EvictionKeepsInv(cap: nat, s: State, sweep: EvictionAction)
    requires Inv(cap, s) && EvictionEnabled(s, sweep)
    ensures Inv(cap, EvictionStep(s, sweep))
  {
  }

  lemma {:induction false} StepKeepsInv(cap: nat, s: State, step: Step)
    requires Inv(cap, s) && Enabled(cap, s, step)
    ensures Inv(cap, Next(cap, s, step))
  {
    match step
    case ByDispatcher(t, action) =>
      DispatcherKeepsLocks(cap, s, t, action);
      DispatcherKeepsSends(cap, s, t, action);
      DispatcherKeepsTags(cap, s, t, action);
    case ByCloser(c) =>
      CloserKeepsStages(cap, s, c);
      CloserKeepsRest(cap, s, c);
    case ByWorker(work) => WorkerKeepsInv(cap, s, work);
    case ByEviction(sweep) => EvictionKeepsInv(cap, s, sweep);
  }

  lemma {:induction false} PathKeepsInv(cap: nat, states: seq<State>, steps: seq<Step>, i: nat)
    requires Path(cap, states, steps) && Inv(cap, states[0]) && i < |states|
    ensures Inv(cap, states[i])
  {
    if i > 0 {
      PathKeepsInv(cap, states, steps, i - 1);
      StepKeepsInv(cap, states[i - 1], steps[i - 1]);
    }
  }

  /** The invariant holds in every state of every run. */
  lemma RunKeepsInv(cap: nat, states: seq<State>, steps: seq<Step>, i: nat)
    requires Run(cap, states, steps) && i < |states|
    ensures Inv(cap, states[i])
  {
    InitInv(cap, states[0]);
    PathKeepsInv(cap, states, steps, i);
  }

  // -------------------------------------------------------------- consequences

  /** Whoever stands at a send holds the read lock and finds the channel open; so no send
      reaches a closed channel, nothing is closed twice and the buffer keeps its bound. */
  lemma SendsAreSafe(cap: nat, states: seq<State>, steps: seq<Step>, i: nat)
    requires Run(cap, states, steps) && i < |states|
    ensures var s := states[i];
            && (forall t | 0 <= t < |s.dispatchers| && PastCheck(s.dispatchers[t]) ::
                  t in s.readers && !s.channelClosed)
            && !s.panicked && |s.buffer| <= cap
  {
    RunKeepsInv(cap, states, steps, i);
  }

  /** The callbacks accepted so far are, in acceptance order, the executed ones, the one
      that is running and the buffered ones. */
  lemma NothingLost(cap: nat, states: seq<State>, steps: seq<Step>, i: nat)
    requires Run(cap, states, steps) && i < |states|
    ensures states[i].accepted == states[i].executed + InFlight(states[i].worker) + states[i].buffer
  {
    RunKeepsInv(cap, states, steps, i);
  }

  /** What stays once a state is left: the histories only grow, a returned call has
      returned, and nothing closed opens again. */
  ghost predicate Later(s: State, s': State) {
    && s.accepted <= s'.accepted && s.executed <= s'.executed
    && |s.dispatchers| == |s'.dispatchers| && |s.closers| == |s'.closers|
    && (forall t | 0 <= t < |s.dispatchers| && s.dispatchers[t].Returned? :: s'.dispatchers[t] == s.dispatchers[t])
    && (s.closeSignalled ==> s'.closeSignalled)
    && (s.cancelled ==> s'.cancelled)
    && (s.channelClosed ==> s'.channelClosed && s'.accepted == s.accepted)
  }

  lemma DispatcherIsLater(cap: nat, s: State, t: nat, action: DispatcherAction)
    requires Inv(cap, s) && DispatcherEnabled(cap, s, t, action)
    ensures Later(s, DispatcherStep(cap, s, t, action))
  {
    var s' := DispatcherStep(cap, s, t, action);
    assert forall u | 0 <= u < |s.dispatchers| && u != t :: s'.dispatchers[u] == s.dispatchers[u];
  }

  lemma CloserIsLater(cap: nat, s: State, c: nat)
    requires Inv(cap, s) && CloserEnabled(s, c)
    ensures Later(s, CloserStep(s, c))
  {
  }

  lemma StepIsLater(cap: nat, s: State, step: Step)
    requires Inv(cap, s) && Enabled(cap, s, step)
    ensures Later(s, Next(cap, s, step))
  {
    match step
    case ByDispatcher(t, action) => DispatcherIsLater(cap, s, t, action);
    case ByCloser(c) => CloserIsLater(cap, s, c);
    case _ =>
  }

  lemma LaterTransitive(s: State, s': State, s'': State)
    requires Later(s, s') && Later(s', s'')
    ensures Later(s, s'')
  {
  }

  lemma PathStepIsLater(cap: nat, states: seq<State>, steps: seq<Step>, j: nat)
    requires Path(cap, states, steps) && Inv(cap, states[0]) && j < |steps|
    ensures Later(states[j], states[j + 1])
  {
    PathKeepsInv(cap, states, steps, j);
    StepIsLater(cap, states[j], steps[j]);
  }

  lemma {:induction false} PathIsLater(cap: nat, states: seq<State>, steps: seq<Step>, i: nat, j: nat)
    requires Path(cap, states, steps) && Inv(cap, states[0]) && i <= j < |states|
    ensures Later(states[i], states[j])
  {
    if i < j {
      PathIsLater(cap, states, steps, i, j - 1);
      PathStepIsLater(cap, states, steps, j - 1);
      LaterTransitive(states[i], states[j - 1], states[j]);
    }
  }

  /** When any Close call has returned, every accepted callback has been executed, in
      acceptance order, the worker is gone and the base context is cancelled; nothing is
      accepted or executed afterwards. */
  lemma CloseDrains(cap: nat, states: seq<State>, steps: seq<Step>, i: nat, j: nat, c: nat)
    requires Run(cap, states, steps) && i <= j < |states|
    requires c < |states[i].closers| && states[i].closers[c] == Closed
    ensures states[i].executed == states[i].accepted == states[j].accepted == states[j].executed
    ensures states[i].worker == Exited && states[i].cancelled && !states[j].panicked
  {
    RunKeepsInv(cap, states, steps, i);
    RunKeepsInv(cap, states, steps, j);
    PathIsLater(cap, states, steps, i, j);
  }

  /** The base context is cancelled only after the last callback ended. */
  lemma CancelledAfterLast(cap: nat, states: seq<State>, steps: seq<Step>, i: nat, j: nat)
    requires Run(cap, states, steps) && i <= j < |states| && states[i].cancelled
    ensures states[i].worker == states[j].worker == Exited
    ensures states[i].executed == states[j].executed == states[j].accepted
  {
    RunKeepsInv(cap, states, steps, i);
    RunKeepsInv(cap, states, steps, j);
    PathIsLater(cap, states, steps, i, j);
  }

  /** How often a callback occurs in a history. */
  function Count(tags: seq<nat>, t: nat): nat {
    if tags == [] then 0 else Count(tags[..|tags| - 1], t) + if tags[|tags| - 1] == t then 1 else 0
  }

  lemma {:induction false} CountDistinct(tags: seq<nat>, t: nat)
    requires Distinct(tags)
    ensures Count(tags, t) == if t in tags then 1 else 0
  {
    if tags != [] {
      var n := |tags| - 1;
      CountDistinct(tags[..n], t);
      assert tags == tags[..n] + [tags[n]];
    }
  }

  /** dispatchCallback's answer is the truth: once some Close call has returned, the
      callback of a dispatch that answered true was executed exactly once, and the
      callback of one that answered false never was and never will be. */
  lemma AnswersAreKept(cap: nat, states: seq<State>, steps: seq<Step>, h: nat, i: nat, c: nat, t: nat)
    requires Run(cap, states, steps) && h < |states| && i < |states|
    requires c < |states[i].closers| && states[i].closers[c] == Closed
    requires t < |states[h].dispatchers| && states[h].dispatchers[t].Returned?
    ensures Count(states[i].executed, t) == if states[h].dispatchers[t].ok then 1 else 0
  {
    var last := |states| - 1;
    RunKeepsInv(cap, states, steps, last);
    PathIsLater(cap, states, steps, h, last);
    CloseDrains(cap, states, steps, i, last, c);
    CountDistinct(states[last].accepted, t);
  }

  /** A refused callback is in no later state accepted, whether or not Close is called. */
  lemma RefusedForever(cap: nat, states: seq<State>, steps: seq<Step>, i: nat, j: nat, t: nat)
    requires Run(cap, states, steps) && i <= j < |states|
    requires t < |states[i].dispatchers| && states[i].dispatchers[t] == Returned(false)
    ensures t !in states[j].accepted && t !in states[j].executed
  {
    RunKeepsInv(cap, states, steps, j);
    PathIsLater(cap, states, steps, i, j);
  }
}
