/** The pipeline of module Shutdown cannot hang: Close returns. And the exact condition
    under which a dispatch is still accepted after Close has signalled. */
module ShutdownProgress {
  import opened Shutdown

  // ------------------------------------------------------------------ measure

  function Sum(ranks: seq<nat>): nat {
    if ranks == [] then 0 else Sum(ranks[..|ranks| - 1]) + ranks[|ranks| - 1]
  }

  lemma {:induction false} SumUpdate(ranks: seq<nat>, i: nat, rank: nat)
    requires i < |ranks|
    ensures Sum(ranks[i := rank]) + ranks[i] == Sum(ranks) + rank
  {
    var n := |ranks| - 1;
    if i == n {
      assert ranks[i := rank][..n] == ranks[..n];
    } else {
      assert ranks[i := rank][..n] == ranks[..n][i := rank];
      SumUpdate(ranks[..n], i, rank);
    }
  }

  function DispatcherRank(pc: Dispatcher): nat {
    match pc
    case Called => 9
    case Locked => 8
    case Sending => 7
    case Waiting => 6
    case Leaving(_) => 1
    case Returned(_) => 0
  }

  function CloserRank(pc: Closer): nat { 9 - StageOf(pc) }

  function WorkerRank(w: Worker): nat {
    match w
    case Receiving => 1
    case Running(_) => 2
    case Exited => 0
  }

  function EvictionRank(e: Eviction): nat {
    match e
    case Selecting => 1
    case Sweeping => 2
    case Stopped => 0
  }

  function DispatcherRanks(s: State): seq<nat> {
    seq(|s.dispatchers|, t requires 0 <= t < |s.dispatchers| => DispatcherRank(s.dispatchers[t]))
  }

  function CloserRanks(s: State): seq<nat> {
    seq(|s.closers|, c requires 0 <= c < |s.closers| => CloserRank(s.closers[c]))
  }

  /** The work that is left: program counters, buffered callbacks, ticks and stages. */
  function Measure(s: State): nat {
    Sum(DispatcherRanks(s)) + Sum(CloserRanks(s)) + WorkerRank(s.worker) + 2 * |s.buffer|
      + EvictionRank(s.eviction) + 2 * s.ticks
  }

  lemma DispatcherDecreases(cap: nat, s: State, t: nat, action: DispatcherAction)
    requires Inv(cap, s) && DispatcherEnabled(cap, s, t, action)
    ensures Measure(DispatcherStep(cap, s, t, action)) < Measure(s)
  {
    var s' := DispatcherStep(cap, s, t, action);
    SumUpdate(DispatcherRanks(s), t, DispatcherRank(s'.dispatchers[t]));
    assert DispatcherRanks(s') == DispatcherRanks(s)[t := DispatcherRank(s'.dispatchers[t])];
    assert CloserRanks(s') == CloserRanks(s);
  }

  lemma CloserAdvances(s: State, c: nat)
    requires CloserEnabled(s, c)
    ensures CloserRank(CloserNext(s, c)) < CloserRank(s.closers[c])
  {
  }

  lemma CloserDecreases(s: State, c: nat)
    requires CloserEnabled(s, c)
    ensures Measure(CloserStep(s, c)) < Measure(s)
  {
    var s' := CloserStep(s, c);
    CloserAdvances(s, c);
    SumUpdate(CloserRanks(s), c, CloserRank(s'.closers[c]));
    assert CloserRanks(s') == CloserRanks(s)[c := CloserRank(s'.closers[c])];
    assert DispatcherRanks(s') == DispatcherRanks(s);
  }

  /** Every step of every kind uses up some of the work that is left. */
  lemma StepDecreases(cap: nat, s: State, step: Step)
    requires Inv(cap, s) && Enabled(cap, s, step)
    ensures Measure(Next(cap, s, step)) < Measure(s)
  {
    match step
    case ByDispatcher(t, action) => DispatcherDecreases(cap, s, t, action);
    case ByCloser(c) => CloserDecreases(s, c);
    case ByWorker(work) =>
      assert DispatcherRanks(Next(cap, s, step)) == DispatcherRanks(s);
      assert CloserRanks(Next(cap, s, step)) == CloserRanks(s);
    case ByEviction(sweep) =>
      assert DispatcherRanks(Next(cap, s, step)) == DispatcherRanks(s);
      assert CloserRanks(Next(cap, s, step)) == CloserRanks(s);
  }

  lemma {:induction false} PathBounded(cap: nat, states: seq<State>, steps: seq<Step>, i: nat)
    requires Path(cap, states, steps) && Inv(cap, states[0]) && i < |states|
    ensures i + Measure(states[i]) <= Measure(states[0])
  {
    if i > 0 {
      PathBounded(cap, states, steps, i - 1);
      PathKeepsInv(cap, states, steps, i - 1);
      StepDecreases(cap, states[i - 1], steps[i - 1]);
    }
  }

  // ------------------------------------------------------------------ no hang

  /** A step that no new caller and no timer of the eviction worker has to start. */
  predicate Internal(s: State, step: Step) {
    match step
    case ByDispatcher(t, action) => action != RLock
    case ByCloser(c) => c < |s.closers| && s.closers[c] != Entering
    case ByWorker(_) => true
    case ByEviction(sweep) => sweep != Tick
  }

  ghost predicate CanMove(cap: nat, s: State) {
    exists step :: Enabled(cap, s, step) && Internal(s, step)
  }

  lemma ReaderCanMove(cap: nat, s: State, t: nat)
    requires Inv(cap, s) && t in s.readers
    ensures CanMove(cap, s)
  {
    var action := match s.dispatchers[t]
      case Locked => CheckClosed
      case Sending => TrySend
      case Waiting => TimeOut
      case _ => RUnlock;
    assert Enabled(cap, s, ByDispatcher(t, action));
  }

  lemma EvictionCanMove(cap: nat, s: State)
    requires s.closeSignalled && s.eviction != Stopped
    ensures CanMove(cap, s)
  {
    var sweep := if s.eviction == Sweeping then SweepDone else EvictionStop;
    assert Enabled(cap, s, ByEviction(sweep));
  }

  lemma WorkerCanMove(cap: nat, s: State)
    requires s.channelClosed && s.worker != Exited
    ensures CanMove(cap, s)
  {
    var work := if s.worker.Running? then Finish else if s.buffer == [] then WorkerExit else Receive;
    assert Enabled(cap, s, ByWorker(work));
  }

  /** While a Close call is on its way, some internal step can always be taken: whatever
      it waits for can move. */
  lemma NeverStuck(cap: nat, s: State)
    requires Inv(cap, s) && s.once.Taken?
    ensures CanMove(cap, s)
  {
    var c := s.once.owner;
    if s.closers[c] == AwaitEviction && s.eviction != Stopped {
      EvictionCanMove(cap, s);
    } else if s.closers[c] == AwaitReaders && s.readers != {} {
      var t :| t in s.readers;
      ReaderCanMove(cap, s, t);
    } else if s.closers[c] == AwaitWorker && s.worker != Exited {
      WorkerCanMove(cap, s);
    } else {
      assert Enabled(cap, s, ByCloser(c)) && Internal(s, ByCloser(c));
    }
  }

  ghost predicate Terminal(cap: nat, s: State) {
    forall step :: !Enabled(cap, s, step)
  }

  /** A state with no step left, in which Close was called at least once: every Close and
      every dispatch has returned. */
  lemma TerminalMeansDone(cap: nat, s: State)
    requires Inv(cap, s) && Terminal(cap, s) && |s.closers| > 0
    ensures forall c | 0 <= c < |s.closers| :: s.closers[c] == Closed
    ensures forall t | 0 <= t < |s.dispatchers| :: s.dispatchers[t].Returned?
  {
    if s.once.Taken? {
      NeverStuck(cap, s);
    }
    forall c | 0 <= c < |s.closers|
      ensures s.closers[c] == Closed
    {
      assert !Enabled(cap, s, ByCloser(c));
    }
    forall t | 0 <= t < |s.dispatchers|
      ensures s.dispatchers[t].Returned?
    {
      if t in s.readers {
        ReaderCanMove(cap, s, t);
      }
      assert !Enabled(cap, s, ByDispatcher(t, RLock));
    }
  }

  /** No run is longer than the measure of its start, and a run that cannot be prolonged
      ends with every Close call and every dispatch returned and all accepted callbacks
      executed. */
  lemma CloseReturns(cap: nat, states: seq<State>, steps: seq<Step>)
    requires Run(cap, states, steps) && |states[0].closers| > 0
    ensures |steps| <= Measure(states[0])
    ensures var s := states[|steps|];
            Terminal(cap, s) ==>
              && (forall c | 0 <= c < |s.closers| :: s.closers[c] == Closed)
              && (forall t | 0 <= t < |s.dispatchers| :: s.dispatchers[t].Returned?)
              && s.executed == s.accepted
  {
    var n := |steps|;
    InitInv(cap, states[0]);
    PathBounded(cap, states, steps, n);
    RunKeepsInv(cap, states, steps, n);
    PathIsLater(cap, states, steps, 0, n);
    if Terminal(cap, states[n]) {
      TerminalMeansDone(cap, states[n]);
      CloseDrains(cap, states, steps, n, n, 0);
    }
  }

  // ---------------------------------------------------- acceptance after the signal

  /** Some continuation of s accepts the callback of dispatch t. */
  ghost predicate CanBeAccepted(cap: nat, s: State, t: nat) {
    exists states: seq<State>, steps: seq<Step> ::
      Path(cap, states, steps) && states[0] == s && t in states[|steps|].accepted
  }

  lemma OneStepPath(cap: nat, s: State, step: Step)
    requires Enabled(cap, s, step)
    ensures Path(cap, [s, Next(cap, s, step)], [step])
  {
  }

  lemma PrependStep(cap: nat, s: State, step: Step, t: nat)
    requires Enabled(cap, s, step) && CanBeAccepted(cap, Next(cap, s, step), t)
    ensures CanBeAccepted(cap, s, t)
  {
    var states: seq<State>, steps: seq<Step> :|
      Path(cap, states, steps) && states[0] == Next(cap, s, step) && t in states[|steps|].accepted;
    var states', steps' := [s] + states, [step] + steps;
    assert Path(cap, states', steps') by {
      forall i | 0 <= i < |steps'|
        ensures Enabled(cap, states'[i], steps'[i]) && states'[i + 1] == Next(cap, states'[i], steps'[i])
      {
        if i > 0 {
          assert states'[i] == states[i - 1] && steps'[i] == steps[i - 1];
        }
      }
    }
    assert states'[|steps'|] == states[|steps|];
  }

  lemma AcceptNow(cap: nat, s: State, t: nat)
    requires Inv(cap, s) && t < |s.dispatchers| && PastCheck(s.dispatchers[t]) && |s.buffer| < cap
    ensures CanBeAccepted(cap, s, t)
  {
    var step := ByDispatcher(t, if s.dispatchers[t] == Sending then TrySend else SlowSend);
    OneStepPath(cap, s, step);
    assert [s, Next(cap, s, step)][|[step]|].accepted == s.accepted + [t];
  }

  lemma AcceptAfterReceive(cap: nat, s: State, t: nat)
    requires Inv(cap, s) && t < |s.dispatchers| && PastCheck(s.dispatchers[t])
    requires cap > 0 && s.worker == Receiving
    ensures CanBeAccepted(cap, s, t)
  {
    if |s.buffer| < cap {
      AcceptNow(cap, s, t);
    } else {
      var s' := Next(cap, s, ByWorker(Receive));
      StepKeepsInv(cap, s, ByWorker(Receive));
      AcceptNow(cap, s', t);
      PrependStep(cap, s, ByWorker(Receive), t);
    }
  }

  lemma PastCheckIsAcceptable(cap: nat, s: State, t: nat)
    requires Inv(cap, s) && cap > 0 && t < |s.dispatchers| && PastCheck(s.dispatchers[t])
    ensures CanBeAccepted(cap, s, t)
  {
    if s.worker.Running? {
      var s' := Next(cap, s, ByWorker(Finish));
      StepKeepsInv(cap, s, ByWorker(Finish));
      AcceptAfterReceive(cap, s', t);
      PrependStep(cap, s, ByWorker(Finish), t);
    } else {
      AcceptAfterReceive(cap, s, t);
    }
  }

  /** The dispatch is about to answer false. */
  predicate IsRefused(s: State, t: nat) {
    t < |s.dispatchers| && s.dispatchers[t] == Leaving(false)
  }

  lemma OwnRefusal(cap: nat, s: State, t: nat, action: DispatcherAction)
    requires Inv(cap, s) && DispatcherEnabled(cap, s, t, action) && s.dispatchers[t] != Leaving(false)
    requires IsRefused(DispatcherStep(cap, s, t, action), t)
    ensures s.closeSignalled || (s.dispatchers[t] == Waiting && action == TimeOut)
  {
  }

  /** A dispatch is refused only after the close signal, or when its wait in the slow path
      has timed out. */
  lemma RefusalReasons(cap: nat, s: State, step: Step, t: nat)
    requires Enabled(cap, s, step) && Inv(cap, s)
    requires t < |s.dispatchers| && s.dispatchers[t] != Leaving(false)
    requires IsRefused(Next(cap, s, step), t)
    ensures s.closeSignalled || (s.dispatchers[t] == Waiting && step == ByDispatcher(t, TimeOut))
  {
    match step
    case ByDispatcher(u, action) =>
      if u == t {
        OwnRefusal(cap, s, t, action);
      }
    case ByCloser(c) =>
    case _ =>
  }

  /** A full channel does not refuse a dispatch: the non-blocking send either succeeds or
      leaves the dispatch where it can still be accepted. */
  lemma FullIsNoRefusal(cap: nat, s: State, t: nat)
    requires Inv(cap, s) && cap > 0 && DispatcherEnabled(cap, s, t, TrySend)
    ensures var s' := DispatcherStep(cap, s, t, TrySend);
            if |s.buffer| < cap then s'.accepted == s.accepted + [t] && s'.dispatchers[t] == Leaving(true)
            else s'.accepted == s.accepted && CanBeAccepted(cap, s', t)
  {
    StepKeepsInv(cap, s, ByDispatcher(t, TrySend));
    var s' := DispatcherStep(cap, s, t, TrySend);
    if |s.buffer| >= cap {
      PastCheckIsAcceptable(cap, s', t);
    }
  }

  /** After the signal nobody gets past the check any more. */
  lemma DispatcherStaysOut(cap: nat, s: State, u: nat, action: DispatcherAction, t: nat)
    requires Inv(cap, s) && DispatcherEnabled(cap, s, u, action) && s.closeSignalled
    requires t < |s.dispatchers| && t !in s.accepted && !PastCheck(s.dispatchers[t])
    ensures var s' := DispatcherStep(cap, s, u, action); t !in s'.accepted && !PastCheck(s'.dispatchers[t])
  {
    if u == t {
      assert action == RLock || action == CheckClosed || action == RUnlock;
    }
  }

  lemma StaysOut(cap: nat, s: State, step: Step, t: nat)
    requires Inv(cap, s) && Enabled(cap, s, step) && s.closeSignalled
    requires t < |s.dispatchers| && t !in s.accepted && !PastCheck(s.dispatchers[t])
    ensures var s' := Next(cap, s, step);
            t < |s'.dispatchers| && t !in s'.accepted && !PastCheck(s'.dispatchers[t])
  {
    match step
    case ByDispatcher(u, action) => DispatcherStaysOut(cap, s, u, action, t);
    case ByCloser(c) =>
    case _ =>
  }

  lemma {:induction false} OnlyPastCheckAccepted(cap: nat, states: seq<State>, steps: seq<Step>, i: nat, t: nat)
    requires Path(cap, states, steps) && Inv(cap, states[0]) && states[0].closeSignalled && i < |states|
    requires t < |states[0].dispatchers| && t !in states[0].accepted && !PastCheck(states[0].dispatchers[t])
    ensures t < |states[i].dispatchers| && t !in states[i].accepted && !PastCheck(states[i].dispatchers[t])
  {
    if i > 0 {
      OnlyPastCheckAccepted(cap, states, steps, i - 1, t);
      PathIsLater(cap, states, steps, 0, i - 1);
      PathKeepsInv(cap, states, steps, i - 1);
      StaysOut(cap, states[i - 1], steps[i - 1], t);
    }
  }

  /** After Close has signalled, a dispatch that is not yet accepted can still be
      accepted exactly when it had already passed its check of closeCh. */
  lemma LateAcceptance(cap: nat, s: State, t: nat)
    requires Inv(cap, s) && cap > 0 && s.closeSignalled && t < |s.dispatchers| && t !in s.accepted
    ensures CanBeAccepted(cap, s, t) <==> PastCheck(s.dispatchers[t])
  {
    if PastCheck(s.dispatchers[t]) {
      PastCheckIsAcceptable(cap, s, t);
    } else if CanBeAccepted(cap, s, t) {
      var states: seq<State>, steps: seq<Step> :|
        Path(cap, states, steps) && states[0] == s && t in states[|steps|].accepted;
      OnlyPastCheckAccepted(cap, states, steps, |steps|, t);
    }
  }

  /** The documentation says that the signal stops dispatchers from accepting new work;
      this run accepts a callback after the signal. */
  lemma AcceptedAfterSignal(s0: State)
    returns (states: seq<State>, steps: seq<Step>)
    requires Init(s0) && |s0.dispatchers| > 0 && |s0.closers| > 0
    ensures Run(1, states, steps) && states[0] == s0 && |steps| == 5
    ensures states[4].closeSignalled && states[4].accepted == [] && states[5].accepted == [0]
  {
    steps := [ByDispatcher(0, RLock), ByDispatcher(0, CheckClosed), ByCloser(0), ByCloser(0), ByDispatcher(0, TrySend)];
    var s1 := Next(1, s0, steps[0]);
    var s2 := Next(1, s1, steps[1]);
    var s3 := Next(1, s2, steps[2]);
    var s4 := Next(1, s3, steps[3]);
    var s5 := Next(1, s4, steps[4]);
    states := [s0, s1, s2, s3, s4, s5];
  }
}
