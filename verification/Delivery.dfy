/** What becomes of an ATTLOG batch: the callback pipeline of module Shutdown, in which the
    worker runs a callback frame by frame.

    The worker calls each queued function inside a guard (safeCall), and the function of a
    batch calls the attendance callback once per record, each time inside a guard of its
    own. Whether an invocation returns or panics is a free choice of the run; a panic
    unwinds the stack to the nearest guard, and would end the process if there were none. */
module Delivery {
  import opened Types
  import opened Shutdown
  import Attendance
  import Lines

  /** The function of a dispatch: the loop over a batch of records, or something else. */
  datatype Job = Batch(records: seq<AttendanceRecord>) | Other

  /** A frame of the worker's stack; the callback is the user's code. */
  datatype Frame = Guard | Loop(next: nat) | Callback

  /** The attendance callback was invoked for a record of the batch of a dispatch. */
  datatype Invocation = Invocation(job: nat, index: nat)

  datatype Exec = Exec(pipeline: State, stack: seq<Frame>, panicking: bool, crashed: bool, invoked: seq<Invocation>)

  datatype Move = Pipeline(step: Shutdown.Step) | Advance | Panic | Unwind

  // -------------------------------------------------------------------- steps

  function Top(stack: seq<Frame>): Frame
    requires stack != []
  {
    stack[|stack| - 1]
  }

  function Pop(stack: seq<Frame>): seq<Frame>
    requires stack != []
  {
    stack[..|stack| - 1]
  }

  /** The callback that runs is over when its stack is empty. */
  predicate CanMove(cap: nat, e: Exec, move: Move) {
    !e.crashed &&
    match move
    case Pipeline(step) =>
      Enabled(cap, e.pipeline, step) && (step == ByWorker(Finish) ==> e.stack == [] && !e.panicking)
    case Advance => e.pipeline.worker.Running? && e.stack != [] && !e.panicking
    case Panic => e.pipeline.worker.Running? && e.stack != [] && !e.panicking && Top(e.stack) == Callback
    case Unwind => e.panicking
  }

  /** The frames of a received function: a guard, and the function inside it. */
  function Entered(job: Job): seq<Frame> {
    [Guard, if job.Batch? then Loop(0) else Callback]
  }

  /** The loop invokes the callback for the next record inside a guard, or ends; a guard or
      a callback on top returns. */
  function DoAdvance(jobs: nat -> Job, e: Exec): Exec
    requires e.pipeline.worker.Running? && e.stack != []
  {
    var t, rest := e.pipeline.worker.callback, Pop(e.stack);
    match Top(e.stack)
    case Loop(k) =>
      if jobs(t).Batch? && k < |jobs(t).records| then
        e.(stack := rest + [Loop(k + 1), Guard, Callback], invoked := e.invoked + [Invocation(t, k)])
      else e.(stack := rest)
    case _ => e.(stack := rest)
  }

  /** One frame is given up; a guard recovers. */
  function DoUnwind(e: Exec): Exec {
    if e.stack == [] then e.(crashed := true)
    else e.(stack := Pop(e.stack), panicking := Top(e.stack) != Guard)
  }

  function After(cap: nat, jobs: nat -> Job, e: Exec, move: Move): Exec
    requires CanMove(cap, e, move)
  {
    match move
    case Pipeline(step) =>
      var e' := e.(pipeline := Next(cap, e.pipeline, step));
      if step == ByWorker(Receive) then e'.(stack := Entered(jobs(e.pipeline.buffer[0]))) else e'
    case Advance => DoAdvance(jobs, e)
    case Panic => e.(stack := Pop(e.stack), panicking := true)
    case Unwind => DoUnwind(e)
  }

  ghost predicate Execution(cap: nat, jobs: nat -> Job, execs: seq<Exec>, moves: seq<Move>) {
    && cap > 0 && |execs| == |moves| + 1
    && Init(execs[0].pipeline)
    && execs[0] == Exec(execs[0].pipeline, [], false, false, [])
    && forall i {:trigger moves[i]} | 0 <= i < |moves| ::
         CanMove(cap, execs[i], moves[i]) && execs[i + 1] == After(cap, jobs, execs[i], moves[i])
  }

  // ---------------------------------------------------------------- invariant

  /** The first k invocations of a batch. */
  function FirstCalls(t: nat, k: nat): (calls: seq<Invocation>)
    ensures |calls| == k
    ensures forall i | 0 <= i < k :: calls[i] == Invocation(t, i)
  {
    seq(k, i requires 0 <= i < k => Invocation(t, i))
  }

  function Size(job: Job): nat {
    if job.Batch? then |job.records| else 0
  }

  /** All invocations of the finished callbacks. */
  function AllCalls(jobs: nat -> Job, executed: seq<nat>): seq<Invocation> {
    if executed == [] then []
    else
      var t := executed[|executed| - 1];
      AllCalls(jobs, executed[..|executed| - 1]) + FirstCalls(t, Size(jobs(t)))
  }

  /** The stack of a function that has made k invocations. A panic is only ever under way
      directly above a guard. */
  predicate Shape(job: Job, stack: seq<Frame>, panicking: bool, k: nat) {
    && k <= Size(job)
    && (if job.Batch? then
          || (stack == [Guard, Loop(k)] && !panicking)
          || (stack == [Guard, Loop(k), Guard] && k > 0)
          || (stack == [Guard, Loop(k), Guard, Callback] && k > 0 && !panicking)
          || ((stack == [Guard] || stack == []) && k == Size(job) && !panicking)
        else
          || (stack == [Guard, Callback] && !panicking)
          || stack == [Guard]
          || (stack == [] && !panicking))
  }

  /** How many invocations the running function has made. */
  ghost predicate Invoked(jobs: nat -> Job, e: Exec, k: nat) {
    var s := e.pipeline;
    if s.worker.Running? then
      && Shape(jobs(s.worker.callback), e.stack, e.panicking, k)
      && e.invoked == AllCalls(jobs, s.executed) + FirstCalls(s.worker.callback, k)
    else
      e.stack == [] && !e.panicking && k == 0 && e.invoked == AllCalls(jobs, s.executed)
  }

  ghost predicate ExecInv(cap: nat, jobs: nat -> Job, e: Exec) {
    Inv(cap, e.pipeline) && !e.crashed && exists k :: Invoked(jobs, e, k)
  }

  lemma AllCallsSnoc(jobs: nat -> Job, executed: seq<nat>, t: nat)
    ensures AllCalls(jobs, executed + [t]) == AllCalls(jobs, executed) + FirstCalls(t, Size(jobs(t)))
  {
    assert (executed + [t])[..|executed|] == executed;
  }

  lemma NoWork(cap: nat, s: State, step: Shutdown.Step)
    requires Enabled(cap, s, step) && !step.ByWorker?
    ensures Next(cap, s, step).worker == s.worker && Next(cap, s, step).executed == s.executed
  {
  }

  lemma PipelineKeeps(cap: nat, jobs: nat -> Job, e: Exec, step: Shutdown.Step, k: nat) returns (k': nat)
    requires Inv(cap, e.pipeline) && CanMove(cap, e, Pipeline(step)) && Invoked(jobs, e, k)
    ensures Invoked(jobs, After(cap, jobs, e, Pipeline(step)), k')
  {
    var s := e.pipeline;
    k' := k;
    if !step.ByWorker? {
      NoWork(cap, s, step);
    } else if step.work == Receive {
      assert FirstCalls(s.buffer[0], 0) == [];
    } else if step.work == Finish {
      k' := 0;
      AllCallsSnoc(jobs, s.executed, s.worker.callback);
    }
  }

  lemma AdvanceKeeps(cap: nat, jobs: nat -> Job, e: Exec, k: nat) returns (k': nat)
    requires CanMove(cap, e, Advance) && Invoked(jobs, e, k)
    ensures Invoked(jobs, DoAdvance(jobs, e), k')
  {
    var t := e.pipeline.worker.callback;
    k' := k;
    if Top(e.stack).Loop? && k < Size(jobs(t)) {
      k' := k + 1;
      assert FirstCalls(t, k + 1) == FirstCalls(t, k) + [Invocation(t, k)];
    }
  }

  lemma UnwindKeeps(cap: nat, jobs: nat -> Job, e: Exec, k: nat)
    requires CanMove(cap, e, Unwind) && Invoked(jobs, e, k)
    ensures Invoked(jobs, DoUnwind(e), k) && !DoUnwind(e).crashed
  {
  }

  lemma MoveKeepsInv(cap: nat, jobs: nat -> Job, e: Exec, move: Move)
    requires ExecInv(cap, jobs, e) && CanMove(cap, e, move)
    ensures ExecInv(cap, jobs, After(cap, jobs, e, move))
  {
    var k :| Invoked(jobs, e, k);
    match move
    case Pipeline(step) =>
      StepKeepsInv(cap, e.pipeline, step);
      var k' := PipelineKeeps(cap, jobs, e, step, k);
    case Advance => var k' := AdvanceKeeps(cap, jobs, e, k);
    case Panic => assert Invoked(jobs, After(cap, jobs, e, move), k);
    case Unwind => UnwindKeeps(cap, jobs, e, k);
  }

  /** In every state of every execution, whatever panics: the process has not crashed, and
      the invocations are those of the finished callbacks, each batch whole and in order,
      followed by a front part of the running one. */
  lemma {:induction false} ExecutionKeepsInv(cap: nat, jobs: nat -> Job, execs: seq<Exec>, moves: seq<Move>, i: nat)
    requires Execution(cap, jobs, execs, moves) && i < |execs|
    ensures ExecInv(cap, jobs, execs[i])
  {
    if i == 0 {
      InitInv(cap, execs[0].pipeline);
      assert Invoked(jobs, execs[0], 0);
    } else {
      ExecutionKeepsInv(cap, jobs, execs, moves, i - 1);
      MoveKeepsInv(cap, jobs, execs[i - 1], moves[i - 1]);
    }
  }

  lemma MoveIsLater(cap: nat, jobs: nat -> Job, e: Exec, move: Move)
    requires ExecInv(cap, jobs, e) && CanMove(cap, e, move)
    ensures Later(e.pipeline, After(cap, jobs, e, move).pipeline)
  {
    if move.Pipeline? {
      StepIsLater(cap, e.pipeline, move.step);
    }
  }

  lemma {:induction false} ExecutionIsLater(cap: nat, jobs: nat -> Job, execs: seq<Exec>, moves: seq<Move>,
                                            i: nat, j: nat)
    requires Execution(cap, jobs, execs, moves) && i <= j < |execs|
    ensures Later(execs[i].pipeline, execs[j].pipeline)
  {
    if i < j {
      ExecutionIsLater(cap, jobs, execs, moves, i, j - 1);
      ExecutionKeepsInv(cap, jobs, execs, moves, j - 1);
      MoveIsLater(cap, jobs, execs[j - 1], moves[j - 1]);
      LaterTransitive(execs[i].pipeline, execs[j - 1].pipeline, execs[j].pipeline);
    }
  }

  // ------------------------------------------------------- the records of one batch

  /** The records of a dispatch for which the callback was invoked, in order. */
  function IndicesOf(invoked: seq<Invocation>, t: nat): seq<nat> {
    if invoked == [] then []
    else
      var n := |invoked| - 1;
      IndicesOf(invoked[..n], t) + if invoked[n].job == t then [invoked[n].index] else []
  }

  function Range(k: nat): (indices: seq<nat>)
    ensures |indices| == k
    ensures forall i | 0 <= i < k :: indices[i] == i
  {
    seq(k, i requires 0 <= i < k => i)
  }

  lemma {:induction false} IndicesConcat(a: seq<Invocation>, b: seq<Invocation>, t: nat)
    ensures IndicesOf(a + b, t) == IndicesOf(a, t) + IndicesOf(b, t)
  {
    if b == [] {
      assert a + b == a;
    } else {
      var n := |b| - 1;
      assert (a + b)[..|a + b| - 1] == a + b[..n];
      IndicesConcat(a, b[..n], t);
    }
  }

  lemma {:induction false} IndicesOfFirst(u: nat, k: nat, t: nat)
    ensures IndicesOf(FirstCalls(u, k), t) == if t == u then Range(k) else []
  {
    if k > 0 {
      assert FirstCalls(u, k)[..k - 1] == FirstCalls(u, k - 1);
      IndicesOfFirst(u, k - 1, t);
      assert Range(k) == Range(k - 1) + [k - 1];
    }
  }

  lemma {:induction false} IndicesOfAll(jobs: nat -> Job, executed: seq<nat>, t: nat)
    requires Distinct(executed)
    ensures IndicesOf(AllCalls(jobs, executed), t) == if t in executed then Range(Size(jobs(t))) else []
  {
    if executed != [] {
      var n := |executed| - 1;
      var front, last := executed[..n], executed[n];
      assert executed == front + [last];
      IndicesOfAll(jobs, front, t);
      IndicesConcat(AllCalls(jobs, front), FirstCalls(last, Size(jobs(last))), t);
      IndicesOfFirst(last, Size(jobs(last)), t);
    }
  }

  lemma ExecutedApart(cap: nat, s: State)
    requires Inv(cap, s)
    ensures Distinct(s.executed)
    ensures s.worker.Running? ==> s.worker.callback !in s.executed && s.worker.callback in s.accepted
    ensures forall t | t in s.executed :: t in s.accepted
  {
    assert forall k | 0 <= k < |s.executed| :: s.executed[k] == s.accepted[k];
    if s.worker.Running? {
      assert s.accepted[|s.executed|] == s.worker.callback;
    }
  }

  /** In every state, the callback was invoked for a front part of a batch, once per record
      and in line order: for all of it once the dispatch's function has ended, and for none
      of it as long as the dispatch was not accepted. */
  lemma DeliveredOnce(cap: nat, jobs: nat -> Job, execs: seq<Exec>, moves: seq<Move>, i: nat, t: nat)
    returns (k: nat)
    requires Execution(cap, jobs, execs, moves) && i < |execs|
    ensures k <= Size(jobs(t)) && IndicesOf(execs[i].invoked, t) == Range(k)
    ensures t in execs[i].pipeline.executed ==> k == Size(jobs(t))
    ensures t !in execs[i].pipeline.accepted ==> k == 0
  {
    ExecutionKeepsInv(cap, jobs, execs, moves, i);
    var e := execs[i];
    var m :| Invoked(jobs, e, m);
    var s := e.pipeline;
    ExecutedApart(cap, s);
    IndicesOfAll(jobs, s.executed, t);
    k := if t in s.executed then Size(jobs(t)) else 0;
    if s.worker.Running? {
      IndicesConcat(AllCalls(jobs, s.executed), FirstCalls(s.worker.callback, m), t);
      IndicesOfFirst(s.worker.callback, m, t);
      if t == s.worker.callback {
        k := m;
      }
    }
  }

  /** ATTLOG delivery is all or nothing, whatever panics. Let t be the dispatch of the
      records parsed from a body, and let it have returned. If the request is answered 503,
      the callback is invoked for none of the records, in any state before or after. If it
      is answered OK, then once some Close call has returned the callback has been invoked
      exactly once per record, in line order. */
  lemma AttlogAllOrNothing(cap: nat, jobs: nat -> Job, execs: seq<Exec>, moves: seq<Move>, h: nat, i: nat,
                           t: nat, body: string, sn: string, zone: Zone, calendar: Attendance.Calendar)
    requires Execution(cap, jobs, execs, moves) && h < |execs| && i < |execs|
    requires t < |execs[h].pipeline.dispatchers| && execs[h].pipeline.dispatchers[t].Returned?
    requires jobs(t) == Batch(Attendance.Kept(Lines.BodyLines(body), sn, zone, calendar)) && jobs(t).records != []
    ensures var answer := Attendance.AttlogAnswer(jobs(t).records, true, execs[h].pipeline.dispatchers[t].ok);
            && (answer == Unavailable ==> IndicesOf(execs[i].invoked, t) == [])
            && (answer != Unavailable && (exists c :: c in execs[i].pipeline.closers && c == Closed) ==>
                  IndicesOf(execs[i].invoked, t) == Range(|jobs(t).records|))
  {
    var last := |execs| - 1;
    var s, s', s'' := execs[h].pipeline, execs[i].pipeline, execs[last].pipeline;
    ExecutionKeepsInv(cap, jobs, execs, moves, i);
    ExecutionKeepsInv(cap, jobs, execs, moves, last);
    ExecutionIsLater(cap, jobs, execs, moves, h, last);
    ExecutionIsLater(cap, jobs, execs, moves, i, last);
    var k := DeliveredOnce(cap, jobs, execs, moves, i, t);
    assert t in s''.accepted <==> s.dispatchers[t].ok;
    if exists c :: c in s'.closers && c == Closed {
      DrainedWhenClosed(cap, s', s'');
    }
  }

  lemma DrainedWhenClosed(cap: nat, s: State, s': State)
    requires Inv(cap, s) && Later(s, s') && Closed in s.closers
    ensures s.executed == s.accepted == s'.accepted
  {
    var c :| 0 <= c < |s.closers| && s.closers[c] == Closed;
    assert s.once == Finished;
  }

  // ----------------------------------------------------------------- the worker ends

  /** The work that is left on the stack. */
  function FrameWeight(job: Job, frame: Frame): nat {
    match frame
    case Guard => 1
    case Loop(k) => 1 + 4 * (if k < Size(job) then Size(job) - k else 0)
    case Callback => 2
  }

  function StackWeight(job: Job, stack: seq<Frame>): nat {
    if stack == [] then 0 else StackWeight(job, Pop(stack)) + FrameWeight(job, Top(stack))
  }

  function ExecWeight(jobs: nat -> Job, e: Exec): nat {
    if e.pipeline.worker.Running? then StackWeight(jobs(e.pipeline.worker.callback), e.stack) else 0
  }

  /** Every step inside a callback uses up some of the work on the stack. */
  lemma InsideDecreases(cap: nat, jobs: nat -> Job, e: Exec, move: Move)
    requires ExecInv(cap, jobs, e) && CanMove(cap, e, move) && !move.Pipeline?
    ensures var e' := After(cap, jobs, e, move);
            e'.pipeline == e.pipeline && ExecWeight(jobs, e') < ExecWeight(jobs, e)
  {
    var k: nat :| Invoked(jobs, e, k);
    var job := jobs(e.pipeline.worker.callback);
    if move == Advance && Top(e.stack).Loop? && k < Size(job) {
      assert Top(e.stack) == Loop(k);
      LoopDecreases(job, Pop(e.stack), k);
      assert e.stack == Pop(e.stack) + [Loop(k)];
    }
  }

  lemma LoopDecreases(job: Job, rest: seq<Frame>, k: nat)
    requires k < Size(job)
    ensures StackWeight(job, rest + [Loop(k + 1), Guard, Callback]) < StackWeight(job, rest + [Loop(k)])
  {
    PushWeight(job, rest, Loop(k));
    PushWeight(job, rest, Loop(k + 1));
    PushWeight(job, rest + [Loop(k + 1)], Guard);
    PushWeight(job, rest + [Loop(k + 1)] + [Guard], Callback);
    assert rest + [Loop(k + 1)] + [Guard] + [Callback] == rest + [Loop(k + 1), Guard, Callback];
  }

  lemma PushWeight(job: Job, stack: seq<Frame>, frame: Frame)
    ensures StackWeight(job, stack + [frame]) == StackWeight(job, stack) + FrameWeight(job, frame)
  {
    assert Pop(stack + [frame]) == stack;
  }

  /** And as long as a callback runs, the worker can take a step: so each batch ends, if
      each invocation returns or panics. */
  lemma WorkerNeverStuck(cap: nat, jobs: nat -> Job, e: Exec)
    requires ExecInv(cap, jobs, e) && e.pipeline.worker.Running?
    ensures CanMove(cap, e, Pipeline(ByWorker(Finish))) || CanMove(cap, e, Advance) || CanMove(cap, e, Unwind)
  {
  }
}
