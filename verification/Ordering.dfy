/** The order of ids within a queue when calls interleave. */
module Ordering {
  import opened Ownership
  import opened Text
  import opened Types
  import opened ServerState
  import opened Lifecycle

  const TWO_HELD: map<nat, Call> := map[0 := Holding("A", "INFO", 1), 1 := Holding("A", "INFO", 2)]

  lemma TwoTaken(limits: Limits) returns (states: seq<Sys>, steps: seq<Step>)
    requires limits == Limits(0, 0, 10)
    ensures Run(limits, states, steps)
    ensures var s := states[|steps|]; s.tables == A_REGISTERED.(cmdID := 2) && s.calls == TWO_HELD
  {
    states, steps := CheckedRun(limits);
    var s2 := START.(tables := A_REGISTERED, calls := A_CHECKED);
    var s3 := Next(limits, s2, Check(1, "A", "INFO"));
    states, steps := Extended(limits, states, steps, Check(1, "A", "INFO"), s3);
    var s4 := Next(limits, s3, Take(0));
    states, steps := Extended(limits, states, steps, Take(0), s4);
    var s5 := Next(limits, s4, Take(1));
    states, steps := Extended(limits, states, steps, Take(1), s5);
    assert s5.calls == TWO_HELD;
  }

  lemma AppendsBackwards(limits: Limits, s: Sys)
    requires limits == Limits(0, 0, 10) && s.tables == A_REGISTERED.(cmdID := 2) && s.calls == TWO_HELD
    ensures var s' := DoEnqueue(limits, s, 1);
            && Enabled(s', Enqueue(0))
            && Queue(DoEnqueue(limits, s', 0).tables, "A") == [CommandEntry(2, "INFO"), CommandEntry(1, "INFO")]
  {
    var s' := DoEnqueue(limits, s, 1);
    assert Queue(s'.tables, "A") == [CommandEntry(2, "INFO")];
  }

  /** Two calls may take their ids in one order and append in the other, so an interleaved
      queue is not always in ascending order. */
  lemma UnsortedReachable() returns (limits: Limits, states: seq<Sys>, steps: seq<Step>)
    ensures Run(limits, states, steps) && !Ascending(Queue(states[|steps|].tables, "A"))
  {
    limits := Limits(0, 0, 10);
    states, steps := TwoTaken(limits);
    var s5 := states[|steps|];
    AppendsBackwards(limits, s5);
    var s6 := Next(limits, s5, Enqueue(1));
    states, steps := Extended(limits, states, steps, Enqueue(1), s6);
    var s7 := Next(limits, s6, Enqueue(0));
    states, steps := Extended(limits, states, steps, Enqueue(0), s7);
    var queue := Queue(s7.tables, "A");
    assert queue[0].id == 2 && queue[1].id == 1;
  }

  // ------------------------------------------------------------- no overtaking

  /** The call has taken an id for the device and not yet appended. */
  predicate HoldsFor(s: Sys, t: nat, sn: string) {
    t in s.calls && s.calls[t].Holding? && s.calls[t].sn == sn
  }

  /** No call takes an id for the device while another call holds one. */
  ghost predicate OneAtATime(states: seq<Sys>, steps: seq<Step>, sn: string)
    requires |states| > |steps|
  {
    forall i, u {:trigger steps[i], HoldsFor(states[i], u, sn)} | 0 <= i < |steps| && HoldsFor(states[i], u, sn) ::
      !TakesFor(states[i], steps[i], sn)
  }

  predicate TakesFor(s: Sys, step: Step, sn: string) {
    step.Take? && step.t in s.calls && s.calls[step.t].sn == sn
  }

  /** The queue is ascending, and at most one id is about to be appended: a larger one. */
  ghost predicate Calm(s: Sys, sn: string) {
    && Ascending(Queue(s.tables, sn))
    && (forall t | HoldsFor(s, t, sn) :: forall e | e in Queue(s.tables, sn) :: e.id < s.calls[t].id)
    && (forall t, u | HoldsFor(s, t, sn) && HoldsFor(s, u, sn) :: t == u)
  }

  lemma TakeKeepsCalm(limits: Limits, s: Sys, t: nat, sn: string)
    requires Inv(limits, s) && Enabled(s, Take(t)) && Calm(s, sn)
    requires TakesFor(s, Take(t), sn) ==> forall u :: !HoldsFor(s, u, sn)
    ensures Calm(DoTake(s, t), sn)
  {
    var s' := DoTake(s, t);
    assert Queue(s'.tables, sn) == Queue(s.tables, sn);
    forall e | e in Queue(s.tables, sn)
      ensures e.id <= s.tables.cmdID
    {
      assert EntryInv(s, sn, e);
    }
    assert forall u | u != t :: HoldsFor(s', u, sn) <==> HoldsFor(s, u, sn);
  }

  lemma EnqueueKeepsCalm(limits: Limits, s: Sys, t: nat, sn: string)
    requires Inv(limits, s) && Enabled(s, Enqueue(t)) && Calm(s, sn)
    ensures Calm(DoEnqueue(limits, s, t), sn)
  {
    var s' := DoEnqueue(limits, s, t);
    assert forall u | HoldsFor(s', u, sn) :: HoldsFor(s, u, sn) && u != t;
    if s.calls[t].sn == sn {
      assert HoldsFor(s, t, sn);
      if HasRoom(limits, s.tables, sn) {
        assert Queue(s'.tables, sn) == Queue(s.tables, sn) + [CommandEntry(s.calls[t].id, s.calls[t].cmd)];
      }
    } else {
      assert Queue(s'.tables, sn) == Queue(s.tables, sn);
    }
  }

  lemma OthersKeepCalm(limits: Limits, s: Sys, step: Step, sn: string)
    requires Enabled(s, step) && Calm(s, sn) && !step.Take? && !step.Enqueue?
    ensures Calm(Next(limits, s, step), sn)
  {
    var s' := Next(limits, s, step);
    if TouchesNoCommand(step) {
      OtherFrame(limits, s, step);
    }
    assert Queue(s'.tables, sn) == Queue(s.tables, sn) || Queue(s'.tables, sn) == [];
    assert forall u | HoldsFor(s', u, sn) :: HoldsFor(s, u, sn) && s'.calls[u] == s.calls[u];
  }

  lemma {:induction false} RunKeepsCalm(limits: Limits, states: seq<Sys>, steps: seq<Step>, k: nat, sn: string)
    requires Run(limits, states, steps) && OneAtATime(states, steps, sn) && k < |states|
    ensures Calm(states[k], sn)
  {
    if k > 0 {
      RunKeepsCalm(limits, states, steps, k - 1, sn);
      RunKeepsInv(limits, states, steps, k - 1);
      var s, step := states[k - 1], steps[k - 1];
      if step.Take? {
        assert TakesFor(s, step, sn) ==> forall u :: !HoldsFor(s, u, sn);
        TakeKeepsCalm(limits, s, step.t, sn);
      } else if step.Enqueue? {
        EnqueueKeepsCalm(limits, s, step.t, sn);
      } else {
        OthersKeepCalm(limits, s, step, sn);
      }
    }
  }

  /** If no call takes an id for a device while another one holds one, the device's queue
      is in ascending order in every state. */
  lemma AscendingUnlessOvertaken(limits: Limits, states: seq<Sys>, steps: seq<Step>, k: nat, sn: string)
    requires Run(limits, states, steps) && OneAtATime(states, steps, sn) && k < |states|
    ensures Ascending(Queue(states[k].tables, sn))
  {
    RunKeepsCalm(limits, states, steps, k, sn);
  }

  // ----------------------------------------------------- when calls can overtake

  /** Calls that hold ids for a device append one after the other. */
  ghost predicate Appends(limits: Limits, states: seq<Sys>, ts: seq<nat>, sn: string) {
    && |states| == |ts| + 1
    && (forall i | 0 <= i < |ts| :: HoldsFor(states[0], ts[i], sn))
    && forall i {:trigger ts[i]} | 0 <= i < |ts| ::
         Enabled(states[i], Enqueue(ts[i])) && states[i + 1] == DoEnqueue(limits, states[i], ts[i])
  }

  /** Some order of appends leaves the queue unsorted. */
  ghost predicate CanBreak(limits: Limits, s: Sys, sn: string) {
    exists states: seq<Sys>, ts: seq<nat> ::
      Appends(limits, states, ts, sn) && states[0] == s && !Ascending(Queue(states[|ts|].tables, sn))
  }

  /** The limit leaves room for n more commands. */
  predicate RoomFor(limits: Limits, s: Sys, sn: string, n: nat) {
    limits.maxCommandsPerDevice == 0 || Load(s.tables, sn) + n <= limits.maxCommandsPerDevice
  }

  /** The call holds an id that is below the last one in the queue. */
  predicate HoldsBelow(s: Sys, t: nat, sn: string) {
    && HoldsFor(s, t, sn)
    && var queue := Queue(s.tables, sn);
       queue != [] && s.calls[t].id < queue[|queue| - 1].id
  }

  ghost predicate TwoHold(s: Sys, sn: string) {
    exists t: nat, u: nat :: t != u && HoldsFor(s, t, sn) && HoldsFor(s, u, sn)
  }

  function EntryOf(call: Call): CommandEntry
    requires call.Holding?
  {
    CommandEntry(call.id, call.cmd)
  }

  /** What one append does, when there is room for it and when not. */
  lemma OneAppend(limits: Limits, s: Sys, t: nat, sn: string)
    requires HoldsFor(s, t, sn)
    ensures var s' := DoEnqueue(limits, s, t);
            && s'.calls == s.calls - {t}
            && Queue(s'.tables, sn) ==
               Queue(s.tables, sn) + (if RoomFor(limits, s, sn, 1) then [EntryOf(s.calls[t])] else [])
            && Load(s'.tables, sn) == Load(s.tables, sn) + if RoomFor(limits, s, sn, 1) then 1 else 0
  {
    AppendLoad(s.tables, sn, EntryOf(s.calls[t]), sn);
  }

  lemma {:induction false} StillHeld(limits: Limits, states: seq<Sys>, ts: seq<nat>, sn: string, i: nat)
    requires Appends(limits, states, ts, sn) && i <= |ts|
    ensures forall t | t in states[i].calls :: t in states[0].calls && states[i].calls[t] == states[0].calls[t]
  {
    if i > 0 {
      StillHeld(limits, states, ts, sn, i - 1);
      assert states[i] == DoEnqueue(limits, states[i - 1], ts[i - 1]);
    }
  }

  /** What the first i appends add to the queue. */
  lemma {:induction false} AppendsSoFar(limits: Limits, states: seq<Sys>, ts: seq<nat>, sn: string, i: nat)
    returns (added: seq<CommandEntry>)
    requires Appends(limits, states, ts, sn) && i <= |ts|
    ensures Queue(states[i].tables, sn) == Queue(states[0].tables, sn) + added
    ensures Load(states[i].tables, sn) == Load(states[0].tables, sn) + |added|
    ensures |added| <= i && (added == [] || RoomFor(limits, states[0], sn, |added|))
    ensures |added| == 1 ==> exists t :: HoldsFor(states[0], t, sn) && added == [EntryOf(states[0].calls[t])]
  {
    added := [];
    if i > 0 {
      var before := AppendsSoFar(limits, states, ts, sn, i - 1);
      var t := ts[i - 1];
      StillHeld(limits, states, ts, sn, i - 1);
      var entry := OneMoreAppend(limits, states[i - 1], t, sn, EntryOf(states[0].calls[t]), states[i]);
      added := before + entry;
    }
  }

  lemma OneMoreAppend(limits: Limits, s: Sys, t: nat, sn: string, entry: CommandEntry, s': Sys)
    returns (added: seq<CommandEntry>)
    requires HoldsFor(s, t, sn) && EntryOf(s.calls[t]) == entry && s' == DoEnqueue(limits, s, t)
    ensures added == if RoomFor(limits, s, sn, 1) then [entry] else []
    ensures Queue(s'.tables, sn) == Queue(s.tables, sn) + added
    ensures Load(s'.tables, sn) == Load(s.tables, sn) + |added|
  {
    OneAppend(limits, s, t, sn);
    added := if RoomFor(limits, s, sn, 1) then [entry] else [];
  }

  lemma Unsorted(queue: seq<CommandEntry>, i: nat)
    requires i + 1 < |queue| && queue[i].id >= queue[i + 1].id
    ensures !Ascending(queue)
  {
  }

  lemma BreaksByOne(limits: Limits, s: Sys, t: nat, sn: string)
    requires HoldsBelow(s, t, sn) && RoomFor(limits, s, sn, 1)
    ensures CanBreak(limits, s, sn)
  {
    var s', queue := DoEnqueue(limits, s, t), Queue(s.tables, sn);
    OneAppend(limits, s, t, sn);
    Unsorted(Queue(s'.tables, sn), |queue| - 1);
    assert Appends(limits, [s, s'], [t], sn);
  }

  lemma BreaksByTwo(limits: Limits, s: Sys, t: nat, u: nat, sn: string)
    requires HoldsFor(s, t, sn) && HoldsFor(s, u, sn) && s.calls[t].id < s.calls[u].id
    requires RoomFor(limits, s, sn, 2)
    ensures CanBreak(limits, s, sn)
  {
    var s1 := DoEnqueue(limits, s, u);
    OneAppend(limits, s, u, sn);
    OneAppend(limits, s1, t, sn);
    var s2, queue := DoEnqueue(limits, s1, t), Queue(s.tables, sn);
    assert Queue(s2.tables, sn) == queue + [EntryOf(s.calls[u])] + [EntryOf(s.calls[t])];
    Unsorted(Queue(s2.tables, sn), |queue|);
    assert Appends(limits, [s, s1, s2], [u, t], sn);
  }

  lemma TwoAppended(states: seq<Sys>, ts: seq<nat>, sn: string, limits: Limits)
    requires Appends(limits, states, ts, sn) && |ts| >= 2
    ensures TwoHold(states[0], sn)
  {
    OneAppend(limits, states[0], ts[0], sn);
    assert ts[1] != ts[0] && HoldsFor(states[0], ts[0], sn) && HoldsFor(states[0], ts[1], sn);
  }

  lemma OnlyThenBreaks(limits: Limits, s: Sys, sn: string)
    requires Inv(limits, s) && Ascending(Queue(s.tables, sn)) && CanBreak(limits, s, sn)
    ensures || (RoomFor(limits, s, sn, 1) && exists t :: HoldsBelow(s, t, sn))
            || (RoomFor(limits, s, sn, 2) && TwoHold(s, sn))
  {
    var states: seq<Sys>, ts: seq<nat> :|
      Appends(limits, states, ts, sn) && states[0] == s && !Ascending(Queue(states[|ts|].tables, sn));
    OnlyThen(limits, states, ts, sn);
  }

  lemma OnlyThen(limits: Limits, states: seq<Sys>, ts: seq<nat>, sn: string)
    requires Appends(limits, states, ts, sn) && Inv(limits, states[0])
    requires Ascending(Queue(states[0].tables, sn)) && !Ascending(Queue(states[|ts|].tables, sn))
    ensures || (RoomFor(limits, states[0], sn, 1) && exists t :: HoldsBelow(states[0], t, sn))
            || (RoomFor(limits, states[0], sn, 2) && TwoHold(states[0], sn))
  {
    var added := AppendsSoFar(limits, states, ts, sn, |ts|);
    if |added| >= 2 {
      TwoAppended(states, ts, sn, limits);
    } else {
      OneAdded(limits, states[0], sn, added);
    }
  }

  lemma OneAdded(limits: Limits, s: Sys, sn: string, added: seq<CommandEntry>)
    requires Inv(limits, s) && Ascending(Queue(s.tables, sn)) && !Ascending(Queue(s.tables, sn) + added)
    requires |added| < 2
    requires |added| == 1 ==> exists t :: HoldsFor(s, t, sn) && added == [EntryOf(s.calls[t])]
    ensures |added| == 1 && exists t :: HoldsBelow(s, t, sn)
  {
    assert added == [] ==> Queue(s.tables, sn) + added == Queue(s.tables, sn);
    var t :| HoldsFor(s, t, sn) && added == [EntryOf(s.calls[t])];
    LastIsAbove(limits, s, t, sn);
  }

  lemma LastIsAbove(limits: Limits, s: Sys, t: nat, sn: string)
    requires Inv(limits, s) && HoldsFor(s, t, sn) && Ascending(Queue(s.tables, sn))
    requires !Ascending(Queue(s.tables, sn) + [EntryOf(s.calls[t])])
    ensures HoldsBelow(s, t, sn)
  {
    var queue := Queue(s.tables, sn);
    if queue != [] {
      var last := queue[|queue| - 1];
      assert last in queue && EntryInv(s, sn, last);
      assert forall i | 0 <= i < |queue| :: queue[i].id <= last.id;
    }
  }

  /** From a reachable state with an ascending queue, some order of appends by the calls
      that now hold ids breaks the order exactly when there is room for one and a held id
      is below the last queued one, or there is room for two and two calls hold ids. */
  lemma CanBreakExactly(limits: Limits, states: seq<Sys>, steps: seq<Step>, k: nat, sn: string)
    requires Run(limits, states, steps) && k < |states| && Ascending(Queue(states[k].tables, sn))
    ensures var s := states[k];
            CanBreak(limits, s, sn) <==>
              || (RoomFor(limits, s, sn, 1) && exists t :: HoldsBelow(s, t, sn))
              || (RoomFor(limits, s, sn, 2) && TwoHold(s, sn))
  {
    var s := states[k];
    RunKeepsInv(limits, states, steps, k);
    if CanBreak(limits, s, sn) {
      OnlyThenBreaks(limits, s, sn);
    } else if t :| RoomFor(limits, s, sn, 1) && HoldsBelow(s, t, sn) {
      BreaksByOne(limits, s, t, sn);
    } else if RoomFor(limits, s, sn, 2) && TwoHold(s, sn) {
      var t: nat, u: nat :| t != u && HoldsFor(s, t, sn) && HoldsFor(s, u, sn);
      if s.calls[t].id < s.calls[u].id {
        BreaksByTwo(limits, s, t, u, sn);
      } else {
        BreaksByTwo(limits, s, u, t, sn);
      }
    }
  }
}
