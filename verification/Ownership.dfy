/** Which interleavings leave a command without a registered device, and which take the
    commands of a registered one. */
module Ownership {
  import Wrappers
  import opened Text
  import opened Types
  import opened ServerState
  import opened Lifecycle

  // ----------------------------------------------------------------- ownership

  /** Registered, or between the two phases of its eviction. */
  predicate Known(s: Sys, sn: string) {
    sn in s.tables.devices || (s.eviction.Sweeping? && sn in s.eviction.stale)
  }

  ghost predicate Owned(s: Sys) {
    forall sn | HasCommands(s.tables, sn) :: Known(s, sn)
  }

  /** The append of a command for a device that was evicted after the existence check. */
  predicate Orphans(limits: Limits, s: Sys, step: Step) {
    step.Enqueue? && step.t in s.calls && s.calls[step.t].Holding?
    && HasRoom(limits, s.tables, s.calls[step.t].sn) && !Known(s, s.calls[step.t].sn)
  }

  /** Only an append gives commands to a device that has none. */
  lemma NoNewCommands(limits: Limits, s: Sys, step: Step, sn: string)
    requires Inv(limits, s) && Enabled(s, step) && !step.Enqueue?
    ensures HasCommands(Next(limits, s, step).tables, sn) ==> HasCommands(s.tables, sn)
  {
    var s' := Next(limits, s, step);
    if step.DrainStep? {
      BatchNotPending(limits, s, step.sn);
      DrainedPending(s.tables, step.sn, sn);
    } else if step.Delete? {
      assert PendingOf(s'.tables.pending, sn) <= PendingOf(s.tables.pending, sn);
    } else if step.SweepQueuesStep? {
      SweptCommands(s.tables, s.eviction.stale, sn);
    } else if TouchesNoCommand(step) {
      OtherFrame(limits, s, step);
    }
  }

  /** Phase 2 takes all commands of the stale devices and no others. */
  lemma SweptCommands(tables: State, stale: set<string>, sn: string)
    ensures var swept := SweepQueues(tables, stale);
            if sn in stale then !HasCommands(swept, sn)
            else Queue(swept, sn) == Queue(tables, sn) && PendingOf(swept.pending, sn) == PendingOf(tables.pending, sn)
  {
    var swept := SweepQueues(tables, stale);
    assert PendingOf(swept.pending, sn) == if sn in stale then {} else PendingOf(tables.pending, sn);
  }

  lemma SweepKeepsOwned(limits: Limits, s: Sys)
    requires Inv(limits, s) && Owned(s) && Enabled(s, SweepQueuesStep)
    ensures Owned(DoSweepQueues(s))
  {
    forall sn | HasCommands(DoSweepQueues(s).tables, sn)
      ensures sn !in s.eviction.stale && HasCommands(s.tables, sn)
    {
      SweptCommands(s.tables, s.eviction.stale, sn);
    }
  }

  lemma OthersKeepOwned(limits: Limits, s: Sys, step: Step)
    requires Inv(limits, s) && Owned(s) && Enabled(s, step) && !step.Enqueue? && !step.SweepQueuesStep?
    ensures Owned(Next(limits, s, step))
  {
    forall sn | HasCommands(Next(limits, s, step).tables, sn)
      ensures HasCommands(s.tables, sn)
    {
      NoNewCommands(limits, s, step, sn);
    }
  }

  lemma EnqueueOwned(limits: Limits, s: Sys, t: nat)
    requires Owned(s) && Enabled(s, Enqueue(t))
    ensures Owned(DoEnqueue(limits, s, t)) <==> !Orphans(limits, s, Enqueue(t))
  {
    var s', sn := DoEnqueue(limits, s, t), s.calls[t].sn;
    if HasRoom(limits, s.tables, sn) {
      assert HasCommands(s'.tables, sn);
      assert forall other | other != sn && HasCommands(s'.tables, other) :: HasCommands(s.tables, other);
    } else {
      assert forall other | HasCommands(s'.tables, other) :: HasCommands(s.tables, other);
    }
  }

  /** Commands stop being owned by known devices at exactly one kind of step: an append
      for a device that is no longer registered. */
  lemma OwnedUnlessOrphaned(limits: Limits, s: Sys, step: Step)
    requires Inv(limits, s) && Owned(s) && Enabled(s, step)
    ensures Owned(Next(limits, s, step)) <==> !Orphans(limits, s, step)
  {
    if step.Enqueue? {
      EnqueueOwned(limits, s, step.t);
    } else if step.SweepQueuesStep? {
      SweepKeepsOwned(limits, s);
    } else {
      OthersKeepOwned(limits, s, step);
    }
  }

  // ------------------------------------------------- ownership by registered devices

  /** Every command belongs to a registered device. */
  ghost predicate OwnedByRegistered(s: Sys) {
    forall sn | HasCommands(s.tables, sn) :: sn in s.tables.devices
  }

  /** The append of a command for a device that is not registered. */
  predicate AppendsUnregistered(limits: Limits, s: Sys, step: Step) {
    step.Enqueue? && step.t in s.calls && s.calls[step.t].Holding?
    && HasRoom(limits, s.tables, s.calls[step.t].sn) && s.calls[step.t].sn !in s.tables.devices
  }

  /** Phase 1 of an eviction removes a device that has commands. */
  ghost predicate SweepsOwner(limits: Limits, s: Sys, step: Step) {
    step.SweepDevicesStep? && exists sn :: sn in Stale(limits, s.tables, step.now) && HasCommands(s.tables, sn)
  }

  lemma AppendOwnedByRegistered(limits: Limits, s: Sys, t: nat)
    requires OwnedByRegistered(s) && Enabled(s, Enqueue(t))
    ensures OwnedByRegistered(DoEnqueue(limits, s, t)) <==> !AppendsUnregistered(limits, s, Enqueue(t))
  {
    var s', sn := DoEnqueue(limits, s, t), s.calls[t].sn;
    if HasRoom(limits, s.tables, sn) {
      assert HasCommands(s'.tables, sn);
      assert forall other | other != sn && HasCommands(s'.tables, other) :: HasCommands(s.tables, other);
    } else {
      assert forall other | HasCommands(s'.tables, other) :: HasCommands(s.tables, other);
    }
  }

  lemma SweepOwnedByRegistered(limits: Limits, s: Sys, now: int)
    requires OwnedByRegistered(s) && Enabled(s, SweepDevicesStep(now))
    ensures OwnedByRegistered(DoSweepDevices(limits, s, now)) <==> !SweepsOwner(limits, s, SweepDevicesStep(now))
  {
    var s' := DoSweepDevices(limits, s, now);
    assert forall sn :: HasCommands(s'.tables, sn) <==> HasCommands(s.tables, sn);
  }

  /** Commands stop being owned by registered devices at exactly two kinds of step: an
      append for a device that is not registered, and phase 1 of an eviction of a device
      that has commands. */
  lemma OwnedByRegisteredUnless(limits: Limits, s: Sys, step: Step)
    requires Inv(limits, s) && OwnedByRegistered(s) && Enabled(s, step)
    ensures OwnedByRegistered(Next(limits, s, step)) <==>
            !AppendsUnregistered(limits, s, step) && !SweepsOwner(limits, s, step)
  {
    if step.Enqueue? {
      AppendOwnedByRegistered(limits, s, step.t);
    } else if step.SweepDevicesStep? {
      SweepOwnedByRegistered(limits, s, step.now);
    } else {
      forall sn | HasCommands(Next(limits, s, step).tables, sn)
        ensures sn in Next(limits, s, step).tables.devices
      {
        NoNewCommands(limits, s, step, sn);
      }
    }
  }

  // --------------------------------------------- registered again between the phases

  /** Phase 1 at step i removes the device, it registers again at step m, and no phase 2
      has run between step i and step k. */
  ghost predicate RegisteredAgain(limits: Limits, states: seq<Sys>, steps: seq<Step>, i: nat, m: nat, k: nat,
                                  sn: string)
  {
    && i < m < k <= |steps| < |states|
    && steps[i].SweepDevicesStep? && sn in Stale(limits, states[i].tables, steps[i].now)
    && steps[m].RegisterStep? && steps[m].sn == sn && sn !in states[m].tables.devices
    && forall j | i < j < k :: steps[j] != SweepQueuesStep
  }

  /** Where the eviction that is under way began. */
  lemma {:induction false} PhaseOne(limits: Limits, states: seq<Sys>, steps: seq<Step>, k: nat) returns (i: nat)
    requires Run(limits, states, steps) && k < |states| && states[k].eviction.Sweeping?
    ensures i < k && steps[i].SweepDevicesStep?
    ensures states[k].eviction.stale == Stale(limits, states[i].tables, steps[i].now)
    ensures forall j | i < j < k :: steps[j] != SweepQueuesStep
  {
    if steps[k - 1].SweepDevicesStep? {
      i := k - 1;
      EvictionBegins(limits, states[i], steps[i].now);
    } else {
      EvictionStays(limits, states[k - 1], steps[k - 1]);
      i := PhaseOne(limits, states, steps, k - 1);
    }
  }

  lemma EvictionBegins(limits: Limits, s: Sys, now: int)
    ensures var s', stale := DoSweepDevices(limits, s, now), Stale(limits, s.tables, now);
            && s'.tables.devices == s.tables.devices - stale
            && (s'.eviction.Sweeping? ==> s'.eviction.stale == stale)
  {
  }

  lemma EvictionStays(limits: Limits, s: Sys, step: Step)
    requires Enabled(s, step) && !step.SweepDevicesStep?
    ensures Next(limits, s, step).eviction == if step.SweepQueuesStep? then Idle else s.eviction
  {
  }

  /** The latest registration of a device that was not there at step i. */
  lemma {:induction false} RegisteredSince(limits: Limits, states: seq<Sys>, steps: seq<Step>, i: nat, k: nat,
                                           sn: string)
    returns (m: nat)
    requires Run(limits, states, steps) && i <= k < |states|
    requires sn !in states[i].tables.devices && sn in states[k].tables.devices
    ensures i <= m < k && steps[m].RegisterStep? && steps[m].sn == sn && sn !in states[m].tables.devices
  {
    if sn in states[k - 1].tables.devices {
      m := RegisteredSince(limits, states, steps, i, k - 1, sn);
    } else {
      m := k - 1;
      OnlyRegistrationAdds(limits, states[m], steps[m], sn);
    }
  }

  lemma OnlyRegistrationAdds(limits: Limits, s: Sys, step: Step, sn: string)
    requires Enabled(s, step) && sn !in s.tables.devices && sn in Next(limits, s, step).tables.devices
    ensures step.RegisterStep? && step.sn == sn
  {
  }

  lemma {:induction false} SweepingOn(limits: Limits, states: seq<Sys>, steps: seq<Step>, i: nat, k: nat, sn: string)
    requires Run(limits, states, steps) && i < k < |states|
    requires steps[i].SweepDevicesStep? && sn in Stale(limits, states[i].tables, steps[i].now)
    requires forall j | i < j < k :: steps[j] != SweepQueuesStep
    ensures states[k].eviction == Sweeping(Stale(limits, states[i].tables, steps[i].now))
  {
    if k > i + 1 {
      SweepingOn(limits, states, steps, i, k - 1, sn);
      EvictionStays(limits, states[k - 1], steps[k - 1]);
    }
  }

  /** Phase 2 of an eviction takes the commands of a registered device exactly when the
      device registered again after phase 1 had removed it; otherwise it leaves them. */
  lemma RegisteredDeviceSwept(limits: Limits, states: seq<Sys>, steps: seq<Step>, k: nat, sn: string)
    requires Run(limits, states, steps) && k < |steps| && steps[k] == SweepQueuesStep
    requires sn in states[k].tables.devices && HasCommands(states[k].tables, sn)
    ensures sn in states[k + 1].tables.devices
    ensures !HasCommands(states[k + 1].tables, sn) <==>
            exists i: nat, m: nat :: RegisteredAgain(limits, states, steps, i, m, k, sn)
    ensures HasCommands(states[k + 1].tables, sn) ==>
              && Queue(states[k + 1].tables, sn) == Queue(states[k].tables, sn)
              && PendingOf(states[k + 1].tables.pending, sn) == PendingOf(states[k].tables.pending, sn)
  {
    var s := states[k];
    SweptCommands(s.tables, s.eviction.stale, sn);
    if sn in s.eviction.stale {
      var i := PhaseOne(limits, states, steps, k);
      EvictionBegins(limits, states[i], steps[i].now);
      var m := RegisteredSince(limits, states, steps, i + 1, k, sn);
      assert RegisteredAgain(limits, states, steps, i, m, k, sn);
    } else if i: nat, m: nat :| RegisteredAgain(limits, states, steps, i, m, k, sn) {
      SweepingOn(limits, states, steps, i, k, sn);
    }
  }

  const A_CHECKED: map<nat, Call> := map[0 := Checked("A", "INFO")]

  const A_REGISTERED: State := EMPTY.(devices := map["A" := DeviceInfo(0, map[], Wrappers.None)])

  lemma CheckedRun(limits: Limits) returns (states: seq<Sys>, steps: seq<Step>)
    requires limits == Limits(0, 0, 10)
    ensures Run(limits, states, steps) && states[|steps|] == START.(tables := A_REGISTERED, calls := A_CHECKED)
  {
    var s1 := START.(tables := A_REGISTERED);
    states, steps := Extended(limits, [START], [], RegisterStep("A", 0, []), s1);
    states, steps := Extended(limits, states, steps, Check(0, "A", "INFO"), s1.(calls := A_CHECKED));
  }

  lemma SweepsA(limits: Limits)
    requires limits == Limits(0, 0, 10)
    ensures var s2 := START.(tables := A_REGISTERED, calls := A_CHECKED);
            var s3 := START.(calls := A_CHECKED, eviction := Sweeping({"A"}));
            && DoSweepDevices(limits, s2, 11) == s3
            && DoSweepQueues(s3) == START.(calls := A_CHECKED)
  {
    var s2 := START.(tables := A_REGISTERED, calls := A_CHECKED);
    var s3 := START.(calls := A_CHECKED, eviction := Sweeping({"A"}));
    assert Stale(limits, s2.tables, 11) == {"A"};
    assert SweepDevices(s2.tables, {"A"}) == EMPTY;
    assert SweepQueues(EMPTY, {"A"}) == EMPTY;
  }

  /** A device is evicted after a call has found it registered. */
  lemma EvictedAfterCheck(limits: Limits) returns (states: seq<Sys>, steps: seq<Step>)
    requires limits == Limits(0, 0, 10)
    ensures Run(limits, states, steps) && states[|steps|] == START.(calls := A_CHECKED)
  {
    states, steps := CheckedRun(limits);
    SweepsA(limits);
    states, steps := Extended(limits, states, steps, SweepDevicesStep(11),
                              START.(calls := A_CHECKED, eviction := Sweeping({"A"})));
    states, steps := Extended(limits, states, steps, SweepQueuesStep, START.(calls := A_CHECKED));
  }

  /** And that step is reachable: the append comes after the eviction. */
  lemma OrphanReachable() returns (limits: Limits, states: seq<Sys>, steps: seq<Step>)
    ensures Run(limits, states, steps) && !Owned(states[|steps|])
  {
    limits := Limits(0, 0, 10);
    states, steps := EvictedAfterCheck(limits);
    var s5 := Next(limits, states[|steps|], Take(0));
    states, steps := Extended(limits, states, steps, Take(0), s5);
    var s6 := Next(limits, s5, Enqueue(0));
    states, steps := Extended(limits, states, steps, Enqueue(0), s6);
    assert Queue(s6.tables, "A") != [];
    assert HasCommands(s6.tables, "A") && !Known(s6, "A");
  }

  /** The device is removed by phase 1 and registers again before phase 2. */
  lemma RegistersAgain(limits: Limits) returns (states: seq<Sys>, steps: seq<Step>)
    requires limits == Limits(0, 0, 10)
    ensures Run(limits, states, steps)
    ensures var tables := EMPTY.(devices := map["A" := DeviceInfo(11, map[], Wrappers.None)]);
            states[|steps|] == START.(tables := tables, eviction := Sweeping({"A"}))
  {
    var s1 := START.(tables := A_REGISTERED);
    var s2 := START.(eviction := Sweeping({"A"}));
    var tables := EMPTY.(devices := map["A" := DeviceInfo(11, map[], Wrappers.None)]);
    states, steps := Extended(limits, [START], [], RegisterStep("A", 0, []), s1);
    assert Stale(limits, s1.tables, 11) == {"A"};
    assert SweepDevices(s1.tables, {"A"}) == EMPTY;
    states, steps := Extended(limits, states, steps, SweepDevicesStep(11), s2);
    states, steps := Extended(limits, states, steps, RegisterStep("A", 11, []), s2.(tables := tables));
  }

  /** Check, take and append in a row for device A. */
  lemma AcceptsForA(limits: Limits, s: Sys) returns (s1: Sys, s2: Sys, s3: Sys)
    requires limits == Limits(0, 0, 10) && "A" in s.tables.devices && 0 !in s.calls
    requires Queue(s.tables, "A") == [] && s.tables.cmdID == 0
    ensures s1 == DoCheck(s, 0, "A", "INFO")
    ensures Enabled(s1, Take(0)) && s2 == DoTake(s1, 0)
    ensures Enabled(s2, Enqueue(0)) && s3 == DoEnqueue(limits, s2, 0)
    ensures s3.tables.devices == s.tables.devices && s3.eviction == s.eviction
    ensures Queue(s3.tables, "A") == [CommandEntry(1, "INFO")]
  {
    s1 := DoCheck(s, 0, "A", "INFO");
    s2 := DoTake(s1, 0);
    s3 := DoEnqueue(limits, s2, 0);
  }

  /** A command that was accepted for a registered device is swept although the device is
      registered. */
  lemma AcceptedAndSwept() returns (limits: Limits, states: seq<Sys>, steps: seq<Step>)
    ensures Run(limits, states, steps) && |steps| > 0 && steps[|steps| - 1] == SweepQueuesStep
    ensures var s, s' := states[|steps| - 1], states[|steps|];
            && "A" in s.tables.devices && Queue(s.tables, "A") == [CommandEntry(1, "INFO")]
            && "A" in s'.tables.devices && !HasCommands(s'.tables, "A")
  {
    limits := Limits(0, 0, 10);
    states, steps := RegistersAgain(limits);
    var s4, s5, s6 := AcceptsForA(limits, states[|steps|]);
    states, steps := Extended(limits, states, steps, Check(0, "A", "INFO"), s4);
    states, steps := Extended(limits, states, steps, Take(0), s5);
    states, steps := Extended(limits, states, steps, Enqueue(0), s6);
    var s7 := DoSweepQueues(s6);
    SweptCommands(s6.tables, {"A"}, "A");
    states, steps := Extended(limits, states, steps, SweepQueuesStep, s7);
  }
}
