/** The two views of the tables agree: the steps of module Lifecycle, taken without
    interruption, are the operations of module AtomicOps that the server's methods run. */
module Uninterrupted {
  import opened Text
  import opened Types
  import opened ServerState
  import opened Lifecycle
  import AtomicOps
  import Confirmation

  /** Check, take and append in a row are QueueCommand: same tables, same answer, and the
      id of a refused call is used up. A call that fails the field check or the existence
      check ends there. */
  lemma QueueInThreeSteps(limits: Limits, s: Sys, t: nat, sn: string, cmd: string)
    requires t !in s.calls
    ensures var s1 := DoCheck(s, t, sn, cmd);
            var (tables, r) := AtomicOps.QueueCommand(limits, s.tables, sn, cmd);
            if t !in s1.calls then
              && s1 == s && tables == s.tables
              && r == Err(if NoLineBreak(cmd) then DeviceNotFound else InvalidCommandField)
            else
              && Enabled(s1, Take(t)) && Enabled(DoTake(s1, t), Enqueue(t))
              && var s3 := DoEnqueue(limits, DoTake(s1, t), t);
                 && s3.tables == tables && s3.calls == s.calls
                 && (r.Ok? ==> r.value in s3.issued && s3.issued[r.value] == Issue(sn, cmd, Queued))
                 && (r.Err? ==>
                       && r == Err(CommandQueueFull) && s3.tables.cmdID in s3.issued
                       && s3.issued[s3.tables.cmdID] == Issue(sn, cmd, Refused))
  {
    var s1 := DoCheck(s, t, sn, cmd);
    if t in s1.calls {
      var s2 := DoTake(s1, t);
      assert s2.tables == s.tables.(cmdID := s.tables.cmdID + 1);
      assert Load(s2.tables, sn) == Load(s.tables, sn);
      var s3 := DoEnqueue(limits, s2, t);
      assert s3.calls == s.calls;
    }
  }

  /** The two phases in a row are evictStaleDevices. */
  lemma EvictInTwoSteps(limits: Limits, s: Sys, now: int)
    requires s.eviction == Idle
    ensures var s1 := DoSweepDevices(limits, s, now);
            if s1.eviction == Idle then s1.tables == AtomicOps.Evict(limits, s.tables, now)
            else DoSweepQueues(s1).tables == AtomicOps.Evict(limits, s.tables, now)
  {
    var stale := Stale(limits, s.tables, now);
    if stale == {} {
      assert s.tables.queue - {} == s.tables.queue;
      assert SweepQueues(SweepDevices(s.tables, {}), {}).pending == s.tables.pending;
    }
  }

  /** One served result: look-up, accepted dispatch and deletion in a row. */
  function ServeOne(s: Sys, p: nat): Sys
    requires p in s.posts && s.posts[p].LookingUp? && s.posts[p].todo != []
  {
    DoDelete(DoDispatch(DoLookUp(s, p), p, true), p)
  }

  lemma ConfirmInThreeSteps(s: Sys, p: nat)
    requires p in s.posts && s.posts[p].LookingUp? && s.posts[p].todo != []
    ensures var r, rest := s.posts[p].todo[0], s.posts[p].todo[1..];
            var s' := ServeOne(s, p);
            && s'.tables == AtomicOps.Confirm(s.tables, [r])
            && p in s'.posts && s'.posts[p] == LookingUp(rest)
            && s'.dispatched ==
               s.dispatched + [Dispatched(p, Confirmation.LookedUp(s.tables.pending, r), r.id in s.tables.pending)]
  {
    assert Confirmation.ResultIds([s.posts[p].todo[0]]) == {s.posts[p].todo[0].id};
  }

  /** The steps of a post that serves its first n results. */
  function Serve(s: Sys, p: nat, n: nat): (s': Sys)
    requires p in s.posts && s.posts[p].LookingUp? && n <= |s.posts[p].todo|
    ensures p in s'.posts && s'.posts[p] == LookingUp(s.posts[p].todo[n..])
  {
    if n == 0 then s else ServeOne(Serve(s, p, n - 1), p)
  }

  /** The dispatches of results served in a row. */
  function SentBy(p: nat, pending: Confirmation.PendingTable, results: seq<CommandResult>): seq<Dispatched> {
    if results == [] then []
    else
      var n := |results| - 1;
      var left := Confirmation.After(pending, results[..n]);
      SentBy(p, pending, results[..n])
        + [Dispatched(p, Confirmation.LookedUp(left, results[n]), results[n].id in left)]
  }

  /** They carry what Correlated says. */
  lemma {:induction false} SentIsCorrelated(p: nat, pending: Confirmation.PendingTable, results: seq<CommandResult>)
    ensures |SentBy(p, pending, results)| == |results|
    ensures forall i | 0 <= i < |results| ::
              SentBy(p, pending, results)[i].result == Confirmation.Correlated(pending, results)[i]
  {
    if results != [] {
      SentIsCorrelated(p, pending, results[..|results| - 1]);
    }
  }

  lemma OneMoreOf(results: seq<CommandResult>, n: nat)
    requires 0 < n <= |results|
    ensures results[..n] == results[..n - 1] + [results[n - 1]]
  {
  }

  lemma RemovesOneMore(s: Sys, s1: Sys, p: nat, front: seq<CommandResult>, r: CommandResult)
    requires p in s1.posts && s1.posts[p].LookingUp? && s1.posts[p].todo != [] && s1.posts[p].todo[0] == r
    requires s1.tables == AtomicOps.Confirm(s.tables, front)
    ensures ServeOne(s1, p).tables == AtomicOps.Confirm(s.tables, front + [r])
  {
    ConfirmInThreeSteps(s1, p);
    Confirmation.AfterSnoc(s.tables.pending, front, r);
    assert Confirmation.ResultIds([r]) == {r.id};
  }

  lemma {:induction false} ServeRemoves(s: Sys, p: nat, results: seq<CommandResult>, n: nat)
    requires p in s.posts && s.posts[p] == LookingUp(results) && n <= |results|
    ensures Serve(s, p, n).tables == AtomicOps.Confirm(s.tables, results[..n])
  {
    if n == 0 {
      assert Confirmation.ResultIds(results[..0]) == {};
    } else {
      ServeRemoves(s, p, results, n - 1);
      var s1 := Serve(s, p, n - 1);
      RemovesOneMore(s, s1, p, results[..n - 1], results[n - 1]);
      OneMoreOf(results, n);
      assert Serve(s, p, n) == ServeOne(s1, p);
    }
  }

  lemma SendsOneMore(s: Sys, s1: Sys, p: nat, front: seq<CommandResult>, r: CommandResult)
    requires p in s1.posts && s1.posts[p].LookingUp? && s1.posts[p].todo != [] && s1.posts[p].todo[0] == r
    requires s1.tables == AtomicOps.Confirm(s.tables, front)
    requires s1.dispatched == s.dispatched + SentBy(p, s.tables.pending, front)
    ensures ServeOne(s1, p).dispatched == s.dispatched + SentBy(p, s.tables.pending, front + [r])
  {
    ConfirmInThreeSteps(s1, p);
    assert (front + [r])[..|front|] == front;
  }

  lemma {:induction false} ServeDispatches(s: Sys, p: nat, results: seq<CommandResult>, n: nat)
    requires p in s.posts && s.posts[p] == LookingUp(results) && n <= |results|
    ensures Serve(s, p, n).dispatched == s.dispatched + SentBy(p, s.tables.pending, results[..n])
  {
    if n > 0 {
      ServeDispatches(s, p, results, n - 1);
      ServeRemoves(s, p, results, n - 1);
      var s1 := Serve(s, p, n - 1);
      SendsOneMore(s, s1, p, results[..n - 1], results[n - 1]);
      OneMoreOf(results, n);
      assert Serve(s, p, n) == ServeOne(s1, p);
    }
  }

  /** The whole loop without interruption: results are served up to the first refused
      dispatch, which ends the post, or to the end of the body; what it leaves pending and
      what it dispatches is what Confirm and Correlated say. */
  lemma ConfirmInSteps(s: Sys, p: nat, results: seq<CommandResult>, accepts: nat -> bool)
    requires p in s.posts && s.posts[p] == LookingUp(results)
    ensures var n := Confirmation.Served(results, accepts);
            var s1 := DoLookUp(Serve(s, p, n), p);
            && (n < |results| ==> Enabled(s1, Dispatch(p, accepts(n))))
            && var s2 := if n < |results| then DoDispatch(s1, p, accepts(n)) else s1;
               && p !in s2.posts
               && s2.tables == AtomicOps.Confirm(s.tables, results[..n])
               && s2.dispatched == s.dispatched + SentBy(p, s.tables.pending, results[..n])
               && |SentBy(p, s.tables.pending, results[..n])| == n
               && forall i | 0 <= i < n ::
                    SentBy(p, s.tables.pending, results[..n])[i].result ==
                    Confirmation.Correlated(s.tables.pending, results[..n])[i]
  {
    var n := Confirmation.Served(results, accepts);
    ServeRemoves(s, p, results, n);
    ServeDispatches(s, p, results, n);
    SentIsCorrelated(p, s.tables.pending, results[..n]);
  }
}
