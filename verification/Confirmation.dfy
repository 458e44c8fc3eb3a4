/** What one uninterrupted confirmation does to the pending commands, and what it
    dispatches. */
module Confirmation {
  import opened Types

  type PendingTable = map<int, PendingEntry>

  function ResultIds(results: seq<CommandResult>): set<int> {
    set r | r in results :: r.id
  }

  /** The pending table once results have been dispatched. */
  function After(pending: PendingTable, results: seq<CommandResult>): PendingTable {
    pending - ResultIds(results)
  }

  /** A result with the command that was queued for its id, if the id is pending. */
  function LookedUp(pending: PendingTable, r: CommandResult): CommandResult {
    if r.id in pending then r.(queuedCommand := pending[r.id].cmd) else r
  }

  /** What is dispatched for results in order: each is looked up after the ones before it
      have been removed. */
  function Correlated(pending: PendingTable, results: seq<CommandResult>): (out: seq<CommandResult>)
    ensures |out| == |results|
  {
    if results == [] then []
    else
      var n := |results| - 1;
      Correlated(pending, results[..n]) + [LookedUp(After(pending, results[..n]), results[n])]
  }

  /** How many results are served before the first refused dispatch. */
  function Served(results: seq<CommandResult>, accepts: nat -> bool): (n: nat)
    ensures n <= |results|
    ensures forall k | 0 <= k < n :: accepts(k)
    ensures n < |results| ==> !accepts(n)
  {
    if results == [] then 0
    else
      var n := Served(results[..|results| - 1], accepts);
      if n == |results| - 1 && accepts(n) then n + 1 else n
  }

  lemma {:induction false} CorrelatedAt(pending: PendingTable, results: seq<CommandResult>, k: nat)
    requires k < |results|
    ensures Correlated(pending, results)[k] == LookedUp(After(pending, results[..k]), results[k])
  {
    var n := |results| - 1;
    if k < n {
      CorrelatedAt(pending, results[..n], k);
      assert results[..n][..k] == results[..k];
    }
  }

  lemma AfterSnoc(pending: PendingTable, results: seq<CommandResult>, r: CommandResult)
    ensures After(pending, results + [r]) == After(pending, results) - {r.id}
  {
    assert ResultIds(results + [r]) == ResultIds(results) + {r.id};
  }

  lemma CorrelatedSnoc(pending: PendingTable, results: seq<CommandResult>, r: CommandResult)
    ensures Correlated(pending, results + [r]) == Correlated(pending, results) + [LookedUp(After(pending, results), r)]
  {
    assert (results + [r])[..|results|] == results;
  }

  /** What an attempt that serves n results dispatches is the front of what a full one does. */
  lemma CorrelatedPrefix(pending: PendingTable, results: seq<CommandResult>, n: nat)
    requires n <= |results|
    ensures Correlated(pending, results[..n]) == Correlated(pending, results)[..n]
  {
    forall k | 0 <= k < n
      ensures Correlated(pending, results[..n])[k] == Correlated(pending, results)[k]
    {
      CorrelatedAt(pending, results[..n], k);
      CorrelatedAt(pending, results, k);
      assert results[..n][..k] == results[..k];
    }
  }
}
