/** Confirmation bodies when everything interleaves: what a refused post has dispatched and
    removed, and what becomes of a body that is posted again until it is answered 200. */
module Reposting {
  import opened Types
  import opened ServerState
  import opened Lifecycle
  import opened Confirmation

  // -------------------------------------------------------------- the histories

  /** What the posts named p have dispatched. */
  function ByPost(history: seq<Dispatched>, p: nat): seq<Dispatched> {
    if history == [] then []
    else
      var n := |history| - 1;
      ByPost(history[..n], p) + if history[n].post == p then [history[n]] else []
  }

  /** The dispatches of an id by p whose lookup found it pending. */
  function Hits(history: seq<Dispatched>, p: nat, id: int): seq<Dispatched> {
    if history == [] then []
    else
      var n := |history| - 1;
      Hits(history[..n], p, id) + if IsHit(history[n], p, id) then [history[n]] else []
  }

  predicate IsHit(e: Dispatched, p: nat, id: int) {
    e.post == p && e.result.id == id && e.found
  }

  lemma HistorySnoc(history: seq<Dispatched>, e: Dispatched, p: nat, id: int)
    ensures ByPost(history + [e], p) == if e.post == p then ByPost(history, p) + [e] else ByPost(history, p)
    ensures Hits(history + [e], p, id) ==
            if IsHit(e, p, id) then Hits(history, p, id) + [e] else Hits(history, p, id)
  {
    assert (history + [e])[..|history|] == history;
  }

  // ---------------------------------------------------------------- interference

  /** The step starts no post named p of another body, deletes the id for no other post,
      and sweeps no device that has it pending. Every other step is allowed. */
  predicate Allowed(s: Sys, step: Step, p: nat, results: seq<CommandResult>, id: int) {
    match step
    case StartPost(q, rs) => q == p ==> rs == results
    case Delete(q) => q != p && Enabled(s, step) ==> s.posts[q].id != id
    case SweepQueuesStep =>
      s.eviction.Sweeping? && id in s.tables.pending ==> s.tables.pending[id].sn !in s.eviction.stale
    case _ => true
  }

  /** A step of p itself. */
  predicate ByP(step: Step, p: nat) {
    match step
    case StartPost(q, _) => q == p
    case LookUp(q) => q == p
    case Dispatch(q, _) => q == p
    case Delete(q) => q == p
    case _ => false
  }

  /** What the other steps leave alone. */
  lemma OthersLeave(limits: Limits, s: Sys, step: Step, p: nat, results: seq<CommandResult>, id: int)
    requires Inv(limits, s) && Enabled(s, step) && Allowed(s, step, p, results, id) && !ByP(step, p)
    ensures var s' := Next(limits, s, step);
            && (p in s'.posts <==> p in s.posts) && (p in s.posts ==> s'.posts[p] == s.posts[p])
            && (id in s.tables.pending ==> id in s'.tables.pending && s'.tables.pending[id] == s.tables.pending[id])
  {
    OthersKeepPost(limits, s, step, p);
    OthersKeepPending(limits, s, step, p, results, id);
  }

  lemma OthersKeepPending(limits: Limits, s: Sys, step: Step, p: nat, results: seq<CommandResult>, id: int)
    requires Inv(limits, s) && Enabled(s, step) && Allowed(s, step, p, results, id) && !ByP(step, p)
    ensures var s' := Next(limits, s, step);
            && (id in s.tables.pending ==> id in s'.tables.pending && s'.tables.pending[id] == s.tables.pending[id])
  {
    match step
    case DrainStep(sn) => DrainLeavesPending(limits, s, sn, id);
    case _ =>
  }

  lemma DrainLeavesPending(limits: Limits, s: Sys, sn: string, id: int)
    requires Inv(limits, s)
    ensures var s' := DoDrain(s, sn);
            id in s.tables.pending ==> id in s'.tables.pending && s'.tables.pending[id] == s.tables.pending[id]
  {
    BatchNotPending(limits, s, sn);
    AsPendingKeys(sn, Queue(s.tables, sn));
  }

  lemma OthersDispatch(limits: Limits, s: Sys, step: Step, p: nat, id: int)
    requires Enabled(s, step) && !ByP(step, p)
    ensures var s' := Next(limits, s, step);
            && ByPost(s'.dispatched, p) == ByPost(s.dispatched, p)
            && Hits(s'.dispatched, p, id) == Hits(s.dispatched, p, id)
  {
    if step.Dispatch? && step.accepted {
      var post := s.posts[step.p];
      HistorySnoc(s.dispatched, Dispatched(step.p, post.result, post.found), p, id);
    }
  }

  lemma RetiredStays(limits: Limits, s: Sys, step: Step, id: int)
    requires Inv(limits, s) && Enabled(s, step) && IsRetired(s, id)
    ensures IsRetired(Next(limits, s, step), id)
  {
    StepKeepsPlaces(limits, s, step);
  }

  // ------------------------------------------------------------------- exactly once

  /** One hit more than at the start, and it carries the queued command. */
  predicate Once(hits: seq<Dispatched>, before: seq<Dispatched>, cmd: string) {
    && |hits| == |before| + 1 && hits[..|before|] == before
    && hits[|before|].result.queuedCommand == cmd
  }

  /** The post, if there is one, still has the id ahead of it. */
  predicate Ahead(s: Sys, p: nat, id: int, cmd: string) {
    p in s.posts ==>
      match s.posts[p]
      case LookingUp(todo) => id in ResultIds(todo)
      case Dispatching(r, found, todo) =>
        if r.id == id then found && r.queuedCommand == cmd else id in ResultIds(todo)
      case Deleting(other, todo) => other != id && id in ResultIds(todo)
  }

  /** Not yet dispatched: the id is still pending. */
  ghost predicate Before(s: Sys, p: nat, id: int, cmd: string, before: seq<Dispatched>) {
    && Hits(s.dispatched, p, id) == before
    && id in s.tables.pending && s.tables.pending[id].cmd == cmd
    && Ahead(s, p, id, cmd)
  }

  /** Dispatched and not yet deleted. */
  ghost predicate Between(s: Sys, p: nat, id: int, cmd: string, before: seq<Dispatched>) {
    && Once(Hits(s.dispatched, p, id), before, cmd)
    && id in s.tables.pending && p in s.posts && s.posts[p].Deleting? && s.posts[p].id == id
  }

  /** Deleted: no later lookup finds the id. */
  ghost predicate Done(s: Sys, p: nat, id: int, cmd: string, before: seq<Dispatched>) {
    && Once(Hits(s.dispatched, p, id), before, cmd)
    && IsRetired(s, id)
    && (p in s.posts && s.posts[p].Dispatching? && s.posts[p].result.id == id ==> !s.posts[p].found)
  }

  lemma IdsTail(todo: seq<CommandResult>)
    requires todo != []
    ensures ResultIds(todo) == {todo[0].id} + ResultIds(todo[1..])
  {
    assert todo == [todo[0]] + todo[1..];
  }

  lemma BeforeDispatch(limits: Limits, s: Sys, accepted: bool, p: nat, id: int, cmd: string,
                       before: seq<Dispatched>)
    requires Enabled(s, Dispatch(p, accepted)) && Before(s, p, id, cmd, before)
    ensures var s' := DoDispatch(s, p, accepted);
            Before(s', p, id, cmd, before) || Between(s', p, id, cmd, before)
  {
    var post := s.posts[p];
    HistorySnoc(s.dispatched, Dispatched(p, post.result, post.found), p, id);
  }

  lemma BeforeStep(limits: Limits, s: Sys, step: Step, p: nat, results: seq<CommandResult>, id: int, cmd: string,
                   before: seq<Dispatched>)
    requires Inv(limits, s) && Enabled(s, step) && Allowed(s, step, p, results, id) && ByP(step, p)
    requires Before(s, p, id, cmd, before) && id in ResultIds(results)
    ensures var s' := Next(limits, s, step);
            Before(s', p, id, cmd, before) || Between(s', p, id, cmd, before)
  {
    match step
    case StartPost(_, _) =>
    case LookUp(_) => IdsTail(s.posts[p].todo);
    case Dispatch(_, accepted) => BeforeDispatch(limits, s, accepted, p, id, cmd, before);
    case Delete(_) =>
  }

  lemma BetweenStep(limits: Limits, s: Sys, step: Step, p: nat, id: int, cmd: string, before: seq<Dispatched>)
    requires Inv(limits, s) && Enabled(s, step) && ByP(step, p) && Between(s, p, id, cmd, before)
    ensures Done(Next(limits, s, step), p, id, cmd, before)
  {
    assert step == Delete(p);
  }

  lemma DoneStep(limits: Limits, s: Sys, step: Step, p: nat, id: int, cmd: string, before: seq<Dispatched>)
    requires Inv(limits, s) && Enabled(s, step) && ByP(step, p) && Done(s, p, id, cmd, before)
    ensures Done(Next(limits, s, step), p, id, cmd, before)
  {
    RetiredStays(limits, s, step, id);
    if step.Dispatch? {
      var post := s.posts[p];
      HistorySnoc(s.dispatched, Dispatched(p, post.result, post.found), p, id);
    }
  }

  ghost predicate Tracked(s: Sys, p: nat, id: int, cmd: string, before: seq<Dispatched>) {
    Before(s, p, id, cmd, before) || Between(s, p, id, cmd, before) || Done(s, p, id, cmd, before)
  }

  /** A dispatch that has been counted stays counted, and no second one comes. */
  lemma TrackedStep(limits: Limits, s: Sys, step: Step, p: nat, results: seq<CommandResult>, id: int, cmd: string,
                    before: seq<Dispatched>)
    requires Inv(limits, s) && Enabled(s, step) && Allowed(s, step, p, results, id)
    requires Tracked(s, p, id, cmd, before) && id in ResultIds(results)
    ensures var s' := Next(limits, s, step);
            && Tracked(s', p, id, cmd, before)
            && (!Before(s, p, id, cmd, before) ==> !Before(s', p, id, cmd, before))
  {
    if !ByP(step, p) {
      OthersLeave(limits, s, step, p, results, id);
      OthersDispatch(limits, s, step, p, id);
      if Done(s, p, id, cmd, before) {
        RetiredStays(limits, s, step, id);
      }
    } else if Before(s, p, id, cmd, before) {
      BeforeStep(limits, s, step, p, results, id, cmd, before);
    } else if Between(s, p, id, cmd, before) {
      BetweenStep(limits, s, step, p, id, cmd, before);
    } else {
      DoneStep(limits, s, step, p, id, cmd, before);
    }
  }

  ghost predicate AllAllowed(states: seq<Sys>, steps: seq<Step>, i: nat, j: nat, p: nat,
                             results: seq<CommandResult>, id: int)
    requires |states| == |steps| + 1 && i <= j < |states|
  {
    forall k {:trigger steps[k]} | i <= k < j :: Allowed(states[k], steps[k], p, results, id)
  }

  /** From state i to state j every step is allowed, and at state i no post is named p and
      the id of the body is pending. */
  ghost predicate Window(states: seq<Sys>, steps: seq<Step>, i: nat, j: nat, p: nat, results: seq<CommandResult>,
                         id: int)
  {
    && |states| == |steps| + 1 && i <= j < |states|
    && p !in states[i].posts && id in states[i].tables.pending && id in ResultIds(results)
    && AllAllowed(states, steps, i, j, p, results, id)
  }

  lemma WindowStep(limits: Limits, states: seq<Sys>, steps: seq<Step>, i: nat, j: nat, k: nat, p: nat,
                   results: seq<CommandResult>, id: int, cmd: string, before: seq<Dispatched>)
    requires Run(limits, states, steps) && Window(states, steps, i, j, p, results, id) && i <= k < j
    requires Tracked(states[k], p, id, cmd, before)
    ensures Tracked(states[k + 1], p, id, cmd, before)
    ensures !Before(states[k], p, id, cmd, before) ==> !Before(states[k + 1], p, id, cmd, before)
  {
    RunKeepsInv(limits, states, steps, k);
    TrackedStep(limits, states[k], steps[k], p, results, id, cmd, before);
  }

  lemma {:induction false} WindowTracked(limits: Limits, states: seq<Sys>, steps: seq<Step>, i: nat, j: nat, k: nat,
                                         p: nat, results: seq<CommandResult>, id: int)
    requires Run(limits, states, steps) && Window(states, steps, i, j, p, results, id) && i <= k <= j
    ensures Tracked(states[k], p, id, states[i].tables.pending[id].cmd, Hits(states[i].dispatched, p, id))
  {
    if k > i {
      WindowTracked(limits, states, steps, i, j, k - 1, p, results, id);
      WindowStep(limits, states, steps, i, j, k - 1, p, results, id, states[i].tables.pending[id].cmd,
                 Hits(states[i].dispatched, p, id));
    }
  }

  lemma {:induction false} StaysCounted(limits: Limits, states: seq<Sys>, steps: seq<Step>, i: nat, j: nat, k: nat,
                                        m: nat, p: nat, results: seq<CommandResult>, id: int)
    requires Run(limits, states, steps) && Window(states, steps, i, j, p, results, id) && i <= k <= m <= j
    requires var cmd, before := states[i].tables.pending[id].cmd, Hits(states[i].dispatched, p, id);
             !Before(states[k], p, id, cmd, before)
    ensures var cmd, before := states[i].tables.pending[id].cmd, Hits(states[i].dispatched, p, id);
            !Before(states[m], p, id, cmd, before)
  {
    if k < m {
      StaysCounted(limits, states, steps, i, j, k, m - 1, p, results, id);
      WindowTracked(limits, states, steps, i, j, m - 1, p, results, id);
      WindowStep(limits, states, steps, i, j, m - 1, p, results, id, states[i].tables.pending[id].cmd,
                 Hits(states[i].dispatched, p, id));
    }
  }

  /** A post of the body is answered 200 at this step: nothing is left to look up. */
  predicate Answered(s: Sys, step: Step, p: nat) {
    step == LookUp(p) && Enabled(s, step) && s.posts[p].todo == []
  }

  /** A body is posted, by posts named p, as often as it takes; at some step one of them is
      answered 200. Whatever else interleaves, exactly one accepted dispatch of theirs finds
      an id that was pending at the start, and it carries the queued command. */
  lemma ExactlyOneHit(limits: Limits, states: seq<Sys>, steps: seq<Step>, i: nat, j: nat, k: nat, p: nat,
                      results: seq<CommandResult>, id: int)
    requires Run(limits, states, steps) && Window(states, steps, i, j, p, results, id)
    requires i <= k < j && Answered(states[k], steps[k], p)
    ensures var before, hits := Hits(states[i].dispatched, p, id), Hits(states[j].dispatched, p, id);
            && |hits| == |before| + 1 && hits[..|before|] == before
            && hits[|before|].result.queuedCommand == states[i].tables.pending[id].cmd
  {
    WindowTracked(limits, states, steps, i, j, k, p, results, id);
    StaysCounted(limits, states, steps, i, j, k, j, p, results, id);
    WindowTracked(limits, states, steps, i, j, j, p, results, id);
  }

  // ------------------------------------------------------------- one post's outcome

  /** A dispatched result is the parsed one, with the queued command if its id was found. */
  predicate SameResult(sent: CommandResult, found: bool, r: CommandResult) {
    sent == if found then r.(queuedCommand := sent.queuedCommand) else r
  }

  /** A post that has dispatched its first n results. */
  predicate At(post: Post, results: seq<CommandResult>, n: nat) {
    && n <= |results|
    && match post
       case LookingUp(todo) => todo == results[n..]
       case Dispatching(r, found, todo) =>
         n < |results| && SameResult(r, found, results[n]) && todo == results[n + 1..]
       case Deleting(id, todo) => n > 0 && id == results[n - 1].id && todo == results[n..]
  }

  /** Since the start, p has dispatched the given results in order. */
  predicate Sent(s: Sys, p: nat, before: seq<Dispatched>, results: seq<CommandResult>) {
    && var sent := ByPost(s.dispatched, p);
    && |sent| == |before| + |results| && sent[..|before|] == before
    && forall k | 0 <= k < |results| ::
         SameResult(sent[|before| + k].result, sent[|before| + k].found, results[k])
  }

  lemma SentSnoc(s: Sys, p: nat, before: seq<Dispatched>, results: seq<CommandResult>, n: nat)
    requires p in s.posts && s.posts[p].Dispatching? && At(s.posts[p], results, n)
    requires Sent(s, p, before, results[..n])
    ensures Sent(DoDispatch(s, p, true), p, before, results[..n + 1])
  {
    var post := s.posts[p];
    HistorySnoc(s.dispatched, Dispatched(p, post.result, post.found), p, 0);
    var sent := ByPost(s.dispatched, p);
    assert results[..n + 1] == results[..n] + [results[n]];
    assert (sent + [Dispatched(p, post.result, post.found)])[..|before|] == before;
  }

  /** One step of the post: how many results it has dispatched then. */
  function Count(s: Sys, step: Step, p: nat, n: nat): nat {
    if step == Dispatch(p, true) then n + 1 else n
  }

  lemma PostStep(limits: Limits, s: Sys, step: Step, p: nat, results: seq<CommandResult>, n: nat,
                 before: seq<Dispatched>)
    requires Inv(limits, s) && Enabled(s, step) && p in s.posts && At(s.posts[p], results, n)
    requires Sent(s, p, before, results[..n])
    ensures var s', n' := Next(limits, s, step), Count(s, step, p, n);
            && n' <= |results| && Sent(s', p, before, results[..n'])
            && (p in s'.posts ==> At(s'.posts[p], results, n'))
  {
    if !ByP(step, p) {
      OthersDispatch(limits, s, step, p, 0);
      OthersKeepPost(limits, s, step, p);
    } else if step == Dispatch(p, true) {
      SentSnoc(s, p, before, results, n);
    } else if step.LookUp? && n < |results| {
      assert results[n..][1..] == results[n + 1..];
    }
  }

  lemma OthersKeepPost(limits: Limits, s: Sys, step: Step, p: nat)
    requires Enabled(s, step) && !ByP(step, p)
    ensures p in Next(limits, s, step).posts <==> p in s.posts
    ensures p in s.posts ==> Next(limits, s, step).posts[p] == s.posts[p]
  {
  }

  /** How many results a post has dispatched and deleted. */
  function Removed(post: Post, n: nat): nat {
    if post.Deleting? && n > 0 then n - 1 else n
  }

  /** An id that was pending at the start is gone exactly when the post has deleted it. */
  ghost predicate Settled(s: Sys, id: int, results: seq<CommandResult>, n: nat) {
    n <= |results| && if id in ResultIds(results[..n]) then IsRetired(s, id) else id in s.tables.pending
  }

  lemma IdsSnoc(results: seq<CommandResult>, n: nat)
    requires n < |results|
    ensures ResultIds(results[..n + 1]) == ResultIds(results[..n]) + {results[n].id}
  {
    assert results[..n + 1] == results[..n] + [results[n]];
  }

  lemma OwnSettledStep(limits: Limits, s: Sys, step: Step, p: nat, results: seq<CommandResult>, id: int, n: nat)
    requires Inv(limits, s) && Enabled(s, step) && ByP(step, p)
    requires p in s.posts && At(s.posts[p], results, n) && Settled(s, id, results, Removed(s.posts[p], n))
    ensures var s', n' := Next(limits, s, step), Count(s, step, p, n);
            Settled(s', id, results, if p in s'.posts then Removed(s'.posts[p], n') else n')
  {
    if step == Delete(p) {
      IdsSnoc(results, n - 1);
    }
  }

  lemma SettledStep(limits: Limits, s: Sys, step: Step, p: nat, results: seq<CommandResult>, id: int, n: nat)
    requires Inv(limits, s) && Enabled(s, step) && Allowed(s, step, p, results, id)
    requires p in s.posts && At(s.posts[p], results, n) && Settled(s, id, results, Removed(s.posts[p], n))
    ensures var s', n' := Next(limits, s, step), Count(s, step, p, n);
            Settled(s', id, results, if p in s'.posts then Removed(s'.posts[p], n') else n')
  {
    if ByP(step, p) {
      OwnSettledStep(limits, s, step, p, results, id, n);
    } else {
      OthersLeave(limits, s, step, p, results, id);
      if IsRetired(s, id) {
        RetiredStays(limits, s, step, id);
      }
    }
  }

  /** A post of results starts at step i and is still in flight in state j. */
  ghost predicate InFlight(states: seq<Sys>, steps: seq<Step>, i: nat, j: nat, p: nat, results: seq<CommandResult>) {
    && |states| == |steps| + 1 && i < j < |states| && steps[i] == StartPost(p, results)
    && forall k | i < k <= j :: p in states[k].posts
  }

  /** What a post in flight has done, in every interleaving. */
  lemma {:induction false} Progress(limits: Limits, states: seq<Sys>, steps: seq<Step>, i: nat, j: nat, p: nat,
                                    results: seq<CommandResult>) returns (n: nat)
    requires Run(limits, states, steps) && InFlight(states, steps, i, j, p, results)
    ensures At(states[j].posts[p], results, n)
    ensures Sent(states[j], p, ByPost(states[i].dispatched, p), results[..n])
    ensures forall id | id in states[i].tables.pending && AllAllowed(states, steps, i, j, p, results, id) ::
              Settled(states[j], id, results, Removed(states[j].posts[p], n))
  {
    if j == i + 1 {
      n := 0;
    } else {
      var before := ByPost(states[i].dispatched, p);
      var m := Progress(limits, states, steps, i, j - 1, p, results);
      var s, step := states[j - 1], steps[j - 1];
      RunKeepsInv(limits, states, steps, j - 1);
      PostStep(limits, s, step, p, results, m, before);
      n := Count(s, step, p, m);
      forall id | id in states[i].tables.pending && AllAllowed(states, steps, i, j, p, results, id)
        ensures Settled(states[j], id, results, Removed(states[j].posts[p], n))
      {
        SettledStep(limits, s, step, p, results, id, m);
      }
    }
  }

  /** A post that is answered 503: for some n below the number of results, exactly the
      first n were dispatched, in order; and of the ids that were pending at its start,
      exactly those of the first n are pending no more. */
  lemma RefusedPost(limits: Limits, states: seq<Sys>, steps: seq<Step>, i: nat, j: nat, p: nat,
                    results: seq<CommandResult>) returns (n: nat)
    requires Run(limits, states, steps) && InFlight(states, steps, i, j, p, results)
    requires j < |steps| && steps[j] == Dispatch(p, false)
    ensures n < |results| && Sent(states[j + 1], p, ByPost(states[i].dispatched, p), results[..n])
    ensures forall id | id in states[i].tables.pending && AllAllowed(states, steps, i, j, p, results, id) ::
              id in states[j + 1].tables.pending <==> id !in ResultIds(results[..n])
  {
    n := Progress(limits, states, steps, i, j, p, results);
    RunKeepsInv(limits, states, steps, j);
  }

  /** A post that is answered 200 has dispatched and removed all of them. */
  lemma AnsweredPost(limits: Limits, states: seq<Sys>, steps: seq<Step>, i: nat, j: nat, p: nat,
                     results: seq<CommandResult>)
    requires Run(limits, states, steps) && InFlight(states, steps, i, j, p, results)
    requires j < |steps| && Answered(states[j], steps[j], p)
    ensures Sent(states[j + 1], p, ByPost(states[i].dispatched, p), results)
    ensures forall id | id in states[i].tables.pending && AllAllowed(states, steps, i, j, p, results, id) ::
              id in states[j + 1].tables.pending <==> id !in ResultIds(results)
  {
    var n := Progress(limits, states, steps, i, j, p, results);
    RunKeepsInv(limits, states, steps, j);
    assert results[..n] == results;
  }
}
