/** The life of a command id when all calls interleave: QueueCommand checks, takes an id
    and appends in three separate sections; a confirmation looks up, dispatches and
    deletes; an eviction sweeps devices and queues in two phases. */
module Lifecycle {
  import Wrappers
  import PollResponse
  import opened Text
  import opened Types
  import opened ServerState

  /** A QueueCommand call between its sections. */
  datatype Call = Checked(sn: string, cmd: string) | Holding(sn: string, cmd: string, id: int)

  /** A confirmation body between the sections of its loop. */
  datatype Post =
    | LookingUp(todo: seq<CommandResult>)
    | Dispatching(result: CommandResult, found: bool, todo: seq<CommandResult>)
    | Deleting(id: int, todo: seq<CommandResult>)

  /** An accepted dispatch: whose it is, and whether its lookup found the id pending. */
  datatype Dispatched = Dispatched(post: nat, result: CommandResult, found: bool)

  datatype Eviction = Idle | Sweeping(stale: set<string>)

  /** Where an issued id is. */
  datatype Place = Held(call: nat) | Refused | Queued | Pending | Retired

  /** An issued id: the device and command it was taken for, and where it is. */
  datatype Issue = Issue(sn: string, cmd: string, place: Place)

  /** The shared tables, the calls in flight, and histories: the ids issued so far, what
      was appended and drained per device since its last eviction, the ids handed out by
      drains, and the results dispatched. */
  datatype Sys = Sys(
    tables: State, calls: map<nat, Call>, posts: map<nat, Post>, eviction: Eviction,
    issued: map<int, Issue>,
    appended: map<string, seq<CommandEntry>>, drained: map<string, seq<CommandEntry>>,
    handed: seq<int>, dispatched: seq<Dispatched>)

  datatype Step =
    | RegisterStep(sn: string, now: int, opts: seq<DeviceOption>)
    | TouchStep(sn: string, now: int)
    | OptionsStep(sn: string, info: map<string, string>)
    | TimezoneStep(sn: string, loc: Wrappers.Option<Zone>)
    | Check(t: nat, sn: string, cmd: string)
    | Take(t: nat)
    | Enqueue(t: nat)
    | DrainStep(sn: string)
    | StartPost(p: nat, results: seq<CommandResult>)
    | LookUp(p: nat)
    | Dispatch(p: nat, accepted: bool)
    | Delete(p: nat)
    | SweepDevicesStep(now: int)
    | SweepQueuesStep

  const START: Sys := Sys(EMPTY, map[], map[], Idle, map[], map[], map[], [], [])

  function History(table: map<string, seq<CommandEntry>>, sn: string): seq<CommandEntry> {
    if sn in table then table[sn] else []
  }

  // -------------------------------------------------------------------- steps

  predicate Enabled(s: Sys, step: Step) {
    match step
    case RegisterStep(_, _, _) => true
    case TouchStep(_, _) => true
    case OptionsStep(_, _) => true
    case TimezoneStep(_, _) => true
    case Check(t, sn, cmd) => t !in s.calls
    case Take(t) => t in s.calls && s.calls[t].Checked?
    case Enqueue(t) => t in s.calls && s.calls[t].Holding?
    case DrainStep(_) => true
    case StartPost(p, _) => p !in s.posts
    case LookUp(p) => p in s.posts && s.posts[p].LookingUp?
    case Dispatch(p, _) => p in s.posts && s.posts[p].Dispatching?
    case Delete(p) => p in s.posts && s.posts[p].Deleting?
    case SweepDevicesStep(_) => s.eviction.Idle?
    case SweepQueuesStep => s.eviction.Sweeping?
  }

  /** Moves a set of ids to a place. */
  function Placed(issued: map<int, Issue>, ids: set<int>, place: Place): map<int, Issue> {
    map id | id in issued :: if id in ids then issued[id].(place := place) else issued[id]
  }

  /** The field check and the existence check; a refused call ends here. */
  function DoCheck(s: Sys, t: nat, sn: string, cmd: string): Sys {
    if NoLineBreak(cmd) && sn in s.tables.devices then s.(calls := s.calls[t := Checked(sn, cmd)]) else s
  }

  function DoTake(s: Sys, t: nat): Sys
    requires Enabled(s, Take(t))
  {
    var call, id := s.calls[t], s.tables.cmdID + 1;
    s.(tables := s.tables.(cmdID := id), calls := s.calls[t := Holding(call.sn, call.cmd, id)],
       issued := s.issued[id := Issue(call.sn, call.cmd, Held(t))])
  }

  /** The capacity check and the append, under one lock; a refused call burns its id. */
  function DoEnqueue(limits: Limits, s: Sys, t: nat): Sys
    requires Enabled(s, Enqueue(t))
  {
    var call := s.calls[t];
    var entry := CommandEntry(call.id, call.cmd);
    if HasRoom(limits, s.tables, call.sn) then
      s.(tables := Append(s.tables, call.sn, entry), calls := s.calls - {t},
         issued := Placed(s.issued, {call.id}, Queued),
         appended := s.appended[call.sn := History(s.appended, call.sn) + [entry]])
    else
      s.(calls := s.calls - {t}, issued := Placed(s.issued, {call.id}, Refused))
  }

  function IdList(batch: seq<CommandEntry>): (ids: seq<int>)
    ensures |ids| == |batch|
    ensures forall i | 0 <= i < |batch| :: ids[i] == batch[i].id
  {
    seq(|batch|, i requires 0 <= i < |batch| => batch[i].id)
  }

  function DoDrain(s: Sys, sn: string): Sys {
    var batch := Queue(s.tables, sn);
    s.(tables := Drain(s.tables, sn), issued := Placed(s.issued, Ids(batch), Pending),
       drained := s.drained[sn := History(s.drained, sn) + batch], handed := s.handed + IdList(batch))
  }

  /** The lookup of the next result, or the end of the body. */
  function DoLookUp(s: Sys, p: nat): (s': Sys)
    requires Enabled(s, LookUp(p))
    ensures s' == s.(posts := s'.posts)
  {
    var todo := s.posts[p].todo;
    if todo == [] then s.(posts := s.posts - {p})
    else
      var result := todo[0];
      var found := result.id in s.tables.pending;
      var filled := if found then result.(queuedCommand := s.tables.pending[result.id].cmd) else result;
      s.(posts := s.posts[p := Dispatching(filled, found, todo[1..])])
  }

  /** A refused dispatch ends the body with a 503. */
  function DoDispatch(s: Sys, p: nat, accepted: bool): (s': Sys)
    requires Enabled(s, Dispatch(p, accepted))
    ensures s' == s.(posts := s'.posts, dispatched := s'.dispatched)
  {
    var post := s.posts[p];
    if accepted then
      s.(posts := s.posts[p := Deleting(post.result.id, post.todo)],
         dispatched := s.dispatched + [Dispatched(p, post.result, post.found)])
    else s.(posts := s.posts - {p})
  }

  /** The deletion: by id alone, whatever device the entry belongs to. */
  function DoDelete(s: Sys, p: nat): Sys
    requires Enabled(s, Delete(p))
  {
    var post := s.posts[p];
    s.(tables := Forget(s.tables, post.id), posts := s.posts[p := LookingUp(post.todo)],
       issued := if post.id in s.tables.pending then Placed(s.issued, {post.id}, Retired) else s.issued)
  }

  function DoSweepDevices(limits: Limits, s: Sys, now: int): Sys {
    var stale := Stale(limits, s.tables, now);
    s.(tables := SweepDevices(s.tables, stale), eviction := if stale == {} then Idle else Sweeping(stale))
  }

  /** The ids that phase 2 removes. */
  function SweptIds(tables: State, stale: set<string>): set<int> {
    (set id | id in tables.pending && tables.pending[id].sn in stale)
    + (set sn, entry | sn in stale && sn in tables.queue && entry in tables.queue[sn] :: entry.id)
  }

  function DoSweepQueues(s: Sys): Sys
    requires Enabled(s, SweepQueuesStep)
  {
    var stale := s.eviction.stale;
    s.(tables := SweepQueues(s.tables, stale), eviction := Idle,
       issued := Placed(s.issued, SweptIds(s.tables, stale), Retired),
       appended := s.appended - stale, drained := s.drained - stale)
  }

  function Next(limits: Limits, s: Sys, step: Step): Sys
    requires Enabled(s, step)
  {
    match step
    case RegisterStep(sn, now, opts) => s.(tables := Configure(Register(limits, s.tables, sn, now), sn, opts))
    case TouchStep(sn, now) => s.(tables := Touch(s.tables, sn, now))
    case OptionsStep(sn, info) => s.(tables := MergeOptions(s.tables, sn, info))
    case TimezoneStep(sn, loc) => s.(tables := SetTimezone(s.tables, sn, loc))
    case Check(t, sn, cmd) => DoCheck(s, t, sn, cmd)
    case Take(t) => DoTake(s, t)
    case Enqueue(t) => DoEnqueue(limits, s, t)
    case DrainStep(sn) => DoDrain(s, sn)
    case StartPost(p, results) => s.(posts := s.posts[p := LookingUp(results)])
    case LookUp(p) => DoLookUp(s, p)
    case Dispatch(p, accepted) => DoDispatch(s, p, accepted)
    case Delete(p) => DoDelete(s, p)
    case SweepDevicesStep(now) => DoSweepDevices(limits, s, now)
    case SweepQueuesStep => DoSweepQueues(s)
  }

  ghost predicate Run(limits: Limits, states: seq<Sys>, steps: seq<Step>) {
    && |states| == |steps| + 1
    && states[0] == START
    && forall i {:trigger steps[i]} | 0 <= i < |steps| ::
         Enabled(states[i], steps[i]) && states[i + 1] == Next(limits, states[i], steps[i])
  }

  // ---------------------------------------------------------------- invariants

  /** Ids are issued from 1 on, without gaps, for commands without line breaks. */
  ghost predicate IssueInv(s: Sys) {
    && (forall id | id in s.issued :: 1 <= id <= s.tables.cmdID && NoLineBreak(s.issued[id].cmd))
    && (forall id | 1 <= id <= s.tables.cmdID :: id in s.issued)
  }

  /** The calls that hold an id, and the ids that are held. */
  ghost predicate CallInv(s: Sys) {
    && (forall t | t in s.calls :: NoLineBreak(s.calls[t].cmd))
    && (forall t | t in s.calls && s.calls[t].Holding? ::
          s.calls[t].id in s.issued && s.issued[s.calls[t].id] == Issue(s.calls[t].sn, s.calls[t].cmd, Held(t)))
    && (forall id | id in s.issued && s.issued[id].place.Held? ::
          var t := s.issued[id].place.call; t in s.calls && s.calls[t].Holding? && s.calls[t].id == id)
  }

  ghost predicate EntryInv(s: Sys, sn: string, entry: CommandEntry) {
    entry.id in s.issued && s.issued[entry.id] == Issue(sn, entry.command, Queued)
  }

  /** The queues hold exactly the queued ids, each once and unchanged. */
  ghost predicate QueueInv(s: Sys) {
    && (forall sn, entry | sn in s.tables.queue && entry in s.tables.queue[sn] :: EntryInv(s, sn, entry))
    && (forall sn | sn in s.tables.queue :: DistinctIds(s.tables.queue[sn]))
    && (forall id | id in s.issued && s.issued[id].place == Queued :: id in Ids(Queue(s.tables, s.issued[id].sn)))
  }

  /** The pending table holds exactly the pending ids, unchanged. */
  ghost predicate PendingInv(s: Sys) {
    && (forall id | id in s.tables.pending ::
          id in s.issued && s.issued[id] == Issue(s.tables.pending[id].sn, s.tables.pending[id].cmd, Pending))
    && (forall id | id in s.issued && s.issued[id].place == Pending :: id in s.tables.pending)
  }

  ghost predicate LimitInv(limits: Limits, s: Sys) {
    limits.maxCommandsPerDevice > 0 ==> forall sn :: Load(s.tables, sn) <= limits.maxCommandsPerDevice
  }

  /** Per device, what was drained and what is queued is what was appended. */
  ghost predicate HistoryInv(s: Sys) {
    forall sn :: History(s.appended, sn) == History(s.drained, sn) + Queue(s.tables, sn)
  }

  ghost predicate HandedInv(s: Sys) {
    && (forall id | id in s.handed ::
          id in s.issued && (s.issued[id].place == Pending || s.issued[id].place == Retired))
    && (forall i, j | 0 <= i < j < |s.handed| :: s.handed[i] != s.handed[j])
  }

  ghost predicate Inv(limits: Limits, s: Sys) {
    && IssueInv(s) && CallInv(s) && QueueInv(s) && PendingInv(s)
    && LimitInv(limits, s) && HistoryInv(s) && HandedInv(s)
  }

  lemma StartInv(limits: Limits)
    ensures Inv(limits, START)
  {
  }

  // ------------------------------------------------------ every step keeps them

  lemma TakeKeepsCalls(limits: Limits, s: Sys, t: nat)
    requires Inv(limits, s) && Enabled(s, Take(t))
    ensures var s' := DoTake(s, t); IssueInv(s') && CallInv(s')
  {
  }

  lemma TakeKeepsTables(limits: Limits, s: Sys, t: nat)
    requires Inv(limits, s) && Enabled(s, Take(t))
    ensures var s' := DoTake(s, t); QueueInv(s') && PendingInv(s')
  {
    assert forall sn :: Queue(DoTake(s, t).tables, sn) == Queue(s.tables, sn);
  }

  lemma TakeKeepsRest(limits: Limits, s: Sys, t: nat)
    requires Inv(limits, s) && Enabled(s, Take(t))
    ensures var s' := DoTake(s, t); LimitInv(limits, s') && HistoryInv(s') && HandedInv(s')
  {
    var s' := DoTake(s, t);
    assert forall sn :: Queue(s'.tables, sn) == Queue(s.tables, sn);
    assert forall sn :: Load(s'.tables, sn) == Load(s.tables, sn);
  }

  lemma RefuseKeepsTables(limits: Limits, s: Sys, t: nat)
    requires Inv(limits, s) && Enabled(s, Enqueue(t)) && !HasRoom(limits, s.tables, s.calls[t].sn)
    ensures var s' := DoEnqueue(limits, s, t); IssueInv(s') && CallInv(s') && PendingInv(s') && HandedInv(s')
  {
  }

  lemma RefuseKeepsRest(limits: Limits, s: Sys, t: nat)
    requires Inv(limits, s) && Enabled(s, Enqueue(t)) && !HasRoom(limits, s.tables, s.calls[t].sn)
    ensures var s' := DoEnqueue(limits, s, t); QueueInv(s') && LimitInv(limits, s') && HistoryInv(s')
  {
  }

  lemma EnqueueKeepsTables(limits: Limits, s: Sys, t: nat)
    requires Inv(limits, s) && Enabled(s, Enqueue(t)) && HasRoom(limits, s.tables, s.calls[t].sn)
    ensures var s' := DoEnqueue(limits, s, t); IssueInv(s') && CallInv(s') && PendingInv(s') && HandedInv(s')
  {
  }

  lemma AppendedDistinct(limits: Limits, s: Sys, t: nat)
    requires Inv(limits, s) && Enabled(s, Enqueue(t))
    ensures var call := s.calls[t];
            DistinctIds(Queue(s.tables, call.sn) + [CommandEntry(call.id, call.cmd)])
  {
    var call := s.calls[t];
    forall e | e in Queue(s.tables, call.sn)
      ensures e.id != call.id
    {
      assert EntryInv(s, call.sn, e);
    }
    DistinctSnoc(Queue(s.tables, call.sn), CommandEntry(call.id, call.cmd));
  }

  lemma EnqueueKeepsEntries(limits: Limits, s: Sys, t: nat, sn: string, e: CommandEntry)
    requires Inv(limits, s) && Enabled(s, Enqueue(t)) && HasRoom(limits, s.tables, s.calls[t].sn)
    requires sn in DoEnqueue(limits, s, t).tables.queue && e in DoEnqueue(limits, s, t).tables.queue[sn]
    ensures EntryInv(DoEnqueue(limits, s, t), sn, e)
  {
    if sn != s.calls[t].sn || e != CommandEntry(s.calls[t].id, s.calls[t].cmd) {
      assert EntryInv(s, sn, e);
    }
  }

  lemma EnqueueKeepsQueues(limits: Limits, s: Sys, t: nat)
    requires Inv(limits, s) && Enabled(s, Enqueue(t)) && HasRoom(limits, s.tables, s.calls[t].sn)
    ensures QueueInv(DoEnqueue(limits, s, t))
  {
    var s', call := DoEnqueue(limits, s, t), s.calls[t];
    AppendedDistinct(limits, s, t);
    assert s'.tables.queue[call.sn] == Queue(s.tables, call.sn) + [CommandEntry(call.id, call.cmd)];
    forall sn, e | sn in s'.tables.queue && e in s'.tables.queue[sn]
      ensures EntryInv(s', sn, e)
    {
      EnqueueKeepsEntries(limits, s, t, sn, e);
    }
    forall id | id in s'.issued && s'.issued[id].place == Queued
      ensures id in Ids(Queue(s'.tables, s'.issued[id].sn))
    {
      EnqueueFindsQueued(limits, s, t, id);
    }
  }

  lemma EnqueueFindsQueued(limits: Limits, s: Sys, t: nat, id: int)
    requires Inv(limits, s) && Enabled(s, Enqueue(t)) && HasRoom(limits, s.tables, s.calls[t].sn)
    requires var s' := DoEnqueue(limits, s, t); id in s'.issued && s'.issued[id].place == Queued
    ensures var s' := DoEnqueue(limits, s, t); id in Ids(Queue(s'.tables, s'.issued[id].sn))
  {
    var s', call := DoEnqueue(limits, s, t), s.calls[t];
    assert s'.tables.queue[call.sn] == Queue(s.tables, call.sn) + [CommandEntry(call.id, call.cmd)];
    if id != call.id {
      var sn := s.issued[id].sn;
      var e :| e in Queue(s.tables, sn) && e.id == id;
      assert e in Queue(s'.tables, sn);
    } else {
      assert CommandEntry(call.id, call.cmd) in s'.tables.queue[call.sn];
    }
  }

  lemma EnqueueKeepsRest(limits: Limits, s: Sys, t: nat)
    requires Inv(limits, s) && Enabled(s, Enqueue(t)) && HasRoom(limits, s.tables, s.calls[t].sn)
    ensures var s' := DoEnqueue(limits, s, t); LimitInv(limits, s') && HistoryInv(s')
  {
    var s', call := DoEnqueue(limits, s, t), s.calls[t];
    forall sn
      ensures limits.maxCommandsPerDevice > 0 ==> Load(s'.tables, sn) <= limits.maxCommandsPerDevice
      ensures History(s'.appended, sn) == History(s'.drained, sn) + Queue(s'.tables, sn)
    {
      AppendLoad(s.tables, call.sn, CommandEntry(call.id, call.cmd), sn);
      assert History(s.appended, sn) == History(s.drained, sn) + Queue(s.tables, sn);
    }
  }

  lemma DrainKeepsTables(limits: Limits, s: Sys, sn: string)
    requires Inv(limits, s)
    ensures var s' := DoDrain(s, sn); IssueInv(s') && CallInv(s') && QueueInv(s')
  {
  }

  lemma DrainKeepsPending(limits: Limits, s: Sys, sn: string)
    requires Inv(limits, s)
    ensures PendingInv(DoDrain(s, sn))
  {
    var batch := Queue(s.tables, sn);
    AsPendingKeys(sn, batch);
    forall id | id in Ids(batch)
      ensures id in s.issued && AsPending(sn, batch)[id] == PendingEntry(sn, s.issued[id].cmd)
    {
      var i :| 0 <= i < |batch| && batch[i].id == id;
      AsPendingEntry(sn, batch, i);
      assert EntryInv(s, sn, batch[i]);
    }
  }

  lemma BatchNotPending(limits: Limits, s: Sys, sn: string)
    requires Inv(limits, s)
    ensures DistinctIds(Queue(s.tables, sn)) && Ids(Queue(s.tables, sn)) !! s.tables.pending.Keys
    ensures forall entry | entry in Queue(s.tables, sn) :: EntryInv(s, sn, entry) && entry.id !in s.handed
  {
  }

  lemma DrainKeepsRest(limits: Limits, s: Sys, sn: string)
    requires Inv(limits, s)
    ensures var s' := DoDrain(s, sn); LimitInv(limits, s') && HistoryInv(s')
  {
    var s' := DoDrain(s, sn);
    BatchNotPending(limits, s, sn);
    forall other
      ensures Load(s'.tables, other) == Load(s.tables, other)
      ensures History(s'.appended, other) == History(s'.drained, other) + Queue(s'.tables, other)
    {
      DrainKeepsLoad(s.tables, sn, other);
      assert History(s.appended, other) == History(s.drained, other) + Queue(s.tables, other);
    }
  }

  lemma DrainKeepsHanded(limits: Limits, s: Sys, sn: string)
    requires Inv(limits, s)
    ensures HandedInv(DoDrain(s, sn))
  {
    var s', batch := DoDrain(s, sn), Queue(s.tables, sn);
    BatchNotPending(limits, s, sn);
    forall i | 0 <= i < |batch|
      ensures batch[i].id in s'.issued && s'.issued[batch[i].id].place == Pending && batch[i].id !in s.handed
    {
      assert EntryInv(s, sn, batch[i]);
    }
  }

  lemma DeleteKeepsCalls(limits: Limits, s: Sys, p: nat)
    requires Inv(limits, s) && Enabled(s, Delete(p))
    ensures var s' := DoDelete(s, p); IssueInv(s') && CallInv(s')
  {
  }

  lemma DeleteKeepsTables(limits: Limits, s: Sys, p: nat)
    requires Inv(limits, s) && Enabled(s, Delete(p))
    ensures var s' := DoDelete(s, p); QueueInv(s') && PendingInv(s')
  {
  }

  lemma DeleteKeepsRest(limits: Limits, s: Sys, p: nat)
    requires Inv(limits, s) && Enabled(s, Delete(p))
    ensures var s' := DoDelete(s, p); LimitInv(limits, s') && HistoryInv(s') && HandedInv(s')
  {
    var s' := DoDelete(s, p);
    forall sn
      ensures Queue(s'.tables, sn) == Queue(s.tables, sn) && Load(s'.tables, sn) <= Load(s.tables, sn)
    {
      ForgetLoad(s.tables, s.posts[p].id, sn);
    }
  }

  /** What phase 2 of an eviction does to one id: the queued and pending ids of the stale
      devices retire, and no other id moves. */
  lemma SweptMeaning(limits: Limits, s: Sys, stale: set<string>, id: int)
    requires Inv(limits, s) && id in s.issued
    ensures id in SweptIds(s.tables, stale) <==>
            s.issued[id].sn in stale && (s.issued[id].place == Queued || s.issued[id].place == Pending)
  {
    var issue := s.issued[id];
    if id in SweptIds(s.tables, stale) {
      if id !in s.tables.pending || s.tables.pending[id].sn !in stale {
        var sn, entry :| sn in stale && sn in s.tables.queue && entry in s.tables.queue[sn] && entry.id == id;
        assert EntryInv(s, sn, entry);
      }
    }
    if issue.sn in stale && issue.place == Queued {
      assert id in Ids(Queue(s.tables, issue.sn));
      var entry :| entry in Queue(s.tables, issue.sn) && entry.id == id;
      assert entry in s.tables.queue[issue.sn];
    }
  }

  lemma SweepKeepsTables(limits: Limits, s: Sys)
    requires Inv(limits, s) && Enabled(s, SweepQueuesStep)
    ensures var s' := DoSweepQueues(s); IssueInv(s') && CallInv(s') && PendingInv(s') && HandedInv(s')
  {
    forall id | id in s.issued
      ensures id in SweptIds(s.tables, s.eviction.stale) <==>
              s.issued[id].sn in s.eviction.stale && (s.issued[id].place == Queued || s.issued[id].place == Pending)
    {
      SweptMeaning(limits, s, s.eviction.stale, id);
    }
  }

  lemma SweepKeepsQueues(limits: Limits, s: Sys)
    requires Inv(limits, s) && Enabled(s, SweepQueuesStep)
    ensures QueueInv(DoSweepQueues(s))
  {
    var s', stale := DoSweepQueues(s), s.eviction.stale;
    forall sn, entry | sn in s'.tables.queue && entry in s'.tables.queue[sn]
      ensures EntryInv(s', sn, entry)
    {
      assert EntryInv(s, sn, entry);
      SweptMeaning(limits, s, stale, entry.id);
    }
    forall id | id in s'.issued && s'.issued[id].place == Queued
      ensures id in Ids(Queue(s'.tables, s'.issued[id].sn))
    {
      SweptMeaning(limits, s, stale, id);
    }
  }

  lemma SweepKeepsRest(limits: Limits, s: Sys)
    requires Inv(limits, s) && Enabled(s, SweepQueuesStep)
    ensures var s' := DoSweepQueues(s); LimitInv(limits, s') && HistoryInv(s')
  {
    var s', stale := DoSweepQueues(s), s.eviction.stale;
    forall sn
      ensures Load(s'.tables, sn) <= Load(s.tables, sn)
      ensures History(s'.appended, sn) == History(s'.drained, sn) + Queue(s'.tables, sn)
    {
      SweepLoad(s.tables, stale, sn);
      assert History(s.appended, sn) == History(s.drained, sn) + Queue(s.tables, sn);
    }
  }

  /** The steps that touch no command: devices, and the confirmation steps before the
      deletion. */
  predicate TouchesNoCommand(step: Step) {
    !step.Take? && !step.Enqueue? && !step.DrainStep? && !step.Delete? && !step.SweepQueuesStep? && !step.Check?
  }

  /** The two states agree on everything that concerns commands. */
  ghost predicate SameCommands(s: Sys, s': Sys) {
    && s'.tables.queue == s.tables.queue && s'.tables.pending == s.tables.pending && s'.tables.cmdID == s.tables.cmdID
    && s'.calls == s.calls && s'.issued == s.issued && s'.handed == s.handed
    && s'.appended == s.appended && s'.drained == s.drained
  }

  lemma OtherFrame(limits: Limits, s: Sys, step: Step)
    requires Enabled(s, step) && TouchesNoCommand(step)
    ensures SameCommands(s, Next(limits, s, step))
  {
  }

  lemma CheckKeepsInv(limits: Limits, s: Sys, t: nat, sn: string, cmd: string)
    requires Inv(limits, s) && Enabled(s, Check(t, sn, cmd))
    ensures Inv(limits, DoCheck(s, t, sn, cmd))
  {
  }

  lemma SameCommandsKeepInv(limits: Limits, s: Sys, s': Sys)
    requires Inv(limits, s) && SameCommands(s, s')
    ensures Inv(limits, s')
  {
    assert forall sn :: Queue(s'.tables, sn) == Queue(s.tables, sn);
    assert forall sn :: Load(s'.tables, sn) == Load(s.tables, sn);
  }

  lemma StepKeepsInv(limits: Limits, s: Sys, step: Step)
    requires Inv(limits, s) && Enabled(s, step)
    ensures Inv(limits, Next(limits, s, step))
  {
    match step
    case Check(t, sn, cmd) => CheckKeepsInv(limits, s, t, sn, cmd);
    case Take(t) =>
      TakeKeepsCalls(limits, s, t);
      TakeKeepsTables(limits, s, t);
      TakeKeepsRest(limits, s, t);
    case Enqueue(t) =>
      if HasRoom(limits, s.tables, s.calls[t].sn) {
        EnqueueKeepsTables(limits, s, t);
        EnqueueKeepsQueues(limits, s, t);
        EnqueueKeepsRest(limits, s, t);
      } else {
        RefuseKeepsTables(limits, s, t);
        RefuseKeepsRest(limits, s, t);
      }
    case DrainStep(sn) =>
      DrainKeepsTables(limits, s, sn);
      DrainKeepsPending(limits, s, sn);
      DrainKeepsRest(limits, s, sn);
      DrainKeepsHanded(limits, s, sn);
    case Delete(p) =>
      DeleteKeepsCalls(limits, s, p);
      DeleteKeepsTables(limits, s, p);
      DeleteKeepsRest(limits, s, p);
    case SweepQueuesStep =>
      SweepKeepsTables(limits, s);
      SweepKeepsQueues(limits, s);
      SweepKeepsRest(limits, s);
    case _ =>
      OtherFrame(limits, s, step);
      SameCommandsKeepInv(limits, s, Next(limits, s, step));
  }

  /** The invariant holds in every state of every interleaving. */
  lemma {:induction false} RunKeepsInv(limits: Limits, states: seq<Sys>, steps: seq<Step>, i: nat)
    requires Run(limits, states, steps) && i < |states|
    ensures Inv(limits, states[i])
  {
    if i == 0 {
      StartInv(limits);
    } else {
      RunKeepsInv(limits, states, steps, i - 1);
      StepKeepsInv(limits, states[i - 1], steps[i - 1]);
    }
  }

  // -------------------------------------------------------------- consequences

  ghost predicate IsHeld(s: Sys, id: int) {
    exists t :: t in s.calls && s.calls[t].Holding? && s.calls[t].id == id
  }

  /** The id stands at position i of the queue of sn. */
  predicate QueuedAt(s: Sys, id: int, sn: string, i: nat) {
    i < |Queue(s.tables, sn)| && Queue(s.tables, sn)[i].id == id
  }

  ghost predicate IsQueued(s: Sys, id: int) {
    exists sn: string, i: nat :: QueuedAt(s, id, sn, i)
  }

  predicate IsRefused(s: Sys, id: int) { id in s.issued && s.issued[id].place == Refused }

  predicate IsRetired(s: Sys, id: int) { id in s.issued && s.issued[id].place == Retired }

  function One(b: bool): nat { if b then 1 else 0 }

  lemma QueuedIsQueued(limits: Limits, s: Sys, id: int)
    requires Inv(limits, s)
    ensures IsQueued(s, id) <==> id in s.issued && s.issued[id].place == Queued
  {
    if sn: string, i: nat :| QueuedAt(s, id, sn, i) {
      assert EntryInv(s, sn, Queue(s.tables, sn)[i]);
    }
    if id in s.issued && s.issued[id].place == Queued {
      var sn := s.issued[id].sn;
      var entry :| entry in Queue(s.tables, sn) && entry.id == id;
      var i :| 0 <= i < |Queue(s.tables, sn)| && Queue(s.tables, sn)[i] == entry;
      assert QueuedAt(s, id, sn, i);
    }
  }

  /** Every issued id is in exactly one place: taken by a call and not appended, refused,
      at one position of one queue, pending, or retired. */
  lemma ExactlyOnePlace(limits: Limits, states: seq<Sys>, steps: seq<Step>, k: nat, id: int)
    requires Run(limits, states, steps) && k < |states|
    requires 1 <= id <= states[k].tables.cmdID
    ensures var s := states[k];
            One(IsHeld(s, id)) + One(IsRefused(s, id)) + One(IsQueued(s, id))
              + One(id in s.tables.pending) + One(IsRetired(s, id)) == 1
  {
    RunKeepsInv(limits, states, steps, k);
    QueuedIsQueued(limits, states[k], id);
  }

  /** A queued id has one position in one queue. */
  lemma OnePosition(limits: Limits, states: seq<Sys>, steps: seq<Step>, k: nat, id: int,
                    sn: string, i: nat, sn': string, i': nat)
    requires Run(limits, states, steps) && k < |states|
    requires QueuedAt(states[k], id, sn, i) && QueuedAt(states[k], id, sn', i')
    ensures sn == sn' && i == i'
  {
    RunKeepsInv(limits, states, steps, k);
    var s := states[k];
    assert EntryInv(s, sn, Queue(s.tables, sn)[i]);
    assert EntryInv(s, sn', Queue(s.tables, sn')[i']);
    assert DistinctIds(Queue(s.tables, sn));
  }

  /** No id that is out of the tables comes back, and no id changes its command. */
  ghost predicate Keeps(s: Sys, s': Sys) {
    && s.tables.cmdID <= s'.tables.cmdID
    && s.handed <= s'.handed
    && forall id | id in s.issued ::
         && id in s'.issued && s'.issued[id].sn == s.issued[id].sn && s'.issued[id].cmd == s.issued[id].cmd
         && (s.issued[id].place == Refused ==> s'.issued[id].place == Refused)
         && (s.issued[id].place == Retired ==> s'.issued[id].place == Retired)
  }

  lemma SweepKeepsPlaces(limits: Limits, s: Sys)
    requires Inv(limits, s) && Enabled(s, SweepQueuesStep)
    ensures Keeps(s, DoSweepQueues(s))
  {
    forall id | id in s.issued
      ensures id in SweptIds(s.tables, s.eviction.stale) ==>
                s.issued[id].place == Queued || s.issued[id].place == Pending
    {
      SweptMeaning(limits, s, s.eviction.stale, id);
    }
  }

  lemma DrainKeepsPlaces(limits: Limits, s: Sys, sn: string)
    requires Inv(limits, s)
    ensures Keeps(s, DoDrain(s, sn))
  {
    BatchNotPending(limits, s, sn);
  }

  lemma TakeKeepsPlaces(limits: Limits, s: Sys, t: nat)
    requires Inv(limits, s) && Enabled(s, Take(t))
    ensures Keeps(s, DoTake(s, t))
  {
  }

  lemma EnqueueKeepsPlaces(limits: Limits, s: Sys, t: nat)
    requires Inv(limits, s) && Enabled(s, Enqueue(t))
    ensures Keeps(s, DoEnqueue(limits, s, t))
  {
  }

  lemma DeleteKeepsPlaces(limits: Limits, s: Sys, p: nat)
    requires Inv(limits, s) && Enabled(s, Delete(p))
    ensures Keeps(s, DoDelete(s, p))
  {
  }

  lemma StepKeepsPlaces(limits: Limits, s: Sys, step: Step)
    requires Inv(limits, s) && Enabled(s, step)
    ensures Keeps(s, Next(limits, s, step))
  {
    match step
    case DrainStep(sn) => DrainKeepsPlaces(limits, s, sn);
    case SweepQueuesStep => SweepKeepsPlaces(limits, s);
    case Check(_, _, _) =>
    case Take(t) => TakeKeepsPlaces(limits, s, t);
    case Enqueue(t) => EnqueueKeepsPlaces(limits, s, t);
    case Delete(p) => DeleteKeepsPlaces(limits, s, p);
    case _ => OtherFrame(limits, s, step);
  }

  lemma KeepsTransitive(s: Sys, s': Sys, s'': Sys)
    requires Keeps(s, s') && Keeps(s', s'')
    ensures Keeps(s, s'')
  {
  }

  lemma RunStepKeepsPlaces(limits: Limits, states: seq<Sys>, steps: seq<Step>, i: nat)
    requires Run(limits, states, steps) && i < |steps|
    ensures Keeps(states[i], states[i + 1])
  {
    RunKeepsInv(limits, states, steps, i);
    StepKeepsPlaces(limits, states[i], steps[i]);
  }

  lemma {:induction false} RunKeepsPlaces(limits: Limits, states: seq<Sys>, steps: seq<Step>, i: nat, j: nat)
    requires Run(limits, states, steps) && i <= j < |states|
    ensures Keeps(states[i], states[j])
  {
    if i < j {
      RunKeepsPlaces(limits, states, steps, i, j - 1);
      RunStepKeepsPlaces(limits, states, steps, j - 1);
      KeepsTransitive(states[i], states[j - 1], states[j]);
    }
  }

  /** What leaves a call, a queue or a confirmation is final: a refused or retired id stays
      so in every later state, and is never again queued or pending. */
  lemma OutIsFinal(limits: Limits, states: seq<Sys>, steps: seq<Step>, i: nat, j: nat, id: int)
    requires Run(limits, states, steps) && i <= j < |states|
    requires IsRefused(states[i], id) || IsRetired(states[i], id)
    ensures IsRefused(states[j], id) == IsRefused(states[i], id)
    ensures IsRetired(states[j], id) == IsRetired(states[i], id)
    ensures !IsQueued(states[j], id) && id !in states[j].tables.pending && !IsHeld(states[j], id)
  {
    RunKeepsPlaces(limits, states, steps, i, j);
    RunKeepsInv(limits, states, steps, j);
    QueuedIsQueued(limits, states[j], id);
  }

  /** An id keeps the device and the command of the call that took it, in a queue and as a
      pending entry. */
  lemma CarriesItsCommand(limits: Limits, states: seq<Sys>, steps: seq<Step>, i: nat, j: nat, t: nat, id: int)
    requires Run(limits, states, steps) && i < j < |states|
    requires steps[i] == Take(t) && id == states[i + 1].tables.cmdID
    ensures var call, s := states[i].calls[t], states[j];
            && (id in s.tables.pending ==> s.tables.pending[id] == PendingEntry(call.sn, call.cmd))
            && (forall sn: string, k: nat | QueuedAt(s, id, sn, k) ::
                  sn == call.sn && Queue(s.tables, sn)[k].command == call.cmd)
  {
    RunKeepsPlaces(limits, states, steps, i + 1, j);
    RunKeepsInv(limits, states, steps, j);
    var s := states[j];
    forall sn: string, k: nat | QueuedAt(s, id, sn, k)
      ensures EntryInv(s, sn, Queue(s.tables, sn)[k])
    {
    }
  }

  /** With a positive limit, no device ever has more queued and pending commands than it. */
  lemma LimitHolds(limits: Limits, states: seq<Sys>, steps: seq<Step>, k: nat, sn: string)
    requires Run(limits, states, steps) && k < |states| && limits.maxCommandsPerDevice > 0
    ensures |Queue(states[k].tables, sn)| + |PendingOf(states[k].tables.pending, sn)| <= limits.maxCommandsPerDevice
  {
    RunKeepsInv(limits, states, steps, k);
    assert Load(states[k].tables, sn) <= limits.maxCommandsPerDevice;
  }

  /** A drain leaves every device's sum of queued and pending commands unchanged. */
  lemma DrainConserves(limits: Limits, states: seq<Sys>, steps: seq<Step>, k: nat, sn: string, other: string)
    requires Run(limits, states, steps) && k < |steps| && steps[k] == DrainStep(sn)
    ensures Load(states[k + 1].tables, other) == Load(states[k].tables, other)
    ensures Queue(states[k + 1].tables, sn) == []
  {
    RunKeepsInv(limits, states, steps, k);
    BatchNotPending(limits, states[k], sn);
    DrainKeepsLoad(states[k].tables, sn, other);
  }

  /** For each device, the batches drained since its last eviction followed by its queue
      are the commands appended since then, in append order; and over the whole run no id
      is handed out twice. */
  lemma DrainsInOrder(limits: Limits, states: seq<Sys>, steps: seq<Step>, k: nat, sn: string)
    requires Run(limits, states, steps) && k < |states|
    ensures var s := states[k];
            && History(s.appended, sn) == History(s.drained, sn) + Queue(s.tables, sn)
            && (forall i, j | 0 <= i < j < |s.handed| :: s.handed[i] != s.handed[j])
  {
    RunKeepsInv(limits, states, steps, k);
  }

  /** Whatever a drain hands out can be sent as one line. */
  lemma DrainsAreClean(limits: Limits, states: seq<Sys>, steps: seq<Step>, k: nat, sn: string)
    requires Run(limits, states, steps) && k < |states|
    ensures forall entry | entry in Queue(states[k].tables, sn) :: NoLineBreak(entry.command)
  {
    RunKeepsInv(limits, states, steps, k);
    BatchNotPending(limits, states[k], sn);
  }

  /** So in every reachable state the poll response of every device is read back to the
      very commands that are drained, in order, and is `OK` only if there are none. */
  lemma PollIsReadable(limits: Limits, states: seq<Sys>, steps: seq<Step>, k: nat, sn: string)
    requires Run(limits, states, steps) && k < |states|
    ensures var batch := Queue(states[k].tables, sn);
            && PollResponse.Read(PollResponse.Response(batch)) == Wrappers.Some(batch)
            && (PollResponse.Response(batch) == PollResponse.OK <==> batch == [])
  {
    var batch := Queue(states[k].tables, sn);
    DrainsAreClean(limits, states, steps, k, sn);
    forall i | 0 <= i < |batch|
      ensures NoLineBreak(batch[i].command)
    {
      assert batch[i] in batch;
    }
    PollResponse.ResponseRoundTrip(batch);
    PollResponse.OkMeansEmpty(batch);
  }

  // ----------------------------------------------------------- building a run

  lemma RunSnoc(limits: Limits, states: seq<Sys>, steps: seq<Step>, step: Step)
    requires Run(limits, states, steps) && Enabled(states[|steps|], step)
    ensures Run(limits, states + [Next(limits, states[|steps|], step)], steps + [step])
  {
  }

  /** One more step of a run, to a state given in full. */
  lemma Extended(limits: Limits, states: seq<Sys>, steps: seq<Step>, step: Step, s': Sys)
    returns (states': seq<Sys>, steps': seq<Step>)
    requires Run(limits, states, steps) && Enabled(states[|steps|], step)
    requires s' == Next(limits, states[|steps|], step)
    ensures Run(limits, states', steps') && states' == states + [s'] && steps' == steps + [step]
  {
    RunSnoc(limits, states, steps, step);
    states', steps' := states + [s'], steps + [step];
  }
}
