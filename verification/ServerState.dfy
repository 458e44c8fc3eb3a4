/** The server's tables as a value, and the effect of each critical section on them.

    Each function below is what one lock-protected section of command.go, device.go,
    handler.go or adms.go does; the class in Server.dfy runs them as methods and module
    Lifecycle interleaves them. */
module ServerState {
  import opened Wrappers
  import opened Text
  import opened Types

  /** The configured limits; 0 means unlimited. */
  datatype Limits = Limits(maxDevices: nat, maxCommandsPerDevice: nat, evictionTimeout: int)

  datatype DeviceInfo = DeviceInfo(lastActivity: int, options: map<string, string>, timezone: Option<Zone>)

  datatype State = State(
    devices: map<string, DeviceInfo>,
    queue: map<string, seq<CommandEntry>>,
    pending: map<int, PendingEntry>,
    cmdID: nat)

  const EMPTY: State := State(map[], map[], map[], 0)

  /** A missing key of the queue table reads as an empty queue. */
  function Queue(s: State, sn: string): seq<CommandEntry> {
    if sn in s.queue then s.queue[sn] else []
  }

  function PendingOf(pending: map<int, PendingEntry>, sn: string): set<int> {
    set id | id in pending && pending[id].sn == sn
  }

  /** Queued plus pending commands of a device. */
  function Load(s: State, sn: string): nat {
    |Queue(s, sn)| + |PendingOf(s.pending, sn)|
  }

  /** The devices that have commands. */
  ghost predicate HasCommands(tables: State, sn: string) {
    Queue(tables, sn) != [] || PendingOf(tables.pending, sn) != {}
  }

  function Ids(entries: seq<CommandEntry>): set<int> {
    set entry | entry in entries :: entry.id
  }

  ghost predicate DistinctIds(entries: seq<CommandEntry>) {
    forall i, j | 0 <= i < j < |entries| :: entries[i].id != entries[j].id
  }

  ghost predicate Ascending(entries: seq<CommandEntry>) {
    forall i, j | 0 <= i < j < |entries| :: entries[i].id < entries[j].id
  }

  // --------------------------------------------------------- critical sections

  predicate DevicesFull(limits: Limits, s: State) {
    limits.maxDevices > 0 && |s.devices| >= limits.maxDevices
  }

  /** RegisterDevice, without options: a known device is kept, a new one is added if the
      limit allows it. */
  function Register(limits: Limits, s: State, sn: string, now: int): (s': State)
    ensures s' == s.(devices := s'.devices)
  {
    if sn in s.devices || DevicesFull(limits, s) then s
    else s.(devices := s.devices[sn := DeviceInfo(now, map[], None)])
  }

  function ApplyOption(info: DeviceInfo, opt: DeviceOption): DeviceInfo {
    if opt.loc.Some? then info.(timezone := opt.loc) else info
  }

  /** Options applied one after the other. */
  function Configured(info: DeviceInfo, opts: seq<DeviceOption>): DeviceInfo {
    if opts == [] then info
    else ApplyOption(Configured(info, opts[..|opts| - 1]), opts[|opts| - 1])
  }

  /** The options of a RegisterDevice call, for a known device. */
  function Configure(s: State, sn: string, opts: seq<DeviceOption>): (s': State)
    ensures s' == s.(devices := s'.devices) && s'.devices.Keys == s.devices.Keys
  {
    if sn in s.devices then s.(devices := s.devices[sn := Configured(s.devices[sn], opts)]) else s
  }

  /** Only the zone is configured. */
  lemma {:induction false} ConfiguredFields(info: DeviceInfo, opts: seq<DeviceOption>)
    ensures Configured(info, opts) == info.(timezone := Configured(info, opts).timezone)
  {
    if opts != [] {
      ConfiguredFields(info, opts[..|opts| - 1]);
    }
  }

  /** The last option that names a zone decides. */
  lemma {:induction false} ConfiguredZone(info: DeviceInfo, opts: seq<DeviceOption>, i: nat)
    requires i < |opts| && opts[i].loc.Some?
    requires forall j | i < j < |opts| :: opts[j].loc.None?
    ensures Configured(info, opts).timezone == opts[i].loc
  {
    if i < |opts| - 1 {
      ConfiguredZone(info, opts[..|opts| - 1], i);
    }
  }

  /** updateDeviceActivity. */
  function Touch(s: State, sn: string, now: int): (s': State)
    ensures s' == s.(devices := s'.devices)
  {
    if sn in s.devices then s.(devices := s.devices[sn := s.devices[sn].(lastActivity := now)]) else s
  }

  /** The options merge of HandleRegistry. */
  function MergeOptions(s: State, sn: string, info: map<string, string>): (s': State)
    ensures s' == s.(devices := s'.devices)
  {
    if sn in s.devices then s.(devices := s.devices[sn := s.devices[sn].(options := s.devices[sn].options + info)])
    else s
  }

  /** SetDeviceTimezone. */
  function SetTimezone(s: State, sn: string, loc: Option<Zone>): (s': State)
    ensures s' == s.(devices := s'.devices)
  {
    if sn in s.devices then s.(devices := s.devices[sn := s.devices[sn].(timezone := loc)]) else s
  }

  /** The last section of QueueCommand is allowed to append. */
  predicate HasRoom(limits: Limits, s: State, sn: string) {
    limits.maxCommandsPerDevice == 0 || Load(s, sn) < limits.maxCommandsPerDevice
  }

  function Append(s: State, sn: string, entry: CommandEntry): State {
    s.(queue := s.queue[sn := Queue(s, sn) + [entry]])
  }

  /** A batch as pending entries. */
  function AsPending(sn: string, batch: seq<CommandEntry>): map<int, PendingEntry> {
    if batch == [] then map[]
    else
      var n := |batch| - 1;
      AsPending(sn, batch[..n])[batch[n].id := PendingEntry(sn, batch[n].command)]
  }

  /** DrainCommands. */
  function Drain(s: State, sn: string): State {
    s.(queue := s.queue - {sn}, pending := s.pending + AsPending(sn, Queue(s, sn)))
  }

  /** The deletion after a dispatched confirmation: by id alone. */
  function Forget(s: State, id: int): State {
    s.(pending := s.pending - {id})
  }

  /** The devices idle for longer than the timeout. */
  function Stale(limits: Limits, s: State, now: int): set<string> {
    set sn | sn in s.devices && now - s.devices[sn].lastActivity > limits.evictionTimeout
  }

  /** Phase 1 of an eviction. */
  function SweepDevices(s: State, stale: set<string>): (s': State)
    ensures s' == s.(devices := s'.devices)
  {
    s.(devices := s.devices - stale)
  }

  /** Phase 2 of an eviction. */
  function SweepQueues(s: State, stale: set<string>): State {
    s.(queue := s.queue - stale,
       pending := map id | id in s.pending && s.pending[id].sn !in stale :: s.pending[id])
  }

  // ------------------------------------------------------------ what they keep

  lemma IdsLast(entries: seq<CommandEntry>)
    requires entries != []
    ensures var n := |entries| - 1; Ids(entries) == Ids(entries[..n]) + {entries[n].id}
  {
    var n := |entries| - 1;
    assert entries == entries[..n] + [entries[n]];
  }

  lemma {:induction false} AsPendingKeys(sn: string, batch: seq<CommandEntry>)
    ensures AsPending(sn, batch).Keys == Ids(batch)
    ensures forall id | id in AsPending(sn, batch) :: AsPending(sn, batch)[id].sn == sn
  {
    if batch != [] {
      AsPendingKeys(sn, batch[..|batch| - 1]);
      IdsLast(batch);
    }
  }

  lemma {:induction false} AsPendingEntry(sn: string, batch: seq<CommandEntry>, i: nat)
    requires DistinctIds(batch) && i < |batch|
    ensures batch[i].id in AsPending(sn, batch)
    ensures AsPending(sn, batch)[batch[i].id] == PendingEntry(sn, batch[i].command)
  {
    var n := |batch| - 1;
    if i < n {
      AsPendingEntry(sn, batch[..n], i);
    }
  }

  lemma {:induction false} IdsCount(entries: seq<CommandEntry>)
    requires DistinctIds(entries)
    ensures |Ids(entries)| == |entries|
  {
    if entries != [] {
      var n := |entries| - 1;
      IdsCount(entries[..n]);
      IdsLast(entries);
      assert entries[n].id !in Ids(entries[..n]);
    }
  }

  lemma DrainedPending(s: State, sn: string, other: string)
    requires Ids(Queue(s, sn)) !! s.pending.Keys
    ensures PendingOf(Drain(s, sn).pending, other) ==
            PendingOf(s.pending, other) + if other == sn then Ids(Queue(s, sn)) else {}
  {
    AsPendingKeys(sn, Queue(s, sn));
  }

  lemma DistinctSnoc(entries: seq<CommandEntry>, entry: CommandEntry)
    requires DistinctIds(entries) && entry.id !in Ids(entries)
    ensures DistinctIds(entries + [entry])
    ensures Ids(entries + [entry]) == Ids(entries) + {entry.id}
  {
    forall i | 0 <= i < |entries|
      ensures entries[i].id != entry.id
    {
      assert entries[i] in entries;
    }
  }

  /** Draining moves a device's commands from its queue to its pending entries and
      changes no device's load. */
  lemma DrainKeepsLoad(s: State, sn: string, other: string)
    requires DistinctIds(Queue(s, sn)) && Ids(Queue(s, sn)) !! s.pending.Keys
    ensures Load(Drain(s, sn), other) == Load(s, other)
  {
    DrainedPending(s, sn, other);
    if other == sn {
      IdsCount(Queue(s, sn));
      assert PendingOf(s.pending, sn) !! Ids(Queue(s, sn));
    }
  }

  lemma AppendLoad(s: State, sn: string, entry: CommandEntry, other: string)
    ensures Load(Append(s, sn, entry), other) == Load(s, other) + if other == sn then 1 else 0
  {
  }

  lemma SubsetCount(a: set<int>, b: set<int>)
    requires a <= b
    ensures |a| <= |b|
  {
    assert b == a + (b - a);
  }

  lemma ForgetLoad(s: State, id: int, sn: string)
    ensures Load(Forget(s, id), sn) <= Load(s, sn)
  {
    SubsetCount(PendingOf(Forget(s, id).pending, sn), PendingOf(s.pending, sn));
  }

  lemma SweepLoad(s: State, stale: set<string>, sn: string)
    ensures Load(SweepQueues(s, stale), sn) == if sn in stale then 0 else Load(s, sn)
  {
    var s' := SweepQueues(s, stale);
    if sn in stale {
      assert PendingOf(s'.pending, sn) == {};
    } else {
      assert PendingOf(s'.pending, sn) == PendingOf(s.pending, sn);
    }
  }
}
