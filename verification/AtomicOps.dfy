/** The operations of the server when each runs without interruption, and the invariant
    of its tables that then holds. */
module AtomicOps {
  import opened Wrappers
  import opened Text
  import opened Types
  import opened ServerState
  import opened Confirmation
  import opened KeyValues

  const MAX_SERIAL_LENGTH: nat := 64

  predicate SerialChar(c: char) {
    'A' <= c <= 'Z' || 'a' <= c <= 'z' || '0' <= c <= '9' || c == '_' || c == '-'
  }

  /** validateSerialNumber. */
  predicate ValidSerial(sn: string) {
    0 < |sn| <= MAX_SERIAL_LENGTH && forall i | 0 <= i < |sn| :: SerialChar(sn[i])
  }

  /** requireDevice: the device is registered if need be, and its activity noted. */
  function Require(limits: Limits, s: State, sn: string, now: int): Option<State> {
    if !ValidSerial(sn) || (sn !in s.devices && DevicesFull(limits, s)) then None
    else Some(Touch(Register(limits, s, sn, now), sn, now))
  }

  /** QueueCommand: a call that is refused for lack of room still uses up an id. */
  function QueueCommand(limits: Limits, s: State, sn: string, cmd: string): (State, Result<int>) {
    if !NoLineBreak(cmd) then (s, Err(InvalidCommandField))
    else if sn !in s.devices then (s, Err(DeviceNotFound))
    else
      var id := s.cmdID + 1;
      var taken := s.(cmdID := id);
      if HasRoom(limits, s, sn) then (Append(taken, sn, CommandEntry(id, cmd)), Ok(id))
      else (taken, Err(CommandQueueFull))
  }

  /** The deletions of a confirmation of which the given results were served. */
  function Confirm(s: State, results: seq<CommandResult>): State {
    s.(pending := After(s.pending, results))
  }

  /** evictStaleDevices. */
  function Evict(limits: Limits, s: State, now: int): State {
    var stale := Stale(limits, s, now);
    SweepQueues(SweepDevices(s, stale), stale)
  }

  // ---------------------------------------------------------------- invariant

  /** Every command belongs to a registered device. */
  ghost predicate Owned(s: State) {
    forall sn | HasCommands(s, sn) :: sn in s.devices
  }

  ghost predicate WithinDeviceLimit(limits: Limits, s: State) {
    limits.maxDevices > 0 ==> |s.devices| <= limits.maxDevices
  }

  ghost predicate WithinCommandLimit(limits: Limits, s: State) {
    limits.maxCommandsPerDevice > 0 ==> forall sn :: Load(s, sn) <= limits.maxCommandsPerDevice
  }

  ghost predicate QueuedOk(s: State, e: CommandEntry) {
    1 <= e.id <= s.cmdID && e.id !in s.pending && NoLineBreak(e.command)
  }

  ghost predicate EntriesInv(s: State) {
    && (forall sn, e | sn in s.queue && e in s.queue[sn] :: QueuedOk(s, e))
    && (forall id | id in s.pending :: 1 <= id <= s.cmdID && NoLineBreak(s.pending[id].cmd))
  }

  ghost predicate OnceInv(s: State) {
    && (forall sn | sn in s.queue :: Ascending(s.queue[sn]))
    && (forall sn, sn' | sn in s.queue && sn' in s.queue && sn != sn' :: Ids(s.queue[sn]) !! Ids(s.queue[sn']))
  }

  /** Ids were issued, are used once and in order, and stand for commands without line
      breaks. */
  ghost predicate IdsInv(s: State) {
    EntriesInv(s) && OnceInv(s)
  }

  ghost predicate AtomicInv(limits: Limits, s: State) {
    Owned(s) && WithinDeviceLimit(limits, s) && WithinCommandLimit(limits, s) && IdsInv(s)
  }

  lemma EntriesKeep(s: State, s': State)
    requires EntriesInv(s) && s.cmdID <= s'.cmdID
    requires forall sn, e | sn in s'.queue && e in s'.queue[sn] :: sn in s.queue && e in s.queue[sn]
    requires forall id | id in s'.pending :: id in s.pending && s'.pending[id] == s.pending[id]
    ensures EntriesInv(s')
  {
    forall sn, e | sn in s'.queue && e in s'.queue[sn]
      ensures QueuedOk(s', e)
    {
      assert QueuedOk(s, e);
    }
  }

  lemma EmptyInv(limits: Limits)
    ensures AtomicInv(limits, EMPTY)
  {
  }

  lemma SameCommandsKeep(limits: Limits, s: State, s': State)
    requires AtomicInv(limits, s) && s' == s.(devices := s'.devices)
    requires s.devices.Keys <= s'.devices.Keys
    ensures Owned(s') && WithinCommandLimit(limits, s') && IdsInv(s')
  {
    forall sn
      ensures Queue(s', sn) == Queue(s, sn) && Load(s', sn) == Load(s, sn)
      ensures HasCommands(s', sn) <==> HasCommands(s, sn)
    {
    }
    EntriesKeep(s, s');
  }

  lemma CountKeys(s: State, s': State, sn: string)
    requires s'.devices.Keys == s.devices.Keys + {sn}
    ensures |s'.devices| == |s.devices| + if sn in s.devices then 0 else 1
  {
    if sn in s.devices {
      assert s'.devices.Keys == s.devices.Keys;
    }
    assert |s'.devices| == |s'.devices.Keys| && |s.devices| == |s.devices.Keys|;
  }

  lemma AscendingSnoc(entries: seq<CommandEntry>, entry: CommandEntry)
    requires Ascending(entries) && forall e | e in entries :: e.id < entry.id
    ensures Ascending(entries + [entry])
    ensures Ids(entries + [entry]) == Ids(entries) + {entry.id}
  {
  }

  lemma AppendKeepsEntries(s: State, sn: string, cmd: string)
    requires IdsInv(s) && NoLineBreak(cmd)
    ensures EntriesInv(Append(s.(cmdID := s.cmdID + 1), sn, CommandEntry(s.cmdID + 1, cmd)))
  {
    var entry := CommandEntry(s.cmdID + 1, cmd);
    var s' := Append(s.(cmdID := entry.id), sn, entry);
    forall other, e | other in s'.queue && e in s'.queue[other]
      ensures QueuedOk(s', e)
    {
      if other != sn || e != entry {
        assert QueuedOk(s, e);
      }
    }
  }

  lemma AppendKeepsOnce(s: State, sn: string, cmd: string)
    requires IdsInv(s)
    ensures OnceInv(Append(s.(cmdID := s.cmdID + 1), sn, CommandEntry(s.cmdID + 1, cmd)))
  {
    var entry, before := CommandEntry(s.cmdID + 1, cmd), Queue(s, sn);
    var s' := Append(s.(cmdID := entry.id), sn, entry);
    assert forall e | e in before :: QueuedOk(s, e);
    AscendingSnoc(before, entry);
    assert s'.queue[sn] == before + [entry];
    forall other | other in s.queue && other != sn
      ensures Ids(s'.queue[other]) !! Ids(before + [entry])
    {
      assert s'.queue[other] == s.queue[other];
      assert forall e | e in s.queue[other] :: QueuedOk(s, e);
    }
  }

  lemma AppendKeepsIds(s: State, sn: string, cmd: string)
    requires IdsInv(s) && NoLineBreak(cmd)
    ensures IdsInv(Append(s.(cmdID := s.cmdID + 1), sn, CommandEntry(s.cmdID + 1, cmd)))
  {
    AppendKeepsEntries(s, sn, cmd);
    AppendKeepsOnce(s, sn, cmd);
  }

  lemma TakeKeepsIds(s: State)
    requires IdsInv(s)
    ensures IdsInv(s.(cmdID := s.cmdID + 1))
  {
    EntriesKeep(s, s.(cmdID := s.cmdID + 1));
  }

  lemma {:induction false} QueueKeepsIds(limits: Limits, s: State, sn: string, cmd: string)
    requires AtomicInv(limits, s)
    ensures IdsInv(QueueCommand(limits, s, sn, cmd).0)
  {
    if NoLineBreak(cmd) && sn in s.devices {
      if HasRoom(limits, s, sn) {
        AppendKeepsIds(s, sn, cmd);
      } else {
        TakeKeepsIds(s);
      }
    }
  }

  lemma QueueKeeps(limits: Limits, s: State, sn: string, cmd: string)
    requires AtomicInv(limits, s)
    ensures AtomicInv(limits, QueueCommand(limits, s, sn, cmd).0)
  {
    var (s', r) := QueueCommand(limits, s, sn, cmd);
    QueueKeepsIds(limits, s, sn, cmd);
    forall other
      ensures Load(s', other) == Load(s, other) + if r.Ok? && other == sn then 1 else 0
      ensures HasCommands(s', other) ==> HasCommands(s, other) || (other == sn && sn in s.devices)
    {
    }
  }

  lemma QueueAndPendingApart(s: State, sn: string)
    requires IdsInv(s)
    ensures DistinctIds(Queue(s, sn)) && Ids(Queue(s, sn)) !! s.pending.Keys
  {
    assert forall e | e in Queue(s, sn) :: QueuedOk(s, e);
  }

  lemma DrainKeepsEntries(s: State, sn: string)
    requires IdsInv(s)
    ensures EntriesInv(Drain(s, sn))
  {
    var s', batch := Drain(s, sn), Queue(s, sn);
    AsPendingKeys(sn, batch);
    forall id | id in Ids(batch)
      ensures 1 <= id <= s.cmdID && NoLineBreak(AsPending(sn, batch)[id].cmd)
    {
      var i :| 0 <= i < |batch| && batch[i].id == id;
      AsPendingEntry(sn, batch, i);
      assert QueuedOk(s, batch[i]);
    }
    forall other, e | other in s'.queue && e in s'.queue[other]
      ensures QueuedOk(s', e)
    {
      assert QueuedOk(s, e) && e.id in Ids(s.queue[other]);
    }
  }

  lemma DrainKeeps(limits: Limits, s: State, sn: string)
    requires AtomicInv(limits, s)
    ensures AtomicInv(limits, Drain(s, sn))
  {
    DrainKeepsEntries(s, sn);
    QueueAndPendingApart(s, sn);
    forall other
      ensures Load(Drain(s, sn), other) == Load(s, other)
      ensures HasCommands(Drain(s, sn), other) ==> HasCommands(s, other)
    {
      DrainKeepsLoad(s, sn, other);
      DrainedPending(s, sn, other);
    }
  }

  lemma ConfirmKeeps(limits: Limits, s: State, results: seq<CommandResult>)
    requires AtomicInv(limits, s)
    ensures AtomicInv(limits, Confirm(s, results))
  {
    var s' := Confirm(s, results);
    forall sn
      ensures Load(s', sn) <= Load(s, sn) && (HasCommands(s', sn) ==> HasCommands(s, sn))
    {
      SubsetCount(PendingOf(s'.pending, sn), PendingOf(s.pending, sn));
    }
    EntriesKeep(s, s');
  }

  /** An eviction removes exactly the devices idle for longer than the timeout, with all
      their queued and pending commands, and leaves everything else as it was. */
  lemma EvictMeaning(limits: Limits, s: State, now: int, sn: string)
    ensures var s', stale := Evict(limits, s, now), Stale(limits, s, now);
            && (sn in s'.devices <==> sn in s.devices && now - s.devices[sn].lastActivity <= limits.evictionTimeout)
            && (sn in s'.devices ==> s'.devices[sn] == s.devices[sn])
            && (sn in stale ==> !HasCommands(s', sn))
            && (sn !in stale ==> Queue(s', sn) == Queue(s, sn) && PendingOf(s'.pending, sn) == PendingOf(s.pending, sn)
                                 && forall id | id in PendingOf(s.pending, sn) :: s'.pending[id] == s.pending[id])
            && s'.cmdID == s.cmdID
  {
    var s', stale := Evict(limits, s, now), Stale(limits, s, now);
    if sn in stale {
      assert PendingOf(s'.pending, sn) == {};
    } else {
      assert PendingOf(s'.pending, sn) == PendingOf(s.pending, sn);
    }
  }

  lemma {:induction false} EvictKeeps(limits: Limits, s: State, now: int)
    requires AtomicInv(limits, s)
    ensures AtomicInv(limits, Evict(limits, s, now))
  {
    var s', stale := Evict(limits, s, now), Stale(limits, s, now);
    forall sn
      ensures Load(s', sn) <= Load(s, sn) && (HasCommands(s', sn) ==> HasCommands(s, sn) && sn in s'.devices)
    {
      EvictOne(limits, s, now, sn);
    }
    EvictKeepsIds(limits, s, now);
    KeysCount(s'.devices.Keys, s.devices.Keys);
  }

  lemma EvictOne(limits: Limits, s: State, now: int, sn: string)
    requires Owned(s)
    ensures var s' := Evict(limits, s, now);
            Load(s', sn) <= Load(s, sn) && (HasCommands(s', sn) ==> HasCommands(s, sn) && sn in s'.devices)
  {
    var stale := Stale(limits, s, now);
    EvictMeaning(limits, s, now, sn);
    if sn in stale {
      assert Queue(Evict(limits, s, now), sn) == [];
      assert PendingOf(Evict(limits, s, now).pending, sn) == {};
    }
  }

  lemma KeysCount(a: set<string>, b: set<string>)
    requires a <= b
    ensures |a| <= |b|
  {
    assert b == a + (b - a);
  }

  lemma EvictKeepsIds(limits: Limits, s: State, now: int)
    requires IdsInv(s)
    ensures IdsInv(Evict(limits, s, now))
  {
    EntriesKeep(s, Evict(limits, s, now));
  }

  /** RegisterDevice. */
  function RegisterDevice(limits: Limits, s: State, sn: string, now: int, opts: seq<DeviceOption>): State {
    if ValidSerial(sn) then Configure(Register(limits, s, sn, now), sn, opts) else s
  }

  lemma RegisterKeeps(limits: Limits, s: State, sn: string, now: int, opts: seq<DeviceOption>)
    requires AtomicInv(limits, s)
    ensures AtomicInv(limits, RegisterDevice(limits, s, sn, now, opts))
  {
    if ValidSerial(sn) {
      if sn !in s.devices && !DevicesFull(limits, s) {
        AddDeviceKeeps(limits, s, sn, DeviceInfo(now, map[], None));
      }
      var s1 := Register(limits, s, sn, now);
      DeviceFieldsKeep(limits, s1, Configure(s1, sn, opts));
    }
  }

  lemma AddDeviceKeeps(limits: Limits, s: State, sn: string, info: DeviceInfo)
    requires AtomicInv(limits, s) && sn !in s.devices && !DevicesFull(limits, s)
    ensures AtomicInv(limits, s.(devices := s.devices[sn := info]))
  {
    var s' := s.(devices := s.devices[sn := info]);
    SameCommandsKeep(limits, s, s');
    CountKeys(s, s', sn);
  }

  /** A change to the fields of known devices. */
  lemma DeviceFieldsKeep(limits: Limits, s: State, s': State)
    requires AtomicInv(limits, s) && s' == s.(devices := s'.devices) && s'.devices.Keys == s.devices.Keys
    ensures AtomicInv(limits, s')
  {
    SameCommandsKeep(limits, s, s');
    KeysCount(s'.devices.Keys, s.devices.Keys);
    assert |s'.devices| == |s'.devices.Keys| && |s.devices| == |s.devices.Keys|;
  }

  // ---------------------------------------------------------------------- runs

  datatype Op =
    | RegisterOp(sn: string, now: int, opts: seq<DeviceOption>)
    | TouchOp(sn: string, now: int)
    | OptionsOp(sn: string, info: map<string, string>)
    | TimezoneOp(sn: string, loc: Option<Zone>)
    | QueueOp(sn: string, cmd: string)
    | DrainOp(sn: string)
    | ConfirmOp(results: seq<CommandResult>)
    | EvictOp(now: int)

  function Apply(limits: Limits, s: State, op: Op): State {
    match op
    case RegisterOp(sn, now, opts) => RegisterDevice(limits, s, sn, now, opts)
    case TouchOp(sn, now) => Touch(s, sn, now)
    case OptionsOp(sn, info) => MergeOptions(s, sn, info)
    case TimezoneOp(sn, loc) => SetTimezone(s, sn, loc)
    case QueueOp(sn, cmd) => QueueCommand(limits, s, sn, cmd).0
    case DrainOp(sn) => Drain(s, sn)
    case ConfirmOp(results) => Confirm(s, results)
    case EvictOp(now) => Evict(limits, s, now)
  }

  function ApplyAll(limits: Limits, ops: seq<Op>): State {
    if ops == [] then EMPTY else Apply(limits, ApplyAll(limits, ops[..|ops| - 1]), ops[|ops| - 1])
  }

  lemma {:induction false} ApplyKeeps(limits: Limits, s: State, op: Op)
    requires AtomicInv(limits, s)
    ensures AtomicInv(limits, Apply(limits, s, op))
  {
    match op
    case RegisterOp(sn, now, opts) => RegisterKeeps(limits, s, sn, now, opts);
    case TouchOp(sn, now) => DeviceFieldsKeep(limits, s, Touch(s, sn, now));
    case OptionsOp(sn, info) => DeviceFieldsKeep(limits, s, MergeOptions(s, sn, info));
    case TimezoneOp(sn, loc) => DeviceFieldsKeep(limits, s, SetTimezone(s, sn, loc));
    case QueueOp(sn, cmd) => QueueKeeps(limits, s, sn, cmd);
    case DrainOp(sn) => DrainKeeps(limits, s, sn);
    case ConfirmOp(results) => ConfirmKeeps(limits, s, results);
    case EvictOp(now) => EvictKeeps(limits, s, now);
  }

  /** Whatever operations run, one after the other: every command belongs to a registered
      device, both limits hold, and ids are used once, in ascending order in each queue. */
  lemma {:induction false} ReachableInv(limits: Limits, ops: seq<Op>)
    ensures AtomicInv(limits, ApplyAll(limits, ops))
  {
    if ops == [] {
      EmptyInv(limits);
    } else {
      ReachableInv(limits, ops[..|ops| - 1]);
      ApplyKeeps(limits, ApplyAll(limits, ops[..|ops| - 1]), ops[|ops| - 1]);
    }
  }

  lemma ApplySnoc(limits: Limits, ops: seq<Op>, op: Op)
    ensures ApplyAll(limits, ops + [op]) == Apply(limits, ApplyAll(limits, ops), op)
  {
    assert (ops + [op])[..|ops|] == ops;
  }

  // ------------------------------------------------------------------ requests

  /** The operations with which a request of a device begins. */
  function Arrival(limits: Limits, s: State, sn: string, now: int): seq<Op> {
    if !ValidSerial(sn) then []
    else if Require(limits, s, sn, now).None? then [RegisterOp(sn, now, [])]
    else [RegisterOp(sn, now, []), TouchOp(sn, now)]
  }

  lemma ConfigureNothing(s: State, sn: string)
    ensures Configure(s, sn, []) == s
  {
    assert sn in s.devices ==> s.devices[sn := s.devices[sn]] == s.devices;
  }

  /** A refused request registers nothing; another one registers and touches its device. */
  lemma ArrivalMeaning(limits: Limits, s: State, sn: string, now: int)
    requires ValidSerial(sn)
    ensures var s1, arrived := RegisterDevice(limits, s, sn, now, []), Require(limits, s, sn, now);
            if sn !in s.devices && DevicesFull(limits, s)
            then arrived == None && s1 == s && Arrival(limits, s, sn, now) == [RegisterOp(sn, now, [])]
            else && arrived == Some(Touch(s1, sn, now))
                 && Arrival(limits, s, sn, now) == [RegisterOp(sn, now, []), TouchOp(sn, now)]
  {
    ConfigureNothing(Register(limits, s, sn, now), sn);
  }

  // ------------------------------------------------------- options over a run

  /** What the registry bodies of a device said, in arrival order. */
  function InfosOf(ops: seq<Op>, sn: string): seq<map<string, string>> {
    if ops == [] then []
    else
      var n := |ops| - 1;
      InfosOf(ops[..n], sn) + if ops[n].OptionsOp? && ops[n].sn == sn then [ops[n].info] else []
  }

  /** Operation k registers the device, which stays registered from then on. */
  ghost predicate RegisteredAt(limits: Limits, ops: seq<Op>, sn: string, k: nat) {
    && k < |ops|
    && sn !in ApplyAll(limits, ops[..k]).devices
    && forall j | k < j <= |ops| :: sn in ApplyAll(limits, ops[..j]).devices
  }

  lemma OptionsStep(limits: Limits, s: State, op: Op, sn: string)
    requires sn in Apply(limits, s, op).devices
    ensures var options := Apply(limits, s, op).devices[sn].options;
            if sn !in s.devices then options == map[] && !op.OptionsOp?
            else if op.OptionsOp? && op.sn == sn then options == s.devices[sn].options + op.info
            else options == s.devices[sn].options
  {
    match op
    case RegisterOp(other, now, opts) => ConfigureKeepsOptions(Register(limits, s, other, now), other, opts, sn);
    case EvictOp(now) => EvictMeaning(limits, s, now, sn);
    case _ =>
  }

  lemma ConfigureKeepsOptions(s: State, other: string, opts: seq<DeviceOption>, sn: string)
    requires sn in s.devices
    ensures Configure(s, other, opts).devices[sn].options == s.devices[sn].options
  {
    if other == sn {
      ConfiguredFields(s.devices[sn], opts);
    }
  }

  lemma RegisteredSnoc(limits: Limits, ops: seq<Op>, op: Op, sn: string, k: nat)
    requires k < |ops| ==> RegisteredAt(limits, ops, sn, k)
    requires k == |ops| ==> sn !in ApplyAll(limits, ops).devices
    requires k <= |ops| && sn in ApplyAll(limits, ops + [op]).devices
    ensures RegisteredAt(limits, ops + [op], sn, k)
  {
    var all := ops + [op];
    forall j | k < j <= |all|
      ensures sn in ApplyAll(limits, all[..j]).devices
    {
      if j <= |ops| {
        FrontOf(ops, op, j);
      } else {
        assert all[..j] == all;
      }
    }
    FrontOf(ops, op, k);
    assert ops[..|ops|] == ops;
  }

  lemma FrontOf(ops: seq<Op>, op: Op, j: nat)
    requires j <= |ops|
    ensures (ops + [op])[..j] == ops[..j]
  {
  }

  /** After any operations, a device's options are the merge, in arrival order, of what its
      registry bodies said since it was last registered. */
  lemma {:induction false} OptionsMeaning(limits: Limits, ops: seq<Op>, sn: string) returns (k: nat)
    requires sn in ApplyAll(limits, ops).devices
    ensures RegisteredAt(limits, ops, sn, k)
    ensures ApplyAll(limits, ops).devices[sn].options == MergeAll(InfosOf(ops[k..], sn))
  {
    var n := |ops| - 1;
    var front, op := ops[..n], ops[n];
    assert ops == front + [op];
    if sn in ApplyAll(limits, front).devices {
      k := OptionsMeaning(limits, front, sn);
      assert ops[k..] == front[k..] + [op];
      MergedSnoc(limits, front, op, sn, k);
    } else {
      k := n;
      OptionsStep(limits, ApplyAll(limits, front), op, sn);
      InfosSnoc([], op, sn);
      assert ops[k..] == [] + [op];
    }
    RegisteredSnoc(limits, front, op, sn, k);
  }

  lemma MergedSnoc(limits: Limits, front: seq<Op>, op: Op, sn: string, k: nat)
    requires k <= |front| && sn in ApplyAll(limits, front).devices
    requires ApplyAll(limits, front).devices[sn].options == MergeAll(InfosOf(front[k..], sn))
    requires sn in ApplyAll(limits, front + [op]).devices
    ensures ApplyAll(limits, front + [op]).devices[sn].options == MergeAll(InfosOf(front[k..] + [op], sn))
  {
    ApplySnoc(limits, front, op);
    OptionsStep(limits, ApplyAll(limits, front), op, sn);
    InfosSnoc(front[k..], op, sn);
  }

  lemma InfosSnoc(ops: seq<Op>, op: Op, sn: string)
    ensures InfosOf(ops + [op], sn) ==
            if op.OptionsOp? && op.sn == sn then InfosOf(ops, sn) + [op.info] else InfosOf(ops, sn)
    ensures op.OptionsOp? && op.sn == sn ==> MergeAll(InfosOf(ops + [op], sn)) == MergeAll(InfosOf(ops, sn)) + op.info
  {
    assert (ops + [op])[..|ops|] == ops;
    var before := InfosOf(ops, sn);
    if op.OptionsOp? {
      assert (before + [op.info])[..|before|] == before;
    }
  }

  // --------------------------------------------------------- what is accepted

  /** A serial number has 1 to 64 characters: ASCII digits, letters, hyphens, underscores. */
  lemma SerialExactly(sn: string)
    ensures ValidSerial(sn) <==>
            && 1 <= |sn| <= 64
            && forall i | 0 <= i < |sn| ::
                 var code := sn[i] as int;
                 48 <= code <= 57 || 65 <= code <= 90 || 97 <= code <= 122 || code == 45 || code == 95
  {
  }

  /** The last zone that registration options name. */
  function NamedZone(opts: seq<DeviceOption>): Option<Zone> {
    if opts == [] then None
    else
      var n := |opts| - 1;
      if opts[n].loc.Some? then opts[n].loc else NamedZone(opts[..n])
  }

  lemma {:induction false} ConfiguredExactly(info: DeviceInfo, opts: seq<DeviceOption>)
    ensures Configured(info, opts) ==
            info.(timezone := if NamedZone(opts).Some? then NamedZone(opts) else info.timezone)
  {
    if opts != [] {
      ConfiguredExactly(info, opts[..|opts| - 1]);
    }
  }

  /** After any operations, a registration with a valid serial number adds an unknown device
      exactly when there is no limit or fewer devices than the limit; the new record has the
      time of the call and no options. A known device keeps its activity time and options. */
  lemma RegistrationExactly(limits: Limits, ops: seq<Op>, sn: string, now: int, opts: seq<DeviceOption>)
    requires ValidSerial(sn)
    ensures var s, s' := ApplyAll(limits, ops), ApplyAll(limits, ops + [RegisterOp(sn, now, opts)]);
            && s' == s.(devices := s'.devices)
            && (sn in s'.devices <==>
                  sn in s.devices || limits.maxDevices == 0 || |s.devices| < limits.maxDevices)
            && (forall other | other != sn ::
                  (other in s'.devices <==> other in s.devices)
                  && (other in s.devices ==> s'.devices[other] == s.devices[other]))
            && (sn !in s.devices && sn in s'.devices ==>
                  s'.devices[sn] == DeviceInfo(now, map[], NamedZone(opts)))
            && (sn in s.devices ==>
                  && s'.devices[sn].lastActivity == s.devices[sn].lastActivity
                  && s'.devices[sn].options == s.devices[sn].options
                  && s'.devices[sn].timezone ==
                     if NamedZone(opts).Some? then NamedZone(opts) else s.devices[sn].timezone)
  {
    ApplySnoc(limits, ops, RegisterOp(sn, now, opts));
    var s1 := Register(limits, ApplyAll(limits, ops), sn, now);
    if sn in s1.devices {
      ConfiguredExactly(s1.devices[sn], opts);
    }
  }

  lemma InvalidSerialRefused(limits: Limits, ops: seq<Op>, sn: string, now: int, opts: seq<DeviceOption>)
    requires !ValidSerial(sn)
    ensures ApplyAll(limits, ops + [RegisterOp(sn, now, opts)]) == ApplyAll(limits, ops)
  {
    ApplySnoc(limits, ops, RegisterOp(sn, now, opts));
  }

  /** Which commands are queued and which error each other one meets, in the order of the
      checks; a command is refused for lack of room exactly when the device's queued and
      pending commands have reached a positive limit. */
  lemma QueueExactly(limits: Limits, s: State, sn: string, cmd: string)
    ensures var (s', r) := QueueCommand(limits, s, sn, cmd);
            var full := limits.maxCommandsPerDevice > 0
                        && |Queue(s, sn)| + |PendingOf(s.pending, sn)| >= limits.maxCommandsPerDevice;
            && s'.devices == s.devices && s'.pending == s.pending
            && (forall other | other != sn :: Queue(s', other) == Queue(s, other))
            && if '\r' in cmd || '\n' in cmd then r == Err(InvalidCommandField) && s' == s
               else if sn !in s.devices then r == Err(DeviceNotFound) && s' == s
               else
                 && s'.cmdID == s.cmdID + 1
                 && r == (if full then Err(CommandQueueFull) else Ok(s.cmdID + 1))
                 && Queue(s', sn) == Queue(s, sn) + (if full then [] else [CommandEntry(s.cmdID + 1, cmd)])
  {
  }

  /** A drain empties one queue; its commands become pending, and nothing else changes. */
  lemma DrainExactly(limits: Limits, s: State, sn: string)
    requires IdsInv(s)
    ensures var s' := Drain(s, sn);
            && Queue(s', sn) == [] && (forall other | other != sn :: Queue(s', other) == Queue(s, other))
            && s'.devices == s.devices && s'.cmdID == s.cmdID
            && s'.pending.Keys == s.pending.Keys + Ids(Queue(s, sn))
            && (forall id | id in s.pending :: s'.pending[id] == s.pending[id])
            && (forall e | e in Queue(s, sn) :: s'.pending[e.id] == PendingEntry(sn, e.command))
  {
    var batch := Queue(s, sn);
    QueueAndPendingApart(s, sn);
    AsPendingKeys(sn, batch);
    forall e | e in batch
      ensures AsPending(sn, batch)[e.id] == PendingEntry(sn, e.command)
    {
      var i :| 0 <= i < |batch| && batch[i] == e;
      AsPendingEntry(sn, batch, i);
    }
  }

  // ------------------------------------------------------ a device over a run

  /** The time of a device's last request, or the given time if it has made none. */
  function LastTouch(ops: seq<Op>, sn: string, start: int): int {
    if ops == [] then start
    else
      var n := |ops| - 1;
      if ops[n].TouchOp? && ops[n].sn == sn then ops[n].now else LastTouch(ops[..n], sn, start)
  }

  /** The zone that was last set for a device; a registration sets one only if it names one,
      and setting no zone clears it. */
  function LastZone(ops: seq<Op>, sn: string, start: Option<Zone>): Option<Zone> {
    if ops == [] then start
    else
      var n := |ops| - 1;
      if ops[n].TimezoneOp? && ops[n].sn == sn then ops[n].loc
      else if ops[n].RegisterOp? && ops[n].sn == sn && NamedZone(ops[n].opts).Some? then NamedZone(ops[n].opts)
      else LastZone(ops[..n], sn, start)
  }

  lemma NewRecord(limits: Limits, s: State, op: Op, sn: string)
    requires sn !in s.devices && sn in Apply(limits, s, op).devices
    ensures op.RegisterOp? && op.sn == sn
    ensures Apply(limits, s, op).devices[sn] == DeviceInfo(op.now, map[], NamedZone(op.opts))
  {
    match op
    case RegisterOp(other, now, opts) => ConfiguredExactly(DeviceInfo(now, map[], None), opts);
    case EvictOp(now) => EvictMeaning(limits, s, now, sn);
    case _ =>
  }

  lemma KnownRecord(limits: Limits, s: State, op: Op, sn: string)
    requires sn in s.devices && sn in Apply(limits, s, op).devices
    ensures var info, info' := s.devices[sn], Apply(limits, s, op).devices[sn];
            && info'.lastActivity == LastTouch([op], sn, info.lastActivity)
            && (ValidSerial(sn) ==> info'.timezone == LastZone([op], sn, info.timezone))
  {
    assert [op][..0] == [];
    match op
    case RegisterOp(other, now, opts) => ConfiguredExactly(s.devices[sn], opts);
    case EvictOp(now) => EvictMeaning(limits, s, now, sn);
    case _ =>
  }

  lemma LastSnoc(ops: seq<Op>, op: Op, sn: string, now: int, zone: Option<Zone>)
    ensures LastTouch(ops + [op], sn, now) == LastTouch([op], sn, LastTouch(ops, sn, now))
    ensures LastZone(ops + [op], sn, zone) == LastZone([op], sn, LastZone(ops, sn, zone))
  {
    assert (ops + [op])[..|ops|] == ops && [op][..0] == [];
  }

  /** Only valid serial numbers are ever registered. */
  lemma {:induction false} RegisteredValid(limits: Limits, ops: seq<Op>, sn: string)
    requires sn in ApplyAll(limits, ops).devices
    ensures ValidSerial(sn)
  {
    var n := |ops| - 1;
    var s := ApplyAll(limits, ops[..n]);
    if sn in s.devices {
      RegisteredValid(limits, ops[..n], sn);
    } else {
      NewRecord(limits, s, ops[n], sn);
    }
  }

  /** The record of a device after the operations that follow its registration. */
  ghost predicate RecordedSince(info: DeviceInfo, registration: Op, ops: seq<Op>, sn: string) {
    && registration.RegisterOp? && registration.sn == sn
    && info.lastActivity == LastTouch(ops, sn, registration.now)
    && info.timezone == LastZone(ops, sn, NamedZone(registration.opts))
  }

  /** After any operations, a device's activity time is that of its last request since it
      was last registered, or else of that registration; and its zone is the one that was
      last set since then. */
  lemma {:induction false} ActivityMeaning(limits: Limits, ops: seq<Op>, sn: string) returns (k: nat)
    requires sn in ApplyAll(limits, ops).devices
    ensures RegisteredAt(limits, ops, sn, k)
    ensures RecordedSince(ApplyAll(limits, ops).devices[sn], ops[k], ops[k + 1..], sn)
  {
    var n := |ops| - 1;
    var front, op := ops[..n], ops[n];
    assert ops == front + [op];
    if sn in ApplyAll(limits, front).devices {
      k := ActivityMeaning(limits, front, sn);
      RegisteredValid(limits, front, sn);
      KnownRecord(limits, ApplyAll(limits, front), op, sn);
      assert ops[k + 1..] == front[k + 1..] + [op];
      LastSnoc(front[k + 1..], op, sn, ops[k].now, NamedZone(ops[k].opts));
    } else {
      k := n;
      NewRecord(limits, ApplyAll(limits, front), op, sn);
      assert ops[k + 1..] == [];
    }
    RegisteredSnoc(limits, front, op, sn, k);
  }

  /** An eviction keeps a device exactly when its last request, or its registration, is no
      longer ago than the timeout; a device that is kept keeps its queue and its pending
      commands. */
  lemma EvictedExactly(limits: Limits, ops: seq<Op>, sn: string, now: int) returns (k: nat)
    requires sn in ApplyAll(limits, ops).devices
    ensures RegisteredAt(limits, ops, sn, k) && ops[k].RegisterOp?
    ensures var s, s' := ApplyAll(limits, ops), ApplyAll(limits, ops + [EvictOp(now)]);
            && (sn in s'.devices <==> now - LastTouch(ops[k + 1..], sn, ops[k].now) <= limits.evictionTimeout)
            && (sn in s'.devices ==>
                  && s'.devices[sn] == s.devices[sn] && Queue(s', sn) == Queue(s, sn)
                  && PendingOf(s'.pending, sn) == PendingOf(s.pending, sn))
            && (sn !in s'.devices ==> !HasCommands(s', sn))
  {
    k := ActivityMeaning(limits, ops, sn);
    ApplySnoc(limits, ops, EvictOp(now));
    EvictMeaning(limits, ApplyAll(limits, ops), now, sn);
  }

  /** The operation counts neither as an eviction after the given time nor as a request of
      the device longer ago than the timeout. */
  predicate Recent(limits: Limits, op: Op, sn: string, later: int) {
    && (op.EvictOp? ==> op.now <= later)
    && (op.TouchOp? && op.sn == sn ==> later - op.now <= limits.evictionTimeout)
  }

  /** A device whose request was admitted survives every eviction within the timeout. */
  lemma {:induction false} ArrivalProtects(limits: Limits, ops: seq<Op>, rest: seq<Op>, sn: string, now: int,
                                           later: int)
    requires Require(limits, ApplyAll(limits, ops), sn, now).Some? && later - now <= limits.evictionTimeout
    requires forall i | 0 <= i < |rest| :: Recent(limits, rest[i], sn, later)
    ensures var s := ApplyAll(limits, ops + Arrival(limits, ApplyAll(limits, ops), sn, now) + rest);
            sn in s.devices && later - s.devices[sn].lastActivity <= limits.evictionTimeout
  {
    var s := ApplyAll(limits, ops);
    var arrived := ops + Arrival(limits, s, sn, now);
    if rest == [] {
      ArrivalMeaning(limits, s, sn, now);
      ArrivalApplied(limits, ops, sn, now);
      assert arrived + rest == arrived;
    } else {
      var n := |rest| - 1;
      ArrivalProtects(limits, ops, rest[..n], sn, now, later);
      assert arrived + rest == (arrived + rest[..n]) + [rest[n]];
      ApplySnoc(limits, arrived + rest[..n], rest[n]);
      StaysRecent(limits, ApplyAll(limits, arrived + rest[..n]), rest[n], sn, later);
    }
  }

  lemma ArrivalApplied(limits: Limits, ops: seq<Op>, sn: string, now: int)
    requires Require(limits, ApplyAll(limits, ops), sn, now).Some?
    ensures var s := ApplyAll(limits, ops);
            ApplyAll(limits, ops + Arrival(limits, s, sn, now)) == Require(limits, s, sn, now).value
  {
    var s := ApplyAll(limits, ops);
    ArrivalMeaning(limits, s, sn, now);
    ApplySnoc(limits, ops, RegisterOp(sn, now, []));
    ApplySnoc(limits, ops + [RegisterOp(sn, now, [])], TouchOp(sn, now));
    assert ops + Arrival(limits, s, sn, now) == ops + [RegisterOp(sn, now, [])] + [TouchOp(sn, now)];
  }

  lemma StaysRecent(limits: Limits, s: State, op: Op, sn: string, later: int)
    requires sn in s.devices && later - s.devices[sn].lastActivity <= limits.evictionTimeout
    requires Recent(limits, op, sn, later)
    ensures var s' := Apply(limits, s, op);
            sn in s'.devices && later - s'.devices[sn].lastActivity <= limits.evictionTimeout
  {
    if op.EvictOp? {
      EvictMeaning(limits, s, op.now, sn);
    }
    KnownRecord(limits, s, op, sn);
  }
}
