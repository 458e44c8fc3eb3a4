/** The server object: its tables, and the methods of device.go, command.go, handler.go
    and adms.go that update them in place. Each method runs without interruption here. */
module Server {
  import opened Wrappers
  import opened Text
  import opened Decimal
  import opened Types
  import opened Confirmation
  import opened KeyValues
  import opened ServerState
  import opened AtomicOps
  import opened Devices
  import CommandResults
  import Attendance
  import UserRecords
  import PollResponse
  import Lines

  class ADMSServer {
    const limits: Limits
    const defaultTimezone: Option<Zone>
    var devices: map<string, Device>
    var commandQueue: map<string, seq<CommandEntry>>
    var pendingCommands: map<int, PendingEntry>
    var cmdID: nat

    /** The device table as a value. */
    ghost var table: map<string, DeviceInfo>
    /** Every operation that has run. */
    ghost var log: seq<Op>
    /** The device records and their options tables. */
    ghost var Repr: set<object>

    constructor (limits: Limits, defaultTimezone: Option<Zone>)
      ensures this.limits == limits && this.defaultTimezone == defaultTimezone
      ensures Valid() && Abs() == EMPTY && log == [] && Repr == {}
    {
      this.limits := limits;
      this.defaultTimezone := defaultTimezone;
      devices := map[];
      commandQueue := map[];
      pendingCommands := map[];
      cmdID := 0;
      table, log, Repr := map[], [], {};
    }

    /** The tables as a value. */
    ghost function Abs(): State
      reads this
    {
      State(table, commandQueue, pendingCommands, cmdID)
    }

    /** The record of a device is in the footprint and is what the tables say. */
    ghost predicate Recorded(sn: string, d: Device)
      reads `table, `Repr, Repr
    {
      && d in Repr && d.options in Repr && d.serialNumber == sn && d.options.owner == sn
      && sn in table && d.Info() == table[sn]
    }

    /** The records are what the tables say. */
    ghost predicate Linked()
      reads `devices, `table, `Repr, Repr
    {
      && this !in Repr && table.Keys == devices.Keys
      && (forall sn | sn in devices :: Recorded(sn, devices[sn]))
    }

    /** And the tables are what the operations of the log have made of them. */
    ghost predicate Valid()
      reads this, Repr
    {
      Linked() && Abs() == ApplyAll(limits, log)
    }

    /** So in every state of the object, commands belong to registered devices, both limits
        hold, and ids are used once; and a device's options are the merge, in arrival order,
        of its registry bodies since it was last registered. */
    lemma Invariant(sn: string)
      requires Valid()
      ensures AtomicInv(limits, Abs())
      ensures sn in table ==>
                exists k: nat ::
                  RegisteredAt(limits, log, sn, k) && table[sn].options == MergeAll(InfosOf(log[k..], sn))
    {
      ReachableInv(limits, log);
      if sn in table {
        var k := OptionsMeaning(limits, log, sn);
      }
    }

    /** Logs an operation that has been carried out on the given tables. */
    ghost method Note(before: State, op: Op)
      requires Linked() && before == ApplyAll(limits, log) && Abs() == Apply(limits, before, op)
      modifies `log
      ensures Valid() && log == old(log) + [op]
    {
      log := log + [op];
      ApplySnoc(limits, old(log), op);
    }

    // ------------------------------------------------------------ device.go

    /** RegisterDevice. */
    method RegisterDevice(sn: string, now: int, opts: seq<DeviceOption>) returns (r: Result<()>)
      requires Valid()
      modifies `devices, `table, `log, `Repr, Repr
      ensures Abs() == AtomicOps.RegisterDevice(limits, old(Abs()), sn, now, opts)
      ensures Valid() && fresh(Repr - old(Repr)) && log == old(log) + [RegisterOp(sn, now, opts)]
      ensures r == if !ValidSerial(sn) then Err(InvalidSerialNumber)
                   else if sn !in old(devices) && limits.maxDevices > 0 && |old(devices)| >= limits.maxDevices
                   then Err(MaxDevicesReached)
                   else Ok(())
    {
      if !ValidSerial(sn) {
        Note(Abs(), RegisterOp(sn, now, opts));
        return Err(InvalidSerialNumber);
      }
      if sn !in devices {
        SameSize(table, devices);
        if limits.maxDevices > 0 && |devices| >= limits.maxDevices {
          NotRegistered(limits, Abs(), sn, now, opts);
          Note(Abs(), RegisterOp(sn, now, opts));
          return Err(MaxDevicesReached);
        }
        AddNew(sn, now);
      }
      ConfigureDevice(sn, opts);
      Note(old(Abs()), RegisterOp(sn, now, opts));
      r := Ok(());
    }

    /** The options of a registration, applied to the record. */
    method ConfigureDevice(sn: string, opts: seq<DeviceOption>)
      requires Linked() && sn in devices
      modifies `table, Repr
      ensures Linked() && Abs() == Configure(old(Abs()), sn, opts)
    {
      var device := devices[sn];
      assert Recorded(sn, device);
      device.Configure(opts);
      table := table[sn := Configured(table[sn], opts)];
      forall other | other in devices
        ensures Recorded(other, devices[other])
      {
        assert old(Recorded(other, devices[other]));
      }
    }

    /** A new device with no options. */
    method AddNew(sn: string, now: int)
      requires Linked() && sn !in devices && !DevicesFull(limits, Abs())
      modifies `devices, `table, `Repr
      ensures Linked() && fresh(Repr - old(Repr)) && sn in devices
      ensures Abs() == Register(limits, old(Abs()), sn, now)
    {
      var options := new OptionTable(map[], sn);
      var dev := new Device(sn, now, options, None);
      AddDevice(dev, options);
    }

    /** The insertion of a new device. */
    method AddDevice(dev: Device, options: OptionTable)
      requires Linked() && dev.serialNumber !in devices
      requires dev.options == options && options.owner == dev.serialNumber
      requires dev != this as object && options != this as object
      modifies `devices, `table, `Repr
      ensures Linked() && Repr == old(Repr) + {dev, options}
      ensures table == old(table)[dev.serialNumber := dev.Info()]
      ensures devices == old(devices)[dev.serialNumber := dev]
    {
      devices := devices[dev.serialNumber := dev];
      table := table[dev.serialNumber := dev.Info()];
      Repr := Repr + {dev, options};
      forall other | other in devices
        ensures Recorded(other, devices[other])
      {
        if other != dev.serialNumber {
          assert old(Recorded(other, devices[other]));
        }
      }
    }

    /** updateDeviceActivity. */
    method UpdateDeviceActivity(sn: string, now: int)
      requires Valid()
      modifies `table, `log, Repr
      ensures Valid() && Abs() == Touch(old(Abs()), sn, now) && log == old(log) + [TouchOp(sn, now)]
      ensures sn in table ==> table[sn].lastActivity == now
    {
      if sn in devices {
        var device := devices[sn];
        device.lastActivity := now;
        table := table[sn := table[sn].(lastActivity := now)];
        forall other | other in devices
          ensures Recorded(other, devices[other])
        {
          assert old(Recorded(other, devices[other]));
        }
      }
      Note(old(Abs()), TouchOp(sn, now));
    }

    /** SetDeviceTimezone. */
    method SetDeviceTimezone(sn: string, loc: Option<Zone>) returns (r: Result<()>)
      requires Valid()
      modifies `table, `log, Repr
      ensures Valid() && r == if sn in devices then Ok(()) else Err(DeviceNotFound)
      ensures Abs() == SetTimezone(old(Abs()), sn, loc) && log == old(log) + [TimezoneOp(sn, loc)]
      ensures sn in table ==> table[sn].timezone == loc
    {
      if sn !in devices {
        Note(Abs(), TimezoneOp(sn, loc));
        return Err(DeviceNotFound);
      }
      var device := devices[sn];
      device.timezone := loc;
      table := table[sn := table[sn].(timezone := loc)];
      forall other | other in devices
        ensures Recorded(other, devices[other])
      {
        assert old(Recorded(other, devices[other]));
      }
      Note(old(Abs()), TimezoneOp(sn, loc));
      r := Ok(());
    }

    /** GetDevice: a copy that shares nothing with the server. */
    method GetDevice(sn: string) returns (d: Device?)
      requires Valid()
      ensures d == null <==> sn !in devices
      ensures d != null ==> fresh(d) && fresh(d.options)
      ensures d != null ==> d.serialNumber == sn && d.Info() == table[sn]
      ensures d != null ==>
                exists k: nat ::
                  RegisteredAt(limits, log, sn, k) && d.options.entries == MergeAll(InfosOf(log[k..], sn))
    {
      if sn !in devices {
        return null;
      }
      Invariant(sn);
      assert Recorded(sn, devices[sn]);
      d := devices[sn].Copy();
    }

    /** ListDevices: one fresh copy of each device, no two of which share a table. */
    method ListDevices() returns (list: seq<Device>)
      requires Valid()
      ensures |list| == |devices|
      ensures forall i | 0 <= i < |list| :: fresh(list[i]) && fresh(list[i].options) && CopyOf(list[i])
      ensures forall i, j | 0 <= i < j < |list| :: list[i].serialNumber != list[j].serialNumber
    {
      list := [];
      var left := devices.Keys;
      while left != {}
        invariant left <= devices.Keys && |list| + |left| == |devices.Keys|
        invariant forall i | 0 <= i < |list| ::
                    fresh(list[i]) && fresh(list[i].options) && CopyOf(list[i]) && list[i].serialNumber !in left
        invariant forall i, j | 0 <= i < j < |list| :: list[i].serialNumber != list[j].serialNumber
        decreases left
      {
        var sn :| sn in left;
        assert Recorded(sn, devices[sn]);
        var d := devices[sn].Copy();
        list := list + [d];
        left := left - {sn};
      }
    }

    /** The record says what the server's record of the same device says; its options table
        belongs to it alone. */
    ghost predicate CopyOf(d: Device)
      reads `table, d, d.options
    {
      d.serialNumber in table && d.Info() == table[d.serialNumber] && d.options.owner == d.serialNumber
    }

    /** requireDevice. */
    method RequireDevice(sn: string, now: int) returns (ok: bool)
      requires Valid()
      modifies `devices, `table, `log, `Repr, Repr
      ensures ok == Require(limits, old(Abs()), sn, now).Some?
      ensures Abs() == if ok then Require(limits, old(Abs()), sn, now).value else old(Abs())
      ensures log == old(log) + Arrival(limits, old(Abs()), sn, now)
      ensures Valid() && fresh(Repr - old(Repr))
    {
      if sn == "" || !ValidSerial(sn) {
        assert old(log) + [] == old(log);
        return false;
      }
      ArrivalMeaning(limits, Abs(), sn, now);
      SameSize(table, devices);
      var r := RegisterDevice(sn, now, []);
      if r.Err? {
        return false;
      }
      UpdateDeviceActivity(sn, now);
      TwoMore(old(log), RegisterOp(sn, now, []), TouchOp(sn, now));
      ok := true;
    }

    // ------------------------------------------------------------ command.go

    /** pendingCountLocked. */
    method PendingCount(sn: string) returns (n: nat)
      ensures n == |PendingOf(pendingCommands, sn)|
    {
      n := 0;
      var left := pendingCommands.Keys;
      while left != {}
        invariant left <= pendingCommands.Keys
        invariant n + |Among(left, sn)| == |PendingOf(pendingCommands, sn)|
        decreases left
      {
        SomeElement(left);
        var id :| id in left;
        assert Among(left - {id}, sn) == Among(left, sn) - {id};
        if pendingCommands[id].sn == sn {
          n := n + 1;
        }
        left := left - {id};
      }
    }

    ghost function Among(ids: set<int>, sn: string): set<int>
      requires ids <= pendingCommands.Keys
      reads `pendingCommands
      ensures ids == pendingCommands.Keys ==> Among(ids, sn) == PendingOf(pendingCommands, sn)
    {
      set id | id in ids && pendingCommands[id].sn == sn
    }

    /** QueueCommand. */
    method QueueCommand(sn: string, command: string) returns (r: Result<int>)
      requires Valid()
      modifies this`commandQueue, this`cmdID, this`log
      ensures (Abs(), r) == AtomicOps.QueueCommand(limits, old(Abs()), sn, command)
      ensures Valid() && log == old(log) + [QueueOp(sn, command)]
    {
      if '\r' in command || '\n' in command {
        Note(Abs(), QueueOp(sn, command));
        return Err(InvalidCommandField);
      }
      if sn !in devices {
        Note(Abs(), QueueOp(sn, command));
        return Err(DeviceNotFound);
      }
      cmdID := cmdID + 1;
      var id := cmdID;
      var queue := if sn in commandQueue then commandQueue[sn] else [];
      if limits.maxCommandsPerDevice > 0 {
        var pending := PendingCount(sn);
        if |queue| + pending >= limits.maxCommandsPerDevice {
          Note(old(Abs()), QueueOp(sn, command));
          return Err(CommandQueueFull);
        }
      }
      commandQueue := commandQueue[sn := queue + [CommandEntry(id, command)]];
      r := Ok(id);
      Note(old(Abs()), QueueOp(sn, command));
    }

    /** SendUserAddCommand: a queued command is the printed user. */
    method SendUserAddCommand(sn: string, pin: string, name: string, privilege: int, card: string)
      returns (r: Result<int>)
      requires Valid()
      modifies this`commandQueue, this`cmdID, this`log
      ensures Valid()
      ensures var command := "DATA UPDATE USERINFO PIN=" + (pin + ("\tName=" + (name + ("\tPrivilege="
                             + (FormatInt(privilege) + ("\tCard=" + card))))));
              if NoLineBreak(pin) && NoLineBreak(name) && NoLineBreak(card)
              then && (Abs(), r) == AtomicOps.QueueCommand(limits, old(Abs()), sn, command)
                   && log == old(log) + [QueueOp(sn, command)]
              else Abs() == old(Abs()) && log == old(log) && r == Err(InvalidCommandField)
    {
      if !NoLineBreak(pin) || !NoLineBreak(name) || !NoLineBreak(card) {
        return Err(InvalidCommandField);
      }
      UserRecords.UserAddText(pin, name, privilege, card);
      r := QueueCommand(sn, UserRecords.UserAddCommand(pin, name, privilege, card));
    }

    /** DrainCommands. */
    method DrainCommands(sn: string) returns (commands: seq<CommandEntry>)
      requires Valid()
      modifies this`commandQueue, this`pendingCommands, this`log
      ensures Abs() == Drain(old(Abs()), sn) && commands == Queue(old(Abs()), sn)
      ensures Valid() && log == old(log) + [DrainOp(sn)]
    {
      commands := if sn in commandQueue then commandQueue[sn] else [];
      commandQueue := commandQueue - {sn};
      for i := 0 to |commands|
        invariant log == old(log) && commandQueue == old(commandQueue) - {sn}
        invariant pendingCommands == old(pendingCommands) + AsPending(sn, commands[..i])
      {
        AsPendingSnoc(sn, commands, i);
        pendingCommands := pendingCommands[commands[i].id := PendingEntry(sn, commands[i].command)];
      }
      assert commands[..|commands|] == commands;
      Note(old(Abs()), DrainOp(sn));
    }

    // ------------------------------------------------------------ handler.go

    /** writeCommandsOrOK: the text written is the printed batch, and can be read back. */
    method WriteCommandsOrOK(sn: string) returns (written: string)
      requires Valid()
      modifies this`commandQueue, this`pendingCommands, this`log
      ensures Valid() && Abs() == Drain(old(Abs()), sn) && log == old(log) + [DrainOp(sn)]
      ensures written == PollResponse.Response(Queue(old(Abs()), sn))
      ensures Queue(old(Abs()), sn) == [] ==> written == "OK"
    {
      var commands := DrainCommands(sn);
      written := PollResponse.Write(commands);
    }

    /** HandleRegistry. A body is merged into the device's options before its dispatch is
        tried, so it stays merged when the dispatch is refused. */
    method HandleRegistry(sn: string, body: string, now: int, accepted: bool) returns (answer: Answer)
      requires Valid()
      modifies `devices, `table, `log, `Repr, Repr
      ensures Valid() && fresh(Repr - old(Repr))
      ensures var arrived := Require(limits, old(Abs()), sn, now);
              && Abs() == AfterRegistry(old(Abs()), arrived, sn, body)
              && log == old(log) + Arrival(limits, old(Abs()), sn, now) + RegistryOps(arrived, sn, body)
              && answer == if arrived.None? then Rejected
                           else if body == "" || accepted then Body("OK")
                           else Unavailable
    {
      var ok := RequireDevice(sn, now);
      if !ok {
        return Rejected;
      }
      if |body| > 0 {
        var info := ParseKVPairs(body, ',', true);
        MergeInto(sn, info);
        if !accepted {
          return Unavailable;
        }
      }
      answer := Body("OK");
    }

    /** The copy of a registry body's pairs into the options of a device. */
    method MergeInto(sn: string, info: map<string, string>)
      requires Valid()
      modifies `table, `log, Repr
      ensures Valid() && Abs() == MergeOptions(old(Abs()), sn, info) && log == old(log) + [OptionsOp(sn, info)]
    {
      if sn in devices {
        var device := devices[sn];
        assert Recorded(sn, device);
        device.options.CopyFrom(info);
        table := table[sn := table[sn].(options := table[sn].options + info)];
        forall other | other in devices
          ensures Recorded(other, devices[other])
        {
          assert old(Recorded(other, devices[other]));
        }
      }
      Note(old(Abs()), OptionsOp(sn, info));
    }

    /** The ATTLOG branch of HandleCData: the records of a body are dispatched as one batch
        or not at all. */
    method HandleAttlog(sn: string, body: string, now: int, calendar: Attendance.Calendar, hasCallback: bool,
                        accepted: bool)
      returns (answer: Answer, batch: seq<AttendanceRecord>)
      requires Valid()
      modifies `devices, `table, `log, `Repr, Repr
      ensures Valid() && fresh(Repr - old(Repr)) && log == old(log) + Arrival(limits, old(Abs()), sn, now)
      ensures Require(limits, old(Abs()), sn, now).None? ==>
                answer == Rejected && batch == [] && Abs() == old(Abs())
      ensures Require(limits, old(Abs()), sn, now).Some? ==>
                var s := Require(limits, old(Abs()), sn, now).value;
                var zone := Attendance.Location(s.devices[sn].timezone, defaultTimezone);
                var records := Attendance.Kept(Lines.BodyLines(body), sn, zone, calendar);
                && Abs() == s
                && batch == (if hasCallback && accepted then records else [])
                && answer == Attendance.AttlogAnswer(records, hasCallback, accepted)
    {
      batch := [];
      var ok := RequireDevice(sn, now);
      if !ok {
        return Rejected, [];
      }
      assert Recorded(sn, devices[sn]);
      var loc := if devices[sn].timezone.Some? then devices[sn].timezone
                 else if defaultTimezone.Some? then defaultTimezone
                 else Some(UTC);
      var records, skipped := Attendance.ParseAttendanceRecords(body, sn, loc, defaultTimezone, calendar);
      if |records| > 0 && hasCallback {
        if !accepted {
          return Unavailable, [];
        }
        batch := records;
      }
      answer := Body("OK: " + FormatInt(|records|));
    }

    // --------------------------------------------------------------- adms.go

    /** evictStaleDevices. */
    method EvictStaleDevices(now: int)
      requires Valid()
      modifies `devices, `table, `log, `commandQueue, `pendingCommands
      ensures Valid() && Abs() == Evict(limits, old(Abs()), now) && log == old(log) + [EvictOp(now)]
    {
      var stale := CollectStale(now);
      if |stale| == 0 {
        assert Stale(limits, old(Abs()), now) == {};
        NothingStale(old(Abs()));
        Note(old(Abs()), EvictOp(now));
        return;
      }
      CleanQueues(stale);
      Note(old(Abs()), EvictOp(now));
    }

    /** Phase 1: the stale devices are collected and removed. */
    method CollectStale(now: int) returns (stale: seq<string>)
      requires Linked()
      modifies `devices, `table
      ensures Linked() && AsSet(stale) == Stale(limits, old(Abs()), now)
      ensures table == old(table) - AsSet(stale)
    {
      assert forall sn | sn in devices :: Recorded(sn, devices[sn]);
      stale := DropStale(now);
      ForgetDevices(AsSet(stale));
    }

    /** The loop of phase 1. */
    method DropStale(now: int) returns (stale: seq<string>)
      modifies `devices
      ensures AsSet(stale) == IdleAmong(old(devices), old(devices).Keys, now)
      ensures devices.Keys == old(devices).Keys - AsSet(stale)
      ensures forall sn | sn in devices :: devices[sn] == old(devices)[sn]
    {
      stale := [];
      ghost var was, keys := devices, devices.Keys;
      var left := devices.Keys;
      while left != {}
        invariant left <= keys
        invariant devices.Keys == keys - AsSet(stale)
        invariant forall sn | sn in devices :: devices[sn] == was[sn]
        invariant AsSet(stale) == IdleAmong(was, keys - left, now)
        decreases left
      {
        var sn :| sn in left;
        IdleStep(was, left, stale, sn, now);
        left := left - {sn};
        if now - devices[sn].lastActivity > limits.evictionTimeout {
          stale := stale + [sn];
          devices := devices - {sn};
        }
      }
      assert keys - left == keys;
    }

    /** The idle ones of some devices. */
    ghost function IdleAmong(devices: map<string, Device>, keys: set<string>, now: int): set<string>
      reads devices.Values
    {
      set sn | sn in keys && sn in devices && now - devices[sn].lastActivity > limits.evictionTimeout
    }

    lemma IdleStep(was: map<string, Device>, left: set<string>, stale: seq<string>, sn: string, now: int)
      requires left <= was.Keys && sn in left
      requires AsSet(stale) == IdleAmong(was, was.Keys - left, now)
      ensures AsSet(stale + [sn]) == AsSet(stale) + {sn}
      ensures sn in was.Keys - AsSet(stale) && was.Keys - AsSet(stale + [sn]) == was.Keys - AsSet(stale) - {sn}
      ensures IdleAmong(was, was.Keys - (left - {sn}), now) ==
              if now - was[sn].lastActivity > limits.evictionTimeout then AsSet(stale + [sn]) else AsSet(stale)
    {
      AsSetSnoc(stale, sn);
    }

    ghost method ForgetDevices(gone: set<string>)
      requires this !in Repr
      requires devices.Keys == table.Keys - gone
      requires forall sn | sn in devices :: Recorded(sn, devices[sn])
      modifies `table
      ensures Linked() && table == old(table) - gone
    {
      table := table - gone;
      forall sn | sn in devices
        ensures Recorded(sn, devices[sn])
      {
        assert old(Recorded(sn, devices[sn]));
      }
    }

    /** Phase 2: the queues and the pending entries of the stale devices are removed. */
    method CleanQueues(stale: seq<string>)
      modifies `commandQueue, `pendingCommands
      ensures Abs() == SweepQueues(old(Abs()), AsSet(stale))
    {
      var staleSet: set<string> := {};
      for i := 0 to |stale|
        invariant staleSet == AsSet(stale[..i])
        invariant commandQueue == old(commandQueue) - staleSet
        invariant pendingCommands == old(pendingCommands)
      {
        assert stale[..i + 1] == stale[..i] + [stale[i]];
        AsSetSnoc(stale[..i], stale[i]);
        staleSet := staleSet + {stale[i]};
        commandQueue := commandQueue - {stale[i]};
      }
      assert stale[..|stale|] == stale;
      var left := pendingCommands.Keys;
      while left != {}
        invariant left <= pendingCommands.Keys
        invariant commandQueue == old(commandQueue) - staleSet
        invariant pendingCommands ==
                    map id | id in old(pendingCommands) && (id in left || old(pendingCommands)[id].sn !in staleSet) ::
                      old(pendingCommands)[id]
        decreases left
      {
        SomeElement(left);
        var id :| id in left;
        left := left - {id};
        if pendingCommands[id].sn in staleSet {
          pendingCommands := pendingCommands - {id};
        }
      }
    }

    // ------------------------------------------------------------ handler.go

    /** HandleDeviceCmd. Whether the k-th dispatch is accepted is decided elsewhere; without
        a callback every dispatch succeeds and delivers nothing. */
    method HandleDeviceCmd(sn: string, body: string, now: int, hasCallback: bool, accepts: nat -> bool)
      returns (answer: Answer, dispatched: seq<CommandResult>)
      requires Valid()
      modifies `devices, `table, `log, `Repr, Repr, `pendingCommands
      ensures Valid() && fresh(Repr - old(Repr))
      ensures Require(limits, old(Abs()), sn, now).None? ==>
                && answer == Rejected && dispatched == [] && Abs() == old(Abs())
                && log == old(log) + Arrival(limits, old(Abs()), sn, now)
      ensures Require(limits, old(Abs()), sn, now).Some? ==>
                var s := Require(limits, old(Abs()), sn, now).value;
                var results := CommandResults.Results(CommandResults.Tokens(body), sn);
                var n := if hasCallback then Served(results, accepts) else |results|;
                && Abs() == Confirm(s, results[..n])
                && log == old(log) + Arrival(limits, old(Abs()), sn, now) + [ConfirmOp(results[..n])]
                && dispatched == (if hasCallback then Correlated(s.pending, results[..n]) else [])
                && answer == if n == |results| then Body("OK") else Unavailable
    {
      var ok := RequireDevice(sn, now);
      if !ok {
        return Rejected, [];
      }
      var results := CommandResults.ParseCommandResults(body, sn);
      var served;
      served, dispatched := ConfirmResults(results, hasCallback, accepts);
      answer := if served then Body("OK") else Unavailable;
    }

    /** The results of a confirmation, served and logged. */
    method ConfirmResults(results: seq<CommandResult>, hasCallback: bool, accepts: nat -> bool)
      returns (served: bool, dispatched: seq<CommandResult>)
      requires Valid()
      modifies `pendingCommands, `log
      ensures var n := if hasCallback then Served(results, accepts) else |results|;
              && Abs() == Confirm(old(Abs()), results[..n])
              && log == old(log) + [ConfirmOp(results[..n])]
              && dispatched == (if hasCallback then Correlated(old(pendingCommands), results[..n]) else [])
              && served == (n == |results|)
      ensures Valid()
    {
      served, dispatched := ServeResults(results, hasCallback, accepts);
      ghost var n := if hasCallback then Served(results, accepts) else |results|;
      Note(old(Abs()), ConfirmOp(results[..n]));
    }

    /** The loop over the results: look up, dispatch, delete. */
    method ServeResults(results: seq<CommandResult>, hasCallback: bool, accepts: nat -> bool)
      returns (served: bool, dispatched: seq<CommandResult>)
      modifies `pendingCommands
      ensures var n := if hasCallback then Served(results, accepts) else |results|;
              && pendingCommands == After(old(pendingCommands), results[..n])
              && dispatched == (if hasCallback then Correlated(old(pendingCommands), results[..n]) else [])
              && served == (n == |results|)
    {
      dispatched := [];
      for k := 0 to |results|
        invariant pendingCommands == After(old(pendingCommands), results[..k])
        invariant dispatched == if hasCallback then Correlated(old(pendingCommands), results[..k]) else []
        invariant hasCallback ==> forall i | 0 <= i < k :: accepts(i)
      {
        var result := results[k];
        if result.id in pendingCommands {
          result := result.(queuedCommand := pendingCommands[result.id].cmd);
        }
        assert result == LookedUp(pendingCommands, results[k]);
        OneMoreResult(old(pendingCommands), results, k);
        if hasCallback {
          if !accepts(k) {
            ServedIs(results, accepts, k);
            return false, dispatched;
          }
          dispatched := dispatched + [result];
        }
        pendingCommands := pendingCommands - {result.id};
      }
      assert results[..|results|] == results;
      if hasCallback {
        ServedIs(results, accepts, |results|);
      }
      served := true;
    }
  }

  function AsSet(sns: seq<string>): set<string> {
    set sn | sn in sns
  }

  lemma AsSetSnoc(sns: seq<string>, sn: string)
    ensures AsSet(sns + [sn]) == AsSet(sns) + {sn}
  {
  }

  /** The tables after a registry request that found the device as given. */
  function AfterRegistry(s: State, arrived: Option<State>, sn: string, body: string): State {
    if arrived.None? then s
    else if body == "" then arrived.value
    else MergeOptions(arrived.value, sn, RegistryInfo(body))
  }

  function RegistryOps(arrived: Option<State>, sn: string, body: string): seq<Op> {
    if arrived.Some? && body != "" then [OptionsOp(sn, RegistryInfo(body))] else []
  }

  lemma NotRegistered(limits: Limits, s: State, sn: string, now: int, opts: seq<DeviceOption>)
    requires sn !in s.devices && DevicesFull(limits, s)
    ensures AtomicOps.RegisterDevice(limits, s, sn, now, opts) == s
  {
  }

  lemma TwoMore(log: seq<Op>, a: Op, b: Op)
    ensures log + [a] + [b] == log + [a, b]
  {
  }

  lemma NothingStale(s: State)
    ensures SweepQueues(SweepDevices(s, {}), {}) == s
  {
    assert s.devices - {} == s.devices && s.queue - {} == s.queue;
  }

  lemma NoElement(ids: set<int>)
    ensures (forall id: int :: id !in ids) ==> ids == {}
  {
    if forall id: int :: id !in ids {
      assert ids == {};
    }
  }

  lemma SomeElement(ids: set<int>)
    requires ids != {}
    ensures exists id :: id in ids
  {
    NoElement(ids);
  }

  /** Tables with the same keys have the same size. */
  lemma SameSize<K, V, W>(a: map<K, V>, b: map<K, W>)
    requires a.Keys == b.Keys
    ensures |a| == |b|
  {
    assert |a.Keys| == |a| && |b.Keys| == |b|;
  }

  lemma AsPendingSnoc(sn: string, commands: seq<CommandEntry>, i: nat)
    requires i < |commands|
    ensures AsPending(sn, commands[..i + 1]) ==
            AsPending(sn, commands[..i])[commands[i].id := PendingEntry(sn, commands[i].command)]
  {
    assert commands[..i + 1][..i] == commands[..i];
  }

  lemma OneMoreResult(pending: PendingTable, results: seq<CommandResult>, k: nat)
    requires k < |results|
    ensures After(pending, results[..k + 1]) == After(pending, results[..k]) - {results[k].id}
    ensures Correlated(pending, results[..k + 1]) ==
            Correlated(pending, results[..k]) + [LookedUp(After(pending, results[..k]), results[k])]
  {
    assert results[..k + 1] == results[..k] + [results[k]];
    AfterSnoc(pending, results[..k], results[k]);
    CorrelatedSnoc(pending, results[..k], results[k]);
  }

  lemma ServedIs(results: seq<CommandResult>, accepts: nat -> bool, n: nat)
    requires n <= |results| && (forall i | 0 <= i < n :: accepts(i)) && (n < |results| ==> !accepts(n))
    ensures Served(results, accepts) == n
  {
  }
}
