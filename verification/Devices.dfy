/** The device records of types.go: heap objects, each with its own options table. */
module Devices {
  import opened Wrappers
  import opened Types
  import opened KeyValues
  import opened ServerState

  /** A Go map: a reference to a table that is updated in place. */
  class OptionTable {
    var entries: map<string, string>
    /** The device that the table was made for, so that two devices never share one. */
    ghost const owner: string

    constructor (entries: map<string, string>, ghost owner: string)
      ensures this.entries == entries && this.owner == owner
    {
      this.entries := entries;
      this.owner := owner;
    }

    /** maps.Copy: every pair of info is written into the table. */
    method CopyFrom(info: map<string, string>)
      modifies this
      ensures entries == old(entries) + info
    {
      var keys := info.Keys;
      while keys != {}
        invariant keys <= info.Keys
        invariant entries == old(entries) + (map k | k in info && k !in keys :: info[k])
        decreases keys
      {
        var k :| k in keys;
        entries := entries[k := info[k]];
        keys := keys - {k};
      }
      assert (map k | k in info && k !in keys :: info[k]) == info;
    }
  }

  class Device {
    const serialNumber: string
    const options: OptionTable
    var lastActivity: int
    var timezone: Option<Zone>

    constructor (serialNumber: string, lastActivity: int, options: OptionTable, timezone: Option<Zone>)
      ensures this.serialNumber == serialNumber && this.options == options
      ensures this.lastActivity == lastActivity && this.timezone == timezone
    {
      this.serialNumber := serialNumber;
      this.lastActivity := lastActivity;
      this.options := options;
      this.timezone := timezone;
    }

    ghost function Info(): DeviceInfo
      reads this, options
    {
      DeviceInfo(lastActivity, options.entries, timezone)
    }

    /** The options of a registration, applied in place. */
    method Configure(opts: seq<DeviceOption>)
      modifies `timezone
      ensures Info() == Configured(old(Info()), opts)
    {
      for i := 0 to |opts|
        invariant Info() == Configured(old(Info()), opts[..i])
      {
        assert opts[..i + 1][..i] == opts[..i];
        if opts[i].loc.Some? {
          timezone := opts[i].loc;
        }
      }
      assert opts[..|opts|] == opts;
    }

    /** A deep copy: a new record with an options table of its own. */
    method Copy() returns (d: Device)
      ensures fresh(d) && fresh(d.options)
      ensures d.serialNumber == serialNumber && d.options.owner == serialNumber && d.Info() == Info()
    {
      var clone := new OptionTable(options.entries, serialNumber);
      d := new Device(serialNumber, lastActivity, clone, timezone);
    }
  }
}
