/** The records of types.go that the server hands around. */
module Types {
  import opened Wrappers

  /** A command and the id it was given when it was queued. */
  datatype CommandEntry = CommandEntry(id: int, command: string)

  /** A drained, unconfirmed command; the entry is keyed by its id. */
  datatype PendingEntry = PendingEntry(sn: string, cmd: string)

  /** A device's confirmation of a command. */
  datatype CommandResult = CommandResult(
    serialNumber: string, id: int, returnCode: int, command: string, queuedCommand: string)

  datatype UserRecord = UserRecord(
    pin: string, name: string, privilege: int, card: string, password: string)

  /** A time zone is only ever compared and handed to the time parser. */
  datatype Zone = Zone(name: string)

  const UTC: Zone := Zone("UTC")

  /** An attendance time: what the time parser made of a local date and time, or a
      Unix epoch in seconds. */
  datatype Timestamp = Local(instant: int) | Epoch(seconds: int)

  datatype AttendanceRecord = AttendanceRecord(
    userID: string, timestamp: Timestamp, status: int, verifyMode: int, workCode: string,
    serialNumber: string)

  /** An option of a device's registration; a missing zone changes nothing. */
  datatype DeviceOption = WithDeviceTimezone(loc: Option<Zone>)

  /** How a request is answered. */
  datatype Answer =
    | Rejected                    // 400, or 503 because the device limit is reached
    | Unavailable                 // 503: a dispatch was refused
    | Body(text: string)          // 200 with this text

  /** The sentinel errors of the server. */
  datatype Error =
    | InvalidSerialNumber
    | MaxDevicesReached
    | DeviceNotFound
    | InvalidCommandField
    | CommandQueueFull

  datatype Result<+T> = Ok(value: T) | Err(error: Error)
}
