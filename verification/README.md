# A verified model of the ADMS push server

The repository is a Go server for the ADMS push protocol of attendance terminals. Devices
post attendance logs, registry data and confirmations, and poll for commands; the
application queues commands and receives callbacks. This project models the state of that
server and the text it exchanges, and proves what holds in every interleaving, in every
run and for every body.

| part | modules | form |
|---|---|---|
| Callback pipeline and shutdown | `Shutdown`, `ShutdownProgress` | a transition system: one program counter per dispatch and per `Close` call, the read-write lock, the bounded channel, the close signal and the once-guard, with histories of accepted and executed callbacks |
| Running a callback | `Delivery` | the same system with the worker's stack: guards, the loop over a batch and the user's callback as frames, and a panic as a free choice that unwinds to the nearest guard |
| Command lifecycle, interleaved | `Lifecycle`, `Ownership`, `Ordering`, `Reposting` | a transition system whose steps are the lock-protected sections: a queueing call has three, a confirmed result three, an eviction two |
| Command lifecycle, uninterrupted | `Server`, `Devices`, `AtomicOps`, `Confirmation`, `Uninterrupted` | a class with heap objects for the server and its devices, which logs its operations; each method is tied to a function on the tables in `AtomicOps`; the invariant over all sequences of those functions; and lemmas that link the two views |
| Tables shared by both views | `ServerState` | values, and one function per critical section |
| Wire text | `CommandResults`, `Attendance`, `UserRecords`, `KeyValues`, `PollResponse`, `Lines`, `Decimal`, `Text` | the loops of the parsers and printers as methods, each proved equal to a declarative specification; lemmas about the specifications |

Where the code and its own comments differ, the model follows the code:

- adms.go:146-150 says that the close signal stops dispatchers from accepting new work. A
  dispatch that has already looked at the signal can still be accepted
  (`ShutdownProgress.AcceptedAfterSignal`), and exactly such a dispatch can
  (`ShutdownProgress.LateAcceptance`). What ends acceptance is the closing of the callback
  channel.
- command.go:9 calls the ids monotonically increasing. They are issued that way, but a queue
  need not be in ascending order (`Ordering.UnsortedReachable`). It is when no call for the
  device takes an id while another one holds one (`Ordering.AscendingUnlessOvertaken`), and
  `Ordering.CanBreakExactly` says for every reachable state whether the calls that hold ids
  can still break the order.
- Every command belongs to a registered device when operations run one after the other. When
  they interleave, a command can be appended after its device was evicted
  (`Ownership.OrphanReachable`). That append is the only step that leaves a command with a
  device that is neither registered nor in the middle of its eviction
  (`Ownership.OwnedUnlessOrphaned`). Ownership by registered devices is also broken by phase 1
  of the eviction of a device with commands, until phase 2 removes them; these two kinds of
  step are the only ones (`Ownership.OwnedByRegisteredUnless`).
- adms.go:227 describes phase 2 as cleaning up after evicted devices. It also takes commands
  that were accepted for a registered device (`Ownership.AcceptedAndSwept`), exactly when the
  device registered again between the two phases (`Ownership.RegisteredDeviceSwept`).
- Parsing an ATTLOG body as a whole trims its two ends, so splitting a body in two can change
  its lines and shift fields (`Attendance.TrimmingShiftsFields`). The lines of two joined
  bodies are the lines of both exactly when one body is blank, or what is trimmed off the ends
  that meet is line breaks and those before the second end a line (`Lines.BodyLinesConcat`).

Clock readings, the outcome of each dispatch, whether an invocation of a callback panics, and
the calendar are parameters or free choices of a run. Check all files together with
`dafny verify dfyconfig.toml`.

## Model

| member | source | states |
|---|---|---|
| Shutdown.RunKeepsInv | adms.go:144-282 | In every interleaving of any number of dispatches, `Close` calls, the worker and the eviction worker: lock ownership, the once-guard, what each shutdown stage guarantees, safety of sends, conservation of callbacks, and that a callback is accepted exactly when its dispatch succeeds |
| Shutdown.SendsAreSafe | adms.go:250-282 | Whoever stands at either send holds the read lock and finds the channel open; no send reaches a closed channel, nothing is closed twice, and the buffer never exceeds its capacity |
| Shutdown.NothingLost | adms.go:170-175 | The accepted callbacks are always the executed ones, then the running one, then the buffered ones, in acceptance order |
| Shutdown.CloseDrains | adms.go:144-165 | When any `Close` call has returned, every accepted callback has been executed in order, the worker is gone, the context is cancelled, and nothing is accepted or executed afterwards |
| Shutdown.CancelledAfterLast | adms.go:160-163 | The base context is cancelled only after the last callback has ended |
| Shutdown.AnswersAreKept | adms.go:246-282 | Once a `Close` call has returned, the callback of a dispatch that answered true was executed exactly once, and that of one that answered false never, whenever the dispatch returned |
| Shutdown.RefusedForever | adms.go:268-281 | A callback whose dispatch answered false is accepted and executed in no later state, whether or not `Close` is called |
| ShutdownProgress.StepDecreases | adms.go:144-282 | Every step strictly decreases a natural-number measure over program counters, buffer length, remaining ticks and shutdown stage |
| ShutdownProgress.NeverStuck | adms.go:144-165 | While a `Close` call is on its way, some step other than a new call or a timer tick can be taken |
| ShutdownProgress.CloseReturns | adms.go:144-205 | No run is longer than the measure of its start, and a run that cannot be prolonged ends with every `Close` and every dispatch returned and all accepted callbacks executed |
| ShutdownProgress.LateAcceptance | adms.go:254-281 | After the close signal, a dispatch not yet accepted can still be accepted if and only if it had passed its check of the signal |
| ShutdownProgress.AcceptedAfterSignal | adms.go:146-150 | A concrete run in which a callback is accepted after the close signal |
| ShutdownProgress.RefusalReasons | adms.go:254-281 | A dispatch is refused only after the close signal, or when its wait in the slow path has timed out |
| ShutdownProgress.FullIsNoRefusal | adms.go:261-282 | The non-blocking send accepts when there is room; on a full channel it leaves the dispatch where it can still be accepted |
| Delivery.ExecutionKeepsInv | adms.go:170-188 | In every state of every execution, whatever panics: no panic escapes the guards, and the invocations of the attendance callback are those of the finished batches, each whole and in order, followed by a front part of the running one |
| Delivery.DeliveredOnce | adms.go:297-305 | In every state, whatever panics, the callback was invoked for a front part of each batch, once per record and in line order: for all of it once its function has ended, for none of it as long as its dispatch was not accepted |
| Delivery.AttlogAllOrNothing | handler.go:143-171 | For the records parsed from any ATTLOG body, with the answer that `Server.ADMSServer.HandleAttlog` gives for the value its dispatch returned: if it is 503, the callback is invoked for none of them in any state; if it is OK, then once any `Close` has returned it has been invoked exactly once per record, in line order, whatever panics |
| Delivery.InsideDecreases | adms.go:178-188 | Every step inside a callback (an invocation, a return, a panic, the unwinding of a frame) uses up some of the work on the stack |
| Delivery.WorkerNeverStuck | adms.go:170-175 | While a callback runs, the worker can take a step; so each batch ends |
| Lifecycle.RunKeepsInv | command.go:16-70 | In every interleaving, queues and pending table hold exactly the ids recorded as queued and pending, unchanged; the limit holds; histories match the queues; no id is handed out twice |
| Lifecycle.ExactlyOnePlace | command.go:28-41 | Each issued id is in exactly one place: taken and not appended, refused, queued, pending, or retired |
| Lifecycle.OnePosition | command.go:40-41 | A queued id stands at one position of one device's queue |
| Lifecycle.OutIsFinal | handler.go:303-306 | A refused or retired id stays so in every later state and is never again held, queued or pending |
| Lifecycle.CarriesItsCommand | command.go:60-68 | An id carries, in a queue and as a pending entry, the serial number and the command of the call that took it |
| Lifecycle.LimitHolds | command.go:33-39 | With a positive limit, queued plus pending commands of every device never exceed it in any interleaving |
| Lifecycle.DrainConserves | command.go:60-70 | A drain empties the queue and leaves every device's sum of queued and pending commands unchanged |
| Lifecycle.DrainsInOrder | command.go:60-70 | Per device, the batches drained since its last eviction followed by its queue are the commands appended since then in append order; over a whole run no id is handed out twice |
| Lifecycle.DrainsAreClean | command.go:84-89 | In every reachable state every queued command is free of CR and LF |
| Lifecycle.PollIsReadable | handler.go:97-107 | In every reachable state the poll response of every device reads back to exactly the drained ids and commands in order, and is `OK` only if there are none |
| Ownership.OwnedUnlessOrphaned | command.go:21-41 | From an owned state, a step leaves every command with a known device if and only if it is not an append for a device no longer known |
| Ownership.OrphanReachable | adms.go:210-241 | A concrete run reaches a state with a queued command of an unregistered device |
| Ownership.OwnedByRegisteredUnless | adms.go:214-221 | From a state in which registered devices own all commands, a step keeps that if and only if it is neither an append for an unregistered device nor phase 1 of the eviction of a device with commands |
| Ownership.RegisteredDeviceSwept | adms.go:227-241 | In every run, phase 2 takes the commands of a registered device if and only if phase 1 of the same eviction removed the device and it registered again since; otherwise it leaves its queue and pending commands as they are |
| Ownership.AcceptedAndSwept | adms.go:214-241 | A concrete run in which a command accepted for a registered device is swept although the device is registered |
| Ordering.AscendingUnlessOvertaken | command.go:28-41 | In every run in which no call takes an id for a device while another one holds one, the device's queue is in ascending id order in every state |
| Ordering.CanBreakExactly | command.go:28-41 | From a reachable state with an ascending queue, some order of appends by the calls that hold ids for the device breaks the order if and only if there is room for one and a held id is below the last queued one, or there is room for two and two calls hold ids |
| Ordering.UnsortedReachable | command.go:28-41 | A concrete run reaches a queue that is not in ascending order |
| Uninterrupted.QueueInThreeSteps | command.go:16-42 | Check, take and append in a row give the tables and the answer of the uninterrupted operation; a call that fails the field check or the existence check ends there with the matching error, and the id of a call refused for lack of room is used up |
| Uninterrupted.EvictInTwoSteps | adms.go:210-244 | The two phases in a row are the uninterrupted eviction |
| Uninterrupted.ConfirmInThreeSteps | handler.go:279-306 | Look-up, accepted dispatch and deletion in a row dispatch and remove what the confirmation handler computes for one result |
| Uninterrupted.ConfirmInSteps | handler.go:275-307 | So does the whole loop, up to the first refused dispatch or the end of the body |
| AtomicOps.ReachableInv | command.go:16-70 | Whatever operations run one after the other: every queued or pending command belongs to a registered device, both limits hold, ids are used once, queues are in ascending order, and commands hold no line break |
| AtomicOps.ApplyKeeps | device.go:16-40 | Each operation (registration, activity, options, time zone, queueing, draining, confirming, evicting) keeps that invariant |
| AtomicOps.EvictMeaning | adms.go:210-244 | An eviction removes exactly the devices idle for longer than the timeout with all their commands, and leaves every other device, queue and pending entry untouched |
| AtomicOps.OptionsMeaning | handler.go:356-362 | After any operations, a device's options are the merge, in arrival order, of what its registry bodies said since the operation that last registered it |
| AtomicOps.ActivityMeaning | device.go:107-113 | After any operations, a device's activity time is that of its last request since it was last registered, or else of that registration; its time zone is the one last set since then, cleared by setting none |
| AtomicOps.EvictedExactly | adms.go:214-240 | After any operations, an eviction keeps a device if and only if that time is no longer ago than the timeout; a kept device keeps its record, queue and pending commands, another one loses all its commands |
| AtomicOps.ArrivalProtects | device.go:107-113 | A device whose request was admitted survives every eviction within the timeout, whatever other operations come between |
| AtomicOps.RegistrationExactly | device.go:24-35 | After any operations, a registration with a valid serial number adds an unknown device if and only if the limit is 0 or fewer devices than the limit are registered; the new record has the time of the call and no options, a known device keeps its time and options, and no other device changes |
| AtomicOps.InvalidSerialRefused | device.go:17-19 | A registration with an invalid serial number changes nothing |
| AtomicOps.RegisteredValid | device.go:17-19 | Only valid serial numbers are ever registered |
| AtomicOps.SerialExactly | parser.go:21-32 | A serial number is valid if and only if it has 1 to 64 characters, each an ASCII letter, digit, hyphen or underscore |
| AtomicOps.QueueExactly | command.go:16-42 | Which commands are queued and which error each other one meets, in the order of the checks: a CR or LF, an unknown device, and queued plus pending commands that have reached a positive limit |
| AtomicOps.DrainExactly | command.go:60-70 | A drain empties one queue, each of its commands becomes pending under its id, and nothing else changes |
| AtomicOps.ArrivalMeaning | handler.go:47-57 | A refused request registers nothing; another one registers its device if need be and notes its activity |
| ServerState.ConfiguredFields | options.go:20-26 | The options of a registration change nothing but the time zone |
| ServerState.ConfiguredZone | options.go:20-26 | The last option that names a zone decides it |
| Confirmation.Served | handler.go:295-301 | The number of results served is the number before the first refused dispatch |
| Confirmation.CorrelatedPrefix | handler.go:275-301 | What an attempt that is cut off after n results dispatches is the first n of what a full one dispatches |
| Reposting.Progress | handler.go:275-307 | In every interleaving, a post in flight has dispatched the first n results of its body, in order; and an id that was pending at its start, and that no other post deletes and no eviction sweeps, is retired if it is among those already deleted, and else still pending |
| Reposting.RefusedPost | handler.go:295-301 | A post answered 503 has dispatched exactly its first n results, n below their number, in order; of such ids exactly those of the first n are pending no more |
| Reposting.AnsweredPost | handler.go:303-310 | A post answered 200 has dispatched and removed all of them |
| Reposting.ExactlyOneHit | handler.go:273-310 | A body is posted until it is answered 200; whatever else interleaves, short of another post that deletes the id and an eviction of its device, exactly one accepted dispatch of these posts finds an id of the body that was pending at the start, and it carries the queued command |
| CommandResults.ParseCommandResults | parser.go:202-251 | The streaming parser computes the segment specification of every body: one result per parseable id, from the segment up to the next one, the first segment reaching back to the start; what its parts mean is said by `CommandResults.ForeignPart` and `CommandResults.KnownPart` |
| CommandResults.IdPositionsMeaning | parser.go:227-238 | The segments start at every parseable id, once each and in order |
| CommandResults.SegmentEndMeaning | parser.go:233-236 | A segment ends at the next parseable id or at the end of the body |
| CommandResults.LastReturnMeaning | parser.go:239-244 | A segment's return code is its last parseable one |
| CommandResults.LastCmdMeaning | parser.go:245-246 | A segment's command is its last one |
| CommandResults.QuietSegment | parser.go:204 | A segment without a return code or command gives 0 and the empty command |
| CommandResults.ParseConcat | parser.go:202-251 | Parsing distributes over joining two bodies with a newline or ampersand when the first holds a parseable id and the second has none of its pairs before its first id |
| CommandResults.ForeignPart | parser.go:217-247 | A part that has no `=`, or a key other than ID, RETURN and CMD in any letter case, or an id or return code that is no 64-bit decimal, changes no result wherever it stands in a body |
| CommandResults.KnownPart | parser.go:218-246 | A known pair in any letter case, with blanks around its key and value and with a sign or zeros before its number, reads like the plain pair |
| CommandResults.ParsedPlain | parser.go:215-246 | Whatever the body, a parsed command holds no `&`, no newline and no blank at its ends |
| CommandResults.BodyRoundTrip | parser.go:188-201 | In the ampersand format and in the one-pair-per-line format, a rendered list of results parses back to itself if and only if every command is free of `&`, newline and blanks at its ends |
| Attendance.ParseAttendanceRecords | parser.go:42-118 | The parser returns the records of the well-formed lines, and records plus skipped lines are all non-empty lines |
| Attendance.KeptOrigin | parser.go:54-111 | Each record comes from a line of its own, in line order, and every other line is malformed |
| Attendance.RecordMeaning | parser.go:67-91 | A record has a trimmed, non-empty user id, and its timestamp is the date and time form if that parses and else the epoch form |
| Attendance.DroppedExactly | parser.go:59-85 | A line is dropped if and only if it has no tab, or its first field is blank, or its second field is neither a date and time nor a 64-bit decimal |
| Attendance.FieldsMeaning | parser.go:75-110 | The second field gives the time, the third the status, the fourth the verify mode, the fifth the work code; a missing or malformed number is 0 and a missing text is empty |
| Attendance.LineRoundTrip | parser.go:59-111 | A record written as a tab-separated line, with any further fields, is read back exactly |
| Attendance.Location | device.go:134-142 | The zone of local times is the device's own, else the server's default, else UTC |
| Attendance.AnswerMeaning | handler.go:160-171 | The answer is 503 if and only if there were records and a callback and the dispatch was refused; otherwise it is `OK: ` and a number that reads as the number of records |
| Attendance.ParseDistributes | parser.go:54-59 | Parsing distributes over joining two bodies that meet cleanly, which is when their lines are the lines of both |
| Attendance.TrimmingShiftsFields | parser.go:54 | A pair of bodies that do not meet cleanly and whose records change when they are joined |
| Lines.TrimHarmless | parser.go:54-58 | Trimming a whole body changes none of its lines if and only if what is trimmed is line breaks and those at the front end a line |
| Lines.BodyLinesConcat | parser.go:154-158 | The lines of two bodies joined by a newline are the lines of both, in order, if and only if one body is blank, or what is trimmed off the end of the first is line breaks, and what is trimmed off the front of the second is line breaks that end a line |
| KeyValues.ParseKVPairs | parser.go:130-143 | The parser leaves the map that writing the body's pairs in order leaves |
| KeyValues.WrittenMeaning | parser.go:132-141 | The last pair with a key decides its value, and a key with no pair is absent |
| KeyValues.RegistryRoundTrip | parser.go:130-142 | Printed pairs joined by commas, each key with a tilde before it or not, are read back to the map that writes the tilde-free pairs in order |
| KeyValues.DeviceInfoRoundTrip | parser.go:128-142 | In the newline form pairs are read back too, and a tilde stays in its key |
| KeyValues.InfoConcat | parser.go:132-141 | A text joined from two says what the first says and then what the second says |
| KeyValues.ForeignPart | parser.go:134-140 | A part without `=` says nothing, wherever it stands |
| KeyValues.PaddedPairRead | parser.go:133-139 | A pair with blanks around its key and value says the same as the plain pair |
| KeyValues.MergeAllMeaning | handler.go:356-362 | After merging any number of maps, a key's value comes from the last map that has it |
| UserRecords.ParseUserRecords | parser.go:151-186 | The parser returns the users of the lines with a PIN in line order, and users plus skipped lines are all non-empty lines |
| UserRecords.ReadFields | parser.go:159-164 | The field map of a line is what writing its pairs in order leaves |
| UserRecords.UsersIntact | parser.go:160-179 | Whatever the body, a parsed user has a PIN, and pin, name, card and password hold no tab and no blank at their ends |
| UserRecords.UsersOrigin | parser.go:154-180 | Each user comes from a line of its own, in line order, and every other line is skipped |
| UserRecords.SkippedExactly | parser.go:165-171 | A line is skipped if and only if it has no PIN pair or its last one is empty |
| UserRecords.PushedUserRoundTrip | parser.go:148-179 | A pushed record with a PIN is read back exactly, each field from its own key, the password too |
| UserRecords.UserRoundTrip | command.go:111-121 | The printed fields of a user-add command that passes validation parse back to exactly that user, with an empty password, if and only if the pin is not empty and no field holds a tab or a blank at its ends |
| PollResponse.Write | handler.go:97-107 | The printing loop writes the whole response of a batch |
| PollResponse.ResponseRoundTrip | types.go:82-85 | A response reads back to the very ids and commands it was printed from, in order, if and only if no command holds a newline; commands may hold colons or be empty |
| PollResponse.OkMeansEmpty | handler.go:100-106 | `OK` is the response to the empty batch and to no other |
| PollResponse.ResponseText | types.go:76-85 | The text of a response: `OK`, or one line `C:<id>:<command>` with its newline per command, in order |
| Decimal.FormatIntRoundTrip | types.go:85 | Reading a printed number gives it back if it fits in 64 bits, and fails otherwise |
| Decimal.AtoiRoundTrip | parser.go:172 | So does reading with the error ignored, for every 64-bit number |
| Decimal.ParseInt64Exactly | parser.go:228 | Exactly the decimals of 64-bit numbers are read, with an optional sign and leading zeros, each as its number |
| Decimal.ParseInt64Refuses | parser.go:228-232 | Every other text is refused, the empty one too |
| Decimal.AtoiDecimal | parser.go:172 | With the error ignored, a decimal reads as the nearest 64-bit number |
| Decimal.AtoiMalformed | parser.go:172 | And text without digits, or with a character after at most 64 bits of digits that is no digit, reads as 0 |
| Devices.OptionTable.CopyFrom | handler.go:360 | Every pair is written over the table's own pairs, which otherwise stay |
| Devices.Device.Configure | device.go:36-38 | The options of a registration are applied to the record one after the other |
| Devices.Device.Copy | types.go:175-182 | A copy is a new record with a new options table that says the same |
| Server.ADMSServer.constructor | adms.go:103-109 | A new server is valid and empty, and its log of operations too |
| Server.ADMSServer.Invariant | device.go:16-40 | In every valid state of the object, which every method keeps: commands belong to registered devices, both limits hold, ids are used once, and a device's options are the merge of its registry bodies since it was last registered |
| Server.ADMSServer.RegisterDevice | device.go:16-40 | A known device is kept; a new one is added if its serial number is valid and there is no limit or fewer devices than the limit; the options of the call are applied in order; else the matching error is returned, in these numbers, and nothing changes |
| Server.ADMSServer.UpdateDeviceActivity | device.go:107-120 | The activity time of a known device becomes the given one, and nothing else changes |
| Server.ADMSServer.SetDeviceTimezone | device.go:68-77 | The time zone of a known device becomes the given one, cleared if none is given, and nothing else changes; an unknown device is an error |
| Server.ADMSServer.GetDevice | device.go:44-52 | The copy shares no object with the server, and its options are the right-biased merge, in arrival order, of what the registry bodies said since the device was registered |
| Server.ADMSServer.ListDevices | device.go:94-104 | One copy per device, each with objects of its own that say what the server's record says |
| Server.ADMSServer.RequireDevice | handler.go:47-57 | A valid device is registered if need be and its activity noted; otherwise nothing changes |
| Server.ADMSServer.PendingCount | command.go:46-54 | The count is the number of pending entries of the device |
| Server.ADMSServer.QueueCommand | command.go:16-42 | The new tables and the answer, each error case included; a refusal for lack of room uses up an id |
| Server.ADMSServer.SendUserAddCommand | command.go:111-121 | Valid fields queue the user-add command, given as literal text, whose fields `UserRecords.UserRoundTrip` reads back; an invalid field changes nothing |
| Server.ADMSServer.DrainCommands | command.go:60-70 | The queue is returned and emptied, and its entries become pending |
| Server.ADMSServer.WriteCommandsOrOK | handler.go:97-107 | The text written is the response to the drained batch, `OK` if it is empty, which `PollResponse.ResponseRoundTrip` reads back |
| Server.ADMSServer.HandleRegistry | handler.go:337-373 | A non-empty body is merged into the device's options, and logged, also when its dispatch is then refused |
| Server.ADMSServer.MergeInto | handler.go:358-362 | The merge changes the options of one device, if it is still registered, and nothing else |
| Server.ADMSServer.HandleAttlog | handler.go:143-171 | `OK: n` is answered for n parsed records that are dispatched as one batch (or need no dispatch); a refused dispatch is answered 503 and hands over nothing; apart from registering and touching its device the request changes no table and logs no operation |
| Server.ADMSServer.EvictStaleDevices | adms.go:210-244 | The uninterrupted eviction, of which `AtomicOps.EvictMeaning` says what it removes |
| Server.ADMSServer.CollectStale | adms.go:214-221 | Phase 1 collects and removes exactly the stale devices |
| Server.ADMSServer.CleanQueues | adms.go:228-241 | Phase 2 removes exactly their queues and pending entries |
| Server.ADMSServer.HandleDeviceCmd | handler.go:252-311 | Of a confirmation body, the results before the first refused dispatch are dispatched in order, each with its queued command if its id is still pending, and exactly their ids stop being pending; the answer is 503 if one was refused |
| Server.ADMSServer.ConfirmResults | handler.go:275-307 | The same for the results of a parsed body, logged as one operation |
| Server.ADMSServer.ServeResults | handler.go:275-307 | The loop over the results: what it leaves pending and what it dispatches |

## Left out

- HTTP plumbing: methods, routing, body size limits, status texts and the inspect endpoint's JSON; a request is its serial number, its body and its answer.
- Logging, body previews, names of verify modes, and option setters (only that limits are not negative and the channel's capacity is positive).
- Calendar and time-zone arithmetic: parsing a date and time in a zone is an uninterpreted partial function, and an epoch timestamp is kept as its seconds.
- Clocks: each request and each eviction reads the clock once, as a parameter; the saturation of very long durations is not modelled.
- Non-ASCII white space and letters in `TrimSpace` and `ToUpper`; text is modelled on ASCII characters.
- Wrap-around of the 64-bit id counter: ids are unbounded.
- The other command printers, the USERINFO, INFO and OPERLOG branches of `HandleCData`, `HandleGetRequest`, `IsDeviceOnline`, `GetDeviceTimezone`, and `ParseQueryParams`: they reuse what is modelled or add only easy members.
- Panic values, stack traces, goroutine exit from inside a callback, callbacks that never end, and callbacks that call `Close`.
- `DeviceOption` values other than the repository's own `WithDeviceTimezone`.
- Cancelling the base context and the end of the once-guard are one step of `Shutdown`; no other call can observe the moment in between except by the context itself.
- Whether a poll response that was drained reaches the device: the drained commands are pending either way.
- The methods of class `ADMSServer` run uninterrupted; interleaving is the subject of `Lifecycle`, and `Uninterrupted` links the two.
- cmd/probe and the examples directory.
