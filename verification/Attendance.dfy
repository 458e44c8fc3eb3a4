/** ATTLOG bodies: the attendance parser of parser.go. */
module Attendance {
  import opened Wrappers
  import opened Text
  import opened Lines
  import opened Decimal
  import opened Types

  /** The calendar: what parsing a local date and time in a zone gives, if anything. */
  type Calendar = (string, Zone) -> Option<int>

  /** The zone for local times: the device's, else the server's default, else UTC. */
  function Location(loc: Option<Zone>, defaultTimezone: Option<Zone>): (zone: Zone)
    ensures forall own | loc == Some(own) :: zone == own
    ensures forall default | loc == None && defaultTimezone == Some(default) :: zone == default
    ensures loc == None && defaultTimezone == None ==> zone == Zone("UTC")
  {
    if loc.Some? then loc.value
    else if defaultTimezone.Some? then defaultTimezone.value
    else UTC
  }

  /** The two accepted forms of a timestamp; the date and time form is tried first. */
  function ParseTimestamp(text: string, zone: Zone, calendar: Calendar): Option<Timestamp> {
    match calendar(text, zone)
    case Some(instant) => Some(Local(instant))
    case None =>
      match ParseInt64(text)
      case Some(seconds) => Some(Epoch(seconds))
      case None => None
  }

  /** An optional integer field: 0 when it is absent or malformed. */
  function IntField(parts: seq<string>, i: nat): int {
    if i < |parts| && ParseInt64(parts[i]).Some? then ParseInt64(parts[i]).value else 0
  }

  function TextField(parts: seq<string>, i: nat): string {
    if i < |parts| then parts[i] else ""
  }

  /** The record of a line, or nothing if the line is malformed. */
  function ParseLine(line: string, sn: string, zone: Zone, calendar: Calendar): Option<AttendanceRecord> {
    var parts := Split(line, '\t');
    if |parts| < 2 || TrimSpace(parts[0]) == "" then None
    else match ParseTimestamp(parts[1], zone, calendar)
      case None => None
      case Some(timestamp) =>
        Some(AttendanceRecord(TrimSpace(parts[0]), timestamp, IntField(parts, 2), IntField(parts, 3),
                              TextField(parts, 4), sn))
  }

  /** The records of the well-formed lines, in line order. */
  function Kept(lines: seq<string>, sn: string, zone: Zone, calendar: Calendar): seq<AttendanceRecord> {
    if lines == [] then []
    else
      var n := |lines| - 1;
      var front := Kept(lines[..n], sn, zone, calendar);
      match ParseLine(lines[n], sn, zone, calendar)
      case None => front
      case Some(record) => front + [record]
  }

  /** The parser. No line is lost silently: every non-empty line is a record or counted
      as skipped. */
  method ParseAttendanceRecords(data: string, sn: string, loc: Option<Zone>,
                                defaultTimezone: Option<Zone>, calendar: Calendar)
    returns (records: seq<AttendanceRecord>, skipped: nat)
    ensures records == Kept(BodyLines(data), sn, Location(loc, defaultTimezone), calendar)
    ensures |records| + skipped == |BodyLines(data)|
  {
    records, skipped := [], 0;
    var zone := if loc.Some? then loc.value
                else if defaultTimezone.Some? then defaultTimezone.value
                else UTC;
    var raw := Split(TrimSpace(data), '\n');
    for i := 0 to |raw|
      invariant records == Kept(NonEmpty(raw[..i]), sn, zone, calendar)
      invariant |records| + skipped == |NonEmpty(raw[..i])|
    {
      var line := TrimRight(raw[i], CARRIAGE_RETURN);
      OneMoreLine(raw, i, sn, zone, calendar);
      if line == "" {
        continue;
      }
      var parts := Split(line, '\t');
      if |parts| < 2 {
        skipped := skipped + 1;
        continue;
      }
      var userID := TrimSpace(parts[0]);
      if userID == "" {
        skipped := skipped + 1;
        continue;
      }
      var timestamp: Timestamp;
      var parsed := calendar(parts[1], zone);
      if parsed.Some? {
        timestamp := Local(parsed.value);
      } else {
        var epoch := ParseInt64(parts[1]);
        if epoch.None? {
          skipped := skipped + 1;
          continue;
        }
        timestamp := Epoch(epoch.value);
      }
      var record := AttendanceRecord(userID, timestamp, 0, 0, "", sn);
      if |parts| > 2 {
        var status := ParseInt64(parts[2]);
        if status.Some? {
          record := record.(status := status.value);
        }
      }
      if |parts| > 3 {
        var mode := ParseInt64(parts[3]);
        if mode.Some? {
          record := record.(verifyMode := mode.value);
        }
      }
      if |parts| > 4 {
        record := record.(workCode := parts[4]);
      }
      records := records + [record];
    }
    assert raw[..|raw|] == raw;
  }

  lemma OneMoreLine(raw: seq<string>, i: nat, sn: string, zone: Zone, calendar: Calendar)
    requires i < |raw|
    ensures var line := Stripped(raw[i]);
            var before := NonEmpty(raw[..i]);
            && NonEmpty(raw[..i + 1]) == (if line == "" then before else before + [line])
            && Kept(NonEmpty(raw[..i + 1]), sn, zone, calendar) ==
               if line == "" || ParseLine(line, sn, zone, calendar).None? then Kept(before, sn, zone, calendar)
               else Kept(before, sn, zone, calendar) + [ParseLine(line, sn, zone, calendar).value]
  {
    var line, before := Stripped(raw[i]), NonEmpty(raw[..i]);
    assert raw[..i + 1] == raw[..i] + [raw[i]];
    NonEmptyLast(raw[..i], raw[i]);
    assert (before + [line])[..|before|] == before;
  }

  /** The answer to an ATTLOG post: nothing needs a dispatch without records or callback. */
  function AttlogAnswer(records: seq<AttendanceRecord>, hasCallback: bool, accepted: bool): Answer {
    if hasCallback && records != [] && !accepted then Unavailable else Body("OK: " + FormatInt(|records|))
  }

  // ------------------------------------------------------ what the records are

  /** Record k comes from line from[k], lines are taken in order, and every other line is
      malformed. */
  ghost predicate Origin(from: seq<nat>, records: seq<AttendanceRecord>, lines: seq<string>, sn: string, zone: Zone,
                         calendar: Calendar)
  {
    && |from| == |records|
    && (forall k | 0 <= k < |from| ::
          from[k] < |lines| && ParseLine(lines[from[k]], sn, zone, calendar) == Some(records[k]))
    && (forall j, k | 0 <= j < k < |from| :: from[j] < from[k])
    && (forall i | 0 <= i < |lines| && i !in from :: ParseLine(lines[i], sn, zone, calendar).None?)
  }

  lemma OriginSnoc(from: seq<nat>, records: seq<AttendanceRecord>, lines: seq<string>, line: string, sn: string,
                   zone: Zone, calendar: Calendar)
    requires Origin(from, records, lines, sn, zone, calendar)
    ensures ParseLine(line, sn, zone, calendar).None? ==> Origin(from, records, lines + [line], sn, zone, calendar)
    ensures forall record | ParseLine(line, sn, zone, calendar) == Some(record) ::
              Origin(from + [|lines|], records + [record], lines + [line], sn, zone, calendar)
  {
    assert forall i | i in from :: i in from + [|lines|];
  }

  /** Each record comes from a line of its own, in line order, and every other line is
      malformed. */
  lemma {:induction false} KeptOrigin(lines: seq<string>, sn: string, zone: Zone, calendar: Calendar)
    returns (from: seq<nat>)
    ensures Origin(from, Kept(lines, sn, zone, calendar), lines, sn, zone, calendar)
  {
    from := [];
    if lines != [] {
      var n := |lines| - 1;
      from := KeptOrigin(lines[..n], sn, zone, calendar);
      OriginSnoc(from, Kept(lines[..n], sn, zone, calendar), lines[..n], lines[n], sn, zone, calendar);
      assert lines == lines[..n] + [lines[n]];
      if ParseLine(lines[n], sn, zone, calendar).Some? {
        from := from + [n];
      }
    }
  }

  /** What a delivered record is guaranteed to hold. */
  lemma RecordMeaning(line: string, sn: string, zone: Zone, calendar: Calendar, record: AttendanceRecord)
    requires ParseLine(line, sn, zone, calendar) == Some(record)
    ensures record.userID != "" && Trimmed(record.userID) && record.serialNumber == sn
    ensures var parts := Split(line, '\t');
            && |parts| >= 2 && record.userID == TrimSpace(parts[0])
            && match record.timestamp
               case Local(instant) => calendar(parts[1], zone) == Some(instant)
               case Epoch(seconds) => calendar(parts[1], zone).None? && ParseInt64(parts[1]) == Some(seconds)
  {
    var left, right := TrimSpaceShape(Split(line, '\t')[0]);
  }

  /** An accepted time text, and the time it stands for. */
  ghost predicate Means(text: string, zone: Zone, calendar: Calendar, timestamp: Timestamp) {
    match timestamp
    case Local(instant) => calendar(text, zone) == Some(instant)
    case Epoch(seconds) => calendar(text, zone).None? && InInt64(seconds) && Spells(text, seconds)
  }

  lemma TimestampExactly(text: string, zone: Zone, calendar: Calendar, timestamp: Timestamp)
    ensures ParseTimestamp(text, zone, calendar) == Some(timestamp) <==> Means(text, zone, calendar, timestamp)
  {
    if timestamp.Epoch? {
      ParseInt64Exactly(text, timestamp.seconds);
    }
  }

  /** A line is dropped exactly when it has no tab, or its first field is blank, or its
      second field is neither a date and time nor a 64-bit decimal. */
  lemma DroppedExactly(line: string, sn: string, zone: Zone, calendar: Calendar)
    ensures var parts := Split(line, '\t');
            && (|parts| < 2 <==> '\t' !in line)
            && (ParseLine(line, sn, zone, calendar).None? <==>
                  || |parts| < 2
                  || AllIn(parts[0], BLANKS)
                  || (calendar(parts[1], zone).None? && !IsInt64(parts[1])))
  {
    var parts := Split(line, '\t');
    SplitAlone(line, '\t');
    BlankExactly(parts[0]);
    if |parts| >= 2 {
      ParseInt64Refuses(parts[1]);
    }
  }

  /** The number in a field: the decimal that the field spells, or 0. */
  ghost predicate FieldIs(parts: seq<string>, i: nat, n: int) {
    if i < |parts| && IsInt64(parts[i]) then InInt64(n) && Spells(parts[i], n) else n == 0
  }

  lemma IntFieldExactly(parts: seq<string>, i: nat, n: int)
    ensures IntField(parts, i) == n <==> FieldIs(parts, i, n)
  {
    if i < |parts| {
      ParseInt64Refuses(parts[i]);
      ParseInt64Exactly(parts[i], n);
    }
  }

  /** What each field of a line becomes: the third is the status, the fourth the verify
      mode, the fifth the work code; a missing or malformed number is 0, a missing text is
      empty. */
  lemma FieldsMeaning(line: string, sn: string, zone: Zone, calendar: Calendar, record: AttendanceRecord)
    requires ParseLine(line, sn, zone, calendar) == Some(record)
    ensures var parts := Split(line, '\t');
            && |parts| >= 2 && Means(parts[1], zone, calendar, record.timestamp)
            && FieldIs(parts, 2, record.status) && FieldIs(parts, 3, record.verifyMode)
            && record.workCode == (if |parts| < 5 then "" else parts[4])
  {
    var parts := Split(line, '\t');
    TimestampExactly(parts[1], zone, calendar, record.timestamp);
    IntFieldExactly(parts, 2, record.status);
    IntFieldExactly(parts, 3, record.verifyMode);
  }

  predicate TabFree(fields: seq<string>) {
    forall i | 0 <= i < |fields| :: '\t' !in fields[i]
  }

  /** A record written as a line, with any further fields, is read back exactly. */
  lemma LineRoundTrip(record: AttendanceRecord, time: string, more: seq<string>, zone: Zone, calendar: Calendar)
    requires record.userID != "" && Trimmed(record.userID) && '\t' !in record.userID
    requires '\t' !in time && Means(time, zone, calendar, record.timestamp)
    requires InInt64(record.status) && InInt64(record.verifyMode) && '\t' !in record.workCode && TabFree(more)
    ensures var fields := [record.userID, time, FormatInt(record.status), FormatInt(record.verifyMode),
                           record.workCode];
            ParseLine(Join(fields + more, '\t'), record.serialNumber, zone, calendar) == Some(record)
  {
    var fields := [record.userID, time, FormatInt(record.status), FormatInt(record.verifyMode), record.workCode];
    FormatIntChars(record.status);
    FormatIntChars(record.verifyMode);
    SplitJoin(fields + more, '\t');
    TrimSpaceIdentity(record.userID);
    TimestampExactly(time, zone, calendar, record.timestamp);
    FormatIntRoundTrip(record.status);
    FormatIntRoundTrip(record.verifyMode);
  }

  /** The ATTLOG answer: 503 exactly if there were records to dispatch and the dispatch was
      refused, and otherwise the number of records can be read off it. */
  lemma AnswerMeaning(records: seq<AttendanceRecord>, hasCallback: bool, accepted: bool)
    ensures var answer := AttlogAnswer(records, hasCallback, accepted);
            if |records| > 0 && hasCallback && !accepted then answer == Unavailable
            else && answer.Body? && |answer.text| > 4 && answer.text[..4] == "OK: "
                 && ParseDecimal(answer.text[4..]) == Some(|records|)
  {
    FormatIntRoundTrip(|records|);
    FormatIntChars(|records|);
    var text := "OK: " + FormatInt(|records|);
    assert text[4..] == FormatInt(|records|);
  }

  lemma {:induction false} KeptConcat(a: seq<string>, b: seq<string>, sn: string, zone: Zone, calendar: Calendar)
    ensures Kept(a + b, sn, zone, calendar) == Kept(a, sn, zone, calendar) + Kept(b, sn, zone, calendar)
  {
    if b == [] {
      assert a + b == a;
    } else {
      var n := |b| - 1;
      assert (a + b)[..|a + b| - 1] == a + b[..n];
      KeptConcat(a, b[..n], sn, zone, calendar);
    }
  }

  /** Parsing distributes over joining two bodies that meet cleanly. */
  lemma {:induction false} ParseDistributes(a: string, b: string, sn: string, zone: Zone, calendar: Calendar)
    requires MeetCleanly(a, b)
    ensures Kept(BodyLines(a + ['\n'] + b), sn, zone, calendar) ==
            Kept(BodyLines(a), sn, zone, calendar) + Kept(BodyLines(b), sn, zone, calendar)
  {
    BodyLinesConcat(a, b);
    KeptConcat(BodyLines(a), BodyLines(b), sn, zone, calendar);
  }

  /** Without that condition it does not: a leading tab makes a line malformed inside a
      body, but trimming the body on its own strips that tab and shifts the fields. */
  lemma TrimmingShiftsFields(sn: string, never: Calendar)
    requires forall text, zone :: never(text, zone).None?
    ensures var a, b := "7\t1", "\t5\t6";
            && |Kept(BodyLines(a), sn, UTC, never)| == |Kept(BodyLines(b), sn, UTC, never)| == 1
            && |Kept(BodyLines(a + ['\n'] + b), sn, UTC, never)| == 1
            && !MeetCleanly(a, b)
  {
    var a, b := "7\t1", "\t5\t6";
    TrimmedLines();
    GoodLines(sn, never);
    LeadingTab("5\t6", sn, never);
    assert b == ['\t'] + "5\t6";
    KeptOne(a, sn, never);
    KeptOne(b, sn, never);
    KeptOne("5\t6", sn, never);
    KeptConcat([a], [b], sn, UTC, never);
    BodyLinesConcat(a, b);
  }

  lemma GoodLines(sn: string, calendar: Calendar)
    ensures ParseLine("7\t1", sn, UTC, calendar).Some? && ParseLine("5\t6", sn, UTC, calendar).Some?
  {
    TwoFields("7", "1", sn, calendar);
    TwoFields("5", "6", sn, calendar);
    assert "7" + ['\t'] + "1" == "7\t1" && "5" + ['\t'] + "6" == "5\t6";
  }

  /** A line that starts with a tab has an empty user id. */
  lemma LeadingTab(rest: string, sn: string, calendar: Calendar)
    ensures ParseLine(['\t'] + rest, sn, UTC, calendar).None?
  {
    assert ['\t'] + rest == "" + ['\t'] + rest;
    SplitConcat("", rest, '\t');
  }

  lemma TrimmedLines()
    ensures var a, b := "7\t1", "\t5\t6";
            && BodyLines(a) == [a] && BodyLines(b) == ["5\t6"]
            && BodyLines(a + ['\n'] + b) == [a] + [b]
  {
    var a, b := "7\t1", "\t5\t6";
    var ab := a + ['\n'] + b;
    SingleLine(a);
    SingleLine("5\t6");
    SingleLine(b);
    TrimSpaceIdentity(a);
    TrimSpaceIdentity("5\t6");
    TrimSpaceIdentity(ab);
    assert TrimSpace(b) == "5\t6" by {
      assert b[1..] == "5\t6";
    }
    SplitConcat(a, b, '\n');
    NonEmptyConcat(Split(a, '\n'), Split(b, '\n'));
  }

  lemma SingleLine(line: string)
    requires '\n' !in line && line != "" && line[|line| - 1] != '\r'
    ensures TextLines(line) == [line]
  {
    SplitNone(line, '\n');
    assert [] + [line] == [line];
    NonEmptyLast([], line);
  }

  lemma KeptOne(line: string, sn: string, calendar: Calendar)
    ensures |Kept([line], sn, UTC, calendar)| == if ParseLine(line, sn, UTC, calendar).None? then 0 else 1
  {
    assert [line][..0] == [];
  }

  lemma TwoFields(user: string, seconds: string, sn: string, calendar: Calendar)
    requires '\t' !in user && '\t' !in seconds
    requires user != "" && Trimmed(user) && ParseInt64(seconds).Some?
    ensures ParseLine(user + ['\t'] + seconds, sn, UTC, calendar).Some?
  {
    SplitConcat(user, seconds, '\t');
    SplitNone(user, '\t');
    SplitNone(seconds, '\t');
    TrimSpaceIdentity(user);
  }
}
