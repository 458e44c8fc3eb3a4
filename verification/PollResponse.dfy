/** The answer to a device's poll: how the server prints drained commands and how the
    lines can be read back. */
module PollResponse {
  import opened Wrappers
  import opened Text
  import opened Decimal
  import opened Types

  const OK: string := "OK"

  /** One command, without its newline. */
  function Line(entry: CommandEntry): string {
    "C:" + (FormatInt(entry.id) + [':'] + entry.command)
  }

  function Printed(entries: seq<CommandEntry>): string {
    if entries == [] then "" else Line(entries[0]) + ['\n'] + Printed(entries[1..])
  }

  /** The whole response. */
  function Response(entries: seq<CommandEntry>): string {
    if entries == [] then OK else Printed(entries)
  }

  /** A command line taken apart: the id is everything up to the second colon. */
  function ReadLine(line: string): Option<CommandEntry> {
    if |line| < 2 || line[..2] != "C:" then None
    else match Cut(line[2..], ':')
      case None => None
      case Some((id, command)) =>
        match ParseDecimal(id)
        case None => None
        case Some(n) => Some(CommandEntry(n, command))
  }

  function ReadLines(lines: seq<string>): Option<seq<CommandEntry>> {
    if lines == [] then Some([])
    else match (ReadLine(lines[0]), ReadLines(lines[1..]))
      case (Some(entry), Some(entries)) => Some([entry] + entries)
      case _ => None
  }

  /** A response read back: `OK`, or lines that each end with a newline. */
  function Read(response: string): Option<seq<CommandEntry>> {
    if response == OK then Some([])
    else
      var lines := Split(response, '\n');
      var n := |lines| - 1;
      if n == 0 || lines[n] != "" then None else ReadLines(lines[..n])
  }

  /** The text of a response: `OK`, or one line per command. */
  lemma ResponseText(entries: seq<CommandEntry>, entry: CommandEntry)
    ensures Response([]) == "OK"
    ensures Response([entry]) == "C:" + FormatInt(entry.id) + ":" + entry.command + "\n"
    ensures entries != [] ==> Response([entry] + entries) == Response([entry]) + Response(entries)
  {
    assert [entry][1..] == [];
    assert ([entry] + entries)[1..] == entries;
    assert Printed([entry]) == Line(entry) + ['\n'] + Printed([]);
    assert Line(entry) == "C:" + FormatInt(entry.id) + ":" + entry.command;
  }

  lemma ReadPrintedLine(entry: CommandEntry)
    ensures ReadLine(Line(entry)) == Some(entry)
  {
    var line := Line(entry);
    FormatIntChars(entry.id);
    FormatIntRoundTrip(entry.id);
    assert line[..2] == "C:";
    assert line[2..] == FormatInt(entry.id) + [':'] + entry.command;
    CutFirst(FormatInt(entry.id), entry.command, ':');
  }

  lemma LineHasNoNewline(entry: CommandEntry)
    requires '\n' !in entry.command
    ensures '\n' !in Line(entry)
  {
    FormatIntChars(entry.id);
  }

  ghost predicate OneLined(entries: seq<CommandEntry>) {
    forall i | 0 <= i < |entries| :: '\n' !in entries[i].command
  }

  lemma {:induction false} PrintedLines(entries: seq<CommandEntry>)
    requires OneLined(entries)
    ensures var lines := Split(Printed(entries), '\n');
            && |lines| == |entries| + 1 && lines[|entries|] == ""
            && ReadLines(lines[..|entries|]) == Some(entries)
  {
    if entries != [] {
      var first, rest := Line(entries[0]), Printed(entries[1..]);
      PrintedLines(entries[1..]);
      LineHasNoNewline(entries[0]);
      ReadPrintedLine(entries[0]);
      SplitConcat(first, rest, '\n');
      SplitNone(first, '\n');
      var lines := Split(Printed(entries), '\n');
      assert lines == [first] + Split(rest, '\n');
      assert lines[..|entries|] == [first] + Split(rest, '\n')[..|entries| - 1];
      assert ([first] + Split(rest, '\n')[..|entries| - 1])[1..] == Split(rest, '\n')[..|entries| - 1];
      assert [entries[0]] + entries[1..] == entries;
    }
  }

  lemma ReadLineOneLined(line: string)
    requires '\n' !in line && ReadLine(line).Some?
    ensures '\n' !in ReadLine(line).value.command
  {
    var tail := line[2..];
    CutShape(tail, ':');
    assert line == line[..2] + tail;
  }

  lemma {:induction false} ReadLinesOneLined(lines: seq<string>)
    requires forall line | line in lines :: '\n' !in line
    requires ReadLines(lines).Some?
    ensures OneLined(ReadLines(lines).value)
  {
    if lines != [] {
      ReadLineOneLined(lines[0]);
      ReadLinesOneLined(lines[1..]);
      var entries := ReadLines(lines[1..]).value;
      assert ReadLines(lines).value == [ReadLine(lines[0]).value] + entries;
    }
  }

  /** `OK` stands for no commands, and for nothing else. */
  lemma OkMeansEmpty(entries: seq<CommandEntry>)
    ensures Response(entries) == OK <==> entries == []
  {
    if entries != [] {
      assert Response(entries)[0] == 'C';
    }
  }

  lemma ResponseReads(entries: seq<CommandEntry>)
    requires OneLined(entries)
    ensures Read(Response(entries)) == Some(entries)
  {
    OkMeansEmpty(entries);
    if entries != [] {
      PrintedLines(entries);
      var lines := Split(Printed(entries), '\n');
      assert |lines| - 1 == |entries| > 0;
      assert ReadLines(lines[..|lines| - 1]) == Some(entries);
    }
  }

  lemma ReadIsOneLined(response: string)
    requires Read(response).Some?
    ensures OneLined(Read(response).value)
  {
    if response != OK {
      var lines := Split(response, '\n');
      SplitParts(response, '\n');
      ReadLinesOneLined(lines[..|lines| - 1]);
    }
  }

  /** A response is read back to the very commands it was printed from, in order,
      exactly when no command holds a newline. */
  lemma ResponseRoundTrip(entries: seq<CommandEntry>)
    ensures Read(Response(entries)) == Some(entries) <==> OneLined(entries)
  {
    if OneLined(entries) {
      ResponseReads(entries);
    } else if Read(Response(entries)) == Some(entries) {
      ReadIsOneLined(Response(entries));
    }
  }

  /** The printing loop. */
  method Write(commands: seq<CommandEntry>) returns (written: string)
    ensures written == Response(commands)
  {
    if |commands| == 0 {
      return OK;
    }
    written := "";
    for i := 0 to |commands|
      invariant written + Printed(commands[i..]) == Printed(commands)
    {
      OneMoreLine(commands, i, written);
      written := written + (Line(commands[i]) + ['\n']);
    }
  }

  lemma OneMoreLine(commands: seq<CommandEntry>, i: nat, written: string)
    requires i < |commands|
    ensures written + Printed(commands[i..]) ==
            (written + (Line(commands[i]) + ['\n'])) + Printed(commands[i + 1..])
  {
    assert commands[i..][1..] == commands[i + 1..];
  }
}
