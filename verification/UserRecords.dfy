/** USERINFO bodies: the user parser of parser.go and the user-add printer of
    command.go, which undo each other. */
module UserRecords {
  import opened Wrappers
  import opened Text
  import opened Lines
  import opened Decimal
  import opened Types
  import opened KeyValues

  function UserPairs(parts: seq<string>): (pairs: Pairs)
    ensures |pairs| == |parts|
  {
    seq(|parts|, i requires 0 <= i < |parts| => PairOf(parts[i]))
  }

  function Fields(line: string): map<string, string> {
    Written(UserPairs(Split(line, '\t')))
  }

  /** A missing key of a Go map reads as the empty string. */
  function Field(fields: map<string, string>, key: string): string {
    if key in fields then fields[key] else ""
  }

  /** The user of a line, or nothing if the line has no PIN. */
  function ParseUser(line: string): Option<UserRecord> {
    var fields := Fields(line);
    if Field(fields, "PIN") == "" then None
    else Some(UserRecord(Field(fields, "PIN"), Field(fields, "Name"), AtoiValue(Field(fields, "Privilege")),
                         Field(fields, "Card"), Field(fields, "Password")))
  }

  function Users(lines: seq<string>): seq<UserRecord> {
    if lines == [] then []
    else
      var n := |lines| - 1;
      match ParseUser(lines[n])
      case None => Users(lines[..n])
      case Some(user) => Users(lines[..n]) + [user]
  }

  lemma OneMoreLine(raw: seq<string>, i: nat)
    requires i < |raw|
    ensures var line := Stripped(raw[i]);
            var before := NonEmpty(raw[..i]);
            && NonEmpty(raw[..i + 1]) == (if line == "" then before else before + [line])
            && Users(NonEmpty(raw[..i + 1])) ==
               if line == "" || ParseUser(line).None? then Users(before)
               else Users(before) + [ParseUser(line).value]
  {
    var line, before := Stripped(raw[i]), NonEmpty(raw[..i]);
    assert raw[..i + 1] == raw[..i] + [raw[i]];
    NonEmptyLast(raw[..i], raw[i]);
    assert (before + [line])[..|before|] == before;
  }

  /** The parser; every non-empty line is a user or counted as skipped. */
  method ParseUserRecords(data: string) returns (records: seq<UserRecord>, skipped: nat)
    ensures records == Users(BodyLines(data))
    ensures |records| + skipped == |BodyLines(data)|
  {
    records, skipped := [], 0;
    var raw := Split(TrimSpace(data), '\n');
    for i := 0 to |raw|
      invariant records == Users(NonEmpty(raw[..i]))
      invariant |records| + skipped == |NonEmpty(raw[..i])|
    {
      var line := TrimRight(raw[i], CARRIAGE_RETURN);
      OneMoreLine(raw, i);
      if line == "" {
        continue;
      }
      var fields := ReadFields(line);
      var pin := Field(fields, "PIN");
      if pin == "" {
        skipped := skipped + 1;
        continue;
      }
      var privilege := AtoiValue(Field(fields, "Privilege"));
      records := records + [UserRecord(pin, Field(fields, "Name"), privilege, Field(fields, "Card"),
                                       Field(fields, "Password"))];
    }
    assert raw[..|raw|] == raw;
  }

  /** The inner loop of the parser. */
  method ReadFields(line: string) returns (fields: map<string, string>)
    ensures fields == Fields(line)
  {
    fields := map[];
    var parts := Split(line, '\t');
    ghost var pairs := UserPairs(parts);
    for i := 0 to |parts|
      invariant fields == Written(pairs[..i])
    {
      OneMorePair(pairs, i);
      var pair := Cut(parts[i], '=');
      if pair.Some? {
        var (key, value) := pair.value;
        fields := fields[TrimSpace(key) := TrimSpace(value)];
      }
    }
    assert pairs[..|parts|] == pairs;
  }

  // --------------------------------------------------------------- the printer

  /** The fields of a user-add command, as they go on the wire after its prefix. */
  function UserText(pin: string, name: string, privilege: int, card: string): string {
    Pair("PIN", pin) + ['\t'] + (Pair("Name", name) + ['\t'] +
      (Pair("Privilege", FormatInt(privilege)) + ['\t'] + Pair("Card", card)))
  }

  function UserAddCommand(pin: string, name: string, privilege: int, card: string): string {
    "DATA UPDATE USERINFO " + UserText(pin, name, privilege, card)
  }

  lemma FieldText(key: string, value: string, rest: string)
    ensures Pair(key, value) + ['\t'] + rest == (key + "=") + (value + (['\t'] + rest))
  {
  }

  lemma TabText(key: string, rest: string)
    ensures ['\t'] + ((key + "=") + rest) == (['\t'] + key + "=") + rest
  {
  }

  /** The whole text of a user-add command. */
  lemma UserAddText(pin: string, name: string, privilege: int, card: string)
    ensures UserAddCommand(pin, name, privilege, card) ==
            "DATA UPDATE USERINFO PIN=" + (pin + ("\tName=" + (name + ("\tPrivilege="
              + (FormatInt(privilege) + ("\tCard=" + card))))))
  {
    var number := FormatInt(privilege);
    var last := "\tCard=" + card;
    assert ['\t'] + Pair("Card", card) == last;
    FieldText("Privilege", number, Pair("Card", card));
    TabText("Privilege", number + last);
    assert ['\t'] + "Privilege" + "=" == "\tPrivilege=";
    var third := "\tPrivilege=" + (number + last);
    FieldText("Name", name, Pair("Privilege", number) + ['\t'] + Pair("Card", card));
    TabText("Name", name + third);
    assert ['\t'] + "Name" + "=" == "\tName=";
    var second := "\tName=" + (name + third);
    UserTextFrom(pin, name, privilege, card, second);
  }

  lemma PrefixText(a: string, b: string, c: string)
    ensures a + (b + c) == (a + b) + c
  {
  }

  lemma UserTextFrom(pin: string, name: string, privilege: int, card: string, second: string)
    requires second == ['\t'] + (Pair("Name", name) + ['\t'] +
                         (Pair("Privilege", FormatInt(privilege)) + ['\t'] + Pair("Card", card)))
    ensures UserAddCommand(pin, name, privilege, card) == "DATA UPDATE USERINFO PIN=" + (pin + second)
  {
    var rest := Pair("Name", name) + ['\t'] + (Pair("Privilege", FormatInt(privilege)) + ['\t'] + Pair("Card", card));
    FieldText("PIN", pin, rest);
    assert "PIN" + "=" == "PIN=";
    assert UserText(pin, name, privilege, card) == "PIN=" + (pin + second);
    PrefixText("DATA UPDATE USERINFO ", "PIN=", pin + second);
    assert "DATA UPDATE USERINFO " + "PIN=" == "DATA UPDATE USERINFO PIN=";
  }

  /** A field value that survives: no tab and no blank at its ends. */
  predicate Intact(value: string) {
    '\t' !in value && Trimmed(value)
  }

  lemma UserTextSplit(pin: string, name: string, privilege: int, card: string)
    requires Intact(pin) && Intact(name) && Intact(card)
    ensures Split(UserText(pin, name, privilege, card), '\t') ==
            [Pair("PIN", pin), Pair("Name", name), Pair("Privilege", FormatInt(privilege)), Pair("Card", card)]
  {
    FormatIntChars(privilege);
    var a, b, c, d := Pair("PIN", pin), Pair("Name", name), Pair("Privilege", FormatInt(privilege)), Pair("Card", card);
    SplitNone(a, '\t');
    SplitNone(b, '\t');
    SplitNone(c, '\t');
    SplitNone(d, '\t');
    SplitConcat(c, d, '\t');
    SplitConcat(b, c + ['\t'] + d, '\t');
    SplitConcat(a, b + ['\t'] + (c + ['\t'] + d), '\t');
  }

  lemma UserTextFields(pin: string, name: string, privilege: int, card: string)
    requires Intact(pin) && Intact(name) && Intact(card)
    ensures Fields(UserText(pin, name, privilege, card)) ==
            map["PIN" := pin, "Name" := name, "Privilege" := FormatInt(privilege), "Card" := card]
  {
    UserTextSplit(pin, name, privilege, card);
    FormatIntChars(privilege);
    KeptPair("PIN", pin);
    KeptPair("Name", name);
    KeptPair("Privilege", FormatInt(privilege));
    KeptPair("Card", card);
    var a, b := Some(("PIN", pin)), Some(("Name", name));
    var c, d := Some(("Privilege", FormatInt(privilege))), Some(("Card", card));
    assert UserPairs(Split(UserText(pin, name, privilege, card), '\t')) == [a, b, c, d];
    FourWritten(a, b, c, d);
  }

  lemma KeptPair(key: string, value: string)
    requires key != "" && '=' !in key && Trimmed(key) && Trimmed(value)
    ensures PairOf(Pair(key, value)) == Some((key, value))
  {
    PairShape(key, value);
  }

  lemma FourWritten(a: Option<(string, string)>, b: Option<(string, string)>, c: Option<(string, string)>,
                    d: Option<(string, string)>)
    requires a.Some? && b.Some? && c.Some? && d.Some?
    ensures Written([a, b, c, d]) ==
            map[][a.value.0 := a.value.1][b.value.0 := b.value.1][c.value.0 := c.value.1][d.value.0 := d.value.1]
  {
    WrittenSnoc([], a);
    WrittenSnoc([a], b);
    WrittenSnoc([a, b], c);
    WrittenSnoc([a, b, c], d);
    assert [] + [a] == [a] && [a] + [b] == [a, b] && [a, b] + [c] == [a, b, c];
    assert [a, b, c] + [d] == [a, b, c, d];
  }

  /** Joining keeps the two ends and adds no line break. */
  lemma Joined(a: string, b: string)
    requires a != "" && b != "" && Trimmed(a) && Trimmed(b) && NoLineBreak(a) && NoLineBreak(b)
    ensures var s := a + ['\t'] + b; s != "" && Trimmed(s) && NoLineBreak(s)
  {
    var s := a + ['\t'] + b;
    assert s[0] == a[0] && s[|s| - 1] == b[|b| - 1];
  }

  lemma PairOnLine(key: string, value: string)
    requires key != "" && '=' !in key && Trimmed(key) && NoLineBreak(key) && Intact(value) && NoLineBreak(value)
    ensures Pair(key, value) != "" && Trimmed(Pair(key, value)) && NoLineBreak(Pair(key, value))
  {
    PairShape(key, value);
  }

  lemma {:induction false} UserTextShape(pin: string, name: string, privilege: int, card: string)
    requires Intact(pin) && Intact(name) && Intact(card)
    requires NoLineBreak(pin) && NoLineBreak(name) && NoLineBreak(card)
    ensures var text := UserText(pin, name, privilege, card); text != "" && Trimmed(text) && NoLineBreak(text)
  {
    FormatIntChars(privilege);
    PairOnLine("PIN", pin);
    PairOnLine("Name", name);
    PairOnLine("Privilege", FormatInt(privilege));
    PairOnLine("Card", card);
    var c, d := Pair("Privilege", FormatInt(privilege)), Pair("Card", card);
    Joined(c, d);
    Joined(Pair("Name", name), c + ['\t'] + d);
    Joined(Pair("PIN", pin), Pair("Name", name) + ['\t'] + (c + ['\t'] + d));
  }

  lemma OneLine(text: string)
    requires text != "" && Trimmed(text) && NoLineBreak(text)
    ensures BodyLines(text) == [text]
  {
    TrimSpaceIdentity(text);
    SplitNone(text, '\n');
    assert [] + [text] == [text];
    NonEmptyLast([], text);
  }

  lemma {:induction false} WrittenIntact(pairs: Pairs)
    requires forall i | 0 <= i < |pairs| && pairs[i].Some? :: Intact(pairs[i].value.1)
    ensures forall key | key in Written(pairs) :: Intact(Written(pairs)[key])
  {
    if pairs != [] {
      WrittenIntact(pairs[..|pairs| - 1]);
    }
  }

  /** Whatever the line, its field values are intact. */
  lemma FieldsIntact(line: string)
    ensures forall key | key in Fields(line) :: Intact(Fields(line)[key])
  {
    var parts := Split(line, '\t');
    SplitParts(line, '\t');
    forall i | 0 <= i < |parts| && PairOf(parts[i]).Some?
      ensures Intact(PairOf(parts[i]).value.1)
    {
      CutTrimmed(parts[i], '=');
    }
    WrittenIntact(UserPairs(parts));
  }

  /** Whatever the body, a parsed user has a PIN and intact fields. */
  lemma {:induction false} UsersIntact(lines: seq<string>)
    ensures forall user | user in Users(lines) ::
              && user.pin != "" && Intact(user.pin) && Intact(user.name) && Intact(user.card)
              && Intact(user.password)
  {
    if lines != [] {
      UsersIntact(lines[..|lines| - 1]);
      FieldsIntact(lines[|lines| - 1]);
    }
  }

  lemma {:induction false} IntactUserParses(pin: string, name: string, privilege: int, card: string)
    requires NoLineBreak(pin) && NoLineBreak(name) && NoLineBreak(card) && InInt64(privilege)
    requires pin != "" && Intact(pin) && Intact(name) && Intact(card)
    ensures Users(BodyLines(UserText(pin, name, privilege, card))) == [UserRecord(pin, name, privilege, card, "")]
  {
    var text, user := UserText(pin, name, privilege, card), UserRecord(pin, name, privilege, card, "");
    UserTextShape(pin, name, privilege, card);
    OneLine(text);
    UserTextFields(pin, name, privilege, card);
    AtoiRoundTrip(privilege);
    UserWithoutPassword(text, user);
    OneUser(text);
  }

  lemma UserWithoutPassword(line: string, user: UserRecord)
    requires user.pin != "" && user.password == "" && AtoiValue(FormatInt(user.privilege)) == user.privilege
    requires Fields(line) == map["PIN" := user.pin, "Name" := user.name, "Privilege" := FormatInt(user.privilege),
                                 "Card" := user.card]
    ensures ParseUser(line) == Some(user)
  {
  }

  lemma OneUser(line: string)
    requires ParseUser(line).Some?
    ensures Users([line]) == [ParseUser(line).value]
  {
    assert [line][..0] == [];
  }

  /** A user-add command that passes validation is parsed back to the same user exactly
      when the pin is not empty and no field holds a tab or a blank at its ends. */
  lemma {:induction false} UserRoundTrip(pin: string, name: string, privilege: int, card: string)
    requires NoLineBreak(pin) && NoLineBreak(name) && NoLineBreak(card) && InInt64(privilege)
    ensures Users(BodyLines(UserText(pin, name, privilege, card))) == [UserRecord(pin, name, privilege, card, "")]
            <==> pin != "" && Intact(pin) && Intact(name) && Intact(card)
  {
    var users := Users(BodyLines(UserText(pin, name, privilege, card)));
    UsersIntact(BodyLines(UserText(pin, name, privilege, card)));
    if users == [UserRecord(pin, name, privilege, card, "")] {
      assert users[0] in users;
    }
    if pin != "" && Intact(pin) && Intact(name) && Intact(card) {
      IntactUserParses(pin, name, privilege, card);
    }
  }

  /** The pairs of a line, in any order, are read back to the map that writes them. */
  lemma FieldsRoundTrip(pairs: seq<(string, string)>)
    requires pairs != [] && forall i | 0 <= i < |pairs| :: Carried(pairs[i], '\t')
    ensures Fields(Join(PairTexts(pairs, seq(|pairs|, _ => false)), '\t')) == Written(AllRead(pairs))
  {
    var texts := PairTexts(pairs, seq(|pairs|, _ => false));
    forall i | 0 <= i < |pairs|
      ensures '\t' !in texts[i] && PairOf(texts[i]) == Some(pairs[i])
    {
      assert texts[i] == pairs[i].0 + ['='] + pairs[i].1;
      CutFirst(pairs[i].0, pairs[i].1, '=');
      TrimSpaceIdentity(pairs[i].0);
      TrimSpaceIdentity(pairs[i].1);
    }
    SplitJoin(texts, '\t');
    assert UserPairs(texts) == AllRead(pairs);
  }

  /** The pairs of a user record as a device pushes it. */
  function UserFields(user: UserRecord): seq<(string, string)> {
    [("PIN", user.pin), ("Name", user.name), ("Privilege", FormatInt(user.privilege)), ("Card", user.card),
     ("Password", user.password)]
  }

  lemma WrittenFive(a: (string, string), b: (string, string), c: (string, string), d: (string, string),
                    e: (string, string))
    ensures Written(AllRead([a, b, c, d, e])) == map[][a.0 := a.1][b.0 := b.1][c.0 := c.1][d.0 := d.1][e.0 := e.1]
  {
    var read := AllRead([a, b, c, d, e]);
    FourWritten(Some(a), Some(b), Some(c), Some(d));
    WrittenSnoc([Some(a), Some(b), Some(c), Some(d)], Some(e));
    assert read == [Some(a), Some(b), Some(c), Some(d)] + [Some(e)];
  }

  lemma UserFromFields(line: string, user: UserRecord)
    requires user.pin != "" && AtoiValue(FormatInt(user.privilege)) == user.privilege
    requires Fields(line) == map["PIN" := user.pin, "Name" := user.name, "Privilege" := FormatInt(user.privilege),
                                 "Card" := user.card, "Password" := user.password]
    ensures ParseUser(line) == Some(user)
  {
  }

  lemma FiveCarried(user: UserRecord)
    requires Intact(user.pin) && Intact(user.name) && Intact(user.card) && Intact(user.password)
    ensures forall i | 0 <= i < 5 :: Carried(UserFields(user)[i], '\t')
  {
    FormatIntChars(user.privilege);
  }

  /** A pushed record with a PIN is read back exactly, each field from its own key. */
  lemma PushedUserRoundTrip(user: UserRecord)
    requires user.pin != "" && InInt64(user.privilege)
    requires Intact(user.pin) && Intact(user.name) && Intact(user.card) && Intact(user.password)
    ensures ParseUser(Join(PairTexts(UserFields(user), seq(5, _ => false)), '\t')) == Some(user)
  {
    var pairs := UserFields(user);
    FiveCarried(user);
    AtoiRoundTrip(user.privilege);
    FieldsRoundTrip(pairs);
    WrittenFive(pairs[0], pairs[1], pairs[2], pairs[3], pairs[4]);
    UserFromFields(Join(PairTexts(pairs, seq(5, _ => false)), '\t'), user);
  }

  // ------------------------------------------------------ which lines, in which order

  /** User k comes from line from[k], lines are taken in order, and every other line is
      skipped. */
  ghost predicate Origin(from: seq<nat>, users: seq<UserRecord>, lines: seq<string>) {
    && |from| == |users|
    && (forall k | 0 <= k < |from| :: from[k] < |lines| && ParseUser(lines[from[k]]) == Some(users[k]))
    && (forall j, k | 0 <= j < k < |from| :: from[j] < from[k])
    && (forall i | 0 <= i < |lines| && i !in from :: ParseUser(lines[i]).None?)
  }

  lemma OriginSnoc(from: seq<nat>, users: seq<UserRecord>, lines: seq<string>, line: string)
    requires Origin(from, users, lines)
    ensures ParseUser(line).None? ==> Origin(from, users, lines + [line])
    ensures forall user | ParseUser(line) == Some(user) :: Origin(from + [|lines|], users + [user], lines + [line])
  {
    assert forall i | i in from :: i in from + [|lines|];
  }

  /** Each user comes from a line of its own, in line order, and every other line is skipped. */
  lemma {:induction false} UsersOrigin(lines: seq<string>) returns (from: seq<nat>)
    ensures Origin(from, Users(lines), lines)
  {
    from := [];
    if lines != [] {
      var n := |lines| - 1;
      from := UsersOrigin(lines[..n]);
      OriginSnoc(from, Users(lines[..n]), lines[..n], lines[n]);
      assert lines == lines[..n] + [lines[n]];
      if ParseUser(lines[n]).Some? {
        from := from + [n];
      }
    }
  }

  /** The last pair of a line with the key PIN. */
  ghost predicate LastPin(pairs: Pairs, i: nat) {
    && i < |pairs| && pairs[i].Some? && pairs[i].value.0 == "PIN"
    && forall j | i < j < |pairs| && pairs[j].Some? :: pairs[j].value.0 != "PIN"
  }

  lemma LastPinDecides(pairs: Pairs, i: nat)
    requires LastPin(pairs, i)
    ensures "PIN" in Written(pairs) && Written(pairs)["PIN"] == pairs[i].value.1
  {
    WrittenMeaning(pairs, "PIN");
    var k: nat :| k < |pairs| && pairs[k] == Some(("PIN", Written(pairs)["PIN"]))
      && forall j | k < j < |pairs| && pairs[j].Some? :: pairs[j].value.0 != "PIN";
    assert k == i;
  }

  lemma HasLastPin(pairs: Pairs)
    ensures "PIN" in Written(pairs) ==> exists i: nat :: LastPin(pairs, i)
  {
    WrittenMeaning(pairs, "PIN");
    if "PIN" in Written(pairs) {
      var i: nat :| i < |pairs| && pairs[i] == Some(("PIN", Written(pairs)["PIN"]))
        && forall j | i < j < |pairs| && pairs[j].Some? :: pairs[j].value.0 != "PIN";
      assert LastPin(pairs, i);
    }
  }

  /** A line is skipped exactly when it has no PIN, or its last PIN is empty. */
  lemma SkippedExactly(line: string, pairs: Pairs)
    requires pairs == UserPairs(Split(line, '\t'))
    ensures ParseUser(line).None? <==> forall i: nat | LastPin(pairs, i) :: pairs[i].value.1 == ""
  {
    HasLastPin(pairs);
    forall i: nat | LastPin(pairs, i)
      ensures "PIN" in Written(pairs) && Written(pairs)["PIN"] == pairs[i].value.1
    {
      LastPinDecides(pairs, i);
    }
  }
}
