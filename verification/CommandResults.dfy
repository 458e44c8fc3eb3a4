/** Confirmation bodies: the streaming parser of parser.go, what it computes, and the
    two body formats that devices send. */
module CommandResults {
  import opened Wrappers
  import opened Text
  import opened Decimal
  import opened Types

  // ------------------------------------------------------------------ tokens

  /** What one delimited part of a body means. */
  datatype Token = Id(id: int) | Return(code: int) | Cmd(command: string) | Noise

  function Classify(part: string): Token {
    match Cut(TrimSpace(part), '=')
    case None => Noise
    case Some((key, value)) =>
      var k, v := ToUpper(TrimSpace(key)), TrimSpace(value);
      if k == "ID" then (match ParseInt64(v) case Some(id) => Id(id) case None => Noise)
      else if k == "RETURN" then (match ParseInt64(v) case Some(code) => Return(code) case None => Noise)
      else if k == "CMD" then Cmd(v)
      else Noise
  }

  function ClassifyAll(parts: seq<string>): (tokens: seq<Token>)
    ensures |tokens| == |parts|
    ensures forall i | 0 <= i < |parts| :: tokens[i] == Classify(parts[i])
  {
    seq(|parts|, i requires 0 <= i < |parts| => Classify(parts[i]))
  }

  /** Both a newline and an ampersand end a part. */
  function Parts(body: string): seq<string> {
    Split(Replace(body, '\n', '&'), '&')
  }

  function Tokens(body: string): seq<Token> {
    ClassifyAll(Parts(body))
  }

  // ----------------------------------------------- the segment specification

  /** The positions of the parseable ids, in order. */
  function IdPositions(tokens: seq<Token>): (ps: seq<nat>)
    ensures forall k | 0 <= k < |ps| :: ps[k] < |tokens| && tokens[ps[k]].Id?
  {
    if tokens == [] then []
    else
      var n := |tokens| - 1;
      var ps := IdPositions(tokens[..n]);
      if tokens[n].Id? then ps + [n] else ps
  }

  /** The last return code of a segment, 0 when it has none. */
  function LastReturn(tokens: seq<Token>): int {
    if tokens == [] then 0
    else
      var n := |tokens| - 1;
      if tokens[n].Return? then tokens[n].code else LastReturn(tokens[..n])
  }

  /** The last command of a segment, empty when it has none. */
  function LastCmd(tokens: seq<Token>): string {
    if tokens == [] then ""
    else
      var n := |tokens| - 1;
      if tokens[n].Cmd? then tokens[n].command else LastCmd(tokens[..n])
  }

  /** The end of the segment that contains p: the first id after p, or the end. */
  function SegmentEnd(tokens: seq<Token>, p: nat): (end: nat)
    requires p < |tokens|
    ensures p < end <= |tokens|
    decreases |tokens| - p
  {
    if p + 1 == |tokens| || tokens[p + 1].Id? then p + 1 else SegmentEnd(tokens, p + 1)
  }

  /** Segment k runs from the k-th id to the next one; the first reaches back to the start. */
  function Segment(tokens: seq<Token>, ps: seq<nat>, k: nat): seq<Token>
    requires k < |ps| && ps[k] < |tokens|
  {
    tokens[(if k == 0 then 0 else ps[k])..SegmentEnd(tokens, ps[k])]
  }

  function ResultOf(tokens: seq<Token>, sn: string, k: nat): CommandResult
    requires k < |IdPositions(tokens)|
  {
    var ps := IdPositions(tokens);
    var segment := Segment(tokens, ps, k);
    CommandResult(sn, tokens[ps[k]].id, LastReturn(segment), LastCmd(segment), "")
  }

  /** One result per segment. */
  function Results(tokens: seq<Token>, sn: string): (rs: seq<CommandResult>)
    ensures |rs| == |IdPositions(tokens)|
  {
    seq(|IdPositions(tokens)|, k requires 0 <= k < |IdPositions(tokens)| => ResultOf(tokens, sn, k))
  }

  ghost predicate HasId(tokens: seq<Token>) {
    exists i :: 0 <= i < |tokens| && tokens[i].Id?
  }

  // ------------------------------------------------- the specification, read back

  /** IdPositions lists every id once, in order. */
  lemma {:induction false} IdPositionsMeaning(tokens: seq<Token>)
    ensures forall i | 0 <= i < |tokens| && tokens[i].Id? :: i in IdPositions(tokens)
    ensures forall j, k | 0 <= j < k < |IdPositions(tokens)| :: IdPositions(tokens)[j] < IdPositions(tokens)[k]
  {
    if tokens != [] {
      var n := |tokens| - 1;
      IdPositionsMeaning(tokens[..n]);
      forall i | 0 <= i < n && tokens[i].Id?
        ensures i in IdPositions(tokens)
      {
        assert tokens[..n][i].Id?;
      }
    }
  }

  /** A segment ends at the next id. */
  lemma {:induction false} SegmentEndMeaning(tokens: seq<Token>, p: nat)
    requires p < |tokens|
    ensures forall i | p < i < SegmentEnd(tokens, p) :: !tokens[i].Id?
    ensures SegmentEnd(tokens, p) < |tokens| ==> tokens[SegmentEnd(tokens, p)].Id?
    decreases |tokens| - p
  {
    if p + 1 < |tokens| && !tokens[p + 1].Id? {
      SegmentEndMeaning(tokens, p + 1);
    }
  }

  /** LastReturn picks the last return code, wherever it stands. */
  lemma {:induction false} LastReturnMeaning(tokens: seq<Token>, i: nat)
    requires i < |tokens| && tokens[i].Return?
    requires forall j | i < j < |tokens| :: !tokens[j].Return?
    ensures LastReturn(tokens) == tokens[i].code
  {
    var n := |tokens| - 1;
    if i < n {
      LastReturnMeaning(tokens[..n], i);
    }
  }

  lemma {:induction false} LastCmdMeaning(tokens: seq<Token>, i: nat)
    requires i < |tokens| && tokens[i].Cmd?
    requires forall j | i < j < |tokens| :: !tokens[j].Cmd?
    ensures LastCmd(tokens) == tokens[i].command
  {
    var n := |tokens| - 1;
    if i < n {
      LastCmdMeaning(tokens[..n], i);
    }
  }

  lemma {:induction false} QuietSegment(tokens: seq<Token>)
    requires forall i | 0 <= i < |tokens| :: !tokens[i].Return? && !tokens[i].Cmd?
    ensures LastReturn(tokens) == 0 && LastCmd(tokens) == ""
  {
    if tokens != [] {
      QuietSegment(tokens[..|tokens| - 1]);
    }
  }

  // -------------------------------------------------------- one token at a time

  /** The last result when one more token arrives, if that token is no id. */
  function Extend(r: CommandResult, t: Token): CommandResult {
    match t
    case Return(code) => r.(returnCode := code)
    case Cmd(command) => r.(command := command)
    case _ => r
  }

  lemma SliceOfFront(a: seq<Token>, b: seq<Token>, lo: nat, hi: nat)
    requires lo <= hi <= |a|
    ensures (a + b)[lo..hi] == a[lo..hi]
  {
  }

  lemma IdPositionsSnoc(tokens: seq<Token>, t: Token)
    ensures IdPositions(tokens + [t]) ==
            if t.Id? then IdPositions(tokens) + [|tokens|] else IdPositions(tokens)
  {
    var all := tokens + [t];
    assert all[..|all| - 1] == tokens && all[|all| - 1] == t;
  }

  lemma LastSnoc(tokens: seq<Token>, t: Token)
    ensures LastReturn(tokens + [t]) == if t.Return? then t.code else LastReturn(tokens)
    ensures LastCmd(tokens + [t]) == if t.Cmd? then t.command else LastCmd(tokens)
  {
    assert (tokens + [t])[..|tokens|] == tokens;
  }

  lemma {:induction false} SegmentEndSnoc(tokens: seq<Token>, t: Token, p: nat)
    requires p < |tokens|
    ensures SegmentEnd(tokens + [t], p) ==
            if SegmentEnd(tokens, p) < |tokens| || t.Id? then SegmentEnd(tokens, p) else |tokens| + 1
    decreases |tokens| - p
  {
    if p + 1 < |tokens| && !tokens[p + 1].Id? {
      SegmentEndSnoc(tokens, t, p + 1);
    }
  }

  /** Only the last segment reaches the end. */
  lemma ClosedSegment(tokens: seq<Token>, k: nat)
    requires k + 1 < |IdPositions(tokens)|
    ensures SegmentEnd(tokens, IdPositions(tokens)[k]) < |tokens|
  {
    var ps := IdPositions(tokens);
    IdPositionsMeaning(tokens);
    SegmentEndMeaning(tokens, ps[k]);
    assert ps[k] < ps[k + 1] && tokens[ps[k + 1]].Id?;
  }

  lemma {:induction false} LastSegment(tokens: seq<Token>)
    requires IdPositions(tokens) != []
    ensures var ps := IdPositions(tokens); SegmentEnd(tokens, ps[|ps| - 1]) == |tokens|
  {
    var n := |tokens| - 1;
    var front, ps := tokens[..n], IdPositions(tokens);
    assert tokens == front + [tokens[n]];
    if !tokens[n].Id? {
      LastSegment(front);
      SegmentEndSnoc(front, tokens[n], ps[|ps| - 1]);
    }
  }

  /** A result whose segment is closed does not change any more. */
  lemma ClosedResult(tokens: seq<Token>, t: Token, sn: string, k: nat)
    requires k < |IdPositions(tokens)|
    requires t.Id? || k + 1 < |IdPositions(tokens)|
    ensures k < |IdPositions(tokens + [t])|
    ensures ResultOf(tokens + [t], sn, k) == ResultOf(tokens, sn, k)
  {
    var ps := IdPositions(tokens);
    IdPositionsSnoc(tokens, t);
    SegmentEndSnoc(tokens, t, ps[k]);
    if k + 1 < |ps| {
      ClosedSegment(tokens, k);
    }
    assert IdPositions(tokens + [t])[k] == ps[k];
    SliceOfFront(tokens, [t], if k == 0 then 0 else ps[k], SegmentEnd(tokens, ps[k]));
  }

  lemma OpenedResult(tokens: seq<Token>, t: Token, sn: string)
    requires t.Id?
    ensures var n := |IdPositions(tokens)|;
            && |IdPositions(tokens + [t])| == n + 1
            && ResultOf(tokens + [t], sn, n) ==
               if n == 0 then CommandResult(sn, t.id, LastReturn(tokens), LastCmd(tokens), "")
               else CommandResult(sn, t.id, 0, "", "")
  {
    var all, n := tokens + [t], |IdPositions(tokens)|;
    IdPositionsSnoc(tokens, t);
    var segment := Segment(all, IdPositions(all), n);
    if n == 0 {
      assert segment == all;
      LastSnoc(tokens, t);
    } else {
      assert segment == [t];
      QuietSegment(segment);
    }
  }

  lemma ExtendedResult(tokens: seq<Token>, t: Token, sn: string)
    requires !t.Id? && IdPositions(tokens) != []
    ensures var k := |IdPositions(tokens)| - 1;
            && |IdPositions(tokens + [t])| == k + 1
            && ResultOf(tokens + [t], sn, k) == Extend(ResultOf(tokens, sn, k), t)
  {
    var ps := IdPositions(tokens);
    var k := |ps| - 1;
    IdPositionsSnoc(tokens, t);
    LastSegment(tokens);
    SegmentEndSnoc(tokens, t, ps[k]);
    var lo := if k == 0 then 0 else ps[k];
    assert (tokens + [t])[lo..|tokens| + 1] == tokens[lo..] + [t];
    assert tokens[lo..|tokens|] == tokens[lo..];
    LastSnoc(tokens[lo..], t);
  }

  /** The results when one more token arrives, after tokens whose last return code and
      command are given. */
  function Grow(rs: seq<CommandResult>, t: Token, sn: string, code: int, command: string): seq<CommandResult> {
    if t.Id? then
      rs + [if |rs| == 0 then CommandResult(sn, t.id, code, command, "") else CommandResult(sn, t.id, 0, "", "")]
    else if |rs| == 0 then rs
    else rs[|rs| - 1 := Extend(rs[|rs| - 1], t)]
  }

  lemma LastUpdate(rs: seq<CommandResult>, rs': seq<CommandResult>, last: CommandResult)
    requires |rs'| == |rs| > 0
    requires forall k | 0 <= k < |rs| - 1 :: rs'[k] == rs[k]
    requires rs'[|rs| - 1] == last
    ensures rs' == rs[|rs| - 1 := last]
  {
  }

  lemma SameCount(tokens: seq<Token>, t: Token, sn: string)
    requires !t.Id?
    ensures |Results(tokens + [t], sn)| == |Results(tokens, sn)|
  {
    IdPositionsSnoc(tokens, t);
  }

  lemma OtherSnoc(tokens: seq<Token>, t: Token, sn: string)
    requires !t.Id? && |Results(tokens, sn)| > 0
    ensures var rs := Results(tokens, sn);
            Results(tokens + [t], sn) == rs[|rs| - 1 := Extend(rs[|rs| - 1], t)]
  {
    var rs, rs' := Results(tokens, sn), Results(tokens + [t], sn);
    SameCount(tokens, t, sn);
    forall k | 0 <= k < |rs| - 1
      ensures rs'[k] == rs[k]
    {
      ClosedResult(tokens, t, sn, k);
    }
    ExtendedResult(tokens, t, sn);
    LastUpdate(rs, rs', Extend(rs[|rs| - 1], t));
  }

  lemma IdSnoc(tokens: seq<Token>, t: Token, sn: string)
    requires t.Id?
    ensures Results(tokens + [t], sn) == Grow(Results(tokens, sn), t, sn, LastReturn(tokens), LastCmd(tokens))
  {
    var rs, rs' := Results(tokens, sn), Results(tokens + [t], sn);
    OpenedResult(tokens, t, sn);
    forall k | 0 <= k < |rs|
      ensures rs'[k] == rs[k]
    {
      ClosedResult(tokens, t, sn, k);
    }
    assert rs' == rs + [rs'[|rs|]];
  }

  /** How one more token changes the results. */
  lemma ResultsSnoc(tokens: seq<Token>, t: Token, sn: string)
    ensures Results(tokens + [t], sn) == Grow(Results(tokens, sn), t, sn, LastReturn(tokens), LastCmd(tokens))
  {
    if t.Id? {
      IdSnoc(tokens, t, sn);
    } else if |Results(tokens, sn)| > 0 {
      OtherSnoc(tokens, t, sn);
    } else {
      SameCount(tokens, t, sn);
    }
  }

  // --------------------------------------------------------------- the parser

  /** The parser's variables after the given tokens: the flushed results, and the current
      result, which is kept only when it has an id. */
  ghost predicate Accumulated(tokens: seq<Token>, sn: string, results: seq<CommandResult>,
                              current: CommandResult, hasID: bool)
  {
    if hasID then Results(tokens, sn) == results + [current]
    else && Results(tokens, sn) == results == []
         && current == CommandResult(sn, 0, LastReturn(tokens), LastCmd(tokens), "")
  }

  lemma AccumulateId(tokens: seq<Token>, id: int, sn: string, results: seq<CommandResult>,
                     current: CommandResult, hasID: bool)
    requires Accumulated(tokens, sn, results, current, hasID)
    ensures hasID ==> Accumulated(tokens + [Id(id)], sn, results + [current], CommandResult(sn, id, 0, "", ""), true)
    ensures !hasID ==> Accumulated(tokens + [Id(id)], sn, results, current.(id := id), true)
  {
    ResultsSnoc(tokens, Id(id), sn);
  }

  lemma AccumulateOther(tokens: seq<Token>, t: Token, sn: string, results: seq<CommandResult>,
                        current: CommandResult, hasID: bool)
    requires !t.Id? && Accumulated(tokens, sn, results, current, hasID)
    ensures Accumulated(tokens + [t], sn, results, Extend(current, t), hasID)
  {
    ResultsSnoc(tokens, t, sn);
    LastSnoc(tokens, t);
  }

  lemma OneMoreToken(tokens: seq<Token>, i: nat)
    requires i < |tokens|
    ensures tokens[..i + 1] == tokens[..i] + [tokens[i]]
  {
  }

  /** The parser: it accumulates pairs into the current result and flushes that result
      when the next id arrives. It computes the segment specification of the body. */
  method ParseCommandResults(body: string, sn: string) returns (results: seq<CommandResult>)
    ensures results == Results(Tokens(body), sn)
  {
    results := [];
    var current := CommandResult(sn, 0, 0, "", "");
    var hasID := false;
    var parts := Split(Replace(body, '\n', '&'), '&');
    ghost var tokens := Tokens(body);
    for i := 0 to |parts|
      invariant Accumulated(tokens[..i], sn, results, current, hasID)
    {
      OneMoreToken(tokens, i);
      var part := TrimSpace(parts[i]);
      if part == "" {
        AccumulateOther(tokens[..i], Noise, sn, results, current, hasID);
        continue;
      }
      var pair := Cut(part, '=');
      if pair.None? {
        AccumulateOther(tokens[..i], Noise, sn, results, current, hasID);
        continue;
      }
      var (key, value) := pair.value;
      var k := ToUpper(TrimSpace(key));
      if k == "ID" {
        var id := ParseInt64(TrimSpace(value));
        if id.None? {
          AccumulateOther(tokens[..i], Noise, sn, results, current, hasID);
          continue;
        }
        AccumulateId(tokens[..i], id.value, sn, results, current, hasID);
        if hasID {
          results := results + [current];
          current := CommandResult(sn, 0, 0, "", "");
        }
        current := current.(id := id.value);
        hasID := true;
      } else if k == "RETURN" {
        var code := ParseInt64(TrimSpace(value));
        AccumulateOther(tokens[..i], tokens[i], sn, results, current, hasID);
        if code.Some? {
          current := current.(returnCode := code.value);
        }
      } else if k == "CMD" {
        AccumulateOther(tokens[..i], Cmd(TrimSpace(value)), sn, results, current, hasID);
        current := current.(command := TrimSpace(value));
      } else {
        AccumulateOther(tokens[..i], Noise, sn, results, current, hasID);
      }
    }
    assert tokens[..|parts|] == tokens;
    if hasID {
      results := results + [current];
    }
  }

  // ------------------------------------------------------------- joining bodies

  /** No return code or command comes before the first id. */
  ghost predicate LeadsWithId(tokens: seq<Token>) {
    forall i | 0 <= i < |tokens| && (tokens[i].Return? || tokens[i].Cmd?) ::
      exists j :: 0 <= j < i && tokens[j].Id?
  }

  lemma LeadsWithIdPrefix(front: seq<Token>, t: Token)
    requires LeadsWithId(front + [t])
    ensures LeadsWithId(front)
  {
    var b := front + [t];
    forall i | 0 <= i < |front| && (front[i].Return? || front[i].Cmd?)
      ensures exists j :: 0 <= j < i && front[j].Id?
    {
      assert b[i].Return? || b[i].Cmd?;
      var j :| 0 <= j < i && b[j].Id?;
      assert front[j].Id?;
    }
  }

  lemma NextIsIdOrNoise(front: seq<Token>, t: Token)
    requires LeadsWithId(front + [t]) && IdPositions(front) == []
    ensures t.Id? || t.Noise?
  {
    var b := front + [t];
    assert b[|front|] == t;
    if t.Return? || t.Cmd? {
      var j :| 0 <= j < |front| && b[j].Id?;
      IdPositionsMeaning(front);
      assert false;
    }
  }

  lemma NoIdIsQuiet(tokens: seq<Token>)
    requires LeadsWithId(tokens) && IdPositions(tokens) == []
    ensures LastReturn(tokens) == 0 && LastCmd(tokens) == ""
  {
    forall i | 0 <= i < |tokens|
      ensures !tokens[i].Return? && !tokens[i].Cmd?
    {
      if tokens[i].Return? || tokens[i].Cmd? {
        var j :| 0 <= j < i && tokens[j].Id?;
        IdPositionsMeaning(tokens);
        assert false;
      }
    }
    QuietSegment(tokens);
  }

  lemma GrowConcat(rs: seq<CommandResult>, rf: seq<CommandResult>, t: Token, sn: string,
                   code: int, command: string, code': int, command': string)
    requires rs != []
    requires rf == [] ==> code' == 0 && command' == ""
    requires rf == [] ==> t.Id? || t.Noise?
    ensures Grow(rs + rf, t, sn, code, command) == rs + Grow(rf, t, sn, code', command')
  {
  }

  lemma {:induction false} ResultsConcat(a: seq<Token>, b: seq<Token>, sn: string)
    requires IdPositions(a) != [] && LeadsWithId(b)
    ensures Results(a + b, sn) == Results(a, sn) + Results(b, sn)
  {
    if b == [] {
      assert a + b == a;
    } else {
      var front, t := b[..|b| - 1], b[|b| - 1];
      assert b == front + [t];
      assert a + b == (a + front) + [t];
      LeadsWithIdPrefix(front, t);
      ResultsConcat(a, front, sn);
      ResultsSnoc(a + front, t, sn);
      ResultsSnoc(front, t, sn);
      if IdPositions(front) == [] {
        NoIdIsQuiet(front);
        NextIsIdOrNoise(front, t);
      }
      GrowConcat(Results(a, sn), Results(front, sn), t, sn, LastReturn(a + front), LastCmd(a + front),
                 LastReturn(front), LastCmd(front));
    }
  }

  lemma TokensConcat(a: string, b: string, c: char)
    requires c == '\n' || c == '&'
    ensures Tokens(a + [c] + b) == Tokens(a) + Tokens(b)
  {
    var ra, rb := Replace(a, '\n', '&'), Replace(b, '\n', '&');
    assert Replace(a + [c] + b, '\n', '&') == ra + ['&'] + rb;
    SplitConcat(ra, rb, '&');
  }

  /** Parsing distributes over joining two bodies with a newline (or an ampersand), when
      the first holds a parseable id and the second starts with one. */
  lemma ParseConcat(a: string, b: string, c: char, sn: string)
    requires c == '\n' || c == '&'
    requires HasId(Tokens(a)) && LeadsWithId(Tokens(b))
    ensures Results(Tokens(a + [c] + b), sn) == Results(Tokens(a), sn) + Results(Tokens(b), sn)
  {
    TokensConcat(a, b, c);
    var i :| 0 <= i < |Tokens(a)| && Tokens(a)[i].Id?;
    IdPositionsMeaning(Tokens(a));
    ResultsConcat(Tokens(a), Tokens(b), sn);
  }

  // ---------------------------------------------------------- what a part means

  /** The keys that the parser knows, in any letter case. */
  predicate IsIdKey(key: string) {
    |key| == 2 && key[0] in {'I', 'i'} && key[1] in {'D', 'd'}
  }

  predicate IsReturnKey(key: string) {
    && |key| == 6
    && key[0] in {'R', 'r'} && key[1] in {'E', 'e'} && key[2] in {'T', 't'}
    && key[3] in {'U', 'u'} && key[4] in {'R', 'r'} && key[5] in {'N', 'n'}
  }

  predicate IsCmdKey(key: string) {
    |key| == 3 && key[0] in {'C', 'c'} && key[1] in {'M', 'm'} && key[2] in {'D', 'd'}
  }

  lemma UpperIdKey(key: string)
    ensures ToUpper(key) == "ID" <==> IsIdKey(key)
  {
    var k := ToUpper(key);
    if |key| == 2 {
      assert k == [UpperChar(key[0]), UpperChar(key[1])];
    }
  }

  lemma UpperReturnKey(key: string)
    ensures ToUpper(key) == "RETURN" <==> IsReturnKey(key)
  {
    var k := ToUpper(key);
    if |key| == 6 {
      assert k == [UpperChar(key[0]), UpperChar(key[1]), UpperChar(key[2]), UpperChar(key[3]), UpperChar(key[4]),
                   UpperChar(key[5])];
    }
  }

  lemma UpperCmdKey(key: string)
    ensures ToUpper(key) == "CMD" <==> IsCmdKey(key)
  {
    var k := ToUpper(key);
    if |key| == 3 {
      assert k == [UpperChar(key[0]), UpperChar(key[1]), UpperChar(key[2])];
    }
  }

  /** A part that says nothing: it has no `=`, or a key the parser does not know, or an id
      or return code that is no 64-bit decimal. */
  ghost predicate Foreign(part: string) {
    '=' !in part ||
    exists left: string, right: string ::
      && part == left + ['='] + right && '=' !in left
      && var key := TrimSpace(left);
         && !IsCmdKey(key)
         && (IsIdKey(key) || IsReturnKey(key) ==> !IsInt64(TrimSpace(right)))
  }

  lemma ForeignIsNoise(part: string)
    requires Foreign(part)
    ensures Classify(part) == Noise
  {
    if '=' !in part {
      var l, r := TrimSpaceShape(part);
      CutShape(TrimSpace(part), '=');
    } else {
      var left: string, right: string :|
        && part == left + ['='] + right && '=' !in left
        && var key := TrimSpace(left);
           && !IsCmdKey(key)
           && (IsIdKey(key) || IsReturnKey(key) ==> !IsInt64(TrimSpace(right)));
      TrimmedCut(left, right);
      UpperIdKey(TrimSpace(left));
      UpperReturnKey(TrimSpace(left));
      UpperCmdKey(TrimSpace(left));
      ParseInt64Refuses(TrimSpace(right));
    }
  }

  lemma NoiseGrows(rs: seq<CommandResult>, sn: string, code: int, command: string)
    ensures Grow(rs, Noise, sn, code, command) == rs
  {
  }

  lemma {:induction false} NoiseVanishes(x: seq<Token>, y: seq<Token>, sn: string)
    ensures LastReturn(x + [Noise] + y) == LastReturn(x + y) && LastCmd(x + [Noise] + y) == LastCmd(x + y)
    ensures Results(x + [Noise] + y, sn) == Results(x + y, sn)
  {
    if y == [] {
      assert x + [Noise] + y == x + [Noise] && x + y == x;
      LastSnoc(x, Noise);
      ResultsSnoc(x, Noise, sn);
      NoiseGrows(Results(x, sn), sn, LastReturn(x), LastCmd(x));
    } else {
      var front, t := y[..|y| - 1], y[|y| - 1];
      assert x + [Noise] + y == (x + [Noise] + front) + [t] && x + y == (x + front) + [t];
      NoiseVanishes(x, front, sn);
      LastSnoc(x + [Noise] + front, t);
      LastSnoc(x + front, t);
      ResultsSnoc(x + [Noise] + front, t, sn);
      ResultsSnoc(x + front, t, sn);
    }
  }

  lemma TokensBetween(a: string, part: string, b: string, c: char)
    requires c == '\n' || c == '&'
    requires '&' !in part && '\n' !in part
    ensures Tokens(a + [c] + part + [c] + b) == Tokens(a) + [Classify(part)] + Tokens(b)
  {
    assert a + [c] + part + [c] + b == (a + [c] + part) + [c] + b;
    TokensConcat(a + [c] + part, b, c);
    TokensConcat(a, part, c);
    TokensOne(part);
  }

  /** A part that says nothing changes no result, wherever it stands in a body. */
  lemma ForeignPart(a: string, part: string, b: string, c: char, sn: string)
    requires c == '\n' || c == '&'
    requires '&' !in part && '\n' !in part && Foreign(part)
    ensures Results(Tokens(a + [c] + part + [c] + b), sn) == Results(Tokens(a + [c] + b), sn)
  {
    TokensBetween(a, part, b, c);
    TokensConcat(a, b, c);
    ForeignIsNoise(part);
    NoiseVanishes(Tokens(a), Tokens(b), sn);
  }

  /** The pair as the device documentation writes it, for a known key and its value. */
  ghost predicate SaysPlainly(key: string, value: string, plain: string) {
    || (IsIdKey(key) && exists n :: InInt64(n) && Spells(value, n) && plain == Pair("ID", FormatInt(n)))
    || (IsReturnKey(key) && exists n :: InInt64(n) && Spells(value, n) && plain == Pair("Return", FormatInt(n)))
    || (IsCmdKey(key) && plain == Pair("CMD", value))
  }

  lemma ClassifyTrimmed(part: string, left: string, right: string)
    requires part == left + ['='] + right && '=' !in left
    ensures Classify(part) ==
            var key, value := TrimSpace(left), TrimSpace(right);
            if IsIdKey(key) then (if ParseInt64(value).Some? then Id(ParseInt64(value).value) else Noise)
            else if IsReturnKey(key) then (if ParseInt64(value).Some? then Return(ParseInt64(value).value) else Noise)
            else if IsCmdKey(key) then Cmd(value)
            else Noise
  {
    TrimmedCut(left, right);
    UpperIdKey(TrimSpace(left));
    UpperReturnKey(TrimSpace(left));
    UpperCmdKey(TrimSpace(left));
  }

  lemma KnownClassified(part: string, left: string, right: string, plain: string)
    requires part == left + ['='] + right && '=' !in left
    requires Plain(TrimSpace(right)) && SaysPlainly(TrimSpace(left), TrimSpace(right), plain)
    ensures Tokens(plain) == [Classify(part)]
  {
    var key, value := TrimSpace(left), TrimSpace(right);
    ClassifyTrimmed(part, left, right);
    if IsCmdKey(key) {
      CmdPair(value);
    } else if IsIdKey(key) {
      var n :| InInt64(n) && Spells(value, n) && plain == Pair("ID", FormatInt(n));
      ParseInt64Exactly(value, n);
      IdPair(n);
    } else {
      var n :| InInt64(n) && Spells(value, n) && plain == Pair("Return", FormatInt(n));
      ParseInt64Exactly(value, n);
      ReturnPair(n);
    }
  }

  /** A known pair reads like the plain one: in any letter case, with blanks around its key
      and value, and with a sign or zeros before its number. */
  lemma KnownPart(a: string, left: string, right: string, plain: string, b: string, c: char, sn: string)
    requires c == '\n' || c == '&'
    requires '=' !in left && '&' !in left + right && '\n' !in left + right
    requires SaysPlainly(TrimSpace(left), TrimSpace(right), plain)
    ensures Results(Tokens(a + [c] + (left + ['='] + right) + [c] + b), sn) ==
            Results(Tokens(a + [c] + plain + [c] + b), sn)
  {
    PlainAround(left, right);
    KnownClassified(left + ['='] + right, left, right, plain);
    TokensBetween(a, left + ['='] + right, b, c);
    PlainBetween(a, plain, b, c);
  }

  lemma PlainAround(left: string, right: string)
    requires '&' !in left + right && '\n' !in left + right
    ensures Plain(TrimSpace(right)) && '&' !in left + ['='] + right && '\n' !in left + ['='] + right
  {
    var l, r := TrimSpaceShape(right);
    var value := TrimSpace(right);
    assert right == l + value + r;
    assert forall x | x in value :: x in left + right;
  }

  lemma PlainBetween(a: string, plain: string, b: string, c: char)
    requires c == '\n' || c == '&'
    ensures Tokens(a + [c] + plain + [c] + b) == Tokens(a) + Tokens(plain) + Tokens(b)
  {
    assert a + [c] + plain + [c] + b == (a + [c] + plain) + [c] + b;
    TokensConcat(a + [c] + plain, b, c);
    TokensConcat(a, plain, c);
  }

  // -------------------------------------------------------------- body formats

  /** One confirmation as a device writes it: its pairs separated by an ampersand, or
      one pair a line. */
  function Confirmation(r: CommandResult, sep: char): string {
    Pair("ID", FormatInt(r.id)) + [sep] + (Pair("Return", FormatInt(r.returnCode)) + [sep] + Pair("CMD", r.command))
  }

  function Body(rs: seq<CommandResult>, sep: char): string {
    if rs == [] then "" else Confirmation(rs[0], sep) + ['\n'] + Body(rs[1..], sep)
  }

  /** A command that neither format can cut or trim. */
  predicate Plain(command: string) {
    '&' !in command && '\n' !in command && Trimmed(command)
  }

  /** A result that a confirmation body can carry for device sn. */
  predicate Carried(r: CommandResult, sn: string) {
    r.serialNumber == sn && r.queuedCommand == "" && InInt64(r.id) && InInt64(r.returnCode)
  }

  lemma TokensOne(part: string)
    requires '&' !in part && '\n' !in part
    ensures Tokens(part) == [Classify(part)]
  {
    assert Replace(part, '\n', '&') == part;
    SplitNone(part, '&');
  }

  /** How a pair of a known key is read. */
  lemma PairTokens(key: string, value: string)
    requires key != "" && '=' !in key && Plain(key) && Plain(value)
    ensures Tokens(Pair(key, value)) == [Classify(Pair(key, value))]
    ensures Cut(TrimSpace(Pair(key, value)), '=') == Some((key, value))
    ensures TrimSpace(key) == key && TrimSpace(value) == value
  {
    PairShape(key, value);
    TokensOne(Pair(key, value));
  }

  lemma PrintedNumber(n: int)
    requires InInt64(n)
    ensures Plain(FormatInt(n)) && ParseInt64(FormatInt(n)) == Some(n)
  {
    FormatIntChars(n);
    FormatIntRoundTrip(n);
  }

  lemma IdPair(id: int)
    requires InInt64(id)
    ensures Tokens(Pair("ID", FormatInt(id))) == [Id(id)]
  {
    PrintedNumber(id);
    PairTokens("ID", FormatInt(id));
    assert ToUpper("ID") == "ID";
  }

  lemma ReturnPair(code: int)
    requires InInt64(code)
    ensures Tokens(Pair("Return", FormatInt(code))) == [Return(code)]
  {
    PrintedNumber(code);
    PairTokens("Return", FormatInt(code));
    assert ToUpper("Return") == "RETURN";
  }

  lemma CmdPair(command: string)
    requires Plain(command)
    ensures Tokens(Pair("CMD", command)) == [Cmd(command)]
  {
    PairTokens("CMD", command);
    assert ToUpper("CMD") == "CMD";
  }

  lemma ConfirmationTokens(r: CommandResult, sep: char, sn: string)
    requires (sep == '&' || sep == '\n') && Carried(r, sn) && Plain(r.command)
    ensures Tokens(Confirmation(r, sep)) == [Id(r.id), Return(r.returnCode), Cmd(r.command)]
  {
    var id, code, cmd := Pair("ID", FormatInt(r.id)), Pair("Return", FormatInt(r.returnCode)), Pair("CMD", r.command);
    IdPair(r.id);
    ReturnPair(r.returnCode);
    CmdPair(r.command);
    TokensConcat(code, cmd, sep);
    TokensConcat(id, code + [sep] + cmd, sep);
  }

  lemma OneResult(r: CommandResult, sn: string)
    requires Carried(r, sn)
    ensures Results([Id(r.id), Return(r.returnCode), Cmd(r.command)], sn) == [r]
  {
    var id, code, cmd := Id(r.id), Return(r.returnCode), Cmd(r.command);
    ResultsSnoc([], id, sn);
    assert [] + [id] == [id];
    ResultsSnoc([id], code, sn);
    assert [id] + [code] == [id, code];
    ResultsSnoc([id, code], cmd, sn);
    assert [id, code] + [cmd] == [id, code, cmd];
  }

  lemma {:induction false} BodyLeadsWithId(rs: seq<CommandResult>, sep: char, sn: string)
    requires sep == '&' || sep == '\n'
    requires forall r | r in rs :: Carried(r, sn) && Plain(r.command)
    ensures LeadsWithId(Tokens(Body(rs, sep)))
  {
    if rs == [] {
      TokensOne("");
    } else {
      ConfirmationTokens(rs[0], sep, sn);
      TokensConcat(Confirmation(rs[0], sep), Body(rs[1..], sep), '\n');
      assert Tokens(Body(rs, sep))[0] == Id(rs[0].id);
    }
  }

  lemma {:induction false} BodyParses(rs: seq<CommandResult>, sep: char, sn: string)
    requires sep == '&' || sep == '\n'
    requires forall r | r in rs :: Carried(r, sn) && Plain(r.command)
    ensures Results(Tokens(Body(rs, sep)), sn) == rs
  {
    if rs == [] {
      TokensOne("");
      ResultsSnoc([], Noise, sn);
      assert [] + [Noise] == [Noise];
    } else {
      ConfirmationParses(rs[0], sep, sn);
      forall r | r in rs[1..]
        ensures Carried(r, sn) && Plain(r.command)
      {
        assert r in rs;
      }
      BodyLeadsWithId(rs[1..], sep, sn);
      BodyParses(rs[1..], sep, sn);
      var first, rest := Confirmation(rs[0], sep), Body(rs[1..], sep);
      assert Body(rs, sep) == first + ['\n'] + rest;
      ParseConcat(first, rest, '\n', sn);
      assert [rs[0]] + rs[1..] == rs;
    }
  }

  lemma ConfirmationParses(r: CommandResult, sep: char, sn: string)
    requires (sep == '&' || sep == '\n') && Carried(r, sn) && Plain(r.command)
    ensures Results(Tokens(Confirmation(r, sep)), sn) == [r]
    ensures HasId(Tokens(Confirmation(r, sep)))
  {
    ConfirmationTokens(r, sep, sn);
    OneResult(r, sn);
    assert Tokens(Confirmation(r, sep))[0].Id?;
  }

  lemma CmdTokenPlain(body: string, i: nat)
    requires i < |Tokens(body)| && Tokens(body)[i].Cmd?
    ensures Plain(Tokens(body)[i].command)
  {
    var flat := Replace(body, '\n', '&');
    var part := Parts(body)[i];
    SplitParts(flat, '&');
    assert part in Parts(body);
    PartHasNoNewline(flat, i);
    var left, right := TrimSpaceShape(part);
    CutTrimmed(TrimSpace(part), '=');
  }

  lemma {:induction false} PartHasNoNewline(s: string, i: nat)
    requires '\n' !in s && i < |Split(s, '&')|
    ensures '\n' !in Split(s, '&')[i]
  {
    if s != "" {
      var rest := Split(s[1..], '&');
      PartHasNoNewline(s[1..], if s[0] == '&' && i > 0 then i - 1 else if s[0] == '&' then 0 else i);
    }
  }

  lemma {:induction false} LastCmdPlain(tokens: seq<Token>)
    requires forall i | 0 <= i < |tokens| && tokens[i].Cmd? :: Plain(tokens[i].command)
    ensures Plain(LastCmd(tokens))
  {
    if tokens != [] {
      LastCmdPlain(tokens[..|tokens| - 1]);
    }
  }

  lemma SlicePlain(body: string, lo: nat, hi: nat)
    requires lo <= hi <= |Tokens(body)|
    ensures Plain(LastCmd(Tokens(body)[lo..hi]))
  {
    var slice := Tokens(body)[lo..hi];
    forall i | 0 <= i < |slice| && slice[i].Cmd?
      ensures Plain(slice[i].command)
    {
      CmdTokenPlain(body, lo + i);
    }
    LastCmdPlain(slice);
  }

  /** Whatever the body, a parsed command is plain. */
  lemma ParsedPlain(body: string, sn: string, k: nat)
    requires k < |Results(Tokens(body), sn)|
    ensures Plain(Results(Tokens(body), sn)[k].command)
  {
    var p := IdPositions(Tokens(body))[k];
    SlicePlain(body, if k == 0 then 0 else p, SegmentEnd(Tokens(body), p));
  }

  /** Both formats carry a list of results exactly when all its commands are plain. */
  lemma {:induction false} BodyRoundTrip(rs: seq<CommandResult>, sep: char, sn: string)
    requires sep == '&' || sep == '\n'
    requires forall r | r in rs :: Carried(r, sn)
    ensures Results(Tokens(Body(rs, sep)), sn) == rs <==> forall r | r in rs :: Plain(r.command)
  {
    if forall r | r in rs :: Plain(r.command) {
      BodyParses(rs, sep, sn);
    } else if Results(Tokens(Body(rs, sep)), sn) == rs {
      var k :| 0 <= k < |rs| && !Plain(rs[k].command);
      ParsedPlain(Body(rs, sep), sn, k);
    }
  }
}
