/** The line handling that the ATTLOG and USERINFO parsers share: the whole body is
    trimmed, it is split at newlines, carriage returns at a line's end are dropped and
    empty lines are ignored. */
module Lines {
  import opened Text

  const LINE_BREAKS: set<char> := {'\r', '\n'}

  function Stripped(line: string): string {
    TrimRight(line, CARRIAGE_RETURN)
  }

  function NonEmpty(raw: seq<string>): (lines: seq<string>)
    ensures "" !in lines
  {
    if raw == [] then []
    else
      var front, line := NonEmpty(raw[..|raw| - 1]), Stripped(raw[|raw| - 1]);
      if line == "" then front else front + [line]
  }

  /** The lines of a text, without trimming the text first. */
  function TextLines(text: string): seq<string> {
    NonEmpty(Split(text, '\n'))
  }

  /** The lines that the parsers look at. */
  function BodyLines(body: string): seq<string> {
    TextLines(TrimSpace(body))
  }

  lemma {:induction false} NonEmptyConcat(a: seq<string>, b: seq<string>)
    ensures NonEmpty(a + b) == NonEmpty(a) + NonEmpty(b)
  {
    if b == [] {
      assert a + b == a;
    } else {
      var n := |b| - 1;
      assert (a + b)[..|a + b| - 1] == a + b[..n];
      NonEmptyConcat(a, b[..n]);
    }
  }

  // ---------------------------------------------------- one character more or less

  lemma StrippedSnoc(line: string, c: char)
    ensures Stripped(line + [c]) == if c == '\r' then Stripped(line) else line + [c]
  {
    assert (line + [c])[..|line|] == line;
  }

  lemma NonEmptyLast(front: seq<string>, last: string)
    ensures NonEmpty(front + [last]) == if Stripped(last) == "" then NonEmpty(front)
                                        else NonEmpty(front) + [Stripped(last)]
  {
    assert (front + [last])[..|front|] == front;
  }

  /** The characters of all lines together. */
  function Weight(lines: seq<string>): nat {
    if lines == [] then 0 else Weight(lines[..|lines| - 1]) + |lines[|lines| - 1]|
  }

  lemma {:induction false} WeightConcat(a: seq<string>, b: seq<string>)
    ensures Weight(a + b) == Weight(a) + Weight(b)
  {
    if b == [] {
      assert a + b == a;
    } else {
      var n := |b| - 1;
      assert (a + b)[..|a + b| - 1] == a + b[..n];
      WeightConcat(a, b[..n]);
    }
  }

  lemma WeightSnoc(lines: seq<string>, line: string)
    ensures Weight(lines + [line]) == Weight(lines) + |line|
  {
    assert (lines + [line])[..|lines|] == lines;
  }

  lemma AppendBreak(text: string)
    ensures TextLines(text + ['\n']) == TextLines(text)
  {
    SplitConcat(text, "", '\n');
    assert text + ['\n'] == text + ['\n'] + "";
    NonEmptyLast(Split(text, '\n'), "");
  }

  /** The lines with one more character, which is no newline, at the end of the last. */
  lemma AppendToLast(text: string, c: char)
    returns (init: seq<string>, last: string)
    requires c != '\n'
    ensures Split(text, '\n') == init + [last] && Split(text + [c], '\n') == init + [last + [c]]
  {
    var lines := Split(text, '\n');
    init, last := lines[..|lines| - 1], lines[|lines| - 1];
    assert lines == init + [last];
    SplitSnoc(text, c, '\n');
  }

  lemma LongerLast(init: seq<string>, last: string, c: char)
    ensures c == '\r' ==> NonEmpty(init + [last + [c]]) == NonEmpty(init + [last])
    ensures c != '\r' ==> Weight(NonEmpty(init + [last + [c]])) > Weight(NonEmpty(init + [last]))
  {
    StrippedSnoc(last, c);
    NonEmptyLast(init, last);
    NonEmptyLast(init, last + [c]);
    WeightSnoc(NonEmpty(init), last + [c]);
    WeightSnoc(NonEmpty(init), Stripped(last));
  }

  /** A line break at the end of a text adds nothing; any other character weighs. */
  lemma AppendChar(text: string, c: char)
    ensures c in LINE_BREAKS ==> TextLines(text + [c]) == TextLines(text)
    ensures c !in LINE_BREAKS ==> Weight(TextLines(text + [c])) > Weight(TextLines(text))
  {
    if c == '\n' {
      AppendBreak(text);
    } else {
      var init, last := AppendToLast(text, c);
      LongerLast(init, last, c);
    }
  }

  lemma {:induction false} AppendText(text: string, r: string)
    ensures AllIn(r, LINE_BREAKS) ==> TextLines(text + r) == TextLines(text)
    ensures Weight(TextLines(text + r)) >= Weight(TextLines(text))
    ensures !AllIn(r, LINE_BREAKS) ==> Weight(TextLines(text + r)) > Weight(TextLines(text))
  {
    if r == "" {
      assert text + r == text;
    } else {
      var n := |r| - 1;
      assert text + r == (text + r[..n]) + [r[n]];
      AppendText(text, r[..n]);
      AppendChar(text + r[..n], r[n]);
    }
  }

  lemma {:induction false} StrippedCons(c: char, line: string)
    ensures Stripped([c] + line) ==
            if Stripped(line) != "" then [c] + Stripped(line) else if c == '\r' then "" else [c]
  {
    var all := [c] + line;
    if line == "" {
      assert all == [c] && all[..0] == "";
    } else if line[|line| - 1] == '\r' {
      assert all[..|all| - 1] == [c] + line[..|line| - 1];
      StrippedCons(c, line[..|line| - 1]);
    }
  }

  function FirstLine(text: string): string {
    Split(text, '\n')[0]
  }

  lemma NonEmptyFirst(first: string, rest: seq<string>)
    ensures NonEmpty([first] + rest) == (if Stripped(first) == "" then [] else [Stripped(first)]) + NonEmpty(rest)
  {
    NonEmptyConcat([first], rest);
    assert [first] == [] + [first];
    NonEmptyLast([], first);
  }

  lemma FirstLineLines(text: string)
    ensures var first, rest := FirstLine(text), Split(text, '\n')[1..];
            TextLines(text) == (if Stripped(first) == "" then [] else [Stripped(first)]) + NonEmpty(rest)
  {
    var lines := Split(text, '\n');
    assert lines == [lines[0]] + lines[1..];
    NonEmptyFirst(lines[0], lines[1..]);
  }

  lemma LongerFirst(text: string, c: char)
    requires c != '\n'
    ensures FirstLine([c] + text) == [c] + FirstLine(text)
    ensures Split([c] + text, '\n')[1..] == Split(text, '\n')[1..]
  {
    assert ([c] + text)[1..] == text;
  }

  lemma PrependBreak(text: string)
    ensures TextLines(['\n'] + text) == TextLines(text) && FirstLine(['\n'] + text) == ""
  {
    assert (['\n'] + text)[1..] == text;
    NonEmptyFirst("", Split(text, '\n'));
  }

  /** The same at the front; but a carriage return there counts unless the line it joins is
      empty but for carriage returns. */
  lemma PrependChar(c: char, text: string)
    requires c != '\n'
    ensures c == '\r' && Stripped(FirstLine(text)) == "" ==>
              TextLines([c] + text) == TextLines(text) && Stripped(FirstLine([c] + text)) == ""
    ensures c != '\r' || Stripped(FirstLine(text)) != "" ==>
              Weight(TextLines([c] + text)) > Weight(TextLines(text))
  {
    var first, rest := FirstLine(text), Split(text, '\n')[1..];
    LongerFirst(text, c);
    FirstLineLines(text);
    FirstLineLines([c] + text);
    StrippedCons(c, first);
    var line := Stripped([c] + first);
    assert [] + NonEmpty(rest) == NonEmpty(rest);
    WeightFirst(line, NonEmpty(rest));
    WeightFirst(Stripped(first), NonEmpty(rest));
  }

  lemma WeightFirst(line: string, rest: seq<string>)
    ensures Weight([line] + rest) == |line| + Weight(rest)
  {
    WeightConcat([line], rest);
    WeightSnoc([], line);
    assert [] + [line] == [line];
  }

  lemma {:induction false} PrependText(l: string, text: string)
    ensures Weight(TextLines(l + text)) >= Weight(TextLines(text))
    ensures !AllIn(l, LINE_BREAKS) ==> Weight(TextLines(l + text)) > Weight(TextLines(text))
  {
    if l == "" {
      assert l + text == text;
    } else {
      assert l + text == [l[0]] + (l[1..] + text);
      PrependText(l[1..], text);
      if l[0] == '\n' {
        PrependBreak(l[1..] + text);
        assert !AllIn(l, LINE_BREAKS) ==> !AllIn(l[1..], LINE_BREAKS) by {
          assert forall i | 1 <= i < |l| :: l[i] == l[1..][i - 1];
        }
      } else {
        PrependChar(l[0], l[1..] + text);
        if l[0] == '\r' {
          assert !AllIn(l, LINE_BREAKS) ==> !AllIn(l[1..], LINE_BREAKS) by {
            assert forall i | 1 <= i < |l| :: l[i] == l[1..][i - 1];
          }
        }
      }
    }
  }

  lemma {:induction false} PrependQuiet(l: string, text: string)
    requires AllIn(l, LINE_BREAKS) && Stripped(FirstLine(text)) == ""
    ensures TextLines(l + text) == TextLines(text) && Stripped(FirstLine(l + text)) == ""
  {
    if l == "" {
      assert l + text == text;
    } else {
      assert l + text == [l[0]] + (l[1..] + text);
      PrependQuiet(l[1..], text);
      if l[0] == '\n' {
        PrependBreak(l[1..] + text);
      } else {
        PrependChar(l[0], l[1..] + text);
      }
    }
  }

  // ------------------------------------------------------------ the two ends of a text

  /** The blanks that trimming takes off the front. */
  function Head(text: string): string {
    text[..|text| - |TrimLeft(text, BLANKS)|]
  }

  /** The blanks that trimming takes off the end. */
  function Tail(text: string): string {
    text[|TrimRight(text, BLANKS)|..]
  }

  /** A front that only holds line breaks and ends a line. */
  predicate QuietHead(head: string) {
    AllIn(head, LINE_BREAKS) && (head == "" || head[|head| - 1] == '\n')
  }

  lemma Trims(l: string, t: string, r: string)
    requires AllIn(l, BLANKS) && t != "" && Trimmed(t) && AllIn(r, BLANKS)
    ensures Head(l + t + r) == l && TrimSpace(l + t + r) == t && Tail(l + t + r) == r
  {
    var text := l + t + r;
    assert text == l + (t + r);
    TrimLeftAll(l, t + r, BLANKS);
    assert (t + r)[0] == t[0];
    TrimRightAll(t, r, BLANKS);
    TrimRightAll(l + t, r, BLANKS);
    assert (l + t)[|l + t| - 1] == t[|t| - 1];
  }

  lemma TrimsAll(text: string)
    requires AllIn(text, BLANKS)
    ensures TrimSpace(text) == "" && BodyLines(text) == []
  {
    assert text == text + "";
    TrimLeftAll(text, "", BLANKS);
    NothingInNothing();
  }

  lemma NothingInNothing()
    ensures TextLines("") == []
  {
    assert [""] == [] + [""];
    NonEmptyLast([], "");
  }

  /** A text that is not all blank: its front, its trimmed middle and its end. */
  lemma Apart(text: string) returns (l: string, t: string, r: string)
    requires !AllIn(text, BLANKS)
    ensures text == l + t + r && t == TrimSpace(text) && t != "" && Trimmed(t)
    ensures AllIn(l, BLANKS) && AllIn(r, BLANKS) && Head(text) == l && Tail(text) == r
  {
    l, r := TrimSpaceShape(text);
    t := TrimSpace(text);
    assert t == "" ==> text == l + r;
    Trims(l, t, r);
  }

  lemma HeadLines(l: string, text: string)
    requires AllIn(l, BLANKS) && text != "" && text[0] !in BLANKS
    ensures QuietHead(l) ==> TextLines(l + text) == TextLines(text)
    ensures Weight(TextLines(l + text)) >= Weight(TextLines(text))
    ensures !QuietHead(l) ==> Weight(TextLines(l + text)) > Weight(TextLines(text))
  {
    if l == "" {
      assert l + text == text;
    } else {
      var front, c := l[..|l| - 1], l[|l| - 1];
      assert l == front + [c] && l + text == front + ([c] + text);
      PrependText(front, [c] + text);
      if c == '\n' {
        PrependBreak(text);
        if AllIn(front, LINE_BREAKS) {
          assert AllIn(l, LINE_BREAKS);
          PrependQuiet(front, [c] + text);
        } else {
          assert !AllIn(l, LINE_BREAKS);
        }
      } else {
        BlankFree(text);
        PrependChar(c, text);
      }
    }
  }

  lemma BlankFree(text: string)
    requires text != "" && text[0] !in BLANKS
    ensures Stripped(FirstLine(text)) != ""
  {
    var rest := FirstLine(text[1..]);
    assert text == [text[0]] + text[1..];
    LongerFirst(text[1..], text[0]);
    StrippedCons(text[0], rest);
  }

  /** Trimming a whole text changes none of its lines exactly when what is trimmed is line
      breaks, and those at the front end a line. */
  predicate QuietEnds(text: string) {
    if AllIn(text, BLANKS) then AllIn(text, LINE_BREAKS)
    else QuietHead(Head(text)) && AllIn(Tail(text), LINE_BREAKS)
  }

  lemma TrimHarmless(text: string)
    ensures BodyLines(text) == TextLines(text) <==> QuietEnds(text)
  {
    if AllIn(text, BLANKS) {
      TrimsAll(text);
      NothingInNothing();
      AppendText("", text);
      assert "" + text == text;
    } else {
      var l, t, r := Apart(text);
      assert text == l + (t + r) && (t + r)[0] == t[0];
      HeadLines(l, t + r);
      AppendText(t, r);
    }
  }

  /** Two bodies meet cleanly if one of them is all blank, or if what trimming takes off
      the ends that meet is line breaks, and those of the second end a line. */
  predicate MeetCleanly(a: string, b: string) {
    || AllIn(a, BLANKS)
    || AllIn(b, BLANKS)
    || (AllIn(Tail(a), LINE_BREAKS) && QuietHead(Head(b)))
  }

  lemma JoinedLines(a: string, b: string) returns (ra: string, lb: string)
    requires !AllIn(a, BLANKS) && !AllIn(b, BLANKS)
    ensures ra == Tail(a) && lb == Head(b)
    ensures BodyLines(a + ['\n'] + b) == TextLines(TrimSpace(a) + ra) + TextLines(lb + TrimSpace(b))
    ensures AllIn(lb, BLANKS) && TrimSpace(b) != "" && TrimSpace(b)[0] !in BLANKS
  {
    var la, ta, ra' := Apart(a);
    var lb', tb, rb := Apart(b);
    ra, lb := ra', lb';
    var middle := (ta + ra) + ['\n'] + (lb + tb);
    assert middle[0] == ta[0] && middle[|middle| - 1] == tb[|tb| - 1];
    assert a + ['\n'] + b == la + middle + rb;
    Trims(la, middle, rb);
    SplitConcat(ta + ra, lb + tb, '\n');
    NonEmptyConcat(Split(ta + ra, '\n'), Split(lb + tb, '\n'));
  }

  lemma JoinedToBlank(a: string, b: string)
    requires AllIn(a, BLANKS) || AllIn(b, BLANKS)
    ensures BodyLines(a + ['\n'] + b) == BodyLines(a) + BodyLines(b)
  {
    var ab := a + ['\n'] + b;
    if AllIn(a, BLANKS) && AllIn(b, BLANKS) {
      TrimsAll(a);
      TrimsAll(b);
      TrimsAll(ab);
    } else if AllIn(a, BLANKS) {
      var l, t, r := Apart(b);
      assert ab == (a + ['\n'] + l) + t + r;
      Trims(a + ['\n'] + l, t, r);
      TrimsAll(a);
    } else {
      var l, t, r := Apart(a);
      assert ab == l + t + (r + ['\n'] + b);
      Trims(l, t, r + ['\n'] + b);
      TrimsAll(b);
    }
  }

  /** The lines of two bodies joined by a newline are the lines of both, in order, exactly
      when the bodies meet cleanly. */
  lemma BodyLinesConcat(a: string, b: string)
    ensures BodyLines(a + ['\n'] + b) == BodyLines(a) + BodyLines(b) <==> MeetCleanly(a, b)
  {
    if AllIn(a, BLANKS) || AllIn(b, BLANKS) {
      JoinedToBlank(a, b);
    } else {
      var ra, lb := JoinedLines(a, b);
      var ta, tb := TrimSpace(a), TrimSpace(b);
      AppendText(ta, ra);
      HeadLines(lb, tb);
      WeightConcat(TextLines(ta + ra), TextLines(lb + tb));
      WeightConcat(TextLines(ta), TextLines(tb));
    }
  }
}
