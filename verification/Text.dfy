/** The few text operations of Go's `strings` package that the parsers and printers
    of the server use, on ASCII text. */
module Text {
  import opened Wrappers

  /** The ASCII white space that `strings.TrimSpace` removes. */
  const BLANKS: set<char> := {'\t', '\n', '\U{0B}', '\U{0C}', '\r', ' '}

  /** The cutset of `strings.TrimRight(line, "\r")`. */
  const CARRIAGE_RETURN: set<char> := {'\r'}

  function TrimLeft(s: string, cutset: set<char>): (t: string)
    ensures |t| <= |s|
  {
    if s != "" && s[0] in cutset then TrimLeft(s[1..], cutset) else s
  }

  function TrimRight(s: string, cutset: set<char>): (t: string)
    ensures |t| <= |s|
  {
    if s != "" && s[|s| - 1] in cutset then TrimRight(s[..|s| - 1], cutset) else s
  }

  function TrimSpace(s: string): string {
    TrimRight(TrimLeft(s, BLANKS), BLANKS)
  }

  /** Neither the first nor the last character is a blank. */
  predicate Trimmed(s: string) {
    s == "" || (s[0] !in BLANKS && s[|s| - 1] !in BLANKS)
  }

  predicate AllIn(s: string, cutset: set<char>) {
    forall i | 0 <= i < |s| :: s[i] in cutset
  }

  /** What the validation of command fields lets through: neither CR nor LF. */
  predicate NoLineBreak(value: string) {
    '\r' !in value && '\n' !in value
  }

  /** The pieces of s between the occurrences of sep; always at least one piece. */
  function Split(s: string, sep: char): (parts: seq<string>)
    ensures |parts| >= 1
  {
    if s == "" then [""]
    else
      var rest := Split(s[1..], sep);
      if s[0] == sep then [""] + rest else [[s[0]] + rest[0]] + rest[1..]
  }

  function Join(parts: seq<string>, sep: char): string {
    if parts == [] then ""
    else if |parts| == 1 then parts[0]
    else parts[0] + [sep] + Join(parts[1..], sep)
  }

  /** The text before and after the first sep, if there is one. */
  function Cut(s: string, sep: char): Option<(string, string)> {
    if s == "" then None
    else if s[0] == sep then Some(("", s[1..]))
    else match Cut(s[1..], sep)
      case None => None
      case Some(kv) => Some(([s[0]] + kv.0, kv.1))
  }

  function UpperChar(c: char): char {
    if 'a' <= c <= 'z' then c - 'a' + 'A' else c
  }

  function ToUpper(s: string): string {
    seq(|s|, i requires 0 <= i < |s| => UpperChar(s[i]))
  }

  function Replace(s: string, from: char, to: char): string {
    seq(|s|, i requires 0 <= i < |s| => if s[i] == from then to else s[i])
  }

  // ---------------------------------------------------------------- trimming

  lemma {:induction false} TrimLeftShape(s: string, cutset: set<char>) returns (cut: string)
    ensures s == cut + TrimLeft(s, cutset) && AllIn(cut, cutset)
    ensures TrimLeft(s, cutset) != "" ==> TrimLeft(s, cutset)[0] !in cutset
  {
    if s != "" && s[0] in cutset {
      var rest := TrimLeftShape(s[1..], cutset);
      cut := [s[0]] + rest;
    } else {
      cut := "";
    }
  }

  lemma {:induction false} TrimRightShape(s: string, cutset: set<char>) returns (cut: string)
    ensures s == TrimRight(s, cutset) + cut && AllIn(cut, cutset)
    ensures TrimRight(s, cutset) != "" ==> TrimRight(s, cutset)[|TrimRight(s, cutset)| - 1] !in cutset
  {
    if s != "" && s[|s| - 1] in cutset {
      var rest := TrimRightShape(s[..|s| - 1], cutset);
      cut := rest + [s[|s| - 1]];
    } else {
      cut := "";
    }
  }

  /** TrimSpace only removes blanks, from the two ends, and leaves none there. */
  lemma TrimSpaceShape(s: string) returns (left: string, right: string)
    ensures s == left + TrimSpace(s) + right
    ensures AllIn(left, BLANKS) && AllIn(right, BLANKS)
    ensures Trimmed(TrimSpace(s))
  {
    left := TrimLeftShape(s, BLANKS);
    right := TrimRightShape(TrimLeft(s, BLANKS), BLANKS);
    var t := TrimSpace(s);
    assert TrimLeft(s, BLANKS) == t + right;
    if t != "" {
      assert TrimLeft(s, BLANKS)[0] == t[0];
    }
  }

  lemma TrimSpaceIdentity(s: string)
    requires Trimmed(s)
    ensures TrimSpace(s) == s
  {
  }

  lemma {:induction false} TrimLeftAll(a: string, s: string, cutset: set<char>)
    requires AllIn(a, cutset)
    ensures TrimLeft(a + s, cutset) == TrimLeft(s, cutset)
  {
    if a == "" {
      assert a + s == s;
    } else {
      assert (a + s)[1..] == a[1..] + s;
      TrimLeftAll(a[1..], s, cutset);
    }
  }

  lemma {:induction false} TrimRightAll(s: string, b: string, cutset: set<char>)
    requires AllIn(b, cutset)
    ensures TrimRight(s + b, cutset) == TrimRight(s, cutset)
  {
    if b == "" {
      assert s + b == s;
    } else {
      assert (s + b)[..|s + b| - 1] == s + b[..|b| - 1];
      TrimRightAll(s, b[..|b| - 1], cutset);
    }
  }

  /** Trimming finds the trimmed middle, whatever blanks are around it. */
  lemma TrimsTo(l: string, t: string, r: string)
    requires AllIn(l, BLANKS) && Trimmed(t) && AllIn(r, BLANKS)
    ensures TrimSpace(l + t + r) == t
  {
    assert l + t + r == l + (t + r);
    TrimLeftAll(l, t + r, BLANKS);
    if t == "" {
      assert t + r == r + "";
      TrimLeftAll(r, "", BLANKS);
    } else {
      TrimRightAll(t, r, BLANKS);
    }
  }

  lemma BlankExactly(s: string)
    ensures TrimSpace(s) == "" <==> AllIn(s, BLANKS)
  {
    if AllIn(s, BLANKS) {
      TrimsTo(s, "", "");
      assert s + "" + "" == s;
    } else {
      var l, r := TrimSpaceShape(s);
      assert TrimSpace(s) == "" ==> s == l + r;
    }
  }

  lemma BlanksExactly(c: char)
    ensures c in BLANKS <==> c == ' ' || 9 <= c as int <= 13
  {
  }

  // --------------------------------------------------------------- splitting

  lemma {:induction false} SplitParts(s: string, sep: char)
    ensures forall p | p in Split(s, sep) :: sep !in p
    ensures Join(Split(s, sep), sep) == s
  {
    if s != "" {
      SplitParts(s[1..], sep);
      var rest := Split(s[1..], sep);
      assert rest == [rest[0]] + rest[1..];
      if s[0] != sep {
        var first := [s[0]] + rest[0];
        assert Split(s, sep) == [first] + rest[1..];
        if |rest| > 1 {
          assert Join(rest, sep) == rest[0] + [sep] + Join(rest[1..], sep);
          assert Join([first] + rest[1..], sep) == first + [sep] + Join(rest[1..], sep);
        }
      } else {
        assert Split(s, sep) == [""] + rest;
        assert ([""] + rest)[1..] == rest;
      }
    }
  }

  lemma {:induction false} SplitNone(s: string, sep: char)
    requires sep !in s
    ensures Split(s, sep) == [s]
  {
    if s != "" {
      assert s == [s[0]] + s[1..];
      SplitNone(s[1..], sep);
    }
  }

  /** Splitting distributes over joining two texts with the separator. */
  lemma {:induction false} SplitConcat(a: string, b: string, sep: char)
    ensures Split(a + [sep] + b, sep) == Split(a, sep) + Split(b, sep)
  {
    var s := a + [sep] + b;
    if a == "" {
      assert s[1..] == b;
    } else {
      assert s[1..] == a[1..] + [sep] + b;
      SplitConcat(a[1..], b, sep);
    }
  }

  /** The lines with one more character on the last of them. */
  function Longer(lines: seq<string>, c: char): seq<string>
    requires lines != []
  {
    lines[|lines| - 1 := lines[|lines| - 1] + [c]]
  }

  lemma {:induction false} SplitSnoc(text: string, c: char, sep: char)
    requires c != sep
    ensures Split(text + [c], sep) == Longer(Split(text, sep), c)
  {
    if text == "" {
      assert text + [c] == [c];
      SplitNone([c], sep);
    } else {
      assert (text + [c])[1..] == text[1..] + [c] && (text + [c])[0] == text[0];
      SplitSnoc(text[1..], c, sep);
      LongerCons(text[0], Split(text[1..], sep), c);
    }
  }

  lemma LongerCons(first: char, rest: seq<string>, c: char)
    requires rest != []
    ensures [""] + Longer(rest, c) == Longer([""] + rest, c)
    ensures [[first] + Longer(rest, c)[0]] + Longer(rest, c)[1..] == Longer([[first] + rest[0]] + rest[1..], c)
  {
    if |rest| == 1 {
      assert [first] + (rest[0] + [c]) == ([first] + rest[0]) + [c];
    }
  }

  /** Joining undoes splitting, and splitting undoes joining. */
  lemma {:induction false} SplitJoin(parts: seq<string>, sep: char)
    requires parts != [] && forall i | 0 <= i < |parts| :: sep !in parts[i]
    ensures Split(Join(parts, sep), sep) == parts
  {
    SplitNone(parts[0], sep);
    if |parts| > 1 {
      assert forall i | 0 <= i < |parts[1..]| :: parts[1..][i] == parts[i + 1];
      SplitJoin(parts[1..], sep);
      SplitConcat(parts[0], Join(parts[1..], sep), sep);
      assert parts == [parts[0]] + parts[1..];
    }
  }

  lemma {:induction false} SplitAlone(s: string, sep: char)
    ensures |Split(s, sep)| == 1 <==> sep !in s
  {
    SplitParts(s, sep);
    if sep !in s {
      SplitNone(s, sep);
    }
  }

  lemma {:induction false} CutFirst(key: string, value: string, sep: char)
    requires sep !in key
    ensures Cut(key + [sep] + value, sep) == Some((key, value))
  {
    var s := key + [sep] + value;
    if key == "" {
      assert s[1..] == value;
    } else {
      assert key == [key[0]] + key[1..];
      assert s[1..] == key[1..] + [sep] + value;
      CutFirst(key[1..], value, sep);
    }
  }

  /** Cut finds a split exactly when the separator occurs, and it is the first one. */
  lemma {:induction false} CutShape(s: string, sep: char)
    ensures Cut(s, sep).None? <==> sep !in s
    ensures Cut(s, sep).Some? ==>
              var (key, value) := Cut(s, sep).value;
              s == key + [sep] + value && sep !in key
  {
    if s != "" {
      assert s == [s[0]] + s[1..];
      CutShape(s[1..], sep);
    }
  }

  /** A key=value pair as the printers write it. */
  function Pair(key: string, value: string): string {
    key + "=" + value
  }

  /** How a pair of a plain key and a trimmed value is taken apart. */
  lemma PairShape(key: string, value: string)
    requires key != "" && '=' !in key && Trimmed(key) && Trimmed(value)
    ensures Trimmed(Pair(key, value)) && TrimSpace(Pair(key, value)) == Pair(key, value)
    ensures Cut(Pair(key, value), '=') == Some((key, value))
    ensures TrimSpace(key) == key && TrimSpace(value) == value
  {
    var part := Pair(key, value);
    assert part[0] == key[0];
    assert part[|part| - 1] == if value == "" then '=' else value[|value| - 1];
    TrimSpaceIdentity(part);
    TrimSpaceIdentity(key);
    TrimSpaceIdentity(value);
    CutFirst(key, value, '=');
  }

  lemma TrimRightFirst(s: string)
    ensures TrimSpace(TrimRight(s, BLANKS)) == TrimSpace(s)
  {
    var l, r := TrimSpaceShape(s);
    var t := TrimSpace(s);
    if t == "" {
      assert s == l + r;
      RightOfBlanks(s);
    } else {
      RightOf(l, t, r);
      TrimsTo(l, t, "");
      assert l + t + "" == l + t;
    }
  }

  lemma RightOfBlanks(s: string)
    requires AllIn(s, BLANKS)
    ensures TrimRight(s, BLANKS) == ""
  {
    TrimRightAll("", s, BLANKS);
    assert "" + s == s;
  }

  lemma RightOf(l: string, t: string, r: string)
    requires t != "" && Trimmed(t) && AllIn(r, BLANKS)
    ensures TrimRight(l + t + r, BLANKS) == l + t
  {
    TrimRightAll(l + t, r, BLANKS);
    assert (l + t)[|l + t| - 1] == t[|t| - 1];
  }

  lemma TrimLeftFirst(s: string)
    ensures TrimSpace(TrimLeft(s, BLANKS)) == TrimSpace(s)
  {
    var cut := TrimLeftShape(s, BLANKS);
  }

  /** Trimming a part before it is cut makes no difference to the trimmed key and value. */
  lemma TrimmedCut(left: string, right: string)
    requires '=' !in left
    ensures var whole := left + ['='] + right;
            && Cut(whole, '=') == Some((left, right)) && Cut(TrimSpace(whole), '=').Some?
            && TrimSpace(Cut(TrimSpace(whole), '=').value.0) == TrimSpace(left)
            && TrimSpace(Cut(TrimSpace(whole), '=').value.1) == TrimSpace(right)
  {
    var l := TrimLeftShape(left, BLANKS);
    var r := TrimRightShape(right, BLANKS);
    var key, value := TrimLeft(left, BLANKS), TrimRight(right, BLANKS);
    var middle := key + ['='] + value;
    assert middle[0] == if key == "" then '=' else key[0];
    assert middle[|middle| - 1] == if value == "" then '=' else value[|value| - 1];
    assert left + ['='] + right == l + middle + r;
    TrimsTo(l, middle, r);
    CutFirst(left, right, '=');
    CutFirst(key, value, '=');
    TrimLeftFirst(left);
    TrimRightFirst(right);
  }

  /** A pair with blanks around its key and value reads like the plain pair. */
  lemma PaddedPair(a: string, key: string, b: string, c: string, value: string, d: string)
    requires AllIn(a, BLANKS) && AllIn(b, BLANKS) && AllIn(c, BLANKS) && AllIn(d, BLANKS)
    requires '=' !in key && Trimmed(key) && Trimmed(value)
    ensures var part := (a + key + b) + ['='] + (c + value + d);
            && Cut(part, '=') == Some((a + key + b, c + value + d)) && Cut(TrimSpace(part), '=').Some?
            && TrimSpace(Cut(TrimSpace(part), '=').value.0) == TrimSpace(a + key + b) == key
            && TrimSpace(Cut(TrimSpace(part), '=').value.1) == TrimSpace(c + value + d) == value
  {
    BlanksPlain(a);
    BlanksPlain(b);
    TrimmedCut(a + key + b, c + value + d);
    TrimsTo(a, key, b);
    TrimsTo(c, value, d);
  }

  lemma BlanksPlain(s: string)
    requires AllIn(s, BLANKS)
    ensures '=' !in s
  {
  }

  /** The two sides of a cut, trimmed, hold only characters of the text. */
  lemma CutTrimmed(s: string, sep: char)
    requires Cut(s, sep).Some?
    ensures var (key, value) := Cut(s, sep).value;
            && Trimmed(TrimSpace(key)) && Trimmed(TrimSpace(value))
            && (forall c | c in TrimSpace(key) :: c in s)
            && (forall c | c in TrimSpace(value) :: c in s)
  {
    CutShape(s, sep);
    var (key, value) := Cut(s, sep).value;
    var left, right := TrimSpaceShape(key);
    var left', right' := TrimSpaceShape(value);
  }
}
