/** key=value text: the device-info and registry parser of parser.go. */
module KeyValues {
  import opened Wrappers
  import opened Text

  type Pairs = seq<Option<(string, string)>>

  /** The pair of a part, or nothing if the part has no `=`. */
  function PairOf(part: string): Option<(string, string)> {
    match Cut(part, '=')
    case None => None
    case Some((key, value)) => Some((TrimSpace(key), TrimSpace(value)))
  }

  function TrimTildePrefix(s: string): string {
    if s != "" && s[0] == '~' then s[1..] else s
  }

  /** A key as it is stored: registry keys lose a leading tilde. */
  function StoredKey(key: string, trimTilde: bool): string {
    if trimTilde then TrimTildePrefix(key) else key
  }

  function InfoPair(part: string, trimTilde: bool): Option<(string, string)> {
    match PairOf(TrimSpace(part))
    case None => None
    case Some((key, value)) => Some((StoredKey(key, trimTilde), value))
  }

  function InfoPairs(parts: seq<string>, trimTilde: bool): (pairs: Pairs)
    ensures |pairs| == |parts|
  {
    seq(|parts|, i requires 0 <= i < |parts| => InfoPair(parts[i], trimTilde))
  }

  /** The map that writing the pairs in order leaves. */
  function Written(pairs: Pairs): map<string, string> {
    if pairs == [] then map[]
    else
      var n := |pairs| - 1;
      var front := Written(pairs[..n]);
      match pairs[n]
      case None => front
      case Some((key, value)) => front[key := value]
  }

  /** What a body says: its pairs, written in order. */
  function Info(data: string, sep: char, trimTilde: bool): map<string, string> {
    Written(InfoPairs(Split(TrimSpace(data), sep), trimTilde))
  }

  /** A registry body is separated by commas and its keys may carry a tilde. */
  function RegistryInfo(body: string): map<string, string> {
    Info(body, ',', true)
  }

  /** Maps merged in order, each over the ones before it. */
  function MergeAll(infos: seq<map<string, string>>): map<string, string> {
    if infos == [] then map[] else MergeAll(infos[..|infos| - 1]) + infos[|infos| - 1]
  }

  /** A key's value comes from the last map that has the key, and a key that no map has is
      absent. */
  lemma {:induction false} MergeAllMeaning(infos: seq<map<string, string>>, key: string)
    ensures key !in MergeAll(infos) <==> forall i | 0 <= i < |infos| :: key !in infos[i]
    ensures key in MergeAll(infos) ==>
              exists i :: 0 <= i < |infos| && key in infos[i] && MergeAll(infos)[key] == infos[i][key]
                && forall j | i < j < |infos| :: key !in infos[j]
  {
    if infos != [] {
      var n := |infos| - 1;
      var front := infos[..n];
      MergeAllMeaning(front, key);
      assert forall i | 0 <= i < n :: front[i] == infos[i];
      if key in infos[n] {
        assert MergeAll(infos)[key] == infos[n][key];
      } else if key in MergeAll(front) {
        var i :| 0 <= i < n && key in front[i] && MergeAll(front)[key] == front[i][key]
          && forall j | i < j < n :: key !in front[j];
        assert key in infos[i];
        forall j | i < j < |infos|
          ensures key !in infos[j]
        {
          if j < n {
            assert front[j] == infos[j];
          }
        }
      }
    }
  }

  /** The last pair with a key decides its value, and a key with no pair is absent. */
  lemma {:induction false} WrittenMeaning(pairs: Pairs, key: string)
    ensures key !in Written(pairs) <==> forall i | 0 <= i < |pairs| && pairs[i].Some? :: pairs[i].value.0 != key
    ensures key in Written(pairs) ==>
              exists i :: 0 <= i < |pairs| && pairs[i] == Some((key, Written(pairs)[key]))
                && forall j | i < j < |pairs| && pairs[j].Some? :: pairs[j].value.0 != key
  {
    if pairs != [] {
      var n := |pairs| - 1;
      var front := pairs[..n];
      WrittenMeaning(front, key);
      if pairs[n].Some? && pairs[n].value.0 == key {
        assert pairs[n] == Some((key, Written(pairs)[key]));
      } else if key in Written(front) {
        var i :| 0 <= i < n && front[i] == Some((key, Written(front)[key]))
          && forall j | i < j < n && front[j].Some? :: front[j].value.0 != key;
        assert pairs[i] == Some((key, Written(pairs)[key]));
        forall j | i < j < |pairs| && pairs[j].Some?
          ensures pairs[j].value.0 != key
        {
          if j < n {
            assert front[j].Some?;
          }
        }
      }
      assert forall i | 0 <= i < n :: front[i] == pairs[i];
    }
  }

  lemma WrittenSnoc(pairs: Pairs, pair: Option<(string, string)>)
    ensures Written(pairs + [pair]) ==
            if pair.None? then Written(pairs) else Written(pairs)[pair.value.0 := pair.value.1]
  {
    assert (pairs + [pair])[..|pairs|] == pairs;
  }

  /** The parser. */
  method ParseKVPairs(data: string, sep: char, trimTilde: bool) returns (info: map<string, string>)
    ensures info == Info(data, sep, trimTilde)
  {
    info := map[];
    var parts := Split(TrimSpace(data), sep);
    ghost var pairs := InfoPairs(parts, trimTilde);
    for i := 0 to |parts|
      invariant info == Written(pairs[..i])
    {
      OneMorePair(pairs, i);
      assert pairs[i] == InfoPair(parts[i], trimTilde);
      var part := TrimSpace(parts[i]);
      var pair := Cut(part, '=');
      if pair.Some? {
        var (key, value) := pair.value;
        var k := TrimSpace(key);
        if trimTilde {
          k := TrimTildePrefix(k);
        }
        assert pairs[i] == Some((k, TrimSpace(value)));
        info := info[k := TrimSpace(value)];
      }
    }
    assert pairs[..|parts|] == pairs;
  }

  lemma OneMorePair(pairs: Pairs, i: nat)
    requires i < |pairs|
    ensures Written(pairs[..i + 1]) ==
            if pairs[i].None? then Written(pairs[..i]) else Written(pairs[..i])[pairs[i].value.0 := pairs[i].value.1]
  {
    assert pairs[..i + 1] == pairs[..i] + [pairs[i]];
    WrittenSnoc(pairs[..i], pairs[i]);
  }

  // ------------------------------------------------------------ what a text says

  /** The pairs of a text, without trimming the text first. */
  function PairsIn(data: string, sep: char, trimTilde: bool): Pairs {
    InfoPairs(Split(data, sep), trimTilde)
  }

  lemma BlankBefore(c: char, part: string, trimTilde: bool)
    requires c in BLANKS
    ensures InfoPair([c] + part, trimTilde) == InfoPair(part, trimTilde)
  {
    TrimLeftAll([c], part, BLANKS);
  }

  lemma BlankAfter(part: string, c: char, trimTilde: bool)
    requires c in BLANKS
    ensures InfoPair(part + [c], trimTilde) == InfoPair(part, trimTilde)
  {
    var l, r := TrimSpaceShape(part);
    assert part + [c] == l + TrimSpace(part) + (r + [c]);
    TrimsTo(l, TrimSpace(part), r + [c]);
  }

  lemma InfoPairsConcat(a: seq<string>, b: seq<string>, trimTilde: bool)
    ensures InfoPairs(a + b, trimTilde) == InfoPairs(a, trimTilde) + InfoPairs(b, trimTilde)
  {
  }

  lemma {:induction false} WithoutNone(a: Pairs, b: Pairs)
    ensures Written(a + [None] + b) == Written(a + b)
  {
    if b == [] {
      assert a + [None] + b == a + [None] && a + b == a;
      WrittenSnoc(a, None);
    } else {
      var front, pair := b[..|b| - 1], b[|b| - 1];
      assert a + [None] + b == (a + [None] + front) + [pair] && a + b == (a + front) + [pair];
      WithoutNone(a, front);
      WrittenSnoc(a + [None] + front, pair);
      WrittenSnoc(a + front, pair);
    }
  }

  lemma NoneFirst(pairs: Pairs)
    ensures Written([None] + pairs) == Written(pairs)
  {
    WithoutNone([], pairs);
    assert [] + [None] + pairs == [None] + pairs && [] + pairs == pairs;
  }

  lemma NothingRead(trimTilde: bool)
    ensures InfoPairs([""], trimTilde) == [None]
  {
  }

  lemma FirstPadded(lines: seq<string>, c: char, trimTilde: bool)
    requires lines != [] && c in BLANKS
    ensures InfoPairs([[c] + lines[0]] + lines[1..], trimTilde) == InfoPairs(lines, trimTilde)
  {
    BlankBefore(c, lines[0], trimTilde);
  }

  lemma LastPadded(lines: seq<string>, c: char, trimTilde: bool)
    requires lines != [] && c in BLANKS
    ensures InfoPairs(Longer(lines, c), trimTilde) == InfoPairs(lines, trimTilde)
  {
    BlankAfter(lines[|lines| - 1], c, trimTilde);
  }

  lemma FrontBlank(c: char, s: string, sep: char, trimTilde: bool)
    requires c in BLANKS
    ensures Written(PairsIn([c] + s, sep, trimTilde)) == Written(PairsIn(s, sep, trimTilde))
  {
    var lines := Split(s, sep);
    assert ([c] + s)[1..] == s;
    if c == sep {
      NothingRead(trimTilde);
      InfoPairsConcat([""], lines, trimTilde);
      NoneFirst(InfoPairs(lines, trimTilde));
    } else {
      FirstPadded(lines, c, trimTilde);
    }
  }

  lemma BackBlank(s: string, c: char, sep: char, trimTilde: bool)
    requires c in BLANKS
    ensures Written(PairsIn(s + [c], sep, trimTilde)) == Written(PairsIn(s, sep, trimTilde))
  {
    var lines := Split(s, sep);
    if c == sep {
      SplitConcat(s, "", sep);
      assert s + [c] == s + [sep] + "";
      NothingRead(trimTilde);
      InfoPairsConcat(lines, [""], trimTilde);
      WrittenSnoc(InfoPairs(lines, trimTilde), None);
    } else {
      SplitSnoc(s, c, sep);
      LastPadded(lines, c, trimTilde);
    }
  }

  lemma {:induction false} FrontBlanks(l: string, s: string, sep: char, trimTilde: bool)
    requires AllIn(l, BLANKS)
    ensures Written(PairsIn(l + s, sep, trimTilde)) == Written(PairsIn(s, sep, trimTilde))
  {
    if l == "" {
      assert l + s == s;
    } else {
      assert l + s == [l[0]] + (l[1..] + s);
      FrontBlank(l[0], l[1..] + s, sep, trimTilde);
      FrontBlanks(l[1..], s, sep, trimTilde);
    }
  }

  lemma {:induction false} BackBlanks(s: string, r: string, sep: char, trimTilde: bool)
    requires AllIn(r, BLANKS)
    ensures Written(PairsIn(s + r, sep, trimTilde)) == Written(PairsIn(s, sep, trimTilde))
  {
    if r == "" {
      assert s + r == s;
    } else {
      var n := |r| - 1;
      assert s + r == (s + r[..n]) + [r[n]];
      BackBlank(s + r[..n], r[n], sep, trimTilde);
      BackBlanks(s, r[..n], sep, trimTilde);
    }
  }

  /** Trimming the whole text changes nothing that it says. */
  lemma OuterTrimHarmless(data: string, sep: char, trimTilde: bool)
    ensures Info(data, sep, trimTilde) == Written(PairsIn(data, sep, trimTilde))
  {
    var l, r := TrimSpaceShape(data);
    var t := TrimSpace(data);
    assert data == l + (t + r);
    FrontBlanks(l, t + r, sep, trimTilde);
    BackBlanks(t, r, sep, trimTilde);
  }

  /** A text joined from two says what the first says and then what the second says. */
  lemma InfoConcat(a: string, b: string, sep: char, trimTilde: bool)
    ensures Info(a + [sep] + b, sep, trimTilde) ==
            Written(PairsIn(a, sep, trimTilde) + PairsIn(b, sep, trimTilde))
  {
    OuterTrimHarmless(a + [sep] + b, sep, trimTilde);
    SplitConcat(a, b, sep);
    InfoPairsConcat(Split(a, sep), Split(b, sep), trimTilde);
  }

  /** A part without `=` says nothing, wherever it stands. */
  lemma ForeignPart(a: string, part: string, b: string, sep: char, trimTilde: bool)
    requires sep !in part && '=' !in part
    ensures Info(a + [sep] + part + [sep] + b, sep, trimTilde) == Info(a + [sep] + b, sep, trimTilde)
  {
    var pa, pb := PairsIn(a, sep, trimTilde), PairsIn(b, sep, trimTilde);
    InfoConcat(a + [sep] + part, b, sep, trimTilde);
    SplitConcat(a, part, sep);
    SplitNone(part, sep);
    InfoPairsConcat(Split(a, sep), [part], trimTilde);
    assert InfoPairs([part], trimTilde) == [None] by {
      var l, r := TrimSpaceShape(part);
      CutShape(TrimSpace(part), '=');
    }
    WithoutNone(pa, pb);
    InfoConcat(a, b, sep, trimTilde);
  }

  // ------------------------------------------------------------------ round trips

  /** A pair as a device writes it, with a tilde before its key or not. */
  function PairText(pair: (string, string), tilde: bool): string {
    (if tilde then "~" else "") + pair.0 + ['='] + pair.1
  }

  function PairTexts(pairs: seq<(string, string)>, tildes: seq<bool>): (texts: seq<string>)
    requires |tildes| == |pairs|
    ensures |texts| == |pairs|
    ensures forall i | 0 <= i < |pairs| :: texts[i] == PairText(pairs[i], tildes[i])
  {
    seq(|pairs|, i requires 0 <= i < |pairs| => PairText(pairs[i], tildes[i]))
  }

  function AllRead(pairs: seq<(string, string)>): (read: Pairs)
    ensures |read| == |pairs|
    ensures forall i | 0 <= i < |pairs| :: read[i] == Some(pairs[i])
  {
    seq(|pairs|, i requires 0 <= i < |pairs| => Some(pairs[i]))
  }

  /** A pair that a text with the separator can carry. */
  predicate Carried(pair: (string, string), sep: char) {
    Trimmed(pair.0) && Trimmed(pair.1) && '=' !in pair.0 && sep !in pair.0 && sep !in pair.1
  }

  lemma PairTextRead(pair: (string, string), tilde: bool, sep: char, trimTilde: bool)
    requires Carried(pair, sep) && sep != '=' && sep != '~'
    requires (tilde ==> trimTilde) && (trimTilde ==> pair.0 == "" || pair.0[0] != '~')
    ensures sep !in PairText(pair, tilde) && InfoPair(PairText(pair, tilde), trimTilde) == Some(pair)
  {
    var left := (if tilde then "~" else "") + pair.0;
    TrimmedCut(left, pair.1);
    TrimSpaceIdentity(left);
    TrimSpaceIdentity(pair.1);
    assert tilde ==> left[1..] == pair.0;
    assert !tilde ==> left == pair.0;
  }

  /** Printed pairs are read back to the map that writes them in order. Where tildes are
      trimmed, each key may be printed with one in front; elsewhere a tilde is a part of its
      key. */
  lemma PairsRoundTrip(pairs: seq<(string, string)>, tildes: seq<bool>, sep: char, trimTilde: bool)
    requires |tildes| == |pairs| && sep != '=' && sep != '~'
    requires forall i | 0 <= i < |pairs| :: Carried(pairs[i], sep) && (tildes[i] ==> trimTilde)
    requires trimTilde ==> forall i | 0 <= i < |pairs| :: pairs[i].0 == "" || pairs[i].0[0] != '~'
    ensures Info(Join(PairTexts(pairs, tildes), sep), sep, trimTilde) == Written(AllRead(pairs))
  {
    var texts := PairTexts(pairs, tildes);
    forall i | 0 <= i < |pairs|
      ensures sep !in texts[i] && InfoPair(texts[i], trimTilde) == Some(pairs[i])
    {
      PairTextRead(pairs[i], tildes[i], sep, trimTilde);
    }
    OuterTrimHarmless(Join(texts, sep), sep, trimTilde);
    if pairs != [] {
      SplitJoin(texts, sep);
      assert InfoPairs(texts, trimTilde) == AllRead(pairs);
    } else {
      assert PairsIn("", sep, trimTilde) == [None] && AllRead(pairs) == [];
    }
  }

  /** The registry form: comma-separated, any key with a tilde in front or not. */
  lemma RegistryRoundTrip(pairs: seq<(string, string)>, tildes: seq<bool>)
    requires |tildes| == |pairs|
    requires forall i | 0 <= i < |pairs| :: Carried(pairs[i], ',')
    requires forall i | 0 <= i < |pairs| :: pairs[i].0 == "" || pairs[i].0[0] != '~'
    ensures RegistryInfo(Join(PairTexts(pairs, tildes), ',')) == Written(AllRead(pairs))
  {
    PairsRoundTrip(pairs, tildes, ',', true);
  }

  /** The device-info form: one pair a line, and a tilde stays in its key. */
  lemma DeviceInfoRoundTrip(pairs: seq<(string, string)>)
    requires forall i | 0 <= i < |pairs| :: Carried(pairs[i], '\n')
    ensures Info(Join(PairTexts(pairs, seq(|pairs|, _ => false)), '\n'), '\n', false) == Written(AllRead(pairs))
  {
    PairsRoundTrip(pairs, seq(|pairs|, _ => false), '\n', false);
  }

  /** A pair with blanks around its key and value says the same as the plain pair. */
  lemma PaddedPairRead(left: string, right: string, trimTilde: bool)
    requires '=' !in left
    ensures InfoPair(left + ['='] + right, trimTilde) ==
            InfoPair(TrimSpace(left) + ['='] + TrimSpace(right), trimTilde)
    ensures PairOf(left + ['='] + right) == Some((TrimSpace(left), TrimSpace(right)))
  {
    var l, r := TrimSpaceShape(left);
    var l', r' := TrimSpaceShape(right);
    TrimmedCut(left, right);
    TrimmedCut(TrimSpace(left), TrimSpace(right));
    TrimSpaceIdentity(TrimSpace(left));
    TrimSpaceIdentity(TrimSpace(right));
  }
}
