/** Decimal numbers as `%d` prints them and as `strconv.ParseInt(s, 10, 64)` and
    `strconv.Atoi` read them. */
module Decimal {
  import opened Wrappers
  import Text

  const MIN_INT64: int := -0x8000_0000_0000_0000
  const MAX_INT64: int := 0x7FFF_FFFF_FFFF_FFFF

  predicate InInt64(n: int) { MIN_INT64 <= n <= MAX_INT64 }

  predicate IsDigit(c: char) { '0' <= c <= '9' }

  predicate AllDigits(s: string) { forall i | 0 <= i < |s| :: IsDigit(s[i]) }

  function DigitOf(d: nat): char
    requires d < 10
  {
    '0' + d as char
  }

  /** `%d` of a non-negative number. */
  function FormatNat(n: nat): (s: string)
    ensures s != "" && AllDigits(s)
  {
    if n < 10 then [DigitOf(n)] else FormatNat(n / 10) + [DigitOf(n % 10)]
  }

  /** `%d`. */
  function FormatInt(n: int): string {
    if n < 0 then "-" + FormatNat(-n) else FormatNat(n)
  }

  /** The value of a run of digits, most significant first. */
  function DigitsValue(s: string): nat
    requires AllDigits(s)
  {
    if s == "" then 0
    else 10 * DigitsValue(s[..|s| - 1]) + (s[|s| - 1] as int - '0' as int)
  }

  function ParseNat(s: string): Option<int> {
    if s != "" && AllDigits(s) then Some(DigitsValue(s)) else None
  }

  /** A decimal of any size with an optional sign. */
  function ParseDecimal(s: string): Option<int> {
    if s != "" && s[0] == '-' then
      (match ParseNat(s[1..]) case Some(n) => Some(-n) case None => None)
    else if s != "" && s[0] == '+' then ParseNat(s[1..])
    else ParseNat(s)
  }

  /** `strconv.ParseInt(s, 10, 64)`, and `strconv.Atoi` where int has 64 bits:
      an out-of-range number is an error like a malformed one. */
  function ParseInt64(s: string): Option<int> {
    match ParseDecimal(s)
    case Some(n) => if InInt64(n) then Some(n) else None
    case None => None
  }

  lemma {:induction false} DigitsValueOfFormat(n: nat)
    ensures DigitsValue(FormatNat(n)) == n
  {
    if n >= 10 {
      DigitsValueOfFormat(n / 10);
      var s := FormatNat(n);
      assert s[..|s| - 1] == FormatNat(n / 10);
    } else {
      assert FormatNat(n)[..0] == "";
    }
  }

  lemma FormatNatRoundTrip(n: nat)
    ensures ParseNat(FormatNat(n)) == Some(n)
  {
    DigitsValueOfFormat(n);
  }

  /** Reading undoes printing, for every number that fits in 64 bits; a larger
      number is refused. */
  lemma FormatIntRoundTrip(n: int)
    ensures ParseDecimal(FormatInt(n)) == Some(n)
    ensures ParseInt64(FormatInt(n)) == if InInt64(n) then Some(n) else None
  {
    var s := FormatInt(n);
    if n < 0 {
      assert s[1..] == FormatNat(-n);
      FormatNatRoundTrip(-n);
    } else {
      assert IsDigit(s[0]);
      FormatNatRoundTrip(n);
    }
    assert ParseDecimal(s) == Some(n);
  }

  /** A printed number holds only digits and a minus sign, so it never collides
      with a separator of the wire format. */
  lemma FormatIntChars(n: int)
    ensures FormatInt(n) != "" && Text.Trimmed(FormatInt(n))
    ensures forall c | c in FormatInt(n) :: IsDigit(c) || c == '-'
  {
    var s := FormatInt(n);
    if n < 0 {
      assert s[1..] == FormatNat(-n);
      assert IsDigit(s[|s| - 1]);
    } else {
      assert IsDigit(s[0]) && IsDigit(s[|s| - 1]);
    }
  }

  // --------------------------------------------------- which texts are numbers

  /** Printing in base ten, digit by digit. */
  lemma PrintedDigits(n: nat, d: nat)
    requires d < 10
    ensures FormatNat(d) == ["0123456789"[d]]
    ensures n > 0 ==> FormatNat(10 * n + d) == FormatNat(n) + ["0123456789"[d]]
    ensures n > 0 ==> FormatInt(n) == FormatNat(n) && FormatInt(-(n as int)) == "-" + FormatNat(n)
  {
  }

  function Zeros(k: nat): (s: string)
    ensures |s| == k && forall i | 0 <= i < k :: s[i] == '0'
  {
    if k == 0 then "" else Zeros(k - 1) + "0"
  }

  /** The digits of n, possibly after leading zeros. */
  ghost predicate Numeral(s: string, n: nat) {
    exists k: nat :: s == Zeros(k) + FormatNat(n)
  }

  /** The text is n in decimal, with an optional sign and leading zeros. */
  ghost predicate Spells(s: string, n: int) {
    || (n >= 0 && Numeral(s, n))
    || (n >= 0 && s != "" && s[0] == '+' && Numeral(s[1..], n))
    || (n <= 0 && s != "" && s[0] == '-' && Numeral(s[1..], -n))
  }

  /** The text is the decimal of a number that fits in 64 bits. */
  ghost predicate IsInt64(s: string) {
    exists n: int :: InInt64(n) && Spells(s, n)
  }

  lemma {:induction false} ZeroFirst(s: string)
    requires AllDigits(s)
    ensures AllDigits("0" + s) && DigitsValue("0" + s) == DigitsValue(s)
  {
    if s == "" {
      assert "0" + s == "0" && "0"[..0] == "";
    } else {
      var n := |s| - 1;
      assert ("0" + s)[..n + 1] == "0" + s[..n];
      ZeroFirst(s[..n]);
    }
  }

  lemma {:induction false} ZerosFirst(k: nat, s: string)
    requires AllDigits(s)
    ensures AllDigits(Zeros(k) + s) && DigitsValue(Zeros(k) + s) == DigitsValue(s)
  {
    if k == 0 {
      assert Zeros(k) + s == s;
    } else {
      assert Zeros(k) + s == Zeros(k - 1) + ("0" + s);
      ZeroFirst(s);
      ZerosFirst(k - 1, "0" + s);
    }
  }

  lemma NumeralSnoc(front: string, v: nat, d: nat)
    requires d < 10 && Numeral(front, v)
    ensures Numeral(front + [DigitOf(d)], 10 * v + d)
  {
    var k: nat :| front == Zeros(k) + FormatNat(v);
    if v == 0 {
      assert front + [DigitOf(d)] == Zeros(k + 1) + FormatNat(d);
    } else {
      assert FormatNat(10 * v + d) == FormatNat(v) + [DigitOf(d)];
      assert front + [DigitOf(d)] == Zeros(k) + FormatNat(10 * v + d);
    }
  }

  lemma {:induction false} DigitsAreNumeral(s: string)
    requires s != "" && AllDigits(s)
    ensures Numeral(s, DigitsValue(s))
  {
    var front, d := s[..|s| - 1], s[|s| - 1] as int - '0' as int;
    assert s == front + [DigitOf(d)];
    assert DigitsValue(s) == 10 * DigitsValue(front) + d;
    if front == "" {
      assert s == Zeros(0) + FormatNat(d);
      assert Numeral(s, d);
    } else {
      DigitsAreNumeral(front);
      NumeralSnoc(front, DigitsValue(front), d);
    }
  }

  lemma NumeralMeaning(s: string, n: nat)
    ensures ParseNat(s) == Some(n) <==> Numeral(s, n)
  {
    if Numeral(s, n) {
      var k: nat :| s == Zeros(k) + FormatNat(n);
      ZerosFirst(k, FormatNat(n));
      DigitsValueOfFormat(n);
    } else if ParseNat(s) == Some(n) {
      DigitsAreNumeral(s);
    }
  }

  /** Exactly the decimals of 64-bit numbers are read, each as its number. */
  lemma ParseInt64Exactly(s: string, n: int)
    ensures ParseInt64(s) == Some(n) <==> InInt64(n) && Spells(s, n)
  {
    if n >= 0 {
      NumeralMeaning(s, n);
      if s != "" {
        NumeralMeaning(s[1..], n);
      }
    }
    if n <= 0 && s != "" {
      NumeralMeaning(s[1..], -n);
    }
  }

  lemma ParseInt64Refuses(s: string)
    ensures ParseInt64(s).None? <==> !IsInt64(s)
  {
    if ParseInt64(s).Some? {
      ParseInt64Exactly(s, ParseInt64(s).value);
    } else if IsInt64(s) {
      var n: int :| InInt64(n) && Spells(s, n);
      ParseInt64Exactly(s, n);
    }
  }

  // ------------------------------------------------- Atoi with its error ignored

  const MAX_UINT64: int := 0xFFFF_FFFF_FFFF_FFFF

  /** The scan of `strconv.ParseUint`: it stops at the first character that is no digit
      (nothing is read) or at the first overflow (the largest number is read). */
  function ScanUint(n: nat, s: string): Option<nat>
    decreases s
  {
    if s == "" then Some(n)
    else if !IsDigit(s[0]) then None
    else
      var next: nat := 10 * n + (s[0] as int - '0' as int);
      if next > MAX_UINT64 then Some(MAX_UINT64) else ScanUint(next, s[1..])
  }

  /** What `strconv.Atoi` returns beside its error: 0 for malformed text, and the nearest
      64-bit number for a number out of range. */
  function AtoiValue(s: string): (n: int)
    ensures InInt64(n)
  {
    var neg := s != "" && s[0] == '-';
    var digits := if s != "" && (s[0] == '-' || s[0] == '+') then s[1..] else s;
    if digits == "" then 0
    else match ScanUint(0, digits)
      case None => 0
      case Some(n) =>
        if neg then (if n > -MIN_INT64 then MIN_INT64 else -(n as int))
        else if n > MAX_INT64 then MAX_INT64 else n
  }

  lemma {:induction false} DigitsValueGrows(s: string, t: string)
    requires AllDigits(s) && AllDigits(t)
    ensures DigitsValue(s) <= DigitsValue(s + t)
  {
    if t == "" {
      assert s + t == s;
    } else {
      assert (s + t)[..|s + t| - 1] == s + t[..|t| - 1];
      DigitsValueGrows(s, t[..|t| - 1]);
    }
  }

  lemma {:induction false} ScanDigits(read: string, rest: string)
    requires AllDigits(read) && AllDigits(rest) && DigitsValue(read + rest) <= MAX_UINT64
    ensures ScanUint(DigitsValue(read), rest) == Some(DigitsValue(read + rest))
    decreases rest
  {
    if rest == "" {
      assert read + rest == read;
    } else {
      var more := read + [rest[0]];
      assert more[..|more| - 1] == read;
      assert more + rest[1..] == read + rest;
      DigitsValueGrows(more, rest[1..]);
      ScanDigits(more, rest[1..]);
    }
  }

  lemma ScanPrinted(n: nat)
    requires n <= MAX_UINT64
    ensures ScanUint(0, FormatNat(n)) == Some(n)
  {
    DigitsValueOfFormat(n);
    assert "" + FormatNat(n) == FormatNat(n);
    ScanDigits("", FormatNat(n));
  }

  /** Reading undoes printing here too. */
  lemma AtoiRoundTrip(n: int)
    requires InInt64(n)
    ensures AtoiValue(FormatInt(n)) == n
  {
    var s := FormatInt(n);
    if n < 0 {
      ScanPrinted(-n);
      assert s[1..] == FormatNat(-n);
    } else {
      ScanPrinted(n);
      assert IsDigit(s[0]);
    }
  }

  lemma {:induction false} ScanTooLarge(read: string, rest: string)
    requires AllDigits(read) && AllDigits(rest) && DigitsValue(read) <= MAX_UINT64 < DigitsValue(read + rest)
    ensures ScanUint(DigitsValue(read), rest) == Some(MAX_UINT64)
    decreases rest
  {
    assert rest == "" ==> read + rest == read;
    if rest != "" {
      var more := read + [rest[0]];
      assert more[..|more| - 1] == read;
      assert more + rest[1..] == read + rest;
      if DigitsValue(more) <= MAX_UINT64 {
        ScanTooLarge(more, rest[1..]);
      }
    }
  }

  lemma {:induction false} ScanMalformed(read: string, rest: string, j: nat)
    requires AllDigits(read) && j < |rest| && AllDigits(rest[..j]) && !IsDigit(rest[j])
    requires DigitsValue(read + rest[..j]) <= MAX_UINT64
    ensures ScanUint(DigitsValue(read), rest) == None
    decreases j
  {
    DigitsValueGrows(read, rest[..j]);
    if j > 0 {
      var more, after := read + [rest[0]], rest[1..];
      assert more[..|more| - 1] == read;
      assert IsDigit(rest[..j][0]);
      assert after[..j - 1] == rest[..j][1..];
      assert more + after[..j - 1] == read + rest[..j];
      DigitsValueGrows(more, after[..j - 1]);
      ScanMalformed(more, after, j - 1);
    }
  }

  /** The text without its sign. */
  function Unsigned(s: string): string {
    if s != "" && (s[0] == '-' || s[0] == '+') then s[1..] else s
  }

  lemma NumeralScans(s: string, n: nat)
    requires Numeral(s, n)
    ensures s != "" && IsDigit(s[0]) && ScanUint(0, s) == Some(if n > MAX_UINT64 then MAX_UINT64 else n)
  {
    NumeralMeaning(s, n);
    assert "" + s == s;
    if n > MAX_UINT64 {
      ScanTooLarge("", s);
    } else {
      ScanDigits("", s);
    }
  }

  /** With its error ignored, Atoi reads a decimal as the nearest 64-bit number. */
  lemma AtoiDecimal(s: string, n: int)
    requires Spells(s, n)
    ensures AtoiValue(s) == if n > MAX_INT64 then MAX_INT64 else if n < MIN_INT64 then MIN_INT64 else n
  {
    if n >= 0 && Numeral(s, n) {
      NumeralScans(s, n);
    } else if n >= 0 && s[0] == '+' && Numeral(s[1..], n) {
      NumeralScans(s[1..], n);
    } else {
      NumeralScans(s[1..], -n);
    }
  }

  /** And it reads text as 0 that has no digits, or a character after at most 64 bits of
      digits that is no digit. */
  lemma AtoiMalformed(s: string)
    requires var digits := Unsigned(s);
             || digits == ""
             || exists j :: 0 <= j < |digits| && !IsDigit(digits[j]) && AllDigits(digits[..j])
                  && DigitsValue(digits[..j]) <= MAX_UINT64
    ensures AtoiValue(s) == 0
  {
    var digits := Unsigned(s);
    if digits != "" {
      var j :| 0 <= j < |digits| && !IsDigit(digits[j]) && AllDigits(digits[..j])
        && DigitsValue(digits[..j]) <= MAX_UINT64;
      assert "" + digits[..j] == digits[..j];
      ScanMalformed("", digits, j);
    }
  }
}
