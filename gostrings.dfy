/** The parts of Go's `strings`, `strconv`, `unicode`, `bufio` and `fmt`
    packages that the modelled code relies on, as functions on `string`
    (a sequence of Unicode code points; invalid UTF-8 is not modelled). */
module GoStrings {
  import opened Wrappers
  import opened GoInt

  // ---------------------------------------------------------------- chars

  predicate IsDigit(c: char) {
    '0' <= c <= '9'
  }

  predicate AllDigits(s: string) {
    forall i :: 0 <= i < |s| ==> IsDigit(s[i])
  }

  function DigitValue(c: char): (d: nat)
    requires IsDigit(c)
    ensures d < 10
  {
    c as int - '0' as int
  }

  function DigitChar(d: nat): (c: char)
    requires d < 10
    ensures IsDigit(c) && DigitValue(c) == d
  {
    ('0' as int + d) as char
  }

  /** unicode.IsSpace: the Latin-1 spaces and the White_Space property. */
  predicate IsSpace(c: char) {
    || c == '\t' || c == '\n' || c == '\U{000B}' || c == '\U{000C}' || c == '\r' || c == ' '
    || c == '\U{0085}' || c == '\U{00A0}' || c == '\U{1680}'
    || ('\U{2000}' <= c <= '\U{200A}')
    || c == '\U{2028}' || c == '\U{2029}' || c == '\U{202F}' || c == '\U{205F}' || c == '\U{3000}'
  }

  /** The `\s` class of Go's regexp syntax: `[\t\n\f\r ]`. */
  predicate IsRegexSpace(c: char) {
    c == '\t' || c == '\n' || c == '\U{000C}' || c == '\r' || c == ' '
  }

  predicate AllSpace(s: string) {
    forall i :: 0 <= i < |s| ==> IsSpace(s[i])
  }

  predicate NoSpace(s: string) {
    forall i :: 0 <= i < |s| ==> !IsSpace(s[i])
  }

  // ------------------------------------------------------ prefix / suffix

  predicate HasPrefix(s: string, prefix: string) {
    |prefix| <= |s| && s[..|prefix|] == prefix
  }

  predicate HasSuffix(s: string, suffix: string) {
    |suffix| <= |s| && s[|s| - |suffix|..] == suffix
  }

  /** strings.TrimSuffix */
  function TrimSuffix(s: string, suffix: string): (r: string)
    ensures HasSuffix(s, suffix) ==> r + suffix == s
    ensures !HasSuffix(s, suffix) ==> r == s
  {
    if HasSuffix(s, suffix) then s[..|s| - |suffix|] else s
  }

  /** Trimming a suffix the string was built with gives back the rest. */
  lemma TrimSuffixOfConcat(a: string, b: string)
    ensures HasSuffix(a + b, b) && TrimSuffix(a + b, b) == a
  {
    assert (a + b)[|a|..] == b;
    assert (a + b)[..|a|] == a;
  }

  // ------------------------------------------------------------ trimming

  /** Number of white-space characters at the start of `s`. */
  function LeadingSpaces(s: string): (n: nat)
    ensures n <= |s|
    ensures AllSpace(s[..n])
    ensures n < |s| ==> !IsSpace(s[n])
  {
    if |s| == 0 || !IsSpace(s[0]) then 0
    else
      var m := LeadingSpaces(s[1..]);
      assert s[..m + 1] == [s[0]] + s[1..][..m];
      m + 1
  }

  function TrimLeftSpace(s: string): (r: string)
    ensures |r| <= |s| && r == s[|s| - |r|..]
    ensures AllSpace(s[..|s| - |r|])
    ensures r == [] || !IsSpace(r[0])
  {
    s[LeadingSpaces(s)..]
  }

  function TrimRightSpace(s: string): (r: string)
    ensures |r| <= |s| && r == s[..|r|]
    ensures AllSpace(s[|r|..])
    ensures r == [] || !IsSpace(r[|r| - 1])
  {
    if |s| > 0 && IsSpace(s[|s| - 1]) then
      var r := TrimRightSpace(s[..|s| - 1]);
      assert s[|r|..] == s[..|s| - 1][|r|..] + [s[|s| - 1]];
      r
    else s
  }

  /** strings.TrimSpace: drops leading and trailing white space; the
      result is empty exactly when `s` is all white space. */
  function TrimSpace(s: string): (r: string)
    ensures r == [] <==> AllSpace(s)
    ensures r == [] || (!IsSpace(r[0]) && !IsSpace(r[|r| - 1]))
    ensures |s| > 0 && !IsSpace(s[0]) && !IsSpace(s[|s| - 1]) ==> r == s
  {
    var t := TrimLeftSpace(s);
    var r := TrimRightSpace(t);
    assert r == [] ==> AllSpace(s) by {
      if r == [] {
        assert s == s[..|s| - |t|] + t;
        assert AllSpace(t) by { assert t[|r|..] == t; }
      }
    }
    r
  }

  /** A string that neither starts nor ends with white space is its own
      trimming. */
  lemma TrimSpaceOfTrimmed(s: string)
    requires |s| > 0 && !IsSpace(s[0]) && !IsSpace(s[|s| - 1])
    ensures TrimSpace(s) == s
  {
  }

  // --------------------------------------------------------------- fields

  /** Length of the run of non-space characters at the start of `t`. */
  function WordLength(t: string): (n: nat)
    ensures n <= |t|
    ensures NoSpace(t[..n])
    ensures n == |t| || IsSpace(t[n])
    ensures |t| > 0 && !IsSpace(t[0]) ==> n >= 1
  {
    if |t| == 0 || IsSpace(t[0]) then 0 else 1 + WordLength(t[1..])
  }

  predicate AllWords(ws: seq<string>) {
    forall i :: 0 <= i < |ws| ==> |ws[i]| > 0 && NoSpace(ws[i])
  }

  /** strings.Fields: the maximal runs of non-space characters, in order. */
  function Fields(s: string): (r: seq<string>)
    ensures AllWords(r)
    decreases |s|
  {
    var t := TrimLeftSpace(s);
    if |t| == 0 then []
    else
      var n := WordLength(t);
      var rest := Fields(t[n..]);
      [t[..n]] + rest
  }

  /** A string has no fields exactly when it is all white space. */
  lemma {:induction false} FieldsEmptyIff(s: string)
    ensures Fields(s) == [] <==> AllSpace(s)
    decreases |s|
  {
    var t := TrimLeftSpace(s);
    if |t| == 0 {
      assert s[..|s|] == s;
    } else {
      assert !AllSpace(s) by { assert s[|s| - |t|] == t[0]; }
    }
  }

  // ------------------------------------------------------------ splitting

  /** Number of occurrences of `c` in `s`. */
  function Count(c: char, s: string): nat {
    if |s| == 0 then 0 else (if s[0] == c then 1 else 0) + Count(c, s[1..])
  }

  /** strings.Split with a one-character separator: the pieces between the
      separators, one more piece than there are separators. */
  function Split(s: string, sep: char): (r: seq<string>)
    ensures |r| == Count(sep, s) + 1
    ensures forall i :: 0 <= i < |r| ==> sep !in r[i]
  {
    if |s| == 0 then [""]
    else
      var rest := Split(s[1..], sep);
      if s[0] == sep then [""] + rest else [[s[0]] + rest[0]] + rest[1..]
  }

  /** Splitting a piece that holds no separator, followed by a separator,
      peels that piece off. */
  lemma {:induction false} SplitPrefix(a: string, sep: char, b: string)
    requires sep !in a
    ensures Split(a + [sep] + b, sep) == [a] + Split(b, sep)
  {
    if |a| == 0 {
      assert a + [sep] + b == [sep] + b;
      assert ([sep] + b)[1..] == b;
    } else {
      SplitPrefix(a[1..], sep, b);
      assert (a + [sep] + b)[1..] == a[1..] + [sep] + b;
      assert [a[0]] + a[1..] == a;
    }
  }

  /** A string without the separator splits into itself. */
  lemma {:induction false} SplitNoSeparator(a: string, sep: char)
    requires sep !in a
    ensures Split(a, sep) == [a]
  {
    if |a| > 0 {
      SplitNoSeparator(a[1..], sep);
      assert [a[0]] + a[1..] == a;
    }
  }

  /** Position of the first `c` in `s`. */
  function IndexOf(s: string, c: char): (r: Option<nat>)
    ensures r.Some? ==> r.value < |s| && s[r.value] == c && c !in s[..r.value]
    ensures r.None? ==> c !in s
  {
    if |s| == 0 then None
    else if s[0] == c then Some(0)
    else match IndexOf(s[1..], c)
      case None => None
      case Some(i) => assert s[1..][..i] == s[1..i + 1]; Some(i + 1)
  }

  function DropCR(s: string): (r: string)
    ensures |r| <= |s| && r == s[..|r|]
  {
    if |s| > 0 && s[|s| - 1] == '\r' then s[..|s| - 1] else s
  }

  /** The lines bufio.Scanner yields with ScanLines: text up to each '\n',
      without one trailing '\r'; a final line without '\n' is kept, a
      trailing empty one is not. */
  function Lines(s: string): (r: seq<string>)
    ensures forall i :: 0 <= i < |r| ==> '\n' !in r[i]
    ensures |r| <= |s|
    decreases |s|
  {
    if |s| == 0 then []
    else match IndexOf(s, '\n')
      case Some(i) => [DropCR(s[..i])] + Lines(s[i + 1..])
      case None => [DropCR(s)]
  }

  /** A character absent from the text is absent from each of its lines. */
  lemma {:induction false} LinesAvoid(s: string, c: char)
    requires c !in s
    ensures forall i :: 0 <= i < |Lines(s)| ==> c !in Lines(s)[i]
    decreases |s|
  {
    if |s| > 0 {
      match IndexOf(s, '\n')
      case Some(i) =>
        assert c !in s[..i] && c !in s[i + 1..];
        LinesAvoid(s[i + 1..], c);
      case None =>
    }
  }

  /** A string without a newline scans as that one line (less a final '\r'). */
  lemma LinesSingle(s: string)
    requires |s| > 0 && '\n' !in s
    ensures Lines(s) == [DropCR(s)]
  {
  }

  // ------------------------------------------------------------- numbers

  function DecimalValue(s: string): nat
    requires AllDigits(s)
  {
    if |s| == 0 then 0 else DecimalValue(s[..|s| - 1]) * 10 + DigitValue(s[|s| - 1])
  }

  /** strconv.Atoi (and strconv.ParseInt(s, 10, 64), which accepts the same
      strings on a 64-bit platform): an optional sign, at least one ASCII
      digit, and a value that fits int64. */
  function ParseInt(s: string): (r: Option<int>)
    ensures r.Some? ==> InInt64(r.value)
    ensures r.Some? ==> |s| > 0 && (IsDigit(s[0]) || s[0] == '+' || s[0] == '-')
    ensures AllDigits(s) && |s| > 0 && DecimalValue(s) <= MaxInt64 ==> r == Some(DecimalValue(s) as int)
    ensures AllDigits(s) && DecimalValue(s) > MaxInt64 ==> r == None
  {
    var neg := |s| > 0 && s[0] == '-';
    var body := if |s| > 0 && (s[0] == '+' || s[0] == '-') then s[1..] else s;
    if |body| == 0 || !AllDigits(body) then None
    else
      var v := if neg then -(DecimalValue(body) as int) else DecimalValue(body) as int;
      if InInt64(v) then Some(v) else None
  }

  /** The int strconv.Atoi returns beside its error, for callers that
      discard the error, on a sign and a run of digits: the value, or the
      nearest int64 bound when the digits overflow. The 0 for any other
      string is Go's result only when no overflow comes before the bad
      character; the modelled callers pass digit runs only. */
  function AtoiValue(s: string): (r: int)
    ensures InInt64(r)
    ensures AllDigits(s) && |s| > 0 ==> r == if DecimalValue(s) <= MaxInt64 then DecimalValue(s) else MaxInt64
  {
    var neg := |s| > 0 && s[0] == '-';
    var body := if |s| > 0 && (s[0] == '+' || s[0] == '-') then s[1..] else s;
    if |body| == 0 || !AllDigits(body) then 0
    else if neg then (if -(DecimalValue(body) as int) < MinInt64 then MinInt64 else -(DecimalValue(body) as int))
    else if DecimalValue(body) > MaxInt64 then MaxInt64 else DecimalValue(body)
  }

  /** Decimal digits of `n`, without leading zeros. */
  function NatToString(n: nat): (r: string)
    ensures |r| > 0 && AllDigits(r)
    ensures r[0] == '0' ==> n == 0
  {
    if n < 10 then [DigitChar(n)] else NatToString(n / 10) + [DigitChar(n % 10)]
  }

  /** fmt's `%d`. */
  function IntToString(n: int): string {
    if n < 0 then "-" + NatToString(-n) else NatToString(n)
  }

  function Zeros(k: nat): (r: string)
    ensures |r| == k && AllDigits(r)
  {
    if k == 0 then "" else "0" + Zeros(k - 1)
  }

  /** Left-pads a digit string with '0' to `width` characters. */
  function ZeroPad(s: string, width: int): (r: string)
    ensures |r| >= |s| && |r| >= width
    ensures AllDigits(s) ==> AllDigits(r)
  {
    if |s| >= width then s else Zeros(width - |s|) + s
  }

  /** fmt's `%0<width>d`: the sign counts toward the width and the zeros go
      between the sign and the digits. */
  function FormatIntWidth(n: int, width: int): (r: string)
    ensures |r| >= width
  {
    if n < 0 then "-" + ZeroPad(NatToString(-n), width - 1) else ZeroPad(NatToString(n), width)
  }

  // ---------------------------------------------- round trips of numbers

  lemma {:induction false} DecimalValueOfNatToString(n: nat)
    ensures DecimalValue(NatToString(n)) == n
  {
    if n >= 10 {
      var s := NatToString(n);
      assert s[..|s| - 1] == NatToString(n / 10);
      DecimalValueOfNatToString(n / 10);
    }
  }

  lemma {:induction false} DecimalValueOfZeros(k: nat)
    ensures DecimalValue(Zeros(k)) == 0
  {
    if k > 0 {
      var z := Zeros(k);
      assert z[..k - 1] == Zeros(k - 1) by {
        if k > 1 {
          DropLastZero(k);
        }
      }
      DecimalValueOfZeros(k - 1);
    }
  }

  lemma {:induction false} DropLastZero(k: nat)
    requires k > 0
    ensures Zeros(k)[..k - 1] == Zeros(k - 1) && Zeros(k)[k - 1] == '0'
  {
    if k > 1 {
      DropLastZero(k - 1);
      assert Zeros(k) == "0" + Zeros(k - 1);
    }
  }

  /** Leading zeros do not change a decimal value. */
  lemma {:induction false} DecimalValueIgnoresZeros(k: nat, s: string)
    requires AllDigits(s)
    ensures DecimalValue(Zeros(k) + s) == DecimalValue(s)
    decreases |s|
  {
    var z := Zeros(k) + s;
    if |s| == 0 {
      assert z == Zeros(k);
      DecimalValueOfZeros(k);
    } else {
      assert z[..|z| - 1] == Zeros(k) + s[..|s| - 1];
      DecimalValueIgnoresZeros(k, s[..|s| - 1]);
    }
  }

  /** `%0<width>d` of a natural number reads back as that number. */
  lemma ZeroPadReadsBack(n: nat, width: int)
    ensures AllDigits(ZeroPad(NatToString(n), width))
    ensures DecimalValue(ZeroPad(NatToString(n), width)) == n
  {
    var s := NatToString(n);
    DecimalValueOfNatToString(n);
    if |s| < width {
      DecimalValueIgnoresZeros(width - |s|, s);
    }
  }

  /** `%d` of any int64 value parses back to that value. */
  lemma IntToStringRoundTrip(n: int)
    requires InInt64(n)
    ensures ParseInt(IntToString(n)) == Some(n)
  {
    if n < 0 {
      DecimalValueOfNatToString(-n);
      assert ("-" + NatToString(-n))[1..] == NatToString(-n);
    } else {
      DecimalValueOfNatToString(n);
    }
  }
  /** Different numbers never share a `%0<width>d` rendering. */
  lemma FormatIntWidthInjective(m: int, n: int, width: int)
    requires FormatIntWidth(m, width) == FormatIntWidth(n, width)
    ensures m == n
  {
    if m < 0 && n < 0 {
      NegativeReadsBack(m, width);
      NegativeReadsBack(n, width);
    } else if m >= 0 && n >= 0 {
      ZeroPadReadsBack(m, width);
      ZeroPadReadsBack(n, width);
    } else if m >= 0 {
      NonNegativeStartsWithDigit(m, width);
    } else {
      NonNegativeStartsWithDigit(n, width);
    }
  }

  lemma NegativeReadsBack(n: int, width: int)
    requires n < 0
    ensures FormatIntWidth(n, width)[0] == '-'
    ensures AllDigits(FormatIntWidth(n, width)[1..])
    ensures DecimalValue(FormatIntWidth(n, width)[1..]) == -n
  {
    var d := ZeroPad(NatToString(-n), width - 1);
    var r := FormatIntWidth(n, width);
    assert r == "-" + d;
    assert r[1..] == d;
    ZeroPadReadsBack(-n, width - 1);
  }

  lemma NonNegativeStartsWithDigit(n: int, width: int)
    requires n >= 0
    ensures IsDigit(FormatIntWidth(n, width)[0])
  {
    ZeroPadReadsBack(n, width);
  }
}
