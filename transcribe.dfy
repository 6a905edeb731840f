/** The text side of internal/audio/transcribe.go: whisper timestamps, the
    segment lines and progress lines whisper prints, the fallback to the
    plain transcript, and how extraction and recognition share the
    progress range. Running ffmpeg and whisper, reading their pipes,
    downloading the model and touching files are I/O: the model starts
    from the text those steps produce. */
module Transcribe {
  import opened Wrappers
  import opened GoInt
  import opened GoStrings

  /** One recognised stretch of speech: start and end in nanoseconds. */
  datatype Segment = Segment(start: Int64, end: Int64, text: string)

  datatype TimestampError = InvalidFormat | BadNumber

  // ------------------------------------------------------------ timestamps

  /** The Duration `h` hours + `m` minutes + `s` seconds + `ms`
      milliseconds, computed with int64 products and sums. */
  function DurationOf(h: int, m: int, s: int, ms: int): (d: int)
    ensures InInt64(d)
    ensures d == Wrap(h * Hour + m * Minute + s * Second + ms * Millisecond)
  {
    WrapSum(h * Hour, m * Minute, s * Second, ms * Millisecond);
    Wrap(Wrap(Wrap(Wrap(h * Hour) + Wrap(m * Minute)) + Wrap(s * Second)) + Wrap(ms * Millisecond))
  }

  /** Wrapping after each of three additions is wrapping the total once. */
  lemma WrapSum(a: int, b: int, c: int, e: int)
    ensures Wrap(Wrap(Wrap(Wrap(a) + Wrap(b)) + Wrap(c)) + Wrap(e)) == Wrap(a + b + c + e)
  {
    WrapAdd(a, b);
    WrapAdd(a + b, c);
    WrapAdd(a + b + c, e);
  }

  /** parseTimestamp: `H:M:S` or `H:M:S.F`, each part strconv.Atoi; the
      part after the first '.' of the seconds is taken as a count of
      milliseconds as it stands (".5" is 5 ms), anything after a second '.'
      is ignored, and a missing fraction means 0 ms. */
  function ParseTimestamp(ts: string): (r: Result<int, TimestampError>)
    ensures Count(':', ts) != 2 <==> r == Failure(InvalidFormat)
    ensures r.Success? ==> InInt64(r.value)
  {
    var parts := Split(ts, ':');
    if |parts| != 3 then Failure(InvalidFormat)
    else
      var hours := ParseInt(parts[0]);
      var minutes := ParseInt(parts[1]);
      var secParts := Split(parts[2], '.');
      var seconds := ParseInt(secParts[0]);
      var millis := if |secParts| > 1 then ParseInt(secParts[1]) else Some(0);
      if hours.None? || minutes.None? || seconds.None? || millis.None? then Failure(BadNumber)
      else Success(DurationOf(hours.value, minutes.value, seconds.value, millis.value))
  }

  /** The value the caller keeps when it discards parseTimestamp's error. */
  function TimestampOrZero(ts: string): Int64 {
    match ParseTimestamp(ts)
    case Success(d) => d
    case Failure(_) => 0
  }

  /** `HH:MM:SS.mmm` as whisper prints it. */
  function FormatTimestamp(h: nat, m: nat, s: nat, ms: nat): string {
    ZeroPad(NatToString(h), 2) + [':'] + ZeroPad(NatToString(m), 2) + [':']
    + ZeroPad(NatToString(s), 2) + ['.'] + ZeroPad(NatToString(ms), 3)
  }

  /** A zero-padded number reads back through Atoi. */
  lemma PaddedParses(n: nat, width: int)
    requires n <= MaxInt64
    ensures ParseInt(ZeroPad(NatToString(n), width)) == Some(n)
    ensures ':' !in ZeroPad(NatToString(n), width) && '.' !in ZeroPad(NatToString(n), width)
  {
    var d := ZeroPad(NatToString(n), width);
    ZeroPadReadsBack(n, width);
    assert forall k :: 0 <= k < |d| ==> d[k] != ':' && d[k] != '.';
  }

  lemma SplitTwo(a: string, b: string, sep: char)
    requires sep !in a && sep !in b
    ensures Split(a + [sep] + b, sep) == [a, b]
  {
    SplitPrefix(a, sep, b);
    SplitNoSeparator(b, sep);
  }

  lemma SplitThree(a: string, b: string, c: string, sep: char)
    requires sep !in a && sep !in b && sep !in c
    ensures Split(a + [sep] + b + [sep] + c, sep) == [a, b, c]
  {
    assert a + [sep] + b + [sep] + c == a + [sep] + (b + [sep] + c);
    SplitPrefix(a, sep, b + [sep] + c);
    SplitTwo(b, c, sep);
  }

  /** A timestamp made of four pieces without separators parses as the
      Duration of the four numbers the pieces spell. */
  lemma ParseTimestampOfParts(a: string, b: string, c: string, d: string)
    requires ':' !in a && ':' !in b && ':' !in c && ':' !in d && '.' !in c && '.' !in d
    requires ParseInt(a).Some? && ParseInt(b).Some? && ParseInt(c).Some? && ParseInt(d).Some?
    ensures ParseTimestamp(a + [':'] + b + [':'] + c + ['.'] + d)
         == Success(DurationOf(ParseInt(a).value, ParseInt(b).value, ParseInt(c).value, ParseInt(d).value))
  {
    var tail := c + ['.'] + d;
    assert a + [':'] + b + [':'] + c + ['.'] + d == a + [':'] + b + [':'] + tail;
    assert ':' !in tail;
    SplitThree(a, b, tail, ':');
    SplitTwo(c, d, '.');
  }

  /** Every timestamp whisper prints parses back to its value: hours,
      minutes, seconds and milliseconds in their units. */
  lemma ParseTimestampRoundTrip(h: nat, m: nat, s: nat, ms: nat)
    requires h * Hour + m * Minute + s * Second + ms * Millisecond <= MaxInt64
    ensures ParseTimestamp(FormatTimestamp(h, m, s, ms)) == Success(DurationOf(h, m, s, ms))
    ensures DurationOf(h, m, s, ms) == h * Hour + m * Minute + s * Second + ms * Millisecond
  {
    var hs, mins, ss, mss := ZeroPad(NatToString(h), 2), ZeroPad(NatToString(m), 2),
                             ZeroPad(NatToString(s), 2), ZeroPad(NatToString(ms), 3);
    PaddedParses(h, 2);
    PaddedParses(m, 2);
    PaddedParses(s, 2);
    PaddedParses(ms, 3);
    ParseTimestampOfParts(hs, mins, ss, mss);
    assert ParseTimestamp(FormatTimestamp(h, m, s, ms)) == Success(DurationOf(h, m, s, ms));
    var total := h * Hour + m * Minute + s * Second + ms * Millisecond;
    assert InInt64(total) by {
      ProductNonNegative(h, Hour);
      ProductNonNegative(m, Minute);
      ProductNonNegative(s, Second);
      ProductNonNegative(ms, Millisecond);
    }
    assert DurationOf(h, m, s, ms) == Wrap(total);
    assert Wrap(total) == total;
  }

  lemma ProductNonNegative(a: nat, b: nat)
    ensures a * b >= 0
  {
  }

  /** A timestamp without two ':' is rejected ("invalid", "00:00"). */
  lemma ParseTimestampRejects()
    ensures ParseTimestamp("invalid") == Failure(InvalidFormat)
    ensures ParseTimestamp("00:00") == Failure(InvalidFormat)
  {
    NoColon();
    OneColon();
  }

  lemma NoColon()
    ensures Count(':', "invalid") == 0
  {
    SplitNoSeparator("invalid", ':');
  }

  lemma OneColon()
    ensures Count(':', "00:00") == 1
  {
    assert "00:00" == "00" + [':'] + "00";
    SplitTwo("00", "00", ':');
  }

  lemma DoubleZero()
    ensures ParseInt("00") == Some(0)
    ensures ':' !in "00" && '.' !in "00"
  {
    assert "00"[..1] == "0";
    assert DecimalValue("0") == 0;
    assert DecimalValue("00") == 0;
  }

  /** A timestamp of three pieces without separators has no fraction and
      so 0 milliseconds. */
  lemma ParseTimestampOfThree(a: string, b: string, c: string)
    requires ':' !in a && ':' !in b && ':' !in c && '.' !in c
    requires ParseInt(a).Some? && ParseInt(b).Some? && ParseInt(c).Some?
    ensures ParseTimestamp(a + [':'] + b + [':'] + c)
         == Success(DurationOf(ParseInt(a).value, ParseInt(b).value, ParseInt(c).value, 0))
  {
    SplitThree(a, b, c, ':');
    SplitNoSeparator(c, '.');
  }

  /** Without a fraction the milliseconds are 0 ("00:00:00" is 0). */
  lemma ParseTimestampNoFraction()
    ensures ParseTimestamp("00:00:00") == Success(0)
  {
    DoubleZero();
    assert "00:00:00" == "00" + [':'] + "00" + [':'] + "00";
    ParseTimestampOfThree("00", "00", "00");
  }

  /** A one-digit fraction counts milliseconds, not tenths: "00:00:00.5" is
      5 ms. */
  lemma ParseTimestampShortFraction()
    ensures ParseTimestamp("00:00:00.5") == Success(5 * Millisecond)
  {
    DoubleZero();
    Five();
    ShortFractionPieces();
    ParseTimestampOfParts("00", "00", "00", "5");
    FiveMilliseconds();
  }

  lemma ShortFractionPieces()
    ensures "00:00:00.5" == "00" + [':'] + "00" + [':'] + "00" + ['.'] + "5"
  {
  }

  lemma FiveMilliseconds()
    ensures DurationOf(0, 0, 0, 5) == 5 * Millisecond
  {
    assert InInt64(5 * Millisecond);
  }

  lemma Five()
    ensures ParseInt("5") == Some(5)
    ensures ':' !in "5" && '.' !in "5"
  {
  }

  // --------------------------------------------------- whisper segment lines

  /** The shape `\d{2}:\d{2}:\d{2}\.\d{3}`. */
  predicate IsTimestampShape(t: string) {
    |t| == 12
    && IsDigit(t[0]) && IsDigit(t[1]) && t[2] == ':'
    && IsDigit(t[3]) && IsDigit(t[4]) && t[5] == ':'
    && IsDigit(t[6]) && IsDigit(t[7]) && t[8] == '.'
    && IsDigit(t[9]) && IsDigit(t[10]) && IsDigit(t[11])
  }

  /** First position at or after `i` that is not a `\s` character. */
  function SkipRegexSpace(line: string, i: nat): (j: nat)
    requires i <= |line|
    ensures i <= j <= |line|
    ensures forall k :: i <= k < j ==> IsRegexSpace(line[k])
    ensures j < |line| ==> !IsRegexSpace(line[j])
    decreases |line| - i
  {
    if i < |line| && IsRegexSpace(line[i]) then SkipRegexSpace(line, i + 1) else i
  }

  /** The submatches of `\[(ts)\s*-->\s*(ts)\]\s*(.*)`. */
  datatype SegmentMatch = SegmentMatch(startTs: string, endTs: string, text: string)

  /** The match of the segment pattern that starts at `p`, if any. Each
      `\s*` is greedy and the token after it does not begin with a space,
      so the first way of matching is the only one; `(.*)` takes the rest
      of the line. */
  function SegmentMatchAt(line: string, p: nat): (r: Option<SegmentMatch>)
    requires p <= |line|
    ensures r.Some? ==> p < |line| && line[p] == '['
    ensures r.Some? ==> IsTimestampShape(r.value.startTs) && IsTimestampShape(r.value.endTs)
  {
    if p + 13 > |line| || line[p] != '[' || !IsTimestampShape(line[p + 1..p + 13]) then None
    else
      var q := SkipRegexSpace(line, p + 13);
      if q + 3 > |line| || line[q..q + 3] != "-->" then None
      else
        var q2 := SkipRegexSpace(line, q + 3);
        if q2 + 13 > |line| || !IsTimestampShape(line[q2..q2 + 12]) || line[q2 + 12] != ']' then None
        else
          var q3 := SkipRegexSpace(line, q2 + 13);
          Some(SegmentMatch(line[p + 1..p + 13], line[q2..q2 + 12], line[q3..]))
  }

  /** FindStringSubmatch: the leftmost match at or after `p`. */
  function FindSegment(line: string, p: nat): (r: Option<SegmentMatch>)
    requires p <= |line|
    ensures '[' !in line[p..] ==> r == None
    decreases |line| - p
  {
    if p == |line| then None
    else
      assert line[p] == line[p..][0] && line[p + 1..] == line[p..][1..];
      match SegmentMatchAt(line, p)
      case Some(m) => Some(m)
      case None => FindSegment(line, p + 1)
  }

  /** The segment a line contributes, if any: a matching line whose
      trimmed text is not empty. */
  function SegmentOfLine(line: string): (r: Option<Segment>)
    ensures r.Some? ==> r.value.text != [] && TrimSpace(r.value.text) == r.value.text
    ensures '[' !in line ==> r == None
  {
    assert line[0..] == line;
    match FindSegment(line, 0)
    case None => None
    case Some(m) =>
      var text := TrimSpace(m.text);
      if text == "" then None
      else Some(Segment(TimestampOrZero(m.startTs), TimestampOrZero(m.endTs), text))
  }

  /** The segments of a sequence of lines, in line order. */
  function SegmentsOf(lines: seq<string>): (r: seq<Segment>)
    ensures |r| <= |lines|
    ensures forall k :: 0 <= k < |r| ==> r[k].text != [] && TrimSpace(r[k].text) == r[k].text
  {
    if |lines| == 0 then []
    else
      var seg := SegmentOfLine(lines[|lines| - 1]);
      SegmentsOf(lines[..|lines| - 1]) + if seg.Some? then [seg.value] else []
  }

  /** parseWhisperOutput: one segment per line that matches the pattern and
      has text. */
  method ParseWhisperOutput(output: string) returns (segments: seq<Segment>)
    ensures segments == SegmentsOf(Lines(output))
  {
    var lines := Lines(output);
    segments := [];
    for i := 0 to |lines|
      invariant segments == SegmentsOf(lines[..i])
    {
      SegmentsOfPrefix(lines, i);
      var seg := LineSegment(lines[i]);
      if seg.Some? {
        segments := segments + [seg.value];
      }
    }
    assert lines[..|lines|] == lines;
  }

  lemma SegmentsOfPrefix(lines: seq<string>, i: nat)
    requires i < |lines|
    ensures SegmentsOf(lines[..i + 1])
         == SegmentsOf(lines[..i]) + if SegmentOfLine(lines[i]).Some? then [SegmentOfLine(lines[i]).value] else []
  {
    assert lines[..i + 1][..i] == lines[..i];
  }

  /** The loop body of parseWhisperOutput for one line. */
  method LineSegment(line: string) returns (seg: Option<Segment>)
    ensures seg == SegmentOfLine(line)
  {
    assert line[0..] == line;
    var matches := FindSegment(line, 0);
    seg := None;
    if matches.Some? {
      var start := TimestampOrZero(matches.value.startTs);
      var end := TimestampOrZero(matches.value.endTs);
      var text := TrimSpace(matches.value.text);
      if text != "" {
        seg := Some(Segment(start, end, text));
      }
    }
  }

  /** Output without a '[' (empty output, plain log lines) has no
      segments. */
  lemma NoBracketNoSegments(output: string)
    requires '[' !in output
    ensures SegmentsOf(Lines(output)) == []
  {
    LinesAvoid(output, '[');
    NoBracketLines(Lines(output));
  }

  lemma {:induction false} NoBracketLines(lines: seq<string>)
    requires forall i :: 0 <= i < |lines| ==> '[' !in lines[i]
    ensures SegmentsOf(lines) == []
  {
    if |lines| > 0 {
      NoBracketLines(lines[..|lines| - 1]);
    }
  }

  /** A line as whisper prints it. */
  function SegmentLine(startTs: string, endTs: string, text: string): string {
    "[" + startTs + " --> " + endTs + "]  " + text
  }

  /** A line whisper prints yields its segment: both timestamps and the
      trimmed text. */
  lemma SegmentLineParses(startTs: string, endTs: string, text: string)
    requires IsTimestampShape(startTs) && IsTimestampShape(endTs)
    requires text != [] && !IsRegexSpace(text[0]) && TrimSpace(text) != []
    ensures SegmentOfLine(SegmentLine(startTs, endTs, text))
         == Some(Segment(TimestampOrZero(startTs), TimestampOrZero(endTs), TrimSpace(text)))
  {
    SegmentLineMatches(startTs, endTs, text);
    assert SegmentLine(startTs, endTs, text)[0..] == SegmentLine(startTs, endTs, text);
  }

  lemma SegmentLineMatches(startTs: string, endTs: string, text: string)
    requires IsTimestampShape(startTs) && IsTimestampShape(endTs)
    requires text != [] && !IsRegexSpace(text[0])
    ensures SegmentMatchAt(SegmentLine(startTs, endTs, text), 0) == Some(SegmentMatch(startTs, endTs, text))
  {
    var line := SegmentLine(startTs, endTs, text);
    SegmentLinePieces(startTs, endTs, text);
    assert SkipRegexSpace(line, 14) == 14;
    assert SkipRegexSpace(line, 13) == 14;
    assert SkipRegexSpace(line, 18) == 18;
    assert SkipRegexSpace(line, 17) == 18;
    assert SkipRegexSpace(line, 33) == 33;
    assert SkipRegexSpace(line, 32) == 33;
    assert SkipRegexSpace(line, 31) == 33;
  }

  lemma SegmentLinePieces(startTs: string, endTs: string, text: string)
    requires |startTs| == 12 && |endTs| == 12
    ensures var line := SegmentLine(startTs, endTs, text);
      && |line| == 33 + |text| && line[0] == '['
      && line[1..13] == startTs && line[13] == ' ' && line[14..17] == "-->"
      && line[17] == ' ' && line[18..30] == endTs && line[30] == ']'
      && line[31] == ' ' && line[32] == ' ' && line[33..] == text
  {
    var line := SegmentLine(startTs, endTs, text);
    var open := "[" + startTs;
    var arrow := open + " --> ";
    var close := arrow + endTs + "]  ";
    assert line == close + text;
    assert line[..13] == open;
    assert line[13..18] == " --> ";
    assert line[18..30] == endTs;
  }

  /** The line of whisper's output that starts the transcript. */
  lemma HelloWorldLine()
    ensures SegmentOfLine(SegmentLine("00:00:00.000", "00:00:03.000", "Hello, world."))
         == Some(Segment(0, 3 * Second, "Hello, world."))
  {
    HelloShapes();
    HelloTimestamps();
    SegmentLineParses("00:00:00.000", "00:00:03.000", "Hello, world.");
  }

  lemma HelloShapes()
    ensures IsTimestampShape("00:00:00.000") && IsTimestampShape("00:00:03.000")
    ensures "Hello, world." != [] && !IsRegexSpace("Hello, world."[0])
    ensures TrimSpace("Hello, world.") == "Hello, world."
  {
    ZeroShape();
    ThreeShape();
    HelloTrimmed();
  }

  lemma ZeroShape()
    ensures IsTimestampShape("00:00:00.000")
  {
  }

  lemma ThreeShape()
    ensures IsTimestampShape("00:00:03.000")
  {
  }

  lemma HelloTrimmed()
    ensures "Hello, world." != [] && !IsRegexSpace("Hello, world."[0])
    ensures TrimSpace("Hello, world.") == "Hello, world."
  {
    var hello := "Hello, world.";
    assert hello[0] == 'H' && hello[|hello| - 1] == '.';
    TrimSpaceOfTrimmed(hello);
  }

  lemma HelloTimestamps()
    ensures TimestampOrZero("00:00:00.000") == 0
    ensures TimestampOrZero("00:00:03.000") == 3 * Second
  {
    ParseTimestampRoundTrip(0, 0, 0, 0);
    ParseTimestampRoundTrip(0, 0, 3, 0);
    FormatZero();
    FormatThree();
  }

  lemma FormatZero()
    ensures FormatTimestamp(0, 0, 0, 0) == "00:00:00.000"
  {
    assert NatToString(0) == "0";
    assert Zeros(1) == "0" && Zeros(2) == "00";
  }

  lemma FormatThree()
    ensures FormatTimestamp(0, 0, 3, 0) == "00:00:03.000"
  {
    assert NatToString(0) == "0" && NatToString(3) == "3";
    assert Zeros(1) == "0" && Zeros(2) == "00";
  }

  // --------------------------------------------------- whisper progress lines

  /** First position at or after `i` that is not an ASCII digit. */
  function SkipDigits(line: string, i: nat): (j: nat)
    requires i <= |line|
    ensures i <= j <= |line|
    ensures AllDigits(line[i..j])
    ensures j < |line| ==> !IsDigit(line[j])
    decreases |line| - i
  {
    if i < |line| && IsDigit(line[i]) then
      var j := SkipDigits(line, i + 1);
      assert line[i..j] == [line[i]] + line[i + 1..j];
      j
    else i
  }

  /** The digits of a match of `progress\s*=\s*(\d+)%` starting at `p`. The
      digit run is greedy and must be followed by '%'. */
  function ProgressMatchAt(line: string, p: nat): (r: Option<string>)
    requires p <= |line|
    ensures r.Some? ==> |r.value| > 0 && AllDigits(r.value)
  {
    if p + 8 > |line| || line[p..p + 8] != "progress" then None
    else
      var q := SkipRegexSpace(line, p + 8);
      if q >= |line| || line[q] != '=' then None
      else
        var q2 := SkipRegexSpace(line, q + 1);
        var d := SkipDigits(line, q2);
        if d == q2 || d >= |line| || line[d] != '%' then None
        else Some(line[q2..d])
  }

  function FindProgress(line: string, p: nat): (r: Option<string>)
    requires p <= |line|
    ensures r.Some? ==> |r.value| > 0 && AllDigits(r.value)
    decreases |line| - p
  {
    if p == |line| then None
    else match ProgressMatchAt(line, p)
      case Some(ds) => Some(ds)
      case None => FindProgress(line, p + 1)
  }

  /** The fraction one stderr line reports, if any: N/100 for the first
      `progress = N%`; a number Atoi rejects is skipped. */
  function WhisperProgressOfLine(line: string): (r: Option<real>)
    ensures r.Some? ==> r.value >= 0.0
  {
    match FindProgress(line, 0)
    case None => None
    case Some(ds) =>
      match ParseInt(ds)
      case None => None
      case Some(pct) => assert pct == DecimalValue(ds); Some(pct as real / 100.0)
  }

  function WhisperProgressReports(lines: seq<string>): (r: seq<real>)
    ensures |r| <= |lines|
    ensures forall k :: 0 <= k < |r| ==> r[k] >= 0.0
  {
    if |lines| == 0 then []
    else
      var p := WhisperProgressOfLine(lines[|lines| - 1]);
      WhisperProgressReports(lines[..|lines| - 1]) + if p.Some? then [p.value] else []
  }

  /** parseWhisperProgress over the whole of whisper's stderr: the values
      handed to the callback, in order. */
  method ParseWhisperProgress(stderr: string) returns (reports: seq<real>)
    ensures reports == WhisperProgressReports(Lines(stderr))
  {
    var lines := Lines(stderr);
    reports := [];
    for i := 0 to |lines|
      invariant reports == WhisperProgressReports(lines[..i])
    {
      ProgressReportsPrefix(lines, i);
      var p := LineProgress(lines[i]);
      if p.Some? {
        reports := reports + [p.value];
      }
    }
    assert lines[..|lines|] == lines;
  }

  lemma ProgressReportsPrefix(lines: seq<string>, i: nat)
    requires i < |lines|
    ensures WhisperProgressReports(lines[..i + 1])
         == WhisperProgressReports(lines[..i])
            + if WhisperProgressOfLine(lines[i]).Some? then [WhisperProgressOfLine(lines[i]).value] else []
  {
    assert lines[..i + 1][..i] == lines[..i];
  }

  /** The loop body of parseWhisperProgress for one line. */
  method LineProgress(line: string) returns (p: Option<real>)
    ensures p == WhisperProgressOfLine(line)
  {
    var matches := FindProgress(line, 0);
    p := None;
    if matches.Some? {
      var pct := ParseInt(matches.value);
      if pct.Some? {
        p := Some(pct.value as real / 100.0);
      }
    }
  }

  /** `progress = N%` reports N/100 (values above 100 are not capped). */
  lemma ProgressLineReports(n: nat)
    requires n <= MaxInt64
    ensures WhisperProgressOfLine("progress = " + NatToString(n) + "%") == Some(n as real / 100.0)
  {
    var digits := NatToString(n);
    var line := "progress = " + digits + "%";
    assert line[0..8] == "progress";
    assert line[8] == ' ' && line[9] == '=' && line[10] == ' ';
    assert SkipRegexSpace(line, 9) == 9;
    assert SkipRegexSpace(line, 8) == 9;
    assert SkipRegexSpace(line, 11) == 11;
    assert SkipRegexSpace(line, 10) == 11;
    assert line[11..11 + |digits|] == digits && line[11 + |digits|] == '%';
    SkipDigitsRun(line, 11, 11 + |digits|);
    assert ProgressMatchAt(line, 0) == Some(digits);
    DecimalValueOfNatToString(n);
  }

  lemma {:induction false} SkipDigitsRun(line: string, i: nat, j: nat)
    requires i <= j < |line| && AllDigits(line[i..j]) && !IsDigit(line[j])
    ensures SkipDigits(line, i) == j
    decreases j - i
  {
    if i < j {
      assert line[i] == line[i..j][0];
      assert line[i + 1..j] == line[i..j][1..];
      SkipDigitsRun(line, i + 1, j);
    }
  }

  // ------------------------------------------------------- runWhisper result

  /** runWhisper's result after a successful run: the parsed segments, or,
      when there are none, one segment at 0 holding the trimmed transcript
      file when that file could be read (`content` is None otherwise) and
      is not empty. */
  function WhisperResult(output: string, content: Option<string>): (r: seq<Segment>)
    ensures SegmentsOf(Lines(output)) != [] ==> r == SegmentsOf(Lines(output))
    ensures SegmentsOf(Lines(output)) == [] && content.Some? && content.value != [] ==>
      r == [Segment(0, 0, TrimSpace(content.value))]
    ensures SegmentsOf(Lines(output)) == [] && (content.None? || content.value == []) ==> r == []
  {
    var segments := SegmentsOf(Lines(output));
    if |segments| == 0 && content.Some? && |content.value| > 0 then
      [Segment(0, 0, TrimSpace(content.value))]
    else segments
  }

  /** Every segment has text, except the fallback segment of a transcript
      file that holds only white space, whose text is empty. */
  lemma WhisperResultTexts(output: string, content: Option<string>)
    ensures forall k :: 0 <= k < |WhisperResult(output, content)| ==>
      (WhisperResult(output, content)[k].text == [] <==>
        SegmentsOf(Lines(output)) == [] && content.Some? && content.value != [] && AllSpace(content.value))
  {
    if SegmentsOf(Lines(output)) == [] && content.Some? && content.value != [] {
      assert TrimSpace(content.value) == [] <==> AllSpace(content.value);
    }
  }

  // ------------------------------------------------- Transcribe orchestration

  datatype TranscribeError = ModelMissing | AudioExtractionFailed | WhisperFailed

  /** Transcribe: the model must exist before anything runs; then audio
      extraction, then whisper. `extracted` and `whisperOk` say whether the
      two subprocess steps succeeded. */
  function TranscribeResult(modelExists: bool, extracted: bool, whisperOk: bool,
                            output: string, content: Option<string>): (r: Result<seq<Segment>, TranscribeError>)
    ensures !modelExists ==> r == Failure(ModelMissing)
    ensures modelExists && !extracted ==> r == Failure(AudioExtractionFailed)
    ensures modelExists && extracted && !whisperOk ==> r == Failure(WhisperFailed)
    ensures r.Success? <==> modelExists && extracted && whisperOk
    ensures r.Success? ==> r.value == WhisperResult(output, content)
  {
    if !modelExists then Failure(ModelMissing)
    else if !extracted then Failure(AudioExtractionFailed)
    else if !whisperOk then Failure(WhisperFailed)
    else Success(WhisperResult(output, content))
  }

  /** Extraction reports into the first half of the range. */
  function ExtractionShare(p: real): real {
    p * 0.5
  }

  /** Recognition reports into the second half of the range. */
  function WhisperShare(p: real): real {
    0.5 + p * 0.5
  }

  /** The two phases share the range without overlap and keep the order of
      their own reports. */
  lemma SharesSplitRange(p: real, q: real)
    requires 0.0 <= p <= 1.0 && 0.0 <= q <= 1.0
    ensures 0.0 <= ExtractionShare(p) <= 0.5 <= WhisperShare(q) <= 1.0
    ensures p <= q ==> ExtractionShare(p) <= ExtractionShare(q) && WhisperShare(p) <= WhisperShare(q)
  {
  }
}
