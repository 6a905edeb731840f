/** internal/output/markdown.go: the report's duration labels, its token
    estimate, the data WriteMarkdown prepares for the template, and the
    lines the template produces. Creating and writing the file is I/O, and
    `filepath.Rel` is a parameter. The document is a sequence of lines,
    each of which the template ends with a newline. */
module Markdown {
  import opened GoInt
  import opened GoStrings
  import opened Seqs
  import GoPath
  import Wrappers

  datatype Keyframe = Keyframe(index: int, timestamp: Int64, path: string)

  datatype Segment = Segment(start: Int64, end: Int64, text: string)

  /** Everything a report is generated from. */
  datatype Result = Result(inputPath: string, duration: Int64, totalFrames: int,
                           keyframes: seq<Keyframe>, segments: seq<Segment>)

  // ------------------------------------------------------- duration label

  /** time.Duration.Round(time.Second): to the nearest multiple of a
      second, halves away from zero, and the int64 extreme when that
      multiple does not fit. */
  function RoundToSecond(d: Int64): (r: Int64)
    ensures d >= 0 ==> r >= 0
  {
    assert InInt64(d);
    if d >= 0 then
      var rem := d % Second;
      if rem + rem < Second then d - rem
      else if d + (Second - rem) <= MaxInt64 then d + (Second - rem) else MaxInt64
    else
      var rem := -TruncMod(d, Second);
      if rem + rem < Second then d + rem
      else if d - Second + rem >= MinInt64 then d - Second + rem else MinInt64
  }

  /** Away from the int64 extremes, rounding gives a whole number of
      seconds at most half a second away, a half going away from zero. */
  lemma RoundToSecondNearest(d: Int64)
    requires MinInt64 + Second <= d <= MaxInt64 - Second
    ensures RoundToSecond(d) % Second == 0
    ensures d >= 0 ==> 2 * (RoundToSecond(d) - d) <= Second && 2 * (d - RoundToSecond(d)) < Second
    ensures d < 0 ==> 2 * (d - RoundToSecond(d)) <= Second && 2 * (RoundToSecond(d) - d) < Second
  {
    var r := RoundToSecond(d);
    if d >= 0 {
      var q := d / Second;
      assert d == q * Second + d % Second;
      if d % Second + d % Second < Second {
        assert r == q * Second;
      } else {
        assert r == (q + 1) * Second;
      }
    } else {
      var q := TruncDiv(d, Second);
      assert d == q * Second + TruncMod(d, Second);
      if -TruncMod(d, Second) - TruncMod(d, Second) < Second {
        assert r == q * Second;
      } else {
        assert r == (q - 1) * Second;
      }
    }
  }

  /** A whole number of seconds is already rounded. */
  lemma RoundWholeSeconds(n: int)
    requires InInt64(n * Second)
    ensures RoundToSecond(n * Second) == n * Second
  {
    var d := n * Second;
    if d >= 0 {
      DivModUnique(d, Second, n, 0);
    } else {
      assert TruncMod(d, Second) == 0 by {
        DivModUnique(-d, Second, -n, 0);
      }
    }
  }

  /** formatDuration: `M:SS` below an hour, `H:MM:SS` from an hour on, after
      rounding to the second. Hours, minutes and seconds come from
      truncating division, so a negative duration prints its minutes and
      seconds with their signs. */
  function FormatDuration(d: Int64): string {
    FormatRounded(RoundToSecond(d))
  }

  /** The label of a duration already rounded to the second. */
  function FormatRounded(r: int): string {
    var (h, m, s) := ClockOf(r);
    Parts(h, m, s)
  }

  /** The hours, then the minutes of what is left, then the seconds of
      what is left after that, each by truncating division. */
  function ClockOf(r: int): (int, int, int) {
    var h := TruncDiv(r, Hour);
    var afterHours := r - h * Hour;
    var m := TruncDiv(afterHours, Minute);
    var afterMinutes := afterHours - m * Minute;
    (h, m, TruncDiv(afterMinutes, Second))
  }

  /** The two `fmt.Sprintf` forms, on the parts as computed. */
  function Parts(h: int, m: int, s: int): string {
    if h > 0 then IntToString(h) + ":" + FormatIntWidth(m, 2) + ":" + FormatIntWidth(s, 2)
    else IntToString(m) + ":" + FormatIntWidth(s, 2)
  }

  /** Two digits at least, as `%02d` prints a non-negative number. */
  function Pad2(n: nat): string {
    ZeroPad(NatToString(n), 2)
  }

  /** `H:MM:SS` when there are hours, `M:SS` otherwise. */
  function ClockLabel(h: nat, m: nat, s: nat): string {
    if h > 0 then NatToString(h) + ":" + Pad2(m) + ":" + Pad2(s) else NatToString(m) + ":" + Pad2(s)
  }

  /** A non-negative duration reads as a clock: with `r` the rounded
      duration, the label shows the whole hours of `r` (only from one hour
      on), then its minutes and seconds; both are below 60 and put together
      with the hours they give back `r`. */
  lemma FormatDurationClock(d: Int64)
    requires d >= 0
    ensures var r := RoundToSecond(d);
      FormatDuration(d) == ClockLabel(r / Hour, r % Hour / Minute, r % Minute / Second)
    ensures var r := RoundToSecond(d);
      r % Hour / Minute < 60 && r % Minute / Second < 60
      && r == r / Hour * Hour + r % Hour / Minute * Minute + r % Minute / Second * Second + r % Second
  {
    var r := RoundToSecond(d);
    ClockParts(r);
    FormatRoundedAt(r, r / Hour, r % Hour / Minute, r % Minute / Second);
  }

  lemma ClockParts(r: nat)
    ensures TruncDiv(r, Hour) == r / Hour
    ensures TruncDiv(r - r / Hour * Hour, Minute) == r % Hour / Minute
    ensures r - r / Hour * Hour - r % Hour / Minute * Minute == r % Minute
    ensures TruncDiv(r % Minute, Second) == r % Minute / Second
    ensures r % Hour / Minute < 60 && r % Minute / Second < 60
    ensures r == r / Hour * Hour + r % Hour / Minute * Minute + r % Minute / Second * Second + r % Second
  {
    var h := r / Hour;
    var a := r % Hour;
    assert r == h * Hour + a;
    var m := a / Minute;
    var b := a % Minute;
    assert a == m * Minute + b;
    assert r % Minute == b by {
      assert r == (h * 60 + m) * Minute + b;
      DivModUnique(r, Minute, h * 60 + m, b);
    }
    var s := b / Second;
    assert b == s * Second + b % Second;
    assert r % Second == b % Second by {
      assert r == ((h * 60 + m) * 60 + s) * Second + b % Second;
      DivModUnique(r, Second, (h * 60 + m) * 60 + s, b % Second);
    }
  }

  /** The label of a rounded duration with the given parts. */
  lemma FormatRoundedAt(r: int, h: nat, m: nat, s: nat)
    requires TruncDiv(r, Hour) == h
    requires TruncDiv(r - h * Hour, Minute) == m
    requires TruncDiv(r - h * Hour - m * Minute, Second) == s
    ensures FormatRounded(r) == ClockLabel(h, m, s)
  {
    assert ClockOf(r) == (h, m, s);
    PartsAreClock(h, m, s);
  }

  /** On non-negative parts `%d` and `%02d` are the clock's digits. */
  lemma PartsAreClock(h: nat, m: nat, s: nat)
    ensures Parts(h, m, s) == ClockLabel(h, m, s)
  {
    assert FormatIntWidth(m, 2) == Pad2(m);
    assert FormatIntWidth(s, 2) == Pad2(s);
  }

  /** Hours, minutes below 60 and seconds below 60 print as that clock:
      `H:MM:SS` when there are hours, `M:SS` otherwise. */
  lemma FormatDurationOfClock(h: nat, m: nat, s: nat)
    requires m < 60 && s < 60 && h * Hour + m * Minute + s * Second <= MaxInt64
    ensures FormatDuration(h * Hour + m * Minute + s * Second) == ClockLabel(h, m, s)
  {
    var d := h * Hour + m * Minute + s * Second;
    ClockIsWholeSeconds(h, m, s);
    ClockDigits(h, m, s);
    FormatRoundedAt(d, h, m, s);
  }

  lemma ClockIsWholeSeconds(h: nat, m: nat, s: nat)
    requires h * Hour + m * Minute + s * Second <= MaxInt64
    ensures RoundToSecond(h * Hour + m * Minute + s * Second) == h * Hour + m * Minute + s * Second
  {
    var n := h * 3600 + m * 60 + s;
    assert h * Hour + m * Minute + s * Second == n * Second;
    RoundWholeSeconds(n);
  }

  lemma ClockDigits(h: nat, m: nat, s: nat)
    requires m < 60 && s < 60
    ensures var d := h * Hour + m * Minute + s * Second;
      && TruncDiv(d, Hour) == h
      && TruncDiv(d - h * Hour, Minute) == m
      && TruncDiv(d - h * Hour - m * Minute, Second) == s
  {
    var d := h * Hour + m * Minute + s * Second;
    DivModUnique(d, Hour, h, m * Minute + s * Second);
    assert d - h * Hour == m * Minute + s * Second;
    DivModUnique(m * Minute + s * Second, Minute, m, s * Second);
    assert d - h * Hour - m * Minute == s * Second;
    DivModUnique(s * Second, Second, s, 0);
  }

  /** Labels below an hour. */
  lemma FormatDurationMinutes()
    ensures FormatDuration(0) == "0:00"
    ensures FormatDuration(90 * Second) == "1:30"
  {
    FormatDurationOfClock(0, 0, 0);
    FormatDurationOfClock(0, 1, 30);
    SmallNumbers();
  }

  /** Labels from an hour on. */
  lemma FormatDurationHours()
    ensures FormatDuration(Hour + 30 * Minute + 45 * Second) == "1:30:45"
    ensures FormatDuration(2 * Hour + 5 * Minute + 3 * Second) == "2:05:03"
  {
    FormatDurationOfClock(1, 30, 45);
    FormatDurationOfClock(2, 5, 3);
    SmallNumbers();
  }

  lemma SmallNumbers()
    ensures NatToString(0) == "0" && NatToString(1) == "1" && NatToString(2) == "2"
    ensures Pad2(0) == "00" && Pad2(3) == "03" && Pad2(5) == "05"
    ensures Pad2(30) == "30" && Pad2(45) == "45"
  {
    assert NatToString(3) == "3" && NatToString(5) == "5";
    assert NatToString(30) == "30" && NatToString(45) == "45";
    assert Zeros(1) == "0";
  }

  // ------------------------------------------------------- token estimate

  /** Tokens for one segment: 1.3 per whitespace-separated word, truncated. */
  function WordTokens(text: string): nat {
    |Fields(text)| * 13 / 10
  }

  function SegmentTokens(segments: seq<Segment>): nat {
    if |segments| == 0 then 0
    else SegmentTokens(segments[..|segments| - 1]) + WordTokens(segments[|segments| - 1].text)
  }

  /** The estimate: 100 for the metadata, the segments' word tokens, and
      1000 per keyframe. */
  function TokenEstimate(result: Result): (t: int)
    ensures t >= 100 + 1000 * |result.keyframes|
  {
    100 + SegmentTokens(result.segments) + 1000 * |result.keyframes|
  }

  /** EstimateTokens: the accumulator loop over the segments. */
  method EstimateTokens(result: Result) returns (tokens: int)
    ensures tokens == TokenEstimate(result)
  {
    tokens := 0;
    tokens := tokens + 100;
    var segments := result.segments;
    for i := 0 to |segments|
      invariant tokens == 100 + SegmentTokens(segments[..i])
    {
      assert segments[..i + 1][..i] == segments[..i];
      var words := |Fields(segments[i].text)|;
      tokens := tokens + words * 13 / 10;
    }
    assert segments[..|segments|] == segments;
    tokens := tokens + |result.keyframes| * 1000;
  }

  /** An empty result costs exactly the metadata overhead. */
  lemma EmptyEstimate(inputPath: string, duration: Int64, totalFrames: int)
    ensures TokenEstimate(Result(inputPath, duration, totalFrames, [], [])) == 100
  {
  }

  /** Text that is only white space has no words and costs nothing; text
      with a non-space character costs at least one token. */
  lemma WordTokensOfText(text: string)
    ensures AllSpace(text) <==> WordTokens(text) == 0
  {
    FieldsEmptyIff(text);
  }

  /** Appending a segment adds its word tokens and never lowers the
      estimate. */
  lemma AppendSegment(result: Result, seg: Segment)
    ensures TokenEstimate(result.(segments := result.segments + [seg]))
         == TokenEstimate(result) + WordTokens(seg.text)
    ensures TokenEstimate(result.(segments := result.segments + [seg])) >= TokenEstimate(result)
  {
    assert (result.segments + [seg])[..|result.segments|] == result.segments;
  }

  /** Appending a keyframe adds exactly 1000. */
  lemma AppendKeyframe(result: Result, kf: Keyframe)
    ensures TokenEstimate(result.(keyframes := result.keyframes + [kf])) == TokenEstimate(result) + 1000
  {
  }

  // -------------------------------------------------------- template data

  datatype SegmentData = SegmentData(startStr: string, text: string)

  datatype KeyframeData = KeyframeData(index: int, timestampStr: string, relPath: string)

  datatype TemplateData = TemplateData(filename: string, durationStr: string, totalFrames: int,
                                       keyframeCount: int, tokenEstimate: int,
                                       segments: seq<SegmentData>, keyframes: seq<KeyframeData>)

  function SegmentDataOf(seg: Segment): SegmentData {
    SegmentData(FormatDuration(seg.start), TrimSpace(seg.text))
  }

  /** A keyframe as the template sees it: its path relative to the output
      directory when `rel` finds one, its own path otherwise. */
  function KeyframeDataOf(kf: Keyframe, outputDir: string,
                          rel: (string, string) -> Wrappers.Option<string>): KeyframeData {
    KeyframeData(kf.index, FormatDuration(kf.timestamp), rel(outputDir, kf.path).GetOr(kf.path))
  }

  /** The data WriteMarkdown hands to the template. */
  function TemplateDataOf(outputPath: string, result: Result,
                          rel: (string, string) -> Wrappers.Option<string>): TemplateData {
    TemplateData(GoPath.Base(result.inputPath), FormatDuration(result.duration),
                 result.totalFrames, |result.keyframes|, TokenEstimate(result),
                 Map(result.segments, SegmentDataOf),
                 Map(result.keyframes, kf => KeyframeDataOf(kf, GoPath.Dir(outputPath), rel)))
  }

  /** WriteMarkdown's preparation step: the file name of the input, its
      duration label, the counts, the estimate, and each segment and
      keyframe converted in order. `rel` stands for filepath.Rel. */
  method PrepareTemplateData(outputPath: string, result: Result,
                             rel: (string, string) -> Wrappers.Option<string>) returns (data: TemplateData)
    ensures data == TemplateDataOf(outputPath, result, rel)
  {
    var estimate := EstimateTokens(result);
    var segments := ConvertSegmentData(result.segments);
    var keyframes := ConvertKeyframeData(result.keyframes, GoPath.Dir(outputPath), rel);
    data := TemplateData(GoPath.Base(result.inputPath), FormatDuration(result.duration),
                         result.totalFrames, |result.keyframes|, estimate, segments, keyframes);
  }

  /** The segment loop of WriteMarkdown. */
  method ConvertSegmentData(segs: seq<Segment>) returns (segments: seq<SegmentData>)
    ensures segments == Map(segs, SegmentDataOf)
  {
    segments := [];
    for i := 0 to |segs|
      invariant segments == Map(segs[..i], SegmentDataOf)
    {
      MapPrefixSnoc(segs, i, SegmentDataOf);
      segments := segments + [SegmentData(FormatDuration(segs[i].start), TrimSpace(segs[i].text))];
    }
    assert segs[..|segs|] == segs;
  }

  /** The keyframe loop of WriteMarkdown: a path relative to `outputDir`
      when `rel` finds one, the keyframe's own path otherwise. */
  method ConvertKeyframeData(kfs: seq<Keyframe>, outputDir: string,
                             rel: (string, string) -> Wrappers.Option<string>) returns (keyframes: seq<KeyframeData>)
    ensures keyframes == Map(kfs, kf => KeyframeDataOf(kf, outputDir, rel))
  {
    keyframes := [];
    for i := 0 to |kfs|
      invariant keyframes == Map(kfs[..i], kf => KeyframeDataOf(kf, outputDir, rel))
    {
      MapPrefixSnoc(kfs, i, kf => KeyframeDataOf(kf, outputDir, rel));
      var kf := kfs[i];
      var relPath := rel(outputDir, kf.path);
      var path := if relPath.Some? then relPath.value else kf.path;
      assert path == relPath.GetOr(kf.path);
      keyframes := keyframes + [KeyframeData(kf.index, FormatDuration(kf.timestamp), path)];
    }
    assert kfs[..|kfs|] == kfs;
  }

  // ------------------------------------------------------ template lines

  const TitlePrefix: string := "# Video Analysis: "
  const FramePrefix: string := "### Frame "

  function HeaderLines(data: TemplateData): (r: seq<string>)
    ensures |r| == 8
  {
    [TitlePrefix + data.filename, "", "## Metadata",
     "- Duration: " + data.durationStr,
     "- Original frames: " + IntToString(data.totalFrames),
     "- Keyframes extracted: " + IntToString(data.keyframeCount),
     "- Token estimate: ~" + IntToString(data.tokenEstimate),
     ""]
  }

  function SegmentLine(seg: SegmentData): string {
    "[" + seg.startStr + "] " + seg.text
  }

  function SegmentLines(segments: seq<SegmentData>): (r: seq<string>)
    ensures |r| == |segments|
    ensures forall i :: 0 <= i < |r| ==> r[i] == SegmentLine(segments[i])
  {
    if |segments| == 0 then [] else SegmentLines(segments[..|segments| - 1]) + [SegmentLine(segments[|segments| - 1])]
  }

  function FrameHeading(kf: KeyframeData): string {
    FramePrefix + (IntToString(kf.index) + " (" + kf.timestampStr + ")")
  }

  function FrameImage(kf: KeyframeData): string {
    "![Frame at " + kf.timestampStr + "](" + kf.relPath + ")"
  }

  /** Three lines per keyframe: its heading, its image link, a blank. */
  function KeyframeLines(keyframes: seq<KeyframeData>): (r: seq<string>)
    ensures |r| == 3 * |keyframes|
  {
    if |keyframes| == 0 then []
    else
      var kf := keyframes[|keyframes| - 1];
      KeyframeLines(keyframes[..|keyframes| - 1]) + [FrameHeading(kf), FrameImage(kf), ""]
  }

  function TranscriptBlock(segments: seq<SegmentData>): seq<string> {
    if |segments| == 0 then [] else ["", "## Transcript", ""] + SegmentLines(segments) + [""]
  }

  function KeyframeBlock(keyframes: seq<KeyframeData>): seq<string> {
    if |keyframes| == 0 then [] else ["", "## Keyframes", ""] + KeyframeLines(keyframes) + [""]
  }

  /** The lines markdownTemplate produces. */
  function Render(data: TemplateData): seq<string> {
    HeaderLines(data) + TranscriptBlock(data.segments) + [""] + KeyframeBlock(data.keyframes)
  }

  // ---------------------------------------------------- document structure

  predicate IsTranscriptLine(line: string) {
    |line| > 0 && line[0] == '['
  }

  predicate IsFrameHeading(line: string) {
    HasPrefix(line, FramePrefix)
  }

  /** The transcript lines of a document, in order. */
  function TranscriptLines(lines: seq<string>): seq<string> {
    if |lines| == 0 then []
    else
      var last := lines[|lines| - 1];
      TranscriptLines(lines[..|lines| - 1]) + if IsTranscriptLine(last) then [last] else []
  }

  /** The frame headings of a document, in order. */
  function FrameHeadingLines(lines: seq<string>): seq<string> {
    if |lines| == 0 then []
    else
      var last := lines[|lines| - 1];
      FrameHeadingLines(lines[..|lines| - 1]) + if IsFrameHeading(last) then [last] else []
  }

  lemma TranscriptLinesSnoc(s: seq<string>, x: string)
    ensures TranscriptLines(s + [x]) == TranscriptLines(s) + if IsTranscriptLine(x) then [x] else []
  {
    assert (s + [x])[..|s|] == s;
  }

  lemma FrameHeadingLinesSnoc(s: seq<string>, x: string)
    ensures FrameHeadingLines(s + [x]) == FrameHeadingLines(s) + if IsFrameHeading(x) then [x] else []
  {
    assert (s + [x])[..|s|] == s;
  }

  lemma {:induction false} TranscriptLinesConcat(a: seq<string>, b: seq<string>)
    ensures TranscriptLines(a + b) == TranscriptLines(a) + TranscriptLines(b)
    decreases |b|
  {
    if |b| == 0 {
      assert a + b == a;
    } else {
      assert (a + b)[..|a + b| - 1] == a + b[..|b| - 1];
      TranscriptLinesConcat(a, b[..|b| - 1]);
    }
  }

  lemma {:induction false} FrameHeadingLinesConcat(a: seq<string>, b: seq<string>)
    ensures FrameHeadingLines(a + b) == FrameHeadingLines(a) + FrameHeadingLines(b)
    decreases |b|
  {
    if |b| == 0 {
      assert a + b == a;
    } else {
      assert (a + b)[..|a + b| - 1] == a + b[..|b| - 1];
      FrameHeadingLinesConcat(a, b[..|b| - 1]);
    }
  }

  /** Lines none of which is a transcript line or a frame heading. */
  predicate Plain(lines: seq<string>) {
    forall j :: 0 <= j < |lines| ==> !IsTranscriptLine(lines[j]) && !IsFrameHeading(lines[j])
  }

  lemma {:induction false} PlainLines(lines: seq<string>)
    requires Plain(lines)
    ensures TranscriptLines(lines) == [] && FrameHeadingLines(lines) == []
  {
    if |lines| > 0 {
      PlainLines(lines[..|lines| - 1]);
    }
  }

  /** A line whose first or third character is not '#' is no frame
      heading. */
  lemma NotFrameHeading(line: string)
    requires |line| < 3 || line[0] != '#' || line[2] != '#'
    ensures !IsFrameHeading(line)
  { }

  lemma SegmentLineShape(seg: SegmentData)
    ensures IsTranscriptLine(SegmentLine(seg)) && !IsFrameHeading(SegmentLine(seg))
  {
    assert SegmentLine(seg)[0] == '[';
    NotFrameHeading(SegmentLine(seg));
  }

  lemma FrameLinesShape(kf: KeyframeData)
    ensures IsFrameHeading(FrameHeading(kf)) && !IsTranscriptLine(FrameHeading(kf))
    ensures !IsFrameHeading(FrameImage(kf)) && !IsTranscriptLine(FrameImage(kf))
    ensures FrameHeading(kf) != "## Transcript" && FrameImage(kf) != "## Transcript"
  {
    var rest := IntToString(kf.index) + " (" + kf.timestampStr + ")";
    assert FrameHeading(kf) == FramePrefix + rest;
    assert FrameHeading(kf)[..|FramePrefix|] == FramePrefix;
    assert FrameHeading(kf)[0] == '#' && FrameHeading(kf)[2] == '#';
    assert FrameImage(kf)[0] == '!';
    NotFrameHeading(FrameImage(kf));
  }

  /** The fixed lines hold no transcript line, no frame heading and
      neither block title. */
  lemma HeaderPlain(data: TemplateData)
    ensures Plain(HeaderLines(data))
    ensures "## Transcript" !in HeaderLines(data) && "## Keyframes" !in HeaderLines(data)
  {
    HeaderNoItems(data);
    HeaderNoTitles(data);
  }

  lemma HeaderNoItems(data: TemplateData)
    ensures Plain(HeaderLines(data))
  {
    var h := HeaderLines(data);
    assert h[0][0] == '#' && h[0][1] == ' ' && h[0][2] == 'V';
    assert h[2][2] == ' ';
    assert h[3][0] == '-' && h[4][0] == '-' && h[5][0] == '-' && h[6][0] == '-';
    forall i | 0 <= i < 8
      ensures !IsFrameHeading(h[i])
    {
      NotFrameHeading(h[i]);
    }
  }

  lemma HeaderNoTitles(data: TemplateData)
    ensures "## Transcript" !in HeaderLines(data) && "## Keyframes" !in HeaderLines(data)
  {
    var h := HeaderLines(data);
    var t, k := "## Transcript", "## Keyframes";
    assert t[1] == '#' && t[3] == 'T' && k[1] == '#' && k[3] == 'K';
    assert h[0][1] == ' ' && h[2][3] == 'M';
    assert h[1] == "" && h[7] == "";
    assert h[3][0] == '-' && h[4][0] == '-' && h[5][0] == '-' && h[6][0] == '-';
    forall i | 0 <= i < 8
      ensures h[i] != t && h[i] != k
    {
    }
  }

  /** The lines that open a block and the blank line that closes it. */
  lemma IntroPlain(title: string)
    requires title == "## Transcript" || title == "## Keyframes"
    ensures Plain(["", title, ""])
  {
    assert title[2] == ' ';
    NotFrameHeading("");
    NotFrameHeading(title);
  }

  lemma {:induction false} SegmentLinesItems(segments: seq<SegmentData>)
    ensures TranscriptLines(SegmentLines(segments)) == SegmentLines(segments)
    ensures FrameHeadingLines(SegmentLines(segments)) == []
    ensures "## Transcript" !in SegmentLines(segments) && "## Keyframes" !in SegmentLines(segments)
  {
    if |segments| > 0 {
      var init := SegmentLines(segments[..|segments| - 1]);
      var last := SegmentLine(segments[|segments| - 1]);
      SegmentLinesItems(segments[..|segments| - 1]);
      SegmentLineShape(segments[|segments| - 1]);
      assert (init + [last])[..|init|] == init;
    }
  }

  /** The frame headings among the keyframe lines, one per keyframe. */
  function FrameHeadings(keyframes: seq<KeyframeData>): (r: seq<string>)
    ensures |r| == |keyframes|
    ensures forall i :: 0 <= i < |r| ==> r[i] == FrameHeading(keyframes[i])
  {
    Map(keyframes, FrameHeading)
  }

  lemma FrameHeadingsSnoc(keyframes: seq<KeyframeData>)
    requires |keyframes| > 0
    ensures FrameHeadings(keyframes)
         == FrameHeadings(keyframes[..|keyframes| - 1]) + [FrameHeading(keyframes[|keyframes| - 1])]
  {
    assert keyframes == keyframes[..|keyframes| - 1] + [keyframes[|keyframes| - 1]];
    MapSnoc(keyframes[..|keyframes| - 1], keyframes[|keyframes| - 1], FrameHeading);
  }

  lemma {:induction false} KeyframeLinesItems(keyframes: seq<KeyframeData>)
    ensures FrameHeadingLines(KeyframeLines(keyframes)) == FrameHeadings(keyframes)
    ensures TranscriptLines(KeyframeLines(keyframes)) == []
    ensures "## Transcript" !in KeyframeLines(keyframes)
  {
    KeyframeLinesHeadings(keyframes);
    KeyframeLinesPlain(keyframes);
  }

  lemma {:induction false} KeyframeLinesHeadings(keyframes: seq<KeyframeData>)
    ensures FrameHeadingLines(KeyframeLines(keyframes)) == FrameHeadings(keyframes)
  {
    if |keyframes| > 0 {
      var init := keyframes[..|keyframes| - 1];
      var kf := keyframes[|keyframes| - 1];
      var a := KeyframeLines(init) + [FrameHeading(kf)];
      var b := a + [FrameImage(kf)];
      assert KeyframeLines(keyframes) == b + [""];
      KeyframeLinesHeadings(init);
      FrameHeadingsSnoc(keyframes);
      FrameLinesShape(kf);
      NotFrameHeading("");
      FrameHeadingLinesSnoc(KeyframeLines(init), FrameHeading(kf));
      FrameHeadingLinesSnoc(a, FrameImage(kf));
      FrameHeadingLinesSnoc(b, "");
    }
  }

  lemma KeyframeLinesPlain(keyframes: seq<KeyframeData>)
    ensures TranscriptLines(KeyframeLines(keyframes)) == []
    ensures "## Transcript" !in KeyframeLines(keyframes)
  {
    KeyframeLinesNoTranscript(keyframes);
    KeyframeLinesNoTitle(keyframes);
  }

  lemma {:induction false} KeyframeLinesNoTranscript(keyframes: seq<KeyframeData>)
    ensures TranscriptLines(KeyframeLines(keyframes)) == []
  {
    if |keyframes| > 0 {
      var init := keyframes[..|keyframes| - 1];
      var kf := keyframes[|keyframes| - 1];
      var a := KeyframeLines(init) + [FrameHeading(kf)];
      var b := a + [FrameImage(kf)];
      assert KeyframeLines(keyframes) == b + [""];
      KeyframeLinesNoTranscript(init);
      FrameLinesShape(kf);
      TranscriptLinesSnoc(KeyframeLines(init), FrameHeading(kf));
      TranscriptLinesSnoc(a, FrameImage(kf));
      TranscriptLinesSnoc(b, "");
    }
  }

  lemma {:induction false} KeyframeLinesNoTitle(keyframes: seq<KeyframeData>)
    ensures "## Transcript" !in KeyframeLines(keyframes)
  {
    if |keyframes| > 0 {
      var init := keyframes[..|keyframes| - 1];
      var kf := keyframes[|keyframes| - 1];
      KeyframeLinesNoTitle(init);
      FrameLinesShape(kf);
      assert KeyframeLines(keyframes) == KeyframeLines(init) + [FrameHeading(kf), FrameImage(kf), ""];
    }
  }

  lemma {:induction false} TranscriptBlockItems(segments: seq<SegmentData>)
    ensures TranscriptLines(TranscriptBlock(segments)) == SegmentLines(segments)
    ensures FrameHeadingLines(TranscriptBlock(segments)) == []
  {
    if |segments| > 0 {
      var intro: seq<string> := ["", "## Transcript", ""];
      var lines := SegmentLines(segments);
      var il := intro + lines;
      assert TranscriptBlock(segments) == il + [""];
      SegmentLinesItems(segments);
      IntroPlain("## Transcript");
      PlainLines(intro);
      TranscriptLinesConcat(intro, lines);
      FrameHeadingLinesConcat(intro, lines);
      assert [] + lines == lines;
      TranscriptLinesSnoc(il, "");
      FrameHeadingLinesSnoc(il, "");
      assert lines + [] == lines;
    }
  }

  lemma {:induction false} KeyframeBlockItems(keyframes: seq<KeyframeData>)
    ensures TranscriptLines(KeyframeBlock(keyframes)) == []
    ensures FrameHeadingLines(KeyframeBlock(keyframes)) == FrameHeadings(keyframes)
  {
    if |keyframes| > 0 {
      var intro: seq<string> := ["", "## Keyframes", ""];
      var lines := KeyframeLines(keyframes);
      var il := intro + lines;
      assert KeyframeBlock(keyframes) == il + [""];
      KeyframeLinesItems(keyframes);
      IntroPlain("## Keyframes");
      PlainLines(intro);
      TranscriptLinesConcat(intro, lines);
      FrameHeadingLinesConcat(intro, lines);
      assert [] + FrameHeadings(keyframes) == FrameHeadings(keyframes);
      TranscriptLinesSnoc(il, "");
      FrameHeadingLinesSnoc(il, "");
      assert FrameHeadings(keyframes) + [] == FrameHeadings(keyframes);
    }
  }

  /** The transcript lines of the document are exactly the segments' lines,
      one per segment in input order; its frame headings are exactly the
      keyframes' headings, one per keyframe in input order. */
  lemma {:induction false} RenderItems(data: TemplateData)
    ensures TranscriptLines(Render(data)) == SegmentLines(data.segments)
    ensures FrameHeadingLines(Render(data)) == FrameHeadings(data.keyframes)
  {
    RenderTranscript(data);
    RenderFrameHeadings(data);
  }

  lemma {:induction false} RenderTranscript(data: TemplateData)
    ensures TranscriptLines(Render(data)) == SegmentLines(data.segments)
  {
    var h, t, k := HeaderLines(data), TranscriptBlock(data.segments), KeyframeBlock(data.keyframes);
    var ht := h + t;
    var hte := ht + [""];
    assert Render(data) == hte + k;
    HeaderNoItems(data);
    PlainLines(h);
    TranscriptBlockItems(data.segments);
    KeyframeBlockItems(data.keyframes);
    TranscriptLinesConcat(h, t);
    TranscriptLinesSnoc(ht, "");
    TranscriptLinesConcat(hte, k);
    assert [] + SegmentLines(data.segments) + [] == SegmentLines(data.segments);
  }

  lemma {:induction false} RenderFrameHeadings(data: TemplateData)
    ensures FrameHeadingLines(Render(data)) == FrameHeadings(data.keyframes)
  {
    var h, t, k := HeaderLines(data), TranscriptBlock(data.segments), KeyframeBlock(data.keyframes);
    var ht := h + t;
    var hte := ht + [""];
    assert Render(data) == hte + k;
    HeaderNoItems(data);
    PlainLines(h);
    NotFrameHeading("");
    TranscriptBlockItems(data.segments);
    KeyframeBlockItems(data.keyframes);
    FrameHeadingLinesConcat(h, t);
    FrameHeadingLinesSnoc(ht, "");
    FrameHeadingLinesConcat(hte, k);
    assert [] + [] + [] + FrameHeadings(data.keyframes) == FrameHeadings(data.keyframes);
  }

  /** The transcript heading appears exactly when there are segments, and
      the keyframe heading exactly when there are keyframes. */
  lemma {:induction false} RenderBlocks(data: TemplateData)
    ensures "## Transcript" in Render(data) <==> |data.segments| > 0
    ensures "## Keyframes" in Render(data) <==> |data.keyframes| > 0
  {
    HeaderPlain(data);
    TranscriptTitle(data.segments);
    KeyframesTitle(data.keyframes);
  }

  lemma TranscriptTitle(segments: seq<SegmentData>)
    ensures "## Transcript" in TranscriptBlock(segments) <==> |segments| > 0
    ensures "## Keyframes" !in TranscriptBlock(segments)
  {
    if |segments| > 0 {
      var intro: seq<string> := ["", "## Transcript", ""];
      var lines := SegmentLines(segments);
      var il := intro + lines;
      assert TranscriptBlock(segments) == il + [""];
      SegmentLinesItems(segments);
      assert intro[1] == "## Transcript";
      assert "## Keyframes" !in intro;
      assert "## Keyframes" !in il;
    }
  }

  lemma KeyframesTitle(keyframes: seq<KeyframeData>)
    ensures "## Keyframes" in KeyframeBlock(keyframes) <==> |keyframes| > 0
    ensures "## Transcript" !in KeyframeBlock(keyframes)
  {
    if |keyframes| > 0 {
      var intro: seq<string> := ["", "## Keyframes", ""];
      var lines := KeyframeLines(keyframes);
      var il := intro + lines;
      assert KeyframeBlock(keyframes) == il + [""];
      KeyframeLinesNoTitle(keyframes);
      assert intro[1] == "## Keyframes";
      assert "## Transcript" !in intro;
      assert "## Transcript" !in il;
    }
  }

  // ------------------------------------------------------------ the report

  /** The lines WriteMarkdown writes for `result` into `outputPath`. */
  function ReportLines(outputPath: string, result: Result,
                       rel: (string, string) -> Wrappers.Option<string>): seq<string> {
    Render(TemplateDataOf(outputPath, result, rel))
  }

  /** The report opens with the input's file name and states the keyframe
      count; its transcript lines are the segments as `[start] text` with
      the text trimmed, and its frame headings are the keyframes as
      `### Frame index (timestamp)`, one each and in input order. */
  lemma ReportContents(outputPath: string, result: Result, rel: (string, string) -> Wrappers.Option<string>)
    ensures ReportLines(outputPath, result, rel)[0] == TitlePrefix + GoPath.Base(result.inputPath)
    ensures ReportLines(outputPath, result, rel)[5] == "- Keyframes extracted: " + IntToString(|result.keyframes|)
    ensures |TranscriptLines(ReportLines(outputPath, result, rel))| == |result.segments|
    ensures forall i :: 0 <= i < |result.segments| ==>
      TranscriptLines(ReportLines(outputPath, result, rel))[i]
        == "[" + FormatDuration(result.segments[i].start) + "] " + TrimSpace(result.segments[i].text)
    ensures |FrameHeadingLines(ReportLines(outputPath, result, rel))| == |result.keyframes|
    ensures forall i :: 0 <= i < |result.keyframes| ==>
      FrameHeadingLines(ReportLines(outputPath, result, rel))[i]
        == FramePrefix + (IntToString(result.keyframes[i].index) + " (" + FormatDuration(result.keyframes[i].timestamp) + ")")
  {
    var data := TemplateDataOf(outputPath, result, rel);
    RenderHeader(data);
    RenderItems(data);
    var lines := ReportLines(outputPath, result, rel);
    forall i | 0 <= i < |result.segments|
      ensures TranscriptLines(lines)[i]
           == "[" + FormatDuration(result.segments[i].start) + "] " + TrimSpace(result.segments[i].text)
    {
      assert data.segments[i] == SegmentDataOf(result.segments[i]);
    }
    forall i | 0 <= i < |result.keyframes|
      ensures FrameHeadingLines(lines)[i]
           == FramePrefix + (IntToString(result.keyframes[i].index) + " (" + FormatDuration(result.keyframes[i].timestamp) + ")")
    {
      assert data.keyframes[i] == KeyframeDataOf(result.keyframes[i], GoPath.Dir(outputPath), rel);
    }
  }

  /** The title line and the keyframe-count line. */
  lemma RenderHeader(data: TemplateData)
    ensures Render(data)[0] == TitlePrefix + data.filename
    ensures Render(data)[5] == "- Keyframes extracted: " + IntToString(data.keyframeCount)
  {
    var h := HeaderLines(data);
    assert Render(data) == h + (TranscriptBlock(data.segments) + [""] + KeyframeBlock(data.keyframes));
  }
}
