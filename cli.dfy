/** cmd/memorex/main.go: where the report and the keyframe images go, the
    duration label printed on the terminal, and the conversion of detected
    keyframes and transcript segments into the report's records. Flag
    parsing, the order of the stages in `run` and all terminal and file
    output are not modelled. */
module Cli {
  import opened GoInt
  import opened GoStrings
  import GoPath
  import Extract
  import Transcribe
  import Markdown
  import Similarity

  // --------------------------------------------------------------- paths

  const ReportSuffix: string := "_memorex.md"

  /** The output path when `-o` is not given: the input path without its
      extension, followed by `_memorex.md`. */
  function DefaultOutputPath(input: string): string {
    TrimSuffix(input, GoPath.Ext(input)) + ReportSuffix
  }

  /** The output path `run` settles on: the flag's value, or the default
      when the flag is empty. */
  function OutputPath(flag: string, input: string): string {
    if flag == "" then DefaultOutputPath(input) else flag
  }

  /** The directory the keyframe images are saved to: the output path
      without a trailing `.md`, followed by `_frames`. */
  function FramesDir(outputPath: string): string {
    TrimSuffix(outputPath, ".md") + "_frames"
  }

  /** The default output path keeps everything of the input before its
      extension, ends in `_memorex.md`, and so always has the extension
      `.md`. */
  lemma DefaultOutputPathShape(input: string)
    ensures var stem := input[..|input| - |GoPath.Ext(input)|];
      && input == stem + GoPath.Ext(input)
      && DefaultOutputPath(input) == stem + "_memorex.md"
    ensures GoPath.Ext(DefaultOutputPath(input)) == ".md"
  {
    var ext := GoPath.Ext(input);
    var stem := input[..|input| - |ext|];
    assert input == stem + ext;
    var out := DefaultOutputPath(input);
    assert out == stem + "_memorex.md";
    var k := |out| - 2;
    assert out[k..] == "md";
    assert out[k - 1] == '.';
    GoPath.ExtOfSuffix(out, k);
  }

  /** A `.md` output path loses the `.md` before `_frames` is appended; any
      other output path keeps all of its characters. */
  lemma FramesDirShape(outputPath: string)
    ensures HasSuffix(outputPath, ".md") ==> FramesDir(outputPath) == outputPath[..|outputPath| - 3] + "_frames"
    ensures !HasSuffix(outputPath, ".md") ==> FramesDir(outputPath) == outputPath + "_frames"
  {
  }

  /** With the default output path the images go next to the report, in
      `<input without extension>_memorex_frames`. */
  lemma DefaultFramesDir(input: string)
    ensures FramesDir(DefaultOutputPath(input)) == TrimSuffix(input, GoPath.Ext(input)) + "_memorex_frames"
  {
    var stem := TrimSuffix(input, GoPath.Ext(input));
    assert DefaultOutputPath(input) == (stem + "_memorex") + ".md";
    TrimSuffixOfConcat(stem + "_memorex", ".md");
  }

  // ------------------------------------------------------- duration label

  /** formatDuration: whole hours, the minutes within the hour and the
      seconds within the minute, each truncated toward zero (Go's int
      conversion and `%`); hours are shown only when positive, minutes only
      when there are hours or positive minutes. */
  function FormatDuration(d: Int64): string {
    var h := TruncDiv(d, Hour);
    var m := TruncMod(TruncDiv(d, Minute), 60);
    var s := TruncMod(TruncDiv(d, Second), 60);
    Label(h, m, s)
  }

  /** The three `fmt.Sprintf` forms. */
  function Label(h: int, m: int, s: int): string {
    if h > 0 then IntToString(h) + "h " + IntToString(m) + "m " + IntToString(s) + "s"
    else if m > 0 then IntToString(m) + "m " + IntToString(s) + "s"
    else IntToString(s) + "s"
  }

  /** A non-negative duration of `h` hours, `m` minutes below 60, `s`
      seconds below 60 and less than a second more is labelled with exactly
      those three numbers. */
  lemma FormatDurationOfParts(h: nat, m: nat, s: nat, sub: nat)
    requires m < 60 && s < 60 && sub < Second
    requires h * Hour + m * Minute + s * Second + sub <= MaxInt64
    ensures FormatDuration(h * Hour + m * Minute + s * Second + sub) == Label(h, m, s)
  {
    var d := h * Hour + m * Minute + s * Second + sub;
    PartsOf(h, m, s, sub);
    LabelAt(d, h, m, s);
  }

  lemma PartsOf(h: nat, m: nat, s: nat, sub: nat)
    requires m < 60 && s < 60 && sub < Second
    ensures var d := h * Hour + m * Minute + s * Second + sub;
      && TruncDiv(d, Hour) == h
      && TruncDiv(d, Minute) == h * 60 + m
      && TruncDiv(d, Second) == (h * 60 + m) * 60 + s
  {
    var d := h * Hour + m * Minute + s * Second + sub;
    DivModUnique(d, Hour, h, m * Minute + s * Second + sub);
    assert d == (h * 60 + m) * Minute + (s * Second + sub);
    DivModUnique(d, Minute, h * 60 + m, s * Second + sub);
    assert d == ((h * 60 + m) * 60 + s) * Second + sub;
    DivModUnique(d, Second, (h * 60 + m) * 60 + s, sub);
  }

  lemma LabelAt(d: Int64, h: nat, m: nat, s: nat)
    requires m < 60 && s < 60
    requires TruncDiv(d, Hour) == h
    requires TruncDiv(d, Minute) == h * 60 + m
    requires TruncDiv(d, Second) == (h * 60 + m) * 60 + s
    ensures FormatDuration(d) == Label(h, m, s)
  {
    DivModUnique(h * 60 + m, 60, h, m);
    DivModUnique((h * 60 + m) * 60 + s, 60, h * 60 + m, s);
  }

  /** Every non-negative duration splits that way: its minutes and seconds
      are below 60 and the parts give back its whole seconds. */
  lemma FormatDurationParts(d: Int64)
    requires d >= 0
    ensures var h, m, s := d / Hour, d / Minute % 60, d / Second % 60;
      && m < 60 && s < 60
      && h * 3600 + m * 60 + s == d / Second
      && FormatDuration(d) == Label(h, m, s)
  {
    var h := d / Hour;
    var m := d / Minute % 60;
    var s := d / Second % 60;
    var sub := d % Second;
    WholeSeconds(d);
    PartsOf(h, m, s, sub);
    LabelAt(d, h, m, s);
  }

  lemma WholeSeconds(d: nat)
    ensures d == (d / Hour) * Hour + (d / Minute % 60) * Minute + (d / Second % 60) * Second + d % Second
    ensures d / Hour * 3600 + d / Minute % 60 * 60 + d / Second % 60 == d / Second
  {
    var secs := d / Second;
    assert d == secs * Second + d % Second;
    var mins := secs / 60;
    assert secs == mins * 60 + secs % 60;
    var hours := mins / 60;
    assert mins == hours * 60 + mins % 60;
    assert d / Minute == mins by {
      assert d == mins * Minute + (secs % 60 * Second + d % Second);
      DivModUnique(d, Minute, mins, secs % 60 * Second + d % Second);
    }
    assert d / Hour == hours by {
      assert d == hours * Hour + (mins % 60 * Minute + secs % 60 * Second + d % Second);
      DivModUnique(d, Hour, hours, mins % 60 * Minute + secs % 60 * Second + d % Second);
    }
  }

  /** The label for an hour, thirty minutes and forty-five seconds. */
  lemma FormatDurationHours()
    ensures FormatDuration(Hour + 30 * Minute + 45 * Second) == "1h 30m 45s"
  {
    FormatDurationOfParts(1, 30, 45, 0);
    LabelExamples();
  }

  /** The label for two minutes and five seconds. */
  lemma FormatDurationMinutes()
    ensures FormatDuration(2 * Minute + 5 * Second) == "2m 5s"
  {
    FormatDurationOfParts(0, 2, 5, 0);
    LabelExamples();
  }

  /** The label for fifty-nine seconds. */
  lemma FormatDurationSeconds()
    ensures FormatDuration(59 * Second) == "59s"
  {
    FormatDurationOfParts(0, 0, 59, 0);
    LabelExamples();
  }

  lemma LabelExamples()
    ensures Label(1, 30, 45) == "1h 30m 45s"
    ensures Label(0, 2, 5) == "2m 5s"
    ensures Label(0, 0, 59) == "59s"
  {
    assert NatToString(1) == "1" && NatToString(30) == "30" && NatToString(45) == "45";
    assert NatToString(2) == "2" && NatToString(5) == "5" && NatToString(59) == "59";
  }

  /** With truncating `%` a negative duration prints negative parts, and a
      minus sign on the minutes hides them: -90s prints as `-30s`. */
  lemma NegativeDuration()
    ensures FormatDuration(-90 * Second) == "-30s"
  {
    assert TruncDiv(-90 * Second, Hour) == 0;
    assert TruncDiv(-90 * Second, Minute) == -1;
    assert TruncDiv(-90 * Second, Second) == -90;
    assert NatToString(30) == "30";
  }

  // ----------------------------------------------------------- conversion

  /** convertKeyframes: one report keyframe per detected keyframe, in order,
      with its index and timestamp, and the path SaveKeyframes writes its
      image to. */
  method ConvertKeyframes(keyframes: seq<Extract.Keyframe>, framesDir: string)
    returns (result: seq<Markdown.Keyframe>)
    ensures |result| == |keyframes|
    ensures forall i :: 0 <= i < |keyframes| ==>
      && result[i].index == keyframes[i].index
      && result[i].timestamp == keyframes[i].timestamp
      && result[i].path == Similarity.KeyframeImagePath(framesDir, keyframes[i])
  {
    ghost var want := seq(|keyframes|, j requires 0 <= j < |keyframes| =>
      Markdown.Keyframe(keyframes[j].index, keyframes[j].timestamp, Similarity.KeyframeImagePath(framesDir, keyframes[j])));
    var converted := new Markdown.Keyframe[|keyframes|];
    for i := 0 to |keyframes|
      invariant converted[..i] == want[..i]
    {
      var kf := keyframes[i];
      converted[i] := Markdown.Keyframe(kf.index, kf.timestamp, Similarity.KeyframeImagePath(framesDir, kf));
      assert converted[..i + 1] == converted[..i] + [want[i]];
    }
    result := converted[..];
    assert result == want[..|keyframes|];
  }

  /** The report links each keyframe to the file its image was saved in:
      inside the frames directory as Clean writes it (`./x` is `x`), under
      the name `frame_%04d.jpg`, and two keyframes of a detection run never
      share a file. */
  lemma KeyframeLinks(framesDir: string, keyframes: seq<Extract.Keyframe>, i: nat, j: nat)
    requires i < |keyframes|
    ensures GoPath.Dir(Similarity.KeyframeImagePath(framesDir, keyframes[i])) == GoPath.Clean(framesDir)
    ensures GoPath.Base(Similarity.KeyframeImagePath(framesDir, keyframes[i]))
         == Similarity.FrameImageName(keyframes[i].index)
    ensures Similarity.StrictlyIncreasing(keyframes) && i < j < |keyframes| ==>
      Similarity.KeyframeImagePath(framesDir, keyframes[i]) != Similarity.KeyframeImagePath(framesDir, keyframes[j])
  {
    var name := Similarity.FrameImageName(keyframes[i].index);
    Similarity.FrameImageNameIsName(keyframes[i].index);
    GoPath.DirBaseOfJoin(framesDir, name);
    if Similarity.StrictlyIncreasing(keyframes) && i < j < |keyframes| {
      Similarity.SavedPathsDistinct(framesDir, keyframes, i, j);
    }
  }

  /** convertSegments: an element-wise copy of the start, the end and the
      text of each segment. */
  method ConvertSegments(segments: seq<Transcribe.Segment>) returns (result: seq<Markdown.Segment>)
    ensures |result| == |segments|
    ensures forall i :: 0 <= i < |segments| ==>
      result[i].start == segments[i].start && result[i].end == segments[i].end && result[i].text == segments[i].text
  {
    var converted := new Markdown.Segment[|segments|];
    for i := 0 to |segments|
      invariant forall j :: 0 <= j < i ==>
        converted[j] == Markdown.Segment(segments[j].start, segments[j].end, segments[j].text)
    {
      var seg := segments[i];
      converted[i] := Markdown.Segment(seg.start, seg.end, seg.text);
    }
    result := converted[..];
  }
}
