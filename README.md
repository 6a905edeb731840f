# memorex, modelled in Dafny

memorex turns a video into a markdown report. ffmpeg samples one still per
second. Each still is compared with the one before it, and the ones that
change enough become keyframes. whisper transcribes the audio into timed
segments. The report lists the transcript and links the saved keyframe
images.

This project models the deterministic layer between those external tools:

- **Keyframe selection** (`internal/video/similarity.go`): the comparison
  loop of `DetectKeyframes` and the guards of the similarity score
  (normalised cross-correlation). It also covers the order and fail-fast
  stop of `SaveKeyframes`, and the `frame_%04d.jpg` file name.
- **Parsing whisper's text** (`internal/audio/transcribe.go`):
  - `parseTimestamp`;
  - the segment-line filter `parseWhisperOutput`;
  - the progress-line reader `parseWhisperProgress`;
  - the fallback to the plain transcript file in `runWhisper`;
  - the error order of `Transcribe`.
- **The report** (`internal/output/markdown.go`):
  - the `M:SS`/`H:MM:SS` duration label with rounding to the second;
  - the token estimate;
  - the data `WriteMarkdown` prepares;
  - the lines the template produces.
- **Listing frames** (`internal/video/extract.go`): scratch-directory
  entries become frames sorted by ordinal. The module also models the
  `out_time_us=` progress parser and the directory `CleanupFrames` removes.
- **The command line** (`cmd/memorex/main.go`):
  - the default output path;
  - the frames directory;
  - the `1h 30m 45s` label;
  - `convertKeyframes` and `convertSegments`.
- **The progress step** (`internal/ui/spinner.go`): a `Step` class whose
  methods change `percent`, `complete` and `failed`, plus the cell count of
  the progress bar.

## Modules

- **Shared modules:** `Wrappers` (Option, Result), `GoInt` (int64 range and
  wrap-around, Go's truncating `/` and `%`, the `time.Duration` units),
  `GoStrings` (the parts of `strings`, `strconv`, `unicode`, `bufio` and
  `fmt` the code uses), `GoPath` (`filepath.Base`, `Dir`, `Ext`, `Join` and
  the `Clean` that Join and Dir apply, on slash-separated paths) and `Seqs` (small sequence helpers).
- **One module per core file:** `Extract`, `Similarity`, `Transcribe`,
  `Markdown`, `Cli` and `Spinner`.

## Decisions

- Durations are int64 nanoseconds, as `time.Duration` is. Go multiplies
  them with wrap-around, and the model writes that out as `GoInt.Wrap`.
- Each loop in the source is a method. Its `ensures` ties the result to a
  specification function, and the properties the source promises are
  lemmas about that function.

## Model

| member | source | states |
|---|---|---|
| Similarity.Ncc | internal/video/similarity.go:134-137 | vectors of different lengths, or empty vectors, score exactly 0 |
| Similarity.NormalizedCrossCorrelation | internal/video/similarity.go:134-172 | the two accumulator loops and the guards compute the normalised cross-correlation `Ncc` |
| Similarity.SumPass | internal/video/similarity.go:142-146 | the first loop accumulates the sum of each vector |
| Similarity.DeviationPass | internal/video/similarity.go:151-158 | the second loop accumulates the cross product and the squared deviations from the means |
| Similarity.NccOfFlat | internal/video/similarity.go:160-166 | if either image is constant, its standard deviation is below 1e-10 and the score is exactly 1 |
| Similarity.NccOfSelf | internal/video/similarity.go:160-171 | an image that is not flat scores exactly 1 against itself (with a true square root) |
| Similarity.Scan | internal/video/similarity.go:28-71 | the comparison loop keeps between 1 and n frames, and the first kept frame is frames[0] |
| Similarity.ScanKeeps | internal/video/similarity.go:53-71 | with strictly increasing indices, frame i is kept exactly when i = 0 or the score of frame i against frame i-1 is below the threshold; kept frames stay in stream order |
| Similarity.ScanMembers | internal/video/similarity.go:60-71 | frame i survives the loop iff i = 0 or its score against the previous original frame (not the previous keyframe) is below the threshold |
| Similarity.ScanIncreasing | internal/video/similarity.go:63-69 | the loop appends frames in stream order, so kept indices are strictly increasing |
| Similarity.ScanBounded | internal/video/similarity.go:53-69 | no kept frame has an index past the last frame's |
| Similarity.Select | internal/video/similarity.go:23-85 | no frames give no keyframes; one frame gives exactly that frame; otherwise the keyframes start with frames[0] and end with the last frame's index |
| Similarity.SelectKeeps | internal/video/similarity.go:53-82 | with strictly increasing indices, frame i is a keyframe iff it is the first, the last, or scores below the threshold; the keyframes are strictly increasing (so a subsequence in order, never repeating the last frame), and the last keyframe is frames[n-1] |
| Similarity.SelectAddsLast | internal/video/similarity.go:79-82 | when the last frame was not kept by the loop, the closing step appends it and the selection properties hold |
| Similarity.SelectIsScan | internal/video/similarity.go:79-82 | when the loop already kept the last frame, the index check stops it being appended twice |
| Similarity.ScanBeforeLast | internal/video/similarity.go:63-80 | if the last frame's score is at or above the threshold, every kept frame comes before it |
| Similarity.ScanMonotone | internal/video/similarity.go:63 | a higher threshold keeps at least as many frames, and equal counts mean the same frames |
| Similarity.SelectMonotone | internal/video/similarity.go:63-82 | raising the threshold never decreases the number of keyframes |
| Similarity.SelectAllSimilar | internal/video/similarity.go:63-82 | when every adjacent score is at or above the threshold, exactly the first and the last frame are keyframes |
| Similarity.SelectAllDifferent | internal/video/similarity.go:63-82 | when every adjacent score is below the threshold, every frame is a keyframe |
| Similarity.ScanAllSimilar | internal/video/similarity.go:63 | with no score below the threshold, the loop keeps only frames[0] |
| Similarity.ScanAllDifferent | internal/video/similarity.go:63-69 | with every score below the threshold, the loop keeps every frame |
| Similarity.LoadGray | internal/video/similarity.go:97-105 | only `.png`, `.jpg` and `.jpeg` files are decoded; any other extension fails |
| Similarity.ListedFramesArePng | internal/video/similarity.go:97-100 | every frame listed from the scratch directory has extension `.png` and so passes the format check |
| Similarity.FirstUnloadable | internal/video/similarity.go:45-57 | the position of the first frame whose image fails to load: all before it load |
| Similarity.Scores | internal/video/similarity.go:53-60 | one score per consecutive pair of frames |
| Similarity.DetectKeyframes | internal/video/similarity.go:23-85 | empty input gives no keyframes, no error and no progress; one frame gives that frame and progress [1.0]; a first frame that fails to load is an error with no progress; a later frame k that fails is an error after progress 1/(n-1)..(k-1)/(n-1); otherwise the result is `Select` over the computed scores, after progress 1/(n-1)..(n-1)/(n-1) |
| Similarity.AppendLast | internal/video/similarity.go:78-82 | the last frame is appended unless the last keyframe already has its index |
| Similarity.IdenticalFlatFrames | internal/video/similarity.go:53-82 | identical solid-colour frames give exactly two keyframes for any threshold up to 1, such as three frames at 0.85 |
| Similarity.FrameImageName | internal/video/similarity.go:220 | the saved file is named `frame_...jpg` |
| Similarity.FrameImageNameInjective | internal/video/similarity.go:220 | different indices give different file names |
| Similarity.FrameImageNameExample | internal/video/similarity.go:220 | index 1 is saved as `frame_0001.jpg` |
| Similarity.SavedPathsDistinct | internal/video/similarity.go:220 | with strictly increasing indices, no two keyframes are written to the same path |
| Similarity.FrameImageNameIsName | internal/video/similarity.go:220 | the file name is a plain name: no directory part, even for a negative index, and neither `.` nor `..` |
| Similarity.SaveKeyframes | internal/video/similarity.go:175-186 | keyframes are saved in order; the first failure stops the loop with that keyframe's error after the ones before it were saved; progress after each save is (i+1)/total |
| Extract.FrameOf | internal/video/extract.go:119-124 | path is Join(tempDir, name); index is the decimal value of the digits (the int64 maximum if Atoi overflows); timestamp is (index-1) seconds |
| Extract.InsertByIndex | internal/video/extract.go:128-130 | inserting into a sorted list keeps it sorted by index and adds exactly one element |
| Extract.SortByIndex | internal/video/extract.go:128-130 | the sorted frames are ordered by non-decreasing index and are a permutation of the input |
| Extract.FramesFromEntries | internal/video/extract.go:105-137 | an error (`no frames extracted`) exactly when no non-directory entry matches `^(\d+)\.png$`; otherwise the frames of the matching entries, sorted by index and a permutation of them |
| Extract.MatchingMembers | internal/video/extract.go:109-125 | a frame is listed iff some non-directory entry with a matching name produced it |
| Extract.FfmpegFrameNameRoundTrip | internal/video/extract.go:106-123 | every `%04d.png` name ffmpeg writes matches the pattern and reads back as its ordinal, with timestamp (n-1) seconds |
| Extract.ProgressOfLine | internal/video/extract.go:145-156 | a line reports exactly when it starts with `out_time_us=` and the rest parses as an int64; the value is at most 1.0 |
| Extract.ProgressOfLineValue | internal/video/extract.go:151-155 | the value is (us * 1000) / duration capped at 1.0, and a negative time gives a negative value (no lower clamp) |
| Extract.ParseFFmpegProgress | internal/video/extract.go:141-159 | the values reported are those of the progress lines, in line order, each at most 1.0 |
| Extract.ExtractionProgress | internal/video/extract.go:89-91 | without a callback, or without a positive duration, nothing is reported |
| Extract.CleanupTarget | internal/video/extract.go:162-168 | nothing is removed for an empty list; otherwise the directory of the first frame |
| Extract.CleanupTargetsScratchDir | internal/video/extract.go:162-168 | for frames listed from a scratch directory, cleanup removes that directory, cleaned, which is the directory itself when it is already clean |
| Transcribe.DurationOf | internal/audio/transcribe.go:414-417 | the duration is h hours + m minutes + s seconds + ms milliseconds, with int64 wrap-around |
| Transcribe.ParseTimestamp | internal/audio/transcribe.go:384-420 | rejected as badly formed iff the string does not have exactly two ':'; a success is an int64 |
| Transcribe.ParseTimestampOfParts | internal/audio/transcribe.go:385-419 | `a:b:c.d` with numeric pieces parses to the duration of those four numbers, the fraction counted as plain milliseconds |
| Transcribe.ParseTimestampOfThree | internal/audio/transcribe.go:400-412 | without a '.', the milliseconds are 0 and there is no error |
| Transcribe.ParseTimestampRoundTrip | internal/audio/transcribe.go:384-420 | every `HH:MM:SS.mmm` whisper prints parses to h*3600000 + m*60000 + s*1000 + ms milliseconds |
| Transcribe.ParseTimestampRejects | internal/audio/transcribe.go:385-388 | "invalid" and "00:00" are rejected |
| Transcribe.ParseTimestampNoFraction | internal/audio/transcribe.go:406-412 | "00:00:00" is 0 |
| Transcribe.ParseTimestampShortFraction | internal/audio/transcribe.go:406-412 | "00:00:00.5" is 5 ms, not 500: the fraction is not scaled by its digit count |
| Transcribe.SkipRegexSpace | internal/audio/transcribe.go:359 | a greedy `\s*` run |
| Transcribe.SegmentMatchAt | internal/audio/transcribe.go:359 | a match starts with '[' and both captured timestamps have the `\d{2}:\d{2}:\d{2}\.\d{3}` shape |
| Transcribe.FindSegment | internal/audio/transcribe.go:364 | a line without '[' has no match |
| Transcribe.SegmentOfLine | internal/audio/transcribe.go:364-376 | a segment comes only from a matching line, and its text is trimmed and not empty |
| Transcribe.SegmentsOf | internal/audio/transcribe.go:362-378 | at most one segment per line, each with trimmed text that is not empty |
| Transcribe.ParseWhisperOutput | internal/audio/transcribe.go:355-381 | the loop yields the segments of the scanned lines, in line order |
| Transcribe.LineSegment | internal/audio/transcribe.go:363-377 | the loop body yields the segment of one line |
| Transcribe.NoBracketNoSegments | internal/audio/transcribe.go:355-381 | output without '[' (empty output, or output without timestamps) gives no segments |
| Transcribe.SegmentLineParses | internal/audio/transcribe.go:359-376 | a line `[ts --> ts]  text` yields its two timestamps and its trimmed text |
| Transcribe.SegmentLineMatches | internal/audio/transcribe.go:359 | the pattern captures both timestamps and the text of such a line |
| Transcribe.HelloWorldLine | internal/audio/transcribe_test.go:80-102 | `[00:00:00.000 --> 00:00:03.000]  Hello, world.` gives start 0, end 3 s and text `Hello, world.` |
| Transcribe.SkipDigits | internal/audio/transcribe.go:338 | a greedy `\d+` run |
| Transcribe.ProgressMatchAt | internal/audio/transcribe.go:338 | a match of `progress\s*=\s*(\d+)%` captures one or more digits |
| Transcribe.FindProgress | internal/audio/transcribe.go:342 | the leftmost match captures one or more digits |
| Transcribe.WhisperProgressOfLine | internal/audio/transcribe.go:341-349 | a matching line reports N/100, which is never negative |
| Transcribe.WhisperProgressReports | internal/audio/transcribe.go:340-350 | at most one report per line, none negative |
| Transcribe.ParseWhisperProgress | internal/audio/transcribe.go:336-351 | the loop yields the reports of the scanned lines, in line order |
| Transcribe.LineProgress | internal/audio/transcribe.go:341-349 | the loop body yields the report of one line |
| Transcribe.ProgressLineReports | internal/audio/transcribe.go:338-348 | `progress = N%` reports N/100, not capped at 1 |
| Transcribe.WhisperResult | internal/audio/transcribe.go:319-332 | parsed segments are returned as they are; with none, a readable non-empty transcript file gives one segment {0, 0, TrimSpace(content)}; otherwise the result is empty and there is no error |
| Transcribe.WhisperResultTexts | internal/audio/transcribe.go:320-329 | a segment's text is empty exactly when it is the fallback segment of a file that holds only white space |
| Transcribe.TranscribeResult | internal/audio/transcribe.go:58-92 | a missing model fails before anything runs; with the model present, a failed audio extraction fails as such before whisper runs, and a failed whisper run fails as such after; success exactly when the model exists and both subprocess steps succeed, giving runWhisper's result |
| Transcribe.SharesSplitRange | internal/audio/transcribe.go:64-84 | extraction reports into [0, 0.5] and recognition into [0.5, 1], each keeping the order of its own reports |
| Markdown.RoundToSecond | internal/output/markdown.go:135 | a non-negative duration rounds to a non-negative one |
| Markdown.RoundToSecondNearest | internal/output/markdown.go:135 | away from the int64 extremes, the result is a whole number of seconds at most half a second away, with halves rounded away from zero |
| Markdown.RoundWholeSeconds | internal/output/markdown.go:135 | a whole number of seconds is unchanged by rounding |
| Markdown.FormatDurationClock | internal/output/markdown.go:134-146 | a non-negative duration prints as the clock of its rounded value: minutes and seconds below 60 that, with the hours, give back the rounded value |
| Markdown.ClockParts | internal/output/markdown.go:136-140 | on a non-negative value, the step-by-step subtractions give the hours, the minutes within the hour and the seconds within the minute |
| Markdown.FormatRoundedAt | internal/output/markdown.go:136-145 | the label of a rounded duration is the clock of the parts the subtractions compute |
| Markdown.PartsAreClock | internal/output/markdown.go:142-145 | on non-negative parts, `%d` and `%02d` print the clock's digits |
| Markdown.FormatDurationOfClock | internal/output/markdown.go:134-146 | h hours, m < 60 minutes and s < 60 seconds print as `H:MM:SS` when h > 0 and `M:SS` otherwise |
| Markdown.FormatDurationMinutes | internal/output/markdown.go:142-145 | 0 prints as "0:00" and 90 s as "1:30" (minutes unpadded) |
| Markdown.FormatDurationHours | internal/output/markdown.go:142-143 | 1h30m45s prints as "1:30:45" and 2h5m3s as "2:05:03" |
| Markdown.TokenEstimate | internal/output/markdown.go:155-169 | the estimate is at least 100 plus 1000 per keyframe |
| Markdown.EstimateTokens | internal/output/markdown.go:149-170 | the accumulator loop computes 100 + the sum of floor(1.3 * words) over segments + 1000 per keyframe |
| Markdown.EmptyEstimate | internal/output/markdown.go:155-169 | an empty result estimates exactly 100 |
| Markdown.WordTokensOfText | internal/output/markdown.go:162-163 | a segment adds no tokens exactly when its text is only white space |
| Markdown.AppendSegment | internal/output/markdown.go:161-164 | appending a segment adds its word tokens and never lowers the estimate |
| Markdown.AppendKeyframe | internal/output/markdown.go:167 | appending a keyframe adds exactly 1000 |
| Markdown.PrepareTemplateData | internal/output/markdown.go:82-112 | the file name is Base(InputPath), plus the duration label, the frame count, the keyframe count and the estimate; segments and keyframes are converted in order |
| Markdown.ConvertSegmentData | internal/output/markdown.go:93-98 | each segment becomes its start label and its trimmed text, in order |
| Markdown.ConvertKeyframeData | internal/output/markdown.go:101-112 | each keyframe becomes its index, its timestamp label and its relative path, or its own path when Rel fails, in order |
| Markdown.HeaderLines | internal/output/markdown.go:36-43 | the fixed part of the document is eight lines |
| Markdown.SegmentLines | internal/output/markdown.go:47-48 | one `[start] text` line per segment, in order |
| Markdown.KeyframeLines | internal/output/markdown.go:53-56 | three lines per keyframe |
| Markdown.FrameHeadings | internal/output/markdown.go:53 | one `### Frame` heading per keyframe, in order |
| Markdown.HeaderPlain | internal/output/markdown.go:36-43 | the fixed lines hold no transcript line, no frame heading and neither block title |
| Markdown.SegmentLinesItems | internal/output/markdown.go:47-48 | the segment lines are all transcript lines and hold no frame heading and no block title |
| Markdown.KeyframeLinesItems | internal/output/markdown.go:53-55 | the frame headings among the keyframe lines are one per keyframe, in order, and there is no transcript line |
| Markdown.TranscriptBlockItems | internal/output/markdown.go:44-49 | the transcript block's transcript lines are exactly the segment lines |
| Markdown.KeyframeBlockItems | internal/output/markdown.go:50-57 | the keyframe block's frame headings are exactly one per keyframe |
| Markdown.TranscriptTitle | internal/output/markdown.go:44-49 | "## Transcript" is in the block iff there are segments |
| Markdown.KeyframesTitle | internal/output/markdown.go:50-57 | "## Keyframes" is in the block iff there are keyframes |
| Markdown.RenderItems | internal/output/markdown.go:36-57 | the document's transcript lines are exactly the segments' lines, and its frame headings exactly the keyframes' headings, in input order |
| Markdown.RenderBlocks | internal/output/markdown.go:44-57 | "## Transcript" appears iff there are segments, and "## Keyframes" iff there are keyframes |
| Markdown.RenderHeader | internal/output/markdown.go:36-41 | the first line is `# Video Analysis: ` + filename, and the sixth is the keyframe count |
| Markdown.ReportContents | internal/output/markdown.go:82-112 | the report's title is Base(InputPath) and it states len(Keyframes); each segment shows in order as `[` + formatDuration(Start) + `] ` + TrimSpace(Text), and each keyframe as `### Frame index (timestamp)` |
| Cli.DefaultOutputPathShape | cmd/memorex/main.go:65-69 | the default output is the input without its extension, plus `_memorex.md`, so its extension is `.md` |
| Cli.FramesDirShape | cmd/memorex/main.go:72 | a `.md` output loses `.md` before `_frames`; any other output just gets `_frames` appended |
| Cli.DefaultFramesDir | cmd/memorex/main.go:65-72 | with the default output the frames go to `<input without extension>_memorex_frames` |
| Cli.FormatDurationOfParts | cmd/memorex/main.go:188-200 | h hours, m < 60 minutes, s < 60 seconds and under a second more print with exactly those three numbers |
| Cli.PartsOf | cmd/memorex/main.go:189-191 | the truncating divisions of such a duration give h, the total minutes and the total seconds |
| Cli.FormatDurationParts | cmd/memorex/main.go:188-200 | every non-negative duration prints its hours, its minutes below 60 and its seconds below 60, which together give back its whole seconds |
| Cli.FormatDurationHours | cmd/memorex/main.go:193-194 | 1h30m45s prints as "1h 30m 45s" |
| Cli.FormatDurationMinutes | cmd/memorex/main.go:196-197 | 2m5s prints as "2m 5s" |
| Cli.FormatDurationSeconds | cmd/memorex/main.go:199 | 59 s prints as "59s" |
| Cli.NegativeDuration | cmd/memorex/main.go:188-200 | a negative duration keeps negative parts under truncating `%`: -90 s prints as "-30s" |
| Cli.ConvertKeyframes | cmd/memorex/main.go:202-212 | same length and order; each keyframe keeps its index and timestamp, and its path is Join(framesDir, `frame_%04d.jpg`), cleaned as Go's Join cleans, the path saveKeyframe writes |
| Cli.KeyframeLinks | cmd/memorex/main.go:208 | for any frames directory, the linked file lies in that directory, cleaned, under the frame's image name, and two keyframes never share a file |
| Cli.ConvertSegments | cmd/memorex/main.go:214-224 | an element-wise copy of start, end and text, with the same length |
| Spinner.NewState | internal/ui/spinner.go:35-37 | a new step has percent 0 and is neither complete nor failed |
| Spinner.Updated | internal/ui/spinner.go:42-50 | update does nothing once complete or failed; otherwise it stores the value unclamped; it never changes the flags |
| Spinner.Completed | internal/ui/spinner.go:53-61 | complete sets complete and percent 1.0 even on a failed step |
| Spinner.Errored | internal/ui/spinner.go:64-71 | error sets failed and leaves percent and complete as they were |
| Spinner.UpdatedAllKeepsFlags | internal/ui/spinner.go:42-50 | a run of updates never changes the flags, and on an unfinished step leaves the last value reported |
| Spinner.FinishedIgnoresUpdates | internal/ui/spinner.go:45-47 | once complete or failed, no run of updates changes the step |
| Spinner.FinishedSteps | internal/ui/spinner.go:45-67 | after complete the step stays at 100%; after error the value stays where it was |
| Spinner.DisplayPercent | internal/ui/spinner.go:74-77 | the shown percentage is the value times 100, capped at 100 |
| Spinner.Trunc | internal/ui/spinner.go:86 | the int conversion truncates toward zero |
| Spinner.FilledCells | internal/ui/spinner.go:86-89 | the number of full cells is trunc(percent/100 * width), clamped to [0, width] |
| Spinner.RenderProgressBar | internal/ui/spinner.go:85-100 | exactly `width` cells (none for width <= 0): FilledCells full ones, then empty ones |
| Spinner.BarExamples | internal/ui/spinner.go:73-78 | a completed step draws a full bar; half the work draws 10 of 20 cells |
| Spinner.OverfullDisplay | internal/ui/spinner.go:42-78 | a value above 1 is stored as given but shown as 100% with a full bar |
| Spinner.Step.constructor | internal/ui/spinner.go:35-37 | a new Step has its name and the initial state |
| Spinner.Step.Update | internal/ui/spinner.go:42-50 | the new state is `Updated` of the old state |
| Spinner.Step.Complete | internal/ui/spinner.go:53-61 | the new state is `Completed` of the old state |
| Spinner.Step.Error | internal/ui/spinner.go:64-71 | the new state is `Errored` of the old state |
| Spinner.Step.Render | internal/ui/spinner.go:73-83 | the percentage drawn is the capped display value, and the bar has 20 cells filled as FilledCells says |
| GoStrings.FieldsEmptyIff | internal/output/markdown.go:162 | strings.Fields gives no words exactly when the text is all white space |
| GoStrings.FormatIntWidthInjective | internal/video/similarity.go:220 | `%04d` never prints two numbers the same way |
| GoStrings.IntToStringRoundTrip | internal/audio/transcribe.go:390-401 | `%d` of any int64 reads back through Atoi |
| GoPath.JoinOfName | cmd/memorex/main.go:208 | Join of a directory and a plain file name is the cleaned directory, then '/', then the name; the cleaned "." adds nothing and the root adds only '/' |
| GoPath.DirBaseOfJoin | internal/video/extract.go:166 | for any directory, Dir of Join(dir, name) is the cleaned dir, and Base is the name |
| GoPath.RenderRoundTrip | internal/video/extract.go:166 | the elements Clean keeps, written out and cleaned again, give back the same elements and the same root |
| GoPath.CleanIdempotent | internal/video/extract.go:166 | cleaning a cleaned path changes nothing |
| GoPath.CleanDotSlash | cmd/memorex/main.go:208 | a leading `./` is dropped |
| GoPath.CleanDoubleSlash | cmd/memorex/main.go:208 | a doubled separator becomes one |
| GoPath.CleanRootParent | cmd/memorex/main.go:208 | `..` right after the root is dropped |
| GoPath.CleanParentPastStart | cmd/memorex/main.go:208 | `..` removes the name before it, and a `..` with no name before it in a relative path stays |
| GoPath.JoinDotSlash | cmd/memorex/main.go:208 | an image joined onto `./dir` lands in `dir/`, and its Dir is `dir` |

## Left out

- Time unit: durations are nanoseconds, as `time.Duration` is, not milliseconds. A parsed timestamp of h:m:s.ms is h*3600000 + m*60000 + s*1000 + ms milliseconds in nanoseconds.
- Similarity.Ncc: the floating-point body (means, `math.Sqrt`, the division) is on real numbers. `sqrt` is a parameter, and only the guards are proved as the source states them; IEEE rounding is not modelled.
- Similarity.LoadGray: opening, decoding, resizing and grey-level conversion of an image are a parameter `decode`.
- Similarity.SaveKeyframes: whether saveKeyframe succeeds for a keyframe (open, decode, Lanczos resize, JPEG encode, create) is a parameter `save`. Only the loop, the stop at the first failure, the progress values and the file name are modelled.
- Extract.SortByIndex: `sort.Slice` is unstable, so the order of equal indices is unspecified. The model sorts by insertion, and its contract states only what the source guarantees: sorted and a permutation.
- Markdown.WordTokens: `int(float64(words) * 1.3)` is `words * 13 / 10`. The two agree except where float64 rounding of huge word counts differs, and token sums are unbounded integers rather than wrapping at 64 bits.
- Markdown.ConvertKeyframeData: `filepath.Rel` is a parameter `rel`.
- Markdown.Render: the document is a sequence of template lines. Byte-exact text/template whitespace is not modelled. An element is one template line, which may hold '\n': the fallback segment of `runWhisper` carries the whole trimmed transcript file as its text, so its `[start] text` element spans as many lines of the file as that text has.
- Cli.FormatDuration: `int(d.Hours())`, `int(d.Minutes())` and `int(d.Seconds())` convert float64 values, and the model uses exact truncating integer division instead. The two differ from about 4096 hours (170 days) on, at instants a tiny fraction of a unit short of a whole hour, minute or second, where the float64 value rounds up to that whole unit: Hours() from 4096 hours, Minutes() from 2^18 minutes (about 4369 hours), Seconds() from 2^24 seconds (about 4660 hours). Worked by hand from Go's formulas, 4370h59m59.999999999s prints as "4371h 0m 59s" in Go and as "4370h 59m 59s" in the model.
- Spinner.Trunc: a float64-to-int conversion of NaN or out-of-range values is not modelled, and the fraction a step holds is a real number.
- Spinner.Step: the mutex, the lipgloss styling, the escape sequences and the messages written by Complete and Error are terminal output. The `%3.0f%%` text of render is also not modelled.
- Transcribe.ParseWhisperOutput / ParseWhisperProgress / Extract.ParseFFmpegProgress: the stream is the whole text the pipe delivers. bufio.Scanner's 64 KiB line limit and the goroutines reading the pipes are not modelled.
- Transcribe.TranscribeResult: whether the model file exists, whether ffmpeg succeeds and whether whisper succeeds are parameters. The transcript file's content is an Option (None when it cannot be read).
- Extract.ParseFFmpegProgress also models the audio copy of the progress parser (internal/audio/transcribe.go:222-240), which is the same loop line for line.
- GoPath: only the Unix flavour of `path/filepath` is modelled: no volume names, and '/' is the only separator.
- Subprocesses and the network: ffprobe (`GetDuration`), running ffmpeg and whisper, the whisper executable lookup, the HTTP model download and its temp-file rename, and temp-file creation and removal are I/O and not modelled.
- The CLI: cobra flag parsing, the order of stages in `run`, `ui.Print*` and creating the frames directory are orchestration and terminal output, and are not modelled.

## Code and intent

- A whisper transcript file that holds only white space falls back to one segment with empty text (internal/audio/transcribe.go:323-328). So "every segment has text" holds only for parsed segments. `Transcribe.WhisperResultTexts` states exactly when a text is empty.
- The terminal label of `cmd/memorex/main.go` prints a negative duration with the sign on every part it shows, for example -90 s as "-30s" (`Cli.NegativeDuration`). The model keeps this behaviour as written.
