/** Frame listing, ffmpeg progress parsing and the cleanup target of
    internal/video/extract.go. Running ffmpeg and ffprobe, creating the
    scratch directory and reading it are I/O: the model starts from the
    directory entries and the progress text they produce. */
module Extract {
  import opened Wrappers
  import opened GoInt
  import opened GoStrings
  import GoPath

  /** A sampled still: its file, its 1-based ordinal and its capture time
      (nanoseconds). */
  datatype Frame = Frame(path: string, index: int, timestamp: Int64)

  /** A selected frame has the same fields as a frame. */
  type Keyframe = Frame

  /** One entry of the scratch directory listing. */
  datatype DirEntry = DirEntry(name: string, isDir: bool)

  datatype ExtractError = NoFramesExtracted

  // ------------------------------------------------------ frame listing

  /** The name matches `^(\d+)\.png$`. */
  predicate IsFrameFileName(name: string) {
    |name| > 4 && HasSuffix(name, ".png") && AllDigits(name[..|name| - 4])
  }

  /** The name ffmpeg gives the n-th frame under the output pattern
      `%04d.png`. */
  function FfmpegFrameName(n: nat): string {
    FormatIntWidth(n, 4) + ".png"
  }

  /** Largest ordinal whose timestamp `(index-1)` seconds fits int64. */
  const MaxExactIndex: int := 9_223_372_037

  /** The frame for a matching file name: its ordinal is the decimal value
      of the digits (Atoi's error is discarded, so an overflowing ordinal
      reads as the int64 maximum), its timestamp is `(index-1)` seconds at
      one frame per second, and it lives in the scratch directory. */
  function FrameOf(tempDir: string, name: string): (f: Frame)
    requires IsFrameFileName(name)
    ensures f.path == GoPath.Join(tempDir, name)
    ensures 0 <= f.index <= MaxInt64
    ensures DecimalValue(name[..|name| - 4]) <= MaxInt64 ==> f.index == DecimalValue(name[..|name| - 4])
    ensures f.index <= MaxExactIndex ==> f.timestamp == (f.index - 1) * Second
    ensures InInt64(f.timestamp)
  {
    var index := AtoiValue(name[..|name| - 4]);
    Frame(GoPath.Join(tempDir, name), index, Wrap((index - 1) * Second))
  }

  predicate IsFrameEntry(e: DirEntry) {
    !e.isDir && IsFrameFileName(e.name)
  }

  /** The frames of the matching entries, in listing order. */
  function Matching(tempDir: string, entries: seq<DirEntry>): seq<Frame> {
    if |entries| == 0 then []
    else
      var last := entries[|entries| - 1];
      Matching(tempDir, entries[..|entries| - 1])
        + if IsFrameEntry(last) then [FrameOf(tempDir, last.name)] else []
  }

  predicate SortedByIndex(fs: seq<Frame>) {
    forall i, j :: 0 <= i < j < |fs| ==> fs[i].index <= fs[j].index
  }

  function InsertByIndex(f: Frame, fs: seq<Frame>): (r: seq<Frame>)
    requires SortedByIndex(fs)
    ensures SortedByIndex(r)
    ensures multiset(r) == multiset(fs) + multiset{f}
  {
    if fs == [] then [f]
    else if f.index <= fs[0].index then [f] + fs
    else
      var rest := InsertByIndex(f, fs[1..]);
      assert fs == [fs[0]] + fs[1..];
      HeadBelowRest(f, fs, rest);
      [fs[0]] + rest
  }

  /** Inserting a later frame into the tail keeps the head first. */
  lemma HeadBelowRest(f: Frame, fs: seq<Frame>, rest: seq<Frame>)
    requires SortedByIndex(fs) && |fs| > 0 && fs[0].index < f.index
    requires multiset(rest) == multiset(fs[1..]) + multiset{f}
    ensures forall k :: 0 <= k < |rest| ==> fs[0].index <= rest[k].index
  {
    forall k | 0 <= k < |rest|
      ensures fs[0].index <= rest[k].index
    {
      assert rest[k] in multiset(rest);
      if rest[k] != f {
        assert rest[k] in multiset(fs[1..]);
        SortedHeadIsLeast(fs, rest[k]);
      }
    }
  }

  lemma SortedHeadIsLeast(fs: seq<Frame>, x: Frame)
    requires SortedByIndex(fs) && |fs| > 0 && x in fs[1..]
    ensures fs[0].index <= x.index
  {
    var j :| 0 <= j < |fs[1..]| && fs[1..][j] == x;
    assert fs[j + 1] == x;
  }

  /** Sorting the frames by ordinal (sort.Slice): the result is ordered by
      non-decreasing index and is a permutation of the input. */
  function SortByIndex(fs: seq<Frame>): (r: seq<Frame>)
    ensures SortedByIndex(r)
    ensures multiset(r) == multiset(fs)
  {
    if fs == [] then []
    else
      assert fs == fs[..|fs| - 1] + [fs[|fs| - 1]];
      InsertByIndex(fs[|fs| - 1], SortByIndex(fs[..|fs| - 1]))
  }

  /** The part of ExtractFrames after ffmpeg has run: the matching entries
      of the scratch directory become frames, sorted by ordinal; no
      matching entry is an error. */
  method FramesFromEntries(tempDir: string, entries: seq<DirEntry>) returns (r: Result<seq<Frame>, ExtractError>)
    ensures r.Failure? <==> Matching(tempDir, entries) == []
    ensures r.Failure? ==> r.error == NoFramesExtracted
    ensures r.Success? ==> SortedByIndex(r.value) && multiset(r.value) == multiset(Matching(tempDir, entries))
  {
    var frames: seq<Frame> := [];
    for i := 0 to |entries|
      invariant frames == Matching(tempDir, entries[..i])
    {
      assert entries[..i + 1][..i] == entries[..i];
      var entry := entries[i];
      if entry.isDir {
        continue;
      }
      if !IsFrameFileName(entry.name) {
        continue;
      }
      frames := frames + [FrameOf(tempDir, entry.name)];
    }
    assert entries[..|entries|] == entries;
    var sorted := SortByIndex(frames);
    if |sorted| == 0 {
      return Failure(NoFramesExtracted);
    }
    return Success(sorted);
  }

  /** A frame is listed exactly when some non-directory entry with a
      matching name produced it. */
  lemma {:induction false} MatchingMembers(tempDir: string, entries: seq<DirEntry>, f: Frame)
    ensures f in Matching(tempDir, entries) <==>
      exists e :: e in entries && IsFrameEntry(e) && f == FrameOf(tempDir, e.name)
  {
    if |entries| > 0 {
      var init := entries[..|entries| - 1];
      var last := entries[|entries| - 1];
      assert entries == init + [last];
      MatchingMembers(tempDir, init, f);
      if f in Matching(tempDir, entries) && f !in Matching(tempDir, init) {
        assert last in entries;
      }
      if exists e :: e in entries && IsFrameEntry(e) && f == FrameOf(tempDir, e.name) {
        var e :| e in entries && IsFrameEntry(e) && f == FrameOf(tempDir, e.name);
        if e != last {
          assert e in init;
        }
      }
    }
  }

  /** Every name ffmpeg writes is a frame file name that reads back as its
      ordinal, with timestamp `(n-1)` seconds. */
  lemma FfmpegFrameNameRoundTrip(tempDir: string, n: nat)
    requires n <= MaxExactIndex
    ensures IsFrameFileName(FfmpegFrameName(n))
    ensures FrameOf(tempDir, FfmpegFrameName(n)).index == n
    ensures FrameOf(tempDir, FfmpegFrameName(n)).timestamp == (n - 1) * Second
  {
    var name := FfmpegFrameName(n);
    var digits := FormatIntWidth(n, 4);
    assert name[..|name| - 4] == digits;
    assert name[|name| - 4..] == ".png";
    ZeroPadReadsBack(n, 4);
  }

  // ------------------------------------------------- progress parsing

  const OutTimePrefix: string := "out_time_us="

  /** The fraction one line of ffmpeg's `-progress` output reports, if any:
      only `out_time_us=<int64>` lines count; the fraction is capped at 1.0
      but not clamped below 0. */
  function ProgressOfLine(line: string, totalDuration: int): (p: Option<real>)
    requires totalDuration > 0
    ensures p.Some? <==> HasPrefix(line, OutTimePrefix) && ParseInt(line[|OutTimePrefix|..]).Some?
    ensures p.Some? ==> p.value <= 1.0
  {
    if !HasPrefix(line, OutTimePrefix) then None
    else match ParseInt(line[|OutTimePrefix|..])
      case None => None
      case Some(us) =>
        var currentTime := Wrap(us * Microsecond);
        var percent := currentTime as real / totalDuration as real;
        Some(if percent > 1.0 then 1.0 else percent)
  }

  /** The fractions reported for a sequence of lines, in line order. */
  function ProgressReports(lines: seq<string>, totalDuration: int): seq<real>
    requires totalDuration > 0
  {
    if |lines| == 0 then []
    else
      var p := ProgressOfLine(lines[|lines| - 1], totalDuration);
      ProgressReports(lines[..|lines| - 1], totalDuration) + if p.Some? then [p.value] else []
  }

  /** parseFFmpegProgress over the whole of ffmpeg's progress stream: the
      values handed to the callback, in order. */
  method ParseFFmpegProgress(output: string, totalDuration: int) returns (reports: seq<real>)
    requires totalDuration > 0
    ensures reports == ProgressReports(Lines(output), totalDuration)
    ensures |reports| <= |Lines(output)|
    ensures forall k :: 0 <= k < |reports| ==> reports[k] <= 1.0
  {
    var lines := Lines(output);
    reports := [];
    var i := 0;
    while i < |lines|
      invariant 0 <= i <= |lines|
      invariant reports == ProgressReports(lines[..i], totalDuration)
      invariant |reports| <= i
      invariant forall k :: 0 <= k < |reports| ==> reports[k] <= 1.0
    {
      assert lines[..i + 1][..i] == lines[..i];
      var line := lines[i];
      i := i + 1;
      if !HasPrefix(line, OutTimePrefix) {
        continue;
      }
      var parsed := ParseInt(line[|OutTimePrefix|..]);
      if parsed.None? {
        continue;
      }
      var currentTime := Wrap(parsed.value * Microsecond);
      var percent := currentTime as real / totalDuration as real;
      if percent > 1.0 {
        percent := 1.0;
      }
      reports := reports + [percent];
    }
    assert lines[..|lines|] == lines;
  }

  /** The value of an `out_time_us=` line: elapsed time over the duration,
      capped at 1.0; a negative elapsed time gives a negative fraction. */
  lemma ProgressOfLineValue(line: string, totalDuration: int, us: int)
    requires totalDuration > 0
    requires HasPrefix(line, OutTimePrefix) && ParseInt(line[|OutTimePrefix|..]) == Some(us)
    requires InInt64(us * Microsecond)
    ensures var exact := (us * Microsecond) as real / totalDuration as real;
      ProgressOfLine(line, totalDuration) == Some(if exact > 1.0 then 1.0 else exact)
    ensures us < 0 ==> ProgressOfLine(line, totalDuration).value < 0.0
  {
    assert Wrap(us * Microsecond) == us * Microsecond;
    if us < 0 {
      assert us * Microsecond < 0;
      NegativeOverPositive((us * Microsecond) as real, totalDuration as real);
    }
  }

  lemma NegativeOverPositive(x: real, y: real)
    requires x < 0.0 < y
    ensures x / y < 0.0
  {
  }

  /** The progress reader runs only when a callback is given and the
      duration is known (positive). */
  function ExtractionProgress(hasCallback: bool, duration: int, stdout: string): (r: seq<real>)
    ensures !hasCallback || duration <= 0 ==> r == []
    ensures hasCallback && duration > 0 ==> r == ProgressReports(Lines(stdout), duration)
  {
    if hasCallback && duration > 0 then ProgressReports(Lines(stdout), duration) else []
  }

  // ------------------------------------------------------------ cleanup

  /** The directory CleanupFrames removes: none for no frames, otherwise
      the directory of the first frame. */
  function CleanupTarget(frames: seq<Frame>): (r: Option<string>)
    ensures r.None? <==> frames == []
  {
    if |frames| == 0 then None else Some(GoPath.Dir(frames[0].path))
  }

  /** A frame file name is a plain file name: no separator, and neither
      `.` nor `..`. */
  lemma FrameFileNameIsName(name: string)
    requires IsFrameFileName(name)
    ensures GoPath.IsName(name)
  {
    var digits := name[..|name| - 4];
    assert name == digits + ".png";
    forall k | 0 <= k < |name|
      ensures name[k] != '/'
    {
      if k < |digits| {
        assert IsDigit(digits[k]);
      }
    }
  }

  /** For frames listed from a scratch directory, the cleanup target is
      that directory, cleaned; os.MkdirTemp returns a joined path, which is
      already clean, so it is the scratch directory itself. */
  lemma CleanupTargetsScratchDir(tempDir: string, entries: seq<DirEntry>, frames: seq<Frame>)
    requires frames != [] && multiset(frames) == multiset(Matching(tempDir, entries))
    ensures CleanupTarget(frames) == Some(GoPath.Clean(tempDir))
    ensures GoPath.Clean(tempDir) == tempDir ==> CleanupTarget(frames) == Some(tempDir)
  {
    assert frames[0] in multiset(Matching(tempDir, entries));
    MatchingMembers(tempDir, entries, frames[0]);
    var e :| e in entries && IsFrameEntry(e) && frames[0] == FrameOf(tempDir, e.name);
    FrameFileNameIsName(e.name);
    GoPath.DirBaseOfJoin(tempDir, e.name);
  }
}
