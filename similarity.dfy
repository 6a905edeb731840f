/** Keyframe detection and keyframe saving of internal/video/similarity.go.
    Decoding, resizing and converting an image to grey levels is I/O and
    floating-point image processing: the model takes it as a parameter
    `decode` from a file path to the grey vector (None when the file cannot
    be opened or decoded), and `math.Sqrt` as a parameter `sqrt`. Scores are
    real numbers, not float64. */
module Similarity {
  import opened Wrappers
  import opened GoStrings
  import opened Extract
  import opened Seqs
  import GoPath

  // ------------------------------------------------------ similarity score

  /** Below this standard deviation an image counts as flat. */
  const FlatStd: real := 0.0000000001

  function Sum(s: seq<real>): real {
    if |s| == 0 then 0.0 else Sum(s[..|s| - 1]) + s[|s| - 1]
  }

  function SumSqDev(s: seq<real>, mean: real): real {
    if |s| == 0 then 0.0
    else SumSqDev(s[..|s| - 1], mean) + (s[|s| - 1] - mean) * (s[|s| - 1] - mean)
  }

  function SumCross(a: seq<real>, b: seq<real>, meanA: real, meanB: real): real
    requires |a| == |b|
  {
    if |a| == 0 then 0.0
    else SumCross(a[..|a| - 1], b[..|b| - 1], meanA, meanB) + (a[|a| - 1] - meanA) * (b[|b| - 1] - meanB)
  }

  function Mean(s: seq<real>): real
    requires |s| > 0
  {
    Sum(s) / |s| as real
  }

  function StdDev(s: seq<real>, sqrt: real -> real): real
    requires |s| > 0
  {
    sqrt(SumSqDev(s, Mean(s)) / |s| as real)
  }

  /** The normalised cross-correlation of two grey vectors: 0 when their
      lengths differ or they are empty, 1 when either is flat, otherwise the
      covariance divided by the product of the standard deviations. */
  function Ncc(a: seq<real>, b: seq<real>, sqrt: real -> real): (r: real)
    ensures |a| != |b| || |a| == 0 ==> r == 0.0
  {
    if |a| != |b| || |a| == 0 then 0.0
    else if StdDev(a, sqrt) < FlatStd || StdDev(b, sqrt) < FlatStd then 1.0
    else
      Normalise(SumCross(a, b, Mean(a), Mean(b)), |a| as real, StdDev(a, sqrt), StdDev(b, sqrt))
  }

  /** The covariance sum over `n` times both standard deviations. */
  function Normalise(cross: real, n: real, stdA: real, stdB: real): real
    requires n > 0.0 && stdA > 0.0 && stdB > 0.0
  {
    ProductPositive(n, stdA, stdB);
    cross / (n * stdA * stdB)
  }

  lemma ProductPositive(x: real, y: real, z: real)
    requires x > 0.0 && y > 0.0 && z > 0.0
    ensures x * y * z > 0.0
  {
    assert x * y > 0.0;
  }

  /** normalizedCrossCorrelation: one pass for the sums, one for the
      squared and crossed deviations from the means. */
  method NormalizedCrossCorrelation(a: seq<real>, b: seq<real>, sqrt: real -> real) returns (r: real)
    ensures r == Ncc(a, b, sqrt)
  {
    if |a| != |b| || |a| == 0 {
      return 0.0;
    }
    var n := |a| as real;
    var sumA, sumB := SumPass(a, b);
    var meanA := sumA / n;
    var meanB := sumB / n;
    var sumProduct, sumSqA, sumSqB := DeviationPass(a, b, meanA, meanB);
    var stdA := sqrt(sumSqA / n);
    var stdB := sqrt(sumSqB / n);
    if stdA < FlatStd || stdB < FlatStd {
      return 1.0;
    }
    r := Normalise(sumProduct, n, stdA, stdB);
  }

  /** The first loop of normalizedCrossCorrelation. */
  method SumPass(a: seq<real>, b: seq<real>) returns (sumA: real, sumB: real)
    requires |a| == |b|
    ensures sumA == Sum(a) && sumB == Sum(b)
  {
    sumA, sumB := 0.0, 0.0;
    for i := 0 to |a|
      invariant sumA == Sum(a[..i]) && sumB == Sum(b[..i])
    {
      PrefixStep(a, b, i, 0.0, 0.0);
      sumA := sumA + a[i];
      sumB := sumB + b[i];
    }
    assert a[..|a|] == a && b[..|b|] == b;
  }

  /** The second loop of normalizedCrossCorrelation. */
  method DeviationPass(a: seq<real>, b: seq<real>, meanA: real, meanB: real)
    returns (sumProduct: real, sumSqA: real, sumSqB: real)
    requires |a| == |b|
    ensures sumProduct == SumCross(a, b, meanA, meanB)
    ensures sumSqA == SumSqDev(a, meanA) && sumSqB == SumSqDev(b, meanB)
  {
    sumProduct, sumSqA, sumSqB := 0.0, 0.0, 0.0;
    for i := 0 to |a|
      invariant sumProduct == SumCross(a[..i], b[..i], meanA, meanB)
      invariant sumSqA == SumSqDev(a[..i], meanA)
      invariant sumSqB == SumSqDev(b[..i], meanB)
    {
      PrefixStep(a, b, i, meanA, meanB);
      // the deviations of a[i] and b[i] from the means, multiplied
      sumProduct := sumProduct + (a[i] - meanA) * (b[i] - meanB);
      sumSqA := sumSqA + (a[i] - meanA) * (a[i] - meanA);
      sumSqB := sumSqB + (b[i] - meanB) * (b[i] - meanB);
    }
    assert a[..|a|] == a && b[..|b|] == b;
  }

  /** One more element of each sum. */
  lemma PrefixStep(a: seq<real>, b: seq<real>, i: nat, meanA: real, meanB: real)
    requires |a| == |b| && i < |a|
    ensures Sum(a[..i + 1]) == Sum(a[..i]) + a[i] && Sum(b[..i + 1]) == Sum(b[..i]) + b[i]
    ensures SumSqDev(a[..i + 1], meanA) == SumSqDev(a[..i], meanA) + (a[i] - meanA) * (a[i] - meanA)
    ensures SumSqDev(b[..i + 1], meanB) == SumSqDev(b[..i], meanB) + (b[i] - meanB) * (b[i] - meanB)
    ensures SumCross(a[..i + 1], b[..i + 1], meanA, meanB) == SumCross(a[..i], b[..i], meanA, meanB) + (a[i] - meanA) * (b[i] - meanB)
  {
    assert a[..i + 1][..i] == a[..i] && b[..i + 1][..i] == b[..i];
  }

  predicate Constant(s: seq<real>, c: real) {
    forall i :: 0 <= i < |s| ==> s[i] == c
  }

  lemma {:induction false} SumOfConstant(s: seq<real>, c: real)
    requires Constant(s, c)
    ensures Sum(s) == |s| as real * c
  {
    if |s| > 0 {
      SumOfConstant(s[..|s| - 1], c);
    }
  }

  lemma {:induction false} SumSqDevOfConstant(s: seq<real>, c: real)
    requires Constant(s, c)
    ensures SumSqDev(s, c) == 0.0
  {
    if |s| > 0 {
      SumSqDevOfConstant(s[..|s| - 1], c);
    }
  }

  lemma ConstantIsFlat(s: seq<real>, c: real, sqrt: real -> real)
    requires |s| > 0 && Constant(s, c) && sqrt(0.0) == 0.0
    ensures StdDev(s, sqrt) < FlatStd
  {
    SumOfConstant(s, c);
    assert Mean(s) == c;
    SumSqDevOfConstant(s, c);
  }

  /** A solid-colour image scores 1 against any image of its size (the
      guard against division by zero). */
  lemma NccOfFlat(a: seq<real>, b: seq<real>, c: real, sqrt: real -> real)
    requires |a| == |b| > 0 && sqrt(0.0) == 0.0
    requires Constant(a, c) || Constant(b, c)
    ensures Ncc(a, b, sqrt) == 1.0
  {
    if Constant(a, c) {
      ConstantIsFlat(a, c, sqrt);
    } else {
      ConstantIsFlat(b, c, sqrt);
    }
  }

  lemma {:induction false} SumSqDevNonNegative(s: seq<real>, mean: real)
    ensures SumSqDev(s, mean) >= 0.0
  {
    if |s| > 0 {
      SumSqDevNonNegative(s[..|s| - 1], mean);
      SquareNonNegative(s[|s| - 1] - mean);
    }
  }

  lemma SquareNonNegative(x: real)
    ensures x * x >= 0.0
  {
    if x < 0.0 {
      assert x * x == (-x) * (-x);
    }
  }

  lemma {:induction false} SumCrossOfSelf(s: seq<real>, mean: real)
    ensures SumCross(s, s, mean, mean) == SumSqDev(s, mean)
  {
    if |s| > 0 {
      SumCrossOfSelf(s[..|s| - 1], mean);
    }
  }

  /** An image that is not flat correlates perfectly with itself, given a
      square root. */
  lemma NccOfSelf(a: seq<real>, sqrt: real -> real)
    requires forall x :: x >= 0.0 ==> sqrt(x) >= 0.0 && sqrt(x) * sqrt(x) == x
    requires |a| > 0 && StdDev(a, sqrt) >= FlatStd
    ensures Ncc(a, a, sqrt) == 1.0
  {
    var n := |a| as real;
    var total := SumSqDev(a, Mean(a));
    var std := StdDev(a, sqrt);
    SumSqDevNonNegative(a, Mean(a));
    SumCrossOfSelf(a, Mean(a));
    assert total / n >= 0.0;
    assert std * std == total / n;
    assert n * (std * std) == total;
    ProductPositive(n, std, std);
    assert n * std * std == total;
    assert Normalise(total, n, std, std) == total / (n * std * std);
    assert total / total == 1.0;
    assert Ncc(a, a, sqrt) == Normalise(SumCross(a, a, Mean(a), Mean(a)), n, std, std);
  }

  // ------------------------------------------------------ selection policy

  /** The frames the comparison loop keeps, where `scores[j]` is the score
      of frame j against frame j+1: the first frame, then every frame that
      scores below the threshold against its predecessor in the stream. */
  function Scan(fs: seq<Frame>, scores: seq<real>, threshold: real): (r: seq<Frame>)
    requires |fs| >= 1 && |scores| == |fs| - 1
    ensures 1 <= |r| <= |fs| && r[0] == fs[0]
  {
    if |fs| == 1 then [fs[0]]
    else
      Scan(fs[..|fs| - 1], scores[..|scores| - 1], threshold)
      + (if scores[|scores| - 1] < threshold then [fs[|fs| - 1]] else [])
  }

  /** One more comparison extends the scan by at most the new frame. */
  lemma ScanStep(fs: seq<Frame>, scores: seq<real>, threshold: real, f: Frame, score: real)
    requires |fs| >= 1 && |scores| == |fs| - 1
    ensures Scan(fs + [f], scores + [score], threshold)
         == Scan(fs, scores, threshold) + (if score < threshold then [f] else [])
  {
    assert (fs + [f])[..|fs|] == fs;
    assert (scores + [score])[..|scores|] == scores;
  }

  /** The closing step: the last frame is appended unless the last kept
      frame already has its index. */
  function WithLast(kept: seq<Frame>, last: Frame): seq<Frame> {
    if |kept| == 0 || kept[|kept| - 1].index != last.index then kept + [last] else kept
  }

  /** The keyframes of a successful run, from the frames and the scores of
      consecutive pairs: they start with the first frame and end with the
      last frame's index. */
  function Select(frames: seq<Frame>, scores: seq<real>, threshold: real): (r: seq<Frame>)
    requires |frames| == 0 || |scores| == |frames| - 1
    ensures |frames| == 0 ==> r == []
    ensures |frames| == 1 ==> r == [frames[0]]
    ensures |frames| >= 1 ==> |r| >= 1 && r[0] == frames[0]
    ensures |frames| >= 1 ==> r[|r| - 1].index == frames[|frames| - 1].index
  {
    if |frames| == 0 then [] else WithLast(Scan(frames, scores, threshold), frames[|frames| - 1])
  }

  predicate StrictlyIncreasing(fs: seq<Frame>) {
    forall i, j :: 0 <= i < j < |fs| ==> fs[i].index < fs[j].index
  }

  /** On frames with strictly increasing indices the scan keeps frame i
      exactly when i is 0 or frame i scores below the threshold, and keeps
      the frames in stream order. */
  lemma ScanKeeps(fs: seq<Frame>, scores: seq<real>, threshold: real)
    requires |fs| >= 1 && |scores| == |fs| - 1 && StrictlyIncreasing(fs)
    ensures StrictlyIncreasing(Scan(fs, scores, threshold))
    ensures forall k :: 0 <= k < |Scan(fs, scores, threshold)| ==> Scan(fs, scores, threshold)[k].index <= fs[|fs| - 1].index
    ensures forall i :: 0 <= i < |fs| ==> (fs[i] in Scan(fs, scores, threshold) <==> i == 0 || scores[i - 1] < threshold)
  {
    ScanBounded(fs, scores, threshold);
    ScanIncreasing(fs, scores, threshold);
    ScanMembers(fs, scores, threshold);
  }

  /** The scan keeps no frame past the last one. */
  lemma {:induction false} ScanBounded(fs: seq<Frame>, scores: seq<real>, threshold: real)
    requires |fs| >= 1 && |scores| == |fs| - 1 && StrictlyIncreasing(fs)
    ensures forall k :: 0 <= k < |Scan(fs, scores, threshold)| ==> Scan(fs, scores, threshold)[k].index <= fs[|fs| - 1].index
  {
    if |fs| > 1 {
      var n := |fs|;
      ScanBounded(fs[..n - 1], scores[..n - 2], threshold);
      assert fs[n - 2].index < fs[n - 1].index;
    }
  }

  /** The scan keeps frames in stream order. */
  lemma {:induction false} ScanIncreasing(fs: seq<Frame>, scores: seq<real>, threshold: real)
    requires |fs| >= 1 && |scores| == |fs| - 1 && StrictlyIncreasing(fs)
    ensures StrictlyIncreasing(Scan(fs, scores, threshold))
  {
    if |fs| > 1 {
      var n := |fs|;
      var init := fs[..n - 1];
      var s := scores[..n - 2];
      ScanIncreasing(init, s, threshold);
      ScanBounded(init, s, threshold);
      assert fs[n - 2].index < fs[n - 1].index;
    }
  }

  /** The scan keeps frame i exactly when i is 0 or frame i scores below
      the threshold. */
  lemma {:induction false} ScanMembers(fs: seq<Frame>, scores: seq<real>, threshold: real)
    requires |fs| >= 1 && |scores| == |fs| - 1 && StrictlyIncreasing(fs)
    ensures forall i :: 0 <= i < |fs| ==> (fs[i] in Scan(fs, scores, threshold) <==> i == 0 || scores[i - 1] < threshold)
  {
    if |fs| > 1 {
      var n := |fs|;
      var init := fs[..n - 1];
      var s := scores[..n - 2];
      ScanMembers(init, s, threshold);
      ScanBounded(init, s, threshold);
      var kept := Scan(init, s, threshold);
      var r := Scan(fs, scores, threshold);
      assert r == kept + (if scores[n - 2] < threshold then [fs[n - 1]] else []);
      assert fs[n - 2].index < fs[n - 1].index;
      assert fs[n - 1] !in kept;
      forall i | 0 <= i < n - 1
        ensures fs[i] in r <==> i == 0 || scores[i - 1] < threshold
      {
        assert init[i] == fs[i];
        assert fs[i].index < fs[n - 1].index;
        if i > 0 {
          assert s[i - 1] == scores[i - 1];
        }
      }
    }
  }

  /** The keyframes of frames with strictly increasing indices: frame i is
      kept exactly when it is the first, the last, or scores below the
      threshold against its predecessor; the keyframes keep stream order;
      and the last keyframe is the last frame. */
  lemma SelectKeeps(frames: seq<Frame>, scores: seq<real>, threshold: real)
    requires |frames| >= 1 && |scores| == |frames| - 1 && StrictlyIncreasing(frames)
    ensures StrictlyIncreasing(Select(frames, scores, threshold))
    ensures forall i :: 0 <= i < |frames| ==>
      (frames[i] in Select(frames, scores, threshold) <==> i == 0 || i == |frames| - 1 || scores[i - 1] < threshold)
    ensures Select(frames, scores, threshold)[|Select(frames, scores, threshold)| - 1] == frames[|frames| - 1]
  {
    var n := |frames|;
    if n > 1 && scores[n - 2] >= threshold {
      SelectAddsLast(frames, scores, threshold);
    } else {
      SelectIsScan(frames, scores, threshold);
    }
  }

  /** The last frame is similar to its predecessor: the scan left it out
      and the closing step adds it. */
  lemma SelectAddsLast(frames: seq<Frame>, scores: seq<real>, threshold: real)
    requires |frames| >= 2 && |scores| == |frames| - 1 && StrictlyIncreasing(frames)
    requires scores[|frames| - 2] >= threshold
    ensures StrictlyIncreasing(Select(frames, scores, threshold))
    ensures forall i :: 0 <= i < |frames| ==>
      (frames[i] in Select(frames, scores, threshold) <==> i == 0 || i == |frames| - 1 || scores[i - 1] < threshold)
    ensures Select(frames, scores, threshold)[|Select(frames, scores, threshold)| - 1] == frames[|frames| - 1]
  {
    var n := |frames|;
    var kept := Scan(frames, scores, threshold);
    var last := frames[n - 1];
    ScanIncreasing(frames, scores, threshold);
    ScanMembers(frames, scores, threshold);
    ScanBeforeLast(frames, scores, threshold);
    assert Select(frames, scores, threshold) == kept + [last];
  }

  /** The scan already ends with the last frame: the closing step adds
      nothing. */
  lemma SelectIsScan(frames: seq<Frame>, scores: seq<real>, threshold: real)
    requires |frames| >= 1 && |scores| == |frames| - 1 && StrictlyIncreasing(frames)
    requires |frames| == 1 || scores[|frames| - 2] < threshold
    ensures StrictlyIncreasing(Select(frames, scores, threshold))
    ensures forall i :: 0 <= i < |frames| ==>
      (frames[i] in Select(frames, scores, threshold) <==> i == 0 || i == |frames| - 1 || scores[i - 1] < threshold)
    ensures Select(frames, scores, threshold)[|Select(frames, scores, threshold)| - 1] == frames[|frames| - 1]
  {
    var n := |frames|;
    var kept := Scan(frames, scores, threshold);
    ScanIncreasing(frames, scores, threshold);
    ScanMembers(frames, scores, threshold);
    assert kept[|kept| - 1] == frames[n - 1];
    assert Select(frames, scores, threshold) == kept;
  }

  /** When the last frame is similar to its predecessor, every frame the
      scan keeps comes before it. */
  lemma ScanBeforeLast(fs: seq<Frame>, scores: seq<real>, threshold: real)
    requires |fs| >= 2 && |scores| == |fs| - 1 && StrictlyIncreasing(fs)
    requires scores[|fs| - 2] >= threshold
    ensures forall k :: 0 <= k < |Scan(fs, scores, threshold)| ==> Scan(fs, scores, threshold)[k].index < fs[|fs| - 1].index
  {
    var n := |fs|;
    ScanBounded(fs[..n - 1], scores[..n - 2], threshold);
    assert Scan(fs, scores, threshold) == Scan(fs[..n - 1], scores[..n - 2], threshold);
    assert fs[n - 2].index < fs[n - 1].index;
  }

  /** A higher threshold never keeps fewer frames, and two thresholds that
      keep as many frames keep the same frames. */
  lemma {:induction false} ScanMonotone(fs: seq<Frame>, scores: seq<real>, low: real, high: real)
    requires |fs| >= 1 && |scores| == |fs| - 1 && low <= high
    ensures |Scan(fs, scores, low)| <= |Scan(fs, scores, high)|
    ensures |Scan(fs, scores, low)| == |Scan(fs, scores, high)| ==> Scan(fs, scores, low) == Scan(fs, scores, high)
  {
    if |fs| > 1 {
      ScanMonotone(fs[..|fs| - 1], scores[..|scores| - 1], low, high);
    }
  }

  /** Raising the threshold never yields fewer keyframes. */
  lemma SelectMonotone(frames: seq<Frame>, scores: seq<real>, low: real, high: real)
    requires |frames| >= 1 && |scores| == |frames| - 1 && low <= high
    ensures |Select(frames, scores, low)| <= |Select(frames, scores, high)|
  {
    ScanMonotone(frames, scores, low, high);
  }

  lemma {:induction false} ScanAllSimilar(fs: seq<Frame>, scores: seq<real>, threshold: real)
    requires |fs| >= 1 && |scores| == |fs| - 1
    requires forall j :: 0 <= j < |scores| ==> scores[j] >= threshold
    ensures Scan(fs, scores, threshold) == [fs[0]]
  {
    if |fs| > 1 {
      ScanAllSimilar(fs[..|fs| - 1], scores[..|scores| - 1], threshold);
    }
  }

  lemma {:induction false} ScanAllDifferent(fs: seq<Frame>, scores: seq<real>, threshold: real)
    requires |fs| >= 1 && |scores| == |fs| - 1
    requires forall j :: 0 <= j < |scores| ==> scores[j] < threshold
    ensures Scan(fs, scores, threshold) == fs
  {
    if |fs| > 1 {
      ScanAllDifferent(fs[..|fs| - 1], scores[..|scores| - 1], threshold);
      assert fs[..|fs| - 1] + [fs[|fs| - 1]] == fs;
    }
  }

  /** When no pair scores below the threshold only the first and the last
      frame are keyframes. */
  lemma SelectAllSimilar(frames: seq<Frame>, scores: seq<real>, threshold: real)
    requires |frames| >= 2 && |scores| == |frames| - 1
    requires forall j :: 0 <= j < |scores| ==> scores[j] >= threshold
    requires frames[0].index != frames[|frames| - 1].index
    ensures Select(frames, scores, threshold) == [frames[0], frames[|frames| - 1]]
  {
    ScanAllSimilar(frames, scores, threshold);
  }

  /** When every pair scores below the threshold every frame is a
      keyframe. */
  lemma SelectAllDifferent(frames: seq<Frame>, scores: seq<real>, threshold: real)
    requires |frames| >= 1 && |scores| == |frames| - 1
    requires forall j :: 0 <= j < |scores| ==> scores[j] < threshold
    ensures Select(frames, scores, threshold) == frames
  {
    ScanAllDifferent(frames, scores, threshold);
  }

  // ------------------------------------------------------ keyframe detection

  /** loadAndProcessFrame: only `.png`, `.jpg` and `.jpeg` files are
      decoded; any other extension is an error. */
  function LoadGray(path: string, decode: string -> Option<seq<real>>): (r: Option<seq<real>>)
    ensures r.Some? ==> GoPath.Ext(path) in {".png", ".jpg", ".jpeg"}
    ensures GoPath.Ext(path) in {".png", ".jpg", ".jpeg"} ==> r == decode(path)
  {
    var ext := GoPath.Ext(path);
    if ext == ".png" || ext == ".jpg" || ext == ".jpeg" then decode(path) else None
  }

  /** A frame listed from the scratch directory passes the format check. */
  lemma ListedFramesArePng(tempDir: string, name: string)
    requires IsFrameFileName(name)
    ensures GoPath.Ext(FrameOf(tempDir, name).path) == ".png"
  {
    var path := GoPath.Join(tempDir, name);
    FrameFileNameIsName(name);
    GoPath.JoinEndsWithName(tempDir, name);
    var k := |path| - 3;
    assert path[k..] == name[|name| - 3..];
    assert path[k - 1] == name[|name| - 4];
    GoPath.ExtOfSuffix(path, k);
  }

  /** Position of the first frame whose image cannot be loaded, or the
      number of frames. */
  function FirstUnloadable(frames: seq<Frame>, load: string -> Option<seq<real>>): (k: nat)
    ensures k <= |frames|
    ensures forall j :: 0 <= j < k ==> load(frames[j].path).Some?
    ensures k < |frames| ==> load(frames[k].path).None?
  {
    FirstWhere(frames, (f: Frame) => load(f.path).None?)
  }

  function Gray(f: Frame, load: string -> Option<seq<real>>): seq<real>
    requires load(f.path).Some?
  {
    load(f.path).value
  }

  /** The score of every consecutive pair of frames. */
  function Scores(frames: seq<Frame>, load: string -> Option<seq<real>>, sqrt: real -> real): (r: seq<real>)
    requires |frames| >= 1 && FirstUnloadable(frames, load) == |frames|
    ensures |r| == |frames| - 1
  {
    seq(|frames| - 1, j requires 0 <= j < |frames| - 1 =>
      Ncc(Gray(frames[j], load), Gray(frames[j + 1], load), sqrt))
  }

  lemma ScoresAre(frames: seq<Frame>, load: string -> Option<seq<real>>, sqrt: real -> real, scores: seq<real>)
    requires |frames| >= 1 && FirstUnloadable(frames, load) == |frames| && |scores| == |frames| - 1
    requires forall j :: 0 <= j < |frames| - 1 ==> scores[j] == Ncc(Gray(frames[j], load), Gray(frames[j + 1], load), sqrt)
    ensures scores == Scores(frames, load, sqrt)
  { }

  datatype DetectError = LoadFirstFrameFailed | LoadFrameFailed(position: nat)

  /** DetectKeyframes: compares every frame with its predecessor and keeps
      the first frame, each frame that scores below the threshold, and the
      last frame. `load` is loadAndProcessFrame, that is
      `p => LoadGray(p, decode)`; `progress` holds the values a non-nil
      progress callback receives, in order (a nil callback receives
      nothing). */
  method DetectKeyframes(frames: seq<Frame>, threshold: real, load: string -> Option<seq<real>>, sqrt: real -> real)
    returns (result: Result<seq<Keyframe>, DetectError>, progress: seq<real>)
    ensures |frames| == 0 ==> result == Success([]) && progress == []
    ensures |frames| == 1 ==> result == Success([frames[0]]) && progress == [1.0]
    ensures |frames| >= 2 && FirstUnloadable(frames, load) == 0 ==>
      result == Failure(LoadFirstFrameFailed) && progress == []
    ensures |frames| >= 2 && 0 < FirstUnloadable(frames, load) < |frames| ==>
      var k := FirstUnloadable(frames, load);
      result == Failure(LoadFrameFailed(k)) && progress == Fractions(k - 1, |frames| - 1)
    ensures |frames| >= 2 && FirstUnloadable(frames, load) == |frames| ==>
      result == Success(Select(frames, Scores(frames, load, sqrt), threshold))
      && progress == Fractions(|frames| - 1, |frames| - 1)
  {
    if |frames| == 0 {
      return Success([]), [];
    }
    var keyframes := [frames[0]];
    if |frames| == 1 {
      return Success(keyframes), [1.0];
    }
    var first := load(frames[0].path);
    if first.None? {
      assert FirstUnloadable(frames, load) == 0;
      return Failure(LoadFirstFrameFailed), [];
    }
    var prevGray := first.value;
    var total := |frames| - 1;
    ghost var scores: seq<real> := [];
    progress := [];
    var i := 1;
    while i < |frames|
      invariant 1 <= i <= |frames|
      invariant FirstUnloadable(frames, load) >= i
      invariant prevGray == Gray(frames[i - 1], load)
      invariant |scores| == i - 1
      invariant forall j :: 0 <= j < i - 1 ==> scores[j] == Ncc(Gray(frames[j], load), Gray(frames[j + 1], load), sqrt)
      invariant keyframes == Scan(frames[..i], scores, threshold)
      invariant progress == Fractions(i - 1, total)
    {
      var curr := load(frames[i].path);
      if curr.None? {
        assert FirstUnloadable(frames, load) == i;
        return Failure(LoadFrameFailed(i)), progress;
      }
      var correlation := NormalizedCrossCorrelation(prevGray, curr.value, sqrt);
      LoadsPast(frames, load, i);
      ScoresStep(frames, load, sqrt, scores, i, correlation);
      ScanPrefixStep(frames, scores, threshold, i, correlation);
      if correlation < threshold {
        keyframes := keyframes + [frames[i]];
      }
      scores := scores + [correlation];
      prevGray := curr.value;
      progress := progress + [i as real / total as real];
      i := i + 1;
    }
    assert frames[..i] == frames;
    ScoresAre(frames, load, sqrt, scores);
    keyframes := AppendLast(keyframes, frames[|frames| - 1]);
    return Success(keyframes), progress;
  }

  /** One comparison of DetectKeyframes: when frame `i` loads as well,
      the frames before `i + 1` all load. */
  lemma LoadsPast(frames: seq<Frame>, load: string -> Option<seq<real>>, i: nat)
    requires i < |frames| && FirstUnloadable(frames, load) >= i && load(frames[i].path).Some?
    ensures FirstUnloadable(frames, load) >= i + 1
  {
  }

  /** One comparison of DetectKeyframes: the scores keep describing the
      consecutive pairs so far. */
  lemma ScoresStep(frames: seq<Frame>, load: string -> Option<seq<real>>, sqrt: real -> real,
                   scores: seq<real>, i: nat, correlation: real)
    requires 1 <= i < |frames| && FirstUnloadable(frames, load) >= i + 1 && |scores| == i - 1
    requires forall j :: 0 <= j < i - 1 ==> scores[j] == Ncc(Gray(frames[j], load), Gray(frames[j + 1], load), sqrt)
    requires correlation == Ncc(Gray(frames[i - 1], load), Gray(frames[i], load), sqrt)
    ensures forall j :: 0 <= j < i ==>
      (scores + [correlation])[j] == Ncc(Gray(frames[j], load), Gray(frames[j + 1], load), sqrt)
  {
  }

  /** One comparison of DetectKeyframes: the scan of one frame more. */
  lemma ScanPrefixStep(frames: seq<Frame>, scores: seq<real>, threshold: real, i: nat, correlation: real)
    requires 1 <= i < |frames| && |scores| == i - 1
    ensures Scan(frames[..i + 1], scores + [correlation], threshold)
         == Scan(frames[..i], scores, threshold) + (if correlation < threshold then [frames[i]] else [])
  {
    assert frames[..i + 1] == frames[..i] + [frames[i]];
    ScanStep(frames[..i], scores, threshold, frames[i], correlation);
  }

  /** The closing step of DetectKeyframes. */
  method AppendLast(kept: seq<Frame>, lastFrame: Frame) returns (keyframes: seq<Frame>)
    ensures keyframes == WithLast(kept, lastFrame)
  {
    keyframes := kept;
    if |keyframes| == 0 || keyframes[|keyframes| - 1].index != lastFrame.index {
      keyframes := keyframes + [lastFrame];
    }
  }

  /** Identical solid-colour frames: only the first and the last frame are
      keyframes for any threshold up to 1 (three such frames at 0.85 give
      two keyframes). */
  lemma IdenticalFlatFrames(frames: seq<Frame>, load: string -> Option<seq<real>>, sqrt: real -> real,
                            v: seq<real>, c: real, threshold: real)
    requires |frames| >= 2 && frames[0].index != frames[|frames| - 1].index
    requires forall j :: 0 <= j < |frames| ==> load(frames[j].path) == Some(v)
    requires |v| > 0 && Constant(v, c) && sqrt(0.0) == 0.0
    requires threshold <= 1.0
    ensures FirstUnloadable(frames, load) == |frames|
    ensures Select(frames, Scores(frames, load, sqrt), threshold) == [frames[0], frames[|frames| - 1]]
  {
    NccOfFlat(v, v, c, sqrt);
    SelectAllSimilar(frames, Scores(frames, load, sqrt), threshold);
  }

  // ---------------------------------------------------------- saving

  /** The file name a keyframe is saved under: `frame_%04d.jpg`. */
  function FrameImageName(index: int): (r: string)
    ensures HasPrefix(r, "frame_") && HasSuffix(r, ".jpg")
  {
    "frame_" + FormatIntWidth(index, 4) + ".jpg"
  }

  /** Keyframes with different indices are saved to different files. */
  lemma FrameImageNameInjective(i: int, j: int)
    requires FrameImageName(i) == FrameImageName(j)
    ensures i == j
  {
    var a := FrameImageName(i);
    assert a[6..|a| - 4] == FormatIntWidth(i, 4);
    assert FrameImageName(j)[6..|a| - 4] == FormatIntWidth(j, 4);
    FormatIntWidthInjective(i, j, 4);
  }

  lemma FrameImageNameExample()
    ensures FrameImageName(1) == "frame_0001.jpg"
  {
    assert NatToString(1) == "1";
    assert Zeros(3) == "000";
  }

  function KeyframeImagePath(outputDir: string, kf: Keyframe): string {
    GoPath.Join(outputDir, FrameImageName(kf.index))
  }

  /** No two keyframes of a detection run are saved to the same file. */
  lemma SavedPathsDistinct(outputDir: string, keyframes: seq<Keyframe>, i: nat, j: nat)
    requires StrictlyIncreasing(keyframes) && i < j < |keyframes|
    ensures KeyframeImagePath(outputDir, keyframes[i]) != KeyframeImagePath(outputDir, keyframes[j])
  {
    var a := FrameImageName(keyframes[i].index);
    var b := FrameImageName(keyframes[j].index);
    if KeyframeImagePath(outputDir, keyframes[i]) == KeyframeImagePath(outputDir, keyframes[j]) {
      FrameImageNameIsName(keyframes[i].index);
      FrameImageNameIsName(keyframes[j].index);
      GoPath.DirBaseOfJoin(outputDir, a);
      GoPath.DirBaseOfJoin(outputDir, b);
      FrameImageNameInjective(keyframes[i].index, keyframes[j].index);
    }
  }

  /** The image name is a plain file name: no separator, even for a
      negative index, and neither `.` nor `..`. */
  lemma FrameImageNameIsName(index: int)
    ensures '/' !in FrameImageName(index)
    ensures GoPath.IsName(FrameImageName(index))
  {
    var d := FormatIntWidth(index, 4);
    if index < 0 {
      NegativeReadsBack(index, 4);
      assert d == [d[0]] + d[1..];
    } else {
      ZeroPadReadsBack(index, 4);
    }
    assert forall k :: 0 <= k < |d| ==> d[k] != '/';
  }

  datatype SaveError = SaveFailed(index: int)

  /** SaveKeyframes: saves the keyframes in order and stops at the first
      one that cannot be saved. `save(kf)` says whether saveKeyframe
      succeeded for `kf` (opening and decoding the frame, writing its JPEG
      to KeyframeImagePath); `saved` lists the keyframes written and
      `progress` the values a non-nil progress callback receives (a nil
      callback receives nothing). */
  method SaveKeyframes(keyframes: seq<Keyframe>, save: Keyframe -> bool)
    returns (err: Option<SaveError>, saved: seq<Keyframe>, progress: seq<real>)
    ensures var k := FirstWhere(keyframes, (kf: Keyframe) => !save(kf));
      && saved == keyframes[..k]
      && (k < |keyframes| ==> err == Some(SaveFailed(keyframes[k].index)))
      && (k == |keyframes| ==> err == None)
      && progress == if |keyframes| == 0 then [] else Fractions(k, |keyframes|)
  {
    ghost var k := FirstWhere(keyframes, (kf: Keyframe) => !save(kf));
    var total := |keyframes|;
    saved, progress := [], [];
    for i := 0 to |keyframes|
      invariant i <= k
      invariant saved == keyframes[..i]
      invariant total > 0 ==> progress == Fractions(i, total)
      invariant i == 0 ==> progress == []
    {
      var kf := keyframes[i];
      if !save(kf) {
        return Some(SaveFailed(kf.index)), saved, progress;
      }
      saved := saved + [kf];
      progress := progress + [(i + 1) as real / total as real];
    }
    assert keyframes[..|keyframes|] == keyframes;
    return None, saved, progress;
  }
}
