/** The standardisation decisions of `merge_videos` (helpers/merger.py):
    the target parameters and the per-file test that decides between
    re-encoding and copying. */
module Standardize {
  import opened Wrappers
  import opened Probe
  import opened Compat

  /** How often `x` occurs in `xs`. */
  function Count(xs: seq<int>, x: int): nat
  {
    multiset(xs)[x]
  }

  /** The position of the first occurrence of `x`. */
  function FirstIndex(xs: seq<int>, x: int): (r: nat)
    requires x in xs
    ensures r < |xs| && xs[r] == x
    ensures forall j :: 0 <= j < r ==> xs[j] != x
  {
    if xs[0] == x then 0 else 1 + FirstIndex(xs[1..], x)
  }

  /** `Counter(xs).most_common(1)[0][0]`: a value of greatest count, and
      among those the one seen first (the counter keeps first-seen order and
      `most_common(1)` keeps the first maximum). */
  predicate IsMode(xs: seq<int>, m: int)
  {
    && m in xs
    && (forall i :: 0 <= i < |xs| ==> Count(xs, xs[i]) <= Count(xs, m))
    && (forall i :: 0 <= i < FirstIndex(xs, m) ==> Count(xs, xs[i]) < Count(xs, m))
  }

  /** The leading value after looking at the first `k` values: a later value
      takes the lead only with a strictly greater count. */
  function Leader(xs: seq<int>, k: nat): (m: int)
    requires 1 <= k <= |xs|
    ensures m in xs[..k]
    ensures forall i :: 0 <= i < k ==> Count(xs, xs[i]) <= Count(xs, m)
    ensures FirstIndex(xs, m) < k
    ensures forall i :: 0 <= i < FirstIndex(xs, m) ==> Count(xs, xs[i]) < Count(xs, m)
  {
    if k == 1 then
      assert xs[..1] == [xs[0]];
      xs[0]
    else
      var b := Leader(xs, k - 1);
      assert xs[..k - 1] <= xs[..k];
      if Count(xs, xs[k - 1]) > Count(xs, b) then
        var m := xs[k - 1];
        assert FirstIndex(xs, m) == k - 1 by {
          var f := FirstIndex(xs, m);
          assert xs[f] == m;
          assert !(f < k - 1);
        }
        m
      else b
  }

  /** The mode of a non-empty list. */
  function Mode(xs: seq<int>): (m: int)
    requires |xs| > 0
    ensures IsMode(xs, m)
  {
    var m := Leader(xs, |xs|);
    assert xs[..|xs|] == xs;
    m
  }

  /** The tie rule makes the mode unique. */
  lemma ModeUnique(xs: seq<int>, a: int, b: int)
    requires IsMode(xs, a) && IsMode(xs, b)
    ensures a == b
  {
    var fa, fb := FirstIndex(xs, a), FirstIndex(xs, b);
    assert Count(xs, a) == Count(xs, b) by {
      assert Count(xs, xs[fa]) <= Count(xs, b);
      assert Count(xs, xs[fb]) <= Count(xs, a);
    }
    assert !(fa < fb);
    assert !(fb < fa);
  }

  /** What every file is standardised to. */
  datatype Targets = Targets(width: int, height: int, fps: int, pixelFormat: string, sampleRate: int)

  const TargetFps: int := 3000
  const TargetPixelFormat: string := "yuv420p"
  const TargetSampleRate: int := 48000

  function Widths(infos: seq<Profile>): (r: seq<int>)
    ensures |r| == |infos| && forall i :: 0 <= i < |infos| ==> r[i] == infos[i].width
  {
    seq(|infos|, i requires 0 <= i < |infos| => infos[i].width)
  }

  function Heights(infos: seq<Profile>): (r: seq<int>)
    ensures |r| == |infos| && forall i :: 0 <= i < |infos| ==> r[i] == infos[i].height
  {
    seq(|infos|, i requires 0 <= i < |infos| => infos[i].height)
  }

  /** The target parameters: the most common width and, separately, the
      most common height; 30 fps, yuv420p and 48 kHz always. */
  function TargetsOf(infos: seq<Profile>): (t: Targets)
    requires |infos| > 0
    ensures IsMode(Widths(infos), t.width) && IsMode(Heights(infos), t.height)
    ensures exists i :: 0 <= i < |infos| && infos[i].width == t.width
    ensures exists j :: 0 <= j < |infos| && infos[j].height == t.height
    ensures t.fps == TargetFps && t.pixelFormat == TargetPixelFormat && t.sampleRate == TargetSampleRate
  {
    var t := Targets(Mode(Widths(infos)), Mode(Heights(infos)), TargetFps, TargetPixelFormat, TargetSampleRate);
    assert t.width in Widths(infos) && t.height in Heights(infos);
    t
  }

  function ExampleInputs(p: Profile): seq<Profile>
  {
    [p.(width := 1920, height := 1080), p.(width := 1920, height := 800),
     p.(width := 1280, height := 720), p.(width := 640, height := 720)]
  }

  /** Choosing each axis on its own can give a resolution no input has:
      1920x1080, 1920x800, 1280x720 and 640x720 standardise to 1920x720. */
  lemma TargetResolutionMayBeNew(p: Profile)
    ensures var infos := ExampleInputs(p);
      var t := TargetsOf(infos);
      t.width == 1920 && t.height == 720 &&
      forall i :: 0 <= i < |infos| ==> !(infos[i].width == t.width && infos[i].height == t.height)
  {
    ExampleTargets(p);
    ExampleLacks(p);
  }

  lemma ExampleLacks(p: Profile)
    ensures forall i :: 0 <= i < |ExampleInputs(p)| ==>
      !(ExampleInputs(p)[i].width == 1920 && ExampleInputs(p)[i].height == 720)
  {
  }

  lemma ExampleTargets(p: Profile)
    ensures TargetsOf(ExampleInputs(p)).width == 1920 && TargetsOf(ExampleInputs(p)).height == 720
  {
    var infos := ExampleInputs(p);
    assert Widths(infos) == [1920, 1920, 1280, 640];
    assert Heights(infos) == [1080, 800, 720, 720];
    WidthModeExample();
    HeightModeExample();
    ModeUnique([1920, 1920, 1280, 640], 1920, TargetsOf(infos).width);
    ModeUnique([1080, 800, 720, 720], 720, TargetsOf(infos).height);
  }

  lemma WidthModeExample()
    ensures IsMode([1920, 1920, 1280, 640], 1920)
  {
    var ws := [1920, 1920, 1280, 640];
    assert multiset(ws) == multiset{1920, 1920, 1280, 640};
    assert Count(ws, 1920) == 2 && Count(ws, 1280) == 1 && Count(ws, 640) == 1;
  }

  lemma HeightModeExample()
    ensures IsMode([1080, 800, 720, 720], 720)
  {
    var hs := [1080, 800, 720, 720];
    assert multiset(hs) == multiset{1080, 800, 720, 720};
    assert Count(hs, 720) == 2 && Count(hs, 1080) == 1 && Count(hs, 800) == 1;
    assert hs[1..][1..] == [720, 720];
    assert FirstIndex(hs, 720) == 2;
  }

  /** The per-file test: the source compares with the literal 30 fps,
      yuv420p and 48000 rather than with the target record. */
  predicate NeedsStandardization(info: Profile, t: Targets)
  {
    || info.width != t.width
    || info.height != t.height
    || Abs(info.fps - TargetFps) > FpsTolerance
    || info.pixelFormat != TargetPixelFormat
    || info.sampleRate != TargetSampleRate
  }

  /** A file is copied exactly when it already has the target resolution,
      a frame rate within 0.10 of 30, yuv420p and 48 kHz; its codecs and
      container are never consulted. */
  lemma CopiedExactlyWhenConforming(info: Profile, t: Targets, videoCodec: string, audioCodec: Option<string>, container: string)
    requires t.fps == TargetFps && t.pixelFormat == TargetPixelFormat && t.sampleRate == TargetSampleRate
    ensures !NeedsStandardization(info, t) <==>
      info.width == t.width && info.height == t.height && 2990 <= info.fps <= 3010 &&
      info.pixelFormat == t.pixelFormat && info.sampleRate == t.sampleRate
    ensures NeedsStandardization(info.(videoCodec := videoCodec, audioCodec := audioCodec, container := container), t)
         == NeedsStandardization(info, t)
  {
  }
}
