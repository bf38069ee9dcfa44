/** The fast-path decisions of helpers/merger.py:
    `videos_are_identical_for_merge` and `requires_container_remux`. */
module Compat {
  import opened Wrappers
  import opened Probe

  /** The critical parameters, in the order the source checks them. */
  datatype Param = Width | Height | Fps | VideoCodec | AudioCodec | PixelFormat | SampleRate

  const CriticalParams: seq<Param> := [Width, Height, Fps, VideoCodec, AudioCodec, PixelFormat, SampleRate]

  /** Frame rates at most 0.10 fps (10 hundredths) apart match. */
  const FpsTolerance: nat := 10

  function Abs(x: int): nat { if x < 0 then -x else x }

  /** Two profiles agree on one parameter. Only the audio codec can be
      `None`: `None` on both sides matches and on one side does not, which is
      what equality of `Option` values says. */
  predicate Agrees(reference: Profile, video: Profile, p: Param)
  {
    match p
    case Width => reference.width == video.width
    case Height => reference.height == video.height
    case Fps => Abs(reference.fps - video.fps) <= FpsTolerance
    case VideoCodec => reference.videoCodec == video.videoCodec
    case AudioCodec => reference.audioCodec == video.audioCodec
    case PixelFormat => reference.pixelFormat == video.pixelFormat
    case SampleRate => reference.sampleRate == video.sampleRate
  }

  /** The inner loop: the first parameter of `params` on which `video`
      departs from `reference`. */
  function FirstMismatch(reference: Profile, video: Profile, params: seq<Param>): (r: Option<Param>)
    ensures r.None? <==> forall i :: 0 <= i < |params| ==> Agrees(reference, video, params[i])
    ensures r.Some? ==> exists k :: 0 <= k < |params| && params[k] == r.value &&
                                    !Agrees(reference, video, params[k]) &&
                                    forall i :: 0 <= i < k ==> Agrees(reference, video, params[i])
  {
    if params == [] then None
    else if !Agrees(reference, video, params[0]) then Some(params[0])
    else
      var r := FirstMismatch(reference, video, params[1..]);
      assert forall i :: 1 <= i < |params| ==> params[i] == params[1..][i - 1];
      if r.Some? then
        var k :| 0 <= k < |params[1..]| && params[1..][k] == r.value &&
                 !Agrees(reference, video, params[1..][k]) &&
                 forall i :: 0 <= i < k ==> Agrees(reference, video, params[1..][i]);
        assert params[k + 1] == r.value;
        r
      else r
  }

  /** The outer loop: every profile of `rest` has no mismatch with `reference`. */
  function AllMatch(reference: Profile, rest: seq<Profile>): (b: bool)
    ensures b <==> forall i :: 0 <= i < |rest| ==> FirstMismatch(reference, rest[i], CriticalParams).None?
  {
    if rest == [] then true
    else if FirstMismatch(reference, rest[0], CriticalParams).Some? then false
    else
      assert forall i :: 1 <= i < |rest| ==> rest[i] == rest[1..][i - 1];
      AllMatch(reference, rest[1..])
  }

  /** `videos_are_identical_for_merge`. */
  function IdenticalForMerge(infos: seq<Profile>): bool
  {
    |infos| >= 2 && AllMatch(infos[0], infos[1..])
  }

  /** Fewer than two profiles are never identical; otherwise the profiles
      are identical exactly when every later one equals the first on width,
      height, video codec, audio codec (absent on both or on neither), pixel
      format and sample rate, and is at most 0.10 fps from it. */
  lemma IdenticalForMergeMeaning(infos: seq<Profile>)
    ensures IdenticalForMerge(infos) <==>
      |infos| >= 2 &&
      forall i :: 1 <= i < |infos| ==>
        && infos[i].width == infos[0].width
        && infos[i].height == infos[0].height
        && Abs(infos[i].fps - infos[0].fps) <= FpsTolerance
        && infos[i].videoCodec == infos[0].videoCodec
        && infos[i].audioCodec == infos[0].audioCodec
        && infos[i].pixelFormat == infos[0].pixelFormat
        && infos[i].sampleRate == infos[0].sampleRate
  {
    if |infos| >= 2 {
      forall i | 1 <= i < |infos|
        ensures FirstMismatch(infos[0], infos[i], CriticalParams).None? <==>
          && infos[i].width == infos[0].width
          && infos[i].height == infos[0].height
          && Abs(infos[i].fps - infos[0].fps) <= FpsTolerance
          && infos[i].videoCodec == infos[0].videoCodec
          && infos[i].audioCodec == infos[0].audioCodec
          && infos[i].pixelFormat == infos[0].pixelFormat
          && infos[i].sampleRate == infos[0].sampleRate
      {
        assert infos[1..][i - 1] == infos[i];
        var r, v := infos[0], infos[i];
        assert Abs(r.fps - v.fps) == Abs(v.fps - r.fps);
        assert CriticalParams[0] == Width && CriticalParams[1] == Height && CriticalParams[2] == Fps;
        assert CriticalParams[3] == VideoCodec && CriticalParams[4] == AudioCodec;
        assert CriticalParams[5] == PixelFormat && CriticalParams[6] == SampleRate;
      }
    }
  }

  /** Each later profile is compared with the first only: the frame-rate
      tolerance lets two later profiles 0.20 fps apart through. */
  lemma ComparedWithFirstOnly(p: Profile)
    ensures var infos := [p.(fps := 3000), p.(fps := 3010), p.(fps := 2990)];
      IdenticalForMerge(infos) && !Agrees(infos[1], infos[2], Fps)
  {
    var infos := [p.(fps := 3000), p.(fps := 3010), p.(fps := 2990)];
    IdenticalForMergeMeaning(infos);
  }

  /** `requires_container_remux`: some profile's container is not the target. */
  function RequiresContainerRemux(infos: seq<Profile>, target: string): (b: bool)
    ensures b <==> exists i :: 0 <= i < |infos| && infos[i].container != target
  {
    if infos == [] then false
    else if infos[0].container != target then true
    else
      assert forall i :: 1 <= i < |infos| ==> infos[i] == infos[1..][i - 1];
      RequiresContainerRemux(infos[1..], target)
  }
}
