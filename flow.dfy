/** The control flow of `merge_videos`, `fast_merge_identical_videos`,
    the subtitle and audio steps and `merge_videos_with_options`
    (helpers/merger.py). Every outside effect is an answer the environment
    gives: what ffprobe reports for a path, whether a remux, a
    standardization or an ffmpeg run succeeded, what `os.path.abspath`
    returns. The user's directory and the `int(time.time())` stamp of the
    job are fields of the environment too. */
module MergeFlow {
  import opened Wrappers
  import opened Text
  import Paths
  import opened Probe
  import Compat
  import opened Standardize
  import ConcatList
  import TrackArgs

  datatype Env = Env(
    dir: string,                                   // os.path.join(DOWNLOAD_DIR, str(user_id))
    stamp: nat,                                    // int(time.time())
    probe: string -> Option<Profile>,              // get_detailed_video_info: Classify of ffprobe's report
    remux: (string, string) -> bool,               // remux_to_compatible_format(src, dst)
    standardize: (string, string, Targets) -> bool, // standardize_video_file(src, dst, targets)
    fastConcat: (string, string) -> bool,          // the fast concat of a list text into a file
    finalConcat: (string, string) -> bool,         // the final concat of a list text into a file
    absPath: string -> string,                     // os.path.abspath
    mux: seq<string> -> bool)                      // an ffmpeg subtitle/audio run wrote its output

  /** `get_detailed_video_info`: the profile `Probe.Classify` makes of
      ffprobe's report on the file, or None. */
  function Info(env: Env, path: string): Option<Profile>
  {
    env.probe(path)
  }

  /** `Some(prefix + xs)` for `Some(xs)`; failure stays failure. */
  function Prepend<T>(prefix: seq<T>, o: Option<seq<T>>): Option<seq<T>>
  {
    if o.None? then None else Some(prefix + o.value)
  }

  lemma PrependEmpty<T>(o: Option<seq<T>>)
    ensures Prepend([], o) == o
  {
    if o.Some? {
      assert [] + o.value == o.value;
    }
  }

  lemma PrependTwice<T>(a: seq<T>, b: seq<T>, o: Option<seq<T>>)
    ensures Prepend(a, Prepend(b, o)) == Prepend(a + b, o)
  {
    if o.Some? {
      assert a + (b + o.value) == a + b + o.value;
    }
  }

  // ---------------------------------------------------------------------------
  // Names
  // ---------------------------------------------------------------------------

  /** A file name with its extension replaced by `.mkv`. */
  function MkvName(name: string): string
  {
    Paths.SplitExt(name).root + ".mkv"
  }

  /** The output path: the user's name with its extension replaced by
      `.mkv` when one was given (an empty name counts as none), otherwise the
      default name; either way the file name is the last part of the path. */
  function OutputPath(env: Env, name: Option<string>, default: string): (path: string)
    ensures name.Some? && name.value != [] ==>
      EndsWith(path, Paths.SplitExt(name.value).root + ".mkv")
    ensures !(name.Some? && name.value != []) ==> EndsWith(path, default)
    ensures EndsWith(default, ".mkv") ==> EndsWith(path, ".mkv")
  {
    if name.Some? && name.value != [] then
      assert EndsWith(MkvName(name.value), ".mkv") by {
        var n := MkvName(name.value);
        assert n[|n| - 4..] == ".mkv";
      }
      Paths.Join(env.dir, MkvName(name.value))
    else Paths.Join(env.dir, default)
  }

  /** A stamped intermediate or default name: `<prefix><n>_<stamp>.mkv` or
      `<prefix><stamp>.mkv`. */
  function Stamped(prefix: string, stamp: nat): string
  {
    prefix + NatStr(stamp) + ".mkv"
  }

  function RemuxPath(env: Env, i: nat): string
  {
    Paths.Join(env.dir, "remux_" + NatStr(i) + "_" + NatStr(env.stamp) + ".mkv")
  }

  function StdPath(env: Env, i: nat): string
  {
    Paths.Join(env.dir, "std_" + NatStr(i) + "_" + NatStr(env.stamp) + ".mkv")
  }

  /** A user-named output keeps its name when renamed again: stripping the
      extension of `<root>.mkv` gives `<root>` back, as long as the root's
      last component has a character other than a dot. */
  lemma MkvNameIdempotent(name: string)
    requires var root := Paths.SplitExt(name).root; Paths.StemBefore(root, |root|)
    ensures MkvName(MkvName(name)) == MkvName(name)
  {
    var root := Paths.SplitExt(name).root;
    Paths.SplitExtAppended(root, ".mkv");
  }

  /** The output path of a named merge depends only on the name, not on the
      clock, and both merge paths agree on it. */
  lemma NamedOutputIgnoresClock(env: Env, name: string, stamp: nat, d1: string, d2: string)
    requires name != []
    ensures OutputPath(env, Some(name), d1) == OutputPath(env.(stamp := stamp), Some(name), d2)
  {
  }

  /** `os.path.join(dir, x) == os.path.join(dir, y)` forces `x == y` for
      relative names. */
  lemma JoinInjective(dir: string, x: string, y: string)
    requires !StartsWith(x, "/") && !StartsWith(y, "/")
    requires Paths.Join(dir, x) == Paths.Join(dir, y)
    ensures x == y
  {
    var p := Paths.Join(dir, x);
    if dir == [] || EndsWith(dir, "/") {
      assert p[|dir|..] == x && p[|dir|..] == y;
    } else {
      assert p[|dir| + 1..] == x && p[|dir| + 1..] == y;
    }
  }

  lemma StampedNameInjective(prefix: string, i: nat, j: nat, stamp: nat)
    requires prefix + NatStr(i) + "_" + NatStr(stamp) + ".mkv" == prefix + NatStr(j) + "_" + NatStr(stamp) + ".mkv"
    ensures i == j
  {
    NoUnderscoreInNumber(i);
    NoUnderscoreInNumber(j);
    NumberPartEqual(prefix, NatStr(i), NatStr(j), NatStr(stamp));
    NatStrInjective(i, j);
  }

  lemma NoUnderscoreInNumber(n: nat)
    ensures '_' !in NatStr(n)
  {
    assert forall k :: 0 <= k < |NatStr(n)| ==> IsDigit(NatStr(n)[k]);
  }

  lemma NumberPartEqual(prefix: string, a: string, b: string, stamp: string)
    requires '_' !in a && '_' !in b
    requires prefix + a + "_" + stamp + ".mkv" == prefix + b + "_" + stamp + ".mkv"
    ensures a == b
  {
    var rest := stamp + ".mkv";
    var x, y := a + ['_'] + rest, b + ['_'] + rest;
    assert prefix + a + "_" + stamp + ".mkv" == prefix + x;
    assert prefix + b + "_" + stamp + ".mkv" == prefix + y;
    assert x == (prefix + x)[|prefix|..];
    assert y == (prefix + y)[|prefix|..];
    SeparatorUnique(a, rest, b, rest, '_');
  }

  /** The intermediate files of one job never collide: distinct inputs get
      distinct remux and standardization files, and the two kinds differ. */
  lemma IntermediatePathsDistinct(env: Env, i: nat, j: nat)
    ensures RemuxPath(env, i) == RemuxPath(env, j) ==> i == j
    ensures StdPath(env, i) == StdPath(env, j) ==> i == j
    ensures RemuxPath(env, i) != StdPath(env, j)
  {
    var stamp := NatStr(env.stamp);
    var ri, rj := "remux_" + NatStr(i) + "_" + stamp + ".mkv", "remux_" + NatStr(j) + "_" + stamp + ".mkv";
    var si, sj := "std_" + NatStr(i) + "_" + stamp + ".mkv", "std_" + NatStr(j) + "_" + stamp + ".mkv";
    assert ri[0] == 'r' && rj[0] == 'r' && si[0] == 's' && sj[0] == 's';
    if RemuxPath(env, i) == RemuxPath(env, j) {
      JoinInjective(env.dir, ri, rj);
      StampedNameInjective("remux_", i, j, env.stamp);
    }
    if StdPath(env, i) == StdPath(env, j) {
      JoinInjective(env.dir, si, sj);
      StampedNameInjective("std_", i, j, env.stamp);
    }
    if RemuxPath(env, i) == StdPath(env, j) {
      JoinInjective(env.dir, ri, sj);
    }
  }

  // ---------------------------------------------------------------------------
  // The per-file loops
  // ---------------------------------------------------------------------------

  /** The profiles of `files[i..]`, or None when one of them has none. */
  function ProfilesFrom(env: Env, files: seq<string>, i: nat): (r: Option<seq<Profile>>)
    requires i <= |files|
    ensures r.Some? ==> |r.value| == |files| - i && forall j :: i <= j < |files| ==> Info(env, files[j]) == Some(r.value[j - i])
    ensures r.None? <==> exists j :: i <= j < |files| && Info(env, files[j]).None?
    decreases |files| - i
  {
    if i == |files| then Some([])
    else
      var info := Info(env, files[i]);
      if info.None? then None else Prepend([info.value], ProfilesFrom(env, files, i + 1))
  }

  /** Where the probing loop stops: the first file without a profile, or
      the end. */
  function FirstUnprobed(env: Env, files: seq<string>, i: nat): (k: nat)
    requires i <= |files|
    ensures i <= k <= |files|
    ensures k < |files| ==> Info(env, files[k]).None?
    ensures forall j :: i <= j < k ==> Info(env, files[j]).Some?
    decreases |files| - i
  {
    if i == |files| || Info(env, files[i]).None? then i else FirstUnprobed(env, files, i + 1)
  }

  /** How many files the probing loop probes. */
  function ProbeCalls(env: Env, files: seq<string>): nat
  {
    var k := FirstUnprobed(env, files, 0);
    if k < |files| then k + 1 else k
  }

  /** The remuxed copies of `files[i..]`, or None when a remux fails. */
  function RemuxedFrom(env: Env, files: seq<string>, i: nat): (r: Option<seq<string>>)
    requires i <= |files|
    ensures r.Some? ==> |r.value| == |files| - i && forall j :: i <= j < |files| ==> r.value[j - i] == RemuxPath(env, j)
    ensures r.None? <==> exists j :: i <= j < |files| && !env.remux(files[j], RemuxPath(env, j))
    decreases |files| - i
  {
    if i == |files| then Some([])
    else if !env.remux(files[i], RemuxPath(env, i)) then None
    else Prepend([RemuxPath(env, i)], RemuxedFrom(env, files, i + 1))
  }

  /** The standardized (or copied) files of `files[i..]`, or None when a
      needed standardization fails. */
  function StandardizedFrom(env: Env, files: seq<string>, infos: seq<Profile>, t: Targets, i: nat): (r: Option<seq<string>>)
    requires |infos| == |files| && i <= |files|
    ensures r.Some? ==> |r.value| == |files| - i && forall j :: i <= j < |files| ==> r.value[j - i] == StdPath(env, j)
    ensures r.None? <==> exists j :: i <= j < |files| && NeedsStandardization(infos[j], t) && !env.standardize(files[j], StdPath(env, j), t)
    decreases |files| - i
  {
    if i == |files| then Some([])
    else if NeedsStandardization(infos[i], t) && !env.standardize(files[i], StdPath(env, i), t) then None
    else Prepend([StdPath(env, i)], StandardizedFrom(env, files, infos, t, i + 1))
  }

  /** The probing loop of `merge_videos`: it stops at the first file
      without a (video) profile. */
  method ProbeFiles(env: Env, files: seq<string>) returns (infos: Option<seq<Profile>>, probes: nat)
    ensures infos == ProfilesFrom(env, files, 0)
    ensures probes == ProbeCalls(env, files)
  {
    var found: seq<Profile> := [];
    PrependEmpty(ProfilesFrom(env, files, 0));
    var i := 0;
    while i < |files|
      invariant i <= |files|
      invariant Prepend(found, ProfilesFrom(env, files, i)) == ProfilesFrom(env, files, 0)
      invariant FirstUnprobed(env, files, i) == FirstUnprobed(env, files, 0)
    {
      var info := Info(env, files[i]);
      if info.None? {
        return None, i + 1;
      }
      PrependTwice(found, [info.value], ProfilesFrom(env, files, i + 1));
      found := found + [info.value];
      i := i + 1;
    }
    assert ProfilesFrom(env, files, i) == Some([]);
    assert found + [] == found;
    return Some(found), |files|;
  }

  /** The remux loop of `fast_merge_identical_videos`. */
  method RemuxFiles(env: Env, files: seq<string>) returns (remuxed: Option<seq<string>>)
    ensures remuxed == RemuxedFrom(env, files, 0)
  {
    var done: seq<string> := [];
    PrependEmpty(RemuxedFrom(env, files, 0));
    for i := 0 to |files|
      invariant Prepend(done, RemuxedFrom(env, files, i)) == RemuxedFrom(env, files, 0)
    {
      var path := RemuxPath(env, i);
      var success := env.remux(files[i], path);
      if !success {
        return None;
      }
      PrependTwice(done, [path], RemuxedFrom(env, files, i + 1));
      done := done + [path];
    }
    assert done + [] == done;
    return Some(done);
  }

  /** The standardization loop of `merge_videos`: a conforming file is
      copied, any other is standardized, and one failure ends the job. */
  method StandardizeFiles(env: Env, files: seq<string>, infos: seq<Profile>, t: Targets)
      returns (standardized: Option<seq<string>>)
    requires |infos| == |files|
    ensures standardized == StandardizedFrom(env, files, infos, t, 0)
  {
    var done: seq<string> := [];
    PrependEmpty(StandardizedFrom(env, files, infos, t, 0));
    for i := 0 to |files|
      invariant Prepend(done, StandardizedFrom(env, files, infos, t, i)) == StandardizedFrom(env, files, infos, t, 0)
    {
      var path := StdPath(env, i);
      if NeedsStandardization(infos[i], t) {
        var success := env.standardize(files[i], path, t);
        if !success {
          return None;
        }
      }
      PrependTwice(done, [path], StandardizedFrom(env, files, infos, t, i + 1));
      done := done + [path];
    }
    assert done + [] == done;
    return Some(done);
  }

  // ---------------------------------------------------------------------------
  // The two merge paths
  // ---------------------------------------------------------------------------

  /** `os.path.abspath` of every file, in order. */
  function AbsPaths(env: Env, files: seq<string>): (r: seq<string>)
    ensures |r| == |files| && forall i :: 0 <= i < |files| ==> r[i] == env.absPath(files[i])
  {
    seq(|files|, i requires 0 <= i < |files| => env.absPath(files[i]))
  }

  /** The output passed the check: it has video (every profile does) and
      audio. */
  predicate HasVideoAndAudio(info: Option<Profile>)
  {
    info.Some? && info.value.hasAudio
  }

  /** `fast_merge_identical_videos`. */
  function FastMergeSpec(env: Env, files: seq<string>, infos: seq<Profile>, name: Option<string>): Option<string>
    requires |infos| == |files|
  {
    var sources := if Compat.RequiresContainerRemux(infos, "mkv") then RemuxedFrom(env, files, 0) else Some(files);
    if sources.None? then None
    else
      var output := OutputPath(env, name, Stamped("Merged_By_SSBots_", env.stamp));
      var list := ConcatList.ListText(AbsPaths(env, sources.value));
      if env.fastConcat(list, output) && HasVideoAndAudio(Info(env, output)) then Some(output) else None
  }

  /** `merge_videos`. */
  function MergeVideosSpec(env: Env, files: seq<string>, name: Option<string>): Option<string>
  {
    if |files| < 2 then None
    else
      var infos := ProfilesFrom(env, files, 0);
      if infos.None? then None
      else
        var fast := if Compat.IdenticalForMerge(infos.value) then FastMergeSpec(env, files, infos.value, name) else None;
        if fast.Some? then fast
        else
          var t := TargetsOf(infos.value);
          var standardized := StandardizedFrom(env, files, infos.value, t, 0);
          if standardized.None? then None
          else
            var output := OutputPath(env, name, Stamped("merged_", env.stamp));
            var list := ConcatList.ListText(AbsPaths(env, standardized.value));
            if env.finalConcat(list, output) then Some(output) else None
  }

  method FastMerge(env: Env, files: seq<string>, infos: seq<Profile>, name: Option<string>)
      returns (result: Option<string>)
    requires |infos| == |files|
    ensures result == FastMergeSpec(env, files, infos, name)
  {
    var sources := files;
    if Compat.RequiresContainerRemux(infos, "mkv") {
      var remuxed := RemuxFiles(env, files);
      if remuxed.None? {
        return None;
      }
      sources := remuxed.value;
    }
    var output := OutputPath(env, name, Stamped("Merged_By_SSBots_", env.stamp));
    var list := ConcatList.WriteConcatList(AbsPaths(env, sources));
    if env.fastConcat(list, output) && HasVideoAndAudio(Info(env, output)) {
      return Some(output);
    }
    return None;
  }

  /** `merge_videos`, with the number of files it probed. */
  method MergeVideos(env: Env, files: seq<string>, name: Option<string>)
      returns (result: Option<string>, probes: nat)
    ensures result == MergeVideosSpec(env, files, name)
    ensures |files| < 2 ==> result.None? && probes == 0
    ensures |files| >= 2 ==> probes == ProbeCalls(env, files)
  {
    if |files| < 2 {
      return None, 0;
    }
    var infos;
    infos, probes := ProbeFiles(env, files);
    if infos.None? {
      return None, probes;
    }
    if Compat.IdenticalForMerge(infos.value) {
      var fast := FastMerge(env, files, infos.value, name);
      if fast.Some? {
        return fast, probes;
      }
    }
    var t := TargetsOf(infos.value);
    var standardized := StandardizeFiles(env, files, infos.value, t);
    if standardized.None? {
      return None, probes;
    }
    var output := OutputPath(env, name, Stamped("merged_", env.stamp));
    var list := ConcatList.WriteConcatList(AbsPaths(env, standardized.value));
    if env.finalConcat(list, output) {
      return Some(output), probes;
    }
    return None, probes;
  }

  // ---------------------------------------------------------------------------
  // What merge_videos guarantees
  // ---------------------------------------------------------------------------

  /** Probing stops at the first file without a video profile, and then the
      merge fails. */
  lemma ProbeFailureAborts(env: Env, files: seq<string>, i: nat)
    requires 2 <= |files| && i < |files| && Info(env, files[i]).None?
    requires forall j :: 0 <= j < i ==> Info(env, files[j]).Some?
    ensures MergeVideosSpec(env, files, None) == None
    ensures forall name :: MergeVideosSpec(env, files, name) == None
    ensures ProbeCalls(env, files) == i + 1
  {
    assert ProfilesFrom(env, files, 0).None?;
    var k := FirstUnprobed(env, files, 0);
    assert !(k < i) && !(i < k);
  }

  /** When the files are identical for merging and the fast merge delivers,
      its output is the result. */
  lemma FastResultReturned(env: Env, files: seq<string>, name: Option<string>)
    requires |files| >= 2
    requires var infos := ProfilesFrom(env, files, 0);
      infos.Some? && Compat.IdenticalForMerge(infos.value) && FastMergeSpec(env, files, infos.value, name).Some?
    ensures MergeVideosSpec(env, files, name) == FastMergeSpec(env, files, ProfilesFrom(env, files, 0).value, name)
  {
  }

  /** Unless the fast merge delivered, a single failed standardization of a
      non-conforming file fails the whole job. */
  lemma StandardizationFailureAborts(env: Env, files: seq<string>, name: Option<string>, i: nat)
    requires |files| >= 2 && i < |files|
    requires var infos := ProfilesFrom(env, files, 0);
      && infos.Some?
      && (Compat.IdenticalForMerge(infos.value) ==> FastMergeSpec(env, files, infos.value, name).None?)
      && var t := TargetsOf(infos.value);
         NeedsStandardization(infos.value[i], t) && !env.standardize(files[i], StdPath(env, i), t)
    ensures MergeVideosSpec(env, files, name) == None
  {
    var infos := ProfilesFrom(env, files, 0).value;
    assert StandardizedFrom(env, files, infos, TargetsOf(infos), 0).None?;
  }

  /** A successful merge ends in one of the two output paths: the fast
      merge's `Merged_By_SSBots_<t>.mkv` or the final `merged_<t>.mkv` (or
      the user's name with `.mkv`, either way). */
  lemma MergeResultPaths(env: Env, files: seq<string>, name: Option<string>)
    requires MergeVideosSpec(env, files, name).Some?
    ensures var r := MergeVideosSpec(env, files, name).value;
      && (r == OutputPath(env, name, Stamped("Merged_By_SSBots_", env.stamp))
          || r == OutputPath(env, name, Stamped("merged_", env.stamp)))
      && EndsWith(r, ".mkv")
  {
    assert EndsWith(Stamped("Merged_By_SSBots_", env.stamp), ".mkv");
    assert EndsWith(Stamped("merged_", env.stamp), ".mkv");
  }

  /** Without a fast result, a successful merge concatenated one
      standardized file per input, in input order. */
  lemma StandardizedInOrder(env: Env, files: seq<string>, name: Option<string>)
    requires MergeVideosSpec(env, files, name).Some?
    requires var infos := ProfilesFrom(env, files, 0);
      infos.Some? && (Compat.IdenticalForMerge(infos.value) ==> FastMergeSpec(env, files, infos.value, name).None?)
    ensures var infos := ProfilesFrom(env, files, 0).value;
      var s := StandardizedFrom(env, files, infos, TargetsOf(infos), 0);
      && s.Some? && |s.value| == |files|
      && (forall j :: 0 <= j < |files| ==> s.value[j] == StdPath(env, j))
      && MergeVideosSpec(env, files, name) == Some(OutputPath(env, name, Stamped("merged_", env.stamp)))
      && env.finalConcat(ConcatList.ListText(AbsPaths(env, s.value)), OutputPath(env, name, Stamped("merged_", env.stamp)))
  {
    var infos := ProfilesFrom(env, files, 0).value;
    var s := StandardizedFrom(env, files, infos, TargetsOf(infos), 0);
    assert forall j :: 0 <= j < |files| ==> s.value[j - 0] == StdPath(env, j);
  }

  // ---------------------------------------------------------------------------
  // Subtitles, audio and the composite flow
  // ---------------------------------------------------------------------------

  /** `softmuxed_<t>.mkv` and `multiaudio_<t>.mkv`. */
  function SoftmuxPath(env: Env): string { Paths.Join(env.dir, Stamped("softmuxed_", env.stamp)) }
  function MultiAudioPath(env: Env): string { Paths.Join(env.dir, Stamped("multiaudio_", env.stamp)) }

  /** `merge_subtitles`: on success the video file is replaced by the muxed
      one and its path returned. */
  function SingleSubtitleSpec(env: Env, video: string, subtitle: string): Option<string>
  {
    var info := Info(env, video);
    if info.None? then None
    else if env.mux(TrackArgs.SingleSubtitleArgs(video, subtitle, info.value.subtitleStreams, SoftmuxPath(env))) then Some(video)
    else None
  }

  /** `merge_multiple_subtitles`. */
  function SubtitlesSpec(env: Env, video: string, subtitles: seq<string>): Option<string>
  {
    var info := Info(env, video);
    if info.None? then None
    else if env.mux(TrackArgs.SubtitleArgs(video, subtitles, info.value.subtitleStreams, SoftmuxPath(env))) then Some(video)
    else None
  }

  /** `merge_audios`; a missing video (`None`) fails inside the probe. */
  function AudiosSpec(env: Env, video: Option<string>, audios: seq<string>): Option<string>
  {
    if video.None? then None
    else
      var info := Info(env, video.value);
      if info.None? then None
      else if env.mux(TrackArgs.AudioArgs(video.value, audios, info.value.audioStreams, MultiAudioPath(env))) then video
      else None
  }

  /** `merge_videos_with_options`; an absent or empty list of subtitles or
      audio files means no such step. */
  function WithOptionsSpec(env: Env, files: seq<string>, name: Option<string>, subtitles: seq<string>, audios: seq<string>): Option<string>
  {
    var merged := MergeVideosSpec(env, files, name);
    if merged.None? then None
    else
      var afterSubtitles :=
        if subtitles == [] then merged
        else if |subtitles| == 1 then SingleSubtitleSpec(env, merged.value, subtitles[0])
        else SubtitlesSpec(env, merged.value, subtitles);
      if audios == [] then afterSubtitles else AudiosSpec(env, afterSubtitles, audios)
  }

  method MergeSubtitles(env: Env, video: string, subtitle: string) returns (result: Option<string>)
    ensures result == SingleSubtitleSpec(env, video, subtitle)
  {
    var info := Info(env, video);
    if info.None? {
      return None;
    }
    var cmd := TrackArgs.SingleSubtitleArgs(video, subtitle, info.value.subtitleStreams, SoftmuxPath(env));
    if env.mux(cmd) {
      return Some(video);
    }
    return None;
  }

  method MergeMultipleSubtitles(env: Env, video: string, subtitles: seq<string>) returns (result: Option<string>)
    ensures result == SubtitlesSpec(env, video, subtitles)
  {
    var info := Info(env, video);
    if info.None? {
      return None;
    }
    var cmd := TrackArgs.BuildSubtitleCommand(video, subtitles, info.value.subtitleStreams, SoftmuxPath(env));
    if env.mux(cmd) {
      return Some(video);
    }
    return None;
  }

  method MergeAudios(env: Env, video: Option<string>, audios: seq<string>) returns (result: Option<string>)
    ensures result == AudiosSpec(env, video, audios)
  {
    if video.None? {
      return None;
    }
    var info := Info(env, video.value);
    if info.None? {
      return None;
    }
    var cmd := TrackArgs.BuildAudioCommand(video.value, audios, info.value.audioStreams, MultiAudioPath(env));
    if env.mux(cmd) {
      return video;
    }
    return None;
  }

  method MergeWithOptions(env: Env, files: seq<string>, name: Option<string>, subtitles: seq<string>, audios: seq<string>)
      returns (result: Option<string>)
    ensures result == WithOptionsSpec(env, files, name, subtitles, audios)
  {
    var merged, _ := MergeVideos(env, files, name);
    if merged.None? {
      return None;
    }
    result := merged;
    if subtitles != [] {
      if |subtitles| == 1 {
        result := MergeSubtitles(env, merged.value, subtitles[0]);
      } else {
        result := MergeMultipleSubtitles(env, merged.value, subtitles);
      }
    }
    if audios != [] {
      result := MergeAudios(env, result, audios);
    }
  }

  /** The composite flow ends in the merged video's own path or in nothing:
      the subtitle and audio steps replace the file in place. It fails
      whenever the merge fails, whatever the options, and whenever a
      requested step fails. */
  lemma WithOptionsMeaning(env: Env, files: seq<string>, name: Option<string>, subtitles: seq<string>, audios: seq<string>)
    ensures var r := WithOptionsSpec(env, files, name, subtitles, audios);
      r.Some? ==> r == MergeVideosSpec(env, files, name)
    ensures MergeVideosSpec(env, files, name).None? ==> WithOptionsSpec(env, files, name, subtitles, audios).None?
    ensures subtitles == [] && audios == [] ==> WithOptionsSpec(env, files, name, subtitles, audios) == MergeVideosSpec(env, files, name)
    ensures var merged := MergeVideosSpec(env, files, name);
      merged.Some? && |subtitles| == 1 && SingleSubtitleSpec(env, merged.value, subtitles[0]).None? ==>
        WithOptionsSpec(env, files, name, subtitles, audios).None?
    ensures var merged := MergeVideosSpec(env, files, name);
      merged.Some? && |subtitles| > 1 && SubtitlesSpec(env, merged.value, subtitles).None? ==>
        WithOptionsSpec(env, files, name, subtitles, audios).None?
  {
  }
}
