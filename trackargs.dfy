/** The ffmpeg argument lists built by `merge_subtitles`,
    `merge_multiple_subtitles` and `merge_audios` (helpers/merger.py): the
    merged video is input 0, the new subtitle or audio files are inputs
    1..K, and `existing` is the number of subtitle (or audio) streams the
    video already has, as probed. */
module TrackArgs {
  import opened Text

  // ---------------------------------------------------------------------------
  // Argument groups
  // ---------------------------------------------------------------------------

  /** `-i <path>` for every path, in order. */
  function Inputs(paths: seq<string>): (args: seq<string>)
    ensures |args| == 2 * |paths|
  {
    if paths == [] then [] else Inputs(paths[..|paths| - 1]) + ["-i", paths[|paths| - 1]]
  }

  /** `title=Track <n>`. */
  function TrackTitle(n: nat): string
  {
    "title=Track " + NatStr(n)
  }

  /** The four arguments for new subtitle input `i + 1`: its map and its
      title at subtitle index `existing + i`. */
  function SubtitleGroup(i: nat, existing: nat): seq<string>
  {
    ["-map", NatStr(i + 1) + ":s", "-metadata:s:s:" + NatStr(existing + i), TrackTitle(existing + i + 1)]
  }

  /** The groups of new subtitle inputs `0..k-1`. */
  function SubtitleMaps(k: nat, existing: nat): (args: seq<string>)
    ensures |args| == 4 * k
  {
    if k == 0 then [] else SubtitleMaps(k - 1, existing) + SubtitleGroup(k - 1, existing)
  }

  /** The four arguments that keep existing audio stream `i` without the
      default flag. */
  function ExistingAudioGroup(i: nat): seq<string>
  {
    ["-map", "0:a:" + NatStr(i), "-disposition:a:" + NatStr(i), "0"]
  }

  function ExistingAudioMaps(m: nat): (args: seq<string>)
    ensures |args| == 4 * m
  {
    if m == 0 then [] else ExistingAudioMaps(m - 1) + ExistingAudioGroup(m - 1)
  }

  /** The four arguments for new audio input `i + 1`, titled at audio index
      `existing + i`. */
  function NewAudioGroup(i: nat, existing: nat): seq<string>
  {
    ["-map", NatStr(i + 1) + ":a", "-metadata:s:a:" + NatStr(existing + i), TrackTitle(existing + i + 1)]
  }

  function NewAudioMaps(k: nat, existing: nat): (args: seq<string>)
    ensures |args| == 4 * k
  {
    if k == 0 then [] else NewAudioMaps(k - 1, existing) + NewAudioGroup(k - 1, existing)
  }

  /** The default flag for the first new track when the video had no audio. */
  function DefaultFlag(existing: nat, k: nat): seq<string>
  {
    if existing == 0 && k > 0 then ["-disposition:a:0", "default"] else []
  }

  // ---------------------------------------------------------------------------
  // Whole commands
  // ---------------------------------------------------------------------------

  const Head: seq<string> := ["ffmpeg", "-hide_banner", "-y", "-i"]
  const SubtitleStreamMaps: seq<string> := ["-map", "0:v:0", "-map", "0:a:?", "-map", "0:s:?"]
  const SubtitleCodecs: seq<string> := ["-c:v", "copy", "-c:a", "copy", "-c:s", "srt"]
  const AudioStreamMaps: seq<string> := ["-map", "0:v:0", "-map", "0:s:?"]
  const AudioCodecs: seq<string> := ["-c:v", "copy", "-c:a", "copy", "-c:s", "copy"]

  /** The `merge_subtitles` command for one subtitle file. */
  function SingleSubtitleArgs(video: string, subtitle: string, existing: nat, output: string): seq<string>
  {
    Head + [video, "-i", subtitle] + SubtitleStreamMaps + ["-map", "1:s"] + SubtitleCodecs
      + ["-metadata:s:s:" + NatStr(existing), TrackTitle(existing + 1), output]
  }

  /** The `merge_multiple_subtitles` command. */
  function SubtitleArgs(video: string, subtitles: seq<string>, existing: nat, output: string): seq<string>
  {
    Head + [video] + Inputs(subtitles) + SubtitleStreamMaps + SubtitleMaps(|subtitles|, existing)
      + SubtitleCodecs + [output]
  }

  /** The `merge_audios` command. */
  function AudioArgs(video: string, audios: seq<string>, existing: nat, output: string): seq<string>
  {
    Head + [video] + Inputs(audios) + AudioStreamMaps + ExistingAudioMaps(existing)
      + NewAudioMaps(|audios|, existing) + DefaultFlag(existing, |audios|) + AudioCodecs + [output]
  }

  /** `merge_multiple_subtitles` growing `cmd` with `cmd.extend`. */
  method BuildSubtitleCommand(video: string, subtitles: seq<string>, existing: nat, output: string)
      returns (cmd: seq<string>)
    ensures cmd == SubtitleArgs(video, subtitles, existing, output)
  {
    cmd := Head + [video];
    for j := 0 to |subtitles|
      invariant cmd == Head + [video] + Inputs(subtitles[..j])
    {
      assert subtitles[..j + 1][..j] == subtitles[..j];
      cmd := cmd + ["-i", subtitles[j]];
    }
    assert subtitles[..|subtitles|] == subtitles;
    cmd := cmd + SubtitleStreamMaps;
    var prefix := cmd;
    for i := 0 to |subtitles|
      invariant cmd == prefix + SubtitleMaps(i, existing)
    {
      cmd := cmd + ["-map", NatStr(i + 1) + ":s"];
      cmd := cmd + ["-metadata:s:s:" + NatStr(existing + i), TrackTitle(existing + i + 1)];
    }
    cmd := cmd + SubtitleCodecs + [output];
  }

  /** `merge_audios` growing `cmd` with `cmd.extend`. */
  method BuildAudioCommand(video: string, audios: seq<string>, existing: nat, output: string)
      returns (cmd: seq<string>)
    ensures cmd == AudioArgs(video, audios, existing, output)
  {
    cmd := Head + [video];
    for j := 0 to |audios|
      invariant cmd == Head + [video] + Inputs(audios[..j])
    {
      assert audios[..j + 1][..j] == audios[..j];
      cmd := cmd + ["-i", audios[j]];
    }
    assert audios[..|audios|] == audios;
    cmd := cmd + AudioStreamMaps;
    ghost var withStreams := cmd;
    for i := 0 to existing
      invariant cmd == withStreams + ExistingAudioMaps(i)
    {
      cmd := cmd + ["-map", "0:a:" + NatStr(i)];
      cmd := cmd + ["-disposition:a:" + NatStr(i), "0"];
      AppendGroup(withStreams, ExistingAudioMaps(i), ["-map", "0:a:" + NatStr(i)], ["-disposition:a:" + NatStr(i), "0"]);
    }
    ghost var withExisting := cmd;
    for i := 0 to |audios|
      invariant cmd == withExisting + NewAudioMaps(i, existing)
    {
      cmd := cmd + ["-map", NatStr(i + 1) + ":a"];
      cmd := cmd + ["-metadata:s:a:" + NatStr(existing + i), TrackTitle(existing + i + 1)];
      AppendGroup(withExisting, NewAudioMaps(i, existing), ["-map", NatStr(i + 1) + ":a"],
                  ["-metadata:s:a:" + NatStr(existing + i), TrackTitle(existing + i + 1)]);
    }
    ghost var withNew := cmd;
    if existing == 0 && |audios| > 0 {
      cmd := cmd + ["-disposition:a:0", "default"];
    }
    assert cmd == withNew + DefaultFlag(existing, |audios|);
    cmd := cmd + AudioCodecs + [output];
  }

  /** One `cmd.extend` pair adds one four-argument group. */
  lemma AppendGroup(prefix: seq<string>, groups: seq<string>, first: seq<string>, second: seq<string>)
    ensures prefix + groups + first + second == prefix + (groups + (first + second))
  {
  }

  // ---------------------------------------------------------------------------
  // Where each argument lands
  // ---------------------------------------------------------------------------

  lemma {:induction false} InputsAt(paths: seq<string>, i: nat)
    requires i < |paths|
    ensures Inputs(paths)[2 * i] == "-i" && Inputs(paths)[2 * i + 1] == paths[i]
    decreases |paths|
  {
    var last := |paths| - 1;
    if i < last {
      InputsAt(paths[..last], i);
      assert paths[..last][i] == paths[i];
    }
  }

  /** A slice inside the first part of `x + y`. */
  lemma SliceOfFirst(x: seq<string>, y: seq<string>, lo: nat, hi: nat)
    requires lo <= hi <= |x|
    ensures (x + y)[lo..hi] == x[lo..hi]
  {
    assert forall j :: lo <= j < hi ==> (x + y)[j] == x[j];
  }

  /** The last part of `x + y`. */
  lemma SliceOfSecond(x: seq<string>, y: seq<string>)
    ensures (x + y)[|x|..|x| + |y|] == y
  {
    assert forall j :: 0 <= j < |y| ==> (x + y)[|x| + j] == y[j];
  }

  lemma {:induction false} SubtitleMapsAt(k: nat, existing: nat, i: nat)
    requires i < k
    ensures SubtitleMaps(k, existing)[4 * i..4 * i + 4] == SubtitleGroup(i, existing)
    decreases k
  {
    var before, group := SubtitleMaps(k - 1, existing), SubtitleGroup(k - 1, existing);
    assert SubtitleMaps(k, existing) == before + group;
    if i < k - 1 {
      SubtitleMapsAt(k - 1, existing, i);
      SliceOfFirst(before, group, 4 * i, 4 * i + 4);
    } else {
      SliceOfSecond(before, group);
    }
  }

  lemma {:induction false} ExistingAudioMapsAt(m: nat, i: nat)
    requires i < m
    ensures ExistingAudioMaps(m)[4 * i..4 * i + 4] == ExistingAudioGroup(i)
    decreases m
  {
    var before, group := ExistingAudioMaps(m - 1), ExistingAudioGroup(m - 1);
    assert ExistingAudioMaps(m) == before + group;
    if i < m - 1 {
      ExistingAudioMapsAt(m - 1, i);
      SliceOfFirst(before, group, 4 * i, 4 * i + 4);
    } else {
      SliceOfSecond(before, group);
    }
  }

  lemma {:induction false} NewAudioMapsAt(k: nat, existing: nat, i: nat)
    requires i < k
    ensures NewAudioMaps(k, existing)[4 * i..4 * i + 4] == NewAudioGroup(i, existing)
    decreases k
  {
    var before, group := NewAudioMaps(k - 1, existing), NewAudioGroup(k - 1, existing);
    assert NewAudioMaps(k, existing) == before + group;
    if i < k - 1 {
      NewAudioMapsAt(k - 1, existing, i);
      SliceOfFirst(before, group, 4 * i, 4 * i + 4);
    } else {
      SliceOfSecond(before, group);
    }
  }

  /** Four arguments found at `lo` in the middle part of a command are
      found at `|a| + lo` in the command. */
  lemma GroupInMiddle(cmd: seq<string>, a: seq<string>, b: seq<string>, c: seq<string>, lo: nat, g: seq<string>)
    requires cmd == a + b + c && lo + 4 <= |b| && b[lo..lo + 4] == g
    ensures |a| + lo + 4 <= |cmd| && cmd[|a| + lo..|a| + lo + 4] == g
  {
    MiddleSlice(a, b, c, lo, lo + 4);
  }

  /** A slice of the middle part of `a + b + c`. */
  lemma MiddleSlice(a: seq<string>, b: seq<string>, c: seq<string>, lo: nat, hi: nat)
    requires lo <= hi <= |b|
    ensures (a + b + c)[|a| + lo..|a| + hi] == b[lo..hi]
  {
    var s := a + b + c;
    assert forall j :: lo <= j < hi ==> s[|a| + j] == b[j];
  }

  /** Regrouping a concatenation of seven parts around its third and fifth
      parts. */
  lemma Regroup7(a: seq<string>, b: seq<string>, c: seq<string>, d: seq<string>, e: seq<string>,
                 f: seq<string>, g: seq<string>)
    ensures var s := a + b + c + d + e + f + g;
      && s == (a + b) + c + (d + e + f + g)
      && s == (a + b + c + d) + e + (f + g)
  {
  }

  /** Regrouping a concatenation of nine parts around its third, fifth and
      sixth parts. */
  lemma Regroup9(a: seq<string>, b: seq<string>, c: seq<string>, d: seq<string>, e: seq<string>,
                 f: seq<string>, g: seq<string>, h: seq<string>, i: seq<string>)
    ensures var s := a + b + c + d + e + f + g + h + i;
      && s == (a + b) + c + (d + e + f + g + h + i)
      && s == (a + b + c + d) + e + (f + g + h + i)
      && s == (a + b + c + d + e) + f + (g + h + i)
  {
  }

  /** The subtitle command has `18 + 6K` arguments: the video is input 0,
      and it ends by writing subtitles as SRT to `output`. */
  lemma SubtitleArgsEnds(video: string, subtitles: seq<string>, existing: nat, output: string)
    ensures var cmd := SubtitleArgs(video, subtitles, existing, output);
      && |cmd| == 18 + 6 * |subtitles|
      && cmd[3] == "-i" && cmd[4] == video
      && cmd[|cmd| - 3] == "-c:s" && cmd[|cmd| - 2] == "srt" && cmd[|cmd| - 1] == output
  {
  }

  /** Input `i + 1` of the subtitle command is the `i`-th subtitle file. */
  lemma SubtitleInputAt(video: string, subtitles: seq<string>, existing: nat, output: string, i: nat)
    requires i < |subtitles|
    ensures var cmd := SubtitleArgs(video, subtitles, existing, output);
      cmd[5 + 2 * i] == "-i" && cmd[6 + 2 * i] == subtitles[i]
  {
    var k := |subtitles|;
    var cmd := SubtitleArgs(video, subtitles, existing, output);
    var pre := Head + [video];
    var inputs := Inputs(subtitles);
    var post := SubtitleStreamMaps + SubtitleMaps(k, existing) + SubtitleCodecs + [output];
    assert cmd == pre + inputs + post by {
      Regroup7(Head, [video], inputs, SubtitleStreamMaps, SubtitleMaps(k, existing), SubtitleCodecs, [output]);
    }
    assert inputs[2 * i] == "-i" && inputs[2 * i + 1] == subtitles[i] by {
      InputsAt(subtitles, i);
    }
    MiddleSlice(pre, inputs, post, 2 * i, 2 * i + 2);
  }

  /** New subtitle input `i + 1` is mapped as subtitles and titled
      `Track existing+i+1` at subtitle index `existing + i`. */
  lemma SubtitleGroupAt(video: string, subtitles: seq<string>, existing: nat, output: string, i: nat)
    requires i < |subtitles|
    ensures var cmd, b := SubtitleArgs(video, subtitles, existing, output), 11 + 2 * |subtitles| + 4 * i;
      cmd[b..b + 4] == ["-map", NatStr(i + 1) + ":s", "-metadata:s:s:" + NatStr(existing + i), TrackTitle(existing + i + 1)]
  {
    var k := |subtitles|;
    var cmd := SubtitleArgs(video, subtitles, existing, output);
    var pre := Head + [video] + Inputs(subtitles) + SubtitleStreamMaps;
    var maps := SubtitleMaps(k, existing);
    var post := SubtitleCodecs + [output];
    assert cmd == pre + maps + post by {
      Regroup7(Head, [video], Inputs(subtitles), SubtitleStreamMaps, maps, SubtitleCodecs, [output]);
    }
    assert |pre| == 11 + 2 * k;
    assert maps[4 * i..4 * i + 4] == SubtitleGroup(i, existing) by {
      SubtitleMapsAt(k, existing, i);
    }
    GroupInMiddle(cmd, pre, maps, post, 4 * i, SubtitleGroup(i, existing));
  }

  /** The audio command has `16 + 6K + 4M` arguments plus the default flag;
      the video is input 0 and `output` comes last. */
  lemma AudioArgsEnds(video: string, audios: seq<string>, existing: nat, output: string)
    ensures var cmd := AudioArgs(video, audios, existing, output);
      && |cmd| == 16 + 6 * |audios| + 4 * existing + |DefaultFlag(existing, |audios|)|
      && cmd[3] == "-i" && cmd[4] == video && cmd[|cmd| - 1] == output
  {
  }

  /** Input `i + 1` of the audio command is the `i`-th audio file. */
  lemma AudioInputAt(video: string, audios: seq<string>, existing: nat, output: string, i: nat)
    requires i < |audios|
    ensures var cmd := AudioArgs(video, audios, existing, output);
      cmd[5 + 2 * i] == "-i" && cmd[6 + 2 * i] == audios[i]
  {
    var k := |audios|;
    var cmd := AudioArgs(video, audios, existing, output);
    var pre := Head + [video];
    var inputs := Inputs(audios);
    var post := AudioStreamMaps + ExistingAudioMaps(existing) + NewAudioMaps(k, existing) + DefaultFlag(existing, k) + AudioCodecs + [output];
    assert cmd == pre + inputs + post by {
      Regroup9(Head, [video], inputs, AudioStreamMaps, ExistingAudioMaps(existing),
               NewAudioMaps(k, existing), DefaultFlag(existing, k), AudioCodecs, [output]);
    }
    assert inputs[2 * i] == "-i" && inputs[2 * i + 1] == audios[i] by {
      InputsAt(audios, i);
    }
    MiddleSlice(pre, inputs, post, 2 * i, 2 * i + 2);
  }

  /** Existing audio stream `i` is kept and loses the default flag. */
  lemma ExistingAudioAt(video: string, audios: seq<string>, existing: nat, output: string, i: nat)
    requires i < existing
    ensures var cmd, b := AudioArgs(video, audios, existing, output), 9 + 2 * |audios| + 4 * i;
      cmd[b..b + 4] == ["-map", "0:a:" + NatStr(i), "-disposition:a:" + NatStr(i), "0"]
  {
    var k := |audios|;
    var pre := Head + [video] + Inputs(audios) + AudioStreamMaps;
    var maps := ExistingAudioMaps(existing);
    var post := NewAudioMaps(k, existing) + DefaultFlag(existing, k) + AudioCodecs + [output];
    AroundExistingMaps(video, audios, existing, output);
    assert maps[4 * i..4 * i + 4] == ExistingAudioGroup(i) by {
      ExistingAudioMapsAt(existing, i);
    }
    GroupInMiddle(AudioArgs(video, audios, existing, output), pre, maps, post, 4 * i, ExistingAudioGroup(i));
  }

  /** The audio command around the maps of the existing streams. */
  lemma AroundExistingMaps(video: string, audios: seq<string>, existing: nat, output: string)
    ensures var k := |audios|;
      var pre := Head + [video] + Inputs(audios) + AudioStreamMaps;
      && AudioArgs(video, audios, existing, output) ==
         pre + ExistingAudioMaps(existing) + (NewAudioMaps(k, existing) + DefaultFlag(existing, k) + AudioCodecs + [output])
      && |pre| == 9 + 2 * k
  {
    var k := |audios|;
    Regroup9(Head, [video], Inputs(audios), AudioStreamMaps, ExistingAudioMaps(existing),
             NewAudioMaps(k, existing), DefaultFlag(existing, k), AudioCodecs, [output]);
  }

  /** New audio input `i + 1` is mapped and titled `Track existing+i+1` at
      audio index `existing + i`. */
  lemma NewAudioAt(video: string, audios: seq<string>, existing: nat, output: string, i: nat)
    requires i < |audios|
    ensures var cmd, b := AudioArgs(video, audios, existing, output), 9 + 2 * |audios| + 4 * existing + 4 * i;
      cmd[b..b + 4] == ["-map", NatStr(i + 1) + ":a", "-metadata:s:a:" + NatStr(existing + i), TrackTitle(existing + i + 1)]
  {
    var k := |audios|;
    var pre := Head + [video] + Inputs(audios) + AudioStreamMaps + ExistingAudioMaps(existing);
    var maps := NewAudioMaps(k, existing);
    var post := DefaultFlag(existing, k) + AudioCodecs + [output];
    AroundNewMaps(video, audios, existing, output);
    assert maps[4 * i..4 * i + 4] == NewAudioGroup(i, existing) by {
      NewAudioMapsAt(k, existing, i);
    }
    GroupInMiddle(AudioArgs(video, audios, existing, output), pre, maps, post, 4 * i, NewAudioGroup(i, existing));
  }

  /** The audio command around the maps of the new inputs. */
  lemma AroundNewMaps(video: string, audios: seq<string>, existing: nat, output: string)
    ensures var k := |audios|;
      var pre := Head + [video] + Inputs(audios) + AudioStreamMaps + ExistingAudioMaps(existing);
      && AudioArgs(video, audios, existing, output) ==
         pre + NewAudioMaps(k, existing) + (DefaultFlag(existing, k) + AudioCodecs + [output])
      && |pre| == 9 + 2 * k + 4 * existing
  {
    var k := |audios|;
    Regroup9(Head, [video], Inputs(audios), AudioStreamMaps, ExistingAudioMaps(existing),
             NewAudioMaps(k, existing), DefaultFlag(existing, k), AudioCodecs, [output]);
  }

  // ---------------------------------------------------------------------------
  // The default flag
  // ---------------------------------------------------------------------------

  lemma {:induction false} NoDefaultInInputs(paths: seq<string>)
    requires "default" !in paths
    ensures "default" !in Inputs(paths)
    decreases |paths|
  {
    if paths != [] {
      assert paths == paths[..|paths| - 1] + [paths[|paths| - 1]];
      NoDefaultInInputs(paths[..|paths| - 1]);
    }
  }

  lemma {:induction false} NoDefaultInExistingMaps(m: nat)
    ensures "default" !in ExistingAudioMaps(m)
    decreases m
  {
    if m > 0 {
      NoDefaultInExistingMaps(m - 1);
      var g := ExistingAudioGroup(m - 1);
      assert g[1][0] == '0' && g[2][0] == '-';
    }
  }

  lemma {:induction false} NoDefaultInNewMaps(k: nat, existing: nat)
    ensures "default" !in NewAudioMaps(k, existing)
    decreases k
  {
    if k > 0 {
      NoDefaultInNewMaps(k - 1, existing);
      var g := NewAudioGroup(k - 1, existing);
      assert IsDigit(g[1][0]) && g[2][0] == '-' && g[3][0] == 't';
    }
  }

  /** The first new audio track is made the default exactly when the video
      had no audio of its own and at least one track is added (as long as
      no file is itself called `default`). */
  lemma DefaultExactlyWithoutExistingAudio(video: string, audios: seq<string>, existing: nat, output: string)
    requires video != "default" && output != "default" && "default" !in audios
    ensures "default" in AudioArgs(video, audios, existing, output) <==> existing == 0 && |audios| > 0
  {
    NoDefaultInInputs(audios);
    NoDefaultInExistingMaps(existing);
    NoDefaultInNewMaps(|audios|, existing);
    var cmd := AudioArgs(video, audios, existing, output);
    var flag := DefaultFlag(existing, |audios|);
    var before := Head + [video] + Inputs(audios) + AudioStreamMaps + ExistingAudioMaps(existing) + NewAudioMaps(|audios|, existing);
    assert cmd == before + flag + (AudioCodecs + [output]);
    assert "default" !in before;
    assert "default" !in AudioCodecs + [output];
    assert "default" in flag <==> existing == 0 && |audios| > 0;
  }

  lemma SwapMiddle(a: seq<string>, b: seq<string>, c: seq<string>, d: seq<string>)
    ensures multiset(a + b + c + d) == multiset(a + c + b + d)
  {
    calc {
      multiset(a + b + c + d);
      multiset(a) + multiset(b) + multiset(c) + multiset(d);
      multiset(a) + multiset(c) + multiset(b) + multiset(d);
      multiset(a + c + b + d);
    }
  }

  /** For one subtitle file, `merge_subtitles` and `merge_multiple_subtitles`
      pass ffmpeg the same arguments, in a different order. */
  lemma SingleIsMultipleReordered(video: string, subtitle: string, existing: nat, output: string)
    ensures multiset(SingleSubtitleArgs(video, subtitle, existing, output)) ==
            multiset(SubtitleArgs(video, [subtitle], existing, output))
  {
    var a := Head + [video, "-i", subtitle] + SubtitleStreamMaps + ["-map", "1:s"];
    var meta := ["-metadata:s:s:" + NatStr(existing), TrackTitle(existing + 1)];
    SingleShape(video, subtitle, existing, output);
    MultipleShape(video, subtitle, existing, output);
    SwapMiddle(a, SubtitleCodecs, meta, [output]);
  }

  lemma SingleShape(video: string, subtitle: string, existing: nat, output: string)
    ensures SingleSubtitleArgs(video, subtitle, existing, output) ==
      Head + [video, "-i", subtitle] + SubtitleStreamMaps + ["-map", "1:s"] + SubtitleCodecs
        + ["-metadata:s:s:" + NatStr(existing), TrackTitle(existing + 1)] + [output]
  {
  }

  lemma MultipleShape(video: string, subtitle: string, existing: nat, output: string)
    ensures SubtitleArgs(video, [subtitle], existing, output) ==
      Head + [video, "-i", subtitle] + SubtitleStreamMaps + ["-map", "1:s"]
        + ["-metadata:s:s:" + NatStr(existing), TrackTitle(existing + 1)] + SubtitleCodecs + [output]
  {
    OneSubtitleInput(subtitle);
    OneSubtitleGroup(existing);
  }

  lemma OneSubtitleInput(subtitle: string)
    ensures Inputs([subtitle]) == ["-i", subtitle]
  {
    assert [subtitle][..0] == [];
  }

  lemma OneSubtitleGroup(existing: nat)
    ensures SubtitleMaps(1, existing) == ["-map", "1:s", "-metadata:s:s:" + NatStr(existing), TrackTitle(existing + 1)]
  {
    assert NatStr(1) == [DigitChar(1)] == "1";
    assert NatStr(0 + 1) + ":s" == "1:s";
    assert existing + 0 == existing && existing + 0 + 1 == existing + 1;
    assert SubtitleMaps(1, existing) == [] + SubtitleGroup(0, existing);
  }
}
