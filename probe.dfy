/** The classification half of `get_detailed_video_info`
    (helpers/merger.py): from ffprobe's parsed JSON to the normalised
    profile the merge decisions compare. Running ffprobe and decoding its
    JSON are not modelled: the probe output arrives as a value, `None` when
    ffprobe failed or printed something that is not JSON. */
module Probe {
  import opened Wrappers
  import opened Text

  /** One entry of ffprobe's `streams` list; a field is `None` when its key
      is absent. */
  datatype RawStream = RawStream(
    codecType: Option<string>,
    codecName: Option<string>,
    width: Option<int>,
    height: Option<int>,
    frameRate: Option<string>,
    pixFmt: Option<string>,
    sampleRate: Option<string>)

  /** ffprobe's `format` object. */
  datatype RawFormat = RawFormat(formatName: Option<string>, duration: Option<string>)

  /** ffprobe's JSON: an absent `streams` key is an empty list. */
  datatype ProbeData = ProbeData(streams: seq<RawStream>, format: Option<RawFormat>)

  /** The normalised profile; `fps` is in hundredths of a frame per second
      and `audioCodec` is `None` exactly when there is no audio stream. */
  datatype Profile = Profile(
    width: int,
    height: int,
    fps: int,
    videoCodec: string,
    audioCodec: Option<string>,
    pixelFormat: string,
    sampleRate: int,
    container: string,
    hasAudio: bool,
    hasSubtitles: bool,
    audioStreams: nat,
    subtitleStreams: nat)

  function GetOr<T>(o: Option<T>, default: T): T
  {
    if o.Some? then o.value else default
  }

  /** `[s for s in streams if s.get('codec_type') == kind]`. */
  function OfType(streams: seq<RawStream>, kind: string): (r: seq<RawStream>)
    ensures |r| <= |streams|
    ensures forall i :: 0 <= i < |r| ==> r[i].codecType == Some(kind)
    ensures r == [] <==> forall i :: 0 <= i < |streams| ==> streams[i].codecType != Some(kind)
  {
    if streams == [] then []
    else
      var rest := OfType(streams[1..], kind);
      assert forall i :: 1 <= i < |streams| ==> streams[i] == streams[1..][i - 1];
      if streams[0].codecType == Some(kind) then [streams[0]] + rest else rest
  }

  /** The stream chosen for a kind is the earliest stream of that kind. */
  lemma {:induction false} FirstOfType(streams: seq<RawStream>, kind: string)
    requires OfType(streams, kind) != []
    ensures exists i :: 0 <= i < |streams| && streams[i] == OfType(streams, kind)[0] &&
                        forall j :: 0 <= j < i ==> streams[j].codecType != Some(kind)
  {
    if streams[0].codecType != Some(kind) {
      FirstOfType(streams[1..], kind);
      var i :| 0 <= i < |streams[1..]| && streams[1..][i] == OfType(streams[1..], kind)[0]
        && forall j :: 0 <= j < i ==> streams[1..][j].codecType != Some(kind);
      assert streams[i + 1] == OfType(streams, kind)[0];
      assert forall j :: 1 <= j < i + 1 ==> streams[j] == streams[1..][j - 1];
    } else {
      assert streams[0] == OfType(streams, kind)[0];
    }
  }

  /** A non-empty string of ASCII digits, what `int()` reads here. */
  predicate IsNatText(s: string) { s != [] && AllDigits(s) }

  function Pow10(k: nat): (r: nat)
    ensures r >= 1
  {
    if k == 0 then 1 else 10 * Pow10(k - 1)
  }

  /** A decimal read exactly as num / den. */
  datatype Ratio = Ratio(num: nat, den: nat)

  /** `float(s)` for decimal text `D`, `D.`, `.F` or `D.F`; other text is
      refused (`ValueError`). */
  function ParseDecimal(s: string): (r: Option<Ratio>)
    ensures r.Some? ==> r.value.den >= 1
  {
    if '.' in s then
      var parts := SplitAt(s, '.');
      var whole, frac := parts.0, parts.1;
      if AllDigits(whole) && AllDigits(frac) && (whole != [] || frac != []) then
        Some(Ratio(ParseNat(whole + frac), Pow10(|frac|)))
      else None
    else if IsNatText(s) then Some(Ratio(ParseNat(s), 1))
    else None
  }

  const DefaultFps: int := 3000

  /** The frame rate in hundredths from `r_frame_rate`: `num/den` is
      num / den rounded to two decimals, or 30.0 when den is zero (den is
      read first, so num is then not read at all); without a `/` the text is
      read as one number and rounded. `None` is the exception the source
      catches. */
  function ParseFrameRate(text: string): Option<int>
  {
    if '/' in text then
      var parts := SplitAt(text, '/');
      var num, den := parts.0, parts.1;
      if '/' in den || !IsNatText(den) then None
      else if ParseNat(den) == 0 then Some(DefaultFps)
      else
        match ParseDecimal(num)
        case None => None
        case Some(q) => Some(RoundHalfEven(q.num * 100, q.den * ParseNat(den)))
    else
      match ParseDecimal(text)
      case None => None
      case Some(q) => Some(RoundHalfEven(q.num * 100, q.den))
  }

  /** `int(audio_stream.get('sample_rate', 48000))`. */
  function ParseSampleRate(text: Option<string>): Option<int>
  {
    match text
    case None => Some(48000)
    case Some(s) => if IsNatText(s) then Some(ParseNat(s)) else None
  }

  /** `float(data['format'].get('duration', 0))` succeeds. */
  predicate DurationReadable(format: RawFormat)
  {
    format.duration.None? || ParseDecimal(format.duration.value).Some?
  }

  /** Everything the profile needs is present and readable. */
  predicate Classifiable(data: ProbeData)
  {
    var videos := OfType(data.streams, "video");
    var audios := OfType(data.streams, "audio");
    && videos != []
    && videos[0].width.Some? && videos[0].height.Some?
    && ParseFrameRate(GetOr(videos[0].frameRate, "30/1")).Some?
    && (audios != [] ==> ParseSampleRate(audios[0].sampleRate).Some?)
    && data.format.Some? && DurationReadable(data.format.value)
  }

  /** `get_detailed_video_info` after ffprobe has run. */
  function Classify(data: Option<ProbeData>): Option<Profile>
  {
    if data.None? || !Classifiable(data.value) then None
    else
      var d := data.value;
      var videos := OfType(d.streams, "video");
      var audios := OfType(d.streams, "audio");
      var subtitles := OfType(d.streams, "subtitle");
      var v := videos[0];
      Some(Profile(
        width := v.width.value,
        height := v.height.value,
        fps := ParseFrameRate(GetOr(v.frameRate, "30/1")).value,
        videoCodec := Lower(GetOr(v.codecName, "")),
        audioCodec := if audios == [] then None else Some(Lower(GetOr(audios[0].codecName, ""))),
        pixelFormat := GetOr(v.pixFmt, "yuv420p"),
        sampleRate := if audios == [] then 48000 else ParseSampleRate(audios[0].sampleRate).value,
        container := Lower(GetOr(d.format.value.formatName, "")),
        hasAudio := audios != [],
        hasSubtitles := subtitles != [],
        audioStreams := |audios|,
        subtitleStreams := |subtitles|))
  }

  /** Filtering a concatenation filters each part. */
  lemma {:induction false} OfTypeAppend(a: seq<RawStream>, b: seq<RawStream>, kind: string)
    ensures OfType(a + b, kind) == OfType(a, kind) + OfType(b, kind)
  {
    if a != [] {
      assert (a + b)[0] == a[0];
      assert (a + b)[1..] == a[1..] + b;
      OfTypeAppend(a[1..], b, kind);
    } else {
      assert a + b == b;
    }
  }

  /** One stream is kept exactly when it is of the kind. */
  lemma OfTypeSingle(s: RawStream, kind: string)
    ensures OfType([s], kind) == if s.codecType == Some(kind) then [s] else []
  {
    assert [s][1..] == [];
  }

  /** Stream `i` is the earliest stream of the kind. */
  predicate EarliestOfType(streams: seq<RawStream>, kind: string, i: int)
  {
    && 0 <= i < |streams|
    && streams[i].codecType == Some(kind)
    && forall j :: 0 <= j < i ==> streams[j].codecType != Some(kind)
  }

  /** Without a video stream there is no profile; with one, the profile
      has an audio codec exactly when some stream is audio, counts the
      audio and subtitle streams, and reads its container from the format. */
  lemma ClassifyMeaning(data: ProbeData)
    ensures (forall i :: 0 <= i < |data.streams| ==> data.streams[i].codecType != Some("video")) ==>
      Classify(Some(data)) == None
    ensures Classify(Some(data)).Some? ==>
      var p := Classify(Some(data)).value;
      && (p.hasAudio <==> exists i :: 0 <= i < |data.streams| && data.streams[i].codecType == Some("audio"))
      && (p.audioCodec.None? <==> !p.hasAudio)
      && (!p.hasAudio ==> p.sampleRate == 48000)
      && p.audioStreams == |OfType(data.streams, "audio")| <= |data.streams|
      && p.subtitleStreams == |OfType(data.streams, "subtitle")| <= |data.streams|
      && (p.hasSubtitles <==> p.subtitleStreams > 0)
      && data.format.Some?
      && p.container == Lower(GetOr(data.format.value.formatName, ""))
  {
  }

  /** The video half of the profile describes the earliest video stream:
      its size, its frame rate (`30/1` when absent), its lower-cased codec
      and its pixel format (`yuv420p` when absent). */
  lemma ClassifyVideo(data: ProbeData)
    ensures Classify(Some(data)).Some? ==>
      var p := Classify(Some(data)).value;
      exists i :: EarliestOfType(data.streams, "video", i)
        && var v := data.streams[i];
        && v.width == Some(p.width) && v.height == Some(p.height)
        && ParseFrameRate(GetOr(v.frameRate, "30/1")) == Some(p.fps)
        && p.videoCodec == Lower(GetOr(v.codecName, ""))
        && p.pixelFormat == GetOr(v.pixFmt, "yuv420p")
  {
    if Classify(Some(data)).Some? {
      FirstOfType(data.streams, "video");
    }
  }

  /** The audio half of the profile describes the earliest audio stream:
      its lower-cased codec and its sample rate (48000 when absent); with no
      audio stream there is no codec and the rate is 48000. */
  lemma ClassifyAudio(data: ProbeData)
    ensures Classify(Some(data)).Some? ==>
      var p := Classify(Some(data)).value;
      && (p.hasAudio ==>
            exists i :: EarliestOfType(data.streams, "audio", i)
              && p.audioCodec == Some(Lower(GetOr(data.streams[i].codecName, "")))
              && ParseSampleRate(data.streams[i].sampleRate) == Some(p.sampleRate))
      && (!p.hasAudio ==> p.audioCodec.None? && p.sampleRate == 48000)
  {
    if Classify(Some(data)).Some? && OfType(data.streams, "audio") != [] {
      FirstOfType(data.streams, "audio");
    }
  }

  /** An integer ratio reads as its nearest hundredth. */
  lemma FrameRateNearest(num: nat, den: nat)
    requires den > 0
    ensures var r := ParseFrameRate(NatStr(num) + "/" + NatStr(den));
      r.Some? && 2 * (r.value * den - 100 * num) <= den && 2 * (100 * num - r.value * den) <= den
  {
    FrameRateOfRatio(num, den);
  }

  /** A zero denominator reads as 30 fps. */
  lemma FrameRateZeroDenominator(num: nat)
    ensures ParseFrameRate(NatStr(num) + "/" + NatStr(0)) == Some(DefaultFps)
  {
    FrameRateOfRatio(num, 0);
  }

  /** A missing `r_frame_rate` reads as 30 fps (the default text `30/1`). */
  lemma FrameRateMissing()
    ensures ParseFrameRate("30/1") == Some(DefaultFps)
  {
    FrameRateOfRatio(30, 1);
    assert DigitChar(3) == '3' && DigitChar(0) == '0' && DigitChar(1) == '1';
    assert NatStr(30) == NatStr(3) + [DigitChar(0)] == "30";
    assert NatStr(1) == "1";
    assert NatStr(30) + "/" + NatStr(1) == "30/1";
  }

  lemma FrameRateOfRatio(num: nat, den: nat)
    ensures var r := ParseFrameRate(NatStr(num) + "/" + NatStr(den));
      && (den == 0 ==> r == Some(DefaultFps))
      && (den > 0 ==> r == Some(RoundHalfEven(num * 100, den)))
  {
    var a, b := NatStr(num), NatStr(den);
    assert '/' !in a && '/' !in b by {
      assert forall i :: 0 <= i < |a| ==> IsDigit(a[i]);
      assert forall i :: 0 <= i < |b| ==> IsDigit(b[i]);
    }
    SplitAtJoin(a, '/', b);
    ParseNatStr(num);
    ParseNatStr(den);
    assert ParseDecimal(a) == Some(Ratio(num, 1));
  }

  /** A whole number of frames per second reads as that number. */
  lemma FrameRateWhole(n: nat)
    ensures ParseFrameRate(NatStr(n)) == Some(100 * n)
  {
    var a := NatStr(n);
    assert '/' !in a && '.' !in a by {
      assert forall i :: 0 <= i < |a| ==> IsDigit(a[i]);
    }
    ParseNatStr(n);
  }
}
