# Merge bot helpers in Dafny

This project models the helper layer of a Telegram bot that downloads
videos and merges them with ffmpeg. It covers three files and proves
properties of each.

- `helpers/merger.py` decides how a merge runs:
  - it classifies what ffprobe reports about each input into a profile;
  - it decides whether the inputs are similar enough for a stream-copy
    concatenation (the "fast merge");
  - otherwise it chooses standardization targets and standardizes every
    input that does not conform;
  - it writes the concat-demuxer list and follows ffmpeg's progress
    output;
  - it builds the ffmpeg argument lists that add subtitle and audio
    tracks, and chains all of this in `merge_videos_with_options`.
- `helpers/downloader.py` holds:
  - the URL validator;
  - the file-name sanitiser;
  - the time-left formatter and the styled progress bar;
  - the per-message edit throttle (a module-level dictionary of last edit
    times) and the Telegram download progress callback that writes to it.
- `helpers/utils.py` holds the readable time, readable size and
  progress-bar formatters.

Every outside effect is a parameter of the model:
- the answers of ffprobe and ffmpeg;
- file-system results;
- what `os.path.abspath` returns;
- the clock;
- the already-split URL components (scheme, network location, path, as in
  section 3 of RFC 3986).

The flow in `merge_videos` is modelled twice. A method with the source's
loops (`MergeFlow.MergeVideos`) is proved equal to a specification
function, and the lemmas about the flow are stated on that function.

Representations:
- Frame rates are integer hundredths of a frame per second. Media times
  are integer hundredths of a second. Clock readings and fractions are
  `real`.
- The frame-rate tolerance "more than 0.1 apart" is "more than 10
  hundredths apart". Two rates exactly 0.10 apart therefore match.

Two oddities of the source are worth knowing:
- `helpers/merger.py` imports `get_time_left` from `helpers.utils`, which
  does not define it. The function modelled is the one in
  `helpers/downloader.py`.
- The configuration the bot loads has no `DOWNLOAD_DIR`. The user's
  download directory is therefore a parameter (`MergeFlow.Env.dir`).

Modules, one per file:

| file | module | models |
|---|---|---|
| wrappers.dfy | Wrappers | `Option` |
| text.dfy | Text | digits, decimal text, ASCII lower-casing, substring search, round-half-even |
| paths.dfy | Paths | `os.path.join` and `os.path.splitext` (POSIX) |
| utils.dfy | Utils | `get_readable_time`, `get_readable_file_size`, `get_human_readable_size`, `get_progress_bar` |
| downloader.dfy | Downloader | `validate_url`, `get_filename_from_url`, `get_time_left`, `get_styled_progress_bar` |
| throttling.dfy | Throttling | `last_edit_time`, `smart_progress_editor`, the download `progress_callback` |
| probe.dfy | Probe | the classification in `get_detailed_video_info` |
| compat.dfy | Compat | `videos_are_identical_for_merge`, `requires_container_remux` |
| standardize.dfy | Standardize | target parameters and the per-file standardization test |
| concat.dfy | ConcatList | the concat list, and ffmpeg reading it back |
| progress.dfy | MergeProgress | `track_merge_progress` |
| trackargs.dfy | TrackArgs | the ffmpeg argument lists of the subtitle and audio steps |
| flow.dfy | MergeFlow | `merge_videos`, `fast_merge_identical_videos`, the subtitle and audio steps, `merge_videos_with_options` |

## Model

| member | source | states |
|---|---|---|
| Utils.ReadableTime | helpers/utils.py:20-27 | The divmod loop over days, hours, minutes and seconds produces exactly the text of the specification function `TimeText`. |
| Utils.ReadableTimeComponents | helpers/utils.py:21-26 | The listed components come in the order d, h, m, s. None is zero, hours are below 24, and minutes and seconds are below 60. There are none exactly when the input is below 1. For a non-negative input, value times period summed over the components gives back the input. |
| Utils.ReadableTimeBelowOne | helpers/utils.py:20-27 | Any input below 1, including 0 and negative counts, gives `0s`. |
| Utils.UnitIndexIsLargest | helpers/utils.py:15-17 | The unit index is the largest k <= 5 with size >= 1024^k, or 0 when there is none. A size of 1024^5 or more stays in PB. |
| Utils.ReadableFileSize | helpers/utils.py:11-18 | The rescaling loop produces the text of `FileSizeText` for every input, `None` included. |
| Utils.FileSizeTextMeaning | helpers/utils.py:11-18 | `None` gives `0B`. Below 1024 the text is the integer count and `B`, with no decimals. Otherwise the size is shown in the unit of the largest power 1024^k (k <= 5) not above it, to two decimals, within half a hundredth of size / 1024^k. |
| Utils.HumanReadableSize | helpers/utils.py:29-30 | Gives the same text as `get_readable_file_size` for every input. |
| Utils.ProgressBarShape | helpers/utils.py:32-34 | For a progress in [0, 1] the bar is exactly `length` cells: floor(length * progress) filled cells, then empty cells. |
| Utils.ProgressBarMonotone | helpers/utils.py:32-34 | More progress never shows fewer filled cells. |
| Downloader.ValidateUrlVerdict | helpers/downloader.py:103-125 | A URL is accepted (with `Valid`) exactly when it is non-empty, at most 2048 characters long, has a scheme and a network location, has an http(s) scheme or a `gofile.io` network location, and its lower-cased path does not end in a dangerous extension. Each rejection carries its own message, checked in source order. |
| Downloader.ValidateUrlIgnoresPathCase | helpers/downloader.py:120-123 | The extension test ignores letter case in the path. |
| Downloader.GofileAnyScheme | helpers/downloader.py:115-117 | Any scheme passes when the network location contains `gofile.io`. |
| Downloader.SanitizeSafe | helpers/downloader.py:139-147 | The sanitised name contains none of `<>:"/\|?*` and no control character (`\x00`-`\x1f`, `\x7f`). |
| Downloader.Strip | helpers/downloader.py:146 | `str.strip`: the result is the slice `s[i..j]` such that every character before `i` and from `j` on is one of the stripped characters, and the slice neither starts nor ends with one of them. |
| Downloader.LimitLength | helpers/downloader.py:160-162 | A name of at most 200 characters is unchanged. A longer one keeps its `splitext` extension and, when that extension fits, becomes exactly 200 characters long. |
| Downloader.WithExtension | helpers/downloader.py:156-157 | The result always contains a `.` and starts with the given name; a name that already has a dot is unchanged. |
| Downloader.FinishSafe | helpers/downloader.py:156-162 | Adding `.bin` and cutting the name to 200 characters bring in no forbidden and no control character. |
| Downloader.SanitizeName | helpers/downloader.py:139-147 | The step-by-step rewriting of the name (query cut, forbidden characters replaced, ends stripped, control characters removed) gives the sanitised name, which is safe. |
| Downloader.AddExtension | helpers/downloader.py:156-157 | The in-place `.bin` step computes `WithExtension`. |
| Downloader.CutToLength | helpers/downloader.py:160-162 | The in-place truncation step computes `LimitLength`. |
| Downloader.FilenameFromUrl | helpers/downloader.py:127-165 | The fallback (the given name, else `download_<stamp>.bin`) is used exactly when the sanitised name is generic: empty, shorter than 5 characters, or `download`, `file` or `index` ignoring case. Otherwise the result is safe, and it always ends in the extension of the name it was made from. |
| Downloader.TimeLeftCases | helpers/downloader.py:61-87 | The result is `Calculating...` when current <= 0, total <= 0 or elapsed <= 0.1, and `0s` when current >= total. Otherwise it is the bucketed text of the whole seconds remaining. |
| Downloader.EtaTextWholeSeconds | helpers/downloader.py:78-87 | The buckets depend only on the whole number of seconds remaining. |
| Downloader.EtaAgreesWithReadableTime | helpers/downloader.py:80-83 | Below an hour and away from whole minutes, the estimate texts `Ns` and `Mm Ss` equal the `get_readable_time` text of the same seconds. |
| Downloader.EtaDiffersAtWholeMinutes | helpers/downloader.py:82-83 | At a whole number of minutes below an hour the estimate prints `Mm 0s` while `get_readable_time` prints `Mm`, so the two differ. |
| Downloader.EtaAboveHour | helpers/downloader.py:84-87 | From an hour on, the text is `Hh Mm`, with m < 60 and the seconds dropped. |
| Downloader.StyledProgressBarMeaning | helpers/downloader.py:817-831 | An unknown style, or `default`, gives the plain progress bar. For a progress in [0, 1], floor(length * progress) filled cells of the style come first, then its empty cells. |
| Throttling.MessageKeyInjective | helpers/downloader.py:49 | Two different messages never share a throttle entry. |
| Throttling.EditThrottle.Edit | helpers/downloader.py:44-59 | An edit is attempted exactly when there is a message and more than the window has passed since its last recorded edit, a missing key counting as 0. The time is stored only after a delivered edit, and every other key is left unchanged. |
| Throttling.DownloadProgressCallback | helpers/downloader.py:691-719 | The callback returns early when the last edit is too recent and the download is not finished. Otherwise it stores `now` for the message and then calls the editor, and the editor compares its own clock with that fresh stamp. A zero total ends in the division error. |
| Throttling.AsWrittenNeverEdits | helpers/downloader.py:696-700 | As written, a callback whose editor reads the clock at most 3 s after the callback never edits, whatever edits came before. |
| Throttling.DownloadProgressCallbackCorrected | helpers/downloader.py:691-719 | The same callback with the time recorded by the editor alone, and only for a delivered edit. |
| Throttling.CorrectedEditsWhenDue | helpers/downloader.py:696-700 | Corrected, a callback more than 3 s after the last delivered edit, with a non-zero total, does edit. |
| Probe.OfType | helpers/merger.py:49-51 | Every stream kept has the requested `codec_type`, and the list is empty exactly when no stream has that type. |
| Probe.OfTypeAppend | helpers/merger.py:49-51 | Filtering a concatenation filters each part, so the order of the streams is kept. |
| Probe.OfTypeSingle | helpers/merger.py:49-51 | A single stream is kept exactly when its `codec_type` is the requested one. |
| Probe.FirstOfType | helpers/merger.py:57-58 | The stream chosen for a kind is the earliest stream of that kind. |
| Probe.ClassifyMeaning | helpers/merger.py:49-96 | Without a video stream there is no profile. A profile has audio (and an audio codec) exactly when some stream is audio, and a 48000 Hz rate without audio. Its stream counts are the numbers of audio and subtitle streams, it has subtitles exactly when it counts some, and its container is the lower-cased `format_name`. |
| Probe.ClassifyVideo | helpers/merger.py:57-73 | The width, height, frame rate (from `30/1` when absent), lower-cased video codec and pixel format (`yuv420p` when absent) are those of the earliest video stream. |
| Probe.ClassifyAudio | helpers/merger.py:58-76 | With audio, the lower-cased audio codec and the sample rate (48000 when absent) are those of the earliest audio stream. Without audio there is no codec and the rate is 48000. |
| Probe.FrameRateNearest | helpers/merger.py:62-64 | `num/den` with den > 0 reads as num / den rounded to the nearest hundredth. |
| Probe.FrameRateZeroDenominator | helpers/merger.py:62-64 | A zero denominator reads as 30 fps. |
| Probe.FrameRateMissing | helpers/merger.py:61 | A missing `r_frame_rate` reads as 30 fps. |
| Probe.FrameRateWhole | helpers/merger.py:65-66 | A whole number without `/` reads as that many frames per second. |
| Compat.FirstMismatch | helpers/merger.py:116-136 | No mismatch is found exactly when the video agrees with the reference on every parameter. A mismatch found is the first parameter that disagrees. |
| Compat.IdenticalForMergeMeaning | helpers/merger.py:103-138 | The inputs qualify exactly when there are at least two and every later profile equals the first on width, height, video codec, audio codec (absent on both counts as equal), pixel format and sample rate, and is at most 0.10 fps from it. |
| Compat.ComparedWithFirstOnly | helpers/merger.py:108-136 | Only comparisons with the first profile are made: two later profiles 0.20 fps apart still qualify. |
| Compat.RequiresContainerRemux | helpers/merger.py:139-147 | A remux is needed exactly when some profile's container differs from the target. |
| Standardize.Mode | helpers/merger.py:466-470 | The most common value, and among equally common values the one seen first (`Counter.most_common(1)`). |
| Standardize.ModeUnique | helpers/merger.py:466-470 | The tie rule makes that value unique. |
| Standardize.TargetsOf | helpers/merger.py:463-478 | The target width is the mode of the widths and the target height the mode of the heights. Each is a value some input has. The frame rate is 30, the pixel format `yuv420p` and the sample rate 48000. |
| Standardize.TargetResolutionMayBeNew | helpers/merger.py:463-470 | Because each axis is chosen on its own, the target resolution can be one that no input has. |
| Standardize.CopiedExactlyWhenConforming | helpers/merger.py:500-506 | A file is copied as it is exactly when it has the target width and height, a frame rate within 0.10 of 30, `yuv420p` and 48000 Hz. Codecs and container are never consulted. |
| ConcatList.WriteConcatList | helpers/merger.py:294-298 | The writing loop produces the list as written: one `file` line per path, in order, each apostrophe replaced by `'''`. |
| ConcatList.ListLines | helpers/merger.py:294-298 | For paths and a replacement without newlines, the list has exactly one line per path, in input order, each `file '` + the path with its apostrophes replaced + `'`. |
| ConcatList.ListRoundTrip | helpers/merger.py:297 | With the corrected `'\''` escape, ffmpeg reads back exactly the paths written, in order, whatever apostrophes, spaces or backslashes they hold. |
| ConcatList.AsWrittenDropsApostrophes | helpers/merger.py:294-298 | With the escape as written, for paths without blanks or backslashes, ffmpeg reads back one path per line, each with every apostrophe deleted. |
| ConcatList.AsWrittenLosesApostrophe | helpers/merger.py:297 | As written, the list for `a'b` reads back as `ab`. |
| MergeProgress.TokenIndex | helpers/merger.py:179-180 | The search finds the leftmost `time=HH:MM:SS.ff` token, or reports that there is none. |
| MergeProgress.TimeTokenRoundTrip | helpers/merger.py:179-182 | A line carrying the token for h:m:s.f after a prefix without `t` reads as h*3600 + m*60 + s.f seconds. |
| MergeProgress.Fraction | helpers/merger.py:184 | For a positive total, the fraction lies in [0, 1] and is 1 exactly when the position has reached the total. |
| MergeProgress.FractionMonotone | helpers/merger.py:184 | A later position never shows a smaller fraction. |
| MergeProgress.MergeEta | helpers/merger.py:188 | The estimate is never negative and is 0 once the fraction is 1. |
| MergeProgress.TrackMergeProgress | helpers/merger.py:165-205 | The read loop sends exactly the updates of the specification `Reports` to the throttled editor. The message's throttle entry ends as `KeyEntryFrom` says (the editor edits when its window has passed, and records the time when the edit is delivered). Without a message, and for every other message, the throttle is unchanged. |
| MergeProgress.KeyEntryRecorded | helpers/merger.py:17-28 | The message's final throttle entry is the one it had, or the clock reading of an update whose edit was delivered. |
| MergeProgress.KeyEntryUndelivered | helpers/merger.py:24-28 | When no edit is delivered, the message's throttle entry never changes. |
| MergeProgress.ReportsGenuine | helpers/merger.py:179-184 | Every update comes from a line carrying a time token, shows that line's fraction, and happens only with a positive total. |
| MergeProgress.ReportsSpaced | helpers/merger.py:187-199 | Updates come in line order, each more than two seconds after the one before. |
| MergeProgress.NoReportsWithoutTotal | helpers/merger.py:180 | Without a positive total duration nothing is ever reported. |
| MergeProgress.DueLineReported | helpers/merger.py:179-199 | A line with a token more than two seconds after the last update is the next update. |
| TrackArgs.BuildSubtitleCommand | helpers/merger.py:632-646 | The `cmd.extend` loops build exactly the argument list `SubtitleArgs`. |
| TrackArgs.SubtitleArgsEnds | helpers/merger.py:632-646 | For K subtitle files the command has 18 + 6K arguments. It reads the video first, maps everything from it, sets the subtitle codec to `srt` and ends with the output path. |
| TrackArgs.SubtitleInputAt | helpers/merger.py:635-636 | Subtitle file i is input i + 1, in order. |
| TrackArgs.SubtitleGroupAt | helpers/merger.py:642-644 | With N existing subtitle streams, input i + 1 is mapped, and stream `s:s:N+i` is titled `Track N+i+1`. |
| TrackArgs.BuildAudioCommand | helpers/merger.py:682-705 | The `cmd.extend` loops build exactly the argument list `AudioArgs`. |
| TrackArgs.AudioArgsEnds | helpers/merger.py:682-705 | The command reads the video first and ends with the codec copies and the output path. |
| TrackArgs.AudioInputAt | helpers/merger.py:685-686 | Audio file i is input i + 1, in order. |
| TrackArgs.ExistingAudioAt | helpers/merger.py:692-694 | Existing audio stream i (i < M) is mapped with `-disposition:a:i 0`. |
| TrackArgs.NewAudioAt | helpers/merger.py:697-699 | New audio input i + 1 is mapped, and stream `a:M+i` is titled `Track M+i+1`. |
| TrackArgs.DefaultExactlyWithoutExistingAudio | helpers/merger.py:701-703 | `default` appears in the command exactly when there are no existing audio streams and at least one new file (for paths that are not `default` themselves). |
| TrackArgs.SingleIsMultipleReordered | helpers/merger.py:583-596 | The single-subtitle command has the same arguments as the many-subtitle command for one file, in another order. |
| MergeFlow.OutputPath | helpers/merger.py:279-283 | With a non-empty name, the path ends in the name's `splitext` root followed by `.mkv`. Otherwise it ends in the default name. It ends in `.mkv` whenever the default name does. |
| MergeFlow.MkvNameIdempotent | helpers/merger.py:280-281 | Stripping the extension and adding `.mkv` a second time changes nothing. |
| MergeFlow.IntermediatePathsDistinct | helpers/merger.py:267 | The remuxed and the standardized intermediates of different inputs never share a path. |
| MergeFlow.ProbeFiles | helpers/merger.py:424-430 | The probe loop returns every profile in order, or `None` exactly when some probe fails. It stops at the first failure. |
| MergeFlow.RemuxFiles | helpers/merger.py:265-276 | The remux loop returns the intermediate paths in order, or `None` exactly when some remux fails. |
| MergeFlow.StandardizeFiles | helpers/merger.py:488-517 | The standardization loop returns one intermediate per input, in order, or `None` exactly when some non-conforming file fails to standardize. |
| MergeFlow.FastMerge | helpers/merger.py:254-368 | The fast merge remuxes when some container is not `mkv`, writes the list of absolute paths as written (apostrophes replaced by `'''`), and returns the output path only when the concat succeeds. |
| MergeFlow.MergeVideos | helpers/merger.py:409-566 | The method equals `MergeVideosSpec`, whose final list is the one written as the source writes it. With fewer than two files it fails before probing anything. Otherwise it probes exactly up to the first failure. |
| MergeFlow.ProbeFailureAborts | helpers/merger.py:424-430 | A failed probe of file i fails the job, whatever the output name, after exactly i + 1 probes. |
| MergeFlow.FastResultReturned | helpers/merger.py:433-441 | When the inputs qualify and the fast merge delivers, its output is the result. |
| MergeFlow.StandardizationFailureAborts | helpers/merger.py:488-517 | Unless the fast merge delivered, one failed standardization of a non-conforming file fails the whole job. |
| MergeFlow.MergeResultPaths | helpers/merger.py:523-527 | A successful merge returns either the fast merge's output path or the final output path, and both end in `.mkv`. |
| MergeFlow.StandardizedInOrder | helpers/merger.py:488-566 | Without a fast result, a successful merge concatenated one standardized file per input, in input order, into the final output, from the list as written. |
| MergeFlow.MergeSubtitles | helpers/merger.py:568-615 | A probe failure or a failed ffmpeg run gives `None`. Success returns the video's own path. |
| MergeFlow.MergeMultipleSubtitles | helpers/merger.py:616-665 | The same, with the many-subtitle command. |
| MergeFlow.MergeAudios | helpers/merger.py:666-724 | The same, with the audio command. A missing video (`None`) fails. |
| MergeFlow.MergeWithOptions | helpers/merger.py:739-767 | The method chains the merge, the subtitle step for one or for many files, and the audio step, as `WithOptionsSpec` says. |
| MergeFlow.WithOptionsMeaning | helpers/merger.py:751-767 | The composite flow ends in the merged video's path or in `None`. It fails whenever the merge fails, and whenever a requested subtitle step fails; `None` then reaches the audio step. With no options it is the merge. |

## Left out

- Running ffprobe and ffmpeg, reading their output with time-outs, and creating or cancelling the progress task are not modelled. Their outcomes are parameters of `MergeFlow.Env`: a probe, a remux, a standardization, a concat or a mux either succeeds or fails.
- `MergeFlow.Env.probe` yields the classified profile (`Probe.Classify` of ffprobe's report) directly. The flow and the classification are proved apart.
- Decoding ffprobe's JSON is left out. `Probe.ProbeData` is the decoded report.
- Python's `float()` is modelled only on decimal text (`12`, `12.`, `.5`, `12.5`). Other text it accepts (signs, exponents, `inf`, `nan`, surrounding blanks) is treated as an error.
- `int()` on sample rates is modelled only for plain digit strings, for the same reason.
- Probe.FrameRateNearest: the source rounds the binary float num / den to two decimals. The model rounds the exact ratio half to even, and the two can differ when the ratio lies on a half-hundredth.
- Compat.IdenticalForMergeMeaning: the model treats two rates exactly 0.10 apart as a match. Python's float test `abs(a - b) > 0.1` may call them a mismatch.
- Standardize.CopiedExactlyWhenConforming: the model copies files at 29.90 and 30.10 fps. In Python `abs(29.9 - 30.0) > 0.1` and `abs(30.1 - 30.0) > 0.1` are both true, so the source re-encodes them.
- Utils.FileSizeTextMeaning: the text is the exact size / 1024^k rounded. For sizes of 2^53 bytes or more, Python's float division rounds the size first, and the last digits can differ.
- ConcatList.AsWrittenDropsApostrophes: stated for paths without blanks or backslashes. In other paths the stray quotes leave blanks or backslashes unquoted, and ffmpeg reads less than the path.
- MergeProgress.TrackMergeProgress: the editor's window is a parameter (`editor.window`); the merger's editor uses 2 s.
- File-system effects are not modelled: writing list files, `os.remove`, `shutil.move`/`copy2`, size checks and clean-up. A failing `copy2` of a conforming file (an exception in the source) is not modelled either.
- `os.path.abspath` is a parameter (`MergeFlow.Env.absPath`).
- The user's download directory is a parameter, since the configuration names none.
- Each job reads the clock once (`MergeFlow.Env.stamp`). The source calls `int(time.time())` several times, so its file names can carry different stamps.
- ConcatList.ReadList splits lines on `\n` only. ffmpeg also ends lines at `\r`, and paths holding a newline are outside `ConcatList.ListRoundTrip`.
- The status texts, with their percentages, speeds and parameter differences, are not modelled. They are display only.
- `get_total_duration` (it sums ffprobe answers), `remux_to_compatible_format` and `standardize_video_file` (ffmpeg runs) are not modelled. Their results are parameters.
- `get_speed` is not modelled; its output is float formatting only.
- `get_video_properties` and `UserSettings` are not modelled. They are database or ffprobe wrappers.
- `is_merge_cancelled` and `cancel_merge` are not modelled. They refer to an undefined `active_merges` and serve concurrency control.
- Network code is not modelled: downloads, retries, the gofile.io API, and Telegram sending and editing.
- `urlparse`, `unquote` and `os.path.basename` are taken as given: their results are the inputs.
- Downloader.FilenameFromUrl: the `except` branch (`download_error_<stamp>.bin`) is left out, since it is reached only when a library call raises.
- `re` character classes are modelled for ASCII. Python's `\d` also matches non-ASCII digits, which ffmpeg never prints.
- MergeProgress.TrackMergeProgress: the loop reads the clock once per line. The source's separate `time.time()` reads, for the throttle and for the estimate, are one reading here.
- MergeProgress.TrackMergeProgress: the end of the stream is the end of `lines`. The read time-out and the exception branch of the loop are left out.
- MergeProgress.MergeEta is the estimate alone; the elapsed time is a parameter.
- TrackArgs.DefaultExactlyWithoutExistingAudio: stated for file paths that are not literally `default`.

## Findings

| source | as written | input that shows it | evidently intended | confidence | as-written member | corrected member |
|---|---|---|---|---|---|---|
| helpers/merger.py:297 (and 535) | each `'` in a path is replaced by the three characters `'''` | a path `a'b`: the line `file 'a'''b'` is read back by ffmpeg as `ab` | replace `'` by `'\''`, so that the concat demuxer reads back the path as written | not executed | ConcatList.AsWrittenDropsApostrophes | ConcatList.ListRoundTrip |
| helpers/downloader.py:696-700 | the callback stores `now` as the last edit time before calling `smart_progress_editor`, which edits only more than 3 s after that time | any callback that passes the gate, with the editor reading the clock less than 3 s later: nothing is ever edited | record the time only when an edit is delivered (the editor already does) | not executed | Throttling.AsWrittenNeverEdits | Throttling.CorrectedEditsWhenDue |
