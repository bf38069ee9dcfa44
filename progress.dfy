/** `track_merge_progress` (helpers/merger.py): reading ffmpeg's stderr line
    by line, picking out the `time=HH:MM:SS.ff` token, turning it into a
    clamped fraction of the total duration, and posting a status update at
    most once every two seconds. Media time is in hundredths of a second;
    the total duration and the wall clock are `real`s; the stderr lines
    (decoded and stripped) and the clock readings are parameters. */
module MergeProgress {
  import opened Wrappers
  import opened Text
  import Throttling

  // ---------------------------------------------------------------------------
  // The time token
  // ---------------------------------------------------------------------------

  /** Length of `time=HH:MM:SS.ff`. */
  const TokenLength: nat := 16

  /** The pattern `time=(\d{2}):(\d{2}):(\d{2}\.\d{2})` matches at `i`. */
  predicate TokenAt(line: string, i: nat)
  {
    && i + TokenLength <= |line|
    && line[i..i + 5] == "time="
    && IsDigit(line[i + 5]) && IsDigit(line[i + 6]) && line[i + 7] == ':'
    && IsDigit(line[i + 8]) && IsDigit(line[i + 9]) && line[i + 10] == ':'
    && IsDigit(line[i + 11]) && IsDigit(line[i + 12]) && line[i + 13] == '.'
    && IsDigit(line[i + 14]) && IsDigit(line[i + 15])
  }

  function Digit(c: char): nat
    requires IsDigit(c)
  {
    c as int - '0' as int
  }

  /** The two-digit group starting at `i`. */
  function Pair(line: string, i: nat): (n: nat)
    requires i + 2 <= |line| && IsDigit(line[i]) && IsDigit(line[i + 1])
    ensures n < 100
  {
    10 * Digit(line[i]) + Digit(line[i + 1])
  }

  /** `int(hours) * 3600 + int(minutes) * 60 + float(seconds)`, in
      hundredths of a second. */
  function TokenValue(line: string, i: nat): nat
    requires TokenAt(line, i)
  {
    Pair(line, i + 5) * 360000 + Pair(line, i + 8) * 6000 + Pair(line, i + 11) * 100 + Pair(line, i + 14)
  }

  /** Where `re.search` finds the pattern at or after `i`: the leftmost match. */
  function TokenIndex(line: string, i: nat): (r: Option<nat>)
    ensures r.Some? ==> i <= r.value && TokenAt(line, r.value)
    ensures r.Some? ==> forall k :: i <= k < r.value ==> !TokenAt(line, k)
    ensures r.None? ==> forall k :: i <= k ==> !TokenAt(line, k)
    decreases |line| - i
  {
    if i + TokenLength > |line| then None
    else if TokenAt(line, i) then Some(i)
    else TokenIndex(line, i + 1)
  }

  /** The media time a stderr line reports, if it carries a time token. */
  function CurrentTime(line: string): Option<nat>
  {
    match TokenIndex(line, 0)
    case None => None
    case Some(i) => Some(TokenValue(line, i))
  }

  /** The token ffmpeg prints for a position of `h:m:s.f`. */
  function TimeText(h: nat, m: nat, s: nat, f: nat): string
    requires h < 100 && m < 100 && s < 100 && f < 100
  {
    "time=" + TwoDigits(h) + ":" + TwoDigits(m) + ":" + TwoDigits(s) + "." + TwoDigits(f)
  }

  /** A printed position reads back as the same time, whatever follows it
      and whatever precedes it, as long as no earlier `t` can start a token
      (ffmpeg's `frame= … fps= … q= … size= ` prefix has none). */
  lemma TimeTokenRoundTrip(prefix: string, h: nat, m: nat, s: nat, f: nat, rest: string)
    requires h < 100 && m < 100 && s < 100 && f < 100
    requires 't' !in prefix
    ensures CurrentTime(prefix + TimeText(h, m, s, f) + rest) == Some(h * 360000 + m * 6000 + s * 100 + f)
  {
    var line := prefix + TimeText(h, m, s, f) + rest;
    var p := |prefix|;
    TokenAtText(prefix, h, m, s, f, rest);
    forall k | 0 <= k < p
      ensures !TokenAt(line, k)
    {
      assert line[k] == prefix[k];
    }
    TokenIndexSkips(line, 0, p);
  }

  lemma TokenAtText(prefix: string, h: nat, m: nat, s: nat, f: nat, rest: string)
    requires h < 100 && m < 100 && s < 100 && f < 100
    ensures var line, p := prefix + TimeText(h, m, s, f) + rest, |prefix|;
      TokenAt(line, p) && TokenValue(line, p) == h * 360000 + m * 6000 + s * 100 + f
  {
    var t := TimeText(h, m, s, f);
    var line := prefix + t + rest;
    var p := |prefix|;
    TimeTextFields(h, m, s, f);
    assert forall j :: 0 <= j < |t| ==> line[p + j] == t[j];
    assert line[p..p + 5] == t[..5];
  }

  /** The fields of a printed position, character by character. */
  lemma TimeTextFields(h: nat, m: nat, s: nat, f: nat)
    requires h < 100 && m < 100 && s < 100 && f < 100
    ensures var t := TimeText(h, m, s, f);
      && |t| == TokenLength && t[..5] == "time="
      && t[7] == ':' && t[10] == ':' && t[13] == '.'
      && IsDigit(t[5]) && IsDigit(t[6]) && 10 * Digit(t[5]) + Digit(t[6]) == h
      && IsDigit(t[8]) && IsDigit(t[9]) && 10 * Digit(t[8]) + Digit(t[9]) == m
      && IsDigit(t[11]) && IsDigit(t[12]) && 10 * Digit(t[11]) + Digit(t[12]) == s
      && IsDigit(t[14]) && IsDigit(t[15]) && 10 * Digit(t[14]) + Digit(t[15]) == f
  {
    var t := TimeText(h, m, s, f);
    DigitsOf(h, t[5], t[6]);
    DigitsOf(m, t[8], t[9]);
    DigitsOf(s, t[11], t[12]);
    DigitsOf(f, t[14], t[15]);
  }

  lemma DigitsOf(n: nat, a: char, b: char)
    requires n < 100 && TwoDigits(n) == [a, b]
    ensures IsDigit(a) && IsDigit(b) && 10 * Digit(a) + Digit(b) == n
  {
    var t := TwoDigits(n);
    assert t[..1] == [a];
  }

  /** A search that finds nothing before `p` and a match at `p` stops at `p`. */
  lemma {:induction false} TokenIndexSkips(line: string, i: nat, p: nat)
    requires i <= p && TokenAt(line, p)
    requires forall k :: i <= k < p ==> !TokenAt(line, k)
    ensures TokenIndex(line, i) == Some(p)
    decreases p - i
  {
    if i < p {
      TokenIndexSkips(line, i + 1, p);
    }
  }

  // ---------------------------------------------------------------------------
  // Fraction and estimate
  // ---------------------------------------------------------------------------

  /** `min(current_time / total_duration, 1.0)`; only computed when the
      total is positive. */
  function Fraction(time: nat, total: real): (p: real)
    requires total > 0.0
    ensures 0.0 <= p <= 1.0
    ensures p == 1.0 <==> time as real >= 100.0 * total
  {
    var x := time as real / (100.0 * total);
    assert x >= 1.0 <==> time as real >= 100.0 * total by {
      assert x * (100.0 * total) == time as real;
    }
    if x < 1.0 then x else 1.0
  }

  /** Later positions never show less progress. */
  lemma FractionMonotone(t1: nat, t2: nat, total: real)
    requires total > 0.0 && t1 <= t2
    ensures Fraction(t1, total) <= Fraction(t2, total)
  {
    var d := 100.0 * total;
    var x1, x2 := t1 as real / d, t2 as real / d;
    assert x1 * d == t1 as real && x2 * d == t2 as real;
    assert (x2 - x1) * d == (t2 - t1) as real;
    assert x1 <= x2;
  }

  /** `(elapsed / progress - elapsed) if progress > 0.01 else 0`. */
  function MergeEta(elapsed: real, progress: real): (eta: real)
    requires 0.0 <= elapsed && progress <= 1.0
    ensures eta >= 0.0
    ensures progress == 1.0 ==> eta == 0.0
  {
    if progress > 0.01 then
      var whole := elapsed / progress;
      assert whole * progress == elapsed;
      assert whole >= elapsed by {
        assert (whole - elapsed) * progress == elapsed * (1.0 - progress);
      }
      whole - elapsed
    else 0.0
  }

  // ---------------------------------------------------------------------------
  // The tracking loop
  // ---------------------------------------------------------------------------

  /** Seconds that must pass between two status updates. */
  const UpdateInterval: real := 2.0

  /** One status update: the line that caused it, the media time and the
      fraction shown. */
  datatype Report = Report(index: nat, time: nat, fraction: real)

  /** The updates of lines `i..` when the last update was at `last`; line
      `j` is read at `clocks[j]`. */
  function ReportsFrom(lines: seq<string>, clocks: seq<real>, total: real, i: nat, last: real): (rs: seq<Report>)
    requires |clocks| == |lines| && i <= |lines|
    ensures forall k :: 0 <= k < |rs| ==> i <= rs[k].index < |lines|
    decreases |lines| - i
  {
    if i == |lines| then []
    else
      var t := CurrentTime(lines[i]);
      if t.Some? && total > 0.0 && clocks[i] - last > UpdateInterval then
        [Report(i, t.value, Fraction(t.value, total))] + ReportsFrom(lines, clocks, total, i + 1, clocks[i])
      else ReportsFrom(lines, clocks, total, i + 1, last)
  }

  /** All updates of one merge: `last_update` starts at 0. */
  function Reports(lines: seq<string>, clocks: seq<real>, total: real): seq<Report>
    requires |clocks| == |lines|
  {
    ReportsFrom(lines, clocks, total, 0, 0.0)
  }

  /** The throttle entry of a key, `None` when the key has none. */
  function EntryOf(m: map<string, real>, key: string): Option<real>
  {
    if key in m then Some(m[key]) else None
  }

  /** The message's throttle entry after the updates of lines `i..`, when
      the last update was at `last` and the entry is `entry`: an update
      edits the message when more than `window` has passed since the
      entry (a missing entry counting as 0), and the edit time is recorded
      when line `j`'s edit is delivered (`delivered[j]`). */
  function KeyEntryFrom(lines: seq<string>, clocks: seq<real>, total: real, delivered: seq<bool>,
                        window: real, i: nat, last: real, entry: Option<real>): Option<real>
    requires |clocks| == |lines| && |delivered| == |lines| && i <= |lines|
    decreases |lines| - i
  {
    if i == |lines| then entry
    else
      var t := CurrentTime(lines[i]);
      if t.Some? && total > 0.0 && clocks[i] - last > UpdateInterval then
        var prev := if entry.Some? then entry.value else 0.0;
        var next := if clocks[i] - prev > window && delivered[i] then Some(clocks[i]) else entry;
        KeyEntryFrom(lines, clocks, total, delivered, window, i + 1, clocks[i], next)
      else KeyEntryFrom(lines, clocks, total, delivered, window, i + 1, last, entry)
  }

  /** The loop: every line carrying a time token, when the total is
      positive and more than two seconds have passed since the last update,
      is turned into an update and handed to the throttled editor, which
      edits the message when its own window has passed. */
  method TrackMergeProgress(lines: seq<string>, clocks: seq<real>, total: real,
                            editor: Throttling.EditThrottle, message: Option<string>, delivered: seq<bool>)
      returns (reports: seq<Report>)
    requires |clocks| == |lines| && |delivered| == |lines|
    modifies editor
    ensures reports == Reports(lines, clocks, total)
    ensures message.None? ==> editor.lastEdit == old(editor.lastEdit)
    ensures message.Some? ==>
      EntryOf(editor.lastEdit, message.value) ==
      KeyEntryFrom(lines, clocks, total, delivered, editor.window, 0, 0.0, EntryOf(old(editor.lastEdit), message.value))
    ensures forall k :: (message.None? || k != message.value) ==>
      EntryOf(editor.lastEdit, k) == EntryOf(old(editor.lastEdit), k)
  {
    var lastUpdate: real := 0.0;
    reports := [];
    ghost var goal := Reports(lines, clocks, total);
    ghost var key := if message.Some? then message.value else "";
    ghost var finalEntry := KeyEntryFrom(lines, clocks, total, delivered, editor.window, 0, 0.0, EntryOf(editor.lastEdit, key));
    var i := 0;
    while i < |lines|
      invariant i <= |lines|
      invariant reports + ReportsFrom(lines, clocks, total, i, lastUpdate) == goal
      invariant message.None? ==> editor.lastEdit == old(editor.lastEdit)
      invariant message.Some? ==>
        KeyEntryFrom(lines, clocks, total, delivered, editor.window, i, lastUpdate, EntryOf(editor.lastEdit, key)) == finalEntry
      invariant forall k :: (message.None? || k != message.value) ==>
        EntryOf(editor.lastEdit, k) == EntryOf(old(editor.lastEdit), k)
    {
      var emitted, next := HandleLine(lines, clocks, total, editor, message, delivered, i, lastUpdate);
      ghost var rest := ReportsFrom(lines, clocks, total, i + 1, next);
      assert reports + emitted + rest == reports + (emitted + rest);
      reports := reports + emitted;
      lastUpdate := next;
      i := i + 1;
    }
    assert ReportsFrom(lines, clocks, total, i, lastUpdate) == [];
    assert reports == goal;
  }

  /** One pass of the loop: the update line `i` gives, if any, handed to
      the editor, and the time of the last update afterwards. */
  method HandleLine(lines: seq<string>, clocks: seq<real>, total: real, editor: Throttling.EditThrottle,
                    message: Option<string>, delivered: seq<bool>, i: nat, lastUpdate: real)
      returns (emitted: seq<Report>, next: real)
    requires |clocks| == |lines| && |delivered| == |lines| && i < |lines|
    modifies editor
    ensures |emitted| <= 1
    ensures ReportsFrom(lines, clocks, total, i, lastUpdate) == emitted + ReportsFrom(lines, clocks, total, i + 1, next)
    ensures message.None? ==> editor.lastEdit == old(editor.lastEdit)
    ensures message.Some? ==>
      KeyEntryFrom(lines, clocks, total, delivered, editor.window, i + 1, next, EntryOf(editor.lastEdit, message.value)) ==
      KeyEntryFrom(lines, clocks, total, delivered, editor.window, i, lastUpdate, EntryOf(old(editor.lastEdit), message.value))
    ensures forall k :: (message.None? || k != message.value) ==>
      EntryOf(editor.lastEdit, k) == EntryOf(old(editor.lastEdit), k)
  {
    emitted, next := [], lastUpdate;
    var t := CurrentTime(lines[i]);
    if t.Some? && total > 0.0 {
      var progress := Fraction(t.value, total);
      if clocks[i] - lastUpdate > UpdateInterval {
        emitted := [Report(i, t.value, progress)];
        var _ := editor.Edit(message, clocks[i], delivered[i]);
        next := clocks[i];
      }
    }
  }

  /** The message's final entry is the one it had, or the clock reading of
      an update whose edit was delivered. */
  lemma {:induction false} KeyEntryRecorded(lines: seq<string>, clocks: seq<real>, total: real, delivered: seq<bool>,
                                            window: real, i: nat, last: real, entry: Option<real>)
    requires |clocks| == |lines| && |delivered| == |lines| && i <= |lines|
    ensures var e := KeyEntryFrom(lines, clocks, total, delivered, window, i, last, entry);
      e == entry || exists r :: r in ReportsFrom(lines, clocks, total, i, last) && delivered[r.index] && e == Some(clocks[r.index])
    decreases |lines| - i
  {
    if i < |lines| {
      var t := CurrentTime(lines[i]);
      if t.Some? && total > 0.0 && clocks[i] - last > UpdateInterval {
        var prev := if entry.Some? then entry.value else 0.0;
        var next := if clocks[i] - prev > window && delivered[i] then Some(clocks[i]) else entry;
        var head := Report(i, t.value, Fraction(t.value, total));
        var rest := ReportsFrom(lines, clocks, total, i + 1, clocks[i]);
        assert ReportsFrom(lines, clocks, total, i, last) == [head] + rest;
        KeyEntryRecorded(lines, clocks, total, delivered, window, i + 1, clocks[i], next);
        var e := KeyEntryFrom(lines, clocks, total, delivered, window, i + 1, clocks[i], next);
        if e == next && next != entry {
          assert head in [head] + rest;
        } else if e != next {
          var r :| r in rest && delivered[r.index] && e == Some(clocks[r.index]);
          assert r in [head] + rest;
        }
      } else {
        KeyEntryRecorded(lines, clocks, total, delivered, window, i + 1, last, entry);
      }
    }
  }

  /** Without a delivered edit, the message's entry is never changed. */
  lemma {:induction false} KeyEntryUndelivered(lines: seq<string>, clocks: seq<real>, total: real, delivered: seq<bool>,
                                               window: real, i: nat, last: real, entry: Option<real>)
    requires |clocks| == |lines| && |delivered| == |lines| && i <= |lines|
    requires forall j :: i <= j < |lines| ==> !delivered[j]
    ensures KeyEntryFrom(lines, clocks, total, delivered, window, i, last, entry) == entry
    decreases |lines| - i
  {
    if i < |lines| {
      var t := CurrentTime(lines[i]);
      if t.Some? && total > 0.0 && clocks[i] - last > UpdateInterval {
        KeyEntryUndelivered(lines, clocks, total, delivered, window, i + 1, clocks[i], entry);
      } else {
        KeyEntryUndelivered(lines, clocks, total, delivered, window, i + 1, last, entry);
      }
    }
  }

  /** Every update comes from a line carrying a time token and shows that
      line's fraction of the (positive) total. */
  lemma {:induction false} ReportsGenuine(lines: seq<string>, clocks: seq<real>, total: real, i: nat, last: real)
    requires |clocks| == |lines| && i <= |lines|
    ensures forall r :: r in ReportsFrom(lines, clocks, total, i, last) ==>
      && total > 0.0
      && CurrentTime(lines[r.index]) == Some(r.time)
      && r.fraction == Fraction(r.time, total)
    decreases |lines| - i
  {
    if i < |lines| {
      var t := CurrentTime(lines[i]);
      if t.Some? && total > 0.0 && clocks[i] - last > UpdateInterval {
        ReportsGenuine(lines, clocks, total, i + 1, clocks[i]);
      } else {
        ReportsGenuine(lines, clocks, total, i + 1, last);
      }
    }
  }

  /** The first update comes more than two seconds after `last`. */
  lemma {:induction false} FirstReportDue(lines: seq<string>, clocks: seq<real>, total: real, i: nat, last: real)
    requires |clocks| == |lines| && i <= |lines|
    ensures var rs := ReportsFrom(lines, clocks, total, i, last);
      |rs| > 0 ==> clocks[rs[0].index] - last > UpdateInterval
    decreases |lines| - i
  {
    if i < |lines| {
      var t := CurrentTime(lines[i]);
      if !(t.Some? && total > 0.0 && clocks[i] - last > UpdateInterval) {
        FirstReportDue(lines, clocks, total, i + 1, last);
      }
    }
  }

  /** Updates in line order, each more than two seconds after the one
      before. */
  predicate Spaced(clocks: seq<real>, rs: seq<Report>)
  {
    && (forall k :: 0 <= k < |rs| ==> rs[k].index < |clocks|)
    && (forall k :: 0 < k < |rs| ==>
          rs[k - 1].index < rs[k].index && clocks[rs[k].index] - clocks[rs[k - 1].index] > UpdateInterval)
  }

  /** However the lines and clocks go, updates are spaced. */
  lemma {:induction false} ReportsSpaced(lines: seq<string>, clocks: seq<real>, total: real, i: nat, last: real)
    requires |clocks| == |lines| && i <= |lines|
    ensures Spaced(clocks, ReportsFrom(lines, clocks, total, i, last))
    decreases |lines| - i
  {
    if i < |lines| {
      var t := CurrentTime(lines[i]);
      if t.Some? && total > 0.0 && clocks[i] - last > UpdateInterval {
        var rest := ReportsFrom(lines, clocks, total, i + 1, clocks[i]);
        var rs := [Report(i, t.value, Fraction(t.value, total))] + rest;
        assert ReportsFrom(lines, clocks, total, i, last) == rs;
        ReportsSpaced(lines, clocks, total, i + 1, clocks[i]);
        FirstReportDue(lines, clocks, total, i + 1, clocks[i]);
        forall k | 0 < k < |rs|
          ensures rs[k - 1].index < rs[k].index && clocks[rs[k].index] - clocks[rs[k - 1].index] > UpdateInterval
        {
          if k > 1 {
            assert rs[k - 1] == rest[k - 2] && rs[k] == rest[k - 1];
          }
        }
      } else {
        ReportsSpaced(lines, clocks, total, i + 1, last);
      }
    }
  }

  /** Without a positive total duration nothing is ever reported. */
  lemma {:induction false} NoReportsWithoutTotal(lines: seq<string>, clocks: seq<real>, total: real, i: nat, last: real)
    requires |clocks| == |lines| && i <= |lines| && total <= 0.0
    ensures ReportsFrom(lines, clocks, total, i, last) == []
    decreases |lines| - i
  {
    if i < |lines| {
      NoReportsWithoutTotal(lines, clocks, total, i + 1, last);
    }
  }

  /** A line with a token that comes more than two seconds after the last
      update is always reported, as the next update. */
  lemma DueLineReported(lines: seq<string>, clocks: seq<real>, total: real, i: nat, last: real)
    requires |clocks| == |lines| && i < |lines| && total > 0.0
    requires CurrentTime(lines[i]).Some? && clocks[i] - last > UpdateInterval
    ensures var rs := ReportsFrom(lines, clocks, total, i, last);
      |rs| > 0 && rs[0] == Report(i, CurrentTime(lines[i]).value, Fraction(CurrentTime(lines[i]).value, total))
  {
  }
}
