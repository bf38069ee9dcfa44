/** The pure and step-by-step helpers of helpers/downloader.py: URL
    validation, the file name derived from a URL, the remaining-time text and
    the styled progress bar. The network clients around them are not modelled. */
module Downloader {
  import opened Wrappers
  import opened Text
  import opened Paths
  import Utils

  // ---------------------------------------------------------------------------
  // validate_url
  // ---------------------------------------------------------------------------

  const MaxUrlLength: nat := 2048

  /** The scheme, network location and path `urlparse` splits a URL into
      (the generic components of section 3 of RFC 3986; `urlparse` lower-cases
      the scheme). */
  datatype UrlParts = UrlParts(scheme: string, netloc: string, path: string)

  /** The `(bool, str)` pair `validate_url` returns. */
  datatype Verdict = Verdict(ok: bool, message: string)

  const DangerousExtensions: seq<string> := [".exe", ".bat", ".cmd", ".scr", ".pif", ".sh", ".bin"]

  /** The lower-cased path ends in one of the dangerous extensions. */
  predicate DangerousPath(path: string)
  {
    exists i :: 0 <= i < |DangerousExtensions| && EndsWith(Lower(path), DangerousExtensions[i])
  }

  predicate AllowedScheme(parts: UrlParts)
  {
    parts.scheme == "http" || parts.scheme == "https" || Contains(parts.netloc, "gofile.io")
  }

  function ValidateUrl(url: string, parts: UrlParts): Verdict
  {
    if url == [] then Verdict(false, "Invalid URL format")
    else if |url| > MaxUrlLength then
      Verdict(false, "URL length exceeds maximum allowed (" + NatStr(MaxUrlLength) + " characters).")
    else if parts.scheme == [] || parts.netloc == [] then
      Verdict(false, "URL must have a scheme (http/https) and network location.")
    else if !AllowedScheme(parts) then Verdict(false, "URL scheme must be http or https.")
    else if DangerousPath(parts.path) then Verdict(false, "Potentially dangerous file type in URL path.")
    else Verdict(true, "Valid")
  }

  /** A URL is accepted exactly when it is non-empty, at most 2048 characters
      long, has a scheme and a network location, uses http or https unless the
      network location names gofile.io, and its path does not end in a
      dangerous extension in any letter case; the first check that fails
      names itself in the message, and only acceptance says `Valid`. */
  lemma ValidateUrlVerdict(url: string, parts: UrlParts)
    ensures var v := ValidateUrl(url, parts);
      && (v.ok <==> url != [] && |url| <= MaxUrlLength && parts.scheme != [] && parts.netloc != []
                    && AllowedScheme(parts) && !DangerousPath(parts.path))
      && (v.ok <==> v.message == "Valid")
      && (url == [] ==> v.message == "Invalid URL format")
      && (url != [] && |url| > MaxUrlLength ==>
            v.message == "URL length exceeds maximum allowed (2048 characters).")
      && (url != [] && |url| <= MaxUrlLength && (parts.scheme == [] || parts.netloc == []) ==>
            v.message == "URL must have a scheme (http/https) and network location.")
      && (url != [] && |url| <= MaxUrlLength && parts.scheme != [] && parts.netloc != []
          && !AllowedScheme(parts) ==>
            v.message == "URL scheme must be http or https.")
      && (url != [] && |url| <= MaxUrlLength && parts.scheme != [] && parts.netloc != []
          && AllowedScheme(parts) && DangerousPath(parts.path) ==>
            v.message == "Potentially dangerous file type in URL path.")
  {
    MaxUrlDigits();
    if url == [] || |url| > MaxUrlLength || parts.scheme == [] || parts.netloc == [] {
    } else if !AllowedScheme(parts) {
      assert ValidateUrl(url, parts).message == "URL scheme must be http or https.";
    } else if DangerousPath(parts.path) {
      assert ValidateUrl(url, parts).message == "Potentially dangerous file type in URL path.";
    }
  }

  lemma MaxUrlDigits()
    ensures NatStr(MaxUrlLength) == "2048"
  {
    assert NatStr(2048) == NatStr(204) + [DigitChar(8)];
    assert NatStr(204) == NatStr(20) + [DigitChar(4)];
    assert NatStr(20) == NatStr(2) + [DigitChar(0)];
  }

  /** The path check ignores letter case: `.EXE` is refused like `.exe`. */
  lemma ValidateUrlIgnoresPathCase(url: string, parts: UrlParts, path: string)
    requires Lower(path) == Lower(parts.path)
    ensures ValidateUrl(url, parts.(path := path)) == ValidateUrl(url, parts)
  {
    assert DangerousPath(path) == DangerousPath(parts.path);
  }

  /** Any scheme passes the scheme check when the network location contains
      gofile.io. */
  lemma GofileAnyScheme(url: string, parts: UrlParts)
    requires url != [] && |url| <= MaxUrlLength && parts.scheme != []
    requires Contains(parts.netloc, "gofile.io") && !DangerousPath(parts.path)
    ensures ValidateUrl(url, parts).ok
  {
    var i :| OccursAt(parts.netloc, "gofile.io", i);
  }

  // ---------------------------------------------------------------------------
  // get_filename_from_url
  // ---------------------------------------------------------------------------

  /** The characters the sanitiser replaces with `_`. */
  const Forbidden: set<char> := {'<', '>', ':', '"', '/', '\\', '|', '?', '*'}

  predicate IsControl(c: char) { c as int < 0x20 || c as int == 0x7f }

  /** What Python's argument-less `str.strip()` removes. */
  const Whitespace: set<char> :=
    {'\U{0020}', '\U{0009}', '\U{000A}', '\U{000B}', '\U{000C}', '\U{000D}', '\U{001C}', '\U{001D}',
     '\U{001E}', '\U{001F}', '\U{0085}', '\U{00A0}', '\U{1680}', '\U{2000}', '\U{2001}', '\U{2002}',
     '\U{2003}', '\U{2004}', '\U{2005}', '\U{2006}', '\U{2007}', '\U{2008}', '\U{2009}', '\U{200A}',
     '\U{2028}', '\U{2029}', '\U{202F}', '\U{205F}', '\U{3000}'}

  /** No forbidden character and no control character. */
  predicate Safe(name: string)
  {
    forall i :: 0 <= i < |name| ==> name[i] !in Forbidden && !IsControl(name[i])
  }

  /** `s.split('?')[0]`: everything before the first `?`. */
  function BeforeQuery(s: string): (r: string)
    ensures '?' !in r
    ensures StartsWith(s, r)
    ensures '?' !in s ==> r == s
  {
    if s == [] || s[0] == '?' then [] else [s[0]] + BeforeQuery(s[1..])
  }

  /** `re.sub(r'[<>:"/\\|?*]', '_', s)`. */
  function ReplaceForbidden(s: string): (r: string)
    ensures |r| == |s|
    ensures forall i :: 0 <= i < |s| ==> r[i] == if s[i] in Forbidden then '_' else s[i]
  {
    seq(|s|, i requires 0 <= i < |s| => if s[i] in Forbidden then '_' else s[i])
  }

  /** `s[i..j]` is what stripping `chars` from both ends of `s` leaves: all
      of `s` before `i` and from `j` on is in `chars`, and the part kept
      neither starts nor ends with one of them. */
  predicate StrippedAt(s: string, chars: set<char>, i: int, j: int)
  {
    && 0 <= i <= j <= |s|
    && (forall k :: 0 <= k < i ==> s[k] in chars)
    && (forall k :: j <= k < |s| ==> s[k] in chars)
    && (i == j || (s[i] !in chars && s[j - 1] !in chars))
  }

  /** `s.strip(chars)`: drops characters of `chars` from both ends. */
  function Strip(s: string, chars: set<char>): (r: string)
    ensures exists i, j :: StrippedAt(s, chars, i, j) && r == s[i..j]
    ensures forall c :: c in r ==> c in s
    ensures r == [] || (r[0] !in chars && r[|r| - 1] !in chars)
  {
    var l := StripLeft(s, chars);
    var r := StripRight(l.1, chars);
    var i, j := l.0, l.0 + r.1;
    assert s[i..j] == r.0;
    assert forall k :: j <= k < |s| ==> s[k] == l.1[k - i];
    assert StrippedAt(s, chars, i, j);
    assert forall c :: c in r.0 ==> c in l.1;
    r.0
  }

  /** The index of the first character not in `chars`, and what starts there. */
  function StripLeft(s: string, chars: set<char>): (r: (nat, string))
    ensures r.0 <= |s| && r.1 == s[r.0..]
    ensures forall k :: 0 <= k < r.0 ==> s[k] in chars
    ensures r.1 == [] || r.1[0] !in chars
  {
    if s == [] || s[0] !in chars then (0, s)
    else
      var t := StripLeft(s[1..], chars);
      assert forall k :: 1 <= k < t.0 + 1 ==> s[k] == s[1..][k - 1];
      (t.0 + 1, t.1)
  }

  /** What is left after dropping trailing characters of `chars`, and its length. */
  function StripRight(s: string, chars: set<char>): (r: (string, nat))
    ensures r.1 <= |s| && r.0 == s[..r.1]
    ensures forall k :: r.1 <= k < |s| ==> s[k] in chars
    ensures r.0 == [] || r.0[|r.0| - 1] !in chars
  {
    if s == [] || s[|s| - 1] !in chars then (s, |s|)
    else
      var t := StripRight(s[..|s| - 1], chars);
      assert s[..|s| - 1][..t.1] == s[..t.1];
      assert forall k :: t.1 <= k < |s| - 1 ==> s[k] == s[..|s| - 1][k];
      t
  }

  /** `re.sub(r'[\x00-\x1f\x7f]', '', s)`. */
  function RemoveControl(s: string): (r: string)
    ensures forall i :: 0 <= i < |r| ==> !IsControl(r[i]) && r[i] in s
  {
    if s == [] then []
    else (if IsControl(s[0]) then [] else [s[0]]) + RemoveControl(s[1..])
  }

  /** The name the URL path gives once sanitised (lines 138-147). */
  function Sanitize(baseName: string): string
  {
    RemoveControl(Strip(Strip(ReplaceForbidden(BeforeQuery(baseName)), {' ', '.'}), Whitespace))
  }

  /** The sanitised name has no forbidden and no control character. */
  lemma SanitizeSafe(baseName: string)
    ensures Safe(Sanitize(baseName))
  {
    var replaced := ReplaceForbidden(BeforeQuery(baseName));
    assert forall c :: c in replaced ==> c !in Forbidden;
    var stripped := Strip(Strip(replaced, {' ', '.'}), Whitespace);
    assert forall c :: c in stripped ==> c !in Forbidden;
  }

  /** Adding the extension and limiting the length add no unsafe character. */
  lemma FinishSafe(name: string)
    requires Safe(name)
    ensures Safe(LimitLength(WithExtension(name)))
  {
    var full := WithExtension(name);
    if '.' !in name {
      SafeConcat(name, ".bin");
    }
    LimitLengthSafe(full);
  }

  lemma LimitLengthSafe(name: string)
    requires Safe(name)
    ensures Safe(LimitLength(name))
  {
    if |name| > MaxNameLength {
      var sp := SplitExt(name);
      var head := SliceTo(sp.root, MaxNameLength - |sp.ext|);
      SafeParts(sp.root, sp.ext);
      assert head == sp.root[..|head|];
      assert Safe(head);
      SafeConcat(head, sp.ext);
    }
  }

  lemma SafeConcat(a: string, b: string)
    requires Safe(a) && Safe(b)
    ensures Safe(a + b)
  {
    forall i | 0 <= i < |a + b|
      ensures (a + b)[i] !in Forbidden && !IsControl((a + b)[i])
    {
      if i >= |a| {
        assert (a + b)[i] == b[i - |a|];
      }
    }
  }

  lemma SafeParts(a: string, b: string)
    requires Safe(a + b)
    ensures Safe(a) && Safe(b)
  {
    forall i | 0 <= i < |b|
      ensures b[i] !in Forbidden && !IsControl(b[i])
    {
      assert b[i] == (a + b)[|a| + i];
    }
    forall i | 0 <= i < |a|
      ensures a[i] !in Forbidden && !IsControl(a[i])
    {
      assert a[i] == (a + b)[i];
    }
  }

  /** Too short or too generic to be a useful name. */
  predicate IsGeneric(name: string)
  {
    name == [] || |name| < 5 || Lower(name) in ["download", "file", "index"]
  }

  /** `fallback_name or f"download_{timestamp}.bin"` (an empty fallback is falsy). */
  function FallbackName(fallback: Option<string>, stamp: string): string
  {
    if fallback.Some? && fallback.value != [] then fallback.value else "download_" + stamp + ".bin"
  }

  /** `name + '.bin'` when the name has no dot. */
  function WithExtension(name: string): (r: string)
    ensures '.' in r
    ensures StartsWith(r, name)
    ensures '.' in name ==> r == name
  {
    if '.' in name then name else name + ".bin"
  }

  /** Python's `s[:stop]`, where a negative `stop` counts from the end. */
  function SliceTo(s: string, stop: int): (r: string)
    ensures StartsWith(s, r)
    ensures stop >= 0 ==> |r| == if stop < |s| then stop else |s|
  {
    if stop >= 0 then (if stop < |s| then s[..stop] else s)
    else if |s| + stop > 0 then s[..|s| + stop] else []
  }

  const MaxNameLength: nat := 200

  /** The length limit: a name over 200 characters keeps its extension and
      as much of its stem as fits (lines 160-162). */
  function LimitLength(name: string): (r: string)
    ensures |name| <= MaxNameLength ==> r == name
    ensures EndsWith(r, SplitExt(name).ext)
    ensures |SplitExt(name).ext| <= MaxNameLength ==> |r| <= MaxNameLength
    ensures |name| > MaxNameLength && |SplitExt(name).ext| <= MaxNameLength ==> |r| == MaxNameLength
  {
    if |name| > MaxNameLength then
      var sp := SplitExt(name);
      SliceTo(sp.root, MaxNameLength - |sp.ext|) + sp.ext
    else name
  }

  /** The cut of lines 160-162 is what `LimitLength` gives. */
  lemma LimitLengthCuts(name: string, sp: Split, head: string)
    requires |name| > MaxNameLength && sp == SplitExt(name)
    requires head == SliceTo(sp.root, MaxNameLength - |sp.ext|)
    ensures LimitLength(name) == head + sp.ext
  {
  }

  /** Line 157: `.bin` for a name without a dot. */
  method AddExtension(name: string) returns (r: string)
    ensures r == WithExtension(name)
  {
    r := name;
    if '.' !in r {
      r := r + ".bin";
    }
  }

  /** Lines 160-162: the stem is cut so that stem and extension fit. */
  method CutToLength(name: string) returns (r: string)
    ensures r == LimitLength(name)
  {
    r := name;
    if |r| > MaxNameLength {
      var sp := SplitExt(r);
      var head := SliceTo(sp.root, MaxNameLength - |sp.ext|);
      LimitLengthCuts(name, sp, head);
      r := head + sp.ext;
    }
  }

  /** The sanitising steps of `get_filename_from_url`, rewriting the name
      one step at a time. */
  method SanitizeName(baseName: string) returns (name: string)
    ensures name == Sanitize(baseName) && Safe(name)
  {
    name := baseName;
    if '?' in name {
      name := BeforeQuery(name);
    }
    name := ReplaceForbidden(name);
    name := Strip(Strip(name, {' ', '.'}), Whitespace);
    name := RemoveControl(name);
    SanitizeSafe(baseName);
  }

  /** `get_filename_from_url`, from the already-decoded last path component
      (`unquote(os.path.basename(parsed.path))`), the caller's fallback name
      and the `%Y%m%d_%H%M%S` time stamp. The generic fallback is used exactly
      when the sanitised name is empty, shorter than 5 characters or one of
      `download`, `file`, `index` in any letter case; otherwise the result has
      no forbidden and no control character. The result keeps the extension
      of the name it was made from (after `.bin` was added to a name without
      a dot). */
  method FilenameFromUrl(baseName: string, fallback: Option<string>, stamp: string) returns (name: string)
    ensures var clean := Sanitize(baseName);
      && (IsGeneric(clean) ==> name == LimitLength(WithExtension(FallbackName(fallback, stamp))))
      && (!IsGeneric(clean) ==> name == LimitLength(WithExtension(clean)) && Safe(name))
    ensures EndsWith(name, SplitExt(WithExtension(if IsGeneric(Sanitize(baseName))
                                                 then FallbackName(fallback, stamp)
                                                 else Sanitize(baseName))).ext)
  {
    name := SanitizeName(baseName);
    ghost var clean := name;
    if IsGeneric(name) {
      name := FallbackName(fallback, stamp);
    }
    name := AddExtension(name);
    name := CutToLength(name);
    if !IsGeneric(clean) {
      FinishSafe(clean);
    }
  }

  // ---------------------------------------------------------------------------
  // get_time_left
  // ---------------------------------------------------------------------------

  /** Seconds left at the current rate: `(total - current) / (current / elapsed)`. */
  function Remaining(elapsed: real, current: int, total: int): real
    requires current > 0
  {
    (total - current) as real * elapsed / current as real
  }

  /** The bucketed text for a positive remaining time, with Python's `//`
      and `%` on floats written out. */
  function EtaText(remaining: real): string
    requires remaining >= 0.0
  {
    if remaining < 60.0 then NatStr(remaining.Floor) + "s"
    else if remaining < 3600.0 then
      var minutes := (remaining / 60.0).Floor;
      NatStr(minutes) + "m " + NatStr((remaining - 60.0 * minutes as real).Floor) + "s"
    else
      var hours := (remaining / 3600.0).Floor;
      NatStr(hours) + "h " + NatStr(((remaining - 3600.0 * hours as real) / 60.0).Floor) + "m"
  }

  /** `get_time_left`, with the clock reading `time.time() - start_time`
      passed in as `elapsed`. */
  function TimeLeft(elapsed: real, current: int, total: int): string
  {
    if current <= 0 || total <= 0 then "Calculating..."
    else if elapsed <= 0.1 then "Calculating..."
    else if total - current <= 0 then "0s"
    else EtaText(Remaining(elapsed, current, total))
  }

  /** The same buckets on whole seconds. */
  function EtaSeconds(s: nat): string
  {
    if s < 60 then NatStr(s) + "s"
    else if s < 3600 then NatStr(s / 60) + "m " + NatStr(s % 60) + "s"
    else NatStr(s / 3600) + "h " + NatStr(s % 3600 / 60) + "m"
  }

  /** The float text only depends on the whole seconds: it is the integer
      bucketing of floor(remaining). */
  lemma EtaTextWholeSeconds(remaining: real)
    requires remaining >= 0.0
    ensures EtaText(remaining) == EtaSeconds(remaining.Floor)
  {
    if 60.0 <= remaining < 3600.0 {
      EtaMinutes(remaining);
    } else if remaining >= 3600.0 {
      EtaHours(remaining);
    }
  }

  lemma EtaMinutes(remaining: real)
    requires 60.0 <= remaining < 3600.0
    ensures EtaText(remaining) == EtaSeconds(remaining.Floor)
  {
    var s := remaining.Floor;
    var minutes := (remaining / 60.0).Floor;
    assert minutes == s / 60 by {
      FloorDiv(remaining, 60);
    }
    assert (remaining - 60.0 * minutes as real).Floor == s % 60 by {
      FloorShift(remaining, 60, minutes);
    }
  }

  lemma EtaHours(remaining: real)
    requires remaining >= 3600.0
    ensures EtaText(remaining) == EtaSeconds(remaining.Floor)
  {
    var s := remaining.Floor;
    var hours := (remaining / 3600.0).Floor;
    assert hours == s / 3600 by {
      FloorDiv(remaining, 3600);
    }
    var rest := remaining - 3600.0 * hours as real;
    assert rest >= 0.0 && rest.Floor == s % 3600 by {
      FloorShift(remaining, 3600, hours);
    }
    assert (rest / 60.0).Floor == s % 3600 / 60 by {
      FloorDiv(rest, 60);
    }
  }

  /** floor(x / d) == floor(x) / d for non-negative x and a positive whole d. */
  lemma FloorDiv(x: real, d: nat)
    requires x >= 0.0 && d > 0
    ensures (x / d as real).Floor == x.Floor / d
  {
    var s := x.Floor;
    var q := s / d;
    assert q * d <= s < (q + 1) * d;
    assert (q * d) as real == q as real * d as real by {
      CastMul(q, d);
    }
    assert ((q + 1) * d) as real == (q + 1) as real * d as real by {
      CastMul(q + 1, d);
    }
    QuotientBounds(x, d as real, q as real);
  }

  lemma CastMul(a: int, b: int)
    ensures (a * b) as real == a as real * b as real
  {
  }

  /** q*d <= x < (q+1)*d puts x/d between q and q+1. */
  lemma QuotientBounds(x: real, d: real, q: real)
    requires d > 0.0 && q * d <= x < (q + 1.0) * d
    ensures q <= x / d < q + 1.0
  {
    var y := x / d;
    assert y * d == x;
    if y < q {
      MulPositive(q - y, d);
      assert false;
    }
    if y >= q + 1.0 {
      MulNonNegative(y - (q + 1.0), d);
      assert false;
    }
  }

  lemma MulPositive(a: real, b: real)
    requires a > 0.0 && b > 0.0
    ensures a * b > 0.0
  {
  }

  lemma MulNonNegative(a: real, b: real)
    requires a >= 0.0 && b > 0.0
    ensures a * b >= 0.0
  {
  }

  /** Taking away whole multiples of d: floor(x - d*q) == floor(x) % d when
      q is floor(x) / d. */
  lemma FloorShift(x: real, d: nat, q: int)
    requires x >= 0.0 && d > 0 && q == x.Floor / d
    ensures x - d as real * q as real >= 0.0
    ensures (x - d as real * q as real).Floor == x.Floor % d
  {
    var s := x.Floor;
    var k := d * q;
    assert s == k + s % d;
    assert k as real == d as real * q as real by {
      CastMul(d, q);
    }
    assert k as real <= s as real <= x;
    assert (x - k as real).Floor == s - k;
  }

  /** The remaining-time text: `Calculating...` without progress, a total, or
      more than 0.1 s elapsed; `0s` once the download is complete; otherwise
      the whole remaining seconds in the bucket below 60 s, below an hour, or
      above. */
  lemma TimeLeftCases(elapsed: real, current: int, total: int)
    ensures current <= 0 || total <= 0 || elapsed <= 0.1 ==> TimeLeft(elapsed, current, total) == "Calculating..."
    ensures current > 0 && total > 0 && elapsed > 0.1 && current >= total ==> TimeLeft(elapsed, current, total) == "0s"
    ensures current > 0 && total > current && elapsed > 0.1 ==>
      var r := Remaining(elapsed, current, total);
      r > 0.0 && TimeLeft(elapsed, current, total) == EtaSeconds(r.Floor)
  {
    if current > 0 && total > current && elapsed > 0.1 {
      var r := Remaining(elapsed, current, total);
      assert (total - current) as real * elapsed > 0.0;
      EtaTextWholeSeconds(r);
    }
  }

  /** Below an hour, and unless a whole number of minutes is left, the ETA
      text is the `get_readable_time` text of the same seconds. */
  lemma EtaAgreesWithReadableTime(s: nat)
    requires 1 <= s < 3600 && (s >= 60 ==> s % 60 != 0)
    ensures EtaSeconds(s) == Utils.TimeText(s)
  {
    var mc, sc := Utils.Component(s / 60, 'm'), Utils.Component(s % 60, 's');
    BelowHourComponents(s);
    assert [mc, sc][1..] == [sc];
    assert Utils.NonZero([sc]) == [sc] by {
      assert [sc][1..] == [];
    }
    if s >= 60 {
      assert Utils.NonZero([mc, sc]) == [mc, sc];
      MinutesAndSecondsText(s);
    } else {
      assert Utils.NonZero([mc, sc]) == [sc];
      assert Utils.Render([sc]) == [NatStr(s) + "s"];
    }
  }

  /** At a whole number of minutes below an hour the two texts differ: the
      ETA prints `Mm 0s`, `get_readable_time` prints `Mm`. */
  lemma EtaDiffersAtWholeMinutes(s: nat)
    requires 60 <= s < 3600 && s % 60 == 0
    ensures EtaSeconds(s) == NatStr(s / 60) + "m 0s"
    ensures Utils.TimeText(s) == NatStr(s / 60) + "m"
    ensures EtaSeconds(s) != Utils.TimeText(s)
  {
    WholeMinutesText(s);
    assert NatStr(0) == "0";
    var eta, text := EtaSeconds(s), Utils.TimeText(s);
    assert |eta| == |text| + 3;
  }

  /** `get_readable_time` leaves out a zero seconds component. */
  lemma WholeMinutesText(s: nat)
    requires 60 <= s < 3600 && s % 60 == 0
    ensures Utils.TimeText(s) == NatStr(s / 60) + "m"
  {
    var mc, sc := Utils.Component(s / 60, 'm'), Utils.Component(s % 60, 's');
    BelowHourComponents(s);
    assert [mc, sc][1..] == [sc];
    assert Utils.NonZero([sc]) == [] by {
      assert [sc][1..] == [];
    }
    assert Utils.NonZero([mc, sc]) == [mc];
    assert Utils.Render([mc]) == [NatStr(s / 60) + "m"];
  }

  /** Below an hour only the minutes and seconds can be listed. */
  lemma BelowHourComponents(s: nat)
    requires s < 3600
    ensures Utils.Components(s, Utils.Periods) ==
      Utils.NonZero([Utils.Component(s / 60, 'm'), Utils.Component(s % 60, 's')])
  {
    assert s % 86400 == s && s / 86400 == 0 && s % 86400 / 3600 == 0 && s % 3600 == s;
    var d0, h0 := Utils.Component(0, 'd'), Utils.Component(0, 'h');
    var mc, sc := Utils.Component(s / 60, 'm'), Utils.Component(s % 60, 's');
    Utils.TimeClosedForm(s);
    assert [d0, h0, mc, sc][1..] == [h0, mc, sc];
    assert [h0, mc, sc][1..] == [mc, sc];
  }

  lemma MinutesAndSecondsText(s: nat)
    requires 60 <= s < 3600 && s % 60 != 0
    requires Utils.Components(s, Utils.Periods) == [Utils.Component(s / 60, 'm'), Utils.Component(s % 60, 's')]
    ensures Utils.TimeText(s) == NatStr(s / 60) + "m " + NatStr(s % 60) + "s"
  {
    var parts := Utils.Render(Utils.Components(s, Utils.Periods));
    assert parts == [NatStr(s / 60) + "m", NatStr(s % 60) + "s"];
    assert parts[1..] == [NatStr(s % 60) + "s"];
    assert JoinWith(parts[1..], " ") == NatStr(s % 60) + "s";
  }

  /** Above an hour the ETA keeps whole hours and minutes and drops the
      seconds. */
  lemma EtaAboveHour(s: nat)
    requires s >= 3600
    ensures var h, m := s / 3600, s % 3600 / 60;
      && m < 60
      && h * 3600 + m * 60 <= s < h * 3600 + m * 60 + 60
      && EtaSeconds(s) == NatStr(h) + "h " + NatStr(m) + "m"
  {
  }

  // ---------------------------------------------------------------------------
  // get_styled_progress_bar
  // ---------------------------------------------------------------------------

  datatype BarStyle = BarStyle(filled: char, empty: char)

  const Styles: map<string, BarStyle> := map[
    "default" := BarStyle('\U{2588}', '\U{2591}'),
    "modern" := BarStyle('\U{25B0}', '\U{25B1}'),
    "dots" := BarStyle('\U{25CF}', '\U{25CB}'),
    "blocks" := BarStyle('\U{25A0}', '\U{25A1}')]

  /** The characters of a style, the default ones for an unknown name. */
  function StyleOf(style: string): BarStyle
  {
    if style in Styles then Styles[style] else Styles["default"]
  }

  function StyledProgressBar(progress: real, length: int, style: string): string
  {
    var chars := StyleOf(style);
    var filled := Utils.Trunc(length as real * progress);
    Repeat(chars.filled, filled) + Repeat(chars.empty, length - filled)
  }

  /** The default style, and any unknown style, draw the bar of
      `get_progress_bar`; for a progress in [0, 1] every style draws exactly
      `length` cells, floor(length * progress) of them filled. */
  lemma StyledProgressBarMeaning(progress: real, length: nat, style: string)
    ensures style == "default" || style !in Styles ==>
      StyledProgressBar(progress, length, style) == Utils.ProgressBar(progress, length)
    ensures 0.0 <= progress <= 1.0 ==>
      var bar, f, chars := StyledProgressBar(progress, length, style), (length as real * progress).Floor, StyleOf(style);
      && 0 <= f <= length
      && |bar| == length
      && (forall i :: 0 <= i < f ==> bar[i] == chars.filled)
      && (forall i :: f <= i < length ==> bar[i] == chars.empty)
  {
    if 0.0 <= progress <= 1.0 {
      Utils.ProgressBarShape(progress, length);
    }
  }
}
