/** The formatting helpers of helpers/utils.py: durations as `1d 2h 3m 4s`,
    byte counts with a binary unit, and the text progress bar. */
module Utils {
  import opened Wrappers
  import opened Text

  // ---------------------------------------------------------------------------
  // get_readable_time
  // ---------------------------------------------------------------------------

  /** The units of `get_readable_time`, largest first, with their length in seconds. */
  const Periods: seq<Period> := [Period('d', 86400), Period('h', 3600), Period('m', 60), Period('s', 1)]

  datatype Period = Period(unit: char, length: nat)

  datatype Component = Component(value: nat, unit: char)

  predicate PositivePeriods(periods: seq<Period>)
  {
    forall k :: 0 <= k < |periods| ==> periods[k].length > 0
  }

  /** What the loop appends while walking `periods` in order: a period is
      listed, with the quotient, exactly when what is left of `seconds` is at
      least one period long, and only the remainder is carried on. */
  function Components(seconds: int, periods: seq<Period>): seq<Component>
    requires PositivePeriods(periods)
  {
    if periods == [] then []
    else
      var len := periods[0].length;
      if seconds >= len then [Component(seconds / len, periods[0].unit)] + Components(seconds % len, periods[1..])
      else Components(seconds, periods[1..])
  }

  /** One step of the walk, unfolded. */
  lemma ComponentsStep(rest: int, periods: seq<Period>)
    requires PositivePeriods(periods) && periods != []
    ensures Components(rest, periods) ==
      if rest >= periods[0].length
      then [Component(rest / periods[0].length, periods[0].unit)] + Components(rest % periods[0].length, periods[1..])
      else Components(rest, periods[1..])
  {
  }

  function Show(c: Component): string
  {
    NatStr(c.value) + [c.unit]
  }

  function Render(cs: seq<Component>): (parts: seq<string>)
    ensures |parts| == |cs|
    ensures forall i :: 0 <= i < |cs| ==> parts[i] == Show(cs[i])
  {
    seq(|cs|, i requires 0 <= i < |cs| => Show(cs[i]))
  }

  /** The text `get_readable_time` returns. */
  function TimeText(seconds: int): string
  {
    var parts := Render(Components(seconds, Periods));
    if parts == [] then "0s" else JoinWith(parts, " ")
  }

  /** `get_readable_time`: divides out days, hours, minutes and seconds in turn. */
  method ReadableTime(seconds: int) returns (text: string)
    ensures text == TimeText(seconds)
  {
    var rest := seconds;
    var result: seq<string> := [];
    ghost var listed: seq<Component> := [];
    var k := 0;
    while k < |Periods|
      invariant 0 <= k <= |Periods|
      invariant listed + Components(rest, Periods[k..]) == Components(seconds, Periods)
      invariant result == Render(listed)
    {
      var name, len := Periods[k].unit, Periods[k].length;
      WalkStep(listed, rest, k);
      if rest >= len {
        var c := Component(rest / len, name);
        RenderAppend(listed, c);
        listed := listed + [c];
        result := result + [Show(c)];
        rest := rest % len;
      }
      k := k + 1;
    }
    assert Periods[k..] == [];
    assert listed == Components(seconds, Periods);
    text := if result == [] then "0s" else JoinWith(result, " ");
  }

  /** Keeps the components whose value is not zero, in order. */
  function NonZero(cs: seq<Component>): (r: seq<Component>)
    ensures forall c :: c in r ==> c in cs && c.value > 0
  {
    if cs == [] then []
    else (if cs[0].value > 0 then [cs[0]] else []) + NonZero(cs[1..])
  }

  /** The position of a unit letter in `d h m s`. */
  function Rank(unit: char): nat
  {
    if unit == 'd' then 0 else if unit == 'h' then 1 else if unit == 'm' then 2 else 3
  }

  function Weight(unit: char): nat
  {
    if unit == 'd' then 86400 else if unit == 'h' then 3600 else if unit == 'm' then 60 else 1
  }

  /** The number of seconds a list of components stands for. */
  function Total(cs: seq<Component>): nat
  {
    if cs == [] then 0 else cs[0].value * Weight(cs[0].unit) + Total(cs[1..])
  }

  predicate UnitsAscending(cs: seq<Component>)
  {
    forall i, j :: 0 <= i < j < |cs| ==> Rank(cs[i].unit) < Rank(cs[j].unit)
  }

  /** The closed form of the loop for a non-negative count: the four divmod
      steps, with the zero quotients left out. */
  lemma TimeClosedForm(s: int)
    requires s >= 0
    ensures Components(s, Periods) ==
      NonZero([Component(s / 86400, 'd'), Component(s % 86400 / 3600, 'h'),
               Component(s % 3600 / 60, 'm'), Component(s % 60, 's')])
  {
    var r := s % 86400;
    ComponentsStep(s, Periods);
    assert Periods[1..] == [Period('h', 3600), Period('m', 60), Period('s', 1)];
    if s < 86400 {
      DivModUnique(s, 86400, 0, s);
    }
    ClosedFormHours(r);
    ModMod(s);
    var four := [Component(s / 86400, 'd'), Component(s % 86400 / 3600, 'h'),
                 Component(s % 3600 / 60, 'm'), Component(s % 60, 's')];
    assert four[1..] == [Component(r / 3600, 'h'), Component(r % 3600 / 60, 'm'), Component(r % 60, 's')];
  }

  lemma ModMod(s: int)
    requires s >= 0
    ensures s % 86400 % 3600 == s % 3600
    ensures s % 86400 % 60 == s % 60
    ensures s % 3600 % 60 == s % 60
  {
    ModOfMultiple(s, 24, 3600);
    ModOfMultiple(s, 1440, 60);
    ModOfMultiple(s, 60, 60);
  }

  /** Taking the remainder by a multiple of b first does not change the
      remainder by b. */
  lemma ModOfMultiple(s: int, a: int, b: int)
    requires s >= 0 && a > 0 && b > 0
    ensures s % (a * b) % b == s % b
  {
    var n := a * b;
    var q, r := s / n, s % n;
    var q2, r2 := r / b, r % b;
    assert s == n * q + r;
    assert r == b * q2 + r2;
    assert n * q == b * (a * q);
    DivModUnique(s, b, a * q + q2, r2);
  }

  /** Quotient and remainder are the only pair that rebuilds s. */
  lemma DivModUnique(s: int, b: int, x: int, y: int)
    requires b > 0 && s == b * x + y && 0 <= y < b
    ensures s / b == x && s % b == y
  {
    var q, r := s / b, s % b;
    assert s == b * q + r;
    assert b * (x - q) == r - y && b * (q - x) == y - r;
    if x > q {
      MulAtLeast(b, x - q);
      assert false;
    }
    if x < q {
      MulAtLeast(b, q - x);
      assert false;
    }
  }

  lemma MulAtLeast(b: int, k: int)
    requires b > 0 && k >= 1
    ensures b * k >= b
  {
  }

  /** A count below n periods of length b holds fewer than n whole periods. */
  lemma DivBelow(r: int, b: int, n: int)
    requires b > 0 && 0 <= r < b * n
    ensures r / b < n
  {
    var q := r / b;
    assert r == b * q + r % b;
    if q >= n {
      MulMonotone(b, n, q);
      assert false;
    }
  }

  lemma MulMonotone(b: int, x: int, y: int)
    requires b > 0 && x <= y
    ensures b * x <= b * y
  {
  }

  lemma ClosedFormHours(r: int)
    requires 0 <= r < 86400
    ensures Components(r, [Period('h', 3600), Period('m', 60), Period('s', 1)]) ==
      NonZero([Component(r / 3600, 'h'), Component(r % 3600 / 60, 'm'), Component(r % 60, 's')])
  {
    var ps := [Period('h', 3600), Period('m', 60), Period('s', 1)];
    ComponentsStep(r, ps);
    assert ps[1..] == [Period('m', 60), Period('s', 1)];
    var r2 := r % 3600;
    if r < 3600 { DivModUnique(r, 3600, 0, r); }
    ClosedFormMinutes(r2);
    DivModUnique(r2, 3600, 0, r2);
    var three := [Component(r / 3600, 'h'), Component(r % 3600 / 60, 'm'), Component(r % 60, 's')];
    assert r2 % 60 == r % 60 by {
      ModOfMultiple(r, 60, 60);
    }
    assert three[1..] == [Component(r2 / 60, 'm'), Component(r2 % 60, 's')];
  }

  lemma ClosedFormMinutes(r: int)
    requires 0 <= r < 3600
    ensures Components(r, [Period('m', 60), Period('s', 1)]) ==
      NonZero([Component(r / 60, 'm'), Component(r % 60, 's')])
  {
    var ps := [Period('m', 60), Period('s', 1)];
    ComponentsStep(r, ps);
    assert ps[1..] == [Period('s', 1)];
    var r3 := r % 60;
    if r < 60 { DivModUnique(r, 60, 0, r); }
    var ones := [Period('s', 1)];
    ComponentsStep(r3, ones);
    assert ones[1..] == [];
    var two := [Component(r / 60, 'm'), Component(r % 60, 's')];
    assert two[1..] == [Component(r3, 's')];
    assert [Component(r3, 's')][1..] == [];
    assert Components(r3, ones) == (if r3 >= 1 then [Component(r3, 's')] else []) by {
      if r3 >= 1 { assert r3 / 1 == r3 && r3 % 1 == 0; }
    }
    assert NonZero([Component(r3, 's')]) == (if r3 > 0 then [Component(r3, 's')] else []);
    assert NonZero(two) == (if r / 60 > 0 then [two[0]] else []) + NonZero([Component(r3, 's')]);
  }

  lemma {:induction false} NonZeroAscending(cs: seq<Component>)
    requires UnitsAscending(cs)
    ensures UnitsAscending(NonZero(cs))
  {
    if cs != [] {
      assert UnitsAscending(cs[1..]) by {
        AscendingTail(cs);
      }
      NonZeroAscending(cs[1..]);
      if cs[0].value > 0 {
        var tail := NonZero(cs[1..]);
        assert forall c :: c in tail ==> Rank(cs[0].unit) < Rank(c.unit) by {
          HeadBelowRest(cs);
        }
        ConsAscending(cs[0], tail);
      }
    }
  }

  lemma AscendingTail(cs: seq<Component>)
    requires UnitsAscending(cs) && cs != []
    ensures UnitsAscending(cs[1..])
  {
    forall i, j | 0 <= i < j < |cs[1..]| ensures Rank(cs[1..][i].unit) < Rank(cs[1..][j].unit) {
      assert cs[1..][i] == cs[i + 1] && cs[1..][j] == cs[j + 1];
    }
  }

  lemma HeadBelowRest(cs: seq<Component>)
    requires UnitsAscending(cs) && cs != []
    ensures forall c :: c in cs[1..] ==> Rank(cs[0].unit) < Rank(c.unit)
  {
    forall c | c in cs[1..] ensures Rank(cs[0].unit) < Rank(c.unit) {
      var j :| 0 <= j < |cs[1..]| && cs[1..][j] == c;
      assert cs[j + 1] == c;
    }
  }

  lemma ConsAscending(c: Component, tail: seq<Component>)
    requires UnitsAscending(tail)
    requires forall d :: d in tail ==> Rank(c.unit) < Rank(d.unit)
    ensures UnitsAscending([c] + tail)
  {
    var r := [c] + tail;
    forall i, j | 0 <= i < j < |r| ensures Rank(r[i].unit) < Rank(r[j].unit) {
      assert r[j] == tail[j - 1];
      if i > 0 { assert r[i] == tail[i - 1]; }
      else { assert tail[j - 1] in tail; }
    }
  }

  lemma {:induction false} NonZeroTotal(cs: seq<Component>)
    ensures Total(NonZero(cs)) == Total(cs)
  {
    if cs != [] {
      NonZeroTotal(cs[1..]);
      var head := if cs[0].value > 0 then [cs[0]] else [];
      var r := head + NonZero(cs[1..]);
      if cs[0].value > 0 { assert r[1..] == NonZero(cs[1..]); }
      else { assert r == NonZero(cs[1..]); }
    }
  }

  /** The four divmod quotients of a non-negative count, largest unit first. */
  function Quotients(s: int): seq<Component>
    requires s >= 0
  {
    [Component(s / 86400, 'd'), Component(s % 86400 / 3600, 'h'),
     Component(s % 3600 / 60, 'm'), Component(s % 60, 's')]
  }

  lemma QuotientsTotal(s: int)
    requires s >= 0
    ensures Total(Quotients(s)) == s
  {
    var four := Quotients(s);
    assert four[3..][1..] == [];
    assert Total(four[3..]) == s % 60;
    assert four[2..][1..] == four[3..] && four[1..][1..] == four[2..];
    assert Total(four[2..]) == s % 3600 / 60 * 60 + s % 60;
    assert Total(four[1..]) == s % 86400 / 3600 * 3600 + Total(four[2..]);
    ModMod(s);
    assert s % 3600 == 60 * (s % 3600 / 60) + s % 60;
    assert s % 86400 == 3600 * (s % 86400 / 3600) + s % 3600;
    assert s == 86400 * (s / 86400) + s % 86400;
  }

  /** What `get_readable_time` lists: components in the order d, h, m, s, none
      of them zero, hours below 24, minutes and seconds below 60, nothing at all
      below one second, and for a non-negative count the components add back
      up to the count. */
  lemma ReadableTimeComponents(seconds: int)
    ensures var cs := Components(seconds, Periods);
      && UnitsAscending(cs)
      && (forall c :: c in cs ==> c.value > 0)
      && (forall c :: c in cs && c.unit == 'h' ==> c.value < 24)
      && (forall c :: c in cs && c.unit in "ms" ==> c.value < 60)
      && (seconds < 1 <==> cs == [])
      && (seconds >= 0 ==> Total(cs) == seconds)
  {
    if seconds < 0 {
      NothingBelowOne(seconds, Periods);
    } else {
      var cs := Components(seconds, Periods);
      var nz := NonZero(Quotients(seconds));
      TimeClosedForm(seconds);
      assert cs == nz;
      QuotientFacts(seconds);
      assert UnitsAscending(nz);
      assert UnitsAscending(cs);
      if seconds == 0 { NothingBelowOne(seconds, Periods); }
    }
  }

  lemma QuotientFacts(s: int)
    requires s >= 0
    ensures var cs := NonZero(Quotients(s));
      && UnitsAscending(cs)
      && (forall c :: c in cs ==> c.value > 0)
      && (forall c :: c in cs && c.unit == 'h' ==> c.value < 24)
      && (forall c :: c in cs && c.unit in "ms" ==> c.value < 60)
      && (cs == [] ==> s == 0)
      && Total(cs) == s
  {
    var four := Quotients(s);
    assert UnitsAscending(NonZero(four)) by {
      assert UnitsAscending(four);
      NonZeroAscending(four);
    }
    NonZeroTotal(four);
    QuotientsTotal(s);
    QuotientLimits(s);
  }

  /** Hours stay below 24, minutes and seconds below 60. */
  lemma QuotientLimits(s: int)
    requires s >= 0
    ensures var cs := NonZero(Quotients(s));
      && (forall c :: c in cs && c.unit == 'h' ==> c.value < 24)
      && (forall c :: c in cs && c.unit in "ms" ==> c.value < 60)
  {
    var four := Quotients(s);
    var cs := NonZero(four);
    assert four[1].value < 24 by {
      DivBelow(s % 86400, 3600, 24);
    }
    assert four[2].value < 60 by {
      DivBelow(s % 3600, 60, 60);
    }
    forall c | c in cs && c.unit == 'h' ensures c.value < 24 {
      assert c in four;
      assert c == four[1];
    }
    forall c | c in cs && c.unit in "ms" ensures c.value < 60 {
      assert c in four;
      assert c == four[2] || c == four[3];
    }
  }

  /** With less than one second left, no period is long enough. */
  lemma {:induction false} NothingBelowOne(seconds: int, periods: seq<Period>)
    requires PositivePeriods(periods)
    requires seconds < 1
    ensures Components(seconds, periods) == []
  {
    if periods != [] { NothingBelowOne(seconds, periods[1..]); }
  }

  /** Below one second, including zero and negative counts, the text is `0s`. */
  lemma ReadableTimeBelowOne(seconds: int)
    requires seconds < 1
    ensures TimeText(seconds) == "0s"
  {
    NothingBelowOne(seconds, Periods);
  }

  // ---------------------------------------------------------------------------
  // get_readable_file_size / get_human_readable_size
  // ---------------------------------------------------------------------------

  const SizeUnits: seq<string> := ["B", "KB", "MB", "GB", "TB", "PB"]

  function Pow1024(k: nat): (r: nat)
    ensures r >= 1
    ensures k >= 1 ==> r >= 1024
  {
    if k == 0 then 1 else 1024 * Pow1024(k - 1)
  }

  lemma {:induction false} Pow1024Increasing(i: nat, j: nat)
    requires i < j
    ensures Pow1024(i) < Pow1024(j)
    decreases j
  {
    if i < j - 1 { Pow1024Increasing(i, j - 1); }
  }

  /** The index the while loop stops at, starting from index `k`: it divides
      again while the scaled size is at least 1024 (the size at least
      1024^(k+1)) and a larger unit exists. */
  function UnitIndexFrom(size: int, k: nat): (r: nat)
    requires k <= 5
    ensures k <= r <= 5
    ensures r == k || size >= Pow1024(r)
    decreases 5 - k
  {
    if k < 5 && size >= Pow1024(k + 1) then UnitIndexFrom(size, k + 1) else k
  }

  function UnitIndex(size: int): nat
  {
    UnitIndexFrom(size, 0)
  }

  /** The unit index is the largest k <= 5 with size >= 1024^k (and 0 when
      there is none), so a size of 1024^5 or more stays in PB. */
  lemma UnitIndexIsLargest(size: int)
    ensures var k := UnitIndex(size);
      && k <= 5
      && (k == 0 || size >= Pow1024(k))
      && (forall j :: k < j <= 5 ==> size < Pow1024(j))
  {
    UnitIndexStops(size, 0);
    var k := UnitIndex(size);
    forall j | k < j <= 5 ensures size < Pow1024(j) {
      if j > k + 1 { Pow1024Increasing(k + 1, j); }
    }
  }

  lemma {:induction false} UnitIndexStops(size: int, k: nat)
    requires k <= 5
    ensures var r := UnitIndexFrom(size, k); r == 5 || size < Pow1024(r + 1)
    decreases 5 - k
  {
    if k < 5 && size >= Pow1024(k + 1) { UnitIndexStops(size, k + 1); }
  }

  /** The text `get_readable_file_size` returns: the scaled size is
      size / 1024^k, printed by `:.2f` rounded to hundredths, halves to even.
      (For a size below 2^53 the float divisions by 1024 are exact.) */
  function FileSizeText(size: Option<int>): string
  {
    match size
    case None => "0B"
    case Some(n) =>
      var k := UnitIndex(n);
      if k == 0 then IntStr(n) + "B"
      else
        var h := RoundHalfEven(n * 100, Pow1024(k));
        NatStr(h / 100) + "." + TwoDigits(h % 100) + SizeUnits[k]
  }

  /** `get_readable_file_size`: divides by 1024 while the size is at least
      1024 and a larger unit exists. The scaled size `n / scale` is at least
      1024 exactly when `n >= scale * 1024`. */
  method ReadableFileSize(size: Option<int>) returns (text: string)
    ensures text == FileSizeText(size)
  {
    if size == None {
      return "0B";
    }
    var n := size.value;
    var index := 0;
    var scale := 1;
    while n >= scale * 1024 && index < |SizeUnits| - 1
      invariant 0 <= index <= 5
      invariant scale == Pow1024(index)
      invariant UnitIndexFrom(n, index) == UnitIndex(n)
    {
      scale := scale * 1024;
      index := index + 1;
    }
    if index > 0 {
      var h := RoundHalfEven(n * 100, scale);
      text := NatStr(h / 100) + "." + TwoDigits(h % 100) + SizeUnits[index];
    } else {
      text := IntStr(n) + "B";
    }
  }

  /** `get_human_readable_size`: the same text as `get_readable_file_size`. */
  method HumanReadableSize(size: Option<int>) returns (text: string)
    ensures text == FileSizeText(size)
  {
    text := ReadableFileSize(size);
  }

  /** What the size text says: `0B` for no size; below 1024 (and for negative
      counts) the integer count and `B` with no decimals; otherwise the value
      in the unit of the largest power 1024^k (k <= 5) not above the size,
      printed to two decimals within half a hundredth of size / 1024^k. */
  lemma FileSizeTextMeaning(size: Option<int>)
    ensures size == None ==> FileSizeText(size) == "0B"
    ensures size.Some? && size.value < 1024 ==> FileSizeText(size) == IntStr(size.value) + "B"
    ensures size.Some? && size.value >= 1024 ==>
      var n, k := size.value, UnitIndex(size.value);
      && 1 <= k <= 5
      && Pow1024(k) <= n
      && (k < 5 ==> n < Pow1024(k + 1))
      && exists h: nat ::
           && 2 * (h * Pow1024(k) - 100 * n) <= Pow1024(k)
           && 2 * (100 * n - h * Pow1024(k)) <= Pow1024(k)
           && FileSizeText(size) == NatStr(h / 100) + "." + TwoDigits(h % 100) + SizeUnits[k]
  {
    if size.Some? {
      var n := size.value;
      UnitIndexIsLargest(n);
      if n >= 1024 {
        var k := UnitIndex(n);
        assert Pow1024(1) == 1024;
        var h := RoundHalfEven(n * 100, Pow1024(k));
        assert FileSizeText(size) == NatStr(h / 100) + "." + TwoDigits(h % 100) + SizeUnits[k];
      }
    }
  }

  // ---------------------------------------------------------------------------
  // get_progress_bar
  // ---------------------------------------------------------------------------

  const FilledCell: char := '\U{2588}'
  const EmptyCell: char := '\U{2591}'

  /** Python's `int(x)` on a float: truncation toward zero. */
  function Trunc(x: real): int
  {
    if x >= 0.0 then x.Floor else -((-x).Floor)
  }

  /** One turn of the loop of `get_readable_time`, on the components. */
  lemma WalkStep(listed: seq<Component>, rest: int, k: nat)
    requires k < |Periods|
    ensures rest >= Periods[k].length ==>
      listed + Components(rest, Periods[k..]) ==
      (listed + [Component(rest / Periods[k].length, Periods[k].unit)]) + Components(rest % Periods[k].length, Periods[k + 1..])
    ensures rest < Periods[k].length ==>
      listed + Components(rest, Periods[k..]) == listed + Components(rest, Periods[k + 1..])
  {
    ComponentsStep(rest, Periods[k..]);
    assert Periods[k..][1..] == Periods[k + 1..];
  }

  lemma RenderAppend(listed: seq<Component>, c: Component)
    ensures Render(listed + [c]) == Render(listed) + [Show(c)]
  {
  }

  /** `get_progress_bar`: `int(length * progress)` filled cells, then empty
      cells up to `length` (a negative count repeats nothing). */
  function ProgressBar(progress: real, length: int): string
  {
    var filled := Trunc(length as real * progress);
    Repeat(FilledCell, filled) + Repeat(EmptyCell, length - filled)
  }

  /** For a progress in [0, 1] the bar is exactly `length` cells:
      floor(length * progress) filled cells followed by empty ones. */
  lemma ProgressBarShape(progress: real, length: nat)
    requires 0.0 <= progress <= 1.0
    ensures var bar, f := ProgressBar(progress, length), (length as real * progress).Floor;
      && 0 <= f <= length
      && |bar| == length
      && (forall i :: 0 <= i < f ==> bar[i] == FilledCell)
      && (forall i :: f <= i < length ==> bar[i] == EmptyCell)
  {
    ScaleBounds(length as real, progress);
  }

  /** A fraction of a non-negative amount lies between 0 and the amount. */
  lemma ScaleBounds(a: real, p: real)
    requires a >= 0.0 && 0.0 <= p <= 1.0
    ensures 0.0 <= a * p <= a
  {
    RealMulMonotone(a, 0.0, p);
    RealMulMonotone(a, p, 1.0);
    assert a * 0.0 == 0.0 && a * 1.0 == a;
  }

  lemma RealMulMonotone(a: real, x: real, y: real)
    requires a >= 0.0 && x <= y
    ensures a * x <= a * y
  {
  }

  /** More progress never shows fewer filled cells. */
  lemma ProgressBarMonotone(p: real, q: real, length: nat)
    requires 0.0 <= p <= q <= 1.0
    ensures (length as real * p).Floor <= (length as real * q).Floor
  {
    RealMulMonotone(length as real, p, q);
  }
}
