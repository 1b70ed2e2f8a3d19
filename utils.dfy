/**
 * Display helpers of lib/utils.ts: a seconds count as a clock string, a minutes
 * count as an hours-and-minutes string, and a clamped percentage of progress.
 * Each formatter is paired with a strict parser of its output, which is proved
 * to read back every non-negative count the formatter prints; printing what was
 * parsed is not proved to give the parsed text back.
 */
module Utils {
  import opened Wrappers
  import opened JsText

  /** `n.toString().padStart(2, '0')`. */
  function Pad2(n: int): string {
    PadStart(IntToString(n), 2, '0')
  }

  /**
   * formatTime: `H:MM:SS` when there is at least one whole hour, otherwise
   * `M:SS`. Division is `Math.floor`, remainder is JavaScript's `%`.
   */
  function FormatTime(seconds: int): string {
    var hours := seconds / 3600;
    var minutes := JsRem(seconds, 3600) / 60;
    var secs := JsRem(seconds, 60);
    if hours > 0 then IntToString(hours) + ":" + Pad2(minutes) + ":" + Pad2(secs)
    else IntToString(minutes) + ":" + Pad2(secs)
  }

  /** formatDuration: `Hh Mm` when there is at least one whole hour, otherwise `Mm`. */
  function FormatDuration(minutes: int): string {
    var hours := minutes / 60;
    var mins := JsRem(minutes, 60);
    if hours > 0 then IntToString(hours) + "h " + IntToString(mins) + "m"
    else IntToString(mins) + "m"
  }

  /** calculateProgress: the share of the window [start, end] reached by `current`, in percent. */
  function CalculateProgress(start: real, current: real, end: real): (r: real)
    ensures 0.0 <= r <= 100.0
    ensures current <= start ==> r == 0.0
    ensures start < current && end <= current ==> r == 100.0
    ensures start < current < end ==> 0.0 < r < 100.0 && r * (end - start) == (current - start) * 100.0
  {
    if current <= start then 0.0
    else if current >= end then 100.0
    else ProgressRatio(start, current, end)
  }

  function ProgressRatio(start: real, current: real, end: real): (r: real)
    requires start < current < end
    ensures 0.0 < r < 100.0 && r * (end - start) == (current - start) * 100.0
  {
    RatioBelowOne(current - start, end - start);
    (current - start) / (end - start) * 100.0
  }

  lemma RatioBelowOne(x: real, w: real)
    requires 0.0 < x < w
    ensures x / w < 1.0
  {
    var q := x / w;
    assert q * w == x;
    if q >= 1.0 {
      assert false;
    }
  }

  /** For a fixed window the progress never decreases as time advances (degenerate windows included). */
  lemma ProgressMonotone(start: real, c1: real, c2: real, end: real)
    requires c1 <= c2
    ensures CalculateProgress(start, c1, end) <= CalculateProgress(start, c2, end)
  {
    if start < c1 <= c2 < end {
      var w := end - start;
      assert (c1 - start) / w <= (c2 - start) / w by {
        assert (c1 - start) / w * w == c1 - start;
        assert (c2 - start) / w * w == c2 - start;
      }
    }
  }

  /** A window with end <= start: 0 up to its start, 100 after it (the `<= start` test comes first). */
  lemma ProgressDegenerate(start: real, current: real, end: real)
    requires end <= start
    ensures CalculateProgress(start, current, end) == if current <= start then 0.0 else 100.0
  {
  }

  // ---- Reading the strings back ----

  predicate IsTwoDigits(s: string) {
    |s| == 2 && AllDigits(s)
  }

  /** Reads back FormatTime's output: `H:MM:SS` with H >= 1, or `M:SS` with M < 60, fields below 60. */
  function ParseClock(s: string): Option<nat> {
    var f := Split(s, ':');
    if |f| == 3 then ReadHms(f[0], f[1], f[2])
    else if |f| == 2 then ReadMs(f[0], f[1])
    else None
  }

  function ReadHms(h: string, m: string, s: string): Option<nat> {
    if Canonical(h) && ParseNat(h) > 0 && IsTwoDigits(m) && IsTwoDigits(s) && ParseNat(m) < 60 && ParseNat(s) < 60
    then Some(3600 * ParseNat(h) + 60 * ParseNat(m) + ParseNat(s))
    else None
  }

  function ReadMs(m: string, s: string): Option<nat> {
    if Canonical(m) && ParseNat(m) < 60 && IsTwoDigits(s) && ParseNat(s) < 60
    then Some(60 * ParseNat(m) + ParseNat(s))
    else None
  }

  /** Reads back FormatDuration's output: `Hh Mm` with H >= 1, or `Mm`, minutes below 60. */
  function ParseDuration(s: string): Option<nat> {
    if |s| == 0 || s[|s| - 1] != 'm' then None
    else ReadHoursMins(Split(s[..|s| - 1], 'h'))
  }

  /** The text before the final `m`, cut at `h`: minutes alone, or hours then a space and minutes. */
  function ReadHoursMins(f: seq<string>): Option<nat> {
    if |f| == 1 && Canonical(f[0]) && ParseNat(f[0]) < 60 then Some(ParseNat(f[0]))
    else if |f| == 2 && Canonical(f[0]) && f[0] != "0" && |f[1]| >= 1 && f[1][0] == ' '
            && Canonical(f[1][1..]) && ParseNat(f[1][1..]) < 60
    then Some(60 * ParseNat(f[0]) + ParseNat(f[1][1..]))
    else None
  }

  // ---- Properties of FormatTime ----

  lemma ModOfMod(n: nat)
    ensures (n % 3600) % 60 == n % 60
  {
    var q, r := n / 3600, n % 3600;
    assert n == 3600 * q + r;
    var q2, r2 := r / 60, r % 60;
    assert r == 60 * q2 + r2;
    RemainderOf60(n, 60 * q + q2, r2);
  }

  lemma RemainderOf60(n: nat, q: int, r: int)
    requires n == 60 * q + r && 0 <= r < 60
    ensures n % 60 == r
  {
  }

  /** The three fields formatTime computes from a non-negative count decompose it. */
  lemma FormatTimeFields(n: nat)
    ensures var h, m, s := n / 3600, JsRem(n, 3600) / 60, JsRem(n, 60);
      0 <= m < 60 && 0 <= s < 60 && n == 3600 * h + 60 * m + s
  {
    ModOfMod(n);
  }

  /**
   * The shape of formatTime's output for a non-negative count: `H:MM:SS` from one hour
   * on, `M:SS` below, where MM and SS are always exactly two digits.
   */
  lemma FormatTimeShape(n: nat)
    ensures var h, m, s := n / 3600, JsRem(n, 3600) / 60, JsRem(n, 60);
      && |Pad2(m)| == 2 && AllDigits(Pad2(m)) && ParseNat(Pad2(m)) == m
      && |Pad2(s)| == 2 && AllDigits(Pad2(s)) && ParseNat(Pad2(s)) == s
      && FormatTime(n) == if h > 0 then NatToString(h) + ":" + Pad2(m) + ":" + Pad2(s)
                          else NatToString(m) + ":" + Pad2(s)
  {
    FormatTimeFields(n);
    TwoDigits(JsRem(n, 3600) / 60);
    TwoDigits(JsRem(n, 60));
  }

  /** A digit string, as the fields of a clock string are, never contains `sep` unless it is a digit. */
  lemma DigitsLackSep(d: string, sep: char)
    requires AllDigits(d) && !IsDigit(sep)
    ensures sep !in d
  {
    assert forall k :: 0 <= k < |d| ==> IsDigit(d[k]);
  }

  lemma SplitLongClock(a: string, b: string, c: string)
    requires AllDigits(a) && AllDigits(b) && AllDigits(c)
    ensures Split(a + ":" + b + ":" + c, ':') == [a, b, c]
  {
    DigitsLackSep(a, ':');
    DigitsLackSep(b, ':');
    DigitsLackSep(c, ':');
    assert a + ":" + b + ":" + c == a + [':'] + (b + [':'] + c);
    SplitAt(a, ':', b + [':'] + c);
    SplitAt(b, ':', c);
    SplitNoSep(c, ':');
  }

  lemma SplitShortClock(a: string, c: string)
    requires AllDigits(a) && AllDigits(c)
    ensures Split(a + ":" + c, ':') == [a, c]
  {
    DigitsLackSep(a, ':');
    DigitsLackSep(c, ':');
    assert a + ":" + c == a + [':'] + c;
    SplitAt(a, ':', c);
    SplitNoSep(c, ':');
  }

  /** A clock string built from hours >= 1 and two padded fields below 60 reads back as their total `n`. */
  lemma ReadLongClock(t: string, n: nat, h: nat, m: nat, s: nat)
    requires h > 0 && m < 60 && s < 60 && n == 3600 * h + 60 * m + s
    requires t == NatToString(h) + ":" + Pad2(m) + ":" + Pad2(s)
    ensures ParseClock(t) == Some(n)
  {
    TwoDigits(m);
    TwoDigits(s);
    ParseNatToString(h);
    ReadLongFields(t, NatToString(h), Pad2(m), Pad2(s), n, h, m, s);
  }

  lemma ReadLongFields(t: string, a: string, b: string, c: string, n: nat, h: nat, m: nat, s: nat)
    requires Canonical(a) && IsTwoDigits(b) && IsTwoDigits(c) && t == a + ":" + b + ":" + c
    requires ParseNat(a) == h > 0 && ParseNat(b) == m < 60 && ParseNat(c) == s < 60
    requires n == 3600 * h + 60 * m + s
    ensures ParseClock(t) == Some(n)
  {
    SplitLongClock(a, b, c);
    ReadHmsOf(a, b, c, n, h, m, s);
    ThreeFields(t, a, b, c);
  }

  lemma ReadHmsOf(a: string, b: string, c: string, n: nat, h: nat, m: nat, s: nat)
    requires Canonical(a) && IsTwoDigits(b) && IsTwoDigits(c)
    requires ParseNat(a) == h > 0 && ParseNat(b) == m < 60 && ParseNat(c) == s < 60
    requires n == 3600 * h + 60 * m + s
    ensures ReadHms(a, b, c) == Some(n)
  {
  }

  lemma ThreeFields(t: string, a: string, b: string, c: string)
    requires Split(t, ':') == [a, b, c]
    ensures ParseClock(t) == ReadHms(a, b, c)
  {
  }

  /** A clock string built from minutes below 60 and a padded field below 60 reads back as their total `n`. */
  lemma ReadShortClock(t: string, n: nat, m: nat, s: nat)
    requires m < 60 && s < 60 && n == 60 * m + s && t == NatToString(m) + ":" + Pad2(s)
    ensures ParseClock(t) == Some(n)
  {
    TwoDigits(s);
    ParseNatToString(m);
    ReadShortFields(t, NatToString(m), Pad2(s), n, m, s);
  }

  lemma ReadShortFields(t: string, a: string, c: string, n: nat, m: nat, s: nat)
    requires Canonical(a) && IsTwoDigits(c) && ParseNat(a) == m < 60 && ParseNat(c) == s < 60
    requires n == 60 * m + s && t == a + ":" + c
    ensures ParseClock(t) == Some(n)
  {
    SplitShortClock(a, c);
    ReadMsOf(a, c, n, m, s);
    TwoFields(t, a, c);
  }

  lemma ReadMsOf(a: string, c: string, n: nat, m: nat, s: nat)
    requires Canonical(a) && IsTwoDigits(c) && ParseNat(a) == m < 60 && ParseNat(c) == s < 60
    requires n == 60 * m + s
    ensures ReadMs(a, c) == Some(n)
  {
  }

  lemma TwoFields(t: string, a: string, c: string)
    requires Split(t, ':') == [a, c]
    ensures ParseClock(t) == ReadMs(a, c)
  {
  }

  /** Reading formatTime's output back gives the original count. */
  lemma FormatTimeRoundTrip(n: nat)
    ensures ParseClock(FormatTime(n)) == Some(n)
  {
    var h, m, s := ClockFields(n);
    if h > 0 {
      ReadLongClock(FormatTime(n), n, h, m, s);
    } else {
      ReadShortClock(FormatTime(n), n, m, s);
    }
  }

  lemma ClockFields(n: nat) returns (h: nat, m: nat, s: nat)
    ensures m < 60 && s < 60 && n == 3600 * h + 60 * m + s
    ensures h > 0 ==> FormatTime(n) == NatToString(h) + ":" + Pad2(m) + ":" + Pad2(s)
    ensures h == 0 ==> FormatTime(n) == NatToString(m) + ":" + Pad2(s)
  {
    FormatTimeFields(n);
    h, m, s := n / 3600, JsRem(n, 3600) / 60, JsRem(n, 60);
    if h > 0 {
      LongClockText(n, h, m, s);
    } else {
      ShortClockText(n, m, s);
    }
  }

  lemma LongClockText(n: nat, h: nat, m: nat, s: nat)
    requires h == n / 3600 && m == JsRem(n, 3600) / 60 && s == JsRem(n, 60) && h > 0
    ensures FormatTime(n) == NatToString(h) + ":" + Pad2(m) + ":" + Pad2(s)
  {
  }

  lemma ShortClockText(n: nat, m: nat, s: nat)
    requires n / 3600 == 0 && m == JsRem(n, 3600) / 60 && s == JsRem(n, 60)
    ensures FormatTime(n) == NatToString(m) + ":" + Pad2(s)
  {
  }

  /** ... and it is the only count with that output: formatTime is injective on counts >= 0. */
  lemma FormatTimeInjective(a: nat, b: nat)
    requires FormatTime(a) == FormatTime(b)
    ensures a == b
  {
    FormatTimeRoundTrip(a);
    FormatTimeRoundTrip(b);
  }

  // ---- Properties of FormatDuration ----

  /** For m >= 0: `"{m div 60}h {m mod 60}m"` from one hour on, `"{m}m"` below; the minutes part is below 60. */
  lemma FormatDurationShape(m: nat)
    ensures m >= 60 ==> FormatDuration(m) == NatToString(m / 60) + "h " + NatToString(m % 60) + "m"
    ensures m < 60 ==> FormatDuration(m) == NatToString(m) + "m"
    ensures JsRem(m, 60) < 60
  {
  }

  /** Reading formatDuration's output back gives the original count of minutes. */
  lemma FormatDurationRoundTrip(m: nat)
    ensures ParseDuration(FormatDuration(m)) == Some(m)
  {
    var h, mm := DurationFields(m);
    ParseNatToString(mm);
    if h > 0 {
      ParseNatToString(h);
      ReadHoursMinutes(FormatDuration(m), NatToString(h), NatToString(mm), m, h, mm);
    } else {
      ReadMinutes(FormatDuration(m), NatToString(mm), m);
    }
  }

  lemma DurationFields(m: nat) returns (h: nat, mm: nat)
    ensures mm < 60 && m == 60 * h + mm
    ensures h > 0 ==> FormatDuration(m) == NatToString(h) + "h " + NatToString(mm) + "m"
    ensures h == 0 ==> FormatDuration(m) == NatToString(mm) + "m"
  {
    FormatDurationShape(m);
    h, mm := m / 60, m % 60;
  }

  lemma ReadHoursMinutes(t: string, a: string, b: string, m: nat, h: nat, mm: nat)
    requires Canonical(a) && ParseNat(a) == h > 0 && Canonical(b) && ParseNat(b) == mm < 60
    requires m == 60 * h + mm && t == a + "h " + b + "m"
    ensures ParseDuration(t) == Some(m)
  {
    SplitHours(t, a, b);
    ReadHoursOf(a, b, m, h, mm);
  }

  lemma SplitHours(t: string, a: string, b: string)
    requires AllDigits(a) && AllDigits(b) && t == a + "h " + b + "m"
    ensures |t| >= 1 && t[|t| - 1] == 'm' && Split(t[..|t| - 1], 'h') == [a, " " + b]
  {
    DigitsLackSep(a, 'h');
    DigitsLackSep(b, 'h');
    assert t[..|t| - 1] == a + ['h'] + (" " + b);
    SplitAt(a, 'h', " " + b);
    assert 'h' !in " " + b;
    SplitNoSep(" " + b, 'h');
  }

  lemma ReadHoursOf(a: string, b: string, m: nat, h: nat, mm: nat)
    requires Canonical(a) && ParseNat(a) == h > 0 && Canonical(b) && ParseNat(b) == mm < 60
    requires m == 60 * h + mm
    ensures ReadHoursMins([a, " " + b]) == Some(m)
  {
    assert a != "0";
    assert (" " + b)[1..] == b;
  }

  lemma ReadMinutes(t: string, b: string, mm: nat)
    requires Canonical(b) && ParseNat(b) == mm < 60 && t == b + "m"
    ensures ParseDuration(t) == Some(mm)
  {
    DigitsLackSep(b, 'h');
    assert t[..|t| - 1] == b;
    SplitNoSep(b, 'h');
  }
}
