/**
 * The fasting timer card: the seconds elapsed and planned, the progress fed to the
 * bar and the texts each variant shows, all derived from the session's start and
 * planned end (milliseconds, `undefined` or 0 meaning absent) and the card's clock.
 */
module Timer {
  import opened Wrappers
  import opened JsText
  import opened Utils

  datatype Variant = Active | Paused | Completed

  /** A timestamp prop is used only when it is present and non-zero. */
  predicate Truthy(t: Option<int>) {
    t.Some? && t.value != 0
  }

  /** Whole seconds from the start to the card's clock, rounded down; 0 without a start. */
  function Elapsed(startTime: Option<int>, currentTime: int): (e: int)
    ensures !Truthy(startTime) ==> e == 0
    ensures Truthy(startTime) ==>
      e * 1000 <= currentTime - startTime.value < e * 1000 + 1000
  {
    if Truthy(startTime) then (currentTime - startTime.value) / 1000 else 0
  }

  /** Whole seconds from the start to the planned end, rounded down; 0 unless both are set. */
  function Total(startTime: Option<int>, endTime: Option<int>): (t: int)
    ensures !(Truthy(startTime) && Truthy(endTime)) ==> t == 0
    ensures Truthy(startTime) && Truthy(endTime) ==>
      t * 1000 <= endTime.value - startTime.value < t * 1000 + 1000
  {
    if Truthy(startTime) && Truthy(endTime) then (endTime.value - startTime.value) / 1000 else 0
  }

  /** The bar's value: 0 for an empty plan, otherwise the clamped share of the plan elapsed. */
  function Progress(elapsed: int, total: int): (p: real)
    ensures 0.0 <= p <= 100.0
    ensures total <= 0 || elapsed <= 0 ==> p == 0.0
    ensures 0 < total <= elapsed ==> p == 100.0
    ensures 0 < elapsed < total ==> p * total as real == elapsed as real * 100.0
  {
    if total > 0 then CalculateProgress(0.0, elapsed as real, total as real) else 0.0
  }

  /** The bar never moves back while the clock advances. */
  lemma ProgressMonotoneInElapsed(e1: int, e2: int, total: int)
    requires e1 <= e2
    ensures Progress(e1, total) <= Progress(e2, total)
  {
    if total > 0 {
      ProgressMonotone(0.0, e1 as real, e2 as real, total as real);
    }
  }

  /** The planned length in the caption: whole minutes of the plan, or "0m" for an empty plan. */
  function PlannedLabel(total: int): (r: string)
    ensures total <= 0 ==> r == "0m"
    ensures total > 0 ==> ParseDuration(r) == Some(total / 60)
  {
    if total > 0 then
      FormatDurationRoundTrip(total / 60);
      FormatDuration(total / 60)
    else "0m"
  }

  /** What the card shows: the clock text, the caption under it and the bar value. */
  datatype View = View(clock: string, caption: string, bar: real)

  /**
   * The card for a variant. The clock shows `ShownElapsed`, the corrected elapsed
   * count; `Elapsed` is what the component computes.
   */
  function TimerView(variant: Variant, startTime: Option<int>, endTime: Option<int>, currentTime: int): (v: View)
    ensures 0.0 <= v.bar <= 100.0
    ensures variant == Completed ==> v.bar == 100.0
    ensures variant != Completed ==>
      v.bar == Progress(ShownElapsed(startTime, currentTime), Total(startTime, endTime))
  {
    var elapsed := ShownElapsed(startTime, currentTime);
    var total := Total(startTime, endTime);
    match variant
    case Active =>
      View(FormatTime(elapsed), "Fasting • " + PlannedLabel(total) + " planned", Progress(elapsed, total))
    case Paused =>
      View(FormatTime(elapsed), "Paused • " + PlannedLabel(total) + " planned", Progress(elapsed, total))
    case Completed =>
      View("✨ " + FormatTime(elapsed), "Fast completed!", 100.0)
  }

  /**
   * The running and paused clocks read back as the clamped elapsed count; whenever
   * the raw count is not negative they show exactly the clock the component prints.
   */
  lemma ClockReadsBack(variant: Variant, startTime: Option<int>, endTime: Option<int>, currentTime: int)
    requires variant != Completed
    ensures ParseClock(TimerView(variant, startTime, endTime, currentTime).clock)
            == Some(ShownElapsed(startTime, currentTime))
    ensures Elapsed(startTime, currentTime) >= 0 ==>
            TimerView(variant, startTime, endTime, currentTime).clock == FormatTime(Elapsed(startTime, currentTime))
  {
    FormatTimeRoundTrip(ShownElapsed(startTime, currentTime));
  }

  // ---- The clock just after a start ----

  /**
   * As written, the card's clock is refreshed once a second, so right after Start
   * the session's start time can be up to a second later than the card's clock:
   * the elapsed count is then -1 and the clock reads "-1:-1".
   */
  lemma ElapsedBeforeStart(start: int, currentTime: int)
    requires start != 0 && currentTime < start <= currentTime + 1000
    ensures Elapsed(Some(start), currentTime) == -1
    ensures FormatTime(Elapsed(Some(start), currentTime)) == "-1:-1"
    ensures ParseClock(FormatTime(Elapsed(Some(start), currentTime))).None?
  {
    assert Elapsed(Some(start), currentTime) == -1;
    FormatTimeMinusOne();
    ParseClockMinusOne();
  }

  lemma FormatTimeMinusOne()
    ensures FormatTime(-1) == "-1:-1"
  {
    assert JsRem(-1, 3600) / 60 == -1 && JsRem(-1, 60) == -1;
    assert IntToString(-1) == "-1";
  }

  lemma ParseClockMinusOne()
    ensures ParseClock("-1:-1").None?
  {
    assert "-1:-1" == "-1" + [':'] + "-1";
    SplitAt("-1", ':', "-1");
    SplitNoSep("-1", ':');
    assert !Canonical("-1");
  }

  /** The elapsed count as the clock is meant to show it: never below zero. */
  function ShownElapsed(startTime: Option<int>, currentTime: int): (e: nat)
    ensures Elapsed(startTime, currentTime) >= 0 ==> e == Elapsed(startTime, currentTime)
    ensures Elapsed(startTime, currentTime) < 0 ==> e == 0
  {
    var raw := Elapsed(startTime, currentTime);
    if raw < 0 then 0 else raw
  }

  /** With the correction, the clock right after a start reads "0:00". */
  lemma ShownElapsedAtStart(start: int, currentTime: int)
    requires start != 0 && currentTime < start
    ensures FormatTime(ShownElapsed(Some(start), currentTime)) == "0:00"
  {
    assert ShownElapsed(Some(start), currentTime) == 0;
    assert FormatTime(0) == "0:00";
  }
}
