/**
 * The four-step onboarding wizard: a welcome page, basic information (age, weight,
 * gender), a goal, and a sleep schedule. Each step has its own guard on the Next
 * button; Next on the last step hands the collected answers over.
 */
module Onboarding {
  import opened Wrappers
  import opened JsText

  /** The answers collected so far; a field is `None` until it is first edited. */
  datatype OnboardingData = OnboardingData(
    age: Option<ParsedInt>,
    gender: Option<string>,
    weight: Option<ParsedInt>,
    goal: Option<string>,
    wakeTime: Option<string>,
    sleepTime: Option<string>)

  const NoAnswers := OnboardingData(None, None, None, None, None, None)

  /** Welcome, Basic Info, Your Goal, Sleep Schedule. */
  const StepCount := 4
  const LastStep := StepCount - 1

  const Genders: set<string> := {"Male", "Female", "Other"}
  const Goals: set<string> := {"Weight Loss", "Energy Boost", "Gut Health", "General Health"}

  /** A number is truthy unless it is missing, `NaN` or 0. */
  predicate NumTruthy(n: Option<ParsedInt>) {
    n.Some? && n.value.Int? && n.value.value != 0
  }

  /** A string is truthy unless it is missing or empty. */
  predicate StrTruthy(s: Option<string>) {
    s.Some? && s.value != ""
  }

  /** The guard on the Next button of each step; no other step may proceed. */
  predicate CanProceed(step: int, data: OnboardingData) {
    if step == 0 then true
    else if step == 1 then NumTruthy(data.age) && NumTruthy(data.weight) && StrTruthy(data.gender)
    else if step == 2 then StrTruthy(data.goal)
    else if step == 3 then StrTruthy(data.wakeTime) && StrTruthy(data.sleepTime)
    else false
  }

  /** Every answer is present and truthy, as the completion handler reads them. */
  predicate Filled(data: OnboardingData) {
    && NumTruthy(data.age) && NumTruthy(data.weight) && StrTruthy(data.gender)
    && StrTruthy(data.goal) && StrTruthy(data.wakeTime) && StrTruthy(data.sleepTime)
  }

  /** The answers are complete exactly when they pass the guard of every question step. */
  lemma FilledIffAllGuards(data: OnboardingData)
    ensures Filled(data) <==> forall step :: 1 <= step <= LastStep ==> CanProceed(step, data)
  {
    if forall step :: 1 <= step <= LastStep ==> CanProceed(step, data) {
      assert CanProceed(1, data) && CanProceed(2, data) && CanProceed(3, data);
    }
  }

  /** Progress dot `i` is filled exactly when `i <= step`. */
  function Dots(step: int): (dots: seq<bool>)
    ensures |dots| == StepCount
    ensures forall i :: 0 <= i < StepCount ==> (dots[i] <==> i <= step)
  {
    seq(StepCount, i => i <= step)
  }

  /** The Next button reads "Complete" only on the last step. */
  function ButtonLabel(step: int): (caption: string)
    ensures caption == "Complete" <==> step == LastStep
    ensures caption == "Next" <==> step != LastStep
  {
    if step == LastStep then "Complete" else "Next"
  }

  class Wizard {
    var step: int
    var data: OnboardingData

    /**
     * The step stays in 0..3, and the answers of every step already passed still
     * satisfy its guard: they can only be edited on their own step, and Next leaves
     * a step only when its guard holds.
     */
    predicate Valid()
      reads this
    {
      && 0 <= step <= LastStep
      && (step >= 2 ==> CanProceed(1, data))
      && (step >= 3 ==> CanProceed(2, data))
    }

    constructor()
      ensures Valid() && step == 0 && data == NoAnswers
    {
      step := 0;
      data := NoAnswers;
    }

    /**
     * Next, enabled only when the current step's guard holds: before the last step
     * it moves on by one; on the last step it keeps the step and hands over the
     * answers, which are then all filled in.
     */
    method Next() returns (completed: Option<OnboardingData>)
      requires Valid() && CanProceed(step, data)
      modifies this
      ensures Valid() && data == old(data)
      ensures old(step) < LastStep ==> step == old(step) + 1 && completed.None?
      ensures old(step) == LastStep ==> step == old(step) && completed == Some(data)
      ensures completed.Some? ==> Filled(completed.value)
    {
      if step < StepCount - 1 {
        step := step + 1;
        completed := None;
      } else {
        completed := Some(data);
      }
    }

    /** Back, shown only after the first step, goes back one step. */
    method Back()
      requires Valid() && step > 0
      modifies this
      ensures Valid() && step == old(step) - 1 && data == old(data)
    {
      step := step - 1;
    }

    /** The age box on the basic-info step stores `parseInt` of its text. */
    method SetAge(text: string)
      requires Valid() && step == 1
      modifies this
      ensures Valid() && step == old(step)
      ensures data == old(data).(age := Some(ParseInt(text)))
    {
      data := data.(age := Some(ParseInt(text)));
    }

    /** The weight box on the basic-info step stores `parseInt` of its text. */
    method SetWeight(text: string)
      requires Valid() && step == 1
      modifies this
      ensures Valid() && step == old(step)
      ensures data == old(data).(weight := Some(ParseInt(text)))
    {
      data := data.(weight := Some(ParseInt(text)));
    }

    /** One of the three gender buttons on the basic-info step. */
    method SetGender(gender: string)
      requires Valid() && step == 1 && gender in Genders
      modifies this
      ensures Valid() && step == old(step)
      ensures data == old(data).(gender := Some(gender))
    {
      data := data.(gender := Some(gender));
    }

    /** One of the four goal buttons on the goal step. */
    method SetGoal(goal: string)
      requires Valid() && step == 2 && goal in Goals
      modifies this
      ensures Valid() && step == old(step)
      ensures data == old(data).(goal := Some(goal))
    {
      data := data.(goal := Some(goal));
    }

    /** The wake-time box on the schedule step stores its text as it is. */
    method SetWakeTime(text: string)
      requires Valid() && step == 3
      modifies this
      ensures Valid() && step == old(step)
      ensures data == old(data).(wakeTime := Some(text))
    {
      data := data.(wakeTime := Some(text));
    }

    /** The sleep-time box on the schedule step stores its text as it is. */
    method SetSleepTime(text: string)
      requires Valid() && step == 3
      modifies this
      ensures Valid() && step == old(step)
      ensures data == old(data).(sleepTime := Some(text))
    {
      data := data.(sleepTime := Some(text));
    }
  }

  /** An age cleared to the empty string reads as `NaN` and blocks the basic-info step. */
  lemma ClearedAgeBlocks(data: OnboardingData)
    requires data.age == Some(ParseInt(""))
    ensures !CanProceed(1, data)
  {
  }

  /** An age of 0 blocks the basic-info step too. */
  lemma ZeroAgeBlocks(data: OnboardingData, text: string)
    requires text == "0" && data.age == Some(ParseInt(text))
    ensures !CanProceed(1, data)
  {
    ParseIntOfDigits(text);
    assert ParseNat(text) == 0;
  }
}
