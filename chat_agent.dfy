/**
 * The coach chat's submit handler: it appends the user's message and reads a mood
 * and an energy level out of free text, with a keyword table scanned in order and
 * the first number in the text overriding the energy when it lies in 1..10.
 */
module Chat {
  import opened Wrappers
  import opened JsText

  /** The keyword table, in the order `Object.entries` visits it. */
  const Keywords: seq<(string, nat)> :=
    [("great", 9), ("good", 8), ("okay", 6), ("tired", 4), ("bad", 3), ("terrible", 2)]

  datatype Reading = Reading(mood: string, energy: int)

  /** What is reported when nothing in the text is recognised. */
  const Neutral := Reading("neutral", 5)

  /** Every mood the handler can report. */
  const Moods: set<string> := {"neutral", "great", "good", "okay", "tired", "bad", "terrible"}

  /** The reading from `table[i]`. */
  function EntryReading(table: seq<(string, nat)>, i: nat): Reading
    requires i < |table|
  {
    Reading(table[i].0, table[i].1)
  }

  /**
   * The reading after visiting `table` in order from `init`: every entry whose word
   * occurs in `lower` overwrites mood and energy.
   */
  function Scan(lower: string, table: seq<(string, nat)>, init: Reading): (r: Reading)
    ensures r == init || exists i :: 0 <= i < |table| && r == EntryReading(table, i)
    decreases |table|
  {
    if table == [] then init
    else
      var prev := Scan(lower, table[..|table| - 1], init);
      if Contains(lower, table[|table| - 1].0) then
        EntryReading(table, |table| - 1)
      else
        assert prev == init || exists i :: 0 <= i < |table| && prev == EntryReading(table, i) by {
          if prev != init {
            var i :| 0 <= i < |table| - 1 && prev == EntryReading(table[..|table| - 1], i);
            assert prev == EntryReading(table, i);
          }
        }
        prev
  }

  /** The word of `table[i]` occurs in `lower`. */
  predicate Hit(lower: string, table: seq<(string, nat)>, i: int)
    requires 0 <= i < |table|
  {
    Contains(lower, table[i].0)
  }

  /** The scan reports the last entry whose word occurs, and `init` when none does. */
  lemma {:induction false} ScanLastMatch(lower: string, table: seq<(string, nat)>, init: Reading)
    ensures (forall i :: 0 <= i < |table| ==> !Hit(lower, table, i)) ==> Scan(lower, table, init) == init
    ensures forall j :: 0 <= j < |table| && Hit(lower, table, j)
                     && (forall k :: j < k < |table| ==> !Hit(lower, table, k))
                     ==> Scan(lower, table, init) == EntryReading(table, j)
    decreases |table|
  {
    if table != [] {
      var front := table[..|table| - 1];
      ScanLastMatch(lower, front, init);
      forall i | 0 <= i < |front|
        ensures Hit(lower, front, i) == Hit(lower, table, i)
        ensures EntryReading(front, i) == EntryReading(table, i)
      {
      }
      var last := |table| - 1;
      forall j | 0 <= j < |table| && Hit(lower, table, j)
                 && (forall k :: j < k < |table| ==> !Hit(lower, table, k))
        ensures Scan(lower, table, init) == EntryReading(table, j)
      {
        if j < last {
          assert !Hit(lower, table, last);
          assert Hit(lower, front, j);
        }
      }
    }
  }

  /** The first run of digits overrides the energy when its value lies in 1..10. */
  function Override(content: string, r: Reading): (o: Reading)
    ensures o.mood == r.mood
    ensures o.energy == r.energy || 1 <= o.energy <= 10
    ensures FirstNumber(content).None? ==> o == r
    ensures FirstNumber(content).Some? && 1 <= ParseNat(FirstNumber(content).value) <= 10
            ==> o.energy == ParseNat(FirstNumber(content).value)
    ensures FirstNumber(content).Some? && !(1 <= ParseNat(FirstNumber(content).value) <= 10)
            ==> o == r
  {
    match FirstNumber(content)
    case None => r
    case Some(d) =>
      var level := ParseNat(d);
      if 1 <= level <= 10 then Reading(r.mood, level) else r
  }

  /** The mood and energy `handleSubmit` reports for `content`. */
  function Detect(content: string): (r: Reading)
    ensures r.mood in Moods
    ensures 1 <= r.energy <= 10
  {
    var scanned := Scan(ToLowerCase(content), Keywords, Neutral);
    assert scanned.mood in Moods && 1 <= scanned.energy <= 10 by {
      if scanned != Neutral {
        var i :| 0 <= i < |Keywords| && scanned == EntryReading(Keywords, i);
        assert i == 0 || i == 1 || i == 2 || i == 3 || i == 4 || i == 5;
      }
    }
    Override(content, scanned)
  }

  /** The keyword loop followed by the digit override, as the handler runs them. */
  method DetectMood(content: string) returns (mood: string, energy: int)
    ensures Reading(mood, energy) == Detect(content)
  {
    var lower := ToLowerCase(content);
    mood := "neutral";
    energy := 5;
    var i := 0;
    while i < |Keywords|
      invariant 0 <= i <= |Keywords|
      invariant Reading(mood, energy) == Scan(lower, Keywords[..i], Neutral)
    {
      var (word, level) := Keywords[i];
      if Contains(lower, word) {
        mood := word;
        energy := level;
      }
      assert Keywords[..i + 1][..i] == Keywords[..i];
      i := i + 1;
    }
    assert Keywords[..i] == Keywords;
    var numbers := FirstNumber(content);
    if numbers.Some? {
      var level := ParseNat(numbers.value);
      if 1 <= level <= 10 {
        energy := level;
      }
    }
  }

  /**
   * With no keyword in the text and no first number in 1..10, the reading is the
   * neutral default.
   */
  lemma DetectNeutral(content: string)
    requires forall i :: 0 <= i < |Keywords| ==> !Contains(ToLowerCase(content), Keywords[i].0)
    requires FirstNumber(content).Some? ==> !(1 <= ParseNat(FirstNumber(content).value) <= 10)
    ensures Detect(content) == Neutral
  {
    ScanLastMatch(ToLowerCase(content), Keywords, Neutral);
  }

  /** The reading is the last keyword that occurs, with the digit override applied on top. */
  lemma DetectLastKeyword(content: string, j: nat)
    requires j < |Keywords| && Hit(ToLowerCase(content), Keywords, j)
    requires forall k :: j < k < |Keywords| ==> !Hit(ToLowerCase(content), Keywords, k)
    ensures Detect(content) == Override(content, EntryReading(Keywords, j))
  {
    ScanLastMatch(ToLowerCase(content), Keywords, Neutral);
  }

  /** Without any digit in the text, the last keyword that occurs gives both mood and energy. */
  lemma DetectKeywordNoDigits(content: string, j: nat)
    requires j < |Keywords| && Hit(ToLowerCase(content), Keywords, j)
    requires forall k :: j < k < |Keywords| ==> !Hit(ToLowerCase(content), Keywords, k)
    requires NoDigits(content)
    ensures Detect(content) == EntryReading(Keywords, j)
  {
    DetectLastKeyword(content, j);
  }

  /**
   * With the first digits of the text at its very end, the last keyword gives the mood
   * and those digits give the energy when they lie in 1..10.
   */
  lemma DetectKeywordThenNumber(content: string, j: nat, text: string, d: string)
    requires j < |Keywords| && Hit(ToLowerCase(content), Keywords, j)
    requires forall k :: j < k < |Keywords| ==> !Hit(ToLowerCase(content), Keywords, k)
    requires content == text + d && NoDigits(text) && d != [] && AllDigits(d)
    ensures Detect(content).mood == Keywords[j].0
    ensures Detect(content).energy == if 1 <= ParseNat(d) <= 10 then ParseNat(d) else Keywords[j].1
  {
    FirstNumberSkip(text, d);
    assert d + [] == d;
    FirstNumberLeading(d, []);
    DetectLastKeyword(content, j);
  }

  // ---- Readings of particular texts ----
  //
  // The lemmas below state readings of concrete sentences. The helpers beside them
  // (the `...Words`, `...Digits`, `...Lower` and `Peel...` lemmas, `VoiceSampleChunks`,
  // `ContainsPieces` and the `Misses...` lemmas) model nothing of their own: they cut
  // each literal into short pieces so that the verifier never unfolds a long string
  // at once.

  /** A later matching keyword wins over an earlier one: "good but tired" reads as tired, 4. */
  lemma GoodButTired(s: string)
    requires s == "good but tired"
    ensures Detect(s) == Reading("tired", 4)
  {
    GoodButTiredWords(s);
    GoodButTiredDigits(s);
    DetectKeywordNoDigits(s, 3);
  }

  lemma GoodButTiredWords(s: string)
    requires s == "good but tired"
    ensures Hit(ToLowerCase(s), Keywords, 3)
    ensures forall k :: 3 < k < |Keywords| ==> !Hit(ToLowerCase(s), Keywords, k)
  {
    assert ToLowerCase(s) == s;
    assert MatchAt(s, "tired", 9);
    AbsentChar(s, "bad", 1);
    AbsentChar(s, "terrible", 6);
    forall k | 3 < k < |Keywords|
      ensures !Hit(s, Keywords, k)
    {
      assert k == 4 || k == 5;
    }
  }

  lemma GoodButTiredDigits(s: string)
    requires s == "good but tired"
    ensures NoDigits(s)
  {
  }

  /** A number above 10 is ignored: "11" reads as neutral, 5. */
  lemma Eleven(s: string)
    requires s == "11"
    ensures Detect(s) == Neutral
  {
    assert ToLowerCase(s) == s;
    forall i | 0 <= i < |Keywords|
      ensures !Contains(s, Keywords[i].0)
    {
      AbsentChar(s, Keywords[i].0, 0);
    }
    assert s == "11" + "";
    FirstNumberLeading("11", "");
    DetectNeutral(s);
  }

  /** Only the first number counts: "15 then 7" reads as neutral, 5. */
  lemma FifteenThenSeven(s: string)
    requires s == "15 then 7"
    ensures Detect(s) == Neutral
  {
    FifteenThenSevenWords(s);
    assert s == "15" + " then 7";
    FirstNumberLeading("15", " then 7");
    DetectNeutral(s);
  }

  lemma FifteenThenSevenWords(s: string)
    requires s == "15 then 7"
    ensures forall i :: 0 <= i < |Keywords| ==> !Contains(ToLowerCase(s), Keywords[i].0)
  {
    assert ToLowerCase(s) == s;
    AbsentChar(s, "great", 1);
    AbsentChar(s, "good", 1);
    AbsentChar(s, "okay", 0);
    AbsentChar(s, "tired", 1);
    AbsentChar(s, "bad", 0);
    AbsentChar(s, "terrible", 2);
  }

  /** Matching ignores case: "Feeling GOOD" reads as good, 8. */
  lemma FeelingGood(s: string)
    requires s == "Feeling GOOD"
    ensures Detect(s) == Reading("good", 8)
  {
    FeelingGoodWords(s);
    FeelingGoodDigits(s);
    DetectKeywordNoDigits(s, 1);
  }

  lemma FeelingGoodDigits(s: string)
    requires s == "Feeling GOOD"
    ensures NoDigits(s)
  {
  }

  lemma FeelingGoodWords(s: string)
    requires s == "Feeling GOOD"
    ensures forall k :: 1 < k < |Keywords| ==> !Hit(ToLowerCase(s), Keywords, k)
    ensures Hit(ToLowerCase(s), Keywords, 1)
  {
    var lower := "feeling good";
    assert ToLowerCase(s) == lower;
    assert MatchAt(lower, "good", 8);
    AbsentChar(lower, "okay", 1);
    AbsentChar(lower, "tired", 0);
    AbsentChar(lower, "bad", 0);
    AbsentChar(lower, "terrible", 0);
    forall k | 1 < k < |Keywords|
      ensures !Hit(lower, Keywords, k)
    {
      assert k == 2 || k == 3 || k == 4 || k == 5;
    }
  }

  /** The sentence the voice button submits reads as good, 7. */
  lemma VoiceSample(s: string)
    requires s == "I'm feeling good today, energy level around 7"
    ensures Detect(s) == Reading("good", 7)
  {
    var a, b, c, d := "I'm feeling", "good today,", "energy level", "around";
    VoiceSampleChunks(s, a, b, c, d);
    VoiceSampleWords(s, a, b, c, d);
    VoiceSampleDigits(a, b, c, d);
    DetectKeywordThenNumber(s, 1, a + " " + b + " " + c + " " + d + " ", "7");
  }

  lemma VoiceSampleChunks(s: string, a: string, b: string, c: string, d: string)
    requires s == "I'm feeling good today, energy level around 7"
    requires a == "I'm feeling" && b == "good today," && c == "energy level" && d == "around"
    ensures s == a + " " + b + " " + c + " " + d + " " + "7"
  {
    PeelSeven(s);
    PeelAround("I'm feeling good today, energy level around");
    PeelEnergy("I'm feeling good today, energy level");
    PeelGood("I'm feeling good today,");
  }

  lemma PeelSeven(x: string)
    requires x == "I'm feeling good today, energy level around 7"
    ensures x == "I'm feeling good today, energy level around" + " " + "7"
  {
  }

  lemma PeelAround(x: string)
    requires x == "I'm feeling good today, energy level around"
    ensures x == "I'm feeling good today, energy level" + " " + "around"
  {
  }

  lemma PeelEnergy(x: string)
    requires x == "I'm feeling good today, energy level"
    ensures x == "I'm feeling good today," + " " + "energy level"
  {
  }

  lemma PeelGood(x: string)
    requires x == "I'm feeling good today,"
    ensures x == "I'm feeling" + " " + "good today,"
  {
  }

  lemma VoiceSampleDigits(a: string, b: string, c: string, d: string)
    requires a == "I'm feeling" && b == "good today," && c == "energy level" && d == "around"
    ensures NoDigits(a + " " + b + " " + c + " " + d + " ")
  {
    assert NoDigits(a) && NoDigits(b) && NoDigits(c) && NoDigits(d) && NoDigits(" ");
    NoDigitsConcat(a, " ");
    NoDigitsConcat(a + " ", b);
    NoDigitsConcat(a + " " + b, " ");
    NoDigitsConcat(a + " " + b + " ", c);
    NoDigitsConcat(a + " " + b + " " + c, " ");
    NoDigitsConcat(a + " " + b + " " + c + " ", d);
    NoDigitsConcat(a + " " + b + " " + c + " " + d, " ");
  }

  lemma VoiceSampleWords(s: string, a: string, b: string, c: string, d: string)
    requires a == "I'm feeling" && b == "good today," && c == "energy level" && d == "around"
    requires s == a + " " + b + " " + c + " " + d + " " + "7"
    ensures Hit(ToLowerCase(s), Keywords, 1)
    ensures forall k :: 1 < k < |Keywords| ==> !Hit(ToLowerCase(s), Keywords, k)
  {
    var la := "i'm feeling";
    var lower := la + " " + b + " " + c + " " + d + " " + "7";
    VoiceSampleLower(s, a, b, c, d, la);
    MissesFeeling(la);
    MissesFeeling(c);
    MissesAround(d);
    MissesSeven("7");
    forall k | 1 <= k < |Keywords|
      ensures Hit(lower, Keywords, k) <==> Hit(b, Keywords, k)
    {
      var p := Keywords[k].0;
      assert k == 1 || k == 2 || k == 3 || k == 4 || k == 5;
      assert ' ' !in p;
      ContainsPieces(la, b, c, d, "7", p);
      assert !Hit(la, Keywords, k) && !Hit(c, Keywords, k) && !Hit(d, Keywords, k) && !Hit("7", Keywords, k);
    }
    VoiceSampleGood(b);
    forall k | 1 < k < |Keywords|
      ensures !Hit(lower, Keywords, k)
    {
      assert k == 2 || k == 3 || k == 4 || k == 5;
    }
  }

  lemma VoiceSampleLower(s: string, a: string, b: string, c: string, d: string, la: string)
    requires a == "I'm feeling" && b == "good today," && c == "energy level" && d == "around"
    requires la == "i'm feeling" && s == a + " " + b + " " + c + " " + d + " " + "7"
    ensures ToLowerCase(s) == la + " " + b + " " + c + " " + d + " " + "7"
  {
    assert ToLowerCase(a) == la;
    assert ToLowerCase(b) == b && ToLowerCase(c) == c && ToLowerCase(d) == d;
    assert ToLowerCase(" ") == " " && ToLowerCase("7") == "7";
    ToLowerCaseAppend(a, " ");
    ToLowerCaseAppend(a + " ", b);
    ToLowerCaseAppend(a + " " + b, " ");
    ToLowerCaseAppend(a + " " + b + " ", c);
    ToLowerCaseAppend(a + " " + b + " " + c, " ");
    ToLowerCaseAppend(a + " " + b + " " + c + " ", d);
    ToLowerCaseAppend(a + " " + b + " " + c + " " + d, " ");
    ToLowerCaseAppend(a + " " + b + " " + c + " " + d + " ", "7");
  }

  /** A pattern without a space occurs in space-separated pieces exactly when it occurs in one of them. */
  lemma ContainsPieces(p0: string, p1: string, p2: string, p3: string, p4: string, q: string)
    requires ' ' !in q
    ensures Contains(p0 + " " + p1 + " " + p2 + " " + p3 + " " + p4, q)
            <==> Contains(p0, q) || Contains(p1, q) || Contains(p2, q) || Contains(p3, q) || Contains(p4, q)
  {
    ContainsAcross(p0 + " " + p1 + " " + p2 + " " + p3, ' ', p4, q);
    ContainsAcross(p0 + " " + p1 + " " + p2, ' ', p3, q);
    ContainsAcross(p0 + " " + p1, ' ', p2, q);
    ContainsAcross(p0, ' ', p1, q);
  }

  /** A text without `k`, `t`, `b` and one of the letters of "good" holds none of the keywords from "good" on. */
  lemma LacksKeywords(x: string, g: nat)
    requires g < 4 && "good"[g] !in x && 'k' !in x && 't' !in x && 'b' !in x
    ensures forall k :: 1 <= k < |Keywords| ==> !Hit(x, Keywords, k)
  {
    AbsentChar(x, "good", g);
    AbsentChar(x, "okay", 1);
    AbsentChar(x, "tired", 0);
    AbsentChar(x, "bad", 0);
    AbsentChar(x, "terrible", 0);
    forall k | 1 <= k < |Keywords|
      ensures !Hit(x, Keywords, k)
    {
      assert k == 1 || k == 2 || k == 3 || k == 4 || k == 5;
    }
  }

  lemma MissesFeeling(x: string)
    requires x == "i'm feeling" || x == "energy level"
    ensures forall k :: 1 <= k < |Keywords| ==> !Hit(x, Keywords, k)
  {
    LacksKeywords(x, 1);
  }

  lemma MissesAround(x: string)
    requires x == "around"
    ensures forall k :: 1 <= k < |Keywords| ==> !Hit(x, Keywords, k)
  {
    LacksKeywords(x, 0);
  }

  lemma MissesSeven(x: string)
    requires x == "7"
    ensures forall k :: 1 <= k < |Keywords| ==> !Hit(x, Keywords, k)
  {
    LacksKeywords(x, 0);
  }

  lemma VoiceSampleGood(x: string)
    requires x == "good today,"
    ensures Hit(x, Keywords, 1)
    ensures forall k :: 1 < k < |Keywords| ==> !Hit(x, Keywords, k)
  {
    assert MatchAt(x, "good", 0);
    AbsentChar(x, "okay", 1);
    AbsentChar(x, "tired", 2);
    AbsentChar(x, "bad", 0);
    AbsentChar(x, "terrible", 5);
    forall k | 1 < k < |Keywords|
      ensures !Hit(x, Keywords, k)
    {
      assert k == 2 || k == 3 || k == 4 || k == 5;
    }
  }

  datatype Sender = User | Agent

  datatype Message = Message(id: string, sender: Sender, content: string, timestamp: int)

  /** What the handler passes to `onMoodSubmit`. */
  datatype MoodSubmission = MoodSubmission(mood: string, energy: int, notes: string)

  const Greeting: string :=
    "Hi! How are you feeling today? Share your mood and energy level (1-10), and I'll help adjust your fasting plan."

  class ChatAgent {
    var messages: seq<Message>
    var input: string

    /** The chat opens with the coach's greeting under id "1". */
    constructor(now: int)
      ensures messages == [Message("1", Agent, Greeting, now)] && input == ""
    {
      messages := [Message("1", Agent, Greeting, now)];
      input := "";
    }

    /**
     * Submitting blank text does nothing; anything else is appended as the user's
     * message under the clock reading as id, clears the input box and reports the
     * detected mood, energy and the raw text.
     */
    method HandleSubmit(content: string, now: int) returns (submitted: Option<MoodSubmission>)
      modifies this
      ensures Blank(content) ==> submitted.None? && messages == old(messages) && input == old(input)
      ensures !Blank(content) ==>
        && messages == old(messages) + [Message(IntToString(now), User, content, now)]
        && input == ""
        && submitted == Some(MoodSubmission(Detect(content).mood, Detect(content).energy, content))
    {
      var empty := TrimsToEmpty(content);
      if empty {
        return None;
      }
      messages := messages + [Message(IntToString(now), User, content, now)];
      input := "";
      var mood, energy := DetectMood(content);
      submitted := Some(MoodSubmission(mood, energy, content));
    }
  }
}
