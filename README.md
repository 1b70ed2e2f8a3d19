# FastFlow core in Dafny

FastFlow is a single-page intermittent-fasting and journal app. This project models
the few places where it applies rules rather than draws markup, and proves
properties of them:

- **Display helpers.** `formatTime` turns seconds into `H:MM:SS` or `M:SS`.
  `formatDuration` turns minutes into `Hh Mm` or `Mm`. `calculateProgress` is a
  clamped percentage.
- **Browser store.** `storage` holds one user record, a list of fasting sessions
  and a list of journal entries.
- **Home page handlers** that start and stop a fast, record a mood, choose the
  timer variant and build the "last ten, newest first" journal view.
- **Chat coach submit handler.** It finds a mood keyword and an energy number in
  free text.
- **Onboarding wizard.** Four steps, each with its own guard.
- **Timer card.** Elapsed and planned seconds, the progress bar and the captions.

## Modules

- `wrappers.dfy` (`Wrappers`): `Option`.
- `js_text.dfy` (`JsText`): the JavaScript built-ins the app relies on.
  - `toString` on integers, `padStart`, `parseInt`.
  - ASCII `toLowerCase`, `includes`, `trim`.
  - The first `/\d+/` match.
  - The truncating `%`. Dafny's `/` is Euclidean, so for a positive divisor it
    already equals `Math.floor` of the quotient.
  - `Split`, a field splitter used only by the read-back parsers of `Utils`;
    the app itself never splits a string.
- `utils.dfy` (`Utils`): the three helpers of `lib/utils.ts`. Each formatter has a
  strict parser of its output, and the parser is proved to read back every count
  >= 0 that the formatter prints. The other direction (printing what was parsed)
  is not proved.
- `storage.dfy` (`Storage`): the records of `lib/storage.ts` and the class `Store`.
  - `available` stands for `typeof window !== 'undefined'`.
  - JSON serialisation is the identity.
  - `Merge` is the object spread `{ ...s, ...u }`.
- `chat_agent.dfy` (`Chat`): the keyword scan as a loop, proved against the
  function `Detect`, plus the class `ChatAgent` with its message list.
  - `Keywords` is the keyword table of components/ChatAgent.tsx:53-60, in the
    source's order: great 9, good 8, okay 6, tired 4, bad 3, terrible 2.
- `onboarding_flow.dfy` (`Onboarding`): the class `Wizard`. Its invariant records
  that steps already passed still satisfy their guards.
- `timer_display.dfy` (`Timer`): the timer card's derivations.
- `page.dfy` (`Page`): the class `Home`, holding the page state and its `Store`.
  - `SessionsInv` is the session invariant.
  - Start and Stop are proved to preserve it.

The clock (`now`, `currentTime`), the wallet address and the generated fasting
plan are parameters. Ids are built from the clock, as in the source:
`session_<now>`, `entry_<now>`, `user_<now>`, and a user message's id is `<now>`.

### Where the code behaves differently from what one might expect

The model follows the code in both cases.

- **Degenerate progress window.** One might expect a window with `end <= start`
  to read as 100% at once. In the code (lib/utils.ts:30-31) the
  `current <= start` test comes first, so such a window gives 0 up to its start
  and 100 after it (`Utils.ProgressDegenerate`).
- **Malformed stored data.** One might expect a malformed record to read as
  absent.
  `getUser` (lib/storage.ts:44) calls `JSON.parse` without a guard. The model
  treats serialisation as the identity, so malformed data does not arise in it.

## Model

| member | source | states |
|---|---|---|
| JsText.NatToString | lib/utils.ts:14 | `toString` of a natural number is a canonical digit string, one digit long exactly below 10 |
| JsText.IntToString | app/page.tsx:75 | `toString` of an integer: the digits of its magnitude, after a minus sign when it is negative |
| JsText.PadStart | lib/utils.ts:14 | `padStart`: length max(length, width), the original text at the end, the fill character before it |
| JsText.NatToStringParse | lib/utils.ts:14 | a canonical digit string is what `toString` prints for its value |
| JsText.ParseNatToString | lib/utils.ts:14 | the digits `toString` prints for `n` read back as `n` |
| JsText.IntToStringInjective | app/page.tsx:75 | distinct integers print differently, so ids built from distinct clock readings differ |
| JsText.TwoDigits | lib/utils.ts:14 | `padStart(2, '0')` of a number below 100 is exactly two digits reading back as the number |
| JsText.JsRem | lib/utils.ts:10-11 | for a >= 0 the usual remainder below b, for a < 0 a value in (-b, 0] |
| JsText.JsRemTruncates | lib/utils.ts:10-11 | `%` truncates: for a < 0 the dividend is the remainder minus b times the quotient of -a by b |
| JsText.ToLowerCase | components/ChatAgent.tsx:66 | same length, each character lowered on its own (ASCII letters only) |
| JsText.Contains | components/ChatAgent.tsx:66 | `includes`: the pattern occurs at some position of the text; its meaning is proved in `JsText.ContainsAcross` and `JsText.AbsentChar` |
| JsText.ContainsAcross | components/ChatAgent.tsx:66 | `includes` of a pattern free of a character c holds in a + c + b exactly when it holds in a or in b |
| JsText.AbsentChar | components/ChatAgent.tsx:66 | a pattern cannot occur in a text lacking one of its characters |
| JsText.Trim | components/ChatAgent.tsx:39 | the trimmed text neither starts nor ends with white space, and it is empty exactly when every character is ECMAScript white space |
| JsText.TrimsToEmpty | components/ChatAgent.tsx:39 | the submit guard's `trim()` test is true exactly when every character is ECMAScript white space |
| JsText.ParseInt | components/OnboardingFlow.tsx:50 | `parseInt` is NaN exactly when no digit follows the leading white space and optional sign |
| JsText.ParseIntOfDigits | components/OnboardingFlow.tsx:50 | `parseInt` of a digit string is its decimal value |
| JsText.ParseIntOfText | components/OnboardingFlow.tsx:50 | white space, then a printed integer with its sign, then text not starting with a digit reads as that integer ("-5" is -5, "1e3" is 1) |
| JsText.ParseIntToString | components/OnboardingFlow.tsx:50 | `parseInt(i.toString())` is `i` for every integer |
| JsText.FirstNumber | components/ChatAgent.tsx:73-75 | the first `/\d+/` match is absent exactly when the text has no digit, and otherwise is the first maximal digit run |
| JsText.FirstNumberSkip | components/ChatAgent.tsx:73 | text without digits in front does not change the first number |
| JsText.FirstNumberLeading | components/ChatAgent.tsx:73 | a leading digit run ended by a non-digit is the first number |
| Utils.FormatTime | lib/utils.ts:8-17 | the clock text; its meaning is proved in `Utils.FormatTimeShape`, `Utils.FormatTimeRoundTrip` and `Utils.FormatTimeInjective` |
| Utils.Pad2 | lib/utils.ts:14 | `toString().padStart(2, '0')`; below 100 it is two digits reading back as the number, by `JsText.TwoDigits` |
| Utils.FormatTimeFields | lib/utils.ts:9-11 | for n >= 0 the hours, minutes and seconds satisfy n = 3600h + 60m + s with m, s < 60 |
| Utils.FormatTimeShape | lib/utils.ts:13-16 | `H:MM:SS` from one hour on and `M:SS` below, with MM and SS exactly two digits |
| Utils.FormatTimeRoundTrip | lib/utils.ts:8-17 | parsing the output of formatTime(n) gives back n for every n >= 0 |
| Utils.FormatTimeInjective | lib/utils.ts:8-17 | distinct counts give distinct clock strings |
| Utils.FormatDuration | lib/utils.ts:19-27 | the duration text; its meaning is proved in `Utils.FormatDurationShape` and `Utils.FormatDurationRoundTrip` |
| Utils.FormatDurationShape | lib/utils.ts:19-27 | `{m div 60}h {m mod 60}m` from 60 minutes on, `{m}m` below; the minutes part is below 60 |
| Utils.FormatDurationRoundTrip | lib/utils.ts:19-27 | parsing the output of formatDuration(m) gives back m for every m >= 0 |
| Utils.CalculateProgress | lib/utils.ts:29-33 | the result lies in [0,100]: 0 when current <= start, 100 when start < current and current >= end, else strictly between 0 and 100 and equal to (current-start)/(end-start)·100 |
| Utils.ProgressMonotone | lib/utils.ts:29-33 | for a fixed window the result never decreases as current grows |
| Utils.ProgressDegenerate | lib/utils.ts:30-31 | with end <= start the result is 0 up to start and 100 after it |
| Storage.Merge | lib/storage.ts:70 | each key the update carries wins and every other field is kept |
| Storage.MergeFull | lib/storage.ts:70 | spreading a whole session with end time and duration over an element yields that session |
| Storage.FindIndex | lib/storage.ts:68 | the first index satisfying the test, or -1 exactly when none does |
| Storage.Find | lib/storage.ts:90 | `find`: none exactly when no element satisfies the test, otherwise the element at the first index that does |
| Storage.FirstActive | lib/storage.ts:90 | none exactly when no session is active; otherwise the first active session |
| Storage.UpdateById | lib/storage.ts:65-73 | the list `updateFastingSession` writes back; its meaning is proved in `Storage.UpdateByIdFirstMatch` and `Storage.UpdateByIdNoMatch` |
| Storage.UpdateByIdFirstMatch | lib/storage.ts:65-73 | the first session with the id is merged with the update; length and every other element are unchanged |
| Storage.UpdateByIdNoMatch | lib/storage.ts:69-72 | an id matching no session leaves the list unchanged |
| Storage.Store.constructor | lib/storage.ts:40 | a fresh store has no user and two empty lists |
| Storage.Store.GetUser | lib/storage.ts:41-45 | the stored user, and null outside a browser |
| Storage.Store.SetUser | lib/storage.ts:47-50 | the user is replaced (so GetUser returns it); nothing else changes; a no-op outside a browser |
| Storage.Store.GetFastingSessions | lib/storage.ts:52-56 | the stored list, and the empty list outside a browser |
| Storage.Store.AddFastingSession | lib/storage.ts:58-63 | the list becomes the old list with the session appended; a no-op outside a browser |
| Storage.Store.UpdateFastingSession | lib/storage.ts:65-73 | the list becomes `UpdateById` of the old list; user and journal unchanged; a no-op outside a browser |
| Storage.Store.GetJournalEntries | lib/storage.ts:75-79 | the stored journal, and the empty list outside a browser |
| Storage.Store.AddJournalEntry | lib/storage.ts:81-86 | the journal becomes the old journal with the entry appended; a no-op outside a browser |
| Storage.Store.GetCurrentSession | lib/storage.ts:88-91 | the first active stored session, or null (always null outside a browser) |
| Storage.Store.ClearData | lib/storage.ts:93-98 | no user and both lists empty afterwards; a no-op outside a browser |
| Chat.Scan | components/ChatAgent.tsx:62-70 | the scan reports the default or one of the table's entries |
| Chat.ScanLastMatch | components/ChatAgent.tsx:65-70 | the last table entry whose word occurs wins; with none, the default stands |
| Chat.Override | components/ChatAgent.tsx:73-79 | the mood is kept; the energy becomes the first number's value exactly when it lies in 1..10 |
| Chat.Detect | components/ChatAgent.tsx:53-79 | the mood is one of the seven values and the energy lies in 1..10 |
| Chat.DetectMood | components/ChatAgent.tsx:62-79 | the keyword loop followed by the digit override computes `Detect` |
| Chat.DetectNeutral | components/ChatAgent.tsx:62-63 | no keyword and no first number in 1..10 give neutral, 5 |
| Chat.DetectLastKeyword | components/ChatAgent.tsx:65-79 | with keyword j the last one present, the reading is entry j with the digit override applied |
| Chat.DetectKeywordNoDigits | components/ChatAgent.tsx:62-79 | a text without digits whose last keyword present is entry j reads exactly as entry j |
| Chat.DetectKeywordThenNumber | components/ChatAgent.tsx:62-79 | a digit-free text followed by one number keeps entry j's mood and takes the number as energy exactly when it lies in 1..10 |
| Chat.GoodButTired | components/ChatAgent.tsx:53-70 | "good but tired" reads as tired, 4 |
| Chat.Eleven | components/ChatAgent.tsx:73-79 | "11" reads as neutral, 5 |
| Chat.FifteenThenSeven | components/ChatAgent.tsx:73-79 | "15 then 7" reads as neutral, 5: only the first number counts |
| Chat.FeelingGood | components/ChatAgent.tsx:66 | "Feeling GOOD" reads as good, 8: matching ignores case |
| Chat.VoiceSample | components/ChatAgent.tsx:109 | "I'm feeling good today, energy level around 7" reads as good, 7 |
| Chat.ChatAgent.constructor | components/ChatAgent.tsx:22-30 | the chat opens with the greeting under id "1" and an empty input |
| Chat.ChatAgent.HandleSubmit | components/ChatAgent.tsx:38-82 | blank text changes nothing and reports nothing; otherwise the raw text is appended as a user message, the input is cleared and (mood, energy, raw text) is reported |
| Onboarding.CanProceed | components/OnboardingFlow.tsx:137-145 | step 0 always proceeds; step 1 needs a truthy age, weight and gender; step 2 a goal; step 3 a wake and a sleep time; any other step never; its meaning is proved in `Onboarding.FilledIffAllGuards` |
| Onboarding.FilledIffAllGuards | components/OnboardingFlow.tsx:137-145 | the answers are complete exactly when the guards of steps 1, 2 and 3 all hold |
| Onboarding.Dots | components/OnboardingFlow.tsx:161-167 | there are four dots; dot i is filled iff i <= step |
| Onboarding.ButtonLabel | components/OnboardingFlow.tsx:205 | the button reads "Complete" exactly on the last step, "Next" otherwise |
| Onboarding.ClearedAgeBlocks | components/OnboardingFlow.tsx:140 | an age box cleared to "" reads as NaN and blocks the basic-info step |
| Onboarding.ZeroAgeBlocks | components/OnboardingFlow.tsx:140 | an age of 0 blocks the basic-info step |
| Onboarding.Wizard.constructor | components/OnboardingFlow.tsx:24-25 | step 0, no answers, invariant holds |
| Onboarding.Wizard.Next | components/OnboardingFlow.tsx:147-153 | enabled only under the step's guard; below the last step the step grows by one; on the last step the answers are handed over, all of them filled |
| Onboarding.Wizard.Back | components/OnboardingFlow.tsx:190-194 | shown only after step 0; the step drops by one, answers unchanged |
| Onboarding.Wizard.SetAge | components/OnboardingFlow.tsx:50 | only the age changes, to `parseInt` of the text |
| Onboarding.Wizard.SetWeight | components/OnboardingFlow.tsx:59 | only the weight changes, to `parseInt` of the text |
| Onboarding.Wizard.SetGender | components/OnboardingFlow.tsx:66-70 | only the gender changes |
| Onboarding.Wizard.SetGoal | components/OnboardingFlow.tsx:87-96 | only the goal changes |
| Onboarding.Wizard.SetWakeTime | components/OnboardingFlow.tsx:121 | only the wake time changes, to the raw text |
| Onboarding.Wizard.SetSleepTime | components/OnboardingFlow.tsx:129 | only the sleep time changes, to the raw text |
| Timer.Elapsed | components/TimerDisplay.tsx:39 | floor((currentTime - startTime)/1000) when the start is truthy, else 0 |
| Timer.Total | components/TimerDisplay.tsx:40 | floor((endTime - startTime)/1000) when both are truthy, else 0 |
| Timer.Progress | components/TimerDisplay.tsx:41 | in [0,100]: 0 for an empty plan or no time elapsed, 100 once the plan is reached, otherwise the elapsed share |
| Timer.ProgressMonotoneInElapsed | components/TimerDisplay.tsx:41 | the bar never moves back while time advances |
| Timer.PlannedLabel | components/TimerDisplay.tsx:56 | "0m" for an empty plan, otherwise a duration that reads back as the plan's whole minutes |
| Timer.TimerView | components/TimerDisplay.tsx:43-114 | the bar lies in [0,100]; the completed card always shows 100, the others show the progress |
| Timer.ClockReadsBack | components/TimerDisplay.tsx:53 | the running and paused clocks read back as the clamped elapsed count, and whenever the raw count is not negative they are exactly `formatTime(elapsed)` |
| Timer.ElapsedBeforeStart | components/TimerDisplay.tsx:28-39 | with the card's clock up to a second behind the start, elapsed is -1 and the clock reads "-1:-1", which is not a clock reading |
| Timer.ShownElapsed | components/TimerDisplay.tsx:39 | the elapsed count the card is meant to show: the raw count when it is not negative, else 0 |
| Timer.ShownElapsedAtStart | components/TimerDisplay.tsx:39 | with elapsed clamped at 0, the clock right after a start reads "0:00" |
| Page.SessionIdInjective | app/page.tsx:75 | sessions started at different times get different ids |
| Page.SessionId | app/page.tsx:75 | `session_` followed by the clock reading; distinct readings give distinct ids by `Page.SessionIdInjective` |
| Page.EntryId | app/page.tsx:105 | `entry_` followed by the clock reading |
| Page.FastingHours | app/page.tsx:70-71 | the plan's fasting hours unless the plan or its hours are missing or 0, then 16 |
| Page.NewSession | app/page.tsx:69-81 | an active session of the user, started and planned from now, ending FastingHours · 3 600 000 ms later, with no end time or duration |
| Page.Stopped | app/page.tsx:90-95 | status completed, end time now, duration = end time - start time, every other field kept |
| Page.NewUser | app/page.tsx:47-59 | the profile carries the answers, the plan, the free tier, and the address as id when truthy, else `user_<now>` |
| Page.NewEntry | app/page.tsx:104-111 | the entry carries the user's id, the clock as timestamp, and the mood, energy and notes given |
| Page.VariantOf | app/page.tsx:117-120 | completed without a session, active for an active one, paused otherwise |
| Page.Reverse | app/page.tsx:235 | `reverse()`: same length, the i-th element the i-th from the end |
| Page.RecentEntries | app/page.tsx:235 | min(10, n) entries, the i-th being the i-th newest |
| Page.RecentEntriesAppend | app/page.tsx:235 | a new entry goes on top and the view keeps at most ten |
| Page.IdsUnique | app/page.tsx:75 | sessions started at increasing times carry distinct ids |
| Page.StartPreserves | app/page.tsx:66-85 | with no fast running and a clock past every start, Start keeps the session invariant and its session becomes current |
| Page.StopUpdatesCurrent | app/page.tsx:97 | under the invariant, the update by id replaces exactly the current session with its stopped form |
| Page.StopPreserves | app/page.tsx:87-99 | Stop keeps the session invariant and leaves no active session |
| Page.NeverPaused | app/page.tsx:117-120 | under the invariant the timer is never shown paused |
| Page.Home.constructor | app/page.tsx:29-39 | the page loads the user, the first active session and the journal from the store |
| Page.Home.OnboardingComplete | app/page.tsx:41-64 | the built profile becomes the page's user and is written to the store; nothing else changes |
| Page.Home.StartFasting | app/page.tsx:66-85 | no-op without a user; otherwise the new session is appended to the store and becomes current; keeps the invariant when no fast runs and the clock is past every start |
| Page.Home.StopFasting | app/page.tsx:87-99 | no-op without a current session; otherwise the session is written back stopped under its id and the current session is cleared; keeps the invariant |
| Page.Home.MoodSubmit | app/page.tsx:101-115 | without a user nothing changes; otherwise exactly one entry is appended to the store and to the page's list |

## Left out

- `lib/openai.ts`: the plan generator and the coaching text call a language-model
  service through a library that is not part of this model. The generated plan is
  an input of `Page.Home.OnboardingComplete`.
- React machinery is left out: hooks and effects, the one-second `setInterval`
  that refreshes the timer card's clock (modelled as the `currentTime` parameter),
  scrolling, animation and the loading spinner.
- The agent's delayed reply in the chat is left out. It is a `setTimeout` with a
  `Math.random` choice of text, and it happens after the handler has reported its
  reading.
- The simulated voice recording is left out. The sentence it submits is proved
  to read as good, 7 in `Chat.VoiceSample`.
- The wallet and identity widgets (wagmi, onchainkit) are left out. The wallet
  address is a parameter.
- `ProgressCard`, `JournalEntryCard`, `AppShell` and `cn` are presentation only.
- `Storage.Store.GetUser`: JSON parsing, and the exception `JSON.parse` would
  throw on a malformed record, are not modelled. Serialisation is the identity.
- `JsText.ToLowerCase` maps only the ASCII letters. No table keyword can be
  matched through a non-ASCII character, with one exception: the Kelvin sign
  lowers to `k`, which would let it match `okay`.
- `JsText.ParseInt` reads decimal digits only. The `0x` prefix cannot come from a
  number input box.
- `Chat.Override`: a digit run longer than double precision can represent is read
  exactly, not rounded. Such a run is far above 10 either way.
- `Storage.Plan`: fasting hours are integers, so NaN or fractional hours are not
  modelled.
- `Storage.SessionPatch`: a key that is present but holds `undefined` is read as
  absent.
- `Utils.CalculateProgress` works over exact reals, while the source computes
  with doubles. The ratio clause `r * (end - start) == (current - start) * 100`
  holds only without rounding. The bounds, the clamps and the monotonicity hold
  for the rounded result too.
- `Chat.ChatAgent.HandleSubmit` uses one clock reading for the message id and its
  timestamp. The source calls `Date.now()` for each (components/ChatAgent.tsx:42,44).
- `Page.NewEntry` uses one clock reading for `entry_<now>` and the timestamp. The
  source calls `Date.now()` for each (app/page.tsx:105,107).
- `Page.NewUser` uses one clock reading for the `user_<now>` id and `createdAt`.
  The source calls `Date.now()` for each (app/page.tsx:48,50).
- `JsText.Trim` states that the result has no white space at either end and is
  empty exactly for blank text. It does not state that the result is the middle
  slice of the input, although the definition computes exactly that slice.
- `Page.Home.StopFasting` uses one clock reading for both the end time and the
  duration. The source reads the clock twice, and the two reads may differ by a
  millisecond.
- `Page.Home.StartFasting` does not check for a session already running, and
  neither does the source. Its invariant clause, and `Page.StartPreserves`,
  assume no fast is running and a clock later than every stored start.
- `Onboarding.Wizard` field edits require the step on which their input is
  shown, because the inputs exist only on that step.
- In `Onboarding.Wizard`, `undefined` from an empty `Partial` object and a key
  never set are the same `None`.
- `Timer.TimerView` has no default branch: the variant type has exactly three
  values.
- `Timer.TimerView` shows the corrected elapsed count, `Timer.ShownElapsed`,
  rather than the raw `Timer.Elapsed` (see Findings).
- `Timer.ClockReadsBack` proves the read-back for the clamped count
  `Timer.ShownElapsed`. The source prints the raw count, and the two agree
  whenever the raw count is not negative, which the lemma also states. For a
  negative raw count the source's clock reads "-1:-1", which does not read back
  (`Timer.ElapsedBeforeStart`, see Findings).

## Findings

| source | as written | input that shows it | evidently intended | confidence | as-written member | corrected member |
|---|---|---|---|---|---|---|
| components/TimerDisplay.tsx:28-39 | `elapsed = floor((currentTime - startTime)/1000)`, where `currentTime` is state refreshed once a second | Start pressed at t = 1 000 500 while the card's clock still holds 1 000 000: elapsed is -1 and `formatTime(-1)` is "-1:-1" until the next tick | the clock starts at "0:00", that is elapsed clamped at 0 | not executed | Timer.ElapsedBeforeStart | Timer.ShownElapsedAtStart |
