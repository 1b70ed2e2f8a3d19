/**
 * The home page's state and handlers: the signed-up user, the session being
 * timed and the journal list, kept in step with the store. Starting a fast
 * appends an active session, stopping it completes that session in the store,
 * and a mood report appends a journal entry. The clock reading `now` and the
 * wallet address are parameters; the fasting plan is an input produced elsewhere.
 */
module Page {
  import opened Wrappers
  import opened JsText
  import opened Storage
  import opened Onboarding
  import Timer

  // ---- Ids, plans and the sessions the handlers build ----

  function SessionId(now: int): string {
    "session_" + IntToString(now)
  }

  function EntryId(now: int): string {
    "entry_" + IntToString(now)
  }

  /** Two sessions started at different times get different ids. */
  lemma SessionIdInjective(a: int, b: int)
    requires SessionId(a) == SessionId(b)
    ensures a == b
  {
    var p := "session_";
    assert SessionId(a)[|p|..] == IntToString(a);
    assert SessionId(b)[|p|..] == IntToString(b);
    IntToStringInjective(a, b);
  }

  /** `plan?.fastingHours || 16`: the plan's fasting hours unless missing or 0. */
  function FastingHours(u: UserProfile): (h: int)
    ensures h != 0
    ensures u.currentFastingPlan.None? ==> h == 16
    ensures u.currentFastingPlan.Some? && u.currentFastingPlan.value.fastingHours.Some?
            && u.currentFastingPlan.value.fastingHours.value != 0
            ==> h == u.currentFastingPlan.value.fastingHours.value
    ensures u.currentFastingPlan.Some? && u.currentFastingPlan.value.fastingHours in {None, Some(0)}
            ==> h == 16
  {
    match u.currentFastingPlan
    case None => 16
    case Some(plan) =>
      if plan.fastingHours.Some? && plan.fastingHours.value != 0 then plan.fastingHours.value else 16
  }

  const MillisPerHour := 60 * 60 * 1000

  /** The session Start creates at `now` for `u`. */
  function NewSession(u: UserProfile, now: int): (s: FastingSession)
    ensures s.status == Active && s.userId == u.userId && s.sessionId == SessionId(now)
    ensures s.startTime == now && s.plannedWindowStart == now
    ensures s.plannedWindowEnd - s.plannedWindowStart == FastingHours(u) * 3600000
    ensures s.endTime.None? && s.duration.None?
  {
    FastingSession(SessionId(now), u.userId, now, None, None, now, now + FastingHours(u) * MillisPerHour, Active)
  }

  /** `{ ...s, endTime: now, duration: now - s.startTime, status: 'completed' }`. */
  function Stopped(s: FastingSession, now: int): (t: FastingSession)
    ensures t.status == Completed && t.endTime == Some(now)
    ensures t.duration == Some(now - s.startTime) && t.endTime.value - t.startTime == t.duration.value
    ensures t.sessionId == s.sessionId && t.userId == s.userId && t.startTime == s.startTime
    ensures t.plannedWindowStart == s.plannedWindowStart && t.plannedWindowEnd == s.plannedWindowEnd
  {
    s.(endTime := Some(now), duration := Some(now - s.startTime), status := Completed)
  }

  /** The profile built when onboarding completes. */
  function NewUser(data: OnboardingData, plan: Plan, address: Option<string>, now: int): (u: UserProfile)
    requires Filled(data)
    ensures address.Some? && address.value != "" ==> u.userId == address.value
    ensures !(address.Some? && address.value != "") ==> u.userId == "user_" + IntToString(now)
    ensures u.createdAt == now && u.email.None? && u.subscriptionTier == Free
    ensures u.age == data.age.value.value && u.weight == data.weight.value.value && u.age != 0 && u.weight != 0
    ensures Some(u.gender) == data.gender && Some(u.goal) == data.goal
    ensures Some(u.preferredWakeTime) == data.wakeTime && Some(u.preferredSleepTime) == data.sleepTime
    ensures u.currentFastingPlan == Some(plan)
  {
    var id := if address.Some? && address.value != "" then address.value else "user_" + IntToString(now);
    UserProfile(id, None, now, data.gender.value, data.age.value.value, data.weight.value.value,
                data.goal.value, data.wakeTime.value, data.sleepTime.value, Some(plan), Free)
  }

  function NewEntry(u: UserProfile, mood: string, energy: int, notes: Option<string>, now: int): (e: JournalEntry)
    ensures e.entryId == EntryId(now) && e.userId == u.userId && e.timestamp == now
    ensures e.mood == mood && e.energy == energy && e.notes == notes
    ensures e.voiceRecordingUrl.None? && e.transcription.None?
  {
    JournalEntry(EntryId(now), u.userId, now, mood, energy, notes, None, None)
  }

  // ---- Pure views ----

  /** No session shows the finished card; an active one runs; any other status shows as paused. */
  function VariantOf(current: Option<FastingSession>): (v: Timer.Variant)
    ensures v == Timer.Completed <==> current.None?
    ensures v == Timer.Active <==> current.Some? && current.value.status == Active
    ensures v == Timer.Paused <==> current.Some? && current.value.status != Active
  {
    match current
    case None => Timer.Completed
    case Some(s) => if s.status == Active then Timer.Active else Timer.Paused
  }

  function Reverse<T>(s: seq<T>): (r: seq<T>)
    ensures |r| == |s| && forall i :: 0 <= i < |s| ==> r[i] == s[|s| - 1 - i]
  {
    if s == [] then [] else [s[|s| - 1]] + Reverse(s[..|s| - 1])
  }

  /** `slice(-10).reverse()`: the last ten entries (all of them when fewer), newest first. */
  function RecentEntries(es: seq<JournalEntry>): (r: seq<JournalEntry>)
    ensures |r| == if |es| < 10 then |es| else 10
    ensures forall i :: 0 <= i < |r| ==> r[i] == es[|es| - 1 - i]
  {
    var from := if |es| < 10 then 0 else |es| - 10;
    Reverse(es[from..])
  }

  /** A new entry goes to the top of the journal view, and the view keeps at most ten. */
  lemma RecentEntriesAppend(es: seq<JournalEntry>, e: JournalEntry)
    ensures RecentEntries(es + [e])[0] == e
    ensures |es| >= 10 ==> RecentEntries(es + [e]) == [e] + RecentEntries(es)[..9]
    ensures |es| < 10 ==> RecentEntries(es + [e]) == [e] + RecentEntries(es)
  {
    var r, r0 := RecentEntries(es + [e]), RecentEntries(es);
    assert r[0] == (es + [e])[|es|];
    if |es| >= 10 {
      assert forall i :: 1 <= i < 10 ==> r[i] == r0[i - 1];
    } else {
      assert forall i :: 1 <= i < |r| ==> r[i] == r0[i - 1];
    }
  }

  // ---- The session invariant ----

  predicate StartsIncrease(ss: seq<FastingSession>) {
    forall i, j :: 0 <= i < j < |ss| ==> ss[i].startTime < ss[j].startTime
  }

  predicate IdsFromStarts(ss: seq<FastingSession>) {
    forall i :: 0 <= i < |ss| ==> ss[i].sessionId == SessionId(ss[i].startTime)
  }

  predicate AtMostOneActive(ss: seq<FastingSession>) {
    forall i, j :: 0 <= i < |ss| && 0 <= j < |ss| && ss[i].status == Active && ss[j].status == Active ==> i == j
  }

  /**
   * What keeps Start and Stop consistent: sessions are started in time order with
   * ids taken from their start, at most one is active, and the page's current
   * session is the one `getCurrentSession` would find.
   */
  predicate SessionsInv(ss: seq<FastingSession>, current: Option<FastingSession>) {
    StartsIncrease(ss) && IdsFromStarts(ss) && AtMostOneActive(ss) && current == FirstActive(ss)
  }

  /** Sessions started at increasing times carry distinct ids. */
  lemma IdsUnique(ss: seq<FastingSession>, i: int, k: int)
    requires StartsIncrease(ss) && IdsFromStarts(ss)
    requires 0 <= k < i < |ss|
    ensures ss[k].sessionId != ss[i].sessionId
  {
    if ss[k].sessionId == ss[i].sessionId {
      SessionIdInjective(ss[k].startTime, ss[i].startTime);
    }
  }

  /**
   * Start keeps the invariant when no fast is running and the clock is past every
   * stored start; the new session becomes the current one.
   */
  lemma StartPreserves(ss: seq<FastingSession>, u: UserProfile, now: int)
    requires SessionsInv(ss, None)
    requires forall k :: 0 <= k < |ss| ==> ss[k].startTime < now
    ensures SessionsInv(ss + [NewSession(u, now)], Some(NewSession(u, now)))
  {
    var s := NewSession(u, now);
    AppendLater(ss, s);
    AppendIdFromStart(ss, s);
    AppendActive(ss, s);
  }

  lemma AppendLater(ss: seq<FastingSession>, s: FastingSession)
    requires StartsIncrease(ss) && forall k :: 0 <= k < |ss| ==> ss[k].startTime < s.startTime
    ensures StartsIncrease(ss + [s])
  {
    var ss' := ss + [s];
    forall i, j | 0 <= i < j < |ss'|
      ensures ss'[i].startTime < ss'[j].startTime
    {
      assert ss'[i] == ss[i];
      if j < |ss| {
        assert ss'[j] == ss[j];
      }
    }
  }

  lemma AppendIdFromStart(ss: seq<FastingSession>, s: FastingSession)
    requires IdsFromStarts(ss) && s.sessionId == SessionId(s.startTime)
    ensures IdsFromStarts(ss + [s])
  {
    var ss' := ss + [s];
    forall i | 0 <= i < |ss'|
      ensures ss'[i].sessionId == SessionId(ss'[i].startTime)
    {
      if i < |ss| {
        assert ss'[i] == ss[i];
      }
    }
  }

  /** Appending an active session to a list without one keeps one active, and it is the first. */
  lemma AppendActive(ss: seq<FastingSession>, s: FastingSession)
    requires FirstActive(ss).None? && s.status == Active
    ensures AtMostOneActive(ss + [s]) && FirstActive(ss + [s]) == Some(s)
  {
    var ss' := ss + [s];
    assert forall k :: 0 <= k < |ss| ==> ss'[k] == ss[k];
    assert ss'[|ss|].status == Active;
    var r := FirstActive(ss');
    var i :| 0 <= i < |ss'| && ss'[i] == r.value && forall k :: 0 <= k < i ==> ss'[k].status != Active;
    assert i == |ss|;
  }

  /** Where the stopped session lands: the current session's place in the list. */
  lemma StopUpdatesCurrent(ss: seq<FastingSession>, cur: FastingSession, now: int) returns (i: nat)
    requires SessionsInv(ss, Some(cur))
    ensures i < |ss| && ss[i] == cur
    ensures UpdateById(ss, cur.sessionId, FullPatch(Stopped(cur, now))) == ss[i := Stopped(cur, now)]
  {
    i := ActiveIndex(ss, cur);
    forall k | 0 <= k < i
      ensures ss[k].sessionId != cur.sessionId
    {
      IdsUnique(ss, i, k);
    }
    UpdateByIdFirstMatch(ss, cur.sessionId, FullPatch(Stopped(cur, now)), i);
    MergeFull(cur, Stopped(cur, now));
  }

  /** The current session sits at the first active place of the list. */
  lemma ActiveIndex(ss: seq<FastingSession>, cur: FastingSession) returns (i: nat)
    requires FirstActive(ss) == Some(cur)
    ensures i < |ss| && ss[i] == cur && cur.status == Active
    ensures forall k :: 0 <= k < i ==> ss[k].status != Active
  {
    i :| 0 <= i < |ss| && ss[i] == cur && forall k :: 0 <= k < i ==> ss[k].status != Active;
  }

  /** Stop keeps the invariant: the running session is completed in place and none is active after it. */
  lemma StopPreserves(ss: seq<FastingSession>, cur: FastingSession, now: int)
    requires SessionsInv(ss, Some(cur))
    ensures SessionsInv(UpdateById(ss, cur.sessionId, FullPatch(Stopped(cur, now))), None)
  {
    var i := StopUpdatesCurrent(ss, cur, now);
    var t := Stopped(cur, now);
    ReplaceKeepsOrder(ss, i, t);
    ReplaceKeepsIds(ss, i, t);
    ReplaceOnlyActive(ss, i, t);
  }

  lemma ReplaceKeepsOrder(ss: seq<FastingSession>, i: nat, t: FastingSession)
    requires i < |ss| && StartsIncrease(ss) && t.startTime == ss[i].startTime
    ensures StartsIncrease(ss[i := t])
  {
    var ss' := ss[i := t];
    assert forall k :: 0 <= k < |ss| ==> ss'[k].startTime == ss[k].startTime;
  }

  lemma ReplaceKeepsIds(ss: seq<FastingSession>, i: nat, t: FastingSession)
    requires i < |ss| && IdsFromStarts(ss)
    requires t.startTime == ss[i].startTime && t.sessionId == ss[i].sessionId
    ensures IdsFromStarts(ss[i := t])
  {
    var ss' := ss[i := t];
    assert forall k :: 0 <= k < |ss| ==> ss'[k].startTime == ss[k].startTime && ss'[k].sessionId == ss[k].sessionId;
  }

  /** Replacing the only active session by an inactive one leaves none active. */
  lemma ReplaceOnlyActive(ss: seq<FastingSession>, i: nat, t: FastingSession)
    requires i < |ss| && AtMostOneActive(ss) && ss[i].status == Active && t.status != Active
    ensures AtMostOneActive(ss[i := t]) && FirstActive(ss[i := t]).None?
  {
    var ss' := ss[i := t];
    forall k | 0 <= k < |ss'|
      ensures ss'[k].status != Active
    {
      if k != i {
        assert ss'[k] == ss[k];
      }
    }
  }

  /** Under the invariant the timer is never shown paused. */
  lemma NeverPaused(ss: seq<FastingSession>, current: Option<FastingSession>)
    requires SessionsInv(ss, current)
    ensures VariantOf(current) != Timer.Paused
  {
  }

  class Home {
    const store: Store
    var user: Option<UserProfile>
    var currentSession: Option<FastingSession>
    var journalEntries: seq<JournalEntry>

    /** The page state matches the store's sessions in the sense of `SessionsInv`. */
    predicate Consistent()
      reads this, store
    {
      store.available ==> SessionsInv(store.sessions, currentSession)
    }

    /** The page loads the user, the current session and the journal from the store. */
    constructor(store: Store)
      ensures this.store == store
      ensures user == (if store.available then store.user else None)
      ensures currentSession == (if store.available then FirstActive(store.sessions) else None)
      ensures journalEntries == (if store.available then store.journal else [])
      ensures !store.available ==> Consistent()
      ensures (store.available && StartsIncrease(store.sessions) && IdsFromStarts(store.sessions)
               && AtMostOneActive(store.sessions)) ==> Consistent()
    {
      var u := store.GetUser();
      var c := store.GetCurrentSession();
      var es := store.GetJournalEntries();
      this.store := store;
      user := u;
      currentSession := c;
      journalEntries := es;
    }

    /** Onboarding completion builds the profile and stores it, in the store and on the page. */
    method OnboardingComplete(data: OnboardingData, plan: Plan, address: Option<string>, now: int)
      requires Filled(data)
      modifies this, store
      ensures user == Some(NewUser(data, plan, address, now))
      ensures currentSession == old(currentSession) && journalEntries == old(journalEntries)
      ensures store.available == old(store.available)
      ensures store.sessions == old(store.sessions) && store.journal == old(store.journal)
      ensures store.user == if store.available then user else old(store.user)
    {
      var u := NewUser(data, plan, address, now);
      store.SetUser(u);
      user := Some(u);
    }

    /**
     * Start does nothing without a user; otherwise it appends a new active session
     * planned for the plan's fasting hours and makes it the current one.
     */
    method StartFasting(now: int)
      modifies this, store
      ensures user == old(user) && journalEntries == old(journalEntries)
      ensures store.available == old(store.available) && store.user == old(store.user)
      ensures store.journal == old(store.journal)
      ensures user.None? ==> currentSession == old(currentSession) && store.sessions == old(store.sessions)
      ensures user.Some? ==>
        && currentSession == Some(NewSession(user.value, now))
        && store.sessions == if store.available then old(store.sessions) + [NewSession(user.value, now)]
                             else old(store.sessions)
      ensures old(Consistent()) && old(currentSession).None?
              && (forall k :: 0 <= k < |old(store.sessions)| ==> old(store.sessions)[k].startTime < now)
              ==> Consistent()
    {
      if user.None? {
        return;
      }
      var session := NewSession(user.value, now);
      if store.available && currentSession.None? && SessionsInv(store.sessions, None)
         && (forall k :: 0 <= k < |store.sessions| ==> store.sessions[k].startTime < now) {
        StartPreserves(store.sessions, user.value, now);
      }
      store.AddFastingSession(session);
      currentSession := Some(session);
    }

    /**
     * Stop does nothing without a current session; otherwise it writes the session
     * back completed, with its end time and duration, under its id, and clears the
     * current session. One clock reading serves for both the end time and the duration.
     */
    method StopFasting(now: int)
      modifies this, store
      ensures user == old(user) && journalEntries == old(journalEntries)
      ensures store.available == old(store.available) && store.user == old(store.user)
      ensures store.journal == old(store.journal)
      ensures old(currentSession).None? ==> currentSession.None? && store.sessions == old(store.sessions)
      ensures old(currentSession).Some? ==>
        && currentSession.None?
        && store.sessions == if store.available
             then UpdateById(old(store.sessions), old(currentSession).value.sessionId,
                             FullPatch(Stopped(old(currentSession).value, now)))
             else old(store.sessions)
      ensures old(Consistent()) ==> Consistent()
    {
      if currentSession.None? {
        return;
      }
      var cur := currentSession.value;
      var updated := Stopped(cur, now);
      if store.available && SessionsInv(store.sessions, currentSession) {
        StopPreserves(store.sessions, cur, now);
      }
      store.UpdateFastingSession(cur.sessionId, FullPatch(updated));
      currentSession := None;
    }

    /** A mood report, when a user exists, appends one entry to the store and to the page's list. */
    method MoodSubmit(mood: string, energy: int, notes: Option<string>, now: int)
      modifies this, store
      ensures user == old(user) && currentSession == old(currentSession)
      ensures store.available == old(store.available) && store.user == old(store.user)
      ensures store.sessions == old(store.sessions)
      ensures user.None? ==> journalEntries == old(journalEntries) && store.journal == old(store.journal)
      ensures user.Some? ==>
        && journalEntries == old(journalEntries) + [NewEntry(user.value, mood, energy, notes, now)]
        && store.journal == if store.available then old(store.journal) + [NewEntry(user.value, mood, energy, notes, now)]
                            else old(store.journal)
      ensures old(Consistent()) ==> Consistent()
    {
      if user.None? {
        return;
      }
      var entry := NewEntry(user.value, mood, energy, notes, now);
      store.AddJournalEntry(entry);
      journalEntries := journalEntries + [entry];
    }
  }
}
