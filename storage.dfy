/**
 * The persistence gateway of lib/storage.ts: three records kept in the browser's
 * local storage under fixed keys (the user profile, the list of fasting sessions
 * and the list of journal entries), read and rewritten whole on every access.
 * JSON serialisation is taken to be the identity, so a stored record is modelled
 * by the value itself; a key that was never written, or was removed, reads as
 * `None` (user) or as the empty list.
 */
module Storage {
  import opened Wrappers

  datatype Tier = Free | Pro

  /** The fasting plan a user carries; only `fastingHours` is read by the application logic. */
  datatype Plan = Plan(
    fastingHours: Option<int>,
    eatingHours: Option<int>,
    startTime: string,
    endTime: string,
    planType: string,
    reasoning: string)

  datatype UserProfile = UserProfile(
    userId: string,
    email: Option<string>,
    createdAt: int,
    gender: string,
    age: int,
    weight: int,
    goal: string,
    preferredWakeTime: string,
    preferredSleepTime: string,
    currentFastingPlan: Option<Plan>,
    subscriptionTier: Tier)

  datatype Status = Active | Completed | Broken

  datatype FastingSession = FastingSession(
    sessionId: string,
    userId: string,
    startTime: int,
    endTime: Option<int>,
    duration: Option<int>,
    plannedWindowStart: int,
    plannedWindowEnd: int,
    status: Status)

  /** `Partial<FastingSession>`: a field is `Some` exactly when the update object carries that key. */
  datatype SessionPatch = SessionPatch(
    sessionId: Option<string>,
    userId: Option<string>,
    startTime: Option<int>,
    endTime: Option<int>,
    duration: Option<int>,
    plannedWindowStart: Option<int>,
    plannedWindowEnd: Option<int>,
    status: Option<Status>)

  datatype JournalEntry = JournalEntry(
    entryId: string,
    userId: string,
    timestamp: int,
    mood: string,
    energy: int,
    notes: Option<string>,
    voiceRecordingUrl: Option<string>,
    transcription: Option<string>)

  /** `{ ...s, ...p }`: every key the patch carries wins, every other field is kept. */
  function Merge(s: FastingSession, p: SessionPatch): (r: FastingSession)
    ensures p.sessionId.Some? ==> r.sessionId == p.sessionId.value
    ensures p.sessionId.None? ==> r.sessionId == s.sessionId
    ensures p.userId.Some? ==> r.userId == p.userId.value
    ensures p.userId.None? ==> r.userId == s.userId
    ensures p.startTime.Some? ==> r.startTime == p.startTime.value
    ensures p.startTime.None? ==> r.startTime == s.startTime
    ensures p.status.Some? ==> r.status == p.status.value
    ensures p.status.None? ==> r.status == s.status
    ensures r.endTime == (if p.endTime.Some? then p.endTime else s.endTime)
    ensures r.duration == (if p.duration.Some? then p.duration else s.duration)
    ensures p.plannedWindowStart.Some? ==> r.plannedWindowStart == p.plannedWindowStart.value
    ensures p.plannedWindowStart.None? ==> r.plannedWindowStart == s.plannedWindowStart
    ensures p.plannedWindowEnd.Some? ==> r.plannedWindowEnd == p.plannedWindowEnd.value
    ensures p.plannedWindowEnd.None? ==> r.plannedWindowEnd == s.plannedWindowEnd
  {
    FastingSession(
      p.sessionId.GetOr(s.sessionId),
      p.userId.GetOr(s.userId),
      p.startTime.GetOr(s.startTime),
      if p.endTime.Some? then p.endTime else s.endTime,
      if p.duration.Some? then p.duration else s.duration,
      p.plannedWindowStart.GetOr(s.plannedWindowStart),
      p.plannedWindowEnd.GetOr(s.plannedWindowEnd),
      p.status.GetOr(s.status))
  }

  /** The patch that carries every key of `u` (the spread of a whole session object). */
  function FullPatch(u: FastingSession): SessionPatch {
    SessionPatch(Some(u.sessionId), Some(u.userId), Some(u.startTime), u.endTime, u.duration,
                 Some(u.plannedWindowStart), Some(u.plannedWindowEnd), Some(u.status))
  }

  /** Merging a whole session over an element keeps only the element's optional fields the session leaves unset. */
  lemma MergeFull(s: FastingSession, u: FastingSession)
    requires u.endTime.Some? && u.duration.Some?
    ensures Merge(s, FullPatch(u)) == u
  {
  }

  /** `Array.prototype.findIndex`: the first index whose element satisfies `p`, or -1. */
  function FindIndex<T>(s: seq<T>, p: T -> bool): (r: int)
    ensures -1 <= r < |s|
    ensures r >= 0 ==> p(s[r]) && forall k :: 0 <= k < r ==> !p(s[k])
    ensures r == -1 <==> forall k :: 0 <= k < |s| ==> !p(s[k])
  {
    if s == [] then -1
    else if p(s[0]) then 0
    else
      var r := FindIndex(s[1..], p);
      assert forall k :: 1 <= k < |s| ==> s[k] == s[1..][k - 1];
      if r < 0 then -1 else r + 1
  }

  /** `Array.prototype.find`: the first element satisfying `p`, if any. */
  function Find<T>(s: seq<T>, p: T -> bool): (r: Option<T>)
    ensures r.None? <==> forall k :: 0 <= k < |s| ==> !p(s[k])
    ensures r.Some? ==> exists i :: 0 <= i < |s| && s[i] == r.value && p(s[i]) && forall k :: 0 <= k < i ==> !p(s[k])
  {
    var i := FindIndex(s, p);
    if i >= 0 then Some(s[i]) else None
  }

  predicate IsActive(s: FastingSession) {
    s.status == Active
  }

  function HasId(id: string): FastingSession -> bool {
    (s: FastingSession) => s.sessionId == id
  }

  /** What `updateFastingSession(id, patch)` leaves in the list. */
  function UpdateById(ss: seq<FastingSession>, id: string, patch: SessionPatch): seq<FastingSession> {
    var i := FindIndex(ss, HasId(id));
    if i >= 0 then ss[i := Merge(ss[i], patch)] else ss
  }

  /** The first session whose id matches is merged with the patch; the length and every other element are kept. */
  lemma UpdateByIdFirstMatch(ss: seq<FastingSession>, id: string, patch: SessionPatch, i: nat)
    requires i < |ss| && ss[i].sessionId == id
    requires forall k :: 0 <= k < i ==> ss[k].sessionId != id
    ensures |UpdateById(ss, id, patch)| == |ss|
    ensures UpdateById(ss, id, patch)[i] == Merge(ss[i], patch)
    ensures forall k :: 0 <= k < |ss| && k != i ==> UpdateById(ss, id, patch)[k] == ss[k]
  {
    var j := FindIndex(ss, HasId(id));
    assert HasId(id)(ss[i]);
    assert j == i;
  }

  /** An id that matches no session leaves the list as it was. */
  lemma UpdateByIdNoMatch(ss: seq<FastingSession>, id: string, patch: SessionPatch)
    requires forall k :: 0 <= k < |ss| ==> ss[k].sessionId != id
    ensures UpdateById(ss, id, patch) == ss
  {
    assert forall k :: 0 <= k < |ss| ==> !HasId(id)(ss[k]);
    assert FindIndex(ss, HasId(id)) == -1;
  }

  /** The first active session of a list, as `getCurrentSession` picks it. */
  function FirstActive(ss: seq<FastingSession>): (r: Option<FastingSession>)
    ensures r.None? <==> forall k :: 0 <= k < |ss| ==> ss[k].status != Active
    ensures r.Some? ==> r.value.status == Active
    ensures r.Some? ==> exists i :: 0 <= i < |ss| && ss[i] == r.value && forall k :: 0 <= k < i ==> ss[k].status != Active
  {
    Find(ss, IsActive)
  }

  /**
   * The browser-local store. `available` says whether the code runs in a browser
   * window at all (`typeof window !== 'undefined'`); the other three fields are
   * what the three keys hold.
   */
  class Store {
    var available: bool
    var user: Option<UserProfile>
    var sessions: seq<FastingSession>
    var journal: seq<JournalEntry>

    /** A store in which none of the three keys has been written yet. */
    constructor (available: bool)
      ensures this.available == available
      ensures user == None && sessions == [] && journal == []
    {
      this.available := available;
      user := None;
      sessions := [];
      journal := [];
    }

    method GetUser() returns (u: Option<UserProfile>)
      ensures u == if available then user else None
    {
      if !available {
        return None;
      }
      u := user;
    }

    method SetUser(u: UserProfile)
      modifies this
      ensures available == old(available) && sessions == old(sessions) && journal == old(journal)
      ensures user == if available then Some(u) else old(user)
    {
      if !available {
        return;
      }
      user := Some(u);
    }

    method GetFastingSessions() returns (ss: seq<FastingSession>)
      ensures ss == if available then sessions else []
    {
      if !available {
        return [];
      }
      ss := sessions;
    }

    method AddFastingSession(session: FastingSession)
      modifies this
      ensures available == old(available) && user == old(user) && journal == old(journal)
      ensures sessions == if available then old(sessions) + [session] else old(sessions)
    {
      if !available {
        return;
      }
      var ss := GetFastingSessions();
      ss := ss + [session];
      sessions := ss;
    }

    method UpdateFastingSession(sessionId: string, updates: SessionPatch)
      modifies this
      ensures available == old(available) && user == old(user) && journal == old(journal)
      ensures sessions == if available then UpdateById(old(sessions), sessionId, updates) else old(sessions)
    {
      if !available {
        return;
      }
      var ss := GetFastingSessions();
      var index := FindIndex(ss, HasId(sessionId));
      if index >= 0 {
        ss := ss[index := Merge(ss[index], updates)];
        sessions := ss;
      }
    }

    method GetJournalEntries() returns (es: seq<JournalEntry>)
      ensures es == if available then journal else []
    {
      if !available {
        return [];
      }
      es := journal;
    }

    method AddJournalEntry(entry: JournalEntry)
      modifies this
      ensures available == old(available) && user == old(user) && sessions == old(sessions)
      ensures journal == if available then old(journal) + [entry] else old(journal)
    {
      if !available {
        return;
      }
      var es := GetJournalEntries();
      es := es + [entry];
      journal := es;
    }

    /** The first stored session whose status is active; none outside a browser. */
    method GetCurrentSession() returns (s: Option<FastingSession>)
      ensures s == if available then FirstActive(sessions) else None
    {
      var ss := GetFastingSessions();
      s := Find(ss, IsActive);
    }

    method ClearData()
      modifies this
      ensures available == old(available)
      ensures if available then user == None && sessions == [] && journal == []
              else user == old(user) && sessions == old(sessions) && journal == old(journal)
    {
      if !available {
        return;
      }
      user := None;
      sessions := [];
      journal := [];
    }
  }
}
