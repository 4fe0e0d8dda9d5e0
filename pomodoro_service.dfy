/**
 * Pomodoro sessions: at most one session per user and day, created with one
 * zeroed round per configured interval.
 */
module PomodoroService {
  import opened Wrappers
  import opened Seqs
  import opened Store

  /** A session together with its rounds, by ascending identifier. */
  datatype SessionView = SessionView(session: Session, rounds: seq<Round>)

  /** The fields a session update may carry. */
  datatype SessionPatch = SessionPatch(isCompleted: Option<bool>)

  /** The fields a round update may carry; an omitted field is left as it is. */
  datatype RoundPatch = RoundPatch(totalSeconds: Option<int>, isCompleted: Option<bool>)

  /** The user's session is from the day of `now`: created at or after that day's midnight. */
  predicate IsTodayOf(s: Session, userId: Id, now: Timestamp) {
    s.userId == userId && s.createdAt >= StartOfDay(now)
  }

  predicate IsSessionOf(s: Session, id: Id, userId: Id) {
    s.id == id && s.userId == userId
  }

  predicate InSession(r: Round, sessionId: Id) {
    r.sessionId == sessionId
  }

  predicate RoundHasId(r: Round, id: Id) {
    r.id == id
  }

  /** The rounds of one session, in table order. */
  function RoundsOf(rounds: seq<Round>, sessionId: Id): (r: seq<Round>)
    ensures forall x :: x in r <==> x in rounds && x.sessionId == sessionId
  {
    Filter(rounds, x => InSession(x, sessionId))
  }

  /** In a valid store the rounds of a session come by ascending identifier. */
  lemma RoundsOfAscending(db: Database, sessionId: Id)
    requires db.Valid()
    ensures KeysBelow(RoundsOf(db.rounds, sessionId), RoundKey, db.nextId)
  {
    FilterKeysBelow(db.rounds, x => InSession(x, sessionId), RoundKey, db.nextId);
  }

  /**
   * `getTodaySession`: the first of the user's sessions created since midnight
   * UTC of the day of `now`, with its rounds, or none.
   */
  function GetTodaySession(db: Database, userId: Id, now: Timestamp): (r: Option<SessionView>)
    reads db
    ensures r.None? <==> forall i :: 0 <= i < |db.sessions| ==> !IsTodayOf(db.sessions[i], userId, now)
    ensures r.Some? ==>
      && r.value.session in db.sessions && IsTodayOf(r.value.session, userId, now)
      && r.value.rounds == RoundsOf(db.rounds, r.value.session.id)
  {
    TodayIn(db.sessions, db.rounds, userId, now)
  }

  /** The lookup depends only on the day of `now`. */
  lemma TodaySessionSameDay(db: Database, userId: Id, now: Timestamp, later: Timestamp)
    requires StartOfDay(now) <= later < StartOfDay(now) + DayMs
    ensures GetTodaySession(db, userId, later) == GetTodaySession(db, userId, now)
  {
    StartOfDaySameDay(now, later);
    FindIndexAgree(db.sessions, s => IsTodayOf(s, userId, later), s => IsTodayOf(s, userId, now));
  }

  /** `Array.from({length: n})` has no element for a negative length. */
  function RoundCount(intervalsCount: int): (n: nat)
    ensures intervalsCount >= 0 ==> n == intervalsCount
    ensures intervalsCount < 0 ==> n == 0
  {
    if intervalsCount < 0 then 0 else intervalsCount
  }

  /** The rounds a new session receives: `n` rounds at zero seconds, identifiers from `firstId` on. */
  function ZeroRounds(sessionId: Id, firstId: Id, n: nat): (r: seq<Round>)
    ensures |r| == n
  {
    seq(n, k requires 0 <= k < n => Round(firstId + k, sessionId, 0, false))
  }

  /** Every new round is at zero seconds, belongs to the session, and the identifiers ascend. */
  lemma ZeroRoundsFields(sessionId: Id, firstId: Id, n: nat)
    ensures forall k :: 0 <= k < n ==>
      var x := ZeroRounds(sessionId, firstId, n)[k];
      x.totalSeconds == 0 && x.sessionId == sessionId && !x.isCompleted && x.id >= firstId
    ensures KeysBelow(ZeroRounds(sessionId, firstId, n), RoundKey, firstId + n)
  {
    ConsecutiveKeysBelow(ZeroRounds(sessionId, firstId, n), RoundKey, firstId);
  }

  /** The session row `create` writes, with the next identifier. */
  method InsertSession(db: Database, userId: Id, now: Timestamp) returns (s: Session)
    requires db.Valid() && db.HasUser(userId)
    modifies db`sessions, db`nextId
    ensures db.Valid()
    ensures s == Session(old(db.nextId), userId, now, false)
    ensures db.sessions == old(db.sessions) + [s]
    ensures db.nextId == old(db.nextId) + 1
  {
    var id := db.nextId;
    s := Session(id, userId, now, false);
    AppendSessionKeepsInvariant(db.users, db.tasks, db.blocks, db.sessions, db.rounds, id, s);
    db.sessions := db.sessions + [s];
    db.nextId := id + 1;
  }

  /** The round rows `create` writes for a session, with the next `n` identifiers. */
  method InsertRounds(db: Database, sessionId: Id, n: nat) returns (rs: seq<Round>)
    requires db.Valid() && sessionId < db.nextId
    modifies db`rounds, db`nextId
    ensures db.Valid()
    ensures rs == ZeroRounds(sessionId, old(db.nextId), n)
    ensures db.rounds == old(db.rounds) + rs
    ensures db.nextId == old(db.nextId) + n
  {
    var first := db.nextId;
    rs := ZeroRounds(sessionId, first, n);
    ZeroRoundsFields(sessionId, first, n);
    AppendRoundsKeepInvariant(db.users, db.tasks, db.blocks, db.sessions, db.rounds, first, rs);
    db.rounds := db.rounds + rs;
    db.nextId := first + n;
  }

  /** The pure lookup behind `getTodaySession`. */
  function TodayIn(sessions: seq<Session>, rounds: seq<Round>, userId: Id, now: Timestamp): Option<SessionView> {
    match FindIndex(sessions, s => IsTodayOf(s, userId, now))
    case None => None
    case Some(i) => Some(SessionView(sessions[i], RoundsOf(rounds, sessions[i].id)))
  }

  /** Rounds written before a session was created never belong to it. */
  lemma RoundsOfNew(earlier: seq<Round>, more: seq<Round>, sessionId: Id)
    requires forall i :: 0 <= i < |earlier| ==> earlier[i].sessionId < sessionId
    requires forall i :: 0 <= i < |more| ==> more[i].sessionId == sessionId
    ensures RoundsOf(earlier + more, sessionId) == more
  {
    FilterAppend(earlier, more, x => InSession(x, sessionId));
    FilterNone(earlier, x => InSession(x, sessionId));
    FilterAll(more, x => InSession(x, sessionId));
  }

  /** When only the last element satisfies `p`, it is the one found. */
  lemma FindIndexLast<T>(s: seq<T>, p: T -> bool)
    requires s != [] && p(s[|s| - 1]) && forall j :: 0 <= j < |s| - 1 ==> !p(s[j])
    ensures FindIndex(s, p) == Some(|s| - 1)
  {
  }

  /** A session of today appended to a table without one is then today's session, with exactly its rounds. */
  lemma TodayAfterInsert(sessions: seq<Session>, rounds: seq<Round>, s: Session, rs: seq<Round>, userId: Id, now: Timestamp)
    requires TodayIn(sessions, rounds, userId, now).None? && IsTodayOf(s, userId, now)
    requires forall i :: 0 <= i < |rounds| ==> rounds[i].sessionId < s.id
    requires forall i :: 0 <= i < |rs| ==> rs[i].sessionId == s.id
    ensures TodayIn(sessions + [s], rounds + rs, userId, now) == Some(SessionView(s, rs))
  {
    var all := sessions + [s];
    assert forall j :: 0 <= j < |all| - 1 ==> all[j] == sessions[j];
    FindIndexLast(all, x => IsTodayOf(x, userId, now));
    RoundsOfNew(rounds, rs, s.id);
  }

  /** The store after the write of `create` has the new session as today's session. */
  lemma TodayAfterCreate(db: Database, sessions: seq<Session>, rounds: seq<Round>, s: Session, rs: seq<Round>, userId: Id, now: Timestamp)
    requires TodayIn(sessions, rounds, userId, now).None? && IsTodayOf(s, userId, now)
    requires forall i :: 0 <= i < |rounds| ==> rounds[i].sessionId < s.id
    requires forall i :: 0 <= i < |rs| ==> rs[i].sessionId == s.id
    requires db.sessions == sessions + [s] && db.rounds == rounds + rs
    ensures GetTodaySession(db, userId, now) == Some(SessionView(s, rs))
  {
    TodayAfterInsert(sessions, rounds, s, rs, userId, now);
  }

  /**
   * `create`: today's session when there is one, unchanged. Otherwise a new
   * session for the user with one round at zero seconds per configured interval
   * (none for a negative count), which is then today's session. An unknown user
   * is refused with `NotFound`.
   */
  method Create(db: Database, userId: Id, now: Timestamp) returns (r: Result<SessionView, StoreError>)
    requires db.Valid()
    modifies db`sessions, db`rounds, db`nextId
    ensures db.Valid()
    ensures old(GetTodaySession(db, userId, now)).Some? ==>
      r == Ok(old(GetTodaySession(db, userId, now)).value)
      && db.sessions == old(db.sessions) && db.rounds == old(db.rounds) && db.nextId == old(db.nextId)
    ensures old(GetTodaySession(db, userId, now)).None? && !db.HasUser(userId) ==>
      r == Err(NotFound)
      && db.sessions == old(db.sessions) && db.rounds == old(db.rounds) && db.nextId == old(db.nextId)
    ensures old(GetTodaySession(db, userId, now)).None? && db.HasUser(userId) ==>
      var n := RoundCount(db.UserById(userId).value.settings.intervalsCount);
      && r == Ok(SessionView(Session(old(db.nextId), userId, now, false), ZeroRounds(old(db.nextId), old(db.nextId) + 1, n)))
      && db.sessions == old(db.sessions) + [r.value.session]
      && db.rounds == old(db.rounds) + r.value.rounds
      && db.nextId == old(db.nextId) + 1 + n
    ensures r.Ok? ==> GetTodaySession(db, userId, now) == Some(r.value)
  {
    var today := GetTodaySession(db, userId, now);
    if today.Some? {
      return Ok(today.value);
    }
    var user := db.UserById(userId);
    if user.None? {
      return Err(NotFound);
    }
    var v := CreateNew(db, userId, RoundCount(user.value.settings.intervalsCount), now);
    r := Ok(v);
  }

  /** The write of `create` when the user has no session today: the session and its `n` rounds. */
  method CreateNew(db: Database, userId: Id, n: nat, now: Timestamp) returns (v: SessionView)
    requires db.Valid() && db.HasUser(userId) && GetTodaySession(db, userId, now).None?
    modifies db`sessions, db`rounds, db`nextId
    ensures db.Valid()
    ensures v == SessionView(Session(old(db.nextId), userId, now, false), ZeroRounds(old(db.nextId), old(db.nextId) + 1, n))
    ensures db.sessions == old(db.sessions) + [v.session]
    ensures db.rounds == old(db.rounds) + v.rounds
    ensures db.nextId == old(db.nextId) + 1 + n
    ensures GetTodaySession(db, userId, now) == Some(v)
  {
    ghost var sessions, rounds, id := db.sessions, db.rounds, db.nextId;
    var s := InsertSession(db, userId, now);
    assert s.id == id && db.sessions == sessions + [s] && db.rounds == rounds;
    var rs := InsertRounds(db, s.id, n);
    assert rs == ZeroRounds(id, id + 1, n) && db.sessions == sessions + [s] && db.rounds == rounds + rs;
    ZeroRoundsFields(s.id, s.id + 1, n);
    TodayAfterCreate(db, sessions, rounds, s, rs, userId, now);
    v := SessionView(s, rs);
  }

  /** A session with the supplied fields of `patch` written over it. */
  function PatchedSession(s: Session, patch: SessionPatch): (r: Session)
    ensures r.id == s.id && r.userId == s.userId && r.createdAt == s.createdAt
    ensures r.isCompleted == if patch.isCompleted.Some? then patch.isCompleted.value else s.isCompleted
  {
    s.(isCompleted := patch.isCompleted.GetOr(s.isCompleted))
  }

  /** `update`: only the session matching both the id and the user changes. */
  method Update(db: Database, id: Id, userId: Id, patch: SessionPatch) returns (r: Result<Session, StoreError>)
    requires db.Valid()
    modifies db`sessions
    ensures db.Valid()
    ensures var i := FindIndex(old(db.sessions), s => IsSessionOf(s, id, userId));
      if i.None? then r == Err(NotFound) && db.sessions == old(db.sessions)
      else
        && r == Ok(PatchedSession(old(db.sessions)[i.value], patch))
        && db.sessions == old(db.sessions)[i.value := r.value]
  {
    var i := FindIndex(db.sessions, s => IsSessionOf(s, id, userId));
    if i.None? {
      return Err(NotFound);
    }
    var s := PatchedSession(db.sessions[i.value], patch);
    ReplaceKeysBelow(db.sessions, i.value, s, SessionKey, db.nextId);
    db.sessions := db.sessions[i.value := s];
    r := Ok(s);
  }

  /** A round with the supplied fields of `patch` written over it. */
  function PatchedRound(x: Round, patch: RoundPatch): (r: Round)
    ensures r.id == x.id && r.sessionId == x.sessionId
  {
    x.(totalSeconds := patch.totalSeconds.GetOr(x.totalSeconds), isCompleted := patch.isCompleted.GetOr(x.isCompleted))
  }

  /** The supplied fields are written, the omitted ones kept, and an empty patch changes nothing. */
  lemma PatchedRoundFields(x: Round, patch: RoundPatch)
    ensures PatchedRound(x, patch).totalSeconds == if patch.totalSeconds.Some? then patch.totalSeconds.value else x.totalSeconds
    ensures PatchedRound(x, patch).isCompleted == if patch.isCompleted.Some? then patch.isCompleted.value else x.isCompleted
    ensures PatchedRound(x, RoundPatch(None, None)) == x
  {
  }

  /** `updateRound`: the round with this id, whoever owns its session, gets the supplied fields. */
  method UpdateRound(db: Database, roundId: Id, patch: RoundPatch) returns (r: Result<Round, StoreError>)
    requires db.Valid()
    modifies db`rounds
    ensures db.Valid()
    ensures var i := FindIndex(old(db.rounds), x => RoundHasId(x, roundId));
      if i.None? then r == Err(NotFound) && db.rounds == old(db.rounds)
      else
        && r == Ok(PatchedRound(old(db.rounds)[i.value], patch))
        && db.rounds == old(db.rounds)[i.value := r.value]
  {
    var i := FindIndex(db.rounds, x => RoundHasId(x, roundId));
    if i.None? {
      return Err(NotFound);
    }
    var x := PatchedRound(db.rounds[i.value], patch);
    ReplaceKeysBelow(db.rounds, i.value, x, RoundKey, db.nextId);
    db.rounds := db.rounds[i.value := x];
    r := Ok(x);
  }

  /** `deleteSession`: removes the session matching both the id and the user, and returns it. */
  method DeleteSession(db: Database, id: Id, userId: Id) returns (r: Result<Session, StoreError>)
    requires db.Valid()
    modifies db`sessions
    ensures db.Valid()
    ensures var i := FindIndex(old(db.sessions), s => IsSessionOf(s, id, userId));
      if i.None? then r == Err(NotFound) && db.sessions == old(db.sessions)
      else
        && r == Ok(old(db.sessions)[i.value])
        && db.sessions == old(db.sessions)[..i.value] + old(db.sessions)[i.value + 1..]
  {
    var i := FindIndex(db.sessions, s => IsSessionOf(s, id, userId));
    if i.None? {
      return Err(NotFound);
    }
    var k := i.value;
    var rows := db.sessions;
    RemoveKeysBelow(rows, k, SessionKey, db.nextId);
    r := Ok(rows[k]);
    db.sessions := rows[..k] + rows[k + 1..];
    forall j | 0 <= j < |db.sessions| ensures db.HasUser(db.sessions[j].userId) {
      var j' := if j < k then j else j + 1;
      assert db.sessions[j] == rows[j'];
    }
  }
}
