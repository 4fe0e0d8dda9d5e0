/**
 * The user table: lookups, the profile page with its four task statistics,
 * registration with a hashed password, and settings updates.
 */
module UserService {
  import opened Wrappers
  import opened Seqs
  import opened Store
  import opened UserDtoRules

  /** A user row together with the user's tasks (`include: { tasks: true }`). */
  datatype UserWithTasks = UserWithTasks(user: User, tasks: seq<Task>)

  /** The user as the profile shows it: every column except the password. */
  datatype PublicUser = PublicUser(id: Id, email: string, name: string, settings: Settings, tasks: seq<Task>)

  datatype Stat = Stat(caption: string, value: nat)

  datatype Profile = Profile(user: PublicUser, statistics: seq<Stat>)

  /** `getProfile` fails when destructuring the missing user throws. */
  datatype ProfileError = UserMissing

  /** The two columns `update` selects. */
  datatype NameEmail = NameEmail(name: string, email: string)

  predicate OwnedBy(t: Task, userId: Id) {
    t.userId == userId
  }

  predicate CompletedBy(t: Task, userId: Id) {
    t.userId == userId && t.isCompleted
  }

  predicate CreatedSince(t: Task, userId: Id, start: Timestamp) {
    t.userId == userId && t.createdAt >= start
  }

  predicate HasEmail(u: User, email: string) {
    u.email == email
  }

  /** `getByID`: the user with this identifier and the user's tasks. */
  function GetById(db: Database, id: Id): (r: Option<UserWithTasks>)
    reads db`users, db`tasks
    ensures r.Some? <==> db.HasUser(id)
    ensures r.Some? ==>
      && r.value.user in db.users && r.value.user.id == id
      && forall t :: t in r.value.tasks <==> t in db.tasks && t.userId == id
  {
    match db.UserById(id)
    case None => None
    case Some(u) => Some(UserWithTasks(u, Filter(db.tasks, t => OwnedBy(t, id))))
  }

  /**
   * `getByEmail`: the user with this email. A lookup without an email fails in
   * the store, and the failure becomes no user.
   */
  function GetByEmail(db: Database, email: Option<string>): (r: Option<User>)
    reads db`users
    ensures r.None? <==> email.None? || forall i :: 0 <= i < |db.users| ==> db.users[i].email != email.value
    ensures r.Some? ==> r.value in db.users && r.value.email == email.value
  {
    if email.None? then None
    else
      match FindIndex(db.users, u => HasEmail(u, email.value))
      case None => None
      case Some(i) => Some(db.users[i])
  }

  /** Emails are unique, so the user found is the only one with that email. */
  lemma GetByEmailUnique(db: Database, email: string, i: nat)
    requires db.Valid() && i < |db.users| && db.users[i].email == email
    ensures GetByEmail(db, Some(email)) == Some(db.users[i])
  {
    var k := FindIndex(db.users, u => HasEmail(u, email));
    assert k.Some? by { assert HasEmail(db.users[i], email); }
  }

  // ---------------------------------------------------------------------------
  // The profile

  /** Midnight of the day of `now`. */
  function TodayStart(now: Timestamp): Timestamp {
    StartOfDay(now)
  }

  /** Midnight of the day seven days before `now`. */
  function WeekStart(now: Timestamp): Timestamp {
    StartOfDay(now - 7 * DayMs)
  }

  function Total(db: Database, id: Id): nat reads db`tasks {
    Count(db.tasks, t => OwnedBy(t, id))
  }

  function Completed(db: Database, id: Id): nat reads db`tasks {
    Count(db.tasks, t => CompletedBy(t, id))
  }

  function Since(db: Database, id: Id, start: Timestamp): nat reads db`tasks {
    Count(db.tasks, t => CreatedSince(t, id, start))
  }

  /** The user without the password column. */
  function Public(u: User, tasks: seq<Task>): (p: PublicUser)
    ensures p.id == u.id && p.email == u.email && p.name == u.name && p.settings == u.settings && p.tasks == tasks
  {
    PublicUser(u.id, u.email, u.name, u.settings, tasks)
  }

  /**
   * `getProfile`: the user without the password, and four statistics in the
   * order Total, Completed, Today, Week. Total is the number of the user's tasks,
   * Completed the completed ones, Today and Week those created since midnight of
   * today and of the day a week ago.
   */
  function GetProfile(db: Database, id: Id, now: Timestamp): (r: Result<Profile, ProfileError>)
    reads db`users, db`tasks
    ensures r.Err? <==> !db.HasUser(id)
    ensures r.Ok? ==>
      && r.value.user.id == id
      && r.value.user == Public(GetById(db, id).value.user, GetById(db, id).value.tasks)
      && r.value.user.tasks == GetById(db, id).value.tasks
      && |r.value.statistics| == 4
      && r.value.statistics[0] == Stat("Total", Total(db, id))
      && r.value.statistics[1] == Stat("Completed", Completed(db, id))
      && r.value.statistics[2] == Stat("Today", Since(db, id, TodayStart(now)))
      && r.value.statistics[3] == Stat("Week", Since(db, id, WeekStart(now)))
  {
    match GetById(db, id)
    case None => Err(UserMissing)
    case Some(found) =>
      var totalTasks := if |found.tasks| != 0 then |found.tasks| else 0;
      Ok(Profile(Public(found.user, found.tasks), [
        Stat("Total", totalTasks),
        Stat("Completed", Completed(db, id)),
        Stat("Today", Since(db, id, TodayStart(now))),
        Stat("Week", Since(db, id, WeekStart(now)))]))
  }

  /** Completed tasks are among the user's tasks, today's among this week's, and this week's among all. */
  lemma ProfileOrdering(db: Database, id: Id, now: Timestamp)
    requires GetProfile(db, id, now).Ok?
    ensures var s := GetProfile(db, id, now).value.statistics;
      s[1].value <= s[0].value && s[2].value <= s[3].value && s[3].value <= s[0].value
  {
    CountMonotone(db.tasks, t => CompletedBy(t, id), t => OwnedBy(t, id));
    StartOfDayMonotone(now - 7 * DayMs, now);
    CountMonotone(db.tasks, t => CreatedSince(t, id, TodayStart(now)), t => CreatedSince(t, id, WeekStart(now)));
    CountMonotone(db.tasks, t => CreatedSince(t, id, WeekStart(now)), t => OwnedBy(t, id));
  }

  // ---------------------------------------------------------------------------
  // Registration

  /** The row `create` writes: the email, an empty name and the hash of the password. */
  function NewUser(id: Id, email: string, password: string, hash: string -> string, defaults: Settings): (u: User)
    ensures u.email == email && u.name == "" && u.password == hash(password)
  {
    User(id, email, "", hash(password), defaults)
  }

  /**
   * `create`: a new user with the column defaults for the settings. The store
   * refuses an email that is already registered.
   */
  method Create(db: Database, email: string, password: string, hash: string -> string) returns (r: Result<User, StoreError>)
    requires db.Valid()
    modifies db`users, db`nextId
    ensures db.Valid()
    ensures r.Err? <==> exists i :: 0 <= i < |old(db.users)| && old(db.users)[i].email == email
    ensures r.Err? ==> r.error == UniqueViolation && db.users == old(db.users) && db.nextId == old(db.nextId)
    ensures r.Ok? ==>
      && r.value == NewUser(old(db.nextId), email, password, hash, db.userDefaults)
      && db.users == old(db.users) + [r.value]
      && db.nextId == old(db.nextId) + 1
  {
    var taken := FindIndex(db.users, u => HasEmail(u, email));
    if taken.Some? {
      return Err(UniqueViolation);
    }
    var u := NewUser(db.nextId, email, password, hash, db.userDefaults);
    CreateKeepsValid(db, u);
    ghost var before := db.users;
    db.users, db.nextId := db.users + [u], db.nextId + 1;
    assert forall id :: id in UserIds(before) ==> db.HasUser(id);
    r := Ok(u);
  }

  /** Appending a row with the next identifier and a fresh email keeps the store valid. */
  lemma CreateKeepsValid(db: Database, u: User)
    requires db.Valid() && u.id == db.nextId
    requires forall j :: 0 <= j < |db.users| ==> db.users[j].email != u.email
    ensures var us := db.users + [u];
      && KeysBelow(us, UserKey, db.nextId + 1)
      && (forall i, j :: 0 <= i < j < |us| ==> us[i].email != us[j].email)
      && UserIds(db.users) <= UserIds(us)
  {
    AppendKeysBelow(db.users, u, UserKey, db.nextId, db.nextId + 1);
    UserIdsSnoc(db.users, u);
  }

  // ---------------------------------------------------------------------------
  // Settings updates

  /** The password column `update` writes: a non-empty password is hashed, an empty one is written as it is. */
  function StoredPassword(password: string, hash: string -> string): string {
    if password != "" then hash(password) else password
  }

  /** The user row with the fields of the form written over it; the interval count goes to `intervalsCount`. */
  function Applied(u: User, dto: UserDto, hash: string -> string): (r: User)
    ensures r.id == u.id
  {
    var p := dto.pomodoro;
    var s := u.settings;
    User(u.id, dto.email.GetOr(u.email), dto.name.GetOr(u.name),
         if dto.password.Some? then StoredPassword(dto.password.value, hash) else u.password,
         Settings(p.workInterval.GetOr(s.workInterval), p.breakInterval.GetOr(s.breakInterval),
                  p.intervalCount.GetOr(s.intervalsCount), dto.startTimeOfDay.GetOr(s.startTimeOfDay)))
  }

  /**
   * The write exactly as `update` hands it to the store: the form's
   * `intervalCount` is passed under that name, which is not a column of the
   * user table (whose column is `intervalsCount`), so the store refuses it.
   */
  function AppliedAsWritten(u: User, dto: UserDto, hash: string -> string): (r: Result<User, StoreError>)
    ensures r.Ok? ==> r.value.id == u.id
  {
    if dto.pomodoro.intervalCount.Some? then Err(UnknownArgument) else Ok(Applied(u, dto, hash))
  }

  /** A valid form that sets the interval count is refused by the write as written. */
  lemma IntervalCountRejected(u: User, hash: string -> string, isEmail: string -> bool)
    ensures var dto := UserDto(None, None, None, None, PomodoroSettingsDto(None, None, Some(4)));
      UserDtoValid(dto, isEmail) && AppliedAsWritten(u, dto, hash) == Err(UnknownArgument)
  {
  }

  /** The corrected write stores the interval count, and agrees with the write as written on every other form. */
  lemma AppliedIntervalCount(u: User, dto: UserDto, hash: string -> string)
    ensures dto.pomodoro.intervalCount.Some? ==> Applied(u, dto, hash).settings.intervalsCount == dto.pomodoro.intervalCount.value
    ensures dto.pomodoro.intervalCount.None? ==> AppliedAsWritten(u, dto, hash) == Ok(Applied(u, dto, hash))
  {
  }

  /** The password is re-hashed only when one is supplied; supplied fields are written and omitted ones kept. */
  lemma AppliedFields(u: User, dto: UserDto, hash: string -> string)
    ensures dto.password.None? ==> Applied(u, dto, hash).password == u.password
    ensures dto.password.Some? && dto.password.value != "" ==> Applied(u, dto, hash).password == hash(dto.password.value)
    ensures dto.email.Some? ==> Applied(u, dto, hash).email == dto.email.value
    ensures dto.email.None? ==> Applied(u, dto, hash).email == u.email
    ensures dto.name.Some? ==> Applied(u, dto, hash).name == dto.name.value
    ensures dto.name.None? ==> Applied(u, dto, hash).name == u.name
    ensures Applied(u, dto, hash).settings.startTimeOfDay == dto.startTimeOfDay.GetOr(u.settings.startTimeOfDay)
    ensures Applied(u, dto, hash).settings.workInterval == dto.pomodoro.workInterval.GetOr(u.settings.workInterval)
    ensures Applied(u, dto, hash).settings.breakInterval == dto.pomodoro.breakInterval.GetOr(u.settings.breakInterval)
    ensures Applied(u, UserDto(None, None, None, None, PomodoroSettingsDto(None, None, None)), hash) == u
  {
  }

  /**
   * `update`: writes the form over the user's row and returns the name and the
   * email. An unknown user is refused with `NotFound`, an email another user
   * has with `UniqueViolation`. This is the corrected write; see `AppliedAsWritten`.
   */
  method Update(db: Database, id: Id, dto: UserDto, hash: string -> string) returns (r: Result<NameEmail, StoreError>)
    requires db.Valid()
    modifies db`users
    ensures db.Valid()
    ensures var i := FindIndex(old(db.users), u => UserKey(u) == id);
      if i.None? then r == Err(NotFound) && db.users == old(db.users)
      else if dto.email.Some? && exists j :: 0 <= j < |old(db.users)| && j != i.value && old(db.users)[j].email == dto.email.value then
        r == Err(UniqueViolation) && db.users == old(db.users)
      else
        var u := Applied(old(db.users)[i.value], dto, hash);
        && r == Ok(NameEmail(u.name, u.email))
        && db.users == old(db.users)[i.value := u]
  {
    var i := FindIndex(db.users, u => UserKey(u) == id);
    if i.None? {
      return Err(NotFound);
    }
    var k := i.value;
    if dto.email.Some? {
      var clash := FindOther(db.users, k, dto.email.value);
      if clash.Some? {
        return Err(UniqueViolation);
      }
    }
    var u := Applied(db.users[k], dto, hash);
    UpdateKeepsValid(db, k, u);
    db.users := db.users[k := u];
    r := Ok(NameEmail(u.name, u.email));
  }

  /** Another row than `k` with this email, if there is one. */
  function FindOther(us: seq<User>, k: nat, email: string): (r: Option<nat>)
    ensures r.None? <==> forall j :: 0 <= j < |us| && j != k ==> us[j].email != email
    ensures r.Some? ==> r.value < |us| && r.value != k && us[r.value].email == email
  {
    match FindIndex(us, u => HasEmail(u, email))
    case None => None
    case Some(j) =>
      if j != k then Some(j)
      else
        match FindIndex(us[j + 1..], u => HasEmail(u, email))
        case None => None
        case Some(j') => Some(j + 1 + j')
  }

  /** Replacing row `k` by a row with the same identifier and an email no other row has keeps the store valid. */
  lemma UpdateKeepsValid(db: Database, k: nat, u: User)
    requires db.Valid() && k < |db.users| && u.id == db.users[k].id
    requires forall j :: 0 <= j < |db.users| && j != k ==> db.users[j].email != u.email
    ensures var us := db.users[k := u];
      && KeysBelow(us, UserKey, db.nextId)
      && (forall i, j :: 0 <= i < j < |us| ==> us[i].email != us[j].email)
      && UserIds(us) == UserIds(db.users)
  {
    UserIdsUpdate(db.users, k, u);
    ReplaceKeysBelow(db.users, k, u, UserKey, db.nextId);
  }
}
