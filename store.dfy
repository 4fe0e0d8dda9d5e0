/**
 * The relational store the services talk to, as in-memory tables.
 *
 * Every table is a sequence of rows in insertion order. Row identifiers come
 * from one counter, so they increase along every table; the store's own
 * generated string identifiers are modelled as these naturals. Timestamps are
 * milliseconds since the epoch.
 */
module Store {
  import opened Wrappers
  import opened Seqs

  type Id = nat
  type Timestamp = int

  const DayMs: int := 86400000

  /** Midnight UTC of the day holding `t`. */
  function StartOfDay(t: Timestamp): (d: Timestamp)
    ensures d <= t < d + DayMs && d % DayMs == 0
  {
    t - t % DayMs
  }

  /** Every instant of one day has the same start of day. */
  lemma StartOfDaySameDay(t: Timestamp, u: Timestamp)
    requires StartOfDay(t) <= u < StartOfDay(t) + DayMs
    ensures StartOfDay(u) == StartOfDay(t)
  {
    var d := StartOfDay(t);
    var k := d / DayMs;
    assert d == k * DayMs;
    assert u - k * DayMs < DayMs;
    assert u % DayMs == u - k * DayMs;
  }

  /** A later instant never has an earlier start of day. */
  lemma StartOfDayMonotone(t: Timestamp, u: Timestamp)
    requires t <= u
    ensures StartOfDay(t) <= StartOfDay(u)
  {
  }

  /** The task priority enumeration. */
  datatype Priority = Low | Medium | High

  /** A task row. `priority` is `None` when no priority was ever written. */
  datatype Task = Task(id: Id, userId: Id, name: string, isCompleted: bool, createdAt: Timestamp, priority: Option<Priority>)

  /** A time-block row: its position in the user's day plan and an optional link to a task. */
  datatype TimeBlock = TimeBlock(id: Id, userId: Id, order: int, taskId: Option<Id>)

  /** A pomodoro session row and one of its rounds. */
  datatype Session = Session(id: Id, userId: Id, createdAt: Timestamp, isCompleted: bool)
  datatype Round = Round(id: Id, sessionId: Id, totalSeconds: int, isCompleted: bool)

  /** The pomodoro settings a user row carries. */
  datatype Settings = Settings(workInterval: int, breakInterval: int, intervalsCount: int, startTimeOfDay: string)

  /** A user row; `password` holds the stored hash. */
  datatype User = User(id: Id, email: string, name: string, password: string, settings: Settings)

  /**
   * How a write is refused: no row matched, a referenced row is missing, a
   * unique column would repeat, the data names a column the table lacks, or
   * it gives a column a value of the wrong type.
   */
  datatype StoreError = NotFound | ForeignKeyViolation | UniqueViolation | UnknownArgument | InvalidValue

  function UserKey(u: User): nat { u.id }
  function TaskKey(t: Task): nat { t.id }
  function BlockKey(b: TimeBlock): nat { b.id }
  function SessionKey(s: Session): nat { s.id }
  function RoundKey(r: Round): nat { r.id }

  /** The keys of the rows strictly increase and stay below `bound`. */
  ghost predicate KeysBelow<T>(rows: seq<T>, key: T -> nat, bound: nat) {
    && (forall i, j :: 0 <= i < j < |rows| ==> key(rows[i]) < key(rows[j]))
    && (forall i :: 0 <= i < |rows| ==> key(rows[i]) < bound)
  }

  /** Dropping rows keeps the keys increasing. */
  lemma {:induction false} FilterKeysBelow<T(!new)>(rows: seq<T>, p: T -> bool, key: T -> nat, bound: nat)
    requires KeysBelow(rows, key, bound)
    ensures KeysBelow(Filter(rows, p), key, bound)
  {
    if rows != [] {
      var tail := rows[1..];
      assert forall i :: 0 <= i < |tail| ==> tail[i] == rows[i + 1];
      FilterKeysBelow(tail, p, key, bound);
      var r := Filter(rows, p);
      if p(rows[0]) {
        assert r == [rows[0]] + Filter(tail, p);
        forall j | 0 < j < |r| ensures key(r[0]) < key(r[j]) {
          assert r[j] in Filter(tail, p);
          var m :| 0 <= m < |tail| && tail[m] == r[j];
        }
      }
    }
  }

  /** Appending a row with a key between the current maximum and the new bound keeps the invariant. */
  lemma AppendKeysBelow<T>(rows: seq<T>, row: T, key: T -> nat, bound: nat, bound': nat)
    requires KeysBelow(rows, key, bound)
    requires bound <= key(row) < bound'
    ensures KeysBelow(rows + [row], key, bound')
  {
  }

  /** Removing one row keeps the keys increasing. */
  lemma RemoveKeysBelow<T>(rows: seq<T>, i: nat, key: T -> nat, bound: nat)
    requires KeysBelow(rows, key, bound) && i < |rows|
    ensures KeysBelow(rows[..i] + rows[i + 1..], key, bound)
  {
    var r := rows[..i] + rows[i + 1..];
    forall a, b | 0 <= a < b < |r| ensures key(r[a]) < key(r[b]) {
      var a' := if a < i then a else a + 1;
      var b' := if b < i then b else b + 1;
      assert r[a] == rows[a'] && r[b] == rows[b'];
    }
  }

  /** Appending a batch whose keys increase from `bound` on keeps the invariant. */
  lemma AppendAllKeysBelow<T>(rows: seq<T>, more: seq<T>, key: T -> nat, bound: nat, bound': nat)
    requires KeysBelow(rows, key, bound)
    requires KeysBelow(more, key, bound')
    requires bound <= bound'
    requires forall i :: 0 <= i < |more| ==> bound <= key(more[i])
    ensures KeysBelow(rows + more, key, bound')
  {
    var r := rows + more;
    forall a, b | 0 <= a < b < |r| ensures key(r[a]) < key(r[b]) {
      if b < |rows| {
      } else if a < |rows| {
        assert key(r[a]) < bound <= key(more[b - |rows|]);
      } else {
        assert r[a] == more[a - |rows|] && r[b] == more[b - |rows|];
      }
    }
  }

  /** Rows with the same keys, position by position, keep the invariant. */
  lemma SameKeysBelow<T>(rows: seq<T>, rows': seq<T>, key: T -> nat, bound: nat)
    requires KeysBelow(rows, key, bound) && |rows'| == |rows|
    requires forall k :: 0 <= k < |rows| ==> key(rows'[k]) == key(rows[k])
    ensures KeysBelow(rows', key, bound)
  {
    forall a, b | 0 <= a < b < |rows'| ensures key(rows'[a]) < key(rows'[b]) {
      assert key(rows'[a]) == key(rows[a]) && key(rows'[b]) == key(rows[b]);
    }
  }

  /** Replacing a row by one with the same key keeps the invariant. */
  lemma ReplaceKeysBelow<T>(rows: seq<T>, i: nat, row: T, key: T -> nat, bound: nat)
    requires KeysBelow(rows, key, bound) && i < |rows| && key(row) == key(rows[i])
    ensures KeysBelow(rows[i := row], key, bound)
  {
    SameKeysBelow(rows, rows[i := row], key, bound);
  }

  /** Rows keyed `first`, `first + 1`, ... in order satisfy the invariant. */
  lemma ConsecutiveKeysBelow<T>(rows: seq<T>, key: T -> nat, first: nat)
    requires forall k :: 0 <= k < |rows| ==> key(rows[k]) == first + k
    ensures KeysBelow(rows, key, first + |rows|)
  {
  }

  /** Two rows of a table with increasing keys that share a key are the same row. */
  lemma KeysUnique<T>(rows: seq<T>, key: T -> nat, bound: nat, i: nat, j: nat)
    requires KeysBelow(rows, key, bound) && i < |rows| && j < |rows|
    requires key(rows[i]) == key(rows[j])
    ensures i == j
  {
  }

  /** The identifiers of the users, as a set. */
  function UserIds(us: seq<User>): set<Id> {
    if us == [] then {} else {us[0].id} + UserIds(us[1..])
  }

  /** An identifier is in the set exactly when some user row carries it. */
  lemma {:induction false} UserIdsIff(us: seq<User>, id: Id)
    ensures id in UserIds(us) <==> exists i :: 0 <= i < |us| && us[i].id == id
  {
    if us != [] {
      UserIdsIff(us[1..], id);
      if id != us[0].id && id in UserIds(us) {
        var i :| 0 <= i < |us[1..]| && us[1..][i].id == id;
        assert us[i + 1].id == id;
      }
      if exists i :: 0 <= i < |us| && us[i].id == id {
        var i :| 0 <= i < |us| && us[i].id == id;
        if i > 0 {
          assert us[1..][i - 1].id == id;
        }
      }
    }
  }

  lemma {:induction false} UserIdsSnoc(us: seq<User>, u: User)
    ensures UserIds(us + [u]) == UserIds(us) + {u.id}
  {
    if us != [] {
      assert (us + [u])[1..] == us[1..] + [u];
      UserIdsSnoc(us[1..], u);
    } else {
      assert [u][1..] == [];
    }
  }

  /** Replacing a user row by one with the same identifier keeps the set of identifiers. */
  lemma {:induction false} UserIdsUpdate(us: seq<User>, i: nat, u: User)
    requires i < |us| && u.id == us[i].id
    ensures UserIds(us[i := u]) == UserIds(us)
  {
    if i > 0 {
      assert us[i := u][1..] == us[1..][i - 1 := u];
      UserIdsUpdate(us[1..], i - 1, u);
    } else {
      assert us[i := u][1..] == us[1..];
    }
  }

  /** The store invariant, on the tables and the identifier counter. */
  ghost predicate Invariant(users: seq<User>, tasks: seq<Task>, blocks: seq<TimeBlock>, sessions: seq<Session>,
                            rounds: seq<Round>, nextId: nat)
  {
    && KeysBelow(users, UserKey, nextId)
    && KeysBelow(tasks, TaskKey, nextId)
    && KeysBelow(blocks, BlockKey, nextId)
    && KeysBelow(sessions, SessionKey, nextId)
    && KeysBelow(rounds, RoundKey, nextId)
    && (forall i, j :: 0 <= i < j < |users| ==> users[i].email != users[j].email)
    && (forall i :: 0 <= i < |tasks| ==> tasks[i].userId in UserIds(users))
    && (forall i :: 0 <= i < |blocks| ==> blocks[i].userId in UserIds(users))
    && (forall i :: 0 <= i < |sessions| ==> sessions[i].userId in UserIds(users))
    && (forall i :: 0 <= i < |rounds| ==> rounds[i].sessionId < nextId)
  }

  lemma RaiseKeysBelow<T>(rows: seq<T>, key: T -> nat, bound: nat, bound': nat)
    requires KeysBelow(rows, key, bound) && bound <= bound'
    ensures KeysBelow(rows, key, bound')
  {
  }

  /** A task of an existing user, with the next identifier, can be appended. */
  lemma AppendTaskKeepsInvariant(users: seq<User>, tasks: seq<Task>, blocks: seq<TimeBlock>, sessions: seq<Session>,
                                 rounds: seq<Round>, nextId: nat, t: Task)
    requires Invariant(users, tasks, blocks, sessions, rounds, nextId)
    requires t.id == nextId && t.userId in UserIds(users)
    ensures Invariant(users, tasks + [t], blocks, sessions, rounds, nextId + 1)
  {
    RaiseKeysBelow(users, UserKey, nextId, nextId + 1);
    AppendKeysBelow(tasks, t, TaskKey, nextId, nextId + 1);
    RaiseKeysBelow(blocks, BlockKey, nextId, nextId + 1);
    RaiseKeysBelow(sessions, SessionKey, nextId, nextId + 1);
    RaiseKeysBelow(rounds, RoundKey, nextId, nextId + 1);
    var ts := tasks + [t];
    assert forall i :: 0 <= i < |ts| ==> ts[i] == if i < |tasks| then tasks[i] else t;
  }

  /** A batch of tasks of existing users, keyed upwards from the next identifier, can be appended. */
  lemma AppendTasksKeepInvariant(users: seq<User>, tasks: seq<Task>, blocks: seq<TimeBlock>, sessions: seq<Session>,
                                 rounds: seq<Round>, nextId: nat, more: seq<Task>)
    requires Invariant(users, tasks, blocks, sessions, rounds, nextId)
    requires KeysBelow(more, TaskKey, nextId + |more|)
    requires forall i :: 0 <= i < |more| ==> nextId <= more[i].id && more[i].userId in UserIds(users)
    ensures Invariant(users, tasks + more, blocks, sessions, rounds, nextId + |more|)
  {
    var bound := nextId + |more|;
    RaiseKeysBelow(users, UserKey, nextId, bound);
    AppendAllKeysBelow(tasks, more, TaskKey, nextId, bound);
    RaiseKeysBelow(blocks, BlockKey, nextId, bound);
    RaiseKeysBelow(sessions, SessionKey, nextId, bound);
    RaiseKeysBelow(rounds, RoundKey, nextId, bound);
    var ts := tasks + more;
    assert forall i :: 0 <= i < |ts| ==> ts[i] == if i < |tasks| then tasks[i] else more[i - |tasks|];
  }

  /** A time block of an existing user, with the next identifier, can be appended. */
  lemma AppendBlockKeepsInvariant(users: seq<User>, tasks: seq<Task>, blocks: seq<TimeBlock>, sessions: seq<Session>,
                                  rounds: seq<Round>, nextId: nat, b: TimeBlock)
    requires Invariant(users, tasks, blocks, sessions, rounds, nextId)
    requires b.id == nextId && b.userId in UserIds(users)
    ensures Invariant(users, tasks, blocks + [b], sessions, rounds, nextId + 1)
  {
    RaiseKeysBelow(users, UserKey, nextId, nextId + 1);
    RaiseKeysBelow(tasks, TaskKey, nextId, nextId + 1);
    AppendKeysBelow(blocks, b, BlockKey, nextId, nextId + 1);
    RaiseKeysBelow(sessions, SessionKey, nextId, nextId + 1);
    RaiseKeysBelow(rounds, RoundKey, nextId, nextId + 1);
    var bs := blocks + [b];
    assert forall i :: 0 <= i < |bs| ==> bs[i] == if i < |blocks| then blocks[i] else b;
  }

  /** A session of an existing user, with the next identifier, can be appended. */
  lemma AppendSessionKeepsInvariant(users: seq<User>, tasks: seq<Task>, blocks: seq<TimeBlock>, sessions: seq<Session>,
                                    rounds: seq<Round>, nextId: nat, s: Session)
    requires Invariant(users, tasks, blocks, sessions, rounds, nextId)
    requires s.id == nextId && s.userId in UserIds(users)
    ensures Invariant(users, tasks, blocks, sessions + [s], rounds, nextId + 1)
  {
    RaiseKeysBelow(users, UserKey, nextId, nextId + 1);
    RaiseKeysBelow(tasks, TaskKey, nextId, nextId + 1);
    RaiseKeysBelow(blocks, BlockKey, nextId, nextId + 1);
    AppendKeysBelow(sessions, s, SessionKey, nextId, nextId + 1);
    RaiseKeysBelow(rounds, RoundKey, nextId, nextId + 1);
    var ss := sessions + [s];
    assert forall i :: 0 <= i < |ss| ==> ss[i] == if i < |sessions| then sessions[i] else s;
  }

  /** A batch of rounds of handed-out sessions, keyed upwards from the next identifier, can be appended. */
  lemma AppendRoundsKeepInvariant(users: seq<User>, tasks: seq<Task>, blocks: seq<TimeBlock>, sessions: seq<Session>,
                                  rounds: seq<Round>, nextId: nat, more: seq<Round>)
    requires Invariant(users, tasks, blocks, sessions, rounds, nextId)
    requires KeysBelow(more, RoundKey, nextId + |more|)
    requires forall i :: 0 <= i < |more| ==> nextId <= more[i].id && more[i].sessionId < nextId
    ensures Invariant(users, tasks, blocks, sessions, rounds + more, nextId + |more|)
  {
    var bound := nextId + |more|;
    RaiseKeysBelow(users, UserKey, nextId, bound);
    RaiseKeysBelow(tasks, TaskKey, nextId, bound);
    RaiseKeysBelow(blocks, BlockKey, nextId, bound);
    RaiseKeysBelow(sessions, SessionKey, nextId, bound);
    AppendAllKeysBelow(rounds, more, RoundKey, nextId, bound);
    var rs := rounds + more;
    assert forall i :: 0 <= i < |rs| ==> rs[i] == if i < |rounds| then rounds[i] else more[i - |rounds|];
  }

  class Database {
    var users: seq<User>
    var tasks: seq<Task>
    var blocks: seq<TimeBlock>
    var sessions: seq<Session>
    var rounds: seq<Round>
    /** The next identifier the store hands out. */
    var nextId: nat
    /** The column defaults a new user row receives. */
    const userDefaults: Settings

    /**
     * Identifiers are unique and increasing in every table, no two users share
     * an email, every task, time block and session belongs to an existing user,
     * and every round points at an identifier already handed out.
     */
    ghost predicate Valid()
      reads this
    {
      Invariant(users, tasks, blocks, sessions, rounds, nextId)
    }

    constructor (userDefaults: Settings)
      ensures Valid()
      ensures users == [] && tasks == [] && blocks == [] && sessions == [] && rounds == []
      ensures this.userDefaults == userDefaults
    {
      users, tasks, blocks, sessions, rounds := [], [], [], [], [];
      nextId := 0;
      this.userDefaults := userDefaults;
    }

    predicate HasUser(id: Id)
      reads this`users
    {
      id in UserIds(users)
    }

    /** The user row with this identifier, if there is one. */
    function UserById(id: Id): (r: Option<User>)
      reads this`users
      ensures r.Some? <==> HasUser(id)
      ensures r.Some? ==> r.value in users && r.value.id == id
    {
      UserIdsIff(users, id);
      match FindIndex(users, u => UserKey(u) == id)
      case None => None
      case Some(i) => Some(users[i])
    }

    predicate HasTask(id: Id)
      reads this`tasks
    {
      exists i :: 0 <= i < |tasks| && tasks[i].id == id
    }
  }
}
