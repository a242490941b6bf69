/**
  The four record types, their defaults, the ownership guard and the delete cascades.

  Every table is a map from primary key to record, so a record's `id` column is its key.
  Primary keys are SQLite row ids: positive, and a new row gets one more than the largest
  key in the table. The `user_id` columns are nullable, so the owner is an `Option`.
*/
module Models {
  import opened Optional
  import opened Chrono

  type Id = nat
  type UserId = int

  datatype User = User(email: string, password: string, firstName: string)

  datatype Note = Note(data: string, date: DateTime, userId: Option<UserId>)

  datatype CalendarEvent = CalendarEvent(
    title: string,
    description: string,
    eventDate: Date,             // non-null: every event has a date
    startTime: Option<Time>,     // none: an all-day event
    endTime: Option<Time>,
    color: string,
    createdAt: DateTime,
    userId: Option<UserId>,
    noteId: Option<int>)         // nullable link to a note, never checked

  datatype RoadmapGoal = RoadmapGoal(
    title: string,               // non-null
    description: string,
    position: int,
    deadline: Option<Date>,
    isCompleted: bool,
    createdAt: DateTime,
    completedAt: Option<DateTime>,
    userId: Option<UserId>)

  /** The column default of `CalendarEvent.color`. */
  const DEFAULT_COLOR := "#007bff"

  /** The shared ownership guard: a record is read or changed only by its owner. */
  predicate OwnedBy(owner: Option<UserId>, caller: UserId) {
    owner == Some(caller)
  }

  /** What a JSON handler answers: a payload, or an HTTP error status. */
  datatype Reply<+T> = Success(value: T) | Failure(status: int)

  const BAD_REQUEST := 400
  const FORBIDDEN := 403
  const NOT_FOUND := 404
  const SERVER_ERROR := 500

  /** One handler's effect on one table: its reply and the table as committed. */
  datatype Step<T, +R> = Step(reply: R, rows: map<Id, T>)

  /** `Model.query.get(id)` for an id taken from a request. */
  predicate Exists<T>(rows: map<Id, T>, id: int) {
    0 <= id && id as Id in rows
  }

  lemma LeastExists(s: set<Id>)
    requires |s| > 0
    ensures exists m :: m in s && forall y | y in s :: m <= y
  {
    var x :| x in s;
    LeastAtMost(s, x);
  }

  /** Some key of `s` no larger than `n` is the least one: descend through smaller keys. */
  lemma {:induction false} LeastAtMost(s: set<Id>, n: Id)
    requires n in s
    ensures exists m :: m in s && forall y | y in s :: m <= y
    decreases n
  {
    if y :| y in s && y < n {
      LeastAtMost(s, y);
    } else {
      assert forall y | y in s :: n <= y;
    }
  }

  function Least(s: set<Id>): (m: Id)
    requires |s| > 0
    ensures m in s && forall y | y in s :: m <= y
  {
    LeastExists(s);
    var m :| m in s && forall y | y in s :: m <= y;
    m
  }

  /** The keys of a table in ascending order: the order of a query without ORDER BY. */
  function Ascending(s: set<Id>): (r: seq<Id>)
    ensures |r| == |s|
    ensures forall i | 0 <= i < |r| :: r[i] in s
    ensures forall k | k in s :: k in r
    ensures forall i, j | 0 <= i < j < |r| :: r[i] < r[j]
    decreases |s|
  {
    if |s| == 0 then []
    else
      var m := Least(s);
      var rest := Ascending(s - {m});
      PrependLeast(s, m, rest);
      [m] + rest
  }

  lemma PrependLeast(s: set<Id>, m: Id, rest: seq<Id>)
    requires m in s && forall y | y in s :: m <= y
    requires |rest| == |s - {m}|
    requires forall i | 0 <= i < |rest| :: rest[i] in s - {m}
    requires forall k | k in s - {m} :: k in rest
    requires forall i, j | 0 <= i < j < |rest| :: rest[i] < rest[j]
    ensures |[m] + rest| == |s|
    ensures forall i | 0 <= i < |[m] + rest| :: ([m] + rest)[i] in s
    ensures forall k | k in s :: k in [m] + rest
    ensures forall i, j | 0 <= i < j < |[m] + rest| :: ([m] + rest)[i] < ([m] + rest)[j]
  {
    var r := [m] + rest;
    forall k | k in s
      ensures k in r
    {
      if k != m {
        assert k in s - {m};
      }
    }
    forall i, j | 0 <= i < j < |r|
      ensures r[i] < r[j]
    {
      assert r[j] == rest[j - 1];
      if i > 0 {
        assert r[i] == rest[i - 1];
      }
    }
  }

  /** The key SQLite gives the next inserted row. */
  function NextId<T>(rows: map<Id, T>): (id: Id)
    ensures id !in rows && id >= 1
    ensures forall k | k in rows :: k < id
  {
    var keys := Ascending(rows.Keys);
    if |keys| == 0 then 1 else keys[|keys| - 1] + 1
  }

  /** Storing under a fresh key adds that key and keeps every other row. */
  lemma InsertFresh<T>(rows: map<Id, T>, id: Id, v: T)
    requires id !in rows
    ensures rows[id := v].Keys == rows.Keys + {id}
    ensures forall k | k in rows :: rows[id := v][k] == rows[k]
  {
  }

  /** A subset is no larger than its superset, and the difference makes up the rest. */
  lemma SubsetCard(a: set<Id>, b: set<Id>)
    requires a <= b
    ensures |a| <= |b| && |b - a| == |b| - |a|
  {
    assert b == a + (b - a);
  }

  // ---------------------------------------------------------------------------
  // Delete cascades of the relationships declared on the models
  // ---------------------------------------------------------------------------

  /**
    `CalendarEvent.note` has a `calendar_events` backref without a delete cascade: when
    a note is deleted, the events linked to it stay and lose their link.
  */
  function UnlinkNote(events: map<Id, CalendarEvent>, noteId: Id): (r: map<Id, CalendarEvent>)
    ensures r.Keys == events.Keys
    ensures forall k | k in r :: r[k].noteId != Some(noteId as int)
    ensures forall k | k in r :: r[k] == events[k].(noteId := r[k].noteId)
    ensures forall k | k in r && events[k].noteId != Some(noteId as int) :: r[k] == events[k]
  {
    map k | k in events :: if events[k].noteId == Some(noteId as int) then events[k].(noteId := None) else events[k]
  }

  /** The session: one table per model. */
  class Database {
    var users: map<Id, User>
    var notes: map<Id, Note>
    var events: map<Id, CalendarEvent>
    var goals: map<Id, RoadmapGoal>

    constructor ()
      ensures users == map[] && notes == map[] && events == map[] && goals == map[]
    {
      users, notes, events, goals := map[], map[], map[], map[];
    }

    /**
      Deleting a user: `calendar_events` and `roadmap_goals` cascade ("all, delete"), so
      the user's events and goals go with it; `notes` declares no cascade, so the user's
      notes stay, orphaned (their owner becomes null).
    */
    method DeleteUser(uid: Id)
      modifies this
      ensures users == old(users) - {uid}
      ensures events == map k | k in old(events) && !OwnedBy(old(events)[k].userId, uid) :: old(events)[k]
      ensures goals == map k | k in old(goals) && !OwnedBy(old(goals)[k].userId, uid) :: old(goals)[k]
      ensures notes.Keys == old(notes).Keys
      ensures forall k | k in notes :: notes[k] == old(notes)[k].(userId := notes[k].userId)
      ensures forall k | k in notes :: notes[k].userId == if OwnedBy(old(notes)[k].userId, uid) then None else old(notes)[k].userId
    {
      users := users - {uid};
      events := map k | k in events && !OwnedBy(events[k].userId, uid) :: events[k];
      goals := map k | k in goals && !OwnedBy(goals[k].userId, uid) :: goals[k];
      notes := map k | k in notes :: if OwnedBy(notes[k].userId, uid) then notes[k].(userId := None) else notes[k];
    }
  }
}
