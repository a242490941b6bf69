/**
  The roadmap: each user's goals, ordered by an integer `position`.

  Creating appends a goal after the caller's highest position. Deleting renumbers the
  caller's remaining goals 1..n in their current order. Reordering gives each listed goal
  the position 1 + its index. A partial update changes only the fields it names.
  The caller's id, "today" and "now" are parameters.
*/
module Roadmap {
  import opened Optional
  import opened Chrono
  import opened Models

  type Goals = map<Id, RoadmapGoal>

  /** `RoadmapGoal.query.filter_by(user_id=caller)`, as a set of keys. */
  function OwnedIds(goals: Goals, caller: UserId): set<Id> {
    set k | k in goals && OwnedBy(goals[k].userId, caller)
  }

  /**
    `ORDER BY position`. SQL leaves ties unordered; the model breaks them by primary key,
    the order in which SQLite stores the rows.
  */
  predicate Before(goals: Goals, a: Id, b: Id)
    requires a in goals && b in goals
  {
    goals[a].position < goals[b].position || (goals[a].position == goals[b].position && a < b)
  }

  /** The first of `ks` in list order: a scan that keeps the earlier of two goals. */
  function FirstOf(goals: Goals, ks: seq<Id>): (m: Id)
    requires |ks| > 0 && forall i | 0 <= i < |ks| :: ks[i] in goals
    ensures m in ks && forall i | 0 <= i < |ks| && ks[i] != m :: Before(goals, m, ks[i])
  {
    if |ks| == 1 then ks[0]
    else
      var m := FirstOf(goals, ks[1..]);
      assert forall i | 1 <= i < |ks| :: ks[i] == ks[1..][i - 1];
      if Before(goals, ks[0], m) then ks[0] else m
  }

  function First(goals: Goals, s: set<Id>): (m: Id)
    requires s <= goals.Keys && |s| > 0
    ensures m in s && forall k | k in s && k != m :: Before(goals, m, k)
  {
    var ks := Ascending(s);
    var m := FirstOf(goals, ks);
    assert forall k | k in s && k != m :: Before(goals, m, k) by {
      forall k | k in s && k != m
        ensures Before(goals, m, k)
      {
        var i :| 0 <= i < |ks| && ks[i] == k;
      }
    }
    m
  }

  /** The keys in `s`, listed by ascending position (ties by key). */
  function ByPosition(goals: Goals, s: set<Id>): (r: seq<Id>)
    requires s <= goals.Keys
    ensures |r| == |s|
    ensures forall i | 0 <= i < |r| :: r[i] in s
    ensures forall k | k in s :: k in r
    ensures forall i, j | 0 <= i < j < |r| :: Before(goals, r[i], r[j])
    decreases |s|
  {
    if |s| == 0 then []
    else
      var m := First(goals, s);
      var rest := ByPosition(goals, s - {m});
      PrependFirst(goals, s, m, rest);
      [m] + rest
  }

  lemma PrependFirst(goals: Goals, s: set<Id>, m: Id, rest: seq<Id>)
    requires s <= goals.Keys && m in s && forall k | k in s && k != m :: Before(goals, m, k)
    requires |rest| == |s - {m}|
    requires forall i | 0 <= i < |rest| :: rest[i] in s - {m}
    requires forall k | k in s - {m} :: k in rest
    requires forall i, j | 0 <= i < j < |rest| :: Before(goals, rest[i], rest[j])
    ensures var r := [m] + rest;
      && |r| == |s|
      && (forall i | 0 <= i < |r| :: r[i] in s)
      && (forall k | k in s :: k in r)
      && (forall i, j | 0 <= i < j < |r| :: Before(goals, r[i], r[j]))
  {
    var r := [m] + rest;
    forall i, j | 0 <= i < j < |r|
      ensures Before(goals, r[i], r[j])
    {
      assert r[j] == rest[j - 1];
      if i > 0 {
        assert r[i] == rest[i - 1];
      }
    }
    forall k | k in s
      ensures k in r
    {
      if k != m {
        assert k in s - {m};
      }
    }
  }

  /** Comparing two listed goals is comparing their indices. */
  lemma ByPositionIndexOrder(goals: Goals, s: set<Id>, i: nat, j: nat)
    requires s <= goals.Keys
    requires i < |ByPosition(goals, s)| && j < |ByPosition(goals, s)|
    ensures var r := ByPosition(goals, s);
      (Before(goals, r[i], r[j]) <==> i < j) && (r[i] == r[j] <==> i == j)
  {
    var r := ByPosition(goals, s);
    if j < i {
      assert Before(goals, r[j], r[i]);
    } else if i < j {
      assert Before(goals, r[i], r[j]);
    }
  }

  /** `filter_by(user_id=caller).order_by(RoadmapGoal.position).all()` */
  function ListOrder(goals: Goals, caller: UserId): (r: seq<Id>)
    ensures |r| == |OwnedIds(goals, caller)|
    ensures forall i | 0 <= i < |r| :: r[i] in goals && OwnedBy(goals[r[i]].userId, caller)
    ensures forall k | k in goals && OwnedBy(goals[k].userId, caller) :: k in r
  {
    ByPosition(goals, OwnedIds(goals, caller))
  }

  /** The list has no repeats and runs by non-decreasing position. */
  lemma ListOrderSorted(goals: Goals, caller: UserId)
    ensures var r := ListOrder(goals, caller);
      forall i, j | 0 <= i < j < |r| :: r[i] != r[j] && goals[r[i]].position <= goals[r[j]].position
  {
    var r := ListOrder(goals, caller);
    assert forall i, j | 0 <= i < j < |r| :: Before(goals, r[i], r[j]);
  }

  /**
    The caller's positions are 1..n: n distinct values, each between 1 and the number n
    of the caller's goals.
  */
  ghost predicate PositionsDense(goals: Goals, caller: UserId) {
    var ids := OwnedIds(goals, caller);
    && (forall k | k in ids :: 1 <= goals[k].position <= |ids|)
    && (forall a, b | a in ids && b in ids && a != b :: goals[a].position != goals[b].position)
  }

  // ---------------------------------------------------------------------------
  // get_goals
  // ---------------------------------------------------------------------------

  datatype GoalView = GoalView(
    id: Id,
    title: string,
    description: string,
    position: int,
    deadline: Option<string>,
    isCompleted: bool,
    createdAt: string,
    completedAt: Option<string>,
    daysRemaining: nat,
    isOverdue: bool)

  /** `days_remaining`: the days left until the deadline, never negative; 0 without one. */
  function DaysRemaining(g: RoadmapGoal, today: Date): nat {
    match g.deadline
    case None => 0
    case Some(d) => if DaysBetween(d, today) > 0 then DaysBetween(d, today) else 0
  }

  /** `is_overdue`: a deadline some days in the past, and not completed. */
  predicate IsOverdue(g: RoadmapGoal, today: Date) {
    g.deadline.Some? && DaysBetween(g.deadline.value, today) < 0 && !g.isCompleted
  }

  function ViewOf(id: Id, g: RoadmapGoal, today: Date): GoalView {
    GoalView(
      id, g.title, g.description, g.position,
      if g.deadline.Some? then Some(FormatDate(g.deadline.value)) else None,
      g.isCompleted,
      FormatDateTimeMinutes(g.createdAt),
      if g.completedAt.Some? then Some(FormatDateTimeMinutes(g.completedAt.value)) else None,
      DaysRemaining(g, today),
      IsOverdue(g, today))
  }

  /** The reply of GET /roadmap/goals. */
  function GoalViews(goals: Goals, caller: UserId, today: Date): seq<GoalView> {
    var order := ListOrder(goals, caller);
    seq(|order|, i requires 0 <= i < |order| => ViewOf(order[i], goals[order[i]], today))
  }

  /** `get_goals`: one view per goal, appended in list order. */
  method GetGoals(db: Database, caller: UserId, today: Date) returns (views: seq<GoalView>)
    ensures views == GoalViews(db.goals, caller, today)
  {
    var goals := db.goals;
    var order := ListOrder(goals, caller);
    GoalViewsLength(goals, caller, today);
    views := [];
    for i := 0 to |order|
      invariant views == GoalViews(goals, caller, today)[..i]
    {
      GoalViewAt(goals, caller, today, i);
      TakeOneMore(GoalViews(goals, caller, today), i);
      views := views + [ViewOf(order[i], goals[order[i]], today)];
    }
  }

  lemma GoalViewsLength(goals: Goals, caller: UserId, today: Date)
    ensures |GoalViews(goals, caller, today)| == |ListOrder(goals, caller)|
  {
  }

  lemma GoalViewAt(goals: Goals, caller: UserId, today: Date, i: nat)
    requires i < |ListOrder(goals, caller)|
    ensures var order := ListOrder(goals, caller);
      i < |GoalViews(goals, caller, today)| && GoalViews(goals, caller, today)[i] == ViewOf(order[i], goals[order[i]], today)
  {
  }

  /** Taking one more element of a sequence appends that element. */
  lemma TakeOneMore<T>(s: seq<T>, i: nat)
    requires i < |s|
    ensures s[..i + 1] == s[..i] + [s[i]]
  {
  }

  lemma GoalViewsShowGoals(goals: Goals, caller: UserId, today: Date)
    ensures var views := GoalViews(goals, caller, today);
      && |views| == |OwnedIds(goals, caller)|
      && (forall i | 0 <= i < |views| ::
            views[i].id in goals && OwnedBy(goals[views[i].id].userId, caller)
            && views[i] == ViewOf(views[i].id, goals[views[i].id], today))
  {
    var views := GoalViews(goals, caller, today);
    GoalViewsLength(goals, caller, today);
    forall i | 0 <= i < |views|
      ensures views[i].id in goals && OwnedBy(goals[views[i].id].userId, caller)
      ensures views[i] == ViewOf(views[i].id, goals[views[i].id], today)
    {
      GoalViewAt(goals, caller, today, i);
    }
  }

  lemma GoalViewsCoverGoals(goals: Goals, caller: UserId, today: Date)
    ensures var views := GoalViews(goals, caller, today);
      forall k | k in goals && OwnedBy(goals[k].userId, caller) :: exists i | 0 <= i < |views| :: views[i].id == k
  {
    var order := ListOrder(goals, caller);
    var views := GoalViews(goals, caller, today);
    GoalViewsLength(goals, caller, today);
    forall k | k in goals && OwnedBy(goals[k].userId, caller)
      ensures exists i | 0 <= i < |views| :: views[i].id == k
    {
      var i :| 0 <= i < |order| && order[i] == k;
      GoalViewAt(goals, caller, today, i);
      assert views[i].id == k;
    }
  }

  /** The list holds exactly the caller's goals, and each view shows its goal. */
  lemma GoalViewsListCallersGoals(goals: Goals, caller: UserId, today: Date)
    ensures var views := GoalViews(goals, caller, today);
      && |views| == |OwnedIds(goals, caller)|
      && (forall i | 0 <= i < |views| ::
            views[i].id in goals && OwnedBy(goals[views[i].id].userId, caller)
            && views[i].position == goals[views[i].id].position
            && views[i].isCompleted == goals[views[i].id].isCompleted)
      && (forall k | k in goals && OwnedBy(goals[k].userId, caller) :: exists i | 0 <= i < |views| :: views[i].id == k)
  {
    GoalViewsShowGoals(goals, caller, today);
    GoalViewsCoverGoals(goals, caller, today);
  }

  /** Each goal is listed once, by ascending position. */
  lemma GoalViewsByPosition(goals: Goals, caller: UserId, today: Date)
    ensures var views := GoalViews(goals, caller, today);
      forall i, j | 0 <= i < j < |views| :: views[i].id != views[j].id && views[i].position <= views[j].position
  {
    var order := ListOrder(goals, caller);
    var views := GoalViews(goals, caller, today);
    GoalViewsLength(goals, caller, today);
    ListOrderSorted(goals, caller);
    forall i, j | 0 <= i < j < |views|
      ensures views[i].id != views[j].id && views[i].position <= views[j].position
    {
      GoalViewAt(goals, caller, today, i);
      GoalViewAt(goals, caller, today, j);
    }
  }

  /**
    The two derived fields, stated with Python's date comparison: `is_overdue` holds iff
    the deadline is before today and the goal is not completed, and `days_remaining` is
    positive iff the deadline is after today.
  */
  lemma OverdueMeansPastDeadline(g: RoadmapGoal, today: Date)
    requires ValidDate(today)
    requires g.deadline.Some? ==> ValidDate(g.deadline.value)
    ensures IsOverdue(g, today) <==> g.deadline.Some? && DateBefore(g.deadline.value, today) && !g.isCompleted
    ensures DaysRemaining(g, today) > 0 <==> g.deadline.Some? && DateBefore(today, g.deadline.value)
    ensures g.deadline.Some? && DaysRemaining(g, today) > 0 ==> DaysRemaining(g, today) == DaysBetween(g.deadline.value, today)
  {
    if g.deadline.Some? {
      BeforeIffNegativeDays(g.deadline.value, today);
      BeforeIffNegativeDays(today, g.deadline.value);
    }
  }

  // ---------------------------------------------------------------------------
  // create_goal
  // ---------------------------------------------------------------------------

  datatype GoalRequest = GoalRequest(title: Option<string>, description: Option<string>, deadline: Option<string>)

  /** `max(position)` over the caller's goals, `or 0` when there are none. */
  function MaxPosition(goals: Goals, caller: UserId): int {
    var order := ListOrder(goals, caller);
    if |order| == 0 then 0 else goals[order[|order| - 1]].position
  }

  /** The maximum bounds every position of the caller's and is one of them; 0 without goals. */
  lemma MaxPositionBounds(goals: Goals, caller: UserId)
    ensures var p := MaxPosition(goals, caller);
      && (forall k | k in goals && OwnedBy(goals[k].userId, caller) :: goals[k].position <= p)
      && (OwnedIds(goals, caller) == {} ==> p == 0)
      && (OwnedIds(goals, caller) != {} ==> exists k | k in OwnedIds(goals, caller) :: goals[k].position == p)
  {
    var order := ListOrder(goals, caller);
    if |order| > 0 {
      var last := order[|order| - 1];
      assert last in OwnedIds(goals, caller);
      ListOrderSorted(goals, caller);
      forall k | k in goals && OwnedBy(goals[k].userId, caller)
        ensures goals[k].position <= goals[last].position
      {
        var i :| 0 <= i < |order| && order[i] == k;
        assert i < |order| - 1 ==> goals[order[i]].position <= goals[order[|order| - 1]].position;
      }
    } else {
      assert |OwnedIds(goals, caller)| == 0;
    }
  }

  /** `data.get('deadline')` is truthy and strptime refuses it. */
  predicate BadDeadline(deadline: Option<string>) {
    deadline.Some? && deadline.value != "" && ParseDate(deadline.value).None?
  }

  /** The deadline a request stores: none when absent or empty, else the parsed date. */
  function RequestedDeadline(deadline: Option<string>): Option<Date> {
    if deadline.Some? && deadline.value != "" then ParseDate(deadline.value) else None
  }

  /** POST /roadmap/goals. Both failures answer 400 and store nothing. */
  function GoalCreated(goals: Goals, caller: UserId, req: GoalRequest, now: DateTime): Step<RoadmapGoal, Reply<Id>> {
    if BadDeadline(req.deadline) then Step(Failure(BAD_REQUEST), goals)        // ValueError
    else if req.title.None? then Step(Failure(BAD_REQUEST), goals)             // KeyError on data['title']
    else
      var id := NextId(goals);
      var goal := RoadmapGoal(
        req.title.value, req.description.GetOr(""), MaxPosition(goals, caller) + 1,
        RequestedDeadline(req.deadline), false, now, None, Some(caller));
      Step(Success(id), goals[id := goal])
  }

  lemma CreatedGoalStored(goals: Goals, caller: UserId, req: GoalRequest, now: DateTime)
    requires req.title.Some? && !BadDeadline(req.deadline)
    ensures var id := NextId(goals);
      GoalCreated(goals, caller, req, now) == Step(Success(id), goals[id := RoadmapGoal(
        req.title.value, req.description.GetOr(""), MaxPosition(goals, caller) + 1,
        RequestedDeadline(req.deadline), false, now, None, Some(caller))])
  {
  }

  method CreateGoal(db: Database, caller: UserId, req: GoalRequest, now: DateTime) returns (r: Reply<Id>)
    modifies db`goals
    ensures Step(r, db.goals) == GoalCreated(old(db.goals), caller, req, now)
  {
    var deadline: Option<Date> := None;
    if req.deadline.Some? && req.deadline.value != "" {
      deadline := ParseDate(req.deadline.value);
      if deadline.None? {
        return Failure(BAD_REQUEST);
      }
    }
    if req.title.None? {
      return Failure(BAD_REQUEST);
    }
    CreatedGoalStored(db.goals, caller, req, now);
    var id := NextId(db.goals);
    db.goals := db.goals[id := RoadmapGoal(
      req.title.value, req.description.GetOr(""), MaxPosition(db.goals, caller) + 1,
      deadline, false, now, None, Some(caller))];
    r := Success(id);
  }

  /**
    A created goal is the caller's, not completed, under a fresh key, after every goal
    the caller had; nothing else changes. Creation fails exactly on a missing title or a
    non-empty deadline strptime refuses, and then stores nothing.
  */
  lemma CreateGoalAppends(goals: Goals, caller: UserId, req: GoalRequest, now: DateTime)
    ensures var s := GoalCreated(goals, caller, req, now);
      && (s.reply.Failure? <==> req.title.None? || BadDeadline(req.deadline))
      && (s.reply.Failure? ==> s.reply.status == BAD_REQUEST && s.rows == goals)
      && (s.reply.Success? ==>
            var id := s.reply.value;
            var g := s.rows[id];
            && id !in goals && s.rows.Keys == goals.Keys + {id}
            && (forall k | k in goals :: s.rows[k] == goals[k])
            && OwnedBy(g.userId, caller) && !g.isCompleted && g.completedAt.None?
            && g.title == req.title.value && g.createdAt == now
            && g.description == req.description.GetOr("")
            && g.deadline == RequestedDeadline(req.deadline)
            && (req.deadline.Some? && req.deadline.value != "" ==> g.deadline.Some?)
            && g.position == MaxPosition(goals, caller) + 1
            && (forall k | k in goals && OwnedBy(goals[k].userId, caller) :: goals[k].position < g.position)
            && (OwnedIds(goals, caller) == {} ==> g.position == 1))
  {
    if req.title.Some? && !BadDeadline(req.deadline) {
      CreatedGoalStored(goals, caller, req, now);
      var s := GoalCreated(goals, caller, req, now);
      InsertFresh(goals, s.reply.value, s.rows[s.reply.value]);
      MaxPositionBounds(goals, caller);
    }
  }

  lemma AppendKeepsDense(goals: Goals, caller: UserId, id: Id, g: RoadmapGoal)
    requires PositionsDense(goals, caller) && id !in goals && OwnedBy(g.userId, caller)
    requires 1 <= g.position <= |OwnedIds(goals, caller)| + 1
    requires forall k | k in goals && OwnedBy(goals[k].userId, caller) :: goals[k].position < g.position
    ensures PositionsDense(goals[id := g], caller)
    ensures |OwnedIds(goals[id := g], caller)| == |OwnedIds(goals, caller)| + 1
  {
    var rows := goals[id := g];
    var before := OwnedIds(goals, caller);
    var after := OwnedIds(rows, caller);
    InsertOwned(goals, caller, id, g);
    forall k | k in after
      ensures 1 <= rows[k].position <= |after|
    {
      if k != id { assert k in before; }
    }
    forall a, b | a in after && b in after && a != b
      ensures rows[a].position != rows[b].position
    {
      if a != id && b != id { assert a in before && b in before; }
    }
  }

  lemma InsertOwned(goals: Goals, caller: UserId, id: Id, g: RoadmapGoal)
    requires id !in goals && OwnedBy(g.userId, caller)
    ensures OwnedIds(goals[id := g], caller) == OwnedIds(goals, caller) + {id}
    ensures |OwnedIds(goals[id := g], caller)| == |OwnedIds(goals, caller)| + 1
  {
    assert OwnedIds(goals[id := g], caller) == OwnedIds(goals, caller) + {id};
  }

  /** Appending keeps positions 1..n dense: they become 1..n+1. */
  lemma CreateKeepsDense(goals: Goals, caller: UserId, req: GoalRequest, now: DateTime)
    requires PositionsDense(goals, caller)
    ensures var s := GoalCreated(goals, caller, req, now);
      s.reply.Success? ==> PositionsDense(s.rows, caller) && |OwnedIds(s.rows, caller)| == |OwnedIds(goals, caller)| + 1
  {
    var s := GoalCreated(goals, caller, req, now);
    if s.reply.Success? {
      var id := s.reply.value;
      var g := s.rows[id];
      var max := MaxPosition(goals, caller);
      MaxPositionBounds(goals, caller);
      assert id !in goals && s.rows == goals[id := g] && g.position == max + 1 && OwnedBy(g.userId, caller);
      assert 0 <= max <= |OwnedIds(goals, caller)| by {
        if OwnedIds(goals, caller) != {} {
          var k :| k in OwnedIds(goals, caller) && goals[k].position == max;
        }
      }
      AppendKeepsDense(goals, caller, id, g);
    }
  }

  // ---------------------------------------------------------------------------
  // update_goal
  // ---------------------------------------------------------------------------

  /** The keys of the JSON body of PUT /roadmap/goals/<id>; absent keys are `None`. */
  datatype GoalPatch = GoalPatch(
    title: Option<string>,
    description: Option<string>,
    deadline: Option<string>,
    isCompleted: Option<bool>,
    position: Option<int>)

  /** The goal after the present keys are applied; `deadline` is the parsed value of a present deadline. */
  function Patched(g: RoadmapGoal, p: GoalPatch, deadline: Option<Date>, now: DateTime): RoadmapGoal {
    RoadmapGoal(
      p.title.GetOr(g.title),
      p.description.GetOr(g.description),
      p.position.GetOr(g.position),
      if p.deadline.Some? then deadline else g.deadline,
      p.isCompleted.GetOr(g.isCompleted),
      g.createdAt,
      if p.isCompleted.Some? then (if p.isCompleted.value then Some(now) else None) else g.completedAt,
      g.userId)
  }

  /** PUT /roadmap/goals/<id>. A missing goal raises NotFound, which the handler answers with 400. */
  function GoalUpdated(goals: Goals, caller: UserId, id: int, p: GoalPatch, now: DateTime): Step<RoadmapGoal, Reply<()>> {
    if !Exists(goals, id) then Step(Failure(BAD_REQUEST), goals)
    else if !OwnedBy(goals[id as Id].userId, caller) then Step(Failure(FORBIDDEN), goals)
    else if BadDeadline(p.deadline) then Step(Failure(BAD_REQUEST), goals)
    else Step(Success(()), goals[id as Id := Patched(goals[id as Id], p, RequestedDeadline(p.deadline), now)])
  }

  /** `update_goal`: assigns the present keys one by one to the loaded goal, then commits. */
  method UpdateGoal(db: Database, caller: UserId, id: int, p: GoalPatch, now: DateTime) returns (r: Reply<()>)
    modifies db`goals
    ensures Step(r, db.goals) == GoalUpdated(old(db.goals), caller, id, p, now)
  {
    if !Exists(db.goals, id) {
      return Failure(BAD_REQUEST);
    }
    var goal := db.goals[id as Id];
    if !OwnedBy(goal.userId, caller) {
      return Failure(FORBIDDEN);
    }
    if p.title.Some? {
      goal := goal.(title := p.title.value);
    }
    if p.description.Some? {
      goal := goal.(description := p.description.value);
    }
    if p.deadline.Some? {
      if p.deadline.value == "" {
        goal := goal.(deadline := None);
      } else {
        var d := ParseDate(p.deadline.value);
        if d.None? {
          return Failure(BAD_REQUEST);   // rollback: nothing assigned above is kept
        }
        goal := goal.(deadline := d);
      }
    }
    if p.isCompleted.Some? {
      goal := goal.(isCompleted := p.isCompleted.value, completedAt := if p.isCompleted.value then Some(now) else None);
    }
    if p.position.Some? {
      goal := goal.(position := p.position.value);
    }
    db.goals := db.goals[id as Id := goal];
    r := Success(());
  }

  /**
    Only the targeted goal changes, and only in the keys present: a position edit does
    not renumber the other goals. Completing stamps `completed_at` with now; un-completing
    clears it. Another user's goal answers 403 and a missing one 400, both unchanged.
  */
  lemma UpdateGoalChangesOnlyPresentKeys(goals: Goals, caller: UserId, id: int, p: GoalPatch, now: DateTime)
    ensures var s := GoalUpdated(goals, caller, id, p, now);
      && (s.reply.Failure? ==> s.rows == goals)
      && (!Exists(goals, id) ==> s.reply == Failure(BAD_REQUEST))
      && (Exists(goals, id) && !OwnedBy(goals[id as Id].userId, caller) ==> s.reply == Failure(FORBIDDEN))
      && (Exists(goals, id) && OwnedBy(goals[id as Id].userId, caller) ==>
            (s.reply.Failure? <==> BadDeadline(p.deadline)) && (s.reply.Failure? ==> s.reply.status == BAD_REQUEST))
      && (s.reply.Success? ==>
            var old_ := goals[id as Id];
            var new_ := s.rows[id as Id];
            && s.rows.Keys == goals.Keys
            && (forall k | k in goals && k != id as Id :: s.rows[k] == goals[k])
            && new_.userId == old_.userId && new_.createdAt == old_.createdAt
            && (p.title.None? ==> new_.title == old_.title)
            && (p.title.Some? ==> new_.title == p.title.value)
            && (p.description.None? ==> new_.description == old_.description)
            && (p.description.Some? ==> new_.description == p.description.value)
            && (p.deadline.None? ==> new_.deadline == old_.deadline)
            && (p.deadline == Some("") ==> new_.deadline.None?)
            && (p.deadline.Some? && p.deadline.value != "" ==>
                  new_.deadline.Some? && new_.deadline == ParseDate(p.deadline.value))
            && (p.position.None? ==> new_.position == old_.position)
            && (p.position.Some? ==> new_.position == p.position.value)
            && (p.isCompleted.None? ==> new_.isCompleted == old_.isCompleted && new_.completedAt == old_.completedAt)
            && (p.isCompleted == Some(true) ==> new_.isCompleted && new_.completedAt == Some(now))
            && (p.isCompleted == Some(false) ==> !new_.isCompleted && new_.completedAt.None?))
  {
  }

  // ---------------------------------------------------------------------------
  // reorder_goals and the renumbering in delete_goal
  // ---------------------------------------------------------------------------

  /** The last index at which `x` occurs in `s`. */
  function LastIndex(s: seq<int>, x: int): (r: Option<nat>)
    ensures r.Some? ==> r.value < |s| && s[r.value] == x && forall j | r.value < j < |s| :: s[j] != x
    ensures r.None? ==> forall j | 0 <= j < |s| :: s[j] != x
    decreases |s|
  {
    if |s| == 0 then None
    else if s[|s| - 1] == x then Some(|s| - 1)
    else LastIndex(s[..|s| - 1], x)
  }

  /**
    The goals after `for index, goal_id in enumerate(order)` has set `position = index + 1`
    on every listed goal the caller owns: a listed id ends at 1 + its last index, and
    ids that are unknown or another user's are skipped.
  */
  function Reordered(goals: Goals, caller: UserId, order: seq<int>): Goals {
    map k | k in goals ::
      if OwnedBy(goals[k].userId, caller) && LastIndex(order, k).Some?
      then goals[k].(position := LastIndex(order, k).value + 1)
      else goals[k]
  }

  lemma DistinctLastIndex(s: seq<int>, i: nat)
    requires i < |s| && forall x, y | 0 <= x < y < |s| :: s[x] != s[y]
    ensures LastIndex(s, s[i]) == Some(i)
  {
  }

  /** In a list without repeats, the goal at index i is given position i + 1. */
  lemma ReorderedPositionOfListed(goals: Goals, caller: UserId, order: seq<int>, i: nat)
    requires i < |order| && forall x, y | 0 <= x < y < |order| :: order[x] != order[y]
    requires Exists(goals, order[i]) && OwnedBy(goals[order[i] as Id].userId, caller)
    ensures Reordered(goals, caller, order)[order[i] as Id].position == i + 1
  {
    DistinctLastIndex(order, i);
  }

  /**
    What the reorder loop does: only positions change; unknown ids and other users'
    goals are skipped; each listed goal of the caller ends at 1 + its (last) index.
  */
  lemma ReorderedSetsListedPositions(goals: Goals, caller: UserId, order: seq<int>)
    ensures var r := Reordered(goals, caller, order);
      && r.Keys == goals.Keys
      && (forall k | k in r :: r[k] == goals[k].(position := r[k].position))
      && (forall k | k in r && (!OwnedBy(goals[k].userId, caller) || k as int !in order) :: r[k] == goals[k])
      && (forall i | 0 <= i < |order| && Exists(goals, order[i]) && OwnedBy(goals[order[i] as Id].userId, caller)
            && (forall j | i < j < |order| :: order[j] != order[i]) :: r[order[i] as Id].position == i + 1)
  {
    var r := Reordered(goals, caller, order);
    forall i | 0 <= i < |order| && Exists(goals, order[i]) && OwnedBy(goals[order[i] as Id].userId, caller)
      && (forall j | i < j < |order| :: order[j] != order[i])
      ensures r[order[i] as Id].position == i + 1
    {
      assert LastIndex(order, order[i]).Some?;
    }
  }

  lemma ReorderedKeepsOwners(goals: Goals, caller: UserId, order: seq<int>)
    ensures OwnedIds(Reordered(goals, caller, order), caller) == OwnedIds(goals, caller)
  {
    ReorderedSetsListedPositions(goals, caller, order);
  }

  lemma RemovingDropsOwnedId(goals: Goals, caller: UserId, id: Id)
    ensures OwnedIds(goals - {id}, caller) == OwnedIds(goals, caller) - {id}
  {
  }

  /** One more iteration of the reorder loop sets one more position. */
  lemma ReorderedStep(goals: Goals, caller: UserId, order: seq<int>, i: nat)
    requires i < |order|
    ensures var prev := Reordered(goals, caller, order[..i]);
      Reordered(goals, caller, order[..i + 1]) ==
        if Exists(prev, order[i]) && OwnedBy(prev[order[i] as Id].userId, caller)
        then prev[order[i] as Id := prev[order[i] as Id].(position := i + 1)]
        else prev
  {
    var prev := Reordered(goals, caller, order[..i]);
    var next := Reordered(goals, caller, order[..i + 1]);
    var expected :=
      if Exists(prev, order[i]) && OwnedBy(prev[order[i] as Id].userId, caller)
      then prev[order[i] as Id := prev[order[i] as Id].(position := i + 1)]
      else prev;
    forall k | k in goals
      ensures next[k] == expected[k]
    {
      ReorderedStepAt(goals, caller, order, i, k);
    }
    assert next == expected;
  }

  lemma ReorderedStepAt(goals: Goals, caller: UserId, order: seq<int>, i: nat, k: Id)
    requires i < |order| && k in goals
    ensures var prev := Reordered(goals, caller, order[..i]);
      var next := Reordered(goals, caller, order[..i + 1]);
      && k in prev && k in next && prev[k].userId == goals[k].userId
      && next[k] == if order[i] == k as int && OwnedBy(goals[k].userId, caller) then prev[k].(position := i + 1) else prev[k]
  {
    assert order[..i + 1][..i] == order[..i];
    assert LastIndex(order[..i + 1], k) == if order[i] == k as int then Some(i) else LastIndex(order[..i], k);
  }

  /** POST /roadmap/goals/reorder, for a list of integer ids. */
  method ReorderGoals(db: Database, caller: UserId, order: seq<int>) returns (r: Reply<()>)
    modifies db`goals
    ensures r == Success(()) && db.goals == Reordered(old(db.goals), caller, order)
  {
    ghost var initial := db.goals;
    for i := 0 to |order|
      invariant db.goals == Reordered(initial, caller, order[..i])
    {
      ReorderedStep(initial, caller, order, i);
      var goalId := order[i];
      if Exists(db.goals, goalId) && OwnedBy(db.goals[goalId as Id].userId, caller) {
        db.goals := db.goals[goalId as Id := db.goals[goalId as Id].(position := i + 1)];
      }
    }
    assert order[..|order|] == order;
    r := Success(());
  }

  lemma {:induction false} DistinctListCoversSet(order: seq<int>, s: set<Id>)
    requires forall i, j | 0 <= i < j < |order| :: order[i] != order[j]
    requires forall i | 0 <= i < |order| :: 0 <= order[i] && order[i] as Id in s
    requires forall k | k in s :: k as int in order
    ensures |s| == |order|
    decreases |order|
  {
    if |order| > 0 {
      var last := order[|order| - 1];
      var front := order[..|order| - 1];
      forall k | k in s && k != last as Id
        ensures k as int in front
      {
        var i :| 0 <= i < |order| && order[i] == k as int;
        assert i < |order| - 1;
        assert front[i] == k as int;
      }
      DistinctListCoversSet(front, s - {last as Id});
    } else {
      assert s == {};
    }
  }

  /**
    A reorder whose list is a permutation of the caller's goal ids leaves the caller's
    positions exactly 1..n.
  */
  lemma ReorderPermutationIsDense(goals: Goals, caller: UserId, order: seq<int>)
    requires forall i, j | 0 <= i < j < |order| :: order[i] != order[j]
    requires forall i | 0 <= i < |order| :: 0 <= order[i] && order[i] as Id in OwnedIds(goals, caller)
    requires forall k | k in OwnedIds(goals, caller) :: k as int in order
    ensures PositionsDense(Reordered(goals, caller, order), caller)
  {
    var r := Reordered(goals, caller, order);
    var ids := OwnedIds(goals, caller);
    ReorderedKeepsOwners(goals, caller, order);
    DistinctListCoversSet(order, ids);
    forall k | k in ids
      ensures 1 <= r[k].position <= |ids|
    {
      ListedPosition(goals, caller, order, k);
    }
    forall a, b | a in ids && b in ids && a != b
      ensures r[a].position != r[b].position
    {
      ListedPosition(goals, caller, order, a);
      ListedPosition(goals, caller, order, b);
    }
  }

  /** A listed goal of the caller ends at 1 + the last index of its id. */
  lemma ListedPosition(goals: Goals, caller: UserId, order: seq<int>, k: Id)
    requires k in goals && OwnedBy(goals[k].userId, caller) && k as int in order
    ensures LastIndex(order, k).Some?
    ensures Reordered(goals, caller, order)[k].position == LastIndex(order, k).value + 1
  {
    var i :| 0 <= i < |order| && order[i] == k as int;
  }

  // ---------------------------------------------------------------------------
  // delete_goal
  // ---------------------------------------------------------------------------

  /**
    DELETE /roadmap/goals/<id>: remove the goal, then renumber the caller's remaining
    goals 1, 2, ... in their current order. A missing goal answers 400 (NotFound is
    caught), another user's goal 403.
  */
  function GoalDeleted(goals: Goals, caller: UserId, id: int): Step<RoadmapGoal, Reply<()>> {
    if !Exists(goals, id) then Step(Failure(BAD_REQUEST), goals)
    else if !OwnedBy(goals[id as Id].userId, caller) then Step(Failure(FORBIDDEN), goals)
    else
      var rest := goals - {id as Id};
      Step(Success(()), Reordered(rest, caller, ListOrder(rest, caller)))
  }

  lemma ReorderedKeepsOwner(goals: Goals, caller: UserId, order: seq<int>, k: Id)
    requires k in goals
    ensures k in Reordered(goals, caller, order) && Reordered(goals, caller, order)[k].userId == goals[k].userId
  {
  }

  /**
    The renumbering loop of `delete_goal`: the goal at index i of `remaining`, one of
    the caller's, gets position i + 1.
  */
  method Renumber(db: Database, caller: UserId, remaining: seq<Id>)
    requires forall i | 0 <= i < |remaining| :: remaining[i] in db.goals && OwnedBy(db.goals[remaining[i]].userId, caller)
    modifies db`goals
    ensures db.goals == Reordered(old(db.goals), caller, remaining)
  {
    ghost var rest := db.goals;
    for index := 0 to |remaining|
      invariant db.goals == Reordered(rest, caller, remaining[..index])
    {
      ReorderedStep(rest, caller, remaining, index);
      var goalId := remaining[index];
      ReorderedKeepsOwner(rest, caller, remaining[..index], goalId);
      db.goals := db.goals[goalId := db.goals[goalId].(position := index + 1)];
    }
    assert remaining[..|remaining|] == remaining;
  }

  /** `delete_goal`: the deletion, then the renumbering of the reloaded goals. */
  method DeleteGoal(db: Database, caller: UserId, id: int) returns (r: Reply<()>)
    modifies db`goals
    ensures Step(r, db.goals) == GoalDeleted(old(db.goals), caller, id)
  {
    if !Exists(db.goals, id) {
      return Failure(BAD_REQUEST);
    }
    if !OwnedBy(db.goals[id as Id].userId, caller) {
      return Failure(FORBIDDEN);
    }
    db.goals := db.goals - {id as Id};
    var remaining := ListOrder(db.goals, caller);
    Renumber(db, caller, remaining);
    r := Success(());
  }

  /** After a delete the caller's remaining goals hold positions exactly 1..n-1. */
  lemma DeleteLeavesDense(goals: Goals, caller: UserId, id: int)
    requires GoalDeleted(goals, caller, id).reply.Success?
    ensures PositionsDense(GoalDeleted(goals, caller, id).rows, caller)
    ensures |OwnedIds(GoalDeleted(goals, caller, id).rows, caller)| == |OwnedIds(goals, caller)| - 1
  {
    var rest := goals - {id as Id};
    var order := ListOrder(rest, caller);
    var rows := Reordered(rest, caller, order);
    assert GoalDeleted(goals, caller, id).rows == rows;
    assert PositionsDense(rows, caller) by {
      assert forall i | 0 <= i < |order| :: order[i] in OwnedIds(rest, caller);
      ListOrderSorted(rest, caller);
      ReorderPermutationIsDense(rest, caller, order);
    }
    ReorderedKeepsOwners(rest, caller, order);
    RemovingDropsOwnedId(goals, caller, id as Id);
  }

  lemma RenumberedPositions(goals: Goals, caller: UserId, a: Id, b: Id, ia: nat, ib: nat)
    requires a in OwnedIds(goals, caller) && b in OwnedIds(goals, caller)
    requires var order := ByPosition(goals, OwnedIds(goals, caller));
      ia < |order| && ib < |order| && order[ia] == a && order[ib] == b
    ensures var r := Reordered(goals, caller, ByPosition(goals, OwnedIds(goals, caller)));
      a in r && b in r && r[a].position == ia + 1 && r[b].position == ib + 1
  {
    var order := ByPosition(goals, OwnedIds(goals, caller));
    ReorderedPositionOfListed(goals, caller, order, ia);
    ReorderedPositionOfListed(goals, caller, order, ib);
  }

  /** Renumbering the caller's goals in list order keeps that order. */
  lemma RenumberKeepsOrder(goals: Goals, caller: UserId, a: Id, b: Id)
    requires a in OwnedIds(goals, caller) && b in OwnedIds(goals, caller)
    ensures var r := Reordered(goals, caller, ListOrder(goals, caller));
      a in r && b in r && (Before(goals, a, b) <==> r[a].position < r[b].position)
  {
    var order := ByPosition(goals, OwnedIds(goals, caller));
    var ia :| 0 <= ia < |order| && order[ia] == a;
    var ib :| 0 <= ib < |order| && order[ib] == b;
    ByPositionIndexOrder(goals, OwnedIds(goals, caller), ia, ib);
    RenumberedPositions(goals, caller, a, b, ia, ib);
  }

  /**
    Delete keeps the order of the survivors: of two remaining goals of the caller, the
    one listed first before the delete (by position, ties by key) has the smaller
    position after it.
  */
  lemma DeleteKeepsRelativeOrder(goals: Goals, caller: UserId, id: int, a: Id, b: Id)
    requires GoalDeleted(goals, caller, id).reply.Success?
    requires a in OwnedIds(goals, caller) && b in OwnedIds(goals, caller) && a as int != id && b as int != id
    ensures var r := GoalDeleted(goals, caller, id).rows;
      a in r && b in r && (Before(goals, a, b) <==> r[a].position < r[b].position)
  {
    var rest := goals - {id as Id};
    RemovingDropsOwnedId(goals, caller, id as Id);
    RenumberKeepsOrder(rest, caller, a, b);
  }

  /**
    Delete touches only the caller's goals: the target disappears, other users' goals are
    unchanged, and the caller's others change at most their position. A failed delete
    changes nothing.
  */
  lemma DeleteTouchesOnlyCallersGoals(goals: Goals, caller: UserId, id: int)
    ensures var s := GoalDeleted(goals, caller, id);
      && (s.reply.Failure? ==> s.rows == goals)
      && (!Exists(goals, id) ==> s.reply == Failure(BAD_REQUEST))
      && (Exists(goals, id) && !OwnedBy(goals[id as Id].userId, caller) ==> s.reply == Failure(FORBIDDEN))
      && (s.reply.Success? ==>
            && s.rows.Keys == goals.Keys - {id as Id}
            && (forall k | k in s.rows :: s.rows[k] == goals[k].(position := s.rows[k].position))
            && (forall k | k in s.rows && !OwnedBy(goals[k].userId, caller) :: s.rows[k] == goals[k]))
  {
    if Exists(goals, id) && OwnedBy(goals[id as Id].userId, caller) {
      var rest := goals - {id as Id};
      ReorderedOnlyPositions(rest, caller, ListOrder(rest, caller));
    }
  }

  /** Renumbering changes positions alone, and only the caller's. */
  lemma ReorderedOnlyPositions(goals: Goals, caller: UserId, order: seq<int>)
    ensures var r := Reordered(goals, caller, order);
      && r.Keys == goals.Keys
      && (forall k | k in r :: r[k] == goals[k].(position := r[k].position))
      && (forall k | k in r && !OwnedBy(goals[k].userId, caller) :: r[k] == goals[k])
  {
  }

  /** The scenario: goals A@1, B@2, C@3; deleting B leaves A@1 and C@2. */
  lemma DeleteMiddleGoal(a: RoadmapGoal, b: RoadmapGoal, c: RoadmapGoal, u: UserId)
    requires a.userId == b.userId == c.userId == Some(u)
    requires a.position == 1 && b.position == 2 && c.position == 3
    ensures var s := GoalDeleted(map[1 := a, 2 := b, 3 := c], u, 2);
      s.reply.Success? && s.rows == map[1 := a, 3 := c.(position := 2)]
  {
    var goals := map[1 := a, 2 := b, 3 := c];
    var rest := map[1 := a, 3 := c];
    assert goals - {2} == rest;
    ListOrderOfTwo(1, a, 3, c, u);
    RenumberTwo(1, a, 3, c, u);
    assert GoalDeleted(goals, u, 2) == Step(Success(()), Reordered(rest, u, ListOrder(rest, u)));
  }

  lemma ListOrderOfTwo(x: Id, gx: RoadmapGoal, y: Id, gy: RoadmapGoal, u: UserId)
    requires x != y && gx.userId == gy.userId == Some(u) && gx.position < gy.position
    ensures ListOrder(map[x := gx, y := gy], u) == [x, y]
  {
    var rest := map[x := gx, y := gy];
    assert rest.Keys == {x, y};
    ListOrderOfTwoKeys(rest, u, x, y);
  }

  lemma ListOrderOfTwoKeys(goals: Goals, u: UserId, x: Id, y: Id)
    requires goals.Keys == {x, y} && x != y && goals[x].position < goals[y].position
    requires OwnedBy(goals[x].userId, u) && OwnedBy(goals[y].userId, u)
    ensures ListOrder(goals, u) == [x, y]
  {
    OwnedPair(goals, u, x, y);
    ListOrderSorted(goals, u);
    TwoInOrder(goals, ListOrder(goals, u), x, y);
  }

  lemma OwnedPair(goals: Goals, u: UserId, x: Id, y: Id)
    requires goals.Keys == {x, y} && x != y
    requires OwnedBy(goals[x].userId, u) && OwnedBy(goals[y].userId, u)
    ensures |OwnedIds(goals, u)| == 2
  {
    assert OwnedIds(goals, u) == {x, y};
  }

  /** Two distinct goals listed by position, the first strictly lower, are listed [x, y]. */
  lemma TwoInOrder(goals: Goals, r: seq<Id>, x: Id, y: Id)
    requires goals.Keys == {x, y} && x != y && goals[x].position < goals[y].position
    requires |r| == 2 && r[0] in goals && r[1] in goals
    requires r[0] != r[1] && goals[r[0]].position <= goals[r[1]].position
    ensures r == [x, y]
  {
  }

  lemma RenumberTwo(x: Id, gx: RoadmapGoal, y: Id, gy: RoadmapGoal, u: UserId)
    requires x != y && gx.userId == gy.userId == Some(u)
    ensures Reordered(map[x := gx, y := gy], u, [x, y]) == map[x := gx.(position := 1), y := gy.(position := 2)]
  {
    assert LastIndex([x as int, y as int], x) == Some(0);
    assert LastIndex([x as int, y as int], y) == Some(1);
  }

  /**
    Reordering with a partial list leaves a gap or a repeated position: with A@1, B@2,
    C@3, the order [C, A] gives C@1, A@2 and leaves B at 2.
  */
  lemma PartialReorderBreaksDensity(a: RoadmapGoal, b: RoadmapGoal, c: RoadmapGoal, u: UserId)
    requires a.userId == b.userId == c.userId == Some(u)
    requires a.position == 1 && b.position == 2 && c.position == 3
    ensures var goals := map[1 := a, 2 := b, 3 := c];
      var r := Reordered(goals, u, [3, 1]);
      r == map[1 := a.(position := 2), 2 := b, 3 := c.(position := 1)] && !PositionsDense(r, u)
  {
    var goals := map[1 := a, 2 := b, 3 := c];
    var r := Reordered(goals, u, [3, 1]);
    assert LastIndex([3, 1], 1) == Some(1);
    assert LastIndex([3, 1], 2) == None;
    assert LastIndex([3, 1], 3) == Some(0);
    assert r == map[1 := a.(position := 2), 2 := b, 3 := c.(position := 1)];
    assert 1 in OwnedIds(r, u) && 2 in OwnedIds(r, u) && r[1].position == r[2].position;
  }

  // ---------------------------------------------------------------------------
  // get_roadmap_stats
  // ---------------------------------------------------------------------------

  /** `completion_rate` as the fraction numerator / denominator, in percent. */
  datatype Rate = Rate(numerator: nat, denominator: nat)

  datatype RoadmapStats = RoadmapStats(total: nat, completed: nat, pending: int, overdue: nat, completionRate: Rate)

  function CompletedIds(goals: Goals, caller: UserId): set<Id> {
    set k | k in goals && OwnedBy(goals[k].userId, caller) && goals[k].isCompleted
  }

  function PendingIds(goals: Goals, caller: UserId): set<Id> {
    set k | k in goals && OwnedBy(goals[k].userId, caller) && !goals[k].isCompleted
  }

  /** `g.deadline and g.deadline < date.today() and not g.is_completed` */
  function OverdueIds(goals: Goals, caller: UserId, today: Date): set<Id> {
    set k | k in goals && OwnedBy(goals[k].userId, caller) && goals[k].deadline.Some?
              && DateBefore(goals[k].deadline.value, today) && !goals[k].isCompleted
  }

  /** GET /roadmap/stats */
  function Stats(goals: Goals, caller: UserId, today: Date): RoadmapStats {
    var total := |OwnedIds(goals, caller)|;
    var completed := |CompletedIds(goals, caller)|;
    RoadmapStats(
      total, completed, total - completed, |OverdueIds(goals, caller, today)|,
      if total == 0 then Rate(0, 1) else Rate(completed * 100, total))
  }

  /**
    pending = total - completed counts the goals not completed; overdue goals are among
    them; the completion rate lies between 0 and 100 percent, and is 0 without goals.
  */
  lemma StatsBounds(goals: Goals, caller: UserId, today: Date)
    ensures var st := Stats(goals, caller, today);
      && st.completed <= st.total
      && st.pending == |PendingIds(goals, caller)| && 0 <= st.pending
      && st.overdue <= st.pending
      && st.completionRate.denominator > 0
      && st.completionRate.numerator <= 100 * st.completionRate.denominator
      && (st.total == 0 ==> st.completionRate.numerator == 0)
      && (st.total > 0 && st.completed == st.total ==> st.completionRate.numerator == 100 * st.completionRate.denominator)
  {
    var owned := OwnedIds(goals, caller);
    var done := CompletedIds(goals, caller);
    SubsetCard(done, owned);
    assert PendingIds(goals, caller) == owned - done;
    SubsetCard(OverdueIds(goals, caller, today), PendingIds(goals, caller));
  }

  /** A goal counts as overdue in the stats exactly when its list view says `is_overdue`. */
  lemma StatsOverdueAgreesWithList(goals: Goals, caller: UserId, today: Date, k: Id)
    requires ValidDate(today)
    requires k in goals && OwnedBy(goals[k].userId, caller)
    requires goals[k].deadline.Some? ==> ValidDate(goals[k].deadline.value)
    ensures k in OverdueIds(goals, caller, today) <==> ViewOf(k, goals[k], today).isOverdue
  {
    OverdueMeansPastDeadline(goals[k], today);
  }
}
