/**
 * The task module's writes: number and rank allocation, the respacing of a
 * project, the soft delete, and the walk that moves sub-tasks with their parent.
 */
module TaskTable {
  import opened Prelude

  type TaskId = nat
  type ProjectId = nat
  type SprintId = nat

  const POSITION_STEP: real := 1024.0

  datatype Row = Row(projectId: ProjectId, number: nat, position: real, parentId: Option<TaskId>,
                     sprintId: Option<SprintId>, deleted: bool)

  function LiveTasks(tasks: map<TaskId, Row>, project: ProjectId): set<TaskId> {
    set id | id in tasks && tasks[id].projectId == project && !tasks[id].deleted
  }

  // ---- Rank order ----

  /** `ORDER BY "position", "number"`, strictly. */
  predicate Before(a: Row, b: Row) {
    a.position < b.position || (a.position == b.position && a.number < b.number)
  }

  /** The live tasks that are not after this one. */
  function UpTo(tasks: map<TaskId, Row>, project: ProjectId, id: TaskId): set<TaskId>
    requires id in tasks
  {
    set other | other in LiveTasks(tasks, project) && !Before(tasks[id], tasks[other])
  }

  /** `ROW_NUMBER()` in that order. */
  function RowNumber(tasks: map<TaskId, Row>, project: ProjectId, id: TaskId): nat
    requires id in tasks
  {
    |UpTo(tasks, project, id)|
  }

  /** A project's numbers are unique and never beyond its counter, deleted tasks included. */
  ghost predicate NumbersOk(tasks: map<TaskId, Row>, counters: map<ProjectId, nat>) {
    && (forall id :: id in tasks ==>
          tasks[id].projectId in counters && 1 <= tasks[id].number <= counters[tasks[id].projectId])
    && (forall a, b :: a in tasks && b in tasks && a != b && tasks[a].projectId == tasks[b].projectId ==>
          tasks[a].number != tasks[b].number)
  }

  ghost predicate NumbersDiffer(tasks: map<TaskId, Row>, project: ProjectId) {
    forall a, b :: a in LiveTasks(tasks, project) && b in LiveTasks(tasks, project) && a != b ==>
      tasks[a].number != tasks[b].number
  }

  function Rebalanced(tasks: map<TaskId, Row>, project: ProjectId): map<TaskId, Row> {
    map id | id in tasks ::
      if id in LiveTasks(tasks, project)
      then tasks[id].(position := RowNumber(tasks, project, id) as real * POSITION_STEP)
      else tasks[id]
  }

  lemma SmallerSetIsSmaller<T>(a: set<T>, b: set<T>)
    requires a <= b
    ensures |a| <= |b| && (a != b ==> |a| < |b|)
  {
    var rest := b - a;
    assert b == a + rest;
  }

  /** Row numbers run from 1, and grow strictly along the order. */
  lemma RowNumbersFollowOrder(tasks: map<TaskId, Row>, project: ProjectId, a: TaskId, b: TaskId)
    requires NumbersDiffer(tasks, project)
    requires a in LiveTasks(tasks, project) && b in LiveTasks(tasks, project)
    ensures 1 <= RowNumber(tasks, project, a) <= |LiveTasks(tasks, project)|
    ensures Before(tasks[a], tasks[b]) <==> RowNumber(tasks, project, a) < RowNumber(tasks, project, b)
  {
    var live := LiveTasks(tasks, project);
    var upToA, upToB := UpTo(tasks, project, a), UpTo(tasks, project, b);
    SmallerSetIsSmaller({a}, upToA);
    SmallerSetIsSmaller(upToA, live);
    if Before(tasks[a], tasks[b]) {
      assert b !in upToA && b in upToB;
      SmallerSetIsSmaller(upToA, upToB);
    } else if a != b {
      assert Before(tasks[b], tasks[a]);
      assert a !in upToB && a in upToA;
      SmallerSetIsSmaller(upToB, upToA);
    }
  }

  /** Neighbours get consecutive row numbers. */
  lemma NeighboursAreConsecutive(tasks: map<TaskId, Row>, project: ProjectId, a: TaskId, b: TaskId)
    requires NumbersDiffer(tasks, project)
    requires a in LiveTasks(tasks, project) && b in LiveTasks(tasks, project) && Before(tasks[a], tasks[b])
    requires forall c :: c in LiveTasks(tasks, project) ==> !(Before(tasks[a], tasks[c]) && Before(tasks[c], tasks[b]))
    ensures RowNumber(tasks, project, b) == RowNumber(tasks, project, a) + 1
  {
    var upToA, upToB := UpTo(tasks, project, a), UpTo(tasks, project, b);
    assert upToB == upToA + {b} && b !in upToA;
  }

  lemma FirstIsNumberOne(tasks: map<TaskId, Row>, project: ProjectId, a: TaskId)
    requires NumbersDiffer(tasks, project) && a in LiveTasks(tasks, project)
    requires forall c :: c in LiveTasks(tasks, project) ==> !Before(tasks[c], tasks[a])
    ensures RowNumber(tasks, project, a) == 1
  {
    assert UpTo(tasks, project, a) == {a};
  }

  /**
   * Respacing keeps the order of a project's live tasks, starts it at one step,
   * leaves exactly one step between neighbours, writes nothing but their positions,
   * and leaves every other row as it was.
   */
  lemma RebalanceKeepsOrder(tasks: map<TaskId, Row>, project: ProjectId, a: TaskId, b: TaskId)
    requires NumbersDiffer(tasks, project)
    requires a in LiveTasks(tasks, project) && b in LiveTasks(tasks, project)
    ensures
      var tasks' := Rebalanced(tasks, project);
      var live := LiveTasks(tasks, project);
      && LiveTasks(tasks', project) == live
      && (Before(tasks'[a], tasks'[b]) <==> Before(tasks[a], tasks[b]))
      && ((forall c :: c in live ==> !Before(tasks[c], tasks[a])) ==> tasks'[a].position == POSITION_STEP)
      && (Before(tasks[a], tasks[b])
          && (forall c :: c in live ==> !(Before(tasks[a], tasks[c]) && Before(tasks[c], tasks[b])))
          ==> tasks'[b].position == tasks'[a].position + POSITION_STEP)
      && tasks'[a].position <= |live| as real * POSITION_STEP
      && tasks'.Keys == tasks.Keys
      && (forall c :: c in live ==> tasks'[c] == tasks[c].(position := tasks'[c].position))
      && (forall c :: c in tasks && c !in live ==> tasks'[c] == tasks[c])
  {
    var tasks' := Rebalanced(tasks, project);
    var live := LiveTasks(tasks, project);
    assert LiveTasks(tasks', project) == live;
    RowNumbersFollowOrder(tasks, project, a, b);
    RowNumbersFollowOrder(tasks, project, b, a);
    if forall c :: c in live ==> !Before(tasks[c], tasks[a]) {
      FirstIsNumberOne(tasks, project, a);
    }
    if && Before(tasks[a], tasks[b])
       && forall c :: c in live ==> !(Before(tasks[a], tasks[c]) && Before(tasks[c], tasks[b])) {
      NeighboursAreConsecutive(tasks, project, a, b);
    }
  }

  /** A task of the project that is not deleted. */
  ghost predicate IsLive(row: Row, project: ProjectId) {
    row.projectId == project && !row.deleted
  }

  /** Ranked lower, or at the same rank with the lower number. */
  ghost predicate RanksBelow(a: Row, b: Row) {
    a.position < b.position || (a.position == b.position && a.number < b.number)
  }

  /**
   * The respacing in terms of the columns: a live task's new position is 1024 for each live task
   * that does not rank above it, so the order stays; nothing else is written.
   */
  lemma RebalanceInTerms(tasks: map<TaskId, Row>, project: ProjectId, a: TaskId)
    requires forall x, y :: x in tasks && y in tasks && IsLive(tasks[x], project) && IsLive(tasks[y], project) && x != y ==>
               tasks[x].number != tasks[y].number
    requires a in tasks
    ensures
      var after := Rebalanced(tasks, project);
      var upTo := set c | c in tasks && IsLive(tasks[c], project) && !RanksBelow(tasks[a], tasks[c]);
      && after.Keys == tasks.Keys
      && after[a] == (if IsLive(tasks[a], project) then tasks[a].(position := |upTo| as real * 1024.0) else tasks[a])
      && forall b :: b in tasks && IsLive(tasks[a], project) && IsLive(tasks[b], project) ==>
           (after[a].position < after[b].position <==> RanksBelow(tasks[a], tasks[b]))
  {
    var after := Rebalanced(tasks, project);
    forall b | b in tasks && IsLive(tasks[a], project) && IsLive(tasks[b], project)
      ensures after[a].position < after[b].position <==> RanksBelow(tasks[a], tasks[b])
    {
      RowNumbersFollowOrder(tasks, project, a, b);
    }
    if IsLive(tasks[a], project) {
      assert UpTo(tasks, project, a) == set c | c in tasks && IsLive(tasks[c], project) && !RanksBelow(tasks[a], tasks[c]);
    }
  }

  // ---- The tree ----

  /** The live task `d` levels up, through live tasks only: the ancestor walk, bottom to top. */
  ghost function Climb(tasks: map<TaskId, Row>, id: TaskId, d: nat): Option<TaskId>
    decreases d
  {
    if d == 0 then Some(id)
    else if id in tasks && !tasks[id].deleted && tasks[id].parentId.Some?
    then Climb(tasks, tasks[id].parentId.value, d - 1)
    else None
  }

  ghost predicate ClimbsInto(tasks: map<TaskId, Row>, parents: set<TaskId>, d: nat, id: TaskId) {
    Climb(tasks, id, d).Some? && Climb(tasks, id, d).value in parents
  }

  function Children(tasks: map<TaskId, Row>, level: set<TaskId>): set<TaskId> {
    set id | id in tasks && !tasks[id].deleted && tasks[id].parentId.Some? && tasks[id].parentId.value in level
  }

  ghost function Level(tasks: map<TaskId, Row>, parents: set<TaskId>, d: nat): set<TaskId> {
    if d == 0 then parents else Children(tasks, Level(tasks, parents, d - 1))
  }

  /** The walk down by levels and the climb up by parents reach the same tasks. */
  lemma {:induction false} LevelIsClimb(tasks: map<TaskId, Row>, parents: set<TaskId>, d: nat, id: TaskId)
    ensures id in Level(tasks, parents, d) <==> ClimbsInto(tasks, parents, d, id)
    decreases d
  {
    if d > 0 && id in tasks && !tasks[id].deleted && tasks[id].parentId.Some? {
      LevelIsClimb(tasks, parents, d - 1, tasks[id].parentId.value);
    }
  }

  ghost predicate ReachedWithin(tasks: map<TaskId, Row>, parents: set<TaskId>, id: TaskId, bound: nat) {
    exists d: nat :: 1 <= d <= bound && id in Level(tasks, parents, d)
  }

  /** A live proper descendant of one of `parents`. */
  ghost predicate Descends(tasks: map<TaskId, Row>, parents: set<TaskId>, id: TaskId) {
    exists d: nat :: 1 <= d && ClimbsInto(tasks, parents, d, id)
  }

  /** A live proper descendant that only chains of more than 100 live tasks connect to `parents`. */
  ghost predicate TooDeep(tasks: map<TaskId, Row>, parents: set<TaskId>, id: TaskId) {
    Descends(tasks, parents, id) && forall d: nat :: 1 <= d <= 100 ==> !ClimbsInto(tasks, parents, d, id)
  }

  const MAX_LEVELS: nat := 100

  /** The walk reaches a task exactly when it is a live proper descendant and not too deep. */
  lemma WalkReachesSubtree(tasks: map<TaskId, Row>, parents: set<TaskId>, id: TaskId)
    ensures ReachedWithin(tasks, parents, id, MAX_LEVELS)
       <==> Descends(tasks, parents, id) && !TooDeep(tasks, parents, id)
  {
    forall d: nat
      ensures id in Level(tasks, parents, d) <==> ClimbsInto(tasks, parents, d, id)
    {
      LevelIsClimb(tasks, parents, d, id);
    }
  }

  /** On a forest no more than 100 live tasks deep the walk reaches exactly the live proper descendants. */
  lemma ShallowForestIsReached(tasks: map<TaskId, Row>, parents: set<TaskId>, id: TaskId)
    requires forall x, d: nat :: d > 100 ==> Climb(tasks, x, d).None?
    ensures ReachedWithin(tasks, parents, id, MAX_LEVELS) <==> Descends(tasks, parents, id)
  {
    WalkReachesSubtree(tasks, parents, id);
  }

  ghost function Numbers(n: nat): (s: set<TaskId>)
    ensures forall i: TaskId :: i in s <==> i <= n
  {
    if n == 0 then {0} else Numbers(n - 1) + {n}
  }

  /** A line of `n` tasks below task 0. */
  ghost function Line(n: nat): map<TaskId, Row> {
    map id | id in Numbers(n) :: Row(0, id + 1, 0.0, if id == 0 then None else Some(id - 1), None, false)
  }

  lemma {:induction false} LineLevel(n: nat, d: nat)
    requires d <= n
    ensures Level(Line(n), {0}, d) == {d}
  {
    if d > 0 {
      LineLevel(n, d - 1);
      assert Children(Line(n), {d - 1}) == {d};
    }
  }

  /** One task deeper, and the deepest one is left behind. */
  lemma DeeperTaskIsMissed()
    ensures Descends(Line(101), {0}, 101) && !ReachedWithin(Line(101), {0}, 101, MAX_LEVELS)
  {
    LineLevel(101, 101);
    LevelIsClimb(Line(101), {0}, 101, 101);
    forall d: nat | 1 <= d <= MAX_LEVELS
      ensures 101 !in Level(Line(101), {0}, d)
    {
      LineLevel(101, d);
    }
  }

  /** And no deeper: the 100th task of a line is still reached. */
  lemma HundredthTaskIsReached()
    ensures ReachedWithin(Line(100), {0}, 100, MAX_LEVELS)
  {
    LineLevel(100, 100);
  }

  // ---- The soft delete ----

  function SoftDeleted(tasks: map<TaskId, Row>, ids: set<TaskId>): map<TaskId, Row> {
    map id | id in tasks ::
      var row := tasks[id];
      var promoted := if row.parentId.Some? && row.parentId.value in ids && !row.deleted
                      then row.(parentId := None) else row;
      if id in ids then promoted.(deleted := true) else promoted
  }

  /** No live task points at a deleted or missing one. */
  ghost predicate NoOrphans(tasks: map<TaskId, Row>) {
    forall id :: id in tasks && !tasks[id].deleted && tasks[id].parentId.Some? ==>
      tasks[id].parentId.value in tasks && !tasks[tasks[id].parentId.value].deleted
  }

  /** The parent pointer followed `d` times, deleted rows included. */
  ghost function Ancestor(tasks: map<TaskId, Row>, id: TaskId, d: nat): Option<TaskId>
    decreases d
  {
    if d == 0 then Some(id)
    else if id in tasks && tasks[id].parentId.Some? then Ancestor(tasks, tasks[id].parentId.value, d - 1)
    else None
  }

  ghost predicate Acyclic(tasks: map<TaskId, Row>) {
    forall id: TaskId, d: nat :: d > 0 ==> Ancestor(tasks, id, d) != Some(id)
  }

  lemma {:induction false} DeletingOnlyCutsChains(tasks: map<TaskId, Row>, ids: set<TaskId>, id: TaskId, d: nat)
    requires Ancestor(SoftDeleted(tasks, ids), id, d).Some?
    ensures Ancestor(tasks, id, d) == Ancestor(SoftDeleted(tasks, ids), id, d)
    decreases d
  {
    if d > 0 {
      DeletingOnlyCutsChains(tasks, ids, tasks[id].parentId.value, d - 1);
    }
  }

  /** Deleting keeps the forest: acyclic, no live task below a deleted one, and exactly the live children promoted. */
  lemma SoftDeleteKeepsForest(tasks: map<TaskId, Row>, ids: set<TaskId>)
    requires NoOrphans(tasks) && Acyclic(tasks)
    ensures var tasks' := SoftDeleted(tasks, ids);
      && NoOrphans(tasks') && Acyclic(tasks')
      && (forall id :: id in tasks ==>
            && (tasks'[id].parentId != tasks[id].parentId <==>
                  !tasks[id].deleted && exists p :: p in ids && tasks[id].parentId == Some(p))
            && (tasks'[id].parentId != tasks[id].parentId ==> tasks'[id].parentId.None?)
            && (tasks'[id].deleted <==> tasks[id].deleted || id in ids)
            && tasks'[id] == tasks[id].(parentId := tasks'[id].parentId, deleted := tasks'[id].deleted))
      && tasks'.Keys == tasks.Keys
  {
    var tasks' := SoftDeleted(tasks, ids);
    forall id: TaskId, d: nat | d > 0
      ensures Ancestor(tasks', id, d) != Some(id)
    {
      if Ancestor(tasks', id, d).Some? {
        DeletingOnlyCutsChains(tasks, ids, id, d);
      }
    }
  }

  // ---- The repository ----

  ghost predicate SameOrder(tasks: map<TaskId, Row>, tasks': map<TaskId, Row>, project: ProjectId) {
    && tasks.Keys <= tasks'.Keys && LiveTasks(tasks', project) == LiveTasks(tasks, project)
    && forall a, b :: a in LiveTasks(tasks, project) && b in LiveTasks(tasks, project) ==>
         (Before(tasks'[a], tasks'[b]) <==> Before(tasks[a], tasks[b]))
  }

  lemma RebalanceKeepsNumbersAndOrder(tasks: map<TaskId, Row>, counters: map<ProjectId, nat>, project: ProjectId)
    requires NumbersOk(tasks, counters)
    ensures NumbersOk(Rebalanced(tasks, project), counters)
    ensures SameOrder(tasks, Rebalanced(tasks, project), project)
  {
    RebalanceKeepsTheOrder(tasks, project);
  }

  lemma RebalanceKeepsTheOrder(tasks: map<TaskId, Row>, project: ProjectId)
    requires NumbersDiffer(tasks, project)
    ensures SameOrder(tasks, Rebalanced(tasks, project), project)
  {
    var tasks' := Rebalanced(tasks, project);
    assert LiveTasks(tasks', project) == LiveTasks(tasks, project);
    forall a, b | a in LiveTasks(tasks, project) && b in LiveTasks(tasks, project)
      ensures Before(tasks'[a], tasks'[b]) <==> Before(tasks[a], tasks[b])
    {
      RebalanceKeepsOrder(tasks, project, a, b);
    }
  }

  /** Behind every live task of the project, one step from the last one, or one step from 0 in an empty project. */
  ghost predicate AtTheBottom(tasks: map<TaskId, Row>, project: ProjectId, row: Row) {
    var live := set id | id in tasks && IsLive(tasks[id], project);
    && (forall other :: other in live ==>
          RanksBelow(tasks[other], row) && tasks[other].position + 1024.0 <= row.position)
    && (live == {} ==> row.position == 1024.0)
    && (live != {} ==> exists last :: last in live && row.position == tasks[last].position + 1024.0)
  }

  class TaskRepository {
    var tasks: map<TaskId, Row>
    var counters: map<ProjectId, nat>

    constructor (counters: map<ProjectId, nat>)
      ensures tasks == map[] && this.counters == counters && NumbersOk(tasks, this.counters)
    {
      tasks := map[];
      this.counters := counters;
    }

    /** `_max.position ?? 0` over the project's live tasks. */
    method MaxPosition(project: ProjectId) returns (max: real)
      ensures var live := set id | id in tasks && IsLive(tasks[id], project);
        if live == {} then max == 0.0
        else (exists id :: id in live && tasks[id].position == max)
             && forall id :: id in live ==> tasks[id].position <= max
    {
      var live := LiveTasks(tasks, project);
      if live == {} {
        return 0.0;
      }
      ghost var top := SomeTopTask(tasks, live);
      var id :| id in live && forall other :: other in live ==> tasks[other].position <= tasks[id].position;
      return tasks[id].position;
    }

    /** A missing project makes the `UPDATE ... RETURNING` return no row: the transaction rolls back. */
    method CreateTask(id: TaskId, project: ProjectId, parentId: Option<TaskId>, sprintId: Option<SprintId>)
      returns (created: Result<Row, string>)
      requires NumbersOk(tasks, counters) && id !in tasks
      modifies this
      ensures project !in old(counters) ==> created.Err? && tasks == old(tasks) && counters == old(counters)
      ensures project in old(counters) ==>
                && created.Ok? && tasks == old(tasks)[id := created.value]
                && counters == old(counters)[project := old(counters[project]) + 1]
                && created.value.number == old(counters[project]) + 1
                && created.value == Row(project, created.value.number, created.value.position, parentId, sprintId, false)
      ensures created.Ok? ==> AtTheBottom(old(tasks), project, created.value)
      ensures NumbersOk(tasks, counters)
    {
      if project !in counters {
        return Err("no such project");
      }
      counters := counters[project := counters[project] + 1];
      var number := counters[project];
      var max := MaxPosition(project);
      var row := Row(project, number, max + POSITION_STEP, parentId, sprintId, false);
      tasks := tasks[id := row];
      return Ok(row);
    }

    /** The subquery numbers the live tasks; the update joins it. */
    method RebalancePositions(project: ProjectId)
      requires NumbersOk(tasks, counters)
      modifies this`tasks
      ensures tasks == Rebalanced(old(tasks), project)
      ensures NumbersOk(tasks, counters)
      ensures SameOrder(old(tasks), tasks, project)
    {
      hide NumbersOk, SameOrder, RowNumber;
      RebalanceKeepsNumbersAndOrder(tasks, counters, project);
      ghost var before := tasks;
      var ranked := map id | id in LiveTasks(tasks, project) :: RowNumber(tasks, project, id);
      tasks := map id | id in tasks ::
        if id in ranked then tasks[id].(position := ranked[id] as real * POSITION_STEP) else tasks[id];
      assert tasks == Rebalanced(before, project);
    }

    method SoftDeleteTasks(ids: set<TaskId>)
      modifies this`tasks
      ensures tasks == SoftDeleted(old(tasks), ids)
      ensures tasks.Keys == old(tasks).Keys
      ensures forall id :: id in tasks ==>
                var row := old(tasks)[id];
                var orphaned := !row.deleted && exists p :: p in ids && row.parentId == Some(p);
                tasks[id] == row.(parentId := if orphaned then None else row.parentId,
                                  deleted := row.deleted || id in ids)
      ensures NoOrphans(old(tasks)) && Acyclic(old(tasks)) ==> NoOrphans(tasks) && Acyclic(tasks)
    {
      if NoOrphans(tasks) && Acyclic(tasks) {
        SoftDeleteKeepsForest(tasks, ids);
      }
      ghost var before := tasks;
      tasks := map id | id in tasks ::
        if tasks[id].parentId.Some? && tasks[id].parentId.value in ids && !tasks[id].deleted
        then tasks[id].(parentId := None) else tasks[id];
      tasks := map id | id in tasks :: if id in ids then tasks[id].(deleted := true) else tasks[id];
      assert tasks == SoftDeleted(before, ids);
    }

    /** The level-by-level walk, capped at 100 levels: it writes the tasks that climb into `parentIds` in 1 to 100 steps. */
    method MoveSubtreeToSprint(parentIds: set<TaskId>, sprintId: Option<SprintId>)
      modifies this`tasks
      ensures tasks.Keys == old(tasks).Keys
      ensures forall id :: id in tasks ==>
                tasks[id] == if exists d: nat :: 1 <= d <= 100 && ClimbsInto(old(tasks), parentIds, d, id)
                             then old(tasks)[id].(sprintId := sprintId) else old(tasks)[id]
    {
      ghost var before := tasks;
      var level := parentIds;
      var depth := 0;
      while level != {} && depth < MAX_LEVELS
        invariant depth <= MAX_LEVELS && level == Level(before, parentIds, depth)
        invariant tasks.Keys == before.Keys
        invariant forall id :: id in tasks ==>
                    tasks[id] == if ReachedWithin(before, parentIds, id, depth)
                                 then before[id].(sprintId := sprintId) else before[id]
        decreases MAX_LEVELS - depth
      {
        level := Children(tasks, level);
        assert level == Level(before, parentIds, depth + 1) by {
          SprintsDoNotMatter(before, tasks, Level(before, parentIds, depth));
        }
        if level != {} {
          tasks := map id | id in tasks :: if id in level then tasks[id].(sprintId := sprintId) else tasks[id];
        }
        depth := depth + 1;
        OneLevelMore(before, parentIds, depth);
      }
      if depth < MAX_LEVELS {
        EmptyLevelsStayEmpty(before, parentIds, depth, MAX_LEVELS);
      }
      ReachedByClimbing(before, parentIds);
    }
  }

  lemma ReachedByClimbing(tasks: map<TaskId, Row>, parents: set<TaskId>)
    ensures forall id :: ReachedWithin(tasks, parents, id, MAX_LEVELS)
                    <==> exists d: nat :: 1 <= d <= 100 && ClimbsInto(tasks, parents, d, id)
  {
    forall id, d: nat
      ensures id in Level(tasks, parents, d) <==> ClimbsInto(tasks, parents, d, id)
    {
      LevelIsClimb(tasks, parents, d, id);
    }
  }

  /** The walk reads parents and soft deletes only, so its own writes do not steer it. */
  lemma SprintsDoNotMatter(tasks: map<TaskId, Row>, tasks': map<TaskId, Row>, level: set<TaskId>)
    requires tasks'.Keys == tasks.Keys
    requires forall id :: id in tasks ==> tasks'[id] == tasks[id].(sprintId := tasks'[id].sprintId)
    ensures Children(tasks', level) == Children(tasks, level)
  {
  }

  lemma OneLevelMore(tasks: map<TaskId, Row>, parents: set<TaskId>, depth: nat)
    requires depth > 0
    ensures forall id :: ReachedWithin(tasks, parents, id, depth)
                    <==> ReachedWithin(tasks, parents, id, depth - 1) || id in Level(tasks, parents, depth)
  {
  }

  lemma {:induction false} SomeTopTask(tasks: map<TaskId, Row>, ids: set<TaskId>) returns (top: TaskId)
    requires ids != {} && forall id :: id in ids ==> id in tasks
    ensures top in ids && forall other :: other in ids ==> tasks[other].position <= tasks[top].position
    decreases |ids|
  {
    var id :| id in ids;
    if ids == {id} {
      top := id;
    } else {
      var rest := SomeTopTask(tasks, ids - {id});
      top := if tasks[id].position <= tasks[rest].position then rest else id;
      assert forall other :: other in ids ==> other == id || other in ids - {id};
    }
  }

  lemma {:induction false} EmptyLevelsStayEmpty(tasks: map<TaskId, Row>, parents: set<TaskId>, from: nat, last: nat)
    requires from <= last && Level(tasks, parents, from) == {}
    ensures forall id :: ReachedWithin(tasks, parents, id, last) <==> ReachedWithin(tasks, parents, id, from)
    ensures Level(tasks, parents, last) == {}
    decreases last
  {
    if from < last {
      EmptyLevelsStayEmpty(tasks, parents, from, last - 1);
      assert Level(tasks, parents, last) == {};
      forall id
        ensures ReachedWithin(tasks, parents, id, last) ==> ReachedWithin(tasks, parents, id, last - 1)
      {
        if ReachedWithin(tasks, parents, id, last) {
          var d: nat :| 1 <= d <= last && id in Level(tasks, parents, d);
        }
      }
      forall id
        ensures ReachedWithin(tasks, parents, id, last - 1) ==> ReachedWithin(tasks, parents, id, last)
      {
        if ReachedWithin(tasks, parents, id, last - 1) {
          var d: nat :| 1 <= d <= last - 1 && id in Level(tasks, parents, d);
        }
      }
    }
  }
}
