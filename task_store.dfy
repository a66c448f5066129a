/** The backend's task store: the `Task` model and the views that create,
    delete, toggle and list tasks, over an in-memory map from id to record. */
module TaskStore {
  import opened Wrappers
  import opened Text
  import opened CircularCheck

  /** A row of the `Task` table. `dueDate` is the date as a day number; the
      dependencies are the ids of the many-to-many relation, in the order the
      database lists them. */
  datatype StoredTask = StoredTask(
    user: int,
    number: int,
    title: string,
    dueDate: int,
    estimatedHours: int,
    importance: int,
    dependencies: seq<int>,
    priorityScore: real,
    smartPriorityScore: real,
    completed: bool,
    circularTask: bool)

  /** The JSON body of a create request. A field that is absent or `null`
      is `None`; so is a due date that is not a date `DateField` can read.
      `dueDate` is the day the request's date text names. `dependencies` is
      `data.get("dependencies", [])`: an absent list is `Some([])`, and only
      an explicit `null` is `None`. */
  datatype CreateRequest = CreateRequest(
    number: Option<int>,
    title: Option<string>,
    dueDate: Option<int>,
    estimatedHours: Option<int>,
    importance: Option<int>,
    dependencies: Option<seq<int>>)

  /** A view's JSON reply. `ServerError` is an uncaught database error. */
  datatype Reply =
    | Created(id: int)
    | Deleted
    | Toggled(completed: bool)
    | Failure(status: int, error: string)
    | ServerError

  /** A list view's reply: the ids of the listed tasks. */
  datatype ListReply = Listed(ids: set<int>) | Refused(status: int, error: string)

  type Table = map<int, StoredTask>

  /** The dependency relation of the table. */
  function DependencyGraph(m: Table): (g: Graph)
    ensures g.Keys == m.Keys
    ensures forall id :: id in m ==> g[id] == m[id].dependencies
  {
    map id | id in m :: m[id].dependencies
  }

  /** `id` names a task of `user`. */
  predicate Owned(m: Table, user: int, id: int) {
    id in m && m[id].user == user
  }

  /** The ids of the tasks that depend on `id` (`required_by`). */
  function RequiredBy(m: Table, id: int): (r: set<int>)
    ensures forall x :: x in r <==> x in m && id in m[x].dependencies
  {
    set x | x in m && id in m[x].dependencies
  }

  predicate NumberTaken(m: Table, user: int, number: int) {
    exists id :: id in m && m[id].user == user && m[id].number == number
  }

  /** The request's number is already used by one of `user`'s tasks. */
  predicate Duplicate(m: Table, user: int, req: CreateRequest) {
    req.number.Some? && NumberTaken(m, user, req.number.value)
  }

  const DuplicateError := "Task number already exists for this user"

  /** `Task.objects.create` can insert the request: every column is given,
      the date reads as a date and the number fits `PositiveIntegerField`. */
  predicate Insertable(req: CreateRequest) {
    && req.number.Some? && req.title.Some? && req.dueDate.Some?
    && req.estimatedHours.Some? && req.importance.Some? && req.number.value >= 0
  }

  /** The reply for a dependency id that is not a task of the user. */
  function MissingError(id: int): (e: string)
    ensures e != DuplicateError
  {
    assert ("Dependency " + IntToString(id) + " does not exist")[0] == 'D' != DuplicateError[0];
    "Dependency " + IntToString(id) + " does not exist"
  }

  ghost predicate DependenciesOwned(m: Table) {
    forall id, d :: id in m && d in m[id].dependencies ==> Owned(m, m[id].user, d)
  }

  ghost predicate DependenciesDistinct(m: Table) {
    forall id, i, j :: id in m && 0 <= i < j < |m[id].dependencies| ==>
      m[id].dependencies[i] != m[id].dependencies[j]
  }

  /** `unique_together = ("user", "number")` and `PositiveIntegerField`. */
  ghost predicate NumbersUnique(m: Table) {
    && (forall a, b :: a in m && b in m && a != b && m[a].user == m[b].user ==> m[a].number != m[b].number)
    && (forall id :: id in m ==> m[id].number >= 0)
  }

  /** The store's invariant: ids come from the auto-increment counter,
      dependencies name existing tasks of the same user, each at most once,
      and numbers are non-negative and unique per user. */
  ghost predicate TableValid(m: Table, nextId: int) {
    && nextId >= 1
    && (forall id :: id in m ==> 1 <= id < nextId)
    && DependenciesOwned(m)
    && DependenciesDistinct(m)
    && NumbersUnique(m)
  }

  lemma GraphWellFormed(m: Table)
    requires DependenciesOwned(m) && DependenciesDistinct(m)
    ensures WellFormed(DependencyGraph(m))
  {
  }

  /** The list with repeated ids dropped, first occurrences kept: adding the
      same task to a many-to-many relation twice stores it once. */
  function Dedup(s: seq<int>): (r: seq<int>)
    ensures forall x :: x in r <==> x in s
    ensures forall i, j :: 0 <= i < j < |r| ==> r[i] != r[j]
  {
    if s == [] then []
    else
      var r := Dedup(s[..|s| - 1]);
      assert forall x :: x in s <==> x in s[..|s| - 1] || x == s[|s| - 1] by {
        assert s == s[..|s| - 1] + [s[|s| - 1]];
      }
      if s[|s| - 1] in r then r else r + [s[|s| - 1]]
  }

  /** The first dependency id that is not a task of `user`, if any. */
  function FirstMissing(m: Table, user: int, deps: seq<int>): (r: Option<int>)
    ensures r.None? <==> forall d :: d in deps ==> Owned(m, user, d)
    ensures r.Some? ==> exists i :: 0 <= i < |deps| && deps[i] == r.value && !Owned(m, user, deps[i])
                                    && forall j :: 0 <= j < i ==> Owned(m, user, deps[j])
  {
    if deps == [] then None
    else if !Owned(m, user, deps[0]) then Some(deps[0])
    else
      var r := FirstMissing(m, user, deps[1..]);
      assert r.Some? ==> exists i :: 0 <= i < |deps| && deps[i] == r.value && !Owned(m, user, deps[i])
                                    && forall j :: 0 <= j < i ==> Owned(m, user, deps[j]) by {
        if r.Some? {
          var i :| 0 <= i < |deps[1..]| && deps[1..][i] == r.value && !Owned(m, user, deps[1..][i])
                   && forall j :: 0 <= j < i ==> Owned(m, user, deps[1..][j]);
          assert deps[i + 1] == r.value;
          assert forall j :: 0 <= j < i + 1 ==> Owned(m, user, deps[j]) by {
            forall j | 0 <= j < i + 1 ensures Owned(m, user, deps[j]) {
              if j > 0 {
                assert deps[j] == deps[1..][j - 1];
              }
            }
          }
        }
      }
      assert r.None? ==> forall d :: d in deps ==> Owned(m, user, d) by {
        assert deps == [deps[0]] + deps[1..];
      }
      r
  }

  /** The row `Task.objects.create` inserts: no dependencies, not completed,
      not circular, both scores 0.0. */
  function NewRow(user: int, req: CreateRequest): (t: StoredTask)
    requires Insertable(req)
    ensures t.dependencies == [] && !t.completed && !t.circularTask
    ensures t.priorityScore == 0.0 && t.smartPriorityScore == 0.0
    ensures t.user == user && t.number == req.number.value && t.title == req.title.value
    ensures t.dueDate == req.dueDate.value && t.estimatedHours == req.estimatedHours.value
    ensures t.importance == req.importance.value
  {
    StoredTask(user, req.number.value, req.title.value, req.dueDate.value, req.estimatedHours.value,
               req.importance.value, [], 0.0, 0.0, false, false)
  }

  /** `toggle_completed`'s update of one row. */
  function ToggleCompleted(m: Table, id: int): (r: Table)
    requires id in m
    ensures r.Keys == m.Keys && r[id].completed == !m[id].completed
    ensures r[id].(completed := m[id].completed) == m[id]
    ensures forall x :: x in m && x != id ==> r[x] == m[x]
  {
    m[id := m[id].(completed := !m[id].completed)]
  }

  /** Two toggles restore the row. */
  lemma ToggleTwice(m: Table, id: int)
    requires id in m
    ensures ToggleCompleted(ToggleCompleted(m, id), id) == m
  {
    var once := ToggleCompleted(m, id);
    var twice := ToggleCompleted(once, id);
    assert twice[id] == m[id];
  }

  class Store {
    var tasks: Table
    var nextId: int

    ghost predicate Valid()
      reads this
    {
      TableValid(tasks, nextId)
    }

    constructor ()
      ensures Valid() && tasks == map[] && nextId == 1
    {
      tasks := map[];
      nextId := 1;
    }

    /** `tasks_view`, POST, up to the end of the dependency loop: the
        duplicate check, `Task.objects.create` and the links. `failure` is the
        reply when it stops early (a `null` dependency list stops it with a
        server error once the row is stored); otherwise `id` names the stored
        row, whose dependencies are linked and whose flag and scores are the
        defaults. */
    method Insert(user: int, req: CreateRequest) returns (failure: Option<Reply>, id: int)
      requires Valid()
      modifies this
      ensures Valid()
      ensures Duplicate(old(tasks), user, req) ==>
        failure == Some(Failure(400, DuplicateError)) && tasks == old(tasks) && nextId == old(nextId)
      ensures !Duplicate(old(tasks), user, req) && !Insertable(req) ==>
        failure == Some(ServerError) && tasks == old(tasks) && nextId == old(nextId)
      ensures !Duplicate(old(tasks), user, req) && Insertable(req) ==> nextId == old(nextId) + 1
      ensures !Duplicate(old(tasks), user, req) && Insertable(req) && req.dependencies.None? ==>
        failure == Some(ServerError) && tasks == old(tasks)[old(nextId) := NewRow(user, req)]
      ensures !Duplicate(old(tasks), user, req) && Insertable(req) && req.dependencies.Some? ==>
        var deps := req.dependencies.value;
        var missing := FirstMissing(old(tasks)[old(nextId) := NewRow(user, req)], user, deps);
        && (missing.Some? ==> failure == Some(Failure(400, MissingError(missing.value))) && tasks == old(tasks))
        && (missing.None? ==>
              && failure.None? && id == old(nextId) && id !in old(tasks)
              && tasks == old(tasks)[id := NewRow(user, req).(dependencies := Dedup(deps))])
    {
      id := nextId;
      if Duplicate(tasks, user, req) {
        return Some(Failure(400, DuplicateError)), id;
      }
      if !Insertable(req) {
        return Some(ServerError), id;
      }
      var row := NewRow(user, req);
      nextId := nextId + 1;
      tasks := tasks[id := row];
      assert id !in old(tasks);
      if req.dependencies.None? {
        // Iterating over `None` raises after the row is stored.
        CreatedRowValid(old(tasks), old(nextId), user, req, row, []);
        assert row.(dependencies := Dedup([])) == row;
        return Some(ServerError), id;
      }
      ghost var withRow := tasks;
      var missing := LinkDependencies(id, user, req.dependencies.value);
      if missing.Some? {
        assert tasks == withRow - {id} == old(tasks);
        return Some(Failure(400, MissingError(missing.value))), id;
      }
      assert tasks == old(tasks)[id := row.(dependencies := Dedup(req.dependencies.value))];
      CreatedRowValid(old(tasks), old(nextId), user, req, row, req.dependencies.value);
      failure := None;
    }

    /** `tasks_view`, POST, with the due date read as a date (the view as
        written never gets this far, see `CreateAsWritten`). `priority` and
        `smart` are what the two score functions give for the new task; both
        divide by the estimated hours, so with zero hours they fail after the
        row and its dependencies have been stored, and the row keeps its
        default flag and scores. */
    method Create(user: int, req: CreateRequest, priority: real, smart: real) returns (reply: Reply)
      requires Valid()
      modifies this
      ensures Valid()
      ensures Duplicate(old(tasks), user, req) ==>
        reply == Failure(400, DuplicateError) && tasks == old(tasks) && nextId == old(nextId)
      ensures !Duplicate(old(tasks), user, req) && !Insertable(req) ==>
        reply == ServerError && tasks == old(tasks) && nextId == old(nextId)
      ensures !Duplicate(old(tasks), user, req) && Insertable(req) ==> nextId == old(nextId) + 1
      ensures !Duplicate(old(tasks), user, req) && Insertable(req) && req.dependencies.None? ==>
        reply == ServerError && tasks == old(tasks)[old(nextId) := NewRow(user, req)]
      ensures !Duplicate(old(tasks), user, req) && Insertable(req) && req.dependencies.Some? ==>
        var missing := FirstMissing(old(tasks)[old(nextId) := NewRow(user, req)], user, req.dependencies.value);
        var linked := NewRow(user, req).(dependencies := Dedup(req.dependencies.value));
        && (missing.Some? ==> reply == Failure(400, MissingError(missing.value)) && tasks == old(tasks))
        && (missing.None? && req.estimatedHours.value == 0 ==>
              reply == ServerError && tasks == old(tasks)[old(nextId) := linked])
        && (missing.None? && req.estimatedHours.value != 0 ==>
              && reply == Created(old(nextId)) && old(nextId) !in old(tasks) && old(nextId) in tasks
              && tasks == old(tasks)[old(nextId) := linked.(circularTask := tasks[old(nextId)].circularTask,
                                                           priorityScore := priority, smartPriorityScore := smart)]
              && (tasks[old(nextId)].circularTask <==> Reentry(DependencyGraph(tasks), old(nextId), {})))
    {
      var failure, id := Insert(user, req);
      if failure.Some? {
        return failure.value;
      }
      if req.estimatedHours.value == 0 {
        // The score computation divides by the estimated hours; the row and
        // its dependencies are already stored when it fails.
        return ServerError;
      }
      var found := Rescore(id, priority, smart);
      reply := Created(id);
    }

    /** `tasks_view`, POST, as written. `Task.objects.create` leaves the
        request's due-date text on the new object, so the score computation's
        `task.due_date - today` subtracts a date from a string and raises:
        every request that gets past the dependency loop ends in a server
        error, with the row and its dependencies stored and its circular flag
        and scores left at their defaults, since `save` is never reached. */
    method CreateAsWritten(user: int, req: CreateRequest) returns (reply: Reply)
      requires Valid()
      modifies this
      ensures Valid()
      ensures Duplicate(old(tasks), user, req) ==>
        reply == Failure(400, DuplicateError) && tasks == old(tasks) && nextId == old(nextId)
      ensures !Duplicate(old(tasks), user, req) && !Insertable(req) ==>
        reply == ServerError && tasks == old(tasks) && nextId == old(nextId)
      ensures !Duplicate(old(tasks), user, req) && Insertable(req) ==> nextId == old(nextId) + 1
      ensures !Duplicate(old(tasks), user, req) && Insertable(req) && req.dependencies.None? ==>
        reply == ServerError && tasks == old(tasks)[old(nextId) := NewRow(user, req)]
      ensures !Duplicate(old(tasks), user, req) && Insertable(req) && req.dependencies.Some? ==>
        var missing := FirstMissing(old(tasks)[old(nextId) := NewRow(user, req)], user, req.dependencies.value);
        && (missing.Some? ==> reply == Failure(400, MissingError(missing.value)) && tasks == old(tasks))
        && (missing.None? ==>
              && reply == ServerError
              && tasks == old(tasks)[old(nextId) := NewRow(user, req).(dependencies := Dedup(req.dependencies.value))])
      ensures !reply.Created?
    {
      var failure, id := Insert(user, req);
      if failure.Some? {
        return failure.value;
      }
      reply := ServerError;
    }

    /** The end of the create view: the circular flag from
        `has_circular_dependency` and the two scores, then `save`. */
    method Rescore(id: int, priority: real, smart: real) returns (found: bool)
      requires Valid() && id in tasks
      modifies this`tasks
      ensures Valid()
      ensures tasks == old(tasks)[id := old(tasks)[id].(circularTask := found, priorityScore := priority,
                                                        smartPriorityScore := smart)]
      ensures found <==> Reentry(DependencyGraph(tasks), id, {})
    {
      GraphWellFormed(tasks);
      found := HasCircular(DependencyGraph(tasks), id);
      RescoredValid(tasks, nextId, id, found, priority, smart);
      tasks := tasks[id := tasks[id].(circularTask := found, priorityScore := priority, smartPriorityScore := smart)];
    }

    /** The dependency loop of the create view: links each listed id that is a
        task of `user` to the new row `id`, and on the first one that is not,
        deletes the new row and stops. */
    method LinkDependencies(id: int, user: int, deps: seq<int>) returns (missing: Option<int>)
      requires id in tasks && tasks[id].dependencies == [] && tasks[id].user == user
      modifies this`tasks
      ensures missing == FirstMissing(old(tasks), user, deps)
      ensures missing.Some? ==> tasks == old(tasks) - {id}
      ensures missing.None? ==> tasks == old(tasks)[id := old(tasks)[id].(dependencies := Dedup(deps))]
    {
      ghost var m0 := tasks;
      ghost var row := m0[id];
      for i := 0 to |deps|
        invariant tasks == m0[id := row.(dependencies := Dedup(deps[..i]))]
        invariant forall j :: 0 <= j < i ==> Owned(m0, user, deps[j])
      {
        ghost var before := tasks;
        OwnedKept(m0, id, row, Dedup(deps[..i]), user, deps[i]);
        var linked := LinkOne(id, user, deps[i]);
        if !linked {
          MissingIsFirst(m0, user, deps, i);
          assert before - {id} == m0 - {id};
          return Some(deps[i]);
        }
        LinkStep(m0, id, row, deps, i);
      }
      AllLinked(m0, id, row, user, deps);
      missing := None;
    }

    /** One pass of the dependency loop: `Task.objects.get(id=dep_id,
        user=user)` then `task.dependencies.add(dep)`, or, when there is no
        such task, `task.delete()`. A relation already holding `dep` is left
        as it is. */
    method LinkOne(id: int, user: int, depId: int) returns (linked: bool)
      requires id in tasks && tasks[id].user == user
      modifies this`tasks
      ensures linked <==> Owned(old(tasks), user, depId)
      ensures !linked ==> tasks == old(tasks) - {id}
      ensures linked ==> tasks == old(tasks)[id := old(tasks)[id].(dependencies :=
        if depId in old(tasks)[id].dependencies then old(tasks)[id].dependencies
        else old(tasks)[id].dependencies + [depId])]
    {
      if !(depId in tasks && tasks[depId].user == user) {
        tasks := tasks - {id};
        return false;
      }
      var deps := tasks[id].dependencies;
      if depId !in deps {
        tasks := tasks[id := tasks[id].(dependencies := deps + [depId])];
      }
      linked := true;
    }

    /** `delete_task`. */
    method Delete(httpMethod: string, user: int, taskId: int) returns (reply: Reply)
      requires Valid()
      modifies this`tasks
      ensures Valid()
      ensures httpMethod != "DELETE" ==> reply == Failure(400, "DELETE method required") && tasks == old(tasks)
      ensures httpMethod == "DELETE" && !Owned(old(tasks), user, taskId) ==>
        reply == Failure(404, "Task not found") && tasks == old(tasks)
      ensures httpMethod == "DELETE" && Owned(old(tasks), user, taskId) && RequiredBy(old(tasks), taskId) != {} ==>
        reply == Failure(400, "Cannot delete, other tasks depend on this") && tasks == old(tasks)
      ensures httpMethod == "DELETE" && Owned(old(tasks), user, taskId) && RequiredBy(old(tasks), taskId) == {} ==>
        reply == Deleted && tasks == old(tasks) - {taskId}
    {
      if httpMethod != "DELETE" {
        return Failure(400, "DELETE method required");
      }
      if !(taskId in tasks && tasks[taskId].user == user) {
        return Failure(404, "Task not found");
      }
      if exists x :: x in tasks && taskId in tasks[x].dependencies {
        assert RequiredBy(tasks, taskId) != {};
        return Failure(400, "Cannot delete, other tasks depend on this");
      }
      tasks := tasks - {taskId};
      reply := Deleted;
    }

    /** `toggle_completed`. */
    method Toggle(httpMethod: string, user: int, taskId: int) returns (reply: Reply)
      requires Valid()
      modifies this`tasks
      ensures Valid()
      ensures httpMethod != "POST" ==> reply == Failure(400, "POST method required") && tasks == old(tasks)
      ensures httpMethod == "POST" && !Owned(old(tasks), user, taskId) ==>
        reply == Failure(404, "Task not found") && tasks == old(tasks)
      ensures httpMethod == "POST" && Owned(old(tasks), user, taskId) ==>
        tasks == ToggleCompleted(old(tasks), taskId) && reply == Toggled(!old(tasks)[taskId].completed)
    {
      if httpMethod != "POST" {
        return Failure(400, "POST method required");
      }
      if !(taskId in tasks && tasks[taskId].user == user) {
        return Failure(404, "Task not found");
      }
      tasks := ToggleCompleted(tasks, taskId);
      reply := Toggled(tasks[taskId].completed);
    }

    /** `pending_tasks`. */
    function PendingTasks(httpMethod: string, user: int): (r: ListReply)
      reads this
      ensures httpMethod != "GET" <==> r == Refused(400, "GET method required")
      ensures r.Listed? ==> forall id :: id in r.ids <==> Owned(tasks, user, id) && !tasks[id].completed
    {
      if httpMethod != "GET" then Refused(400, "GET method required")
      else Listed(set id | id in tasks && tasks[id].user == user && !tasks[id].completed)
    }

    /** `completed_tasks`. */
    function CompletedTasks(httpMethod: string, user: int): (r: ListReply)
      reads this
      ensures httpMethod != "GET" <==> r == Refused(400, "GET method required")
      ensures r.Listed? ==> forall id :: id in r.ids <==> Owned(tasks, user, id) && tasks[id].completed
    {
      if httpMethod != "GET" then Refused(400, "GET method required")
      else Listed(set id | id in tasks && tasks[id].user == user && tasks[id].completed)
    }

    /** `circular_tasks`: the list the home page groups. */
    function CircularTasks(httpMethod: string, user: int): (r: ListReply)
      reads this
      ensures httpMethod != "GET" <==> r == Refused(400, "GET method required")
      ensures r.Listed? ==> forall id :: id in r.ids <==> Owned(tasks, user, id) && tasks[id].circularTask
    {
      if httpMethod != "GET" then Refused(400, "GET method required")
      else Listed(set id | id in tasks && tasks[id].user == user && tasks[id].circularTask)
    }
  }

  /** The pending and completed lists split the user's tasks between them. */
  lemma PendingCompletedPartition(s: Store, user: int)
    ensures s.PendingTasks("GET", user).ids !! s.CompletedTasks("GET", user).ids
    ensures s.PendingTasks("GET", user).ids + s.CompletedTasks("GET", user).ids
            == set id | id in s.tasks && s.tasks[id].user == user
  {
  }

  /** The dependency that fails the loop is the first one that is not the user's. */
  lemma MissingIsFirst(m: Table, user: int, deps: seq<int>, i: int)
    requires 0 <= i < |deps| && !Owned(m, user, deps[i])
    requires forall j :: 0 <= j < i ==> Owned(m, user, deps[j])
    ensures FirstMissing(m, user, deps) == Some(deps[i])
  {
    if i > 0 {
      MissingIsFirst(m, user, deps[1..], i - 1);
    }
  }

  /** One more id through the de-duplicating append. */
  lemma DedupStep(s: seq<int>, i: int)
    requires 0 <= i < |s|
    ensures Dedup(s[..i + 1]) == if s[i] in Dedup(s[..i]) then Dedup(s[..i]) else Dedup(s[..i]) + [s[i]]
  {
    assert s[..i + 1][..i] == s[..i];
  }

  /** Adding `deps[i]` to the relation holding `Dedup(deps[..i])` gives the
      relation holding `Dedup(deps[..i + 1])`. */
  lemma LinkStep(m: Table, id: int, row: StoredTask, deps: seq<int>, i: int)
    requires 0 <= i < |deps|
    ensures var before := m[id := row.(dependencies := Dedup(deps[..i]))];
      before[id := before[id].(dependencies :=
        if deps[i] in before[id].dependencies then before[id].dependencies
        else before[id].dependencies + [deps[i]])]
      == m[id := row.(dependencies := Dedup(deps[..i + 1]))]
  {
    DedupStep(deps, i);
    Relink(m, id, row, Dedup(deps[..i]), Dedup(deps[..i + 1]), deps[i]);
  }

  /** Linking `x` to a row holding `d0` is storing the row with `d1`. */
  lemma Relink(m: Table, id: int, row: StoredTask, d0: seq<int>, d1: seq<int>, x: int)
    requires d1 == if x in d0 then d0 else d0 + [x]
    ensures var before := m[id := row.(dependencies := d0)];
      before[id := before[id].(dependencies :=
        if x in before[id].dependencies then before[id].dependencies
        else before[id].dependencies + [x])]
      == m[id := row.(dependencies := d1)]
  {
    var before := m[id := row.(dependencies := d0)];
    assert before[id].dependencies == d0;
  }

  /** Relinking a row keeps who owns which id. */
  lemma OwnedKept(m: Table, id: int, row: StoredTask, ds: seq<int>, user: int, d: int)
    requires id in m && m[id].user == row.user
    ensures Owned(m[id := row.(dependencies := ds)], user, d) <==> Owned(m, user, d)
  {
  }

  /** After the whole list, nothing is missing and every id is linked. */
  lemma AllLinked(m: Table, id: int, row: StoredTask, user: int, deps: seq<int>)
    requires forall j :: 0 <= j < |deps| ==> Owned(m, user, deps[j])
    ensures FirstMissing(m, user, deps) == None
    ensures m[id := row.(dependencies := Dedup(deps[..|deps|]))] == m[id := row.(dependencies := Dedup(deps))]
  {
    assert deps[..|deps|] == deps;
  }

  /** Setting the circular flag and the scores keeps the invariant and the
      dependency relation. */
  lemma RescoredValid(m: Table, n: int, id: int, found: bool, priority: real, smart: real)
    requires TableValid(m, n) && id in m
    ensures TableValid(m[id := m[id].(circularTask := found, priorityScore := priority, smartPriorityScore := smart)], n)
    ensures DependencyGraph(m[id := m[id].(circularTask := found, priorityScore := priority, smartPriorityScore := smart)])
            == DependencyGraph(m)
  {
    var m' := m[id := m[id].(circularTask := found, priorityScore := priority, smartPriorityScore := smart)];
    assert forall x :: x in m ==> m'[x].user == m[x].user && m'[x].dependencies == m[x].dependencies
                                  && m'[x].number == m[x].number;
  }

  /** The invariant holds once the new row and its dependencies are in. */
  lemma CreatedRowValid(m: Table, id: int, user: int, req: CreateRequest, row: StoredTask, deps: seq<int>)
    requires TableValid(m, id)
    requires Insertable(req) && !NumberTaken(m, user, req.number.value) && row == NewRow(user, req)
    requires forall d :: d in deps ==> Owned(m[id := row], user, d)
    ensures TableValid(m[id := row.(dependencies := Dedup(deps))], id + 1)
  {
    var m' := m[id := row.(dependencies := Dedup(deps))];
    forall x, d | x in m' && d in m'[x].dependencies ensures Owned(m', m'[x].user, d) {
      if x != id {
        assert Owned(m, m[x].user, d);
      }
    }
  }
}
