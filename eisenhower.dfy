/** The Eisenhower matrix page: each task is classified as urgent and/or
    important, placed in one of four quadrants, and a drop onto a quadrant
    rewrites the dragged task's importance and due date. Times are
    milliseconds; `now` is the page's clock reading. */
module Eisenhower {
  import opened Wrappers
  import opened TaskRecord

  const HourMs: int := 60 * 60 * 1000
  const DayMs: int := 24 * HourMs

  /** `(dueDate - now) / (1000 * 60 * 60)`. */
  function HoursLeft(t: Task, now: int): real {
    (t.dueDate - now) as real / HourMs as real
  }

  predicate IsUrgent(t: Task, now: int) {
    var h := HoursLeft(t, now);
    h <= 24.0 || (h > 0.0 && h <= t.estimatedHours as real)
  }

  predicate IsImportant(t: Task) {
    t.importance >= 6
  }

  /** `{ ...task, isUrgent, isImportant }`. */
  datatype Classified = Classified(task: Task, isUrgent: bool, isImportant: bool)

  /** `classifiedTasks`. */
  function Classify(tasks: seq<Task>, now: int): (r: seq<Classified>)
    ensures |r| == |tasks|
    ensures forall i :: 0 <= i < |r| ==>
      r[i].task == tasks[i] && (r[i].isUrgent <==> IsUrgent(tasks[i], now)) && (r[i].isImportant <==> tasks[i].importance >= 6)
  {
    seq(|tasks|, i requires 0 <= i < |tasks| => Classified(tasks[i], IsUrgent(tasks[i], now), IsImportant(tasks[i])))
  }

  /** A task already past its due time is urgent. */
  lemma OverdueIsUrgent(t: Task, now: int)
    requires t.dueDate <= now
    ensures IsUrgent(t, now)
  {
    assert HoursLeft(t, now) <= 0.0;
  }

  /** A task is urgent exactly when it is due within a day, or due later but
      in no more hours than it is estimated to take. */
  lemma UrgentByDueTime(t: Task, now: int)
    ensures IsUrgent(t, now) <==>
      (t.dueDate - now <= 24 * HourMs
       || (t.dueDate > now && (t.dueDate - now) as real <= (t.estimatedHours * HourMs) as real))
  {
    var d := (t.dueDate - now) as real;
    assert HoursLeft(t, now) == d / 3600000.0;
    assert HoursLeft(t, now) <= 24.0 <==> d <= 86400000.0;
    assert HoursLeft(t, now) > 0.0 <==> d > 0.0;
    assert HoursLeft(t, now) <= t.estimatedHours as real <==> d <= (t.estimatedHours * HourMs) as real;
  }

  datatype QuadrantId = Do | Plan | Delegate | Eliminate

  /** The branch of the bucketing loop a classified task takes. */
  function QuadrantOf(c: Classified): (q: QuadrantId)
    ensures q == Do <==> c.isUrgent && c.isImportant
    ensures q == Plan <==> !c.isUrgent && c.isImportant
    ensures q == Delegate <==> c.isUrgent && !c.isImportant
    ensures q == Eliminate <==> !c.isUrgent && !c.isImportant
  {
    if c.isUrgent && c.isImportant then Do
    else if !c.isUrgent && c.isImportant then Plan
    else if c.isUrgent && !c.isImportant then Delegate
    else Eliminate
  }

  /** The tasks of `s` in quadrant `q`, in input order. */
  function InQuadrant(s: seq<Classified>, q: QuadrantId): seq<Classified> {
    if s == [] then []
    else InQuadrant(s[..|s| - 1], q) + (if QuadrantOf(s[|s| - 1]) == q then [s[|s| - 1]] else [])
  }

  datatype Quadrants = Quadrants(doTasks: seq<Classified>, plan: seq<Classified>,
                                 delegate: seq<Classified>, eliminate: seq<Classified>)

  /** The `forEach` that pushes each classified task onto one quadrant's list. */
  method Bucket(classified: seq<Classified>) returns (q: Quadrants)
    ensures q.doTasks == InQuadrant(classified, Do)
    ensures q.plan == InQuadrant(classified, Plan)
    ensures q.delegate == InQuadrant(classified, Delegate)
    ensures q.eliminate == InQuadrant(classified, Eliminate)
  {
    q := Quadrants([], [], [], []);
    for i := 0 to |classified|
      invariant q.doTasks == InQuadrant(classified[..i], Do)
      invariant q.plan == InQuadrant(classified[..i], Plan)
      invariant q.delegate == InQuadrant(classified[..i], Delegate)
      invariant q.eliminate == InQuadrant(classified[..i], Eliminate)
    {
      var c := classified[i];
      assert classified[..i + 1][..i] == classified[..i] && classified[..i + 1][i] == c;
      if c.isUrgent && c.isImportant {
        q := q.(doTasks := q.doTasks + [c]);
      } else if !c.isUrgent && c.isImportant {
        q := q.(plan := q.plan + [c]);
      } else if c.isUrgent && !c.isImportant {
        q := q.(delegate := q.delegate + [c]);
      } else {
        q := q.(eliminate := q.eliminate + [c]);
      }
    }
    assert classified[..|classified|] == classified;
  }

  /** Every task lands in exactly one quadrant: together the four lists hold
      each classified task as often as the input does. */
  lemma {:induction false} QuadrantsPartition(s: seq<Classified>)
    ensures multiset(InQuadrant(s, Do)) + multiset(InQuadrant(s, Plan))
            + multiset(InQuadrant(s, Delegate)) + multiset(InQuadrant(s, Eliminate)) == multiset(s)
  {
    if s != [] {
      var init, x := s[..|s| - 1], s[|s| - 1];
      QuadrantsPartition(init);
      MultisetLast(s);
      InQuadrantLast(s, Do);
      InQuadrantLast(s, Plan);
      InQuadrantLast(s, Delegate);
      InQuadrantLast(s, Eliminate);
    }
  }

  lemma MultisetLast(s: seq<Classified>)
    requires s != []
    ensures multiset(s) == multiset(s[..|s| - 1]) + multiset{s[|s| - 1]}
  {
    assert s == s[..|s| - 1] + [s[|s| - 1]];
  }

  lemma InQuadrantLast(s: seq<Classified>, q: QuadrantId)
    requires s != []
    ensures multiset(InQuadrant(s, q)) == multiset(InQuadrant(s[..|s| - 1], q))
              + (if QuadrantOf(s[|s| - 1]) == q then multiset{s[|s| - 1]} else multiset{})
  {
  }

  /** A quadrant's list holds only tasks of that quadrant, and all of them. */
  lemma {:induction false} InQuadrantMembers(s: seq<Classified>, q: QuadrantId)
    ensures forall c :: c in InQuadrant(s, q) <==> c in s && QuadrantOf(c) == q
  {
    if s != [] {
      InQuadrantMembers(s[..|s| - 1], q);
      assert s == s[..|s| - 1] + [s[|s| - 1]];
    }
  }

  // ---------------------------------------------------------------------------
  // Dropping a task onto a quadrant
  // ---------------------------------------------------------------------------

  /** The fields a drop writes. */
  datatype Update = Update(importance: int, dueDate: int)

  /** The `newProperties` table, looked up by quadrant id. */
  function NewProperties(quadrantId: string, now: int): (r: Option<Update>)
    ensures r.Some? <==> quadrantId in {"do", "plan", "delegate", "eliminate"}
    ensures r.Some? ==> (r.value.importance >= 6 <==> quadrantId in {"do", "plan"})
    ensures r.Some? ==> (r.value.dueDate - now <= 24 * HourMs <==> quadrantId in {"do", "delegate"})
    ensures r.Some? ==> r.value.dueDate > now
  {
    if quadrantId == "do" then Some(Update(8, now + DayMs))
    else if quadrantId == "plan" then Some(Update(8, now + 3 * DayMs))
    else if quadrantId == "delegate" then Some(Update(4, now + DayMs))
    else if quadrantId == "eliminate" then Some(Update(2, now + 3 * DayMs))
    else None
  }

  function Apply(t: Task, u: Update): Task {
    t.(importance := u.importance, dueDate := u.dueDate)
  }

  function QuadrantName(q: QuadrantId): string {
    match q
    case Do => "do"
    case Plan => "plan"
    case Delegate => "delegate"
    case Eliminate => "eliminate"
  }

  /** `handleDragEnd` on the task list, as written: `active` is the dragged
      card's id (its task's `_id`), `over` the quadrant under the pointer. */
  function DragEnd(tasks: seq<Task>, active: Option<string>, over: Option<string>, now: int): (r: seq<Task>)
    ensures |r| == |tasks|
    ensures over.None? || active == Some(over.value) || NewProperties(over.value, now).None? ==> r == tasks
    ensures over.Some? && NewProperties(over.value, now).Some? ==>
      forall i :: 0 <= i < |r| && tasks[i].dragId != active ==> r[i] == tasks[i]
    ensures over.Some? && active != Some(over.value) && NewProperties(over.value, now).Some? ==>
      forall i :: 0 <= i < |r| && tasks[i].dragId == active ==> r[i] == Apply(tasks[i], NewProperties(over.value, now).value)
  {
    if over.Some? && active != Some(over.value) then
      match NewProperties(over.value, now)
      case None => tasks
      case Some(u) => seq(|tasks|, i requires 0 <= i < |tasks| => if tasks[i].dragId == active then Apply(tasks[i], u) else tasks[i])
    else tasks
  }

  /** A drop onto `do` or `delegate` puts the task in that quadrant at the
      time of the drop; a drop onto `plan` or `eliminate` does so only for a
      task estimated at fewer than 72 hours, since the due date written is
      72 hours ahead and a task due within its estimate counts as urgent. */
  lemma DropLandsInTarget(t: Task, q: QuadrantId, now: int)
    ensures var u := NewProperties(QuadrantName(q), now).value;
      var moved := Apply(t, u);
      (QuadrantOf(Classified(moved, IsUrgent(moved, now), IsImportant(moved))) == q
       <==> (q in {Do, Delegate} || moved.estimatedHours < 72))
  {
    var u := NewProperties(QuadrantName(q), now).value;
    var moved := Apply(t, u);
    UrgentByDueTime(moved, now);
    if q == Plan || q == Eliminate {
      assert moved.dueDate - now == 72 * HourMs;
      assert (moved.dueDate - now) as real <= (moved.estimatedHours * HourMs) as real <==> moved.estimatedHours >= 72;
    }
  }

  /** Tasks fetched from the backend carry no `_id`, so every card's
      draggable id is undefined and the rewrite matches every task. */
  lemma DropRewritesEveryFetchedTask(tasks: seq<Task>, quadrant: QuadrantId, now: int)
    requires forall i :: 0 <= i < |tasks| ==> tasks[i].dragId.None?
    ensures forall i :: 0 <= i < |tasks| ==>
      DragEnd(tasks, None, Some(QuadrantName(quadrant)), now)[i]
        == Apply(tasks[i], NewProperties(QuadrantName(quadrant), now).value)
  {
  }

  /** Two fetched tasks, one dropped onto `plan`: both are rewritten. */
  lemma DropRewritesBoth()
    ensures var a := Task(1, 1, "a", 0, 1, 2, [], 0.0, 0.0, false, false, None);
      var b := Task(2, 2, "b", 0, 1, 3, [], 0.0, 0.0, false, false, None);
      DragEnd([a, b], a.dragId, Some("plan"), 0) == [a.(importance := 8, dueDate := 3 * DayMs), b.(importance := 8, dueDate := 3 * DayMs)]
  {
    var a := Task(1, 1, "a", 0, 1, 2, [], 0.0, 0.0, false, false, None);
    var b := Task(2, 2, "b", 0, 1, 3, [], 0.0, 0.0, false, false, None);
    var r := DragEnd([a, b], a.dragId, Some("plan"), 0);
    assert r[0] == a.(importance := 8, dueDate := 3 * DayMs);
    assert r[1] == b.(importance := 8, dueDate := 3 * DayMs);
  }

  /** The drop matched on the task's `id`, which the backend does send and
      which the card would then use as its draggable id. A numeric id never
      equals a quadrant's string id, so only a missing or unknown target is
      ignored. */
  function DragEndById(tasks: seq<Task>, active: int, over: Option<string>, now: int): (r: seq<Task>)
    ensures |r| == |tasks|
    ensures over.None? || NewProperties(over.value, now).None? ==> r == tasks
    ensures forall i :: 0 <= i < |r| && tasks[i].id != active ==> r[i] == tasks[i]
    ensures over.Some? && NewProperties(over.value, now).Some? ==>
      forall i :: 0 <= i < |r| && tasks[i].id == active ==> r[i] == Apply(tasks[i], NewProperties(over.value, now).value)
  {
    if over.Some? then
      match NewProperties(over.value, now)
      case None => tasks
      case Some(u) => seq(|tasks|, i requires 0 <= i < |tasks| => if tasks[i].id == active then Apply(tasks[i], u) else tasks[i])
    else tasks
  }

  /** With distinct ids, a drop by id rewrites at most one task. */
  lemma DropByIdRewritesOne(tasks: seq<Task>, active: int, over: Option<string>, now: int, i: int, j: int)
    requires forall a, b :: 0 <= a < b < |tasks| ==> tasks[a].id != tasks[b].id
    requires 0 <= i < j < |tasks|
    ensures DragEndById(tasks, active, over, now)[i] == tasks[i] || DragEndById(tasks, active, over, now)[j] == tasks[j]
  {
  }
}
