/** The task record as the backend serialises it and the dashboard pages
    receive it (one JSON object per task). */
module TaskRecord {
  import opened Wrappers

  /** `dueDate` is the due date as a time value in milliseconds (date parsing
      is not modelled). `dragId` is the `_id` field the Eisenhower page reads;
      the backend never sends it, so for fetched tasks it is `None`
      (`undefined`). */
  datatype Task = Task(
    id: int,
    number: int,
    title: string,
    dueDate: int,
    estimatedHours: int,
    importance: int,
    dependencies: seq<int>,
    priorityScore: real,
    smartPriorityScore: real,
    completed: bool,
    circularTask: bool,
    dragId: Option<string>)

  /** Lists of tasks regroup freely, which the filter lemmas use when they
      split a list at its first task. */
  lemma Regroup(x: seq<Task>, y: seq<Task>, z: seq<Task>)
    ensures x + (y + z) == (x + y) + z
  {
  }
}
