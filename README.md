# Smart Task Analyzer — a Dafny model of its task logic

Smart Task Analyzer is a to-do manager. A Django backend stores each user's
tasks, with a number, a due date, an estimated effort, an importance and a list
of tasks each one depends on. It flags tasks caught in a circular dependency
and scores them. Two frontends show the tasks: a React dashboard and an older
set of plain pages. This project models the parts of both that carry decisions
and proves what they guarantee:

- **The task store** (`TaskStore`, `CircularCheck`).
  - Create, delete, toggle and the list views run over an in-memory table from
    id to task row.
  - `has_circular_dependency` is a depth-first search whose visited set is
    shared across sibling branches.
- **The React dashboard.**
  - `CircularGroups`: circular tasks are grouped into connected components.
  - `TaskOrder`: the sort comparator.
  - `Eisenhower`: the urgent/important matrix and its drag-and-drop update.
  - `DependencyGraph`: the dependency graph's nodes, edges and layout.
  - `TaskForms`: the add and edit task forms.
  - `ProfileForm`: the profile form.
- **The plain pages.**
  - `SignupForm`: the sign-up check.
  - `LegacyAddTask`: the add-task page's comma-separated dependency parser.
  - `LegacyHome`: the home page's in-place sorted pending list.
  - `AuthManager`: the shared auth manager, with its login state and redirect
    targets.
- **Shared helpers.**
  - `Text` models the JavaScript string and number helpers the pages rely on:
    `trim`, `includes`, `split`, `parseInt`, `Number`/`isNaN`, `parseFloat` and
    `String`.
  - `TaskRecord` is the task as the list endpoint serialises it.
  - `Wrappers` is an `Option` type.

State that the source changes in place is modelled as classes:
`TaskStore.Store`, `AuthManager.Manager` and `LegacyHome.HomeList`. The graph
layout overwrites node positions in an `array`. Loops in the source are
`for` loops with invariants:
  - the DFS of `has_circular_dependency`;
  - `groupCircularTasks` and its `findConnected`;
  - quadrant bucketing;
  - the two edge-building loops;
  - the create view's dependency-linking loop (`Store.LinkDependencies`);
  - the layout loop over the node array.

Each is proved against a function or predicate whose properties are proved
as lemmas. Error collection in the form validators has no loop and is
straight-line code.

## Model

| member | source | states |
|---|---|---|
| TaskStore.DependencyGraph | backend/tasks/models.py:21-26 | the dependency relation has one entry per stored task, its list of dependency ids |
| TaskStore.RequiredBy | backend/tasks/models.py:21-26 | `required_by` of a task is exactly the set of stored tasks that list it as a dependency (the reverse, not the same, relation) |
| TaskStore.GraphWellFormed | backend/tasks/models.py:21-26 | in a valid table every dependency names a stored task and no list repeats an id, which is what the circular check requires |
| TaskStore.Dedup | backend/tasks/views.py:116 | adding dependencies one by one to a many-to-many relation stores each id once: same members as the input, no repeats |
| TaskStore.FirstMissing | backend/tasks/views.py:113-119 | `None` iff every listed dependency is a task of the same user; otherwise an id from the list that is not one |
| TaskStore.MissingIsFirst | backend/tasks/views.py:113-119 | the id reported is the first one in list order that does not exist for the user |
| TaskStore.NewRow | backend/tasks/models.py:28-32 | a new row has no dependencies, is neither completed nor circular, has both scores 0.0, and carries the request's user, number, title, due date, hours and importance |
| TaskStore.ToggleCompleted | backend/tasks/views.py:164-165 | only the toggled task's `completed` flag changes, to its negation; every other field and task is unchanged |
| TaskStore.ToggleTwice | backend/tasks/views.py:164-167 | two toggles restore the original table |
| TaskStore.Store.constructor | backend/tasks/models.py:8 | the store starts empty, with the auto-increment counter at 1, and satisfies the table invariant |
| TaskStore.Store.Insert | backend/tasks/views.py:88-119 | a duplicate (user, number) gives 400 and changes nothing; a missing or null number, title, due date, hours or importance, an unreadable date or a negative number is a server error that changes nothing; otherwise an id is consumed; a `null` dependency list is a server error with the new row stored unlinked; otherwise a missing dependency gives 400 naming the first missing id with the table as before, while with all dependencies present the new row is stored under that id with its deduplicated dependencies and default flag and scores; the invariant is kept |
| TaskStore.Store.Create | backend/tasks/views.py:88-130 | with the due date read as a date: the same early replies as `Insert`, including the server error with the unlinked row for a `null` dependency list; zero hours is a server error after the row and its dependencies are stored; otherwise the reply is the next id, and the table is the old one plus that row with its deduplicated dependencies, its two scores and a circular flag that holds iff the search from it re-enters an id; the invariant (unique numbers per user, owned distinct dependencies) is kept |
| TaskStore.Store.CreateAsWritten | backend/tasks/views.py:88-130 | as written: the same early replies (a `null` dependency list is a server error with the unlinked row stored), but every request past the dependency loop is a server error, with the row and its dependencies stored and the flag and scores left at their defaults; it never replies `Created` |
| TaskStore.Store.LinkDependencies | backend/tasks/views.py:112-119 | the loop over the requested dependencies either stores them all (deduplicated) on the new row or deletes the new row and reports the first missing id |
| TaskStore.Store.LinkOne | backend/tasks/views.py:114-119 | a dependency that is the user's task is added (once) to the new row; otherwise the new row is deleted |
| TaskStore.Store.Rescore | backend/tasks/views.py:121-128 | the saved row gets the two scores and a circular flag equal to whether the search from it re-enters an id; nothing else changes |
| TaskStore.Store.Delete | backend/tasks/views.py:133-149 | non-DELETE gives 400, a task the user does not own gives 404, a task some task depends on gives 400, each leaving the table unchanged; otherwise exactly that task is removed |
| TaskStore.Store.Toggle | backend/tasks/views.py:153-167 | non-POST gives 400 and a task the user does not own gives 404, both unchanged; otherwise the reply carries the new flag and the table is `ToggleCompleted` of the old one |
| TaskStore.Store.PendingTasks | backend/tasks/views.py:222-228 | non-GET is refused with 400; otherwise exactly the user's tasks that are not completed |
| TaskStore.Store.CompletedTasks | backend/tasks/views.py:171-177 | non-GET is refused with 400; otherwise exactly the user's completed tasks |
| TaskStore.Store.CircularTasks | backend/tasks/views.py:197-203 | non-GET is refused with 400; otherwise exactly the user's tasks flagged circular |
| TaskStore.PendingCompletedPartition | backend/tasks/views.py:171-228 | the pending and completed lists are disjoint and together are all of the user's tasks |
| TaskStore.CreatedRowValid | backend/tasks/models.py:34-36 | adding a row whose number is free for its user and whose dependencies are owned keeps numbers unique per user and non-negative |
| TaskStore.RescoredValid | backend/tasks/views.py:121-128 | changing the flag and scores keeps the invariant and the dependency relation |
| CircularCheck.HasCircularDependency | backend/tasks/views.py:12-25 | with `visited` marked, the result is true iff some path from the task ends at a marked id or two different paths from it end at the same id; when false, the returned set is the input set plus every id reachable from the task |
| CircularCheck.HasCircular | backend/tasks/views.py:12-25 | started with an empty set, the search reports true iff two different dependency paths from the task end at the same id |
| CircularCheck.CycleIsReported | backend/tasks/views.py:12-25 | a dependency path leading back to the start is reported |
| CircularCheck.DiamondIsReported | backend/tasks/views.py:16-23 | two paths meeting at one task without any cycle (1→2→4, 1→3→4) are reported too |
| CircularCheck.ChainIsNotReported | backend/tasks/views.py:16-23 | a plain chain 1→2 is not reported |
| CircularGroups.GroupCircularTasks | frontend/src/pages/HomePage.jsx:51-89 | `null` or empty input gives no groups; each group is connected by dependency links; no task is taken twice; every input id is grouped; each group starts with the first ungrouped task in input order; with distinct ids the groups hold exactly the input tasks (a permutation) and are closed under links |
| CircularGroups.FindConnected | frontend/src/pages/HomePage.jsx:66-79 | the recursion adds only unprocessed tasks, each connected to the group's first task, and leaves every task linked to the current one processed |
| CircularGroups.SameGroupIffConnected | frontend/src/pages/HomePage.jsx:66-81 | two tasks share a group iff a chain of direct links inside the list connects them |
| CircularGroups.IsolatedTaskAlone | frontend/src/pages/HomePage.jsx:69-73 | a task with no link to another listed task (dependency ids outside the list do not count) forms a singleton group |
| CircularGroups.CoveredIsPermutation | frontend/src/pages/HomePage.jsx:59-64 | with distinct ids, covering every input id with fresh tasks means the groups hold each input task exactly once |
| CircularGroups.ConnectedSymmetric | frontend/src/pages/HomePage.jsx:69-73 | the link is tested in both directions, so connection is symmetric |
| CircularGroups.ConnectedTransitive | frontend/src/pages/HomePage.jsx:66-78 | connection is transitive |
| CircularGroups.NewGroupClosed | frontend/src/pages/HomePage.jsx:81-85 | pushing the finished group keeps the groups closed under links |
| TaskOrder.KeyOf | frontend/src/pages/HomePage.jsx:109-119 | the four option names select their keys; any other name is the default case |
| TaskOrder.Compare | frontend/src/pages/HomePage.jsx:108-121 | the comparator is the difference of the two tasks' ranks, descending for scores and importance (and, for the legacy page, number, hours, id and the two flags), ascending for due date, 0 otherwise |
| TaskOrder.InsertPermutes | frontend/src/pages/HomePage.jsx:108 | inserting one task adds exactly that task |
| TaskOrder.InsertSorted | frontend/src/pages/HomePage.jsx:108-121 | inserting into a sorted list keeps it sorted |
| TaskOrder.InsertWithRank | frontend/src/pages/HomePage.jsx:108 | insertion keeps the relative order of tasks of equal rank |
| TaskOrder.SortByPermutes | frontend/src/pages/HomePage.jsx:108 | the sorted copy is a permutation of the input |
| TaskOrder.SortBySorted | frontend/src/pages/HomePage.jsx:108-121 | the sorted copy is in rank order |
| TaskOrder.SortByStable | frontend/src/pages/HomePage.jsx:108-121 | the sort is stable: tasks of equal rank keep their input order |
| TaskOrder.UnrecognisedKeepsOrder | frontend/src/pages/HomePage.jsx:118-119 | an unknown key keeps the input order |
| TaskOrder.ByImportanceDescending | frontend/src/pages/HomePage.jsx:116-117 | by importance the list is non-increasing |
| TaskOrder.ByScoresDescending | frontend/src/pages/HomePage.jsx:110-113 | by either score the list is non-increasing |
| TaskOrder.ByDueDateAscending | frontend/src/pages/HomePage.jsx:114-115 | by due date the list is non-decreasing |
| TaskOrder.SortedTasks | frontend/src/pages/HomePage.jsx:108-121 | `sortedTasks` is a permutation of the tasks, sorted for the selected key, and stable |
| Eisenhower.Classify | frontend/src/pages/EisenhowerMatrixPage.jsx:29-40 | one classified entry per task, in order, urgent iff `hoursLeft <= 24` or `0 < hoursLeft <= estimated_hours`, important iff importance ≥ 6 |
| Eisenhower.OverdueIsUrgent | frontend/src/pages/EisenhowerMatrixPage.jsx:33-35 | a task due now or earlier is urgent |
| Eisenhower.UrgentByDueTime | frontend/src/pages/EisenhowerMatrixPage.jsx:33-35 | urgency restated on the due time in milliseconds: due within 24 hours, or due in the future within the estimated hours |
| Eisenhower.QuadrantOf | frontend/src/pages/EisenhowerMatrixPage.jsx:49-58 | each (urgent, important) pair selects exactly one quadrant |
| Eisenhower.Bucket | frontend/src/pages/EisenhowerMatrixPage.jsx:42-59 | each quadrant's list is the classified tasks of that quadrant in input order |
| Eisenhower.QuadrantsPartition | frontend/src/pages/EisenhowerMatrixPage.jsx:49-58 | the four lists together hold every task exactly once |
| Eisenhower.InQuadrantMembers | frontend/src/pages/EisenhowerMatrixPage.jsx:49-58 | a quadrant's list holds exactly the tasks whose quadrant it is |
| Eisenhower.NewProperties | frontend/src/pages/EisenhowerMatrixPage.jsx:72-80 | only the four quadrant ids have an update; `do`/`plan` write importance ≥ 6; `do`/`delegate` write a due date within a day; every written date is in the future |
| Eisenhower.DropLandsInTarget | frontend/src/pages/EisenhowerMatrixPage.jsx:72-77 | a dropped task is classified into the target quadrant, except that a task of 72 or more estimated hours dropped on `plan` or `eliminate` turns urgent |
| Eisenhower.DragEnd | frontend/src/pages/EisenhowerMatrixPage.jsx:61-86 | no target, a drop onto itself or an unknown quadrant changes nothing; otherwise the tasks whose `_id` equals the dragged id get the quadrant's importance and due date and all others are unchanged |
| Eisenhower.DropRewritesEveryFetchedTask | frontend/src/pages/EisenhowerMatrixPage.jsx:83-85 | as written: for tasks without `_id` (all fetched tasks) the dragged id is undefined too, so every task is rewritten |
| Eisenhower.DropRewritesBoth | frontend/src/pages/EisenhowerMatrixPage.jsx:83-85 | concrete case: dropping one of two fetched tasks on `plan` rewrites both |
| Eisenhower.DragEndById | frontend/src/pages/EisenhowerMatrixPage.jsx:83-85 | matched on the task id: only the dragged task changes |
| Eisenhower.DropByIdRewritesOne | frontend/src/pages/EisenhowerMatrixPage.jsx:83-85 | with distinct ids, at most one task is rewritten |
| DependencyGraph.NodeFor | frontend/src/pages/GraphVisualizationPage.jsx:73-82 | a node's id is the task id as a string, its label the title, its position (0, 0), green style iff completed |
| DependencyGraph.BuildNodes | frontend/src/pages/GraphVisualizationPage.jsx:73-82 | one node per task, in input order |
| DependencyGraph.EdgeFor | frontend/src/pages/GraphVisualizationPage.jsx:88-91 | source is the dependency id, target the task id |
| DependencyGraph.DepEdges | frontend/src/pages/GraphVisualizationPage.jsx:87-100 | one edge per dependency of a task, in list order |
| DependencyGraph.PushDependencyEdges | frontend/src/pages/GraphVisualizationPage.jsx:86-101 | the inner loop appends exactly the task's edges |
| DependencyGraph.BuildEdges | frontend/src/pages/GraphVisualizationPage.jsx:84-102 | the outer loop builds the task-by-task concatenation of those edges |
| DependencyGraph.LoadGraphData | frontend/src/pages/GraphVisualizationPage.jsx:67-102 | a missing or empty list gives no nodes and no edges; otherwise one node per task and one edge per (task, dependency) pair |
| DependencyGraph.EdgeCount | frontend/src/pages/GraphVisualizationPage.jsx:84-102 | the edge count is the sum of the dependency-list lengths |
| DependencyGraph.EdgeMembers | frontend/src/pages/GraphVisualizationPage.jsx:84-102 | an edge is present iff it is the edge of some (task, dependency) pair |
| DependencyGraph.EdgeHasPair | frontend/src/pages/GraphVisualizationPage.jsx:87-100 | every edge comes from some (task, dependency) pair |
| DependencyGraph.PairHasEdge | frontend/src/pages/GraphVisualizationPage.jsx:87-100 | every (task, dependency) pair has its edge |
| DependencyGraph.EdgesConnectNodes | frontend/src/pages/GraphVisualizationPage.jsx:88-91 | every edge's target is a node; its source is a node when every dependency is among the fetched tasks |
| DependencyGraph.NodeIds | frontend/src/pages/GraphVisualizationPage.jsx:74 | the set of node ids is exactly the ids of the nodes |
| DependencyGraph.NodeIdsDistinct | frontend/src/pages/GraphVisualizationPage.jsx:74 | two nodes share an id iff their tasks do |
| DependencyGraph.EdgeIdInjective | frontend/src/pages/GraphVisualizationPage.jsx:89 | `e-<dep>-<task>` with non-negative dependency ids identifies the pair |
| DependencyGraph.TopLeft | frontend/src/pages/GraphVisualizationPage.jsx:40-43 | the position is the layout centre shifted by half the node size |
| DependencyGraph.Layout | frontend/src/pages/GraphVisualizationPage.jsx:38-48 | edges are returned as given; each node in the array keeps everything but its position, which becomes the top-left for its centre |
| TaskForms.NumberMessage | frontend/src/pages/AddTaskPage.jsx:37-41 | no message iff the number is non-blank, numeric and not read by `parseInt` as ≤ 0; "required" when blank |
| TaskForms.DueMessage | frontend/src/pages/AddTaskPage.jsx:47-54 | no message iff a date is given and it is not before the start of today |
| TaskForms.HoursMessage | frontend/src/pages/AddTaskPage.jsx:56-63 | no message iff present, numeric and not read by `parseFloat` as ≤ 0 |
| TaskForms.ImportanceMessage | frontend/src/pages/AddTaskPage.jsx:65-72 | no message iff present and read by `parseInt` as 1 to 10 |
| TaskForms.RecordMessage | frontend/src/pages/AddTaskPage.jsx:37-41 | a refused field gets its message; other fields are untouched |
| TaskForms.CollectErrors | frontend/src/pages/AddTaskPage.jsx:34-76 | the errors object holds exactly the refused fields with their messages, and the result is true iff it is empty |
| TaskForms.ValidateAddForm | frontend/src/pages/AddTaskPage.jsx:34-76 | true iff every field rule passes; each refused field carries its rule's message |
| TaskForms.NoErrorsIffNoMessages | frontend/src/pages/AddTaskPage.jsx:74-75 | the errors object is empty iff no rule produced a message |
| TaskForms.TaskPayload | frontend/src/pages/AddTaskPage.jsx:116-123 | trimmed title, due date and dependencies as held, the three numbers through `parseInt`; the edit page builds the same body (frontend/src/pages/EditTaskPage.jsx:141-148) |
| TaskForms.AcceptedTaskPayload | frontend/src/pages/AddTaskPage.jsx:116-123 | an accepted form sends a non-blank trimmed title and an importance from 1 to 10 |
| TaskForms.HalfPastText | frontend/src/pages/AddTaskPage.jsx:58-60 | a digit followed by ".5" is numeric and read by `parseFloat` with the half but by `parseInt` without it |
| TaskForms.HalfHourSentAsZero | frontend/src/pages/AddTaskPage.jsx:120 | hours "0.5" pass the hours rule and are sent as 0 |
| TaskForms.OneAndAHalfSentAsOne | frontend/src/pages/AddTaskPage.jsx:120 | hours "1.5", which the input's `step="0.5"` allows, pass the hours rule and are sent as 1 |
| TaskForms.WholeHoursAccepted | frontend/src/pages/AddTaskPage.jsx:56-63 | every positive whole number passes the hours rule and is sent as itself |
| TaskForms.ToggleDependency | frontend/src/pages/AddTaskPage.jsx:92-104 | checking appends the id; unchecking removes every occurrence |
| TaskForms.RemoveAll | frontend/src/pages/AddTaskPage.jsx:101 | the filtered list holds none of the removed id, every other id of the list, and nothing else |
| TaskForms.RemoveAllCounts | frontend/src/pages/AddTaskPage.jsx:101 | the filtered list holds every other id exactly as often as before, and the removed id not at all |
| TaskForms.RemoveAllPositions | frontend/src/pages/AddTaskPage.jsx:101 | the filtered list is read off strictly increasing positions of the old list, each holding an id other than the removed one, and covering every such position: the kept ids stay in their order, each once per occurrence |
| TaskForms.RemoveAllIsSelection | frontend/src/pages/AddTaskPage.jsx:101 | the filter equals the edit page's option selection with exactly the entries other than the removed id selected |
| TaskForms.CheckThenUncheck | frontend/src/pages/AddTaskPage.jsx:92-104 | checking then unchecking an absent id restores the list |
| TaskForms.AddChoices | frontend/src/pages/AddTaskPage.jsx:135-137 | the choices are the tasks whose number differs from the typed number (all of them when it is not a number) |
| TaskForms.LoadForm | frontend/src/pages/EditTaskPage.jsx:36-43 | a zero (falsy) number, hours or importance loads as "", otherwise as a string `parseInt` reads back; title, date text and dependencies as held |
| TaskForms.NumberText | frontend/src/pages/EditTaskPage.jsx:37 | the text is empty iff the value is 0 |
| TaskForms.ZeroHoursReopenAsMissing | frontend/src/pages/EditTaskPage.jsx:40 | a task stored with 0 hours reopens with the hours field empty and "required" |
| TaskForms.AddChoicesAppend | frontend/src/pages/AddTaskPage.jsx:135-137 | the choices of a joined list are the join of the pieces' choices, so with `ChoicesOne` they keep the fetched order and multiplicity |
| TaskForms.ChoicesOne | frontend/src/pages/AddTaskPage.jsx:135-137 | a one-task list keeps its task iff its number is not the typed one (always when the text is not a number), and on the edit page iff its id is not the edited one |
| TaskForms.EditChoices | frontend/src/pages/EditTaskPage.jsx:57 | the choices are the tasks other than the one being edited, matched by id |
| TaskForms.EditChoicesAppend | frontend/src/pages/EditTaskPage.jsx:57 | the edit choices of a joined list are the join of the pieces' choices |
| TaskForms.ValidateEditForm | frontend/src/pages/EditTaskPage.jsx:64-105 | true iff every rule passes on the trimmed fields; the due date is only required; each refused field carries its message |
| TaskForms.DueRequiredMessage | frontend/src/pages/EditTaskPage.jsx:79-81 | no message iff a date is given, with no past-date check |
| TaskForms.TrimmedBlankIsMissing | frontend/src/pages/EditTaskPage.jsx:68-70 | a blank field counts as missing |
| TaskForms.EditRulesAreAddRules | frontend/src/pages/EditTaskPage.jsx:64-105 | on trimmed input the edit rules for number, hours and importance are the add rules |
| TaskForms.HandleChange | frontend/src/pages/EditTaskPage.jsx:107-119 | only the named field changes; only that field's error, if present, is blanked |
| TaskForms.SelectedIds | frontend/src/pages/EditTaskPage.jsx:121-129 | an id is in the new list iff some selected option carries it, whatever the list held before; the list is no longer than the options |
| TaskForms.SelectedPositions | frontend/src/pages/EditTaskPage.jsx:121-129 | the new list is the selected options' ids in option order: it comes from increasing option positions, each selected, covering every selected option |
| TaskForms.LoadThenSaveRoundTrip | frontend/src/pages/EditTaskPage.jsx:141-148 | loading a task and saving it unchanged sends back its own values |
| TaskForms.LoadedFormAccepted | frontend/src/pages/EditTaskPage.jsx:36-43 | a loaded task with positive number and hours, importance 1 to 10, a title and a date passes the edit rules |
| TaskForms.PositiveTextAccepted | frontend/src/pages/EditTaskPage.jsx:68-101 | the text of a positive number passes the number and hours rules, and the importance rule up to 10 |
| ProfileForm.PhoneMessage | frontend/src/pages/ProfilePage.jsx:50-52 | no message iff the phone is empty or made only of digits, white space, `-`, `+`, `(`, `)` |
| ProfileForm.ValidateProfile | frontend/src/pages/ProfilePage.jsx:43-56 | the errors hold exactly the refused fields with their messages; true iff none |
| ProfileForm.UpdateBody | frontend/src/pages/ProfilePage.jsx:83-86 | trimmed name; trimmed phone, or `null` when it trims to nothing |
| ProfileForm.EmailNotSent | frontend/src/pages/ProfilePage.jsx:83-86 | the e-mail never affects the body |
| ProfileForm.BlankPhoneSentAsNull | frontend/src/pages/ProfilePage.jsx:83-86 | a white-space phone passes the check and is sent as `null` |
| ProfileForm.AcceptedBody | frontend/src/pages/ProfilePage.jsx:76-86 | an accepted form sends a non-blank trimmed name and a phone that is `null` or telephone characters with no outer white space |
| SignupForm.SignupCheck | frontend/auth/signup/script.js:24-51 | true iff name non-blank, e-mail matches after trimming and password (untrimmed) has a `length` of at least 6 UTF-16 code units; otherwise the first failing rule's message, in the order name, e-mail present, format, password present, length |
| SignupForm.AddressInsideTextAccepted | frontend/auth/signup/script.js:38 | the pattern is unanchored: an address inside other text passes |
| SignupForm.NothingAfterDotRefused | frontend/auth/signup/script.js:38 | "a@b." fails |
| SignupForm.SixSpacePassword | frontend/auth/signup/script.js:46-49 | six characters, even six spaces, are enough |
| SignupForm.ThreeEmojiPassword | frontend/auth/signup/script.js:46-49 | three characters outside the Basic Multilingual Plane are enough, since each counts twice |
| SignupForm.ShapeHasAtThenDot | frontend/auth/signup/script.js:38 | a passing string has an `@` followed later by a `.` |
| SignupForm.ShapeWithoutSpace | frontend/auth/signup/script.js:38 | without white space the test is exactly: an `@` after the first character and a `.` two or more places later that is not last |
| LegacyAddTask.KeepNumbers | frontend/addTask/script.js:42 | the kept ids are exactly the numeric pieces, never more than the pieces |
| LegacyAddTask.ParseDependencies | frontend/addTask/script.js:39-42 | at most one id per comma-separated piece; an id is kept iff some trimmed piece parses to it |
| LegacyAddTask.BuildPayload | frontend/addTask/script.js:44-51 | title and date pass through; number, hours and importance through `parseInt`; dependencies parsed |
| LegacyAddTask.NoNumberNoDependencies | frontend/addTask/script.js:39-42 | a field with no numeric piece gives `[]` |
| LegacyAddTask.EmptyFieldNoDependencies | frontend/addTask/script.js:39-42 | the empty field gives `[]` |
| LegacyAddTask.ParseAppend | frontend/addTask/script.js:40-42 | order is kept: joining two fields with a comma concatenates their ids |
| LegacyAddTask.ParseJoinedIds | frontend/addTask/script.js:39-42 | round trip: a comma-separated list of ids is read back as exactly that list |
| LegacyAddTask.ParseSingleId | frontend/addTask/script.js:41 | one written id is read back as itself |
| LegacyAddTask.TypedNumbersSent | frontend/addTask/script.js:44-51 | numbers typed as integers are sent as those integers |
| LegacyHome.LegacyKeyOf | frontend/homePage/script.js:33-38 | the four dashboard options keep their keys; `number`, `estimated_hours`, `id`, `completed` and `circularTask` sort by that field descending; every other name is the tie-everywhere key |
| LegacyHome.LegacyFieldsDescending | frontend/homePage/script.js:37 | sorting by `number`, `estimated_hours` or `id` gives a non-increasing list of that field |
| LegacyHome.Pending | frontend/homePage/script.js:114 | exactly the non-completed tasks are kept |
| LegacyHome.Completed | frontend/homePage/script.js:114 | the tasks the filter drops are exactly the completed ones |
| LegacyHome.PendingAppend | frontend/homePage/script.js:114 | the filter of a joined list is the join of the filtered pieces, so with `FilterOne` the kept tasks are in fetched order, each as often as fetched |
| LegacyHome.CompletedAppend | frontend/homePage/script.js:114 | the same for the dropped tasks |
| LegacyHome.FilterOne | frontend/homePage/script.js:114 | a one-task list keeps its task iff it is not completed |
| LegacyHome.PendingCounts | frontend/homePage/script.js:114 | the kept and the dropped tasks together are the fetched list |
| LegacyHome.PendingIdempotent | frontend/homePage/script.js:114 | filtering twice keeps the same list |
| LegacyHome.HomeList.constructor | frontend/homePage/script.js:3-15 | no tasks, sort key `smartPriorityScore`, logged in |
| LegacyHome.HomeList.RenderAllTasks | frontend/homePage/script.js:25-38 | an empty list shows the message and is not sorted; otherwise `allTasks` itself becomes its sorted permutation for the legacy key of the option |
| LegacyHome.HomeList.RenderCircularTasks | frontend/homePage/script.js:83-88 | an empty list shows the message; otherwise the list as sent |
| LegacyHome.HomeList.FetchData | frontend/homePage/script.js:108-124 | logged out: nothing; failed task fetch: error shown, nothing else changes; otherwise `allTasks` is the pending tasks, sorted; then a failed circular fetch replaces the shown list by the error, leaving `allTasks` sorted and the circular list as it was, while a good one shows both lists |
| LegacyHome.HomeList.HandleSortChange | frontend/homePage/script.js:158-161 | records the key, re-sorts the held list in place and shows it, or shows the empty message when nothing is held |
| LegacyHome.HomeList.Logout | frontend/homePage/script.js:7-14 | clears the flag and shows both lists empty; the held tasks stay |
| LegacyHome.FetchedListOrdered | frontend/homePage/script.js:33-38 | the held list is sorted for the key, and ties keep the server's order |
| AuthManager.OutcomeOf | frontend/auth-utils.js:46-55 | success iff the reply is ok; the server error, or the fallback when it is empty; "Network error: …" when the request throws |
| AuthManager.RegisterBody | frontend/auth-utils.js:60-70 | trimmed e-mail and name, the password as typed, the trimmed phone only when it is non-blank |
| AuthManager.RegisterBodyStable | frontend/auth-utils.js:60-70 | building the body from a body changes nothing |
| AuthManager.RegisterIgnoresMargins | frontend/auth-utils.js:60-70 | white space around the e-mail and name does not change the body |
| AuthManager.Manager.constructor | frontend/auth-utils.js:5-9 | no user, not logged in |
| AuthManager.Manager.LoadAuthState | frontend/auth-utils.js:11-31 | an ok reply sets the user and the flag; anything else clears both |
| AuthManager.Manager.Login | frontend/auth-utils.js:33-56 | success sets the user and the flag; failure leaves both and reports the server error or "Login failed" |
| AuthManager.Manager.Register | frontend/auth-utils.js:58-97 | sends `RegisterBody`; success sets the user and the flag; failure leaves both and reports the error or "Registration failed" |
| AuthManager.Manager.SignIn | frontend/auth-utils.js:86-96 | the reply handling shared by login and register |
| AuthManager.Manager.Logout | frontend/auth-utils.js:99-111 | always ends with no user and not logged in |
| AuthManager.Manager.GetCurrentUser | frontend/auth-utils.js:113-119 | logged in with a user: that user, nothing reloaded; otherwise the state is reloaded and its user returned |
| AuthManager.OutsideFrontendAbsolute | frontend/auth-utils.js:140-145 | outside `/frontend/` both redirects reach the sign-in and home pages from anywhere |
| AuthManager.LoginFromFrontendFolder | frontend/auth-utils.js:134-139 | from a page in a `frontend/<folder>/` the login redirect reaches the sign-in page |
| AuthManager.HomeFromFrontendFolder | frontend/auth-utils.js:161-170 | a `/homePage/` path reloads; from another `frontend/<folder>/` the home page is reached |
| AuthManager.HomeFromAuthPage | frontend/auth-utils.js:156-160 | `/auth/` is tested first; from `frontend/auth/<folder>/` the home page is reached |
| AuthManager.LoginFromAuthPageMissesSignIn | frontend/auth-utils.js:129-133 | as written: from `frontend/auth/<folder>/` the login target resolves to `frontend/auth/<folder>/signin/index.html`, not the sign-in page |
| AuthManager.SignupPageLoginTarget | frontend/auth-utils.js:129-133 | concrete case: from the sign-up page the target is `frontend/auth/signup/signin/index.html` |
| AuthManager.FixedLoginReachesSignIn | frontend/auth-utils.js:129-139 | with `../signin/index.html` on auth pages, every frontend page reaches the sign-in page |
| Text.BlankMessage | frontend/src/pages/AddTaskPage.jsx:43-45 | the required-field rule of the title (and of the profile name, frontend/src/pages/ProfilePage.jsx:46-48): the message iff the field is blank after trimming |
| Text.Utf16Length | frontend/auth/signup/script.js:46 | `length` lies between the character count and twice it, and is exactly the character count for a string without characters outside the Basic Multilingual Plane |
| Text.Utf16LengthOfChar | frontend/auth/signup/script.js:46 | one character has `length` 1, or 2 outside the Basic Multilingual Plane |
| Text.Utf16LengthAppend | frontend/auth/signup/script.js:46 | the `length` of a concatenation is the sum of the parts' lengths; with the one-character case this fixes the count for every string |
| Text.Trim | frontend/auth/signup/script.js:25-26 | the result drops exactly the white space at both ends; empty iff the input is all white space |
| Text.TrimIdempotent | frontend/src/pages/EditTaskPage.jsx:68 | trimming twice is trimming once |
| Text.ContainsAt | frontend/auth-utils.js:127 | a string includes any pattern it holds at some position |
| Text.Split | frontend/addTask/script.js:40 | one more piece than separators, and no piece holds the separator |
| Text.JoinSplit | frontend/addTask/script.js:40 | joining the pieces gives back the string |
| Text.SplitAppend | frontend/addTask/script.js:40 | splitting `a,b` is splitting `a` then `b` |
| Text.ParseInt | frontend/addTask/script.js:41 | `NaN` (`None`) iff no digit follows the leading white space and an optional sign |
| Text.IntToString | frontend/src/pages/GraphVisualizationPage.jsx:74 | `String(n)` is non-empty and starts with no white space |
| Text.ParseIntOfIntToString | frontend/src/pages/EditTaskPage.jsx:37 | `parseInt(String(n))` is `n` |
| Text.IntToStringInjective | frontend/src/pages/GraphVisualizationPage.jsx:74 | different integers have different strings |
| Text.ToNumber | frontend/src/pages/AddTaskPage.jsx:59 | a blank string is the number 0, so `isNaN` is false for it |
| Text.ParseFloat | frontend/src/pages/AddTaskPage.jsx:60 | a blank string is `NaN` |
| Text.NumberOfNatString | frontend/src/pages/AddTaskPage.jsx:58-60 | `Number`, `parseFloat` and `parseInt` all read a digit string as its value |

## Left out

- HTTP, `fetch`/`axios`, cookies, the DOM, React hooks and state, toasts, alerts and console logging. Replies are parameters: `Reply` values, `Option` for a failed request.
- The asynchronous `loadAuthState` call inside the `AuthManager` constructor is the separate step `AuthManager.Manager.LoadAuthState`. The login request body (`{email, password}`) is not modelled. The user record is opaque (a type parameter).
- `TaskStore.CreateRequest`: a `dependencies` value that is neither a list nor `null` (a string, a number) is not modelled: the view iterates whatever it is given. `dueDate` is the day the request's date text names, or `None` when `DateField` cannot read it; the date parser itself is not modelled.
- `TaskStore.Store.Create`: the two scores are parameters, because `calculate_priority_score` and `calculate_smart_score` use today's date and floating point. Their division by `estimated_hours` is modelled only as the server error for 0 hours.
- Django's ORM, authentication and transactions. The store is a map from id to row. Relations and list replies are ids in list or set form, not database rows in database order.
- `TaskStore.Store.PendingTasks`, `CompletedTasks` and `CircularTasks` return sets of ids, not the serialised rows in query order.
- `update_task` and the frontend `updateTask`/`getTaskById` are imported but not among the sources. The backend edit path is not part of this model. The drop's backend update and the optimistic revert are left out.
- Dates are integers: milliseconds in the dashboard model, day numbers in the store. `new Date(...)`, `toISOString`, `setHours` and the time zone are not modelled. "Now" and the start of today are parameters.
- `DependencyGraph.Layout`: dagre computes the node centres, so the centres are a parameter (a map from node id to centre).
- Number width: the model's integers are unbounded. JavaScript numbers are IEEE doubles, so `parseInt` of a digit string above 2^53 rounds, and the comparator's `b[field] - a[field]` subtracts the rounded values. Django's `IntegerField` and `PositiveIntegerField` refuse values outside the 32-bit range with a database error. Neither behaviour is modelled in `Text.ParseInt`, `LegacyAddTask.BuildPayload`, `TaskForms.TaskPayload`, `TaskOrder.Compare` or `TaskStore.Store.Insert`.
- `Text.ToNumber`, `Text.ParseFloat`, `Text.ParseInt` read decimal literals only. Exponents, hexadecimal, `Infinity` and numeric separators are not modelled.
- Text.ToNumber: its own contract states only the blank case. What it gives for digit strings is stated by `Text.NumberOfNatString` and, for a digit followed by ".5", by `TaskForms.HalfPastText`.
- Text.ParseFloat: its own contract states only the blank case. Digit strings are covered by the same two lemmas.
- The two regular expressions are written as character predicates (`SignupForm.EmailShape`, `ProfileForm.PhoneShape`), not run by a regex engine.
- Browser constraint validation (`type="number"`, `min`, `step`, `required`) runs before the submit handlers and is not modelled. In particular the dashboard's hours input has `min="1"`, which stops "0.5" before `validateForm` sees it. `TaskForms.HalfHourSentAsZero` is therefore a property of the handler code alone. The same input's `step="0.5"` does allow "1.5", which passes the hours rule and is sent as 1 (`TaskForms.OneAndAHalfSentAsOne`); the request the page sends then differs from what was typed.
- LegacyHome.LegacyKeyOf: the names `title` and `dependencies` are treated as ties everywhere. JavaScript turns a numeric title or a one-element list into a number and anything else into NaN, and a comparator that mixes numbers with NaN is not a consistent order, so `sort`'s result is then implementation-defined. The options the page's select offers are in its HTML, which is not part of this model.
- Redirect targets are modelled as segment lists (`Href`) resolved against the current directory, not as URL strings.
- The profile page's `handleChange` and its data loading, and the read-only e-mail field, are not modelled beyond `ProfileForm.EmailNotSent`.
- CircularCheck.HasCircularDependency: the recursion has no depth limit. The view's `has_circular_dependency` calls itself once per task on the current path, so a dependency chain deeper than Python's recursion limit (about 1000 frames) raises `RecursionError` after the row and its links are stored. That server error is not modelled.
- Concurrency: racing reloads, refetches and optimistic-update reverts.
- Twilio and e-mail notifications (backend/tasks/utils.py), the URL routing table and the account backend are not part of this model.

## Findings

| source | as written | input that shows it | evidently intended | confidence | as-written member | corrected member |
|---|---|---|---|---|---|---|
| frontend/src/pages/EisenhowerMatrixPage.jsx:83-85 | the drop matches tasks on `t._id === active.id`. The card's draggable id is `task._id` (frontend/src/components/eisenhower/TaskCard.jsx:6), but the list endpoint (backend/tasks/views.py:72-84) sends no `_id`, so both sides are `undefined` | two fetched tasks, one dropped on `plan`: both get importance 8 and a due date three days out | only the dragged task (matched by `id`) is rewritten | not executed | Eisenhower.DropRewritesEveryFetchedTask | Eisenhower.DropByIdRewritesOne |
| backend/tasks/views.py:31-33 | `Task.objects.create` (lines 103-110) keeps the request's due-date string on the new object, so `task.due_date - today` in `calculate_priority_score` subtracts a `date` from a `str` and raises `TypeError`; the row and its dependencies are already stored and `save` (line 128) is never reached | `{"number": 1, "title": "a", "due_date": "2030-01-01", "estimated_hours": 2, "importance": 5, "dependencies": []}` from a user with no tasks: a server error, and task 1 stays stored with `circularTask` false and both scores 0.0 | the scores are computed from the date the string names, the row is saved with its flag and scores, and the reply carries the new id | not executed | TaskStore.Store.CreateAsWritten | TaskStore.Store.Create |
| frontend/auth-utils.js:129-133 | on a path containing `/auth/` the login redirect goes to the relative `signin/index.html` | current page `/frontend/auth/signup/index.html`: the target resolves to `/frontend/auth/signup/signin/index.html`. Auth pages sit two levels deep, as `redirectToHome`'s `../../` (line 158) assumes | `../signin/index.html`, reaching `/frontend/auth/signin/index.html` | not executed; no caller of `redirectToLogin` is among the sources | AuthManager.LoginFromAuthPageMissesSignIn | AuthManager.FixedLoginReachesSignIn |
