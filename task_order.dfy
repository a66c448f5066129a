/** The dashboard ordering of tasks: the comparator of `sortedTasks` on the
    home page, also used by the legacy home page. JavaScript's
    `Array.prototype.sort` is stable, so the order is the stable sort by the
    comparator; it is written here as an insertion sort. */
module TaskOrder {
  import opened TaskRecord

  /** The sort option the page holds. */
  datatype SortKey =
    | PriorityScore | SmartPriorityScore | DueDate | Importance
    // the legacy page's comparator also reaches these numeric and boolean fields
    | Number | EstimatedHours | Id | CompletedFlag | CircularFlag
    | Unrecognised

  /** The option names the comparator switches on. */
  function KeyOf(name: string): (k: SortKey)
    ensures k == Unrecognised <==>
      name !in {"priorityScore", "smartPriorityScore", "due_date", "importance"}
  {
    if name == "priorityScore" then PriorityScore
    else if name == "smartPriorityScore" then SmartPriorityScore
    else if name == "due_date" then DueDate
    else if name == "importance" then Importance
    else Unrecognised
  }

  /** The position of a task on the key's scale: earlier tasks have smaller
      ranks. Scores and importance sort descending, the due date ascending,
      and an unknown key gives every task the same rank. */
  function Rank(key: SortKey, t: Task): real {
    match key
    case PriorityScore => -t.priorityScore
    case SmartPriorityScore => -t.smartPriorityScore
    case DueDate => t.dueDate as real
    case Importance => -(t.importance as real)
    case Number => -(t.number as real)
    case EstimatedHours => -(t.estimatedHours as real)
    case Id => -(t.id as real)
    case CompletedFlag => -Bit(t.completed)
    case CircularFlag => -Bit(t.circularTask)
    case Unrecognised => 0.0
  }

  /** A boolean as JavaScript's subtraction reads it. */
  function Bit(b: bool): real {
    if b then 1.0 else 0.0
  }

  /** The comparator: a negative value puts `a` first. */
  function Compare(key: SortKey, a: Task, b: Task): (c: real)
    ensures c == Rank(key, a) - Rank(key, b)
  {
    match key
    case PriorityScore => b.priorityScore - a.priorityScore
    case SmartPriorityScore => b.smartPriorityScore - a.smartPriorityScore
    case DueDate => (a.dueDate - b.dueDate) as real
    case Importance => (b.importance - a.importance) as real
    case Number => (b.number - a.number) as real
    case EstimatedHours => (b.estimatedHours - a.estimatedHours) as real
    case Id => (b.id - a.id) as real
    case CompletedFlag => Bit(b.completed) - Bit(a.completed)
    case CircularFlag => Bit(b.circularTask) - Bit(a.circularTask)
    case Unrecognised => 0.0
  }

  /** No pair is out of order: the comparator never puts a later task first. */
  predicate Sorted(key: SortKey, s: seq<Task>) {
    forall i, j :: 0 <= i < j < |s| ==> Rank(key, s[i]) <= Rank(key, s[j])
  }

  /** The tasks of `s` whose rank is `v`, in order. */
  function WithRank(key: SortKey, s: seq<Task>, v: real): seq<Task> {
    if s == [] then []
    else (if Rank(key, s[0]) == v then [s[0]] else []) + WithRank(key, s[1..], v)
  }

  /** Puts `x` before the first task of `r` that does not rank strictly before it. */
  function Insert(key: SortKey, x: Task, r: seq<Task>): seq<Task> {
    if r == [] || Compare(key, x, r[0]) <= 0.0 then [x] + r
    else [r[0]] + Insert(key, x, r[1..])
  }

  /** The sorted copy `[...tasks].sort(comparator)`. */
  function SortBy(key: SortKey, s: seq<Task>): seq<Task> {
    if s == [] then [] else Insert(key, s[0], SortBy(key, s[1..]))
  }

  // ---------------------------------------------------------------------------
  // Insert
  // ---------------------------------------------------------------------------

  lemma {:induction false} InsertPermutes(key: SortKey, x: Task, r: seq<Task>)
    ensures multiset(Insert(key, x, r)) == multiset(r) + multiset{x}
  {
    if r != [] && Compare(key, x, r[0]) > 0.0 {
      InsertPermutes(key, x, r[1..]);
      assert r == [r[0]] + r[1..];
    }
  }

  lemma {:induction false} InsertMembers(key: SortKey, x: Task, r: seq<Task>)
    ensures forall y :: y in Insert(key, x, r) ==> y == x || y in r
  {
    if r != [] && Compare(key, x, r[0]) > 0.0 {
      InsertMembers(key, x, r[1..]);
    }
  }

  lemma {:induction false} InsertSorted(key: SortKey, x: Task, r: seq<Task>)
    requires Sorted(key, r)
    ensures Sorted(key, Insert(key, x, r))
  {
    if r != [] && Compare(key, x, r[0]) > 0.0 {
      InsertSorted(key, x, r[1..]);
      InsertMembers(key, x, r[1..]);
      SortedTail(key, r);
      ConsSorted(key, r[0], Insert(key, x, r[1..]));
    } else {
      if r != [] {
        SortedHead(key, r);
      }
      ConsSorted(key, x, r);
    }
  }

  lemma SortedTail(key: SortKey, r: seq<Task>)
    requires r != [] && Sorted(key, r)
    ensures Sorted(key, r[1..])
    ensures forall y :: y in r[1..] ==> Rank(key, r[0]) <= Rank(key, y)
  {
    forall y | y in r[1..] ensures Rank(key, r[0]) <= Rank(key, y) {
      var k :| 0 <= k < |r[1..]| && r[1..][k] == y;
      assert y == r[k + 1];
    }
  }

  lemma SortedHead(key: SortKey, r: seq<Task>)
    requires r != [] && Sorted(key, r)
    ensures forall y :: y in r ==> Rank(key, r[0]) <= Rank(key, y)
  {
  }

  /** A task ranked no later than every task of a sorted list can go in front of it. */
  lemma ConsSorted(key: SortKey, y: Task, s: seq<Task>)
    requires Sorted(key, s) && forall z :: z in s ==> Rank(key, y) <= Rank(key, z)
    ensures Sorted(key, [y] + s)
  {
    var ys := [y] + s;
    forall i, j | 0 <= i < j < |ys| ensures Rank(key, ys[i]) <= Rank(key, ys[j]) {
      assert ys[j] == s[j - 1];
      if i > 0 {
        assert ys[i] == s[i - 1];
      }
    }
  }

  lemma {:induction false} InsertWithRank(key: SortKey, x: Task, r: seq<Task>, v: real)
    ensures WithRank(key, Insert(key, x, r), v) ==
            (if Rank(key, x) == v then [x] else []) + WithRank(key, r, v)
  {
    if r == [] || Compare(key, x, r[0]) <= 0.0 {
      WithRankCons(key, x, r, v);
    } else {
      InsertWithRank(key, x, r[1..], v);
      WithRankCons(key, r[0], Insert(key, x, r[1..]), v);
      WithRankCons(key, r[0], r[1..], v);
      assert [r[0]] + r[1..] == r;
    }
  }

  lemma WithRankCons(key: SortKey, y: Task, s: seq<Task>, v: real)
    ensures WithRank(key, [y] + s, v) == (if Rank(key, y) == v then [y] else []) + WithRank(key, s, v)
  {
    assert ([y] + s)[1..] == s;
  }

  // ---------------------------------------------------------------------------
  // What the sorted copy is
  // ---------------------------------------------------------------------------

  /** The sorted copy holds exactly the input tasks. */
  lemma {:induction false} SortByPermutes(key: SortKey, s: seq<Task>)
    ensures multiset(SortBy(key, s)) == multiset(s)
    ensures |SortBy(key, s)| == |s|
  {
    if s != [] {
      SortByPermutes(key, s[1..]);
      InsertPermutes(key, s[0], SortBy(key, s[1..]));
      HeadAndTail(s);
    }
  }

  /** A non-empty sequence holds its head and its tail. */
  lemma HeadAndTail<T>(s: seq<T>)
    requires s != []
    ensures multiset(s) == multiset(s[1..]) + multiset{s[0]}
  {
    assert s == [s[0]] + s[1..];
  }

  /** No pair of the sorted copy is out of order for the comparator. */
  lemma {:induction false} SortBySorted(key: SortKey, s: seq<Task>)
    ensures Sorted(key, SortBy(key, s))
  {
    if s != [] {
      SortBySorted(key, s[1..]);
      InsertSorted(key, s[0], SortBy(key, s[1..]));
    }
  }

  /** Stability: tasks the comparator ties keep their input order. */
  lemma {:induction false} SortByStable(key: SortKey, s: seq<Task>, v: real)
    ensures WithRank(key, SortBy(key, s), v) == WithRank(key, s, v)
  {
    if s != [] {
      SortByStable(key, s[1..], v);
      InsertWithRank(key, s[0], SortBy(key, s[1..]), v);
    }
  }

  lemma {:induction false} AllRankZero(s: seq<Task>)
    ensures WithRank(Unrecognised, s, 0.0) == s
  {
    if s != [] {
      AllRankZero(s[1..]);
      assert s == [s[0]] + s[1..];
    }
  }

  /** An unknown option leaves the order as it was. */
  lemma UnrecognisedKeepsOrder(s: seq<Task>)
    ensures SortBy(Unrecognised, s) == s
  {
    SortByStable(Unrecognised, s, 0.0);
    AllRankZero(s);
    AllRankZero(SortBy(Unrecognised, s));
  }

  /** Sorting by importance gives non-increasing importance. */
  lemma ByImportanceDescending(s: seq<Task>)
    ensures forall i, j :: 0 <= i < j < |SortBy(Importance, s)| ==>
              SortBy(Importance, s)[i].importance >= SortBy(Importance, s)[j].importance
  {
    SortBySorted(Importance, s);
  }

  /** Sorting by either score gives non-increasing scores. */
  lemma ByScoresDescending(s: seq<Task>)
    ensures forall i, j :: 0 <= i < j < |SortBy(PriorityScore, s)| ==>
              SortBy(PriorityScore, s)[i].priorityScore >= SortBy(PriorityScore, s)[j].priorityScore
    ensures forall i, j :: 0 <= i < j < |SortBy(SmartPriorityScore, s)| ==>
              SortBy(SmartPriorityScore, s)[i].smartPriorityScore >= SortBy(SmartPriorityScore, s)[j].smartPriorityScore
  {
    SortBySorted(PriorityScore, s);
    SortBySorted(SmartPriorityScore, s);
  }

  /** Sorting by due date gives non-decreasing due dates. */
  lemma ByDueDateAscending(s: seq<Task>)
    ensures forall i, j :: 0 <= i < j < |SortBy(DueDate, s)| ==>
              SortBy(DueDate, s)[i].dueDate <= SortBy(DueDate, s)[j].dueDate
  {
    SortBySorted(DueDate, s);
  }

  /** `sortedTasks` on the home page: a sorted copy for the selected option. */
  function SortedTasks(sortBy: string, tasks: seq<Task>): (r: seq<Task>)
    ensures multiset(r) == multiset(tasks) && |r| == |tasks|
    ensures Sorted(KeyOf(sortBy), r)
    ensures forall v :: WithRank(KeyOf(sortBy), r, v) == WithRank(KeyOf(sortBy), tasks, v)
  {
    SortByPermutes(KeyOf(sortBy), tasks);
    SortBySorted(KeyOf(sortBy), tasks);
    assert forall v :: WithRank(KeyOf(sortBy), SortBy(KeyOf(sortBy), tasks), v)
                       == WithRank(KeyOf(sortBy), tasks, v) by {
      forall v ensures WithRank(KeyOf(sortBy), SortBy(KeyOf(sortBy), tasks), v)
                       == WithRank(KeyOf(sortBy), tasks, v) {
        SortByStable(KeyOf(sortBy), tasks, v);
      }
    }
    SortBy(KeyOf(sortBy), tasks)
  }
}
