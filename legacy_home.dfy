/** The legacy home page script: it keeps the pending tasks in `allTasks`,
    sorts that list in place by the selected option every time it renders,
    and re-renders on every change of option. */
module LegacyHome {
  import opened Wrappers
  import opened TaskRecord
  import opened TaskOrder

  /** What the all-tasks list shows. */
  datatype Display = Blank | EmptyMessage | TaskList(shown: seq<Task>) | LoadError

  /** The key the legacy comparator sorts by: `"due_date"` by date
      ascending, otherwise `b[currentSort] - a[currentSort]`, which is
      descending on any numeric or boolean field of the task; any other name
      reads `undefined` and compares as NaN, which `sort` treats as a tie. */
  function LegacyKeyOf(name: string): (k: SortKey)
    ensures name in {"priorityScore", "smartPriorityScore", "due_date", "importance"} ==> k == KeyOf(name)
    ensures k == Unrecognised <==>
      name !in {"priorityScore", "smartPriorityScore", "due_date", "importance",
                "number", "estimated_hours", "id", "completed", "circularTask"}
  {
    if name == "number" then Number
    else if name == "estimated_hours" then EstimatedHours
    else if name == "id" then Id
    else if name == "completed" then CompletedFlag
    else if name == "circularTask" then CircularFlag
    else KeyOf(name)
  }

  /** `tasks.filter((task) => !task.completed)`. */
  function Pending(ts: seq<Task>): (r: seq<Task>)
    ensures forall t :: t in r <==> t in ts && !t.completed
    ensures |r| <= |ts|
  {
    if ts == [] then []
    else (if ts[0].completed then [] else [ts[0]]) + Pending(ts[1..])
  }

  /** Keeping the pending tasks drops exactly the completed ones. */
  lemma {:induction false} PendingCounts(ts: seq<Task>)
    ensures multiset(Pending(ts)) + multiset(Completed(ts)) == multiset(ts)
  {
    if ts != [] {
      PendingCounts(ts[1..]);
      assert ts == [ts[0]] + ts[1..];
      assert multiset(ts) == multiset{ts[0]} + multiset(ts[1..]);
      if ts[0].completed {
        assert Completed(ts) == [ts[0]] + Completed(ts[1..]);
        assert Pending(ts) == Pending(ts[1..]);
      } else {
        assert Pending(ts) == [ts[0]] + Pending(ts[1..]);
        assert Completed(ts) == Completed(ts[1..]);
      }
    }
  }

  function Completed(ts: seq<Task>): (r: seq<Task>)
    ensures forall t :: t in r <==> t in ts && t.completed
  {
    if ts == [] then []
    else (if ts[0].completed then [ts[0]] else []) + Completed(ts[1..])
  }

  /** The filters work element by element: a one-task list keeps or drops
      its task, and a joined list is filtered piece by piece. Together these
      fix the result, so the kept tasks stay in the fetched order, each as
      often as it was fetched. */
  lemma {:induction false} PendingAppend(a: seq<Task>, b: seq<Task>)
    ensures Pending(a + b) == Pending(a) + Pending(b)
  {
    if a == [] {
      assert a + b == b;
    } else {
      PendingAppend(a[1..], b);
      PendingHeadOfAppend(a, []);
      assert a + [] == a;
      PendingHeadOfAppend(a, b);
      Regroup(if !a[0].completed then [a[0]] else [], Pending(a[1..]), Pending(b));
    }
  }

  /** The first task of `a + b` is kept or dropped as in `a`. */
  lemma PendingHeadOfAppend(a: seq<Task>, b: seq<Task>)
    requires a != []
    ensures Pending(a + b) == (if !a[0].completed then [a[0]] else []) + Pending(a[1..] + b)
  {
    assert (a + b)[0] == a[0] && (a + b)[1..] == a[1..] + b;
  }

  lemma {:induction false} CompletedAppend(a: seq<Task>, b: seq<Task>)
    ensures Completed(a + b) == Completed(a) + Completed(b)
  {
    if a == [] {
      assert a + b == b;
    } else {
      CompletedAppend(a[1..], b);
      CompletedHeadOfAppend(a, []);
      assert a + [] == a;
      CompletedHeadOfAppend(a, b);
      Regroup(if a[0].completed then [a[0]] else [], Completed(a[1..]), Completed(b));
    }
  }

  /** The first task of `a + b` is kept or dropped as in `a`. */
  lemma CompletedHeadOfAppend(a: seq<Task>, b: seq<Task>)
    requires a != []
    ensures Completed(a + b) == (if a[0].completed then [a[0]] else []) + Completed(a[1..] + b)
  {
    assert (a + b)[0] == a[0] && (a + b)[1..] == a[1..] + b;
  }

  lemma FilterOne(t: Task)
    ensures Pending([t]) == (if t.completed then [] else [t])
    ensures Completed([t]) == (if t.completed then [t] else [])
  {
    assert [t][1..] == [];
  }

  /** Filtering twice keeps the same list. */
  lemma {:induction false} PendingIdempotent(ts: seq<Task>)
    ensures Pending(Pending(ts)) == Pending(ts)
  {
    if ts != [] {
      PendingIdempotent(ts[1..]);
      var p := Pending(ts);
      if !ts[0].completed {
        assert p == [ts[0]] + Pending(ts[1..]);
        assert p[0] == ts[0] && p[1..] == Pending(ts[1..]);
        assert Pending(p) == [p[0]] + Pending(p[1..]);
      } else {
        assert p == Pending(ts[1..]);
      }
    }
  }

  class HomeList {
    var allTasks: seq<Task>
    var currentSort: string
    var isLoggedIn: bool
    var display: Display
    var circularDisplay: Display

    /** Only pending tasks are ever held. */
    predicate Valid()
      reads this
    {
      forall t :: t in allTasks ==> !t.completed
    }

    constructor ()
      ensures Valid()
      ensures allTasks == [] && currentSort == "smartPriorityScore" && isLoggedIn
      ensures display == Blank && circularDisplay == Blank
    {
      allTasks := [];
      currentSort := "smartPriorityScore";
      isLoggedIn := true;
      display := Blank;
      circularDisplay := Blank;
    }

    /** `renderAllTasks(allTasks)`: an empty list shows the message and is not
        sorted; otherwise `allTasks` itself is put in the selected order. */
    method RenderAllTasks()
      requires Valid()
      modifies this`allTasks, this`display
      ensures Valid()
      ensures old(allTasks) == [] ==> allTasks == [] && display == EmptyMessage
      ensures old(allTasks) != [] ==>
        allTasks == SortBy(LegacyKeyOf(currentSort), old(allTasks)) && display == TaskList(allTasks)
      ensures multiset(allTasks) == multiset(old(allTasks))
    {
      if |allTasks| == 0 {
        display := EmptyMessage;
        return;
      }
      SortByPermutes(LegacyKeyOf(currentSort), allTasks);
      var sorted := SortBy(LegacyKeyOf(currentSort), allTasks);
      assert forall t :: t in sorted ==> t in multiset(allTasks);
      allTasks := sorted;
      display := TaskList(allTasks);
    }

    /** `renderCircularTasks(tasks)`: the message for an empty list,
        otherwise the list as the server sent it. */
    method RenderCircularTasks(tasks: seq<Task>)
      modifies this`circularDisplay
      ensures tasks == [] ==> circularDisplay == EmptyMessage
      ensures tasks != [] ==> circularDisplay == TaskList(tasks)
    {
      if |tasks| == 0 {
        circularDisplay := EmptyMessage;
      } else {
        circularDisplay := TaskList(tasks);
      }
    }

    /** `fetchData`: the task list, then the circular list. `None` is a
        request that failed or a body that cannot be read; either ends in
        the catch, which shows the error in place of the task list. */
    method FetchData(fetched: Option<seq<Task>>, circular: Option<seq<Task>>)
      requires Valid()
      modifies this
      ensures Valid()
      ensures currentSort == old(currentSort) && isLoggedIn == old(isLoggedIn)
      ensures !old(isLoggedIn) ==>
        allTasks == old(allTasks) && display == old(display) && circularDisplay == old(circularDisplay)
      ensures old(isLoggedIn) && fetched.None? ==>
        allTasks == old(allTasks) && display == LoadError && circularDisplay == old(circularDisplay)
      ensures old(isLoggedIn) && fetched.Some? ==>
        && multiset(allTasks) == multiset(Pending(fetched.value))
        && (Pending(fetched.value) != [] ==> allTasks == SortBy(LegacyKeyOf(currentSort), Pending(fetched.value)))
        && (circular.None? ==> display == LoadError && circularDisplay == old(circularDisplay))
        && (circular.Some? && Pending(fetched.value) == [] ==> display == EmptyMessage)
        && (circular.Some? && Pending(fetched.value) != [] ==> display == TaskList(allTasks))
        && (circular.Some? && circular.value == [] ==> circularDisplay == EmptyMessage)
        && (circular.Some? && circular.value != [] ==> circularDisplay == TaskList(circular.value))
    {
      if !isLoggedIn {
        return;
      }
      if fetched.None? {
        display := LoadError;
        return;
      }
      allTasks := Pending(fetched.value);
      RenderAllTasks();
      if circular.None? {
        display := LoadError;
        return;
      }
      RenderCircularTasks(circular.value);
    }

    /** `handleSortChange`: records the option, re-sorts the held list and
        shows it. */
    method HandleSortChange(value: string)
      requires Valid()
      modifies this
      ensures Valid()
      ensures currentSort == value && isLoggedIn == old(isLoggedIn) && circularDisplay == old(circularDisplay)
      ensures multiset(allTasks) == multiset(old(allTasks))
      ensures old(allTasks) != [] ==> allTasks == SortBy(LegacyKeyOf(value), old(allTasks))
      ensures old(allTasks) == [] ==> allTasks == [] && display == EmptyMessage
      ensures old(allTasks) != [] ==> display == TaskList(allTasks)
    {
      currentSort := value;
      RenderAllTasks();
    }

    /** `authStore.logout`: clears the flag and renders two empty lists; the
        held tasks stay in `allTasks`. */
    method Logout()
      requires Valid()
      modifies this
      ensures Valid()
      ensures !isLoggedIn && display == EmptyMessage && circularDisplay == EmptyMessage
      ensures allTasks == old(allTasks) && currentSort == old(currentSort)
    {
      isLoggedIn := false;
      display := EmptyMessage;
      RenderCircularTasks([]);
    }
  }

  /** The held list after a fetch is sorted for the current option, whatever the
      option is, and ties keep the order the server sent. */
  lemma FetchedListOrdered(key: SortKey, fetched: seq<Task>, v: real)
    ensures Sorted(key, SortBy(key, Pending(fetched)))
    ensures WithRank(key, SortBy(key, Pending(fetched)), v) == WithRank(key, Pending(fetched), v)
  {
    SortBySorted(key, Pending(fetched));
    SortByStable(key, Pending(fetched), v);
  }

  /** Any other numeric field the option may name sorts descending. */
  lemma LegacyFieldsDescending(s: seq<Task>)
    ensures var r := SortBy(LegacyKeyOf("number"), s);
      forall i, j :: 0 <= i < j < |r| ==> r[i].number >= r[j].number
    ensures var r := SortBy(LegacyKeyOf("estimated_hours"), s);
      forall i, j :: 0 <= i < j < |r| ==> r[i].estimatedHours >= r[j].estimatedHours
    ensures var r := SortBy(LegacyKeyOf("id"), s);
      forall i, j :: 0 <= i < j < |r| ==> r[i].id >= r[j].id
  {
    SortBySorted(Number, s);
    SortBySorted(EstimatedHours, s);
    SortBySorted(Id, s);
  }
}
