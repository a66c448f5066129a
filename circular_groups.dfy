/** The home page's grouping of circular tasks (`groupCircularTasks`): the
    tasks the backend flagged as circular are split into groups, where two
    tasks belong together when either depends on the other, transitively. */
module CircularGroups {
  import opened Wrappers
  import opened TaskRecord

  /** The link the grouping follows: either task lists the other's id among
      its dependencies. Ids that name no task in the list link nothing. */
  predicate Linked(x: Task, y: Task) {
    y.id in x.dependencies || x.id in y.dependencies
  }

  predicate DistinctIds(ts: seq<Task>) {
    forall i, j :: 0 <= i < j < |ts| ==> ts[i].id != ts[j].id
  }

  function Ids(ts: seq<Task>): set<int> {
    set t | t in ts :: t.id
  }

  function Flatten(gs: seq<seq<Task>>): seq<Task> {
    if gs == [] then [] else Flatten(gs[..|gs| - 1]) + gs[|gs| - 1]
  }

  /** A chain of tasks of `ts`, each linked to the next. */
  ghost predicate IsChain(ts: seq<Task>, c: seq<Task>) {
    && |c| > 0
    && (forall k :: 0 <= k < |c| ==> c[k] in ts)
    && (forall k :: 0 <= k < |c| - 1 ==> Linked(c[k], c[k + 1]))
  }

  /** `x` and `y` are joined by a chain of direct links inside `ts`. */
  ghost predicate Connected(ts: seq<Task>, x: Task, y: Task) {
    exists c :: IsChain(ts, c) && c[0] == x && c[|c| - 1] == y
  }

  /** Tasks of `ts` whose ids are new with respect to `processed` and to each other. */
  ghost predicate FreshTasks(ts: seq<Task>, processed: set<int>, added: seq<Task>) {
    && (forall t :: t in added ==> t in ts && t.id !in processed)
    && DistinctIds(added)
  }

  /** Every member of every group has all its linked tasks among the processed ids. */
  ghost predicate LinksProcessed(ts: seq<Task>, members: seq<Task>, processed: set<int>) {
    forall m, t :: m in members && t in ts && Linked(m, t) ==> t.id in processed
  }

  /** Group `k` starts with the first task of `ts`, in input order, that no
      earlier group holds. */
  ghost predicate StartsAtFirstUngrouped(ts: seq<Task>, groups: seq<seq<Task>>, k: int)
    requires 0 <= k < |groups| && |groups[k]| > 0
  {
    exists f :: 0 <= f < |ts| && ts[f] == groups[k][0]
                && forall j :: 0 <= j < f ==> ts[j].id in Ids(Flatten(groups[..k]))
  }

  /** Every group is non-empty, and each member is reachable from the group's
      first member through links inside `ts`. */
  ghost predicate ConnectedGroups(ts: seq<Task>, groups: seq<seq<Task>>) {
    forall k :: 0 <= k < |groups| ==>
      |groups[k]| > 0 && forall j :: 0 <= j < |groups[k]| ==> Connected(ts, groups[k][0], groups[k][j])
  }

  /** A task linked to a member of a group is in that same group. */
  ghost predicate ClosedUnderLinks(ts: seq<Task>, groups: seq<seq<Task>>) {
    forall k, m, t :: 0 <= k < |groups| && m in groups[k] && t in ts && Linked(m, t) ==> t in groups[k]
  }

  // ---------------------------------------------------------------------------
  // The algorithm
  // ---------------------------------------------------------------------------

  /** `groupCircularTasks`. `None` stands for a null or undefined list. */
  method GroupCircularTasks(tasks: Option<seq<Task>>) returns (groups: seq<seq<Task>>)
    ensures tasks.None? || tasks.value == [] ==> groups == []
    ensures tasks.Some? ==> ConnectedGroups(tasks.value, groups)
    ensures tasks.Some? ==> FreshTasks(tasks.value, {}, Flatten(groups))
    ensures tasks.Some? ==> forall t :: t in tasks.value ==> t.id in Ids(Flatten(groups))
    ensures tasks.Some? ==> forall k :: 0 <= k < |groups| ==> StartsAtFirstUngrouped(tasks.value, groups, k)
    ensures tasks.Some? && DistinctIds(tasks.value) ==> multiset(Flatten(groups)) == multiset(tasks.value)
    ensures tasks.Some? && DistinctIds(tasks.value) ==> ClosedUnderLinks(tasks.value, groups)
  {
    if tasks.None? || |tasks.value| == 0 {
      return [];
    }
    var ts := tasks.value;
    groups := [];
    var processed: set<int> := {};
    for i := 0 to |ts|
      invariant ConnectedGroups(ts, groups)
      invariant FreshTasks(ts, {}, Flatten(groups))
      invariant processed == Ids(Flatten(groups))
      invariant LinksProcessed(ts, Flatten(groups), processed)
      invariant forall j :: 0 <= j < i ==> ts[j].id in processed
      invariant forall k :: 0 <= k < |groups| ==> StartsAtFirstUngrouped(ts, groups, k)
      invariant DistinctIds(ts) ==> ClosedUnderLinks(ts, groups)
    {
      var task := ts[i];
      if task.id in processed {
        CoveredStep(ts, i, processed, processed);
        continue;
      }
      ghost var before := processed;
      processed := processed + {task.id};
      ConnectedToSelf(ts, task);
      var added;
      processed, added := FindConnected(ts, task, processed, task);
      CoveredStep(ts, i, before, processed);
      var group := [task] + added;
      NewGroupFacts(ts, groups, before, task, added, processed);
      NewGroupConnected(ts, groups, task, added);
      NewGroupStartsAtFirstUngrouped(ts, groups, group, i);
      if DistinctIds(ts) {
        NewGroupClosed(ts, groups, group, before, processed);
      }
      groups := groups + [group];
    }
    if DistinctIds(ts) {
      CoveredIsPermutation(ts, groups);
    }
  }

  /** `findConnected`: scans the whole list for unprocessed tasks linked to
      `cur`, marks each processed and recurses into it. It returns, in order,
      the tasks it pushed onto the group whose first member is `root`. */
  method FindConnected(ts: seq<Task>, cur: Task, processed: set<int>, ghost root: Task)
    returns (processed': set<int>, added: seq<Task>)
    requires cur in ts && cur.id in processed
    requires Connected(ts, root, cur)
    decreases Ids(ts) - processed
    ensures processed' == processed + Ids(added)
    ensures FreshTasks(ts, processed, added)
    ensures forall a :: a in added ==> Connected(ts, root, a)
    ensures forall t :: t in ts && Linked(cur, t) ==> t.id in processed'
    ensures LinksProcessed(ts, added, processed')
  {
    processed', added := processed, [];
    for i := 0 to |ts|
      invariant processed' == processed + Ids(added)
      invariant FreshTasks(ts, processed, added)
      invariant forall a :: a in added ==> Connected(ts, root, a)
      invariant forall j :: 0 <= j < i && Linked(cur, ts[j]) ==> ts[j].id in processed'
      invariant LinksProcessed(ts, added, processed')
    {
      var other := ts[i];
      if other.id !in processed' && (cur.id in other.dependencies || other.id in cur.dependencies) {
        ghost var before := processed';
        processed' := processed' + {other.id};
        ConnectedStep(ts, root, cur, other);
        var inner;
        processed', inner := FindConnected(ts, other, processed', root);
        ExtendAdded(ts, processed, before, added, other, processed', inner);
        added := added + [other] + inner;
      }
    }
  }

  // ---------------------------------------------------------------------------
  // Proof steps of the algorithm
  // ---------------------------------------------------------------------------

  lemma CoveredStep(ts: seq<Task>, i: int, before: set<int>, after: set<int>)
    requires 0 <= i < |ts| && (forall j :: 0 <= j < i ==> ts[j].id in before)
    requires before + {ts[i].id} <= after
    ensures forall j :: 0 <= j < i + 1 ==> ts[j].id in after
  {
  }

  lemma ConnectedToSelf(ts: seq<Task>, t: Task)
    requires t in ts
    ensures Connected(ts, t, t)
  {
    assert IsChain(ts, [t]);
  }

  lemma ConnectedStep(ts: seq<Task>, x: Task, y: Task, z: Task)
    requires Connected(ts, x, y) && z in ts && Linked(y, z)
    ensures Connected(ts, x, z)
  {
    var c :| IsChain(ts, c) && c[0] == x && c[|c| - 1] == y;
    assert IsChain(ts, c + [z]);
  }

  lemma IdsAppend(a: seq<Task>, b: seq<Task>)
    ensures Ids(a + b) == Ids(a) + Ids(b)
  {
    forall id | id in Ids(a + b) ensures id in Ids(a) + Ids(b) {
      var t :| t in a + b && t.id == id;
    }
  }

  lemma DistinctAppend(a: seq<Task>, b: seq<Task>)
    requires DistinctIds(a) && DistinctIds(b) && Ids(a) !! Ids(b)
    ensures DistinctIds(a + b)
  {
    var ab := a + b;
    forall i, j | 0 <= i < j < |ab| ensures ab[i].id != ab[j].id {
      if i < |a| && j >= |a| {
        assert ab[i] == a[i] && ab[j] == b[j - |a|];
        assert a[i].id in Ids(a) && b[j - |a|].id in Ids(b);
      } else if i >= |a| {
        assert ab[i] == b[i - |a|] && ab[j] == b[j - |a|];
      } else {
        assert ab[i] == a[i] && ab[j] == a[j];
      }
    }
  }

  /** One step of the scan: `other` and what the recursive call pushed join the
      tasks pushed so far. */
  lemma ExtendAdded(ts: seq<Task>, processed: set<int>, before: set<int>, added: seq<Task>,
                    other: Task, after: set<int>, inner: seq<Task>)
    requires before == processed + Ids(added) && FreshTasks(ts, processed, added)
    requires LinksProcessed(ts, added, before)
    requires other in ts && other.id !in before
    requires after == before + {other.id} + Ids(inner)
    requires FreshTasks(ts, before + {other.id}, inner)
    requires forall t :: t in ts && Linked(other, t) ==> t.id in after
    requires LinksProcessed(ts, inner, after)
    ensures after == processed + Ids(added + [other] + inner)
    ensures FreshTasks(ts, processed, added + [other] + inner)
    ensures LinksProcessed(ts, added + [other] + inner, after)
  {
    IdsAppend(added, [other]);
    IdsAppend(added + [other], inner);
    assert Ids([other]) == {other.id};
    DistinctAppend(added, [other]);
    DistinctAppend(added + [other], inner);
  }

  lemma FlattenAppend(gs: seq<seq<Task>>, g: seq<Task>)
    ensures Flatten(gs + [g]) == Flatten(gs) + g
  {
    assert (gs + [g])[..|gs|] == gs;
  }

  /** The group just built, `[task] + added`, is fresh and closed over processed ids. */
  lemma NewGroupFacts(ts: seq<Task>, groups: seq<seq<Task>>, before: set<int>, task: Task,
                      added: seq<Task>, processed: set<int>)
    requires task in ts && task.id !in before
    requires FreshTasks(ts, {}, Flatten(groups)) && before == Ids(Flatten(groups))
    requires LinksProcessed(ts, Flatten(groups), before)
    requires processed == before + {task.id} + Ids(added)
    requires FreshTasks(ts, before + {task.id}, added)
    requires forall t :: t in ts && Linked(task, t) ==> t.id in processed
    requires LinksProcessed(ts, added, processed)
    ensures FreshTasks(ts, {}, Flatten(groups + [[task] + added]))
    ensures processed == Ids(Flatten(groups + [[task] + added]))
    ensures LinksProcessed(ts, Flatten(groups + [[task] + added]), processed)
    ensures FreshTasks(ts, before, [task] + added)
  {
    var group := [task] + added;
    FlattenAppend(groups, group);
    var flat := Flatten(groups);
    IdsAppend([task], added);
    assert Ids([task]) == {task.id};
    IdsAppend(flat, group);
    DistinctAppend([task], added);
    DistinctAppend(flat, group);
  }

  lemma NewGroupConnected(ts: seq<Task>, groups: seq<seq<Task>>, task: Task, added: seq<Task>)
    requires ConnectedGroups(ts, groups)
    requires task in ts && forall a :: a in added ==> Connected(ts, task, a)
    ensures ConnectedGroups(ts, groups + [[task] + added])
  {
    var group := [task] + added;
    ConnectedToSelf(ts, task);
    forall j | 0 <= j < |group| ensures Connected(ts, group[0], group[j]) {
      if j > 0 {
        assert group[j] == added[j - 1];
      }
    }
    assert (groups + [group])[|groups|] == group;
  }

  lemma FlattenPrefix(gs: seq<seq<Task>>, g: seq<Task>, k: int)
    requires 0 <= k <= |gs|
    ensures (gs + [g])[..k] == gs[..k]
  {
  }

  lemma NewGroupStartsAtFirstUngrouped(ts: seq<Task>, groups: seq<seq<Task>>, group: seq<Task>, i: int)
    requires 0 <= i < |ts| && |group| > 0 && group[0] == ts[i]
    requires forall j :: 0 <= j < i ==> ts[j].id in Ids(Flatten(groups))
    requires forall k :: 0 <= k < |groups| ==> |groups[k]| > 0 && StartsAtFirstUngrouped(ts, groups, k)
    ensures forall k :: 0 <= k < |groups| + 1 ==>
              |(groups + [group])[k]| > 0 && StartsAtFirstUngrouped(ts, groups + [group], k)
  {
    var gs := groups + [group];
    forall k | 0 <= k < |gs| ensures |gs[k]| > 0 && StartsAtFirstUngrouped(ts, gs, k) {
      assert gs[..k] == if k < |groups| then groups[..k] else groups;
      if k < |groups| {
        var f :| 0 <= f < |ts| && ts[f] == groups[k][0]
                 && forall j :: 0 <= j < f ==> ts[j].id in Ids(Flatten(groups[..k]));
        assert gs[k] == groups[k];
      } else {
        assert gs[k] == group;
        assert forall j :: 0 <= j < i ==> ts[j].id in Ids(Flatten(gs[..k]));
      }
    }
  }

  /** With distinct ids, a task is determined by its id. */
  lemma SameIdSameTask(ts: seq<Task>, x: Task, y: Task)
    requires DistinctIds(ts) && x in ts && y in ts && x.id == y.id
    ensures x == y
  {
    var i :| 0 <= i < |ts| && ts[i] == x;
    var j :| 0 <= j < |ts| && ts[j] == y;
  }

  lemma MemberOfFlatten(gs: seq<seq<Task>>, k: int, t: Task)
    requires 0 <= k < |gs| && t in gs[k]
    ensures t in Flatten(gs)
  {
    if k < |gs| - 1 {
      MemberOfFlatten(gs[..|gs| - 1], k, t);
    }
  }

  lemma FlattenMember(gs: seq<seq<Task>>, t: Task) returns (k: int)
    requires t in Flatten(gs)
    ensures 0 <= k < |gs| && t in gs[k]
  {
    var last := gs[|gs| - 1];
    if t in last {
      k := |gs| - 1;
    } else {
      k := FlattenMember(gs[..|gs| - 1], t);
    }
  }

  /** With distinct ids, the group just built is closed: any task linked to one of
      its members is a member, because the earlier groups were already closed. */
  lemma NewGroupClosed(ts: seq<Task>, groups: seq<seq<Task>>, group: seq<Task>,
                       before: set<int>, processed: set<int>)
    requires DistinctIds(ts)
    requires ClosedUnderLinks(ts, groups)
    requires before == Ids(Flatten(groups)) && FreshTasks(ts, {}, Flatten(groups))
    requires FreshTasks(ts, before, group)
    requires processed == Ids(Flatten(groups + [group]))
    requires LinksProcessed(ts, Flatten(groups + [group]), processed)
    ensures ClosedUnderLinks(ts, groups + [group])
  {
    FlattenAppend(groups, group);
    IdsAppend(Flatten(groups), group);
    var gs := groups + [group];
    forall k, m, t | 0 <= k < |gs| && m in gs[k] && t in ts && Linked(m, t) ensures t in gs[k] {
      if k < |groups| {
        assert gs[k] == groups[k];
      } else {
        assert gs[k] == group;
        assert m in Flatten(gs);
        assert t.id in processed;
        if t.id in before {
          var u :| u in Flatten(groups) && u.id == t.id;
          assert u in ts;
          SameIdSameTask(ts, u, t);
          var k' := FlattenMember(groups, t);
          var jm :| 0 <= jm < |group| && group[jm] == m;
          assert Linked(t, m);
          assert m in groups[k'];
          MemberOfFlatten(groups, k', m);
          assert false;
        } else {
          var u :| u in group && u.id == t.id;
          SameIdSameTask(ts, u, t);
        }
      }
    }
  }

  lemma DistinctCount(s: seq<Task>, x: Task)
    requires DistinctIds(s)
    ensures multiset(s)[x] == if x in s then 1 else 0
  {
    if s != [] {
      assert s == [s[0]] + s[1..];
      DistinctCount(s[1..], x);
      if x == s[0] {
        assert x !in s[1..] by {
          forall k | 0 <= k < |s[1..]| ensures s[1..][k] != x {
            assert s[1..][k] == s[k + 1];
          }
        }
      }
    }
  }

  /** With distinct ids, a grouping whose members are fresh and which covers every
      input id is a permutation of the input. */
  lemma CoveredIsPermutation(ts: seq<Task>, groups: seq<seq<Task>>)
    requires DistinctIds(ts)
    requires FreshTasks(ts, {}, Flatten(groups))
    requires forall j :: 0 <= j < |ts| ==> ts[j].id in Ids(Flatten(groups))
    ensures forall t :: t in ts ==> t.id in Ids(Flatten(groups))
    ensures multiset(Flatten(groups)) == multiset(ts)
  {
    var flat := Flatten(groups);
    forall x ensures multiset(flat)[x] == multiset(ts)[x] {
      DistinctCount(flat, x);
      DistinctCount(ts, x);
      if x in ts {
        var u :| u in flat && u.id == x.id;
        SameIdSameTask(ts, u, x);
      }
    }
  }

  // ---------------------------------------------------------------------------
  // What the grouping means
  // ---------------------------------------------------------------------------

  lemma ConnectedSymmetric(ts: seq<Task>, x: Task, y: Task)
    requires Connected(ts, x, y)
    ensures Connected(ts, y, x)
  {
    var c :| IsChain(ts, c) && c[0] == x && c[|c| - 1] == y;
    var r := seq(|c|, i requires 0 <= i < |c| => c[|c| - 1 - i]);
    forall k | 0 <= k < |r| - 1 ensures Linked(r[k], r[k + 1]) {
      assert Linked(c[|c| - 2 - k], c[|c| - 1 - k]);
    }
    assert IsChain(ts, r);
  }

  lemma ConnectedTransitive(ts: seq<Task>, x: Task, y: Task, z: Task)
    requires Connected(ts, x, y) && Connected(ts, y, z)
    ensures Connected(ts, x, z)
  {
    var c1 :| IsChain(ts, c1) && c1[0] == x && c1[|c1| - 1] == y;
    var c2 :| IsChain(ts, c2) && c2[0] == y && c2[|c2| - 1] == z;
    var c := c1 + c2[1..];
    forall k | 0 <= k < |c| - 1 ensures Linked(c[k], c[k + 1]) {
      if k < |c1| - 1 {
        assert c[k] == c1[k] && c[k + 1] == c1[k + 1];
      } else {
        assert c[k] == c2[k - |c1| + 1] && c[k + 1] == c2[k - |c1| + 2];
      }
    }
    assert IsChain(ts, c);
  }

  /** A chain that starts inside a closed group never leaves it. */
  lemma {:induction false} ChainStaysInGroup(ts: seq<Task>, groups: seq<seq<Task>>, k: int, c: seq<Task>)
    requires ClosedUnderLinks(ts, groups) && 0 <= k < |groups|
    requires IsChain(ts, c) && c[0] in groups[k]
    ensures c[|c| - 1] in groups[k]
  {
    if |c| > 1 {
      var p := c[..|c| - 1];
      assert IsChain(ts, p) && p[0] == c[0];
      ChainStaysInGroup(ts, groups, k, p);
      assert Linked(c[|c| - 2], c[|c| - 1]);
    }
  }

  /** With distinct ids, two tasks of the list share a group exactly when a chain
      of dependency links joins them: the groups are the connected components. */
  lemma SameGroupIffConnected(ts: seq<Task>, groups: seq<seq<Task>>, k: int, x: Task, y: Task)
    requires ConnectedGroups(ts, groups) && ClosedUnderLinks(ts, groups)
    requires 0 <= k < |groups| && x in groups[k] && y in ts
    ensures y in groups[k] <==> Connected(ts, x, y)
  {
    if y in groups[k] {
      var i :| 0 <= i < |groups[k]| && groups[k][i] == x;
      var j :| 0 <= j < |groups[k]| && groups[k][j] == y;
      ConnectedSymmetric(ts, groups[k][0], x);
      ConnectedTransitive(ts, x, groups[k][0], y);
    }
    if Connected(ts, x, y) {
      var c :| IsChain(ts, c) && c[0] == x && c[|c| - 1] == y;
      ChainStaysInGroup(ts, groups, k, c);
    }
  }

  /** With distinct ids, a task that neither depends on nor is depended on by any
      other listed task forms a group of its own. */
  lemma IsolatedTaskAlone(ts: seq<Task>, groups: seq<seq<Task>>, k: int, x: Task)
    requires ConnectedGroups(ts, groups) && ClosedUnderLinks(ts, groups)
    requires 0 <= k < |groups| && x in groups[k]
    requires forall t :: t in ts && t != x ==> !Linked(x, t)
    ensures forall y :: y in groups[k] ==> y == x
  {
    forall y | y in groups[k] ensures y == x {
      var j :| 0 <= j < |groups[k]| && groups[k][j] == y;
      SameGroupIffConnected(ts, groups, k, x, y);
      var c :| IsChain(ts, c) && c[0] == x && c[|c| - 1] == y;
      ChainFromIsolated(ts, x, c);
    }
  }

  lemma {:induction false} ChainFromIsolated(ts: seq<Task>, x: Task, c: seq<Task>)
    requires IsChain(ts, c) && c[0] == x
    requires forall t :: t in ts && t != x ==> !Linked(x, t)
    ensures c[|c| - 1] == x
  {
    if |c| > 1 {
      var p := c[..|c| - 1];
      assert IsChain(ts, p);
      ChainFromIsolated(ts, x, p);
      assert Linked(c[|c| - 2], c[|c| - 1]);
    }
  }
}
