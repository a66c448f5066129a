/** The dependency-graph page: one node per task and one edge per
    (task, dependency) pair, then the layout step that places every node.
    The layout engine itself is not modelled: the centres it computes are an
    input. */
module DependencyGraph {
  import opened Wrappers
  import opened Text
  import opened TaskRecord

  const NodeWidth: real := 172.0
  const NodeHeight: real := 36.0

  datatype Position = Position(x: real, y: real)

  datatype Node = Node(id: string, caption: string, position: Position, background: string, borderColor: string)

  datatype Edge = Edge(id: string, source: string, target: string)

  /** The node drawn for a task, at the origin until laid out. */
  function NodeFor(t: Task): (n: Node)
    ensures n.id == IntToString(t.id) && n.caption == t.title && n.position == Position(0.0, 0.0)
    ensures t.completed ==> n.background == "#d1fae5" && n.borderColor == "#10b981"
    ensures !t.completed ==> n.background == "#fff" && n.borderColor == "#9ca3af"
  {
    Node(IntToString(t.id), t.title, Position(0.0, 0.0),
         if t.completed then "#d1fae5" else "#fff",
         if t.completed then "#10b981" else "#9ca3af")
  }

  /** `initialNodes`: the tasks mapped one to one, in order. */
  function BuildNodes(tasks: seq<Task>): (r: seq<Node>)
    ensures |r| == |tasks|
    ensures forall i :: 0 <= i < |r| ==> r[i] == NodeFor(tasks[i])
  {
    seq(|tasks|, i requires 0 <= i < |tasks| => NodeFor(tasks[i]))
  }

  /** The edge from dependency `dep` to the task `t` that depends on it. */
  function EdgeFor(dep: int, t: Task): (e: Edge)
    ensures e.source == IntToString(dep) && e.target == IntToString(t.id)
  {
    Edge("e-" + IntToString(dep) + "-" + IntToString(t.id), IntToString(dep), IntToString(t.id))
  }

  /** The edges of `t` for the dependencies `deps`, in order. */
  function DepEdges(t: Task, deps: seq<int>): (r: seq<Edge>)
    ensures |r| == |deps|
    ensures forall k :: 0 <= k < |deps| ==> r[k] == EdgeFor(deps[k], t)
  {
    MapLast(d => EdgeFor(d, t), deps)
  }

  /** `xs.map(f)`, built by appending at the end as the loops below do. */
  function MapLast<A, B>(f: A -> B, xs: seq<A>): (ys: seq<B>)
    ensures |ys| == |xs|
    ensures forall k :: 0 <= k < |xs| ==> ys[k] == f(xs[k])
  {
    if xs == [] then [] else MapLast(f, xs[..|xs| - 1]) + [f(xs[|xs| - 1])]
  }

  /** `initialEdges`: every task's dependency edges, task by task. */
  function EdgesOf(tasks: seq<Task>): seq<Edge> {
    if tasks == [] then []
    else EdgesOf(tasks[..|tasks| - 1]) + DepEdges(tasks[|tasks| - 1], tasks[|tasks| - 1].dependencies)
  }

  /** The total length of all dependency lists. */
  function TotalDependencies(tasks: seq<Task>): nat {
    if tasks == [] then 0 else |tasks[0].dependencies| + TotalDependencies(tasks[1..])
  }

  /** The outer `forEach` over the tasks. */
  method BuildEdges(tasks: seq<Task>) returns (edges: seq<Edge>)
    ensures edges == EdgesOf(tasks)
  {
    edges := [];
    for i := 0 to |tasks|
      invariant edges == EdgesOf(tasks[..i])
    {
      assert tasks[..i + 1][..i] == tasks[..i];
      edges := PushDependencyEdges(edges, tasks[i]);
    }
    assert tasks[..|tasks|] == tasks;
  }

  /** The inner `forEach`: one edge pushed per dependency of `task`. */
  method PushDependencyEdges(edges: seq<Edge>, task: Task) returns (pushed: seq<Edge>)
    ensures pushed == edges + DepEdges(task, task.dependencies)
  {
    pushed := edges;
    var deps := task.dependencies;
    for j := 0 to |deps|
      invariant pushed == edges + DepEdges(task, deps[..j])
    {
      assert deps[..j + 1][..j] == deps[..j];
      pushed := pushed + [EdgeFor(deps[j], task)];
    }
    assert deps[..|deps|] == deps;
  }

  /** `loadGraphData` before layout: a missing or empty list draws nothing. */
  method LoadGraphData(fetched: Option<seq<Task>>) returns (nodes: seq<Node>, edges: seq<Edge>)
    ensures fetched.None? || fetched.value == [] ==> nodes == [] && edges == []
    ensures fetched.Some? ==> nodes == BuildNodes(fetched.value) && edges == EdgesOf(fetched.value)
  {
    if fetched.None? || |fetched.value| == 0 {
      return [], [];
    }
    nodes := BuildNodes(fetched.value);
    edges := BuildEdges(fetched.value);
  }

  // ---------------------------------------------------------------------------
  // What the edges are
  // ---------------------------------------------------------------------------

  lemma {:induction false} TotalDependenciesLast(tasks: seq<Task>)
    requires tasks != []
    ensures TotalDependencies(tasks) ==
            TotalDependencies(tasks[..|tasks| - 1]) + |tasks[|tasks| - 1].dependencies|
  {
    if |tasks| > 1 {
      TotalDependenciesLast(tasks[1..]);
      assert tasks[1..][..|tasks[1..]| - 1] == tasks[..|tasks| - 1][1..];
    }
  }

  /** One edge per (task, dependency) pair: as many edges as dependencies in all. */
  lemma {:induction false} EdgeCount(tasks: seq<Task>)
    ensures |EdgesOf(tasks)| == TotalDependencies(tasks)
  {
    if tasks != [] {
      EdgeCount(tasks[..|tasks| - 1]);
      TotalDependenciesLast(tasks);
    }
  }

  /** An edge is drawn exactly for each dependency `d` of a listed task `t`,
      from `d`'s node id to `t`'s. */
  lemma EdgeMembers(tasks: seq<Task>, e: Edge)
    ensures e in EdgesOf(tasks) <==>
      exists i, k :: 0 <= i < |tasks| && 0 <= k < |tasks[i].dependencies| && e == EdgeFor(tasks[i].dependencies[k], tasks[i])
  {
    if e in EdgesOf(tasks) {
      EdgeHasPair(tasks, e);
    } else {
      forall i, k | 0 <= i < |tasks| && 0 <= k < |tasks[i].dependencies|
        ensures e != EdgeFor(tasks[i].dependencies[k], tasks[i])
      {
        PairHasEdge(tasks, i, k);
      }
    }
  }

  lemma {:induction false} EdgeHasPair(tasks: seq<Task>, e: Edge)
    requires e in EdgesOf(tasks)
    ensures exists i, k :: 0 <= i < |tasks| && 0 <= k < |tasks[i].dependencies| && e == EdgeFor(tasks[i].dependencies[k], tasks[i])
  {
    var init, last := tasks[..|tasks| - 1], tasks[|tasks| - 1];
    if e in EdgesOf(init) {
      EdgeHasPair(init, e);
      var i, k :| 0 <= i < |init| && 0 <= k < |init[i].dependencies| && e == EdgeFor(init[i].dependencies[k], init[i]);
      assert tasks[i] == init[i];
    } else {
      var k :| 0 <= k < |last.dependencies| && DepEdges(last, last.dependencies)[k] == e;
      assert e == EdgeFor(tasks[|tasks| - 1].dependencies[k], tasks[|tasks| - 1]);
    }
  }

  lemma {:induction false} PairHasEdge(tasks: seq<Task>, i: int, k: int)
    requires 0 <= i < |tasks| && 0 <= k < |tasks[i].dependencies|
    ensures EdgeFor(tasks[i].dependencies[k], tasks[i]) in EdgesOf(tasks)
  {
    var init, last := tasks[..|tasks| - 1], tasks[|tasks| - 1];
    assert EdgesOf(tasks) == EdgesOf(init) + DepEdges(last, last.dependencies);
    if i < |init| {
      PairHasEdge(init, i, k);
      assert tasks[i] == init[i];
    } else {
      assert DepEdges(last, last.dependencies)[k] == EdgeFor(tasks[i].dependencies[k], tasks[i]);
    }
  }

  /** Every edge ends at the node of a listed task, and starts at a listed
      task's node whenever every dependency is itself in the list. */
  lemma EdgesConnectNodes(tasks: seq<Task>, e: Edge)
    requires e in EdgesOf(tasks)
    ensures e.target in NodeIds(BuildNodes(tasks))
    ensures (forall i, k :: 0 <= i < |tasks| && 0 <= k < |tasks[i].dependencies| ==>
               exists j :: 0 <= j < |tasks| && tasks[j].id == tasks[i].dependencies[k])
            ==> e.source in NodeIds(BuildNodes(tasks))
  {
    EdgeMembers(tasks, e);
    var i, k :| 0 <= i < |tasks| && 0 <= k < |tasks[i].dependencies| && e == EdgeFor(tasks[i].dependencies[k], tasks[i]);
    assert BuildNodes(tasks)[i].id == e.target;
    if forall i, k :: 0 <= i < |tasks| && 0 <= k < |tasks[i].dependencies| ==>
         exists j :: 0 <= j < |tasks| && tasks[j].id == tasks[i].dependencies[k] {
      var j :| 0 <= j < |tasks| && tasks[j].id == tasks[i].dependencies[k];
      assert BuildNodes(tasks)[j].id == e.source;
    }
  }

  function NodeIds(nodes: seq<Node>): (r: set<string>)
    ensures forall i :: 0 <= i < |nodes| ==> nodes[i].id in r
    ensures forall s :: s in r ==> exists i :: 0 <= i < |nodes| && nodes[i].id == s
  {
    set i | 0 <= i < |nodes| :: nodes[i].id
  }

  /** Node ids clash exactly when task ids do. */
  lemma NodeIdsDistinct(tasks: seq<Task>, i: int, j: int)
    requires 0 <= i < |tasks| && 0 <= j < |tasks|
    ensures BuildNodes(tasks)[i].id == BuildNodes(tasks)[j].id <==> tasks[i].id == tasks[j].id
  {
    if BuildNodes(tasks)[i].id == BuildNodes(tasks)[j].id {
      IntToStringInjective(tasks[i].id, tasks[j].id);
    }
  }

  /** For non-negative ids, the edge id `e-<dep>-<task>` names its pair: two
      edges share an id only when they join the same two ids. */
  lemma EdgeIdInjective(d1: int, t1: Task, d2: int, t2: Task)
    requires d1 >= 0 && d2 >= 0
    requires EdgeFor(d1, t1).id == EdgeFor(d2, t2).id
    ensures d1 == d2 && t1.id == t2.id
  {
    NoDash(d1);
    NoDash(d2);
    EdgeIdParts(IntToString(d1), IntToString(t1.id), IntToString(d2), IntToString(t2.id));
    IntToStringInjective(d1, d2);
    IntToStringInjective(t1.id, t2.id);
  }

  /** `e-<a>-<x>` determines `a` and `x` when `a` holds no dash. */
  lemma EdgeIdParts(a: string, x: string, b: string, y: string)
    requires '-' !in a && '-' !in b
    requires "e-" + a + "-" + x == "e-" + b + "-" + y
    ensures a == b && x == y
  {
    assert a + ("-" + x) == ("e-" + a + "-" + x)[2..];
    assert b + ("-" + y) == ("e-" + b + "-" + y)[2..];
    SplitAtDash(a, x, b, y);
  }

  lemma NoDash(n: int)
    requires n >= 0
    ensures '-' !in IntToString(n)
  {
    var s := IntToString(n);
    forall i | 0 <= i < |s| ensures s[i] != '-' {
      assert IsDigit(s[i]);
    }
  }

  /** The first dash splits `a-x` uniquely when `a` holds no dash. */
  lemma {:induction false} SplitAtDash(a: string, x: string, b: string, y: string)
    requires '-' !in a && '-' !in b
    requires a + ("-" + x) == b + ("-" + y)
    ensures a == b && x == y
  {
    DashFirst(a, x);
    DashFirst(b, y);
    if a == [] {
      assert b == [];
      assert a + ("-" + x) == "-" + x && b + ("-" + y) == "-" + y;
      assert x == ("-" + x)[1..];
      assert y == ("-" + y)[1..];
    } else {
      assert b != [];
      assert a[0] == b[0] by {
        assert (a + ("-" + x))[0] == a[0];
        assert (b + ("-" + y))[0] == b[0];
      }
      assert a[1..] + ("-" + x) == (a + ("-" + x))[1..];
      assert b[1..] + ("-" + y) == (b + ("-" + y))[1..];
      assert '-' !in a[1..] && '-' !in b[1..];
      SplitAtDash(a[1..], x, b[1..], y);
      assert a == [a[0]] + a[1..] && b == [b[0]] + b[1..];
    }
  }

  /** `a-x` starts with the dash exactly when `a` is empty. */
  lemma DashFirst(a: string, x: string)
    requires '-' !in a
    ensures (a + ("-" + x))[0] == '-' <==> a == []
  {
    if a != [] {
      assert (a + ("-" + x))[0] == a[0];
      assert a[0] in a;
    }
  }

  // ---------------------------------------------------------------------------
  // Layout
  // ---------------------------------------------------------------------------

  /** The top-left corner of a node whose centre the layout engine chose. */
  function TopLeft(centre: Position): (p: Position)
    ensures p.x + NodeWidth / 2.0 == centre.x && p.y + NodeHeight / 2.0 == centre.y
  {
    Position(centre.x - NodeWidth / 2.0, centre.y - NodeHeight / 2.0)
  }

  /** `getLayoutedElements`: overwrites each node's position in place with the
      corner of the centre computed for its id; nothing else about a node
      changes, and the edges are returned as they came. */
  method Layout(nodes: array<Node>, edges: seq<Edge>, centres: map<string, Position>) returns (laidOut: seq<Edge>)
    requires forall i :: 0 <= i < nodes.Length ==> nodes[i].id in centres
    modifies nodes
    ensures laidOut == edges
    ensures forall i :: 0 <= i < nodes.Length ==>
      nodes[i] == old(nodes[i]).(position := TopLeft(centres[old(nodes[i]).id]))
  {
    for i := 0 to nodes.Length
      invariant forall k :: 0 <= k < i ==>
        nodes[k] == old(nodes[k]).(position := TopLeft(centres[old(nodes[k]).id]))
      invariant forall k :: i <= k < nodes.Length ==> nodes[k] == old(nodes[k])
    {
      nodes[i] := nodes[i].(position := TopLeft(centres[nodes[i].id]));
    }
    laidOut := edges;
  }
}
