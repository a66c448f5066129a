/** The backend's `has_circular_dependency`: a depth-first search over the
    dependency relation whose `visited` set is shared by all branches of the
    search. It answers True as soon as it meets an id it has already visited,
    so besides a path leading back to the start it also reports two different
    paths meeting at the same task. */
module CircularCheck {

  /** The dependency relation: each task id mapped to the ids it depends on, in
      the order the database lists them. */
  type Graph = map<int, seq<int>>

  /** Every dependency names a task of the graph, and no task lists the same
      dependency twice (a many-to-many relation holds each pair once). */
  ghost predicate WellFormed(g: Graph) {
    && (forall x, d :: x in g && d in g[x] ==> d in g)
    && (forall x, i, j :: x in g && 0 <= i < j < |g[x]| ==> g[x][i] != g[x][j])
  }

  function Elems(s: seq<int>): set<int> {
    set x | x in s
  }

  /** A path along dependencies: each id depends on the one before it. */
  ghost predicate IsWalk(g: Graph, p: seq<int>) {
    && |p| > 0
    && (forall k :: 0 <= k < |p| ==> p[k] in g)
    && (forall k :: 0 <= k < |p| - 1 ==> p[k + 1] in g[p[k]])
  }

  ghost predicate WalkFrom(g: Graph, p: seq<int>, v: int) {
    IsWalk(g, p) && p[0] == v
  }

  function Last(p: seq<int>): int
    requires |p| > 0
  {
    p[|p| - 1]
  }

  /** What the search reports: starting at `v` with `visited` already marked,
      it re-enters an id. Either a path from `v` ends at a marked id, or two
      different paths from `v` end at the same id (the first to arrive marks
      it, the second finds it marked). A path from `v` back to `v` is the
      second case, with the one-element path `[v]`. */
  ghost predicate Reentry(g: Graph, v: int, visited: set<int>) {
    || (exists p :: WalkFrom(g, p, v) && Last(p) in visited)
    || (exists p, q :: WalkFrom(g, p, v) && WalkFrom(g, q, v) && p != q && Last(p) == Last(q))
  }

  /** The ids a path from `v` can reach. */
  ghost function Reach(g: Graph, v: int): set<int> {
    set u | u in g.Keys && exists p :: WalkFrom(g, p, v) && Last(p) == u
  }

  ghost function ReachSet(g: Graph, ds: set<int>): set<int> {
    set u | u in g.Keys && exists d :: d in ds && u in Reach(g, d)
  }

  /** No re-entry along the paths from `v` whose second id is in `done`. */
  ghost predicate NoReentryVia(g: Graph, v: int, visited: set<int>, done: set<int>) {
    && (forall p :: WalkFrom(g, p, v) && |p| > 1 && p[1] in done ==> Last(p) !in visited && Last(p) != v)
    && (forall p, q ::
          WalkFrom(g, p, v) && WalkFrom(g, q, v) && |p| > 1 && |q| > 1 && p[1] in done && q[1] in done && p != q
          ==> Last(p) != Last(q))
  }

  /** `has_circular_dependency(task, visited)`. On False, `visited'` holds the marked ids plus every id
      reachable from `v`; on True the caller stops and `visited'` is not used. */
  method HasCircularDependency(g: Graph, v: int, visited: set<int>) returns (found: bool, visited': set<int>)
    requires WellFormed(g) && v in g
    ensures found <==> Reentry(g, v, visited)
    ensures !found ==> visited' == visited + Reach(g, v)
    decreases g.Keys - visited
  {
    if v in visited {
      MarkedStartReenters(g, v, visited);
      return true, visited;
    }
    visited' := visited + {v};
    var deps := g[v];
    ghost var done: set<int> := {};
    for i := 0 to |deps|
      invariant done == Elems(deps[..i])
      invariant visited' == visited + {v} + ReachSet(g, done)
      invariant NoReentryVia(g, v, visited, done)
    {
      var d := deps[i];
      assert d !in done by {
        forall j | 0 <= j < i ensures deps[j] != d {
        }
      }
      assert g.Keys - visited' < g.Keys - visited by {
        assert v in g.Keys - visited && v !in g.Keys - visited';
      }
      var f;
      f, visited' := HasCircularDependency(g, d, visited');
      if f {
        ReentryThroughDependency(g, v, visited, done, d);
        return true, visited';
      }
      NoReentryThroughDependency(g, v, visited, done, d);
      ReachSetAdd(g, done, d);
      done := done + {d};
      assert deps[..i + 1] == deps[..i] + [d];
    }
    assert deps[..|deps|] == deps;
    NoReentryAtAll(g, v, visited);
    ReachUnfold(g, v);
    found := false;
  }

  /** The search from the start of a check: nothing is marked yet. */
  method HasCircular(g: Graph, v: int) returns (found: bool)
    requires WellFormed(g) && v in g
    ensures found <==> exists p, q :: WalkFrom(g, p, v) && WalkFrom(g, q, v) && p != q && Last(p) == Last(q)
  {
    var marked;
    found, marked := HasCircularDependency(g, v, {});
  }

  // ---------------------------------------------------------------------------
  // Proof steps of the search
  // ---------------------------------------------------------------------------

  lemma MarkedStartReenters(g: Graph, v: int, visited: set<int>)
    requires v in g && v in visited
    ensures Reentry(g, v, visited)
  {
    assert WalkFrom(g, [v], v) && Last([v]) in visited;
  }

  lemma Prepend(g: Graph, v: int, p: seq<int>)
    requires v in g && |p| > 0 && p[0] in g[v] && IsWalk(g, p)
    ensures WalkFrom(g, [v] + p, v) && Last([v] + p) == Last(p) && ([v] + p)[1..] == p
  {
    var w := [v] + p;
    forall k | 0 <= k < |w| - 1 ensures w[k + 1] in g[w[k]] {
      if k > 0 {
        assert w[k] == p[k - 1] && w[k + 1] == p[k];
      }
    }
  }

  lemma Tail(g: Graph, v: int, p: seq<int>)
    requires WalkFrom(g, p, v) && |p| > 1
    ensures WalkFrom(g, p[1..], p[1]) && p[1] in g[v] && Last(p[1..]) == Last(p)
  {
    var t := p[1..];
    forall k | 0 <= k < |t| - 1 ensures t[k + 1] in g[t[k]] {
      assert t[k] == p[k + 1] && t[k + 1] == p[k + 2];
    }
  }

  lemma WalkStep(g: Graph, p: seq<int>, k: int)
    requires IsWalk(g, p) && 0 <= k < |p| - 1
    ensures p[k] in g && p[k + 1] in g[p[k]]
  {
  }

  lemma InReach(g: Graph, d: int, p: seq<int>)
    requires WalkFrom(g, p, d)
    ensures Last(p) in Reach(g, d)
  {
  }

  /** A re-entry found below dependency `d` is a re-entry from `v`. */
  lemma ReentryThroughDependency(g: Graph, v: int, visited: set<int>, done: set<int>, d: int)
    requires v in g && v !in visited && d in g[v] && d !in done && done <= Elems(g[v])
    requires Reentry(g, d, visited + {v} + ReachSet(g, done))
    ensures Reentry(g, v, visited)
  {
    var marked := visited + {v} + ReachSet(g, done);
    if p :| WalkFrom(g, p, d) && Last(p) in marked {
      Prepend(g, v, p);
      var vp := [v] + p;
      if Last(p) in visited {
        assert WalkFrom(g, vp, v) && Last(vp) in visited;
      } else if Last(p) == v {
        assert WalkFrom(g, [v], v) && vp != [v] && Last(vp) == Last([v]);
      } else {
        var d' :| d' in done && Last(p) in Reach(g, d');
        var q :| WalkFrom(g, q, d') && Last(q) == Last(p);
        Prepend(g, v, q);
        var vq := [v] + q;
        assert vp[1] != vq[1];
        assert WalkFrom(g, vp, v) && WalkFrom(g, vq, v) && vp != vq && Last(vp) == Last(vq);
      }
    } else {
      var p, q :| WalkFrom(g, p, d) && WalkFrom(g, q, d) && p != q && Last(p) == Last(q);
      Prepend(g, v, p);
      Prepend(g, v, q);
      assert ([v] + p)[1..] != ([v] + q)[1..];
      assert WalkFrom(g, [v] + p, v) && WalkFrom(g, [v] + q, v) && [v] + p != [v] + q;
    }
  }

  /** No re-entry below `d` extends the paths already cleared by `d`'s paths. */
  lemma NoReentryThroughDependency(g: Graph, v: int, visited: set<int>, done: set<int>, d: int)
    requires v in g && v !in visited && d in g[v] && d !in done
    requires NoReentryVia(g, v, visited, done)
    requires !Reentry(g, d, visited + {v} + ReachSet(g, done))
    ensures NoReentryVia(g, v, visited, done + {d})
  {
    var marked := visited + {v} + ReachSet(g, done);
    forall p | WalkFrom(g, p, v) && |p| > 1 && p[1] in done + {d}
      ensures Last(p) !in visited && Last(p) != v
    {
      if p[1] == d {
        Tail(g, v, p);
        assert Last(p[1..]) !in marked;
      }
    }
    forall p, q | WalkFrom(g, p, v) && WalkFrom(g, q, v) && |p| > 1 && |q| > 1
                  && p[1] in done + {d} && q[1] in done + {d} && p != q
      ensures Last(p) != Last(q)
    {
      Tail(g, v, p);
      Tail(g, v, q);
      if p[1] == d && q[1] == d {
        assert p == [v] + p[1..] && q == [v] + q[1..];
        assert p[1..] != q[1..];
      } else if p[1] == d {
        InReach(g, q[1], q[1..]);
        assert Last(q) in marked;
        assert Last(p[1..]) !in marked;
      } else if q[1] == d {
        InReach(g, p[1], p[1..]);
        assert Last(p) in marked;
        assert Last(q[1..]) !in marked;
      }
    }
  }

  /** Once every dependency is cleared, there is no re-entry from `v`. */
  lemma NoReentryAtAll(g: Graph, v: int, visited: set<int>)
    requires v in g && v !in visited
    requires NoReentryVia(g, v, visited, Elems(g[v]))
    ensures !Reentry(g, v, visited)
  {
    forall p | WalkFrom(g, p, v) ensures Last(p) !in visited {
      if |p| > 1 {
        Tail(g, v, p);
      }
    }
    forall p, q | WalkFrom(g, p, v) && WalkFrom(g, q, v) && p != q ensures Last(p) != Last(q) {
      if |p| > 1 {
        Tail(g, v, p);
      }
      if |q| > 1 {
        Tail(g, v, q);
      }
    }
  }

  lemma ReachSetAdd(g: Graph, ds: set<int>, d: int)
    ensures ReachSet(g, ds + {d}) == ReachSet(g, ds) + Reach(g, d)
  {
  }

  /** What `v` reaches is `v` and what its dependencies reach. */
  lemma ReachUnfold(g: Graph, v: int)
    requires v in g
    ensures Reach(g, v) == {v} + ReachSet(g, Elems(g[v]))
  {
    forall u | u in Reach(g, v) ensures u in {v} + ReachSet(g, Elems(g[v])) {
      var p :| WalkFrom(g, p, v) && Last(p) == u;
      if |p| > 1 {
        Tail(g, v, p);
        InReach(g, p[1], p[1..]);
      }
    }
    assert WalkFrom(g, [v], v);
    forall u | u in ReachSet(g, Elems(g[v])) ensures u in Reach(g, v) {
      var d :| d in g[v] && u in Reach(g, d);
      var p :| WalkFrom(g, p, d) && Last(p) == u;
      Prepend(g, v, p);
    }
  }

  // ---------------------------------------------------------------------------
  // What the answer means
  // ---------------------------------------------------------------------------

  /** A dependency path that leads back to the starting task is reported. */
  lemma CycleIsReported(g: Graph, v: int, p: seq<int>)
    requires WalkFrom(g, p, v) && |p| > 1 && Last(p) == v
    ensures Reentry(g, v, {})
  {
    assert WalkFrom(g, [v], v) && [v] != p && Last([v]) == Last(p);
  }

  /** Two dependencies that both depend on one task: no cycle, yet the second
      branch finds the shared task already visited. */
  lemma DiamondIsReported()
    ensures Reentry(map[1 := [2, 3], 2 := [4], 3 := [4], 4 := []], 1, {})
  {
    var g: Graph := map[1 := [2, 3], 2 := [4], 3 := [4], 4 := []];
    assert WalkFrom(g, [1, 2, 4], 1) && WalkFrom(g, [1, 3, 4], 1);
  }

  /** A plain chain is not reported. */
  lemma ChainIsNotReported()
    ensures !Reentry(map[1 := [2], 2 := []], 1, {})
  {
    var g: Graph := map[1 := [2], 2 := []];
    forall p | WalkFrom(g, p, 1) ensures p == [1] || p == [1, 2] {
      if |p| > 1 {
        assert p[1] == 2;
        if |p| > 2 {
          WalkStep(g, p, 1);
          assert false;
        }
        assert p == [1, 2];
      }
    }
  }
}
