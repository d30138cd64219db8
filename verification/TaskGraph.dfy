/** The dependency graph behind a task map: walks, reachability and acyclicity,
    and the recursive reachability test `_depends_on`. */
module TaskGraph {
  type Id = string

  /** For every known task the ids it lists under `depends_on`.  A listed id need not be known. */
  type Graph = map<Id, seq<Id>>

  predicate Edge(g: Graph, a: Id, b: Id) {
    a in g && b in g[a]
  }

  /** A dependency walk with at least one edge.  Every node but the last is a known task. */
  ghost predicate IsWalk(g: Graph, w: seq<Id>) {
    |w| >= 2 && forall i :: 0 <= i < |w| - 1 ==> Edge(g, w[i], w[i + 1])
  }

  ghost predicate WalkBetween(g: Graph, w: seq<Id>, a: Id, b: Id) {
    IsWalk(g, w) && w[0] == a && w[|w| - 1] == b
  }

  /** `a` depends on `b`, directly or through known tasks. */
  ghost predicate Reaches(g: Graph, a: Id, b: Id) {
    exists w :: WalkBetween(g, w, a, b)
  }

  ghost predicate Acyclic(g: Graph) {
    forall a :: !Reaches(g, a, a)
  }

  lemma EdgeReaches(g: Graph, a: Id, b: Id)
    requires Edge(g, a, b)
    ensures Reaches(g, a, b)
  {
    assert WalkBetween(g, [a, b], a, b);
  }

  lemma WalkJoin(g: Graph, v: seq<Id>, w: seq<Id>)
    requires IsWalk(g, v) && IsWalk(g, w) && v[|v| - 1] == w[0]
    ensures IsWalk(g, v + w[1..])
  {
    var u := v + w[1..];
    forall i | 0 <= i < |u| - 1
      ensures Edge(g, u[i], u[i + 1])
    {
      if i >= |v| - 1 {
        assert u[i] == w[i - |v| + 1];
        assert u[i + 1] == w[i - |v| + 2];
      }
    }
  }

  lemma ReachesTransitive(g: Graph, a: Id, b: Id, c: Id)
    requires Reaches(g, a, b) && Reaches(g, b, c)
    ensures Reaches(g, a, c)
  {
    var v :| WalkBetween(g, v, a, b);
    var w :| WalkBetween(g, w, b, c);
    WalkJoin(g, v, w);
    assert WalkBetween(g, v + w[1..], a, c);
  }

  /** The reachability test of the validator.  It passes a copy of the visited set down every
      branch, so it explores only paths that never come back to a task on the current path. */
  predicate DependsOn(task: Id, dependency: Id, g: Graph, seen: set<Id>)
    decreases g.Keys - seen
  {
    if task in seen || task !in g then false
    else if dependency in g[task] then true
    else exists i | 0 <= i < |g[task]| ::
      g[task][i] in g && DependsOn(g[task][i], dependency, g, seen + {task})
  }

  lemma {:induction false} DependsOnHasWalk(task: Id, dependency: Id, g: Graph, seen: set<Id>) returns (w: seq<Id>)
    requires DependsOn(task, dependency, g, seen)
    ensures WalkBetween(g, w, task, dependency)
    decreases g.Keys - seen
  {
    if dependency in g[task] {
      w := [task, dependency];
    } else {
      var i :| 0 <= i < |g[task]| && g[task][i] in g && DependsOn(g[task][i], dependency, g, seen + {task});
      var v := DependsOnHasWalk(g[task][i], dependency, g, seen + {task});
      w := [task] + v;
    }
  }

  ghost predicate Avoids(w: seq<Id>, seen: set<Id>) {
    forall i :: 0 <= i < |w| - 1 ==> w[i] !in seen
  }

  /** The last place, before the end of the walk, where the walk stands on its first node. */
  lemma LastVisit(w: seq<Id>) returns (k: nat)
    requires |w| >= 2
    ensures k < |w| - 1 && w[k] == w[0]
    ensures forall i :: k < i < |w| - 1 ==> w[i] != w[0]
  {
    k := |w| - 2;
    while w[k] != w[0]
      invariant k < |w| - 1
      invariant forall i :: k < i < |w| - 1 ==> w[i] != w[0]
      decreases k
    {
      k := k - 1;
    }
  }

  /** Any walk around `seen` is found, although the search never revisits a task: cutting the walk
      at the last visit of its first node leaves a walk that avoids that node as well. */
  lemma {:induction false} WalkIsFound(w: seq<Id>, g: Graph, seen: set<Id>)
    requires IsWalk(g, w) && Avoids(w, seen)
    ensures DependsOn(w[0], w[|w| - 1], g, seen)
    decreases |w|
  {
    var task, dependency := w[0], w[|w| - 1];
    assert Edge(g, w[0], w[1]);
    var k := LastVisit(w);
    if dependency !in g[task] {
      var v := w[k + 1..];
      assert Edge(g, w[k], w[k + 1]);
      assert |v| >= 2;
      forall i | 0 <= i < |v| - 1
        ensures Edge(g, v[i], v[i + 1]) && v[i] !in seen + {task}
      {
        assert Edge(g, w[k + 1 + i], w[k + 1 + i + 1]);
      }
      WalkIsFound(v, g, seen + {task});
      var i :| 0 <= i < |g[task]| && g[task][i] == v[0];
      assert g[task][i] in g && DependsOn(g[task][i], dependency, g, seen + {task});
    }
  }

  /** `_depends_on` is exactly the transitive closure of the edges, on cyclic graphs too. */
  lemma DependsOnIsReachability(task: Id, dependency: Id, g: Graph)
    ensures DependsOn(task, dependency, g, {}) <==> Reaches(g, task, dependency)
  {
    if DependsOn(task, dependency, g, {}) {
      var w := DependsOnHasWalk(task, dependency, g, {});
    }
    if Reaches(g, task, dependency) {
      var w :| WalkBetween(g, w, task, dependency);
      WalkIsFound(w, g, {});
    }
  }

  /** In an acyclic graph every non-empty set of known tasks has a member that depends on no other member. */
  lemma {:induction false} HasSource(g: Graph, candidates: set<Id>) returns (m: Id)
    requires Acyclic(g) && candidates != {}
    ensures m in candidates
    ensures forall d :: d in candidates ==> !Reaches(g, m, d)
    decreases candidates
  {
    var x :| x in candidates;
    var below := set y | y in candidates && Reaches(g, x, y);
    if below == {} {
      m := x;
      assert forall d :: d in candidates ==> d !in below;
    } else {
      assert x !in below;
      m := HasSource(g, below);
      forall d | d in candidates
        ensures !Reaches(g, m, d)
      {
        if Reaches(g, m, d) {
          ReachesTransitive(g, x, m, d);
        }
      }
    }
  }

  /** Every known dependency of a listed task is listed before it. */
  ghost predicate IsDependencyOrder(g: Graph, order: seq<Id>) {
    forall i, d :: 0 <= i < |order| && Edge(g, order[i], d) && d in g ==> d in order[..i]
  }

  lemma {:induction false} OrderedWalkDescends(g: Graph, order: seq<Id>, w: seq<Id>, i: nat) returns (j: nat)
    requires IsDependencyOrder(g, order) && IsWalk(g, w)
    requires forall k :: 0 <= k < |w| ==> w[k] in g
    requires i < |order| && order[i] == w[0]
    ensures j < i && order[j] == w[|w| - 1]
    decreases |w|
  {
    assert Edge(g, order[i], w[1]);
    j :| 0 <= j < i && order[j] == w[1];
    if |w| > 2 {
      var v := w[1..];
      forall k | 0 <= k < |v| - 1
        ensures Edge(g, v[k], v[k + 1])
      {
        assert Edge(g, w[k + 1], w[k + 2]);
      }
      j := OrderedWalkDescends(g, order, v, j);
    }
  }

  lemma ClosedWalkIsKnown(g: Graph, w: seq<Id>)
    requires IsWalk(g, w) && w[0] == w[|w| - 1]
    ensures forall k :: 0 <= k < |w| ==> w[k] in g
  {
    forall k | 0 <= k < |w|
      ensures w[k] in g
    {
      if k < |w| - 1 {
        assert Edge(g, w[k], w[k + 1]);
      } else {
        assert Edge(g, w[0], w[1]);
      }
    }
  }

  lemma ClosedWalkRepeats(g: Graph, order: seq<Id>, w: seq<Id>, i: nat)
    requires IsDependencyOrder(g, order) && IsWalk(g, w) && w[0] == w[|w| - 1]
    requires i < |order| && order[i] == w[0]
    ensures false
    decreases i
  {
    ClosedWalkIsKnown(g, w);
    var j := OrderedWalkDescends(g, order, w, i);
    ClosedWalkRepeats(g, order, w, j);
  }

  /** A dependency order of all known tasks rules out every cycle. */
  lemma DependencyOrderIsAcyclic(g: Graph, order: seq<Id>)
    requires IsDependencyOrder(g, order)
    requires forall x :: x in g ==> x in order
    ensures Acyclic(g)
  {
    forall a
      ensures !Reaches(g, a, a)
    {
      if Reaches(g, a, a) {
        var w :| WalkBetween(g, w, a, a);
        ClosedWalkIsKnown(g, w);
        var i :| 0 <= i < |order| && order[i] == w[0];
        ClosedWalkRepeats(g, order, w, i);
      }
    }
  }
}
