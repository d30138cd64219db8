/** The memoised depth computation `_max_depth`. */
module DepthFinder {
  import opened TaskGraph

  /** A dependency chain: known tasks, each depending on the next. */
  ghost predicate IsChain(g: Graph, c: seq<Id>) {
    && c != []
    && (forall i :: 0 <= i < |c| ==> c[i] in g)
    && (forall i :: 0 <= i < |c| - 1 ==> Edge(g, c[i], c[i + 1]))
  }

  /** `n` is the number of edges of a longest chain that starts at `task`. */
  ghost predicate IsDepth(g: Graph, task: Id, n: nat) {
    && (exists c :: IsChain(g, c) && c[0] == task && |c| == n + 1)
    && (forall c :: IsChain(g, c) && c[0] == task ==> |c| <= n + 1)
  }

  /** `n` is the number of edges of a longest chain, and 0 when there is no task at all. */
  ghost predicate IsMaxDepth(g: Graph, n: nat) {
    && (n > 0 ==> exists c :: IsChain(g, c) && |c| == n + 1)
    && (forall c :: IsChain(g, c) ==> |c| <= n + 1)
  }

  lemma NoDependencyNoDepth(g: Graph, task: Id)
    requires task in g && forall d :: Edge(g, task, d) ==> d !in g
    ensures IsDepth(g, task, 0)
  {
    assert IsChain(g, [task]);
    forall c | IsChain(g, c) && c[0] == task
      ensures |c| <= 1
    {
      var next := if |c| > 1 then c[1] else task;
      assert |c| > 1 ==> Edge(g, task, next) && next in g;
    }
  }

  lemma DepthFromDependencies(g: Graph, task: Id, best: Id, n: nat, bound: map<Id, nat>)
    requires task in g && Edge(g, task, best) && best in g && IsDepth(g, best, n)
    requires forall d :: Edge(g, task, d) && d in g ==> d in bound && bound[d] <= n && IsDepth(g, d, bound[d])
    ensures IsDepth(g, task, n + 1)
  {
    var c :| IsChain(g, c) && c[0] == best && |c| == n + 1;
    assert IsChain(g, [task] + c);
    forall e | IsChain(g, e) && e[0] == task
      ensures |e| <= n + 2
    {
      if |e| > 1 {
        assert Edge(g, e[0], e[1]) && e[1] in g;
        var rest := e[1..];
        forall i | 0 <= i < |rest| - 1
          ensures Edge(g, rest[i], rest[i + 1])
        {
          assert Edge(g, e[i + 1], e[i + 2]);
        }
        assert IsChain(g, rest) && rest[0] == e[1];
      }
    }
  }

  class DepthSearch {
    const tasks: Graph
    var memo: map<Id, nat>

    ghost predicate Valid()
      reads this
    {
      Acyclic(tasks) ==> forall x :: x in memo ==> IsDepth(tasks, x, memo[x])
    }

    constructor (tasks: Graph)
      ensures Valid() && this.tasks == tasks && memo == map[]
    {
      this.tasks := tasks;
      memo := map[];
    }

    /** On an acyclic graph the guard on `visiting` never fires, and the result is the exact depth. */
    method Depth(task: Id, visiting: set<Id>) returns (result: nat)
      requires Valid() && task in tasks && visiting <= tasks.Keys
      requires forall v :: v in visiting ==> Reaches(tasks, v, task)
      modifies this
      ensures Valid() && forall x :: x in old(memo) ==> x in memo
      ensures Acyclic(tasks) ==> IsDepth(tasks, task, result)
      decreases tasks.Keys - visiting
    {
      if task in memo {
        return memo[task];
      }
      if task in visiting {
        return 0;
      }
      var listed := tasks[task];
      var any, best := false, 0;
      ghost var deepest := task;
      ghost var bound: map<Id, nat> := map[];
      for i := 0 to |listed|
        invariant Valid() && forall x :: x in old(memo) ==> x in memo
        invariant any <==> exists k :: 0 <= k < i && listed[k] in tasks
        invariant any ==> Edge(tasks, task, deepest) && deepest in tasks
        invariant any && Acyclic(tasks) ==> IsDepth(tasks, deepest, best)
        invariant Acyclic(tasks) ==> forall k :: 0 <= k < i && listed[k] in tasks ==> listed[k] in bound
        invariant !any ==> bound == map[]
        invariant forall d :: d in bound ==> bound[d] <= best
        invariant Acyclic(tasks) ==> forall d :: d in bound ==> IsDepth(tasks, d, bound[d])
      {
        if listed[i] in tasks {
          assert Edge(tasks, task, listed[i]);
          EdgeReaches(tasks, task, listed[i]);
          forall v | v in visiting
            ensures Reaches(tasks, v, listed[i])
          {
            ReachesTransitive(tasks, v, task, listed[i]);
          }
          var d := Depth(listed[i], visiting + {task});
          if !any || d > best {
            any, best, deepest := true, d, listed[i];
          }
          bound := bound[listed[i] := d];
        }
      }
      result := if any then 1 + best else 0;
      if Acyclic(tasks) {
        if any {
          DepthFromDependencies(tasks, task, deepest, best, bound);
        } else {
          NoDependencyNoDepth(tasks, task);
        }
      }
      memo := memo[task := result];
    }
  }

  /** `_max_depth`: on an acyclic graph the length, in edges, of the longest dependency chain. */
  method MaxDepth(tasks: Graph, order: seq<Id>) returns (depth: nat)
    requires forall x :: x in order <==> x in tasks
    ensures Acyclic(tasks) ==> IsMaxDepth(tasks, depth)
  {
    var search := new DepthSearch(tasks);
    depth := 0;
    for i := 0 to |order|
      invariant search.Valid() && search.tasks == tasks
      invariant fresh(search)
      invariant Acyclic(tasks) && depth > 0 ==> exists c :: IsChain(tasks, c) && |c| == depth + 1
      invariant Acyclic(tasks) ==>
          forall c, k :: 0 <= k < i && IsChain(tasks, c) && c[0] == order[k] ==> |c| <= depth + 1
    {
      var d := search.Depth(order[i], {});
      if d > depth {
        depth := d;
      }
    }
    if Acyclic(tasks) {
      forall c | IsChain(tasks, c)
        ensures |c| <= depth + 1
      {
        var k :| 0 <= k < |order| && order[k] == c[0];
      }
    }
  }
}
