/** The depth-first search `_find_cycles`, whose nested `visit` updates shared marks, a stack and the result. */
module CycleFinder {
  import opened TaskGraph

  /** The marks 1 and 2 of the search; an absent entry is the mark 0. */
  datatype Mark = Open | Closed

  ghost predicate IsCycle(g: Graph, c: seq<Id>) {
    IsWalk(g, c) && c[0] == c[|c| - 1]
  }

  ghost predicate Distinct<T>(s: seq<T>) {
    forall i, j :: 0 <= i < j < |s| ==> s[i] != s[j]
  }

  lemma DistinctAppend<T>(s: seq<T>, x: T)
    requires Distinct(s) && x !in s
    ensures Distinct(s + [x])
  {
  }

  /** The part of the open path that closes when its last task depends on `path[start]`. */
  lemma StackSegmentIsCycle(g: Graph, path: seq<Id>, start: nat, dependency: Id)
    requires start < |path| && path[start] == dependency
    requires forall i :: 0 <= i < |path| - 1 ==> Edge(g, path[i], path[i + 1])
    requires Edge(g, path[|path| - 1], dependency)
    ensures IsCycle(g, path[start..] + [dependency])
  {
    var c := path[start..] + [dependency];
    forall i | 0 <= i < |c| - 1
      ensures Edge(g, c[i], c[i + 1])
    {
      if i < |c| - 2 {
        assert Edge(g, path[start + i], path[start + i + 1]);
      }
    }
  }

  /** The stack is a path of dependencies through the open tasks. */
  ghost predicate OpenPath(g: Graph, state: map<Id, Mark>, stack: seq<Id>) {
    && Distinct(stack)
    && (forall x :: x in stack <==> x in state && state[x] == Mark.Open)
    && (forall i :: 0 <= i < |stack| - 1 ==> Edge(g, stack[i], stack[i + 1]))
  }

  lemma OpenPathGrows(g: Graph, state: map<Id, Mark>, stack: seq<Id>, task: Id)
    requires OpenPath(g, state, stack) && task !in state
    requires stack != [] ==> Edge(g, stack[|stack| - 1], task)
    ensures OpenPath(g, state[task := Mark.Open], stack + [task])
  {
  }

  lemma OpenPathShrinks(g: Graph, state: map<Id, Mark>, stack: seq<Id>, task: Id)
    requires OpenPath(g, state, stack) && stack != [] && stack[|stack| - 1] == task
    ensures task in state && state[task] == Mark.Open && OpenPath(g, state[task := Closed], stack[..|stack| - 1])
  {
    var rest := stack[..|stack| - 1];
    assert stack == rest + [task];
    assert task in stack;
    forall x
      ensures x in rest <==> x in state[task := Closed] && state[task := Closed][x] == Mark.Open
    {
      assert x in stack <==> x in rest || x == task;
    }
  }

  /** Closing a task whose known dependencies are closed keeps the order of dependencies. */
  lemma OrderGrows(g: Graph, finished: seq<Id>, task: Id)
    requires IsDependencyOrder(g, finished) && task !in finished
    requires forall d :: Edge(g, task, d) && d in g ==> d in finished
    ensures IsDependencyOrder(g, finished + [task])
  {
    var longer := finished + [task];
    forall i, d | 0 <= i < |longer| && Edge(g, longer[i], d) && d in g
      ensures d in longer[..i]
    {
      if i < |finished| {
        assert longer[..i] == finished[..i];
      } else {
        assert longer[..i] == finished;
      }
    }
  }

  /** No mark is lost or changed. */
  ghost predicate Keeps(before: map<Id, Mark>, after: map<Id, Mark>) {
    forall x :: x in before ==> x in after && after[x] == before[x]
  }

  class CycleSearch {
    const tasks: Graph
    var cycles: seq<seq<Id>>
    var state: map<Id, Mark>
    var stack: seq<Id>
    /** The tasks in the order in which their visit ended. */
    ghost var finished: seq<Id>

    ghost predicate Valid()
      reads this
    {
      && (forall x :: x in state ==> x in tasks)
      && OpenPath(tasks, state, stack)
      && Distinct(finished) && (forall x :: x in finished <==> x in state && state[x] == Closed)
      && Distinct(cycles) && (forall c :: c in cycles ==> IsCycle(tasks, c))
      && (cycles == [] ==> IsDependencyOrder(tasks, finished))
    }

    constructor (tasks: Graph)
      ensures Valid() && this.tasks == tasks && state == map[] && stack == [] && cycles == []
    {
      this.tasks := tasks;
      cycles, state, stack, finished := [], map[], [], [];
    }

    method StackIndex(dependency: Id) returns (start: nat)
      requires dependency in stack
      ensures start < |stack| && stack[start] == dependency
      ensures dependency !in stack[..start]
    {
      start := 0;
      while stack[start] != dependency
        invariant start < |stack|
        invariant dependency !in stack[..start]
        invariant exists i :: start <= i < |stack| && stack[i] == dependency
        decreases |stack| - start
      {
        start := start + 1;
      }
    }

    /** Records the cycle that the dependency on an open task closes, unless it is already recorded. */
    method Report(task: Id, dependency: Id)
      requires Valid() && dependency in stack
      requires stack != [] && stack[|stack| - 1] == task && Edge(tasks, task, dependency)
      modifies this`cycles
      ensures Valid() && cycles != [] && old(cycles) <= cycles
    {
      var start := StackIndex(dependency);
      var cycle := stack[start..] + [dependency];
      StackSegmentIsCycle(tasks, stack, start, dependency);
      if cycle !in cycles {
        DistinctAppend(cycles, cycle);
        cycles := cycles + [cycle];
      }
    }

    method Open(task: Id)
      requires Valid() && task in tasks && task !in state
      requires stack != [] ==> Edge(tasks, stack[|stack| - 1], task)
      modifies this`state, this`stack
      ensures Valid() && stack == old(stack) + [task] && state == old(state)[task := Mark.Open]
    {
      OpenPathGrows(tasks, state, stack, task);
      state := state[task := Mark.Open];
      stack := stack + [task];
    }

    /** One listed dependency of the task on top of the stack. */
    method Follow(task: Id, dependency: Id)
      requires Valid() && stack != [] && stack[|stack| - 1] == task && Edge(tasks, task, dependency)
      modifies this
      ensures Valid() && stack == old(stack) && Keeps(old(state), state)
      ensures old(finished) <= finished && old(cycles) <= cycles
      ensures cycles == [] && dependency in tasks ==> dependency in finished
      decreases tasks.Keys - state.Keys, 1
    {
      if dependency in tasks {
        if dependency !in state {
          Visit(dependency);
        } else if state[dependency] == Mark.Open {
          Report(task, dependency);
        }
      }
    }

    /** The loop over the dependencies of the task on top of the stack. */
    method FollowAll(task: Id)
      requires Valid() && stack != [] && stack[|stack| - 1] == task && task in tasks
      modifies this
      ensures Valid() && stack == old(stack) && Keeps(old(state), state)
      ensures old(finished) <= finished && old(cycles) <= cycles
      ensures cycles == [] ==> forall d :: Edge(tasks, task, d) && d in tasks ==> d in finished
      decreases tasks.Keys - state.Keys, 2
    {
      var dependencies := tasks[task];
      for i := 0 to |dependencies|
        invariant Valid() && stack == old(stack) && Keeps(old(state), state)
        invariant old(finished) <= finished && old(cycles) <= cycles
        invariant cycles == [] ==> forall k :: 0 <= k < i && dependencies[k] in tasks ==> dependencies[k] in finished
      {
        Follow(task, dependencies[i]);
      }
    }

    method Visit(task: Id)
      requires Valid() && task in tasks && task !in state
      requires stack != [] ==> Edge(tasks, stack[|stack| - 1], task)
      modifies this
      ensures Valid() && stack == old(stack) && Keeps(old(state), state)
      ensures old(finished) <= finished && old(cycles) <= cycles
      ensures task in state && state[task] == Closed
      decreases tasks.Keys - state.Keys, 0
    {
      Open(task);
      FollowAll(task);
      Close(task);
    }

    method Close(task: Id)
      requires Valid() && stack != [] && stack[|stack| - 1] == task
      requires cycles == [] ==> forall d :: Edge(tasks, task, d) && d in tasks ==> d in finished
      modifies this`state, this`stack, this`finished
      ensures Valid() && stack == old(stack)[..|old(stack)| - 1]
      ensures finished == old(finished) + [task]
      ensures state == old(state)[task := Closed]
    {
      OpenPathShrinks(tasks, state, stack, task);
      if cycles == [] {
        OrderGrows(tasks, finished, task);
      }
      DistinctAppend(finished, task);
      stack := stack[..|stack| - 1];
      state := state[task := Closed];
      finished := finished + [task];
    }

    /** Visits every task in the given order of the task map. */
    method Run(order: seq<Id>)
      requires Valid() && state == map[] && stack == [] && cycles == []
      requires forall x :: x in order <==> x in tasks
      modifies this
      ensures Valid()
      ensures forall c :: c in cycles ==> IsCycle(tasks, c)
      ensures cycles == [] <==> Acyclic(tasks)
      ensures forall x :: x in tasks <==> x in finished
      ensures cycles == [] ==> IsDependencyOrder(tasks, finished)
    {
      for i := 0 to |order|
        invariant Valid() && stack == []
        invariant forall k :: 0 <= k < i ==> order[k] in finished
      {
        if order[i] !in state {
          Visit(order[i]);
        } else {
          assert order[i] !in stack;
        }
      }
      if cycles == [] {
        DependencyOrderIsAcyclic(tasks, finished);
      } else {
        var c := cycles[0];
        assert c in cycles;
        assert WalkBetween(tasks, c, c[0], c[0]);
        assert Reaches(tasks, c[0], c[0]);
      }
    }
  }

  /** `_find_cycles`: the reported lists are closed dependency walks, none is reported twice, and the
      list is empty exactly when the graph on the known tasks is acyclic. */
  method FindCycles(tasks: Graph, order: seq<Id>) returns (cycles: seq<seq<Id>>)
    requires forall x :: x in order <==> x in tasks
    ensures cycles == [] <==> Acyclic(tasks)
    ensures forall c :: c in cycles ==> IsCycle(tasks, c)
    ensures Distinct(cycles)
  {
    var search := new CycleSearch(tasks);
    search.Run(order);
    cycles := search.cycles;
  }
}
