/** The wave scheduler `ready_tasks`, and what it returns for an admitted manifest. */
module Scheduler {
  import opened TaskGraph
  import opened PathPatterns
  import opened Manifest
  import opened Options

  /** What the scheduler answers, or the lookup error of a dependency outside the task table. */
  datatype Answer =
    | Schedule(wave: Option<int>, taskIds: seq<Id>, capacity: int, complete: bool)
    | MissingDependency(id: Id)

  // ---- The task table as a dictionary ----

  /** Sets the entry of a dictionary: the place of an existing key, or a new last place. */
  function SetEntry(table: seq<Task>, task: Task): seq<Task> {
    if table == [] then [task]
    else if table[0].id == task.id then [task] + table[1..]
    else [table[0]] + SetEntry(table[1..], task)
  }

  /** `_task_map`: a later task with the same id replaces an earlier one; blank ids are skipped. */
  function TaskTable(ts: seq<Task>): seq<Task> {
    if ts == [] then []
    else
      var last := ts[|ts| - 1];
      var table := TaskTable(ts[..|ts| - 1]);
      if Blank(last.id) then table else SetEntry(table, last)
  }

  lemma {:induction false} NewEntryIsLast(table: seq<Task>, task: Task)
    requires !HasId(table, task.id)
    ensures SetEntry(table, task) == table + [task]
  {
    if table != [] {
      assert forall i :: 0 <= i < |table[1..]| ==> table[1..][i] == table[i + 1];
      NewEntryIsLast(table[1..], task);
    }
  }

  lemma {:induction false} TableOfDistinctTasks(ts: seq<Task>)
    requires FieldRules(ts)
    ensures TaskTable(ts) == ts
  {
    if ts != [] {
      var front, last := ts[..|ts| - 1], ts[|ts| - 1];
      forall task | task in front
        ensures ValidFields(task)
      {
        assert task in ts;
      }
      TableOfDistinctTasks(front);
      assert ValidFields(last);
      assert last.id[0] != ' ' && !IsSpace(last.id[0]) by {
        assert StableId(last.id);
        assert Upper(last.id[0]);
      }
      NewEntryIsLast(front, last);
      assert ts == front + [last];
    }
  }

  // ---- Comprehensions of the scheduler ----

  function Unfinished(ts: seq<Task>): (r: seq<Task>)
    ensures forall x :: x in r <==> x in ts && !x.status.Done()
  {
    if ts == [] then [] else (if ts[0].status.Done() then [] else [ts[0]]) + Unfinished(ts[1..])
  }

  function InWave(ts: seq<Task>, wave: int): (r: seq<Task>)
    ensures forall x :: x in r <==> x in ts && x.wave == wave
  {
    if ts == [] then [] else (if ts[0].wave == wave then [ts[0]] else []) + InWave(ts[1..], wave)
  }

  function ActiveIn(ts: seq<Task>): (r: seq<Task>)
    ensures forall x :: x in r <==> x in ts && x.status.Active()
  {
    if ts == [] then [] else (if ts[0].status.Active() then [ts[0]] else []) + ActiveIn(ts[1..])
  }

  function LeastWave(ts: seq<Task>): (w: int)
    requires ts != []
    ensures forall x :: x in ts ==> w <= x.wave
    ensures exists x :: x in ts && x.wave == w
  {
    if |ts| == 1 then ts[0].wave
    else
      var rest := LeastWave(ts[1..]);
      assert ts == [ts[0]] + ts[1..];
      if ts[0].wave <= rest then ts[0].wave else rest
  }

  function Ids(ts: seq<Task>): (r: seq<Id>)
    ensures |r| == |ts| && forall i :: 0 <= i < |ts| ==> r[i] == ts[i].id
  {
    seq(|ts|, i requires 0 <= i < |ts| => ts[i].id)
  }

  // ---- Sorting by id ----

  predicate IdLeq(a: Id, b: Id) {
    if a == "" then true
    else if b == "" then false
    else a[0] < b[0] || (a[0] == b[0] && IdLeq(a[1..], b[1..]))
  }

  lemma {:induction false} IdLeqTotal(a: Id, b: Id)
    ensures IdLeq(a, b) || IdLeq(b, a)
    ensures IdLeq(a, b) && IdLeq(b, a) ==> a == b
  {
    if a != "" && b != "" && a[0] == b[0] {
      IdLeqTotal(a[1..], b[1..]);
      assert a == [a[0]] + a[1..] && b == [b[0]] + b[1..];
    }
  }

  lemma {:induction false} IdLeqTransitive(a: Id, b: Id, c: Id)
    requires IdLeq(a, b) && IdLeq(b, c)
    ensures IdLeq(a, c)
  {
    if a != "" && c != "" && a[0] == c[0] {
      IdLeqTransitive(a[1..], b[1..], c[1..]);
    }
  }

  function InsertById(task: Task, sorted: seq<Task>): (r: seq<Task>)
    ensures multiset(r) == multiset{task} + multiset(sorted)
  {
    if sorted == [] || IdLeq(task.id, sorted[0].id) then [task] + sorted
    else
      assert sorted == [sorted[0]] + sorted[1..];
      [sorted[0]] + InsertById(task, sorted[1..])
  }

  function SortById(ts: seq<Task>): (r: seq<Task>)
    ensures multiset(r) == multiset(ts)
  {
    if ts == [] then []
    else
      assert ts == [ts[0]] + ts[1..];
      InsertById(ts[0], SortById(ts[1..]))
  }

  ghost predicate SortedById(ts: seq<Task>) {
    forall i, j :: 0 <= i < j < |ts| ==> IdLeq(ts[i].id, ts[j].id)
  }

  lemma {:induction false} InsertKeepsOrder(task: Task, sorted: seq<Task>)
    requires SortedById(sorted)
    ensures SortedById(InsertById(task, sorted))
  {
    if sorted == [] {
    } else if IdLeq(task.id, sorted[0].id) {
      forall j | 0 <= j < |sorted|
        ensures IdLeq(task.id, sorted[j].id)
      {
        if j > 0 {
          IdLeqTransitive(task.id, sorted[0].id, sorted[j].id);
        }
      }
    } else {
      InsertKeepsOrder(task, sorted[1..]);
      IdLeqTotal(task.id, sorted[0].id);
      var rest := InsertById(task, sorted[1..]);
      forall j | 0 <= j < |rest|
        ensures IdLeq(sorted[0].id, rest[j].id)
      {
        assert rest[j] in multiset(rest);
        assert rest[j] == task || rest[j] in sorted[1..];
      }
    }
  }

  /** Sorting orders the tasks by id and neither loses nor invents one. */
  lemma {:induction false} SortIsSorted(ts: seq<Task>)
    ensures SortedById(SortById(ts))
    ensures multiset(SortById(ts)) == multiset(ts)
  {
    if ts != [] {
      SortIsSorted(ts[1..]);
      InsertKeepsOrder(ts[0], SortById(ts[1..]));
    }
  }

  lemma SortKeepsMembers(ts: seq<Task>)
    ensures forall x :: x in SortById(ts) <==> x in ts
  {
    forall x
      ensures x in SortById(ts) <==> x in ts
    {
      assert x in multiset(SortById(ts)) <==> x in multiset(ts);
    }
  }

  // ---- The selection loop ----

  datatype Pending = Waits(yes: bool) | NoSuchTask(id: Id)

  /** The lazy test whether some listed dependency is not done; it stops at the first such dependency
      and fails on an id outside the table if it gets that far. */
  function DependenciesPending(table: seq<Task>, dependencies: seq<Id>): Pending {
    if dependencies == [] then Waits(false)
    else if !HasId(table, dependencies[0]) then NoSuchTask(dependencies[0])
    else if !Get(table, dependencies[0]).status.Done() then Waits(true)
    else DependenciesPending(table, dependencies[1..])
  }

  predicate OverlapsSome(t: Text, task: Task, occupied: seq<Task>) {
    exists i :: 0 <= i < |occupied| && OwnershipOverlap(t, task, occupied[i])
  }

  datatype Selection = Selected(tasks: seq<Task>) | Missing(id: Id)

  /** What the loop over the sorted tasks of the wave has selected when it stops. */
  function Select(t: Text, table: seq<Task>, candidates: seq<Task>, active: seq<Task>, selected: seq<Task>,
                  capacity: int): Selection {
    if candidates == [] then Selected(selected)
    else
      var task, rest := candidates[0], candidates[1..];
      if !task.status.Dispatchable() then Select(t, table, rest, active, selected, capacity)
      else match DependenciesPending(table, task.dependsOn)
        case NoSuchTask(id) => Missing(id)
        case Waits(pending) =>
          if pending || OverlapsSome(t, task, active + selected) then Select(t, table, rest, active, selected, capacity)
          else if |selected| + 1 >= capacity then Selected(selected + [task])
          else Select(t, table, rest, active, selected + [task], capacity)
  }

  function Concurrency(m: Manifest, limit: Option<int>, wave: int): int {
    if wave == 0 || wave == 2 then 1 else if limit.Some? then limit.value else m.maxConcurrency
  }

  /** The scheduler's answer as a function of the manifest and the limit. */
  function ReadyAnswer(t: Text, m: Manifest, limit: Option<int>): Answer {
    var table := TaskTable(m.tasks);
    var unfinished := Unfinished(table);
    if unfinished == [] then Schedule(None, [], 0, true)
    else
      var wave := LeastWave(unfinished);
      var waveTasks := InWave(unfinished, wave);
      var active := ActiveIn(waveTasks);
      var room := Concurrency(m, limit, wave) - |active|;
      if room <= 0 then Schedule(Some(wave), [], 0, false)
      else match Select(t, table, SortById(waveTasks), active, [], room)
        case Missing(id) => MissingDependency(id)
        case Selected(tasks) => Schedule(Some(wave), Ids(tasks), room, false)
  }

  /** One turn of the selection loop. */
  lemma SelectTurn(t: Text, table: seq<Task>, candidates: seq<Task>, i: nat, active: seq<Task>, selected: seq<Task>,
                   capacity: int)
    requires i < |candidates|
    ensures var task, rest := candidates[i], candidates[i + 1..];
      Select(t, table, candidates[i..], active, selected, capacity) ==
        if !task.status.Dispatchable() then Select(t, table, rest, active, selected, capacity)
        else match DependenciesPending(table, task.dependsOn)
          case NoSuchTask(id) => Missing(id)
          case Waits(pending) =>
            if pending || OverlapsSome(t, task, active + selected)
                then Select(t, table, rest, active, selected, capacity)
            else if |selected| + 1 >= capacity then Selected(selected + [task])
            else Select(t, table, rest, active, selected + [task], capacity)
  {
    assert candidates[i..][0] == candidates[i] && candidates[i..][1..] == candidates[i + 1..];
  }

  /** The loop over the sorted tasks of the wave. */
  method SelectReady(t: Text, table: seq<Task>, candidates: seq<Task>, active: seq<Task>, capacity: int)
    returns (selection: Selection)
    ensures selection == Select(t, table, candidates, active, [], capacity)
  {
    var selected: seq<Task> := [];
    ghost var whole := Select(t, table, candidates, active, [], capacity);
    assert candidates[0..] == candidates;
    for i := 0 to |candidates|
      invariant Select(t, table, candidates[i..], active, selected, capacity) == whole
    {
      SelectTurn(t, table, candidates, i, active, selected, capacity);
      var task := candidates[i];
      if task.status.Dispatchable() {
        var pending := DependenciesPending(table, task.dependsOn);
        if pending.NoSuchTask? {
          return Missing(pending.id);
        }
        if !pending.yes && !OverlapsSome(t, task, active + selected) {
          selected := selected + [task];
          if |selected| >= capacity {
            return Selected(selected);
          }
        }
      }
    }
    return Selected(selected);
  }

  /** `ready_tasks`. */
  method ReadyTasks(t: Text, m: Manifest, limit: Option<int>) returns (answer: Answer)
    ensures answer == ReadyAnswer(t, m, limit)
  {
    var table := TaskTable(m.tasks);
    var unfinished := Unfinished(table);
    if unfinished == [] {
      return Schedule(None, [], 0, true);
    }
    var wave := LeastWave(unfinished);
    var waveTasks := InWave(unfinished, wave);
    var active := ActiveIn(waveTasks);
    var room := Concurrency(m, limit, wave) - |active|;
    var capacity := if room < 0 then 0 else room;
    if capacity == 0 {
      return Schedule(Some(wave), [], 0, false);
    }
    var selection := SelectReady(t, table, SortById(waveTasks), active, capacity);
    match selection {
      case Missing(id) => answer := MissingDependency(id);
      case Selected(tasks) => answer := Schedule(Some(wave), Ids(tasks), capacity, false);
    }
  }

  // ---- What the answer is for an admitted manifest ----

  /** All listed dependencies are known and done. */
  predicate DependenciesDone(ts: seq<Task>, task: Task) {
    forall i :: 0 <= i < |task.dependsOn| ==>
      HasId(ts, task.dependsOn[i]) && Get(ts, task.dependsOn[i]).status.Done()
  }

  /** The unfinished tasks of the current wave that may be dispatched as far as their own status and
      their dependencies are concerned, in id order. */
  function Eligible(ts: seq<Task>, candidates: seq<Task>): (r: seq<Task>)
    ensures forall x :: x in r <==> x in candidates && x.status.Dispatchable() && DependenciesDone(ts, x)
  {
    if candidates == [] then []
    else
      (if candidates[0].status.Dispatchable() && DependenciesDone(ts, candidates[0]) then [candidates[0]] else [])
      + Eligible(ts, candidates[1..])
  }

  lemma {:induction false} PendingIsNotDone(ts: seq<Task>, dependencies: seq<Id>)
    requires forall i :: 0 <= i < |dependencies| ==> HasId(ts, dependencies[i])
    ensures DependenciesPending(ts, dependencies).Waits?
    ensures DependenciesPending(ts, dependencies).yes <==>
            exists i :: 0 <= i < |dependencies| && !Get(ts, dependencies[i]).status.Done()
  {
    if dependencies != [] && Get(ts, dependencies[0]).status.Done() {
      var rest := dependencies[1..];
      forall i | 0 <= i < |rest|
        ensures HasId(ts, rest[i])
      {
        assert rest[i] == dependencies[i + 1];
      }
      PendingIsNotDone(ts, rest);
      if i :| 0 <= i < |dependencies| && !Get(ts, dependencies[i]).status.Done() {
        assert rest[i - 1] == dependencies[i];
      }
    }
  }

  function Min(a: int, b: int): int { if a <= b then a else b }

  ghost predicate ClearOf(t: Text, xs: seq<Task>, ys: seq<Task>) {
    forall i, j :: 0 <= i < |xs| && 0 <= j < |ys| ==> !OwnershipOverlap(t, xs[i], ys[j])
  }

  /** No task overlaps an earlier one. */
  ghost predicate PairwiseClear(t: Text, xs: seq<Task>) {
    forall i, j :: 0 <= i < j < |xs| ==> !OwnershipOverlap(t, xs[j], xs[i])
  }

  lemma ClearTail(t: Text, task: Task, tail: seq<Task>, occupied: seq<Task>)
    requires PairwiseClear(t, [task] + tail) && ClearOf(t, [task] + tail, occupied)
    ensures !OverlapsSome(t, task, occupied)
    ensures PairwiseClear(t, tail) && ClearOf(t, tail, occupied + [task])
  {
    var xs := [task] + tail;
    assert xs[0] == task;
    forall i, j | 0 <= i < |tail| && 0 <= j < |occupied + [task]|
      ensures !OwnershipOverlap(t, tail[i], (occupied + [task])[j])
    {
      assert tail[i] == xs[i + 1];
    }
    forall i, j | 0 <= i < j < |tail|
      ensures !OwnershipOverlap(t, tail[j], tail[i])
    {
      assert tail[j] == xs[j + 1] && tail[i] == xs[i + 1];
    }
  }

  ghost predicate DependenciesKnown(ts: seq<Task>, task: Task) {
    forall i :: 0 <= i < |task.dependsOn| ==> HasId(ts, task.dependsOn[i])
  }

  /** One turn of the loop, when the first candidate's dependencies are known. */
  lemma SelectStep(t: Text, ts: seq<Task>, candidates: seq<Task>, active: seq<Task>, selected: seq<Task>, capacity: int)
    requires candidates != [] && DependenciesKnown(ts, candidates[0])
    ensures var task, rest := candidates[0], candidates[1..];
      Select(t, ts, candidates, active, selected, capacity) ==
        if !task.status.Dispatchable() || !DependenciesDone(ts, task) || OverlapsSome(t, task, active + selected)
        then Select(t, ts, rest, active, selected, capacity)
        else if |selected| + 1 >= capacity then Selected(selected + [task])
        else Select(t, ts, rest, active, selected + [task], capacity)
  {
    PendingIsNotDone(ts, candidates[0].dependsOn);
  }

  /** What one eligible candidate, clear of the tasks in play, adds to the selection. */
  lemma TakeEligible(t: Text, ts: seq<Task>, candidates: seq<Task>, active: seq<Task>, selected: seq<Task>,
                     capacity: int)
    requires candidates != [] && DependenciesKnown(ts, candidates[0])
    requires candidates[0].status.Dispatchable() && DependenciesDone(ts, candidates[0])
    requires ClearOf(t, Eligible(ts, candidates), active + selected) && PairwiseClear(t, Eligible(ts, candidates))
    ensures var task, rest := candidates[0], candidates[1..];
      && Eligible(ts, candidates) == [task] + Eligible(ts, rest)
      && PairwiseClear(t, Eligible(ts, rest)) && ClearOf(t, Eligible(ts, rest), active + (selected + [task]))
      && Select(t, ts, candidates, active, selected, capacity) ==
           if |selected| + 1 >= capacity then Selected(selected + [task])
           else Select(t, ts, rest, active, selected + [task], capacity)
  {
    var task, rest := candidates[0], candidates[1..];
    SelectStep(t, ts, candidates, active, selected, capacity);
    ClearTail(t, task, Eligible(ts, rest), active + selected);
    assert active + (selected + [task]) == active + selected + [task];
  }

  lemma SkipIneligible(t: Text, ts: seq<Task>, candidates: seq<Task>, active: seq<Task>, selected: seq<Task>,
                       capacity: int)
    requires candidates != [] && DependenciesKnown(ts, candidates[0])
    requires !(candidates[0].status.Dispatchable() && DependenciesDone(ts, candidates[0]))
    ensures Eligible(ts, candidates) == Eligible(ts, candidates[1..])
    ensures Select(t, ts, candidates, active, selected, capacity) ==
              Select(t, ts, candidates[1..], active, selected, capacity)
  {
    SelectStep(t, ts, candidates, active, selected, capacity);
  }

  lemma TakeOneMore<T>(selected: seq<T>, x: T, tail: seq<T>, room: int)
    requires room > 0
    ensures selected + [x] + tail[..Min(room - 1, |tail|)] == selected + ([x] + tail)[..Min(room, |tail| + 1)]
  {
    var n := Min(room - 1, |tail|);
    assert ([x] + tail)[..n + 1] == [x] + tail[..n];
  }

  /** When no two of the tasks in play overlap, the loop selects the first eligible tasks up to capacity. */
  lemma {:induction false} SelectTakesFirst(t: Text, ts: seq<Task>, candidates: seq<Task>, active: seq<Task>,
                                            selected: seq<Task>, capacity: int)
    requires |selected| < capacity
    requires forall x :: x in candidates ==> DependenciesKnown(ts, x)
    requires ClearOf(t, Eligible(ts, candidates), active + selected)
    requires PairwiseClear(t, Eligible(ts, candidates))
    ensures var eligible := Eligible(ts, candidates);
      Select(t, ts, candidates, active, selected, capacity)
        == Selected(selected + eligible[..Min(capacity - |selected|, |eligible|)])
    decreases |candidates|
  {
    if candidates == [] {
      assert selected + [] == selected;
    } else {
      var task, rest := candidates[0], candidates[1..];
      if task.status.Dispatchable() && DependenciesDone(ts, task) {
        TakeEligible(t, ts, candidates, active, selected, capacity);
        TakeOneMore(selected, task, Eligible(ts, rest), capacity - |selected|);
        if |selected| + 1 < capacity {
          SelectTakesFirst(t, ts, rest, active, selected + [task], capacity);
        } else {
          assert Eligible(ts, rest)[..0] == [];
          assert selected + [task] + [] == selected + [task];
        }
      } else {
        SkipIneligible(t, ts, candidates, active, selected, capacity);
        SelectTakesFirst(t, ts, rest, active, selected, capacity);
      }
    }
  }

  lemma SelectFromNothing(t: Text, ts: seq<Task>, candidates: seq<Task>, active: seq<Task>, capacity: int)
    requires capacity > 0
    requires forall x :: x in candidates ==> DependenciesKnown(ts, x)
    requires ClearOf(t, Eligible(ts, candidates), active) && PairwiseClear(t, Eligible(ts, candidates))
    ensures var eligible := Eligible(ts, candidates);
      Select(t, ts, candidates, active, [], capacity) == Selected(eligible[..Min(capacity, |eligible|)])
  {
    var eligible := Eligible(ts, candidates);
    assert active + [] == active;
    SelectTakesFirst(t, ts, candidates, active, [], capacity);
    assert [] + eligible[..Min(capacity, |eligible|)] == eligible[..Min(capacity, |eligible|)];
  }
}
