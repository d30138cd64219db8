/** Progress of the scheduler: while work is left something can be dispatched, and repeated rounds of
    dispatching and finishing complete every task. */
module SchedulerProgress {
  import opened TaskGraph
  import opened PathPatterns
  import opened Manifest
  import opened Options
  import opened Scheduler
  import opened SchedulerRun

  /** Nothing is active, and every unfinished task may be dispatched as far as its own status goes. */
  ghost predicate Idle(ts: seq<Task>) {
    forall task :: task in ts ==> task.status.Done() || task.status.Dispatchable()
  }

  predicate PositiveLimit(limit: Option<int>) {
    limit.Some? ==> limit.value >= 1
  }

  /** Among the unfinished tasks of the current wave, one has all its dependencies done. */
  lemma SourceOfWave(t: Text, m: Manifest) returns (task: Task)
    requires Admitted(t, m) && Unfinished(m.tasks) != []
    ensures task in WaveCandidates(m.tasks) && DependenciesDone(m.tasks, task)
  {
    var ts := m.tasks;
    CandidateFacts(ts);
    var candidates := WaveCandidates(ts);
    var ids := set x | x in candidates :: x.id;
    var least :| least in Unfinished(ts) && least.wave == LeastWave(Unfinished(ts));
    assert least in candidates && least.id in ids;
    var id := HasSource(Edges(ts), ids);
    task :| task in candidates && task.id == id;
    GetIsTheTask(ts, task);
    var i :| 0 <= i < |ts| && ts[i] == task;
    forall j | 0 <= j < |task.dependsOn|
      ensures HasId(ts, task.dependsOn[j]) && Get(ts, task.dependsOn[j]).status.Done()
    {
      assert DependencyOk(ts, ts[i], ts[i].dependsOn[j]);
      var dependency := Get(ts, task.dependsOn[j]);
      EdgeReaches(Edges(ts), task.id, dependency.id);
      assert !dependency.status.Done() ==> dependency in Unfinished(ts) && dependency in candidates;
      assert dependency in candidates ==> dependency.id in ids;
    }
  }

  lemma {:induction false} NothingActive(xs: seq<Task>)
    requires forall x :: x in xs ==> !x.status.Active()
    ensures ActiveIn(xs) == []
  {
    if xs != [] {
      NothingActive(xs[1..]);
    }
  }

  // ---- What the selection loop picks ----

  ghost predicate MayRun(ts: seq<Task>, task: Task) {
    task.status.Dispatchable() && DependenciesDone(ts, task)
  }

  /** The loop fails on no admitted manifest, and picks different tasks that may run. */
  lemma {:induction false} SelectPicks(t: Text, ts: seq<Task>, candidates: seq<Task>, active: seq<Task>,
                                       selected: seq<Task>, capacity: int)
    requires forall x :: x in candidates ==> DependenciesKnown(ts, x)
    requires DistinctIds(selected + candidates) && forall x :: x in selected ==> MayRun(ts, x)
    ensures var selection := Select(t, ts, candidates, active, selected, capacity);
      && selection.Selected? && |selected| <= |selection.tasks| && DistinctIds(selection.tasks)
      && forall x :: x in selection.tasks ==> (x in selected || x in candidates) && MayRun(ts, x)
    decreases |candidates|
  {
    var both := selected + candidates;
    assert forall i :: 0 <= i < |selected| ==> selected[i] == both[i];
    if candidates != [] {
      var task, rest := candidates[0], candidates[1..];
      SelectStep(t, ts, candidates, active, selected, capacity);
      assert selected + [task] + rest == both;
      assert DistinctIds(selected + [task]) by {
        assert selected + [task] == both[..|selected| + 1];
      }
      assert DistinctIds(selected + rest) by {
        assert selected + rest == both[..|selected|] + both[|selected| + 1..];
      }
      if Select(t, ts, candidates, active, selected, capacity) == Select(t, ts, rest, active, selected, capacity) {
        SelectPicks(t, ts, rest, active, selected, capacity);
      } else if |selected| + 1 < capacity {
        SelectPicks(t, ts, rest, active, selected + [task], capacity);
      }
    }
  }

  /** With nothing active the loop picks the first task that may run. */
  lemma {:induction false} SelectPicksSome(t: Text, ts: seq<Task>, candidates: seq<Task>, capacity: int, task: Task)
    requires forall x :: x in candidates ==> DependenciesKnown(ts, x)
    requires DistinctIds(candidates) && task in candidates && MayRun(ts, task)
    ensures var selection := Select(t, ts, candidates, [], [], capacity); selection.Selected? && selection.tasks != []
    decreases |candidates|
  {
    var first, rest := candidates[0], candidates[1..];
    SelectStep(t, ts, candidates, [], [], capacity);
    assert !OverlapsSome(t, first, [] + []);
    if MayRun(ts, first) {
      assert [] + [first] + rest == candidates;
      if 1 < capacity {
        SelectPicks(t, ts, rest, [], [] + [first], capacity);
      }
    } else {
      SelectPicksSome(t, ts, rest, capacity, task);
    }
  }

  ghost predicate DistinctSeq(ids: seq<Id>) {
    forall i, j :: 0 <= i < j < |ids| ==> ids[i] != ids[j]
  }

  lemma PickedAreDispatchable(ts: seq<Task>, candidates: seq<Task>, picked: seq<Task>)
    requires DistinctIds(ts) && forall x :: x in candidates ==> x in ts
    requires forall x :: x in picked ==> x in candidates && MayRun(ts, x)
    ensures forall id :: id in Ids(picked) ==> HasId(ts, id) && Get(ts, id).status.Dispatchable()
  {
    forall id | id in Ids(picked)
      ensures HasId(ts, id) && Get(ts, id).status.Dispatchable()
    {
      var i :| 0 <= i < |picked| && Ids(picked)[i] == id;
      assert picked[i] in picked;
      GetIsTheTask(ts, picked[i]);
    }
  }

  function Room(m: Manifest, limit: Option<int>): int
    requires Unfinished(m.tasks) != []
  {
    Concurrency(m, limit, LeastWave(Unfinished(m.tasks))) - |ActiveInWave(m.tasks)|
  }

  function Picked(t: Text, m: Manifest, limit: Option<int>): Selection
    requires Unfinished(m.tasks) != []
  {
    Select(t, m.tasks, WaveCandidates(m.tasks), ActiveInWave(m.tasks), [], Room(m, limit))
  }

  lemma AnswerIsPicked(t: Text, m: Manifest, limit: Option<int>)
    requires TaskTable(m.tasks) == m.tasks
    ensures Unfinished(m.tasks) == [] ==> ReadyAnswer(t, m, limit) == Schedule(None, [], 0, true)
    ensures Unfinished(m.tasks) != [] ==>
      var wave := Some(LeastWave(Unfinished(m.tasks)));
      ReadyAnswer(t, m, limit) ==
        if Room(m, limit) <= 0 then Schedule(wave, [], 0, false)
        else match Picked(t, m, limit)
          case Missing(id) => MissingDependency(id)
          case Selected(tasks) => Schedule(wave, Ids(tasks), Room(m, limit), false)
  {
  }

  lemma PickedMayRun(t: Text, m: Manifest, limit: Option<int>)
    requires Admitted(t, m) && Unfinished(m.tasks) != []
    ensures var picked := Picked(t, m, limit);
      && picked.Selected? && DistinctIds(picked.tasks)
      && forall id :: id in Ids(picked.tasks) ==> HasId(m.tasks, id) && Get(m.tasks, id).status.Dispatchable()
  {
    var candidates := WaveCandidates(m.tasks);
    CandidateFacts(m.tasks);
    CandidatesKnowDependencies(t, m);
    assert [] + candidates == candidates;
    SelectPicks(t, m.tasks, candidates, ActiveInWave(m.tasks), [], Room(m, limit));
    PickedAreDispatchable(m.tasks, candidates, Picked(t, m, limit).tasks);
  }

  /** For an admitted manifest the scheduler answers with different dispatchable tasks. */
  lemma AnswerIsSchedule(t: Text, m: Manifest, limit: Option<int>)
    requires Admitted(t, m)
    ensures var answer := ReadyAnswer(t, m, limit);
      && answer.Schedule? && DistinctSeq(answer.taskIds)
      && forall id :: id in answer.taskIds ==> HasId(m.tasks, id) && Get(m.tasks, id).status.Dispatchable()
  {
    TableOfDistinctTasks(m.tasks);
    AnswerIsPicked(t, m, limit);
    if Unfinished(m.tasks) != [] {
      PickedMayRun(t, m, limit);
    }
  }

  lemma SourceIsPicked(t: Text, m: Manifest, limit: Option<int>, task: Task)
    requires Unfinished(m.tasks) != [] && ActiveInWave(m.tasks) == []
    requires DistinctIds(WaveCandidates(m.tasks)) && task in WaveCandidates(m.tasks) && MayRun(m.tasks, task)
    requires forall x :: x in WaveCandidates(m.tasks) ==> DependenciesKnown(m.tasks, x)
    ensures Picked(t, m, limit).Selected? && Picked(t, m, limit).tasks != []
  {
    SelectPicksSome(t, m.tasks, WaveCandidates(m.tasks), Room(m, limit), task);
  }

  lemma SourceMayRun(t: Text, m: Manifest) returns (task: Task)
    requires Admitted(t, m) && Idle(m.tasks) && Unfinished(m.tasks) != []
    ensures task in WaveCandidates(m.tasks) && MayRun(m.tasks, task)
  {
    task := SourceOfWave(t, m);
    CandidateFacts(m.tasks);
  }

  lemma NothingActiveInWave(ts: seq<Task>)
    requires Idle(ts) && Unfinished(ts) != []
    ensures ActiveInWave(ts) == []
  {
    NothingActive(InWave(Unfinished(ts), LeastWave(Unfinished(ts))));
  }

  lemma SomeIsPicked(t: Text, m: Manifest, limit: Option<int>)
    requires Admitted(t, m) && Idle(m.tasks) && Unfinished(m.tasks) != []
    ensures Picked(t, m, limit).Selected? && Picked(t, m, limit).tasks != []
    ensures ActiveInWave(m.tasks) == []
  {
    var task := SourceMayRun(t, m);
    CandidateFacts(m.tasks);
    CandidatesKnowDependencies(t, m);
    NothingActiveInWave(m.tasks);
    SourceIsPicked(t, m, limit, task);
  }

  /** With room for at least one task, an idle unfinished manifest always has something to dispatch, whatever is
      done already. */
  lemma SomethingIsReady(t: Text, m: Manifest, limit: Option<int>)
    requires Admitted(t, m) && Idle(m.tasks) && Unfinished(m.tasks) != [] && PositiveLimit(limit)
    ensures ReadyAnswer(t, m, limit).Schedule? && ReadyAnswer(t, m, limit).taskIds != []
  {
    TableOfDistinctTasks(m.tasks);
    AnswerIsPicked(t, m, limit);
    SomeIsPicked(t, m, limit);
  }

  // ---- Rounds ----

  /** Every scheduled task is dispatched, and then finished. */
  function Finishing(ids: seq<Id>): seq<Action> {
    if ids == [] then [] else [Change(ids[0], Merged)] + Finishing(ids[1..])
  }

  ghost function Scheduled(t: Text, m: Manifest, limit: Option<int>): seq<Id> {
    var answer := ReadyAnswer(t, m, limit);
    if answer.Schedule? then answer.taskIds else []
  }

  ghost function RoundActions(t: Text, m: Manifest, limit: Option<int>): seq<Action> {
    var ids := Scheduled(t, m, limit);
    [Dispatch(limit, set id | id in ids)] + Finishing(ids)
  }

  ghost function NextRound(t: Text, m: Manifest, limit: Option<int>): Manifest {
    After(m, RoundActions(t, m, limit))
  }

  function Iterate<T>(step: T -> T, x: T, n: nat): T {
    if n == 0 then x else Iterate(step, step(x), n - 1)
  }

  /** The manifest after `n` rounds, each with the same limit. */
  ghost function AfterRounds(t: Text, m: Manifest, limit: Option<int>, n: nat): Manifest {
    Iterate(x => NextRound(t, x, limit), m, n)
  }

  function UnfinishedIds(ts: seq<Task>): set<Id> {
    set task | task in ts && !task.status.Done() :: task.id
  }

  /** Every task outside `busy` is idle, and every task in `busy` is dispatched. */
  ghost predicate Busy(ts: seq<Task>, busy: set<Id>) {
    forall task :: task in ts ==>
      if task.id in busy then task.status == Dispatched else task.status.Done() || task.status.Dispatchable()
  }

  /** Task by task, `b` is `a` with the listed tasks set to one status. */
  lemma IdsAfter(a: seq<Task>, ids: set<Id>, status: Status)
    ensures var b := WithStatus(a, ids, status);
      && (DistinctIds(a) ==> DistinctIds(b))
      && (forall x :: HasId(a, x) ==> HasId(b, x))
  {
    var b := WithStatus(a, ids, status);
    forall x | HasId(a, x)
      ensures HasId(b, x)
    {
      var i :| 0 <= i < |a| && a[i].id == x;
      assert b[i].id == x;
    }
  }

  lemma UnfinishedAfter(a: seq<Task>, ids: set<Id>)
    ensures UnfinishedIds(WithStatus(a, ids, Merged)) == UnfinishedIds(a) - ids
  {
    var b := WithStatus(a, ids, Merged);
    forall x | x in UnfinishedIds(a) - ids
      ensures x in UnfinishedIds(b)
    {
      var i :| 0 <= i < |a| && !a[i].status.Done() && a[i].id == x;
      assert b[i] in b;
    }
    forall x | x in UnfinishedIds(b)
      ensures x in UnfinishedIds(a) - ids
    {
      var i :| 0 <= i < |b| && !b[i].status.Done() && b[i].id == x;
      assert a[i] in a;
    }
  }

  lemma FinishOne(t: Text, m: Manifest, id: Id, busy: set<Id>)
    requires DistinctIds(m.tasks) && Busy(m.tasks, busy) && id in busy && HasId(m.tasks, id)
    ensures Allowed(t, m, Change(id, Merged))
    ensures Busy(WithStatus(m.tasks, {id}, Merged), busy - {id})
  {
    var ts, next := m.tasks, WithStatus(m.tasks, {id}, Merged);
    assert Get(ts, id).status == Dispatched;
    forall task | task in next
      ensures if task.id in busy - {id} then task.status == Dispatched
              else task.status.Done() || task.status.Dispatchable()
    {
      var i :| 0 <= i < |ts| && next[i] == task;
      assert ts[i] in ts;
    }
  }

  /** What finishing the first busy task leaves. */
  lemma FinishFirst(t: Text, m: Manifest, ids: seq<Id>, busy: set<Id>)
    requires DistinctIds(m.tasks) && Busy(m.tasks, busy) && busy == set id | id in ids
    requires ids != [] && forall id :: id in ids ==> HasId(m.tasks, id)
    requires forall j :: 0 < j < |ids| ==> ids[0] != ids[j]
    ensures var next := Apply(m, Change(ids[0], Merged));
      && Allowed(t, m, Change(ids[0], Merged)) && DistinctIds(next.tasks) && Busy(next.tasks, busy - {ids[0]})
      && (forall id :: id in ids[1..] ==> HasId(next.tasks, id))
      && busy - {ids[0]} == (set id | id in ids[1..])
      && UnfinishedIds(next.tasks) == UnfinishedIds(m.tasks) - {ids[0]}
  {
    FinishOne(t, m, ids[0], busy);
    IdsAfter(m.tasks, {ids[0]}, Merged);
    UnfinishedAfter(m.tasks, {ids[0]});
    assert forall x :: x in ids[1..] ==> x in ids;
  }

  lemma {:induction false} FinishAll(t: Text, m: Manifest, ids: seq<Id>, busy: set<Id>)
    requires DistinctIds(m.tasks) && Busy(m.tasks, busy) && busy == set id | id in ids
    requires forall i, j :: 0 <= i < j < |ids| ==> ids[i] != ids[j]
    requires forall id :: id in ids ==> HasId(m.tasks, id)
    ensures AllAllowed(t, m, Finishing(ids))
    ensures Idle(After(m, Finishing(ids)).tasks)
    ensures UnfinishedIds(After(m, Finishing(ids)).tasks) == UnfinishedIds(m.tasks) - busy
    decreases |ids|
  {
    if ids != [] {
      FinishFirst(t, m, ids, busy);
      FinishAll(t, Apply(m, Change(ids[0], Merged)), ids[1..], busy - {ids[0]});
      assert Finishing(ids)[0] == Change(ids[0], Merged) && Finishing(ids)[1..] == Finishing(ids[1..]);
    }
  }

  /** Dispatching tasks that are not done leaves the same tasks unfinished. */
  lemma DispatchKeepsUnfinished(ts: seq<Task>, busy: set<Id>)
    requires forall i :: 0 <= i < |ts| && ts[i].id in busy ==> !ts[i].status.Done()
    ensures UnfinishedIds(WithStatus(ts, busy, Dispatched)) == UnfinishedIds(ts)
  {
    var next := WithStatus(ts, busy, Dispatched);
    forall x | x in UnfinishedIds(next)
      ensures x in UnfinishedIds(ts)
    {
      var i :| 0 <= i < |ts| && !next[i].status.Done() && next[i].id == x;
      assert ts[i] in ts;
    }
    forall x | x in UnfinishedIds(ts)
      ensures x in UnfinishedIds(next)
    {
      var i :| 0 <= i < |ts| && !ts[i].status.Done() && ts[i].id == x;
      assert next[i] in next;
    }
  }

  lemma DispatchMakesBusy(ts: seq<Task>, busy: set<Id>)
    requires DistinctIds(ts) && Idle(ts)
    requires forall id :: id in busy ==> HasId(ts, id) && Get(ts, id).status.Dispatchable()
    ensures Busy(WithStatus(ts, busy, Dispatched), busy)
    ensures forall i :: 0 <= i < |ts| && ts[i].id in busy ==> !ts[i].status.Done()
    ensures busy <= UnfinishedIds(ts)
  {
    var next := WithStatus(ts, busy, Dispatched);
    forall i | 0 <= i < |ts| && ts[i].id in busy
      ensures !ts[i].status.Done()
    {
      GetIsTheTask(ts, ts[i]);
    }
    forall task | task in next
      ensures if task.id in busy then task.status == Dispatched else task.status.Done() || task.status.Dispatchable()
    {
      var i :| 0 <= i < |ts| && next[i] == task;
      assert ts[i] in ts;
    }
  }

  lemma RoundIsAllowed(t: Text, m: Manifest, limit: Option<int>)
    requires Admitted(t, m) && Idle(m.tasks)
    ensures AllAllowed(t, m, RoundActions(t, m, limit))
    ensures var n := After(m, RoundActions(t, m, limit));
      Idle(n.tasks) && UnfinishedIds(n.tasks) == UnfinishedIds(m.tasks) - set id | id in Scheduled(t, m, limit)
    ensures (set id | id in Scheduled(t, m, limit)) <= UnfinishedIds(m.tasks)
  {
    var ids := Scheduled(t, m, limit);
    var busy := set id | id in ids;
    AnswerIsSchedule(t, m, limit);
    DispatchMakesBusy(m.tasks, busy);
    DispatchKeepsUnfinished(m.tasks, busy);
    IdsAfter(m.tasks, busy, Dispatched);
    FinishAll(t, Apply(m, Dispatch(limit, busy)), ids, busy);
    assert RoundActions(t, m, limit)[1..] == Finishing(ids);
  }

  /** One round is a run of allowed steps, and it finishes exactly the scheduled tasks. */
  lemma RoundFinishesScheduled(t: Text, m: Manifest, limit: Option<int>)
    requires Admitted(t, m) && Idle(m.tasks)
    ensures AllAllowed(t, m, RoundActions(t, m, limit))
    ensures var n := After(m, RoundActions(t, m, limit));
      && Admitted(t, n) && Idle(n.tasks) && (Inv(t, m) ==> Inv(t, n))
      && UnfinishedIds(n.tasks) == UnfinishedIds(m.tasks) - set id | id in Scheduled(t, m, limit)
    ensures (set id | id in Scheduled(t, m, limit)) <= UnfinishedIds(m.tasks)
  {
    RoundIsAllowed(t, m, limit);
    RunKeepsAdmission(t, m, RoundActions(t, m, limit));
    if Inv(t, m) {
      RunKeepsInv(t, m, RoundActions(t, m, limit));
    }
  }

  lemma NothingUnfinished(ts: seq<Task>)
    requires Unfinished(ts) == []
    ensures UnfinishedIds(ts) == {}
  {
    assert forall x :: x in ts && !x.status.Done() ==> x in Unfinished(ts);
  }

  /** Between two rounds: nothing is active, and at most `n` tasks are unfinished. */
  ghost predicate Between(t: Text, m: Manifest, n: nat) {
    Admitted(t, m) && Idle(m.tasks) && |UnfinishedIds(m.tasks)| <= n
  }

  lemma FirstIsFinished(before: set<Id>, after: set<Id>, ids: seq<Id>)
    requires ids != [] && after == before - (set id | id in ids) && (set id | id in ids) <= before
    ensures |after| < |before|
  {
    var done := set id | id in ids;
    assert ids[0] in done;
    SubsetIsSmaller(after, before - {ids[0]});
  }

  /** A round of an unfinished manifest finishes at least one task. */
  lemma RoundShrinksWork(t: Text, m: Manifest, limit: Option<int>, n: nat)
    requires Between(t, m, n + 1) && PositiveLimit(limit)
    ensures Between(t, NextRound(t, m, limit), n)
  {
    RoundFinishesScheduled(t, m, limit);
    var next := NextRound(t, m, limit);
    if Unfinished(m.tasks) != [] {
      SomethingIsReady(t, m, limit);
      FirstIsFinished(UnfinishedIds(m.tasks), UnfinishedIds(next.tasks), Scheduled(t, m, limit));
    } else {
      NothingUnfinished(m.tasks);
    }
  }

  /** What one step takes from `k + 1` to `k`, `n` steps take from `n` to 0. */
  lemma {:induction false} StepsCountDown<T(!new)>(step: T -> T, x: T, n: nat, holds: (T, int) -> bool)
    requires holds(x, n)
    requires forall y: T, k: int :: k > 0 && holds(y, k) ==> holds(step(y), k - 1)
    ensures holds(Iterate(step, x, n), 0)
    decreases n
  {
    if n > 0 {
      StepsCountDown(step, step(x), n - 1, holds);
    }
  }

  lemma RoundsShrinkWork(t: Text, m: Manifest, limit: Option<int>, n: nat)
    requires Between(t, m, n) && PositiveLimit(limit)
    ensures UnfinishedIds(AfterRounds(t, m, limit, n).tasks) == {}
  {
    var step := x => NextRound(t, x, limit);
    var holds := (x: Manifest, k: int) => k >= 0 && Between(t, x, k);
    forall y: Manifest, k: int | k > 0 && holds(y, k)
      ensures holds(step(y), k - 1)
    {
      RoundShrinksWork(t, y, limit, k - 1);
    }
    StepsCountDown(step, m, n, holds);
    assert Between(t, AfterRounds(t, m, limit, n), 0);
  }

  lemma AtMostAllUnfinished(ts: seq<Task>)
    requires DistinctIds(ts)
    ensures |UnfinishedIds(ts)| <= |ts|
  {
    IdsOfDistinct(ts);
    SubsetIsSmaller(UnfinishedIds(ts), set task | task in ts :: task.id);
  }

  /** From an admitted manifest whose tasks are all done or dispatchable, as many rounds as there are tasks finish
      every task, whatever positive limit the rounds use. */
  lemma AllWorkCompletes(t: Text, m: Manifest, limit: Option<int>, task: Task)
    requires Admitted(t, m) && Idle(m.tasks) && PositiveLimit(limit)
    requires task in AfterRounds(t, m, limit, |m.tasks|).tasks
    ensures task.status.Done()
  {
    AtMostAllUnfinished(m.tasks);
    RoundsShrinkWork(t, m, limit, |m.tasks|);
    NoneUnfinished(AfterRounds(t, m, limit, |m.tasks|).tasks, task);
  }

  lemma IsUnfinished(ts: seq<Task>, task: Task)
    requires task in ts && !task.status.Done()
    ensures task.id in UnfinishedIds(ts)
  {
  }

  lemma NoneUnfinished(ts: seq<Task>, task: Task)
    requires UnfinishedIds(ts) == {} && task in ts
    ensures task.status.Done()
  {
    if !task.status.Done() {
      IsUnfinished(ts, task);
    }
  }
}
