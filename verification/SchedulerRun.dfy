/** Runs of the scheduler over an admitted manifest: dispatches of scheduled tasks and status changes. */
module SchedulerRun {
  import opened TaskGraph
  import opened PathPatterns
  import opened Manifest
  import opened Options
  import opened Scheduler

  // ---- Steps ----

  datatype Action =
    | Dispatch(limit: Option<int>, chosen: set<Id>)
    | Change(id: Id, status: Status)

  function WithStatus(ts: seq<Task>, ids: set<Id>, status: Status): (r: seq<Task>)
    ensures |r| == |ts|
    ensures forall i :: 0 <= i < |ts| ==> r[i] == if ts[i].id in ids then ts[i].(status := status) else ts[i]
  {
    seq(|ts|, i requires 0 <= i < |ts| => if ts[i].id in ids then ts[i].(status := status) else ts[i])
  }

  function Apply(m: Manifest, a: Action): Manifest {
    match a
    case Dispatch(_, chosen) => m.(tasks := WithStatus(m.tasks, chosen, Dispatched))
    case Change(id, status) => m.(tasks := WithStatus(m.tasks, {id}, status))
  }

  /** A dispatch takes some of the tasks the scheduler just returned.  Apart from that a status may change
      freely, except that only a dispatch makes a task active, only an active task becomes done, and a
      done task stays done. */
  ghost predicate Allowed(t: Text, m: Manifest, a: Action) {
    match a
    case Dispatch(limit, chosen) =>
      var answer := ReadyAnswer(t, m, limit);
      answer.Schedule? && forall id :: id in chosen ==> id in answer.taskIds
    case Change(id, status) =>
      && HasId(m.tasks, id)
      && var was := Get(m.tasks, id).status;
         && (was.Done() ==> status.Done())
         && (status.Active() ==> was.Active())
         && (status.Done() ==> was.Active() || was.Done())
  }

  function After(m: Manifest, actions: seq<Action>): Manifest
    decreases |actions|
  {
    if actions == [] then m else After(Apply(m, actions[0]), actions[1..])
  }

  ghost predicate AllAllowed(t: Text, m: Manifest, actions: seq<Action>)
    decreases |actions|
  {
    actions == [] || (Allowed(t, m, actions[0]) && AllAllowed(t, Apply(m, actions[0]), actions[1..]))
  }

  /** The concurrency in force when the action is a dispatch. */
  function ConcurrencyOf(m: Manifest, a: Action): int {
    if a.Dispatch? && Unfinished(m.tasks) != [] then Concurrency(m, a.limit, LeastWave(Unfinished(m.tasks))) else 0
  }

  /** The largest concurrency any dispatch of the run used. */
  function MaxConcurrencyUsed(m: Manifest, actions: seq<Action>): int
    decreases |actions|
  {
    if actions == [] then 0
    else
      var here, later := ConcurrencyOf(m, actions[0]), MaxConcurrencyUsed(Apply(m, actions[0]), actions[1..]);
      if here >= later then here else later
  }

  // ---- The invariant ----

  /** The done set is closed under dependencies. */
  ghost predicate DoneClosed(ts: seq<Task>) {
    forall task :: task in ts && task.status.Done() ==> DependenciesDone(ts, task)
  }

  /** The task is in the current wave: no unfinished task is in an earlier one. */
  ghost predicate InCurrentWave(ts: seq<Task>, task: Task) {
    forall x :: x in ts && !x.status.Done() ==> task.wave <= x.wave
  }

  ghost predicate ActiveTasksReady(ts: seq<Task>) {
    forall task :: task in ts && task.status.Active() ==> DependenciesDone(ts, task) && InCurrentWave(ts, task)
  }

  ghost predicate Inv(t: Text, m: Manifest) {
    Admitted(t, m) && DoneClosed(m.tasks) && ActiveTasksReady(m.tasks)
  }

  /** A manifest on which no work has started. */
  ghost predicate Fresh(m: Manifest) {
    forall task :: task in m.tasks ==> !task.status.Active() && !task.status.Done()
  }

  // ---- Only statuses change ----

  ghost predicate SameShape(a: seq<Task>, b: seq<Task>) {
    |a| == |b| && forall i :: 0 <= i < |a| ==> b[i] == a[i].(status := b[i].status)
  }

  lemma {:induction false} GetKeepsShape(a: seq<Task>, b: seq<Task>, id: Id)
    requires SameShape(a, b)
    ensures HasId(a, id) == HasId(b, id)
    ensures HasId(a, id) ==> Get(b, id) == Get(a, id).(status := Get(b, id).status)
  {
    if HasId(a, id) {
      var i :| 0 <= i < |a| && a[i].id == id;
      assert b[i].id == id;
    }
    if HasId(b, id) {
      var i :| 0 <= i < |b| && b[i].id == id;
      assert a[i].id == id;
      if a[0].id != id {
        assert a[1..][i - 1].id == id && b[1..][i - 1].id == id;
        GetKeepsShape(a[1..], b[1..], id);
      }
    }
  }

  lemma ShapeKeepsEdges(a: seq<Task>, b: seq<Task>)
    requires SameShape(a, b)
    ensures Edges(a) == Edges(b)
  {
    forall id
      ensures HasId(a, id) == HasId(b, id)
      ensures HasId(a, id) ==> Edges(a)[id] == Edges(b)[id]
    {
      GetKeepsShape(a, b, id);
    }
  }

  lemma ShapeKeepsDependencyRules(a: seq<Task>, b: seq<Task>)
    requires SameShape(a, b) && DependencyRules(a)
    ensures DependencyRules(b)
  {
    forall i, j | 0 <= i < |b| && 0 <= j < |b[i].dependsOn|
      ensures DependencyOk(b, b[i], b[i].dependsOn[j])
    {
      assert b[i] == a[i].(status := b[i].status);
      assert DependencyOk(a, a[i], a[i].dependsOn[j]);
      GetKeepsShape(a, b, b[i].dependsOn[j]);
    }
  }

  /** Admission does not depend on statuses. */
  lemma ShapeKeepsAdmission(t: Text, m: Manifest, n: Manifest)
    requires SameShape(m.tasks, n.tasks) && m.maxConcurrency == n.maxConcurrency && Admitted(t, m)
    ensures Admitted(t, n)
  {
    var a, b := m.tasks, n.tasks;
    ShapeKeepsEdges(a, b);
    ShapeKeepsDependencyRules(a, b);
    forall task | task in b
      ensures ValidFields(task)
    {
      var i :| 0 <= i < |b| && b[i] == task;
      assert ValidFields(a[i]);
    }
    forall i, j | 0 <= i < j < |b|
      ensures SerialPair(b, 0, b[i], b[j]) && SerialPair(b, 2, b[i], b[j]) && OwnershipPair(t, b, b[i], b[j])
    {
      assert SerialPair(a, 0, a[i], a[j]) && SerialPair(a, 2, a[i], a[j]) && OwnershipPair(t, a, a[i], a[j]);
    }
  }

  lemma {:induction false} RunKeepsShape(m: Manifest, actions: seq<Action>)
    ensures SameShape(m.tasks, After(m, actions).tasks) && After(m, actions).maxConcurrency == m.maxConcurrency
    decreases |actions|
  {
    if actions != [] {
      RunKeepsShape(Apply(m, actions[0]), actions[1..]);
    }
  }

  lemma RunKeepsAdmission(t: Text, m: Manifest, actions: seq<Action>)
    requires Admitted(t, m)
    ensures Admitted(t, After(m, actions))
  {
    RunKeepsShape(m, actions);
    ShapeKeepsAdmission(t, m, After(m, actions));
  }

  // ---- Tasks in play ----

  /** An unfinished task all of whose dependencies are done. */
  predicate InPlay(ts: seq<Task>, task: Task) {
    task in ts && !task.status.Done() && DependenciesDone(ts, task)
  }

  /** Everything a task in play depends on, at any distance, is done. */
  lemma {:induction false} WalkReachesDone(ts: seq<Task>, task: Task, w: seq<Id>)
    requires DistinctIds(ts) && DoneClosed(ts) && task in ts && DependenciesDone(ts, task)
    requires IsWalk(Edges(ts), w) && w[0] == task.id
    ensures HasId(ts, w[|w| - 1]) && Get(ts, w[|w| - 1]).status.Done()
    decreases |w|
  {
    GetIsTheTask(ts, task);
    assert Edge(Edges(ts), w[0], w[1]);
    var i :| 0 <= i < |task.dependsOn| && task.dependsOn[i] == w[1];
    if |w| > 2 {
      var v := w[1..];
      forall k | 0 <= k < |v| - 1
        ensures Edge(Edges(ts), v[k], v[k + 1])
      {
        assert Edge(Edges(ts), w[k + 1], w[k + 2]);
      }
      WalkReachesDone(ts, Get(ts, w[1]), v);
    }
  }

  lemma ReachedIsDone(ts: seq<Task>, task: Task, id: Id)
    requires DistinctIds(ts) && DoneClosed(ts) && task in ts && DependenciesDone(ts, task)
    requires Reaches(Edges(ts), task.id, id)
    ensures HasId(ts, id) && Get(ts, id).status.Done()
  {
    var w :| WalkBetween(Edges(ts), w, task.id, id);
    WalkReachesDone(ts, task, w);
  }

  /** Two tasks in play are never ordered by their dependencies. */
  lemma InPlayIsUnordered(ts: seq<Task>, a: Task, b: Task)
    requires DistinctIds(ts) && DoneClosed(ts) && InPlay(ts, a) && InPlay(ts, b)
    ensures !Ordered(ts, a, b)
  {
    GetIsTheTask(ts, a);
    GetIsTheTask(ts, b);
    if Reaches(Edges(ts), a.id, b.id) {
      ReachedIsDone(ts, a, b.id);
    }
    if Reaches(Edges(ts), b.id, a.id) {
      ReachedIsDone(ts, b, a.id);
    }
  }

  lemma OwnershipOverlapIsSymmetric(t: Text, a: Task, b: Task)
    ensures OwnershipOverlap(t, a, b) == OwnershipOverlap(t, b, a)
  {
    forall i, j | 0 <= i < |a.ownedPaths| && 0 <= j < |b.ownedPaths|
      ensures PatternsOverlap(t, a.ownedPaths[i], b.ownedPaths[j]) ==
                PatternsOverlap(t, b.ownedPaths[j], a.ownedPaths[i])
    {
      OverlapIsSymmetric(t, a.ownedPaths[i], b.ownedPaths[j]);
    }
  }

  lemma RulesForPair(t: Text, m: Manifest, a: Task, b: Task)
    requires Admitted(t, m) && a in m.tasks && b in m.tasks && a != b
    ensures SerialPair(m.tasks, 0, a, b) && SerialPair(m.tasks, 2, a, b)
    ensures OwnershipPair(t, m.tasks, a, b)
    ensures a.wave == 0 || a.wave == 1 || a.wave == 2
  {
    var ts := m.tasks;
    assert ValidFields(a);
    var i :| 0 <= i < |ts| && ts[i] == a;
    var j :| 0 <= j < |ts| && ts[j] == b;
    OwnershipOverlapIsSymmetric(t, a, b);
    if i < j {
      assert SerialPair(ts, 0, ts[i], ts[j]) && SerialPair(ts, 2, ts[i], ts[j]) && OwnershipPair(t, ts, ts[i], ts[j]);
    } else {
      assert SerialPair(ts, 0, ts[j], ts[i]) && SerialPair(ts, 2, ts[j], ts[i]) && OwnershipPair(t, ts, ts[j], ts[i]);
    }
  }

  /** Two different tasks in play in one wave can only be in wave 1, and they own no overlapping paths. */
  lemma InPlayIsExclusive(t: Text, m: Manifest, a: Task, b: Task)
    requires Inv(t, m) && InPlay(m.tasks, a) && InPlay(m.tasks, b) && a != b && a.wave == b.wave
    ensures a.wave == 1
    ensures !OwnershipOverlap(t, a, b) && !OwnershipOverlap(t, b, a)
  {
    InPlayIsUnordered(m.tasks, a, b);
    RulesForPair(t, m, a, b);
    OwnershipOverlapIsSymmetric(t, a, b);
  }

  // ---- No parallelism is lost ----

  lemma {:induction false} UnfinishedKeepsDistinct(ts: seq<Task>)
    requires DistinctIds(ts)
    ensures DistinctIds(Unfinished(ts))
  {
    if ts != [] {
      UnfinishedKeepsDistinct(ts[1..]);
    }
  }

  lemma {:induction false} InWaveKeepsDistinct(ts: seq<Task>, wave: int)
    requires DistinctIds(ts)
    ensures DistinctIds(InWave(ts, wave))
  {
    if ts != [] {
      InWaveKeepsDistinct(ts[1..], wave);
    }
  }

  lemma {:induction false} ActiveInKeepsDistinct(ts: seq<Task>)
    requires DistinctIds(ts)
    ensures DistinctIds(ActiveIn(ts))
  {
    if ts != [] {
      ActiveInKeepsDistinct(ts[1..]);
    }
  }

  lemma {:induction false} EligibleKeepsDistinct(ts: seq<Task>, candidates: seq<Task>)
    requires DistinctIds(candidates)
    ensures DistinctIds(Eligible(ts, candidates))
  {
    if candidates != [] {
      EligibleKeepsDistinct(ts, candidates[1..]);
    }
  }

  lemma {:induction false} InsertKeepsDistinct(task: Task, sorted: seq<Task>)
    requires DistinctIds(sorted) && forall x :: x in sorted ==> x.id != task.id
    ensures DistinctIds(InsertById(task, sorted))
  {
    if sorted != [] && !IdLeq(task.id, sorted[0].id) {
      InsertKeepsDistinct(task, sorted[1..]);
      var rest := InsertById(task, sorted[1..]);
      forall j | 0 <= j < |rest|
        ensures rest[j].id != sorted[0].id
      {
        assert rest[j] in multiset(rest);
        assert rest[j] == task || rest[j] in sorted[1..];
      }
    }
  }

  lemma {:induction false} SortKeepsDistinct(ts: seq<Task>)
    requires DistinctIds(ts)
    ensures DistinctIds(SortById(ts))
  {
    if ts != [] {
      SortKeepsDistinct(ts[1..]);
      SortKeepsMembers(ts[1..]);
      InsertKeepsDistinct(ts[0], SortById(ts[1..]));
    }
  }

  /** The unfinished tasks of the current wave, in id order. */
  function WaveCandidates(ts: seq<Task>): seq<Task>
    requires Unfinished(ts) != []
  {
    SortById(InWave(Unfinished(ts), LeastWave(Unfinished(ts))))
  }

  function ActiveInWave(ts: seq<Task>): seq<Task>
    requires Unfinished(ts) != []
  {
    ActiveIn(InWave(Unfinished(ts), LeastWave(Unfinished(ts))))
  }

  lemma CandidateFacts(ts: seq<Task>)
    requires DistinctIds(ts) && Unfinished(ts) != []
    ensures DistinctIds(WaveCandidates(ts)) && DistinctIds(ActiveInWave(ts))
    ensures forall x :: x in WaveCandidates(ts) <==>
              x in ts && !x.status.Done() && x.wave == LeastWave(Unfinished(ts))
  {
    var unfinished := Unfinished(ts);
    var wave := LeastWave(unfinished);
    UnfinishedKeepsDistinct(ts);
    InWaveKeepsDistinct(unfinished, wave);
    SortKeepsDistinct(InWave(unfinished, wave));
    SortKeepsMembers(InWave(unfinished, wave));
    ActiveInKeepsDistinct(InWave(unfinished, wave));
  }

  lemma AdmittedKnowsDependencies(t: Text, m: Manifest, task: Task)
    requires Admitted(t, m) && task in m.tasks
    ensures DependenciesKnown(m.tasks, task)
  {
    var i :| 0 <= i < |m.tasks| && m.tasks[i] == task;
    forall j | 0 <= j < |task.dependsOn|
      ensures HasId(m.tasks, task.dependsOn[j])
    {
      assert DependencyOk(m.tasks, m.tasks[i], m.tasks[i].dependsOn[j]);
    }
  }

  function EligibleInWave(ts: seq<Task>): seq<Task>
    requires Unfinished(ts) != []
  {
    Eligible(ts, WaveCandidates(ts))
  }

  /** Different tasks in play, all in one wave. */
  ghost predicate PlayList(ts: seq<Task>, xs: seq<Task>, wave: int) {
    DistinctIds(xs) && forall i :: 0 <= i < |xs| ==> InPlay(ts, xs[i]) && xs[i].wave == wave
  }

  lemma EligibleAndActiveAreInPlay(ts: seq<Task>)
    requires DistinctIds(ts) && DoneClosed(ts) && ActiveTasksReady(ts) && Unfinished(ts) != []
    ensures PlayList(ts, EligibleInWave(ts), LeastWave(Unfinished(ts)))
    ensures PlayList(ts, ActiveInWave(ts), LeastWave(Unfinished(ts)))
    ensures forall i :: 0 <= i < |EligibleInWave(ts)| ==> EligibleInWave(ts)[i].status.Dispatchable()
    ensures forall i :: 0 <= i < |ActiveInWave(ts)| ==> ActiveInWave(ts)[i].status.Active()
  {
    CandidateFacts(ts);
    EligibleKeepsDistinct(ts, WaveCandidates(ts));
    forall i | 0 <= i < |EligibleInWave(ts)|
      ensures InPlay(ts, EligibleInWave(ts)[i]) && EligibleInWave(ts)[i].wave == LeastWave(Unfinished(ts))
    {
      assert EligibleInWave(ts)[i] in EligibleInWave(ts);
    }
    forall i | 0 <= i < |ActiveInWave(ts)|
      ensures InPlay(ts, ActiveInWave(ts)[i]) && ActiveInWave(ts)[i].wave == LeastWave(Unfinished(ts))
    {
      assert ActiveInWave(ts)[i] in ActiveInWave(ts);
    }
  }

  lemma PlayListIsClear(t: Text, m: Manifest, xs: seq<Task>, ys: seq<Task>, wave: int)
    requires Inv(t, m) && PlayList(m.tasks, xs, wave) && PlayList(m.tasks, ys, wave)
    requires forall i, j :: 0 <= i < |xs| && 0 <= j < |ys| ==> xs[i] != ys[j]
    ensures PairwiseClear(t, xs) && ClearOf(t, xs, ys)
    ensures wave != 1 ==> |xs| + |ys| <= 1
  {
    forall i, j | 0 <= i < j < |xs|
      ensures wave == 1 && !OwnershipOverlap(t, xs[j], xs[i])
    {
      InPlayIsExclusive(t, m, xs[j], xs[i]);
    }
    forall i, j | 0 <= i < |xs| && 0 <= j < |ys|
      ensures wave == 1 && !OwnershipOverlap(t, xs[i], ys[j])
    {
      InPlayIsExclusive(t, m, xs[i], ys[j]);
    }
    if |xs| > 1 {
      InPlayIsExclusive(t, m, xs[1], xs[0]);
    } else if |ys| > 1 {
      InPlayIsExclusive(t, m, ys[1], ys[0]);
    } else if |xs| == |ys| == 1 {
      InPlayIsExclusive(t, m, xs[0], ys[0]);
    }
  }

  /** What the scheduler should answer: the first eligible tasks in id order, as many as there is room for. */
  function FirstEligible(m: Manifest, limit: Option<int>): Answer
    requires Unfinished(m.tasks) != []
  {
    var wave, eligible := LeastWave(Unfinished(m.tasks)), EligibleInWave(m.tasks);
    var room := Concurrency(m, limit, wave) - |ActiveInWave(m.tasks)|;
    var capacity := if room < 0 then 0 else room;
    Schedule(Some(wave), Ids(eligible[..Min(capacity, |eligible|)]), capacity, false)
  }

  lemma CandidatesKnowDependencies(t: Text, m: Manifest)
    requires Admitted(t, m) && Unfinished(m.tasks) != []
    ensures forall x :: x in WaveCandidates(m.tasks) ==> DependenciesKnown(m.tasks, x)
  {
    CandidateFacts(m.tasks);
    forall x | x in WaveCandidates(m.tasks)
      ensures DependenciesKnown(m.tasks, x)
    {
      AdmittedKnowsDependencies(t, m, x);
    }
  }

  lemma DispatchableIsNotActive(xs: seq<Task>, ys: seq<Task>)
    requires forall i :: 0 <= i < |xs| ==> xs[i].status.Dispatchable()
    requires forall i :: 0 <= i < |ys| ==> ys[i].status.Active()
    ensures forall i, j :: 0 <= i < |xs| && 0 <= j < |ys| ==> xs[i] != ys[j]
  {
  }

  /** The eligible and the active tasks of the current wave own no overlapping paths, and outside wave 1 there is
      at most one of them. */
  lemma EligibleAreClear(t: Text, m: Manifest)
    requires Inv(t, m) && Unfinished(m.tasks) != []
    ensures PairwiseClear(t, EligibleInWave(m.tasks))
    ensures ClearOf(t, EligibleInWave(m.tasks), ActiveInWave(m.tasks))
    ensures LeastWave(Unfinished(m.tasks)) != 1 ==> |EligibleInWave(m.tasks)| + |ActiveInWave(m.tasks)| <= 1
  {
    var eligible, active := EligibleInWave(m.tasks), ActiveInWave(m.tasks);
    EligibleAndActiveAreInPlay(m.tasks);
    DispatchableIsNotActive(eligible, active);
    PlayListIsClear(t, m, eligible, active, LeastWave(Unfinished(m.tasks)));
  }

  /** The answer of the scheduler once its table is known to be the task list itself. */
  lemma AnswerWithoutClash(t: Text, m: Manifest, limit: Option<int>)
    requires TaskTable(m.tasks) == m.tasks && Unfinished(m.tasks) != []
    requires forall x :: x in WaveCandidates(m.tasks) ==> DependenciesKnown(m.tasks, x)
    requires PairwiseClear(t, EligibleInWave(m.tasks))
    requires ClearOf(t, EligibleInWave(m.tasks), ActiveInWave(m.tasks))
    ensures ReadyAnswer(t, m, limit) == FirstEligible(m, limit)
  {
    var ts := m.tasks;
    var candidates, active, eligible := WaveCandidates(ts), ActiveInWave(ts), EligibleInWave(ts);
    var room := Concurrency(m, limit, LeastWave(Unfinished(ts))) - |active|;
    if room > 0 {
      SelectFromNothing(t, ts, candidates, active, room);
    } else {
      assert Ids(eligible[..0]) == [];
    }
  }

  /** The overlap filter never rejects an eligible task. */
  lemma NoParallelismIsLost(t: Text, m: Manifest, limit: Option<int>)
    requires Inv(t, m) && Unfinished(m.tasks) != []
    ensures ReadyAnswer(t, m, limit) == FirstEligible(m, limit)
    ensures SortedById(WaveCandidates(m.tasks))
  {
    TableOfDistinctTasks(m.tasks);
    SortIsSorted(InWave(Unfinished(m.tasks), LeastWave(Unfinished(m.tasks))));
    CandidatesKnowDependencies(t, m);
    EligibleAreClear(t, m);
    AnswerWithoutClash(t, m, limit);
  }

  /** In waves 0 and 2 at most one task is eligible or active at any time. */
  lemma SerialWaveHasOneInPlay(t: Text, m: Manifest)
    requires Inv(t, m) && Unfinished(m.tasks) != [] && LeastWave(Unfinished(m.tasks)) != 1
    ensures |EligibleInWave(m.tasks)| + |ActiveInWave(m.tasks)| <= 1
  {
    EligibleAreClear(t, m);
  }

  // ---- Every step keeps the invariant ----

  lemma ScheduledTask(t: Text, m: Manifest, limit: Option<int>, id: Id)
    requires Inv(t, m)
    requires ReadyAnswer(t, m, limit).Schedule? && id in ReadyAnswer(t, m, limit).taskIds
    ensures HasId(m.tasks, id)
    ensures var task := Get(m.tasks, id);
      task.status.Dispatchable() && InPlay(m.tasks, task) && InCurrentWave(m.tasks, task)
  {
    var ts := m.tasks;
    TableOfDistinctTasks(ts);
    NoParallelismIsLost(t, m, limit);
    var eligible := EligibleInWave(ts);
    var k :| 0 <= k < |ReadyAnswer(t, m, limit).taskIds| && ReadyAnswer(t, m, limit).taskIds[k] == id;
    assert eligible[k] in eligible && eligible[k].id == id;
    CandidateFacts(ts);
    GetIsTheTask(ts, eligible[k]);
    forall x | x in ts && !x.status.Done()
      ensures eligible[k].wave <= x.wave
    {
      assert x in Unfinished(ts);
    }
  }

  /** The step leaves every task's place and moves no task out of the done set. */
  ghost predicate Advances(a: seq<Task>, b: seq<Task>) {
    SameShape(a, b) && forall i :: 0 <= i < |a| && a[i].status.Done() ==> b[i].status.Done()
  }

  lemma AdvanceKeepsDone(a: seq<Task>, b: seq<Task>, task: Task)
    requires DistinctIds(a) && Advances(a, b) && DependenciesDone(a, task)
    ensures forall s :: DependenciesDone(b, task.(status := s))
  {
    forall i | 0 <= i < |task.dependsOn|
      ensures HasId(b, task.dependsOn[i]) && Get(b, task.dependsOn[i]).status.Done()
    {
      var d := task.dependsOn[i];
      var k :| 0 <= k < |a| && a[k] == Get(a, d);
      assert b[k].id == d;
      assert DistinctIds(b);
      GetIsTheTask(b, b[k]);
    }
  }

  lemma AdvanceKeepsCurrentWave(a: seq<Task>, b: seq<Task>, i: nat)
    requires Advances(a, b) && i < |a| && InCurrentWave(a, a[i])
    ensures InCurrentWave(b, b[i])
  {
    forall x | x in b && !x.status.Done()
      ensures b[i].wave <= x.wave
    {
      var k :| 0 <= k < |b| && b[k] == x;
      assert a[k] in a;
    }
  }

  /** A step that activates only tasks in play of the current wave and finishes only active tasks. */
  lemma AdvanceKeepsInv(t: Text, m: Manifest, n: Manifest)
    requires Inv(t, m) && n.maxConcurrency == m.maxConcurrency && Advances(m.tasks, n.tasks)
    requires forall i :: 0 <= i < |m.tasks| && n.tasks[i].status.Active() ==>
               m.tasks[i].status.Active() || (InPlay(m.tasks, m.tasks[i]) && InCurrentWave(m.tasks, m.tasks[i]))
    requires forall i :: 0 <= i < |m.tasks| && n.tasks[i].status.Done() ==>
               m.tasks[i].status.Done() || m.tasks[i].status.Active()
    ensures Inv(t, n)
  {
    var a, b := m.tasks, n.tasks;
    ShapeKeepsAdmission(t, m, n);
    forall task | task in b && (task.status.Done() || task.status.Active())
      ensures DependenciesDone(b, task)
      ensures task.status.Active() ==> InCurrentWave(b, task)
    {
      var i :| 0 <= i < |b| && b[i] == task;
      assert a[i] in a;
      AdvanceKeepsDone(a, b, a[i]);
      assert b[i] == a[i].(status := b[i].status);
      if task.status.Active() {
        AdvanceKeepsCurrentWave(a, b, i);
      }
    }
  }

  /** What one step does to one task: only tasks in play of the current wave become active, only active ones
      become done. */
  ghost predicate StepOk(ts: seq<Task>, before: Task, after: Task) {
    && (before.status.Done() ==> after.status.Done())
    && (after.status.Active() ==> before.status.Active() || (InPlay(ts, before) && InCurrentWave(ts, before)))
    && (after.status.Done() ==> before.status.Done() || before.status.Active())
  }

  lemma DispatchOfTask(t: Text, m: Manifest, limit: Option<int>, chosen: set<Id>, i: nat)
    requires Inv(t, m) && Allowed(t, m, Dispatch(limit, chosen)) && i < |m.tasks|
    ensures StepOk(m.tasks, m.tasks[i], Apply(m, Dispatch(limit, chosen)).tasks[i])
  {
    if m.tasks[i].id in chosen {
      GetIsTheTask(m.tasks, m.tasks[i]);
      ScheduledTask(t, m, limit, m.tasks[i].id);
    }
  }

  lemma ChangeOfTask(t: Text, m: Manifest, id: Id, status: Status, i: nat)
    requires DistinctIds(m.tasks) && Allowed(t, m, Change(id, status)) && i < |m.tasks|
    ensures StepOk(m.tasks, m.tasks[i], Apply(m, Change(id, status)).tasks[i])
  {
    GetIsTheTask(m.tasks, m.tasks[i]);
  }

  lemma StepKeepsInv(t: Text, m: Manifest, a: Action)
    requires Inv(t, m) && Allowed(t, m, a)
    ensures Inv(t, Apply(m, a))
  {
    forall i: nat | i < |m.tasks|
      ensures StepOk(m.tasks, m.tasks[i], Apply(m, a).tasks[i])
    {
      match a {
        case Dispatch(limit, chosen) => DispatchOfTask(t, m, limit, chosen, i);
        case Change(id, status) => ChangeOfTask(t, m, id, status, i);
      }
    }
    AdvanceKeepsInv(t, m, Apply(m, a));
  }

  lemma {:induction false} RunKeepsInv(t: Text, m: Manifest, actions: seq<Action>)
    requires Inv(t, m) && AllAllowed(t, m, actions)
    ensures Inv(t, After(m, actions))
    decreases |actions|
  {
    if actions != [] {
      StepKeepsInv(t, m, actions[0]);
      RunKeepsInv(t, Apply(m, actions[0]), actions[1..]);
    }
  }

  // ---- How many tasks are active ----

  function ActiveIds(ts: seq<Task>): set<Id> {
    set task | task in ts && task.status.Active() :: task.id
  }

  lemma {:induction false} IdsOfDistinct(ts: seq<Task>)
    requires DistinctIds(ts)
    ensures |set task | task in ts :: task.id| == |ts|
  {
    if ts != [] {
      var rest := ts[1..];
      IdsOfDistinct(rest);
      assert (set task | task in ts :: task.id) == {ts[0].id} + set task | task in rest :: task.id;
      assert ts[0].id !in set task | task in rest :: task.id;
    }
  }

  lemma ActiveCount(t: Text, m: Manifest)
    requires Inv(t, m) && Unfinished(m.tasks) != []
    ensures |ActiveIds(m.tasks)| == |ActiveInWave(m.tasks)|
  {
    var ts, active := m.tasks, ActiveInWave(m.tasks);
    CandidateFacts(ts);
    IdsOfDistinct(active);
    forall task | task in ts && task.status.Active()
      ensures task in active
    {
      assert task in Unfinished(ts);
    }
    assert ActiveIds(ts) == set task | task in active :: task.id;
  }

  lemma SubsetIsSmaller(a: set<Id>, b: set<Id>)
    requires a <= b
    ensures |a| <= |b|
  {
    assert b == a + (b - a);
  }

  lemma ChosenFit(chosen: set<Id>, ids: seq<Id>)
    requires forall id :: id in chosen ==> id in ids
    ensures |chosen| <= |ids|
    decreases |ids|
  {
    if ids == [] {
      assert chosen == {};
    } else {
      ChosenFit(chosen - {ids[0]}, ids[1..]);
      SubsetIsSmaller(chosen, (chosen - {ids[0]}) + {ids[0]});
    }
  }

  lemma ActiveAfterDispatch(ts: seq<Task>, chosen: set<Id>)
    ensures |ActiveIds(WithStatus(ts, chosen, Dispatched))| <= |ActiveIds(ts)| + |chosen|
  {
    var next := WithStatus(ts, chosen, Dispatched);
    forall id | id in ActiveIds(next)
      ensures id in ActiveIds(ts) + chosen
    {
      var i :| 0 <= i < |ts| && next[i].status.Active() && next[i].id == id;
      assert ts[i] in ts;
    }
    SubsetIsSmaller(ActiveIds(next), ActiveIds(ts) + chosen);
  }

  lemma DispatchRespectsConcurrency(t: Text, m: Manifest, limit: Option<int>, chosen: set<Id>)
    requires Inv(t, m) && Allowed(t, m, Dispatch(limit, chosen))
    ensures var n := Apply(m, Dispatch(limit, chosen));
      || |ActiveIds(n.tasks)| <= |ActiveIds(m.tasks)|
      || |ActiveIds(n.tasks)| <= ConcurrencyOf(m, Dispatch(limit, chosen))
  {
    var ts, n := m.tasks, Apply(m, Dispatch(limit, chosen));
    ChosenFit(chosen, ReadyAnswer(t, m, limit).taskIds);
    ActiveAfterDispatch(ts, chosen);
    if Unfinished(ts) != [] {
      NoParallelismIsLost(t, m, limit);
      ActiveCount(t, m);
    } else {
      TableOfDistinctTasks(ts);
    }
  }

  lemma ChangeActivatesNothing(t: Text, m: Manifest, id: Id, status: Status)
    requires Inv(t, m) && Allowed(t, m, Change(id, status))
    ensures |ActiveIds(Apply(m, Change(id, status)).tasks)| <= |ActiveIds(m.tasks)|
  {
    var ts, n := m.tasks, Apply(m, Change(id, status));
    forall x | x in ActiveIds(n.tasks)
      ensures x in ActiveIds(ts)
    {
      var i :| 0 <= i < |ts| && n.tasks[i].status.Active() && n.tasks[i].id == x;
      GetIsTheTask(ts, ts[i]);
    }
    SubsetIsSmaller(ActiveIds(n.tasks), ActiveIds(ts));
  }

  /** A step never takes the number of active tasks above both what it was and the concurrency in force. */
  lemma StepRespectsConcurrency(t: Text, m: Manifest, a: Action)
    requires Inv(t, m) && Allowed(t, m, a)
    ensures |ActiveIds(Apply(m, a).tasks)| <= |ActiveIds(m.tasks)|
         || |ActiveIds(Apply(m, a).tasks)| <= ConcurrencyOf(m, a)
  {
    match a {
      case Dispatch(limit, chosen) => DispatchRespectsConcurrency(t, m, limit, chosen);
      case Change(id, status) => ChangeActivatesNothing(t, m, id, status);
    }
  }

  lemma {:induction false} RunRespectsConcurrency(t: Text, m: Manifest, actions: seq<Action>, bound: int)
    requires Inv(t, m) && AllAllowed(t, m, actions)
    requires |ActiveIds(m.tasks)| <= bound && MaxConcurrencyUsed(m, actions) <= bound
    ensures |ActiveIds(After(m, actions).tasks)| <= bound
    decreases |actions|
  {
    if actions != [] {
      StepRespectsConcurrency(t, m, actions[0]);
      StepKeepsInv(t, m, actions[0]);
      RunRespectsConcurrency(t, Apply(m, actions[0]), actions[1..], bound);
    }
  }

  // ---- Safety of every run ----

  /** Everything the listed paths could clash on: aligned patterns in normalised spelling. */
  predicate PlainPattern(t: Text, p: string) {
    Normalize(Canonical(t, p)) == Canonical(t, p) && ComponentAligned(Canonical(t, p))
  }

  /** In every state of a run: an active task is in the current wave, and everything it depends on, at any
      distance, is done; the done set is closed under dependencies.  The run may start fresh, or from earlier work
      that satisfies the invariant. */
  lemma RunKeepsOrder(t: Text, m: Manifest, actions: seq<Action>, task: Task, id: Id)
    requires Inv(t, m) && AllAllowed(t, m, actions)
    requires var ts := After(m, actions).tasks; task in ts && (task.status.Active() || task.status.Done())
    ensures var ts := After(m, actions).tasks;
      && (task.status.Active() ==> InCurrentWave(ts, task))
      && (Reaches(Edges(ts), task.id, id) ==> HasId(ts, id) && Get(ts, id).status.Done())
  {
    RunKeepsInv(t, m, actions);
    var ts := After(m, actions).tasks;
    if Reaches(Edges(ts), task.id, id) {
      ReachedIsDone(ts, task, id);
    }
  }

  lemma NoSharedPath(t: Text, a: Task, b: Task, path: string, p: string, q: string)
    requires !OwnershipOverlap(t, a, b) && p in a.ownedPaths && q in b.ownedPaths
    requires PlainPattern(t, p) && PlainPattern(t, q)
    ensures !(PathMatches(t, path, p) && PathMatches(t, path, q))
  {
    var i :| 0 <= i < |a.ownedPaths| && a.ownedPaths[i] == p;
    var j :| 0 <= j < |b.ownedPaths| && b.ownedPaths[j] == q;
    assert !PatternsOverlap(t, a.ownedPaths[i], b.ownedPaths[j]);
    if PathMatches(t, path, p) && PathMatches(t, path, q) {
      OverlapIsConservative(t, path, p, q);
    }
  }

  /** Two different tasks are never active together in waves 0 and 2; in wave 1 they own no overlapping
      patterns, and no path matches a plain pattern of each. */
  lemma RunKeepsExclusivity(t: Text, m: Manifest, actions: seq<Action>, a: Task, b: Task)
    requires Inv(t, m) && AllAllowed(t, m, actions)
    requires var ts := After(m, actions).tasks;
      a in ts && b in ts && a != b && a.status.Active() && b.status.Active()
    ensures a.wave == b.wave == 1
    ensures !OwnershipOverlap(t, a, b)
    ensures forall path, p, q :: p in a.ownedPaths && q in b.ownedPaths && PlainPattern(t, p) && PlainPattern(t, q)
              ==> !(PathMatches(t, path, p) && PathMatches(t, path, q))
  {
    RunKeepsInv(t, m, actions);
    var ts := After(m, actions).tasks;
    assert a.wave <= b.wave && b.wave <= a.wave;
    InPlayIsExclusive(t, After(m, actions), a, b);
    forall path, p, q | p in a.ownedPaths && q in b.ownedPaths && PlainPattern(t, p) && PlainPattern(t, q)
      ensures !(PathMatches(t, path, p) && PathMatches(t, path, q))
    {
      NoSharedPath(t, a, b, path, p, q);
    }
  }

  /** The number of active tasks never exceeds the largest concurrency any dispatch of the run used, or the number
      the run started with. */
  lemma RunKeepsConcurrency(t: Text, m: Manifest, actions: seq<Action>)
    requires Inv(t, m) && AllAllowed(t, m, actions)
    ensures var used, before := MaxConcurrencyUsed(m, actions), |ActiveIds(m.tasks)|;
      |ActiveIds(After(m, actions).tasks)| <= if used >= before then used else before
  {
    var used, before := MaxConcurrencyUsed(m, actions), |ActiveIds(m.tasks)|;
    RunRespectsConcurrency(t, m, actions, if used >= before then used else before);
  }

  lemma FreshIsInv(t: Text, m: Manifest)
    requires Admitted(t, m) && Fresh(m)
    ensures Inv(t, m) && ActiveIds(m.tasks) == {}
  {
  }
}
