/** What the scheduler answers to any manifest, in the words of the manifest alone. */
module ScheduleContents {
  import opened TaskGraph
  import opened PathPatterns
  import opened Manifest
  import opened Options
  import opened Scheduler
  import opened SchedulerRun

  // ---- The order of ids ----

  /** The string order: a proper prefix, or the smaller character at the first difference. */
  ghost predicate Before(a: Id, b: Id) {
    exists k :: DiffersAt(a, b, k)
  }

  predicate DiffersAt(a: Id, b: Id, k: int) {
    0 <= k <= |a| && k < |b| && a[..k] == b[..k] && (k == |a| || a[k] < b[k])
  }

  lemma BeforeTail(a: Id, b: Id)
    requires a != "" && b != "" && a[0] == b[0]
    ensures Before(a, b) <==> Before(a[1..], b[1..])
  {
    if k :| DiffersAt(a, b, k) {
      assert k > 0;
      assert a[1..][..k - 1] == a[..k][1..] && b[1..][..k - 1] == b[..k][1..];
      assert DiffersAt(a[1..], b[1..], k - 1);
    }
    if k :| DiffersAt(a[1..], b[1..], k) {
      assert a[..k + 1] == [a[0]] + a[1..][..k] && b[..k + 1] == [b[0]] + b[1..][..k];
      assert DiffersAt(a, b, k + 1);
    }
  }

  lemma {:induction false} LeqIsLexicographic(a: Id, b: Id)
    ensures IdLeq(a, b) <==> a == b || Before(a, b)
  {
    if a != "" && b != "" && a[0] == b[0] {
      BeforeTail(a, b);
      LeqIsLexicographic(a[1..], b[1..]);
      assert a == [a[0]] + a[1..] && b == [b[0]] + b[1..];
    } else if a != "" && b != "" {
      assert forall k :: 1 <= k <= |a| && k < |b| ==> a[..k][0] == a[0] && b[..k][0] == b[0];
      assert a[0] < b[0] ==> DiffersAt(a, b, 0);
    } else if b != "" {
      assert DiffersAt(a, b, 0);
    }
  }

  lemma BeforeIsStrict(a: Id, b: Id)
    ensures !(Before(a, b) && Before(b, a)) && (a != b ==> Before(a, b) || Before(b, a))
  {
    LeqIsLexicographic(a, b);
    LeqIsLexicographic(b, a);
    IdLeqTotal(a, b);
  }

  // ---- The task table ----

  /** The last task listed under its id, which must not be blank. */
  ghost predicate Listed(ts: seq<Task>, x: Task) {
    exists i :: 0 <= i < |ts| && ts[i] == x && !Blank(x.id) && forall j :: i < j < |ts| ==> ts[j].id != x.id
  }

  lemma {:induction false} EntryIsSet(table: seq<Task>, task: Task)
    requires DistinctIds(table)
    ensures DistinctIds(SetEntry(table, task))
    ensures forall x :: x in SetEntry(table, task) <==> x == task || (x in table && x.id != task.id)
  {
    if table != [] {
      assert table == [table[0]] + table[1..];
      EntryIsSet(table[1..], task);
    }
  }

  lemma ListedGrows(front: seq<Task>, last: Task, x: Task)
    ensures Listed(front + [last], x) <==> (x == last && !Blank(last.id)) || (Listed(front, x) && x.id != last.id)
  {
    var ts := front + [last];
    if Listed(front, x) && x.id != last.id {
      var i :| 0 <= i < |front| && front[i] == x && !Blank(x.id) && forall j :: i < j < |front| ==> front[j].id != x.id;
      assert ts[i] == x;
    }
    if x == last && !Blank(last.id) {
      assert ts[|front|] == x;
    }
    if i :| 0 <= i < |ts| && ts[i] == x && !Blank(x.id) && forall j :: i < j < |ts| ==> ts[j].id != x.id {
      assert ts[|front|] == last;
      if i < |front| {
        assert front[i] == x && forall j :: i < j < |front| ==> front[j] == ts[j];
      }
    }
  }

  /** The table holds exactly the listed tasks, each id once. */
  lemma {:induction false} TableIsListed(ts: seq<Task>)
    ensures DistinctIds(TaskTable(ts))
    ensures forall x :: x in TaskTable(ts) <==> Listed(ts, x)
  {
    if ts != [] {
      var front, last := ts[..|ts| - 1], ts[|ts| - 1];
      TableIsListed(front);
      if !Blank(last.id) {
        EntryIsSet(TaskTable(front), last);
      }
      assert ts == front + [last];
      forall x
        ensures x in TaskTable(ts) <==> Listed(ts, x)
      {
        ListedGrows(front, last, x);
        assert Listed(front, x) ==> !Blank(x.id);
      }
    }
  }

  // ---- The selection is greedy ----

  ghost predicate StrictlySorted(xs: seq<Task>) {
    forall i, j :: 0 <= i < j < |xs| ==> Before(xs[i].id, xs[j].id)
  }

  lemma SortedIsStrict(xs: seq<Task>)
    requires SortedById(xs) && DistinctIds(xs)
    ensures StrictlySorted(xs)
  {
    forall i, j | 0 <= i < j < |xs|
      ensures Before(xs[i].id, xs[j].id)
    {
      LeqIsLexicographic(xs[i].id, xs[j].id);
    }
  }

  lemma {:induction false} PendingExactly(table: seq<Task>, dependencies: seq<Id>)
    ensures var p := DependenciesPending(table, dependencies);
      && (p.NoSuchTask? ==> p.id in dependencies && !HasId(table, p.id))
      && (p.Waits? ==> (!p.yes <==> forall i :: 0 <= i < |dependencies| ==>
                          HasId(table, dependencies[i]) && Get(table, dependencies[i]).status.Done()))
  {
    if dependencies != [] && HasId(table, dependencies[0]) && Get(table, dependencies[0]).status.Done() {
      PendingExactly(table, dependencies[1..]);
      assert dependencies == [dependencies[0]] + dependencies[1..];
    }
  }

  /** The task may be dispatched, as far as its own status and its dependencies are concerned. */
  predicate Takes(table: seq<Task>, x: Task) {
    x.status.Dispatchable() && DependenciesDone(table, x)
  }

  /** The task overlaps no active task and no selected one before it, and there was room when its turn came. */
  ghost predicate Fits(t: Text, x: Task, active: seq<Task>, selected: seq<Task>, capacity: int) {
    && (forall y :: y in active ==> !OwnershipOverlap(t, x, y))
    && (forall y :: y in selected && Before(y.id, x.id) ==> !OwnershipOverlap(t, x, y))
    && (|selected| < capacity || exists y :: y in selected && !Before(y.id, x.id))
  }

  /** The selection from the candidates, after those already selected. */
  ghost predicate Greedy(t: Text, table: seq<Task>, candidates: seq<Task>, active: seq<Task>, selected: seq<Task>,
                         capacity: int, r: seq<Task>) {
    && selected <= r && |r| <= capacity && StrictlySorted(r)
    && (forall x :: x in r[|selected|..] ==> x in candidates && Takes(table, x))
    && (forall x :: x in candidates && Takes(table, x) ==> (x in r <==> Fits(t, x, active, r, capacity)))
  }

  lemma OverlapsWithSome(t: Text, x: Task, occupied: seq<Task>)
    ensures OverlapsSome(t, x, occupied) <==> exists y :: y in occupied && OwnershipOverlap(t, x, y)
  {
  }

  lemma OthersDiffer(candidates: seq<Task>, selected: seq<Task>, r: seq<Task>)
    requires candidates != [] && StrictlySorted(selected + candidates)
    requires selected <= r && forall x :: x in r[|selected|..] ==> x in candidates[1..]
    ensures candidates[0] !in r && forall y :: y in selected ==> Before(y.id, candidates[0].id)
  {
    var head, n, all := candidates[0], |selected|, selected + candidates;
    assert all[n] == head;
    forall i | 0 <= i < |r|
      ensures r[i] != head
    {
      if i < n {
        assert Before(all[i].id, all[n].id);
        BeforeIsStrict(head.id, head.id);
      } else {
        assert r[n..][i - n] == r[i] && r[i] in r[n..];
        var k :| 0 <= k < |candidates[1..]| && candidates[1..][k] == r[i];
        assert Before(all[n].id, all[n + 1 + k].id);
        BeforeIsStrict(head.id, head.id);
      }
    }
    forall y | y in selected
      ensures Before(y.id, head.id)
    {
      var i :| 0 <= i < n && selected[i] == y;
      assert Before(all[i].id, all[n].id);
    }
  }

  lemma OverlapDoesNotFit(t: Text, x: Task, active: seq<Task>, selected: seq<Task>, r: seq<Task>, capacity: int)
    requires OverlapsSome(t, x, active + selected)
    requires forall y :: y in selected ==> y in r && Before(y.id, x.id)
    ensures !Fits(t, x, active, r, capacity)
  {
    OverlapsWithSome(t, x, active + selected);
    var y :| y in active + selected && OwnershipOverlap(t, x, y);
  }

  /** A task that is passed over does not fit, or may not be dispatched. */
  lemma PassOver(t: Text, table: seq<Task>, candidates: seq<Task>, active: seq<Task>, selected: seq<Task>,
                 capacity: int, r: seq<Task>)
    requires candidates != [] && StrictlySorted(selected + candidates)
    requires !Takes(table, candidates[0]) || OverlapsSome(t, candidates[0], active + selected)
    requires Greedy(t, table, candidates[1..], active, selected, capacity, r)
    ensures Greedy(t, table, candidates, active, selected, capacity, r)
  {
    OthersDiffer(candidates, selected, r);
    if Takes(table, candidates[0]) {
      OverlapDoesNotFit(t, candidates[0], active, selected, r, capacity);
    }
  }

  lemma SortedTail(selected: seq<Task>, candidates: seq<Task>)
    requires candidates != [] && StrictlySorted(selected + candidates)
    ensures StrictlySorted(selected + candidates[1..]) && StrictlySorted(selected + [candidates[0]])
    ensures selected + candidates == (selected + [candidates[0]]) + candidates[1..]
  {
    var all, rest := selected + candidates, selected + candidates[1..];
    assert all == (selected + [candidates[0]]) + candidates[1..];
    forall i, j | 0 <= i < j < |rest|
      ensures Before(rest[i].id, rest[j].id)
    {
      var i', j' := if i < |selected| then i else i + 1, if j < |selected| then j else j + 1;
      assert rest[i] == all[i'] && rest[j] == all[j'];
    }
    forall i, j | 0 <= i < j <= |selected|
      ensures Before((selected + [candidates[0]])[i].id, (selected + [candidates[0]])[j].id)
    {
      assert (selected + [candidates[0]])[i] == all[i] && (selected + [candidates[0]])[j] == all[j];
    }
  }

  /** A task that is taken fits. */
  lemma TakeFirst(t: Text, table: seq<Task>, candidates: seq<Task>, active: seq<Task>, selected: seq<Task>,
                  capacity: int, r: seq<Task>)
    requires candidates != [] && StrictlySorted(selected + candidates) && |selected| < capacity
    requires Takes(table, candidates[0]) && !OverlapsSome(t, candidates[0], active + selected)
    requires Greedy(t, table, candidates[1..], active, selected + [candidates[0]], capacity, r)
    ensures Greedy(t, table, candidates, active, selected, capacity, r)
  {
    var head, n := candidates[0], |selected|;
    assert r[n] == head && r[n..] == [head] + r[n + 1..];
    OverlapsWithSome(t, head, active + selected);
    forall y | y in r && Before(y.id, head.id)
      ensures !OwnershipOverlap(t, head, y)
    {
      var i :| 0 <= i < |r| && r[i] == y;
      BeforeIsStrict(y.id, head.id);
      assert i < n;
      assert y == selected[i];
      assert y in active + selected;
    }
    BeforeIsStrict(head.id, head.id);
    assert Fits(t, head, active, r, capacity);
  }

  /** The loop stops: all candidates after the last one taken come too late. */
  lemma StopAtCapacity(t: Text, table: seq<Task>, candidates: seq<Task>, active: seq<Task>, selected: seq<Task>,
                       capacity: int)
    requires StrictlySorted(selected + candidates) && |selected| == capacity
    ensures Greedy(t, table, candidates, active, selected, capacity, selected)
  {
    var all := selected + candidates;
    forall i, j | 0 <= i < j < |selected|
      ensures Before(selected[i].id, selected[j].id)
    {
      assert all[i] == selected[i] && all[j] == selected[j];
    }
    forall x, y | x in candidates && y in selected
      ensures Before(y.id, x.id) && x != y
    {
      var i :| 0 <= i < |selected| && selected[i] == y;
      var k :| 0 <= k < |candidates| && candidates[k] == x;
      assert all[i] == y && all[|selected| + k] == x;
      BeforeIsStrict(y.id, x.id);
    }
  }

  /** A dispatchable candidate depends on an id outside the table. */
  ghost predicate Asks(table: seq<Task>, candidates: seq<Task>, id: Id) {
    !HasId(table, id) && exists x :: x in candidates && x.status.Dispatchable() && id in x.dependsOn
  }

  lemma {:induction false} SelectIsGreedy(t: Text, table: seq<Task>, candidates: seq<Task>, active: seq<Task>,
                                          selected: seq<Task>, capacity: int)
    requires |selected| < capacity && StrictlySorted(selected + candidates)
    ensures var s := Select(t, table, candidates, active, selected, capacity);
      && (s.Selected? ==> Greedy(t, table, candidates, active, selected, capacity, s.tasks))
      && (s.Missing? ==> Asks(table, candidates, s.id))
    decreases |candidates|
  {
    if candidates == [] {
      assert selected + [] == selected;
    } else {
      var task, rest := candidates[0], candidates[1..];
      PendingExactly(table, task.dependsOn);
      SortedTail(selected, candidates);
      if task.status.Dispatchable() && DependenciesPending(table, task.dependsOn).NoSuchTask? {
        assert task in candidates;
      } else if !Takes(table, task) || OverlapsSome(t, task, active + selected) {
        SelectIsGreedy(t, table, rest, active, selected, capacity);
        if Select(t, table, rest, active, selected, capacity).Selected? {
          PassOver(t, table, candidates, active, selected, capacity,
                   Select(t, table, rest, active, selected, capacity).tasks);
        }
      } else if |selected| + 1 >= capacity {
        StopAtCapacity(t, table, rest, active, selected + [task], capacity);
        TakeFirst(t, table, candidates, active, selected, capacity, selected + [task]);
      } else {
        SelectIsGreedy(t, table, rest, active, selected + [task], capacity);
        if Select(t, table, rest, active, selected + [task], capacity).Selected? {
          TakeFirst(t, table, candidates, active, selected, capacity,
                    Select(t, table, rest, active, selected + [task], capacity).tasks);
        }
      }
    }
  }

  // ---- The answer, written out ----

  /** A task listed under this id is merged, verified or archived. */
  ghost predicate Finished(ts: seq<Task>, id: Id) {
    exists x :: Listed(ts, x) && x.id == id && x.status in {Merged, Verified, Archived}
  }

  /** The least wave of a listed task that is not merged, verified or archived. */
  ghost predicate CurrentWave(ts: seq<Task>, w: int) {
    && (exists x :: Listed(ts, x) && x.status !in {Merged, Verified, Archived} && x.wave == w)
    && (forall x :: Listed(ts, x) && x.status !in {Merged, Verified, Archived} ==> w <= x.wave)
  }

  ghost predicate ActiveNow(ts: seq<Task>, w: int, x: Task) {
    Listed(ts, x) && x.wave == w && x.status in {Dispatched, PrOpen}
  }

  /** How many listed tasks of the wave are dispatched or have an open pull request. */
  ghost function ActiveCountIn(ts: seq<Task>, w: int): nat {
    |set x | x in ts && ActiveNow(ts, w, x) :: x.id|
  }

  /** A task of the wave that is approved or ready and whose dependencies are all finished. */
  ghost predicate Waiting(ts: seq<Task>, w: int, x: Task) {
    && Listed(ts, x) && x.wave == w && x.status in {Approved, Ready}
    && forall d :: d in x.dependsOn ==> Finished(ts, d)
  }

  /** The ids are in order and at most as many as there is room for.  They belong to waiting tasks; a waiting task is
      among them exactly when it overlaps no active task of the wave and no earlier task among them, and the room was
      not used up by earlier ones. */
  ghost predicate Fills(t: Text, ts: seq<Task>, w: int, room: int, ids: seq<Id>) {
    && |ids| <= room && (forall i, j :: 0 <= i < j < |ids| ==> Before(ids[i], ids[j]))
    && (forall id :: id in ids ==> exists x :: Waiting(ts, w, x) && x.id == id)
    && (forall x :: Waiting(ts, w, x) ==>
          (x.id in ids <==>
             && (forall y :: ActiveNow(ts, w, y) ==> !OwnershipOverlap(t, x, y))
             && (forall y :: Waiting(ts, w, y) && y.id in ids && Before(y.id, x.id) ==> !OwnershipOverlap(t, x, y))
             && (|ids| < room || exists id :: id in ids && !Before(id, x.id))))
  }

  lemma DependenciesFinished(ts: seq<Task>, x: Task)
    ensures DependenciesDone(TaskTable(ts), x) <==> forall d :: d in x.dependsOn ==> Finished(ts, d)
  {
    var table := TaskTable(ts);
    TableIsListed(ts);
    forall d
      ensures HasId(table, d) && Get(table, d).status.Done() <==> Finished(ts, d)
    {
      if x' :| Listed(ts, x') && x'.id == d && x'.status in {Merged, Verified, Archived} {
        GetIsTheTask(table, x');
      }
      if HasId(table, d) && Get(table, d).status.Done() {
        assert Listed(ts, Get(table, d));
      }
    }
    if DependenciesDone(table, x) {
      forall d | d in x.dependsOn
        ensures Finished(ts, d)
      {
        var i :| 0 <= i < |x.dependsOn| && x.dependsOn[i] == d;
      }
    }
  }

  lemma InTable(ts: seq<Task>, x: Task)
    ensures x in TaskTable(ts) <==> Listed(ts, x)
  {
    TableIsListed(ts);
  }

  /** The candidates of the current wave. */
  lemma CandidatesListed(ts: seq<Task>, x: Task)
    requires Unfinished(TaskTable(ts)) != []
    ensures x in WaveCandidates(TaskTable(ts)) <==>
              Listed(ts, x) && x.status !in {Merged, Verified, Archived}
                && x.wave == LeastWave(Unfinished(TaskTable(ts)))
  {
    TableIsDistinct(ts);
    CandidateFacts(TaskTable(ts));
    InTable(ts, x);
  }

  lemma TableIsDistinct(ts: seq<Task>)
    ensures DistinctIds(TaskTable(ts))
  {
    TableIsListed(ts);
  }

  lemma WaitingTakes(ts: seq<Task>, w: int, x: Task)
    requires Unfinished(TaskTable(ts)) != [] && w == LeastWave(Unfinished(TaskTable(ts)))
    ensures Waiting(ts, w, x) <==> x in WaveCandidates(TaskTable(ts)) && Takes(TaskTable(ts), x)
  {
    CandidatesListed(ts, x);
    DependenciesFinished(ts, x);
  }

  lemma ActiveListed(ts: seq<Task>, w: int, x: Task)
    requires Unfinished(TaskTable(ts)) != [] && w == LeastWave(Unfinished(TaskTable(ts)))
    ensures x in ActiveInWave(TaskTable(ts)) <==> ActiveNow(ts, w, x)
  {
    InTable(ts, x);
  }

  lemma CountActive(ts: seq<Task>, w: int, active: seq<Task>)
    requires DistinctIds(active) && forall x :: x in active <==> ActiveNow(ts, w, x)
    ensures |active| == ActiveCountIn(ts, w)
  {
    IdsOfDistinct(active);
    assert (set x | x in active :: x.id) == set x | x in ts && ActiveNow(ts, w, x) :: x.id;
  }

  lemma ActiveInTable(ts: seq<Task>, w: int)
    requires Unfinished(TaskTable(ts)) != [] && w == LeastWave(Unfinished(TaskTable(ts)))
    ensures |ActiveInWave(TaskTable(ts))| == ActiveCountIn(ts, w)
  {
    TableIsDistinct(ts);
    CandidateFacts(TaskTable(ts));
    forall x {
      ActiveListed(ts, w, x);
    }
    CountActive(ts, w, ActiveInWave(TaskTable(ts)));
  }

  lemma UnfinishedListed(ts: seq<Task>, x: Task)
    ensures x in Unfinished(TaskTable(ts)) <==> Listed(ts, x) && x.status !in {Merged, Verified, Archived}
  {
    InTable(ts, x);
  }

  lemma LeastIsCurrent(ts: seq<Task>, unfinished: seq<Task>)
    requires unfinished != []
    requires forall x :: x in unfinished <==> Listed(ts, x) && x.status !in {Merged, Verified, Archived}
    ensures CurrentWave(ts, LeastWave(unfinished))
  {
  }

  lemma WaveIsCurrent(ts: seq<Task>)
    requires Unfinished(TaskTable(ts)) != []
    ensures CurrentWave(ts, LeastWave(Unfinished(TaskTable(ts))))
  {
    forall x {
      UnfinishedListed(ts, x);
    }
    LeastIsCurrent(ts, Unfinished(TaskTable(ts)));
  }

  lemma ListedOnce(ts: seq<Task>, x: Task, y: Task)
    requires Listed(ts, x) && Listed(ts, y) && x.id == y.id
    ensures x == y
  {
    TableIsListed(ts);
    GetIsTheTask(TaskTable(ts), x);
    GetIsTheTask(TaskTable(ts), y);
  }

  lemma IdsAreMembers(ts: seq<Task>, r: seq<Task>, x: Task)
    requires Listed(ts, x) && forall y :: y in r ==> Listed(ts, y)
    ensures x.id in Ids(r) <==> x in r
  {
    if x.id in Ids(r) {
      var i :| 0 <= i < |r| && Ids(r)[i] == x.id;
      ListedOnce(ts, x, r[i]);
    }
    if x in r {
      var i :| 0 <= i < |r| && r[i] == x;
      assert Ids(r)[i] == x.id;
    }
  }

  lemma FitsByIds(t: Text, ts: seq<Task>, w: int, x: Task, active: seq<Task>, r: seq<Task>, room: int)
    requires forall y :: y in r ==> Waiting(ts, w, y)
    requires forall y :: y in active <==> ActiveNow(ts, w, y)
    ensures Fits(t, x, active, r, room) <==>
              && (forall y :: ActiveNow(ts, w, y) ==> !OwnershipOverlap(t, x, y))
              && (forall y :: Waiting(ts, w, y) && y.id in Ids(r) && Before(y.id, x.id) ==> !OwnershipOverlap(t, x, y))
              && (|Ids(r)| < room || exists id :: id in Ids(r) && !Before(id, x.id))
  {
    forall y | Waiting(ts, w, y)
      ensures y.id in Ids(r) <==> y in r
    {
      IdsAreMembers(ts, r, y);
    }
    if y :| y in r && !Before(y.id, x.id) {
      IdsAreMembers(ts, r, y);
    }
    if id :| id in Ids(r) && !Before(id, x.id) {
      var i :| 0 <= i < |r| && Ids(r)[i] == id;
      assert r[i] in r;
    }
  }

  lemma IdsInOrder(r: seq<Task>)
    requires StrictlySorted(r)
    ensures forall i, j :: 0 <= i < j < |Ids(r)| ==> Before(Ids(r)[i], Ids(r)[j])
  {
  }

  lemma IdsWait(ts: seq<Task>, w: int, r: seq<Task>)
    requires forall y :: y in r ==> Waiting(ts, w, y)
    ensures forall id :: id in Ids(r) ==> exists x :: Waiting(ts, w, x) && x.id == id
  {
    forall id | id in Ids(r)
      ensures exists x :: Waiting(ts, w, x) && x.id == id
    {
      var i :| 0 <= i < |r| && Ids(r)[i] == id;
      assert Waiting(ts, w, r[i]);
    }
  }

  lemma MemberFits(t: Text, ts: seq<Task>, w: int, x: Task, active: seq<Task>, r: seq<Task>, room: int)
    requires forall y :: y in r ==> Waiting(ts, w, y)
    requires forall y :: y in active <==> ActiveNow(ts, w, y)
    requires Waiting(ts, w, x) && (x in r <==> Fits(t, x, active, r, room))
    ensures x.id in Ids(r) <==>
              && (forall y :: ActiveNow(ts, w, y) ==> !OwnershipOverlap(t, x, y))
              && (forall y :: Waiting(ts, w, y) && y.id in Ids(r) && Before(y.id, x.id) ==> !OwnershipOverlap(t, x, y))
              && (|Ids(r)| < room || exists id :: id in Ids(r) && !Before(id, x.id))
  {
    IdsAreMembers(ts, r, x);
    FitsByIds(t, ts, w, x, active, r, room);
  }

  /** The ids of a greedy selection fill the room. */
  lemma GreedyFills(t: Text, ts: seq<Task>, w: int, room: int, table: seq<Task>, candidates: seq<Task>,
                    active: seq<Task>, r: seq<Task>)
    requires forall x :: Waiting(ts, w, x) <==> x in candidates && Takes(table, x)
    requires forall y :: y in active <==> ActiveNow(ts, w, y)
    requires Greedy(t, table, candidates, active, [], room, r)
    ensures Fills(t, ts, w, room, Ids(r))
  {
    assert r[0..] == r;
    IdsInOrder(r);
    IdsWait(ts, w, r);
    forall x | Waiting(ts, w, x) {
      MemberFits(t, ts, w, x, active, r, room);
    }
  }

  /** What the scheduler must answer when there is no lookup error.  The concurrency is 1 in waves 0 and 2; in any other
      wave it is the limit, or `max_concurrency` when there is none. */
  ghost predicate IsAnswer(t: Text, m: Manifest, limit: Option<int>, wave: Option<int>, ids: seq<Id>, capacity: int,
                           complete: bool) {
    if forall x :: Listed(m.tasks, x) ==> x.status in {Merged, Verified, Archived} then
      complete && wave == None && ids == [] && capacity == 0
    else
      && !complete && wave.Some? && CurrentWave(m.tasks, wave.value)
      && var n := if wave.value == 0 || wave.value == 2 then 1
                  else if limit.Some? then limit.value else m.maxConcurrency;
         var room := n - ActiveCountIn(m.tasks, wave.value);
         capacity == (if room > 0 then room else 0) && Fills(t, m.tasks, wave.value, capacity, ids)
  }

  /** A task that is approved or ready depends on this id, which no task is listed under. */
  ghost predicate Misses(ts: seq<Task>, id: Id) {
    && (exists x :: Listed(ts, x) && x.status in {Approved, Ready} && id in x.dependsOn)
    && (forall x :: Listed(ts, x) ==> x.id != id)
  }

  lemma NothingFillsNoRoom(t: Text, ts: seq<Task>, w: int)
    ensures Fills(t, ts, w, 0, [])
  {
  }

  /** The selection from a table, when there is room in the current wave. */
  lemma SelectFromTable(t: Text, table: seq<Task>, room: int)
    requires DistinctIds(table) && Unfinished(table) != [] && room > 0
    ensures var s := Select(t, table, WaveCandidates(table), ActiveInWave(table), [], room);
      && (s.Missing? ==> Asks(table, WaveCandidates(table), s.id))
      && (s.Selected? ==> Greedy(t, table, WaveCandidates(table), ActiveInWave(table), [], room, s.tasks))
  {
    var candidates := WaveCandidates(table);
    CandidateFacts(table);
    SortIsSorted(InWave(Unfinished(table), LeastWave(Unfinished(table))));
    SortedIsStrict(candidates);
    assert [] + candidates == candidates;
    SelectIsGreedy(t, table, candidates, ActiveInWave(table), [], room);
  }

  lemma MissingIsMissed(ts: seq<Task>, x: Task, id: Id)
    requires Unfinished(TaskTable(ts)) != [] && x in WaveCandidates(TaskTable(ts))
    requires x.status.Dispatchable() && id in x.dependsOn && !HasId(TaskTable(ts), id)
    ensures Misses(ts, id)
  {
    CandidatesListed(ts, x);
    forall y | Listed(ts, y)
      ensures y.id != id
    {
      InTable(ts, y);
    }
  }

  lemma SelectedFills(t: Text, ts: seq<Task>, w: int, room: int, r: seq<Task>)
    requires Unfinished(TaskTable(ts)) != [] && w == LeastWave(Unfinished(TaskTable(ts)))
    requires Greedy(t, TaskTable(ts), WaveCandidates(TaskTable(ts)), ActiveInWave(TaskTable(ts)), [], room, r)
    ensures Fills(t, ts, w, room, Ids(r))
  {
    var table, candidates, active := TaskTable(ts), WaveCandidates(TaskTable(ts)), ActiveInWave(TaskTable(ts));
    assert forall x :: Waiting(ts, w, x) <==> x in candidates && Takes(table, x) by {
      forall x
        ensures Waiting(ts, w, x) <==> x in candidates && Takes(table, x)
      {
        WaitingTakes(ts, w, x);
      }
    }
    assert forall y :: y in active <==> ActiveNow(ts, w, y) by {
      forall y
        ensures y in active <==> ActiveNow(ts, w, y)
      {
        ActiveListed(ts, w, y);
      }
    }
    GreedyFills(t, ts, w, room, table, candidates, active, r);
  }

  lemma SelectionFills(t: Text, ts: seq<Task>, room: int)
    requires Unfinished(TaskTable(ts)) != [] && room > 0
    ensures var s := Select(t, TaskTable(ts), WaveCandidates(TaskTable(ts)), ActiveInWave(TaskTable(ts)), [], room);
      && (s.Missing? ==> Misses(ts, s.id))
      && (s.Selected? ==> Fills(t, ts, LeastWave(Unfinished(TaskTable(ts))), room, Ids(s.tasks)))
  {
    var table := TaskTable(ts);
    TableIsDistinct(ts);
    SelectFromTable(t, table, room);
    var s := Select(t, table, WaveCandidates(table), ActiveInWave(table), [], room);
    if s.Missing? {
      var x :| x in WaveCandidates(table) && x.status.Dispatchable() && s.id in x.dependsOn;
      MissingIsMissed(ts, x, s.id);
    } else {
      SelectedFills(t, ts, LeastWave(Unfinished(table)), room, s.tasks);
    }
  }

  /** A lookup error names a dependency of a dispatchable task that no listed task has, and any other answer is the one
      written out. */
  ghost predicate AnswerFits(t: Text, m: Manifest, limit: Option<int>, answer: Answer) {
    match answer
    case MissingDependency(id) => Misses(m.tasks, id)
    case Schedule(wave, ids, capacity, complete) => IsAnswer(t, m, limit, wave, ids, capacity, complete)
  }

  lemma OpenAnswer(t: Text, m: Manifest, limit: Option<int>, w: int, ids: seq<Id>, capacity: int)
    requires CurrentWave(m.tasks, w) && Fills(t, m.tasks, w, capacity, ids)
    requires var room := Concurrency(m, limit, w) - ActiveCountIn(m.tasks, w); capacity == if room > 0 then room else 0
    ensures IsAnswer(t, m, limit, Some(w), ids, capacity, false)
  {
    var x :| Listed(m.tasks, x) && x.status !in {Merged, Verified, Archived} && x.wave == w;
  }

  /** The answer in the current wave, in terms of its candidates and active tasks. */
  lemma ReadyInWave(t: Text, m: Manifest, limit: Option<int>)
    requires Unfinished(TaskTable(m.tasks)) != []
    ensures var table := TaskTable(m.tasks);
      var w := LeastWave(Unfinished(table));
      ReadyAnswer(t, m, limit) ==
        InWaveAnswer(w, Concurrency(m, limit, w) - |ActiveInWave(table)|,
                     Select(t, table, WaveCandidates(table), ActiveInWave(table), [],
                            Concurrency(m, limit, w) - |ActiveInWave(table)|))
  {
  }

  function InWaveAnswer(w: int, room: int, selection: Selection): Answer {
    if room <= 0 then Schedule(Some(w), [], 0, false)
    else match selection
      case Missing(id) => MissingDependency(id)
      case Selected(tasks) => Schedule(Some(w), Ids(tasks), room, false)
  }

  lemma InWaveFits(t: Text, m: Manifest, limit: Option<int>, w: int, room: int, selection: Selection)
    requires CurrentWave(m.tasks, w) && room == Concurrency(m, limit, w) - ActiveCountIn(m.tasks, w)
    requires room > 0 && selection.Missing? ==> Misses(m.tasks, selection.id)
    requires room > 0 && selection.Selected? ==> Fills(t, m.tasks, w, room, Ids(selection.tasks))
    ensures AnswerFits(t, m, limit, InWaveAnswer(w, room, selection))
  {
    if room <= 0 {
      NothingFillsNoRoom(t, m.tasks, w);
      OpenAnswer(t, m, limit, w, [], 0);
    } else if selection.Selected? {
      OpenAnswer(t, m, limit, w, Ids(selection.tasks), room);
    }
  }

  /** What the scheduler answers to any manifest. */
  lemma AnswerExactly(t: Text, m: Manifest, limit: Option<int>)
    ensures AnswerFits(t, m, limit, ReadyAnswer(t, m, limit))
  {
    var table := TaskTable(m.tasks);
    if Unfinished(table) == [] {
      AllFinished(m.tasks);
    } else {
      var w := LeastWave(Unfinished(table));
      var room := Concurrency(m, limit, w) - |ActiveInWave(table)|;
      var selection := Select(t, table, WaveCandidates(table), ActiveInWave(table), [], room);
      ReadyInWave(t, m, limit);
      WaveIsCurrent(m.tasks);
      ActiveInTable(m.tasks, w);
      if room > 0 {
        SelectionFills(t, m.tasks, room);
      }
      InWaveFits(t, m, limit, w, room, selection);
    }
  }

  lemma AllFinished(ts: seq<Task>)
    requires Unfinished(TaskTable(ts)) == []
    ensures forall x :: Listed(ts, x) ==> x.status in {Merged, Verified, Archived}
  {
    forall x | Listed(ts, x)
      ensures x.status in {Merged, Verified, Archived}
    {
      InTable(ts, x);
      assert x !in Unfinished(TaskTable(ts));
    }
  }

  // ---- Concurrency over runs ----

  /** No dispatch of the run may go beyond n: its limit is at most n, or `max_concurrency` is if it has none. */
  ghost predicate DispatchesWithin(m: Manifest, actions: seq<Action>, n: int) {
    forall a :: a in actions && a.Dispatch? ==> (if a.limit.Some? then a.limit.value else m.maxConcurrency) <= n
  }

  lemma {:induction false} ConcurrencyWithin(m: Manifest, actions: seq<Action>, n: int)
    requires n >= 1 && DispatchesWithin(m, actions, n)
    ensures MaxConcurrencyUsed(m, actions) <= n
    decreases |actions|
  {
    if actions != [] {
      assert actions[0] in actions;
      assert forall a :: a in actions[1..] ==> a in actions;
      ConcurrencyWithin(Apply(m, actions[0]), actions[1..], n);
    }
  }

  /** If no dispatch of a run may go beyond n, there are never more than n tasks dispatched or with an open pull
      request, or as many as the run started with. */
  lemma RunKeepsLimit(t: Text, m: Manifest, actions: seq<Action>, n: int)
    requires Inv(t, m) && AllAllowed(t, m, actions) && n >= 1 && DispatchesWithin(m, actions, n)
    ensures var before := |set x | x in m.tasks && x.status in {Dispatched, PrOpen} :: x.id|;
      |set x | x in After(m, actions).tasks && x.status in {Dispatched, PrOpen} :: x.id|
        <= if n >= before then n else before
  {
    ConcurrencyWithin(m, actions, n);
    RunKeepsConcurrency(t, m, actions);
    ActiveIdsWritten(m.tasks);
    ActiveIdsWritten(After(m, actions).tasks);
  }

  lemma ActiveIdsWritten(ts: seq<Task>)
    ensures ActiveIds(ts) == set x | x in ts && x.status in {Dispatched, PrOpen} :: x.id
  {
  }
}
