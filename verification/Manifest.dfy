/** The parts of an execution manifest that the scheduler depends on, and the checks of
    `validate_manifest` on ids, dependencies, waves and path ownership. */
module Manifest {
  import opened TaskGraph
  import opened PathPatterns
  import CycleFinder

  datatype Status = Proposed | Approved | Ready | Dispatched | PrOpen | Merged | Verified | Archived | Blocked | Failed
  {
    predicate Done() { Merged? || Verified? || Archived? }
    predicate Active() { Dispatched? || PrOpen? }
    predicate Dispatchable() { Approved? || Ready? }
  }

  datatype Task = Task(id: Id, wave: int, status: Status, dependsOn: seq<Id>, ownedPaths: seq<string>)

  datatype Manifest = Manifest(tasks: seq<Task>, maxConcurrency: int)

  // ---- The task table ----

  ghost predicate DistinctIds(ts: seq<Task>) {
    forall i, j :: 0 <= i < j < |ts| ==> ts[i].id != ts[j].id
  }

  predicate HasId(ts: seq<Task>, id: Id) {
    exists i :: 0 <= i < |ts| && ts[i].id == id
  }

  /** The task a dictionary from ids to tasks holds under `id`. */
  function Get(ts: seq<Task>, id: Id): (task: Task)
    requires HasId(ts, id)
    ensures task in ts && task.id == id
  {
    if ts[0].id == id then ts[0] else Get(ts[1..], id)
  }

  function Edges(ts: seq<Task>): (g: Graph)
    ensures forall x :: x in g <==> HasId(ts, x)
  {
    map id | id in (set task | task in ts :: task.id) :: Get(ts, id).dependsOn
  }

  lemma GetIsTheTask(ts: seq<Task>, task: Task)
    requires DistinctIds(ts) && task in ts
    ensures HasId(ts, task.id) && Get(ts, task.id) == task
  {
    var other := Get(ts, task.id);
    var i :| 0 <= i < |ts| && ts[i] == task;
    var j :| 0 <= j < |ts| && ts[j] == other;
  }

  // ---- The rules ----

  predicate Upper(c: char) { 'A' <= c <= 'Z' }

  predicate UpperOrDigit(c: char) { 'A' <= c <= 'Z' || '0' <= c <= '9' }

  /** The id pattern: an upper-case word, a hyphen, and a tail of upper-case letters, digits and hyphens
      that does not start with a hyphen.  `$` also accepts one final line feed. */
  predicate StableId(id: Id) {
    var s := if id != "" && id[|id| - 1] == '\n' then id[..|id| - 1] else id;
    s != "" && Upper(s[0]) && exists k :: 1 <= k < |s| - 1 && HyphenAt(s, k)
  }

  predicate HyphenAt(s: string, k: nat)
    requires 1 <= k < |s| - 1
  {
    && s[k] == '-' && UpperOrDigit(s[k + 1])
    && (forall i :: 1 <= i < k ==> UpperOrDigit(s[i]))
    && (forall i :: k + 2 <= i < |s| ==> UpperOrDigit(s[i]) || s[i] == '-')
  }

  /** The id pattern `[A-Z][A-Z0-9]*-[A-Z0-9][A-Z0-9-]*`, with an optional line feed behind it. */
  ghost predicate IdPattern(id: Id, word: string, tail: string, end: string) {
    && id == word + "-" + tail + end && (end == "" || end == "\n")
    && word != "" && 'A' <= word[0] <= 'Z' && (forall c :: c in word ==> 'A' <= c <= 'Z' || '0' <= c <= '9')
    && tail != "" && tail[0] != '-' && (forall c :: c in tail ==> 'A' <= c <= 'Z' || '0' <= c <= '9' || c == '-')
  }

  lemma HyphenSplits(s: string, k: nat, end: string)
    requires 1 <= k < |s| - 1 && Upper(s[0]) && HyphenAt(s, k) && (end == "" || end == "\n")
    ensures IdPattern(s + end, s[..k], s[k + 1..], end)
  {
    assert s == s[..k] + "-" + s[k + 1..];
    assert s + end == s[..k] + "-" + s[k + 1..] + end;
  }

  lemma PatternHasHyphen(word: string, tail: string)
    requires IdPattern(word + "-" + tail, word, tail, "")
    ensures |word + "-" + tail| - 1 > |word| >= 1 && HyphenAt(word + "-" + tail, |word|)
  {
    var s := word + "-" + tail;
    forall i | 0 <= i < |word|
      ensures UpperOrDigit(s[i])
    {
      assert word[i] in word && s[i] == word[i];
    }
    forall i | 0 <= i < |tail|
      ensures s[|word| + 1 + i] == tail[i] && (UpperOrDigit(tail[i]) || tail[i] == '-')
    {
      assert tail[i] in tail;
    }
    assert forall i :: |word| + 2 <= i < |s| ==> s[i] == tail[i - |word| - 1];
  }

  lemma PatternIsStable(id: Id, word: string, tail: string, end: string)
    requires IdPattern(id, word, tail, end)
    ensures StableId(id)
  {
    var s := word + "-" + tail;
    assert s + "" == s;
    PatternHasHyphen(word, tail);
    assert s[0] == word[0] && s[|s| - 1] == tail[|tail| - 1] && tail[|tail| - 1] in tail;
    assert end == "\n" ==> id[..|id| - 1] == s;
  }

  /** An id is stable exactly when it matches the pattern. */
  lemma StableIdMatches(id: Id)
    ensures StableId(id) <==> exists word, tail, end :: IdPattern(id, word, tail, end)
  {
    if StableId(id) {
      var feed := id[|id| - 1] == '\n';
      var s := if feed then id[..|id| - 1] else id;
      var k :| 1 <= k < |s| - 1 && HyphenAt(s, k);
      HyphenSplits(s, k, if feed then "\n" else "");
      assert id == s + if feed then "\n" else "";
    }
    if word, tail, end :| IdPattern(id, word, tail, end) {
      PatternIsStable(id, word, tail, end);
    }
  }

  predicate ValidFields(task: Task) {
    && StableId(task.id)
    && (forall d :: d in task.dependsOn ==> !Blank(d))
    && task.ownedPaths != [] && (forall p :: p in task.ownedPaths ==> !Blank(p))
    && (task.wave == 0 || task.wave == 1 || task.wave == 2)
  }

  ghost predicate FieldRules(ts: seq<Task>) {
    DistinctIds(ts) && forall task :: task in ts ==> ValidFields(task)
  }

  /** The rules for the fields of a task, written out: a stable id, dependencies and owned paths that are not white
      space alone, at least one owned path, and wave 0, 1 or 2. */
  lemma FieldRulesExactly(ts: seq<Task>)
    ensures FieldRules(ts) <==>
              && (forall i, j :: 0 <= i < |ts| && 0 <= j < |ts| && ts[i].id == ts[j].id ==> i == j)
              && forall task :: task in ts ==>
                   && (exists word, tail, end :: IdPattern(task.id, word, tail, end))
                   && (forall d :: d in task.dependsOn ==> exists c :: c in d && !IsSpace(c))
                   && |task.ownedPaths| >= 1 && (forall p :: p in task.ownedPaths ==> exists c :: c in p && !IsSpace(c))
                   && 0 <= task.wave <= 2
  {
    forall s
      ensures !Blank(s) <==> exists c :: c in s && !IsSpace(c)
    {
      if c :| c in s && !IsSpace(c) {
        var i :| 0 <= i < |s| && s[i] == c;
      }
    }
    forall task | task in ts
      ensures StableId(task.id) <==> exists word, tail, end :: IdPattern(task.id, word, tail, end)
    {
      StableIdMatches(task.id);
    }
  }

  /** The dependency is known, is not the task itself, and is not in a later wave. */
  predicate DependencyOk(ts: seq<Task>, task: Task, d: Id) {
    d != task.id && HasId(ts, d) && Get(ts, d).wave <= task.wave
  }

  ghost predicate DependencyRules(ts: seq<Task>) {
    forall i, j :: 0 <= i < |ts| && 0 <= j < |ts[i].dependsOn| ==> DependencyOk(ts, ts[i], ts[i].dependsOn[j])
  }

  ghost predicate Ordered(ts: seq<Task>, a: Task, b: Task) {
    Reaches(Edges(ts), a.id, b.id) || Reaches(Edges(ts), b.id, a.id)
  }

  ghost predicate SerialPair(ts: seq<Task>, wave: int, a: Task, b: Task) {
    a.wave == wave && b.wave == wave ==> Ordered(ts, a, b)
  }

  /** Any two tasks of the wave are ordered by their dependencies. */
  ghost predicate SerialRule(ts: seq<Task>, wave: int) {
    forall i, j :: 0 <= i < j < |ts| ==> SerialPair(ts, wave, ts[i], ts[j])
  }

  predicate OwnershipOverlap(t: Text, a: Task, b: Task) {
    exists i, j :: 0 <= i < |a.ownedPaths| && 0 <= j < |b.ownedPaths|
      && PatternsOverlap(t, a.ownedPaths[i], b.ownedPaths[j])
  }

  ghost predicate OwnershipPair(t: Text, ts: seq<Task>, a: Task, b: Task) {
    a.wave == 1 && b.wave == 1 ==> Ordered(ts, a, b) || !OwnershipOverlap(t, a, b)
  }

  /** In wave 1 any two tasks that are not ordered own no overlapping paths. */
  ghost predicate OwnershipRule(t: Text, ts: seq<Task>) {
    forall i, j :: 0 <= i < j < |ts| ==> OwnershipPair(t, ts, ts[i], ts[j])
  }

  /** What a manifest without errors satisfies. */
  ghost predicate Admitted(t: Text, m: Manifest) {
    && m.maxConcurrency >= 1 && m.tasks != []
    && FieldRules(m.tasks)
    && DependencyRules(m.tasks)
    && Acyclic(Edges(m.tasks))
    && SerialRule(m.tasks, 0) && SerialRule(m.tasks, 2)
    && OwnershipRule(t, m.tasks)
  }

  // ---- The validator ----

  datatype Problem =
    | BadConcurrency
    | NoTasks
    | UnstableId(index: nat)
    | DuplicateId(id: Id)
    | BadFields(id: Id)
    | SelfDependency(id: Id)
    | UnknownDependency(id: Id, dependency: Id)
    | LaterWave(id: Id, dependency: Id)
    | Cycle(ids: seq<Id>)
    | Unordered(wave: int, left: Id, right: Id)
    | Overlap(left: Id, right: Id)

  function AsCycles(cycles: seq<seq<Id>>): (ps: seq<Problem>)
    ensures |ps| == |cycles|
  {
    seq(|cycles|, i requires 0 <= i < |cycles| => Cycle(cycles[i]))
  }

  lemma IdsOfPrefix(raw: seq<Task>, i: nat, x: Id)
    requires i < |raw|
    ensures HasId(raw[..i + 1], x) <==> HasId(raw[..i], x) || x == raw[i].id
  {
    var longer, shorter := raw[..i + 1], raw[..i];
    if HasId(longer, x) {
      var k :| 0 <= k <= i && longer[k].id == x;
      assert k < i ==> shorter[k].id == x;
    }
    if HasId(shorter, x) {
      var k :| 0 <= k < i && shorter[k].id == x;
      assert longer[k].id == x;
    }
    assert longer[i].id == raw[i].id;
  }

  lemma RulesOfPrefix(raw: seq<Task>, i: nat)
    requires i < |raw|
    ensures FieldRules(raw[..i + 1]) <==> FieldRules(raw[..i]) && ValidFields(raw[i]) && !HasId(raw[..i], raw[i].id)
  {
    var longer, shorter := raw[..i + 1], raw[..i];
    assert longer == shorter + [raw[i]];
    if FieldRules(longer) {
      assert raw[i] in longer && forall task :: task in shorter ==> task in longer;
      assert forall k :: 0 <= k < i ==> shorter[k] == longer[k] && longer[k].id != longer[i].id;
    }
  }

  /** The first loop: it keeps the first task of every stable id. */
  method CheckTasks(raw: seq<Task>) returns (errors: seq<Problem>, tasks: seq<Task>)
    ensures errors == [] <==> FieldRules(raw)
    ensures errors == [] ==> tasks == raw
    ensures DistinctIds(tasks)
  {
    errors, tasks := [], [];
    for i := 0 to |raw|
      invariant errors == [] <==> FieldRules(raw[..i])
      invariant errors == [] ==> tasks == raw[..i]
      invariant DistinctIds(tasks)
      invariant forall x :: HasId(tasks, x) ==> HasId(raw[..i], x)
    {
      var task := raw[i];
      RulesOfPrefix(raw, i);
      forall x
        ensures HasId(raw[..i + 1], x) <==> HasId(raw[..i], x) || x == task.id
      {
        IdsOfPrefix(raw, i, x);
      }
      if !StableId(task.id) {
        errors := errors + [UnstableId(i)];
      } else if HasId(tasks, task.id) {
        errors := errors + [DuplicateId(task.id)];
      } else {
        assert raw[..i + 1] == raw[..i] + [task];
        assert forall x :: HasId(tasks + [task], x) ==> HasId(tasks, x) || x == task.id;
        tasks := tasks + [task];
        if !ValidFields(task) {
          errors := errors + [BadFields(task.id)];
        }
      }
    }
    assert raw[..|raw|] == raw;
  }

  method CheckDependenciesOf(tasks: seq<Task>, task: Task) returns (errors: seq<Problem>)
    requires task in tasks
    ensures errors == [] <==> forall j :: 0 <= j < |task.dependsOn| ==> DependencyOk(tasks, task, task.dependsOn[j])
  {
    errors := [];
    if task.id in task.dependsOn {
      errors := errors + [SelfDependency(task.id)];
    }
    ghost var early := errors;
    for j := 0 to |task.dependsOn|
      invariant early <= errors
      invariant errors == early <==> forall k :: 0 <= k < j ==>
          HasId(tasks, task.dependsOn[k]) && Get(tasks, task.dependsOn[k]).wave <= task.wave
    {
      var d := task.dependsOn[j];
      if !HasId(tasks, d) {
        errors := errors + [UnknownDependency(task.id, d)];
      } else if Get(tasks, d).wave > task.wave {
        errors := errors + [LaterWave(task.id, d)];
      }
    }
  }

  method CheckDependencies(tasks: seq<Task>) returns (errors: seq<Problem>)
    ensures errors == [] <==> DependencyRules(tasks)
  {
    errors := [];
    for i := 0 to |tasks|
      invariant errors == [] <==> forall k, j :: 0 <= k < i && 0 <= j < |tasks[k].dependsOn| ==>
          DependencyOk(tasks, tasks[k], tasks[k].dependsOn[j])
    {
      var found := CheckDependenciesOf(tasks, tasks[i]);
      errors := errors + found;
    }
  }

  method CheckCycles(tasks: seq<Task>) returns (errors: seq<Problem>)
    requires DistinctIds(tasks)
    ensures errors == [] <==> Acyclic(Edges(tasks))
    ensures forall p :: p in errors ==> p.Cycle? && CycleFinder.IsCycle(Edges(tasks), p.ids)
  {
    var order := seq(|tasks|, i requires 0 <= i < |tasks| => tasks[i].id);
    assert forall x :: x in order <==> HasId(tasks, x) by {
      assert forall i :: 0 <= i < |tasks| ==> order[i] == tasks[i].id;
    }
    var cycles := CycleFinder.FindCycles(Edges(tasks), order);
    errors := AsCycles(cycles);
  }

  /** Whether `_depends_on` orders two tasks, in either direction. */
  predicate DependsEitherWay(tasks: seq<Task>, a: Task, b: Task) {
    DependsOn(a.id, b.id, Edges(tasks), {}) || DependsOn(b.id, a.id, Edges(tasks), {})
  }

  lemma EitherWayIsOrdered(tasks: seq<Task>, a: Task, b: Task)
    ensures DependsEitherWay(tasks, a, b) <==> Ordered(tasks, a, b)
  {
    DependsOnIsReachability(a.id, b.id, Edges(tasks));
    DependsOnIsReachability(b.id, a.id, Edges(tasks));
  }

  /** The inner loop over the tasks after `left`. */
  method CheckSerialAfter(tasks: seq<Task>, wave: int, left: nat) returns (errors: seq<Problem>)
    requires left < |tasks|
    ensures errors == [] <==> forall j :: left < j < |tasks| ==> SerialPair(tasks, wave, tasks[left], tasks[j])
  {
    errors := [];
    for j := left + 1 to |tasks|
      invariant errors == [] <==> forall k :: left < k < j ==> SerialPair(tasks, wave, tasks[left], tasks[k])
    {
      EitherWayIsOrdered(tasks, tasks[left], tasks[j]);
      if tasks[left].wave == wave && tasks[j].wave == wave && !DependsEitherWay(tasks, tasks[left], tasks[j]) {
        errors := errors + [Unordered(wave, tasks[left].id, tasks[j].id)];
      }
    }
  }

  method CheckSerial(tasks: seq<Task>, wave: int) returns (errors: seq<Problem>)
    ensures errors == [] <==> SerialRule(tasks, wave)
  {
    errors := [];
    for i := 0 to |tasks|
      invariant errors == [] <==> forall k, j :: 0 <= k < i && k < j < |tasks| ==>
                  SerialPair(tasks, wave, tasks[k], tasks[j])
    {
      var found := CheckSerialAfter(tasks, wave, i);
      errors := errors + found;
    }
  }

  predicate Clashing(t: Text, tasks: seq<Task>, a: Task, b: Task) {
    a.wave == 1 && b.wave == 1 && !DependsEitherWay(tasks, a, b) && OwnershipOverlap(t, a, b)
  }

  lemma OwnershipIsChecked(t: Text, tasks: seq<Task>, a: Task, b: Task)
    ensures OwnershipPair(t, tasks, a, b) <==> !Clashing(t, tasks, a, b)
  {
    EitherWayIsOrdered(tasks, a, b);
  }

  method CheckOwnershipAfter(t: Text, tasks: seq<Task>, left: nat) returns (errors: seq<Problem>)
    requires left < |tasks|
    ensures errors == [] <==> forall j :: left < j < |tasks| ==> OwnershipPair(t, tasks, tasks[left], tasks[j])
  {
    errors := [];
    for j := left + 1 to |tasks|
      invariant errors == [] <==> forall k :: left < k < j ==> OwnershipPair(t, tasks, tasks[left], tasks[k])
    {
      OwnershipIsChecked(t, tasks, tasks[left], tasks[j]);
      if Clashing(t, tasks, tasks[left], tasks[j]) {
        errors := errors + [Overlap(tasks[left].id, tasks[j].id)];
      }
    }
  }

  method CheckOwnership(t: Text, tasks: seq<Task>) returns (errors: seq<Problem>)
    ensures errors == [] <==> OwnershipRule(t, tasks)
  {
    errors := [];
    for i := 0 to |tasks|
      invariant errors == [] <==> forall k, j :: 0 <= k < i && k < j < |tasks| ==>
                  OwnershipPair(t, tasks, tasks[k], tasks[j])
    {
      var found := CheckOwnershipAfter(t, tasks, i);
      errors := errors + found;
    }
  }

  /** `validate_manifest`, restricted to the checks named in this module: there is no error exactly when
      the manifest is admitted. */
  method ValidateManifest(t: Text, m: Manifest) returns (errors: seq<Problem>)
    ensures errors == [] <==> Admitted(t, m)
  {
    errors := [];
    if m.maxConcurrency < 1 {
      errors := errors + [BadConcurrency];
    }
    if m.tasks == [] {
      errors := errors + [NoTasks];
    }
    var fieldErrors, tasks := CheckTasks(m.tasks);
    var dependencyErrors := CheckDependencies(tasks);
    var cycleErrors := CheckCycles(tasks);
    var firstWave := CheckSerial(tasks, 0);
    var lastWave := CheckSerial(tasks, 2);
    var ownership := CheckOwnership(t, tasks);
    errors := errors + fieldErrors + dependencyErrors + cycleErrors + firstWave + lastWave + ownership;
  }
}
