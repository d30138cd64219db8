/** Whole runs of the evidence store, and the short-write loop of one publication. */
module EvidenceRuns {
  import opened Options
  import opened EvidenceStore

  // ---- Runs ----

  predicate AllEnabled(hash: Bytes -> Digest, s: Store, steps: seq<Step>)
    decreases |steps|
  {
    steps == [] || (Enabled(s, steps[0]) && AllEnabled(hash, Apply(hash, s, steps[0]), steps[1..]))
  }

  function After(hash: Bytes -> Digest, s: Store, steps: seq<Step>): Store
    requires AllEnabled(hash, s, steps)
    decreases |steps|
  {
    if steps == [] then s else After(hash, Apply(hash, s, steps[0]), steps[1..])
  }

  predicate Powered(steps: seq<Step>) {
    forall step :: step in steps ==> !step.PowerLoss?
  }

  lemma StartsInInv(hash: Bytes -> Digest, e: Setting)
    ensures Inv(hash, Empty(e))
  {
  }

  lemma {:induction false} RunKeepsInv(hash: Bytes -> Digest, s: Store, steps: seq<Step>)
    requires Inv(hash, s) && AllEnabled(hash, s, steps)
    ensures Inv(hash, After(hash, s, steps))
    ensures Powered(steps) ==> Grows(s, After(hash, s, steps))
    decreases |steps|
  {
    if steps != [] {
      StepKeepsInv(hash, s, steps[0]);
      var t := Apply(hash, s, steps[0]);
      RunKeepsInv(hash, t, steps[1..]);
      if Powered(steps) {
        assert forall step :: step in steps[1..] ==> step in steps;
      }
    }
  }

  // ---- Objects ----

  /** An object path goes from absent to complete: what a reader finds under a digest always has that digest, and
      a step never changes it; only power loss takes an object away. */
  lemma ObjectsAppearComplete(hash: Bytes -> Digest, e: Setting, steps: seq<Step>, step: Step, digest: Digest)
    requires AllEnabled(hash, Empty(e), steps) && Enabled(After(hash, Empty(e), steps), step)
    ensures var s := After(hash, Empty(e), steps);
      var before, after := Read(hash, s, digest), Read(hash, Apply(hash, s, step), digest);
      && !before.Mismatch? && !after.Mismatch?
      && (|| before.Missing? || after == before
          || (step.PowerLoss? && !(s.root.OnDisk? && digest in s.syncedNames) && after.Missing?))
  {
    var s := After(hash, Empty(e), steps);
    StartsInInv(hash, e);
    RunKeepsInv(hash, Empty(e), steps);
    StepKeepsInv(hash, s, step);
    assert digest in s.objects ==> Sealed(s, s.objects[digest]);
    var t := Apply(hash, s, step);
    assert digest in t.objects ==> Sealed(t, t.objects[digest]);
  }

  /** The same over any number of further steps. */
  lemma ObjectsNeverChange(hash: Bytes -> Digest, e: Setting, steps: seq<Step>, more: seq<Step>, digest: Digest)
    requires AllEnabled(hash, Empty(e), steps) && AllEnabled(hash, After(hash, Empty(e), steps), more) && Powered(more)
    ensures var s := After(hash, Empty(e), steps);
      Read(hash, s, digest).Got? ==> Read(hash, After(hash, s, more), digest) == Read(hash, s, digest)
  {
    StartsInInv(hash, e);
    RunKeepsInv(hash, Empty(e), steps);
    var s := After(hash, Empty(e), steps);
    RunKeepsInv(hash, s, more);
    assert digest in s.objects ==> Sealed(s, s.objects[digest]);
  }

  /** A reader that has taken all the bytes of the file it opened holds bytes with the digest it asked for, in
      whatever pieces it took them. */
  lemma ReadersSeeWholeObjects(hash: Bytes -> Digest, e: Setting, steps: seq<Step>, r: Process)
    requires AllEnabled(hash, Empty(e), steps)
    ensures var s := After(hash, Empty(e), steps);
      r in s.readers ==>
        && s.readers[r].file in s.files
        && (|s.readers[r].got| == |s.files[s.readers[r].file]| ==> hash(s.readers[r].got) == s.readers[r].digest)
  {
    StartsInInv(hash, e);
    RunKeepsInv(hash, Empty(e), steps);
    var s := After(hash, Empty(e), steps);
    if r in s.readers {
      assert ReaderOk(s, r) && Sealed(s, s.readers[r].file);
      var got, file := s.readers[r].got, s.files[s.readers[r].file];
      assert got == file[..|got|];
      if |got| == |file| {
        assert file[..|got|] == file;
      }
    }
  }

  // ---- Successful puts ----

  /** After a successful `put`, and for as long as the machine has power from then on, reading the digest gives the
      payload, whatever happened before. */
  lemma PutIsReadable(hash: Bytes -> Digest, e: Setting, steps: seq<Step>, w: Process, more: seq<Step>)
    requires AllEnabled(hash, Empty(e), steps) && Stands(After(hash, Empty(e), steps), w, Finished(Stored))
    requires AllEnabled(hash, After(hash, Empty(e), steps), more) && Powered(more)
    ensures var s := After(hash, Empty(e), steps); var raw := s.writers[w].raw;
      Read(hash, After(hash, s, more), hash(raw)) == Got(raw)
  {
    var s := After(hash, Empty(e), steps);
    StartsInInv(hash, e);
    RunKeepsInv(hash, Empty(e), steps);
    assert WriterOk(hash, s, w);
    RunKeepsInv(hash, s, more);
    GrowsKeepsObjects(hash, s, After(hash, s, more), s.writers[w].raw);
  }

  // ---- Power loss ----

  /** Whatever happens from now on, power loss included, reading the digest gives the payload. */
  ghost predicate Durable(hash: Bytes -> Digest, s: Store, raw: Bytes) {
    forall more :: AllEnabled(hash, s, more) ==> Read(hash, After(hash, s, more), hash(raw)) == Got(raw)
  }

  lemma StepKeepsSynced(hash: Bytes -> Digest, s: Store, step: Step, raw: Bytes)
    requires Inv(hash, s) && Enabled(s, step) && HasObject(hash, s, raw) && hash(raw) in s.syncedNames && s.root.OnDisk?
    ensures var t := Apply(hash, s, step); HasObject(hash, t, raw) && hash(raw) in t.syncedNames && t.root.OnDisk?
  {
    StepKeepsInv(hash, s, step);
    assert Sealed(s, s.objects[hash(raw)]);
    if !step.PowerLoss? {
      GrowsKeepsObjects(hash, s, Apply(hash, s, step), raw);
    }
  }

  lemma {:induction false} SyncedIsDurable(hash: Bytes -> Digest, s: Store, raw: Bytes, more: seq<Step>)
    requires Inv(hash, s) && HasObject(hash, s, raw) && hash(raw) in s.syncedNames && s.root.OnDisk?
             && AllEnabled(hash, s, more)
    ensures Read(hash, After(hash, s, more), hash(raw)) == Got(raw)
    decreases |more|
  {
    if more != [] {
      StepKeepsInv(hash, s, more[0]);
      StepKeepsSynced(hash, s, more[0], raw);
      SyncedIsDurable(hash, Apply(hash, s, more[0]), raw, more[1..]);
    }
  }

  lemma DurableIsSynced(hash: Bytes -> Digest, s: Store, raw: Bytes)
    requires Inv(hash, s) && HasObject(hash, s, raw)
    ensures Durable(hash, s, raw) <==> hash(raw) in s.syncedNames && s.root.OnDisk?
  {
    if hash(raw) in s.syncedNames && s.root.OnDisk? {
      forall more | AllEnabled(hash, s, more)
        ensures Read(hash, After(hash, s, more), hash(raw)) == Got(raw)
      {
        SyncedIsDurable(hash, s, raw, more);
      }
    } else {
      NotDurable(hash, s, raw);
    }
  }

  lemma NotDurable(hash: Bytes -> Digest, s: Store, raw: Bytes)
    requires s.syncedNames <= s.objects.Keys && !(hash(raw) in s.syncedNames && s.root.OnDisk?)
    ensures !Durable(hash, s, raw)
  {
    var more := [if s.root.OnDisk? then PowerLoss(true, s.syncedNames, map[]) else PowerLoss(false, {}, map[])];
    var t := Apply(hash, s, more[0]);
    assert more[1..] == [] && AllEnabled(hash, t, more[1..]) && After(hash, t, more[1..]) == t;
    assert Read(hash, After(hash, s, more), hash(raw)) == Missing;
  }

  /** The directory is synchronised, by any writer, while the object is readable; or power is lost and the object
      is readable afterwards. */
  predicate Settles(hash: Bytes -> Digest, s: Store, step: Step, digest: Digest)
    requires Enabled(s, step)
  {
    || (step.SyncDirectory? && s.syncs && Read(hash, s, digest).Got?)
    || (step.PowerLoss? && Read(hash, Apply(hash, s, step), digest).Got?)
  }

  /** Power is lost, and the directory with it. */
  predicate Wipes(step: Step) {
    step.PowerLoss? && !step.kept
  }

  predicate NothingWiped(steps: seq<Step>) {
    forall step :: step in steps ==> !Wipes(step)
  }

  /** Some step of the run settles the object, and the directory is not lost after that. */
  predicate Settled(hash: Bytes -> Digest, s: Store, steps: seq<Step>, digest: Digest)
    requires AllEnabled(hash, s, steps)
    decreases |steps|
  {
    steps != []
    && ((Settles(hash, s, steps[0], digest) && NothingWiped(steps[1..]))
        || Settled(hash, Apply(hash, s, steps[0]), steps[1..], digest))
  }

  /** The directory came through a power loss. */
  predicate CameThrough(steps: seq<Step>) {
    exists step :: step in steps && step.PowerLoss? && step.kept
  }

  lemma StoredIsRead(hash: Bytes -> Digest, s: Store, digest: Digest)
    requires Inv(hash, s)
    ensures Read(hash, s, digest).Got? <==> digest in s.objects
  {
    assert digest in s.objects ==> Sealed(s, s.objects[digest]);
  }

  lemma SettlesIsSynced(hash: Bytes -> Digest, s: Store, step: Step, digest: Digest)
    requires Inv(hash, s) && Enabled(s, step)
    ensures digest in Apply(hash, s, step).syncedNames
            <==> (digest in s.syncedNames && !Wipes(step)) || Settles(hash, s, step, digest)
  {
    if step.SyncDirectory? {
      StoredIsRead(hash, s, digest);
    } else if step.PowerLoss? {
      StepKeepsInv(hash, s, step);
      StoredIsRead(hash, Apply(hash, s, step), digest);
    } else {
      OthersSyncNothing(hash, s, step);
    }
  }

  lemma OthersSyncNothing(hash: Bytes -> Digest, s: Store, step: Step)
    requires Enabled(s, step) && !step.SyncDirectory? && !step.PowerLoss?
    ensures Apply(hash, s, step).syncedNames == s.syncedNames
  {
  }

  lemma StepKeepsSetting(hash: Bytes -> Digest, s: Store, step: Step)
    requires Enabled(s, step)
    ensures Apply(hash, s, step).syncs == s.syncs
    ensures Apply(hash, s, step).root.OnDisk? <==> s.root.OnDisk? || (step.PowerLoss? && step.kept)
  {
  }

  lemma {:induction false} SettledIsSynced(hash: Bytes -> Digest, s: Store, steps: seq<Step>, digest: Digest)
    requires Inv(hash, s) && AllEnabled(hash, s, steps)
    ensures digest in After(hash, s, steps).syncedNames
            <==> (digest in s.syncedNames && NothingWiped(steps)) || Settled(hash, s, steps, digest)
    decreases |steps|
  {
    if steps != [] {
      StepKeepsInv(hash, s, steps[0]);
      SettlesIsSynced(hash, s, steps[0], digest);
      SettledIsSynced(hash, Apply(hash, s, steps[0]), steps[1..], digest);
      assert steps == [steps[0]] + steps[1..];
    }
  }

  lemma {:induction false} RunKeepsSetting(hash: Bytes -> Digest, s: Store, steps: seq<Step>)
    requires AllEnabled(hash, s, steps)
    ensures After(hash, s, steps).syncs == s.syncs
    ensures After(hash, s, steps).root.OnDisk? <==> s.root.OnDisk? || CameThrough(steps)
    decreases |steps|
  {
    if steps != [] {
      StepKeepsSetting(hash, s, steps[0]);
      RunKeepsSetting(hash, Apply(hash, s, steps[0]), steps[1..]);
      assert steps == [steps[0]] + steps[1..];
    }
  }

  /** After any run, a readable object is durable exactly when the directory is on disk, by now or from the start, and
      since the object appeared the directory was synchronised or the object came through a power loss. */
  lemma DurableExactly(hash: Bytes -> Digest, e: Setting, steps: seq<Step>, raw: Bytes)
    requires AllEnabled(hash, Empty(e), steps) && Read(hash, After(hash, Empty(e), steps), hash(raw)) == Got(raw)
    ensures Durable(hash, After(hash, Empty(e), steps), raw)
            <==> (e.rooted || CameThrough(steps)) && Settled(hash, Empty(e), steps, hash(raw))
  {
    StartsInInv(hash, e);
    RunKeepsInv(hash, Empty(e), steps);
    RunKeepsSetting(hash, Empty(e), steps);
    DurableIsSynced(hash, After(hash, Empty(e), steps), raw);
    SettledIsSynced(hash, Empty(e), steps, hash(raw));
  }

  /** The step with which a `put` succeeds. */
  ghost predicate Succeeds(hash: Bytes -> Digest, s: Store, step: Step, w: Process) {
    Enabled(s, step) && !Stands(s, w, Finished(Stored)) && Stands(Apply(hash, s, step), w, Finished(Stored))
  }

  lemma TwoWaysToSucceed(hash: Bytes -> Digest, s: Store, step: Step, w: Process)
    requires Succeeds(hash, s, step, w)
    ensures w in s.writers && s.writers[w].raw == Apply(hash, s, step).writers[w].raw
    ensures step == Look(w) || (step == Unlink(w) && s.writers[w].phase == Cleaning(Stored))
  {
    match step {
      case Look(v) => assert v == w;
      case Unlink(v) => assert v == w;
      case _ =>
    }
  }

  lemma SucceedingSyncsNothing(hash: Bytes -> Digest, s: Store, step: Step)
    requires Enabled(s, step) && (step.Look? || step.Unlink?)
    ensures Apply(hash, s, step).syncedNames == s.syncedNames && Apply(hash, s, step).root == s.root
  {
  }

  /** A successful `put` is durable exactly when the directory is on disk, and the `put` wrote the object itself on a
      platform that synchronises directories, or the object was settled before. */
  lemma PutIsDurableExactly(hash: Bytes -> Digest, e: Setting, steps: seq<Step>, last: Step, w: Process)
    requires AllEnabled(hash, Empty(e), steps) && Succeeds(hash, After(hash, Empty(e), steps), last, w)
    ensures var s := After(hash, Empty(e), steps);
      var t := Apply(hash, s, last);
      var raw := t.writers[w].raw;
      Durable(hash, t, raw) <==>
        && (e.rooted || CameThrough(steps))
        && ((last == Unlink(w) && e.syncs) || Settled(hash, Empty(e), steps, hash(raw)))
  {
    var s := After(hash, Empty(e), steps);
    var t := Apply(hash, s, last);
    StartsInInv(hash, e);
    RunKeepsInv(hash, Empty(e), steps);
    RunKeepsSetting(hash, Empty(e), steps);
    StepKeepsInv(hash, s, last);
    TwoWaysToSucceed(hash, s, last, w);
    SucceedingSyncsNothing(hash, s, last);
    assert WriterOk(hash, s, w) && WriterOk(hash, t, w);
    DurableIsSynced(hash, t, t.writers[w].raw);
    SettledIsSynced(hash, Empty(e), steps, hash(t.writers[w].raw));
  }

  // ---- Successful puts that are not durable ----

  /** A second writer that finds the object returns at once, before the first has synchronised the directory: its
      `put` has succeeded, and power loss takes the object away, although the directory itself is on disk. */
  lemma EarlyReturnIsNotDurable(hash: Bytes -> Digest) returns (e: Setting, steps: seq<Step>, w: Process)
    ensures e == Setting(true, true) && AllEnabled(hash, Empty(e), steps) && Powered(steps)
    ensures Stands(After(hash, Empty(e), steps), w, Finished(Stored))
    ensures !Durable(hash, After(hash, Empty(e), steps), After(hash, Empty(e), steps).writers[w].raw)
  {
    e, w := Setting(true, true), 1;
    var first := FirstWriterLinks(hash, e);
    var third := [Put(1, []), Look(1)];
    TwoSteps(hash, Linked(hash, e), third, Seen(hash, e));
    RunsInTurn(hash, Empty(e), first, third);
    steps := first + third;
    NotDurable(hash, Seen(hash, e), []);
  }

  /** The first `put` into a new store writes the object and synchronises the directory, which is not on disk itself:
      power loss takes both. */
  lemma FirstPutIsNotDurable(hash: Bytes -> Digest) returns (e: Setting, steps: seq<Step>, w: Process)
    ensures e == Setting(false, true) && AllEnabled(hash, Empty(e), steps) && Powered(steps)
    ensures Stands(After(hash, Empty(e), steps), w, Finished(Stored))
    ensures !Durable(hash, After(hash, Empty(e), steps), After(hash, Empty(e), steps).writers[w].raw)
  {
    e, w := Setting(false, true), 0;
    var first := FirstWriterLinks(hash, e);
    var third := [SyncDirectory(0), Unlink(0)];
    TwoSteps(hash, Linked(hash, e), third, Published(hash, e));
    RunsInTurn(hash, Empty(e), first, third);
    steps := first + third;
    NotDurable(hash, Published(hash, e), []);
  }

  function InUse(e: Setting): Root {
    if e.rooted then OnDisk else Created
  }

  function Written(e: Setting): Store {
    Store(map[0 := []], map[], {0}, {}, {}, InUse(e), e.syncs, map[0 := Writer([], Writing(0))], map[])
  }

  function Linked(hash: Bytes -> Digest, e: Setting): Store {
    Store(map[0 := []], map[hash([]) := 0], {0}, {0}, {}, InUse(e), e.syncs, map[0 := Writer([], SyncingDirectory)],
          map[])
  }

  function Seen(hash: Bytes -> Digest, e: Setting): Store {
    var s := Linked(hash, e);
    s.(writers := s.writers[1 := Writer([], Finished(Stored))])
  }

  function Published(hash: Bytes -> Digest, e: Setting): Store {
    Linked(hash, e).(temporaries := {}, syncedNames := if e.syncs then {hash([])} else {},
                     writers := map[0 := Writer([], Finished(Stored))])
  }

  lemma FirstWriterWrites(hash: Bytes -> Digest, e: Setting)
    ensures var steps := [Put(0, []), Look(0), Create(0)];
      AllEnabled(hash, Empty(e), steps) && After(hash, Empty(e), steps) == Written(e)
  {
    ThreeSteps(hash, Empty(e), [Put(0, []), Look(0), Create(0)], Written(e));
  }

  lemma WrittenIsLinked(hash: Bytes -> Digest, e: Setting)
    ensures var steps := [SyncFile(0), Close(0), Link(0)];
      AllEnabled(hash, Written(e), steps) && After(hash, Written(e), steps) == Linked(hash, e)
  {
    ThreeSteps(hash, Written(e), [SyncFile(0), Close(0), Link(0)], Linked(hash, e));
  }

  lemma FirstWriterLinks(hash: Bytes -> Digest, e: Setting) returns (steps: seq<Step>)
    ensures AllEnabled(hash, Empty(e), steps) && After(hash, Empty(e), steps) == Linked(hash, e) && Powered(steps)
  {
    FirstWriterWrites(hash, e);
    WrittenIsLinked(hash, e);
    steps := [Put(0, []), Look(0), Create(0)] + [SyncFile(0), Close(0), Link(0)];
    RunsInTurn(hash, Empty(e), [Put(0, []), Look(0), Create(0)], [SyncFile(0), Close(0), Link(0)]);
  }

  lemma {:induction false} RunsInTurn(hash: Bytes -> Digest, s: Store, first: seq<Step>, second: seq<Step>)
    requires AllEnabled(hash, s, first) && AllEnabled(hash, After(hash, s, first), second)
    ensures AllEnabled(hash, s, first + second) && After(hash, s, first + second) ==
              After(hash, After(hash, s, first), second)
    decreases |first|
  {
    if first == [] {
      assert first + second == second;
    } else {
      RunsInTurn(hash, Apply(hash, s, first[0]), first[1..], second);
      assert (first + second)[1..] == first[1..] + second;
    }
  }

  lemma TwoSteps(hash: Bytes -> Digest, s: Store, steps: seq<Step>, t: Store)
    requires |steps| == 2 && Enabled(s, steps[0]) && Enabled(Apply(hash, s, steps[0]), steps[1])
    requires Apply(hash, Apply(hash, s, steps[0]), steps[1]) == t
    ensures AllEnabled(hash, s, steps) && After(hash, s, steps) == t
  {
    var u := Apply(hash, s, steps[0]);
    assert steps[1..] == [steps[1]];
    assert [steps[1]][1..] == [];
    assert After(hash, Apply(hash, u, steps[1]), []) == t;
  }

  lemma ThreeSteps(hash: Bytes -> Digest, s: Store, steps: seq<Step>, t: Store)
    requires |steps| == 3 && Enabled(s, steps[0]) && Enabled(Apply(hash, s, steps[0]), steps[1])
    requires Enabled(Apply(hash, Apply(hash, s, steps[0]), steps[1]), steps[2])
    requires Apply(hash, Apply(hash, Apply(hash, s, steps[0]), steps[1]), steps[2]) == t
    ensures AllEnabled(hash, s, steps) && After(hash, s, steps) == t
  {
    var u := Apply(hash, s, steps[0]);
    assert steps[1..] == [steps[1], steps[2]];
    TwoSteps(hash, u, steps[1..], t);
  }

  // ---- Collisions ----

  ghost predicate CollisionFree(hash: Bytes -> Digest) {
    forall a, b :: hash(a) == hash(b) ==> a == b
  }

  predicate Collided(s: Store, w: Process) {
    w in s.writers && (s.writers[w].phase == Cleaning(Collision) || s.writers[w].phase == Finished(Collision))
  }

  /** Under a collision-free hash no `put` reports a collision. */
  lemma {:induction false} NoCollisions(hash: Bytes -> Digest, s: Store, steps: seq<Step>)
    requires CollisionFree(hash) && Inv(hash, s) && AllEnabled(hash, s, steps) && forall w :: !Collided(s, w)
    ensures forall w :: !Collided(After(hash, s, steps), w)
    decreases |steps|
  {
    if steps != [] {
      var t := Apply(hash, s, steps[0]);
      StepKeepsInv(hash, s, steps[0]);
      forall w
        ensures !Collided(t, w)
      {
        StepDoesNotCollide(hash, s, steps[0], w);
      }
      NoCollisions(hash, t, steps[1..]);
    }
  }

  lemma StepDoesNotCollide(hash: Bytes -> Digest, s: Store, step: Step, w: Process)
    requires CollisionFree(hash) && Inv(hash, s) && Enabled(s, step) && !Collided(s, w)
    ensures !Collided(Apply(hash, s, step), w)
  {
    if step.Look? {
      LookDoesNotCollide(hash, s, step.w, w);
    } else if step.Link? {
      LinkDoesNotCollide(hash, s, step.w, w);
    }
  }

  lemma LookDoesNotCollide(hash: Bytes -> Digest, s: Store, v: Process, w: Process)
    requires CollisionFree(hash) && ObjectsOk(hash, s) && Enabled(s, Look(v)) && !Collided(s, w)
    ensures !Collided(DoLook(hash, s, v), w)
  {
    NothingElseUnder(hash, s, s.writers[v].raw);
  }

  lemma LinkDoesNotCollide(hash: Bytes -> Digest, s: Store, v: Process, w: Process)
    requires CollisionFree(hash) && ObjectsOk(hash, s) && Enabled(s, Link(v)) && !Collided(s, w)
    ensures !Collided(DoLink(hash, s, v), w)
  {
    NothingElseUnder(hash, s, s.writers[v].raw);
  }

  lemma NothingElseUnder(hash: Bytes -> Digest, s: Store, raw: Bytes)
    requires CollisionFree(hash) && ObjectsOk(hash, s)
    ensures ObjectBytes(s, hash(raw)).Some? ==> ObjectBytes(s, hash(raw)).value == raw
  {
    assert hash(raw) in s.objects ==> Sealed(s, s.objects[hash(raw)]);
  }

  // ---- The short-write loop ----

  /** An open file; the system takes as many bytes of a request as it likes. */
  class Descriptor {
    const grants: nat -> int
    var content: Bytes
    var calls: nat

    constructor (grants: nat -> int)
      ensures content == [] && this.grants == grants
    {
      this.grants, content, calls := grants, [], 0;
    }

    method Write(chunk: Bytes) returns (count: int)
      modifies this
      ensures count <= |chunk|
      ensures content == old(content) + chunk[..if count > 0 then count else 0]
    {
      count := if grants(calls) < |chunk| then grants(calls) else |chunk|;
      calls := calls + 1;
      if count > 0 {
        content := content + chunk[..count];
      }
    }
  }

  /** Writes the whole payload in however many short writes it takes, or gives up at the first write that takes
      nothing. */
  method WriteAll(file: Descriptor, raw: Bytes) returns (complete: bool)
    requires file.content == []
    modifies file
    ensures complete ==> file.content == raw
    ensures !complete ==> file.content < raw
  {
    var written := 0;
    while written < |raw|
      invariant 0 <= written <= |raw| && file.content == raw[..written]
    {
      var count := file.Write(raw[written..]);
      if count <= 0 {
        return false;
      }
      assert raw[..written] + raw[written..][..count] == raw[..written + count];
      written := written + count;
    }
    return true;
  }
}
