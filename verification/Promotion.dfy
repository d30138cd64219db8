/** The promotion itself, over a directory whose every operation may raise. */
module Promotion {
  import opened Options
  import opened PromotionPlan

  function Result(fault: Fault): Option<Error> {
    if fault.Fine? then None else Some(Failed(fault.osError))
  }

  function RecordOf(files: Directory, plan: Plan, digest: Bytes -> Bytes, k: Kind): Record
    requires plan.Dest(k) in files
  {
    Record(plan.Dest(k), digest(files[plan.Dest(k)]), |files[plan.Dest(k)]|)
  }

  /** The returned records describe the new files. */
  ghost predicate Describe(artifacts: map<Kind, Record>, plan: Plan, digest: Bytes -> Bytes) {
    forall k: Kind ::
      && k in artifacts
      && artifacts[k] == Record(plan.Dest(k), digest(plan.Of(k).content), |plan.Of(k).content|)
  }

  /** All snapshots from an index on keep the bytes of both prior files somewhere. */
  ghost predicate KeptFrom(trail: seq<Directory>, from: nat, plan: Plan, prior: Directory) {
    forall i :: from <= i < |trail| ==> Kept(trail[i], plan, prior, Wheel) && Kept(trail[i], plan, prior, Sdist)
  }

  ghost predicate NewFrom(trail: seq<Directory>, from: nat, plan: Plan) {
    forall i :: from <= i < |trail| ==> AllNew(trail[i], plan)
  }

  /** Each of these kinds has its prior bytes in its backup. */
  ghost predicate BackedUpFrom(files: Directory, plan: Plan, prior: Directory, existed: set<Kind>) {
    forall k: Kind ::
      && (k in existed ==> plan.Dest(k) in prior && At(files, Backup(k)) == At(prior, plan.Dest(k)))
      && (k !in existed ==> At(prior, plan.Dest(k)) == None && At(files, Backup(k)) == None)
  }

  lemma BackedUpIsKept(files: Directory, plan: Plan, prior: Directory, existed: set<Kind>)
    requires BackedUpFrom(files, plan, prior, existed)
    ensures Kept(files, plan, prior, Wheel) && Kept(files, plan, prior, Sdist)
  {
  }

  ghost predicate SameKind(a: Directory, b: Directory, plan: Plan, k: Kind) {
    At(a, plan.Dest(k)) == At(b, plan.Dest(k)) && At(a, Backup(k)) == At(b, Backup(k))
  }

  /** Where the `try` body leaves one kind when it raises. */
  ghost predicate AfterAttempt(files: Directory, run: Run, plan: Plan, prior: Directory, k: Kind) {
    && At(files, plan.Dest(k)) == (if run.Replaces(k) then Some(plan.Of(k).content) else At(prior, plan.Dest(k)))
    && (k in run.existed <==> plan.Dest(k) in prior)
    && (run.Prepares() && k in run.existed ==> At(files, Backup(k)) == At(prior, plan.Dest(k)))
  }

  /** Where the rollback leaves it. */
  ghost predicate RolledBack(files: Directory, run: Run, plan: Plan, prior: Directory, k: Kind) {
    && At(files, plan.Dest(k)) == DestAfter(run, plan, prior, k)
    && (k in run.existed <==> plan.Dest(k) in prior)
    && (k in run.existed && run.Replaces(k) && !run.Undoes(k) ==> At(files, Backup(k)) == At(prior, plan.Dest(k)))
  }

  lemma SameKindStands(before: Directory, after: Directory, run: Run, plan: Plan, prior: Directory, k: Kind)
    requires SameKind(after, before, plan, k)
    ensures AfterAttempt(before, run, plan, prior, k) ==> AfterAttempt(after, run, plan, prior, k)
    ensures RolledBack(before, run, plan, prior, k) ==> RolledBack(after, run, plan, prior, k)
  {
  }

  /** The attempted kinds from a rank on are rolled back, the others are as the `try` body left them. */
  ghost predicate Unwound(files: Directory, run: Run, plan: Plan, prior: Directory, rank: int) {
    forall k: Kind ::
      if run.Attempts(k) && Rank(k) >= rank then RolledBack(files, run, plan, prior, k)
      else AfterAttempt(files, run, plan, prior, k)
  }

  lemma UnwoundIsKept(files: Directory, run: Run, plan: Plan, prior: Directory, rank: nat)
    requires !run.Commits() && Unwound(files, run, plan, prior, rank)
    ensures forall k: Kind :: Kept(files, plan, prior, k)
  {
    forall k: Kind
      ensures Kept(files, plan, prior, k)
    {
      if run.Attempts(k) && Rank(k) >= rank {
        assert RolledBack(files, run, plan, prior, k);
      } else {
        assert AfterAttempt(files, run, plan, prior, k);
      }
    }
  }

  lemma UnwoundFurther(before: Directory, after: Directory, run: Run, plan: Plan, prior: Directory, rank: nat, k: Kind)
    requires Unwound(before, run, plan, prior, rank + 1) && run.Attempts(k) && Rank(k) == rank
    requires RolledBack(after, run, plan, prior, k) && forall j: Kind :: j != k ==> SameKind(after, before, plan, j)
    ensures Unwound(after, run, plan, prior, rank)
  {
    forall j: Kind | j != k
      ensures if run.Attempts(j) && Rank(j) >= rank then RolledBack(after, run, plan, prior, j)
              else AfterAttempt(after, run, plan, prior, j)
    {
      assert Rank(j) != rank;
      SameKindStands(before, after, run, plan, prior, j);
    }
  }

  /** The attempted kinds from a rank on were undone without an interrupt; `preserved` holds those that failed. */
  ghost predicate Collected(preserved: set<Kind>, run: Run, rank: int) {
    && (forall k: Kind :: run.Attempts(k) && Rank(k) >= rank ==> !run.Interrupts(Undo(k)))
    && (forall k: Kind :: k in preserved <==> run.Attempts(k) && Rank(k) >= rank && run.FailsInSystem(Undo(k)))
  }

  lemma CollectedReaches(preserved: set<Kind>, run: Run, k: Kind)
    requires !run.Commits() && Collected(preserved, run, Rank(k) + 1) && run.Attempts(k)
    ensures run.RollsBack(k)
  {
  }

  lemma RollbackStops(preserved: set<Kind>, run: Run, k: Kind)
    requires !run.Commits() && Collected(preserved, run, Rank(k) + 1) && run.Attempts(k) && run.Interrupts(Undo(k))
    ensures run.RollbackInterrupted() && preserved == run.Preserved()
    ensures forall j: Kind :: Rank(j) < Rank(k) ==> !run.RollsBack(j)
  {
    forall j: Kind
      ensures j in preserved <==> j in run.Preserved()
    {
    }
  }

  lemma RollbackEnds(preserved: set<Kind>, run: Run)
    requires !run.Commits() && Collected(preserved, run, 0)
    ensures !run.RollbackInterrupted() && preserved == run.Preserved()
  {
    forall j: Kind
      ensures j in preserved <==> j in run.Preserved()
    {
    }
  }

  /** A kind the rollback does not get to stays as it is. */
  lemma UnreachedStands(files: Directory, run: Run, plan: Plan, prior: Directory, rank: nat)
    requires !run.Commits() && Unwound(files, run, plan, prior, rank)
    requires forall k: Kind :: Rank(k) < rank ==> !run.RollsBack(k)
    ensures forall k: Kind :: RolledBack(files, run, plan, prior, k)
  {
  }

  lemma BackedUpHolds(existed: set<Kind>)
    ensures forall k: Kind :: k in BackedUp(existed) <==> k in existed
    ensures |BackedUp(existed)| <= 2 && (|BackedUp(existed)| == 2 ==> BackedUp(existed) == KINDS)
  {
    forall k: Kind
      ensures k in BackedUp(existed) <==> k in existed
    {
      if k == Wheel {
      } else {
        assert k == Sdist;
      }
    }
  }

  /** The final clean-up removes the backup of this kind: it comes to it, and the removal takes effect. */
  ghost predicate UnusedDropped(run: Run, backups: seq<Kind>, preserved: set<Kind>, k: Kind) {
    && k in backups && k !in preserved && run.TakesEffect(DropUnused(k))
    && (k == Sdist && Wheel in backups && Wheel !in preserved ==> run.Quiet(DropUnused(Wheel)))
  }

  /** Where the promotion leaves one kind in the end. */
  ghost predicate Ended(files: Directory, run: Run, plan: Plan, prior: Directory, k: Kind) {
    && At(files, plan.Dest(k)) == DestAfter(run, plan, prior, k)
    && (run.Loses(k) ==> At(files, Backup(k)) == None)
    && (k in run.existed && !run.Commits() && run.Replaces(k) && !run.Undoes(k) && !run.Discards(k) ==>
          At(files, Backup(k)) == At(prior, plan.Dest(k)))
  }

  lemma NewAfterCommit(files: Directory, run: Run, plan: Plan, prior: Directory)
    requires run.Commits()
    requires forall k: Kind :: At(files, plan.Dest(k)) ==
               if run.Replaces(k) then Some(plan.Of(k).content) else At(prior, plan.Dest(k))
    ensures AllNew(files, plan)
  {
    assert run.Replaces(Wheel) && run.Replaces(Sdist);
    assert At(files, plan.Dest(Wheel)) == Some(plan.Of(Wheel).content)
      && At(files, plan.Dest(Sdist)) == Some(plan.Of(Sdist).content);
  }

  lemma UnwoundAtFirst(files: Directory, run: Run, plan: Plan, prior: Directory)
    requires forall k: Kind :: k in run.existed <==> plan.Dest(k) in prior
    requires forall k: Kind :: At(files, plan.Dest(k)) ==
               if run.Replaces(k) then Some(plan.Of(k).content) else At(prior, plan.Dest(k))
    requires run.Prepares() ==> BackedUpFrom(files, plan, prior, run.existed)
    ensures Unwound(files, run, plan, prior, 2)
  {
  }

  lemma NewIsEnded(files: Directory, run: Run, plan: Plan, prior: Directory)
    requires run.Commits() && AllNew(files, plan)
    ensures forall k: Kind :: Ended(files, run, plan, prior, k)
  {
    forall k: Kind
      ensures Ended(files, run, plan, prior, k)
    {
      assert At(files, plan.Dest(k)) == Some(plan.Of(k).content);
    }
  }

  lemma UncleanedIs(run: Run, kept: set<Kind>)
    requires forall k: Kind :: k in kept <==> k in run.existed && run.FailsInSystem(DropBackup(k))
    ensures kept == run.Uncleaned()
  {
    forall k: Kind
      ensures k in kept <==> k in run.Uncleaned()
    {
      assert k == Wheel || k == Sdist;
    }
  }

  /** After a commit without an interrupt only backups that could not be removed are left. */
  lemma KeptAreUncleaned(run: Run)
    requires run.Commits()
    ensures !run.CleanupInterrupted() ==> forall k: Kind :: run.LeavesBackup(k) ==> k in run.Uncleaned()
    ensures forall k: Kind :: !run.LeavesTemporary(k)
  {
  }

  lemma EndsAsRolledBack(files: Directory, middle: Directory, run: Run, plan: Plan, prior: Directory, k: Kind)
    requires !run.Commits() && RolledBack(middle, run, plan, prior, k) && SettledOnly(files, middle)
    requires run.Prepares() ==> At(files, Backup(k)) == if run.Discards(k) then None else At(middle, Backup(k))
    ensures Ended(files, run, plan, prior, k)
  {
    assert At(files, plan.Dest(k)) == At(middle, plan.Dest(k));
  }

  lemma StaysKept(files: Directory, middle: Directory, run: Run, plan: Plan, prior: Directory, k: Kind)
    requires !run.Commits() && !run.Loses(k) && RolledBack(middle, run, plan, prior, k) && SettledOnly(files, middle)
    requires run.Prepares() && !run.Discards(k) ==> At(files, Backup(k)) == At(middle, Backup(k))
    ensures Kept(files, plan, prior, k)
  {
    assert At(files, plan.Dest(k)) == At(middle, plan.Dest(k));
  }

  /** Where a crash may leave the directory: before `cleanup` both prior files are kept, before `commit` every
      file that is not lost, and from `commit` on both files are new. */
  ghost predicate TrailIsSafe(trail: seq<Directory>, start: nat, cleanup: nat, commit: nat, run: Run, plan: Plan,
                              prior: Directory) {
    && start <= cleanup <= commit <= |trail| && (!run.Commits() ==> commit == |trail|)
    && (forall i :: start <= i < cleanup ==> Kept(trail[i], plan, prior, Wheel) && Kept(trail[i], plan, prior, Sdist))
    && (forall i, k: Kind :: cleanup <= i < commit && !run.Loses(k) ==> Kept(trail[i], plan, prior, k))
    && NewFrom(trail, commit, plan)
  }

  lemma StillPrior(files: Directory, run: Run, plan: Plan, prior: Directory)
    requires !run.Enters() && SameBut(files, prior, Lock)
    requires forall k: Kind :: At(prior, Temporary(k)) == At(prior, Backup(k)) == None
    ensures forall k: Kind :: Ended(files, run, plan, prior, k)
    ensures Remains(files, run)
  {
    assert forall k: Kind :: At(files, plan.Dest(k)) == At(prior, plan.Dest(k));
    assert forall k: Kind :: At(files, Temporary(k)) == None && At(files, Backup(k)) == None;
  }

  lemma LockIsApart(files: Directory, middle: Directory, run: Run, plan: Plan, prior: Directory)
    requires SameBut(files, middle, Lock)
    requires Remains(middle, run) && forall k: Kind :: Ended(middle, run, plan, prior, k)
    ensures Remains(files, run) && forall k: Kind :: Ended(files, run, plan, prior, k)
  {
    assert forall k: Kind :: At(files, Temporary(k)) == At(middle, Temporary(k));
    forall k: Kind
      ensures Ended(files, run, plan, prior, k)
    {
      assert Ended(middle, run, plan, prior, k);
    }
  }

  lemma EndedIsKept(files: Directory, run: Run, plan: Plan, prior: Directory, k: Kind)
    requires Ended(files, run, plan, prior, k) && (k in run.existed <==> plan.Dest(k) in prior)
    requires !run.Commits() && !run.Loses(k)
    ensures Kept(files, plan, prior, k)
  {
  }

  /** Snapshots that differ from the start at most in the lock are safe. */
  lemma StartsEarlier(trail: seq<Directory>, start: nat, entered: nat, cleanup: nat, commit: nat, run: Run, plan: Plan,
                      prior: Directory)
    requires start <= entered <= |trail| && SameButFrom(trail[..entered], start, prior, Lock)
    requires TrailIsSafe(trail, entered, cleanup, commit, run, plan, prior)
    ensures TrailIsSafe(trail, start, cleanup, commit, run, plan, prior)
  {
    forall i | start <= i < entered
      ensures Kept(trail[i], plan, prior, Wheel) && Kept(trail[i], plan, prior, Sdist)
    {
      assert SameBut(trail[..entered][i], prior, Lock);
    }
  }

  /** Snapshots that differ from the end at most in the lock are safe. */
  lemma EndsLater(trail: seq<Directory>, longer: seq<Directory>, start: nat, cleanup: nat, commit: nat,
                  files: Directory, run: Run, plan: Plan, prior: Directory)
    requires TrailIsSafe(trail, start, cleanup, commit, run, plan, prior)
    requires trail <= longer && SameButFrom(longer, |trail|, files, Lock)
    requires forall k: Kind :: Ended(files, run, plan, prior, k) && (k in run.existed <==> plan.Dest(k) in prior)
    ensures TrailIsSafe(longer, start, cleanup, if run.Commits() then commit else |longer|, run, plan, prior)
  {
    forall i, k: Kind | |trail| <= i < |longer|
      ensures run.Commits() ==> At(longer[i], plan.Dest(k)) == Some(plan.Of(k).content)
      ensures !run.Commits() && !run.Loses(k) ==> Kept(longer[i], plan, prior, k)
    {
      assert SameBut(longer[i], files, Lock);
      assert Ended(longer[i], run, plan, prior, k);
      if !run.Commits() && !run.Loses(k) {
        EndedIsKept(longer[i], run, plan, prior, k);
      }
    }
  }

  /** The two kinds are given, under different names. */
  predicate Promotable(sources: map<Kind, Source>) {
    sources.Keys == {Wheel, Sdist} && sources[Wheel].name != sources[Sdist].name
  }

  predicate NothingLeft(files: Directory) {
    forall k: Kind :: Temporary(k) !in files && Backup(k) !in files && Lock !in files
  }

  /** Two directories that differ at most in one path. */
  ghost predicate SameBut(a: Directory, b: Directory, path: Path) {
    forall p: Path :: p != path ==> At(a, p) == At(b, p)
  }

  ghost predicate SameButFrom(trail: seq<Directory>, from: nat, b: Directory, path: Path) {
    forall i :: from <= i < |trail| ==> SameBut(trail[i], b, path)
  }

  ghost predicate TemporariesOnly(a: Directory, b: Directory) {
    forall p: Path :: !p.Temporary? ==> At(a, p) == At(b, p)
  }

  ghost predicate TemporariesOnlyFrom(trail: seq<Directory>, from: nat, b: Directory) {
    forall i :: from <= i < |trail| ==> TemporariesOnly(trail[i], b)
  }

  ghost predicate BackupsOnly(a: Directory, b: Directory) {
    forall p: Path :: !p.Backup? ==> At(a, p) == At(b, p)
  }

  ghost predicate SettledOnly(a: Directory, b: Directory) {
    forall p: Path :: !p.Temporary? && !p.Backup? ==> At(a, p) == At(b, p)
  }

  ghost predicate BackupsOnlyFrom(trail: seq<Directory>, from: nat, b: Directory) {
    forall i :: from <= i < |trail| ==> BackupsOnly(trail[i], b)
  }

  lemma StagingIsKept(trail: seq<Directory>, from: nat, files: Directory, plan: Plan, prior: Directory)
    requires TemporariesOnlyFrom(trail, from, files) || BackupsOnlyFrom(trail, from, files)
    requires AllPrior(files, plan, prior)
    ensures KeptFrom(trail, from, plan, prior)
  {
  }

  /** Which temporary files and backups there are when the body of the `try` statement ends, and which of them it has
      listed. */
  ghost predicate BodyLeft(files: Directory, run: Run, staged: seq<Kind>, backups: seq<Kind>) {
    forall k: Kind ::
      && (At(files, Temporary(k)).Some? <==> run.HasTemporary(k)) && (k in staged <==> run.Staged(k))
      && (At(files, Backup(k)).Some? <==> run.HasBackup(k)) && (k in backups <==> run.BackupMade(k))
  }

  /** Which of them there are in the end. */
  ghost predicate Remains(files: Directory, run: Run) {
    forall k: Kind ::
      && (At(files, Temporary(k)).Some? <==> run.LeavesTemporary(k))
      && (At(files, Backup(k)).Some? <==> run.LeavesBackup(k))
  }

  /** The output directory.  `trail` holds its content after every operation, where a crash may leave it. */
  class Output {
    const run: Run
    var files: Directory
    ghost var trail: seq<Directory>

    constructor (run: Run, files: Directory)
      ensures this.run == run && this.files == files && trail == []
    {
      this.run, this.files, trail := run, files, [];
    }

    /** One operation, whose effect is lost if it raises before taking it. */
    method Perform(op: Op, effect: Directory) returns (raised: Option<Error>)
      modifies this
      ensures files == if run.TakesEffect(op) then effect else old(files)
      ensures raised == Result(run.faults(op))
      ensures trail == old(trail) + [files]
    {
      if run.TakesEffect(op) {
        files := effect;
      }
      trail := trail + [files];
      return Result(run.faults(op));
    }

    /** `os.replace`. */
    method Move(op: Op, source: Path, target: Path) returns (raised: Option<Error>)
      requires source != target
      modifies this
      ensures source !in old(files) ==> files == old(files) && raised == Some(Failed(true))
      ensures source in old(files) && run.TakesEffect(op) ==>
                && At(files, target) == At(old(files), source) && At(files, source) == None
                && forall p: Path :: p != source && p != target ==> At(files, p) == At(old(files), p)
      ensures source in old(files) && !run.TakesEffect(op) ==> files == old(files)
      ensures source in old(files) ==> raised == Result(run.faults(op))
      ensures trail == old(trail) + [files]
    {
      if source in files {
        raised := Perform(op, files[target := files[source]] - {source});
      } else {
        trail := trail + [files];
        return Some(Failed(true));
      }
    }

    /** `unlink(missing_ok=True)`. */
    method Unlink(op: Op, path: Path) returns (raised: Option<Error>)
      modifies this
      ensures run.TakesEffect(op) ==> At(files, path) == None
      ensures !run.TakesEffect(op) ==> files == old(files)
      ensures SameBut(files, old(files), path)
      ensures raised == Result(run.faults(op))
      ensures trail == old(trail) + [files]
    {
      raised := Perform(op, files - {path});
    }

    /** `_stage_promotion`: copy bytes to a new temporary file, and remove it again if that raises. */
    method Stage(path: Path, content: Bytes) returns (raised: Option<Error>)
      modifies this
      ensures raised.None? <==> run.Stages(path)
      ensures raised.None? ==> At(files, path) == Some(content)
      ensures raised.Some? && At(old(files), path) == None ==> (At(files, path).Some? <==> run.Strands(path))
      ensures SameBut(files, old(files), path)
      ensures old(trail) <= trail && SameButFrom(trail, |old(trail)|, old(files), path)
      ensures raised.Some? ==> raised.value.Failed?
    {
      raised := Perform(CreateTemp(path), files[path := []]);
      if raised.Some? {
        return;
      }
      raised := Perform(CopyTemp(path), files[path := content]);
      if raised.Some? {
        var discarded := Unlink(DiscardTemp(path), path);
        if discarded.Some? {
          raised := discarded;
        }
      }
    }

    // -- The body of the `try` statement --

    /** Stages both new files; `staged` lists those whose staging returned. */
    method StageBoth(plan: Plan) returns (raised: Option<Error>, staged: seq<Kind>)
      requires run.Enters() && forall k: Kind :: At(files, Temporary(k)) == None
      modifies this
      ensures staged <= KINDS && forall k: Kind :: k in staged <==> run.Staged(k)
      ensures forall k: Kind :: At(files, Temporary(k)).Some? <==>
                run.Staged(k) || (run.StagesNext(k) && run.Strands(Temporary(k)))
      ensures raised.None? <==> run.StagesBoth()
      ensures raised.Some? ==> raised.value.Failed?
      ensures raised.None? ==> staged == KINDS && forall k: Kind :: At(files, Temporary(k)) == Some(plan.Of(k).content)
      ensures TemporariesOnly(files, old(files))
      ensures old(trail) <= trail && TemporariesOnlyFrom(trail, |old(trail)|, old(files))
    {
      raised, staged := None, [];
      for i := 0 to |KINDS|
        invariant raised.None?
        invariant staged == KINDS[..i]
        invariant i > 0 ==> run.Stages(Temporary(Wheel)) && At(files, Temporary(Wheel)) == Some(plan.wheel.content)
        invariant i > 1 ==> run.Stages(Temporary(Sdist)) && At(files, Temporary(Sdist)) == Some(plan.sdist.content)
        invariant forall k: Kind :: At(files, Temporary(k)).Some? <==> Rank(k) < i
        invariant forall k: Kind :: k in staged <==> Rank(k) < i
        invariant TemporariesOnly(files, old(files))
        invariant old(trail) <= trail && TemporariesOnlyFrom(trail, |old(trail)|, old(files))
      {
        var k := KINDS[i];
        raised := Stage(Temporary(k), plan.Of(k).content);
        if raised.Some? {
          return;
        }
        staged := staged + [k];
      }
    }

    /** Finds out which destinations exist and copies those to backups. */
    method BackUpBoth(plan: Plan) returns (raised: Option<Error>, existed: set<Kind>, backups: seq<Kind>)
      requires run.Enters() && run.StagesBoth() && forall k: Kind :: At(files, Backup(k)) == None
      requires forall k: Kind :: k in run.existed <==> plan.Dest(k) in files
      modifies this
      ensures forall k: Kind :: At(files, Backup(k)).Some? <==> run.HasBackup(k)
      ensures forall k: Kind :: k in backups <==> run.BackupMade(k)
      ensures raised.None? <==> run.BacksUp(Wheel) && run.BacksUp(Sdist)
      ensures raised.Some? ==> raised.value.Failed?
      ensures raised.None? ==> existed == run.existed
      ensures backups == BackedUp(existed)
      ensures raised.None? ==> forall k: Kind ::
                At(files, Backup(k)) == if k in existed then At(old(files), plan.Dest(k)) else At(old(files), Backup(k))
      ensures BackupsOnly(files, old(files))
      ensures old(trail) <= trail && BackupsOnlyFrom(trail, |old(trail)|, old(files))
    {
      raised, existed, backups := None, {}, [];
      for i := 0 to |KINDS|
        invariant raised.None?
        invariant Wheel in existed <==> i > 0 && Wheel in run.existed
        invariant Sdist in existed <==> i > 1 && Sdist in run.existed
        invariant backups == BackedUp(existed)
        invariant i > 0 ==> run.BacksUp(Wheel)
        invariant i > 1 ==> run.BacksUp(Sdist)
        invariant forall k: Kind :: At(files, Backup(k)) ==
                    if k in existed then At(old(files), plan.Dest(k)) else At(old(files), Backup(k))
        invariant BackupsOnly(files, old(files))
        invariant old(trail) <= trail && BackupsOnlyFrom(trail, |old(trail)|, old(files))
      {
        var k := KINDS[i];
        raised := Perform(Inspect(k), files);
        if raised.Some? {
          return;
        }
        assert At(files, plan.Dest(k)) == At(old(files), plan.Dest(k));
        if plan.Dest(k) in files {
          raised := Stage(Backup(k), files[plan.Dest(k)]);
          if raised.Some? {
            return;
          }
          existed, backups := existed + {k}, backups + [k];
        }
      }
    }

    /** Moves one staged file to its destination. */
    method ReplaceOne(k: Kind, plan: Plan, ghost prior: Directory) returns (raised: Option<Error>)
      requires plan.Distinct() && BackedUpFrom(files, plan, prior, run.existed)
      requires At(files, Temporary(k)) == Some(plan.Of(k).content)
      modifies this
      ensures raised == Result(run.faults(Replace(k)))
      ensures run.TakesEffect(Replace(k)) ==>
                At(files, plan.Dest(k)) == Some(plan.Of(k).content) && At(files, Temporary(k)) == None
      ensures !run.TakesEffect(Replace(k)) ==>
                At(files, plan.Dest(k)) == At(old(files), plan.Dest(k))
                  && At(files, Temporary(k)) == Some(plan.Of(k).content)
      ensures forall j: Kind :: j != k ==>
                && At(files, plan.Dest(j)) == At(old(files), plan.Dest(j))
                && At(files, Temporary(j)) == At(old(files), Temporary(j))
      ensures BackedUpFrom(files, plan, prior, run.existed) && At(files, Lock) == At(old(files), Lock)
      ensures old(trail) <= trail && KeptFrom(trail, |old(trail)|, plan, prior)
    {
      raised := Move(Replace(k), Temporary(k), plan.Dest(k));
      BackedUpIsKept(files, plan, prior, run.existed);
    }

    /** Moves the staged files to the destinations; a kind counts as attempted before its move. */
    method ReplaceBoth(plan: Plan, ghost prior: Directory) returns (raised: Option<Error>, attempted: seq<Kind>)
      requires plan.Distinct() && run.Prepares()
      requires forall k: Kind :: At(files, Temporary(k)) == Some(plan.Of(k).content)
      requires forall k: Kind :: At(files, plan.Dest(k)) == At(prior, plan.Dest(k))
      requires BackedUpFrom(files, plan, prior, run.existed)
      modifies this
      ensures attempted <= KINDS && forall k: Kind :: k in attempted <==> run.Attempts(k)
      ensures raised.None? <==> run.Quiet(Replace(Wheel)) && run.Quiet(Replace(Sdist))
      ensures raised.Some? ==> raised.value.Failed?
      ensures forall k: Kind :: At(files, plan.Dest(k)) ==
                if run.Replaces(k) then Some(plan.Of(k).content) else At(prior, plan.Dest(k))
      ensures BackedUpFrom(files, plan, prior, run.existed) && At(files, Lock) == At(old(files), Lock)
      ensures forall k: Kind :: At(files, Temporary(k)) == if run.Replaces(k) then None else Some(plan.Of(k).content)
      ensures old(trail) <= trail && KeptFrom(trail, |old(trail)|, plan, prior)
    {
      raised, attempted := None, [];
      for i := 0 to |KINDS|
        invariant raised.None? && attempted == KINDS[..i]
        invariant forall k: Kind :: k in attempted <==> Rank(k) < i
        invariant forall k: Kind :: Rank(k) < i ==> run.Quiet(Replace(k))
        invariant forall k: Kind :: At(files, plan.Dest(k)) ==
                    if Rank(k) < i then Some(plan.Of(k).content) else At(prior, plan.Dest(k))
        invariant forall k: Kind :: At(files, Temporary(k)) == if Rank(k) < i then None else Some(plan.Of(k).content)
        invariant BackedUpFrom(files, plan, prior, run.existed) && At(files, Lock) == At(old(files), Lock)
        invariant old(trail) <= trail && KeptFrom(trail, |old(trail)|, plan, prior)
      {
        var k := KINDS[i];
        attempted := attempted + [k];
        raised := ReplaceOne(k, plan, prior);
        if raised.Some? {
          return;
        }
      }
    }

    /** Records the digest and the size of what is now under each destination. */
    method MeasureBoth(plan: Plan, digest: Bytes -> Bytes) returns (raised: Option<Error>, artifacts: map<Kind, Record>)
      requires forall k: Kind :: plan.Dest(k) in files
      modifies this
      ensures files == old(files)
      ensures raised.None? <==> run.Quiet(Measure(Wheel)) && run.Quiet(Measure(Sdist))
      ensures raised.Some? ==> raised.value.Failed?
      ensures raised.None? ==> forall k: Kind :: k in artifacts && artifacts[k] == RecordOf(files, plan, digest, k)
      ensures old(trail) <= trail && forall i :: |old(trail)| <= i < |trail| ==> trail[i] == files
    {
      raised, artifacts := None, map[];
      for i := 0 to |KINDS|
        invariant raised.None? && files == old(files)
        invariant forall k: Kind :: Rank(k) < i ==> run.Quiet(Measure(k))
        invariant forall k: Kind :: k in artifacts <==> Rank(k) < i
        invariant forall k: Kind :: k in artifacts ==> artifacts[k] == RecordOf(files, plan, digest, k)
        invariant old(trail) <= trail && forall j :: |old(trail)| <= j < |trail| ==> trail[j] == files
      {
        var k := KINDS[i];
        raised := Perform(Measure(k), files);
        if raised.Some? {
          return;
        }
        artifacts := artifacts[k := RecordOf(files, plan, digest, k)];
      }
    }

    /** Stages both new files and backs up what is there. */
    method Prepare(plan: Plan, ghost prior: Directory)
      returns (raised: Option<Error>, staged: seq<Kind>, existed: set<Kind>, backups: seq<Kind>)
      requires run.Enters() && AllPrior(files, plan, prior)
      requires forall k: Kind :: At(files, Temporary(k)) == At(files, Backup(k)) == None
      requires forall k: Kind :: k in run.existed <==> plan.Dest(k) in prior
      modifies this
      ensures raised.None? <==> run.Prepares()
      ensures raised.Some? ==> raised.value.Failed?
      ensures raised.None? ==>
                staged == KINDS && existed == run.existed && BackedUpFrom(files, plan, prior, run.existed)
      ensures raised.None? ==> forall k: Kind :: At(files, Temporary(k)) == Some(plan.Of(k).content)
      ensures backups == BackedUp(existed) && staged <= KINDS
      ensures raised.Some? ==> BodyLeft(files, run, staged, backups)
      ensures forall k: Kind :: k in staged <==> run.Staged(k)
      ensures forall k: Kind :: At(files, Backup(k)).Some? <==> run.HasBackup(k)
      ensures forall k: Kind :: k in backups <==> run.BackupMade(k)
      ensures SettledOnly(files, old(files))
      ensures old(trail) <= trail && KeptFrom(trail, |old(trail)|, plan, prior)
    {
      existed, backups := {}, [];
      raised, staged := StageBoth(plan);
      StagingIsKept(trail, |old(trail)|, old(files), plan, prior);
      if raised.Some? {
        return;
      }
      ghost var middle, mark := files, |trail|;
      raised, existed, backups := BackUpBoth(plan);
      StagingIsKept(trail, mark, middle, plan, prior);
      if raised.Some? {
        return;
      }
      raised := Perform(CheckDirectory(2), files);
      BackedUpIsKept(files, plan, prior, run.existed);
    }

    /** Everything up to and including the replacements. */
    method PrepareAndReplace(plan: Plan, ghost prior: Directory)
      returns (raised: Option<Error>, staged: seq<Kind>, existed: set<Kind>, backups: seq<Kind>, attempted: seq<Kind>)
      requires plan.Distinct() && run.Enters() && AllPrior(files, plan, prior)
      requires forall k: Kind :: At(files, Temporary(k)) == At(files, Backup(k)) == None
      requires forall k: Kind :: k in run.existed <==> plan.Dest(k) in prior
      modifies this
      ensures raised.None? <==> run.Prepares() && run.Quiet(Replace(Wheel)) && run.Quiet(Replace(Sdist))
      ensures raised.Some? ==> raised.value.Failed?
      ensures attempted <= KINDS && forall k: Kind :: k in attempted <==> run.Attempts(k)
      ensures run.Prepares() ==> staged == KINDS && existed == run.existed
      ensures backups == BackedUp(existed)
      ensures run.Prepares() ==> BackedUpFrom(files, plan, prior, run.existed)
      ensures forall k: Kind :: At(files, plan.Dest(k)) ==
                if run.Replaces(k) then Some(plan.Of(k).content) else At(prior, plan.Dest(k))
      ensures staged <= KINDS && BodyLeft(files, run, staged, backups)
      ensures At(files, Lock) == At(old(files), Lock)
      ensures old(trail) <= trail && KeptFrom(trail, |old(trail)|, plan, prior)
    {
      attempted := [];
      assert forall k: Kind :: At(files, plan.Dest(k)) == At(prior, plan.Dest(k));
      raised, staged, existed, backups := Prepare(plan, prior);
      if raised.Some? {
        return;
      }
      raised, attempted := ReplaceBoth(plan, prior);
    }

    /** The whole `try` body. */
    method Attempt(plan: Plan, digest: Bytes -> Bytes, ghost prior: Directory)
      returns (raised: Option<Error>, staged: seq<Kind>, existed: set<Kind>, backups: seq<Kind>, attempted: seq<Kind>,
               artifacts: map<Kind, Record>)
      requires plan.Distinct() && run.Enters() && AllPrior(files, plan, prior)
      requires forall k: Kind :: At(files, Temporary(k)) == At(files, Backup(k)) == None
      requires forall k: Kind :: k in run.existed <==> plan.Dest(k) in prior
      modifies this
      ensures raised.None? <==> run.Commits()
      ensures raised.Some? ==> raised.value.Failed?
      ensures attempted <= KINDS && forall k: Kind :: k in attempted <==> run.Attempts(k)
      ensures run.Prepares() ==> staged == KINDS && existed == run.existed
      ensures backups == BackedUp(existed)
      ensures run.Prepares() ==> BackedUpFrom(files, plan, prior, run.existed)
      ensures forall k: Kind :: At(files, plan.Dest(k)) ==
                if run.Replaces(k) then Some(plan.Of(k).content) else At(prior, plan.Dest(k))
      ensures staged <= KINDS && BodyLeft(files, run, staged, backups)
      ensures raised.None? ==> Describe(artifacts, plan, digest)
      ensures At(files, Lock) == At(old(files), Lock)
      ensures old(trail) <= trail && KeptFrom(trail, |old(trail)|, plan, prior)
    {
      artifacts := map[];
      raised, staged, existed, backups, attempted := PrepareAndReplace(plan, prior);
      if raised.Some? {
        return;
      }
      BackedUpIsKept(files, plan, prior, run.existed);
      raised := Perform(CheckDirectory(3), files);
      if raised.Some? {
        return;
      }
      assert forall k: Kind :: At(files, plan.Dest(k)) == Some(plan.Of(k).content);
      raised, artifacts := MeasureBoth(plan, digest);
    }

    // -- The rollback --

    /** Restores one destination from its backup, or removes what was put there. */
    method UndoOne(k: Kind, plan: Plan, existed: set<Kind>, ghost prior: Directory) returns (raised: Option<Error>)
      requires plan.Distinct() && existed == run.existed && run.RollsBack(k)
      requires AfterAttempt(files, run, plan, prior, k)
      requires forall j: Kind :: Kept(files, plan, prior, j)
      modifies this
      ensures raised == Result(run.faults(Undo(k)))
      ensures RolledBack(files, run, plan, prior, k)
      ensures forall j: Kind :: j != k ==> SameKind(files, old(files), plan, j)
      ensures forall j: Kind :: At(files, Temporary(j)) == At(old(files), Temporary(j))
      ensures k in existed ==>
                At(files, Backup(k)) == if run.TakesEffect(Undo(k)) then None else At(old(files), Backup(k))
      ensures k !in existed ==> At(files, Backup(k)) == At(old(files), Backup(k))
      ensures At(files, Lock) == At(old(files), Lock)
      ensures forall j: Kind :: Kept(files, plan, prior, j)
      ensures old(trail) <= trail && KeptFrom(trail, |old(trail)|, plan, prior)
    {
      if k in existed {
        raised := Move(Undo(k), Backup(k), plan.Dest(k));
      } else {
        raised := Unlink(Undo(k), plan.Dest(k));
      }
      assert Kept(files, plan, prior, k);
      forall j: Kind | j != k
        ensures Kept(files, plan, prior, j)
      {
        assert Kept(old(files), plan, prior, j);
      }
    }

    /** One turn of the rollback: an `OSError` is collected, anything else stops it. */
    method UndoNext(k: Kind, plan: Plan, existed: set<Kind>, preserved: set<Kind>, ghost prior: Directory)
      returns (stopped: Option<Error>, failed: set<Kind>)
      requires plan.Distinct() && existed == run.existed && !run.Commits() && run.Attempts(k)
      requires Unwound(files, run, plan, prior, Rank(k) + 1) && Collected(preserved, run, Rank(k) + 1)
      modifies this
      ensures Unwound(files, run, plan, prior, Rank(k))
      ensures stopped.Some? ==> stopped.value.Failed? && run.RollbackInterrupted() && failed == run.Preserved()
      ensures stopped.Some? ==> forall j: Kind :: Rank(j) < Rank(k) ==> !run.RollsBack(j)
      ensures stopped.None? ==> Collected(failed, run, Rank(k))
      ensures forall j: Kind :: At(files, Temporary(j)) == At(old(files), Temporary(j))
      ensures forall j: Kind :: At(files, Backup(j)) ==
                if j == k && k in existed && run.Undoes(k) then None else At(old(files), Backup(j))
      ensures At(files, Lock) == At(old(files), Lock)
      ensures old(trail) <= trail && KeptFrom(trail, |old(trail)|, plan, prior)
    {
      CollectedReaches(preserved, run, k);
      UnwoundIsKept(files, run, plan, prior, Rank(k) + 1);
      var raised := UndoOne(k, plan, existed, prior);
      UnwoundFurther(old(files), files, run, plan, prior, Rank(k), k);
      forall j: Kind
        ensures At(files, Backup(j)) ==
                if j == k && k in existed && run.Undoes(k) then None else At(old(files), Backup(j))
      {
        if j != k {
          assert SameKind(files, old(files), plan, j);
        }
      }
      if raised.Some? && !raised.value.osError {
        RollbackStops(preserved, run, k);
        return raised, preserved;
      }
      return None, if raised.Some? then preserved + {k} else preserved;
    }

    /** Undoes the attempted kinds, last first.  `preserved` lists the kinds whose undoing failed with an
        `OSError`; any other exception stops the rollback and is raised. */
    method Rollback(plan: Plan, existed: set<Kind>, attempted: seq<Kind>, ghost prior: Directory)
      returns (stopped: Option<Error>, preserved: set<Kind>)
      requires plan.Distinct() && !run.Commits()
      requires attempted <= KINDS && forall k: Kind :: k in attempted <==> run.Attempts(k)
      requires run.Prepares() ==> existed == run.existed
      requires Unwound(files, run, plan, prior, 2)
      modifies this
      ensures stopped.Some? <==> run.RollbackInterrupted()
      ensures stopped.Some? ==> stopped.value.Failed?
      ensures preserved == run.Preserved()
      ensures forall k: Kind :: RolledBack(files, run, plan, prior, k)
      ensures forall k: Kind :: At(files, Temporary(k)) == At(old(files), Temporary(k))
      ensures forall k: Kind :: At(files, Backup(k)) ==
                if k in existed && run.Undoes(k) then None else At(old(files), Backup(k))
      ensures At(files, Lock) == At(old(files), Lock)
      ensures old(trail) <= trail && KeptFrom(trail, |old(trail)|, plan, prior)
    {
      stopped, preserved := None, {};
      var i := |attempted|;
      while i > 0
        invariant stopped.None? && 0 <= i <= |attempted|
        invariant Collected(preserved, run, i) && Unwound(files, run, plan, prior, i)
        invariant forall k: Kind :: At(files, Temporary(k)) == At(old(files), Temporary(k))
        invariant forall k: Kind :: At(files, Backup(k)) ==
                    if Rank(k) >= i && k in existed && run.Undoes(k) then None else At(old(files), Backup(k))
        invariant At(files, Lock) == At(old(files), Lock)
        invariant old(trail) <= trail && KeptFrom(trail, |old(trail)|, plan, prior)
      {
        i := i - 1;
        assert attempted[i] in attempted && Rank(attempted[i]) == i;
        stopped, preserved := UndoNext(attempted[i], plan, existed, preserved, prior);
        if stopped.Some? {
          UnreachedStands(files, run, plan, prior, i);
          return;
        }
      }
      RollbackEnds(preserved, run);
      UnreachedStands(files, run, plan, prior, 0);
    }

    // -- Cleaning up --

    /** Removes one backup; an `OSError` is collected, anything else stops. */
    method RemoveBackup(k: Kind, kept: set<Kind>) returns (stopped: Option<Error>, failed: set<Kind>)
      modifies this
      ensures stopped.Some? <==> run.Interrupts(DropBackup(k))
      ensures stopped.Some? ==> stopped.value.Failed?
      ensures failed == if run.FailsInSystem(DropBackup(k)) then kept + {k} else kept
      ensures run.TakesEffect(DropBackup(k)) ==> At(files, Backup(k)) == None
      ensures !run.TakesEffect(DropBackup(k)) ==> files == old(files)
      ensures SameBut(files, old(files), Backup(k))
      ensures trail == old(trail) + [files]
    {
      var raised := Unlink(DropBackup(k), Backup(k));
      stopped := if raised.Some? && !raised.value.osError then raised else None;
      failed := if raised.Some? && raised.value.osError then kept + {k} else kept;
    }

    /** After the commit: removes the backups in turn. */
    method DropBackups(backups: seq<Kind>) returns (stopped: Option<Error>, kept: set<Kind>)
      requires backups == BackedUp(run.existed)
      modifies this
      ensures stopped.Some? <==> run.CleanupInterrupted()
      ensures stopped.Some? ==> stopped.value.Failed?
      ensures stopped.None? ==> kept == run.Uncleaned()
      ensures forall k: Kind :: At(files, Backup(k)) ==
                if k in backups && run.DropsBackup(k) then None else At(old(files), Backup(k))
      ensures BackupsOnly(files, old(files))
      ensures old(trail) <= trail && BackupsOnlyFrom(trail, |old(trail)|, old(files))
    {
      stopped, kept := None, {};
      BackedUpHolds(run.existed);
      for i := 0 to |backups|
        invariant stopped.None?
        invariant forall k :: k in backups[..i] ==> !run.Interrupts(DropBackup(k))
        invariant forall k: Kind :: k in kept <==> k in backups[..i] && run.FailsInSystem(DropBackup(k))
        invariant forall k: Kind :: At(files, Backup(k)) ==
                    if k in backups[..i] && run.DropsBackup(k) then None else At(old(files), Backup(k))
        invariant BackupsOnly(files, old(files))
        invariant old(trail) <= trail && BackupsOnlyFrom(trail, |old(trail)|, old(files))
      {
        var k := backups[i];
        assert i == 1 ==> backups == KINDS;
        stopped, kept := RemoveBackup(k, kept);
        if stopped.Some? {
          return;
        }
      }
      assert backups[..|backups|] == backups;
      UncleanedIs(run, kept);
    }

    /** Removes the staged files that are left. */
    method DropTemporaries(staged: seq<Kind>) returns (raised: Option<Error>)
      requires staged <= KINDS
      modifies this
      ensures raised.None? <==> forall k :: k in staged ==> run.Quiet(DropStaged(k))
      ensures raised.Some? ==> raised.value.Failed?
      ensures forall k: Kind :: At(files, Temporary(k)) ==
                if k in staged && run.DropsStaged(k) then None else At(old(files), Temporary(k))
      ensures TemporariesOnly(files, old(files))
      ensures old(trail) <= trail && TemporariesOnlyFrom(trail, |old(trail)|, old(files))
    {
      raised := None;
      for i := 0 to |staged|
        invariant raised.None?
        invariant forall k :: k in staged[..i] ==> run.Quiet(DropStaged(k))
        invariant forall k: Kind :: At(files, Temporary(k)) ==
                    if k in staged[..i] then None else At(old(files), Temporary(k))
        invariant TemporariesOnly(files, old(files))
        invariant old(trail) <= trail && TemporariesOnlyFrom(trail, |old(trail)|, old(files))
      {
        assert staged[i] == KINDS[i];
        raised := Unlink(DropStaged(staged[i]), Temporary(staged[i]));
        if raised.Some? {
          assert staged[0] == Wheel && (i == 1 ==> staged[..i] == [Wheel]);
          return;
        }
      }
    }

    /** After a failure: removes the backups that the rollback does not want kept. */
    method DropUnusedBackups(backups: seq<Kind>, preserved: set<Kind>) returns (raised: Option<Error>)
      requires |backups| <= 2 && (|backups| == 2 ==> backups == KINDS)
      modifies this
      ensures raised.None? <==> forall k :: k in backups && k !in preserved ==> run.Quiet(DropUnused(k))
      ensures raised.Some? ==> raised.value.Failed?
      ensures forall k: Kind :: At(files, Backup(k)) ==
                if UnusedDropped(run, backups, preserved, k) then None else At(old(files), Backup(k))
      ensures BackupsOnly(files, old(files))
      ensures old(trail) <= trail && BackupsOnlyFrom(trail, |old(trail)|, old(files))
      ensures forall i, k: Kind :: |old(trail)| <= i < |trail| && !UnusedDropped(run, backups, preserved, k) ==>
                At(trail[i], Backup(k)) == At(old(files), Backup(k))
    {
      raised := None;
      for i := 0 to |backups|
        invariant raised.None?
        invariant forall k :: k in backups[..i] && k !in preserved ==> run.Quiet(DropUnused(k))
        invariant forall k: Kind :: At(files, Backup(k)) ==
                    if k in backups[..i] && k !in preserved then None else At(old(files), Backup(k))
        invariant BackupsOnly(files, old(files))
        invariant old(trail) <= trail && BackupsOnlyFrom(trail, |old(trail)|, old(files))
        invariant forall j, k: Kind :: |old(trail)| <= j < |trail| && !(k in backups[..i] && k !in preserved) ==>
                    At(trail[j], Backup(k)) == At(old(files), Backup(k))
      {
        var k := backups[i];
        if k !in preserved {
          raised := Unlink(DropUnused(k), Backup(k));
          if raised.Some? {
            return;
          }
        }
      }
    }

    // -- The whole promotion --

    /** After the commit: the `else` part and `finally`. */
    method Conclude(plan: Plan, staged: seq<Kind>, backups: seq<Kind>, artifacts: map<Kind, Record>,
                    ghost prior: Directory)
      returns (outcome: Outcome)
      requires run.Commits() && staged == KINDS && backups == BackedUp(run.existed) && AllNew(files, plan)
      requires BodyLeft(files, run, staged, backups)
      modifies this
      ensures ReportOf(outcome) == run.BodyReport()
      ensures outcome.Returned? ==> outcome.artifacts == artifacts
      ensures Remains(files, run)
      ensures outcome.Returned? ==> forall k: Kind :: At(files, Temporary(k)) == At(files, Backup(k)) == None
      ensures ReportOf(outcome).Uncleaned? ==>
                forall k: Kind :: At(files, Backup(k)).Some? ==> k in ReportOf(outcome).kinds
      ensures forall k: Kind :: Ended(files, run, plan, prior, k)
      ensures At(files, Lock) == At(old(files), Lock)
      ensures old(trail) <= trail && NewFrom(trail, |old(trail)|, plan)
    {
      var stopped, kept := DropBackups(backups);
      outcome := if stopped.Some? then Raised(stopped.value)
                 else if kept != {} then Raised(CleanupIncomplete(kept)) else Returned(artifacts);
      ghost var middle, mark := files, |trail|;
      assert AllNew(middle, plan) && NewFrom(trail, |old(trail)|, plan);
      var dropped := DropTemporaries(staged);
      if dropped.Some? {
        outcome := Raised(dropped.value);
      }
      NewIsEnded(files, run, plan, prior);
      KeptAreUncleaned(run);
    }

    /** After a failure: `finally`, whose own exceptions replace the one being raised. */
    method GiveUp(error: Error, plan: Plan, staged: seq<Kind>, backups: seq<Kind>, preserved: set<Kind>)
      returns (raised: Error)
      requires |backups| <= 2 && (|backups| == 2 ==> backups == KINDS) && staged <= KINDS
      requires run.Prepares() ==> staged == KINDS && backups == BackedUp(run.existed)
      requires preserved == run.Preserved() && (forall k :: k in backups <==> run.BackupMade(k))
      requires forall k: Kind :: k in staged <==> run.Staged(k)
      modifies this
      ensures raised == error || raised.Failed?
      ensures run.Prepares() ==> if run.FinalDropsQuiet() then raised == error else raised.Failed?
      ensures SettledOnly(files, old(files))
      ensures forall k: Kind :: At(files, Temporary(k)) ==
                if run.Staged(k) && run.DropsStaged(k) then None else At(old(files), Temporary(k))
      ensures forall k: Kind :: At(files, Backup(k)) ==
                if run.BackupMade(k) && run.Discards(k) then None else At(old(files), Backup(k))
      ensures old(trail) <= trail
      ensures forall i :: |old(trail)| <= i < |trail| ==> SettledOnly(trail[i], old(files))
      ensures run.Prepares() ==> forall i, k: Kind :: |old(trail)| <= i < |trail| && !run.Discards(k) ==>
                At(trail[i], Backup(k)) == At(old(files), Backup(k))
    {
      BackedUpHolds(run.existed);
      var dropped := DropTemporaries(staged);
      if dropped.None? {
        dropped := DropUnusedBackups(backups, preserved);
      }
      return if dropped.Some? then dropped.value else error;
    }

    /** After a failure: the `except` part and `finally`. */
    method Recover(first: Error, plan: Plan, staged: seq<Kind>, existed: set<Kind>, backups: seq<Kind>,
                   attempted: seq<Kind>, ghost prior: Directory)
      returns (error: Error, ghost cleanup: nat)
      requires plan.Distinct() && !run.Commits() && first.Failed?
      requires attempted <= KINDS && forall k: Kind :: k in attempted <==> run.Attempts(k)
      requires backups == BackedUp(existed) && (run.Prepares() ==> staged == KINDS && existed == run.existed)
      requires Unwound(files, run, plan, prior, 2) && staged <= KINDS && BodyLeft(files, run, staged, backups)
      modifies this
      ensures ReportOf(Raised(error)) == run.BodyReport()
      ensures Remains(files, run)
      ensures forall k: Kind :: Ended(files, run, plan, prior, k)
      ensures At(files, Lock) == At(old(files), Lock)
      ensures old(trail) <= trail && |old(trail)| <= cleanup <= |trail|
      ensures KeptFrom(trail[..cleanup], |old(trail)|, plan, prior)
      ensures forall i, k: Kind :: cleanup <= i < |trail| && !run.Loses(k) ==> Kept(trail[i], plan, prior, k)
    {
      BackedUpHolds(existed);
      var stopped, preserved := Rollback(plan, existed, attempted, prior);
      error := if stopped.Some? then stopped.value else if preserved != {} then RollbackIncomplete(preserved)
        else first;
      cleanup := |trail|;
      ghost var middle := files;
      error := GiveUp(error, plan, staged, backups, preserved);
      forall k: Kind
        ensures Ended(files, run, plan, prior, k)
      {
        EndsAsRolledBack(files, middle, run, plan, prior, k);
      }
      forall i, k: Kind | cleanup <= i < |trail| && !run.Loses(k)
        ensures Kept(trail[i], plan, prior, k)
      {
        StaysKept(trail[i], middle, run, plan, prior, k);
      }
    }

    /** The body of the `with` statement: prepare, replace, and commit or roll back. */
    method PromoteLocked(plan: Plan, digest: Bytes -> Bytes, ghost prior: Directory)
      returns (outcome: Outcome, ghost cleanup: nat, ghost commit: nat)
      requires plan.Distinct() && run.Enters() && AllPrior(files, plan, prior)
      requires forall k: Kind :: At(files, Temporary(k)) == At(files, Backup(k)) == None
      requires forall k: Kind :: k in run.existed <==> plan.Dest(k) in prior
      modifies this
      ensures ReportOf(outcome) == run.BodyReport()
      ensures forall k: Kind :: Ended(files, run, plan, prior, k)
      ensures Remains(files, run)
      ensures outcome.Returned? ==> Describe(outcome.artifacts, plan, digest)
      ensures outcome.Returned? ==> forall k: Kind :: At(files, Temporary(k)) == At(files, Backup(k)) == None
      ensures ReportOf(outcome).Uncleaned? ==>
                forall k: Kind :: At(files, Backup(k)).Some? ==> k in ReportOf(outcome).kinds
      ensures At(files, Lock) == At(old(files), Lock)
      ensures old(trail) <= trail && TrailIsSafe(trail, |old(trail)|, cleanup, commit, run, plan, prior)
    {
      var raised, staged, existed, backups, attempted, artifacts := Attempt(plan, digest, prior);
      cleanup, commit := |trail|, |trail|;
      if raised.None? {
        NewAfterCommit(files, run, plan, prior);
        outcome := Conclude(plan, staged, backups, artifacts, prior);
      } else {
        UnwoundAtFirst(files, run, plan, prior);
        var error;
        error, cleanup := Recover(raised.value, plan, staged, existed, backups, attempted, prior);
        outcome, commit := Raised(error), |trail|;
      }
    }

    // -- The lock --

    /** The `finally` part of the lock: a lost or stuck lock is raised only when nothing else is being raised. */
    method Release(outcome: Outcome) returns (released: Outcome)
      modifies this
      requires Lock in files
      ensures ReportOf(released) == if run.ReleaseOverrides() || (outcome.Returned? && run.LockTroubled()) then Ordinary
                                    else ReportOf(outcome)
      ensures released.Returned? ==> released == outcome && At(files, Lock) == None
      ensures run.Locks() ==> (At(files, Lock).Some? <==> run.LeavesLock())
      ensures SameBut(files, old(files), Lock)
      ensures old(trail) <= trail && SameButFrom(trail, |old(trail)|, old(files), Lock)
    {
      match run.outsider {
        case Left =>
        case Removed => files := files - {Lock};
        case Rewritten(content) => files := files[Lock := content];
      }
      var raised := Perform(InspectLock, files);
      if raised.Some? {
        return Raised(raised.value);
      }
      var troubled := true;
      if Lock in files && !run.outsider.Rewritten? {
        raised := Unlink(RemoveLock, Lock);
        if raised.Some? && !raised.value.osError {
          return Raised(raised.value);
        }
        troubled := raised.Some?;
      }
      return if troubled && outcome.Returned? then Raised(LockTrouble) else outcome;
    }

    /** Takes the lock: `locked` says that the lock file is now ours, `raised` that the body must not run. */
    method Acquire(process: Bytes) returns (locked: bool, raised: Option<Error>)
      requires run.held <==> Lock in files
      modifies this
      ensures locked <==> run.Locks()
      ensures raised.None? <==> run.Enters()
      ensures raised.Some? ==> ReportOf(Raised(raised.value)) == Ordinary
      ensures if locked then Lock in files else At(files, Lock).Some? <==> run.LeavesLock()
      ensures SameBut(files, old(files), Lock)
      ensures old(trail) <= trail && SameButFrom(trail, |old(trail)|, old(files), Lock)
    {
      raised := Perform(CheckDirectory(0), files);
      if raised.None? && Lock in files {
        raised := Some(LockHeld);
      } else if raised.None? {
        raised := Perform(CreateLock, files[Lock := []]);
      }
      if raised.Some? {
        return false, raised;
      }
      raised := Perform(WriteLock, files[Lock := process]);
      if raised.None? {
        raised := Perform(CheckDirectory(1), files);
      }
      return true, raised;
    }

    /** The promotion under the exclusive lock. */
    method PromoteExclusively(plan: Plan, process: Bytes, digest: Bytes -> Bytes)
      returns (outcome: Outcome, ghost cleanup: nat, ghost commit: nat)
      requires plan.Distinct() && (run.held <==> Lock in files)
      requires forall k: Kind :: k in run.existed <==> plan.Dest(k) in files
      requires forall k: Kind :: At(files, Temporary(k)) == At(files, Backup(k)) == None
      modifies this
      ensures ReportOf(outcome) == run.Reports()
      ensures forall k: Kind :: Ended(files, run, plan, old(files), k)
      ensures Remains(files, run) && (At(files, Lock).Some? <==> run.LeavesLock())
      ensures outcome.Returned? ==> Describe(outcome.artifacts, plan, digest)
      ensures outcome.Returned? ==> forall k: Kind :: At(files, Temporary(k)) == At(files, Backup(k)) == None
      ensures outcome.Returned? ==> At(files, Lock) == None
      ensures ReportOf(outcome).Uncleaned? ==>
                forall k: Kind :: At(files, Backup(k)).Some? ==> k in ReportOf(outcome).kinds
      ensures old(trail) <= trail && TrailIsSafe(trail, |old(trail)|, cleanup, commit, run, plan, old(files))
    {
      ghost var prior := files;
      var locked, raised := Acquire(process);
      cleanup, commit := |trail|, |trail|;
      ghost var entered := |trail|;
      if raised.Some? {
        outcome := Raised(raised.value);
        StillPrior(files, run, plan, prior);
      } else {
        outcome, cleanup, commit := PromoteLocked(plan, digest, prior);
      }
      StartsEarlier(trail, |old(trail)|, entered, cleanup, commit, run, plan, prior);
      if locked {
        ghost var middle, before := files, trail;
        outcome := Release(outcome);
        EndsLater(before, trail, |old(trail)|, cleanup, commit, middle, run, plan, prior);
        LockIsApart(files, middle, run, plan, prior);
        commit := if run.Commits() then commit else |trail|;
      }
    }

    /** The promotion of a set of built files, as the caller sees it. */
    method Promote(sources: map<Kind, Source>, process: Bytes, digest: Bytes -> Bytes)
      returns (outcome: Outcome, ghost cleanup: nat, ghost commit: nat)
      requires forall k: Kind :: At(files, Temporary(k)) == At(files, Backup(k)) == None
      requires sources.Keys == {Wheel, Sdist} ==>
                 run == RunOf(run.faults, files, Plan(sources[Wheel], sources[Sdist]), run.outsider)
      modifies this
      ensures !Promotable(sources) ==> outcome.Raised? && files == old(files) && trail == old(trail)
      ensures Promotable(sources) ==>
        var plan, prior := Plan(sources[Wheel], sources[Sdist]), old(files);
        && ReportOf(outcome) == run.Reports()
        && (forall k: Kind :: Ended(files, run, plan, prior, k))
        && Remains(files, run) && (At(files, Lock).Some? <==> run.LeavesLock())
        && (outcome.Returned? ==> Describe(outcome.artifacts, plan, digest) && NothingLeft(files))
        && (ReportOf(outcome).Uncleaned? ==>
              forall k: Kind :: At(files, Backup(k)).Some? ==> k in ReportOf(outcome).kinds)
        && old(trail) <= trail && TrailIsSafe(trail, |old(trail)|, cleanup, commit, run, plan, prior)
    {
      cleanup, commit := |trail|, |trail|;
      if sources.Keys != {Wheel, Sdist} {
        return Raised(BadSet), cleanup, commit;
      }
      var plan := Plan(sources[Wheel], sources[Sdist]);
      if plan.Dest(Wheel) == plan.Dest(Sdist) {
        return Raised(Collision), cleanup, commit;
      }
      outcome, cleanup, commit := PromoteExclusively(plan, process, digest);
    }
  }
}
