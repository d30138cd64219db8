/** What the caller of a promotion may conclude from its outcome, and exactly when that conclusion is wrong. */
module PromotionOutcome {
  import opened Options
  import opened PromotionPlan
  import opened Promotion

  /** The run was started on this directory, and has left this other one. */
  ghost predicate Finished(files: Directory, run: Run, plan: Plan, prior: Directory) {
    && (forall k: Kind :: k in run.existed <==> plan.Dest(k) in prior)
    && (forall k: Kind :: Ended(files, run, plan, prior, k))
  }

  /** The destination ends with new content, and that is not what was there before. */
  predicate Changes(run: Run, plan: Plan, prior: Directory, k: Kind) {
    run.EndsNew(k) && At(prior, plan.Dest(k)) != Some(plan.Of(k).content)
  }

  /** Some destination is replaced for good and an exception of the clean-up hides that from the caller. */
  predicate Misleads(run: Run) {
    if run.Commits() then
      || run.CleanupInterrupted() || !run.StagedDropsQuiet() || run.ReleaseOverrides()
      || (run.Uncleaned() == {} && run.LockTroubled())
    else
      && (run.EndsNew(Wheel) || run.EndsNew(Sdist))
      && (run.RollbackInterrupted() || !run.FinalDropsQuiet() || run.ReleaseOverrides())
  }

  /** A kind that stays replaced without a commit was reported by the rollback, or the rollback was interrupted. */
  lemma UnrestoredIsReported(run: Run, k: Kind)
    requires !run.Commits() && run.EndsNew(k)
    ensures run.RollbackInterrupted() || run.Preserves(k)
  {
    if !run.RollsBack(k) {
      assert k == Wheel && run.Attempts(Sdist) && run.Interrupts(Undo(Sdist));
    }
  }

  lemma ReportsWithoutCommit(run: Run)
    requires !run.Commits() && (run.EndsNew(Wheel) || run.EndsNew(Sdist))
    ensures run.Reports() == if Misleads(run) then Ordinary else Unrolled(run.Preserved())
    ensures !run.RollbackInterrupted() ==> run.Preserved() != {}
  {
    if run.EndsNew(Wheel) {
      UnrestoredIsReported(run, Wheel);
    }
    if run.EndsNew(Sdist) {
      UnrestoredIsReported(run, Sdist);
    }
  }

  /** Rollback that is not interrupted loses nothing. */
  lemma LossNeedsAnInterrupt(run: Run, k: Kind)
    ensures run.Loses(k) ==> run.RollbackInterrupted()
  {
    if run.Loses(k) {
      UnrestoredIsReported(run, k);
    }
  }

  lemma UnrolledIsHonest(files: Directory, run: Run, plan: Plan, prior: Directory)
    requires Finished(files, run, plan, prior) && run.Reports().Unrolled?
    ensures Honest(run.Reports(), files, plan, prior)
  {
    assert !run.Commits() && !run.RollbackInterrupted();
    forall k: Kind
      ensures Kept(files, plan, prior, k)
      ensures k !in run.Preserved() ==> At(files, plan.Dest(k)) == At(prior, plan.Dest(k))
    {
      assert Ended(files, run, plan, prior, k);
      LossNeedsAnInterrupt(run, k);
      EndedIsKept(files, run, plan, prior, k);
      if run.EndsNew(k) {
        UnrestoredIsReported(run, k);
      }
    }
  }

  /** All or nothing: an ordinary error means that both destinations are as before, success that both are new,
      an incomplete rollback that every prior file is at its destination or in its backup, and an incomplete
      clean-up that both are new; unless the clean-up hides a change behind an exception of its own. */
  lemma OutcomeIsHonest(files: Directory, run: Run, plan: Plan, prior: Directory)
    requires Finished(files, run, plan, prior) && !Misleads(run)
    ensures Honest(run.Reports(), files, plan, prior)
  {
    assert Ended(files, run, plan, prior, Wheel) && Ended(files, run, plan, prior, Sdist);
    if run.Reports().Unrolled? {
      UnrolledIsHonest(files, run, plan, prior);
    } else if !run.Commits() && (run.EndsNew(Wheel) || run.EndsNew(Sdist)) {
      ReportsWithoutCommit(run);
    }
  }

  /** Any outcome of any run is honest, unless an exception of the clean-up hides a destination that changed. */
  lemma HonestExactly(files: Directory, run: Run, plan: Plan, prior: Directory)
    requires Finished(files, run, plan, prior)
    ensures Honest(run.Reports(), files, plan, prior)
            <==> !(Misleads(run) && (Changes(run, plan, prior, Wheel) || Changes(run, plan, prior, Sdist)))
  {
    assert Ended(files, run, plan, prior, Wheel) && Ended(files, run, plan, prior, Sdist);
    if !Misleads(run) {
      OutcomeIsHonest(files, run, plan, prior);
    } else if !run.Commits() {
      ReportsWithoutCommit(run);
    }
  }

  /** The bytes of a prior file are gone after a failed promotion exactly when the rollback was interrupted
      before restoring it and the final clean-up then removed its backup, unless the new file has those bytes. */
  lemma LossExactly(files: Directory, run: Run, plan: Plan, prior: Directory, k: Kind)
    requires Finished(files, run, plan, prior) && !run.Commits()
    ensures Kept(files, plan, prior, k) <==> !(run.Loses(k) && Changes(run, plan, prior, k))
    ensures run.Loses(k) ==> run.RollbackInterrupted()
  {
    assert Ended(files, run, plan, prior, k);
    LossNeedsAnInterrupt(run, k);
    if !run.Loses(k) {
      EndedIsKept(files, run, plan, prior, k);
    }
  }

  /** Every clean-up operation works, and creating a file does not raise after it has taken effect. */
  ghost predicate CleansUp(run: Run) {
    && (forall p: Path :: run.Quiet(DiscardTemp(p)) && (run.Quiet(CreateTemp(p)) || !run.TakesEffect(CreateTemp(p))))
    && (forall k: Kind :: run.Quiet(DropStaged(k)) && run.Quiet(DropUnused(k)) && run.Quiet(DropBackup(k)))
    && run.Quiet(InspectLock) && run.Quiet(RemoveLock) && (run.Quiet(CreateLock) || !run.TakesEffect(CreateLock))
  }

  /** Then, whatever else raises, a promotion leaves neither temporary files nor a lock that blocks the next one, and
      no backups but those that an incomplete rollback reports. */
  lemma NothingElseRemains(run: Run, k: Kind)
    requires CleansUp(run) && run.outsider.Left? && !run.held
    ensures !run.LeavesTemporary(k) && !run.LeavesLock()
    ensures run.LeavesBackup(k) ==> run.Preserves(k)
    ensures run.LeavesBackup(k) && !run.RollbackInterrupted() ==> run.Reports() == Unrolled(run.Preserved())
  {
    assert run.Quiet(DropStaged(Wheel)) && run.Quiet(DropStaged(Sdist));
    assert run.Quiet(DropUnused(Wheel)) && run.Quiet(DropUnused(Sdist));
    assert run.Quiet(DropBackup(Wheel)) && run.Quiet(DropBackup(Sdist));
  }

  /** The second replacement fails and an interrupt arrives while the first is being undone: the prior wheel is
      lost although every clean-up operation succeeds. */
  lemma InterruptedRollbackLosesAFile() returns (files: Directory, run: Run, plan: Plan, prior: Directory)
    ensures Finished(files, run, plan, prior) && !Kept(files, plan, prior, Wheel)
    ensures run.Reports() == Ordinary
    ensures forall op: Op :: !run.Quiet(op) <==> op == Replace(Sdist) || op == Undo(Wheel)
  {
    run := Run(TwoFaults, {Wheel, Sdist}, false, Left);
    TheInterruptLoses(run);
    files, plan, prior := WithoutTheWheel(run);
  }

  /** The directory that such a run leaves. */
  lemma WithoutTheWheel(run: Run) returns (files: Directory, plan: Plan, prior: Directory)
    requires run.existed == {Wheel, Sdist} && run.EndsNew(Wheel) && !run.EndsNew(Sdist) && !run.Commits()
             && !run.Replaces(Sdist)
    requires run.Loses(Wheel)
    ensures Finished(files, run, plan, prior) && !Kept(files, plan, prior, Wheel)
  {
    plan := Plan(Source("wheel", [1]), Source("sdist", [1]));
    prior := map[Artifact("wheel") := [0], Artifact("sdist") := [0]];
    files := prior[Artifact("wheel") := [1]];
    assert Ended(files, run, plan, prior, Wheel);
    assert Ended(files, run, plan, prior, Sdist);
    forall k: Kind
      ensures Ended(files, run, plan, prior, k) && (k in run.existed <==> plan.Dest(k) in prior)
    {
      assert k == Wheel || k == Sdist;
    }
  }

  function TwoFaults(op: Op): Fault {
    if op == Replace(Sdist) then Raises(true, false) else if op == Undo(Wheel) then Raises(false, false) else Fine
  }

  lemma TheInterruptLoses(run: Run)
    requires run.existed == {Wheel, Sdist} && !run.held && run.outsider.Left?
    requires forall op: Op :: op != Replace(Sdist) && op != Undo(Wheel) ==> run.Quiet(op)
    requires run.faults(Replace(Sdist)) == Raises(true, false) && run.faults(Undo(Wheel)) == Raises(false, false)
    ensures run.Reports() == Ordinary && run.Loses(Wheel)
    ensures run.EndsNew(Wheel) && !run.EndsNew(Sdist) && !run.Commits() && !run.Replaces(Sdist)
  {
    assert run.Prepares();
    assert run.Quiet(Replace(Wheel)) && run.Quiet(Undo(Sdist));
    assert run.RollbackInterrupted() && run.EndsNew(Wheel);
    assert run.Quiet(DropUnused(Wheel)) && run.StagedDropsQuiet();
    assert run.Discards(Wheel);
  }

  /** Failing to remove a temporary file after the commit raises an ordinary error, with both files new. */
  lemma LateFaultLooksLikeAFailure() returns (run: Run)
    ensures run.Commits() && run.Reports() == Ordinary
    ensures forall op: Op :: !run.Quiet(op) <==> op == DropStaged(Wheel)
  {
    run := Run((op: Op) => if op == DropStaged(Wheel) then Raises(true, false) else Fine, {}, false, Left);
  }
}
