/** Promotion of a wheel and an sdist into the output directory: the files involved, the operations that can
    raise, and what a promotion comes to for a given choice of faults. */
module PromotionPlan {
  import opened Options

  newtype byte = x: int | 0 <= x < 256
  type Bytes = seq<byte>

  datatype Kind = Wheel | Sdist

  const KINDS: seq<Kind> := [Wheel, Sdist]

  function Rank(k: Kind): nat {
    if k == Wheel then 0 else 1
  }

  /** The names the promotion uses in the output directory; temporary names are fresh by construction. */
  datatype Path = Artifact(name: string) | Temporary(kind: Kind) | Backup(kind: Kind) | Lock

  type Directory = map<Path, Bytes>

  function At(files: Directory, p: Path): Option<Bytes> {
    if p in files then Some(files[p]) else None
  }

  datatype Source = Source(name: string, content: Bytes)

  /** The two built files, with different names. */
  datatype Plan = Plan(wheel: Source, sdist: Source) {
    function Of(k: Kind): Source {
      if k == Wheel then wheel else sdist
    }

    function Dest(k: Kind): Path {
      Artifact(Of(k).name)
    }

    predicate Distinct() {
      wheel.name != sdist.name
    }
  }

  /** Every operation of a promotion that can raise.  Each happens at most once. */
  datatype Op =
    | CheckDirectory(turn: nat)
    | CreateLock | WriteLock | InspectLock | RemoveLock
    | CreateTemp(path: Path) | CopyTemp(path: Path) | DiscardTemp(path: Path)
    | Inspect(kind: Kind)
    | Replace(kind: Kind)
    | Measure(kind: Kind)
    | Undo(kind: Kind)
    | DropBackup(kind: Kind)
    | DropStaged(kind: Kind)
    | DropUnused(kind: Kind)

  /** An operation that raises may or may not have taken effect first (an interrupt can arrive just after). */
  datatype Fault = Fine | Raises(osError: bool, applied: bool)

  /** What other processes do to the lock file while it is held. */
  datatype Outsider = Left | Removed | Rewritten(content: Bytes)

  datatype Error =
    | Failed(osError: bool)
    | BadSet | Collision | LockHeld | LockTrouble
    | RollbackIncomplete(kinds: set<Kind>)
    | CleanupIncomplete(kinds: set<Kind>)

  datatype Record = Record(path: Path, digest: Bytes, size: nat)

  datatype Outcome = Returned(artifacts: map<Kind, Record>) | Raised(error: Error)

  /** What an outcome tells the caller about the two destinations. */
  datatype Report = Done | Ordinary | Unrolled(kinds: set<Kind>) | Uncleaned(kinds: set<Kind>)

  function ReportOf(outcome: Outcome): Report {
    match outcome
    case Returned(_) => Done
    case Raised(RollbackIncomplete(kinds)) => Unrolled(kinds)
    case Raised(CleanupIncomplete(kinds)) => Uncleaned(kinds)
    case Raised(_) => Ordinary
  }

  /** One choice of faults, together with what the output directory held at the start. */
  datatype Run = Run(faults: Op -> Fault, existed: set<Kind>, held: bool, outsider: Outsider) {
    predicate Quiet(op: Op) {
      faults(op).Fine?
    }

    predicate TakesEffect(op: Op) {
      faults(op).Fine? || faults(op).applied
    }

    predicate FailsInSystem(op: Op) {
      faults(op).Raises? && faults(op).osError
    }

    /** The operation raises something other than an `OSError`. */
    predicate Interrupts(op: Op) {
      faults(op).Raises? && !faults(op).osError
    }

    // -- Up to the commit --

    predicate Locks() {
      Quiet(CheckDirectory(0)) && Quiet(CreateLock) && !held
    }

    predicate Enters() {
      Locks() && Quiet(WriteLock) && Quiet(CheckDirectory(1))
    }

    predicate Stages(p: Path) {
      Quiet(CreateTemp(p)) && Quiet(CopyTemp(p))
    }

    predicate StagesBoth() {
      Stages(Temporary(Wheel)) && Stages(Temporary(Sdist))
    }

    predicate BacksUp(k: Kind) {
      Quiet(Inspect(k)) && (k in existed ==> Stages(Backup(k)))
    }

    predicate Prepares() {
      Enters() && StagesBoth() && BacksUp(Wheel) && BacksUp(Sdist) && Quiet(CheckDirectory(2))
    }

    /** The kinds whose replacement is begun. */
    predicate Attempts(k: Kind) {
      Prepares() && (k == Sdist ==> Quiet(Replace(Wheel)))
    }

    predicate Replaces(k: Kind) {
      Attempts(k) && TakesEffect(Replace(k))
    }

    predicate Commits() {
      && Prepares() && Quiet(Replace(Wheel)) && Quiet(Replace(Sdist)) && Quiet(CheckDirectory(3))
      && Quiet(Measure(Wheel)) && Quiet(Measure(Sdist))
    }

    // -- The temporary files and backups of the body --

    /** Staging a copy fails and leaves it behind. */
    predicate Strands(p: Path) {
      !Stages(p) && if Quiet(CreateTemp(p)) then !TakesEffect(DiscardTemp(p)) else TakesEffect(CreateTemp(p))
    }

    /** The staging of this kind is begun. */
    predicate StagesNext(k: Kind) {
      Enters() && (k == Sdist ==> Stages(Temporary(Wheel)))
    }

    /** The staging of this kind returns. */
    predicate Staged(k: Kind) {
      StagesNext(k) && Stages(Temporary(k))
    }

    predicate BacksUpNext(k: Kind) {
      Enters() && StagesBoth() && (k == Sdist ==> BacksUp(Wheel)) && Quiet(Inspect(k)) && k in existed
    }

    predicate BackupMade(k: Kind) {
      BacksUpNext(k) && Stages(Backup(k))
    }

    /** There is a temporary file of this kind when the body of the `try` statement ends. */
    predicate HasTemporary(k: Kind) {
      (StagesNext(k) && Strands(Temporary(k))) || (Staged(k) && !Replaces(k))
    }

    predicate HasBackup(k: Kind) {
      BacksUpNext(k) && (Stages(Backup(k)) || Strands(Backup(k)))
    }

    // -- The rollback, last attempted kind first --

    predicate RollsBack(k: Kind) {
      !Commits() && Attempts(k) && (k == Wheel && Attempts(Sdist) ==> !Interrupts(Undo(Sdist)))
    }

    predicate Undoes(k: Kind) {
      RollsBack(k) && TakesEffect(Undo(k))
    }

    /** The rollback tried to undo this kind, failed with an `OSError`, and so keeps its backup. */
    predicate Preserves(k: Kind) {
      RollsBack(k) && FailsInSystem(Undo(k))
    }

    function Preserved(): set<Kind> {
      (if Preserves(Wheel) then {Wheel} else {}) + (if Preserves(Sdist) then {Sdist} else {})
    }

    predicate RollbackInterrupted() {
      (RollsBack(Sdist) && Interrupts(Undo(Sdist))) || (RollsBack(Wheel) && Interrupts(Undo(Wheel)))
    }

    // -- Cleaning up --

    predicate StagedDropsQuiet() {
      Quiet(DropStaged(Wheel)) && Quiet(DropStaged(Sdist))
    }

    /** The final clean-up of a failed promotion gets as far as the backup of this kind and removes it. */
    predicate Discards(k: Kind) {
      && k in existed && !Preserves(k) && StagedDropsQuiet() && TakesEffect(DropUnused(k))
      && (k == Sdist && Wheel in existed && !Preserves(Wheel) ==> Quiet(DropUnused(Wheel)))
    }

    predicate FinalDropsQuiet() {
      && StagedDropsQuiet()
      && (Wheel in existed && !Preserves(Wheel) ==> Quiet(DropUnused(Wheel)))
      && (Sdist in existed && !Preserves(Sdist) ==> Quiet(DropUnused(Sdist)))
    }

    predicate CleanupInterrupted() {
      (Wheel in existed && Interrupts(DropBackup(Wheel))) || (Sdist in existed && Interrupts(DropBackup(Sdist)))
    }

    function Uncleaned(): set<Kind> {
      (if Wheel in existed && FailsInSystem(DropBackup(Wheel)) then {Wheel} else {})
      + (if Sdist in existed && FailsInSystem(DropBackup(Sdist)) then {Sdist} else {})
    }

    /** The clean-up gets as far as the staged file of this kind and removes it. */
    predicate DropsStaged(k: Kind) {
      TakesEffect(DropStaged(k)) && (k == Sdist ==> Quiet(DropStaged(Wheel)))
    }

    /** After a commit the clean-up gets as far as the backup of this kind and removes it. */
    predicate DropsBackup(k: Kind) {
      TakesEffect(DropBackup(k)) && (k == Sdist && Wheel in existed ==> !Interrupts(DropBackup(Wheel)))
    }

    // -- What stays behind --

    predicate LeavesTemporary(k: Kind) {
      HasTemporary(k) && !(Staged(k) && DropsStaged(k))
    }

    predicate LeavesBackup(k: Kind) {
      HasBackup(k)
      && !(BackupMade(k) && if Commits() then DropsBackup(k) else Undoes(k) || Discards(k))
    }

    predicate LeavesLock() {
      if !Locks() then held || (Quiet(CheckDirectory(0)) && TakesEffect(CreateLock))
      else match outsider
        case Left => !(Quiet(InspectLock) && TakesEffect(RemoveLock))
        case Removed => false
        case Rewritten(_) => true
    }

    // -- Where it all ends --

    /** The kind was replaced and stays replaced. */
    predicate EndsNew(k: Kind) {
      Commits() || (Replaces(k) && !Undoes(k))
    }

    /** The bytes that were there before are neither restored nor kept in a backup. */
    predicate Loses(k: Kind) {
      k in existed && !Commits() && Replaces(k) && !Undoes(k) && Discards(k)
    }

    /** What the body of the `with` statement reports. */
    function BodyReport(): Report {
      if Commits() then
        if CleanupInterrupted() || !StagedDropsQuiet() then Ordinary
        else if Uncleaned() != {} then Report.Uncleaned(Uncleaned()) else Done
      else if RollbackInterrupted() || Preserved() == {} || !FinalDropsQuiet() then Ordinary
      else Unrolled(Preserved())
    }

    /** Releasing the lock raises whatever the body did. */
    predicate ReleaseOverrides() {
      !Quiet(InspectLock) || (outsider.Left? && Interrupts(RemoveLock))
    }

    /** The lock was lost or cannot be removed, which is raised only when nothing else is. */
    predicate LockTroubled() {
      !outsider.Left? || !Quiet(RemoveLock)
    }

    function Reports(): Report {
      if !Locks() || ReleaseOverrides() || (BodyReport().Done? && LockTroubled()) then Ordinary else BodyReport()
    }
  }

  function RunOf(faults: Op -> Fault, files: Directory, plan: Plan, outsider: Outsider): Run {
    Run(faults,
        (if plan.Dest(Wheel) in files then {Wheel} else {}) + (if plan.Dest(Sdist) in files then {Sdist} else {}),
        Lock in files, outsider)
  }

  /** The kinds that have a backup, in the order the backups are made. */
  function BackedUp(existed: set<Kind>): seq<Kind> {
    (if Wheel in existed then [Wheel] else []) + (if Sdist in existed then [Sdist] else [])
  }

  /** The destination of one kind at the end of a run. */
  function DestAfter(run: Run, plan: Plan, prior: Directory, k: Kind): Option<Bytes> {
    if run.EndsNew(k) then Some(plan.Of(k).content) else At(prior, plan.Dest(k))
  }

  // ---- What the outcome promises ----

  predicate AllNew(files: Directory, plan: Plan) {
    && At(files, plan.Dest(Wheel)) == Some(plan.wheel.content)
    && At(files, plan.Dest(Sdist)) == Some(plan.sdist.content)
  }

  predicate AllPrior(files: Directory, plan: Plan, prior: Directory) {
    && At(files, plan.Dest(Wheel)) == At(prior, plan.Dest(Wheel))
    && At(files, plan.Dest(Sdist)) == At(prior, plan.Dest(Sdist))
  }

  /** The bytes that were under a destination are still there or in its backup. */
  predicate Kept(files: Directory, plan: Plan, prior: Directory, k: Kind) {
    var was := At(prior, plan.Dest(k));
    was == None || At(files, plan.Dest(k)) == was || At(files, Backup(k)) == was
  }

  /** What a caller may conclude from each report. */
  predicate Honest(report: Report, files: Directory, plan: Plan, prior: Directory) {
    match report
    case Done => AllNew(files, plan)
    case Ordinary => AllPrior(files, plan, prior)
    case Unrolled(kinds) =>
      && kinds != {}
      && (forall k: Kind :: k !in kinds ==> At(files, plan.Dest(k)) == At(prior, plan.Dest(k)))
      && Kept(files, plan, prior, Wheel) && Kept(files, plan, prior, Sdist)
    case Uncleaned(kinds) => kinds != {} && AllNew(files, plan)
  }
}
