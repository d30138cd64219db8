/** Publication of content-addressed objects by any number of writers, as atomic steps that interleave with
    each other, with readers, with process crashes and with power loss. */
module EvidenceStore {
  import opened Options

  newtype byte = x: int | 0 <= x < 256
  type Bytes = seq<byte>
  type Digest = string
  type Process = nat

  datatype Result = Stored | Collision | WriteFailed | ReadFailed

  /** Where a writer stands in `_publish`. */
  datatype Phase =
    | Looking
    | Creating
    | Writing(written: nat)
    | Closing
    | Linking
    | SyncingDirectory
    | Cleaning(pending: Result)
    | Finished(result: Result)

  datatype Writer = Writer(raw: Bytes, phase: Phase)

  datatype Reader = Reader(digest: Digest, file: Process, got: Bytes)

  /** The directory of the objects: `put` creates it and its parents, but synchronises none of their names. */
  datatype Root = Absent | Created | OnDisk

  /** `files` holds the bytes of the file each writer created; `objects` and `temporaries` are the names in the
      directory.  `syncedFiles` and `syncedNames` are already on disk, as far as the directory is.  `syncs` says that
      the platform can synchronise a directory at all. */
  datatype Store = Store(
    files: map<Process, Bytes>,
    objects: map<Digest, Process>,
    temporaries: set<Process>,
    syncedFiles: set<Process>,
    syncedNames: set<Digest>,
    root: Root,
    syncs: bool,
    writers: map<Process, Writer>,
    readers: map<Process, Reader>)

  datatype Setting = Setting(rooted: bool, syncs: bool)

  /** A store without objects, whose directory may be on disk already. */
  function Empty(e: Setting): Store {
    Store(map[], map[], {}, {}, {}, if e.rooted then OnDisk else Absent, e.syncs, map[], map[])
  }

  datatype Step =
    | Put(w: Process, raw: Bytes)
    | Look(w: Process)
    | Create(w: Process)
    | Write(w: Process, count: int)
    | SyncFile(w: Process)
    | Close(w: Process)
    | Link(w: Process)
    | SyncDirectory(w: Process)
    | Unlink(w: Process)
    | Fail(w: Process)
    | Crash(w: Process)
    | Open(r: Process, digest: Digest)
    | Take(r: Process, length: nat)
    | PowerLoss(kept: bool, names: set<Digest>, torn: map<Process, Bytes>)

  // ---- The steps ----

  predicate Stands(s: Store, w: Process, phase: Phase) {
    w in s.writers && s.writers[w].phase == phase
  }

  predicate Enabled(s: Store, step: Step) {
    match step
    case Put(w, _) => w !in s.writers && w !in s.files
    case Look(w) => Stands(s, w, Looking)
    case Create(w) => Stands(s, w, Creating)
    case Write(w, count) =>
      && w in s.writers && s.writers[w].phase.Writing? && s.writers[w].phase.written < |s.writers[w].raw|
      && count <= |s.writers[w].raw| - s.writers[w].phase.written
    case SyncFile(w) => w in s.writers && s.writers[w].phase == Writing(|s.writers[w].raw|)
    case Close(w) => Stands(s, w, Closing)
    case Link(w) => Stands(s, w, Linking)
    case SyncDirectory(w) => Stands(s, w, SyncingDirectory)
    case Unlink(w) => w in s.writers && s.writers[w].phase.Cleaning?
    case Fail(w) => w in s.writers && !s.writers[w].phase.Finished?
    case Crash(w) => w in s.writers
    case Open(r, digest) => r !in s.readers && digest in s.objects
    case Take(r, length) => r in s.readers && s.readers[r].file in s.files
                           && |s.readers[r].got| + length <= |s.files[s.readers[r].file]|
    case PowerLoss(kept, names, _) =>
      && names <= s.objects.Keys
      && if kept then !s.root.Absent? && s.syncedNames <= names else !s.root.OnDisk? && names == {}
  }

  function Move(s: Store, w: Process, phase: Phase): Store
    requires w in s.writers
  {
    s.(writers := s.writers[w := s.writers[w].(phase := phase)])
  }

  function ObjectBytes(s: Store, digest: Digest): Option<Bytes> {
    if digest in s.objects && s.objects[digest] in s.files then Some(s.files[s.objects[digest]]) else None
  }

  /** The first look at the target: an object that is there already is compared, and that is all. */
  function DoLook(hash: Bytes -> Digest, s: Store, w: Process): Store
    requires w in s.writers
  {
    var raw := s.writers[w].raw;
    match ObjectBytes(s, hash(raw))
    case None => Move(s, w, Creating)
    case Some(existing) =>
      Move(s, w, Finished(if existing != raw then Collision else Stored))
  }

  /** One `os.write` call; a count of zero or less ends the loop with an error. */
  function DoWrite(s: Store, w: Process, count: int): Store
    requires Enabled(s, Write(w, count))
  {
    var writer := s.writers[w];
    if count <= 0 then Move(s, w, Cleaning(WriteFailed))
    else
      var chunk := writer.raw[writer.phase.written..writer.phase.written + count];
      var before := if w in s.files then s.files[w] else [];
      Move(s, w, Writing(writer.phase.written + count)).(files := s.files[w := before + chunk])
  }

  /** `os.link`: the object name appears, unless it is there already; then its bytes are compared. */
  function DoLink(hash: Bytes -> Digest, s: Store, w: Process): Store
    requires w in s.writers
  {
    var raw := s.writers[w].raw;
    match ObjectBytes(s, hash(raw))
    case None => Move(s, w, SyncingDirectory).(objects := s.objects[hash(raw) := w])
    case Some(existing) =>
      if existing != raw then Move(s, w, Cleaning(Collision)) else Move(s, w, SyncingDirectory)
  }

  function DoUnlink(s: Store, w: Process): Store
    requires w in s.writers && s.writers[w].phase.Cleaning?
  {
    Move(s, w, Finished(s.writers[w].phase.pending)).(temporaries := s.temporaries - {w})
  }

  /** The operation the writer is at raises. */
  function DoFail(s: Store, w: Process): Store
    requires w in s.writers
  {
    match s.writers[w].phase
    case Looking => Move(s, w, Finished(ReadFailed))
    case Cleaning(_) => Move(s, w, Finished(WriteFailed))
    case _ => Move(s, w, Cleaning(WriteFailed))
  }

  /** After power loss no process is left.  A directory that was not on disk may be gone with all its names; one that
      is still there is on disk from now on.  In it a name that was not on disk may or may not be there, and the bytes
      of a file that was not on disk are anything. */
  function DoPowerLoss(s: Store, kept: bool, names: set<Digest>, torn: map<Process, Bytes>): Store {
    s.(files := map i | i in s.files :: if i in s.syncedFiles || i !in torn then s.files[i] else torn[i],
       objects := map d | d in s.objects && d in names :: s.objects[d],
       syncedNames := names, root := if kept then OnDisk else Absent, writers := map[], readers := map[])
  }

  function Apply(hash: Bytes -> Digest, s: Store, step: Step): Store
    requires Enabled(s, step)
  {
    match step
    case Put(w, raw) =>
      s.(root := if s.root.Absent? then Created else s.root, writers := s.writers[w := Writer(raw, Looking)])
    case Look(w) => DoLook(hash, s, w)
    case Create(w) => Move(s, w, Writing(0)).(files := s.files[w := []], temporaries := s.temporaries + {w})
    case Write(w, count) => DoWrite(s, w, count)
    case SyncFile(w) => Move(s, w, Closing).(syncedFiles := s.syncedFiles + {w})
    case Close(w) => Move(s, w, Linking)
    case Link(w) => DoLink(hash, s, w)
    case SyncDirectory(w) =>
      Move(s, w, Cleaning(Stored)).(syncedNames := if s.syncs then s.objects.Keys else s.syncedNames)
    case Unlink(w) => DoUnlink(s, w)
    case Fail(w) => DoFail(s, w)
    case Crash(w) => s.(writers := s.writers - {w})
    case Open(r, digest) => s.(readers := s.readers[r := Reader(digest, s.objects[digest], [])])
    case Take(r, length) =>
      var reader := s.readers[r];
      var file := s.files[reader.file];
      s.(readers := s.readers[r := reader.(got := reader.got + file[|reader.got|..|reader.got| + length])])
    case PowerLoss(kept, names, torn) => DoPowerLoss(s, kept, names, torn)
  }

  /** `read`: the bytes of the object, checked against the digest. */
  datatype ReadResult = Got(raw: Bytes) | Missing | Mismatch

  function Read(hash: Bytes -> Digest, s: Store, digest: Digest): ReadResult {
    match ObjectBytes(s, digest)
    case None => Missing
    case Some(raw) => if hash(raw) == digest then Got(raw) else Mismatch
  }

  // ---- The invariant ----

  /** The file is finished and no writer will write to it again. */
  predicate Sealed(s: Store, i: Process) {
    && i in s.files && i in s.syncedFiles
    && (i in s.writers ==>
          || s.writers[i].phase.SyncingDirectory? || s.writers[i].phase.Cleaning? || s.writers[i].phase.Finished?)
  }

  predicate HasObject(hash: Bytes -> Digest, s: Store, raw: Bytes) {
    ObjectBytes(s, hash(raw)) == Some(raw)
  }

  predicate WriterOk(hash: Bytes -> Digest, s: Store, w: Process)
    requires w in s.writers
  {
    var raw := s.writers[w].raw;
    match s.writers[w].phase
    case Looking => w !in s.files
    case Creating => w !in s.files
    case Writing(n) => n <= |raw| && w in s.files && s.files[w] == raw[..n]
    case Closing => w in s.files && s.files[w] == raw && w in s.syncedFiles
    case Linking => w in s.files && s.files[w] == raw && w in s.syncedFiles
    case SyncingDirectory => HasObject(hash, s, raw)
    case Cleaning(pending) =>
      pending == Stored ==> HasObject(hash, s, raw) && (s.syncs ==> hash(raw) in s.syncedNames)
    case Finished(result) => result == Stored ==> HasObject(hash, s, raw)
  }

  ghost predicate ObjectsOk(hash: Bytes -> Digest, s: Store) {
    && (forall d :: d in s.objects ==> Sealed(s, s.objects[d]) && hash(s.files[s.objects[d]]) == d)
    && s.syncedNames <= s.objects.Keys
  }

  ghost predicate WritersOk(hash: Bytes -> Digest, s: Store) {
    forall w :: w in s.writers ==> WriterOk(hash, s, w)
  }

  predicate ReaderOk(s: Store, r: Process)
    requires r in s.readers
  {
    var reader := s.readers[r];
    && reader.digest in s.objects && s.objects[reader.digest] == reader.file
    && reader.file in s.files && reader.got <= s.files[reader.file]
  }

  ghost predicate ReadersOk(s: Store) {
    forall r :: r in s.readers ==> ReaderOk(s, r)
  }

  ghost predicate Inv(hash: Bytes -> Digest, s: Store) {
    ObjectsOk(hash, s) && WritersOk(hash, s) && ReadersOk(s)
  }

  // ---- Every step keeps it ----

  /** Names only appear, nothing on disk is forgotten, and the bytes of sealed files stay. */
  ghost predicate Grows(s: Store, t: Store) {
    && (forall d :: d in s.objects ==> d in t.objects && t.objects[d] == s.objects[d])
    && (forall i :: Sealed(s, i) ==> Sealed(t, i) && t.files[i] == s.files[i])
    && s.syncedNames <= t.syncedNames && (s.root.OnDisk? <==> t.root.OnDisk?) && s.syncs == t.syncs
  }

  lemma GrowsKeepsObjects(hash: Bytes -> Digest, s: Store, t: Store, raw: Bytes)
    requires ObjectsOk(hash, s) && Grows(s, t)
    ensures HasObject(hash, s, raw) ==> HasObject(hash, t, raw)
  {
  }

  lemma GrowsKeepsOthers(hash: Bytes -> Digest, s: Store, t: Store, w: Process)
    requires Inv(hash, s) && Grows(s, t) && t.readers == s.readers
    requires forall v :: v != w && v in t.writers ==>
               v in s.writers && t.writers[v] == s.writers[v] && (v in t.files <==> v in s.files)
               && (v in s.files ==> t.files[v] == s.files[v])
    requires s.syncedFiles <= t.syncedFiles
    ensures forall v :: v != w && v in t.writers ==> WriterOk(hash, t, v)
    ensures ReadersOk(t)
  {
    forall v | v != w && v in t.writers
      ensures WriterOk(hash, t, v)
    {
      assert WriterOk(hash, s, v);
      GrowsKeepsObjects(hash, s, t, s.writers[v].raw);
    }
    forall r | r in t.readers
      ensures ReaderOk(t, r)
    {
      assert ReaderOk(s, r) && Sealed(s, s.readers[r].file);
    }
  }

  lemma MoveKeepsInv(hash: Bytes -> Digest, s: Store, w: Process, phase: Phase)
    requires Inv(hash, s) && w in s.writers
    requires Sealed(s, w) ==> phase.SyncingDirectory? || phase.Cleaning? || phase.Finished?
    requires WriterOk(hash, Move(s, w, phase), w)
    ensures Inv(hash, Move(s, w, phase)) && Grows(s, Move(s, w, phase))
  {
    var t := Move(s, w, phase);
    assert Grows(s, t);
    GrowsKeepsOthers(hash, s, t, w);
    forall d | d in t.objects
      ensures Sealed(t, t.objects[d])
    {
      assert Sealed(s, s.objects[d]);
    }
  }

  lemma PutKeepsInv(hash: Bytes -> Digest, s: Store, w: Process, raw: Bytes)
    requires Inv(hash, s) && Enabled(s, Put(w, raw))
    ensures var t := Apply(hash, s, Put(w, raw)); Inv(hash, t) && Grows(s, t)
  {
    var t := Apply(hash, s, Put(w, raw));
    GrowsKeepsOthers(hash, s, t, w);
    ObjectsStaySealed(hash, s, t);
  }

  /** Objects stay sealed when no writer goes back to writing. */
  lemma ObjectsStaySealed(hash: Bytes -> Digest, s: Store, t: Store)
    requires ObjectsOk(hash, s) && Grows(s, t) && t.objects == s.objects && t.syncedNames == s.syncedNames
    ensures ObjectsOk(hash, t)
  {
    forall d | d in t.objects
      ensures Sealed(t, t.objects[d]) && hash(t.files[t.objects[d]]) == d
    {
      assert Sealed(s, s.objects[d]);
    }
  }

  lemma LookKeepsInv(hash: Bytes -> Digest, s: Store, w: Process)
    requires Inv(hash, s) && Enabled(s, Look(w))
    ensures var t := Apply(hash, s, Look(w)); Inv(hash, t) && Grows(s, t)
  {
    assert WriterOk(hash, s, w);
    match ObjectBytes(s, hash(s.writers[w].raw))
    case None => MoveKeepsInv(hash, s, w, Creating);
    case Some(existing) =>
      MoveKeepsInv(hash, s, w, Finished(if existing != s.writers[w].raw then Collision else Stored));
  }

  lemma CreateKeepsInv(hash: Bytes -> Digest, s: Store, w: Process)
    requires Inv(hash, s) && Enabled(s, Create(w))
    ensures var t := Apply(hash, s, Create(w)); Inv(hash, t) && Grows(s, t)
  {
    var t := Apply(hash, s, Create(w));
    assert WriterOk(hash, s, w);
    GrowsKeepsOthers(hash, s, t, w);
    ObjectsStaySealed(hash, s, t);
  }

  lemma WriteKeepsInv(hash: Bytes -> Digest, s: Store, w: Process, count: int)
    requires Inv(hash, s) && Enabled(s, Write(w, count))
    ensures var t := Apply(hash, s, Write(w, count)); Inv(hash, t) && Grows(s, t)
  {
    assert WriterOk(hash, s, w);
    if count <= 0 {
      MoveKeepsInv(hash, s, w, Cleaning(WriteFailed));
    } else {
      var t := Apply(hash, s, Write(w, count));
      assert !Sealed(s, w);
      var raw, n := s.writers[w].raw, s.writers[w].phase.written;
      assert raw[..n] + raw[n..n + count] == raw[..n + count];
      GrowsKeepsOthers(hash, s, t, w);
      ObjectsStaySealed(hash, s, t);
    }
  }

  lemma SyncFileKeepsInv(hash: Bytes -> Digest, s: Store, w: Process)
    requires Inv(hash, s) && Enabled(s, SyncFile(w))
    ensures var t := Apply(hash, s, SyncFile(w)); Inv(hash, t) && Grows(s, t)
  {
    var t := Apply(hash, s, SyncFile(w));
    assert WriterOk(hash, s, w);
    assert s.writers[w].raw[..|s.writers[w].raw|] == s.writers[w].raw;
    GrowsKeepsOthers(hash, s, t, w);
    ObjectsStaySealed(hash, s, t);
  }

  lemma LinkKeepsInv(hash: Bytes -> Digest, s: Store, w: Process)
    requires Inv(hash, s) && Enabled(s, Link(w))
    ensures var t := Apply(hash, s, Link(w)); Inv(hash, t) && Grows(s, t)
  {
    var raw := s.writers[w].raw;
    assert WriterOk(hash, s, w);
    match ObjectBytes(s, hash(raw))
    case Some(existing) =>
      MoveKeepsInv(hash, s, w, if existing != raw then Cleaning(Collision) else SyncingDirectory);
    case None =>
      var t := Apply(hash, s, Link(w));
      assert hash(raw) !in s.objects by {
        assert hash(raw) in s.objects ==> Sealed(s, s.objects[hash(raw)]);
      }
      GrowsKeepsOthers(hash, s, t, w);
      forall d | d in t.objects
        ensures Sealed(t, t.objects[d]) && hash(t.files[t.objects[d]]) == d
      {
        assert d in s.objects ==> Sealed(s, s.objects[d]);
      }
  }

  lemma SyncDirectoryKeepsInv(hash: Bytes -> Digest, s: Store, w: Process)
    requires Inv(hash, s) && Enabled(s, SyncDirectory(w))
    ensures var t := Apply(hash, s, SyncDirectory(w)); Inv(hash, t) && Grows(s, t)
  {
    var t := Apply(hash, s, SyncDirectory(w));
    assert WriterOk(hash, s, w);
    GrowsKeepsOthers(hash, s, t, w);
    forall d | d in t.objects
      ensures Sealed(t, t.objects[d])
    {
      assert Sealed(s, s.objects[d]);
    }
  }

  lemma UnlinkKeepsInv(hash: Bytes -> Digest, s: Store, w: Process)
    requires Inv(hash, s) && Enabled(s, Unlink(w))
    ensures var t := Apply(hash, s, Unlink(w)); Inv(hash, t) && Grows(s, t)
  {
    var result := s.writers[w].phase.pending;
    assert WriterOk(hash, s, w);
    MoveKeepsInv(hash, s, w, Finished(result));
    TemporariesAreFree(hash, Move(s, w, Finished(result)), Apply(hash, s, Unlink(w)));
  }

  /** The temporary names do not matter. */
  lemma TemporariesAreFree(hash: Bytes -> Digest, s: Store, t: Store)
    requires Inv(hash, s) && t == s.(temporaries := t.temporaries)
    ensures Inv(hash, t)
  {
    forall w | w in t.writers
      ensures WriterOk(hash, t, w)
    {
      assert WriterOk(hash, s, w);
    }
    forall r | r in t.readers
      ensures ReaderOk(t, r)
    {
      assert ReaderOk(s, r);
    }
    ObjectsStaySealed(hash, s, t);
  }

  lemma FailKeepsInv(hash: Bytes -> Digest, s: Store, w: Process)
    requires Inv(hash, s) && Enabled(s, Fail(w))
    ensures var t := Apply(hash, s, Fail(w)); Inv(hash, t) && Grows(s, t)
  {
    assert WriterOk(hash, s, w);
    MoveKeepsInv(hash, s, w, Apply(hash, s, Fail(w)).writers[w].phase);
  }

  lemma CrashKeepsInv(hash: Bytes -> Digest, s: Store, w: Process)
    requires Inv(hash, s) && Enabled(s, Crash(w))
    ensures var t := Apply(hash, s, Crash(w)); Inv(hash, t) && Grows(s, t)
  {
    var t := Apply(hash, s, Crash(w));
    GrowsKeepsOthers(hash, s, t, w);
    ObjectsStaySealed(hash, s, t);
  }

  lemma ReadersKeepInv(hash: Bytes -> Digest, s: Store, t: Store)
    requires Inv(hash, s) && t == s.(readers := t.readers) && ReadersOk(t)
    ensures Inv(hash, t) && Grows(s, t)
  {
    forall w | w in t.writers
      ensures WriterOk(hash, t, w)
    {
      assert WriterOk(hash, s, w);
    }
    ObjectsStaySealed(hash, s, t);
  }

  lemma OpenKeepsInv(hash: Bytes -> Digest, s: Store, r: Process, digest: Digest)
    requires Inv(hash, s) && Enabled(s, Open(r, digest))
    ensures var t := Apply(hash, s, Open(r, digest)); Inv(hash, t) && Grows(s, t)
  {
    var t := Apply(hash, s, Open(r, digest));
    forall q | q in t.readers
      ensures ReaderOk(t, q)
    {
      assert q != r ==> ReaderOk(s, q);
      assert Sealed(s, s.objects[digest]);
    }
    ReadersKeepInv(hash, s, t);
  }

  lemma TakeKeepsInv(hash: Bytes -> Digest, s: Store, r: Process, length: nat)
    requires Inv(hash, s) && Enabled(s, Take(r, length))
    ensures var t := Apply(hash, s, Take(r, length)); Inv(hash, t) && Grows(s, t)
  {
    var t := Apply(hash, s, Take(r, length));
    forall q | q in t.readers
      ensures ReaderOk(t, q)
    {
      assert ReaderOk(s, q);
    }
    ReadersKeepInv(hash, s, t);
  }

  lemma PowerLossKeepsInv(hash: Bytes -> Digest, s: Store, kept: bool, names: set<Digest>, torn: map<Process, Bytes>)
    requires Inv(hash, s) && Enabled(s, PowerLoss(kept, names, torn))
    ensures Inv(hash, DoPowerLoss(s, kept, names, torn))
  {
    var t := DoPowerLoss(s, kept, names, torn);
    forall d | d in t.objects
      ensures Sealed(t, t.objects[d]) && hash(t.files[t.objects[d]]) == d
    {
      assert Sealed(s, s.objects[d]);
    }
  }

  /** No step but power loss takes an object away or changes a finished file. */
  lemma StepKeepsInv(hash: Bytes -> Digest, s: Store, step: Step)
    requires Inv(hash, s) && Enabled(s, step)
    ensures Inv(hash, Apply(hash, s, step))
    ensures !step.PowerLoss? ==> Grows(s, Apply(hash, s, step))
  {
    match step
    case Put(w, raw) => PutKeepsInv(hash, s, w, raw);
    case Look(w) => LookKeepsInv(hash, s, w);
    case Create(w) => CreateKeepsInv(hash, s, w);
    case Write(w, count) => WriteKeepsInv(hash, s, w, count);
    case SyncFile(w) => SyncFileKeepsInv(hash, s, w);
    case Close(w) =>
      assert WriterOk(hash, s, w);
      MoveKeepsInv(hash, s, w, Linking);
    case Link(w) => LinkKeepsInv(hash, s, w);
    case SyncDirectory(w) => SyncDirectoryKeepsInv(hash, s, w);
    case Unlink(w) => UnlinkKeepsInv(hash, s, w);
    case Fail(w) => FailKeepsInv(hash, s, w);
    case Crash(w) => CrashKeepsInv(hash, s, w);
    case Open(r, digest) => OpenKeepsInv(hash, s, r, digest);
    case Take(r, length) => TakeKeepsInv(hash, s, r, length);
    case PowerLoss(kept, names, torn) => PowerLossKeepsInv(hash, s, kept, names, torn);
  }
}
