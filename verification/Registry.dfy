/** The backend version registry: protocol profiles, qualification records, and what makes them valid. */
module Registry {
  import opened JsonText
  import opened Options

  const MAX_PROFILES := 16
  const MAX_RECORDS := 128
  const MAX_QUALIFIED_PER_CELL := 2
  const MAX_CONCURRENT_TURNS := 64

  /** The format checks of single fields.  Each returns the stored form of a string, or nothing; `digest`,
      `sha1` and `integrity` store what they accept.  `canonicalDigest` is the `sha256:` reference of the
      canonical bytes of a value, if it has any. */
  datatype Checks = Checks(
    token: Str -> Option<Str>, version: Str -> Option<Str>, package: Str -> Option<Str>, path: Str -> Option<Str>,
    reference: Str -> Option<Str>, note: Str -> Option<Str>,
    digest: Str -> bool, sha1: Str -> bool, integrity: Str -> bool,
    canonicalDigest: Json -> Option<Str>)

  datatype Provider = Codex | Omp | Pi
  datatype Platform = Linux | Windows
  datatype Status = Candidate | Qualified | Quarantined
  datatype Adapter = CodexAppServer | JsonlRpc

  function ProviderText(p: Provider): Str {
    match p case Codex => Lit("codex") case Omp => Lit("omp") case Pi => Lit("pi")
  }

  function PlatformText(p: Platform): Str {
    match p case Linux => Lit("linux") case Windows => Lit("windows")
  }

  function StatusText(s: Status): Str {
    match s case Candidate => Lit("candidate") case Qualified => Lit("qualified") case Quarantined => Lit("quarantined")
  }

  function AdapterText(a: Adapter): Str {
    match a case CodexAppServer => Lit("codex_app_server") case JsonlRpc => Lit("jsonl_rpc")
  }

  datatype Profile = Profile(
    schemaVersion: int, profileId: Str, provider: Provider, adapter: Adapter, protocol: Str, packageName: Str,
    binName: Str, entrypoint: Str, runtime: Str, versionProbe: Str)

  datatype Record = Record(
    provider: Provider, platform: Platform, backendVersion: Str, protocolProfile: Str, launchProfileDigest: Str,
    packageShasum: Str, packageIntegrity: Str, status: Status, maxConcurrency: int, evidenceDigest: Option<Str>,
    publicationReceiptDigest: Option<Str>, reviewReference: Option<Str>, note: Str)
  {
    predicate EnabledForDispatch() {
      status == Qualified
    }
  }

  datatype BackendRegistry = BackendRegistry(schemaVersion: int, profiles: seq<Profile>, records: seq<Record>,
                                             registryDigest: Str)

  // ---- Construction, with the checks of `__post_init__` ----

  function Checked(check: Str -> Option<Str>, v: Json): Option<Str> {
    if v.String? then check(v.s) else None
  }

  function Accepted(check: Str -> bool, v: Json): Option<Str> {
    if v.String? && check(v.s) then Some(v.s) else None
  }

  /** An optional field: `null` is absent, anything else must pass the check. */
  function Maybe(check: Json -> Option<Str>, v: Json): Option<Option<Str>> {
    if v.Null? then Some(None)
    else if check(v).Some? then Some(Some(check(v).value)) else None
  }

  predicate IsOne(v: Json) {
    v == Int(1)
  }

  function MakeProfile(c: Checks, schemaVersion: Json, profileId: Json, provider: Provider, adapter: Adapter,
                       protocol: Json, packageName: Json, binName: Json, entrypoint: Json, runtime: Json,
                       versionProbe: Json): Option<Profile>
  {
    var id, proto, package := Checked(c.token, profileId), Checked(c.token, protocol), Checked(c.package, packageName);
    var bin, entry, run := Checked(c.token, binName), Checked(c.path, entrypoint), Checked(c.token, runtime);
    if IsOne(schemaVersion) && id.Some? && proto.Some? && package.Some? && bin.Some? && entry.Some?
       && (run == Some(Lit("bun")) || run == Some(Lit("node"))) && versionProbe == String(Lit("npm-package-json-v1"))
    then Some(Profile(1, id.value, provider, adapter, proto.value, package.value, bin.value, entry.value, run.value,
                      versionProbe.s))
    else None
  }

  /** The rules that tie the status of a record to its other fields. */
  predicate StatusRules(r: Record) {
    match r.status
    case Qualified =>
      r.maxConcurrency >= 1 && r.evidenceDigest.Some? && r.publicationReceiptDigest.Some? && r.reviewReference.Some?
    case Quarantined => r.maxConcurrency == 0 && r.reviewReference.Some?
    case Candidate => r.maxConcurrency == 0
  }

  function MakeRecord(c: Checks, provider: Provider, platform: Platform, backendVersion: Json, protocolProfile: Json,
                      launchProfileDigest: Json, packageShasum: Json, packageIntegrity: Json, status: Status,
                      maxConcurrency: Json, evidenceDigest: Json, publicationReceiptDigest: Json, reviewReference: Json,
                      note: Json): Option<Record>
  {
    var digest := (v: Json) => Accepted(c.digest, v);
    var version, profile := Checked(c.version, backendVersion), Checked(c.token, protocolProfile);
    var launch, shasum := digest(launchProfileDigest), Accepted(c.sha1, packageShasum);
    var integrity, text := Accepted(c.integrity, packageIntegrity), Checked(c.note, note);
    var evidence, receipt := Maybe(digest, evidenceDigest), Maybe(digest, publicationReceiptDigest);
    var review := Maybe((v: Json) => Checked(c.reference, v), reviewReference);
    if version.Some? && profile.Some? && launch.Some? && shasum.Some? && integrity.Some? && text.Some?
       && evidence.Some? && receipt.Some? && review.Some?
       && maxConcurrency.Int? && 0 <= maxConcurrency.n <= MAX_CONCURRENT_TURNS
    then
      var r := Record(provider, platform, version.value, profile.value, launch.value, shasum.value, integrity.value,
                      status,
                      maxConcurrency.n, evidence.value, receipt.value, review.value, text.value);
      if StatusRules(r) then Some(r) else None
    else None
  }

  // ---- The registry ----

  /** Strictly increasing: in canonical order and unique. */
  predicate Increasing(keys: seq<Str>) {
    forall i, j :: 0 <= i < j < |keys| ==> Leq(keys[i], keys[j]) && keys[i] != keys[j]
  }

  /** The order of record identities: by provider, then platform, then version. */
  predicate Precedes(a: Record, b: Record) {
    var pa, pb, fa, fb := ProviderText(a.provider), ProviderText(b.provider), PlatformText(a.platform),
        PlatformText(b.platform);
    if pa != pb then Leq(pa, pb)
    else if fa != fb then Leq(fa, fb)
    else Leq(a.backendVersion, b.backendVersion) && a.backendVersion != b.backendVersion
  }

  function QualifiedIn(records: seq<Record>, provider: Provider, platform: Platform): nat {
    if records == [] then 0
    else
      var r := records[0];
      (if r.status == Qualified && r.provider == provider && r.platform == platform then 1 else 0)
      + QualifiedIn(records[1..], provider, platform)
  }

  predicate ProfilesFit(profiles: seq<Profile>) {
    && 1 <= |profiles| <= MAX_PROFILES
    && Increasing(seq(|profiles|, i requires 0 <= i < |profiles| => profiles[i].profileId))
    && (forall i, j :: 0 <= i < j < |profiles| ==>
          profiles[i].provider != profiles[j].provider || profiles[i].protocol != profiles[j].protocol)
  }

  /** The profile that the record names is one of its own provider. */
  predicate NamesProfile(profiles: seq<Profile>, r: Record) {
    exists j :: 0 <= j < |profiles| && profiles[j].profileId == r.protocolProfile && profiles[j].provider == r.provider
  }

  predicate RecordsFit(profiles: seq<Profile>, records: seq<Record>) {
    && 1 <= |records| <= MAX_RECORDS
    && (forall i, j :: 0 <= i < j < |records| ==> Precedes(records[i], records[j]))
    && (forall i :: 0 <= i < |records| ==> NamesProfile(profiles, records[i]))
    && (forall provider: Provider, platform: Platform ::
        QualifiedIn(records, provider, platform) <= MAX_QUALIFIED_PER_CELL)
  }

  function MakeRegistry(c: Checks, schemaVersion: Json, profiles: seq<Profile>, records: seq<Record>,
                        registryDigest: Json)
    : Option<BackendRegistry>
  {
    var digest := Accepted(c.digest, registryDigest);
    if IsOne(schemaVersion) && ProfilesFit(profiles) && RecordsFit(profiles, records) && digest.Some?
       && c.canonicalDigest(BodyPrimitive(1, profiles, records)) == digest
    then Some(BackendRegistry(1, profiles, records, digest.value))
    else None
  }

  // ---- The keys of the primitive form ----

  /** Length, first and last character tell the keys of an object apart. */
  function Shape(s: string): (nat, char, char)
    requires s != ""
  {
    (|s|, s[0], s[|s| - 1])
  }

  lemma LitIsInjective(a: string, b: string)
    ensures Lit(a) == Lit(b) ==> a == b
  {
    if Lit(a) == Lit(b) {
      forall i | 0 <= i < |a|
        ensures a[i] == b[i]
      {
        assert Lit(a)[i] == a[i] as int && Lit(b)[i] == b[i] as int;
      }
    }
  }

  // ---- Objects with given keys ----

  ghost predicate DistinctTexts<K>(keys: set<K>, text: K -> Str) {
    forall k, l :: k in keys && l in keys && text(k) == text(l) ==> k == l
  }

  function Texts<K>(keys: set<K>, text: K -> Str): set<Str> {
    set k | k in keys :: text(k)
  }

  /** The dictionary with exactly these keys. */
  function ObjectOf<K>(keys: set<K>, text: K -> Str, value: K -> Json): (v: Json)
    requires DistinctTexts(keys, text)
    ensures v.Object? && v.members.Keys == Texts(keys, text)
    ensures forall k :: k in keys ==> text(k) in v.members && v.members[text(k)] == value(k)
  {
    Object(map k | k in keys :: text(k) := value(k))
  }

  /** The keys of a profile. */
  datatype ProfileKey =
    | AdapterKey | BinNameKey | EntrypointKey | PackageNameKey | ProfileIdKey | ProtocolKey
    | ProfileProviderKey | RuntimeKey | ProfileVersionKey | VersionProbeKey

  function ProfileName(k: ProfileKey): string {
    match k
    case AdapterKey => "adapter"
    case BinNameKey => "binName"
    case EntrypointKey => "entrypoint"
    case PackageNameKey => "packageName"
    case ProfileIdKey => "profileId"
    case ProtocolKey => "protocol"
    case ProfileProviderKey => "provider"
    case RuntimeKey => "runtime"
    case ProfileVersionKey => "schemaVersion"
    case VersionProbeKey => "versionProbe"
  }

  function ProfileText(k: ProfileKey): Str {
    Lit(ProfileName(k))
  }

  const PROFILE_KEYS: set<ProfileKey> := {
     AdapterKey, BinNameKey, EntrypointKey, PackageNameKey, ProfileIdKey, ProtocolKey,
     ProfileProviderKey, RuntimeKey, ProfileVersionKey, VersionProbeKey}

  lemma AllProfileKeys(k: ProfileKey)
    ensures k in PROFILE_KEYS
  {
    match k
    case AdapterKey =>
    case BinNameKey =>
    case EntrypointKey =>
    case PackageNameKey =>
    case ProfileIdKey =>
    case ProtocolKey =>
    case ProfileProviderKey =>
    case RuntimeKey =>
    case ProfileVersionKey =>
    case VersionProbeKey =>
  }

  function ProfileShape(k: ProfileKey): (nat, char, char) {
    match k
    case AdapterKey => (7, 'a', 'r')
    case BinNameKey => (7, 'b', 'e')
    case EntrypointKey => (10, 'e', 't')
    case PackageNameKey => (11, 'p', 'e')
    case ProfileIdKey => (9, 'p', 'd')
    case ProtocolKey => (8, 'p', 'l')
    case ProfileProviderKey => (8, 'p', 'r')
    case RuntimeKey => (7, 'r', 'e')
    case ProfileVersionKey => (13, 's', 'n')
    case VersionProbeKey => (12, 'v', 'e')
  }

  lemma ProfileNameHasShape(k: ProfileKey)
    ensures ProfileName(k) != "" && Shape(ProfileName(k)) == ProfileShape(k)
  {
  }

  lemma ProfileTextsDiffer(k: ProfileKey, l: ProfileKey)
    requires k != l
    ensures ProfileText(k) != ProfileText(l)
  {
    ProfileNameHasShape(k);
    ProfileNameHasShape(l);
    assert ProfileShape(k) != ProfileShape(l);
    LitIsInjective(ProfileName(k), ProfileName(l));
  }

  lemma ProfileTextsAreDistinct()
    ensures DistinctTexts(PROFILE_KEYS, ProfileText)
  {
    forall k: ProfileKey, l: ProfileKey | k != l
      ensures ProfileText(k) != ProfileText(l)
    {
      ProfileTextsDiffer(k, l);
    }
  }

  function ProfileObject(value: ProfileKey -> Json): Json {
    ProfileTextsAreDistinct();
    ObjectOf(PROFILE_KEYS, ProfileText, value)
  }

  /** The keys of a record. */
  datatype RecordKey =
    | BackendVersionKey | EnabledKey | EvidenceDigestKey | LaunchProfileDigestKey
    | MaxConcurrencyKey | NoteKey | NpmIntegrityKey | NpmShasumKey | PlatformKey
    | ProtocolProfileKey | RecordProviderKey | PublicationReceiptKey | ReviewReferenceKey
    | StatusKey

  function RecordName(k: RecordKey): string {
    match k
    case BackendVersionKey => "backendVersion"
    case EnabledKey => "enabledForDispatch"
    case EvidenceDigestKey => "evidenceDigest"
    case LaunchProfileDigestKey => "launchProfileDigest"
    case MaxConcurrencyKey => "maxConcurrency"
    case NoteKey => "note"
    case NpmIntegrityKey => "npmIntegrity"
    case NpmShasumKey => "npmShasum"
    case PlatformKey => "platform"
    case ProtocolProfileKey => "protocolProfile"
    case RecordProviderKey => "provider"
    case PublicationReceiptKey => "publicationReceiptDigest"
    case ReviewReferenceKey => "reviewReference"
    case StatusKey => "status"
  }

  function RecordText(k: RecordKey): Str {
    Lit(RecordName(k))
  }

  const RECORD_KEYS: set<RecordKey> := {
     BackendVersionKey, EnabledKey, EvidenceDigestKey, LaunchProfileDigestKey,
     MaxConcurrencyKey, NoteKey, NpmIntegrityKey, NpmShasumKey, PlatformKey,
     ProtocolProfileKey, RecordProviderKey, PublicationReceiptKey, ReviewReferenceKey,
     StatusKey}

  lemma AllRecordKeys(k: RecordKey)
    ensures k in RECORD_KEYS
  {
    match k
    case BackendVersionKey =>
    case EnabledKey =>
    case EvidenceDigestKey =>
    case LaunchProfileDigestKey =>
    case MaxConcurrencyKey =>
    case NoteKey =>
    case NpmIntegrityKey =>
    case NpmShasumKey =>
    case PlatformKey =>
    case ProtocolProfileKey =>
    case RecordProviderKey =>
    case PublicationReceiptKey =>
    case ReviewReferenceKey =>
    case StatusKey =>
  }

  function RecordShape(k: RecordKey): (nat, char, char) {
    match k
    case BackendVersionKey => (14, 'b', 'n')
    case EnabledKey => (18, 'e', 'h')
    case EvidenceDigestKey => (14, 'e', 't')
    case LaunchProfileDigestKey => (19, 'l', 't')
    case MaxConcurrencyKey => (14, 'm', 'y')
    case NoteKey => (4, 'n', 'e')
    case NpmIntegrityKey => (12, 'n', 'y')
    case NpmShasumKey => (9, 'n', 'm')
    case PlatformKey => (8, 'p', 'm')
    case ProtocolProfileKey => (15, 'p', 'e')
    case RecordProviderKey => (8, 'p', 'r')
    case PublicationReceiptKey => (24, 'p', 't')
    case ReviewReferenceKey => (15, 'r', 'e')
    case StatusKey => (6, 's', 's')
  }

  lemma RecordNameHasShape(k: RecordKey)
    ensures RecordName(k) != "" && Shape(RecordName(k)) == RecordShape(k)
  {
  }

  lemma RecordTextsDiffer(k: RecordKey, l: RecordKey)
    requires k != l
    ensures RecordText(k) != RecordText(l)
  {
    RecordNameHasShape(k);
    RecordNameHasShape(l);
    assert RecordShape(k) != RecordShape(l);
    LitIsInjective(RecordName(k), RecordName(l));
  }

  lemma RecordTextsAreDistinct()
    ensures DistinctTexts(RECORD_KEYS, RecordText)
  {
    forall k: RecordKey, l: RecordKey | k != l
      ensures RecordText(k) != RecordText(l)
    {
      RecordTextsDiffer(k, l);
    }
  }

  function RecordObject(value: RecordKey -> Json): Json {
    RecordTextsAreDistinct();
    ObjectOf(RECORD_KEYS, RecordText, value)
  }

  /** The keys of the registry. */
  datatype RegistryKey =
    | ProfilesKey | RecordsKey | RegistryVersionKey | RegistryDigestKey

  function RegistryName(k: RegistryKey): string {
    match k
    case ProfilesKey => "profiles"
    case RecordsKey => "records"
    case RegistryVersionKey => "schemaVersion"
    case RegistryDigestKey => "registryDigest"
  }

  function RegistryText(k: RegistryKey): Str {
    Lit(RegistryName(k))
  }

  const REGISTRY_KEYS: set<RegistryKey> := {
     ProfilesKey, RecordsKey, RegistryVersionKey, RegistryDigestKey}

  lemma AllRegistryKeys(k: RegistryKey)
    ensures k in REGISTRY_KEYS
  {
    match k
    case ProfilesKey =>
    case RecordsKey =>
    case RegistryVersionKey =>
    case RegistryDigestKey =>
  }

  function RegistryShape(k: RegistryKey): (nat, char, char) {
    match k
    case ProfilesKey => (8, 'p', 's')
    case RecordsKey => (7, 'r', 's')
    case RegistryVersionKey => (13, 's', 'n')
    case RegistryDigestKey => (14, 'r', 't')
  }

  lemma RegistryNameHasShape(k: RegistryKey)
    ensures RegistryName(k) != "" && Shape(RegistryName(k)) == RegistryShape(k)
  {
  }

  lemma RegistryTextsDiffer(k: RegistryKey, l: RegistryKey)
    requires k != l
    ensures RegistryText(k) != RegistryText(l)
  {
    RegistryNameHasShape(k);
    RegistryNameHasShape(l);
    assert RegistryShape(k) != RegistryShape(l);
    LitIsInjective(RegistryName(k), RegistryName(l));
  }

  lemma RegistryTextsAreDistinct()
    ensures DistinctTexts(REGISTRY_KEYS, RegistryText)
  {
    forall k: RegistryKey, l: RegistryKey | k != l
      ensures RegistryText(k) != RegistryText(l)
    {
      RegistryTextsDiffer(k, l);
    }
  }

  function RegistryObject(value: RegistryKey -> Json): Json {
    RegistryTextsAreDistinct();
    ObjectOf(REGISTRY_KEYS, RegistryText, value)
  }

  // ---- The primitive form ----

  function OptionalText(s: Option<Str>): Json {
    match s case None => Null case Some(text) => String(text)
  }

  function ProfileValue(p: Profile, k: ProfileKey): Json {
    match k
    case AdapterKey => String(AdapterText(p.adapter))
    case BinNameKey => String(p.binName)
    case EntrypointKey => String(p.entrypoint)
    case PackageNameKey => String(p.packageName)
    case ProfileIdKey => String(p.profileId)
    case ProtocolKey => String(p.protocol)
    case ProfileProviderKey => String(ProviderText(p.provider))
    case RuntimeKey => String(p.runtime)
    case ProfileVersionKey => Int(p.schemaVersion)
    case VersionProbeKey => String(p.versionProbe)
  }

  function RecordValue(r: Record, k: RecordKey): Json {
    match k
    case BackendVersionKey => String(r.backendVersion)
    case EnabledKey => Bool(r.EnabledForDispatch())
    case EvidenceDigestKey => OptionalText(r.evidenceDigest)
    case LaunchProfileDigestKey => String(r.launchProfileDigest)
    case MaxConcurrencyKey => Int(r.maxConcurrency)
    case NoteKey => String(r.note)
    case NpmIntegrityKey => String(r.packageIntegrity)
    case NpmShasumKey => String(r.packageShasum)
    case PlatformKey => String(PlatformText(r.platform))
    case ProtocolProfileKey => String(r.protocolProfile)
    case RecordProviderKey => String(ProviderText(r.provider))
    case PublicationReceiptKey => OptionalText(r.publicationReceiptDigest)
    case ReviewReferenceKey => OptionalText(r.reviewReference)
    case StatusKey => String(StatusText(r.status))
  }

  function ProfilePrimitive(p: Profile): Json {
    ProfileObject(k => ProfileValue(p, k))
  }

  function RecordPrimitive(r: Record): Json {
    RecordObject(k => RecordValue(r, k))
  }

  function ProfilePrimitives(ps: seq<Profile>): (items: seq<Json>)
    ensures |items| == |ps| && forall i :: 0 <= i < |ps| ==> items[i] == ProfilePrimitive(ps[i])
  {
    seq(|ps|, i requires 0 <= i < |ps| => ProfilePrimitive(ps[i]))
  }

  function RecordPrimitives(rs: seq<Record>): (items: seq<Json>)
    ensures |items| == |rs| && forall i :: 0 <= i < |rs| ==> items[i] == RecordPrimitive(rs[i])
  {
    seq(|rs|, i requires 0 <= i < |rs| => RecordPrimitive(rs[i]))
  }

  function RegistryValue(schemaVersion: int, profiles: seq<Json>, records: seq<Json>, digest: Str,
                         k: RegistryKey): Json {
    match k
    case ProfilesKey => Array(profiles)
    case RecordsKey => Array(records)
    case RegistryVersionKey => Int(schemaVersion)
    case RegistryDigestKey => String(digest)
  }

  function RegistryPrimitive(schemaVersion: int, profiles: seq<Json>, records: seq<Json>, digest: Str): Json {
    RegistryObject(k => RegistryValue(schemaVersion, profiles, records, digest, k))
  }

  /** The primitive form without its digest, which is what the digest is taken of. */
  function BodyPrimitive(schemaVersion: int, profiles: seq<Profile>, records: seq<Record>): Json {
    var whole := RegistryPrimitive(schemaVersion, ProfilePrimitives(profiles), RecordPrimitives(records), []);
    Object(whole.members - {RegistryText(RegistryDigestKey)})
  }

  function ToPrimitive(r: BackendRegistry): Json {
    RegistryPrimitive(r.schemaVersion, ProfilePrimitives(r.profiles), RecordPrimitives(r.records), r.registryDigest)
  }
}
