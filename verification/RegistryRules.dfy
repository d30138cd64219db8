/** The rules of a registry, its primitive form and its digest, written out. */
module RegistryRules {
  import opened JsonText
  import opened JsonRoundTrip
  import opened Options
  import opened Registry
  import opened RegistryDecoder
  import opened RegistryBytes
  import opened Normalize
  import opened CanonicalForm

  // ---- Rules of one profile and one record ----

  predicate ProfileRules(c: Checks, p: Profile) {
    && p.schemaVersion == 1 && p.versionProbe == Lit("npm-package-json-v1")
    && c.token(p.profileId) == Some(p.profileId) && c.token(p.protocol) == Some(p.protocol)
    && c.package(p.packageName) == Some(p.packageName) && c.token(p.binName) == Some(p.binName)
    && c.path(p.entrypoint) == Some(p.entrypoint)
    && c.token(p.runtime) == Some(p.runtime) && (p.runtime == Lit("bun") || p.runtime == Lit("node"))
  }

  lemma ProfileIsValidExactly(c: Checks, p: Profile)
    ensures ValidProfile(c, p) <==> ProfileRules(c, p)
  {
  }

  predicate RecordRules(c: Checks, r: Record) {
    && c.version(r.backendVersion) == Some(r.backendVersion) && c.token(r.protocolProfile) == Some(r.protocolProfile)
    && c.digest(r.launchProfileDigest) && c.sha1(r.packageShasum) && c.integrity(r.packageIntegrity)
    && c.note(r.note) == Some(r.note) && 0 <= r.maxConcurrency <= 64
    && (r.evidenceDigest.Some? ==> c.digest(r.evidenceDigest.value))
    && (r.publicationReceiptDigest.Some? ==> c.digest(r.publicationReceiptDigest.value))
    && (r.reviewReference.Some? ==> c.reference(r.reviewReference.value) == r.reviewReference)
    && (r.status == Qualified ==>
          r.maxConcurrency >= 1 && r.evidenceDigest != None && r.publicationReceiptDigest != None
          && r.reviewReference != None)
    && (r.status == Quarantined ==> r.maxConcurrency == 0 && r.reviewReference != None)
    && (r.status == Candidate ==> r.maxConcurrency == 0)
  }

  lemma RecordIsValidExactly(c: Checks, r: Record)
    ensures ValidRecord(c, r) <==> RecordRules(c, r)
  {
  }

  // ---- Rules of the registry ----

  /** Providers in the order of their names, and platforms. */
  function ProviderRank(p: Provider): nat {
    match p case Codex => 0 case Omp => 1 case Pi => 2
  }

  function PlatformRank(p: Platform): nat {
    match p case Linux => 0 case Windows => 1
  }

  /** By provider, then by platform, then by version. */
  ghost predicate RecordBefore(a: Record, b: Record) {
    || ProviderRank(a.provider) < ProviderRank(b.provider)
    || (a.provider == b.provider && PlatformRank(a.platform) < PlatformRank(b.platform))
    || (a.provider == b.provider && a.platform == b.platform && Before(a.backendVersion, b.backendVersion))
  }

  lemma FirstCharactersDecide(a: string, b: string)
    requires a != "" && b != "" && a[0] < b[0]
    ensures Leq(Lit(a), Lit(b)) && !Leq(Lit(b), Lit(a)) && Lit(a) != Lit(b)
  {
    assert Lit(a)[0] == a[0] as int && Lit(b)[0] == b[0] as int;
  }

  lemma NamesAreRanked(p: Provider, q: Provider, f: Platform, g: Platform)
    ensures ProviderText(p) == ProviderText(q) <==> p == q
    ensures p != q ==> (Leq(ProviderText(p), ProviderText(q)) <==> ProviderRank(p) < ProviderRank(q))
    ensures PlatformText(f) == PlatformText(g) <==> f == g
    ensures f != g ==> (Leq(PlatformText(f), PlatformText(g)) <==> PlatformRank(f) < PlatformRank(g))
  {
    FirstCharactersDecide("codex", "omp");
    FirstCharactersDecide("codex", "pi");
    FirstCharactersDecide("omp", "pi");
    FirstCharactersDecide("linux", "windows");
  }

  lemma PrecedesIsBefore(a: Record, b: Record)
    ensures Precedes(a, b) <==> RecordBefore(a, b)
  {
    NamesAreRanked(a.provider, b.provider, a.platform, b.platform);
    BeforeIsStrict(a.backendVersion, b.backendVersion);
  }

  predicate Qualifies(r: Record, provider: Provider, platform: Platform) {
    r.status == Qualified && r.provider == provider && r.platform == platform
  }

  lemma {:induction false} QualifiedCounts(records: seq<Record>, n: nat, i: nat, provider: Provider, platform: Platform)
    requires n <= i < |records| && Qualifies(records[i], provider, platform)
    ensures QualifiedIn(records[n..], provider, platform) >= 1 + QualifiedIn(records[i + 1..], provider, platform)
    decreases i - n
  {
    assert records[n..][1..] == records[n + 1..];
    if n < i {
      QualifiedCounts(records, n + 1, i, provider, platform);
    }
  }

  lemma {:induction false} FirstQualified(records: seq<Record>, n: nat, provider: Provider, platform: Platform)
    returns (i: nat)
    requires n <= |records| && QualifiedIn(records[n..], provider, platform) >= 1
    ensures n <= i < |records| && Qualifies(records[i], provider, platform)
    ensures QualifiedIn(records[n..], provider, platform) == 1 + QualifiedIn(records[i + 1..], provider, platform)
    decreases |records| - n
  {
    assert records[n..][1..] == records[n + 1..];
    if Qualifies(records[n], provider, platform) {
      i := n;
    } else {
      i := FirstQualified(records, n + 1, provider, platform);
    }
  }

  /** Three qualified records of one provider and one platform. */
  predicate SameCell(a: Record, b: Record, c: Record) {
    && a.status == Qualified && b.status == Qualified && c.status == Qualified
    && a.provider == b.provider == c.provider && a.platform == b.platform == c.platform
  }

  lemma ThreeAreTooMany(records: seq<Record>, i: nat, j: nat, k: nat)
    requires i < j < k < |records| && SameCell(records[i], records[j], records[k])
    ensures QualifiedIn(records, records[i].provider, records[i].platform) > 2
  {
    var provider, platform := records[i].provider, records[i].platform;
    assert records[0..] == records;
    QualifiedCounts(records, 0, i, provider, platform);
    QualifiedCounts(records, i + 1, j, provider, platform);
    QualifiedCounts(records, j + 1, k, provider, platform);
  }

  lemma TooManyHaveThree(records: seq<Record>, provider: Provider, platform: Platform) returns (i: nat, j: nat, k: nat)
    requires QualifiedIn(records, provider, platform) > 2
    ensures i < j < k < |records| && SameCell(records[i], records[j], records[k])
  {
    assert records[0..] == records;
    i := FirstQualified(records, 0, provider, platform);
    j := FirstQualified(records, i + 1, provider, platform);
    k := FirstQualified(records, j + 1, provider, platform);
  }

  ghost predicate CellsFit(records: seq<Record>) {
    forall i, j, k :: 0 <= i < j < k < |records| ==> !SameCell(records[i], records[j], records[k])
  }

  lemma AtMostTwo(records: seq<Record>)
    ensures (forall provider: Provider, platform: Platform :: QualifiedIn(records, provider, platform) <= 2) <==>
            CellsFit(records)
  {
    if i, j, k :| 0 <= i < j < k < |records| && SameCell(records[i], records[j], records[k]) {
      ThreeAreTooMany(records, i, j, k);
    }
    if provider: Provider, platform: Platform :| QualifiedIn(records, provider, platform) > 2 {
      var i, j, k := TooManyHaveThree(records, provider, platform);
      assert !CellsFit(records);
    }
  }

  /** The primitive form without its digest. */
  function Body(r: BackendRegistry): Json {
    Object(ToPrimitive(r).members - {Lit("registryDigest")})
  }

  ghost predicate ProfileListRules(profiles: seq<Profile>) {
    && 1 <= |profiles| <= 16
    && (forall i, j :: 0 <= i < j < |profiles| ==> Before(profiles[i].profileId, profiles[j].profileId))
    && (forall i, j :: 0 <= i < j < |profiles| ==>
          !(profiles[i].provider == profiles[j].provider && profiles[i].protocol == profiles[j].protocol))
  }

  /** The record names a profile of its own provider. */
  ghost predicate OwnProfile(profiles: seq<Profile>, r: Record) {
    exists p :: p in profiles && p.profileId == r.protocolProfile && p.provider == r.provider
  }

  ghost predicate RecordListRules(profiles: seq<Profile>, records: seq<Record>) {
    && 1 <= |records| <= 128
    && (forall i, j :: 0 <= i < j < |records| ==> RecordBefore(records[i], records[j]))
    && (forall r :: r in records ==> OwnProfile(profiles, r))
    && CellsFit(records)
  }

  ghost predicate RegistryRules(c: Checks, r: BackendRegistry) {
    && r.schemaVersion == 1
    && (forall p :: p in r.profiles ==> ProfileRules(c, p)) && (forall s :: s in r.records ==> RecordRules(c, s))
    && ProfileListRules(r.profiles) && RecordListRules(r.profiles, r.records)
    && c.digest(r.registryDigest) && c.canonicalDigest(Body(r)) == Some(r.registryDigest)
  }

  lemma ProfilesFitExactly(profiles: seq<Profile>)
    ensures ProfilesFit(profiles) <==> ProfileListRules(profiles)
  {
    var keys := seq(|profiles|, i requires 0 <= i < |profiles| => profiles[i].profileId);
    forall i, j | 0 <= i < j < |profiles|
      ensures Leq(keys[i], keys[j]) && keys[i] != keys[j] <==> Before(profiles[i].profileId, profiles[j].profileId)
    {
      BeforeIsStrict(keys[i], keys[j]);
    }
    assert Increasing(keys) <==>
           forall i, j :: 0 <= i < j < |profiles| ==> Before(profiles[i].profileId, profiles[j].profileId);
  }

  lemma RecordsFitExactly(profiles: seq<Profile>, records: seq<Record>)
    ensures RecordsFit(profiles, records) <==> RecordListRules(profiles, records)
  {
    forall i, j | 0 <= i < j < |records|
      ensures Precedes(records[i], records[j]) <==> RecordBefore(records[i], records[j])
    {
      PrecedesIsBefore(records[i], records[j]);
    }
    AtMostTwo(records);
    forall i | 0 <= i < |records|
      ensures NamesProfile(profiles, records[i]) <==> OwnProfile(profiles, records[i])
    {
      NamedProfile(profiles, records[i]);
    }
    if RecordsFit(profiles, records) {
      assert forall i, j :: 0 <= i < j < |records| ==> RecordBefore(records[i], records[j]);
      assert forall r :: r in records ==> OwnProfile(profiles, r);
      assert CellsFit(records);
    }
    if RecordListRules(profiles, records) {
      assert forall i, j :: 0 <= i < j < |records| ==> Precedes(records[i], records[j]);
      assert forall i :: 0 <= i < |records| ==> NamesProfile(profiles, records[i]);
      assert forall provider: Provider, platform: Platform :: QualifiedIn(records, provider, platform) <= 2;
    }
  }

  lemma NamedProfile(profiles: seq<Profile>, r: Record)
    ensures NamesProfile(profiles, r) <==> OwnProfile(profiles, r)
  {
    if p :| p in profiles && p.profileId == r.protocolProfile && p.provider == r.provider {
      var j :| 0 <= j < |profiles| && profiles[j] == p;
    }
  }

  // ---- What is valid ----

  lemma PartsAreValid(c: Checks, r: BackendRegistry)
    ensures (forall i :: 0 <= i < |r.profiles| ==> ValidProfile(c, r.profiles[i])) <==>
            (forall p :: p in r.profiles ==> ProfileRules(c, p))
    ensures (forall i :: 0 <= i < |r.records| ==> ValidRecord(c, r.records[i])) <==>
            (forall s :: s in r.records ==> RecordRules(c, s))
  {
    forall i | 0 <= i < |r.profiles|
      ensures ValidProfile(c, r.profiles[i]) <==> ProfileRules(c, r.profiles[i])
    {
      ProfileIsValidExactly(c, r.profiles[i]);
    }
    forall i | 0 <= i < |r.records|
      ensures ValidRecord(c, r.records[i]) <==> RecordRules(c, r.records[i])
    {
      RecordIsValidExactly(c, r.records[i]);
    }
  }

  lemma RegistryEntry(version: int, profiles: seq<Json>, records: seq<Json>, digest: Str, k: RegistryKey)
    ensures var m := RegistryPrimitive(version, profiles, records, digest).members;
      RegistryText(k) in m && m[RegistryText(k)] == RegistryValue(version, profiles, records, digest, k)
  {
    AllRegistryKeys(k);
    RegistryTextsAreDistinct();
  }

  lemma RegistryEntryOf(version: int, profiles: seq<Json>, records: seq<Json>, digest: Str, t: Str)
    returns (k: RegistryKey)
    requires t in RegistryPrimitive(version, profiles, records, digest).members
    ensures RegistryText(k) == t
  {
    RegistryTextsAreDistinct();
    k :| k in REGISTRY_KEYS && RegistryText(k) == t;
  }

  lemma EntryWithoutDigest(profiles: seq<Json>, records: seq<Json>, a: Str, b: Str, t: Str)
    requires t != Lit("registryDigest") && t in RegistryPrimitive(1, profiles, records, a).members
    ensures var m := RegistryPrimitive(1, profiles, records, b).members;
      t in m && m[t] == RegistryPrimitive(1, profiles, records, a).members[t]
  {
    var k := RegistryEntryOf(1, profiles, records, a, t);
    RegistryEntry(1, profiles, records, a, k);
    RegistryEntry(1, profiles, records, b, k);
  }

  lemma WholeWithoutDigest(profiles: seq<Json>, records: seq<Json>, a: Str, b: Str)
    ensures RegistryPrimitive(1, profiles, records, a).members - {Lit("registryDigest")} ==
            RegistryPrimitive(1, profiles, records, b).members - {Lit("registryDigest")}
  {
    var v, w := RegistryPrimitive(1, profiles, records, a).members, RegistryPrimitive(1, profiles, records, b).members;
    forall t | t != Lit("registryDigest")
      ensures (t in v <==> t in w) && (t in v ==> v[t] == w[t])
    {
      if t in v {
        EntryWithoutDigest(profiles, records, a, b, t);
      } else if t in w {
        EntryWithoutDigest(profiles, records, b, a, t);
      }
    }
  }

  lemma BodyIsDigested(r: BackendRegistry)
    requires r.schemaVersion == 1
    ensures BodyPrimitive(1, r.profiles, r.records) == Body(r)
  {
    WholeWithoutDigest(ProfilePrimitives(r.profiles), RecordPrimitives(r.records), [], r.registryDigest);
  }

  lemma MadeExactly(c: Checks, r: BackendRegistry)
    ensures MakeRegistry(c, Int(r.schemaVersion), r.profiles, r.records, String(r.registryDigest)) == Some(r) <==>
            && r.schemaVersion == 1 && ProfilesFit(r.profiles) && RecordsFit(r.profiles, r.records)
            && c.digest(r.registryDigest)
            && c.canonicalDigest(BodyPrimitive(1, r.profiles, r.records)) == Some(r.registryDigest)
  {
  }

  lemma ValidFollowsRules(c: Checks, r: BackendRegistry)
    requires ValidRegistry(c, r)
    ensures RegistryRules(c, r)
  {
    PartsAreValid(c, r);
    MadeExactly(c, r);
    ProfilesFitExactly(r.profiles);
    RecordsFitExactly(r.profiles, r.records);
    BodyIsDigested(r);
  }

  lemma RulesAreValid(c: Checks, r: BackendRegistry)
    requires RegistryRules(c, r)
    ensures ValidRegistry(c, r)
  {
    PartsAreValid(c, r);
    ProfilesFitExactly(r.profiles);
    RecordsFitExactly(r.profiles, r.records);
    BodyIsDigested(r);
    MadeExactly(c, r);
  }

  /** A registry is valid exactly when it follows the rules. */
  lemma ValidExactly(c: Checks, r: BackendRegistry)
    ensures ValidRegistry(c, r) <==> RegistryRules(c, r)
  {
    if ValidRegistry(c, r) {
      ValidFollowsRules(c, r);
    }
    if RegistryRules(c, r) {
      RulesAreValid(c, r);
    }
  }

  // ---- The primitive form, key by key ----

  predicate ProfileMember(p: Profile, name: string, v: Json) {
    || (name == "adapter" && v == String(Lit(if p.adapter == CodexAppServer then "codex_app_server" else "jsonl_rpc")))
    || (name == "binName" && v == String(p.binName)) || (name == "entrypoint" && v == String(p.entrypoint))
    || (name == "packageName" && v == String(p.packageName)) || (name == "profileId" && v == String(p.profileId))
    || (name == "protocol" && v == String(p.protocol)) || (name == "provider" && v == String(Lit(NameOf(p.provider))))
    || (name == "runtime" && v == String(p.runtime)) || (name == "schemaVersion" && v == Int(p.schemaVersion))
    || (name == "versionProbe" && v == String(p.versionProbe))
  }

  function NameOf(p: Provider): string {
    if p == Codex then "codex" else if p == Omp then "omp" else "pi"
  }

  predicate VersionMember(r: Record, name: string, v: Json) {
    || (name == "backendVersion" && v == String(r.backendVersion))
    || (name == "launchProfileDigest" && v == String(r.launchProfileDigest))
    || (name == "npmIntegrity" && v == String(r.packageIntegrity))
       || (name == "npmShasum" && v == String(r.packageShasum))
    || (name == "platform" && v == String(Lit(if r.platform == Linux then "linux" else "windows")))
    || (name == "protocolProfile" && v == String(r.protocolProfile))
    || (name == "provider" && v == String(Lit(NameOf(r.provider))))
  }

  predicate QualificationMember(r: Record, name: string, v: Json) {
    || (name == "enabledForDispatch" && v == Bool(r.status == Qualified))
    || (name == "evidenceDigest" && IsOptional(r.evidenceDigest, v))
    || (name == "maxConcurrency" && v == Int(r.maxConcurrency)) || (name == "note" && v == String(r.note))
    || (name == "publicationReceiptDigest" && IsOptional(r.publicationReceiptDigest, v))
    || (name == "reviewReference" && IsOptional(r.reviewReference, v))
    || (name == "status" && v == String(Lit(if r.status == Candidate then "candidate"
                                            else if r.status == Qualified then "qualified" else "quarantined")))
  }

  predicate IsOptional(s: Option<Str>, v: Json) {
    v == match s case None => Null case Some(text) => String(text)
  }

  lemma ProfileEntry(p: Profile, k: ProfileKey)
    ensures var m := ProfilePrimitive(p).members; ProfileText(k) in m && m[ProfileText(k)] == ProfileValue(p, k)
  {
    AllProfileKeys(k);
    ProfileTextsAreDistinct();
  }

  lemma ProfileEntryOf(p: Profile, t: Str) returns (k: ProfileKey)
    requires t in ProfilePrimitive(p).members
    ensures ProfileText(k) == t
  {
    ProfileTextsAreDistinct();
    k :| k in PROFILE_KEYS && ProfileText(k) == t;
  }

  lemma ProfileKeyIsWritten(p: Profile, k: ProfileKey)
    ensures ProfileMember(p, ProfileName(k), ProfileValue(p, k))
  {
    match k
    case AdapterKey =>
    case BinNameKey =>
    case EntrypointKey =>
    case PackageNameKey =>
    case ProfileIdKey =>
    case ProtocolKey =>
    case ProfileProviderKey =>
    case RuntimeKey =>
    case ProfileVersionKey =>
    case VersionProbeKey =>
  }

  lemma ProfileKeyNamed(p: Profile, name: string, v: Json) returns (k: ProfileKey)
    requires ProfileMember(p, name, v)
    ensures ProfileName(k) == name && ProfileValue(p, k) == v
  {
    k := if name == "adapter" then AdapterKey else if name == "binName" then BinNameKey
    else if name == "entrypoint" then EntrypointKey else if name == "packageName" then PackageNameKey
    else if name == "profileId" then ProfileIdKey else if name == "protocol" then ProtocolKey
    else if name == "provider" then ProfileProviderKey else if name == "runtime" then RuntimeKey
    else if name == "schemaVersion" then ProfileVersionKey else VersionProbeKey;
  }

  /** The members of a profile, with the names and texts of the source. */
  lemma ProfileIsWritten(p: Profile, t: Str, v: Json)
    ensures t in ProfilePrimitive(p).members && ProfilePrimitive(p).members[t] == v <==>
            exists name :: t == Lit(name) && ProfileMember(p, name, v)
  {
    if t in ProfilePrimitive(p).members {
      var k := ProfileEntryOf(p, t);
      ProfileEntry(p, k);
      ProfileKeyIsWritten(p, k);
      assert t == Lit(ProfileName(k));
    }
    if name :| t == Lit(name) && ProfileMember(p, name, v) {
      var k := ProfileKeyNamed(p, name, v);
      ProfileEntry(p, k);
    }
  }

  lemma RecordEntry(r: Record, k: RecordKey)
    ensures var m := RecordPrimitive(r).members; RecordText(k) in m && m[RecordText(k)] == RecordValue(r, k)
  {
    AllRecordKeys(k);
    RecordTextsAreDistinct();
  }

  lemma RecordEntryOf(r: Record, t: Str) returns (k: RecordKey)
    requires t in RecordPrimitive(r).members
    ensures RecordText(k) == t
  {
    RecordTextsAreDistinct();
    k :| k in RECORD_KEYS && RecordText(k) == t;
  }

  lemma RecordKeyIsWritten(r: Record, k: RecordKey)
    ensures VersionMember(r, RecordName(k), RecordValue(r, k))
         || QualificationMember(r, RecordName(k), RecordValue(r, k))
  {
    match k
    case BackendVersionKey =>
    case EnabledKey =>
    case EvidenceDigestKey =>
    case LaunchProfileDigestKey =>
    case MaxConcurrencyKey =>
    case NoteKey =>
    case NpmIntegrityKey =>
    case NpmShasumKey =>
    case PlatformKey =>
    case ProtocolProfileKey =>
    case RecordProviderKey =>
    case PublicationReceiptKey =>
    case ReviewReferenceKey =>
    case StatusKey =>
  }

  lemma VersionKeyNamed(r: Record, name: string, v: Json) returns (k: RecordKey)
    requires VersionMember(r, name, v)
    ensures RecordName(k) == name && RecordValue(r, k) == v
  {
    k := if name == "backendVersion" then BackendVersionKey
    else if name == "launchProfileDigest" then LaunchProfileDigestKey else if name == "npmIntegrity"
      then NpmIntegrityKey
    else if name == "npmShasum" then NpmShasumKey else if name == "platform" then PlatformKey
    else if name == "protocolProfile" then ProtocolProfileKey else RecordProviderKey;
  }

  lemma QualificationKeyNamed(r: Record, name: string, v: Json) returns (k: RecordKey)
    requires QualificationMember(r, name, v)
    ensures RecordName(k) == name && RecordValue(r, k) == v
  {
    k := if name == "enabledForDispatch" then EnabledKey else if name == "evidenceDigest" then EvidenceDigestKey
    else if name == "maxConcurrency" then MaxConcurrencyKey else if name == "note" then NoteKey
    else if name == "publicationReceiptDigest" then PublicationReceiptKey
    else if name == "reviewReference" then ReviewReferenceKey else StatusKey;
  }

  lemma WrittenKey(r: Record, name: string, v: Json) returns (k: RecordKey)
    requires VersionMember(r, name, v) || QualificationMember(r, name, v)
    ensures RecordName(k) == name && RecordValue(r, k) == v
  {
    if VersionMember(r, name, v) {
      k := VersionKeyNamed(r, name, v);
    } else {
      k := QualificationKeyNamed(r, name, v);
    }
  }

  /** The same for a record. */
  lemma RecordIsWritten(r: Record, t: Str, v: Json)
    ensures t in RecordPrimitive(r).members && RecordPrimitive(r).members[t] == v <==>
            exists name :: t == Lit(name) && (VersionMember(r, name, v) || QualificationMember(r, name, v))
  {
    if t in RecordPrimitive(r).members {
      var k := RecordEntryOf(r, t);
      RecordEntry(r, k);
      RecordKeyIsWritten(r, k);
      assert t == Lit(RecordName(k));
    }
    if name :| t == Lit(name) && (VersionMember(r, name, v) || QualificationMember(r, name, v)) {
      var k := WrittenKey(r, name, v);
      RecordEntry(r, k);
    }
  }

  lemma RegistryKeyIsWritten(r: BackendRegistry, t: Str)
    requires t in ToPrimitive(r).members
    ensures t == Lit("profiles") || t == Lit("records") || t == Lit("registryDigest") || t == Lit("schemaVersion")
  {
    var k := RegistryEntryOf(r.schemaVersion, ProfilePrimitives(r.profiles), RecordPrimitives(r.records),
                             r.registryDigest, t);
    match k case ProfilesKey => case RecordsKey => case RegistryVersionKey => case RegistryDigestKey =>
  }

  lemma RegistryKeysAreWritten(r: BackendRegistry)
    ensures ToPrimitive(r).members.Keys == {Lit("profiles"), Lit("records"), Lit("registryDigest"),
                                            Lit("schemaVersion")}
  {
    var ps, rs := ProfilePrimitives(r.profiles), RecordPrimitives(r.records);
    forall t | t in ToPrimitive(r).members
      ensures t in {Lit("profiles"), Lit("records"), Lit("registryDigest"), Lit("schemaVersion")}
    {
      RegistryKeyIsWritten(r, t);
    }
    RegistryEntry(r.schemaVersion, ps, rs, r.registryDigest, ProfilesKey);
    RegistryEntry(r.schemaVersion, ps, rs, r.registryDigest, RecordsKey);
    RegistryEntry(r.schemaVersion, ps, rs, r.registryDigest, RegistryVersionKey);
    RegistryEntry(r.schemaVersion, ps, rs, r.registryDigest, RegistryDigestKey);
  }

  /** The same for a registry. */
  lemma RegistryIsWritten(r: BackendRegistry)
    ensures var m := ToPrimitive(r).members;
      && m.Keys == {Lit("profiles"), Lit("records"), Lit("registryDigest"), Lit("schemaVersion")}
      && m[Lit("schemaVersion")] == Int(r.schemaVersion) && m[Lit("registryDigest")] == String(r.registryDigest)
      && IsListOf(m[Lit("profiles")], ProfilePrimitives(r.profiles))
      && IsListOf(m[Lit("records")], RecordPrimitives(r.records))
  {
    var ps, rs := ProfilePrimitives(r.profiles), RecordPrimitives(r.records);
    RegistryKeysAreWritten(r);
    RegistryEntry(r.schemaVersion, ps, rs, r.registryDigest, ProfilesKey);
    RegistryEntry(r.schemaVersion, ps, rs, r.registryDigest, RecordsKey);
    RegistryEntry(r.schemaVersion, ps, rs, r.registryDigest, RegistryVersionKey);
    RegistryEntry(r.schemaVersion, ps, rs, r.registryDigest, RegistryDigestKey);
  }

  predicate IsListOf(v: Json, items: seq<Json>) {
    v == Array(items)
  }

  // ---- The digest ----

  lemma DigestIsOfTheRest(c: Checks, r: BackendRegistry)
    requires RegistryRules(c, r)
    ensures var m := ToPrimitive(r).members;
      && Lit("registryDigest") in m && m[Lit("registryDigest")] == String(r.registryDigest)
      && c.canonicalDigest(Object(m - {Lit("registryDigest")})) == Some(r.registryDigest)
  {
    RegistryIsWritten(r);
  }

  lemma DecodedFollowsRules(c: Checks, v: Json)
    requires ChecksLaws(c) && DecodePrimitive(c, v).Some?
    ensures var r := DecodePrimitive(c, v).value; RegistryRules(c, r) && StoredForm(c, v) == ToPrimitive(r)
  {
    var r := DecodePrimitive(c, v).value;
    DecoderIsExact(c, v, r);
    ValidExactly(c, r);
  }

  /** A decoded registry carries the canonical digest of what was decoded, in stored form and without its digest. */
  lemma DecodedDigestIsItsOwn(c: Checks, v: Json)
    requires ChecksLaws(c) && DecodePrimitive(c, v).Some?
    ensures var w, digest := StoredForm(c, v), DecodePrimitive(c, v).value.registryDigest;
      && w.Object? && Lit("registryDigest") in w.members && w.members[Lit("registryDigest")] == String(digest)
      && c.canonicalDigest(Object(w.members - {Lit("registryDigest")})) == Some(digest)
  {
    DecodedFollowsRules(c, v);
    DigestIsOfTheRest(c, DecodePrimitive(c, v).value);
  }

  lemma SameMembers(m: map<Str, Json>, n: map<Str, Json>, key: Str)
    requires key in m && key in n && m[key] == n[key] && m - {key} == n - {key}
    ensures m == n
  {
    forall t
      ensures (t in m <==> t in n) && (t in m ==> m[t] == n[t])
    {
      if t != key {
        assert (t in m <==> t in m - {key}) && (t in n <==> t in n - {key});
        assert t in m ==> (m - {key})[t] == m[t] && (n - {key})[t] == n[t];
      }
    }
  }

  lemma SamePrimitive(r: BackendRegistry, s: BackendRegistry)
    requires Body(r) == Body(s) && r.registryDigest == s.registryDigest
    ensures ToPrimitive(r) == ToPrimitive(s)
  {
    RegistryEntry(r.schemaVersion, ProfilePrimitives(r.profiles), RecordPrimitives(r.records), r.registryDigest,
                  RegistryDigestKey);
    RegistryEntry(s.schemaVersion, ProfilePrimitives(s.profiles), RecordPrimitives(s.records), s.registryDigest,
                  RegistryDigestKey);
    SameMembers(ToPrimitive(r).members, ToPrimitive(s).members, Lit("registryDigest"));
  }

  lemma PrimitiveDeterminesRegistry(c: Checks, r: BackendRegistry, s: BackendRegistry)
    requires ValidRegistry(c, r) && ValidRegistry(c, s) && ToPrimitive(r) == ToPrimitive(s)
    ensures r == s
  {
    PrimitiveRoundTrip(c, r);
    PrimitiveRoundTrip(c, s);
  }

  lemma BodyDeterminesRegistry(c: Checks, r: BackendRegistry, s: BackendRegistry)
    requires RegistryRules(c, r) && RegistryRules(c, s) && Body(r) == Body(s) && r.registryDigest == s.registryDigest
    ensures r == s
  {
    SamePrimitive(r, s);
    ValidExactly(c, r);
    ValidExactly(c, s);
    PrimitiveDeterminesRegistry(c, r, s);
  }

  /** Registries with equal digests are equal, unless the digest collides on their very bodies. */
  lemma DigestDeterminesRegistry(c: Checks, r: BackendRegistry, s: BackendRegistry)
    requires RegistryRules(c, r) && RegistryRules(c, s) && r.registryDigest == s.registryDigest
    ensures r == s || (Body(r) != Body(s) && c.canonicalDigest(Body(r)) == c.canonicalDigest(Body(s)))
  {
    if Body(r) == Body(s) {
      BodyDeterminesRegistry(c, r, s);
    }
  }

  /** The digest of a canonical value is taken of its canonical text. */
  ghost predicate DigestsText(c: Checks, nfc: Nfc, digest: Str -> Str) {
    forall v: Json :: IsCanonical(nfc, v, 0) ==> c.canonicalDigest(v) == Some(digest(CanonicalText(v)))
  }

  lemma BodyIsCanonical(c: Checks, nfc: Nfc, r: BackendRegistry)
    requires TextsAreNormal(nfc) && RegistryIsNormal(nfc, r) && RegistryRules(c, r)
    ensures IsCanonical(nfc, Body(r), 0)
  {
    ValidExactly(c, r);
    RegistryIsCanonical(c, nfc, r, 0);
    CanonicalWithout(nfc, ToPrimitive(r).members, Lit("registryDigest"));
  }

  lemma CanonicalWithout(nfc: Nfc, members: map<Str, Json>, key: Str)
    requires IsCanonical(nfc, Object(members), 0)
    ensures IsCanonical(nfc, Object(members - {key}), 0)
  {
  }

  /** With a digest that does not collide, normalised registries are as good as their digests. */
  lemma DigestIdentifiesRegistry(c: Checks, nfc: Nfc, digest: Str -> Str, r: BackendRegistry, s: BackendRegistry)
    requires TextsAreNormal(nfc) && DigestsText(c, nfc, digest)
    requires forall a, b :: digest(a) == digest(b) ==> a == b
    requires RegistryIsNormal(nfc, r) && RegistryIsNormal(nfc, s) && RegistryRules(c, r) && RegistryRules(c, s)
    ensures r.registryDigest == s.registryDigest <==> r == s
  {
    if r.registryDigest == s.registryDigest {
      BodyIsCanonical(c, nfc, r);
      BodyIsCanonical(c, nfc, s);
      CanonicalIsFloatFree(nfc, Body(r), 0);
      CanonicalIsFloatFree(nfc, Body(s), 0);
      CanonicalTextIsInjective(Body(r), Body(s));
      BodyDeterminesRegistry(c, r, s);
    }
  }

  /** The decoder reads the text of at most 256 KiB, and takes what the rules and the stored form allow. */
  lemma BytesAreDecodedExactly(c: Checks, codec: Codec, raw: Bytes, r: BackendRegistry)
    requires ChecksLaws(c)
    ensures DecodeBytes(c, codec, raw) == Some(r) <==>
              && |raw| <= 262144 && codec.decode(raw).Some? && Loads(codec.decode(raw).value).Value?
              && RegistryRules(c, r) && StoredForm(c, Loads(codec.decode(raw).value).value) == ToPrimitive(r)
  {
    ValidExactly(c, r);
    if codec.decode(raw).Some? && Loads(codec.decode(raw).value).Value? {
      DecoderIsExact(c, Loads(codec.decode(raw).value).value, r);
    }
  }
}
