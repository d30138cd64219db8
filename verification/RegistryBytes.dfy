/** The canonical bytes of a registry are the printed form of its primitive: normalisation leaves it alone. */
module RegistryBytes {
  import opened JsonText
  import opened Normalize
  import opened CanonicalForm
  import opened Options
  import opened Registry
  import opened RegistryDecoder

  predicate Normal(nfc: Nfc, s: Str) {
    NormalizedString(nfc, s) == Ok(s)
  }

  predicate NormalOption(nfc: Nfc, s: Option<Str>) {
    s.Some? ==> Normal(nfc, s.value)
  }

  /** Composition leaves the ASCII keys and enumeration values alone. */
  ghost predicate TextsAreNormal(nfc: Nfc) {
    && (forall k: ProfileKey :: Normal(nfc, ProfileText(k))) && (forall k: RecordKey :: Normal(nfc, RecordText(k)))
    && (forall k: RegistryKey :: Normal(nfc, RegistryText(k))) && (forall a: Adapter :: Normal(nfc, AdapterText(a)))
    && (forall p: Provider :: Normal(nfc, ProviderText(p))) && (forall p: Platform :: Normal(nfc, PlatformText(p)))
    && (forall s: Status :: Normal(nfc, StatusText(s)))
  }

  predicate ProfileIsNormal(nfc: Nfc, p: Profile) {
    && Normal(nfc, p.profileId) && Normal(nfc, p.protocol) && Normal(nfc, p.packageName) && Normal(nfc, p.binName)
    && Normal(nfc, p.entrypoint) && Normal(nfc, p.runtime) && Normal(nfc, p.versionProbe)
  }

  predicate RecordIsNormal(nfc: Nfc, r: Record) {
    && Normal(nfc, r.backendVersion) && Normal(nfc, r.protocolProfile) && Normal(nfc, r.launchProfileDigest)
    && Normal(nfc, r.packageShasum) && Normal(nfc, r.packageIntegrity) && Normal(nfc, r.note)
    && NormalOption(nfc, r.evidenceDigest) && NormalOption(nfc, r.publicationReceiptDigest)
    && NormalOption(nfc, r.reviewReference)
  }

  /** All strings of the registry are normalised already. */
  predicate RegistryIsNormal(nfc: Nfc, r: BackendRegistry) {
    && (forall i :: 0 <= i < |r.profiles| ==> ProfileIsNormal(nfc, r.profiles[i]))
    && (forall i :: 0 <= i < |r.records| ==> RecordIsNormal(nfc, r.records[i]))
    && Normal(nfc, r.registryDigest)
  }

  lemma ObjectIsCanonical<K>(nfc: Nfc, keys: set<K>, text: K -> Str, value: K -> Json, depth: nat)
    requires DistinctTexts(keys, text) && depth <= MAX_DEPTH
    requires forall k :: k in keys ==> Normal(nfc, text(k)) && IsCanonical(nfc, value(k), depth + 1)
    ensures IsCanonical(nfc, ObjectOf(keys, text, value), depth)
  {
    var members := ObjectOf(keys, text, value).members;
    forall t | t in members
      ensures NormalizedString(nfc, t) == Ok(t) && IsCanonical(nfc, members[t], depth + 1)
    {
      var k :| k in keys && text(k) == t;
      assert members[text(k)] == value(k);
    }
  }

  lemma TextIsCanonical(nfc: Nfc, s: Str, depth: nat)
    requires Normal(nfc, s) && depth <= MAX_DEPTH
    ensures IsCanonical(nfc, String(s), depth)
  {
  }

  lemma ProfileValueIsCanonical(nfc: Nfc, p: Profile, k: ProfileKey, depth: nat)
    requires depth <= MAX_DEPTH && TextsAreNormal(nfc) && ProfileIsNormal(nfc, p) && p.schemaVersion == 1
    ensures IsCanonical(nfc, ProfileValue(p, k), depth)
  {
    match k {
      case AdapterKey => TextIsCanonical(nfc, AdapterText(p.adapter), depth);
      case ProfileProviderKey => TextIsCanonical(nfc, ProviderText(p.provider), depth);
      case ProfileVersionKey =>
      case BinNameKey => case EntrypointKey => case PackageNameKey => case ProfileIdKey => case ProtocolKey =>
      case RuntimeKey => case VersionProbeKey =>
    }
  }

  lemma OptionalTextIsCanonical(nfc: Nfc, s: Option<Str>, depth: nat)
    requires NormalOption(nfc, s) && depth <= MAX_DEPTH
    ensures IsCanonical(nfc, OptionalText(s), depth)
  {
  }

  lemma RecordValueIsCanonical(nfc: Nfc, r: Record, k: RecordKey, depth: nat)
    requires depth <= MAX_DEPTH && TextsAreNormal(nfc) && RecordIsNormal(nfc, r)
             && 0 <= r.maxConcurrency <= MAX_CONCURRENT_TURNS
    ensures IsCanonical(nfc, RecordValue(r, k), depth)
  {
    match k {
      case PlatformKey => TextIsCanonical(nfc, PlatformText(r.platform), depth);
      case RecordProviderKey => TextIsCanonical(nfc, ProviderText(r.provider), depth);
      case StatusKey => TextIsCanonical(nfc, StatusText(r.status), depth);
      case EvidenceDigestKey => OptionalTextIsCanonical(nfc, r.evidenceDigest, depth);
      case PublicationReceiptKey => OptionalTextIsCanonical(nfc, r.publicationReceiptDigest, depth);
      case ReviewReferenceKey => OptionalTextIsCanonical(nfc, r.reviewReference, depth);
      case MaxConcurrencyKey => case EnabledKey =>
      case BackendVersionKey => case LaunchProfileDigestKey => case NoteKey => case NpmIntegrityKey =>
          case NpmShasumKey =>
      case ProtocolProfileKey =>
    }
  }

  lemma RegistryValueIsCanonical(nfc: Nfc, ps: seq<Json>, rs: seq<Json>, digest: Str, depth: nat, k: RegistryKey)
    requires depth < MAX_DEPTH && Normal(nfc, digest)
    requires IsCanonical(nfc, Array(ps), depth + 1) && IsCanonical(nfc, Array(rs), depth + 1)
    ensures IsCanonical(nfc, RegistryValue(1, ps, rs, digest, k), depth + 1)
  {
    match k {
      case ProfilesKey => case RecordsKey => case RegistryVersionKey => case RegistryDigestKey =>
    }
  }

  lemma ProfileIsCanonical(c: Checks, nfc: Nfc, p: Profile, depth: nat)
    requires depth < MAX_DEPTH && TextsAreNormal(nfc) && ProfileIsNormal(nfc, p) && ValidProfile(c, p)
    ensures IsCanonical(nfc, ProfilePrimitive(p), depth)
  {
    assert p.schemaVersion == 1;
    ProfileTextsAreDistinct();
    var value := k => ProfileValue(p, k);
    forall k
      ensures Normal(nfc, ProfileText(k)) && IsCanonical(nfc, value(k), depth + 1)
    {
      ProfileValueIsCanonical(nfc, p, k, depth + 1);
    }
    ObjectIsCanonical(nfc, PROFILE_KEYS, ProfileText, value, depth);
  }

  lemma RecordIsCanonical(c: Checks, nfc: Nfc, r: Record, depth: nat)
    requires depth < MAX_DEPTH && TextsAreNormal(nfc) && RecordIsNormal(nfc, r) && ValidRecord(c, r)
    ensures IsCanonical(nfc, RecordPrimitive(r), depth)
  {
    assert 0 <= r.maxConcurrency <= MAX_CONCURRENT_TURNS;
    RecordTextsAreDistinct();
    var value := k => RecordValue(r, k);
    forall k
      ensures Normal(nfc, RecordText(k)) && IsCanonical(nfc, value(k), depth + 1)
    {
      RecordValueIsCanonical(nfc, r, k, depth + 1);
    }
    ObjectIsCanonical(nfc, RECORD_KEYS, RecordText, value, depth);
  }

  lemma ItemsAreCanonical(nfc: Nfc, items: seq<Json>, depth: nat)
    requires depth <= MAX_DEPTH && AllCanonical(nfc, items, depth + 1)
    ensures IsCanonical(nfc, Array(items), depth)
  {
  }

  lemma PartsAreCanonical(nfc: Nfc, ps: seq<Json>, rs: seq<Json>, digest: Str, depth: nat)
    requires depth < MAX_DEPTH && TextsAreNormal(nfc) && Normal(nfc, digest)
    requires AllCanonical(nfc, ps, depth + 2) && AllCanonical(nfc, rs, depth + 2)
    ensures IsCanonical(nfc, RegistryPrimitive(1, ps, rs, digest), depth)
  {
    ItemsAreCanonical(nfc, ps, depth + 1);
    ItemsAreCanonical(nfc, rs, depth + 1);
    ArraysAreCanonical(nfc, ps, rs, digest, depth);
  }

  lemma ArraysAreCanonical(nfc: Nfc, ps: seq<Json>, rs: seq<Json>, digest: Str, depth: nat)
    requires depth < MAX_DEPTH && TextsAreNormal(nfc) && Normal(nfc, digest)
    requires IsCanonical(nfc, Array(ps), depth + 1) && IsCanonical(nfc, Array(rs), depth + 1)
    ensures IsCanonical(nfc, RegistryPrimitive(1, ps, rs, digest), depth)
  {
    RegistryTextsAreDistinct();
    var value := k => RegistryValue(1, ps, rs, digest, k);
    forall k
      ensures Normal(nfc, RegistryText(k)) && IsCanonical(nfc, value(k), depth + 1)
    {
      RegistryValueIsCanonical(nfc, ps, rs, digest, depth, k);
    }
    ObjectIsCanonical(nfc, REGISTRY_KEYS, RegistryText, value, depth);
  }

  lemma ProfileItemIsCanonical(c: Checks, nfc: Nfc, items: seq<Json>, p: Profile, i: nat, depth: nat)
    requires depth + 1 < MAX_DEPTH && TextsAreNormal(nfc) && ProfileIsNormal(nfc, p) && ValidProfile(c, p)
    requires i < |items| && items[i] == ProfilePrimitive(p)
    ensures IsCanonical(nfc, items[i], depth + 1)
  {
    ProfileIsCanonical(c, nfc, p, depth + 1);
  }

  lemma ProfilesAreCanonical(c: Checks, nfc: Nfc, ps: seq<Profile>, depth: nat)
    requires depth + 1 < MAX_DEPTH && TextsAreNormal(nfc)
    requires forall i :: 0 <= i < |ps| ==> ProfileIsNormal(nfc, ps[i]) && ValidProfile(c, ps[i])
    ensures AllCanonical(nfc, ProfilePrimitives(ps), depth + 1)
  {
    var items := ProfilePrimitives(ps);
    forall i | 0 <= i < |ps|
      ensures IsCanonical(nfc, items[i], depth + 1)
    {
      ProfileItemIsCanonical(c, nfc, items, ps[i], i, depth);
    }
  }

  lemma RecordItemIsCanonical(c: Checks, nfc: Nfc, items: seq<Json>, r: Record, i: nat, depth: nat)
    requires depth + 1 < MAX_DEPTH && TextsAreNormal(nfc) && RecordIsNormal(nfc, r) && ValidRecord(c, r)
    requires i < |items| && items[i] == RecordPrimitive(r)
    ensures IsCanonical(nfc, items[i], depth + 1)
  {
    RecordIsCanonical(c, nfc, r, depth + 1);
  }

  lemma RecordsAreCanonical(c: Checks, nfc: Nfc, rs: seq<Record>, depth: nat)
    requires depth + 1 < MAX_DEPTH && TextsAreNormal(nfc)
    requires forall i :: 0 <= i < |rs| ==> RecordIsNormal(nfc, rs[i]) && ValidRecord(c, rs[i])
    ensures AllCanonical(nfc, RecordPrimitives(rs), depth + 1)
  {
    var items := RecordPrimitives(rs);
    forall i | 0 <= i < |rs|
      ensures IsCanonical(nfc, items[i], depth + 1)
    {
      RecordItemIsCanonical(c, nfc, items, rs[i], i, depth);
    }
  }

  lemma VersionIsOne(c: Checks, r: BackendRegistry)
    requires ValidRegistry(c, r)
    ensures r.schemaVersion == 1
  {
  }

  lemma EntriesAreCanonical(c: Checks, nfc: Nfc, r: BackendRegistry, depth: nat)
    requires depth + 1 < MAX_DEPTH && TextsAreNormal(nfc) && RegistryIsNormal(nfc, r) && ValidRegistry(c, r)
    ensures AllCanonical(nfc, ProfilePrimitives(r.profiles), depth + 1)
    ensures AllCanonical(nfc, RecordPrimitives(r.records), depth + 1)
  {
    ProfilesAreCanonical(c, nfc, r.profiles, depth);
    RecordsAreCanonical(c, nfc, r.records, depth);
  }

  lemma RegistryIsCanonical(c: Checks, nfc: Nfc, r: BackendRegistry, depth: nat)
    requires depth + 2 < MAX_DEPTH && TextsAreNormal(nfc) && RegistryIsNormal(nfc, r) && ValidRegistry(c, r)
    ensures IsCanonical(nfc, ToPrimitive(r), depth)
  {
    EntriesAreCanonical(c, nfc, r, depth + 1);
    VersionIsOne(c, r);
    PartsAreCanonical(nfc, ProfilePrimitives(r.profiles), RecordPrimitives(r.records), r.registryDigest, depth);
  }

  /** From the object graph of `to_primitive` through normalisation, printing, encoding, decoding, parsing and the
      strict decoder: a valid registry with normalised strings comes back unchanged when its bytes fit the limit. */
  lemma RegistryComesBack(c: Checks, codec: Codec, nfc: Nfc, r: BackendRegistry, h: Heap, v: Val, raw: Bytes)
    requires TextsAreNormal(nfc) && RegistryIsNormal(nfc, r) && ValidRegistry(c, r) && CodecLaw(codec)
    requires Closed(h) && Known(h, v) && Represents(h, v, ToPrimitive(r))
    requires Norm(h, nfc, v, {}, 0).Ok? ==>
               codec.encode(CanonicalText(Norm(h, nfc, v, {}, 0).value)) == Some(raw) && |raw| <= MAX_BYTES
    ensures Norm(h, nfc, v, {}, 0) == Ok(ToPrimitive(r))
    ensures DecodeBytes(c, codec, raw) == Some(r)
  {
    RegistryIsCanonical(c, nfc, r, 0);
    CanonicalUnfoldsToItself(h, nfc, v, ToPrimitive(r), 0);
    NormalizeUnfolds(h, nfc, v);
    BytesRoundTrip(c, codec, r, raw);
  }
}
