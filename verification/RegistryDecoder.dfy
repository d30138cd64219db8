/** The strict decoder of the backend version registry, and its round trip with the encoder. */
module RegistryDecoder {
  import opened JsonText
  import opened JsonRoundTrip
  import opened Options
  import opened Registry

  newtype byte = x: int | 0 <= x < 256
  type Bytes = seq<byte>

  const MAX_BYTES := 256 * 1024

  // ---- Parts ----

  function Get<K>(v: Json, text: K -> Str, k: K): Json {
    if v.Object? && text(k) in v.members then v.members[text(k)] else Null
  }

  /** A dictionary with exactly these keys. */
  predicate HasKeys<K>(v: Json, keys: set<K>, text: K -> Str) {
    v.Object? && v.members.Keys == Texts(keys, text)
  }

  function ProviderOf(v: Json): Option<Provider> {
    if v == String(ProviderText(Codex)) then Some(Codex)
    else if v == String(ProviderText(Omp)) then Some(Omp)
    else if v == String(ProviderText(Pi)) then Some(Pi)
    else None
  }

  function PlatformOf(v: Json): Option<Platform> {
    if v == String(PlatformText(Linux)) then Some(Linux)
    else if v == String(PlatformText(Windows)) then Some(Windows)
    else None
  }

  function StatusOf(v: Json): Option<Status> {
    if v == String(StatusText(Candidate)) then Some(Candidate)
    else if v == String(StatusText(Qualified)) then Some(Qualified)
    else if v == String(StatusText(Quarantined)) then Some(Quarantined)
    else None
  }

  function AdapterOf(v: Json): Option<Adapter> {
    if v == String(AdapterText(CodexAppServer)) then Some(CodexAppServer)
    else if v == String(AdapterText(JsonlRpc)) then Some(JsonlRpc)
    else None
  }

  lemma TextsDiffer()
    ensures ProviderText(Codex) != ProviderText(Omp) && ProviderText(Omp) != ProviderText(Pi)
    ensures ProviderText(Codex) != ProviderText(Pi)
    ensures PlatformText(Linux) != PlatformText(Windows)
    ensures StatusText(Candidate) != StatusText(Qualified) && StatusText(Qualified) != StatusText(Quarantined)
    ensures StatusText(Candidate) != StatusText(Quarantined)
    ensures AdapterText(CodexAppServer) != AdapterText(JsonlRpc)
  {
    assert StatusText(Candidate)[0] == 'c' as int && StatusText(Qualified)[0] == 'q' as int;
  }

  lemma EnumsDecode(provider: Provider, platform: Platform, status: Status, adapter: Adapter)
    ensures ProviderOf(String(ProviderText(provider))) == Some(provider)
    ensures PlatformOf(String(PlatformText(platform))) == Some(platform)
    ensures StatusOf(String(StatusText(status))) == Some(status)
    ensures AdapterOf(String(AdapterText(adapter))) == Some(adapter)
  {
    TextsDiffer();
  }

  // ---- The decoder ----

  /** The profile that a reading of the members gives. */
  function ProfileFrom(c: Checks, get: ProfileKey -> Json): Option<Profile> {
    var provider, adapter := ProviderOf(get(ProfileProviderKey)), AdapterOf(get(AdapterKey));
    if provider.Some? && adapter.Some? then
      MakeProfile(c, get(ProfileVersionKey), get(ProfileIdKey), provider.value, adapter.value, get(ProtocolKey),
                  get(PackageNameKey), get(BinNameKey), get(EntrypointKey), get(RuntimeKey), get(VersionProbeKey))
    else None
  }

  function DecodeProfile(c: Checks, v: Json): Option<Profile> {
    if HasKeys(v, PROFILE_KEYS, ProfileText) then ProfileFrom(c, k => Get(v, ProfileText, k)) else None
  }

  /** The record that a reading of the members gives; `enabledForDispatch` must agree with the status. */
  function RecordFrom(c: Checks, get: RecordKey -> Json): Option<Record> {
    var provider, platform, status := ProviderOf(get(RecordProviderKey)), PlatformOf(get(PlatformKey)),
        StatusOf(get(StatusKey));
    if provider.Some? && platform.Some? && status.Some? && get(EnabledKey) == Bool(status.value == Qualified) then
      MakeRecord(c, provider.value, platform.value, get(BackendVersionKey), get(ProtocolProfileKey),
                 get(LaunchProfileDigestKey), get(NpmShasumKey), get(NpmIntegrityKey), status.value,
                 get(MaxConcurrencyKey), get(EvidenceDigestKey), get(PublicationReceiptKey),
                 get(ReviewReferenceKey), get(NoteKey))
    else None
  }

  function DecodeRecord(c: Checks, v: Json): Option<Record> {
    if HasKeys(v, RECORD_KEYS, RecordText) then RecordFrom(c, k => Get(v, RecordText, k)) else None
  }

  /** All items decoded, or nothing. */
  function DecodeAll<T>(decode: Json -> Option<T>, items: seq<Json>): Option<seq<T>> {
    if items == [] then Some([])
    else
      var first, rest := decode(items[0]), DecodeAll(decode, items[1..]);
      if first.Some? && rest.Some? then Some([first.value] + rest.value) else None
  }

  /** `decode_backend_version_registry_primitive`; nothing stands for its `BackendRegistryDecodeError`. */
  function DecodePrimitive(c: Checks, v: Json): Option<BackendRegistry> {
    if HasKeys(v, REGISTRY_KEYS, RegistryText) then RegistryFrom(c, k => Get(v, RegistryText, k)) else None
  }

  function RegistryFrom(c: Checks, get: RegistryKey -> Json): Option<BackendRegistry> {
    var profiles, records := get(ProfilesKey), get(RecordsKey);
    if !profiles.Array? || !records.Array? then None
    else
      var ps, rs := DecodeAll(v => DecodeProfile(c, v), profiles.items),
          DecodeAll(v => DecodeRecord(c, v), records.items);
      if ps.None? || rs.None? then None
      else MakeRegistry(c, get(RegistryVersionKey), ps.value, rs.value, get(RegistryDigestKey))
  }

  /** Strict UTF-8, as a pair of functions. */
  datatype Codec = Codec(encode: Str -> Option<Bytes>, decode: Bytes -> Option<Str>)

  ghost predicate CodecLaw(codec: Codec) {
    forall text :: codec.encode(text).Some? ==> codec.decode(codec.encode(text).value) == Some(text)
  }

  function DecodeText(c: Checks, text: Str): Option<BackendRegistry> {
    match Loads(text)
    case Invalid => None
    case Value(v) => DecodePrimitive(c, v)
  }

  /** `decode_backend_version_registry_bytes`. */
  function DecodeBytes(c: Checks, codec: Codec, raw: Bytes): Option<BackendRegistry> {
    var text := codec.decode(raw);
    if |raw| > MAX_BYTES || text.None? then None else DecodeText(c, text.value)
  }

  // ---- Duplicate keys ----

  ghost predicate Holds(value: map<Str, Json>, pairs: seq<(Str, Json)>) {
    && (forall i :: 0 <= i < |pairs| ==> pairs[i].0 in value && value[pairs[i].0] == pairs[i].1)
    && (forall k :: k in value ==> exists i :: 0 <= i < |pairs| && pairs[i].0 == k)
  }

  /** `_object`: the dictionary of the members of a JSON object, unless two of them have the same key. */
  method ObjectOfPairs(pairs: seq<(Str, Json)>) returns (value: Option<map<Str, Json>>)
    ensures value.Some? <==> forall i, j :: 0 <= i < j < |pairs| ==> pairs[i].0 != pairs[j].0
    ensures value.Some? ==> Holds(value.value, pairs)
  {
    var members: map<Str, Json> := map[];
    for n := 0 to |pairs|
      invariant forall i, j :: 0 <= i < j < n ==> pairs[i].0 != pairs[j].0
      invariant Holds(members, pairs[..n])
    {
      assert pairs[..n + 1] == pairs[..n] + [pairs[n]];
      if pairs[n].0 in members {
        var i :| 0 <= i < n && pairs[..n][i].0 == pairs[n].0;
        return None;
      }
      forall i | 0 <= i < n
        ensures pairs[i].0 != pairs[n].0
      {
        assert pairs[..n][i] == pairs[i];
      }
      members := members[pairs[n].0 := pairs[n].1];
    }
    assert pairs[..|pairs|] == pairs;
    return Some(members);
  }

  /** The reader does the same while it parses: a member that was read is never replaced by a later one. */
  lemma {:induction false} MembersAreNeverReplaced(s: Str, seen: map<Str, Json>)
    requires ReadMembers(s, seen).Read?
    ensures forall k :: k in seen ==> k in ReadMembers(s, seen).value && ReadMembers(s, seen).value[k] == seen[k]
    decreases |s|
  {
    var key := ReadString(s[1..]);
    var value := ReadValue(SkipBlanks(SkipBlanks(key.rest)[1..]));
    var members := seen[key.value := value.value];
    var after := SkipBlanks(value.rest);
    if after[0] == COMMA {
      MembersAreNeverReplaced(SkipBlanks(after[1..]), members);
    }
  }

  // ---- Valid registries ----

  /** The values that the constructors return, strings already in stored form. */
  predicate ValidProfile(c: Checks, p: Profile) {
    MakeProfile(c, Int(p.schemaVersion), String(p.profileId), p.provider, p.adapter, String(p.protocol),
                String(p.packageName),
                String(p.binName), String(p.entrypoint), String(p.runtime), String(p.versionProbe)) == Some(p)
  }

  predicate ValidRecord(c: Checks, r: Record) {
    MakeRecord(c, r.provider, r.platform, String(r.backendVersion), String(r.protocolProfile),
               String(r.launchProfileDigest),
               String(r.packageShasum), String(r.packageIntegrity), r.status, Int(r.maxConcurrency),
               OptionalText(r.evidenceDigest), OptionalText(r.publicationReceiptDigest),
               OptionalText(r.reviewReference),
               String(r.note)) == Some(r)
  }

  ghost predicate ValidRegistry(c: Checks, r: BackendRegistry) {
    && (forall i :: 0 <= i < |r.profiles| ==> ValidProfile(c, r.profiles[i]))
    && (forall i :: 0 <= i < |r.records| ==> ValidRecord(c, r.records[i]))
    && MakeRegistry(c, Int(r.schemaVersion), r.profiles, r.records, String(r.registryDigest)) == Some(r)
  }

  // ---- Decoding what was encoded ----

  /** Two readings of an object that agree on its keys. */
  ghost predicate Agree<K(!new)>(get: K -> Json, value: K -> Json) {
    forall k: K :: get(k) == value(k)
  }

  lemma ObjectReads<K(!new)>(keys: set<K>, text: K -> Str, value: K -> Json)
    requires DistinctTexts(keys, text) && forall k: K :: k in keys
    ensures HasKeys(ObjectOf(keys, text, value), keys, text)
    ensures Agree(k => Get(ObjectOf(keys, text, value), text, k), value)
  {
  }

  lemma ObjectIsItsMembers<K(!new)>(v: Json, keys: set<K>, text: K -> Str, value: K -> Json)
    requires DistinctTexts(keys, text) && HasKeys(v, keys, text) && Agree(k => Get(v, text, k), value)
    ensures v == ObjectOf(keys, text, value)
  {
    var o := ObjectOf(keys, text, value);
    forall t | t in v.members
      ensures v.members[t] == o.members[t]
    {
      var k :| k in keys && text(k) == t;
      assert (l => Get(v, text, l))(k) == value(k);
    }
    assert v.members == o.members;
  }

  /** The members of a profile that are kept as they are. */
  ghost predicate HasKeptProfile(get: ProfileKey -> Json, p: Profile) {
    && get(AdapterKey) == String(AdapterText(p.adapter)) && get(ProfileProviderKey) == String(ProviderText(p.provider))
    && get(ProfileVersionKey) == Int(p.schemaVersion) && get(VersionProbeKey) == String(p.versionProbe)
  }

  /** The members of a profile, one by one. */
  ghost predicate HasProfile(get: ProfileKey -> Json, p: Profile) {
    && HasKeptProfile(get, p) && get(BinNameKey) == String(p.binName)
    && get(EntrypointKey) == String(p.entrypoint) && get(PackageNameKey) == String(p.packageName)
    && get(ProfileIdKey) == String(p.profileId) && get(ProtocolKey) == String(p.protocol)
    && get(RuntimeKey) == String(p.runtime)
  }

  lemma ProfileMembers(get: ProfileKey -> Json, p: Profile)
    ensures HasProfile(get, p) <==> Agree(get, k => ProfileValue(p, k))
  {
    var value := k => ProfileValue(p, k);
    if HasProfile(get, p) {
      forall k
        ensures get(k) == value(k)
      {
        match k {
          case AdapterKey => case BinNameKey => case EntrypointKey => case PackageNameKey => case ProfileIdKey =>
          case ProtocolKey => case ProfileProviderKey => case RuntimeKey => case ProfileVersionKey =>
              case VersionProbeKey =>
        }
      }
    }
  }

  ghost predicate HasKeptRecord(get: RecordKey -> Json, r: Record) {
    && get(RecordProviderKey) == String(ProviderText(r.provider))
       && get(PlatformKey) == String(PlatformText(r.platform))
    && get(StatusKey) == String(StatusText(r.status)) && get(EnabledKey) == Bool(r.EnabledForDispatch())
    && get(LaunchProfileDigestKey) == String(r.launchProfileDigest)
    && get(NpmShasumKey) == String(r.packageShasum) && get(NpmIntegrityKey) == String(r.packageIntegrity)
    && get(MaxConcurrencyKey) == Int(r.maxConcurrency)
    && get(EvidenceDigestKey) == OptionalText(r.evidenceDigest)
    && get(PublicationReceiptKey) == OptionalText(r.publicationReceiptDigest)
  }

  ghost predicate HasRecord(get: RecordKey -> Json, r: Record) {
    && HasKeptRecord(get, r) && get(BackendVersionKey) == String(r.backendVersion)
    && get(ProtocolProfileKey) == String(r.protocolProfile)
    && get(ReviewReferenceKey) == OptionalText(r.reviewReference) && get(NoteKey) == String(r.note)
  }

  lemma KeptMembersRead(get: RecordKey -> Json, r: Record)
    requires Agree(get, k => RecordValue(r, k))
    ensures HasKeptRecord(get, r)
  {
  }

  lemma RecordMembersRead(get: RecordKey -> Json, r: Record)
    requires Agree(get, k => RecordValue(r, k))
    ensures HasRecord(get, r)
  {
    KeptMembersRead(get, r);
  }

  lemma RecordMembersListed(get: RecordKey -> Json, r: Record, k: RecordKey)
    requires HasRecord(get, r)
    ensures get(k) == RecordValue(r, k)
  {
    match k {
      case BackendVersionKey => case EnabledKey => case EvidenceDigestKey => case LaunchProfileDigestKey =>
      case MaxConcurrencyKey => case NoteKey => case NpmIntegrityKey => case NpmShasumKey => case PlatformKey =>
      case ProtocolProfileKey => case RecordProviderKey => case PublicationReceiptKey => case ReviewReferenceKey =>
      case StatusKey =>
    }
  }

  lemma ProfileFromMembers(c: Checks, get: ProfileKey -> Json, p: Profile)
    requires HasProfile(get, p) && ValidProfile(c, p)
    ensures ProfileFrom(c, get) == Some(p)
  {
    EnumsDecode(p.provider, Linux, Candidate, p.adapter);
  }

  lemma RecordFromMembers(c: Checks, get: RecordKey -> Json, r: Record)
    requires HasRecord(get, r) && ValidRecord(c, r)
    ensures RecordFrom(c, get) == Some(r)
  {
    EnumsDecode(r.provider, r.platform, r.status, JsonlRpc);
  }

  lemma ProfileRoundTrip(c: Checks, p: Profile)
    requires ValidProfile(c, p)
    ensures DecodeProfile(c, ProfilePrimitive(p)) == Some(p)
  {
    var value := k => ProfileValue(p, k);
    forall k: ProfileKey
      ensures k in PROFILE_KEYS
    {
      AllProfileKeys(k);
    }
    ProfileTextsAreDistinct();
    ObjectReads(PROFILE_KEYS, ProfileText, value);
    ProfileMembers(k => Get(ProfilePrimitive(p), ProfileText, k), p);
    ProfileFromMembers(c, k => Get(ProfilePrimitive(p), ProfileText, k), p);
  }

  lemma RecordRoundTrip(c: Checks, r: Record)
    requires ValidRecord(c, r)
    ensures DecodeRecord(c, RecordPrimitive(r)) == Some(r)
  {
    var value := k => RecordValue(r, k);
    forall k: RecordKey
      ensures k in RECORD_KEYS
    {
      AllRecordKeys(k);
    }
    RecordTextsAreDistinct();
    ObjectReads(RECORD_KEYS, RecordText, value);
    RecordMembersRead(k => Get(RecordPrimitive(r), RecordText, k), r);
    RecordFromMembers(c, k => Get(RecordPrimitive(r), RecordText, k), r);
  }

  lemma {:induction false} AllRoundTrip<T>(decode: Json -> Option<T>, encoded: seq<Json>, xs: seq<T>)
    requires |encoded| == |xs| && forall i :: 0 <= i < |xs| ==> decode(encoded[i]) == Some(xs[i])
    ensures DecodeAll(decode, encoded) == Some(xs)
    decreases |xs|
  {
    if xs != [] {
      AllRoundTrip(decode, encoded[1..], xs[1..]);
      assert xs == [xs[0]] + xs[1..];
    }
  }

  lemma ProfilesRoundTrip(c: Checks, ps: seq<Profile>)
    requires forall i :: 0 <= i < |ps| ==> ValidProfile(c, ps[i])
    ensures DecodeAll(v => DecodeProfile(c, v), ProfilePrimitives(ps)) == Some(ps)
  {
    var decode := v => DecodeProfile(c, v);
    forall i | 0 <= i < |ps|
      ensures decode(ProfilePrimitives(ps)[i]) == Some(ps[i])
    {
      ProfileRoundTrip(c, ps[i]);
    }
    AllRoundTrip(decode, ProfilePrimitives(ps), ps);
  }

  lemma RecordsRoundTrip(c: Checks, rs: seq<Record>)
    requires forall i :: 0 <= i < |rs| ==> ValidRecord(c, rs[i])
    ensures DecodeAll(v => DecodeRecord(c, v), RecordPrimitives(rs)) == Some(rs)
  {
    var decode := v => DecodeRecord(c, v);
    forall i | 0 <= i < |rs|
      ensures decode(RecordPrimitives(rs)[i]) == Some(rs[i])
    {
      RecordRoundTrip(c, rs[i]);
    }
    AllRoundTrip(decode, RecordPrimitives(rs), rs);
  }

  /** What a decoded registry was made from. */
  ghost predicate MadeFrom(c: Checks, get: RegistryKey -> Json, r: BackendRegistry) {
    && get(ProfilesKey).Array? && DecodeAll(v => DecodeProfile(c, v), get(ProfilesKey).items) == Some(r.profiles)
    && get(RecordsKey).Array? && DecodeAll(v => DecodeRecord(c, v), get(RecordsKey).items) == Some(r.records)
    && MakeRegistry(c, get(RegistryVersionKey), r.profiles, r.records, get(RegistryDigestKey)) == Some(r)
  }

  lemma RegistryIsMade(c: Checks, get: RegistryKey -> Json, r: BackendRegistry)
    ensures RegistryFrom(c, get) == Some(r) <==> MadeFrom(c, get, r)
  {
    if RegistryFrom(c, get) == Some(r) {
      var ps, rs := DecodeAll(v => DecodeProfile(c, v), get(ProfilesKey).items),
          DecodeAll(v => DecodeRecord(c, v), get(RecordsKey).items);
      MadeRegistryIsExact(c, get(RegistryVersionKey), ps.value, rs.value, get(RegistryDigestKey), r);
    }
  }

  ghost predicate HasRegistry(get: RegistryKey -> Json, schemaVersion: int, ps: seq<Json>, rs: seq<Json>, digest: Str) {
    && get(ProfilesKey) == Array(ps) && get(RecordsKey) == Array(rs)
    && get(RegistryVersionKey) == Int(schemaVersion) && get(RegistryDigestKey) == String(digest)
  }

  lemma RegistryMembers(get: RegistryKey -> Json, schemaVersion: int, ps: seq<Json>, rs: seq<Json>, digest: Str)
    ensures HasRegistry(get, schemaVersion, ps, rs, digest) <==>
              Agree(get, k => RegistryValue(schemaVersion, ps, rs, digest, k))
  {
    var value := k => RegistryValue(schemaVersion, ps, rs, digest, k);
    if HasRegistry(get, schemaVersion, ps, rs, digest) {
      forall k
        ensures get(k) == value(k)
      {
        match k {
          case ProfilesKey => case RecordsKey => case RegistryVersionKey => case RegistryDigestKey =>
        }
      }
    }
  }

  /** A primitive form is known by its four members. */
  lemma PrimitiveIsItsMembers(v: Json, schemaVersion: int, ps: seq<Json>, rs: seq<Json>, digest: Str)
    ensures v == RegistryPrimitive(schemaVersion, ps, rs, digest) <==>
            HasKeys(v, REGISTRY_KEYS, RegistryText) && HasRegistry(k => Get(v, RegistryText, k), schemaVersion, ps, rs,
                                                                   digest)
  {
    var value := k => RegistryValue(schemaVersion, ps, rs, digest, k);
    var get := k => Get(v, RegistryText, k);
    RegistryMembers(get, schemaVersion, ps, rs, digest);
    RegistryTextsAreDistinct();
    forall k: RegistryKey
      ensures k in REGISTRY_KEYS
    {
      AllRegistryKeys(k);
    }
    ObjectReads(REGISTRY_KEYS, RegistryText, value);
    if HasKeys(v, REGISTRY_KEYS, RegistryText) && Agree(get, value) {
      ObjectIsItsMembers(v, REGISTRY_KEYS, RegistryText, value);
    }
  }

  lemma RegistryFromMembers(c: Checks, get: RegistryKey -> Json, r: BackendRegistry)
    requires HasRegistry(get, r.schemaVersion, ProfilePrimitives(r.profiles), RecordPrimitives(r.records),
                         r.registryDigest)
    requires ValidRegistry(c, r)
    ensures MadeFrom(c, get, r)
  {
    ProfilesRoundTrip(c, r.profiles);
    RecordsRoundTrip(c, r.records);
  }

  /** A valid registry decodes from its primitive form to itself. */
  lemma PrimitiveRoundTrip(c: Checks, r: BackendRegistry)
    requires ValidRegistry(c, r)
    ensures DecodePrimitive(c, ToPrimitive(r)) == Some(r)
  {
    var v := ToPrimitive(r);
    var get := k => Get(v, RegistryText, k);
    PrimitiveIsItsMembers(v, r.schemaVersion, ProfilePrimitives(r.profiles), RecordPrimitives(r.records),
                          r.registryDigest);
    RegistryFromMembers(c, get, r);
    RegistryIsMade(c, get, r);
  }

  // ---- Through the canonical bytes ----

  lemma ObjectIsFloatFree<K>(keys: set<K>, text: K -> Str, value: K -> Json)
    requires DistinctTexts(keys, text) && forall k :: k in keys ==> FloatFree(value(k))
    ensures FloatFree(ObjectOf(keys, text, value))
  {
  }

  lemma ProfileIsFloatFree(p: Profile)
    ensures FloatFree(ProfilePrimitive(p))
  {
    var value := k => ProfileValue(p, k);
    forall k
      ensures FloatFree(value(k))
    {
    }
    ProfileTextsAreDistinct();
    ObjectIsFloatFree(PROFILE_KEYS, ProfileText, value);
  }

  lemma RecordIsFloatFree(r: Record)
    ensures FloatFree(RecordPrimitive(r))
  {
    var value := k => RecordValue(r, k);
    forall k
      ensures FloatFree(value(k))
    {
    }
    RecordTextsAreDistinct();
    ObjectIsFloatFree(RECORD_KEYS, RecordText, value);
  }

  lemma ItemsAreFloatFree(items: seq<Json>)
    requires forall i :: 0 <= i < |items| ==> FloatFree(items[i])
    ensures FloatFree(Array(items))
  {
  }

  lemma RegistryIsFloatFree(r: BackendRegistry)
    ensures FloatFree(ToPrimitive(r))
  {
    forall i | 0 <= i < |r.profiles|
      ensures FloatFree(ProfilePrimitives(r.profiles)[i])
    {
      ProfileIsFloatFree(r.profiles[i]);
    }
    forall i | 0 <= i < |r.records|
      ensures FloatFree(RecordPrimitives(r.records)[i])
    {
      RecordIsFloatFree(r.records[i]);
    }
    PartsAreFloatFree(r.schemaVersion, ProfilePrimitives(r.profiles), RecordPrimitives(r.records), r.registryDigest);
  }

  lemma PartsAreFloatFree(schemaVersion: int, ps: seq<Json>, rs: seq<Json>, digest: Str)
    requires forall i :: 0 <= i < |ps| ==> FloatFree(ps[i])
    requires forall i :: 0 <= i < |rs| ==> FloatFree(rs[i])
    ensures FloatFree(RegistryPrimitive(schemaVersion, ps, rs, digest))
  {
    ItemsAreFloatFree(ps);
    ItemsAreFloatFree(rs);
    RegistryTextsAreDistinct();
    ObjectIsFloatFree(REGISTRY_KEYS, RegistryText, k => RegistryValue(schemaVersion, ps, rs, digest, k));
  }

  lemma TextRoundTrip(c: Checks, r: BackendRegistry)
    requires ValidRegistry(c, r)
    ensures DecodeText(c, CanonicalText(ToPrimitive(r))) == Some(r)
  {
    RegistryIsFloatFree(r);
    CanonicalTextLoads(ToPrimitive(r));
    PrimitiveRoundTrip(c, r);
  }

  /** A valid registry whose canonical bytes fit the limit decodes back to itself. */
  lemma BytesRoundTrip(c: Checks, codec: Codec, r: BackendRegistry, raw: Bytes)
    requires ValidRegistry(c, r) && CodecLaw(codec)
    requires codec.encode(CanonicalText(ToPrimitive(r))) == Some(raw) && |raw| <= MAX_BYTES
    ensures DecodeBytes(c, codec, raw) == Some(r)
  {
    TextRoundTrip(c, r);
  }

  // ---- Everything decoded is valid ----

  ghost predicate Idempotent(check: Str -> Option<Str>) {
    forall s :: check(s).Some? ==> check(check(s).value) == check(s)
  }

  /** A stored form passes its own check unchanged. */
  ghost predicate ChecksLaws(c: Checks) {
    && Idempotent(c.token) && Idempotent(c.version) && Idempotent(c.package) && Idempotent(c.path)
    && Idempotent(c.reference) && Idempotent(c.note)
  }

  lemma DecodedProfileIsValid(c: Checks, v: Json)
    requires ChecksLaws(c) && DecodeProfile(c, v).Some?
    ensures ValidProfile(c, DecodeProfile(c, v).value)
  {
    MadeProfileIsValid(c, k => Get(v, ProfileText, k));
  }

  lemma MadeProfileIsValid(c: Checks, get: ProfileKey -> Json)
    requires ChecksLaws(c) && ProfileFrom(c, get).Some?
    ensures ValidProfile(c, ProfileFrom(c, get).value)
  {
  }

  lemma DecodedRecordIsValid(c: Checks, v: Json)
    requires ChecksLaws(c) && DecodeRecord(c, v).Some?
    ensures ValidRecord(c, DecodeRecord(c, v).value)
  {
    MadeRecordIsValid(c, k => Get(v, RecordText, k));
  }

  lemma MadeRecordIsValid(c: Checks, get: RecordKey -> Json)
    requires ChecksLaws(c) && RecordFrom(c, get).Some?
    ensures ValidRecord(c, RecordFrom(c, get).value)
  {
  }

  lemma {:induction false} AllDecoded<T>(decode: Json -> Option<T>, items: seq<Json>)
    requires DecodeAll(decode, items).Some?
    ensures |DecodeAll(decode, items).value| == |items|
    ensures forall i :: 0 <= i < |items| ==> decode(items[i]) == Some(DecodeAll(decode, items).value[i])
    decreases |items|
  {
    if items != [] {
      AllDecoded(decode, items[1..]);
    }
  }

  /** What the decoder returns passes every check of the constructors, so encoding it again and decoding the
      result gives it back. */
  lemma DecodedIsValid(c: Checks, v: Json)
    requires ChecksLaws(c) && DecodePrimitive(c, v).Some?
    ensures ValidRegistry(c, DecodePrimitive(c, v).value)
    ensures DecodePrimitive(c, ToPrimitive(DecodePrimitive(c, v).value)) == DecodePrimitive(c, v)
  {
    var r := DecodePrimitive(c, v).value;
    RegistryIsMade(c, k => Get(v, RegistryText, k), r);
    MadeIsValid(c, k => Get(v, RegistryText, k), r);
    PrimitiveRoundTrip(c, r);
  }

  lemma MadeIsValid(c: Checks, get: RegistryKey -> Json, r: BackendRegistry)
    requires ChecksLaws(c) && MadeFrom(c, get, r)
    ensures ValidRegistry(c, r)
  {
    var profiles, records := get(ProfilesKey).items, get(RecordsKey).items;
    AllDecoded(w => DecodeProfile(c, w), profiles);
    AllDecoded(w => DecodeRecord(c, w), records);
    forall i | 0 <= i < |r.profiles|
      ensures ValidProfile(c, r.profiles[i])
    {
      DecodedProfileIsValid(c, profiles[i]);
    }
    forall i | 0 <= i < |r.records|
      ensures ValidRecord(c, r.records[i])
    {
      DecodedRecordIsValid(c, records[i]);
    }
    MadeRegistryIsExact(c, get(RegistryVersionKey), r.profiles, r.records, get(RegistryDigestKey), r);
  }

  // ---- The decoder accepts nothing else ----

  /** A string member with its stored form in its place; anything the check does not accept is left alone. */
  function StoredText(check: Str -> Option<Str>, v: Json): Json {
    if Checked(check, v).Some? then String(Checked(check, v).value) else v
  }

  function StoredProfileValue(c: Checks, k: ProfileKey, v: Json): Json {
    if k == ProfileIdKey || k == ProtocolKey || k == BinNameKey || k == RuntimeKey then StoredText(c.token, v)
    else if k == PackageNameKey then StoredText(c.package, v)
    else if k == EntrypointKey then StoredText(c.path, v)
    else v
  }

  function StoredRecordValue(c: Checks, k: RecordKey, v: Json): Json {
    if k == BackendVersionKey then StoredText(c.version, v)
    else if k == ProtocolProfileKey then StoredText(c.token, v)
    else if k == ReviewReferenceKey then StoredText(c.reference, v)
    else if k == NoteKey then StoredText(c.note, v)
    else v
  }

  function StoredProfile(c: Checks, v: Json): Json {
    if HasKeys(v, PROFILE_KEYS, ProfileText)
    then ProfileObject(k => StoredProfileValue(c, k, Get(v, ProfileText, k)))
    else v
  }

  function StoredRecord(c: Checks, v: Json): Json {
    if HasKeys(v, RECORD_KEYS, RecordText)
    then RecordObject(k => StoredRecordValue(c, k, Get(v, RecordText, k)))
    else v
  }

  function StoredItems(stored: Json -> Json, v: Json): Json {
    if v.Array? then Array(seq(|v.items|, i requires 0 <= i < |v.items| => stored(v.items[i]))) else v
  }

  function StoredRegistryValue(c: Checks, k: RegistryKey, v: Json): Json {
    match k
    case ProfilesKey => StoredItems(w => StoredProfile(c, w), v)
    case RecordsKey => StoredItems(w => StoredRecord(c, w), v)
    case _ => v
  }

  /** A value in the shape of a registry with every checked string replaced by its stored form. */
  function StoredForm(c: Checks, v: Json): Json {
    if HasKeys(v, REGISTRY_KEYS, RegistryText)
    then RegistryObject(k => StoredRegistryValue(c, k, Get(v, RegistryText, k)))
    else v
  }

  lemma EnumsEncode(v: Json)
    ensures ProviderOf(v).Some? ==> v == String(ProviderText(ProviderOf(v).value))
    ensures PlatformOf(v).Some? ==> v == String(PlatformText(PlatformOf(v).value))
    ensures StatusOf(v).Some? ==> v == String(StatusText(StatusOf(v).value))
    ensures AdapterOf(v).Some? ==> v == String(AdapterText(AdapterOf(v).value))
  {
  }

  lemma SameObject<K(!new)>(keys: set<K>, text: K -> Str, value: K -> Json, other: K -> Json)
    requires DistinctTexts(keys, text) && forall k: K :: k in keys
    ensures ObjectOf(keys, text, value) == ObjectOf(keys, text, other) <==> Agree(value, other)
  {
    var v, o := ObjectOf(keys, text, value), ObjectOf(keys, text, other);
    forall k: K
      ensures v.members[text(k)] == value(k) && o.members[text(k)] == other(k)
    {
      assert k in keys;
    }
    if Agree(value, other) {
      assert v.members == o.members;
    }
  }

  /** A check that accepts `s` as it is accepts exactly the values whose stored form is `s`. */
  lemma StoredIsChecked(check: Str -> Option<Str>, v: Json, s: Str)
    requires check(s) == Some(s)
    ensures Checked(check, v) == Some(s) <==> StoredText(check, v) == String(s)
  {
  }

  lemma ProfileFieldsPass(c: Checks, p: Profile)
    requires ValidProfile(c, p)
    ensures p.schemaVersion == 1 && p.versionProbe == Lit("npm-package-json-v1")
    ensures p.runtime == Lit("bun") || p.runtime == Lit("node")
    ensures c.token(p.profileId) == Some(p.profileId) && c.token(p.protocol) == Some(p.protocol)
    ensures c.token(p.binName) == Some(p.binName) && c.token(p.runtime) == Some(p.runtime)
    ensures c.package(p.packageName) == Some(p.packageName) && c.path(p.entrypoint) == Some(p.entrypoint)
  {
  }

  /** What the members must be to decode to a valid profile. */
  ghost predicate ProfileReads(c: Checks, get: ProfileKey -> Json, p: Profile) {
    && HasKeptProfile(get, p)
    && Checked(c.token, get(ProfileIdKey)) == Some(p.profileId)
       && Checked(c.token, get(ProtocolKey)) == Some(p.protocol)
    && Checked(c.token, get(BinNameKey)) == Some(p.binName) && Checked(c.token, get(RuntimeKey)) == Some(p.runtime)
    && Checked(c.package, get(PackageNameKey)) == Some(p.packageName)
    && Checked(c.path, get(EntrypointKey)) == Some(p.entrypoint)
  }

  lemma ProfileIsRead(c: Checks, get: ProfileKey -> Json, p: Profile)
    requires ValidProfile(c, p)
    ensures ProfileFrom(c, get) == Some(p) <==> ProfileReads(c, get, p)
  {
    EnumsEncode(get(ProfileProviderKey));
    EnumsEncode(get(AdapterKey));
    EnumsDecode(p.provider, Linux, Candidate, p.adapter);
    ProfileFieldsPass(c, p);
  }

  lemma KeptProfileIsKept(c: Checks, get: ProfileKey -> Json, p: Profile)
    ensures HasKeptProfile(get, p) <==> HasKeptProfile(k => StoredProfileValue(c, k, get(k)), p)
  {
  }

  lemma ProfileIsStored(c: Checks, get: ProfileKey -> Json, p: Profile)
    requires ValidProfile(c, p)
    ensures ProfileReads(c, get, p) <==> HasProfile(k => StoredProfileValue(c, k, get(k)), p)
  {
    ProfileFieldsPass(c, p);
    ProfileFieldsAreStored(c, get, p);
  }

  lemma ProfileFieldsAreStored(c: Checks, get: ProfileKey -> Json, p: Profile)
    requires c.token(p.profileId) == Some(p.profileId) && c.token(p.protocol) == Some(p.protocol)
    requires c.token(p.binName) == Some(p.binName) && c.token(p.runtime) == Some(p.runtime)
    requires c.package(p.packageName) == Some(p.packageName) && c.path(p.entrypoint) == Some(p.entrypoint)
    ensures ProfileReads(c, get, p) <==> HasProfile(k => StoredProfileValue(c, k, get(k)), p)
  {
    KeptProfileIsKept(c, get, p);
    StoredIsChecked(c.token, get(ProfileIdKey), p.profileId);
    StoredIsChecked(c.token, get(ProtocolKey), p.protocol);
    StoredIsChecked(c.token, get(BinNameKey), p.binName);
    StoredIsChecked(c.token, get(RuntimeKey), p.runtime);
    StoredIsChecked(c.package, get(PackageNameKey), p.packageName);
    StoredIsChecked(c.path, get(EntrypointKey), p.entrypoint);
  }

  lemma StoredProfileMembers(c: Checks, v: Json, p: Profile)
    requires HasKeys(v, PROFILE_KEYS, ProfileText)
    ensures StoredProfile(c, v) == ProfilePrimitive(p)
            <==> HasProfile(k => StoredProfileValue(c, k, Get(v, ProfileText, k)), p)
  {
    var stored := k => StoredProfileValue(c, k, Get(v, ProfileText, k));
    forall k: ProfileKey
      ensures k in PROFILE_KEYS
    {
      AllProfileKeys(k);
    }
    ProfileTextsAreDistinct();
    ProfileMembers(stored, p);
    SameObject(PROFILE_KEYS, ProfileText, stored, k => ProfileValue(p, k));
  }

  lemma DecodedProfileIsStored(c: Checks, v: Json, p: Profile)
    requires ValidProfile(c, p)
    ensures DecodeProfile(c, v) == Some(p) <==> StoredProfile(c, v) == ProfilePrimitive(p)
  {
    if HasKeys(v, PROFILE_KEYS, ProfileText) {
      var get := k => Get(v, ProfileText, k);
      ProfileIsRead(c, get, p);
      ProfileIsStored(c, get, p);
      StoredProfileMembers(c, v, p);
    }
  }

  lemma RecordFieldsPass(c: Checks, r: Record)
    requires ValidRecord(c, r)
    ensures c.version(r.backendVersion) == Some(r.backendVersion)
            && c.token(r.protocolProfile) == Some(r.protocolProfile)
    ensures c.digest(r.launchProfileDigest) && c.sha1(r.packageShasum) && c.integrity(r.packageIntegrity)
    ensures r.evidenceDigest.Some? ==> c.digest(r.evidenceDigest.value)
    ensures r.publicationReceiptDigest.Some? ==> c.digest(r.publicationReceiptDigest.value)
    ensures r.reviewReference.Some? ==> c.reference(r.reviewReference.value) == r.reviewReference
    ensures c.note(r.note) == Some(r.note) && 0 <= r.maxConcurrency <= MAX_CONCURRENT_TURNS && StatusRules(r)
  {
  }

  /** What the members must be to decode to a valid record. */
  ghost predicate RecordReads(c: Checks, get: RecordKey -> Json, r: Record) {
    && HasKeptRecord(get, r)
    && Checked(c.version, get(BackendVersionKey)) == Some(r.backendVersion)
    && Checked(c.token, get(ProtocolProfileKey)) == Some(r.protocolProfile)
    && (if r.reviewReference.None? then get(ReviewReferenceKey).Null?
        else Checked(c.reference, get(ReviewReferenceKey)) == r.reviewReference)
    && Checked(c.note, get(NoteKey)) == Some(r.note)
  }

  lemma RecordReadBack(c: Checks, get: RecordKey -> Json, r: Record)
    requires ValidRecord(c, r) && RecordReads(c, get, r)
    ensures RecordFrom(c, get) == Some(r)
  {
    EnumsDecode(r.provider, r.platform, r.status, JsonlRpc);
    RecordFieldsPass(c, r);
  }

  /** A record is made of the values it was given, in stored form. */
  lemma MadeRecordReads(c: Checks, provider: Provider, platform: Platform, backendVersion: Json, protocolProfile: Json,
                        launchProfileDigest: Json, packageShasum: Json, packageIntegrity: Json, status: Status,
                        maxConcurrency: Json, evidenceDigest: Json, publicationReceiptDigest: Json,
                        reviewReference: Json, note: Json, r: Record)
    requires MakeRecord(c, provider, platform, backendVersion, protocolProfile, launchProfileDigest, packageShasum,
                        packageIntegrity, status, maxConcurrency, evidenceDigest, publicationReceiptDigest,
                        reviewReference,
                        note) == Some(r)
    ensures provider == r.provider && platform == r.platform && status == r.status
    ensures Checked(c.version, backendVersion) == Some(r.backendVersion)
    ensures Checked(c.token, protocolProfile) == Some(r.protocolProfile)
    ensures launchProfileDigest == String(r.launchProfileDigest) && packageShasum == String(r.packageShasum)
    ensures packageIntegrity == String(r.packageIntegrity) && maxConcurrency == Int(r.maxConcurrency)
    ensures evidenceDigest == OptionalText(r.evidenceDigest)
    ensures publicationReceiptDigest == OptionalText(r.publicationReceiptDigest)
    ensures if r.reviewReference.None? then reviewReference.Null?
            else Checked(c.reference, reviewReference) == r.reviewReference
    ensures Checked(c.note, note) == Some(r.note)
  {
  }

  lemma RecordIsRead(c: Checks, get: RecordKey -> Json, r: Record)
    requires ValidRecord(c, r)
    ensures RecordFrom(c, get) == Some(r) <==> RecordReads(c, get, r)
  {
    if RecordReads(c, get, r) {
      RecordReadBack(c, get, r);
    } else if RecordFrom(c, get) == Some(r) {
      EnumsEncode(get(RecordProviderKey));
      EnumsEncode(get(PlatformKey));
      EnumsEncode(get(StatusKey));
      MadeRecordReads(c, ProviderOf(get(RecordProviderKey)).value, PlatformOf(get(PlatformKey)).value,
                      get(BackendVersionKey),
                      get(ProtocolProfileKey), get(LaunchProfileDigestKey), get(NpmShasumKey), get(NpmIntegrityKey),
                      StatusOf(get(StatusKey)).value, get(MaxConcurrencyKey), get(EvidenceDigestKey),
                      get(PublicationReceiptKey), get(ReviewReferenceKey), get(NoteKey), r);
    }
  }

  lemma ReviewIsStored(c: Checks, v: Json, s: Option<Str>)
    requires s.Some? ==> c.reference(s.value) == s
    ensures (if s.None? then v.Null? else Checked(c.reference, v) == s) <==>
              StoredText(c.reference, v) == OptionalText(s)
  {
    if s.Some? {
      StoredIsChecked(c.reference, v, s.value);
    }
  }

  /** The members that are kept as they are, and the four that are stored. */
  ghost predicate StoresRecord(c: Checks, get: RecordKey -> Json, stored: RecordKey -> Json) {
    && (forall k :: k != BackendVersionKey && k != ProtocolProfileKey && k != ReviewReferenceKey && k != NoteKey
          ==> stored(k) == get(k))
    && stored(BackendVersionKey) == StoredText(c.version, get(BackendVersionKey))
    && stored(ProtocolProfileKey) == StoredText(c.token, get(ProtocolProfileKey))
    && stored(ReviewReferenceKey) == StoredText(c.reference, get(ReviewReferenceKey))
    && stored(NoteKey) == StoredText(c.note, get(NoteKey))
  }

  lemma MembersAreStored(c: Checks, v: Json)
    ensures StoresRecord(c, k => Get(v, RecordText, k), k => StoredRecordValue(c, k, Get(v, RecordText, k)))
  {
    var get, stored := k => Get(v, RecordText, k), k => StoredRecordValue(c, k, Get(v, RecordText, k));
    forall k | k != BackendVersionKey && k != ProtocolProfileKey && k != ReviewReferenceKey && k != NoteKey
      ensures stored(k) == get(k)
    {
    }
  }

  lemma RecordIsStored(c: Checks, v: Json, r: Record)
    requires ValidRecord(c, r)
    ensures RecordReads(c, k => Get(v, RecordText, k), r)
            <==> HasRecord(k => StoredRecordValue(c, k, Get(v, RecordText, k)), r)
  {
    RecordFieldsPass(c, r);
    MembersAreStored(c, v);
    FieldsAreStored(c, k => Get(v, RecordText, k), k => StoredRecordValue(c, k, Get(v, RecordText, k)), r);
  }

  lemma KeptAreKept(c: Checks, get: RecordKey -> Json, stored: RecordKey -> Json, r: Record)
    requires StoresRecord(c, get, stored)
    ensures HasKeptRecord(get, r) <==> HasKeptRecord(stored, r)
  {
  }

  lemma FieldsAreStored(c: Checks, get: RecordKey -> Json, stored: RecordKey -> Json, r: Record)
    requires StoresRecord(c, get, stored)
    requires c.version(r.backendVersion) == Some(r.backendVersion)
             && c.token(r.protocolProfile) == Some(r.protocolProfile)
    requires r.reviewReference.Some? ==> c.reference(r.reviewReference.value) == r.reviewReference
    requires c.note(r.note) == Some(r.note)
    ensures RecordReads(c, get, r) <==> HasRecord(stored, r)
  {
    KeptAreKept(c, get, stored, r);
    StoredIsChecked(c.version, get(BackendVersionKey), r.backendVersion);
    StoredIsChecked(c.token, get(ProtocolProfileKey), r.protocolProfile);
    StoredIsChecked(c.note, get(NoteKey), r.note);
    ReviewIsStored(c, get(ReviewReferenceKey), r.reviewReference);
  }

  lemma RecordMembersAgree(get: RecordKey -> Json, r: Record)
    requires HasRecord(get, r)
    ensures Agree(get, k => RecordValue(r, k))
  {
    forall k
      ensures get(k) == RecordValue(r, k)
    {
      RecordMembersListed(get, r, k);
    }
  }

  lemma RecordMembers(get: RecordKey -> Json, r: Record)
    ensures HasRecord(get, r) <==> Agree(get, k => RecordValue(r, k))
  {
    if HasRecord(get, r) {
      RecordMembersAgree(get, r);
    } else if Agree(get, k => RecordValue(r, k)) {
      RecordMembersRead(get, r);
    }
  }

  lemma StoredRecordMembers(c: Checks, v: Json, r: Record)
    requires HasKeys(v, RECORD_KEYS, RecordText)
    ensures StoredRecord(c, v) == RecordPrimitive(r)
            <==> HasRecord(k => StoredRecordValue(c, k, Get(v, RecordText, k)), r)
  {
    var stored := k => StoredRecordValue(c, k, Get(v, RecordText, k));
    forall k: RecordKey
      ensures k in RECORD_KEYS
    {
      AllRecordKeys(k);
    }
    RecordTextsAreDistinct();
    RecordMembers(stored, r);
    SameObject(RECORD_KEYS, RecordText, stored, k => RecordValue(r, k));
  }

  lemma DecodedRecordIsStored(c: Checks, v: Json, r: Record)
    requires ValidRecord(c, r)
    ensures DecodeRecord(c, v) == Some(r) <==> StoredRecord(c, v) == RecordPrimitive(r)
  {
    if HasKeys(v, RECORD_KEYS, RecordText) {
      RecordIsRead(c, k => Get(v, RecordText, k), r);
      RecordIsStored(c, v, r);
      StoredRecordMembers(c, v, r);
    }
  }

  /** Item by item, decoding and taking the stored form say the same. */
  lemma DecodedItemsAreStored<T>(decode: Json -> Option<T>, stored: Json -> Json, v: Json, xs: seq<T>,
                                 encoded: seq<Json>)
    requires v.Array? && |encoded| == |xs|
    requires forall w: Json, i :: 0 <= i < |xs| ==> (decode(w) == Some(xs[i]) <==> stored(w) == encoded[i])
    ensures DecodeAll(decode, v.items) == Some(xs) <==> StoredItems(stored, v) == Array(encoded)
  {
    if DecodeAll(decode, v.items) == Some(xs) {
      AllDecoded(decode, v.items);
      assert StoredItems(stored, v).items == encoded;
    }
    if StoredItems(stored, v) == Array(encoded) {
      forall i | 0 <= i < |xs|
        ensures decode(v.items[i]) == Some(xs[i])
      {
        assert StoredItems(stored, v).items[i] == stored(v.items[i]);
      }
      AllRoundTrip(decode, v.items, xs);
    }
  }

  lemma ProfilesAreStored(c: Checks, v: Json, ps: seq<Profile>)
    requires v.Array? && forall i :: 0 <= i < |ps| ==> ValidProfile(c, ps[i])
    ensures DecodeAll(w => DecodeProfile(c, w), v.items) == Some(ps)
            <==> StoredItems(w => StoredProfile(c, w), v) == Array(ProfilePrimitives(ps))
  {
    var decode, stored := w => DecodeProfile(c, w), w => StoredProfile(c, w);
    forall w: Json, i | 0 <= i < |ps|
      ensures decode(w) == Some(ps[i]) <==> stored(w) == ProfilePrimitives(ps)[i]
    {
      DecodedProfileIsStored(c, w, ps[i]);
    }
    DecodedItemsAreStored(decode, stored, v, ps, ProfilePrimitives(ps));
  }

  lemma RecordsAreStored(c: Checks, v: Json, rs: seq<Record>)
    requires v.Array? && forall i :: 0 <= i < |rs| ==> ValidRecord(c, rs[i])
    ensures DecodeAll(w => DecodeRecord(c, w), v.items) == Some(rs)
            <==> StoredItems(w => StoredRecord(c, w), v) == Array(RecordPrimitives(rs))
  {
    var decode, stored := w => DecodeRecord(c, w), w => StoredRecord(c, w);
    forall w: Json, i | 0 <= i < |rs|
      ensures decode(w) == Some(rs[i]) <==> stored(w) == RecordPrimitives(rs)[i]
    {
      DecodedRecordIsStored(c, w, rs[i]);
    }
    DecodedItemsAreStored(decode, stored, v, rs, RecordPrimitives(rs));
  }

  lemma MadeRegistryIsExact(c: Checks, schemaVersion: Json, ps: seq<Profile>, rs: seq<Record>, digest: Json,
                            r: BackendRegistry)
    requires MakeRegistry(c, schemaVersion, ps, rs, digest) == Some(r)
    ensures schemaVersion == Int(r.schemaVersion) && digest == String(r.registryDigest) && ps == r.profiles
            && rs == r.records
  {
  }

  lemma RegistryIsStored(c: Checks, get: RegistryKey -> Json, r: BackendRegistry)
    requires ValidRegistry(c, r)
    ensures MadeFrom(c, get, r)
            <==> HasRegistry(k => StoredRegistryValue(c, k, get(k)), r.schemaVersion, ProfilePrimitives(r.profiles),
                             RecordPrimitives(r.records), r.registryDigest)
  {
    if get(ProfilesKey).Array? && get(RecordsKey).Array? {
      ProfilesAreStored(c, get(ProfilesKey), r.profiles);
      RecordsAreStored(c, get(RecordsKey), r.records);
    }
    if MadeFrom(c, get, r) {
      MadeRegistryIsExact(c, get(RegistryVersionKey), r.profiles, r.records, get(RegistryDigestKey), r);
    }
    MadeRegistryIsExact(c, Int(r.schemaVersion), r.profiles, r.records, String(r.registryDigest), r);
  }

  lemma StoredRegistryMembers(c: Checks, v: Json, r: BackendRegistry)
    requires HasKeys(v, REGISTRY_KEYS, RegistryText)
    ensures StoredForm(c, v) == ToPrimitive(r)
            <==> HasRegistry(k => StoredRegistryValue(c, k, Get(v, RegistryText, k)), r.schemaVersion,
                             ProfilePrimitives(r.profiles), RecordPrimitives(r.records), r.registryDigest)
  {
    var ps, rs := ProfilePrimitives(r.profiles), RecordPrimitives(r.records);
    var stored := k => StoredRegistryValue(c, k, Get(v, RegistryText, k));
    forall k: RegistryKey
      ensures k in REGISTRY_KEYS
    {
      AllRegistryKeys(k);
    }
    RegistryTextsAreDistinct();
    RegistryMembers(stored, r.schemaVersion, ps, rs, r.registryDigest);
    SameObject(REGISTRY_KEYS, RegistryText, stored, k => RegistryValue(r.schemaVersion, ps, rs, r.registryDigest, k));
  }

  /** The decoder accepts a value, and returns a registry, if and only if the registry is valid and is what the
      encoder turns into the value with its strings in stored form. */
  lemma DecoderIsExact(c: Checks, v: Json, r: BackendRegistry)
    requires ChecksLaws(c)
    ensures DecodePrimitive(c, v) == Some(r) <==> ValidRegistry(c, r) && StoredForm(c, v) == ToPrimitive(r)
  {
    if DecodePrimitive(c, v) == Some(r) {
      DecodedIsValid(c, v);
    }
    if ValidRegistry(c, r) {
      DecodedIsStored(c, v, r);
    }
  }

  lemma DecodedIsStored(c: Checks, v: Json, r: BackendRegistry)
    requires ValidRegistry(c, r)
    ensures DecodePrimitive(c, v) == Some(r) <==> StoredForm(c, v) == ToPrimitive(r)
  {
    if HasKeys(v, REGISTRY_KEYS, RegistryText) {
      var get := k => Get(v, RegistryText, k);
      RegistryIsMade(c, get, r);
      RegistryIsStored(c, get, r);
      StoredRegistryMembers(c, v, r);
    }
  }

  /** Two valid registries with the same canonical bytes are equal. */
  lemma BytesDetermineRegistry(c: Checks, r: BackendRegistry, s: BackendRegistry)
    requires ValidRegistry(c, r) && ValidRegistry(c, s)
             && CanonicalText(ToPrimitive(r)) == CanonicalText(ToPrimitive(s))
    ensures r == s
  {
    RegistryIsFloatFree(r);
    RegistryIsFloatFree(s);
    CanonicalTextIsInjective(ToPrimitive(r), ToPrimitive(s));
    PrimitiveRoundTrip(c, r);
    PrimitiveRoundTrip(c, s);
  }
}
