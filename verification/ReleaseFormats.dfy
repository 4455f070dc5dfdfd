/** What the release builder and its verifier share: JSON values, the file formats as abstract codecs,
    and the downloadable-runtime contract. */
module ReleaseFormats {
  import opened Names
  import opened Archive
  import opened Checksums
  import opened Wrappers

  datatype Json =
    | Null
    | Number(number: int)
    | Text(text: string)
    | List(items: seq<Json>)
    | Object(fields: map<string, Json>)

  /** value[key], which fails on anything but an object that has the key. */
  function Get(value: Json, key: string): Option<Json> {
    if value.Object? && key in value.fields then Some(value.fields[key]) else None
  }

  /** The jar of an AAR's classes. */
  const CLASSES := "classes.jar"

  /** The AAR entries that are native libraries. */
  predicate Native(name: string) {
    "jni/" <= name
  }

  /** A frozen library: its size and digest. */
  datatype Blob = Blob(byteSize: int, sha256: string)

  datatype Elf = Elf(elfClass: Json, machine: Json, soname: Json)

  datatype SourceAar = SourceAar(fileName: string, sha256: string, classesJarSha256: string, record: Json)

  datatype ApiAar = ApiAar(fileName: string, embeddedContractPath: string)

  datatype CpuAbi = CpuAbi(
    sourcePath: string, bundleFileName: string, blob: Blob, elf: Elf, dependenciesOverride: Option<Json>)

  datatype CpuCore = CpuCore(libraryName: string, systemDependencies: Json, abis: map<string, CpuAbi>)

  datatype GpuFile = GpuFile(
    sourcePath: string, path: string, blob: Blob, elf: Elf, needed: Json, runtimeLoads: Option<Json>)

  datatype BoundedGpu = BoundedGpu(
    abi: string, bundleFileName: string, requiredCoreSha256: Json, profile: Json, files: seq<GpuFile>)

  datatype Contract = Contract(
    schemaVersion: Json, releaseVersion: Json, releaseTag: string, runtimeArtifactVersion: Json,
    baseLiteRtVersion: Json, androidMinApi: Json,
    sourceAar: SourceAar, apiAar: ApiAar, cpuCore: CpuCore, boundedGpu: BoundedGpu)

  /** The contract of the bounded-GPU AAR; the capability is compared as a whole and two of its fields
      are searched for in the shim. */
  datatype RuntimeContract = RuntimeContract(
    coordinate: Json, baseLiteRtVersion: Json, capability: Json, artifactVersion: string, profileId: string,
    nativeMatrix: map<string, seq<string>>, removedOfficialComponents: seq<string>)

  /** The zip library, canonical JSON, SHA-256 and the contracts' JSON readers. */
  datatype Codec = Codec(
    zip: Members -> Bytes, unzip: Bytes -> Option<Members>,
    dump: Json -> Bytes, load: Bytes -> Option<Json>,
    sha: Bytes -> string, contract: Bytes -> Option<Contract>, runtime: Bytes -> Option<RuntimeContract>)

  predicate NamesNulFree(archive: Members) {
    forall i | 0 <= i < |archive| :: NulFree(archive[i].name)
  }

  /** What the formats promise: both decode what they encode, the zip library never presents a NUL in a
      name, and digests are hexadecimal. */
  ghost predicate Sound(codec: Codec) {
    && (forall a | NamesNulFree(a) :: codec.unzip(codec.zip(a)) == Some(a))
    && (forall b | codec.unzip(b).Some? :: NamesNulFree(codec.unzip(b).value))
    && (forall j :: codec.load(codec.dump(j)) == Some(j))
    && Hashes(codec.sha)
  }

  predicate Matches(codec: Codec, data: Bytes, blob: Blob) {
    |data| == blob.byteSize && codec.sha(data) == blob.sha256
  }

  /** write_archive */
  function WriteArchive(codec: Codec, entries: Entries): Option<Bytes> {
    match Archived(entries)
    case Some(members) => Some(codec.zip(members))
    case None => None
  }

  /** read_archive of the builder, which refuses duplicates. */
  function Load(codec: Codec, data: Bytes): Option<Entries> {
    match codec.unzip(data)
    case Some(members) => ReadArchive(members)
    case None => None
  }

  /** read_normalized_archive of the verifier. */
  function LoadNormalized(codec: Codec, data: Bytes): Option<Entries> {
    match codec.unzip(data)
    case Some(members) => ReadNormalized(members)
    case None => None
  }

  // ---------------------------------------------------------------- facts

  /** What was written reads back, through both readers, under normalised names. */
  lemma WrittenLoads(codec: Codec, entries: Entries)
    requires Sound(codec) && WriteArchive(codec, entries).Some?
    requires forall k | k in entries :: NulFree(k)
    ensures Archivable(entries)
    ensures LoadNormalized(codec, WriteArchive(codec, entries).value) == Some(Normalized(entries))
    ensures Load(codec, WriteArchive(codec, entries).value) == Some(Normalized(entries))
  {
    hide ValidateEntryName, Written, Normalized, ReadNormalized, ReadArchive, NulFree;
    var normalized := Normalized(entries);
    forall n | n in normalized ensures NulFree(n) {
      var k := NormalizedFrom(entries, n);
      NormalizingKeepsNulFree(k);
    }
    ReadsBackExactly(entries);
    WrittenNamesAreNulFree(normalized);
  }

  /** The zip library truncates names at NUL, so a loaded dictionary has none. */
  lemma LoadedNamesAreNulFree(codec: Codec, data: Bytes)
    requires Sound(codec) && Load(codec, data).Some?
    ensures forall k | k in Load(codec, data).value :: NulFree(k)
  {
    ReadNamesAreNulFree(codec.unzip(data).value);
  }

  /** A name without slashes and backslashes, other than "." and "..", is normal. */
  lemma SimpleNameIsNormal(name: string)
    requires name != "" && name != "." && name != ".." && '/' !in name && '\\' !in name
    ensures Normal(name)
  {
    SplitFirst(name, "");
    AcceptsExactlySafeNames(name);
    assert Significant([name]) == [name];
    assert name[0] in name;
  }

  lemma NormalBelow(directory: string, name: string)
    requires Normal(directory) && Normal(name) && '/' !in name
    ensures Normal(directory + "/" + name)
  {
    hide ValidateEntryName;
    NormalizationIsIdempotent(directory);
    NormalizationIsIdempotent(name);
    SplitFirst(name, "");
    var parts := Split(directory) + [name];
    JoinMore(Split(directory), name);
    SafeParts(parts);
  }

  lemma {:induction false} JoinMore(parts: seq<string>, name: string)
    requires parts != []
    ensures Join(parts + [name]) == Join(parts) + "/" + name
  {
    assert (parts + [name])[1..] == parts[1..] + [name];
    if |parts| > 1 { JoinMore(parts[1..], name); }
  }

  lemma SafeParts(parts: seq<string>)
    requires parts != []
    requires forall p | p in parts :: p != "" && p != "." && p != ".." && '/' !in p && '\\' !in p
    ensures Normal(Join(parts))
  {
    hide ValidateEntryName;
    RejoinedPath(parts);
    JoinedCharacters(parts, '\\');
    AcceptsExactlySafeNames(Join(parts));
  }

  lemma NativeByPrefix(name: string)
    ensures Native(name) <==> exists library :: name == "jni/" + library
  {
    if Native(name) { assert name == "jni/" + name[4..]; }
  }

  /** The name "./jni/x" is not native, but normalises into one that is. */
  lemma DotSlash()
    ensures ValidateEntryName("./jni/x") == Some("jni/x") && !Native("./jni/x") && Native("jni/x")
  {
    hide Split, Significant, ValidateEntryName;
    SplitFirst(".", "jni/x");
    SplitFirst("jni", "x");
    SplitFirst("x", "");
    assert "./jni/x" == "." + "/" + "jni/x" && "jni/x" == "jni" + "/" + "x";
    SignificantStep(".", ["jni"] + ["x"]);
    SignificantStep("jni", ["x"]);
    AllSignificant(["x"]);
    assert Components("./jni/x") == ["jni", "x"];
    JoinTwo("jni", "x");
    AcceptsExactlySafeNames("./jni/x");
    assert "./jni/x"[0] != "jni/"[0];
  }

  lemma JoinTwo(a: string, b: string)
    ensures Join([a, b]) == a + "/" + b
  {
    assert [a, b][1..] == [b];
  }

  /** An archive with one more member. */
  lemma OneMoreMember(codec: Codec, archive: Bytes, name: string, data: Bytes) returns (more: Bytes)
    requires Sound(codec) && Load(codec, archive).Some? && name !in Load(codec, archive).value
    requires NulFree(name) && name != "" && name[|name| - 1] != '/'
    ensures Load(codec, more) == Some(Load(codec, archive).value[name := data])
  {
    hide Hashes, Contents, Files;
    var members, member := codec.unzip(archive).value, Member(name, FIXED_ZIP_TIME, REGULAR_FILE, data);
    var all := members + [member];
    OneMoreFile(members, member);
    more := codec.zip(all);
    assert NamesNulFree(all);
  }
}
