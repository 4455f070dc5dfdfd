/** The builder of the downloadable runtime: one API AAR, one CPU bundle per ABI, one GPU bundle, the
    licences, the contract, the index and the checksum file. */
module BundleBuilder {
  import opened Names
  import opened Archive
  import opened Checksums
  import opened ReleaseFormats
  import opened Wrappers

  const OLD_CONTRACT_ENTRY := "META-INF/bss-litert/bounded-gpu-runtime-contract.json"
  const MANIFEST := "manifest.json"
  const CONTRACT_FILE := "downloadable-runtime-contract.json"
  const INDEX_FILE := "downloadable-runtime-index.json"
  const LICENSE_FILE := "LICENSE-LiteRT.txt"
  const NOTICE_FILE := "THIRD_PARTY_NOTICE-LiteRT.txt"

  /** An index record of one bundle. */
  datatype Record = Record(
    component: string, abi: string, fileName: string, byteSize: nat, sha256: string, manifestSha256: string)

  /** The output directory and the records so far. */
  datatype Output = Output(files: Entries, records: seq<Record>)

  // ---------------------------------------------------------------- manifests

  function CommonManifest(contract: Contract, component: string, abi: string): map<string, Json> {
    map[
      "schemaVersion" := Number(1),
      "contractSchemaVersion" := contract.schemaVersion,
      "releaseVersion" := contract.releaseVersion,
      "runtimeArtifactVersion" := contract.runtimeArtifactVersion,
      "baseLiteRtVersion" := contract.baseLiteRtVersion,
      "androidMinApi" := contract.androidMinApi,
      "component" := Text(component),
      "abi" := Text(abi),
      "sourceAar" := Object(map["fileName" := Text(contract.sourceAar.fileName),
                                "sha256" := Text(contract.sourceAar.sha256)])]
  }

  function FileManifest(path: string, blob: Blob, elf: Elf, needed: Json): map<string, Json> {
    map[
      "path" := Text(path),
      "byteSize" := Number(blob.byteSize),
      "sha256" := Text(blob.sha256),
      "elf" := Object(map["class" := elf.elfClass, "machine" := elf.machine,
                          "soname" := elf.soname, "needed" := needed])]
  }

  function CpuFileManifest(contract: Contract, metadata: CpuAbi): Json {
    var needed := if metadata.dependenciesOverride.Some? then metadata.dependenciesOverride.value
                  else contract.cpuCore.systemDependencies;
    Object(FileManifest(contract.cpuCore.libraryName, metadata.blob, metadata.elf, needed))
  }

  function CpuManifest(contract: Contract, abi: string, metadata: CpuAbi): Json {
    Object(CommonManifest(contract, "cpu-core", abi)
           ["capabilities" := List([Text("cpu")])]
           ["files" := List([CpuFileManifest(contract, metadata)])])
  }

  function GpuFileManifest(file: GpuFile): Json {
    var fields := FileManifest(file.path, file.blob, file.elf, file.needed);
    Object(if file.runtimeLoads.Some? then fields["runtimeLoads" := file.runtimeLoads.value] else fields)
  }

  function GpuManifest(contract: Contract): Json {
    var gpu := contract.boundedGpu;
    Object(CommonManifest(contract, "bounded-gpu", gpu.abi)
           ["capabilities" := List([Text("gpu-opencl-bounded-fp32")])]
           ["requiredCore" := Object(map["abi" := Text(gpu.abi), "librarySha256" := gpu.requiredCoreSha256])]
           ["profile" := gpu.profile]
           ["files" := List(seq(|gpu.files|, i requires 0 <= i < |gpu.files| => GpuFileManifest(gpu.files[i])))])
  }

  // ---------------------------------------------------------------- components

  /** The source entries the API AAR keeps, tested before any normalisation. */
  predicate KeptInApi(name: string) {
    !Native(name) && name != OLD_CONTRACT_ENTRY
  }

  function ApiEntries(source: Entries, contract: Contract, contractBytes: Bytes): Entries {
    (map n | n in source && KeptInApi(n) :: source[n])[contract.apiAar.embeddedContractPath := contractBytes]
  }

  function ApiComponent(codec: Codec, source: Entries, contract: Contract, contractBytes: Bytes): Option<Bytes> {
    if CLASSES !in source || codec.sha(source[CLASSES]) != contract.sourceAar.classesJarSha256 then None
    else WriteArchive(codec, ApiEntries(source, contract, contractBytes))
  }

  /** The library at a path of the source AAR, if it is the frozen one. */
  function RequireBlob(codec: Codec, source: Entries, path: string, blob: Blob): Option<Bytes> {
    if path in source && Matches(codec, source[path], blob) then Some(source[path]) else None
  }

  function RecordOf(codec: Codec, component: string, abi: string, name: string, bundle: Bytes, manifest: Bytes): Record {
    Record(component, abi, name, |bundle|, codec.sha(bundle), codec.sha(manifest))
  }

  function CpuBundle(codec: Codec, source: Entries, contract: Contract, abi: string): Option<(Bytes, Record)>
    requires abi in contract.cpuCore.abis
  {
    var metadata := contract.cpuCore.abis[abi];
    match RequireBlob(codec, source, metadata.sourcePath, metadata.blob)
    case None => None
    case Some(library) =>
      var manifest := codec.dump(CpuManifest(contract, abi, metadata));
      match WriteArchive(codec, map[MANIFEST := manifest, contract.cpuCore.libraryName := library])
      case None => None
      case Some(bundle) =>
        Some((bundle, RecordOf(codec, "cpu-core", abi, metadata.bundleFileName, bundle, manifest)))
  }

  /** The bundles of the given ABIs, added to an output. */
  function CpuBundles(codec: Codec, source: Entries, contract: Contract, abis: seq<string>, output: Output): Option<Output>
    requires forall a | a in abis :: a in contract.cpuCore.abis
  {
    if abis == [] then Some(output)
    else
      var abi := abis[|abis| - 1];
      match (CpuBundles(codec, source, contract, abis[..|abis| - 1], output), CpuBundle(codec, source, contract, abi))
      case (Some(before), Some((bundle, record))) =>
        Some(Output(before.files[contract.cpuCore.abis[abi].bundleFileName := bundle], before.records + [record]))
      case _ => None
  }

  /** The libraries of the GPU bundle by their paths in it. */
  function GpuLibraries(codec: Codec, source: Entries, files: seq<GpuFile>): Option<Entries> {
    if files == [] then Some(map[])
    else
      var file := files[|files| - 1];
      match (GpuLibraries(codec, source, files[..|files| - 1]), RequireBlob(codec, source, file.sourcePath, file.blob))
      case (Some(before), Some(library)) => Some(before[file.path := library])
      case _ => None
  }

  function GpuBundle(codec: Codec, source: Entries, contract: Contract): Option<(Bytes, Record)> {
    var gpu := contract.boundedGpu;
    match GpuLibraries(codec, source, gpu.files)
    case None => None
    case Some(libraries) =>
      var manifest := codec.dump(GpuManifest(contract));
      match WriteArchive(codec, libraries[MANIFEST := manifest])
      case None => None
      case Some(bundle) =>
        Some((bundle, RecordOf(codec, "bounded-gpu", gpu.abi, gpu.bundleFileName, bundle, manifest)))
  }

  // ---------------------------------------------------------------- the index

  function BaseUrl(contract: Contract): string {
    "https://github.com/WluhWluh/bss-litert-android/releases/download/" + contract.releaseTag
  }

  function RecordJson(contract: Contract, record: Record): Json {
    Object(map[
      "component" := Text(record.component),
      "abi" := Text(record.abi),
      "fileName" := Text(record.fileName),
      "byteSize" := Number(record.byteSize),
      "sha256" := Text(record.sha256),
      "manifestSha256" := Text(record.manifestSha256),
      "downloadUrl" := Text(BaseUrl(contract) + "/" + record.fileName)])
  }

  function RecordsJson(contract: Contract, records: seq<Record>): seq<Json> {
    seq(|records|, i requires 0 <= i < |records| => RecordJson(contract, records[i]))
  }

  /** Insertion into a list sorted by file name; equal names keep their order. */
  function Insert(record: Record, sorted: seq<Record>): seq<Record> {
    if sorted == [] then [record]
    else if Less(record.fileName, sorted[|sorted| - 1].fileName)
    then Insert(record, sorted[..|sorted| - 1]) + [sorted[|sorted| - 1]]
    else sorted + [record]
  }

  function SortedRecords(records: seq<Record>): seq<Record> {
    if records == [] then []
    else Insert(records[|records| - 1], SortedRecords(records[..|records| - 1]))
  }

  function Index(codec: Codec, contract: Contract, api: Bytes, records: seq<Record>): Json {
    var name := contract.apiAar.fileName;
    Object(map[
      "schemaVersion" := Number(1),
      "contractSchemaVersion" := contract.schemaVersion,
      "releaseVersion" := contract.releaseVersion,
      "releaseTag" := Text(contract.releaseTag),
      "runtimeArtifactVersion" := contract.runtimeArtifactVersion,
      "sourceAar" := contract.sourceAar.record,
      "apiAar" := Object(map[
        "fileName" := Text(name),
        "byteSize" := Number(|api|),
        "sha256" := Text(codec.sha(api)),
        "downloadUrl" := Text(BaseUrl(contract) + "/" + name)]),
      "bundles" := List(RecordsJson(contract, SortedRecords(records)))])
  }

  // ---------------------------------------------------------------- the release

  /** Everything but the checksum file. */
  function ReleaseFiles(codec: Codec, source: Entries, contract: Contract, contractBytes: Bytes): Option<Entries> {
    match ApiComponent(codec, source, contract, contractBytes)
    case None => None
    case Some(api) =>
      var start := Output(map[contract.apiAar.fileName := api], []);
      match (CpuBundles(codec, source, contract, SortedKeys(contract.cpuCore.abis.Keys), start),
             GpuBundle(codec, source, contract))
      case (Some(cpu), Some((gpu, record))) =>
        if "LICENSE" !in source || "THIRD_PARTY_NOTICE.txt" !in source then None
        else
          Some(cpu.files
               [contract.boundedGpu.bundleFileName := gpu]
               [LICENSE_FILE := source["LICENSE"]]
               [NOTICE_FILE := source["THIRD_PARTY_NOTICE.txt"]]
               [CONTRACT_FILE := contractBytes]
               [INDEX_FILE := codec.dump(Index(codec, contract, api, cpu.records + [record]))])
      case _ => None
  }

  function Release(codec: Codec, sourceBytes: Bytes, contractBytes: Bytes): Option<Entries> {
    match (codec.contract(contractBytes), Load(codec, sourceBytes))
    case (Some(contract), Some(source)) =>
      (match ReleaseFiles(codec, source, contract, contractBytes)
       case None => None
       case Some(files) =>
         (match WriteChecksums(codec.sha, files)
          case None => None
          case Some(sums) => Some(files[CHECKSUM_FILE := sums])))
    case _ => None
  }

  // ---------------------------------------------------------------- the loops

  /** build_cpu_bundles */
  method BuildCpuBundles(codec: Codec, source: Entries, contract: Contract, output: Entries)
    returns (r: Option<Output>)
    ensures r == CpuBundles(codec, source, contract, SortedKeys(contract.cpuCore.abis.Keys), Output(output, []))
  {
    hide CpuBundle, SortedKeys;
    var abis := SortedKeys(contract.cpuCore.abis.Keys);
    var files, records := output, [];
    for i := 0 to |abis|
      invariant CpuBundles(codec, source, contract, abis[..i], Output(output, [])) == Some(Output(files, records))
    {
      assert abis[..i + 1][..i] == abis[..i] && abis[i] in abis;
      var built := CpuBundle(codec, source, contract, abis[i]);
      if built == None {
        CpuBundlesStayNone(codec, source, contract, abis, i + 1, Output(output, []));
        return None;
      }
      files := files[contract.cpuCore.abis[abis[i]].bundleFileName := built.value.0];
      records := records + [built.value.1];
    }
    assert abis[..|abis|] == abis;
    return Some(Output(files, records));
  }

  lemma {:induction false} CpuBundlesStayNone(
    codec: Codec, source: Entries, contract: Contract, abis: seq<string>, i: nat, output: Output)
    requires forall a | a in abis :: a in contract.cpuCore.abis
    requires i <= |abis| && CpuBundles(codec, source, contract, abis[..i], output) == None
    ensures CpuBundles(codec, source, contract, abis, output) == None
    decreases |abis|
  {
    hide CpuBundle;
    if i < |abis| {
      assert abis[..|abis| - 1][..i] == abis[..i];
      CpuBundlesStayNone(codec, source, contract, abis[..|abis| - 1], i, output);
    } else {
      assert abis[..i] == abis;
    }
  }

  /** The loop of build_gpu_bundle that collects the libraries. */
  method CollectGpuLibraries(codec: Codec, source: Entries, files: seq<GpuFile>) returns (r: Option<Entries>)
    ensures r == GpuLibraries(codec, source, files)
  {
    var entries: Entries := map[];
    for i := 0 to |files|
      invariant GpuLibraries(codec, source, files[..i]) == Some(entries)
    {
      assert files[..i + 1][..i] == files[..i];
      var library := RequireBlob(codec, source, files[i].sourcePath, files[i].blob);
      if library == None {
        GpuLibrariesStayNone(codec, source, files, i + 1);
        return None;
      }
      entries := entries[files[i].path := library.value];
    }
    assert files[..|files|] == files;
    return Some(entries);
  }

  /** build_gpu_bundle */
  method BuildGpuBundle(codec: Codec, source: Entries, contract: Contract) returns (r: Option<(Bytes, Record)>)
    ensures r == GpuBundle(codec, source, contract)
  {
    hide WriteArchive, GpuManifest, GpuLibraries;
    var gpu := contract.boundedGpu;
    var libraries := CollectGpuLibraries(codec, source, gpu.files);
    if libraries == None {
      return None;
    }
    var manifest := codec.dump(GpuManifest(contract));
    var bundle := WriteArchive(codec, libraries.value[MANIFEST := manifest]);
    if bundle == None {
      return None;
    }
    return Some((bundle.value, RecordOf(codec, "bounded-gpu", gpu.abi, gpu.bundleFileName, bundle.value, manifest)));
  }

  lemma {:induction false} GpuLibrariesStayNone(codec: Codec, source: Entries, files: seq<GpuFile>, i: nat)
    requires i <= |files| && GpuLibraries(codec, source, files[..i]) == None
    ensures GpuLibraries(codec, source, files) == None
    decreases |files|
  {
    if i < |files| {
      assert files[..|files| - 1][..i] == files[..i];
      GpuLibrariesStayNone(codec, source, files[..|files| - 1], i);
    } else {
      assert files[..i] == files;
    }
  }

  /** build_release: the steps in their order, each writing one file. */
  method BuildRelease(codec: Codec, sourceBytes: Bytes, contractBytes: Bytes) returns (r: Option<Entries>)
    ensures r == Release(codec, sourceBytes, contractBytes)
  {
    hide CpuBundles, GpuBundle, ApiComponent, Index, SortedKeys;
    var contract, source := codec.contract(contractBytes), Load(codec, sourceBytes);
    if contract == None || source == None {
      return None;
    }
    var api := ApiComponent(codec, source.value, contract.value, contractBytes);
    if api == None {
      return None;
    }
    var files: Entries := map[contract.value.apiAar.fileName := api.value];
    var cpu := BuildCpuBundles(codec, source.value, contract.value, files);
    if cpu == None {
      return None;
    }
    var gpu := BuildGpuBundle(codec, source.value, contract.value);
    if gpu == None {
      return None;
    }
    files := cpu.value.files[contract.value.boundedGpu.bundleFileName := gpu.value.0];
    var records := cpu.value.records + [gpu.value.1];
    if "LICENSE" !in source.value || "THIRD_PARTY_NOTICE.txt" !in source.value {
      return None;
    }
    files := files[LICENSE_FILE := source.value["LICENSE"]];
    files := files[NOTICE_FILE := source.value["THIRD_PARTY_NOTICE.txt"]];
    files := files[CONTRACT_FILE := contractBytes];
    files := files[INDEX_FILE := codec.dump(Index(codec, contract.value, api.value, records))];
    var sums := WriteChecksums(codec.sha, files);
    if sums == None {
      return None;
    }
    return Some(files[CHECKSUM_FILE := sums.value]);
  }
}
