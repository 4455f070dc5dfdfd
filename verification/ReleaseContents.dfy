/** What the builder puts into a release: every file of the directory, what is in each component, and the
    index in file-name order. */
module ReleaseContents {
  import opened Names
  import opened Archive
  import opened Checksums
  import opened ReleaseFormats
  import opened BundleBuilder
  import opened BundleVerifier
  import opened Wrappers

  // ---------------------------------------------------------------- the order of the index

  /** The file names ascend strictly. */
  ghost predicate InNameOrder(records: seq<Record>) {
    forall i, j | 0 <= i < j < |records| :: Less(records[i].fileName, records[j].fileName)
  }

  /** No two records are of files of one name. */
  ghost predicate OwnNames(records: seq<Record>) {
    forall i, j | 0 <= i < j < |records| :: records[i].fileName != records[j].fileName
  }

  lemma {:induction false} InsertKeepsOrder(record: Record, sorted: seq<Record>)
    requires InNameOrder(sorted) && forall x | x in sorted :: x.fileName != record.fileName
    ensures InNameOrder(Insert(record, sorted)) && |Insert(record, sorted)| == |sorted| + 1
  {
    hide Less;
    if sorted != [] {
      var before, last := sorted[..|sorted| - 1], sorted[|sorted| - 1];
      LessIsTotal(record.fileName, last.fileName);
      if Less(record.fileName, last.fileName) {
        InsertKeepsOrder(record, before);
        InsertMembers(record, before);
        forall x | x in Insert(record, before) ensures Less(x.fileName, last.fileName) { }
      } else {
        forall x | x in before ensures Less(x.fileName, record.fileName) {
          LessIsTransitive(x.fileName, last.fileName, record.fileName);
        }
      }
    }
  }

  lemma {:induction false} RecordsAreOrdered(records: seq<Record>)
    requires OwnNames(records)
    ensures InNameOrder(SortedRecords(records)) && |SortedRecords(records)| == |records|
  {
    hide Insert;
    if records != [] {
      var before, last := records[..|records| - 1], records[|records| - 1];
      RecordsAreOrdered(before);
      SortedMembers(before);
      InsertKeepsOrder(last, SortedRecords(before));
    }
  }

  /** The records are those of the bundles of these ABIs, in their order. */
  lemma {:induction false} RecordsInTurn(
    codec: Codec, source: Entries, contract: Contract, abis: seq<string>, output: Output, i: nat)
    requires (forall a | a in abis :: a in contract.cpuCore.abis) && output.records == []
    requires CpuBundles(codec, source, contract, abis, output).Some?
    ensures var records := CpuBundles(codec, source, contract, abis, output).value.records;
            && |records| == |abis|
            && (i < |abis| ==> CpuBundle(codec, source, contract, abis[i]).Some?
                               && records[i] == CpuBundle(codec, source, contract, abis[i]).value.1)
    decreases |abis|
  {
    hide CpuBundles, CpuBundle;
    if abis == [] {
      NoBundles(codec, source, contract, output);
    } else {
      var before, last := abis[..|abis| - 1], abis[|abis| - 1];
      assert abis == before + [last] && last in abis;
      CpuBundlesStep(codec, source, contract, before, last, output);
      RecordsInTurn(codec, source, contract, before, output, i);
    }
  }

  lemma RecordsHaveOwnNames(codec: Codec, source: Entries, contract: Contract, contractBytes: Bytes, parts: Parts)
    requires PartsOf(codec, source, contract, contractBytes, parts) && DistinctOutputs(contract)
    ensures OwnNames(Records(parts)) && |Records(parts)| == |contract.cpuCore.abis| + 1
  {
    hide CpuBundles, CpuBundle, GpuBundle, ApiComponent, SortedKeys, OneLine, DistinctOutputs, Less, Describes;
    var abis, records := SortedKeys(contract.cpuCore.abis.Keys), Records(parts);
    var start := Output(map[contract.apiAar.fileName := parts.api], []);
    AscendingNames(abis);
    RecordsDescribe(codec, source, contract);
    RecordsInTurn(codec, source, contract, abis, start, 0);
    forall i | 0 <= i < |abis| ensures records[i].fileName == BundleName(contract, abis[i]) {
      RecordsInTurn(codec, source, contract, abis, start, i);
      DescribedName(codec, records[i], "cpu-core", abis[i], BundleName(contract, abis[i]),
                    CpuBundle(codec, source, contract, abis[i]).value.0);
    }
    DescribedName(codec, parts.gpuRecord, "bounded-gpu", contract.boundedGpu.abi, contract.boundedGpu.bundleFileName, parts.gpu);
    forall i, j | 0 <= i < j < |records| ensures records[i].fileName != records[j].fileName {
      if j < |abis| { DistinctBundles(contract, abis[i], abis[j]); } else { GpuNameIsOwn(contract, abis[i]); }
    }
    ListingSize(abis, contract.cpuCore.abis.Keys);
  }

  lemma DescribedName(codec: Codec, record: Record, component: string, abi: string, name: string, bundle: Bytes)
    requires Describes(codec, record, component, abi, name, bundle)
    ensures record.fileName == name
  {
  }

  lemma GpuNameIsOwn(contract: Contract, abi: string)
    requires DistinctOutputs(contract) && abi in contract.cpuCore.abis
    ensures BundleName(contract, abi) != contract.boundedGpu.bundleFileName
  {
  }

  lemma {:induction false} ListingSize(names: seq<string>, keys: set<string>)
    requires Distinct(names) && forall k :: k in names <==> k in keys
    ensures |names| == |keys|
  {
    if names == [] {
      assert keys == {};
    } else {
      var before, last := names[..|names| - 1], names[|names| - 1];
      assert names == before + [last] && last in names;
      forall k ensures k in before <==> k in keys - {last} {
        if k in before { assert k in names; }
      }
      ListingSize(before, keys - {last});
    }
  }

  // ---------------------------------------------------------------- what the components hold

  /** The entries of the API AAR: the contract, and every source entry that is neither native nor the packaged
      contract. */
  ghost predicate ApiKeeps(source: Entries, embedded: string, contractBytes: Bytes, entries: Entries) {
    && embedded in entries && entries[embedded] == contractBytes
    && forall n | n != embedded ::
         && (n in entries <==>
               n in source && n != "META-INF/bss-litert/bounded-gpu-runtime-contract.json"
               && !exists library :: n == "jni/" + library)
         && (n in entries ==> entries[n] == source[n])
  }

  lemma ApiEntriesKeep(source: Entries, contract: Contract, contractBytes: Bytes)
    ensures ApiKeeps(source, contract.apiAar.embeddedContractPath, contractBytes, ApiEntries(source, contract, contractBytes))
  {
    hide Native;
    forall n ensures Native(n) <==> exists library :: n == "jni/" + library { NativeByPrefix(n); }
  }

  /** The API AAR reads back as its entries under their normalised names. */
  ghost predicate ApiShipped(codec: Codec, source: Entries, contract: Contract, contractBytes: Bytes, aar: Bytes) {
    exists entries ::
      && ApiKeeps(source, contract.apiAar.embeddedContractPath, contractBytes, entries)
      && Archivable(entries) && LoadNormalized(codec, aar) == Some(Normalized(entries))
  }

  lemma ApiIsShipped(codec: Codec, source: Entries, contract: Contract, contractBytes: Bytes)
    requires Sound(codec) && MemberName(contract.apiAar.embeddedContractPath) && forall n | n in source :: NulFree(n)
    requires ApiComponent(codec, source, contract, contractBytes).Some?
    ensures ApiShipped(codec, source, contract, contractBytes, ApiComponent(codec, source, contract, contractBytes).value)
  {
    hide NulFree, Normal, LoadNormalized, WriteArchive, Archivable, Normalized, KeptInApi, ApiKeeps;
    var entries := ApiEntries(source, contract, contractBytes);
    ApiEntriesKeep(source, contract, contractBytes);
    WrittenLoads(codec, entries);
  }

  /** The CPU bundle holds the frozen source library and a manifest. */
  ghost predicate CpuShipped(codec: Codec, source: Entries, contract: Contract, abi: string, bundle: Bytes, manifest: Bytes)
    requires abi in contract.cpuCore.abis
  {
    var metadata := contract.cpuCore.abis[abi];
    && metadata.sourcePath in source && |source[metadata.sourcePath]| == metadata.blob.byteSize
    && codec.sha(source[metadata.sourcePath]) == metadata.blob.sha256
    && LoadNormalized(codec, bundle)
       == Some(map["manifest.json" := manifest, contract.cpuCore.libraryName := source[metadata.sourcePath]])
  }

  lemma CpuIsShipped(codec: Codec, source: Entries, contract: Contract, abi: string) returns (manifest: Bytes)
    requires Sound(codec) && DistinctMembers(contract) && abi in contract.cpuCore.abis
    requires CpuBundle(codec, source, contract, abi).Some?
    ensures var built := CpuBundle(codec, source, contract, abi).value;
            CpuShipped(codec, source, contract, abi, built.0, manifest) && built.1.manifestSha256 == codec.sha(manifest)
  {
    hide Normal, LoadNormalized, WriteArchive, Archivable, Normalized, CpuManifest;
    var metadata := contract.cpuCore.abis[abi];
    manifest := codec.dump(CpuManifest(contract, abi, metadata));
    var entries := map[MANIFEST := manifest, contract.cpuCore.libraryName := source[metadata.sourcePath]];
    SimpleNameIsNormal(MANIFEST);
    NormalNamesStay(entries);
    WrittenLoads(codec, entries);
  }

  /** The frozen source libraries under their paths. */
  ghost predicate LibrariesAre(codec: Codec, source: Entries, files: seq<GpuFile>, libraries: Entries) {
    && libraries.Keys == (set f | f in files :: f.path)
    && forall f | f in files ::
         && f.sourcePath in source && libraries[f.path] == source[f.sourcePath]
         && |source[f.sourcePath]| == f.blob.byteSize && codec.sha(source[f.sourcePath]) == f.blob.sha256
  }

  /** The GPU bundle holds these and a manifest. */
  ghost predicate GpuShipped(codec: Codec, source: Entries, contract: Contract, bundle: Bytes, manifest: Bytes) {
    exists libraries ::
      && LibrariesAre(codec, source, contract.boundedGpu.files, libraries) && "manifest.json" !in libraries
      && LoadNormalized(codec, bundle) == Some(libraries["manifest.json" := manifest])
  }

  lemma GpuIsShipped(codec: Codec, source: Entries, contract: Contract) returns (manifest: Bytes)
    requires Sound(codec) && DistinctMembers(contract) && GpuBundle(codec, source, contract).Some?
    ensures var built := GpuBundle(codec, source, contract).value;
            GpuShipped(codec, source, contract, built.0, manifest) && built.1.manifestSha256 == codec.sha(manifest)
  {
    hide LoadNormalized, WriteArchive, Archivable, Normalized, GpuLibraries, GpuManifest, DistinctMembers, Sound, NulFree,
         LibrariesAre;
    manifest := codec.dump(GpuManifest(contract));
    var libraries := GpuLibraries(codec, source, contract.boundedGpu.files).value;
    var entries := libraries[MANIFEST := manifest];
    GpuEntryNames(codec, source, contract, manifest, entries);
    WrittenLoads(codec, entries);
    LibrariesAreFrozen(codec, source, contract, libraries);
    ManifestIsNoLibrary(contract);
    assert entries - {MANIFEST} == libraries;
  }

  lemma LibrariesAreFrozen(codec: Codec, source: Entries, contract: Contract, libraries: Entries)
    requires DistinctMembers(contract) && GpuLibraries(codec, source, contract.boundedGpu.files) == Some(libraries)
    ensures LibrariesAre(codec, source, contract.boundedGpu.files, libraries)
    ensures MANIFEST !in libraries
  {
    hide GpuLibraries, MemberName;
    var files := contract.boundedGpu.files;
    GpuLibraryKeys(codec, source, files);
    forall f | f in files
      ensures f.sourcePath in source && f.path in libraries && libraries[f.path] == source[f.sourcePath]
      ensures |source[f.sourcePath]| == f.blob.byteSize && codec.sha(source[f.sourcePath]) == f.blob.sha256
    {
      var i :| 0 <= i < |files| && files[i] == f;
      GpuLibraryAt(codec, source, files, i);
    }
  }

  // ---------------------------------------------------------------- the whole directory

  /** An index record of this file: its size, its digest, its address and the digest of the manifest in it. */
  ghost predicate ListedAs(
    codec: Codec, contract: Contract, item: Json, component: string, abi: string, name: string, bundle: Bytes, manifest: Bytes)
  {
    && Get(item, "component") == Some(Text(component)) && Get(item, "abi") == Some(Text(abi))
    && Get(item, "fileName") == Some(Text(name))
    && Get(item, "byteSize") == Some(Number(|bundle|)) && Get(item, "sha256") == Some(Text(codec.sha(bundle)))
    && Get(item, "manifestSha256") == Some(Text(codec.sha(manifest)))
    && Get(item, "downloadUrl")
       == Some(Text("https://github.com/WluhWluh/bss-litert-android/releases/download/" + contract.releaseTag + "/" + name))
  }

  lemma RecordIsListed(
    codec: Codec, contract: Contract, record: Record, component: string, abi: string, name: string, bundle: Bytes,
    manifest: Bytes)
    requires Describes(codec, record, component, abi, name, bundle) && record.manifestSha256 == codec.sha(manifest)
    ensures ListedAs(codec, contract, RecordJson(contract, record), component, abi, name, bundle, manifest)
  {
  }

  ghost predicate CpuListed(
    codec: Codec, source: Entries, contract: Contract, dist: Entries, items: seq<Json>, abi: string)
    requires abi in contract.cpuCore.abis
  {
    var name := contract.cpuCore.abis[abi].bundleFileName;
    name in dist && exists item, manifest ::
      && item in items && ListedAs(codec, contract, item, "cpu-core", abi, name, dist[name], manifest)
      && CpuShipped(codec, source, contract, abi, dist[name], manifest)
  }

  ghost predicate GpuListed(codec: Codec, source: Entries, contract: Contract, dist: Entries, items: seq<Json>) {
    var name := contract.boundedGpu.bundleFileName;
    name in dist && exists item, manifest ::
      && item in items && ListedAs(codec, contract, item, "bounded-gpu", contract.boundedGpu.abi, name, dist[name], manifest)
      && GpuShipped(codec, source, contract, dist[name], manifest)
  }

  /** The file name of the one comes before that of the other. */
  ghost predicate NamedBefore(a: Json, b: Json) {
    var x, y := Get(a, "fileName"), Get(b, "fileName");
    x.Some? && x.value.Text? && y.Some? && y.value.Text? && Precedes(x.value.text, y.value.text)
  }

  /** The file names of the items ascend by code point. */
  ghost predicate ItemsAscend(items: seq<Json>) {
    forall i, j | 0 <= i < j < |items| :: NamedBefore(items[i], items[j])
  }

  lemma OrderedItemsAscend(contract: Contract, records: seq<Record>)
    requires InNameOrder(records)
    ensures ItemsAscend(RecordsJson(contract, records)) && |RecordsJson(contract, records)| == |records|
  {
    hide Less, Precedes, RecordJson, Get;
    var items := RecordsJson(contract, records);
    forall i, j | 0 <= i < j < |items| ensures NamedBefore(items[i], items[j]) {
      RecordFields(contract, records[i]);
      RecordFields(contract, records[j]);
      LessIsCodePointOrder(records[i].fileName, records[j].fileName);
    }
  }

  lemma RecordIsItem(contract: Contract, records: seq<Record>, record: Record)
    requires record in records
    ensures RecordJson(contract, record) in RecordsJson(contract, SortedRecords(records))
  {
    hide RecordJson;
    SortedMembers(records);
    var sorted := SortedRecords(records);
    var i :| 0 <= i < |sorted| && sorted[i] == record;
    assert RecordsJson(contract, sorted)[i] == RecordJson(contract, record);
  }

  lemma CpuIsListed(
    codec: Codec, source: Entries, contract: Contract, dist: Entries, records: seq<Record>, abi: string)
    requires Sound(codec) && DistinctMembers(contract) && abi in contract.cpuCore.abis
    requires CpuBundle(codec, source, contract, abi).Some? && CpuBundle(codec, source, contract, abi).value.1 in records
    requires Holds(dist, BundleName(contract, abi), CpuBundle(codec, source, contract, abi).value.0)
    ensures CpuListed(codec, source, contract, dist, RecordsJson(contract, SortedRecords(records)), abi)
  {
    hide CpuBundle, RecordJson, RecordsJson, SortedRecords, DistinctMembers, Sound, CpuShipped, ListedAs, Describes;
    var built := CpuBundle(codec, source, contract, abi).value;
    RecordsDescribe(codec, source, contract);
    var manifest := CpuIsShipped(codec, source, contract, abi);
    RecordIsListed(codec, contract, built.1, "cpu-core", abi, BundleName(contract, abi), built.0, manifest);
    RecordIsItem(contract, records, built.1);
  }

  lemma GpuIsListed(codec: Codec, source: Entries, contract: Contract, dist: Entries, records: seq<Record>)
    requires Sound(codec) && DistinctMembers(contract)
    requires GpuBundle(codec, source, contract).Some? && GpuBundle(codec, source, contract).value.1 in records
    requires Holds(dist, contract.boundedGpu.bundleFileName, GpuBundle(codec, source, contract).value.0)
    ensures GpuListed(codec, source, contract, dist, RecordsJson(contract, SortedRecords(records)))
  {
    hide CpuBundle, GpuBundle, RecordJson, RecordsJson, SortedRecords, DistinctMembers, Sound, GpuShipped, ListedAs, Describes;
    var gpu, built := contract.boundedGpu, GpuBundle(codec, source, contract).value;
    RecordsDescribe(codec, source, contract);
    var manifest := GpuIsShipped(codec, source, contract);
    RecordIsListed(codec, contract, built.1, "bounded-gpu", gpu.abi, gpu.bundleFileName, built.0, manifest);
    RecordIsItem(contract, records, built.1);
  }

  /** The index: the release tag, the API AAR's record, and one record for every bundle, in the order of their
      names. */
  ghost predicate IndexLists(codec: Codec, source: Entries, contract: Contract, dist: Entries, index: Json) {
    var api, bundles := Get(index, "apiAar"), Get(index, "bundles");
    && Get(index, "releaseTag") == Some(Text(contract.releaseTag)) && Get(index, "releaseVersion") == Some(contract.releaseVersion)
    && api.Some? && contract.apiAar.fileName in dist
    && Get(api.value, "fileName") == Some(Text(contract.apiAar.fileName))
    && Get(api.value, "byteSize") == Some(Number(|dist[contract.apiAar.fileName]|))
    && Get(api.value, "sha256") == Some(Text(codec.sha(dist[contract.apiAar.fileName])))
    && Get(api.value, "downloadUrl")
       == Some(Text("https://github.com/WluhWluh/bss-litert-android/releases/download/" + contract.releaseTag + "/"
                    + contract.apiAar.fileName))
    && bundles.Some? && bundles.value.List?
    && |bundles.value.items| == |contract.cpuCore.abis| + 1 && ItemsAscend(bundles.value.items)
    && (forall abi | abi in contract.cpuCore.abis :: CpuListed(codec, source, contract, dist, bundles.value.items, abi))
    && GpuListed(codec, source, contract, dist, bundles.value.items)
  }

  lemma IndexFieldsAre(codec: Codec, contract: Contract, api: Bytes, records: seq<Record>)
    ensures var index := Index(codec, contract, api, records);
            && Get(index, "releaseTag") == Some(Text(contract.releaseTag)) && Get(index, "apiAar").Some?
            && Get(index, "releaseVersion") == Some(contract.releaseVersion)
            && Get(index, "bundles") == Some(List(RecordsJson(contract, SortedRecords(records))))
            && Get(Get(index, "apiAar").value, "downloadUrl")
               == Some(Text("https://github.com/WluhWluh/bss-litert-android/releases/download/" + contract.releaseTag + "/"
                            + contract.apiAar.fileName))
  {
    hide RecordsJson, SortedRecords;
  }

  lemma BuiltIndexLists(
    codec: Codec, source: Entries, contract: Contract, contractBytes: Bytes, parts: Parts, dist: Entries)
    requires Sound(codec) && WellFormed(contract) && PartsOf(codec, source, contract, contractBytes, parts)
    requires Holds(dist, contract.apiAar.fileName, parts.api)
    requires Holds(dist, contract.boundedGpu.bundleFileName, parts.gpu)
    requires forall a | a in contract.cpuCore.abis ::
               && CpuBundle(codec, source, contract, a).Some?
               && Holds(dist, BundleName(contract, a), CpuBundle(codec, source, contract, a).value.0)
               && CpuBundle(codec, source, contract, a).value.1 in parts.cpu.records
    ensures IndexLists(codec, source, contract, dist, Index(codec, contract, parts.api, Records(parts)))
  {
    hide CpuBundle, GpuBundle, CpuBundles, ApiComponent, Get, Index, RecordsJson, SortedRecords, DistinctMembers,
         DistinctOutputs, Sound, CpuListed, GpuListed, SortedKeys, ItemsAscend, InNameOrder, OwnNames;
    var records := Records(parts);
    IndexFields(codec, contract, parts.api, records);
    IndexFieldsAre(codec, contract, parts.api, records);
    RecordsHaveOwnNames(codec, source, contract, contractBytes, parts);
    RecordsAreOrdered(records);
    OrderedItemsAscend(contract, SortedRecords(records));
    forall a | a in contract.cpuCore.abis
      ensures CpuListed(codec, source, contract, dist, RecordsJson(contract, SortedRecords(records)), a)
    {
      CpuIsListed(codec, source, contract, dist, records, a);
    }
    GpuIsListed(codec, source, contract, dist, records);
  }

  /** What a release holds, and that it holds nothing else. */
  lemma BuiltReleaseHolds(codec: Codec, sourceBytes: Bytes, contractBytes: Bytes, dist: Entries)
    requires Sound(codec) && Release(codec, sourceBytes, contractBytes) == Some(dist)
    requires WellFormed(codec.contract(contractBytes).value)
    ensures Load(codec, sourceBytes).Some?
    ensures var contract, source := codec.contract(contractBytes).value, Load(codec, sourceBytes).value;
            && dist.Keys == {"LICENSE-LiteRT.txt", "THIRD_PARTY_NOTICE-LiteRT.txt", "downloadable-runtime-contract.json",
                             "downloadable-runtime-index.json", "SHA256SUMS",
                             contract.apiAar.fileName, contract.boundedGpu.bundleFileName}
                            + (set a | a in contract.cpuCore.abis :: contract.cpuCore.abis[a].bundleFileName)
            && "LICENSE" in source && dist["LICENSE-LiteRT.txt"] == source["LICENSE"]
            && "THIRD_PARTY_NOTICE.txt" in source && dist["THIRD_PARTY_NOTICE-LiteRT.txt"] == source["THIRD_PARTY_NOTICE.txt"]
            && dist["downloadable-runtime-contract.json"] == contractBytes
            && ApiShipped(codec, source, contract, contractBytes, dist[contract.apiAar.fileName])
            && codec.load(dist["downloadable-runtime-index.json"]).Some?
            && IndexLists(codec, source, contract, dist, codec.load(dist["downloadable-runtime-index.json"]).value)
  {
    hide ReleaseFiles, Load, CpuBundle, IndexLists, Index, DistinctMembers, DistinctOutputs, PartsOf, CpuRecord, ApiShipped,
         WriteChecksums, NulFree, FixedName;
    var contract, source := codec.contract(contractBytes).value, Load(codec, sourceBytes).value;
    var files := ReleaseFiles(codec, source, contract, contractBytes).value;
    LoadedNamesAreNulFree(codec, sourceBytes);
    var parts := FilesAreLocated(codec, source, contract, contractBytes, files);
    FixedAndOwn(contract);
    BuiltIndexLists(codec, source, contract, contractBytes, parts, dist);
    ApiPartIsShipped(codec, source, contract, contractBytes, parts);
    ReleaseNames(codec, source, contract, contractBytes, files);
    assert dist.Keys == files.Keys + {CHECKSUM_FILE};
  }

  lemma FixedAndOwn(contract: Contract)
    requires DistinctOutputs(contract)
    ensures contract.apiAar.fileName != CHECKSUM_FILE && contract.boundedGpu.bundleFileName != CHECKSUM_FILE
    ensures forall a | a in contract.cpuCore.abis :: BundleName(contract, a) != CHECKSUM_FILE
  {
    hide OneLine;
  }

  lemma ReleaseNames(codec: Codec, source: Entries, contract: Contract, contractBytes: Bytes, files: Entries)
    requires ReleaseFiles(codec, source, contract, contractBytes) == Some(files) && DistinctOutputs(contract)
    ensures files.Keys == {"LICENSE-LiteRT.txt", "THIRD_PARTY_NOTICE-LiteRT.txt", "downloadable-runtime-contract.json",
                           "downloadable-runtime-index.json", contract.apiAar.fileName, contract.boundedGpu.bundleFileName}
                          + (set a | a in contract.cpuCore.abis :: contract.cpuCore.abis[a].bundleFileName)
  {
    hide ReleaseFiles, CpuBundle, Index, PartsOf, CpuRecord, DistinctOutputs;
    var parts := FilesAreLocated(codec, source, contract, contractBytes, files);
    var bundles := set a | a in contract.cpuCore.abis :: contract.cpuCore.abis[a].bundleFileName;
    forall n | n in files ensures
        || n == LICENSE_FILE || n == NOTICE_FILE || n == CONTRACT_FILE || n == INDEX_FILE
        || n == contract.apiAar.fileName || n == contract.boundedGpu.bundleFileName || n in bundles
    {
      if a :| a in contract.cpuCore.abis && BundleName(contract, a) == n { assert n in bundles; }
    }
    forall n | n in bundles ensures n in files {
      var a :| a in contract.cpuCore.abis && contract.cpuCore.abis[a].bundleFileName == n;
      assert Holds(files, BundleName(contract, a), CpuBundle(codec, source, contract, a).value.0);
    }
  }

  lemma ApiPartIsShipped(codec: Codec, source: Entries, contract: Contract, contractBytes: Bytes, parts: Parts)
    requires Sound(codec) && DistinctMembers(contract) && PartsOf(codec, source, contract, contractBytes, parts)
    requires forall n | n in source :: NulFree(n)
    ensures ApiShipped(codec, source, contract, contractBytes, parts.api)
  {
    hide CpuBundles, GpuBundle, ApiComponent, ApiShipped, SortedKeys, NulFree, Normal;
    ApiIsShipped(codec, source, contract, contractBytes);
  }
}
