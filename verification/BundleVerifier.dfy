/** The verifier of a downloadable-runtime release, and what it and the builder owe each other. */
module BundleVerifier {
  import opened Names
  import opened Archive
  import opened Checksums
  import opened ReleaseFormats
  import opened BundleBuilder
  import opened Wrappers

  // ---------------------------------------------------------------- the checks

  predicate VerifyApiAar(codec: Codec, aar: Bytes, contract: Contract, contractBytes: Bytes) {
    var entries := LoadNormalized(codec, aar);
    && entries.Some? && AcceptableApi(codec, entries.value, contract, contractBytes)
  }

  predicate AcceptableApi(codec: Codec, entries: Entries, contract: Contract, contractBytes: Bytes) {
    var embedded := contract.apiAar.embeddedContractPath;
    && (forall n | n in entries :: !Native(n))
    && embedded in entries && entries[embedded] == contractBytes
    && OLD_CONTRACT_ENTRY !in entries
    && CLASSES in entries && codec.sha(entries[CLASSES]) == contract.sourceAar.classesJarSha256
  }

  predicate VerifyCpuBundle(codec: Codec, bundle: Bytes, abi: string, contract: Contract)
    requires abi in contract.cpuCore.abis
  {
    var entries := LoadNormalized(codec, bundle);
    && entries.Some? && AcceptableCpu(codec, entries.value, abi, contract)
  }

  predicate AcceptableCpu(codec: Codec, entries: Entries, abi: string, contract: Contract)
    requires abi in contract.cpuCore.abis
  {
    var metadata, library := contract.cpuCore.abis[abi], contract.cpuCore.libraryName;
    && entries.Keys == {MANIFEST, library}
    && Matches(codec, entries[library], metadata.blob)
    && var manifest := codec.load(entries[MANIFEST]);
       && manifest.Some?
       && Get(manifest.value, "component") == Some(Text("cpu-core"))
       && Get(manifest.value, "abi") == Some(Text(abi))
       && Get(manifest.value, "files") == Some(List([CpuFileManifest(contract, metadata)]))
       && entries[MANIFEST] == codec.dump(manifest.value)
  }

  function GpuPaths(files: seq<GpuFile>): set<string> {
    set f | f in files :: f.path
  }

  predicate VerifyGpuBundle(codec: Codec, bundle: Bytes, contract: Contract) {
    var entries := LoadNormalized(codec, bundle);
    && entries.Some? && AcceptableGpu(codec, entries.value, contract)
  }

  predicate AcceptableGpu(codec: Codec, entries: Entries, contract: Contract) {
    var gpu := contract.boundedGpu;
    && entries.Keys == {MANIFEST} + GpuPaths(gpu.files)
    && (forall f | f in gpu.files :: Matches(codec, entries[f.path], f.blob))
    && var manifest := codec.load(entries[MANIFEST]);
       && manifest.Some?
       && Get(manifest.value, "component") == Some(Text("bounded-gpu"))
       && Get(manifest.value, "abi") == Some(Text(gpu.abi))
       && Get(manifest.value, "profile") == Some(gpu.profile)
       && Get(manifest.value, "requiredCore").Some?
       && Get(Get(manifest.value, "requiredCore").value, "librarySha256") == Some(gpu.requiredCoreSha256)
       && entries[MANIFEST] == codec.dump(manifest.value)
  }

  /** require_file against the size and digest of an index record. */
  predicate IdentifiedBy(codec: Codec, dist: Entries, name: string, record: Json) {
    && name in dist
    && Get(record, "byteSize") == Some(Number(|dist[name]|))
    && Get(record, "sha256") == Some(Text(codec.sha(dist[name])))
  }

  /** The dictionary keyed by component and ABI, where a later record wins. */
  function Indexed(bundles: seq<Json>, component: string, abi: string): Option<Json> {
    if bundles == [] then None
    else
      var last := bundles[|bundles| - 1];
      if Get(last, "component") == Some(Text(component)) && Get(last, "abi") == Some(Text(abi)) then Some(last)
      else Indexed(bundles[..|bundles| - 1], component, abi)
  }

  predicate Keyed(bundles: seq<Json>) {
    forall b | b in bundles :: Get(b, "component").Some? && Get(b, "abi").Some?
  }

  predicate ApiHolds(codec: Codec, dist: Entries, index: Json, contract: Contract, contractBytes: Bytes) {
    var record := Get(index, "apiAar");
    && record.Some?
    && var name := Get(record.value, "fileName");
       && name.Some? && name.value.Text?
       && IdentifiedBy(codec, dist, name.value.text, record.value)
       && VerifyApiAar(codec, dist[name.value.text], contract, contractBytes)
  }

  predicate CpuHolds(codec: Codec, dist: Entries, bundles: seq<Json>, contract: Contract, abi: string)
    requires abi in contract.cpuCore.abis
  {
    var record, name := Indexed(bundles, "cpu-core", abi), contract.cpuCore.abis[abi].bundleFileName;
    && record.Some?
    && Get(record.value, "fileName") == Some(Text(name))
    && IdentifiedBy(codec, dist, name, record.value)
    && VerifyCpuBundle(codec, dist[name], abi, contract)
  }

  predicate GpuHolds(codec: Codec, dist: Entries, bundles: seq<Json>, contract: Contract) {
    var gpu := contract.boundedGpu;
    var record := Indexed(bundles, "bounded-gpu", gpu.abi);
    && record.Some?
    && IdentifiedBy(codec, dist, gpu.bundleFileName, record.value)
    && VerifyGpuBundle(codec, dist[gpu.bundleFileName], contract)
  }

  predicate IndexHolds(codec: Codec, dist: Entries, index: Json, contract: Contract, contractBytes: Bytes) {
    && Get(index, "releaseVersion").Some?
    && ApiHolds(codec, dist, index, contract, contractBytes)
    && var bundles := Get(index, "bundles");
       && bundles.Some? && bundles.value.List? && Keyed(bundles.value.items)
       && (forall abi | abi in contract.cpuCore.abis :: CpuHolds(codec, dist, bundles.value.items, contract, abi))
       && GpuHolds(codec, dist, bundles.value.items, contract)
  }

  /** main: a release directory against the contract. */
  predicate VerifyRelease(codec: Codec, dist: Entries, contractBytes: Bytes) {
    var contract := codec.contract(contractBytes);
    && contract.Some?
    && INDEX_FILE in dist && codec.load(dist[INDEX_FILE]).Some?
    && IndexHolds(codec, dist, codec.load(dist[INDEX_FILE]).value, contract.value, contractBytes)
    && CONTRACT_FILE in dist && dist[CONTRACT_FILE] == contractBytes
    && ChecksumsHold(codec.sha, dist)
  }

  // ---------------------------------------------------------------- well-formed contracts

  predicate FixedName(name: string) {
    name == LICENSE_FILE || name == NOTICE_FILE || name == CONTRACT_FILE || name == INDEX_FILE || name == CHECKSUM_FILE
  }

  function BundleName(contract: Contract, abi: string): string
    requires abi in contract.cpuCore.abis
  {
    contract.cpuCore.abis[abi].bundleFileName
  }

  /** The output files have distinct names, each a single line. */
  predicate DistinctOutputs(contract: Contract) {
    var api, gpu, abis := contract.apiAar.fileName, contract.boundedGpu.bundleFileName, contract.cpuCore.abis;
    && !FixedName(api) && !FixedName(gpu) && api != gpu && OneLine(api) && OneLine(gpu)
    && (forall a | a in abis ::
          !FixedName(BundleName(contract, a)) && OneLine(BundleName(contract, a))
          && BundleName(contract, a) != api && BundleName(contract, a) != gpu)
    && (forall a, b | a in abis && b in abis && a != b :: BundleName(contract, a) != BundleName(contract, b))
  }

  predicate MemberName(name: string) {
    Normal(name) && NulFree(name)
  }

  predicate DistinctPaths(files: seq<GpuFile>) {
    forall i, j | 0 <= i < j < |files| :: files[i].path != files[j].path
  }

  /** The archive members have distinct normal names, and the embedded contract stays where the API AAR
      may hold it. */
  predicate DistinctMembers(contract: Contract) {
    var embedded, files := contract.apiAar.embeddedContractPath, contract.boundedGpu.files;
    && MemberName(embedded) && KeptInApi(embedded) && embedded != CLASSES
    && MemberName(contract.cpuCore.libraryName) && contract.cpuCore.libraryName != MANIFEST
    && (forall f | f in files :: MemberName(f.path) && f.path != MANIFEST)
    && DistinctPaths(files)
  }

  predicate WellFormed(contract: Contract) {
    DistinctOutputs(contract) && DistinctMembers(contract)
  }

  /** No entry that the API AAR keeps under its own name turns, once normalised, into one it must not
      hold. */
  predicate NamesStayOut(source: Entries) {
    forall n | n in source && KeptInApi(n) && ValidateEntryName(n).Some? :: KeptInApi(Normalize(n))
  }

  // ---------------------------------------------------------------- the components verify

  /** The API AAR the builder makes is accepted exactly when no kept name normalises into a dropped one. */
  lemma ApiAarVerifies(codec: Codec, source: Entries, contract: Contract, contractBytes: Bytes)
    requires Sound(codec) && DistinctMembers(contract)
    requires forall n | n in source :: NulFree(n)
    requires ApiComponent(codec, source, contract, contractBytes).Some?
    ensures VerifyApiAar(codec, ApiComponent(codec, source, contract, contractBytes).value, contract, contractBytes)
            <==> NamesStayOut(source)
  {
    hide ValidateEntryName, NulFree, Normalized, LoadNormalized, WriteArchive, Archivable, Native;
    var entries := ApiEntries(source, contract, contractBytes);
    var embedded := contract.apiAar.embeddedContractPath;
    WrittenLoads(codec, entries);
    var read := Normalized(entries);
    NormalizedAt(entries, embedded);
    SimpleNameIsNormal(CLASSES);
    ClassesAreKept();
    assert CLASSES in entries && entries[CLASSES] == source[CLASSES];
    NormalizedAt(entries, CLASSES);
    ApiNames(source, entries, embedded);
  }

  lemma ClassesAreKept()
    ensures KeptInApi(CLASSES)
  {
    assert CLASSES[0] != "jni/"[0];
  }

  lemma ApiNames(source: Entries, entries: Entries, embedded: string)
    requires Archivable(entries) && Normal(embedded) && KeptInApi(embedded)
    requires entries.Keys == (set n | n in source && KeptInApi(n)) + {embedded}
    ensures (forall n | n in Normalized(entries) :: KeptInApi(n)) <==> NamesStayOut(source)
  {
    hide ValidateEntryName, Normalized, KeptInApi;
    if NamesStayOut(source) {
      forall n | n in Normalized(entries) ensures KeptInApi(n) {
        var k := NormalizedFrom(entries, n);
      }
    } else {
      var n :| n in source && KeptInApi(n) && ValidateEntryName(n).Some? && !KeptInApi(Normalize(n));
      NormalizedAt(entries, n);
    }
  }

  /** A source with such a name: it is kept as written but becomes a native one. */
  lemma DotSlashSlipsThrough(source: Entries)
    requires "./jni/x" in source
    ensures !NamesStayOut(source)
  {
    hide ValidateEntryName;
    DotSlash();
    DotSlashIsKept();
  }

  /** Beside every source whose API AAR is accepted there is one, with such a name more, whose API AAR the
      builder makes as well and the verifier refuses. */
  lemma RefusedNeighbour(codec: Codec, source: Entries, contract: Contract, contractBytes: Bytes, data: Bytes)
    requires Sound(codec) && DistinctMembers(contract) && NamesStayOut(source)
    requires (forall n | n in source :: NulFree(n)) && "./jni/x" !in source
    requires ApiComponent(codec, source, contract, contractBytes).Some?
    ensures var more := ApiComponent(codec, source["./jni/x" := data], contract, contractBytes);
            more.Some? && !VerifyApiAar(codec, more.value, contract, contractBytes)
  {
    hide ValidateEntryName, Normalized, Archivable, VerifyApiAar, DistinctMembers, NamesStayOut, Sound, KeptInApi, NulFree,
         Written, ApiEntries;
    var more := source["./jni/x" := data];
    DotSlashIsKept();
    EmbeddedStays(contract);
    OneMoreApiName(source, contract, contractBytes, data);
    DotSlashSlipsThrough(more);
    ApiAarVerifies(codec, more, contract, contractBytes);
  }

  lemma OneMoreApiName(source: Entries, contract: Contract, contractBytes: Bytes, data: Bytes)
    requires Archivable(ApiEntries(source, contract, contractBytes)) && NamesStayOut(source) && "./jni/x" !in source
    requires Normal(contract.apiAar.embeddedContractPath) && KeptInApi(contract.apiAar.embeddedContractPath)
    requires contract.apiAar.embeddedContractPath != "./jni/x"
    ensures Archivable(ApiEntries(source["./jni/x" := data], contract, contractBytes))
  {
    hide ValidateEntryName, Normalized, Archivable, NamesStayOut, KeptInApi;
    var entries, embedded := ApiEntries(source, contract, contractBytes), contract.apiAar.embeddedContractPath;
    DotSlash();
    DotSlashIsKept();
    ApiNames(source, entries, embedded);
    FreshName(entries, "./jni/x", data);
    assert ApiEntries(source["./jni/x" := data], contract, contractBytes) == entries["./jni/x" := data];
  }

  lemma DotSlashIsKept()
    ensures KeptInApi("./jni/x") && !KeptInApi("jni/x") && NulFree("./jni/x") && "./jni/x" != CLASSES
  {
    assert "./jni/x"[0] != "jni/"[0] && |"./jni/x"| != |OLD_CONTRACT_ENTRY|;
  }

  lemma EmbeddedStays(contract: Contract)
    requires DistinctMembers(contract)
    ensures Normal(contract.apiAar.embeddedContractPath) && KeptInApi(contract.apiAar.embeddedContractPath)
    ensures contract.apiAar.embeddedContractPath != "./jni/x"
  {
    hide ValidateEntryName;
    DotSlash();
  }

  lemma CpuManifestFields(contract: Contract, abi: string, metadata: CpuAbi)
    ensures var manifest := CpuManifest(contract, abi, metadata);
            && Get(manifest, "component") == Some(Text("cpu-core")) && Get(manifest, "abi") == Some(Text(abi))
            && Get(manifest, "files") == Some(List([CpuFileManifest(contract, metadata)]))
  {
    hide CpuFileManifest;
  }

  lemma GpuManifestFields(contract: Contract)
    ensures var manifest, gpu := GpuManifest(contract), contract.boundedGpu;
            && Get(manifest, "component") == Some(Text("bounded-gpu")) && Get(manifest, "abi") == Some(Text(gpu.abi))
            && Get(manifest, "profile") == Some(gpu.profile) && Get(manifest, "requiredCore").Some?
            && Get(Get(manifest, "requiredCore").value, "librarySha256") == Some(gpu.requiredCoreSha256)
  {
    hide GpuFileManifest;
  }

  lemma CpuBundleVerifies(codec: Codec, source: Entries, contract: Contract, abi: string)
    requires Sound(codec) && DistinctMembers(contract) && abi in contract.cpuCore.abis
    requires CpuBundle(codec, source, contract, abi).Some?
    ensures VerifyCpuBundle(codec, CpuBundle(codec, source, contract, abi).value.0, abi, contract)
  {
    hide ValidateEntryName, Normalized, LoadNormalized, WriteArchive, Archivable, CpuManifest, Get, CpuFileManifest;
    CpuManifestFields(contract, abi, contract.cpuCore.abis[abi]);
    var metadata, name := contract.cpuCore.abis[abi], contract.cpuCore.libraryName;
    var manifest := CpuManifest(contract, abi, metadata);
    var entries := map[MANIFEST := codec.dump(manifest), name := source[metadata.sourcePath]];
    SimpleNameIsNormal(MANIFEST);
    NormalNamesStay(entries);
    WrittenLoads(codec, entries);
  }

  lemma GpuLibrariesStep(codec: Codec, source: Entries, before: seq<GpuFile>, last: GpuFile)
    requires GpuLibraries(codec, source, before + [last]).Some?
    ensures GpuLibraries(codec, source, before).Some?
    ensures last.sourcePath in source && Matches(codec, source[last.sourcePath], last.blob)
    ensures GpuLibraries(codec, source, before + [last]).value
         == GpuLibraries(codec, source, before).value[last.path := source[last.sourcePath]]
  {
    assert (before + [last])[..|before|] == before;
  }

  lemma {:induction false} GpuLibraryKeys(codec: Codec, source: Entries, files: seq<GpuFile>)
    requires GpuLibraries(codec, source, files).Some?
    ensures GpuLibraries(codec, source, files).value.Keys == GpuPaths(files)
  {
    if files != [] {
      hide GpuLibraries;
      var before, last := files[..|files| - 1], files[|files| - 1];
      assert files == before + [last];
      GpuLibrariesStep(codec, source, before, last);
      GpuLibraryKeys(codec, source, before);
    }
  }

  /** With distinct paths each path holds the library of its own record. */
  lemma {:induction false} GpuLibraryAt(codec: Codec, source: Entries, files: seq<GpuFile>, i: nat)
    requires GpuLibraries(codec, source, files).Some? && DistinctPaths(files) && i < |files|
    ensures files[i].path in GpuLibraries(codec, source, files).value && files[i].sourcePath in source
    ensures GpuLibraries(codec, source, files).value[files[i].path] == source[files[i].sourcePath]
    ensures Matches(codec, source[files[i].sourcePath], files[i].blob)
  {
    hide GpuLibraries, Matches;
    var before, last := files[..|files| - 1], files[|files| - 1];
    assert files == before + [last];
    GpuLibrariesStep(codec, source, before, last);
    if i < |before| { GpuLibraryAt(codec, source, before, i); }
  }

  lemma GpuEntriesAreAcceptable(codec: Codec, source: Entries, contract: Contract)
    requires Sound(codec) && DistinctMembers(contract) && GpuLibraries(codec, source, contract.boundedGpu.files).Some?
    ensures var libraries := GpuLibraries(codec, source, contract.boundedGpu.files).value;
            AcceptableGpu(codec, libraries[MANIFEST := codec.dump(GpuManifest(contract))], contract)
  {
    hide GpuLibraries, GpuManifest, Get, Matches, MemberName, OneLine;
    var files := contract.boundedGpu.files;
    var entries := GpuLibraries(codec, source, files).value[MANIFEST := codec.dump(GpuManifest(contract))];
    GpuManifestFields(contract);
    GpuLibraryKeys(codec, source, files);
    forall f | f in files ensures Matches(codec, entries[f.path], f.blob) {
      var i :| 0 <= i < |files| && files[i] == f;
      GpuLibraryAt(codec, source, files, i);
    }
  }

  lemma GpuNamesAreNormal(contract: Contract, entries: Entries)
    requires DistinctMembers(contract) && entries.Keys == {MANIFEST} + GpuPaths(contract.boundedGpu.files)
    ensures Archivable(entries) && Normalized(entries) == entries && forall k | k in entries :: NulFree(k)
  {
    hide ValidateEntryName, Archivable, Normalized, KeptInApi, DistinctPaths;
    SimpleNameIsNormal(MANIFEST);
    forall k | k in entries ensures Normal(k) && NulFree(k) {
      if k != MANIFEST { var f :| f in contract.boundedGpu.files && f.path == k; }
    }
    NormalNamesStay(entries);
  }

  lemma GpuEntryNames(codec: Codec, source: Entries, contract: Contract, manifest: Bytes, entries: Entries)
    requires DistinctMembers(contract) && GpuLibraries(codec, source, contract.boundedGpu.files).Some?
    requires entries == GpuLibraries(codec, source, contract.boundedGpu.files).value[MANIFEST := manifest]
    ensures Archivable(entries) && Normalized(entries) == entries && forall k | k in entries :: NulFree(k)
  {
    hide ValidateEntryName, GpuLibraries, DistinctMembers, Archivable, Normalized;
    GpuLibraryKeys(codec, source, contract.boundedGpu.files);
    GpuNamesAreNormal(contract, entries);
  }

  lemma GpuBundleVerifies(codec: Codec, source: Entries, contract: Contract)
    requires Sound(codec) && DistinctMembers(contract) && GpuBundle(codec, source, contract).Some?
    ensures VerifyGpuBundle(codec, GpuBundle(codec, source, contract).value.0, contract)
  {
    hide ValidateEntryName, Normalized, LoadNormalized, WriteArchive, Archivable, GpuLibraries, GpuManifest, AcceptableGpu;
    var manifest := codec.dump(GpuManifest(contract));
    var entries := GpuLibraries(codec, source, contract.boundedGpu.files).value[MANIFEST := manifest];
    GpuEntriesAreAcceptable(codec, source, contract);
    GpuEntryNames(codec, source, contract, manifest, entries);
    WrittenLoads(codec, entries);
  }

  // ---------------------------------------------------------------- the directory and the index

  lemma CpuBundlesStep(codec: Codec, source: Entries, contract: Contract, before: seq<string>, abi: string, output: Output)
    requires forall a | a in before + [abi] :: a in contract.cpuCore.abis
    requires CpuBundles(codec, source, contract, before + [abi], output).Some?
    ensures forall a | a in before :: a in contract.cpuCore.abis
    ensures CpuBundles(codec, source, contract, before, output).Some? && CpuBundle(codec, source, contract, abi).Some?
    ensures CpuBundles(codec, source, contract, before + [abi], output).value
         == (var m := CpuBundles(codec, source, contract, before, output).value;
             var built := CpuBundle(codec, source, contract, abi).value;
             Output(m.files[BundleName(contract, abi) := built.0], m.records + [built.1]))
  {
    hide CpuBundle;
    assert (before + [abi])[..|before|] == before;
    assert forall a | a in before :: a in before + [abi];
  }

  /** Where the CPU bundles and their records are, and that nothing else changed. */
  lemma {:induction false} CpuBundlesAt(
    codec: Codec, source: Entries, contract: Contract, abis: seq<string>, output: Output, i: nat)
    requires (forall a | a in abis :: a in contract.cpuCore.abis) && Distinct(abis) && DistinctOutputs(contract)
    requires CpuBundles(codec, source, contract, abis, output).Some? && i < |abis|
    ensures var r := CpuBundles(codec, source, contract, abis, output).value;
            var built := CpuBundle(codec, source, contract, abis[i]);
            && built.Some? && BundleName(contract, abis[i]) in r.files
            && r.files[BundleName(contract, abis[i])] == built.value.0 && built.value.1 in r.records
  {
    hide CpuBundles, CpuBundle, DistinctOutputs, OneLine;
    var before, last := abis[..|abis| - 1], abis[|abis| - 1];
    assert abis == before + [last];
    CpuBundlesStep(codec, source, contract, before, last, output);
    if i < |before| {
      CpuBundlesAt(codec, source, contract, before, output, i);
      DistinctBundles(contract, abis[i], last);
    }
  }

  lemma DistinctBundles(contract: Contract, a: string, b: string)
    requires DistinctOutputs(contract) && a in contract.cpuCore.abis && b in contract.cpuCore.abis && a != b
    ensures BundleName(contract, a) != BundleName(contract, b)
  {
  }

  /** The record is one of a CPU bundle. */
  ghost predicate CpuRecord(codec: Codec, source: Entries, contract: Contract, record: Record) {
    exists a :: a in contract.cpuCore.abis && CpuBundle(codec, source, contract, a).Some?
                && record == CpuBundle(codec, source, contract, a).value.1
  }

  /** A file of a bundle of one of these ABIs. */
  predicate BundleOf(contract: Contract, abis: seq<string>, n: string)
    requires forall a | a in abis :: a in contract.cpuCore.abis
  {
    exists a :: a in abis && BundleName(contract, a) == n
  }

  lemma BundleOfMore(contract: Contract, before: seq<string>, last: string)
    requires forall a | a in before + [last] :: a in contract.cpuCore.abis
    ensures forall a | a in before :: a in contract.cpuCore.abis
    ensures forall n :: BundleOf(contract, before + [last], n) <==> BundleOf(contract, before, n) || BundleName(contract, last) == n
  {
    forall a | a in before ensures a in before + [last] {}
    assert last in before + [last];
    forall n ensures BundleOf(contract, before + [last], n) <==> BundleOf(contract, before, n) || BundleName(contract, last) == n {
      if a :| a in before && BundleName(contract, a) == n { assert a in before + [last]; }
    }
  }

  lemma {:induction false} CpuFilesKeep(
    codec: Codec, source: Entries, contract: Contract, abis: seq<string>, output: Output)
    requires forall a | a in abis :: a in contract.cpuCore.abis
    requires CpuBundles(codec, source, contract, abis, output).Some?
    ensures var r := CpuBundles(codec, source, contract, abis, output).value;
            && (forall n | n in r.files :: n in output.files || BundleOf(contract, abis, n))
            && (forall n | n in output.files && !BundleOf(contract, abis, n) ::
                  n in r.files && r.files[n] == output.files[n])
  {
    if abis != [] {
      hide CpuBundles, CpuBundle, BundleOf;
      var before, last := abis[..|abis| - 1], abis[|abis| - 1];
      assert abis == before + [last] && last in abis;
      CpuBundlesStep(codec, source, contract, before, last, output);
      CpuFilesKeep(codec, source, contract, before, output);
      BundleOfMore(contract, before, last);
    }
  }

  lemma NoBundles(codec: Codec, source: Entries, contract: Contract, output: Output)
    ensures CpuBundles(codec, source, contract, [], output) == Some(output)
  {
  }

  lemma {:induction false} CpuRecordsKeep(
    codec: Codec, source: Entries, contract: Contract, abis: seq<string>, output: Output)
    requires forall a | a in abis :: a in contract.cpuCore.abis
    requires CpuBundles(codec, source, contract, abis, output).Some?
    ensures var r := CpuBundles(codec, source, contract, abis, output).value;
            forall x | x in r.records :: x in output.records || CpuRecord(codec, source, contract, x)
  {
    hide CpuBundles, CpuBundle;
    if abis == [] {
      NoBundles(codec, source, contract, output);
    } else {
      var before, last := abis[..|abis| - 1], abis[|abis| - 1];
      assert abis == before + [last] && last in abis;
      CpuBundlesStep(codec, source, contract, before, last, output);
      CpuRecordsKeep(codec, source, contract, before, output);
    }
  }

  lemma {:induction false} InsertMembers(record: Record, sorted: seq<Record>)
    ensures forall x :: x in Insert(record, sorted) <==> x == record || x in sorted
  {
    if sorted != [] {
      InsertMembers(record, sorted[..|sorted| - 1]);
      assert sorted == sorted[..|sorted| - 1] + [sorted[|sorted| - 1]];
    }
  }

  lemma {:induction false} SortedMembers(records: seq<Record>)
    ensures forall x :: x in SortedRecords(records) <==> x in records
  {
    if records != [] {
      SortedMembers(records[..|records| - 1]);
      InsertMembers(records[|records| - 1], SortedRecords(records[..|records| - 1]));
      assert records == records[..|records| - 1] + [records[|records| - 1]];
    }
  }

  lemma RecordFields(contract: Contract, record: Record)
    ensures var json := RecordJson(contract, record);
            && Get(json, "component") == Some(Text(record.component)) && Get(json, "abi") == Some(Text(record.abi))
            && Get(json, "fileName") == Some(Text(record.fileName))
            && Get(json, "byteSize") == Some(Number(record.byteSize)) && Get(json, "sha256") == Some(Text(record.sha256))
  {
  }

  lemma IndexedStep(contract: Contract, before: seq<Record>, last: Record, component: string, abi: string)
    ensures Indexed(RecordsJson(contract, before + [last]), component, abi)
         == if last.component == component && last.abi == abi then Some(RecordJson(contract, last))
            else Indexed(RecordsJson(contract, before), component, abi)
  {
    hide RecordJson, Get;
    RecordFields(contract, last);
    var all := RecordsJson(contract, before + [last]);
    assert all[..|all| - 1] == RecordsJson(contract, before);
  }

  /** The index finds a record when no other record has its component and ABI. */
  lemma {:induction false} IndexedFinds(contract: Contract, records: seq<Record>, record: Record)
    requires record in records
    requires forall x | x in records && x.component == record.component && x.abi == record.abi :: x == record
    ensures Indexed(RecordsJson(contract, records), record.component, record.abi) == Some(RecordJson(contract, record))
  {
    hide RecordJson, Get;
    var last := records[|records| - 1];
    var before := records[..|records| - 1];
    assert records == before + [last] && last in records;
    RecordFields(contract, last);
    IndexedStep(contract, before, last, record.component, record.abi);
    if last.component != record.component || last.abi != record.abi {
      assert forall x | x in before :: x in records;
      IndexedFinds(contract, before, record);
    }
  }

  lemma RecordsAreKeyed(contract: Contract, records: seq<Record>)
    ensures Keyed(RecordsJson(contract, records))
  {
    forall b | b in RecordsJson(contract, records) ensures Get(b, "component").Some? && Get(b, "abi").Some? {
      var i :| 0 <= i < |records| && RecordsJson(contract, records)[i] == b;
    }
  }

  // ---------------------------------------------------------------- the whole release

  /** A release in the making: the parts that ReleaseFiles puts together. */
  datatype Parts = Parts(api: Bytes, cpu: Output, gpu: Bytes, gpuRecord: Record)

  ghost predicate PartsOf(codec: Codec, source: Entries, contract: Contract, contractBytes: Bytes, parts: Parts) {
    && ApiComponent(codec, source, contract, contractBytes) == Some(parts.api)
    && CpuBundles(codec, source, contract, SortedKeys(contract.cpuCore.abis.Keys),
                  Output(map[contract.apiAar.fileName := parts.api], [])) == Some(parts.cpu)
    && GpuBundle(codec, source, contract) == Some((parts.gpu, parts.gpuRecord))
  }

  function Records(parts: Parts): seq<Record> {
    parts.cpu.records + [parts.gpuRecord]
  }

  lemma TakeApart(codec: Codec, source: Entries, contract: Contract, contractBytes: Bytes, files: Entries)
    returns (parts: Parts)
    requires ReleaseFiles(codec, source, contract, contractBytes) == Some(files)
    ensures PartsOf(codec, source, contract, contractBytes, parts)
    ensures "LICENSE" in source && "THIRD_PARTY_NOTICE.txt" in source
    ensures files == parts.cpu.files
                     [contract.boundedGpu.bundleFileName := parts.gpu]
                     [LICENSE_FILE := source["LICENSE"]]
                     [NOTICE_FILE := source["THIRD_PARTY_NOTICE.txt"]]
                     [CONTRACT_FILE := contractBytes]
                     [INDEX_FILE := codec.dump(Index(codec, contract, parts.api, Records(parts)))]
  {
    hide ApiComponent, CpuBundles, GpuBundle, Index, SortedKeys;
    var api := ApiComponent(codec, source, contract, contractBytes).value;
    var start := Output(map[contract.apiAar.fileName := api], []);
    var cpu := CpuBundles(codec, source, contract, SortedKeys(contract.cpuCore.abis.Keys), start).value;
    var gpu := GpuBundle(codec, source, contract).value;
    parts := Parts(api, cpu, gpu.0, gpu.1);
  }

  /** The CPU bundle of an ABI and its record, among the parts. */
  ghost predicate HasCpuBundle(codec: Codec, source: Entries, contract: Contract, cpu: Output, abi: string)
    requires abi in contract.cpuCore.abis
  {
    var built := CpuBundle(codec, source, contract, abi);
    && built.Some? && BundleName(contract, abi) in cpu.files
    && cpu.files[BundleName(contract, abi)] == built.value.0 && built.value.1 in cpu.records
  }

  lemma CpuPartsAreLocated(codec: Codec, source: Entries, contract: Contract, contractBytes: Bytes, parts: Parts)
    requires PartsOf(codec, source, contract, contractBytes, parts) && DistinctOutputs(contract)
    ensures forall a | a in contract.cpuCore.abis :: HasCpuBundle(codec, source, contract, parts.cpu, a)
    ensures forall x | x in parts.cpu.records :: CpuRecord(codec, source, contract, x)
    ensures contract.apiAar.fileName in parts.cpu.files && parts.cpu.files[contract.apiAar.fileName] == parts.api
    ensures forall n | n in parts.cpu.files ::
              n == contract.apiAar.fileName || exists a :: a in contract.cpuCore.abis && BundleName(contract, a) == n
  {
    hide CpuBundles, CpuBundle, SortedKeys, OneLine, ApiComponent, GpuBundle;
    var abis := SortedKeys(contract.cpuCore.abis.Keys);
    var start := Output(map[contract.apiAar.fileName := parts.api], []);
    AscendingNames(abis);
    forall a | a in contract.cpuCore.abis ensures HasCpuBundle(codec, source, contract, parts.cpu, a) {
      assert a in abis;
      var i :| 0 <= i < |abis| && abis[i] == a;
      CpuBundlesAt(codec, source, contract, abis, start, i);
    }
    CpuFilesKeep(codec, source, contract, abis, start);
    CpuRecordsKeep(codec, source, contract, abis, start);
  }

  /** A component stands in the directory under its name. */
  predicate Holds(files: Entries, name: string, data: Bytes) {
    name in files && files[name] == data
  }

  lemma FilesAreLocated(codec: Codec, source: Entries, contract: Contract, contractBytes: Bytes, files: Entries)
    returns (parts: Parts)
    requires ReleaseFiles(codec, source, contract, contractBytes) == Some(files) && DistinctOutputs(contract)
    ensures PartsOf(codec, source, contract, contractBytes, parts)
    ensures Holds(files, contract.apiAar.fileName, parts.api)
    ensures Holds(files, contract.boundedGpu.bundleFileName, parts.gpu)
    ensures "LICENSE" in source && Holds(files, LICENSE_FILE, source["LICENSE"])
    ensures "THIRD_PARTY_NOTICE.txt" in source && Holds(files, NOTICE_FILE, source["THIRD_PARTY_NOTICE.txt"])
    ensures Holds(files, CONTRACT_FILE, contractBytes)
    ensures Holds(files, INDEX_FILE, codec.dump(Index(codec, contract, parts.api, Records(parts))))
    ensures forall a | a in contract.cpuCore.abis ::
              && CpuBundle(codec, source, contract, a).Some?
              && Holds(files, BundleName(contract, a), CpuBundle(codec, source, contract, a).value.0)
              && CpuBundle(codec, source, contract, a).value.1 in parts.cpu.records
    ensures forall x | x in parts.cpu.records :: CpuRecord(codec, source, contract, x)
    ensures forall n | n in files ::
              || FixedName(n) || n == contract.apiAar.fileName || n == contract.boundedGpu.bundleFileName
              || exists a :: a in contract.cpuCore.abis && BundleName(contract, a) == n
    ensures CHECKSUM_FILE !in files
  {
    hide CpuBundle, OneLine, Index, CpuRecord, PartsOf, ReleaseFiles;
    parts := TakeApart(codec, source, contract, contractBytes, files);
    CpuPartsAreLocated(codec, source, contract, contractBytes, parts);
    forall a | a in contract.cpuCore.abis
      ensures CpuBundle(codec, source, contract, a).Some?
      ensures Holds(files, BundleName(contract, a), CpuBundle(codec, source, contract, a).value.0)
      ensures CpuBundle(codec, source, contract, a).value.1 in parts.cpu.records
    {
      assert HasCpuBundle(codec, source, contract, parts.cpu, a);
    }
  }

  lemma IndexFields(codec: Codec, contract: Contract, api: Bytes, records: seq<Record>)
    ensures var index := Index(codec, contract, api, records);
            && Get(index, "releaseVersion").Some? && Get(index, "apiAar").Some?
            && Get(index, "bundles") == Some(List(RecordsJson(contract, SortedRecords(records))))
            && var record := Get(index, "apiAar").value;
               && Get(record, "fileName") == Some(Text(contract.apiAar.fileName))
               && Get(record, "byteSize") == Some(Number(|api|)) && Get(record, "sha256") == Some(Text(codec.sha(api)))
  {
    hide RecordsJson, SortedRecords, BaseUrl;
  }

  /** The record describes the bundle. */
  predicate Describes(codec: Codec, record: Record, component: string, abi: string, name: string, bundle: Bytes) {
    && record.component == component && record.abi == abi && record.fileName == name
    && record.byteSize == |bundle| && record.sha256 == codec.sha(bundle)
  }

  lemma RecordsDescribe(codec: Codec, source: Entries, contract: Contract)
    ensures forall a | a in contract.cpuCore.abis && CpuBundle(codec, source, contract, a).Some? ::
              Describes(codec, CpuBundle(codec, source, contract, a).value.1, "cpu-core", a,
                        BundleName(contract, a), CpuBundle(codec, source, contract, a).value.0)
    ensures GpuBundle(codec, source, contract).Some? ==>
              Describes(codec, GpuBundle(codec, source, contract).value.1, "bounded-gpu", contract.boundedGpu.abi,
                        contract.boundedGpu.bundleFileName, GpuBundle(codec, source, contract).value.0)
  {
    hide WriteArchive, GpuLibraries, GpuManifest, CpuManifest, RequireBlob;
  }

  /** Finding a described record in the index identifies the file it describes. */
  lemma FoundRecordIdentifies(
    codec: Codec, contract: Contract, records: seq<Record>, record: Record,
    component: string, abi: string, name: string, bundle: Bytes, dist: Entries)
    requires record in records && Describes(codec, record, component, abi, name, bundle) && Holds(dist, name, bundle)
    requires forall x | x in records && x.component == component && x.abi == abi :: x == record
    ensures var found := Indexed(RecordsJson(contract, SortedRecords(records)), component, abi);
            && found.Some? && Get(found.value, "fileName") == Some(Text(name))
            && IdentifiedBy(codec, dist, name, found.value)
  {
    hide RecordJson, Get;
    SortedMembers(records);
    IndexedFinds(contract, SortedRecords(records), record);
    RecordFields(contract, record);
  }

  lemma CpuBundlesHold(codec: Codec, source: Entries, contract: Contract, records: seq<Record>, gpuRecord: Record,
                       dist: Entries, abi: string)
    requires Sound(codec) && DistinctMembers(contract) && abi in contract.cpuCore.abis
    requires CpuBundle(codec, source, contract, abi).Some? && CpuBundle(codec, source, contract, abi).value.1 in records
    requires Holds(dist, BundleName(contract, abi), CpuBundle(codec, source, contract, abi).value.0)
    requires forall x | x in records :: x == gpuRecord || CpuRecord(codec, source, contract, x)
    requires gpuRecord.component == "bounded-gpu"
    ensures CpuHolds(codec, dist, RecordsJson(contract, SortedRecords(records)), contract, abi)
  {
    hide CpuBundle, VerifyCpuBundle, IdentifiedBy, Get, Indexed, RecordsJson, SortedRecords, DistinctMembers, Sound;
    var built := CpuBundle(codec, source, contract, abi).value;
    RecordsDescribe(codec, source, contract);
    assert "cpu-core"[0] != "bounded-gpu"[0];
    forall x | x in records && x.component == "cpu-core" && x.abi == abi ensures x == built.1 {
      assert x != gpuRecord;
    }
    FoundRecordIdentifies(codec, contract, records, built.1, "cpu-core", abi, BundleName(contract, abi), built.0, dist);
    CpuBundleVerifies(codec, source, contract, abi);
  }

  lemma GpuBundleHolds(codec: Codec, source: Entries, contract: Contract, records: seq<Record>, dist: Entries)
    requires Sound(codec) && DistinctMembers(contract)
    requires GpuBundle(codec, source, contract).Some? && GpuBundle(codec, source, contract).value.1 in records
    requires Holds(dist, contract.boundedGpu.bundleFileName, GpuBundle(codec, source, contract).value.0)
    requires forall x | x in records ::
               x == GpuBundle(codec, source, contract).value.1 || CpuRecord(codec, source, contract, x)
    ensures GpuHolds(codec, dist, RecordsJson(contract, SortedRecords(records)), contract)
  {
    hide CpuBundle, GpuBundle, VerifyGpuBundle, IdentifiedBy, Get, Indexed, RecordsJson, SortedRecords,
         DistinctMembers, Sound;
    var gpu, built := contract.boundedGpu, GpuBundle(codec, source, contract).value;
    RecordsDescribe(codec, source, contract);
    assert "cpu-core"[0] != "bounded-gpu"[0];
    FoundRecordIdentifies(codec, contract, records, built.1, "bounded-gpu", gpu.abi, gpu.bundleFileName, built.0, dist);
    GpuBundleVerifies(codec, source, contract);
  }

  lemma FixedNamesAreLines()
    ensures forall n | FixedName(n) :: OneLine(n)
  {
  }

  /** The index the builder writes holds for the directory it writes, up to the API AAR's names. */
  lemma BuiltIndexHolds(codec: Codec, source: Entries, contract: Contract, contractBytes: Bytes, parts: Parts, dist: Entries)
    requires Sound(codec) && WellFormed(contract) && forall n | n in source :: NulFree(n)
    requires PartsOf(codec, source, contract, contractBytes, parts)
    requires Holds(dist, contract.apiAar.fileName, parts.api)
    requires Holds(dist, contract.boundedGpu.bundleFileName, parts.gpu)
    requires forall a | a in contract.cpuCore.abis ::
               && CpuBundle(codec, source, contract, a).Some?
               && Holds(dist, BundleName(contract, a), CpuBundle(codec, source, contract, a).value.0)
               && CpuBundle(codec, source, contract, a).value.1 in parts.cpu.records
    requires forall x | x in parts.cpu.records :: CpuRecord(codec, source, contract, x)
    ensures IndexHolds(codec, dist, Index(codec, contract, parts.api, Records(parts)), contract, contractBytes)
            <==> NamesStayOut(source)
  {
    hide CpuBundle, GpuBundle, CpuBundles, ApiComponent, VerifyApiAar, Get, Index, RecordsJson, SortedRecords,
         DistinctMembers, DistinctOutputs, Sound, CpuRecord, CpuHolds, GpuHolds, NamesStayOut, SortedKeys, NulFree;
    var records := Records(parts);
    IndexFields(codec, contract, parts.api, records);
    RecordsAreKeyed(contract, SortedRecords(records));
    ApiAarVerifies(codec, source, contract, contractBytes);
    RecordsDescribe(codec, source, contract);
    forall a | a in contract.cpuCore.abis
      ensures CpuHolds(codec, dist, RecordsJson(contract, SortedRecords(records)), contract, a)
    {
      CpuBundlesHold(codec, source, contract, records, parts.gpuRecord, dist, a);
    }
    GpuBundleHolds(codec, source, contract, records, dist);
  }

  /** Builder and verifier agree. For every well-formed contract and every source the builder accepts,
      the verifier accepts the whole directory built from them, if and only if no entry kept in the API
      AAR turns, once normalised, into a native library or the packaged contract. */
  lemma BuiltReleasesVerify(codec: Codec, sourceBytes: Bytes, contractBytes: Bytes, dist: Entries)
    requires Sound(codec) && Release(codec, sourceBytes, contractBytes) == Some(dist)
    requires WellFormed(codec.contract(contractBytes).value)
    ensures VerifyRelease(codec, dist, contractBytes) <==> NamesStayOut(Load(codec, sourceBytes).value)
  {
    hide ReleaseFiles, Load, CpuBundle, IndexHolds, Index, DistinctMembers, NamesStayOut, PartsOf, CpuRecord, OneLine,
         ChecksumsHold, WriteChecksums, NulFree;
    var contract, source := codec.contract(contractBytes).value, Load(codec, sourceBytes).value;
    var files := ReleaseFiles(codec, source, contract, contractBytes).value;
    LoadedNamesAreNulFree(codec, sourceBytes);
    var parts := FilesAreLocated(codec, source, contract, contractBytes, files);
    BuiltIndexHolds(codec, source, contract, contractBytes, parts, dist);
    FixedNamesAreLines();
    WrittenChecksumsHold(codec.sha, files);
  }

  // ---------------------------------------------------------------- a release that is built and refused

  /** More entries in the source leave the bundles as they are. */
  lemma SameCpuBundle(codec: Codec, source: Entries, more: Entries, contract: Contract, abi: string)
    requires Within(source, more) && abi in contract.cpuCore.abis && CpuBundle(codec, source, contract, abi).Some?
    ensures CpuBundle(codec, more, contract, abi) == CpuBundle(codec, source, contract, abi)
  {
    hide Matches, WriteArchive, CpuManifest, RecordOf;
  }

  lemma SameGpuBundle(codec: Codec, source: Entries, more: Entries, contract: Contract)
    requires Within(source, more) && GpuBundle(codec, source, contract).Some?
    ensures GpuBundle(codec, more, contract) == GpuBundle(codec, source, contract)
  {
    hide WriteArchive, GpuManifest, RecordOf, GpuLibraries;
    SameLibraries(codec, source, more, contract.boundedGpu.files);
  }

  lemma {:induction false} SameLibraries(codec: Codec, source: Entries, more: Entries, files: seq<GpuFile>)
    requires Within(source, more) && GpuLibraries(codec, source, files).Some?
    ensures GpuLibraries(codec, more, files) == GpuLibraries(codec, source, files)
  {
    if files != [] { SameLibraries(codec, source, more, files[..|files| - 1]); }
  }

  /** One more bundle can be built. */
  lemma CpuBundlesAdd(codec: Codec, source: Entries, contract: Contract, before: seq<string>, abi: string, output: Output)
    requires (forall a | a in before :: a in contract.cpuCore.abis) && abi in contract.cpuCore.abis
    requires CpuBundles(codec, source, contract, before, output).Some? && CpuBundle(codec, source, contract, abi).Some?
    ensures CpuBundles(codec, source, contract, before + [abi], output).Some?
  {
    hide CpuBundle;
    assert (before + [abi])[..|before|] == before;
  }

  predicate SameShape(a: Output, b: Output) {
    a.records == b.records && a.files.Keys == b.files.Keys
  }

  lemma ShapeStays(a: Output, b: Output, name: string, data: Bytes, record: Record)
    requires SameShape(a, b)
    ensures SameShape(Output(a.files[name := data], a.records + [record]), Output(b.files[name := data], b.records + [record]))
  {
  }

  lemma OneMoreSameBundle(
    codec: Codec, source: Entries, more: Entries, contract: Contract, before: seq<string>, last: string, start: Output,
    start': Output)
    requires Within(source, more)
    requires (forall a | a in before :: a in contract.cpuCore.abis) && forall a | a in before + [last] :: a in contract.cpuCore.abis
    requires CpuBundles(codec, source, contract, before + [last], start).Some?
    requires CpuBundles(codec, source, contract, before, start).Some? && CpuBundles(codec, more, contract, before, start').Some?
    requires SameShape(CpuBundles(codec, source, contract, before, start).value,
                       CpuBundles(codec, more, contract, before, start').value)
    ensures CpuBundles(codec, more, contract, before + [last], start').Some?
    ensures SameShape(CpuBundles(codec, source, contract, before + [last], start).value,
                      CpuBundles(codec, more, contract, before + [last], start').value)
  {
    hide CpuBundles, CpuBundle, Within, SameShape, BundleName;
    assert last in before + [last];
    CpuBundlesStep(codec, source, contract, before, last, start);
    SameCpuBundle(codec, source, more, contract, last);
    CpuBundlesAdd(codec, more, contract, before, last, start');
    CpuBundlesStep(codec, more, contract, before, last, start');
    var built := CpuBundle(codec, source, contract, last).value;
    ShapeStays(CpuBundles(codec, source, contract, before, start).value, CpuBundles(codec, more, contract, before, start').value,
               BundleName(contract, last), built.0, built.1);
  }

  lemma {:induction false} SameCpuBundles(
    codec: Codec, source: Entries, more: Entries, contract: Contract, abis: seq<string>, start: Output, start': Output)
    requires Within(source, more) && forall a | a in abis :: a in contract.cpuCore.abis
    requires CpuBundles(codec, source, contract, abis, start).Some? && SameShape(start, start')
    ensures CpuBundles(codec, more, contract, abis, start').Some?
    ensures SameShape(CpuBundles(codec, source, contract, abis, start).value,
                      CpuBundles(codec, more, contract, abis, start').value)
  {
    hide CpuBundle, CpuBundles, Within, SameShape;
    if abis == [] {
      NoBundles(codec, source, contract, start);
      NoBundles(codec, more, contract, start');
    } else {
      var before, last := abis[..|abis| - 1], abis[|abis| - 1];
      assert abis == before + [last] && last in abis;
      CpuBundlesStep(codec, source, contract, before, last, start);
      SameCpuBundles(codec, source, more, contract, before, start, start');
      OneMoreSameBundle(codec, source, more, contract, before, last, start, start');
    }
  }

  /** The builder makes the same files of the two sources. */
  lemma SameFiles(codec: Codec, source: Entries, more: Entries, contract: Contract, contractBytes: Bytes)
    requires Within(source, more) && ReleaseFiles(codec, source, contract, contractBytes).Some?
    requires ApiComponent(codec, more, contract, contractBytes).Some?
    ensures var files := ReleaseFiles(codec, more, contract, contractBytes);
            files.Some? && files.value.Keys == ReleaseFiles(codec, source, contract, contractBytes).value.Keys
  {
    hide ApiComponent, CpuBundle, CpuBundles, GpuBundle, Index, SortedKeys;
    var api, api' := ApiComponent(codec, source, contract, contractBytes).value,
                     ApiComponent(codec, more, contract, contractBytes).value;
    var name := contract.apiAar.fileName;
    SameGpuBundle(codec, source, more, contract);
    SameCpuBundles(codec, source, more, contract, SortedKeys(contract.cpuCore.abis.Keys),
                   Output(map[name := api], []), Output(map[name := api'], []));
  }

  /** Beside every accepted release there is one that the builder makes and the verifier refuses: its source
      AAR has one entry more, ./jni/x. */
  lemma RefusedRelease(codec: Codec, sourceBytes: Bytes, contractBytes: Bytes, dist: Entries, data: Bytes)
    returns (moreBytes: Bytes)
    requires Sound(codec) && Release(codec, sourceBytes, contractBytes) == Some(dist)
    requires WellFormed(codec.contract(contractBytes).value) && VerifyRelease(codec, dist, contractBytes)
    requires "./jni/x" !in Load(codec, sourceBytes).value
    ensures Load(codec, moreBytes) == Some(Load(codec, sourceBytes).value["./jni/x" := data])
    ensures Release(codec, moreBytes, contractBytes).Some?
    ensures !VerifyRelease(codec, Release(codec, moreBytes, contractBytes).value, contractBytes)
  {
    hide Load, ReleaseFiles, VerifyRelease, DistinctMembers, DistinctOutputs, NamesStayOut, ApiComponent, WriteChecksums,
         NulFree, Sound;
    var contract, source := codec.contract(contractBytes).value, Load(codec, sourceBytes).value;
    var more := source["./jni/x" := data];
    LoadedNamesAreNulFree(codec, sourceBytes);
    DotSlashIsKept();
    moreBytes := OneMoreMember(codec, sourceBytes, "./jni/x", data);
    BuiltReleasesVerify(codec, sourceBytes, contractBytes, dist);
    ApiIsBuilt(codec, source, contract, contractBytes);
    RefusedNeighbour(codec, source, contract, contractBytes, data);
    SameFiles(codec, source, more, contract, contractBytes);
    SameChecksums(codec, ReleaseFiles(codec, source, contract, contractBytes).value,
                  ReleaseFiles(codec, more, contract, contractBytes).value);
    var dist' := Release(codec, moreBytes, contractBytes).value;
    DotSlashSlipsThrough(more);
    BuiltReleasesVerify(codec, moreBytes, contractBytes, dist');
  }

  lemma ApiIsBuilt(codec: Codec, source: Entries, contract: Contract, contractBytes: Bytes)
    requires ReleaseFiles(codec, source, contract, contractBytes).Some?
    ensures ApiComponent(codec, source, contract, contractBytes).Some?
  {
  }

  lemma SameChecksums(codec: Codec, files: Entries, other: Entries)
    requires Sound(codec) && other.Keys == files.Keys && WriteChecksums(codec.sha, files).Some?
    ensures WriteChecksums(codec.sha, other).Some?
  {
    hide WriteChecksums, IsAscii;
    WrittenExactlyForAsciiNames(codec.sha, files);
    WrittenExactlyForAsciiNames(codec.sha, other);
    assert forall n :: n in other.Keys <==> n in files.Keys;
  }

  // ---------------------------------------------------------------- soundness

  /** The library of a CPU bundle as a client of the release would read it. */
  function CpuLibrary(codec: Codec, dist: Entries, contract: Contract, abi: string): Option<Bytes>
    requires abi in contract.cpuCore.abis
  {
    var name, library := BundleName(contract, abi), contract.cpuCore.libraryName;
    if name !in dist then None
    else
      match LoadNormalized(codec, dist[name])
      case None => None
      case Some(entries) => if library in entries then Some(entries[library]) else None
  }

  function GpuLibrary(codec: Codec, dist: Entries, contract: Contract, file: GpuFile): Option<Bytes> {
    var name := contract.boundedGpu.bundleFileName;
    if name !in dist then None
    else
      match LoadNormalized(codec, dist[name])
      case None => None
      case Some(entries) => if file.path in entries then Some(entries[file.path]) else None
  }

  /** The API AAR as a client finds it: under the name the index gives. */
  function ApiAarOf(codec: Codec, dist: Entries): Option<Entries> {
    if INDEX_FILE !in dist then None
    else
      match codec.load(dist[INDEX_FILE])
      case None => None
      case Some(index) =>
        match Get(index, "apiAar")
        case None => None
        case Some(record) =>
          match Get(record, "fileName")
          case Some(Text(name)) => if name in dist then LoadNormalized(codec, dist[name]) else None
          case _ => None
  }

  /** With a collision-free hash, whoever made the directory: once the verifier accepts it, its API AAR
      holds this very contract and byte for byte the classes.jar of any source AAR that satisfies the
      contract, and no native library. */
  lemma AcceptedClassesAreTheSource(codec: Codec, dist: Entries, contractBytes: Bytes, source: Entries)
    requires Injective(codec.sha) && VerifyRelease(codec, dist, contractBytes)
    ensures var contract, api := codec.contract(contractBytes).value, ApiAarOf(codec, dist);
            && api.Some? && CLASSES in api.value && (forall n | n in api.value :: !Native(n))
            && contract.apiAar.embeddedContractPath in api.value
            && api.value[contract.apiAar.embeddedContractPath] == contractBytes
            && (CLASSES in source && codec.sha(source[CLASSES]) == contract.sourceAar.classesJarSha256 ==>
                  api.value[CLASSES] == source[CLASSES])
  {
    hide Get, LoadNormalized, ChecksumsHold, Native, CpuHolds, GpuHolds, Keyed;
  }

  /** With a collision-free hash, whoever made the directory: once the verifier accepts it, every library
      in its bundles is byte for byte the entry of any source AAR that satisfies the contract. */
  lemma AcceptedLibrariesAreTheSource(codec: Codec, dist: Entries, contractBytes: Bytes, source: Entries)
    requires Injective(codec.sha) && VerifyRelease(codec, dist, contractBytes)
    ensures var contract := codec.contract(contractBytes).value;
            && (forall a | a in contract.cpuCore.abis ::
                  var metadata := contract.cpuCore.abis[a];
                  RequireBlob(codec, source, metadata.sourcePath, metadata.blob).Some? ==>
                    CpuLibrary(codec, dist, contract, a) == Some(source[metadata.sourcePath]))
            && (forall f | f in contract.boundedGpu.files ::
                  RequireBlob(codec, source, f.sourcePath, f.blob).Some? ==>
                    GpuLibrary(codec, dist, contract, f) == Some(source[f.sourcePath]))
  {
    hide Get, Indexed, LoadNormalized, ChecksumsHold, CpuFileManifest, ApiHolds, Keyed;
    var contract := codec.contract(contractBytes).value;
    var items := Get(codec.load(dist[INDEX_FILE]).value, "bundles").value.items;
    forall a | a in contract.cpuCore.abis
      ensures var metadata := contract.cpuCore.abis[a];
              RequireBlob(codec, source, metadata.sourcePath, metadata.blob).Some? ==>
                CpuLibrary(codec, dist, contract, a) == Some(source[metadata.sourcePath])
    {
      assert CpuHolds(codec, dist, items, contract, a);
    }
    assert GpuHolds(codec, dist, items, contract);
  }

  // ---------------------------------------------------------------- what the manifests say

  /** The manifest of an accepted CPU bundle tells the truth about the library beside it. */
  lemma CpuManifestIsTruthful(codec: Codec, entries: Entries, abi: string, contract: Contract)
    requires abi in contract.cpuCore.abis && AcceptableCpu(codec, entries, abi, contract)
    ensures var files, library := Get(codec.load(entries[MANIFEST]).value, "files"), contract.cpuCore.libraryName;
            && files.Some? && files.value.List? && |files.value.items| == 1
            && Get(files.value.items[0], "path") == Some(Text(library))
            && Get(files.value.items[0], "byteSize") == Some(Number(|entries[library]|))
            && Get(files.value.items[0], "sha256") == Some(Text(codec.sha(entries[library])))
  {
  }

  /** That of an accepted GPU bundle need not: with anything at all as its "files" the same libraries are
      accepted again. */
  lemma GpuManifestMayMisdescribe(codec: Codec, bundle: Bytes, contract: Contract, files: Json) returns (other: Bytes)
    requires Sound(codec) && DistinctMembers(contract) && VerifyGpuBundle(codec, bundle, contract)
    ensures VerifyGpuBundle(codec, other, contract)
    ensures var before, after := LoadNormalized(codec, bundle).value, LoadNormalized(codec, other).value;
            && after.Keys == before.Keys && (forall n | n in before && n != MANIFEST :: after[n] == before[n])
            && codec.load(after[MANIFEST]).Some?
            && Get(codec.load(after[MANIFEST]).value, "files") == Some(files)
  {
    hide ValidateEntryName, Normalized, LoadNormalized, Archivable, Get, Matches, OneLine, Written, NulFree, DistinctMembers;
    var entries := LoadNormalized(codec, bundle).value;
    var manifest := Described(codec.load(entries[MANIFEST]).value, files);
    ManifestWithFiles(codec.load(entries[MANIFEST]).value, files);
    var more := entries[MANIFEST := codec.dump(manifest)];
    ManifestIsNoLibrary(contract);
    assert AcceptableGpu(codec, more, contract);
    GpuNamesAreNormal(contract, more);
    other := WriteArchive(codec, more).value;
    WrittenLoads(codec, more);
  }

  lemma ManifestIsNoLibrary(contract: Contract)
    requires DistinctMembers(contract)
    ensures MANIFEST !in GpuPaths(contract.boundedGpu.files)
  {
  }

  /** The manifest with other "files". */
  function Described(manifest: Json, files: Json): Json {
    if manifest.Object? then Object(manifest.fields["files" := files]) else manifest
  }

  lemma ManifestWithFiles(manifest: Json, files: Json)
    requires Get(manifest, "component").Some?
    ensures Get(Described(manifest, files), "files") == Some(files)
    ensures forall key | key != "files" :: Get(Described(manifest, files), key) == Get(manifest, key)
  {
  }

  // ---------------------------------------------------------------- what acceptance fixes

  lemma AcceptedAssets(codec: Codec, dist: Entries, contractBytes: Bytes)
    requires VerifyRelease(codec, dist, contractBytes)
    ensures "SHA256SUMS" in dist && Decode(dist["SHA256SUMS"]).Some?
    ensures Parsed(SplitLines(Decode(dist["SHA256SUMS"]).value)) == Some(Assets(codec.sha, dist))
  {
    hide IndexHolds, Parsed, SplitLines, Decode, Assets;
  }

  lemma SameAssets(sha: Bytes -> string, a: Entries, b: Entries)
    requires Injective(sha) && Assets(sha, a) == Assets(sha, b)
    ensures forall n | n != "SHA256SUMS" :: (n in a <==> n in b) && (n in a ==> a[n] == b[n])
  {
    forall n | n != "SHA256SUMS" ensures (n in a <==> n in b) && (n in a ==> a[n] == b[n]) {
      assert n in Assets(sha, a) <==> n in Assets(sha, b);
      if n in a { assert Assets(sha, a)[n] == Assets(sha, b)[n]; }
    }
  }

  /** With a collision-free hash the checksum file fixes the whole directory: two accepted ones that hold the
      same are equal, whatever the contracts they were accepted for. */
  lemma ChecksumsFixTheDirectory(codec: Codec, a: Entries, forA: Bytes, b: Entries, forB: Bytes)
    requires Injective(codec.sha) && VerifyRelease(codec, a, forA) && VerifyRelease(codec, b, forB)
    requires "SHA256SUMS" in a && "SHA256SUMS" in b && a["SHA256SUMS"] == b["SHA256SUMS"]
    ensures a == b
  {
    hide VerifyRelease, Parsed, SplitLines, Decode, Assets;
    AcceptedAssets(codec, a, forA);
    AcceptedAssets(codec, b, forB);
    SameAssets(codec.sha, a, b);
  }

  /** So no accepted directory stays accepted when one asset is altered, added or taken away. */
  lemma AlteredDirectoriesAreRefused(codec: Codec, dist: Entries, contractBytes: Bytes, name: string, data: Bytes)
    requires Injective(codec.sha) && VerifyRelease(codec, dist, contractBytes) && name != "SHA256SUMS"
    ensures !(name in dist && dist[name] == data) ==> !VerifyRelease(codec, dist[name := data], contractBytes)
    ensures name in dist ==> !VerifyRelease(codec, dist - {name}, contractBytes)
  {
    hide VerifyRelease;
    AcceptedAssets(codec, dist, contractBytes);
    if VerifyRelease(codec, dist[name := data], contractBytes) {
      ChecksumsFixTheDirectory(codec, dist, contractBytes, dist[name := data], contractBytes);
      assert name in dist && dist[name] == data;
    }
    if name in dist && VerifyRelease(codec, dist - {name}, contractBytes) {
      ChecksumsFixTheDirectory(codec, dist, contractBytes, dist - {name}, contractBytes);
      assert false;
    }
  }

  /** The index has a record of this component that gives the file's size and digest. */
  ghost predicate Recorded(codec: Codec, dist: Entries, items: seq<Json>, component: string, abi: string, name: string) {
    name in dist && exists i ::
      && 0 <= i < |items|
      && Get(items[i], "component") == Some(Text(component)) && Get(items[i], "abi") == Some(Text(abi))
      && Get(items[i], "byteSize") == Some(Number(|dist[name]|))
      && Get(items[i], "sha256") == Some(Text(codec.sha(dist[name])))
      && (component == "cpu-core" ==> Get(items[i], "fileName") == Some(Text(name)))
      && forall j | i < j < |items| ::
           Get(items[j], "component") != Some(Text(component)) || Get(items[j], "abi") != Some(Text(abi))
  }

  lemma {:induction false} IndexedIsLast(items: seq<Json>, component: string, abi: string) returns (i: nat)
    requires Indexed(items, component, abi).Some?
    ensures i < |items| && Indexed(items, component, abi) == Some(items[i])
    ensures Get(items[i], "component") == Some(Text(component)) && Get(items[i], "abi") == Some(Text(abi))
    ensures forall j | i < j < |items| ::
              Get(items[j], "component") != Some(Text(component)) || Get(items[j], "abi") != Some(Text(abi))
  {
    hide Get;
    var last := items[|items| - 1];
    if Get(last, "component") == Some(Text(component)) && Get(last, "abi") == Some(Text(abi)) {
      i := |items| - 1;
    } else {
      i := IndexedIsLast(items[..|items| - 1], component, abi);
    }
  }

  lemma {:induction false} LastIsIndexed(items: seq<Json>, component: string, abi: string, i: nat)
    requires i < |items|
    requires Get(items[i], "component") == Some(Text(component)) && Get(items[i], "abi") == Some(Text(abi))
    requires forall j | i < j < |items| ::
               Get(items[j], "component") != Some(Text(component)) || Get(items[j], "abi") != Some(Text(abi))
    ensures Indexed(items, component, abi) == Some(items[i])
  {
    hide Get;
    if i < |items| - 1 { LastIsIndexed(items[..|items| - 1], component, abi, i); }
  }

  /** The index has a record of the API AAR, wherever that is, with its size and digest. */
  ghost predicate ApiRecorded(codec: Codec, dist: Entries, record: Json, contract: Contract, contractBytes: Bytes) {
    exists name ::
      && Get(record, "fileName") == Some(Text(name)) && name in dist
      && Get(record, "byteSize") == Some(Number(|dist[name]|))
      && Get(record, "sha256") == Some(Text(codec.sha(dist[name])))
      && VerifyApiAar(codec, dist[name], contract, contractBytes)
  }

  /** A directory is accepted if and only if it holds the contract itself, an index whose records give the size
      and the digest of an API AAR, of each ABI's CPU bundle under the contract's name for it, and of the GPU
      bundle, each of which is accepted, and checksums of exactly its other files. */
  lemma AcceptedExactly(codec: Codec, dist: Entries, contractBytes: Bytes)
    ensures VerifyRelease(codec, dist, contractBytes) <==>
            && codec.contract(contractBytes).Some?
            && "downloadable-runtime-contract.json" in dist && dist["downloadable-runtime-contract.json"] == contractBytes
            && "SHA256SUMS" in dist && Decode(dist["SHA256SUMS"]).Some?
            && Parsed(SplitLines(Decode(dist["SHA256SUMS"]).value)) == Some(Assets(codec.sha, dist))
            && "downloadable-runtime-index.json" in dist && codec.load(dist["downloadable-runtime-index.json"]).Some?
            && IndexRecords(codec, dist, codec.load(dist["downloadable-runtime-index.json"]).value,
                            codec.contract(contractBytes).value, contractBytes)
  {
    hide IndexHolds, IndexRecords, Parsed, SplitLines, Decode, Assets;
    if codec.contract(contractBytes).Some? && INDEX_FILE in dist && codec.load(dist[INDEX_FILE]).Some? {
      IndexHoldsExactly(codec, dist, codec.load(dist[INDEX_FILE]).value, codec.contract(contractBytes).value, contractBytes);
    }
  }

  ghost predicate IndexRecords(codec: Codec, dist: Entries, index: Json, contract: Contract, contractBytes: Bytes) {
    var bundles, api := Get(index, "bundles"), Get(index, "apiAar");
    && Get(index, "releaseVersion").Some? && api.Some? && ApiRecorded(codec, dist, api.value, contract, contractBytes)
    && bundles.Some? && bundles.value.List?
    && (forall b | b in bundles.value.items :: Get(b, "component").Some? && Get(b, "abi").Some?)
    && (forall abi | abi in contract.cpuCore.abis ::
          var name := contract.cpuCore.abis[abi].bundleFileName;
          Recorded(codec, dist, bundles.value.items, "cpu-core", abi, name) && VerifyCpuBundle(codec, dist[name], abi, contract))
    && Recorded(codec, dist, bundles.value.items, "bounded-gpu", contract.boundedGpu.abi, contract.boundedGpu.bundleFileName)
    && VerifyGpuBundle(codec, dist[contract.boundedGpu.bundleFileName], contract)
  }

  lemma IndexHoldsExactly(codec: Codec, dist: Entries, index: Json, contract: Contract, contractBytes: Bytes)
    ensures IndexHolds(codec, dist, index, contract, contractBytes)
            <==> IndexRecords(codec, dist, index, contract, contractBytes)
  {
    hide Get, Indexed, VerifyApiAar, VerifyCpuBundle, VerifyGpuBundle, CpuHolds, GpuHolds, ApiHolds, Recorded, ApiRecorded;
    var bundles := Get(index, "bundles");
    ApiIsRecorded(codec, dist, index, contract, contractBytes);
    if bundles.Some? && bundles.value.List? {
      forall abi | abi in contract.cpuCore.abis
        ensures var name := contract.cpuCore.abis[abi].bundleFileName;
                && (Recorded(codec, dist, bundles.value.items, "cpu-core", abi, name) ==> name in dist)
                && (CpuHolds(codec, dist, bundles.value.items, contract, abi) <==>
                    Recorded(codec, dist, bundles.value.items, "cpu-core", abi, name)
                    && VerifyCpuBundle(codec, dist[name], abi, contract))
      {
        CpuIsRecorded(codec, dist, bundles.value.items, contract, abi);
      }
      GpuIsRecorded(codec, dist, bundles.value.items, contract);
    }
  }

  lemma ApiIsRecorded(codec: Codec, dist: Entries, index: Json, contract: Contract, contractBytes: Bytes)
    ensures ApiHolds(codec, dist, index, contract, contractBytes) <==>
            Get(index, "apiAar").Some? && ApiRecorded(codec, dist, Get(index, "apiAar").value, contract, contractBytes)
  {
    hide Get, VerifyApiAar;
    if ApiHolds(codec, dist, index, contract, contractBytes) {
      var name := Get(Get(index, "apiAar").value, "fileName").value.text;
      assert Get(Get(index, "apiAar").value, "fileName") == Some(Text(name)) && name in dist;
    }
  }

  lemma IndexedRecords(codec: Codec, dist: Entries, items: seq<Json>, component: string, abi: string, name: string)
    ensures Recorded(codec, dist, items, component, abi, name) <==>
            && Indexed(items, component, abi).Some? && IdentifiedBy(codec, dist, name, Indexed(items, component, abi).value)
            && (component == "cpu-core" ==> Get(Indexed(items, component, abi).value, "fileName") == Some(Text(name)))
  {
    hide Get, Indexed;
    if Indexed(items, component, abi).Some? { var i := IndexedIsLast(items, component, abi); }
    forall i | 0 <= i < |items|
               && Get(items[i], "component") == Some(Text(component)) && Get(items[i], "abi") == Some(Text(abi))
               && (forall j | i < j < |items| ::
                     Get(items[j], "component") != Some(Text(component)) || Get(items[j], "abi") != Some(Text(abi)))
      ensures Indexed(items, component, abi) == Some(items[i])
    {
      LastIsIndexed(items, component, abi, i);
    }
  }

  lemma CpuIsRecorded(codec: Codec, dist: Entries, items: seq<Json>, contract: Contract, abi: string)
    requires abi in contract.cpuCore.abis
    ensures var name := contract.cpuCore.abis[abi].bundleFileName;
            && (Recorded(codec, dist, items, "cpu-core", abi, name) ==> name in dist)
            && (CpuHolds(codec, dist, items, contract, abi) <==>
                Recorded(codec, dist, items, "cpu-core", abi, name) && VerifyCpuBundle(codec, dist[name], abi, contract))
  {
    hide Get, Indexed, VerifyCpuBundle, Recorded;
    IndexedRecords(codec, dist, items, "cpu-core", abi, contract.cpuCore.abis[abi].bundleFileName);
  }

  lemma GpuIsRecorded(codec: Codec, dist: Entries, items: seq<Json>, contract: Contract)
    ensures var gpu := contract.boundedGpu;
            && (Recorded(codec, dist, items, "bounded-gpu", gpu.abi, gpu.bundleFileName) ==> gpu.bundleFileName in dist)
            && (GpuHolds(codec, dist, items, contract) <==>
                Recorded(codec, dist, items, "bounded-gpu", gpu.abi, gpu.bundleFileName)
                && VerifyGpuBundle(codec, dist[gpu.bundleFileName], contract))
  {
    hide Get, Indexed, VerifyGpuBundle, Recorded;
    assert "bounded-gpu"[0] != "cpu-core"[0];
    IndexedRecords(codec, dist, items, "bounded-gpu", contract.boundedGpu.abi, contract.boundedGpu.bundleFileName);
  }

  /** The accepted API AARs are exactly the archives that hold this contract and the frozen classes.jar, no
      native library and no contract of the bounded-GPU AAR. */
  lemma ApiAarsAreExactly(codec: Codec, aar: Bytes, contract: Contract, contractBytes: Bytes)
    ensures VerifyApiAar(codec, aar, contract, contractBytes) <==>
            exists entries: Entries ::
              && LoadNormalized(codec, aar) == Some(entries)
              && contract.apiAar.embeddedContractPath in entries
              && entries[contract.apiAar.embeddedContractPath] == contractBytes
              && "classes.jar" in entries && codec.sha(entries["classes.jar"]) == contract.sourceAar.classesJarSha256
              && (forall library: string :: "jni/" + library !in entries)
              && "META-INF/bss-litert/bounded-gpu-runtime-contract.json" !in entries
  {
    hide LoadNormalized, Native;
    forall n ensures Native(n) <==> exists library :: n == "jni/" + library { NativeByPrefix(n); }
  }

  /** The accepted CPU bundles are exactly the archives of the frozen library and one manifest in canonical
      JSON that names the component, the ABI and the library. */
  lemma CpuBundlesAreExactly(codec: Codec, bundle: Bytes, abi: string, contract: Contract)
    requires Sound(codec) && abi in contract.cpuCore.abis && contract.cpuCore.libraryName != "manifest.json"
    ensures VerifyCpuBundle(codec, bundle, abi, contract) <==>
            exists manifest: Json, library: Bytes ::
              && LoadNormalized(codec, bundle)
                 == Some(map["manifest.json" := codec.dump(manifest), contract.cpuCore.libraryName := library])
              && |library| == contract.cpuCore.abis[abi].blob.byteSize
              && codec.sha(library) == contract.cpuCore.abis[abi].blob.sha256
              && Get(manifest, "component") == Some(Text("cpu-core")) && Get(manifest, "abi") == Some(Text(abi))
              && Get(manifest, "files") == Some(List([CpuFileManifest(contract, contract.cpuCore.abis[abi])]))
  {
    hide LoadNormalized, Get, CpuFileManifest, Hashes;
    var name := contract.cpuCore.libraryName;
    if VerifyCpuBundle(codec, bundle, abi, contract) {
      var entries := LoadNormalized(codec, bundle).value;
      var manifest := codec.load(entries[MANIFEST]).value;
      assert entries == map["manifest.json" := codec.dump(manifest), name := entries[name]];
    }
  }

  /** The accepted GPU bundles are exactly the archives of the frozen libraries and one manifest in canonical
      JSON that names the component, the ABI, the profile and the core library it needs. */
  lemma GpuBundlesAreExactly(codec: Codec, bundle: Bytes, contract: Contract)
    requires Sound(codec) && DistinctMembers(contract)
    ensures VerifyGpuBundle(codec, bundle, contract) <==>
            exists manifest: Json, libraries: Entries ::
              && LoadNormalized(codec, bundle) == Some(libraries["manifest.json" := codec.dump(manifest)])
              && libraries.Keys == (set f | f in contract.boundedGpu.files :: f.path)
              && (forall f | f in contract.boundedGpu.files ::
                    |libraries[f.path]| == f.blob.byteSize && codec.sha(libraries[f.path]) == f.blob.sha256)
              && Get(manifest, "component") == Some(Text("bounded-gpu"))
              && Get(manifest, "abi") == Some(Text(contract.boundedGpu.abi))
              && Get(manifest, "profile") == Some(contract.boundedGpu.profile)
              && Get(manifest, "requiredCore").Some?
              && Get(Get(manifest, "requiredCore").value, "librarySha256") == Some(contract.boundedGpu.requiredCoreSha256)
  {
    hide LoadNormalized, Get, Hashes, MemberName;
    ManifestIsNoLibrary(contract);
    if VerifyGpuBundle(codec, bundle, contract) {
      var entries := LoadNormalized(codec, bundle).value;
      var manifest, libraries := codec.load(entries[MANIFEST]).value, entries - {MANIFEST};
      assert entries == libraries["manifest.json" := codec.dump(manifest)];
      assert libraries.Keys == GpuPaths(contract.boundedGpu.files);
    }
  }
}
