/** The packager of the bounded-GPU AAR: it merges the two official AARs, adds the capability classes and
    the rebuilt native libraries, and describes the result in a manifest. */
module AarPackager {
  import opened Names
  import opened Archive
  import opened ReleaseFormats
  import opened Wrappers

  const JAR_MANIFEST := "META-INF/MANIFEST.MF"
  // Paths are written by component.
  const CONTRACT_ENTRY := "META-INF" + "/" + "bss-litert" + "/" + "bounded-gpu-runtime-contract.json"
  const CAPABILITY_PACKAGE := "io" + "/" + "github" + "/" + "wluhwluh" + "/" + "bss" + "/" + "litert"
  const CAPABILITY_CLASS := CAPABILITY_PACKAGE + "/" + "BssLiteRtRuntime.class"
  const CAPABILITY_INNER_CLASS := CAPABILITY_PACKAGE + "/" + "BssLiteRtRuntime$Capability.class"
  const ARM64 := "jni" + "/" + "arm64-v8a"
  const ARM64_JNI := ARM64 + "/" + "liblitert_jni.so"
  const ARM64_ACCELERATOR := ARM64 + "/" + "libLiteRtClGlAccelerator.so"
  const ARM64_SHIM := ARM64 + "/" + "libBssOcl.so"
  const X86 := "jni" + "/" + "x86"
  const X86_RUNTIME := X86 + "/" + "libLiteRt.so"
  const X86_JNI := X86 + "/" + "liblitert_jni.so"

  // ---------------------------------------------------------------- merging

  function ClassesOf(codec: Codec, entries: Entries): Option<Entries> {
    if CLASSES in entries then Load(codec, entries[CLASSES]) else None
  }

  function ApiClasses(codec: Codec, api: Entries): Option<Entries> {
    match ClassesOf(codec, api)
    case Some(classes) => Some(classes - {JAR_MANIFEST})
    case None => None
  }

  /** Entries in both AARs are equal, and none of them is native. */
  predicate Compatible(implementation: Entries, api: Entries) {
    forall n | n in api && n != CLASSES && n in implementation :: !Native(n) && implementation[n] == api[n]
  }

  /** The classes of both, in one jar. */
  function MergedJar(codec: Codec, implementation: Entries, api: Entries): Option<Bytes> {
    match (ClassesOf(codec, implementation), ApiClasses(codec, api))
    case (Some(ours), Some(theirs)) => if ours.Keys * theirs.Keys != {} then None else WriteArchive(codec, ours + theirs)
    case _ => None
  }

  /** What merge_official_aars produces, whatever order the API entries come in. */
  function Merged(codec: Codec, implementation: Entries, api: Entries): Option<Entries> {
    match MergedJar(codec, implementation, api)
    case None => None
    case Some(jar) =>
      if Compatible(implementation, api) then Some((implementation + api)[CLASSES := jar]) else None
  }

  /** merge_official_aars, visiting the API entries in the order of their dictionary. */
  method MergeOfficialAars(codec: Codec, implementation: Entries, api: Entries, order: seq<string>)
    returns (r: Option<Entries>)
    requires Lists(order, api.Keys)
    ensures r == Merged(codec, implementation, api)
  {
    hide MergedJar, Native, Restricted, Compatible;
    NothingRestricted(implementation, api);
    var jar := MergedJar(codec, implementation, api);
    if jar == None {
      return None;
    }
    var entries := implementation[CLASSES := jar.value];
    for i := 0 to |order|
      invariant entries == (implementation + Restricted(api, order[..i]))[CLASSES := jar.value]
      invariant Compatible(implementation, Restricted(api, order[..i]))
    {
      var name := order[i];
      assert name in order && name !in order[..i] && order[..i + 1] == order[..i] + [name];
      OneMoreApiEntry(implementation, api, order[..i], name, jar.value);
      if name == CLASSES {
      } else if Native(name) {
        if name in entries {
          return None;
        }
        entries := entries[name := api[name]];
      } else if name !in entries {
        entries := entries[name := api[name]];
      } else if entries[name] != api[name] {
        return None;
      }
    }
    assert order[..|order|] == order;
    AllRestricted(api, order);
    return Some(entries);
  }

  /** The entries with these names. */
  function Restricted(api: Entries, names: seq<string>): Entries {
    map n | n in names && n in api :: api[n]
  }

  lemma NothingRestricted(implementation: Entries, api: Entries)
    ensures Restricted(api, []) == map[] && Compatible(implementation, Restricted(api, []))
    ensures implementation + Restricted(api, []) == implementation
  {
  }

  lemma AllRestricted(api: Entries, order: seq<string>)
    requires Lists(order, api.Keys)
    ensures Restricted(api, order) == api
  {
  }

  lemma OneMoreApiEntry(implementation: Entries, api: Entries, before: seq<string>, name: string, jar: Bytes)
    requires name in api && name !in before && Compatible(implementation, Restricted(api, before))
    ensures var entries := (implementation + Restricted(api, before))[CLASSES := jar];
            var after := (implementation + Restricted(api, before + [name]))[CLASSES := jar];
            && after == (if name == CLASSES then entries else entries[name := api[name]])
            && (name != CLASSES ==> (name in entries <==> name in implementation))
            && (name != CLASSES && name in implementation ==> entries[name] == implementation[name])
    ensures Compatible(implementation, Restricted(api, before + [name])) <==>
            name == CLASSES || name !in implementation || (!Native(name) && implementation[name] == api[name])
    ensures Compatible(implementation, api) ==> Compatible(implementation, Restricted(api, before + [name]))
  {
    hide Native;
    assert Restricted(api, before + [name]) == Restricted(api, before)[name := api[name]];
    if name != CLASSES {
      assert (implementation + Restricted(api, before + [name]))[CLASSES := jar]
          == (implementation + Restricted(api, before))[CLASSES := jar][name := api[name]];
    }
  }

  /** The classes of both jars, the API's own jar manifest left out. */
  function BothJars(ours: Entries, theirs: Entries): Entries {
    map n | n in ours.Keys + theirs.Keys && (n in ours || n != "META-INF/MANIFEST.MF") ::
      if n in ours then ours[n] else theirs[n]
  }

  lemma TogetherIsBoth(ours: Entries, theirs: Entries)
    requires ours.Keys !! (theirs - {JAR_MANIFEST}).Keys
    ensures ours + (theirs - {JAR_MANIFEST}) == BothJars(ours, theirs)
  {
  }

  /** When the official AARs merge, in terms of the two jars as they are read: their names are disjoint but for
      the API's jar manifest, the classes of both can be archived, and the AARs share no native library and no
      entry that differs. */
  lemma MergeSucceedsExactly(codec: Codec, implementation: Entries, api: Entries)
    ensures Merged(codec, implementation, api).Some? <==>
            && "classes.jar" in implementation && Load(codec, implementation["classes.jar"]).Some?
            && "classes.jar" in api && Load(codec, api["classes.jar"]).Some?
            && (var ours, theirs := Load(codec, implementation["classes.jar"]).value, Load(codec, api["classes.jar"]).value;
                && (forall n | n in theirs && n != "META-INF/MANIFEST.MF" :: n !in ours)
                && Archivable(BothJars(ours, theirs)))
            && forall n | n in implementation && n in api && n != "classes.jar" ::
                 implementation[n] == api[n] && !exists library :: n == "jni/" + library
  {
    hide Load, Archivable, Native, Written, Normalized, BothJars;
    forall n ensures Native(n) <==> exists library :: n == "jni/" + library { NativeByPrefix(n); }
    if CLASSES in implementation && Load(codec, implementation[CLASSES]).Some?
       && CLASSES in api && Load(codec, api[CLASSES]).Some? {
      var ours, theirs := Load(codec, implementation[CLASSES]).value, Load(codec, api[CLASSES]).value;
      if ours.Keys !! (theirs - {JAR_MANIFEST}).Keys {
        TogetherIsBoth(ours, theirs);
      } else {
        var n :| n in ours && n in theirs - {JAR_MANIFEST};
        assert n in ours.Keys * (theirs - {JAR_MANIFEST}).Keys;
      }
    }
  }

  /** Conservation. A successful merge holds every entry of both AARs, unchanged, and nothing else; its
      classes.jar holds every class of both, once, under its normalised name and unchanged, and the
      implementation's jar manifest, the API's alone left out. */
  lemma MergeConserves(codec: Codec, implementation: Entries, api: Entries, ours: Entries, theirs: Entries)
    requires Sound(codec) && Merged(codec, implementation, api).Some?
    requires "classes.jar" in implementation && Load(codec, implementation["classes.jar"]) == Some(ours)
    requires "classes.jar" in api && Load(codec, api["classes.jar"]) == Some(theirs)
    ensures var merged, classes := Merged(codec, implementation, api).value, BothJars(ours, theirs);
            && merged.Keys == implementation.Keys + api.Keys
            && (forall n | n in implementation && n != "classes.jar" :: merged[n] == implementation[n])
            && (forall n | n in api && n != "classes.jar" :: merged[n] == api[n])
            && Archivable(classes) && Load(codec, merged["classes.jar"]) == Some(Normalized(classes))
            && |Normalized(classes)| == |ours| + |theirs - {"META-INF/MANIFEST.MF"}|
            && ("META-INF/MANIFEST.MF" in ours ==>
                  "META-INF/MANIFEST.MF" in Normalized(classes)
                  && Normalized(classes)["META-INF/MANIFEST.MF"] == ours["META-INF/MANIFEST.MF"])
  {
    hide Load, MergedJar, Normalized, Archivable, Native, Sound, BothJars;
    var kept := theirs - {JAR_MANIFEST};
    MergedJarReads(codec, implementation, api, ours, kept);
    TogetherIsBoth(ours, theirs);
    ManifestStays(ours, kept);
  }

  lemma ManifestStays(ours: Entries, kept: Entries)
    requires Archivable(ours + kept) && JAR_MANIFEST !in kept
    ensures JAR_MANIFEST in ours ==>
              JAR_MANIFEST in Normalized(ours + kept) && Normalized(ours + kept)[JAR_MANIFEST] == ours[JAR_MANIFEST]
  {
    hide ValidateEntryName, Normalized, Archivable;
    if JAR_MANIFEST in ours {
      JarManifestIsNormal();
      NormalizedAt(ours + kept, JAR_MANIFEST);
    }
  }

  lemma JarManifestIsNormal()
    ensures Normal(JAR_MANIFEST)
  {
    hide Normal;
    SimpleNameIsNormal("META-INF");
    SimpleNameIsNormal("MANIFEST.MF");
    NormalBelow("META-INF", "MANIFEST.MF");
    assert JAR_MANIFEST == "META-INF" + "/" + "MANIFEST.MF";
  }

  /** The merged jar, from the classes that go into it. */
  lemma MergedJarReads(codec: Codec, implementation: Entries, api: Entries, ours: Entries, theirs: Entries)
    requires Sound(codec) && Merged(codec, implementation, api).Some?
    requires ClassesOf(codec, implementation) == Some(ours) && ApiClasses(codec, api) == Some(theirs)
    ensures var merged := Merged(codec, implementation, api).value;
            && merged.Keys == implementation.Keys + api.Keys
            && Archivable(ours + theirs) && ours.Keys !! theirs.Keys
            && ClassesOf(codec, merged) == Some(Normalized(ours + theirs))
            && |Normalized(ours + theirs)| == |ours| + |theirs|
  {
    hide ValidateEntryName, Load, WriteArchive, Normalized, Archivable, NulFree, Native;
    JarNamesAreNulFree(codec, implementation, api, ours, theirs);
    WrittenLoads(codec, ours + theirs);
    NormalizedSize(ours + theirs);
    assert (ours + theirs).Keys == ours.Keys + theirs.Keys;
  }

  lemma JarNamesAreNulFree(codec: Codec, implementation: Entries, api: Entries, ours: Entries, theirs: Entries)
    requires Sound(codec)
    requires ClassesOf(codec, implementation) == Some(ours) && ApiClasses(codec, api) == Some(theirs)
    ensures forall k | k in ours + theirs :: NulFree(k)
  {
    hide NulFree, Load;
    LoadedNamesAreNulFree(codec, implementation[CLASSES]);
    LoadedNamesAreNulFree(codec, api[CLASSES]);
  }

  // ---------------------------------------------------------------- packaging

  /** What the packager reads: the three AARs, the rebuilt libraries, the compiled classes, the contract,
      the build's identity and the digests of the source files. */
  datatype Inputs = Inputs(
    implementation: Bytes, api: Bytes, x86Supplement: Bytes,
    arm64Jni: Bytes, arm64Accelerator: Bytes, arm64Shim: Bytes,
    capabilityClasses: Entries, contract: Bytes,
    outputName: string, repositoryCommit: string, liteRtCommit: string,
    patchOffset: int, patchedSha256: string, gpuPatchSha256: string, sources: map<string, Json>)

  function ExpectedNative(contract: RuntimeContract): set<string> {
    set abi, i | abi in contract.nativeMatrix && 0 <= i < |contract.nativeMatrix[abi]| ::
      "jni/" + abi + "/" + contract.nativeMatrix[abi][i]
  }

  function NativeNames(entries: Entries): set<string> {
    set n | n in entries && Native(n)
  }

  /** classes.jar with the capability classes added. */
  function JarWithCapability(codec: Codec, merged: Entries, compiled: Entries): Option<Bytes> {
    match ClassesOf(codec, merged)
    case None => None
    case Some(classes) =>
      if compiled.Keys != {CAPABILITY_CLASS, CAPABILITY_INNER_CLASS} || classes.Keys * compiled.Keys != {} then None
      else WriteArchive(codec, classes + compiled)
  }

  /** The merged entries with everything the packager adds, and without what the contract removes. */
  function Assembled(
    merged: Entries, jar: Bytes, inputs: Inputs, x86: Entries, contract: RuntimeContract): Entries
    requires X86_RUNTIME in x86 && X86_JNI in x86
  {
    var added := merged
      [CLASSES := jar]
      [ARM64_JNI := inputs.arm64Jni]
      [ARM64_ACCELERATOR := inputs.arm64Accelerator]
      [ARM64_SHIM := inputs.arm64Shim]
      [X86_RUNTIME := x86[X86_RUNTIME]]
      [X86_JNI := x86[X86_JNI]];
    (added - set r | r in contract.removedOfficialComponents)[CONTRACT_ENTRY := inputs.contract]
  }

  /** The entries of the AAR, when every check before writing it passes. */
  function PackagedEntries(codec: Codec, inputs: Inputs, contract: RuntimeContract): Option<Entries> {
    match (Load(codec, inputs.implementation), Load(codec, inputs.api), Load(codec, inputs.x86Supplement))
    case (Some(implementation), Some(api), Some(x86)) =>
      (match Merged(codec, implementation, api)
       case None => None
       case Some(merged) =>
         (match JarWithCapability(codec, merged, inputs.capabilityClasses)
          case None => None
          case Some(jar) =>
            if NativeNames(x86) != {X86_RUNTIME, X86_JNI} then None
            else
              NativePair(x86);
              var entries := Assembled(merged, jar, inputs, x86, contract);
              if NativeNames(entries) == ExpectedNative(contract) && CLASSES in entries then Some(entries) else None))
    case _ => None
  }

  lemma NativePair(x86: Entries)
    requires NativeNames(x86) == {X86_RUNTIME, X86_JNI}
    ensures X86_RUNTIME in x86 && X86_JNI in x86
  {
    assert X86_RUNTIME in NativeNames(x86) && X86_JNI in NativeNames(x86);
  }

  function ComponentJson(codec: Codec, data: Bytes): Json {
    Object(map["byteSize" := Number(|data|), "sha256" := Text(codec.sha(data))])
  }

  function Manifest(codec: Codec, inputs: Inputs, contract: RuntimeContract, entries: Entries, aar: Bytes): Json
    requires CLASSES in entries
  {
    Object(map[
      "schemaVersion" := Text("bss-litert-bounded-gpu-build-v2"),
      "coordinate" := contract.coordinate,
      "baseLiteRtVersion" := contract.baseLiteRtVersion,
      "repositoryCommit" := Text(inputs.repositoryCommit),
      "contractSha256" := Text(codec.sha(inputs.contract)),
      "inputArtifacts" := Object(map[
        "officialImplementationAar" := Text(codec.sha(inputs.implementation)),
        "officialApiAar" := Text(codec.sha(inputs.api)),
        "x86SupplementAar" := Text(codec.sha(inputs.x86Supplement))]),
      "sourceBuild" := Object(map[
        "liteRtCommit" := Text(inputs.liteRtCommit),
        "target" := Text("//litert/kotlin:litert_jni"),
        "abi" := Text("arm64-v8a"),
        "patchSha256" := Text(inputs.gpuPatchSha256),
        "outputSha256" := Text(codec.sha(inputs.arm64Jni))]),
      "transformations" := Object(map[
        "gpuOptionMapping" := Object(map[
          "sourceKey" := Text("numStepsOfCommandBufferPreparations"),
          "runtimeOption" := Text("kernel_batch_size"),
          "value" := Number(1)]),
        "openClLoader" := Object(map[
          "offset" := Number(inputs.patchOffset),
          "patchedSha256" := Text(inputs.patchedSha256),
          "replacement" := Text("libBssOcl.so")])]),
      "capability" := contract.capability,
      "nativeComponents" := Object(map n | n in entries && Native(n) :: ComponentJson(codec, entries[n])),
      "classesJar" := ComponentJson(codec, entries[CLASSES]),
      "sourceSha256" := Object(inputs.sources),
      "aar" := Object(map[
        "fileName" := Text(inputs.outputName),
        "byteSize" := Number(|aar|),
        "sha256" := Text(codec.sha(aar))])])
  }

  datatype Package = Package(aar: Bytes, manifest: Json)

  function Packaged(codec: Codec, inputs: Inputs): Option<Package> {
    match codec.runtime(inputs.contract)
    case None => None
    case Some(contract) =>
      match PackagedEntries(codec, inputs, contract)
      case None => None
      case Some(entries) =>
        match WriteArchive(codec, entries)
        case None => None
        case Some(aar) => Some(Package(aar, Manifest(codec, inputs, contract, entries, aar)))
  }

  /** The entry-assembly part of main: additions, then the loop over the removed components. */
  method AssembleEntries(merged: Entries, jar: Bytes, inputs: Inputs, x86: Entries, contract: RuntimeContract)
    returns (entries: Entries)
    requires X86_RUNTIME in x86 && X86_JNI in x86
    ensures entries == Assembled(merged, jar, inputs, x86, contract)
  {
    entries := merged[CLASSES := jar];
    entries := entries[ARM64_JNI := inputs.arm64Jni];
    entries := entries[ARM64_ACCELERATOR := inputs.arm64Accelerator];
    entries := entries[ARM64_SHIM := inputs.arm64Shim];
    var expectedX86 := [X86_RUNTIME, X86_JNI];
    for i := 0 to |expectedX86|
      invariant entries == (
        var before := merged[CLASSES := jar][ARM64_JNI := inputs.arm64Jni]
                      [ARM64_ACCELERATOR := inputs.arm64Accelerator][ARM64_SHIM := inputs.arm64Shim];
        if i == 0 then before
        else if i == 1 then before[X86_RUNTIME := x86[X86_RUNTIME]]
        else before[X86_RUNTIME := x86[X86_RUNTIME]][X86_JNI := x86[X86_JNI]])
    {
      entries := entries[expectedX86[i] := x86[expectedX86[i]]];
    }
    ghost var added := entries;
    var removed := contract.removedOfficialComponents;
    for i := 0 to |removed|
      invariant entries == added - set r | r in removed[..i]
    {
      assert removed[..i + 1] == removed[..i] + [removed[i]];
      entries := entries - {removed[i]};
    }
    assert removed[..|removed|] == removed;
    entries := entries[CONTRACT_ENTRY := inputs.contract];
  }
}
