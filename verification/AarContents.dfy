/** What the bounded-GPU AAR holds: exactly which AARs and manifests the verifier accepts, and what is in
    the ones the packager makes. */
module AarContents {
  import opened Names
  import opened Archive
  import opened Checksums
  import opened ReleaseFormats
  import opened AarPackager
  import opened AarVerifier
  import Splice
  import opened Wrappers

  // ---------------------------------------------------------------- the checks in plain terms

  /** The bytes hold the text somewhere. */
  ghost predicate Occurs(data: Bytes, text: string) {
    exists i :: Splice.At(data, Ascii(text), i)
  }

  /** Here and nowhere else. */
  ghost predicate OnlyAt(data: Bytes, name: Bytes, i: int) {
    Splice.At(data, name, i) && forall j | Splice.At(data, name, j) :: j == i
  }

  ghost predicate OccursOnce(data: Bytes, text: string) {
    exists i :: OnlyAt(data, Ascii(text), i)
  }

  /** An archive whose files ascend by code point, each with the fixed time and mode. */
  ghost predicate Strict(codec: Codec, data: Bytes) {
    && codec.unzip(data).Some?
    && NamesAscend(Files(codec.unzip(data).value)) && PlainMetadata(Files(codec.unzip(data).value))
  }

  /** The strict reader takes exactly these, and reads what they hold. */
  lemma StrictReaderTakes(codec: Codec, data: Bytes)
    ensures ReadStrict(codec, data).Some? <==> Strict(codec, data)
    ensures ReadStrict(codec, data).Some? ==> HoldsFiles(ReadStrict(codec, data).value, Files(codec.unzip(data).value))
  {
    hide Precedes, Less, HoldsFiles, Files, Contents, Sorted, Distinct, NamesOf, NamesAscend, NamesDiffer, Ascending;
    if codec.unzip(data).Some? {
      var members := codec.unzip(data).value;
      NormalizedReaderTakes(members);
      ReaderTakes(members);
      AscendingMembers(Files(members));
      SortedAreAscending(NamesOf(Files(members)));
      DistinctFileNames(Files(members));
    }
  }

  lemma SameFilesHeld(a: Entries, b: Entries, files: Members)
    requires HoldsFiles(a, files) && HoldsFiles(b, files)
    ensures a == b
  {
    forall n | n in a ensures n in b && a[n] == b[n] {
      var i :| 0 <= i < |files| && files[i].name == n;
    }
    forall n | n in b ensures n in a { }
  }

  lemma MarkerOccurs(data: Bytes, text: string)
    ensures Contains(data, Ascii(text)) <==> Occurs(data, text)
  {
    hide Splice.Find;
  }

  lemma RedirectedMeans(accelerator: Bytes)
    ensures Redirected(accelerator) <==>
            OccursOnce(accelerator, "libBssOcl.so") && !Occurs(accelerator, "libOpenCL.so")
  {
    hide Splice.Find, Splice.Count, Splice.OnlyAtStart, Splice.At;
    var name := Splice.REPLACEMENT_LIBRARY;
    Splice.LibraryNames();
    Splice.BoundedNamesAreApart();
    Splice.OneOccurrence(accelerator, name);
    MarkerOccurs(accelerator, "libOpenCL.so");
    OneMeansOnce(accelerator, name);
  }

  lemma OccurrencesAre(data: Bytes, name: Bytes)
    requires name != []
    ensures forall i :: Splice.At(data, name, i) <==> i >= 0 && i in Splice.Occurrences(data, name, 0)
  {
  }

  lemma OneMeansOnce(data: Bytes, name: Bytes)
    requires name != []
    ensures (Splice.Find(data, name, 0).Some? && Splice.Occurrences(data, name, 0) == {Splice.Find(data, name, 0).value})
            <==> exists i :: OnlyAt(data, name, i)
  {
    hide Splice.Find, Splice.At, Splice.Occurrences, OnlyAt;
    var found, all := Splice.Find(data, name, 0), Splice.Occurrences(data, name, 0);
    if found.Some? && all == {found.value} { OnlyOne(data, name, found.value); }
    if i :| OnlyAt(data, name, i) {
      FoundOnly(data, name, i);
      OnlyOne(data, name, i);
    }
  }

  lemma OnlyOne(data: Bytes, name: Bytes, i: nat)
    requires name != []
    ensures OnlyAt(data, name, i) <==> Splice.Occurrences(data, name, 0) == {i}
  {
    hide Splice.At, Splice.Occurrences;
    OccurrencesAre(data, name);
  }

  lemma FoundOnly(data: Bytes, name: Bytes, i: int)
    requires OnlyAt(data, name, i)
    ensures i >= 0 && Splice.Find(data, name, 0) == Some(i)
  {
    hide Splice.Find;
  }

  lemma EndsWithMeans(s: string, suffix: string)
    ensures EndsWith(s, suffix) <==> exists before :: s == before + suffix
  {
    if EndsWith(s, suffix) { assert s == s[..|s| - |suffix|] + suffix; }
  }

  /** The native libraries are those of the contract's matrix. */
  ghost predicate MatrixHeld(entries: Entries, contract: RuntimeContract) {
    forall library: string :: "jni/" + library in entries <==>
      exists abi, i :: abi in contract.nativeMatrix && 0 <= i < |contract.nativeMatrix[abi]|
                       && library == abi + "/" + contract.nativeMatrix[abi][i]
  }

  lemma NativesMean(entries: Entries, contract: RuntimeContract)
    ensures NativeNames(entries) == ExpectedNative(contract) <==> MatrixHeld(entries, contract)
  {
    hide NativeNames, ExpectedNative, MatrixHeld;
    if NativeNames(entries) == ExpectedNative(contract) {
      assert MatrixHeld(entries, contract) by { NativesToMatrix(entries, contract); }
    }
    if MatrixHeld(entries, contract) { MatrixToNatives(entries, contract); }
  }

  lemma ExpectedBelow(contract: RuntimeContract, library: string)
    ensures "jni/" + library in ExpectedNative(contract) <==>
            exists abi, i :: abi in contract.nativeMatrix && 0 <= i < |contract.nativeMatrix[abi]|
                             && library == abi + "/" + contract.nativeMatrix[abi][i]
  {
    if "jni/" + library in ExpectedNative(contract) {
      var abi, i :| abi in contract.nativeMatrix && 0 <= i < |contract.nativeMatrix[abi]|
                    && "jni/" + library == "jni/" + abi + "/" + contract.nativeMatrix[abi][i];
      assert library == ("jni/" + library)[4..] == abi + "/" + contract.nativeMatrix[abi][i];
    }
    if abi, i :| abi in contract.nativeMatrix && 0 <= i < |contract.nativeMatrix[abi]|
                 && library == abi + "/" + contract.nativeMatrix[abi][i] {
      assert "jni/" + library == "jni/" + abi + "/" + contract.nativeMatrix[abi][i];
    }
  }

  lemma ExpectedAreNative(contract: RuntimeContract, n: string)
    requires n in ExpectedNative(contract)
    ensures |n| >= 4 && n == "jni/" + n[4..]
  {
    var abi, i :| abi in contract.nativeMatrix && 0 <= i < |contract.nativeMatrix[abi]|
                  && n == "jni/" + abi + "/" + contract.nativeMatrix[abi][i];
    assert n[..4] == "jni/";
  }

  lemma NativesToMatrix(entries: Entries, contract: RuntimeContract)
    requires NativeNames(entries) == ExpectedNative(contract)
    ensures MatrixHeld(entries, contract)
  {
    hide ExpectedNative;
    forall library: string
      ensures "jni/" + library in entries <==> "jni/" + library in ExpectedNative(contract)
    {
      assert "jni/" + library in NativeNames(entries) <==> "jni/" + library in entries;
    }
    forall library: string { ExpectedBelow(contract, library); }
  }

  lemma MatrixToNatives(entries: Entries, contract: RuntimeContract)
    requires MatrixHeld(entries, contract)
    ensures NativeNames(entries) == ExpectedNative(contract)
  {
    hide ExpectedNative, Native;
    forall n ensures n in NativeNames(entries) <==> n in ExpectedNative(contract) {
      NativeByPrefix(n);
      if Native(n) {
        var library :| n == "jni/" + library;
        ExpectedBelow(contract, library);
      } else if n in ExpectedNative(contract) {
        ExpectedAreNative(contract, n);
      }
    }
  }

  /** The capability classes and the LiteRT classes. */
  function RequiredClasses(): seq<string> {
    ["io" + "/" + "github" + "/" + "wluhwluh" + "/" + "bss" + "/" + "litert" + "/" + "BssLiteRtRuntime.class",
     "io" + "/" + "github" + "/" + "wluhwluh" + "/" + "bss" + "/" + "litert" + "/" + "BssLiteRtRuntime$Capability.class",
     "com/google/ai/edge/litert/CompiledModel.class",
     "com/google/ai/edge/litert/Environment.class",
     "org/tensorflow/lite/Interpreter.class"]
  }

  /** The jar: a strict archive with these classes. */
  ghost predicate JarHolds(codec: Codec, jar: Bytes) {
    && codec.unzip(jar).Some? && Strict(codec, jar)
    && forall c | c in RequiredClasses() ::
         exists i :: 0 <= i < |Files(codec.unzip(jar).value)| && Files(codec.unzip(jar).value)[i].name == c
  }

  lemma RequiredClassesAre(keys: set<string>)
    ensures {CAPABILITY_CLASS, CAPABILITY_INNER_CLASS} + LITERT_CLASSES <= keys <==>
            forall c | c in RequiredClasses() :: c in keys
  {
    var required := RequiredClasses();
    assert required[0] == CAPABILITY_CLASS && required[1] == CAPABILITY_INNER_CLASS;
    assert LITERT_CLASSES == {required[2], required[3], required[4]};
    assert forall c | c in required :: c in {CAPABILITY_CLASS, CAPABILITY_INNER_CLASS} + LITERT_CLASSES;
  }

  lemma JarMeans(codec: Codec, jar: Bytes)
    ensures ClassesComplete(codec, jar) <==> JarHolds(codec, jar)
  {
    hide ReadStrict, NamesAscend, PlainMetadata, Files, HoldsFiles, RequiredClasses;
    StrictReaderTakes(codec, jar);
    if Strict(codec, jar) {
      HeldNames(ReadStrict(codec, jar).value, Files(codec.unzip(jar).value));
      RequiredClassesAre(ReadStrict(codec, jar).value.Keys);
    }
  }

  lemma HeldNames(entries: Entries, files: Members)
    requires HoldsFiles(entries, files)
    ensures forall n :: n in entries <==> exists i :: 0 <= i < |files| && files[i].name == n
  {
  }

  /** The contract itself, its native libraries and nothing else below jni/, no accelerator for the other
      ABIs, no diagnostic shim, the classes, and the three rebuilt libraries with their marks. */
  ghost predicate AarHolds(codec: Codec, entries: Entries, contract: RuntimeContract, contractBytes: Bytes) {
    && "META-INF" + "/" + "bss-litert" + "/" + "bounded-gpu-runtime-contract.json" in entries
    && entries["META-INF" + "/" + "bss-litert" + "/" + "bounded-gpu-runtime-contract.json"] == contractBytes
    && MatrixHeld(entries, contract)
    && (forall abi | abi in ["armeabi-v7a", "x86_64", "x86"] ::
          "jni/" + abi + "/" + "libLiteRtClGlAccelerator.so" !in entries)
    && (forall directory: string :: directory + "libOCLQ.so" !in entries)
    && "classes.jar" in entries && JarHolds(codec, entries["classes.jar"])
    && "jni" + "/" + "arm64-v8a" + "/" + "libLiteRtClGlAccelerator.so" in entries
    && OccursOnce(entries["jni" + "/" + "arm64-v8a" + "/" + "libLiteRtClGlAccelerator.so"], "libBssOcl.so")
    && !Occurs(entries["jni" + "/" + "arm64-v8a" + "/" + "libLiteRtClGlAccelerator.so"], "libOpenCL.so")
    && "jni" + "/" + "arm64-v8a" + "/" + "libBssOcl.so" in entries
    && (forall marker | marker in [contract.artifactVersion, contract.profileId,
                                   "nativeGetCapabilitySchemaVersion", "nativeGetEventWaitCount"] ::
          Occurs(entries["jni" + "/" + "arm64-v8a" + "/" + "libBssOcl.so"], marker))
    && "jni" + "/" + "arm64-v8a" + "/" + "liblitert_jni.so" in entries
    && Occurs(entries["jni" + "/" + "arm64-v8a" + "/" + "liblitert_jni.so"],
              "Failed to set Booming SS bounded GPU kernelBatchSize.")
  }

  lemma ShimMeans(shim: Bytes, contract: RuntimeContract)
    ensures ShimMarked(shim, contract) <==>
            forall marker | marker in [contract.artifactVersion, contract.profileId,
                                       "nativeGetCapabilitySchemaVersion", "nativeGetEventWaitCount"] ::
              Occurs(shim, marker)
  {
    hide Contains, Occurs;
    MarkerOccurs(shim, contract.artifactVersion);
    MarkerOccurs(shim, contract.profileId);
    MarkerOccurs(shim, "nativeGetCapabilitySchemaVersion");
    MarkerOccurs(shim, "nativeGetEventWaitCount");
  }

  lemma NoAccelerators(entries: Entries)
    ensures (ARMV7_ACCELERATOR !in entries && X86_64_ACCELERATOR !in entries && X86_ACCELERATOR !in entries) <==>
            forall abi | abi in ["armeabi-v7a", "x86_64", "x86"] ::
              "jni/" + abi + "/" + "libLiteRtClGlAccelerator.so" !in entries
  {
  }

  lemma NoDiagnostics(entries: Entries)
    ensures (forall n | n in entries :: !EndsWith(n, DIAGNOSTIC_SHIM)) <==>
            forall directory: string :: directory + "libOCLQ.so" !in entries
  {
    hide EndsWith;
    forall n ensures EndsWith(n, DIAGNOSTIC_SHIM) <==> exists before :: n == before + DIAGNOSTIC_SHIM {
      EndsWithMeans(n, DIAGNOSTIC_SHIM);
    }
  }

  lemma EntriesMean(codec: Codec, entries: Entries, contract: RuntimeContract, contractBytes: Bytes)
    ensures AcceptableEntries(codec, entries, contract, contractBytes) <==> AarHolds(codec, entries, contract, contractBytes)
  {
    hide EndsWith, Redirected, ShimMarked, Occurs, OccursOnce, Contains, ClassesComplete, JarHolds, MatrixHeld,
         ExpectedNative, NativeNames;
    NativesMean(entries, contract);
    NoAccelerators(entries);
    NoDiagnostics(entries);
    if CLASSES in entries { JarMeans(codec, entries[CLASSES]); }
    if ARM64_ACCELERATOR in entries { RedirectedMeans(entries[ARM64_ACCELERATOR]); }
    if ARM64_SHIM in entries { ShimMeans(entries[ARM64_SHIM], contract); }
    if ARM64_JNI in entries {
      MarkerOccurs(entries[ARM64_JNI], "Failed to set Booming SS bounded GPU kernelBatchSize.");
    }
  }

  /** value[outer][inner] is this. */
  ghost predicate Has(value: Json, outer: string, inner: string, expected: Json) {
    Get(value, outer).Some? && Get(Get(value, outer).value, inner) == Some(expected)
  }

  /** The manifest gives the contract's coordinate and capability and the digests of the contract, of the
      AAR, of the rebuilt JNI library and of every native library. */
  ghost predicate ManifestDescribes(
    codec: Codec, manifest: Json, entries: Entries, aar: Bytes, contract: RuntimeContract, contractBytes: Bytes)
  {
    && Get(manifest, "coordinate") == Some(contract.coordinate) && Get(manifest, "capability") == Some(contract.capability)
    && Get(manifest, "contractSha256") == Some(Text(codec.sha(contractBytes)))
    && Has(manifest, "aar", "sha256", Text(codec.sha(aar)))
    && "jni" + "/" + "arm64-v8a" + "/" + "liblitert_jni.so" in entries
    && Has(manifest, "sourceBuild", "outputSha256",
           Text(codec.sha(entries["jni" + "/" + "arm64-v8a" + "/" + "liblitert_jni.so"])))
    && Get(manifest, "nativeComponents").Some?
    && forall library: string | "jni/" + library in entries ::
         Has(Get(manifest, "nativeComponents").value, "jni/" + library, "sha256",
             Text(codec.sha(entries["jni/" + library])))
  }

  lemma ManifestMeans(
    codec: Codec, manifest: Json, entries: Entries, aar: Bytes, contract: RuntimeContract, contractBytes: Bytes)
    requires NativeNames(entries) == ExpectedNative(contract)
    ensures AcceptableManifest(codec, manifest, entries, aar, contract, contractBytes) <==>
            ManifestDescribes(codec, manifest, entries, aar, contract, contractBytes)
  {
    hide Get, ExpectedNative, NativeNames, Native;
    NativesBelow(entries, contract);
    var components := Get(manifest, "nativeComponents");
    if components.Some? {
      forall n | n in ExpectedNative(contract)
        ensures GetIn(components.value, n, "sha256") == Some(Text(codec.sha(entries[n]))) <==>
                Has(components.value, n, "sha256", Text(codec.sha(entries[n])))
      {
      }
    }
  }

  lemma NativesBelow(entries: Entries, contract: RuntimeContract)
    requires NativeNames(entries) == ExpectedNative(contract)
    ensures forall n | n in ExpectedNative(contract) :: n in entries && exists library :: n == "jni/" + library
    ensures forall library: string | "jni/" + library in entries :: "jni/" + library in ExpectedNative(contract)
  {
    hide ExpectedNative, Native;
    forall n | n in ExpectedNative(contract) ensures n in entries && exists library :: n == "jni/" + library {
      assert n in NativeNames(entries);
      NativeByPrefix(n);
    }
    forall library: string | "jni/" + library in entries ensures "jni/" + library in ExpectedNative(contract) {
      NativeByPrefix("jni/" + library);
      assert "jni/" + library in NativeNames(entries);
    }
  }

  /** The verifier accepts an AAR and a manifest for a contract if and only if the archive is strict and holds
      what AarHolds says, and the manifest describes it. */
  lemma VerifiedExactly(codec: Codec, aar: Bytes, manifest: Json, contractBytes: Bytes)
    ensures Verified(codec, aar, manifest, contractBytes) <==>
            codec.runtime(contractBytes).Some? && codec.unzip(aar).Some? && Strict(codec, aar)
            && exists entries: Entries ::
              && HoldsFiles(entries, Files(codec.unzip(aar).value))
              && AarHolds(codec, entries, codec.runtime(contractBytes).value, contractBytes)
              && ManifestDescribes(codec, manifest, entries, aar, codec.runtime(contractBytes).value, contractBytes)
  {
    hide ReadStrict, NamesAscend, PlainMetadata, HoldsFiles, Files, AarHolds, ManifestDescribes,
         AcceptableManifest, AcceptableEntries;
    StrictReaderTakes(codec, aar);
    if codec.runtime(contractBytes).Some? && Strict(codec, aar) {
      var contract, files := codec.runtime(contractBytes).value, Files(codec.unzip(aar).value);
      var read := ReadStrict(codec, aar).value;
      forall entries | HoldsFiles(entries, files) ensures entries == read { SameFilesHeld(entries, read, files); }
      EntriesMean(codec, read, contract, contractBytes);
      if AcceptableEntries(codec, read, contract, contractBytes) {
        AcceptedNatives(codec, read, contract, contractBytes);
        ManifestMeans(codec, manifest, read, aar, contract, contractBytes);
      }
    }
  }

  lemma AcceptedNatives(codec: Codec, entries: Entries, contract: RuntimeContract, contractBytes: Bytes)
    requires AcceptableEntries(codec, entries, contract, contractBytes)
    ensures NativeNames(entries) == ExpectedNative(contract)
  {
    hide NativeNames, ExpectedNative, ClassesComplete;
  }

  /** With a collision-free hash a manifest admits one AAR, and one contract. */
  lemma ManifestsAdmitOneAar(codec: Codec, manifest: Json, a: Bytes, forA: Bytes, b: Bytes, forB: Bytes)
    requires Injective(codec.sha) && Verified(codec, a, manifest, forA) && Verified(codec, b, manifest, forB)
    ensures a == b && forA == forB
  {
    hide ReadStrict, AcceptableEntries, ExpectedNative;
  }

  // ---------------------------------------------------------------- what the packager puts in

  /** The rebuilt arm64 libraries, and the x86 pair of the supplement. */
  function Added(inputs: Inputs, x86: Entries): Entries
    requires X86_RUNTIME in x86 && X86_JNI in x86
  {
    map["jni" + "/" + "arm64-v8a" + "/" + "liblitert_jni.so" := inputs.arm64Jni,
        "jni" + "/" + "arm64-v8a" + "/" + "libLiteRtClGlAccelerator.so" := inputs.arm64Accelerator,
        "jni" + "/" + "arm64-v8a" + "/" + "libBssOcl.so" := inputs.arm64Shim,
        "jni" + "/" + "x86" + "/" + "libLiteRt.so" := x86["jni" + "/" + "x86" + "/" + "libLiteRt.so"],
        "jni" + "/" + "x86" + "/" + "liblitert_jni.so" := x86["jni" + "/" + "x86" + "/" + "liblitert_jni.so"]]
  }

  /** The contract; what the contract does not remove of the official entries and the added libraries, an added
      one before the implementation's and that before the API's; and in classes.jar the classes of both and the
      compiled ones. */
  ghost predicate Consists(
    codec: Codec, inputs: Inputs, contract: RuntimeContract, implementation: Entries, api: Entries, x86: Entries,
    classes: Entries, entries: Entries)
    requires X86_RUNTIME in x86 && X86_JNI in x86
  {
    var embedded := "META-INF" + "/" + "bss-litert" + "/" + "bounded-gpu-runtime-contract.json";
    && embedded in entries && entries[embedded] == inputs.contract
    && (forall n | n != embedded :: n in entries <==>
          (n in implementation || n in api || n in Added(inputs, x86)) && n !in contract.removedOfficialComponents)
    && (forall n | n in entries && n != embedded && n != "classes.jar" ::
          entries[n] == if n in Added(inputs, x86) then Added(inputs, x86)[n]
                        else if n in implementation then implementation[n] else api[n])
    && "classes.jar" in entries && Load(codec, entries["classes.jar"]) == Some(classes + inputs.capabilityClasses)
  }

  lemma JarLoads(codec: Codec, merged: Entries, compiled: Entries, classes: Entries)
    requires Sound(codec) && ClassesOf(codec, merged) == Some(classes) && NormalNames(classes)
    requires compiled.Keys == {CAPABILITY_CLASS, CAPABILITY_INNER_CLASS} && classes.Keys * compiled.Keys == {}
    ensures JarWithCapability(codec, merged, compiled).Some?
    ensures Load(codec, JarWithCapability(codec, merged, compiled).value) == Some(classes + compiled)
  {
    hide Normal, NulFree, WriteArchive, Load, Sound, Normalized, Archivable;
    ExtendedNames(codec, merged[CLASSES], compiled, classes);
    NormalNamesStay(classes + compiled);
    CanWrite(codec, classes + compiled);
    WrittenLoads(codec, classes + compiled);
  }

  lemma CanWrite(codec: Codec, entries: Entries)
    ensures WriteArchive(codec, entries).Some? <==> Archivable(entries)
  {
    hide Archivable, Written, Normalized;
  }

  /** The merged classes.jar reads back as the classes of both, under normal names. */
  lemma MergedClassesLoad(codec: Codec, implementation: Entries, api: Entries, ours: Entries, theirs: Entries)
    requires Sound(codec) && Merged(codec, implementation, api).Some?
    requires CLASSES in implementation && Load(codec, implementation[CLASSES]) == Some(ours)
    requires CLASSES in api && Load(codec, api[CLASSES]) == Some(theirs)
    ensures Archivable(BothJars(ours, theirs)) && NormalNames(Normalized(BothJars(ours, theirs)))
    ensures ClassesOf(codec, Merged(codec, implementation, api).value) == Some(Normalized(BothJars(ours, theirs)))
  {
    hide Load, Merged, Normalized, Archivable, BothJars, Normal, Sound;
    MergeConserves(codec, implementation, api, ours, theirs);
    forall n | n in Normalized(BothJars(ours, theirs)) ensures Normal(n) { NormalizedNames(BothJars(ours, theirs), n); }
  }

  lemma AssembledConsists(
    codec: Codec, inputs: Inputs, contract: RuntimeContract, implementation: Entries, api: Entries, x86: Entries,
    classes: Entries, merged: Entries, jar: Bytes)
    requires X86_RUNTIME in x86 && X86_JNI in x86 && CLASSES !in contract.removedOfficialComponents
    requires merged.Keys == implementation.Keys + api.Keys && CLASSES in merged
    requires forall n | n in merged && n != CLASSES :: merged[n] == if n in implementation then implementation[n] else api[n]
    requires Load(codec, jar) == Some(classes + inputs.capabilityClasses)
    ensures Consists(codec, inputs, contract, implementation, api, x86, classes,
                     Assembled(merged, jar, inputs, x86, contract))
  {
    hide Load, Assembled, Added, FixedEntry;
    AssembledFacts(merged, jar, inputs, x86, contract);
    AddedNames(inputs, x86);
    AddedValues(inputs, x86, Assembled(merged, jar, inputs, x86, contract));
  }

  lemma AddedNames(inputs: Inputs, x86: Entries)
    requires X86_RUNTIME in x86 && X86_JNI in x86
    ensures forall n :: FixedEntry(n) <==> n == CLASSES || n in Added(inputs, x86)
    ensures CLASSES !in Added(inputs, x86) && CLASSES != CONTRACT_ENTRY && FixedEntry(CLASSES)
  {
    FixedLengths();
  }

  lemma AddedValues(inputs: Inputs, x86: Entries, entries: Entries)
    requires X86_RUNTIME in x86 && X86_JNI in x86
    requires ARM64_JNI in entries ==> entries[ARM64_JNI] == inputs.arm64Jni
    requires ARM64_ACCELERATOR in entries ==> entries[ARM64_ACCELERATOR] == inputs.arm64Accelerator
    requires ARM64_SHIM in entries ==> entries[ARM64_SHIM] == inputs.arm64Shim
    requires X86_RUNTIME in entries ==> entries[X86_RUNTIME] == x86[X86_RUNTIME]
    requires X86_JNI in entries ==> entries[X86_JNI] == x86[X86_JNI]
    ensures forall n | n in entries && n in Added(inputs, x86) :: entries[n] == Added(inputs, x86)[n]
  {
    FixedLengths();
  }

  /** The supplement's native libraries are the x86 pair. */
  ghost predicate HasPair(x86: Entries) {
    && "jni" + "/" + "x86" + "/" + "libLiteRt.so" in x86 && "jni" + "/" + "x86" + "/" + "liblitert_jni.so" in x86
    && forall library: string | "jni/" + library in x86 ::
         "jni/" + library in ["jni" + "/" + "x86" + "/" + "libLiteRt.so", "jni" + "/" + "x86" + "/" + "liblitert_jni.so"]
  }

  lemma PairMeans(x86: Entries)
    ensures NativeNames(x86) == {X86_RUNTIME, X86_JNI} <==> HasPair(x86)
  {
    hide Native;
    PairIsNative();
    if HasPair(x86) {
      forall n | n in NativeNames(x86) ensures n in {X86_RUNTIME, X86_JNI} { NativeByPrefix(n); }
      assert NativeNames(x86) == {X86_RUNTIME, X86_JNI};
    }
    if NativeNames(x86) == {X86_RUNTIME, X86_JNI} {
      NativePair(x86);
      forall library: string | "jni/" + library in x86 ensures "jni/" + library in [X86_RUNTIME, X86_JNI] {
        NativeByPrefix("jni/" + library);
        assert "jni/" + library in NativeNames(x86);
      }
    }
  }

  lemma PairIsNative()
    ensures Native(X86_RUNTIME) && Native(X86_JNI)
  {
    assert X86_RUNTIME[..4] == "jni/" && X86_JNI[..4] == "jni/";
  }

  /** The compiled classes are the two capability classes, and new to the merged ones. */
  ghost predicate NewClasses(compiled: Entries, classes: Entries) {
    && compiled.Keys == {
         "io" + "/" + "github" + "/" + "wluhwluh" + "/" + "bss" + "/" + "litert" + "/" + "BssLiteRtRuntime.class",
         "io" + "/" + "github" + "/" + "wluhwluh" + "/" + "bss" + "/" + "litert" + "/" + "BssLiteRtRuntime$Capability.class"}
    && forall n | n in compiled :: n !in classes
  }

  lemma NewClassesMean(compiled: Entries, classes: Entries)
    ensures NewClasses(compiled, classes) <==>
            compiled.Keys == {CAPABILITY_CLASS, CAPABILITY_INNER_CLASS} && classes.Keys * compiled.Keys == {}
  {
    if NewClasses(compiled, classes) { assert forall n | n in compiled.Keys :: n !in classes.Keys; }
    forall n | n in compiled && n in classes ensures n in classes.Keys * compiled.Keys { }
  }

  /** The entries can be packed: the merge succeeds, the classes and the pair are as they should be, and the
      result has the contract's native libraries and can be archived. */
  ghost predicate Packs(
    codec: Codec, inputs: Inputs, contract: RuntimeContract, implementation: Entries, api: Entries, x86: Entries,
    entries: Entries)
  {
    && Merged(codec, implementation, api).Some? && HasPair(x86)
    && CLASSES in implementation && Load(codec, implementation[CLASSES]).Some?
    && CLASSES in api && Load(codec, api[CLASSES]).Some?
    && var both := BothJars(Load(codec, implementation[CLASSES]).value, Load(codec, api[CLASSES]).value);
       && Archivable(both) && NewClasses(inputs.capabilityClasses, Normalized(both))
       && Consists(codec, inputs, contract, implementation, api, x86, Normalized(both), entries)
       && MatrixHeld(entries, contract)
  }

  lemma MergedParts(codec: Codec, implementation: Entries, api: Entries)
    requires Merged(codec, implementation, api).Some?
    ensures CLASSES in implementation && Load(codec, implementation[CLASSES]).Some?
    ensures CLASSES in api && Load(codec, api[CLASSES]).Some?
    ensures var merged := Merged(codec, implementation, api).value;
            && merged.Keys == implementation.Keys + api.Keys && CLASSES in merged
            && forall n | n in merged && n != CLASSES ::
                 merged[n] == if n in implementation then implementation[n] else api[n]
  {
    hide Load, WriteArchive, Native;
  }

  /** What the packager assembles packs, when it assembles anything. */
  lemma EntriesPack(
    codec: Codec, inputs: Inputs, contract: RuntimeContract, implementation: Entries, api: Entries, x86: Entries)
    requires Sound(codec) && PackagedEntries(codec, inputs, contract).Some?
    requires Load(codec, inputs.implementation) == Some(implementation) && Load(codec, inputs.api) == Some(api)
    requires Load(codec, inputs.x86Supplement) == Some(x86)
    ensures Packs(codec, inputs, contract, implementation, api, x86, PackagedEntries(codec, inputs, contract).value)
    ensures CLASSES in PackagedEntries(codec, inputs, contract).value
  {
    hide Load, Merged, WriteArchive, Assembled, ExpectedNative, NativeNames, Native, HasPair, BothJars, Normalized,
         Archivable, Consists, MatrixHeld, NormalNames, Sound, NewClasses;
    var merged := Merged(codec, implementation, api).value;
    MergedParts(codec, implementation, api);
    var ours, theirs := Load(codec, implementation[CLASSES]).value, Load(codec, api[CLASSES]).value;
    MergedClassesLoad(codec, implementation, api, ours, theirs);
    var classes := Normalized(BothJars(ours, theirs));
    var jar := JarWithCapability(codec, merged, inputs.capabilityClasses).value;
    NewClassesMean(inputs.capabilityClasses, classes);
    JarLoads(codec, merged, inputs.capabilityClasses, classes);
    PairMeans(x86);
    NativePair(x86);
    var entries := Assembled(merged, jar, inputs, x86, contract);
    ClassesAreNotRemoved(merged, jar, inputs, x86, contract);
    AssembledConsists(codec, inputs, contract, implementation, api, x86, classes, merged, jar);
    NativesMean(entries, contract);
  }

  lemma ClassesAreNotRemoved(merged: Entries, jar: Bytes, inputs: Inputs, x86: Entries, contract: RuntimeContract)
    requires X86_RUNTIME in x86 && X86_JNI in x86 && CLASSES in Assembled(merged, jar, inputs, x86, contract)
    ensures CLASSES !in contract.removedOfficialComponents
  {
    FixedLengths();
  }

  /** And it assembles something whenever some entries pack. */
  lemma PackedEntriesAreMade(
    codec: Codec, inputs: Inputs, contract: RuntimeContract, implementation: Entries, api: Entries, x86: Entries,
    entries: Entries)
    requires Sound(codec) && Packs(codec, inputs, contract, implementation, api, x86, entries)
    requires Load(codec, inputs.implementation) == Some(implementation) && Load(codec, inputs.api) == Some(api)
    requires Load(codec, inputs.x86Supplement) == Some(x86)
    ensures var made := PackagedEntries(codec, inputs, contract);
            made.Some? && made.value.Keys == entries.Keys
            && forall n | n in entries && n != CLASSES :: made.value[n] == entries[n]
  {
    hide Load, Merged, WriteArchive, Assembled, ExpectedNative, NativeNames, Native, HasPair, BothJars, Normalized,
         Archivable, Consists, MatrixHeld, NormalNames, Sound, JarWithCapability, NewClasses;
    var merged := Merged(codec, implementation, api).value;
    MergedParts(codec, implementation, api);
    var ours, theirs := Load(codec, implementation[CLASSES]).value, Load(codec, api[CLASSES]).value;
    MergedClassesLoad(codec, implementation, api, ours, theirs);
    var classes := Normalized(BothJars(ours, theirs));
    NewClassesMean(inputs.capabilityClasses, classes);
    JarLoads(codec, merged, inputs.capabilityClasses, classes);
    var jar := JarWithCapability(codec, merged, inputs.capabilityClasses).value;
    PairMeans(x86);
    NativePair(x86);
    var made := Assembled(merged, jar, inputs, x86, contract);
    ConsistKeepsClasses(codec, inputs, contract, implementation, api, x86, classes, entries);
    AssembledConsists(codec, inputs, contract, implementation, api, x86, classes, merged, jar);
    ConsistAgree(codec, inputs, contract, implementation, api, x86, classes, made, entries);
    MatrixByNames(made, entries, contract);
    NativesMean(made, contract);
  }

  lemma ConsistKeepsClasses(
    codec: Codec, inputs: Inputs, contract: RuntimeContract, implementation: Entries, api: Entries, x86: Entries,
    classes: Entries, entries: Entries)
    requires X86_RUNTIME in x86 && X86_JNI in x86
    requires Consists(codec, inputs, contract, implementation, api, x86, classes, entries)
    ensures CLASSES in entries && CLASSES !in contract.removedOfficialComponents
  {
    hide Load, Added;
    FixedLengths();
  }

  lemma ConsistAgree(
    codec: Codec, inputs: Inputs, contract: RuntimeContract, implementation: Entries, api: Entries, x86: Entries,
    classes: Entries, a: Entries, b: Entries)
    requires X86_RUNTIME in x86 && X86_JNI in x86
    requires Consists(codec, inputs, contract, implementation, api, x86, classes, a)
    requires Consists(codec, inputs, contract, implementation, api, x86, classes, b)
    ensures a.Keys == b.Keys && forall n | n in b && n != CLASSES :: a[n] == b[n]
  {
    hide Load, Added;
    forall n ensures n in a <==> n in b { }
  }

  lemma MatrixByNames(a: Entries, b: Entries, contract: RuntimeContract)
    requires a.Keys == b.Keys
    ensures MatrixHeld(a, contract) <==> MatrixHeld(b, contract)
  {
    forall n ensures n in a <==> n in b { assert n in a.Keys <==> n in b.Keys; }
  }

  lemma ArchivableByNames(a: Entries, b: Entries)
    requires a.Keys == b.Keys
    ensures Archivable(a) <==> Archivable(b)
  {
    hide ValidateEntryName;
    forall n ensures n in a <==> n in b { assert n in a.Keys <==> n in b.Keys; }
  }

  /** When there is a package: the contract and the three AARs can be read, and there are entries that pack
      and can be archived. */
  lemma PackagingSucceedsExactly(codec: Codec, inputs: Inputs)
    requires Sound(codec)
    ensures Packaged(codec, inputs).Some? <==>
            && codec.runtime(inputs.contract).Some? && Load(codec, inputs.implementation).Some?
            && Load(codec, inputs.api).Some? && Load(codec, inputs.x86Supplement).Some?
            && exists entries :: Archivable(entries)
                 && Packs(codec, inputs, codec.runtime(inputs.contract).value, Load(codec, inputs.implementation).value,
                          Load(codec, inputs.api).value, Load(codec, inputs.x86Supplement).value, entries)
  {
    hide Load, WriteArchive, PackagedEntries, Packs, Archivable, Sound, Manifest;
    if codec.runtime(inputs.contract).Some? && Load(codec, inputs.implementation).Some?
       && Load(codec, inputs.api).Some? && Load(codec, inputs.x86Supplement).Some? {
      var contract, implementation := codec.runtime(inputs.contract).value, Load(codec, inputs.implementation).value;
      var api, x86 := Load(codec, inputs.api).value, Load(codec, inputs.x86Supplement).value;
      var made := PackagedEntries(codec, inputs, contract);
      if made.Some? {
        EntriesPack(codec, inputs, contract, implementation, api, x86);
        CanWrite(codec, made.value);
      }
      forall entries | Packs(codec, inputs, contract, implementation, api, x86, entries)
        ensures made.Some? && (Archivable(entries) <==> Archivable(made.value))
      {
        PackedEntriesAreMade(codec, inputs, contract, implementation, api, x86, entries);
        ArchivableByNames(made.value, entries);
      }
    } else {
      UnreadableInputs(codec, inputs);
    }
  }

  lemma UnreadableInputs(codec: Codec, inputs: Inputs)
    ensures Packaged(codec, inputs).Some? ==>
              && codec.runtime(inputs.contract).Some? && Load(codec, inputs.implementation).Some?
              && Load(codec, inputs.api).Some? && Load(codec, inputs.x86Supplement).Some?
  {
    hide Load, Merged, JarWithCapability, Assembled, WriteArchive, NativeNames;
  }

  /** What a package holds: entries that pack, read back under their normalised names, and a manifest with the
      digests of everything that went in. */
  lemma PackageHolds(codec: Codec, inputs: Inputs, package: Package) returns (entries: Entries)
    requires Sound(codec) && Packaged(codec, inputs) == Some(package)
    ensures codec.runtime(inputs.contract).Some? && Load(codec, inputs.implementation).Some?
    ensures Load(codec, inputs.api).Some? && Load(codec, inputs.x86Supplement).Some?
    ensures Packs(codec, inputs, codec.runtime(inputs.contract).value, Load(codec, inputs.implementation).value,
                  Load(codec, inputs.api).value, Load(codec, inputs.x86Supplement).value, entries)
    ensures Archivable(entries) && LoadNormalized(codec, package.aar) == Some(Normalized(entries))
    ensures ManifestTells(codec, inputs, package, entries)
  {
    hide Load, WriteArchive, PackagedEntries, Packs, Archivable, Normalized, LoadNormalized, Sound, Manifest, ManifestTells,
         NulFree, Makes;
    UnreadableInputs(codec, inputs);
    var contract := codec.runtime(inputs.contract).value;
    entries := PackagedEntries(codec, inputs, contract).value;
    EntriesPack(codec, inputs, contract, Load(codec, inputs.implementation).value, Load(codec, inputs.api).value,
                Load(codec, inputs.x86Supplement).value);
    var m := MadeFrom(codec, inputs, contract);
    EntryNames(codec, inputs, contract, m);
    WrittenLoads(codec, entries);
    PackageTells(codec, inputs, contract, entries, package);
  }

  /** The manifest has the digests of the inputs and the size and digest of the AAR, of its classes.jar and of each
      of its native libraries. */
  ghost predicate ManifestTells(codec: Codec, inputs: Inputs, package: Package, entries: Entries) {
    && DigestsTold(codec, package.manifest, inputs)
    && ComponentTold(codec, package.manifest, "aar", package.aar)
    && "classes.jar" in entries && ComponentTold(codec, package.manifest, "classesJar", entries["classes.jar"])
    && Get(package.manifest, "nativeComponents").Some?
    && forall library: string | "jni/" + library in entries ::
         ComponentTold(codec, Get(package.manifest, "nativeComponents").value, "jni/" + library, entries["jni/" + library])
  }

  ghost predicate DigestsTold(codec: Codec, manifest: Json, inputs: Inputs) {
    && Has(manifest, "inputArtifacts", "officialImplementationAar", Text(codec.sha(inputs.implementation)))
    && Has(manifest, "inputArtifacts", "officialApiAar", Text(codec.sha(inputs.api)))
    && Has(manifest, "inputArtifacts", "x86SupplementAar", Text(codec.sha(inputs.x86Supplement)))
    && Has(manifest, "sourceBuild", "outputSha256", Text(codec.sha(inputs.arm64Jni)))
    && Get(manifest, "contractSha256") == Some(Text(codec.sha(inputs.contract)))
  }

  ghost predicate ComponentTold(codec: Codec, value: Json, key: string, data: Bytes) {
    Has(value, key, "byteSize", Number(|data|)) && Has(value, key, "sha256", Text(codec.sha(data)))
  }

  lemma PackageTells(codec: Codec, inputs: Inputs, contract: RuntimeContract, entries: Entries, package: Package)
    requires CLASSES in entries && package.manifest == Manifest(codec, inputs, contract, entries, package.aar)
    ensures ManifestTells(codec, inputs, package, entries)
  {
    hide Manifest, ComponentTold, DigestsTold, ComponentJson, Native, Get;
    DigestsAreTold(codec, inputs, contract, entries, package.aar);
    ComponentsAreTold(codec, inputs, contract, entries, package.aar);
    var natives := map n | n in entries && Native(n) :: ComponentJson(codec, entries[n]);
    forall library: string | "jni/" + library in entries
      ensures ComponentTold(codec, Object(natives), "jni/" + library, entries["jni/" + library])
    {
      NativeByPrefix("jni/" + library);
      ComponentIsTold(codec, natives, "jni/" + library, entries["jni/" + library]);
    }
  }

  lemma ComponentIsTold(codec: Codec, components: map<string, Json>, key: string, data: Bytes)
    requires key in components && components[key] == ComponentJson(codec, data)
    ensures ComponentTold(codec, Object(components), key, data)
  {
  }

  lemma DigestsAreTold(codec: Codec, inputs: Inputs, contract: RuntimeContract, entries: Entries, aar: Bytes)
    requires CLASSES in entries
    ensures DigestsTold(codec, Manifest(codec, inputs, contract, entries, aar), inputs)
  {
    hide ComponentJson, Native;
  }

  lemma ComponentsAreTold(codec: Codec, inputs: Inputs, contract: RuntimeContract, entries: Entries, aar: Bytes)
    requires CLASSES in entries
    ensures var manifest := Manifest(codec, inputs, contract, entries, aar);
            && ComponentTold(codec, manifest, "aar", aar) && ComponentTold(codec, manifest, "classesJar", entries[CLASSES])
            && Get(manifest, "nativeComponents")
               == Some(Object(map n | n in entries && Native(n) :: ComponentJson(codec, entries[n])))
  {
    hide Native;
  }
}
